/**
 * The stack of write-back caches over the coin database
 * (`CCoinsViewDB`, `CCoinsViewCache`, `CCoinsModifier`).
 *
 * A view is a plain map from transaction ids to coins that are not pruned: a
 * pruned record and an absent one mean the same.  Every layer holds entries
 * flagged DIRTY (may differ from the layer below) and FRESH (the layer below
 * has nothing unpruned).
 */
module CoinsCache {
  import opened Basics
  import opened CoinRecords

  /** A 256-bit transaction hash. */
  datatype Txid = Txid(hash: nat)

  datatype Entry = Entry(coins: Coins, isDirty: bool, isFresh: bool)

  type Entries = map<Txid, Entry>

  // ---------------------------------------------------------------- views

  /** A view after the coins of one transaction are replaced. */
  function Put(v: map<Txid, Coins>, k: Txid, c: Coins): (r: map<Txid, Coins>)
  {
    if c.IsPruned() then v - {k} else v[k := c]
  }

  lemma {:induction false} PutTwice(v: map<Txid, Coins>, k: Txid, c: Coins, d: Coins)
    ensures Put(Put(v, k, c), k, d) == Put(v, k, d)
    ensures k !in v && d.IsPruned() ==> Put(v, k, d) == v
  {
  }

  /** What a reader sees through a layer of entries over a base. */
  function Overlay(base: map<Txid, Coins>, es: Entries): (r: map<Txid, Coins>)
  {
    map k | k in base.Keys + es.Keys && (k in es ==> !es[k].coins.IsPruned())
      :: if k in es then es[k].coins else base[k]
  }

  lemma {:induction false} OverlayPut(base: map<Txid, Coins>, es: Entries, k: Txid, e: Entry)
    ensures Overlay(base, es[k := e]) == Put(Overlay(base, es), k, e.coins)
  {
  }

  lemma {:induction false} OverlayDrop(base: map<Txid, Coins>, es: Entries, k: Txid)
    requires k !in base
    ensures Overlay(base, es - {k}) == Overlay(base, es) - {k}
  {
  }

  lemma {:induction false} OverlayEmpty(base: map<Txid, Coins>)
    ensures Overlay(base, map[]) == base
  {
  }

  /** Only unpruned records in clean form. */
  ghost predicate Live(v: map<Txid, Coins>) {
    forall k :: k in v ==> !v[k].IsPruned() && v[k].IsClean()
  }

  // ------------------------------------------------------- the flag invariant

  /** What the flags of one entry promise about the view below: FRESH says exactly that it has nothing. */
  predicate EntryOk(k: Txid, e: Entry, base: map<Txid, Coins>) {
    && (e.isFresh <==> k !in base)
    && (!e.isDirty ==> if e.coins.IsPruned() then k !in base else k in base && base[k] == e.coins)
  }

  ghost predicate EntriesOk(es: Entries, base: map<Txid, Coins>) {
    forall k :: k in es ==> EntryOk(k, es[k], base)
  }

  /** An entry that is not FRESH was read from an entry of the cache below. */
  ghost predicate Backed(es: Entries, held: set<Txid>) {
    forall k :: k in es && !es[k].isFresh ==> k in held
  }

  ghost predicate AllClean(es: Entries) {
    forall k :: k in es ==> es[k].coins.IsClean()
  }

  /** Clean, and not dead: no entry is kept that has nothing to show and nothing to hide. */
  predicate Settled(e: Entry) {
    e.coins.IsClean() && !(e.isDirty && e.isFresh && e.coins.IsPruned())
  }

  ghost predicate AllSettled(es: Entries) {
    forall k :: k in es ==> Settled(es[k])
  }

  const WIPED := Entry(EMPTY_COINS, true, true)

  // --------------------------------------------------------- memory accounting

  ghost function UsageSum(es: Entries, usage: Coins -> nat): nat
    decreases |es|
  {
    if es == map[] then 0
    else
      var k :| k in es;
      usage(es[k].coins) + UsageSum(es - {k}, usage)
  }

  lemma {:induction false} UsageSumRemove(es: Entries, k: Txid, usage: Coins -> nat)
    requires k in es
    ensures UsageSum(es, usage) == usage(es[k].coins) + UsageSum(es - {k}, usage)
    decreases |es|
  {
    var j :| j in es && UsageSum(es, usage) == usage(es[j].coins) + UsageSum(es - {j}, usage);
    if j != k {
      UsageSumRemove(es - {j}, k, usage);
      UsageSumRemove(es - {k}, j, usage);
      assert es - {j} - {k} == es - {k} - {j};
    }
  }

  lemma {:induction false} UsageSumPut(es: Entries, k: Txid, e: Entry, usage: Coins -> nat)
    ensures UsageSum(es[k := e], usage) == usage(e.coins) + UsageSum(es - {k}, usage)
  {
    UsageSumRemove(es[k := e], k, usage);
    assert es[k := e] - {k} == es - {k};
  }

  /** Caching what the base shows changes nothing. */
  lemma {:induction false} OverlayFill(base: map<Txid, Coins>, es: Entries, k: Txid, e: Entry)
    requires k !in es && !e.isDirty && EntryOk(k, e, base)
    ensures Overlay(base, es[k := e]) == Overlay(base, es)
  {
  }

  /** What the base shows once all of `es` but the entries of `rest` are written. */
  ghost function Written(base: map<Txid, Coins>, es: Entries, rest: set<Txid>): map<Txid, Coins> {
    Overlay(base, es - rest)
  }

  lemma {:induction false} WrittenEnds(base: map<Txid, Coins>, es: Entries)
    ensures Written(base, es, es.Keys) == base
    ensures Written(base, es, {}) == Overlay(base, es)
  {
    assert es - es.Keys == map[];
    assert es - {} == es;
    OverlayEmpty(base);
  }

  /** Skipping an entry that is not dirty loses nothing. */
  lemma {:induction false} WriteStep(base: map<Txid, Coins>, es: Entries, rest: set<Txid>, k: Txid)
    requires EntriesOk(es, base) && k in es && k in rest
    ensures Written(base, es, rest - {k})
         == if es[k].isDirty then Put(Written(base, es, rest), k, es[k].coins) else Written(base, es, rest)
  {
    assert EntryOk(k, es[k], base);
    assert es - (rest - {k}) == (es - rest)[k := es[k]];
    OverlayPut(base, es - rest, k, es[k]);
  }

  lemma {:induction false} OverlayLive(base: map<Txid, Coins>, es: Entries)
    requires Live(base) && AllClean(es)
    ensures Live(Overlay(base, es))
  {
  }

  /** The running total, while a modifier is open on `mod` or not. */
  ghost predicate Accounted(es: Entries, total: int, usage: Coins -> nat, open: bool, mod: Txid, modUsage: nat) {
    total == if open then UsageSum(es - {mod}, usage) + modUsage else UsageSum(es, usage)
  }

  lemma {:induction false} AccountedInsert(es: Entries, k: Txid, e: Entry, total: int, usage: Coins -> nat, open: bool,
                                           mod: Txid, modUsage: nat)
    requires Accounted(es, total, usage, open, mod, modUsage)
    requires k !in es && (open ==> k != mod)
    ensures Accounted(es[k := e], total + usage(e.coins), usage, open, mod, modUsage)
  {
    if open {
      UsageSumPut(es - {mod}, k, e, usage);
      assert es - {mod} - {k} == es - {mod};
      assert es[k := e] - {mod} == (es - {mod})[k := e];
    } else {
      UsageSumPut(es, k, e, usage);
      assert es - {k} == es;
    }
  }

  /** The state of one cache layer, apart from its link to the layer below. */
  datatype Layer = Layer(es: Entries, total: int, open: bool, mod: Txid, modUsage: nat)

  /** The invariant of a layer over the view `base`; `held` are the entries of the cache below. */
  ghost predicate LayerOk(l: Layer, base: map<Txid, Coins>, held: Option<set<Txid>>, usage: Coins -> nat) {
    && EntriesOk(l.es, base)
    && (held.Some? ==> Backed(l.es, held.value))
    && (l.open ==> l.mod in l.es && l.es[l.mod].isDirty)
    && AllSettled(if l.open then l.es - {l.mod} else l.es)
    && Accounted(l.es, l.total, usage, l.open, l.mod, l.modUsage)
  }

  /** Caching what the base shows keeps the invariant and changes nothing a reader sees. */
  lemma {:induction false} LayerFill(l: Layer, base: map<Txid, Coins>, held: Option<set<Txid>>, usage: Coins -> nat,
                                     k: Txid, c: Coins)
    requires LayerOk(l, base, held, usage) && k !in l.es && c.IsClean()
    requires if c.IsPruned() then k !in base else k in base && base[k] == c
    requires held.Some? ==> k in held.value
    ensures var e := Entry(c, false, c.IsPruned());
            && LayerOk(l.(es := l.es[k := e], total := l.total + usage(c)), base, held, usage)
            && Overlay(base, l.es[k := e]) == Overlay(base, l.es)
  {
    var e := Entry(c, false, c.IsPruned());
    OverlayFill(base, l.es, k, e);
    AccountedInsert(l.es, k, e, l.total, usage, l.open, l.mod, l.modUsage);
    assert l.es[k := e] - {l.mod} == if k == l.mod then l.es - {l.mod} else (l.es - {l.mod})[k := e];
  }

  /** Opening a modifier on an entry that shows what readers see at `k` keeps the invariant. */
  lemma {:induction false} LayerOpen(l: Layer, base: map<Txid, Coins>, held: Option<set<Txid>>, usage: Coins -> nat,
                                     k: Txid, e: Entry)
    requires LayerOk(l, base, held, usage) && !l.open
    requires e.isDirty && EntryOk(k, e, base) && (held.Some? && !e.isFresh ==> k in held.value)
    requires Overlay(base, l.es) == Put(Overlay(base, l.es), k, e.coins)
    ensures var was := if k in l.es then usage(l.es[k].coins) else 0;
            && LayerOk(Layer(l.es[k := e], l.total, true, k, was), base, held, usage)
            && Overlay(base, l.es[k := e]) == Overlay(base, l.es)
  {
    OverlayPut(base, l.es, k, e);
    assert l.es[k := e] - {k} == l.es - {k};
    if k in l.es {
      UsageSumRemove(l.es, k, usage);
    } else {
      assert l.es - {k} == l.es;
    }
  }

  /** Through an open modifier the coins change freely. */
  lemma {:induction false} LayerAssign(l: Layer, base: map<Txid, Coins>, held: Option<set<Txid>>, usage: Coins -> nat,
                                       c: Coins)
    requires LayerOk(l, base, held, usage) && l.open
    ensures var es := l.es[l.mod := l.es[l.mod].(coins := c)];
            && LayerOk(l.(es := es), base, held, usage)
            && Overlay(base, es) == Put(Overlay(base, l.es), l.mod, c)
  {
    var es := l.es[l.mod := l.es[l.mod].(coins := c)];
    assert EntryOk(l.mod, l.es[l.mod], base);
    OverlayPut(base, l.es, l.mod, es[l.mod]);
    assert es - {l.mod} == l.es - {l.mod};
  }

  /** Closing a modifier cleans the coins, and drops a fresh entry that is pruned. */
  function Closed(l: Layer, usage: Coins -> nat): Layer
    requires l.mod in l.es
  {
    var e := l.es[l.mod].(coins := Cleaned(l.es[l.mod].coins));
    if e.isFresh && e.coins.IsPruned() then l.(es := l.es - {l.mod}, total := l.total - l.modUsage, open := false)
    else l.(es := l.es[l.mod := e], total := l.total - l.modUsage + usage(e.coins), open := false)
  }

  lemma {:induction false} LayerClose(l: Layer, base: map<Txid, Coins>, held: Option<set<Txid>>, usage: Coins -> nat)
    requires LayerOk(l, base, held, usage) && l.open
    ensures LayerOk(Closed(l, usage), base, held, usage)
    ensures Overlay(base, Closed(l, usage).es) == Put(Overlay(base, l.es), l.mod, Cleaned(l.es[l.mod].coins))
  {
    var e := l.es[l.mod].(coins := Cleaned(l.es[l.mod].coins));
    assert EntryOk(l.mod, l.es[l.mod], base);
    if e.isFresh && e.coins.IsPruned() {
      OverlayDrop(base, l.es, l.mod);
    } else {
      OverlayPut(base, l.es, l.mod, e);
      UsageSumPut(l.es, l.mod, e, usage);
      ClosedClean(l.es, l.mod, e);
    }
  }

  /** Clean coins under the open key make all entries clean. */
  lemma {:induction false} ClosedClean(es: Entries, mod: Txid, e: Entry)
    requires AllSettled(es - {mod}) && Settled(e)
    ensures AllSettled(es[mod := e])
  {
    var es' := es[mod := e];
    forall k | k in es'
      ensures Settled(es'[k])
    {
      if k != mod { assert k in es - {mod}; }
    }
  }

  ghost predicate FreeWhenEmpty(usage: Coins -> nat) {
    forall c: Coins {:trigger usage(c)} :: c.vout == [] ==> usage(c) == 0
  }

  /** `ModifyNewCoins` marks its entry fresh without looking below, and forgets what an entry
      that was there used: exactly these two facts decide whether the invariant survives. */
  lemma {:induction false} LayerOpenNew(l: Layer, base: map<Txid, Coins>, held: Option<set<Txid>>, usage: Coins -> nat,
                                        k: Txid)
    requires LayerOk(l, base, held, usage) && !l.open && FreeWhenEmpty(usage)
    ensures LayerOk(Layer(l.es[k := WIPED], l.total, true, k, 0), base, held, usage)
       <==> k !in base && (k in Overlay(base, l.es) ==> usage(Overlay(base, l.es)[k]) == 0)
    ensures Overlay(base, l.es[k := WIPED]) == Overlay(base, l.es) - {k}
  {
    var es' := l.es[k := WIPED];
    OverlayPut(base, l.es, k, WIPED);
    assert es' - {k} == l.es - {k};
    WipedAccount(l, base, usage, k);
    assert EntryOk(k, es'[k], base) <==> k !in base;
    assert AllSettled(es' - {k});
    assert held.Some? ==> Backed(es', held.value);
    assert EntriesOk(es', base) <==> k !in base by {
      assert forall j :: j in es' && j != k ==> EntryOk(j, es'[j], base);
    }
  }

  /** The wiped entry is accounted for exactly if what was there used no memory. */
  lemma {:induction false} WipedAccount(l: Layer, base: map<Txid, Coins>, usage: Coins -> nat, k: Txid)
    requires !l.open && Accounted(l.es, l.total, usage, false, l.mod, l.modUsage) && FreeWhenEmpty(usage)
    requires AllSettled(l.es) && (k !in base ==> k in Overlay(base, l.es) ==> k in l.es)
    ensures k !in base ==>
      (Accounted(l.es[k := WIPED], l.total, usage, true, k, 0)
       <==> (k in Overlay(base, l.es) ==> usage(Overlay(base, l.es)[k]) == 0))
  {
    assert l.es[k := WIPED] - {k} == l.es - {k};
    if k in l.es {
      UsageSumRemove(l.es, k, usage);
      CleanPruned(l.es[k].coins);
    } else {
      assert l.es - {k} == l.es;
    }
  }

  /**
   * What a caller sees who uses `ModifyNewCoins` although the layer below has unpruned coins: once
   * the new coins are spent, their entry is dropped as FRESH and pruned, and the old coins show
   * again, where the plain map has nothing.  What is left can be flushed, and leaves them in the base.
   */
  lemma {:induction false} OldCoinsShowAgain(l: Layer, base: map<Txid, Coins>, held: Option<set<Txid>>,
                                             usage: Coins -> nat, k: Txid, c: Coins)
    requires LayerOk(l, base, held, usage) && !l.open && k in base && c.IsPruned()
    ensures var open := Layer(l.es[k := WIPED.(coins := c)], l.total, true, k, 0);
            var es := Closed(open, usage).es;
            && es == l.es - {k} && EntriesOk(es, base) && AllClean(es) && (held.Some? ==> Backed(es, held.value))
            && k in Overlay(base, es) && Overlay(base, es)[k] == base[k]
            && k !in Put(Overlay(base, l.es), k, c)
  {
    var open := Layer(l.es[k := WIPED.(coins := c)], l.total, true, k, 0);
    assert Cleaned(c).IsPruned();
    assert Closed(open, usage).es == l.es - {k};
  }

  // -------------------------------------------------------------- batch writing

  /** The effect of one child entry on the entries of the parent cache. */
  function Absorb(ours: Entries, k: Txid, e: Entry): Entries {
    if !e.isDirty then ours
    else if k !in ours then
      if e.coins.IsPruned() then ours else ours[k := Entry(e.coins, true, true)]
    else if ours[k].isFresh && e.coins.IsPruned() then ours - {k}
    else ours[k := Entry(e.coins, true, ours[k].isFresh)]
  }

  /** Absorbing one child entry shows the child's coins through the parent and
      keeps the parent's own flags right; the assertion of the source holds. */
  lemma {:induction false} AbsorbOk(ours: Entries, base: map<Txid, Coins>, k: Txid, e: Entry)
    requires EntriesOk(ours, base)
    requires EntryOk(k, e, Overlay(base, ours)) && (!e.isFresh ==> k in ours)
    ensures EntriesOk(Absorb(ours, k, e), base)
    ensures Overlay(base, Absorb(ours, k, e)) == Put(Overlay(base, ours), k, e.coins)
    ensures e.isDirty && k !in ours && !e.coins.IsPruned() ==> e.isFresh
  {
    AbsorbEntries(ours, base, k, e);
    if !e.isDirty {
      PutSame(Overlay(base, ours), k, e.coins);
    } else if k !in ours {
      OverlayPut(base, ours, k, Entry(e.coins, true, true));
      if e.coins.IsPruned() { PutSame(Overlay(base, ours), k, e.coins); }
    } else if ours[k].isFresh && e.coins.IsPruned() {
      OverlayDrop(base, ours, k);
    } else {
      OverlayPut(base, ours, k, Entry(e.coins, true, ours[k].isFresh));
    }
  }

  lemma {:induction false} AbsorbEntries(ours: Entries, base: map<Txid, Coins>, k: Txid, e: Entry)
    requires EntriesOk(ours, base)
    requires EntryOk(k, e, Overlay(base, ours)) && (!e.isFresh ==> k in ours)
    ensures EntriesOk(Absorb(ours, k, e), base)
  {
    assert k !in ours ==> k !in base;
  }

  lemma {:induction false} AbsorbSettled(ours: Entries, k: Txid, e: Entry)
    requires AllSettled(ours) && e.coins.IsClean()
    ensures AllSettled(Absorb(ours, k, e))
  {
  }

  /** What becomes of the parent's entry for one key when all of a child's entries are taken over. */
  ghost predicate TakenOver(ours: Entries, theirs: Entries, now: Entries, k: Txid) {
    if k !in theirs || !theirs[k].isDirty then
      (k in now <==> k in ours) && (k in ours ==> now[k] == ours[k])
    else if theirs[k].coins.IsPruned() && (k in ours ==> ours[k].isFresh) then k !in now
    else k in now && now[k] == Entry(theirs[k].coins, true, k in ours ==> ours[k].isFresh)
  }

  /** Whatever the order, every key fares as by itself. */
  lemma {:induction false} AbsorbAllAt(l: Layer, usage: Coins -> nat, es: Entries, ks: seq<Txid>,
                                       rest: set<Txid>, k: Txid)
    requires rest <= es.Keys && Lists(ks, es.Keys - rest)
    ensures var now := AbsorbAll(l, usage, es, ks).es;
            if k in rest then (k in now <==> k in l.es) && (k in l.es ==> now[k] == l.es[k])
            else TakenOver(l.es, es, now, k)
    decreases |ks|
  {
    if ks != [] {
      var j := ks[|ks| - 1];
      assert es.Keys - rest - {j} == es.Keys - (rest + {j});
      AbsorbAllAt(l, usage, es, ks[..|ks| - 1], rest + {j}, k);
    } else {
      assert es.Keys == rest + (es.Keys - rest);
    }
  }

  lemma {:induction false} AllTakenOver(l: Layer, usage: Coins -> nat, es: Entries, ks: seq<Txid>)
    requires Lists(ks, es.Keys)
    ensures forall k :: TakenOver(l.es, es, AbsorbAll(l, usage, es, ks).es, k)
  {
    assert es.Keys - {} == es.Keys;
    forall k ensures TakenOver(l.es, es, AbsorbAll(l, usage, es, ks).es, k) { AbsorbAllAt(l, usage, es, ks, {}, k); }
  }

  /** Putting what is there already changes nothing. */
  lemma {:induction false} PutSame(v: map<Txid, Coins>, k: Txid, c: Coins)
    requires if c.IsPruned() then k !in v else k in v && v[k] == c
    ensures Put(v, k, c) == v
  {
  }

  /** Absorbing an entry does not touch what the parent has for other transactions. */
  lemma {:induction false} AbsorbBacked(ours: Entries, k: Txid, e: Entry, held: set<Txid>)
    requires Backed(ours, held)
    ensures Backed(Absorb(ours, k, e), held)
    ensures forall j :: j != k ==> (j in ours <==> j in Absorb(ours, k, e))
  {
  }

  /** The whole effect of absorbing one entry on the layer of the parent. */
  ghost function Absorbed(l: Layer, usage: Coins -> nat, k: Txid, e: Entry): Layer {
    l.(es := Absorb(l.es, k, e),
       total := l.total - (if k in l.es then usage(l.es[k].coins) else 0)
                + (if k in Absorb(l.es, k, e) then usage(Absorb(l.es, k, e)[k].coins) else 0))
  }

  lemma {:induction false} LayerAbsorb(l: Layer, base: map<Txid, Coins>, held: Option<set<Txid>>, usage: Coins -> nat,
                                       k: Txid, e: Entry)
    requires LayerOk(l, base, held, usage) && !l.open && e.coins.IsClean()
    requires EntryOk(k, e, Overlay(base, l.es)) && (!e.isFresh ==> k in l.es)
    ensures LayerOk(Absorbed(l, usage, k, e), base, held, usage)
    ensures Overlay(base, Absorb(l.es, k, e)) == Put(Overlay(base, l.es), k, e.coins)
    ensures e.isDirty && k !in l.es && !e.coins.IsPruned() ==> e.isFresh
  {
    AbsorbOk(l.es, base, k, e);
    AbsorbSettled(l.es, k, e);
    if held.Some? { AbsorbBacked(l.es, k, e, held.value); }
    AbsorbUsage(l.es, usage, k, e);
  }

  lemma {:induction false} AbsorbUsage(es: Entries, usage: Coins -> nat, k: Txid, e: Entry)
    ensures UsageSum(Absorb(es, k, e), usage)
         == UsageSum(es, usage) - (if k in es then usage(es[k].coins) else 0)
            + (if k in Absorb(es, k, e) then usage(Absorb(es, k, e)[k].coins) else 0)
  {
    var es' := Absorb(es, k, e);
    assert es' - {k} == es - {k};
    if k in es { UsageSumRemove(es, k, usage); } else { assert es - {k} == es; }
    if k in es' { UsageSumRemove(es', k, usage); } else { assert es' - {k} == es'; }
  }

  /** The parent layer after the entries `es` at the keys `ks` are absorbed in order. */
  ghost function AbsorbAll(l: Layer, usage: Coins -> nat, es: Entries, ks: seq<Txid>): Layer {
    if ks == [] || ks[|ks| - 1] !in es then l
    else Absorbed(AbsorbAll(l, usage, es, ks[..|ks| - 1]), usage, ks[|ks| - 1], es[ks[|ks| - 1]])
  }

  /** A set of keys listed without repetition. */
  ghost predicate Lists(ks: seq<Txid>, s: set<Txid>) {
    if ks == [] then s == {}
    else ks[|ks| - 1] in s && Lists(ks[..|ks| - 1], s - {ks[|ks| - 1]})
  }

  /** Where the parent stands when the entries `es` at the keys outside `rest` have been absorbed. */
  lemma {:induction false} AbsorbAllOk(l: Layer, base: map<Txid, Coins>, held: Option<set<Txid>>, usage: Coins -> nat,
                                       es: Entries, ks: seq<Txid>, rest: set<Txid>)
    requires LayerOk(l, base, held, usage) && !l.open
    requires EntriesOk(es, Overlay(base, l.es)) && Backed(es, l.es.Keys) && AllClean(es)
    requires rest <= es.Keys && Lists(ks, es.Keys - rest)
    ensures var l' := AbsorbAll(l, usage, es, ks);
            && LayerOk(l', base, held, usage) && !l'.open
            && Overlay(base, l'.es) == Written(Overlay(base, l.es), es, rest)
            && forall k :: k in rest ==> (k in l'.es <==> k in l.es)
    decreases |ks|
  {
    var v := Overlay(base, l.es);
    if ks == [] {
      assert rest == es.Keys by {
        assert es.Keys == rest + (es.Keys - rest);
      }
      WrittenEnds(v, es);
    } else {
      var k := ks[|ks| - 1];
      assert es.Keys - rest - {k} == es.Keys - (rest + {k});
      AbsorbAllOk(l, base, held, usage, es, ks[..|ks| - 1], rest + {k});
      var l1 := AbsorbAll(l, usage, es, ks[..|ks| - 1]);
      WrittenElse(v, es, rest + {k}, k);
      LayerAbsorb(l1, base, held, usage, k, es[k]);
      WriteStep(v, es, rest + {k}, k);
      assert rest + {k} - {k} == rest;
    }
  }

  /** A key still to be written shows what the base shows. */
  lemma {:induction false} WrittenElse(base: map<Txid, Coins>, es: Entries, rest: set<Txid>, k: Txid)
    requires k in rest && k in es && EntryOk(k, es[k], base)
    ensures EntryOk(k, es[k], Written(base, es, rest))
  {
  }

  /** The assertion on FRESH in `BatchWrite` holds whenever it is reached. */
  lemma {:induction false} NextIsFresh(l: Layer, base: map<Txid, Coins>, held: Option<set<Txid>>, usage: Coins -> nat,
                    es: Entries, ks: seq<Txid>, rest: set<Txid>, k: Txid)
    requires LayerOk(l, base, held, usage) && !l.open
    requires EntriesOk(es, Overlay(base, l.es)) && Backed(es, l.es.Keys) && AllClean(es)
    requires rest <= es.Keys && Lists(ks, es.Keys - rest) && k in rest
    ensures k !in AbsorbAll(l, usage, es, ks).es ==> es[k].isFresh
  {
    AbsorbAllOk(l, base, held, usage, es, ks, rest);
  }

  lemma {:induction false} ListsMore(ks: seq<Txid>, all: set<Txid>, rest: set<Txid>, k: Txid)
    requires Lists(ks, all - rest) && k in rest && k in all
    ensures Lists(ks + [k], all - (rest - {k}))
  {
    assert (ks + [k])[..|ks|] == ks;
    assert all - (rest - {k}) - {k} == all - rest;
  }

  // -------------------------------------------------------------------- classes

  /** The loop that collects the batch, in whatever order the entries come. */
  method Batched(base: map<Txid, Coins>, mapCoins: Entries) returns (batch: map<Txid, Coins>)
    requires EntriesOk(mapCoins, base)
    ensures batch == Overlay(base, mapCoins)
  {
    batch := base;
    var rest := mapCoins.Keys;
    WrittenEnds(base, mapCoins);
    while rest != {}
      invariant rest <= mapCoins.Keys
      invariant batch == Written(base, mapCoins, rest)
      decreases |rest|
    {
      var k :| k in rest;
      WriteStep(base, mapCoins, rest, k);
      if mapCoins[k].isDirty {
        batch := Put(batch, k, mapCoins[k].coins);
      }
      rest := rest - {k};
    }
  }

  /** The bottom of the stack: `CCoinsViewDB`, whose batch writer erases pruned records. */
  class CoinsViewDB {
    var store: map<Txid, Coins>

    ghost predicate Valid()
      reads this
    {
      Live(store)
    }

    constructor ()
      ensures Valid() && store == map[]
    {
      store := map[];
    }

    method GetCoins(txid: Txid) returns (ok: bool, coins: Coins)
      ensures ok <==> txid in store
      ensures ok ==> coins == store[txid]
    {
      if txid in store {
        return true, store[txid];
      }
      return false, EMPTY_COINS;
    }

    /** `CCoinsViewDB::BatchWrite`: if the batch is written, the database shows what the flushing cache showed. */
    method BatchWrite(mapCoins: Entries, fWritten: bool) returns (ok: bool)
      requires Valid() && EntriesOk(mapCoins, store) && AllClean(mapCoins)
      modifies this
      ensures Valid() && ok == fWritten
      ensures store == if ok then Overlay(old(store), mapCoins) else old(store)
    {
      var batch := Batched(store, mapCoins);
      OverlayLive(store, mapCoins);
      if fWritten {
        store := batch;
      }
      ok := fWritten;
    }
  }

  class CoinsViewCache {
    const db: CoinsViewDB
    const parent: CoinsViewCache?
    const usage: Coins -> nat
    ghost const depth: nat
    ghost const Repr: set<object>

    var hasModifier: bool
    var cacheCoins: Entries
    var cachedCoinsUsage: int

    // what this cache shows, what the layer below shows, and what the layers further down show
    ghost var view: map<Txid, Coins>
    ghost var baseView: map<Txid, Coins>
    ghost const lower: seq<map<Txid, Coins>>
    // the transaction an open modifier works on, and the usage it will subtract on closing
    ghost var modTxid: Txid
    ghost var modUsage: nat

    /** The layers below are linked properly. */
    ghost predicate Linked()
      decreases depth
    {
      && this in Repr && db in Repr
      && (parent != null ==>
           && parent.depth < depth && parent.db == db && parent.Repr <= Repr && this !in parent.Repr
           && parent in parent.Repr
           && parent.Linked())
      && FreeWhenEmpty(usage)
    }

    /** The layers below are sound, and the one below this cache shows `base`. */
    ghost predicate Below(base: map<Txid, Coins>)
      requires Linked()
      reads Repr - {this}
      decreases depth, 0
    {
      if parent == null then db.Valid() && base == db.store && lower == []
      else parent.Valid() && !parent.hasModifier && base == parent.view && lower == parent.lower + [parent.baseView]
    }

    ghost predicate Valid()
      requires Linked()
      reads Repr
      decreases depth, 1
    {
      && Below(baseView)
      && view == Overlay(baseView, cacheCoins)
      && LayerOk(State(), baseView, Held(), usage)
    }

    ghost function State(): Layer
      reads this
    {
      Layer(cacheCoins, cachedCoinsUsage, hasModifier, modTxid, modUsage)
    }

    ghost function Held(): Option<set<Txid>>
      reads parent
    {
      if parent == null then None else Some(parent.cacheCoins.Keys)
    }

    /** What every layer shows, from the database up to this cache. */
    ghost function Views(): seq<map<Txid, Coins>>
      reads this
    {
      lower + [baseView, view]
    }

    constructor OverDB(db: CoinsViewDB, usage: Coins -> nat)
      requires db.Valid() && FreeWhenEmpty(usage)
      ensures Linked() && Valid() && !hasModifier && cacheCoins == map[]
      ensures this.db == db && parent == null && this.usage == usage
      ensures fresh(Repr - {db})
      ensures lower == [] && baseView == view == db.store
    {
      this.db, this.parent, this.usage := db, null, usage;
      depth, Repr := 0, {this, db};
      hasModifier, cacheCoins, cachedCoinsUsage := false, map[], 0;
      lower, baseView, view := [], db.store, db.store;
      new;
      OverlayEmpty(db.store);
    }

    constructor OverCache(base: CoinsViewCache)
      requires base.Linked() && base.Valid() && !base.hasModifier
      ensures Linked() && Valid() && !hasModifier && cacheCoins == map[]
      ensures db == base.db && parent == base && usage == base.usage
      ensures fresh(this) && Repr == {this} + base.Repr
      ensures lower == base.lower + [base.baseView] && baseView == view == base.view
    {
      db, parent, usage := base.db, base, base.usage;
      depth, Repr := base.depth + 1, {this} + base.Repr;
      hasModifier, cacheCoins, cachedCoinsUsage := false, map[], 0;
      lower, baseView, view := base.lower + [base.baseView], base.view, base.view;
      new;
      OverlayEmpty(base.view);
    }

    /** Reading from the layer below, which may fill that layer but changes no view. */
    method BaseGetCoins(txid: Txid) returns (ok: bool, coins: Coins)
      requires Linked() && Valid()
      modifies Repr - {db, this}
      ensures Valid()
      ensures txid in baseView ==> ok && coins == baseView[txid]
      ensures ok ==> coins.IsClean() && (parent != null ==> txid in parent.cacheCoins)
      ensures ok ==> (coins.IsPruned() <==> txid !in baseView)
      decreases depth, 0
    {
      if parent == null {
        ok, coins := db.GetCoins(txid);
      } else {
        ok, coins := parent.GetCoins(txid);
      }
    }

    /** `FetchCoins`: filling the cache changes no view of any layer. */
    method FetchCoins(txid: Txid) returns (found: bool)
      requires Linked() && Valid()
      modifies Repr - {db}
      ensures Valid() && view == old(view) && baseView == old(baseView)
      ensures found <==> txid in cacheCoins
      ensures !found ==> txid !in view
      ensures found && txid !in old(cacheCoins) ==>
        !cacheCoins[txid].isDirty && (cacheCoins[txid].isFresh <==> txid !in baseView)
      ensures forall k :: k in cacheCoins && k != txid ==> k in old(cacheCoins)
      ensures hasModifier == old(hasModifier) && modTxid == old(modTxid) && modUsage == old(modUsage)
      ensures forall k :: k in old(cacheCoins) ==> k in cacheCoins && cacheCoins[k] == old(cacheCoins[k])
      decreases depth, 1
    {
      if txid in cacheCoins {
        return true;
      }
      var ok, tmp := BaseGetCoins(txid);
      if !ok {
        return false;
      }
      Fill(txid, tmp);
      return true;
    }

    /** The tail of `FetchCoins`: a pruned record of the parent counts as fresh. */
    method Fill(txid: Txid, tmp: Coins)
      requires Linked() && Valid() && txid !in cacheCoins && tmp.IsClean()
      requires if tmp.IsPruned() then txid !in baseView else txid in baseView && baseView[txid] == tmp
      requires parent != null ==> txid in parent.cacheCoins
      modifies this`cacheCoins, this`cachedCoinsUsage
      ensures Valid()
      ensures cacheCoins == old(cacheCoins)[txid := Entry(tmp, false, tmp.IsPruned())]
    {
      LayerFill(State(), baseView, Held(), usage, txid, tmp);
      cacheCoins := cacheCoins[txid := Entry(tmp, false, tmp.IsPruned())];
      cachedCoinsUsage := cachedCoinsUsage + usage(tmp);
    }

    method GetCoins(txid: Txid) returns (ok: bool, coins: Coins)
      requires Linked() && Valid()
      modifies Repr - {db}
      ensures Valid() && view == old(view) && baseView == old(baseView)
      ensures txid in view ==> ok && coins == view[txid]
      ensures (ok <==> txid in cacheCoins) && (ok ==> coins == cacheCoins[txid].coins)
      ensures ok && txid !in view ==> coins.IsPruned()
      ensures ok && !(hasModifier && modTxid == txid) ==> coins.IsClean()
      ensures hasModifier == old(hasModifier) && modTxid == old(modTxid) && modUsage == old(modUsage)
      ensures forall k :: k in old(cacheCoins) ==> k in cacheCoins && cacheCoins[k] == old(cacheCoins[k])
      decreases depth, 2
    {
      var found := FetchCoins(txid);
      if found {
        assert hasModifier && modTxid != txid ==> txid in cacheCoins - {modTxid};
        return true, cacheCoins[txid].coins;
      }
      return false, EMPTY_COINS;
    }

    /** `HaveCoins` tests for outputs instead of unspent outputs, which is as good on clean records;
        under an open modifier the record may hold spent outputs at its end. */
    method HaveCoins(txid: Txid) returns (have: bool)
      requires Linked() && Valid()
      modifies Repr - {db}
      ensures Valid() && view == old(view) && baseView == old(baseView) && hasModifier == old(hasModifier)
      ensures !(hasModifier && modTxid == txid) ==> (have <==> txid in view)
      ensures hasModifier && modTxid == txid ==>
        txid in cacheCoins && (have <==> cacheCoins[txid].coins.vout != [])
    {
      var ok, coins := GetCoins(txid);
      if ok && coins.IsClean() {
        CleanPruned(coins);
      }
      have := ok && coins.vout != [];
    }

    method ModifyCoins(txid: Txid) returns (m: CoinsModifier)
      requires Linked() && Valid() && !hasModifier
      modifies Repr - {db}
      ensures Valid() && view == old(view) && baseView == old(baseView)
      ensures fresh(m) && m.cache == this && m.txid == txid && m.Open()
      ensures txid in cacheCoins && cacheCoins[txid].isDirty && (cacheCoins[txid].isFresh <==> txid !in baseView)
      ensures if txid in view then cacheCoins[txid].coins == view[txid] else cacheCoins[txid].coins.IsPruned()
      ensures cacheCoins == old(cacheCoins)[txid := cacheCoins[txid]]
    {
      var e, was := WIPED, 0;
      if txid !in cacheCoins {
        var ok, coins := BaseGetCoins(txid);
        e := if !ok then WIPED else Entry(coins, true, coins.IsPruned());
      } else {
        e, was := cacheCoins[txid].(isDirty := true), usage(cacheCoins[txid].coins);
      }
      Start(txid, e, was);
      m := new CoinsModifier(this, txid, was);
    }

    /** The tail of `ModifyCoins`. */
    method Start(txid: Txid, e: Entry, was: nat)
      requires Linked() && Valid() && !hasModifier
      requires e.isDirty && EntryOk(txid, e, baseView) && (parent != null && !e.isFresh ==> txid in parent.cacheCoins)
      requires if e.coins.IsPruned() then txid !in view else txid in view && view[txid] == e.coins
      requires was == if txid in cacheCoins then usage(cacheCoins[txid].coins) else 0
      modifies this`cacheCoins, this`hasModifier, this`modTxid, this`modUsage
      ensures Valid() && hasModifier && modTxid == txid && modUsage == was
      ensures cacheCoins == old(cacheCoins)[txid := e]
    {
      PutSame(view, txid, e.coins);
      LayerOpen(State(), baseView, Held(), usage, txid, e);
      Hold(txid, e, was);
    }

    /** What opening a modifier does to the fields. */
    method Hold(txid: Txid, e: Entry, was: nat)
      modifies this`cacheCoins, this`hasModifier, this`modTxid, this`modUsage
      ensures State() == Layer(old(cacheCoins)[txid := e], old(cachedCoinsUsage), true, txid, was)
    {
      cacheCoins := cacheCoins[txid := e];
      hasModifier, modTxid, modUsage := true, txid, was;
    }

    /** `ModifyNewCoins` keeps the invariant exactly if nothing unpruned is below and the coins
        it wipes were accounted as using no memory; a pruned leftover entry is harmless. */
    method ModifyNewCoins(txid: Txid) returns (m: CoinsModifier)
      requires Linked() && Valid() && !hasModifier
      modifies this
      ensures fresh(m) && m.cache == this && m.txid == txid && m.Open()
      ensures Valid() <==> txid !in baseView && (txid in old(view) ==> usage(old(view)[txid]) == 0)
      ensures view == old(view) - {txid} && baseView == old(baseView)
    {
      LayerOpenNew(State(), baseView, Held(), usage, txid);
      m := new CoinsModifier(this, txid, 0);
      Hold(txid, WIPED, 0);
      view := view - {txid};
      assert Valid() <==> LayerOk(State(), baseView, Held(), usage);
    }

    /** One round of the loop of `BatchWrite`. */
    method TakeEntry(k: Txid, e: Entry)
      requires e.isDirty && k !in cacheCoins && !e.coins.IsPruned() ==> e.isFresh
      modifies this`cacheCoins, this`cachedCoinsUsage
      ensures State() == Absorbed(old(State()), usage, k, e)
    {
      if e.isDirty {
        if k !in cacheCoins {
          if !e.coins.IsPruned() {
            assert e.isFresh;
            cacheCoins := cacheCoins[k := Entry(e.coins, true, true)];
            cachedCoinsUsage := cachedCoinsUsage + usage(e.coins);
          }
        } else if cacheCoins[k].isFresh && e.coins.IsPruned() {
          cachedCoinsUsage := cachedCoinsUsage - usage(cacheCoins[k].coins);
          cacheCoins := cacheCoins - {k};
        } else {
          cachedCoinsUsage := cachedCoinsUsage - usage(cacheCoins[k].coins);
          cacheCoins := cacheCoins[k := Entry(e.coins, true, cacheCoins[k].isFresh)];
          cachedCoinsUsage := cachedCoinsUsage + usage(cacheCoins[k].coins);
        }
      }
    }

    /** The loop of `BatchWrite`, in whatever order the entries come. */
    method TakeAll(mapCoins: Entries, ghost base: map<Txid, Coins>, ghost held: Option<set<Txid>>)
      returns (ghost ks: seq<Txid>)
      requires LayerOk(State(), base, held, usage) && !hasModifier
      requires EntriesOk(mapCoins, Overlay(base, cacheCoins)) && Backed(mapCoins, cacheCoins.Keys) && AllClean(mapCoins)
      modifies this`cacheCoins, this`cachedCoinsUsage
      ensures Lists(ks, mapCoins.Keys)
      ensures State() == AbsorbAll(old(State()), usage, mapCoins, ks)
    {
      ghost var l := State();
      ks := [];
      var rest := mapCoins.Keys;
      assert mapCoins.Keys - rest == {};
      while rest != {}
        invariant rest <= mapCoins.Keys && Lists(ks, mapCoins.Keys - rest)
        invariant State() == AbsorbAll(l, usage, mapCoins, ks)
        decreases |rest|
      {
        var k :| k in rest;
        NextIsFresh(l, base, held, usage, mapCoins, ks, rest, k);
        TakeEntry(k, mapCoins[k]);
        ListsMore(ks, mapCoins.Keys, rest, k);
        assert (ks + [k])[..|ks|] == ks;
        ks, rest := ks + [k], rest - {k};
      }
      assert mapCoins.Keys - rest == mapCoins.Keys;
    }

    /** `CCoinsViewCache::BatchWrite`: taking over the entries of a child makes this cache show
        what the child showed. */
    method BatchWrite(mapCoins: Entries)
      requires Linked() && Valid() && !hasModifier
      requires EntriesOk(mapCoins, view) && Backed(mapCoins, cacheCoins.Keys) && AllClean(mapCoins)
      modifies this`cacheCoins, this`cachedCoinsUsage, this`view
      ensures Valid()
      ensures view == Overlay(old(view), mapCoins)
      ensures forall k :: TakenOver(old(cacheCoins), mapCoins, cacheCoins, k)
    {
      ghost var l := State();
      ghost var ks := TakeAll(mapCoins, baseView, Held());
      assert mapCoins.Keys - {} == mapCoins.Keys;
      AbsorbAllOk(l, baseView, Held(), usage, mapCoins, ks, {});
      AllTakenOver(l, usage, mapCoins, ks);
      WrittenEnds(view, mapCoins);
      view := Overlay(view, mapCoins);
    }

    /** `Flush`: the layer below comes to show what this cache showed, and this cache shows the same.
        If the database fails, the cache is emptied all the same and shows what the database has. */
    method Flush(fWritten: bool) returns (ok: bool)
      requires Linked() && Valid() && !hasModifier
      modifies Repr
      ensures Valid() && !hasModifier && (ok <==> parent != null || fWritten)
      ensures cacheCoins == map[] && cachedCoinsUsage == 0
      ensures view == baseView == if ok then old(view) else old(baseView)
    {
      ok := true;
      if parent == null {
        ok := db.BatchWrite(cacheCoins, fWritten);
      } else {
        parent.BatchWrite(cacheCoins);
      }
      cacheCoins := map[];
      cachedCoinsUsage := 0;
      if ok {
        baseView := view;
      } else {
        view := baseView;
      }
      OverlayEmpty(view);
    }
  }


  /** `CCoinsModifier`: write access to one entry, closed by its destructor. */
  class CoinsModifier {
    const cache: CoinsViewCache
    const txid: Txid
    const cachedCoinUsage: nat

    ghost predicate Open()
      reads cache
    {
      cache.hasModifier && cache.modTxid == txid && cache.modUsage == cachedCoinUsage
    }

    constructor (cache: CoinsViewCache, txid: Txid, cachedCoinUsage: nat)
      ensures this.cache == cache && this.txid == txid && this.cachedCoinUsage == cachedCoinUsage
    {
      this.cache, this.txid, this.cachedCoinUsage := cache, txid, cachedCoinUsage;
    }

    /** Writing through the modifier. */
    method Assign(c: Coins)
      requires cache.Linked() && cache.Valid() && Open()
      modifies cache`cacheCoins, cache`view
      ensures cache.Valid() && Open() && txid in cache.cacheCoins && cache.cacheCoins[txid].coins == c
      ensures cache.view == Put(old(cache.view), txid, c)
    {
      LayerAssign(cache.State(), cache.baseView, cache.Held(), cache.usage, c);
      cache.view := Put(cache.view, txid, c);
      cache.cacheCoins := cache.cacheCoins[txid := cache.cacheCoins[txid].(coins := c)];
    }

    /** The destructor. */
    method Close()
      requires cache.Linked() && cache.Valid() && Open()
      modifies cache
      ensures cache.Valid() && !cache.hasModifier
      ensures txid in old(cache.cacheCoins)
      ensures cache.view == Put(old(cache.view), txid, Cleaned(old(cache.cacheCoins[txid].coins)))
      ensures cache.baseView == old(cache.baseView)
    {
      LayerClose(cache.State(), cache.baseView, cache.Held(), cache.usage);
      ghost var v := Put(cache.view, txid, Cleaned(cache.cacheCoins[txid].coins));
      Release();
      cache.view := v;
    }

    /** What the destructor does to the fields of the cache. */
    method Release()
      requires Open() && txid in cache.cacheCoins
      modifies cache`hasModifier, cache`cacheCoins, cache`cachedCoinsUsage
      ensures cache.State() == Closed(old(cache.State()), cache.usage)
    {
      cache.hasModifier := false;
      var coins := Cleanup(cache.cacheCoins[txid].coins);
      var e := cache.cacheCoins[txid].(coins := coins);
      cache.cachedCoinsUsage := cache.cachedCoinsUsage - cachedCoinUsage;
      if e.isFresh && coins.IsPruned() {
        cache.cacheCoins := cache.cacheCoins - {txid};
      } else {
        cache.cacheCoins := cache.cacheCoins[txid := e];
        cache.cachedCoinsUsage := cache.cachedCoinsUsage + cache.usage(coins);
      }
    }
  }

  // ----------------------------------------------------------------- whole runs

  lemma {:induction false} SpendEffect(v: map<Txid, Coins>, k: Txid, was: Coins, n: nat)
    requires if k in v then was == v[k] else was.IsPruned()
    ensures Put(Put(v, k, Spent(was, n)), k, Cleaned(Spent(was, n)))
         == if k in v then Put(v, k, Cleaned(Spent(v[k], n))) else v
  {
    PutTwice(v, k, Spent(was, n), Cleaned(Spent(was, n)));
    if k !in v { SpentPruned(was, n); }
  }

  /** What a node does to the top of its stack of caches. */
  datatype Op =
    | Read(txid: Txid)
    | SpendOutput(txid: Txid, n: nat)
    | Replace(txid: Txid, coins: Coins)
    | ReplaceNew(txid: Txid, coins: Coins)
    | PushCache
    | FlushTop(fWritten: bool)
    | DropTop

  /** The plain maps after one operation; `vs` are the views of the layers, the database first. */
  function Effect(vs: seq<map<Txid, Coins>>, op: Op): seq<map<Txid, Coins>>
    requires |vs| >= 2
  {
    var top := vs[|vs| - 1];
    match op
    case Read(_) => vs
    case SpendOutput(k, n) => if k in top then vs[|vs| - 1 := Put(top, k, Cleaned(Spent(top[k], n)))] else vs
    case Replace(k, c) => vs[|vs| - 1 := Put(top, k, Cleaned(c))]
    case ReplaceNew(k, c) => vs[|vs| - 1 := Put(top, k, Cleaned(c))]
    case PushCache => vs + [top]
    case FlushTop(fWritten) =>
      if |vs| > 2 || fWritten then vs[|vs| - 2 := top] else vs[|vs| - 1 := vs[|vs| - 2]]
    case DropTop => if |vs| == 2 then vs else vs[..|vs| - 1]
  }

  /** The only demand on a caller: new coins are new, for the cache and for the layer below it. */
  predicate Allowed(vs: seq<map<Txid, Coins>>, op: Op)
    requires |vs| >= 2
  {
    op.ReplaceNew? ==> op.txid !in vs[|vs| - 1] && op.txid !in vs[|vs| - 2]
  }

  ghost function EffectAll(vs: seq<map<Txid, Coins>>, ops: seq<Op>): (r: seq<map<Txid, Coins>>)
    requires |vs| >= 2
    ensures |r| >= 2
  {
    if ops == [] then vs else Effect(EffectAll(vs, ops[..|ops| - 1]), ops[|ops| - 1])
  }

  ghost predicate AllowedAll(vs: seq<map<Txid, Coins>>, ops: seq<Op>)
    requires |vs| >= 2
  {
    forall i :: 0 <= i < |ops| ==> Allowed(EffectAll(vs, ops[..i]), ops[i])
  }

  /** One operation on the real stack has the plain effect on the views of all layers. */
  method Perform(top: CoinsViewCache, op: Op) returns (top': CoinsViewCache)
    requires top.Linked() && top.Valid() && !top.hasModifier
    requires Allowed(top.Views(), op)
    modifies top.Repr
    ensures top'.Linked() && top'.Valid() && !top'.hasModifier
    ensures top'.db == top.db && fresh(top'.Repr - top.Repr)
    ensures top'.Views() == Effect(old(top.Views()), op)
  {
    top' := top;
    if op.PushCache? {
      top' := new CoinsViewCache.OverCache(top);
    } else if op.DropTop? {
      if top.parent != null {
        top' := top.parent;
      }
    } else {
      PerformTop(top, op);
    }
  }

  /** An operation on the top cache. */
  method PerformTop(top: CoinsViewCache, op: Op)
    requires top.Linked() && top.Valid() && !top.hasModifier
    requires Allowed(top.Views(), op) && !op.PushCache? && !op.DropTop?
    modifies top.Repr
    ensures top.Linked() && top.Valid() && !top.hasModifier
    ensures top.Views() == Effect(old(top.Views()), op)
  {
    if op.Read? {
      var ok, c := top.GetCoins(op.txid);
    } else if op.FlushTop? {
      var ok := top.Flush(op.fWritten);
    } else if op.SpendOutput? {
      SpendAt(top, op.txid, op.n);
    } else {
      ReplaceAt(top, op.txid, op.coins, op.ReplaceNew?);
    }
  }

  method SpendAt(top: CoinsViewCache, k: Txid, n: nat)
    requires top.Linked() && top.Valid() && !top.hasModifier
    modifies top.Repr
    ensures top.Valid() && !top.hasModifier && top.baseView == old(top.baseView)
    ensures top.view == var v := old(top.view); if k in v then Put(v, k, Cleaned(Spent(v[k], n))) else v
  {
    ghost var v := top.view;
    var m := top.ModifyCoins(k);
    ghost var was := top.cacheCoins[k].coins;
    var ok, c := Spend(top.cacheCoins[k].coins, n);
    m.Assign(c);
    m.Close();
    SpendEffect(v, k, was, n);
  }

  method ReplaceAt(top: CoinsViewCache, k: Txid, c: Coins, isNew: bool)
    requires top.Linked() && top.Valid() && !top.hasModifier
    requires isNew ==> k !in top.view && k !in top.baseView
    modifies top.Repr
    ensures top.Valid() && !top.hasModifier && top.baseView == old(top.baseView)
    ensures top.view == Put(old(top.view), k, Cleaned(c))
  {
    ghost var v := top.view;
    var m;
    if isNew {
      m := top.ModifyNewCoins(k);
    } else {
      m := top.ModifyCoins(k);
    }
    assert top.view == v by { assert isNew ==> v - {k} == v; }
    m.Assign(c);
    m.Close();
    PutTwice(v, k, c, Cleaned(c));
  }

  /** Any run from an empty database: every layer always shows its plain map. */
  method Run(usage: Coins -> nat, ops: seq<Op>) returns (top: CoinsViewCache)
    requires FreeWhenEmpty(usage) && AllowedAll([map[], map[]], ops)
    ensures fresh(top.Repr) && top.Linked() && top.Valid() && !top.hasModifier
    ensures top.Views() == EffectAll([map[], map[]], ops)
  {
    var db := new CoinsViewDB();
    top := new CoinsViewCache.OverDB(db, usage);
    for i := 0 to |ops|
      invariant fresh(top.Repr) && top.Linked() && top.Valid() && !top.hasModifier
      invariant top.Views() == EffectAll([map[], map[]], ops[..i])
    {
      assert ops[..i + 1][..i] == ops[..i];
      top := Perform(top, ops[i]);
    }
    assert ops[..|ops|] == ops;
  }
}
