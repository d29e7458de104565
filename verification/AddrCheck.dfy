/**
 * The manager's own consistency check (`Check_`), stated on the indexes alone,
 * and the runs of the manager.
 */
module AddrCheck {
  import opened AddrBook
  import opened AddrIndex
  import opened AddrMan

  // ---------------------------------------------------------------- the check

  ghost function TriedIds(m: Infos): set<int> {
    set id | id in m && m[id].fInTried
  }

  ghost function NewIds(m: Infos): set<int> {
    set id | id in m && !m[id].fInTried
  }

  /** The slots of the new table that hold an identifier. */
  ghost function SlotsOf(vvNew: map<Slot, int>, id: int): set<Slot> {
    set slot | slot in vvNew && vvNew[slot] == id
  }

  /** What is checked of an entry's place in the indexes; the comments give the error codes. */
  predicate EntryPlaced(x: Index, id: int)
    requires id in x.mapInfo
  {
    var i := x.mapInfo[id];
    && (i.fInTried ==> i.nRefCount == 0)                                          // -2
    && (!i.fInTried ==> 0 < i.nRefCount <= MAX_REFS)                              // -3, -4
    && IdOf(x.mapAddr, i.Net()) == id                                             // -5
    && 0 <= i.nRandomPos < |x.vRandom| && x.vRandom[i.nRandomPos] == id           // -14
  }

  /** An address that is missing reads as zero, as the source looks it up. */
  function IdOf(ids: Names, a: NetAddr): int {
    if a in ids then ids[a] else 0
  }

  /** What is checked of an entry's times. */
  predicate EntryTimed(i: Info) {
    && (i.fInTried ==> i.stats.nLastSuccess != 0)                                 // -1
    && i.stats.nLastTry >= 0 && i.stats.nLastSuccess >= 0                         // -6, -8
  }

  /** The entries of the tried table: in their slots, and no identifier twice. */
  ghost predicate TriedPasses(h: Layout, x: Index) {
    && (forall slot :: TriedSlotPasses(h, x, slot))                               // -11, -17, -18
    && (forall s, t :: OncePasses(x.vvTried, s, t))                               // -11
  }

  ghost predicate TriedSlotPasses(h: Layout, x: Index, slot: Slot) {
    slot in x.vvTried ==>
      x.vvTried[slot] in TriedIds(x.mapInfo) && slot == h.TriedSlot(x.mapInfo[x.vvTried[slot]].stats.service)
  }

  ghost predicate OncePasses(table: map<Slot, int>, s: Slot, t: Slot) {
    s in table && t in table && table[s] == table[t] ==> s == t
  }

  /** The entries of the new table: in their slots, and no identifier more often than it is counted. */
  ghost predicate NewPasses(h: Layout, x: Index) {
    && (forall slot :: NewSlotPasses(h, x, slot))                                 // -12, -19
    && (forall id :: id in NewIds(x.mapInfo) ==> |SlotsOf(x.vvNew, id)| <= x.mapInfo[id].nRefCount)   // -12
  }

  ghost predicate NewSlotPasses(h: Layout, x: Index, slot: Slot) {
    slot in x.vvNew ==>
      && x.vvNew[slot] in NewIds(x.mapInfo)
      && slot == h.NewSlot(x.mapInfo[x.vvNew[slot]].stats.service, slot.bucket)
  }

  /** All tests but those of times and of the key. */
  ghost predicate TablesPass(h: Layout, x: Index) {
    && |x.vRandom| == x.nTried + x.nNew                                           // -7
    && (forall id :: id in x.mapInfo ==> EntryPlaced(x, id))
    && |TriedIds(x.mapInfo)| == x.nTried                                          // -9
    && |NewIds(x.mapInfo)| == x.nNew                                              // -10
    && TriedPasses(h, x)
    && NewPasses(h, x)
    && TriedIds(x.mapInfo) <= x.vvTried.Values                                    // -13
    && (forall id :: id in NewIds(x.mapInfo) ==> |SlotsOf(x.vvNew, id)| >= x.mapInfo[id].nRefCount)   // -15
  }

  ghost predicate CheckPasses(h: Layout, nKey: nat, x: Index) {
    && TablesPass(h, x)
    && (forall id :: id in x.mapInfo ==> EntryTimed(x.mapInfo[id]))
    && nKey != 0                                                                  // -16
  }

  // ---------------------------------------------------------------- counting

  /** The slots that hold an address in the first `n` buckets are as many as its references there. */
  lemma {:induction false} RefsAreSlots(h: Layout, b: Book, a: NetAddr, n: nat)
    requires UntriedOk(h, b) && a in b.stats && b.stats[a].service.net == a
    ensures |set slot | slot in b.untried && b.untried[slot] == a && slot.bucket < n|
         == Refs(h, b.untried, b.stats[a].service, n)
  {
    if n == 0 {
      assert (set slot | slot in b.untried && b.untried[slot] == a && slot.bucket < 0) == {};
    } else {
      RefsAreSlots(h, b, a, n - 1);
      var s := h.NewSlot(b.stats[a].service, n - 1);
      var few := set slot | slot in b.untried && b.untried[slot] == a && slot.bucket < n - 1;
      var all := set slot | slot in b.untried && b.untried[slot] == a && slot.bucket < n;
      forall t | t in all && t !in few
        ensures t == s
      {
        assert UntriedAt(h, b, t);
      }
      if Holds(b.untried, s, a) {
        assert all == few + {s};
      } else {
        assert all == few;
      }
    }
  }

  /** The slots of the index are those of the book. */
  lemma {:induction false} SlotsLinked(h: Layout, x: Index, b: Book, id: int)
    requires Sound(h, x, b, {}, 0) && id in x.mapInfo
    ensures |SlotsOf(x.vvNew, id)| == x.mapInfo[id].nRefCount
  {
    EntryLinked(h, x, b, 0, id);
    var a := x.mapInfo[id].Net();
    RefsAreSlots(h, b, a, h.newBuckets);
    var named := set slot | slot in b.untried && b.untried[slot] == a && slot.bucket < h.newBuckets;
    forall slot: Slot
      ensures slot in named <==> slot in SlotsOf(x.vvNew, id)
    {
      NewSlotFound(h, x, b, 0, slot);
      assert UntriedAt(h, b, slot) && SlotLinked(x.mapAddr, x.vvNew, b.untried, slot);
    }
    assert named == SlotsOf(x.vvNew, id);
  }

  lemma {:induction false} InjectiveValues<K, V>(m: map<K, V>)
    requires forall s, t :: s in m && t in m && m[s] == m[t] ==> s == t
    ensures |m.Values| == |m|
    decreases |m|
  {
    if m == map[] {
      assert m.Values == {};
    } else {
      var k :| k in m;
      var m' := m - {k};
      CardinalityRemove(m, k);
      InjectiveValues(m');
      assert m.Values == m'.Values + {m[k]} by {
        forall v ensures v in m.Values <==> v in m'.Values + {m[k]} {
          if v in m.Values {
            var j :| j in m && m[j] == v;
            if j != k { assert j in m' && m'[j] == v; }
          }
        }
      }
      assert m[k] !in m'.Values;
    }
  }

  lemma {:induction false} DistinctElements(v: seq<int>)
    requires forall i, j :: 0 <= i < j < |v| ==> v[i] != v[j]
    ensures |set id | id in v| == |v|
  {
    if v == [] {
      assert (set id | id in v) == {};
    } else {
      var w := v[..|v| - 1];
      DistinctElements(w);
      assert v == w + [v[|v| - 1]];
      assert (set id | id in v) == (set id | id in w) + {v[|v| - 1]};
    }
  }

  /** The random order has as many places as there are entries. */
  lemma {:induction false} RandomCounts(m: Infos, v: seq<int>)
    requires RandomLinked(m, v)
    ensures |m.Keys| == |v|
  {
    forall i, j | 0 <= i < j < |v|
      ensures v[i] != v[j]
    {
      assert HasEntry(m, v, i) && HasEntry(m, v, j);
    }
    DistinctElements(v);
    forall id: int
      ensures id in m.Keys <==> id in (set k | k in v)
    {
      assert HasPosition(m, v, id);
      if id in v {
        var k :| 0 <= k < |v| && v[k] == id;
        assert HasEntry(m, v, k);
      }
    }
    assert m.Keys == set k | k in v;
  }

  lemma {:induction false} TriedEntry(h: Layout, x: Index, b: Book, slot: Slot)
    requires Sound(h, x, b, {}, 0) && slot in x.vvTried
    ensures x.vvTried[slot] in TriedIds(x.mapInfo) && slot == h.TriedSlot(x.mapInfo[x.vvTried[slot]].stats.service)
  {
    TriedSlotFound(h, x, b, 0, slot);
    EntryLinked(h, x, b, 0, x.vvTried[slot]);
    assert TriedAt(h, b, slot);
  }

  lemma {:induction false} NewEntry(h: Layout, x: Index, b: Book, slot: Slot)
    requires Sound(h, x, b, {}, 0) && slot in x.vvNew
    ensures x.vvNew[slot] in NewIds(x.mapInfo)
    ensures slot == h.NewSlot(x.mapInfo[x.vvNew[slot]].stats.service, slot.bucket)
  {
    NewSlotFound(h, x, b, 0, slot);
    EntryLinked(h, x, b, 0, x.vvNew[slot]);
    VacateOk(h, b, {}, slot);
    assert UntriedAt(h, b, slot);
  }

  lemma {:induction false} OneEntry(h: Layout, x: Index, b: Book, id: int)
    requires Sound(h, x, b, {}, 0) && id in x.mapInfo
    ensures EntryPlaced(x, id)
    ensures x.mapInfo[id].fInTried ==>
      var slot := h.TriedSlot(x.mapInfo[id].stats.service); slot in x.vvTried && x.vvTried[slot] == id
  {
    var a := x.mapInfo[id].Net();
    EntryLinked(h, x, b, 0, id);
    var slot := h.TriedSlot(x.mapInfo[id].stats.service);
    assert StatOk(b.stats, a) && Anchored(h, b, {}, a) && TriedAt(h, b, slot);
    assert SlotLinked(x.mapAddr, x.vvTried, b.tried, slot);
  }

  lemma {:induction false} TriedCount(h: Layout, x: Index, b: Book)
    requires Sound(h, x, b, {}, 0)
    ensures x.vvTried.Values == TriedIds(x.mapInfo) && |TriedIds(x.mapInfo)| == x.nTried
    ensures forall s, t :: s in x.vvTried && t in x.vvTried && x.vvTried[s] == x.vvTried[t] ==> s == t
  {
    forall slot | slot in x.vvTried
      ensures x.vvTried[slot] in TriedIds(x.mapInfo) && slot == h.TriedSlot(x.mapInfo[x.vvTried[slot]].stats.service)
    {
      TriedEntry(h, x, b, slot);
    }
    forall id | id in TriedIds(x.mapInfo)
      ensures id in x.vvTried.Values
    {
      OneEntry(h, x, b, id);
      var slot := h.TriedSlot(x.mapInfo[id].stats.service);
      assert slot in x.vvTried && x.vvTried[slot] == id;
    }
    assert x.vvTried.Values == TriedIds(x.mapInfo);
    InjectiveValues(x.vvTried);
  }

  /** Every sound state passes all tests of its tables. */
  lemma {:induction false} SoundTables(h: Layout, x: Index, b: Book)
    requires Sound(h, x, b, {}, 0)
    ensures TablesPass(h, x)
  {
    forall id | id in x.mapInfo
      ensures EntryPlaced(x, id) && |SlotsOf(x.vvNew, id)| == x.mapInfo[id].nRefCount
    {
      OneEntry(h, x, b, id);
      SlotsLinked(h, x, b, id);
    }
    forall slot ensures TriedSlotPasses(h, x, slot) { if slot in x.vvTried { TriedEntry(h, x, b, slot); } }
    forall slot ensures NewSlotPasses(h, x, slot) { if slot in x.vvNew { NewEntry(h, x, b, slot); } }
    TriedCount(h, x, b);
    forall s, t ensures OncePasses(x.vvTried, s, t) {}
    RandomCounts(x.mapInfo, x.vRandom);
    assert NewIds(x.mapInfo) == x.mapInfo.Keys - TriedIds(x.mapInfo);
  }

  /** It passes the check exactly if the times of its book are in order and the key is not null. */
  lemma {:induction false} SoundPasses(h: Layout, nKey: nat, x: Index, b: Book)
    requires Sound(h, x, b, {}, 0)
    ensures CheckPasses(h, nKey, x) <==> TimesOk(h, b) && nKey != 0
  {
    SoundTables(h, x, b);
    if TimesOk(h, b) {
      forall id | id in x.mapInfo ensures EntryTimed(x.mapInfo[id]) {
        EntryLinked(h, x, b, 0, id);
        assert TimeOk(h, b, x.mapInfo[id].Net());
      }
    }
    if forall id :: id in x.mapInfo ==> EntryTimed(x.mapInfo[id]) {
      forall a ensures TimeOk(h, b, a) {
        NameFound(h, x, b, 0, a);
        if a in b.stats { EntryLinked(h, x, b, 0, x.mapAddr[a]); }
      }
    }
  }

  // ---------------------------------------------------------------- runs

  datatype Op =
    | Add(addr: Announced, source: NetAddr, nTimePenalty: int, now: int, routable: bool, draw: nat)
    | Good(service: Service, nTime: int, draw: nat)
    | Attempt(service: Service, nTime: int)
    | Connected(service: Service, nTime: int)
    | GetAddr(now: int, draws: nat -> nat)

  /** A known address is marked good at a positive time, and tried at one that is not negative. */
  predicate Dated(b: Book, op: Op) {
    match op
    case Good(s, nTime, _) => Knows(b, s) ==> nTime > 0
    case Attempt(s, nTime) => Knows(b, s) ==> nTime >= 0
    case _ => true
  }

  function Effect(h: Layout, b: Book, op: Op): Book {
    match op
    case Add(addr, source, nTimePenalty, now, routable, draw) =>
      AfterAdd(h, b, addr, source, nTimePenalty, now, routable, draw).0
    case Good(s, nTime, _) => AfterGood(h, b, s, nTime)
    case Attempt(s, nTime) => AfterAttempt(b, s, nTime)
    case Connected(s, nTime) => AfterConnected(b, s, nTime)
    case GetAddr(_, _) => b
  }

  /** The book after all operations, one after the other. */
  function EffectAll(h: Layout, ops: seq<Op>): Book {
    if ops == [] then EMPTY_BOOK else Effect(h, EffectAll(h, ops[..|ops| - 1]), ops[|ops| - 1])
  }

  method Perform(m: AddrMan, op: Op)
    requires m.Valid()
    modifies m
    ensures m.Valid() && m.book == Effect(m.h, old(m.book), op)
  {
    match op
    case Add(addr, source, nTimePenalty, now, routable, draw) =>
      var _ := m.Add_(addr, source, nTimePenalty, now, routable, draw);
    case Good(s, nTime, draw) => m.Good_(s, nTime, draw);
    case Attempt(s, nTime) => m.Attempt_(s, nTime);
    case Connected(s, nTime) => m.Connected_(s, nTime);
    case GetAddr(now, draws) => var _ := m.GetAddr_(now, draws);
  }

  /** An operation keeps the times in order exactly if it is dated properly. */
  lemma {:induction false} DatedTimes(h: Layout, b: Book, op: Op)
    requires BookOk(h, b, {}) && TimesOk(h, b)
    ensures TimesOk(h, Effect(h, b, op)) <==> Dated(b, op)
  {
    match op
    case Add(addr, source, nTimePenalty, now, routable, draw) =>
      TimesAdd(h, b, addr, source, nTimePenalty, now, routable, draw);
    case Good(s, nTime, _) => GoodTimes(h, b, s, nTime);
    case Attempt(s, nTime) => AttemptTimes(h, b, s, nTime);
    case Connected(s, nTime) => TimesConnected(h, b, s, nTime);
    case GetAddr(_, _) =>
  }

  /** The times are in order at the start and after every operation. */
  ghost predicate TimesAll(h: Layout, ops: seq<Op>) {
    TimesOk(h, EffectAll(h, ops)) && (ops != [] ==> TimesAll(h, ops[..|ops| - 1]))
  }

  /** Every operation is dated properly for the book that it meets. */
  predicate DatedAll(h: Layout, ops: seq<Op>) {
    ops == [] || (DatedAll(h, ops[..|ops| - 1]) && Dated(EffectAll(h, ops[..|ops| - 1]), ops[|ops| - 1]))
  }

  /** One more operation of a run. */
  lemma {:induction false} DatedNext(h: Layout, ops: seq<Op>, op: Op)
    requires BookOk(h, EffectAll(h, ops), {}) && (TimesAll(h, ops) <==> DatedAll(h, ops))
    ensures TimesAll(h, ops + [op]) <==> DatedAll(h, ops + [op])
    ensures EffectAll(h, ops + [op]) == Effect(h, EffectAll(h, ops), op)
  {
    assert (ops + [op])[..|ops|] == ops;
    if TimesAll(h, ops) { DatedTimes(h, EffectAll(h, ops), op); }
  }

  /** One operation of a run on the manager. */
  method Step(m: AddrMan, ghost done: seq<Op>, op: Op)
    requires m.Valid() && m.book == EffectAll(m.h, done) && (TimesAll(m.h, done) <==> DatedAll(m.h, done))
    modifies m
    ensures m.Valid() && m.book == EffectAll(m.h, done + [op])
    ensures TimesAll(m.h, done + [op]) <==> DatedAll(m.h, done + [op])
  {
    DatedNext(m.h, done, op);
    Perform(m, op);
  }

  method PerformAll(h: Layout, ops: seq<Op>) returns (m: AddrMan)
    ensures fresh(m) && m.h == h && m.Valid() && m.book == EffectAll(h, ops)
    ensures TimesAll(h, ops) <==> DatedAll(h, ops)
  {
    m := new AddrMan(h);
    for i := 0 to |ops|
      invariant m.h == h && m.Valid() && fresh(m) && m.book == EffectAll(h, ops[..i])
      invariant TimesAll(h, ops[..i]) <==> DatedAll(h, ops[..i])
    {
      Step(m, ops[..i], ops[i]);
      assert ops[..i + 1] == ops[..i] + [ops[i]];
    }
    assert ops[..|ops|] == ops;
  }

  /**
   * Any run from a new manager keeps one book.  The check passes at its end exactly if the times of
   * that book are in order; they are in order all along exactly if every operation is dated properly
   * for the book that it meets.
   */
  method Run(h: Layout, nKey: nat, ops: seq<Op>) returns (m: AddrMan)
    ensures m.h == h && m.Valid() && m.book == EffectAll(h, ops)
    ensures CheckPasses(h, nKey, m.State()) <==> TimesOk(h, EffectAll(h, ops)) && nKey != 0
    ensures TimesAll(h, ops) <==> DatedAll(h, ops)
  {
    m := PerformAll(h, ops);
    SoundPasses(h, nKey, m.State(), m.book);
  }

  /** A new manager, an address that gets the only slot, and a good connection to it at time zero. */
  const UNDATED: seq<Op> := [Add(AnnouncedAt(1, 9), NetAddr(0), 0, 9, true, 0), Good(Service(NetAddr(1), 0), 0, 0)]

  lemma {:induction false} GoodAtZeroFails()
    ensures TimesOk(TINY, EffectAll(TINY, UNDATED[..1])) && !TimesOk(TINY, EffectAll(TINY, UNDATED))
  {
    var one := UNDATED[..1];
    assert one[..0] == [] && EffectAll(TINY, []) == EMPTY_BOOK;
    var b := EffectAll(TINY, one);
    var st := Introduced(AnnouncedAt(1, 9), NetAddr(0), 0);
    assert b == Place(Note(EMPTY_BOOK, st), Slot(0, 0), NetAddr(1));
    assert !TimeOk(TINY, AfterGood(TINY, b, st.service, 0), NetAddr(1));
  }
}
