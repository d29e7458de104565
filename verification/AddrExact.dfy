/**
 * `Check_` is exact: the states that pass its tests of the tables, with entries named and numbered as every
 * operation leaves them, are those that keep an address book.
 */
module AddrExact {
  import opened AddrBook
  import opened AddrIndex
  import opened AddrCheck
  import opened AddrScan

  /** What the check does not look at: identifiers below the count, and no names but those of entries. */
  ghost predicate Named(x: Index) {
    x.nIdCount >= 0 && (forall id :: IdNamed(x, id)) && (forall a :: NameUsed(x, a))
  }

  ghost predicate IdNamed(x: Index, id: int) {
    id in x.mapInfo ==> 0 <= id < x.nIdCount && x.mapInfo[id].Net() in x.mapAddr
  }

  ghost predicate NameUsed(x: Index, a: NetAddr) {
    a in x.mapAddr ==> x.mapAddr[a] in x.mapInfo && x.mapInfo[x.mapAddr[a]].Net() == a
  }

  /** The book that the indexes keep. */
  ghost function BookOf(x: Index): Book {
    Book(NamesIn(x.mapInfo, x.vvNew), NamesIn(x.mapInfo, x.vvTried),
         map a | a in x.mapAddr && x.mapAddr[a] in x.mapInfo :: x.mapInfo[x.mapAddr[a]].stats)
  }

  ghost function NamesIn(m: Infos, ids: map<Slot, int>): map<Slot, NetAddr> {
    map slot | slot in ids && ids[slot] in m :: m[ids[slot]].Net()
  }

  ghost predicate Consistent(h: Layout, x: Index) {
    TablesPass(h, x) && InTables(h, x) && Named(x)
  }

  // ---------------------------------------------------------------- names

  /** An entry is found under its name, in the indexes and in the book. */
  lemma {:induction false} EntryFound(h: Layout, x: Index, id: int)
    requires Consistent(h, x) && id in x.mapInfo
    ensures var a := x.mapInfo[id].Net();
            && a in x.mapAddr && x.mapAddr[a] == id && a in BookOf(x).stats && BookOf(x).stats[a] == x.mapInfo[id].stats
    ensures EntryPlaced(x, id)
  {
    assert IdNamed(x, id) && EntryPlaced(x, id);
  }

  lemma {:induction false} IdsOk(h: Layout, x: Index)
    requires Consistent(h, x)
    ensures IdsLinked(x.nIdCount, x.mapInfo, x.mapAddr, BookOf(x).stats) && StatsOk(BookOf(x).stats)
  {
    var b := BookOf(x);
    forall a ensures NameLinked(x.mapInfo, x.mapAddr, b.stats, a) && StatOk(b.stats, a) { assert NameUsed(x, a); }
    forall id ensures IdLinked(x.nIdCount, x.mapInfo, x.mapAddr, id) {
      assert IdNamed(x, id);
      if id in x.mapInfo { EntryFound(h, x, id); }
    }
  }

  // ---------------------------------------------------------------- tables

  lemma {:induction false} NewSlotOk(h: Layout, x: Index, slot: Slot)
    requires Consistent(h, x)
    ensures slot in x.vvNew <==> slot in BookOf(x).untried
    ensures UntriedAt(h, BookOf(x), slot) && SlotLinked(x.mapAddr, x.vvNew, BookOf(x).untried, slot)
    ensures slot in x.vvNew ==> x.vvNew[slot] in NewIds(x.mapInfo)
  {
    if slot in x.vvNew {
      assert NewSlotPasses(h, x, slot) && WithinTables(h, x, slot);
      EntryFound(h, x, x.vvNew[slot]);
    }
  }

  lemma {:induction false} TriedSlotOk(h: Layout, x: Index, slot: Slot)
    requires Consistent(h, x)
    ensures slot in x.vvTried <==> slot in BookOf(x).tried
    ensures TriedAt(h, BookOf(x), slot) && SlotLinked(x.mapAddr, x.vvTried, BookOf(x).tried, slot)
    ensures slot in x.vvTried ==> x.vvTried[slot] in TriedIds(x.mapInfo)
  {
    if slot in x.vvTried {
      assert TriedSlotPasses(h, x, slot);
      EntryFound(h, x, x.vvTried[slot]);
    }
  }

  lemma {:induction false} TablesOk(h: Layout, x: Index)
    requires Consistent(h, x)
    ensures UntriedOk(h, BookOf(x)) && TableLinked(x.mapAddr, x.vvNew, BookOf(x).untried)
    ensures TriedOk(h, BookOf(x)) && TableLinked(x.mapAddr, x.vvTried, BookOf(x).tried)
  {
    forall slot
      ensures UntriedAt(h, BookOf(x), slot) && SlotLinked(x.mapAddr, x.vvNew, BookOf(x).untried, slot)
      ensures TriedAt(h, BookOf(x), slot) && SlotLinked(x.mapAddr, x.vvTried, BookOf(x).tried, slot)
    {
      NewSlotOk(h, x, slot);
      TriedSlotOk(h, x, slot);
    }
  }

  // ---------------------------------------------------------------- marks

  /** The references of an entry are its slots. */
  lemma {:induction false} RefsCounted(h: Layout, x: Index, id: int)
    requires Consistent(h, x) && id in x.mapInfo
    ensures RefCount(h, BookOf(x), x.mapInfo[id].Net()) == |SlotsOf(x.vvNew, id)|
  {
    var b, a := BookOf(x), x.mapInfo[id].Net();
    TablesOk(h, x);
    EntryFound(h, x, id);
    RefsAreSlots(h, b, a, h.newBuckets);
    var named := set slot | slot in b.untried && b.untried[slot] == a && slot.bucket < h.newBuckets;
    forall slot: Slot
      ensures slot in named <==> slot in SlotsOf(x.vvNew, id)
    {
      NewSlotOk(h, x, slot);
    }
    assert named == SlotsOf(x.vvNew, id);
  }

  lemma {:induction false} TriedMarked(h: Layout, x: Index, id: int)
    requires Consistent(h, x) && id in x.mapInfo
    ensures x.mapInfo[id].fInTried == IsTried(h, BookOf(x), x.mapInfo[id].Net())
  {
    var slot := h.TriedSlot(x.mapInfo[id].stats.service);
    EntryFound(h, x, id);
    TriedSlotOk(h, x, slot);
    if x.mapInfo[id].fInTried {
      assert id in TriedIds(x.mapInfo);
      var t :| t in x.vvTried && x.vvTried[t] == id;
      assert TriedSlotPasses(h, x, t);
    }
  }

  /** A tried entry has no slot of the new table. */
  lemma {:induction false} TriedNotNew(h: Layout, x: Index, id: int)
    requires Consistent(h, x) && id in x.mapInfo && x.mapInfo[id].fInTried
    ensures SlotsOf(x.vvNew, id) == {}
  {
    forall slot: Slot ensures slot !in SlotsOf(x.vvNew, id) { NewSlotOk(h, x, slot); }
  }

  lemma {:induction false} EntryMarked(h: Layout, x: Index, id: int)
    requires Consistent(h, x)
    ensures Marked(h, x.mapInfo, BookOf(x), id)
    ensures id in x.mapInfo ==> Anchored(h, BookOf(x), {}, x.mapInfo[id].Net())
  {
    if id in x.mapInfo {
      EntryFound(h, x, id);
      RefsCounted(h, x, id);
      TriedMarked(h, x, id);
      if x.mapInfo[id].fInTried { TriedNotNew(h, x, id); } else { assert id in NewIds(x.mapInfo); }
    }
  }

  lemma {:induction false} MarksOk(h: Layout, x: Index)
    requires Consistent(h, x)
    ensures MarksLinked(h, x.mapInfo, BookOf(x)) && RefsOk(h, BookOf(x), {})
  {
    forall id ensures Marked(h, x.mapInfo, BookOf(x), id) { EntryMarked(h, x, id); }
    forall a ensures Anchored(h, BookOf(x), {}, a) {
      assert NameUsed(x, a);
      if a in BookOf(x).stats { EntryMarked(h, x, x.mapAddr[a]); }
    }
  }

  // ---------------------------------------------------------------- counters and the random order

  /** A list has as many elements as places only if none is repeated. */
  lemma {:induction false} NoneRepeated(v: seq<int>)
    ensures |set id | id in v| <= |v|
    ensures |set id | id in v| == |v| ==> forall i, j :: 0 <= i < j < |v| ==> v[i] != v[j]
  {
    if v == [] {
      assert (set id | id in v) == {};
    } else {
      var w, last := v[..|v| - 1], v[|v| - 1];
      NoneRepeated(w);
      assert v == w + [last];
      var few, all := set id | id in w, set id | id in v;
      assert all == few + {last};
      if |all| == |v| { assert last !in few; }
    }
  }

  lemma {:induction false} SameSize(s: set<int>, t: set<int>)
    requires s <= t && |t| <= |s|
    ensures s == t
  {
    assert t == s + (t - s);
  }

  lemma {:induction false} RandomOk(m: Infos, v: seq<int>)
    requires |m.Keys| == |v| && forall id :: HasPosition(m, v, id)
    ensures RandomLinked(m, v)
  {
    NoneRepeated(v);
    var all := set id | id in v;
    forall id: int | id in m.Keys ensures id in all { assert HasPosition(m, v, id); }
    SameSize(m.Keys, all);
    forall k ensures HasEntry(m, v, k) {
      if 0 <= k < |v| {
        assert v[k] in all;
        assert HasPosition(m, v, v[k]);
      }
    }
  }

  lemma {:induction false} CountsOk(h: Layout, x: Index)
    requires Consistent(h, x)
    ensures RandomLinked(x.mapInfo, x.vRandom) && CountsLinked(x, 0)
  {
    assert x.mapInfo.Keys == TriedIds(x.mapInfo) + NewIds(x.mapInfo);
    forall id ensures HasPosition(x.mapInfo, x.vRandom, id) { if id in x.mapInfo { EntryFound(h, x, id); } }
    RandomOk(x.mapInfo, x.vRandom);
    TriedSize(h, x);
  }

  lemma {:induction false} TriedSize(h: Layout, x: Index)
    requires Consistent(h, x)
    ensures |x.vvTried| == |TriedIds(x.mapInfo)|
  {
    forall s, t | s in x.vvTried && t in x.vvTried && x.vvTried[s] == x.vvTried[t]
      ensures s == t
    {
      assert OncePasses(x.vvTried, s, t);
    }
    InjectiveValues(x.vvTried);
    forall id: int | id in x.vvTried.Values ensures id in TriedIds(x.mapInfo) {
      var slot :| slot in x.vvTried && x.vvTried[slot] == id;
      TriedSlotOk(h, x, slot);
    }
    assert x.vvTried.Values == TriedIds(x.mapInfo);
  }

  // ---------------------------------------------------------------- the result

  lemma {:induction false} ConsistentSound(h: Layout, x: Index)
    requires Consistent(h, x)
    ensures Sound(h, x, BookOf(x), {}, 0)
  {
    IdsOk(h, x);
    TablesOk(h, x);
    MarksOk(h, x);
    CountsOk(h, x);
  }

  lemma {:induction false} SoundConsistent(h: Layout, x: Index, b: Book)
    requires Sound(h, x, b, {}, 0)
    ensures Consistent(h, x)
  {
    SoundTables(h, x, b);
    SoundInTables(h, x, b);
    forall id ensures IdNamed(x, id) { assert IdLinked(x.nIdCount, x.mapInfo, x.mapAddr, id); }
    forall a ensures NameUsed(x, a) { assert NameLinked(x.mapInfo, x.mapAddr, b.stats, a); }
  }

  /** A state keeps a book exactly if its tables pass and what the check does not look at is in order. */
  lemma {:induction false} SoundExact(h: Layout, x: Index)
    ensures (exists b :: Sound(h, x, b, {}, 0)) <==> Consistent(h, x)
  {
    if Consistent(h, x) { ConsistentSound(h, x); }
    if b :| Sound(h, x, b, {}, 0) { SoundConsistent(h, x, b); }
  }

  /** Where that is in order, the check passes exactly if there is a book with its times in order and the key is set. */
  lemma {:induction false} CheckExact(h: Layout, nKey: nat, x: Index)
    requires InTables(h, x) && Named(x)
    ensures CheckPasses(h, nKey, x) <==> nKey != 0 && exists b :: Sound(h, x, b, {}, 0) && TimesOk(h, b)
  {
    if TablesPass(h, x) {
      ConsistentSound(h, x);
      SoundPasses(h, nKey, x, BookOf(x));
    }
    if b :| Sound(h, x, b, {}, 0) && TimesOk(h, b) {
      SoundPasses(h, nKey, x, b);
    }
  }
}
