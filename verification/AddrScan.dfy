/**
 * The loops of `Check_`: entries are gathered into a set of tried identifiers and a map of reference
 * counts, and the tables scanned while striking them off.
 */
module AddrScan {
  import opened AddrBook
  import opened AddrIndex
  import opened AddrMan
  import opened AddrCheck

  /** The bounds of the tables. */
  ghost predicate InTables(h: Layout, x: Index) {
    forall slot :: WithinTables(h, x, slot)
  }

  ghost predicate WithinTables(h: Layout, x: Index, slot: Slot) {
    && (slot in x.vvTried ==> slot.bucket < h.triedBuckets && slot.pos < h.bucketSize)
    && (slot in x.vvNew ==> slot.bucket < h.newBuckets && slot.pos < h.bucketSize)
  }

  /** Sound states keep to the tables. */
  lemma {:induction false} SoundInTables(h: Layout, x: Index, b: Book)
    requires Sound(h, x, b, {}, 0)
    ensures InTables(h, x)
  {
    forall slot ensures WithinTables(h, x, slot) {
      if slot in x.vvTried { TriedEntry(h, x, b, slot); }
      if slot in x.vvNew {
        NewEntry(h, x, b, slot);
        NewSlotFound(h, x, b, 0, slot);
        assert UntriedAt(h, b, slot);
      }
    }
  }

  /** The identifiers in the order of the map. */
  ghost predicate Enumerates(ids: seq<int>, m: Infos) {
    && (forall i, j :: 0 <= i < j < |ids| ==> ids[i] != ids[j])
    && (forall id :: id in m <==> id in ids)
  }

  // ---------------------------------------------------------------- the entries

  ghost function CountsOf(m: Infos, ids: seq<int>): map<int, int> {
    map id | id in ids && id in m && !m[id].fInTried :: m[id].nRefCount
  }

  ghost function TriedOf(m: Infos, ids: seq<int>): set<int> {
    set id | id in ids && id in m && m[id].fInTried
  }

  lemma {:induction false} GatheredNext(m: Infos, ids: seq<int>, id: int)
    requires id in m
    ensures TriedOf(m, ids + [id]) == if m[id].fInTried then TriedOf(m, ids) + {id} else TriedOf(m, ids)
    ensures CountsOf(m, ids + [id]) ==
            if m[id].fInTried then CountsOf(m, ids) else CountsOf(m, ids)[id := m[id].nRefCount]
  {
  }

  lemma {:induction false} AllGathered(m: Infos, ids: seq<int>)
    requires Enumerates(ids, m)
    ensures TriedOf(m, ids) == TriedIds(m) && CountsOf(m, ids).Keys == NewIds(m)
  {
    forall id: int ensures id in TriedOf(m, ids) <==> id in TriedIds(m) {}
    forall id: int ensures id in CountsOf(m, ids).Keys <==> id in NewIds(m) {}
  }

  /** Tests one entry. */
  method CheckEntry(x: Index, id: int) returns (err: int)
    requires id in x.mapInfo
    ensures err == 0 <==> EntryPlaced(x, id) && EntryTimed(x.mapInfo[id])
  {
    var info := x.mapInfo[id];
    if info.fInTried {
      if info.stats.nLastSuccess == 0 {
        return -1;
      }
      if info.nRefCount != 0 {
        return -2;
      }
    } else {
      if info.nRefCount < 0 || info.nRefCount > MAX_REFS {
        return -3;
      }
      if info.nRefCount == 0 {
        return -4;
      }
    }
    if IdOf(x.mapAddr, info.Net()) != id {
      return -5;
    }
    if info.nRandomPos < 0 || info.nRandomPos >= |x.vRandom| || x.vRandom[info.nRandomPos] != id {
      return -14;
    }
    if info.stats.nLastTry < 0 {
      return -6;
    }
    if info.stats.nLastSuccess < 0 {
      return -8;
    }
    err := 0;
  }

  /** Tests all entries, and gathers the tried ones and the counts of the others. */
  method CheckEntries(x: Index, ids: seq<int>) returns (err: int, setTried: set<int>, mapNew: map<int, int>)
    requires Enumerates(ids, x.mapInfo)
    ensures err == 0 <==> forall id :: id in x.mapInfo ==> EntryPlaced(x, id) && EntryTimed(x.mapInfo[id])
    ensures err == 0 ==> setTried == TriedIds(x.mapInfo) && mapNew == CountsOf(x.mapInfo, ids)
  {
    setTried, mapNew := {}, map[];
    for k := 0 to |ids|
      invariant setTried == TriedOf(x.mapInfo, ids[..k]) && mapNew == CountsOf(x.mapInfo, ids[..k])
      invariant forall j :: 0 <= j < k ==> EntryPlaced(x, ids[j]) && EntryTimed(x.mapInfo[ids[j]])
    {
      var id := ids[k];
      assert id in x.mapInfo;
      assert ids[..k + 1] == ids[..k] + [id];
      GatheredNext(x.mapInfo, ids[..k], id);
      err := CheckEntry(x, id);
      if err != 0 {
        return;
      }
      if x.mapInfo[id].fInTried {
        setTried := setTried + {id};
      } else {
        mapNew := mapNew[id := x.mapInfo[id].nRefCount];
      }
    }
    assert ids[..|ids|] == ids;
    forall id | id in x.mapInfo ensures EntryPlaced(x, id) && EntryTimed(x.mapInfo[id]) {
      assert id in ids;
      var j :| 0 <= j < |ids| && ids[j] == id;
    }
    AllGathered(x.mapInfo, ids);
    err := 0;
  }

  // ---------------------------------------------------------------- the tried table

  /** Whether a scan that stands before position `i` of bucket `n` has passed a slot. */
  predicate Seen(slot: Slot, n: nat, i: nat) {
    slot.bucket < n || (slot.bucket == n && slot.pos < i)
  }

  ghost predicate FoundIn(table: map<Slot, int>, n: nat, i: nat, id: int) {
    exists slot :: slot in table && Seen(slot, n, i) && table[slot] == id
  }

  /** What holds of the slots seen, and what is left of the tried identifiers. */
  ghost predicate TriedScan(h: Layout, x: Index, left: set<int>, n: nat, i: nat) {
    && (forall slot :: TriedSeen(h, x, n, i, slot))
    && (forall s, t :: OnceSeen(x.vvTried, n, i, s, t))
    && (forall id :: TriedLeft(x, left, n, i, id))
  }

  ghost predicate TriedSeen(h: Layout, x: Index, n: nat, i: nat, slot: Slot) {
    Seen(slot, n, i) ==> TriedSlotPasses(h, x, slot)
  }

  ghost predicate OnceSeen(table: map<Slot, int>, n: nat, i: nat, s: Slot, t: Slot) {
    Seen(s, n, i) && Seen(t, n, i) ==> OncePasses(table, s, t)
  }

  ghost predicate TriedLeft(x: Index, left: set<int>, n: nat, i: nat, id: int) {
    id in left <==> id in TriedIds(x.mapInfo) && !FoundIn(x.vvTried, n, i, id)
  }

  lemma {:induction false} SeenNext(slot: Slot, n: nat, i: nat)
    ensures Seen(slot, n, i + 1) <==> Seen(slot, n, i) || slot == Slot(n, i)
  {
  }

  lemma {:induction false} FoundNext(table: map<Slot, int>, n: nat, i: nat, id: int)
    ensures FoundIn(table, n, i + 1, id) <==>
            FoundIn(table, n, i, id) || (Slot(n, i) in table && table[Slot(n, i)] == id)
  {
    if FoundIn(table, n, i + 1, id) {
      var s :| s in table && Seen(s, n, i + 1) && table[s] == id;
      SeenNext(s, n, i);
    }
    if FoundIn(table, n, i, id) {
      var s :| s in table && Seen(s, n, i) && table[s] == id;
      assert Seen(s, n, i + 1);
    }
    assert Seen(Slot(n, i), n, i + 1);
  }

  /** One slot further; `left` loses what is in it. */
  lemma {:induction false} TriedScanNext(h: Layout, x: Index, left: set<int>, n: nat, i: nat, left': set<int>)
    requires TriedScan(h, x, left, n, i) && TriedSlotPasses(h, x, Slot(n, i))
    requires var s := Slot(n, i);
             if s in x.vvTried then x.vvTried[s] in left && left' == left - {x.vvTried[s]} else left' == left
    ensures TriedScan(h, x, left', n, i + 1)
  {
    var i', here := i + 1, Slot(n, i);
    forall slot ensures TriedSeen(h, x, n, i', slot) {
      assert TriedSeen(h, x, n, i, slot);
      SeenNext(slot, n, i);
    }
    if here in x.vvTried { assert TriedLeft(x, left, n, i, x.vvTried[here]); }
    forall s, t ensures OnceSeen(x.vvTried, n, i', s, t) {
      assert OnceSeen(x.vvTried, n, i, s, t);
      SeenNext(s, n, i);
      SeenNext(t, n, i);
    }
    forall id ensures TriedLeft(x, left', n, i', id) {
      assert TriedLeft(x, left, n, i, id);
      FoundNext(x.vvTried, n, i, id);
    }
  }

  /** The last position of a bucket is followed by the first of the next. */
  lemma {:induction false} TriedScanRow(h: Layout, x: Index, left: set<int>, n: nat)
    requires InTables(h, x) && TriedScan(h, x, left, n, h.bucketSize)
    ensures TriedScan(h, x, left, n + 1, 0)
  {
    var n', z, size := n + 1, 0, h.bucketSize;
    forall slot ensures TriedSeen(h, x, n', z, slot) {
      assert TriedSeen(h, x, n, size, slot) && WithinTables(h, x, slot);
    }
    forall s, t ensures OnceSeen(x.vvTried, n', z, s, t) {
      assert OnceSeen(x.vvTried, n, size, s, t) && WithinTables(h, x, s) && WithinTables(h, x, t);
    }
    forall id ensures TriedLeft(x, left, n', z, id) {
      assert TriedLeft(x, left, n, size, id);
      if FoundIn(x.vvTried, n', z, id) {
        var s :| s in x.vvTried && Seen(s, n', z) && x.vvTried[s] == id;
        assert WithinTables(h, x, s) && Seen(s, n, size);
      }
      if FoundIn(x.vvTried, n, size, id) {
        var s :| s in x.vvTried && Seen(s, n, size) && x.vvTried[s] == id;
        assert Seen(s, n', z);
      }
    }
  }

  lemma {:induction false} TriedScanStart(h: Layout, x: Index)
    ensures TriedScan(h, x, TriedIds(x.mapInfo), 0, 0)
  {
    forall slot ensures TriedSeen(h, x, 0, 0, slot) {}
    forall s, t ensures OnceSeen(x.vvTried, 0, 0, s, t) {}
    forall id ensures TriedLeft(x, TriedIds(x.mapInfo), 0, 0, id) {}
  }

  lemma {:induction false} TriedScanEnd(h: Layout, x: Index, left: set<int>)
    requires InTables(h, x) && TriedScan(h, x, left, h.triedBuckets, 0)
    ensures TriedPasses(h, x) && (left == {} <==> TriedIds(x.mapInfo) <= x.vvTried.Values)
  {
    var n, z := h.triedBuckets, 0;
    forall slot ensures TriedSlotPasses(h, x, slot) {
      assert TriedSeen(h, x, n, z, slot) && WithinTables(h, x, slot);
    }
    forall s, t ensures OncePasses(x.vvTried, s, t) {
      assert OnceSeen(x.vvTried, n, z, s, t) && WithinTables(h, x, s) && WithinTables(h, x, t);
    }
    forall id: int ensures id in left <==> id in TriedIds(x.mapInfo) && id !in x.vvTried.Values {
      assert TriedLeft(x, left, n, z, id);
      if id in x.vvTried.Values {
        var s :| s in x.vvTried && x.vvTried[s] == id;
        assert WithinTables(h, x, s) && Seen(s, n, z);
      }
    }
    if TriedIds(x.mapInfo) <= x.vvTried.Values { assert left == {}; }
  }

  /** An identifier that is not left was no tried one, or was struck off before. */
  lemma {:induction false} TriedMissing(h: Layout, x: Index, left: set<int>, n: nat, i: nat)
    requires TriedScan(h, x, left, n, i) && Slot(n, i) in x.vvTried && x.vvTried[Slot(n, i)] !in left
    ensures !TriedPasses(h, x)
  {
    var here := Slot(n, i);
    var id := x.vvTried[here];
    assert TriedLeft(x, left, n, i, id);
    if id in TriedIds(x.mapInfo) {
      var s :| s in x.vvTried && Seen(s, n, i) && x.vvTried[s] == id;
      assert !OncePasses(x.vvTried, s, here);
    } else {
      assert !TriedSlotPasses(h, x, here);
    }
  }

  method CheckTriedSlot(h: Layout, x: Index, left: set<int>, n: nat, i: nat) returns (err: int, left': set<int>)
    requires TriedScan(h, x, left, n, i)
    ensures err != 0 ==> !TriedPasses(h, x)
    ensures err == 0 ==> TriedScan(h, x, left', n, i + 1)
  {
    err, left' := 0, left;
    var here := Slot(n, i);
    if here in x.vvTried {
      var id := x.vvTried[here];
      if id !in left {
        TriedMissing(h, x, left, n, i);
        return -11, left;
      }
      assert TriedLeft(x, left, n, i, id);
      var slot := h.TriedSlot(x.mapInfo[id].stats.service);
      if slot.bucket != n {
        assert !TriedSlotPasses(h, x, here);
        return -17, left;
      }
      if slot.pos != i {
        assert !TriedSlotPasses(h, x, here);
        return -18, left;
      }
      left' := left - {id};
    }
    TriedScanNext(h, x, left, n, i, left');
  }

  method CheckTriedTable(h: Layout, x: Index, setTried: set<int>) returns (err: int, left: set<int>)
    requires InTables(h, x) && setTried == TriedIds(x.mapInfo)
    ensures err == 0 <==> TriedPasses(h, x)
    ensures err == 0 ==> (left == {} <==> TriedIds(x.mapInfo) <= x.vvTried.Values)
  {
    left := setTried;
    TriedScanStart(h, x);
    for n := 0 to h.triedBuckets
      invariant TriedScan(h, x, left, n, 0)
    {
      for i := 0 to h.bucketSize
        invariant TriedScan(h, x, left, n, i)
      {
        err, left := CheckTriedSlot(h, x, left, n, i);
        if err != 0 {
          return;
        }
      }
      TriedScanRow(h, x, left, n);
    }
    TriedScanEnd(h, x, left);
    err := 0;
  }

  // ---------------------------------------------------------------- the new table

  ghost function SeenSlots(table: map<Slot, int>, n: nat, i: nat, id: int): set<Slot> {
    set slot | slot in table && Seen(slot, n, i) && table[slot] == id
  }

  ghost predicate NewScan(h: Layout, x: Index, left: map<int, int>, n: nat, i: nat) {
    && (forall slot :: NewSeen(h, x, n, i, slot))
    && (forall id :: NewLeft(x, left, n, i, id))
  }

  ghost predicate NewSeen(h: Layout, x: Index, n: nat, i: nat, slot: Slot) {
    Seen(slot, n, i) ==> NewSlotPasses(h, x, slot)
  }

  /** What is left of a count is what has not been seen, and nothing if all has. */
  ghost predicate NewLeft(x: Index, left: map<int, int>, n: nat, i: nat, id: int) {
    if id in NewIds(x.mapInfo) then
      var seen, all := |SeenSlots(x.vvNew, n, i, id)|, x.mapInfo[id].nRefCount;
      seen <= all && (id in left <==> seen < all) && (id in left ==> left[id] == all - seen)
    else id !in left
  }

  lemma {:induction false} SeenSlotsNext(table: map<Slot, int>, n: nat, i: nat, id: int)
    ensures var here := Slot(n, i);
            |SeenSlots(table, n, i + 1, id)| ==
            |SeenSlots(table, n, i, id)| + if here in table && table[here] == id then 1 else 0
  {
    var here := Slot(n, i);
    var was, now := SeenSlots(table, n, i, id), SeenSlots(table, n, i + 1, id);
    forall s: Slot ensures s in now <==> s in was || (s == here && here in table && table[here] == id) {
      SeenNext(s, n, i);
    }
    if here in table && table[here] == id {
      assert now == was + {here} && here !in was;
    } else {
      assert now == was;
    }
  }

  /** The counts after a slot is struck off. */
  function Struck(left: map<int, int>, id: int): map<int, int>
    requires id in left
  {
    if left[id] == 1 then left - {id} else left[id := left[id] - 1]
  }

  lemma {:induction false} NewScanNext(h: Layout, x: Index, left: map<int, int>, n: nat, i: nat, left': map<int, int>)
    requires NewScan(h, x, left, n, i) && NewSlotPasses(h, x, Slot(n, i))
    requires var s := Slot(n, i);
             if s in x.vvNew then x.vvNew[s] in left && left' == Struck(left, x.vvNew[s]) else left' == left
    ensures NewScan(h, x, left', n, i + 1)
  {
    var i' := i + 1;
    forall slot ensures NewSeen(h, x, n, i', slot) {
      assert NewSeen(h, x, n, i, slot);
      SeenNext(slot, n, i);
    }
    forall id ensures NewLeft(x, left', n, i', id) {
      assert NewLeft(x, left, n, i, id);
      SeenSlotsNext(x.vvNew, n, i, id);
    }
  }

  lemma {:induction false} NewScanRow(h: Layout, x: Index, left: map<int, int>, n: nat)
    requires InTables(h, x) && NewScan(h, x, left, n, h.bucketSize)
    ensures NewScan(h, x, left, n + 1, 0)
  {
    var n', z, size := n + 1, 0, h.bucketSize;
    forall slot ensures NewSeen(h, x, n', z, slot) {
      assert NewSeen(h, x, n, size, slot) && WithinTables(h, x, slot);
    }
    forall id ensures NewLeft(x, left, n', z, id) {
      assert NewLeft(x, left, n, size, id);
      forall s: Slot ensures s in SeenSlots(x.vvNew, n', z, id) <==> s in SeenSlots(x.vvNew, n, size, id) {
        assert WithinTables(h, x, s);
      }
      assert SeenSlots(x.vvNew, n', z, id) == SeenSlots(x.vvNew, n, size, id);
    }
  }

  lemma {:induction false} NewScanStart(h: Layout, x: Index, left: map<int, int>, ids: seq<int>)
    requires Enumerates(ids, x.mapInfo) && left == CountsOf(x.mapInfo, ids)
    requires forall id :: id in x.mapInfo ==> EntryPlaced(x, id)
    ensures NewScan(h, x, left, 0, 0)
  {
    forall slot ensures NewSeen(h, x, 0, 0, slot) {}
    forall id ensures NewLeft(x, left, 0, 0, id) {
      assert SeenSlots(x.vvNew, 0, 0, id) == {};
      if id in x.mapInfo { assert EntryPlaced(x, id); }
    }
  }

  lemma {:induction false} NewScanEnd(h: Layout, x: Index, left: map<int, int>)
    requires InTables(h, x) && NewScan(h, x, left, h.newBuckets, 0)
    ensures NewPasses(h, x)
    ensures left == map[] <==>
      forall id :: id in NewIds(x.mapInfo) ==> |SlotsOf(x.vvNew, id)| >= x.mapInfo[id].nRefCount
  {
    var n, z := h.newBuckets, 0;
    forall slot ensures NewSlotPasses(h, x, slot) {
      assert NewSeen(h, x, n, z, slot) && WithinTables(h, x, slot);
    }
    forall id: int
      ensures NewLeft(x, left, n, z, id) && SeenSlots(x.vvNew, n, z, id) == SlotsOf(x.vvNew, id)
    {
      forall s: Slot ensures s in SeenSlots(x.vvNew, n, z, id) <==> s in SlotsOf(x.vvNew, id) {
        assert WithinTables(h, x, s);
      }
    }
    if left == map[] {
      forall id | id in NewIds(x.mapInfo) ensures |SlotsOf(x.vvNew, id)| >= x.mapInfo[id].nRefCount {
        assert NewLeft(x, left, n, z, id);
      }
    }
    if forall id :: id in NewIds(x.mapInfo) ==> |SlotsOf(x.vvNew, id)| >= x.mapInfo[id].nRefCount {
      forall id: int ensures id !in left { assert NewLeft(x, left, n, z, id); }
      assert left == map[];
    }
  }

  lemma {:induction false} NewMissing(h: Layout, x: Index, left: map<int, int>, n: nat, i: nat)
    requires NewScan(h, x, left, n, i) && Slot(n, i) in x.vvNew && x.vvNew[Slot(n, i)] !in left
    ensures !NewPasses(h, x)
  {
    var here := Slot(n, i);
    var id := x.vvNew[here];
    assert NewLeft(x, left, n, i, id);
    if id in NewIds(x.mapInfo) {
      var seen, all := SeenSlots(x.vvNew, n, i, id), SlotsOf(x.vvNew, id);
      assert seen + {here} <= all && here !in seen;
      Larger(seen + {here}, all);
      assert |seen + {here}| == |seen| + 1;
    } else {
      assert !NewSlotPasses(h, x, here);
    }
  }

  lemma {:induction false} Larger(s: set<Slot>, t: set<Slot>)
    requires s <= t
    ensures |s| <= |t|
  {
    assert t == s + (t - s);
  }

  method CheckNewSlot(h: Layout, x: Index, left: map<int, int>, n: nat, i: nat) returns (err: int, left': map<int, int>)
    requires NewScan(h, x, left, n, i)
    ensures err != 0 ==> !NewPasses(h, x)
    ensures err == 0 ==> NewScan(h, x, left', n, i + 1)
  {
    err, left' := 0, left;
    var here := Slot(n, i);
    if here in x.vvNew {
      var id := x.vvNew[here];
      if id !in left {
        NewMissing(h, x, left, n, i);
        return -12, left;
      }
      assert NewLeft(x, left, n, i, id);
      if h.NewSlot(x.mapInfo[id].stats.service, n).pos != i {
        assert !NewSlotPasses(h, x, here);
        return -19, left;
      }
      left' := Struck(left, id);
    }
    NewScanNext(h, x, left, n, i, left');
  }

  method CheckNewTable(h: Layout, x: Index, mapNew: map<int, int>, ghost ids: seq<int>)
    returns (err: int, left: map<int, int>)
    requires InTables(h, x) && Enumerates(ids, x.mapInfo) && mapNew == CountsOf(x.mapInfo, ids)
    requires forall id :: id in x.mapInfo ==> EntryPlaced(x, id)
    ensures err == 0 <==> NewPasses(h, x)
    ensures err == 0 ==>
      (left == map[] <==> forall id :: id in NewIds(x.mapInfo) ==> |SlotsOf(x.vvNew, id)| >= x.mapInfo[id].nRefCount)
  {
    left := mapNew;
    NewScanStart(h, x, left, ids);
    for n := 0 to h.newBuckets
      invariant NewScan(h, x, left, n, 0)
    {
      for i := 0 to h.bucketSize
        invariant NewScan(h, x, left, n, i)
      {
        err, left := CheckNewSlot(h, x, left, n, i);
        if err != 0 {
          return;
        }
      }
      NewScanRow(h, x, left, n);
    }
    NewScanEnd(h, x, left);
    err := 0;
  }

  // ---------------------------------------------------------------- the whole check

  /** `Check_` returns zero exactly on the states that pass. */
  method Check_(h: Layout, nKey: nat, x: Index, ids: seq<int>) returns (err: int)
    requires InTables(h, x) && Enumerates(ids, x.mapInfo)
    ensures err == 0 <==> CheckPasses(h, nKey, x)
  {
    if |x.vRandom| != x.nTried + x.nNew {
      return -7;
    }
    var setTried, mapNew;
    err, setTried, mapNew := CheckEntries(x, ids);
    if err != 0 {
      return;
    }
    if |setTried| != x.nTried {
      return -9;
    }
    AllGathered(x.mapInfo, ids);
    if |mapNew| != x.nNew {
      return -10;
    }
    var triedLeft, newLeft;
    err, triedLeft := CheckTriedTable(h, x, setTried);
    if err != 0 {
      return;
    }
    err, newLeft := CheckNewTable(h, x, mapNew, ids);
    if err != 0 {
      return;
    }
    if |triedLeft| != 0 {
      return -13;
    }
    if |newLeft| != 0 {
      return -15;
    }
    if nKey == 0 {
      return -16;
    }
    err := 0;
  }

  /** On a sound state `Check_` finds nothing but times out of order or a null key. */
  method CheckSound(h: Layout, nKey: nat, x: Index, ids: seq<int>, ghost b: Book) returns (err: int)
    requires Sound(h, x, b, {}, 0) && Enumerates(ids, x.mapInfo)
    ensures err == 0 <==> TimesOk(h, b) && nKey != 0
  {
    SoundInTables(h, x, b);
    SoundPasses(h, nKey, x, b);
    err := Check_(h, nKey, x, ids);
  }

  /** The identifiers in their order, as the loops over the map of entries meet them. */
  method InOrder(x: Index, ghost h: Layout, ghost b: Book) returns (ids: seq<int>)
    requires Sound(h, x, b, {}, 0)
    ensures Enumerates(ids, x.mapInfo)
  {
    ids := [];
    for id := 0 to x.nIdCount
      invariant forall k :: k in ids <==> k in x.mapInfo && 0 <= k < id
      invariant forall i, j :: 0 <= i < j < |ids| ==> ids[i] != ids[j]
    {
      if id in x.mapInfo {
        ids := ids + [id];
      }
    }
    forall k | k in x.mapInfo ensures k in ids { assert IdLinked(x.nIdCount, x.mapInfo, x.mapAddr, k); }
  }

  method Checked(m: AddrMan, nKey: nat) returns (passed: bool)
    requires m.Valid()
    ensures passed <==> TimesOk(m.h, m.book) && nKey != 0
  {
    var ids := InOrder(m.State(), m.h, m.book);
    var err := CheckSound(m.h, nKey, m.State(), ids, m.book);
    passed := err == 0;
  }

  /** One operation of a run, and the check after it. */
  method CheckedStep(m: AddrMan, nKey: nat, ghost done: seq<Op>, op: Op) returns (passed: bool)
    requires m.Valid() && m.book == EffectAll(m.h, done) && (TimesAll(m.h, done) <==> DatedAll(m.h, done))
    modifies m
    ensures m.Valid() && m.book == EffectAll(m.h, done + [op])
    ensures TimesAll(m.h, done + [op]) <==> DatedAll(m.h, done + [op])
    ensures nKey != 0 && TimesAll(m.h, done) && passed <==> nKey != 0 && TimesAll(m.h, done + [op])
  {
    Step(m, done, op);
    passed := Checked(m, nKey);
    assert (done + [op])[..|done|] == done;
  }

  /** A run with the check at its start and after every operation: no check fails exactly if the key is set
      and every operation is dated properly for the book that it meets. */
  method RunChecked(h: Layout, nKey: nat, ops: seq<Op>) returns (m: AddrMan, passed: bool)
    ensures m.h == h && m.Valid() && m.book == EffectAll(h, ops)
    ensures passed <==> nKey != 0 && DatedAll(h, ops)
  {
    m := new AddrMan(h);
    passed := Checked(m, nKey);
    for i := 0 to |ops|
      invariant m.h == h && m.Valid() && fresh(m) && m.book == EffectAll(h, ops[..i])
      invariant TimesAll(h, ops[..i]) <==> DatedAll(h, ops[..i])
      invariant passed <==> nKey != 0 && TimesAll(h, ops[..i])
    {
      var ok := CheckedStep(m, nKey, ops[..i], ops[i]);
      assert ops[..i + 1] == ops[..i] + [ops[i]];
      passed := passed && ok;
    }
    assert ops[..|ops|] == ops;
  }
}
