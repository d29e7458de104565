/** Loading the address manager, and that nothing is lost between saving and loading. */
module AddrLoad {
  import opened Basics
  import opened AddrBook
  import opened AddrIndex
  import opened AddrMan
  import opened AddrCheck
  import opened AddrCodec

  // ---------------------------------------------------------------- what holds of every stream

  ghost predicate InRange(m: Infos, n: int, id: int) {
    id in m <==> 0 <= id < n
  }

  /** Identifiers are given out in order, and each has its place in the random order. */
  ghost predicate Orderly(y: Index) {
    y.nIdCount >= 0 && RandomLinked(y.mapInfo, y.vRandom) && forall id :: InRange(y.mapInfo, y.nIdCount, id)
  }

  lemma {:induction false} CreatedOrderly(y: Index, st: Stats)
    requires Orderly(y)
    ensures Orderly(Created(y, st))
  {
    var y' := Created(y, st);
    assert InRange(y.mapInfo, y.nIdCount, y.nIdCount);
    CreatedRandom(y.mapInfo, y.vRandom, y.nIdCount, y'.mapInfo[y.nIdCount]);
    forall id ensures InRange(y'.mapInfo, y'.nIdCount, id) { assert InRange(y.mapInfo, y.nIdCount, id); }
  }

  /** The count or mark of one entry changes. */
  lemma {:induction false} EntryOrderly(y: Index, y': Index, id: int, i: Info)
    requires Orderly(y) && id in y.mapInfo && i.nRandomPos == y.mapInfo[id].nRandomPos
    requires y'.mapInfo == y.mapInfo[id := i] && y'.vRandom == y.vRandom && y'.nIdCount == y.nIdCount
    ensures Orderly(y')
  {
    EntryRandom(y.mapInfo, y.vRandom, id, i);
    forall k ensures InRange(y'.mapInfo, y'.nIdCount, k) { assert InRange(y.mapInfo, y.nIdCount, k); }
  }

  /** The first entries are those of the list. */
  ghost predicate Loaded(m: Infos, recs: seq<Stats>) {
    forall j :: LoadedAt(m, recs, j)
  }

  ghost predicate LoadedAt(m: Infos, recs: seq<Stats>, j: int) {
    0 <= j < |recs| ==> j in m && m[j].stats == recs[j]
  }

  lemma {:induction false} CreatedLoaded(y: Index, recs: seq<Stats>, st: Stats)
    requires Orderly(y) && Loaded(y.mapInfo, recs) && |recs| <= y.nIdCount
    ensures Loaded(Created(y, st).mapInfo, recs)
    ensures y.nIdCount == |recs| ==> Loaded(Created(y, st).mapInfo, recs + [st])
  {
    var y', recs' := Created(y, st), recs + [st];
    forall j ensures LoadedAt(y'.mapInfo, recs, j) { assert LoadedAt(y.mapInfo, recs, j); }
    if y.nIdCount == |recs| {
      forall j ensures LoadedAt(y'.mapInfo, recs', j) { assert LoadedAt(y.mapInfo, recs, j); }
    }
  }

  lemma {:induction false} EntryLoaded(m: Infos, recs: seq<Stats>, id: int, i: Info)
    requires Loaded(m, recs) && id in m && i.stats == m[id].stats
    ensures Loaded(m[id := i], recs)
  {
    var m' := m[id := i];
    forall j ensures LoadedAt(m', recs, j) { assert LoadedAt(m, recs, j); }
  }

  // ---------------------------------------------------------------- new entries

  /** The addresses of a list with what is known of them. */
  function Known(recs: seq<Stats>): map<NetAddr, Stats> {
    if recs == [] then map[] else Known(recs[..|recs| - 1])[recs[|recs| - 1].service.net := recs[|recs| - 1]]
  }

  lemma {:induction false} KnownIs(recs: seq<Stats>, a: NetAddr)
    ensures a in Known(recs) ==> exists i :: 0 <= i < |recs| && recs[i].service.net == a && recs[i] == Known(recs)[a]
    ensures a !in Known(recs) ==> forall i :: 0 <= i < |recs| ==> recs[i].service.net != a
  {
    if recs != [] {
      var init := recs[..|recs| - 1];
      KnownIs(init, a);
      if a in Known(init) && recs[|recs| - 1].service.net != a {
        var i :| 0 <= i < |init| && init[i].service.net == a && init[i] == Known(init)[a];
        assert recs[i] == init[i];
      }
    }
  }

  /** Gives a new entry its own slot, if that is free. */
  function Housed(h: Layout, y: Index, id: int, st: Stats): Index
    requires id in y.mapInfo
  {
    if HomeSlot(h, st) in y.vvNew then y else Placed(y, HomeSlot(h, st), id)
  }

  /** The indexes after the new entries are read. */
  function NewLoaded(h: Layout, recs: seq<Stats>, usable: bool): (y: Index)
    ensures y.nIdCount == |recs|
  {
    if recs == [] then EMPTY_INDEX
    else
      var st := recs[|recs| - 1];
      var y := NewLoaded(h, recs[..|recs| - 1], usable);
      if usable then Created(y, st) else Housed(h, Created(y, st), y.nIdCount, st)
  }

  method LoadNew(h: Layout, recs: seq<Stats>, usable: bool) returns (y: Index)
    ensures y == NewLoaded(h, recs, usable)
  {
    y := EMPTY_INDEX;
    for n := 0 to |recs|
      invariant y == NewLoaded(h, recs[..n], usable)
    {
      assert recs[..n + 1][..n] == recs[..n];
      y := Created(y, recs[n]);
      if !usable {
        var slot := HomeSlot(h, recs[n]);
        if slot !in y.vvNew {
          y := Placed(y, slot, n);
        }
      }
    }
    assert recs[..|recs|] == recs;
  }

  lemma {:induction false} NewLoadedOrderly(h: Layout, recs: seq<Stats>, usable: bool)
    ensures var y := NewLoaded(h, recs, usable);
            Orderly(y) && Loaded(y.mapInfo, recs) && y.vvTried == map[] && y.nTried == 0 && y.nNew == 0
  {
    if recs != [] {
      var init, st := recs[..|recs| - 1], recs[|recs| - 1];
      NewLoadedOrderly(h, init, usable);
      var y := NewLoaded(h, init, usable);
      assert recs == init + [st];
      CreatedOrderly(y, st);
      CreatedLoaded(y, init, st);
      var z := Created(y, st);
      if !usable && HomeSlot(h, st) !in z.vvNew {
        var i := z.mapInfo[y.nIdCount].(nRefCount := z.mapInfo[y.nIdCount].nRefCount + 1);
        EntryOrderly(z, Placed(z, HomeSlot(h, st), y.nIdCount), y.nIdCount, i);
        EntryLoaded(z.mapInfo, recs, y.nIdCount, i);
      }
    }
  }

  /** Where the positions cannot be used, a slot goes to an entry that has its first slot there. */
  lemma {:induction false} HomesOnly(h: Layout, recs: seq<Stats>, slot: Slot)
    ensures var y := NewLoaded(h, recs, false);
            slot in y.vvNew ==> 0 <= y.vvNew[slot] < |recs| && IsHome(h, recs[y.vvNew[slot]], slot)
  {
    if recs != [] {
      HomesOnly(h, recs[..|recs| - 1], slot);
      assert forall i :: 0 <= i < |recs| - 1 ==> recs[..|recs| - 1][i] == recs[i];
    }
  }

  /** And every entry's first slot goes to the first of those that have it; only that one has a reference. */
  lemma {:induction false} HomeTaken(h: Layout, recs: seq<Stats>, n: nat, home: Slot)
    requires n < |recs| && IsHome(h, recs[n], home)
    ensures var y := NewLoaded(h, recs, false);
            && home in y.vvNew && 0 <= y.vvNew[home] <= n && IsHome(h, recs[y.vvNew[home]], home)
            && n in y.mapInfo && y.mapInfo[n].nRefCount == if y.vvNew[home] == n then 1 else 0
  {
    var k := |recs| - 1;
    var init, y := recs[..k], NewLoaded(h, recs[..k], false);
    HomesOnly(h, init, home);
    if n < k {
      HomeTaken(h, init, n, home);
      assert init[n] == recs[n] && init[y.vvNew[home]] == recs[y.vvNew[home]];
    } else if home in y.vvNew {
      assert init[y.vvNew[home]] == recs[y.vvNew[home]];
    }
    HomeStep(h, y, recs[k], n, home);
  }

  /** One more entry: a home that is taken stays, a free one goes to the entry. */
  lemma {:induction false} HomeStep(h: Layout, y: Index, st: Stats, n: nat, home: Slot)
    requires y.nIdCount >= 0 && n <= y.nIdCount && (n == y.nIdCount ==> IsHome(h, st, home))
    requires n < y.nIdCount ==> home in y.vvNew && n in y.mapInfo
    ensures var z := Housed(h, Created(y, st), y.nIdCount, st);
            && home in z.vvNew && n in z.mapInfo
            && (home in y.vvNew ==> z.vvNew[home] == y.vvNew[home]) && (home !in y.vvNew ==> z.vvNew[home] == n)
            && (n < y.nIdCount ==> z.mapInfo[n] == y.mapInfo[n])
            && (n == y.nIdCount ==> z.mapInfo[n].nRefCount == if home in y.vvNew then 0 else 1)
  {
  }

  lemma {:induction false} NewLoadedSound(h: Layout, recs: seq<Stats>)
    requires NoRepeats(recs)
    ensures Sound(h, NewLoaded(h, recs, true), Book(map[], map[], Known(recs)), Known(recs).Keys, |recs|)
  {
    if recs == [] {
      EmptySound(h, EMPTY_INDEX);
    } else {
      var n := |recs| - 1;
      NewLoadedSound(h, recs[..n]);
      assert recs[..n + 1] == recs;
      NextKnown(recs, n);
      CreatedSound(h, NewLoaded(h, recs[..n], true), Book(map[], map[], Known(recs[..n])), Known(recs[..n]).Keys, n,
                   recs[n]);
    }
  }

  lemma {:induction false} NextKnown(recs: seq<Stats>, n: nat)
    requires NoRepeats(recs) && n < |recs|
    ensures recs[n].service.net !in Known(recs[..n])
    ensures Known(recs[..n + 1]) == Known(recs[..n])[recs[n].service.net := recs[n]]
    ensures Known(recs[..n + 1]).Keys == Known(recs[..n]).Keys + {recs[n].service.net}
  {
    assert recs[..n + 1][..n] == recs[..n];
    KnownIs(recs[..n], recs[n].service.net);
  }

  // ---------------------------------------------------------------- tried entries

  /** The indexes after a tried entry is read: it is lost if its slot is taken. */
  function TriedStep(h: Layout, y: Index, st: Stats): Index {
    var slot := h.TriedSlot(st.service);
    if slot in y.vvTried then y else Promoted(Created(y, st), slot, y.nIdCount)
  }

  function TriedLoaded(h: Layout, y: Index, recs: seq<Stats>): Index {
    if recs == [] then y else TriedStep(h, TriedLoaded(h, y, recs[..|recs| - 1]), recs[|recs| - 1])
  }

  method LoadTried(h: Layout, y0: Index, recs: seq<Stats>) returns (y: Index, nLost: nat)
    ensures y == TriedLoaded(h, y0, recs) && y.nTried == y0.nTried + |recs| - nLost
  {
    y, nLost := y0, 0;
    for n := 0 to |recs|
      invariant y == TriedLoaded(h, y0, recs[..n]) && y.nTried == y0.nTried + n - nLost
    {
      assert recs[..n + 1][..n] == recs[..n];
      var slot := h.TriedSlot(recs[n].service);
      if slot !in y.vvTried {
        y := Promoted(Created(y, recs[n]), slot, y.nIdCount);
      } else {
        nLost := nLost + 1;
      }
    }
    assert recs[..|recs|] == recs;
  }

  lemma {:induction false} TriedLoadedOrderly(h: Layout, y: Index, recs: seq<Stats>, news: seq<Stats>)
    requires Orderly(y) && Loaded(y.mapInfo, news) && |news| <= y.nIdCount
    ensures var y' := TriedLoaded(h, y, recs); Orderly(y') && Loaded(y'.mapInfo, news) && |news| <= y'.nIdCount
  {
    if recs != [] {
      var st := recs[|recs| - 1];
      TriedLoadedOrderly(h, y, recs[..|recs| - 1], news);
      var z := TriedLoaded(h, y, recs[..|recs| - 1]);
      if h.TriedSlot(st.service) !in z.vvTried {
        CreatedOrderly(z, st);
        CreatedLoaded(z, news, st);
        var c := Created(z, st);
        var i := c.mapInfo[z.nIdCount].(fInTried := true);
        EntryOrderly(c, Promoted(c, h.TriedSlot(st.service), z.nIdCount), z.nIdCount, i);
        EntryLoaded(c.mapInfo, news, z.nIdCount, i);
      }
    }
  }

  /** The tried entry that has a slot: the first of those with that slot. */
  ghost predicate FirstTried(h: Layout, z: Index, recs: seq<Stats>, slot: Slot, m: int) {
    && 0 <= m < |recs| && h.TriedSlot(recs[m].service) == slot
    && (forall k :: 0 <= k < m ==> h.TriedSlot(recs[k].service) != slot)
    && slot in z.vvTried && z.vvTried[slot] in z.mapInfo
    && z.mapInfo[z.vvTried[slot]].stats == recs[m] && z.mapInfo[z.vvTried[slot]].fInTried
  }

  /** Of tried entries with one slot the first gets it, and the others are lost. */
  lemma {:induction false} TriedTaken(h: Layout, y: Index, recs: seq<Stats>, slot: Slot) returns (m: int)
    requires Orderly(y) && y.vvTried == map[]
    ensures var z := TriedLoaded(h, y, recs);
            if exists n :: 0 <= n < |recs| && h.TriedSlot(recs[n].service) == slot
            then FirstTried(h, z, recs, slot, m) else slot !in z.vvTried
  {
    m := 0;
    if recs != [] {
      var k := |recs| - 1;
      var init := recs[..k];
      forall j ensures LoadedAt(y.mapInfo, [], j) {}
      TriedLoadedOrderly(h, y, init, []);
      var z := TriedLoaded(h, y, init);
      m := TriedTaken(h, y, init, slot);
      assert recs == init + [recs[k]];
      assert InRange(z.mapInfo, z.nIdCount, z.nIdCount);
      if n :| 0 <= n < k && h.TriedSlot(init[n].service) == slot {
        FirstStays(h, z, init, recs[k], slot, m);
        assert recs[n] == init[n];
      } else {
        m := k;
        FirstComes(h, z, init, recs[k], slot);
      }
    }
  }

  lemma {:induction false} FirstStays(h: Layout, z: Index, recs: seq<Stats>, st: Stats, slot: Slot, m: int)
    requires FirstTried(h, z, recs, slot, m) && z.nIdCount !in z.mapInfo
    ensures FirstTried(h, TriedStep(h, z, st), recs + [st], slot, m)
  {
  }

  lemma {:induction false} FirstComes(h: Layout, z: Index, recs: seq<Stats>, st: Stats, slot: Slot)
    requires slot !in z.vvTried && forall k :: 0 <= k < |recs| ==> h.TriedSlot(recs[k].service) != slot
    ensures if h.TriedSlot(st.service) == slot then FirstTried(h, TriedStep(h, z, st), recs + [st], slot, |recs|)
            else slot !in TriedStep(h, z, st).vvTried
  {
  }

  /** The book after tried entries are read, none of them in the way of another. */
  function TriedBook(h: Layout, b: Book, recs: seq<Stats>): Book {
    if recs == [] then b
    else
      var st := recs[|recs| - 1];
      Promote(Note(TriedBook(h, b, recs[..|recs| - 1]), st), h.TriedSlot(st.service), st.service.net)
  }

  ghost predicate TriedFit(h: Layout, b: Book, recs: seq<Stats>) {
    recs == [] ||
    (var st, c := recs[|recs| - 1], TriedBook(h, b, recs[..|recs| - 1]);
     && TriedFit(h, b, recs[..|recs| - 1])
     && st.service.net !in c.stats && h.TriedSlot(st.service) !in c.tried)
  }

  lemma {:induction false} TriedStepSound(h: Layout, y: Index, b: Book, loose: set<NetAddr>, slack: int, st: Stats)
    requires Sound(h, y, b, loose, slack) && st.service.net !in b.stats && st.service.net !in loose
    requires h.TriedSlot(st.service) !in b.tried
    ensures Sound(h, TriedStep(h, y, st), Promote(Note(b, st), h.TriedSlot(st.service), st.service.net), loose, slack)
  {
    var slot, a := h.TriedSlot(st.service), st.service.net;
    TriedSlotFound(h, y, b, slack, slot);
    CreatedSound(h, y, b, loose, slack, st);
    EntryLinked(h, Created(y, st), Note(b, st), slack + 1, y.nIdCount);
    PromotedSound(h, Created(y, st), Note(b, st), loose + {a}, slack + 1, slot, y.nIdCount);
    assert loose + {a} - {a} == loose;
  }

  lemma {:induction false} TriedLoadedSound(h: Layout, y: Index, b: Book, loose: set<NetAddr>, slack: int,
                                            recs: seq<Stats>)
    requires Sound(h, y, b, loose, slack) && loose <= b.stats.Keys && TriedFit(h, b, recs)
    ensures Sound(h, TriedLoaded(h, y, recs), TriedBook(h, b, recs), loose, slack)
    ensures loose <= TriedBook(h, b, recs).stats.Keys
  {
    if recs != [] {
      var init := recs[..|recs| - 1];
      TriedLoadedSound(h, y, b, loose, slack, init);
      TriedStepSound(h, TriedLoaded(h, y, init), TriedBook(h, b, init), loose, slack, recs[|recs| - 1]);
    }
  }

  // ---------------------------------------------------------------- the new table

  /** An index into the new entries is read: the entry takes its slot of the bucket if that is free. */
  function ItemStep(h: Layout, y: Index, nNew: int, bucket: nat, nIndex: int, usable: bool): Index {
    if !(0 <= nIndex < nNew && nIndex in y.mapInfo) then y
    else
      var slot := h.NewSlot(y.mapInfo[nIndex].stats.service, bucket);
      if usable && slot !in y.vvNew && y.mapInfo[nIndex].nRefCount < MAX_REFS then Placed(y, slot, nIndex) else y
  }

  function BucketLoaded(h: Layout, y: Index, nNew: int, bucket: nat, list: seq<int>, usable: bool): Index {
    if list == [] then y
    else ItemStep(h, BucketLoaded(h, y, nNew, bucket, list[..|list| - 1], usable), nNew, bucket, list[|list| - 1],
                  usable)
  }

  function TableLoaded(h: Layout, y: Index, nNew: int, lists: seq<seq<int>>, usable: bool): Index {
    if lists == [] then y
    else
      var n := |lists| - 1;
      BucketLoaded(h, TableLoaded(h, y, nNew, lists[..n], usable), nNew, n, lists[n], usable)
  }

  method LoadBucket(h: Layout, y0: Index, nNew: int, bucket: nat, list: seq<int>, usable: bool) returns (y: Index)
    ensures y == BucketLoaded(h, y0, nNew, bucket, list, usable)
  {
    y := y0;
    for n := 0 to |list|
      invariant y == BucketLoaded(h, y0, nNew, bucket, list[..n], usable)
    {
      assert list[..n + 1][..n] == list[..n];
      var nIndex := list[n];
      if 0 <= nIndex < nNew && nIndex in y.mapInfo {
        var slot := h.NewSlot(y.mapInfo[nIndex].stats.service, bucket);
        if usable && slot !in y.vvNew && y.mapInfo[nIndex].nRefCount < MAX_REFS {
          y := Placed(y, slot, nIndex);
        }
      }
    }
    assert list[..|list|] == list;
  }

  method LoadTable(h: Layout, y0: Index, nNew: int, lists: seq<seq<int>>, usable: bool) returns (y: Index)
    ensures y == TableLoaded(h, y0, nNew, lists, usable)
  {
    y := y0;
    for n := 0 to |lists|
      invariant y == TableLoaded(h, y0, nNew, lists[..n], usable)
    {
      assert lists[..n + 1][..n] == lists[..n];
      y := LoadBucket(h, y, nNew, n, lists[n], usable);
    }
    assert lists[..|lists|] == lists;
  }

  lemma {:induction false} BucketLoadedOrderly(h: Layout, y: Index, nNew: int, bucket: nat, list: seq<int>,
                                               usable: bool)
    requires Orderly(y)
    ensures Orderly(BucketLoaded(h, y, nNew, bucket, list, usable))
  {
    if list != [] {
      BucketLoadedOrderly(h, y, nNew, bucket, list[..|list| - 1], usable);
      var z := BucketLoaded(h, y, nNew, bucket, list[..|list| - 1], usable);
      var z' := ItemStep(h, z, nNew, bucket, list[|list| - 1], usable);
      if z' != z {
        EntryOrderly(z, z', list[|list| - 1], z'.mapInfo[list[|list| - 1]]);
      }
    }
  }

  lemma {:induction false} TableLoadedOrderly(h: Layout, y: Index, nNew: int, lists: seq<seq<int>>, usable: bool)
    requires Orderly(y)
    ensures Orderly(TableLoaded(h, y, nNew, lists, usable))
  {
    if lists != [] {
      var n := |lists| - 1;
      TableLoadedOrderly(h, y, nNew, lists[..n], usable);
      BucketLoadedOrderly(h, TableLoaded(h, y, nNew, lists[..n], usable), nNew, n, lists[n], usable);
    }
  }

  /** What reading positions does to one slot: one that is taken stays so, one that is free may go to a new entry
      whose own slot of the bucket it is. */
  ghost predicate SlotKept(h: Layout, y: Index, z: Index, nNew: int, slot: Slot) {
    && (slot in y.vvNew ==> slot in z.vvNew && z.vvNew[slot] == y.vvNew[slot])
    && (slot in z.vvNew && slot !in y.vvNew ==>
          && 0 <= z.vvNew[slot] < nNew && z.vvNew[slot] in z.mapInfo
          && slot == h.NewSlot(z.mapInfo[z.vvNew[slot]].stats.service, slot.bucket))
  }

  /** What it does to one entry: the references do not exceed eight, and all else stays. */
  ghost predicate EntryKept(y: Index, z: Index, id: int) {
    && (id in z.mapInfo <==> id in y.mapInfo)
    && (id in y.mapInfo ==>
          && z.mapInfo[id] == y.mapInfo[id].(nRefCount := z.mapInfo[id].nRefCount)
          && y.mapInfo[id].nRefCount <= z.mapInfo[id].nRefCount
          && (z.mapInfo[id].nRefCount <= 8 || z.mapInfo[id].nRefCount == y.mapInfo[id].nRefCount))
  }

  ghost predicate PositionsRead(h: Layout, y: Index, z: Index, nNew: int) {
    && (forall slot :: SlotKept(h, y, z, nNew, slot)) && (forall id :: EntryKept(y, z, id))
    && z.mapAddr == y.mapAddr && z.vRandom == y.vRandom && z.vvTried == y.vvTried && z.nIdCount == y.nIdCount
  }

  lemma {:induction false} ItemRead(h: Layout, y: Index, z: Index, nNew: int, bucket: nat, nIndex: int, usable: bool)
    requires PositionsRead(h, y, z, nNew) && (!usable ==> z == y)
    ensures var w := ItemStep(h, z, nNew, bucket, nIndex, usable); PositionsRead(h, y, w, nNew) && (!usable ==> w == y)
  {
    var w := ItemStep(h, z, nNew, bucket, nIndex, usable);
    forall slot ensures SlotKept(h, y, w, nNew, slot) { assert SlotKept(h, y, z, nNew, slot); }
    forall id ensures EntryKept(y, w, id) { assert EntryKept(y, z, id); }
  }

  lemma {:induction false} BucketRead(h: Layout, y: Index, z: Index, nNew: int, bucket: nat, list: seq<int>,
                                      usable: bool)
    requires PositionsRead(h, y, z, nNew) && (!usable ==> z == y)
    ensures var w := BucketLoaded(h, z, nNew, bucket, list, usable);
            PositionsRead(h, y, w, nNew) && (!usable ==> w == y)
  {
    if list != [] {
      var n := |list| - 1;
      BucketRead(h, y, z, nNew, bucket, list[..n], usable);
      ItemRead(h, y, BucketLoaded(h, z, nNew, bucket, list[..n], usable), nNew, bucket, list[n], usable);
    }
  }

  /** Whatever positions the stream has, reading them breaks nothing; and they are not used where they cannot be. */
  lemma {:induction false} TableRead(h: Layout, y: Index, nNew: int, lists: seq<seq<int>>, usable: bool)
    ensures PositionsRead(h, y, TableLoaded(h, y, nNew, lists, usable), nNew)
    ensures !usable ==> TableLoaded(h, y, nNew, lists, usable) == y
  {
    if lists == [] {
      forall slot ensures SlotKept(h, y, y, nNew, slot) {}
      forall id ensures EntryKept(y, y, id) {}
    } else {
      var n := |lists| - 1;
      TableRead(h, y, nNew, lists[..n], usable);
      BucketRead(h, y, TableLoaded(h, y, nNew, lists[..n], usable), nNew, n, lists[n], usable);
    }
  }

  /** The slots of the new table in the buckets before `k`, and some more. */
  function Partial(m: map<Slot, NetAddr>, k: nat, done: seq<Slot>): map<Slot, NetAddr> {
    map slot | slot in m && (slot.bucket < k || slot in done) :: m[slot]
  }

  /** The book when that part of the new table is read. */
  function PartialBook(b: Book, k: nat, done: seq<Slot>): Book {
    StoredBook(b).(untried := Partial(b.untried, k, done))
  }

  ghost function UntriedNames(h: Layout, b: Book): set<NetAddr> {
    set a | a in b.stats && !IsTried(h, b, a)
  }

  lemma {:induction false} RefsMonotone(h: Layout, f: map<Slot, NetAddr>, g: map<Slot, NetAddr>, s: Service, n: nat)
    requires forall slot :: Holds(f, slot, s.net) ==> Holds(g, slot, s.net)
    ensures Refs(h, f, s, n) <= Refs(h, g, s, n)
  {
    if n > 0 { RefsMonotone(h, f, g, s, n - 1); }
  }

  /** The slot is still free, and its address below the limit. */
  lemma {:induction false} RoomLeft(h: Layout, b: Book, k: nat, done: seq<Slot>, slot: Slot)
    requires BookOk(h, b, {}) && slot in b.untried && slot.bucket == k && slot !in done
    ensures var c, a := PartialBook(b, k, done), b.untried[slot];
            && slot !in c.untried && a in b.stats && RefCount(h, c, a) < MAX_REFS
            && !IsTried(h, b, a) && !IsTried(h, c, a) && InNewSlot(h, c, slot, a)
            && Place(c, slot, a) == PartialBook(b, k, done + [slot])
  {
    var c, a := PartialBook(b, k, done), b.untried[slot];
    assert UntriedAt(h, b, slot) && StatOk(b.stats, a) && Anchored(h, b, {}, a);
    VacateOk(h, b, {}, slot);
    RefsOneMore(h, c.untried, b.stats[a].service, k, h.newBuckets);
    RefsMonotone(h, c.untried[slot := a], b.untried, b.stats[a].service, h.newBuckets);
  }

  /** The entries that are written as new, in their order. */
  function NewRecs(x: Index): seq<Stats>
    requires x.nIdCount >= 0
  {
    var l := NewList(x.mapInfo, x.nIdCount);
    seq(|l|, i requires 0 <= i < |l| => if l[i] in x.mapInfo then Stored(x.mapInfo[l[i]].stats) else NO_STATS)
  }

  /** The index written for a slot leads to the slot's own entry. */
  lemma {:induction false} RankLeads(h: Layout, x: Index, b: Book, slot: Slot)
    requires Sound(h, x, b, {}, 0) && slot in x.vvNew
    ensures slot in b.untried && b.untried[slot] in b.stats
    ensures 0 <= Rank(x, slot) < |NewRecs(x)| && NewRecs(x)[Rank(x, slot)] == Stored(b.stats[b.untried[slot]])
  {
    VacatedSound(h, x, b, {}, 0, slot);
    var id := x.vvNew[slot];
    EntryLinked(h, x, b, 0, id);
    assert IdLinked(x.nIdCount, x.mapInfo, x.mapAddr, id);
    NewListAt(x.mapInfo, id, x.nIdCount);
  }

  lemma {:induction false} ItemSound(h: Layout, x: Index, b: Book, y: Index, k: nat, done: seq<Slot>, slot: Slot,
                                     slack: int)
    requires Sound(h, x, b, {}, 0) && slot in x.vvNew && slot.bucket == k && slot !in done
    requires Sound(h, y, PartialBook(b, k, done), UntriedNames(h, b), slack) && Loaded(y.mapInfo, NewRecs(x))
    ensures var y' := ItemStep(h, y, |NewRecs(x)|, k, Rank(x, slot), true);
            Sound(h, y', PartialBook(b, k, done + [slot]), UntriedNames(h, b), slack) && Loaded(y'.mapInfo, NewRecs(x))
  {
    var r, loose := Rank(x, slot), UntriedNames(h, b);
    RankLeads(h, x, b, slot);
    RoomLeft(h, b, k, done, slot);
    var c, a := PartialBook(b, k, done), b.untried[slot];
    assert LoadedAt(y.mapInfo, NewRecs(x), r) && StatOk(b.stats, a);
    EntryLinked(h, y, c, slack, r);
    NewSlotFound(h, y, c, slack, slot);
    PlacedSound(h, y, c, loose, slack, slot, r);
    EntryLoaded(y.mapInfo, NewRecs(x), r, Placed(y, slot, r).mapInfo[r]);
    LoosenOk(h, Place(c, slot, a), loose - {a}, a);
    assert loose - {a} + {a} == loose;
  }

  lemma {:induction false} ItemsAre(vvNew: map<Slot, int>, k: nat, i: nat)
    ensures forall slot :: slot in Items(vvNew, k, i) <==> slot in vvNew && slot.bucket == k && slot.pos < i
    ensures forall p, q :: 0 <= p < q < |Items(vvNew, k, i)| ==> Items(vvNew, k, i)[p] != Items(vvNew, k, i)[q]
  {
    if i > 0 {
      ItemsAre(vvNew, k, i - 1);
      assert forall slot: Slot :: slot.bucket == k && slot.pos == i - 1 ==> slot == Slot(k, i - 1);
    }
  }

  function RankList(x: Index, slots: seq<Slot>): seq<int> {
    seq(|slots|, i requires 0 <= i < |slots| => Rank(x, slots[i]))
  }

  lemma {:induction false} BucketSound(h: Layout, x: Index, b: Book, y: Index, k: nat, items: seq<Slot>, slack: int)
    requires Sound(h, x, b, {}, 0) && forall j :: 0 <= j < |items| ==> items[j] in x.vvNew && items[j].bucket == k
    requires forall p, q :: 0 <= p < q < |items| ==> items[p] != items[q]
    requires Sound(h, y, PartialBook(b, k, []), UntriedNames(h, b), slack) && Loaded(y.mapInfo, NewRecs(x))
    ensures var y' := BucketLoaded(h, y, |NewRecs(x)|, k, RankList(x, items), true);
            Sound(h, y', PartialBook(b, k, items), UntriedNames(h, b), slack) && Loaded(y'.mapInfo, NewRecs(x))
  {
    if items != [] {
      var n := |items| - 1;
      var init, slot := items[..n], items[n];
      BucketSound(h, x, b, y, k, init, slack);
      assert RankList(x, items)[..n] == RankList(x, init);
      assert items == init + [slot];
      ItemSound(h, x, b, BucketLoaded(h, y, |NewRecs(x)|, k, RankList(x, init), true), k, init, slot, slack);
    }
  }

  /** A bucket read to its end. */
  lemma {:induction false} BucketDone(h: Layout, x: Index, b: Book, k: nat)
    requires Sound(h, x, b, {}, 0)
    ensures Partial(b.untried, k, Items(x.vvNew, k, h.bucketSize)) == Partial(b.untried, k + 1, [])
  {
    ItemsAre(x.vvNew, k, h.bucketSize);
    forall slot | slot in b.untried && slot.bucket == k
      ensures slot in Items(x.vvNew, k, h.bucketSize)
    {
      assert UntriedAt(h, b, slot);
      NewSlotFound(h, x, b, 0, slot);
    }
  }

  /** The lists of all buckets below `n`. */
  function RankLists(h: Layout, x: Index, n: nat): seq<seq<int>> {
    seq(n, k requires 0 <= k < n => RankList(x, Items(x.vvNew, k, h.bucketSize)))
  }

  lemma {:induction false} TableSound(h: Layout, x: Index, b: Book, y: Index, n: nat, slack: int)
    requires Sound(h, x, b, {}, 0)
    requires Sound(h, y, PartialBook(b, 0, []), UntriedNames(h, b), slack) && Loaded(y.mapInfo, NewRecs(x))
    ensures var y' := TableLoaded(h, y, |NewRecs(x)|, RankLists(h, x, n), true);
            Sound(h, y', PartialBook(b, n, []), UntriedNames(h, b), slack) && Loaded(y'.mapInfo, NewRecs(x))
  {
    if n > 0 {
      TableSound(h, x, b, y, n - 1, slack);
      TableStep(h, x, y, n - 1, |NewRecs(x)|);
      OneBucketSound(h, x, b, TableLoaded(h, y, |NewRecs(x)|, RankLists(h, x, n - 1), true), n - 1, slack);
    }
  }

  /** One more bucket of the table. */
  lemma {:induction false} TableStep(h: Layout, x: Index, y: Index, k: nat, nNew: int)
    ensures TableLoaded(h, y, nNew, RankLists(h, x, k + 1), true)
         == BucketLoaded(h, TableLoaded(h, y, nNew, RankLists(h, x, k), true), nNew, k,
                         RankList(x, Items(x.vvNew, k, h.bucketSize)), true)
  {
    assert RankLists(h, x, k + 1)[..k] == RankLists(h, x, k);
  }

  /** Reading one whole bucket. */
  lemma {:induction false} OneBucketSound(h: Layout, x: Index, b: Book, z: Index, k: nat, slack: int)
    requires Sound(h, x, b, {}, 0)
    requires Sound(h, z, PartialBook(b, k, []), UntriedNames(h, b), slack) && Loaded(z.mapInfo, NewRecs(x))
    ensures var y' := BucketLoaded(h, z, |NewRecs(x)|, k, RankList(x, Items(x.vvNew, k, h.bucketSize)), true);
            Sound(h, y', PartialBook(b, k + 1, []), UntriedNames(h, b), slack) && Loaded(y'.mapInfo, NewRecs(x))
  {
    ItemsAre(x.vvNew, k, h.bucketSize);
    BucketSound(h, x, b, z, k, Items(x.vvNew, k, h.bucketSize), slack);
    BucketDone(h, x, b, k);
  }

  lemma {:induction false} TableDone(h: Layout, b: Book)
    requires UntriedOk(h, b)
    ensures PartialBook(b, h.newBuckets, []) == StoredBook(b)
  {
    forall slot | slot in b.untried
      ensures slot.bucket < h.newBuckets
    {
      assert UntriedAt(h, b, slot);
    }
    assert Partial(b.untried, h.newBuckets, []) == b.untried;
  }

  // ---------------------------------------------------------------- pruning

  /** Whether an entry is in some table. */
  predicate Referred(m: Infos, id: int) {
    id in m ==> m[id].fInTried || m[id].nRefCount != 0
  }

  /** An entry is kept, but for its place in the random order, exactly if `stays` holds. */
  ghost predicate KeptAt(m: Infos, m': Infos, stays: bool, id: int) {
    && (id in m' <==> id in m && stays)
    && (id in m' ==> m'[id] == m[id].(nRandomPos := m'[id].nRandomPos))
  }

  /** Of the entries below `n` only those with a slot are kept, and all others. */
  ghost predicate PrunedAt(m: Infos, m': Infos, n: int, id: int) {
    KeptAt(m, m', id >= n || Referred(m, id), id)
  }

  ghost predicate Erases(m: Infos, m': Infos, gone: int) {
    forall id :: ErasedAt(m, m', gone, id)
  }

  ghost predicate ErasedAt(m: Infos, m': Infos, gone: int, id: int) {
    KeptAt(m, m', id != gone, id)
  }

  lemma {:induction false} PrunedNext(m: Infos, m': Infos, m'': Infos, n: int, next: int)
    requires next == n + 1 && forall id :: PrunedAt(m, m', n, id)
    requires if Referred(m', n) then m'' == m' else Erases(m', m'', n)
    ensures forall id :: PrunedAt(m, m'', next, id)
  {
    assert PrunedAt(m, m', n, n);
    forall id ensures PrunedAt(m, m'', next, id) {
      assert PrunedAt(m, m', n, id);
      if !Referred(m', n) { assert ErasedAt(m', m'', n, id); }
    }
  }

  /** An entry whose place in the random order is its own. */
  predicate Erasable(y: Index, id: int) {
    && id in y.mapInfo && 0 <= y.mapInfo[id].nRandomPos < |y.vRandom|
    && y.vRandom[y.mapInfo[id].nRandomPos] == id && y.vRandom[|y.vRandom| - 1] in y.mapInfo
  }

  /** `Delete` on the bare indexes. */
  function Erased(y: Index, id: int): Index
    requires Erasable(y, id)
  {
    Dropped(Swapped(y, y.mapInfo[id].nRandomPos, |y.vRandom| - 1), id)
  }

  /** The indexes without the entries below `n` that have no slot. */
  function Pruned(y: Index, n: nat): Index {
    if n == 0 then y
    else
      var z := Pruned(y, n - 1);
      if !Referred(z.mapInfo, n - 1) && Erasable(z, n - 1) then Erased(z, n - 1) else z
  }

  lemma {:induction false} ErasedIs(y: Index, id: int)
    requires RandomLinked(y.mapInfo, y.vRandom) && id in y.mapInfo
    ensures Erasable(y, id)
    ensures RandomLinked(Erased(y, id).mapInfo, Erased(y, id).vRandom) && Erases(y.mapInfo, Erased(y, id).mapInfo, id)
  {
    var i, j := y.mapInfo[id].nRandomPos, |y.vRandom| - 1;
    assert HasPosition(y.mapInfo, y.vRandom, id) && HasEntry(y.mapInfo, y.vRandom, j);
    SwappedRandom(y, i, j);
    var z := Swapped(y, i, j);
    assert HasEntry(z.mapInfo, z.vRandom, j);
    DroppedRandom(z.mapInfo, z.vRandom, id);
    forall k ensures ErasedAt(y.mapInfo, Erased(y, id).mapInfo, id, k) {}
  }

  /** Deletes the new entries that got no slot, and no other. */
  method Prune(y0: Index) returns (y: Index, nLostUnk: nat)
    requires Orderly(y0)
    ensures y == Pruned(y0, y0.nIdCount) && RandomLinked(y.mapInfo, y.vRandom)
    ensures forall id :: PrunedAt(y0.mapInfo, y.mapInfo, y0.nIdCount, id)
    ensures (forall id :: Referred(y0.mapInfo, id)) ==> y == y0
  {
    y, nLostUnk := y0, 0;
    forall id ensures PrunedAt(y0.mapInfo, y0.mapInfo, 0, id) { assert InRange(y0.mapInfo, y0.nIdCount, id); }
    for id := 0 to y0.nIdCount
      invariant y == Pruned(y0, id) && RandomLinked(y.mapInfo, y.vRandom)
      invariant forall k :: PrunedAt(y0.mapInfo, y.mapInfo, id, k)
      invariant (forall id :: Referred(y0.mapInfo, id)) ==> y == y0
    {
      ghost var m := y.mapInfo;
      if id in y.mapInfo && !y.mapInfo[id].fInTried && y.mapInfo[id].nRefCount == 0 {
        assert y == y0 ==> !Referred(y0.mapInfo, id);
        ErasedIs(y, id);
        y := Erased(y, id);
        nLostUnk := nLostUnk + 1;
      }
      PrunedNext(y0.mapInfo, m, y.mapInfo, id, id + 1);
    }
  }

  /** Every entry has its place in the random order, and is tried or has a slot. */
  ghost predicate Tidy(m: Infos, v: seq<int>) {
    RandomLinked(m, v) && forall id :: Referred(m, id)
  }

  lemma {:induction false} PrunedTidy(y0: Index, y: Index)
    requires Orderly(y0) && RandomLinked(y.mapInfo, y.vRandom)
    requires forall id :: PrunedAt(y0.mapInfo, y.mapInfo, y0.nIdCount, id)
    ensures Tidy(y.mapInfo, y.vRandom)
  {
    forall id ensures Referred(y.mapInfo, id) {
      assert PrunedAt(y0.mapInfo, y.mapInfo, y0.nIdCount, id) && InRange(y0.mapInfo, y0.nIdCount, id);
    }
  }

  // ---------------------------------------------------------------- what was written is fit to read

  /** The tried entries that are written, in their order. */
  function TriedRecs(x: Index): seq<Stats>
    requires x.nIdCount >= 0
  {
    var l := TriedList(x.mapInfo, x.nIdCount);
    seq(|l|, i requires 0 <= i < |l| => if l[i] in x.mapInfo then Stored(x.mapInfo[l[i]].stats) else NO_STATS)
  }

  lemma {:induction false} NewRec(h: Layout, x: Index, b: Book, i: nat)
    requires Sound(h, x, b, {}, 0) && i < |NewRecs(x)|
    ensures var id := NewList(x.mapInfo, x.nIdCount)[i];
            && id in x.mapInfo && NewRecs(x)[i] == Stored(x.mapInfo[id].stats)
            && x.mapInfo[id].Net() in UntriedNames(h, b) && b.stats[x.mapInfo[id].Net()] == x.mapInfo[id].stats
            && x.mapInfo[id].Net() in x.mapAddr && x.mapAddr[x.mapInfo[id].Net()] == id
  {
    NewListIs(x.mapInfo, x.nIdCount);
    var id := NewList(x.mapInfo, x.nIdCount)[i];
    EntryLinked(h, x, b, 0, id);
    OneEntry(h, x, b, id);
  }

  lemma {:induction false} NewRecsFit(h: Layout, x: Index, b: Book)
    requires Sound(h, x, b, {}, 0)
    ensures NoRepeats(NewRecs(x))
  {
    var recs := NewRecs(x);
    NewListIs(x.mapInfo, x.nIdCount);
    forall i, j | 0 <= i < j < |recs|
      ensures recs[i].service.net != recs[j].service.net
    {
      NewRec(h, x, b, i);
      NewRec(h, x, b, j);
    }
  }

  /** The new entries are all that is known of untried addresses. */
  lemma {:induction false} NewRecsKnown(h: Layout, x: Index, b: Book, a: NetAddr)
    requires Sound(h, x, b, {}, 0)
    ensures a in Known(NewRecs(x)) <==> a in UntriedNames(h, b)
    ensures a in UntriedNames(h, b) ==> Known(NewRecs(x))[a] == Stored(b.stats[a])
  {
    var recs := NewRecs(x);
    KnownIs(recs, a);
    if a in Known(recs) {
      var i :| 0 <= i < |recs| && recs[i].service.net == a && recs[i] == Known(recs)[a];
      NewRec(h, x, b, i);
    }
    if a in UntriedNames(h, b) {
      NameFound(h, x, b, 0, a);
      var id := x.mapAddr[a];
      EntryLinked(h, x, b, 0, id);
      OneEntry(h, x, b, id);
      assert IdLinked(x.nIdCount, x.mapInfo, x.mapAddr, id);
      NewListAt(x.mapInfo, id, x.nIdCount);
      assert recs[|NewList(x.mapInfo, id)|].service.net == a;
    }
  }

  lemma {:induction false} TriedRec(h: Layout, x: Index, b: Book, i: nat)
    requires Sound(h, x, b, {}, 0) && i < |TriedRecs(x)|
    ensures var id := TriedList(x.mapInfo, x.nIdCount)[i];
            && id in x.mapInfo && TriedRecs(x)[i] == Stored(x.mapInfo[id].stats)
            && x.mapInfo[id].Net() in b.stats && b.stats[x.mapInfo[id].Net()] == x.mapInfo[id].stats
            && IsTried(h, b, x.mapInfo[id].Net())
            && x.mapInfo[id].Net() in x.mapAddr && x.mapAddr[x.mapInfo[id].Net()] == id
  {
    TriedListIs(x.mapInfo, x.nIdCount);
    var id := TriedList(x.mapInfo, x.nIdCount)[i];
    EntryLinked(h, x, b, 0, id);
    OneEntry(h, x, b, id);
  }

  /** One of the first `i` entries has the address. */
  ghost predicate Among(recs: seq<Stats>, i: nat, a: NetAddr) {
    exists j :: 0 <= j < i && j < |recs| && recs[j].service.net == a
  }

  /** What is read so far of an address, and of a slot of the tried table. */
  ghost predicate StatsRead(h: Layout, b: Book, recs: seq<Stats>, i: nat, c: Book, a: NetAddr) {
    && (a in c.stats <==> a in UntriedNames(h, b) || Among(recs, i, a))
    && (a in c.stats ==> a in b.stats && c.stats[a] == Stored(b.stats[a]))
    && (Among(recs, i, a) ==> a in b.stats && Holds(c.tried, h.TriedSlot(b.stats[a].service), a))
  }

  ghost predicate TriedRead(b: Book, recs: seq<Stats>, i: nat, c: Book, slot: Slot) {
    slot in c.tried ==> slot in b.tried && c.tried[slot] == b.tried[slot] && Among(recs, i, b.tried[slot])
  }

  ghost predicate ReadSoFar(h: Layout, b: Book, recs: seq<Stats>, i: nat, c: Book) {
    && (forall a :: StatsRead(h, b, recs, i, c, a))
    && (forall slot :: TriedRead(b, recs, i, c, slot))
    && c.untried == map[]
  }

  /** The next entry is not among those before. */
  lemma {:induction false} NotAmong(h: Layout, x: Index, b: Book, i: nat)
    requires Sound(h, x, b, {}, 0) && i < |TriedRecs(x)|
    ensures !Among(TriedRecs(x), i, TriedRecs(x)[i].service.net)
  {
    var recs := TriedRecs(x);
    TriedListIs(x.mapInfo, x.nIdCount);
    forall j | 0 <= j < i
      ensures recs[j].service.net != recs[i].service.net
    {
      TriedRec(h, x, b, i);
      TriedRec(h, x, b, j);
    }
  }

  lemma {:induction false} AmongNext(recs: seq<Stats>, i: nat, a: NetAddr)
    requires i < |recs|
    ensures Among(recs, i + 1, a) <==> Among(recs, i, a) || recs[i].service.net == a
  {
    if Among(recs, i, a) {
      var j :| 0 <= j < i && j < |recs| && recs[j].service.net == a;
      assert 0 <= j < i + 1;
    }
  }

  lemma {:induction false} ReadNext(h: Layout, x: Index, b: Book, i: nat, c: Book)
    requires Sound(h, x, b, {}, 0) && i < |TriedRecs(x)| && ReadSoFar(h, b, TriedRecs(x), i, c)
    ensures var st := TriedRecs(x)[i];
            && st.service.net !in c.stats && h.TriedSlot(st.service) !in c.tried
            && ReadSoFar(h, b, TriedRecs(x), i + 1, Promote(Note(c, st), h.TriedSlot(st.service), st.service.net))
  {
    var recs := TriedRecs(x);
    var st, i' := recs[i], i + 1;
    var a, slot := st.service.net, h.TriedSlot(st.service);
    var c' := Promote(Note(c, st), slot, a);
    TriedRec(h, x, b, i);
    NotAmong(h, x, b, i);
    assert StatsRead(h, b, recs, i, c, a) && TriedRead(b, recs, i, c, slot);
    forall z ensures StatsRead(h, b, recs, i', c', z) {
      AmongNext(recs, i, z);
      assert StatsRead(h, b, recs, i, c, z);
      if Among(recs, i, z) { assert TriedRead(b, recs, i, c, slot); }
    }
    forall s ensures TriedRead(b, recs, i', c', s) {
      assert TriedRead(b, recs, i, c, s);
      if s in b.tried { AmongNext(recs, i, b.tried[s]); }
      AmongNext(recs, i, a);
    }
  }

  /** Before the tried entries only the new ones are known. */
  lemma {:induction false} NothingTried(h: Layout, x: Index, b: Book)
    requires Sound(h, x, b, {}, 0)
    ensures ReadSoFar(h, b, TriedRecs(x), 0, Book(map[], map[], Known(NewRecs(x))))
  {
    var recs, base := TriedRecs(x), Book(map[], map[], Known(NewRecs(x)));
    forall a ensures StatsRead(h, b, recs, 0, base, a) { NewRecsKnown(h, x, b, a); }
  }

  lemma {:induction false} TriedFitNext(h: Layout, base: Book, recs: seq<Stats>, i: nat)
    requires i < |recs| && TriedFit(h, base, recs[..i])
    requires recs[i].service.net !in TriedBook(h, base, recs[..i]).stats
    requires h.TriedSlot(recs[i].service) !in TriedBook(h, base, recs[..i]).tried
    ensures TriedFit(h, base, recs[..i + 1])
    ensures TriedBook(h, base, recs[..i + 1])
         == Promote(Note(TriedBook(h, base, recs[..i]), recs[i]), h.TriedSlot(recs[i].service), recs[i].service.net)
  {
    assert recs[..i + 1][..i] == recs[..i];
  }

  lemma {:induction false} TriedRecsFit(h: Layout, x: Index, b: Book, i: nat, base: Book, recs: seq<Stats>)
    requires Sound(h, x, b, {}, 0) && recs == TriedRecs(x) && i <= |recs|
    requires base == Book(map[], map[], Known(NewRecs(x)))
    ensures TriedFit(h, base, recs[..i]) && ReadSoFar(h, b, recs, i, TriedBook(h, base, recs[..i]))
  {
    if i == 0 {
      NothingTried(h, x, b);
    } else {
      TriedRecsFit(h, x, b, i - 1, base, recs);
      ReadNext(h, x, b, i - 1, TriedBook(h, base, recs[..i - 1]));
      TriedFitNext(h, base, recs, i - 1);
    }
  }

  /** All entries read make the book without its new table. */
  lemma {:induction false} AllRead(h: Layout, x: Index, b: Book, c: Book)
    requires Sound(h, x, b, {}, 0) && ReadSoFar(h, b, TriedRecs(x), |TriedRecs(x)|, c)
    ensures c == PartialBook(b, 0, [])
  {
    var recs := TriedRecs(x);
    forall a
      ensures a in c.stats <==> a in b.stats
      ensures a in c.stats ==> c.stats[a] == Stored(b.stats[a])
    {
      assert StatsRead(h, b, recs, |recs|, c, a);
      if a in b.stats && IsTried(h, b, a) { TriedIsAmong(h, x, b, a); }
    }
    forall slot
      ensures slot in c.tried <==> slot in b.tried
      ensures slot in c.tried ==> c.tried[slot] == b.tried[slot]
    {
      assert TriedRead(b, recs, |recs|, c, slot) && TriedAt(h, b, slot);
      if slot in b.tried {
        TriedIsAmong(h, x, b, b.tried[slot]);
        assert StatsRead(h, b, recs, |recs|, c, b.tried[slot]);
      }
    }
    assert c.stats == StoredBook(b).stats;
    assert c.tried == b.tried;
    assert Partial(b.untried, 0, []) == map[];
  }

  lemma {:induction false} TriedIsAmong(h: Layout, x: Index, b: Book, a: NetAddr)
    requires Sound(h, x, b, {}, 0) && a in b.stats && IsTried(h, b, a)
    ensures Among(TriedRecs(x), |TriedRecs(x)|, a)
  {
    NameFound(h, x, b, 0, a);
    var id := x.mapAddr[a];
    EntryLinked(h, x, b, 0, id);
    assert IdLinked(x.nIdCount, x.mapInfo, x.mapAddr, id);
    TriedListAt(x.mapInfo, id, x.nIdCount);
    assert TriedRecs(x)[|TriedList(x.mapInfo, id)|].service.net == a;
  }

  /** Resetting the last attempts keeps a book in order. */
  lemma {:induction false} StoredOk(h: Layout, b: Book)
    requires BookOk(h, b, {})
    ensures BookOk(h, StoredBook(b), {})
  {
    var c := StoredBook(b);
    forall a ensures StatOk(c.stats, a) { assert StatOk(b.stats, a); }
    forall slot ensures UntriedAt(h, c, slot) { assert UntriedAt(h, b, slot); }
    forall slot ensures TriedAt(h, c, slot) { assert TriedAt(h, b, slot); }
    forall a ensures Anchored(h, c, {}, a) { assert Anchored(h, b, {}, a); }
  }

  /** Reading back the entries. */
  lemma {:induction false} EntriesSound(h: Layout, x: Index, b: Book)
    requires Sound(h, x, b, {}, 0)
    ensures var y := TriedLoaded(h, NewLoaded(h, NewRecs(x), true), TriedRecs(x));
            && Sound(h, y, PartialBook(b, 0, []), UntriedNames(h, b), |NewRecs(x)|)
            && Loaded(y.mapInfo, NewRecs(x))
  {
    var news, trieds := NewRecs(x), TriedRecs(x);
    var y := NewLoaded(h, news, true);
    var base, loose := Book(map[], map[], Known(news)), UntriedNames(h, b);
    NewRecsFit(h, x, b);
    NewLoadedSound(h, news);
    forall a ensures a in Known(news).Keys <==> a in loose { NewRecsKnown(h, x, b, a); }
    assert Known(news).Keys == loose;
    NewLoadedOrderly(h, news, true);
    TriedRecsFit(h, x, b, |trieds|, base, trieds);
    assert trieds[..|trieds|] == trieds;
    TriedLoadedSound(h, y, base, loose, |news|, trieds);
    TriedLoadedOrderly(h, y, trieds, news);
    AllRead(h, x, b, TriedBook(h, base, trieds));
  }

  /** Reading back all that was written. */
  lemma {:induction false} LoadedSound(h: Layout, x: Index, b: Book, y: Index)
    requires Sound(h, x, b, {}, 0)
    requires y == TableLoaded(h, TriedLoaded(h, NewLoaded(h, NewRecs(x), true), TriedRecs(x)),
                              |NewRecs(x)|, RankLists(h, x, h.newBuckets), true)
    ensures Sound(h, y.(nNew := |NewRecs(x)|), StoredBook(b), {}, 0)
  {
    EntriesSound(h, x, b);
    TableSound(h, x, b, TriedLoaded(h, NewLoaded(h, NewRecs(x), true), TriedRecs(x)), h.newBuckets, |NewRecs(x)|);
    TableDone(h, b);
    StoredOk(h, b);
    LoadedCounts(h, x, y);
  }

  /** No step counts a new entry. */
  lemma {:induction false} LoadedCounts(h: Layout, x: Index, y: Index)
    requires x.nIdCount >= 0
    requires y == TableLoaded(h, TriedLoaded(h, NewLoaded(h, NewRecs(x), true), TriedRecs(x)),
                              |NewRecs(x)|, RankLists(h, x, h.newBuckets), true)
    ensures y.nNew == 0
  {
    NewLoadedOrderly(h, NewRecs(x), true);
    TriedKeepsNew(h, NewLoaded(h, NewRecs(x), true), TriedRecs(x));
    TableKeepsNew(h, TriedLoaded(h, NewLoaded(h, NewRecs(x), true), TriedRecs(x)),
                  |NewRecs(x)|, RankLists(h, x, h.newBuckets), true);
  }

  lemma {:induction false} TriedKeepsNew(h: Layout, y: Index, recs: seq<Stats>)
    ensures TriedLoaded(h, y, recs).nNew == y.nNew
  {
    if recs != [] { TriedKeepsNew(h, y, recs[..|recs| - 1]); }
  }

  lemma {:induction false} BucketKeepsNew(h: Layout, y: Index, nNew: int, bucket: nat, list: seq<int>, usable: bool)
    ensures var z := BucketLoaded(h, y, nNew, bucket, list, usable); z.nNew == y.nNew && z.nTried == y.nTried
  {
    if list != [] { BucketKeepsNew(h, y, nNew, bucket, list[..|list| - 1], usable); }
  }

  lemma {:induction false} TableKeepsNew(h: Layout, y: Index, nNew: int, lists: seq<seq<int>>, usable: bool)
    ensures var z := TableLoaded(h, y, nNew, lists, usable); z.nNew == y.nNew && z.nTried == y.nTried
  {
    if lists != [] {
      var n := |lists| - 1;
      TableKeepsNew(h, y, nNew, lists[..n], usable);
      BucketKeepsNew(h, TableLoaded(h, y, nNew, lists[..n], usable), nNew, n, lists[n], usable);
    }
  }

  // ---------------------------------------------------------------- reading the stream

  function Numbers(list: seq<int>): seq<Token> {
    seq(|list|, i requires 0 <= i < |list| => Number(list[i]))
  }

  /** The tokens of some buckets. */
  function Flat(lists: seq<seq<int>>): seq<Token> {
    if lists == [] then []
    else Flat(lists[..|lists| - 1]) + [Number(|lists[|lists| - 1]|)] + Numbers(lists[|lists| - 1])
  }

  lemma {:induction false} BucketsAreFlat(h: Layout, x: Index, n: nat)
    ensures Buckets(h, x, n) == Flat(RankLists(h, x, n))
  {
    if n > 0 {
      BucketsAreFlat(h, x, n - 1);
      var items := Items(x.vvNew, n - 1, h.bucketSize);
      assert RankLists(h, x, n)[..n - 1] == RankLists(h, x, n - 1);
      assert Ranks(x, items) == Numbers(RankList(x, items));
    }
  }

  lemma {:induction false} FlatPrefix(lists: seq<seq<int>>, k: nat)
    requires k < |lists|
    ensures Flat(lists[..k]) + [Number(|lists[k]|)] + Numbers(lists[k]) <= Flat(lists)
  {
    var n := |lists| - 1;
    if k < n {
      FlatPrefix(lists[..n], k);
      assert lists[..n][..k] == lists[..k];
    } else {
      assert lists[..k] == lists[..n];
    }
  }

  lemma {:induction false} FlatNext(lists: seq<seq<int>>, k: nat)
    requires k < |lists|
    ensures Flat(lists[..k + 1]) == Flat(lists[..k]) + [Number(|lists[k]|)] + Numbers(lists[k])
  {
    assert lists[..k + 1][..k] == lists[..k];
  }

  /** What stands in the stream at the start of bucket `k`. */
  lemma {:induction false} StreamAt(s: seq<Token>, start: nat, lists: seq<seq<int>>, k: nat)
    requires start <= |s| && Flat(lists) <= s[start..] && k < |lists|
    ensures var p := start + |Flat(lists[..k])|;
            && p < |s| && s[p] == Number(|lists[k]|) && p + 1 + |lists[k]| <= |s|
            && forall i :: 0 <= i < |lists[k]| ==> s[p + 1 + i] == Number(lists[k][i])
  {
    FlatPrefix(lists, k);
    var t := s[start..];
    var f := Flat(lists[..k]) + [Number(|lists[k]|)] + Numbers(lists[k]);
    var q := |Flat(lists[..k])|;
    assert f <= t;
    assert t[q] == f[q];
    forall i | 0 <= i < |lists[k]|
      ensures t[q + 1 + i] == Number(lists[k][i])
    {
      assert t[q + 1 + i] == f[q + 1 + i];
    }
  }

  predicate NumbersAt(s: seq<Token>, start: nat, list: seq<int>) {
    start + |list| <= |s| && forall i :: 0 <= i < |list| ==> s[start + i] == Number(list[i])
  }

  lemma {:induction false} NumbersThere(s: seq<Token>, start: nat, n: int, list: seq<int>)
    requires NumbersAt(s, start, list) && |list| == Max(0, n)
    ensures HasNumbers(s, start, n)
  {
    forall k | start <= k < start + |list| ensures s[k].Number? {
      assert s[start + (k - start)] == Number(list[k - start]);
    }
  }

  lemma {:induction false} SameNumbers(s: seq<Token>, start: nat, a: seq<int>, b: seq<int>)
    requires NumbersAt(s, start, a) && NumbersAt(s, start, b) && |a| == |b|
    ensures a == b
  {
    forall i | 0 <= i < |a| ensures a[i] == b[i] { assert s[start + i] == Number(a[i]); }
  }

  /** Reads a list of indexes: the one that stands there, and none other. */
  method ReadList(s: seq<Token>, start: nat, n: int, ghost list: seq<int>) returns (r: Option<seq<int>>)
    requires start <= |s|
    ensures r.Some? ==> |r.value| == Max(0, n) && NumbersAt(s, start, r.value)
    ensures |list| == Max(0, n) && NumbersAt(s, start, list) ==> r == Some(list)
  {
    r := ReadNumbers(s, start, n);
    if |list| == Max(0, n) && NumbersAt(s, start, list) {
      NumbersThere(s, start, n, list);
      SameNumbers(s, start, r.value, list);
    }
  }

  /** A bucket: how many elements, then their indexes; a negative number stands for none. */
  predicate BucketAt(s: seq<Token>, start: nat, list: seq<int>) {
    start < |s| && s[start].Number? && |list| == Max(0, s[start].n) && NumbersAt(s, start + 1, list)
  }

  /** Bucket `k` stands behind those before it. */
  predicate NextBucketAt(s: seq<Token>, start: nat, lists: seq<seq<int>>, k: int) {
    0 <= k < |lists| ==> BucketAt(s, start + |Flat(lists[..k])|, lists[k])
  }

  /** Some buckets stand in the stream. */
  ghost predicate TableAt(s: seq<Token>, start: nat, lists: seq<seq<int>>) {
    forall k :: NextBucketAt(s, start, lists, k)
  }

  lemma {:induction false} TableNext(s: seq<Token>, start: nat, lists: seq<seq<int>>, list: seq<int>)
    requires TableAt(s, start, lists) && BucketAt(s, start + |Flat(lists)|, list)
    ensures TableAt(s, start, lists + [list])
    ensures |Flat(lists + [list])| == |Flat(lists)| + 1 + |list|
  {
    var more, n := lists + [list], |lists|;
    assert more[..n] == lists;
    FlatNext(more, n);
    assert more[..n + 1] == more;
    forall k ensures NextBucketAt(s, start, more, k) {
      assert NextBucketAt(s, start, lists, k);
      if 0 <= k < n { assert more[..k] == lists[..k]; }
    }
  }

  /** Reads the buckets: those that stand there, and none other. */
  method ReadTable(s: seq<Token>, start: nat, n: int, ghost lists: seq<seq<int>>) returns (r: Option<seq<seq<int>>>)
    requires start <= |s|
    ensures r.Some? ==> |r.value| == Max(0, n) && TableAt(s, start, r.value)
    ensures |lists| == Max(0, n) && TableAt(s, start, lists) ==> r == Some(lists)
  {
    var v, p := [], start;
    ghost var good := |lists| == Max(0, n) && TableAt(s, start, lists);
    while |v| < n
      invariant |v| <= Max(0, n) && p == start + |Flat(v)| <= |s| && TableAt(s, start, v)
      invariant good ==> v == lists[..|v|]
      decreases n - |v|
    {
      ghost var next := [];
      if good {
        next := lists[|v|];
        assert NextBucketAt(s, start, lists, |v|);
        assert lists[..|v| + 1] == lists[..|v|] + [next];
      }
      var list := ReadBucket(s, p, next);
      if list.None? {
        return None;
      }
      TableNext(s, start, v, list.value);
      p := p + 1 + |list.value|;
      v := v + [list.value];
    }
    assert good ==> v == lists[..|lists|] == lists;
    r := Some(v);
  }

  method ReadBucket(s: seq<Token>, start: nat, ghost list: seq<int>) returns (r: Option<seq<int>>)
    requires start <= |s|
    ensures r.Some? ==> BucketAt(s, start, r.value)
    ensures BucketAt(s, start, list) ==> r == Some(list)
  {
    if start == |s| || !s[start].Number? {
      return None;
    }
    r := ReadList(s, start + 1, s[start].n, list);
  }

  /** A written table stands in the stream. */
  lemma {:induction false} WrittenTable(s: seq<Token>, start: nat, lists: seq<seq<int>>)
    requires start <= |s| && Flat(lists) <= s[start..]
    ensures TableAt(s, start, lists)
  {
    forall k ensures NextBucketAt(s, start, lists, k) {
      if 0 <= k < |lists| { StreamAt(s, start, lists, k); }
    }
  }

  /** Entries as tokens. */
  function RecordTokens(recs: seq<Stats>): seq<Token> {
    seq(|recs|, i requires 0 <= i < |recs| => Record(recs[i]))
  }

  lemma {:induction false} RecordsAreTokens(x: Index)
    requires x.nIdCount >= 0
    ensures Records(x.mapInfo, NewList(x.mapInfo, x.nIdCount)) == RecordTokens(NewRecs(x))
    ensures Records(x.mapInfo, TriedList(x.mapInfo, x.nIdCount)) == RecordTokens(TriedRecs(x))
  {
  }

  /** The whole stream in its parts. */
  lemma {:induction false} SavedIs(h: Layout, key: nat, x: Index)
    requires x.nIdCount >= 0
    ensures Saved(h, key, x) == Header(key, x.nNew, x.nTried, Toggle(h.newBuckets)) + RecordTokens(NewRecs(x))
                                + RecordTokens(TriedRecs(x)) + Flat(RankLists(h, x, h.newBuckets))
  {
    RecordsAreTokens(x);
    BucketsAreFlat(h, x, h.newBuckets);
  }

  /** The parts of a stream that was written. */
  lemma {:induction false} SavedParts(h: Layout, key: nat, x: Index, b: Book, s: seq<Token>)
    requires Sound(h, x, b, {}, 0) && Saved(h, key, x) <= s
    ensures x.nNew == |NewRecs(x)| && x.nTried == |TriedRecs(x)|
    ensures |s| >= 6 + |NewRecs(x)| + |TriedRecs(x)|
    ensures s[..6] == Header(key, x.nNew, x.nTried, Toggle(h.newBuckets))
    ensures forall i :: 0 <= i < |NewRecs(x)| ==> s[6 + i] == Record(NewRecs(x)[i])
    ensures forall i :: 0 <= i < |TriedRecs(x)| ==> s[6 + |NewRecs(x)| + i] == Record(TriedRecs(x)[i])
    ensures Flat(RankLists(h, x, h.newBuckets)) <= s[6 + |NewRecs(x)| + |TriedRecs(x)|..]
  {
    NewListCount(h, x, b);
    TriedListCount(h, x, b);
    SavedIs(h, key, x);
    StreamParts(Header(key, x.nNew, x.nTried, Toggle(h.newBuckets)), NewRecs(x), TriedRecs(x),
                Flat(RankLists(h, x, h.newBuckets)), s);
  }

  lemma {:induction false} StreamParts(c: seq<Token>, news: seq<Stats>, trieds: seq<Stats>, f: seq<Token>,
                                       s: seq<Token>)
    requires |c| == 6 && c + RecordTokens(news) + RecordTokens(trieds) + f <= s
    ensures |s| >= 6 + |news| + |trieds| && s[..6] == c
    ensures forall i :: 0 <= i < |news| ==> s[6 + i] == Record(news[i])
    ensures forall i :: 0 <= i < |trieds| ==> s[6 + |news| + i] == Record(trieds[i])
    ensures f <= s[6 + |news| + |trieds|..]
  {
    var d, e := RecordTokens(news), RecordTokens(trieds);
    Parts(c, d, e, f, s);
    forall i | 0 <= i < |news| ensures s[6 + i] == Record(news[i]) { assert s[6 + i] == d[i]; }
    forall i | 0 <= i < |trieds| ensures s[6 + |news| + i] == Record(trieds[i]) { assert s[6 + |d| + i] == e[i]; }
  }

  lemma {:induction false} Parts<T>(c: seq<T>, d: seq<T>, e: seq<T>, f: seq<T>, s: seq<T>)
    requires c + d + e + f <= s
    ensures |s| >= |c| + |d| + |e| + |f|
    ensures s[..|c|] == c
    ensures forall i :: 0 <= i < |d| ==> s[|c| + i] == d[i]
    ensures forall i :: 0 <= i < |e| ==> s[|c| + |d| + i] == e[i]
    ensures f <= s[|c| + |d| + |e|..]
  {
    var w := c + d + e + f;
    assert s[..|c|] == w[..|c|];
    forall i | 0 <= i < |d| ensures s[|c| + i] == d[i] { assert s[|c| + i] == w[|c| + i]; }
    forall i | 0 <= i < |e| ensures s[|c| + |d| + i] == e[i] { assert s[|c| + |d| + i] == w[|c| + |d| + i]; }
    var k := |c| + |d| + |e|;
    assert s[k..][..|f|] == w[k..] == f;
  }

  // ---------------------------------------------------------------- loading

  /** The stream is what `Serialize` makes of a sound state, possibly with more behind it. */
  ghost predicate WrittenBy(h: Layout, key: nat, x: Index, b: Book, s: seq<Token>) {
    Sound(h, x, b, {}, 0) && Saved(h, key, x) <= s
  }

  predicate RecordsAt(s: seq<Token>, start: nat, recs: seq<Stats>) {
    start + |recs| <= |s| && forall i :: 0 <= i < |recs| ==> s[start + i] == Record(recs[i])
  }

  lemma {:induction false} SameRecords(s: seq<Token>, start: nat, a: seq<Stats>, b: seq<Stats>)
    requires RecordsAt(s, start, a) && RecordsAt(s, start, b) && |a| == |b|
    ensures a == b
  {
    forall i | 0 <= i < |a| ensures a[i] == b[i] { assert s[start + i] == Record(a[i]); }
  }

  lemma {:induction false} RecordsThere(s: seq<Token>, start: nat, n: int, recs: seq<Stats>)
    requires RecordsAt(s, start, recs) && |recs| == Max(0, n)
    ensures HasRecords(s, start, n)
  {
    forall k | start <= k < start + |recs| ensures s[k].Record? {
      assert s[start + (k - start)] == Record(recs[k - start]);
    }
  }

  /** Reads a list of entries: the one that stands there, and none other. */
  method ReadEntries(s: seq<Token>, start: nat, n: int, ghost recs: seq<Stats>) returns (r: Option<seq<Stats>>)
    requires start <= |s|
    ensures r.Some? ==> |r.value| == Max(0, n) && RecordsAt(s, start, r.value)
    ensures |recs| == Max(0, n) && RecordsAt(s, start, recs) ==> r == Some(recs)
  {
    r := ReadRecords(s, start, n);
    if |recs| == Max(0, n) && RecordsAt(s, start, recs) {
      RecordsThere(s, start, n, recs);
      SameRecords(s, start, r.value, recs);
    }
  }

  /** What the first tokens say. */
  datatype Heading = Heading(nVersion: int, key: nat, nNew: int, nTried: int, nUBuckets: int) {
    /** Whether the positions in the new table can be used. */
    predicate Usable(h: Layout) {
      nVersion == 1 && nUBuckets == h.newBuckets
    }
  }

  predicate HasHeading(s: seq<Token>) {
    && |s| >= 6 && s[0].Number? && s[1].Number? && s[2].Secret? && s[3].Number? && s[4].Number? && s[5].Number?
    && s[1].n == 32
  }

  function HeadingOf(s: seq<Token>): Heading
    requires HasHeading(s)
  {
    Heading(s[0].n, s[2].key, s[3].n, s[4].n, if s[0].n != 0 then Toggle(s[5].n) else s[5].n)
  }

  /** The header, field by field: the key has 32 bytes, and bit 30 of the bucket count is flipped but in version 0. */
  lemma {:induction false} HeadingIs(s: seq<Token>)
    requires HasHeading(s)
    ensures |s| >= 6 && s[1] == Number(32) && s[2] == Secret(HeadingOf(s).key)
    ensures s[0] == Number(HeadingOf(s).nVersion) && s[3] == Number(HeadingOf(s).nNew)
    ensures s[4] == Number(HeadingOf(s).nTried)
    ensures s[0].n == 0 ==> s[5] == Number(HeadingOf(s).nUBuckets)
    ensures s[0].n != 0 && 0 <= HeadingOf(s).nUBuckets < 0x4000_0000 ==>
      s[5] == Number(HeadingOf(s).nUBuckets + 0x4000_0000)
  {
    ToggleTwice(HeadingOf(s).nUBuckets);
    ToggleTwice(if s[5].Number? then s[5].n else 0);
    if HeadingOf(s).nUBuckets >= 0 { LowToggle(HeadingOf(s).nUBuckets); }
  }

  datatype Body = Body(news: seq<Stats>, trieds: seq<Stats>, lists: seq<seq<int>>)

  /** The entries and buckets that stand behind the header. */
  ghost predicate BodyAt(s: seq<Token>, hd: Heading, body: Body) {
    && |body.news| == Max(0, hd.nNew) && RecordsAt(s, 6, body.news)
    && |body.trieds| == Max(0, hd.nTried) && RecordsAt(s, 6 + |body.news|, body.trieds)
    && |body.lists| == Max(0, hd.nUBuckets) && TableAt(s, 6 + |body.news| + |body.trieds|, body.lists)
  }

  /** Reads what follows the header: what stands there, and none other. */
  method ReadBody(s: seq<Token>, hd: Heading, ghost body: Body) returns (r: Option<Body>)
    requires 6 <= |s|
    ensures r.Some? ==> BodyAt(s, hd, r.value)
    ensures BodyAt(s, hd, body) ==> r == Some(body)
  {
    var n := ReadEntries(s, 6, hd.nNew, body.news);
    if n.None? {
      return None;
    }
    var t := ReadEntries(s, 6 + |n.value|, hd.nTried, body.trieds);
    if t.None? {
      return None;
    }
    var l := ReadTable(s, 6 + |n.value| + |t.value|, hd.nUBuckets, body.lists);
    if l.None? {
      return None;
    }
    r := Some(Body(n.value, t.value, l.value));
  }

  /** The indexes before the last loop. */
  function Filled(h: Layout, nNew: int, usable: bool, body: Body): Index {
    TableLoaded(h, TriedLoaded(h, NewLoaded(h, body.news, usable), body.trieds), nNew, body.lists, usable)
  }

  lemma {:induction false} FilledOrderly(h: Layout, nNew: int, usable: bool, body: Body)
    ensures Orderly(Filled(h, nNew, usable, body))
  {
    var y := NewLoaded(h, body.news, usable);
    NewLoadedOrderly(h, body.news, usable);
    TriedLoadedOrderly(h, y, body.trieds, body.news);
    TableLoadedOrderly(h, TriedLoaded(h, y, body.trieds), nNew, body.lists, usable);
  }

  /** What a sound state writes. */
  function WrittenBody(h: Layout, x: Index): Body
    requires x.nIdCount >= 0
  {
    Body(NewRecs(x), TriedRecs(x), RankLists(h, x, h.newBuckets))
  }

  lemma {:induction false} FilledSound(h: Layout, x: Index, b: Book, y: Index)
    requires Sound(h, x, b, {}, 0)
    requires y == Filled(h, x.nNew, true, WrittenBody(h, x)).(nNew := x.nNew)
    ensures Sound(h, y, StoredBook(b), {}, 0) && x.nTried == |TriedRecs(x)|
    ensures forall id :: Referred(y.mapInfo, id)
  {
    NewListCount(h, x, b);
    TriedListCount(h, x, b);
    LoadedSound(h, x, b, Filled(h, x.nNew, true, WrittenBody(h, x)));
    NothingPruned(h, y, StoredBook(b));
  }

  lemma {:induction false} TriedCount(h: Layout, nNew: int, usable: bool, body: Body)
    ensures Filled(h, nNew, usable, body).nTried == TriedLoaded(h, NewLoaded(h, body.news, usable), body.trieds).nTried
    ensures NewLoaded(h, body.news, usable).nTried == 0
  {
    NewLoadedOrderly(h, body.news, usable);
    TableKeepsNew(h, TriedLoaded(h, NewLoaded(h, body.news, usable), body.trieds), nNew, body.lists, usable);
  }

  /** The indexes with the counters that the header gives, less the tried entries that found their slot taken. */
  function Counted(h: Layout, hd: Heading, body: Body): Index {
    var y := Filled(h, hd.nNew, hd.Usable(h), body);
    y.(nNew := hd.nNew, nTried := hd.nTried - (|body.trieds| - y.nTried))
  }

  /** The indexes that come of a stream. */
  function LoadedIndex(h: Layout, hd: Heading, body: Body): Index {
    var y := Counted(h, hd, body);
    Pruned(y, if y.nIdCount < 0 then 0 else y.nIdCount)
  }

  /** Fills the indexes from what was read. */
  method Fill(h: Layout, hd: Heading, body: Body) returns (y: Index)
    ensures y == LoadedIndex(h, hd, body) && Tidy(y.mapInfo, y.vRandom)
  {
    y := LoadNew(h, body.news, hd.Usable(h));
    var nLost;
    y, nLost := LoadTried(h, y, body.trieds);
    y := LoadTable(h, y, hd.nNew, body.lists, hd.Usable(h));
    FilledOrderly(h, hd.nNew, hd.Usable(h), body);
    TriedCount(h, hd.nNew, hd.Usable(h), body);
    y := y.(nNew := hd.nNew, nTried := hd.nTried - nLost);
    assert y == Counted(h, hd, body);
    ghost var y0 := y;
    var nLostUnk;
    y, nLostUnk := Prune(y);
    PrunedTidy(y0, y);
  }

  /** Nothing is pruned where every entry has a slot. */
  lemma {:induction false} PrunedSame(y: Index, n: nat)
    requires forall id :: Referred(y.mapInfo, id)
    ensures Pruned(y, n) == y
  {
    if n > 0 {
      PrunedSame(y, n - 1);
      assert Referred(y.mapInfo, n - 1);
    }
  }

  /** The header of a written stream. */
  lemma {:induction false} WrittenHeading(h: Layout, key: nat, x: Index, s: seq<Token>)
    requires |s| >= 6 && s[..6] == Header(key, x.nNew, x.nTried, Toggle(h.newBuckets))
    ensures HasHeading(s) && HeadingOf(s) == Heading(1, key, x.nNew, x.nTried, h.newBuckets)
  {
    assert forall i :: 0 <= i < 6 ==> s[i] == s[..6][i];
    ToggleTwice(h.newBuckets);
  }

  lemma {:induction false} WrittenStands(h: Layout, key: nat, x: Index, b: Book, s: seq<Token>)
    requires WrittenBy(h, key, x, b, s)
    ensures HasHeading(s) && HeadingOf(s) == Heading(1, key, x.nNew, x.nTried, h.newBuckets)
    ensures BodyAt(s, HeadingOf(s), WrittenBody(h, x))
  {
    SavedParts(h, key, x, b, s);
    WrittenHeading(h, key, x, s);
    WrittenTable(s, 6 + |NewRecs(x)| + |TriedRecs(x)|, RankLists(h, x, h.newBuckets));
  }

  lemma {:induction false} WrittenCounted(h: Layout, x: Index, b: Book, hd: Heading)
    requires Sound(h, x, b, {}, 0) && hd.Usable(h) && hd.nNew == x.nNew && hd.nTried == x.nTried
    ensures Sound(h, LoadedIndex(h, hd, WrittenBody(h, x)), StoredBook(b), {}, 0)
  {
    var body := WrittenBody(h, x);
    var y := Filled(h, x.nNew, true, body).(nNew := x.nNew);
    FilledSound(h, x, b, y);
    assert Counted(h, hd, body) == y;
    PrunedSame(y, if y.nIdCount < 0 then 0 else y.nIdCount);
  }

  /** A stream that a sound manager wrote stands there as its entries and buckets, and gives back its book. */
  lemma {:induction false} WrittenLoads(h: Layout, key: nat, x: Index, b: Book, s: seq<Token>)
    requires WrittenBy(h, key, x, b, s)
    ensures HasHeading(s) && HeadingOf(s).key == key && BodyAt(s, HeadingOf(s), WrittenBody(h, x))
    ensures Sound(h, LoadedIndex(h, HeadingOf(s), WrittenBody(h, x)), StoredBook(b), {}, 0)
  {
    WrittenStands(h, key, x, b, s);
    WrittenCounted(h, x, b, HeadingOf(s));
  }

  lemma {:induction false} NothingPruned(h: Layout, y: Index, b: Book)
    requires Sound(h, y, b, {}, 0)
    ensures forall id :: Referred(y.mapInfo, id)
  {
    forall id ensures Referred(y.mapInfo, id) {
      if id in y.mapInfo { OneEntry(h, y, b, id); }
    }
  }

  /** Loads a manager from any stream: exactly if a header, entries and buckets stand there, and then with the
      indexes that come of them.  No entry is left without a slot or a place in the random order. */
  method Unserialize(layouts: nat -> Layout, s: seq<Token>, ghost body: Body, ghost b: Book)
    returns (m: Option<AddrMan>, ghost read: Body)
    ensures m.Some? ==> HasHeading(s) && BodyAt(s, HeadingOf(s), read)
    ensures HasHeading(s) && BodyAt(s, HeadingOf(s), body) ==> m.Some? && read == body
    ensures m.Some? ==>
      var h := layouts(HeadingOf(s).key);
      && fresh(m.value) && m.value.h == h && m.value.book == b
      && m.value.State() == LoadedIndex(h, HeadingOf(s), read) && Tidy(m.value.mapInfo, m.value.vRandom)
  {
    read := body;
    if !HasHeading(s) {
      return None, read;
    }
    var hd := HeadingOf(s);
    var r := ReadBody(s, hd, body);
    if r.None? {
      return None, read;
    }
    read := r.value;
    var y := Fill(layouts(hd.key), hd, r.value);
    var a := new AddrMan(layouts(hd.key));
    Assign(a, y, b);
    m := Some(a);
  }

  method Assign(a: AddrMan, y: Index, ghost b: Book)
    modifies a
    ensures a.State() == y && a.book == b
  {
    a.nIdCount, a.mapInfo, a.mapAddr, a.vRandom := y.nIdCount, y.mapInfo, y.mapAddr, y.vRandom;
    a.nTried, a.vvTried, a.nNew, a.vvNew := y.nTried, y.vvTried, y.nNew, y.vvNew;
    a.book := b;
  }

  /** What comes back of an entry: all but the time of the last attempt. */
  predicate Survives(st: Stats, st': Stats) {
    && st'.service == st.service && st'.nServices == st.nServices && st'.nTime == st.nTime && st'.source == st.source
    && st'.nLastSuccess == st.nLastSuccess && st'.nAttempts == st.nAttempts && st'.nLastTry == 0
  }

  /** Times in order stay so. */
  lemma {:induction false} StoredTimes(h: Layout, b: Book)
    requires TimesOk(h, b)
    ensures TimesOk(h, StoredBook(b))
  {
    forall a ensures TimeOk(h, StoredBook(b), a) { assert TimeOk(h, b, a); }
  }

  lemma {:induction false} StoredPasses(h: Layout, nKey: nat, x: Index, b: Book, y: Index)
    requires Sound(h, x, b, {}, 0) && Sound(h, y, StoredBook(b), {}, 0) && CheckPasses(h, nKey, x)
    ensures CheckPasses(h, nKey, y)
  {
    SoundPasses(h, nKey, x, b);
    StoredTimes(h, b);
    SoundPasses(h, nKey, y, StoredBook(b));
  }

  lemma {:induction false} StoredSurvives(b: Book)
    ensures StoredBook(b).untried == b.untried && StoredBook(b).tried == b.tried
    ensures forall a :: a in StoredBook(b).stats <==> a in b.stats
    ensures forall a :: a in b.stats ==> Survives(b.stats[a], StoredBook(b).stats[a])
  {
  }

  method Reload(layouts: nat -> Layout, m: AddrMan, nKey: nat) returns (r: AddrMan)
    requires m.Valid() && m.h == layouts(nKey)
    ensures fresh(r) && r.Valid() && r.h == m.h && r.book == StoredBook(m.book)
  {
    var s := Serialize(m, nKey);
    WrittenLoads(m.h, nKey, m.State(), m.book, s);
    var o, _ := Unserialize(layouts, s, WrittenBody(m.h, m.State()), StoredBook(m.book));
    r := o.value;
  }

  /** Saving and loading gives a manager with the same book, but for the times of the last attempts; if the check
      passed it passes again. */
  method SaveAndLoad(layouts: nat -> Layout, m: AddrMan, nKey: nat) returns (r: AddrMan)
    requires m.Valid() && m.h == layouts(nKey)
    ensures fresh(r) && r.Valid() && r.h == m.h
    ensures r.book.untried == m.book.untried && r.book.tried == m.book.tried
    ensures forall a :: a in r.book.stats <==> a in m.book.stats
    ensures forall a :: a in m.book.stats ==> Survives(m.book.stats[a], r.book.stats[a])
    ensures CheckPasses(m.h, nKey, m.State()) ==> CheckPasses(r.h, nKey, r.State())
  {
    r := Reload(layouts, m, nKey);
    StoredSurvives(m.book);
    if CheckPasses(m.h, nKey, m.State()) { StoredPasses(m.h, nKey, m.State(), m.book, r.State()); }
  }
}
