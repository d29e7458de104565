/**
 * The address manager (`CAddrMan`): five linked indexes and two counters that
 * together keep one address book.
 */
module AddrMan {
  import opened Basics
  import opened AddrBook
  import opened AddrIndex

  // ---------------------------------------------------------------- steps of the composed operations

  /** Emptying a slot leaves every other address where it is. */
  lemma {:induction false} ClearedKeeps(h: Layout, b: Book, slot: Slot, a: NetAddr)
    requires StatsOk(b.stats) && UntriedOk(h, b) && a in b.stats && !Holds(b.untried, slot, a)
    ensures Cleared(h, b, slot).tried == b.tried && slot !in Cleared(h, b, slot).untried
    ensures a in Cleared(h, b, slot).stats && Cleared(h, b, slot).stats[a] == b.stats[a]
    ensures RefCount(h, Cleared(h, b, slot), a) == RefCount(h, b, a)
  {
    if slot in b.untried {
      VacateRefs(h, b, slot, a);
    }
  }

  lemma {:induction false} WithoutNone(m: map<Slot, NetAddr>, a: NetAddr)
    ensures Without(m, a, 0) == m
  {
  }

  /** One bucket more. */
  lemma {:induction false} WithoutStep(h: Layout, b: Book, a: NetAddr, n: nat, slot: Slot)
    requires UntriedOk(h, b) && a in b.stats && slot == h.NewSlot(b.stats[a].service, n)
    ensures Holds(b.untried, slot, a) <==> Holds(Without(b.untried, a, n), slot, a)
    ensures Without(b.untried, a, n + 1)
         == if Holds(b.untried, slot, a) then Without(b.untried, a, n) - {slot} else Without(b.untried, a, n)
  {
    forall s | s in b.untried && b.untried[s] == a && s.bucket == n
      ensures s == slot
    {
      assert UntriedAt(h, b, s);
    }
  }

  lemma {:induction false} WithoutAll(h: Layout, b: Book, a: NetAddr)
    requires a in b.stats && b.stats[a].service.net == a
    ensures RefCount(h, b.(untried := Without(b.untried, a, h.newBuckets)), a) == 0
  {
    RefsZero(h, Without(b.untried, a, h.newBuckets), b.stats[a].service, h.newBuckets);
  }

  /** An address that is in no slot stays so when another one leaves the tried table. */
  lemma {:induction false} ReturnedKeeps(h: Layout, b: Book, loose: set<NetAddr>, slot: Slot, a: NetAddr)
    requires BookOk(h, b, loose) && slot in b.tried && b.tried[slot] in b.stats
    requires a in b.stats && RefCount(h, b, a) == 0 && !IsTried(h, b, a)
    ensures a in Returned(h, b, slot).stats && Returned(h, b, slot).stats[a] == b.stats[a]
    ensures RefCount(h, Returned(h, b, slot), a) == 0 && slot !in Returned(h, b, slot).tried
  {
    var e := b.tried[slot];
    var home := HomeSlot(h, b.stats[e]);
    DemoteOk(h, b, loose, slot);
    InNoSlot(h, Demote(b, slot), a, home);
    InNoSlot(h, b, a, slot);
    ClearedKeeps(h, Demote(b, slot), home, a);
    var c := Cleared(h, Demote(b, slot), home);
    assert StatOk(b.stats, a);
    RefsSame(h, c.untried, Place(c, home, e).untried, b.stats[a].service, h.newBuckets);
  }

  /** The bucket at distance `k` from `start`, going round, does not have the service. */
  ghost predicate Missed(h: Layout, m: map<Slot, NetAddr>, s: Service, start: nat, k: nat) {
    !Holds(m, h.NewSlot(s, (k + start) % h.newBuckets), s.net)
  }

  lemma {:induction false} Round(n: nat, start: nat, b: nat) returns (k: nat)
    requires start < n && b < n
    ensures k < n && (k + start) % n == b
  {
    k := if b >= start then b - start else b + n - start;
    assert b >= start ==> (k + start) % n == b;
    assert b < start ==> k + start == b + n && (b + n) % n == b;
  }

  /** Going round all buckets from any start misses none. */
  /** A bucket whose slot does not have the entry does not have its address. */
  lemma {:induction false} BucketMissed(h: Layout, x: Index, b: Book, nId: int, nRnd: nat, n: nat)
    requires Sound(h, x, b, {}, 0) && nId in x.mapInfo
    requires var slot := h.NewSlot(x.mapInfo[nId].stats.service, (n + nRnd) % h.newBuckets);
             !(slot in x.vvNew && x.vvNew[slot] == nId)
    ensures Missed(h, b.untried, x.mapInfo[nId].stats.service, nRnd, n)
  {
    var slot := h.NewSlot(x.mapInfo[nId].stats.service, (n + nRnd) % h.newBuckets);
    EntryLinked(h, x, b, 0, nId);
    NewSlotFound(h, x, b, 0, slot);
    if slot in x.vvNew { EntryLinked(h, x, b, 0, x.vvNew[slot]); }
    assert SlotLinked(x.mapAddr, x.vvNew, b.untried, slot);
  }

  lemma {:induction false} AllMissed(h: Layout, m: map<Slot, NetAddr>, s: Service, start: nat)
    requires start < h.newBuckets && forall k: nat :: k < h.newBuckets ==> Missed(h, m, s, start, k)
    ensures Refs(h, m, s, h.newBuckets) == 0
  {
    forall b: nat | b < h.newBuckets
      ensures !Holds(m, h.NewSlot(s, b), s.net)
    {
      var k := Round(h.newBuckets, start, b);
      assert Missed(h, m, s, start, k);
    }
    RefsZero(h, m, s, h.newBuckets);
  }

  lemma {:induction false} NoteTwice(b: Book, st: Stats, st': Stats)
    requires st.service.net == st'.service.net
    ensures Note(Note(b, st), st') == Note(b, st')
  {
  }

  /** Entries that differ in their place in the random order only. */
  ghost predicate SameButOrder(m: Infos, m': Infos) {
    forall id :: SameEntry(m, m', id)
  }

  ghost predicate SameEntry(m: Infos, m': Infos, id: int) {
    && (id in m <==> id in m')
    && (id in m ==> m'[id] == m[id].(nRandomPos := m'[id].nRandomPos))
  }

  /** No address gets another identifier. */
  ghost predicate KeepsIds(ids: Names, ids': Names) {
    forall a :: KeepsId(ids, ids', a)
  }

  ghost predicate KeepsId(ids: Names, ids': Names, a: NetAddr) {
    a in ids' ==> a in ids && ids'[a] == ids[a]
  }

  // ---------------------------------------------------------------- lists of addresses

  /** The listed entries that are not terrible. */
  function Kept(m: Infos, v: seq<int>, now: int): seq<Stats> {
    if v == [] then []
    else
      var id := v[|v| - 1];
      Kept(m, v[..|v| - 1], now) + if id in m && !IsTerrible(m[id].stats, now) then [m[id].stats] else []
  }

  lemma {:induction false} KeptFrom(m: Infos, v: seq<int>, now: int, i: nat) returns (k: nat)
    requires i < |Kept(m, v, now)|
    ensures k < |v| && v[k] in m && Kept(m, v, now)[i] == m[v[k]].stats && !IsTerrible(m[v[k]].stats, now)
  {
    var w := v[..|v| - 1];
    if i < |Kept(m, w, now)| {
      k := KeptFrom(m, w, now, i);
    } else {
      k := |v| - 1;
    }
  }

  lemma {:induction false} KeptHas(m: Infos, v: seq<int>, now: int, k: nat)
    requires k < |v| && v[k] in m && !IsTerrible(m[v[k]].stats, now)
    ensures m[v[k]].stats in Kept(m, v, now)
  {
    if k < |v| - 1 { KeptHas(m, v[..|v| - 1], now, k); }
  }

  /** Different entries of the list have different addresses. */
  ghost predicate Apart(m: Infos, v: seq<int>) {
    forall j, k :: 0 <= j < k < |v| && v[j] in m && v[k] in m ==> m[v[j]].Net() != m[v[k]].Net()
  }

  ghost predicate NoRepeats(s: seq<Stats>) {
    forall i, j :: 0 <= i < j < |s| ==> s[i].service.net != s[j].service.net
  }

  lemma {:induction false} KeptApart(m: Infos, v: seq<int>, now: int)
    requires Apart(m, v)
    ensures NoRepeats(Kept(m, v, now))
  {
    if v != [] {
      var w := v[..|v| - 1];
      KeptApart(m, w, now);
      forall i | 0 <= i < |Kept(m, w, now)|
        ensures v[|v| - 1] in m ==> Kept(m, w, now)[i].service.net != m[v[|v| - 1]].Net()
      {
        var k := KeptFrom(m, w, now, i);
      }
    }
  }

  /** The order of the entries does not matter to what is kept of a list. */
  lemma {:induction false} KeptSame(m: Infos, m': Infos, v: seq<int>, now: int)
    requires SameButOrder(m, m')
    ensures Kept(m, v, now) == Kept(m', v, now)
  {
    if v != [] {
      KeptSame(m, m', v[..|v| - 1], now);
      assert SameEntry(m, m', v[|v| - 1]);
    }
  }

  class AddrMan {
    const h: Layout
    var nIdCount: int
    var mapInfo: map<int, Info>
    var mapAddr: map<NetAddr, int>
    var vRandom: seq<int>
    var nTried: int
    var vvTried: map<Slot, int>
    var nNew: int
    var vvNew: map<Slot, int>

    /** The book that the indexes show. */
    ghost var book: Book

    function State(): Index
      reads this
    {
      Index(nIdCount, mapInfo, mapAddr, vRandom, nTried, vvTried, nNew, vvNew)
    }

    /** Consistent but for addresses without a slot and entries that are not counted. */
    ghost predicate Between(loose: set<NetAddr>, slack: int)
      reads this
    {
      Sound(h, State(), book, loose, slack)
    }

    ghost predicate Valid()
      reads this
    {
      Between({}, 0)
    }

    lemma {:induction false} EmptyValid()
      requires State() == EMPTY_INDEX && book == EMPTY_BOOK
      ensures Valid()
    {
      EmptySound(h, State());
    }

    constructor (h: Layout)
      ensures Valid() && this.h == h && book == EMPTY_BOOK
    {
      this.h := h;
      nIdCount, mapInfo, mapAddr, vRandom := 0, map[], map[], [];
      nTried, vvTried, nNew, vvNew := 0, map[], 0, map[];
      book := EMPTY_BOOK;
      new;
      EmptyValid();
    }

    // ---------------------------------------------------------------- helpers

    method Create(st: Stats, ghost loose: set<NetAddr>, ghost slack: int) returns (nId: int)
      requires Between(loose, slack) && st.service.net !in book.stats
      modifies this
      ensures Between(loose + {st.service.net}, slack + 1) && book == Note(old(book), st)
      ensures State() == Created(old(State()), st) && nId == old(nIdCount)
    {
      CreatedSound(h, State(), book, loose, slack, st);
      nId := nIdCount;
      nIdCount := nIdCount + 1;
      mapInfo := mapInfo[nId := Info(st, 0, false, |vRandom|)];
      mapAddr := mapAddr[st.service.net := nId];
      vRandom := vRandom + [nId];
      book := Note(book, st);
    }

    method SwapRandom(nRndPos1: nat, nRndPos2: nat, ghost loose: set<NetAddr>, ghost slack: int)
      requires Between(loose, slack) && nRndPos1 < |vRandom| && nRndPos2 < |vRandom|
      modifies this`mapInfo, this`vRandom
      ensures Between(loose, slack)
      ensures vRandom == old(vRandom)[nRndPos1 := old(vRandom[nRndPos2])][nRndPos2 := old(vRandom[nRndPos1])]
      ensures SameButOrder(old(mapInfo), mapInfo)
    {
      if nRndPos1 == nRndPos2 {
        return;
      }
      SwappedSound(h, State(), book, loose, slack, nRndPos1, nRndPos2);
      var nId1, nId2 := vRandom[nRndPos1], vRandom[nRndPos2];
      assert nId1 in mapInfo && nId2 in mapInfo;
      mapInfo := mapInfo[nId1 := mapInfo[nId1].(nRandomPos := nRndPos2)];
      mapInfo := mapInfo[nId2 := mapInfo[nId2].(nRandomPos := nRndPos1)];
      vRandom := vRandom[nRndPos1 := nId2];
      vRandom := vRandom[nRndPos2 := nId1];
    }

    /** Deletes an entry that is in no table. */
    method Delete(nId: int, ghost loose: set<NetAddr>, ghost slack: int)
      requires Between(loose, slack) && nId in mapInfo && !mapInfo[nId].fInTried && mapInfo[nId].nRefCount == 0
      modifies this
      ensures Between(loose - {old(mapInfo[nId].Net())}, slack) && book == Forget(old(book), old(mapInfo[nId].Net()))
      ensures mapAddr == old(mapAddr) - {old(mapInfo[nId].Net())}
    {
      EntryLinked(h, State(), book, slack, nId);
      SwapRandom(mapInfo[nId].nRandomPos, |vRandom| - 1, loose, slack);
      assert SameEntry(old(mapInfo), mapInfo, nId);
      LastDropped(nId, loose, slack);
      EraseLast(nId);
    }

    lemma {:induction false} LastDropped(nId: int, loose: set<NetAddr>, slack: int)
      requires Between(loose, slack) && nId in mapInfo && !mapInfo[nId].fInTried && mapInfo[nId].nRefCount == 0
      requires |vRandom| > 0 && vRandom[|vRandom| - 1] == nId
      ensures Sound(h, Dropped(State(), nId), Forget(book, mapInfo[nId].Net()), loose - {mapInfo[nId].Net()}, slack)
    {
      assert HasEntry(mapInfo, vRandom, |vRandom| - 1);
      DroppedSound(h, State(), book, loose, slack, nId);
    }

    method EraseLast(nId: int)
      requires nId in mapInfo && |vRandom| > 0
      modifies this
      ensures State() == Dropped(old(State()), nId) && book == Forget(old(book), old(mapInfo[nId].Net()))
    {
      vRandom := vRandom[..|vRandom| - 1];
      book := Forget(book, mapInfo[nId].Net());
      mapAddr := mapAddr - {mapInfo[nId].Net()};
      mapInfo := mapInfo - {nId};
      nNew := nNew - 1;
    }

    // ---------------------------------------------------------------- slots

    method LeaveNewSlot(slot: Slot)
      requires slot in vvNew && vvNew[slot] in mapInfo
      modifies this`mapInfo, this`vvNew, this`book
      ensures State() == Vacated(old(State()), slot) && book == Vacate(old(book), slot)
    {
      var nId := vvNew[slot];
      mapInfo := mapInfo[nId := mapInfo[nId].(nRefCount := mapInfo[nId].nRefCount - 1)];
      vvNew := vvNew - {slot};
      book := Vacate(book, slot);
    }

    method TakeNewSlot(slot: Slot, nId: int)
      requires nId in mapInfo
      modifies this`mapInfo, this`vvNew, this`book
      ensures State() == Placed(old(State()), slot, nId) && book == Place(old(book), slot, mapInfo[nId].Net())
    {
      mapInfo := mapInfo[nId := mapInfo[nId].(nRefCount := mapInfo[nId].nRefCount + 1)];
      vvNew := vvNew[slot := nId];
      book := Place(book, slot, mapInfo[nId].Net());
    }

    method LeaveTriedSlot(slot: Slot)
      requires slot in vvTried && vvTried[slot] in mapInfo
      modifies this`mapInfo, this`vvTried, this`nTried, this`book
      ensures State() == Demoted(old(State()), slot) && book == Demote(old(book), slot)
    {
      var nId := vvTried[slot];
      mapInfo := mapInfo[nId := mapInfo[nId].(fInTried := false)];
      vvTried := vvTried - {slot};
      nTried := nTried - 1;
      book := Demote(book, slot);
    }

    method TakeTriedSlot(slot: Slot, nId: int)
      requires nId in mapInfo
      modifies this`mapInfo, this`vvTried, this`nTried, this`book
      ensures State() == Promoted(old(State()), slot, nId) && book == Promote(old(book), slot, mapInfo[nId].Net())
    {
      vvTried := vvTried[slot := nId];
      nTried := nTried + 1;
      mapInfo := mapInfo[nId := mapInfo[nId].(fInTried := true)];
      book := Promote(book, slot, mapInfo[nId].Net());
    }

    /** Empties a slot of the new table, and deletes the entry if that was its last. */
    method ClearNew(slot: Slot, ghost loose: set<NetAddr>, ghost slack: int)
      requires Between(loose, slack) && (slot in book.untried ==> book.untried[slot] !in loose)
      modifies this
      ensures Between(loose, slack) && book == Cleared(h, old(book), slot) && slot !in vvNew
      ensures KeepsIds(old(mapAddr), mapAddr)
    {
      NewSlotFound(h, State(), book, slack, slot);
      if slot in vvNew {
        var nIdDelete := vvNew[slot];
        ghost var a := book.untried[slot];
        VacatedSound(h, State(), book, loose, slack, slot);
        assert mapInfo[nIdDelete].nRefCount > 0;
        LeaveNewSlot(slot);
        EntryLinked(h, State(), book, slack, nIdDelete);
        if mapInfo[nIdDelete].nRefCount == 0 {
          Delete(nIdDelete, loose + {a}, slack);
          assert loose + {a} - {a} == loose;
        } else {
          LooseOk(h, book, loose + {a}, a, loose);
        }
        NewSlotFound(h, State(), book, slack, slot);
      }
    }

    // ---------------------------------------------------------------- moving to the tried table

    /** Removes an entry from all new buckets. */
    method LeaveAllNew(nId: int)
      requires Valid() && nId in mapInfo && !mapInfo[nId].fInTried
      modifies this`mapInfo, this`vvNew, this`book
      ensures Between({old(mapInfo[nId].Net())}, 0) && nId in mapInfo && mapInfo[nId].Net() == old(mapInfo[nId].Net())
      ensures book == old(book).(untried := Without(old(book).untried, old(mapInfo[nId].Net()), h.newBuckets))
    {
      ghost var a, b := mapInfo[nId].Net(), book;
      EntryLinked(h, State(), book, 0, nId);
      LoosenOk(h, book, {}, a);
      assert {} + {a} == {a};
      WithoutNone(b.untried, a);
      for bucket := 0 to h.newBuckets
        invariant Between({a}, 0) && a in b.stats && b.stats == book.stats && b.tried == book.tried
        invariant mapAddr == old(mapAddr) && a in mapAddr && mapAddr[a] == nId
        invariant book.untried == Without(b.untried, a, bucket)
      {
        LeaveBucket(nId, bucket, a, b);
      }
      NameFound(h, State(), book, 0, a);
    }

    /** Removes an entry from one new bucket. */
    method LeaveBucket(nId: int, bucket: nat, ghost a: NetAddr, ghost b: Book)
      requires Between({a}, 0) && UntriedOk(h, b) && a in b.stats && b.stats == book.stats
      requires a in mapAddr && mapAddr[a] == nId && book.untried == Without(b.untried, a, bucket)
      modifies this`mapInfo, this`vvNew, this`book
      ensures Between({a}, 0) && book == old(book).(untried := Without(b.untried, a, bucket + 1))
    {
      NameFound(h, State(), book, 0, a);
      EntryLinked(h, State(), book, 0, nId);
      var slot := h.NewSlot(mapInfo[nId].stats.service, bucket);
      NewSlotFound(h, State(), book, 0, slot);
      WithoutStep(h, b, a, bucket, slot);
      if slot in vvNew && vvNew[slot] == nId {
        VacatedSound(h, State(), book, {a}, 0, slot);
        assert {a} + {a} == {a};
        LeaveNewSlot(slot);
      } else if slot in vvNew {
        EntryLinked(h, State(), book, 0, vvNew[slot]);
      }
    }

    /** An entry of its own: the identifier is still that of the address. */
    lemma {:induction false} StillThere(ids: Names, a: NetAddr, nId: int, slack: int)
      requires Linked(h, State(), book, slack) && KeepsIds(ids, mapAddr)
      requires a in book.stats && a in ids && ids[a] == nId
      ensures nId in mapInfo && mapInfo[nId].Net() == a && mapInfo[nId].stats == book.stats[a]
      ensures mapInfo[nId].nRefCount == RefCount(h, book, a) && mapInfo[nId].fInTried == IsTried(h, book, a)
    {
      NameFound(h, State(), book, slack, a);
      assert KeepsId(ids, mapAddr, a);
      EntryLinked(h, State(), book, slack, nId);
    }

    /** Moves what is in a slot of the tried table back to its own new bucket. */
    method Evict(slot: Slot, ghost a: NetAddr)
      requires Between({a}, 1) && slot in vvTried
      requires a in book.stats && RefCount(h, book, a) == 0 && !IsTried(h, book, a)
      modifies this
      ensures slot in old(book).tried && old(book).tried[slot] in old(book).stats
      ensures Between({a}, 1) && book == Returned(h, old(book), slot)
      ensures KeepsIds(old(mapAddr), mapAddr)
    {
      var nIdEvict := vvTried[slot];
      DemotedSound(h, State(), book, {a}, 1, slot);
      assert nIdEvict in mapInfo;
      ghost var e := book.tried[slot];
      EntryLinked(h, State(), book, 1, nIdEvict);
      LeaveTriedSlot(slot);
      EntryLinked(h, State(), book, 2, nIdEvict);
      InNoSlot(h, book, a, HomeSlot(h, book.stats[e]));
      GoHome(nIdEvict, {a} + {e}, 2, e);
      nNew := nNew + 1;
      assert {a} + {e} - {e} == {a};
    }

    /** Enters an entry without slots into its own new bucket. */
    method GoHome(nId: int, ghost loose: set<NetAddr>, ghost slack: int, ghost e: NetAddr)
      requires Between(loose, slack) && nId in mapInfo && e == mapInfo[nId].Net()
      requires !mapInfo[nId].fInTried && mapInfo[nId].nRefCount == 0
      requires var home := HomeSlot(h, mapInfo[nId].stats);
               home in book.untried && book.untried[home] != e ==> book.untried[home] !in loose
      modifies this
      ensures e in old(book).stats
      ensures var home := HomeSlot(h, old(book).stats[e]); book == Place(Cleared(h, old(book), home), home, e)
      ensures Between(loose - {e}, slack) && KeepsIds(old(mapAddr), mapAddr)
    {
      ghost var ids := mapAddr;
      EntryLinked(h, State(), book, slack, nId);
      var home := HomeSlot(h, mapInfo[nId].stats);
      InNoSlot(h, book, e, home);
      ClearedKeeps(h, book, home, e);
      ClearNew(home, loose, slack);
      assert home !in vvNew;
      StillThere(ids, e, nId, slack);
      PlacedSound(h, State(), book, loose, slack, home, nId);
      TakeNewSlot(home, nId);
    }

    /** Moves an entry from the new table to the tried table. */
    method MakeTried(nId: int)
      requires Valid() && nId in mapInfo && !mapInfo[nId].fInTried
      modifies this
      ensures Valid() && old(mapInfo[nId].Net()) in old(book).stats
      ensures book == MovedToTried(h, old(book), old(mapInfo[nId].Net()))
    {
      ghost var a := mapInfo[nId].Net();
      EntryLinked(h, State(), book, 0, nId);
      assert StatOk(book.stats, a);
      WithoutAll(h, book, a);
      LeaveAllNew(nId);
      EntryLinked(h, State(), book, 0, nId);
      nNew := nNew - 1;
      assert mapInfo[nId].nRefCount == 0;
      var slot := h.TriedSlot(mapInfo[nId].stats.service);
      ghost var ids := mapAddr;
      TriedSlotFound(h, State(), book, 1, slot);
      if slot in vvTried {
        assert TriedAt(h, book, slot);
        ReturnedKeeps(h, book, {a}, slot, a);
        Evict(slot, a);
        TriedSlotFound(h, State(), book, 1, slot);
        StillThere(ids, a, nId, 1);
      }
      assert slot !in vvTried;
      PromotedSound(h, State(), book, {a}, 1, slot, nId);
      TakeTriedSlot(slot, nId);
      assert {a} - {a} == {};
    }

    // ---------------------------------------------------------------- operations

    method Find(a: NetAddr) returns (found: bool, nId: int)
      requires Valid()
      ensures found <==> a in book.stats
      ensures found ==> nId in mapInfo && mapInfo[nId].Net() == a && mapInfo[nId].stats == book.stats[a]
      ensures found ==> mapInfo[nId].nRefCount == RefCount(h, book, a) && mapInfo[nId].fInTried == IsTried(h, book, a)
    {
      NameFound(h, State(), book, 0, a);
      found, nId := a in mapAddr, 0;
      if found {
        nId := mapAddr[a];
        EntryLinked(h, State(), book, 0, nId);
      }
    }

    method SetStats(nId: int, st: Stats, ghost loose: set<NetAddr>, ghost slack: int)
      requires Between(loose, slack) && nId in mapInfo && st.service == mapInfo[nId].stats.service
      modifies this`mapInfo, this`book
      ensures Between(loose, slack) && book == Note(old(book), st) && State() == Noted(old(State()), nId, st)
    {
      NotedSound(h, State(), book, loose, slack, nId, st);
      mapInfo := mapInfo[nId := mapInfo[nId].(stats := st)];
      book := Note(book, st);
    }

    /** Some new bucket has the entry. */
    method FindBucket(nId: int, nRnd: nat) returns (nUBucket: int)
      requires Valid() && nId in mapInfo && !mapInfo[nId].fInTried && nRnd < h.newBuckets
      ensures 0 <= nUBucket < h.newBuckets
      ensures var slot := h.NewSlot(mapInfo[nId].stats.service, nUBucket); slot in vvNew && vvNew[slot] == nId
    {
      ghost var s := mapInfo[nId].stats.service;
      EntryLinked(h, State(), book, 0, nId);
      assert Anchored(h, book, {}, s.net);
      nUBucket := -1;
      var n := 0;
      while n < h.newBuckets
        invariant 0 <= n <= h.newBuckets
        invariant forall k: nat :: k < n ==> Missed(h, book.untried, s, nRnd, k)
      {
        var nB := (n + nRnd) % h.newBuckets;
        var slot := h.NewSlot(mapInfo[nId].stats.service, nB);
        if slot in vvNew && vvNew[slot] == nId {
          return nB;
        }
        BucketMissed(h, State(), book, nId, nRnd, n);
        n := n + 1;
      }
      AllMissed(h, book.untried, s, nRnd);
      assert false;
    }

    /** Marks an address good: it moves to the tried table. */
    method Good_(s: Service, nTime: int, draw: nat)
      requires Valid()
      modifies this
      ensures Valid() && book == AfterGood(h, old(book), s, nTime)
      ensures if Knows(old(book), s)
              then GoodNoted(old(book), book, s, nTime) && GoodSeated(h, old(book), book, s)
              else book == old(book)
    {
      if Knows(book, s) {
        GoodNotes(h, book, s, nTime);
        GoodSeats(h, book, s, nTime);
      }
      var found, nId := Find(s.net);
      if !found || mapInfo[nId].stats.service != s {
        return;
      }
      SetStats(nId, mapInfo[nId].stats.(nLastSuccess := nTime, nLastTry := nTime, nAttempts := 0), {}, 0);
      EntryLinked(h, State(), book, 0, nId);
      if mapInfo[nId].fInTried {
        return;
      }
      var nUBucket := FindBucket(nId, draw % h.newBuckets);
      if nUBucket == -1 {
        return;
      }
      MakeTried(nId);
    }

    /** Marks a connection attempt. */
    method Attempt_(s: Service, nTime: int)
      requires Valid()
      modifies this
      ensures Valid() && book == AfterAttempt(old(book), s, nTime)
      ensures if Knows(old(book), s)
              then OnlyNoted(old(book), book, s.net) && Tried(old(book).stats[s.net], book.stats[s.net], nTime)
              else book == old(book)
    {
      AttemptNotes(h, book, s, nTime);
      var found, nId := Find(s.net);
      if !found || mapInfo[nId].stats.service != s {
        return;
      }
      assert StatOk(book.stats, s.net);
      SetStats(nId, mapInfo[nId].stats.(nLastTry := nTime, nAttempts := mapInfo[nId].stats.nAttempts + 1), {}, 0);
    }

    /** Marks an address as connected to. */
    method Connected_(s: Service, nTime: int)
      requires Valid()
      modifies this
      ensures Valid() && book == AfterConnected(old(book), s, nTime)
      ensures if Knows(old(book), s)
              then OnlyNoted(old(book), book, s.net) && Seen(old(book).stats[s.net], book.stats[s.net], nTime)
              else book == old(book)
    {
      ConnectedNotes(h, book, s, nTime);
      var found, nId := Find(s.net);
      if !found || mapInfo[nId].stats.service != s {
        return;
      }
      assert StatOk(book.stats, s.net);
      if nTime - mapInfo[nId].stats.nTime > 20 * 60 {
        SetStats(nId, mapInfo[nId].stats.(nTime := U32(nTime)), {}, 0);
      }
    }

    /** The new table has room for the entry in a slot, makes room, or refuses. */
    method TakeSeat(nId: int, slot: Slot, now: int, ghost a: NetAddr)
      requires Between(if RefCount(h, book, a) == 0 then {a} else {}, 0)
      requires nId in mapInfo && a == mapInfo[nId].Net() && InNewSlot(h, book, slot, a)
      requires !mapInfo[nId].fInTried && mapInfo[nId].nRefCount < MAX_REFS
      modifies this
      ensures Valid() && book == Seated(h, old(book), a, slot, now)
    {
      ghost var loose: set<NetAddr> := if RefCount(h, book, a) == 0 then {a} else {};
      ghost var ids := mapAddr;
      assert loose - {a} == {};
      EntryLinked(h, State(), book, 0, nId);
      NewSlotFound(h, State(), book, 0, slot);
      if slot in vvNew && vvNew[slot] == nId {
        VacatedSound(h, State(), book, loose, 0, slot);
        return;
      }
      var fInsert := slot !in vvNew;
      if !fInsert {
        EntryLinked(h, State(), book, 0, vvNew[slot]);
        var infoExisting := mapInfo[vvNew[slot]];
        if IsTerrible(infoExisting.stats, now) || (infoExisting.nRefCount > 1 && mapInfo[nId].nRefCount == 0) {
          fInsert := true;
        }
      }
      if fInsert {
        ClearedKeeps(h, book, slot, a);
        ClearNew(slot, loose, 0);
        StillThere(ids, a, nId, 0);
        PlacedSound(h, State(), book, loose, 0, slot, nId);
        TakeNewSlot(slot, nId);
      } else if mapInfo[nId].nRefCount == 0 {
        Delete(nId, loose, 0);
      }
    }

    /** The stochastic test: with `n` references one announcement in `2^n` counts. */
    method Factor(nRefCount: nat) returns (nFactor: nat)
      ensures nFactor == PowerOfTwo(nRefCount)
    {
      nFactor := 1;
      for n := 0 to nRefCount
        invariant nFactor == PowerOfTwo(n)
      {
        nFactor := nFactor * 2;
      }
    }

    /** Updates time and services of a known address. */
    method Renew(nId: int, addr: Announced, nTimePenalty: int, now: int)
      requires Valid() && nId in mapInfo && mapInfo[nId].Net() == addr.service.net
      modifies this`mapInfo, this`book
      ensures Valid() && nId in mapInfo && mapInfo[nId].Net() == addr.service.net && addr.service.net in old(book).stats
      ensures book == Note(old(book), Refreshed(old(book).stats[addr.service.net], addr, nTimePenalty, now))
    {
      EntryLinked(h, State(), book, 0, nId);
      assert StatOk(book.stats, addr.service.net);
      var st := mapInfo[nId].stats;
      var nUpdateInterval := if now - addr.nTime < 24 * 60 * 60 then 60 * 60 else 24 * 60 * 60;
      if addr.nTime != 0 && (st.nTime == 0 || st.nTime < addr.nTime - nUpdateInterval - nTimePenalty) {
        st := st.(nTime := U32(Max(0, addr.nTime - nTimePenalty)));
      }
      st := st.(nServices := st.nServices + addr.nServices);
      SetStats(nId, st, {}, 0);
    }

    /** Whether a known address gets another slot. */
    method Deserves(nId: int, addr: Announced, draw: nat) returns (more: bool)
      requires Valid() && nId in mapInfo && mapInfo[nId].Net() == addr.service.net
      ensures addr.service.net in book.stats && more == Welcome(h, book, addr.service.net, addr.nTime, draw)
    {
      EntryLinked(h, State(), book, 0, nId);
      var info := mapInfo[nId];
      if addr.nTime == 0 || (info.stats.nTime != 0 && addr.nTime <= info.stats.nTime) {
        return false;
      }
      if info.fInTried {
        return false;
      }
      if info.nRefCount == MAX_REFS {
        return false;
      }
      var nFactor := Factor(info.nRefCount);
      if nFactor > 1 && draw % nFactor != 0 {
        return false;
      }
      more := true;
    }

    /** Enters an address that nobody knew. */
    method Introduce(addr: Announced, source: NetAddr, nTimePenalty: int) returns (nId: int)
      requires Valid() && addr.service.net !in book.stats
      modifies this
      ensures Between({addr.service.net}, 0) && book == Note(old(book), Introduced(addr, source, nTimePenalty))
      ensures nId in mapInfo && mapInfo[nId].Net() == addr.service.net
      ensures !mapInfo[nId].fInTried && mapInfo[nId].nRefCount == 0
    {
      var a := addr.service.net;
      nId := Create(Stats(addr.service, addr.nServices, addr.nTime, source, 0, 0, 0), {}, 0);
      assert {} + {a} == {a};
      var st := mapInfo[nId].stats.(nTime := U32(Max(0, addr.nTime - nTimePenalty)));
      assert st == Introduced(addr, source, nTimePenalty);
      NoteTwice(old(book), mapInfo[nId].stats, st);
      SetStats(nId, st, {a}, 1);
      nNew := nNew + 1;
    }

    /** Adds an announced address to the new table; true if it was not known, though it may find no room. */
    method Add_(addr: Announced, source: NetAddr, nTimePenalty: int, now: int, routable: bool, draw: nat)
      returns (fNew: bool)
      requires Valid()
      modifies this
      ensures Valid() && (book, fNew) == AfterAdd(h, old(book), addr, source, nTimePenalty, now, routable, draw)
      ensures fNew <==> routable && addr.service.net !in old(book).stats
      ensures fNew ==>
        (addr.service.net in book.stats <==>
         HasRoom(h, old(book), h.NewSlot(addr.service, h.NewBucket(addr.service.net, source)), now))
      ensures if routable
              then AddNoted(old(book), book, addr, source, nTimePenalty, now)
                   && AddSeated(h, old(book), book, addr, source, now, draw)
              else book == old(book)
    {
      AddedStays(h, book, addr, source, nTimePenalty, now, routable, draw);
      AddNotes(h, book, addr, source, nTimePenalty, now, routable, draw);
      AddSeats(h, book, addr, source, nTimePenalty, now, draw);
      if !routable {
        return false;
      }
      var found, nId := Find(addr.service.net);
      if found {
        Renew(nId, addr, nTimePenalty, now);
        var more := Deserves(nId, addr, draw);
        if !more {
          return false;
        }
        fNew := false;
      } else {
        nId := Introduce(addr, source, nTimePenalty);
        fNew := true;
      }
      ghost var a := addr.service.net;
      EntryLinked(h, State(), book, 0, nId);
      assert Anchored(h, book, {}, a) || Anchored(h, book, {a}, a);
      var slot := h.NewSlot(mapInfo[nId].stats.service, h.NewBucket(addr.service.net, source));
      TakeSeat(nId, slot, now, a);
    }

    /** Shuffles the random order from the front and keeps what is not terrible until there is enough. */
    method Shuffle(nNodes: nat, now: int, draws: nat -> nat) returns (vAddr: seq<Stats>, n: nat)
      requires Valid()
      modifies this`mapInfo, this`vRandom
      ensures Valid() && n <= |vRandom| == |old(vRandom)|
      ensures vAddr == Kept(mapInfo, vRandom[..n], now) && |vAddr| <= nNodes && (|vAddr| < nNodes ==> n == |vRandom|)
    {
      vAddr, n := [], 0;
      while n < |vRandom| && |vAddr| < nNodes
        invariant Valid() && n <= |vRandom| == |old(vRandom)|
        invariant vAddr == Kept(mapInfo, vRandom[..n], now) && |vAddr| <= nNodes
        decreases |vRandom| - n
      {
        ghost var m, done := mapInfo, vRandom[..n];
        var nRndPos := draws(n) % (|vRandom| - n) + n;
        SwapRandom(n, nRndPos, {}, 0);
        assert vRandom[..n] == done && vRandom[..n + 1] == done + [vRandom[n]];
        KeptSame(m, mapInfo, done, now);
        assert HasEntry(mapInfo, vRandom, n);
        assert (done + [vRandom[n]])[..n] == done;
        var ai := mapInfo[vRandom[n]].stats;
        if !IsTerrible(ai, now) {
          vAddr := vAddr + [ai];
        }
        n := n + 1;
      }
    }

    lemma {:induction false} RandomApart()
      requires Valid()
      ensures Apart(mapInfo, vRandom)
    {
      forall j, k | 0 <= j < k < |vRandom| && vRandom[j] in mapInfo && vRandom[k] in mapInfo
        ensures mapInfo[vRandom[j]].Net() != mapInfo[vRandom[k]].Net()
      {
        assert HasEntry(mapInfo, vRandom, j) && HasEntry(mapInfo, vRandom, k);
        EntryLinked(h, State(), book, 0, vRandom[j]);
        EntryLinked(h, State(), book, 0, vRandom[k]);
      }
    }

    lemma {:induction false} KeptIsKnown(n: nat, now: int, i: nat)
      requires Valid() && n <= |vRandom| && i < |Kept(mapInfo, vRandom[..n], now)|
      ensures var st := Kept(mapInfo, vRandom[..n], now)[i];
              st.service.net in book.stats && book.stats[st.service.net] == st && !IsTerrible(st, now)
    {
      var k := KeptFrom(mapInfo, vRandom[..n], now, i);
      EntryLinked(h, State(), book, 0, vRandom[k]);
    }

    lemma {:induction false} KnownIsKept(now: int, a: NetAddr)
      requires Valid() && a in book.stats && !IsTerrible(book.stats[a], now)
      ensures book.stats[a] in Kept(mapInfo, vRandom, now)
    {
      NameFound(h, State(), book, 0, a);
      var id := mapAddr[a];
      EntryLinked(h, State(), book, 0, id);
      KeptHas(mapInfo, vRandom, now, mapInfo[id].nRandomPos);
    }

    /**
     * A random choice of addresses, none of them terrible and none twice; all such
     * addresses if they are fewer than allowed.
     */
    method GetAddr_(now: int, draws: nat -> nat) returns (vAddr: seq<Stats>)
      requires Valid()
      modifies this`mapInfo, this`vRandom
      ensures Valid() && |vAddr| <= 2500 && 100 * |vAddr| <= 23 * |vRandom| && NoRepeats(vAddr)
      ensures forall i :: 0 <= i < |vAddr| ==>
        vAddr[i].service.net in book.stats && book.stats[vAddr[i].service.net] == vAddr[i] && !IsTerrible(vAddr[i], now)
      ensures |vAddr| < 2500 && 100 * (|vAddr| + 1) <= 23 * |vRandom| ==>
        forall a :: a in book.stats && !IsTerrible(book.stats[a], now) ==> book.stats[a] in vAddr
    {
      var nNodes := 23 * |vRandom| / 100;
      if nNodes > 2500 {
        nNodes := 2500;
      }
      var n;
      vAddr, n := Shuffle(nNodes, now, draws);
      RandomApart();
      KeptApart(mapInfo, vRandom[..n], now);
      forall i | 0 <= i < |vAddr|
        ensures vAddr[i].service.net in book.stats && book.stats[vAddr[i].service.net] == vAddr[i]
          && !IsTerrible(vAddr[i], now)
      {
        KeptIsKnown(n, now, i);
      }
      if |vAddr| < nNodes {
        assert vRandom[..n] == vRandom;
        forall a | a in book.stats && !IsTerrible(book.stats[a], now)
          ensures book.stats[a] in vAddr
        {
          KnownIsKept(now, a);
        }
      }
    }
  }
}
