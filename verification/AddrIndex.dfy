/**
 * The linked indexes of the address manager as values, and how they follow the
 * address book: each change of the book with the change of the indexes that
 * goes with it.
 */
module AddrIndex {
  import opened AddrBook

  /** `CAddrInfo`. */
  datatype Info = Info(stats: Stats, nRefCount: int, fInTried: bool, nRandomPos: int) {
    function Net(): NetAddr {
      stats.service.net
    }
  }

  type Infos = map<int, Info>
  type Names = map<NetAddr, int>

  /** The fields of `CAddrMan`; a slot that holds -1 there is absent here. */
  datatype Index = Index(nIdCount: int, mapInfo: Infos, mapAddr: Names, vRandom: seq<int>,
                         nTried: int, vvTried: map<Slot, int>, nNew: int, vvNew: map<Slot, int>)

  const EMPTY_INDEX := Index(0, map[], map[], [], 0, map[], 0, map[])

  // ---------------------------------------------------------------- the links

  /** Identifiers and addresses match one to one. */
  ghost predicate IdsLinked(n: int, m: Infos, ids: Names, stats: map<NetAddr, Stats>) {
    n >= 0 && (forall a :: NameLinked(m, ids, stats, a)) && (forall id :: IdLinked(n, m, ids, id))
  }

  ghost predicate NameLinked(m: Infos, ids: Names, stats: map<NetAddr, Stats>, a: NetAddr) {
    && (a in stats <==> a in ids)
    && (a in ids ==> ids[a] in m && m[ids[a]].stats == stats[a] && m[ids[a]].Net() == a)
  }

  ghost predicate IdLinked(n: int, m: Infos, ids: Names, id: int) {
    id in m ==> 0 <= id < n && m[id].Net() in ids && ids[m[id].Net()] == id
  }

  /** Counts and marks of every entry are those of the tables. */
  ghost predicate MarksLinked(h: Layout, m: Infos, b: Book) {
    forall id :: Marked(h, m, b, id)
  }

  ghost predicate Marked(h: Layout, m: Infos, b: Book, id: int) {
    id in m ==> m[id].nRefCount == RefCount(h, b, m[id].Net()) && m[id].fInTried == IsTried(h, b, m[id].Net())
  }

  /** The random order lists every identifier once. */
  ghost predicate RandomLinked(m: Infos, v: seq<int>) {
    (forall id :: HasPosition(m, v, id)) && (forall k :: HasEntry(m, v, k))
  }

  ghost predicate HasPosition(m: Infos, v: seq<int>, id: int) {
    id in m ==> 0 <= m[id].nRandomPos < |v| && v[m[id].nRandomPos] == id
  }

  ghost predicate HasEntry(m: Infos, v: seq<int>, k: int) {
    0 <= k < |v| ==> v[k] in m && m[v[k]].nRandomPos == k
  }

  /** A table of identifiers shows a table of addresses. */
  ghost predicate TableLinked(mapAddr: Names, ids: map<Slot, int>, names: map<Slot, NetAddr>) {
    forall slot :: SlotLinked(mapAddr, ids, names, slot)
  }

  ghost predicate SlotLinked(mapAddr: Names, ids: map<Slot, int>, names: map<Slot, NetAddr>, slot: Slot) {
    && (slot in ids <==> slot in names)
    && (slot in names ==> names[slot] in mapAddr && ids[slot] == mapAddr[names[slot]])
  }

  /** The counters; `slack` entries are between the tables. */
  ghost predicate CountsLinked(x: Index, slack: int) {
    x.nTried == |x.vvTried| && x.nNew + x.nTried + slack == |x.vRandom|
  }

  ghost predicate Linked(h: Layout, x: Index, b: Book, slack: int) {
    && IdsLinked(x.nIdCount, x.mapInfo, x.mapAddr, b.stats)
    && MarksLinked(h, x.mapInfo, b)
    && RandomLinked(x.mapInfo, x.vRandom)
    && TableLinked(x.mapAddr, x.vvNew, b.untried)
    && TableLinked(x.mapAddr, x.vvTried, b.tried)
    && CountsLinked(x, slack)
  }

  ghost predicate Sound(h: Layout, x: Index, b: Book, loose: set<NetAddr>, slack: int) {
    BookOk(h, b, loose) && Linked(h, x, b, slack)
  }

  lemma {:induction false} EmptySound(h: Layout, x: Index)
    requires x == EMPTY_INDEX
    ensures Sound(h, x, EMPTY_BOOK, {}, 0)
  {
    EmptyOk(h);
  }

  // ---------------------------------------------------------------- looking up

  /** What the links say of one entry. */
  lemma {:induction false} EntryLinked(h: Layout, x: Index, b: Book, slack: int, id: int)
    requires Linked(h, x, b, slack) && id in x.mapInfo
    ensures var a := x.mapInfo[id].Net();
            && a in x.mapAddr && x.mapAddr[a] == id
            && a in b.stats && b.stats[a] == x.mapInfo[id].stats
            && x.mapInfo[id].nRefCount == RefCount(h, b, a) && x.mapInfo[id].fInTried == IsTried(h, b, a)
            && 0 <= x.mapInfo[id].nRandomPos < |x.vRandom| && x.vRandom[x.mapInfo[id].nRandomPos] == id
  {
    assert IdLinked(x.nIdCount, x.mapInfo, x.mapAddr, id) && Marked(h, x.mapInfo, b, id);
    assert NameLinked(x.mapInfo, x.mapAddr, b.stats, x.mapInfo[id].Net());
    assert HasPosition(x.mapInfo, x.vRandom, id);
  }

  lemma {:induction false} NameFound(h: Layout, x: Index, b: Book, slack: int, a: NetAddr)
    requires Linked(h, x, b, slack)
    ensures a in b.stats <==> a in x.mapAddr
    ensures a in x.mapAddr ==> x.mapAddr[a] in x.mapInfo && x.mapInfo[x.mapAddr[a]].Net() == a
  {
    assert NameLinked(x.mapInfo, x.mapAddr, b.stats, a);
  }

  lemma {:induction false} NewSlotFound(h: Layout, x: Index, b: Book, slack: int, slot: Slot)
    requires Linked(h, x, b, slack)
    ensures slot in x.vvNew <==> slot in b.untried
    ensures slot in x.vvNew ==> x.vvNew[slot] in x.mapInfo && x.mapInfo[x.vvNew[slot]].Net() == b.untried[slot]
  {
    assert SlotLinked(x.mapAddr, x.vvNew, b.untried, slot);
    if slot in b.untried { assert NameLinked(x.mapInfo, x.mapAddr, b.stats, b.untried[slot]); }
  }

  lemma {:induction false} TriedSlotFound(h: Layout, x: Index, b: Book, slack: int, slot: Slot)
    requires Linked(h, x, b, slack)
    ensures slot in x.vvTried <==> slot in b.tried
    ensures slot in x.vvTried ==> x.vvTried[slot] in x.mapInfo && x.mapInfo[x.vvTried[slot]].Net() == b.tried[slot]
  {
    assert SlotLinked(x.mapAddr, x.vvTried, b.tried, slot);
    if slot in b.tried { assert NameLinked(x.mapInfo, x.mapAddr, b.stats, b.tried[slot]); }
  }

  // ---------------------------------------------------------------- each index on its own

  lemma {:induction false} CardinalityPut<K, V>(m: map<K, V>, k: K, v: V)
    requires k !in m
    ensures |m[k := v]| == |m| + 1
  {
    assert m[k := v].Keys == m.Keys + {k};
  }

  lemma {:induction false} CardinalityRemove<K, V>(m: map<K, V>, k: K)
    requires k in m
    ensures |m - {k}| == |m| - 1
  {
    assert (m - {k}).Keys == m.Keys - {k};
  }

  lemma {:induction false} TablePut(mapAddr: Names, ids: map<Slot, int>, names: map<Slot, NetAddr>, slot: Slot,
                                    a: NetAddr)
    requires TableLinked(mapAddr, ids, names) && a in mapAddr
    ensures TableLinked(mapAddr, ids[slot := mapAddr[a]], names[slot := a])
  {
    var ids', names' := ids[slot := mapAddr[a]], names[slot := a];
    forall s ensures SlotLinked(mapAddr, ids', names', s) {
      assert SlotLinked(mapAddr, ids, names, s);
    }
  }

  lemma {:induction false} TableRemove(mapAddr: Names, ids: map<Slot, int>, names: map<Slot, NetAddr>, slot: Slot)
    requires TableLinked(mapAddr, ids, names)
    ensures TableLinked(mapAddr, ids - {slot}, names - {slot})
  {
    forall s ensures SlotLinked(mapAddr, ids - {slot}, names - {slot}, s) {
      assert SlotLinked(mapAddr, ids, names, s);
    }
  }

  lemma {:induction false} TableLearn(mapAddr: Names, ids: map<Slot, int>, names: map<Slot, NetAddr>, a: NetAddr,
                                      id: int)
    requires TableLinked(mapAddr, ids, names) && a !in mapAddr
    ensures TableLinked(mapAddr[a := id], ids, names)
  {
    var mapAddr' := mapAddr[a := id];
    forall s ensures SlotLinked(mapAddr', ids, names, s) {
      assert SlotLinked(mapAddr, ids, names, s);
    }
  }

  /** An entry changes, but not what is known of its address. */
  lemma {:induction false} EntryIds(n: int, m: Infos, ids: Names, stats: map<NetAddr, Stats>, id: int, i: Info)
    requires IdsLinked(n, m, ids, stats) && id in m && i.stats == m[id].stats
    ensures IdsLinked(n, m[id := i], ids, stats)
  {
    var m' := m[id := i];
    forall k ensures IdLinked(n, m', ids, k) { assert IdLinked(n, m, ids, k); }
    forall a ensures NameLinked(m', ids, stats, a) { assert NameLinked(m, ids, stats, a); }
  }

  /** An entry changes, but not its place in the random order. */
  lemma {:induction false} EntryRandom(m: Infos, v: seq<int>, id: int, i: Info)
    requires RandomLinked(m, v) && id in m && i.nRandomPos == m[id].nRandomPos
    ensures RandomLinked(m[id := i], v)
  {
    var m' := m[id := i];
    forall k ensures HasPosition(m', v, k) { assert HasPosition(m, v, k); }
    forall k ensures HasEntry(m', v, k) { assert HasEntry(m, v, k); }
  }

  /** An entry changes, but not its count and mark. */
  lemma {:induction false} EntryMarks(h: Layout, m: Infos, b: Book, id: int, i: Info)
    requires MarksLinked(h, m, b) && id in m && i == m[id].(nRandomPos := i.nRandomPos)
    ensures MarksLinked(h, m[id := i], b)
  {
    var m' := m[id := i];
    forall k ensures Marked(h, m', b, k) { assert Marked(h, m, b, k); }
  }

  // ---------------------------------------------------------------- changes of one entry

  function Created(x: Index, st: Stats): Index {
    var id := x.nIdCount;
    x.(nIdCount := id + 1,
       mapInfo := x.mapInfo[id := Info(st, 0, false, |x.vRandom|)],
       mapAddr := x.mapAddr[st.service.net := id],
       vRandom := x.vRandom + [id])
  }

  lemma {:induction false} CreatedIds(n: int, m: Infos, ids: Names, stats: map<NetAddr, Stats>, i: Info)
    requires IdsLinked(n, m, ids, stats) && i.Net() !in stats
    ensures IdsLinked(n + 1, m[n := i], ids[i.Net() := n], stats[i.Net() := i.stats]) && n !in m
  {
    assert IdLinked(n, m, ids, n);
    var m', ids', stats', n' := m[n := i], ids[i.Net() := n], stats[i.Net() := i.stats], n + 1;
    forall id ensures IdLinked(n', m', ids', id) {
      assert IdLinked(n, m, ids, id);
      assert NameLinked(m, ids, stats, i.Net());
    }
    forall a ensures NameLinked(m', ids', stats', a) {
      assert NameLinked(m, ids, stats, a);
    }
  }

  lemma {:induction false} CreatedMarks(h: Layout, x: Index, b: Book, i: Info)
    requires IdsLinked(x.nIdCount, x.mapInfo, x.mapAddr, b.stats) && MarksLinked(h, x.mapInfo, b)
    requires i.Net() !in b.stats && i.nRefCount == 0 && !i.fInTried
    requires RefCount(h, Note(b, i.stats), i.Net()) == 0 && !IsTried(h, Note(b, i.stats), i.Net())
    ensures MarksLinked(h, x.mapInfo[x.nIdCount := i], Note(b, i.stats))
  {
    var m' := x.mapInfo[x.nIdCount := i];
    forall id ensures Marked(h, m', Note(b, i.stats), id) {
      assert Marked(h, x.mapInfo, b, id) && IdLinked(x.nIdCount, x.mapInfo, x.mapAddr, id);
      assert NameLinked(x.mapInfo, x.mapAddr, b.stats, i.Net());
    }
  }

  lemma {:induction false} CreatedRandom(m: Infos, v: seq<int>, n: int, i: Info)
    requires RandomLinked(m, v) && n !in m && i.nRandomPos == |v|
    ensures RandomLinked(m[n := i], v + [n])
  {
    var m', v' := m[n := i], v + [n];
    forall k ensures HasPosition(m', v', k) { assert HasPosition(m, v, k); }
    forall k ensures HasEntry(m', v', k) { assert HasEntry(m, v, k); }
  }

  lemma {:induction false} CreatedSound(h: Layout, x: Index, b: Book, loose: set<NetAddr>, slack: int, st: Stats)
    requires Sound(h, x, b, loose, slack) && st.service.net !in b.stats
    ensures Sound(h, Created(x, st), Note(b, st), loose + {st.service.net}, slack + 1)
  {
    var i := Info(st, 0, false, |x.vRandom|);
    NameFound(h, x, b, slack, st.service.net);
    LearnOk(h, b, loose, st);
    LearnRefs(h, b, st);
    CreatedIds(x.nIdCount, x.mapInfo, x.mapAddr, b.stats, i);
    CreatedMarks(h, x, b, i);
    CreatedRandom(x.mapInfo, x.vRandom, x.nIdCount, i);
    TableLearn(x.mapAddr, x.vvNew, b.untried, st.service.net, x.nIdCount);
    TableLearn(x.mapAddr, x.vvTried, b.tried, st.service.net, x.nIdCount);
  }

  /** Other data of the same entry. */
  function Noted(x: Index, id: int, st: Stats): Index
    requires id in x.mapInfo
  {
    x.(mapInfo := x.mapInfo[id := x.mapInfo[id].(stats := st)])
  }

  lemma {:induction false} NotedMarks(h: Layout, m: Infos, b: Book, id: int, i: Info)
    requires MarksLinked(h, m, b) && id in m && i == m[id].(stats := i.stats)
    requires i.Net() in b.stats && i.stats.service == m[id].stats.service == b.stats[i.Net()].service
    ensures MarksLinked(h, m[id := i], Note(b, i.stats))
  {
    var m' := m[id := i];
    forall k ensures Marked(h, m', Note(b, i.stats), k) { assert Marked(h, m, b, k); }
  }

  lemma {:induction false} NotedIds(n: int, m: Infos, ids: Names, stats: map<NetAddr, Stats>, id: int, i: Info)
    requires IdsLinked(n, m, ids, stats) && id in m && i.Net() == m[id].Net()
    ensures IdsLinked(n, m[id := i], ids, stats[i.Net() := i.stats])
  {
    assert IdLinked(n, m, ids, id);
    var m', stats' := m[id := i], stats[i.Net() := i.stats];
    forall k ensures IdLinked(n, m', ids, k) { assert IdLinked(n, m, ids, k); }
    forall a ensures NameLinked(m', ids, stats', a) { assert NameLinked(m, ids, stats, a); }
  }

  lemma {:induction false} NotedSound(h: Layout, x: Index, b: Book, loose: set<NetAddr>, slack: int, id: int, st: Stats)
    requires Sound(h, x, b, loose, slack) && id in x.mapInfo && st.service == x.mapInfo[id].stats.service
    ensures Sound(h, Noted(x, id, st), Note(b, st), loose, slack)
  {
    var i := x.mapInfo[id].(stats := st);
    EntryLinked(h, x, b, slack, id);
    NoteOk(h, b, loose, st);
    NotedIds(x.nIdCount, x.mapInfo, x.mapAddr, b.stats, id, i);
    EntryRandom(x.mapInfo, x.vRandom, id, i);
    NotedMarks(h, x.mapInfo, b, id, i);
  }

  function Swapped(x: Index, i: nat, j: nat): Index
    requires i < |x.vRandom| && j < |x.vRandom| && x.vRandom[i] in x.mapInfo && x.vRandom[j] in x.mapInfo
  {
    var p, q := x.vRandom[i], x.vRandom[j];
    var m := x.mapInfo[p := x.mapInfo[p].(nRandomPos := j)];
    x.(mapInfo := m[q := m[q].(nRandomPos := i)], vRandom := x.vRandom[i := q][j := p])
  }

  lemma {:induction false} SwappedRandom(x: Index, i: nat, j: nat)
    requires RandomLinked(x.mapInfo, x.vRandom) && i < |x.vRandom| && j < |x.vRandom|
    ensures x.vRandom[i] in x.mapInfo && x.vRandom[j] in x.mapInfo
    ensures RandomLinked(Swapped(x, i, j).mapInfo, Swapped(x, i, j).vRandom)
  {
    assert HasEntry(x.mapInfo, x.vRandom, i) && HasEntry(x.mapInfo, x.vRandom, j);
    var x' := Swapped(x, i, j);
    forall id ensures HasPosition(x'.mapInfo, x'.vRandom, id) { assert HasPosition(x.mapInfo, x.vRandom, id); }
    forall k ensures HasEntry(x'.mapInfo, x'.vRandom, k) { assert HasEntry(x.mapInfo, x.vRandom, k); }
  }

  lemma {:induction false} SwappedSound(h: Layout, x: Index, b: Book, loose: set<NetAddr>, slack: int, i: nat, j: nat)
    requires Sound(h, x, b, loose, slack) && i < |x.vRandom| && j < |x.vRandom|
    ensures x.vRandom[i] in x.mapInfo && x.vRandom[j] in x.mapInfo
    ensures Sound(h, Swapped(x, i, j), b, loose, slack)
  {
    SwappedRandom(x, i, j);
    var p, q := x.vRandom[i], x.vRandom[j];
    var s := x.mapInfo[p].(nRandomPos := j);
    var m := x.mapInfo[p := s];
    EntryIds(x.nIdCount, x.mapInfo, x.mapAddr, b.stats, p, s);
    EntryIds(x.nIdCount, m, x.mapAddr, b.stats, q, m[q].(nRandomPos := i));
    EntryMarks(h, x.mapInfo, b, p, s);
    EntryMarks(h, m, b, q, m[q].(nRandomPos := i));
  }

  /** The entry that is last in the random order is dropped. */
  function Dropped(x: Index, id: int): Index
    requires |x.vRandom| > 0 && id in x.mapInfo
  {
    x.(mapInfo := x.mapInfo - {id}, mapAddr := x.mapAddr - {x.mapInfo[id].Net()},
       vRandom := x.vRandom[..|x.vRandom| - 1], nNew := x.nNew - 1)
  }

  lemma {:induction false} DroppedRandom(m: Infos, v: seq<int>, id: int)
    requires RandomLinked(m, v) && id in m && m[id].nRandomPos == |v| - 1
    ensures |v| > 0 && v[|v| - 1] == id && RandomLinked(m - {id}, v[..|v| - 1])
  {
    assert HasPosition(m, v, id);
    var v' := v[..|v| - 1];
    forall k ensures HasPosition(m - {id}, v', k) { assert HasPosition(m, v, k); }
    forall k ensures HasEntry(m - {id}, v', k) { assert HasEntry(m, v, k); }
  }

  lemma {:induction false} DroppedIds(n: int, m: Infos, ids: Names, stats: map<NetAddr, Stats>, id: int, a: NetAddr)
    requires IdsLinked(n, m, ids, stats) && id in m && a == m[id].Net()
    ensures IdsLinked(n, m - {id}, ids - {a}, stats - {a})
  {
    assert IdLinked(n, m, ids, id);
    forall k ensures IdLinked(n, m - {id}, ids - {a}, k) { assert IdLinked(n, m, ids, k); }
    forall c ensures NameLinked(m - {id}, ids - {a}, stats - {a}, c) { assert NameLinked(m, ids, stats, c); }
  }

  lemma {:induction false} DroppedMarks(h: Layout, x: Index, b: Book, id: int, a: NetAddr)
    requires IdsLinked(x.nIdCount, x.mapInfo, x.mapAddr, b.stats) && MarksLinked(h, x.mapInfo, b)
    requires id in x.mapInfo && a == x.mapInfo[id].Net()
    ensures MarksLinked(h, x.mapInfo - {id}, Forget(b, a))
  {
    assert IdLinked(x.nIdCount, x.mapInfo, x.mapAddr, id);
    forall k ensures Marked(h, x.mapInfo - {id}, Forget(b, a), k) {
      assert Marked(h, x.mapInfo, b, k) && IdLinked(x.nIdCount, x.mapInfo, x.mapAddr, k);
    }
  }

  lemma {:induction false} DroppedTables(h: Layout, x: Index, b: Book, a: NetAddr)
    requires StatsOk(b.stats) && UntriedOk(h, b) && TriedOk(h, b)
    requires a in b.stats && RefCount(h, b, a) == 0 && !IsTried(h, b, a)
    requires TableLinked(x.mapAddr, x.vvNew, b.untried) && TableLinked(x.mapAddr, x.vvTried, b.tried)
    ensures TableLinked(x.mapAddr - {a}, x.vvNew, b.untried) && TableLinked(x.mapAddr - {a}, x.vvTried, b.tried)
  {
    forall s ensures SlotLinked(x.mapAddr - {a}, x.vvNew, b.untried, s) {
      assert SlotLinked(x.mapAddr, x.vvNew, b.untried, s);
      InNoSlot(h, b, a, s);
    }
    forall s ensures SlotLinked(x.mapAddr - {a}, x.vvTried, b.tried, s) {
      assert SlotLinked(x.mapAddr, x.vvTried, b.tried, s);
      InNoSlot(h, b, a, s);
    }
  }

  lemma {:induction false} DroppedSound(h: Layout, x: Index, b: Book, loose: set<NetAddr>, slack: int, id: int)
    requires Sound(h, x, b, loose, slack) && id in x.mapInfo && x.mapInfo[id].nRandomPos == |x.vRandom| - 1
    requires x.mapInfo[id].nRefCount == 0 && !x.mapInfo[id].fInTried
    ensures |x.vRandom| > 0 && x.vRandom[|x.vRandom| - 1] == id
    ensures Sound(h, Dropped(x, id), Forget(b, x.mapInfo[id].Net()), loose - {x.mapInfo[id].Net()}, slack)
  {
    var a := x.mapInfo[id].Net();
    EntryLinked(h, x, b, slack, id);
    ForgetOk(h, b, loose, a);
    DroppedTables(h, x, b, a);
    DroppedRandom(x.mapInfo, x.vRandom, id);
    DroppedIds(x.nIdCount, x.mapInfo, x.mapAddr, b.stats, id, a);
    DroppedMarks(h, x, b, id, a);
  }

  // ---------------------------------------------------------------- changes of one slot

  function Placed(x: Index, slot: Slot, id: int): Index
    requires id in x.mapInfo
  {
    x.(mapInfo := x.mapInfo[id := x.mapInfo[id].(nRefCount := x.mapInfo[id].nRefCount + 1)],
       vvNew := x.vvNew[slot := id])
  }

  lemma {:induction false} PlacedMarks(h: Layout, x: Index, b: Book, slot: Slot, id: int, a: NetAddr)
    requires StatsOk(b.stats) && IdsLinked(x.nIdCount, x.mapInfo, x.mapAddr, b.stats) && MarksLinked(h, x.mapInfo, b)
    requires id in x.mapInfo && a == x.mapInfo[id].Net() && InNewSlot(h, b, slot, a) && slot !in b.untried
    ensures MarksLinked(h, Placed(x, slot, id).mapInfo, Place(b, slot, a))
  {
    assert IdLinked(x.nIdCount, x.mapInfo, x.mapAddr, id);
    forall k ensures Marked(h, Placed(x, slot, id).mapInfo, Place(b, slot, a), k) {
      assert Marked(h, x.mapInfo, b, k) && IdLinked(x.nIdCount, x.mapInfo, x.mapAddr, k);
      if k in x.mapInfo {
        assert NameLinked(x.mapInfo, x.mapAddr, b.stats, x.mapInfo[k].Net());
        PlaceRefs(h, b, slot, a, x.mapInfo[k].Net());
      }
    }
  }

  lemma {:induction false} PlacedSound(h: Layout, x: Index, b: Book, loose: set<NetAddr>, slack: int, slot: Slot,
                                       id: int)
    requires Sound(h, x, b, loose, slack) && id in x.mapInfo && slot !in x.vvNew
    requires InNewSlot(h, b, slot, x.mapInfo[id].Net())
    requires !x.mapInfo[id].fInTried && x.mapInfo[id].nRefCount < MAX_REFS
    ensures Sound(h, Placed(x, slot, id), Place(b, slot, x.mapInfo[id].Net()), loose - {x.mapInfo[id].Net()}, slack)
  {
    var a, i := x.mapInfo[id].Net(), Placed(x, slot, id).mapInfo[id];
    EntryLinked(h, x, b, slack, id);
    NewSlotFound(h, x, b, slack, slot);
    PlaceOk(h, b, loose, slot, a);
    PlacedMarks(h, x, b, slot, id, a);
    TablePut(x.mapAddr, x.vvNew, b.untried, slot, a);
    EntryIds(x.nIdCount, x.mapInfo, x.mapAddr, b.stats, id, i);
    EntryRandom(x.mapInfo, x.vRandom, id, i);
  }

  function Vacated(x: Index, slot: Slot): Index
    requires slot in x.vvNew && x.vvNew[slot] in x.mapInfo
  {
    var id := x.vvNew[slot];
    x.(mapInfo := x.mapInfo[id := x.mapInfo[id].(nRefCount := x.mapInfo[id].nRefCount - 1)],
       vvNew := x.vvNew - {slot})
  }

  lemma {:induction false} VacatedMarks(h: Layout, x: Index, b: Book, slot: Slot, a: NetAddr)
    requires StatsOk(b.stats) && UntriedOk(h, b)
    requires IdsLinked(x.nIdCount, x.mapInfo, x.mapAddr, b.stats) && MarksLinked(h, x.mapInfo, b)
    requires slot in x.vvNew && slot in b.untried && a == b.untried[slot]
    requires x.vvNew[slot] in x.mapInfo && x.mapInfo[x.vvNew[slot]].Net() == a
    ensures MarksLinked(h, Vacated(x, slot).mapInfo, Vacate(b, slot))
  {
    assert IdLinked(x.nIdCount, x.mapInfo, x.mapAddr, x.vvNew[slot]);
    forall k ensures Marked(h, Vacated(x, slot).mapInfo, Vacate(b, slot), k) {
      assert Marked(h, x.mapInfo, b, k) && IdLinked(x.nIdCount, x.mapInfo, x.mapAddr, k);
      if k in x.mapInfo {
        assert NameLinked(x.mapInfo, x.mapAddr, b.stats, x.mapInfo[k].Net());
        VacateRefs(h, b, slot, x.mapInfo[k].Net());
      }
    }
  }

  lemma {:induction false} VacatedSound(h: Layout, x: Index, b: Book, loose: set<NetAddr>, slack: int, slot: Slot)
    requires Sound(h, x, b, loose, slack) && slot in x.vvNew
    ensures slot in b.untried && x.vvNew[slot] in x.mapInfo && b.untried[slot] == x.mapInfo[x.vvNew[slot]].Net()
    ensures x.mapInfo[x.vvNew[slot]].nRefCount > 0 && !x.mapInfo[x.vvNew[slot]].fInTried
    ensures Sound(h, Vacated(x, slot), Vacate(b, slot), loose + {b.untried[slot]}, slack)
  {
    NewSlotFound(h, x, b, slack, slot);
    var id := x.vvNew[slot];
    var i := Vacated(x, slot).mapInfo[id];
    EntryLinked(h, x, b, slack, id);
    VacateOk(h, b, loose, slot);
    VacatedMarks(h, x, b, slot, b.untried[slot]);
    TableRemove(x.mapAddr, x.vvNew, b.untried, slot);
    EntryIds(x.nIdCount, x.mapInfo, x.mapAddr, b.stats, id, i);
    EntryRandom(x.mapInfo, x.vRandom, id, i);
  }

  function Promoted(x: Index, slot: Slot, id: int): Index
    requires id in x.mapInfo
  {
    x.(mapInfo := x.mapInfo[id := x.mapInfo[id].(fInTried := true)],
       vvTried := x.vvTried[slot := id], nTried := x.nTried + 1)
  }

  lemma {:induction false} PromotedMarks(h: Layout, x: Index, b: Book, slot: Slot, id: int, a: NetAddr)
    requires IdsLinked(x.nIdCount, x.mapInfo, x.mapAddr, b.stats) && MarksLinked(h, x.mapInfo, b)
    requires id in x.mapInfo && a == x.mapInfo[id].Net() && InTriedSlot(h, b, slot, a) && slot !in b.tried
    ensures MarksLinked(h, Promoted(x, slot, id).mapInfo, Promote(b, slot, a))
  {
    assert IdLinked(x.nIdCount, x.mapInfo, x.mapAddr, id);
    forall k ensures Marked(h, Promoted(x, slot, id).mapInfo, Promote(b, slot, a), k) {
      assert Marked(h, x.mapInfo, b, k) && IdLinked(x.nIdCount, x.mapInfo, x.mapAddr, k);
    }
  }

  lemma {:induction false} PromotedSound(h: Layout, x: Index, b: Book, loose: set<NetAddr>, slack: int, slot: Slot,
                                         id: int)
    requires Sound(h, x, b, loose, slack) && id in x.mapInfo && slot !in x.vvTried
    requires InTriedSlot(h, b, slot, x.mapInfo[id].Net()) && x.mapInfo[id].nRefCount == 0
    ensures Sound(h, Promoted(x, slot, id), Promote(b, slot, x.mapInfo[id].Net()), loose - {x.mapInfo[id].Net()},
                  slack - 1)
  {
    var a, i := x.mapInfo[id].Net(), Promoted(x, slot, id).mapInfo[id];
    EntryLinked(h, x, b, slack, id);
    TriedSlotFound(h, x, b, slack, slot);
    PromoteOk(h, b, loose, slot, a);
    PromotedMarks(h, x, b, slot, id, a);
    CardinalityPut(x.vvTried, slot, id);
    TablePut(x.mapAddr, x.vvTried, b.tried, slot, a);
    EntryIds(x.nIdCount, x.mapInfo, x.mapAddr, b.stats, id, i);
    EntryRandom(x.mapInfo, x.vRandom, id, i);
  }

  function Demoted(x: Index, slot: Slot): Index
    requires slot in x.vvTried && x.vvTried[slot] in x.mapInfo
  {
    var id := x.vvTried[slot];
    x.(mapInfo := x.mapInfo[id := x.mapInfo[id].(fInTried := false)],
       vvTried := x.vvTried - {slot}, nTried := x.nTried - 1)
  }

  lemma {:induction false} DemotedMarks(h: Layout, x: Index, b: Book, slot: Slot, a: NetAddr)
    requires IdsLinked(x.nIdCount, x.mapInfo, x.mapAddr, b.stats) && MarksLinked(h, x.mapInfo, b)
    requires slot in x.vvTried && slot in b.tried && a == b.tried[slot] && InTriedSlot(h, b, slot, a)
    requires x.vvTried[slot] in x.mapInfo && x.mapInfo[x.vvTried[slot]].Net() == a
    ensures MarksLinked(h, Demoted(x, slot).mapInfo, Demote(b, slot))
  {
    assert IdLinked(x.nIdCount, x.mapInfo, x.mapAddr, x.vvTried[slot]);
    forall k ensures Marked(h, Demoted(x, slot).mapInfo, Demote(b, slot), k) {
      assert Marked(h, x.mapInfo, b, k) && IdLinked(x.nIdCount, x.mapInfo, x.mapAddr, k);
    }
  }

  lemma {:induction false} DemotedSound(h: Layout, x: Index, b: Book, loose: set<NetAddr>, slack: int, slot: Slot)
    requires Sound(h, x, b, loose, slack) && slot in x.vvTried
    ensures slot in b.tried && x.vvTried[slot] in x.mapInfo && b.tried[slot] == x.mapInfo[x.vvTried[slot]].Net()
    ensures x.mapInfo[x.vvTried[slot]].nRefCount == 0 && x.mapInfo[x.vvTried[slot]].fInTried
    ensures Sound(h, Demoted(x, slot), Demote(b, slot), loose + {b.tried[slot]}, slack + 1)
  {
    TriedSlotFound(h, x, b, slack, slot);
    var id := x.vvTried[slot];
    var i := Demoted(x, slot).mapInfo[id];
    EntryLinked(h, x, b, slack, id);
    DemoteOk(h, b, loose, slot);
    DemotedMarks(h, x, b, slot, b.tried[slot]);
    CardinalityRemove(x.vvTried, slot);
    TableRemove(x.mapAddr, x.vvTried, b.tried, slot);
    EntryIds(x.nIdCount, x.mapInfo, x.mapAddr, b.stats, id, i);
    EntryRandom(x.mapInfo, x.vRandom, id, i);
  }
}
