/**
 * How the address manager is saved and loaded.  A stream is a sequence of
 * tokens; entries are written without their last attempt, reference count,
 * mark and random position, and the new table as indexes into the list of
 * entries.
 */
module AddrCodec {
  import opened Basics
  import opened Powers
  import opened AddrBook
  import opened AddrIndex
  import opened AddrMan
  import opened AddrCheck

  datatype Token = Number(n: int) | Secret(key: nat) | Record(stats: Stats)

  /** What of an entry is written. */
  function Stored(st: Stats): Stats {
    st.(nLastTry := 0)
  }

  /** The book as it comes back. */
  function StoredBook(b: Book): Book {
    b.(stats := map a | a in b.stats :: Stored(b.stats[a]))
  }

  /** Flips bit 30 (`^ (1 << 30)`). */
  function Toggle(n: int): int {
    if n / 0x4000_0000 % 2 == 0 then n + 0x4000_0000 else n - 0x4000_0000
  }

  lemma {:induction false} ToggleTwice(n: int)
    ensures Toggle(Toggle(n)) == n
  {
    var q, r := n / 0x4000_0000, n % 0x4000_0000;
    DivModUnique(n + 0x4000_0000, 0x4000_0000, q + 1, r);
    DivModUnique(n - 0x4000_0000, 0x4000_0000, q - 1, r);
  }

  // ---------------------------------------------------------------- what is written

  /** The identifiers below `n` of entries with references, in order. */
  function NewList(m: Infos, n: nat): seq<int> {
    if n == 0 then []
    else NewList(m, n - 1) + if n - 1 in m && m[n - 1].nRefCount != 0 then [n - 1] else []
  }

  /** The identifiers below `n` of tried entries, in order. */
  function TriedList(m: Infos, n: nat): seq<int> {
    if n == 0 then []
    else TriedList(m, n - 1) + if n - 1 in m && m[n - 1].fInTried then [n - 1] else []
  }

  function Records(m: Infos, ids: seq<int>): seq<Token> {
    seq(|ids|, i requires 0 <= i < |ids| => Record(if ids[i] in m then Stored(m[ids[i]].stats) else NO_STATS))
  }

  const NO_STATS := Stats(Service(NetAddr(0), 0), {}, 0, NetAddr(0), 0, 0, 0)

  /** The occupied slots of a bucket at positions below `i`, in order. */
  function Items(vvNew: map<Slot, int>, bucket: nat, i: nat): seq<Slot> {
    if i == 0 then []
    else Items(vvNew, bucket, i - 1) + if Slot(bucket, i - 1) in vvNew then [Slot(bucket, i - 1)] else []
  }

  /** Where the entry of a slot is in the list of new entries. */
  function Rank(x: Index, slot: Slot): int {
    if slot in x.vvNew && x.vvNew[slot] >= 0 then |NewList(x.mapInfo, x.vvNew[slot])| else 0
  }

  function Ranks(x: Index, slots: seq<Slot>): seq<Token> {
    seq(|slots|, i requires 0 <= i < |slots| => Number(Rank(x, slots[i])))
  }

  /** The new buckets below `n`: how many elements, then their indexes. */
  function Buckets(h: Layout, x: Index, n: nat): seq<Token> {
    if n == 0 then []
    else
      var items := Items(x.vvNew, n - 1, h.bucketSize);
      Buckets(h, x, n - 1) + [Number(|items|)] + Ranks(x, items)
  }

  function Header(key: nat, nNew: int, nTried: int, nUBuckets: int): seq<Token> {
    [Number(1), Number(32), Secret(key), Number(nNew), Number(nTried), Number(nUBuckets)]
  }

  /** The whole stream. */
  function Saved(h: Layout, key: nat, x: Index): seq<Token>
    requires x.nIdCount >= 0
  {
    Header(key, x.nNew, x.nTried, Toggle(h.newBuckets))
    + Records(x.mapInfo, NewList(x.mapInfo, x.nIdCount))
    + Records(x.mapInfo, TriedList(x.mapInfo, x.nIdCount))
    + Buckets(h, x, h.newBuckets)
  }

  // ---------------------------------------------------------------- the lists count right

  lemma {:induction false} NewListIs(m: Infos, n: nat)
    ensures forall k :: k in NewList(m, n) <==> 0 <= k < n && k in m && m[k].nRefCount != 0
    ensures forall i, j :: 0 <= i < j < |NewList(m, n)| ==> NewList(m, n)[i] < NewList(m, n)[j]
  {
    if n > 0 {
      NewListIs(m, n - 1);
      var l := NewList(m, n - 1);
      assert forall i :: 0 <= i < |l| ==> l[i] in l;
    }
  }

  lemma {:induction false} TriedListIs(m: Infos, n: nat)
    ensures forall k :: k in TriedList(m, n) <==> 0 <= k < n && k in m && m[k].fInTried
    ensures forall i, j :: 0 <= i < j < |TriedList(m, n)| ==> TriedList(m, n)[i] < TriedList(m, n)[j]
  {
    if n > 0 {
      TriedListIs(m, n - 1);
      var l := TriedList(m, n - 1);
      assert forall i :: 0 <= i < |l| ==> l[i] in l;
    }
  }

  /** An entry stands in the list after those with smaller identifiers. */
  lemma {:induction false} NewListAt(m: Infos, k: nat, n: nat)
    requires k < n && k in m && m[k].nRefCount != 0
    ensures |NewList(m, k)| < |NewList(m, n)| && NewList(m, n)[|NewList(m, k)|] == k
  {
    if k < n - 1 { NewListAt(m, k, n - 1); }
  }

  lemma {:induction false} TriedListAt(m: Infos, k: nat, n: nat)
    requires k < n && k in m && m[k].fInTried
    ensures |TriedList(m, k)| < |TriedList(m, n)| && TriedList(m, n)[|TriedList(m, k)|] == k
  {
    if k < n - 1 { TriedListAt(m, k, n - 1); }
  }

  lemma {:induction false} ListMembers(h: Layout, x: Index, b: Book, id: int)
    requires Sound(h, x, b, {}, 0)
    ensures id in NewIds(x.mapInfo) <==> id in NewList(x.mapInfo, x.nIdCount)
    ensures id in TriedIds(x.mapInfo) <==> id in TriedList(x.mapInfo, x.nIdCount)
  {
    NewListIs(x.mapInfo, x.nIdCount);
    TriedListIs(x.mapInfo, x.nIdCount);
    assert IdLinked(x.nIdCount, x.mapInfo, x.mapAddr, id);
    if id in x.mapInfo { OneEntry(h, x, b, id); }
  }

  lemma {:induction false} NewListCount(h: Layout, x: Index, b: Book)
    requires Sound(h, x, b, {}, 0)
    ensures |NewList(x.mapInfo, x.nIdCount)| == x.nNew
  {
    SoundTables(h, x, b);
    var l := NewList(x.mapInfo, x.nIdCount);
    NewListIs(x.mapInfo, x.nIdCount);
    DistinctElements(l);
    forall id: int ensures id in NewIds(x.mapInfo) <==> id in l { ListMembers(h, x, b, id); }
    assert NewIds(x.mapInfo) == set id | id in l;
  }

  lemma {:induction false} TriedListCount(h: Layout, x: Index, b: Book)
    requires Sound(h, x, b, {}, 0)
    ensures |TriedList(x.mapInfo, x.nIdCount)| == x.nTried
  {
    SoundTables(h, x, b);
    var l := TriedList(x.mapInfo, x.nIdCount);
    TriedListIs(x.mapInfo, x.nIdCount);
    DistinctElements(l);
    forall id: int ensures id in TriedIds(x.mapInfo) <==> id in l { ListMembers(h, x, b, id); }
    assert TriedIds(x.mapInfo) == set id | id in l;
  }

  // ---------------------------------------------------------------- writing

  lemma {:induction false} RecordsSnoc(m: Infos, ids: seq<int>, id: int)
    requires id in m
    ensures Records(m, ids + [id]) == Records(m, ids) + [Record(Stored(m[id].stats))]
  {
  }

  /** Every entry below `n` is numbered by its place in the list of new entries. */
  ghost predicate Numbered(m: Infos, numbers: map<int, int>, n: nat) {
    forall id :: NumberedAt(m, numbers, n, id)
  }

  ghost predicate NumberedAt(m: Infos, numbers: map<int, int>, n: nat, id: int) {
    0 <= id < n && id in m ==> id in numbers && numbers[id] == |NewList(m, id)|
  }

  lemma {:induction false} NumberedNext(m: Infos, numbers: map<int, int>, n: nat)
    requires Numbered(m, numbers, n)
    ensures n !in m ==> Numbered(m, numbers, n + 1)
    ensures Numbered(m, numbers[n := |NewList(m, n)|], n + 1)
  {
    var numbers', n' := numbers[n := |NewList(m, n)|], n + 1;
    forall id ensures NumberedAt(m, numbers', n', id) { assert NumberedAt(m, numbers, n, id); }
    if n !in m {
      forall id ensures NumberedAt(m, numbers, n', id) { assert NumberedAt(m, numbers, n, id); }
    }
  }

  /** One round over the new entries. */
  lemma {:induction false} NewRound(m: Infos, id: nat, n: nat)
    requires id < n
    ensures if id in m && m[id].nRefCount != 0 then
              && |NewList(m, id)| < |NewList(m, n)| && |NewList(m, id + 1)| == |NewList(m, id)| + 1
              && Records(m, NewList(m, id + 1)) == Records(m, NewList(m, id)) + [Record(Stored(m[id].stats))]
            else NewList(m, id + 1) == NewList(m, id)
  {
    if id in m && m[id].nRefCount != 0 {
      NewListAt(m, id, n);
      RecordsSnoc(m, NewList(m, id), id);
    }
  }

  /** Writes the new entries, and numbers all. */
  method WriteNew(mapInfo: Infos, nIdCount: nat, nNew: int) returns (s: seq<Token>, mapUnkIds: map<int, int>)
    requires |NewList(mapInfo, nIdCount)| == nNew
    ensures s == Records(mapInfo, NewList(mapInfo, nIdCount))
    ensures Numbered(mapInfo, mapUnkIds, nIdCount)
  {
    s, mapUnkIds := [], map[];
    var nIds, id := 0, 0;
    while id < nIdCount
      invariant 0 <= id <= nIdCount && nIds == |NewList(mapInfo, id)|
      invariant s == Records(mapInfo, NewList(mapInfo, id))
      invariant Numbered(mapInfo, mapUnkIds, id)
    {
      NumberedNext(mapInfo, mapUnkIds, id);
      NewRound(mapInfo, id, nIdCount);
      if id in mapInfo {
        mapUnkIds := mapUnkIds[id := nIds];
        if mapInfo[id].nRefCount != 0 {
          assert nIds != nNew;
          s := s + [Record(Stored(mapInfo[id].stats))];
          nIds := nIds + 1;
        }
      }
      id := id + 1;
    }
  }

  /** One round over the tried entries. */
  lemma {:induction false} TriedRound(m: Infos, id: nat, n: nat)
    requires id < n
    ensures if id in m && m[id].fInTried then
              && |TriedList(m, id)| < |TriedList(m, n)| && |TriedList(m, id + 1)| == |TriedList(m, id)| + 1
              && Records(m, TriedList(m, id + 1)) == Records(m, TriedList(m, id)) + [Record(Stored(m[id].stats))]
            else TriedList(m, id + 1) == TriedList(m, id)
  {
    if id in m && m[id].fInTried {
      TriedListAt(m, id, n);
      RecordsSnoc(m, TriedList(m, id), id);
    }
  }

  method WriteTried(mapInfo: Infos, nIdCount: nat, nTried: int) returns (s: seq<Token>)
    requires |TriedList(mapInfo, nIdCount)| == nTried
    ensures s == Records(mapInfo, TriedList(mapInfo, nIdCount))
  {
    s := [];
    var nIds, id := 0, 0;
    while id < nIdCount
      invariant 0 <= id <= nIdCount && nIds == |TriedList(mapInfo, id)|
      invariant s == Records(mapInfo, TriedList(mapInfo, id))
    {
      TriedRound(mapInfo, id, nIdCount);
      if id in mapInfo && mapInfo[id].fInTried {
        assert nIds != nTried;
        s := s + [Record(Stored(mapInfo[id].stats))];
        nIds := nIds + 1;
      }
      id := id + 1;
    }
  }

  lemma {:induction false} RanksSnoc(x: Index, slots: seq<Slot>, slot: Slot)
    ensures Ranks(x, slots + [slot]) == Ranks(x, slots) + [Number(Rank(x, slot))]
  {
  }

  lemma {:induction false} RankIs(h: Layout, x: Index, b: Book, mapUnkIds: map<int, int>, slot: Slot)
    requires Sound(h, x, b, {}, 0) && Numbered(x.mapInfo, mapUnkIds, x.nIdCount) && slot in x.vvNew
    ensures x.vvNew[slot] in mapUnkIds && mapUnkIds[x.vvNew[slot]] == Rank(x, slot)
  {
    NewSlotFound(h, x, b, 0, slot);
    assert IdLinked(x.nIdCount, x.mapInfo, x.mapAddr, x.vvNew[slot]);
    assert NumberedAt(x.mapInfo, mapUnkIds, x.nIdCount, x.vvNew[slot]);
  }

  /** Writes one bucket of the new table: two loops, one that counts and one that writes. */
  method WriteBucket(x: Index, bucket: nat, size: nat, mapUnkIds: map<int, int>, ghost h: Layout, ghost b: Book)
    returns (s: seq<Token>)
    requires Sound(h, x, b, {}, 0) && Numbered(x.mapInfo, mapUnkIds, x.nIdCount)
    ensures s == [Number(|Items(x.vvNew, bucket, size)|)] + Ranks(x, Items(x.vvNew, bucket, size))
  {
    var nSize := 0;
    for i := 0 to size
      invariant nSize == |Items(x.vvNew, bucket, i)|
    {
      if Slot(bucket, i) in x.vvNew {
        nSize := nSize + 1;
      }
    }
    s := [];
    for i := 0 to size
      invariant s == Ranks(x, Items(x.vvNew, bucket, i))
    {
      if Slot(bucket, i) in x.vvNew {
        RankIs(h, x, b, mapUnkIds, Slot(bucket, i));
        RanksSnoc(x, Items(x.vvNew, bucket, i), Slot(bucket, i));
        s := s + [Number(mapUnkIds[x.vvNew[Slot(bucket, i)]])];
      }
    }
    s := [Number(nSize)] + s;
  }

  /** Saves the manager. */
  method Serialize(m: AddrMan, nKey: nat) returns (s: seq<Token>)
    requires m.Valid()
    ensures m.nIdCount >= 0 && s == Saved(m.h, nKey, m.State())
    ensures |s| >= 6 && s[..5] == [Number(1), Number(32), Secret(nKey), Number(m.nNew), Number(m.nTried)]
    ensures s[5].Number? && (m.h.newBuckets < 0x4000_0000 ==> s[5].n == m.h.newBuckets + 0x4000_0000)
  {
    var x := m.State();
    s := Header(nKey, x.nNew, x.nTried, Toggle(m.h.newBuckets));
    NewListCount(m.h, x, m.book);
    TriedListCount(m.h, x, m.book);
    var news, mapUnkIds := WriteNew(x.mapInfo, x.nIdCount, x.nNew);
    var trieds := WriteTried(x.mapInfo, x.nIdCount, x.nTried);
    var table := WriteTable(m.h, x, mapUnkIds, m.book);
    s := s + news + trieds + table;
    HeaderFirst(nKey, x.nNew, x.nTried, Toggle(m.h.newBuckets), news + trieds + table, s);
    LowToggle(m.h.newBuckets);
  }

  lemma {:induction false} HeaderFirst(key: nat, nNew: int, nTried: int, nUBuckets: int, rest: seq<Token>,
                                       s: seq<Token>)
    requires s == Header(key, nNew, nTried, nUBuckets) + rest
    ensures |s| >= 6 && s[..5] == [Number(1), Number(32), Secret(key), Number(nNew), Number(nTried)]
    ensures s[5] == Number(nUBuckets)
  {
  }

  lemma {:induction false} LowToggle(n: nat)
    ensures n < 0x4000_0000 ==> Toggle(n) == n + 0x4000_0000
  {
  }

  method WriteTable(h: Layout, x: Index, mapUnkIds: map<int, int>, ghost b: Book) returns (s: seq<Token>)
    requires Sound(h, x, b, {}, 0) && Numbered(x.mapInfo, mapUnkIds, x.nIdCount)
    ensures s == Buckets(h, x, h.newBuckets)
  {
    s := [];
    for bucket := 0 to h.newBuckets
      invariant s == Buckets(h, x, bucket)
    {
      var t := WriteBucket(x, bucket, h.bucketSize, mapUnkIds, h, b);
      s := s + t;
    }
  }

  // ---------------------------------------------------------------- reading

  /** The next tokens are entries. */
  predicate HasRecords(s: seq<Token>, start: nat, n: int) {
    n <= 0 || (start + n <= |s| && forall i :: start <= i < start + n ==> s[i].Record?)
  }

  /** Reads entries; fails if the stream ends or holds something else. */
  method ReadRecords(s: seq<Token>, start: nat, n: int) returns (r: Option<seq<Stats>>)
    requires start <= |s|
    ensures r.Some? <==> HasRecords(s, start, n)
    ensures r.Some? ==> |r.value| == Max(0, n) && start + |r.value| <= |s|
    ensures r.Some? ==> forall i :: 0 <= i < |r.value| ==> s[start + i] == Record(r.value[i])
  {
    var v := [];
    while |v| < n
      invariant |v| <= Max(0, n) && start + |v| <= |s|
      invariant forall i :: 0 <= i < |v| ==> s[start + i] == Record(v[i])
      invariant forall i :: start <= i < start + |v| ==> s[i].Record?
      decreases n - |v|
    {
      if start + |v| == |s| || !s[start + |v|].Record? {
        return None;
      }
      v := v + [s[start + |v|].stats];
    }
    r := Some(v);
  }

  predicate HasNumbers(s: seq<Token>, start: nat, n: int) {
    n <= 0 || (start + n <= |s| && forall i :: start <= i < start + n ==> s[i].Number?)
  }

  method ReadNumbers(s: seq<Token>, start: nat, n: int) returns (r: Option<seq<int>>)
    requires start <= |s|
    ensures r.Some? <==> HasNumbers(s, start, n)
    ensures r.Some? ==> |r.value| == Max(0, n) && start + |r.value| <= |s|
    ensures r.Some? ==> forall i :: 0 <= i < |r.value| ==> s[start + i] == Number(r.value[i])
  {
    var v := [];
    while |v| < n
      invariant |v| <= Max(0, n) && start + |v| <= |s|
      invariant forall i :: 0 <= i < |v| ==> s[start + i] == Number(v[i])
      invariant forall i :: start <= i < start + |v| ==> s[i].Number?
      decreases n - |v|
    {
      if start + |v| == |s| || !s[start + |v|].Number? {
        return None;
      }
      v := v + [s[start + |v|].n];
    }
    r := Some(v);
  }
}
