/**
 * The address book kept by the address manager, as a plain value: which address
 * sits in which slot of the "new" and "tried" tables, and what is known of each.
 * Identifiers, reference counts, counters and the random order are not part of it.
 */
module AddrBook {
  import opened Basics
  import Powers

  /** An IP address (`CNetAddr`). */
  datatype NetAddr = NetAddr(ip: nat)

  /** An address and a port (`CService`). */
  datatype Service = Service(net: NetAddr, port: nat)

  /** What is known of an address: the part of `CAddrInfo` that outlives its place in the tables. */
  datatype Stats = Stats(service: Service, nServices: set<nat>, nTime: nat, source: NetAddr,
                         nLastSuccess: int, nLastTry: int, nAttempts: int)

  datatype Slot = Slot(bucket: nat, pos: nat)

  /** In how many new buckets an address may be. */
  const MAX_REFS: nat := 8

  type Positive = n: nat | n > 0 witness 1

  /** The sizes of the tables, and the keyed hashes that choose buckets and positions. */
  datatype Layout = Layout(newBuckets: Positive, triedBuckets: Positive, bucketSize: Positive,
                           newHash: (NetAddr, NetAddr) -> nat, triedHash: Service -> nat,
                           newPosition: (Service, nat) -> nat, triedPosition: (Service, nat) -> nat)
  {
    function NewBucket(a: NetAddr, source: NetAddr): (b: nat)
      ensures b < newBuckets
    {
      newHash(a, source) % newBuckets
    }

    /** The only slot of a new bucket that a service can take. */
    function NewSlot(s: Service, bucket: nat): (r: Slot)
      ensures r.bucket == bucket
    {
      Slot(bucket, newPosition(s, bucket) % bucketSize)
    }

    /** The only slot of the tried table that a service can take. */
    function TriedSlot(s: Service): Slot {
      var bucket := triedHash(s) % triedBuckets;
      Slot(bucket, triedPosition(s, bucket) % bucketSize)
    }
  }

  datatype Book = Book(untried: map<Slot, NetAddr>, tried: map<Slot, NetAddr>, stats: map<NetAddr, Stats>)

  const EMPTY_BOOK := Book(map[], map[], map[])

  predicate Holds(m: map<Slot, NetAddr>, slot: Slot, a: NetAddr) {
    slot in m && m[slot] == a
  }

  // ---------------------------------------------------------------- reference counts

  /** In how many of the first `n` new buckets the service's own slot holds its address. */
  function Refs(h: Layout, untried: map<Slot, NetAddr>, s: Service, n: nat): nat {
    if n == 0 then 0
    else Refs(h, untried, s, n - 1) + (if Holds(untried, h.NewSlot(s, n - 1), s.net) then 1 else 0)
  }

  lemma {:induction false} RefsSame(h: Layout, f: map<Slot, NetAddr>, g: map<Slot, NetAddr>, s: Service, n: nat)
    requires forall b: nat :: b < n ==> Holds(f, h.NewSlot(s, b), s.net) == Holds(g, h.NewSlot(s, b), s.net)
    ensures Refs(h, f, s, n) == Refs(h, g, s, n)
  {
    if n > 0 { RefsSame(h, f, g, s, n - 1); }
  }

  /** One slot more. */
  lemma {:induction false} RefsOneMore(h: Layout, f: map<Slot, NetAddr>, s: Service, b: nat, n: nat)
    requires !Holds(f, h.NewSlot(s, b), s.net)
    ensures Refs(h, f[h.NewSlot(s, b) := s.net], s, n) == Refs(h, f, s, n) + if b < n then 1 else 0
  {
    if n > 0 {
      RefsOneMore(h, f, s, b, n - 1);
      assert h.NewSlot(s, n - 1) == h.NewSlot(s, b) <==> b == n - 1;
    }
  }

  /** One slot less. */
  lemma {:induction false} RefsOneLess(h: Layout, f: map<Slot, NetAddr>, s: Service, b: nat, n: nat)
    requires Holds(f, h.NewSlot(s, b), s.net) && b < n
    ensures Refs(h, f - {h.NewSlot(s, b)}, s, n) + 1 == Refs(h, f, s, n)
  {
    var slot := h.NewSlot(s, b);
    RefsOneMore(h, f - {slot}, s, b, n);
    assert (f - {slot})[slot := s.net] == f;
  }

  lemma {:induction false} RefsZero(h: Layout, f: map<Slot, NetAddr>, s: Service, n: nat)
    ensures Refs(h, f, s, n) == 0 <==> forall b: nat :: b < n ==> !Holds(f, h.NewSlot(s, b), s.net)
  {
    if n > 0 { RefsZero(h, f, s, n - 1); }
  }

  /** In how many new buckets an address is. */
  function RefCount(h: Layout, b: Book, a: NetAddr): nat {
    if a in b.stats then Refs(h, b.untried, b.stats[a].service, h.newBuckets) else 0
  }

  predicate IsTried(h: Layout, b: Book, a: NetAddr) {
    a in b.stats && Holds(b.tried, h.TriedSlot(b.stats[a].service), a)
  }

  // ---------------------------------------------------------------- the invariant

  ghost predicate StatsOk(stats: map<NetAddr, Stats>) {
    forall a :: StatOk(stats, a)
  }

  ghost predicate StatOk(stats: map<NetAddr, Stats>, a: NetAddr) {
    a in stats ==> stats[a].service.net == a
  }

  /** Every slot of the new table holds a known address that belongs there. */
  ghost predicate UntriedOk(h: Layout, b: Book) {
    forall slot :: UntriedAt(h, b, slot)
  }

  ghost predicate UntriedAt(h: Layout, b: Book, slot: Slot) {
    slot in b.untried ==> InNewSlot(h, b, slot, b.untried[slot])
  }

  predicate InNewSlot(h: Layout, b: Book, slot: Slot, a: NetAddr) {
    slot.bucket < h.newBuckets && a in b.stats && slot == h.NewSlot(b.stats[a].service, slot.bucket)
  }

  /** So does every slot of the tried table. */
  ghost predicate TriedOk(h: Layout, b: Book) {
    forall slot :: TriedAt(h, b, slot)
  }

  ghost predicate TriedAt(h: Layout, b: Book, slot: Slot) {
    slot in b.tried ==> InTriedSlot(h, b, slot, b.tried[slot])
  }

  predicate InTriedSlot(h: Layout, b: Book, slot: Slot, a: NetAddr) {
    a in b.stats && slot == h.TriedSlot(b.stats[a].service)
  }

  /** Every address is either tried or has one to eight references; those in `loose` may have none. */
  ghost predicate RefsOk(h: Layout, b: Book, loose: set<NetAddr>) {
    forall a :: Anchored(h, b, loose, a)
  }

  ghost predicate Anchored(h: Layout, b: Book, loose: set<NetAddr>, a: NetAddr) {
    a in b.stats ==>
      var r := RefCount(h, b, a);
      r <= MAX_REFS && if IsTried(h, b, a) then r == 0 && a !in loose else r > 0 || a in loose
  }

  ghost predicate BookOk(h: Layout, b: Book, loose: set<NetAddr>) {
    StatsOk(b.stats) && UntriedOk(h, b) && TriedOk(h, b) && RefsOk(h, b, loose)
  }

  lemma {:induction false} EmptyOk(h: Layout)
    ensures BookOk(h, EMPTY_BOOK, {})
  {
  }

  // ---------------------------------------------------------------- single changes

  function Note(b: Book, st: Stats): Book {
    b.(stats := b.stats[st.service.net := st])
  }

  function Forget(b: Book, a: NetAddr): Book {
    b.(stats := b.stats - {a})
  }

  function Place(b: Book, slot: Slot, a: NetAddr): Book {
    b.(untried := b.untried[slot := a])
  }

  function Vacate(b: Book, slot: Slot): Book {
    b.(untried := b.untried - {slot})
  }

  function Promote(b: Book, slot: Slot, a: NetAddr): Book {
    b.(tried := b.tried[slot := a])
  }

  function Demote(b: Book, slot: Slot): Book {
    b.(tried := b.tried - {slot})
  }

  /** An address that nobody has heard of is in no slot. */
  lemma {:induction false} LearnRefs(h: Layout, b: Book, st: Stats)
    requires UntriedOk(h, b) && TriedOk(h, b) && st.service.net !in b.stats
    ensures RefCount(h, Note(b, st), st.service.net) == 0 && !IsTried(h, Note(b, st), st.service.net)
  {
    RefsZero(h, b.untried, st.service, h.newBuckets);
    forall k: nat | k < h.newBuckets
      ensures !Holds(b.untried, h.NewSlot(st.service, k), st.service.net)
    {
      assert UntriedAt(h, b, h.NewSlot(st.service, k));
    }
    assert TriedAt(h, b, h.TriedSlot(st.service));
  }

  lemma {:induction false} LearnOk(h: Layout, b: Book, loose: set<NetAddr>, st: Stats)
    requires BookOk(h, b, loose) && st.service.net !in b.stats
    ensures BookOk(h, Note(b, st), loose + {st.service.net})
  {
    var b' := Note(b, st);
    LearnRefs(h, b, st);
    forall a ensures StatOk(b'.stats, a) { assert StatOk(b.stats, a); }
    forall slot ensures UntriedAt(h, b', slot) { assert UntriedAt(h, b, slot); }
    forall slot ensures TriedAt(h, b', slot) { assert TriedAt(h, b, slot); }
    forall a ensures Anchored(h, b', loose + {st.service.net}, a) { assert Anchored(h, b, loose, a); }
  }

  /** Something new about a known address. */
  lemma {:induction false} NoteOk(h: Layout, b: Book, loose: set<NetAddr>, st: Stats)
    requires BookOk(h, b, loose) && st.service.net in b.stats && st.service == b.stats[st.service.net].service
    ensures BookOk(h, Note(b, st), loose)
  {
    var b' := Note(b, st);
    forall a ensures StatOk(b'.stats, a) { assert StatOk(b.stats, a); }
    forall slot ensures UntriedAt(h, b', slot) { assert UntriedAt(h, b, slot); }
    forall slot ensures TriedAt(h, b', slot) { assert TriedAt(h, b, slot); }
    forall a ensures Anchored(h, b', loose, a) { assert Anchored(h, b, loose, a); }
  }

  /** An address without references that is not tried is in no slot. */
  lemma {:induction false} InNoSlot(h: Layout, b: Book, a: NetAddr, slot: Slot)
    requires StatsOk(b.stats) && UntriedOk(h, b) && TriedOk(h, b)
    requires a in b.stats && RefCount(h, b, a) == 0 && !IsTried(h, b, a)
    ensures !Holds(b.untried, slot, a) && !Holds(b.tried, slot, a)
  {
    RefsZero(h, b.untried, b.stats[a].service, h.newBuckets);
    assert StatOk(b.stats, a) && UntriedAt(h, b, slot) && TriedAt(h, b, slot);
  }

  /** It can be forgotten. */
  lemma {:induction false} ForgetOk(h: Layout, b: Book, loose: set<NetAddr>, a: NetAddr)
    requires BookOk(h, b, loose) && a in b.stats && RefCount(h, b, a) == 0 && !IsTried(h, b, a)
    ensures BookOk(h, Forget(b, a), loose - {a})
  {
    var b' := Forget(b, a);
    forall x ensures StatOk(b'.stats, x) { assert StatOk(b.stats, x); }
    forall slot ensures UntriedAt(h, b', slot) { assert UntriedAt(h, b, slot); InNoSlot(h, b, a, slot); }
    forall slot ensures TriedAt(h, b', slot) { assert TriedAt(h, b, slot); InNoSlot(h, b, a, slot); }
    forall x ensures Anchored(h, b', loose - {a}, x) { assert Anchored(h, b, loose, x); }
  }

  /** An address takes its free slot in a new bucket. */
  lemma {:induction false} PlaceRefs(h: Layout, b: Book, slot: Slot, a: NetAddr, x: NetAddr)
    requires StatsOk(b.stats) && InNewSlot(h, b, slot, a) && slot !in b.untried && x in b.stats
    ensures RefCount(h, Place(b, slot, a), x) == RefCount(h, b, x) + if x == a then 1 else 0
  {
    assert StatOk(b.stats, a) && StatOk(b.stats, x);
    if x == a {
      RefsOneMore(h, b.untried, b.stats[a].service, slot.bucket, h.newBuckets);
    } else {
      RefsSame(h, b.untried, Place(b, slot, a).untried, b.stats[x].service, h.newBuckets);
    }
  }

  lemma {:induction false} PlaceOk(h: Layout, b: Book, loose: set<NetAddr>, slot: Slot, a: NetAddr)
    requires BookOk(h, b, loose) && InNewSlot(h, b, slot, a) && slot !in b.untried
    requires !IsTried(h, b, a) && RefCount(h, b, a) < MAX_REFS
    ensures BookOk(h, Place(b, slot, a), loose - {a})
  {
    var b' := Place(b, slot, a);
    forall s ensures UntriedAt(h, b', s) { assert UntriedAt(h, b, s); }
    forall s ensures TriedAt(h, b', s) { assert TriedAt(h, b, s); }
    forall x ensures Anchored(h, b', loose - {a}, x) {
      assert Anchored(h, b, loose, x);
      if x in b.stats { PlaceRefs(h, b, slot, a, x); }
    }
  }

  /** A slot of the new table is emptied. */
  lemma {:induction false} VacateRefs(h: Layout, b: Book, slot: Slot, x: NetAddr)
    requires StatsOk(b.stats) && UntriedOk(h, b) && slot in b.untried && x in b.stats
    ensures RefCount(h, Vacate(b, slot), x) == RefCount(h, b, x) - if x == b.untried[slot] then 1 else 0
  {
    assert StatOk(b.stats, x) && UntriedAt(h, b, slot);
    if x == b.untried[slot] {
      RefsOneLess(h, b.untried, b.stats[x].service, slot.bucket, h.newBuckets);
    } else {
      RefsSame(h, b.untried, Vacate(b, slot).untried, b.stats[x].service, h.newBuckets);
    }
  }

  lemma {:induction false} VacateOk(h: Layout, b: Book, loose: set<NetAddr>, slot: Slot)
    requires BookOk(h, b, loose) && slot in b.untried
    ensures b.untried[slot] in b.stats && !IsTried(h, b, b.untried[slot]) && RefCount(h, b, b.untried[slot]) > 0
    ensures BookOk(h, Vacate(b, slot), loose + {b.untried[slot]})
  {
    var b', a := Vacate(b, slot), b.untried[slot];
    assert UntriedAt(h, b, slot);
    VacateRefs(h, b, slot, a);
    assert Anchored(h, b, loose, a);
    forall s ensures UntriedAt(h, b', s) { assert UntriedAt(h, b, s); }
    forall s ensures TriedAt(h, b', s) { assert TriedAt(h, b, s); }
    forall x ensures Anchored(h, b', loose + {a}, x) {
      assert Anchored(h, b, loose, x);
      if x in b.stats { VacateRefs(h, b, slot, x); }
    }
  }

  /** An address without references takes its free slot in the tried table. */
  lemma {:induction false} PromoteOk(h: Layout, b: Book, loose: set<NetAddr>, slot: Slot, a: NetAddr)
    requires BookOk(h, b, loose) && InTriedSlot(h, b, slot, a) && slot !in b.tried && RefCount(h, b, a) == 0
    ensures BookOk(h, Promote(b, slot, a), loose - {a})
  {
    var b' := Promote(b, slot, a);
    forall s ensures UntriedAt(h, b', s) { assert UntriedAt(h, b, s); }
    forall s ensures TriedAt(h, b', s) { assert TriedAt(h, b, s); }
    forall x ensures Anchored(h, b', loose - {a}, x) { assert Anchored(h, b, loose, x); }
  }

  /** A slot of the tried table is emptied. */
  lemma {:induction false} DemoteOk(h: Layout, b: Book, loose: set<NetAddr>, slot: Slot)
    requires BookOk(h, b, loose) && slot in b.tried
    ensures InTriedSlot(h, b, slot, b.tried[slot])
    ensures RefCount(h, b, b.tried[slot]) == 0 && !IsTried(h, Demote(b, slot), b.tried[slot])
    ensures BookOk(h, Demote(b, slot), loose + {b.tried[slot]})
  {
    var b', a := Demote(b, slot), b.tried[slot];
    assert TriedAt(h, b, slot) && Anchored(h, b, loose, a);
    forall s ensures UntriedAt(h, b', s) { assert UntriedAt(h, b, s); }
    forall s ensures TriedAt(h, b', s) { assert TriedAt(h, b, s); }
    forall x ensures Anchored(h, b', loose + {a}, x) { assert Anchored(h, b, loose, x); }
  }

  /** An address that is not tried may be called loose. */
  lemma {:induction false} LoosenOk(h: Layout, b: Book, loose: set<NetAddr>, a: NetAddr)
    requires BookOk(h, b, loose) && !IsTried(h, b, a)
    ensures BookOk(h, b, loose + {a})
  {
    forall x ensures Anchored(h, b, loose + {a}, x) { assert Anchored(h, b, loose, x); }
  }

  /** An address with references, or not there at all, need not be called loose. */
  lemma {:induction false} LooseOk(h: Layout, b: Book, loose: set<NetAddr>, a: NetAddr, loose': set<NetAddr>)
    requires BookOk(h, b, loose) && loose' <= loose <= loose' + {a} && (a in b.stats ==> RefCount(h, b, a) > 0)
    ensures BookOk(h, b, loose')
  {
    forall x ensures Anchored(h, b, loose', x) { assert Anchored(h, b, loose, x); }
  }

  // ---------------------------------------------------------------- what the operations do

  /** A slot of the new table is emptied; its address is forgotten if that was its last one. */
  function Cleared(h: Layout, b: Book, slot: Slot): Book {
    if slot !in b.untried then b
    else if RefCount(h, Vacate(b, slot), b.untried[slot]) == 0 then Forget(Vacate(b, slot), b.untried[slot])
    else Vacate(b, slot)
  }

  /** The new table without the slots of an address in the first `n` buckets. */
  function Without(m: map<Slot, NetAddr>, a: NetAddr, n: nat): map<Slot, NetAddr> {
    map slot | slot in m && !(m[slot] == a && slot.bucket < n) :: m[slot]
  }

  /** The slot of the new table that an address takes on behalf of its first source. */
  function HomeSlot(h: Layout, st: Stats): Slot {
    h.NewSlot(st.service, h.NewBucket(st.service.net, st.source))
  }

  /** The address in a slot of the tried table, if any, goes back to its own slot of the new table. */
  function Returned(h: Layout, b: Book, slot: Slot): Book {
    if slot !in b.tried || b.tried[slot] !in b.stats then b
    else
      var home := HomeSlot(h, b.stats[b.tried[slot]]);
      Place(Cleared(h, Demote(b, slot), home), home, b.tried[slot])
  }

  /** An address moves from all its new buckets to the tried table, in place of what is there. */
  function MovedToTried(h: Layout, b: Book, a: NetAddr): Book
    requires a in b.stats
  {
    var slot := h.TriedSlot(b.stats[a].service);
    Promote(Returned(h, b.(untried := Without(b.untried, a, h.newBuckets)), slot), slot, a)
  }

  /** A successful connection. */
  function AfterGood(h: Layout, b: Book, s: Service, nTime: int): Book {
    if s.net !in b.stats || b.stats[s.net].service != s then b
    else
      var st := b.stats[s.net].(nLastSuccess := nTime, nLastTry := nTime, nAttempts := 0);
      if IsTried(h, Note(b, st), s.net) then Note(b, st) else MovedToTried(h, Note(b, st), s.net)
  }

  /** A connection attempt. */
  function AfterAttempt(b: Book, s: Service, nTime: int): Book {
    if s.net !in b.stats || b.stats[s.net].service != s then b
    else Note(b, b.stats[s.net].(nLastTry := nTime, nAttempts := b.stats[s.net].nAttempts + 1))
  }

  /** The 32-bit field that a time is stored in. */
  function U32(t: int): nat {
    t % 0x1_0000_0000
  }

  /** A connected peer is still there. */
  function AfterConnected(b: Book, s: Service, nTime: int): Book {
    if s.net !in b.stats || b.stats[s.net].service != s then b
    else if nTime - b.stats[s.net].nTime > 20 * 60 then Note(b, b.stats[s.net].(nTime := U32(nTime)))
    else b
  }

  /** Bad enough to be replaced. */
  predicate IsTerrible(st: Stats, now: int) {
    if st.nLastTry != 0 && st.nLastTry >= now - 60 then false
    else if st.nTime > now + 10 * 60 then true
    else if st.nTime == 0 || now - st.nTime > 30 * 24 * 60 * 60 then true
    else if st.nLastSuccess == 0 && st.nAttempts >= 3 then true
    else now - st.nLastSuccess > 7 * 24 * 60 * 60 && st.nAttempts >= 10
  }

  /** An address as another node announces it (`CAddress`). */
  datatype Announced = Announced(service: Service, nServices: set<nat>, nTime: nat)

  /** What is known of an address after it was announced again. */
  function Refreshed(st: Stats, addr: Announced, nTimePenalty: int, now: int): Stats {
    var interval := if now - addr.nTime < 24 * 60 * 60 then 60 * 60 else 24 * 60 * 60;
    var st' := if addr.nTime != 0 && (st.nTime == 0 || st.nTime < addr.nTime - interval - nTimePenalty)
               then st.(nTime := U32(Max(0, addr.nTime - nTimePenalty))) else st;
    st'.(nServices := st'.nServices + addr.nServices)
  }

  /** What is known of an address at first. */
  function Introduced(addr: Announced, source: NetAddr, nTimePenalty: int): Stats {
    Stats(addr.service, addr.nServices, U32(Max(0, addr.nTime - nTimePenalty)), source, 0, 0, 0)
  }

  function PowerOfTwo(n: nat): Positive {
    Powers.PowPositive(2, n);
    Powers.Pow(2, n)
  }

  /**
   * Whether another announcement gives a known address one more slot: it must be news, the
   * address untried and below its limit, and every reference it has halves the chance.
   */
  predicate Welcome(h: Layout, b: Book, a: NetAddr, nTime: int, draw: nat)
    requires a in b.stats
  {
    && !(nTime == 0 || (b.stats[a].nTime != 0 && nTime <= b.stats[a].nTime))
    && !IsTried(h, b, a)
    && RefCount(h, b, a) != MAX_REFS
    && draw % PowerOfTwo(RefCount(h, b, a)) == 0
  }

  /** Whether an address may take a slot from the one that has it. */
  predicate Displaces(h: Layout, b: Book, a: NetAddr, slot: Slot, now: int) {
    slot !in b.untried
    || (var o := b.untried[slot];
        (o in b.stats && IsTerrible(b.stats[o], now)) || (RefCount(h, b, o) > 1 && RefCount(h, b, a) == 0))
  }

  /** The address takes a slot if that is free or its holder may be displaced; without any slot it is forgotten. */
  function Seated(h: Layout, b: Book, a: NetAddr, slot: Slot, now: int): Book {
    if Holds(b.untried, slot, a) then b
    else if Displaces(h, b, a, slot, now) then Place(Cleared(h, b, slot), slot, a)
    else if RefCount(h, b, a) == 0 then Forget(b, a)
    else b
  }

  /** An announcement; the second result says that the address was not known. */
  function AfterAdd(h: Layout, b: Book, addr: Announced, source: NetAddr, nTimePenalty: int,
                    now: int, routable: bool, draw: nat): (Book, bool)
  {
    var a := addr.service.net;
    var st := if a in b.stats then Refreshed(b.stats[a], addr, nTimePenalty, now)
              else Introduced(addr, source, nTimePenalty);
    var b' := b.(stats := b.stats[a := st]);
    if !routable then (b, false)
    else if a in b.stats && !Welcome(h, b', a, addr.nTime, draw) then (b', false)
    else (Seated(h, b', a, h.NewSlot(st.service, h.NewBucket(a, source)), now), a !in b.stats)
  }

  // ---------------------------------------------------------------- what is never lost

  /** Clearing a slot forgets an address only if that slot was its last. */
  lemma {:induction false} ClearedForgets(h: Layout, b: Book, slot: Slot, x: NetAddr)
    requires StatsOk(b.stats) && UntriedOk(h, b) && x in b.stats && x !in Cleared(h, b, slot).stats
    ensures Holds(b.untried, slot, x) && RefCount(h, b, x) == 1
  {
    VacateRefs(h, b, slot, x);
  }

  /** An announcement makes the book forget another address only if that is terrible and has one slot. */
  lemma {:induction false} AddForgetsOnlyTerrible(h: Layout, b: Book, addr: Announced, source: NetAddr,
                                                  nTimePenalty: int, now: int, routable: bool, draw: nat, x: NetAddr)
    requires BookOk(h, b, {}) && x in b.stats
    ensures x in AfterAdd(h, b, addr, source, nTimePenalty, now, routable, draw).0.stats
      || (x != addr.service.net && IsTerrible(b.stats[x], now) && RefCount(h, b, x) == 1)
  {
    var a := addr.service.net;
    assert StatOk(b.stats, a) && Anchored(h, b, {}, x) && Anchored(h, b, {}, a);
    var st := if a in b.stats then Refreshed(b.stats[a], addr, nTimePenalty, now)
              else Introduced(addr, source, nTimePenalty);
    if a in b.stats {
      NoteOk(h, b, {}, st);
      assert Anchored(h, Note(b, st), {}, a);
    } else {
      LearnOk(h, b, {}, st);
    }
    var slot := h.NewSlot(st.service, h.NewBucket(a, source));
    if x !in Cleared(h, Note(b, st), slot).stats { ClearedForgets(h, Note(b, st), slot, x); }
  }

  /** Whether a slot of the new table has room for an address that nobody knew. */
  predicate HasRoom(h: Layout, b: Book, slot: Slot, now: int) {
    slot in b.untried ==>
      var o := b.untried[slot];
      o in b.stats && (IsTerrible(b.stats[o], now) || RefCount(h, b, o) > 1)
  }

  /**
   * An announcement answers true exactly for a routable address that was not known, and that address
   * is then in the book exactly if its slot for the source is free, or held by a terrible address or
   * by one that has another slot.
   */
  lemma {:induction false} AddedStays(h: Layout, b: Book, addr: Announced, source: NetAddr, nTimePenalty: int,
                                      now: int, routable: bool, draw: nat)
    requires BookOk(h, b, {})
    ensures var (b', fNew) := AfterAdd(h, b, addr, source, nTimePenalty, now, routable, draw);
            var a := addr.service.net;
            && (fNew <==> routable && a !in b.stats)
            && (fNew ==> (a in b'.stats <==> HasRoom(h, b, h.NewSlot(addr.service, h.NewBucket(a, source)), now)))
  {
    var a := addr.service.net;
    if a !in b.stats {
      var st := Introduced(addr, source, nTimePenalty);
      var c, slot := Note(b, st), h.NewSlot(addr.service, h.NewBucket(a, source));
      LearnOk(h, b, {}, st);
      LearnRefs(h, b, st);
      assert UntriedAt(h, b, slot) && UntriedAt(h, c, slot);
      if a !in Cleared(h, c, slot).stats { ClearedForgets(h, c, slot, a); }
    }
  }

  /** One slot in each table. */
  const TINY := Layout(1, 1, 1, (_, _) => 0, _ => 0, (_, _) => 0, (_, _) => 0)

  function AnnouncedAt(ip: nat, nTime: nat): Announced {
    Announced(Service(NetAddr(ip), 0), {}, nTime)
  }

  /** The first address has the only slot and is not terrible: the second is reported as added, and is gone. */
  lemma {:induction false} AddedAndGone()
    ensures var (b, first) := AfterAdd(TINY, EMPTY_BOOK, AnnouncedAt(1, 9), NetAddr(0), 0, 9, true, 0);
            var (c, second) := AfterAdd(TINY, b, AnnouncedAt(2, 9), NetAddr(0), 0, 9, true, 0);
            first && NetAddr(1) in b.stats && second && NetAddr(2) !in c.stats
  {
    var st := Introduced(AnnouncedAt(1, 9), NetAddr(0), 0);
    var st' := Introduced(AnnouncedAt(2, 9), NetAddr(0), 0);
    var b := Place(Note(EMPTY_BOOK, st), Slot(0, 0), NetAddr(1));
    assert Refs(TINY, b.untried, st.service, 0) == 0 && Refs(TINY, b.untried, st'.service, 0) == 0;
    assert AfterAdd(TINY, EMPTY_BOOK, AnnouncedAt(1, 9), NetAddr(0), 0, 9, true, 0) == (b, true);
  }

  /**
   * A good connection puts the address into the tried table; another address is
   * forgotten only if its one slot went to the address that had to leave that table.
   */
  lemma {:induction false} GoodMoves(h: Layout, b: Book, s: Service, nTime: int, x: NetAddr)
    requires BookOk(h, b, {}) && s.net in b.stats && b.stats[s.net].service == s && x in b.stats
    ensures IsTried(h, AfterGood(h, b, s, nTime), s.net)
    ensures x !in AfterGood(h, b, s, nTime).stats ==>
      var slot := h.TriedSlot(s);
      && x != s.net && RefCount(h, b, x) == 1 && !IsTried(h, b, s.net)
      && slot in b.tried && b.tried[slot] in b.stats && Holds(b.untried, HomeSlot(h, b.stats[b.tried[slot]]), x)
  {
    var a, slot := s.net, h.TriedSlot(s);
    var st := b.stats[a].(nLastSuccess := nTime, nLastTry := nTime, nAttempts := 0);
    var c := Note(b, st);
    assert StatOk(b.stats, a);
    NoteOk(h, b, {}, st);
    if !IsTried(h, c, a) {
      var d := c.(untried := Without(c.untried, a, h.newBuckets));
      WithoutOthers(h, c, a, x);
      forall t ensures TriedAt(h, d, t) { assert TriedAt(h, c, t); }
      assert TriedAt(h, c, slot);
      if slot in d.tried {
        EvictForgets(h, d, slot, a, x);
      }
    }
  }

  /** Removing one address from the new table leaves the others. */
  lemma {:induction false} WithoutOthers(h: Layout, b: Book, a: NetAddr, x: NetAddr)
    requires StatsOk(b.stats) && UntriedOk(h, b) && a in b.stats && x in b.stats
    ensures var d := b.(untried := Without(b.untried, a, h.newBuckets));
            UntriedOk(h, d) && RefCount(h, d, a) == 0 && (x != a ==> RefCount(h, d, x) == RefCount(h, b, x))
  {
    var d := b.(untried := Without(b.untried, a, h.newBuckets));
    assert StatOk(b.stats, a) && StatOk(b.stats, x);
    forall slot ensures UntriedAt(h, d, slot) { assert UntriedAt(h, b, slot); }
    RefsZero(h, d.untried, b.stats[a].service, h.newBuckets);
    if x != a {
      RefsSame(h, b.untried, d.untried, b.stats[x].service, h.newBuckets);
    }
  }

  lemma {:induction false} EvictForgets(h: Layout, d: Book, slot: Slot, a: NetAddr, x: NetAddr)
    requires StatsOk(d.stats) && UntriedOk(h, d) && TriedOk(h, d) && slot in d.tried && x in d.stats
    requires a in d.stats && RefCount(h, d, a) == 0
    ensures d.tried[slot] in d.stats && a in Returned(h, d, slot).stats
    ensures Returned(h, d, slot).stats[a] == d.stats[a]
    ensures x !in Returned(h, d, slot).stats ==>
      x != a && RefCount(h, d, x) == 1 && Holds(d.untried, HomeSlot(h, d.stats[d.tried[slot]]), x)
  {
    assert TriedAt(h, d, slot);
    var c, home := Demote(d, slot), HomeSlot(h, d.stats[d.tried[slot]]);
    forall s ensures UntriedAt(h, c, s) { assert UntriedAt(h, d, s); }
    if a !in Cleared(h, c, home).stats { ClearedForgets(h, c, home, a); }
    if x !in Cleared(h, c, home).stats { ClearedForgets(h, c, home, x); }
  }

  // ---------------------------------------------------------------- field by field

  /** An address is terrible if it was not tried in the last minute, and is dated in the future or not seen for a
      month, or failed three times without a success, or ten times in the last week. */
  lemma {:induction false} TerribleIff(st: Stats, now: int)
    ensures IsTerrible(st, now) <==>
      && (st.nLastTry == 0 || now - st.nLastTry > 60)
      && (|| st.nTime == 0 || st.nTime - now > 600 || now - st.nTime > 2_592_000
          || (st.nAttempts >= 3 && st.nLastSuccess == 0)
          || (st.nAttempts >= 10 && now - st.nLastSuccess > 604_800))
  {
  }

  /** A service takes the slot that its hashes name. */
  lemma {:induction false} SlotsNamed(h: Layout, s: Service, source: NetAddr, bucket: nat, pos: nat)
    ensures h.newHash(s.net, source) == bucket < h.newBuckets ==> h.NewBucket(s.net, source) == bucket
    ensures h.newPosition(s, bucket) == pos < h.bucketSize ==> h.NewSlot(s, bucket) == Slot(bucket, pos)
    ensures h.triedHash(s) == bucket < h.triedBuckets && h.triedPosition(s, bucket) == pos < h.bucketSize
      ==> h.TriedSlot(s) == Slot(bucket, pos)
  {
    Small(bucket, h.newBuckets);
    Small(bucket, h.triedBuckets);
    Small(pos, h.bucketSize);
  }

  lemma {:induction false} Small(x: nat, n: Positive)
    ensures x < n ==> x % n == x
  {
    if x < n { Powers.DivModUnique(x, n, 0, x); }
  }

  /** What an announcement changes of a known address: the services grow, and the time is set anew if it is older
      than the announced one by more than an hour, or a day for one that is not online, and the penalty. */
  predicate Renewed(st: Stats, st': Stats, addr: Announced, nTimePenalty: int, now: int) {
    var interval := if now - addr.nTime < 86_400 then 3_600 else 86_400;
    && st'.service == st.service && st'.source == st.source && st'.nLastSuccess == st.nLastSuccess
    && st'.nLastTry == st.nLastTry && st'.nAttempts == st.nAttempts && st'.nServices == st.nServices + addr.nServices
    && if addr.nTime > 0 && (st.nTime == 0 || addr.nTime - st.nTime > interval + nTimePenalty)
       then IsTime(st'.nTime, addr.nTime, nTimePenalty) else st'.nTime == st.nTime
  }

  /** The announced time less the penalty and not below zero, in its 32 bits. */
  predicate IsTime(nTime: nat, announced: nat, nTimePenalty: int) {
    if announced <= nTimePenalty then nTime == 0
    else nTime < 0x1_0000_0000 && (announced - nTimePenalty - nTime) % 0x1_0000_0000 == 0
  }

  /** What is noted of an address that nobody knew. */
  predicate FirstNoted(st: Stats, addr: Announced, source: NetAddr, nTimePenalty: int) {
    && st.service == addr.service && st.nServices == addr.nServices && st.source == source
    && IsTime(st.nTime, addr.nTime, nTimePenalty)
    && st.nLastSuccess == 0 && st.nLastTry == 0 && st.nAttempts == 0
  }

  lemma {:induction false} TimeIs(announced: nat, nTimePenalty: int)
    ensures IsTime(U32(Max(0, announced - nTimePenalty)), announced, nTimePenalty)
  {
    if announced > nTimePenalty {
      var x := announced - nTimePenalty;
      assert x - x % 0x1_0000_0000 == 0x1_0000_0000 * (x / 0x1_0000_0000);
    }
  }

  /** All that an announcement changes of what is known. */
  ghost predicate AddNoted(b: Book, b': Book, addr: Announced, source: NetAddr, nTimePenalty: int, now: int) {
    var a := addr.service.net;
    && (forall x :: x != a && x in b'.stats ==> x in b.stats && b'.stats[x] == b.stats[x])
    && (a in b.stats ==> a in b'.stats && Renewed(b.stats[a], b'.stats[a], addr, nTimePenalty, now))
    && (a !in b.stats && a in b'.stats ==> FirstNoted(b'.stats[a], addr, source, nTimePenalty))
  }

  lemma {:induction false} AddNotes(h: Layout, b: Book, addr: Announced, source: NetAddr, nTimePenalty: int,
                                    now: int, routable: bool, draw: nat)
    requires BookOk(h, b, {})
    ensures var b' := AfterAdd(h, b, addr, source, nTimePenalty, now, routable, draw).0;
            if routable then AddNoted(b, b', addr, source, nTimePenalty, now) else b' == b
  {
    var a := addr.service.net;
    assert StatOk(b.stats, a);
    TimeIs(addr.nTime, nTimePenalty);
    if routable && a in b.stats {
      AddForgetsOnlyTerrible(h, b, addr, source, nTimePenalty, now, routable, draw, a);
    }
  }

  /** Whether an announcement gives a known address one more slot; `nTime` is what is known of its time then. */
  predicate GainsSlot(h: Layout, b: Book, addr: Announced, nTime: nat, slot: Slot, now: int, draw: nat) {
    var a := addr.service.net;
    && addr.nTime > nTime && !IsTried(h, b, a) && RefCount(h, b, a) < 8
    && draw % PowerOfTwo(RefCount(h, b, a)) == 0
    && (slot in b.untried ==>
          var o := b.untried[slot]; o != a && o in b.stats && IsTerrible(b.stats[o], now))
  }

  /** What an announcement does to the tables: at most one slot of the new table changes hands. */
  ghost predicate AddSeated(h: Layout, b: Book, b': Book, addr: Announced, source: NetAddr, now: int, draw: nat) {
    var a := addr.service.net;
    var slot := h.NewSlot(if a in b.stats then b.stats[a].service else addr.service, h.NewBucket(a, source));
    var taken := if a in b.stats then a in b'.stats && GainsSlot(h, b, addr, b'.stats[a].nTime, slot, now, draw)
                 else HasRoom(h, b, slot, now);
    && b'.tried == b.tried && b'.untried == (if taken then b.untried[slot := a] else b.untried)
    && RefCount(h, b', a) == RefCount(h, b, a) + if taken then 1 else 0
  }

  lemma {:induction false} SeatedTables(h: Layout, b: Book, a: NetAddr, slot: Slot, now: int)
    requires BookOk(h, b, {a}) && a in b.stats && !IsTried(h, b, a) && InNewSlot(h, b, slot, a)
    ensures var b' := Seated(h, b, a, slot, now);
            var taken := !Holds(b.untried, slot, a) && Displaces(h, b, a, slot, now);
            && b'.tried == b.tried && b'.untried == (if taken then b.untried[slot := a] else b.untried)
            && RefCount(h, b', a) == RefCount(h, b, a) + if taken then 1 else 0
  {
    if !Holds(b.untried, slot, a) && Displaces(h, b, a, slot, now) {
      var c := Cleared(h, b, slot);
      assert Place(c, slot, a).untried == b.untried[slot := a];
      if a !in c.stats { ClearedForgets(h, b, slot, a); }
      assert StatOk(b.stats, a);
      RefsPut(h, b.untried, b.stats[a].service, slot, h.newBuckets);
    }
  }

  /** A service's own slot that did not hold its address, and now does. */
  lemma {:induction false} RefsPut(h: Layout, m: map<Slot, NetAddr>, s: Service, slot: Slot, n: nat)
    requires slot == h.NewSlot(s, slot.bucket) && !Holds(m, slot, s.net)
    ensures Refs(h, m[slot := s.net], s, n) == Refs(h, m, s, n) + if slot.bucket < n then 1 else 0
  {
    if n > 0 { RefsPut(h, m, s, slot, n - 1); }
  }

  lemma {:induction false} AddSeats(h: Layout, b: Book, addr: Announced, source: NetAddr, nTimePenalty: int,
                                    now: int, draw: nat)
    requires BookOk(h, b, {})
    ensures AddSeated(h, b, AfterAdd(h, b, addr, source, nTimePenalty, now, true, draw).0, addr, source, now, draw)
  {
    var a := addr.service.net;
    if a in b.stats {
      KnownSeated(h, b, addr, source, nTimePenalty, now, draw);
    } else {
      NewSeated(h, b, addr, source, nTimePenalty, now, draw);
    }
  }

  lemma {:induction false} NewSeated(h: Layout, b: Book, addr: Announced, source: NetAddr, nTimePenalty: int,
                                     now: int, draw: nat)
    requires BookOk(h, b, {}) && addr.service.net !in b.stats
    ensures AddSeated(h, b, AfterAdd(h, b, addr, source, nTimePenalty, now, true, draw).0, addr, source, now, draw)
  {
    var a, st := addr.service.net, Introduced(addr, source, nTimePenalty);
    var c, slot := Note(b, st), h.NewSlot(addr.service, h.NewBucket(a, source));
    LearnOk(h, b, {}, st);
    LearnRefs(h, b, st);
    assert {} + {a} == {a};
    SeatedTables(h, c, a, slot, now);
    assert UntriedAt(h, b, slot) && UntriedAt(h, c, slot);
    assert HasRoom(h, b, slot, now) <==> !Holds(c.untried, slot, a) && Displaces(h, c, a, slot, now);
  }

  lemma {:induction false} KnownSeated(h: Layout, b: Book, addr: Announced, source: NetAddr, nTimePenalty: int,
                                       now: int, draw: nat)
    requires BookOk(h, b, {}) && addr.service.net in b.stats
    ensures AddSeated(h, b, AfterAdd(h, b, addr, source, nTimePenalty, now, true, draw).0, addr, source, now, draw)
  {
    var a := addr.service.net;
    var st := Refreshed(b.stats[a], addr, nTimePenalty, now);
    var c, slot := Note(b, st), h.NewSlot(st.service, h.NewBucket(a, source));
    assert StatOk(b.stats, a) && Anchored(h, b, {}, a);
    NoteOk(h, b, {}, st);
    AddForgetsOnlyTerrible(h, b, addr, source, nTimePenalty, now, true, draw, a);
    if Welcome(h, c, a, addr.nTime, draw) {
      LoosenOk(h, c, {}, a);
      assert {} + {a} == {a};
      SeatedTables(h, c, a, slot, now);
      assert UntriedAt(h, b, slot) && UntriedAt(h, c, slot);
    }
  }

  /** Nothing changes but what is known of one address. */
  ghost predicate OnlyNoted(b: Book, b': Book, a: NetAddr) {
    && b'.untried == b.untried && b'.tried == b.tried && b'.stats.Keys == b.stats.Keys
    && forall x :: x in b.stats && x != a ==> b'.stats[x] == b.stats[x]
  }

  /** An attempt to reach a known service is dated and counted. */
  predicate Tried(st: Stats, st': Stats, nTime: int) {
    && st'.nLastTry == nTime && st'.nAttempts == st.nAttempts + 1
    && st'.service == st.service && st'.nServices == st.nServices && st'.nTime == st.nTime && st'.source == st.source
    && st'.nLastSuccess == st.nLastSuccess
  }

  /** The time of a connected service is set anew after more than twenty minutes. */
  predicate Seen(st: Stats, st': Stats, nTime: int) {
    && (if nTime > st.nTime + 1_200 then st'.nTime < 0x1_0000_0000 && (nTime - st'.nTime) % 0x1_0000_0000 == 0
        else st'.nTime == st.nTime)
    && st'.service == st.service && st'.nServices == st.nServices && st'.source == st.source
    && st'.nLastSuccess == st.nLastSuccess && st'.nLastTry == st.nLastTry && st'.nAttempts == st.nAttempts
  }

  lemma {:induction false} AttemptNotes(h: Layout, b: Book, s: Service, nTime: int)
    requires BookOk(h, b, {})
    ensures var b' := AfterAttempt(b, s, nTime);
            if Knows(b, s) then OnlyNoted(b, b', s.net) && Tried(b.stats[s.net], b'.stats[s.net], nTime) else b' == b
  {
    assert StatOk(b.stats, s.net);
  }

  lemma {:induction false} ConnectedNotes(h: Layout, b: Book, s: Service, nTime: int)
    requires BookOk(h, b, {})
    ensures var b' := AfterConnected(b, s, nTime);
            if Knows(b, s) then OnlyNoted(b, b', s.net) && Seen(b.stats[s.net], b'.stats[s.net], nTime) else b' == b
  {
    assert StatOk(b.stats, s.net);
    assert nTime - nTime % 0x1_0000_0000 == 0x1_0000_0000 * (nTime / 0x1_0000_0000);
  }

  /** All that a good connection to a known service changes of what is known. */
  ghost predicate GoodNoted(b: Book, b': Book, s: Service, nTime: int) {
    && (forall x :: x != s.net && x in b'.stats ==> x in b.stats && b'.stats[x] == b.stats[x])
    && s.net in b.stats && s.net in b'.stats
    && var st, st' := b.stats[s.net], b'.stats[s.net];
       && st'.nLastSuccess == nTime && st'.nLastTry == nTime && st'.nAttempts == 0
       && st'.service == st.service && st'.nServices == st.nServices && st'.nTime == st.nTime && st'.source == st.source
  }

  /** The slot of the new table that an address had first, or would have had. */
  predicate IsHome(h: Layout, st: Stats, slot: Slot) {
    slot == h.NewSlot(st.service, h.NewBucket(st.service.net, st.source))
  }

  /** What a good connection does to one slot of the new table: the address leaves it, unless the evicted address `o`
      has its first slot there. */
  ghost predicate GoodSlot(h: Layout, b: Book, b': Book, a: NetAddr, o: Option<NetAddr>, slot: Slot) {
    if o.Some? && o.value in b.stats && IsHome(h, b.stats[o.value], slot) then Holds(b'.untried, slot, o.value)
    else
      && (slot in b'.untried <==> slot in b.untried && b.untried[slot] != a)
      && (slot in b'.untried ==> b'.untried[slot] == b.untried[slot])
  }

  /** An address is forgotten exactly if its only slot went to the evicted one. */
  ghost predicate GoodForgets(h: Layout, b: Book, b': Book, a: NetAddr, o: Option<NetAddr>, x: NetAddr) {
    x in b.stats ==>
      (x !in b'.stats <==> x != a && RefCount(h, b, x) == 1 && o.Some? && o.value in b.stats
                           && exists slot :: IsHome(h, b.stats[o.value], slot) && Holds(b.untried, slot, x))
  }

  /** What a good connection to a known service does to the tables. */
  ghost predicate GoodSeated(h: Layout, b: Book, b': Book, s: Service) {
    var a, slot := s.net, h.TriedSlot(s);
    if IsTried(h, b, a) then b'.tried == b.tried && b'.untried == b.untried && b'.stats.Keys == b.stats.Keys
    else
      var o := if slot in b.tried then Some(b.tried[slot]) else None;
      && b'.tried == b.tried[slot := a]
      && (forall t :: GoodSlot(h, b, b', a, o, t))
      && (forall x :: GoodForgets(h, b, b', a, o, x))
  }

  lemma {:induction false} GoodNotes(h: Layout, b: Book, s: Service, nTime: int)
    requires BookOk(h, b, {}) && Knows(b, s)
    ensures GoodNoted(b, AfterGood(h, b, s, nTime), s, nTime)
  {
    var a, slot := s.net, h.TriedSlot(s);
    var st := b.stats[a].(nLastSuccess := nTime, nLastTry := nTime, nAttempts := 0);
    var c := Note(b, st);
    assert StatOk(b.stats, a);
    NoteOk(h, b, {}, st);
    if !IsTried(h, c, a) {
      var d := c.(untried := Without(c.untried, a, h.newBuckets));
      WithoutOthers(h, c, a, a);
      forall t ensures TriedAt(h, d, t) { assert TriedAt(h, c, t); }
      if slot in d.tried { EvictForgets(h, d, slot, a, a); }
    }
  }

  /** The tables after an address that is not tried has moved. */
  lemma {:induction false} MovedSeated(h: Layout, c: Book, s: Service)
    requires BookOk(h, c, {}) && Knows(c, s) && !IsTried(h, c, s.net)
    ensures GoodSeated(h, c, MovedToTried(h, c, s.net), s)
  {
    var a, slot := s.net, h.TriedSlot(s);
    var d := c.(untried := Without(c.untried, a, h.newBuckets));
    var r := Returned(h, d, slot);
    assert TriedAt(h, c, slot) && StatOk(c.stats, a);
    var o := if slot in c.tried then Some(c.tried[slot]) else None;
    if o.Some? { assert StatOk(c.stats, o.value); }
    assert Promote(r, slot, a).tried == c.tried[slot := a];
    forall t ensures GoodSlot(h, c, Promote(r, slot, a), a, o, t) { assert UntriedAt(h, c, t); }
    forall x ensures GoodForgets(h, c, Promote(r, slot, a), a, o, x) { MovedForgets(h, c, d, s, o, x); }
  }

  lemma {:induction false} MovedForgets(h: Layout, c: Book, d: Book, s: Service, o: Option<NetAddr>, x: NetAddr)
    requires BookOk(h, c, {}) && Knows(c, s) && !IsTried(h, c, s.net)
    requires d == c.(untried := Without(c.untried, s.net, h.newBuckets))
    requires o == if h.TriedSlot(s) in c.tried then Some(c.tried[h.TriedSlot(s)]) else None
    ensures GoodForgets(h, c, Promote(Returned(h, d, h.TriedSlot(s)), h.TriedSlot(s), s.net), s.net, o, x)
  {
    var a, slot := s.net, h.TriedSlot(s);
    assert TriedAt(h, c, slot);
    if x in c.stats && o.Some? {
      WithoutOthers(h, c, a, x);
      var e, home := Demote(d, slot), HomeSlot(h, d.stats[o.value]);
      forall t ensures UntriedAt(h, e, t) { assert UntriedAt(h, d, t); }
      assert StatOk(c.stats, o.value) && IsHome(h, c.stats[o.value], home);
      if Holds(e.untried, home, x) { VacateRefs(h, e, home, x); }
      assert UntriedAt(h, c, home);
      assert Holds(e.untried, home, x) <==> x != a && Holds(c.untried, home, x);
    }
  }

  lemma {:induction false} GoodSeats(h: Layout, b: Book, s: Service, nTime: int)
    requires BookOk(h, b, {}) && Knows(b, s)
    ensures GoodSeated(h, b, AfterGood(h, b, s, nTime), s)
  {
    var a := s.net;
    var st := b.stats[a].(nLastSuccess := nTime, nLastTry := nTime, nAttempts := 0);
    var c := Note(b, st);
    assert StatOk(b.stats, a);
    NoteOk(h, b, {}, st);
    if !IsTried(h, c, a) {
      MovedSeated(h, c, s);
      SeatedAlike(h, b, c, MovedToTried(h, c, a), s);
    }
  }

  /** Times and counts of the address itself do not matter to the tables. */
  lemma {:induction false} SeatedAlike(h: Layout, b: Book, c: Book, b': Book, s: Service)
    requires BookOk(h, b, {}) && Knows(b, s) && Knows(c, s) && !IsTried(h, b, s.net)
    requires c == b.(stats := b.stats[s.net := c.stats[s.net]]) && GoodSeated(h, c, b', s)
    ensures GoodSeated(h, b, b', s)
  {
    var a, slot := s.net, h.TriedSlot(s);
    var o := if slot in b.tried then Some(b.tried[slot]) else None;
    assert TriedAt(h, b, slot);
    forall t ensures GoodSlot(h, b, b', a, o, t) { assert GoodSlot(h, c, b', a, o, t); }
    forall x ensures GoodForgets(h, b, b', a, o, x) { assert GoodForgets(h, c, b', a, o, x); }
  }

  // ---------------------------------------------------------------- times

  /** No time is negative, and there has been a connection to every tried address. */
  ghost predicate TimesOk(h: Layout, b: Book) {
    forall a :: TimeOk(h, b, a)
  }

  ghost predicate TimeOk(h: Layout, b: Book, a: NetAddr) {
    a in b.stats ==>
      && b.stats[a].nLastTry >= 0 && b.stats[a].nLastSuccess >= 0
      && (IsTried(h, b, a) ==> b.stats[a].nLastSuccess != 0)
  }

  /** A smaller tried table, or fewer addresses, keep the times in order. */
  lemma {:induction false} TimesFewer(h: Layout, b: Book, c: Book)
    requires TimesOk(h, b)
    requires forall a :: a in c.stats ==> a in b.stats && c.stats[a] == b.stats[a]
    requires forall slot :: slot in c.tried ==> slot in b.tried && c.tried[slot] == b.tried[slot]
    ensures TimesOk(h, c)
  {
    forall a ensures TimeOk(h, c, a) { assert TimeOk(h, b, a); }
  }

  /** What is noted of an address has its times in order. */
  lemma {:induction false} TimesNote(h: Layout, b: Book, st: Stats)
    requires TimesOk(h, b) && st.nLastTry >= 0 && st.nLastSuccess >= 0
    requires IsTried(h, Note(b, st), st.service.net) ==> st.nLastSuccess != 0
    ensures TimesOk(h, Note(b, st))
  {
    forall a ensures TimeOk(h, Note(b, st), a) { assert TimeOk(h, b, a); }
  }

  lemma {:induction false} TimesAdd(h: Layout, b: Book, addr: Announced, source: NetAddr, nTimePenalty: int,
                                    now: int, routable: bool, draw: nat)
    requires BookOk(h, b, {}) && TimesOk(h, b)
    ensures TimesOk(h, AfterAdd(h, b, addr, source, nTimePenalty, now, routable, draw).0)
  {
    var a := addr.service.net;
    assert StatOk(b.stats, a) && TimeOk(h, b, a);
    var st := if a in b.stats then Refreshed(b.stats[a], addr, nTimePenalty, now)
              else Introduced(addr, source, nTimePenalty);
    if a !in b.stats { LearnRefs(h, b, st); }
    TimesNote(h, b, st);
    var c := Seated(h, Note(b, st), a, h.NewSlot(st.service, h.NewBucket(a, source)), now);
    TimesFewer(h, Note(b, st), c);
  }

  /** The address is known with this port. */
  predicate Knows(b: Book, s: Service) {
    s.net in b.stats && b.stats[s.net].service == s
  }

  /** A good connection leaves its time, whatever it is. */
  lemma {:induction false} GoodDated(h: Layout, b: Book, s: Service, nTime: int)
    requires BookOk(h, b, {}) && Knows(b, s)
    ensures var c := AfterGood(h, b, s, nTime); s.net in c.stats && c.stats[s.net].nLastSuccess == nTime
  {
    var a, slot := s.net, h.TriedSlot(s);
    var st := b.stats[a].(nLastSuccess := nTime, nLastTry := nTime, nAttempts := 0);
    var c := Note(b, st);
    assert StatOk(b.stats, a);
    NoteOk(h, b, {}, st);
    if !IsTried(h, c, a) {
      var d := c.(untried := Without(c.untried, a, h.newBuckets));
      WithoutOthers(h, c, a, a);
      forall t ensures TriedAt(h, d, t) { assert TriedAt(h, c, t); }
      if slot in d.tried { EvictForgets(h, d, slot, a, a); }
    }
  }

  /** The times stay in order exactly if a known address is marked good at a positive time. */
  lemma {:induction false} GoodTimes(h: Layout, b: Book, s: Service, nTime: int)
    requires BookOk(h, b, {}) && TimesOk(h, b)
    ensures TimesOk(h, AfterGood(h, b, s, nTime)) <==> (Knows(b, s) ==> nTime > 0)
  {
    if Knows(b, s) && nTime <= 0 {
      GoodMoves(h, b, s, nTime, s.net);
      GoodDated(h, b, s, nTime);
      assert !TimeOk(h, AfterGood(h, b, s, nTime), s.net);
    } else {
      TimesGood(h, b, s, nTime);
    }
  }

  /** The times stay in order exactly if a known address is tried at a time that is not negative. */
  lemma {:induction false} AttemptTimes(h: Layout, b: Book, s: Service, nTime: int)
    requires BookOk(h, b, {}) && TimesOk(h, b)
    ensures TimesOk(h, AfterAttempt(b, s, nTime)) <==> (Knows(b, s) ==> nTime >= 0)
  {
    if Knows(b, s) && nTime < 0 {
      assert StatOk(b.stats, s.net);
      assert !TimeOk(h, AfterAttempt(b, s, nTime), s.net);
    } else {
      TimesAttempt(h, b, s, nTime);
    }
  }

  lemma {:induction false} TimesGood(h: Layout, b: Book, s: Service, nTime: int)
    requires BookOk(h, b, {}) && TimesOk(h, b) && (Knows(b, s) ==> nTime > 0)
    ensures TimesOk(h, AfterGood(h, b, s, nTime))
  {
    if s.net in b.stats && b.stats[s.net].service == s {
      var a, slot := s.net, h.TriedSlot(s);
      var st := b.stats[a].(nLastSuccess := nTime, nLastTry := nTime, nAttempts := 0);
      assert StatOk(b.stats, a);
      TimesNote(h, b, st);
      var c := Note(b, st);
      if !IsTried(h, c, a) {
        var d := Returned(h, c.(untried := Without(c.untried, a, h.newBuckets)), slot);
        TimesFewer(h, c, d);
        forall x ensures TimeOk(h, Promote(d, slot, a), x) { assert TimeOk(h, d, x); }
      }
    }
  }

  lemma {:induction false} TimesAttempt(h: Layout, b: Book, s: Service, nTime: int)
    requires BookOk(h, b, {}) && TimesOk(h, b) && (Knows(b, s) ==> nTime >= 0)
    ensures TimesOk(h, AfterAttempt(b, s, nTime))
  {
    if s.net in b.stats && b.stats[s.net].service == s {
      assert TimeOk(h, b, s.net) && StatOk(b.stats, s.net);
      TimesNote(h, b, b.stats[s.net].(nLastTry := nTime, nAttempts := b.stats[s.net].nAttempts + 1));
    }
  }

  lemma {:induction false} TimesConnected(h: Layout, b: Book, s: Service, nTime: int)
    requires BookOk(h, b, {}) && TimesOk(h, b)
    ensures TimesOk(h, AfterConnected(b, s, nTime))
  {
    if s.net in b.stats && b.stats[s.net].service == s {
      assert TimeOk(h, b, s.net) && StatOk(b.stats, s.net);
      TimesNote(h, b, b.stats[s.net].(nTime := U32(nTime)));
    }
  }
}
