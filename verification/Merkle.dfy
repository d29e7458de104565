/**
 * Partial Merkle trees (`CPartialMerkleTree`), the format of the section
 * "Partial Merkle branch format" of BIP 37.
 *
 * The pair hash is a parameter; nothing is known about it unless stated.
 */
module Merkle {
  import opened Basics
  import opened Powers

  /** A hash as a number; no proof depends on how many bits it has. */
  datatype Hash = Hash(n: nat)

  const ZERO := Hash(0)

  const MAX_BLOCK_SIZE := 1000000

  type Pairing = (Hash, Hash) -> Hash

  // -------------------------------------------------------------- tree shape

  /** The number of nodes at a height over `n` leaves: half as many as one level down, rounded up. */
  function Width(n: nat, height: nat): nat {
    if height == 0 then n else (Width(n, height - 1) + 1) / 2
  }

  /** `CalcTreeWidth` computes the width with one shift. */
  function CalcTreeWidth(n: nat, height: nat): nat {
    PowPositive(2, height);
    (n + Pow(2, height) - 1) / Pow(2, height)
  }

  lemma {:induction false} HalfCeil(n: nat, p: nat, w: nat, r: nat)
    requires 0 <= r < p && n + p - 1 == w * p + r
    ensures (n + 2 * p - 1) / (2 * p) == (w + 1) / 2
  {
    var v := (w + 1) / 2;
    Assoc(v, 2, p);
    if w == 2 * v {
      DivModUnique(n + 2 * p - 1, 2 * p, v, r + p);
    } else {
      assert v * 2 * p == w * p + p;
      DivModUnique(n + 2 * p - 1, 2 * p, v, r);
    }
  }

  lemma {:induction false} WidthIsShift(n: nat, height: nat)
    ensures CalcTreeWidth(n, height) == Width(n, height)
  {
    if height > 0 {
      WidthIsShift(n, height - 1);
      PowPositive(2, height - 1);
      HalfCeilQuotient(n, Pow(2, height - 1), Width(n, height - 1));
    }
  }

  lemma {:induction false} HalfCeilQuotient(n: nat, p: nat, w: nat)
    requires p > 0 && (n + p - 1) / p == w
    ensures (n + 2 * p - 1) / (2 * p) == (w + 1) / 2
  {
    HalfCeil(n, p, w, (n + p - 1) % p);
  }

  /** The first leaf below a node. */
  function Begin(height: nat, pos: nat): nat {
    if height == 0 then pos else Begin(height - 1, pos * 2)
  }

  lemma {:induction false} BeginIsShift(height: nat, pos: nat)
    ensures Begin(height, pos) == pos * Pow(2, height)
  {
    if height > 0 {
      BeginIsShift(height - 1, pos * 2);
      Assoc(pos, 2, Pow(2, height - 1));
    }
  }

  lemma {:induction false} BeginMono(height: nat, pos: nat)
    ensures Begin(height, pos) < Begin(height, pos + 1)
  {
    if height > 0 {
      BeginMono(height - 1, pos * 2);
      BeginMono(height - 1, pos * 2 + 1);
    }
  }

  /** The nodes of a level are those whose first leaf exists. */
  lemma {:induction false} WidthIff(n: nat, height: nat, pos: nat)
    ensures pos < Width(n, height) <==> Begin(height, pos) < n
  {
    if height > 0 { WidthIff(n, height - 1, pos * 2); }
  }

  /** The first height from `h` on with at most one node. */
  function HeightFrom(n: nat, h: nat): nat
    decreases Width(n, h)
  {
    if Width(n, h) <= 1 then h else HeightFrom(n, h + 1)
  }

  lemma {:induction false} HeightIsFirst(n: nat, h: nat)
    ensures h <= HeightFrom(n, h) && Width(n, HeightFrom(n, h)) <= 1
    ensures HeightFrom(n, h) > h ==> Width(n, HeightFrom(n, h) - 1) > 1
    decreases Width(n, h)
  {
    if Width(n, h) > 1 { HeightIsFirst(n, h + 1); }
  }

  /** The root stands for all leaves. */
  lemma {:induction false} RootRange(n: nat, h: nat)
    requires n > 0 && Width(n, h) <= 1
    ensures Width(n, h) == 1 && Begin(h, 0) == 0 && End(n, h, 0) == n
  {
    BeginIsShift(h, 0);
    WidthIff(n, h, 0);
    WidthIff(n, h, 1);
  }

  /** Within the limit on transactions, no shift of the source leaves 32 bits. */
  lemma {:induction false} ShiftsFit(n: nat, height: nat, pos: nat)
    requires 0 < n <= MAX_BLOCK_SIZE / 60 && height <= HeightFrom(n, 0) && pos < Width(n, height)
    ensures n + Pow(2, height) < 0x1_0000_0000 && (pos + 1) * Pow(2, height) < 0x1_0000_0000
  {
    HeightIsFirst(n, 0);
    var top := HeightFrom(n, 0);
    if top > 0 {
      WidthIff(n, top - 1, 1);
      BeginIsShift(top - 1, 1);
      assert Pow(2, top) < 2 * n;
    }
    PowMono(2, height, top);
    WidthIff(n, height, pos);
    BeginIsShift(height, pos);
    assert (pos + 1) * Pow(2, height) == pos * Pow(2, height) + Pow(2, height);
  }

  method TreeHeight(n: nat) returns (height: nat)
    ensures height == HeightFrom(n, 0)
  {
    height := 0;
    WidthIsShift(n, 0);
    while CalcTreeWidth(n, height) > 1
      invariant CalcTreeWidth(n, height) == Width(n, height)
      invariant HeightFrom(n, height) == HeightFrom(n, 0)
      decreases Width(n, height)
    {
      height := height + 1;
      WidthIsShift(n, height);
    }
  }

  // --------------------------------------------------------------- the tree

  /** The tree below a node; a node without a right child repeats its left one. */
  datatype Tree = Leaf(pos: nat) | One(left: Tree) | Two(left: Tree, right: Tree)

  function Shape(n: nat, height: nat, pos: nat): Tree {
    if height == 0 then Leaf(pos)
    else
      var left := Shape(n, height - 1, pos * 2);
      if pos * 2 + 1 < Width(n, height - 1) then Two(left, Shape(n, height - 1, pos * 2 + 1)) else One(left)
  }

  function Leaves(t: Tree): seq<nat> {
    match t
    case Leaf(pos) => [pos]
    case One(l) => Leaves(l)
    case Two(l, r) => Leaves(l) + Leaves(r)
  }

  /** The end of the leaves a node stands for. */
  function End(n: nat, height: nat, pos: nat): nat {
    if Begin(height, pos + 1) < n then Begin(height, pos + 1) else n
  }

  predicate Consecutive(s: seq<nat>, lo: nat) {
    forall i :: 0 <= i < |s| ==> s[i] == lo + i
  }

  /** A node of a level stands for the consecutive leaves that its position shifted up says. */
  lemma {:induction false} LeavesShape(n: nat, height: nat, pos: nat)
    requires pos < Width(n, height)
    ensures Begin(height, pos) < End(n, height, pos) <= n
    ensures |Leaves(Shape(n, height, pos))| == End(n, height, pos) - Begin(height, pos)
    ensures Consecutive(Leaves(Shape(n, height, pos)), Begin(height, pos))
  {
    WidthIff(n, height, pos);
    BeginMono(height, pos);
    if height > 0 {
      var l, r := pos * 2, pos * 2 + 1;
      LeavesShape(n, height - 1, l);
      WidthIff(n, height - 1, r);
      BeginMono(height - 1, r);
      assert (pos + 1) * 2 == r + 1;
      if r < Width(n, height - 1) {
        LeavesShape(n, height - 1, r);
        ConsecutiveJoin(Leaves(Shape(n, height - 1, l)), Leaves(Shape(n, height - 1, r)), Begin(height, pos));
      }
    }
  }

  lemma {:induction false} ConsecutiveJoin(s: seq<nat>, t: seq<nat>, lo: nat)
    requires Consecutive(s, lo) && Consecutive(t, lo + |s|)
    ensures Consecutive(s + t, lo)
  {
  }

  predicate Within(t: Tree, n: nat) {
    match t
    case Leaf(pos) => pos < n
    case One(l) => Within(l, n)
    case Two(l, r) => Within(l, n) && Within(r, n)
  }

  lemma {:induction false} ShapeWithin(n: nat, height: nat, pos: nat)
    requires pos < Width(n, height)
    ensures Within(Shape(n, height, pos), n)
  {
    if height > 0 {
      ShapeWithin(n, height - 1, pos * 2);
      if pos * 2 + 1 < Width(n, height - 1) { ShapeWithin(n, height - 1, pos * 2 + 1); }
    }
  }

  /** The hash of a node of the full tree. */
  function Root(comb: Pairing, txids: seq<Hash>, t: Tree): Hash
    requires Within(t, |txids|)
  {
    match t
    case Leaf(pos) => txids[pos]
    case One(l) => comb(Root(comb, txids, l), Root(comb, txids, l))
    case Two(l, r) => comb(Root(comb, txids, l), Root(comb, txids, r))
  }

  /** `CalcHash` */
  function CalcHash(comb: Pairing, txids: seq<Hash>, height: nat, pos: nat): (h: Hash)
    requires pos < Width(|txids|, height)
    ensures Within(Shape(|txids|, height, pos), |txids|)
    ensures h == Root(comb, txids, Shape(|txids|, height, pos))
  {
    ShapeWithin(|txids|, height, pos);
    if height == 0 then txids[pos]
    else
      var left := CalcHash(comb, txids, height - 1, pos * 2);
      comb(left, if pos * 2 + 1 < Width(|txids|, height - 1) then CalcHash(comb, txids, height - 1, pos * 2 + 1)
                 else left)
  }

  // ------------------------------------------------------- flagged transactions

  /** The transactions at those of the given leaves that are flagged, in order. */
  function Pick(txids: seq<Hash>, flags: seq<bool>, ps: seq<nat>): seq<Hash>
    requires |txids| == |flags|
  {
    if ps == [] then []
    else (if ps[0] < |flags| && flags[ps[0]] then [txids[ps[0]]] else []) + Pick(txids, flags, ps[1..])
  }

  lemma {:induction false} PickConcat(txids: seq<Hash>, flags: seq<bool>, ps: seq<nat>, qs: seq<nat>)
    requires |txids| == |flags|
    ensures Pick(txids, flags, ps + qs) == Pick(txids, flags, ps) + Pick(txids, flags, qs)
  {
    if ps == [] {
      assert ps + qs == qs;
    } else {
      PickConcat(txids, flags, ps[1..], qs);
      assert (ps + qs)[1..] == ps[1..] + qs && (ps + qs)[0] == ps[0];
      var head := if ps[0] < |flags| && flags[ps[0]] then [txids[ps[0]]] else [];
      assert Pick(txids, flags, ps + qs) == head + (Pick(txids, flags, ps[1..]) + Pick(txids, flags, qs));
    }
  }

  predicate AnyFlag(flags: seq<bool>, t: Tree) {
    match t
    case Leaf(pos) => pos < |flags| && flags[pos]
    case One(l) => AnyFlag(flags, l)
    case Two(l, r) => AnyFlag(flags, l) || AnyFlag(flags, r)
  }

  lemma {:induction false} AnyFlagLeaves(flags: seq<bool>, t: Tree)
    ensures AnyFlag(flags, t) <==> exists p :: p in Leaves(t) && p < |flags| && flags[p]
  {
    match t
    case Leaf(pos) =>
      assert pos in Leaves(t);
    case One(l) => AnyFlagLeaves(flags, l);
    case Two(l, r) =>
      AnyFlagLeaves(flags, l);
      AnyFlagLeaves(flags, r);
      assert forall p :: p in Leaves(t) <==> p in Leaves(l) || p in Leaves(r);
  }

  // ------------------------------------------------------------- building

  datatype Proof = Proof(bits: seq<bool>, hashes: seq<Hash>)

  /** What is known about a node: whether a leaf below is flagged, its hash, what it contributes to
      the proof, and the flagged transactions below. */
  datatype Info = Info(any: bool, root: Hash, proof: Proof, flagged: seq<Hash>)

  function LeafInfo(txid: Hash, flag: bool): Info {
    Info(flag, txid, Proof([flag], [txid]), if flag then [txid] else [])
  }

  function OneInfo(comb: Pairing, l: Info): Info {
    var h := comb(l.root, l.root);
    Info(l.any, h, if l.any then Proof([true] + l.proof.bits, l.proof.hashes) else Proof([false], [h]), l.flagged)
  }

  function TwoInfo(comb: Pairing, l: Info, r: Info): Info {
    var h := comb(l.root, r.root);
    Info(l.any || r.any, h,
         if l.any || r.any then Proof([true] + l.proof.bits + r.proof.bits, l.proof.hashes + r.proof.hashes)
         else Proof([false], [h]),
         l.flagged + r.flagged)
  }

  function Build(comb: Pairing, txids: seq<Hash>, flags: seq<bool>, t: Tree): Info
    requires |txids| == |flags|
  {
    match t
    case Leaf(pos) => if pos < |txids| then LeafInfo(txids[pos], flags[pos]) else LeafInfo(ZERO, false)
    case One(l) => OneInfo(comb, Build(comb, txids, flags, l))
    case Two(l, r) => TwoInfo(comb, Build(comb, txids, flags, l), Build(comb, txids, flags, r))
  }

  /** The parts of a node's description, each stated on its own. */
  lemma {:induction false} BuildParts(comb: Pairing, txids: seq<Hash>, flags: seq<bool>, t: Tree)
    requires |txids| == |flags| && Within(t, |txids|)
    ensures var i := Build(comb, txids, flags, t);
            i.any == AnyFlag(flags, t) && i.root == Root(comb, txids, t)
  {
    match t
    case Leaf(_) =>
    case One(l) => BuildParts(comb, txids, flags, l);
    case Two(l, r) => BuildParts(comb, txids, flags, l); BuildParts(comb, txids, flags, r);
  }

  lemma {:induction false} FlaggedIsPicked(comb: Pairing, txids: seq<Hash>, flags: seq<bool>, t: Tree)
    requires |txids| == |flags|
    ensures Build(comb, txids, flags, t).flagged == Pick(txids, flags, Leaves(t))
  {
    match t
    case Leaf(pos) =>
    case One(l) => FlaggedIsPicked(comb, txids, flags, l);
    case Two(l, r) =>
      FlaggedIsPicked(comb, txids, flags, l);
      FlaggedIsPicked(comb, txids, flags, r);
      PickConcat(txids, flags, Leaves(l), Leaves(r));
  }

  lemma {:induction false} NoneFlagged(comb: Pairing, txids: seq<Hash>, flags: seq<bool>, t: Tree)
    requires |txids| == |flags| && !Build(comb, txids, flags, t).any
    ensures Build(comb, txids, flags, t).flagged == []
  {
    match t
    case Leaf(_) =>
    case One(l) => NoneFlagged(comb, txids, flags, l);
    case Two(l, r) => NoneFlagged(comb, txids, flags, l); NoneFlagged(comb, txids, flags, r);
  }

  /** A node needs at most one hash per leaf, and has at least one bit per hash. */
  lemma {:induction false} BuildSize(comb: Pairing, txids: seq<Hash>, flags: seq<bool>, t: Tree)
    requires |txids| == |flags|
    ensures var p := Build(comb, txids, flags, t).proof;
            1 <= |p.hashes| <= |p.bits| && |p.hashes| <= |Leaves(t)|
  {
    match t
    case Leaf(_) =>
    case One(l) => BuildSize(comb, txids, flags, l);
    case Two(l, r) => BuildSize(comb, txids, flags, l); BuildSize(comb, txids, flags, r);
  }

  // ------------------------------------------------------------ extracting

  /** What extraction finds below a node: whether it ran off either array, how far it got,
      the hash it computed, and the matched hashes with the leaves they were found at. */
  datatype Walk = Walk(bad: bool, bitsUsed: nat, hashUsed: nat, hash: Hash, matches: seq<Hash>, leaves: seq<nat>)

  function Stop(t: Tree, bits: seq<bool>, hashes: seq<Hash>, bitsUsed: nat, hashUsed: nat): Walk
    requires bitsUsed < |bits|
  {
    if hashUsed >= |hashes| then Walk(true, bitsUsed + 1, hashUsed, ZERO, [], [])
    else
      var h := hashes[hashUsed];
      var hit := t.Leaf? && bits[bitsUsed];
      Walk(false, bitsUsed + 1, hashUsed + 1, h, if hit then [h] else [], if hit then [t.pos] else [])
  }

  function JoinWalks(comb: Pairing, l: Walk, r: Walk): Walk {
    Walk(l.bad || r.bad, r.bitsUsed, r.hashUsed, comb(l.hash, r.hash), l.matches + r.matches, l.leaves + r.leaves)
  }

  function Extract(comb: Pairing, bits: seq<bool>, hashes: seq<Hash>, t: Tree, bitsUsed: nat, hashUsed: nat): Walk {
    if bitsUsed >= |bits| then Walk(true, bitsUsed, hashUsed, ZERO, [], [])
    else if t.Leaf? || !bits[bitsUsed] then Stop(t, bits, hashes, bitsUsed, hashUsed)
    else
      var l := Extract(comb, bits, hashes, t.left, bitsUsed + 1, hashUsed);
      if t.One? then l.(hash := comb(l.hash, l.hash))
      else JoinWalks(comb, l, Extract(comb, bits, hashes, t.right, l.bitsUsed, l.hashUsed))
  }

  /** The proof of a node stands in the arrays at the given places. */
  ghost predicate Placed(p: Proof, bits: seq<bool>, hashes: seq<Hash>, bitsUsed: nat, hashUsed: nat) {
    && Stands(bits, bitsUsed, bitsUsed + |p.bits|, p.bits)
    && Stands(hashes, hashUsed, hashUsed + |p.hashes|, p.hashes)
  }

  /** Where the proofs of two children stand. */
  lemma {:induction false} PlacedParts(l: Proof, r: Proof, bits: seq<bool>, hashes: seq<Hash>, bitsUsed: nat,
                                       hashUsed: nat)
    requires Placed(Proof([true] + l.bits + r.bits, l.hashes + r.hashes), bits, hashes, bitsUsed, hashUsed)
    ensures bitsUsed < |bits| && bits[bitsUsed]
    ensures Placed(l, bits, hashes, bitsUsed + 1, hashUsed)
    ensures Placed(r, bits, hashes, bitsUsed + 1 + |l.bits|, hashUsed + |l.hashes|)
  {
    var k := bitsUsed + 1 + |l.bits|;
    Halves(bits, bitsUsed, k + |r.bits|, [true] + l.bits, r.bits);
    Halves(bits, bitsUsed, k, [true], l.bits);
    Halves(hashes, hashUsed, hashUsed + |l.hashes| + |r.hashes|, l.hashes, r.hashes);
    assert bits[bitsUsed..bitsUsed + 1][0] == bits[bitsUsed];
  }

  lemma {:induction false} PlacedPart(l: Proof, bits: seq<bool>, hashes: seq<Hash>, bitsUsed: nat, hashUsed: nat)
    requires Placed(Proof([true] + l.bits, l.hashes), bits, hashes, bitsUsed, hashUsed)
    ensures bitsUsed < |bits| && bits[bitsUsed]
    ensures Placed(l, bits, hashes, bitsUsed + 1, hashUsed)
  {
    Halves(bits, bitsUsed, bitsUsed + 1 + |l.bits|, [true], l.bits);
    assert bits[bitsUsed..bitsUsed + 1][0] == bits[bitsUsed];
  }

  /** A walk that read back the whole proof of a node, its hash and exactly the flagged transactions. */
  predicate Recovered(w: Walk, i: Info, bitsUsed: nat, hashUsed: nat) {
    && !w.bad && w.bitsUsed == bitsUsed + |i.proof.bits| && w.hashUsed == hashUsed + |i.proof.hashes|
    && w.hash == i.root && w.matches == i.flagged
  }

  lemma {:induction false} RecoverOne(comb: Pairing, w: Walk, l: Info, bitsUsed: nat, hashUsed: nat)
    requires l.any && Recovered(w, l, bitsUsed + 1, hashUsed)
    ensures Recovered(w.(hash := comb(w.hash, w.hash)), OneInfo(comb, l), bitsUsed, hashUsed)
  {
  }

  lemma {:induction false} RecoverTwo(comb: Pairing, wl: Walk, wr: Walk, l: Info, r: Info, bitsUsed: nat, hashUsed: nat)
    requires l.any || r.any
    requires Recovered(wl, l, bitsUsed + 1, hashUsed)
    requires Recovered(wr, r, bitsUsed + 1 + |l.proof.bits|, hashUsed + |l.proof.hashes|)
    ensures Recovered(JoinWalks(comb, wl, wr), TwoInfo(comb, l, r), bitsUsed, hashUsed)
  {
  }

  lemma {:induction false} RecoverStop(comb: Pairing, txids: seq<Hash>, flags: seq<bool>, t: Tree,
                    bits: seq<bool>, hashes: seq<Hash>, bitsUsed: nat, hashUsed: nat)
    requires |txids| == |flags| && (t.Leaf? || !Build(comb, txids, flags, t).any)
    requires Placed(Build(comb, txids, flags, t).proof, bits, hashes, bitsUsed, hashUsed)
    ensures bitsUsed < |bits| && (t.Leaf? || !bits[bitsUsed])
    ensures Recovered(Stop(t, bits, hashes, bitsUsed, hashUsed), Build(comb, txids, flags, t), bitsUsed, hashUsed)
  {
    var i := Build(comb, txids, flags, t);
    assert i.proof == Proof([i.any], [i.root]);
    if !i.any {
      NoneFlagged(comb, txids, flags, t);
    }
    StopReads(t, bits, hashes, bitsUsed, hashUsed, i);
  }

  lemma {:induction false} StopReads(t: Tree, bits: seq<bool>, hashes: seq<Hash>, bitsUsed: nat, hashUsed: nat, i: Info)
    requires i.proof == Proof([i.any], [i.root]) && Placed(i.proof, bits, hashes, bitsUsed, hashUsed)
    requires if i.any then t.Leaf? && i.flagged == [i.root] else i.flagged == []
    ensures bitsUsed < |bits| && (t.Leaf? || !bits[bitsUsed])
    ensures Recovered(Stop(t, bits, hashes, bitsUsed, hashUsed), i, bitsUsed, hashUsed)
  {
    assert bits[bitsUsed..bitsUsed + 1][0] == bits[bitsUsed];
    assert hashes[hashUsed..hashUsed + 1][0] == hashes[hashUsed];
  }

  /** Wherever the proof of a node stands in the arrays, extraction reads it back. */
  lemma {:induction false} ExtractBuild(comb: Pairing, txids: seq<Hash>, flags: seq<bool>, t: Tree,
                                        bits: seq<bool>, hashes: seq<Hash>, bitsUsed: nat, hashUsed: nat)
    requires |txids| == |flags|
    requires Placed(Build(comb, txids, flags, t).proof, bits, hashes, bitsUsed, hashUsed)
    ensures Recovered(Extract(comb, bits, hashes, t, bitsUsed, hashUsed), Build(comb, txids, flags, t), bitsUsed,
                      hashUsed)
    decreases t, 1
  {
    if t.Leaf? || !Build(comb, txids, flags, t).any {
      RecoverStop(comb, txids, flags, t, bits, hashes, bitsUsed, hashUsed);
    } else if t.One? {
      var l := Build(comb, txids, flags, t.left);
      PlacedPart(l.proof, bits, hashes, bitsUsed, hashUsed);
      ExtractBuild(comb, txids, flags, t.left, bits, hashes, bitsUsed + 1, hashUsed);
      RecoverOne(comb, Extract(comb, bits, hashes, t.left, bitsUsed + 1, hashUsed), l, bitsUsed, hashUsed);
    } else {
      ExtractBoth(comb, txids, flags, t, bits, hashes, bitsUsed, hashUsed);
    }
  }

  /** The same for a node with two children. */
  lemma {:induction false} ExtractBoth(comb: Pairing, txids: seq<Hash>, flags: seq<bool>, t: Tree,
                                       bits: seq<bool>, hashes: seq<Hash>, bitsUsed: nat, hashUsed: nat)
    requires |txids| == |flags| && t.Two? && Build(comb, txids, flags, t).any
    requires Placed(Build(comb, txids, flags, t).proof, bits, hashes, bitsUsed, hashUsed)
    ensures Recovered(Extract(comb, bits, hashes, t, bitsUsed, hashUsed), Build(comb, txids, flags, t), bitsUsed,
                      hashUsed)
    decreases t, 0
  {
    var l, r := Build(comb, txids, flags, t.left), Build(comb, txids, flags, t.right);
    PlacedParts(l.proof, r.proof, bits, hashes, bitsUsed, hashUsed);
    var wl := Extract(comb, bits, hashes, t.left, bitsUsed + 1, hashUsed);
    ExtractBuild(comb, txids, flags, t.left, bits, hashes, bitsUsed + 1, hashUsed);
    var wr := Extract(comb, bits, hashes, t.right, wl.bitsUsed, wl.hashUsed);
    ExtractBuild(comb, txids, flags, t.right, bits, hashes, wl.bitsUsed, wl.hashUsed);
    RecoverTwo(comb, wl, wr, l, r, bitsUsed, hashUsed);
    ExtractJoins(comb, bits, hashes, t, bitsUsed, hashUsed);
  }

  lemma {:induction false} ExtractJoins(comb: Pairing, bits: seq<bool>, hashes: seq<Hash>, t: Tree, bitsUsed: nat,
                                        hashUsed: nat)
    requires t.Two? && bitsUsed < |bits| && bits[bitsUsed]
    ensures var l := Extract(comb, bits, hashes, t.left, bitsUsed + 1, hashUsed);
            Extract(comb, bits, hashes, t, bitsUsed, hashUsed)
            == JoinWalks(comb, l, Extract(comb, bits, hashes, t.right, l.bitsUsed, l.hashUsed))
  {
  }

  // -------------------------------------------------------------- soundness

  /** Two different pairs with one hash. */
  datatype Collision = Collision(a: Hash, b: Hash, c: Hash, d: Hash) {
    predicate Of(comb: Pairing) {
      comb(a, b) == comb(c, d) && (a != c || b != d)
    }
  }

  /** The matches of a walk are the ids at the leaves where they were found. */
  predicate Genuine(w: Walk, txids: seq<Hash>) {
    && |w.matches| == |w.leaves|
    && forall i :: 0 <= i < |w.leaves| ==> w.leaves[i] < |txids| && w.matches[i] == txids[w.leaves[i]]
  }

  /** A walk that ends in the right hash has genuine matches, or shows a collision. */
  lemma {:induction false} GenuineOrCollision(comb: Pairing, txids: seq<Hash>, t: Tree,
                                              bits: seq<bool>, hashes: seq<Hash>, bitsUsed: nat, hashUsed: nat)
    returns (x: Collision)
    requires Within(t, |txids|)
    requires var w := Extract(comb, bits, hashes, t, bitsUsed, hashUsed); !w.bad && w.hash == Root(comb, txids, t)
    ensures Genuine(Extract(comb, bits, hashes, t, bitsUsed, hashUsed), txids) || x.Of(comb)
  {
    x := Collision(ZERO, ZERO, ZERO, ZERO);
    if bitsUsed < |bits| && bits[bitsUsed] && !t.Leaf? {
      var l := Extract(comb, bits, hashes, t.left, bitsUsed + 1, hashUsed);
      var left := Root(comb, txids, t.left);
      var r := if t.Two? then Extract(comb, bits, hashes, t.right, l.bitsUsed, l.hashUsed) else l;
      var right := if t.Two? then Root(comb, txids, t.right) else left;
      if l.hash != left || r.hash != right {
        return Collision(l.hash, r.hash, left, right);
      }
      x := GenuineOrCollision(comb, txids, t.left, bits, hashes, bitsUsed + 1, hashUsed);
      if t.Two? && !x.Of(comb) {
        x := GenuineOrCollision(comb, txids, t.right, bits, hashes, l.bitsUsed, l.hashUsed);
      }
    }
  }

  predicate Ascending(ps: seq<nat>, lo: nat, hi: nat) {
    && (forall i :: 0 <= i < |ps| ==> lo <= ps[i] < hi)
    && (forall i, j :: 0 <= i < j < |ps| ==> ps[i] < ps[j])
  }

  lemma {:induction false} AscendingJoin(a: seq<nat>, b: seq<nat>, lo: nat, mid: nat, hi: nat)
    requires Ascending(a, lo, mid) && Ascending(b, mid, hi) && lo <= mid <= hi
    ensures Ascending(a + b, lo, hi)
  {
  }

  /** The leaves of a tree are in a range, from left to right. */
  ghost predicate Ranged(t: Tree, lo: nat, hi: nat) {
    match t
    case Leaf(pos) => lo <= pos < hi
    case One(l) => Ranged(l, lo, hi)
    case Two(l, r) => exists mid: nat :: lo <= mid <= hi && Ranged(l, lo, mid) && Ranged(r, mid, hi)
  }

  lemma {:induction false} RangedMono(t: Tree, lo: nat, mid: nat, hi: nat)
    requires Ranged(t, lo, mid) && mid <= hi
    ensures Ranged(t, lo, hi)
  {
    if t.One? {
      RangedMono(t.left, lo, mid, hi);
    } else if t.Two? {
      var m: nat :| lo <= m <= mid && Ranged(t.left, lo, m) && Ranged(t.right, m, mid);
      RangedMono(t.right, m, mid, hi);
    }
  }

  lemma {:induction false} ShapeRanged(n: nat, height: nat, pos: nat)
    ensures Ranged(Shape(n, height, pos), Begin(height, pos), Begin(height, pos + 1))
  {
    if height > 0 {
      ShapeRanged(n, height - 1, pos * 2);
      BeginMono(height - 1, pos * 2);
      BeginMono(height - 1, pos * 2 + 1);
      assert (pos + 1) * 2 == pos * 2 + 2;
      if pos * 2 + 1 < Width(n, height - 1) {
        ShapeRanged(n, height - 1, pos * 2 + 1);
      } else {
        RangedMono(Shape(n, height - 1, pos * 2), Begin(height, pos), Begin(height - 1, pos * 2 + 1),
                   Begin(height, pos + 1));
      }
    }
  }

  /** Matches are found at different leaves of the node, from left to right. */
  lemma {:induction false} LeavesFoundInOrder(comb: Pairing, t: Tree, lo: nat, hi: nat, bits: seq<bool>,
                                              hashes: seq<Hash>, bitsUsed: nat, hashUsed: nat)
    requires Ranged(t, lo, hi)
    ensures Ascending(Extract(comb, bits, hashes, t, bitsUsed, hashUsed).leaves, lo, hi)
  {
    if !t.Leaf? && bitsUsed < |bits| && bits[bitsUsed] {
      var l := Extract(comb, bits, hashes, t.left, bitsUsed + 1, hashUsed);
      if t.One? {
        LeavesFoundInOrder(comb, t.left, lo, hi, bits, hashes, bitsUsed + 1, hashUsed);
      } else {
        var mid: nat :| lo <= mid <= hi && Ranged(t.left, lo, mid) && Ranged(t.right, mid, hi);
        var r := Extract(comb, bits, hashes, t.right, l.bitsUsed, l.hashUsed);
        LeavesFoundInOrder(comb, t.left, lo, mid, bits, hashes, bitsUsed + 1, hashUsed);
        LeavesFoundInOrder(comb, t.right, mid, hi, bits, hashes, l.bitsUsed, l.hashUsed);
        AscendingJoin(l.leaves, r.leaves, lo, mid, hi);
      }
    }
  }

  // ---------------------------------------------------------------- the class

  /** What `ExtractMatches` answers on arbitrary contents: the root, or zero if a check fails,
      and the matches collected on the way. */
  function Answer(comb: Pairing, n: nat, bits: seq<bool>, hashes: seq<Hash>, bad: bool): (Hash, seq<Hash>) {
    if n == 0 || n > MAX_BLOCK_SIZE / 60 || |hashes| > n || |bits| < |hashes| then (ZERO, [])
    else
      var w := Extract(comb, bits, hashes, Shape(n, HeightFrom(n, 0), 0), 0, 0);
      if bad || w.bad || (w.bitsUsed + 7) / 8 != (|bits| + 7) / 8 || w.hashUsed != |hashes| then (ZERO, w.matches)
      else (w.hash, w.matches)
  }

  function MerkleRoot(comb: Pairing, txids: seq<Hash>): Hash
    requires |txids| > 0
  {
    HeightIsFirst(|txids|, 0);
    RootRange(|txids|, HeightFrom(|txids|, 0));
    CalcHash(comb, txids, HeightFrom(|txids|, 0), 0)
  }

  /** What the node at a height and position contributes to the proof. */
  function NodeProof(comb: Pairing, txids: seq<Hash>, flags: seq<bool>, height: nat, pos: nat): Proof
    requires |txids| == |flags|
  {
    Build(comb, txids, flags, Shape(|txids|, height, pos)).proof
  }

  lemma {:induction false} NodeProofStep(comb: Pairing, txids: seq<Hash>, flags: seq<bool>, height: nat, pos: nat)
    requires |txids| == |flags| && pos < Width(|txids|, height)
    ensures NodeProof(comb, txids, flags, height, pos)
         == var any := AnyFlag(flags, Shape(|txids|, height, pos));
            if height == 0 || !any then Proof([any], [CalcHash(comb, txids, height, pos)])
            else
              var l := NodeProof(comb, txids, flags, height - 1, pos * 2);
              if pos * 2 + 1 < Width(|txids|, height - 1) then
                var r := NodeProof(comb, txids, flags, height - 1, pos * 2 + 1);
                Proof([true] + l.bits + r.bits, l.hashes + r.hashes)
              else Proof([true] + l.bits, l.hashes)
  {
    ShapeWithin(|txids|, height, pos);
    BuildParts(comb, txids, flags, Shape(|txids|, height, pos));
  }

  lemma {:induction false} Appended<T>(a: seq<T>, b: seq<T>, c: seq<T>, d: seq<T>)
    ensures a + b + c + d == a + (b + c + d)
    ensures a + b + c == a + (b + c)
    ensures a + [] == a && [] + c == c && a + b + c + [] == a + (b + c)
  {
  }

  class PartialMerkleTree {
    const comb: Pairing
    var nTransactions: nat
    var vBits: seq<bool>
    var vHash: seq<Hash>
    var fBad: bool

    /** The constructor from a list of transactions and a mask over them. */
    constructor (comb: Pairing, vTxid: seq<Hash>, vMatch: seq<bool>)
      requires |vTxid| == |vMatch| > 0
      ensures this.comb == comb && nTransactions == |vTxid| && !fBad
      ensures Proof(vBits, vHash) == NodeProof(comb, vTxid, vMatch, HeightFrom(|vTxid|, 0), 0)
    {
      this.comb := comb;
      nTransactions, fBad := |vTxid|, false;
      vBits, vHash := [], [];
      new;
      var nHeight := TreeHeight(nTransactions);
      HeightIsFirst(|vTxid|, 0);
      RootRange(|vTxid|, nHeight);
      TraverseAndBuild(nHeight, 0, vTxid, vMatch);
    }

    method TraverseAndBuild(height: nat, pos: nat, vTxid: seq<Hash>, vMatch: seq<bool>)
      requires |vTxid| == |vMatch| == nTransactions && pos < Width(nTransactions, height)
      modifies this`vBits, this`vHash
      ensures vBits == old(vBits) + NodeProof(comb, vTxid, vMatch, height, pos).bits
      ensures vHash == old(vHash) + NodeProof(comb, vTxid, vMatch, height, pos).hashes
      decreases height
    {
      NodeProofStep(comb, vTxid, vMatch, height, pos);
      ghost var p := NodeProof(comb, vTxid, vMatch, height, pos);
      ghost var bits, hashes := vBits, vHash;
      var fParentOfMatch := ParentOfMatch(height, pos, vMatch);
      vBits := vBits + [fParentOfMatch];
      if height == 0 || !fParentOfMatch {
        vHash := vHash + [CalcHash(comb, vTxid, height, pos)];
      } else {
        ghost var l := NodeProof(comb, vTxid, vMatch, height - 1, pos * 2);
        ghost var r := Proof([], []);
        TraverseAndBuild(height - 1, pos * 2, vTxid, vMatch);
        WidthIsShift(nTransactions, height - 1);
        if pos * 2 + 1 < CalcTreeWidth(nTransactions, height - 1) {
          r := NodeProof(comb, vTxid, vMatch, height - 1, pos * 2 + 1);
          TraverseAndBuild(height - 1, pos * 2 + 1, vTxid, vMatch);
        }
        Appended(bits, [true], l.bits, r.bits);
        Appended(hashes, [], l.hashes, r.hashes);
      }
    }

    /** The loop at the head of `TraverseAndBuild`. */
    method ParentOfMatch(height: nat, pos: nat, vMatch: seq<bool>) returns (any: bool)
      requires |vMatch| == nTransactions && pos < Width(nTransactions, height)
      ensures any == AnyFlag(vMatch, Shape(nTransactions, height, pos))
    {
      LeavesShape(nTransactions, height, pos);
      BeginIsShift(height, pos);
      BeginIsShift(height, pos + 1);
      ghost var ps := Leaves(Shape(nTransactions, height, pos));
      any := false;
      var p := pos * Pow(2, height);
      ghost var lo := p;
      while p < (pos + 1) * Pow(2, height) && p < nTransactions
        invariant lo <= p <= lo + |ps|
        invariant any <==> exists i :: 0 <= i < p - lo && vMatch[ps[i]]
        decreases nTransactions - p
      {
        assert ps[p - lo] == p;
        any := any || vMatch[p];
        p := p + 1;
      }
      AnyFlagLeaves(vMatch, Shape(nTransactions, height, pos));
    }

    /** `TraverseAndExtract` walks as `Extract` says and remembers any overrun. */
    method TraverseAndExtract(height: nat, pos: nat, nBitsUsed: nat, nHashUsed: nat, vMatch: seq<Hash>)
      returns (hash: Hash, nBitsUsed': nat, nHashUsed': nat, vMatch': seq<Hash>)
      requires pos < Width(nTransactions, height)
      modifies this`fBad
      ensures var w := Extract(comb, vBits, vHash, Shape(nTransactions, height, pos), nBitsUsed, nHashUsed);
              && fBad == (old(fBad) || w.bad) && hash == w.hash && nBitsUsed' == w.bitsUsed && nHashUsed' == w.hashUsed
              && vMatch' == vMatch + w.matches
      decreases height
    {
      nBitsUsed', nHashUsed', vMatch' := nBitsUsed, nHashUsed, vMatch;
      if nBitsUsed >= |vBits| {
        fBad := true;
        return ZERO, nBitsUsed, nHashUsed, vMatch;
      }
      var fParentOfMatch := vBits[nBitsUsed];
      nBitsUsed' := nBitsUsed + 1;
      if height == 0 || !fParentOfMatch {
        if nHashUsed >= |vHash| {
          fBad := true;
          return ZERO, nBitsUsed', nHashUsed, vMatch;
        }
        hash := vHash[nHashUsed];
        nHashUsed' := nHashUsed + 1;
        if height == 0 && fParentOfMatch {
          vMatch' := vMatch + [hash];
        }
      } else {
        ghost var l := Extract(comb, vBits, vHash, Shape(nTransactions, height - 1, pos * 2), nBitsUsed + 1, nHashUsed);
        ghost var m := vMatch;
        var left;
        left, nBitsUsed', nHashUsed', vMatch' := TraverseAndExtract(height - 1, pos * 2, nBitsUsed', nHashUsed, vMatch);
        var right := left;
        WidthIsShift(nTransactions, height - 1);
        if pos * 2 + 1 < CalcTreeWidth(nTransactions, height - 1) {
          ghost var r := Extract(comb, vBits, vHash, Shape(nTransactions, height - 1, pos * 2 + 1), l.bitsUsed,
                                 l.hashUsed);
          right, nBitsUsed', nHashUsed', vMatch' :=
            TraverseAndExtract(height - 1, pos * 2 + 1, nBitsUsed', nHashUsed', vMatch');
          Appended(m, l.matches, r.matches, []);
        }
        hash := comb(left, right);
      }
    }

    method ExtractMatches() returns (root: Hash, vMatch: seq<Hash>)
      modifies this`fBad
      ensures (root, vMatch) == Answer(comb, nTransactions, vBits, vHash, old(fBad))
      ensures root != ZERO ==>
        && 0 < nTransactions && 60 * nTransactions <= 1_000_000 && |vHash| <= nTransactions && |vHash| <= |vBits|
        && !old(fBad)
    {
      if nTransactions == 0 || nTransactions > MAX_BLOCK_SIZE / 60 || |vHash| > nTransactions || |vBits| < |vHash| {
        return ZERO, [];
      }
      var nHeight := TreeHeight(nTransactions);
      HeightIsFirst(nTransactions, 0);
      RootRange(nTransactions, nHeight);
      var nBitsUsed, nHashUsed;
      root, nBitsUsed, nHashUsed, vMatch := TraverseAndExtract(nHeight, 0, 0, 0, []);
      assert vMatch == Extract(comb, vBits, vHash, Shape(nTransactions, nHeight, 0), 0, 0).matches;
      if fBad || (nBitsUsed + 7) / 8 != (|vBits| + 7) / 8 || nHashUsed != |vHash| {
        root := ZERO;
      }
    }
  }

  // ------------------------------------------------------------- main results

  /** Extracting from a built proof, with any padding of its last byte, passes every check and gives
      the Merkle root and exactly the flagged transactions, in order. */
  lemma {:induction false} RoundTrip(comb: Pairing, txids: seq<Hash>, flags: seq<bool>, padding: seq<bool>)
    requires 0 < |txids| == |flags| <= MAX_BLOCK_SIZE / 60
    requires var p := Build(comb, txids, flags, Shape(|txids|, HeightFrom(|txids|, 0), 0)).proof;
             (|p.bits + padding| + 7) / 8 == (|p.bits| + 7) / 8
    ensures var p := Build(comb, txids, flags, Shape(|txids|, HeightFrom(|txids|, 0), 0)).proof;
            && Answer(comb, |txids|, p.bits + padding, p.hashes, false)
               == (MerkleRoot(comb, txids), Pick(txids, flags, seq(|txids|, i => i)))
            && !Extract(comb, p.bits + padding, p.hashes, Shape(|txids|, HeightFrom(|txids|, 0), 0), 0, 0).bad
  {
    var n, h := |txids|, HeightFrom(|txids|, 0);
    HeightIsFirst(n, 0);
    RootRange(n, h);
    var t := Shape(n, h, 0);
    var i := Build(comb, txids, flags, t);
    BuildOfRoot(comb, txids, flags, h);
    ExtractWhole(comb, txids, flags, t, padding);
    AnswerOf(comb, n, i.proof.bits + padding, i.proof.hashes, i);
  }

  /** A built proof is read back whatever follows its bits. */
  lemma {:induction false} ExtractWhole(comb: Pairing, txids: seq<Hash>, flags: seq<bool>, t: Tree, padding: seq<bool>)
    requires |txids| == |flags|
    ensures var i := Build(comb, txids, flags, t);
            Recovered(Extract(comb, i.proof.bits + padding, i.proof.hashes, t, 0, 0), i, 0, 0)
  {
    var p := Build(comb, txids, flags, t).proof;
    assert p.hashes[0..|p.hashes|] == p.hashes;
    assert (p.bits + padding)[0..|p.bits|] == p.bits;
    ExtractBuild(comb, txids, flags, t, p.bits + padding, p.hashes, 0, 0);
  }

  /** The answer where the walk reads back a whole proof. */
  lemma {:induction false} AnswerOf(comb: Pairing, n: nat, bits: seq<bool>, hashes: seq<Hash>, i: Info)
    requires 0 < n <= MAX_BLOCK_SIZE / 60 && |hashes| <= n && |hashes| <= |bits| && |hashes| == |i.proof.hashes|
    requires (|bits| + 7) / 8 == (|i.proof.bits| + 7) / 8
    requires Recovered(Extract(comb, bits, hashes, Shape(n, HeightFrom(n, 0), 0), 0, 0), i, 0, 0)
    ensures Answer(comb, n, bits, hashes, false) == (i.root, i.flagged)
  {
  }

  lemma {:induction false} BuildOfRoot(comb: Pairing, txids: seq<Hash>, flags: seq<bool>, h: nat)
    requires 0 < |txids| == |flags| && Width(|txids|, h) == 1 && Begin(h, 0) == 0 && End(|txids|, h, 0) == |txids|
    ensures var i := Build(comb, txids, flags, Shape(|txids|, h, 0));
            && i.root == CalcHash(comb, txids, h, 0)
            && i.flagged == Pick(txids, flags, seq(|txids|, i => i))
            && |i.proof.hashes| <= |txids| && |i.proof.hashes| <= |i.proof.bits|
  {
    var t := Shape(|txids|, h, 0);
    ShapeWithin(|txids|, h, 0);
    LeavesShape(|txids|, h, 0);
    assert Leaves(t) == seq(|txids|, i => i);
    BuildSize(comb, txids, flags, t);
    BuildParts(comb, txids, flags, t);
    FlaggedIsPicked(comb, txids, flags, t);
  }

  // ------------------------------------------------------------- what is refused

  /** Only a proof of the right size gives a root. */
  lemma {:induction false} AnswerLimits(comb: Pairing, n: nat, bits: seq<bool>, hashes: seq<Hash>, bad: bool)
    requires Answer(comb, n, bits, hashes, bad).0 != ZERO
    ensures 0 < n && 60 * n <= 1_000_000 && |hashes| <= n && |hashes| <= |bits| && !bad
  {
  }

  /** A walk that does not run over the end does not see what follows. */
  lemma {:induction false} ExtractMore(comb: Pairing, bits: seq<bool>, hashes: seq<Hash>, t: Tree, bitsUsed: nat,
                                       hashUsed: nat, bits': seq<bool>, hashes': seq<Hash>)
    requires bits <= bits' && hashes <= hashes' && !Extract(comb, bits, hashes, t, bitsUsed, hashUsed).bad
    ensures Extract(comb, bits', hashes', t, bitsUsed, hashUsed) == Extract(comb, bits, hashes, t, bitsUsed, hashUsed)
  {
    if !t.Leaf? && bits[bitsUsed] {
      ExtractMore(comb, bits, hashes, t.left, bitsUsed + 1, hashUsed, bits', hashes');
      var l := Extract(comb, bits, hashes, t.left, bitsUsed + 1, hashUsed);
      if t.Two? { ExtractMore(comb, bits, hashes, t.right, l.bitsUsed, l.hashUsed, bits', hashes'); }
    }
  }

  /** Nothing can be appended to an accepted proof: no hash, and no more bits than fill its last byte. */
  lemma {:induction false} NothingAppended(comb: Pairing, n: nat, bits: seq<bool>, hashes: seq<Hash>, bad: bool,
                                           moreBits: seq<bool>, moreHashes: seq<Hash>)
    requires Answer(comb, n, bits, hashes, bad).0 != ZERO
    requires moreHashes != [] || (|bits| + |moreBits| + 7) / 8 != (|bits| + 7) / 8
    ensures Answer(comb, n, bits + moreBits, hashes + moreHashes, bad).0 == ZERO
  {
    var t := Shape(n, HeightFrom(n, 0), 0);
    ExtractMore(comb, bits, hashes, t, 0, 0, bits + moreBits, hashes + moreHashes);
  }

  // ------------------------------------------------------------- the format

  lemma {:induction false} ThreeShape()
    ensures HeightFrom(3, 0) == 2 && Shape(3, 2, 0) == Two(Two(Leaf(0), Leaf(1)), One(Leaf(2)))
  {
    assert Width(3, 0) == 3 && Width(3, 1) == 2 && Width(3, 2) == 1;
    assert HeightFrom(3, 2) == 2 && HeightFrom(3, 1) == 2;
    assert Shape(3, 0, 0) == Leaf(0) && Shape(3, 0, 1) == Leaf(1) && Shape(3, 0, 2) == Leaf(2);
    assert Shape(3, 1, 0) == Two(Leaf(0), Leaf(1)) && Shape(3, 1, 1) == One(Leaf(2));
  }

  /** Three transactions, the second one flagged: depth first, a bit for every node met, a hash where the walk stops,
      and a last node without a partner paired with itself. */
  lemma {:induction false} ThreeLeaves(comb: Pairing, a: Hash, b: Hash, c: Hash)
    ensures var root := comb(comb(a, b), comb(c, c));
            && MerkleRoot(comb, [a, b, c]) == root
            && Build(comb, [a, b, c], [false, true, false], Shape(3, HeightFrom(3, 0), 0)).proof
               == Proof([true, true, false, true, false], [a, b, comb(c, c)])
  {
    var ids, flags := [a, b, c], [false, true, false];
    ThreeShape();
    var l, r := Two(Leaf(0), Leaf(1)), One(Leaf(2));
    assert Build(comb, ids, flags, Leaf(0)) == LeafInfo(a, false);
    assert Build(comb, ids, flags, Leaf(1)) == LeafInfo(b, true);
    assert Build(comb, ids, flags, Leaf(2)) == LeafInfo(c, false);
    assert Build(comb, ids, flags, l).proof == Proof([true, false, true], [a, b]);
    assert Build(comb, ids, flags, r).proof == Proof([false], [comb(c, c)]);
    HeightIsFirst(3, 0);
    RootRange(3, 2);
    BuildOfRoot(comb, ids, flags, 2);
    assert Build(comb, ids, flags, Two(l, r)).root == comb(comb(a, b), comb(c, c));
  }

  /** Leaves are found within the tree. */
  lemma {:induction false} LeavesWithin(comb: Pairing, n: nat, t: Tree, bits: seq<bool>, hashes: seq<Hash>,
                                        bitsUsed: nat, hashUsed: nat)
    requires Within(t, n)
    ensures forall i :: 0 <= i < |Extract(comb, bits, hashes, t, bitsUsed, hashUsed).leaves| ==>
      Extract(comb, bits, hashes, t, bitsUsed, hashUsed).leaves[i] < n
  {
    if bitsUsed < |bits| && bits[bitsUsed] && !t.Leaf? {
      LeavesWithin(comb, n, t.left, bits, hashes, bitsUsed + 1, hashUsed);
      var l := Extract(comb, bits, hashes, t.left, bitsUsed + 1, hashUsed);
      if t.Two? { LeavesWithin(comb, n, t.right, bits, hashes, l.bitsUsed, l.hashUsed); }
    }
  }

  /** The ids at some positions of the block. */
  function IdsAt(txids: seq<Hash>, ps: seq<nat>): seq<Hash>
    requires Ascending(ps, 0, |txids|)
  {
    seq(|ps|, i requires 0 <= i < |ps| => txids[ps[i]])
  }

  /**
   * Whatever the bits and hashes: if the true root comes out, all matches are ids of the block at
   * ascending positions, or two different pairs with one hash are found.
   */
  lemma {:induction false} NoForgedMatches(comb: Pairing, txids: seq<Hash>, bits: seq<bool>, hashes: seq<Hash>,
                                           bad: bool)
    returns (leaves: seq<nat>, x: Collision)
    requires |txids| > 0 && MerkleRoot(comb, txids) != ZERO
    requires Answer(comb, |txids|, bits, hashes, bad).0 == MerkleRoot(comb, txids)
    ensures Ascending(leaves, 0, |txids|)
    ensures x.Of(comb) || Answer(comb, |txids|, bits, hashes, bad).1 == IdsAt(txids, leaves)
  {
    var n, h := |txids|, HeightFrom(|txids|, 0);
    HeightIsFirst(n, 0);
    RootRange(n, h);
    ShapeWithin(n, h, 0);
    var w := Extract(comb, bits, hashes, Shape(n, h, 0), 0, 0);
    x := GenuineOrCollision(comb, txids, Shape(n, h, 0), bits, hashes, 0, 0);
    ShapeRanged(n, h, 0);
    LeavesFoundInOrder(comb, Shape(n, h, 0), Begin(h, 0), Begin(h, 1), bits, hashes, 0, 0);
    LeavesWithin(comb, n, Shape(n, h, 0), bits, hashes, 0, 0);
    leaves := w.leaves;
    if !x.Of(comb) {
      assert w.matches == IdsAt(txids, leaves);
    }
  }
}
