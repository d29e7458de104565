/**
 * Block index entries (`CBlockIndex`) with their skip list, and the active
 * chain (`CChain`): a vector indexed by height over a tree of parent pointers.
 */
module Chain {
  import opened Basics
  import opened Powers

  // ---------------------------------------------------------------- heights to skip to

  /** The bits that two numbers share. */
  function And(a: nat, b: nat): nat {
    if a == 0 || b == 0 then 0 else 2 * And(a / 2, b / 2) + if a % 2 == 1 && b % 2 == 1 then 1 else 0
  }

  /** The number without its lowest one bit. */
  function WithoutLowestOne(n: nat): nat
    requires n > 0
  {
    if n % 2 == 1 then n - 1 else 2 * WithoutLowestOne(n / 2)
  }

  lemma {:induction false} AndSelf(n: nat)
    ensures And(n, n) == n
  {
    if n > 0 { AndSelf(n / 2); }
  }

  /** `n & (n - 1)` */
  lemma {:induction false} InvertLowestOneIs(n: nat)
    requires n > 0
    ensures And(n, n - 1) == WithoutLowestOne(n) < n
  {
    if n % 2 == 1 {
      AndSelf(n / 2);
      assert (n - 1) / 2 == n / 2 && (n - 1) % 2 == 0;
    } else {
      InvertLowestOneIs(n / 2);
      assert (n - 1) / 2 == n / 2 - 1;
    }
  }

  function InvertLowestOne(n: nat): (r: nat)
    requires n > 0
    ensures r < n
  {
    InvertLowestOneIs(n);
    And(n, n - 1)
  }

  /** The height that the skip pointer of a block leads to: always below the block. */
  function SkipHeight(height: nat): (r: nat)
    ensures height > 0 ==> r < height
  {
    if height < 2 then 0
    else if height % 2 == 0 then InvertLowestOne(height)
    else
      var n := InvertLowestOne(height - 1);
      (if n == 0 then 0 else InvertLowestOne(n)) + 1
  }

  /** An even height skips to itself without its lowest one bit; an odd one to the height after that which is left
      when the two lowest one bits of the height before are gone. */
  lemma {:induction false} SkipHeightIs(height: nat)
    requires height >= 2
    ensures height % 2 == 0 ==> SkipHeight(height) == WithoutLowestOne(height)
    ensures height % 2 == 1 ==>
      var n := WithoutLowestOne(height - 1); SkipHeight(height) == 1 + if n == 0 then 0 else WithoutLowestOne(n)
  {
    if height % 2 == 0 {
      InvertLowestOneIs(height);
    } else {
      var n := WithoutLowestOne(height - 1);
      InvertLowestOneIs(height - 1);
      if n > 0 { InvertLowestOneIs(n); }
    }
  }

  // ---------------------------------------------------------------- blocks

  datatype Block = Block(hash: nat, nHeight: nat, prev: Option<Block>, skip: Option<Block>)

  /** Heights count from the genesis block, and skip pointers lead to ancestors. */
  ghost predicate WellFormed(b: Block) {
    match b.prev
    case None => b.nHeight == 0
    case Some(p) =>
      WellFormed(p) && b.nHeight == p.nHeight + 1 && b.skip == Some(Ancestor(p, SkipHeight(b.nHeight)))
  }

  /** The ancestor at a height, by parent pointers only. */
  function Ancestor(b: Block, h: nat): Block {
    if h >= b.nHeight || b.prev.None? then b else Ancestor(b.prev.value, h)
  }

  lemma {:induction false} AncestorIs(b: Block, h: nat)
    requires WellFormed(b) && h <= b.nHeight
    ensures WellFormed(Ancestor(b, h)) && Ancestor(b, h).nHeight == h
  {
    if h < b.nHeight { AncestorIs(b.prev.value, h); }
  }

  lemma {:induction false} AncestorTrans(b: Block, i: nat, h: nat)
    requires WellFormed(b) && h <= i <= b.nHeight
    ensures Ancestor(Ancestor(b, i), h) == Ancestor(b, h)
  {
    if i < b.nHeight { AncestorTrans(b.prev.value, i, h); }
  }

  /** `CBlockIndex::GetAncestor`: the walk along skip pointers finds the ancestor. */
  method GetAncestor(b: Block, height: int) returns (r: Option<Block>)
    requires WellFormed(b)
    ensures r.Some? <==> 0 <= height <= b.nHeight
    ensures r.Some? ==> r.value == Ancestor(b, height)
  {
    if height > b.nHeight || height < 0 {
      return None;
    }
    var pindexWalk, heightWalk := b, b.nHeight;
    while heightWalk > height
      invariant WellFormed(pindexWalk) && height <= heightWalk == pindexWalk.nHeight
      invariant Ancestor(pindexWalk, height) == Ancestor(b, height)
    {
      var heightSkip := SkipHeight(heightWalk);
      var heightSkipPrev := SkipHeight(heightWalk - 1);
      if heightSkip == height
        || (heightSkip > height && !(heightSkipPrev < heightSkip - 2 && heightSkipPrev >= height))
      {
        AncestorIs(pindexWalk.prev.value, heightSkip);
        AncestorTrans(pindexWalk.prev.value, heightSkip, height);
        pindexWalk := pindexWalk.skip.value;
        heightWalk := heightSkip;
      } else {
        pindexWalk := pindexWalk.prev.value;
        heightWalk := heightWalk - 1;
      }
    }
    r := Some(pindexWalk);
  }

  /** A new block on top of another (`BuildSkip`). */
  method AddBlock(hash: nat, prev: Option<Block>) returns (b: Block)
    requires prev.Some? ==> WellFormed(prev.value)
    ensures WellFormed(b) && b.prev == prev && b.hash == hash
  {
    if prev.None? {
      return Block(hash, 0, None, None);
    }
    var nHeight := prev.value.nHeight + 1;
    var pskip := GetAncestor(prev.value, SkipHeight(nHeight));
    b := Block(hash, nHeight, prev, pskip);
  }

  // ---------------------------------------------------------------- locators

  /** The heights of a locator: ten single steps, then steps that double, down to the genesis block. */
  function Heights(h: nat, step: nat, have: nat): seq<nat>
    requires step > 0
  {
    if h == 0 then [0]
    else [h] + Heights(Max(h - step, 0), if have + 1 > 10 then 2 * step else step, have + 1)
  }

  /** They descend strictly to zero. */
  lemma {:induction false} HeightsDescend(h: nat, step: nat, have: nat)
    requires step > 0
    ensures var l := Heights(h, step, have);
            && |l| > 0 && l[0] == h && l[|l| - 1] == 0
            && (forall i :: 0 <= i < |l| - 1 ==> l[i] > l[i + 1])
            && forall i :: 0 <= i < |l| ==> l[i] <= h
  {
    if h > 0 {
      HeightsDescend(Max(h - step, 0), if have + 1 > 10 then 2 * step else step, have + 1);
    }
  }

  /** The gap after entry `i` of a locator. */
  function Gap(step: nat, have: nat, i: nat): nat
    decreases i
  {
    if i == 0 then step else Gap(if have + 1 > 10 then 2 * step else step, have + 1, i - 1)
  }

  lemma {:induction false} HeightsGap(h: nat, step: nat, have: nat, i: nat)
    requires step > 0 && i + 1 < |Heights(h, step, have)|
    ensures Heights(h, step, have)[i + 1] == Max(Heights(h, step, have)[i] - Gap(step, have, i), 0)
    decreases i
  {
    var h', step' := Max(h - step, 0), if have + 1 > 10 then 2 * step else step;
    HeightsDescend(h', step', have + 1);
    if i > 0 { HeightsGap(h', step', have + 1, i - 1); }
  }

  lemma {:induction false} GapDoubles(step: nat, have: nat, i: nat)
    requires have >= 10
    ensures Gap(step, have, i) == step * Pow(2, i)
    decreases i
  {
    if i > 0 {
      GapDoubles(2 * step, have + 1, i - 1);
      Assoc(step, 2, Pow(2, i - 1));
    }
  }

  lemma {:induction false} GapSingle(have: nat, i: nat)
    requires have <= 10
    ensures Gap(1, have, i) == if have + i <= 10 then 1 else Pow(2, have + i - 10)
    decreases i
  {
    if have == 10 {
      GapDoubles(1, have, i);
    } else if i > 0 {
      GapSingle(have + 1, i - 1);
    }
  }

  /** The heights of a locator: eleven steps of one, then steps that double, and zero where they would go below. */
  lemma {:induction false} LocatorGaps(h: nat, i: nat)
    requires i + 1 < |Heights(h, 1, 0)|
    ensures var l := Heights(h, 1, 0);
            var gap := if i <= 10 then 1 else Pow(2, i - 10);
            l[0] == h && l[i + 1] == if l[i] > gap then l[i] - gap else 0
  {
    HeightsGap(h, 1, 0, i);
    GapSingle(0, i);
  }

  function CeilLog2(n: nat): nat
    requires n > 0
  {
    if n == 1 then 0 else 1 + CeilLog2((n + 1) / 2)
  }

  lemma {:induction false} CeilLog2Is(n: nat)
    requires n > 0
    ensures Pow(2, CeilLog2(n)) >= n && (n > 1 ==> Pow(2, CeilLog2(n) - 1) < n)
  {
    if n > 1 {
      CeilLog2Is((n + 1) / 2);
      var m := (n + 1) / 2;
      if m > 1 { assert Pow(2, CeilLog2(n) - 1) == 2 * Pow(2, CeilLog2(m) - 1); }
    }
  }

  /** With doubling steps, `k` of them are enough for `step * (2^k - 1)`. */
  lemma {:induction false} DoublingSteps(h: nat, step: nat, have: nat, k: nat)
    requires step > 0 && have >= 10 && h <= step * (Pow(2, k) - 1)
    ensures |Heights(h, step, have)| <= 1 + k
  {
    if h > 0 {
      assert k > 0;
      var p := Pow(2, k - 1);
      Halve(h, step, p);
      DoublingSteps(Max(h - step, 0), 2 * step, have + 1, k - 1);
    }
  }

  lemma {:induction false} Halve(h: nat, step: nat, p: nat)
    requires h <= step * (2 * p - 1) && p > 0
    ensures Max(h - step, 0) <= (2 * step) * (p - 1)
  {
    assert step * (2 * p - 1) == (2 * step) * (p - 1) + step;
    assert 0 <= (2 * step) * (p - 1);
  }

  /** A locator has at most twelve entries more than the logarithm of the height. */
  lemma {:induction false} HeightsBound(h: nat, have: nat)
    requires have <= 10
    ensures |Heights(h, 1, have)| <= 12 - have + CeilLog2(h + 1)
  {
    if h > 0 {
      if have < 10 {
        HeightsBound(h - 1, have + 1);
        LogMono(h, h + 1);
      } else {
        LogMono(h, h + 1);
        CeilLog2Is(h);
        DoublingSteps(h - 1, 2, 11, CeilLog2(h));
      }
    }
  }

  lemma {:induction false} LogMono(m: nat, n: nat)
    requires 0 < m <= n
    ensures CeilLog2(m) <= CeilLog2(n)
  {
    if m > 1 { LogMono((m + 1) / 2, (n + 1) / 2); }
  }

  /** The hashes of the ancestors at some heights. */
  function HashesAt(b: Block, heights: seq<nat>): seq<nat> {
    seq(|heights|, i requires 0 <= i < |heights| => Ancestor(b, heights[i]).hash)
  }

  /** The locator by ancestors only. */
  function Locator(b: Block): seq<nat> {
    HashesAt(b, Heights(b.nHeight, 1, 0))
  }

  /** A locator starts at its block, ends at the genesis block, and is short. */
  lemma {:induction false} LocatorShape(b: Block)
    requires WellFormed(b)
    ensures var l := Locator(b);
            && 0 < |l| <= 12 + CeilLog2(b.nHeight + 1)
            && l[0] == b.hash && l[|l| - 1] == Ancestor(b, 0).hash
  {
    HeightsDescend(b.nHeight, 1, 0);
    HeightsBound(b.nHeight, 0);
  }

  // ---------------------------------------------------------------- the active chain

  /** A chain by height: every entry is the parent of the next. */
  ghost predicate Linked(v: seq<Option<Block>>) {
    forall h :: LinkedAt(v, h)
  }

  ghost predicate LinkedAt(v: seq<Option<Block>>, h: int) {
    0 <= h < |v| ==>
      && v[h].Some? && WellFormed(v[h].value) && v[h].value.nHeight == h
      && (h > 0 ==> v[h].value.prev == v[h - 1])
  }

  /** The entry at a height is the tip's ancestor there. */
  lemma {:induction false} EntryIsAncestor(v: seq<Option<Block>>, h: nat, k: nat)
    requires Linked(v) && h <= k < |v|
    ensures v[k].Some? && v[h] == Some(Ancestor(v[k].value, h))
  {
    assert LinkedAt(v, k) && LinkedAt(v, h);
    if h < k {
      EntryIsAncestor(v, h, k - 1);
    }
  }

  class ActiveChain {
    var vChain: seq<Option<Block>>

    ghost predicate Valid()
      reads this
    {
      Linked(vChain)
    }

    constructor ()
      ensures Valid() && vChain == []
    {
      vChain := [];
    }

    function At(nHeight: int): Option<Block>
      reads this
    {
      if nHeight < 0 || nHeight >= |vChain| then None else vChain[nHeight]
    }

    function Tip(): Option<Block>
      reads this
    {
      At(|vChain| - 1)
    }

    function Height(): int
      reads this
    {
      |vChain| - 1
    }

    predicate Contains(b: Block)
      reads this
    {
      At(b.nHeight) == Some(b)
    }

    /** A block is in the chain exactly if it is an ancestor of the tip, or the tip. */
    lemma {:induction false} ContainsIs(b: Block)
      requires Valid() && WellFormed(b)
      ensures Contains(b) <==> Tip().Some? && b.nHeight <= Tip().value.nHeight && Ancestor(Tip().value, b.nHeight) == b
    {
      if |vChain| > 0 {
        assert LinkedAt(vChain, |vChain| - 1);
        if b.nHeight < |vChain| { EntryIsAncestor(vChain, b.nHeight, |vChain| - 1); }
      }
    }

    /** Ancestors of a block in the chain are in the chain. */
    lemma {:induction false} ContainsAncestor(b: Block, h: nat)
      requires Valid() && WellFormed(b) && Contains(b) && h <= b.nHeight
      ensures Contains(Ancestor(b, h)) && At(h) == Some(Ancestor(b, h))
    {
      AncestorIs(b, h);
      EntryIsAncestor(vChain, h, b.nHeight);
    }

    /** The successor of a block in the chain. */
    method Next(b: Block) returns (r: Option<Block>)
      requires Valid() && WellFormed(b)
      ensures r.Some? <==> Contains(b) && b.nHeight < Height()
      ensures r.Some? ==> Contains(r.value) && r.value.prev == Some(b)
    {
      if Contains(b) {
        assert LinkedAt(vChain, b.nHeight + 1);
        r := At(b.nHeight + 1);
      } else {
        r := None;
      }
    }

    /** Makes a block the tip; the loop stops where it meets the old chain. */
    method SetTip(pindex: Option<Block>)
      requires Valid() && (pindex.Some? ==> WellFormed(pindex.value))
      modifies this
      ensures Valid() && Tip() == pindex
    {
      if pindex.None? {
        vChain := [];
        return;
      }
      ghost var was := vChain;
      var size := pindex.value.nHeight + 1;
      vChain := if size <= |vChain| then vChain[..size] else vChain + seq(size - |vChain|, _ => None);
      var p := pindex;
      assert LinkedAbove(vChain, size, p);
      while p.Some? && vChain[p.value.nHeight] != p
        invariant p.Some? ==> WellFormed(p.value) && p.value.nHeight < size
        invariant |vChain| == size && LinkedAbove(vChain, if p.Some? then p.value.nHeight + 1 else 0, p)
        invariant UnchangedBelow(was, vChain, if p.Some? then p.value.nHeight + 1 else 0)
        invariant p == pindex || (vChain[size - 1] == pindex && (p.Some? ==> p.value.nHeight < size - 1))
        decreases if p.Some? then 1 + p.value.nHeight else 0
      {
        SetEntry(was, vChain, p.value);
        vChain := vChain[p.value.nHeight := p];
        p := p.value.prev;
      }
      Joined(was, vChain, p);
    }

    lemma {:induction false} BelowHeight(b: Block, h: nat)
      requires WellFormed(b) && h <= b.nHeight && Contains(Ancestor(b, h))
      ensures h <= Height()
    {
      AncestorIs(b, h);
    }

    /** The last block that a chain and a branch have in common. */
    method FindFork(b: Block) returns (r: Option<Block>)
      requires Valid() && WellFormed(b)
      ensures r.Some? ==> Contains(r.value) && r.value.nHeight <= b.nHeight && r.value == Ancestor(b, r.value.nHeight)
      ensures forall h: nat :: h <= b.nHeight && Contains(Ancestor(b, h)) ==> r.Some? && h <= r.value.nHeight
    {
      r := Some(b);
      if b.nHeight > Height() {
        r := GetAncestor(b, Height());
      }
      ghost var top := if b.nHeight > Height() then Height() else b.nHeight;
      if top >= 0 { AncestorIs(b, top); }
      forall h: nat | h <= b.nHeight && Contains(Ancestor(b, h))
        ensures h <= top
      {
        BelowHeight(b, h);
      }
      while r.Some? && !Contains(r.value)
        invariant r.Some? ==> WellFormed(r.value) && r.value.nHeight <= b.nHeight
        invariant r.Some? ==> r.value == Ancestor(b, r.value.nHeight)
        invariant forall h: nat :: h <= b.nHeight && Contains(Ancestor(b, h)) ==> r.Some? && h <= r.value.nHeight
        decreases if r.Some? then 1 + r.value.nHeight else 0
      {
        ghost var n := r.value.nHeight;
        assert !Contains(Ancestor(b, n));
        if r.value.prev.Some? {
          AncestorTrans(b, n, n - 1);
        }
        r := r.value.prev;
      }
    }

    /** The locator of a block, or of the tip: the shortcut through the chain's own index changes nothing. */
    method GetLocator(b: Option<Block>) returns (vHave: seq<nat>)
      requires Valid() && (b.Some? ==> WellFormed(b.value))
      ensures var from := if b.Some? then b else Tip();
              vHave == if from.Some? then Locator(from.value) else []
    {
      vHave := [];
      var p, nStep := b, 1;
      if p.None? {
        p := Tip();
      }
      if p.None? {
        return;
      }
      assert LinkedAt(vChain, |vChain| - 1);
      ghost var from, all := p.value, Heights(p.value.nHeight, 1, 0);
      LocatorStart(from);
      while true
        invariant p.Some? && nStep > 0 && LocatedUpTo(from, all, p.value, nStep, vHave)
        decreases p.value.nHeight
      {
        LocatorNext(from, all, p.value, nStep, vHave);
        vHave := vHave + [p.value.hash];
        if p.value.nHeight == 0 {
          break;
        }
        var nHeight := Max(p.value.nHeight - nStep, 0);
        AncestorIs(p.value, nHeight);
        if Contains(p.value) {
          ContainsAncestor(p.value, nHeight);
          p := At(nHeight);
        } else {
          p := GetAncestor(p.value, nHeight);
        }
        if |vHave| > 10 {
          nStep := nStep * 2;
        }
      }
    }
  }

  // ---------------------------------------------------------------- the steps of GetLocator

  /** The locator of `from` is done up to the block `p`. */
  ghost predicate LocatedUpTo(from: Block, all: seq<nat>, p: Block, nStep: nat, vHave: seq<nat>) {
    && WellFormed(from) && WellFormed(p) && p.nHeight <= from.nHeight && p == Ancestor(from, p.nHeight)
    && nStep > 0 && |vHave| <= |all| && all[|vHave|..] == Heights(p.nHeight, nStep, |vHave|)
    && vHave == HashesAt(from, all[..|vHave|])
  }

  lemma {:induction false} LocatorStart(from: Block)
    requires WellFormed(from)
    ensures LocatedUpTo(from, Heights(from.nHeight, 1, 0), from, 1, [])
  {
    var all := Heights(from.nHeight, 1, 0);
    assert all[0..] == all && all[..0] == [];
  }

  lemma {:induction false} LocatorNext(from: Block, all: seq<nat>, p: Block, nStep: nat, vHave: seq<nat>)
    requires LocatedUpTo(from, all, p, nStep, vHave)
    ensures p.nHeight == 0 ==> vHave + [p.hash] == HashesAt(from, all)
    ensures p.nHeight > 0 ==>
      LocatedUpTo(from, all, Ancestor(p, Max(p.nHeight - nStep, 0)),
                  if |vHave| + 1 > 10 then nStep * 2 else nStep, vHave + [p.hash])
  {
    var n := |vHave|;
    assert |all[n..]| > 0 && all[n] == all[n..][0] == p.nHeight;
    assert all[..n + 1] == all[..n] + [all[n]];
    assert vHave + [p.hash] == HashesAt(from, all[..n + 1]);
    if p.nHeight == 0 {
      assert all[n..] == [0];
      assert all[..n + 1] == all;
    } else {
      var h := Max(p.nHeight - nStep, 0);
      AncestorIs(p, h);
      AncestorTrans(from, p.nHeight, h);
      assert all[n + 1..] == all[n..][1..];
    }
  }

  // ---------------------------------------------------------------- the steps of SetTip

  /** From height `k` on the chain is linked, and `p` belongs right below. */
  ghost predicate LinkedAbove(v: seq<Option<Block>>, k: nat, p: Option<Block>) {
    k <= |v| && forall h :: LinkedFrom(v, k, p, h)
  }

  ghost predicate LinkedFrom(v: seq<Option<Block>>, k: nat, p: Option<Block>, h: int) {
    k <= h < |v| ==>
      && v[h].Some? && WellFormed(v[h].value) && v[h].value.nHeight == h
      && (h > 0 ==> v[h].value.prev == if h == k then p else v[h - 1])
  }

  /** Below height `k` the chain is as it was, or has no entry. */
  ghost predicate UnchangedBelow(was: seq<Option<Block>>, v: seq<Option<Block>>, k: nat) {
    k <= |v| && forall h :: SameAt(was, v, k, h)
  }

  ghost predicate SameAt(was: seq<Option<Block>>, v: seq<Option<Block>>, k: nat, h: int) {
    0 <= h < k && h < |v| ==> v[h] == if h < |was| then was[h] else None
  }

  lemma {:induction false} SetEntry(was: seq<Option<Block>>, v: seq<Option<Block>>, b: Block)
    requires WellFormed(b) && b.nHeight < |v| && LinkedAbove(v, b.nHeight + 1, Some(b))
    requires UnchangedBelow(was, v, b.nHeight + 1)
    ensures LinkedAbove(v[b.nHeight := Some(b)], b.nHeight, b.prev)
    ensures UnchangedBelow(was, v[b.nHeight := Some(b)], b.nHeight)
  {
    var w, k := v[b.nHeight := Some(b)], b.nHeight + 1;
    forall h ensures LinkedFrom(w, b.nHeight, b.prev, h) { assert LinkedFrom(v, k, Some(b), h); }
    forall h ensures SameAt(was, w, b.nHeight, h) { assert SameAt(was, v, k, h); }
  }

  /** The new part meets the old chain, or the bottom. */
  lemma {:induction false} Joined(was: seq<Option<Block>>, v: seq<Option<Block>>, p: Option<Block>)
    requires Linked(was) && (p.Some? ==> WellFormed(p.value) && p.value.nHeight < |v| && v[p.value.nHeight] == p)
    requires LinkedAbove(v, if p.Some? then p.value.nHeight + 1 else 0, p)
    requires UnchangedBelow(was, v, if p.Some? then p.value.nHeight + 1 else 0)
    ensures Linked(v)
  {
    var k := if p.Some? then p.value.nHeight + 1 else 0;
    forall h ensures LinkedAt(v, h) {
      assert LinkedFrom(v, k, p, h) && SameAt(was, v, k, h) && SameAt(was, v, k, h - 1) && LinkedAt(was, h);
      assert SameAt(was, v, k, k - 1);
      OldEntry(was, v, k, h);
    }
  }

  /** If the entry below `k` is old then so are all below. */
  lemma {:induction false} OldEntry(was: seq<Option<Block>>, v: seq<Option<Block>>, k: nat, h: int)
    requires k <= |v| && SameAt(was, v, k, h) && SameAt(was, v, k, k - 1) && (k > 0 ==> v[k - 1].Some?)
    ensures 0 <= h < k ==> h < |was| && v[h] == was[h]
  {
  }
}
