/** Numbers as sequences of 32-bit limbs, least significant first, and the bit operations on them. */
module Limbs {
  import opened Powers

  const BASE: nat := 0x1_0000_0000

  type U32 = x: int | 0 <= x < BASE

  function Val(s: seq<U32>): nat {
    if s == [] then 0 else s[0] + BASE * Val(s[1..])
  }

  /** The value of `d` in the column of limb `i`, that is `d * BASE^i`. */
  function At(d: int, i: nat): int {
    if i == 0 then d else BASE * At(d, i - 1)
  }

  lemma {:induction false} AtAdd(d: int, e: int, i: nat)
    ensures At(d + e, i) == At(d, i) + At(e, i)
  {
    if i > 0 { AtAdd(d, e, i - 1); }
  }

  lemma {:induction false} AtShift(d: int, i: nat)
    ensures At(BASE * d, i) == At(d, i + 1)
  {
    if i > 0 { AtShift(d, i - 1); }
  }

  lemma {:induction false} AtAt(d: int, i: nat, j: nat)
    ensures At(At(d, i), j) == At(d, i + j)
  {
    if j > 0 { AtAt(d, i, j - 1); }
  }

  lemma {:induction false} AtMono(d: int, e: int, i: nat)
    requires d <= e
    ensures At(d, i) <= At(e, i)
  {
    if i > 0 { AtMono(d, e, i - 1); }
  }

  lemma {:induction false} AtZero(i: nat)
    ensures At(0, i) == 0
  {
    if i > 0 { AtZero(i - 1); }
  }

  lemma {:induction false} AtTimes(d: int, k: int, i: nat)
    ensures At(k * d, i) == k * At(d, i)
  {
    if i > 0 {
      AtTimes(d, k, i - 1);
      Assoc(k, BASE, At(d, i - 1));
      Assoc(BASE, k, At(d, i - 1));
    }
  }

  /** A column total is its digit and a carry into the next column. */
  lemma {:induction false} Column(n: int, i: nat)
    ensures At(n % BASE, i) + At(n / BASE, i + 1) == At(n, i)
  {
    AtShift(n / BASE, i);
    AtAdd(n % BASE, BASE * (n / BASE), i);
  }

  lemma {:induction false} ValSplit(s: seq<U32>, t: seq<U32>)
    ensures Val(s + t) == Val(s) + At(Val(t), |s|)
  {
    if s == [] {
      assert s + t == t;
    } else {
      ValSplit(s[1..], t);
      assert (s + t)[1..] == s[1..] + t;
    }
  }

  lemma {:induction false} ValSnoc(s: seq<U32>, d: U32)
    ensures Val(s + [d]) == Val(s) + At(d, |s|)
  {
    ValSplit(s, [d]);
    assert Val([d]) == d;
  }

  /** One more limb of a prefix. */
  lemma {:induction false} ValNext(s: seq<U32>, i: nat)
    requires i < |s|
    ensures Val(s[..i + 1]) == Val(s[..i]) + At(s[i], i)
  {
    assert s[..i + 1] == s[..i] + [s[i]];
    ValSnoc(s[..i], s[i]);
  }

  lemma {:induction false} ValCut(s: seq<U32>, i: nat)
    requires i <= |s|
    ensures Val(s) == Val(s[..i]) + At(Val(s[i..]), i)
  {
    assert s == s[..i] + s[i..];
    ValSplit(s[..i], s[i..]);
  }

  lemma {:induction false} ValBound(s: seq<U32>)
    ensures Val(s) < At(1, |s|)
  {
    if s != [] { ValBound(s[1..]); }
  }

  lemma {:induction false} ValZero(s: seq<U32>)
    requires forall i :: 0 <= i < |s| ==> s[i] == 0
    ensures Val(s) == 0
  {
    if s != [] { ValZero(s[1..]); }
  }

  lemma {:induction false} ValOnes(s: seq<U32>)
    requires forall i :: 0 <= i < |s| ==> s[i] == BASE - 1
    ensures Val(s) == At(1, |s|) - 1
  {
    if s != [] { ValOnes(s[1..]); }
  }

  lemma {:induction false} ValComplement(s: seq<U32>, t: seq<U32>)
    requires |s| == |t| && forall i :: 0 <= i < |s| ==> t[i] == BASE - 1 - s[i]
    ensures Val(t) == At(1, |s|) - 1 - Val(s)
  {
    if s != [] { ValComplement(s[1..], t[1..]); }
  }

  /** The highest limb that differs decides the order. */
  lemma {:induction false} ValOrder(s: seq<U32>, t: seq<U32>, i: nat)
    requires |s| == |t| && i < |s| && s[i] < t[i] && s[i + 1..] == t[i + 1..]
    ensures Val(s) < Val(t)
  {
    if i > 0 {
      ValOrder(s[1..], t[1..], i - 1);
    }
  }

  // ------------------------------------------------------------ bit operations

  /** Bitwise or of naturals. */
  function Or(x: nat, y: nat): nat {
    if x == 0 && y == 0 then 0
    else 2 * Or(x / 2, y / 2) + (if x % 2 == 1 || y % 2 == 1 then 1 else 0)
  }

  lemma {:induction false} OrZero(x: nat)
    ensures Or(x, 0) == x && Or(0, x) == x
  {
    if x != 0 { OrZero(x / 2); }
  }

  /** On numbers without a common bit position, or is addition. */
  lemma {:induction false} OrIsAdd(x: nat, y: nat, s: nat)
    requires x % Pow2(s) == 0 && y < Pow2(s)
    ensures Or(x, y) == x + y
    decreases s
  {
    if s == 0 {
      OrZero(x);
    } else {
      HalfMultiple(x, s);
      OrIsAdd(x / 2, y / 2, s - 1);
      if x == 0 && y == 0 {
      } else {
        assert x == 2 * (x / 2) && y == 2 * (y / 2) + y % 2;
      }
    }
  }

  function Pow2(s: nat): (p: nat)
    ensures p > 0
  {
    PowPositive(2, s);
    Pow(2, s)
  }

  lemma {:induction false} HalfMultiple(x: nat, s: nat)
    requires s > 0 && x % Pow2(s) == 0
    ensures x % 2 == 0 && (x / 2) % Pow2(s - 1) == 0
  {
    var p := Pow2(s - 1);
    var q := x / (2 * p);
    assert x == q * (2 * p);
    Assoc(q, 2, p);
    assert x == 2 * (q * p);
    DivModUnique(x / 2, p, q, 0);
  }

  lemma {:induction false} SplitBy(x: nat, lo: nat, hi: nat, q: nat, r: nat)
    requires lo > 0 && hi > 0 && r < lo && x == q * lo + r
    ensures x * hi == q * (lo * hi) + r * hi && r * hi < lo * hi
  {
    assert (q * lo + r) * hi == (q * lo) * hi + r * hi;
    Assoc(q, lo, hi);
    MulMono(r + 1, lo, hi);
    assert (r + 1) * hi == r * hi + hi;
  }

  lemma {:induction false} QuotientBound(x: nat, lo: nat, hi: nat, q: nat, r: nat)
    requires lo > 0 && r < lo && x == q * lo + r && x < lo * hi
    ensures q < hi
  {
    if q >= hi {
      MulMono(hi, q, lo);
    }
  }

  /** Shifting left by `s` and right by `32 - s` cut a limb at the same place. */
  lemma {:induction false} SplitLimb(x: U32, s: nat)
    requires s <= 32
    ensures Pow2(32 - s) * Pow2(s) == BASE
    ensures x * Pow2(s) == (x * Pow2(s)) % BASE + BASE * (x / Pow2(32 - s))
    ensures (x * Pow2(s)) % BASE == (x % Pow2(32 - s)) * Pow2(s)
    ensures 0 <= x / Pow2(32 - s) < Pow2(s)
  {
    PowAdd(2, 32 - s, s);
    Pow2Is32();
    SplitAt(x, Pow2(32 - s), Pow2(s));
  }

  lemma {:induction false} SplitAt(x: U32, lo: nat, hi: nat)
    requires lo > 0 && hi > 0 && lo * hi == BASE
    ensures x * hi == (x * hi) % BASE + BASE * (x / lo)
    ensures (x * hi) % BASE == (x % lo) * hi
    ensures 0 <= x / lo < hi
  {
    var q, r := x / lo, x % lo;
    SplitBy(x, lo, hi, q, r);
    QuotientBound(x, lo, hi, q, r);
    DivModUnique(x * hi, BASE, q, r * hi);
  }

  lemma {:induction false} Pow2Is32()
    ensures Pow(2, 32) == BASE
  {
    assert Pow(2, 8) == 256;
    PowAdd(2, 8, 8);
    PowAdd(2, 16, 16);
  }

  lemma {:induction false} OrComm(x: nat, y: nat)
    ensures Or(x, y) == Or(y, x)
  {
    if x != 0 || y != 0 { OrComm(x / 2, y / 2); }
  }

  // -------------------------------------------------------------------- shifts

  /** The part of a limb that stays, and the part that leaves, when shifted left by `s` bits. */
  function Lo(x: U32, s: nat): U32 {
    (x * Pow2(s)) % BASE
  }

  function Hi(x: U32, s: nat): U32
    requires s < 32
  {
    SplitLimb(x, s);
    Pow2Small(s);
    x / Pow2(32 - s)
  }

  lemma {:induction false} Pow2Small(s: nat)
    requires s <= 32
    ensures Pow2(s) <= BASE
  {
    PowMono(2, s, 32);
    Pow2Is32();
  }

  /** What limb `i - 1` passes on to limb `i`. */
  function Passed(a: seq<U32>, s: nat, i: nat): U32
    requires s < 32 && i <= |a|
  {
    if i == 0 then 0 else Hi(a[i - 1], s)
  }

  lemma {:induction false} DigitFits(a: seq<U32>, s: nat, i: nat)
    requires s < 32 && i < |a|
    ensures Lo(a[i], s) + Passed(a, s, i) < BASE
    ensures Or(Passed(a, s, i), Lo(a[i], s)) == Lo(a[i], s) + Passed(a, s, i)
    ensures a[i] * Pow2(s) == Lo(a[i], s) + BASE * Hi(a[i], s)
  {
    var lo, passed := Lo(a[i], s), Passed(a, s, i);
    SplitLimb(a[i], s);
    if i > 0 { SplitLimb(a[i - 1], s); }
    Multiple(lo, passed, Pow2(s), a[i] % Pow2(32 - s), Pow2(32 - s));
    OrIsAdd(lo, passed, s);
    OrComm(lo, passed);
  }

  /** A multiple of `p` below `p * q` leaves room for less than `p`. */
  lemma {:induction false} Multiple(lo: nat, d: nat, p: nat, r: nat, q: nat)
    requires lo == r * p && r < q && d < p
    ensures lo % p == 0 && lo + d < q * p
  {
    DivModUnique(lo, p, r, 0);
    MulMono(r + 1, q, p);
    assert (r + 1) * p == lo + p;
  }

  /** The limbs `d` are the limbs `a` shifted left by `s` bits. */
  ghost predicate ShiftedUp(a: seq<U32>, s: nat, d: seq<U32>)
    requires s < 32
  {
    |d| <= |a| && forall i :: 0 <= i < |d| ==> d[i] == Lo(a[i], s) + Passed(a, s, i)
  }

  lemma {:induction false} ShiftUpValue(a: seq<U32>, s: nat, d: seq<U32>)
    requires s < 32 && ShiftedUp(a, s, d)
    ensures Val(d) + At(Passed(a, s, |d|), |d|) == Pow2(s) * Val(a[..|d|])
  {
    if d != [] {
      var n := |d| - 1;
      ShiftUpValue(a, s, d[..n]);
      ValNext(d, n);
      ValNext(a, n);
      assert d[..n + 1] == d;
      DigitFits(a, s, n);
      ShiftUpStep(Val(d[..n]), Val(a[..n]), a[n], Pow2(s), Lo(a[n], s), Hi(a[n], s), Passed(a, s, n), n);
    }
  }

  lemma {:induction false} ShiftUpStep(v: int, x: int, limb: int, p: nat, lo: int, hi: int, passed: int, n: nat)
    requires v + At(passed, n) == p * x && limb * p == lo + BASE * hi
    ensures v + At(lo + passed, n) + At(hi, n + 1) == p * (x + At(limb, n))
  {
    AtAdd(lo, passed, n);
    AtShift(hi, n);
    AtAdd(lo, BASE * hi, n);
    AtTimes(limb, p, n);
    assert p * limb == limb * p;
    assert p * (x + At(limb, n)) == p * x + p * At(limb, n);
  }

  /** The limb `i` after a shift right that divides by `p`, where `p * q` is the base. */
  function DownDigit(a: seq<U32>, p: nat, q: nat, i: nat): int
    requires i < |a| && p > 0
  {
    a[i] / p + if i + 1 < |a| then (a[i + 1] * q) % BASE else 0
  }

  /** The limbs `d` are the limbs `a` shifted right. */
  ghost predicate ShiftedDown(a: seq<U32>, p: nat, q: nat, d: seq<U32>)
    requires p > 0
  {
    |d| == |a| && forall i :: 0 <= i < |d| ==> d[i] == DownDigit(a, p, q, i)
  }

  lemma {:induction false} DownFits(a: seq<U32>, s: nat, i: nat)
    requires s < 32 && i < |a|
    ensures 0 <= a[i] / Pow2(s) < BASE
    ensures 0 <= DownDigit(a, Pow2(s), Pow2(32 - s), i) < BASE
    ensures i + 1 < |a| ==> Or(a[i] / Pow2(s), Lo(a[i + 1], 32 - s)) == DownDigit(a, Pow2(s), Pow2(32 - s), i)
  {
    SplitLimb(a[i], 32 - s);
    Pow2Small(32 - s);
    if i + 1 < |a| {
      SplitLimb(a[i + 1], 32 - s);
      LowPart(a[i] / Pow2(s), a[i + 1] % Pow2(s), Pow2(s), 32 - s);
    }
  }

  /** `x` fits under the `r`-th multiple of `2^t`. */
  lemma {:induction false} LowPart(x: nat, r: nat, p: nat, t: nat)
    requires x < Pow2(t) && r < p && p * Pow2(t) == BASE
    ensures x + r * Pow2(t) < BASE && Or(x, r * Pow2(t)) == x + r * Pow2(t)
  {
    var q := Pow2(t);
    DivModUnique(r * q, q, r, 0);
    OrIsAdd(r * q, x, t);
    OrComm(r * q, x);
    MulMono(r + 1, p, q);
    assert (r + 1) * q == r * q + q;
  }

  lemma {:induction false} ShiftDownValue(a: seq<U32>, p: nat, q: nat, d: seq<U32>)
    requires p > 0 && q > 0 && p * q == BASE && ShiftedDown(a, p, q, d)
    ensures p * Val(d) + (if a == [] then 0 else a[0] % p) == Val(a)
  {
    if a != [] {
      forall i | 0 <= i < |d[1..]| ensures d[1..][i] == DownDigit(a[1..], p, q, i) {
        assert d[1..][i] == d[i + 1];
      }
      ShiftDownValue(a[1..], p, q, d[1..]);
      var next := if |a| == 1 then 0 else a[1] % p;
      if |a| > 1 {
        SplitAt(a[1], p, q);
        Assoc(p, q, next);
        HeadValue(a, d, p, a[0] / p, a[0] % p, next * q, next);
      } else {
        HeadValue(a, d, p, a[0] / p, a[0] % p, 0, 0);
      }
    }
  }

  lemma {:induction false} HeadValue(a: seq<U32>, d: seq<U32>, p: nat, q: int, r: int, lo: int, next: int)
    requires |a| == |d| > 0 && d[0] == q + lo && a[0] == p * q + r && p * lo == BASE * next
    requires p * Val(d[1..]) + next == Val(a[1..])
    ensures p * Val(d) + r == Val(a)
  {
    DownStep(p, a[0], q, r, lo, next, Val(d[1..]), Val(a[1..]));
  }

  lemma {:induction false} DownStep(p: nat, limb: int, q: int, r: int, lo: int, next: int, vd: int, va: int)
    requires limb == p * q + r && p * lo == BASE * next && p * vd + next == va
    ensures p * (q + lo + BASE * vd) + r == limb + BASE * va
  {
    assert p * (q + lo + BASE * vd) == p * q + p * lo + p * (BASE * vd);
    Assoc(p, BASE, vd);
    Assoc(BASE, p, vd);
  }
}
