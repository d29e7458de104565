/**
 * 256-bit integers as eight 32-bit limbs updated in place (`base_uint`, `arith_uint256`).
 *
 * Every operation is a method on the limb array and is proved against integer arithmetic
 * modulo 2^256.
 */
module Uint256 {
  import opened Powers
  import opened Limbs

  const WIDTH: nat := 8

  /** 2^256 */
  const M: nat := 0x1_0000000000000000_0000000000000000_0000000000000000_0000000000000000

  lemma {:induction false} ModulusIs()
    ensures At(1, WIDTH) == M
  {
    assert At(1, 2) == 0x1_0000000000000000;
    AtAt(1, 2, 2);
    assert At(1, 4) == 0x1_0000000000000000_0000000000000000;
    AtAt(1, 4, 4);
  }

  lemma {:induction false} AtIsTimes(k: int)
    ensures At(k, WIDTH) == k * M
  {
    AtTimes(1, k, WIDTH);
    ModulusIs();
  }

  lemma {:induction false} InRange(s: seq<U32>)
    requires |s| == WIDTH
    ensures Val(s) < M
  {
    ValBound(s);
    ModulusIs();
  }

  // ------------------------------------------------------------ assignment

  method SetTo64(x: array<U32>, b: nat)
    requires x.Length == WIDTH && b < BASE * BASE
    modifies x
    ensures Val(x[..]) == b
  {
    x[0] := b % BASE;
    x[1] := b / BASE;
    for i := 2 to WIDTH
      invariant x[0] == b % BASE && x[1] == b / BASE
      invariant forall j :: 2 <= j < i ==> x[j] == 0
    {
      x[i] := 0;
    }
    ValCut(x[..], 2);
    ValZero(x[2..]);
    assert x[..2] == [b % BASE, b / BASE];
    assert Val([b / BASE]) == b / BASE;
    assert x[..2][1..] == [b / BASE];
    assert x[..][..2] == x[..2] && x[..][2..] == x[2..];
  }

  method Copy(b: array<U32>) returns (x: array<U32>)
    requires b.Length == WIDTH
    ensures fresh(x) && x.Length == WIDTH && x[..] == b[..]
  {
    x := new U32[WIDTH];
    for i := 0 to WIDTH
      invariant x[..i] == b[..i]
    {
      x[i] := b[i];
    }
    assert x[..WIDTH] == x[..] && b[..WIDTH] == b[..];
  }

  // ------------------------------------------------- addition and subtraction

  /** What is left after removing a multiple of the modulus. */
  lemma {:induction false} Wraps(v: nat, k: int, total: int, m: nat)
    requires v < m && v + k * m == total
    ensures v == total % m
  {
    DivModUnique(total, m, k, v);
  }

  /** One column of an addition: digit `d` stays, `carry'` goes on. */
  lemma {:induction false} AddColumn(low: seq<U32>, a: seq<U32>, b: seq<U32>, carry: nat, d: U32, carry': nat)
    requires |low| < |a| == |b|
    requires Val(low) + At(carry, |low|) == Val(a[..|low|]) + Val(b[..|low|])
    requires carry + a[|low|] + b[|low|] == d + BASE * carry'
    ensures Val(low + [d]) + At(carry', |low| + 1) == Val(a[..|low| + 1]) + Val(b[..|low| + 1])
  {
    var i := |low|;
    ValNext(a, i);
    ValNext(b, i);
    ValSnoc(low, d);
    ColumnSum(Val(low), Val(a[..i]) + Val(b[..i]), carry, a[i], b[i], d, carry', i);
  }

  /** A digit and a carry in place of a carry and two digits. */
  lemma {:induction false} ColumnSum(v: int, sum: int, carry: int, p: int, q: int, d: int, carry': int, i: nat)
    requires v + At(carry, i) == sum && carry + p + q == d + BASE * carry'
    ensures v + At(d, i) + At(carry', i + 1) == sum + At(p, i) + At(q, i)
  {
    AtShift(carry', i);
    AtAdd(d, BASE * carry', i);
    AtAdd(carry, p + q, i);
    AtAdd(p, q, i);
  }

  /** The low 32 bits, and the carry. */
  method LowLimb(n: nat) returns (d: U32, carry: nat)
    ensures n == d + BASE * carry && (n < 2 * BASE ==> carry <= 1)
  {
    d, carry := n % BASE, n / BASE;
  }

  /** `+=`, also when a number is added to itself. */
  method AddAssign(x: array<U32>, b: array<U32>)
    requires x.Length == WIDTH == b.Length
    modifies x
    ensures Val(x[..]) == (Val(old(x[..])) + Val(old(b[..]))) % M
  {
    ghost var a0, b0 := x[..], b[..];
    var carry := 0;
    for i := 0 to WIDTH
      invariant 0 <= carry <= 1
      invariant forall j :: i <= j < WIDTH ==> x[j] == a0[j] && b[j] == b0[j]
      invariant Val(x[..i]) + At(carry, i) == Val(a0[..i]) + Val(b0[..i])
    {
      ghost var low, was := x[..i], carry;
      var d;
      d, carry := LowLimb(carry + x[i] + b[i]);
      AddColumn(low, a0, b0, was, d, carry);
      x[i] := d;
      assert x[..i + 1] == low + [d];
    }
    assert x[..WIDTH] == x[..] && a0[..WIDTH] == a0 && b0[..WIDTH] == b0;
    InRange(x[..]);
    AtIsTimes(carry);
    Wraps(Val(x[..]), carry, Val(a0) + Val(b0), M);
  }

  /** The carry of an increment runs through `i` full limbs and stops at limb `i`. */
  lemma {:induction false} CarryStops(a: seq<U32>, x: seq<U32>, i: nat)
    requires |a| == |x| && i < |a| && a[i + 1..] == x[i + 1..]
    requires forall j :: 0 <= j < i ==> a[j] == BASE - 1 && x[j] == 0
    requires a[i] < BASE - 1 && x[i] == a[i] + 1
    ensures Val(x) == Val(a) + 1
  {
    if i > 0 {
      CarryStops(a[1..], x[1..], i - 1);
    }
  }

  lemma {:induction false} CarryLeaves(a: seq<U32>, x: seq<U32>)
    requires |a| == |x| == WIDTH && forall j :: 0 <= j < WIDTH ==> a[j] == BASE - 1 && x[j] == 0
    ensures Val(x) == (Val(a) + 1) % M
  {
    ValOnes(a);
    ValZero(x);
    ModulusIs();
    Wraps(0, 1, Val(a) + 1, M);
  }

  /** `++` */
  method Increment(x: array<U32>)
    requires x.Length == WIDTH
    modifies x
    ensures Val(x[..]) == (Val(old(x[..])) + 1) % M
  {
    ghost var a := x[..];
    var i := 0;
    x[i] := (x[i] + 1) % BASE;
    while x[i] == 0 && i < WIDTH - 1
      invariant 0 <= i < WIDTH
      invariant forall j :: 0 <= j < i ==> a[j] == BASE - 1 && x[j] == 0
      invariant x[i] == (a[i] + 1) % BASE
      invariant forall j :: i < j < WIDTH ==> x[j] == a[j]
      decreases WIDTH - i
    {
      i := i + 1;
      x[i] := (x[i] + 1) % BASE;
    }
    if x[i] != 0 {
      CarryStops(a, x[..], i);
      InRange(x[..]);
    } else {
      CarryLeaves(a, x[..]);
    }
  }

  /** Unary minus: complement the limbs and add one. */
  method Negate(b: array<U32>) returns (r: array<U32>)
    requires b.Length == WIDTH
    ensures fresh(r) && r.Length == WIDTH
    ensures Val(r[..]) == (0 - Val(b[..])) % M
  {
    r := new U32[WIDTH];
    for i := 0 to WIDTH
      invariant forall j :: 0 <= j < i ==> r[j] == BASE - 1 - b[j]
    {
      r[i] := BASE - 1 - b[i];
    }
    ValComplement(b[..], r[..]);
    ModulusIs();
    ghost var v: int := Val(b[..]);
    Increment(r);
    ModShift(M - v, 0 - v, 1, M);
  }

  lemma {:induction false} ModShift(x: int, y: int, k: int, m: nat)
    requires m > 0 && x == y + k * m
    ensures x % m == y % m
  {
    assert y == (y / m) * m + y % m;
    assert (y / m + k) * m == (y / m) * m + k * m;
    DivModUnique(x, m, y / m + k, y % m);
  }

  lemma {:induction false} SubtractMod(a: int, v: int, m: nat)
    requires m > 0
    ensures (a + (0 - v) % m) % m == (a - v) % m
  {
    var q, r := (0 - v) / m, (0 - v) % m;
    assert 0 - v == q * m + r;
    assert (0 - q) * m == 0 - q * m;
    ModShift(a + r, a - v, 0 - q, m);
  }

  /** `-=` adds the negation. */
  method SubAssign(x: array<U32>, b: array<U32>)
    requires x.Length == WIDTH == b.Length
    modifies x
    ensures Val(x[..]) == (Val(old(x[..])) - Val(old(b[..]))) % M
  {
    ghost var a: int, v: int := Val(x[..]), Val(b[..]);
    var nb := Negate(b);
    AddAssign(x, nb);
    SubtractMod(a, v, M);
  }

  /** `CompareTo` looks for the highest limb that differs. */
  method CompareTo(x: array<U32>, b: array<U32>) returns (r: int)
    requires x.Length == WIDTH == b.Length
    ensures r == if Val(x[..]) < Val(b[..]) then -1 else if Val(x[..]) > Val(b[..]) then 1 else 0
  {
    var i := WIDTH - 1;
    while i >= 0
      invariant -1 <= i < WIDTH
      invariant x[i + 1..] == b[i + 1..]
    {
      if x[i] < b[i] {
        ValOrder(x[..], b[..], i);
        return -1;
      }
      if x[i] > b[i] {
        ValOrder(b[..], x[..], i);
        return 1;
      }
      i := i - 1;
    }
    assert x[0..] == x[..] && b[0..] == b[..];
    return 0;
  }

  // -------------------------------------------------------------------- shifts

  /** A shift by whole limbs and bits multiplies by a power of two. */
  lemma {:induction false} ShiftIsTimes(v: int, k: nat, s: nat)
    ensures v * Pow2(32 * k + s) == At(v * Pow2(s), k)
  {
    if k > 0 {
      ShiftIsTimes(v, k - 1, s);
      PowAdd(2, 32, 32 * (k - 1) + s);
      Pow2Is32();
      var p := Pow2(32 * (k - 1) + s);
      assert Pow2(32 * k + s) == BASE * p by { assert 32 + (32 * (k - 1) + s) == 32 * k + s; }
      Assoc(v, BASE, p);
      Assoc(BASE, v, p);
    }
  }

  lemma {:induction false} LeftTotal(a: seq<U32>, k: nat, s: nat, r: seq<U32>)
    requires |a| == |r| == WIDTH && s < 32 && k <= WIDTH
    requires (forall j :: 0 <= j < k ==> r[j] == 0) && ShiftedUp(a, s, r[k..])
    ensures Val(r) == (Val(a) * Pow2(32 * k + s)) % M
  {
    var n, p, d := WIDTH - k, Pow2(s), r[k..];
    ValCut(r, k);
    ValZero(r[..k]);
    ValCut(a, n);
    ShiftUpValue(a, s, d);
    ShiftIsTimes(Val(a), k, s);
    InRange(r);
    LeftNumeric(Val(a), Val(a[..n]), Val(a[n..]), Val(d), Passed(a, s, n), p, n, k);
    AtIsTimes(Passed(a, s, n) + p * Val(a[n..]));
    Wraps(Val(r), Passed(a, s, n) + p * Val(a[n..]), Val(a) * Pow2(32 * k + s), M);
  }

  lemma {:induction false} LeftNumeric(va: int, low: int, high: int, vd: int, passed: int, p: int, n: nat, k: nat)
    requires va == low + At(high, n) && vd + At(passed, n) == p * low
    ensures At(va * p, k) == At(vd, k) + At(passed + p * high, n + k)
  {
    LeftProduct(va, low, high, vd, passed, p, n);
    LeftMoved(vd, passed + p * high, n, k);
  }

  lemma {:induction false} LeftProduct(va: int, low: int, high: int, vd: int, passed: int, p: int, n: nat)
    requires va == low + At(high, n) && vd + At(passed, n) == p * low
    ensures va * p == vd + At(passed + p * high, n)
  {
    AtTimes(high, p, n);
    AtAdd(passed, p * high, n);
    assert va * p == p * low + p * At(high, n);
  }

  lemma {:induction false} LeftMoved(vd: int, t: int, n: nat, k: nat)
    ensures At(vd + At(t, n), k) == At(vd, k) + At(t, n + k)
  {
    AtAdd(vd, At(t, n), k);
    AtAt(t, n, k);
  }

  lemma {:induction false} LeftGone(a: seq<U32>, k: nat, s: nat)
    requires |a| == WIDTH && k >= WIDTH
    ensures (Val(a) * Pow2(32 * k + s)) % M == 0
  {
    ShiftIsTimes(Val(a), k, s);
    AtAt(Val(a) * Pow2(s), k - WIDTH, WIDTH);
    AtIsTimes(At(Val(a) * Pow2(s), k - WIDTH));
    Wraps(0, At(Val(a) * Pow2(s), k - WIDTH), Val(a) * Pow2(32 * k + s), M);
  }

  method Clear(x: array<U32>)
    requires x.Length == WIDTH
    modifies x
    ensures forall j :: 0 <= j < WIDTH ==> x[j] == 0
  {
    for i := 0 to WIDTH
      invariant forall j :: 0 <= j < i ==> x[j] == 0
    {
      x[i] := 0;
    }
  }

  /** What stays in each limb and what it gets from the one below. */
  ghost predicate LeftParts(a: seq<U32>, s: nat, lo: seq<nat>, up: seq<nat>)
    requires s < 32
  {
    && |a| == |lo| == WIDTH && |up| == WIDTH + 1 && up[0] == 0
    && forall i :: 0 <= i < WIDTH ==> LeftPart(a, s, lo, up, i)
  }

  ghost predicate LeftPart(a: seq<U32>, s: nat, lo: seq<nat>, up: seq<nat>, i: nat)
    requires s < 32 && i < |a| && i < |lo| && i + 1 < |up|
  {
    && lo[i] == Lo(a[i], s) && up[i] == Passed(a, s, i) && up[i + 1] == Hi(a[i], s)
    && lo[i] + up[i] < BASE && Or(up[i], lo[i]) == lo[i] + up[i]
  }

  lemma {:induction false} LeftPartsExist(a: seq<U32>, s: nat) returns (lo: seq<nat>, up: seq<nat>)
    requires |a| == WIDTH && s < 32
    ensures LeftParts(a, s, lo, up)
  {
    lo := seq(WIDTH, i requires 0 <= i < WIDTH => Lo(a[i], s));
    up := seq(WIDTH + 1, i requires 0 <= i <= WIDTH => Passed(a, s, i));
    forall i | 0 <= i < WIDTH ensures LeftPart(a, s, lo, up, i) {
      DigitFits(a, s, i);
    }
  }

  lemma {:induction false} LeftDigits(a: seq<U32>, k: nat, s: nat, r: seq<U32>, lo: seq<nat>, up: seq<nat>)
    requires |r| == WIDTH && k < WIDTH && s < 32 && LeftParts(a, s, lo, up)
    requires forall j :: k <= j < WIDTH ==> r[j] == lo[j - k] + up[j - k]
    ensures ShiftedUp(a, s, r[k..])
  {
    forall i | 0 <= i < WIDTH - k ensures r[k..][i] == Lo(a[i], s) + Passed(a, s, i) {
      assert LeftPart(a, s, lo, up, i);
      assert r[k..][i] == r[k + i];
    }
  }

  /** One round of the loop of `<<=`. */
  method LeftRound(x: array<U32>, ai: U32, i: nat, k: nat, s: nat, ghost lo: nat, ghost up: nat, ghost next: nat)
    requires x.Length == WIDTH && i < WIDTH && s < 32 && lo == Lo(ai, s) && next == Hi(ai, s)
    requires lo + up < BASE && Or(up, lo) == lo + up
    requires i + k < WIDTH ==> x[i + k] == up
    requires i + k + 1 < WIDTH ==> x[i + k + 1] == 0
    modifies x
    ensures i + k < WIDTH ==> x[i + k] == lo + up
    ensures i + k + 1 < WIDTH ==> x[i + k + 1] == next
    ensures forall j :: 0 <= j < WIDTH && j != i + k && j != i + k + 1 ==> x[j] == old(x[j])
  {
    if i + k + 1 < WIDTH {
      OrZero(next);
      if s != 0 {
        x[i + k + 1] := Or(x[i + k + 1], ai / Pow2(32 - s));
      } else {
        NothingLeaves(ai);
      }
    }
    if i + k < WIDTH {
      x[i + k] := Or(x[i + k], Lo(ai, s));
    }
  }

  /** `<<=` multiplies by a power of two modulo 2^256, also for shifts beyond the width. */
  method ShiftLeft(x: array<U32>, shift: nat)
    requires x.Length == WIDTH
    modifies x
    ensures Val(x[..]) == (Val(old(x[..])) * Pow2(shift)) % M
  {
    ghost var a0 := x[..];
    var a := Copy(x);
    Clear(x);
    var k, s := shift / 32, shift % 32;
    ghost var lo, up := LeftPartsExist(a0, s);
    for i := 0 to WIDTH
      invariant a[..] == a0
      invariant forall j :: 0 <= j < k && j < WIDTH ==> x[j] == 0
      invariant forall j :: k <= j < k + i && j < WIDTH ==> x[j] == lo[j - k] + up[j - k]
      invariant k + i < WIDTH ==> x[k + i] == up[i]
      invariant forall j :: k + i < j < WIDTH ==> x[j] == 0
    {
      assert a[i] == a0[i];
      assert LeftPart(a0, s, lo, up, i);
      LeftRound(x, a[i], i, k, s, lo[i], up[i], up[i + 1]);
    }
    LeftDone(a0, k, s, x[..], lo, up);
  }

  /** The limbs after the last round. */
  lemma {:induction false} LeftDone(a: seq<U32>, k: nat, s: nat, r: seq<U32>, lo: seq<nat>, up: seq<nat>)
    requires |r| == WIDTH && s < 32 && LeftParts(a, s, lo, up)
    requires forall j :: 0 <= j < k && j < WIDTH ==> r[j] == 0
    requires forall j :: k <= j < WIDTH ==> r[j] == lo[j - k] + up[j - k]
    ensures Val(r) == (Val(a) * Pow2(32 * k + s)) % M
  {
    if k < WIDTH {
      LeftDigits(a, k, s, r, lo, up);
      LeftTotal(a, k, s, r);
    } else {
      ValZero(r);
      LeftGone(a, k, s);
    }
  }

  lemma {:induction false} NothingLeaves(x: U32)
    ensures Hi(x, 0) == 0
  {
    Pow2Is32();
  }

  /** Dividing by a product is dividing twice. */
  lemma {:induction false} DivTwice(x: nat, c: nat, p: nat, y: nat, low: nat, rem: nat, z: nat)
    requires c > 0 && p > 0 && x == low + c * y && low < c && y == p * z + rem && rem < p
    ensures x / (c * p) == z
  {
    Assoc(c, p, z);
    assert c * y == c * (p * z) + c * rem;
    assert x == (c * p) * z + (c * rem + low);
    MulMono(rem + 1, p, c);
    assert (rem + 1) * c == c * rem + c;
    assert c * p == p * c;
    DivModUnique(x, c * p, z, c * rem + low);
  }

  lemma {:induction false} RightTotal(a: seq<U32>, k: nat, s: nat, r: seq<U32>)
    requires |a| == |r| == WIDTH && s < 32 && k < WIDTH
    requires (forall j :: WIDTH - k <= j < WIDTH ==> r[j] == 0)
    requires ShiftedDown(a[k..], Pow2(s), Pow2(32 - s), r[..WIDTH - k])
    ensures Val(r) == Val(a) / Pow2(32 * k + s)
  {
    var n, p, d := WIDTH - k, Pow2(s), r[..WIDTH - k];
    ValCut(r, n);
    ValZero(r[n..]);
    AtZero(n);
    SplitLimb(0, s);
    assert p * Pow2(32 - s) == BASE;
    ShiftDownValue(a[k..], p, Pow2(32 - s), d);
    RightNumeric(a, k, s, a[k] % p, Val(d));
  }

  lemma {:induction false} ValCutTimes(a: seq<U32>, k: nat)
    requires k <= |a|
    ensures Val(a) == Val(a[..k]) + At(1, k) * Val(a[k..]) && 0 <= Val(a[..k]) < At(1, k)
  {
    ValCut(a, k);
    ValBound(a[..k]);
    AtTimes(1, Val(a[k..]), k);
  }

  lemma {:induction false} PowerSplit(k: nat, s: nat)
    ensures Pow2(32 * k + s) == At(1, k) * Pow2(s)
  {
    ShiftIsTimes(1, k, s);
    AtTimes(1, Pow2(s), k);
  }

  lemma {:induction false} RightNumeric(a: seq<U32>, k: nat, s: nat, rem: nat, z: nat)
    requires k < |a| && rem < Pow2(s) && Val(a[k..]) == Pow2(s) * z + rem
    ensures Val(a) / Pow2(32 * k + s) == z
  {
    ValCutTimes(a, k);
    PowerSplit(k, s);
    DivTwice(Val(a), At(1, k), Pow2(s), Val(a[k..]), Val(a[..k]), rem, z);
  }

  lemma {:induction false} RightGone(a: seq<U32>, k: nat, s: nat)
    requires |a| == WIDTH && k >= WIDTH
    ensures Val(a) / Pow2(32 * k + s) == 0
  {
    ShiftIsTimes(1, k, s);
    AtAt(Pow2(s), k - WIDTH, WIDTH);
    PowerAtLeast(Pow2(s), k - WIDTH);
    AtMono(1, At(Pow2(s), k - WIDTH), WIDTH);
    InRange(a);
    ModulusIs();
    DivModUnique(Val(a), Pow2(32 * k + s), 0, Val(a));
  }

  lemma {:induction false} PowerAtLeast(d: nat, i: nat)
    requires d >= 1
    ensures At(d, i) >= 1
  {
    if i > 0 { PowerAtLeast(d, i - 1); }
  }

  /** One round of the loop of `>>=`. */
  method RightRound(x: array<U32>, ai: U32, i: nat, k: nat, s: nat, ghost below: U32, ghost digit: U32)
    requires x.Length == WIDTH && i < WIDTH && s < 32 && 0 <= ai / Pow2(s) < BASE
    requires i >= k + 1 ==> x[i - k - 1] == below && digit == Or(below, Lo(ai, 32 - s))
    requires i >= k ==> x[i - k] == 0
    modifies x
    ensures i >= k + 1 ==> x[i - k - 1] == digit
    ensures i >= k ==> x[i - k] == ai / Pow2(s)
    ensures forall j :: 0 <= j < WIDTH && j != i - k - 1 && j != i - k ==> x[j] == old(x[j])
  {
    if i - k - 1 >= 0 {
      if s != 0 {
        x[i - k - 1] := Or(x[i - k - 1], Lo(ai, 32 - s));
      } else {
        WholeLimb(ai);
        OrZero(below);
      }
    }
    if i - k >= 0 {
      OrZero(ai / Pow2(s));
      x[i - k] := Or(x[i - k], ai / Pow2(s));
    }
  }

  ghost predicate RightParts(a: seq<U32>, s: nat, down: seq<U32>, digit: seq<U32>)
    requires s < 32
  {
    && |a| == |down| == |digit| == WIDTH
    && forall i :: 0 <= i < WIDTH ==> RightPart(a, s, down, digit, i)
  }

  ghost predicate RightPart(a: seq<U32>, s: nat, down: seq<U32>, digit: seq<U32>, i: nat)
    requires s < 32 && i < |a| == |down| == |digit|
  {
    && down[i] == a[i] / Pow2(s) && digit[i] == DownDigit(a, Pow2(s), Pow2(32 - s), i)
    && digit[i] == if i + 1 < |a| then Or(down[i], Lo(a[i + 1], 32 - s)) else down[i]
  }

  lemma {:induction false} RightPartsExist(a: seq<U32>, s: nat) returns (down: seq<U32>, digit: seq<U32>)
    requires |a| == WIDTH && s < 32
    ensures RightParts(a, s, down, digit)
  {
    forall i | 0 <= i < WIDTH
      ensures 0 <= a[i] / Pow2(s) < BASE && 0 <= DownDigit(a, Pow2(s), Pow2(32 - s), i) < BASE
    {
      DownFits(a, s, i);
    }
    down := seq(WIDTH, i requires 0 <= i < WIDTH => a[i] / Pow2(s));
    digit := seq(WIDTH, i requires 0 <= i < WIDTH => DownDigit(a, Pow2(s), Pow2(32 - s), i));
    forall i | 0 <= i < WIDTH ensures RightPart(a, s, down, digit, i) {
      DownFits(a, s, i);
    }
  }

  /** `>>=` divides by a power of two. */
  method ShiftRight(x: array<U32>, shift: nat)
    requires x.Length == WIDTH
    modifies x
    ensures Val(x[..]) == Val(old(x[..])) / Pow2(shift)
  {
    ghost var a0 := x[..];
    var a := Copy(x);
    Clear(x);
    var k, s := shift / 32, shift % 32;
    ghost var down, digit := RightPartsExist(a0, s);
    for i := 0 to WIDTH
      invariant a[..] == a0
      invariant forall j :: 0 <= j && j + k + 1 < i ==> x[j] == digit[j + k]
      invariant 0 <= i - k - 1 ==> x[i - k - 1] == down[i - 1]
      invariant forall j :: 0 <= j < WIDTH && i <= j + k ==> x[j] == 0
    {
      assert a[i] == a0[i];
      assert RightPart(a0, s, down, digit, i);
      if i > k {
        assert RightPart(a0, s, down, digit, i - 1);
      }
      RightRound(x, a[i], i, k, s, if i > k then down[i - 1] else 0, if i > k then digit[i - 1] else 0);
    }
    if k < WIDTH {
      RightDigits(a0, k, s, x[..], down, digit);
      RightTotal(a0, k, s, x[..]);
    } else {
      ValZero(x[..]);
      RightGone(a0, k, s);
    }
  }

  lemma {:induction false} RightDigits(a: seq<U32>, k: nat, s: nat, r: seq<U32>, down: seq<U32>, digit: seq<U32>)
    requires |a| == |r| == WIDTH && k < WIDTH && s < 32 && RightParts(a, s, down, digit)
    requires forall j :: 0 <= j < WIDTH - k - 1 ==> r[j] == digit[j + k]
    requires r[WIDTH - k - 1] == down[WIDTH - 1]
    ensures ShiftedDown(a[k..], Pow2(s), Pow2(32 - s), r[..WIDTH - k])
  {
    forall j | 0 <= j < WIDTH - k ensures r[j] == DownDigit(a[k..], Pow2(s), Pow2(32 - s), j) {
      assert RightPart(a, s, down, digit, j + k);
      assert a[k..][j] == a[j + k];
    }
  }

  /** Shifted by no bits, a limb passes nothing to the one below. */
  lemma {:induction false} WholeLimb(x: U32)
    ensures (x * Pow2(32)) % BASE == 0
  {
    Pow2Is32();
  }

  // ------------------------------------------------------------------- size

  lemma {:induction false} TopLimb(x: seq<U32>, pos: nat, t: nat)
    requires |x| == WIDTH && pos < WIDTH && (forall j :: pos < j < WIDTH ==> x[j] == 0)
    requires t > 0 && Pow2(t - 1) <= x[pos] < Pow2(t)
    ensures Pow2(32 * pos + t - 1) <= Val(x) < Pow2(32 * pos + t)
  {
    ValTop(x, pos);
    var top: int := x[pos];
    AtMono(Pow2(t - 1), top, pos);
    AtAdd(top, 1, pos);
    AtMono(top + 1, Pow2(t), pos);
    PowerColumn(pos, t);
    PowerColumn(pos, t - 1);
  }

  /** With nothing above a limb, the value lies within one of its column. */
  lemma {:induction false} ValTop(x: seq<U32>, pos: nat)
    requires |x| == WIDTH && pos < WIDTH && (forall j :: pos < j < WIDTH ==> x[j] == 0)
    ensures At(x[pos], pos) <= Val(x) < At(x[pos], pos) + At(1, pos)
  {
    ValCut(x, pos + 1);
    ValZero(x[pos + 1..]);
    AtZero(pos + 1);
    ValNext(x, pos);
    ValBound(x[..pos]);
  }

  /** A power of two in the column of a limb. */
  lemma {:induction false} PowerColumn(pos: nat, t: nat)
    ensures At(Pow2(t), pos) == Pow2(32 * pos + t)
  {
    ShiftIsTimes(1, pos, t);
  }

  /** `bits`: the position of the highest bit set plus one, or zero. */
  method Bits(x: array<U32>) returns (n: nat)
    requires x.Length == WIDTH
    ensures n <= 256 && (n == 0 <==> Val(x[..]) == 0)
    ensures n > 0 ==> Pow2(n - 1) <= Val(x[..]) < Pow2(n)
  {
    var pos := WIDTH - 1;
    while pos >= 0
      invariant -1 <= pos < WIDTH
      invariant forall j :: pos < j < WIDTH ==> x[j] == 0
    {
      if x[pos] != 0 {
        var t := HighBit(x[pos]);
        TopLimb(x[..], pos, t);
        return 32 * pos + t;
      }
      pos := pos - 1;
    }
    ValZero(x[..]);
    return 0;
  }

  /** The inner loop of `bits`. */
  method HighBit(limb: U32) returns (t: nat)
    requires limb != 0
    ensures 1 <= t <= 32 && Pow2(t - 1) <= limb < Pow2(t)
  {
    Pow2Is32();
    var bits := 31;
    while bits > 0
      invariant 0 <= bits <= 31 && limb < Pow2(bits + 1)
    {
      TestBit(limb, bits);
      if (limb / Pow2(bits)) % 2 == 1 {
        return bits + 1;
      }
      bits := bits - 1;
    }
    return 1;
  }

  lemma {:induction false} TestBit(limb: nat, bits: nat)
    requires limb < Pow2(bits + 1)
    ensures (limb / Pow2(bits)) % 2 == 1 <==> limb >= Pow2(bits)
  {
    var p := Pow2(bits);
    if limb >= p {
      DivModUnique(limb, p, 1, limb - p);
    } else {
      DivModUnique(limb, p, 0, limb);
    }
  }

  // ------------------------------------------------------------ multiplication

  /** The product of one limb and a number, limb by limb. */
  function Row(aj: int, s: seq<U32>): int {
    if s == [] then 0 else aj * s[0] + BASE * Row(aj, s[1..])
  }

  lemma {:induction false} RowIsProduct(aj: int, s: seq<U32>)
    ensures Row(aj, s) == aj * Val(s)
  {
    if s != [] {
      RowIsProduct(aj, s[1..]);
      var v := Val(s[1..]);
      Assoc(aj, BASE, v);
      Assoc(BASE, aj, v);
      assert aj * (s[0] + BASE * v) == aj * s[0] + aj * (BASE * v);
    }
  }

  lemma {:induction false} RowSplit(aj: int, s: seq<U32>, t: seq<U32>)
    ensures Row(aj, s + t) == Row(aj, s) + At(Row(aj, t), |s|)
  {
    if s == [] {
      assert s + t == t;
    } else {
      RowSplit(aj, s[1..], t);
      assert (s + t)[1..] == s[1..] + t;
    }
  }

  lemma {:induction false} RowNext(aj: int, b: seq<U32>, i: nat)
    requires i < |b|
    ensures Row(aj, b[..i + 1]) == Row(aj, b[..i]) + At(aj * b[i], i)
  {
    assert b[..i + 1] == b[..i] + [b[i]];
    RowSplit(aj, b[..i], [b[i]]);
    assert Row(aj, [b[i]]) == aj * b[i];
  }

  /** The product so far: `i` limbs of `b` times `aj` are added to the limbs `p0` from position `j`. */
  ghost predicate RowInv(low: seq<U32>, p0: seq<U32>, b: seq<U32>, aj: int, j: nat, i: nat, carry: int)
    requires |low| == i + j <= |p0| && i <= |b|
  {
    Val(low) + At(carry, i + j) == Val(p0[..i + j]) + At(Row(aj, b[..i]), j)
  }

  lemma {:induction false} MulColumn(low: seq<U32>, p0: seq<U32>, b: seq<U32>, aj: U32, j: nat, i: nat, carry: nat,
                                     m: nat, d: U32, carry': nat)
    requires |low| == i + j < |p0| && i < |b| && m == aj * b[i]
    requires RowInv(low, p0, b, aj, j, i, carry)
    requires carry + p0[i + j] + m == d + BASE * carry'
    ensures RowInv(low + [d], p0, b, aj, j, i + 1, carry')
  {
    ValNext(p0, i + j);
    RowNext(aj, b, i);
    ValSnoc(low, d);
    LeftMoved(Row(aj, b[..i]), m, i, j);
    ColumnSum(Val(low), Val(p0[..i + j]) + At(Row(aj, b[..i]), j), carry, p0[i + j], m, d, carry', i + j);
  }

  /** Two 32-bit numbers added to a product of two still fit 64 bits. */
  lemma {:induction false} NoOverflow64(c: nat, p: nat, x: nat, y: nat)
    requires c < BASE && p < BASE && x < BASE && y < BASE
    ensures c + p + x * y < BASE * BASE
  {
    MulMono(x, BASE - 1, y);
    assert (BASE - 1) * y <= (BASE - 1) * (BASE - 1);
  }

  /** One cell of the product; it fits 64 bits. */
  method MulCell(x: array<U32>, b: array<U32>, aj: U32, i: nat, j: nat, carry: nat) returns (carry': nat)
    requires x.Length == WIDTH == b.Length && i + j < WIDTH && carry < BASE
    modifies x
    ensures carry' < BASE && x[i + j] + BASE * carry' == carry + old(x[i + j]) + aj * old(b[i])
    ensures forall m :: 0 <= m < WIDTH && m != i + j ==> x[m] == old(x[m])
  {
    NoOverflow64(carry, x[i + j], aj, b[i]);
    var lo, hi := Halves(carry + x[i + j] + aj * b[i]);
    x[i + j] := lo;
    carry' := hi;
  }

  /** The low and the high half of a 64-bit number. */
  method Halves(n: nat) returns (lo: U32, hi: U32)
    requires n < BASE * BASE
    ensures lo + BASE * hi == n
  {
    lo, hi := n % BASE, n / BASE;
  }

  /** One round of the inner loop of `*=`; on one object the operand is zero and stays so. */
  method MulRound(x: array<U32>, b: array<U32>, aj: U32, j: nat, i: nat, carry: nat, ghost p0: seq<U32>,
                  ghost b0: seq<U32>) returns (carry': nat)
    requires x.Length == b.Length == |p0| == |b0| == WIDTH && i + j < WIDTH && carry < BASE
    requires x == b ==> carry == 0 && forall k :: 0 <= k < WIDTH ==> x[k] == 0
    requires x != b ==> b[..] == b0 && x[i + j] == p0[i + j] && RowInv(x[..i + j], p0, b0, aj, j, i, carry)
    modifies x
    ensures carry' < BASE && x[i + j + 1..] == old(x[i + j + 1..])
    ensures x == b ==> carry' == 0 && forall k :: 0 <= k < WIDTH ==> x[k] == 0
    ensures x != b ==> b[..] == b0 && RowInv(x[..i + 1 + j], p0, b0, aj, j, i + 1, carry')
  {
    ghost var low := x[..i + j];
    carry' := MulCell(x, b, aj, i, j, carry);
    if x != b {
      assert x[..i + 1 + j] == low + [x[i + j]];
      MulColumn(low, p0, b0, aj, j, i, carry, aj * b0[i], x[i + j], carry');
    }
  }

  /** The inner loop of `*=` adds one row of the product. */
  method MulRow(x: array<U32>, b: array<U32>, aj: U32, j: nat)
    requires x.Length == WIDTH == b.Length && j < WIDTH
    requires x == b ==> forall k :: 0 <= k < WIDTH ==> x[k] == 0
    modifies x
    ensures x != b ==> Val(x[..]) == (Val(old(x[..])) + At(Row(aj, b[..]), j)) % M
    ensures x == b ==> forall k :: 0 <= k < WIDTH ==> x[k] == 0
  {
    ghost var p0, b0 := x[..], b[..];
    var carry := 0;
    AtZero(j);
    assert Row(aj, b0[..0]) == 0;
    for i := 0 to WIDTH - j
      invariant 0 <= carry < BASE
      invariant x != b ==> b[..] == b0
      invariant forall m :: i + j <= m < WIDTH ==> x[m] == p0[m]
      invariant x == b ==> carry == 0 && forall k :: 0 <= k < WIDTH ==> x[k] == 0
      invariant x != b ==> RowInv(x[..i + j], p0, b0, aj, j, i, carry)
    {
      carry := MulRound(x, b, aj, j, i, carry, p0, b0);
    }
    if x != b {
      assert x[..WIDTH] == x[..];
      RowDone(x[..], p0, b0, aj, j, carry);
    }
  }

  /** After its last column a row is added modulo 2^256. */
  lemma {:induction false} RowDone(r: seq<U32>, p0: seq<U32>, b: seq<U32>, aj: U32, j: nat, carry: int)
    requires |r| == |p0| == |b| == WIDTH && j < WIDTH && RowInv(r, p0, b, aj, j, WIDTH - j, carry)
    ensures Val(r) == (Val(p0) + At(Row(aj, b), j)) % M
  {
    var k := RowEnds(r, p0, b, aj, j, WIDTH - j, carry);
    RowWraps(r, k, Val(p0), At(Row(aj, b), j));
  }

  lemma {:induction false} RowWraps(r: seq<U32>, k: int, v: int, row: int)
    requires |r| == WIDTH && Val(r) + At(k, |r|) == v + row
    ensures Val(r) == (v + row) % M
  {
    AtIsTimes(k);
    InRange(r);
    Wraps(Val(r), k, v + row, M);
  }

  /** A finished row: what left the number at the top is a multiple of the modulus. */
  lemma {:induction false} RowEnds(r: seq<U32>, p0: seq<U32>, b: seq<U32>, aj: int, j: nat, n: nat, carry: int)
    returns (k: int)
    requires |r| == |p0| == |b| == n + j && RowInv(r, p0, b, aj, j, n, carry)
    ensures Val(r) + At(k, |r|) == Val(p0) + At(Row(aj, b), j)
  {
    assert p0[..n + j] == p0 && b == b[..n] + b[n..];
    RowSplit(aj, b[..n], b[n..]);
    var low, high := Row(aj, b[..n]), Row(aj, b[n..]);
    LeftMoved(low, high, n, j);
    AtAdd(carry, high, n + j);
    k := carry + high;
  }

  lemma {:induction false} ModAdd(p: int, q: int, m: nat)
    requires m > 0
    ensures (p % m + q) % m == (p + q) % m
  {
    ModShift(p + q, p % m + q, p / m, m);
  }

  lemma {:induction false} ScaledMultiple(c: nat, a: nat, b: nat)
    requires c > 0 && b > 0
    ensures c * b > 0 && ((c * a) % (c * b) == 0 <==> a % b == 0)
  {
    MulMono(1, b, c);
    ScaledRemainder(c, a, b, a / b, a % b);
  }

  lemma {:induction false} ScaledRemainder(c: nat, a: nat, b: nat, q: nat, r: nat)
    requires c > 0 && a == q * b + r && r < b && c * b > 0
    ensures (c * a) % (c * b) == 0 <==> r == 0
  {
    MulMono(r + 1, b, c);
    assert (r + 1) * c == r * c + c && b * c == c * b;
    Assoc(c, q, b);
    Assoc(q, c, b);
    assert c * a == q * (c * b) + r * c;
    DivModUnique(c * a, c * b, q, r * c);
    if r > 0 { MulMono(1, r, c); }
  }

  lemma {:induction false} OddMultiple(v: nat, c: nat, b: nat)
    requires v % 2 == 1 && c * b > 0 && c % 2 == 0
    ensures v % (c * b) != 0
  {
    var q, r := v / (c * b), v % (c * b);
    assert v == q * (c * b) + r;
    assert q * (c * b) == 2 * (q * (c / 2 * b)) by { assert c == 2 * (c / 2); }
  }

  /** A square has all the low zeroes that its root has, twice. */
  lemma {:induction false} SquareMultiple(v: nat, n: nat)
    ensures Pow(4, n) > 0 && Pow(2, n) > 0
    ensures v * v % Pow(4, n) == 0 <==> v % Pow(2, n) == 0
  {
    PowPositive(4, n);
    PowPositive(2, n);
    if n > 0 {
      PowPositive(4, n - 1);
      PowPositive(2, n - 1);
      var q := v / 2;
      if v % 2 == 1 {
        assert v * v == 2 * (2 * q * q + 2 * q) + 1 by { assert v == 2 * q + 1; }
        OddMultiple(v * v, 4, Pow(4, n - 1));
        OddMultiple(v, 2, Pow(2, n - 1));
      } else {
        assert v * v == 4 * (q * q) by { assert v == 2 * q; }
        SquareMultiple(q, n - 1);
        ScaledMultiple(4, q * q, Pow(4, n - 1));
        ScaledMultiple(2, q, Pow(2, n - 1));
      }
    }
  }

  /** Zero is the right square exactly of the multiples of 2^128. */
  lemma {:induction false} SquareIsZero(v: nat)
    ensures v * v % M == 0 <==> v % Pow2(128) == 0
  {
    SquareMultiple(v, 128);
    PowPow(2, 2, 128);
    Pow2Is256();
  }

  /** `*=`: the product modulo 2^256, unless a number is multiplied by itself, which gives zero:
      the operand is cleared before it is read. */
  method MulAssign(x: array<U32>, b: array<U32>)
    requires x.Length == WIDTH == b.Length
    modifies x
    ensures x != b ==> Val(x[..]) == (Val(old(x[..])) * Val(b[..])) % M
    ensures x == b ==> Val(x[..]) == 0
  {
    ghost var a0, v := x[..], Val(b[..]);
    var a := Copy(x);
    Clear(x);
    ValZero(x[..]);
    assert Val(a0[..0]) * v == 0;
    for j := 0 to WIDTH
      invariant a[..] == a0
      invariant x == b ==> forall k :: 0 <= k < WIDTH ==> x[k] == 0
      invariant x != b ==> Val(b[..]) == v && Val(x[..]) == (Val(a0[..j]) * v) % M
    {
      MulRow(x, b, a[j], j);
      if x != b {
        ValNext(a0, j);
        RowIsProduct(a0[j], b[..]);
        RowSum(Val(a0[..j]), a0[j], v, j, Row(a0[j], b[..]));
      }
    }
    assert a0[..WIDTH] == a0;
    if x == b {
      ValZero(x[..]);
    }
  }

  lemma {:induction false} RowSum(u: int, aj: int, v: int, j: nat, row: int)
    requires row == aj * v
    ensures ((u * v) % M + At(row, j)) % M == ((u + At(aj, j)) * v) % M
  {
    AtTimes(aj, v, j);
    Distribute(u, At(aj, j), v, aj, row);
    ModAdd(u * v, At(row, j), M);
  }

  lemma {:induction false} Distribute(u: int, w: int, v: int, aj: int, row: int)
    requires row == aj * v
    ensures (u + w) * v == u * v + v * w && row == v * aj
  {
  }

  // ------------------------------------------------------------------ division

  lemma {:induction false} Pow2Is256()
    ensures Pow2(256) == M
  {
    ShiftIsTimes(1, 8, 0);
    ModulusIs();
  }

  /** No bit below position `t` is set. */
  ghost predicate ClearBelow(x: seq<U32>, t: nat) {
    && (forall j :: 0 <= j < |x| && j < t / 32 ==> x[j] == 0)
    && (t / 32 < |x| ==> x[t / 32] % Pow2(t % 32) == 0)
  }

  lemma {:induction false} ClearBelowLess(x: seq<U32>, t: nat)
    requires ClearBelow(x, t + 1)
    ensures ClearBelow(x, t)
  {
    if t % 32 == 31 {
      assert (t + 1) / 32 == t / 32 + 1;
      SmallMod(0, Pow2(t % 32));
    } else if t / 32 < |x| {
      assert (t + 1) / 32 == t / 32 && (t + 1) % 32 == t % 32 + 1;
      HalveDivisor(x[t / 32], Pow2(t % 32));
    }
  }

  lemma {:induction false} SmallMod(x: nat, p: nat)
    requires x < p
    ensures x % p == x
  {
    DivModUnique(x, p, 0, x);
  }

  lemma {:induction false} HalveDivisor(x: nat, p: nat)
    requires p > 0 && x % (2 * p) == 0
    ensures x % p == 0
  {
    var q := x / (2 * p);
    assert x == q * (2 * p);
    Assoc(q, 2, p);
    DivModUnique(x, p, q * 2, 0);
  }

  lemma {:induction false} LimbRaised(x: seq<U32>, r: seq<U32>, k: nat, e: int)
    requires |x| == |r| && k < |x| && r[k] == x[k] + e && r == x[k := r[k]]
    ensures Val(r) == Val(x) + At(e, k)
  {
    if k > 0 {
      assert r[1..] == x[1..][k - 1 := r[1..][k - 1]];
      LimbRaised(x[1..], r[1..], k - 1, e);
    } else {
      assert r[1..] == x[1..];
    }
  }

  lemma {:induction false} AddMultiple(x: nat, p: nat)
    requires p > 0 && x % p == 0
    ensures (x + p) % p == 0
  {
    DivModUnique(x + p, p, x / p + 1, 0);
  }

  /** Setting a bit where nothing below the next one is set adds that power of two. */
  lemma {:induction false} BitSet(x: seq<U32>, r: seq<U32>, t: nat)
    requires |x| == |r| == WIDTH && t < 256 && ClearBelow(x, t + 1)
    requires r[t / 32] == x[t / 32] + Pow2(t % 32) && r == x[t / 32 := r[t / 32]]
    ensures Val(r) == Val(x) + Pow2(t) && ClearBelow(r, t)
  {
    var k, s := t / 32, t % 32;
    LimbRaised(x, r, k, Pow2(s));
    ShiftIsTimes(1, k, s);
    ClearBelowLess(x, t);
    AddMultiple(x[k], Pow2(s));
  }

  lemma {:induction false} MultipleRoom(limb: nat, p: nat, c: nat)
    requires p > 0 && c * p == BASE && limb < BASE && limb % p == 0
    ensures limb + p <= BASE
  {
    var q := limb / p;
    assert limb == q * p;
    QuotientBound(limb, p, c, q, 0);
    MulMono(q + 1, c, p);
    assert (q + 1) * p == limb + p;
  }

  lemma {:induction false} BitFits(limb: U32, s: nat)
    requires s < 32 && (s < 31 ==> limb % Pow2(s + 1) == 0) && (s == 31 ==> limb == 0)
    ensures Or(limb, Pow2(s)) == limb + Pow2(s) < BASE
  {
    Pow2Is32();
    if s == 31 {
      OrZero(Pow2(s));
    } else {
      PowAdd(2, 31 - s, s + 1);
      assert Pow2(s) < Pow2(s + 1);
      OrIsAdd(limb, Pow2(s), s + 1);
      MultipleRoom(limb, Pow2(s + 1), Pow2(31 - s));
    }
  }

  /** Setting one bit of the quotient. */
  method SetBit(x: array<U32>, t: nat)
    requires x.Length == WIDTH && t < 256 && ClearBelow(x[..], t + 1)
    modifies x
    ensures Val(x[..]) == Val(old(x[..])) + Pow2(t) && ClearBelow(x[..], t)
  {
    ghost var x0 := x[..];
    if t % 32 == 31 {
      assert (t + 1) / 32 == t / 32 + 1;
    } else {
      assert (t + 1) / 32 == t / 32 && (t + 1) % 32 == t % 32 + 1;
    }
    BitFits(x[t / 32], t % 32);
    x[t / 32] := Or(x[t / 32], Pow2(t % 32));
    BitSet(x0, x[..], t);
  }

  /** Where the long division stands before the bit at `shift` is decided. */
  ghost predicate Dividing(a: int, b: int, q: int, num: int, shift: int)
    requires shift >= -1
  {
    a == q * b + num && 0 <= num < b * Pow2(shift + 1)
  }

  lemma {:induction false} DivideStep(a: int, b: int, q: int, num: int, shift: nat)
    requires b > 0 && Dividing(a, b, q, num, shift)
    ensures num >= b * Pow2(shift) ==> Dividing(a, b, q + Pow2(shift), num - b * Pow2(shift), shift - 1)
    ensures num < b * Pow2(shift) ==> Dividing(a, b, q, num, shift - 1)
  {
    var p := Pow2(shift);
    assert b * (2 * p) == b * p + b * p;
    assert (q + p) * b == q * b + b * p;
  }

  lemma {:induction false} DivideStart(a: nat, b: nat, n: nat, d: nat)
    requires 0 < d <= n <= 256 && Pow2(d - 1) <= b < Pow2(d) && a < Pow2(n)
    ensures Dividing(a, b, 0, a, n - d) && b * Pow2(n - d) < M
  {
    PowAdd(2, d - 1, n - d + 1);
    MulMono(Pow2(d - 1), b, Pow2(n - d + 1));
    assert (d - 1) + (n - d + 1) == n;
    PowAdd(2, d, n - d);
    MulMono(b + 1, Pow2(d), Pow2(n - d));
    assert (b + 1) * Pow2(n - d) == b * Pow2(n - d) + Pow2(n - d);
    PowMono(2, n, 256);
    Pow2Is256();
  }

  /** One round of the loop of `/=`: the bit of the quotient at `shift` is decided. */
  method DivideRound(x: array<U32>, num: array<U32>, div: array<U32>, shift: nat, ghost a: int, ghost b: int)
    requires x.Length == num.Length == div.Length == WIDTH && x != num && x != div && num != div
    requires shift < 256 && b > 0 && ClearBelow(x[..], shift + 1)
    requires Val(div[..]) == b * Pow2(shift) && Dividing(a, b, Val(x[..]), Val(num[..]), shift)
    modifies x, num, div
    ensures ClearBelow(x[..], shift) && Dividing(a, b, Val(x[..]), Val(num[..]), shift - 1)
    ensures shift > 0 ==> Val(div[..]) == b * Pow2(shift - 1)
  {
    DivideStep(a, b, Val(x[..]), Val(num[..]), shift);
    var c := CompareTo(num, div);
    if c >= 0 {
      ghost var diff: int := Val(num[..]) - Val(div[..]);
      InRange(num[..]);
      SmallMod(diff, M);
      SubAssign(num, div);
      SetBit(x, shift);
    } else {
      ClearBelowLess(x[..], shift);
    }
    ghost var dv := div[..];
    ShiftRight(div, 1);
    assert Pow2(1) == 2;
    if shift > 0 {
      HalfPower(Val(dv), b, shift);
    }
  }

  lemma {:induction false} HalfPower(v: nat, b: int, shift: nat)
    requires shift > 0 && v == b * Pow2(shift)
    ensures v / 2 == b * Pow2(shift - 1)
  {
    var p := Pow2(shift - 1);
    assert b * (2 * p) == 2 * (b * p);
  }

  /** `/=`: the quotient, with the remainder left in `num`; division by zero is an error. */
  method DivAssign(x: array<U32>, b: array<U32>) returns (ok: bool, num: array<U32>)
    requires x.Length == WIDTH == b.Length
    modifies x
    ensures fresh(num) && num.Length == WIDTH
    ensures ok <==> Val(old(b[..])) != 0
    ensures ok ==> Val(x[..]) == Val(old(x[..])) / Val(old(b[..])) && Val(num[..]) == Val(old(x[..])) % Val(old(b[..]))
    ensures !ok ==> Val(x[..]) == 0
  {
    ghost var a0, b0 := Val(x[..]), Val(b[..]);
    var div := Copy(b);
    num := Copy(x);
    Clear(x);
    ValZero(x[..]);
    var numBits := Bits(num);
    var divBits := Bits(div);
    if divBits == 0 {
      return false, num;
    }
    ok := true;
    if divBits > numBits {
      SmallerBits(a0, b0, numBits, divBits);
      return;
    }
    DivideStart(a0, b0, numBits, divBits);
    DivideLoop(x, num, div, numBits - divBits, a0, b0);
  }

  /** The aligning shift and the loop of `/=`. */
  method DivideLoop(x: array<U32>, num: array<U32>, div: array<U32>, shift0: nat, ghost a: nat, ghost b: nat)
    requires x.Length == num.Length == div.Length == WIDTH && x != num && x != div && num != div
    requires (forall j :: 0 <= j < WIDTH ==> x[j] == 0) && shift0 < 256 && b > 0
    requires Val(div[..]) == b && b * Pow2(shift0) < M && Dividing(a, b, 0, Val(num[..]), shift0)
    modifies x, num, div
    ensures Val(x[..]) == a / b && Val(num[..]) == a % b
  {
    var shift: int := shift0;
    ShiftLeft(div, shift0);
    SmallMod(b * Pow2(shift0), M);
    ValZero(x[..]);
    AllClear(x[..], shift0 + 1);
    while shift >= 0
      invariant -1 <= shift < 256
      invariant ClearBelow(x[..], shift + 1) && Dividing(a, b, Val(x[..]), Val(num[..]), shift)
      invariant shift >= 0 ==> Val(div[..]) == b * Pow2(shift)
    {
      DivideRound(x, num, div, shift, a, b);
      shift := shift - 1;
    }
    assert Pow2(0) == 1;
    DivModUnique(a, b, Val(x[..]), Val(num[..]));
  }

  lemma {:induction false} SmallerBits(a: nat, b: nat, n: nat, d: nat)
    requires n < d && Pow2(d - 1) <= b && (if n == 0 then a == 0 else a < Pow2(n))
    ensures a / b == 0 && a % b == a
  {
    if n > 0 { PowMono(2, n, d - 1); }
    DivModUnique(a, b, 0, a);
  }

  lemma {:induction false} AllClear(x: seq<U32>, t: nat)
    requires forall j :: 0 <= j < |x| ==> x[j] == 0
    ensures ClearBelow(x, t)
  {
    SmallMod(0, Pow2(t % 32));
  }
}
