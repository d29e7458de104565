/** The compression of amounts: trailing zeroes (up to nine) become an exponent. */
module Amounts {
  import opened Powers

  const MAX_MONEY: nat := 21_000_000 * 100_000_000

  const TWO64: nat := 0x1_0000_0000_0000_0000

  /** An amount as `m` followed by `e` zeroes. */
  datatype Parts = Parts(m: nat, e: nat) {
    function Amount(): nat {
      m * Pow(10, e)
    }

    /** All zeroes are in the exponent, as far as it reaches. */
    predicate Normal() {
      m > 0 && e <= 9 && (e < 9 ==> m % 10 != 0)
    }
  }

  /** The code of a normal form. */
  function Code(p: Parts): nat
    requires p.Normal()
  {
    if p.e < 9 then 1 + (p.m / 10 * 9 + p.m % 10 - 1) * 10 + p.e else 1 + (p.m - 1) * 10 + 9
  }

  /** The normal form of a code. */
  function Decoded(x: nat): Parts
    requires x > 0
  {
    var e, y := (x - 1) % 10, (x - 1) / 10;
    if e < 9 then Parts(y / 9 * 10 + y % 9 + 1, e) else Parts(y + 1, 9)
  }

  /** Codes and normal forms match one to one. */
  lemma {:induction false} DecodedCode(p: Parts)
    requires p.Normal()
    ensures Decoded(Code(p)) == p
  {
    if p.e < 9 {
      var q, d := p.m / 10, p.m % 10;
      CodeNumbers(q, d, p.e, Code(p) - 1);
      assert p.m == q * 10 + d;
    } else {
      DivModUnique(Code(p) - 1, 10, p.m - 1, 9);
    }
  }

  lemma {:induction false} CodeNumbers(q: nat, d: nat, e: nat, x: nat)
    requires 0 < d < 10 && e < 9 && x == (q * 9 + d - 1) * 10 + e
    ensures x % 10 == e && x / 10 == q * 9 + d - 1 && x / 10 / 9 == q && x / 10 % 9 == d - 1
  {
    var y := q * 9 + d - 1;
    DivModUnique(x, 10, y, e);
    DivModUnique(y, 9, q, d - 1);
  }

  lemma {:induction false} CodeDecoded(x: nat)
    requires x > 0
    ensures Decoded(x).Normal() && Code(Decoded(x)) == x
  {
    var e, y := (x - 1) % 10, (x - 1) / 10;
    if e < 9 {
      var q, r := y / 9, y % 9;
      DivModUnique(q * 10 + r + 1, 10, q, r + 1);
    }
  }

  /** The normal form of an amount. */
  function Stripped(n: nat, e: nat): Parts
    decreases 9 - e
  {
    if n % 10 == 0 && e < 9 then Stripped(n / 10, e + 1) else Parts(n, e)
  }

  lemma {:induction false} StrippedIs(n: nat, e: nat)
    requires n > 0 && e <= 9
    ensures Stripped(n, e).Normal() && Stripped(n, e).Amount() == Parts(n, e).Amount()
    decreases 9 - e
  {
    if n % 10 == 0 && e < 9 {
      StrippedIs(n / 10, e + 1);
      ShiftZero(n / 10, e);
    }
  }

  lemma {:induction false} ShiftZero(m: nat, e: nat)
    ensures Parts(m, e + 1).Amount() == Parts(m * 10, e).Amount()
  {
    Assoc(m, 10, Pow(10, e));
  }

  /** An amount has one normal form. */
  lemma {:induction false} StrippedUnique(p: Parts, n: nat, e: nat)
    requires p.Normal() && e <= p.e && n == p.m * Pow(10, p.e - e)
    ensures Stripped(n, e) == p
    decreases p.e - e
  {
    if e < p.e {
      var n' := TenTimes(p.m, Pow(10, p.e - e - 1), n);
      StrippedUnique(p, n', e + 1);
    }
  }

  lemma {:induction false} TenTimes(m: nat, k: nat, n: nat) returns (n': nat)
    requires n == m * (10 * k)
    ensures n' == m * k && n % 10 == 0 && n / 10 == n'
  {
    n' := m * k;
    Assoc(m, 10, k);
    assert n == 10 * n';
  }

  function Compressed(n: nat): nat {
    if n == 0 then 0 else StrippedIs(n, 0); Code(Stripped(n, 0))
  }

  function Decompressed(x: nat): nat {
    if x == 0 then 0 else Decoded(x).Amount()
  }

  lemma {:induction false} DecompressCompress(n: nat)
    ensures Decompressed(Compressed(n)) == n
  {
    if n > 0 {
      StrippedIs(n, 0);
      DecodedCode(Stripped(n, 0));
      assert Parts(n, 0).Amount() == n;
    }
  }

  lemma {:induction false} CompressDecompress(x: nat)
    ensures Compressed(Decompressed(x)) == x
  {
    if x > 0 {
      var p := Decoded(x);
      CodeDecoded(x);
      PowPositive(10, p.e);
      MulMono(1, p.m, Pow(10, p.e));
      StrippedUnique(p, p.Amount(), 0);
    }
  }

  /** The code of an amount: with `e` zeroes and a last digit before them for fewer than nine zeroes, else with nine
      zeroes and whatever stands before them. */
  lemma {:induction false} CodeForm(m: nat, e: nat)
    requires m > 0
    ensures e < 9 && m % 10 != 0 ==> Compressed(m * Pow(10, e)) == 1 + 10 * (9 * (m / 10) + m % 10 - 1) + e
    ensures Compressed(m * Pow(10, 9)) == 1 + 10 * (m - 1) + 9
  {
    if e < 9 && m % 10 != 0 { StrippedCode(m, e); }
    StrippedCode(m, 9);
  }

  lemma {:induction false} StrippedCode(m: nat, e: nat)
    requires Parts(m, e).Normal()
    ensures m * Pow(10, e) > 0 && Compressed(m * Pow(10, e)) == Code(Parts(m, e))
  {
    PowPositive(10, e);
    MulMono(1, m, Pow(10, e));
    StrippedUnique(Parts(m, e), m * Pow(10, e), 0);
  }

  lemma {:induction false} Tens()
    ensures Pow(10, 0) == 1 && Pow(10, 6) == 1_000_000 && Pow(10, 8) == 100_000_000 && Pow(10, 9) == 1_000_000_000
  {
    assert Pow(10, 3) == 1_000 && Pow(10, 6) == 1_000_000;
  }

  /** A coin has 100000000 units, a cent 1000000. */
  lemma {:induction false} CodeExamples()
    ensures Compressed(0) == 0x0 && Compressed(1) == 0x1 && Compressed(1_000_000) == 0x7
    ensures Compressed(100_000_000) == 0x9 && Compressed(50 * 100_000_000) == 0x32
    ensures Compressed(21_000_000 * 100_000_000) == 0x1406f40
  {
    Tens();
    CodeForm(1, 0);
    CodeForm(1, 6);
    CodeForm(1, 8);
    CodeForm(5, 9);
    CodeForm(2_100_000, 9);
  }

  lemma {:induction false} StrippedSmaller(n: nat, e: nat)
    ensures Stripped(n, e).m <= n
    decreases 9 - e
  {
    if n % 10 == 0 && e < 9 { StrippedSmaller(n / 10, e + 1); }
  }

  /** The code of a valid amount fits 64 bits. */
  lemma {:induction false} CompressedFits(n: nat)
    requires n <= MAX_MONEY
    ensures Compressed(n) < TWO64
  {
    if n > 0 {
      StrippedIs(n, 0);
      StrippedSmaller(n, 0);
    }
  }

  /** Compression in 64-bit arithmetic: up to MAX_MONEY no step leaves the type. */
  method CompressAmount(nAmount: nat) returns (x: nat)
    ensures x == Compressed(nAmount)
    ensures nAmount <= MAX_MONEY ==> x < TWO64
  {
    if nAmount == 0 {
      return 0;
    }
    StrippedIs(nAmount, 0);
    var n, e := nAmount, 0;
    while n % 10 == 0 && e < 9
      invariant 0 <= e <= 9 && 0 <= n <= nAmount
      invariant Stripped(n, e) == Stripped(nAmount, 0)
      decreases 9 - e
    {
      n := n / 10;
      e := e + 1;
    }
    assert Stripped(n, e) == Parts(n, e);
    if e < 9 {
      var d := n % 10;
      assert 1 <= d <= 9;
      n := n / 10;
      assert nAmount <= MAX_MONEY ==> (n * 9 + d - 1) * 10 + e + 1 < TWO64;
      x := 1 + (n * 9 + d - 1) * 10 + e;
    } else {
      assert nAmount <= MAX_MONEY ==> (n - 1) * 10 + 10 < TWO64;
      x := 1 + (n - 1) * 10 + 9;
    }
  }

  /** Decompression; for the code of an amount no step exceeds the amount. */
  method DecompressAmount(code: nat) returns (n: nat)
    ensures n == Decompressed(code)
  {
    if code == 0 {
      return 0;
    }
    var x := code - 1;
    var e := x % 10;
    x := x / 10;
    if e < 9 {
      var d := x % 9 + 1;
      x := x / 9;
      n := x * 10 + d;
    } else {
      n := x + 1;
    }
    assert Parts(n, e) == Decoded(code);
    NoLarger(n, e);
    while e > 0
      invariant e >= 0 && Parts(n, e).Amount() == Decompressed(code)
      invariant n <= Decompressed(code)
    {
      ShiftZero(n, e - 1);
      NoLarger(n * 10, e - 1);
      n := n * 10;
      e := e - 1;
    }
  }

  lemma {:induction false} NoLarger(n: nat, e: nat)
    ensures n <= Parts(n, e).Amount()
  {
    PowPositive(10, e);
    MulMono(1, Pow(10, e), n);
  }
}
