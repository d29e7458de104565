/** The "compact" floating format of difficulty targets (`SetCompact`, `GetCompact`). */
module Compact {
  import opened Powers
  import opened Limbs
  import opened Uint256

  /** 256^n */
  function B(n: nat): (b: nat)
    ensures b > 0
  {
    PowPositive(256, n);
    Pow(256, n)
  }

  lemma {:induction false} BytePower(n: nat)
    ensures Pow2(8 * n) == B(n)
  {
    PowPow(2, 8, n);
    assert Pow(2, 8) == 256;
  }

  const SIGN: nat := 0x80_0000

  // ------------------------------------------------------------- decoding

  function Mantissa(n: nat): nat { n % SIGN }
  function Exponent(n: nat): nat { n / 0x100_0000 }
  predicate SignBit(n: nat) { (n / SIGN) % 2 == 1 }

  /** The whole number a mantissa and an exponent stand for. */
  function Scaled(m: nat, e: nat): nat {
    if e <= 3 then m / B(3 - e) else m * B(e - 3)
  }

  function Decoded(n: nat): nat {
    Scaled(Mantissa(n), Exponent(n))
  }

  /** The overflow test of the source, for every mantissa and exponent. */
  lemma {:induction false} OverflowTest(w: nat, e: nat)
    requires w < SIGN && e > 3
    ensures w * B(e - 3) >= M <==> w != 0 && (e > 34 || (w > 0xff && e > 33) || (w > 0xffff && e > 32))
  {
    Pow2Is256();
    BytePower(32);
    assert B(1) == 256;
    assert B(2) == 256 * B(1);
    if e > 34 {
      PowMono(256, 32, e - 3);
      if w != 0 { MulMono(1, w, B(e - 3)); }
    } else if e == 34 {
      assert B(32) == 256 * B(31);
      Compare(w, 256, B(31));
    } else if e == 33 {
      assert B(31) == 256 * B(30) && B(32) == 256 * B(31);
      Compare(w, 65536, B(30));
    } else {
      PowMono(256, e - 3, 29);
      assert B(30) == 256 * B(29) && B(31) == 256 * B(30) && B(32) == 256 * B(31);
      MulMono(w, SIGN, B(e - 3));
    }
  }

  lemma {:induction false} Compare(w: nat, c: nat, b: nat)
    requires b > 0
    ensures w * b >= c * b <==> w >= c
  {
    if w >= c { MulMono(c, w, b); } else { MulMono(w + 1, c, b); }
  }

  /** `SetCompact` */
  method SetCompact(x: array<U32>, nCompact: nat) returns (negative: bool, overflow: bool)
    requires x.Length == WIDTH && nCompact < BASE
    modifies x
    ensures Val(x[..]) == Decoded(nCompact) % M
    ensures negative <==> Decoded(nCompact) != 0 && SignBit(nCompact)
    ensures overflow <==> Decoded(nCompact) >= M
  {
    var nSize := nCompact / 0x100_0000;
    var nWord := nCompact % SIGN;
    if nSize <= 3 {
      BytePower(3 - nSize);
      nWord := nWord / Pow2(8 * (3 - nSize));
      Shrinks(nCompact % SIGN, B(3 - nSize));
      SetTo64(x, nWord);
      SmallMod(nWord, M);
    } else {
      BytePower(nSize - 3);
      OverflowTest(nWord, nSize);
      SetTo64(x, nWord);
      ShiftLeft(x, 8 * (nSize - 3));
      if nWord != 0 { MulMono(1, nWord, B(nSize - 3)); }
    }
    negative := nWord != 0 && (nCompact / SIGN) % 2 == 1;
    overflow := nWord != 0 && (nSize > 34 || (nWord > 0xff && nSize > 33) || (nWord > 0xffff && nSize > 32));
  }

  lemma {:induction false} Shrinks(x: nat, d: nat)
    requires d > 0
    ensures 0 <= x / d <= x
  {
    assert x == d * (x / d) + x % d;
    if x / d > 0 { MulMono(1, d, x / d); }
  }

  // ------------------------------------------------------------- encoding

  /** The number of bytes a value needs. */
  function ByteSize(v: nat): nat {
    if v == 0 then 0 else 1 + ByteSize(v / 256)
  }

  lemma {:induction false} SizeBounds(v: nat)
    ensures v < B(ByteSize(v)) && (v > 0 ==> B(ByteSize(v) - 1) <= v)
  {
    if v > 0 { SizeBounds(v / 256); }
  }

  lemma {:induction false} SizeUnique(v: nat, k: nat)
    requires k > 0 && B(k - 1) <= v < B(k)
    ensures ByteSize(v) == k
  {
    if k > 1 { SizeUnique(v / 256, k - 1); }
  }

  /** The byte size read off the bit size. */
  lemma {:induction false} SizeFromBits(v: nat, n: nat)
    requires (n == 0 <==> v == 0) && (n > 0 ==> Pow2(n - 1) <= v < Pow2(n))
    ensures (n + 7) / 8 == ByteSize(v)
  {
    if n > 0 {
      var k := (n + 7) / 8;
      BytePower(k);
      BytePower(k - 1);
      PowMono(2, 8 * (k - 1), n - 1);
      PowMono(2, n, 8 * k);
      SizeUnique(v, k);
    }
  }

  /** The top three bytes of a value of `s` bytes. */
  function Top(v: nat, s: nat): nat {
    if s <= 3 then v * B(3 - s) else v / B(s - 3)
  }

  /** Mantissa and exponent: one byte is given up if the mantissa would reach the sign bit. */
  function Parts(v: nat): (nat, nat) {
    var s := ByteSize(v);
    var m := Top(v, s);
    if m >= SIGN then (m / 256, s + 1) else (m, s)
  }

  function Encoded(v: nat, fNegative: bool): nat {
    var (m, e) := Parts(v);
    m + e * 0x100_0000 + if fNegative && m != 0 then SIGN else 0
  }

  lemma {:induction false} TopBounds(v: nat)
    requires v > 0
    ensures 0x1_0000 <= Top(v, ByteSize(v)) < 0x100_0000
  {
    var s := ByteSize(v);
    SizeBounds(v);
    assert B(2) == 0x1_0000 && B(3) == 0x100_0000;
    if s <= 3 {
      PowAdd(256, s - 1, 3 - s);
      PowAdd(256, s, 3 - s);
      ProductBetween(v, B(3 - s), B(s - 1), B(s));
    } else {
      PowAdd(256, 2, s - 3);
      PowAdd(256, 3, s - 3);
      QuotientBetween(v, B(s - 3), 0x1_0000, 0x100_0000);
    }
  }

  lemma {:induction false} ProductBetween(v: nat, g: nat, lo: nat, hi: nat)
    requires g > 0 && lo <= v < hi
    ensures lo * g <= v * g < hi * g
  {
    MulMono(lo, v, g);
    MulMono(v + 1, hi, g);
    assert (v + 1) * g == v * g + g;
  }

  lemma {:induction false} QuotientBetween(v: nat, g: nat, lo: nat, hi: nat)
    requires g > 0 && lo * g <= v < hi * g
    ensures lo <= v / g < hi
  {
    var q := v / g;
    assert v == q * g + v % g;
    assert (q + 1) * g == q * g + g;
    if q < lo { MulMono(q + 1, lo, g); }
    if q >= hi { MulMono(hi, q, g); }
  }

  /** The parts fit their fields: the two assertions of `GetCompact` hold. */
  lemma {:induction false} PartsFit(v: nat)
    requires v < M
    ensures Parts(v).0 < SIGN && Parts(v).1 < 256
  {
    if v > 0 {
      TopBounds(v);
      SizeLimit(v);
    }
  }

  lemma {:induction false} SizeLimit(v: nat)
    requires v < M
    ensures ByteSize(v) <= 32
  {
    if ByteSize(v) > 32 {
      SizeBounds(v);
      PowMono(256, 32, ByteSize(v) - 1);
      BytePower(32);
      Pow2Is256();
    }
  }

  lemma {:induction false} FieldsOf(m: nat, e: nat, sign: nat)
    requires m < SIGN && (sign == 0 || sign == SIGN)
    ensures var n := m + e * 0x100_0000 + sign;
            Mantissa(n) == m && Exponent(n) == e && (SignBit(n) <==> sign == SIGN)
  {
    var n, t := m + e * 0x100_0000 + sign, if sign == 0 then 0 else 1;
    DivModUnique(n, SIGN, 2 * e + t, m);
    DivModUnique(2 * e + t, 2, e, t);
    DivModUnique(n, 0x100_0000, e, m + sign);
  }

  method GetLow64(x: array<U32>) returns (n: nat)
    requires x.Length == WIDTH
    ensures n == Val(x[..]) % (BASE * BASE)
  {
    n := x[0] + BASE * x[1];
    ValCut(x[..], 2);
    assert x[..][..2] == [x[0], x[1]];
    assert Val([x[1]]) == x[1] && [x[0], x[1]][1..] == [x[1]];
    ghost var rest := Val(x[..][2..]);
    assert At(rest, 2) == BASE * (BASE * rest);
    DivModUnique(Val(x[..]), BASE * BASE, rest, n);
  }

  /** The top three bytes and the size, the first half of `GetCompact`. */
  method TopBytes(x: array<U32>) returns (m: nat, nSize: nat)
    requires x.Length == WIDTH
    ensures nSize == ByteSize(Val(x[..])) && m == Top(Val(x[..]), nSize) && m < 0x100_0000
  {
    ghost var v := Val(x[..]);
    var bits := Bits(x);
    SizeFromBits(v, bits);
    nSize := (bits + 7) / 8;
    if nSize <= 3 {
      var low := GetLow64(x);
      ShortTop(v, nSize);
      m := (low * Pow2(8 * (3 - nSize))) % BASE;
    } else {
      var bn := Copy(x);
      ShiftRight(bn, 8 * (nSize - 3));
      var low := GetLow64(bn);
      LongTop(v, nSize, low);
      m := low % BASE;
    }
  }

  lemma {:induction false} ShortTop(v: nat, s: nat)
    requires s == ByteSize(v) <= 3
    ensures v % (BASE * BASE) == v && (v * Pow2(8 * (3 - s))) % BASE == Top(v, s) < 0x100_0000
  {
    LowIsAll(v, s);
    BytePower(3 - s);
    if v > 0 { TopBounds(v); } else { assert v * B(3 - s) == 0; }
    SmallMod(Top(v, s), BASE);
  }

  lemma {:induction false} LongTop(v: nat, s: nat, low: nat)
    requires s == ByteSize(v) > 3 && low == (v / Pow2(8 * (s - 3))) % (BASE * BASE)
    ensures low % BASE == Top(v, s) < 0x100_0000
  {
    BytePower(s - 3);
    TopBounds(v);
    SmallMod(Top(v, s), BASE * BASE);
    SmallMod(Top(v, s), BASE);
  }

  /** Gives up a byte of the mantissa if it would reach the sign bit. */
  method AvoidSignBit(m: nat, s: nat, ghost v: nat) returns (nCompact: nat, nSize: nat)
    requires s == ByteSize(v) && m == Top(v, s) && m < 0x100_0000
    ensures (nCompact, nSize) == Parts(v)
  {
    nCompact, nSize := m, s;
    if (nCompact / SIGN) % 2 == 1 {
      nCompact := nCompact / 256;
      nSize := nSize + 1;
    }
  }

  /** `GetCompact` */
  method GetCompact(x: array<U32>, fNegative: bool) returns (nCompact: nat)
    requires x.Length == WIDTH
    ensures nCompact == Encoded(Val(x[..]), fNegative) < BASE
  {
    InRange(x[..]);
    PartsFit(Val(x[..]));
    var nSize;
    nCompact, nSize := TopBytes(x);
    nCompact, nSize := AvoidSignBit(nCompact, nSize, Val(x[..]));
    assert nCompact < SIGN && nSize < 256;
    nCompact := Join(nCompact, nSize, fNegative);
  }

  /** The three fields, combined with or. */
  method Join(m: nat, nSize: nat, fNegative: bool) returns (nCompact: nat)
    requires m < SIGN && nSize < 256
    ensures nCompact == m + nSize * 0x100_0000 + if fNegative && m != 0 then SIGN else 0
    ensures nCompact < BASE
  {
    Joined(m, nSize);
    FieldsOf(m, nSize, 0);
    nCompact := Or(m, nSize * 0x100_0000);
    assert Mantissa(nCompact) == m;
    var sign := if fNegative && nCompact % SIGN != 0 then SIGN else 0;
    SignJoined(m, nSize, sign);
    nCompact := Or(nCompact, sign);
  }

  lemma {:induction false} LowIsAll(v: nat, s: nat)
    requires s == ByteSize(v) <= 3
    ensures v < BASE && v % (BASE * BASE) == v
  {
    SizeBounds(v);
    PowMono(256, s, 3);
    assert B(3) == 0x100_0000;
  }

  lemma {:induction false} Joined(m: nat, e: nat)
    requires m < SIGN && e < 256
    ensures Or(m, e * 0x100_0000) == m + e * 0x100_0000
  {
    BytePower(3);
    assert B(3) == 0x100_0000;
    OrIsAdd(e * 0x100_0000, m, 24);
    OrComm(m, e * 0x100_0000);
  }

  lemma {:induction false} SignJoined(m: nat, e: nat, sign: nat)
    requires m < SIGN && (sign == 0 || sign == SIGN)
    ensures Or(m + e * 0x100_0000, sign) == m + e * 0x100_0000 + sign
  {
    var x := m + e * 0x100_0000;
    if sign == 0 {
      OrZero(x);
    } else {
      assert Pow(2, 8) == 256;
      PowAdd(2, 8, 15);
      PowAdd(2, 8, 7);
      SplitOr(x, 23);
    }
  }

  /** Setting a bit that is clear adds it, whatever the other bits are. */
  lemma {:induction false} SplitOr(x: nat, s: nat)
    requires (x / Pow2(s)) % 2 == 0
    ensures Or(x, Pow2(s)) == x + Pow2(s)
    decreases s
  {
    if s == 0 {
      OrZero(x / 2);
    } else {
      var p := Pow2(s - 1);
      HalfQuotient(x, p);
      SplitOr(x / 2, s - 1);
    }
  }

  lemma {:induction false} HalfQuotient(x: nat, p: nat)
    requires p > 0
    ensures (x / 2) / p == x / (2 * p)
  {
    var q, r := (x / 2) / p, (x / 2) % p;
    assert x / 2 == q * p + r;
    Assoc(q, 2, p);
    assert q * 2 * p == 2 * (q * p);
    DivModUnique(x, 2 * p, q, 2 * r + x % 2);
  }

  // --------------------------------------------------- rounding and stability

  /** The unit in which the encoding of a value counts. */
  function Unit(v: nat): nat {
    var e := Parts(v).1;
    if e <= 3 then 1 else B(e - 3)
  }

  function Rounded(v: nat): nat {
    Scaled(Parts(v).0, Parts(v).1)
  }

  lemma {:induction false} ScaleDown(v: nat, k: nat)
    ensures (v * B(k)) / B(k) == v && (k > 0 ==> (v * B(k)) / 256 == v * B(k - 1))
  {
    DivModUnique(v * B(k), B(k), v, 0);
    if k > 0 {
      assert v * B(k) == (v * B(k - 1)) * 256 by { Assoc(v, 256, B(k - 1)); Assoc(v, B(k - 1), 256); }
    }
  }

  /** Giving up one more byte is dividing by one more factor. */
  lemma {:induction false} OneMoreByte(v: nat, k: nat)
    ensures (v / B(k)) / 256 == v / B(k + 1)
  {
    var g := B(k);
    var q := v / g;
    ByteQuotient(v, g, q, v % g, q / 256, q % 256);
  }

  lemma {:induction false} ByteQuotient(v: nat, g: nat, q: nat, t: nat, y: nat, r: nat)
    requires v == q * g + t && t < g && q == y * 256 + r && r < 256
    ensures v / (256 * g) == y
  {
    Assoc(y, 256, g);
    assert q * g == y * (256 * g) + r * g;
    MulMono(r + 1, 256, g);
    assert (r + 1) * g == r * g + g;
    DivModUnique(v, 256 * g, y, r * g + t);
  }

  /** Encoding rounds down to a multiple of the unit, and the mantissa uses its upper half if the
      unit is more than one. */
  lemma {:induction false} RoundsDown(v: nat)
    requires v > 0
    ensures Rounded(v) == (v / Unit(v)) * Unit(v)
    ensures Unit(v) > 1 ==> Parts(v).1 > 3 && Parts(v).0 == v / Unit(v) && Parts(v).0 >= 0x8000
  {
    var s := ByteSize(v);
    var m := Top(v, s);
    TopBounds(v);
    assert B(0) == 1 && B(1) == 256;
    if s > 3 {
      OneMoreByte(v, s - 3);
    } else {
      ScaleDown(v, 3 - s);
      if m >= SIGN && s < 3 {
        ScaleDown(v, 2 - s);
      } else if m >= SIGN {
        assert v * B(0) == v;
      }
    }
  }

  lemma {:induction false} QuotientBelow(v: nat, u: nat)
    requires u > 0
    ensures (v / u) * u <= v
  {
  }

  lemma {:induction false} RoundedBelow(v: nat)
    ensures Rounded(v) <= v
  {
    if v > 0 {
      RoundsDown(v);
      QuotientBelow(v, Unit(v));
    } else {
      assert Parts(0) == (0, 0);
    }
  }

  /** No number the format can express lies strictly between the rounded value and the value. */
  lemma {:induction false} NothingBetween(v: nat, w: nat, e: nat)
    requires w < SIGN && Scaled(w, e) <= v
    ensures Scaled(w, e) <= Rounded(v)
  {
    if v == 0 {
      assert Parts(0) == (0, 0);
    } else {
      RoundsDown(v);
      var u, d := Unit(v), Scaled(w, e);
      if u > 1 {
        var t := Parts(v).1 - 3;
        if e >= t + 3 {
          PowAdd(256, e - 3 - t, t);
          var c := w * B(e - 3 - t);
          Assoc(w, B(e - 3 - t), B(t));
          assert d == c * u;
          MultipleBelow(c, u, v);
        } else {
          SmallerUnit(w, e, t);
          assert B(t) == 256 * B(t - 1);
          MulMono(0x8000, Parts(v).0, B(t));
        }
      }
    }
  }

  lemma {:induction false} MultipleBelow(c: nat, u: nat, v: nat)
    requires u > 0 && c * u <= v
    ensures c * u <= (v / u) * u
  {
    var q := v / u;
    assert v == q * u + v % u;
    assert (q + 1) * u == q * u + u;
    if c > q { MulMono(q + 1, c, u); } else { MulMono(c, q, u); }
  }

  /** What a smaller exponent can express stays below the values that need a larger one. */
  lemma {:induction false} SmallerUnit(w: nat, e: nat, t: nat)
    requires w < SIGN && t >= 1 && e < t + 3
    ensures Scaled(w, e) <= SIGN * B(t - 1)
  {
    PowPositive(256, t - 1);
    if e <= 3 {
      Shrinks(w, B(3 - e));
      MulMono(1, B(t - 1), SIGN);
    } else {
      PowMono(256, e - 3, t - 1);
      MulMono(w, SIGN, B(e - 3));
      MulMono(B(e - 3), B(t - 1), SIGN);
    }
  }

  /** `SetCompact(GetCompact(x))` is the largest number of the format that is not above `x`. */
  lemma {:induction false} LargestNotAbove(v: nat, n: nat)
    requires v < M
    ensures Decoded(Encoded(v, false)) <= v && !SignBit(Encoded(v, false))
    ensures Decoded(n) <= v ==> Decoded(n) <= Decoded(Encoded(v, false))
  {
    PartsFit(v);
    FieldsOf(Parts(v).0, Parts(v).1, 0);
    RoundedBelow(v);
    if Decoded(n) <= v {
      NothingBetween(v, Mantissa(n), Exponent(n));
    }
  }

  /** Encoding what was decoded from an encoding gives the encoding back. */
  lemma {:induction false} EncodingIsStable(v: nat, fNegative: bool)
    requires v < M
    ensures var n := Encoded(v, fNegative);
            Encoded(Decoded(n), SignBit(n)) == n && Decoded(n) == Decoded(Encoded(v, false))
  {
    var (m, e) := Parts(v);
    PartsFit(v);
    FieldsOf(m, e, 0);
    FieldsOf(m, e, if fNegative && m != 0 then SIGN else 0);
    PartsOfRounded(v);
  }

  lemma {:induction false} PartsOfRounded(v: nat)
    ensures Parts(Rounded(v)) == Parts(v)
  {
    if v == 0 {
      assert Parts(0) == (0, 0);
    } else {
      RoundsDown(v);
      if Unit(v) > 1 {
        LargeUnit(v);
        RoundedSize(v, ByteSize(v), Top(v, ByteSize(v)));
      }
    }
  }

  /** Where something is rounded off there are three bytes or more. */
  lemma {:induction false} LargeUnit(v: nat)
    requires v > 0 && Unit(v) > 1
    ensures var s := ByteSize(v); var m := Top(v, s);
            s >= 3 && (m >= SIGN || s > 3) && 0x1_0000 <= m < 0x100_0000
  {
    TopBounds(v);
    assert B(0) == 1;
  }

  /** Rounding keeps the byte size and, above the unit, the top bytes. */
  lemma {:induction false} RoundedSize(v: nat, s: nat, m: nat)
    requires s == ByteSize(v) >= 3 && m == Top(v, s) && 0x1_0000 <= m < 0x100_0000
    requires m >= SIGN || s > 3
    ensures Parts(Rounded(v)) == Parts(v)
  {
    if m >= SIGN {
      RoundedShort(v, s, m, m / 256);
    } else {
      KeptSize(m, s);
    }
  }

  /** The case in which a byte of the mantissa is given up. */
  lemma {:induction false} RoundedShort(v: nat, s: nat, m: nat, w: nat)
    requires s == ByteSize(v) >= 3 && m == Top(v, s) && SIGN <= m < 0x100_0000 && w == m / 256
    ensures Parts(Rounded(v)) == Parts(v)
  {
    var keep := w * 256;
    assert 0x8000 <= w < 0x1_0000;
    KeptSize(keep, s);
    assert Rounded(v) == keep * B(s - 3) by { ScaledShort(w, s); }
    assert keep / 256 == w;
  }

  lemma {:induction false} ScaledShort(w: nat, s: nat)
    requires s >= 3
    ensures Scaled(w, s + 1) == (w * 256) * B(s - 3)
  {
    assert B(s - 2) == 256 * B(s - 3);
    Assoc(w, 256, B(s - 3));
  }

  lemma {:induction false} TopHere(v: nat, s: nat)
    requires s >= 3
    ensures Top(v, s) == v / B(s - 3)
  {
    assert B(0) == 1;
  }

  lemma {:induction false} KeptSize(keep: nat, s: nat)
    requires s >= 3 && 0x1_0000 <= keep < 0x100_0000
    ensures ByteSize(keep * B(s - 3)) == s && Top(keep * B(s - 3), s) == keep
  {
    var g := B(s - 3);
    PowAdd(256, 2, s - 3);
    PowAdd(256, 3, s - 3);
    assert B(2) == 0x1_0000 && B(3) == 0x100_0000;
    MulMono(0x1_0000, keep, g);
    MulMono(keep + 1, 0x100_0000, g);
    assert (keep + 1) * g == keep * g + g;
    SizeUnique(keep * g, s);
    TopHere(keep * g, s);
    DivModUnique(keep * g, g, keep, 0);
  }

  // ---------------------------------------------------------------- the form

  /** The leading bytes, scaled to three, lie between the mantissa and the next one. */
  lemma {:induction false} TopBetween(v: nat, s: nat)
    ensures Top(v, s) * B(s) <= v * B(3) < (Top(v, s) + 1) * B(s)
  {
    if s <= 3 {
      PowAdd(256, 3 - s, s);
      Assoc(v, B(3 - s), B(s));
      MulMono(1, B(s), 1);
      assert (Top(v, s) + 1) * B(s) == Top(v, s) * B(s) + B(s);
    } else {
      PowAdd(256, s - 3, 3);
      QuotientScaled(v, B(s - 3), B(3), v / B(s - 3));
    }
  }

  lemma {:induction false} QuotientScaled(v: nat, d: nat, c: nat, q: nat)
    requires d > 0 && c > 0 && q == v / d
    ensures q * (d * c) <= v * c < (q + 1) * (d * c)
  {
    assert q * d <= v < (q + 1) * d;
    MulMono(q * d, v, c);
    MulMono(v + 1, (q + 1) * d, c);
    Assoc(q, d, c);
    Assoc(q + 1, d, c);
    assert (v + 1) * c == v * c + c;
  }

  lemma {:induction false} BetweenBytes(x: nat, m: nat, b: nat)
    requires m * b <= x < (m + 1) * b
    ensures (m / 256) * (256 * b) <= x < (m / 256 + 1) * (256 * b)
  {
    var q, r := m / 256, m % 256;
    assert m == q * 256 + r;
    MulMono(q * 256, m, b);
    MulMono(m + 1, q * 256 + 256, b);
    Assoc(q, 256, b);
    Assoc(q + 1, 256, b);
  }

  lemma {:induction false} Bounded(x: nat, m: nat, b: nat, lo: nat, hi: nat)
    requires m * b <= x < (m + 1) * b && lo <= m < hi
    ensures lo * b <= x < hi * b && x / b == m
  {
    MulMono(lo, m, b);
    MulMono(m + 1, hi, b);
    assert (m + 1) * b == m * b + b;
    DivModUnique(x, b, m, x - m * b);
  }

  /** The encoding has the least exponent that leaves the sign bit free, the leading bytes as its mantissa, and the
      sign bit set exactly for a negative number that is not zero. */
  lemma {:induction false} CompactForm(v: nat, fNegative: bool)
    ensures var (m, e) := Parts(v);
            && m < 0x80_0000 && v * B(3) < 0x80_0000 * B(e) && (e > 0 ==> v * B(3) >= 0x80_0000 * B(e - 1))
            && m == v * B(3) / B(e)
            && Encoded(v, fNegative) == e * 0x100_0000 + m + if fNegative && m > 0 then 0x80_0000 else 0
  {
    if v > 0 {
      var s := ByteSize(v);
      TopBounds(v);
      TopBetween(v, s);
      FormOf(v * B(3), s, Top(v, s));
    }
  }

  lemma {:induction false} FormOf(x: nat, s: nat, top: nat)
    requires s > 0 && top * B(s) <= x < (top + 1) * B(s) && 0x1_0000 <= top < 0x100_0000
    ensures var (m, e) := if top >= SIGN then (top / 256, s + 1) else (top, s);
            m < SIGN && SIGN * B(e - 1) <= x < SIGN * B(e) && m == x / B(e)
  {
    if top < SIGN {
      assert B(s) == 256 * B(s - 1);
      Bounded(x, top, B(s), 0x1_0000, SIGN);
    } else {
      assert B(s + 1) == 256 * B(s);
      Bounded(x, top, B(s), SIGN, 0x100_0000);
      BetweenBytes(x, top, B(s));
      Bounded(x, top / 256, B(s + 1), 0, 0x1_0000);
    }
  }
}
