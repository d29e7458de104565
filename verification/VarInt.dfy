/**
 * Variable-length integers: seven bits a byte, most significant first, every
 * byte but the last marked by its top bit, and one subtracted at every step so
 * that no number has two encodings.
 */
module VarInt {
  import opened Basics
  import opened Powers

  /** All bytes of an encoding but the last. */
  function High(n: nat): seq<Byte> {
    if n <= 0x7F then [n + 0x80] else High(n / 128 - 1) + [n % 128 + 0x80]
  }

  /** The encoding; a negative number is cut to its low seven bits. */
  function VarBytes(n: int): seq<Byte> {
    if n <= 0x7F then [n % 128] else High(n / 128 - 1) + [n % 128]
  }

  predicate Marked(s: seq<Byte>) {
    forall i :: 0 <= i < |s| ==> s[i] >= 0x80
  }

  /** What the reader has after some marked bytes. */
  function Gathered(s: seq<Byte>): nat
    requires Marked(s)
  {
    if s == [] then 0 else Gathered(s[..|s| - 1]) * 128 + (s[|s| - 1] - 0x80) + 1
  }

  lemma {:induction false} GatheredHigh(n: nat)
    ensures Marked(High(n)) && Gathered(High(n)) == n + 1
  {
    if n > 0x7F {
      var h := High(n / 128 - 1);
      GatheredHigh(n / 128 - 1);
      assert High(n)[..|h|] == h;
    }
  }

  lemma {:induction false} HighGathered(s: seq<Byte>)
    requires Marked(s) && s != []
    ensures Gathered(s) > 0 && High(Gathered(s) - 1) == s
  {
    var t, d := s[..|s| - 1], s[|s| - 1] - 0x80;
    assert s == t + [d + 0x80];
    if t != [] {
      HighGathered(t);
      var n := Gathered(s) - 1;
      assert n == Gathered(t) * 128 + d;
      DivModUnique(n, 128, Gathered(t), d);
    }
  }

  /** Marked bytes and one that is not are the encoding of exactly one number. */
  lemma {:induction false} EveryRunIsANumber(s: seq<Byte>, last: Byte)
    requires Marked(s) && last < 0x80
    ensures VarBytes(Gathered(s) * 128 + last) == s + [last]
  {
    if s != [] {
      HighGathered(s);
      DivModUnique(Gathered(s) * 128 + last, 128, Gathered(s), last);
    }
  }

  lemma {:induction false} NumberIsARun(n: nat)
    ensures var v := VarBytes(n);
            |v| > 0 && Marked(v[..|v| - 1]) && v[|v| - 1] < 0x80 && Gathered(v[..|v| - 1]) * 128 + v[|v| - 1] == n
  {
    var v := VarBytes(n);
    if n <= 0x7F {
      assert v[..0] == [];
    } else {
      GatheredHigh(n / 128 - 1);
      assert v[..|v| - 1] == High(n / 128 - 1);
    }
  }

  /** An encoding ends at the first byte that is not marked. */
  lemma {:induction false} EndsThere(n: nat, t: seq<Byte>)
    requires VarBytes(n) <= t
    ensures 0 < |VarBytes(n)| <= |t| && t[|VarBytes(n)| - 1] < 0x80
    ensures forall i :: 0 <= i < |VarBytes(n)| - 1 ==> t[i] >= 0x80
  {
    NumberIsARun(n);
    var v := VarBytes(n);
    assert v[|v| - 1] == t[|v| - 1];
    forall i | 0 <= i < |v| - 1 ensures t[i] >= 0x80 { assert t[i] == v[..|v| - 1][i]; }
  }

  /** No encoding begins another, and no number shares its encoding. */
  lemma {:induction false} PrefixFree(m: nat, n: nat, t: seq<Byte>)
    requires VarBytes(m) <= t && VarBytes(n) <= t
    ensures m == n
  {
    EndsThere(m, t);
    EndsThere(n, t);
    assert VarBytes(m) == VarBytes(n);
    NumberIsARun(m);
    NumberIsARun(n);
  }

  /** Some numbers and their encodings. */
  lemma {:induction false} VarExamples()
    ensures VarBytes(0) == [0x00] && VarBytes(1) == [0x01] && VarBytes(127) == [0x7F]
    ensures VarBytes(128) == [0x80, 0x00] && VarBytes(255) == [0x80, 0x7F] && VarBytes(256) == [0x81, 0x00]
    ensures VarBytes(16383) == [0xFE, 0x7F] && VarBytes(16384) == [0xFF, 0x00] && VarBytes(16511) == [0xFF, 0x7F]
    ensures VarBytes(65535) == [0x82, 0xFE, 0x7F] && VarBytes(0x1_0000_0000) == [0x8E, 0xFE, 0xFE, 0xFF, 0x00]
  {
    assert High(0) == [0x80] && High(1) == [0x81] && High(2) == [0x82] && High(126) == [0xFE] && High(127) == [0xFF];
    assert High(510) == High(2) + [0xFE];
    assert High(14) == [0x8E] && High(2046) == High(14) + [0xFE] && High(262142) == High(2046) + [0xFE];
    assert High(33554431) == High(262142) + [0xFF];
  }

  // ---------------------------------------------------------------- writing

  /** A number below 128 to the power `k` takes at most `k` bytes. */
  lemma {:induction false} HighSize(n: nat, k: nat)
    requires k > 0 && n < Pow(128, k)
    ensures |High(n)| <= k
  {
    if n > 0x7F {
      OneLess(n, k);
      HighSize(n / 128 - 1, k - 1);
    }
  }

  lemma {:induction false} OneLess(n: nat, k: nat)
    requires 0x7F < n < Pow(128, k)
    ensures k > 1 && n / 128 < Pow(128, k - 1)
  {
    assert Pow(128, 0) == 1 && Pow(128, 1) == 128;
  }

  /** The encoding fits the buffer that the source has for a type of `bits` bits. */
  lemma {:induction false} FitsBuffer(n: int, bits: nat)
    requires bits > 0 && n < Pow(2, bits)
    ensures |VarBytes(n)| <= (bits + 6) / 7
  {
    if n > 0x7F {
      var k := (bits + 6) / 7;
      PowMono(2, bits, 7 * k);
      PowPow(2, 7, k);
      assert Pow(2, 7) == 128;
      OneLess(n, k);
      HighSize(n / 128 - 1, k - 1);
    }
  }

  /** The bytes in the order in which they are computed. */
  function Backwards(s: seq<Byte>): seq<Byte> {
    if s == [] then [] else [s[|s| - 1]] + Backwards(s[..|s| - 1])
  }

  lemma {:induction false} BackwardsCons(s: seq<Byte>, d: Byte)
    ensures Backwards(s + [d]) == [d] + Backwards(s)
  {
    assert (s + [d])[..|s|] == s;
  }

  /** What is still to be written in front of the bytes computed so far. */
  function Rest(n: int, first: bool): seq<Byte>
    requires first || n >= 0
  {
    if first then VarBytes(n) else High(n)
  }

  /** One more byte computed. */
  lemma {:induction false} RestStep(n: nat, first: bool, tmp: seq<Byte>, d: Byte)
    requires n > 0x7F && d == n % 128 + if first then 0 else 0x80
    ensures Rest(n, first) + Backwards(tmp) == Rest(n / 128 - 1, false) + Backwards(tmp + [d])
  {
    BackwardsCons(tmp, d);
    assert Rest(n, first) == High(n / 128 - 1) + [d];
  }

  method WriteVarInt(value: int) returns (s: seq<Byte>)
    ensures s == VarBytes(value)
    ensures forall bits: nat :: bits > 0 && value < Pow(2, bits) ==> |s| <= (bits + 6) / 7
  {
    forall bits: nat | bits > 0 && value < Pow(2, bits) ensures |VarBytes(value)| <= (bits + 6) / 7 {
      FitsBuffer(value, bits);
    }
    var tmp: seq<Byte>, n, len := [], value, 0;
    while n > 0x7F
      invariant len == |tmp| && (len > 0 ==> n >= 0)
      invariant Rest(n, len == 0) + Backwards(tmp) == VarBytes(value)
      decreases n
    {
      var d: Byte := n % 128 + if len > 0 then 0x80 else 0;
      RestStep(n, len == 0, tmp, d);
      tmp := tmp + [d];
      n := n / 128 - 1;
      len := len + 1;
    }
    var d: Byte := n % 128 + if len > 0 then 0x80 else 0;
    BackwardsCons(tmp, d);
    assert Rest(n, len == 0) == [d];
    tmp := tmp + [d];
    s := Emit(tmp);
  }

  /** Writes a buffer from its end. */
  method Emit(tmp: seq<Byte>) returns (s: seq<Byte>)
    ensures s == Backwards(tmp)
  {
    s := [];
    var len := |tmp| - 1;
    assert tmp[..len + 1] == tmp;
    while len >= 0
      invariant -1 <= len < |tmp|
      invariant s + Backwards(tmp[..len + 1]) == Backwards(tmp)
      decreases len
    {
      assert tmp[..len + 1][..len] == tmp[..len];
      s := s + [tmp[len]];
      len := len - 1;
    }
  }

  method GetSizeOfVarInt(value: int) returns (nRet: nat)
    ensures nRet == |VarBytes(value)|
  {
    var n := value;
    nRet := 1;
    while n > 0x7F
      invariant nRet >= 1 && (nRet > 1 ==> n >= 0)
      invariant |VarBytes(value)| == nRet - 1 + |Rest(n, nRet == 1)|
      decreases n
    {
      n := n / 128 - 1;
      nRet := nRet + 1;
    }
  }

  // ---------------------------------------------------------------- reading

  /** One step of the reader in an unsigned type with `m` values. */
  lemma {:induction false} WrapStep(acc: nat, m: nat, d: nat)
    requires m > 0
    ensures (acc % m * 128 + d) % m == (acc * 128 + d) % m
  {
    var q, r := acc / m, acc % m;
    assert acc * 128 + d == (q * 128) * m + (r * 128 + d);
    WrapMultiple(q * 128, m, r * 128 + d);
  }

  lemma {:induction false} WrapMultiple(k: int, m: nat, x: int)
    requires m > 0
    ensures (k * m + x) % m == x % m
  {
    var q, r := x / m, x % m;
    assert k * m + x == (k + q) * m + r;
    DivModUnique(k * m + x, m, k + q, r);
  }

  lemma {:induction false} WrapNext(acc: nat, m: nat)
    requires m > 0
    ensures (acc % m + 1) % m == (acc + 1) % m
  {
    var q, r := acc / m, acc % m;
    assert acc + 1 == q * m + (r + 1);
    WrapMultiple(q, m, r + 1);
  }

  /** The value read from marked bytes and a last one. */
  function Joined(s: seq<Byte>, last: Byte): nat
    requires Marked(s)
  {
    Gathered(s) * 128 + last
  }

  /** What the bytes say with one more. */
  ghost function Total(s: seq<Byte>, d: Byte): nat
    requires Marked(s)
  {
    if d < 0x80 then Joined(s, d) else Gathered(s + [d])
  }

  lemma {:induction false} TotalIs(s: seq<Byte>, d: Byte)
    requires Marked(s)
    ensures Total(s, d) == Gathered(s) * 128 + d % 128 + if d < 0x80 then 0 else 1
  {
    if d >= 0x80 { GatheredNext(s, d); }
  }

  /** One step of the reader. */
  method Gather(n: nat, m: nat, chData: Byte, ghost before: seq<Byte>) returns (n': nat)
    requires m > 0 && Marked(before) && n == Gathered(before) % m
    ensures n' == Total(before, chData) % m
  {
    TotalIs(before, chData);
    n' := Append(n, m, chData % 128, chData >= 0x80, Gathered(before), Total(before, chData));
  }

  /** `n << 7 | d` in the type, and one more if more bytes follow. */
  method Append(n: nat, m: nat, d: nat, more: bool, ghost acc: nat, ghost total: nat) returns (n': nat)
    requires m > 0 && n == acc % m && total == acc * 128 + d + if more then 1 else 0
    ensures n' == total % m
  {
    n' := Shifted(n, m, d, acc);
    if more {
      n' := Succeeded(n', m, total - 1);
    }
  }

  lemma {:induction false} GatheredNext(s: seq<Byte>, d: Byte)
    requires Marked(s) && d >= 0x80
    ensures Marked(s + [d]) && Gathered(s + [d]) == Gathered(s) * 128 + d % 128 + 1
  {
    assert (s + [d])[..|s|] == s;
  }

  /** `n << 7 | d` in the type. */
  method Shifted(n: nat, m: nat, d: nat, ghost acc: nat) returns (n': nat)
    requires m > 0 && n == acc % m
    ensures n' == (acc * 128 + d) % m
  {
    WrapStep(acc, m, d);
    n' := (n * 128 + d) % m;
  }

  /** `n++` in the type. */
  method Succeeded(n: nat, m: nat, ghost acc: nat) returns (n': nat)
    requires m > 0 && n == acc % m
    ensures n' == (acc + 1) % m
  {
    WrapNext(acc, m);
    n' := (n + 1) % m;
  }

  /**
   * Reads a number into an unsigned type with `m` values.  The bytes read are
   * always the encoding of a number, and the result that number modulo `m`; it
   * fails only where the stream ends first.
   */
  method ReadVarInt(s: seq<Byte>, start: nat, m: nat) returns (r: Option<nat>, end: nat, ghost value: nat)
    requires start <= |s| && m > 0
    ensures start <= end <= |s|
    ensures r.Some? ==> s[start..end] == VarBytes(value) && r.value == value % m
    ensures r.None? ==> end == |s| && Marked(s[start..])
  {
    var n := 0;
    end := start;
    value := 0;
    while end < |s|
      invariant start <= end <= |s| && Marked(s[start..end]) && n == Gathered(s[start..end]) % m
    {
      ghost var before := s[start..end];
      var chData := s[end];
      assert s[start..end + 1] == before + [chData];
      n := Gather(n, m, chData, before);
      end := end + 1;
      if chData < 0x80 {
        EveryRunIsANumber(before, chData);
        return Some(n), end, Joined(before, chData);
      }
    }
    assert s[start..] == s[start..end];
    return None, end, value;
  }

  /** A number stands in a stream. */
  ghost predicate NumberAt(s: seq<Byte>, start: nat, end: nat, n: int) {
    Stands(s, start, end, VarBytes(n))
  }

  /** A number that stands in the stream is read, and none other. */
  method ReadNumber(s: seq<Byte>, start: nat, m: nat, ghost last: nat, ghost n: nat)
    returns (r: Option<nat>, end: nat, ghost value: nat)
    requires start <= |s| && m > 0
    ensures start <= end <= |s|
    ensures r.Some? ==> NumberAt(s, start, end, value) && r.value == value % m
    ensures NumberAt(s, start, last, n) ==> r.Some? && end == last && value == n
  {
    r, end, value := ReadVarInt(s, start, m);
    if NumberAt(s, start, last, n) {
      assert s[start..last] <= s[start..];
      EndsThere(n, s[start..]);
      assert s[start..end] <= s[start..];
      PrefixFree(n, value, s[start..]);
    }
  }
}
