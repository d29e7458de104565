/**
 * The Base58 codec: bytes are read as one number in base 256 and written in
 * base 58, every leading zero byte becoming one leading '1'.
 */
module Base58 {
  import opened Powers
  import opened Positional
  import opened Basics

  // ---------------------------------------------------------------- the alphabet

  const ALPHABET: string := "123456789" + "ABCDEFGH" + "JKLMN" + "PQRSTUVWXYZ" + "abcdefghijk" + "mnopqrstuvwxyz"

  /** The letter of a digit: the alphabet has six runs of consecutive characters. */
  function Letter(d: nat): char
    requires d < 58
  {
    if d < 9 then '1' + d as char
    else if d < 17 then 'A' + (d - 9) as char
    else if d < 22 then 'J' + (d - 17) as char
    else if d < 33 then 'P' + (d - 22) as char
    else if d < 44 then 'a' + (d - 33) as char
    else 'm' + (d - 44) as char
  }

  lemma {:induction false} AlphabetIs(d: nat)
    requires d < 58
    ensures |ALPHABET| == 58 && ALPHABET[d] == Letter(d)
  {
    if d < 9 { assert ALPHABET[d] == "123456789"[d]; }
    else if d < 17 { assert ALPHABET[d] == "ABCDEFGH"[d - 9]; }
    else if d < 22 { assert ALPHABET[d] == "JKLMN"[d - 17]; }
    else if d < 33 { assert ALPHABET[d] == "PQRSTUVWXYZ"[d - 22]; }
    else if d < 44 { assert ALPHABET[d] == "abcdefghijk"[d - 33]; }
    else { assert ALPHABET[d] == "mnopqrstuvwxyz"[d - 44]; }
  }

  predicate IsLetter(c: char) {
    exists d: nat :: d < 58 && Letter(d) == c
  }

  lemma {:induction false} LettersDiffer(d: nat, e: nat)
    requires d < e < 58
    ensures Letter(d) != Letter(e)
  {
  }

  lemma {:induction false} LettersAreNotSpaces(d: nat)
    requires d < 58
    ensures !IsSpace(Letter(d)) && Letter(d) != '\0'
  {
  }

  /** `strchr` on the alphabet, for characters other than NUL. */
  method Strchr(c: char) returns (r: Option<nat>)
    ensures r.Some? ==> r.value < 58 && Letter(r.value) == c
    ensures r.None? ==> !IsLetter(c)
  {
    var d := 0;
    while d < 58
      invariant 0 <= d <= 58
      invariant forall e: nat :: e < d ==> Letter(e) != c
    {
      AlphabetIs(d);
      if ALPHABET[d] == c {
        return Some(d);
      }
      d := d + 1;
    }
    return None;
  }

  /** The text of a string of digits. */
  function Text(s: seq<nat>): (t: string)
    requires InBase(58, s)
    ensures |t| == |s|
  {
    seq(|s|, i requires 0 <= i < |s| => Letter(s[i]))
  }

  lemma {:induction false} TextInjective(s: seq<nat>, t: seq<nat>)
    requires InBase(58, s) && InBase(58, t) && Text(s) == Text(t)
    ensures s == t
  {
    assert |Text(s)| == |Text(t)|;
    forall i | 0 <= i < |s|
      ensures s[i] == t[i]
    {
      assert Text(s)[i] == Text(t)[i];
      if s[i] < t[i] { LettersDiffer(s[i], t[i]); }
      if t[i] < s[i] { LettersDiffer(t[i], s[i]); }
    }
  }

  // ---------------------------------------------------------------- specification

  /** What the encoder promises. */
  function Encode(bytes: seq<Byte>): string {
    ConvertInBase(256, 58, bytes);
    Text(Convert(256, 58, bytes))
  }

  /** `isspace` in the C locale. */
  predicate IsSpace(c: char) {
    c == ' ' || '\t' <= c <= '\r'
  }

  lemma {:induction false} SpacesAre(c: char)
    ensures IsSpace(c) <==> c as int in {9, 10, 11, 12, 13, 32}
  {
  }

  /** The part of a string that a C function sees. */
  function CString(s: string): string {
    if s == [] || s[0] == '\0' then [] else [s[0]] + CString(s[1..])
  }

  /** Some byte strings and their texts. */
  lemma {:induction false} TextExamples()
    ensures Encode([]) == "" && Encode([0x61]) == "2g" && Encode([0, 0, 0x61]) == "112g"
    ensures Encode([0x62, 0x62, 0x62]) == "a3gV"
  {
    TextOf([], 0, [], []);
    TextsOf61();
    TextOf626262();
  }

  lemma {:induction false} TextsOf61()
    ensures Encode([0x61]) == "2g" && Encode([0, 0, 0x61]) == "112g"
  {
    DigitsOf97();
    ValueOfBytes([], 0x61);
    TextOf([0x61], 0, [0x61], [1, 39]);
    TextOf([0, 0, 0x61], 2, [0x61], [0, 0, 1, 39]);
  }

  lemma {:induction false} TextOf626262()
    ensures Encode([0x62, 0x62, 0x62]) == "a3gV"
  {
    ValueOfBytes([], 0x62);
    ValueOfBytes([0x62], 0x62);
    ValueOfBytes([0x62, 0x62], 0x62);
    DigitsOf6447714();
    TextOf([0x62, 0x62, 0x62], 0, [0x62, 0x62, 0x62], [33, 2, 39, 28]);
  }

  /** The digits of a byte string are its leading zeroes and those of the rest as a number. */
  lemma {:induction false} TextOf(bytes: seq<Byte>, k: nat, rest: seq<Byte>, digits: seq<nat>)
    requires bytes == Zeroes(k) + rest && (rest != [] ==> rest[0] != 0)
    requires digits == Zeroes(k) + Digits(58, Value(256, rest))
    ensures Convert(256, 58, bytes) == digits
  {
    LeadingZeroesCount(bytes, k);
    ValueSkip(256, bytes, k);
  }

  lemma {:induction false} ValueOfBytes(s: seq<nat>, d: nat)
    ensures Value(256, s + [d]) == Value(256, s) * 256 + d
  {
    ValueSnoc(256, s, d);
  }

  lemma {:induction false} DigitsOf97()
    ensures Digits(58, 97) == [1, 39]
  {
    assert Digits(58, 1) == Digits(58, 0) + [1] == [1];
  }

  lemma {:induction false} DigitsOf6447714()
    ensures Digits(58, 6447714) == [33, 2, 39, 28]
  {
    assert Digits(58, 33) == Digits(58, 0) + [33] == [33];
    assert Digits(58, 1916) == Digits(58, 33) + [2];
    assert Digits(58, 111167) == Digits(58, 1916) + [39];
  }

  /** Two byte strings never share a text. */
  lemma {:induction false} EncodeInjective(a: seq<Byte>, b: seq<Byte>)
    requires Encode(a) == Encode(b)
    ensures a == b
  {
    ConvertInBase(256, 58, a);
    ConvertInBase(256, 58, b);
    TextInjective(Convert(256, 58, a), Convert(256, 58, b));
    ConvertBack(256, 58, a);
    ConvertBack(256, 58, b);
  }

  /** A string of base-58 digits is the text of exactly the bytes it converts to. */
  lemma {:induction false} EncodeOfDigits(s: seq<nat>, bytes: seq<Byte>)
    requires InBase(58, s) && bytes == Convert(58, 256, s)
    ensures Encode(bytes) == Text(s)
  {
    ConvertBack(58, 256, s);
  }

  // ---------------------------------------------------------------- buffer sizes

  /** A power comparison holds if it holds after raising both sides to the same power. */
  lemma {:induction false} RootOrder(a: nat, b: nat, k: nat)
    requires k > 0 && Pow(a, k) <= Pow(b, k)
    ensures a <= b
  {
    if b < a { PowStrict(b, a, k); }
  }

  lemma {:induction false} PowSwap(b: nat, m: nat, n: nat)
    ensures Pow(Pow(b, m), n) == Pow(Pow(b, n), m)
  {
    PowPow(b, m, n);
    PowPow(b, n, m);
    assert m * n == n * m;
  }

  lemma {:induction false} PowCompare(b: nat, q: nat, n: nat, p: nat, size: nat)
    requires b > 0 && q * n <= p * size
    ensures Pow(Pow(b, q), n) <= Pow(Pow(b, p), size)
  {
    PowPow(b, q, n);
    PowPow(b, p, size);
    PowMono(b, q * n, p * size);
  }

  /** If `from^p < to^q` and `size / n` is at least `q / p`, then `size` digits are enough for `n`. */
  lemma {:induction false} SizeSuffices(from: nat, to: nat, p: nat, q: nat, n: nat, size: nat)
    requires from > 0 && to > 0 && p > 0
    requires Pow(from, p) < Pow(to, q) && q * n <= p * size
    ensures Pow(from, n) <= Pow(to, size)
  {
    PowSwap(from, n, p);
    PowSwap(to, p, size);
    assert Pow(Pow(from, p), n) <= Pow(Pow(to, q), n) by {
      if n > 0 { PowStrict(Pow(from, p), Pow(to, q), n); }
    }
    PowCompare(to, q, n, p, size);
    RootOrder(Pow(from, n), Pow(to, size), p);
  }

  lemma {:induction false} EncodedSize(n: nat)
    ensures Pow(256, n) <= Pow(58, n * 138 / 100 + 1)
  {
    assert Pow(256, 8) < Pow(58, 11);
    SizeSuffices(256, 58, 8, 11, n, n * 138 / 100 + 1);
  }

  lemma {:induction false} DecodedSize(n: nat)
    ensures Pow(58, n) <= Pow(256, n * 733 / 1000 + 1)
  {
    LogFact();
    SizeSuffices(58, 256, 71, 52, n, n * 733 / 1000 + 1);
  }

  lemma {:induction false} LogFact()
    ensures Pow(58, 71) < Pow(256, 52)
  {
    Square(58, 9, 7427658739644928);
    Square(58, 18, 55170114352623680311867516125184);
    Square(256, 13, 20282409603651670423947251286016);
    PowAdd(58, 36, 35);
    PowAdd(256, 26, 26);
    assert Pow(58, 36) == 58 * Pow(58, 35);
  }

  lemma {:induction false} Square(b: nat, n: nat, p: nat)
    requires Pow(b, n) == p
    ensures Pow(b, 2 * n) == p * p
  {
    PowAdd(b, n, n);
  }

  // ---------------------------------------------------------------- the inner loop

  lemma {:induction false} ColumnStep(base: int, mul: int, d: int, p: int, low: int, low': int, carry: int, c0: int,
                                      q: int, r: int)
    requires low * mul + c0 == low' + carry * p
    requires carry + mul * d == q * base + r
    ensures (d * p + low) * mul + c0 == (r * p + low') + q * (base * p)
  {
    calc {
      (d * p + low) * mul + c0;
      (mul * d) * p + (low * mul + c0);
      (mul * d) * p + carry * p + low';
      (mul * d + carry) * p + low';
      (q * base + r) * p + low';
      (r * p + low') + q * (base * p);
    }
  }

  /**
   * The digits `now` and a carry out of them are `was * mul + digit`.
   */
  ghost predicate Carried(base: nat, mul: nat, digit: nat, was: seq<nat>, now: seq<nat>, carry: nat)
    decreases |was|
  {
    if was == [] then now == [] && carry == digit
    else now != [] && exists c: nat ::
           Carried(base, mul, digit, was[1..], now[1..], c) && c + mul * was[0] == carry * base + now[0]
  }

  lemma {:induction false} CarriedValue(base: nat, mul: nat, digit: nat, was: seq<nat>, now: seq<nat>, carry: nat)
    requires Carried(base, mul, digit, was, now, carry)
    ensures |now| == |was|
    ensures Value(base, was) * mul + digit == Value(base, now) + carry * Pow(base, |was|)
    decreases |was|
  {
    if was != [] {
      var c: nat :| Carried(base, mul, digit, was[1..], now[1..], c) && c + mul * was[0] == carry * base + now[0];
      CarriedValue(base, mul, digit, was[1..], now[1..], c);
      ValueFirst(base, was);
      ValueFirst(base, now);
      ColumnStep(base, mul, was[0], Pow(base, |was| - 1), Value(base, was[1..]), Value(base, now[1..]), c, digit, carry,
                 now[0]);
    }
  }

  lemma {:induction false} CarriedStep(base: nat, mul: nat, digit: nat, was: seq<nat>, low: seq<nat>, c: nat, q: nat,
                                       r: nat)
    requires was != [] && Carried(base, mul, digit, was[1..], low, c) && c + mul * was[0] == q * base + r
    ensures Carried(base, mul, digit, was, [r] + low, q)
  {
    assert ([r] + low)[1..] == low;
  }

  lemma {:induction false} NoCarry(target: nat, v: nat, carry: nat, p: nat)
    requires target == v + carry * p && target < p
    ensures carry == 0
  {
    if carry > 0 { MulMono(1, carry, p); }
  }

  /** When the carry loop is over. */
  lemma {:induction false} CarriedAll(base: nat, mul: nat, digit: nat, was: seq<nat>, now: seq<nat>, carry: nat, i: nat)
    requires base > 0 && i <= |now| == |was|
    requires Carried(base, mul, digit, was[|was| - i..], now[|was| - i..], carry)
    requires forall k :: 0 <= k < |was| - i ==> now[k] == was[k] == 0
    requires i < |was| ==> carry == 0
    requires Value(base, was) * mul + digit < Pow(base, |was|)
    ensures carry == 0 && Value(base, now) == Value(base, was) * mul + digit
  {
    CarriedValue(base, mul, digit, was[|was| - i..], now[|was| - i..], carry);
    ValueSkip(base, was, |was| - i);
    ValueSkip(base, now, |was| - i);
    if i == |was| {
      NoCarry(Value(base, was) * mul + digit, Value(base, now), carry, Pow(base, i));
    }
  }

  method Column(d: nat, mul: nat, base: nat, carry: nat) returns (q: nat, r: nat)
    requires base > 0
    ensures carry + mul * d == q * base + r && r < base
  {
    q, r := (carry + mul * d) / base, (carry + mul * d) % base;
  }

  /**
   * The carry loop of both directions, "buf = buf * mul + digit" from the last
   * digit on, stopping once past the digits in use with nothing to carry.  If
   * the result fits the buffer then no carry is left.
   */
  method MulAdd(buf: array<Byte>, base: nat, mul: nat, digit: nat, length: nat) returns (carry: nat, i: nat)
    requires 2 <= base <= 256 && InBase(base, buf[..]) && length <= buf.Length
    requires forall k :: 0 <= k < buf.Length - length ==> buf[k] == 0
    requires Value(base, buf[..]) * mul + digit < Pow(base, buf.Length)
    modifies buf
    ensures carry == 0 && length <= i <= buf.Length
    ensures InBase(base, buf[..])
    ensures forall k :: 0 <= k < buf.Length - i ==> buf[k] == 0
    ensures Value(base, buf[..]) == old(Value(base, buf[..])) * mul + digit
  {
    var n := buf.Length;
    ghost var was := buf[..];
    carry, i := MulAddLoop(buf, base, mul, digit, length);
    CarriedAll(base, mul, digit, was, buf[..], carry, i);
  }

  method MulAddLoop(buf: array<Byte>, base: nat, mul: nat, digit: nat, length: nat) returns (carry: nat, i: nat)
    requires 2 <= base <= 256 && InBase(base, buf[..]) && length <= buf.Length
    modifies buf
    ensures i <= buf.Length && InBase(base, buf[..]) && (i < buf.Length ==> carry == 0 && length <= i)
    ensures forall k :: 0 <= k < buf.Length - i ==> buf[k] == old(buf[k])
    ensures Carried(base, mul, digit, old(buf[..])[buf.Length - i..], buf[..][buf.Length - i..], carry)
  {
    var n := buf.Length;
    ghost var was := buf[..];
    carry, i := digit, 0;
    while (carry != 0 || i < length) && i < n
      invariant 0 <= i <= n && |was| == n
      invariant InBase(base, buf[..])
      invariant forall k :: 0 <= k < n - i ==> buf[k] == was[k]
      invariant Carried(base, mul, digit, was[n - i..], buf[n - i..], carry)
      decreases n - i
    {
      var j := n - 1 - i;
      ghost var low := buf[n - i..];
      var q, r := Column(buf[j], mul, base, carry);
      assert was[j..][1..] == was[n - i..];
      CarriedStep(base, mul, digit, was[j..], low, carry, q, r);
      buf[j] := r;
      assert buf[j..] == [r] + low;
      carry, i := q, i + 1;
    }
    assert buf[..][n - i..] == buf[n - i..];
  }

  // ---------------------------------------------------------------- the encoder

  /** Skips the zeroes in front. */
  method SkipZeroes(buf: seq<Byte>, start: nat) returns (k: nat)
    requires start <= |buf|
    ensures start <= k <= |buf| && (k < |buf| ==> buf[k] != 0)
    ensures forall i :: start <= i < k ==> buf[i] == 0
  {
    k := start;
    while k < |buf| && buf[k] == 0
      invariant start <= k <= |buf|
      invariant forall i :: start <= i < k ==> buf[i] == 0
    {
      k := k + 1;
    }
  }

  /** The digits left after skipping zeroes are the digits of the value. */
  lemma {:induction false} SkippedDigits(base: nat, buf: seq<nat>, k: nat)
    requires base >= 2 && InBase(base, buf) && k <= |buf| && (k < |buf| ==> buf[k] != 0)
    requires forall i :: 0 <= i < k ==> buf[i] == 0
    ensures buf[k..] == Digits(base, Value(base, buf))
  {
    ValueSkip(base, buf, k);
    DigitsOfValue(base, buf[k..]);
  }

  method EncodeBase58(bytes: seq<Byte>) returns (str: string)
    ensures str == Encode(bytes)
  {
    var zeroes := SkipZeroes(bytes, 0);
    var buf, length := FillBase58(bytes[zeroes..]);
    var size := buf.Length;
    assert buf[..size] == buf[..];
    var it := SkipZeroes(buf[..], size - length);
    str := Translate(seq(zeroes, _ => 0) + buf[it..]);
    SkippedDigits(58, buf[..], it);
    LeadingZeroesCount(bytes, zeroes);
    ValueSkip(256, bytes, zeroes);
    assert buf[it..] == buf[..][it..];
  }

  lemma {:induction false} ValueNext(base: nat, s: seq<nat>, i: nat)
    requires i < |s|
    ensures Value(base, s[..i + 1]) == Value(base, s[..i]) * base + s[i]
  {
    assert s[..i + 1][..i] == s[..i];
  }

  /** A part of the bytes fits the buffer for all of them. */
  lemma {:induction false} PrefixFits(base: nat, to: nat, s: seq<nat>, i: nat, size: nat)
    requires base > 0 && InBase(base, s) && i <= |s| && Pow(base, |s|) <= Pow(to, size)
    ensures Value(base, s[..i]) < Pow(to, size)
  {
    ValueBound(base, s[..i]);
    PowMono(base, i, |s|);
  }

  method FillBase58(bytes: seq<Byte>) returns (buf: array<Byte>, length: nat)
    ensures fresh(buf) && length <= buf.Length && InBase(58, buf[..])
    ensures forall k :: 0 <= k < buf.Length - length ==> buf[k] == 0
    ensures Value(58, buf[..]) == Value(256, bytes)
  {
    var size := |bytes| * 138 / 100 + 1;
    EncodedSize(|bytes|);
    buf, length := new Byte[size](_ => 0), 0;
    assert buf[..][size..] == [];
    ValueSkip(58, buf[..], size);
    var i := 0;
    while i < |bytes|
      invariant 0 <= i <= |bytes| && length <= size == buf.Length && InBase(58, buf[..])
      invariant forall k :: 0 <= k < size - length ==> buf[k] == 0
      invariant Value(58, buf[..]) == Value(256, bytes[..i])
      invariant fresh(buf)
    {
      ValueNext(256, bytes, i);
      PrefixFits(256, 58, bytes, i + 1, size);
      var carry;
      carry, length := MulAdd(buf, 58, 256, bytes[i], length);
      assert carry == 0;
      i := i + 1;
    }
    assert bytes[..i] == bytes;
  }

  method Translate(digits: seq<nat>) returns (str: string)
    requires InBase(58, digits)
    ensures str == Text(digits)
  {
    str := "";
    for i := 0 to |digits|
      invariant str == Text(digits)[..i]
    {
      AlphabetIs(digits[i]);
      str := str + [ALPHABET[digits[i]]];
    }
  }

  // ---------------------------------------------------------------- the decoder

  /** The text is that of `v`, with any blanks around it. */
  ghost predicate IsTextOf(t: string, v: seq<Byte>) {
    exists i, j {:trigger Framed(t, i, j)} :: Framed(t, i, j) && t[i..j] == Encode(v)
  }

  /** All before `i` and from `j` on is blank. */
  predicate Framed(t: string, i: int, j: int) {
    0 <= i <= j <= |t| && Blank(t, 0, i) && Blank(t, j, |t|)
  }

  predicate Blank(t: string, i: nat, j: nat) {
    j <= |t| && forall k :: i <= k < j ==> IsSpace(t[k])
  }

  lemma {:induction false} EncodeLetters(v: seq<Byte>, k: nat)
    requires k < |Encode(v)|
    ensures IsLetter(Encode(v)[k]) && !IsSpace(Encode(v)[k])
  {
    ConvertInBase(256, 58, v);
    LettersAreNotSpaces(Convert(256, 58, v)[k]);
  }

  /** A word has letters only, from its first character that is no space to its last. */
  lemma {:induction false} OnlyLetters(t: string, a: nat, k: nat, b: nat, v: seq<Byte>)
    requires IsTextOf(t, v) && a <= k <= b < |t| && !IsSpace(t[a]) && !IsSpace(t[b])
    ensures IsLetter(t[k]) && !IsSpace(t[k])
  {
    var i, j :| Framed(t, i, j) && t[i..j] == Encode(v);
    assert t[k] == t[i..j][k - i];
    EncodeLetters(v, k - i);
  }

  /** A text stands for one byte string at most. */
  lemma {:induction false} OneMeaning(t: string, v: seq<Byte>, w: seq<Byte>)
    requires IsTextOf(t, v) && IsTextOf(t, w)
    ensures v == w
  {
    var i, j :| Framed(t, i, j) && t[i..j] == Encode(v);
    var i', j' :| Framed(t, i', j') && t[i'..j'] == Encode(w);
    SameWord(t, i, j, v, i', j');
    SameWord(t, i', j', w, i, j);
    if i == j {
      assert Encode(v) == [] == Encode(w);
    }
    EncodeInjective(v, w);
  }

  lemma {:induction false} SameWord(t: string, i: int, j: int, v: seq<Byte>, i': int, j': int)
    requires Framed(t, i, j) && t[i..j] == Encode(v) && Framed(t, i', j')
    ensures i < j ==> i' <= i && j <= j'
  {
    if i < j {
      assert t[i] == t[i..j][0] && t[j - 1] == t[i..j][j - 1 - i];
      EncodeLetters(v, 0);
      EncodeLetters(v, j - 1 - i);
    }
  }

  method SkipSpaces(t: string, start: nat) returns (p: nat)
    requires start <= |t|
    ensures start <= p <= |t| && Blank(t, start, p) && (p < |t| ==> !IsSpace(t[p]))
  {
    p := start;
    while p < |t| && IsSpace(t[p])
      invariant start <= p <= |t| && Blank(t, start, p)
    {
      p := p + 1;
    }
  }

  /** The run of letters from `i` to `j` has the digits `s`. */
  ghost predicate Spells(t: string, i: nat, j: nat, s: seq<nat>)
    requires i <= j <= |t|
    decreases j
  {
    if i == j then s == []
    else s != [] && s[|s| - 1] < 58 && Letter(s[|s| - 1]) == t[j - 1] && Spells(t, i, j - 1, s[..|s| - 1])
  }

  lemma {:induction false} SpellsNext(t: string, i: nat, j: nat, s: seq<nat>, d: nat)
    requires i <= j < |t| && Spells(t, i, j, s) && d < 58 && Letter(d) == t[j]
    ensures Spells(t, i, j + 1, s + [d])
  {
    assert (s + [d])[..|s|] == s;
  }

  lemma {:induction false} SpellsText(t: string, i: nat, j: nat, s: seq<nat>)
    requires i <= j <= |t| && Spells(t, i, j, s)
    ensures |s| == j - i && InBase(58, s) && Text(s) == t[i..j]
    decreases j
  {
    if i < j {
      SpellsText(t, i, j - 1, s[..|s| - 1]);
      assert Text(s) == Text(s[..|s| - 1]) + [Letter(s[|s| - 1])];
    }
  }

  /** Skips the leading '1's. */
  method SkipOnes(t: string, start: nat) returns (p: nat)
    requires start <= |t|
    ensures start <= p <= |t| && Spells(t, start, p, Zeroes(p - start))
    ensures p < |t| ==> t[p] != '1'
  {
    p := start;
    while p < |t| && t[p] == '1'
      invariant start <= p <= |t| && Spells(t, start, p, Zeroes(p - start))
    {
      SpellsNext(t, start, p, Zeroes(p - start), 0);
      assert Zeroes(p - start) + [0] == Zeroes(p + 1 - start);
      p := p + 1;
    }
  }

  /** One more letter still fits the buffer. */
  lemma {:induction false} WordFits(s: seq<nat>, d: nat, n: nat, size: nat)
    requires InBase(58, s) && d < 58 && |s| < n && Pow(58, n) <= Pow(256, size)
    ensures Value(58, s + [d]) == Value(58, s) * 58 + d < Pow(256, size)
  {
    ValueSnoc(58, s, d);
    ValueBound(58, s + [d]);
    PowMono(58, |s| + 1, n);
  }

  /** Appends a letter to the number in the buffer. */
  method AppendLetter(b256: array<Byte>, d: nat, ghost s: seq<nat>, ghost n: nat)
    requires InBase(58, s) && d < 58 && |s| < n && Pow(58, n) <= Pow(256, b256.Length)
    requires Value(256, b256[..]) == Value(58, s)
    modifies b256
    ensures Value(256, b256[..]) == Value(58, s + [d])
  {
    WordFits(s, d, n, b256.Length);
    var carry, _ := MulAdd(b256, 256, 58, d, b256.Length);
    assert carry == 0;
  }

  method DecodeWord(t: string, start: nat) returns (buf: Option<array<Byte>>, p: nat, ghost s: seq<nat>)
    requires start <= |t|
    ensures start <= p <= |t|
    ensures buf.None? ==> p < |t| && !IsSpace(t[p]) && !IsLetter(t[p])
    ensures buf.Some? ==> fresh(buf.value) && Spells(t, start, p, s) && (p < |t| ==> IsSpace(t[p]))
                          && Value(256, buf.value[..]) == Value(58, s)
  {
    var size := (|t| - start) * 733 / 1000 + 1;
    DecodedSize(|t| - start);
    var b256 := new Byte[size](_ => 0);
    assert b256[..][size..] == [];
    ValueSkip(256, b256[..], size);
    p, s := start, [];
    while p < |t| && !IsSpace(t[p])
      invariant start <= p <= |t|
      invariant Spells(t, start, p, s)
      invariant b256.Length == size && fresh(b256)
      invariant Value(256, b256[..]) == Value(58, s)
    {
      var ch := Strchr(t[p]);
      if ch.None? {
        return None, p, s;
      }
      SpellsNext(t, start, p, s, ch.value);
      SpellsText(t, start, p, s);
      AppendLetter(b256, ch.value, s, |t| - start);
      s := s + [ch.value];
      p := p + 1;
    }
    buf := Some(b256);
  }

  lemma {:induction false} ConvertParts(z: seq<nat>, s: seq<nat>)
    requires z == Zeroes(|z|) && (s != [] ==> s[0] != 0)
    ensures Convert(58, 256, z + s) == z + Digits(256, Value(58, s))
  {
    LeadingZeroesCount(z + s, |z|);
    ValueSkip(58, z + s, |z|);
    assert (z + s)[|z|..] == s;
  }

  lemma {:induction false} TextJoined(t: string, i: nat, j: nat, k: nat, z: seq<nat>, s: seq<nat>)
    requires i <= j <= k <= |t| && Spells(t, i, j, z) && Spells(t, j, k, s)
    ensures InBase(58, z) && InBase(58, s) && InBase(58, z + s) && Text(z + s) == t[i..k]
  {
    SpellsText(t, i, j, z);
    SpellsText(t, j, k, s);
    assert Text(z + s) == Text(z) + Text(s);
    assert t[i..k] == t[i..j] + t[j..k];
  }

  /** The decoded bytes: one zero for every leading '1', then the digits of the number. */
  lemma {:induction false} DecodedBytes(t: string, i: nat, j: nat, k: nat, s: seq<nat>, buf: seq<Byte>, it: nat,
                                        v: seq<Byte>)
    requires i <= j <= k <= |t| && Spells(t, i, j, Zeroes(j - i)) && Spells(t, j, k, s) && (s != [] ==> s[0] != 0)
    requires Value(256, buf) == Value(58, s)
    requires it <= |buf| && (forall m :: 0 <= m < it ==> buf[m] == 0) && (it < |buf| ==> buf[it] != 0)
    requires v == Zeroes(j - i) + buf[it..]
    ensures t[i..k] == Encode(v)
  {
    var z := Zeroes(j - i);
    TextJoined(t, i, j, k, z, s);
    ConvertParts(z, s);
    SkippedDigits(256, buf, it);
    EncodeOfDigits(z + s, v);
  }

  lemma {:induction false} NotOne(t: string, j: nat, k: nat, s: seq<nat>)
    requires j <= k <= |t| && Spells(t, j, k, s)
    requires j < |t| ==> t[j] != '1'
    ensures s != [] ==> s[0] != 0
  {
    if s != [] {
      SpellsText(t, j, k, s);
      assert Text(s)[0] == t[j];
    }
  }

  /**
   * The decoder accepts exactly the texts of byte strings, blanks around them
   * allowed, and returns the bytes.
   */
  method DecodeBase58(str: string) returns (r: Option<seq<Byte>>)
    ensures r.Some? ==> IsTextOf(CString(str), r.value)
    ensures r.None? ==> forall v :: !IsTextOf(CString(str), v)
  {
    var t := CString(str);
    var first := SkipSpaces(t, 0);
    var start := SkipOnes(t, first);
    var buf, p, s := DecodeWord(t, start);
    if buf.None? {
      forall v ensures !IsTextOf(t, v) { if IsTextOf(t, v) { OnlyLetters(t, p, p, p, v); } }
      return None;
    }
    var last := SkipSpaces(t, p);
    if last < |t| {
      forall v ensures !IsTextOf(t, v) { if IsTextOf(t, v) { OnlyLetters(t, first, p, last, v); } }
      return None;
    }
    var b256 := buf.value[..];
    var it := SkipZeroes(b256, 0);
    var v := seq(start - first, _ => 0) + b256[it..];
    NotOne(t, start, p, s);
    DecodedBytes(t, first, start, p, s, b256, it, v);
    assert Framed(t, first, p);
    r := Some(v);
  }

  // ---------------------------------------------------------------- round trips

  lemma {:induction false} NoNul(t: string)
    requires forall i :: 0 <= i < |t| ==> t[i] != '\0'
    ensures CString(t) == t
  {
    if t != [] { NoNul(t[1..]); }
  }

  /** The text of a byte string means those bytes. */
  lemma {:induction false} EncodedIsText(v: seq<Byte>)
    ensures IsTextOf(CString(Encode(v)), v)
  {
    var t := Encode(v);
    forall k | 0 <= k < |t| ensures t[k] != '\0' {
      ConvertInBase(256, 58, v);
      LettersAreNotSpaces(Convert(256, 58, v)[k]);
    }
    NoNul(t);
    assert Framed(t, 0, |t|) && t[0..|t|] == t;
  }

  lemma {:induction false} NoFrame(t: string, i: int, j: int)
    requires Framed(t, i, j) && forall k :: 0 <= k < |t| ==> !IsSpace(t[k])
    ensures t[i..j] == t
  {
    if t != [] {
      assert !IsSpace(t[0]) && !IsSpace(t[|t| - 1]);
    }
  }

  /** A text without spaces that has a meaning is what the encoder makes of it. */
  lemma {:induction false} SpaceFree(t: string, v: seq<Byte>)
    requires IsTextOf(t, v) && forall k :: 0 <= k < |t| ==> !IsSpace(t[k])
    ensures Encode(v) == t
  {
    var i, j :| Framed(t, i, j) && t[i..j] == Encode(v);
    NoFrame(t, i, j);
  }

  /** Decoding inverts encoding for every byte string. */
  method EncodeDecode(bytes: seq<Byte>) returns (r: Option<seq<Byte>>)
    ensures r == Some(bytes)
  {
    var str := EncodeBase58(bytes);
    EncodedIsText(bytes);
    r := DecodeBase58(str);
    if r.Some? { OneMeaning(CString(str), r.value, bytes); }
  }

  /** Encoding inverts decoding for every string without spaces that decodes at all. */
  method DecodeEncode(str: string) returns (r: Option<string>)
    requires forall k :: 0 <= k < |str| ==> str[k] != '\0' && !IsSpace(str[k])
    ensures r == Some(str) || (r.None? && forall v :: str != Encode(v))
  {
    NoNul(str);
    var v := DecodeBase58(str);
    if v.Some? {
      SpaceFree(str, v.value);
      var s := EncodeBase58(v.value);
      return Some(s);
    }
    forall v ensures str != Encode(v) {
      if str == Encode(v) { EncodedIsText(v); }
    }
    r := None;
  }

  // ---------------------------------------------------------------- checksums

  /** The first four bytes of the hash of the payload follow it. */
  function Checked(hash: seq<Byte> -> seq<Byte>, payload: seq<Byte>): seq<Byte>
    requires |hash(payload)| == 32
  {
    payload + hash(payload)[..4]
  }

  method EncodeBase58Check(hash: seq<Byte> -> seq<Byte>, payload: seq<Byte>) returns (str: string)
    requires |hash(payload)| == 32
    ensures str == Encode(Checked(hash, payload)) == Encode(payload + hash(payload)[..4])
  {
    str := EncodeBase58(payload + hash(payload)[..4]);
  }

  /** Accepts exactly the texts of byte strings that end in the right checksum, and strips it. */
  method DecodeBase58Check(hash: seq<Byte> -> seq<Byte>, str: string) returns (r: Option<seq<Byte>>)
    requires forall v :: |hash(v)| == 32
    ensures forall v :: IsTextOf(CString(str), Checked(hash, v)) <==> r == Some(v)
  {
    var d := DecodeBase58(str);
    if d.None? || |d.value| < 4 {
      r := None;
    } else {
      var v := d.value[..|d.value| - 4];
      r := if hash(v)[..4] == d.value[|d.value| - 4..] then Some(v) else None;
      assert d.value == v + d.value[|d.value| - 4..];
    }
    forall v ensures IsTextOf(CString(str), Checked(hash, v)) <==> r == Some(v) {
      CheckedMeaning(hash, CString(str), d, r, v);
    }
  }

  lemma {:induction false} CheckedMeaning(hash: seq<Byte> -> seq<Byte>, t: string, d: Option<seq<Byte>>,
                                          r: Option<seq<Byte>>, v: seq<Byte>)
    requires |hash(v)| == 32
    requires d.Some? ==> IsTextOf(t, d.value)
    requires d.None? ==> forall w :: !IsTextOf(t, w)
    requires d.Some? && r.Some? ==> |hash(r.value)| == 32 && d.value == Checked(hash, r.value)
    requires r.Some? ==> d.Some?
    requires r.None? && d.Some? && |d.value| >= 4 ==>
      var w := d.value[..|d.value| - 4]; |hash(w)| == 32 && d.value != Checked(hash, w)
    ensures IsTextOf(t, Checked(hash, v)) <==> r == Some(v)
  {
    var c := Checked(hash, v);
    assert c[..|c| - 4] == v;
    if d.Some? && IsTextOf(t, c) {
      OneMeaning(t, d.value, c);
    }
    if r.Some? {
      var c' := Checked(hash, r.value);
      assert c'[..|c'| - 4] == r.value;
    }
  }
}
