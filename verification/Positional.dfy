/** Positional numbers in any base, most significant digit first. */
module Positional {
  import opened Powers

  /** The value of a string of digits. */
  function Value(base: nat, s: seq<nat>): nat {
    if s == [] then 0 else Value(base, s[..|s| - 1]) * base + s[|s| - 1]
  }

  /** The digits of a number, without leading zeroes. */
  function Digits(base: nat, n: nat): seq<nat>
    requires base >= 2
  {
    if n == 0 then [] else Digits(base, n / base) + [n % base]
  }

  predicate InBase(base: nat, s: seq<nat>) {
    forall i :: 0 <= i < |s| ==> s[i] < base
  }

  lemma {:induction false} LastDigit(base: nat, n: nat) returns (q: nat, r: nat)
    requires base >= 2 && n > 0
    ensures n == q * base + r && q < n && r < base
    ensures Digits(base, n) == Digits(base, q) + [r]
  {
    q, r := n / base, n % base;
    Split(base, n, q, r);
  }

  lemma {:induction false} Split(base: nat, n: nat, q: nat, r: nat)
    requires base >= 2 && n > 0 && q == n / base && r == n % base
    ensures n == q * base + r && q < n && r < base
  {
    MulMono(2, base, q);
  }

  lemma {:induction false} ValueOfDigits(base: nat, n: nat)
    requires base >= 2
    ensures Value(base, Digits(base, n)) == n && InBase(base, Digits(base, n))
    ensures n > 0 ==> Digits(base, n)[0] != 0
  {
    if n > 0 {
      var q, r := LastDigit(base, n);
      ValueOfDigits(base, q);
      ValueSnoc(base, Digits(base, q), r);
    }
  }

  lemma {:induction false} ValueSnoc(base: nat, s: seq<nat>, d: nat)
    ensures Value(base, s + [d]) == Value(base, s) * base + d
  {
    assert (s + [d])[..|s|] == s;
  }

  /** A string without a leading zero is the only one for its value. */
  lemma {:induction false} DigitsOfValue(base: nat, s: seq<nat>)
    requires base >= 2 && InBase(base, s) && (s != [] ==> s[0] != 0)
    ensures Digits(base, Value(base, s)) == s
  {
    if s != [] {
      var t, d := s[..|s| - 1], s[|s| - 1];
      DigitsOfValue(base, t);
      var v := Value(base, s);
      DivModUnique(v, base, Value(base, t), d);
      if t != [] { ValuePositive(base, t); }
      assert v != 0;
      assert s == t + [d];
    }
  }

  lemma {:induction false} ValuePositive(base: nat, s: seq<nat>)
    requires base >= 2 && s != [] && s[0] != 0
    ensures Value(base, s) > 0
  {
    if |s| > 1 {
      ValuePositive(base, s[..|s| - 1]);
      MulMono(1, Value(base, s[..|s| - 1]), base);
    }
  }

  /** The first digit counts `base` to the number of digits after it. */
  lemma {:induction false} ValueFirst(base: nat, s: seq<nat>)
    requires s != []
    ensures Value(base, s) == s[0] * Pow(base, |s| - 1) + Value(base, s[1..])
  {
    if |s| > 1 {
      var t, d := s[..|s| - 1], s[|s| - 1];
      ValueFirst(base, t);
      assert s[1..][..|s| - 2] == t[1..];
      FirstStep(base, s[0], Pow(base, |t| - 1), Value(base, t[1..]), Value(base, t));
    }
  }

  lemma {:induction false} FirstStep(base: int, d: int, p: int, low: int, v: int)
    requires v == d * p + low
    ensures v * base == d * (base * p) + low * base
  {
  }

  /** Leading zeroes do not change the value. */
  lemma {:induction false} ValueSkip(base: nat, s: seq<nat>, k: nat)
    requires k <= |s| && forall i :: 0 <= i < k ==> s[i] == 0
    ensures Value(base, s) == Value(base, s[k..])
  {
    if k > 0 {
      ValueFirst(base, s);
      ValueSkip(base, s[1..], k - 1);
      assert s[1..][k - 1..] == s[k..];
    } else {
      assert s[0..] == s;
    }
  }

  lemma {:induction false} ValueBound(base: nat, s: seq<nat>)
    requires base >= 1 && InBase(base, s)
    ensures Value(base, s) < Pow(base, |s|)
  {
    if s != [] {
      var t := s[..|s| - 1];
      ValueBound(base, t);
      BoundStep(base, s[|s| - 1], Value(base, t), Pow(base, |t|));
    }
  }

  lemma {:induction false} BoundStep(base: nat, d: nat, v: nat, p: nat)
    requires d < base && v < p
    ensures v * base + d < base * p
  {
    MulMono(v + 1, p, base);
  }

  /** The number of zeroes in front. */
  function LeadingZeroes(s: seq<nat>): (k: nat)
    ensures k <= |s|
  {
    if s != [] && s[0] == 0 then 1 + LeadingZeroes(s[1..]) else 0
  }

  lemma {:induction false} LeadingZeroesCount(s: seq<nat>, k: nat)
    requires k <= |s| && (forall i :: 0 <= i < k ==> s[i] == 0) && (k < |s| ==> s[k] != 0)
    ensures LeadingZeroes(s) == k
  {
    if k > 0 {
      LeadingZeroesCount(s[1..], k - 1);
    }
  }

  lemma {:induction false} LeadingZeroesAre(s: seq<nat>)
    ensures forall i :: 0 <= i < LeadingZeroes(s) ==> s[i] == 0
    ensures LeadingZeroes(s) < |s| ==> s[LeadingZeroes(s)] != 0
  {
    if s != [] && s[0] == 0 {
      LeadingZeroesAre(s[1..]);
    }
  }

  function Zeroes(k: nat): seq<nat> {
    seq(k, _ => 0)
  }

  /**
   * A number written in another base with its leading zeroes kept one for one,
   * which makes the conversion reversible on all strings.
   */
  function Convert(from: nat, to: nat, s: seq<nat>): seq<nat>
    requires to >= 2
  {
    Zeroes(LeadingZeroes(s)) + Digits(to, Value(from, s))
  }

  lemma {:induction false} ConvertInBase(from: nat, to: nat, s: seq<nat>)
    requires to >= 2
    ensures InBase(to, Convert(from, to, s))
  {
    ValueOfDigits(to, Value(from, s));
  }

  /** Converting there and back gives the same string. */
  lemma {:induction false} ConvertBack(from: nat, to: nat, s: seq<nat>)
    requires from >= 2 && to >= 2 && InBase(from, s)
    ensures Convert(to, from, Convert(from, to, s)) == s
  {
    var k, v := LeadingZeroes(s), Value(from, s);
    PaddedDigits(to, k, v);
    LeadingZeroesAre(s);
    ValueSkip(from, s, k);
    DigitsOfValue(from, s[k..]);
    assert Zeroes(k) == s[..k];
    assert Zeroes(k) + s[k..] == s;
  }

  /** Zeroes in front of the digits of a number are its leading zeroes, and its value is the number. */
  lemma {:induction false} PaddedDigits(base: nat, k: nat, v: nat)
    requires base >= 2
    ensures var r := Zeroes(k) + Digits(base, v); LeadingZeroes(r) == k && Value(base, r) == v
  {
    var r := Zeroes(k) + Digits(base, v);
    ValueOfDigits(base, v);
    ValueSkip(base, r, k);
    assert r[k..] == Digits(base, v);
    LeadingZeroesCount(r, k);
  }
}
