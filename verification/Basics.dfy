/** Types shared by the models. */
module Basics {

  type Byte = x: int | 0 <= x < 256

  datatype Option<+T> = None | Some(value: T)

  function Min(a: int, b: int): int {
    if a < b then a else b
  }

  function Max(a: int, b: int): int {
    if a < b then b else a
  }

  /** A piece of a stream. */
  ghost predicate Stands<T>(s: seq<T>, start: nat, end: nat, piece: seq<T>) {
    start <= end <= |s| && s[start..end] == piece
  }

  lemma {:induction false} Halves<T>(s: seq<T>, start: nat, end: nat, a: seq<T>, b: seq<T>)
    requires Stands(s, start, end, a + b)
    ensures Stands(s, start, start + |a|, a) && Stands(s, start + |a|, end, b)
  {
    var t := s[start..end];
    assert s[start..start + |a|] == t[..|a|] == a;
    assert s[start + |a|..end] == t[|a|..] == b;
  }
}
