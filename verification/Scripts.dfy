/** The compact form of output scripts: six special cases, all others with their length. */
module Scripts {
  import opened Basics
  import opened Powers
  import opened VarInt

  const OP_DUP: Byte := 0x76
  const OP_EQUAL: Byte := 0x87
  const OP_EQUALVERIFY: Byte := 0x88
  const OP_HASH160: Byte := 0xA9
  const OP_CHECKSIG: Byte := 0xAC

  const SPECIAL_SCRIPTS: nat := 6

  const TWO32: nat := 0x1_0000_0000

  /** Public keys: which uncompressed ones are points of the curve, and the point for a compressed one. */
  datatype Curve = Curve(isFullyValid: seq<Byte> -> bool, decompress: seq<Byte> -> Option<seq<Byte>>)

  /** A valid point is found again from its first coordinate and the parity of the second. */
  ghost predicate CurveOk(cv: Curve) {
    forall k :: KeyOk(cv, k)
  }

  ghost predicate KeyOk(cv: Curve, k: seq<Byte>) {
    |k| == 65 && k[0] == 0x04 && cv.isFullyValid(k) ==> cv.decompress([2 + k[64] % 2] + k[1..33]) == Some(k)
  }

  predicate IsToKeyID(s: seq<Byte>) {
    |s| == 25 && s[0] == OP_DUP && s[1] == OP_HASH160 && s[2] == 20 && s[23] == OP_EQUALVERIFY && s[24] == OP_CHECKSIG
  }

  predicate IsToScriptID(s: seq<Byte>) {
    |s| == 23 && s[0] == OP_HASH160 && s[1] == 20 && s[22] == OP_EQUAL
  }

  predicate IsToCompressedKey(s: seq<Byte>) {
    |s| == 35 && s[0] == 33 && s[34] == OP_CHECKSIG && (s[1] == 0x02 || s[1] == 0x03)
  }

  predicate IsToFullKey(cv: Curve, s: seq<Byte>) {
    |s| == 67 && s[0] == 65 && s[66] == OP_CHECKSIG && s[1] == 0x04 && cv.isFullyValid(s[1..66])
  }

  /** A special script as a code below six and its payload. */
  function Compressed(cv: Curve, s: seq<Byte>): Option<(nat, seq<Byte>)> {
    if IsToKeyID(s) then Some((0, s[3..23]))
    else if IsToScriptID(s) then Some((1, s[2..22]))
    else if IsToCompressedKey(s) then Some((s[1], s[2..34]))
    else if IsToFullKey(cv, s) then Some((4 + s[65] % 2, s[2..34]))
    else None
  }

  function SpecialSize(code: nat): nat {
    if code <= 1 then 20 else if code <= 5 then 32 else 0
  }

  /** The script of a code and its payload, if there is one. */
  function Decompressed(cv: Curve, code: nat, p: seq<Byte>): Option<seq<Byte>>
    requires |p| == SpecialSize(code)
  {
    if code == 0 then Some([OP_DUP, OP_HASH160, 20] + p + [OP_EQUALVERIFY, OP_CHECKSIG])
    else if code == 1 then Some([OP_HASH160, 20] + p + [OP_EQUAL])
    else if code <= 3 then Some([33, code] + p + [OP_CHECKSIG])
    else if code <= 5 then
      var k := cv.decompress([code - 2] + p);
      if k.None? || |k.value| != 65 then None else Some([65] + k.value + [OP_CHECKSIG])
    else None
  }

  lemma {:induction false} DecompressCompress(cv: Curve, s: seq<Byte>)
    requires CurveOk(cv) && Compressed(cv, s).Some?
    ensures var (code, p) := Compressed(cv, s).value;
            code < SPECIAL_SCRIPTS && |p| == SpecialSize(code) && Decompressed(cv, code, p) == Some(s)
  {
    if IsToKeyID(s) {
      assert s == [OP_DUP, OP_HASH160, 20] + s[3..23] + [OP_EQUALVERIFY, OP_CHECKSIG];
    } else if IsToScriptID(s) {
      assert s == [OP_HASH160, 20] + s[2..22] + [OP_EQUAL];
    } else if IsToCompressedKey(s) {
      assert s == [33, s[1]] + s[2..34] + [OP_CHECKSIG];
    } else {
      var k := s[1..66];
      assert KeyOk(cv, k);
      assert k[64] == s[65] && k[1..33] == s[2..34];
      assert s == [65] + k + [OP_CHECKSIG];
    }
  }

  /** The bytes written for a script. */
  function ScriptBytes(cv: Curve, s: seq<Byte>): seq<Byte> {
    var c := Compressed(cv, s);
    if c.Some? then VarBytes(c.value.0) + c.value.1 else VarBytes(|s| + SPECIAL_SCRIPTS) + s
  }

  method WriteScript(cv: Curve, script: seq<Byte>) returns (s: seq<Byte>)
    ensures s == ScriptBytes(cv, script)
  {
    var c := Compressed(cv, script);
    if c.Some? {
      assert VarBytes(c.value.0) == [c.value.0];
      return [c.value.0] + c.value.1;
    }
    var n := WriteVarInt(|script| + SPECIAL_SCRIPTS);
    s := n + script;
  }

  /** Reads bytes as they are; fails if the stream ends. */
  method ReadFlat(s: seq<Byte>, start: nat, n: nat) returns (r: Option<seq<Byte>>, end: nat)
    requires start <= |s|
    ensures start <= end <= |s| && (r.Some? <==> start + n <= |s|)
    ensures r.Some? ==> end == start + n && r.value == s[start..end]
  {
    if start + n <= |s| {
      return Some(s[start..start + n]), start + n;
    }
    return None, start;
  }

  /** What the number in front of a script says of the bytes behind it. */
  function PayloadSize(size: nat): nat {
    if size < SPECIAL_SCRIPTS then SpecialSize(size) else size - SPECIAL_SCRIPTS
  }

  /** The script of a number and the bytes behind it.  A key that is no point of the curve leaves the script as
      it was, which is empty because `CCoins::Unserialize` reads into blank outputs. */
  function ScriptOf(cv: Curve, size: nat, payload: seq<Byte>): seq<Byte>
    requires |payload| == PayloadSize(size)
  {
    if size >= SPECIAL_SCRIPTS then payload
    else
      var d := Decompressed(cv, size, payload);
      if d.Some? then d.value else []
  }

  /** A stored key that is no point of the curve gives an empty script. */
  lemma {:induction false} NoSuchKey(cv: Curve, code: nat, x: seq<Byte>)
    requires (code == 4 || code == 5) && |x| == 32 && cv.decompress([code - 2] + x) == None
    ensures ScriptOf(cv, code, x) == []
  {
  }

  /** A script stands in a stream, behind the number `n`, which ends at `mid`. */
  ghost predicate ScriptAt(cv: Curve, s: seq<Byte>, start: nat, mid: nat, end: nat, script: seq<Byte>, n: nat) {
    && NumberAt(s, start, mid, n) && mid <= end <= |s| && end - mid == PayloadSize(n % TWO32)
    && script == ScriptOf(cv, n % TWO32, s[mid..end])
  }

  ghost predicate ScriptStands(cv: Curve, s: seq<Byte>, start: nat, end: nat, script: seq<Byte>) {
    exists mid, n :: ScriptAt(cv, s, start, mid, end, script, n)
  }

  /** A script that stands in the stream is read, and none other. */
  method ReadScript(cv: Curve, s: seq<Byte>, start: nat, ghost last: nat, ghost script: seq<Byte>)
    returns (r: Option<seq<Byte>>, end: nat)
    requires start <= |s|
    ensures start <= end <= |s|
    ensures r.Some? ==> ScriptStands(cv, s, start, end, r.value)
    ensures ScriptStands(cv, s, start, last, script) ==> r == Some(script) && end == last
  {
    ghost var m: nat, k: nat := 0, 0;
    if ScriptStands(cv, s, start, last, script) {
      m, k :| ScriptAt(cv, s, start, m, last, script, k);
    }
    var size;
    ghost var n;
    size, end, n := ReadNumber(s, start, TWO32, m, k);
    if size.None? {
      return None, end;
    }
    ghost var mid := end;
    var p;
    p, end := ReadFlat(s, end, PayloadSize(size.value));
    if p.None? {
      return None, end;
    }
    r := Some(ScriptOf(cv, size.value, p.value));
    assert ScriptAt(cv, s, start, mid, end, r.value, n);
  }

  /** The stored forms: one byte and a payload for the special scripts, else the length and six, and the script. */
  lemma {:induction false} StoredForms(cv: Curve, hash: seq<Byte>, x: seq<Byte>, y: seq<Byte>, script: seq<Byte>)
    requires |hash| == 20 && |x| == 32 && |y| == 32
    ensures ScriptBytes(cv, [0x76, 0xA9, 20] + hash + [0x88, 0xAC]) == [0] + hash
    ensures ScriptBytes(cv, [0xA9, 20] + hash + [0x87]) == [1] + hash
    ensures ScriptBytes(cv, [33, 2] + x + [0xAC]) == [2] + x && ScriptBytes(cv, [33, 3] + x + [0xAC]) == [3] + x
    ensures cv.isFullyValid([4] + x + y) ==> ScriptBytes(cv, [65, 4] + x + y + [0xAC]) == [4 + y[31] % 2] + x
    ensures |script| !in {23, 25, 35, 67} ==> ScriptBytes(cv, script) == VarBytes(|script| + 6) + script
  {
    var s := [0x76, 0xA9, 20] + hash + [0x88, 0xAC];
    assert IsToKeyID(s) && s[3..23] == hash;
    var t := [0xA9, 20] + hash + [0x87];
    assert IsToScriptID(t) && t[2..22] == hash;
    KeyForms(cv, x, 2);
    KeyForms(cv, x, 3);
    if cv.isFullyValid([4] + x + y) { FullKeyForm(cv, x, y); }
  }

  lemma {:induction false} KeyForms(cv: Curve, x: seq<Byte>, c: Byte)
    requires |x| == 32 && (c == 2 || c == 3)
    ensures ScriptBytes(cv, [33, c] + x + [0xAC]) == [c] + x
  {
    var s := [33, c] + x + [0xAC];
    assert IsToCompressedKey(s) && s[2..34] == x;
  }

  lemma {:induction false} FullKeyForm(cv: Curve, x: seq<Byte>, y: seq<Byte>)
    requires |x| == 32 && |y| == 32 && cv.isFullyValid([4] + x + y)
    ensures ScriptBytes(cv, [65, 4] + x + y + [0xAC]) == [4 + y[31] % 2] + x
  {
    var s := [65, 4] + x + y + [0xAC];
    assert s[1..66] == [4] + x + y && s[2..34] == x && s[65] == y[31];
    assert IsToFullKey(cv, s);
  }

  /** What is written for a script is a number and the bytes that belong to it. */
  lemma {:induction false} ScriptParts(cv: Curve, script: seq<Byte>) returns (n: nat, payload: seq<Byte>)
    requires CurveOk(cv)
    ensures ScriptBytes(cv, script) == VarBytes(n) + payload && n <= |script| + SPECIAL_SCRIPTS
    ensures |payload| == PayloadSize(n) && ScriptOf(cv, n, payload) == script
  {
    var c := Compressed(cv, script);
    if c.Some? {
      DecompressCompress(cv, script);
      n, payload := c.value.0, c.value.1;
    } else {
      n, payload := |script| + SPECIAL_SCRIPTS, script;
    }
  }

  /** A written script stands in the stream. */
  lemma {:induction false} WrittenScript(cv: Curve, s: seq<Byte>, start: nat, end: nat, script: seq<Byte>)
    requires CurveOk(cv) && Stands(s, start, end, ScriptBytes(cv, script)) && |script| + SPECIAL_SCRIPTS < TWO32
    ensures ScriptStands(cv, s, start, end, script)
  {
    var n, payload := ScriptParts(cv, script);
    Halves(s, start, end, VarBytes(n), payload);
    Fits(n, TWO32);
    assert ScriptAt(cv, s, start, start + |VarBytes(n)|, end, script, n);
  }

  lemma {:induction false} Fits(n: nat, m: nat)
    requires n < m
    ensures n % m == n
  {
    DivModUnique(n, m, 0, n);
  }
}
