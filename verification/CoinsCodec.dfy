/**
 * The stored form of unspent outputs (`CCoins`): a code for the first two
 * outputs and the number of bytes in the mask that are not zero, the mask of
 * the other outputs, the unspent outputs in compact form, the height.
 */
module CoinsCodec {
  import opened Basics
  import opened Powers
  import opened VarInt
  import opened CoinRecords
  import Amounts
  import opened Scripts

  const TWO31: int := 0x8000_0000

  // ---------------------------------------------------------------- the mask

  /** Whether output `i` is unspent. */
  predicate Unspent(vout: seq<TxOut>, i: nat) {
    i < |vout| && !vout[i].IsNull()
  }

  /** The low `n` bits of a byte of the mask. */
  function Bits(vout: seq<TxOut>, first: nat, n: nat): nat {
    if n == 0 then 0 else Bits(vout, first, n - 1) + if Unspent(vout, first + n - 1) then Pow(2, n - 1) else 0
  }

  lemma {:induction false} BitsBound(vout: seq<TxOut>, first: nat, n: nat)
    ensures Bits(vout, first, n) < Pow(2, n)
  {
    if n > 0 { BitsBound(vout, first, n - 1); }
  }

  /** Byte `b` of the mask, for outputs `2 + 8 * b` and the seven after it. */
  function MaskByte(vout: seq<TxOut>, b: nat): Byte {
    BitsBound(vout, 2 + 8 * b, 8);
    assert Pow(2, 8) == 256;
    Bits(vout, 2 + 8 * b, 8)
  }

  /** A bit of a byte. */
  predicate HasBit(ch: nat, p: nat) {
    PowPositive(2, p);
    ch / Pow(2, p) % 2 == 1
  }

  /** The bits are those of the outputs. */
  lemma {:induction false} BitIs(vout: seq<TxOut>, first: nat, n: nat, p: nat)
    requires p < n
    ensures HasBit(Bits(vout, first, n), p) <==> Unspent(vout, first + p)
  {
    BitsBound(vout, first, n - 1);
    var rest := Bits(vout, first, n - 1);
    if p == n - 1 {
      TopBit(rest, Pow(2, p), Unspent(vout, first + p));
    } else {
      BitIs(vout, first, n - 1, p);
      if Unspent(vout, first + n - 1) {
        PowAdd(2, p, n - 1 - p);
        HigherBit(rest, Pow(2, p), Pow(2, n - 2 - p));
      }
    }
  }

  lemma {:induction false} TopBit(rest: nat, k: nat, on: bool)
    requires rest < k
    ensures (rest + if on then k else 0) / k % 2 == if on then 1 else 0
  {
    if on { DivModUnique(rest + k, k, 1, rest); } else { DivModUnique(rest, k, 0, rest); }
  }

  lemma {:induction false} HigherBit(rest: nat, k: nat, j: nat)
    requires k > 0
    ensures (rest + k * (2 * j)) / k % 2 == rest / k % 2
  {
    var q, r := rest / k, rest % k;
    assert rest + k * (2 * j) == (q + 2 * j) * k + r;
    DivModUnique(rest + k * (2 * j), k, q + 2 * j, r);
  }

  /** The number of bytes up to the last that is not zero. */
  function LastUsed(m: seq<Byte>): nat {
    if m == [] then 0 else if m[|m| - 1] != 0 then |m| else LastUsed(m[..|m| - 1])
  }

  /** How many bytes are not zero. */
  function NonZero(m: seq<Byte>): nat {
    if m == [] then 0 else NonZero(m[..|m| - 1]) + if m[|m| - 1] != 0 then 1 else 0
  }

  lemma {:induction false} LastUsedIs(m: seq<Byte>)
    ensures LastUsed(m) <= |m| && NonZero(m[..LastUsed(m)]) == NonZero(m) <= |m|
    ensures forall i :: LastUsed(m) <= i < |m| ==> m[i] == 0
  {
    if m != [] {
      var init := m[..|m| - 1];
      LastUsedIs(init);
      if m[|m| - 1] != 0 {
        assert m[..LastUsed(m)] == m;
      } else {
        assert m[..LastUsed(m)] == init[..LastUsed(m)];
      }
    }
  }

  lemma {:induction false} NonZeroMono(m: seq<Byte>, k: nat)
    requires k <= |m|
    ensures NonZero(m[..k]) <= NonZero(m)
  {
    if k < |m| {
      NonZeroMono(m[..|m| - 1], k);
      assert m[..|m| - 1][..k] == m[..k];
    } else {
      assert m[..k] == m;
    }
  }

  /** Before the last used byte there are still some to come. */
  lemma {:induction false} MoreToCome(m: seq<Byte>, k: nat)
    requires k < LastUsed(m) && k <= |m|
    ensures NonZero(m[..k]) < NonZero(m)
  {
    var init := m[..|m| - 1];
    if m[|m| - 1] != 0 {
      NonZeroMono(init, k);
      assert init[..k] == m[..k];
    } else {
      LastUsedIs(init);
      MoreToCome(init, k);
      assert init[..k] == m[..k];
    }
  }

  lemma {:induction false} NonZeroNext(m: seq<Byte>, k: nat)
    requires k < |m|
    ensures NonZero(m[..k + 1]) == NonZero(m[..k]) + if m[k] != 0 then 1 else 0
    ensures LastUsed(m[..k + 1]) == if m[k] != 0 then k + 1 else LastUsed(m[..k])
  {
    assert m[..k + 1][..k] == m[..k];
  }

  /** The number of mask bytes that have outputs at all. */
  function Span(vout: seq<TxOut>): nat {
    if |vout| <= 2 then 0 else (|vout| + 5) / 8
  }

  function Mask(vout: seq<TxOut>): seq<Byte> {
    seq(Span(vout), b requires 0 <= b < Span(vout) => MaskByte(vout, b))
  }

  /** A byte with an unspent output is not zero. */
  lemma {:induction false} BitsPositive(vout: seq<TxOut>, first: nat, n: nat, i: nat)
    requires i < n && Unspent(vout, first + i)
    ensures Bits(vout, first, n) > 0
  {
    if i < n - 1 { BitsPositive(vout, first, n - 1, i); } else { PowPositive(2, n - 1); }
  }

  /** Every unspent output after the second is in a used byte. */
  lemma {:induction false} UsedCovers(vout: seq<TxOut>, i: nat)
    requires 2 <= i && Unspent(vout, i)
    ensures i < 2 + 8 * LastUsed(Mask(vout)) && NonZero(Mask(vout)) > 0
  {
    var b := (i - 2) / 8;
    BitsPositive(vout, 2 + 8 * b, 8, i - 2 - 8 * b);
    assert Mask(vout)[b] != 0;
    LastUsedIs(Mask(vout));
    MoreToCome(Mask(vout), 0);
  }

  /** There are no bits past the last output. */
  lemma {:induction false} BitsEnd(vout: seq<TxOut>, first: nat, i: nat, n: nat)
    requires i <= n && (i < n ==> first + i >= |vout|)
    ensures Bits(vout, first, n) == Bits(vout, first, i)
  {
    if i < n { BitsEnd(vout, first, i, n - 1); }
  }

  /** Computes a byte of the mask. */
  method ComputeByte(vout: seq<TxOut>, b: nat) returns (chAvail: Byte)
    ensures chAvail == MaskByte(vout, b)
  {
    var ch: nat, bit: nat, i := 0, 1, 0;
    while i < 8 && 2 + b * 8 + i < |vout|
      invariant 0 <= i <= 8 && bit == Pow(2, i)
      invariant ch == Bits(vout, 2 + 8 * b, i)
    {
      if !vout[2 + b * 8 + i].IsNull() {
        ch := ch + bit;
      }
      i, bit := i + 1, 2 * bit;
    }
    BitsEnd(vout, 2 + 8 * b, i, 8);
    assert ch == MaskByte(vout, b);
    chAvail := ch;
  }

  /** Whether a byte of the mask is zero. */
  method IsZeroByte(vout: seq<TxOut>, b: nat) returns (fZero: bool)
    ensures fZero <==> MaskByte(vout, b) == 0
  {
    fZero := true;
    var i := 0;
    while i < 8 && 2 + b * 8 + i < |vout|
      invariant 0 <= i <= 8
      invariant fZero <==> Bits(vout, 2 + 8 * b, i) == 0
    {
      PowPositive(2, i);
      if !vout[2 + b * 8 + i].IsNull() {
        fZero := false;
      }
      i := i + 1;
    }
    BitsEnd(vout, 2 + 8 * b, i, 8);
  }

  /** `CCoins::CalcMaskSize` */
  method CalcMaskSize(vout: seq<TxOut>) returns (nBytes: nat, nNonzeroBytes: nat)
    ensures nBytes == LastUsed(Mask(vout)) && nNonzeroBytes == NonZero(Mask(vout))
  {
    nBytes, nNonzeroBytes := 0, 0;
    ghost var m := Mask(vout);
    var b := 0;
    while 2 + b * 8 < |vout|
      invariant 0 <= b <= |m|
      invariant nBytes == LastUsed(m[..b]) && nNonzeroBytes == NonZero(m[..b])
    {
      var fZero := IsZeroByte(vout, b);
      NonZeroNext(m, b);
      if !fZero {
        nBytes := b + 1;
        nNonzeroBytes := nNonzeroBytes + 1;
      }
      b := b + 1;
    }
    assert m[..b] == m;
  }

  /** Writes the mask. */
  method WriteMask(vout: seq<TxOut>, nMaskSize: nat) returns (s: seq<Byte>)
    requires nMaskSize <= Span(vout)
    ensures s == Mask(vout)[..nMaskSize]
  {
    s := [];
    ghost var m := Mask(vout);
    for b := 0 to nMaskSize
      invariant s == m[..b]
    {
      var chAvail := ComputeByte(vout, b);
      assert m[..b + 1] == m[..b] + [m[b]];
      s := s + [chAvail];
    }
  }

  // ---------------------------------------------------------------- outputs

  function OutBytes(cv: Curve, o: TxOut): seq<Byte> {
    VarBytes(Amounts.Compressed(o.nValue % Amounts.TWO64)) + ScriptBytes(cv, o.script)
  }

  /** What is written for an output: nothing if it is spent. */
  function PartBytes(cv: Curve, o: TxOut): seq<Byte> {
    if o.IsNull() then [] else OutBytes(cv, o)
  }

  /** What is written for each output. */
  function OutParts(cv: Curve, vout: seq<TxOut>): seq<seq<Byte>> {
    seq(|vout|, i requires 0 <= i < |vout| => PartBytes(cv, vout[i]))
  }

  /** The first `n` parts, one after the other. */
  function Together(parts: seq<seq<Byte>>, n: nat): seq<Byte>
    requires n <= |parts|
  {
    if n == 0 then [] else Together(parts, n - 1) + parts[n - 1]
  }

  function OutsBytes(cv: Curve, vout: seq<TxOut>): seq<Byte> {
    Together(OutParts(cv, vout), |vout|)
  }

  // ---------------------------------------------------------------- coins

  function Bit(b: bool, n: nat): nat {
    if b then n else 0
  }

  /** The header code; the case without the first two outputs is known to have a byte, so one is subtracted. */
  function HeaderCode(c: Coins): int {
    var first, second := Unspent(c.vout, 0), Unspent(c.vout, 1);
    8 * (NonZero(Mask(c.vout)) - Bit(!first && !second, 1)) + Bit(c.fBlockReward, 1) + Bit(first, 2) + Bit(second, 4)
  }

  function CoinsBytes(cv: Curve, c: Coins): seq<Byte> {
    LastUsedIs(Mask(c.vout));
    VarBytes(c.nVersion) + (VarBytes(HeaderCode(c)) + (Mask(c.vout)[..LastUsed(Mask(c.vout))]
      + (OutsBytes(cv, c.vout) + VarBytes(c.nHeight))))
  }

  /** Coins that are not pruned have an output that the code accounts for. */
  lemma {:induction false} SomethingLeft(c: Coins)
    requires !c.IsPruned()
    ensures Unspent(c.vout, 0) || Unspent(c.vout, 1) || NonZero(Mask(c.vout)) > 0
  {
    AllNullIndex(c.vout);
    var i :| 0 <= i < |c.vout| && !c.vout[i].IsNull();
    if i >= 2 {
      UsedCovers(c.vout, i);
    }
  }

  method WriteOut(cv: Curve, o: TxOut) returns (s: seq<Byte>)
    ensures s == OutBytes(cv, o)
  {
    var nVal := Amounts.CompressAmount(o.nValue % Amounts.TWO64);
    var v := WriteVarInt(nVal);
    var t := WriteScript(cv, o.script);
    s := v + t;
  }

  /** The mask size and header code. */
  method Header(c: Coins) returns (nMaskSize: nat, nCode: nat)
    requires !c.IsPruned()
    ensures nMaskSize == LastUsed(Mask(c.vout)) <= Span(c.vout) && nCode == HeaderCode(c)
  {
    LastUsedIs(Mask(c.vout));
    var nMaskCode;
    nMaskSize, nMaskCode := CalcMaskSize(c.vout);
    var fFirst := |c.vout| > 0 && !c.vout[0].IsNull();
    var fSecond := |c.vout| > 1 && !c.vout[1].IsNull();
    SomethingLeft(c);
    assert fFirst || fSecond || nMaskCode > 0;
    nCode := 8 * (nMaskCode - (if fFirst || fSecond then 0 else 1)) + (if c.fBlockReward then 1 else 0)
           + (if fFirst then 2 else 0) + (if fSecond then 4 else 0);
  }

  /** `CCoins::Serialize` */
  method Serialize(cv: Curve, c: Coins) returns (s: seq<Byte>)
    requires !c.IsPruned()
    ensures s == CoinsBytes(cv, c)
  {
    var nMaskSize, nCode := Header(c);
    var version := WriteVarInt(c.nVersion);
    var code := WriteVarInt(nCode);
    var mask := WriteMask(c.vout, nMaskSize);
    var outs := WriteOuts(cv, c.vout);
    var height := WriteVarInt(c.nHeight);
    s := version + (code + (mask + (outs + height)));
  }

  method WritePart(cv: Curve, o: TxOut) returns (s: seq<Byte>)
    ensures s == PartBytes(cv, o)
  {
    s := [];
    if !o.IsNull() {
      s := WriteOut(cv, o);
    }
  }

  method WriteOuts(cv: Curve, vout: seq<TxOut>) returns (outs: seq<Byte>)
    ensures outs == OutsBytes(cv, vout)
  {
    outs := [];
    ghost var parts := OutPartsAre(cv, vout);
    for i := 0 to |vout|
      invariant outs == Together(parts, i)
    {
      var o := WritePart(cv, vout[i]);
      assert PartOf(cv, vout, parts, i);
      outs := outs + o;
    }
  }

  method GetScriptSize(cv: Curve, script: seq<Byte>) returns (n: nat)
    ensures n == |ScriptBytes(cv, script)|
  {
    var c := Compressed(cv, script);
    if c.Some? {
      return 1 + |c.value.1|;
    }
    var size := GetSizeOfVarInt(|script| + SPECIAL_SCRIPTS);
    n := |script| + size;
  }

  method GetOutSize(cv: Curve, o: TxOut) returns (n: nat)
    ensures n == |OutBytes(cv, o)|
  {
    var nVal := Amounts.CompressAmount(o.nValue % Amounts.TWO64);
    var v := GetSizeOfVarInt(nVal);
    var t := GetScriptSize(cv, o.script);
    n := v + t;
  }

  method GetPartSize(cv: Curve, o: TxOut) returns (n: nat)
    ensures n == |PartBytes(cv, o)|
  {
    n := 0;
    if !o.IsNull() {
      n := GetOutSize(cv, o);
    }
  }

  method GetOutsSize(cv: Curve, vout: seq<TxOut>) returns (nSize: nat)
    ensures nSize == |OutsBytes(cv, vout)|
  {
    nSize := 0;
    ghost var parts := OutPartsAre(cv, vout);
    for i := 0 to |vout|
      invariant nSize == |Together(parts, i)|
    {
      var n := GetPartSize(cv, vout[i]);
      assert PartOf(cv, vout, parts, i);
      nSize := nSize + n;
    }
  }

  /** `CCoins::GetSerializeSize`: the number of bytes that are written. */
  method GetSerializeSize(cv: Curve, c: Coins) returns (nSize: nat)
    requires !c.IsPruned()
    ensures nSize == |CoinsBytes(cv, c)|
  {
    var nMaskSize, nCode := Header(c);
    var version := GetSizeOfVarInt(c.nVersion);
    var code := GetSizeOfVarInt(nCode);
    var outs := GetOutsSize(cv, c.vout);
    var height := GetSizeOfVarInt(c.nHeight);
    nSize := version + code + nMaskSize + outs + height;
  }

  // ---------------------------------------------------------------- reading

  /** The bits of a byte, the lowest first. */
  function ByteBits(ch: Byte): seq<bool> {
    seq(8, p requires 0 <= p < 8 => HasBit(ch, p))
  }

  /** The bits of a mask, one after the other. */
  function MaskBits(m: seq<Byte>): seq<bool> {
    if m == [] then [] else MaskBits(m[..|m| - 1]) + ByteBits(m[|m| - 1])
  }

  /** Appends the bits of a mask byte. */
  method AppendBits(vAvail: seq<bool>, ch: Byte) returns (v: seq<bool>)
    ensures v == vAvail + ByteBits(ch)
  {
    v := vAvail;
    var bit := 1;
    for p := 0 to 8
      invariant v == vAvail + ByteBits(ch)[..p] && bit == Pow(2, p)
    {
      PowPositive(2, p);
      v := v + [ch / bit % 2 == 1];
      assert ByteBits(ch)[..p + 1] == ByteBits(ch)[..p] + [HasBit(ch, p)];
      bit := 2 * bit;
    }
  }

  /** A mask with `count` bytes that are not zero, the last one among them. */
  ghost predicate IsMask(m: seq<Byte>, count: nat) {
    NonZero(m) == count && LastUsed(m) == |m|
  }

  /** A mask stands in a stream. */
  ghost predicate MaskAt(s: seq<Byte>, start: nat, end: nat, count: nat) {
    start <= end <= |s| && IsMask(s[start..end], count)
  }

  /** One more byte. */
  lemma {:induction false} Longer(s: seq<Byte>, start: nat, end: nat)
    requires start <= end < |s|
    ensures var m, next := s[start..end], s[start..end + 1];
            && NonZero(next) == NonZero(m) + (if s[end] != 0 then 1 else 0)
            && (s[end] != 0 ==> LastUsed(next) == |next|)
            && MaskBits(next) == MaskBits(m) + ByteBits(s[end])
  {
    var next := s[start..end + 1];
    assert next[..|next| - 1] == s[start..end];
  }

  /** No mask with this count ends before another. */
  lemma {:induction false} MaskGoesOn(s: seq<Byte>, start: nat, end: nat, last: nat, count: nat)
    requires start <= end < last && MaskAt(s, start, last, count)
    ensures NonZero(s[start..end]) < count
  {
    var m := s[start..last];
    MoreToCome(m, end - start);
    assert m[..end - start] == s[start..end];
  }

  /** Nor after it. */
  lemma {:induction false} MaskStops(s: seq<Byte>, start: nat, end: nat, last: nat, count: nat)
    requires start <= end <= |s| && MaskAt(s, start, last, count) && NonZero(s[start..end]) < count
    ensures end < last
  {
    if last <= end {
      assert s[start..end][..last - start] == s[start..last];
      NonZeroMono(s[start..end], last - start);
    }
  }

  /** A mask that stands in the stream is read, and none other. */
  method ReadMask(s: seq<Byte>, start: nat, count: nat, two: seq<bool>, ghost last: nat)
    returns (vAvail: Option<seq<bool>>, end: nat)
    requires start <= |s|
    ensures start <= end <= |s|
    ensures vAvail.Some? ==> MaskAt(s, start, end, count) && vAvail.value == two + MaskBits(s[start..end])
    ensures MaskAt(s, start, last, count) ==> vAvail.Some? && end == last
  {
    ghost var good := MaskAt(s, start, last, count);
    var v, nMaskCode := two, count;
    end := start;
    while nMaskCode > 0
      invariant start <= end <= |s| && nMaskCode >= 0 && NonZero(s[start..end]) == count - nMaskCode
      invariant v == two + MaskBits(s[start..end])
      invariant nMaskCode == 0 ==> IsMask(s[start..end], count)
      invariant good ==> end <= last
      decreases |s| - end
    {
      if good { MaskStops(s, start, end, last, count); }
      if end == |s| {
        return None, end;
      }
      var chAvail := s[end];
      Longer(s, start, end);
      v := AppendBits(v, chAvail);
      if chAvail != 0 {
        nMaskCode := nMaskCode - 1;
      }
      end := end + 1;
    }
    if good && end < last { MaskGoesOn(s, start, end, last, count); }
    vAvail := Some(v);
  }

  /** An integer as its two's complement type has it. */
  function Signed(n: nat, half: nat): int {
    if n < half then n else n - 2 * half
  }

  /** A number in the 64-bit type of amounts. */
  function AsAmount(n: nat): (r: int)
    ensures n <= Amounts.MAX_MONEY ==> r == n
  {
    Signed(n % Amounts.TWO64, Amounts.TWO64 / 2)
  }

  /** The amount of the number in front of an output. */
  function AmountOf(code: nat): int {
    AsAmount(Amounts.Decompressed(code % Amounts.TWO64))
  }

  /** An amount stands in a stream. */
  ghost predicate AmountStands(s: seq<Byte>, start: nat, end: nat, nValue: int) {
    exists n: nat :: NumberAt(s, start, end, n) && nValue == AmountOf(n)
  }

  method ReadAmount(s: seq<Byte>, start: nat, ghost last: nat, ghost nValue: int) returns (r: Option<int>, end: nat)
    requires start <= |s|
    ensures start <= end <= |s|
    ensures r.Some? ==> AmountStands(s, start, end, r.value)
    ensures AmountStands(s, start, last, nValue) ==> r == Some(nValue) && end == last
  {
    ghost var code: nat := 0;
    if AmountStands(s, start, last, nValue) {
      code :| NumberAt(s, start, last, code) && nValue == AmountOf(code);
    }
    var nVal;
    ghost var value;
    nVal, end, value := ReadNumber(s, start, Amounts.TWO64, last, code);
    if nVal.None? {
      return None, end;
    }
    var n := Amounts.DecompressAmount(nVal.value);
    r := Some(AsAmount(n));
  }

  /** An output stands in a stream, its amount up to `mid`. */
  ghost predicate OutAt(cv: Curve, s: seq<Byte>, start: nat, mid: nat, end: nat, o: TxOut) {
    start <= mid <= |s| && AmountStands(s, start, mid, o.nValue) && ScriptStands(cv, s, mid, end, o.script)
  }

  ghost predicate OutStands(cv: Curve, s: seq<Byte>, start: nat, end: nat, o: TxOut) {
    exists mid :: OutAt(cv, s, start, mid, end, o)
  }

  /** An output that stands in the stream is read, and none other. */
  method ReadOut(cv: Curve, s: seq<Byte>, start: nat, ghost last: nat, ghost o: TxOut)
    returns (r: Option<TxOut>, end: nat)
    requires start <= |s|
    ensures start <= end <= |s|
    ensures r.Some? ==> OutStands(cv, s, start, end, r.value)
    ensures OutStands(cv, s, start, last, o) ==> r == Some(o) && end == last
  {
    ghost var m: nat := 0;
    if OutStands(cv, s, start, last, o) {
      m :| OutAt(cv, s, start, m, last, o);
    }
    var nValue, script;
    nValue, end := ReadAmount(s, start, m, o.nValue);
    if nValue.None? {
      return None, end;
    }
    ghost var mid := end;
    script, end := ReadScript(cv, s, end, last, o.script);
    if script.None? {
      return None, end;
    }
    r := Some(TxOut(nValue.value, script.value));
    assert OutAt(cv, s, start, mid, end, r.value);
  }

  /** An output stands in the stream if the mask says so, and is blank if not. */
  ghost predicate SlotAt(cv: Curve, s: seq<Byte>, start: nat, end: nat, avail: bool, o: TxOut) {
    start <= |s| && if avail then OutStands(cv, s, start, end, o) else o == NULL_OUT && end == start
  }

  /** Says whether an output stands between two places, given its bit in the mask. */
  type Judge = (nat, nat, bool, TxOut) -> bool

  ghost function Slots(cv: Curve, s: seq<Byte>): Judge {
    (start: nat, end: nat, avail: bool, o: TxOut) => SlotAt(cv, s, start, end, avail, o)
  }

  ghost predicate Judges(slot: Judge, cv: Curve, s: seq<Byte>) {
    forall start: nat, end: nat, avail, o {:trigger SlotAt(cv, s, start, end, avail, o)} ::
      slot(start, end, avail, o) <==> SlotAt(cv, s, start, end, avail, o)
  }

  /** Outputs stand in a stream, one after the other. */
  ghost predicate OutsStand(slot: Judge, start: nat, end: nat, vAvail: seq<bool>, vout: seq<TxOut>)
    decreases |vAvail|
  {
    && |vAvail| == |vout|
    && if vAvail == [] then start == end
       else exists mid: nat :: slot(start, mid, vAvail[0], vout[0]) && OutsStand(slot, mid, end, vAvail[1..], vout[1..])
  }

  /** One step of the loop over the outputs. */
  method ReadNextOut(cv: Curve, s: seq<Byte>, start: nat, avail: bool, ghost slot: Judge, ghost last: nat,
                     ghost o: TxOut)
    returns (r: Option<TxOut>, end: nat)
    requires start <= |s| && Judges(slot, cv, s)
    ensures start <= end <= |s|
    ensures r.Some? ==> slot(start, end, avail, r.value)
    ensures slot(start, last, avail, o) ==> r == Some(o) && end == last
  {
    assert slot(start, last, avail, o) <==> SlotAt(cv, s, start, last, avail, o);
    if avail {
      r, end := ReadOut(cv, s, start, last, o);
    } else {
      r, end := Some(NULL_OUT), start;
    }
    assert r.Some? ==> SlotAt(cv, s, start, end, avail, r.value);
  }

  /** One more output. */
  lemma {:induction false} OutsNext(slot: Judge, start: nat, mid: nat, end: nat, vAvail: seq<bool>, vout: seq<TxOut>,
                                    avail: bool, o: TxOut)
    requires OutsStand(slot, start, mid, vAvail, vout) && slot(mid, end, avail, o)
    ensures OutsStand(slot, start, end, vAvail + [avail], vout + [o])
    decreases |vAvail|
  {
    if vAvail == [] {
      assert OutsStand(slot, end, end, [], []);
      assert (vAvail + [avail])[1..] == [] && (vout + [o])[1..] == [];
    } else {
      var first: nat :| slot(start, first, vAvail[0], vout[0]) && OutsStand(slot, first, mid, vAvail[1..], vout[1..]);
      OutsNext(slot, first, mid, end, vAvail[1..], vout[1..], avail, o);
      assert (vAvail + [avail])[1..] == vAvail[1..] + [avail] && (vout + [o])[1..] == vout[1..] + [o];
    }
  }

  /** The first of some outputs. */
  lemma {:induction false} FirstOut(slot: Judge, start: nat, end: nat, vAvail: seq<bool>, vout: seq<TxOut>, k: nat)
    returns (mid: nat)
    requires |vAvail| == |vout| && k < |vout| && OutsStand(slot, start, end, vAvail[k..], vout[k..])
    ensures slot(start, mid, vAvail[k], vout[k]) && OutsStand(slot, mid, end, vAvail[k + 1..], vout[k + 1..])
  {
    var a, v := vAvail[k..], vout[k..];
    mid :| slot(start, mid, a[0], v[0]) && OutsStand(slot, mid, end, a[1..], v[1..]);
    assert a[1..] == vAvail[k + 1..] && v[1..] == vout[k + 1..];
  }

  /** Outputs that stand in the stream are read, and none other. */
  method ReadOuts(cv: Curve, s: seq<Byte>, start: nat, vAvail: seq<bool>, ghost slot: Judge, ghost last: nat,
                  ghost vout: seq<TxOut>)
    returns (r: Option<seq<TxOut>>, end: nat)
    requires start <= |s| && Judges(slot, cv, s)
    ensures start <= end <= |s|
    ensures r.Some? ==> OutsStand(slot, start, end, vAvail, r.value)
    ensures OutsStand(slot, start, last, vAvail, vout) ==> r == Some(vout) && end == last
  {
    ghost var good := OutsStand(slot, start, last, vAvail, vout);
    var v := [];
    end := start;
    assert vAvail[0..] == vAvail && (good ==> vout[0..] == vout);
    while |v| < |vAvail|
      invariant |v| <= |vAvail| && start <= end <= |s|
      invariant OutsStand(slot, start, end, vAvail[..|v|], v)
      invariant good ==> |vout| == |vAvail| && v == vout[..|v|]
      invariant good ==> OutsStand(slot, end, last, vAvail[|v|..], vout[|v|..])
    {
      ghost var k, mid := |v|, end;
      ghost var o, next: nat := NULL_OUT, 0;
      if good {
        o := vout[k];
        next := FirstOut(slot, end, last, vAvail, vout, k);
      }
      var out;
      out, end := ReadNextOut(cv, s, end, vAvail[|v|], slot, next, o);
      if out.None? {
        return None, end;
      }
      OutsNext(slot, start, mid, end, vAvail[..k], v, vAvail[k], out.value);
      assert vAvail[..k + 1] == vAvail[..k] + [vAvail[k]];
      v := v + [out.value];
    }
    assert vAvail[..|v|] == vAvail;
    if good {
      assert vout[..|v|] == vout;
    }
    r := Some(v);
  }

  /** What the reader takes from the code. */
  function CodeFlags(code: nat): seq<bool> {
    [code / 2 % 2 == 1, code / 4 % 2 == 1]
  }

  function CodeCount(code: nat): nat {
    code / 8 + if code / 2 % 4 != 0 then 0 else 1
  }

  /** What the parts of stored coins say, and where they end. */
  datatype Record = Record(version: nat, versionEnd: nat, code: nat, codeEnd: nat, maskEnd: nat,
                           vout: seq<TxOut>, voutEnd: nat, height: nat)

  /** The header stands in a stream. */
  ghost predicate HeaderAt(s: seq<Byte>, w: Record) {
    NumberAt(s, 0, w.versionEnd, w.version) && NumberAt(s, w.versionEnd, w.codeEnd, w.code)
  }

  /** The mask and the outputs stand behind the header. */
  ghost predicate BodyAt(slot: Judge, s: seq<Byte>, w: Record) {
    var code := w.code % TWO32;
    && MaskAt(s, w.codeEnd, w.maskEnd, CodeCount(code))
    && OutsStand(slot, w.maskEnd, w.voutEnd, CodeFlags(code) + MaskBits(s[w.codeEnd..w.maskEnd]), w.vout)
  }

  /** The coins of a record. */
  function CoinsOf(w: Record): Coins {
    Cleaned(Coins(w.code % TWO32 % 2 == 1, w.vout, Signed(w.height % TWO32, TWO31), Signed(w.version % TWO32, TWO31)))
  }

  /** Coins stand in a stream. */
  ghost predicate CoinsAt(slot: Judge, s: seq<Byte>, end: nat, c: Coins, w: Record) {
    && HeaderAt(s, w) && BodyAt(slot, s, w) && NumberAt(s, w.voutEnd, end, w.height)
    && c == CoinsOf(w)
  }

  method ReadHeader(s: seq<Byte>, ghost w: Record)
    returns (nVersion: Option<nat>, nCode: Option<nat>, end: nat, ghost rec: Record)
    ensures end <= |s|
    ensures nVersion.Some? && nCode.Some? ==>
      HeaderAt(s, rec) && end == rec.codeEnd && nVersion.value == rec.version % TWO32 && nCode.value == rec.code % TWO32
    ensures HeaderAt(s, w) ==> nVersion.Some? && nCode.Some? && rec == w
  {
    nVersion, nCode, rec := None, None, w;
    ghost var version, versionEnd, code;
    nVersion, end, version := ReadNumber(s, 0, TWO32, w.versionEnd, w.version);
    if nVersion.None? {
      return;
    }
    versionEnd := end;
    nCode, end, code := ReadNumber(s, end, TWO32, w.codeEnd, w.code);
    rec := w.(version := version, versionEnd := versionEnd, code := code, codeEnd := end);
  }

  method ReadBody(cv: Curve, s: seq<Byte>, start: nat, nCode: nat, ghost slot: Judge, ghost w: Record)
    returns (r: Option<seq<TxOut>>, end: nat, ghost rec: Record)
    requires start == w.codeEnd <= |s| && nCode == w.code % TWO32 && Judges(slot, cv, s)
    ensures end <= |s|
    ensures r.Some? ==> BodyAt(slot, s, rec) && rec == w.(maskEnd := rec.maskEnd, vout := r.value, voutEnd := end)
    ensures BodyAt(slot, s, w) ==> r == Some(w.vout) && rec == w
  {
    rec := w;
    var vAvail;
    vAvail, end := ReadMask(s, start, CodeCount(nCode), CodeFlags(nCode), w.maskEnd);
    if vAvail.None? {
      return None, end, rec;
    }
    ghost var maskEnd := end;
    r, end := ReadOuts(cv, s, end, vAvail.value, slot, w.voutEnd, w.vout);
    if r.Some? {
      rec := w.(maskEnd := maskEnd, vout := r.value, voutEnd := end);
    }
  }

  ghost predicate StandsFor(slot: Judge, s: seq<Byte>, end: nat, c: Coins) {
    exists w :: CoinsAt(slot, s, end, c, w)
  }

  /** Some coins stand in a stream. */
  ghost predicate Holds(cv: Curve, s: seq<Byte>, end: nat, c: Coins) {
    StandsFor(Slots(cv, s), s, end, c)
  }

  /** `CCoins::Unserialize`: coins that stand in the stream are read, and none other. */
  method Unserialize(cv: Curve, s: seq<Byte>, ghost last: nat, ghost c: Coins) returns (r: Option<Coins>, end: nat)
    ensures end <= |s|
    ensures r.Some? ==> Holds(cv, s, end, r.value)
    ensures Holds(cv, s, last, c) ==> r == Some(c) && end == last
  {
    ghost var w := Record(0, 0, 0, 0, 0, [], 0, 0);
    if Holds(cv, s, last, c) {
      w :| CoinsAt(Slots(cv, s), s, last, c, w);
    }
    ghost var rec;
    r, end, rec := ReadCoins(cv, s, Slots(cv, s), last, c, w);
  }

  method ReadCoins(cv: Curve, s: seq<Byte>, ghost slot: Judge, ghost last: nat, ghost c: Coins, ghost w: Record)
    returns (r: Option<Coins>, end: nat, ghost rec: Record)
    requires Judges(slot, cv, s)
    ensures end <= |s|
    ensures r.Some? ==> CoinsAt(slot, s, end, r.value, rec)
    ensures CoinsAt(slot, s, last, c, w) ==> r == Some(c) && end == last
  {
    var nVersion, nCode, vout, nHeight;
    ghost var height;
    nVersion, nCode, end, rec := ReadHeader(s, w);
    if nVersion.None? || nCode.None? {
      return None, end, rec;
    }
    vout, end, rec := ReadBody(cv, s, end, nCode.value, slot, rec);
    if vout.None? {
      return None, end, rec;
    }
    nHeight, end, height := ReadNumber(s, end, TWO32, last, w.height);
    if nHeight.None? {
      return None, end, rec;
    }
    rec := rec.(height := height);
    var read := Coins(nCode.value % 2 == 1, vout.value, Signed(nHeight.value, TWO31), Signed(nVersion.value, TWO31));
    var clean := Cleanup(read);
    r := Some(clean);
  }

  // ---------------------------------------------------------------- the round trip

  /** Which of the first `n` outputs are unspent. */
  function Flags(vout: seq<TxOut>, n: nat): seq<bool> {
    seq(n, i requires 0 <= i < n => Unspent(vout, i))
  }

  /** The mask has the bits of the outputs. */
  lemma {:induction false} MaskFlags(vout: seq<TxOut>, k: nat)
    requires k <= Span(vout)
    ensures Flags(vout, 2) + MaskBits(Mask(vout)[..k]) == Flags(vout, 2 + 8 * k)
  {
    var m := Mask(vout)[..k];
    if k > 0 {
      assert m[..k - 1] == Mask(vout)[..k - 1];
      MaskFlags(vout, k - 1);
      FlagsNext(vout, k - 1);
    }
  }

  lemma {:induction false} FlagsNext(vout: seq<TxOut>, b: nat)
    ensures Flags(vout, 2 + 8 * b) + ByteBits(MaskByte(vout, b)) == Flags(vout, 2 + 8 * (b + 1))
  {
    var bits := ByteBits(MaskByte(vout, b));
    forall p | 0 <= p < 8 ensures bits[p] == Unspent(vout, 2 + 8 * b + p) {
      BitIs(vout, 2 + 8 * b, 8, p);
    }
    assert Flags(vout, 2 + 8 * b) + bits == Flags(vout, 2 + 8 * (b + 1));
  }

  /** A written mask stands in the stream. */
  lemma {:induction false} WrittenMask(vout: seq<TxOut>, n: nat, s: seq<Byte>, start: nat, end: nat)
    requires n == LastUsed(Mask(vout)) <= |Mask(vout)| && Stands(s, start, end, Mask(vout)[..n])
    ensures MaskAt(s, start, end, NonZero(Mask(vout)))
    ensures Flags(vout, 2) + MaskBits(s[start..end]) == Flags(vout, 2 + 8 * n)
  {
    LastUsedIs(Mask(vout));
    LastUsedAgain(Mask(vout));
    MaskFlags(vout, n);
  }

  lemma {:induction false} LastUsedAgain(m: seq<Byte>)
    requires LastUsed(m) <= |m|
    ensures LastUsed(m[..LastUsed(m)]) == LastUsed(m)
  {
    if m != [] {
      var init := m[..|m| - 1];
      if m[|m| - 1] != 0 {
        assert m[..LastUsed(m)] == m;
      } else {
        LastUsedIs(init);
        LastUsedAgain(init);
        assert m[..LastUsed(m)] == init[..LastUsed(m)];
      }
    }
  }

  /** An output that consensus allows. */
  predicate OutOk(o: TxOut) {
    0 <= o.nValue <= Amounts.MAX_MONEY && |o.script| + SPECIAL_SCRIPTS < TWO32
  }

  lemma {:induction false} AmountCode(n: nat) returns (code: nat)
    requires n <= Amounts.MAX_MONEY
    ensures code == Amounts.Compressed(n % Amounts.TWO64) && AmountOf(code) == n
  {
    Fits(n, Amounts.TWO64);
    code := Amounts.Compressed(n);
    Amounts.CompressedFits(n);
    Fits(code, Amounts.TWO64);
    Amounts.DecompressCompress(n);
  }

  /** A written output stands in the stream. */
  lemma {:induction false} WrittenOut(cv: Curve, o: TxOut, s: seq<Byte>, start: nat, end: nat)
    requires CurveOk(cv) && OutOk(o) && Stands(s, start, end, OutBytes(cv, o))
    ensures OutStands(cv, s, start, end, o)
  {
    var code := AmountCode(o.nValue);
    WrittenPair(cv, o, code, s, start, end);
  }

  lemma {:induction false} WrittenPair(cv: Curve, o: TxOut, code: nat, s: seq<Byte>, start: nat, end: nat)
    requires CurveOk(cv) && AmountOf(code) == o.nValue && |o.script| + SPECIAL_SCRIPTS < TWO32
    requires Stands(s, start, end, VarBytes(code) + ScriptBytes(cv, o.script))
    ensures OutStands(cv, s, start, end, o)
  {
    var mid := start + |VarBytes(code)|;
    Halves(s, start, end, VarBytes(code), ScriptBytes(cv, o.script));
    assert NumberAt(s, start, mid, code);
    WrittenScript(cv, s, mid, end, o.script);
    assert OutAt(cv, s, start, mid, end, o);
  }

  /** The outputs as stored: spent ones are blank, the others allowed. */
  ghost predicate OutsOk(vout: seq<TxOut>) {
    forall i :: StoredOut(vout, i)
  }

  ghost predicate StoredOut(vout: seq<TxOut>, i: int) {
    0 <= i < |vout| ==> if vout[i].IsNull() then vout[i] == NULL_OUT else OutOk(vout[i])
  }

  /** The parts are what is written for the outputs. */
  ghost predicate PartsOf(cv: Curve, vout: seq<TxOut>, parts: seq<seq<Byte>>) {
    |parts| == |vout| && forall i :: PartOf(cv, vout, parts, i)
  }

  ghost predicate PartOf(cv: Curve, vout: seq<TxOut>, parts: seq<seq<Byte>>, i: int) {
    0 <= i < |vout| && i < |parts| ==> parts[i] == PartBytes(cv, vout[i])
  }

  lemma {:induction false} OutPartsAre(cv: Curve, vout: seq<TxOut>) returns (parts: seq<seq<Byte>>)
    ensures PartsOf(cv, vout, parts) && Together(parts, |vout|) == OutsBytes(cv, vout)
  {
    parts := OutParts(cv, vout);
    forall i ensures PartOf(cv, vout, parts, i) {}
  }

  /** The outputs and blanks after them. */
  function Padded(vout: seq<TxOut>, n: nat): seq<TxOut> {
    seq(n, i requires 0 <= i < n => PaddedAt(vout, i))
  }

  function PaddedAt(vout: seq<TxOut>, i: nat): TxOut {
    if i < |vout| then vout[i] else NULL_OUT
  }

  /** What stands in the stream for one output. */
  lemma {:induction false} WrittenPart(cv: Curve, o: TxOut, s: seq<Byte>, start: nat, end: nat)
    requires CurveOk(cv) && (if o.IsNull() then o == NULL_OUT else OutOk(o)) && Stands(s, start, end, PartBytes(cv, o))
    ensures SlotAt(cv, s, start, end, !o.IsNull(), o)
  {
    if !o.IsNull() {
      WrittenOut(cv, o, s, start, end);
    }
  }

  /** Where a part stands, its output does. */
  ghost predicate Covers(slot: Judge, s: seq<Byte>, vout: seq<TxOut>, parts: seq<seq<Byte>>) {
    forall i: nat, start: nat, end: nat :: Covered(slot, s, vout, parts, i, start, end)
  }

  ghost predicate Covered(slot: Judge, s: seq<Byte>, vout: seq<TxOut>, parts: seq<seq<Byte>>, i: nat, start: nat,
                          end: nat)
  {
    i < |parts| && i < |vout| && Stands(s, start, end, parts[i]) ==> slot(start, end, Unspent(vout, i), vout[i])
  }

  /** Written outputs stand in the stream. */
  lemma {:induction false} WrittenOuts(slot: Judge, vout: seq<TxOut>, parts: seq<seq<Byte>>, n: nat, s: seq<Byte>,
                                       start: nat, end: nat)
    requires |parts| == |vout| && Covers(slot, s, vout, parts) && n <= |vout|
    requires Stands(s, start, end, Together(parts, n))
    ensures OutsStand(slot, start, end, Flags(vout, n), Padded(vout, n))
  {
    if n == 0 {
      assert Flags(vout, 0) == [] && Padded(vout, 0) == [];
    } else {
      var i, before := n - 1, Together(parts, n - 1);
      Halves(s, start, end, before, parts[i]);
      WrittenOuts(slot, vout, parts, i, s, start, start + |before|);
      assert Covered(slot, s, vout, parts, i, start + |before|, end);
      OneMore(slot, vout, i, start, start + |before|, end);
    }
  }

  lemma {:induction false} OneMore(slot: Judge, vout: seq<TxOut>, n: nat, start: nat, mid: nat, end: nat)
    requires OutsStand(slot, start, mid, Flags(vout, n), Padded(vout, n))
    requires slot(mid, end, Unspent(vout, n), PaddedAt(vout, n))
    ensures OutsStand(slot, start, end, Flags(vout, n + 1), Padded(vout, n + 1))
  {
    OutsNext(slot, start, mid, end, Flags(vout, n), Padded(vout, n), Unspent(vout, n), PaddedAt(vout, n));
    assert Flags(vout, n + 1) == Flags(vout, n) + [Unspent(vout, n)];
    assert Padded(vout, n + 1) == Padded(vout, n) + [PaddedAt(vout, n)];
  }

  /** Blanks take no room. */
  lemma {:induction false} BlanksAfter(slot: Judge, vout: seq<TxOut>, n: nat, start: nat, end: nat)
    requires OutsStand(slot, start, end, Flags(vout, |vout|), Padded(vout, |vout|)) && |vout| <= n
    requires slot(end, end, false, NULL_OUT)
    ensures OutsStand(slot, start, end, Flags(vout, n), Padded(vout, n))
  {
    if n > |vout| {
      BlanksAfter(slot, vout, n - 1, start, end);
      OneMore(slot, vout, n - 1, start, end, end);
    }
  }

  /** Coins that a node stores. */
  ghost predicate Storable(c: Coins) {
    && c.IsClean() && !c.IsPruned() && OutsOk(c.vout) && |c.vout| < TWO31
    && -TWO31 <= c.nVersion < TWO31 && -TWO31 <= c.nHeight < TWO31
  }

  /** What comes back of an integer: a negative one loses all but seven bits. */
  function Low(n: int): nat {
    if n < 0 then n % 128 else n
  }

  lemma {:induction false} LowBytes(n: int)
    requires -TWO31 <= n < TWO31
    ensures VarBytes(n) == VarBytes(Low(n)) && Signed(Low(n) % TWO32, TWO31) == Low(n)
  {
    Fits(Low(n), TWO32);
  }

  function Kept(c: Coins): Coins {
    c.(nVersion := Low(c.nVersion), nHeight := Low(c.nHeight))
  }

  /** Coins come back unchanged exactly if version and height are not negative. */
  lemma {:induction false} KeptIs(c: Coins)
    ensures Kept(c) == c <==> c.nVersion >= 0 && c.nHeight >= 0
  {
  }

  /** Clean outputs end within the mask. */
  lemma {:induction false} MaskCovers(c: Coins)
    requires c.IsClean()
    ensures |c.vout| <= 2 + 8 * LastUsed(Mask(c.vout))
  {
    if |c.vout| > 2 {
      UsedCovers(c.vout, |c.vout| - 1);
    }
  }

  lemma {:induction false} CodeNumbers(k: nat, a: nat, b: nat, d: nat)
    requires a <= 1 && b <= 1 && d <= 1
    ensures var code := 8 * k + a + 2 * b + 4 * d;
            code % 2 == a && code / 2 % 2 == b && code / 4 % 2 == d && code / 8 == k && code / 2 % 4 == b + 2 * d
  {
    var code := 8 * k + a + 2 * b + 4 * d;
    DivModUnique(code, 2, 4 * k + b + 2 * d, a);
    DivModUnique(code, 4, 2 * k + d, a + 2 * b);
    DivModUnique(code, 8, k, a + 2 * b + 4 * d);
    DivModUnique(4 * k + b + 2 * d, 2, 2 * k + d, b);
    DivModUnique(4 * k + b + 2 * d, 4, k, b + 2 * d);
    DivModUnique(2 * k + d, 2, k, d);
  }

  /** The reader finds its header in the code. */
  lemma {:induction false} CodeParts(c: Coins)
    requires !c.IsPruned() && |c.vout| < TWO31
    ensures 0 <= HeaderCode(c) < TWO32
    ensures (HeaderCode(c) % 2 == 1 <==> c.fBlockReward) && CodeFlags(HeaderCode(c)) == Flags(c.vout, 2)
    ensures CodeCount(HeaderCode(c)) == NonZero(Mask(c.vout))
  {
    SomethingLeft(c);
    LastUsedIs(Mask(c.vout));
    var first, second := Unspent(c.vout, 0), Unspent(c.vout, 1);
    CodeNumbers(NonZero(Mask(c.vout)) - Bit(!first && !second, 1), Bit(c.fBlockReward, 1), Bit(first, 1),
                Bit(second, 1));
  }

  /** Trimming the padded outputs gives the outputs. */
  lemma {:induction false} TrimPadded(c: Coins, n: nat)
    requires c.IsClean() && |c.vout| <= n
    ensures Trimmed(Padded(c.vout, n)) == c.vout
  {
    assert Padded(c.vout, n)[..|c.vout|] == c.vout;
    TrimmedUnique(Padded(c.vout, n), c.vout);
  }

  /** The record of written coins gives the coins. */
  lemma {:induction false} RecordOf(c: Coins, w: Record)
    requires Storable(c) && w.code == HeaderCode(c) && w.version == Low(c.nVersion) && w.height == Low(c.nHeight)
    requires w.vout == Padded(c.vout, 2 + 8 * LastUsed(Mask(c.vout)))
    ensures CoinsOf(w) == Kept(c)
  {
    RewardBit(c);
    LowBytes(c.nVersion);
    LowBytes(c.nHeight);
    MaskCovers(c);
    CleanedPadded(c, 2 + 8 * LastUsed(Mask(c.vout)));
  }

  lemma {:induction false} CleanedPadded(c: Coins, n: nat)
    requires c.IsClean() && |c.vout| <= n
    ensures Cleaned(Coins(c.fBlockReward, Padded(c.vout, n), Low(c.nHeight), Low(c.nVersion))) == Kept(c)
  {
    TrimPadded(c, n);
  }

  lemma {:induction false} RewardBit(c: Coins)
    requires !c.IsPruned() && |c.vout| < TWO31
    ensures HeaderCode(c) % TWO32 % 2 == 1 <==> c.fBlockReward
  {
    CodeParts(c);
    Fits(HeaderCode(c), TWO32);
  }

  lemma {:induction false} WrittenCovers(cv: Curve, slot: Judge, vout: seq<TxOut>, parts: seq<seq<Byte>>, s: seq<Byte>)
    requires CurveOk(cv) && OutsOk(vout) && PartsOf(cv, vout, parts) && Judges(slot, cv, s)
    ensures Covers(slot, s, vout, parts)
  {
    forall i: nat, start: nat, end: nat ensures Covered(slot, s, vout, parts, i, start, end) {
      if i < |parts| && Stands(s, start, end, parts[i]) {
        assert StoredOut(vout, i) && PartOf(cv, vout, parts, i);
        WrittenPart(cv, vout[i], s, start, end);
      }
    }
  }

  /** All outputs stand in the stream, and blanks up to the end of the mask. */
  lemma {:induction false} WrittenAll(cv: Curve, slot: Judge, vout: seq<TxOut>, n: nat, s: seq<Byte>, start: nat,
                                      end: nat)
    requires CurveOk(cv) && OutsOk(vout) && Stands(s, start, end, OutsBytes(cv, vout)) && |vout| <= n
    requires Judges(slot, cv, s)
    ensures OutsStand(slot, start, end, Flags(vout, n), Padded(vout, n))
  {
    var parts := OutPartsAre(cv, vout);
    WrittenCovers(cv, slot, vout, parts, s);
    WrittenOuts(slot, vout, parts, |vout|, s, start, end);
    assert SlotAt(cv, s, end, end, false, NULL_OUT);
    BlanksAfter(slot, vout, n, start, end);
  }

  /** The record of written coins. */
  ghost predicate RecordFor(c: Coins, n: nat, w: Record) {
    && w.version == Low(c.nVersion) && w.code == HeaderCode(c) && w.height == Low(c.nHeight)
    && w.vout == Padded(c.vout, 2 + 8 * n)
  }

  /** The mask of the outputs stands in the stream, with the flags of `2 + 8 * n` outputs. */
  ghost predicate FlagsAt(vout: seq<TxOut>, n: nat, s: seq<Byte>, start: nat, end: nat) {
    MaskAt(s, start, end, NonZero(Mask(vout))) && Flags(vout, 2) + MaskBits(s[start..end]) == Flags(vout, 2 + 8 * n)
  }

  lemma {:induction false} BodyFor(slot: Judge, c: Coins, n: nat, s: seq<Byte>, w: Record)
    requires !c.IsPruned() && |c.vout| < TWO31 && RecordFor(c, n, w) && FlagsAt(c.vout, n, s, w.codeEnd, w.maskEnd)
    requires OutsStand(slot, w.maskEnd, w.voutEnd, Flags(c.vout, 2 + 8 * n), w.vout)
    ensures BodyAt(slot, s, w)
  {
    CodeParts(c);
    Fits(HeaderCode(c), TWO32);
  }

  /** Where the parts of written coins end. */
  datatype Ends = Ends(version: nat, code: nat, mask: nat, outs: nat, end: nat)

  /** The parts of a stream stand one after the other. */
  ghost predicate PartsAt(s: seq<Byte>, version: seq<Byte>, code: seq<Byte>, mask: seq<Byte>, outs: seq<Byte>,
                          height: seq<Byte>, e: Ends)
  {
    && Stands(s, 0, e.version, version) && Stands(s, e.version, e.code, code) && Stands(s, e.code, e.mask, mask)
    && Stands(s, e.mask, e.outs, outs) && Stands(s, e.outs, e.end, height)
  }

  lemma {:induction false} PartsStand(s: seq<Byte>, version: seq<Byte>, code: seq<Byte>, mask: seq<Byte>,
                                      outs: seq<Byte>, height: seq<Byte>, end: nat)
    returns (e: Ends)
    requires Stands(s, 0, end, version + (code + (mask + (outs + height))))
    ensures PartsAt(s, version, code, mask, outs, height, e) && e.end == end
  {
    Halves(s, 0, end, version, code + (mask + (outs + height)));
    var a := |version|;
    Halves(s, a, end, code, mask + (outs + height));
    var b := a + |code|;
    Halves(s, b, end, mask, outs + height);
    var d := b + |mask|;
    Halves(s, d, end, outs, height);
    e := Ends(a, b, d, d + |outs|, end);
  }

  /** The record of written coins whose parts end there. */
  function RecordAt(c: Coins, n: nat, e: Ends): Record
    requires HeaderCode(c) >= 0
  {
    Record(Low(c.nVersion), e.version, HeaderCode(c), e.code, e.mask, Padded(c.vout, 2 + 8 * n), e.outs, Low(c.nHeight))
  }

  /** The record whose parts stand there holds the coins. */
  lemma {:induction false} BodyHolds(slot: Judge, c: Coins, n: nat, s: seq<Byte>, e: Ends)
    requires Storable(c) && HeaderCode(c) >= 0 && n == LastUsed(Mask(c.vout)) && HeaderAt(s, RecordAt(c, n, e))
    requires FlagsAt(c.vout, n, s, e.code, e.mask) && NumberAt(s, e.outs, e.end, Low(c.nHeight))
    requires OutsStand(slot, e.mask, e.outs, Flags(c.vout, 2 + 8 * n), Padded(c.vout, 2 + 8 * n))
    ensures StandsFor(slot, s, e.end, Kept(c))
  {
    var w := RecordAt(c, n, e);
    RecordOf(c, w);
    BodyFor(slot, c, n, s, w);
    assert CoinsAt(slot, s, e.end, Kept(c), w);
  }

  lemma {:induction false} WrittenNumbers(c: Coins, n: nat, s: seq<Byte>, e: Ends)
    requires Storable(c) && HeaderCode(c) >= 0
    requires Stands(s, 0, e.version, VarBytes(c.nVersion)) && Stands(s, e.version, e.code, VarBytes(HeaderCode(c)))
    requires Stands(s, e.outs, e.end, VarBytes(c.nHeight))
    ensures HeaderAt(s, RecordAt(c, n, e)) && NumberAt(s, e.outs, e.end, Low(c.nHeight))
  {
    LowBytes(c.nVersion);
    LowBytes(c.nHeight);
  }

  lemma {:induction false} WrittenParts(cv: Curve, slot: Judge, c: Coins, n: nat, s: seq<Byte>, e: Ends)
    requires CurveOk(cv) && Storable(c) && n == LastUsed(Mask(c.vout)) && Judges(slot, cv, s)
    requires Stands(s, 0, e.version, VarBytes(c.nVersion)) && Stands(s, e.version, e.code, VarBytes(HeaderCode(c)))
    requires FlagsAt(c.vout, n, s, e.code, e.mask)
    requires Stands(s, e.mask, e.outs, OutsBytes(cv, c.vout)) && Stands(s, e.outs, e.end, VarBytes(c.nHeight))
    ensures StandsFor(slot, s, e.end, Kept(c))
  {
    MaskCovers(c);
    WrittenAll(cv, slot, c.vout, 2 + 8 * n, s, e.mask, e.outs);
    WrittenRecord(slot, c, n, s, e);
  }

  lemma {:induction false} CodePositive(c: Coins)
    requires !c.IsPruned() && |c.vout| < TWO31
    ensures HeaderCode(c) >= 0
  {
    CodeParts(c);
  }

  lemma {:induction false} WrittenRecord(slot: Judge, c: Coins, n: nat, s: seq<Byte>, e: Ends)
    requires Storable(c) && n == LastUsed(Mask(c.vout)) && FlagsAt(c.vout, n, s, e.code, e.mask)
    requires Stands(s, 0, e.version, VarBytes(c.nVersion)) && Stands(s, e.version, e.code, VarBytes(HeaderCode(c)))
    requires OutsStand(slot, e.mask, e.outs, Flags(c.vout, 2 + 8 * n), Padded(c.vout, 2 + 8 * n))
    requires Stands(s, e.outs, e.end, VarBytes(c.nHeight))
    ensures StandsFor(slot, s, e.end, Kept(c))
  {
    CodePositive(c);
    WrittenNumbers(c, n, s, e);
    BodyHolds(slot, c, n, s, e);
  }

  /** Written coins stand in the stream. */
  lemma {:induction false} WrittenCoins(cv: Curve, c: Coins, s: seq<Byte>, end: nat)
    requires CurveOk(cv) && Storable(c) && Stands(s, 0, end, CoinsBytes(cv, c))
    ensures Holds(cv, s, end, Kept(c))
  {
    LastUsedIs(Mask(c.vout));
    var n := LastUsed(Mask(c.vout));
    var e := PartsStand(s, VarBytes(c.nVersion), VarBytes(HeaderCode(c)), Mask(c.vout)[..n], OutsBytes(cv, c.vout),
                        VarBytes(c.nHeight), end);
    WrittenMask(c.vout, n, s, e.code, e.mask);
    WrittenParts(cv, Slots(cv, s), c, n, s, e);
  }

  /** Storing and loading gives the same coins, exactly if version and height are not negative. */
  method StoreAndLoad(cv: Curve, c: Coins) returns (same: bool)
    requires CurveOk(cv) && Storable(c)
    ensures same <==> c.nVersion >= 0 && c.nHeight >= 0
  {
    var s := Serialize(cv, c);
    assert s[0..|s|] == s;
    WrittenCoins(cv, c, s, |s|);
    var r, _ := Unserialize(cv, s, |s|, Kept(c));
    KeptIs(c);
    same := r == Some(c);
  }
}
