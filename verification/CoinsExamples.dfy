/** The two stored records that the source describes byte by byte. */
module CoinsExamples {
  import opened Basics
  import opened Powers
  import opened VarInt
  import opened CoinRecords
  import Amounts
  import opened Scripts
  import opened CoinsCodec

  /** The script that pays to a key with this hash. */
  function ToKeyHash(hash: seq<Byte>): seq<Byte> {
    [0x76, 0xA9, 20] + hash + [0x88, 0xAC]
  }

  /** What is stored for an output that pays to a key. */
  lemma {:induction false} KeyOutBytes(cv: Curve, nValue: nat, hash: seq<Byte>, amount: seq<Byte>)
    requires |hash| == 20 && nValue < Amounts.TWO64 && VarBytes(Amounts.Compressed(nValue)) == amount
    ensures OutBytes(cv, TxOut(nValue, ToKeyHash(hash))) == amount + ([0] + hash)
  {
    Fits(nValue, Amounts.TWO64);
    StoredForms(cv, hash, seq(32, _ => 0), seq(32, _ => 0), []);
  }

  /** Parts that are empty add nothing. */
  lemma {:induction false} TogetherSame(parts: seq<seq<Byte>>, i: nat, n: nat)
    requires i <= n <= |parts| && forall k :: i <= k < n ==> parts[k] == []
    ensures Together(parts, n) == Together(parts, i)
  {
    if i < n { TogetherSame(parts, i, n - 1); }
  }

  lemma {:induction false} NumbersOfFirst()
    ensures VarBytes(Amounts.Compressed(60_000_000_000)) == [0x83, 0x58] && VarBytes(203998) == [0x8B, 0xB8, 0x5E]
  {
    Amounts.Tens();
    Amounts.CodeForm(60, 9);
    assert High(3) == [0x83] && VarBytes(600) == High(3) + [0x58];
    assert High(11) == [0x8B] && High(1592) == High(11) + [0xB8];
  }

  /** Version 1, the second of two outputs unspent with 600 coins for a key, at height 203998. */
  lemma {:induction false} FirstRecord(cv: Curve, hash: seq<Byte>)
    requires |hash| == 20
    ensures CoinsBytes(cv, Coins(false, [NULL_OUT, TxOut(60_000_000_000, ToKeyHash(hash))], 203998, 1))
         == [0x01] + ([0x04] + ([] + (([0x83, 0x58] + ([0x00] + hash)) + [0x8B, 0xB8, 0x5E])))
  {
    var out := TxOut(60_000_000_000, ToKeyHash(hash));
    NumbersOfFirst();
    KeyOutBytes(cv, 60_000_000_000, hash, [0x83, 0x58]);
    SecondOnly(cv, out, 203998);
  }

  lemma {:induction false} SecondOnly(cv: Curve, out: TxOut, nHeight: int)
    requires !out.IsNull()
    ensures OutsBytes(cv, [NULL_OUT, out]) == OutBytes(cv, out)
    ensures HeaderCode(Coins(false, [NULL_OUT, out], nHeight, 1)) == 4
    ensures Mask([NULL_OUT, out]) == [] && LastUsed(Mask([NULL_OUT, out])) == 0 && Mask([NULL_OUT, out])[..0] == []
  {
    var vout := [NULL_OUT, out];
    var parts := OutParts(cv, vout);
    assert parts[0] == [] && parts[1] == OutBytes(cv, out);
    assert Together(parts, 1) == [] && Together(parts, 2) == OutBytes(cv, out);
    assert Mask(vout) == [];
    assert !Unspent(vout, 0) && Unspent(vout, 1);
  }

  lemma {:induction false} CodesOfSecond()
    ensures Amounts.Compressed(234_925_952) == 2_114_333_561 && Amounts.Compressed(110_397) == 993_571
  {
    Amounts.Tens();
    Amounts.CodeForm(234_925_952, 0);
    Amounts.CodeForm(110_397, 0);
  }

  lemma {:induction false} NumbersOfSecond()
    ensures VarBytes(2_114_333_561) == [0x86, 0xEF, 0x97, 0xD5, 0x79]
    ensures VarBytes(993_571) == [0xBB, 0xD1, 0x23] && VarBytes(120891) == [0x86, 0xAF, 0x3B]
  {
    assert High(6) == [0x86] && High(1007) == High(6) + [0xEF] && High(129047) == High(1007) + [0x97];
    assert High(16518229) == High(129047) + [0xD5];
    assert High(59) == [0xBB] && High(7761) == High(59) + [0xD1];
    assert High(943) == High(6) + [0xAF];
  }

  /** One unspent output sets one bit. */
  lemma {:induction false} OneBit(vout: seq<TxOut>, first: nat, n: nat, p: nat)
    requires forall i: nat :: first <= i < first + n ==> (Unspent(vout, i) <==> i == first + p)
    ensures Bits(vout, first, n) == if p < n then Pow(2, p) else 0
  {
    if n > 0 { OneBit(vout, first, n - 1, p); }
  }

  /** Seventeen outputs, the fifth and the last unspent. */
  function Sparse(a: TxOut, b: TxOut): seq<TxOut> {
    seq(17, i requires 0 <= i < 17 => if i == 4 then a else if i == 16 then b else NULL_OUT)
  }

  lemma {:induction false} SparseMask(a: TxOut, b: TxOut)
    requires !a.IsNull() && !b.IsNull()
    ensures Mask(Sparse(a, b)) == [0x04, 0x40]
  {
    var v := Sparse(a, b);
    OneBit(v, 2, 8, 2);
    OneBit(v, 10, 8, 6);
    assert Pow(2, 2) == 4 && Pow(2, 6) == 64;
  }

  lemma {:induction false} SparseOuts(cv: Curve, a: TxOut, b: TxOut)
    requires !a.IsNull() && !b.IsNull()
    ensures OutsBytes(cv, Sparse(a, b)) == OutBytes(cv, a) + OutBytes(cv, b)
  {
    var parts := OutParts(cv, Sparse(a, b));
    assert |parts| == 17 && parts[4] == OutBytes(cv, a) && parts[16] == OutBytes(cv, b);
    assert forall k :: 0 <= k < 17 && k != 4 && k != 16 ==> parts[k] == [];
    TwoTogether(parts, 4, 16);
  }

  /** Two parts among empty ones. */
  lemma {:induction false} TwoTogether(parts: seq<seq<Byte>>, i: nat, j: nat)
    requires i < j && j + 1 == |parts| && forall k :: 0 <= k < |parts| && k != i && k != j ==> parts[k] == []
    ensures Together(parts, |parts|) == parts[i] + parts[j]
  {
    TogetherSame(parts, 0, i);
    TogetherSame(parts, i + 1, j);
    assert Together(parts, i + 1) == parts[i];
  }

  /** Version 1, a block reward, outputs 4 and 16 unspent, at height 120891. */
  lemma {:induction false} SecondRecord(cv: Curve, one: seq<Byte>, two: seq<Byte>)
    requires |one| == 20 && |two| == 20
    ensures var a, b := TxOut(234_925_952, ToKeyHash(one)), TxOut(110_397, ToKeyHash(two));
            var outs := ([0x86, 0xEF, 0x97, 0xD5, 0x79] + ([0x00] + one)) + ([0xBB, 0xD1, 0x23] + ([0x00] + two));
            CoinsBytes(cv, Coins(true, Sparse(a, b), 120891, 1))
            == [0x01] + ([0x09] + ([0x04, 0x40] + (outs + [0x86, 0xAF, 0x3B])))
  {
    var a, b := TxOut(234_925_952, ToKeyHash(one)), TxOut(110_397, ToKeyHash(two));
    CodesOfSecond();
    NumbersOfSecond();
    KeyOutBytes(cv, 234_925_952, one, [0x86, 0xEF, 0x97, 0xD5, 0x79]);
    KeyOutBytes(cv, 110_397, two, [0xBB, 0xD1, 0x23]);
    SparseOuts(cv, a, b);
    SparseHeader(a, b, 120891);
  }

  lemma {:induction false} SparseHeader(a: TxOut, b: TxOut, nHeight: int)
    requires !a.IsNull() && !b.IsNull()
    ensures HeaderCode(Coins(true, Sparse(a, b), nHeight, 1)) == 9
    ensures LastUsed(Mask(Sparse(a, b))) == 2 && Mask(Sparse(a, b))[..2] == [0x04, 0x40]
  {
    var m: seq<Byte> := [0x04, 0x40];
    SparseMask(a, b);
    assert m[..1] == [0x04] && [0x04][..0] == [];
    assert NonZero(m) == 2 && LastUsed(m) == 2 && m[..2] == m;
  }
}
