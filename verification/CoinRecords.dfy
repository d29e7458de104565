/** Unspent outputs of one transaction (`CCoins`), as a value. */
module CoinRecords {

  import opened Basics

  /** `CTxOut`; a spent output is marked by the value -1. */
  datatype TxOut = TxOut(nValue: int, script: seq<Byte>) {
    predicate IsNull() {
      nValue == -1
    }
  }

  const NULL_OUT := TxOut(-1, [])

  datatype Coins = Coins(fBlockReward: bool, vout: seq<TxOut>, nHeight: int, nVersion: int) {

    /** Every output is spent. */
    predicate IsPruned() {
      AllNull(vout)
    }

    /** No spent output at the end, which is the form every stored record has. */
    predicate IsClean() {
      |vout| > 0 ==> !vout[|vout| - 1].IsNull()
    }

    predicate IsAvailable(n: nat) {
      n < |vout| && !vout[n].IsNull()
    }
  }

  predicate AllNull(vout: seq<TxOut>) {
    vout == [] || (vout[0].IsNull() && AllNull(vout[1..]))
  }

  lemma {:induction false} AllNullIndex(vout: seq<TxOut>)
    ensures AllNull(vout) <==> forall i :: 0 <= i < |vout| ==> vout[i].IsNull()
  {
    if vout != [] {
      AllNullIndex(vout[1..]);
      assert (forall i :: 0 <= i < |vout| ==> vout[i].IsNull())
        <==> vout[0].IsNull() && forall i :: 0 <= i < |vout| - 1 ==> vout[1..][i].IsNull() by {
        assert forall i :: 1 <= i < |vout| ==> vout[i] == vout[1..][i - 1];
      }
    }
  }

  /** Clean coins are pruned exactly if they have no outputs at all. */
  lemma {:induction false} CleanPruned(c: Coins)
    requires c.IsClean()
    ensures c.IsPruned() <==> c.vout == []
  {
    AllNullIndex(c.vout);
  }

  const EMPTY_COINS := Coins(false, [], 0, 0)

  /** The outputs without the spent ones at the end. */
  function Trimmed(vout: seq<TxOut>): (r: seq<TxOut>)
    ensures r <= vout
    ensures |r| > 0 ==> !r[|r| - 1].IsNull()
    ensures forall i :: |r| <= i < |vout| ==> vout[i].IsNull()
  {
    if |vout| > 0 && vout[|vout| - 1].IsNull() then Trimmed(vout[..|vout| - 1]) else vout
  }

  function Cleaned(c: Coins): (r: Coins)
    ensures r.IsClean()
    ensures r.IsPruned() <==> c.IsPruned()
    ensures r.IsPruned() <==> r.vout == []
    ensures forall n: nat :: r.IsAvailable(n) <==> c.IsAvailable(n)
  {
    var r := c.(vout := Trimmed(c.vout));
    AllNullIndex(c.vout); AllNullIndex(r.vout);
    assert forall n: nat :: r.IsAvailable(n) ==> c.vout[n] == r.vout[n];
    assert r.vout != [] ==> r.IsAvailable(|r.vout| - 1);
    r
  }

  /** `Trimmed` is the only clean prefix that drops nothing but spent outputs. */
  lemma {:induction false} TrimmedUnique(vout: seq<TxOut>, r: seq<TxOut>)
    requires r <= vout
    requires |r| > 0 ==> !r[|r| - 1].IsNull()
    requires forall i :: |r| <= i < |vout| ==> vout[i].IsNull()
    ensures r == Trimmed(vout)
  {
    assert |r| == |Trimmed(vout)|;
  }

  /** `CCoins::Cleanup` pops spent outputs off the end. */
  method Cleanup(c: Coins) returns (r: Coins)
    ensures r == Cleaned(c)
  {
    var vout := c.vout;
    while |vout| > 0 && vout[|vout| - 1].IsNull()
      invariant Trimmed(vout) == Trimmed(c.vout)
    {
      vout := vout[..|vout| - 1];
    }
    r := c.(vout := vout);
  }

  /** The coins after output `n` is spent, which changes nothing if it was not available. */
  function Spent(c: Coins, n: nat): (r: Coins)
    ensures !c.IsAvailable(n) ==> r == c
    ensures c.IsAvailable(n) ==> r.IsClean() && r.(vout := c.vout) == c
    ensures forall i: nat :: c.IsAvailable(n) ==> (r.IsAvailable(i) <==> i != n && c.IsAvailable(i))
    ensures forall i: nat :: r.IsAvailable(i) ==> i < |c.vout| && r.vout[i] == c.vout[i]
  {
    if c.IsAvailable(n) then
      var marked := c.(vout := c.vout[n := NULL_OUT]);
      assert forall i: nat :: marked.IsAvailable(i) <==> i != n && c.IsAvailable(i);
      Cleaned(marked)
    else c
  }

  lemma {:induction false} SpentPruned(c: Coins, n: nat)
    requires c.IsPruned()
    ensures Cleaned(Spent(c, n)).IsPruned()
  {
    AllNullIndex(c.vout);
    assert !c.IsAvailable(n);
  }

  /** `CCoins::Spend` */
  method Spend(c: Coins, nPos: nat) returns (ok: bool, r: Coins)
    ensures ok <==> c.IsAvailable(nPos)
    ensures r == Spent(c, nPos)
  {
    if nPos >= |c.vout| || c.vout[nPos].IsNull() {
      return false, c;
    }
    r := Cleanup(c.(vout := c.vout[nPos := NULL_OUT]));
    ok := true;
  }
}
