/** The vote index of masternode payments beside the log of votes that it counts. */
module Payments {
  import opened Basics

  type Script = seq<Byte>

  /** `CMasternodePayee` */
  datatype Payee = Payee(script: Script, nVotes: int)

  /** `CMasternodePaymentWinner`: a masternode's vote that a payee be paid at a height. */
  datatype Winner = Winner(hash: nat, isReferenceNode: bool, nBlockHeight: int, payee: Script)

  /** A reference node counts a hundred times. */
  function Weight(w: Winner): nat {
    if w.isReferenceNode then 100 else 1
  }

  // ---------------------------------------------------------------- counting

  /** The weights of all logged votes for a payee at a height. */
  function Tally(log: seq<Winner>, h: int, p: Script): nat {
    if log == [] then 0
    else
      var w := log[|log| - 1];
      Tally(log[..|log| - 1], h, p) + if w.nBlockHeight == h && w.payee == p then Weight(w) else 0
  }

  /** The votes that a list of payees has for one. */
  function VotesFor(v: seq<Payee>, p: Script): int {
    if v == [] then 0
    else if v[|v| - 1].script == p then v[|v| - 1].nVotes
    else VotesFor(v[..|v| - 1], p)
  }

  /** No payee twice, and none without votes. */
  ghost predicate Proper(v: seq<Payee>) {
    && (forall i, j :: 0 <= i < j < |v| ==> v[i].script != v[j].script)
    && (forall i :: 0 <= i < |v| ==> v[i].nVotes > 0)
  }

  lemma {:induction false} VotesAt(v: seq<Payee>, i: nat)
    requires Proper(v) && i < |v|
    ensures VotesFor(v, v[i].script) == v[i].nVotes
  {
    if i < |v| - 1 {
      assert v[..|v| - 1][i] == v[i];
      VotesAt(v[..|v| - 1], i);
    }
  }

  lemma {:induction false} VotesNone(v: seq<Payee>, p: Script)
    requires forall i :: 0 <= i < |v| ==> v[i].script != p
    ensures VotesFor(v, p) == 0
  {
    if v != [] { VotesNone(v[..|v| - 1], p); }
  }

  /** Changing one entry changes the votes of its payee only. */
  lemma {:induction false} VotesChanged(v: seq<Payee>, i: nat, x: Payee, p: Script)
    requires i < |v| && x.script == v[i].script && p != x.script
    ensures VotesFor(v[i := x], p) == VotesFor(v, p)
  {
    var n := |v| - 1;
    if i < n {
      assert v[i := x][..n] == v[..n][i := x];
      VotesChanged(v[..n], i, x, p);
    } else {
      assert v[i := x][..n] == v[..n];
    }
  }

  /** What the votes are after `AddPayee`. */
  ghost predicate Added(v: seq<Payee>, w: seq<Payee>, payee: Script, n: int) {
    Proper(w) && w != [] && forall p :: AddedFor(v, w, payee, n, p)
  }

  ghost predicate AddedFor(v: seq<Payee>, w: seq<Payee>, payee: Script, n: int, p: Script) {
    VotesFor(w, p) == VotesFor(v, p) + if p == payee then n else 0
  }

  /** The payees in their order. */
  function ScriptsOf(v: seq<Payee>): seq<Script> {
    seq(|v|, i requires 0 <= i < |v| => v[i].script)
  }

  /** A list with a new element at its end, unless it has it already. */
  function With(s: seq<Script>, p: Script): seq<Script> {
    if p in s then s else s + [p]
  }

  /** `CMasternodeBlockPayees::AddPayee` */
  method AddPayee(v: seq<Payee>, payee: Script, nIncrement: nat) returns (w: seq<Payee>)
    requires Proper(v) && nIncrement > 0
    ensures Added(v, w, payee, nIncrement) && ScriptsOf(w) == With(ScriptsOf(v), payee)
  {
    for i := 0 to |v|
      invariant forall k :: 0 <= k < i ==> v[k].script != payee
    {
      if v[i].script == payee {
        w := v[i := v[i].(nVotes := v[i].nVotes + nIncrement)];
        IncreasedAt(v, i, nIncrement, w);
        assert ScriptsOf(v)[i] == payee;
        assert ScriptsOf(w) == ScriptsOf(v);
        return;
      }
    }
    w := v + [Payee(payee, nIncrement)];
    VotesNone(v, payee);
    assert w[..|v|] == v;
    assert payee !in ScriptsOf(v);
    assert ScriptsOf(w) == ScriptsOf(v) + [payee];
    forall p ensures AddedFor(v, w, payee, nIncrement, p) {}
  }

  lemma {:induction false} IncreasedAt(v: seq<Payee>, i: nat, n: nat, w: seq<Payee>)
    requires Proper(v) && i < |v| && n > 0 && w == v[i := v[i].(nVotes := v[i].nVotes + n)]
    ensures Added(v, w, v[i].script, n)
  {
    assert Proper(w);
    forall p ensures AddedFor(v, w, v[i].script, n, p) {
      if p == v[i].script {
        VotesAt(v, i);
        VotesAt(w, i);
      } else {
        VotesChanged(v, i, w[i], p);
      }
    }
  }

  /** `CMasternodeBlockPayees::GetPayee`: the first payee with the most votes. */
  method GetPayee(v: seq<Payee>) returns (r: Option<Script>, ghost best: nat)
    requires Proper(v)
    ensures r.Some? <==> v != []
    ensures r.Some? ==> forall p :: VotesFor(v, p) <= VotesFor(v, r.value)
    ensures r.Some? ==> best < |v| && r.value == v[best].script
    ensures r.Some? ==> forall k :: 0 <= k < best ==> v[k].nVotes < v[best].nVotes
  {
    var nVotes, payee := -1, [];
    best := 0;
    for i := 0 to |v|
      invariant (i == 0 && nVotes == -1) || (best < i && nVotes == v[best].nVotes && payee == v[best].script)
      invariant forall k :: 0 <= k < i ==> v[k].nVotes <= nVotes
      invariant forall k :: 0 <= k < best && k < i ==> v[k].nVotes < nVotes
    {
      if v[i].nVotes > nVotes {
        payee, nVotes, best := v[i].script, v[i].nVotes, i;
      }
    }
    if nVotes <= -1 {
      return None, best;
    }
    r := Some(payee);
    VotesAt(v, best);
    forall p ensures VotesFor(v, p) <= VotesFor(v, r.value) { VotesAtMost(v, p, nVotes); }
  }

  lemma {:induction false} VotesAtMost(v: seq<Payee>, p: Script, most: int)
    requires most >= 0 && forall k :: 0 <= k < |v| ==> v[k].nVotes <= most
    ensures VotesFor(v, p) <= most
  {
    if v != [] { VotesAtMost(v[..|v| - 1], p, most); }
  }

  // ---------------------------------------------------------------- the index and the log

  /** The payees of a height. */
  function At(blocks: map<int, seq<Payee>>, h: int): seq<Payee> {
    if h in blocks then blocks[h] else []
  }

  /** Whether a vote for the height is logged. */
  ghost predicate Voted(log: seq<Winner>, h: int) {
    exists i :: 0 <= i < |log| && log[i].nBlockHeight == h
  }

  ghost predicate Counted(log: seq<Winner>, blocks: map<int, seq<Payee>>, h: int, p: Script) {
    VotesFor(At(blocks, h), p) == Tally(log, h, p)
  }

  ghost predicate HeightOk(log: seq<Winner>, blocks: map<int, seq<Payee>>, h: int) {
    && Proper(At(blocks, h)) && (h in blocks ==> blocks[h] != [])
    && (h in blocks <==> Voted(log, h))
  }

  /** The payees voted for at a height, in the order of their first votes. */
  function Nominated(log: seq<Winner>, h: int): seq<Script> {
    if log == [] then []
    else
      var s, w := Nominated(log[..|log| - 1], h), log[|log| - 1];
      if w.nBlockHeight == h then With(s, w.payee) else s
  }

  ghost predicate OrderOk(log: seq<Winner>, blocks: map<int, seq<Payee>>, h: int) {
    ScriptsOf(At(blocks, h)) == Nominated(log, h)
  }

  /** The index counts the log, and lists the payees in the order of their first votes. */
  ghost predicate Consistent(log: seq<Winner>, blocks: map<int, seq<Payee>>) {
    && (forall h, p :: Counted(log, blocks, h, p))
    && (forall h :: HeightOk(log, blocks, h))
    && (forall h :: OrderOk(log, blocks, h))
  }

  lemma {:induction false} VotedNext(log: seq<Winner>, w: Winner, h: int)
    ensures Voted(log + [w], h) <==> Voted(log, h) || w.nBlockHeight == h
  {
    var l := log + [w];
    if Voted(log, h) {
      var i :| 0 <= i < |log| && log[i].nBlockHeight == h;
      assert l[i].nBlockHeight == h;
    }
    assert l[|log|] == w;
    if Voted(l, h) && w.nBlockHeight != h {
      var i :| 0 <= i < |l| && l[i].nBlockHeight == h;
      assert log[i].nBlockHeight == h;
    }
  }

  /** One more vote. */
  lemma {:induction false} ConsistentNext(log: seq<Winner>, blocks: map<int, seq<Payee>>, w: Winner, v: seq<Payee>)
    requires Consistent(log, blocks) && Added(At(blocks, w.nBlockHeight), v, w.payee, Weight(w))
    requires ScriptsOf(v) == With(ScriptsOf(At(blocks, w.nBlockHeight)), w.payee)
    ensures Consistent(log + [w], blocks[w.nBlockHeight := v])
  {
    var l, b := log + [w], blocks[w.nBlockHeight := v];
    assert l[..|log|] == log;
    forall h, p ensures Counted(l, b, h, p) {
      assert Counted(log, blocks, h, p);
      assert AddedFor(At(blocks, w.nBlockHeight), v, w.payee, Weight(w), p);
    }
    forall h ensures HeightOk(l, b, h) {
      assert HeightOk(log, blocks, h);
      VotedNext(log, w, h);
    }
    forall h ensures OrderOk(l, b, h) { assert OrderOk(log, blocks, h); }
  }

  /** A vote counts once, from a reference node a hundred times. */
  lemma {:induction false} TallyNext(log: seq<Winner>, w: Winner)
    ensures Tally(log + [w], w.nBlockHeight, w.payee)
         == Tally(log, w.nBlockHeight, w.payee) + if w.isReferenceNode then 100 else 1
  {
    assert (log + [w])[..|log|] == log;
  }

  /** The votes that are not older than the limit. */
  function Recent(log: seq<Winner>, nHeight: int, nLimit: int): seq<Winner> {
    if log == [] then []
    else
      Recent(log[..|log| - 1], nHeight, nLimit)
      + if nHeight - log[|log| - 1].nBlockHeight > nLimit then [] else [log[|log| - 1]]
  }

  lemma {:induction false} RecentTally(log: seq<Winner>, nHeight: int, nLimit: int, h: int, p: Script)
    ensures Tally(Recent(log, nHeight, nLimit), h, p) == if nHeight - h > nLimit then 0 else Tally(log, h, p)
  {
    if log != [] {
      var init := log[..|log| - 1];
      RecentTally(init, nHeight, nLimit, h, p);
      var r := Recent(init, nHeight, nLimit);
      assert (r + [log[|log| - 1]])[..|r|] == r && r + [] == r;
    }
  }

  lemma {:induction false} RecentNominated(log: seq<Winner>, nHeight: int, nLimit: int, h: int)
    ensures Nominated(Recent(log, nHeight, nLimit), h) == if nHeight - h > nLimit then [] else Nominated(log, h)
  {
    if log != [] {
      var init := log[..|log| - 1];
      RecentNominated(init, nHeight, nLimit, h);
      var r := Recent(init, nHeight, nLimit);
      assert (r + [log[|log| - 1]])[..|r|] == r && r + [] == r;
    }
  }

  /** A vote is kept exactly if it is not too far back. */
  lemma {:induction false} RecentIs(log: seq<Winner>, nHeight: int, nLimit: int, w: Winner)
    ensures w in Recent(log, nHeight, nLimit) <==> w in log && nHeight - w.nBlockHeight <= nLimit
  {
    if log != [] {
      RecentIs(log[..|log| - 1], nHeight, nLimit, w);
      assert log == log[..|log| - 1] + [log[|log| - 1]];
    }
  }

  lemma {:induction false} NoneNominated(log: seq<Winner>, h: int)
    requires !Voted(log, h)
    ensures Nominated(log, h) == []
  {
    if log != [] {
      assert log[|log| - 1].nBlockHeight != h;
      assert forall i :: 0 <= i < |log| - 1 ==> log[..|log| - 1][i] == log[i];
      NoneNominated(log[..|log| - 1], h);
    }
  }

  lemma {:induction false} RecentVoted(log: seq<Winner>, nHeight: int, nLimit: int, h: int)
    ensures Voted(Recent(log, nHeight, nLimit), h) <==> Voted(log, h) && nHeight - h <= nLimit
  {
    if log != [] {
      var init, w := log[..|log| - 1], log[|log| - 1];
      RecentVoted(init, nHeight, nLimit, h);
      assert log == init + [w];
      VotedNext(init, w, h);
      var r := Recent(init, nHeight, nLimit);
      VotedNext(r, w, h);
      assert r + [] == r;
    }
  }

  /** The index without the heights that some of the log's first votes made too old. */
  ghost predicate Dropped(log: seq<Winner>, blocks: map<int, seq<Payee>>, b: map<int, seq<Payee>>,
                          nHeight: int, nLimit: int, h: int)
  {
    At(b, h) == (if nHeight - h > nLimit && Voted(log, h) then [] else At(blocks, h))
    && (h in b <==> h in blocks && !(nHeight - h > nLimit && Voted(log, h)))
  }

  lemma {:induction false} ConsistentPruned(log: seq<Winner>, blocks: map<int, seq<Payee>>, b: map<int, seq<Payee>>,
                                            nHeight: int, nLimit: int)
    requires Consistent(log, blocks) && forall h :: Dropped(log, blocks, b, nHeight, nLimit, h)
    ensures Consistent(Recent(log, nHeight, nLimit), b)
  {
    var l := Recent(log, nHeight, nLimit);
    forall h, p ensures Counted(l, b, h, p) {
      assert Counted(log, blocks, h, p) && HeightOk(log, blocks, h) && Dropped(log, blocks, b, nHeight, nLimit, h);
      RecentTally(log, nHeight, nLimit, h, p);
    }
    forall h ensures HeightOk(l, b, h) {
      assert HeightOk(log, blocks, h) && Dropped(log, blocks, b, nHeight, nLimit, h);
      RecentVoted(log, nHeight, nLimit, h);
    }
    forall h ensures OrderOk(l, b, h) {
      assert OrderOk(log, blocks, h) && Dropped(log, blocks, b, nHeight, nLimit, h);
      RecentNominated(log, nHeight, nLimit, h);
      if !Voted(log, h) { NoneNominated(log, h); }
    }
  }

  /** Positions in the index are positions in the order of first votes. */
  lemma {:induction false} FirstNominated(log: seq<Winner>, blocks: map<int, seq<Payee>>, h: int, best: nat)
    requires Consistent(log, blocks) && h in blocks && best < |blocks[h]|
    requires forall k :: 0 <= k < best ==> blocks[h][k].nVotes < blocks[h][best].nVotes
    ensures var s := Nominated(log, h);
            && best < |s| && s[best] == blocks[h][best].script
            && forall j :: 0 <= j < best ==> Tally(log, h, s[j]) < Tally(log, h, s[best])
  {
    assert OrderOk(log, blocks, h) && HeightOk(log, blocks, h);
    var v := blocks[h];
    forall j | 0 <= j <= best ensures Tally(log, h, v[j].script) == v[j].nVotes {
      VotesAt(v, j);
      assert Counted(log, blocks, h, v[j].script);
    }
  }

  /** `CMasternodePayments` */
  class MasternodePayments {
    /** `mapMasternodePayeeVotes`, each with its hash. */
    var votes: seq<Winner>
    /** `mapMasternodeBlocks` */
    var blocks: map<int, seq<Payee>>

    ghost predicate Valid()
      reads this
    {
      Consistent(votes, blocks)
    }

    constructor ()
      ensures Valid() && votes == []
    {
      votes, blocks := [], map[];
      new;
      forall h, p ensures Counted(votes, blocks, h, p) {}
      forall h ensures HeightOk(votes, blocks, h) {}
      forall h ensures OrderOk(votes, blocks, h) {}
    }

    predicate Has(hash: nat)
      reads this
    {
      exists i :: 0 <= i < |votes| && votes[i].hash == hash
    }

    /** Logs and counts a vote, unless its block is unknown or the vote is known. */
    method AddWinningMasternode(w: Winner, fKnownBlock: bool) returns (added: bool)
      requires Valid()
      modifies this
      ensures Valid() && (added <==> fKnownBlock && !old(Has(w.hash)))
      ensures votes == if added then old(votes) + [w] else old(votes)
      ensures added ==>
        Tally(votes, w.nBlockHeight, w.payee)
        == old(Tally(votes, w.nBlockHeight, w.payee)) + if w.isReferenceNode then 100 else 1
    {
      if !fKnownBlock {
        return false;
      }
      if Has(w.hash) {
        return false;
      }
      assert HeightOk(votes, blocks, w.nBlockHeight);
      var payees := if w.nBlockHeight in blocks then blocks[w.nBlockHeight] else [];
      var n := if w.isReferenceNode then 100 else 1;
      var v := AddPayee(payees, w.payee, n);
      ConsistentNext(votes, blocks, w, v);
      TallyNext(votes, w);
      votes := votes + [w];
      blocks := blocks[w.nBlockHeight := v];
      added := true;
    }

    /** Forgets votes for heights too far back: more than a thousand, or than the masternodes and a quarter. */
    method CheckAndRemove(nHeight: int, nMasternodes: nat)
      requires Valid()
      modifies this
      ensures Valid() && votes == Recent(old(votes), nHeight, Max(nMasternodes * 5 / 4, 1000))
      ensures forall w :: w in votes <==>
        w in old(votes) && (nHeight - w.nBlockHeight <= 1000 || 4 * (nHeight - w.nBlockHeight) <= 5 * nMasternodes)
    {
      var nLimit := Max(nMasternodes * 5 / 4, 1000);
      ghost var log, index := votes, blocks;
      var kept, b := [], blocks;
      for i := 0 to |votes|
        invariant votes == log && kept == Recent(log[..i], nHeight, nLimit)
        invariant forall h :: Dropped(log[..i], index, b, nHeight, nLimit, h)
      {
        var w := votes[i];
        ghost var before := b;
        assert log[..i + 1] == log[..i] + [w] && log[..i + 1][..i] == log[..i];
        if nHeight - w.nBlockHeight > nLimit {
          b := b - {w.nBlockHeight};
        } else {
          kept := kept + [w];
        }
        ghost var next := log[..i + 1];
        forall h ensures Dropped(next, index, b, nHeight, nLimit, h) {
          assert Dropped(log[..i], index, before, nHeight, nLimit, h);
          VotedNext(log[..i], w, h);
        }
      }
      assert log[..|log|] == log;
      ConsistentPruned(log, index, b, nHeight, nLimit);
      votes, blocks := kept, b;
      forall w ensures w in votes <==> w in log && nHeight - w.nBlockHeight <= nLimit {
        RecentIs(log, nHeight, nLimit, w);
      }
    }

    /** The payee of a height: the one with the most votes logged for it, and of several the one first voted for. */
    method GetBlockPayee(nBlockHeight: int) returns (r: Option<Script>)
      requires Valid()
      ensures r.Some? <==> Voted(votes, nBlockHeight)
      ensures r.Some? ==> forall p :: Tally(votes, nBlockHeight, p) <= Tally(votes, nBlockHeight, r.value)
      ensures r.Some? ==>
        var s := Nominated(votes, nBlockHeight);
        exists i :: 0 <= i < |s| && s[i] == r.value
          && forall j :: 0 <= j < i ==> Tally(votes, nBlockHeight, s[j]) < Tally(votes, nBlockHeight, s[i])
    {
      assert HeightOk(votes, blocks, nBlockHeight);
      if nBlockHeight in blocks {
        ghost var best;
        r, best := GetPayee(blocks[nBlockHeight]);
        FirstNominated(votes, blocks, nBlockHeight, best);
        assert Counted(votes, blocks, nBlockHeight, r.value);
        forall p ensures Tally(votes, nBlockHeight, p) <= Tally(votes, nBlockHeight, r.value) {
          assert Counted(votes, blocks, nBlockHeight, p);
        }
      } else {
        r := None;
      }
    }
  }
}
