/**
 * Choosing the budget and recognising it: proposals are taken greedily by
 * votes, a draft lists their payments in one order, and another node compares
 * them with its own choice in the same order.
 */
module Budget {
  import opened Basics
  import opened Powers

  // ---------------------------------------------------------------- sorting

  /** An order as the standard sort demands it. */
  ghost predicate StrictOrder<T(!new)>(less: (T, T) -> bool) {
    && (forall a, b :: less(a, b) ==> !less(b, a))
    && (forall a, b, c :: less(a, b) && less(b, c) ==> less(a, c))
  }

  ghost predicate Sorted<T(!new)>(s: seq<T>, less: (T, T) -> bool) {
    forall i, j :: 0 <= i < j < |s| ==> !less(s[j], s[i])
  }

  lemma {:induction false} Inserted<T(!new)>(r: seq<T>, less: (T, T) -> bool, x: T, i: nat)
    requires StrictOrder(less) && Sorted(r, less) && i <= |r|
    requires forall j :: 0 <= j < i ==> !less(x, r[j])
    requires i < |r| ==> less(x, r[i])
    ensures Sorted(r[..i] + [x] + r[i..], less)
  {
    var t := r[..i] + [x] + r[i..];
    forall j, k | 0 <= j < k < |t|
      ensures !less(t[k], t[j])
    {
      if j == i {
        assert t[k] == r[k - 1];
        assert k - 1 > i ==> !less(r[k - 1], r[i]);
      } else {
        assert t[j] == r[if j < i then j else j - 1];
        assert k != i ==> t[k] == r[if k < i then k else k - 1];
      }
    }
  }

  method Insert<T(!new)>(s: seq<T>, x: T, less: (T, T) -> bool) returns (r: seq<T>)
    requires StrictOrder(less) && Sorted(s, less)
    ensures Sorted(r, less) && multiset(r) == multiset(s) + multiset{x}
  {
    var i := 0;
    while i < |s| && !less(x, s[i])
      invariant 0 <= i <= |s| && forall j :: 0 <= j < i ==> !less(x, s[j])
    {
      i := i + 1;
    }
    Inserted(s, less, x, i);
    WithOne(s, i, x);
    r := s[..i] + [x] + s[i..];
  }

  /** The standard sort, here by insertion. */
  method Sort<T(!new)>(s: seq<T>, less: (T, T) -> bool) returns (r: seq<T>)
    requires StrictOrder(less)
    ensures Sorted(r, less) && multiset(r) == multiset(s)
  {
    r := [];
    for n := 0 to |s|
      invariant Sorted(r, less) && multiset(r) == multiset(s[..n])
    {
      assert s[..n + 1] == s[..n] + [s[n]];
      r := Insert(r, s[n], less);
    }
    assert s[..|s|] == s;
  }

  lemma {:induction false} WithOne<T>(r: seq<T>, i: nat, x: T)
    requires i <= |r|
    ensures multiset(r[..i] + [x] + r[i..]) == multiset(r) + multiset{x}
  {
    assert r == r[..i] + r[i..];
  }

  /** The last element of one list is somewhere in the other; the rests are alike. */
  lemma {:induction false} LastElsewhere<T>(s: seq<T>, t: seq<T>) returns (j: nat, rest: seq<T>)
    requires multiset(s) == multiset(t) && s != []
    ensures j < |t| && t[j] == s[|s| - 1] && rest == t[..j] + t[j + 1..]
    ensures t == t[..j] + [s[|s| - 1]] + t[j + 1..]
    ensures multiset(s[..|s| - 1]) == multiset(rest)
  {
    var x := s[|s| - 1];
    assert x in multiset(s);
    assert x in multiset(t);
    j :| 0 <= j < |t| && t[j] == x;
    rest := t[..j] + t[j + 1..];
    TakenOut(t, j);
    var init := s[..|s| - 1];
    assert s == init + [x];
    Cancel(multiset(init), multiset(rest), x);
  }

  lemma {:induction false} TakenOut<T>(t: seq<T>, j: nat)
    requires j < |t|
    ensures t == t[..j] + [t[j]] + t[j + 1..] && multiset(t) == multiset(t[..j] + t[j + 1..]) + multiset{t[j]}
  {
    var rest := t[..j] + t[j + 1..];
    assert rest[..j] == t[..j] && rest[j..] == t[j + 1..];
    assert t == rest[..j] + [t[j]] + rest[j..];
    WithOne(rest, j, t[j]);
  }

  lemma {:induction false} Cancel<T>(a: multiset<T>, b: multiset<T>, x: T)
    requires a + multiset{x} == b + multiset{x}
    ensures a == b
  {
    assert a == a + multiset{x} - multiset{x};
    assert b == b + multiset{x} - multiset{x};
  }

  // ---------------------------------------------------------------- payments

  datatype Payment = Payment(nProposalHash: nat, payee: nat, nAmount: int)

  /** `ComparePayments`: larger amounts first, then by hash, then by payee. */
  predicate ComparePayments(a: Payment, b: Payment) {
    if a.nAmount != b.nAmount then a.nAmount > b.nAmount
    else if a.nProposalHash != b.nProposalHash then a.nProposalHash < b.nProposalHash
    else a.payee < b.payee
  }

  lemma {:induction false} PaymentOrder()
    ensures StrictOrder(ComparePayments)
  {
  }

  /** Two sorted lists of the same payments are the same list. */
  lemma {:induction false} SortedUnique(s: seq<Payment>, t: seq<Payment>)
    requires Sorted(s, ComparePayments) && Sorted(t, ComparePayments) && multiset(s) == multiset(t)
    ensures s == t
  {
    assert |s| == |multiset(s)| == |multiset(t)| == |t|;
    if s != [] {
      FirstSame(s, t);
      assert s == [s[0]] + s[1..] && t == [t[0]] + t[1..];
      assert multiset(s[1..]) == multiset(s) - multiset{s[0]} == multiset(t[1..]);
      SortedUnique(s[1..], t[1..]);
    }
  }

  lemma {:induction false} FirstSame(s: seq<Payment>, t: seq<Payment>)
    requires Sorted(s, ComparePayments) && Sorted(t, ComparePayments) && multiset(s) == multiset(t)
    requires s != [] && t != []
    ensures s[0] == t[0]
  {
    assert s[0] in multiset(t) && t[0] in multiset(s);
    var j :| 0 <= j < |t| && t[j] == s[0];
    var i :| 0 <= i < |s| && s[i] == t[0];
    assert j > 0 ==> !ComparePayments(t[j], t[0]);
    assert i > 0 ==> !ComparePayments(s[i], s[0]);
  }

  function Total(s: seq<Payment>): int {
    if s == [] then 0 else Total(s[..|s| - 1]) + s[|s| - 1].nAmount
  }

  /** The total does not depend on the order. */
  lemma {:induction false} TotalOfSame(s: seq<Payment>, t: seq<Payment>)
    requires multiset(s) == multiset(t)
    ensures Total(s) == Total(t)
  {
    assert |s| == |multiset(s)| == |multiset(t)| == |t|;
    if s != [] {
      var x := s[|s| - 1];
      var j, rest := LastElsewhere(s, t);
      TotalOfSame(s[..|s| - 1], rest);
      TotalInsert(t[..j], x, t[j + 1..]);
    }
  }

  lemma {:induction false} TotalInsert(s: seq<Payment>, x: Payment, t: seq<Payment>)
    ensures Total(s + [x] + t) == Total(s + t) + x.nAmount
  {
    if t == [] {
      assert s + [x] + t == s + [x] && (s + [x])[..|s|] == s && s + t == s;
    } else {
      var n := |t| - 1;
      TotalInsert(s, x, t[..n]);
      assert (s + [x] + t)[..|s| + 1 + n] == s + [x] + t[..n];
      assert (s + t)[..|s| + n] == s + t[..n];
    }
  }

  // ---------------------------------------------------------------- the budget

  datatype Proposal = Proposal(hash: nat, payee: nat, nAmount: int, nVotes: int, nFeeTXHash: nat, fValid: bool,
                               nBlockStart: int, nBlockEnd: int, fEstablished: bool, nAlloted: int)

  /** The superblock to pay, the coins for it, and the votes that a proposal must exceed. */
  datatype Period = Period(blockStart: int, blockEnd: int, totalBudget: int, nThreshold: int)

  predicate Eligible(p: Proposal, period: Period) {
    && p.fValid && p.nBlockStart <= period.blockStart && p.nBlockEnd >= period.blockEnd
    && p.nVotes > period.nThreshold && p.fEstablished
  }

  /** `sortProposalsByVotes` */
  predicate Ahead(a: Proposal, b: Proposal) {
    if a.nVotes != b.nVotes then a.nVotes > b.nVotes else a.nFeeTXHash > b.nFeeTXHash
  }

  function Allocated(s: seq<Proposal>): int {
    if s == [] then 0 else Allocated(s[..|s| - 1]) + s[|s| - 1].nAmount
  }

  /** The greedy choice: in order of rank, every eligible proposal that still fits. */
  function Chosen(ranked: seq<Proposal>, period: Period): seq<Proposal> {
    if ranked == [] then []
    else
      var picks, p := Chosen(ranked[..|ranked| - 1], period), ranked[|ranked| - 1];
      if Eligible(p, period) && p.nAmount + Allocated(picks) <= period.totalBudget then picks + [p] else picks
  }

  /** What is chosen never exceeds the budget. */
  lemma {:induction false} ChosenFits(ranked: seq<Proposal>, period: Period)
    ensures Chosen(ranked, period) != [] ==> Allocated(Chosen(ranked, period)) <= period.totalBudget
  {
    if ranked != [] {
      var init, p := ranked[..|ranked| - 1], ranked[|ranked| - 1];
      ChosenFits(init, period);
      var picks := Chosen(init, period);
      assert (picks + [p])[..|picks|] == picks;
    }
  }

  /** What is chosen up to some rank stays chosen. */
  lemma {:induction false} ChosenPrefix(ranked: seq<Proposal>, period: Period, i: nat)
    requires i <= |ranked|
    ensures Chosen(ranked[..i], period) <= Chosen(ranked, period)
  {
    if i == |ranked| {
      assert ranked[..i] == ranked;
    } else {
      ChosenPrefix(ranked[..|ranked| - 1], period, i);
      assert ranked[..|ranked| - 1][..i] == ranked[..i];
    }
  }

  /** A proposal is chosen exactly if it is eligible and fits after the picks ahead of it. */
  lemma {:induction false} ChosenIff(ranked: seq<Proposal>, period: Period, i: nat)
    requires i < |ranked| && forall j, k :: 0 <= j < k < |ranked| ==> ranked[j].hash != ranked[k].hash
    ensures ranked[i] in Chosen(ranked, period)
       <==> && ranked[i].fValid && ranked[i].fEstablished && ranked[i].nVotes > period.nThreshold
            && ranked[i].nBlockStart <= period.blockStart && period.blockEnd <= ranked[i].nBlockEnd
            && ranked[i].nAmount + Allocated(Chosen(ranked[..i], period)) <= period.totalBudget
  {
    var n := |ranked| - 1;
    var init := ranked[..n];
    if i < n {
      ChosenIff(init, period, i);
      assert init[..i] == ranked[..i];
    } else {
      if ranked[n] in Chosen(init, period) { ChosenFrom(init, period, ranked[n]); }
    }
  }

  lemma {:induction false} ChosenFrom(ranked: seq<Proposal>, period: Period, p: Proposal)
    requires p in Chosen(ranked, period)
    ensures p in ranked && Eligible(p, period)
  {
    if p in Chosen(ranked[..|ranked| - 1], period) { ChosenFrom(ranked[..|ranked| - 1], period, p); }
  }

  function PaymentOf(p: Proposal): Payment {
    Payment(p.hash, p.payee, p.nAmount)
  }

  function PaymentsOf(s: seq<Proposal>): seq<Payment> {
    seq(|s|, i requires 0 <= i < |s| => PaymentOf(s[i]))
  }

  lemma {:induction false} PaymentsTotal(s: seq<Proposal>)
    ensures Total(PaymentsOf(s)) == Allocated(s)
  {
    if s != [] {
      PaymentsTotal(s[..|s| - 1]);
      assert PaymentsOf(s)[..|s| - 1] == PaymentsOf(s[..|s| - 1]);
    }
  }

  /** The same proposals in another order make the same payments in another order. */
  lemma {:induction false} PaymentsOfSame(s: seq<Proposal>, t: seq<Proposal>)
    requires multiset(s) == multiset(t)
    ensures multiset(PaymentsOf(s)) == multiset(PaymentsOf(t))
  {
    assert |s| == |multiset(s)| == |multiset(t)| == |t|;
    if s != [] {
      var x := s[|s| - 1];
      var j, rest := LastElsewhere(s, t);
      PaymentsOfSame(s[..|s| - 1], rest);
      var r := PaymentsOf(rest);
      assert PaymentsOf(s) == PaymentsOf(s[..|s| - 1]) + [PaymentOf(x)];
      assert PaymentsOf(t) == r[..j] + [PaymentOf(x)] + r[j..];
      WithOne(r, j, PaymentOf(x));
    }
  }

  // ---------------------------------------------------------------- choosing

  lemma {:induction false} RankOrder()
    ensures StrictOrder(Ahead)
  {
  }

  function Allotted(p: Proposal): Proposal {
    p.(nAlloted := p.nAmount)
  }

  function AllAllotted(s: seq<Proposal>): seq<Proposal> {
    seq(|s|, i requires 0 <= i < |s| => Allotted(s[i]))
  }

  /** A proposal after those ranked first were looked at. */
  function Settled(p: Proposal, ranked: seq<Proposal>, period: Period): Proposal {
    if p !in ranked || !Eligible(p, period) then p
    else p.(nAlloted := if p in Chosen(ranked, period) then p.nAmount else 0)
  }

  ghost predicate SettledAt(was: seq<Proposal>, now: seq<Proposal>, ranked: seq<Proposal>, period: Period, i: int) {
    0 <= i < |was| && i < |now| ==> now[i] == Settled(was[i], ranked, period)
  }

  /** No two proposals share a hash. */
  ghost predicate Distinct(s: seq<Proposal>) {
    forall i, j :: 0 <= i < j < |s| ==> s[i].hash != s[j].hash
  }

  lemma {:induction false} RestDistinct(t: seq<Proposal>, j: nat, rest: seq<Proposal>)
    requires Distinct(t) && j < |t| && rest == t[..j] + t[j + 1..]
    ensures Distinct(rest) && forall k :: 0 <= k < |rest| ==> rest[k].hash != t[j].hash
  {
    assert forall k :: 0 <= k < |rest| ==> rest[k] == t[if k < j then k else k + 1];
  }

  /** A list of the same proposals in another order has no two of a hash either. */
  lemma {:induction false} DistinctOfSame(s: seq<Proposal>, t: seq<Proposal>)
    requires multiset(s) == multiset(t) && Distinct(t)
    ensures Distinct(s)
  {
    if s != [] {
      var n := |s| - 1;
      var j, rest := LastElsewhere(s, t);
      RestDistinct(t, j, rest);
      DistinctOfSame(s[..n], rest);
      forall i | 0 <= i < n
        ensures s[i].hash != s[n].hash
      {
        assert s[..n][i] in multiset(s[..n]);
        assert s[i] in multiset(rest);
        assert s[i] in rest;
      }
      forall a, b | 0 <= a < b < |s|
        ensures s[a].hash != s[b].hash
      {
        if b < n { assert s[..n][a].hash != s[..n][b].hash; }
      }
    }
  }

  /** Looking at one more proposal changes that one only. */
  lemma {:induction false} SettledNext(p: Proposal, ranked: seq<Proposal>, n: nat, period: Period)
    requires n < |ranked| && Distinct(ranked) && p.hash != ranked[n].hash
    ensures Settled(p, ranked[..n + 1], period) == Settled(p, ranked[..n], period)
  {
    assert ranked[..n + 1][..n] == ranked[..n];
    assert ranked[..n + 1] == ranked[..n] + [ranked[n]];
  }

  lemma {:induction false} SettledNew(ranked: seq<Proposal>, n: nat, period: Period)
    requires n < |ranked| && Distinct(ranked)
    ensures var q, init := ranked[n], ranked[..n];
            && Settled(q, init, period) == q
            && Settled(q, ranked[..n + 1], period)
               == if !Eligible(q, period) then q
                  else q.(nAlloted := if q.nAmount + Allocated(Chosen(init, period)) <= period.totalBudget
                    then q.nAmount else 0)
  {
    assert ranked[..n + 1][..n] == ranked[..n];
    assert ranked[n] in ranked[..n + 1];
    if ranked[n] in Chosen(ranked[..n], period) { ChosenFrom(ranked[..n], period, ranked[n]); }
  }

  lemma {:induction false} AllottedNext(s: seq<Proposal>, p: Proposal)
    ensures AllAllotted(s + [p]) == AllAllotted(s) + [Allotted(p)]
    ensures Allocated(s + [p]) == Allocated(s) + p.nAmount
  {
    assert (s + [p])[..|s|] == s;
  }

  /** Earlier in the ranking: more votes, or as many and a fee hash that is not smaller. */
  predicate NotBehind(a: Proposal, b: Proposal) {
    a.nVotes > b.nVotes || (a.nVotes == b.nVotes && a.nFeeTXHash >= b.nFeeTXHash)
  }

  lemma {:induction false} RankedByVotes(ranked: seq<Proposal>)
    requires Sorted(ranked, Ahead)
    ensures forall i, j :: 0 <= i < j < |ranked| ==> NotBehind(ranked[i], ranked[j])
  {
    forall i, j | 0 <= i < j < |ranked| ensures NotBehind(ranked[i], ranked[j]) {
      assert !Ahead(ranked[j], ranked[i]);
    }
  }

  /** A pick: valid, established, with more votes than the threshold, running over the period, and paid its amount. */
  predicate Paid(p: Proposal, period: Period) {
    && p.fValid && p.fEstablished && p.nVotes > period.nThreshold
    && p.nBlockStart <= period.blockStart && period.blockEnd <= p.nBlockEnd && p.nAlloted == p.nAmount
  }

  lemma {:induction false} PicksPaid(ranked: seq<Proposal>, period: Period)
    ensures var picks := AllAllotted(Chosen(ranked, period)); forall i :: 0 <= i < |picks| ==> Paid(picks[i], period)
  {
    var picks := AllAllotted(Chosen(ranked, period));
    forall i | 0 <= i < |picks| ensures Paid(picks[i], period) {
      ChosenFrom(ranked, period, Chosen(ranked, period)[i]);
    }
  }

  /** What becomes of a proposal: one that could be paid is allotted its amount or nothing, others keep theirs. */
  ghost predicate AllottedAt(was: seq<Proposal>, now: seq<Proposal>, picks: seq<Proposal>, period: Period, i: int) {
    0 <= i < |was| && i < |now| ==>
      && now[i] == was[i].(nAlloted := now[i].nAlloted)
      && (if Paid(was[i].(nAlloted := was[i].nAmount), period)
          then now[i].nAlloted == if Allotted(was[i]) in picks then was[i].nAmount else 0
          else now[i].nAlloted == was[i].nAlloted)
  }

  lemma {:induction false} SettledAllots(was: seq<Proposal>, now: seq<Proposal>, ranked: seq<Proposal>, period: Period,
                                         i: int)
    requires Distinct(ranked) && multiset(ranked) == multiset(was) && SettledAt(was, now, ranked, period, i)
    ensures AllottedAt(was, now, AllAllotted(Chosen(ranked, period)), period, i)
  {
    if 0 <= i < |was| && i < |now| {
      var p, chosen := was[i], Chosen(ranked, period);
      assert p in multiset(ranked);
      if p in chosen {
        var k :| 0 <= k < |chosen| && chosen[k] == p;
        assert AllAllotted(chosen)[k] == Allotted(p);
      } else if Allotted(p) in AllAllotted(chosen) {
        PickedIs(ranked, period, p);
      }
    }
  }

  /** A pick comes of the proposal with its hash. */
  lemma {:induction false} PickedIs(ranked: seq<Proposal>, period: Period, p: Proposal)
    requires Distinct(ranked) && p in ranked && Allotted(p) in AllAllotted(Chosen(ranked, period))
    ensures p in Chosen(ranked, period)
  {
    var chosen := Chosen(ranked, period);
    var k :| 0 <= k < |chosen| && AllAllotted(chosen)[k] == Allotted(p);
    ChosenFrom(ranked, period, chosen[k]);
    var n :| 0 <= n < |ranked| && ranked[n] == chosen[k];
    SameHash(ranked, n, p);
  }

  class BudgetManager {
    /** `mapProposals`, in the order of its keys. */
    var proposals: seq<Proposal>

    /** Sets what a proposal is allotted. */
    method SetAllotted(hash: nat, nAlloted: int)
      modifies this
      ensures |proposals| == |old(proposals)|
      ensures forall i :: 0 <= i < |proposals| ==>
        proposals[i] == if old(proposals)[i].hash == hash then old(proposals)[i].(nAlloted := nAlloted)
          else old(proposals)[i]
    {
      ghost var was := proposals;
      for k := 0 to |proposals|
        invariant |proposals| == |was|
        invariant forall i :: 0 <= i < |was| ==>
          proposals[i] == if i < k && was[i].hash == hash then was[i].(nAlloted := nAlloted) else was[i]
      {
        if proposals[k].hash == hash {
          proposals := proposals[k := proposals[k].(nAlloted := nAlloted)];
        }
      }
    }

    /** One step of the greedy loop. */
    method Consider(p: Proposal, period: Period, nBudgetAllocated: int) returns (taken: bool)
      modifies this
      ensures taken <==> Eligible(p, period) && p.nAmount + nBudgetAllocated <= period.totalBudget
      ensures |proposals| == |old(proposals)|
      ensures forall i :: 0 <= i < |proposals| ==>
        proposals[i] == if Eligible(p, period) && old(proposals)[i].hash == p.hash
                        then old(proposals)[i].(nAlloted := if taken then p.nAmount else 0) else old(proposals)[i]
    {
      taken := false;
      if Eligible(p, period) {
        if p.nAmount + nBudgetAllocated <= period.totalBudget {
          SetAllotted(p.hash, p.nAmount);
          taken := true;
        } else {
          SetAllotted(p.hash, 0);
        }
      }
    }

    /** Takes the proposals in order of rank while they fit. */
    method GetBudget(period: Period) returns (picks: seq<Proposal>, ghost ranked: seq<Proposal>)
      requires Distinct(proposals)
      modifies this
      ensures Sorted(ranked, Ahead) && multiset(ranked) == multiset(old(proposals))
      ensures forall i, j :: 0 <= i < j < |ranked| ==> NotBehind(ranked[i], ranked[j])
      ensures picks == AllAllotted(Chosen(ranked, period))
      ensures forall i :: 0 <= i < |picks| ==> Paid(picks[i], period)
      ensures |proposals| == |old(proposals)|
      ensures forall i :: SettledAt(old(proposals), proposals, ranked, period, i)
      ensures forall i :: AllottedAt(old(proposals), proposals, picks, period, i)
    {
      RankOrder();
      ghost var was := proposals;
      var sorted := Sort(proposals, Ahead);
      ranked := sorted;
      DistinctOfSame(sorted, proposals);
      var nBudgetAllocated := 0;
      picks := [];
      for n := 0 to |sorted|
        invariant picks == AllAllotted(Chosen(sorted[..n], period))
        invariant nBudgetAllocated == Allocated(Chosen(sorted[..n], period))
        invariant |proposals| == |was| && forall i :: SettledAt(was, proposals, sorted[..n], period, i)
      {
        var p := sorted[n];
        ghost var before := proposals;
        var taken := Consider(p, period, nBudgetAllocated);
        assert sorted[..n + 1][..n] == sorted[..n];
        AllottedNext(Chosen(sorted[..n], period), p);
        if taken {
          picks := picks + [Allotted(p)];
          nBudgetAllocated := nBudgetAllocated + p.nAmount;
        }
        ghost var next := sorted[..n + 1];
        forall i ensures SettledAt(was, proposals, next, period, i) {
          assert SettledAt(was, before, sorted[..n], period, i);
          if 0 <= i < |was| {
            assert was[i] in multiset(sorted);
            if was[i].hash == p.hash { SameHash(sorted, n, was[i]); SettledNew(sorted, n, period); }
            else { SettledNext(was[i], sorted, n, period); }
          }
        }
      }
      assert sorted[..|sorted|] == sorted;
      RankedByVotes(sorted);
      PicksPaid(sorted, period);
      forall i ensures AllottedAt(was, proposals, picks, period, i) {
        SettledAllots(was, proposals, sorted, period, i);
      }
    }
  }

  lemma {:induction false} SameHash(s: seq<Proposal>, n: nat, p: Proposal)
    requires Distinct(s) && n < |s| && p in s && p.hash == s[n].hash
    ensures p == s[n]
  {
  }

  // ---------------------------------------------------------------- drafts

  /** What a draft pays: the allotted amounts. */
  function AllottedPayments(s: seq<Proposal>): seq<Payment> {
    seq(|s|, i requires 0 <= i < |s| => Payment(s[i].hash, s[i].payee, s[i].nAlloted))
  }

  /** Builds the payments of a draft. */
  method BuildPayments(picks: seq<Proposal>) returns (v: seq<Payment>)
    ensures v == AllottedPayments(picks) && |v| == |picks|
    ensures forall i :: 0 <= i < |v| ==>
      v[i].nProposalHash == picks[i].hash && v[i].payee == picks[i].payee && v[i].nAmount == picks[i].nAlloted
  {
    v := [];
    for i := 0 to |picks|
      invariant v == AllottedPayments(picks)[..i]
    {
      v := v + [Payment(picks[i].hash, picks[i].payee, picks[i].nAlloted)];
    }
  }

  method GetTotalPayout(payments: seq<Payment>) returns (ret: int)
    ensures ret == Total(payments)
  {
    ret := 0;
    for i := 0 to |payments|
      invariant ret == Total(payments[..i])
    {
      assert payments[..i + 1][..i] == payments[..i];
      ret := ret + payments[i].nAmount;
    }
    assert payments[..|payments|] == payments;
  }

  /** `SortByAmount` */
  predicate SortByAmount(a: Proposal, b: Proposal) {
    if a.nAmount != b.nAmount then a.nAmount > b.nAmount
    else if a.hash != b.hash then a.hash < b.hash
    else a.payee < b.payee
  }

  lemma {:induction false} AmountOrder()
    ensures StrictOrder(SortByAmount)
  {
  }

  /** The comparison of a draft with the node's own choice: it matches exactly if both have the same payments. */
  method SamePayments(payments: seq<Payment>, picks: seq<Proposal>) returns (matches: bool)
    requires Sorted(payments, ComparePayments)
    ensures matches <==> picks != [] && multiset(payments) == multiset(PaymentsOf(picks))
  {
    AmountOrder();
    var v := Sort(picks, SortByAmount);
    OwnPayments(payments, picks, v);
    if |v| == 0 {
      return false;
    }
    if |v| != |payments| {
      return false;
    }
    for i := 0 to |payments|
      invariant forall k :: 0 <= k < i ==> payments[k] == PaymentOf(v[k])
    {
      if payments[i].nProposalHash != v[i].hash || payments[i].payee != v[i].payee
         || payments[i].nAmount != v[i].nAmount
      {
        assert payments[i] != PaymentsOf(v)[i];
        return false;
      }
    }
    assert payments == PaymentsOf(v);
    matches := true;
  }

  /** The sorted choice lists the same payments exactly if it has the same ones. */
  lemma {:induction false} OwnPayments(payments: seq<Payment>, picks: seq<Proposal>, v: seq<Proposal>)
    requires Sorted(payments, ComparePayments) && Sorted(v, SortByAmount) && multiset(v) == multiset(picks)
    ensures |v| == |picks|
    ensures multiset(payments) == multiset(PaymentsOf(picks)) <==> payments == PaymentsOf(v)
  {
    PaymentsOfSame(v, picks);
    assert |v| == |multiset(v)| == |multiset(picks)| == |picks|;
    var own := PaymentsOf(v);
    forall i, j | 0 <= i < j < |own|
      ensures !ComparePayments(own[j], own[i])
    {
      assert !SortByAmount(v[j], v[i]);
    }
    if multiset(payments) == multiset(own) { SortedUnique(payments, own); }
  }

  const VOTE_UPDATE_MIN: int := 30 * 60

  const MAX_PAYMENTS: nat := 100

  /** `GetNextSuperblock` */
  function NextSuperblock(height: nat, nCycle: nat): nat
    requires nCycle > 0
  {
    height - height % nCycle + nCycle
  }

  /** The next superblock is ahead, and a multiple of the cycle. */
  lemma {:induction false} NextSuperblockIs(height: nat, nCycle: nat)
    requires nCycle > 0
    ensures height < NextSuperblock(height, nCycle) <= height + nCycle && NextSuperblock(height, nCycle) % nCycle == 0
  {
    var q, r := height / nCycle, height % nCycle;
    assert height == q * nCycle + r;
    assert height - r + nCycle == (q + 1) * nCycle;
    DivModUnique(height - r + nCycle, nCycle, q + 1, 0);
  }

  /** The order of a draft: larger amounts first, then smaller hashes, then smaller payees. */
  predicate PaysFirst(a: Payment, b: Payment) {
    || a.nAmount > b.nAmount
    || (a.nAmount == b.nAmount
        && (a.nProposalHash < b.nProposalHash || (a.nProposalHash == b.nProposalHash && a.payee <= b.payee)))
  }

  lemma {:induction false} DraftOrder(s: seq<Payment>)
    requires Sorted(s, ComparePayments)
    ensures forall i, j :: 0 <= i < j < |s| ==> PaysFirst(s[i], s[j])
  {
    forall i, j | 0 <= i < j < |s| ensures PaysFirst(s[i], s[j]) { assert !ComparePayments(s[j], s[i]); }
  }

  class BudgetDraft {
    const m_blockStart: int
    const m_payments: seq<Payment>
    var m_autoChecked: bool
    var m_voteSubmittedTime: Option<int>

    ghost predicate Valid() {
      Sorted(m_payments, ComparePayments)
    }

    /** The constructor sorts the payments. */
    constructor (nBlockStart: int, vecPayments: seq<Payment>)
      ensures Valid() && m_blockStart == nBlockStart && multiset(m_payments) == multiset(vecPayments)
      ensures forall i, j :: 0 <= i < j < |m_payments| ==> PaysFirst(m_payments[i], m_payments[j])
      ensures !m_autoChecked && m_voteSubmittedTime.None?
    {
      PaymentOrder();
      var sorted := Sort(vecPayments, ComparePayments);
      DraftOrder(sorted);
      m_blockStart, m_payments, m_autoChecked, m_voteSubmittedTime := nBlockStart, sorted, false, None;
    }

    /** `IsValid`; whether the collateral or the producer's signature is good is a parameter. */
    method IsValid(nCycle: nat, nTotalBudget: int, fAuthorised: bool, nTip: Option<int>) returns (valid: bool)
      requires Valid() && nCycle > 0
      ensures valid <==>
        && m_blockStart % nCycle == 0 && m_blockStart != 0 && |m_payments| <= 100
        && Total(m_payments) <= nTotalBudget && fAuthorised
        && (nTip.Some? ==> m_blockStart >= nTip.value - 100)
    {
      if m_blockStart % nCycle != 0 {
        return false;
      }
      if |m_payments| > MAX_PAYMENTS {
        return false;
      }
      if m_blockStart == 0 {
        return false;
      }
      var total := GetTotalPayout(m_payments);
      if total > nTotalBudget {
        return false;
      }
      if !fAuthorised {
        return false;
      }
      valid := nTip.None? || m_blockStart >= nTip.value - 100;
    }

    /** Whether the draft is looked at now: on a masternode, once, and not too soon after a vote. */
    predicate Due(fTip: bool, fMasterNode: bool, now: int)
      reads this
    {
      && fTip && fMasterNode && !m_autoChecked
      && (m_voteSubmittedTime.Some? ==> now - m_voteSubmittedTime.value >= 1800)
    }

    /** `AutoCheck`: votes for a draft that is due and matches the node's own choice. */
    method AutoCheck(fTip: bool, fMasterNode: bool, now: int, fVoteAccepted: bool, picks: seq<Proposal>)
      returns (matches: bool)
      requires Valid()
      modifies this
      ensures matches <==>
        old(Due(fTip, fMasterNode, now)) && picks != [] && multiset(m_payments) == multiset(PaymentsOf(picks))
      ensures m_autoChecked <==> old(m_autoChecked) || old(Due(fTip, fMasterNode, now))
      ensures m_voteSubmittedTime == if matches && fVoteAccepted then Some(now) else old(m_voteSubmittedTime)
    {
      if !fTip {
        return false;
      }
      if !fMasterNode || m_autoChecked {
        return false;
      }
      if m_voteSubmittedTime.Some? && now - m_voteSubmittedTime.value < VOTE_UPDATE_MIN {
        return false;
      }
      m_autoChecked := true;
      matches := SamePayments(m_payments, picks);
      if matches && fVoteAccepted {
        m_voteSubmittedTime := Some(now);
      }
    }
  }

  /** Proposals of one coin each, in their order by votes. */
  function SmallOnes(n: nat, votes: nat): seq<Proposal> {
    if n == 0 then []
    else SmallOnes(n - 1, votes) + [Proposal(n, n, 1, votes - n, 0, true, 0, 0, true, 0)]
  }

  lemma {:induction false} SmallOnesVotes(n: nat, votes: nat, i: nat)
    requires i < n
    ensures |SmallOnes(n, votes)| == n && SmallOnes(n, votes)[i].nVotes == votes - 1 - i
  {
    if n > 1 { SmallOnesVotes(n - 1, votes, if i < n - 1 then i else 0); }
  }

  lemma {:induction false} SmallOnesChosen(n: nat, votes: nat, period: Period)
    requires n < votes && n <= period.totalBudget && period.blockStart >= 0 >= period.blockEnd && period.nThreshold == 0
    ensures Chosen(SmallOnes(n, votes), period) == SmallOnes(n, votes) && Allocated(SmallOnes(n, votes)) == n
  {
    if n > 0 {
      SmallOnesChosen(n - 1, votes, period);
      OneMoreChosen(SmallOnes(n - 1, votes), Proposal(n, n, 1, votes - n, 0, true, 0, 0, true, 0), period);
    }
  }

  lemma {:induction false} OneMoreChosen(s: seq<Proposal>, p: Proposal, period: Period)
    requires Chosen(s, period) == s && Eligible(p, period) && p.nAmount + Allocated(s) <= period.totalBudget
    ensures Chosen(s + [p], period) == s + [p] && Allocated(s + [p]) == Allocated(s) + p.nAmount
  {
    assert (s + [p])[..|s|] == s;
  }

  /** More proposals than a draft may have, ranked by their votes, are all chosen. */
  lemma {:induction false} TooManyChosen()
    ensures var n := MAX_PAYMENTS + 1;
            var ranked, period := SmallOnes(n, n + 1), Period(0, 0, n, 0);
            Sorted(ranked, Ahead) && |Chosen(ranked, period)| > 100
  {
    var n := MAX_PAYMENTS + 1;
    SmallOnesChosen(n, n + 1, Period(0, 0, n, 0));
    SmallOnesVotes(n, n + 1, 0);
    SmallOnesSorted(n, n + 1);
  }

  lemma {:induction false} SmallOnesSorted(n: nat, votes: nat)
    ensures Sorted(SmallOnes(n, votes), Ahead)
  {
    var s := SmallOnes(n, votes);
    if n > 0 { SmallOnesVotes(n, votes, 0); }
    forall i, j | 0 <= i < j < |s| ensures !Ahead(s[j], s[i]) {
      SmallOnesVotes(n, votes, i);
      SmallOnesVotes(n, votes, j);
    }
  }

  /** The payments of a choice are within the budget. */
  lemma {:induction false} ChoiceWithinBudget(ranked: seq<Proposal>, period: Period, payments: seq<Payment>)
    requires Chosen(ranked, period) != []
    requires multiset(payments) == multiset(AllottedPayments(AllAllotted(Chosen(ranked, period))))
    ensures |payments| == |Chosen(ranked, period)| && Total(payments) <= period.totalBudget
    ensures AllottedPayments(AllAllotted(Chosen(ranked, period))) == PaymentsOf(AllAllotted(Chosen(ranked, period)))
  {
    var picks := Chosen(ranked, period);
    var p := AllottedPayments(AllAllotted(picks));
    assert p == PaymentsOf(AllAllotted(picks)) == PaymentsOf(picks);
    assert |payments| == |multiset(payments)| == |multiset(p)| == |p|;
    TotalOfSame(payments, p);
    PaymentsTotal(picks);
    ChosenFits(ranked, period);
  }

  /**
   * A draft of one node's choice for the next superblock is valid exactly if it has no more than a
   * hundred payments, and the nodes that vote for it are those that choose the same payments.
   */
  method Recognised(height: nat, nCycle: nat, period: Period, mine: seq<Proposal>, theirs: seq<Proposal>,
                    now: int, ghost ranked: seq<Proposal>)
    returns (valid: bool, matches: bool)
    requires nCycle > 0 && period.blockStart == NextSuperblock(height, nCycle)
    requires mine == AllAllotted(Chosen(ranked, period)) && mine != []
    ensures valid <==> |mine| <= 100
    ensures matches <==> multiset(PaymentsOf(mine)) == multiset(PaymentsOf(theirs))
  {
    var payments := BuildPayments(mine);
    var draft := new BudgetDraft(period.blockStart, payments);
    ChoiceWithinBudget(ranked, period, draft.m_payments);
    NextSuperblockIs(height, nCycle);
    valid := draft.IsValid(nCycle, period.totalBudget, true, Some(height));
    matches := draft.AutoCheck(true, true, now, true, theirs);
    if multiset(PaymentsOf(mine)) == multiset(PaymentsOf(theirs)) {
      NoneIsNone(PaymentsOf(mine), PaymentsOf(theirs));
    }
  }

  lemma {:induction false} NoneIsNone<T>(s: seq<T>, t: seq<T>)
    requires s != [] && multiset(s) == multiset(t)
    ensures t != []
  {
    assert s[0] in multiset(t);
  }
}
