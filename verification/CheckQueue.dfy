/**
 * The parallel verification queue (`CCheckQueue`): one master and any number of workers.
 *
 * Each critical section is one atomic step of a thread; running one check is a step of its
 * own.  A blocked thread may wake at any time, notified or not.
 */
module CheckQueue {
  import opened Basics
  import opened Powers

  /** A check and the answer it gives when it is run. */
  datatype Check = Check(id: nat, ok: bool)

  /** The fields guarded by the mutex. */
  datatype Shared = Shared(queue: seq<Check>, nIdle: int, nTotal: int, fAllOk: bool, nTodo: int)

  /** How a critical section of `Loop` ends. */
  datatype Outcome = Return(ret: bool) | Block | Batch(checks: seq<Check>)

  function Reverse(s: seq<Check>): seq<Check> {
    if s == [] then [] else Reverse(s[1..]) + [s[0]]
  }

  lemma {:induction false} ReverseBag(s: seq<Check>)
    ensures |Reverse(s)| == |s| && multiset(Reverse(s)) == multiset(s)
  {
    if s != [] {
      ReverseBag(s[1..]);
      assert s == [s[0]] + s[1..];
    }
  }

  /** How many checks a thread takes; at least one, and never more than there are. */
  function BatchSize(sh: Shared, nBatchSize: nat): (n: nat)
    requires sh.nTotal >= 0 && sh.nIdle >= 0 && |sh.queue| > 0
    ensures 1 <= n <= |sh.queue| && (nBatchSize > 0 ==> n <= nBatchSize)
  {
    var d := sh.nTotal + sh.nIdle + 1;
    assert |sh.queue| / d <= |sh.queue| by { DivSmaller(|sh.queue|, d); }
    Max(1, Min(nBatchSize, |sh.queue| / d))
  }

  lemma {:induction false} DivSmaller(a: nat, d: int)
    requires d >= 1
    ensures 0 <= a / d <= a
  {
    assert a == d * (a / d) + a % d;
  }

  /** The inner loop of `Loop`, from "logically, the do loop starts here". */
  function LookForWork(sh: Shared, isMaster: bool, nBatchSize: nat): (Shared, Outcome)
    requires sh.nTotal >= 0 && sh.nIdle >= 0
  {
    if sh.queue == [] then
      if isMaster && sh.nTodo == 0 then
        (sh.(nTotal := sh.nTotal - 1, fAllOk := true), Return(sh.fAllOk))
      else
        (sh.(nIdle := sh.nIdle + 1), Block)
    else
      var n := BatchSize(sh, nBatchSize);
      var rest := |sh.queue| - n;
      (sh.(queue := sh.queue[..rest]), Batch(Reverse(sh.queue[rest..])))
  }

  /** The size of a batch: an even share of the queue for all threads, the idle ones counted twice, and one more, but
      at least one check and no more than allowed. */
  predicate IsShare(sh: Shared, nBatchSize: nat, n: nat) {
    var share := sh.nTotal + sh.nIdle + 1;
    && 1 <= n && (n > 1 ==> n <= nBatchSize && n * share <= |sh.queue|)
    && (n < nBatchSize ==> (n + 1) * share > |sh.queue|)
  }

  lemma {:induction false} BatchIsShare(sh: Shared, nBatchSize: nat)
    requires sh.nTotal >= 0 && sh.nIdle >= 0 && |sh.queue| > 0
    ensures IsShare(sh, nBatchSize, BatchSize(sh, nBatchSize))
  {
    var share := sh.nTotal + sh.nIdle + 1;
    ShareBounds(|sh.queue|, share, |sh.queue| / share, |sh.queue| % share, BatchSize(sh, nBatchSize), nBatchSize);
  }

  lemma {:induction false} ShareBounds(size: nat, share: nat, q: nat, r: nat, n: nat, limit: nat)
    requires size == q * share + r && r < share && n == Max(1, Min(limit, q))
    ensures (n > 1 ==> n <= limit && n * share <= size) && (n < limit ==> (n + 1) * share > size)
  {
    if n > 1 { MulMono(n, q, share); }
    if n < limit {
      MulMono(q + 1, n + 1, share);
      assert (q + 1) * share == q * share + share;
    }
  }

  /** The end of a search for work, field by field: a batch is the end of the queue, its last check first. */
  ghost predicate Found(sh: Shared, isMaster: bool, nBatchSize: nat, sh': Shared, o: Outcome) {
    match o
    case Return(ret) =>
      && isMaster && sh.queue == [] && sh.nTodo == 0 && ret == sh.fAllOk
      && sh' == Shared([], sh.nIdle, sh.nTotal - 1, true, 0)
    case Block =>
      && sh.queue == [] && !(isMaster && sh.nTodo == 0)
      && sh' == Shared([], sh.nIdle + 1, sh.nTotal, sh.fAllOk, sh.nTodo)
    case Batch(checks) =>
      && 0 < |checks| <= |sh.queue| && sh' == Shared(sh'.queue, sh.nIdle, sh.nTotal, sh.fAllOk, sh.nTodo)
      && sh'.queue == sh.queue[..|sh.queue| - |checks|]
      && (forall i :: 0 <= i < |checks| ==> checks[i] == sh.queue[|sh.queue| - 1 - i])
      && IsShare(sh, nBatchSize, |checks|)
  }

  lemma {:induction false} ReverseAt(s: seq<Check>, i: nat)
    requires i < |s|
    ensures |Reverse(s)| == |s| && Reverse(s)[i] == s[|s| - 1 - i]
  {
    if |s| > 1 { ReverseAt(s[1..], if i < |s| - 1 then i else 0); }
  }

  lemma {:induction false} LookFinds(sh: Shared, isMaster: bool, nBatchSize: nat)
    requires sh.nTotal >= 0 && sh.nIdle >= 0
    ensures var (sh', o) := LookForWork(sh, isMaster, nBatchSize); Found(sh, isMaster, nBatchSize, sh', o)
  {
    if sh.queue != [] {
      var n := BatchSize(sh, nBatchSize);
      var tail := sh.queue[|sh.queue| - n..];
      forall i | 0 <= i < n ensures |Reverse(tail)| == n && Reverse(tail)[i] == sh.queue[|sh.queue| - 1 - i] {
        ReverseAt(tail, i);
      }
      ReverseBag(tail);
      BatchIsShare(sh, nBatchSize);
    }
  }

  /** The clean-up at the head of a critical section: a batch is accounted for, or a new thread counted. */
  function Accounted(sh: Shared, nNow: nat, fOk: bool): Shared {
    if nNow != 0 then sh.(fAllOk := sh.fAllOk && fOk, nTodo := sh.nTodo - nNow) else sh.(nTotal := sh.nTotal + 1)
  }

  /** Which workers `Add` notifies. */
  datatype Wakeup = Nobody | OneWorker | AllWorkers

  function WakeupFor(n: nat): Wakeup {
    if n == 0 then Nobody else if n == 1 then OneWorker else AllWorkers
  }

  /** The queue as an object.  `Add`, `Section`, `Resume` and `IsIdle` are its critical sections. */
  class CheckQueue {
    var queue: seq<Check>
    var nIdle: int
    var nTotal: int
    var fAllOk: bool
    var nTodo: int
    const nBatchSize: nat

    constructor (nBatchSizeIn: nat)
      ensures Fields() == Shared([], 0, 0, true, 0) && nBatchSize == nBatchSizeIn
    {
      queue, nIdle, nTotal, fAllOk, nTodo, nBatchSize := [], 0, 0, true, 0, nBatchSizeIn;
    }

    function Fields(): Shared
      reads this
    {
      Shared(queue, nIdle, nTotal, fAllOk, nTodo)
    }

    /** Adds checks, and tells which workers to notify. */
    method Add(vChecks: seq<Check>) returns (w: Wakeup)
      modifies this
      ensures Fields() == old(Fields()).(queue := old(queue) + vChecks, nTodo := old(nTodo) + |vChecks|)
      ensures w == WakeupFor(|vChecks|)
      ensures (w.Nobody? <==> |vChecks| == 0) && (w.OneWorker? <==> |vChecks| == 1)
    {
      for i := 0 to |vChecks|
        invariant Fields() == old(Fields()).(queue := old(queue) + vChecks[..i])
      {
        queue := queue + [vChecks[i]];
      }
      assert vChecks[..|vChecks|] == vChecks;
      nTodo := nTodo + |vChecks|;
      w := Nobody;
      if |vChecks| == 1 {
        w := OneWorker;
      } else if |vChecks| > 1 {
        w := AllWorkers;
      }
    }

    /** A critical section of `Loop` from its head: `nNow` checks of a batch are done with the answer
        `fOk`, or the thread is new; the master is notified of the last batch. */
    method Section(nNow: nat, fOk: bool, isMaster: bool) returns (fNotifyMaster: bool, o: Outcome)
      requires nTotal >= 0 && nIdle >= 0
      modifies this
      ensures (Fields(), o) == LookForWork(Accounted(old(Fields()), nNow, fOk), isMaster, nBatchSize)
      ensures fNotifyMaster <==> nNow != 0 && old(nTodo) == nNow && !isMaster
      ensures var sh := old(Fields());
              Found(if nNow == 0 then sh.(nTotal := sh.nTotal + 1)
                    else sh.(fAllOk := sh.fAllOk && fOk, nTodo := sh.nTodo - nNow), isMaster, nBatchSize, Fields(), o)
    {
      fNotifyMaster := false;
      if nNow != 0 {
        fAllOk := fAllOk && fOk;
        nTodo := nTodo - nNow;
        if nTodo == 0 && !isMaster {
          fNotifyMaster := true;
        }
      } else {
        nTotal := nTotal + 1;
      }
      o := Proceed(isMaster);
    }

    /** The critical section after `cond.wait`. */
    method Resume(isMaster: bool) returns (o: Outcome)
      requires nTotal >= 0 && nIdle > 0
      modifies this
      ensures (Fields(), o) == LookForWork(old(Fields()).(nIdle := old(nIdle) - 1), isMaster, nBatchSize)
      ensures Found(old(Fields()).(nIdle := old(nIdle) - 1), isMaster, nBatchSize, Fields(), o)
    {
      nIdle := nIdle - 1;
      o := Proceed(isMaster);
    }

    /** Leaving with an answer, going to sleep, or moving the end of the queue into a batch. */
    method Proceed(isMaster: bool) returns (o: Outcome)
      requires nTotal >= 0 && nIdle >= 0
      modifies this
      ensures (Fields(), o) == LookForWork(old(Fields()), isMaster, nBatchSize)
      ensures Found(old(Fields()), isMaster, nBatchSize, Fields(), o)
    {
      LookFinds(Fields(), isMaster, nBatchSize);
      if queue == [] {
        if isMaster && nTodo == 0 {
          nTotal := nTotal - 1;
          o := Return(fAllOk);
          fAllOk := true;
          return;
        }
        nIdle := nIdle + 1;
        return Block;
      }
      var nNow := BatchSize(Fields(), nBatchSize);
      var vChecks := PopBatch(nNow);
      return Batch(vChecks);
    }

    /** Moving checks from the back of the queue one by one reverses them. */
    method PopBatch(nNow: nat) returns (vChecks: seq<Check>)
      requires nNow <= |queue|
      modifies this`queue
      ensures queue == old(queue)[..|old(queue)| - nNow]
      ensures vChecks == Reverse(old(queue)[|old(queue)| - nNow..])
    {
      ghost var all := queue;
      vChecks := [];
      for i := 0 to nNow
        invariant queue == all[..|all| - i]
        invariant vChecks == Reverse(all[|all| - i..])
      {
        ReverseStep(all, |all| - i - 1);
        vChecks := vChecks + [queue[|queue| - 1]];
        queue := queue[..|queue| - 1];
      }
    }

    method IsIdle() returns (idle: bool)
      ensures idle <==> Idle(Fields())
      ensures idle <==> nTotal == nIdle && nTodo == 0 && fAllOk
    {
      idle := nTotal == nIdle && nTodo == 0 && fAllOk;
    }
  }

  lemma {:induction false} ReverseStep(s: seq<Check>, i: nat)
    requires i < |s|
    ensures Reverse(s[i..]) == Reverse(s[i + 1..]) + [s[i]]
  {
    assert s[i..][1..] == s[i + 1..];
  }

  predicate Idle(sh: Shared) {
    sh.nTotal == sh.nIdle && sh.nTodo == 0 && sh.fAllOk
  }

  // -------------------------------------------------------------- the protocol

  /** Where a thread is while it does not hold the mutex. */
  datatype Thread = Outside | Sleeping | Working(batch: seq<Check>, done: nat, ok: bool)

  /** Thread 0 is the master.  `notified` are the sleepers with a pending notification;
      `added` and `finished` record the checks added and completed since the last `Wait`. */
  datatype State = State(sh: Shared, threads: seq<Thread>, notified: set<nat>,
                         added: multiset<Check>, finished: multiset<Check>)

  datatype Step =
    | AddChecks(checks: seq<Check>, woken: nat)   // the master calls Add
    | Enter(t: nat)                               // Thread() or Wait() begins
    | RunCheck(t: nat)                            // one check of a batch is run, or skipped
    | FinishBatch(t: nat)                         // the batch is accounted for
    | Wake(t: nat)                                // leaving cond.wait, possibly spuriously

  function Init(nThreads: nat): State {
    State(Shared([], 0, 0, true, 0), seq(nThreads + 1, i => Outside), {}, multiset{}, multiset{})
  }

  predicate SleepingWorker(s: State, t: nat) {
    0 < t < |s.threads| && s.threads[t] == Sleeping
  }

  predicate Enabled(s: State, step: Step) {
    match step
    case AddChecks(_, _) => 0 < |s.threads| && s.threads[0] == Outside
    case Enter(t) => t < |s.threads| && s.threads[t] == Outside
    case RunCheck(t) => t < |s.threads| && s.threads[t].Working? && s.threads[t].done < |s.threads[t].batch|
    case FinishBatch(t) => t < |s.threads| && s.threads[t].Working? && s.threads[t].done == |s.threads[t].batch|
    case Wake(t) => t < |s.threads| && s.threads[t] == Sleeping
  }

  // --------------------------------------------------------------- bookkeeping

  function Inside(th: Thread): int { if th == Outside then 0 else 1 }
  function Idling(th: Thread): int { if th == Sleeping then 1 else 0 }
  function Load(th: Thread): int { if th.Working? then |th.batch| else 0 }
  function Held(c: Check): Thread -> int { (th: Thread) => if th.Working? then multiset(th.batch)[c] else 0 }

  ghost function Sum(ts: seq<Thread>, f: Thread -> int): int {
    if ts == [] then 0 else f(ts[0]) + Sum(ts[1..], f)
  }

  lemma {:induction false} SumUpdate(ts: seq<Thread>, f: Thread -> int, t: nat, th: Thread)
    requires t < |ts|
    ensures Sum(ts[t := th], f) == Sum(ts, f) - f(ts[t]) + f(th)
  {
    if t == 0 {
      assert ts[t := th][1..] == ts[1..];
    } else {
      SumUpdate(ts[1..], f, t - 1, th);
      assert ts[t := th][1..] == ts[1..][t - 1 := th];
    }
  }

  lemma {:induction false} SumPositive(ts: seq<Thread>, f: Thread -> int, t: nat)
    requires t < |ts| && forall th :: f(th) >= 0
    ensures Sum(ts, f) >= f(ts[t]) >= 0
  {
    SumNonneg(ts[1..], f);
    if t > 0 { SumPositive(ts[1..], f, t - 1); }
  }

  lemma {:induction false} SumNonneg(ts: seq<Thread>, f: Thread -> int)
    requires forall th :: f(th) >= 0
    ensures Sum(ts, f) >= 0
  {
    if ts != [] { SumNonneg(ts[1..], f); }
  }

  lemma {:induction false} SumZero(ts: seq<Thread>, f: Thread -> int)
    requires forall t :: 0 <= t < |ts| ==> f(ts[t]) == 0
    ensures Sum(ts, f) == 0
  {
    if ts != [] { SumZero(ts[1..], f); }
  }

  // ------------------------------------------------------------- the invariant

  ghost predicate AllGood(b: multiset<Check>) { forall c :: c in b ==> c.ok }

  predicate WellShaped(th: Thread) {
    th.Working? ==> 1 <= |th.batch| && th.done <= |th.batch|
  }

  /** A verdict is never better, and never worse, than the checks seen so far allow. */
  ghost predicate VerdictOk(th: Thread, added: multiset<Check>) {
    th.Working? ==> if th.ok then forall i :: 0 <= i < th.done <= |th.batch| ==> th.batch[i].ok else !AllGood(added)
  }

  ghost predicate Counted(s: State) {
    && s.sh.nTotal == Sum(s.threads, Inside)
    && s.sh.nIdle == Sum(s.threads, Idling)
    && s.sh.nTodo == |s.sh.queue| + Sum(s.threads, Load)
  }

  /** Every check added is in the queue, in exactly one batch, or completed. */
  ghost predicate Conserved(s: State) {
    forall c :: s.added[c] == multiset(s.sh.queue)[c] + Sum(s.threads, Held(c)) + s.finished[c]
  }

  ghost predicate Judged(s: State) {
    && (if s.sh.fAllOk then AllGood(s.finished) else !AllGood(s.added))
    && (forall t :: 0 <= t < |s.threads| ==> VerdictOk(s.threads[t], s.added))
  }

  /** A sleeping master has nothing to do, and is told when the last batch is done. */
  predicate MasterWaits(s: State) {
    && 0 < |s.threads|
    && (s.threads[0] == Sleeping ==> s.sh.queue == [] && (s.sh.nTodo > 0 || 0 in s.notified))
  }

  ghost predicate Inv(s: State) {
    && (forall t :: 0 <= t < |s.threads| ==> WellShaped(s.threads[t]))
    && Counted(s) && Conserved(s) && Judged(s) && MasterWaits(s)
    && (forall t :: t in s.notified ==> t < |s.threads| && s.threads[t] == Sleeping)
  }

  lemma {:induction false} Counts(s: State)
    requires Counted(s)
    ensures s.sh.nTotal >= 0 && s.sh.nIdle >= 0
    ensures forall t :: 0 <= t < |s.threads| && s.threads[t] == Sleeping ==> s.sh.nIdle >= 1
  {
    SumNonneg(s.threads, Inside);
    SumNonneg(s.threads, Idling);
    forall t | 0 <= t < |s.threads| && s.threads[t] == Sleeping ensures s.sh.nIdle >= 1 {
      SumPositive(s.threads, Idling, t);
    }
  }

  /** The clean-up at the head of a critical section: batch `t` is accounted for and the master
      told if it was the last one.  The thread then stands where a fresh one would. */
  function Settled(s: State, t: nat): State
    requires 0 < |s.threads| && t < |s.threads| && s.threads[t].Working?
  {
    var w := s.threads[t];
    var nTodo := s.sh.nTodo - |w.batch|;
    State(s.sh.(fAllOk := s.sh.fAllOk && w.ok, nTodo := nTodo, nTotal := s.sh.nTotal - 1),
          s.threads[t := Outside],
          s.notified + (if nTodo == 0 && t != 0 && s.threads[0] == Sleeping then {0} else {}),
          s.added,
          s.finished + multiset(w.batch))
  }

  /** Leaving `cond.wait`. */
  function Woken(s: State, t: nat): State
    requires t < |s.threads|
  {
    s.(sh := s.sh.(nIdle := s.sh.nIdle - 1, nTotal := s.sh.nTotal - 1),
       threads := s.threads[t := Outside], notified := s.notified - {t})
  }

  /** The master leaves `Wait`, and a new round begins. */
  function Returned(s: State): State {
    s.(sh := s.sh.(fAllOk := true), added := multiset{}, finished := multiset{})
  }

  function Blocked(s: State, t: nat): State
    requires t < |s.threads|
  {
    s.(sh := s.sh.(nTotal := s.sh.nTotal + 1, nIdle := s.sh.nIdle + 1), threads := s.threads[t := Sleeping])
  }

  function Taken(s: State, t: nat, n: nat): State
    requires t < |s.threads| && n <= |s.sh.queue|
  {
    var rest := |s.sh.queue| - n;
    s.(sh := s.sh.(nTotal := s.sh.nTotal + 1, queue := s.sh.queue[..rest]),
       threads := s.threads[t := Working(Reverse(s.sh.queue[rest..]), 0, s.sh.fAllOk)])
  }

  /** Thread `t` is counted in and looks for work. */
  function Look(s: State, t: nat, nBatchSize: nat): State
    requires t < |s.threads| && s.sh.nTotal >= 0 && s.sh.nIdle >= 0
  {
    if s.sh.queue != [] then Taken(s, t, BatchSize(s.sh.(nTotal := s.sh.nTotal + 1), nBatchSize))
    else if t == 0 && s.sh.nTodo == 0 then Returned(s)
    else Blocked(s, t)
  }

  function Added(s: State, v: seq<Check>, woken: nat): State {
    s.(sh := s.sh.(queue := s.sh.queue + v, nTodo := s.sh.nTodo + |v|),
       notified := s.notified + (if |v| == 1 then set t | t == woken && SleepingWorker(s, t)
                                 else if |v| > 1 then set t | 0 < t < |s.threads| && SleepingWorker(s, t)
                                 else {}),
       added := s.added + multiset(v))
  }

  function Ran(s: State, t: nat): State
    requires Enabled(s, RunCheck(t))
  {
    var w := s.threads[t];
    s.(threads := s.threads[t := Working(w.batch, w.done + 1, w.ok && w.batch[w.done].ok)])
  }

  /** The state in which the thread of a step other than adding and running looks for work. */
  function Cleared(s: State, step: Step): State
    requires Enabled(s, step) && 0 < |s.threads|
  {
    match step
    case FinishBatch(t) => Settled(s, t)
    case Wake(t) => Woken(s, t)
    case _ => s
  }

  ghost function Next(s: State, step: Step, nBatchSize: nat): State
    requires Inv(s) && Enabled(s, step)
  {
    match step
    case AddChecks(v, woken) => Added(s, v, woken)
    case RunCheck(t) => Ran(s, t)
    case Enter(t) => Counts(s); Look(s, t, nBatchSize)
    case FinishBatch(t) => SettledInv(s, t); Counts(Settled(s, t)); Look(Settled(s, t), t, nBatchSize)
    case Wake(t) => WokenInv(s, t); Counts(Woken(s, t)); Look(Woken(s, t), t, nBatchSize)
  }

  // ------------------------------------------------- the steps are those of the queue

  /** Where an outcome leaves the thread. */
  function Becomes(sh: Shared, o: Outcome): Thread {
    match o
    case Return(_) => Outside
    case Block => Sleeping
    case Batch(b) => Working(b, 0, sh.fAllOk)
  }

  /** What looking for work does to a state, through the critical section of the queue object. */
  ghost predicate Follows(s: State, t: nat, s': State, found: Shared, nBatchSize: nat)
    requires t < |s.threads| && found.nTotal >= 0 && found.nIdle >= 0
  {
    var (sh, o) := LookForWork(found, t == 0, nBatchSize);
    && s'.sh == sh && s'.threads == s.threads[t := Becomes(sh, o)]
    && (o.Return? ==> o.ret == found.fAllOk && s'.added == multiset{})
  }

  lemma {:induction false} LookFollowsSection(s: State, t: nat, nBatchSize: nat)
    requires t < |s.threads| && s.threads[t] == Outside && s.sh.nTotal >= 0 && s.sh.nIdle >= 0
    ensures Follows(s, t, Look(s, t, nBatchSize), s.sh.(nTotal := s.sh.nTotal + 1), nBatchSize)
    ensures Look(s, t, nBatchSize).notified == s.notified
  {
    assert s.threads[t := Outside] == s.threads;
  }

  /** The same from a state that differs in the thread itself. */
  lemma {:induction false} FollowsFrom(s: State, z: State, t: nat, s': State, found: Shared, nBatchSize: nat)
    requires t < |s.threads| && z.threads == s.threads[t := Outside] && found.nTotal >= 0 && found.nIdle >= 0
    requires Follows(z, t, s', found, nBatchSize)
    ensures Follows(s, t, s', found, nBatchSize)
  {
    var (sh, o) := LookForWork(found, t == 0, nBatchSize);
    UpdatedTwice(s.threads, t, Outside, Becomes(sh, o));
  }

  lemma {:induction false} UpdatedTwice(ts: seq<Thread>, t: nat, a: Thread, b: Thread)
    requires t < |ts|
    ensures ts[t := a][t := b] == ts[t := b]
  {
  }

  /** The step that ends a batch is the critical section with its clean-up; the master is notified
      exactly as that says, if it sleeps. */
  lemma {:induction false} FinishFollowsSection(s: State, t: nat, nBatchSize: nat)
    requires Inv(s) && Enabled(s, FinishBatch(t))
    ensures var found := Accounted(s.sh, |s.threads[t].batch|, s.threads[t].ok);
            var s' := Next(s, FinishBatch(t), nBatchSize);
            && found.nTotal >= 0 && found.nIdle >= 0 && Follows(s, t, s', found, nBatchSize)
            && s'.notified == if s.sh.nTodo == |s.threads[t].batch| && t != 0 && s.threads[0] == Sleeping
                              then s.notified + {0} else s.notified
  {
    assert WellShaped(s.threads[t]);
    SettledInv(s, t);
    Counts(Settled(s, t));
    SettledFollows(s, t, nBatchSize);
  }

  lemma {:induction false} SettledFollows(s: State, t: nat, nBatchSize: nat)
    requires t < |s.threads| && s.threads[t].Working? && |s.threads[t].batch| > 0
    requires Settled(s, t).sh.nTotal >= 0 && Settled(s, t).sh.nIdle >= 0
    ensures var found := Accounted(s.sh, |s.threads[t].batch|, s.threads[t].ok);
            && found.nTotal >= 0 && found.nIdle >= 0
            && Follows(s, t, Look(Settled(s, t), t, nBatchSize), found, nBatchSize)
    ensures Look(Settled(s, t), t, nBatchSize).notified == Settled(s, t).notified
  {
    var z := Settled(s, t);
    LookFollowsSection(z, t, nBatchSize);
    FollowsFrom(s, z, t, Look(z, t, nBatchSize), Accounted(s.sh, |s.threads[t].batch|, s.threads[t].ok), nBatchSize);
  }

  /** Waking is the critical section after `cond.wait`. */
  lemma {:induction false} WakeFollowsSection(s: State, t: nat, nBatchSize: nat)
    requires Inv(s) && Enabled(s, Wake(t))
    ensures var found := s.sh.(nIdle := s.sh.nIdle - 1);
            var s' := Next(s, Wake(t), nBatchSize);
            && found.nTotal >= 0 && found.nIdle >= 0 && Follows(s, t, s', found, nBatchSize)
            && s'.notified == s.notified - {t}
  {
    WokenInv(s, t);
    Counts(Woken(s, t));
    WokenFollows(s, t, nBatchSize);
  }

  lemma {:induction false} WokenFollows(s: State, t: nat, nBatchSize: nat)
    requires t < |s.threads| && Woken(s, t).sh.nTotal >= 0 && Woken(s, t).sh.nIdle >= 0
    ensures Follows(s, t, Look(Woken(s, t), t, nBatchSize), s.sh.(nIdle := s.sh.nIdle - 1), nBatchSize)
    ensures Look(Woken(s, t), t, nBatchSize).notified == s.notified - {t}
  {
    var z := Woken(s, t);
    LookFollowsSection(z, t, nBatchSize);
    FollowsFrom(s, z, t, Look(z, t, nBatchSize), s.sh.(nIdle := s.sh.nIdle - 1), nBatchSize);
  }

  /** Entering is the critical section of a new thread. */
  lemma {:induction false} EnterFollowsSection(s: State, t: nat, nBatchSize: nat)
    requires Inv(s) && Enabled(s, Enter(t))
    ensures var found := Accounted(s.sh, 0, true);
            var s' := Next(s, Enter(t), nBatchSize);
            && found.nTotal >= 0 && found.nIdle >= 0 && Follows(s, t, s', found, nBatchSize)
            && s'.notified == s.notified
  {
    Counts(s);
    OutsideFollows(s, t, nBatchSize);
  }

  lemma {:induction false} OutsideFollows(s: State, t: nat, nBatchSize: nat)
    requires t < |s.threads| && s.threads[t] == Outside && s.sh.nTotal >= 0 && s.sh.nIdle >= 0
    ensures Follows(s, t, Look(s, t, nBatchSize), Accounted(s.sh, 0, true), nBatchSize)
    ensures Look(s, t, nBatchSize).notified == s.notified
  {
    LookFollowsSection(s, t, nBatchSize);
  }

  /** Adding does what the queue object does; the one worker to be notified is `woken`, if that one sleeps. */
  lemma {:induction false} AddFollowsQueue(s: State, v: seq<Check>, woken: nat)
    ensures Added(s, v, woken).sh == s.sh.(queue := s.sh.queue + v, nTodo := s.sh.nTodo + |v|)
    ensures match WakeupFor(|v|)
            case Nobody => Added(s, v, woken).notified == s.notified
            case OneWorker =>
              Added(s, v, woken).notified == s.notified + if SleepingWorker(s, woken) then {woken} else {}
            case AllWorkers =>
              forall t: nat :: t in Added(s, v, woken).notified <==> t in s.notified || SleepingWorker(s, t)
  {
  }

  /** Once a failure is accounted for, a thread that takes a batch runs none of its checks. */
  lemma {:induction false} FailureSkips(s: State, t: nat, nBatchSize: nat)
    requires t < |s.threads| && s.sh.nTotal >= 0 && s.sh.nIdle >= 0
    ensures s.sh.queue != [] ==>
      var th := Look(s, t, nBatchSize).threads[t]; th.Working? && th.done == 0 && th.ok == s.sh.fAllOk
    ensures Enabled(s, RunCheck(t)) ==>
      var th, th' := s.threads[t], Ran(s, t).threads[t];
      th'.Working? && th'.batch == th.batch && th'.done == th.done + 1 && th'.ok == (th.ok && th.batch[th.done].ok)
  {
  }

  // ---------------------------------------------------------- every step keeps it

  /** Replacing one thread changes each total by the difference. */
  lemma {:induction false} Replaced(s: State, t: nat, th: Thread)
    requires t < |s.threads|
    ensures var ts := s.threads[t := th];
            && Sum(ts, Inside) == Sum(s.threads, Inside) - Inside(s.threads[t]) + Inside(th)
            && Sum(ts, Idling) == Sum(s.threads, Idling) - Idling(s.threads[t]) + Idling(th)
            && Sum(ts, Load) == Sum(s.threads, Load) - Load(s.threads[t]) + Load(th)
            && forall c :: Sum(ts, Held(c)) == Sum(s.threads, Held(c)) - Held(c)(s.threads[t]) + Held(c)(th)
  {
    SumUpdate(s.threads, Inside, t, th);
    SumUpdate(s.threads, Idling, t, th);
    SumUpdate(s.threads, Load, t, th);
    forall c ensures Sum(s.threads[t := th], Held(c)) == Sum(s.threads, Held(c)) - Held(c)(s.threads[t]) + Held(c)(th) {
      SumUpdate(s.threads, Held(c), t, th);
    }
  }

  lemma {:induction false} WokenInv(s: State, t: nat)
    requires Inv(s) && Enabled(s, Wake(t))
    ensures Inv(Woken(s, t))
  {
    Replaced(s, t, Outside);
  }

  lemma {:induction false} SettledInv(s: State, t: nat)
    requires Inv(s) && Enabled(s, FinishBatch(t))
    ensures Inv(Settled(s, t))
  {
    Replaced(s, t, Outside);
    var s', w := Settled(s, t), s.threads[t];
    assert VerdictOk(w, s.added);
    SumNonneg(s'.threads, Load);
    if w.ok && s.sh.fAllOk {
      forall c | c in s'.finished ensures c.ok {
        assert c in s.finished || c in w.batch;
      }
    }
    assert forall i :: 0 <= i < |s'.threads| && i != t ==> s'.threads[i] == s.threads[i];
  }

  lemma {:induction false} AddedInv(s: State, v: seq<Check>, woken: nat)
    requires Inv(s) && Enabled(s, AddChecks(v, woken))
    ensures Inv(Added(s, v, woken))
  {
    assert forall c :: c in s.added ==> c in s.added + multiset(v);
  }

  lemma {:induction false} RanInv(s: State, t: nat)
    requires Inv(s) && Enabled(s, RunCheck(t))
    ensures Inv(Ran(s, t))
  {
    Replaced(s, t, Ran(s, t).threads[t]);
    assert VerdictOk(s.threads[t], s.added);
    BatchIsAdded(s, t, s.threads[t].done);
  }

  lemma {:induction false} BatchIsAdded(s: State, t: nat, i: nat)
    requires Conserved(s) && t < |s.threads| && s.threads[t].Working? && i < |s.threads[t].batch|
    ensures s.threads[t].batch[i] in s.added
  {
    var c := s.threads[t].batch[i];
    assert c in multiset(s.threads[t].batch);
    SumPositive(s.threads, Held(c), t);
  }

  lemma {:induction false} LookReturns(s: State, t: nat)
    requires Inv(s) && t < |s.threads| && s.threads[t] == Outside && s.sh.queue == [] && s.sh.nTodo == 0
    ensures Inv(Returned(s))
  {
    NobodyWorks(s);
    forall c ensures Sum(s.threads, Held(c)) == 0 {
      SumZero(s.threads, Held(c));
    }
  }

  /** Nothing is left to do only if no thread holds a batch. */
  lemma {:induction false} NobodyWorks(s: State)
    requires Inv(s) && s.sh.nTodo == 0
    ensures s.sh.queue == [] && forall t :: 0 <= t < |s.threads| ==> !s.threads[t].Working?
  {
    SumNonneg(s.threads, Load);
    forall t | 0 <= t < |s.threads| ensures !s.threads[t].Working? {
      SumPositive(s.threads, Load, t);
      assert WellShaped(s.threads[t]);
    }
  }

  lemma {:induction false} LookBlocks(s: State, t: nat)
    requires Inv(s) && t < |s.threads| && s.threads[t] == Outside && s.sh.queue == [] && (t == 0 ==> s.sh.nTodo != 0)
    ensures Inv(Blocked(s, t))
  {
    Replaced(s, t, Sleeping);
    SumNonneg(s.threads, Load);
  }

  lemma {:induction false} LookTakes(s: State, t: nat, n: nat)
    requires Inv(s) && t < |s.threads| && s.threads[t] == Outside && 1 <= n <= |s.sh.queue|
    ensures Inv(Taken(s, t, n))
  {
    TakenConserved(s, t, n);
    TakenCounted(s, t, n);
  }

  lemma {:induction false} TakenCounted(s: State, t: nat, n: nat)
    requires Counted(s) && t < |s.threads| && s.threads[t] == Outside && 1 <= n <= |s.sh.queue|
    ensures Counted(Taken(s, t, n)) && WellShaped(Taken(s, t, n).threads[t])
  {
    ReverseBag(s.sh.queue[|s.sh.queue| - n..]);
    Replaced(s, t, Taken(s, t, n).threads[t]);
  }

  lemma {:induction false} TakenConserved(s: State, t: nat, n: nat)
    requires Conserved(s) && t < |s.threads| && s.threads[t] == Outside && 1 <= n <= |s.sh.queue|
    ensures Conserved(Taken(s, t, n))
  {
    var q, back := s.sh.queue[..|s.sh.queue| - n], s.sh.queue[|s.sh.queue| - n..];
    ReverseBag(back);
    assert s.sh.queue == q + back;
    Replaced(s, t, Working(Reverse(back), 0, s.sh.fAllOk));
  }

  lemma {:induction false} LookInv(s: State, t: nat, nBatchSize: nat)
    requires Inv(s) && Enabled(s, Enter(t)) && s.sh.nTotal >= 0 && s.sh.nIdle >= 0
    ensures Inv(Look(s, t, nBatchSize))
  {
    if s.sh.queue != [] {
      LookTakes(s, t, BatchSize(s.sh.(nTotal := s.sh.nTotal + 1), nBatchSize));
    } else if t == 0 && s.sh.nTodo == 0 {
      LookReturns(s, t);
    } else {
      LookBlocks(s, t);
    }
  }

  /** Every step of every thread keeps the invariant. */
  lemma {:induction false} NextInv(s: State, step: Step, nBatchSize: nat)
    requires Inv(s) && Enabled(s, step)
    ensures Inv(Next(s, step, nBatchSize))
  {
    match step
    case AddChecks(v, woken) => AddedInv(s, v, woken);
    case RunCheck(t) => RanInv(s, t);
    case Enter(t) => Counts(s); LookInv(s, t, nBatchSize);
    case FinishBatch(t) => SettledInv(s, t); Counts(Settled(s, t)); LookInv(Settled(s, t), t, nBatchSize);
    case Wake(t) => WokenInv(s, t); Counts(Woken(s, t)); LookInv(Woken(s, t), t, nBatchSize);
  }

  lemma {:induction false} InitInv(nThreads: nat)
    ensures Inv(Init(nThreads))
  {
    var ts := Init(nThreads).threads;
    SumZero(ts, Inside);
    SumZero(ts, Idling);
    SumZero(ts, Load);
    forall c ensures Sum(ts, Held(c)) == 0 { SumZero(ts, Held(c)); }
  }

  // ---------------------------------------------------------------- whole runs

  /** The state after the steps `run`, if each was possible in turn. */
  ghost function After(nThreads: nat, nBatchSize: nat, run: seq<Step>): (s: State)
    requires Possible(nThreads, nBatchSize, run)
    ensures Inv(s)
    decreases |run|, 1
  {
    if run == [] then InitInv(nThreads); Init(nThreads)
    else
      var before := After(nThreads, nBatchSize, run[..|run| - 1]);
      NextInv(before, run[|run| - 1], nBatchSize);
      Next(before, run[|run| - 1], nBatchSize)
  }

  ghost predicate Possible(nThreads: nat, nBatchSize: nat, run: seq<Step>)
    decreases |run|, 0
  {
    run == [] || (Possible(nThreads, nBatchSize, run[..|run| - 1])
                  && Enabled(After(nThreads, nBatchSize, run[..|run| - 1]), run[|run| - 1]))
  }

  /** The step ends a call of `Wait`. */
  predicate EndsWait(s: State, step: Step)
    requires Enabled(s, step) && 0 < |s.threads|
  {
    && (step == Enter(0) || step == FinishBatch(0) || step == Wake(0))
    && Cleared(s, step).sh.queue == [] && Cleared(s, step).sh.nTodo == 0
  }

  /** The checks added since `Wait` last returned, read off the run alone. */
  ghost function SinceWait(nThreads: nat, nBatchSize: nat, run: seq<Step>): multiset<Check>
    requires Possible(nThreads, nBatchSize, run)
  {
    if run == [] then multiset{}
    else
      var before, last := run[..|run| - 1], run[|run| - 1];
      if last.AddChecks? then SinceWait(nThreads, nBatchSize, before) + multiset(last.checks)
      else if EndsWait(After(nThreads, nBatchSize, before), last) then multiset{}
      else SinceWait(nThreads, nBatchSize, before)
  }

  lemma {:induction false} AddedStep(s: State, step: Step, nBatchSize: nat)
    requires Inv(s) && Enabled(s, step)
    ensures Next(s, step, nBatchSize).added
         == if step.AddChecks? then s.added + multiset(step.checks)
            else if EndsWait(s, step) then multiset{} else s.added
  {
    if step.Enter? {
      EnterAdded(s, step.t, nBatchSize);
    } else if step.FinishBatch? {
      FinishAdded(s, step.t, nBatchSize);
    } else if step.Wake? {
      WakeAdded(s, step.t, nBatchSize);
    }
  }

  lemma {:induction false} EnterAdded(s: State, t: nat, nBatchSize: nat)
    requires Inv(s) && Enabled(s, Enter(t))
    ensures Next(s, Enter(t), nBatchSize).added == if EndsWait(s, Enter(t)) then multiset{} else s.added
  {
    Counts(s);
    LookAdded(s, t, nBatchSize);
  }

  lemma {:induction false} FinishAdded(s: State, t: nat, nBatchSize: nat)
    requires Inv(s) && Enabled(s, FinishBatch(t))
    ensures Next(s, FinishBatch(t), nBatchSize).added == if EndsWait(s, FinishBatch(t)) then multiset{} else s.added
  {
    SettledInv(s, t);
    Counts(Settled(s, t));
    LookAdded(Settled(s, t), t, nBatchSize);
  }

  lemma {:induction false} WakeAdded(s: State, t: nat, nBatchSize: nat)
    requires Inv(s) && Enabled(s, Wake(t))
    ensures Next(s, Wake(t), nBatchSize).added == if EndsWait(s, Wake(t)) then multiset{} else s.added
  {
    WokenInv(s, t);
    Counts(Woken(s, t));
    LookAdded(Woken(s, t), t, nBatchSize);
  }

  lemma {:induction false} LookAdded(s: State, t: nat, nBatchSize: nat)
    requires t < |s.threads| && s.sh.nTotal >= 0 && s.sh.nIdle >= 0
    ensures Look(s, t, nBatchSize).added
         == if t == 0 && s.sh.queue == [] && s.sh.nTodo == 0 then multiset{} else s.added
  {
  }

  lemma {:induction false} AddedIsSinceWait(nThreads: nat, nBatchSize: nat, run: seq<Step>)
    requires Possible(nThreads, nBatchSize, run)
    ensures After(nThreads, nBatchSize, run).added == SinceWait(nThreads, nBatchSize, run)
  {
    if run != [] {
      var before := run[..|run| - 1];
      AddedIsSinceWait(nThreads, nBatchSize, before);
      AddedStep(After(nThreads, nBatchSize, before), run[|run| - 1], nBatchSize);
    }
  }

  /** In every interleaving `Wait` answers whether all checks added since the last `Wait` succeed. */
  lemma {:induction false} WaitIsConjunction(nThreads: nat, nBatchSize: nat, run: seq<Step>, step: Step)
    requires Possible(nThreads, nBatchSize, run) && Enabled(After(nThreads, nBatchSize, run), step)
    requires EndsWait(After(nThreads, nBatchSize, run), step)
    ensures Cleared(After(nThreads, nBatchSize, run), step).sh.fAllOk <==> AllGood(SinceWait(nThreads, nBatchSize, run))
  {
    var s := After(nThreads, nBatchSize, run);
    AddedIsSinceWait(nThreads, nBatchSize, run);
    match step {
      case Enter(t) =>
      case FinishBatch(t) => SettledInv(s, t);
      case Wake(t) => WokenInv(s, t);
    }
    VerdictWhenDone(Cleared(s, step));
  }

  lemma {:induction false} VerdictWhenDone(s: State)
    requires Inv(s) && s.sh.nTodo == 0
    ensures s.sh.fAllOk <==> AllGood(s.added)
  {
    NobodyWorks(s);
    forall c ensures s.added[c] == s.finished[c] {
      SumZero(s.threads, Held(c));
    }
    assert forall c :: c in s.added <==> c in s.finished;
  }

  /** A check added once is in one place: in no two batches, and in none once completed or while queued. */
  lemma {:induction false} OneHolder(s: State, c: Check, t: nat, u: nat)
    requires Inv(s) && s.added[c] == 1
    requires t < |s.threads| && s.threads[t].Working? && c in s.threads[t].batch
    ensures c !in s.sh.queue && c !in s.finished
    ensures u < |s.threads| && s.threads[u].Working? && c in s.threads[u].batch ==> u == t
  {
    assert c in multiset(s.threads[t].batch);
    SumPositive(s.threads, Held(c), t);
    assert multiset(s.sh.queue)[c] == 0 && s.finished[c] == 0;
    if u < |s.threads| && s.threads[u].Working? && c in s.threads[u].batch && u != t {
      assert c in multiset(s.threads[u].batch);
      SumUpdate(s.threads, Held(c), t, Outside);
      SumPositive(s.threads[t := Outside], Held(c), u);
    }
  }

  /** No wakeup is lost: a master asleep without a notification waits for a worker that has a batch. */
  lemma {:induction false} NoLostWakeup(s: State)
    requires Inv(s) && s.threads[0] == Sleeping && 0 !in s.notified
    ensures s.sh.nTodo > 0 && s.sh.queue == []
    ensures exists t :: 0 < t < |s.threads| && s.threads[t].Working?
  {
    if forall t :: 0 < t < |s.threads| ==> !s.threads[t].Working? {
      SumZero(s.threads, Load);
    }
  }

  /** After `Wait` returns the queue counts as idle until something is added. */
  lemma {:induction false} IdleAfterWait(nThreads: nat, nBatchSize: nat, run: seq<Step>)
    requires Possible(nThreads, nBatchSize, run) && After(nThreads, nBatchSize, run).threads[0] == Outside
    requires SinceWait(nThreads, nBatchSize, run) == multiset{}
    ensures Idle(After(nThreads, nBatchSize, run).sh)
  {
    var s := After(nThreads, nBatchSize, run);
    AddedIsSinceWait(nThreads, nBatchSize, run);
    NothingAddedIsIdle(s);
  }

  lemma {:induction false} NothingAddedIsIdle(s: State)
    requires Inv(s) && s.added == multiset{}
    ensures Idle(s.sh)
  {
    if s.sh.queue != [] {
      var c := s.sh.queue[0];
      assert c in multiset(s.sh.queue);
      SumNonneg(s.threads, Held(c));
    }
    forall t | 0 <= t < |s.threads| ensures !s.threads[t].Working? {
      if s.threads[t].Working? {
        BatchIsAdded(s, t, 0);
      }
    }
    SumZero(s.threads, Load);
    SumSame(s.threads, Inside, Idling);
  }

  lemma {:induction false} SumSame(ts: seq<Thread>, f: Thread -> int, g: Thread -> int)
    requires forall t :: 0 <= t < |ts| ==> f(ts[t]) == g(ts[t])
    ensures Sum(ts, f) == Sum(ts, g)
  {
    if ts != [] { SumSame(ts[1..], f, g); }
  }

  // ------------------------------------------------------------------ progress

  /** An upper bound on the steps that are left while nothing is added. */
  function Pending(th: Thread): int {
    match th
    case Outside => 1
    case Sleeping => 0
    case Working(batch, done, _) => |batch| - done + 2
  }

  ghost function Measure(s: State): int {
    4 * |s.sh.queue| + Sum(s.threads, Pending) + |s.notified|
  }

  predicate Useful(s: State, step: Step) {
    !step.AddChecks? && (step.Wake? ==> step.t in s.notified)
  }

  lemma {:induction false} LookShrinks(s: State, t: nat, nBatchSize: nat)
    requires t < |s.threads| && s.threads[t] == Outside && s.sh.nTotal >= 0 && s.sh.nIdle >= 0
    requires !(t == 0 && s.sh.queue == [] && s.sh.nTodo == 0)
    ensures Measure(Look(s, t, nBatchSize)) < Measure(s)
  {
    if s.sh.queue == [] {
      SumUpdate(s.threads, Pending, t, Sleeping);
    } else {
      TakingShrinks(s, t, BatchSize(s.sh.(nTotal := s.sh.nTotal + 1), nBatchSize));
    }
  }

  lemma {:induction false} TakingShrinks(s: State, t: nat, n: nat)
    requires t < |s.threads| && s.threads[t] == Outside && 1 <= n <= |s.sh.queue|
    ensures Measure(Taken(s, t, n)) < Measure(s)
  {
    var rest := |s.sh.queue| - n;
    ReverseBag(s.sh.queue[rest..]);
    SumUpdate(s.threads, Pending, t, Taken(s, t, n).threads[t]);
    assert |s.sh.queue[..rest]| == rest && |s.sh.queue[rest..]| == n;
  }

  /** Every useful step that does not end `Wait` uses up some of the work that is left. */
  lemma {:induction false} UsefulStepShrinks(s: State, step: Step, nBatchSize: nat)
    requires Inv(s) && Enabled(s, step) && Useful(s, step) && !EndsWait(s, step)
    ensures Measure(Next(s, step, nBatchSize)) < Measure(s)
  {
    match step {
      case RunCheck(t) => SumUpdate(s.threads, Pending, t, Ran(s, t).threads[t]);
      case Enter(t) => Counts(s); LookShrinks(s, t, nBatchSize);
      case FinishBatch(t) => FinishShrinks(s, t, nBatchSize);
      case Wake(t) => WakeShrinks(s, t, nBatchSize);
    }
  }

  lemma {:induction false} FinishShrinks(s: State, t: nat, nBatchSize: nat)
    requires var step := FinishBatch(t);
             Inv(s) && Enabled(s, step) && Useful(s, step) && !EndsWait(s, step)
    ensures Measure(Next(s, FinishBatch(t), nBatchSize)) < Measure(s)
  {
    SettledInv(s, t);
    Counts(Settled(s, t));
    SumUpdate(s.threads, Pending, t, Outside);
    LookShrinks(Settled(s, t), t, nBatchSize);
  }

  lemma {:induction false} WakeShrinks(s: State, t: nat, nBatchSize: nat)
    requires var step := Wake(t);
             Inv(s) && Enabled(s, step) && Useful(s, step) && !EndsWait(s, step)
    ensures Measure(Next(s, Wake(t), nBatchSize)) < Measure(s)
  {
    WokenInv(s, t);
    Counts(Woken(s, t));
    SumUpdate(s.threads, Pending, t, Outside);
    LookShrinks(Woken(s, t), t, nBatchSize);
  }

  /** While the master is in `Wait` some useful step is possible. */
  lemma {:induction false} NeverStuck(s: State) returns (step: Step)
    requires Inv(s) && s.threads[0] != Outside
    ensures Enabled(s, step) && Useful(s, step)
  {
    var t := 0;
    if s.threads[0] == Sleeping {
      if 0 in s.notified {
        return Wake(0);
      }
      NoLostWakeup(s);
      t :| 0 < t < |s.threads| && s.threads[t].Working?;
    }
    assert WellShaped(s.threads[t]);
    step := if s.threads[t].done < |s.threads[t].batch| then RunCheck(t) else FinishBatch(t);
  }

  /** A run of useful steps from `s` during which `Wait` does not end. */
  ghost predicate StillWaiting(s: State, nBatchSize: nat, run: seq<Step>)
    requires Inv(s)
    decreases |run|
  {
    run == [] || (Enabled(s, run[0]) && Useful(s, run[0]) && !EndsWait(s, run[0])
                  && (NextInv(s, run[0], nBatchSize); StillWaiting(Next(s, run[0], nBatchSize), nBatchSize, run[1..])))
  }

  /** So `Wait` ends within a bounded number of useful steps, however threads are scheduled. */
  lemma {:induction false} BoundedWait(s: State, nBatchSize: nat, run: seq<Step>)
    requires Inv(s) && StillWaiting(s, nBatchSize, run)
    ensures |run| <= Measure(s)
    decreases |run|
  {
    if run == [] {
      PendingNonneg(s);
    } else {
      NextInv(s, run[0], nBatchSize);
      UsefulStepShrinks(s, run[0], nBatchSize);
      BoundedWait(Next(s, run[0], nBatchSize), nBatchSize, run[1..]);
    }
  }

  lemma {:induction false} PendingNonneg(s: State)
    requires Inv(s)
    ensures Measure(s) >= 0
  {
    WellShapedSum(s.threads);
  }

  lemma {:induction false} WellShapedSum(ts: seq<Thread>)
    requires forall t :: 0 <= t < |ts| ==> WellShaped(ts[t])
    ensures Sum(ts, Pending) >= 0
  {
    if ts != [] { WellShapedSum(ts[1..]); }
  }
}
