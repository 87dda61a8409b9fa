/** The parallel check queue: one master and any number of workers, as atomic steps between lock points. */
module CheckQueue {
  import P = Products

  /** Checks are numbered in the order they are added; `eval` says what each evaluates to. */
  type Check = nat

  /** Where a thread is. Outside: not in Loop. Waiting: in cond.wait, with the mutex released. Busy: executing
      a batch of its own, `pos` checks of it done. */
  datatype Phase = Outside | Waiting(notified: bool) | Busy(batch: seq<Check>, pos: nat, fOk: bool)

  /** A result of Wait for the checks from `first` up to `end`. */
  datatype Verdict = Verdict(first: nat, end: nat, ok: bool)

  /** Thread 0 is the master. `since` is the first check added after the previous Wait, `next` the number of
      the next one; `ran` and `verdicts` record what happened. */
  datatype State = State(
    queue: seq<Check>, nIdle: int, nTotal: int, fAllOk: bool, nTodo: int, fQuit: bool, nBatchSize: nat,
    threads: seq<Phase>, since: nat, next: nat, ran: multiset<Check>, verdicts: seq<Verdict>)

  function Init(workers: nat, nBatchSize: nat, fQuit: bool): State {
    State([], 0, 0, true, 0, fQuit, nBatchSize, seq(workers + 1, _ => Outside), 0, 0, multiset{}, [])
  }

  // ---------------------------------------------------------------- the critical sections

  function Share(n: nat, threads: int): (q: nat)
    ensures q <= n
  {
    if threads <= 0 then 0 else QuotientAtMost(n, threads); P.Div(n, threads)
  }

  lemma QuotientAtMost(n: nat, m: int)
    requires m > 0
    ensures 0 <= P.Div(n, m) <= n
  {
    hide P.Div, P.Mod, P.Times;
    P.DivMod(n, m);
    P.TimesPositive(m, P.Div(n, m));
    if P.Div(n, m) == 0 { P.TimesUnit(m); }
  }

  /** How many checks to process now. That the divisor is positive is part of what is proved about runs;
      the other case only makes the function total. */
  function BatchSize(s: State): (n: nat)
    requires |s.queue| > 0
    ensures 1 <= n <= |s.queue|
  {
    var share := Share(|s.queue|, s.nTotal + s.nIdle + 1);
    var m := if s.nBatchSize < share then s.nBatchSize else share;
    if m < 1 then 1 else m
  }

  /** The largest batch, but at least one check, that is not above the maximum and leaves as much to every
      thread that is or may soon be at work. */
  lemma BatchFair(s: State, n: nat)
    requires |s.queue| > 0 && s.nTotal + s.nIdle + 1 > 0
    ensures n <= BatchSize(s) <==> n <= 1 || (n <= s.nBatchSize && P.Times(s.nTotal + s.nIdle + 1, n) <= |s.queue|)
  {
    hide P.Div, P.Mod, P.Times;
    var q, m := |s.queue|, s.nTotal + s.nIdle + 1;
    var d := P.Div(q, m);
    P.DivMod(q, m);
    if n <= d {
      P.TimesOrder(m, n, d);
    } else {
      P.TimesOrder(m, d + 1, n);
      P.TimesAdd(m, d, 1);
      P.TimesUnit(m);
    }
  }

  /** The last `n` checks of the queue, last one first. */
  function Taken(queue: seq<Check>, n: nat): (batch: seq<Check>)
    requires n <= |queue|
    ensures |batch| == n
  {
    seq(n, i requires 0 <= i < n => queue[|queue| - 1 - i])
  }

  method TakeBatch(queue: seq<Check>, nNow: nat) returns (queue': seq<Check>, vChecks: seq<Check>)
    requires nNow <= |queue|
    ensures queue' == queue[..|queue| - nNow] && vChecks == Taken(queue, nNow)
  {
    queue', vChecks := queue, [];
    for i := 0 to nNow
      invariant queue' == queue[..|queue| - i] && vChecks == Taken(queue, i)
    {
      vChecks := vChecks + [queue'[|queue'| - 1]];
      queue' := queue'[..|queue'| - 1];
    }
  }

  /** The part of Loop from where the do loop logically starts up to the release of the mutex. */
  function Attempt(s: State, t: nat): State
    requires t < |s.threads|
  {
    if s.queue == [] then
      if (t == 0 || s.fQuit) && s.nTodo == 0 then
        var left := s.(nTotal := s.nTotal - 1, threads := s.threads[t := Outside]);
        if t == 0 then left.(fAllOk := true, verdicts := s.verdicts + [Verdict(s.since, s.next, s.fAllOk)], since := s.next)
        else left
      else s.(nIdle := s.nIdle + 1, threads := s.threads[t := Waiting(false)])
    else
      var nNow := BatchSize(s);
      s.(queue := s.queue[..|s.queue| - nNow], threads := s.threads[t := Busy(Taken(s.queue, nNow), 0, s.fAllOk)])
  }

  /** condMaster.notify_one() */
  function NotifyMaster(threads: seq<Phase>): (r: seq<Phase>)
    requires |threads| > 0
    ensures |r| == |threads|
  {
    if threads[0].Waiting? then threads[0 := Waiting(true)] else threads
  }

  /** A worker comes back to the lock with its batch done. */
  function CleanUp(s: State, t: nat): State
    requires t < |s.threads| && s.threads[t].Busy?
  {
    var p := s.threads[t];
    var nTodo := s.nTodo - |p.batch|;
    s.(fAllOk := s.fAllOk && p.fOk, nTodo := nTodo,
       threads := if nTodo == 0 && t != 0 then NotifyMaster(s.threads) else s.threads)
  }

  /** The workers that Add wakes: one that waits, or all of them. */
  function NotifyWorkers(threads: seq<Phase>, n: nat, w: nat): (r: seq<Phase>)
    ensures |r| == |threads|
  {
    seq(|threads|, t requires 0 <= t < |threads| =>
      if t != 0 && threads[t].Waiting? && (n > 1 || (n == 1 && t == w)) then Waiting(true) else threads[t])
  }

  datatype Op =
    | Add(n: nat, w: nat)
    | Enter(t: nat)
    | Exec(t: nat)
    | Finish(t: nat)
    | Wake(t: nat)

  /** The master adds checks only between two calls of Wait, and wakes a worker `w` that sleeps if there is
      one; a waiting thread may wake without reason. */
  predicate Enabled(s: State, op: Op) {
    match op
    case Add(n, w) =>
      && |s.threads| > 0 && s.threads[0].Outside?
      && ((exists t :: 0 < t < |s.threads| && s.threads[t] == Waiting(false)) ==> 0 < w < |s.threads| && s.threads[w] == Waiting(false))
    case Enter(t) => t < |s.threads| && s.threads[t].Outside?
    case Exec(t) => t < |s.threads| && s.threads[t].Busy? && s.threads[t].pos < |s.threads[t].batch|
    case Finish(t) => t < |s.threads| && s.threads[t].Busy? && s.threads[t].pos == |s.threads[t].batch|
    case Wake(t) => t < |s.threads| && s.threads[t].Waiting?
  }

  /** One check of a batch: evaluated unless one has failed. */
  function Execute(eval: Check -> bool, s: State, t: nat): State
    requires Enabled(s, Exec(t))
  {
    var p := s.threads[t];
    var check := p.batch[p.pos];
    if p.fOk then
      s.(threads := s.threads[t := p.(pos := p.pos + 1, fOk := eval(check))], ran := s.ran + multiset{check})
    else
      s.(threads := s.threads[t := p.(pos := p.pos + 1)])
  }

  function Added(s: State, n: nat, w: nat): State {
    s.(queue := s.queue + seq(n, i => s.next + i), nTodo := s.nTodo + n, next := s.next + n,
       threads := NotifyWorkers(s.threads, n, w))
  }

  function Step(eval: Check -> bool, s: State, op: Op): State
    requires Enabled(s, op)
  {
    match op
    case Add(n, w) => Added(s, n, w)
    case Exec(t) => Execute(eval, s, t)
    case Enter(t) => Attempt(s.(nTotal := s.nTotal + 1), t)
    case Finish(t) => Attempt(CleanUp(s, t), t)
    case Wake(t) => Attempt(s.(nIdle := s.nIdle - 1), t)
  }

  // ---------------------------------------------------------------- counting threads

  datatype Kind = Total | Idle | Outstanding | Effort

  function Weight(k: Kind, p: Phase): nat {
    match k
    case Total => if p.Outside? then 0 else 1
    case Idle => if p.Waiting? then 1 else 0
    case Outstanding => if p.Busy? then |p.batch| else 0
    case Effort => if p.Busy? && p.pos <= |p.batch| then 2 + |p.batch| - p.pos else if p == Waiting(true) then 1 else 0
  }

  function Sum(k: Kind, threads: seq<Phase>): nat {
    if threads == [] then 0 else Sum(k, threads[..|threads| - 1]) + Weight(k, threads[|threads| - 1])
  }

  lemma {:induction false} SumUpdate(k: Kind, threads: seq<Phase>, t: nat, p: Phase)
    requires t < |threads|
    ensures Sum(k, threads[t := p]) == Sum(k, threads) - Weight(k, threads[t]) + Weight(k, p)
    decreases |threads|
  {
    hide Weight;
    var n := |threads| - 1;
    var u := threads[t := p];
    if t == n {
      assert u[..n] == threads[..n];
    } else {
      assert u[..n] == threads[..n][t := p];
      SumUpdate(k, threads[..n], t, p);
    }
  }

  lemma {:induction false} SumAtLeast(k: Kind, threads: seq<Phase>, t: nat)
    requires t < |threads|
    ensures Sum(k, threads) >= Weight(k, threads[t])
    decreases |threads|
  {
    hide Weight;
    if t < |threads| - 1 { SumAtLeast(k, threads[..|threads| - 1], t); }
  }

  lemma {:induction false} SumSame(k: Kind, a: seq<Phase>, b: seq<Phase>)
    requires |a| == |b| && forall t :: 0 <= t < |a| ==> Weight(k, a[t]) == Weight(k, b[t])
    ensures Sum(k, a) == Sum(k, b)
  {
    hide Weight;
    if a != [] { SumSame(k, a[..|a| - 1], b[..|b| - 1]); }
  }

  /** A positive sum has a positive part. */
  lemma {:induction false} SumPositive(k: Kind, threads: seq<Phase>) returns (t: nat)
    requires Sum(k, threads) > 0
    ensures t < |threads| && Weight(k, threads[t]) > 0
  {
    hide Weight;
    var n := |threads| - 1;
    if Weight(k, threads[n]) > 0 { t := n; } else { t := SumPositive(k, threads[..n]); }
  }

  // ---------------------------------------------------------------- the invariant

  ghost predicate Counted(s: State) {
    && s.nTotal == Sum(Total, s.threads)
    && s.nIdle == Sum(Idle, s.threads)
    && s.nTodo == |s.queue| + Sum(Outstanding, s.threads)
  }

  /** Thread `t` has `id` in its batch. */
  ghost predicate Holds(s: State, t: nat, id: Check) { t < |s.threads| && s.threads[t].Busy? && id in s.threads[t].batch }

  ghost predicate Distinct(a: seq<Check>) { forall i, j :: 0 <= i < j < |a| ==> a[i] != a[j] }

  /** Every check is in at most one place, once. */
  ghost predicate Placed(s: State) {
    && Distinct(s.queue)
    && (forall t :: 0 <= t < |s.threads| && s.threads[t].Busy? ==> Distinct(s.threads[t].batch))
    && (forall t: nat, id: Check :: Holds(s, t, id) ==> s.since <= id < s.next && id !in s.queue)
    && (forall id: Check :: id in s.queue ==> s.since <= id < s.next)
    && (forall t: nat, u: nat, id: Check :: Holds(s, t, id) && Holds(s, u, id) ==> t == u)
  }

  /** What has run: nothing twice, nothing from the queue, and nothing of what a batch still has to do. */
  ghost predicate RanOnce(s: State) {
    && s.since <= s.next
    && (forall id: Check :: s.ran[id] <= 1 && (id in s.ran ==> id < s.next && id !in s.queue))
    && (forall t :: 0 <= t < |s.threads| && s.threads[t].Busy? ==>
          s.threads[t].pos <= |s.threads[t].batch| && 0 < |s.threads[t].batch|
          && forall i :: s.threads[t].pos <= i < |s.threads[t].batch| ==> s.threads[t].batch[i] !in s.ran)
  }

  ghost predicate AnyFails(eval: Check -> bool, first: nat, end: nat) { exists id: Check :: first <= id < end && !eval(id) }

  ghost predicate Passed(eval: Check -> bool, s: State, id: Check) { eval(id) && id in s.ran }

  ghost predicate Finished(s: State, id: Check) { id !in s.queue && forall t: nat :: !Holds(s, t, id) }

  /** fAllOk and the fOk of each batch are right about what is finished. */
  ghost predicate Judged(eval: Check -> bool, s: State) {
    && (s.fAllOk ==> forall id: Check :: s.since <= id < s.next && Finished(s, id) ==> Passed(eval, s, id))
    && (!s.fAllOk ==> AnyFails(eval, s.since, s.next))
    && forall t :: 0 <= t < |s.threads| && s.threads[t].Busy? ==> BatchJudged(eval, s, s.threads[t])
  }

  ghost predicate BatchJudged(eval: Check -> bool, s: State, p: Phase)
    requires p.Busy?
  {
    && (p.fOk ==> forall i :: 0 <= i < p.pos && i < |p.batch| ==> Passed(eval, s, p.batch[i]))
    && (!p.fOk ==> AnyFails(eval, s.since, s.next))
  }

  /** A master that sleeps unnotified waits for checks that others hold. */
  ghost predicate MasterWaits(s: State) {
    |s.threads| > 0 && (s.threads[0].Waiting? ==> s.queue == [] && (s.threads[0].notified || s.nTodo > 0))
  }

  ghost predicate RightVerdict(eval: Check -> bool, s: State, v: Verdict) {
    && v.first <= v.end <= s.since
    && (v.ok <==> !AnyFails(eval, v.first, v.end))
    && (v.ok ==> forall id: Check :: v.first <= id < v.end ==> s.ran[id] == 1)
  }

  ghost predicate Verdicts(eval: Check -> bool, s: State) { forall v :: v in s.verdicts ==> RightVerdict(eval, s, v) }

  /** Before anything is added, the previous Wait has left everything clean. */
  ghost predicate FreshSession(s: State) { s.since == s.next ==> s.fAllOk }

  ghost predicate Inv(eval: Check -> bool, s: State) {
    && Counted(s) && Placed(s) && RanOnce(s) && Judged(eval, s) && MasterWaits(s) && Verdicts(eval, s) && FreshSession(s)
  }

  lemma CountsNatural(s: State)
    requires Counted(s)
    ensures s.nTotal >= 0 && s.nIdle >= 0 && s.nTodo >= 0
  {}

  // ---------------------------------------------------------------- inside a critical section

  /** The state while thread `t` is in Loop but in no phase yet: it counts in nTotal only. */
  ghost predicate Inside(eval: Check -> bool, s: State, t: nat) {
    && t < |s.threads| && s.threads[t] == Outside
    && s.nTotal == Sum(Total, s.threads) + 1
    && s.nIdle == Sum(Idle, s.threads)
    && s.nTodo == |s.queue| + Sum(Outstanding, s.threads)
    && Placed(s) && RanOnce(s) && Judged(eval, s) && MasterWaits(s) && Verdicts(eval, s) && FreshSession(s)
  }

  function Neutral(s: State, t: nat): State
    requires t < |s.threads|
  {
    s.(threads := s.threads[t := Outside])
  }

  /** The outcome does not depend on the phase the thread had. */
  lemma AttemptNeutral(s: State, t: nat)
    requires t < |s.threads|
    ensures Attempt(s, t) == Attempt(Neutral(s, t), t)
  {
    var r := Attempt(s, t);
    assert s.threads[t := r.threads[t]] == s.threads[t := Outside][t := r.threads[t]];
  }

  /** With nothing left to do, no thread has a batch, so everything added is finished. */
  lemma NothingLeft(eval: Check -> bool, s: State, t: nat)
    requires Inside(eval, s, t) && s.queue == [] && s.nTodo == 0
    ensures forall u: nat :: u < |s.threads| ==> !s.threads[u].Busy?
    ensures forall id: Check :: s.since <= id < s.next ==> Finished(s, id)
    ensures s.fAllOk <==> !AnyFails(eval, s.since, s.next)
    ensures s.fAllOk ==> forall id: Check :: s.since <= id < s.next ==> s.ran[id] == 1
  {
    forall u: nat | u < |s.threads| ensures !s.threads[u].Busy? {
      SumAtLeast(Outstanding, s.threads, u);
    }
    hide Sum;
    forall id: Check | s.since <= id < s.next ensures Finished(s, id) {}
    if s.fAllOk {
      forall id: Check | s.since <= id < s.next ensures eval(id) && s.ran[id] == 1 { assert Passed(eval, s, id); }
    }
  }

  lemma CountAttempt(s: State, t: nat, p: Phase)
    requires t < |s.threads| && s.threads[t] == Outside
    ensures forall k :: Sum(k, s.threads[t := p]) == Sum(k, s.threads) + Weight(k, p)
  {
    forall k ensures Sum(k, s.threads[t := p]) == Sum(k, s.threads) + Weight(k, p) { SumUpdate(k, s.threads, t, p); }
  }

  lemma OutsideHolds(s: State, t: nat, p: Phase)
    requires t < |s.threads| && s.threads[t] == Outside && !p.Busy?
    ensures var r := s.(threads := s.threads[t := p]); forall u: nat, id: Check :: Holds(r, u, id) <==> Holds(s, u, id)
  {}

  /** The master returns: its verdict is right, and the next session starts clean. */
  lemma ReturnKeeps(eval: Check -> bool, s: State, t: nat)
    requires Inside(eval, s, t) && s.queue == [] && s.nTodo == 0 && (t == 0 || s.fQuit)
    ensures Inv(eval, Attempt(s, t))
  {
    NothingLeft(eval, s, t);
    CountAttempt(s, t, Outside);
    hide Sum, AnyFails;
    var r := Attempt(s, t);
    assert r.threads == s.threads;
    assert RanOnce(r) && Placed(r) && MasterWaits(r) && Counted(r);
    if t == 0 {
      assert RightVerdict(eval, r, Verdict(s.since, s.next, s.fAllOk));
      forall v | v in s.verdicts ensures RightVerdict(eval, r, v) { assert RightVerdict(eval, s, v); }
    } else {
      VerdictsKept(eval, s, r);
      JudgedKept(eval, s, r);
    }
  }

  lemma VerdictsKept(eval: Check -> bool, s: State, r: State)
    requires Verdicts(eval, s) && r.since == s.since && r.ran == s.ran && r.verdicts == s.verdicts
    ensures Verdicts(eval, r)
  {
    hide AnyFails;
    forall v | v in r.verdicts ensures RightVerdict(eval, r, v) { assert RightVerdict(eval, s, v); }
  }

  /** Judgements carry over to a state with the same session, the same results and the same batches. */
  lemma JudgedKept(eval: Check -> bool, s: State, r: State)
    requires Judged(eval, s) && r.since == s.since && r.next == s.next && r.ran == s.ran && r.fAllOk == s.fAllOk
    requires |r.threads| == |s.threads| && r.queue == s.queue
    requires forall u :: 0 <= u < |s.threads| ==> (r.threads[u] == s.threads[u] || (!r.threads[u].Busy? && !s.threads[u].Busy?))
    ensures Judged(eval, r)
  {
    hide AnyFails, Passed, BatchJudged;
    assert forall u: nat, id: Check :: Holds(r, u, id) <==> Holds(s, u, id);
    forall id: Check ensures Finished(r, id) <==> Finished(s, id) {}
    forall id: Check ensures Passed(eval, r, id) <==> Passed(eval, s, id) { PassedSame(eval, s, r, id); }
    forall u | 0 <= u < |r.threads| && r.threads[u].Busy? ensures BatchJudged(eval, r, r.threads[u]) {
      assert BatchJudged(eval, s, s.threads[u]);
      BatchJudgedSame(eval, s, r, r.threads[u]);
    }
  }

  lemma PassedSame(eval: Check -> bool, s: State, r: State, id: Check)
    requires r.ran == s.ran
    ensures Passed(eval, r, id) <==> Passed(eval, s, id)
  {}

  lemma BatchJudgedSame(eval: Check -> bool, s: State, r: State, p: Phase)
    requires p.Busy? && r.ran == s.ran && r.since == s.since && r.next == s.next
    ensures BatchJudged(eval, r, p) <==> BatchJudged(eval, s, p)
  {
    hide AnyFails;
  }

  /** Going to sleep. */
  lemma SleepKeeps(eval: Check -> bool, s: State, t: nat)
    requires Inside(eval, s, t) && s.queue == [] && !((t == 0 || s.fQuit) && s.nTodo == 0)
    ensures Inv(eval, Attempt(s, t))
  {
    CountAttempt(s, t, Waiting(false));
    hide Sum, AnyFails, Passed;
    var r := Attempt(s, t);
    OutsideHolds(s, t, Waiting(false));
    JudgedKept(eval, s, r);
    VerdictsKept(eval, s, r);
    assert Counted(r) && MasterWaits(r);
    PlacedSame(s, r);
    assert RanOnce(r);
  }

  lemma PlacedSame(s: State, r: State)
    requires Placed(s) && r.queue == s.queue && r.since == s.since && r.next == s.next && |r.threads| == |s.threads|
    requires forall u :: 0 <= u < |s.threads| ==> (r.threads[u] == s.threads[u] || !r.threads[u].Busy?)
    ensures Placed(r)
  {
    hide Distinct;
    assert forall u: nat, id: Check :: Holds(r, u, id) ==> Holds(s, u, id);
  }

  lemma TakenFrom(queue: seq<Check>, n: nat)
    requires n <= |queue| && Distinct(queue)
    ensures Distinct(queue[..|queue| - n]) && Distinct(Taken(queue, n))
    ensures forall id :: id in queue <==> id in queue[..|queue| - n] || id in Taken(queue, n)
    ensures forall id :: id in Taken(queue, n) ==> id !in queue[..|queue| - n]
  {
    var b := Taken(queue, n);
    forall id | id in queue ensures id in queue[..|queue| - n] || id in b {
      var i :| 0 <= i < |queue| && queue[i] == id;
      if i < |queue| - n { assert queue[..|queue| - n][i] == id; } else { assert b[|queue| - 1 - i] == id; }
    }
  }

  /** Taking a batch off the queue. */
  lemma TakePlaced(s: State, t: nat, r: State)
    requires Placed(s) && t < |s.threads| && s.threads[t] == Outside && s.queue != []
    requires exists n, fOk :: 0 < n <= |s.queue| &&
               r == s.(queue := s.queue[..|s.queue| - n], threads := s.threads[t := Busy(Taken(s.queue, n), 0, fOk)])
    ensures Placed(r)
    ensures forall id: Check :: Finished(r, id) <==> Finished(s, id)
  {
    var n, fOk :| 0 < n <= |s.queue| &&
      r == s.(queue := s.queue[..|s.queue| - n], threads := s.threads[t := Busy(Taken(s.queue, n), 0, fOk)]);
    var b := Taken(s.queue, n);
    TakenFrom(s.queue, n);
    hide Taken, Distinct;
    forall u: nat, id: Check ensures Holds(r, u, id) <==> if u == t then id in b else Holds(s, u, id) {}
    forall id: Check ensures Finished(r, id) <==> Finished(s, id) {
      if id in b { assert Holds(r, t, id); }
    }
    assert forall id: Check :: id in r.queue ==> id in s.queue;
    forall u | 0 <= u < |r.threads| && r.threads[u].Busy? ensures Distinct(r.threads[u].batch) {
      if u != t { assert Distinct(s.threads[u].batch); }
    }
    forall u: nat, v: nat, id: Check | Holds(r, u, id) && Holds(r, v, id) ensures u == v {}
    forall u: nat, id: Check | Holds(r, u, id) ensures s.since <= id < s.next && id !in r.queue {}
  }

  lemma TakeKeeps(eval: Check -> bool, s: State, t: nat)
    requires Inside(eval, s, t) && s.queue != []
    ensures Inv(eval, Attempt(s, t))
  {
    var n := BatchSize(s);
    var b := Taken(s.queue, n);
    var p := Busy(b, 0, s.fAllOk);
    CountAttempt(s, t, p);
    hide Sum, AnyFails, BatchSize;
    var r := Attempt(s, t);
    TakePlaced(s, t, r);
    assert Counted(r);
    TakeRan(s, t, n, s.fAllOk);
    assert MasterWaits(r);
    VerdictsKept(eval, s, r);
    hide Taken, Finished, Placed;
    forall id: Check ensures Passed(eval, r, id) <==> Passed(eval, s, id) { PassedSame(eval, s, r, id); }
    forall u | 0 <= u < |r.threads| && r.threads[u].Busy? ensures BatchJudged(eval, r, r.threads[u]) {
      if u != t {
        assert BatchJudged(eval, s, s.threads[u]);
        BatchJudgedSame(eval, s, r, r.threads[u]);
      }
    }
  }

  lemma TakeRan(s: State, t: nat, n: nat, fOk: bool)
    requires RanOnce(s) && t < |s.threads| && 0 < n <= |s.queue| && Distinct(s.queue)
    ensures RanOnce(s.(queue := s.queue[..|s.queue| - n], threads := s.threads[t := Busy(Taken(s.queue, n), 0, fOk)]))
  {
    TakenFrom(s.queue, n);
    hide Distinct;
    var b := Taken(s.queue, n);
    assert forall i :: 0 <= i < |b| ==> b[i] in s.queue;
    hide Taken;
  }

  lemma AttemptKeeps(eval: Check -> bool, s: State, t: nat)
    requires Inside(eval, s, t)
    ensures Inv(eval, Attempt(s, t))
  {
    hide Inside, Attempt, Inv;
    if s.queue != [] {
      TakeKeeps(eval, s, t);
    } else if (t == 0 || s.fQuit) && s.nTodo == 0 {
      ReturnKeeps(eval, s, t);
    } else {
      SleepKeeps(eval, s, t);
    }
  }

  // ---------------------------------------------------------------- every step keeps the invariant

  lemma RanSame(s: State, r: State)
    requires RanOnce(s) && r.queue == s.queue && r.since == s.since && r.next == s.next && r.ran == s.ran && |r.threads| == |s.threads|
    requires forall u :: 0 <= u < |s.threads| ==> (r.threads[u] == s.threads[u] || !r.threads[u].Busy?)
    ensures RanOnce(r)
  {}

  /** A thread without a batch leaves its phase: no check is affected. */
  lemma InsideFrom(eval: Check -> bool, s: State, u: State, t: nat)
    requires Inv(eval, s) && t < |s.threads| && !s.threads[t].Busy?
    requires u == s.(nIdle := u.nIdle, nTotal := u.nTotal, threads := s.threads[t := Outside])
    requires u.nTotal == Sum(Total, u.threads) + 1 && u.nIdle == Sum(Idle, u.threads)
    ensures Inside(eval, u, t)
  {
    hide Sum, AnyFails, Placed, RanOnce, Judged, Verdicts;
    JudgedKept(eval, s, u);
    VerdictsKept(eval, s, u);
    PlacedSame(s, u);
    RanSame(s, u);
    SumUpdate(Outstanding, s.threads, t, Outside);
  }

  lemma EnterKeeps(eval: Check -> bool, s: State, t: nat)
    requires Inv(eval, s) && Enabled(s, Enter(t))
    ensures Inv(eval, Step(eval, s, Enter(t)))
  {
    hide Sum, Placed, RanOnce, Judged, Verdicts, MasterWaits, FreshSession, Attempt;
    CountsNatural(s);
    var u := s.(nTotal := s.nTotal + 1);
    assert s.threads[t := Outside] == s.threads;
    InsideFrom(eval, s, u, t);
    AttemptKeeps(eval, u, t);
  }

  lemma WakeKeeps(eval: Check -> bool, s: State, t: nat)
    requires Inv(eval, s) && Enabled(s, Wake(t))
    ensures Inv(eval, Step(eval, s, Wake(t)))
  {
    hide Sum, Placed, RanOnce, Judged, Verdicts, MasterWaits, FreshSession, Attempt;
    CountsNatural(s);
    SumAtLeast(Idle, s.threads, t);
    var v := s.(nIdle := s.nIdle - 1);
    var u := Neutral(v, t);
    SumUpdate(Total, s.threads, t, Outside);
    SumUpdate(Idle, s.threads, t, Outside);
    InsideFrom(eval, s, u, t);
    AttemptNeutral(v, t);
    AttemptKeeps(eval, u, t);
  }

  /** Handing in a finished batch. */
  lemma FinishKeeps(eval: Check -> bool, s: State, t: nat)
    requires Inv(eval, s) && Enabled(s, Finish(t))
    ensures Inv(eval, Step(eval, s, Finish(t)))
  {
    CountsNatural(s);
    var v := CleanUp(s, t);
    var u := Neutral(v, t);
    assert Inside(eval, u, t) by {
      CleanCounts(s, t);
      hide Sum, AnyFails;
      CleanJudged(eval, s, t);
      assert Verdicts(eval, u) by { VerdictsKept(eval, s, u); }
      PlacedSame(s, u);
      assert RanOnce(u);
      assert FreshSession(u) by { CleanSession(eval, s, t); }
      assert MasterWaits(u);
    }
    AttemptNeutral(v, t);
    AttemptKeeps(eval, u, t);
  }

  lemma CleanCounts(s: State, t: nat)
    requires Counted(s) && Enabled(s, Finish(t))
    ensures var u := Neutral(CleanUp(s, t), t);
            && u.nTotal == Sum(Total, u.threads) + 1 && u.nIdle == Sum(Idle, u.threads)
            && u.nTodo == |u.queue| + Sum(Outstanding, u.threads)
  {
    var notified := CleanUp(s, t).threads;
    forall k | k != Effort ensures Sum(k, notified) == Sum(k, s.threads) { SumSame(k, s.threads, notified); }
    SumUpdate(Total, notified, t, Outside);
    SumUpdate(Idle, notified, t, Outside);
    SumUpdate(Outstanding, notified, t, Outside);
  }

  /** A session with a batch out is not empty. */
  lemma CleanSession(eval: Check -> bool, s: State, t: nat)
    requires Inv(eval, s) && Enabled(s, Finish(t))
    ensures s.since != s.next
  {
    hide AnyFails, Sum;
    assert Holds(s, t, s.threads[t].batch[0]);
  }

  lemma CleanJudged(eval: Check -> bool, s: State, t: nat)
    requires Inv(eval, s) && Enabled(s, Finish(t))
    ensures Judged(eval, Neutral(CleanUp(s, t), t))
  {
    hide AnyFails, Sum, Passed;
    var u := Neutral(CleanUp(s, t), t);
    var p := s.threads[t];
    assert BatchJudged(eval, s, p);
    forall w: nat, id: Check ensures Holds(u, w, id) <==> w != t && Holds(s, w, id) {}
    forall id: Check ensures Passed(eval, u, id) <==> Passed(eval, s, id) { PassedSame(eval, s, u, id); }
    if u.fAllOk {
      forall id: Check | s.since <= id < s.next && Finished(u, id) ensures Passed(eval, u, id) {
        if !Holds(s, t, id) { assert Finished(s, id); }
      }
    }
    forall w | 0 <= w < |u.threads| && u.threads[w].Busy? ensures BatchJudged(eval, u, u.threads[w]) {
      assert BatchJudged(eval, s, s.threads[w]);
      BatchJudgedSame(eval, s, u, u.threads[w]);
    }
  }

  /** Executing a check that has not run before. */
  lemma ExecKeeps(eval: Check -> bool, s: State, t: nat)
    requires Inv(eval, s) && Enabled(s, Exec(t))
    ensures Inv(eval, Execute(eval, s, t))
    ensures s.threads[t].fOk ==> s.threads[t].batch[s.threads[t].pos] !in s.ran
  {
    hide AnyFails, Sum, Distinct;
    var r := Execute(eval, s, t);
    var p := s.threads[t];
    SumUpdate(Total, s.threads, t, r.threads[t]);
    SumUpdate(Idle, s.threads, t, r.threads[t]);
    SumUpdate(Outstanding, s.threads, t, r.threads[t]);
    assert Counted(r);
    forall w: nat, id: Check ensures Holds(r, w, id) <==> Holds(s, w, id) {}
    assert Placed(r) by { ExecPlaced(eval, s, t); }
    ExecRan(eval, s, t);
    ExecJudged(eval, s, t);
    ExecVerdicts(eval, s, t);
  }

  lemma ExecPlaced(eval: Check -> bool, s: State, t: nat)
    requires Placed(s) && Enabled(s, Exec(t))
    ensures Placed(Execute(eval, s, t))
  {
    hide Distinct;
    var r := Execute(eval, s, t);
    forall w: nat, id: Check ensures Holds(r, w, id) <==> Holds(s, w, id) {}
    forall u | 0 <= u < |r.threads| && r.threads[u].Busy? ensures Distinct(r.threads[u].batch) {
      assert Distinct(s.threads[u].batch);
    }
  }

  /** What thread `u` still has to do is not the check that thread `t` executes next. */
  lemma StillToDo(s: State, t: nat, u: nat, i: nat)
    requires Placed(s) && RanOnce(s) && Enabled(s, Exec(t)) && u < |s.threads| && s.threads[u].Busy?
    requires s.threads[u].pos <= i < |s.threads[u].batch| && (u == t ==> i > s.threads[t].pos)
    ensures s.threads[u].batch[i] != s.threads[t].batch[s.threads[t].pos] && s.threads[u].batch[i] !in s.ran
  {
    var check := s.threads[t].batch[s.threads[t].pos];
    assert Holds(s, t, check);
    assert Holds(s, u, s.threads[u].batch[i]);
    if u == t { assert Distinct(s.threads[t].batch); }
  }

  lemma ExecRan(eval: Check -> bool, s: State, t: nat)
    requires Placed(s) && RanOnce(s) && Enabled(s, Exec(t))
    ensures RanOnce(Execute(eval, s, t))
  {
    var r := Execute(eval, s, t);
    var p := s.threads[t];
    var check := p.batch[p.pos];
    assert Holds(s, t, check) && check !in s.ran && check !in s.queue && check < s.next;
    hide Placed;
    forall u | 0 <= u < |r.threads| && r.threads[u].Busy?
      ensures forall i :: r.threads[u].pos <= i < |r.threads[u].batch| ==> r.threads[u].batch[i] !in r.ran
    {
      forall i | r.threads[u].pos <= i < |r.threads[u].batch| ensures r.threads[u].batch[i] !in r.ran {
        StillToDo(s, t, u, i);
      }
    }
  }

  lemma ExecJudged(eval: Check -> bool, s: State, t: nat)
    requires Inv(eval, s) && Enabled(s, Exec(t))
    ensures Judged(eval, Execute(eval, s, t))
  {
    var check := s.threads[t].batch[s.threads[t].pos];
    assert Holds(s, t, check) && s.since <= check < s.next;
    FailedIs(eval, s, check);
    hide Placed, RanOnce, Counted, Verdicts, MasterWaits, Judged, AnyFails, Execute;
    JudgedExecuted(eval, s, t);
  }

  lemma JudgedExecuted(eval: Check -> bool, s: State, t: nat)
    requires Judged(eval, s) && Enabled(s, Exec(t))
    requires eval(s.threads[t].batch[s.threads[t].pos]) || AnyFails(eval, s.since, s.next)
    ensures Judged(eval, Execute(eval, s, t))
  {
    hide AnyFails, Passed, BatchJudged;
    var r := Execute(eval, s, t);
    forall w: nat, id: Check ensures Holds(r, w, id) <==> Holds(s, w, id) {}
    forall id: Check ensures Finished(r, id) <==> Finished(s, id) {}
    forall id: Check ensures Passed(eval, s, id) ==> Passed(eval, r, id) { PassedMore(eval, s, r, id); }
    forall u | 0 <= u < |r.threads| && r.threads[u].Busy? ensures BatchJudged(eval, r, r.threads[u]) {
      assert BatchJudged(eval, s, s.threads[u]);
      BatchExecuted(eval, s, t, u);
    }
  }

  lemma BatchExecuted(eval: Check -> bool, s: State, t: nat, u: nat)
    requires Enabled(s, Exec(t)) && u < |s.threads| && s.threads[u].Busy? && BatchJudged(eval, s, s.threads[u])
    requires eval(s.threads[t].batch[s.threads[t].pos]) || AnyFails(eval, s.since, s.next)
    ensures var r := Execute(eval, s, t); r.threads[u].Busy? && BatchJudged(eval, r, r.threads[u])
  {
    hide AnyFails;
  }

  lemma PassedMore(eval: Check -> bool, s: State, r: State, id: Check)
    requires s.ran <= r.ran
    ensures Passed(eval, s, id) ==> Passed(eval, r, id)
  {}

  lemma FailedIs(eval: Check -> bool, s: State, id: Check)
    requires s.since <= id < s.next
    ensures !eval(id) ==> AnyFails(eval, s.since, s.next)
  {}

  lemma ExecVerdicts(eval: Check -> bool, s: State, t: nat)
    requires Inv(eval, s) && Enabled(s, Exec(t))
    ensures Verdicts(eval, Execute(eval, s, t))
  {
    hide AnyFails, Sum, Judged, Distinct;
    var r := Execute(eval, s, t);
    var check := s.threads[t].batch[s.threads[t].pos];
    assert Holds(s, t, check);
    forall v | v in r.verdicts ensures RightVerdict(eval, r, v) { assert RightVerdict(eval, s, v); }
  }

  lemma AddKeeps(eval: Check -> bool, s: State, n: nat, w: nat)
    requires Inv(eval, s) && Enabled(s, Add(n, w))
    ensures Inv(eval, Added(s, n, w))
  {
    var r := Added(s, n, w);
    forall k | k != Effort ensures Sum(k, r.threads) == Sum(k, s.threads) { SumSame(k, s.threads, r.threads); }
    hide Sum;
    assert Counted(r) && MasterWaits(r);
    AddPlaced(s, n, w);
    AddRan(s, n, w);
    AddJudged(eval, s, n, w);
    VerdictsKept(eval, s, r);
  }

  lemma AddedQueue(s: State, n: nat, id: Check)
    ensures id in s.queue + seq(n, i => s.next + i) <==> id in s.queue || s.next <= id < s.next + n
  {
    var more := seq(n, i => s.next + i);
    if s.next <= id < s.next + n { assert more[id - s.next] == id; }
  }

  lemma AddPlaced(s: State, n: nat, w: nat)
    requires Placed(s) && s.since <= s.next
    ensures Placed(Added(s, n, w))
  {
    var r := Added(s, n, w);
    forall id: Check ensures id in r.queue <==> id in s.queue || s.next <= id < s.next + n { AddedQueue(s, n, id); }
    forall u: nat, id: Check ensures Holds(r, u, id) <==> Holds(s, u, id) {}
    forall i, j | 0 <= i < j < |r.queue| ensures r.queue[i] != r.queue[j] {
      if i < |s.queue| { assert s.queue[i] in s.queue; }
    }
    forall u | 0 <= u < |r.threads| && r.threads[u].Busy? ensures Distinct(r.threads[u].batch) {
      assert Distinct(s.threads[u].batch);
    }
  }

  lemma AddRan(s: State, n: nat, w: nat)
    requires RanOnce(s)
    ensures RanOnce(Added(s, n, w))
  {
    var r := Added(s, n, w);
    forall id: Check ensures id in r.queue <==> id in s.queue || s.next <= id < s.next + n { AddedQueue(s, n, id); }
    assert forall u :: 0 <= u < |r.threads| && r.threads[u].Busy? ==> r.threads[u] == s.threads[u];
  }

  lemma AddJudged(eval: Check -> bool, s: State, n: nat, w: nat)
    requires Inv(eval, s)
    ensures Judged(eval, Added(s, n, w))
  {
    hide Sum, Distinct, Passed;
    var r := Added(s, n, w);
    forall id: Check ensures id in r.queue <==> id in s.queue || s.next <= id < s.next + n { AddedQueue(s, n, id); }
    forall u: nat, id: Check ensures Holds(r, u, id) <==> Holds(s, u, id) {}
    forall id: Check ensures Passed(eval, r, id) <==> Passed(eval, s, id) { PassedSame(eval, s, r, id); }
    assert AnyFails(eval, s.since, s.next) ==> AnyFails(eval, r.since, r.next);
    hide AnyFails;
    forall id: Check | s.since <= id < r.next && Finished(r, id) ensures id < s.next && Finished(s, id) {}
    forall u | 0 <= u < |r.threads| && r.threads[u].Busy? ensures BatchJudged(eval, r, r.threads[u]) {
      assert BatchJudged(eval, s, s.threads[u]);
    }
  }

  lemma StepKeeps(eval: Check -> bool, s: State, op: Op)
    requires Inv(eval, s) && Enabled(s, op)
    ensures Inv(eval, Step(eval, s, op))
  {
    hide Inv, Attempt, Execute, Added;
    match op
    case Add(n, w) => AddKeeps(eval, s, n, w);
    case Enter(t) => EnterKeeps(eval, s, t);
    case Exec(t) => ExecKeeps(eval, s, t);
    case Finish(t) => FinishKeeps(eval, s, t);
    case Wake(t) => WakeKeeps(eval, s, t);
  }

  // ---------------------------------------------------------------- whole runs

  /** `t` is reachable from `s` by the steps of the run, in any interleaving. */
  ghost predicate Reaches(eval: Check -> bool, s: State, ops: seq<Op>, t: State)
    decreases |ops|
  {
    if ops == [] then t == s else Enabled(s, ops[0]) && Reaches(eval, Step(eval, s, ops[0]), ops[1..], t)
  }

  /** `s` is a state of a run from the start. */
  ghost predicate Reachable(eval: Check -> bool, s: State) {
    exists workers: nat, nBatchSize: nat, fQuit: bool, ops: seq<Op> :: Reaches(eval, Init(workers, nBatchSize, fQuit), ops, s)
  }

  lemma {:induction false} RunKeeps(eval: Check -> bool, s: State, ops: seq<Op>, t: State)
    requires Inv(eval, s) && Tiled(s) && Awake(s) && Reaches(eval, s, ops, t)
    ensures Inv(eval, t) && Tiled(t) && Awake(t)
    decreases |ops|
  {
    hide Inv, Step, Tiled, Awake, Enabled;
    if ops != [] {
      StepKeeps(eval, s, ops[0]);
      StepAwake(eval, s, ops[0]);
      StepTiles(eval, s, ops[0]);
      RunKeeps(eval, Step(eval, s, ops[0]), ops[1..], t);
    }
  }

  // ---------------------------------------------------------------- progress

  /** While there is work and a worker sleeps, some thread is at work or has been told to wake. */
  ghost predicate Awake(s: State) {
    || s.queue == []
    || (forall t :: 0 < t < |s.threads| ==> s.threads[t] != Waiting(false))
    || exists t :: 0 <= t < |s.threads| && (s.threads[t].Busy? || s.threads[t] == Waiting(true))
  }

  lemma StepAwake(eval: Check -> bool, s: State, op: Op)
    requires Awake(s) && Enabled(s, op)
    ensures Awake(Step(eval, s, op))
  {
    hide BatchSize, Taken;
    match op
    case Add(n, w) =>
      var r := Added(s, n, w).threads;
      if exists t :: 0 < t < |s.threads| && s.threads[t] == Waiting(false) {
        assert n >= 1 ==> r[w] == Waiting(true);
      }
      if t :| 0 <= t < |s.threads| && (s.threads[t].Busy? || s.threads[t] == Waiting(true)) {
        assert r[t] == s.threads[t];
      }
    case Exec(t) => assert Execute(eval, s, t).threads[t].Busy?;
    case Enter(t) => AttemptAwake(s.(nTotal := s.nTotal + 1), t);
    case Finish(t) => AttemptAwake(CleanUp(s, t), t);
    case Wake(t) => AttemptAwake(s.(nIdle := s.nIdle - 1), t);
  }

  lemma AttemptAwake(s: State, t: nat)
    requires t < |s.threads|
    ensures Awake(Attempt(s, t))
  {
    hide BatchSize, Taken;
    if s.queue != [] { assert Attempt(s, t).threads[t].Busy?; }
  }

  /** A step that a thread inside Loop can take by itself, or because it was notified. */
  predicate Working(s: State, op: Op) {
    match op
    case Exec(_) => Enabled(s, op)
    case Finish(_) => Enabled(s, op)
    case Wake(t) => t < |s.threads| && s.threads[t] == Waiting(true)
    case Add(_, _) => false
    case Enter(_) => false
  }

  /** What is left to do. */
  function Left(s: State): nat { 4 * |s.queue| + Sum(Effort, s.threads) }

  lemma AttemptShrinks(s: State, t: nat)
    requires t < |s.threads|
    ensures Left(Attempt(s, t)) + Weight(Effort, s.threads[t]) <= Left(s)
  {
    hide Sum, Taken, BatchSize;
    SumUpdate(Effort, s.threads, t, Attempt(s, t).threads[t]);
  }

  lemma CleanUpEffort(s: State, t: nat)
    requires t < |s.threads| && s.threads[t].Busy?
    ensures var c := CleanUp(s, t); |c.threads| == |s.threads| && c.threads[t] == s.threads[t] && Left(c) <= Left(s) + 1
  {
    hide Sum;
    if t != 0 { SumUpdate(Effort, s.threads, 0, Waiting(true)); }
  }

  lemma WorkShrinks(eval: Check -> bool, s: State, op: Op)
    requires Working(s, op)
    ensures Left(Step(eval, s, op)) < Left(s)
  {
    hide Sum, Attempt, CleanUp;
    match op
    case Exec(t) => SumUpdate(Effort, s.threads, t, Execute(eval, s, t).threads[t]);
    case Finish(t) =>
      CleanUpEffort(s, t);
      AttemptShrinks(CleanUp(s, t), t);
    case Wake(t) => AttemptShrinks(s.(nIdle := s.nIdle - 1), t);
  }

  /** `t` is reached from `s` by such steps alone, in any order. */
  ghost predicate Works(eval: Check -> bool, s: State, ops: seq<Op>, t: State)
    decreases |ops|
  {
    if ops == [] then t == s else Working(s, ops[0]) && Works(eval, Step(eval, s, ops[0]), ops[1..], t)
  }

  lemma {:induction false} WorkEnds(eval: Check -> bool, s: State, ops: seq<Op>, t: State)
    requires Works(eval, s, ops, t)
    ensures |ops| + Left(t) <= Left(s) && Reaches(eval, s, ops, t)
    decreases |ops|
  {
    hide Step, Working, Left;
    if ops != [] {
      WorkingEnabled(s, ops[0]);
      WorkShrinks(eval, s, ops[0]);
      WorkEnds(eval, Step(eval, s, ops[0]), ops[1..], t);
    }
  }

  lemma WorkingEnabled(s: State, op: Op)
    requires Working(s, op)
    ensures Enabled(s, op)
  {}

  /** Wait returns. However the threads in Loop are scheduled, they run out of steps after at most `Left(s)`
      of them, and when they have, the master is not in Loop any more. */
  lemma WaitReturns(eval: Check -> bool, s: State, ops: seq<Op>, t: State)
    requires Reachable(eval, s) && Works(eval, s, ops, t)
    ensures |ops| <= Left(s)
    ensures (forall op :: !Working(t, op)) ==> t.threads != [] && t.threads[0].Outside?
  {
    hide Left, Works, Reaches, Sum;
    WorkEnds(eval, s, ops, t);
    ReachableMore(eval, s, ops, t);
    ReachableHolds(eval, t);
    if !t.threads[0].Outside? { var op := WorkForMaster(eval, t); }
  }

  /** While the master is in Loop, it or a worker that it waits for can take a step. */
  lemma WorkForMaster(eval: Check -> bool, s: State) returns (op: Op)
    requires Reachable(eval, s) && s.threads != [] && !s.threads[0].Outside?
    ensures Working(s, op)
  {
    var u := 0;
    if s.threads[0] == Waiting(false) { u := MasterNeverStuck(eval, s); }
    ReachableHolds(eval, s);
    BusyInRange(eval, s, u);
    op := if !s.threads[u].Busy? then Wake(u) else if s.threads[u].pos < |s.threads[u].batch| then Exec(u) else Finish(u);
  }

  lemma BusyInRange(eval: Check -> bool, s: State, t: nat)
    requires Inv(eval, s) && t < |s.threads|
    ensures s.threads[t].Busy? ==> s.threads[t].pos <= |s.threads[t].batch|
  {}

  lemma ReachableMore(eval: Check -> bool, s: State, ops: seq<Op>, t: State)
    requires Reachable(eval, s) && Reaches(eval, s, ops, t)
    ensures Reachable(eval, t)
  {
    hide Step, Reaches;
    var workers: nat, nBatchSize: nat, fQuit: bool, before :| Reaches(eval, Init(workers, nBatchSize, fQuit), before, s);
    ReachesChain(eval, Init(workers, nBatchSize, fQuit), before, s, ops, t);
  }

  lemma {:induction false} ReachesChain(eval: Check -> bool, s: State, a: seq<Op>, u: State, b: seq<Op>, t: State)
    requires Reaches(eval, s, a, u) && Reaches(eval, u, b, t)
    ensures Reaches(eval, s, a + b, t)
    decreases |a|
  {
    hide Step;
    if a == [] {
      assert a + b == b;
    } else {
      assert (a + b)[0] == a[0] && (a + b)[1..] == a[1..] + b;
      ReachesChain(eval, Step(eval, s, a[0]), a[1..], u, b, t);
    }
  }

  /** No worker is forgotten: while checks are queued and a worker sleeps unnotified, another thread can take
      a step of its own. */
  lemma WorkersNotForgotten(eval: Check -> bool, s: State, w: nat) returns (op: Op)
    requires Reachable(eval, s) && s.queue != [] && 0 < w < |s.threads| && s.threads[w] == Waiting(false)
    ensures Working(s, op)
  {
    ReachableHolds(eval, s);
    var t :| 0 <= t < |s.threads| && (s.threads[t].Busy? || s.threads[t] == Waiting(true));
    BusyInRange(eval, s, t);
    op := if !s.threads[t].Busy? then Wake(t) else if s.threads[t].pos < |s.threads[t].batch| then Exec(t) else Finish(t);
  }

  // ---------------------------------------------------------------- the returns of Wait

  /** The checks that the returns of Wait are about follow each other without gap or overlap. */
  ghost predicate Tiled(s: State) {
    && (forall i :: 0 <= i < |s.verdicts| ==> s.verdicts[i].first == EndBefore(s.verdicts, i))
    && s.since == EndBefore(s.verdicts, |s.verdicts|)
  }

  function EndBefore(verdicts: seq<Verdict>, i: nat): nat
    requires i <= |verdicts|
  {
    if i == 0 then 0 else verdicts[i - 1].end
  }

  lemma StepTiles(eval: Check -> bool, s: State, op: Op)
    requires Tiled(s) && Enabled(s, op)
    ensures Tiled(Step(eval, s, op))
  {
    hide Attempt, Tiled;
    match op
    case Add(n, w) => SameTiles(s, Added(s, n, w));
    case Exec(t) => SameTiles(s, Execute(eval, s, t));
    case Enter(t) => AttemptTiles(s, s.(nTotal := s.nTotal + 1), t);
    case Finish(t) => AttemptTiles(s, CleanUp(s, t), t);
    case Wake(t) => AttemptTiles(s, s.(nIdle := s.nIdle - 1), t);
  }

  lemma SameTiles(s: State, r: State)
    requires Tiled(s) && r.verdicts == s.verdicts && r.since == s.since
    ensures Tiled(r)
  {}

  lemma AttemptTiles(s: State, u: State, t: nat)
    requires Tiled(s) && u.verdicts == s.verdicts && u.since == s.since && t < |u.threads|
    ensures Tiled(Attempt(u, t))
  {
    hide BatchSize, Taken, Tiled;
    var r := Attempt(u, t);
    if u.queue == [] && u.nTodo == 0 && t == 0 {
      NextTile(s, r, Verdict(u.since, u.next, u.fAllOk));
    } else {
      SameTiles(s, r);
    }
  }

  lemma NextTile(s: State, r: State, v: Verdict)
    requires Tiled(s) && r.verdicts == s.verdicts + [v] && v.first == s.since && r.since == v.end
    ensures Tiled(r)
  {}

  lemma InitHolds(eval: Check -> bool, workers: nat, nBatchSize: nat, fQuit: bool)
    ensures Inv(eval, Init(workers, nBatchSize, fQuit)) && Tiled(Init(workers, nBatchSize, fQuit)) && Awake(Init(workers, nBatchSize, fQuit))
  {
    var s := Init(workers, nBatchSize, fQuit);
    forall k ensures Sum(k, s.threads) == 0 { SumNothing(k, s.threads); }
    assert Tiled(s);
  }

  lemma ReachableHolds(eval: Check -> bool, s: State)
    requires Reachable(eval, s)
    ensures Inv(eval, s) && Tiled(s) && Awake(s) && s.threads != []
  {
    hide Inv, Step, Reaches, Awake;
    var workers: nat, nBatchSize: nat, fQuit: bool, ops :| Reaches(eval, Init(workers, nBatchSize, fQuit), ops, s);
    InitHolds(eval, workers, nBatchSize, fQuit);
    RunKeeps(eval, Init(workers, nBatchSize, fQuit), ops, s);
    assert s.threads != [] by { HasMaster(eval, s); }
  }

  lemma HasMaster(eval: Check -> bool, s: State)
    requires Inv(eval, s)
    ensures s.threads != []
  {
    assert MasterWaits(s);
  }

  /** Every Wait has returned true exactly when all checks added since the Wait before it evaluate to true,
      every one of which then ran exactly once; and no check ever runs twice. The counters count: nTodo the
      checks queued or in unfinished batches, nTotal the threads in Loop, nIdle those that wait. */
  lemma WaitIsRight(eval: Check -> bool, s: State)
    requires Reachable(eval, s)
    ensures s.nTodo == |s.queue| + Sum(Outstanding, s.threads)
    ensures s.nTotal == Sum(Total, s.threads) && s.nIdle == Sum(Idle, s.threads)
    ensures forall id: Check :: s.ran[id] <= 1
    ensures Tiled(s)
    ensures forall v :: v in s.verdicts ==>
              && (v.ok <==> forall id: Check :: v.first <= id < v.end ==> eval(id))
              && (v.ok ==> forall id: Check :: v.first <= id < v.end ==> s.ran[id] == 1)
  {
    ReachableHolds(eval, s);
    hide Sum, Judged, Placed;
    forall v | v in s.verdicts
      ensures v.ok <==> forall id: Check :: v.first <= id < v.end ==> eval(id)
      ensures v.ok ==> forall id: Check :: v.first <= id < v.end ==> s.ran[id] == 1
    {
      assert RightVerdict(eval, s, v);
    }
  }

  /** No wakeup is lost: a master that sleeps unnotified waits for a worker that has a batch out, and can
      take its next step. */
  lemma MasterNeverStuck(eval: Check -> bool, s: State) returns (t: nat)
    requires Reachable(eval, s) && s.threads != [] && s.threads[0] == Waiting(false)
    ensures 0 < t < |s.threads| && s.threads[t].Busy? && s.threads[t].batch != []
    ensures Enabled(s, Exec(t)) || Enabled(s, Finish(t))
  {
    ReachableHolds(eval, s);
    t := SumPositive(Outstanding, s.threads);
  }

  /** IsIdle */
  predicate IsIdle(s: State) { s.nTotal == s.nIdle && s.nTodo == 0 && s.fAllOk }

  /** Between two calls of Wait the queue is idle exactly when nothing that was added is left to do and
      nothing has failed; so it always is right after a Wait, as CCheckQueueControl asserts. */
  lemma IdleBetweenWaits(eval: Check -> bool, s: State)
    requires Reachable(eval, s) && s.threads != [] && s.threads[0].Outside?
    ensures IsIdle(s) <==> s.nTodo == 0 && !AnyFails(eval, s.since, s.next)
    ensures s.since == s.next ==> IsIdle(s)
  {
    ReachableHolds(eval, s);
    hide Passed, Distinct;
    if s.since == s.next { NoneOut(eval, s); }
    if s.nTodo == 0 {
      forall t | 0 <= t < |s.threads| ensures Weight(Total, s.threads[t]) == Weight(Idle, s.threads[t]) {
        SumAtLeast(Outstanding, s.threads, t);
      }
      SumsEqual(s.threads);
      hide Sum;
      forall t: nat, id: Check ensures !Holds(s, t, id) { if Holds(s, t, id) { SumAtLeastOf(s, t); } }
      AllFinished(eval, s);
    }
  }

  lemma SumAtLeastOf(s: State, t: nat)
    requires t < |s.threads|
    ensures Sum(Outstanding, s.threads) >= Weight(Outstanding, s.threads[t])
  {
    SumAtLeast(Outstanding, s.threads, t);
  }

  lemma AllFinished(eval: Check -> bool, s: State)
    requires Judged(eval, s) && s.queue == [] && forall t: nat, id: Check :: !Holds(s, t, id)
    ensures s.fAllOk <==> !AnyFails(eval, s.since, s.next)
  {
    hide BatchJudged;
    if s.fAllOk {
      forall id: Check | s.since <= id < s.next ensures eval(id) { assert Finished(s, id); assert Passed(eval, s, id); }
    }
  }

  lemma {:induction false} SumsEqual(threads: seq<Phase>)
    requires forall t :: 0 <= t < |threads| ==> Weight(Total, threads[t]) == Weight(Idle, threads[t])
    ensures Sum(Total, threads) == Sum(Idle, threads)
  {
    hide Weight;
    if threads != [] { SumsEqual(threads[..|threads| - 1]); }
  }

  lemma NoneOut(eval: Check -> bool, s: State)
    requires Inv(eval, s) && s.since == s.next
    ensures s.nTodo == 0
  {
    hide AnyFails, Distinct, Passed;
    FirstIn(s.queue);
    forall t | 0 <= t < |s.threads| ensures Weight(Outstanding, s.threads[t]) == 0 {
      assert s.threads[t].Busy? ==> Holds(s, t, s.threads[t].batch[0]);
    }
    SumNothing(Outstanding, s.threads);
  }

  lemma FirstIn(a: seq<Check>)
    ensures a == [] || exists id :: id in a
  {
    if a != [] { assert a[0] in a; }
  }

  lemma {:induction false} SumNothing(k: Kind, threads: seq<Phase>)
    requires forall t :: 0 <= t < |threads| ==> Weight(k, threads[t]) == 0
    ensures Sum(k, threads) == 0
  {
    hide Weight;
    if threads != [] { SumNothing(k, threads[..|threads| - 1]); }
  }
}
