/** The queue of verifications, shared by one master and any number of workers.

    Between two acquisitions of the mutex a thread touches only its own batch, so a step is one lock
    section or one evaluation of a batch, and a run is any interleaving of such steps. */
module CheckQueue {
  import opened Arithmetic

  /** A verification and what it evaluates to. */
  datatype Check = Check(id: nat, ok: bool)

  /** Where a thread stands in `Loop`. `Ready` is at the top of the loop, with the batch it has just
      finished (none on the first round) and the outcome; `Waiting` is blocked on its condition. */
  datatype Local =
    | Out
    | Ready(batch: seq<Check>, ok: bool)
    | Waiting
    | Working(batch: seq<Check>, ok: bool)

  const MASTER := 0

  /** `wakeMaster` says that the master was notified since it began to wait; `added` are the checks
      added since `Wait` last returned. */
  datatype State = State(
    queue: seq<Check>, nIdle: nat, nTotal: int, fAllOk: bool, nTodo: int, nBatchSize: nat,
    threads: seq<Local>, wakeMaster: bool, added: seq<Check>)

  function Init(workers: nat, batchSize: nat): State {
    State([], 0, 0, true, 0, batchSize, seq(workers + 1, _ => Out), false, [])
  }

  predicate AllTrue(checks: seq<Check>) {
    forall i :: 0 <= i < |checks| ==> checks[i].ok
  }

  function BatchOf(l: Local): seq<Check> {
    if l.Ready? || l.Working? then l.batch else []
  }

  // ----- The steps

  /** The quotient is the largest number of which `workers` shares can be had. */
  lemma Shares(work: nat, workers: nat)
    requires workers > 0
    ensures forall n: nat :: n * workers <= work <==> n <= work / workers
  {
    var q := work / workers;
    assert work == q * workers + work % workers;
    forall n: nat ensures n * workers <= work <==> n <= q {
      if n <= q {
        MulAtMost(n, q, workers);
      } else {
        MulAtMost(q + 1, n, workers);
        Distribute(q, 1, workers);
      }
    }
  }

  function BatchLimit(s: State): (n: nat)
    requires s.queue != [] && s.nTotal >= 0
    ensures 1 <= n <= |s.queue|
    ensures n <= if s.nBatchSize < 1 then 1 else s.nBatchSize
    ensures n > 1 ==> n * (s.nTotal + s.nIdle + 1) <= |s.queue|
    ensures n < s.nBatchSize ==> (n + 1) * (s.nTotal + s.nIdle + 1) > |s.queue|
  {
    var share := |s.queue| / (s.nTotal + s.nIdle + 1);
    DivSmaller(|s.queue|, s.nTotal + s.nIdle + 1);
    Shares(|s.queue|, s.nTotal + s.nIdle + 1);
    var n := if share < s.nBatchSize then share else s.nBatchSize;
    if n < 1 then 1 else n
  }

  /** Move the last `n` checks off the queue, last first. */
  function Popped(queue: seq<Check>, n: nat): seq<Check>
    requires n <= |queue|
  {
    seq(n, i requires 0 <= i < n => queue[|queue| - 1 - i])
  }

  /** The rest of a lock section, from the inner loop on: return, wait or take a batch. The second
      result is what `Wait` returns, if it does. */
  function Proceed(s: State, t: nat): (State, seq<bool>)
    requires t < |s.threads| && s.nTotal >= 0
  {
    if s.queue == [] then
      if t == MASTER && s.nTodo == 0 then
        (s.(nTotal := s.nTotal - 1, fAllOk := true, threads := s.threads[t := Out], added := []), [s.fAllOk])
      else
        (s.(nIdle := s.nIdle + 1, threads := s.threads[t := Waiting],
            wakeMaster := if t == MASTER then false else s.wakeMaster), [])
    else
      var n := BatchLimit(s);
      (s.(queue := s.queue[..|s.queue| - n], threads := s.threads[t := Working(Popped(s.queue, n), s.fAllOk)]), [])
  }

  /** The clean-up of the previous round at the start of a lock section. */
  function CleanUp(s: State, t: nat): State
    requires t < |s.threads| && s.threads[t].Ready?
  {
    var l := s.threads[t];
    if l.batch != [] then
      var todo := s.nTodo - |l.batch|;
      s.(fAllOk := s.fAllOk && l.ok, nTodo := todo, threads := s.threads[t := Ready([], true)],
         wakeMaster := s.wakeMaster || (todo == 0 && t != MASTER))
    else s.(nTotal := s.nTotal + 1, threads := s.threads[t := Ready([], true)])
  }

  datatype Event =
    | Start(t: nat)          // a thread calls Thread() or Wait()
    | Add(checks: seq<Check>)
    | Enter(t: nat)          // the lock section at the top of the loop
    | Wake(t: nat)           // the wait returns, for a notification or for none
    | Evaluate(t: nat)       // the batch, outside the lock

  predicate Enabled(s: State, e: Event) {
    match e
    case Start(t) => t < |s.threads| && s.threads[t].Out?
    case Add(_) => |s.threads| > 0 && s.threads[MASTER].Out?
    case Enter(t) => t < |s.threads| && s.threads[t].Ready?
    case Wake(t) => t < |s.threads| && s.threads[t].Waiting?
    case Evaluate(t) => t < |s.threads| && s.threads[t].Working?
  }

  function Step(s: State, e: Event): (State, seq<bool>)
    requires Enabled(s, e) && s.nTotal >= 0 && (e.Wake? ==> s.nIdle > 0)
  {
    match e
    case Start(t) => (s.(threads := s.threads[t := Ready([], true)]), [])
    case Add(checks) =>
      (s.(queue := s.queue + checks, nTodo := s.nTodo + |checks|, added := s.added + checks), [])
    case Enter(t) => Proceed(CleanUp(s, t), t)
    case Wake(t) => Proceed(s.(nIdle := s.nIdle - 1, threads := s.threads[t := Ready([], true)]), t)
    case Evaluate(t) =>
      var l := s.threads[t];
      (s.(threads := s.threads[t := Ready(l.batch, l.ok && AllTrue(l.batch))]), [])
  }

  // ----- The invariant

  /** Sum of a measure over the threads. */
  ghost function Total(f: Local -> nat, ls: seq<Local>): nat {
    if ls == [] then 0 else f(ls[0]) + Total(f, ls[1..])
  }

  lemma {:induction false} TotalUpdate(f: Local -> nat, ls: seq<Local>, t: nat, l: Local)
    requires t < |ls|
    ensures Total(f, ls[t := l]) == Total(f, ls) - f(ls[t]) + f(l)
  {
    if t == 0 {
      assert ls[t := l][1..] == ls[1..];
    } else {
      assert ls[t := l][1..] == ls[1..][t - 1 := l];
      TotalUpdate(f, ls[1..], t - 1, l);
    }
  }

  lemma {:induction false} TotalPositive(f: Local -> nat, ls: seq<Local>) returns (t: nat)
    requires Total(f, ls) > 0
    ensures t < |ls| && f(ls[t]) > 0
  {
    if f(ls[0]) > 0 {
      t := 0;
    } else {
      t := TotalPositive(f, ls[1..]);
      t := t + 1;
    }
  }

  lemma {:induction false} TotalAtLeast(f: Local -> nat, ls: seq<Local>, t: nat)
    requires t < |ls|
    ensures Total(f, ls) >= f(ls[t])
  {
    if t > 0 {
      TotalAtLeast(f, ls[1..], t - 1);
    }
  }

  ghost const Held: Local -> nat := (l: Local) => |BatchOf(l)|
  ghost const Idle: Local -> nat := (l: Local) => if l.Waiting? then 1 else 0
  ghost const Inside: Local -> nat := (l: Local) => if l.Out? || (l.Ready? && l.batch == []) then 0 else 1

  /** Unfinished work is counted, and so are the threads inside the loop and those asleep. */
  ghost predicate CountsOk(s: State) {
    && s.nTodo == |s.queue| + Total(Held, s.threads)
    && s.nIdle == Total(Idle, s.threads)
    && s.nTotal == Total(Inside, s.threads)
  }

  /** A batch in hand is not empty, and a negative outcome has its reason. */
  ghost predicate LocalOk(s: State, l: Local) {
    match l
    case Ready(batch, ok) =>
      batch != [] ==> (ok ==> AllTrue(batch)) && (!ok ==> !AllTrue(batch) || !s.fAllOk)
    case Working(batch, ok) => batch != [] && (!ok ==> !s.fAllOk)
    case _ => true
  }

  /** All the checks added are true exactly if none has failed so far and all that remain are. */
  ghost predicate OutcomeOk(s: State) {
    AllTrue(s.added) <==>
      s.fAllOk && AllTrue(s.queue) && forall t :: 0 <= t < |s.threads| ==> AllTrue(BatchOf(s.threads[t]))
  }

  /** A master that sleeps without a notification has left nothing on the queue, and something to do elsewhere. */
  ghost predicate SleepOk(s: State) {
    |s.threads| > 0 && s.threads[MASTER].Waiting? && !s.wakeMaster ==> s.queue == [] && s.nTodo > 0
  }

  ghost predicate Inv(s: State) {
    && |s.threads| > 0 && CountsOk(s) && OutcomeOk(s)
    && (forall t :: 0 <= t < |s.threads| ==> LocalOk(s, s.threads[t]))
    && (s.threads[MASTER].Waiting? ==> s.queue == [])
    && SleepOk(s)
  }

  /** Thread `t` is inside a lock section, between clean-up and decision. */
  ghost predicate Mid(s: State, t: nat) {
    && t < |s.threads| && s.threads[t] == Ready([], true)
    && s.nTodo == |s.queue| + Total(Held, s.threads)
    && s.nIdle == Total(Idle, s.threads)
    && s.nTotal == Total(Inside, s.threads) + 1
    && OutcomeOk(s)
    && (forall k :: 0 <= k < |s.threads| ==> LocalOk(s, s.threads[k]))
    && (s.threads[MASTER].Waiting? ==> s.queue == [])
    && SleepOk(s)
  }

  /** The counts after thread `t` takes up a new position. */
  lemma CountsAfter(s: State, t: nat, l: Local)
    requires t < |s.threads|
    ensures var ls := s.threads[t := l];
            && Total(Held, ls) == Total(Held, s.threads) - Held(s.threads[t]) + Held(l)
            && Total(Idle, ls) == Total(Idle, s.threads) - Idle(s.threads[t]) + Idle(l)
            && Total(Inside, ls) == Total(Inside, s.threads) - Inside(s.threads[t]) + Inside(l)
  {
    TotalUpdate(Held, s.threads, t, l);
    TotalUpdate(Idle, s.threads, t, l);
    TotalUpdate(Inside, s.threads, t, l);
  }

  lemma PoppedTrue(queue: seq<Check>, n: nat)
    requires n <= |queue|
    ensures AllTrue(queue) <==> AllTrue(queue[..|queue| - n]) && AllTrue(Popped(queue, n))
  {
    var rest, taken := queue[..|queue| - n], Popped(queue, n);
    if AllTrue(rest) && AllTrue(taken) {
      forall i | 0 <= i < |queue| ensures queue[i].ok {
        if i < |rest| {
          assert rest[i].ok;
        } else {
          assert taken[|queue| - 1 - i].ok;
        }
      }
    }
  }

  lemma AppendTrue(a: seq<Check>, b: seq<Check>)
    ensures AllTrue(a + b) <==> AllTrue(a) && AllTrue(b)
  {
    if AllTrue(a + b) {
      forall i | 0 <= i < |a| ensures a[i].ok { assert (a + b)[i].ok; }
      forall i | 0 <= i < |b| ensures b[i].ok { assert (a + b)[|a| + i].ok; }
    }
  }

  /** Returning: nothing is queued or in flight, so the flag has seen every check. */
  lemma ReturnSpec(s: State)
    requires Mid(s, MASTER) && s.queue == [] && s.nTodo == 0
    ensures s.fAllOk <==> AllTrue(s.added)
    ensures Inv(Proceed(s, MASTER).0)
  {
    var r := Proceed(s, MASTER).0;
    CountsAfter(s, MASTER, Out);
    forall k | 0 <= k < |s.threads| ensures BatchOf(s.threads[k]) == [] {
      TotalAtLeast(Held, s.threads, k);
      assert Held(s.threads[k]) == |BatchOf(s.threads[k])|;
    }
    forall k | 0 <= k < |r.threads| ensures LocalOk(r, r.threads[k]) && BatchOf(r.threads[k]) == [] {
      if k != MASTER {
        assert r.threads[k] == s.threads[k] && LocalOk(s, s.threads[k]);
      }
    }
  }

  lemma WaitSpec(s: State, t: nat)
    requires Mid(s, t) && s.queue == [] && !(t == MASTER && s.nTodo == 0)
    ensures Inv(Proceed(s, t).0)
  {
    var r := Proceed(s, t).0;
    CountsAfter(s, t, Waiting);
    OthersKept(s, r, t);
  }

  lemma TakeSpec(s: State, t: nat)
    requires Mid(s, t) && s.queue != []
    ensures Inv(Proceed(s, t).0)
  {
    var r, n := Proceed(s, t).0, BatchLimit(s);
    var l := Working(Popped(s.queue, n), s.fAllOk);
    CountsAfter(s, t, l);
    PoppedTrue(s.queue, n);
    hide BatchLimit;
    forall k | 0 <= k < |r.threads| ensures LocalOk(r, r.threads[k]) {
      assert LocalOk(s, s.threads[k]);
    }
    assert r.threads[t] == l;
    assert forall k :: 0 <= k < |s.threads| && k != t ==> r.threads[k] == s.threads[k];
    BatchesTrue(s.threads, r.threads, t);
  }

  /** Whether all batches are true, when only thread `t` changed and it had none. */
  lemma BatchesTrue(before: seq<Local>, after: seq<Local>, t: nat)
    requires t < |before| == |after| && BatchOf(before[t]) == []
    requires forall k :: 0 <= k < |before| && k != t ==> after[k] == before[k]
    ensures (forall k :: 0 <= k < |after| ==> AllTrue(BatchOf(after[k]))) <==>
            AllTrue(BatchOf(after[t])) && forall k :: 0 <= k < |before| ==> AllTrue(BatchOf(before[k]))
  {
  }

  lemma OthersKept(s: State, r: State, t: nat)
    requires Mid(s, t) && |r.threads| == |s.threads| && r.fAllOk == s.fAllOk && r.queue == s.queue && r.added == s.added
    requires BatchOf(r.threads[t]) == [] && LocalOk(r, r.threads[t])
    requires forall k :: 0 <= k < |s.threads| && k != t ==> r.threads[k] == s.threads[k]
    ensures OutcomeOk(r) && forall k :: 0 <= k < |r.threads| ==> LocalOk(r, r.threads[k])
  {
    BatchesTrue(s.threads, r.threads, t);
    forall k | 0 <= k < |r.threads| ensures LocalOk(r, r.threads[k]) {
      assert LocalOk(s, s.threads[k]);
    }
  }

  lemma ProceedSpec(s: State, t: nat)
    requires Mid(s, t)
    ensures var (r, out) := Proceed(s, t); Inv(r) && (out == [] || out == [AllTrue(s.added)])
  {
    if s.queue != [] {
      TakeSpec(s, t);
    } else if t == MASTER && s.nTodo == 0 {
      ReturnSpec(s);
    } else {
      WaitSpec(s, t);
    }
  }

  lemma CleanUpSpec(s: State, t: nat)
    requires Inv(s) && t < |s.threads| && s.threads[t].Ready?
    ensures Mid(CleanUp(s, t), t)
  {
    var l := s.threads[t];
    var r := CleanUp(s, t);
    CountsAfter(s, t, Ready([], true));
    TotalAtLeast(Held, s.threads, t);
    assert LocalOk(s, l);
    forall k | 0 <= k < |r.threads| ensures LocalOk(r, r.threads[k]) {
      assert LocalOk(s, s.threads[k]);
    }
    assert forall k :: 0 <= k < |s.threads| && k != t ==> r.threads[k] == s.threads[k];
    BatchesTrue(r.threads, s.threads, t);
  }

  // ----- Every step and every run

  lemma InitInv(workers: nat, batchSize: nat)
    ensures Inv(Init(workers, batchSize))
  {
    var s := Init(workers, batchSize);
    TotalOut(s.threads);
  }

  lemma {:induction false} TotalOut(ls: seq<Local>)
    requires forall k :: 0 <= k < |ls| ==> ls[k] == Out
    ensures Total(Held, ls) == Total(Idle, ls) == Total(Inside, ls) == 0
  {
    if ls != [] {
      TotalOut(ls[1..]);
    }
  }

  lemma StartSpec(s: State, t: nat)
    requires Inv(s) && Enabled(s, Start(t))
    ensures Inv(s.(threads := s.threads[t := Ready([], true)]))
  {
    var r := s.(threads := s.threads[t := Ready([], true)]);
    CountsAfter(s, t, Ready([], true));
    forall k | 0 <= k < |r.threads| ensures LocalOk(r, r.threads[k]) {
      assert LocalOk(s, s.threads[k]);
    }
    BatchesTrue(s.threads, r.threads, t);
  }

  lemma AddSpec(s: State, checks: seq<Check>)
    requires Inv(s) && Enabled(s, Add(checks)) && s.nTotal >= 0
    ensures Inv(Step(s, Add(checks)).0)
  {
    var r := Step(s, Add(checks)).0;
    AppendTrue(s.added, checks);
    AppendTrue(s.queue, checks);
    forall k | 0 <= k < |r.threads| ensures LocalOk(r, r.threads[k]) {
      assert LocalOk(s, s.threads[k]);
    }
  }

  lemma WakeSpec(s: State, t: nat)
    requires Inv(s) && Enabled(s, Wake(t))
    ensures s.nIdle > 0 && Mid(s.(nIdle := s.nIdle - 1, threads := s.threads[t := Ready([], true)]), t)
  {
    TotalAtLeast(Idle, s.threads, t);
    assert Idle(s.threads[t]) == 1;
    var r := s.(nIdle := s.nIdle - 1, threads := s.threads[t := Ready([], true)]);
    CountsAfter(s, t, Ready([], true));
    LocalsAfterWake(s, r, t);
    BatchesTrue(s.threads, r.threads, t);
    hide LocalOk;
    hide Total;
  }

  lemma LocalsAfterWake(s: State, r: State, t: nat)
    requires t < |s.threads| && s.nIdle > 0 && r == s.(nIdle := s.nIdle - 1, threads := s.threads[t := Ready([], true)])
    requires forall k :: 0 <= k < |s.threads| ==> LocalOk(s, s.threads[k])
    ensures forall k :: 0 <= k < |r.threads| ==> LocalOk(r, r.threads[k])
  {
    forall k | 0 <= k < |r.threads| ensures LocalOk(r, r.threads[k]) {
      assert LocalOk(s, s.threads[k]);
    }
  }

  lemma EvaluateSpec(s: State, t: nat)
    requires Inv(s) && Enabled(s, Evaluate(t)) && s.nTotal >= 0
    ensures Inv(Step(s, Evaluate(t)).0)
  {
    var l, r := s.threads[t], Step(s, Evaluate(t)).0;
    assert LocalOk(s, l);
    CountsAfter(s, t, r.threads[t]);
    forall k | 0 <= k < |r.threads|
      ensures LocalOk(r, r.threads[k]) && BatchOf(r.threads[k]) == BatchOf(s.threads[k])
    {
      assert LocalOk(s, s.threads[k]);
    }
  }

  /** Every enabled step keeps the invariant, and when `Wait` returns, it returns whether every check
      added since it last returned is true. */
  lemma StepSpec(s: State, e: Event)
    requires Inv(s) && Enabled(s, e)
    ensures s.nTotal >= 0 && (e.Wake? ==> s.nIdle > 0)
    ensures var (r, out) := Step(s, e); Inv(r) && (out == [] || out == [AllTrue(s.added)])
  {
    assert s.nTotal >= 0;
    match e
    case Start(t) => StartSpec(s, t);
    case Add(checks) => AddSpec(s, checks);
    case Enter(t) => CleanUpSpec(s, t); hide Mid; ProceedSpec(CleanUp(s, t), t); hide Proceed;
    case Wake(t) =>
      WakeSpec(s, t);
      hide Mid;
      ProceedSpec(s.(nIdle := s.nIdle - 1, threads := s.threads[t := Ready([], true)]), t);
      hide Proceed;
    case Evaluate(t) => EvaluateSpec(s, t);
  }

  /** The last state of a run and everything that `Wait` returned in it; a run ends at a step that is
      not enabled. */
  function Run(s: State, events: seq<Event>): (State, seq<bool>)
    requires Inv(s)
    decreases |events|
  {
    if events == [] || !Enabled(s, events[0]) then (s, []) else
      StepSpec(s, events[0]);
      var (r, out) := Step(s, events[0]);
      var (u, outs) := Run(r, events[1..]);
      (u, out + outs)
  }

  /** What `Wait` ought to return in that run: for each return, whether the checks added since the
      return before it are all true. Only the places where it returns are taken from the run. */
  function Expected(s: State, events: seq<Event>, since: seq<Check>): seq<bool>
    requires Inv(s)
    decreases |events|
  {
    if events == [] || !Enabled(s, events[0]) then [] else
      StepSpec(s, events[0]);
      var (r, out) := Step(s, events[0]);
      var now := if events[0].Add? then since + events[0].checks else since;
      if out == [] then Expected(r, events[1..], now) else [AllTrue(now)] + Expected(r, events[1..], [])
  }

  lemma StepAdds(s: State, e: Event)
    requires Inv(s) && Enabled(s, e)
    ensures s.nTotal >= 0 && (e.Wake? ==> s.nIdle > 0)
    ensures var (r, out) := Step(s, e);
            && (out == [] ==> r.added == if e.Add? then s.added + e.checks else s.added)
            && (out != [] ==> r.added == [] && !e.Add?)
  {
    StepSpec(s, e);
  }

  /** In every interleaving each `Wait` returns true exactly if every check added since the previous
      `Wait` evaluates to true; the invariant holds at the end, and so at every moment. */
  lemma {:induction false} EveryWaitIsRight(s: State, events: seq<Event>)
    requires Inv(s)
    ensures Run(s, events).1 == Expected(s, events, s.added) && Inv(Run(s, events).0)
    decreases |events|
  {
    if events != [] && Enabled(s, events[0]) {
      StepSpec(s, events[0]);
      StepAdds(s, events[0]);
      hide Inv;
      hide Enabled;
      EveryWaitIsRight(Step(s, events[0]).0, events[1..]);
    }
  }

  /** A master blocked without a pending wake-up is owed one: some worker still has a batch to finish. */
  lemma BlockedMasterIsOwed(s: State) returns (t: nat)
    requires Inv(s) && s.threads[MASTER].Waiting? && !s.wakeMaster
    ensures 0 < t < |s.threads| && BatchOf(s.threads[t]) != []
  {
    t := TotalPositive(Held, s.threads);
    assert Held(s.threads[t]) == |BatchOf(s.threads[t])|;
  }

  // ----- The lock sections and the evaluation, as the threads execute them

  /** Evaluate a batch, skipping what no longer matters. */
  method EvaluateBatch(vChecks: seq<Check>, fOkIn: bool) returns (fOk: bool)
    ensures fOk == (fOkIn && AllTrue(vChecks))
  {
    fOk := fOkIn;
    for i := 0 to |vChecks|
      invariant fOk == (fOkIn && AllTrue(vChecks[..i]))
    {
      AppendTrue(vChecks[..i], [vChecks[i]]);
      assert vChecks[..i + 1] == vChecks[..i] + [vChecks[i]];
      assert AllTrue([vChecks[i]]) == [vChecks[i]][0].ok;
      if fOk {
        fOk := vChecks[i].ok;
      }
    }
    assert vChecks[..|vChecks|] == vChecks;
  }

  /** What a lock section decides. */
  datatype Decision = Return(result: bool) | Sleep | Take(batch: seq<Check>, ok: bool)

  datatype Notice = Nobody | OneWorker | AllWorkers

  class CCheckQueue {
    var queue: seq<Check>
    var nIdle: nat
    var nTotal: int
    var fAllOk: bool
    var nTodo: int
    const nBatchSize: nat

    constructor (nBatchSize: nat)
      ensures queue == [] && nIdle == 0 && nTotal == 0 && fAllOk && nTodo == 0 && this.nBatchSize == nBatchSize
    {
      queue, nIdle, nTotal, fAllOk, nTodo := [], 0, 0, true, 0;
      this.nBatchSize := nBatchSize;
    }

    /** The fields agree with the shared part of a state. */
    ghost predicate Shares(s: State)
      reads this
    {
      && queue == s.queue && nIdle == s.nIdle && nTotal == s.nTotal && fAllOk == s.fAllOk && nTodo == s.nTodo
      && nBatchSize == s.nBatchSize
    }

    /** `notice` says which waiting workers are notified. */
    method Add(vChecks: seq<Check>, ghost s: State) returns (notice: Notice)
      requires Shares(s) && Enabled(s, Event.Add(vChecks)) && s.nTotal >= 0
      modifies this
      ensures Shares(Step(s, Event.Add(vChecks)).0)
      ensures notice == if |vChecks| == 0 then Nobody else if |vChecks| == 1 then OneWorker else AllWorkers
    {
      for i := 0 to |vChecks|
        invariant queue == old(queue) + vChecks[..i]
        invariant nIdle == old(nIdle) && nTotal == old(nTotal) && fAllOk == old(fAllOk) && nTodo == old(nTodo)
      {
        queue := queue + [vChecks[i]];
      }
      nTodo := nTodo + |vChecks|;
      notice := if |vChecks| == 1 then OneWorker else if |vChecks| > 1 then AllWorkers else Nobody;
    }

    /** Move checks from the back of the queue into the batch. */
    method TakeBatch(nNow: nat) returns (vChecks: seq<Check>)
      requires nNow <= |queue|
      modifies this`queue
      ensures vChecks == Popped(old(queue), nNow) && queue == old(queue)[..|old(queue)| - nNow]
    {
      vChecks := [];
      for i := 0 to nNow
        invariant queue == old(queue)[..|old(queue)| - i]
        invariant |vChecks| == i && forall k :: 0 <= k < i ==> vChecks[k] == old(queue)[|old(queue)| - 1 - k]
      {
        vChecks := vChecks + [queue[|queue| - 1]];
        queue := queue[..|queue| - 1];
      }
    }

    /** The inner loop of a lock section up to a return, a wait or a batch. */
    method Decide(t: nat, ghost s: State) returns (d: Decision)
      requires Shares(s) && t < |s.threads| && s.nTotal >= 0
      modifies this
      ensures var (r, out) := Proceed(s, t);
              && Shares(r)
              && (match d
                  case Return(b) => out == [b] && r.threads[t] == Out
                  case Sleep => out == [] && r.threads[t] == Waiting
                  case Take(batch, ok) => out == [] && r.threads[t] == Working(batch, ok))
    {
      if queue == [] {
        if t == MASTER && nTodo == 0 {
          nTotal := nTotal - 1;
          d := Return(fAllOk);
          fAllOk := true;
        } else {
          nIdle := nIdle + 1;
          d := Sleep;
        }
      } else {
        var share := |queue| / (nTotal + nIdle + 1);
        var least := if share < nBatchSize then share else nBatchSize;
        var nNow := if least < 1 then 1 else least;
        assert nNow == BatchLimit(s);
        hide BatchLimit;
        var vChecks := TakeBatch(nNow);
        d := Take(vChecks, fAllOk);
      }
    }

    /** A lock section at the top of the loop; `notify` asks to wake the master. */
    method Enter(t: nat, nNow: nat, fOk: bool, ghost s: State) returns (d: Decision, notify: bool)
      requires Shares(s) && Enabled(s, Event.Enter(t)) && s.nTotal >= 0
      requires nNow == |s.threads[t].batch| && fOk == s.threads[t].ok
      modifies this
      ensures var (r, out) := Step(s, Event.Enter(t));
              && Shares(r)
              && (match d
                  case Return(b) => out == [b] && r.threads[t] == Out
                  case Sleep => out == [] && r.threads[t] == Waiting
                  case Take(batch, ok) => out == [] && r.threads[t] == Working(batch, ok))
      ensures notify <==> s.threads[t].batch != [] && t != MASTER && s.nTodo == |s.threads[t].batch|
      ensures t != MASTER ==> Step(s, Event.Enter(t)).0.wakeMaster == (s.wakeMaster || notify)
    {
      notify := false;
      if nNow != 0 {
        fAllOk := fAllOk && fOk;
        nTodo := nTodo - nNow;
        if nTodo == 0 && t != MASTER {
          notify := true;
        }
      } else {
        nTotal := nTotal + 1;
      }
      d := Decide(t, CleanUp(s, t));
    }

    /** The rest of a lock section after its wait has returned. */
    method Wake(t: nat, ghost s: State) returns (d: Decision)
      requires Shares(s) && Enabled(s, Event.Wake(t)) && s.nTotal >= 0 && s.nIdle > 0
      modifies this
      ensures var (r, out) := Step(s, Event.Wake(t));
              && Shares(r)
              && (match d
                  case Return(b) => out == [b] && r.threads[t] == Out
                  case Sleep => out == [] && r.threads[t] == Waiting
                  case Take(batch, ok) => out == [] && r.threads[t] == Working(batch, ok))
    {
      nIdle := nIdle - 1;
      d := Decide(t, s.(nIdle := s.nIdle - 1, threads := s.threads[t := Ready([], true)]));
    }
  }
}
