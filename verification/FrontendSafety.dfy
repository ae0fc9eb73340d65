/** What holds on every run of the frontend, whatever the interleaving. */
module FrontendSafety {
  import opened Ints
  import opened Uapi
  import opened FrontendSpec
  import opened FrontendRuns
  import Bits

  // ----- runs -----

  predicate Legal(s: System, steps: seq<Step>)
    decreases |steps|
  {
    steps == [] || (Enabled(s, steps[0]) && Legal(Next(s, steps[0]), steps[1..]))
  }

  function After(s: System, steps: seq<Step>): System
    requires Legal(s, steps)
    decreases |steps|
  {
    if steps == [] then s else After(Next(s, steps[0]), steps[1..])
  }

  /** A backend must be able to exchange; creation refuses any other. */
  predicate Usable(backend: Option<Ops>) {
    backend.Some? ==> backend.value.exchange
  }

  lemma {:induction false} RunKeepsInv(s: System, steps: seq<Step>)
    requires Inv(s) && Legal(s, steps)
    ensures Inv(After(s, steps))
    decreases |steps|
  {
    hide Inv, Enabled, Next;
    if steps != [] {
      StepKeepsInv(s, steps[0]);
      RunKeepsInv(Next(s, steps[0]), steps[1..]);
    }
  }

  /** The invariant holds after every run from creation. */
  lemma EveryRunIsSafe(backend: Option<Ops>, steps: seq<Step>)
    requires Usable(backend) && Legal(Initial(backend), steps)
    ensures Inv(After(Initial(backend), steps))
  {
    hide Legal, After;
    RunKeepsInv(Initial(backend), steps);
  }

  /** A state that some run from creation leads to. */
  ghost predicate Reachable(s: System) {
    exists backend, steps :: Usable(backend) && Legal(Initial(backend), steps) && After(Initial(backend), steps) == s
  }

  lemma ReachableInv(s: System)
    requires Reachable(s)
    ensures Inv(s)
  {
    hide Legal, After, Inv;
    var backend, steps :| Usable(backend) && Legal(Initial(backend), steps) && After(Initial(backend), steps) == s;
    EveryRunIsSafe(backend, steps);
  }

  /** The facts about one exchange of a reachable state. */
  lemma ReachableExchange(s: System, i: nat)
    requires Reachable(s) && i < |s.xs|
    ensures MockInv(s.mock) && ExchangeInv(s.mock, i, s.xs[i])
    ensures s.mock.active.Some? ==> s.mock.active.value < |s.xs|
    ensures s.destroyed ==> !s.mock.sessionOpen
  {
    hide Reachable;
    ReachableInv(s);
  }

  // ----- one exchange at a time -----

  /** A backend exchange still in progress, abandoned or not, belongs to the active
      task of a busy frontend with an open, locked session: there is at most one,
      and neither close nor destroy succeeds beside it. */
  lemma WorkerIsActive(s: System, i: nat)
    requires Reachable(s) && i < |s.xs| && s.xs[i].worker == Running
    ensures s.mock.active == Some(i) && s.mock.busy && s.mock.device == Busy
    ensures s.mock.sessionOpen && s.mock.lockHeld && s.mock.attached && !s.destroyed
    ensures forall j | 0 <= j < |s.xs| && s.xs[j].worker == Running :: j == i
    ensures Enabled(s, Destroy) && Next(s, Destroy) == s
    ensures forall k | Enabled(s, CloserWakes(k)) :: Next(s, CloserWakes(k)).mock == s.mock
    ensures Next(s, Close).mock.sessionOpen
  {
    hide Reachable;
    ReachableExchange(s, i);
    forall j | 0 <= j < |s.xs| && s.xs[j].worker == Running
      ensures j == i
    {
      ReachableExchange(s, j);
    }
  }

  // ----- the life of a task -----

  /** The exchange whose task a step reads or writes. */
  function TaskUsed(s: System, step: Step): Option<nat> {
    match step
    case Wake(i) => Some(i)
    case WaitFails(i) => Some(i)
    case CallerCancels(i) => Some(i)
    case Relock(i, _) => Some(i)
    case GraceEnds(i) => Some(i)
    case CallerReleases(i) => Some(i)
    case BackendWrites(i, _) => Some(i)
    case WorkerFinishes(i, _) => Some(i)
    case WorkerReleases(i) => Some(i)
    case Close => if s.mock.busy then s.mock.active else None
    case _ => None
  }

  /** No step uses a freed task. */
  lemma NoUseAfterFree(s: System, step: Step)
    requires Reachable(s) && Enabled(s, step) && TaskUsed(s, step).Some?
    ensures var i := TaskUsed(s, step).value; i < |s.xs| && s.xs[i].frees == 0 && s.xs[i].worker != NoTask
  {
    hide Reachable, Inv;
    ReachableInv(s);
    ActiveExists(s);
    var i := TaskUsed(s, step).value;
    ReachableExchange(s, i);
  }

  /** Freed exactly once, and exactly when caller and worker are both gone. */
  lemma FreedExactlyOnce(s: System, i: nat)
    requires Reachable(s) && i < |s.xs| && s.xs[i].worker != NoTask
    ensures s.xs[i].frees <= 1
    ensures s.xs[i].frees == 1
       <==> s.xs[i].caller.Returned? && (s.xs[i].worker == Exited || s.xs[i].worker == NotStarted)
  {
    hide Reachable;
    ReachableExchange(s, i);
  }

  /** A worker that finishes after its caller gave up changes no counter, no
      recorded result and no reply, but makes the frontend free again. */
  lemma OrphanFinishes(s: System, i: nat, result: int)
    requires Reachable(s) && Enabled(s, WorkerFinishes(i, result)) && s.xs[i].task.abandoned
    ensures var s' := Next(s, WorkerFinishes(i, result));
            && s'.mock.completed == s.mock.completed && s'.mock.failed == s.mock.failed
            && s'.mock.lastErrno == s.mock.lastErrno && s'.mock.lastStatus == s.mock.lastStatus
            && s'.xs[i].caller == s.xs[i].caller
            && !s'.mock.busy && s'.mock.active == None && !s'.mock.cancelSent
            && s'.mock.device == (if result == -ENODEV then Offline else Idle)
            && s'.mock.sessionOpen
  {
    hide Reachable;
    ReachableExchange(s, i);
  }

  // ----- counters -----

  function Admissions(s: System, steps: seq<Step>): nat
    requires Legal(s, steps)
    decreases |steps|
  {
    if steps == [] then 0
    else
      var first := steps[0];
      (if first.Submit? && Admissible(s.mock, first.arg, first.clock) then 1 else 0)
      + Admissions(Next(s, first), steps[1..])
  }

  lemma OneStepAdmits(s: System, step: Step)
    requires Enabled(s, step)
    ensures |Next(s, step).xs| == |s.xs| + if step.Submit? && Admissible(s.mock, step.arg, step.clock) then 1 else 0
  {
    hide Screen, Admissible;
  }

  lemma {:induction false} ExchangesAreAdmissions(s: System, steps: seq<Step>)
    requires Legal(s, steps)
    ensures |After(s, steps).xs| == |s.xs| + Admissions(s, steps)
    decreases |steps|
  {
    hide Enabled, Next, Admissible;
    if steps != [] {
      OneStepAdmits(s, steps[0]);
      ExchangesAreAdmissions(Next(s, steps[0]), steps[1..]);
    }
  }

  /** The active exchange while its caller still waits for it. */
  predicate Outstanding(s: System) {
    s.mock.busy && s.mock.active.Some? && s.mock.active.value < |s.xs| && !s.xs[s.mock.active.value].task.abandoned
  }

  lemma {:induction false} PrefixCounts(s: System, k: nat)
    requires Inv(s) && k <= |s.xs|
    ensures Successes(s.xs[..k]) + Failures(s.xs[..k])
            == k - if Outstanding(s) && s.mock.active.value < k then 1 else 0
  {
    if k > 0 {
      PrefixCounts(s, k - 1);
      assert s.xs[..k][..k - 1] == s.xs[..k - 1];
      assert ExchangeInv(s.mock, k - 1, s.xs[k - 1]);
    }
  }

  /** Completed, failed and outstanding exchanges add up to those that passed
      prevalidation, on every run. */
  lemma CountersConserve(backend: Option<Ops>, steps: seq<Step>)
    requires Usable(backend) && Legal(Initial(backend), steps)
    ensures var s := After(Initial(backend), steps);
            s.mock.completed + s.mock.failed + (if Outstanding(s) then 1 else 0) == Admissions(Initial(backend), steps)
  {
    hide Legal, After, Admissions;
    var s := After(Initial(backend), steps);
    EveryRunIsSafe(backend, steps);
    ExchangesAreAdmissions(Initial(backend), steps);
    PrefixCounts(s, |s.xs|);
    assert s.xs[..|s.xs|] == s.xs;
  }

  /** A request that is refused leaves counters and exchanges alone, and records
      exactly the refusal. */
  lemma RefusalsMoveNoCounter(s: System, arg: Option<Argument>, clock: Option<U64>, resources: Resources)
    requires Enabled(s, Submit(arg, clock, resources)) && !Admissible(s.mock, arg, clock)
    ensures var s' := Next(s, Submit(arg, clock, resources));
            && s'.mock.completed == s.mock.completed && s'.mock.failed == s.mock.failed && s'.xs == s.xs
            && s'.mock.lastErrno != 0 && s'.mock.lastStatus != OK
            && s'.mock.busy == s.mock.busy && s'.mock.active == s.mock.active
            && s'.mock.device == (if s'.mock.lastStatus == BACKEND_ABSENT then Offline else s.mock.device)
  {
    hide Admissible;
  }

  /** An admitted request that finds no memory or no thread fails at once with that
      error and the IO frame, is counted, and leaves the frontend free. */
  lemma StartFailures(s: System, arg: Argument, clock: Option<U64>, resources: Resources)
    requires Enabled(s, Submit(Some(arg), clock, resources)) && Admissible(s.mock, Some(arg), clock)
    requires resources != Available
    ensures var f := Next(s, Submit(Some(arg), clock, resources));
            && |f.xs| == |s.xs| + 1
            && f.xs[|s.xs|].caller
               == Returned(Reply(if resources == NoMemory then 12 else resources.errno, FailureFrame(arg.request, IO)))
            && f.mock.failed == s.mock.failed + 1 && f.mock.completed == s.mock.completed
            && !f.mock.busy && f.mock.device == Idle && f.mock.lastStatus == IO
  {
    hide Admissible;
  }

  /** Switching the backend decides whether good requests are let in. */
  lemma SwitchDecidesAdmission(s: System, backend: Option<Ops>, arg: Argument, clock: Option<U64>)
    requires Enabled(s, SetBackend(backend)) && s.mock.sessionOpen && !s.mock.busy
    requires Usable(backend) && GoodRequest(Some(arg)) && GoodDeadline(arg, clock)
    ensures Admissible(Next(s, SetBackend(backend)).mock, Some(arg), clock) <==> backend.Some?
    ensures Next(s, SetBackend(backend)).mock.device == if backend.Some? then Idle else Offline
  {
  }

  // ----- replies -----

  /** Success, an OK status and an acceptable response are one thing, and come exactly
      if no cancel was granted and the backend returned such a response; a failed
      exchange whose worker was started carries the failure frame and nothing else. */
  lemma RepliesAreSound(s: System, i: nat)
    requires Reachable(s) && i < |s.xs| && HasWorker(s.xs[i]) && Replied(s.xs[i])
    ensures var reply, t := ReplyOf(s.xs[i]), s.xs[i].task;
            && (reply.errno == 0 <==> reply.response.status == OK)
            && (reply.errno == 0 <==> Acceptable(t.request, reply.response))
            && (reply.errno == 0
                <==> s.xs[i].grants == 0 && t.result == 0 && Acceptable(t.request, t.response))
            && (reply.errno == 0 ==> reply.response == t.response)
            && (reply.errno != 0 ==> reply.response == FailureFrame(t.request, reply.response.status))
            && reply.errno == StatusToErrno(reply.response.status)
  {
    hide Reachable, Lifetime;
    ReachableExchange(s, i);
  }

  /** What a reply says of a started exchange, in terms of what happened to it: a failed
      wait is a timeout; else a granted cancel, or one that the backend reports, is a
      cancellation; else a missing or late backend is named as such, another failure by
      the status it left, and a returned response is judged. */
  lemma RepliesAreJustified(s: System, i: nat)
    requires Reachable(s) && i < |s.xs| && HasWorker(s.xs[i]) && Replied(s.xs[i])
    ensures var x := s.xs[i];
            var t, reply := x.task, ReplyOf(x);
            && (x.expired ==> reply == Reply(ETIMEDOUT, FailureFrame(t.request, TIMEOUT)))
            && (!x.expired && (x.grants == 1 || t.result == -ECANCELED) ==>
                  reply == Reply(ECANCELED, FailureFrame(t.request, CANCELED)))
            && (x.grants == 0 && t.result == -ENODEV ==>
                  reply == Reply(ENODEV, FailureFrame(t.request, BACKEND_ABSENT)))
            && (x.grants == 0 && t.result == -ETIMEDOUT ==>
                  reply == Reply(ETIMEDOUT, FailureFrame(t.request, TIMEOUT)))
            && (x.grants == 0 && t.result !in {0, -ECANCELED, -ENODEV, -ETIMEDOUT} ==>
                  reply == Reply(StatusToErrno(Reported(t.response)), FailureFrame(t.request, Reported(t.response))))
            && (x.grants == 0 && t.result == 0 ==> JudgedAs(t.request, t.response, reply.response.status))
            && (x.expired ==> x.grants == 1)
  {
    hide Reachable, Lifetime, JudgedAs;
    ReachableExchange(s, i);
  }

  /** A successful GHZ reply holds a GHZ result of the requested size; a failed one
      holds no result at all. */
  lemma RepliesHoldResultsOrNone(s: System, i: nat)
    requires Reachable(s) && i < |s.xs| && HasWorker(s.xs[i]) && Replied(s.xs[i])
    ensures var request, reply := s.xs[i].task.request, ReplyOf(s.xs[i]);
            var r := reply.response;
            && r.magic == 0x51525631 && r.version == 1 && r.qubits == request.qubits && r.shots == request.shots
            && HasRequiredFlags(r.flags)
            && (reply.errno == 0 ==> r.norm <= 0x1_0000_0000)
            && (reply.errno == 0 && request.command == COMMAND_RUN_GHZ ==>
                  && r.basisStates == Bits.Pow2(request.qubits) && r.invalidResults == 0
                  && r.measuredState in {0, Bits.Pow2(request.qubits) - 1})
            && (reply.errno != 0 ==> r.basisStates == r.measuredState == r.invalidResults == r.norm == 0)
  {
    hide Reachable, Lifetime, ExactReply;
    ReachableExchange(s, i);
    FifteenHasAllFlags();
  }

  lemma FifteenHasAllFlags()
    ensures HasRequiredFlags(REQUIRED_FLAGS)
  {
    assert Bits.Bit(15, 1) == Bits.Bit(7, 0);
    assert Bits.Bit(15, 2) == Bits.Bit(7, 1) == Bits.Bit(3, 0);
    assert Bits.Bit(15, 3) == Bits.Bit(7, 2) == Bits.Bit(3, 1) == Bits.Bit(1, 0);
  }

  /** What a close does at once: refused without a session and beside an abandoned
      exchange; beside a running one it waits, with a cancel granted if none was before;
      else the session is over. */
  lemma CloseBegins(s: System)
    requires Reachable(s) && Enabled(s, Close)
    ensures var c := Next(s, Close);
            if !s.mock.sessionOpen || (s.mock.busy && ActiveAbandoned(s)) then c == s
            else if s.mock.busy then
              && c.mock.cancelSent && c.mock.cancelRequested && c.mock.busy && c.mock.sessionOpen
              && c.closers == s.closers + [Cancelling(!s.mock.cancelSent && s.mock.ops.cancel)]
              && s.mock.active.Some? && s.mock.active.value < |c.xs| && c.xs[s.mock.active.value].grants == 1
            else !c.mock.sessionOpen && !c.mock.lockHeld && c.closers == s.closers + [Closed]
  {
    hide Reachable, Inv;
    ReachableInv(s);
    InvParts(s);
    ActiveExists(s);
    if s.mock.busy {
      assert ExchangeInv(s.mock, s.mock.active.value, s.xs[s.mock.active.value]);
    }
  }

  /** The step that fixes a reply records the same errno and status, and moves
      exactly the matching counter. */
  lemma RepliesAreRecorded(s: System, step: Step, i: nat)
    requires Reachable(s) && Enabled(s, step) && i < |s.xs| && !Replied(s.xs[i])
    requires Replied(Next(s, step).xs[i])
    ensures var s' := Next(s, step);
            var reply := ReplyOf(s'.xs[i]);
            && s'.mock.lastErrno == reply.errno && s'.mock.lastStatus == reply.response.status
            && s'.mock.completed == s.mock.completed + (if reply.errno == 0 then 1 else 0)
            && s'.mock.failed == s.mock.failed + (if reply.errno == 0 then 0 else 1)
            && s'.mock.device == (if s'.xs[i].task.abandoned then Busy
                                  else if reply.response.status == BACKEND_ABSENT then Offline else Idle)
  {
    hide Reachable, Decide, Screen, Justified, Acceptable;
    ReachableExchange(s, i);
  }

  lemma StepKeepsReply(s: System, step: Step, i: nat)
    requires Enabled(s, step) && i < |s.xs| && Replied(s.xs[i])
    ensures var s' := Next(s, step);
            i < |s'.xs| && Replied(s'.xs[i]) && ReplyOf(s'.xs[i]) == ReplyOf(s.xs[i])
  {
    hide Decide, Screen;
  }

  /** Once fixed, a reply never changes on any run, whatever its worker does later. */
  lemma {:induction false} RepliesAreFinal(s: System, steps: seq<Step>, i: nat)
    requires Legal(s, steps) && i < |s.xs| && Replied(s.xs[i])
    ensures var s' := After(s, steps);
            i < |s'.xs| && Replied(s'.xs[i]) && ReplyOf(s'.xs[i]) == ReplyOf(s.xs[i])
    decreases |steps|
  {
    hide Enabled, Next;
    if steps != [] {
      StepKeepsReply(s, steps[0], i);
      RepliesAreFinal(Next(s, steps[0]), steps[1..], i);
    }
  }

  // ----- timeouts -----

  /** On its way to a timeout reply, or there. */
  predicate TimingOut(x: Exchange) {
    || x.caller == Grace
    || (x.caller.Unlocked? && x.caller.timedOut)
    || (Replied(x) && ReplyOf(x) == Reply(ETIMEDOUT, FailureFrame(x.task.request, TIMEOUT)))
  }

  lemma StepKeepsTimingOut(s: System, step: Step, i: nat)
    requires Enabled(s, step) && i < |s.xs| && TimingOut(s.xs[i])
    ensures TimingOut(Next(s, step).xs[i])
  {
    hide Screen, Judge;
  }

  lemma {:induction false} RunKeepsTimingOut(s: System, steps: seq<Step>, i: nat)
    requires Legal(s, steps) && i < |s.xs| && TimingOut(s.xs[i])
    ensures i < |After(s, steps).xs| && TimingOut(After(s, steps).xs[i])
    decreases |steps|
  {
    hide Enabled, Next, TimingOut;
    if steps != [] {
      StepKeepsTimingOut(s, steps[0], i);
      RunKeepsTimingOut(Next(s, steps[0]), steps[1..], i);
    }
  }

  /** A wait that ends with an error is a timeout on every run that follows, even if
      the worker was done by then and its response acceptable. */
  lemma FailedWaitTimesOut(s: System, steps: seq<Step>, i: nat)
    requires Enabled(s, WaitFails(i)) && Legal(Next(s, WaitFails(i)), steps)
    ensures var x := After(Next(s, WaitFails(i)), steps);
            && i < |x.xs|
            && (Replied(x.xs[i]) ==> ReplyOf(x.xs[i]) == Reply(ETIMEDOUT, FailureFrame(x.xs[i].task.request, TIMEOUT)))
  {
    hide Legal, After;
    RunKeepsTimingOut(Next(s, WaitFails(i)), steps, i);
  }

  /** With the worker done, the reply follows at once: a timeout after a failed wait;
      after a wait that succeeded, success exactly when no cancel was requested and
      the backend returned an acceptable response. */
  lemma DoneBeforeTheWaitEnds(s: System, i: nat, grace: bool)
    requires i < |s.xs| && s.xs[i].caller == Waiting && s.xs[i].task.done
    ensures Enabled(s, WaitFails(i))
    ensures var late := Next(s, WaitFails(i));
            && late.xs[i].caller.Unlocked?
            && var called := if late.xs[i].caller.calls then Next(late, CallerCancels(i)) else late;
               && Enabled(called, Relock(i, grace))
               && var x := Next(called, Relock(i, grace)).xs[i]; Replied(x) && ReplyOf(x).errno == ETIMEDOUT
    ensures Enabled(s, Wake(i)) && Enabled(Next(s, Wake(i)), Relock(i, grace))
    ensures var x := Next(Next(s, Wake(i)), Relock(i, grace)).xs[i];
            var t := s.xs[i].task;
            && Replied(x)
            && (ReplyOf(x).errno == 0
                <==> !s.mock.cancelRequested && t.result == 0 && Acceptable(t.request, t.response))
  {
    hide Judge, Acceptable;
  }

  /** A caller whose wait failed before its worker was done still waits for it, with
      nothing given up yet; a worker that finishes in that time ends the exchange. */
  lemma GraceIsGiven(s: System, i: nat, result: int)
    requires Reachable(s) && i < |s.xs| && s.xs[i].caller == Unlocked(true, false) && !s.xs[i].task.done
    ensures var g := Next(s, Relock(i, true));
            && g.mock == s.mock && g.xs[i] == s.xs[i].(caller := Grace)
            && Enabled(g, WorkerFinishes(i, result))
            && var d := Next(g, WorkerFinishes(i, result));
               && d.mock == s.mock && d.xs[i].task == s.xs[i].task.(result := result, done := true)
               && Enabled(d, GraceEnds(i))
               && !Next(d, GraceEnds(i)).mock.busy && !Next(d, GraceEnds(i)).xs[i].task.abandoned
  {
    hide Reachable, Decide;
    ReachableExchange(s, i);
  }

  // ----- cancellation -----

  /** One grant per exchange at most, and the frontend's flag says whether it was made. */
  lemma OneGrant(s: System, i: nat)
    requires Reachable(s) && i < |s.xs|
    ensures s.xs[i].grants <= 1
    ensures s.mock.active == Some(i) ==> (s.xs[i].grants == 1 <==> s.mock.cancelSent)
  {
    hide Reachable;
    ReachableExchange(s, i);
  }

  /** A caller's cancel callback runs while its own exchange is the active one, and
      the backend that was attached when it started has such a callback. */
  lemma CallerCancelsItself(s: System, i: nat)
    requires Reachable(s) && Enabled(s, CallerCancels(i))
    ensures s.mock.active == Some(i) && s.mock.cancelRequested && s.xs[i].grants == 1
    ensures s.xs[i].task.ops.cancel && s.xs[i].task.ops == s.mock.ops
  {
    hide Reachable;
    ReachableExchange(s, i);
  }

  lemma {:induction false} Extend(s: System, steps: seq<Step>, step: Step)
    requires Legal(s, steps) && Enabled(After(s, steps), step)
    ensures Legal(s, steps + [step]) && After(s, steps + [step]) == Next(After(s, steps), step)
    decreases |steps|
  {
    hide Enabled, Next;
    if steps == [] {
      assert [step][1..] == [];
      assert steps + [step] == [step];
    } else {
      assert (steps + [step])[1..] == steps[1..] + [step];
      Extend(Next(s, steps[0]), steps[1..], step);
    }
  }

  const BACKEND := Some(Ops(true, true))
  const QUERY := Argument(Request(REQUEST_MAGIC, VERSION, COMMAND_STATUS, 0, 0, 0), 0)
  const ASK := Submit(Some(QUERY), Some(0), Available)

  /** One exchange is running, with `closers` in progress. */
  predicate BusyWith(s: System, closers: seq<Closer>) {
    && s.mock.sessionOpen && s.mock.busy && s.mock.attached && s.mock.ops == Ops(true, true)
    && s.mock.active == Some(0) && (s.mock.cancelSent <==> closers != [])
    && |s.xs| == 1 && s.xs[0].caller == Waiting && s.xs[0].worker == Running && !s.xs[0].task.abandoned
    && s.closers == closers && !s.destroyed
  }

  /** That exchange is over. */
  predicate IdleWith(s: System, closers: seq<Closer>) {
    && s.mock.sessionOpen && !s.mock.busy && s.mock.attached && s.mock.ops == Ops(true, true)
    && |s.xs| == 1 && s.closers == closers && !s.destroyed
  }

  lemma BusySession() returns (steps: seq<Step>)
    ensures Legal(Initial(BACKEND), steps) && BusyWith(After(Initial(BACKEND), steps), [])
  {
    var s0 := Initial(BACKEND);
    assert Legal(s0, []) && After(s0, []) == s0;
    Extend(s0, [], Open(true));
    steps := [] + [Open(true)];
    Extend(s0, steps, ASK);
    steps := steps + [ASK];
  }

  lemma BeginClose(s: System)
    requires BusyWith(s, s.closers)
    ensures Enabled(s, Close) && BusyWith(Next(s, Close), s.closers + [Cancelling(s.closers == [])])
  {
  }

  lemma FinishExchange(s: System)
    requires BusyWith(s, s.closers)
    ensures Enabled(s, WorkerFinishes(0, 0))
    ensures var s1 := Next(s, WorkerFinishes(0, 0)); Enabled(s1, Wake(0))
    ensures var s2 := Next(Next(s, WorkerFinishes(0, 0)), Wake(0)); Enabled(s2, Relock(0, false))
    ensures IdleWith(Next(Next(Next(s, WorkerFinishes(0, 0)), Wake(0)), Relock(0, false)), s.closers)
  {
    hide Decide;
  }

  lemma RunToIdle(before: seq<Step>) returns (steps: seq<Step>)
    requires Legal(Initial(BACKEND), before)
    requires BusyWith(After(Initial(BACKEND), before), After(Initial(BACKEND), before).closers)
    ensures Legal(Initial(BACKEND), steps)
    ensures IdleWith(After(Initial(BACKEND), steps), After(Initial(BACKEND), before).closers)
  {
    hide Legal, After, Enabled, Next, BusyWith, IdleWith;
    var s0 := Initial(BACKEND);
    steps := before;
    FinishExchange(After(s0, steps));
    Extend(s0, steps, WorkerFinishes(0, 0));
    steps := steps + [WorkerFinishes(0, 0)];
    Extend(s0, steps, Wake(0));
    steps := steps + [Wake(0)];
    Extend(s0, steps, Relock(0, false));
    steps := steps + [Relock(0, false)];
  }

  /** A closer's callback may come late: the exchange it was granted for is over,
      and the backend is working on one for which no cancel was granted. */
  lemma CloserMayCancelLate()
    ensures exists steps ::
      && Legal(Initial(BACKEND), steps)
      && var s := After(Initial(BACKEND), steps);
         Enabled(s, CloserCancels(0)) && s.mock.active == Some(1) && |s.xs| == 2 && s.xs[1].grants == 0
  {
    hide Legal, After;
    var s0 := Initial(BACKEND);
    var steps := BusySession();
    BeginClose(After(s0, steps));
    Extend(s0, steps, Close);
    steps := RunToIdle(steps + [Close]);
    assert [] + [Cancelling(true)] == [Cancelling(true)];
    Extend(s0, steps, ASK);
    steps := steps + [ASK];
  }

  /** The active exchange stays, ends, or is replaced by the newest one; and a new
      exchange arises only beside no active one. */
  lemma StepChangesActive(s: System, step: Step)
    requires Inv(s) && Enabled(s, step)
    ensures var s' := Next(s, step);
            if |s'.xs| == |s.xs| then s'.mock.active == s.mock.active || s'.mock.active == None
            else s.mock.active == None && (s'.mock.active == None || s'.mock.active == Some(|s.xs|))
  {
    hide Inv, Decide;
    InvParts(s);
  }

  /** With `n` exchanges at the grant for `granted`: it stays or ends, and whatever is
      active after a later admission is newer. */
  predicate Since(s: System, granted: nat, n: nat) {
    && n <= |s.xs|
    && (|s.xs| == n ==> s.mock.active == Some(granted) || s.mock.active == None)
    && (|s.xs| > n && s.mock.active.Some? ==> s.mock.active.value >= n)
  }

  lemma {:induction false} RunKeepsSince(s: System, steps: seq<Step>, granted: nat, n: nat)
    requires Inv(s) && Since(s, granted, n) && Legal(s, steps)
    ensures Since(After(s, steps), granted, n)
    decreases |steps|
  {
    hide Inv, Enabled, Next;
    if steps != [] {
      StepChangesActive(s, steps[0]);
      StepKeepsInv(s, steps[0]);
      RunKeepsSince(Next(s, steps[0]), steps[1..], granted, n);
    }
  }

  /** A close that is granted a cancel, with the callback still to come. */
  ghost predicate GrantedClose(s: System) {
    && Reachable(s) && !s.destroyed && s.mock.sessionOpen && Grants(s.mock) && s.mock.ops.cancel
    && !s.xs[ActiveIndex(s)].task.abandoned
  }

  ghost function ActiveIndex(s: System): (i: nat)
    requires Reachable(s) && s.mock.busy
    ensures i < |s.xs| && s.mock.active == Some(i)
  {
    ReachableInv(s);
    s.mock.active.value
  }

  /** When the callback of a close finds the frontend busy, it is with the exchange
      that the cancel was granted for if and only if no request was admitted since. */
  lemma CloserCancelsOnTimeExactly(s: System, steps: seq<Step>)
    requires GrantedClose(s) && Legal(Next(s, Close), steps) && After(Next(s, Close), steps).mock.busy
    ensures After(Next(s, Close), steps).mock.active == s.mock.active <==> Admissions(Next(s, Close), steps) == 0
  {
    hide Legal, After, Admissions, Reachable, Inv;
    ReachableInv(s);
    var i := ActiveIndex(s);
    var c := Next(s, Close);
    StepKeepsInv(s, Close);
    RunKeepsInv(c, steps);
    InvParts(After(c, steps));
    assert Since(c, i, |s.xs|);
    RunKeepsSince(c, steps, i, |s.xs|);
    ExchangesAreAdmissions(c, steps);
  }

  // ----- no deadlock -----

  /** What the active exchange can do next on its own. */
  function Helpful(x: Exchange, i: nat): Step {
    if x.worker == Running then WorkerFinishes(i, 0)
    else if x.caller == Waiting then Wake(i)
    else if x.caller == Grace then GraceEnds(i)
    else if x.caller.Unlocked? && x.caller.calls then CallerCancels(i)
    else Relock(i, false)
  }

  function Distance(x: Exchange): nat {
    (if x.worker == Running then 1 else 0)
    + if x.caller == Waiting || (x.caller.Unlocked? && x.caller.calls) then 2 else 1
  }

  /** The steps that the owners of the active exchange are at most away from its end. */
  function StepsLeft(s: System): nat {
    if s.mock.busy && s.mock.active.Some? && s.mock.active.value < |s.xs|
    then Distance(s.xs[s.mock.active.value]) else 0
  }

  /** A step of a caller or worker already inside the exchange `i`. */
  predicate ByOwner(step: Step, i: Option<nat>) {
    && (step.Wake? || step.CallerCancels? || step.Relock? || step.GraceEnds? || step.WorkerFinishes?)
    && i == Some(step.i)
  }

  lemma HelpfulStep(s: System)
    requires Inv(s) && s.mock.busy
    ensures s.mock.active.Some? && s.mock.active.value < |s.xs|
    ensures var i := s.mock.active.value;
            var step := Helpful(s.xs[i], i);
            && Enabled(s, step) && ByOwner(step, s.mock.active)
            && var s' := Next(s, step);
               StepsLeft(s') < StepsLeft(s) && (s'.mock.busy ==> s'.mock.active == s.mock.active)
  {
    hide Inv, Decide;
    InvParts(s);
    ActiveExists(s);
    var i := s.mock.active.value;
    assert ExchangeInv(s.mock, i, s.xs[i]);
  }

  lemma {:induction false} FreeAgain(s: System) returns (steps: seq<Step>)
    requires Inv(s)
    ensures Legal(s, steps) && !After(s, steps).mock.busy
    ensures |steps| <= StepsLeft(s)
    ensures forall step | step in steps :: ByOwner(step, s.mock.active)
    decreases StepsLeft(s)
  {
    hide Inv, Enabled, Next, StepsLeft, Helpful, ByOwner;
    steps := [];
    if s.mock.busy {
      HelpfulStep(s);
      var i := s.mock.active.value;
      var step := Helpful(s.xs[i], i);
      StepKeepsInv(s, step);
      var s' := Next(s, step);
      if s'.mock.busy {
        var rest := FreeAgain(s');
        steps := [step] + rest;
        assert steps[1..] == rest;
      } else {
        steps := [step];
        assert steps[1..] == [];
      }
    }
  }

  /** From every reachable state the exchange in progress, if any, can end within
      three steps of its own caller and worker: no call waits for another one, and a
      close that waits for the frontend to be free can go on. */
  lemma NeverStuck(s: System) returns (steps: seq<Step>)
    requires Reachable(s)
    ensures Legal(s, steps) && !After(s, steps).mock.busy
    ensures |steps| <= 3 && forall step | step in steps :: ByOwner(step, s.mock.active)
  {
    hide Reachable, Inv, Legal, After;
    ReachableInv(s);
    steps := FreeAgain(s);
  }

  // ----- destruction -----

  /** The steps of threads already inside a call that lock the frontend's mutex. */
  predicate TouchesMock(step: Step) {
    step.Wake? || step.WaitFails? || step.Relock? || step.GraceEnds? || step.WorkerFinishes? || step.CloserWakes?
  }

  predicate InClose(s: System, k: nat)
    requires k < |s.closers|
  {
    s.closers[k] != Closed
  }

  lemma QuietStep(s: System, step: Step)
    requires Inv(s) && s.destroyed && Enabled(s, step)
    ensures TouchesMock(step) ==> step.CloserWakes? && step.k < |s.closers| && InClose(s, step.k)
    ensures Next(s, step).destroyed && |Next(s, step).closers| == |s.closers|
    ensures forall k | 0 <= k < |s.closers| && !InClose(s, k) :: !InClose(Next(s, step), k)
  {
    hide Inv;
    InvParts(s);
    forall i | 0 <= i < |s.xs|
      ensures Replied(s.xs[i]) && s.xs[i].worker != Running
    {
      assert ExchangeInv(s.mock, i, s.xs[i]);
    }
  }

  /** After a successful destroy only a close still in progress can reach the
      frontend again. */
  lemma DestroyedIsQuiet(s: System, step: Step)
    requires Reachable(s) && s.destroyed && Enabled(s, step)
    ensures TouchesMock(step) ==> step.CloserWakes? && step.k < |s.closers| && InClose(s, step.k)
    ensures Next(s, step).destroyed && |Next(s, step).closers| == |s.closers|
  {
    hide Reachable, Inv, Enabled, Next;
    ReachableInv(s);
    QuietStep(s, step);
  }

  ghost predicate CloseInProgress(s: System) {
    exists k :: 0 <= k < |s.closers| && InClose(s, k)
  }

  /** Some continuation lets a thread touch the frontend. */
  ghost predicate WillBeTouched(s: System) {
    exists steps, step :: Legal(s, steps) && Enabled(After(s, steps), step) && TouchesMock(step)
  }

  lemma {:induction false} QuietRun(s: System, steps: seq<Step>, step: Step)
    requires Inv(s) && s.destroyed && !CloseInProgress(s)
    requires Legal(s, steps) && Enabled(After(s, steps), step)
    ensures !TouchesMock(step)
    decreases |steps|
  {
    hide Inv, Enabled, Next, TouchesMock, InClose;
    if steps == [] {
      QuietStep(s, step);
    } else {
      QuietStep(s, steps[0]);
      StepKeepsInv(s, steps[0]);
      QuietRun(Next(s, steps[0]), steps[1..], step);
    }
  }

  /** A close in progress on a destroyed frontend goes on to lock its mutex. */
  lemma CloseGoesOn(s: System, k: nat)
    requires Inv(s) && s.destroyed && k < |s.closers| && InClose(s, k)
    ensures WillBeTouched(s)
  {
    hide Inv;
    InvParts(s);
    assert Legal(s, []) && After(s, []) == s;
    if s.closers[k] == Cancelling(true) {
      Extend(s, [], CloserCancels(k));
      assert Enabled(After(s, [] + [CloserCancels(k)]), CloserWakes(k));
    } else {
      assert Enabled(After(s, []), CloserWakes(k));
    }
    assert TouchesMock(CloserWakes(k));
  }

  /** A destroyed frontend will be touched again if and only if a close was in
      progress when it was destroyed. */
  lemma DestroyIsSafeExactly(s: System)
    requires Reachable(s) && Enabled(s, Destroy) && Next(s, Destroy).destroyed
    ensures WillBeTouched(Next(s, Destroy)) <==> CloseInProgress(s)
  {
    hide Reachable, Inv, Legal, After, TouchesMock, InClose;
    var d := Next(s, Destroy);
    ReachableInv(s);
    StepKeepsInv(s, Destroy);
    DestroyedTouchedExactly(d);
    SameClosers(s, d);
  }

  lemma SameClosers(s: System, d: System)
    requires s.closers == d.closers
    ensures CloseInProgress(s) <==> CloseInProgress(d)
  {
    if k :| 0 <= k < |s.closers| && InClose(s, k) {
      assert InClose(d, k);
    }
    if k :| 0 <= k < |d.closers| && InClose(d, k) {
      assert InClose(s, k);
    }
  }

  lemma DestroyedTouchedExactly(d: System)
    requires Inv(d) && d.destroyed
    ensures WillBeTouched(d) <==> CloseInProgress(d)
  {
    hide Inv, Legal, After, TouchesMock, InClose, Enabled;
    if k :| 0 <= k < |d.closers| && InClose(d, k) {
      CloseGoesOn(d, k);
    }
    if steps, step :| Legal(d, steps) && Enabled(After(d, steps), step) && TouchesMock(step) {
      if !CloseInProgress(d) {
        QuietRun(d, steps, step);
      }
    }
  }

  /** At most one close at a time, and it keeps the session open. */
  predicate OneCloser(s: System) {
    && (forall k | 0 <= k < |s.closers| && InClose(s, k) :: s.mock.sessionOpen)
    && (forall j, k | 0 <= j < k < |s.closers| && InClose(s, j) :: !InClose(s, k))
  }

  /** Closes do not overlap. */
  predicate Orderly(s: System, step: Step) {
    step == Close ==> forall k | 0 <= k < |s.closers| :: !InClose(s, k)
  }

  predicate OrderlyRun(s: System, steps: seq<Step>)
    requires Legal(s, steps)
    decreases |steps|
  {
    steps == [] || (Orderly(s, steps[0]) && OrderlyRun(Next(s, steps[0]), steps[1..]))
  }

  lemma StepKeepsOneCloser(s: System, step: Step)
    requires Inv(s) && OneCloser(s) && Enabled(s, step) && Orderly(s, step)
    ensures OneCloser(Next(s, step))
  {
    hide Inv, Submitted, TimedOut, Completed, Abandoned, Finished;
    InvParts(s);
    var s' := Next(s, step);
    if step.CloserWakes? {
      assert InClose(s, step.k);
      forall j | 0 <= j < |s'.closers| && j != step.k
        ensures !InClose(s', j)
      {
        assert !InClose(s, j);
      }
    } else if step.CloserCancels? {
      assert InClose(s, step.k);
      forall j | 0 <= j < |s.closers|
        ensures InClose(s', j) == InClose(s, j)
      {
      }
    } else if step == Close {
      forall j | 0 <= j < |s.closers|
        ensures !InClose(s', j)
      {
        assert !InClose(s, j);
      }
    } else {
      OtherStepsKeepClosers(s, step);
      forall j | 0 <= j < |s.closers|
        ensures InClose(s', j) == InClose(s, j)
      {
      }
    }
  }

  lemma OtherStepsKeepClosers(s: System, step: Step)
    requires Inv(s) && Enabled(s, step) && !step.CloserWakes? && !step.CloserCancels? && step != Close
    ensures Next(s, step).closers == s.closers
    ensures s.mock.sessionOpen ==> Next(s, step).mock.sessionOpen
  {
    hide Inv, Submitted, TimedOut, Completed, Abandoned, Finished;
  }

  lemma {:induction false} RunKeepsOneCloser(s: System, steps: seq<Step>)
    requires Inv(s) && OneCloser(s) && Legal(s, steps) && OrderlyRun(s, steps)
    ensures Inv(After(s, steps)) && OneCloser(After(s, steps))
    decreases |steps|
  {
    hide Inv, OneCloser, Orderly, Enabled, Next;
    if steps != [] {
      StepKeepsInv(s, steps[0]);
      StepKeepsOneCloser(s, steps[0]);
      RunKeepsOneCloser(Next(s, steps[0]), steps[1..]);
    }
  }

  /** In particular, if closes do not overlap, nobody touches the frontend after it was destroyed. */
  lemma DestroyIsFinal(backend: Option<Ops>, steps: seq<Step>, step: Step)
    requires Usable(backend) && Legal(Initial(backend), steps) && OrderlyRun(Initial(backend), steps)
    requires Enabled(After(Initial(backend), steps), step)
    ensures After(Initial(backend), steps).destroyed ==> !TouchesMock(step)
  {
    hide Legal, After, OrderlyRun;
    var s := After(Initial(backend), steps);
    RunKeepsOneCloser(Initial(backend), steps);
    if s.destroyed {
      assert Reachable(s);
      DestroyedIsQuiet(s, step);
    }
  }

  /** Overlapping closes break this: the second one wakes on a destroyed frontend. */
  lemma OverlappingClosesAreUnsafe()
    ensures exists steps ::
      && Legal(Initial(BACKEND), steps)
      && var s := After(Initial(BACKEND), steps); s.destroyed && Enabled(s, CloserWakes(1))
  {
    hide Legal, After;
    var s0 := Initial(BACKEND);
    var steps := BusySession();
    BeginClose(After(s0, steps));
    Extend(s0, steps, Close);
    steps := steps + [Close];
    BeginClose(After(s0, steps));
    Extend(s0, steps, Close);
    steps := RunToIdle(steps + [Close]);
    var s := After(s0, steps);
    assert s.closers == [Cancelling(true), Cancelling(false)];
    CloseAndDestroy(s);
    Extend(s0, steps, CloserCancels(0));
    steps := steps + [CloserCancels(0)];
    Extend(s0, steps, CloserWakes(0));
    steps := steps + [CloserWakes(0)];
    Extend(s0, steps, Destroy);
    steps := steps + [Destroy];
  }

  lemma CloseAndDestroy(s: System)
    requires IdleWith(s, [Cancelling(true), Cancelling(false)])
    ensures Enabled(s, CloserCancels(0))
    ensures var s1 := Next(s, CloserCancels(0)); Enabled(s1, CloserWakes(0))
    ensures var s2 := Next(Next(s, CloserCancels(0)), CloserWakes(0)); Enabled(s2, Destroy)
    ensures var s3 := Next(Next(Next(s, CloserCancels(0)), CloserWakes(0)), Destroy);
            s3.destroyed && Enabled(s3, CloserWakes(1))
  {
  }
}
