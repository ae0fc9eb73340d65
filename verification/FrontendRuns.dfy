/** Every interleaving of exchange callers, detached workers, closers, backend
    switches and destruction: one step per critical section or callback. */
module FrontendRuns {
  import opened Ints
  import opened Uapi
  import opened FrontendSpec

  datatype Reply = Reply(errno: int, response: Response)

  /** Where the thread that issued an exchange is. */
  datatype Caller =
    | Waiting
    | Unlocked(timedOut: bool, calls: bool)
    | Grace
    | Leaving(reply: Reply)
    | Returned(reply: Reply)

  /** Where the detached worker of an exchange is; `NoTask` and `NotStarted` when
      allocation or thread creation failed. */
  datatype Worker = NoTask | NotStarted | Running | Finishing | Exited

  /** An admitted exchange.  `frees` counts the calls of `free` on its task, `grants`
      the cancel requests granted while it was active; `expired` if its wait failed. */
  datatype Exchange = Exchange(task: Task, caller: Caller, worker: Worker, frees: nat, grants: nat, expired: bool)

  datatype Closer = Cancelling(calls: bool) | AwaitingIdle | Closed

  datatype System = System(mock: Mock<nat>, xs: seq<Exchange>, closers: seq<Closer>, destroyed: bool)

  datatype Resources = NoMemory | NoThread(errno: int) | Available

  datatype Step =
    | Submit(arg: Option<Argument>, clock: Option<U64>, resources: Resources)
    | Wake(i: nat)
    | WaitFails(i: nat)
    | CallerCancels(i: nat)
    | Relock(i: nat, grace: bool)
    | GraceEnds(i: nat)
    | CallerReleases(i: nat)
    | BackendWrites(i: nat, response: Response)
    | WorkerFinishes(i: nat, result: int)
    | WorkerReleases(i: nat)
    | Open(locked: bool)
    | Close
    | CloserCancels(k: nat)
    | CloserWakes(k: nat)
    | SetBackend(backend: Option<Ops>)
    | Destroy

  function Initial(backend: Option<Ops>): System {
    System(NewMock(backend), [], [], false)
  }

  /** A callable step.  No call of the interface begins after a successful destroy;
      threads already inside one are not stopped by it. */
  predicate Enabled(s: System, step: Step) {
    match step
    case Submit(_, _, resources) => !s.destroyed && (resources.NoThread? ==> resources.errno != 0)
    case Wake(i) => i < |s.xs| && s.xs[i].caller == Waiting && s.xs[i].task.done
    case WaitFails(i) => i < |s.xs| && s.xs[i].caller == Waiting
    case CallerCancels(i) => i < |s.xs| && s.xs[i].caller.Unlocked? && s.xs[i].caller.calls
    case Relock(i, _) => i < |s.xs| && s.xs[i].caller.Unlocked? && !s.xs[i].caller.calls
    case GraceEnds(i) => i < |s.xs| && s.xs[i].caller == Grace
    case CallerReleases(i) => i < |s.xs| && s.xs[i].caller.Leaving?
    case BackendWrites(i, _) => i < |s.xs| && s.xs[i].worker == Running
    case WorkerFinishes(i, _) => i < |s.xs| && s.xs[i].worker == Running
    case WorkerReleases(i) => i < |s.xs| && s.xs[i].worker == Finishing
    case Open(_) => !s.destroyed
    case Close => !s.destroyed
    case CloserCancels(k) => k < |s.closers| && s.closers[k].Cancelling? && s.closers[k].calls
    case CloserWakes(k) =>
      k < |s.closers| && (s.closers[k] == Cancelling(false) || (s.closers[k] == AwaitingIdle && !s.mock.busy))
    case SetBackend(_) => !s.destroyed
    case Destroy => !s.destroyed
  }

  function Next(s: System, step: Step): (r: System)
    requires Enabled(s, step)
    ensures |s.xs| <= |r.xs|
  {
    match step
    case Submit(arg, clock, resources) => Submitted(s, arg, clock, resources)
    case Wake(i) => s.(xs := s.xs[i := s.xs[i].(caller := Unlocked(false, false))])
    case WaitFails(i) => TimedOut(s, i)
    case CallerCancels(i) => s.(xs := s.xs[i := s.xs[i].(caller := s.xs[i].caller.(calls := false))])
    case Relock(i, grace) =>
      var x := s.xs[i];
      if !x.caller.timedOut || x.task.done then Completed(s, i, x.caller.timedOut)
      else if grace then s.(xs := s.xs[i := x.(caller := Grace)])
      else Abandoned(s, i)
    case GraceEnds(i) => if s.xs[i].task.done then Completed(s, i, true) else Abandoned(s, i)
    case CallerReleases(i) =>
      s.(xs := s.xs[i := Released(s.xs[i]).(caller := Returned(s.xs[i].caller.reply))])
    case BackendWrites(i, response) =>
      s.(xs := s.xs[i := s.xs[i].(task := s.xs[i].task.(response := response))])
    case WorkerFinishes(i, result) => Finished(s, i, result)
    case WorkerReleases(i) => s.(xs := s.xs[i := Released(s.xs[i]).(worker := Exited)])
    case Open(locked) => if s.mock.sessionOpen || !locked then s else s.(mock := Opened(s.mock))
    case Close => CloseBegun(s)
    case CloserCancels(k) => s.(closers := s.closers[k := Cancelling(false)])
    case CloserWakes(k) =>
      if s.mock.busy then s.(closers := s.closers[k := AwaitingIdle])
      else s.(mock := ClosedSession(s.mock), closers := s.closers[k := Closed])
    case SetBackend(backend) =>
      if s.mock.busy || (backend.Some? && !backend.value.exchange) then s
      else s.(mock := WithBackend(s.mock, backend))
    case Destroy => if s.mock.sessionOpen || s.mock.busy then s else s.(destroyed := true)
  }

  predicate SameSession(s: System, r: System) {
    r.closers == s.closers && r.destroyed == s.destroyed && r.mock.sessionOpen == s.mock.sessionOpen
  }

  function Submitted(s: System, arg: Option<Argument>, clock: Option<U64>, resources: Resources): (r: System)
    ensures SameSession(s, r)
  {
    match Screen(s.mock, arg, clock)
    case Refuse(errno, status) => s.(mock := AfterRefusal(s.mock, errno, status))
    case Admit(deadline) =>
      var task := NewTask(s.mock.ops, arg.value.request, deadline);
      match resources
      case NoMemory => WithoutWorker(s, task, NoTask, 0, ENOMEM)
      case NoThread(errno) => WithoutWorker(s, task, NotStarted, 1, errno)
      case Available =>
        s.(mock := Started(s.mock, |s.xs|), xs := s.xs + [Exchange(task, Waiting, Running, 0, 0, false)])
  }

  /** Allocation or thread creation failed: the exchange counts as failed. */
  function WithoutWorker(s: System, task: Task, worker: Worker, frees: nat, errno: int): (r: System)
    ensures SameSession(s, r)
  {
    var reply := Reply(errno, FailureFrame(task.request, IO));
    s.(mock := Finalized(s.mock, Verdict(errno, IO, false)),
       xs := s.xs + [Exchange(task, Returned(reply), worker, frees, 0, false)])
  }

  function TimedOut(s: System, i: nat): (r: System)
    requires i < |s.xs|
    ensures SameSession(s, r)
  {
    var granted := Grants(s.mock);
    var x := s.xs[i].(caller := Unlocked(true, granted && s.mock.ops.cancel),
                      grants := s.xs[i].grants + (if granted then 1 else 0), expired := true);
    s.(mock := AfterCancelRequest(s.mock), xs := s.xs[i := x])
  }

  function Completed(s: System, i: nat, timedOut: bool): (r: System)
    requires i < |s.xs|
    ensures SameSession(s, r)
  {
    var t := s.xs[i].task;
    var v := Decide(timedOut, s.mock.cancelRequested, t);
    s.(mock := Finalized(s.mock.(active := None), v),
       xs := s.xs[i := s.xs[i].(caller := Leaving(Reply(v.errno, Delivered(t, v))))])
  }

  function Abandoned(s: System, i: nat): (r: System)
    requires i < |s.xs|
    ensures SameSession(s, r)
  {
    var t := s.xs[i].task;
    s.(mock := AfterAbandoning(s.mock),
       xs := s.xs[i := s.xs[i].(task := t.(abandoned := true),
                                caller := Leaving(Reply(ETIMEDOUT, FailureFrame(t.request, TIMEOUT))))])
  }

  /** Dropping one reference; the last one frees the task. */
  function Released(x: Exchange): Exchange {
    var left := if x.task.refs == 0 then 0 else x.task.refs - 1;
    x.(task := x.task.(refs := left), frees := if x.task.refs == 1 then x.frees + 1 else x.frees)
  }

  function Finished(s: System, i: nat, result: int): (r: System)
    requires i < |s.xs|
    ensures SameSession(s, r)
  {
    var t := s.xs[i].task;
    var orphan := t.abandoned && s.mock.active == Some(i);
    s.(mock := AfterWorker(s.mock, orphan, result),
       xs := s.xs[i := s.xs[i].(task := t.(result := result, done := true), worker := Finishing)])
  }

  predicate ActiveAbandoned(s: System) {
    s.mock.active.Some? && s.mock.active.value < |s.xs| && s.xs[s.mock.active.value].task.abandoned
  }

  function CloseBegun(s: System): System {
    if !s.mock.sessionOpen then s
    else if s.mock.busy && ActiveAbandoned(s) then s
    else if s.mock.busy then
      var granted := Grants(s.mock);
      var closers := s.closers + [Cancelling(granted && s.mock.ops.cancel)];
      var asked := s.(mock := AfterCancelRequest(s.mock), closers := closers);
      if granted && s.mock.active.Some? && s.mock.active.value < |s.xs|
      then var i := s.mock.active.value; asked.(xs := s.xs[i := s.xs[i].(grants := s.xs[i].grants + 1)])
      else asked
    else s.(mock := ClosedSession(s.mock), closers := s.closers + [Closed])
  }

  // ----- the invariant -----

  predicate CallerOwns(x: Exchange) {
    !x.caller.Returned?
  }

  predicate WorkerOwns(x: Exchange) {
    x.worker == Running || x.worker == Finishing
  }

  predicate HasWorker(x: Exchange) {
    x.worker != NoTask && x.worker != NotStarted
  }

  predicate Replied(x: Exchange) {
    x.caller.Leaving? || x.caller.Returned?
  }

  function ReplyOf(x: Exchange): Reply
    requires Replied(x)
  {
    x.caller.reply
  }

  /** Neither finalized by its caller nor, once abandoned, by its worker. */
  predicate InFlight(x: Exchange) {
    !Replied(x) || (x.task.abandoned && x.worker == Running)
  }

  predicate CancelAsked(x: Exchange) {
    x.caller == Grace || (x.caller.Unlocked? && x.caller.timedOut) || x.task.abandoned
  }

  /** Two owners, one free. */
  predicate Lifetime(x: Exchange) {
    if HasWorker(x) then
      && x.task.refs == (if CallerOwns(x) then 1 else 0) + (if WorkerOwns(x) then 1 else 0)
      && x.frees == (if x.task.refs == 0 then 1 else 0)
      && (x.task.done <==> x.worker != Running)
    else
      x.caller.Returned? && x.frees == (if x.worker == NotStarted then 1 else 0)
  }

  /** What a caller is told. */
  predicate Sound(x: Exchange) {
    && (x.caller.Unlocked? && !x.caller.timedOut ==> x.task.done && !x.caller.calls)
    && (x.task.abandoned ==> Replied(x) && ReplyOf(x) == Reply(ETIMEDOUT, FailureFrame(x.task.request, TIMEOUT)))
    && (Replied(x) && HasWorker(x) ==>
          && (x.task.abandoned || x.task.done)
          && SoundReply(x.task, ReplyOf(x)))
    && (Replied(x) && !HasWorker(x) ==>
          ReplyOf(x).errno != 0 && ReplyOf(x).response == FailureFrame(x.task.request, IO) && !x.task.abandoned)
  }

  /** The whole acceptable response of a successful backend, or the failure frame
      with the errno that its status stands for. */
  predicate SoundReply(t: Task, r: Reply) {
    if r.errno == 0 then r.response == t.response && t.result == 0 && Acceptable(t.request, r.response)
    else
      && r.response == FailureFrame(t.request, r.response.status)
      && r.response.status != OK && KnownStatus(r.response.status)
      && r.errno == StatusToErrno(r.response.status)
  }

  /** Every reply says what became of the exchange, and success is exactly: no cancel
      was granted and the backend returned an acceptable response. */
  predicate ExactReply(x: Exchange) {
    Replied(x) && HasWorker(x) ==>
      && Justified(x.expired, x.grants == 1, x.task.request, x.task.result, x.task.response, ReplyOf(x).response.status)
      && (ReplyOf(x).errno == 0
          <==> x.grants == 0 && x.task.result == 0 && Acceptable(x.task.request, x.task.response))
  }

  predicate ExchangeInv(m: Mock<nat>, i: nat, x: Exchange) {
    && Lifetime(x) && Sound(x) && ExactReply(x)
    && (x.expired ==> x.grants == 1)
    && (!Replied(x) ==> (x.expired <==> CancelAsked(x)))
    && (x.task.abandoned ==> x.expired)
    && (InFlight(x) <==> m.active == Some(i))
    && x.grants <= 1
    && (InFlight(x) ==> x.grants == if m.cancelSent then 1 else 0)
    && (InFlight(x) && CancelAsked(x) ==> m.cancelSent)
    && (InFlight(x) ==> x.task.ops == m.ops)
    && (x.caller.Unlocked? && x.caller.calls ==> x.task.ops.cancel)
  }

  predicate Succeeded(x: Exchange) {
    Replied(x) && ReplyOf(x).errno == 0
  }

  predicate FailedReply(x: Exchange) {
    Replied(x) && ReplyOf(x).errno != 0
  }

  function Successes(xs: seq<Exchange>): nat {
    if xs == [] then 0 else Successes(xs[..|xs| - 1]) + if Succeeded(xs[|xs| - 1]) then 1 else 0
  }

  function Failures(xs: seq<Exchange>): nat {
    if xs == [] then 0 else Failures(xs[..|xs| - 1]) + if FailedReply(xs[|xs| - 1]) then 1 else 0
  }

  predicate Inv(s: System) {
    && MockInv(s.mock)
    && (s.mock.active.Some? ==> s.mock.active.value < |s.xs|)
    && (forall i | 0 <= i < |s.xs| :: ExchangeInv(s.mock, i, s.xs[i]))
    && s.mock.completed == Successes(s.xs)
    && s.mock.failed == Failures(s.xs)
    && (s.destroyed ==> !s.mock.sessionOpen)
  }

  // ----- every step keeps it -----

  lemma {:induction false} CountsUpdate(xs: seq<Exchange>, i: nat, x: Exchange)
    requires i < |xs|
    ensures Successes(xs[i := x]) + (if Succeeded(xs[i]) then 1 else 0)
         == Successes(xs) + (if Succeeded(x) then 1 else 0)
    ensures Failures(xs[i := x]) + (if FailedReply(xs[i]) then 1 else 0)
         == Failures(xs) + (if FailedReply(x) then 1 else 0)
  {
    var last := |xs| - 1;
    if i == last {
      assert xs[i := x][..last] == xs[..last];
    } else {
      assert xs[i := x][..last] == xs[..last][i := x];
      CountsUpdate(xs[..last], i, x);
    }
  }

  lemma CountsAppend(xs: seq<Exchange>, x: Exchange)
    ensures Successes(xs + [x]) == Successes(xs) + if Succeeded(x) then 1 else 0
    ensures Failures(xs + [x]) == Failures(xs) + if FailedReply(x) then 1 else 0
  {
    assert (xs + [x])[..|xs|] == xs;
  }

  /** The exchanges other than `i` do not notice the change from `m` to `m'`. */
  predicate OthersUnaware(m: Mock<nat>, m': Mock<nat>, i: nat) {
    || (m.active == Some(i) && (m'.active == Some(i) || m'.active == None))
    || (m.active == None && (m'.active == Some(i) || m'.active == None))
    || (m.active == m'.active && m.cancelSent == m'.cancelSent && m.ops == m'.ops)
  }

  predicate Counted(m: Mock<nat>, m': Mock<nat>, x: Exchange, x': Exchange) {
    && m'.completed + (if Succeeded(x) then 1 else 0) == m.completed + (if Succeeded(x') then 1 else 0)
    && m'.failed + (if FailedReply(x) then 1 else 0) == m.failed + (if FailedReply(x') then 1 else 0)
  }

  lemma OtherKept(m: Mock<nat>, m': Mock<nat>, i: nat, j: nat, x: Exchange)
    requires i != j && OthersUnaware(m, m', i) && ExchangeInv(m, j, x)
    ensures ExchangeInv(m', j, x)
  {
  }

  /** A step of exchange `i` that keeps the invariants of the frontend and of `i`. */
  lemma StepOf(s: System, i: nat, m': Mock<nat>, x': Exchange)
    requires Inv(s) && i < |s.xs|
    requires MockInv(m') && ExchangeInv(m', i, x') && OthersUnaware(s.mock, m', i) && Counted(s.mock, m', s.xs[i], x')
    requires m'.sessionOpen == s.mock.sessionOpen
    ensures Inv(s.(mock := m', xs := s.xs[i := x']))
  {
    hide MockInv, ExchangeInv, OthersUnaware;
    CountsUpdate(s.xs, i, x');
    forall j | 0 <= j < |s.xs| && j != i
      ensures ExchangeInv(m', j, s.xs[j])
    {
      OtherKept(s.mock, m', i, j, s.xs[j]);
    }
    assert m'.active.Some? ==> m'.active.value < |s.xs| by { ActiveInRange(s.mock, m', i, |s.xs|); }
  }

  lemma ActiveInRange(m: Mock<nat>, m': Mock<nat>, i: nat, n: nat)
    requires i < n && OthersUnaware(m, m', i) && (m.active.Some? ==> m.active.value < n)
    ensures m'.active.Some? ==> m'.active.value < n
  {
  }

  /** A step that adds an exchange. */
  lemma StepAdding(s: System, m': Mock<nat>, x': Exchange)
    requires Inv(s) && s.mock.active == None
    requires MockInv(m') && ExchangeInv(m', |s.xs|, x') && (m'.active == None || m'.active == Some(|s.xs|))
    requires m'.completed == s.mock.completed + (if Succeeded(x') then 1 else 0)
    requires m'.failed == s.mock.failed + (if FailedReply(x') then 1 else 0)
    requires m'.sessionOpen == s.mock.sessionOpen
    ensures Inv(s.(mock := m', xs := s.xs + [x']))
  {
    hide MockInv, ExchangeInv;
    CountsAppend(s.xs, x');
    forall j | 0 <= j < |s.xs|
      ensures ExchangeInv(m', j, s.xs[j])
    {
      OtherKept(s.mock, m', |s.xs|, j, s.xs[j]);
    }
  }

  /** A step that touches no exchange. */
  lemma StepBeside(s: System, s': System)
    requires Inv(s) && MockInv(s'.mock) && s'.xs == s.xs
    requires s'.mock.active == s.mock.active && s'.mock.cancelSent == s.mock.cancelSent
    requires s'.mock.ops == s.mock.ops || s.mock.active == None
    requires s'.mock.completed == s.mock.completed && s'.mock.failed == s.mock.failed
    requires s'.destroyed ==> !s'.mock.sessionOpen
    ensures Inv(s')
  {
    hide MockInv, ExchangeInv;
    forall j | 0 <= j < |s.xs|
      ensures ExchangeInv(s'.mock, j, s.xs[j])
    {
      OtherKept(s.mock, s'.mock, j + 1, j, s.xs[j]);
    }
  }

  lemma SubmitKeeps(s: System, arg: Option<Argument>, clock: Option<U64>, resources: Resources)
    requires Inv(s) && Enabled(s, Submit(arg, clock, resources))
    ensures Inv(Submitted(s, arg, clock, resources))
  {
    hide Inv, Screen;
    assert MockInv(s.mock) by { InvParts(s); }
    var s' := Submitted(s, arg, clock, resources);
    match Screen(s.mock, arg, clock)
    case Refuse(errno, status) =>
      InvParts(s);
      AbsenceMeansIdle(s.mock, arg, clock);
      StepBeside(s, s');
    case Admit(_) =>
      var x := s'.xs[|s.xs|];
      StepAdding(s, s'.mock, x);
  }

  lemma InvParts(s: System)
    requires Inv(s)
    ensures MockInv(s.mock) && (s.destroyed ==> !s.mock.sessionOpen)
    ensures forall i | 0 <= i < |s.xs| :: ExchangeInv(s.mock, i, s.xs[i])
  {
  }

  /** The refusal that forces the device offline is never issued while busy. */
  lemma AbsenceMeansIdle<T>(m: Mock<T>, arg: Option<Argument>, clock: Option<U64>)
    ensures Screen(m, arg, clock).Refuse? && Screen(m, arg, clock).status == BACKEND_ABSENT ==> !m.busy
  {
  }

  lemma TimedOutKeeps(s: System, i: nat)
    requires Inv(s) && Enabled(s, WaitFails(i))
    ensures Inv(TimedOut(s, i))
  {
    hide Inv;
    InvParts(s);
    var s' := TimedOut(s, i);
    StepOf(s, i, s'.mock, s'.xs[i]);
  }

  lemma CompletedKeeps(s: System, i: nat, timedOut: bool)
    requires Inv(s) && i < |s.xs| && s.xs[i].task.done && !Replied(s.xs[i])
    requires timedOut <==> CancelAsked(s.xs[i])
    ensures Inv(Completed(s, i, timedOut))
  {
    hide Inv, Decide, Acceptable, StatusToErrno, Justified;
    InvParts(s);
    var s' := Completed(s, i, timedOut);
    var t := s.xs[i].task;
    var v := Decide(timedOut, s.mock.cancelRequested, t);
    assert SoundReply(t, Reply(v.errno, Delivered(t, v)));
    StepOf(s, i, s'.mock, s'.xs[i]);
  }

  lemma AbandonedKeeps(s: System, i: nat)
    requires Inv(s) && i < |s.xs| && !s.xs[i].task.done && !Replied(s.xs[i]) && CancelAsked(s.xs[i])
    ensures Inv(Abandoned(s, i))
  {
    hide Inv;
    InvParts(s);
    var s' := Abandoned(s, i);
    StepOf(s, i, s'.mock, s'.xs[i]);
  }

  lemma FinishedKeeps(s: System, i: nat, result: int)
    requires Inv(s) && Enabled(s, WorkerFinishes(i, result))
    ensures Inv(Finished(s, i, result))
  {
    hide Inv;
    InvParts(s);
    var s' := Finished(s, i, result);
    StepOf(s, i, s'.mock, s'.xs[i]);
  }

  lemma CallerKeeps(s: System, step: Step)
    requires Inv(s) && Enabled(s, step)
    requires step.Wake? || step.CallerCancels? || step.Relock? || step.GraceEnds?
    ensures Inv(Next(s, step))
  {
    hide Inv, Completed, Abandoned;
    InvParts(s);
    var i, x := step.i, s.xs[step.i];
    if step.Wake? {
      StepOf(s, i, s.mock, x.(caller := Unlocked(false, false)));
    } else if step.CallerCancels? {
      StepOf(s, i, s.mock, x.(caller := x.caller.(calls := false)));
    } else if x.task.done {
      CompletedKeeps(s, i, if step.Relock? then x.caller.timedOut else true);
    } else if step.Relock? && step.grace {
      StepOf(s, i, s.mock, x.(caller := Grace));
    } else {
      AbandonedKeeps(s, i);
    }
  }

  lemma ReleaseKeeps(s: System, step: Step)
    requires Inv(s) && Enabled(s, step)
    requires step.CallerReleases? || step.WorkerReleases?
    ensures Inv(Next(s, step))
  {
    hide Inv, Justified, Acceptable;
    InvParts(s);
    var s' := Next(s, step);
    StepOf(s, step.i, s.mock, s'.xs[step.i]);
  }

  lemma BackendWriteKeeps(s: System, i: nat, response: Response)
    requires Inv(s) && Enabled(s, BackendWrites(i, response))
    ensures Inv(Next(s, BackendWrites(i, response)))
  {
    hide Inv, Acceptable;
    InvParts(s);
    var s' := Next(s, BackendWrites(i, response));
    StepOf(s, i, s.mock, s'.xs[i]);
  }

  lemma CloseKeeps(s: System)
    requires Inv(s) && Enabled(s, Close)
    ensures Inv(CloseBegun(s))
  {
    hide Inv;
    InvParts(s);
    var s' := CloseBegun(s);
    if s'.xs != s.xs {
      var i := s.mock.active.value;
      StepOf(s, i, s'.mock, s'.xs[i]);
      StepBeside(s.(mock := s'.mock, xs := s'.xs), s');
    } else {
      ActiveExists(s);
      StepBeside(s, s');
    }
  }

  lemma ActiveExists(s: System)
    requires Inv(s)
    ensures s.mock.active.Some? ==> s.mock.active.value < |s.xs|
  {
  }

  lemma SessionKeeps(s: System, step: Step)
    requires Inv(s) && Enabled(s, step)
    requires step.Open? || step.CloserCancels? || step.CloserWakes? || step.SetBackend? || step.Destroy?
    ensures Inv(Next(s, step))
  {
    hide Inv;
    InvParts(s);
    StepBeside(s, Next(s, step));
  }

  /** Every step of every thread keeps the invariant. */
  lemma StepKeepsInv(s: System, step: Step)
    requires Inv(s) && Enabled(s, step)
    ensures Inv(Next(s, step))
  {
    hide Inv, Submitted, TimedOut, Finished, CloseBegun;
    match step
    case Submit(arg, clock, resources) => SubmitKeeps(s, arg, clock, resources);
    case WaitFails(i) => TimedOutKeeps(s, i);
    case WorkerFinishes(i, result) => FinishedKeeps(s, i, result);
    case Wake(_) | CallerCancels(_) | Relock(_, _) | GraceEnds(_) => CallerKeeps(s, step);
    case CallerReleases(_) | WorkerReleases(_) => ReleaseKeeps(s, step);
    case BackendWrites(i, response) => BackendWriteKeeps(s, i, response);
    case Close => CloseKeeps(s);
    case _ => SessionKeeps(s, step);
  }
}
