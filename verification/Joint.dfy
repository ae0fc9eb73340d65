/** The frontend and the adapter behind it together: the adapter's exchange runs
    inside the frontend's workers, and the frontend's cancel callbacks are the
    adapter's cancels.  Steps inside an adapter exchange other than its begin and its
    finish are those of `AdapterRuns`. */
module Joint {
  import opened Uapi
  import opened FrontendSpec
  import opened Adapter
  import opened F = FrontendRuns

  /** Where a worker's call of the adapter is; `cancels` counts the cancel callbacks
      between its begin and its finish. */
  datatype Call = Before | Inside(cancels: nat) | After(result: int, cancels: nat)

  /** One call for each exchange of the frontend. */
  datatype State = State(front: F.System, slot: Slot, calls: seq<Call>)

  datatype Move =
    | Front(step: F.Step)
    | Begin(i: nat)
    | Finish(i: nat, result: int)
    | Return(i: nat)

  const ADAPTER := Ops(true, true)

  function Start(attached: bool): State {
    State(F.Initial(if attached then Some(ADAPTER) else None), FREE, [])
  }

  /** The frontend has this adapter or no backend, and a worker finishes with what the
      adapter returned. */
  predicate Possible(s: State, move: Move) {
    match move
    case Front(step) =>
      && F.Enabled(s.front, step) && !step.WorkerFinishes?
      && (step.SetBackend? && step.backend.Some? ==> step.backend.value == ADAPTER)
    case Begin(i) => i < |s.front.xs| && i < |s.calls| && s.front.xs[i].worker == Running && s.calls[i] == Before
    case Finish(i, result) => i < |s.calls| && s.calls[i].Inside? && Settles(result)
    case Return(i) => i < |s.front.xs| && i < |s.calls| && s.front.xs[i].worker == Running && s.calls[i].After?
  }

  predicate IsCallback(step: F.Step) {
    step.CallerCancels? || step.CloserCancels?
  }

  /** The call that holds the adapter's slot. */
  function Holder(s: State): Option<nat> {
    if s.front.mock.active.Some? && s.front.mock.active.value < |s.calls| && s.calls[s.front.mock.active.value].Inside?
    then s.front.mock.active else None
  }

  /** The adapter's cancel. */
  function Notified(s: State): (r: State)
    ensures r.front == s.front && |r.calls| == |s.calls|
  {
    if s.slot.active && Holder(s).Some? then
      var i := Holder(s).value;
      s.(slot := Cancelled(s.slot), calls := s.calls[i := Inside(s.calls[i].cancels + 1)])
    else s.(slot := Cancelled(s.slot))
  }

  function AfterFront(s: State, step: F.Step): (r: State)
    requires F.Enabled(s.front, step)
  {
    var front := F.Next(s.front, step);
    s.(front := front, calls := s.calls + seq(|front.xs| - |s.front.xs|, _ => Before))
  }

  function Next(s: State, move: Move): State
    requires Possible(s, move)
  {
    match move
    case Front(step) => if IsCallback(step) then AfterFront(Notified(s), step) else AfterFront(s, step)
    case Begin(i) =>
      s.(slot := Begun(s.slot), calls := s.calls[i := if s.slot.active then After(-EBUSY, 0) else Inside(0)])
    case Finish(i, result) =>
      s.(slot := FREE, calls := s.calls[i := After(FinalResult(s.slot, result), s.calls[i].cancels)])
    case Return(i) => s.(front := F.Next(s.front, WorkerFinishes(i, s.calls[i].result)))
  }

  // ----- the invariant -----

  predicate CallInv(slot: Slot, x: Exchange, c: Call) {
    && (c.Inside? ==> x.worker == Running && (c.cancels > 0 <==> slot.cancelRequested))
    && (c.After? ==> c.result != -EBUSY && (c.result == -ECANCELED <==> c.cancels > 0))
    && (HasWorker(x) && x.worker != Running ==> c.After? && x.task.result == c.result)
    && (!HasWorker(x) ==> c == Before)
  }

  predicate JointInv(s: State) {
    && F.Inv(s.front)
    && |s.calls| == |s.front.xs|
    && (s.slot.active <==> Holder(s).Some?)
    && (!s.slot.active ==> s.slot == FREE)
    && (forall i | 0 <= i < |s.calls| :: CallInv(s.slot, s.front.xs[i], s.calls[i]))
  }

  lemma RunningIsActive(f: F.System, i: nat)
    requires F.Inv(f) && i < |f.xs| && f.xs[i].worker == Running
    ensures f.mock.active == Some(i)
  {
    assert ExchangeInv(f.mock, i, f.xs[i]);
  }

  /** What a frontend step other than a worker's finish does to the exchanges. */
  predicate WorkerKept(x: Exchange, x': Exchange) {
    && (x'.worker == x.worker || (x.worker == Finishing && x'.worker == Exited))
    && x'.task.result == x.task.result
  }

  predicate WorkersKept(f: F.System, f': F.System) {
    && |f.xs| <= |f'.xs|
    && (forall i | 0 <= i < |f.xs| :: WorkerKept(f.xs[i], f'.xs[i]))
    && (forall i | |f.xs| <= i < |f'.xs| :: f'.xs[i].worker in {NoTask, NotStarted, Running})
  }

  lemma FrontKeepsWorkers(f: F.System, step: F.Step)
    requires F.Enabled(f, step) && !step.WorkerFinishes?
    ensures WorkersKept(f, F.Next(f, step))
  {
    hide WorkersKept, F.Enabled, F.Next;
    if step.Submit? {
      SubmitKeepsWorkers(f, step);
    } else {
      OthersKeepWorkers(f, step);
    }
  }

  lemma SubmitKeepsWorkers(f: F.System, step: F.Step)
    requires F.Enabled(f, step) && step.Submit?
    ensures WorkersKept(f, F.Next(f, step))
  {
    hide Screen;
  }

  lemma OthersKeepWorkers(f: F.System, step: F.Step)
    requires F.Enabled(f, step) && !step.WorkerFinishes? && !step.Submit?
    ensures WorkersKept(f, F.Next(f, step))
  {
    hide Decide, Submitted, Delivered;
  }

  lemma AfterFrontKeeps(s: State, step: F.Step)
    requires JointInv(s) && F.Enabled(s.front, step) && !step.WorkerFinishes?
    ensures JointInv(AfterFront(s, step))
  {
    hide F.Inv, F.Next, F.Enabled, WorkersKept;
    var s' := AfterFront(s, step);
    FrontKeepsWorkers(s.front, step);
    F.StepKeepsInv(s.front, step);
    KeptCalls(s, s');
  }

  lemma KeptCalls(s: State, s': State)
    requires JointInv(s) && F.Inv(s'.front) && WorkersKept(s.front, s'.front) && s'.slot == s.slot
    requires s'.calls == s.calls + seq(|s'.front.xs| - |s.front.xs|, _ => Before)
    ensures JointInv(s')
  {
    hide F.Inv;
    forall i | 0 <= i < |s'.calls|
      ensures CallInv(s'.slot, s'.front.xs[i], s'.calls[i])
    {
      if i < |s.calls| {
        assert CallInv(s.slot, s.front.xs[i], s.calls[i]);
        assert WorkerKept(s.front.xs[i], s'.front.xs[i]);
      }
    }
    SameHolder(s, s');
  }

  /** A call inside the adapter keeps its worker running, and that keeps it active. */
  lemma SameHolder(s: State, s': State)
    requires F.Inv(s.front) && F.Inv(s'.front) && |s.calls| == |s.front.xs| && |s'.calls| == |s'.front.xs|
    requires |s.calls| <= |s'.calls| && s'.calls[..|s.calls|] == s.calls
    requires forall i | |s.calls| <= i < |s'.calls| :: s'.calls[i] == Before
    requires forall i | 0 <= i < |s.calls| && s.calls[i].Inside? ::
               s.front.xs[i].worker == Running && s'.front.xs[i].worker == Running
    ensures Holder(s') == Holder(s)
  {
    hide F.Inv;
    if Holder(s).Some? {
      RunningIsActive(s'.front, Holder(s).value);
    }
    if Holder(s').Some? {
      var i := Holder(s').value;
      assert s'.calls[i] == s.calls[i];
      RunningIsActive(s.front, i);
    }
  }

  lemma NotifiedKeeps(s: State)
    requires JointInv(s)
    ensures JointInv(Notified(s))
  {
    hide F.Inv;
    var s' := Notified(s);
    forall i | 0 <= i < |s.calls|
      ensures CallInv(s'.slot, s'.front.xs[i], s'.calls[i])
    {
      assert CallInv(s.slot, s.front.xs[i], s.calls[i]);
      if s.calls[i].Inside? {
        RunningIsActive(s.front, i);
      }
    }
  }

  lemma AdapterKeeps(s: State, move: Move)
    requires JointInv(s) && Possible(s, move) && (move.Begin? || move.Finish?)
    ensures JointInv(Next(s, move))
  {
    hide F.Inv;
    var s' := Next(s, move);
    assert CallInv(s.slot, s.front.xs[move.i], s.calls[move.i]);
    RunningIsActive(s.front, move.i);
    forall i | 0 <= i < |s.calls|
      ensures CallInv(s'.slot, s'.front.xs[i], s'.calls[i])
    {
      assert CallInv(s.slot, s.front.xs[i], s.calls[i]);
      if i != move.i && s.calls[i].Inside? {
        RunningIsActive(s.front, i);
      }
    }
  }

  lemma ReturnKeeps(s: State, i: nat)
    requires JointInv(s) && Possible(s, Return(i))
    ensures JointInv(Next(s, Return(i)))
  {
    hide F.Inv;
    var s' := Next(s, Return(i));
    F.StepKeepsInv(s.front, WorkerFinishes(i, s.calls[i].result));
    forall j | 0 <= j < |s.calls|
      ensures CallInv(s'.slot, s'.front.xs[j], s'.calls[j])
    {
      assert CallInv(s.slot, s.front.xs[j], s.calls[j]);
    }
    forall j | 0 <= j < |s.calls| && s.calls[j].Inside?
      ensures s.front.xs[j].worker == Running && s'.front.xs[j].worker == Running
    {
      assert CallInv(s.slot, s.front.xs[j], s.calls[j]);
    }
    SameHolder(s, s');
  }

  lemma MoveKeepsInv(s: State, move: Move)
    requires JointInv(s) && Possible(s, move)
    ensures JointInv(Next(s, move))
  {
    hide JointInv, AfterFront, Notified;
    match move
    case Front(step) =>
      if IsCallback(step) {
        NotifiedKeeps(s);
        AfterFrontKeeps(Notified(s), step);
      } else {
        AfterFrontKeeps(s, step);
      }
    case Return(i) => ReturnKeeps(s, i);
    case _ => AdapterKeeps(s, move);
  }

  // ----- what holds on every run -----

  predicate Legal(s: State, moves: seq<Move>)
    decreases |moves|
  {
    moves == [] || (Possible(s, moves[0]) && Legal(Next(s, moves[0]), moves[1..]))
  }

  function Reached(s: State, moves: seq<Move>): State
    requires Legal(s, moves)
    decreases |moves|
  {
    if moves == [] then s else Reached(Next(s, moves[0]), moves[1..])
  }

  lemma {:induction false} MovesKeepInv(s: State, moves: seq<Move>)
    requires JointInv(s) && Legal(s, moves)
    ensures JointInv(Reached(s, moves))
    decreases |moves|
  {
    hide JointInv, Possible, Next;
    if moves != [] {
      MoveKeepsInv(s, moves[0]);
      MovesKeepInv(Next(s, moves[0]), moves[1..]);
    }
  }

  /** A state that some run from creation leads to. */
  ghost predicate Reachable(s: State) {
    exists attached, moves :: Legal(Start(attached), moves) && Reached(Start(attached), moves) == s
  }

  lemma ReachableInv(s: State)
    requires Reachable(s)
    ensures JointInv(s)
  {
    hide Legal, Reached, JointInv;
    var attached, moves :| Legal(Start(attached), moves) && Reached(Start(attached), moves) == s;
    StartInv(attached);
    MovesKeepInv(Start(attached), moves);
  }

  lemma StartInv(attached: bool)
    ensures JointInv(Start(attached))
  {
  }

  /** The adapter never finds itself busy: the frontend lets in one exchange at a time
      and the adapter's slot is free again before its worker finishes. */
  lemma NeverBusy(s: State, i: nat)
    requires Reachable(s) && i < |s.calls|
    ensures Possible(s, Begin(i)) ==> !s.slot.active
    ensures s.calls[i].After? ==> s.calls[i].result != -EBUSY
  {
    hide Reachable, F.Inv;
    ReachableInv(s);
    assert CallInv(s.slot, s.front.xs[i], s.calls[i]);
    if Possible(s, Begin(i)) {
      RunningIsActive(s.front, i);
    }
  }

  function Cancels(c: Call): nat {
    if c == Before then 0 else c.cancels
  }

  /** A callback reaches exactly the call inside the adapter, whoever it was granted
      for; with none inside it changes nothing in the adapter. */
  lemma CallbackReaches(s: State, step: F.Step, i: nat)
    requires Reachable(s) && Possible(s, Front(step)) && IsCallback(step) && i < |s.calls|
    ensures var s' := Next(s, Front(step));
            && |s'.calls| == |s.calls|
            && Cancels(s'.calls[i]) == Cancels(s.calls[i]) + (if s.calls[i].Inside? then 1 else 0)
            && (!s.slot.active ==> s'.slot == s.slot && s'.calls == s.calls)
  {
    hide Reachable, F.Inv;
    ReachableInv(s);
    assert CallInv(s.slot, s.front.xs[i], s.calls[i]);
    if s.calls[i].Inside? {
      RunningIsActive(s.front, i);
    }
  }

  /** Other steps leave the count alone, so it counts the callbacks during the call. */
  lemma OnlyCallbacksCount(s: State, move: Move, i: nat)
    requires Reachable(s) && Possible(s, move) && i < |s.calls| && !(move.Front? && IsCallback(move.step))
    ensures i < |Next(s, move).calls| && Cancels(Next(s, move).calls[i]) == Cancels(s.calls[i])
  {
    hide Reachable, F.Inv, F.Next;
    ReachableInv(s);
  }

  /** The adapter answers a call with -ECANCELED if and only if a callback came while
      it was inside. */
  lemma CancelledExactly(s: State, i: nat)
    requires Reachable(s) && i < |s.calls| && s.calls[i].After?
    ensures s.calls[i].result == -ECANCELED <==> Cancels(s.calls[i]) > 0
  {
    hide Reachable, F.Inv;
    ReachableInv(s);
    assert CallInv(s.slot, s.front.xs[i], s.calls[i]);
  }

  lemma {:induction false} CancelsStay(s: State, moves: seq<Move>, i: nat)
    requires JointInv(s) && Legal(s, moves) && i < |s.calls| && Cancels(s.calls[i]) > 0
    ensures i < |Reached(s, moves).calls| && Cancels(Reached(s, moves).calls[i]) > 0
    decreases |moves|
  {
    hide JointInv, Possible, Next;
    if moves != [] {
      CancelsStayOnce(s, moves[0], i);
      MoveKeepsInv(s, moves[0]);
      CancelsStay(Next(s, moves[0]), moves[1..], i);
    }
  }

  lemma CancelsStayOnce(s: State, move: Move, i: nat)
    requires JointInv(s) && Possible(s, move) && i < |s.calls| && Cancels(s.calls[i]) > 0
    ensures i < |Next(s, move).calls| && Cancels(Next(s, move).calls[i]) > 0
  {
    hide F.Inv, F.Next;
  }

  /** A cancel callback that finds an exchange inside the adapter ends it with
      ECANCELED on every run, even if no cancel was ever granted for it. */
  lemma LateCancelEndsTheNewer(s: State, step: F.Step, i: nat, moves: seq<Move>)
    requires Reachable(s) && Possible(s, Front(step)) && IsCallback(step)
    requires i < |s.calls| && s.calls[i].Inside? && Legal(Next(s, Front(step)), moves)
    ensures var e := Reached(Next(s, Front(step)), moves);
            && i < |e.front.xs|
            && var x := e.front.xs[i];
               Replied(x) && x.grants == 0 ==> ReplyOf(x).errno == ECANCELED
  {
    hide Reachable, Legal, Reached, JointInv, Possible, Next;
    ReachableInv(s);
    MoveKeepsInv(s, Front(step));
    CallbackReaches(s, step, i);
    var s' := Next(s, Front(step));
    CancelsStay(s', moves, i);
    MovesKeepInv(s', moves);
    CancelledReply(Reached(s', moves), i);
  }

  lemma CancelledReply(e: State, i: nat)
    requires JointInv(e) && i < |e.calls| && Cancels(e.calls[i]) > 0
    ensures i < |e.front.xs|
    ensures var x := e.front.xs[i];
            Replied(x) && x.grants == 0 ==> ReplyOf(x).errno == ECANCELED
  {
    hide Lifetime, Acceptable;
    assert CallInv(e.slot, e.front.xs[i], e.calls[i]);
    assert ExchangeInv(e.front.mock, i, e.front.xs[i]);
    if Replied(e.front.xs[i]) && e.front.xs[i].worker == Running {
      RunningReply(e.front, i);
    }
  }

  /** A reply without a grant comes only after the worker is done. */
  lemma RunningReply(f: F.System, i: nat)
    requires F.Inv(f) && i < |f.xs| && Replied(f.xs[i]) && f.xs[i].worker == Running
    ensures f.xs[i].grants == 1
  {
    assert ExchangeInv(f.mock, i, f.xs[i]);
  }
}
