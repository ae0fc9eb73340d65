/** Every interleaving of adapter exchanges with cancels, in a process whose
    descriptor numbers are reused as soon as they are closed. */
module AdapterRuns {
  import opened Uapi
  import opened Transport
  import opened Adapter

  /** Where an exchange that passed begin is. */
  datatype Phase =
    | Beginning
    | Connected(fd: nat)
    | Talking(fd: nat)
    | Settled(socket: Option<nat>, result: int)
    | Closing(fd: nat, final: int)
    | Done(final: int)

  /** `cancels` counts the cancels between its begin and its finish. */
  datatype Exchange = Exchange(phase: Phase, cancels: nat)

  /** The owner of an open descriptor: an exchange, or the rest of the process. */
  datatype Owner = Of(i: nat) | Foreign

  /** `current` is the exchange that holds the slot. */
  datatype System = System(slot: Slot, current: Option<nat>, xs: seq<Exchange>, open: map<nat, Owner>)

  datatype Step =
    | Begin
    | Connect(i: nat, fd: nat)
    | Register(i: nat)
    | Settle(i: nat, result: int)
    | IoFails(i: nat, status: IoStatus)
    | ShutWrite(i: nat)
    | Finish(i: nat)
    | Close(i: nat)
    | Cancel
    | OthersOpen(fd: nat)
    | OthersClose(fd: nat)

  const START := System(FREE, None, [], map[])

  predicate At(s: System, i: nat) {
    i < |s.xs|
  }

  /** A connection or a whole conversation settles with one of the results that the
      exchange code can produce there. */
  predicate Enabled(s: System, step: Step) {
    match step
    case Begin => true
    case Connect(i, fd) => At(s, i) && s.xs[i].phase == Beginning && fd !in s.open
    case Register(i) => At(s, i) && s.xs[i].phase.Connected?
    case Settle(i, result) => At(s, i) && (s.xs[i].phase == Beginning || s.xs[i].phase.Talking?) && Settles(result)
    case IoFails(i, _) => At(s, i) && s.xs[i].phase.Talking?
    case ShutWrite(i) => At(s, i) && s.xs[i].phase.Talking?
    case Finish(i) => At(s, i) && s.xs[i].phase.Settled?
    case Close(i) => At(s, i) && s.xs[i].phase.Closing?
    case Cancel => true
    case OthersOpen(fd) => fd !in s.open
    case OthersClose(fd) => fd in s.open && s.open[fd] == Foreign
  }

  function Move(s: System, i: nat, phase: Phase): System
    requires At(s, i)
  {
    s.(xs := s.xs[i := s.xs[i].(phase := phase)])
  }

  function Next(s: System, step: Step): System
    requires Enabled(s, step)
  {
    match step
    case Begin =>
      if s.slot.active then s
      else s.(slot := Begun(s.slot), current := Some(|s.xs|), xs := s.xs + [Exchange(Beginning, 0)])
    case Connect(i, fd) => Move(s, i, Connected(fd)).(open := s.open[fd := Of(i)])
    case Register(i) =>
      var fd := s.xs[i].phase.fd;
      var phase := if s.slot.cancelRequested then Settled(Some(fd), -ECANCELED) else Talking(fd);
      Move(s, i, phase).(slot := WithFd(s.slot, fd))
    case Settle(i, result) =>
      Move(s, i, Settled(if s.xs[i].phase.Talking? then Some(s.xs[i].phase.fd) else None, result))
    case IoFails(i, status) => Move(s, i, Settled(Some(s.xs[i].phase.fd), IoResult(s.slot, status)))
    case ShutWrite(_) => s
    case Finish(i) =>
      var final := FinalResult(s.slot, s.xs[i].phase.result);
      var socket := s.xs[i].phase.socket;
      Move(s, i, if socket.Some? then Closing(socket.value, final) else Done(final)).(slot := FREE, current := None)
    case Close(i) =>
      Move(s, i, Done(s.xs[i].phase.final)).(open := s.open - {s.xs[i].phase.fd})
    case Cancel =>
      var cancelled := s.(slot := Cancelled(s.slot));
      if s.current.Some? && At(s, s.current.value) then
        var i := s.current.value;
        cancelled.(xs := s.xs[i := s.xs[i].(cancels := s.xs[i].cancels + 1)])
      else cancelled
    case OthersOpen(fd) => s.(open := s.open[fd := Foreign])
    case OthersClose(fd) => s.(open := s.open - {fd})
  }

  /** The descriptor that a step shuts down. */
  function Shuts(s: System, step: Step): Option<nat>
    requires Enabled(s, step)
  {
    match step
    case Cancel => if s.slot.active then s.slot.fd else None
    case Register(i) => if s.slot.cancelRequested then Some(s.xs[i].phase.fd) else None
    case ShutWrite(i) => Some(s.xs[i].phase.fd)
    case _ => None
  }

  // ----- the invariant -----

  predicate InProgress(x: Exchange) {
    !x.phase.Closing? && !x.phase.Done?
  }

  /** The descriptor an exchange holds. */
  function Socket(x: Exchange): Option<nat> {
    match x.phase
    case Connected(fd) => Some(fd)
    case Talking(fd) => Some(fd)
    case Settled(socket, _) => socket
    case Closing(fd, _) => Some(fd)
    case _ => None
  }

  predicate ExchangeInv(slot: Slot, current: Option<nat>, open: map<nat, Owner>, i: nat, x: Exchange) {
    && (InProgress(x) <==> current == Some(i))
    && (Socket(x).Some? ==> Socket(x).value in open && open[Socket(x).value] == Of(i))
    && (InProgress(x) ==> (x.cancels > 0 <==> slot.cancelRequested))
    && (InProgress(x) ==> slot.fd == if x.phase == Beginning || x.phase.Connected? then None else Socket(x))
    && (x.phase.Settled? && x.phase.result == -ECANCELED ==> slot.cancelRequested)
    && (!InProgress(x) ==> (x.phase.final == -ECANCELED <==> x.cancels > 0))
  }

  predicate Inv(s: System) {
    && (s.slot.active <==> s.current.Some?)
    && (!s.slot.active ==> s.slot == FREE)
    && (s.current.Some? ==> s.current.value < |s.xs|)
    && (forall i | 0 <= i < |s.xs| :: ExchangeInv(s.slot, s.current, s.open, i, s.xs[i]))
  }

  predicate ByExchange(step: Step) {
    step.Connect? || step.Register? || step.Settle? || step.IoFails? || step.ShutWrite? || step.Finish? || step.Close?
  }

  lemma ExchangeStepKeeps(s: System, step: Step)
    requires Inv(s) && Enabled(s, step) && ByExchange(step)
    ensures Inv(Next(s, step))
  {
    hide Settles, IoResult;
  }

  lemma OtherStepKeeps(s: System, step: Step)
    requires Inv(s) && Enabled(s, step) && !ByExchange(step)
    ensures Inv(Next(s, step))
  {
  }

  lemma StepKeepsInv(s: System, step: Step)
    requires Inv(s) && Enabled(s, step)
    ensures Inv(Next(s, step))
  {
    hide Inv, Enabled, Next;
    if ByExchange(step) {
      ExchangeStepKeeps(s, step);
    } else {
      OtherStepKeeps(s, step);
    }
  }

  // ----- what holds on every run -----

  predicate Legal(s: System, steps: seq<Step>)
    decreases |steps|
  {
    steps == [] || (Enabled(s, steps[0]) && Legal(Next(s, steps[0]), steps[1..]))
  }

  function After(s: System, steps: seq<Step>): System
    requires Legal(s, steps)
    decreases |steps|
  {
    if steps == [] then s else After(Next(s, steps[0]), steps[1..])
  }

  lemma {:induction false} RunKeepsInv(s: System, steps: seq<Step>)
    requires Inv(s) && Legal(s, steps)
    ensures Inv(After(s, steps))
    decreases |steps|
  {
    hide Inv, Enabled, Next;
    if steps != [] {
      StepKeepsInv(s, steps[0]);
      RunKeepsInv(Next(s, steps[0]), steps[1..]);
    }
  }

  /** A state that some run from creation leads to. */
  ghost predicate Reachable(s: System) {
    exists steps :: Legal(START, steps) && After(START, steps) == s
  }

  lemma ReachableParts(s: System)
    requires Reachable(s)
    ensures (s.slot.active <==> s.current.Some?) && (!s.slot.active ==> s.slot == FREE)
    ensures s.current.Some? ==> s.current.value < |s.xs|
    ensures forall i | 0 <= i < |s.xs| :: ExchangeInv(s.slot, s.current, s.open, i, s.xs[i])
  {
    var steps :| Legal(START, steps) && After(START, steps) == s;
    RunKeepsInv(START, steps);
  }

  /** Every descriptor that is ever shut down is open and belongs to the exchange in
      progress. */
  lemma ShutdownsAreSafe(s: System, step: Step)
    requires Reachable(s) && Enabled(s, step) && Shuts(s, step).Some?
    ensures Shuts(s, step).value in s.open
    ensures s.current.Some? && s.open[Shuts(s, step).value] == Of(s.current.value)
  {
    hide Reachable;
    ReachableParts(s);
    var i := if step == Cancel then s.current.value else step.i;
    assert ExchangeInv(s.slot, s.current, s.open, i, s.xs[i]);
  }

  /** A cancel shuts down the socket of a conversation in progress. */
  lemma CancelReachesTheSocket(s: System, i: nat)
    requires Reachable(s) && i < |s.xs| && s.xs[i].phase.Talking?
    ensures Shuts(s, Cancel) == Some(s.xs[i].phase.fd)
  {
    hide Reachable;
    ReachableParts(s);
    assert ExchangeInv(s.slot, s.current, s.open, i, s.xs[i]);
  }

  /** A cancel that came before does so when the socket is registered, and ends the
      exchange before it talks. */
  lemma RegistrationHonoursTheCancel(s: System, i: nat)
    requires Reachable(s) && i < |s.xs| && s.xs[i].phase.Connected? && s.xs[i].cancels > 0
    ensures Shuts(s, Register(i)) == Some(s.xs[i].phase.fd)
    ensures Next(s, Register(i)).xs[i].phase == Settled(Some(s.xs[i].phase.fd), -ECANCELED)
  {
    hide Reachable;
    ReachableParts(s);
    assert ExchangeInv(s.slot, s.current, s.open, i, s.xs[i]);
  }

  /** An exchange that has returned reports a cancellation exactly when a cancel came
      between its begin and its finish. */
  lemma CanceledExactly(s: System, i: nat)
    requires Reachable(s) && i < |s.xs| && s.xs[i].phase.Done?
    ensures s.xs[i].phase.final == -ECANCELED <==> s.xs[i].cancels > 0
  {
    hide Reachable;
    ReachableParts(s);
    assert ExchangeInv(s.slot, s.current, s.open, i, s.xs[i]);
  }

  /** The cancel count of an exchange moves by one exactly at a cancel while the
      exchange holds the slot. */
  lemma CancelsAreCounted(s: System, step: Step, i: nat)
    requires Reachable(s) && Enabled(s, step) && i < |s.xs|
    ensures |Next(s, step).xs| >= |s.xs|
    ensures Next(s, step).xs[i].cancels == s.xs[i].cancels + if step == Cancel && InProgress(s.xs[i]) then 1 else 0
  {
    hide Reachable;
    ReachableParts(s);
    assert ExchangeInv(s.slot, s.current, s.open, i, s.xs[i]);
  }
}
