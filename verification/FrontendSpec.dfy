/** The critical sections of the virtual-device frontend, as functions of the
    mutex-guarded fields.  `T` stands for references to exchange tasks. */
module FrontendSpec {
  import opened Ints
  import opened Bits
  import opened Uapi

  const DEFAULT_TIMEOUT: U64 := 1_000_000_000
  const MAX_TIMEOUT: nat := 5_000_000_000

  datatype Device = Offline | Idle | Busy

  /** Which callbacks of a backend are present. */
  datatype Ops = Ops(exchange: bool, cancel: bool)

  datatype Mock<T> = Mock(
    attached: bool, ops: Ops,
    sessionOpen: bool, lockHeld: bool,
    busy: bool, cancelRequested: bool, cancelSent: bool, active: Option<T>,
    device: Device, lastErrno: int, lastStatus: U16,
    completed: nat, failed: nat)

  datatype Task = Task(
    refs: nat, ops: Ops, request: Request, response: Response, deadline: U64,
    result: int, done: bool, abandoned: bool)

  function NewMock<T>(backend: Option<Ops>): Mock<T> {
    match backend
    case Some(ops) => Mock(true, ops, false, false, false, false, false, None, Idle, 0, OK, 0, 0)
    case None => Mock(false, Ops(false, false), false, false, false, false, false, None, Offline, 0, OK, 0, 0)
  }

  function NewTask(ops: Ops, request: Request, deadline: U64): Task {
    Task(2, ops, request, ZERO_RESPONSE, deadline, 0, false, false)
  }

  // ----- admission -----

  datatype Argument = Argument(request: Request, timeout: U64)

  /** `Refuse` carries the errno and the protocol status recorded for it. */
  datatype Screening = Admit(deadline: U64) | Refuse(errno: int, status: U16)

  function Effective(timeout: U64): U64 {
    if timeout == 0 then DEFAULT_TIMEOUT else timeout
  }

  /** Which exchanges are let in. */
  predicate Admissible<T>(m: Mock<T>, arg: Option<Argument>, clock: Option<U64>) {
    && m.sessionOpen && !m.busy && m.attached && m.ops.exchange
    && arg.Some? && clock.Some?
    && arg.value.request.magic == REQUEST_MAGIC && arg.value.request.version == VERSION
    && InRange(arg.value.request)
    && arg.value.timeout <= MAX_TIMEOUT
    && clock.value + Effective(arg.value.timeout) <= U64_MAX
  }

  /** Prevalidation.  `clock` is the monotonic time in nanoseconds, or none when it
      cannot be read.  A refusal's errno is the one its status stands for, except
      for a null argument. */
  function Screen<T>(m: Mock<T>, arg: Option<Argument>, clock: Option<U64>): (r: Screening)
    ensures r.Admit? <==> Admissible(m, arg, clock)
    ensures r.Admit? ==> r.deadline == clock.value + Effective(arg.value.timeout)
    ensures r.Admit? ==> clock.value < r.deadline <= clock.value + MAX_TIMEOUT
    ensures r.Refuse? ==> r.status != OK && r.errno != 0
    ensures r.Refuse? ==> (r.errno == StatusToErrno(r.status) <==> !(m.sessionOpen && arg.None?))
  {
    if !m.sessionOpen then Refuse(EBUSY, BUSY)
    else if arg.None? then Refuse(EINVAL, RANGE)
    else
      var request, timeout := arg.value.request, Effective(arg.value.timeout);
      if request.magic != REQUEST_MAGIC then Refuse(EPROTO, BAD_MAGIC)
      else if request.version != VERSION then Refuse(EPROTONOSUPPORT, BAD_VERSION)
      else if request.command != COMMAND_STATUS && request.command != COMMAND_RUN_GHZ then
        Refuse(EOPNOTSUPP, BAD_COMMAND)
      else if !InRange(request) then Refuse(ERANGE, RANGE)
      else if timeout > MAX_TIMEOUT then Refuse(ERANGE, RANGE)
      else if clock.None? then Refuse(EIO, IO)
      else if U64_MAX - clock.value < timeout then Refuse(ERANGE, RANGE)
      else if m.busy then Refuse(EBUSY, BUSY)
      else if !m.attached || !m.ops.exchange then Refuse(ENODEV, BACKEND_ABSENT)
      else Admit(clock.value + timeout)
  }

  predicate GoodHeader(r: Request) {
    r.magic == REQUEST_MAGIC && r.version == VERSION
  }

  predicate KnownCommand(r: Request) {
    r.command == COMMAND_STATUS || r.command == COMMAND_RUN_GHZ
  }

  /** Everything about a request but the state of the frontend and the clock is good. */
  predicate GoodRequest(arg: Option<Argument>) {
    arg.Some? && GoodHeader(arg.value.request) && InRange(arg.value.request) && arg.value.timeout <= MAX_TIMEOUT
  }

  predicate GoodDeadline(arg: Argument, clock: Option<U64>) {
    clock.Some? && clock.value + Effective(arg.timeout) <= U64_MAX
  }

  /** Each refusal has exactly its cause. */
  lemma RefusedExactly<T>(m: Mock<T>, arg: Option<Argument>, clock: Option<U64>)
    requires Screen(m, arg, clock).Refuse?
    ensures var status, open := Screen(m, arg, clock).status, m.sessionOpen && arg.Some?;
            && (status == BUSY
                <==> !m.sessionOpen || (GoodRequest(arg) && GoodDeadline(arg.value, clock) && m.busy))
            && (status == BAD_MAGIC <==> open && arg.value.request.magic != REQUEST_MAGIC)
            && (status == BAD_VERSION
                <==> open && arg.value.request.magic == REQUEST_MAGIC && arg.value.request.version != VERSION)
            && (status == BAD_COMMAND
                <==> open && GoodHeader(arg.value.request) && !KnownCommand(arg.value.request))
            && (status == RANGE
                <==> || (m.sessionOpen && arg.None?)
                     || (open && GoodHeader(arg.value.request) && KnownCommand(arg.value.request)
                         && (!GoodRequest(arg) || (clock.Some? && !GoodDeadline(arg.value, clock)))))
            && (status == IO <==> m.sessionOpen && GoodRequest(arg) && clock.None?)
            && (status == BACKEND_ABSENT
                <==> && m.sessionOpen && GoodRequest(arg) && GoodDeadline(arg.value, clock) && !m.busy
                     && !(m.attached && m.ops.exchange))
  {
  }

  /** A timeout above the maximum is refused, not clamped. */
  lemma LongTimeoutRefused<T>(m: Mock<T>, arg: Argument, clock: Option<U64>)
    requires m.sessionOpen && InRange(arg.request) && arg.timeout > 5_000_000_000
    requires arg.request.magic == REQUEST_MAGIC && arg.request.version == VERSION
    ensures Screen(m, Some(arg), clock) == Refuse(ERANGE, RANGE)
  {
  }

  /** No timeout given means one second. */
  lemma DefaultTimeout<T>(m: Mock<T>, arg: Argument, clock: U64)
    requires Admissible(m, Some(arg), Some(clock)) && arg.timeout == 0
    ensures Screen(m, Some(arg), Some(clock)) == Admit(clock + 1_000_000_000)
  {
  }

  /** The frontend's fields after a refusal: neither counter moves. */
  function AfterRefusal<T>(m: Mock<T>, errno: int, status: U16): Mock<T> {
    Recorded(if status == BACKEND_ABSENT then m.(device := Offline) else m, errno, status)
  }

  function Recorded<T>(m: Mock<T>, errno: int, status: U16): Mock<T> {
    m.(lastErrno := errno, lastStatus := status)
  }

  function Started<T>(m: Mock<T>, task: T): Mock<T> {
    m.(busy := true, cancelRequested := false, cancelSent := false, device := Busy, active := Some(task))
  }

  // ----- cancellation -----

  /** At most one cancel per exchange is granted. */
  predicate Grants<T>(m: Mock<T>) {
    m.busy && !m.cancelSent
  }

  function AfterCancelRequest<T>(m: Mock<T>): Mock<T> {
    if Grants(m) then m.(cancelRequested := true, cancelSent := true) else m
  }

  // ----- completion -----

  /** The result of an exchange; it succeeded when `errno` is zero. */
  datatype Verdict = Verdict(errno: int, status: U16, offline: bool)

  predicate Consistent(v: Verdict) {
    && v.errno == StatusToErrno(v.status) && KnownStatus(v.status)
    && (v.errno == 0 <==> v.status == OK)
    && (v.offline <==> v.status == BACKEND_ABSENT)
  }

  /** A response frame of this protocol. */
  predicate Framed(response: Response) {
    response.magic == RESPONSE_MAGIC && response.version == VERSION && KnownStatus(response.status)
  }

  /** It declares the device to be what it is and repeats the request's sizes. */
  predicate Echoes(request: Request, response: Response) {
    HasRequiredFlags(response.flags) && response.qubits == request.qubits && response.shots == request.shots
  }

  /** What the status says about a returned response: OK if acceptable, its own error,
      IO if it is no answer to the request, KERNEL if it is but its results cannot be. */
  predicate JudgedAs(request: Request, response: Response, status: U16) {
    && (status == OK <==> Acceptable(request, response))
    && (Framed(response) && response.status != OK ==> status == response.status)
    && (!Framed(response) || (response.status == OK && !Echoes(request, response)) ==> status == IO)
    && (Framed(response) && response.status == OK && Echoes(request, response) ==> status == OK || status == KERNEL)
  }

  /** What the status says about an exchange: TIMEOUT if its wait failed, else CANCELED
      if a cancel was granted or the backend says so, else what became of the backend. */
  predicate Justified(
    expired: bool, cancelled: bool, request: Request, result: int, response: Response, status: U16)
  {
    && (expired ==> status == TIMEOUT)
    && (!expired && (cancelled || result == -ECANCELED) ==> status == CANCELED)
    && (!expired && !cancelled ==>
          && (result == -ENODEV ==> status == BACKEND_ABSENT)
          && (result == -ETIMEDOUT ==> status == TIMEOUT)
          && (result !in {0, -ECANCELED, -ENODEV, -ETIMEDOUT} ==> status == Reported(response))
          && (result == 0 ==> JudgedAs(request, response, status)))
  }

  /** The error that a failed backend left in its response; IO if it left none. */
  function Reported(response: Response): U16 {
    if KnownStatus(response.status) && response.status != OK then response.status else IO
  }

  /** The response check. */
  function Judge(request: Request, response: Response): (v: Verdict)
    ensures Consistent(v) && JudgedAs(request, response, v.status)
    ensures v.errno == 0 <==> Acceptable(request, response)
  {
    if response.magic != RESPONSE_MAGIC || response.version != VERSION || !KnownStatus(response.status) then
      Verdict(EIO, IO, false)
    else if response.status != OK then
      Verdict(StatusToErrno(response.status), response.status, response.status == BACKEND_ABSENT)
    else if !HasRequiredFlags(response.flags) then Verdict(EIO, IO, false)
    else if response.qubits != request.qubits || response.shots != request.shots then
      Verdict(EIO, IO, false)
    else if response.norm > ONE_Q32 then Verdict(EIO, KERNEL, false)
    else if request.command == COMMAND_RUN_GHZ && !GhzResult(request.qubits, response) then Verdict(EIO, KERNEL, false)
    else Verdict(0, OK, false)
  }

  predicate GhzResult(qubits: nat, response: Response) {
    && response.basisStates == Pow2(qubits)
    && (response.measuredState == 0 || response.measuredState == Pow2(qubits) - 1)
    && response.invalidResults == 0
  }

  /** What a response must satisfy to reach the caller. */
  predicate Acceptable(request: Request, response: Response) {
    && response.magic == RESPONSE_MAGIC && response.version == VERSION && response.status == OK
    && HasRequiredFlags(response.flags)
    && response.qubits == request.qubits && response.shots == request.shots
    && response.norm <= ONE_Q32
    && (request.command == COMMAND_RUN_GHZ ==> GhzResult(request.qubits, response))
  }

  /** The result of a finished exchange: success exactly when it was neither timed
      out nor cancelled and the backend returned an acceptable response. */
  function Decide(timedOut: bool, cancelRequested: bool, t: Task): (v: Verdict)
    ensures Consistent(v)
    ensures v.errno == 0 <==> !timedOut && !cancelRequested && t.result == 0 && Acceptable(t.request, t.response)
    ensures Justified(timedOut, cancelRequested, t.request, t.result, t.response, v.status)
  {
    if timedOut then Verdict(ETIMEDOUT, TIMEOUT, false)
    else if cancelRequested || t.result == -ECANCELED then Verdict(ECANCELED, CANCELED, false)
    else if t.result == -ENODEV then Verdict(ENODEV, BACKEND_ABSENT, true)
    else if t.result == -ETIMEDOUT then Verdict(ETIMEDOUT, TIMEOUT, false)
    else if t.result != 0 then
      var status := t.response.status;
      if KnownStatus(status) && status != OK then Verdict(StatusToErrno(status), status, status == BACKEND_ABSENT)
      else Verdict(EIO, IO, false)
    else Judge(t.request, t.response)
  }

  /** The response the caller gets: the backend's whole response or the failure frame. */
  function Delivered(t: Task, v: Verdict): (r: Response)
    requires Consistent(v) && (v.errno == 0 ==> Acceptable(t.request, t.response))
    ensures r.status == v.status
    ensures v.errno == 0 <==> Acceptable(t.request, r)
  {
    if v.errno == 0 then t.response else FailureFrame(t.request, v.status)
  }

  function Finalized<T>(m: Mock<T>, v: Verdict): Mock<T> {
    Recorded(m, v.errno, v.status).(
      completed := if v.errno == 0 then m.completed + 1 else m.completed,
      failed := if v.errno == 0 then m.failed else m.failed + 1,
      busy := false, cancelRequested := false, cancelSent := false,
      device := if v.offline || !m.attached then Offline else Idle)
  }

  function AfterAbandoning<T>(m: Mock<T>): Mock<T> {
    Recorded(m, ETIMEDOUT, TIMEOUT).(failed := m.failed + 1)
  }

  /** The worker's critical section; `orphan` when its caller has abandoned the
      task and the task is still the active one. */
  function AfterWorker<T>(m: Mock<T>, orphan: bool, result: int): Mock<T> {
    if orphan
    then m.(active := None, busy := false, cancelRequested := false, cancelSent := false,
            device := if !m.attached || result == -ENODEV then Offline else Idle)
    else m
  }

  // ----- sessions and backends -----

  function Opened<T>(m: Mock<T>): Mock<T> {
    m.(sessionOpen := true, lockHeld := true)
  }

  function ClosedSession<T>(m: Mock<T>): Mock<T> {
    m.(sessionOpen := false, lockHeld := false)
  }

  function WithBackend<T>(m: Mock<T>, backend: Option<Ops>): Mock<T> {
    match backend
    case None => m.(attached := false, ops := Ops(false, false), device := Offline)
    case Some(ops) => m.(attached := true, ops := ops, device := Idle)
  }

  // ----- the invariant of the fields -----

  /** How the frontend's own fields hang together. */
  predicate MockInv<T>(m: Mock<T>) {
    && (m.busy <==> m.active.Some?)
    && (m.busy <==> m.device == Busy)
    && (m.busy ==> m.sessionOpen && m.attached)
    && (m.sessionOpen <==> m.lockHeld)
    && (m.device == Idle ==> m.attached)
    && (m.attached ==> m.ops.exchange)
    && (m.cancelSent <==> m.cancelRequested)
    && (m.cancelSent ==> m.busy)
  }
}
