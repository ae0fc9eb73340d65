/** The frontend's objects and the code of its critical sections, each proved to
    compute the section that the run model steps through. */
module Frontend {
  import opened Ints
  import opened Bits
  import opened Uapi
  import opened FrontendSpec

  /** The caller's exchange record; the response is written in place. */
  class UserExchange {
    const request: Request
    const timeout: U64
    var response: Response

    constructor (request: Request, timeout: U64)
      ensures this.request == request && this.timeout == timeout
    {
      this.request := request;
      this.timeout := timeout;
      response := ZERO_RESPONSE;
    }

    function Arg(): Argument {
      Argument(request, timeout)
    }

    method SetFailureResponse(status: U16)
      modifies this
      ensures response == FailureFrame(request, status)
    {
      response := ZERO_RESPONSE;
      response := response.(magic := RESPONSE_MAGIC, version := VERSION, status := status,
                            flags := REQUIRED_FLAGS, qubits := request.qubits, shots := request.shots);
    }
  }

  /** The record shared by the caller and its detached worker. */
  class ExchangeTask {
    const ops: Ops
    const request: Request
    const deadline: U64
    var refs: nat
    var response: Response
    var result: int
    var done: bool
    var abandoned: bool

    constructor (ops: Ops, request: Request, deadline: U64)
      ensures View() == NewTask(ops, request, deadline)
    {
      this.ops := ops;
      this.request := request;
      this.deadline := deadline;
      refs := 2;
      response := ZERO_RESPONSE;
      result := 0;
      done := false;
      abandoned := false;
    }

    ghost function View(): Task
      reads this
    {
      Task(refs, ops, request, response, deadline, result, done, abandoned)
    }

    /** `last` when the caller of this method has to free the task. */
    method Release() returns (last: bool)
      requires refs > 0
      modifies this
      ensures View() == old(View()).(refs := old(refs) - 1)
      ensures last <==> old(refs) == 1
    {
      last := refs == 1;
      refs := refs - 1;
    }
  }

  /** Checks a backend response clause by clause. */
  method ValidateBackendResponse(request: Request, response: Response) returns (errno: int, status: U16, offline: bool)
    ensures Verdict(errno, status, offline) == Judge(request, response)
    ensures errno == 0 <==> Acceptable(request, response)
  {
    offline := false;
    if response.magic != RESPONSE_MAGIC {
      return EIO, IO, false;
    }
    if response.version != VERSION {
      return EIO, IO, false;
    }
    if !KnownStatus(response.status) {
      return EIO, IO, false;
    }
    if response.status != OK {
      return StatusToErrno(response.status), response.status, response.status == BACKEND_ABSENT;
    }
    if !HasRequiredFlags(response.flags) {
      return EIO, IO, false;
    }
    if response.qubits != request.qubits || response.shots != request.shots {
      return EIO, IO, false;
    }
    if response.norm > ONE_Q32 {
      return EIO, KERNEL, false;
    }
    if request.command == COMMAND_RUN_GHZ {
      if response.basisStates != Pow2(request.qubits) {
        return EIO, KERNEL, false;
      }
      var allOnes := Pow2(request.qubits) - 1;
      if response.measuredState != 0 && response.measuredState != allOnes {
        return EIO, KERNEL, false;
      }
      if response.invalidResults != 0 {
        return EIO, KERNEL, false;
      }
    }
    errno, status := 0, OK;
  }

  /** The failure branch of a backend that returned an error. */
  method BackendError(result: int, reported: U16) returns (errno: int, status: U16, offline: bool)
    requires result != 0 && result != -ECANCELED
    ensures forall t: Task | t.result == result && t.response.status == reported ::
              Verdict(errno, status, offline) == Decide(false, false, t)
  {
    offline := false;
    if result == -ENODEV {
      errno, status, offline := ENODEV, BACKEND_ABSENT, true;
    } else if result == -ETIMEDOUT {
      errno, status := ETIMEDOUT, TIMEOUT;
    } else if KnownStatus(reported) && reported != OK {
      status := reported;
      errno := StatusToErrno(status);
      offline := status == BACKEND_ABSENT;
    } else {
      errno, status := EIO, IO;
    }
  }

  class MockDevice {
    var attached: bool
    var ops: Ops
    var sessionOpen: bool
    var lockHeld: bool
    var busy: bool
    var cancelRequested: bool
    var cancelSent: bool
    var active: ExchangeTask?
    var device: Device
    var lastErrno: int
    var lastStatus: U16
    var completed: nat
    var failed: nat

    constructor (backend: Option<Ops>)
      requires backend.Some? ==> backend.value.exchange
      ensures View() == NewMock(backend)
    {
      attached := backend.Some?;
      ops := if backend.Some? then backend.value else Ops(false, false);
      device := if backend.Some? then Idle else Offline;
      sessionOpen, lockHeld, busy, cancelRequested, cancelSent, active := false, false, false, false, false, null;
      lastErrno, lastStatus, completed, failed := 0, OK, 0, 0;
    }

    ghost function View(): Mock<ExchangeTask?>
      reads this
    {
      Mock(attached, ops, sessionOpen, lockHeld, busy, cancelRequested, cancelSent,
           if active == null then None else Some(active),
           device, lastErrno, lastStatus, completed, failed)
    }

    method RecordResultLocked(errno: int, status: U16)
      modifies this
      ensures View() == Recorded(old(View()), errno, status)
    {
      lastErrno := errno;
      lastStatus := status;
    }

    /** Grants at most one cancel per exchange; `calls` when the backend is to be told. */
    method RequestCancelLocked() returns (calls: bool)
      modifies this
      ensures View() == AfterCancelRequest(old(View()))
      ensures calls == (Grants(old(View())) && old(ops).cancel)
    {
      if !busy || cancelSent {
        return false;
      }
      cancelRequested := true;
      cancelSent := true;
      calls := ops.cancel;
    }

    method FinalizeExchangeLocked(offline: bool, success: bool, errno: int, status: U16)
      requires success <==> errno == 0
      modifies this
      ensures View() == Finalized(old(View()), Verdict(errno, status, offline))
    {
      if success {
        completed := completed + 1;
      } else {
        failed := failed + 1;
      }
      RecordResultLocked(errno, status);
      BecomeFreeLocked(offline);
    }

    /** Not busy any more, and offline if the backend is gone. */
    method BecomeFreeLocked(offline: bool)
      modifies this`busy, this`cancelRequested, this`cancelSent, this`device
      ensures !busy && !cancelRequested && !cancelSent
      ensures device == if offline || !attached then Offline else Idle
    {
      busy := false;
      cancelRequested := false;
      cancelSent := false;
      if offline || !attached {
        device := Offline;
      } else {
        device := Idle;
      }
    }

    /** Prevalidation: the first failed test decides; a refusal is recorded and put
        into the caller's record. */
    method PrevalidateLocked(exchange: UserExchange?, clock: Option<U64>) returns (screening: Screening)
      modifies this, exchange
      ensures screening == Screen(old(View()), if exchange == null then None else Some(exchange.Arg()), clock)
      ensures View() == if screening.Admit? then old(View())
                        else AfterRefusal(old(View()), screening.errno, screening.status)
      ensures exchange != null ==>
                exchange.response == if screening.Admit? then ZERO_RESPONSE
                                     else FailureFrame(exchange.request, screening.status)
    {
      screening := FirstObjection(exchange, clock);
      if sessionOpen && exchange != null {
        exchange.response := ZERO_RESPONSE;
      }
      if screening.Refuse? {
        if screening.status == BACKEND_ABSENT {
          device := Offline;
        }
        if exchange != null {
          exchange.SetFailureResponse(screening.status);
        }
        RecordResultLocked(screening.errno, screening.status);
      }
    }

    /** The tests of prevalidation, in their order. */
    method FirstObjection(exchange: UserExchange?, clock: Option<U64>) returns (screening: Screening)
      ensures screening == Screen(View(), if exchange == null then None else Some(exchange.Arg()), clock)
    {
      if !sessionOpen {
        return Refuse(EBUSY, BUSY);
      }
      if exchange == null {
        return Refuse(EINVAL, RANGE);
      }
      var request := exchange.request;
      if request.magic != REQUEST_MAGIC {
        return Refuse(EPROTO, BAD_MAGIC);
      }
      if request.version != VERSION {
        return Refuse(EPROTONOSUPPORT, BAD_VERSION);
      }
      if request.command != COMMAND_STATUS && request.command != COMMAND_RUN_GHZ {
        return Refuse(EOPNOTSUPP, BAD_COMMAND);
      }
      if request.command == COMMAND_STATUS {
        if request.qubits != 0 || request.shots != 0 {
          return Refuse(ERANGE, RANGE);
        }
      } else if request.qubits == 0 || request.qubits > MAX_QUBITS || request.shots == 0 || request.shots > MAX_SHOTS {
        return Refuse(ERANGE, RANGE);
      }
      var timeout := if exchange.timeout == 0 then DEFAULT_TIMEOUT else exchange.timeout;
      if timeout > MAX_TIMEOUT {
        return Refuse(ERANGE, RANGE);
      }
      if clock.None? {
        return Refuse(EIO, IO);
      }
      if U64_MAX - clock.value < timeout {
        return Refuse(ERANGE, RANGE);
      }
      if busy {
        return Refuse(EBUSY, BUSY);
      }
      if !attached || !ops.exchange {
        return Refuse(ENODEV, BACKEND_ABSENT);
      }
      screening := Admit(clock.value + timeout);
    }

    /** From admission to a started worker, or to the failure of an allocation
        (`memory` false) or of the thread creation (`thread` non-zero). */
    method StartLocked(exchange: UserExchange, deadline: U64, memory: bool, thread: int)
      returns (errno: int, task: ExchangeTask?)
      requires !busy && active == null
      modifies this, exchange
      ensures errno == if !memory then ENOMEM else thread
      ensures errno != 0 ==> && task == null
                             && View() == Finalized(old(View()), Verdict(errno, IO, false))
                             && exchange.response == FailureFrame(exchange.request, IO)
      ensures errno == 0 ==> && task != null && fresh(task)
                             && task.View() == NewTask(ops, exchange.request, deadline)
                             && View() == Started(old(View()), task)
                             && exchange.response == old(exchange.response)
    {
      if !memory {
        exchange.SetFailureResponse(IO);
        FinalizeExchangeLocked(false, false, ENOMEM, IO);
        return ENOMEM, null;
      }
      task := new ExchangeTask(ops, exchange.request, deadline);
      busy := true;
      cancelRequested := false;
      cancelSent := false;
      device := Busy;
      active := task;
      errno := thread;
      if thread != 0 {
        active := null;
        exchange.SetFailureResponse(IO);
        FinalizeExchangeLocked(false, false, thread, IO);
        task := null;
      }
    }

    /** The end of an exchange whose worker is done. */
    method CompleteLocked(task: ExchangeTask, exchange: UserExchange, timedOut: bool) returns (errno: int)
      requires exchange.request == task.request
      modifies this, exchange
      ensures var v := Decide(timedOut, old(cancelRequested), task.View());
              && errno == v.errno
              && View() == Finalized(old(View()).(active := None), v)
              && exchange.response == Delivered(task.View(), v)
    {
      hide Decide;
      var status, offline;
      errno, status, offline := Outcome(task, timedOut);
      if errno == 0 {
        exchange.response := task.response;
      } else {
        exchange.SetFailureResponse(status);
      }
      active := null;
      FinalizeExchangeLocked(offline, errno == 0, errno, status);
    }

    /** The cascade that settles how an exchange ended. */
    method Outcome(task: ExchangeTask, timedOut: bool) returns (errno: int, status: U16, offline: bool)
      ensures Verdict(errno, status, offline) == Decide(timedOut, cancelRequested, task.View())
    {
      offline := false;
      if timedOut {
        errno, status := ETIMEDOUT, TIMEOUT;
      } else if cancelRequested || task.result == -ECANCELED {
        errno, status := ECANCELED, CANCELED;
      } else if task.result != 0 {
        errno, status, offline := BackendError(task.result, task.response.status);
        assert Verdict(errno, status, offline) == Decide(false, false, task.View());
      } else {
        errno, status, offline := ValidateBackendResponse(task.request, task.response);
      }
    }

    /** The caller gives up after the grace period. */
    method AbandonLocked(task: ExchangeTask, exchange: UserExchange)
      requires exchange.request == task.request
      modifies this, task, exchange
      ensures View() == AfterAbandoning(old(View()))
      ensures task.View() == old(task.View()).(abandoned := true)
      ensures exchange.response == FailureFrame(task.request, TIMEOUT)
    {
      task.abandoned := true;
      failed := failed + 1;
      RecordResultLocked(ETIMEDOUT, TIMEOUT);
      exchange.SetFailureResponse(TIMEOUT);
    }

    /** The worker's critical section. */
    method WorkerDoneLocked(task: ExchangeTask, result: int)
      modifies this, task
      ensures task.View() == old(task.View()).(result := result, done := true)
      ensures View() == AfterWorker(old(View()), old(task.abandoned) && old(active) == task, result)
    {
      task.result := result;
      task.done := true;
      if task.abandoned && active == task {
        active := null;
        BecomeFreeLocked(result == -ENODEV);
      }
    }

    /** `failure` is the errno of opening the lock file and setting its mode, `lock`
        that of locking it; zero when they succeed. */
    method Open(failure: int, lock: int) returns (errno: int)
      modifies this
      ensures errno == if old(sessionOpen) then EBUSY
                       else if failure != 0 then failure
                       else if lock == EAGAIN then EBUSY else lock
      ensures View() == if errno == 0 then Opened(old(View())) else old(View())
    {
      if sessionOpen {
        return EBUSY;
      }
      if failure != 0 {
        return failure;
      }
      if lock != 0 {
        return if lock == EAGAIN then EBUSY else lock;
      }
      lockHeld := true;
      sessionOpen := true;
      errno := 0;
    }

    /** The part of closing that ends the session, whatever unlocking and closing the
        lock file give; the first of their errors is reported. */
    method EndSessionLocked(unlock: int, close: int) returns (errno: int)
      requires !busy
      modifies this
      ensures View() == ClosedSession(old(View()))
      ensures errno == if !old(lockHeld) then 0 else if unlock != 0 then unlock else close
    {
      var held := lockHeld;
      lockHeld := false;
      sessionOpen := false;
      errno := 0;
      if held {
        errno := unlock;
        if close != 0 && errno == 0 {
          errno := close;
        }
      }
    }

    /** The first section of closing: refused, waiting for the exchange to end, or
        `ended` at once. */
    method CloseLocked(unlock: int, close: int) returns (errno: int, calls: bool, waits: bool, ended: bool)
      requires busy <==> active != null
      modifies this
      ensures ended == (old(sessionOpen) && !old(busy))
      ensures waits == (old(sessionOpen) && old(busy) && !old(active.abandoned))
      ensures !ended && !waits ==> errno == (if !old(sessionOpen) then EINVAL else EBUSY) && View() == old(View())
      ensures waits ==> errno == 0 && View() == AfterCancelRequest(old(View()))
      ensures ended ==> View() == ClosedSession(old(View()))
      ensures ended ==> errno == if !old(lockHeld) then 0 else if unlock != 0 then unlock else close
      ensures calls == (waits && Grants(old(View())) && old(ops).cancel)
      ensures MockInv(old(View())) ==> MockInv(View())
    {
      errno, calls, waits, ended := 0, false, false, false;
      if !sessionOpen {
        return EINVAL, false, false, false;
      }
      if busy && active != null && active.abandoned {
        return EBUSY, false, false, false;
      }
      if busy {
        calls := RequestCancelLocked();
        waits := true;
      } else {
        errno := EndSessionLocked(unlock, close);
        ended := true;
      }
    }

    method SetBackend(backend: Option<Ops>) returns (errno: int)
      modifies this
      ensures errno == if old(busy) then EBUSY else if backend.Some? && !backend.value.exchange then EINVAL else 0
      ensures View() == if errno == 0 then WithBackend(old(View()), backend) else old(View())
    {
      if busy {
        return EBUSY;
      }
      errno := 0;
      match backend
      case None =>
        ops := Ops(false, false);
        attached := false;
        device := Offline;
      case Some(given) =>
        if !given.exchange {
          return EINVAL;
        }
        ops := given;
        attached := true;
        device := Idle;
    }

    /** Whether destroying may go ahead: exactly when nobody holds the lock file, and
        then no exchange is in progress. */
    method CheckDestroy() returns (errno: int)
      ensures errno == 0 || errno == EBUSY
      ensures errno == 0 <==> !sessionOpen && !busy
      ensures MockInv(View()) ==> (errno == 0 <==> !lockHeld)
      ensures MockInv(View()) && errno == 0 ==> active == null && device != Busy && !cancelSent
    {
      errno := if sessionOpen || busy then EBUSY else 0;
    }
  }

  /** Creating a frontend.  `setup` is the errno of what comes before the backend is
      looked at: memory, runtime directory, mutex and condition. */
  method Create(setup: int, backend: Option<Ops>) returns (errno: int, mock: MockDevice?)
    ensures errno == if setup != 0 then setup else if backend.Some? && !backend.value.exchange then EINVAL else 0
    ensures mock != null <==> errno == 0
    ensures mock != null ==> fresh(mock) && mock.View() == NewMock(backend) && MockInv(mock.View())
    ensures mock != null ==> && mock.attached == backend.Some?
                             && mock.device == (if backend.Some? then Idle else Offline)
                             && !mock.sessionOpen && !mock.busy && mock.completed == mock.failed == 0
  {
    if setup != 0 {
      return setup, null;
    }
    if backend.Some? && !backend.value.exchange {
      return EINVAL, null;
    }
    mock := new MockDevice(backend);
    errno := 0;
  }
}
