/** The backend adapter: its cancellable exchange slot and its translations between
    the userspace and the device protocol. */
module Adapter {
  import opened Ints
  import opened Bits
  import opened Uapi
  import opened FixedPoint
  import opened Wire
  import opened Transport

  // ----- the slot, as a value -----

  /** `fd` is the registered descriptor. */
  datatype Slot = Slot(active: bool, fd: Option<nat>, cancelRequested: bool)

  function Begun(s: Slot): Slot {
    if s.active then s else Slot(true, None, false)
  }

  function WithFd(s: Slot, fd: nat): Slot {
    s.(fd := Some(fd))
  }

  const FREE := Slot(false, None, false)

  function Cancelled(s: Slot): Slot {
    if s.active then s.(cancelRequested := true) else s
  }

  function FinalResult(s: Slot, result: int): int {
    if s.cancelRequested then -ECANCELED else result
  }

  function IoResult(s: Slot, status: IoStatus): (r: int)
    ensures r == -ECANCELED <==> s.cancelRequested
    ensures !s.cancelRequested ==> (r == -ETIMEDOUT <==> status == IoTimeout) && (r == -EIO <==> status != IoTimeout)
  {
    if s.cancelRequested then -ECANCELED else if status == IoTimeout then -ETIMEDOUT else -EIO
  }

  class QcpudAdapter {
    var active: bool
    var activeFd: int
    var cancelRequested: bool

    constructor ()
      ensures View() == FREE
    {
      active, activeFd, cancelRequested := false, -1, false;
    }

    ghost function View(): Slot
      reads this
    {
      Slot(active, if activeFd < 0 then None else Some(activeFd), cancelRequested)
    }

    method Begin() returns (result: int)
      modifies this
      ensures View() == Begun(old(View()))
      ensures result == if old(active) then -EBUSY else 0
    {
      if active {
        return -EBUSY;
      }
      active := true;
      cancelRequested := false;
      activeFd := -1;
      result := 0;
    }

    /** `canceled` when the descriptor has been shut down already. */
    method RegisterFd(fd: nat) returns (canceled: bool)
      modifies this
      ensures View() == WithFd(old(View()), fd)
      ensures canceled == old(cancelRequested)
    {
      activeFd := fd;
      canceled := cancelRequested;
    }

    /** The slot is free before the caller closes the descriptor. */
    method Finish(result: int) returns (final: int)
      modifies this
      ensures View() == FREE
      ensures final == FinalResult(old(View()), result)
    {
      var canceled := cancelRequested;
      activeFd := -1;
      active := false;
      cancelRequested := false;
      final := if canceled then -ECANCELED else result;
    }

    /** `target` is the descriptor that is shut down. */
    method Cancel() returns (target: Option<nat>)
      modifies this
      ensures View() == Cancelled(old(View()))
      ensures target == if old(active) then old(View()).fd else None
    {
      target := None;
      if active {
        cancelRequested := true;
        if activeFd >= 0 {
          target := Some(activeFd);
        }
      }
    }
  }

  /** What an exchange can come to by itself; a cancellation is not among it. */
  predicate Settles(result: int)
    ensures Settles(result) ==> result != -ECANCELED
  {
    result in {0, -EPROTO, -EPROTONOSUPPORT, -EOPNOTSUPP, -ERANGE, -EIO, -ETIMEDOUT, -ENODEV}
  }

  // ----- translations -----

  /** Statuses the device can report keep their meaning; any other becomes IO. */
  function TranslateStatus(status: U16): (r: U16)
    ensures r <= IO && (r == OK <==> status == OK)
    ensures status <= IO ==> r == status
  {
    if status <= IO then status else IO
  }

  /** The negated errno that the frontend's table gives for a translated status. */
  function StatusResult(status: U16): (r: int)
    ensures status <= IO ==> r == -StatusToErrno(status)
  {
    match status
    case 0 => 0
    case 1 => -EPROTO
    case 2 => -EPROTONOSUPPORT
    case 3 => -EOPNOTSUPP
    case 4 => -ERANGE
    case _ => -EIO
  }

  /** A number from its low bit and the rest. */
  function Above(bit: bool, rest: nat): (r: nat)
    ensures Bit(r, 0) == bit
    ensures forall p: nat {:trigger Bit(r, p)} | p > 0 :: Bit(r, p) == Bit(rest, p - 1)
  {
    var r := (if bit then 1 else 0) + 2 * rest;
    assert r / 2 == rest;
    r
  }

  /** The four known flags of a device response. */
  function KnownFlags(flags: U32): (r: U32)
    ensures r < 16 && Bit(r, 0) == Bit(flags, 0) && Bit(r, 1) == Bit(flags, 1)
    ensures Bit(r, 2) == Bit(flags, 2) && Bit(r, 3) == Bit(flags, 3)
    ensures HasRequiredFlags(r) <==> HasRequiredFlags(flags)
  {
    Above(Bit(flags, 0), Above(Bit(flags, 1), Above(Bit(flags, 2), Above(Bit(flags, 3), 0))))
  }

  /** Sets the known flags one by one. */
  method TranslateFlags(flags: U32) returns (r: U32)
    ensures r == KnownFlags(flags)
  {
    hide Bit;
    r := 0;
    if Bit(flags, 0) {
      r := r + 1;
    }
    if Bit(flags, 1) {
      r := r + 2;
    }
    if Bit(flags, 2) {
      r := r + 4;
    }
    if Bit(flags, 3) {
      r := r + 8;
    }
  }

  /** A request of an unknown command is refused; any other goes through unchanged
      but for the header. */
  method TranslateRequest(request: Request) returns (result: int, r: DeviceRequest)
    ensures result == 0 <==> request.command == COMMAND_STATUS || request.command == COMMAND_RUN_GHZ
    ensures (result == 0 || result == -EOPNOTSUPP) && Settles(result)
    ensures result == 0 ==> r == request.(magic := REQUEST_MAGIC, version := VERSION)
  {
    r := Request(REQUEST_MAGIC, VERSION, 0, 0, 0, 0);
    if request.command == COMMAND_STATUS {
      r := r.(command := COMMAND_STATUS);
    } else if request.command == COMMAND_RUN_GHZ {
      r := r.(command := COMMAND_RUN_GHZ);
    } else {
      return -EOPNOTSUPP, r;
    }
    r := r.(qubits := request.qubits, shots := request.shots, seed := request.seed);
    result := 0;
  }

  /** The response with its flags reduced and its norm converted to `norm`. */
  function Translated(source: DeviceResponse, status: U16, norm: U64): Response {
    source.(magic := RESPONSE_MAGIC, version := VERSION, status := status, flags := KnownFlags(source.flags),
            norm := norm)
  }

  /** Result and response for a device response.  Success is exactly an OK status
      with a convertible norm; result and status agree, and a translated norm never
      exceeds one. */
  function Translation(source: DeviceResponse): (t: (int, Response))
    ensures t.0 == 0 <==> source.status == OK && Convertible(DoubleOf(source.norm))
    ensures t.0 == -StatusToErrno(t.1.status) && t.1.status <= IO && t.1.norm <= ONE_Q32
    ensures Settles(t.0)
  {
    Converted(source, ToQ32(DoubleOf(source.norm)))
  }

  /** The same for a norm that has been converted, or not. */
  function Converted(source: DeviceResponse, norm: Option<U64>): (t: (int, Response))
    requires norm.Some? ==> norm.value <= ONE_Q32
    ensures t.0 == 0 <==> source.status == OK && norm.Some?
    ensures t.0 == -StatusToErrno(t.1.status) && t.1.status <= IO && t.1.norm <= ONE_Q32
    ensures Settles(t.0)
  {
    match norm
    case None => (-EIO, Translated(source, KERNEL, 0))
    case Some(norm) =>
      var status := TranslateStatus(source.status);
      (StatusResult(status), Translated(source, status, norm))
  }

  method TranslateResponse(source: DeviceResponse) returns (result: int, r: Response)
    ensures (result, r) == Translation(source)
  {
    hide DoubleOf, ToQ32;
    var flags := TranslateFlags(source.flags);
    r := ZERO_RESPONSE;
    r := r.(magic := RESPONSE_MAGIC, version := VERSION, status := TranslateStatus(source.status), flags := flags,
            qubits := source.qubits, basisStates := source.basisStates, shots := source.shots,
            measuredState := source.measuredState, invalidResults := source.invalidResults);
    var norm := NormToQ32(source.norm);
    if norm.None? {
      r := r.(status := KERNEL);
      return -EIO, r;
    }
    r := r.(norm := norm.value);
    result := StatusResult(r.status);
  }
}
