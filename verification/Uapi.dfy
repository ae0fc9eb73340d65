/** Fixed-width integers and the userspace interface of the virtual device. */
module Ints {
  type U16 = x: nat | x < 0x1_0000
  type U32 = x: nat | x < 0x1_0000_0000
  type U64 = x: nat | x < 0x1_0000_0000_0000_0000

  const U64_MAX: nat := 0xFFFF_FFFF_FFFF_FFFF
}

module Uapi {
  import opened Ints
  import opened Bits

  datatype Option<+T> = None | Some(value: T)

  // ----- error numbers -----

  const EIO: int := 5
  const EAGAIN: int := 11
  const ENOMEM: int := 12
  const EBUSY: int := 16
  const ENODEV: int := 19
  const EINVAL: int := 22
  const ERANGE: int := 34
  const EPROTO: int := 71
  const EPROTONOSUPPORT: int := 93
  const EOPNOTSUPP: int := 95
  const ETIMEDOUT: int := 110
  const ECANCELED: int := 125

  // ----- protocol constants, common to the device wire format -----

  const VERSION: U16 := 1
  const REQUEST_MAGIC: U32 := 0x51445631
  const RESPONSE_MAGIC: U32 := 0x51525631
  const MAX_SHOTS: nat := 100
  const MAX_QUBITS: nat := 20

  const COMMAND_STATUS: U16 := 1
  const COMMAND_RUN_GHZ: U16 := 2

  const OK: U16 := 0
  const BAD_MAGIC: U16 := 1
  const BAD_VERSION: U16 := 2
  const BAD_COMMAND: U16 := 3
  const RANGE: U16 := 4
  const KERNEL: U16 := 5
  const IO: U16 := 6
  const BACKEND_ABSENT: U16 := 7
  const BUSY: U16 := 8
  const TIMEOUT: U16 := 9
  const CANCELED: U16 := 10

  /** Software virtual QCPU, classical host, physical QPU absent, q0 most significant. */
  const REQUIRED_FLAGS: U32 := 15

  /** 1.0 in Q32.32. */
  const ONE_Q32: U64 := 0x1_0000_0000

  datatype Request = Request(magic: U32, version: U16, command: U16, qubits: U32, shots: U32, seed: U64)

  datatype Response = Response(magic: U32, version: U16, status: U16, flags: U32, qubits: U32,
                               basisStates: U64, shots: U64, measuredState: U64, invalidResults: U64,
                               norm: U64)

  const ZERO_RESPONSE := Response(0, 0, 0, 0, 0, 0, 0, 0, 0, 0)

  function StatusToErrno(status: nat): int {
    match status
    case 0 => 0
    case 1 => EPROTO
    case 2 => EPROTONOSUPPORT
    case 3 => EOPNOTSUPP
    case 4 => ERANGE
    case 7 => ENODEV
    case 8 => EBUSY
    case 9 => ETIMEDOUT
    case 10 => ECANCELED
    case _ => EIO
  }

  predicate KnownStatus(status: nat) {
    status <= CANCELED
  }

  predicate HasRequiredFlags(flags: nat) {
    Bit(flags, 0) && Bit(flags, 1) && Bit(flags, 2) && Bit(flags, 3)
  }

  /** The four lowest bits, and no other matters. */
  lemma RequiredFlagsExactly(flags: nat)
    ensures HasRequiredFlags(flags) <==> flags % 16 == 15
  {
    var a := flags / 2;
    var b := a / 2;
    var c := b / 2;
    assert Bit(flags, 1) == Bit(a, 0) && Bit(flags, 2) == Bit(a, 1) && Bit(flags, 3) == Bit(a, 2);
    assert Bit(a, 1) == Bit(b, 0) && Bit(a, 2) == Bit(b, 1) == Bit(c, 0);
    LowDigits(flags, a, b, c, c / 2);
  }

  lemma LowDigits(f: nat, a: nat, b: nat, c: nat, d: nat)
    requires a == f / 2 && b == a / 2 && c == b / 2 && d == c / 2
    ensures f % 16 == 15 <==> f % 2 == 1 && a % 2 == 1 && b % 2 == 1 && c % 2 == 1
  {
    assert f == 2 * a + f % 2 && a == 2 * b + a % 2 && b == 2 * c + b % 2 && c == 2 * d + c % 2;
    assert f == 16 * d + (8 * (c % 2) + 4 * (b % 2) + 2 * (a % 2) + f % 2);
  }

  /** The canonical failure frame: all results zero, the request's sizes echoed. */
  function FailureFrame(request: Request, status: U16): Response {
    Response(RESPONSE_MAGIC, VERSION, status, REQUIRED_FLAGS, request.qubits, 0, request.shots, 0, 0, 0)
  }

  /** The requests that can pass the device: a bare status query, or a GHZ run in range. */
  predicate InRange(r: Request) {
    || (r.command == COMMAND_STATUS && r.qubits == 0 && r.shots == 0)
    || (r.command == COMMAND_RUN_GHZ && 1 <= r.qubits <= MAX_QUBITS && 1 <= r.shots <= MAX_SHOTS)
  }
}
