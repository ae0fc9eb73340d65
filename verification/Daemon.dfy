/** The daemon: requests served by driving the kernel. */
module Daemon {
  import opened Bits
  import opened Uapi
  import opened FixedPoint
  import opened Wire
  import opened Transport
  import opened Gates
  import opened Rng
  import opened Ghz
  import opened Kernel
  import K = KernelSpec

  /** Which of the kernel's two allocations succeed. */
  datatype Memory = Memory(amplitudes: bool, counts: bool)

  const BLANK := ZERO_RESPONSE.(magic := RESPONSE_MAGIC, version := VERSION, flags := REQUIRED_FLAGS)

  /** The state that the closing measurement of a GHZ run reports: the draw after
      the last shot decides between all zeros and all ones. */
  function FinalState(r: DeviceRequest): (state: nat)
    requires r.qubits <= MAX_QUBITS
    ensures state < Pow2(r.qubits) && (state == 0 || state == Pow2(r.qubits) - 1)
  {
    if Unit(Output(StateAfter(r.seed, r.shots + 1))) < 0.5 then 0 else Pow2(r.qubits) - 1
  }

  lemma Million()
    ensures Pow2(20) == 0x10_0000
  {
    assert Pow2(5) == 32;
    assert Pow2(10) == 1024;
    assert Pow2(15) == 0x8000;
  }

  lemma Small(n: nat)
    requires n <= MAX_QUBITS
    ensures Pow2(n) <= 0x10_0000
  {
    hide Pow2;
    Million();
    Pow2Monotone(n, 20);
  }

  /** The response to a decoded request. */
  function Answer(r: DeviceRequest, memory: Memory): DeviceResponse {
    if r.command == COMMAND_STATUS then BLANK
    else if r.command != COMMAND_RUN_GHZ then BLANK.(status := BAD_COMMAND)
    else if !InRange(r) then BLANK.(status := RANGE)
    else if memory != Memory(true, true) then BLANK.(status := KERNEL)
    else
      Small(r.qubits);
      BLANK.(qubits := r.qubits, basisStates := Pow2(r.qubits), shots := r.shots,
             measuredState := FinalState(r), norm := ONE_PATTERN)
  }

  /** Each status of an answer has exactly its cause, and only an OK answer to a GHZ
      request holds results. */
  lemma AnsweredExactly(r: DeviceRequest, memory: Memory)
    ensures var a := Answer(r, memory);
            && a.magic == 0x51525631 && a.version == 1 && a.flags == 15
            && (a.status == BAD_COMMAND <==> r.command != 1 && r.command != 2)
            && (a.status == RANGE
                <==> r.command == 2 && !(1 <= r.qubits <= 20 && 1 <= r.shots <= 100))
            && (a.status == KERNEL
                <==> && r.command == 2 && 1 <= r.qubits <= 20 && 1 <= r.shots <= 100
                     && !(memory.amplitudes && memory.counts))
            && (a.status in {OK, BAD_COMMAND, RANGE, KERNEL})
            && (a.status == OK && r.command == 2 ==>
                  && a.qubits == r.qubits && a.shots == r.shots && a.basisStates == Pow2(r.qubits)
                  && a.invalidResults == 0 && a.norm == 0x3FF0_0000_0000_0000)
            && (a.status != OK || r.command == 1 ==>
                  a.qubits == a.basisStates == a.shots == a.measuredState == a.invalidResults == a.norm == 0)
  {
    hide FinalState, Pow2;
  }

  // ----- the kernel states a GHZ request goes through -----

  function Prepared(r: DeviceRequest, s: real): (k: K.State)
    requires r.qubits > 0
    ensures K.Ready(k) && k.qubits == r.qubits
  {
    K.GhzChain(K.Initial(r.qubits, r.seed), s, r.qubits - 1)
  }

  lemma PreparedIsGhz(r: DeviceRequest, s: real)
    requires r.qubits > 0 && InverseRootTwo(s)
    ensures K.Coherent(Prepared(r, s)) && Prepared(r, s).vector == GhzVector(r.qubits, s)
    ensures Prepared(r, s).rng == InitialState(r.seed)
  {
    hide K.Coherent, K.GhzChain, GhzVector;
    var k := K.Initial(r.qubits, r.seed);
    K.GhzChainCoherent(k, s, r.qubits - 1);
    GhzCorrect(k, s);
  }

  lemma {:induction false} ShotsDraw(k: K.State, seed: Word, shots: nat)
    requires k.rng == InitialState(seed)
    ensures K.AfterShots(k, shots).rng == StateAfter(seed, shots)
  {
    hide NextState;
    if shots > 0 {
      ShotsDraw(k, seed, shots - 1);
    }
  }

  /** The measurement after the shots finds the state that the seed determines, and
      leaves unit norm. */
  lemma MeasuredState(r: DeviceRequest, s: real)
    requires r.qubits > 0 && InverseRootTwo(s) && r.qubits <= MAX_QUBITS
    ensures var k := K.AfterShots(Prepared(r, s), r.shots);
            && K.AfterMeasure(k).measuredState == FinalState(r)
            && Norm(K.AfterMeasure(k).vector) == 1.0
  {
    hide K.Scan, Mass, GhzVector, Prepared, NextState, Output, Unit;
    var k := Prepared(r, s);
    PreparedIsGhz(r, s);
    K.ShotsCoherent(k, r.shots);
    var last := K.AfterShots(k, r.shots);
    ShotsDraw(k, r.seed, r.shots);
    K.MeasureCoherent(last);
    GhzFairCoin(r.qubits, s, Unit(Output(K.Drawn(last).rng)));
  }

  // ----- counting results that are not GHZ outcomes -----

  function Strays(counts: seq<nat>, final: nat): nat {
    if counts == [] then 0
    else
      var last := |counts| - 1;
      Strays(counts[..last], final) + if last != 0 && last != final then counts[last] else 0
  }

  method CountInvalid(counts: array<nat>, final: nat) returns (invalid: nat)
    ensures invalid == Strays(counts[..], final)
  {
    invalid := 0;
    var state := 0;
    while state < counts.Length
      invariant 0 <= state <= counts.Length
      invariant invalid == Strays(counts[..state], final)
    {
      assert counts[..state + 1][..state] == counts[..state];
      if state != 0 && state != final {
        invalid := invalid + counts[state];
      }
      state := state + 1;
    }
    assert counts[..counts.Length] == counts[..];
  }

  lemma {:induction false} NoStrays(counts: seq<nat>, final: nat)
    ensures Strays(counts, final) == 0 <==> forall i | 0 < i < |counts| && i != final :: counts[i] == 0
  {
    if counts != [] {
      var last := |counts| - 1;
      NoStrays(counts[..last], final);
    }
  }

  /** None of the shots on a prepared GHZ state strays. */
  lemma ShotsNeverStray(r: DeviceRequest, s: real)
    requires r.qubits > 0 && InverseRootTwo(s)
    ensures Strays(K.Histogram(Pow2(r.qubits), K.Outcomes(Prepared(r, s), r.shots)), Pow2(r.qubits) - 1) == 0
  {
    hide K.Outcomes, GhzVector, Prepared, K.Coherent;
    var k := Prepared(r, s);
    PreparedIsGhz(r, s);
    var states := K.Outcomes(k, r.shots);
    var final := Pow2(r.qubits) - 1;
    forall i | 0 < i < Pow2(r.qubits) && i != final
      ensures multiset(states)[i] == 0
    {
      if i in states {
        var j :| 0 <= j < |states| && states[j] == i;
        GhzOutcomes(k, s, r.shots, j);
      }
    }
    NoStrays(K.Histogram(Pow2(r.qubits), states), final);
  }

  // ----- serving -----

  /** Prepares the GHZ state and checks its norm: both succeed on a fresh kernel. */
  method PrepareGhz(kernel: QcpuKernel, r: DeviceRequest) returns (status: K.Status)
    requires kernel.Valid() && kernel.IsReady() && InverseRootTwo(kernel.scale)
    requires r.qubits > 0 && kernel.View() == K.Initial(r.qubits, r.seed)
    modifies kernel, kernel.amplitudes
    ensures kernel.Valid() && kernel.IsReady() && kernel.amplitudes == old(kernel.amplitudes)
    ensures status == K.Ok && kernel.View() == Prepared(r, kernel.scale)
  {
    hide K.GhzChain, K.Initial, Pow2, Mass, InverseRootTwo, GhzVector;
    status := kernel.ApplyGhz();
    if status == K.Ok {
      PreparedIsGhz(r, kernel.scale);
      status := kernel.Validate(0.000000000001);
    }
  }

  /** Runs the shots, counts the stray results, and measures. */
  method ObserveGhz(kernel: QcpuKernel, r: DeviceRequest, memory: bool)
    returns (status: K.Status, invalid: nat, measured: nat)
    requires kernel.Valid() && kernel.IsReady() && InverseRootTwo(kernel.scale)
    requires 0 < r.qubits <= MAX_QUBITS && r.shots > 0 && kernel.View() == Prepared(r, kernel.scale)
    modifies kernel, kernel.amplitudes
    ensures kernel.Valid() && kernel.IsReady()
    ensures status == if memory then K.Ok else K.ErrAlloc
    ensures status == K.Ok ==> invalid == 0 && measured == FinalState(r)
    ensures status == K.Ok ==> kernel.stateCount == Pow2(r.qubits) && Norm(kernel.View().vector) == 1.0
  {
    hide K.AfterShots, K.AfterMeasure, K.Outcomes, K.Histogram;
    hide Prepared, InverseRootTwo, FinalState, Mass, Pow2, Strays;
    invalid, measured := 0, 0;
    var counts;
    status, counts := kernel.RunShots(r.shots, memory);
    if status != K.Ok {
      return;
    }
    var finalState := kernel.stateCount - 1;
    invalid := CountInvalid(counts, finalState);
    ShotsNeverStray(r, kernel.scale);
    MeasuredState(r, kernel.scale);
    status, measured := kernel.Measure();
  }

  /** Equal but for the bits that represent the norm. */
  ghost predicate Same(a: DeviceResponse, b: DeviceResponse) {
    a.(norm := 0) == b.(norm := 0) && DoubleOf(a.norm) == DoubleOf(b.norm)
  }

  /** A GHZ request in range is answered with the state its seed determines, no
      stray result and norm one; out of range or out of memory with a blank response. */
  method ProcessRunGhz(r: DeviceRequest, scale: real, memory: Memory) returns (response: DeviceResponse)
    requires InverseRootTwo(scale) && r.command == COMMAND_RUN_GHZ
    ensures Same(response, Answer(r, memory))
  {
    hide DoubleOf, K.Initial, Prepared, InverseRootTwo, FinalState, Mass, Pow2;
    response := BLANK;
    if r.qubits == 0 || r.qubits > MAX_QUBITS || r.shots == 0 || r.shots > MAX_SHOTS {
      response := response.(status := RANGE);
      return;
    }
    var kernel := new QcpuKernel(scale);
    var status := kernel.Init(r.qubits, r.seed, memory.amplitudes);
    if status != K.Ok {
      response := response.(status := KERNEL);
      return;
    }
    status := PrepareGhz(kernel, r);
    var invalid, measured;
    status, invalid, measured := ObserveGhz(kernel, r, memory.counts);
    if status != K.Ok {
      response := response.(status := KERNEL);
      return;
    }
    Small(r.qubits);
    var norm := kernel.ComputeNorm();
    OneIsOne();
    assert Encodes(ONE_PATTERN, norm);
    var bits := BitsOf(norm);
    response := response.(status := OK, qubits := r.qubits, basisStates := kernel.stateCount, shots := r.shots,
                          measuredState := measured, invalidResults := invalid, norm := bits);
  }

  method ProcessRequest(r: DeviceRequest, scale: real, memory: Memory) returns (response: DeviceResponse)
    requires InverseRootTwo(scale)
    ensures Same(response, Answer(r, memory))
  {
    hide DoubleOf, InverseRootTwo, FinalState, Pow2;
    if r.command == COMMAND_STATUS {
      response := BLANK.(status := OK);
    } else if r.command == COMMAND_RUN_GHZ {
      response := ProcessRunGhz(r, scale, memory);
    } else {
      response := BLANK.(status := BAD_COMMAND);
    }
  }

  /** The response to the bytes of a request, well-formed or not. */
  function Reply(request: seq<Byte>, memory: Memory): DeviceResponse
    requires |request| == REQUEST_SIZE
  {
    var r := RequestFields(request);
    var status := FrameStatus(r.magic, r.version, REQUEST_MAGIC);
    if status == OK then Answer(r, memory) else BLANK.(status := status)
  }

  /** A frame of another protocol or version is told so and nothing else. */
  lemma BadFramesAreTold(request: seq<Byte>, memory: Memory)
    requires |request| == REQUEST_SIZE
    ensures var r, reply := RequestFields(request), Reply(request, memory);
            && (r.magic != 0x51445631 ==> reply == BLANK.(status := 1))
            && (r.magic == 0x51445631 && r.version != 1 ==> reply == BLANK.(status := 2))
            && (r.magic == 0x51445631 && r.version == 1 ==> reply == Answer(r, memory))
  {
    hide RequestFields, Answer;
  }

  /** What was sent is what the write schedule lets through of a reply frame. */
  ghost predicate Replies(request: seq<Byte>, memory: Memory, writes: seq<Event<nat>>, sent: seq<Byte>)
    requires |request| == REQUEST_SIZE
  {
    exists response: DeviceResponse ::
      Same(response, Reply(request, memory)) && sent == Sent(ResponseBytes(response), writes)
  }

  /** One connection: a response frame is written only after a whole request frame
      was read, and it carries the reply to that frame. */
  method Serve(scale: real, memory: Memory, usable: bool, arrivals: seq<Event<seq<Byte>>>, writes: seq<Event<nat>>)
    returns (ok: bool, sent: seq<Byte>)
    requires InverseRootTwo(scale)
    ensures if !usable || Drive(Lengths(arrivals), 0, REQUEST_SIZE, 0).0 != Returned(IoOk) then !ok && sent == []
            else
              && REQUEST_SIZE <= |Arrived(arrivals)|
              && Replies(Arrived(arrivals)[..REQUEST_SIZE], memory, writes, sent)
              && (ok <==> Drive(writes, 0, RESPONSE_SIZE, 0).0 == Returned(IoOk))
  {
    hide DoubleOf, InverseRootTwo, Answer, Drive, ResponseBytes, RequestFields, RequestBytes;
    var wire := new Byte[REQUEST_SIZE](_ => 0);
    var read, count := ReadAll(wire, usable, arrivals);
    if read != Returned(IoOk) {
      return false, [];
    }
    assert wire[..count] == wire[..];
    assert wire[..] == Arrived(arrivals)[..REQUEST_SIZE];
    var status, request := DecodeRequest(wire);
    var response := BLANK;
    if status != OK {
      response := response.(status := status);
    } else {
      response := ProcessRequest(request.value, scale, memory);
    }
    var out := new Byte[RESPONSE_SIZE](_ => 0);
    EncodeResponse(out, response);
    var written;
    written, sent := WriteAll(out, true, writes);
    ok := written == Returned(IoOk);
    assert Same(response, Reply(Arrived(arrivals)[..REQUEST_SIZE], memory));
  }
}
