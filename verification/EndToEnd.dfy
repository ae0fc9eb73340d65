/** A request's whole way: adapter, wire, daemon, kernel, wire, adapter, validator. */
module EndToEnd {
  import opened Bits
  import opened Uapi
  import opened FixedPoint
  import opened Wire
  import opened Transport
  import opened Adapter
  import opened Daemon
  import Gates
  import FrontendSpec

  predicate KnownCommand(r: Request) {
    r.command == COMMAND_STATUS || r.command == COMMAND_RUN_GHZ
  }

  /** What the adapter sends for a request. */
  function Forwarded(r: Request): DeviceRequest {
    r.(magic := REQUEST_MAGIC, version := VERSION)
  }

  /** The requests whose result the frontend accepts. */
  predicate Servable(r: Request, memory: Memory) {
    InRange(r) && (r.command == COMMAND_RUN_GHZ ==> memory == Memory(true, true))
  }

  lemma ReplyToForwarded(r: Request, memory: Memory)
    ensures Reply(RequestBytes(Forwarded(r)), memory) == Answer(Forwarded(r), memory)
  {
    hide RequestBytes, RequestFields, Answer;
    RequestReadsBack(Forwarded(r));
  }

  lemma AnswerNorm(r: Request, memory: Memory)
    ensures var norm := Answer(Forwarded(r), memory).norm;
            if r.command == COMMAND_RUN_GHZ && Servable(r, memory)
            then DoubleOf(norm) == Finite(1.0) else DoubleOf(norm) == Finite(0.0)
  {
    hide DoubleOf, FinalState, Pow2;
    OneIsOne();
    ZeroIsZero();
  }

  lemma ConvertedNorms()
    ensures ToQ32(Finite(1.0)) == Some(ONE_Q32) && ToQ32(Finite(0.0)) == Some(0)
  {
    RoundsToOne(1.0);
  }

  /** The daemon's response, translated, passes the frontend's validator exactly for
      a status query with zero sizes and for a GHZ run in range whose allocations
      succeed; the GHZ norm is then exactly 2^32 and the measured state is the one
      that seed and shots determine. */
  lemma AcceptedExactly(r: Request, memory: Memory, d: DeviceResponse)
    requires KnownCommand(r) && Same(d, Answer(Forwarded(r), memory))
    ensures var t := Translation(d);
            && (t.0 == 0 && FrontendSpec.Acceptable(r, t.1) <==> Servable(r, memory))
            && (Servable(r, memory) ==> t.1.norm == if r.command == COMMAND_RUN_GHZ then ONE_Q32 else 0)
            && (Servable(r, memory) && r.command == COMMAND_RUN_GHZ ==> t.1.measuredState == FinalState(Forwarded(r)))
  {
    hide DoubleOf, ToQ32, Convertible, Nearest, FinalState, Pow2;
    AnswerNorm(r, memory);
    ConvertedNorms();
    AllFlags();
  }

  lemma AllFlags()
    ensures HasRequiredFlags(REQUIRED_FLAGS)
  {
    assert Bit(15, 1) == Bit(7, 0);
    assert Bit(15, 2) == Bit(7, 1) == Bit(3, 0);
    assert Bit(15, 3) == Bit(7, 2) == Bit(3, 1) == Bit(1, 0);
  }

  /** So an undisturbed exchange succeeds at the frontend exactly for those requests. */
  lemma ExchangeSucceedsExactly(t: FrontendSpec.Task, memory: Memory, d: DeviceResponse)
    requires KnownCommand(t.request) && Same(d, Answer(Forwarded(t.request), memory))
    requires (t.result, t.response) == Translation(d)
    ensures FrontendSpec.Decide(false, false, t).errno == 0 <==> Servable(t.request, memory)
  {
    hide FrontendSpec.Decide, FrontendSpec.Acceptable, Same, Answer, Translation;
    AcceptedExactly(t.request, memory, d);
  }

  // ----- the sockets in between -----

  function Taken(e: Event<nat>, left: nat): (r: nat)
    ensures r <= left
  {
    if e.Transfer? then Min(e.what, left) else 0
  }

  /** What a reader meets when the socket holds `sent` from `from` on. */
  function Cut(e: Event<nat>, sent: seq<Byte>, from: nat): Event<seq<Byte>>
    requires from <= |sent|
  {
    match e
    case Transfer(n) => Transfer(sent[from..from + Taken(e, |sent| - from)])
    case Interrupted => Interrupted
    case NotReady(wait) => NotReady(wait)
    case StopSet => StopSet
    case Broken => Broken
  }

  /** The chunks in which a socket hands over `sent`; nothing once it is used up. */
  function Carve(sent: seq<Byte>, from: nat, schedule: seq<Event<nat>>): (r: seq<Event<seq<Byte>>>)
    requires from <= |sent|
    ensures |r| == |schedule|
    decreases |schedule|
  {
    if schedule == [] then []
    else [Cut(schedule[0], sent, from)] + Carve(sent, from + Taken(schedule[0], |sent| - from), schedule[1..])
  }

  lemma {:induction false} DeliveredAfter(first: Event<seq<Byte>>, rest: seq<Event<seq<Byte>>>, i: nat)
    requires i <= |rest|
    ensures Delivered([first] + rest, i + 1) == (if first.Transfer? then first.what else []) + Delivered(rest, i)
  {
    if i > 0 {
      DeliveredAfter(first, rest, i - 1);
    } else {
      assert Delivered([first] + rest, 0) == [];
    }
  }

  lemma {:induction false} CarvedInOrder(sent: seq<Byte>, from: nat, schedule: seq<Event<nat>>)
    requires from <= |sent|
    ensures Arrived(Carve(sent, from, schedule)) <= sent[from..]
    decreases |schedule|
  {
    hide Delivered, Taken, Cut;
    if schedule == [] {
      NothingArrives();
    } else {
      var cut := Cut(schedule[0], sent, from);
      var next := from + Taken(schedule[0], |sent| - from);
      var rest := Carve(sent, next, schedule[1..]);
      CutBytes(schedule[0], sent, from);
      CarvedInOrder(sent, next, schedule[1..]);
      DeliveredAfter(cut, rest, |rest|);
      assert sent[from..] == sent[from..next] + sent[next..];
    }
  }

  lemma NothingArrives()
    ensures Arrived([]) == []
  {
  }

  lemma CutBytes(e: Event<nat>, sent: seq<Byte>, from: nat)
    requires from <= |sent|
    ensures var cut := Cut(e, sent, from);
            (if cut.Transfer? then cut.what else []) == sent[from..from + Taken(e, |sent| - from)]
  {
  }

  lemma {:induction false} DriveTail(e: Event<nat>, rest: seq<Event<nat>>, i: nat, size: nat, completed: nat)
    requires completed <= size && i <= |rest|
    ensures Drive([e] + rest, i + 1, size, completed) == Drive(rest, i, size, completed)
    decreases |rest| - i
  {
    if completed < size && i < |rest| {
      var pass := OnePass(rest[i], size, completed);
      if pass.GoesOn? {
        DriveTail(e, rest, i + 1, size, pass.completed);
      }
    }
  }

  lemma DriveHead(e: Event<nat>, rest: seq<Event<nat>>, size: nat, completed: nat)
    requires completed < size
    ensures var pass := OnePass(e, size, completed);
            Drive([e] + rest, 0, size, completed)
            == if pass.Ends? then (Returned(pass.status), completed) else Drive(rest, 0, size, pass.completed)
  {
    var pass := OnePass(e, size, completed);
    if pass.GoesOn? {
      DriveTail(e, rest, 0, size, pass.completed);
    }
  }

  lemma LengthsHead(e: Event<seq<Byte>>, rest: seq<Event<seq<Byte>>>)
    ensures Lengths([e] + rest) == [Length(e)] + Lengths(rest)
  {
  }

  lemma CutKeepsPass(e: Event<nat>, sent: seq<Byte>, from: nat)
    requires from < |sent|
    ensures OnePass(Length(Cut(e, sent, from)), |sent|, from) == OnePass(e, |sent|, from)
    ensures OnePass(e, |sent|, from).GoesOn? ==> OnePass(e, |sent|, from).completed == from + Taken(e, |sent| - from)
  {
  }

  /** Running out of bytes never stops a reader that wants no more than was sent. */
  lemma {:induction false} CarvingKeepsDrive(sent: seq<Byte>, from: nat, schedule: seq<Event<nat>>)
    requires from <= |sent|
    ensures Drive(Lengths(Carve(sent, from, schedule)), 0, |sent|, from) == Drive(schedule, 0, |sent|, from)
    decreases |schedule|, 1
  {
    if schedule == [] || from == |sent| {
      NothingToDo(Lengths(Carve(sent, from, schedule)), |sent|, from);
      NothingToDo(schedule, |sent|, from);
    } else {
      CarvingKeepsFirst(sent, from, schedule);
    }
  }

  lemma NothingToDo(events: seq<Event<nat>>, size: nat, completed: nat)
    requires completed <= size && (completed == size || events == [])
    ensures Drive(events, 0, size, completed) == (if completed == size then Returned(IoOk) else InLoop, completed)
  {
  }

  lemma {:induction false} CarvingKeepsFirst(sent: seq<Byte>, from: nat, schedule: seq<Event<nat>>)
    requires from < |sent| && schedule != []
    ensures Drive(Lengths(Carve(sent, from, schedule)), 0, |sent|, from) == Drive(schedule, 0, |sent|, from)
    decreases |schedule|, 0
  {
    hide Lengths, Drive, Length, Cut, Taken, OnePass;
    var e := schedule[0];
    var next := from + Taken(e, |sent| - from);
    var rest := Carve(sent, next, schedule[1..]);
    LengthsHead(Cut(e, sent, from), rest);
    assert schedule == [e] + schedule[1..];
    DriveHead(e, schedule[1..], |sent|, from);
    DriveHead(Length(Cut(e, sent, from)), Lengths(rest), |sent|, from);
    CutKeepsPass(e, sent, from);
    CarvingKeepsDrive(sent, next, schedule[1..]);
  }

  /** Reading a frame of `size` bytes succeeds exactly when the whole frame was sent
      and enough of it comes. */
  lemma ReadsExactly(sent: seq<Byte>, schedule: seq<Event<nat>>, size: nat)
    requires |sent| <= size
    ensures Drive(Lengths(Carve(sent, 0, schedule)), 0, size, 0).0 == Returned(IoOk)
       <==> |sent| == size && EnoughComes(schedule, 0, size)
  {
    hide Drive, Lengths, Carve, EnoughComes;
    var arrivals := Carve(sent, 0, schedule);
    CarvedInOrder(sent, 0, schedule);
    MovedIsDelivered(arrivals, 0, size, 0);
    CarvingKeepsDrive(sent, 0, schedule);
    SucceedsExactly(schedule, 0, size, 0);
  }

  /** What the surroundings do during an exchange: the descriptor or the error of
      connecting, whether time remains at the three checks, whether the half-close
      works, whether a cancel comes before the descriptor is registered or after,
      and the four transfer schedules.  A schedule that ends before its transfer does
      stands for one that runs into the deadline. */
  datatype Network = Network(
    connected: Option<nat>, connectError: int,
    early: bool, midway: bool, late: bool, halfClose: bool,
    cancelEarly: bool, cancelLate: bool,
    requestOut: seq<Event<nat>>, requestIn: seq<Event<nat>>,
    responseOut: seq<Event<nat>>, responseIn: seq<Event<nat>>)

  /** Every frame gets through. */
  ghost predicate Conveys(net: Network) {
    && net.halfClose && net.late
    && EnoughComes(net.requestOut, 0, REQUEST_SIZE) && EnoughComes(net.requestIn, 0, REQUEST_SIZE)
    && EnoughComes(net.responseOut, 0, RESPONSE_SIZE) && EnoughComes(net.responseIn, 0, RESPONSE_SIZE)
  }

  ghost predicate Reaches(net: Network) {
    net.early && net.connected.Some? && net.midway && Conveys(net)
  }

  function IoError(progress: Progress): (r: int)
    ensures r == IoResult(Slot(true, None, false), if progress.InLoop? then IoTimeout else progress.status)
  {
    if progress.InLoop? || progress.status == IoTimeout then -ETIMEDOUT else -EIO
  }

  /** The bytes are a prefix of a response frame that answers `r`. */
  ghost predicate Answers(r: DeviceRequest, memory: Memory, bytes: seq<Byte>) {
    && |bytes| <= RESPONSE_SIZE
    && exists d: DeviceResponse :: Same(d, Answer(r, memory)) && bytes <= ResponseBytes(d)
  }

  lemma ServedBytes(r: DeviceRequest, memory: Memory, request: seq<Byte>, writes: seq<Event<nat>>, sent: seq<Byte>)
    requires Forwarded(r) == r && request == RequestBytes(r) && Replies(request, memory, writes, sent)
    ensures Answers(r, memory, sent)
    ensures |sent| <= RESPONSE_SIZE && (|sent| == RESPONSE_SIZE <==> EnoughComes(writes, 0, RESPONSE_SIZE))
  {
    hide Same, Answer, RequestBytes, ResponseBytes, RequestFields, Drive, EnoughComes;
    SucceedsExactly(writes, 0, RESPONSE_SIZE, 0);
    ReplyToForwarded(r, memory);
    var d: DeviceResponse :| Same(d, Reply(request, memory)) && sent == Sent(ResponseBytes(d), writes);
    assert sent <= ResponseBytes(d);
  }

  lemma ReceivedAnswer(r: DeviceRequest, memory: Memory, sent: seq<Byte>, received: seq<Byte>)
    requires Answers(r, memory, sent) && received <= sent && |received| == RESPONSE_SIZE
    ensures Same(ResponseFields(received), Answer(r, memory))
  {
    hide Same, Answer, ResponseBytes, ResponseFields;
    var d: DeviceResponse :| Same(d, Answer(r, memory)) && sent <= ResponseBytes(d);
    assert received == ResponseBytes(d);
    ResponseReadsBack(d);
  }

  lemma AnswerIsFramed(r: DeviceRequest, memory: Memory, d: DeviceResponse)
    requires Same(d, Answer(r, memory))
    ensures d.magic == RESPONSE_MAGIC && d.version == VERSION
  {
    hide DoubleOf, FinalState, Pow2;
  }

  /** Both frames cross, whatever the chunks: the device response that comes back is
      the daemon's answer to the request that went out. */
  method Converse(r: DeviceRequest, scale: real, memory: Memory, net: Network)
    returns (result: int, d: Option<DeviceResponse>)
    requires Gates.InverseRootTwo(scale) && Forwarded(r) == r
    ensures result == 0 <==> d.Some?
    ensures result == 0 || result == -ETIMEDOUT || result == -EIO
    ensures d.Some? ==> Same(d.value, Answer(r, memory))
    ensures d.Some? <==> Conveys(net)
  {
    hide EnoughComes, Answers, Replies, Answer, Same, Drive, Lengths, Carve;
    hide RequestBytes, ResponseBytes, RequestFields, ResponseFields, Gates.InverseRootTwo;
    d := None;
    var wire := new Byte[REQUEST_SIZE](_ => 0);
    EncodeRequest(wire, r);
    SucceedsExactly(net.requestOut, 0, REQUEST_SIZE, 0);
    var written, sent := WriteAll(wire, true, net.requestOut);
    if written != Returned(IoOk) {
      return IoError(written), None;
    }
    if !net.halfClose {
      return -EIO, None;
    }
    if !net.late {
      return -ETIMEDOUT, None;
    }
    var arrivals := Carve(sent, 0, net.requestIn);
    CarvedInOrder(sent, 0, net.requestIn);
    assert sent[0..] == RequestBytes(r);
    ReadsExactly(sent, net.requestIn, REQUEST_SIZE);
    var _, replied := Serve(scale, memory, true, arrivals, net.responseOut);
    if Drive(Lengths(arrivals), 0, REQUEST_SIZE, 0).0 == Returned(IoOk) {
      assert Arrived(arrivals)[..REQUEST_SIZE] == RequestBytes(r);
      ServedBytes(r, memory, RequestBytes(r), net.responseOut, replied);
    }
    result, d := Receive(r, memory, replied, net.responseIn);
  }

  /** The adapter's reading of the response. */
  method Receive(ghost r: DeviceRequest, ghost memory: Memory, replied: seq<Byte>, schedule: seq<Event<nat>>)
    returns (result: int, d: Option<DeviceResponse>)
    requires replied != [] ==> Answers(r, memory, replied)
    requires |replied| <= RESPONSE_SIZE
    ensures result == 0 <==> d.Some?
    ensures result == 0 || result == -ETIMEDOUT || result == -EIO
    ensures d.Some? ==> Same(d.value, Answer(r, memory))
    ensures d.Some? <==> |replied| == RESPONSE_SIZE && EnoughComes(schedule, 0, RESPONSE_SIZE)
  {
    hide EnoughComes, Answer, Same, Answers, Drive, Lengths, Carve, ResponseBytes, ResponseFields;
    var input := new Byte[RESPONSE_SIZE](_ => 0);
    var arrivals := Carve(replied, 0, schedule);
    CarvedInOrder(replied, 0, schedule);
    assert replied[0..] == replied;
    ReadsExactly(replied, schedule, RESPONSE_SIZE);
    var read, count := ReadAll(input, true, arrivals);
    if read != Returned(IoOk) {
      return IoError(read), None;
    }
    assert input[..count] == input[..];
    ReceivedAnswer(r, memory, replied, input[..]);
    AnswerIsFramed(r, memory, ResponseFields(input[..]));
    var status, decoded := DecodeResponse(input);
    if status != OK {
      return -EIO, None;
    }
    result, d := 0, decoded;
  }

  ghost predicate Cancelled(net: Network) {
    net.cancelEarly || net.cancelLate
  }

  /** The end of an exchange, after a last cancel if there is one. */
  method FinishAfter(adapter: QcpudAdapter, cancel: bool, result: int) returns (final: int)
    requires adapter.active
    modifies adapter
    ensures adapter.View() == FREE
    ensures final == if cancel || old(adapter.cancelRequested) then -ECANCELED else result
  {
    if cancel {
      var _ := adapter.Cancel();
    }
    final := adapter.Finish(result);
  }

  /** What an exchange may come back with: an error and a zeroed response, or the
      translated answer of the daemon, its result possibly overridden by a cancel. */
  ghost predicate ComesBack(request: Request, memory: Memory, result: int, response: Response) {
    || (result != 0 && response == ZERO_RESPONSE)
    || (KnownCommand(request) && exists d: DeviceResponse ::
          && Same(d, Answer(Forwarded(request), memory))
          && response == Translation(d).1 && (result == Translation(d).0 || result == -ECANCELED))
  }

  /** The result of an exchange that ends before it talks to the daemon. */
  predicate EarlyResult(request: Request, net: Network, result: int) {
    && (!KnownCommand(request) ==> result == -EOPNOTSUPP)
    && (KnownCommand(request) && !net.early ==> result == -ETIMEDOUT)
    && (KnownCommand(request) && net.early && net.connected.None? ==> result == net.connectError)
    && (KnownCommand(request) && net.early && net.connected.Some? && !net.midway ==> result == -ETIMEDOUT)
  }

  /** The adapter's exchange: the slot is taken and freed, a cancellation is reported
      exactly if a cancel came, and an acceptable response comes back exactly if the
      request is servable and nothing on the way disturbs it. */
  method Exchange(adapter: QcpudAdapter, request: Request, scale: real, memory: Memory, net: Network)
    returns (result: int, response: Response)
    requires Gates.InverseRootTwo(scale)
    requires net.connectError == -ETIMEDOUT || net.connectError == -ENODEV || net.connectError == -EIO
    modifies adapter
    ensures old(adapter.active) ==> result == -EBUSY && adapter.View() == old(adapter.View())
    ensures !old(adapter.active) ==> adapter.View() == FREE
    ensures !old(adapter.active) ==> (result == -ECANCELED <==> Cancelled(net))
    ensures !old(adapter.active) && !Cancelled(net) ==> Settles(result)
    ensures ComesBack(request, memory, result, response)
    ensures !old(adapter.active) && !Cancelled(net) ==> EarlyResult(request, net, result)
    ensures result == 0 && FrontendSpec.Acceptable(request, response)
       <==> !old(adapter.active) && Servable(request, memory) && Reaches(net) && !Cancelled(net)
  {
    hide Conveys, Answer, Same, Translation, FrontendSpec.Acceptable, Gates.InverseRootTwo;
    response := ZERO_RESPONSE;
    result := adapter.Begin();
    if result != 0 {
      return;
    }
    if net.cancelEarly {
      var _ := adapter.Cancel();
    }
    var r;
    result, r := TranslateRequest(request);
    if result != 0 {
      result := FinishAfter(adapter, net.cancelLate, result);
      return;
    }
    if !net.early {
      result := FinishAfter(adapter, net.cancelLate, -ETIMEDOUT);
      return;
    }
    if net.connected.None? {
      result := FinishAfter(adapter, net.cancelLate, net.connectError);
      return;
    }
    var canceled := adapter.RegisterFd(net.connected.value);
    if canceled {
      result := FinishAfter(adapter, net.cancelLate, -ECANCELED);
      return;
    }
    if !net.midway {
      result := FinishAfter(adapter, net.cancelLate, -ETIMEDOUT);
      return;
    }
    var d;
    result, d := Converse(r, scale, memory, net);
    if d.Some? {
      result, response := TranslateResponse(d.value);
      AcceptedExactly(request, memory, d.value);
    }
    result := FinishAfter(adapter, net.cancelLate, result);
  }
}
