/** Moving whole frames over a socket that transfers any number of bytes at a time. */
module Transport {
  import opened Wire

  datatype IoStatus = IoOk | IoTimeout | IoStopped | IoError

  /** What one pass of the loop meets: a transfer (of nothing at end of file), an
      interrupted call, a socket that is not ready followed by the result of
      waiting for it, a raised stop flag, or another error. */
  datatype Event<T> = Transfer(what: T) | Interrupted | NotReady(wait: IoStatus) | StopSet | Broken

  /** A call that has returned, or is still in its loop after the given events. */
  datatype Progress = Returned(status: IoStatus) | InLoop

  function Min(a: nat, b: nat): nat {
    if a < b then a else b
  }

  /** What a pass makes of `completed`: the call returns, or goes on with more. */
  datatype Pass = Ends(status: IoStatus) | GoesOn(completed: nat)

  function OnePass(e: Event<nat>, size: nat, completed: nat): (r: Pass)
    requires completed <= size
    ensures r.GoesOn? ==> completed <= r.completed <= size
    ensures r.Ends? ==> r.status != IoOk
  {
    match e
    case Transfer(n) => if n == 0 then Ends(IoError) else GoesOn(Min(completed + n, size))
    case Interrupted => GoesOn(completed)
    case NotReady(wait) => if wait == IoOk then GoesOn(completed) else Ends(wait)
    case StopSet => Ends(IoStopped)
    case Broken => Ends(IoError)
  }

  /** Where a transfer of `size` bytes stands after the events from `i` on: its
      progress and the number of bytes moved.  Success is moving all of them. */
  function Drive(events: seq<Event<nat>>, i: nat, size: nat, completed: nat): (r: (Progress, nat))
    requires completed <= size && i <= |events|
    ensures completed <= r.1 <= size
    ensures r.0 == Returned(IoOk) <==> r.1 == size
    decreases |events| - i
  {
    if completed == size then (Returned(IoOk), size)
    else if i == |events| then (InLoop, completed)
    else
      match OnePass(events[i], size, completed)
      case Ends(status) => (Returned(status), completed)
      case GoesOn(more) => Drive(events, i + 1, size, more)
  }

  /** The bytes that the events from `i` up to `k` offer to move. */
  function Total(events: seq<Event<nat>>, i: nat, k: nat): nat
    requires i <= k <= |events|
    decreases k - i
  {
    if i == k then 0
    else (if events[i].Transfer? then events[i].what else 0) + Total(events, i + 1, k)
  }

  predicate Harmless(e: Event<nat>) {
    e == Interrupted || e == NotReady(IoOk) || (e.Transfer? && e.what > 0)
  }

  /** The events from `i` up to `k` move what is missing, and none stops the loop. */
  predicate Suffices(events: seq<Event<nat>>, i: nat, k: nat, missing: nat)
    requires i <= |events|
  {
    i <= k <= |events| && (forall j | i <= j < k :: Harmless(events[j])) && Total(events, i, k) >= missing
  }

  ghost predicate EnoughComes(events: seq<Event<nat>>, i: nat, missing: nat)
    requires i <= |events|
  {
    exists k: nat :: Suffices(events, i, k, missing)
  }

  /** Success is exactly: enough bytes come before anything stops the loop. */
  lemma {:induction false} SucceedsExactly(events: seq<Event<nat>>, i: nat, size: nat, completed: nat)
    requires completed <= size && i <= |events|
    ensures Drive(events, i, size, completed).0 == Returned(IoOk) <==> EnoughComes(events, i, size - completed)
    decreases |events| - i
  {
    if completed == size {
      assert Suffices(events, i, i, 0);
    } else if i < |events| {
      var pass := OnePass(events[i], size, completed);
      if pass.GoesOn? {
        SucceedsExactly(events, i + 1, size, pass.completed);
        EnoughLater(events, i, size - completed, size - pass.completed);
      }
    }
  }

  /** Past a harmless event, enough comes if it came before. */
  lemma EnoughLater(events: seq<Event<nat>>, i: nat, missing: nat, left: nat)
    requires i < |events| && missing > 0 && Harmless(events[i])
    requires left == if events[i].Transfer? then missing - Min(events[i].what, missing) else missing
    ensures EnoughComes(events, i, missing) <==> EnoughComes(events, i + 1, left)
  {
    if k: nat :| Suffices(events, i, k, missing) {
      assert Suffices(events, i + 1, k, left);
    }
    var next := i + 1;
    if k: nat :| Suffices(events, next, k, left) {
      assert Total(events, i, k) >= missing;
      assert Suffices(events, i, k, missing);
    }
  }

  /** Why a harmful event ends the loop. */
  predicate Blames(e: Event<nat>, status: IoStatus) {
    && (e == StopSet || e == NotReady(IoStopped) ==> status == IoStopped)
    && (e == NotReady(IoTimeout) ==> status == IoTimeout)
    && (e == Broken || e == NotReady(IoError) || e == Transfer(0) ==> status == IoError)
  }

  /** A transfer that fails does so at its first harmful event, with that event's
      status and exactly the bytes that came before; without one it is still going on. */
  lemma {:induction false} FailsExactly(events: seq<Event<nat>>, i: nat, k: nat, size: nat, completed: nat)
    requires i <= k <= |events| && completed <= size && completed + Total(events, i, k) < size
    requires forall j | i <= j < k :: Harmless(events[j])
    requires k < |events| ==> !Harmless(events[k])
    ensures var r := Drive(events, i, size, completed);
            && r.1 == completed + Total(events, i, k)
            && (if k < |events| then r.0.Returned? && Blames(events[k], r.0.status) else r.0 == InLoop)
    decreases k - i
  {
    if i < k {
      assert Harmless(events[i]);
      var pass := OnePass(events[i], size, completed);
      FailsExactly(events, i + 1, k, size, pass.completed);
    }
  }

  method WriteAll(buffer: array<Byte>, usable: bool, events: seq<Event<nat>>)
    returns (progress: Progress, sent: seq<Byte>)
    ensures sent <= buffer[..]
    ensures usable ==> (progress, |sent|) == Drive(events, 0, buffer.Length, 0)
    ensures usable ==> (progress == Returned(IoOk) <==> sent == buffer[..])
    ensures !usable ==> progress == Returned(IoError) && sent == []
  {
    sent := [];
    if !usable {
      return Returned(IoError), [];
    }
    var completed: nat, i: nat := 0, 0;
    while completed < buffer.Length
      invariant completed <= buffer.Length && i <= |events|
      invariant sent == buffer[..completed]
      invariant Drive(events, i, buffer.Length, completed) == Drive(events, 0, buffer.Length, 0)
      decreases |events| - i
    {
      if i == |events| {
        return InLoop, sent;
      }
      match events[i] {
      case StopSet =>
        return Returned(IoStopped), sent;
      case Broken =>
        return Returned(IoError), sent;
      case Interrupted =>
      case NotReady(wait) =>
        if wait != IoOk {
          return Returned(wait), sent;
        }
      case Transfer(n) =>
        if n == 0 {
          return Returned(IoError), sent;
        }
        var count := Min(n, buffer.Length - completed);
        sent := sent + buffer[completed..completed + count];
        completed := completed + count;
      }
      i := i + 1;
    }
    progress := Returned(IoOk);
  }

  function Length(e: Event<seq<Byte>>): Event<nat> {
    match e
    case Transfer(chunk) => Transfer(|chunk|)
    case Interrupted => Interrupted
    case NotReady(wait) => NotReady(wait)
    case StopSet => StopSet
    case Broken => Broken
  }

  function Lengths(events: seq<Event<seq<Byte>>>): (r: seq<Event<nat>>)
    ensures |r| == |events| && forall i | 0 <= i < |r| :: r[i] == Length(events[i])
  {
    seq(|events|, i requires 0 <= i < |events| => Length(events[i]))
  }

  /** The bytes offered to the reader by the events up to `i`, in order. */
  function Delivered(events: seq<Event<seq<Byte>>>, i: nat): seq<Byte>
    requires i <= |events|
  {
    if i == 0 then []
    else Delivered(events, i - 1) + if events[i - 1].Transfer? then events[i - 1].what else []
  }

  lemma {:induction false} DeliveredGrows(events: seq<Event<seq<Byte>>>, i: nat, k: nat)
    requires i <= k <= |events|
    ensures Delivered(events, i) <= Delivered(events, k)
    decreases k - i
  {
    if i < k {
      DeliveredGrows(events, i + 1, k);
    }
  }

  /** Fills the buffer in place with what is delivered, in order and without gaps. */
  method ReadAll(buffer: array<Byte>, usable: bool, events: seq<Event<seq<Byte>>>)
    returns (progress: Progress, completed: nat)
    modifies buffer
    ensures completed <= buffer.Length && buffer[..completed] <= Delivered(events, |events|)
    ensures buffer[completed..] == old(buffer[completed..])
    ensures usable ==> (progress, completed) == Drive(Lengths(events), 0, buffer.Length, 0)
    ensures usable ==> (progress == Returned(IoOk) <==> completed == buffer.Length)
    ensures !usable ==> progress == Returned(IoError) && completed == 0
  {
    hide Filled, Lengths;
    completed := 0;
    FilledAtFirst(events, buffer.Length);
    if !usable {
      return Returned(IoError), 0;
    }
    ghost var lengths := Lengths(events);
    var i: nat := 0;
    while completed < buffer.Length
      invariant completed <= buffer.Length && i <= |events|
      invariant Filled(events, i, buffer[..completed], buffer.Length)
      invariant buffer[completed..] == old(buffer[completed..])
      invariant Drive(lengths, i, buffer.Length, completed) == Drive(lengths, 0, buffer.Length, 0)
      decreases |events| - i
    {
      FilledIsPrefix(events, i, buffer[..completed], buffer.Length);
      if i == |events| {
        return InLoop, completed;
      }
      match events[i] {
      case StopSet =>
        return Returned(IoStopped), completed;
      case Broken =>
        return Returned(IoError), completed;
      case Interrupted =>
        FilledSame(events, i, buffer[..completed], buffer.Length);
      case NotReady(wait) =>
        if wait != IoOk {
          return Returned(wait), completed;
        }
        FilledSame(events, i, buffer[..completed], buffer.Length);
      case Transfer(chunk) =>
        if chunk == [] {
          return Returned(IoError), completed;
        }
        var count := Min(|chunk|, buffer.Length - completed);
        FilledMore(events, i, buffer[..completed], count, buffer.Length);
        CopyChunk(buffer, completed, chunk, count);
        completed := completed + count;
      }
      i := i + 1;
    }
    FilledIsPrefix(events, i, buffer[..completed], buffer.Length);
    progress := Returned(IoOk);
  }

  /** `part` is all that was offered before event `i`, or a full buffer of it. */
  ghost predicate Filled(events: seq<Event<seq<Byte>>>, i: nat, part: seq<Byte>, size: nat)
    requires i <= |events|
  {
    part <= Delivered(events, i) && (|part| == size || part == Delivered(events, i))
  }

  lemma FilledAtFirst(events: seq<Event<seq<Byte>>>, size: nat)
    ensures Filled(events, 0, [], size) && [] <= Delivered(events, |events|)
  {
  }

  lemma FilledIsPrefix(events: seq<Event<seq<Byte>>>, i: nat, part: seq<Byte>, size: nat)
    requires i <= |events| && Filled(events, i, part, size)
    ensures part <= Delivered(events, |events|)
  {
    DeliveredGrows(events, i, |events|);
  }

  lemma FilledSame(events: seq<Event<seq<Byte>>>, i: nat, part: seq<Byte>, size: nat)
    requires i < |events| && Filled(events, i, part, size) && !events[i].Transfer?
    ensures Filled(events, i + 1, part, size)
  {
  }

  lemma FilledMore(events: seq<Event<seq<Byte>>>, i: nat, part: seq<Byte>, count: nat, size: nat)
    requires i < |events| && |part| < size && Filled(events, i, part, size) && events[i].Transfer?
    requires count == Min(|events[i].what|, size - |part|)
    ensures Filled(events, i + 1, part + events[i].what[..count], size)
  {
    var chunk := events[i].what;
    if count == |chunk| {
      assert chunk[..count] == chunk;
    }
  }

  method CopyChunk(buffer: array<Byte>, at: nat, chunk: seq<Byte>, count: nat)
    requires at + count <= buffer.Length && count <= |chunk|
    modifies buffer
    ensures buffer[..at + count] == old(buffer[..at]) + chunk[..count]
    ensures buffer[at + count..] == old(buffer[at + count..])
  {
    forall k | 0 <= k < count {
      buffer[at + k] := chunk[k];
    }
  }

  // ----- writer, socket and reader together -----

  function Sent(message: seq<Byte>, events: seq<Event<nat>>): seq<Byte> {
    message[..Drive(events, 0, |message|, 0).1]
  }

  function Arrived(events: seq<Event<seq<Byte>>>): seq<Byte> {
    Delivered(events, |events|)
  }

  lemma {:induction false} MovedIsDelivered(events: seq<Event<seq<Byte>>>, i: nat, size: nat, completed: nat)
    requires completed <= size && i <= |events| && completed <= |Delivered(events, i)|
    ensures Drive(Lengths(events), i, size, completed).1 <= |Arrived(events)|
    decreases |events| - i
  {
    DeliveredGrows(events, i, |events|);
    if completed < size && i < |events| {
      var pass := OnePass(Lengths(events)[i], size, completed);
      if pass.GoesOn? {
        MovedIsDelivered(events, i + 1, size, pass.completed);
      }
    }
  }

  /** The socket delivers a prefix of what was sent.  If the reader of a frame
      succeeds, the writer sent all of it and the reader has it unchanged. */
  lemma FrameCrosses(message: seq<Byte>, writes: seq<Event<nat>>, arrivals: seq<Event<seq<Byte>>>)
    requires Arrived(arrivals) <= Sent(message, writes)
    requires Drive(Lengths(arrivals), 0, |message|, 0).0 == Returned(IoOk)
    ensures Drive(writes, 0, |message|, 0).0 == Returned(IoOk)
    ensures Arrived(arrivals) == message
  {
    MovedIsDelivered(arrivals, 0, |message|, 0);
  }

  lemma RequestCrosses(r: DeviceRequest, writes: seq<Event<nat>>, arrivals: seq<Event<seq<Byte>>>)
    requires Arrived(arrivals) <= Sent(RequestBytes(r), writes)
    requires Drive(Lengths(arrivals), 0, REQUEST_SIZE, 0).0 == Returned(IoOk)
    ensures |Arrived(arrivals)| == REQUEST_SIZE && RequestFields(Arrived(arrivals)) == r
  {
    hide Drive, Lengths, RequestBytes, RequestFields;
    FrameCrosses(RequestBytes(r), writes, arrivals);
    RequestReadsBack(r);
  }

  lemma ResponseCrosses(r: DeviceResponse, writes: seq<Event<nat>>, arrivals: seq<Event<seq<Byte>>>)
    requires Arrived(arrivals) <= Sent(ResponseBytes(r), writes)
    requires Drive(Lengths(arrivals), 0, RESPONSE_SIZE, 0).0 == Returned(IoOk)
    ensures |Arrived(arrivals)| == RESPONSE_SIZE && ResponseFields(Arrived(arrivals)) == r
  {
    hide Drive, Lengths, ResponseBytes, ResponseFields;
    FrameCrosses(ResponseBytes(r), writes, arrivals);
    ResponseReadsBack(r);
  }
}
