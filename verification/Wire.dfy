/** The little-endian wire format of device requests and responses. */
module Wire {
  import opened Ints
  import opened Uapi

  type Byte = b: nat | b < 0x100

  const REQUEST_SIZE: nat := 24
  const RESPONSE_SIZE: nat := 56

  /** The device's request has the shape of the userspace one; in the response the
      norm is the bit pattern of a double. */
  type DeviceRequest = Request
  type DeviceResponse = Response

  // ----- numbers -----

  /** The first `n` base-256 digits of `v`, least significant first. */
  function Bytes(v: nat, n: nat): (r: seq<Byte>)
    ensures |r| == n
  {
    if n == 0 then [] else [v % 0x100] + Bytes(v / 0x100, n - 1)
  }

  function Number(s: seq<Byte>): nat {
    if s == [] then 0 else s[0] + 0x100 * Number(s[1..])
  }

  function Scale(n: nat): (r: nat)
    ensures r >= 1
  {
    if n == 0 then 1 else 0x100 * Scale(n - 1)
  }

  lemma {:induction false} NumberOfBytes(v: nat, n: nat)
    requires v < Scale(n)
    ensures Number(Bytes(v, n)) == v
  {
    if n > 0 {
      NumberOfBytes(v / 0x100, n - 1);
      assert Bytes(v, n)[1..] == Bytes(v / 0x100, n - 1);
    }
  }

  lemma {:induction false} BytesOfNumber(s: seq<Byte>)
    ensures Number(s) < Scale(|s|) && Bytes(Number(s), |s|) == s
  {
    if s != [] {
      BytesOfNumber(s[1..]);
      assert Number(s) / 0x100 == Number(s[1..]) && Number(s) % 0x100 == s[0];
      assert s == [s[0]] + s[1..];
    }
  }

  lemma Scales()
    ensures Scale(2) == 0x1_0000 && Scale(4) == 0x1_0000_0000 && Scale(8) == 0x1_0000_0000_0000_0000
  {
    assert Scale(3) == 0x100 * Scale(2);
    assert Scale(4) == 0x100 * Scale(3);
    assert Scale(5) == 0x100 * Scale(4);
    assert Scale(6) == 0x100 * Scale(5);
    assert Scale(7) == 0x100 * Scale(6);
    assert Scale(8) == 0x100 * Scale(7);
  }

  /** `v >> 8 * k` */
  function Shifted(v: nat, k: nat): nat {
    if k == 0 then v else Shifted(v, k - 1) / 0x100
  }

  lemma {:induction false} ShiftedFirst(v: nat, k: nat)
    ensures Shifted(v, k + 1) == Shifted(v / 0x100, k)
  {
    if k > 0 {
      ShiftedFirst(v, k - 1);
    }
  }

  lemma {:induction false} BytesAt(v: nat, n: nat, k: nat)
    requires k < n
    ensures Bytes(v, n)[k] == Shifted(v, k) % 0x100
  {
    if k > 0 {
      BytesAt(v / 0x100, n - 1, k - 1);
      ShiftedFirst(v, k - 1);
    }
  }

  lemma {:induction false} NumberAppend(s: seq<Byte>, b: Byte)
    ensures Number(s + [b]) == Number(s) + Scale(|s|) * b
  {
    if s == [] {
      assert s + [b] == [b];
      assert [b][1..] == [];
    } else {
      assert (s + [b])[1..] == s[1..] + [b];
      NumberAppend(s[1..], b);
      var lower := Scale(|s| - 1);
      assert 0x100 * (lower * b) == (0x100 * lower) * b;
    }
  }

  /** The bytes of `v` are in place at `at`, and the rest is as `before`. */
  ghost predicate Wrote(before: seq<Byte>, after: seq<Byte>, at: nat, v: nat, size: nat) {
    && at + size <= |before| == |after|
    && after[..at + size] == before[..at] + Bytes(v, size)
    && after[at + size..] == before[at + size..]
  }

  method PutU16(output: array<Byte>, at: nat, v: U16)
    requires at + 2 <= output.Length
    modifies output
    ensures Wrote(old(output[..]), output[..], at, v, 2)
    ensures output[..at + 2] == old(output[..at]) + Bytes(v, 2)
  {
    output[at] := v % 0x100;
    output[at + 1] := v / 0x100;
    assert Bytes(v, 2) == [v % 0x100] + Bytes(v / 0x100, 1);
  }

  method PutU32(output: array<Byte>, at: nat, v: U32)
    requires at + 4 <= output.Length
    modifies output
    ensures Wrote(old(output[..]), output[..], at, v, 4)
    ensures output[..at + 4] == old(output[..at]) + Bytes(v, 4)
  {
    output[at] := v % 0x100;
    output[at + 1] := v / 0x100 % 0x100;
    output[at + 2] := v / 0x1_0000 % 0x100;
    output[at + 3] := v / 0x100_0000;
    FourBytes(v);
  }

  lemma FourBytes(v: U32)
    ensures Bytes(v, 4) == [v % 0x100, v / 0x100 % 0x100, v / 0x1_0000 % 0x100, v / 0x100_0000]
  {
    var v1, v2, v3 := v / 0x100, v / 0x1_0000, v / 0x100_0000;
    assert v2 == v1 / 0x100 && v3 == v2 / 0x100 && v3 < 0x100;
    assert Bytes(v3, 1) == [v3] + Bytes(v3 / 0x100, 0);
    assert Bytes(v2, 2) == [v2 % 0x100] + Bytes(v3, 1);
    assert Bytes(v1, 3) == [v1 % 0x100] + Bytes(v2, 2);
    assert Bytes(v, 4) == [v % 0x100] + Bytes(v1, 3);
  }

  method PutU64(output: array<Byte>, at: nat, v: U64)
    requires at + 8 <= output.Length
    modifies output
    ensures Wrote(old(output[..]), output[..], at, v, 8)
    ensures output[..at + 8] == old(output[..at]) + Bytes(v, 8)
  {
    var index := 0;
    while index < 8
      invariant index <= 8
      invariant forall k | 0 <= k < index :: output[at + k] == Shifted(v, k) % 0x100
      invariant forall k | 0 <= k < at :: output[k] == old(output[k])
      invariant forall k | at + index <= k < output.Length :: output[k] == old(output[k])
    {
      output[at + index] := Shifted(v, index) % 0x100;
      index := index + 1;
    }
    forall k | 0 <= k < 8
      ensures output[at + k] == Bytes(v, 8)[k]
    {
      BytesAt(v, 8, k);
    }
  }

  /** In the readers each shifted byte lies above everything read so far, so joining
      it with `|` is adding it. */
  method GetU16(input: array<Byte>, at: nat) returns (value: U16)
    requires at + 2 <= input.Length
    ensures value == U16At(input[..], at)
  {
    Scales();
    var s := input[at..at + 2];
    assert input[..][at..at + 2] == s;
    assert Number(s) == s[0] + 0x100 * Number(s[1..]);
    assert Number(s[1..]) == s[1] + 0x100 * Number(s[1..][1..]);
    var low: nat, high: nat := input[at], input[at + 1];
    value := low + 0x100 * high;
  }

  method GetU32(input: array<Byte>, at: nat) returns (value: U32)
    requires at + 4 <= input.Length
    ensures value == U32At(input[..], at)
  {
    Scales();
    ghost var s := input[at..at + 4];
    assert input[..][at..at + 4] == s;
    FourDigits(s);
    var b0: nat, b1: nat, b2: nat, b3: nat := input[at], input[at + 1], input[at + 2], input[at + 3];
    value := b0 + 0x100 * b1 + 0x1_0000 * b2 + 0x100_0000 * b3;
  }

  lemma FourDigits(s: seq<Byte>)
    requires |s| == 4
    ensures var b0: nat, b1: nat, b2: nat, b3: nat := s[0], s[1], s[2], s[3];
            Number(s) == b0 + 0x100 * b1 + 0x1_0000 * b2 + 0x100_0000 * b3
  {
    assert Number(s) == s[0] + 0x100 * Number(s[1..]);
    assert Number(s[1..]) == s[1] + 0x100 * Number(s[2..]) by { assert s[1..][1..] == s[2..]; }
    assert Number(s[2..]) == s[2] + 0x100 * Number(s[3..]) by { assert s[2..][1..] == s[3..]; }
    assert Number(s[3..]) == s[3] + 0x100 * Number(s[4..]) by { assert s[3..][1..] == s[4..]; }
  }

  method GetU64(input: array<Byte>, at: nat) returns (value: U64)
    requires at + 8 <= input.Length
    ensures value == U64At(input[..], at)
  {
    var sum: nat := 0;
    var index := 0;
    assert input[at..at + index] == [];
    while index < 8
      invariant index <= 8
      invariant sum == Number(input[at..at + index])
    {
      assert input[at..at + index + 1] == input[at..at + index] + [input[at + index]];
      NumberAppend(input[at..at + index], input[at + index]);
      sum := sum + Scale(index) * input[at + index];
      index := index + 1;
    }
    Scales();
    assert input[..][at..at + 8] == input[at..at + 8];
    BytesOfNumber(input[at..at + 8]);
    value := sum;
  }

  // ----- frames -----

  function RequestBytes(r: DeviceRequest): (s: seq<Byte>)
    ensures |s| == REQUEST_SIZE
  {
    Bytes(r.magic, 4) + Bytes(r.version, 2) + Bytes(r.command, 2) + Bytes(r.qubits, 4)
    + Bytes(r.shots, 4) + Bytes(r.seed, 8)
  }

  function ResponseBytes(r: DeviceResponse): (s: seq<Byte>)
    ensures |s| == RESPONSE_SIZE
  {
    Bytes(r.magic, 4) + Bytes(r.version, 2) + Bytes(r.status, 2) + Bytes(r.flags, 4)
    + Bytes(r.qubits, 4) + Bytes(r.basisStates, 8) + Bytes(r.shots, 8) + Bytes(r.measuredState, 8)
    + Bytes(r.invalidResults, 8) + Bytes(r.norm, 8)
  }

  /** The number in `size` bytes at `at`. */
  function Field(s: seq<Byte>, at: nat, size: nat): (r: nat)
    requires at + size <= |s|
    ensures r < Scale(size)
  {
    BytesOfNumber(s[at..at + size]);
    Number(s[at..at + size])
  }

  function U16At(s: seq<Byte>, at: nat): U16
    requires at + 2 <= |s|
  {
    Scales();
    Field(s, at, 2)
  }

  function U32At(s: seq<Byte>, at: nat): U32
    requires at + 4 <= |s|
  {
    Scales();
    Field(s, at, 4)
  }

  function U64At(s: seq<Byte>, at: nat): U64
    requires at + 8 <= |s|
  {
    Scales();
    Field(s, at, 8)
  }

  function RequestFields(s: seq<Byte>): DeviceRequest
    requires |s| == REQUEST_SIZE
  {
    Request(U32At(s, 0), U16At(s, 4), U16At(s, 6), U32At(s, 8), U32At(s, 12), U64At(s, 16))
  }

  function ResponseFields(s: seq<Byte>): DeviceResponse
    requires |s| == RESPONSE_SIZE
  {
    Response(U32At(s, 0), U16At(s, 4), U16At(s, 6), U32At(s, 8), U32At(s, 12), U64At(s, 16),
             U64At(s, 24), U64At(s, 32), U64At(s, 40), U64At(s, 48))
  }

  // ----- round trips -----

  /** A field written right after `before` reads back. */
  lemma FieldReadsBack(s: seq<Byte>, before: seq<Byte>, v: nat, size: nat)
    requires |before| + size <= |s| && s[..|before| + size] == before + Bytes(v, size) && v < Scale(size)
    ensures Field(s, |before|, size) == v
    ensures s[..|before|] == before
  {
    assert s[..|before|] == s[..|before| + size][..|before|];
    assert s[|before|..|before| + size] == s[..|before| + size][|before|..] == Bytes(v, size);
    NumberOfBytes(v, size);
  }

  /** Reading a field and writing it again gives the same bytes. */
  lemma FieldWritesBack(s: seq<Byte>, at: nat, size: nat)
    requires at + size <= |s|
    ensures s[..at] + Bytes(Field(s, at, size), size) == s[..at + size]
  {
    BytesOfNumber(s[at..at + size]);
    assert s[..at] + s[at..at + size] == s[..at + size];
  }

  lemma RequestReadsBack(r: DeviceRequest)
    ensures RequestFields(RequestBytes(r)) == r
  {
    hide Field, Bytes, Scale;
    Scales();
    var p1 := Bytes(r.magic, 4);
    var p2 := p1 + Bytes(r.version, 2);
    var p3 := p2 + Bytes(r.command, 2);
    var p4 := p3 + Bytes(r.qubits, 4);
    var p5 := p4 + Bytes(r.shots, 4);
    var s := p5 + Bytes(r.seed, 8);
    assert s[..24] == s;
    FieldReadsBack(s, p5, r.seed, 8);
    FieldReadsBack(s, p4, r.shots, 4);
    FieldReadsBack(s, p3, r.qubits, 4);
    FieldReadsBack(s, p2, r.command, 2);
    FieldReadsBack(s, p1, r.version, 2);
    assert [] + p1 == p1;
    FieldReadsBack(s, [], r.magic, 4);
  }

  lemma RequestWritesBack(s: seq<Byte>)
    requires |s| == REQUEST_SIZE
    ensures RequestBytes(RequestFields(s)) == s
  {
    hide Field, Bytes, Scale;
    FieldWritesBack(s, 0, 4);
    FieldWritesBack(s, 4, 2);
    FieldWritesBack(s, 6, 2);
    FieldWritesBack(s, 8, 4);
    FieldWritesBack(s, 12, 4);
    FieldWritesBack(s, 16, 8);
    assert s[..0] + Bytes(Field(s, 0, 4), 4) == Bytes(Field(s, 0, 4), 4);
    assert s[..24] == s;
  }

  lemma ResponseReadsBack(r: DeviceResponse)
    ensures ResponseFields(ResponseBytes(r)) == r
  {
    hide Field, Bytes, Scale;
    Scales();
    var p1 := Bytes(r.magic, 4);
    var p2 := p1 + Bytes(r.version, 2);
    var p3 := p2 + Bytes(r.status, 2);
    var p4 := p3 + Bytes(r.flags, 4);
    var p5 := p4 + Bytes(r.qubits, 4);
    var p6 := p5 + Bytes(r.basisStates, 8);
    var p7 := p6 + Bytes(r.shots, 8);
    var p8 := p7 + Bytes(r.measuredState, 8);
    var p9 := p8 + Bytes(r.invalidResults, 8);
    var s := p9 + Bytes(r.norm, 8);
    assert s[..56] == s;
    FieldReadsBack(s, p9, r.norm, 8);
    FieldReadsBack(s, p8, r.invalidResults, 8);
    FieldReadsBack(s, p7, r.measuredState, 8);
    FieldReadsBack(s, p6, r.shots, 8);
    FieldReadsBack(s, p5, r.basisStates, 8);
    FieldReadsBack(s, p4, r.qubits, 4);
    FieldReadsBack(s, p3, r.flags, 4);
    FieldReadsBack(s, p2, r.status, 2);
    FieldReadsBack(s, p1, r.version, 2);
    assert [] + p1 == p1;
    FieldReadsBack(s, [], r.magic, 4);
  }

  lemma ResponseWritesBack(s: seq<Byte>)
    requires |s| == RESPONSE_SIZE
    ensures ResponseBytes(ResponseFields(s)) == s
  {
    hide Field, Bytes, Scale;
    FieldWritesBack(s, 0, 4);
    FieldWritesBack(s, 4, 2);
    FieldWritesBack(s, 6, 2);
    FieldWritesBack(s, 8, 4);
    FieldWritesBack(s, 12, 4);
    FieldWritesBack(s, 16, 8);
    FieldWritesBack(s, 24, 8);
    FieldWritesBack(s, 32, 8);
    FieldWritesBack(s, 40, 8);
    FieldWritesBack(s, 48, 8);
    assert s[..0] + Bytes(Field(s, 0, 4), 4) == Bytes(Field(s, 0, 4), 4);
    assert s[..56] == s;
  }

  // ----- layout -----

  /** `size` bytes at `at` hold `v`, least significant first. */
  ghost predicate Stands(s: seq<Byte>, at: nat, v: nat, size: nat) {
    at + size <= |s| && forall k | 0 <= k < size :: s[at + k] == Shifted(v, k) % 0x100
  }

  /** Bytes put after `before` stand at its end, and what stood before still does. */
  lemma StandsAfter(before: seq<Byte>, v: nat, size: nat)
    ensures Stands(before + Bytes(v, size), |before|, v, size)
  {
    forall k | 0 <= k < size
      ensures (before + Bytes(v, size))[|before| + k] == Shifted(v, k) % 0x100
    {
      BytesAt(v, size, k);
    }
  }

  lemma StandsStill(s: seq<Byte>, more: seq<Byte>, at: nat, v: nat, size: nat)
    requires Stands(s, at, v, size)
    ensures Stands(s + more, at, v, size)
  {
  }

  /** The offset of every request field. */
  lemma RequestLayout(r: DeviceRequest)
    ensures var s := RequestBytes(r);
            && Stands(s, 0, r.magic, 4) && Stands(s, 4, r.version, 2) && Stands(s, 6, r.command, 2)
            && Stands(s, 8, r.qubits, 4) && Stands(s, 12, r.shots, 4) && Stands(s, 16, r.seed, 8)
  {
    hide Bytes, Stands;
    var p1 := Bytes(r.magic, 4);
    var p2 := p1 + Bytes(r.version, 2);
    var p3 := p2 + Bytes(r.command, 2);
    var p4 := p3 + Bytes(r.qubits, 4);
    var p5 := p4 + Bytes(r.shots, 4);
    assert [] + p1 == p1;
    StandsAfter([], r.magic, 4);
    StandsAfter(p1, r.version, 2);
    StandsAfter(p2, r.command, 2);
    StandsAfter(p3, r.qubits, 4);
    StandsAfter(p4, r.shots, 4);
    StandsAfter(p5, r.seed, 8);
    var rest5 := Bytes(r.seed, 8);
    var rest4 := Bytes(r.shots, 4) + rest5;
    var rest3 := Bytes(r.qubits, 4) + rest4;
    var rest2 := Bytes(r.command, 2) + rest3;
    var rest1 := Bytes(r.version, 2) + rest2;
    var s := RequestBytes(r);
    assert s == p5 + rest5;
    assert s == p4 + rest4;
    assert s == p3 + rest3;
    assert s == p2 + rest2;
    assert s == p1 + rest1;
    StandsStill(p5, rest5, 12, r.shots, 4);
    StandsStill(p4, rest4, 8, r.qubits, 4);
    StandsStill(p3, rest3, 6, r.command, 2);
    StandsStill(p2, rest2, 4, r.version, 2);
    StandsStill(p1, rest1, 0, r.magic, 4);
  }

  /** The offset of every response field. */
  lemma ResponseLayout(r: DeviceResponse)
    ensures var s := ResponseBytes(r);
            && Stands(s, 0, r.magic, 4) && Stands(s, 4, r.version, 2) && Stands(s, 6, r.status, 2)
            && Stands(s, 8, r.flags, 4) && Stands(s, 12, r.qubits, 4) && Stands(s, 16, r.basisStates, 8)
            && Stands(s, 24, r.shots, 8) && Stands(s, 32, r.measuredState, 8)
            && Stands(s, 40, r.invalidResults, 8) && Stands(s, 48, r.norm, 8)
  {
    hide Bytes, Stands;
    var p5 := ResponseHead(r);
    var p6 := p5 + Bytes(r.basisStates, 8);
    var p7 := p6 + Bytes(r.shots, 8);
    var p8 := p7 + Bytes(r.measuredState, 8);
    var p9 := p8 + Bytes(r.invalidResults, 8);
    ResponseHeadLayout(r);
    StandsAfter(p5, r.basisStates, 8);
    StandsAfter(p6, r.shots, 8);
    StandsAfter(p7, r.measuredState, 8);
    StandsAfter(p8, r.invalidResults, 8);
    StandsAfter(p9, r.norm, 8);
    var rest9 := Bytes(r.norm, 8);
    var rest8 := Bytes(r.invalidResults, 8) + rest9;
    var rest7 := Bytes(r.measuredState, 8) + rest8;
    var rest6 := Bytes(r.shots, 8) + rest7;
    var rest5 := Bytes(r.basisStates, 8) + rest6;
    var s := ResponseBytes(r);
    assert s == p9 + rest9;
    assert s == p8 + rest8;
    assert s == p7 + rest7;
    assert s == p6 + rest6;
    assert s == p5 + rest5;
    StandsStill(p9, rest9, 40, r.invalidResults, 8);
    StandsStill(p8, rest8, 32, r.measuredState, 8);
    StandsStill(p7, rest7, 24, r.shots, 8);
    StandsStill(p6, rest6, 16, r.basisStates, 8);
    StandsStill(p5, rest5, 12, r.qubits, 4);
    StandsStill(p5, rest5, 8, r.flags, 4);
    StandsStill(p5, rest5, 6, r.status, 2);
    StandsStill(p5, rest5, 4, r.version, 2);
    StandsStill(p5, rest5, 0, r.magic, 4);
  }

  /** The first sixteen bytes of a response. */
  function ResponseHead(r: DeviceResponse): (s: seq<Byte>)
    ensures |s| == 16
  {
    Bytes(r.magic, 4) + Bytes(r.version, 2) + Bytes(r.status, 2) + Bytes(r.flags, 4) + Bytes(r.qubits, 4)
  }

  lemma ResponseHeadLayout(r: DeviceResponse)
    ensures var s := ResponseHead(r);
            && Stands(s, 0, r.magic, 4) && Stands(s, 4, r.version, 2) && Stands(s, 6, r.status, 2)
            && Stands(s, 8, r.flags, 4) && Stands(s, 12, r.qubits, 4)
  {
    hide Bytes, Stands;
    var p1 := Bytes(r.magic, 4);
    var p2 := p1 + Bytes(r.version, 2);
    var p3 := p2 + Bytes(r.status, 2);
    var p4 := p3 + Bytes(r.flags, 4);
    assert [] + p1 == p1;
    StandsAfter([], r.magic, 4);
    StandsAfter(p1, r.version, 2);
    StandsAfter(p2, r.status, 2);
    StandsAfter(p3, r.flags, 4);
    StandsAfter(p4, r.qubits, 4);
    var rest4 := Bytes(r.qubits, 4);
    var rest3 := Bytes(r.flags, 4) + rest4;
    var rest2 := Bytes(r.status, 2) + rest3;
    var rest1 := Bytes(r.version, 2) + rest2;
    var s := ResponseHead(r);
    assert s == p4 + rest4;
    assert s == p3 + rest3;
    assert s == p2 + rest2;
    assert s == p1 + rest1;
    StandsStill(p4, rest4, 8, r.flags, 4);
    StandsStill(p3, rest3, 6, r.status, 2);
    StandsStill(p2, rest2, 4, r.version, 2);
    StandsStill(p1, rest1, 0, r.magic, 4);
  }

  // ----- encoding and decoding -----

  method EncodeRequest(output: array<Byte>, r: DeviceRequest)
    requires output.Length == REQUEST_SIZE
    modifies output
    ensures output[..] == RequestBytes(r)
  {
    hide Bytes, Wrote;
    PutU32(output, 0, r.magic);
    assert output[..4] == Bytes(r.magic, 4);
    PutU16(output, 4, r.version);
    PutU16(output, 6, r.command);
    PutU32(output, 8, r.qubits);
    PutU32(output, 12, r.shots);
    PutU64(output, 16, r.seed);
    assert output[..24] == output[..];
  }

  method EncodeResponse(output: array<Byte>, r: DeviceResponse)
    requires output.Length == RESPONSE_SIZE
    modifies output
    ensures output[..] == ResponseBytes(r)
  {
    hide Bytes, Wrote;
    PutU32(output, 0, r.magic);
    assert output[..4] == Bytes(r.magic, 4);
    PutU16(output, 4, r.version);
    PutU16(output, 6, r.status);
    PutU32(output, 8, r.flags);
    PutU32(output, 12, r.qubits);
    PutU64(output, 16, r.basisStates);
    PutU64(output, 24, r.shots);
    PutU64(output, 32, r.measuredState);
    PutU64(output, 40, r.invalidResults);
    PutU64(output, 48, r.norm);
    assert output[..56] == output[..];
  }

  /** The status of a decoded frame. */
  function FrameStatus(magic: U32, version: U16, expected: U32): (status: U16)
    ensures status == OK <==> magic == expected && version == 1
    ensures status == BAD_MAGIC <==> magic != expected
    ensures status == BAD_VERSION <==> magic == expected && version != 1
  {
    if magic != expected then BAD_MAGIC else if version != VERSION then BAD_VERSION else OK
  }

  /** Decoding fails with IO exactly on a wrong size; otherwise every field is read,
      whatever the status. */
  method DecodeRequest(input: array<Byte>) returns (status: U16, r: Option<DeviceRequest>)
    ensures r.Some? <==> input.Length == REQUEST_SIZE
    ensures r.None? ==> status == IO
    ensures r.Some? ==> r.value == RequestFields(input[..]) && RequestBytes(r.value) == input[..]
    ensures r.Some? ==> status == FrameStatus(r.value.magic, r.value.version, REQUEST_MAGIC)
  {
    hide U16At, U32At, U64At, RequestBytes;
    if input.Length != REQUEST_SIZE {
      return IO, None;
    }
    var magic := GetU32(input, 0);
    var version := GetU16(input, 4);
    var command := GetU16(input, 6);
    var qubits := GetU32(input, 8);
    var shots := GetU32(input, 12);
    var seed := GetU64(input, 16);
    r := Some(Request(magic, version, command, qubits, shots, seed));
    RequestWritesBack(input[..]);
    if magic != REQUEST_MAGIC {
      return BAD_MAGIC, r;
    }
    if version != VERSION {
      return BAD_VERSION, r;
    }
    status := OK;
  }

  method DecodeResponse(input: array<Byte>) returns (status: U16, r: Option<DeviceResponse>)
    ensures r.Some? <==> input.Length == RESPONSE_SIZE
    ensures r.None? ==> status == IO
    ensures r.Some? ==> r.value == ResponseFields(input[..]) && ResponseBytes(r.value) == input[..]
    ensures r.Some? ==> status == FrameStatus(r.value.magic, r.value.version, RESPONSE_MAGIC)
  {
    hide U16At, U32At, U64At, ResponseBytes;
    if input.Length != RESPONSE_SIZE {
      return IO, None;
    }
    var magic := GetU32(input, 0);
    var version := GetU16(input, 4);
    var code := GetU16(input, 6);
    var flags := GetU32(input, 8);
    var qubits := GetU32(input, 12);
    var basisStates := GetU64(input, 16);
    var shots := GetU64(input, 24);
    var measuredState := GetU64(input, 32);
    var invalidResults := GetU64(input, 40);
    var norm := GetU64(input, 48);
    r := Some(Response(magic, version, code, flags, qubits, basisStates, shots, measuredState, invalidResults, norm));
    ResponseWritesBack(input[..]);
    if magic != RESPONSE_MAGIC {
      return BAD_MAGIC, r;
    }
    if version != VERSION {
      return BAD_VERSION, r;
    }
    status := OK;
  }
}
