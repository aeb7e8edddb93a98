/** The reader accepts exactly noise followed by raw packets, refuses damaged packets, and cancels its own echo. */
module KsuTheory {
  import opened Bits
  import opened Crc16
  import opened CrcTheory
  import opened DataPackets
  import opened KsuLine
  import opened Sequences

  // ----- the language of the reader

  function KsuFrame(cmd: byte, payload: seq<byte>): seq<byte> {
    RawPacket(KSU_ADDRESS, cmd, payload)
  }

  /** A command byte and payload whose (command, length) pair the reader knows. */
  predicate Known(cmd: byte, payload: seq<byte>) {
    |payload| + 1 < 0x1_0000 && LengthMatches(cmd, |payload| + 1)
  }

  /** What is to be delivered: an information reply carries the write mode above its command byte, nothing else does. */
  function PacketOf(cmd: byte, payload: seq<byte>, writeMode: byte): Packet
    requires |payload| + 1 < 0x1_0000
  {
    Packet(if IsCommand(cmd, |payload| + 1) then TypeCmd else TypeAck,
           if cmd == 0x64 then writeMode * 0x100 + 0x64 else cmd,
           payload)
  }

  lemma {:induction false} DeliveredIs(cmd: byte, payload: seq<byte>, writeMode: byte)
    requires |payload| + 1 < 0x1_0000
    ensures PacketOf(cmd, payload, writeMode) ==
            Packet(TypeOf(cmd, |payload| + 1), FullCommand(cmd, writeMode), payload)
  {
    PairsAre(cmd, |payload| + 1);
  }

  lemma {:induction false} AsDataConcat(x: seq<byte>, y: seq<byte>, tail: Line)
    ensures AsData(x + y) + tail == AsData(x) + (AsData(y) + tail)
  {
  }

  lemma {:induction false} HuntSkipsNoise(noise: seq<byte>, line: Line)
    requires KSU_ADDRESS !in noise
    ensures Hunt(AsData(noise) + line, []) == Hunt(line, [])
  {
    if noise == [] {
      assert AsData(noise) + line == line;
    } else {
      assert (AsData(noise) + line)[1..] == AsData(noise[1..]) + line;
      assert noise[0] in noise;
      HuntSkipsNoise(noise[1..], line);
    }
  }

  lemma {:induction false} TakeAll(bytes: seq<byte>, tail: Line)
    ensures Take(AsData(bytes) + tail, |bytes|) == Bytes(bytes, tail)
  {
    TakePrefix(bytes, tail, 0);
    assert bytes + [] == bytes;
  }

  lemma {:induction false} Regroup(a: seq<byte>, b: seq<byte>, c: seq<byte>, d: seq<byte>, e: seq<byte>, tail: Line)
    ensures AsData(a + b + c + d + e) + tail == AsData(a) + (AsData(b) + (AsData(c) + (AsData(d) + (AsData(e) + tail))))
  {
  }

  function LengthField(length: word): (header: seq<byte>)
    ensures |header| == 2 && Join(header[0], header[1]) == length
  {
    [Msb(length), Lsb(length)]
  }

  /** The checksum bytes the reader expects. */
  function Sum(header: seq<byte>, cmd: byte, payload: seq<byte>): (sum: seq<byte>)
    ensures |sum| == 2 && Join(sum[0], sum[1]) == Checksum([KSU_ADDRESS] + header + [cmd] + payload)
  {
    LengthField(Checksum([KSU_ADDRESS] + header + [cmd] + payload))
  }

  lemma {:induction false} FrameIs(cmd: byte, payload: seq<byte>)
    requires |payload| + 1 < 0x1_0000
    ensures var header := LengthField(|payload| + 1);
            KsuFrame(cmd, payload) == [KSU_ADDRESS] + header + [cmd] + payload + Sum(header, cmd, payload)
  {
    var header := LengthField(|payload| + 1);
    assert Covered(KSU_ADDRESS, cmd, payload) == [KSU_ADDRESS] + header + [cmd] + payload;
  }

  /** A packet's bytes at their places, the station's address first. */
  lemma {:induction false} FramePlaces(cmd: byte, payload: seq<byte>)
    requires |payload| + 1 < 0x1_0000
    ensures IsRaw(KsuFrame(cmd, payload), 0x36, cmd, payload)
  {
    RawPacketIs(KSU_ADDRESS, cmd, payload);
  }

  lemma {:induction false} TwoBytes(x: seq<byte>, y: seq<byte>)
    requires |x| == |y| == 2 && Join(x[0], x[1]) == Join(y[0], y[1])
    ensures x == y
  {
  }

  // Each stage of the reader, forwards on the right bytes and backwards from success.

  lemma {:induction false} ChecksumStage(header: seq<byte>, cmd: byte, payload: seq<byte>, rest: Line, writeMode: byte)
    requires |header| == 2
    ensures ReadChecksum(header, cmd, payload, AsData(Sum(header, cmd, payload)) + rest, writeMode)
            == Received(Packet(TypeOf(cmd, Join(header[0], header[1])), FullCommand(cmd, writeMode), payload), rest)
  {
  }

  lemma {:induction false} ChecksumAccepted(header: seq<byte>, cmd: byte, payload: seq<byte>, line: Line,
          writeMode: byte)
    requires |header| == 2 && ReadChecksum(header, cmd, payload, line, writeMode).Received?
    ensures var r := ReadChecksum(header, cmd, payload, line, writeMode);
            && r.packet == Packet(TypeOf(cmd, Join(header[0], header[1])), FullCommand(cmd, writeMode), payload)
            && line == AsData(Sum(header, cmd, payload)) + r.rest
  {
    var Bytes(crc, _) := Take(line, 2);
    TwoBytes(crc, Sum(header, cmd, payload));
  }

  lemma {:induction false} PayloadStage(header: seq<byte>, cmd: byte, payload: seq<byte>, line: Line, writeMode: byte)
    requires |header| == 2 && |payload| + 1 == Join(header[0], header[1]) && LengthMatches(cmd, |payload| + 1)
    ensures ReadPayload(header, cmd, AsData(payload) + line, writeMode) ==
            ReadChecksum(header, cmd, payload, line, writeMode)
  {
    TakeAll(payload, line);
  }

  lemma {:induction false} BodyStage(header: seq<byte>, cmd: byte, line: Line, writeMode: byte)
    requires |header| == 2
    ensures ReadBody(AsData(header) + (AsData([cmd]) + line), writeMode) == ReadPayload(header, cmd, line, writeMode)
  {
    TakeAll(header, AsData([cmd]) + line);
    TakeAll([cmd], line);
  }

  /** A known packet behind harmless noise is received, and nothing beyond it is consumed. */
  lemma {:induction false} ReceivesFrame(noise: seq<byte>, cmd: byte, payload: seq<byte>, tail: Line, writeMode: byte)
    requires KSU_ADDRESS !in noise && Known(cmd, payload)
    ensures ReadPacket(AsData(noise) + (AsData(KsuFrame(cmd, payload)) + tail), [], writeMode)
            == Attempt(Received(PacketOf(cmd, payload, writeMode), tail), [])
  {
    var header := LengthField(|payload| + 1);
    var sum := Sum(header, cmd, payload);
    var frame := AsData(KsuFrame(cmd, payload)) + tail;
    FrameIs(cmd, payload);
    Regroup([KSU_ADDRESS], header, [cmd], payload, sum, tail);
    var afterCmd := AsData(payload) + (AsData(sum) + tail);
    HuntSkipsNoise(noise, frame);
    assert frame[0] == Data(KSU_ADDRESS) && frame[1..] == AsData(header) + (AsData([cmd]) + afterCmd);
    BodyStage(header, cmd, afterCmd, writeMode);
    PayloadStage(header, cmd, payload, AsData(sum) + tail, writeMode);
    ChecksumStage(header, cmd, payload, tail, writeMode);
    DeliveredIs(cmd, payload, writeMode);
  }

  lemma {:induction false} HuntFindsAddress(line: Line) returns (noise: seq<byte>)
    requires Hunt(line, []).Got?
    ensures KSU_ADDRESS !in noise && Hunt(line, []).b == KSU_ADDRESS
    ensures line == AsData(noise) + ([Data(KSU_ADDRESS)] + Hunt(line, []).rest)
    decreases |line|
  {
    var b := line[0].b;
    if b == KSU_ADDRESS {
      noise := [];
    } else {
      var more := HuntFindsAddress(line[1..]);
      noise := [b] + more;
      assert AsData(noise) == [Data(b)] + AsData(more);
    }
  }

  lemma {:induction false} PayloadAccepted(header: seq<byte>, cmd: byte, line: Line, writeMode: byte)
    returns (payload: seq<byte>, rest: Line)
    requires |header| == 2 && ReadPayload(header, cmd, line, writeMode).Received?
    ensures Known(cmd, payload) && header == LengthField(|payload| + 1)
    ensures ReadPayload(header, cmd, line, writeMode) == Received(PacketOf(cmd, payload, writeMode), rest)
    ensures line == AsData(payload) + (AsData(Sum(header, cmd, payload)) + rest)
  {
    var length := Join(header[0], header[1]);
    MatchesHaveLength(cmd, length);
    var Bytes(taken, line4) := Take(line, length - 1);
    payload := taken;
    ChecksumAccepted(header, cmd, payload, line4, writeMode);
    rest := ReadChecksum(header, cmd, payload, line4, writeMode).rest;
    DeliveredIs(cmd, payload, writeMode);
    TwoBytes(header, LengthField(length));
  }

  lemma {:induction false} BodyParts(line: Line, writeMode: byte) returns (header: seq<byte>, cmd: byte, after: Line)
    requires ReadBody(line, writeMode).Received?
    ensures |header| == 2 && line == AsData(header) + (AsData([cmd]) + after)
    ensures ReadBody(line, writeMode) == ReadPayload(header, cmd, after, writeMode)
  {
    var Bytes(length, line2) := Take(line, 2);
    var Bytes(command, line3) := Take(line2, 1);
    header, cmd, after := length, command[0], line3;
    assert command == [cmd];
  }

  lemma {:induction false} FrameRegrouped(header: seq<byte>, cmd: byte, payload: seq<byte>, rest: Line)
    requires |payload| + 1 < 0x1_0000 && header == LengthField(|payload| + 1)
    ensures [Data(KSU_ADDRESS)] +
            (AsData(header) + (AsData([cmd]) + (AsData(payload) + (AsData(Sum(header, cmd, payload)) + rest)))) ==
            AsData(KsuFrame(cmd, payload)) + rest
  {
    FrameIs(cmd, payload);
    Regroup([KSU_ADDRESS], header, [cmd], payload, Sum(header, cmd, payload), rest);
    assert [Data(KSU_ADDRESS)] == AsData([KSU_ADDRESS]);
  }

  lemma {:induction false} BodyAccepted(line: Line, writeMode: byte) returns (cmd: byte, payload: seq<byte>, rest: Line)
    requires ReadBody(line, writeMode).Received?
    ensures Known(cmd, payload)
    ensures ReadBody(line, writeMode) == Received(PacketOf(cmd, payload, writeMode), rest)
    ensures [Data(KSU_ADDRESS)] + line == AsData(KsuFrame(cmd, payload)) + rest
  {
    var header, command, after := BodyParts(line, writeMode);
    cmd := command;
    payload, rest := PayloadAccepted(header, cmd, after, writeMode);
    FrameRegrouped(header, cmd, payload, rest);
  }

  /** Whatever the reader accepts is harmless noise followed by the raw form of that very packet. */
  lemma {:induction false} ReceivedIsFrame(line: Line, writeMode: byte)
    returns (noise: seq<byte>, cmd: byte, payload: seq<byte>, rest: Line)
    requires ReadPacket(line, [], writeMode).Attempt? && ReadPacket(line, [], writeMode).reading.Received?
    ensures KSU_ADDRESS !in noise && Known(cmd, payload)
    ensures ReadPacket(line, [], writeMode) == Attempt(Received(PacketOf(cmd, payload, writeMode), rest), [])
    ensures line == AsData(noise) + (AsData(KsuFrame(cmd, payload)) + rest)
  {
    noise := HuntFindsAddress(line);
    cmd, payload, rest := BodyAccepted(Hunt(line, []).rest, writeMode);
  }

  ghost predicate Framed(line: Line, noise: seq<byte>, cmd: byte, payload: seq<byte>, rest: Line) {
    && 0x36 !in noise && |payload| + 1 < 0x1_0000
    && (IsCommand(cmd, |payload| + 1) || IsAcknowledgement(cmd, |payload| + 1))
    && line == AsData(noise) + (AsData(KsuFrame(cmd, payload)) + rest)
  }

  /** Noise, a raw packet and the rest; of the packet's command byte only 0x64 gets the write mode above it. */
  ghost predicate Delivers(line: Line, writeMode: byte, kind: PacketType, cmd: word, payload: seq<byte>, rest: Line) {
    exists noise, c ::
      && Framed(line, noise, c, payload, rest)
      && cmd == (if c == 0x64 then writeMode * 0x100 + 0x64 else c)
      && kind == if IsCommand(c, |payload| + 1) then TypeCmd else TypeAck
  }

  /** The reader's language, in both directions. */
  lemma {:induction false} AcceptsExactly(line: Line, writeMode: byte, packet: Packet, rest: Line)
    ensures ReadPacket(line, [], writeMode) == Attempt(Received(packet, rest), []) <==>
            Delivers(line, writeMode, packet.kind, packet.cmd, packet.payload, rest)
  {
    if ReadPacket(line, [], writeMode) == Attempt(Received(packet, rest), []) {
      var noise, cmd, payload, rest' := ReceivedIsFrame(line, writeMode);
      PairsAre(cmd, |payload| + 1);
      assert Framed(line, noise, cmd, payload, rest);
    }
    if Delivers(line, writeMode, packet.kind, packet.cmd, packet.payload, rest) {
      var noise, cmd :|
        Framed(line, noise, cmd, packet.payload, rest) && packet == PacketOf(cmd, packet.payload, writeMode);
      PairsAre(cmd, |packet.payload| + 1);
      ReceivesFrame(noise, cmd, packet.payload, rest, writeMode);
    }
  }

  // ----- what is cut short

  /** The line stops after some bytes: a pause or a failure and then the rest, or nothing more. */
  datatype Stop = Pause(rest: Line) | Failure(rest: Line) | End

  function StopLine(stop: Stop): Line {
    match stop
    case Pause(rest) => [Silence] + rest
    case Failure(rest) => [Fault] + rest
    case End => []
  }

  /** A pause and the end of the line are timeouts, a failure of the port is another error. */
  function StopReading(stop: Stop): Reading {
    match stop
    case Pause(rest) => Failed(Timeout, rest)
    case Failure(rest) => Failed(Other, rest)
    case End => Failed(Timeout, [])
  }

  lemma {:induction false} TakeStopped(bytes: seq<byte>, stop: Stop, n: nat)
    requires |bytes| < n
    ensures Take(AsData(bytes) + StopLine(stop), n) == NoBytes(StopReading(stop).error, StopReading(stop).rest)
  {
    TakePrefix(bytes, StopLine(stop), n - |bytes|);
  }

  lemma {:induction false} SumCutShort(header: seq<byte>, cmd: byte, payload: seq<byte>, part: seq<byte>, stop: Stop,
          writeMode: byte)
    requires |header| == 2 && |part| < 2
    ensures ReadChecksum(header, cmd, payload, AsData(part) + StopLine(stop), writeMode) == StopReading(stop)
  {
    TakeStopped(part, stop, 2);
  }

  lemma {:induction false} PayloadCutShort(header: seq<byte>, cmd: byte, payload: seq<byte>, sum: seq<byte>,
          part: seq<byte>, stop: Stop, writeMode: byte)
    requires |header| == |sum| == 2 && |payload| + 1 == Join(header[0], header[1]) && Known(cmd, payload)
    requires part < payload + sum
    ensures ReadPayload(header, cmd, AsData(part) + StopLine(stop), writeMode) == StopReading(stop)
  {
    if |part| < |payload| {
      PayloadTaken(header, cmd, AsData(part) + StopLine(stop), writeMode, |payload|);
      TakeStopped(part, stop, |payload|);
    } else {
      var after := PastFirst(part, payload, sum);
      AsDataConcat(payload, after, StopLine(stop));
      PayloadStage(header, cmd, payload, AsData(after) + StopLine(stop), writeMode);
      SumCutShort(header, cmd, payload, after, stop, writeMode);
    }
  }

  lemma {:induction false} CommandCutShort(header: seq<byte>, cmd: byte, payload: seq<byte>, sum: seq<byte>,
          part: seq<byte>, stop: Stop, writeMode: byte)
    requires |header| == |sum| == 2 && |payload| + 1 == Join(header[0], header[1]) && Known(cmd, payload)
    requires part < [cmd] + (payload + sum)
    ensures ReadBody(AsData(header) + (AsData(part) + StopLine(stop)), writeMode) == StopReading(stop)
  {
    TakeAll(header, AsData(part) + StopLine(stop));
    if part == [] {
      TakeStopped(part, stop, 1);
    } else {
      var after := PastFirst(part, [cmd], payload + sum);
      AsDataConcat([cmd], after, StopLine(stop));
      BodyStage(header, cmd, AsData(after) + StopLine(stop), writeMode);
      PayloadCutShort(header, cmd, payload, sum, after, stop, writeMode);
    }
  }

  lemma {:induction false} BodyCutShort(header: seq<byte>, cmd: byte, payload: seq<byte>, sum: seq<byte>,
          part: seq<byte>, stop: Stop, writeMode: byte)
    requires |header| == |sum| == 2 && |payload| + 1 == Join(header[0], header[1]) && Known(cmd, payload)
    requires part < header + ([cmd] + (payload + sum))
    ensures ReadBody(AsData(part) + StopLine(stop), writeMode) == StopReading(stop)
  {
    if |part| < 2 {
      TakeStopped(part, stop, 2);
    } else {
      var after := PastFirst(part, header, [cmd] + (payload + sum));
      AsDataConcat(header, after, StopLine(stop));
      CommandCutShort(header, cmd, payload, sum, after, stop, writeMode);
    }
  }

  lemma {:induction false} FrameNested(cmd: byte, payload: seq<byte>)
    requires |payload| + 1 < 0x1_0000
    ensures var header := LengthField(|payload| + 1);
            KsuFrame(cmd, payload) == [KSU_ADDRESS] + (header + ([cmd] + (payload + Sum(header, cmd, payload))))
  {
    FrameIs(cmd, payload);
  }

  /** A known packet of which the last bytes are missing is lost: a timeout, or another error if the port failed. */
  lemma {:induction false} CutShort(noise: seq<byte>, cmd: byte, payload: seq<byte>, part: seq<byte>, stop: Stop,
          writeMode: byte)
    requires KSU_ADDRESS !in noise && Known(cmd, payload) && part < KsuFrame(cmd, payload)
    ensures ReadPacket(AsData(noise) + (AsData(part) + StopLine(stop)), [], writeMode) == Attempt(StopReading(stop), [])
  {
    HuntSkipsNoise(noise, AsData(part) + StopLine(stop));
    if part == [] {
      assert AsData(part) + StopLine(stop) == StopLine(stop);
      NothingSent(stop, writeMode);
    } else {
      AfterAddressCutShort(cmd, payload, part, stop, writeMode);
    }
  }

  lemma {:induction false} NothingSent(stop: Stop, writeMode: byte)
    ensures ReadPacket(StopLine(stop), [], writeMode) == Attempt(StopReading(stop), [])
  {
  }

  lemma {:induction false} AfterAddressCutShort(cmd: byte, payload: seq<byte>, part: seq<byte>, stop: Stop,
          writeMode: byte)
    requires Known(cmd, payload) && part != [] && part < KsuFrame(cmd, payload)
    ensures ReadPacket(AsData(part) + StopLine(stop), [], writeMode) == Attempt(StopReading(stop), [])
  {
    var header := LengthField(|payload| + 1);
    var sum := Sum(header, cmd, payload);
    FrameNested(cmd, payload);
    var after := PastFirst(part, [KSU_ADDRESS], header + ([cmd] + (payload + sum)));
    AsDataConcat([KSU_ADDRESS], after, StopLine(stop));
    AddressFirst(AsData(part) + StopLine(stop), AsData(after) + StopLine(stop));
    BodyCutShort(header, cmd, payload, sum, after, stop, writeMode);
  }

  // ----- a stream of packets

  datatype Sent = Sent(noise: seq<byte>, cmd: byte, payload: seq<byte>)

  ghost predicate Sendable(items: seq<Sent>) {
    forall i :: 0 <= i < |items| ==> KSU_ADDRESS !in items[i].noise && Known(items[i].cmd, items[i].payload)
  }

  function OnTheLine(items: seq<Sent>): seq<byte> {
    if items == [] then [] else items[0].noise + KsuFrame(items[0].cmd, items[0].payload) + OnTheLine(items[1..])
  }

  function PacketsOf(items: seq<Sent>, writeMode: byte): seq<Packet>
    requires Sendable(items)
  {
    if items == [] then [] else [PacketOf(items[0].cmd, items[0].payload, writeMode)] + PacketsOf(items[1..], writeMode)
  }

  /** Repeated ReadPacket, until n packets are in or a read fails. */
  function ReadMany(line: Line, writeMode: byte, n: nat): (r: (seq<Packet>, Line))
    decreases n
  {
    if n == 0 then ([], line)
    else match ReadPacket(line, [], writeMode)
      case Attempt(Received(packet, rest), _) =>
        var (packets, after) := ReadMany(rest, writeMode, n - 1);
        ([packet] + packets, after)
      case Attempt(Failed(_, rest), _) => ([], rest)
      case OutOfStep(rest) => ([], rest)
  }

  /** Every packet comes out once, in order, and exactly the packets' bytes are consumed. */
  lemma {:induction false} StreamRoundTrip(items: seq<Sent>, tail: Line, writeMode: byte)
    requires Sendable(items)
    ensures ReadMany(AsData(OnTheLine(items)) + tail, writeMode, |items|) == (PacketsOf(items, writeMode), tail)
    decreases |items|
  {
    if items == [] {
      assert AsData([]) + tail == tail;
    } else {
      var first, others := items[0], OnTheLine(items[1..]);
      var frame := KsuFrame(first.cmd, first.payload);
      assert OnTheLine(items) == first.noise + (frame + others);
      AsDataConcat(first.noise, frame + others, tail);
      AsDataConcat(frame, others, tail);
      ReceivesFrame(first.noise, first.cmd, first.payload, AsData(others) + tail, writeMode);
      StreamRoundTrip(items[1..], tail, writeMode);
    }
  }

  // ----- echo cancellation

  lemma {:induction false} OneBehindEcho(echo: seq<byte>, line: Line)
    ensures ReadOne(AsData(echo) + line, echo) == ReadOne(line, [])
  {
    if echo == [] {
      assert AsData(echo) + line == line;
    } else {
      assert (AsData(echo) + line)[1..] == AsData(echo[1..]) + line;
      OneBehindEcho(echo[1..], line);
    }
  }

  /** With its own bytes first on the line, the reader does what it would do without them. */
  lemma {:induction false} EchoTransparent(echo: seq<byte>, line: Line, writeMode: byte)
    ensures ReadPacket(AsData(echo) + line, echo, writeMode) == ReadPacket(line, [], writeMode)
  {
    OneBehindEcho(echo, line);
  }

  /** The echo seen so far is used up, what is left of it stays pending when the line stops. */
  lemma {:induction false} OneStops(seen: seq<byte>, left: seq<byte>, stop: Stop)
    ensures var reading := StopReading(stop);
            ReadOne(AsData(seen) + StopLine(stop), seen + left) == Missed(reading.error, reading.rest, left)
    decreases |seen|
  {
    var line, echo := AsData(seen) + StopLine(stop), seen + left;
    if seen == [] {
      assert line == StopLine(stop) && echo == left;
    } else {
      assert line[1..] == AsData(seen[1..]) + StopLine(stop) && echo[1..] == seen[1..] + left;
      OneStops(seen[1..], left, stop);
    }
  }

  lemma {:induction false} EchoIsFirst(line: Line, echo: seq<byte>)
    requires ReadOne(line, echo).Got?
    ensures |echo| < |line| && line[..|echo|] == AsData(echo)
  {
    if echo != [] {
      EchoIsFirst(line[1..], echo[1..]);
      assert line[..|echo|] == [line[0]] + line[1..][..|echo| - 1];
      assert AsData(echo) == [Data(echo[0])] + AsData(echo[1..]);
    }
  }

  /** With an echo pending, a packet is received only behind that echo, and is what stands behind it. */
  lemma {:induction false} DeliveredBehindEcho(line: Line, echo: seq<byte>, writeMode: byte, p: Packet, rest: Line)
    requires ReadPacket(line, echo, writeMode) == Attempt(Received(p, rest), [])
    ensures |echo| < |line| && line[..|echo|] == AsData(echo)
    ensures Delivers(line[|echo|..], writeMode, p.kind, p.cmd, p.payload, rest)
    ensures p.cmd == if p.cmd % 0x100 == 0x64 then writeMode * 0x100 + 0x64 else p.cmd % 0x100
  {
    EchoIsFirst(line, echo);
    assert line == AsData(echo) + line[|echo|..];
    EchoTransparent(echo, line[|echo|..], writeMode);
    AcceptsExactly(line[|echo|..], writeMode, p, rest);
  }

  /** The line repeats the echo up to its i-th byte and has another byte there. */
  predicate Differs(line: Line, echo: seq<byte>, i: nat) {
    i < |echo| && i < |line| && line[..i] == AsData(echo[..i]) && line[i].Data? && line[i].b != echo[i]
  }

  lemma {:induction false} DiffersLater(line: Line, echo: seq<byte>, i: nat)
    requires line != [] && echo != [] && line[0] == Data(echo[0])
    ensures Differs(line, echo, i + 1) <==> Differs(line[1..], echo[1..], i)
  {
    if i + 1 < |echo| && i + 1 < |line| {
      assert line[..i + 1] == [line[0]] + line[1..][..i];
      assert AsData(echo[..i + 1]) == [Data(echo[0])] + AsData(echo[1..][..i]);
    }
  }

  /** The reader loses step exactly when a byte differs from the pending echo before the echo is used up. */
  lemma {:induction false} LosesStep(line: Line, echo: seq<byte>)
    ensures ReadOne(line, echo).Mismatch? <==> exists i: nat :: Differs(line, echo, i)
    decreases |echo|
  {
    if echo != [] && line != [] && line[0] == Data(echo[0]) {
      LosesStep(line[1..], echo[1..]);
      assert !Differs(line, echo, 0);
      if i: nat :| Differs(line[1..], echo[1..], i) {
        DiffersLater(line, echo, i);
      }
      if i: nat :| Differs(line, echo, i) {
        DiffersLater(line, echo, i - 1);
      }
    } else if ReadOne(line, echo).Mismatch? {
      assert Differs(line, echo, 0);
    } else {
      assert forall i: nat :: Differs(line, echo, i) && i > 0 ==> line[..i][0] == AsData(echo[..i])[0];
    }
  }

  /** What happens on the link: the daemon writes, signals arrive from the station, the daemon reads. */
  datatype Event = Write(raw: seq<byte>) | Arrive(signals: Line) | Read

  /** The real half-duplex link: a write is queued for cancellation and comes back on the line. */
  function RunEchoed(events: seq<Event>, line: Line, echo: seq<byte>, writeMode: byte): seq<Attempt>
    decreases |events|
  {
    if events == [] then []
    else match events[0]
      case Write(raw) => RunEchoed(events[1..], line + AsData(raw), echo + raw, writeMode)
      case Arrive(signals) => RunEchoed(events[1..], line + signals, echo, writeMode)
      case Read =>
        var a := ReadPacket(line, echo, writeMode);
        match a
        case Attempt(reading, left) => [a] + RunEchoed(events[1..], reading.rest, left, writeMode)
        case OutOfStep(_) => [a]
  }

  /** The link without an echo. */
  function RunPlain(events: seq<Event>, line: Line, writeMode: byte): seq<Attempt>
    decreases |events|
  {
    if events == [] then []
    else match events[0]
      case Write(_) => RunPlain(events[1..], line, writeMode)
      case Arrive(signals) => RunPlain(events[1..], line + signals, writeMode)
      case Read =>
        var a := ReadPacket(line, [], writeMode);
        match a
        case Attempt(reading, _) => [a] + RunPlain(events[1..], reading.rest, writeMode)
        case OutOfStep(_) => [a]
  }

  /** The daemon writes only when it has read all that the station sent. */
  ghost predicate TakesTurns(events: seq<Event>, line: Line, writeMode: byte)
    decreases |events|
  {
    events == [] ||
    match events[0]
    case Write(_) => line == [] && TakesTurns(events[1..], line, writeMode)
    case Arrive(signals) => TakesTurns(events[1..], line + signals, writeMode)
    case Read =>
      match ReadPacket(line, [], writeMode)
      case Attempt(reading, _) => TakesTurns(events[1..], reading.rest, writeMode)
      case OutOfStep(_) => true
  }

  /** Over every such run, cancellation makes the echoing link behave like the plain one, read for read. */
  lemma {:induction false} EchoRefinesPlain(events: seq<Event>, line: Line, echo: seq<byte>, writeMode: byte)
    requires TakesTurns(events, line, writeMode)
    ensures RunEchoed(events, AsData(echo) + line, echo, writeMode) == RunPlain(events, line, writeMode)
    decreases |events|
  {
    if events != [] {
      match events[0] {
        case Write(raw) =>
          assert AsData(echo) + line + AsData(raw) == AsData(echo + raw) + line;
          EchoRefinesPlain(events[1..], line, echo + raw, writeMode);
        case Arrive(signals) =>
          assert AsData(echo) + line + signals == AsData(echo) + (line + signals);
          EchoRefinesPlain(events[1..], line + signals, echo, writeMode);
        case Read =>
          EchoTransparent(echo, line, writeMode);
          var a := ReadPacket(line, [], writeMode);
          if a.Attempt? {
            PlainKeepsNoEcho(line, writeMode);
            assert AsData([]) + a.reading.rest == a.reading.rest;
            EchoRefinesPlain(events[1..], a.reading.rest, [], writeMode);
          }
      }
    }
  }

  lemma {:induction false} HuntKeepsNoEcho(line: Line)
    ensures Hunt(line, []).Missed? ==> Hunt(line, []).echo == []
    decreases |line|
  {
    if line != [] && line[0].Data? && line[0].b != KSU_ADDRESS {
      HuntKeepsNoEcho(line[1..]);
    }
  }

  lemma {:induction false} PlainKeepsNoEcho(line: Line, writeMode: byte)
    ensures ReadPacket(line, [], writeMode).Attempt? ==> ReadPacket(line, [], writeMode).echo == []
  {
    HuntKeepsNoEcho(line);
  }

  // ----- damaged packets

  /** The received bytes differ from the sent ones by a burst of at most 16 bits, or by an odd number of bits. */
  ghost predicate Damaged(sent: seq<byte>, received: seq<byte>)
    requires |sent| == |received|
  {
    var e := Add(LineBits(sent), LineBits(received));
    Parity(e) || exists start :: Burst(e, start)
  }

  lemma {:induction false} DamageChangesRemainder(sent: seq<byte>, received: seq<byte>)
    requires |sent| == |received| && Damaged(sent, received)
    ensures Crc(Zeros(16), sent) != Crc(Zeros(16), received)
  {
    var e := Add(LineBits(sent), LineBits(received));
    CollisionIsZeroRemainder(Zeros(16), sent, received);
    if Parity(e) {
      OddErrorLeavesRemainder(e);
    } else {
      var start :| Burst(e, start);
      BurstLeavesRemainder(e, start);
    }
  }

  lemma {:induction false} RightSumLeavesNothing(header: seq<byte>, cmd: byte, payload: seq<byte>, sum: seq<byte>)
    requires |header| == |sum| == 2
    ensures Join(sum[0], sum[1]) == Checksum([KSU_ADDRESS] + header + [cmd] + payload) <==>
            Crc(Zeros(16), [KSU_ADDRESS] + header + [cmd] + payload + sum) == Zeros(16)
  {
    var covered := [KSU_ADDRESS] + header + [cmd] + payload;
    Residue(Zeros(16), covered, Checksum(covered), sum[0], sum[1]);
    assert sum == [sum[0], sum[1]];
  }

  lemma {:induction false} DamagedSum(cmd: byte, payload: seq<byte>, c: byte, p: seq<byte>, s: seq<byte>)
    requires |payload| + 1 < 0x1_0000 && |p| == |payload| && |s| == 2
    requires Damaged(KsuFrame(cmd, payload), [KSU_ADDRESS] + LengthField(|payload| + 1) + [c] + p + s)
    ensures Join(s[0], s[1]) != Checksum([KSU_ADDRESS] + LengthField(|payload| + 1) + [c] + p)
  {
    var header := LengthField(|payload| + 1);
    FrameIs(cmd, payload);
    DamageChangesRemainder(KsuFrame(cmd, payload), [KSU_ADDRESS] + header + [c] + p + s);
    RightSumLeavesNothing(header, c, p, s);
    RightSumLeavesNothing(header, cmd, payload, Sum(header, cmd, payload));
  }

  /** What becomes of bytes in the form of a packet that the checks do not let pass. */
  lemma {:induction false} RefusedStage(header: seq<byte>, c: byte, p: seq<byte>, s: seq<byte>, tail: Line,
          writeMode: byte)
    requires |header| == |s| == 2 && |p| + 1 == Join(header[0], header[1])
    requires Join(s[0], s[1]) != Checksum([KSU_ADDRESS] + header + [c] + p)
    ensures ReadBody(AsData(header) + (AsData([c]) + (AsData(p) + (AsData(s) + tail))), writeMode)
            == if LengthMatches(c, |p| + 1) then Failed(BadCrc, tail)
               else Failed(BadPacket, AsData(p) + (AsData(s) + tail))
  {
    BodyStage(header, c, AsData(p) + (AsData(s) + tail), writeMode);
    if LengthMatches(c, |p| + 1) {
      PayloadStage(header, c, p, AsData(s) + tail, writeMode);
      TakeAll(s, tail);
    }
  }

  lemma {:induction false} SameStart(sent: seq<byte>, received: seq<byte>, header: seq<byte>, n: nat)
    requires |received| == n + 2 && n >= 4 && |sent| >= 3 && |header| == 2
    requires received[..3] == sent[..3] == [KSU_ADDRESS] + header
    ensures received == [KSU_ADDRESS] + header + [received[3]] + received[4..n] + received[n..]
  {
  }

  /** Behind the address, an unknown pair of length and command is a bad packet, and nothing behind it is read. */
  lemma {:induction false} UnknownIsRefused(noise: seq<byte>, header: seq<byte>, cmd: byte, tail: Line, writeMode: byte)
    requires 0x36 !in noise && |header| == 2
    requires var high: int, low: int := header[0], header[1];
             !IsCommand(cmd, high * 0x100 + low) && !IsAcknowledgement(cmd, high * 0x100 + low)
    ensures ReadPacket(AsData(noise) + (AsData([0x36]) + (AsData(header) + (AsData([cmd]) + tail))), [], writeMode)
            == Attempt(Failed(BadPacket, tail), [])
  {
    var body := AsData(header) + (AsData([cmd]) + tail);
    HuntSkipsNoise(noise, AsData([0x36]) + body);
    AddressFirst(AsData([0x36]) + body, body);
    BodyStage(header, cmd, tail, writeMode);
    PairsAre(cmd, Join(header[0], header[1]));
  }

  /** A packet with another sum behind it than its own is refused, and exactly its bytes are consumed. */
  lemma {:induction false} WrongSumIsRefused(noise: seq<byte>, cmd: byte, payload: seq<byte>, sum: seq<byte>,
          tail: Line, writeMode: byte)
    requires 0x36 !in noise && Known(cmd, payload) && |sum| == 2
    requires sum != KsuFrame(cmd, payload)[|payload| + 4..]
    ensures var covered := KsuFrame(cmd, payload)[..|payload| + 4];
            ReadPacket(AsData(noise) + (AsData(covered + sum) + tail), [], writeMode)
            == Attempt(Failed(BadCrc, tail), [])
  {
    var header, n := LengthField(|payload| + 1), |payload| + 4;
    FrameIs(cmd, payload);
    var own := Sum(header, cmd, payload);
    assert KsuFrame(cmd, payload)[..n] == [KSU_ADDRESS] + header + [cmd] + payload;
    assert KsuFrame(cmd, payload)[n..] == own;
    if Join(sum[0], sum[1]) == Join(own[0], own[1]) {
      TwoBytes(sum, own);
    }
    var line := AsData(KsuFrame(cmd, payload)[..n] + sum) + tail;
    HuntSkipsNoise(noise, line);
    Regroup([KSU_ADDRESS], header, [cmd], payload, sum, tail);
    AddressFirst(line, AsData(header) + (AsData([cmd]) + (AsData(payload) + (AsData(sum) + tail))));
    RefusedStage(header, cmd, payload, sum, tail, writeMode);
  }

  /** A packet damaged anywhere after its length, by a short burst or an odd number of flips, is never received. */
  lemma {:induction false} DamagedIsRefused(cmd: byte, payload: seq<byte>, received: seq<byte>, tail: Line,
          writeMode: byte)
    requires |payload| + 1 < 0x1_0000
    requires |received| == |payload| + 6 && received[..3] == KsuFrame(cmd, payload)[..3]
    requires Damaged(KsuFrame(cmd, payload), received)
    ensures ReadPacket(AsData(received) + tail, [], writeMode).Attempt?
    ensures var reading := ReadPacket(AsData(received) + tail, [], writeMode).reading;
            reading.Failed? && reading.error == if LengthMatches(received[3], |payload| + 1) then BadCrc else BadPacket
  {
    var header, c := LengthField(|payload| + 1), received[3];
    var n := |payload| + 4;
    var p, s := received[4..n], received[n..];
    assert KsuFrame(cmd, payload)[..3] == [KSU_ADDRESS] + header by {
      FrameIs(cmd, payload);
    }
    SameStart(KsuFrame(cmd, payload), received, header, n);
    DamagedSum(cmd, payload, c, p, s);
    Regroup([KSU_ADDRESS], header, [c], p, s, tail);
    AddressFirst(AsData(received) + tail, AsData(header) + (AsData([c]) + (AsData(p) + (AsData(s) + tail))));
    RefusedStage(header, c, p, s, tail, writeMode);
  }

  lemma {:induction false} AddressFirst(line: Line, body: Line)
    requires line == AsData([KSU_ADDRESS]) + body
    ensures Hunt(line, []) == Got(KSU_ADDRESS, body)
  {
  }
}
