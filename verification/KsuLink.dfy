/** The serial port and the part of ComTrafficProcessor that reads and writes packets. */
module KsuLink {
  import opened Bits
  import opened Crc16
  import opened DataPackets
  import opened KsuLine
  import opened KsuTheory

  /** The bytes the port can deliver without another wait. */
  ghost predicate Ready(line: Line, count: nat) {
    count <= |line| && forall i :: 0 <= i < count ==> line[i].Data?
  }

  /** A half-duplex line: what is written comes back after everything already under way. */
  class CommPort {
    var line: Line
    var arrived: nat
    var sent: seq<byte>

    ghost predicate Valid()
      reads this
    {
      Ready(line, arrived)
    }

    constructor (line: Line)
      ensures Valid() && this.line == line && sent == []
    {
      this.line, arrived, sent := line, 0, [];
    }

    /** read(2) on the non-blocking port: how many bytes come back is up to the driver; -1 stands for EWOULDBLOCK. */
    method Read(buffer: array<byte>, offset: nat, max: nat) returns (ret: int)
      requires Valid() && 1 <= max && offset + max <= buffer.Length
      modifies this`line, this`arrived, buffer
      ensures Valid()
      ensures ret == -1 || 1 <= ret <= max
      ensures ret == -1 ==> arrived == old(arrived) == 0 && line == old(line) && buffer[..] == old(buffer[..])
      ensures ret > 0 ==> arrived < old(arrived) && |line| < |old(line)|
      ensures ret > 0 ==> ret <= |old(line)| && line == old(line)[ret..]
      ensures ret > 0 ==> forall i :: 0 <= i < ret ==> old(line)[i] == Data(buffer[offset + i])
      ensures ret > 0 ==> forall i :: 0 <= i < buffer.Length && !(offset <= i < offset + ret) ==>
                buffer[i] == old(buffer[i])
    {
      if arrived == 0 {
        return -1;
      }
      var chunk: nat :| 1 <= chunk <= max && chunk <= arrived;
      forall i | 0 <= i < chunk {
        buffer[offset + i] := line[i].b;
      }
      line, arrived := line[chunk..], arrived - chunk;
      ret := chunk;
    }

    /** select(2) when nothing has arrived: time out, fail, or learn that some bytes are there. */
    method Select() returns (ret: int)
      requires Valid() && arrived == 0
      modifies this`line, this`arrived
      ensures Valid()
      ensures ret == 0 ==>
                (old(line) == [] && line == []) || (old(line) != [] && old(line)[0].Silence? && line == old(line)[1..])
      ensures ret == -1 ==> old(line) != [] && old(line)[0].Fault? && line == old(line)[1..]
      ensures ret == 1 ==> line == old(line) && arrived > 0
      ensures ret == 0 || ret == -1 || ret == 1
    {
      if line == [] {
        return 0;
      }
      match line[0] {
        case Silence =>
          line := line[1..];
          ret := 0;
        case Fault =>
          line := line[1..];
          ret := -1;
        case Data(_) =>
          assert Ready(line, 1);
          var count: nat :| 1 <= count <= |line| && forall i :: 0 <= i < count ==> line[i].Data?;
          arrived := count;
          ret := 1;
      }
    }

    /** tcflush(3): what has arrived and was not read is lost. */
    method Flush()
      requires Valid()
      modifies this`line, this`arrived
      ensures Valid() && old(arrived) <= |old(line)| && line == old(line)[old(arrived)..]
    {
      line, arrived := line[arrived..], 0;
    }

    method Write(bytes: array<byte>)
      requires Valid()
      modifies this`line, this`sent
      ensures Valid() && arrived == old(arrived)
      ensures line == old(line) + AsData(bytes[..]) && sent == old(sent) + bytes[..]
    {
      line := line + AsData(bytes[..]);
      sent := sent + bytes[..];
    }
  }

  /** The line after a flush: some suffix of what was left. */
  ghost predicate Flushed(before: Line, after: Line) {
    exists k :: 0 <= k <= |before| && after == before[k..]
  }

  /** What Read promises: one byte past any pending echo, and any number of bytes once no echo is pending. */
  ghost predicate Reads(line0: Line, echo0: seq<byte>, length: nat, ok: bool, error: ReadError,
          bytes: seq<byte>, line: Line, echo: seq<byte>)
    requires |bytes| == length > 0
  {
    && (length == 1 ==>
          match ReadOne(line0, echo0)
          case Got(b, rest) => ok && bytes[0] == b && line == rest && echo == []
          case Missed(e, rest, left) => !ok && error == e && line == rest && echo == left
          case Mismatch(rest) => !ok && error == Other && Flushed(rest, line) && echo == [])
    && (echo0 == [] ==>
          && echo == []
          && match Take(line0, length)
             case Bytes(taken, rest) => ok && bytes == taken && line == rest
             case NoBytes(e, rest) => !ok && error == e && line == rest)
  }

  /** Invariant of Read: `got` has been collected so far. */
  ghost predicate Collecting(line0: Line, echo0: seq<byte>, length: nat, got: seq<byte>, line: Line, echo: seq<byte>) {
    && |got| <= length
    && (length == 1 && got == [] ==> ReadOne(line, echo) == ReadOne(line0, echo0))
    && (length == 1 && |got| == 1 ==> echo == [] && ReadOne(line0, echo0) == Got(got[0], line))
    && (echo0 == [] ==> echo == [] && line0 == AsData(got) + line)
  }

  lemma {:induction false} CollectChunk(line0: Line, echo0: seq<byte>, length: nat, got: seq<byte>,
          line: Line, echo: seq<byte>,
                     chunk: seq<byte>, rest: Line)
    requires Collecting(line0, echo0, length, got, line, echo) && |got| < length
    requires 1 <= |chunk| <= length - |got| && line == AsData(chunk) + rest
    ensures echo == [] ==> Collecting(line0, echo0, length, got + chunk, rest, echo)
    ensures echo != [] && length == 1 && echo[0] == chunk[0] ==> Collecting(line0, echo0, length, got, rest, echo[1..])
    ensures echo != [] && length == 1 && echo[0] != chunk[0] ==> ReadOne(line0, echo0) == Mismatch(rest)
  {
  }

  lemma {:induction false} CollectStopped(line0: Line, echo0: seq<byte>, length: nat, got: seq<byte>,
          line: Line, echo: seq<byte>,
                       error: ReadError, rest: Line, bytes: seq<byte>)
    requires Collecting(line0, echo0, length, got, line, echo) && |got| < length == |bytes|
    requires Take(line, 1) == NoBytes(error, rest)
    ensures Reads(line0, echo0, length, false, error, bytes, rest, echo)
  {
    if echo0 == [] {
      TakePrefix(got, line, length - |got|);
    }
  }

  lemma {:induction false} CollectDone(line0: Line, echo0: seq<byte>, length: nat, got: seq<byte>,
          line: Line, echo: seq<byte>)
    requires Collecting(line0, echo0, length, got, line, echo) && |got| == length > 0
    ensures Reads(line0, echo0, length, true, Other, got, line, echo)
  {
    if echo0 == [] {
      TakePrefix(got, line, 0);
    }
  }

  class ComTrafficProcessor {
    const port: CommPort
    var echoFifo: seq<byte>
    var writeMode: byte

    constructor (port: CommPort)
      ensures this.port == port && echoFifo == [] && writeMode == 0
    {
      this.port := port;
      echoFifo, writeMode := [], 0;
    }

    method IsLengthMatches(cmd: byte, length: word) returns (matches: bool, kind: PacketType)
      ensures matches == LengthMatches(cmd, length)
      ensures matches ==> kind == TypeOf(cmd, length)
    {
      kind := TypeCmd;
      for i := 0 to |CMD_PARAMS|
        invariant !Listed(CMD_PARAMS, i, cmd, length)
      {
        if Lsb(CMD_PARAMS[i].cmd) == cmd {
          if CMD_PARAMS[i].length == length {
            ListedGrows(CMD_PARAMS, i + 1, |CMD_PARAMS|, cmd, length);
            return true, TypeCmd;
          }
        }
      }
      for i := 0 to |CMD_PARAMS|
        invariant !Listed(ACK_PARAMS, i, cmd, length)
      {
        if Lsb(ACK_PARAMS[i].cmd) == cmd {
          if ACK_PARAMS[i].length == length {
            ListedGrows(ACK_PARAMS, i + 1, |CMD_PARAMS|, cmd, length);
            return true, TypeAck;
          }
        }
      }
      return false, kind;
    }

    /** The echo loop of Read: each pending echo byte is compared with the last byte not yet rolled back. */
    method CancelEcho(buffer: array<byte>, received: nat, count: nat) returns (ok: bool, total: nat)
      requires port.Valid() && count <= received <= buffer.Length
      modifies this`echoFifo, port`line, port`arrived
      ensures port.Valid() && |port.line| <= |old(port.line)|
      ensures var k := if |old(echoFifo)| < count then |old(echoFifo)| else count;
              && ok == (forall j :: 0 <= j < k ==> old(echoFifo)[j] == buffer[received - 1 - j])
              && (ok ==> total == received - k && echoFifo == old(echoFifo)[k..]
                         && port.line == old(port.line) && port.arrived == old(port.arrived))
              && (!ok ==> echoFifo == [] && Flushed(old(port.line), port.line))
    {
      total := received;
      for i := 0 to count
        invariant i <= |old(echoFifo)| && echoFifo == old(echoFifo)[i..] && total == received - i
        invariant forall j :: 0 <= j < i ==> old(echoFifo)[j] == buffer[received - 1 - j]
        invariant port.Valid() && port.line == old(port.line) && port.arrived == old(port.arrived)
      {
        if echoFifo == [] {
          break;
        }
        var echoByte := echoFifo[0];
        echoFifo := echoFifo[1..];
        total := total - 1;
        if echoByte != buffer[total] {
          echoFifo := [];
          port.Flush();
          return false, total;
        }
      }
      ok := true;
    }

    /** Collects `length` bytes whatever the chunks; does not return before that unless the port times out or fails. */
    method Read(buffer: array<byte>, length: nat) returns (ok: bool, error: ReadError)
      requires port.Valid() && 1 <= length <= buffer.Length
      modifies this`echoFifo, port`line, port`arrived, buffer
      ensures port.Valid()
      ensures length == 1 || old(echoFifo) == [] ==>
                Reads(old(port.line), old(echoFifo), length, ok, error, buffer[..length], port.line, echoFifo)
    {
      ghost var line0, echo0 := port.line, echoFifo;
      ghost var plain := length == 1 || echo0 == [];
      error := Other;
      var total := 0;
      while total != length
        invariant 0 <= total <= length && port.Valid()
        invariant plain ==> Collecting(line0, echo0, length, buffer[..total], port.line, echoFifo)
        decreases |port.line|, if port.arrived == 0 then 1 else 0
      {
        ghost var line1, echo1, got := port.line, echoFifo, buffer[..total];
        var ret := port.Read(buffer, total, length - total);
        if ret < 0 {
          ret := port.Select();
          if ret == 0 || ret == -1 {
            error := if ret == 0 then Timeout else Other;
            if plain {
              CollectStopped(line0, echo0, length, got, line1, echo1, error, port.line, buffer[..length]);
            }
            return false, error;
          }
        } else {
          ghost var line2, chunk := port.line, buffer[total..total + ret];
          if plain {
            CollectChunk(line0, echo0, length, got, line1, echo1, chunk, line2);
          }
          var same;
          same, total := CancelEcho(buffer, total + ret, ret);
          if !same {
            return false, Other;
          }
          assert plain ==> buffer[..total] == if echo1 == [] then got + chunk else got;
        }
      }
      ok := true;
      if plain {
        CollectDone(line0, echo0, length, buffer[..length], port.line, echoFifo);
      }
    }

    /** Read, then run the checksum over what was read; no echo is pending any more. */
    method ReadCovered(buffer: array<byte>, length: nat, before: word, ghost covered: seq<byte>)
      returns (ok: bool, error: ReadError, crc: word)
      requires port.Valid() && echoFifo == [] && 1 <= length <= buffer.Length
      requires WordBits(before) == Crc(Zeros(16), covered)
      modifies this`echoFifo, port`line, port`arrived, buffer
      ensures port.Valid() && echoFifo == []
      ensures match Take(old(port.line), length)
              case Bytes(bytes, rest) =>
                ok && buffer[..length] == bytes && port.line == rest && WordBits(crc) == Crc(Zeros(16), covered + bytes)
              case NoBytes(e, rest) => !ok && error == e && port.line == rest
    {
      ok, error := Read(buffer, length);
      if !ok {
        return ok, error, 0;
      }
      crc := Crc16Buffer(before, buffer, length);
      CrcConcat(Zeros(16), covered, buffer[..length]);
    }

    /** The object and error code that stand for a reading. */
    ghost predicate Returns(reading: Reading, packet: DataPacket?, error: ReadError)
      reads port, packet, if packet != null then packet.data else null
    {
      && port.line == reading.rest
      && match reading
         case Failed(e, _) => packet == null && error == e
         case Received(p, _) =>
           && packet != null && packet.Valid() && packet.address == KSU_ADDRESS
           && p == Packet(packet.kind, packet.cmd, packet.Payload())
    }

    /** ReadPacket's loop: bytes are read one by one up to the station address. */
    method ReadAddress() returns (ok: bool, error: ReadError, crc: word)
      requires port.Valid()
      modifies this`echoFifo, port`line, port`arrived
      ensures port.Valid()
      ensures match Hunt(old(port.line), old(echoFifo))
              case Got(_, rest) => ok && port.line == rest && echoFifo == []
              case Missed(e, rest, left) => !ok && error == e && port.line == rest && echoFifo == left
              case Mismatch(rest) => !ok && error == Other && Flushed(rest, port.line) && echoFifo == []
      ensures ok ==> WordBits(crc) == Crc(Zeros(16), [KSU_ADDRESS])
    {
      error, crc := Other, 0;
      ghost var line0, echo0 := port.line, echoFifo;
      var address := new byte[1][0];
      while address[0] != KSU_ADDRESS
        invariant port.Valid()
        invariant if address[0] != KSU_ADDRESS then Hunt(port.line, echoFifo) == Hunt(line0, echo0)
                  else echoFifo == [] && Hunt(line0, echo0) == Got(KSU_ADDRESS, port.line)
        decreases if address[0] != KSU_ADDRESS then 1 else 0, |port.line|
      {
        ReadOneShrinks(port.line, echoFifo);
        ok, error := Read(address, 1);
        if !ok {
          return;
        }
      }
      ok := true;
      DigitsOfZero(16);
      assert LineBits([KSU_ADDRESS]) == ByteBits(KSU_ADDRESS);
      crc := Crc16Byte(0, address[0]);
    }

    /** Reads and checks one packet; see the function of the same name for what comes out. */
    method ReadPacket() returns (packet: DataPacket?, error: ReadError)
      requires port.Valid()
      modifies this`echoFifo, port`line, port`arrived
      ensures port.Valid() && (packet != null ==> fresh(packet))
      ensures match KsuLine.ReadPacket(old(port.line), old(echoFifo), writeMode)
              case Attempt(reading, echo) => Returns(reading, packet, error) && echoFifo == echo
              case OutOfStep(rest) => packet == null && error == Other && Flushed(rest, port.line) && echoFifo == []
      ensures packet != null ==>
                var line, echo, payload := old(port.line), old(echoFifo), packet.Payload();
                && packet.Valid() && |echo| < |line| && line[..|echo|] == AsData(echo)
                && Delivers(line[|echo|..], writeMode, packet.kind, packet.cmd, payload, port.line)
      ensures packet != null ==>
                packet.cmd == if packet.cmd % 0x100 == 0x64 then writeMode * 0x100 + 0x64 else packet.cmd % 0x100
    {
      packet := null;
      ghost var line0, echo0 := port.line, echoFifo;
      var ok, crc;
      ok, error, crc := ReadAddress();
      if ok {
        packet, error := ReadRest(crc);
        if packet != null {
          DeliveredBehindEcho(line0, echo0, writeMode, Packet(packet.kind, packet.cmd, packet.Payload()), port.line);
        }
      }
    }

    /** ReadPacket from the length on. */
    method ReadRest(addressCrc: word) returns (packet: DataPacket?, error: ReadError)
      requires port.Valid() && echoFifo == []
      requires WordBits(addressCrc) == Crc(Zeros(16), [KSU_ADDRESS])
      modifies this`echoFifo, port`line, port`arrived
      ensures port.Valid() && echoFifo == [] && (packet != null ==> fresh(packet))
      ensures Returns(ReadBody(old(port.line), writeMode), packet, error)
    {
      var lengthBuffer, cmdBuffer := new byte[2][0, 0], new byte[1][0];
      var ok, crc;
      ok, error, crc := ReadCovered(lengthBuffer, 2, addressCrc, [KSU_ADDRESS]);
      if !ok {
        return null, error;
      }
      ghost var header: seq<byte> := lengthBuffer[..2];
      var length := Join(lengthBuffer[0], lengthBuffer[1]);
      ok, error, crc := ReadCovered(cmdBuffer, 1, crc, [KSU_ADDRESS] + header);
      if !ok {
        return null, error;
      }
      assert cmdBuffer[..1] == [cmdBuffer[0]];
      packet, error := ReadKnown(crc, header, cmdBuffer[0], length);
    }

    /** ReadPacket from the check of command and length on. */
    method ReadKnown(headerCrc: word, ghost header: seq<byte>, cmd: byte, length: word)
      returns (packet: DataPacket?, error: ReadError)
      requires port.Valid() && echoFifo == [] && |header| == 2 && length == Join(header[0], header[1])
      requires WordBits(headerCrc) == Crc(Zeros(16), [KSU_ADDRESS] + header + [cmd])
      modifies this`echoFifo, port`line, port`arrived
      ensures port.Valid() && echoFifo == [] && (packet != null ==> fresh(packet))
      ensures Returns(ReadPayload(header, cmd, old(port.line), writeMode), packet, error)
    {
      var longCmd := FullCommand(cmd, writeMode);
      var matches, kind := IsLengthMatches(Lsb(longCmd), length);
      if !matches {
        return null, BadPacket;
      }
      packet, error := ReadContents(kind, longCmd, length, headerCrc, header, cmd);
    }

    /** The new packet object, kept only if it can be filled. */
    method ReadContents(kind: PacketType, longCmd: word, length: word, headerCrc: word,
            ghost header: seq<byte>, ghost cmd: byte)
      returns (packet: DataPacket?, error: ReadError)
      requires port.Valid() && echoFifo == [] && |header| == 2 && length == Join(header[0], header[1])
      requires LengthMatches(cmd, length) && kind == TypeOf(cmd, length) && longCmd == FullCommand(cmd, writeMode)
      requires WordBits(headerCrc) == Crc(Zeros(16), [KSU_ADDRESS] + header + [cmd])
      modifies this`echoFifo, port`line, port`arrived
      ensures port.Valid() && echoFifo == [] && (packet != null ==> fresh(packet))
      ensures Returns(ReadPayload(header, cmd, old(port.line), writeMode), packet, error)
    {
      MatchesHaveLength(cmd, length);
      packet := new DataPacket(kind, KSU_ADDRESS, longCmd);
      var ok;
      ok, error := FillPacket(packet, length - 1, headerCrc, header, cmd);
      if !ok {
        packet := null;
      }
    }

    /** The payload, into the packet; without one nothing is allocated or read. */
    method ReadPayloadBytes(packet: DataPacket, size: nat, before: word, ghost covered: seq<byte>)
      returns (ok: bool, error: ReadError, crc: word)
      requires port.Valid() && echoFifo == [] && packet.Valid() && packet.Payload() == [] && size < 0x1_0000
      requires WordBits(before) == Crc(Zeros(16), covered)
      modifies this`echoFifo, port`line, port`arrived, packet
      ensures port.Valid() && echoFifo == [] && packet.Valid()
      ensures packet.data == old(packet.data) || fresh(packet.data)
      ensures match Take(old(port.line), size)
              case Bytes(bytes, rest) =>
                && ok && packet.Payload() == bytes && port.line == rest
                && WordBits(crc) == Crc(Zeros(16), covered + bytes)
              case NoBytes(e, rest) => !ok && error == e && port.line == rest
    {
      if size == 0 {
        assert covered + [] == covered;
        return true, Other, before;
      }
      var p := packet.Allocate(size);
      ok, error, crc := ReadCovered(p, size, before, covered);
      assert p[..size] == p[..];
    }

    /** ReadPacket's payload and checksum. */
    method FillPacket(packet: DataPacket, size: nat, headerCrc: word, ghost header: seq<byte>, ghost cmd: byte)
      returns (ok: bool, error: ReadError)
      requires port.Valid() && echoFifo == [] && packet.Valid() && packet.Payload() == []
      requires |header| == 2 && size + 1 == Join(header[0], header[1])
      requires LengthMatches(cmd, Join(header[0], header[1])) && packet.kind == TypeOf(cmd, Join(header[0], header[1]))
      requires packet.address == KSU_ADDRESS && packet.cmd == FullCommand(cmd, writeMode)
      requires WordBits(headerCrc) == Crc(Zeros(16), [KSU_ADDRESS] + header + [cmd])
      modifies this`echoFifo, port`line, port`arrived, packet
      ensures port.Valid() && echoFifo == []
      ensures packet.data == old(packet.data) || fresh(packet.data)
      ensures Returns(ReadPayload(header, cmd, old(port.line), writeMode), if ok then packet else null, error)
    {
      PayloadTaken(header, cmd, port.line, writeMode, size);
      var crc;
      ok, error, crc := ReadPayloadBytes(packet, size, headerCrc, [KSU_ADDRESS] + header + [cmd]);
      if ok {
        ok, error := ReadCrc(crc, header, cmd, packet.Payload());
      }
    }

    /** ReadPacket's final comparison of the received checksum with the calculated one. */
    method ReadCrc(calculated: word, ghost header: seq<byte>, ghost cmd: byte, ghost payload: seq<byte>)
      returns (good: bool, error: ReadError)
      requires port.Valid() && echoFifo == [] && |header| == 2
      requires WordBits(calculated) == Crc(Zeros(16), [KSU_ADDRESS] + header + [cmd] + payload)
      modifies this`echoFifo, port`line, port`arrived
      ensures port.Valid() && echoFifo == []
      ensures var reading := ReadChecksum(header, cmd, payload, old(port.line), writeMode);
              var kind := TypeOf(cmd, Join(header[0], header[1]));
              if good then reading == Received(Packet(kind, FullCommand(cmd, writeMode), payload), port.line)
              else reading == Failed(error, port.line)
    {
      var crc := new byte[2][0, 0];
      good, error := Read(crc, 2);
      ChecksumUnique([KSU_ADDRESS] + header + [cmd] + payload, calculated);
      if good && Join(crc[0], crc[1]) != calculated {
        return false, BadCrc;
      }
    }

    /** Queues the bytes for echo cancellation and puts them on the line. */
    method WritePacket(packet: DataPacket)
      requires port.Valid() && packet.Valid()
      modifies this`echoFifo, port`line, port`sent
      ensures port.Valid()
      ensures var raw := RawPacket(packet.address, Lsb(packet.cmd), old(packet.Payload()));
              && echoFifo == old(echoFifo) + raw
              && port.line == old(port.line) + AsData(raw) && port.sent == old(port.sent) + raw
    {
      var raw := packet.CreateRawPacket();
      for i := 0 to raw.Length
        invariant echoFifo == old(echoFifo) + raw[..i]
        invariant raw[..] == RawPacket(packet.address, Lsb(packet.cmd), old(packet.Payload()))
        invariant port.Valid() && port.line == old(port.line) && port.sent == old(port.sent)
      {
        echoFifo := echoFifo + [raw[i]];
      }
      assert raw[..raw.Length] == raw[..];
      port.Write(raw);
    }
  }
}
