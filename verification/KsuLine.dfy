/** What the KSU reader does to a serial line, as functions of the line and of the pending echo. */
module KsuLine {
  import opened Bits
  import opened Crc16
  import opened DataPackets
  import opened Sequences

  /** One thing the port can deliver: a byte, a pause longer than the read timeout, or a port error. */
  datatype Signal = Data(b: byte) | Silence | Fault

  type Line = seq<Signal>

  datatype ReadError = BadCrc | Timeout | BadPacket | Other

  function AsData(bytes: seq<byte>): (line: Line)
    ensures |line| == |bytes| && forall i :: 0 <= i < |line| ==> line[i] == Data(bytes[i])
  {
    seq(|bytes|, i requires 0 <= i < |bytes| => Data(bytes[i]))
  }

  // ----- reading n bytes

  datatype Taken = Bytes(bytes: seq<byte>, rest: Line) | NoBytes(error: ReadError, rest: Line)

  /** Exactly n bytes, unless the line pauses or fails first; what was read before that is lost. */
  function Take(line: Line, n: nat): (t: Taken)
    ensures t.Bytes? ==> |t.bytes| == n && line == AsData(t.bytes) + t.rest
    decreases n
  {
    if n == 0 then Bytes([], line)
    else if line == [] then NoBytes(Timeout, [])
    else match line[0]
      case Silence => NoBytes(Timeout, line[1..])
      case Fault => NoBytes(Other, line[1..])
      case Data(b) =>
        match Take(line[1..], n - 1)
        case Bytes(bytes, rest) =>
          assert AsData([b] + bytes) == [Data(b)] + AsData(bytes);
          Bytes([b] + bytes, rest)
        case NoBytes(error, rest) => NoBytes(error, rest)
  }

  lemma {:induction false} TakePrefix(bytes: seq<byte>, line: Line, n: nat)
    ensures Take(AsData(bytes) + line, |bytes| + n) ==
            match Take(line, n)
            case Bytes(more, rest) => Bytes(bytes + more, rest)
            case NoBytes(error, rest) => NoBytes(error, rest)
    decreases |bytes|
  {
    if bytes == [] {
      assert AsData(bytes) + line == line;
      if Take(line, n).Bytes? {
        assert bytes + Take(line, n).bytes == Take(line, n).bytes;
      }
    } else {
      assert (AsData(bytes) + line)[1..] == AsData(bytes[1..]) + line;
      TakePrefix(bytes[1..], line, n);
      if Take(line, n).Bytes? {
        assert [bytes[0]] + bytes[1..] == bytes;
        Associate([bytes[0]], bytes[1..], Take(line, n).bytes);
      }
    }
  }

  /** Fewer than n bytes and then a pause, a fault or nothing: a timeout, another error, a timeout. */
  lemma {:induction false} TakeStops(bytes: seq<byte>, rest: Line, n: nat)
    requires |bytes| < n
    ensures Take(AsData(bytes) + [Silence] + rest, n) == NoBytes(Timeout, rest)
    ensures Take(AsData(bytes) + [Fault] + rest, n) == NoBytes(Other, rest)
    ensures Take(AsData(bytes), n) == NoBytes(Timeout, [])
  {
    TakePrefix(bytes, [Silence] + rest, n - |bytes|);
    TakePrefix(bytes, [Fault] + rest, n - |bytes|);
    TakePrefix(bytes, [], n - |bytes|);
    assert AsData(bytes) + [Silence] + rest == AsData(bytes) + ([Silence] + rest);
    assert AsData(bytes) + [Fault] + rest == AsData(bytes) + ([Fault] + rest);
    assert AsData(bytes) + [] == AsData(bytes);
  }

  /** One byte past the pending echo. */
  datatype One = Got(b: byte, rest: Line) | Missed(error: ReadError, rest: Line, echo: seq<byte>) | Mismatch(rest: Line)

  function ReadOne(line: Line, echo: seq<byte>): One {
    if line == [] then Missed(Timeout, [], echo)
    else match line[0]
      case Silence => Missed(Timeout, line[1..], echo)
      case Fault => Missed(Other, line[1..], echo)
      case Data(b) =>
        if echo == [] then Got(b, line[1..])
        else if b == echo[0] then ReadOne(line[1..], echo[1..])
        else Mismatch(line[1..])
  }

  // ----- the packets the reader accepts

  /** One row of the tables of known commands; only the low byte of a command is ever compared. */
  datatype CommandRow = CommandRow(cmd: word, length: word)

  const CMD_PARAMS: seq<CommandRow> := [
    CommandRow(0x84, 1), CommandRow(0x94, 1), CommandRow(0x88, 1), CommandRow(0x9C, 1), CommandRow(0xA4, 1),
    CommandRow(0x8C, 2), CommandRow(0x80, 2), CommandRow(0xA0, 2), CommandRow(0x90, 4), CommandRow(0x98, 7)]

  const ACK_PARAMS: seq<CommandRow> := [
    CommandRow(0x0B, 2), CommandRow(0x70, 5), CommandRow(0x6C, 0x30),
    CommandRow(0x064, 0x28), CommandRow(0x164, 0x05), CommandRow(0x264, 0x20), CommandRow(0x364, 0x12),
    CommandRow(0x464, 0x0D), CommandRow(0x564, 0x12), CommandRow(0x664, 0x13), CommandRow(0x68, 0x213)]

  const ACK_INFO_MODE_0: byte := 0x64

  /** One of the first `count` rows is for this command byte and length. */
  predicate Listed(rows: seq<CommandRow>, count: nat, cmd: byte, length: word)
    requires count <= |rows|
    decreases count, cmd
  {
    count > 0 &&
    (Listed(rows, count - 1, cmd, length) || (Lsb(rows[count - 1].cmd) == cmd && rows[count - 1].length == length))
  }

  lemma {:induction false} ListedGrows(rows: seq<CommandRow>, count: nat, more: nat, cmd: byte, length: word)
    requires count <= more <= |rows| && Listed(rows, count, cmd, length)
    ensures Listed(rows, more, cmd, length)
  {
    if count < more {
      ListedGrows(rows, count, more - 1, cmd, length);
    }
  }

  /** The scan of the acknowledgement table is bounded by the size of the command table. */
  predicate LengthMatches(cmd: byte, length: word) {
    Listed(CMD_PARAMS, |CMD_PARAMS|, cmd, length) || Listed(ACK_PARAMS, |CMD_PARAMS|, cmd, length)
  }

  function TypeOf(cmd: byte, length: word): PacketType {
    if Listed(CMD_PARAMS, |CMD_PARAMS|, cmd, length) then TypeCmd else TypeAck
  }

  lemma {:induction false} ListedLength(rows: seq<CommandRow>, count: nat, cmd: byte, length: word)
    requires count <= |rows| && forall i :: 0 <= i < count ==> 1 <= rows[i].length <= 0x30
    requires Listed(rows, count, cmd, length)
    ensures 1 <= length <= 0x30
  {
    if Listed(rows, count - 1, cmd, length) {
      ListedLength(rows, count - 1, cmd, length);
    }
  }

  lemma {:induction false} ListedIs(rows: seq<CommandRow>, count: nat, cmd: byte, length: word)
    requires count <= |rows|
    ensures Listed(rows, count, cmd, length) <==>
            exists i :: 0 <= i < count && rows[i].cmd % 0x100 == cmd && rows[i].length == length
  {
    if count > 0 {
      ListedIs(rows, count - 1, cmd, length);
    }
  }

  /** The commands with their lengths, the command byte counted. */
  predicate IsCommand(cmd: byte, length: word) {
    || (length == 1 && (cmd == 0x84 || cmd == 0x94 || cmd == 0x88 || cmd == 0x9C || cmd == 0xA4))
    || (length == 2 && (cmd == 0x8C || cmd == 0x80 || cmd == 0xA0))
    || (length == 4 && cmd == 0x90)
    || (length == 7 && cmd == 0x98)
  }

  /** The acknowledgements with theirs; an information reply has six, by write mode. */
  predicate IsAcknowledgement(cmd: byte, length: word) {
    || (cmd == 0x0B && length == 2) || (cmd == 0x70 && length == 5) || (cmd == 0x6C && length == 48)
    || (cmd == 0x64 &&
        (length == 40 || length == 5 || length == 32 || length == 18 || length == 13 || length == 19))
  }

  lemma {:induction false} CommandsAre(cmd: byte, length: word)
    ensures Listed(CMD_PARAMS, |CMD_PARAMS|, cmd, length) <==> IsCommand(cmd, length)
  {
    var r := CMD_PARAMS;
    ListedIs(r, 10, cmd, length);
    if i :| 0 <= i < 10 && r[i].cmd % 0x100 == cmd && r[i].length == length {
      assert i == 0 || i == 1 || i == 2 || i == 3 || i == 4 || i == 5 || i == 6 || i == 7 || i == 8 || i == 9;
    }
    assert r[0].cmd == 0x84 && r[1].cmd == 0x94 && r[2].cmd == 0x88 && r[3].cmd == 0x9C && r[4].cmd == 0xA4;
    assert r[5].cmd == 0x8C && r[6].cmd == 0x80 && r[7].cmd == 0xA0 && r[8].cmd == 0x90 && r[9].cmd == 0x98;
  }

  lemma {:induction false} AcknowledgementsAre(cmd: byte, length: word)
    ensures Listed(ACK_PARAMS, |CMD_PARAMS|, cmd, length) <==> IsAcknowledgement(cmd, length)
  {
    var r := ACK_PARAMS;
    ListedIs(r, 10, cmd, length);
    if i :| 0 <= i < 10 && r[i].cmd % 0x100 == cmd && r[i].length == length {
      assert i == 0 || i == 1 || i == 2 || i == 3 || i == 4 || i == 5 || i == 6 || i == 7 || i == 8 || i == 9;
    }
    assert r[0].cmd == 0x0B && r[1].cmd == 0x70 && r[2].cmd == 0x6C && r[3].cmd == 0x64 && r[4].cmd == 0x164;
    assert r[5].cmd == 0x264 && r[6].cmd == 0x364 && r[7].cmd == 0x464 && r[9].cmd == 0x664;
  }

  /** The tables, spelled out: what is accepted, and as what. */
  lemma {:induction false} PairsAre(cmd: byte, length: word)
    ensures LengthMatches(cmd, length) <==> IsCommand(cmd, length) || IsAcknowledgement(cmd, length)
    ensures TypeOf(cmd, length) == if IsCommand(cmd, length) then TypeCmd else TypeAck
  {
    CommandsAre(cmd, length);
    AcknowledgementsAre(cmd, length);
  }

  lemma {:induction false} ListedBelow(rows: seq<CommandRow>, count: nat, i: nat)
    requires i < count <= |rows|
    ensures Listed(rows, count, Lsb(rows[i].cmd), rows[i].length)
  {
    if i < count - 1 {
      ListedBelow(rows, count - 1, i);
    }
  }

  lemma {:induction false} NoLonger(rows: seq<CommandRow>, count: nat, cmd: byte, length: word)
    requires count <= |rows| && forall i :: 0 <= i < count ==> rows[i].length != length
    ensures !Listed(rows, count, cmd, length)
  {
    if count > 0 {
      NoLonger(rows, count - 1, cmd, length);
    }
  }

  /** Of the acknowledgements exactly the last, ACK_STORED_INFO, is never matched. */
  lemma {:induction false} LastAckIsNeverMatched(i: nat)
    requires i < |ACK_PARAMS|
    ensures LengthMatches(Lsb(ACK_PARAMS[i].cmd), ACK_PARAMS[i].length) <==> i < |ACK_PARAMS| - 1
  {
    if i < |CMD_PARAMS| {
      ListedBelow(ACK_PARAMS, |CMD_PARAMS|, i);
    } else {
      var row := ACK_PARAMS[10];
      assert i == 10 && row.length == 0x213;
      NoLonger(CMD_PARAMS, |CMD_PARAMS|, Lsb(row.cmd), row.length);
      NoLonger(ACK_PARAMS, |CMD_PARAMS|, Lsb(row.cmd), row.length);
    }
  }

  lemma {:induction false} MatchesHaveLength(cmd: byte, length: word)
    requires LengthMatches(cmd, length)
    ensures 1 <= length <= 0x30
  {
    if Listed(CMD_PARAMS, |CMD_PARAMS|, cmd, length) {
      ListedLength(CMD_PARAMS, |CMD_PARAMS|, cmd, length);
    } else {
      ListedLength(ACK_PARAMS, |CMD_PARAMS|, cmd, length);
    }
  }

  // ----- reading a packet

  datatype Packet = Packet(kind: PacketType, cmd: word, payload: seq<byte>)

  datatype Reading = Received(packet: Packet, rest: Line) | Failed(error: ReadError, rest: Line)

  /** Replies that depend on the write mode carry it in the upper byte. */
  function FullCommand(cmd: byte, writeMode: byte): (w: word)
    ensures Lsb(w) == cmd
  {
    if cmd == ACK_INFO_MODE_0 then Join(writeMode, cmd) else cmd
  }

  /** Skip everything up to the station address. */
  function Hunt(line: Line, echo: seq<byte>): (o: One)
    decreases |line|
  {
    match ReadOne(line, echo)
    case Got(b, rest) =>
      ReadOneShrinks(line, echo);
      if b == KSU_ADDRESS then Got(b, rest) else Hunt(rest, [])
    case other => other
  }

  lemma {:induction false} ReadOneShrinks(line: Line, echo: seq<byte>)
    ensures ReadOne(line, echo).Got? ==> |ReadOne(line, echo).rest| < |line|
  {
    if line != [] && echo != [] && line[0] == Data(echo[0]) {
      ReadOneShrinks(line[1..], echo[1..]);
    }
  }

  /** The rest of a packet once its address byte has been read. */
  function ReadBody(line: Line, writeMode: byte): Reading {
    match Take(line, 2)
    case NoBytes(error, rest) => Failed(error, rest)
    case Bytes(header, afterLength) =>
      match Take(afterLength, 1)
      case NoBytes(error, rest) => Failed(error, rest)
      case Bytes(command, afterCmd) => ReadPayload(header, command[0], afterCmd, writeMode)
  }

  function ReadPayload(header: seq<byte>, cmd: byte, line: Line, writeMode: byte): Reading
    requires |header| == 2
  {
    var length := Join(header[0], header[1]);
    if !LengthMatches(cmd, length) then Failed(BadPacket, line)
    else
      MatchesHaveLength(cmd, length);
      match Take(line, length - 1)
      case NoBytes(error, rest) => Failed(error, rest)
      case Bytes(payload, rest) => ReadChecksum(header, cmd, payload, rest, writeMode)
  }

  function ReadChecksum(header: seq<byte>, cmd: byte, payload: seq<byte>, line: Line, writeMode: byte): Reading
    requires |header| == 2
  {
    match Take(line, 2)
    case NoBytes(error, rest) => Failed(error, rest)
    case Bytes(crc, rest) =>
      if Join(crc[0], crc[1]) != Checksum([KSU_ADDRESS] + header + [cmd] + payload) then Failed(BadCrc, rest)
      else Received(Packet(TypeOf(cmd, Join(header[0], header[1])), FullCommand(cmd, writeMode), payload), rest)
  }

  lemma {:induction false} PayloadTaken(header: seq<byte>, cmd: byte, line: Line, writeMode: byte, size: nat)
    requires |header| == 2 && size + 1 == Join(header[0], header[1]) && LengthMatches(cmd, Join(header[0], header[1]))
    ensures ReadPayload(header, cmd, line, writeMode) ==
            match Take(line, size)
            case NoBytes(error, rest) => Failed(error, rest)
            case Bytes(payload, rest) => ReadChecksum(header, cmd, payload, rest, writeMode)
  {
  }

  /** What one ReadPacket does: a reading and the echo still pending, or a loss of step with the echo. */
  datatype Attempt = Attempt(reading: Reading, echo: seq<byte>) | OutOfStep(rest: Line)

  function ReadPacket(line: Line, echo: seq<byte>, writeMode: byte): Attempt {
    match Hunt(line, echo)
    case Got(_, rest) => Attempt(ReadBody(rest, writeMode), [])
    case Missed(error, rest, left) => Attempt(Failed(error, rest), left)
    case Mismatch(rest) => OutOfStep(rest)
  }
}
