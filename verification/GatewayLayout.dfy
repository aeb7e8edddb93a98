/** The gateway's format byte by byte: what stands where in what is written, and what the bytes mean to the reader. */
module GatewayLayout {
  import opened Bits
  import opened GatewayWire
  import opened GatewayCommand
  import opened Sequences

  // ----- numbers and strings

  /** The unsigned number in four bytes, most significant byte first. */
  function Unsigned(b: seq<byte>): int
    requires |b| == 4
  {
    var b3: int, b2: int, b1: int, b0: int := b[0], b[1], b[2], b[3];
    b3 * 0x100_0000 + b2 * 0x1_0000 + b1 * 0x100 + b0
  }

  /** Numbers travel in network byte order, negative ones as their two's complement. */
  lemma {:induction false} NumberWritten(i: int32)
    ensures Unsigned(EncodeInt(i)) == if i < 0 then i + 0x1_0000_0000 else i
  {
  }

  lemma {:induction false} NumberRead(b: seq<byte>, rest: seq<byte>)
    requires |b| == 4
    ensures var n := Unsigned(b);
            ReadInt(b + rest) == Ok(if n >= 0x8000_0000 then n - 0x1_0000_0000 else n, rest)
  {
    ReadBytesBack(b, rest);
  }

  /** The length ahead of a string is the least multiple of four that the string fits into; zeros fill it up. */
  lemma {:induction false} TextWritten(s: Text)
    requires TextSize(s) - 4 <= INT_MAX
    ensures var bytes := TextBytes(s);
            var n: nat := |bytes| - 4;
            && n % 4 == 0 && |s| <= n < |s| + 4
            && bytes[..4] == EncodeInt(n) && bytes[4..4 + |s|] == s
            && forall i :: 4 + |s| <= i < |bytes| ==> bytes[i] == 0
  {
    TextAligned(s);
    var bytes := TextBytes(s);
    assert bytes == EncodeInt(|Padded(s)|) + Padded(s);
    assert bytes[4..] == Padded(s) && Padded(s)[..|s|] == s;
  }

  /** Any announced length that is not negative is taken, aligned or not; too few bytes behind it are an error. */
  lemma {:induction false} TextRead(n: int32, s: Text, rest: seq<byte>)
    ensures n < 0 ==> ReadText(EncodeInt(n) + s) == Err(NegativeSize)
    ensures |s| < n ==> ReadText(EncodeInt(n) + s) == Err(Truncated)
    ensures |s| == n ==> ReadText(EncodeInt(n) + (s + rest)) == Ok(StripZeros(s), rest)
  {
    ReadIntBack(n, s);
    ReadIntBack(n, s + rest);
    ReadBytesBack(s, rest);
  }

  // ----- records

  lemma {:induction false} FourTextsWritten(a: Text, b: Text, c: Text, d: Text)
    requires TextsSize([a, b, c, d]) <= INT_MAX
    ensures TextSize(a) + TextSize(b) + TextSize(c) + TextSize(d) == TextsSize([a, b, c, d])
    ensures TextsBytes([a, b, c, d]) == TextBytes(a) + TextBytes(b) + TextBytes(c) + TextBytes(d)
  {
    var none: seq<Text> := [];
    assert [a, b, c, d][1..] == [b, c, d] && [b, c, d][1..] == [c, d] && [c, d][1..] == [d] && [d][1..] == none;
    assert TextsSize([d]) == TextSize(d) + TextsSize(none) && TextsSize([c, d]) == TextSize(c) + TextsSize([d]);
    assert TextsSize([b, c, d]) == TextSize(b) + TextsSize([c, d]);
    assert TextsBytes([d]) == TextBytes(d) + TextsBytes(none) == TextBytes(d);
    assert TextsBytes([c, d]) == TextBytes(c) + TextsBytes([d]);
    assert TextsBytes([b, c, d]) == TextBytes(b) + TextsBytes([c, d]);
    Nest(TextBytes(a), TextBytes(b), TextBytes(c), TextBytes(d));
    Nest(TextBytes(b), TextBytes(c), TextBytes(d), []);
  }

  /** The order of the parts of a sample. */
  lemma {:induction false} SampleWritten(id: int32, channel: int32, date: Date, value: FloatBits)
    ensures RecordBytes(Sample(Head(id, channel, date), value)) ==
            EncodeInt(id) + EncodeInt(channel) + date + EncodeInt(value)
  {
  }

  /** The order of the parts of an event. */
  lemma {:induction false} EventWritten(id: int32, channel: int32, date: Date, a: Text, b: Text, c: Text, d: Text)
    requires RecordSize(LogEvent(Head(id, channel, date), [a, b, c, d])) <= INT_MAX
    ensures TextSize(a) + TextSize(b) + TextSize(c) + TextSize(d) <= INT_MAX
    ensures RecordBytes(LogEvent(Head(id, channel, date), [a, b, c, d])) ==
            EncodeInt(id) + EncodeInt(channel) + date + (TextBytes(a) + TextBytes(b) + TextBytes(c) + TextBytes(d))
  {
    FourTextsWritten(a, b, c, d);
  }

  lemma {:induction false} ListEntriesWritten(channel: int32, name: Text)
    ensures RecordBytes(Channel(channel)) == EncodeInt(channel)
    ensures TextSize(name) <= INT_MAX ==> RecordBytes(Name(name)) == TextBytes(name)
  {
  }

  // ----- packets

  lemma {:induction false} SizeOfConcat(x: seq<Record>, y: seq<Record>, useEors: bool)
    ensures PacketSize(x + y, useEors) == PacketSize(x, useEors) + PacketSize(y, useEors)
    decreases |x|
  {
    if x == [] {
      assert x + y == y;
    } else {
      assert (x + y)[1..] == x[1..] + y;
      SizeOfConcat(x[1..], y, useEors);
    }
  }

  lemma {:induction false} FirstRecord(r: Record, items: seq<Record>, useEors: bool) returns (first: seq<byte>)
    requires PacketSize([r] + items, useEors) <= INT_MAX
    ensures PacketSize(items, useEors) <= INT_MAX && RecordSize(r) <= INT_MAX
    ensures first == RecordBytes(r) + EorBytes(useEors)
    ensures PacketBody([r] + items, useEors) == first + PacketBody(items, useEors)
  {
    assert ([r] + items)[1..] == items;
    first := RecordBytes(r) + EorBytes(useEors);
  }

  lemma {:induction false} BodyStep(r: Record, x: seq<Record>, y: seq<Record>, useEors: bool)
    requires PacketSize([r] + x, useEors) <= INT_MAX && PacketSize([r] + (x + y), useEors) <= INT_MAX
    requires PacketSize(x, useEors) <= INT_MAX && PacketSize(y, useEors) <= INT_MAX
    requires PacketSize(x + y, useEors) <= INT_MAX
    requires PacketBody(x + y, useEors) == PacketBody(x, useEors) + PacketBody(y, useEors)
    ensures PacketBody([r] + (x + y), useEors) == PacketBody([r] + x, useEors) + PacketBody(y, useEors)
  {
    var first := FirstRecord(r, x, useEors);
    var same := FirstRecord(r, x + y, useEors);
    Associate(first, PacketBody(x, useEors), PacketBody(y, useEors));
  }

  lemma {:induction false} BodyOfConcat(x: seq<Record>, y: seq<Record>, useEors: bool)
    requires PacketSize(x, useEors) + PacketSize(y, useEors) <= INT_MAX
    ensures PacketSize(x + y, useEors) <= INT_MAX
    ensures PacketBody(x + y, useEors) == PacketBody(x, useEors) + PacketBody(y, useEors)
    decreases |x|
  {
    SizeOfConcat(x, y, useEors);
    if x == [] {
      assert x + y == y;
    } else {
      var rest := x[1..];
      assert x == [x[0]] + rest && x + y == [x[0]] + (rest + y);
      SizeOfConcat(rest, y, useEors);
      BodyOfConcat(rest, y, useEors);
      BodyStep(x[0], rest, y, useEors);
    }
  }

  lemma {:induction false} OneRecord(r: Record, useEors: bool)
    requires PacketSize([r], useEors) <= INT_MAX
    ensures RecordSize(r) <= INT_MAX && PacketSize([r], useEors) == RecordSize(r) + if useEors then 4 else 0
    ensures PacketBody([r], useEors) == RecordBytes(r) + if useEors then [0x24, 0x80, 0x80, 0x80] else []
  {
    var none: seq<Record> := [];
    assert [r][1..] == none && PacketBody(none, useEors) == [];
    assert PacketBody([r], useEors) == RecordBytes(r) + EorBytes(useEors) + PacketBody(none, useEors);
  }

  /** The records follow each other; behind every one of them stands the end-of-record mark, if the packet uses it. */
  lemma {:induction false} RecordsInARow(x: seq<Record>, r: Record, useEors: bool)
    requires PacketSize(x + [r], useEors) <= INT_MAX
    ensures PacketSize(x, useEors) <= INT_MAX && RecordSize(r) <= INT_MAX && PacketBody([], useEors) == []
    ensures PacketBody(x + [r], useEors) ==
            PacketBody(x, useEors) + (RecordBytes(r) + if useEors then [0x24, 0x80, 0x80, 0x80] else [])
  {
    SizeOfConcat(x, [r], useEors);
    BodyOfConcat(x, [r], useEors);
    OneRecord(r, useEors);
  }

  // ----- commands

  /** The mark of the type in ASCII, the length of what the packet holds, the packet, the end-of-command mark. */
  lemma {:induction false} CommandWritten(items: seq<Record>)
    ensures Writable(Command(Wrp, items)) ==> var body := PacketBody(items, true);
              |body| <= INT_MAX && CommandBytes(Command(Wrp, items)) ==
              [0x57, 0x52, 0x50, 0x00] + (EncodeInt(|body|) + body) + [0x24, 0x2F, 0x80, 0x80]
    ensures Writable(Command(Wre, items)) ==> var body := PacketBody(items, true);
              |body| <= INT_MAX && CommandBytes(Command(Wre, items)) ==
              [0x57, 0x52, 0x45, 0x00] + (EncodeInt(|body|) + body) + [0x24, 0x2F, 0x80, 0x80]
    ensures Writable(Command(Rdp, items)) ==> var body := PacketBody(items, false);
              |body| <= INT_MAX && CommandBytes(Command(Rdp, items)) ==
              [0x52, 0x44, 0x50, 0x00] + (EncodeInt(|body|) + body) + [0x24, 0x2F, 0x80, 0x80]
    ensures Writable(Command(Rde, items)) ==> var body := PacketBody(items, false);
              |body| <= INT_MAX && CommandBytes(Command(Rde, items)) ==
              [0x52, 0x44, 0x45, 0x00] + (EncodeInt(|body|) + body) + [0x24, 0x2F, 0x80, 0x80]
    ensures Writable(Command(Rds, items)) ==> var body := PacketBody(items, true);
              |body| <= INT_MAX && CommandBytes(Command(Rds, items)) ==
              [0x52, 0x44, 0x53, 0x00] + (EncodeInt(|body|) + body) + [0x24, 0x2F, 0x80, 0x80]
  {
    if PacketSize(items, true) <= INT_MAX {
      PacketAligned(items, true);
    }
    if PacketSize(items, false) <= INT_MAX {
      PacketAligned(items, false);
    }
  }

  /** The first four bytes decide the type of a command; unknown ones are an error. */
  lemma {:induction false} MarkDecides(bytes: seq<byte>)
    ensures |bytes| < 4 ==> ReadCommand(bytes) == Err(Truncated)
    ensures |bytes| >= 4 ==>
              var mark, p := bytes[..4], ReadCommand(bytes);
              if mark == [0x57, 0x52, 0x50, 0x00] then p.Ok? ==> p.value.kind == Wrp
              else if mark == [0x57, 0x52, 0x45, 0x00] then p.Ok? ==> p.value.kind == Wre
              else if mark == [0x52, 0x44, 0x50, 0x00] then p.Ok? ==> p.value.kind == Rdp
              else if mark == [0x52, 0x44, 0x45, 0x00] then p.Ok? ==> p.value.kind == Rdp
              else if mark == [0x52, 0x44, 0x53, 0x00] then p.Ok? ==> p.value.kind == Rds
              else p == Err(UnknownCommand)
  {
  }

  /** The type decides what the records are. */
  lemma {:induction false} TypeDecides(bytes: seq<byte>)
    requires ReadCommand(bytes).Ok?
    ensures var c := ReadCommand(bytes).value;
            forall i :: 0 <= i < |c.items| ==>
              || (c.kind == Wrp && c.items[i].Sample?) || (c.kind == Wre && c.items[i].LogEvent?)
              || (c.kind == Rdp && c.items[i].Channel?) || (c.kind == Rds && c.items[i].Name?)
  {
    CommandIsClean(bytes);
  }

  /** A packet's announced length must be neither negative nor off the alignment. */
  lemma {:induction false} LengthRefused(kind: Kind, useEors: bool, n: int32, rest: seq<byte>)
    ensures n < 0 ==> ReadPacket(kind, useEors, EncodeInt(n) + rest) == Err(NegativeSize)
    ensures n > 0 && n % 4 != 0 ==> ReadPacket(kind, useEors, EncodeInt(n) + rest) == Err(Misaligned)
    ensures n == 0 ==> ReadPacket(kind, useEors, EncodeInt(n) + rest) == Ok([], rest)
  {
    ReadIntBack(n, rest);
  }

  /** Behind a command's packet nothing but the end-of-command mark is accepted. */
  lemma {:induction false} EndRefused(c: Command, rest: seq<byte>)
    requires WellTyped(c) && Writable(c)
    requires |rest| >= 4 ==> rest[..4] != [0x24, 0x2F, 0x80, 0x80]
    ensures ReadCommand(TypeMark(c.kind) + (PacketBytes(c.items, UsesEors(c.kind)) + rest)) ==
            Err(if |rest| < 4 then Truncated else WrongMark)
  {
    var packet := PacketBytes(c.items, UsesEors(c.kind));
    var t := if c.kind == Rde then Rdp else c.kind;
    ReadBytesBack(TypeMark(c.kind), packet + rest);
    MarksDiffer(c.kind);
    ReadPacketBack(c.items, ItemKind(t), UsesEors(t), rest);
  }
}
