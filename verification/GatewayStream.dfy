/** The gateway's readers and writers as they work on streams, against the wire format. */
module GatewayStream {
  import opened Bits
  import opened GatewayWire
  import opened GatewayCommand

  class OutputStream {
    var bulk: seq<byte>

    constructor ()
      ensures bulk == []
    {
      bulk := [];
    }

    method Write(bytes: seq<byte>)
      modifies this
      ensures bulk == old(bulk) + bytes
    {
      bulk := bulk + bytes;
    }
  }

  // ----- writers; a false result stands for a thrown error

  method WriteInt(stream: OutputStream, item: int32)
    modifies stream
    ensures stream.bulk == old(stream.bulk) + EncodeInt(item)
  {
    stream.Write(EncodeInt(item));
  }

  method WriteSize(stream: OutputStream, item: nat) returns (ok: bool)
    modifies stream
    ensures ok == (item <= INT_MAX)
    ensures stream.bulk == if item <= INT_MAX then old(stream.bulk) + EncodeInt(item) else old(stream.bulk)
  {
    if item > INT_MAX {
      return false;
    }
    WriteInt(stream, item);
    ok := true;
  }

  method WriteText(stream: OutputStream, text: Text) returns (ok: bool)
    modifies stream
    ensures ok == (TextSize(text) - 4 <= INT_MAX)
    ensures stream.bulk == old(stream.bulk) + if ok then TextBytes(text) else []
  {
    var p := Pad(|text|);
    ok := WriteSize(stream, |text| + p);
    if ok {
      stream.Write(text);
      stream.Write(ZeroBytes(p));
      Nest(old(stream.bulk), EncodeInt(|text| + p), text, ZeroBytes(p));
    }
  }

  method WriteHead(stream: OutputStream, head: Head)
    modifies stream
    ensures stream.bulk == old(stream.bulk) + HeadBytes(head)
  {
    WriteInt(stream, head.id);
    WriteInt(stream, head.channel);
    stream.Write(head.date);
    assert stream.bulk == old(stream.bulk) + HeadBytes(head);
  }

  lemma {:induction false} TextStep(now: seq<byte>, texts: seq<Text>, i: nat)
    requires i < |texts| && TextsSize(texts[i..]) <= INT_MAX
    ensures TextSize(texts[i]) <= INT_MAX && TextsSize(texts[i + 1..]) <= INT_MAX
    ensures now + TextBytes(texts[i]) + TextsBytes(texts[i + 1..]) == now + TextsBytes(texts[i..])
  {
  }

  method WriteArgument(stream: OutputStream, args: seq<Text>, i: nat)
    requires i < |args| && TextsSize(args[i..]) <= INT_MAX
    modifies stream
    ensures TextsSize(args[i + 1..]) <= INT_MAX
    ensures stream.bulk + TextsBytes(args[i + 1..]) == old(stream.bulk) + TextsBytes(args[i..])
  {
    TextStep(stream.bulk, args, i);
    var _ := WriteText(stream, args[i]);
  }

  lemma {:induction false} NoTexts(now: seq<byte>, texts: seq<Text>)
    requires texts == []
    ensures now + TextsBytes(texts) == now
  {
  }

  method WriteArguments(stream: OutputStream, args: FourTexts)
    requires TextsSize(args) <= INT_MAX
    modifies stream
    ensures stream.bulk == old(stream.bulk) + TextsBytes(args)
  {
    assert args[0..] == args;
    WriteArgument(stream, args, 0);
    WriteArgument(stream, args, 1);
    WriteArgument(stream, args, 2);
    WriteArgument(stream, args, 3);
    NoTexts(stream.bulk, args[4..]);
  }

  method WriteEvent(stream: OutputStream, head: Head, args: FourTexts)
    requires TextsSize(args) <= INT_MAX
    modifies stream
    ensures stream.bulk == old(stream.bulk) + (HeadBytes(head) + TextsBytes(args))
  {
    WriteHead(stream, head);
    WriteArguments(stream, args);
    Nest(old(stream.bulk), HeadBytes(head), TextsBytes(args), []);
  }

  method WriteSample(stream: OutputStream, head: Head, value: FloatBits)
    modifies stream
    ensures stream.bulk == old(stream.bulk) + (HeadBytes(head) + EncodeInt(value))
  {
    WriteHead(stream, head);
    WriteInt(stream, value);
    Nest(old(stream.bulk), HeadBytes(head), EncodeInt(value), []);
  }

  /** Called once write_packet has found the total, and so this record, small enough. */
  method WriteRecord(stream: OutputStream, item: Record)
    requires RecordSize(item) <= INT_MAX
    modifies stream
    ensures stream.bulk == old(stream.bulk) + RecordBytes(item)
  {
    match item {
      case Sample(head, value) => WriteSample(stream, head, value);
      case LogEvent(head, args) => WriteEvent(stream, head, args);
      case Channel(channel) => WriteInt(stream, channel);
      case Name(name) => var _ := WriteText(stream, name);
    }
  }

  lemma {:induction false} SizeWithEors(items: seq<Record>, useEors: bool)
    ensures PacketSize(items, useEors) == PacketSize(items, false) + if useEors then 4 * |items| else 0
  {
    if items != [] {
      SizeWithEors(items[1..], useEors);
    }
  }

  /** The first loop of write_packet. */
  method TotalSize(items: seq<Record>) returns (total: nat)
    ensures total == PacketSize(items, false)
  {
    total := 0;
    assert items[0..] == items;
    for i := 0 to |items|
      invariant total + PacketSize(items[i..], false) == PacketSize(items, false)
    {
      assert items[i..][1..] == items[i + 1..];
      total := total + RecordSize(items[i]);
    }
  }

  lemma {:induction false} HeaderAndBody(now: seq<byte>, size: nat, items: seq<Record>, useEors: bool)
    requires size == PacketSize(items, useEors) <= INT_MAX
    ensures now + EncodeInt(size) + PacketBody(items, useEors) == now + PacketBytes(items, useEors)
  {
  }

  method WritePacket(stream: OutputStream, items: seq<Record>, useEors: bool) returns (ok: bool)
    modifies stream
    ensures ok == (PacketSize(items, useEors) <= INT_MAX)
    ensures stream.bulk == old(stream.bulk) + if ok then PacketBytes(items, useEors) else []
  {
    var total := TotalSize(items);
    SizeWithEors(items, useEors);
    total := total + if useEors then 4 * |items| else 0;
    assert total == PacketSize(items, useEors);
    ok := WriteSize(stream, total);
    if !ok {
      return;
    }
    WriteItems(stream, items, useEors);
    HeaderAndBody(old(stream.bulk), total, items, useEors);
  }

  lemma {:induction false} BodyStep(written: seq<byte>, now: seq<byte>, items: seq<Record>, i: nat, useEors: bool)
    requires i < |items| && PacketSize(items[i..], useEors) <= INT_MAX
    requires written == now + RecordBytes(items[i]) + EorBytes(useEors)
    ensures PacketSize(items[i + 1..], useEors) <= INT_MAX
    ensures written + PacketBody(items[i + 1..], useEors) == now + PacketBody(items[i..], useEors)
  {
    assert items[i..][1..] == items[i + 1..];
    Nest(now, RecordBytes(items[i]), EorBytes(useEors), PacketBody(items[i + 1..], useEors));
  }

  /** The second loop of write_packet. */
  method WriteItems(stream: OutputStream, items: seq<Record>, useEors: bool)
    requires PacketSize(items, useEors) <= INT_MAX
    modifies stream
    ensures stream.bulk == old(stream.bulk) + PacketBody(items, useEors)
  {
    assert items[0..] == items;
    for i := 0 to |items|
      invariant PacketSize(items[i..], useEors) <= INT_MAX
      invariant stream.bulk + PacketBody(items[i..], useEors) == old(stream.bulk) + PacketBody(items, useEors)
    {
      ghost var now := stream.bulk;
      WriteRecord(stream, items[i]);
      if useEors {
        stream.Write(EOR);
      }
      BodyStep(stream.bulk, now, items, i, useEors);
    }
  }

  /** The mark goes out first, so a packet that is too large leaves the mark behind. */
  method BinWrite(stream: OutputStream, c: Command) returns (ok: bool)
    modifies stream
    ensures ok == Writable(c)
    ensures stream.bulk == old(stream.bulk) + if ok then CommandBytes(c) else TypeMark(c.kind)
    ensures |stream.bulk| >= |old(stream.bulk)| + 4
    ensures stream.bulk[|old(stream.bulk)|..][..4] ==
            match c.kind
            case Wrp => [0x57, 0x52, 0x50, 0x00]
            case Wre => [0x57, 0x52, 0x45, 0x00]
            case Rdp => [0x52, 0x44, 0x50, 0x00]
            case Rde => [0x52, 0x44, 0x45, 0x00]
            case Rds => [0x52, 0x44, 0x53, 0x00]
  {
    var mark := TypeMark(c.kind);
    stream.Write(mark);
    ok := WritePacket(stream, c.items, UsesEors(c.kind));
    if ok {
      stream.Write(EOC);
      Nest(old(stream.bulk), mark, PacketBytes(c.items, UsesEors(c.kind)), EOC);
    }
    assert stream.bulk[|old(stream.bulk)|..] == if ok then CommandBytes(c) else mark;
  }

  // ----- readers

  datatype Result<+T> = Value(value: T) | Throws(error: WireError)

  class InputStream {
    const data: seq<byte>
    var pos: nat

    ghost predicate Valid()
      reads this
    {
      pos <= |data|
    }

    ghost function Unread(): seq<byte>
      requires Valid()
      reads this
    {
      data[pos..]
    }

    constructor (data: seq<byte>)
      ensures Valid() && Unread() == data && pos == 0 && this.data == data
    {
      this.data, pos := data, 0;
    }

    method Read(n: nat) returns (r: Result<seq<byte>>)
      requires Valid()
      modifies this
      ensures Valid() && Agrees(ReadBytes(old(Unread()), n), r, Unread())
    {
      if |data| - pos < n {
        return Throws(Truncated);
      }
      r := Value(data[pos..pos + n]);
      assert Unread()[..n] == data[pos..pos + n] && Unread()[n..] == data[pos + n..];
      pos := pos + n;
    }
  }

  /** A reader's result and what it leaves unread, against the format; after an error no position is promised. */
  ghost predicate Agrees<T(!new)>(p: Parsed<T>, r: Result<T>, unread: seq<byte>) {
    match p
    case Ok(v, rest) => r == Value(v) && unread == rest
    case Err(e) => r == Throws(e)
  }

  method ReadIntItem(stream: InputStream) returns (r: Result<int32>)
    requires stream.Valid()
    modifies stream
    ensures stream.Valid() && Agrees(ReadInt(old(stream.Unread())), r, stream.Unread())
  {
    var b := stream.Read(4);
    match b {
      case Throws(e) => r := Throws(e);
      case Value(bytes) => r := Value(DecodeInt(bytes));
    }
  }

  method ReadSizeItem(stream: InputStream) returns (r: Result<nat>)
    requires stream.Valid()
    modifies stream
    ensures stream.Valid() && Agrees(ReadSize(old(stream.Unread())), r, stream.Unread())
  {
    var i := ReadIntItem(stream);
    match i {
      case Throws(e) => r := Throws(e);
      case Value(n) => r := if n < 0 then Throws(NegativeSize) else Value(n);
    }
  }

  method ReadTextItem(stream: InputStream) returns (r: Result<Text>)
    requires stream.Valid()
    modifies stream
    ensures stream.Valid() && Agrees(ReadText(old(stream.Unread())), r, stream.Unread())
  {
    var size := ReadSizeItem(stream);
    if size.Throws? {
      return Throws(size.error);
    }
    var b := stream.Read(size.value);
    if b.Throws? {
      return b;
    }
    var buffer := b.value;
    while buffer != [] && buffer[|buffer| - 1] == 0
      invariant StripZeros(buffer) == StripZeros(b.value)
    {
      buffer := buffer[..|buffer| - 1];
    }
    r := Value(buffer);
  }

  method ReadHeadItem(stream: InputStream) returns (r: Result<Head>)
    requires stream.Valid()
    modifies stream
    ensures stream.Valid() && Agrees(ReadHead(old(stream.Unread())), r, stream.Unread())
  {
    var id := ReadIntItem(stream);
    if id.Throws? {
      return Throws(id.error);
    }
    var channel := ReadIntItem(stream);
    if channel.Throws? {
      return Throws(channel.error);
    }
    var date := stream.Read(DATE_SIZE);
    if date.Throws? {
      return Throws(date.error);
    }
    r := Value(Head(id.value, channel.value, date.value));
  }

  /** What is still to be read, put behind what has been. */
  function Prepend<T>(done: seq<T>, p: Parsed<seq<T>>): Parsed<seq<T>> {
    match p
    case Ok(items, rest) => Ok(done + items, rest)
    case Err(e) => Err(e)
  }

  lemma {:induction false} PrependNone<T>(p: Parsed<seq<T>>)
    ensures Prepend([], p) == p
  {
    if p.Ok? {
      assert [] + p.value == p.value;
    }
  }

  lemma {:induction false} PrependAll<T>(done: seq<T>, rest: seq<byte>)
    ensures Prepend(done, Ok([], rest)) == Ok(done, rest)
  {
    assert done + [] == done;
  }

  lemma {:induction false} PrependOne<T>(done: seq<T>, item: T, p: Parsed<seq<T>>)
    ensures Prepend(done + [item], p) == match p
      case Ok(items, rest) => Ok(done + ([item] + items), rest)
      case Err(e) => Err(e)
  {
    if p.Ok? {
      assert done + [item] + p.value == done + ([item] + p.value);
    }
  }

  method ReadSampleItem(stream: InputStream) returns (r: Result<Record>)
    requires stream.Valid()
    modifies stream
    ensures stream.Valid() && Agrees(ReadRecord(SampleKind, old(stream.Unread())), r, stream.Unread())
  {
    var head := ReadHeadItem(stream);
    if head.Throws? {
      return Throws(head.error);
    }
    var value := ReadIntItem(stream);
    if value.Throws? {
      return Throws(value.error);
    }
    r := Value(Sample(head.value, value.value));
  }

  method ReadEventItem(stream: InputStream) returns (r: Result<Record>)
    requires stream.Valid()
    modifies stream
    ensures stream.Valid() && Agrees(ReadRecord(EventKind, old(stream.Unread())), r, stream.Unread())
  {
    var head := ReadHeadItem(stream);
    if head.Throws? {
      return Throws(head.error);
    }
    var args := ReadArguments(stream);
    if args.Throws? {
      return Throws(args.error);
    }
    r := Value(LogEvent(head.value, args.value));
  }

  /** The next of n strings still due, behind those already read. */
  method ReadArgument(stream: InputStream, done: seq<Text>, ghost n: nat) returns (r: Result<seq<Text>>)
    requires stream.Valid() && n > 0
    modifies stream
    ensures stream.Valid()
    ensures match r
      case Throws(e) => ReadTexts(old(stream.Unread()), n) == Err(e)
      case Value(texts) =>
        && |texts| == |done| + 1
        && Prepend(done, ReadTexts(old(stream.Unread()), n)) == Prepend(texts, ReadTexts(stream.Unread(), n - 1))
  {
    var text := ReadTextItem(stream);
    if text.Throws? {
      return Throws(text.error);
    }
    r := Value(done + [text.value]);
    PrependOne(done, text.value, ReadTexts(stream.Unread(), n - 1));
  }

  method ReadArguments(stream: InputStream) returns (r: Result<seq<Text>>)
    requires stream.Valid()
    modifies stream
    ensures stream.Valid() && Agrees(ReadTexts(old(stream.Unread()), 4), r, stream.Unread())
  {
    ghost var n: nat :| n == 4;
    ghost var all := ReadTexts(stream.Unread(), n);
    PrependNone(all);
    r := ReadArgument(stream, [], n);
    if r.Throws? {
      return;
    }
    r := ReadArgument(stream, r.value, n - 1);
    if r.Throws? {
      return;
    }
    r := ReadArgument(stream, r.value, n - 2);
    if r.Throws? {
      return;
    }
    r := ReadArgument(stream, r.value, n - 3);
    if r.Value? {
      PrependAll(r.value, stream.Unread());
      assert all == Ok(r.value, stream.Unread());
    }
  }

  method ReadRecordItem(stream: InputStream, kind: Kind) returns (r: Result<Record>)
    requires stream.Valid()
    modifies stream
    ensures stream.Valid() && Agrees(ReadRecord(kind, old(stream.Unread())), r, stream.Unread())
  {
    match kind {
      case SampleKind => r := ReadSampleItem(stream);
      case EventKind => r := ReadEventItem(stream);
      case ChannelKind =>
        var channel := ReadIntItem(stream);
        r := if channel.Throws? then Throws(channel.error) else Value(Channel(channel.value));
      case NameKind =>
        var name := ReadTextItem(stream);
        r := if name.Throws? then Throws(name.error) else Value(Name(name.value));
    }
  }

  method ReadMarkItem(stream: InputStream, expected: Mark) returns (r: Result<Mark>)
    requires stream.Valid()
    modifies stream
    ensures stream.Valid() && Agrees(ReadMark(old(stream.Unread()), expected), r, stream.Unread())
  {
    var mark := stream.Read(4);
    if mark.Throws? {
      return Throws(mark.error);
    }
    r := if mark.value == expected then Value(mark.value) else Throws(WrongMark);
  }

  method ReadMarkedItem(stream: InputStream, kind: Kind, useEors: bool) returns (r: Result<Record>)
    requires stream.Valid()
    modifies stream
    ensures stream.Valid() && Agrees(ReadItem(kind, useEors, old(stream.Unread())), r, stream.Unread())
  {
    r := ReadRecordItem(stream, kind);
    if r.Value? && useEors {
      var mark := ReadMarkItem(stream, EOR);
      if mark.Throws? {
        r := Throws(mark.error);
      }
    }
  }

  /** The loop of read_packet, from the position after the header. */
  method ReadItemsOf(stream: InputStream, kind: Kind, useEors: bool, size: nat) returns (r: Result<seq<Record>>)
    requires stream.Valid()
    modifies stream
    ensures stream.Valid()
    ensures Agrees(ReadItems(kind, useEors, old(stream.Unread()), |old(stream.Unread())| - size), r, stream.Unread())
  {
    var start := stream.pos;
    ghost var end := |stream.Unread()| - size;
    ghost var all := ReadItems(kind, useEors, stream.Unread(), end);
    var items := [];
    PrependNone(all);
    while stream.pos - start < size
      invariant stream.Valid() && start <= stream.pos && |stream.Unread()| - end == size - (stream.pos - start)
      invariant all == Prepend(items, ReadItems(kind, useEors, stream.Unread(), end))
      decreases |stream.data| - stream.pos
    {
      ghost var unread := stream.Unread();
      ReadsForward(kind, useEors, unread);
      var item := ReadMarkedItem(stream, kind, useEors);
      if item.Throws? {
        return Throws(item.error);
      }
      PrependOne(items, item.value, ReadItems(kind, useEors, stream.Unread(), end));
      items := items + [item.value];
    }
    if stream.pos - start != size {
      return Throws(Overrun);
    }
    PrependAll(items, stream.Unread());
    assert all == Ok(items, stream.Unread());
    r := Value(items);
  }

  method ReadPacketItems(stream: InputStream, kind: Kind, useEors: bool) returns (r: Result<seq<Record>>)
    requires stream.Valid()
    modifies stream
    ensures stream.Valid() && Agrees(ReadPacket(kind, useEors, old(stream.Unread())), r, stream.Unread())
  {
    var size := ReadSizeItem(stream);
    if size.Throws? {
      return Throws(size.error);
    }
    if size.value % ALIGNMENT != 0 {
      return Throws(Misaligned);
    }
    r := ReadItemsOf(stream, kind, useEors, size.value);
  }

  method BinRead(stream: InputStream) returns (r: Result<Command>)
    requires stream.Valid()
    modifies stream
    ensures stream.Valid() && Agrees(ReadCommand(old(stream.Unread())), r, stream.Unread())
  {
    var mark := stream.Read(4);
    if mark.Throws? {
      return Throws(mark.error);
    }
    var t;
    match TypeRead(mark.value) {
      case Ok(read, _) => t := read;
      case Err(e) => return Throws(e);
    }
    var items := ReadPacketItems(stream, ItemKind(t), UsesEors(t));
    if items.Throws? {
      return Throws(items.error);
    }
    var end := ReadMarkItem(stream, EOC);
    if end.Throws? {
      return Throws(end.error);
    }
    r := Value(Command(t, items.value));
  }
}
