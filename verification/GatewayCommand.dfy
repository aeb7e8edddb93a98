/** Packets of records and the five gateway commands: what is written, what is read, and why they agree. */
module GatewayCommand {
  import opened Bits
  import opened GatewayWire

  /** The end-of-record mark. */
  const EOR: Mark := [0x24, 0x80, 0x80, 0x80]

  /** The end-of-command mark. */
  const EOC: Mark := [0x24, 0x2F, 0x80, 0x80]

  // ----- packets

  function EorSize(useEors: bool): nat {
    if useEors then 4 else 0
  }

  function EorBytes(useEors: bool): (bytes: seq<byte>)
    ensures |bytes| == EorSize(useEors)
  {
    if useEors then EOR else []
  }

  /** The size announced in a packet header. */
  function PacketSize(items: seq<Record>, useEors: bool): nat {
    if items == [] then 0 else RecordSize(items[0]) + EorSize(useEors) + PacketSize(items[1..], useEors)
  }

  function PacketBody(items: seq<Record>, useEors: bool): seq<byte>
    requires PacketSize(items, useEors) <= INT_MAX
  {
    if items == [] then [] else RecordBytes(items[0]) + EorBytes(useEors) + PacketBody(items[1..], useEors)
  }

  function PacketBytes(items: seq<Record>, useEors: bool): seq<byte>
    requires PacketSize(items, useEors) <= INT_MAX
  {
    EncodeInt(PacketSize(items, useEors)) + PacketBody(items, useEors)
  }

  function ReadMark(bytes: seq<byte>, expected: Mark): Parsed<Mark> {
    match ReadBytes(bytes, 4)
    case Err(e) => Err(e)
    case Ok(mark, rest) => if mark == expected then Ok(mark, rest) else Err(WrongMark)
  }

  /** One record and, where the packet uses them, its end-of-record mark. */
  function ReadItem(kind: Kind, useEors: bool, bytes: seq<byte>): Parsed<Record> {
    match ReadRecord(kind, bytes)
    case Err(e) => Err(e)
    case Ok(item, rest) =>
      if !useEors then Ok(item, rest)
      else match ReadMark(rest, EOR)
        case Err(e) => Err(e)
        case Ok(_, after) => Ok(item, after)
  }

  lemma {:induction false} ReadsForward(kind: Kind, useEors: bool, bytes: seq<byte>)
    ensures ReadItem(kind, useEors, bytes).Ok? ==> |ReadItem(kind, useEors, bytes).rest| + 4 <= |bytes|
  {
    RecordForward(kind, bytes);
  }

  /** Records until no more than `end` bytes are unread; reading beyond that point is an error. */
  function ReadItems(kind: Kind, useEors: bool, bytes: seq<byte>, end: int): Parsed<seq<Record>>
    decreases |bytes|
  {
    if |bytes| < end then Err(Overrun)
    else if |bytes| == end then Ok([], bytes)
    else match ReadItem(kind, useEors, bytes)
      case Err(e) => Err(e)
      case Ok(item, rest) =>
        ReadsForward(kind, useEors, bytes);
        match ReadItems(kind, useEors, rest, end)
        case Err(e) => Err(e)
        case Ok(items, after) => Ok([item] + items, after)
  }

  function ReadPacket(kind: Kind, useEors: bool, bytes: seq<byte>): Parsed<seq<Record>> {
    match ReadSize(bytes)
    case Err(e) => Err(e)
    case Ok(size, rest) =>
      if size % ALIGNMENT != 0 then Err(Misaligned) else ReadItems(kind, useEors, rest, |rest| - size)
  }

  ghost predicate AllOfKind(items: seq<Record>, kind: Kind) {
    forall i :: 0 <= i < |items| ==> KindOf(items[i]) == kind
  }

  function NormalAll(items: seq<Record>): (n: seq<Record>)
    ensures |n| == |items| && forall i :: 0 <= i < |items| ==> n[i] == Normal(items[i])
  {
    if items == [] then [] else [Normal(items[0])] + NormalAll(items[1..])
  }

  /** The header is the length of the body, and aligned: none of the reader's checks can fire on it. */
  lemma {:induction false} PacketAligned(items: seq<Record>, useEors: bool)
    requires PacketSize(items, useEors) <= INT_MAX
    ensures |PacketBody(items, useEors)| == PacketSize(items, useEors) && PacketSize(items, useEors) % ALIGNMENT == 0
  {
    if items != [] {
      RecordAligned(items[0]);
      PacketAligned(items[1..], useEors);
      SumAligned(RecordSize(items[0]), EorSize(useEors));
      SumAligned(RecordSize(items[0]) + EorSize(useEors), PacketSize(items[1..], useEors));
    }
  }

  lemma {:induction false} ReadItemBack(item: Record, useEors: bool, rest: seq<byte>)
    requires RecordSize(item) <= INT_MAX
    ensures ReadItem(KindOf(item), useEors, RecordBytes(item) + (EorBytes(useEors) + rest)) == Ok(Normal(item), rest)
  {
    var after := EorBytes(useEors) + rest;
    ReadRecordBack(item, after);
    if useEors {
      ReadBytesBack(EOR, rest);
    } else {
      assert after == rest;
    }
  }

  lemma {:induction false} OneItem(kind: Kind, useEors: bool, bytes: seq<byte>, end: int, item: Record, rest: seq<byte>)
    requires |bytes| > end && ReadItem(kind, useEors, bytes) == Ok(item, rest)
    ensures ReadItems(kind, useEors, rest, end).Ok? ==>
              var p := ReadItems(kind, useEors, rest, end);
              ReadItems(kind, useEors, bytes, end) == Ok([item] + p.value, p.rest)
  {
  }

  lemma {:induction false} ReadItemsBack(items: seq<Record>, kind: Kind, useEors: bool, rest: seq<byte>)
    requires PacketSize(items, useEors) <= INT_MAX && AllOfKind(items, kind)
    ensures ReadItems(kind, useEors, PacketBody(items, useEors) + rest, |rest|) == Ok(NormalAll(items), rest)
    decreases |items|
  {
    if items == [] {
      assert PacketBody(items, useEors) + rest == rest;
    } else {
      var after := PacketBody(items[1..], useEors) + rest;
      var bytes := RecordBytes(items[0]) + (EorBytes(useEors) + after);
      Nest(RecordBytes(items[0]), EorBytes(useEors), PacketBody(items[1..], useEors), rest);
      ReadItemBack(items[0], useEors, after);
      RecordAligned(items[0]);
      ReadItemsBack(items[1..], kind, useEors, rest);
      OneItem(kind, useEors, bytes, |rest|, Normal(items[0]), after);
    }
  }

  lemma {:induction false} ReadPacketBack(items: seq<Record>, kind: Kind, useEors: bool, rest: seq<byte>)
    requires PacketSize(items, useEors) <= INT_MAX && AllOfKind(items, kind)
    ensures ReadPacket(kind, useEors, PacketBytes(items, useEors) + rest) == Ok(NormalAll(items), rest)
  {
    var body := PacketBody(items, useEors);
    var size: nat := PacketSize(items, useEors);
    Nest(EncodeInt(size), body, rest, []);
    ReadIntBack(size, body + rest);
    PacketAligned(items, useEors);
    ReadItemsBack(items, kind, useEors, rest);
  }

  // ----- commands

  datatype CommandType = Wrp | Wre | Rdp | Rde | Rds

  datatype Command = Command(kind: CommandType, items: seq<Record>)

  function TypeMark(t: CommandType): Mark {
    match t
    case Wrp => [0x57, 0x52, 0x50, 0]
    case Wre => [0x57, 0x52, 0x45, 0]
    case Rdp => [0x52, 0x44, 0x50, 0]
    case Rde => [0x52, 0x44, 0x45, 0]
    case Rds => [0x52, 0x44, 0x53, 0]
  }

  function ItemKind(t: CommandType): Kind {
    match t
    case Wrp => SampleKind
    case Wre => EventKind
    case Rdp => ChannelKind
    case Rde => ChannelKind
    case Rds => NameKind
  }

  /** Lists of channels are written without end-of-record marks. */
  predicate UsesEors(t: CommandType) {
    t != Rdp && t != Rde
  }

  ghost predicate WellTyped(c: Command) {
    AllOfKind(c.items, ItemKind(c.kind))
  }

  predicate Writable(c: Command) {
    PacketSize(c.items, UsesEors(c.kind)) <= INT_MAX
  }

  function CommandBytes(c: Command): seq<byte>
    requires Writable(c)
  {
    TypeMark(c.kind) + PacketBytes(c.items, UsesEors(c.kind)) + EOC
  }

  /** The type the reader gives a command with this mark: an RDE mark makes an RDP command. */
  function TypeRead(mark: Mark): Parsed<CommandType> {
    if mark == TypeMark(Wrp) then Ok(Wrp, [])
    else if mark == TypeMark(Wre) then Ok(Wre, [])
    else if mark == TypeMark(Rdp) then Ok(Rdp, [])
    else if mark == TypeMark(Rde) then Ok(Rdp, [])
    else if mark == TypeMark(Rds) then Ok(Rds, [])
    else Err(UnknownCommand)
  }

  function ReadCommand(bytes: seq<byte>): Parsed<Command> {
    match ReadBytes(bytes, 4)
    case Err(e) => Err(e)
    case Ok(mark, r1) =>
      match TypeRead(mark)
      case Err(e) => Err(e)
      case Ok(t, _) =>
        match ReadPacket(ItemKind(t), UsesEors(t), r1)
        case Err(e) => Err(e)
        case Ok(items, r2) =>
          match ReadMark(r2, EOC)
          case Err(e) => Err(e)
          case Ok(_, r3) => Ok(Command(t, items), r3)
  }

  /** The command as it comes back. */
  function NormalCommand(c: Command): Command {
    Command(if c.kind == Rde then Rdp else c.kind, NormalAll(c.items))
  }

  /** Reading undoes writing up to normalisation, and stops exactly at the end of the command. */
  lemma {:induction false} CommandRoundTrip(c: Command, rest: seq<byte>)
    requires WellTyped(c) && Writable(c)
    ensures ReadCommand(CommandBytes(c) + rest) == Ok(NormalCommand(c), rest)
  {
    var packet := PacketBytes(c.items, UsesEors(c.kind));
    var t := if c.kind == Rde then Rdp else c.kind;
    assert CommandBytes(c) + rest == TypeMark(c.kind) + (packet + (EOC + rest));
    ReadBytesBack(TypeMark(c.kind), packet + (EOC + rest));
    MarksDiffer(c.kind);
    ReadPacketBack(c.items, ItemKind(t), UsesEors(t), EOC + rest);
    ReadBytesBack(EOC, rest);
  }

  lemma {:induction false} MarksDiffer(t: CommandType)
    ensures TypeRead(TypeMark(t)) == Ok(if t == Rde then Rdp else t, [])
  {
  }

  predicate EndsInZero(s: Text) {
    s != [] && s[|s| - 1] == 0
  }

  predicate CleanRecord(r: Record) {
    match r
    case LogEvent(_, args) => forall i :: 0 <= i < |args| ==> !EndsInZero(args[i])
    case Name(name) => !EndsInZero(name)
    case Sample(_, _) => true
    case Channel(_) => true
  }

  lemma {:induction false} NormalFixesClean(r: Record)
    ensures Normal(r) == r <==> CleanRecord(r)
  {
  }

  /** A command survives the trip unchanged exactly when it is no RDE and none of its strings ends in a zero byte. */
  lemma {:induction false} SurvivesExactly(c: Command, rest: seq<byte>)
    requires WellTyped(c) && Writable(c)
    ensures ReadCommand(CommandBytes(c) + rest) == Ok(c, rest) <==>
            c.kind != Rde && forall i :: 0 <= i < |c.items| ==> CleanRecord(c.items[i])
  {
    CommandRoundTrip(c, rest);
    forall i | 0 <= i < |c.items| ensures NormalAll(c.items)[i] == c.items[i] <==> CleanRecord(c.items[i]) {
      NormalFixesClean(c.items[i]);
    }
    if forall i :: 0 <= i < |c.items| ==> CleanRecord(c.items[i]) {
      assert NormalAll(c.items) == c.items;
    }
  }

  /** No command's bytes begin another's: what is written can only be taken apart one way. */
  lemma {:induction false} SelfDelimiting(c: Command, d: Command, r: seq<byte>, s: seq<byte>)
    requires WellTyped(c) && Writable(c) && WellTyped(d) && Writable(d)
    requires CommandBytes(c) + r == CommandBytes(d) + s
    ensures NormalCommand(c) == NormalCommand(d) && r == s
  {
    CommandRoundTrip(c, r);
    CommandRoundTrip(d, s);
  }

  // ----- reading, rewriting, reading again

  lemma {:induction false} TextIsClean(bytes: seq<byte>)
    ensures ReadText(bytes).Ok? ==> !EndsInZero(ReadText(bytes).value)
  {
  }

  predicate CleanTexts(texts: seq<Text>) {
    forall i :: 0 <= i < |texts| ==> !EndsInZero(texts[i])
  }

  lemma {:induction false} TextsAreClean(bytes: seq<byte>, n: nat)
    ensures ReadTexts(bytes, n).Ok? ==> CleanTexts(ReadTexts(bytes, n).value)
    decreases n
  {
    if n > 0 && ReadTexts(bytes, n).Ok? {
      var first := ReadText(bytes);
      var more := ReadTexts(first.rest, n - 1);
      TextIsClean(bytes);
      TextsAreClean(first.rest, n - 1);
      assert ReadTexts(bytes, n).value == [first.value] + more.value;
    }
  }

  lemma {:induction false} RecordIsClean(kind: Kind, bytes: seq<byte>)
    ensures var p := ReadRecord(kind, bytes); p.Ok? ==> KindOf(p.value) == kind && CleanRecord(p.value)
  {
    if kind == EventKind && ReadHead(bytes).Ok? {
      TextsAreClean(ReadHead(bytes).rest, 4);
    } else if kind == NameKind {
      TextIsClean(bytes);
    }
  }

  /** Records of one kind, none with a string that ends in a zero byte. */
  ghost predicate CleanItems(items: seq<Record>, kind: Kind) {
    forall i :: 0 <= i < |items| ==> KindOf(items[i]) == kind && CleanRecord(items[i])
  }

  lemma {:induction false} ItemsAreClean(kind: Kind, useEors: bool, bytes: seq<byte>, end: int)
    ensures ReadItems(kind, useEors, bytes, end).Ok? ==> CleanItems(ReadItems(kind, useEors, bytes, end).value, kind)
    decreases |bytes|
  {
    if |bytes| > end && ReadItems(kind, useEors, bytes, end).Ok? {
      var first := ReadItem(kind, useEors, bytes);
      var more := ReadItems(kind, useEors, first.rest, end);
      ReadsForward(kind, useEors, bytes);
      RecordIsClean(kind, bytes);
      ItemsAreClean(kind, useEors, first.rest, end);
      assert ReadItems(kind, useEors, bytes, end).value == [first.value] + more.value;
    }
  }

  lemma {:induction false} CommandIsClean(bytes: seq<byte>)
    requires ReadCommand(bytes).Ok?
    ensures var c := ReadCommand(bytes).value;
            c.kind != Rde && WellTyped(c) && forall i :: 0 <= i < |c.items| ==> CleanRecord(c.items[i])
  {
    var t := TypeRead(bytes[..4]).value;
    var size := ReadSize(bytes[4..]);
    ItemsAreClean(ItemKind(t), UsesEors(t), size.rest, |size.rest| - size.value);
  }

  /** Whatever was read, from any bytes, is in normal form: written again it reads as itself. */
  lemma {:induction false} RereadIsSame(bytes: seq<byte>, c: Command, rest: seq<byte>)
    requires ReadCommand(bytes) == Ok(c, rest)
    ensures c.kind != Rde && WellTyped(c) && forall i :: 0 <= i < |c.items| ==> CleanRecord(c.items[i])
    ensures Writable(c) ==> ReadCommand(CommandBytes(c) + rest) == Ok(c, rest)
  {
    CommandIsClean(bytes);
    if Writable(c) {
      SurvivesExactly(c, rest);
    }
  }
}
