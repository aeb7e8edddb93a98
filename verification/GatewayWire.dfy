/** The gateway's wire format as functions on byte strings: numbers, strings, records, packets, commands. */
module GatewayWire {
  import opened Bits

  const ALIGNMENT := 4
  const INT_MAX := 0x7FFF_FFFF

  type int32 = i: int | -0x8000_0000 <= i < 0x8000_0000
  type Text = seq<byte>

  datatype WireError = Truncated | NegativeSize | Misaligned | WrongMark | Overrun | UnknownCommand

  /** What a read leaves: a value and the unread bytes, or an error. */
  datatype Parsed<+T> = Ok(value: T, rest: seq<byte>) | Err(error: WireError)

  // ----- numbers in network byte order

  function EncodeInt(i: int32): (bytes: seq<byte>)
    ensures |bytes| == 4
  {
    var w := if i < 0 then i + 0x1_0000_0000 else i;
    var hi: word, lo: word := w / 0x1_0000, w % 0x1_0000;
    [Msb(hi), Lsb(hi), Msb(lo), Lsb(lo)]
  }

  function DecodeInt(b: seq<byte>): int32
    requires |b| == 4
  {
    var w: int := Join(b[0], b[1]) * 0x1_0000 + Join(b[2], b[3]);
    if w >= 0x8000_0000 then w - 0x1_0000_0000 else w
  }

  lemma {:induction false} DecodeEncode(i: int32)
    ensures DecodeInt(EncodeInt(i)) == i
  {
  }

  function ReadBytes(bytes: seq<byte>, n: nat): Parsed<seq<byte>> {
    if |bytes| < n then Err(Truncated) else Ok(bytes[..n], bytes[n..])
  }

  function ReadInt(bytes: seq<byte>): Parsed<int32> {
    match ReadBytes(bytes, 4)
    case Ok(b, rest) => Ok(DecodeInt(b), rest)
    case Err(e) => Err(e)
  }

  function ReadSize(bytes: seq<byte>): (p: Parsed<nat>)
    ensures p.Ok? ==> p.value <= INT_MAX
  {
    match ReadInt(bytes)
    case Ok(i, rest) => if i < 0 then Err(NegativeSize) else Ok(i, rest)
    case Err(e) => Err(e)
  }

  lemma {:induction false} ReadBytesBack(b: seq<byte>, rest: seq<byte>)
    ensures ReadBytes(b + rest, |b|) == Ok(b, rest)
  {
  }

  lemma {:induction false} ReadIntBack(i: int32, rest: seq<byte>)
    ensures ReadInt(EncodeInt(i) + rest) == Ok(i, rest)
  {
    ReadBytesBack(EncodeInt(i), rest);
    DecodeEncode(i);
  }

  lemma {:induction false} Nest(a: seq<byte>, b: seq<byte>, c: seq<byte>, d: seq<byte>)
    ensures a + b + c == a + (b + c)
    ensures a + b + c + d == a + (b + (c + d)) == a + (b + c + d)
  {
  }

  // ----- variable-length strings

  function Pad(n: nat): (p: nat)
    ensures p < ALIGNMENT && (n + p) % ALIGNMENT == 0
  {
    (ALIGNMENT - n % ALIGNMENT) % ALIGNMENT
  }

  function ZeroBytes(n: nat): (z: seq<byte>)
    ensures |z| == n && forall i :: 0 <= i < n ==> z[i] == 0
  {
    seq(n, i => 0)
  }

  /** The string as it travels, zero-padded to an aligned length. */
  function Padded(s: Text): (p: seq<byte>)
    ensures |p| % ALIGNMENT == 0
  {
    s + ZeroBytes(Pad(|s|))
  }

  function TextSize(s: Text): nat {
    4 + |s| + Pad(|s|)
  }

  function TextBytes(s: Text): seq<byte>
    requires TextSize(s) - 4 <= INT_MAX
  {
    EncodeInt(|Padded(s)|) + Padded(s)
  }

  /** The string without its trailing zero bytes. */
  function StripZeros(s: Text): (t: Text)
    ensures |t| <= |s| && t == s[..|t|]
    ensures t == [] || t[|t| - 1] != 0
    ensures forall i :: |t| <= i < |s| ==> s[i] == 0
  {
    if s == [] || s[|s| - 1] != 0 then s else StripZeros(s[..|s| - 1])
  }

  function ReadText(bytes: seq<byte>): Parsed<Text> {
    match ReadSize(bytes)
    case Err(e) => Err(e)
    case Ok(n, rest) =>
      match ReadBytes(rest, n)
      case Ok(b, after) => Ok(StripZeros(b), after)
      case Err(e) => Err(e)
  }

  /** The stripped string is the only prefix with no trailing zero and nothing but zeros behind it. */
  lemma {:induction false} StripUnique(s: Text, t: Text)
    requires |t| <= |s| && t == s[..|t|] && (t == [] || t[|t| - 1] != 0)
    requires forall i :: |t| <= i < |s| ==> s[i] == 0
    ensures StripZeros(s) == t
  {
  }

  lemma {:induction false} StripIdempotent(s: Text)
    ensures StripZeros(StripZeros(s)) == StripZeros(s)
  {
  }

  lemma {:induction false} SumAligned(m: nat, n: nat)
    requires m % ALIGNMENT == 0 && n % ALIGNMENT == 0
    ensures (m + n) % ALIGNMENT == 0
  {
  }

  lemma {:induction false} TextAligned(s: Text)
    requires TextSize(s) - 4 <= INT_MAX
    ensures |TextBytes(s)| == TextSize(s) && TextSize(s) % ALIGNMENT == 0
  {
    SumAligned(4, |Padded(s)|);
  }

  /** Reading back a written string drops exactly its trailing zero bytes, its own ones included. */
  lemma {:induction false} ReadTextBack(s: Text, rest: seq<byte>)
    requires TextSize(s) - 4 <= INT_MAX
    ensures ReadText(TextBytes(s) + rest) == Ok(StripZeros(s), rest)
  {
    var p := Padded(s);
    assert TextBytes(s) + rest == EncodeInt(|p|) + (p + rest);
    ReadIntBack(|p|, p + rest);
    ReadBytesBack(p, rest);
    StripPadding(s, Pad(|s|));
  }

  lemma {:induction false} StripPadding(s: Text, n: nat)
    ensures StripZeros(s + ZeroBytes(n)) == StripZeros(s)
  {
    var t := StripZeros(s);
    assert t == (s + ZeroBytes(n))[..|t|];
    StripUnique(s + ZeroBytes(n), t);
  }

  // ----- records

  const DATE_SIZE := 20

  type Date = d: seq<byte> | |d| == 20 witness ZeroBytes(20)
  type Mark = m: seq<byte> | |m| == 4 witness ZeroBytes(4)

  /** A float travels as the integer with the same 32 bits. */
  type FloatBits = int32

  type FourTexts = a: seq<Text> | |a| == 4 witness [[], [], [], []]

  datatype Record =
    | Sample(head: Head, value: FloatBits)
    | LogEvent(head: Head, args: FourTexts)
    | Channel(channel: int32)
    | Name(name: Text)

  datatype Kind = SampleKind | EventKind | ChannelKind | NameKind

  function KindOf(r: Record): Kind {
    match r
    case Sample(_, _) => SampleKind
    case LogEvent(_, _) => EventKind
    case Channel(_) => ChannelKind
    case Name(_) => NameKind
  }

  function TextsSize(texts: seq<Text>): nat {
    if texts == [] then 0 else TextSize(texts[0]) + TextsSize(texts[1..])
  }

  function TextsBytes(texts: seq<Text>): seq<byte>
    requires TextsSize(texts) <= INT_MAX
  {
    if texts == [] then [] else TextBytes(texts[0]) + TextsBytes(texts[1..])
  }

  const HEAD_SIZE := 4 + 4 + DATE_SIZE

  /** What a sample and an event have in common. */
  datatype Head = Head(id: int32, channel: int32, date: Date)

  function HeadBytes(h: Head): (bytes: seq<byte>)
    ensures |bytes| == HEAD_SIZE
  {
    EncodeInt(h.id) + EncodeInt(h.channel) + h.date
  }

  function RecordSize(r: Record): nat {
    match r
    case Sample(_, _) => HEAD_SIZE + 4
    case LogEvent(_, args) => HEAD_SIZE + TextsSize(args)
    case Channel(_) => 4
    case Name(name) => TextSize(name)
  }

  function RecordBytes(r: Record): seq<byte>
    requires RecordSize(r) <= INT_MAX
  {
    match r
    case Sample(head, value) => HeadBytes(head) + EncodeInt(value)
    case LogEvent(head, args) => HeadBytes(head) + TextsBytes(args)
    case Channel(channel) => EncodeInt(channel)
    case Name(name) => TextBytes(name)
  }

  function ReadHead(bytes: seq<byte>): Parsed<Head> {
    match ReadInt(bytes)
    case Err(e) => Err(e)
    case Ok(id, r1) =>
      match ReadInt(r1)
      case Err(e) => Err(e)
      case Ok(channel, r2) =>
        match ReadBytes(r2, DATE_SIZE)
        case Err(e) => Err(e)
        case Ok(date, r3) => Ok(Head(id, channel, date), r3)
  }

  function ReadTexts(bytes: seq<byte>, n: nat): (p: Parsed<seq<Text>>)
    ensures p.Ok? ==> |p.value| == n
    decreases n, bytes
  {
    if n == 0 then Ok([], bytes)
    else match ReadText(bytes)
      case Err(e) => Err(e)
      case Ok(text, rest) =>
        match ReadTexts(rest, n - 1)
        case Err(e) => Err(e)
        case Ok(texts, after) => Ok([text] + texts, after)
  }

  function ReadRecord(kind: Kind, bytes: seq<byte>): Parsed<Record> {
    match kind
    case SampleKind =>
      (match ReadHead(bytes)
       case Err(e) => Err(e)
       case Ok(head, r1) =>
         match ReadInt(r1)
         case Ok(value, r2) => Ok(Sample(head, value), r2)
         case Err(e) => Err(e))
    case EventKind =>
      (match ReadHead(bytes)
       case Err(e) => Err(e)
       case Ok(head, r1) =>
         match ReadTexts(r1, 4)
         case Ok(args, r2) => Ok(LogEvent(head, args), r2)
         case Err(e) => Err(e))
    case ChannelKind =>
      (match ReadInt(bytes)
       case Ok(channel, rest) => Ok(Channel(channel), rest)
       case Err(e) => Err(e))
    case NameKind =>
      match ReadText(bytes)
      case Ok(name, rest) => Ok(Name(name), rest)
      case Err(e) => Err(e)
  }

  function StripAll(texts: seq<Text>): (stripped: seq<Text>)
    ensures |stripped| == |texts| && forall i :: 0 <= i < |texts| ==> stripped[i] == StripZeros(texts[i])
  {
    if texts == [] then [] else [StripZeros(texts[0])] + StripAll(texts[1..])
  }

  /** The record as it comes back: strings lose their trailing zero bytes. */
  function Normal(r: Record): Record {
    match r
    case LogEvent(head, args) => LogEvent(head, StripAll(args))
    case Name(name) => Name(StripZeros(name))
    case other => other
  }

  lemma {:induction false} TextsAligned(texts: seq<Text>)
    requires TextsSize(texts) <= INT_MAX
    ensures |TextsBytes(texts)| == TextsSize(texts) && TextsSize(texts) % ALIGNMENT == 0
  {
    if texts != [] {
      TextAligned(texts[0]);
      TextsAligned(texts[1..]);
      SumAligned(TextSize(texts[0]), TextsSize(texts[1..]));
    }
  }

  /** The size computed before writing is the number of bytes written, and it is aligned. */
  lemma {:induction false} RecordAligned(r: Record)
    requires RecordSize(r) <= INT_MAX
    ensures |RecordBytes(r)| == RecordSize(r) && RecordSize(r) % ALIGNMENT == 0
  {
    match r {
      case Sample(_, _) =>
      case LogEvent(_, args) => TextsAligned(args);
      case Channel(_) =>
      case Name(name) => TextAligned(name);
    }
  }

  lemma {:induction false} ReadHeadBack(h: Head, rest: seq<byte>)
    ensures ReadHead(HeadBytes(h) + rest) == Ok(h, rest)
  {
    var r2 := h.date + rest;
    var r1 := EncodeInt(h.channel) + r2;
    assert HeadBytes(h) + rest == EncodeInt(h.id) + r1;
    ReadIntBack(h.id, r1);
    ReadIntBack(h.channel, r2);
    ReadBytesBack(h.date, rest);
  }

  lemma {:induction false} ReadTextsBack(texts: seq<Text>, rest: seq<byte>)
    requires TextsSize(texts) <= INT_MAX
    ensures ReadTexts(TextsBytes(texts) + rest, |texts|) == Ok(StripAll(texts), rest)
    decreases |texts|
  {
    if texts == [] {
      assert TextsBytes(texts) + rest == rest;
    } else {
      var after := TextsBytes(texts[1..]) + rest;
      assert TextsBytes(texts) + rest == TextBytes(texts[0]) + after;
      ReadTextBack(texts[0], after);
      ReadTextsBack(texts[1..], rest);
    }
  }

  lemma {:induction false} ReadSampleBack(head: Head, value: FloatBits, rest: seq<byte>)
    ensures ReadRecord(SampleKind, HeadBytes(head) + EncodeInt(value) + rest) == Ok(Sample(head, value), rest)
  {
    Nest(HeadBytes(head), EncodeInt(value), rest, []);
    ReadHeadBack(head, EncodeInt(value) + rest);
    ReadIntBack(value, rest);
  }

  lemma {:induction false} ReadEventBack(head: Head, args: FourTexts, rest: seq<byte>)
    requires TextsSize(args) <= INT_MAX
    ensures ReadRecord(EventKind, HeadBytes(head) + TextsBytes(args) + rest) == Ok(LogEvent(head, StripAll(args)), rest)
  {
    Nest(HeadBytes(head), TextsBytes(args), rest, []);
    ReadHeadBack(head, TextsBytes(args) + rest);
    ReadTextsBack(args, rest);
  }

  /** A written record reads back in its normal form, and nothing behind it is touched. */
  lemma {:induction false} ReadRecordBack(r: Record, rest: seq<byte>)
    requires RecordSize(r) <= INT_MAX
    ensures ReadRecord(KindOf(r), RecordBytes(r) + rest) == Ok(Normal(r), rest)
  {
    match r {
      case Sample(head, value) => ReadSampleBack(head, value, rest);
      case LogEvent(head, args) => ReadEventBack(head, args, rest);
      case Channel(channel) => ReadIntBack(channel, rest);
      case Name(name) => ReadTextBack(name, rest);
    }
  }

  lemma {:induction false} TextsForward(bytes: seq<byte>, n: nat)
    ensures ReadTexts(bytes, n).Ok? ==> |ReadTexts(bytes, n).rest| <= |bytes|
    decreases n
  {
    if n > 0 && ReadText(bytes).Ok? {
      TextsForward(ReadText(bytes).rest, n - 1);
    }
  }

  /** Reading a record consumes at least one aligned number. */
  lemma {:induction false} RecordForward(kind: Kind, bytes: seq<byte>)
    ensures ReadRecord(kind, bytes).Ok? ==> |ReadRecord(kind, bytes).rest| + 4 <= |bytes|
  {
    if kind == EventKind && ReadHead(bytes).Ok? {
      TextsForward(ReadHead(bytes).rest, 4);
    }
  }
}
