/** The data logger's connections to the gateway: what it writes, and what a reader makes of it. */
module Session {
  import opened Bits
  import opened GatewayWire
  import opened GatewayCommand
  import opened GatewayStream
  import opened DateOrder
  import opened Logger

  /** A logged measurement. */
  datatype Measurement = Measurement(channelId: int32, paramId: int32, registerDate: Time, value: FloatBits)

  /** The end-of-transmission mark. */
  const EOT: Mark := [0x45, 0x4F, 0x54, 0]

  /** A WRP with one sample; its id is the parameter, its date the first 20 bytes of the text and a zero behind it. */
  predicate Carries(c: Command, m: Measurement) {
    && c.kind == Wrp && |c.items| == 1 && c.items[0].Sample?
    && c.items[0].head.id == m.paramId && c.items[0].head.channel == m.channelId
    && c.items[0].head.date <= TimeToString(m.registerDate) + [0x00]
    && c.items[0].value == m.value
  }

  /** The command that carries one measurement. */
  function WrpOf(m: Measurement): (c: Command)
    ensures WellTyped(c) && Writable(c) && Carries(c, m)
  {
    TextLength(m.registerDate);
    var sample := Sample(Head(m.paramId, m.channelId, DateOf(m.registerDate)), m.value);
    assert PacketSize([sample], true) == RecordSize(sample) + 4 + PacketSize([], true);
    Command(Wrp, [sample])
  }

  function WrpsOf(items: seq<Measurement>): (commands: seq<Command>)
    ensures |commands| == |items| && forall i :: 0 <= i < |items| ==> commands[i] == WrpOf(items[i])
  {
    if items == [] then [] else [WrpOf(items[0])] + WrpsOf(items[1..])
  }

  function SentBytes(items: seq<Measurement>): seq<byte> {
    if items == [] then [] else CommandBytes(WrpOf(items[0])) + SentBytes(items[1..])
  }

  /** Everything written to one connection. */
  function SessionBytes(items: seq<Measurement>): seq<byte> {
    SentBytes(items) + EOT
  }

  // ----- the sending thread

  method BindParams(event: Measurement, sock: OutputStream)
    modifies sock
    ensures sock.bulk == old(sock.bulk) + CommandBytes(WrpOf(event))
    ensures exists c: Command :: Carries(c, event) && Writable(c) && sock.bulk == old(sock.bulk) + CommandBytes(c)
  {
    var date := new byte[DATE_SIZE];
    FillDate(date, event.registerDate);
    var bytes: seq<byte> := date[..];
    var sample := Sample(Head(event.paramId, event.channelId, bytes), event.value);
    var command := Command(Wrp, [sample]);
    assert command == WrpOf(event);
    var ostr := new OutputStream();
    var _ := BinWrite(ostr, command);
    sock.Write(ostr.bulk);
  }

  /** What the first n regions outside the lock let in. */
  function Arrived(arrivals: nat -> seq<Entry<Measurement>>, n: nat): seq<Entry<Measurement>> {
    if n == 0 then [] else Arrived(arrivals, n - 1) + arrivals(n - 1)
  }

  class LoggerThread {
    var queue: seq<Entry<Measurement>>

    constructor ()
      ensures queue == []
    {
      queue := [];
    }

    method EnqueData(event: Entry<Measurement>)
      modifies this
      ensures queue == old(queue) + [event]
    {
      queue := queue + [event];
    }

    /** The body of the sending loop; `due` is what is left of the transaction. */
    method SendNext(sock: OutputStream, ghost due: seq<Entry<Measurement>>)
      requires queue != [] && due != [] && queue[0] == due[0]
      modifies this, sock
      ensures queue == old(queue)[1..]
      ensures sock.bulk + SentBytes(Solid(due[1..])) == old(sock.bulk) + SentBytes(Solid(due))
    {
      var data := queue[0];
      queue := queue[1..];
      if data.Data? {
        NextItem(sock.bulk, data.value, due);
        BindParams(data.value, sock);
      } else {
        assert Solid(due) == [] + Solid(due[1..]) == Solid(due[1..]);
      }
    }

    /** The sending loop: arrivals(k) is what other threads enqueue while the lock is let go for the k-th time. */
    method Drain(sock: OutputStream, transactionSize: nat, arrivals: nat -> seq<Entry<Measurement>>,
            ghost taken: seq<Entry<Measurement>>)
      requires transactionSize == |taken| && queue == taken + Arrived(arrivals, 1)
      modifies this, sock
      ensures sock.bulk == old(sock.bulk) + SentBytes(Solid(taken))
      ensures queue == Arrived(arrivals, |taken| + 1)
    {
      var size := transactionSize;
      var k := 0;
      ghost var all := sock.bulk + SentBytes(Solid(taken));
      assert taken[0..] == taken;
      while size > 0
        invariant 0 <= k <= |taken| && size == |taken| - k
        invariant queue == taken[k..] + Arrived(arrivals, k + 1)
        invariant sock.bulk + SentBytes(Solid(taken[k..])) == all
      {
        size := size - 1;
        if queue == [] {
          break;
        }
        SendNext(sock, taken[k..]);
        assert taken[k..][1..] == taken[k + 1..];
        queue := queue + arrivals(k + 1);
        Shift(taken, k, Arrived(arrivals, k + 1), arrivals(k + 1));
        k := k + 1;
      }
      NothingLeft(sock.bulk, taken[k..]);
    }

    /** One turn of the thread's loop, from the end of its wait. */
    method Transaction(sock: OutputStream, arrivals: nat -> seq<Entry<Measurement>>)
      requires queue != []
      modifies this, sock
      ensures sock.bulk == old(sock.bulk) + SessionBytes(Solid(old(queue)))
      ensures queue == Arrived(arrivals, |old(queue)| + 1)
      ensures |sock.bulk| >= 4 && sock.bulk[|sock.bulk| - 4..] == [0x45, 0x4F, 0x54, 0x00]
    {
      ghost var taken := queue;
      var transactionSize := |queue|;
      queue := queue + arrivals(0);
      assert Arrived(arrivals, 1) == [] + arrivals(0) == arrivals(0);
      Drain(sock, transactionSize, arrivals, taken);
      Nest(old(sock.bulk), SentBytes(Solid(taken)), EOT, []);
      sock.Write(EOT);
    }
  }

  lemma {:induction false} Shift<T>(taken: seq<T>, k: nat, a: seq<T>, b: seq<T>)
    requires k < |taken|
    ensures (taken[k..] + a)[1..] + b == taken[k + 1..] + (a + b)
  {
  }

  lemma {:induction false} NothingLeft(now: seq<byte>, due: seq<Entry<Measurement>>)
    requires due == []
    ensures now + SentBytes(Solid(due)) == now
  {
  }

  lemma {:induction false} NextItem(now: seq<byte>, m: Measurement, due: seq<Entry<Measurement>>)
    requires due != [] && due[0] == Data(m)
    ensures now + CommandBytes(WrpOf(m)) + SentBytes(Solid(due[1..])) == now + SentBytes(Solid(due))
  {
  }

  // ----- the reader

  lemma {:induction false} ItemsEnd(kind: Kind, useEors: bool, bytes: seq<byte>, end: int)
    ensures var p := ReadItems(kind, useEors, bytes, end); p.Ok? ==> |p.rest| == end <= |bytes|
    decreases |bytes|
  {
    if |bytes| > end && ReadItem(kind, useEors, bytes).Ok? {
      ReadsForward(kind, useEors, bytes);
      ItemsEnd(kind, useEors, ReadItem(kind, useEors, bytes).rest, end);
    }
  }

  lemma {:induction false} CommandForward(bytes: seq<byte>)
    ensures ReadCommand(bytes).Ok? ==> |ReadCommand(bytes).rest| < |bytes|
  {
    if ReadCommand(bytes).Ok? {
      var t := TypeRead(bytes[..4]).value;
      var r1 := bytes[4..];
      var size := ReadSize(r1);
      ItemsEnd(ItemKind(t), UsesEors(t), size.rest, |size.rest| - size.value);
    }
  }

  /** Commands up to the end-of-transmission mark. */
  function ReadSession(bytes: seq<byte>): Parsed<seq<Command>>
    decreases |bytes|
  {
    match ReadBytes(bytes, 4)
    case Err(e) => Err(e)
    case Ok(mark, rest) =>
      if mark == EOT then Ok([], rest)
      else match ReadCommand(bytes)
        case Err(e) => Err(e)
        case Ok(c, after) =>
          CommandForward(bytes);
          match ReadSession(after)
          case Err(e) => Err(e)
          case Ok(cs, end) => Ok([c] + cs, end)
  }

  lemma {:induction false} WrpBack(m: Measurement, rest: seq<byte>)
    ensures ReadCommand(CommandBytes(WrpOf(m)) + rest) == Ok(WrpOf(m), rest)
  {
    var c := WrpOf(m);
    SurvivesExactly(c, rest);
    assert CleanRecord(c.items[0]);
  }

  lemma {:induction false} NotTheEnd(c: Command, rest: seq<byte>)
    requires Writable(c)
    ensures ReadBytes(CommandBytes(c) + rest, 4).Ok? && ReadBytes(CommandBytes(c) + rest, 4).value != EOT
  {
    var after := PacketBytes(c.items, UsesEors(c.kind)) + EOC + rest;
    assert CommandBytes(c) + rest == TypeMark(c.kind) + after;
    ReadBytesBack(TypeMark(c.kind), after);
    assert TypeMark(c.kind)[0] != EOT[0];
  }

  lemma {:induction false} SessionParsesInto(items: seq<Measurement>, rest: seq<byte>)
    ensures ReadSession(SessionBytes(items) + rest) == Ok(WrpsOf(items), rest)
    decreases |items|
  {
    var bytes := SessionBytes(items) + rest;
    if items == [] {
      assert bytes == EOT + rest;
      ReadBytesBack(EOT, rest);
    } else {
      var after := SessionBytes(items[1..]) + rest;
      Nest(CommandBytes(WrpOf(items[0])), SentBytes(items[1..]), EOT, rest);
      WrpBack(items[0], after);
      NotTheEnd(WrpOf(items[0]), after);
      SessionParsesInto(items[1..], rest);
    }
  }

  /** One command for each measurement, in order. */
  predicate CarryInOrder(commands: seq<Command>, items: seq<Measurement>) {
    |commands| == |items| && forall i :: 0 <= i < |items| ==> Carries(commands[i], items[i])
  }

  /** A connection's bytes come apart into one single-sample WRP for each item, in order, and the mark. */
  lemma {:induction false} SessionParses(items: seq<Measurement>, rest: seq<byte>)
    ensures var p := ReadSession(SessionBytes(items) + rest); p.Ok? && CarryInOrder(p.value, items) && p.rest == rest
    ensures var bytes := SessionBytes(items);
            |bytes| >= 4 && bytes[|bytes| - 4..] == [0x45, 0x4F, 0x54, 0x00]
  {
    SessionParsesInto(items, rest);
  }

  /** In every run, a finished connection parses into exactly the non-null entries queued when it was opened. */
  lemma {:induction false} SessionsAreFaithful(states: seq<State<Measurement>>,
          actions: seq<Action<Measurement>>, i: nat, j: nat, rest: seq<byte>)
    requires Run(states, actions) && i < |states| && j < |states[i].sessions|
    ensures var s := states[i].sessions[j];
            var p := ReadSession(SessionBytes(s.sent) + rest);
            p.Ok? && CarryInOrder(p.value, Solid(s.taken)) && p.rest == rest
  {
    RunKeepsInv(states, actions, i);
    SessionParses(states[i].sessions[j].sent, rest);
  }
}
