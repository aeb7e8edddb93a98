/** The command-line parser: an automaton over what getopt yields, and the language it accepts. */
module CmdLine {

  datatype Option<T> = None | Some(value: T)

  /** A step of getopt: an argument of no option, a long option by its index, a short option. Then -1, for ever. */
  datatype Token = Arg(text: string) | Long(index: nat) | Short(c: char)

  const OPT_INDEX_CMD := 0
  const OPT_INDEX_SP := 1
  const OPT_INDEX_EXIT := 2

  datatype CommandType = Unset | AdditionalParameterList | ShowInfo | ListCommands | CustomCommand | TestDevice
                       | ConnectedDeviceInfo | GetMeasurements | Exit

  datatype Command = Command(kind: CommandType, device: string, cmdType: string, message: string, source: string,
                             id: string, script: string, params: map<string, string>)

  datatype Phase = First | AFirst | AList | AName | AValue | P | D | R | RDevId | T
                 | Cmd | CmdDevId | CmdKind | CmdMsg | CmdSrc | CmdId | Sp | SpPath | Quit

  datatype Parser = Parser(phase: Phase, lastArgName: string, command: Command)

  const EMPTY := Command(Unset, "", "", "", "", "", "", map[])
  const START := Parser(First, "", EMPTY)

  // ----- the automaton

  /** The parser after a token, or None for an error. */
  function Step(s: Parser, t: Token): Option<Parser> {
    var c := s.command;
    match s.phase
    case First =>
      if t == Long(OPT_INDEX_CMD) then Some(s.(phase := Cmd))
      else if t == Long(OPT_INDEX_EXIT) then Some(s.(phase := Quit))
      else if t == Short('p') then Some(s.(phase := P))
      else if t == Short('a') then Some(s.(phase := AFirst))
      else if t == Short('d') then Some(s.(phase := D))
      else if t == Short('r') then Some(s.(phase := R))
      else if t == Short('t') then Some(s.(phase := T))
      else None
    case AFirst => None
    case P => None
    case Quit => None
    case Cmd =>
      if t.Arg? then Some(s.(phase := CmdDevId, command := c.(kind := CustomCommand, device := t.text))) else Some(s)
    case CmdDevId => if t.Arg? then Some(s.(phase := CmdKind, command := c.(cmdType := t.text))) else None
    case CmdKind => if t.Arg? then Some(s.(phase := CmdMsg, command := c.(message := t.text))) else None
    case CmdMsg => if t.Arg? then Some(s.(phase := CmdSrc, command := c.(source := t.text))) else None
    case CmdSrc => if t.Arg? then Some(s.(phase := CmdId, command := c.(id := t.text))) else None
    case CmdId => if t == Long(OPT_INDEX_SP) then Some(s.(phase := Sp)) else None
    case T => if t == Short('a') then Some(s.(phase := AName, command := c.(kind := TestDevice))) else None
    case D => if t == Short('a') then Some(s.(phase := AName, command := c.(kind := ConnectedDeviceInfo))) else None
    case R =>
      if t.Arg? then Some(s.(phase := RDevId, command := c.(kind := GetMeasurements, device := t.text))) else None
    case RDevId => if t == Long(OPT_INDEX_SP) then Some(s.(phase := Sp)) else None
    case Sp => if t.Arg? then Some(s.(phase := SpPath, command := c.(script := t.text))) else None
    case SpPath => if t == Short('a') then Some(s.(phase := AName)) else None
    case AList => if t == Short('a') then Some(s.(phase := AName)) else Some(s)
    case AName => if t.Arg? then Some(s.(phase := AValue, lastArgName := t.text)) else None
    case AValue =>
      if t.Arg? then Some(s.(phase := AList, command := c.(params := c.params[s.lastArgName := t.text]))) else None
  }

  /** What the end of the arguments makes of the parser: every state either accepts or fails. */
  function AtEnd(s: Parser): Option<Command> {
    match s.phase
    case AFirst => Some(s.command.(kind := AdditionalParameterList))
    case P => Some(s.command.(kind := ShowInfo))
    case Quit => Some(s.command.(kind := Exit))
    case Cmd => Some(s.command.(kind := ListCommands))
    case D => Some(s.command.(kind := ConnectedDeviceInfo))
    case AList => Some(s.command)
    case _ => None
  }

  function Accepted(s: Parser, tokens: seq<Token>): Option<Command>
    decreases |tokens|
  {
    if tokens == [] then AtEnd(s)
    else match Step(s, tokens[0])
      case None => None
      case Some(t) => Accepted(t, tokens[1..])
  }

  class CmdLineParser {
    var command: Command

    constructor ()
      ensures command == EMPTY
    {
      command := EMPTY;
    }

    /** The loop over the options; a false result leaves a command half built. */
    method Parse(tokens: seq<Token>) returns (ok: bool)
      modifies this
      ensures Accepted(START, tokens) == if ok then Some(command) else None
      ensures ok ==> Derives(tokens, command)
      ensures !ok ==> forall c: Command :: !Derives(tokens, c)
    {
      ok := Run(tokens);
      forall c: Command ensures Accepted(START, tokens) == Some(c) <==> Derives(tokens, c) {
        AcceptsExactly(tokens, c);
      }
    }

    method Run(tokens: seq<Token>) returns (ok: bool)
      modifies this
      ensures Accepted(START, tokens) == if ok then Some(command) else None
    {
      var state := First;
      var lastArgName := "";
      var isError := false;
      command := EMPTY;
      var i := 0;
      assert tokens[0..] == tokens;
      while !isError
        invariant 0 <= i <= |tokens|
        invariant Accepted(START, tokens) ==
                  if isError then None else Accepted(Parser(state, lastArgName, command), tokens[i..])
        decreases |tokens| - i, !isError
      {
        if i < |tokens| {
          assert tokens[i..][0] == tokens[i] && tokens[i..][1..] == tokens[i + 1..];
          state, lastArgName, isError := Switch(state, lastArgName, tokens[i]);
          i := i + 1;
        } else {
          var done := SwitchAtEnd(state);
          if done {
            return true;
          }
          isError := true;
        }
      }
      ok := false;
    }

    /** The switch for one token. */
    method Switch(from: Phase, lastName: string, t: Token) returns (state: Phase, lastArgName: string, isError: bool)
      modifies this
      ensures Step(Parser(from, lastName, old(command)), t) ==
              if isError then None else Some(Parser(state, lastArgName, command))
    {
      state, lastArgName, isError := from, lastName, false;
      match from {
        case First =>
          match t {
            case Long(index) =>
              if index == OPT_INDEX_CMD { state := Cmd; }
              else if index == OPT_INDEX_EXIT { state := Quit; }
              else { isError := true; }
            case Short(c) =>
              if c == 'p' { state := P; }
              else if c == 'a' { state := AFirst; }
              else if c == 'd' { state := D; }
              else if c == 'r' { state := R; }
              else if c == 't' { state := T; }
              else { isError := true; }
            case Arg(_) => isError := true;
          }
        case AFirst => isError := true;
        case P => isError := true;
        case Quit => isError := true;
        case Cmd =>
          if t.Arg? { command := command.(kind := CustomCommand, device := t.text); state := CmdDevId; }
        case CmdDevId =>
          if t.Arg? { command := command.(cmdType := t.text); state := CmdKind; } else { isError := true; }
        case CmdKind =>
          if t.Arg? { command := command.(message := t.text); state := CmdMsg; } else { isError := true; }
        case CmdMsg =>
          if t.Arg? { command := command.(source := t.text); state := CmdSrc; } else { isError := true; }
        case CmdSrc =>
          if t.Arg? { command := command.(id := t.text); state := CmdId; } else { isError := true; }
        case CmdId =>
          if t == Long(OPT_INDEX_SP) { state := Sp; } else { isError := true; }
        case T =>
          command := command.(kind := TestDevice);
          if t == Short('a') { state := AName; } else { isError := true; }
        case D =>
          command := command.(kind := ConnectedDeviceInfo);
          if t == Short('a') { state := AName; } else { isError := true; }
        case R =>
          if t.Arg? {
            command := command.(kind := GetMeasurements, device := t.text);
            state := RDevId;
          } else {
            isError := true;
          }
        case RDevId =>
          if t == Long(OPT_INDEX_SP) { state := Sp; } else { isError := true; }
        case Sp =>
          if t.Arg? { command := command.(script := t.text); state := SpPath; } else { isError := true; }
        case SpPath =>
          if t == Short('a') { state := AName; } else { isError := true; }
        case AList =>
          if t == Short('a') { state := AName; }
        case AName =>
          if t.Arg? { lastArgName := t.text; state := AValue; } else { isError := true; }
        case AValue =>
          if t.Arg? {
            state := AList;
            command := command.(params := command.params[lastArgName := t.text]);
          } else {
            isError := true;
          }
      }
    }

    /** The switch for -1. */
    method SwitchAtEnd(state: Phase) returns (done: bool)
      modifies this
      ensures forall lastArgName: string ::
                AtEnd(Parser(state, lastArgName, old(command))) == if done then Some(command) else None
    {
      done := true;
      match state {
        case AFirst => command := command.(kind := AdditionalParameterList);
        case P => command := command.(kind := ShowInfo);
        case Quit => command := command.(kind := Exit);
        case Cmd => command := command.(kind := ListCommands);
        case D => command := command.(kind := ConnectedDeviceInfo);
        case AList =>
        case _ => done := false;
      }
    }
  }

  // ----- the language

  /** -a name value, and the tokens ignored behind it. */
  datatype Pair = Pair(name: string, value: string, ignored: seq<Token>)

  datatype Invocation =
    | CallAdditional
    | CallInfo
    | CallExit
    | CallList(ignored: seq<Token>)
    | CallCustom(ignored: seq<Token>, device: string, cmdType: string, message: string, source: string, id: string,
                 script: string, pairs: seq<Pair>)
    | CallTest(pairs: seq<Pair>)
    | CallDevice(pairs: seq<Pair>)
    | CallMeasure(device: string, script: string, pairs: seq<Pair>)

  /** Behind -cmd anything but an argument is ignored; behind a value anything but -a. */
  predicate ValidPairs(pairs: seq<Pair>) {
    forall i :: 0 <= i < |pairs| ==> Short('a') !in pairs[i].ignored
  }

  predicate NoArgs(tokens: seq<Token>) {
    forall i :: 0 <= i < |tokens| ==> !tokens[i].Arg?
  }

  predicate Valid(inv: Invocation) {
    match inv
    case CallList(ignored) => NoArgs(ignored)
    case CallCustom(ignored, _, _, _, _, _, _, pairs) => NoArgs(ignored) && ValidPairs(pairs) && pairs != []
    case CallTest(pairs) => ValidPairs(pairs) && pairs != []
    case CallDevice(pairs) => ValidPairs(pairs)
    case CallMeasure(_, _, pairs) => ValidPairs(pairs) && pairs != []
    case _ => true
  }

  function RenderPairs(pairs: seq<Pair>): seq<Token> {
    if pairs == [] then []
    else [Short('a'), Arg(pairs[0].name), Arg(pairs[0].value)] + pairs[0].ignored + RenderPairs(pairs[1..])
  }

  /** The arguments of a custom command, up to its script. */
  function RenderFields(device: string, cmdType: string, message: string, source: string, id: string,
          rest: seq<Token>): seq<Token> {
    [Arg(device), Arg(cmdType), Arg(message)] + ([Arg(source), Arg(id)] + rest)
  }

  function RenderScript(script: string, pairs: seq<Pair>): seq<Token> {
    [Long(OPT_INDEX_SP), Arg(script)] + RenderPairs(pairs)
  }

  function Render(inv: Invocation): seq<Token> {
    match inv
    case CallAdditional => [Short('a')]
    case CallInfo => [Short('p')]
    case CallExit => [Long(OPT_INDEX_EXIT)]
    case CallList(ignored) => [Long(OPT_INDEX_CMD)] + ignored
    case CallCustom(ignored, device, cmdType, message, source, id, script, pairs) =>
      [Long(OPT_INDEX_CMD)] +
      (ignored + RenderFields(device, cmdType, message, source, id, RenderScript(script, pairs)))
    case CallTest(pairs) => [Short('t')] + RenderPairs(pairs)
    case CallDevice(pairs) => [Short('d')] + RenderPairs(pairs)
    case CallMeasure(device, script, pairs) =>
      [Short('r')] + ([Arg(device)] + RenderScript(script, pairs))
  }

  function Assigned(params: map<string, string>, pairs: seq<Pair>): map<string, string>
    decreases |pairs|
  {
    if pairs == [] then params else Assigned(params[pairs[0].name := pairs[0].value], pairs[1..])
  }

  function Meaning(inv: Invocation): Command {
    match inv
    case CallAdditional => EMPTY.(kind := AdditionalParameterList)
    case CallInfo => EMPTY.(kind := ShowInfo)
    case CallExit => EMPTY.(kind := Exit)
    case CallList(_) => EMPTY.(kind := ListCommands)
    case CallCustom(_, device, cmdType, message, source, id, script, pairs) =>
      Command(CustomCommand, device, cmdType, message, source, id, script, Assigned(map[], pairs))
    case CallTest(pairs) => EMPTY.(kind := TestDevice, params := Assigned(map[], pairs))
    case CallDevice(pairs) => EMPTY.(kind := ConnectedDeviceInfo, params := Assigned(map[], pairs))
    case CallMeasure(device, script, pairs) =>
      EMPTY.(kind := GetMeasurements, device := device, script := script, params := Assigned(map[], pairs))
  }

  ghost predicate Derives(tokens: seq<Token>, c: Command) {
    exists inv :: Valid(inv) && Render(inv) == tokens && Meaning(inv) == c
  }

  // ----- what is rendered is accepted

  lemma {:induction false} SkipIgnored(s: Parser, ignored: seq<Token>, rest: seq<Token>)
    requires (s.phase.AList? && Short('a') !in ignored) || (s.phase.Cmd? && NoArgs(ignored))
    ensures Accepted(s, ignored + rest) == Accepted(s, rest)
    decreases |ignored|
  {
    if ignored == [] {
      assert ignored + rest == rest;
    } else {
      assert ignored[0] in ignored && (ignored + rest)[0] == ignored[0] && (ignored + rest)[1..] == ignored[1..] + rest;
      SkipIgnored(s, ignored[1..], rest);
    }
  }

  /** The parser once the pairs are read. */
  function WithPairs(c: Command, pairs: seq<Pair>): Command {
    c.(params := Assigned(c.params, pairs))
  }

  lemma {:induction false} AcceptPairs(s: Parser, s1: Parser, pairs: seq<Pair>)
    requires Step(s, Short('a')) == Some(s1) && s1.phase.AName? && ValidPairs(pairs) && pairs != []
    ensures Accepted(s, RenderPairs(pairs)) == Some(WithPairs(s1.command, pairs))
    decreases |pairs|
  {
    var p, more := pairs[0], pairs[1..];
    var t := Parser(AList, p.name, s1.command.(params := s1.command.params[p.name := p.value]));
    AcceptPair(s, s1, p, RenderPairs(more));
    if more == [] {
      assert Assigned(t.command.params, more) == t.command.params;
      assert Accepted(t, RenderPairs(more)) == Some(t.command);
    } else {
      AcceptPairs(t, t.(phase := AName), more);
    }
  }

  lemma {:induction false} AcceptPair(s: Parser, s1: Parser, p: Pair, rest: seq<Token>)
    requires Step(s, Short('a')) == Some(s1) && s1.phase.AName? && Short('a') !in p.ignored
    ensures Accepted(s, [Short('a'), Arg(p.name), Arg(p.value)] + p.ignored + rest) ==
            Accepted(Parser(AList, p.name, s1.command.(params := s1.command.params[p.name := p.value])), rest)
  {
    var s2 := s1.(phase := AValue, lastArgName := p.name);
    var s3 := Parser(AList, p.name, s1.command.(params := s1.command.params[p.name := p.value]));
    Three(s, s1, s2, s3, [Short('a'), Arg(p.name), Arg(p.value)], p.ignored + rest);
    assert [Short('a'), Arg(p.name), Arg(p.value)] + p.ignored + rest ==
           [Short('a'), Arg(p.name), Arg(p.value)] + (p.ignored + rest);
    SkipIgnored(s3, p.ignored, rest);
  }

  lemma {:induction false} One(s: Parser, s1: Parser, t: Token, rest: seq<Token>)
    requires Step(s, t) == Some(s1)
    ensures Accepted(s, [t] + rest) == Accepted(s1, rest)
  {
  }

  lemma {:induction false} Three(s: Parser, s1: Parser, s2: Parser, s3: Parser, t: seq<Token>, rest: seq<Token>)
    requires |t| == 3 && Step(s, t[0]) == Some(s1) && Step(s1, t[1]) == Some(s2) && Step(s2, t[2]) == Some(s3)
    ensures Accepted(s, t + rest) == Accepted(s3, rest)
  {
    assert t + rest == [t[0]] + ([t[1]] + ([t[2]] + rest));
    One(s, s1, t[0], [t[1]] + ([t[2]] + rest));
    One(s1, s2, t[1], [t[2]] + rest);
    One(s2, s3, t[2], rest);
  }

  /** The last part of -cmd and -r: the script's path and the pairs. */
  lemma {:induction false} AcceptScript(s: Parser, script: string, pairs: seq<Pair>)
    requires s.phase.CmdId? || s.phase.RDevId?
    requires ValidPairs(pairs) && pairs != []
    ensures Accepted(s, RenderScript(script, pairs)) == Some(WithPairs(s.command.(script := script), pairs))
  {
    var s1, s2 := s.(phase := Sp), s.(phase := SpPath, command := s.command.(script := script));
    var rest := RenderPairs(pairs);
    assert RenderScript(script, pairs) == [Long(OPT_INDEX_SP)] + ([Arg(script)] + rest);
    One(s, s1, Long(OPT_INDEX_SP), [Arg(script)] + rest);
    One(s1, s2, Arg(script), rest);
    AcceptPairs(s2, s2.(phase := AName), pairs);
  }

  function WithFields(c: Command, device: string, cmdType: string, message: string, source: string,
          id: string): Command {
    c.(kind := CustomCommand, device := device, cmdType := cmdType, message := message, source := source, id := id)
  }

  lemma {:induction false} AcceptFields(s: Parser, device: string, cmdType: string, message: string,
          source: string, id: string, rest: seq<Token>)
    requires s.phase.Cmd?
    ensures Accepted(s, RenderFields(device, cmdType, message, source, id, rest)) ==
            Accepted(s.(phase := CmdId, command := WithFields(s.command, device, cmdType, message, source, id)), rest)
  {
    var s1 := s.(phase := CmdDevId, command := s.command.(kind := CustomCommand, device := device));
    var s2 := s1.(phase := CmdKind, command := s1.command.(cmdType := cmdType));
    var s3 := s2.(phase := CmdMsg, command := s2.command.(message := message));
    Three(s, s1, s2, s3, [Arg(device), Arg(cmdType), Arg(message)], [Arg(source), Arg(id)] + rest);
    AcceptTwo(s3, source, id, rest);
  }

  lemma {:induction false} AcceptTwo(s: Parser, source: string, id: string, rest: seq<Token>)
    requires s.phase.CmdMsg?
    ensures Accepted(s, [Arg(source), Arg(id)] + rest) ==
            Accepted(s.(phase := CmdId, command := s.command.(source := source, id := id)), rest)
  {
  }

  lemma {:induction false} CompleteCustom(inv: Invocation)
    requires Valid(inv) && inv.CallCustom?
    ensures Accepted(START, Render(inv)) == Some(Meaning(inv))
  {
    var script := RenderScript(inv.script, inv.pairs);
    var fields := RenderFields(inv.device, inv.cmdType, inv.message, inv.source, inv.id, script);
    var s := START.(phase := Cmd);
    One(START, s, Long(OPT_INDEX_CMD), inv.ignored + fields);
    SkipIgnored(s, inv.ignored, fields);
    AcceptFields(s, inv.device, inv.cmdType, inv.message, inv.source, inv.id, script);
    var c := WithFields(EMPTY, inv.device, inv.cmdType, inv.message, inv.source, inv.id);
    AcceptScript(Parser(CmdId, "", c), inv.script, inv.pairs);
  }

  lemma {:induction false} CompleteMeasure(inv: Invocation)
    requires Valid(inv) && inv.CallMeasure?
    ensures Accepted(START, Render(inv)) == Some(Meaning(inv))
  {
    var script := RenderScript(inv.script, inv.pairs);
    var s := Parser(RDevId, "", EMPTY.(kind := GetMeasurements, device := inv.device));
    One(START, START.(phase := R), Short('r'), [Arg(inv.device)] + script);
    One(START.(phase := R), s, Arg(inv.device), script);
    AcceptScript(s, inv.script, inv.pairs);
  }

  lemma {:induction false} CompleteList(ignored: seq<Token>)
    requires NoArgs(ignored)
    ensures Accepted(START, [Long(OPT_INDEX_CMD)] + ignored) == Some(EMPTY.(kind := ListCommands))
  {
    One(START, START.(phase := Cmd), Long(OPT_INDEX_CMD), ignored);
    SkipIgnored(START.(phase := Cmd), ignored, []);
    assert ignored + [] == ignored;
  }

  /** -t and -d with pairs. */
  lemma {:induction false} CompletePairs(s: Parser, t: Token, kind: CommandType, pairs: seq<Pair>)
    requires ValidPairs(pairs) && pairs != []
    requires (t == Short('t') && s == START.(phase := T) && kind == TestDevice)
          || (t == Short('d') && s == START.(phase := D) && kind == ConnectedDeviceInfo)
    ensures Accepted(START, [t] + RenderPairs(pairs)) == Some(WithPairs(EMPTY.(kind := kind), pairs))
  {
    One(START, s, t, RenderPairs(pairs));
    AcceptPairs(s, Parser(AName, "", EMPTY.(kind := kind)), pairs);
  }

  lemma {:induction false} CompleteSingle(s: Parser, t: Token)
    requires Step(START, t) == Some(s)
    ensures Accepted(START, [t]) == AtEnd(s)
  {
  }

  /** Whatever is rendered is accepted with its meaning. */
  lemma {:induction false} Complete(inv: Invocation)
    requires Valid(inv)
    ensures Accepted(START, Render(inv)) == Some(Meaning(inv))
  {
    match inv {
      case CallAdditional => CompleteSingle(START.(phase := AFirst), Short('a'));
      case CallInfo => CompleteSingle(START.(phase := P), Short('p'));
      case CallExit => CompleteSingle(START.(phase := Quit), Long(OPT_INDEX_EXIT));
      case CallList(ignored) => CompleteList(ignored);
      case CallCustom(_, _, _, _, _, _, _, _) => CompleteCustom(inv);
      case CallTest(pairs) => CompletePairs(START.(phase := T), Short('t'), TestDevice, pairs);
      case CallDevice(pairs) =>
        if pairs == [] {
          CompleteSingle(START.(phase := D), Short('d'));
          assert Render(inv) == [Short('d')];
        } else {
          CompletePairs(START.(phase := D), Short('d'), ConnectedDeviceInfo, pairs);
        }
      case CallMeasure(_, _, _) => CompleteMeasure(inv);
    }
  }

  // ----- the forms, spelled out

  lemma {:induction false} PairsSpelled(p: Pair, pairs: seq<Pair>)
    ensures RenderPairs([]) == []
    ensures RenderPairs([p] + pairs) == [Short('a'), Arg(p.name), Arg(p.value)] + p.ignored + RenderPairs(pairs)
  {
    assert ([p] + pairs)[1..] == pairs;
  }

  /** The options without arguments, and -cmd without any. */
  lemma {:induction false} SinglesSpelled(ignored: seq<Token>)
    ensures Accepted(START, [Short('a')]) == Some(Command(AdditionalParameterList, "", "", "", "", "", "", map[]))
    ensures Accepted(START, [Short('p')]) == Some(Command(ShowInfo, "", "", "", "", "", "", map[]))
    ensures Accepted(START, [Long(2)]) == Some(Command(Exit, "", "", "", "", "", "", map[]))
    ensures Render(CallList(ignored)) == [Long(0)] + ignored
    ensures Valid(CallList(ignored)) <==> forall t :: t in ignored ==> !t.Arg?
    ensures Valid(CallList(ignored)) ==>
              Accepted(START, [Long(0)] + ignored) == Some(Command(ListCommands, "", "", "", "", "", "", map[]))
  {
    Complete(CallAdditional);
    Complete(CallInfo);
    Complete(CallExit);
    if NoArgs(ignored) {
      Complete(CallList(ignored));
    }
  }

  /** -t and -d with parameters. */
  lemma {:induction false} PairedSpelled(pairs: seq<Pair>)
    ensures Render(CallTest(pairs)) == [Short('t')] + RenderPairs(pairs)
    ensures Valid(CallTest(pairs)) <==> pairs != [] && forall p :: p in pairs ==> Short('a') !in p.ignored
    ensures Valid(CallTest(pairs)) ==>
              Accepted(START, [Short('t')] + RenderPairs(pairs)) ==
              Some(Command(TestDevice, "", "", "", "", "", "", Assigned(map[], pairs)))
    ensures Render(CallDevice(pairs)) == [Short('d')] + RenderPairs(pairs)
    ensures Valid(CallDevice(pairs)) <==> forall p :: p in pairs ==> Short('a') !in p.ignored
    ensures Valid(CallDevice(pairs)) ==>
              Accepted(START, [Short('d')] + RenderPairs(pairs)) ==
              Some(Command(ConnectedDeviceInfo, "", "", "", "", "", "", Assigned(map[], pairs)))
  {
    if Valid(CallDevice(pairs)) {
      Complete(CallDevice(pairs));
    }
    if Valid(CallTest(pairs)) {
      Complete(CallTest(pairs));
    }
  }

  /** -r device -sp script, and parameters. */
  lemma {:induction false} MeasureSpelled(device: string, script: string, pairs: seq<Pair>)
    ensures var inv := CallMeasure(device, script, pairs);
            var tokens := [Short('r'), Arg(device), Long(1), Arg(script)] + RenderPairs(pairs);
            && Render(inv) == tokens
            && (Valid(inv) <==> pairs != [] && forall p :: p in pairs ==> Short('a') !in p.ignored)
            && (Valid(inv) ==>
                  Accepted(START, tokens) ==
                  Some(Command(GetMeasurements, device, "", "", "", "", script, Assigned(map[], pairs))))
  {
    assert RenderScript(script, pairs) == [Long(1), Arg(script)] + RenderPairs(pairs);
    if Valid(CallMeasure(device, script, pairs)) {
      Complete(CallMeasure(device, script, pairs));
    }
  }

  /** -cmd device type message source id -sp script, and parameters. */
  lemma {:induction false} CustomSpelled(ignored: seq<Token>, device: string, cmdType: string, message: string,
          source: string, id: string, script: string, pairs: seq<Pair>)
    ensures var inv := CallCustom(ignored, device, cmdType, message, source, id, script, pairs);
            var fields :=
              [Arg(device), Arg(cmdType), Arg(message), Arg(source), Arg(id), Long(1), Arg(script)];
            var tokens := [Long(0)] + ignored + fields + RenderPairs(pairs);
            && Render(inv) == tokens
            && (Valid(inv) <==>
                  && (forall t :: t in ignored ==> !t.Arg?)
                  && pairs != [] && forall p :: p in pairs ==> Short('a') !in p.ignored)
            && (Valid(inv) ==>
                  Accepted(START, tokens) ==
                  Some(Command(CustomCommand, device, cmdType, message, source, id, script, Assigned(map[], pairs))))
  {
    var inv, more := CallCustom(ignored, device, cmdType, message, source, id, script, pairs), RenderPairs(pairs);
    assert RenderScript(script, pairs) == [Long(1), Arg(script)] + more;
    assert RenderFields(device, cmdType, message, source, id, RenderScript(script, pairs)) ==
           [Arg(device), Arg(cmdType), Arg(message), Arg(source), Arg(id), Long(1), Arg(script)] + more;
    if Valid(inv) {
      Complete(inv);
    }
  }

  // ----- what is accepted is rendered

  lemma {:induction false} Peel(s: Parser, tokens: seq<Token>, c: Command) returns (t: Parser, rest: seq<Token>)
    requires Accepted(s, tokens) == Some(c) && AtEnd(s) == None
    ensures tokens != [] && rest == tokens[1..] && tokens == [tokens[0]] + rest
    ensures Step(s, tokens[0]) == Some(t) && Accepted(t, rest) == Some(c)
  {
    t, rest := Step(s, tokens[0]).value, tokens[1..];
  }

  lemma {:induction false} PairsOf(s: Parser, tokens: seq<Token>, c: Command) returns (pairs: seq<Pair>)
    requires s.phase.AName? && Accepted(s, tokens) == Some(c)
    ensures ValidPairs(pairs) && pairs != [] && [Short('a')] + tokens == RenderPairs(pairs)
    ensures c == WithPairs(s.command, pairs)
    decreases |tokens|
  {
    var s1, rest := Peel(s, tokens, c);
    var s2, rest2 := Peel(s1, rest, c);
    var ignored, more := TailOf(s2, rest2, c);
    pairs := [Pair(tokens[0].text, rest[0].text, ignored)] + more;
    assert pairs[1..] == more;
    assert [Short('a')] + tokens == [Short('a'), tokens[0], rest[0]] + ignored + RenderPairs(more);
  }

  lemma {:induction false} TailOf(s: Parser, tokens: seq<Token>, c: Command)
    returns (ignored: seq<Token>, pairs: seq<Pair>)
    requires s.phase.AList? && Accepted(s, tokens) == Some(c)
    ensures Short('a') !in ignored && ValidPairs(pairs) && tokens == ignored + RenderPairs(pairs)
    ensures c == WithPairs(s.command, pairs)
    decreases |tokens|
  {
    if tokens == [] {
      ignored, pairs := [], [];
    } else if tokens[0] == Short('a') {
      pairs := PairsOf(s.(phase := AName), tokens[1..], c);
      ignored := [];
    } else {
      ignored, pairs := TailOf(s, tokens[1..], c);
      ignored := [tokens[0]] + ignored;
    }
  }

  lemma {:induction false} ScriptOf(s: Parser, tokens: seq<Token>, c: Command)
    returns (script: string, pairs: seq<Pair>)
    requires (s.phase.CmdId? || s.phase.RDevId?) && Accepted(s, tokens) == Some(c)
    ensures ValidPairs(pairs) && pairs != [] && tokens == RenderScript(script, pairs)
    ensures c == WithPairs(s.command.(script := script), pairs)
  {
    var s1, rest := Peel(s, tokens, c);
    var s2, rest2 := Peel(s1, rest, c);
    var s3, rest3 := Peel(s2, rest2, c);
    script := rest[0].text;
    pairs := PairsOf(s3, rest3, c);
  }

  lemma {:induction false} IgnoredOf(s: Parser, tokens: seq<Token>, c: Command)
    returns (ignored: seq<Token>, rest: seq<Token>)
    requires s.phase.Cmd? && Accepted(s, tokens) == Some(c)
    ensures NoArgs(ignored) && tokens == ignored + rest && (rest == [] || rest[0].Arg?)
    ensures Accepted(s, rest) == Some(c)
    decreases |tokens|
  {
    if tokens == [] || tokens[0].Arg? {
      ignored, rest := [], tokens;
    } else {
      ignored, rest := IgnoredOf(s, tokens[1..], c);
      ignored := [tokens[0]] + ignored;
    }
  }

  lemma {:induction false} FieldsOf(s: Parser, tokens: seq<Token>, c: Command)
    returns (f: seq<string>, t: Parser, rest: seq<Token>)
    requires s.phase.Cmd? && tokens != [] && tokens[0].Arg? && Accepted(s, tokens) == Some(c)
    ensures |f| == 5 && tokens == RenderFields(f[0], f[1], f[2], f[3], f[4], rest)
    ensures t == s.(phase := CmdId, command := WithFields(s.command, f[0], f[1], f[2], f[3], f[4]))
    ensures Accepted(t, rest) == Some(c)
  {
    var s1, t1 := Step(s, tokens[0]).value, tokens[1..];
    var s2, t2 := Peel(s1, t1, c);
    var s3, t3 := Peel(s2, t2, c);
    var source, id;
    source, id, t, rest := TwoOf(s3, t3, c);
    f := [tokens[0].text, t1[0].text, t2[0].text, source, id];
    assert tokens == [tokens[0], t1[0], t2[0]] + t3;
  }

  lemma {:induction false} TwoOf(s: Parser, tokens: seq<Token>, c: Command)
    returns (source: string, id: string, t: Parser, rest: seq<Token>)
    requires s.phase.CmdMsg? && Accepted(s, tokens) == Some(c)
    ensures tokens == [Arg(source), Arg(id)] + rest
    ensures t == s.(phase := CmdId, command := s.command.(source := source, id := id)) && Accepted(t, rest) == Some(c)
  {
    var s1, t1 := Peel(s, tokens, c);
    t, rest := Peel(s1, t1, c);
    source, id := tokens[0].text, t1[0].text;
  }

  lemma {:induction false} CustomOf(ignored: seq<Token>, tokens: seq<Token>, c: Command) returns (inv: Invocation)
    requires NoArgs(ignored) && tokens != [] && tokens[0].Arg? && Accepted(START.(phase := Cmd), tokens) == Some(c)
    ensures Valid(inv) && Render(inv) == [Long(OPT_INDEX_CMD)] + (ignored + tokens) && Meaning(inv) == c
  {
    var f, s, rest := FieldsOf(START.(phase := Cmd), tokens, c);
    var script, pairs := ScriptOf(s, rest, c);
    inv := CallCustom(ignored, f[0], f[1], f[2], f[3], f[4], script, pairs);
  }

  lemma {:induction false} MeasureOf(tokens: seq<Token>, c: Command) returns (inv: Invocation)
    requires Accepted(START.(phase := R), tokens) == Some(c)
    ensures Valid(inv) && Render(inv) == [Short('r')] + tokens && Meaning(inv) == c
  {
    var s1, rest := Peel(START.(phase := R), tokens, c);
    var script, pairs := ScriptOf(s1, rest, c);
    inv := CallMeasure(tokens[0].text, script, pairs);
  }

  lemma {:induction false} TestOf(tokens: seq<Token>, c: Command) returns (inv: Invocation)
    requires Accepted(START.(phase := T), tokens) == Some(c)
    ensures Valid(inv) && Render(inv) == [Short('t')] + tokens && Meaning(inv) == c
  {
    var s1, rest := Peel(START.(phase := T), tokens, c);
    var pairs := PairsOf(s1, rest, c);
    inv := CallTest(pairs);
  }

  lemma {:induction false} DeviceOf(tokens: seq<Token>, c: Command) returns (inv: Invocation)
    requires Accepted(START.(phase := D), tokens) == Some(c)
    ensures Valid(inv) && Render(inv) == [Short('d')] + tokens && Meaning(inv) == c
  {
    if tokens == [] {
      inv := CallDevice([]);
    } else {
      var s1, rest := Step(START.(phase := D), tokens[0]).value, tokens[1..];
      var pairs := PairsOf(s1, rest, c);
      inv := CallDevice(pairs);
      assert tokens == [tokens[0]] + rest;
    }
  }

  lemma {:induction false} CmdOf(tokens: seq<Token>, c: Command) returns (inv: Invocation)
    requires Accepted(START.(phase := Cmd), tokens) == Some(c)
    ensures Valid(inv) && Render(inv) == [Long(OPT_INDEX_CMD)] + tokens && Meaning(inv) == c
  {
    var ignored, more := IgnoredOf(START.(phase := Cmd), tokens, c);
    if more == [] {
      inv := CallList(ignored);
      assert ignored + more == ignored;
    } else {
      inv := CustomOf(ignored, more, c);
    }
  }

  /** Whatever is accepted is an invocation with this meaning. */
  lemma {:induction false} Sound(tokens: seq<Token>, c: Command) returns (inv: Invocation)
    requires Accepted(START, tokens) == Some(c)
    ensures Valid(inv) && Render(inv) == tokens && Meaning(inv) == c
  {
    var s, rest := Peel(START, tokens, c);
    match s.phase {
      case AFirst => inv := CallAdditional;
      case P => inv := CallInfo;
      case Quit => inv := CallExit;
      case Cmd => inv := CmdOf(rest, c);
      case T => inv := TestOf(rest, c);
      case D => inv := DeviceOf(rest, c);
      case R => inv := MeasureOf(rest, c);
    }
  }

  /** The parser accepts exactly the language, and makes of its words what they mean. */
  lemma {:induction false} AcceptsExactly(tokens: seq<Token>, c: Command)
    ensures Accepted(START, tokens) == Some(c) <==> Derives(tokens, c)
  {
    if Accepted(START, tokens) == Some(c) {
      var inv := Sound(tokens, c);
    }
    if inv :| Valid(inv) && Render(inv) == tokens && Meaning(inv) == c {
      Complete(inv);
    }
  }

  /** A name's value is the last one given. */
  lemma {:induction false} LastValueWins(params: map<string, string>, pairs: seq<Pair>, i: nat)
    requires i < |pairs| && forall j :: i < j < |pairs| ==> pairs[j].name != pairs[i].name
    ensures pairs[i].name in Assigned(params, pairs) && Assigned(params, pairs)[pairs[i].name] == pairs[i].value
    decreases |pairs|
  {
    var next := params[pairs[0].name := pairs[0].value];
    if i == 0 {
      OthersStay(next, pairs[1..], pairs[0].name);
    } else {
      LastValueWins(next, pairs[1..], i - 1);
    }
  }

  lemma {:induction false} OthersStay(params: map<string, string>, pairs: seq<Pair>, name: string)
    requires forall j :: 0 <= j < |pairs| ==> pairs[j].name != name
    ensures name in Assigned(params, pairs) <==> name in params
    ensures name in params ==> Assigned(params, pairs)[name] == params[name]
    decreases |pairs|
  {
    if pairs != [] {
      OthersStay(params[pairs[0].name := pairs[0].value], pairs[1..], name);
    }
  }

  lemma {:induction false} LastNameGiven(params: map<string, string>, pairs: seq<Pair>)
    requires pairs != []
    ensures Assigned(params, pairs) != map[]
  {
    LastValueWins(params, pairs, |pairs| - 1);
  }

  /** What an accepted command must carry was given: its fields as arguments, and at least one parameter. */
  lemma {:induction false} RequiredIsGiven(tokens: seq<Token>, c: Command)
    requires Accepted(START, tokens) == Some(c)
    ensures c.kind.CustomCommand? ==>
              && Arg(c.device) in tokens && Arg(c.cmdType) in tokens && Arg(c.message) in tokens
              && Arg(c.source) in tokens && Arg(c.id) in tokens && Arg(c.script) in tokens
    ensures c.kind.GetMeasurements? ==> Arg(c.device) in tokens && Arg(c.script) in tokens
    ensures c.kind.CustomCommand? || c.kind.GetMeasurements? || c.kind.TestDevice? ==> c.params != map[]
  {
    var inv := Sound(tokens, c);
    if inv.CallCustom? || inv.CallMeasure? {
      assert Arg(inv.script) in RenderScript(inv.script, inv.pairs);
    }
    if inv.CallCustom? || inv.CallMeasure? || inv.CallTest? {
      LastNameGiven(map[], inv.pairs);
    }
  }
}
