/** Commands on their way through the daemon: the server's thread, the processor's, and what each locked region does. */
module Handshake {

  /** The commands that the server can be sent: start measuring, test the device, anything for the station. */
  datatype Kind = StartMeasurement | TestDevice | External

  /** What the client receives for the id-th command. */
  datatype Response = Result(id: nat) | Refusal(id: nat)

  datatype Server =
    | Idle                          // in accept or recv
    | Cleared(id: nat, kind: Kind)  // m_canProcessCommands is false, Execute is about to be called
    | Refusing(id: nat)             // Execute returned false
    | Pushed(id: nat)               // the command is queued, Start is about to be called
    | Locking(id: nat)              // in pthread_mutex_lock of m_startMutex
    | Signalling(id: nat)           // m_doRun is set and the mutex free, the condition not yet signalled
    | Answered(id: nat)             // Execute has sent the result itself
    | Checking(id: nat)             // about to lock m_mutex and to test m_canProcessCommands
    | Sleeping(id: nat)             // in pthread_cond_wait
    | Ended                         // cancelled

  datatype Processor =
    | Absent                        // no port was opened: m_fd is -1
    | Starting                      // about to lock m_startMutex
    | Waiting                       // in pthread_cond_wait for the start
    | Woken                         // signalled, about to have m_startMutex again
    | Looping
    | Busy(id: nat)
    | Replied(id: nat)              // the result is sent, m_canProcessCommands not yet set
    | Deciding(again: bool)         // the value of m_doRun is computed, not yet written
    | Testing                       // about to test m_doRun at the head of the loop
    | Exiting                       // out of the loop
    | Deleted                       // what was pending is deleted
    | Gone                          // the server's thread has been sent a cancellation

  /** `logging`: log calls write, and so are cancellation points; `startHeld`: the processor keeps m_startMutex. */
  datatype State = State(server: Server, processor: Processor, logging: bool, capture: bool, doRun: bool,
                         startHeld: bool, canProcess: bool, pending: seq<nat>, next: nat, sent: seq<Response>)

  datatype Action =
    | Receive(kind: Kind) | Execute(opens: bool) | Refuse | EnterStart | SetRun | SignalStart
    | AnswerDone | Check | SpuriousWakeup | Cancel
    | AwaitStart | Resume | Pop | Reply | ReplyDone | EndTurn | WriteRun | TestRun | DeletePending | Exit

  function Initial(logging: bool): State {
    State(Idle, Absent, logging, false, true, false, true, [], 0, [])
  }

  /** isRunning: the port was opened once; nothing closes it. */
  predicate Created(s: State) {
    !s.processor.Absent?
  }

  /** Where a pending cancellation takes effect: not in a mutex lock, but in every blocking call and log write. */
  predicate Cancellable(server: Server, logging: bool) {
    match server
    case Idle => true
    case Sleeping(_) => true
    case Refusing(_) => true
    case Locking(_) => false
    case Ended => false
    case _ => logging
  }

  predicate Enabled(s: State, a: Action) {
    match a
    case Receive(_) => s.server.Idle? && !s.processor.Gone?
    case Execute(_) => s.server.Cleared?
    case Refuse => s.server.Refusing? && !s.processor.Gone?
    case EnterStart => s.server.Pushed?
    case SetRun => s.server.Locking? && !s.startHeld
    case SignalStart => s.server.Signalling?
    case AnswerDone => s.server.Answered?
    case Check => s.server.Checking?
    case SpuriousWakeup => s.server.Sleeping?
    case Cancel => s.processor.Gone? && Cancellable(s.server, s.logging)
    case AwaitStart => s.processor.Starting? && !s.startHeld
    case Resume => s.processor.Woken? && !s.startHeld
    case Pop => s.processor.Looping? && s.pending != []
    case Reply => s.processor.Busy?
    case ReplyDone => s.processor.Replied?
    case EndTurn => s.processor.Looping?
    case WriteRun => s.processor.Deciding?
    case TestRun => s.processor.Testing?
    case DeletePending => s.processor.Exiting?
    case Exit => s.processor.Deleted?
  }

  predicate IsServerStep(a: Action) {
    match a
    case Receive(_) => true
    case Execute(_) => true
    case Refuse => true
    case EnterStart => true
    case SetRun => true
    case SignalStart => true
    case AnswerDone => true
    case Check => true
    case SpuriousWakeup => true
    case Cancel => true
    case _ => false
  }

  /** A processor created for single commands: it waits for Start. */
  function Launched(s: State): State {
    s.(processor := Starting, capture := false, doRun := false)
  }

  function Queued(s: State, id: nat): State {
    s.(pending := s.pending + [id], server := Pushed(id))
  }

  /** Execute of the three commands; `opens` is whether the port can be opened, should that be tried. */
  function Executed(s: State, id: nat, kind: Kind, opens: bool): State {
    match kind
    case StartMeasurement =>
      if Created(s) || !opens then s.(server := Refusing(id))
      else s.(server := Answered(id), processor := Testing, capture := true, doRun := true,
                   sent := s.sent + [Result(id)])
    case TestDevice =>
      // a refusal is not passed on
      if Created(s) || !opens then s.(server := Checking(id))
      else Queued(Launched(s), id)
    case External =>
      if Created(s) then Queued(s, id)
      else if opens then Queued(Launched(s), id)
      else s.(server := Refusing(id))
  }

  /** m_canProcessCommands is set and its condition signalled. */
  function Notified(s: State): State {
    s.(canProcess := true, server := if s.server.Sleeping? then Checking(s.server.id) else s.server)
  }

  function Perform(s: State, a: Action): State
    requires Enabled(s, a)
  {
    match a
    case Receive(kind) => s.(server := Cleared(s.next, kind), canProcess := false, next := s.next + 1)
    case Execute(opens) => Executed(s, s.server.id, s.server.kind, opens)
    case Refuse => s.(server := Idle, sent := s.sent + [Refusal(s.server.id)])
    case EnterStart => s.(server := Locking(s.server.id))
    case SetRun => s.(doRun := true, server := Signalling(s.server.id))
    case SignalStart =>
      s.(server := Checking(s.server.id), processor := if s.processor.Waiting? then Woken else s.processor)
    case AnswerDone => Notified(s.(server := Checking(s.server.id)))
    case Check => s.(server := if s.canProcess then Idle else Sleeping(s.server.id))
    case SpuriousWakeup => s.(server := Checking(s.server.id))
    case Cancel => s.(server := Ended)
    // the unlock stands inside the loop: a start that came first leaves the mutex locked
    case AwaitStart => if s.doRun then s.(startHeld := true, processor := Testing) else s.(processor := Waiting)
    case Resume => s.(processor := if s.doRun then Testing else Waiting)
    case Pop => s.(processor := Busy(s.pending[0]), pending := s.pending[1..])
    case Reply => s.(processor := Replied(s.processor.id), sent := s.sent + [Result(s.processor.id)])
    case ReplyDone => Notified(s).(processor := Looping)
    case EndTurn => s.(processor := Deciding(s.capture || s.pending != []))
    case WriteRun => s.(doRun := s.processor.again, processor := Testing)
    case TestRun => s.(processor := if s.doRun then Looping else Exiting)
    case DeletePending => s.(processor := Deleted, pending := [])
    case Exit => s.(processor := Gone)
  }

  // ----- runs

  /** The steps can be taken one after the other. */
  predicate Feasible(s: State, actions: seq<Action>)
    decreases |actions|
  {
    actions == [] || (Enabled(s, actions[0]) && Feasible(Perform(s, actions[0]), actions[1..]))
  }

  function After(s: State, actions: seq<Action>): State
    requires Feasible(s, actions)
    decreases |actions|
  {
    if actions == [] then s else After(Perform(s, actions[0]), actions[1..])
  }

  ghost predicate LeadsTo(s: State, actions: seq<Action>, t: State) {
    Feasible(s, actions) && After(s, actions) == t
  }

  ghost predicate Reaches(s: State, t: State) {
    exists actions: seq<Action> :: LeadsTo(s, actions, t)
  }

  /** Some run of the daemon gets there. */
  ghost predicate Reachable(s: State) {
    exists logging: bool :: Reaches(Initial(logging), s)
  }

  // ----- the objects of the two threads

  class DaemonCommServer {
    var canProcessCommands: bool
    var sent: seq<Response>

    constructor ()
      ensures canProcessCommands && sent == []
    {
      canProcessCommands, sent := true, [];
    }

    ghost predicate Shows(s: State)
      reads this
    {
      canProcessCommands == s.canProcess && sent == s.sent
    }

    method SendResponseToClient(response: Response)
      modifies this
      ensures sent == old(sent) + [response] && canProcessCommands == old(canProcessCommands)
    {
      sent := sent + [response];
    }

    /** Called by the processor: the result is sent, the server takes any steps, the flag is set. */
    method OnResultReady(id: nat, ghost s: State, ghost between: seq<Action>)
      requires Shows(s) && s.processor == Busy(id) && !s.server.Idle? && !s.server.Cleared? && !s.server.Refusing?
      requires !s.canProcess && Feasible(Perform(s, Reply), between)
      requires forall i :: 0 <= i < |between| ==> IsServerStep(between[i]) && !between[i].AnswerDone?
      modifies this
      ensures After(Perform(s, Reply), between).processor == Replied(id)
      ensures Shows(Perform(After(Perform(s, Reply), between), ReplyDone))
    {
      SendResponseToClient(Result(id));
      ServerLeavesResult(Perform(s, Reply), between);
      canProcessCommands := true;
    }
  }

  /** While a result is on its way the server neither sends nor touches the flag, whatever steps it takes. */
  lemma {:induction false} ServerLeavesResult(s: State, actions: seq<Action>)
    requires Feasible(s, actions) && s.processor.Replied? && !s.canProcess
    requires !s.server.Idle? && !s.server.Cleared? && !s.server.Refusing?
    requires forall i :: 0 <= i < |actions| ==> IsServerStep(actions[i]) && !actions[i].AnswerDone?
    ensures var t := After(s, actions); t.processor == s.processor && t.sent == s.sent && !t.canProcess
    ensures var t := After(s, actions); t.pending == s.pending && t.capture == s.capture
    decreases |actions|
  {
    if actions != [] {
      ServerLeavesResult(Perform(s, actions[0]), actions[1..]);
    }
  }

  class CommandProcessor {
    var running: bool
    var capture: bool
    var pending: seq<nat>

    constructor ()
      ensures !running && !capture && pending == []
    {
      running, capture, pending := false, false, [];
    }

    ghost predicate Shows(s: State)
      reads this
    {
      running == Created(s) && capture == s.capture && pending == s.pending
    }

    /** A port is opened once; later calls succeed without doing anything. */
    method Create(opens: bool, oneShot: bool) returns (ok: bool)
      modifies this
      ensures ok == (old(running) || opens)
      ensures running == ok && pending == old(pending)
      ensures capture == if !old(running) && opens then !oneShot else old(capture)
    {
      if !running {
        if !opens {
          return false;
        }
        running, capture := true, !oneShot;
      }
      ok := true;
    }

    method SendCustomCmd(id: nat)
      modifies this
      ensures pending == old(pending) + [id] && running == old(running) && capture == old(capture)
    {
      pending := pending + [id];
    }

    /** One turn of the loop over the pending commands, the server stepping between the reply's two halves. */
    method ProcessNext(server: DaemonCommServer, ghost s: State, ghost between: seq<Action>) returns (found: bool)
      requires Shows(s) && server.Shows(s) && s.processor.Looping?
      requires s.pending != [] ==>
                 && !s.server.Idle? && !s.server.Cleared? && !s.server.Refusing? && !s.canProcess
                 && Feasible(Perform(Perform(s, Pop), Reply), between)
                 && forall i :: 0 <= i < |between| ==> IsServerStep(between[i]) && !between[i].AnswerDone?
      modifies this, server
      ensures found == (s.pending != [])
      ensures if !found then Shows(s) && server.Shows(s)
              else var t := After(Perform(Perform(s, Pop), Reply), between);
                   t.processor.Replied? && Shows(Perform(t, ReplyDone)) && server.Shows(Perform(t, ReplyDone))
    {
      found := pending != [];
      if found {
        var id := pending[0];
        pending := pending[1..];
        ServerLeavesResult(Perform(Perform(s, Pop), Reply), between);
        server.OnResultReady(id, Perform(s, Pop), between);
      }
    }
  }

  class RitexDevice {
    const processor: CommandProcessor

    constructor (processor: CommandProcessor)
      ensures this.processor == processor
    {
      this.processor := processor;
    }

    method StartMeasurements(opens: bool) returns (ok: bool)
      modifies processor
      ensures ok == (!old(processor.running) && opens)
      ensures processor.running == (old(processor.running) || opens) && processor.pending == old(processor.pending)
      ensures processor.capture == (ok || old(processor.capture))
    {
      if processor.running {
        return false;
      }
      ok := processor.Create(opens, false);
    }

    method TestOf(id: nat, opens: bool) returns (ok: bool)
      modifies processor
      ensures ok == (!old(processor.running) && opens)
      ensures processor.running == (old(processor.running) || opens)
      ensures processor.capture == (!ok && old(processor.capture))
      ensures processor.pending == old(processor.pending) + if ok then [id] else []
    {
      if processor.running {
        return false;
      }
      ok := processor.Create(opens, true);
      if ok {
        processor.SendCustomCmd(id);
      }
    }

    method ExecuteCustomCommand(id: nat, opens: bool) returns (ok: bool)
      modifies processor
      ensures ok == processor.running == (old(processor.running) || opens)
      ensures processor.capture == (old(processor.capture) && (old(processor.running) || !ok))
      ensures processor.pending == old(processor.pending) + if ok then [id] else []
    {
      ok := true;
      if !processor.running {
        ok := processor.Create(opens, true);
      }
      if ok {
        processor.SendCustomCmd(id);
      }
    }

    /** Execute of the three commands, up to Start: the test returns true whatever the device said. */
    method Execute(id: nat, kind: Kind, opens: bool, ghost s: State) returns (done: bool)
      requires processor.Shows(s) && (s.capture ==> Created(s))
      modifies processor
      ensures processor.running == (old(processor.running) || opens)
      ensures match kind
              case StartMeasurement =>
                && done == (!old(processor.running) && opens)
                && processor.capture == (done || old(processor.capture)) && processor.pending == old(processor.pending)
              case TestDevice =>
                && done && processor.capture == old(processor.capture)
                && processor.pending == old(processor.pending) + if !old(processor.running) && opens then [id] else []
              case External =>
                && done == (old(processor.running) || opens) && processor.capture == old(processor.capture)
                && processor.pending == old(processor.pending) + if done then [id] else []
      ensures processor.Shows(Executed(s, id, kind, opens))
      ensures done == !Executed(s, id, kind, opens).server.Refusing?
    {
      match kind {
        case StartMeasurement => done := StartMeasurements(opens);
        case TestDevice =>
          var _ := TestOf(id, opens);
          done := true;
        case External => done := ExecuteCustomCommand(id, opens);
      }
    }
  }
}
