/** What every run of the daemon keeps, and exactly which commands are answered, lost, or never come back from. */
module HandshakeTheory {
  import opened Handshake

  // ----- what every run keeps

  /** The n-th response answers the n-th command. */
  predicate Numbered(sent: seq<Response>) {
    forall i :: 0 <= i < |sent| ==> sent[i].id == i
  }

  /** The commands that the processor has yet to finish. */
  function Outstanding(s: State): seq<nat> {
    s.pending + if s.processor.Busy? || s.processor.Replied? then [s.processor.id] else []
  }

  /** The start of the processor's thread is over, or there is none. */
  predicate Started(p: Processor) {
    !p.Starting? && !p.Waiting? && !p.Woken?
  }

  /** Between Execute and the end of the wait for the result. */
  predicate Awaiting(server: Server) {
    server.Pushed? || server.Locking? || server.Signalling? || server.Checking? || server.Sleeping?
  }

  predicate BeforeStart(server: Server) {
    server.Pushed? || server.Locking?
  }

  /** The awaited command is with the processor or lost; or it was answered, and the server was told or will be. */
  predicate Served(s: State, id: nat) {
    if |s.sent| == id then !s.canProcess && !s.processor.Replied? && (Outstanding(s) == [] || Outstanding(s) == [id])
    else
      && |s.sent| == id + 1 && s.sent[id] == Result(id)
      && if s.canProcess then Outstanding(s) == [] else s.processor == Replied(id) && s.pending == []
  }

  predicate ServerInv(s: State) {
    match s.server
    case Idle => |s.sent| == s.next && Outstanding(s) == [] && Started(s.processor)
    case Cleared(id, _) =>
      s.next == id + 1 && |s.sent| == id && Outstanding(s) == [] && Started(s.processor) && !s.canProcess
    case Refusing(id) =>
      s.next == id + 1 && |s.sent| == id && Outstanding(s) == [] && Started(s.processor) && !s.canProcess
    case Answered(id) =>
      s.next == id + 1 == |s.sent| && s.sent[id] == Result(id) && Outstanding(s) == [] && s.capture
    case Ended => s.processor.Gone? && |s.pending| <= 1
    case other => s.next == other.id + 1 && Served(s, other.id) && (other.Sleeping? ==> !s.canProcess)
  }

  predicate ProcessorInv(s: State) {
    && (s.capture ==>
          && s.doRun && !s.startHeld
          && match s.processor
             case Looping => true
             case Busy(_) => true
             case Replied(_) => true
             case Deciding(again) => again
             case Testing => true
             case _ => false)
    && match s.processor
       case Absent => !s.startHeld && s.pending == []
       case Starting => !s.startHeld && s.pending != [] && Awaiting(s.server) && s.doRun == !BeforeStart(s.server)
       case Waiting =>
         !s.startHeld && s.pending != [] && (if s.doRun then s.server.Signalling? else BeforeStart(s.server))
       case Woken =>
         !s.startHeld && s.pending != [] && s.doRun && Awaiting(s.server) && !BeforeStart(s.server)
       case _ => true
  }

  predicate Inv(s: State) {
    && Numbered(s.sent) && |s.sent| <= s.next <= |s.sent| + 1
    && ServerInv(s) && ProcessorInv(s)
  }

  lemma {:induction false} ServerKeepsInv(s: State, a: Action)
    requires Inv(s) && Enabled(s, a) && IsServerStep(a)
    ensures Inv(Perform(s, a))
  {
    if a.Execute? {
      ExecuteKeepsInv(s, a.opens);
    }
  }

  lemma {:induction false} ExecuteKeepsInv(s: State, opens: bool)
    requires Inv(s) && s.server.Cleared?
    ensures Inv(Perform(s, Execute(opens)))
  {
    var t, id := Perform(s, Execute(opens)), s.server.id;
    assert s.pending == [];
    if t.server.Pushed? {
      assert Outstanding(t) == [id];
    } else {
      assert Outstanding(t) == [];
    }
  }

  lemma {:induction false} PendingKeepsInv(s: State, a: Action)
    requires Inv(s) && Enabled(s, a) && (a.Pop? || a.DeletePending?)
    ensures Inv(Perform(s, a))
  {
  }

  lemma {:induction false} ReplyKeepsInv(s: State, a: Action)
    requires Inv(s) && Enabled(s, a) && (a.Reply? || a.ReplyDone?)
    ensures Inv(Perform(s, a))
  {
    assert Outstanding(s)[|s.pending|] == s.processor.id;
  }

  lemma {:induction false} ThreadKeepsInv(s: State, a: Action)
    requires Inv(s) && Enabled(s, a) && (a.AwaitStart? || a.Resume? || a.Exit?)
    ensures Inv(Perform(s, a))
  {
  }

  lemma {:induction false} LoopKeepsInv(s: State, a: Action)
    requires Inv(s) && Enabled(s, a) && (a.EndTurn? || a.WriteRun? || a.TestRun?)
    ensures Inv(Perform(s, a))
  {
  }

  lemma {:induction false} StepKeepsInv(s: State, a: Action)
    requires Inv(s) && Enabled(s, a)
    ensures Inv(Perform(s, a))
  {
    if IsServerStep(a) {
      ServerKeepsInv(s, a);
    } else if a.Pop? || a.DeletePending? {
      PendingKeepsInv(s, a);
    } else if a.Reply? || a.ReplyDone? {
      ReplyKeepsInv(s, a);
    } else if a.AwaitStart? || a.Resume? || a.Exit? {
      ThreadKeepsInv(s, a);
    } else {
      LoopKeepsInv(s, a);
    }
  }

  lemma {:induction false} RunKeepsInv(s: State, actions: seq<Action>)
    requires Inv(s) && Feasible(s, actions)
    ensures Inv(After(s, actions))
    decreases |actions|
  {
    if actions != [] {
      StepKeepsInv(s, actions[0]);
      RunKeepsInv(Perform(s, actions[0]), actions[1..]);
    }
  }

  lemma {:induction false} ReachableInv(s: State)
    requires Reachable(s)
    ensures Inv(s)
  {
    var logging: bool :| Reaches(Initial(logging), s);
    var actions: seq<Action> :| LeadsTo(Initial(logging), actions, s);
    RunKeepsInv(Initial(logging), actions);
  }

  // ----- safety

  /** Every command before the latest has been answered once, in order, and nothing else was sent. */
  lemma {:induction false} AnsweredInOrder(s: State)
    requires Reachable(s)
    ensures s.next - 1 <= |s.sent| <= s.next && forall i :: 0 <= i < |s.sent| ==> s.sent[i].id == i
    ensures s.server.Idle? ==> |s.sent| == s.next
  {
    ReachableInv(s);
  }

  /** The wait ends only after the awaited command's own result was sent, as the last response of all. */
  lemma {:induction false} WaitEndsWithOwnResult(s: State)
    requires Reachable(s) && s.server.Checking? && Perform(s, Check).server.Idle?
    ensures s.sent != [] && s.sent[|s.sent| - 1] == Result(s.server.id) && |s.sent| == s.server.id + 1 == s.next
  {
    ReachableInv(s);
  }

  /**
   * Neither thread sleeps through its wakeup: the server not once the flag is set, even if the result came before the
   * wait, and the processor not once the start was signalled. No more than one command is ever pending.
   */
  lemma {:induction false} NoLostWakeup(s: State)
    requires Reachable(s)
    ensures s.server.Sleeping? ==> !s.canProcess
    ensures s.processor.Waiting? ==> !s.doRun || s.server.Signalling?
    ensures |s.pending| <= 1
  {
    ReachableInv(s);
    assert |s.pending| <= |Outstanding(s)|;
  }

  // ----- continuations

  /** Some continuation answers the first n commands. */
  ghost predicate CanAnswer(s: State, n: nat) {
    exists t: State :: Reaches(s, t) && |t.sent| >= n
  }

  /** No continuation comes to a point from where the n-th cannot be answered. */
  ghost predicate AlwaysAnswerable(s: State, n: nat) {
    forall t: State :: Reaches(s, t) ==> CanAnswer(t, n)
  }

  /** Some continuation has the server receive again. */
  ghost predicate CanServeAgain(s: State) {
    exists t: State :: Reaches(s, t) && t.server.Idle?
  }

  /** No continuation has the server receive again, nor end. */
  ghost predicate Stuck(s: State) {
    forall t: State :: Reaches(s, t) ==> !t.server.Idle? && !t.server.Ended?
  }

  lemma {:induction false} Stay(s: State)
    ensures Reaches(s, s)
  {
    assert LeadsTo(s, [], s);
  }

  lemma {:induction false} StepThen(s: State, a: Action, t: State)
    requires Enabled(s, a) && Reaches(Perform(s, a), t)
    ensures Reaches(s, t)
  {
    var actions: seq<Action> :| LeadsTo(Perform(s, a), actions, t);
    var all := [a] + actions;
    assert all[1..] == actions;
    assert LeadsTo(s, all, t);
  }

  /** A property of the steps is a property of all continuations. */
  lemma {:induction false} InvAlong(s: State, t: State)
    requires Inv(s) && Reaches(s, t)
    ensures Inv(t)
  {
    var actions: seq<Action> :| LeadsTo(s, actions, t);
    RunKeepsInv(s, actions);
  }

  // ----- the fate of a command

  /** The processor will leave its loop at the next test, unless m_doRun is set once more. */
  predicate Leaving(s: State) {
    s.processor == Deciding(false) || (s.processor.Testing? && !s.doRun)
  }

  predicate Left(p: Processor) {
    p.Exiting? || p.Deleted? || p.Gone?
  }

  /** The latest command is not answered and will not be. */
  predicate Doomed(s: State) {
    && |s.sent| < s.next
    && match s.server
       case Ended => true
       case Refusing(_) => s.processor.Gone?
       case Cleared(_, _) => false
       case _ =>
         || Outstanding(s) == [] || Left(s.processor)
         || (Leaving(s) && (s.startHeld || !BeforeStart(s.server)))
  }

  /** The latest command is not answered, but will not be lost. */
  predicate Committed(s: State) {
    && |s.sent| < s.next
    && match s.server
       case Refusing(_) => !Created(s) || s.capture
       case _ => Awaiting(s.server) && Outstanding(s) != [] && !Left(s.processor) && !Leaving(s)
  }

  lemma {:induction false} DoomedStays(s: State, a: Action)
    requires Inv(s) && Doomed(s) && Enabled(s, a)
    ensures var t := Perform(s, a); Doomed(t) && t.next == s.next && t.sent == s.sent && !t.server.Idle?
  {
    if a.EndTurn? || a.TestRun? || a.WriteRun? || a.DeletePending? {
      assert Outstanding(s) == s.pending == Outstanding(Perform(s, a)) || a.DeletePending?;
    }
  }

  lemma {:induction false} DoomedForEver(s: State, actions: seq<Action>)
    requires Inv(s) && Doomed(s) && Feasible(s, actions)
    ensures var t := After(s, actions); Doomed(t) && t.next == s.next && t.sent == s.sent && !t.server.Idle?
    decreases |actions|
  {
    if actions != [] {
      DoomedStays(s, actions[0]);
      StepKeepsInv(s, actions[0]);
      DoomedForEver(Perform(s, actions[0]), actions[1..]);
    }
  }

  lemma {:induction false} DoomedIsNeverAnswered(s: State)
    requires Inv(s) && Doomed(s)
    ensures !CanAnswer(s, s.next) && !CanServeAgain(s)
  {
    forall t: State | Reaches(s, t) ensures |t.sent| < s.next && !t.server.Idle? {
      var actions: seq<Action> :| LeadsTo(s, actions, t);
      DoomedForEver(s, actions);
    }
  }

  /** The step that brings a committed command nearer to its answer. */
  function Help(s: State): Action {
    if s.server.Refusing? then Refuse
    else match s.processor
      case Busy(_) => Reply
      case Looping => Pop
      case Testing => TestRun
      case Deciding(_) => WriteRun
      case Woken => Resume
      case Starting => AwaitStart
      case _ => if s.server.Pushed? then EnterStart else if s.server.Locking? then SetRun else SignalStart
  }

  function Distance(s: State): nat {
    if s.server.Refusing? then 1
    else match s.processor
      case Busy(_) => 1
      case Looping => 2
      case Testing => 3
      case Deciding(_) => 4
      case Woken => 4
      case Starting => 8
      case _ => if s.server.Pushed? then 7 else if s.server.Locking? then 6 else 5
  }

  /** A committed command has a step that serves it: one more answers it, or fewer are left. */
  lemma {:induction false} HelpWorks(s: State)
    requires Inv(s) && Committed(s)
    ensures Enabled(s, Help(s))
    ensures var t := Perform(s, Help(s));
            t.next == s.next && (|t.sent| == s.next || (Committed(t) && Distance(t) < Distance(s)))
    ensures var t := Perform(s, Help(s));
            t.startHeld && BeforeStart(t.server) ==> s.startHeld && BeforeStart(s.server)
  {
    if s.processor.Looping? {
      assert Outstanding(s) == s.pending;
    }
  }

  lemma {:induction false} CommittedStays(s: State, a: Action)
    requires Inv(s) && Committed(s) && Enabled(s, a)
    ensures var t := Perform(s, a); t.next == s.next && (|t.sent| == s.next || Committed(t))
  {
    if !s.server.Refusing? {
      assert Outstanding(s) == s.pending || s.processor.Busy?;
    }
  }

  lemma {:induction false} CommittedIsAnswered(s: State) returns (t: State)
    requires Inv(s) && Committed(s)
    ensures Reaches(s, t) && Inv(t) && t.next == s.next == |t.sent|
    ensures t.startHeld && BeforeStart(t.server) ==> s.startHeld && BeforeStart(s.server)
    ensures !t.server.Ended?
    decreases Distance(s)
  {
    HelpWorks(s);
    StepKeepsInv(s, Help(s));
    t := Perform(s, Help(s));
    if |t.sent| == s.next {
      Stay(t);
    } else {
      t := CommittedIsAnswered(t);
    }
    StepThen(s, Help(s), t);
  }

  /** Answered, or certain to be. */
  predicate Sure(s: State, n: nat) {
    |s.sent| >= n || (s.next == n && Committed(s))
  }

  lemma {:induction false} SureStays(s: State, actions: seq<Action>, n: nat)
    requires Inv(s) && Sure(s, n) && Feasible(s, actions)
    ensures Sure(After(s, actions), n)
    decreases |actions|
  {
    if actions != [] {
      if |s.sent| < n {
        CommittedStays(s, actions[0]);
      } else {
        NothingUnsaid(s, actions[0]);
      }
      StepKeepsInv(s, actions[0]);
      SureStays(Perform(s, actions[0]), actions[1..], n);
    }
  }

  lemma {:induction false} NothingUnsaid(s: State, a: Action)
    requires Enabled(s, a)
    ensures s.sent <= Perform(s, a).sent
  {
    if a.Execute? {
      assert s.sent <= Executed(s, s.server.id, s.server.kind, a.opens).sent;
    } else if !a.Refuse? && !a.Reply? {
      assert Perform(s, a).sent == s.sent;
    }
  }

  lemma {:induction false} SureIsAlwaysAnswerable(s: State, n: nat)
    requires Inv(s) && Sure(s, n)
    ensures AlwaysAnswerable(s, n)
  {
    forall t: State | Reaches(s, t) ensures CanAnswer(t, n) {
      var actions: seq<Action> :| LeadsTo(s, actions, t);
      SureStays(s, actions, n);
      InvAlong(s, t);
      if |t.sent| >= n {
        Stay(t);
      } else {
        var u := CommittedIsAnswered(t);
      }
    }
  }

  // ----- the fate of a command, from the state before the call

  /** The call comes too late for a processor created for single commands. */
  predicate TooLate(s: State) {
    Left(s.processor) || (Leaving(s) && s.startHeld)
  }

  /** A test of a device in use or behind a closed port; a command too late; a refusal by a cancelled server. */
  predicate Hopeless(s: State, kind: Kind, opens: bool) {
    match kind
    case TestDevice => Created(s) || !opens
    case External => Created(s) && TooLate(s)
    case StartMeasurement => s.processor.Gone?
  }

  /** Neither a hopeless call nor one that runs against the end of the processor's loop or the server's cancellation. */
  predicate Safe(s: State, kind: Kind, opens: bool) {
    match kind
    case TestDevice => !Created(s) && opens
    case External => Created(s) ==> !Left(s.processor) && !Leaving(s)
    case StartMeasurement => Created(s) ==> s.capture
  }

  lemma {:induction false} FateOfCall(s: State, opens: bool)
    requires Inv(s) && s.server.Cleared?
    ensures var t, kind := Perform(s, Execute(opens)), s.server.kind;
            && Inv(t) && t.next == s.next
            && (Hopeless(s, kind, opens) ==> Doomed(t))
            && (Safe(s, kind, opens) ==> Sure(t, t.next))
  {
    ExecuteKeepsInv(s, opens);
    var t := Perform(s, Execute(opens));
    if t.server.Pushed? {
      assert Outstanding(t) == [s.server.id];
    }
  }

  // ----- what a processor for single commands comes to

  function LeaveStep(s: State): Action {
    match s.processor
    case Looping => if s.pending == [] then EndTurn else Pop
    case Busy(_) => Reply
    case Replied(_) => ReplyDone
    case Deciding(_) => WriteRun
    case Testing => TestRun
    case Exiting => DeletePending
    case _ => Exit
  }

  function LeaveDistance(s: State): nat {
    match s.processor
    case Looping => 5 + 4 * |s.pending|
    case Busy(_) => 8 + 4 * |s.pending|
    case Replied(_) => 7 + 4 * |s.pending|
    case Testing => if s.doRun then 6 + 4 * |s.pending| else 3
    case Deciding(again) => if again then 7 + 4 * |s.pending| else 4
    case Exiting => 2
    case Deleted => 1
    case _ => 0
  }

  /** The server as it was, or woken. */
  predicate Undisturbed(before: Server, after: Server) {
    after == before || (before.Sleeping? && after == Checking(before.id))
  }

  lemma {:induction false} LeaveWorks(s: State)
    requires Inv(s) && Created(s) && !s.capture && Started(s.processor) && !s.processor.Gone?
    ensures Enabled(s, LeaveStep(s))
    ensures var t := Perform(s, LeaveStep(s));
            && LeaveDistance(t) < LeaveDistance(s)
            && Created(t) && !t.capture && Started(t.processor) && Undisturbed(s.server, t.server)
            && t.startHeld == s.startHeld && t.logging == s.logging && t.next == s.next
  {
  }

  /** It can always come to its end, whatever the server does. */
  lemma {:induction false} Leave(s: State) returns (t: State)
    requires Inv(s) && Created(s) && !s.capture && Started(s.processor)
    ensures Reaches(s, t) && Inv(t) && t.processor.Gone? && Undisturbed(s.server, t.server)
    ensures t.startHeld == s.startHeld && t.logging == s.logging && t.next == s.next
    decreases LeaveDistance(s)
  {
    if s.processor.Gone? {
      t := s;
      Stay(s);
    } else {
      LeaveWorks(s);
      StepKeepsInv(s, LeaveStep(s));
      t := Leave(Perform(s, LeaveStep(s)));
      StepThen(s, LeaveStep(s), t);
    }
  }

  // ----- calls that can go either way

  lemma {:induction false} RefusedInTime(t: State) returns (good: State)
    requires Inv(t) && t.server.Refusing? && !t.processor.Gone?
    ensures Reaches(t, good) && Inv(good) && |good.sent| == t.next == good.next && good.server.Idle?
  {
    StepKeepsInv(t, Refuse);
    good := Perform(t, Refuse);
    Stay(good);
    StepThen(t, Refuse, good);
  }

  lemma {:induction false} Written(t: State) returns (u: State)
    requires Inv(t) && t.server.Pushed? && |t.sent| < t.next && Leaving(t) && Outstanding(t) != []
    ensures Reaches(t, u) && Inv(u) && u.processor.Testing? && !u.doRun && u.server == t.server
    ensures u.startHeld == t.startHeld && u.next == t.next && u.sent == t.sent && Outstanding(u) == Outstanding(t)
  {
    if t.processor.Testing? {
      u := t;
      Stay(t);
    } else {
      StepKeepsInv(t, WriteRun);
      u := Perform(t, WriteRun);
      Stay(u);
      StepThen(t, WriteRun, u);
    }
  }

  lemma {:induction false} ReachesOn(s: State, t: State, u: State)
    requires Reaches(s, t) && Reaches(t, u)
    ensures Reaches(s, u)
  {
    var first: seq<Action> :| LeadsTo(s, first, t);
    Onwards(s, first, u);
  }

  lemma {:induction false} Onwards(s: State, first: seq<Action>, u: State)
    requires Feasible(s, first) && Reaches(After(s, first), u)
    ensures Reaches(s, u)
    decreases |first|
  {
    if first != [] {
      Onwards(Perform(s, first[0]), first[1..], u);
      StepThen(s, first[0], u);
    }
  }

  lemma {:induction false} StartedInTime(t: State) returns (good: State)
    requires Inv(t) && t.server.Pushed? && |t.sent| < t.next && Leaving(t) && Outstanding(t) != [] && !t.startHeld
    ensures Reaches(t, good) && Inv(good) && Committed(good) && good.next == t.next && !BeforeStart(good.server)
  {
    var u := Written(t);
    var v := Perform(u, EnterStart);
    StepKeepsInv(u, EnterStart);
    StepKeepsInv(v, SetRun);
    good := Perform(v, SetRun);
    Stay(good);
    StepThen(v, SetRun, good);
    StepThen(u, EnterStart, good);
    ReachesOn(t, u, good);
  }

  lemma {:induction false} LeftFirst(t: State) returns (bad: State)
    requires Inv(t) && t.server.Pushed? && |t.sent| < t.next && Leaving(t) && Outstanding(t) != []
    ensures Reaches(t, bad) && Inv(bad) && Doomed(bad) && bad.next == t.next
  {
    var u := Written(t);
    StepKeepsInv(u, TestRun);
    bad := Perform(u, TestRun);
    Stay(bad);
    StepThen(u, TestRun, bad);
    ReachesOn(t, u, bad);
  }

  /** A call that is neither hopeless nor safe can still go either way. */
  lemma {:induction false} RacyCall(s: State, opens: bool) returns (good: State, bad: State)
    requires Inv(s) && s.server.Cleared?
    requires !Hopeless(s, s.server.kind, opens) && !Safe(s, s.server.kind, opens)
    ensures var t := Perform(s, Execute(opens));
            && Reaches(t, good) && Inv(good) && Sure(good, t.next) && good.next == t.next
            && !good.server.Ended? && !(good.startHeld && BeforeStart(good.server))
            && Reaches(t, bad) && Inv(bad) && Doomed(bad) && bad.next == t.next
  {
    ExecuteKeepsInv(s, opens);
    var t := Perform(s, Execute(opens));
    if s.server.kind.StartMeasurement? {
      good := RefusedInTime(t);
      bad := Leave(t);
    } else {
      assert Outstanding(t) == [s.server.id];
      good := StartedInTime(t);
      bad := LeftFirst(t);
    }
  }

  /**
   * For every reachable state and every call: no continuation answers the command exactly if the call is hopeless, and
   * none comes to lose it exactly if the call is safe. Both can be told before the call.
   */
  lemma {:induction false} FateExactly(s: State, opens: bool)
    requires Reachable(s) && s.server.Cleared?
    ensures var t, kind := Perform(s, Execute(opens)), s.server.kind;
            && (CanAnswer(t, t.next) <==> !Hopeless(s, kind, opens))
            && (AlwaysAnswerable(t, t.next) <==> Safe(s, kind, opens))
  {
    ReachableInv(s);
    FateOfCall(s, opens);
    var t := Perform(s, Execute(opens));
    Stay(t);
    if Hopeless(s, s.server.kind, opens) {
      DoomedIsNeverAnswered(t);
    } else if Safe(s, s.server.kind, opens) {
      SureIsAlwaysAnswerable(t, t.next);
    } else {
      var good, bad := RacyCall(s, opens);
      DoomedIsNeverAnswered(bad);
      SureIsAlwaysAnswerable(good, t.next);
      Stay(good);
      var u: State :| Reaches(good, u) && |u.sent| >= t.next;
      ReachesOn(t, good, u);
    }
  }

  // ----- results and refusals

  /** The id-th command was answered as it should be; or it is not answered yet, and cannot be in another way. */
  predicate OnCourse(s: State, id: nat, refused: bool) {
    if |s.sent| > id then s.sent[id] == if refused then Refusal(id) else Result(id)
    else
      && |s.sent| == id && s.next == id + 1
      && if refused then s.server == Refusing(id) || s.server.Ended?
         else !s.server.Refusing? && !s.server.Idle? && !s.server.Cleared?
  }

  lemma {:induction false} CourseIsKept(s: State, a: Action, id: nat, refused: bool)
    requires Inv(s) && OnCourse(s, id, refused) && Enabled(s, a)
    ensures OnCourse(Perform(s, a), id, refused)
  {
    NothingUnsaid(s, a);
    if a.Reply? && |s.sent| == id {
      assert Outstanding(s)[|s.pending|] == s.processor.id;
    }
  }

  lemma {:induction false} CourseIsKeptForEver(s: State, actions: seq<Action>, id: nat, refused: bool)
    requires Inv(s) && OnCourse(s, id, refused) && Feasible(s, actions)
    ensures OnCourse(After(s, actions), id, refused)
    decreases |actions|
  {
    if actions != [] {
      CourseIsKept(s, actions[0], id, refused);
      StepKeepsInv(s, actions[0]);
      CourseIsKeptForEver(Perform(s, actions[0]), actions[1..], id, refused);
    }
  }

  /**
   * A command is refused exactly if it is a start of measurements with a port open already or none to open, or one for
   * the station with no port open and none to open. Whatever happens afterwards, a refused command gets no other
   * response than its refusal, an accepted one none but its result; an accepted start has sent it and runs.
   */
  lemma {:induction false} RefusedExactly(s: State, opens: bool)
    requires Reachable(s) && s.server.Cleared?
    ensures var id, kind, t := s.server.id, s.server.kind, Perform(s, Execute(opens));
            var refused :=
              || (kind == StartMeasurement && (s.processor != Absent || !opens))
              || (kind == External && s.processor == Absent && !opens);
            && (t.server == Refusing(id) <==> refused)
            && (forall u: State :: Reaches(t, u) && |u.sent| > id ==>
                  u.sent[id] == if refused then Refusal(id) else Result(id))
            && (kind == StartMeasurement && !refused ==> t.capture && t.sent == s.sent + [Result(id)])
  {
    ReachableInv(s);
    ExecuteKeepsInv(s, opens);
    var t, id := Perform(s, Execute(opens)), s.server.id;
    var refused := t.server == Refusing(id);
    assert OnCourse(t, id, refused);
    forall u: State | Reaches(t, u) && |u.sent| > id
      ensures u.sent[id] == if refused then Refusal(id) else Result(id)
    {
      var actions: seq<Action> :| LeadsTo(t, actions, u);
      CourseIsKeptForEver(t, actions, id, refused);
    }
  }

  // ----- the fate of the server

  /** The server blocks in Start: the processor was started before it waited, and keeps the mutex. */
  predicate HeldUp(s: State, kind: Kind) {
    kind.External? && Created(s) && s.startHeld
  }

  function ServeStep(s: State): Action {
    if s.processor.Replied? then ReplyDone
    else match s.server
      case Pushed(_) => EnterStart
      case Locking(_) => SetRun
      case Signalling(_) => SignalStart
      case Answered(_) => AnswerDone
      case _ => Check
  }

  function ServeDistance(s: State): nat {
    (if s.processor.Replied? then 10 else 0) +
    match s.server
    case Pushed(_) => 5
    case Locking(_) => 4
    case Signalling(_) => 3
    case Answered(_) => 2
    case Checking(_) => 1
    case _ => 0
  }

  lemma {:induction false} ServeWorks(s: State)
    requires Inv(s) && |s.sent| == s.next && (Awaiting(s.server) || s.server.Answered?)
    requires !(s.startHeld && BeforeStart(s.server))
    ensures Enabled(s, ServeStep(s))
    ensures var t := Perform(s, ServeStep(s));
            && |t.sent| == t.next && (Awaiting(t.server) || t.server.Answered? || t.server.Idle?)
            && !(t.startHeld && BeforeStart(t.server))
            && (t.server.Idle? || ServeDistance(t) < ServeDistance(s))
  {
  }

  /** The server of an answered command can come back to receive. */
  lemma {:induction false} Serve(s: State) returns (t: State)
    requires Inv(s) && |s.sent| == s.next && !s.server.Ended? && !(s.startHeld && BeforeStart(s.server))
    ensures Reaches(s, t) && t.server.Idle?
    decreases ServeDistance(s)
  {
    if s.server.Idle? {
      t := s;
      Stay(s);
    } else {
      ServeWorks(s);
      StepKeepsInv(s, ServeStep(s));
      t := Perform(s, ServeStep(s));
      if t.server.Idle? {
        Stay(t);
      } else {
        t := Serve(t);
      }
      StepThen(s, ServeStep(s), t);
    }
  }

  lemma {:induction false} SureServesAgain(s: State)
    requires Inv(s) && Sure(s, s.next) && !s.server.Ended? && !(s.startHeld && BeforeStart(s.server))
    ensures CanServeAgain(s)
  {
    var u := s;
    if |s.sent| < s.next {
      u := CommittedIsAnswered(s);
    } else {
      Stay(s);
    }
    var t := Serve(u);
    ReachesOn(s, u, t);
  }

  lemma {:induction false} HeldForEver(s: State, actions: seq<Action>)
    requires s.startHeld && (BeforeStart(s.server) || s.server.Ended?) && Feasible(s, actions)
    ensures var t := After(s, actions);
            && t.startHeld && t.logging == s.logging && (BeforeStart(t.server) || t.server.Ended?)
            && (BeforeStart(s.server) && !s.logging ==> BeforeStart(t.server))
    decreases |actions|
  {
    if actions != [] {
      HeldForEver(Perform(s, actions[0]), actions[1..]);
    }
  }

  /**
   * After the call the server can come back to receive exactly if the call was not hopeless and the mutex of the start
   * is free, or not asked for.
   */
  lemma {:induction false} ServesAgainExactly(s: State, opens: bool)
    requires Reachable(s) && s.server.Cleared?
    ensures var t, kind := Perform(s, Execute(opens)), s.server.kind;
            CanServeAgain(t) <==> !Hopeless(s, kind, opens) && !HeldUp(s, kind)
  {
    ReachableInv(s);
    FateOfCall(s, opens);
    var t := Perform(s, Execute(opens));
    if Hopeless(s, s.server.kind, opens) {
      DoomedIsNeverAnswered(t);
    } else if HeldUp(s, s.server.kind) {
      forall u: State | Reaches(t, u) ensures !u.server.Idle? {
        var actions: seq<Action> :| LeadsTo(t, actions, u);
        HeldForEver(t, actions);
      }
    } else if Safe(s, s.server.kind, opens) {
      SureServesAgain(t);
    } else {
      var good, bad := RacyCall(s, opens);
      SureServesAgain(good);
      var u: State :| Reaches(good, u) && u.server.Idle?;
      ReachesOn(t, good, u);
    }
  }

  // ----- waiting for ever

  /** A test refused because measurements run or the port does not open; a command behind a mutex kept for good. */
  predicate HangsUp(s: State, kind: Kind, opens: bool) {
    match kind
    case TestDevice => if Created(s) then s.capture else !opens
    case External => Created(s) && s.startHeld && !s.logging
    case StartMeasurement => false
  }

  /** Nobody has the command, and nobody will end the server. */
  predicate Forlorn(s: State) {
    && (s.server.Checking? || s.server.Sleeping?) && |s.sent| < s.next
    && Outstanding(s) == [] && (s.capture || !Created(s))
  }

  lemma {:induction false} ForlornStays(s: State, a: Action)
    requires Inv(s) && Forlorn(s) && Enabled(s, a)
    ensures Forlorn(Perform(s, a))
  {
  }

  lemma {:induction false} ForlornForEver(s: State, actions: seq<Action>)
    requires Inv(s) && Forlorn(s) && Feasible(s, actions)
    ensures Forlorn(After(s, actions))
    decreases |actions|
  {
    if actions != [] {
      ForlornStays(s, actions[0]);
      StepKeepsInv(s, actions[0]);
      ForlornForEver(Perform(s, actions[0]), actions[1..]);
    }
  }

  function EndStep(s: State): Action {
    match s.server
    case Pushed(_) => if s.logging then Cancel else EnterStart
    case Locking(_) => SetRun
    case Signalling(_) => SignalStart
    case Checking(_) => Check
    case _ => Cancel
  }

  function EndDistance(s: State): nat {
    match s.server
    case Pushed(_) => 5
    case Locking(_) => 4
    case Signalling(_) => 3
    case Checking(_) => 2
    case _ => 1
  }

  /** Cancelled, the server gets to a point where it ends, or first back to receive. */
  lemma {:induction false} EndServer(s: State) returns (t: State)
    requires Inv(s) && s.processor.Gone? && (Awaiting(s.server) || s.server.Refusing?)
    requires s.startHeld ==> !s.server.Locking? && (s.server.Pushed? ==> s.logging)
    ensures Reaches(s, t) && (t.server.Idle? || t.server.Ended?)
    decreases EndDistance(s)
  {
    var a := EndStep(s);
    StepKeepsInv(s, a);
    t := Perform(s, a);
    if t.server.Idle? || t.server.Ended? {
      Stay(t);
    } else {
      t := EndServer(t);
    }
    StepThen(s, a, t);
  }

  lemma {:induction false} HangsForEver(s: State, opens: bool)
    requires Inv(s) && s.server.Cleared? && HangsUp(s, s.server.kind, opens)
    ensures Stuck(Perform(s, Execute(opens)))
  {
    ExecuteKeepsInv(s, opens);
    var t := Perform(s, Execute(opens));
    forall u: State | Reaches(t, u) ensures !u.server.Idle? && !u.server.Ended? {
      var actions: seq<Action> :| LeadsTo(t, actions, u);
      if s.server.kind.TestDevice? {
        ForlornForEver(t, actions);
      } else {
        HeldForEver(t, actions);
      }
    }
  }

  /** After the call the server waits for ever, in every continuation, exactly in the cases named. */
  lemma {:induction false} StuckExactly(s: State, opens: bool)
    requires Reachable(s) && s.server.Cleared?
    ensures Stuck(Perform(s, Execute(opens))) <==> HangsUp(s, s.server.kind, opens)
  {
    ReachableInv(s);
    var t, kind := Perform(s, Execute(opens)), s.server.kind;
    if HangsUp(s, kind, opens) {
      HangsForEver(s, opens);
    } else {
      ServesAgainExactly(s, opens);
      if Hopeless(s, kind, opens) || HeldUp(s, kind) {
        ExecuteKeepsInv(s, opens);
        var u := Leave(t);
        var v := EndServer(u);
        ReachesOn(t, u, v);
      }
    }
  }

  // ----- concrete runs

  lemma {:induction false} OneMore(start: State, s: State, a: Action) returns (t: State)
    requires Reaches(start, s) && Enabled(s, a)
    ensures t == Perform(s, a) && Reaches(start, t)
  {
    t := Perform(s, a);
    Stay(t);
    StepThen(s, a, t);
    ReachesOn(start, s, t);
  }

  /** Measurements run and a test of the device is asked for: whether or not the port would open, the server hangs. */
  lemma {:induction false} TestWhileMeasuring(logging: bool, opens: bool) returns (s: State)
    ensures Reachable(s) && s.server == Cleared(1, TestDevice) && s.capture && s.sent == [Result(0)]
    ensures Stuck(Perform(s, Execute(opens)))
  {
    var start := Initial(logging);
    Stay(start);
    s := OneMore(start, start, Receive(StartMeasurement));
    s := OneMore(start, s, Execute(true));
    s := OneMore(start, s, AnswerDone);
    s := OneMore(start, s, Check);
    s := OneMore(start, s, Receive(TestDevice));
    StuckExactly(s, opens);
  }

  /** The first command is a test and the port cannot be opened: the server hangs. */
  lemma {:induction false} TestWithoutPort(logging: bool) returns (s: State)
    ensures Reachable(s) && s.server == Cleared(0, TestDevice) && !Created(s)
    ensures Stuck(Perform(s, Execute(false)))
  {
    var start := Initial(logging);
    Stay(start);
    s := OneMore(start, start, Receive(TestDevice));
    StuckExactly(s, false);
  }

  /** The first command's Start comes before the processor's thread waits for it: the mutex is kept. */
  lemma {:induction false} StartBeforeWait(logging: bool)
    ensures Reaches(Initial(logging), State(Signalling(0), Testing, logging, false, true, true, false, [0], 1, []))
  {
    var start := Initial(logging);
    Stay(start);
    var s := OneMore(start, start, Receive(External));
    s := OneMore(start, s, Execute(true));
    s := OneMore(start, s, EnterStart);
    s := OneMore(start, s, SetRun);
    s := OneMore(start, s, AwaitStart);
    assert s.pending == [0] && s.sent == [];
  }

  /** That command is answered all the same, and the server is back. */
  lemma {:induction false} FirstAnswered(logging: bool)
    ensures Reaches(Initial(logging), State(Idle, Looping, logging, false, true, true, true, [], 1, [Result(0)]))
  {
    var start := Initial(logging);
    StartBeforeWait(logging);
    var s := State(Signalling(0), Testing, logging, false, true, true, false, [0], 1, []);
    s := OneMore(start, s, SignalStart);
    s := OneMore(start, s, TestRun);
    s := OneMore(start, s, Pop);
    s := OneMore(start, s, Reply);
    assert s.pending == [] && s.sent == [Result(0)];
    s := OneMore(start, s, ReplyDone);
    s := OneMore(start, s, Check);
  }

  lemma {:induction false} SecondAnswered(logging: bool)
    ensures Reaches(Initial(logging),
                    State(Locking(1), Replied(1), logging, false, true, true, false, [], 2, [Result(0), Result(1)]))
  {
    var start := Initial(logging);
    FirstAnswered(logging);
    var s := State(Idle, Looping, logging, false, true, true, true, [], 1, [Result(0)]);
    s := OneMore(start, s, Receive(External));
    s := OneMore(start, s, Execute(true));
    s := OneMore(start, s, EnterStart);
    s := OneMore(start, s, Pop);
    s := OneMore(start, s, Reply);
    assert s.pending == [] && s.sent == [Result(0), Result(1)];
  }

  /** A second command after that is answered too, and yet the server never comes back to receive. */
  lemma {:induction false} AnsweredButHeld(logging: bool) returns (s: State)
    ensures Reachable(s) && s.sent == [Result(0), Result(1)] && s.server == Locking(1) && !CanServeAgain(s)
  {
    SecondAnswered(logging);
    s := State(Locking(1), Replied(1), logging, false, true, true, false, [], 2, [Result(0), Result(1)]);
    forall t: State | Reaches(s, t) ensures !t.server.Idle? {
      var actions: seq<Action> :| LeadsTo(s, actions, t);
      HeldForEver(s, actions);
    }
  }
}
