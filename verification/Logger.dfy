/** The queue between the threads that log and the thread that sends: a step for each locked region, interleaved. */
module Logger {

  /** A queued pointer: null entries are dequeued like others, but never sent. */
  datatype Entry<T> = Null | Data(value: T)

  function Solid<T>(entries: seq<Entry<T>>): seq<T> {
    if entries == [] then []
    else (if entries[0].Null? then [] else [entries[0].value]) + Solid(entries[1..])
  }

  lemma {:induction false} SolidConcat<T>(a: seq<Entry<T>>, b: seq<Entry<T>>)
    ensures Solid(a + b) == Solid(a) + Solid(b)
  {
    if a == [] {
      assert a + b == b;
    } else {
      assert (a + b)[1..] == a[1..] + b;
      SolidConcat(a[1..], b);
    }
  }

  lemma {:induction false} SolidOne<T>(x: T)
    ensures Solid([Data(x)]) == [x] && Solid<T>([Null]) == [] && Solid<T>([]) == []
  {
    assert Solid([Data(x)]) == [x] + Solid([]);
  }

  // ----- the steps

  /** Where the sending thread is; `due` counts what is left of its transaction. */
  datatype Phase<T> =
    | Waiting                                // about to lock, or in pthread_cond_timedwait
    | Holding(timedOut: bool)                // the lock is held, the queue about to be tested
    | Leaving(timedOut: bool)                // the wait loop is left, the lock still held
    | Draining(due: nat)
    | Sending(item: Entry<T>, due: nat)
    | Broken

  /** One connection: the queue when its transaction began, and the items sent. */
  datatype Session<T> = Session(taken: seq<Entry<T>>, sent: seq<T>)

  datatype State<T> = State(queue: seq<Entry<T>>, locked: bool, phase: Phase<T>, current: Session<T>,
                            sessions: seq<Session<T>>, enqueued: seq<Entry<T>>)

  datatype Action<T> =
    | Enque(entry: Entry<T>)
    | Acquire(timedOut: bool)
    | Test
    | Count
    | Pop
    | Send
    | Finish

  predicate Enabled<T>(s: State<T>, a: Action<T>) {
    match a
    case Enque(_) => !s.locked
    case Acquire(_) => s.phase.Waiting? && !s.locked
    case Test => s.phase.Holding?
    case Count => s.phase.Leaving?
    case Pop => s.phase.Draining? && s.phase.due > 0 && !s.locked
    case Send => s.phase.Sending?
    case Finish => s.phase.Broken? || (s.phase.Draining? && s.phase.due == 0)
  }

  function Perform<T(==)>(s: State<T>, a: Action<T>): State<T>
    requires Enabled(s, a)
  {
    match a
    case Enque(entry) => s.(queue := s.queue + [entry], enqueued := s.enqueued + [entry])
    case Acquire(timedOut) => s.(phase := Holding(timedOut), locked := true)
    case Test => if s.queue == [] then s.(phase := Waiting, locked := false) else s.(phase := Leaving(s.phase.timedOut))
    case Count =>
      var size := |s.queue|;
      if s.phase.timedOut && size == 0 then s.(phase := Waiting, locked := false)
      else s.(phase := Draining(size), locked := false, current := Session(s.queue, []))
    case Pop =>
      if s.queue == [] then s.(phase := Broken, locked := true)
      else s.(phase := Sending(s.queue[0], s.phase.due - 1), queue := s.queue[1..])
    case Send => s.(phase := Draining(s.phase.due),
                    current := s.current.(sent := s.current.sent + Solid([s.phase.item])))
    case Finish => s.(phase := Waiting, current := Session([], []), sessions := s.sessions + [s.current])
  }

  ghost predicate Run<T(!new)>(states: seq<State<T>>, actions: seq<Action<T>>) {
    && |states| == |actions| + 1
    && states[0] == State([], false, Waiting, Session([], []), [], [])
    && forall i :: 0 <= i < |actions| ==>
         Enabled(states[i], actions[i]) && states[i + 1] == Perform(states[i], actions[i])
  }

  // ----- what every run keeps

  function AllSent<T>(sessions: seq<Session<T>>): seq<T> {
    if sessions == [] then [] else AllSent(sessions[..|sessions| - 1]) + sessions[|sessions| - 1].sent
  }

  function Due<T>(p: Phase<T>): nat {
    match p
    case Draining(due) => due
    case Sending(_, due) => due
    case _ => 0
  }

  /** Between two transactions. */
  predicate AtRest<T>(p: Phase<T>) {
    p.Waiting? || p.Holding? || p.Leaving?
  }

  function InFlight<T>(p: Phase<T>): seq<Entry<T>> {
    if p.Sending? then [p.item] else []
  }

  predicate Complete<T(==)>(s: Session<T>) {
    s.sent == Solid(s.taken) && s.taken != []
  }

  /** What was sent, what is on its way and what is queued are what was enqueued, in that order. */
  predicate Conserved<T(==)>(s: State<T>) {
    Solid(s.enqueued) == AllSent(s.sessions) + s.current.sent + Solid(InFlight(s.phase)) + Solid(s.queue)
  }

  /** The transaction under way: its rest is queued, and will make up what it took. */
  predicate OnTrack<T(==)>(s: State<T>) {
    && Due(s.phase) <= |s.queue|
    && Solid(s.current.taken) == s.current.sent + Solid(InFlight(s.phase)) + Solid(s.queue[..Due(s.phase)])
    && (AtRest(s.phase) <==> s.current.taken == [])
  }

  predicate Inv<T(==)>(s: State<T>) {
    && s.locked == (s.phase.Holding? || s.phase.Leaving?) && !s.phase.Broken?
    && (s.phase.Leaving? ==> s.queue != [])
    && Conserved(s) && OnTrack(s)
    && forall i :: 0 <= i < |s.sessions| ==> Complete(s.sessions[i])
  }

  lemma {:induction false} EnqueKeepsInv<T>(s: State<T>, entry: Entry<T>)
    requires Inv(s) && !s.locked
    ensures Inv(Perform(s, Enque(entry)))
  {
    var t := Perform(s, Enque(entry));
    SolidConcat(s.queue, [entry]);
    SolidConcat(s.enqueued, [entry]);
    assert t.queue[..Due(t.phase)] == s.queue[..Due(s.phase)];
  }

  lemma {:induction false} WaitKeepsInv<T>(s: State<T>, a: Action<T>)
    requires Inv(s) && Enabled(s, a) && (a.Acquire? || a.Test? || a.Count?)
    ensures Inv(Perform(s, a))
  {
    assert s.queue[..|s.queue|] == s.queue;
    assert s.current.sent == [];
  }

  /** What is taken off the front of a queue was at its front. */
  lemma {:induction false} SolidFront<T>(queue: seq<Entry<T>>, n: nat)
    requires 1 <= n <= |queue|
    ensures Solid(queue[..n]) == Solid([queue[0]]) + Solid(queue[1..][..n - 1])
  {
    assert queue[..n] == [queue[0]] + queue[1..][..n - 1];
    SolidConcat([queue[0]], queue[1..][..n - 1]);
  }

  lemma {:induction false} PopKeepsInv<T>(s: State<T>)
    requires Inv(s) && Enabled(s, Pop)
    ensures Inv(Perform(s, Pop))
  {
    var rest := s.queue[1..];
    SolidFront(s.queue, |s.queue|);
    SolidFront(s.queue, s.phase.due);
    assert s.queue[..|s.queue|] == s.queue && rest[..|rest|] == rest;
    var item := Solid([s.queue[0]]);
    Regroup(AllSent(s.sessions) + s.current.sent, item, Solid(rest));
    Regroup(s.current.sent, item, Solid(rest[..s.phase.due - 1]));
  }

  lemma {:induction false} Regroup<T>(a: seq<T>, b: seq<T>, c: seq<T>)
    ensures a + [] + (b + c) == a + b + c
  {
  }

  lemma {:induction false} SendKeepsInv<T>(s: State<T>)
    requires Inv(s) && Enabled(s, Send)
    ensures Inv(Perform(s, Send))
  {
  }

  lemma {:induction false} FinishKeepsInv<T>(s: State<T>)
    requires Inv(s) && Enabled(s, Finish)
    ensures Inv(Perform(s, Finish)) && Complete(s.current)
  {
  }

  lemma {:induction false} StepKeepsInv<T>(s: State<T>, a: Action<T>)
    requires Inv(s) && Enabled(s, a)
    ensures Inv(Perform(s, a))
  {
    match a {
      case Enque(entry) => EnqueKeepsInv(s, entry);
      case Acquire(_) => WaitKeepsInv(s, a);
      case Test => WaitKeepsInv(s, a);
      case Count => WaitKeepsInv(s, a);
      case Pop => PopKeepsInv(s);
      case Send => SendKeepsInv(s);
      case Finish => FinishKeepsInv(s);
    }
  }

  lemma {:induction false} RunKeepsInv<T(!new)>(states: seq<State<T>>, actions: seq<Action<T>>, i: nat)
    requires Run(states, actions) && i < |states|
    ensures Inv(states[i])
  {
    if i > 0 {
      RunKeepsInv(states, actions, i - 1);
      StepKeepsInv(states[i - 1], actions[i - 1]);
    }
  }

  /**
   * In every reachable state nothing is lost, doubled or reordered, the lock is held only around the test of the queue,
   * and each finished connection carried exactly the entries queued when its transaction began, null ones excepted.
   */
  lemma {:induction false} NothingIsLost<T(!new)>(states: seq<State<T>>, actions: seq<Action<T>>, i: nat)
    requires Run(states, actions) && i < |states|
    ensures var s := states[i];
            && Solid(s.enqueued) == AllSent(s.sessions) + s.current.sent + Solid(InFlight(s.phase)) + Solid(s.queue)
            && Due(s.phase) <= |s.queue| && (s.locked <==> s.phase.Holding? || s.phase.Leaving?)
            && forall j :: 0 <= j < |s.sessions| ==>
                 s.sessions[j].sent == Solid(s.sessions[j].taken) && s.sessions[j].taken != []
  {
    RunKeepsInv(states, actions, i);
  }

  /**
   * The branch for an empty transaction and the break out of the sending loop are never taken: nobody empties the queue
   * between the test and the count, nor below what is due.
   */
  lemma {:induction false} DeadBranches<T(!new)>(states: seq<State<T>>, actions: seq<Action<T>>, i: nat)
    requires Run(states, actions) && i < |actions|
    ensures actions[i].Count? ==> states[i].queue != [] && states[i + 1].phase == Draining(|states[i].queue|)
    ensures actions[i].Pop? ==> states[i].queue != [] && states[i + 1].phase.Sending?
  {
    RunKeepsInv(states, actions, i);
  }

  /** The sending thread's own steps still to come before its transaction is over. */
  function Rank<T>(p: Phase<T>): nat {
    match p
    case Draining(due) => 2 * due + 1
    case Sending(_, due) => 2 * due + 2
    case _ => 0
  }

  lemma {:induction false} NeverStuck<T>(s: State<T>)
    requires Inv(s)
    ensures || Enabled(s, Acquire(false)) || Enabled(s, Test) || Enabled(s, Count)
            || Enabled(s, Pop) || Enabled(s, Send) || Enabled(s, Finish)
  {
  }

  lemma {:induction false} RankFalls<T>(s: State<T>, a: Action<T>)
    requires Inv(s) && Enabled(s, a) && !AtRest(s.phase)
    ensures Rank(Perform(s, a).phase) == if a.Enque? then Rank(s.phase) else Rank(s.phase) - 1
  {
  }

  /**
   * The sending thread is never stuck: it can always take a step of its own, the wait is left as soon as it finds the
   * queue not empty, and each step of a transaction brings its end nearer while the steps of others do not put it off.
   */
  lemma {:induction false} SenderProgresses<T(!new)>(states: seq<State<T>>, actions: seq<Action<T>>, i: nat)
    requires Run(states, actions) && i < |actions|
    ensures var s := states[i];
            || Enabled(s, Acquire(false)) || Enabled(s, Test) || Enabled(s, Count)
            || Enabled(s, Pop) || Enabled(s, Send) || Enabled(s, Finish)
    ensures actions[i].Test? && states[i].queue != [] ==> states[i + 1].phase.Leaving?
    ensures !AtRest(states[i].phase) ==>
              Rank(states[i + 1].phase) ==
              if actions[i].Enque? then Rank(states[i].phase) else Rank(states[i].phase) - 1
  {
    RunKeepsInv(states, actions, i);
    NeverStuck(states[i]);
    if !AtRest(states[i].phase) {
      RankFalls(states[i], actions[i]);
    }
  }
}
