/** The log of settings as a journal: what every run keeps, and when a restart recovers the table from it. */
module SettingsTheory {
  import opened Bits
  import opened Settings
  import KsuLine

  // ----- reading the log

  /** The new value of the last event of a name. */
  function LastValue(log: seq<Event>, name: string, initial: word): word {
    if log == [] then initial
    else if log[|log| - 1].arg3 == name then log[|log| - 1].arg1
    else LastValue(log[..|log| - 1], name, initial)
  }

  predicate Logged(log: seq<Event>, name: string) {
    exists p :: 0 <= p < |log| && log[p].arg3 == name
  }

  predicate LoggedSince(log: seq<Event>, from: nat, name: string) {
    exists p :: from <= p < |log| && log[p].arg3 == name
  }

  /** Every event's old value is the new value of the event of the same name before it. */
  predicate Chained(log: seq<Event>) {
    forall p :: 0 <= p < |log| ==> log[p].arg2 == LastValue(log[..p], log[p].arg3, 0)
  }

  /** The log is a faithful journal of the table. */
  predicate Journal(s: State) {
    && WellFormed(s.table) && Chained(s.log)
    && forall i :: 0 <= i < |s.table| ==>
         && s.table[i].value == LastValue(s.log, s.table[i].name, 0)
         && (s.table[i].valueSet ==> Logged(s.log, s.table[i].name))
  }

  lemma {:induction false} LastValueSnoc(log: seq<Event>, e: Event, name: string, initial: word)
    ensures LastValue(log + [e], name, initial) == if e.arg3 == name then e.arg1 else LastValue(log, name, initial)
    ensures Logged(log + [e], name) <==> e.arg3 == name || Logged(log, name)
  {
  }

  // ----- packets and changes from outside

  lemma {:induction false} ChangeKeepsJournal(s: State, i: nat, value: word, date: int, source: string)
    requires Journal(s) && i < |s.table|
    ensures Journal(Change(s, i, value, date, source))
  {
    var t := Change(s, i, value, date, source);
    var e := t.log[|s.log|];
    assert t.log == s.log + [e];
    forall p | 0 <= p < |t.log| ensures t.log[p].arg2 == LastValue(t.log[..p], t.log[p].arg3, 0) {
      assert t.log[..p] == s.log[..p];
      assert s.log[..|s.log|] == s.log;
    }
    forall j | 0 <= j < |t.table|
      ensures t.table[j].value == LastValue(t.log, t.table[j].name, 0)
      ensures (t.table[j].valueSet ==> Logged(t.log, t.table[j].name))
    {
      LastValueSnoc(s.log, e, s.table[j].name, 0);
    }
  }

  lemma {:induction false} CompareKeepsJournal(s: State, i: nat, payload: seq<byte>, date: int) returns (t: State)
    requires Journal(s) && |payload| == PAYLOAD && i < |s.table|
    ensures t == Compare(s, i, payload, date) && Journal(t)
  {
    t := Compare(s, i, payload, date);
    var r := s.table[i];
    if Reports(r, s.first, payload) {
      ChangeKeepsJournal(s, i, FromPacket(payload, r.offset, r.size), date, Source(s.first));
    }
  }

  lemma {:induction false} ComparedKeepsJournal(s: State, payload: seq<byte>, date: int, n: nat) returns (t: State)
    requires Journal(s) && |payload| == PAYLOAD && n <= |s.table|
    ensures t == Compared(s, payload, date, n) && Journal(t)
  {
    t := s;
    for k := 0 to n
      invariant t == Compared(s, payload, date, k) && Journal(t)
    {
      t := CompareKeepsJournal(t, k, payload, date);
    }
  }

  lemma {:induction false} LoggedSplit(log: seq<Event>, more: seq<Event>, from: nat, name: string)
    requires from <= |log| && log <= more
    ensures LoggedSince(more, from, name) <==> LoggedSince(log, from, name) || LoggedSince(more, |log|, name)
  {
  }

  /** One comparison: the setting agrees with the packet, and nothing but it is logged, if it is to be reported. */
  lemma {:induction false} CompareAt(s: State, k: nat, payload: seq<byte>, date: int, i: nat)
    requires WellFormed(s.table) && |payload| == PAYLOAD && k < |s.table| && i < |s.table|
    ensures var t, r := Compare(s, k, payload, date), s.table[i];
            && s.log <= t.log
            && t.table[i] == (if i == k && Carried(r) then r.(value := FromPacket(payload, r.offset, r.size)) else r)
            && (LoggedSince(t.log, |s.log|, r.name) <==> i == k && Reports(r, s.first, payload))
  {
    var t, r := Compare(s, k, payload, date), s.table[k];
    if Reports(r, s.first, payload) {
      assert t.log[|s.log|].arg3 == r.name;
      assert s.table[i].name == r.name <==> i == k;
    }
  }

  /** In t, reached from s by n comparisons, setting i is as it should be: set if carried, logged if reported. */
  predicate Settled(s: State, t: State, payload: seq<byte>, n: nat, i: nat)
    requires AllFit(s.table) && |payload| == PAYLOAD && i < |s.table| == |t.table|
  {
    var r := s.table[i];
    && s.log <= t.log
    && t.table[i] == (if i < n && Carried(r) then r.(value := FromPacket(payload, r.offset, r.size)) else r)
    && (LoggedSince(t.log, |s.log|, r.name) <==> i < n && Reports(r, s.first, payload))
  }

  lemma {:induction false} SettledStep(s: State, t: State, payload: seq<byte>, date: int, k: nat, i: nat)
    requires WellFormed(s.table) && |payload| == PAYLOAD && k < |s.table| && i < |s.table|
    requires SameRows(t.table, s.table) && t.first == s.first && Settled(s, t, payload, k, i)
    ensures Settled(s, Compare(t, k, payload, date), payload, k + 1, i)
  {
    CompareAt(t, k, payload, date, i);
    LoggedSplit(t.log, Compare(t, k, payload, date).log, |s.log|, s.table[i].name);
  }

  lemma {:induction false} ComparedAt(s: State, payload: seq<byte>, date: int, n: nat, i: nat)
    requires WellFormed(s.table) && |payload| == PAYLOAD && n <= |s.table| && i < |s.table|
    ensures Settled(s, Compared(s, payload, date, n), payload, n, i)
    decreases n
  {
    if n > 0 {
      ComparedAt(s, payload, date, n - 1, i);
      SettledStep(s, Compared(s, payload, date, n - 1), payload, date, n - 1, i);
    }
  }

  /** The settings' packet, command 0x6C, is received with a payload of just this size, the command byte counted off. */
  lemma {:induction false} PayloadIs(length: word)
    ensures KsuLine.LengthMatches(0x6C, length) <==> length == PAYLOAD + 1
  {
    KsuLine.PairsAre(0x6C, length);
  }

  /** What a packet tells of a setting: one byte, or two with the more significant one first. */
  function Told(r: Setting, payload: seq<byte>): int
    requires Fits(r) && r.offset >= 0 && |payload| == PAYLOAD
  {
    var first: int := payload[r.offset];
    if r.size == 1 then first
    else
      var second: int := payload[r.offset + 1];
      first * 0x100 + second
  }

  /** A packet sets every setting it carries and logs those it changes or, if it is the first, finds not restored. */
  lemma {:induction false} PacketTakesEffect(s: State, payload: seq<byte>, date: int, i: nat)
    requires WellFormed(s.table) && |payload| == PAYLOAD && i < |s.table|
    ensures var t, r := AfterPacket(s, payload, date), s.table[i];
            && !t.first && |t.table| == |s.table| && s.log <= t.log
            && if r.visible && r.offset != -1 then
                 && t.table[i] == r.(value := Told(r, payload))
                 && (LoggedSince(t.log, |s.log|, r.name) <==> (s.first && !r.valueSet) || Told(r, payload) != r.value)
               else t.table[i] == r && !LoggedSince(t.log, |s.log|, r.name)
  {
    ComparedAt(s, payload, date, |s.table|, i);
  }

  /** Of the first n settings the indices of those that the packet reports, in order. */
  function Reporting(s: State, payload: seq<byte>, n: nat): (indices: seq<nat>)
    requires AllFit(s.table) && |payload| == PAYLOAD && n <= |s.table|
    ensures forall k :: 0 <= k < |indices| ==> indices[k] < n
  {
    if n == 0 then []
    else Reporting(s, payload, n - 1) + if Reports(s.table[n - 1], s.first, payload) then [n - 1] else []
  }

  lemma {:induction false} ReportingExactly(s: State, payload: seq<byte>, n: nat, i: nat)
    requires AllFit(s.table) && |payload| == PAYLOAD && n <= |s.table|
    ensures i in Reporting(s, payload, n) <==> i < n && Reports(s.table[i], s.first, payload)
    decreases n
  {
    if n > 0 {
      ReportingExactly(s, payload, n - 1, i);
    }
  }

  predicate Ascending(indices: seq<nat>) {
    forall k, m :: 0 <= k < m < |indices| ==> indices[k] < indices[m]
  }

  lemma {:induction false} ReportingAscends(s: State, payload: seq<byte>, n: nat)
    requires AllFit(s.table) && |payload| == PAYLOAD && n <= |s.table|
    ensures Ascending(Reporting(s, payload, n))
    decreases n
  {
    if n > 0 {
      var few, all := Reporting(s, payload, n - 1), Reporting(s, payload, n);
      ReportingAscends(s, payload, n - 1);
      assert few <= all && |all| <= |few| + 1;
      forall k, m | 0 <= k < m < |all| ensures all[k] < all[m] {
        assert all[k] == few[k];
      }
    }
  }

  /** The event that tells what the packet tells of the setting. */
  function ReportOf(r: Setting, first: bool, payload: seq<byte>, date: int): Event
    requires Fits(r) && |payload| == PAYLOAD
  {
    Event(date, if Carried(r) then Told(r, payload) else r.value, r.value, r.name, if first then "INIT" else "HND")
  }

  /** The log of t is that of s with the events of these settings behind it. */
  predicate LogsAre(s: State, t: State, payload: seq<byte>, date: int, indices: seq<nat>)
    requires AllFit(s.table) && |payload| == PAYLOAD && forall k :: 0 <= k < |indices| ==> indices[k] < |s.table|
  {
    && s.log <= t.log && |t.log| == |s.log| + |indices|
    && forall k :: 0 <= k < |indices| ==>
         t.log[|s.log| + k] == ReportOf(s.table[indices[k]], s.first, payload, date)
  }

  lemma {:induction false} CompareLogs(s: State, t: State, payload: seq<byte>, date: int, n: nat, few: seq<nat>)
    requires AllFit(s.table) && |payload| == PAYLOAD && n < |s.table| == |t.table|
    requires forall k :: 0 <= k < |few| ==> few[k] < |s.table|
    requires t.first == s.first && t.table[n] == s.table[n] && LogsAre(s, t, payload, date, few)
    ensures LogsAre(s, Compare(t, n, payload, date), payload, date,
                    few + if Reports(s.table[n], s.first, payload) then [n] else [])
  {
    var r := s.table[n];
    if Reports(r, s.first, payload) {
      assert Compare(t, n, payload, date).log == t.log + [ReportOf(r, s.first, payload, date)];
    } else {
      assert few + [] == few;
    }
  }

  lemma {:induction false} ComparedLogs(s: State, payload: seq<byte>, date: int, n: nat)
    requires AllFit(s.table) && |payload| == PAYLOAD && n <= |s.table|
    ensures LogsAre(s, Compared(s, payload, date, n), payload, date, Reporting(s, payload, n))
    decreases n
  {
    if n > 0 {
      ComparedLogs(s, payload, date, n - 1);
      CompareLogs(s, Compared(s, payload, date, n - 1), payload, date, n - 1, Reporting(s, payload, n - 1));
    }
  }

  /** The events of a packet: one for each setting that it reports, in the order of the table, with these contents. */
  lemma {:induction false} PacketLogs(s: State, payload: seq<byte>, date: int) returns (indices: seq<nat>)
    requires WellFormed(s.table) && |payload| == PAYLOAD
    ensures forall i: nat :: i in indices <==>
              && i < |s.table| && s.table[i].visible && s.table[i].offset != -1
              && ((s.first && !s.table[i].valueSet) || Told(s.table[i], payload) != s.table[i].value)
    ensures Ascending(indices)
    ensures var t := AfterPacket(s, payload, date);
            && s.log <= t.log && |t.log| == |s.log| + |indices|
            && forall k :: 0 <= k < |indices| ==>
                 indices[k] in indices &&
                 var r := s.table[indices[k]];
                 t.log[|s.log| + k] == Event(date, Told(r, payload), r.value, r.name, if s.first then "INIT" else "HND")
  {
    indices := Reporting(s, payload, |s.table|);
    ComparedLogs(s, payload, date, |s.table|);
    ReportingAscends(s, payload, |s.table|);
    forall i: nat ensures i in indices <==> i < |s.table| && Reports(s.table[i], s.first, payload) {
      ReportingExactly(s, payload, |s.table|, i);
    }
  }

  // ----- recovery

  /** The latest events of a name all tell its last value. */
  ghost predicate DatesTell(log: seq<Event>, name: string) {
    forall e :: Latest(log, e) && e.arg3 == name ==> e.arg1 == LastValue(log, name, 0)
  }

  lemma {:induction false} LatestExists(log: seq<Event>, name: string) returns (e: Event)
    requires Logged(log, name)
    ensures Latest(log, e) && e.arg3 == name
  {
    var init, last := log[..|log| - 1], log[|log| - 1];
    if Logged(init, name) {
      e := LatestExists(init, name);
      if last.arg3 == name && last.date > e.date {
        e := last;
      }
    } else {
      e := last;
      forall p | 0 <= p < |log| ensures log[p].arg3 == name ==> log[p] == last {
        assert p < |init| ==> init[p] == log[p];
      }
    }
  }

  lemma {:induction false} LastValueIsOf(rows: seq<Event>, name: string)
    requires Logged(rows, name)
    ensures exists e :: e in rows && e.arg3 == name && e.arg1 == LastValue(rows, name, 0)
  {
    var init, last := rows[..|rows| - 1], rows[|rows| - 1];
    if last.arg3 != name {
      var p :| 0 <= p < |rows| && rows[p].arg3 == name;
      assert init[p].arg3 == name;
      LastValueIsOf(init, name);
    }
  }

  lemma {:induction false} NotLogged(log: seq<Event>, name: string, initial: word)
    requires !Logged(log, name)
    ensures LastValue(log, name, initial) == initial
  {
    if log != [] {
      var init := log[..|log| - 1];
      assert forall p :: 0 <= p < |init| ==> init[p] == log[p];
      NotLogged(init, name, initial);
    }
  }

  lemma {:induction false} AnswerLogs(rows: seq<Event>, log: seq<Event>, name: string)
    requires Answers(rows, log)
    ensures Logged(rows, name) <==> Logged(log, name)
  {
    if Logged(log, name) {
      var e := LatestExists(log, name);
      assert e in rows;
    }
    if p :| 0 <= p < |rows| && rows[p].arg3 == name {
      assert Latest(log, rows[p]);
    }
  }

  lemma {:induction false} AnswerTells(rows: seq<Event>, log: seq<Event>, name: string)
    requires Answers(rows, log) && DatesTell(log, name)
    ensures LastValue(rows, name, 0) == LastValue(log, name, 0)
  {
    AnswerLogs(rows, log, name);
    if Logged(rows, name) {
      LastValueIsOf(rows, name);
      var e :| e in rows && e.arg3 == name && e.arg1 == LastValue(rows, name, 0);
      assert Latest(log, e);
    } else {
      NotLogged(rows, name, 0);
      NotLogged(log, name, 0);
    }
  }

  lemma {:induction false} RestoredAt(table: seq<Setting>, rows: seq<Event>, i: nat)
    requires WellFormed(table) && i < |table|
    ensures Restored(table, rows)[i].value == LastValue(rows, table[i].name, table[i].value)
    ensures Restored(table, rows)[i].valueSet == (table[i].valueSet || Logged(rows, table[i].name))
  {
    if rows != [] {
      var init, last := rows[..|rows| - 1], rows[|rows| - 1];
      assert rows == init + [last];
      RestoredAt(table, init, i);
      var t := Restored(table, init);
      LastValueSnoc(init, last, table[i].name, table[i].value);
      if last.arg3 == table[i].name {
        OnlyOneOfName(t, i);
      }
    }
  }

  lemma {:induction false} OnlyOneOfName(table: seq<Setting>, i: nat)
    requires i < |table| && forall j :: 0 <= j < i ==> table[j].name != table[i].name
    ensures FindName(table, table[i].name, 0) == i
  {
  }

  lemma {:induction false} RestartedAt(s: State, rows: seq<Event>, i: nat)
    requires WellFormed(s.table) && Answers(rows, s.log) && i < |s.table|
    ensures var t := AfterRestart(s, rows);
            && t.first && t.log == s.log
            && t.table[i].value == LastValue(rows, s.table[i].name, 0)
            && t.table[i].valueSet == Logged(s.log, s.table[i].name)
  {
    RestoredAt(Blank(s.table), rows, i);
    AnswerLogs(rows, s.log, s.table[i].name);
  }

  /** A restart finds every value again if the latest events tell it. */
  lemma {:induction false} RestartRestores(s: State, rows: seq<Event>)
    requires Journal(s) && Answers(rows, s.log)
    requires forall i :: 0 <= i < |s.table| ==> DatesTell(s.log, s.table[i].name)
    ensures var t := AfterRestart(s, rows);
            && Journal(t) && t.first && t.log == s.log && |t.table| == |s.table|
            && forall i :: 0 <= i < |s.table| ==>
                 t.table[i] == s.table[i].(valueSet := Logged(s.log, s.table[i].name))
  {
    forall i | 0 <= i < |s.table|
      ensures AfterRestart(s, rows).table[i] == s.table[i].(valueSet := Logged(s.log, s.table[i].name))
    {
      RestartedAt(s, rows, i);
      AnswerTells(rows, s.log, s.table[i].name);
    }
  }

  /** The query's answer with one of its rows at the end. */
  lemma {:induction false} AnswerEndingIn(log: seq<Event>, n: nat, e: Event) returns (rows: seq<Event>)
    requires n <= |log|
    ensures forall f :: f in rows <==> f in log[..n] && Latest(log, f) && f != e
    decreases n
  {
    if n == 0 {
      rows := [];
    } else {
      rows := AnswerEndingIn(log, n - 1, e);
      assert log[..n] == log[..n - 1] + [log[n - 1]];
      if Latest(log, log[n - 1]) && log[n - 1] != e {
        rows := rows + [log[n - 1]];
      }
    }
  }

  /** A setting's value survives a restart, in whatever order the rows come, exactly when the latest events tell it. */
  lemma {:induction false} RestartExactly(s: State, i: nat)
    requires Journal(s) && i < |s.table|
    ensures (forall rows :: Answers(rows, s.log) ==> AfterRestart(s, rows).table[i].value == s.table[i].value) <==>
            DatesTell(s.log, s.table[i].name)
  {
    var name := s.table[i].name;
    if DatesTell(s.log, name) {
      forall rows | Answers(rows, s.log) ensures AfterRestart(s, rows).table[i].value == s.table[i].value {
        RestartedAt(s, rows, i);
        AnswerTells(rows, s.log, name);
      }
    } else {
      var e :| Latest(s.log, e) && e.arg3 == name && e.arg1 != LastValue(s.log, name, 0);
      var rows := AnswerEndingIn(s.log, |s.log|, e);
      assert s.log[..|s.log|] == s.log;
      LastValueSnoc(rows, e, name, 0);
      assert Answers(rows + [e], s.log);
      RestartedAt(s, rows + [e], i);
    }
  }

  /** Dates of a name go up. */
  predicate StrictDates(log: seq<Event>, name: string) {
    forall p, q :: 0 <= p < q < |log| && log[p].arg3 == log[q].arg3 == name ==> log[p].date < log[q].date
  }

  lemma {:induction false} LastEvent(log: seq<Event>, name: string) returns (p: nat)
    requires Logged(log, name)
    ensures p < |log| && log[p].arg3 == name && log[p].arg1 == LastValue(log, name, 0)
    ensures forall q :: p < q < |log| ==> log[q].arg3 != name
  {
    var init, last := log[..|log| - 1], log[|log| - 1];
    if last.arg3 == name {
      p := |log| - 1;
    } else {
      var q :| 0 <= q < |log| && log[q].arg3 == name;
      assert init[q].arg3 == name;
      p := LastEvent(init, name);
    }
  }

  lemma {:induction false} StrictDatesTell(log: seq<Event>, name: string)
    requires StrictDates(log, name)
    ensures DatesTell(log, name)
  {
    forall e | Latest(log, e) && e.arg3 == name ensures e.arg1 == LastValue(log, name, 0) {
      var q :| 0 <= q < |log| && log[q] == e;
      var p := LastEvent(log, name);
      assert log[p] in log;
    }
  }

  /** The first packet after a restart logs only what changed meanwhile or was never logged. */
  lemma {:induction false} FirstPacketAfterRestart(s: State, rows: seq<Event>, payload: seq<byte>, date: int, i: nat)
    requires Journal(s) && Answers(rows, s.log) && |payload| == PAYLOAD && i < |s.table|
    requires forall i :: 0 <= i < |s.table| ==> DatesTell(s.log, s.table[i].name)
    ensures var t, r := AfterPacket(AfterRestart(s, rows), payload, date), s.table[i];
            LoggedSince(t.log, |s.log|, r.name) <==>
            r.visible && r.offset != -1 && (!Logged(s.log, r.name) || Told(r, payload) != r.value)
  {
    var t, r := AfterRestart(s, rows), s.table[i];
    RestoredRow(s, rows, i);
    assert Carried(r) ==> Told(t.table[i], payload) == Told(r, payload);
    PacketTakesEffect(t, payload, date, i);
  }

  lemma {:induction false} RestoredRow(s: State, rows: seq<Event>, i: nat)
    requires Journal(s) && Answers(rows, s.log) && i < |s.table|
    requires forall i :: 0 <= i < |s.table| ==> DatesTell(s.log, s.table[i].name)
    ensures var t, r := AfterRestart(s, rows), s.table[i];
            && WellFormed(t.table) && t.first && t.log == s.log && |t.table| == |s.table|
            && t.table[i] == r.(valueSet := Logged(s.log, r.name))
  {
    RestartRestores(s, rows);
  }

  // ----- runs

  datatype Action =
    | Packet(payload: seq<byte>, date: int)
    | External(id: int, value: word, date: int, source: string)
    | Restart(rows: seq<Event>)

  ghost predicate Enabled(s: State, a: Action) {
    match a
    case Packet(payload, _) => |payload| == PAYLOAD
    case External(_, _, _, _) => true
    case Restart(rows) => Answers(rows, s.log)
  }

  function Perform(s: State, a: Action): State
    requires WellFormed(s.table) && (a.Packet? ==> |a.payload| == PAYLOAD)
  {
    match a
    case Packet(payload, date) => AfterPacket(s, payload, date)
    case External(id, value, date, source) => AfterExternal(s, id, value, date, source)
    case Restart(rows) => AfterRestart(s, rows)
  }

  ghost predicate Run(states: seq<State>, actions: seq<Action>) {
    && |states| == |actions| + 1
    && WellFormed(states[0].table) && states[0] == State(Blank(states[0].table), true, [])
    && forall i :: 0 <= i < |actions| ==>
         && WellFormed(states[i].table) && Enabled(states[i], actions[i])
         && states[i + 1] == Perform(states[i], actions[i])
  }

  /**
   * Over every run of packets, changes from outside and restarts, the log stays a faithful journal of the table, as
   * long as at each restart the latest events tell the last values.
   */
  lemma {:induction false} RunKeepsJournal(states: seq<State>, actions: seq<Action>, i: nat)
    requires Run(states, actions) && i < |states|
    requires forall k, j :: 0 <= k < i && actions[k].Restart? && 0 <= j < |states[k].table| ==>
               DatesTell(states[k].log, states[k].table[j].name)
    ensures Journal(states[i])
  {
    if i > 0 {
      RunKeepsJournal(states, actions, i - 1);
      var s := states[i - 1];
      match actions[i - 1] {
        case Packet(payload, date) => var _ := ComparedKeepsJournal(s, payload, date, |s.table|);
        case External(id, value, date, source) =>
          var k := FindId(s.table, id, 0);
          if k < |s.table| {
            ChangeKeepsJournal(s, k, value, date, source);
          }
        case Restart(rows) => RestartRestores(s, rows);
      }
    }
  }
}
