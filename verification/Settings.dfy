/** The table of settings and the log of their changes, over packets, commands from outside and restarts. */
module Settings {
  import opened Bits

  datatype Setting = Setting(name: string, id: int, offset: int, size: nat, visible: bool, value: word, valueSet: bool)

  /** A logged change (event type 11): Argument1 to Argument4 are new value, old value, name and source. */
  datatype Event = Event(date: int, arg1: word, arg2: word, arg3: string, arg4: string)

  /** Bytes of an ACK_ALL_SETTINGS payload, as the reader's length check lets them in. */
  const PAYLOAD := 47

  /** The setting's bytes lie within the payload, where it has any. */
  predicate Fits(r: Setting) {
    1 <= r.size <= 2 && -1 <= r.offset && r.offset + r.size <= PAYLOAD
  }

  predicate AllFit(table: seq<Setting>) {
    forall i :: 0 <= i < |table| ==> Fits(table[i])
  }

  predicate WellFormed(table: seq<Setting>) {
    && AllFit(table)
    && (forall i, j :: 0 <= i < j < |table| ==> table[i].name != table[j].name && table[i].id != table[j].id)
  }

  /** The same settings, whatever their values. */
  predicate SameRows(a: seq<Setting>, b: seq<Setting>) {
    |a| == |b| && forall i :: 0 <= i < |a| ==> a[i] == b[i].(value := a[i].value, valueSet := a[i].valueSet)
  }

  lemma {:induction false} SameRowsWellFormed(a: seq<Setting>, b: seq<Setting>)
    requires WellFormed(a) && SameRows(b, a)
    ensures WellFormed(b)
  {
  }

  /** A device's table, whether it still waits for its first packet of settings, and the log. */
  datatype State = State(table: seq<Setting>, first: bool, log: seq<Event>)

  // ----- one change

  function Change(s: State, i: nat, value: word, date: int, source: string): State
    requires i < |s.table|
  {
    s.(table := s.table[i := s.table[i].(value := value)],
       log := s.log + [Event(date, value, s.table[i].value, s.table[i].name, source)])
  }

  // ----- a packet of all settings

  function FromPacket(payload: seq<byte>, offset: nat, size: nat): word
    requires 1 <= size <= 2 && offset + size <= |payload|
  {
    if size == 1 then payload[offset] else Join(payload[offset], payload[offset + 1])
  }

  predicate Carried(r: Setting) {
    r.visible && r.offset != -1
  }

  /** Whether the packet makes this setting logged. */
  predicate Reports(r: Setting, first: bool, payload: seq<byte>)
    requires Fits(r) && |payload| == PAYLOAD
  {
    Carried(r) && ((first && !r.valueSet) || FromPacket(payload, r.offset, r.size) != r.value)
  }

  function Source(first: bool): string {
    if first then "INIT" else "HND"
  }

  /** One setting compared with the packet. */
  function Compare(s: State, i: nat, payload: seq<byte>, date: int): (t: State)
    requires i < |s.table| && Fits(s.table[i]) && |payload| == PAYLOAD
    ensures SameRows(t.table, s.table) && t.first == s.first
    ensures forall j :: 0 <= j < |s.table| && j != i ==> t.table[j] == s.table[j]
  {
    var r := s.table[i];
    if Reports(r, s.first, payload)
    then Change(s, i, FromPacket(payload, r.offset, r.size), date, Source(s.first))
    else s
  }

  /** The first n settings compared with the packet. */
  function Compared(s: State, payload: seq<byte>, date: int, n: nat): (t: State)
    requires AllFit(s.table) && |payload| == PAYLOAD && n <= |s.table|
    ensures SameRows(t.table, s.table) && t.first == s.first
    ensures forall i :: n <= i < |s.table| ==> t.table[i] == s.table[i]
  {
    if n == 0 then s else Compare(Compared(s, payload, date, n - 1), n - 1, payload, date)
  }

  function AfterPacket(s: State, payload: seq<byte>, date: int): State
    requires AllFit(s.table) && |payload| == PAYLOAD
  {
    Compared(s, payload, date, |s.table|).(first := false)
  }

  // ----- a change from outside

  /** The index of a setting, or the length of the table. */
  function FindId(table: seq<Setting>, id: int, from: nat): (i: nat)
    requires from <= |table|
    ensures from <= i <= |table|
    ensures i < |table| ==> table[i].id == id
    ensures forall j :: from <= j < i ==> table[j].id != id
    decreases |table| - from
  {
    if from == |table| || table[from].id == id then from else FindId(table, id, from + 1)
  }

  function AfterExternal(s: State, id: int, value: word, date: int, source: string): State {
    var i := FindId(s.table, id, 0);
    if i < |s.table| && s.table[i].value != value then Change(s, i, value, date, source) else s
  }

  /**
   * A confirmed change: the setting of that id has the new value and no other is touched; one event is logged if and
   * only if the value was another one. An unknown id changes nothing.
   */
  predicate Confirmed(s: State, t: State, id: int, value: word, date: int, source: string) {
    && |t.table| == |s.table| && t.first == s.first
    && (forall i :: 0 <= i < |s.table| ==>
          var r := s.table[i];
          && t.table[i] == (if r.id == id then r.(value := value) else r)
          && (r.id == id ==>
                t.log == s.log + if r.value == value then [] else [Event(date, value, r.value, r.name, source)]))
    && ((forall i :: 0 <= i < |s.table| ==> s.table[i].id != id) ==> t.log == s.log)
  }

  /** The state after a change from outside is the only one with these properties. */
  lemma {:induction false} AfterExternalIs(s: State, t: State, id: int, value: word, date: int, source: string)
    requires WellFormed(s.table)
    ensures t == AfterExternal(s, id, value, date, source) <==> Confirmed(s, t, id, value, date, source)
  {
    var k, u := FindId(s.table, id, 0), AfterExternal(s, id, value, date, source);
    forall i | 0 <= i < |s.table| && s.table[i].id == id ensures i == k {
    }
    assert s.log + [] == s.log;
    assert Confirmed(s, u, id, value, date, source);
    if Confirmed(s, t, id, value, date, source) {
      assert t.table == u.table;
    }
  }

  // ----- a restart

  function FindName(table: seq<Setting>, name: string, from: nat): (i: nat)
    requires from <= |table|
    ensures from <= i <= |table|
    ensures i < |table| ==> table[i].name == name
    ensures forall j :: from <= j < i ==> table[j].name != name
    decreases |table| - from
  {
    if from == |table| || table[from].name == name then from else FindName(table, name, from + 1)
  }

  function RestoreOne(table: seq<Setting>, row: Event): (t: seq<Setting>)
    ensures SameRows(t, table)
  {
    var i := FindName(table, row.arg3, 0);
    if i < |table| then table[i := table[i].(value := row.arg1, valueSet := true)] else table
  }

  function Restored(table: seq<Setting>, rows: seq<Event>): (t: seq<Setting>)
    ensures SameRows(t, table)
  {
    if rows == [] then table else RestoreOne(Restored(table, rows[..|rows| - 1]), rows[|rows| - 1])
  }

  /** The table as it is compiled into the program. */
  function Blank(table: seq<Setting>): (t: seq<Setting>)
    ensures SameRows(t, table)
    ensures forall i :: 0 <= i < |t| ==> t[i].value == 0 && !t[i].valueSet
  {
    seq(|table|, i requires 0 <= i < |table| => table[i].(value := 0, valueSet := false))
  }

  /** An event that the recovery query selects: none of its name is of a later date. */
  predicate Latest(log: seq<Event>, e: Event) {
    e in log && forall f :: f in log && f.arg3 == e.arg3 ==> f.date <= e.date
  }

  /** The query's answer, in any order. */
  ghost predicate Answers(rows: seq<Event>, log: seq<Event>) {
    forall e :: e in rows <==> Latest(log, e)
  }

  function AfterRestart(s: State, rows: seq<Event>): State {
    State(Restored(Blank(s.table), rows), true, s.log)
  }

  // ----- the device

  class RitexDevice {
    const settings: array<Setting>
    var isFirstSettingsPacket: bool
    var log: seq<Event>

    ghost function Abs(): State
      reads this, settings
    {
      State(settings[..], isFirstSettingsPacket, log)
    }

    ghost predicate Valid()
      reads settings
    {
      WellFormed(settings[..])
    }

    constructor (settings: array<Setting>, log: seq<Event>)
      requires WellFormed(settings[..])
      ensures this.settings == settings && Valid() && Abs() == State(settings[..], true, log)
    {
      this.settings, isFirstSettingsPacket, this.log := settings, true, log;
    }

    /** On a change the old value comes back with a true result. */
    method SetCurrentSettingValue(id: int, newValue: word) returns (changed: bool, oldValue: word)
      requires Valid()
      modifies settings
      ensures Valid()
      ensures forall i :: 0 <= i < settings.Length ==>
                var r := old(settings[..])[i];
                && settings[i] == (if r.id == id then r.(value := newValue) else r)
                && (r.id == id ==> changed == (r.value != newValue) && (changed ==> oldValue == r.value))
      ensures changed ==> exists i :: 0 <= i < settings.Length && settings[i].id == id
    {
      changed, oldValue := false, 0;
      for i := 0 to settings.Length
        invariant settings[..] == old(settings[..])
        invariant forall j :: 0 <= j < i ==> settings[j].id != id
      {
        if settings[i].id == id {
          if settings[i].value != newValue {
            oldValue := settings[i].value;
            settings[i] := settings[i].(value := newValue);
            changed := true;
          }
          return;
        }
      }
    }

    method SettingName(id: int) returns (name: string)
      requires Valid()
      ensures forall i :: 0 <= i < settings.Length && settings[i].id == id ==> name == settings[i].name
      ensures (forall i :: 0 <= i < settings.Length ==> settings[i].id != id) ==> name == ""
    {
      for i := 0 to settings.Length
        invariant forall j :: 0 <= j < i ==> settings[j].id != id
      {
        if settings[i].id == id {
          return settings[i].name;
        }
      }
      name := "";
    }

    /** What SetReply does once the device has confirmed a new value. */
    method SetReply(id: int, value: word, date: int, source: string)
      requires Valid()
      modifies this, settings
      ensures Valid() && isFirstSettingsPacket == old(isFirstSettingsPacket)
      ensures forall i :: 0 <= i < settings.Length ==>
                var r := old(settings[..])[i];
                && settings[i] == (if r.id == id then r.(value := value) else r)
                && (r.id == id ==>
                      log == old(log) + if r.value == value then [] else [Event(date, value, r.value, r.name, source)])
      ensures (forall i :: 0 <= i < settings.Length ==> old(settings[..])[i].id != id) ==> log == old(log)
      ensures Abs() == AfterExternal(old(Abs()), id, value, date, source)
    {
      var changed, oldValue := SetCurrentSettingValue(id, value);
      if changed {
        var name := SettingName(id);
        log := log + [Event(date, value, oldValue, name, source)];
      }
      AfterExternalIs(old(Abs()), Abs(), id, value, date, source);
    }

    /** The body of the loop over the settings. */
    method CompareOne(i: nat, payload: seq<byte>, date: int)
      requires i < settings.Length && Fits(settings[i]) && |payload| == PAYLOAD
      modifies this`log, settings
      ensures Abs() == Compare(old(Abs()), i, payload, date)
    {
      var r := settings[i];
      if !r.visible || r.offset == -1 {
        return;
      }
      var newValue := FromPacket(payload, r.offset, r.size);
      if (isFirstSettingsPacket && !r.valueSet) || newValue != r.value {
        settings[i] := r.(value := newValue);
        log := log + [Event(date, newValue, r.value, r.name, if isFirstSettingsPacket then "INIT" else "HND")];
      }
    }

    method CheckSettingsChanged(payload: seq<byte>, date: int)
      requires Valid() && |payload| == PAYLOAD
      modifies this, settings
      ensures Valid() && Abs() == AfterPacket(old(Abs()), payload, date)
    {
      ghost var s := Abs();
      for i := 0 to settings.Length
        invariant Abs() == Compared(s, payload, date, i)
      {
        CompareOne(i, payload, date);
      }
      SameRowsWellFormed(s.table, settings[..]);
      isFirstSettingsPacket := false;
    }

    /** Puts the rows of the recovery query into the table. */
    method UpdateSettingsValues(rows: seq<Event>)
      requires Valid()
      modifies settings
      ensures Valid() && settings[..] == Restored(old(settings[..]), rows)
    {
      assert rows[..|rows|] == rows;
      for k := 0 to |rows|
        invariant settings[..] == Restored(old(settings[..]), rows[..k]) && WellFormed(settings[..])
      {
        assert rows[..k + 1][..k] == rows[..k];
        RestoreRow(rows[k]);
      }
    }

    method RestoreRow(row: Event)
      requires Valid()
      modifies settings
      ensures Valid() && settings[..] == RestoreOne(old(settings[..]), row)
    {
      for i := 0 to settings.Length
        invariant settings[..] == old(settings[..])
        invariant FindName(settings[..], row.arg3, 0) == FindName(settings[..], row.arg3, i)
      {
        if settings[i].name == row.arg3 {
          settings[i] := settings[i].(value := row.arg1, valueSet := true);
          return;
        }
      }
    }
  }
}
