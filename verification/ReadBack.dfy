/** Reading the panel form back (deploy.js, liveStructure): what was written reads as the header says,
    nothing else moves, and writing twice is writing once. */
module ReadBack {

  import opened Basics
  import opened Deploy

  // ---------------------------------------------------------------- the slash rows of a form

  /** The rows' fields, and each subcommand's name and description. */
  datatype Tables = Tables(rows: map<RowKey, map<string, string>>, subs: map<nat, (string, string)>)

  function Put(fields: map<string, string>, field: string, value: string): map<string, string> {
    fields[field := if field in fields then fields[field] + "," + value else value]
  }

  /** sub(i): the subcommand, made empty when it is new. */
  function WithSub(t: Tables, i: nat): Tables {
    if i in t.subs then t else t.(subs := t.subs[i := ("", "")])
  }

  function Fields(t: Tables, row: RowKey): map<string, string> {
    if row in t.rows then t.rows[row] else map[]
  }

  function Enter(t: Tables, e: Entry): Tables {
    match e.name
    case Field(row, field) =>
      var u := if row.OfSub? then WithSub(t, row.sub) else t;
      u.(rows := u.rows[row := Put(Fields(t, row), field, e.value)])
    case SubText(i, isName) =>
      var u := WithSub(t, i);
      u.(subs := u.subs[i := if isName then (e.value, u.subs[i].1) else (u.subs[i].0, e.value)])
    case _ => t
  }

  const NO_TABLES := Tables(map[], map[])

  function EnterAll(t: Tables, entries: seq<Entry>): Tables {
    if entries == [] then t else Enter(EnterAll(t, entries[..|entries| - 1]), entries[|entries| - 1])
  }

  lemma {:induction false} GreatestOf(s: set<nat>) returns (m: nat)
    requires s != {}
    ensures m in s && forall x :: x in s ==> x <= m
    decreases |s|
  {
    m :| m in s;
    var rest := s - {m};
    assert s == rest + {m};
    if rest != {} {
      var n := GreatestOf(rest);
      if n > m {
        m := n;
      }
    }
  }

  function Greatest(s: set<nat>): (m: nat)
    requires s != {}
    ensures m in s && forall x :: x in s ==> x <= m
  {
    assert exists m :: m in s && forall x :: x in s ==> x <= m by {
      var m := GreatestOf(s);
    }
    var m :| m in s && forall x :: x in s ==> x <= m;
    m
  }

  /** sortedKeys. */
  function Ascending(s: set<nat>): seq<nat>
    decreases |s|
  {
    if s == {} then [] else Ascending(s - {Greatest(s)}) + [Greatest(s)]
  }

  function FieldOr(fields: map<string, string>, field: string): string {
    if field in fields then fields[field] else ""
  }

  /** normalizeRow: a field a header can't express marks the row when it is not empty. */
  function Normalize(f: map<string, string>): Row {
    Row(FieldOr(f, "name"), FieldOr(f, "type"), FieldOr(f, "description"), "required" in f,
        FieldOr(f, "choices") != "" || FieldOr(f, "min_value") != "" || FieldOr(f, "max_value") != ""
        || FieldOr(f, "min_length") != "" || FieldOr(f, "max_length") != "" || FieldOr(f, "channel_types") != "")
  }

  predicate IsEmptyRow(r: Row) {
    r.name == "" && r.description == ""
  }

  /** The rows at some keys that are not empty. */
  function RowsAt(t: Tables, sub: Option<nat>, keys: seq<nat>): seq<Row> {
    if keys == [] then []
    else
      var n := |keys| - 1;
      var r := Normalize(Fields(t, KeyOf(sub, keys[n])));
      RowsAt(t, sub, keys[..n]) + if IsEmptyRow(r) then [] else [r]
  }

  function Keys(t: Tables, sub: Option<nat>): set<nat> {
    set k | k in t.rows && k == KeyOf(sub, k.option) :: k.option
  }

  function OptionsOf(t: Tables, sub: Option<nat>): seq<Row> {
    RowsAt(t, sub, Ascending(Keys(t, sub)))
  }

  function SubsAt(t: Tables, keys: seq<nat>): seq<Sub>
    requires forall i :: i in keys ==> i in t.subs
  {
    if keys == [] then []
    else
      var n := |keys| - 1;
      var s := Sub(t.subs[keys[n]].0, t.subs[keys[n]].1, OptionsOf(t, Some(keys[n])));
      SubsAt(t, keys[..n]) + if s.name == "" && s.description == "" && s.options == [] then [] else [s]
  }

  lemma {:induction false} AscendingMembers(s: set<nat>)
    ensures forall i :: i in Ascending(s) <==> i in s
    decreases |s|
  {
    if s != {} {
      AscendingMembers(s - {Greatest(s)});
    }
  }

  /** liveSlashRows: the subcommands when the form uses them, else the flat options. */
  function LiveSlash(entries: seq<Entry>): Slash {
    var t := EnterAll(NO_TABLES, entries);
    if EntryValue(entries, USE_SUBS).None? then Slash([], OptionsOf(t, None))
    else
      AscendingMembers(t.subs.Keys);
      Slash(SubsAt(t, Ascending(t.subs.Keys)), [])
  }

  method LiveSlashRows(entries: seq<Entry>) returns (s: Slash)
    ensures s == LiveSlash(entries) && ReadSlash(entries, s)
  {
    hide Enter, Normalize, ReadSlash;
    SlashIsRead(entries);
    var t := NO_TABLES;
    for i := 0 to |entries|
      invariant t == EnterAll(NO_TABLES, entries[..i])
    {
      assert entries[..i + 1][..i] == entries[..i];
      t := Enter(t, entries[i]);
    }
    assert entries[..|entries|] == entries;
    if EntryValue(entries, USE_SUBS).None? {
      return Slash([], OptionsOf(t, None));
    }
    AscendingMembers(t.subs.Keys);
    s := Slash(SubsAt(t, Ascending(t.subs.Keys)), []);
  }

  // ---------------------------------------------------------------- the rest of the form

  datatype Live = Live(kind: Option<string>, trigger: Option<string>, group: Option<string>, name: Option<string>,
                       deferMode: Option<nat>, interval: Option<nat>, slashDescription: Option<string>, slash: Slash)

  predicate IsDigits(s: string) {
    s != "" && forall i :: 0 <= i < |s| ==> '0' <= s[i] <= '9'
  }

  function LiveStructure(panel: Panel, entries: seq<Entry>): Live {
    var kind, group := EntryValue(entries, "type"), EntryValue(entries, "GroupID");
    var defer, interval := EntryValue(entries, "interaction_defer_mode"), EntryValue(entries, "time_trigger_interval");
    Live(if kind.None? then None else LabelOf(panel.types, kind.value),
         EntryValue(entries, "trigger"),
         if group.None? then None else LabelOf(panel.groups, group.value),
         EntryValue(entries, "name"),
         if defer.None? || panel.number(defer.value).None? || panel.number(defer.value).value >= DEFER_MODES then None
         else panel.number(defer.value),
         if interval.None? || !IsDigits(interval.value) then None else panel.number(interval.value),
         EntryValue(entries, "slash_command_description"),
         LiveSlash(entries))
  }

  datatype Difference = Name | Kind | Trigger | Group | DeferMode | Interval | SlashDescription | SlashRows

  function If(c: bool, d: Difference): set<Difference> {
    if c then {d} else {}
  }

  /** structureDiff: the managed fields where the header and the live form disagree. */
  function StructureDiff(h: Header, live: Live): set<Difference> {
    If(h.name.Some? && h.name != live.name, Name)
    + If(h.kind.Some? && h.kind != live.kind, Kind)
    + If(h.trigger.Some? && h.trigger != live.trigger, Trigger)
    + If(h.group.Some? && h.group != live.group, Group)
    + If(live.deferMode != Some(h.deferMode), DeferMode)
    + If(h.isInterval && h.interval.Some? && h.interval != live.interval, Interval)
    + If(IsSlashHeader(h) && h.slashDescription.Some? && h.slashDescription != live.slashDescription, SlashDescription)
    + If(IsSlashHeader(h) && (if h.slash.Some? then h.slash.value else Slash([], [])) != live.slash, SlashRows)
  }

  // ---------------------------------------------------------------- the managed fields

  lemma {:induction false} ValueConcat(a: seq<Entry>, b: seq<Entry>, text: string)
    ensures EntryValue(a + b, text) == if EntryValue(a, text).Some? then EntryValue(a, text) else EntryValue(b, text)
  {
    if a == [] {
      assert a + b == b;
    } else {
      assert (a + b)[1..] == a[1..] + b;
      ValueConcat(a[1..], b, text);
    }
  }

  lemma ValueOne(e: Entry, text: string)
    ensures EntryValue([e], text) == if e.name == Plain(text) then Some(e.value) else None
  {
  }

  lemma {:induction false} KeptValue(job: Job, entries: seq<Entry>, text: string)
    requires Scalar(job, text).Some?
    ensures EntryValue(Kept(job, entries), text) == if text in Names(job, entries) then Scalar(job, text) else None
  {
    hide Scalar;
    if entries != [] {
      var n := |entries| - 1;
      var one := KeptOne(job, Names(job, entries[..n]), entries[n]);
      KeptValue(job, entries[..n], text);
      NamesGrow(job, entries, n);
      assert entries[..n + 1] == entries;
      ValueConcat(Kept(job, entries[..n]), one, text);
      if one != [] {
        ValueOne(one[0], text);
      }
    }
  }

  lemma {:induction false} MissingValue(job: Job, order: seq<string>, done: set<string>, text: string)
    requires Scalar(job, text).Some?
    ensures EntryValue(Missing(job, order, done), text)
         == if text in order && text !in done then Scalar(job, text) else None
  {
    hide Scalar;
    if order != [] {
      var n := |order| - 1;
      var one := MissingOne(job, done, order[n]);
      MissingValue(job, order[..n], done, text);
      assert order == order[..n] + [order[n]];
      ValueConcat(Missing(job, order[..n], done), one, text);
      if one != [] {
        ValueOne(one[0], text);
      }
    }
  }

  lemma ScalarsInOrder(job: Job, text: string)
    requires Scalar(job, text).Some?
    ensures text in ORDER
  {
    assert ORDER[0] == "type" && ORDER[1] == "trigger" && ORDER[2] == "GroupID" && ORDER[3] == "name";
    assert ORDER[4] == "interaction_defer_mode" && ORDER[5] == "time_trigger_interval"
      && ORDER[6] == "slash_command_description";
  }

  /** A managed field reads back as the header's value. */
  lemma ScalarReads(job: Job, entries: seq<Entry>, text: string)
    requires Scalar(job, text).Some?
    ensures EntryValue(Applied(job, entries), text) == Scalar(job, text)
  {
    hide Scalar, Kept, Missing, EntryValue, Rows, Enabling;
    KeptValue(job, entries, text);
    MissingValue(job, ORDER, Names(job, entries), text);
    ScalarsInOrder(job, text);
    ValueConcat(Kept(job, entries), Missing(job, ORDER, Names(job, entries)), text);
    ValueConcat(Body(job, entries), Rows(job), text);
    ValueConcat(Body(job, entries) + Rows(job), Enabling(job), text);
  }

  // ---------------------------------------------------------------- everything else

  function Unmanaged(job: Job, entries: seq<Entry>): seq<Entry> {
    if entries == [] then []
    else
      var n := |entries| - 1;
      Unmanaged(job, entries[..n]) + if Managed(job, entries[n].name) then [] else [entries[n]]
  }

  lemma {:induction false} UnmanagedConcat(job: Job, a: seq<Entry>, b: seq<Entry>)
    ensures Unmanaged(job, a + b) == Unmanaged(job, a) + Unmanaged(job, b)
    decreases |b|
  {
    hide Managed;
    if b == [] {
      assert a + b == a;
    } else {
      var n := |b| - 1;
      assert (a + b)[..|a + b| - 1] == a + b[..n];
      UnmanagedConcat(job, a, b[..n]);
    }
  }

  lemma {:induction false} AllManaged(job: Job, entries: seq<Entry>)
    requires forall e :: e in entries ==> Managed(job, e.name)
    ensures Unmanaged(job, entries) == []
  {
    hide Managed;
    if entries != [] {
      var n := |entries| - 1;
      assert entries[n] in entries && forall e :: e in entries[..n] ==> e in entries;
      AllManaged(job, entries[..n]);
    }
  }

  lemma {:induction false} KeptUnmanaged(job: Job, entries: seq<Entry>)
    ensures Unmanaged(job, Kept(job, entries)) == Unmanaged(job, entries)
  {
    hide Scalar;
    if entries != [] {
      var n := |entries| - 1;
      var one := KeptOne(job, Names(job, entries[..n]), entries[n]);
      KeptUnmanaged(job, entries[..n]);
      UnmanagedConcat(job, Kept(job, entries[..n]), one);
      if one != [] {
        assert one[..0] == [];
      }
    }
  }

  lemma {:induction false} MissingScalars(job: Job, order: seq<string>, done: set<string>)
    ensures forall e :: e in Missing(job, order, done) ==>
              IsScalar(job, e.name) && e.value == Scalar(job, e.name.text).value
  {
    hide Scalar;
    if order != [] {
      MissingScalars(job, order[..|order| - 1], done);
    }
  }

  lemma {:induction false} OptionsAreSlash(sub: Option<nat>, options: seq<Row>)
    ensures forall e :: e in OptionsEntries(sub, options) ==> e.name.Field?
  {
    if options != [] {
      OptionsAreSlash(sub, options[..|options| - 1]);
    }
  }

  lemma {:induction false} SubsAreSlash(subs: seq<Sub>)
    ensures forall e :: e in SubsEntries(subs) ==> !e.name.Plain?
  {
    if subs != [] {
      var i := |subs| - 1;
      SubsAreSlash(subs[..i]);
      OptionsAreSlash(Some(i), subs[i].options);
    }
  }

  /** What is appended for the slash rows and is_enabled is managed. */
  lemma AppendedAreManaged(job: Job)
    ensures forall e :: e in Rows(job) + Enabling(job) ==>
              Managed(job, e.name) && (!e.name.Plain? || e.name.text in {USE_SUBS, ENABLED})
  {
    hide Scalar;
    if IsSlashHeader(job.header) && job.header.slash.Some? {
      SubsAreSlash(job.header.slash.value.subcommands);
      OptionsAreSlash(None, job.header.slash.value.options);
    }
  }

  /** The header gives the field a value, or replaces all slash rows, or is_enabled is set. */
  predicate HeaderSets(job: Job, n: Name) {
    || (n.Plain? && Scalar(job, n.text).Some?)
    || (job.header.kind == Some("Slash Command") && (!n.Plain? || n.text == "slash_use_subcommands"))
    || (n == Plain("is_enabled") && job.enable.Some?)
  }

  /** The entries at some rising positions, exactly those that the header does not set. */
  predicate RestAt(job: Job, entries: seq<Entry>, rest: seq<Entry>, at: seq<nat>) {
    && |at| == |rest|
    && (forall i, j :: 0 <= i < j < |at| ==> at[i] < at[j])
    && (forall i :: 0 <= i < |at| ==> at[i] < |entries| && rest[i] == entries[at[i]])
    && (forall i :: 0 <= i < |entries| ==> (i in at <==> !HeaderSets(job, entries[i].name)))
  }

  ghost predicate IsRest(job: Job, entries: seq<Entry>, rest: seq<Entry>) {
    exists at :: RestAt(job, entries, rest, at)
  }

  lemma {:induction false} UnmanagedIsRest(job: Job, entries: seq<Entry>)
    ensures IsRest(job, entries, Unmanaged(job, entries))
    decreases |entries|
  {
    hide HeaderSets, Managed;
    if entries == [] {
      assert RestAt(job, entries, [], []);
    } else {
      var n := |entries| - 1;
      UnmanagedIsRest(job, entries[..n]);
      var at :| RestAt(job, entries[..n], Unmanaged(job, entries[..n]), at);
      ManagedIsSet(job, entries[n].name);
      RestGrows(job, entries, Unmanaged(job, entries[..n]), at);
    }
  }

  lemma ManagedIsSet(job: Job, n: Name)
    ensures Managed(job, n) <==> HeaderSets(job, n)
  {
    hide Scalar;
  }

  lemma RestGrows(job: Job, entries: seq<Entry>, rest: seq<Entry>, at: seq<nat>)
    requires entries != [] && RestAt(job, entries[..|entries| - 1], rest, at)
    ensures var n := |entries| - 1;
            if HeaderSets(job, entries[n].name) then RestAt(job, entries, rest + [], at)
            else RestAt(job, entries, rest + [entries[n]], at + [n])
  {
    hide HeaderSets;
    var n := |entries| - 1;
    assert rest + [] == rest;
    assert forall i :: 0 <= i < n ==> entries[..n][i] == entries[i];
    assert forall i :: i in at + [n] <==> i in at || i == n;
    assert forall i :: i in at ==> i < n;
  }

  /** Every entry the header does not set survives, in order, and none is added. */
  lemma UnmanagedSurvive(job: Job, entries: seq<Entry>)
    ensures Unmanaged(job, Applied(job, entries)) == Unmanaged(job, entries)
    ensures IsRest(job, entries, Unmanaged(job, entries)) && IsRest(job, Applied(job, entries), Unmanaged(job, entries))
  {
    UnmanagedIsRest(job, entries);
    UnmanagedIsRest(job, Applied(job, entries));
    hide Kept, Missing, Rows, Enabling, Unmanaged, Scalar, IsRest;
    var kept, missing, tail := Kept(job, entries), Missing(job, ORDER, Names(job, entries)), Rows(job) + Enabling(job);
    KeptUnmanaged(job, entries);
    MissingScalars(job, ORDER, Names(job, entries));
    AllManaged(job, missing);
    AppendedAreManaged(job);
    AllManaged(job, tail);
    assert Applied(job, entries) == kept + missing + tail;
    UnmanagedConcat(job, kept, missing);
    UnmanagedConcat(job, kept + missing, tail);
  }

  // ---------------------------------------------------------------- writing twice

  /** Entries the writing leaves as they are: managed ones are fields with the header's value, each once. */
  ghost predicate Settled(job: Job, entries: seq<Entry>) {
    && (forall e :: e in entries && Managed(job, e.name) ==>
          IsScalar(job, e.name) && e.value == Scalar(job, e.name.text).value)
    && (forall i, j :: 0 <= i < j < |entries| && IsScalar(job, entries[i].name) ==> entries[i].name != entries[j].name)
  }

  lemma SettledPrefix(job: Job, entries: seq<Entry>)
    requires Settled(job, entries) && entries != []
    ensures var n := |entries| - 1;
            Settled(job, entries[..n]) && KeptOne(job, Names(job, entries[..n]), entries[n]) == [entries[n]]
  {
    hide Scalar, IsScalar;
    var n := |entries| - 1;
    assert entries[n] in entries && forall e :: e in entries[..n] ==> e in entries;
    SettledIsFresh(job, entries);
  }

  lemma SettledIsFresh(job: Job, entries: seq<Entry>)
    requires Settled(job, entries) && entries != []
    ensures var n := |entries| - 1;
            IsScalar(job, entries[n].name) ==> entries[n].name.text !in Names(job, entries[..n])
  {
    hide Scalar;
  }

  lemma {:induction false} SettledKept(job: Job, entries: seq<Entry>)
    requires Settled(job, entries)
    ensures Kept(job, entries) == entries
  {
    hide KeptOne, Settled;
    if entries != [] {
      var n := |entries| - 1;
      SettledPrefix(job, entries);
      SettledKept(job, entries[..n]);
      assert entries == entries[..n] + [entries[n]];
    }
  }

  lemma {:induction false} KeptSettled(job: Job, entries: seq<Entry>)
    ensures Settled(job, Kept(job, entries)) && Names(job, Kept(job, entries)) == Names(job, entries)
  {
    hide Scalar;
    if entries != [] {
      var n := |entries| - 1;
      KeptSettled(job, entries[..n]);
      var one := KeptOne(job, Names(job, entries[..n]), entries[n]);
      NamesGrow(job, entries, n);
      assert entries[..n + 1] == entries;
      SettledMore(job, Kept(job, entries[..n]), one);
    }
  }

  /** Settled entries stay settled with one more that is not managed, or a field not there yet. */
  lemma SettledMore(job: Job, a: seq<Entry>, one: seq<Entry>)
    requires Settled(job, a) && |one| <= 1
    requires one != [] && Managed(job, one[0].name) ==>
      && IsScalar(job, one[0].name)
      && one[0].value == Scalar(job, one[0].name.text).value
      && one[0].name.text !in Names(job, a)
    ensures Settled(job, a + one)
    ensures Names(job, a + one)
         == Names(job, a) + if one != [] && IsScalar(job, one[0].name) then {one[0].name.text} else {}
  {
    hide Scalar;
    var all := a + one;
    forall i, j | 0 <= i < j < |all| && IsScalar(job, all[i].name) ensures all[i].name != all[j].name {
      if j == |a| {
        assert all[i] in a;
      }
    }
  }

  lemma {:induction false} MissingSettles(job: Job, a: seq<Entry>, order: seq<string>, done: set<string>)
    requires Settled(job, a) && Names(job, a) == done
    requires forall i, j :: 0 <= i < j < |order| ==> order[i] != order[j]
    ensures Settled(job, a + Missing(job, order, done))
    ensures forall t ::
              t in Names(job, a + Missing(job, order, done)) <==> t in done || (t in order && Scalar(job, t).Some?)
  {
    hide Scalar, Settled, Names;
    if order == [] {
      assert a + Missing(job, order, done) == a;
    } else {
      var n := |order| - 1;
      MissingSettles(job, a, order[..n], done);
      var one, before := MissingOne(job, done, order[n]), a + Missing(job, order[..n], done);
      assert order == order[..n] + [order[n]];
      assert order[n] !in order[..n];
      SettledMore(job, before, one);
      assert a + Missing(job, order, done) == before + one;
    }
  }

  lemma OrderIsDistinct()
    ensures forall i, j :: 0 <= i < j < |ORDER| ==> ORDER[i] != ORDER[j]
  {
    assert ORDER[0][0] == 't' && ORDER[1][0] == 't' && ORDER[5][0] == 't' && ORDER[0][1] == 'y' && ORDER[1][1] == 'r'
      && ORDER[5][1] == 'i';
    assert ORDER[2][0] == 'G' && ORDER[3][0] == 'n' && ORDER[4][0] == 'i' && ORDER[6][0] == 's';
  }

  lemma {:induction false} KeptDrops(job: Job, a: seq<Entry>, tail: seq<Entry>)
    requires forall e :: e in tail ==> Managed(job, e.name) && !IsScalar(job, e.name)
    ensures Kept(job, a + tail) == Kept(job, a) && Names(job, a + tail) == Names(job, a)
    decreases |tail|
  {
    hide Scalar;
    if tail == [] {
      assert a + tail == a;
    } else {
      var n := |tail| - 1;
      assert forall e :: e in tail[..n] ==> e in tail;
      KeptDrops(job, a, tail[..n]);
      assert tail[n] in tail;
      assert (a + tail)[..|a + tail| - 1] == a + tail[..n];
      NamesGrow(job, a + tail, |a + tail| - 1);
      assert (a + tail)[..|a + tail| - 1 + 1] == a + tail;
    }
  }

  lemma {:induction false} NothingMissing(job: Job, order: seq<string>, done: set<string>)
    requires forall t :: t in order && Scalar(job, t).Some? ==> t in done
    ensures Missing(job, order, done) == []
  {
    hide Scalar;
    if order != [] {
      var n := |order| - 1;
      assert order[n] in order && forall t :: t in order[..n] ==> t in order;
      NothingMissing(job, order[..n], done);
    }
  }

  /** Applying a header twice gives what applying it once gives. */
  lemma ApplyIsIdempotent(job: Job, entries: seq<Entry>)
    ensures Applied(job, Applied(job, entries)) == Applied(job, entries)
  {
    hide Kept, Missing, Rows, Enabling, Scalar, Settled, Managed;
    var body, tail := Body(job, entries), Rows(job) + Enabling(job);
    OrderIsDistinct();
    KeptSettled(job, entries);
    MissingSettles(job, Kept(job, entries), ORDER, Names(job, entries));
    assert Applied(job, entries) == body + tail;
    TailIsNoScalar(job);
    KeptDrops(job, body, tail);
    SettledKept(job, body);
    NothingMissing(job, ORDER, Names(job, body));
    assert body + [] == body;
    assert body + Rows(job) + Enabling(job) == body + tail;
  }

  lemma TailIsNoScalar(job: Job)
    ensures forall e :: e in Rows(job) + Enabling(job) ==> Managed(job, e.name) && !IsScalar(job, e.name)
  {
    hide Rows, Enabling;
    AppendedAreManaged(job);
    assert USE_SUBS[0] == 's' && USE_SUBS[6] == 'u' && ENABLED[0] == 'i' && ENABLED[1] == 's';
    assert "slash_command_description"[6] == 'c' && "interaction_defer_mode"[1] == 'n';
    NoSuchScalar(job);
  }

  lemma NoSuchScalar(job: Job)
    ensures Scalar(job, USE_SUBS) == None && Scalar(job, ENABLED) == None
  {
    assert USE_SUBS[6] == 'u' && "slash_command_description"[6] == 'c' && USE_SUBS[0] == 's';
    assert ENABLED[1] == 's' && "interaction_defer_mode"[1] == 'n' && ENABLED[0] == 'i';
    assert "type"[0] == 't' && "trigger"[0] == 't' && "GroupID"[0] == 'G' && "name"[0] == 'n'
      && "time_trigger_interval"[0] == 't';
  }

  // ---------------------------------------------------------------- the slash rows read back

  lemma {:induction false} EnterConcat(t: Tables, a: seq<Entry>, b: seq<Entry>)
    ensures EnterAll(t, a + b) == EnterAll(EnterAll(t, a), b)
    decreases |b|
  {
    hide Enter;
    if b == [] {
      assert a + b == a;
    } else {
      var n := |b| - 1;
      assert (a + b)[..|a + b| - 1] == a + b[..n];
      EnterConcat(t, a, b[..n]);
    }
  }

  lemma {:induction false} EnterPlain(t: Tables, entries: seq<Entry>)
    requires forall e :: e in entries ==> e.name.Plain?
    ensures EnterAll(t, entries) == t
  {
    if entries != [] {
      var n := |entries| - 1;
      assert entries[n] in entries && forall e :: e in entries[..n] ==> e in entries;
      EnterPlain(t, entries[..n]);
    }
  }

  ghost predicate DistinctFields(fields: seq<(string, string)>) {
    forall i, j :: 0 <= i < j < |fields| ==> fields[i].0 != fields[j].0
  }

  function MapOf(fields: seq<(string, string)>): map<string, string> {
    if fields == [] then map[] else MapOf(fields[..|fields| - 1])[fields[|fields| - 1].0 := fields[|fields| - 1].1]
  }

  lemma {:induction false} MapOfAt(fields: seq<(string, string)>)
    requires DistinctFields(fields)
    ensures forall f :: f in MapOf(fields) <==> exists i :: 0 <= i < |fields| && fields[i].0 == f
    ensures forall i :: 0 <= i < |fields| ==> fields[i].0 in MapOf(fields) && MapOf(fields)[fields[i].0] == fields[i].1
  {
    if fields != [] {
      var n := |fields| - 1;
      MapOfAt(fields[..n]);
      forall f ensures f in MapOf(fields) <==> exists i :: 0 <= i < |fields| && fields[i].0 == f {
        if i :| 0 <= i < n && fields[i].0 == f {
          assert fields[..n][i].0 == f;
        }
      }
    }
  }

  function Opened(t: Tables, row: RowKey): Tables {
    if row.OfSub? then WithSub(t, row.sub) else t
  }

  lemma EnterFirst(t: Tables, row: RowKey, field: string, value: string)
    requires row !in t.rows
    ensures Enter(t, Entry(Field(row, field), value)) == Opened(t, row).(rows := t.rows[row := map[field := value]])
  {
  }

  lemma EnterNext(t: Tables, row: RowKey, field: string, value: string)
    requires row in t.rows && field !in t.rows[row] && Opened(t, row) == t
    ensures Enter(t, Entry(Field(row, field), value)) == t.(rows := t.rows[row := t.rows[row][field := value]])
  {
  }

  lemma OpenedIsOpen(t: Tables, row: RowKey, rows: map<RowKey, map<string, string>>)
    ensures var u := Opened(t, row).(rows := rows);
            Opened(u, row) == u
  {
  }

  lemma LastField(fields: seq<(string, string)>)
    requires fields != [] && DistinctFields(fields)
    ensures var n := |fields| - 1;
            && DistinctFields(fields[..n]) && fields[n].0 !in MapOf(fields[..n])
            && MapOf(fields) == MapOf(fields[..n])[fields[n].0 := fields[n].1]
    ensures MapOf([]) == map[]
  {
    MapOfAt(fields[..|fields| - 1]);
  }

  /** One row's entries make one row. */
  lemma {:induction false} EnterFields(t: Tables, row: RowKey, fields: seq<(string, string)>)
    requires row !in t.rows && DistinctFields(fields) && fields != []
    ensures EnterAll(t, FieldEntries(row, fields)) == Opened(t, row).(rows := t.rows[row := MapOf(fields)])
    decreases |fields|
  {
    hide Enter, Opened, MapOf, DistinctFields;
    var n := |fields| - 1;
    var es, last := FieldEntries(row, fields), fields[n];
    LastField(fields);
    assert es[..n] == FieldEntries(row, fields[..n]) && es[n] == Entry(Field(row, last.0), last.1);
    if n == 0 {
      assert es[..0] == [] && fields[..0] == [];
      EnterFirst(t, row, last.0, last.1);
      assert MapOf(fields) == map[last.0 := last.1];
    } else {
      EnterFields(t, row, fields[..n]);
      var m := MapOf(fields[..n]);
      var u := Opened(t, row).(rows := t.rows[row := m]);
      OpenedIsOpen(t, row, u.rows);
      EnterNext(u, row, last.0, last.1);
      assert u.rows[row := MapOf(fields)] == t.rows[row := MapOf(fields)];
    }
  }

  lemma FieldsDistinct(o: Row)
    ensures DistinctFields(Deploy.Fields(o))
  {
    var f := Deploy.Fields(o);
    assert f[0].0[0] == 'n' && f[1].0[0] == 't' && f[2].0[0] == 'd';
    assert "required"[0] == 'r' && "choices"[0] == 'c' && "min_value"[4] == 'v' && "max_value"[4] == 'v';
    assert "min_length"[4] == 'l' && "max_length"[4] == 'l' && "min_value"[1] == 'i' && "max_value"[1] == 'a';
    assert "min_length"[1] == 'i' && "max_length"[1] == 'a';
  }

  /** A header's row reads as it was written. */
  lemma RowReads(o: Row)
    requires !o.extra
    ensures Normalize(MapOf(Deploy.Fields(o))) == o
  {
    hide MapOf;
    var f := Deploy.Fields(o);
    var m, k := MapOf(f), if o.required then 4 else 3;
    FieldsDistinct(o);
    MapOfAt(f);
    assert f[0].0 == "name" && f[1].0 == "type" && f[2].0 == "description";
    assert f[k].0 == "choices" && f[k + 1].0 == "min_value" && f[k + 2].0 == "max_value"
      && f[k + 3].0 == "min_length" && f[k + 4].0 == "max_length";
    assert "required" in m <==> o.required by {
      if o.required {
        assert f[3].0 == "required";
      } else {
        NoField(o, "required");
      }
    }
    NoField(o, "channel_types");
  }

  lemma NoField(o: Row, field: string)
    requires field == "channel_types" || (field == "required" && !o.required)
    ensures forall i :: 0 <= i < |Deploy.Fields(o)| ==> Deploy.Fields(o)[i].0 != field
  {
    assert "channel_types"[2] == 'a' && "choices"[2] == 'o' && "required"[0] == 'r' && "channel_types"[0] == 'c';
    var f := Deploy.Fields(o);
    assert f[0].0[0] == 'n' && f[1].0[0] == 't' && f[2].0[0] == 'd';
    assert "min_value"[0] == 'm' && "max_value"[0] == 'm' && "min_length"[0] == 'm' && "max_length"[0] == 'm'
      && "choices"[0] == 'c';
  }

  ghost predicate Proper(options: seq<Row>) {
    forall o :: o in options ==> !o.extra && o.name != ""
  }

  /** The tables hold these rows under a place and no others there. */
  ghost predicate HoldsRows(t: Tables, sub: Option<nat>, options: seq<Row>) {
    && (forall j: nat :: KeyOf(sub, j) in t.rows <==> j < |options|)
    && (forall j: nat :: j < |options| ==> t.rows[KeyOf(sub, j)] == MapOf(Deploy.Fields(options[j])))
  }

  /** Rows elsewhere are the same in both. */
  ghost predicate OthersKept(t: Tables, v: Tables, sub: Option<nat>) {
    forall k :: (forall j: nat :: k != KeyOf(sub, j)) ==>
      (k in v.rows <==> k in t.rows) && (k in t.rows ==> v.rows[k] == t.rows[k])
  }

  lemma KeysDiffer(sub: Option<nat>)
    ensures forall i: nat, j: nat :: KeyOf(sub, i) == KeyOf(sub, j) ==> i == j
  {
  }

  function WithRow(u: Tables, row: RowKey, o: Row): Tables {
    u.(rows := u.rows[row := MapOf(Deploy.Fields(o))])
  }

  lemma AddRow(u: Tables, sub: Option<nat>, options: seq<Row>)
    requires options != [] && HoldsRows(u, sub, options[..|options| - 1])
    ensures HoldsRows(WithRow(u, KeyOf(sub, |options| - 1), options[|options| - 1]), sub, options)
  {
    KeysDiffer(sub);
    hide Deploy.Fields, MapOf, KeyOf;
    var n := |options| - 1;
    var v := WithRow(u, KeyOf(sub, n), options[n]);
    forall j: nat | j < |options| ensures v.rows[KeyOf(sub, j)] == MapOf(Deploy.Fields(options[j])) {
      if j < n {
        assert options[..n][j] == options[j];
      }
    }
  }

  lemma OthersStay(t: Tables, u: Tables, sub: Option<nat>, n: nat, o: Row)
    requires OthersKept(t, u, sub)
    ensures OthersKept(t, WithRow(u, KeyOf(sub, n), o), sub)
  {
    hide Deploy.Fields, MapOf, KeyOf;
  }

  lemma {:induction false} EnterOptions(t: Tables, sub: Option<nat>, options: seq<Row>)
    requires HoldsRows(t, sub, []) && (sub.Some? ==> sub.value in t.subs)
    ensures var u := EnterAll(t, OptionsEntries(sub, options));
            HoldsRows(u, sub, options) && u.subs == t.subs && OthersKept(t, u, sub)
    decreases |options|
  {
    hide Enter, Deploy.Fields, MapOf, FieldEntries, OthersKept;
    if options == [] {
      EnterPlain(t, []);
      OthersSame(t, sub);
    } else {
      var n := |options| - 1;
      var o, row := options[n], KeyOf(sub, n);
      EnterOptions(t, sub, options[..n]);
      hide EnterAll;
      var u := EnterAll(t, OptionsEntries(sub, options[..n]));
      assert row !in u.rows;
      SomeFields(o);
      FieldsDistinct(o);
      EnterFields(u, row, Deploy.Fields(o));
      EnterConcat(t, OptionsEntries(sub, options[..n]), OptionEntries(row, o));
      hide HoldsRows;
      AddRow(u, sub, options);
      OthersStay(t, u, sub, n, o);
    }
  }

  lemma OthersSame(t: Tables, sub: Option<nat>)
    ensures OthersKept(t, t, sub)
  {
  }

  lemma SomeFields(o: Row)
    ensures Deploy.Fields(o) != []
  {
  }

  /** The tables hold these subcommands and no flat option. */
  ghost predicate HoldsSubs(t: Tables, subs: seq<Sub>) {
    && (forall i: nat :: i in t.subs <==> i < |subs|)
    && (forall i: nat :: i < |subs| ==>
          t.subs[i] == (subs[i].name, subs[i].description) && HoldsRows(t, Some(i), subs[i].options))
    && (forall i: nat :: i >= |subs| ==> HoldsRows(t, Some(i), []))
    && HoldsRows(t, None, [])
  }

  lemma HoldsMore(t: Tables, v: Tables, subs: seq<Sub>)
    requires subs != [] && HoldsSubs(t, subs[..|subs| - 1])
    requires var n := |subs| - 1;
             && v.subs == t.subs[n := (subs[n].name, subs[n].description)]
             && HoldsRows(v, Some(n), subs[n].options) && OthersKept(t, v, Some(n))
    ensures HoldsSubs(v, subs)
  {
    hide HoldsRows, OthersKept;
    var n := |subs| - 1;
    forall i: nat ensures i < n ==> HoldsRows(v, Some(i), subs[i].options) {
      if i < n {
        assert subs[..n][i] == subs[i];
        OtherRows(t, v, n, Some(i), subs[i].options);
      }
    }
    forall i: nat | i >= |subs| ensures HoldsRows(v, Some(i), []) {
      OtherRows(t, v, n, Some(i), []);
    }
    OtherRows(t, v, n, None, []);
  }

  lemma {:induction false} EnterSubs(subs: seq<Sub>)
    ensures HoldsSubs(EnterAll(NO_TABLES, SubsEntries(subs)), subs)
    decreases |subs|
  {
    if subs != [] {
      var n := |subs| - 1;
      var s := subs[n];
      var before := SubsEntries(subs[..n]);
      var texts := [Entry(SubText(n, true), s.name), Entry(SubText(n, false), s.description)];
      EnterSubs(subs[..n]);
      hide EnterAll, Enter, HoldsRows, OthersKept;
      var t := EnterAll(NO_TABLES, before);
      EnterTexts(t, n, s.name, s.description);
      var u := EnterAll(t, texts);
      EnterConcat(NO_TABLES, before, texts);
      SameRows(t, u, Some(n), []);
      EnterOptions(u, Some(n), s.options);
      EnterConcat(NO_TABLES, before + texts, OptionsEntries(Some(n), s.options));
      var v := EnterAll(u, OptionsEntries(Some(n), s.options));
      SameOthers(t, u, v, Some(n));
      HoldsMore(t, v, subs);
    }
  }

  lemma SameOthers(t: Tables, u: Tables, v: Tables, sub: Option<nat>)
    requires u.rows == t.rows && OthersKept(u, v, sub)
    ensures OthersKept(t, v, sub)
  {
  }

  lemma EnterTexts(t: Tables, i: nat, name: string, description: string)
    requires i !in t.subs
    ensures EnterAll(t, [Entry(SubText(i, true), name), Entry(SubText(i, false), description)])
         == t.(subs := t.subs[i := (name, description)])
  {
    var a, b := Entry(SubText(i, true), name), Entry(SubText(i, false), description);
    assert [a, b][..1] == [a] && [a][..0] == [];
    assert EnterAll(t, [a]) == Enter(t, a);
    assert t.subs[i := ("", "")][i := (name, "")][i := (name, description)] == t.subs[i := (name, description)];
  }

  lemma SameRows(t: Tables, u: Tables, sub: Option<nat>, options: seq<Row>)
    requires HoldsRows(t, sub, options) && u.rows == t.rows
    ensures HoldsRows(u, sub, options)
  {
  }

  lemma OtherRows(t: Tables, v: Tables, n: nat, sub: Option<nat>, options: seq<Row>)
    requires HoldsRows(t, sub, options) && sub != Some(n)
    requires OthersKept(t, v, Some(n))
    ensures HoldsRows(v, sub, options)
  {
    forall j: nat ensures KeyOf(sub, j) in v.rows <==> KeyOf(sub, j) in t.rows
    {
      assert forall l: nat :: KeyOf(sub, j) != KeyOf(Some(n), l);
    }
    forall j: nat | j < |options| ensures v.rows[KeyOf(sub, j)] == t.rows[KeyOf(sub, j)] {
      assert forall l: nat :: KeyOf(sub, j) != KeyOf(Some(n), l);
    }
  }

  // ---------------------------------------------------------------- reading the tables

  function UpTo(n: nat): seq<nat> {
    seq(n, i requires 0 <= i < n => i)
  }

  lemma {:induction false} AscendingUpTo(s: set<nat>, n: nat)
    requires forall i: nat :: i in s <==> i < n
    ensures Ascending(s) == UpTo(n)
    decreases n
  {
    if n == 0 {
      assert s == {};
    } else {
      assert n - 1 in s;
      var rest := s - {Greatest(s)};
      assert Greatest(s) == n - 1;
      AscendingUpTo(rest, n - 1);
      assert UpTo(n) == UpTo(n - 1) + [n - 1];
    }
  }

  lemma {:induction false} RowsRead(t: Tables, sub: Option<nat>, options: seq<Row>, n: nat)
    requires HoldsRows(t, sub, options) && Proper(options) && n <= |options|
    ensures RowsAt(t, sub, UpTo(n)) == options[..n]
    decreases n
  {
    hide Deploy.Fields, MapOf, Normalize;
    if n > 0 {
      RowsRead(t, sub, options, n - 1);
      assert UpTo(n)[..n - 1] == UpTo(n - 1);
      assert options[n - 1] in options;
      RowReads(options[n - 1]);
    }
  }

  lemma OptionsRead(t: Tables, sub: Option<nat>, options: seq<Row>)
    requires HoldsRows(t, sub, options) && Proper(options)
    ensures OptionsOf(t, sub) == options
  {
    hide Ascending, RowsAt;
    forall j: nat ensures j in Keys(t, sub) <==> j < |options| {
      assert KeyOf(sub, j).option == j;
    }
    AscendingUpTo(Keys(t, sub), |options|);
    RowsRead(t, sub, options, |options|);
  }

  lemma {:induction false} SubsRead(t: Tables, subs: seq<Sub>, n: nat)
    requires HoldsSubs(t, subs) && n <= |subs|
    requires forall s :: s in subs ==> s.name != "" && Proper(s.options)
    ensures SubsAt(t, UpTo(n)) == subs[..n]
    decreases n
  {
    hide OptionsOf, HoldsRows, Proper;
    if n > 0 {
      SubsRead(t, subs, n - 1);
      assert UpTo(n)[..n - 1] == UpTo(n - 1);
      assert subs[n - 1] in subs;
      OptionsRead(t, Some(n - 1), subs[n - 1].options);
    }
  }

  // ---------------------------------------------------------------- the round trip

  /** What validation makes sure of: a mode the radio has, named rows a header can express, and flat
      options only without subcommands. */
  ghost predicate ValidHeader(h: Header) {
    && h.deferMode < DEFER_MODES
    && (h.slash.Some? ==>
          var s := h.slash.value;
          && Proper(s.options) && (forall c :: c in s.subcommands ==> c.name != "" && Proper(c.options))
          && (s.subcommands != [] ==> s.options == []))
  }

  /** Numbers read back as they are written. */
  /** One decimal digit or more. */
  predicate OnlyDigits(s: string) {
    s != "" && forall i :: 0 <= i < |s| ==> s[i] in "0123456789"
  }

  lemma DigitsIff(s: string)
    ensures IsDigits(s) <==> OnlyDigits(s)
  {
    assert forall c: char :: c in "0123456789" <==> '0' <= c <= '9';
  }

  ghost predicate NumbersRead(panel: Panel) {
    forall n: nat :: OnlyDigits(panel.decimal(n)) && panel.number(panel.decimal(n)) == Some(n)
  }

  lemma BodyIsPlain(job: Job, entries: seq<Entry>)
    requires IsSlashHeader(job.header)
    ensures forall e :: e in Body(job, entries) ==> e.name.Plain? && e.name.text != USE_SUBS
  {
    hide Scalar;
    NoSuchScalar(job);
    KeptIsPlain(job, entries);
    MissingScalars(job, ORDER, Names(job, entries));
  }

  lemma {:induction false} KeptIsPlain(job: Job, entries: seq<Entry>)
    requires IsSlashHeader(job.header)
    ensures forall e :: e in Kept(job, entries) ==> e.name.Plain? && e.name.text != USE_SUBS
  {
    hide Scalar;
    NoSuchScalar(job);
    if entries != [] {
      KeptIsPlain(job, entries[..|entries| - 1]);
    }
  }

  lemma {:induction false} NoValue(entries: seq<Entry>, text: string)
    requires forall e :: e in entries ==> e.name != Plain(text)
    ensures EntryValue(entries, text) == None
  {
    if entries != [] {
      assert entries[0] in entries && forall e :: e in entries[1..] ==> e in entries;
      NoValue(entries[1..], text);
    }
  }

  /** The form uses subcommands exactly when the header has some. */
  lemma UseSubsReads(job: Job, entries: seq<Entry>)
    requires IsSlashHeader(job.header)
    ensures EntryValue(Applied(job, entries), USE_SUBS).Some?
       <==> job.header.slash.Some? && job.header.slash.value.subcommands != []
  {
    hide EntryValue, Body, SubsEntries, OptionsEntries;
    var body, rows := Body(job, entries), Rows(job);
    BodyIsPlain(job, entries);
    NoValue(body, USE_SUBS);
    NoValue(Enabling(job), USE_SUBS);
    ValueConcat(body, rows, USE_SUBS);
    ValueConcat(body + rows, Enabling(job), USE_SUBS);
    if job.header.slash.Some? {
      var s := job.header.slash.value;
      var rest := SubsEntries(s.subcommands) + OptionsEntries(None, s.options);
      SubsAreSlash(s.subcommands);
      OptionsAreSlash(None, s.options);
      NoValue(rest, USE_SUBS);
      var head := if s.subcommands != [] then [Entry(Plain(USE_SUBS), "on")] else [];
      assert rows == head + rest;
      ValueConcat(head, rest, USE_SUBS);
      if head != [] {
        ValueOne(head[0], USE_SUBS);
      } else {
        NoValue(head, USE_SUBS);
      }
    } else {
      NoValue(rows, USE_SUBS);
    }
  }

  /** The tables of a written form are the header's rows. */
  lemma AppliedTables(job: Job, entries: seq<Entry>)
    requires IsSlashHeader(job.header)
    ensures var t := EnterAll(NO_TABLES, Applied(job, entries));
            var s := if job.header.slash.Some? then job.header.slash.value else Slash([], []);
            t == EnterAll(EnterAll(NO_TABLES, SubsEntries(s.subcommands)), OptionsEntries(None, s.options))
  {
    hide Body, Kept, SubsEntries, OptionsEntries, EnterAll;
    var body, rows := Body(job, entries), Rows(job);
    BodyIsPlain(job, entries);
    EnterPlain(NO_TABLES, body);
    EnterConcat(NO_TABLES, body, rows);
    EnterConcat(NO_TABLES, body + rows, Enabling(job));
    EnterPlain(EnterAll(NO_TABLES, body + rows), Enabling(job));
    if job.header.slash.Some? {
      var s := job.header.slash.value;
      var head := if s.subcommands != [] then [Entry(Plain(USE_SUBS), "on")] else [];
      EnterConcat(NO_TABLES, head + SubsEntries(s.subcommands), OptionsEntries(None, s.options));
      EnterConcat(NO_TABLES, head, SubsEntries(s.subcommands));
      EnterPlain(NO_TABLES, head);
    } else {
      NoRows();
      EnterPlain(NO_TABLES, []);
    }
  }

  lemma NoRows()
    ensures SubsEntries([]) == [] && OptionsEntries(None, []) == []
  {
  }

  lemma SlashReads(job: Job, entries: seq<Entry>)
    requires IsSlashHeader(job.header) && ValidHeader(job.header)
    ensures LiveSlash(Applied(job, entries)) == if job.header.slash.Some? then job.header.slash.value else Slash([], [])
  {
    hide EnterAll, Applied, SubsEntries, OptionsEntries, HoldsRows, Ascending, SubsAt, EntryValue, OptionsOf, Proper;
    var s := if job.header.slash.Some? then job.header.slash.value else Slash([], []);
    var t := EnterAll(NO_TABLES, Applied(job, entries));
    var u := EnterAll(NO_TABLES, SubsEntries(s.subcommands));
    UseSubsReads(job, entries);
    AppliedTables(job, entries);
    EnterSubs(s.subcommands);
    EnterOptions(u, None, s.options);
    if s.subcommands != [] {
      NoRows();
      EnterPlain(u, []);
      assert t == u;
      AscendingUpTo(t.subs.Keys, |s.subcommands|);
      SubsRead(t, s.subcommands, |s.subcommands|);
    } else {
      NoRowsProper();
      OptionsRead(t, None, s.options);
    }
  }

  lemma NoRowsProper()
    ensures Proper([])
  {
  }

  /** Writing a validated header and reading the form back finds no difference. */
  lemma WriteReadsBack(job: Job, entries: seq<Entry>)
    requires ValidHeader(job.header) && NumbersRead(job.panel) && !Throws(job)
    requires OneToOne(job.panel.types) && OneToOne(job.panel.groups)
    ensures StructureDiff(job.header, LiveStructure(job.panel, Applied(job, entries))) == {}
  {
    hide Applied, LiveSlash, EntryValue, OneToOne, ValueOf, LabelOf, IsDigits, OnlyDigits;
    var h, panel := job.header, job.panel;
    if h.kind.Some? {
      ScalarReads(job, entries, "type");
      LabelBack(panel.types, h.kind.value);
    }
    if h.trigger.Some? {
      ScalarReads(job, entries, "trigger");
    }
    if h.group.Some? {
      ScalarReads(job, entries, "GroupID");
      LabelBack(panel.groups, h.group.value);
    }
    if h.name.Some? {
      ScalarReads(job, entries, "name");
    }
    ScalarReads(job, entries, "interaction_defer_mode");
    if h.isInterval && h.interval.Some? {
      ScalarReads(job, entries, "time_trigger_interval");
      DigitsIff(panel.decimal(h.interval.value));
    }
    if IsSlashHeader(h) {
      if h.slashDescription.Some? {
        ScalarReads(job, entries, "slash_command_description");
      }
      SlashReads(job, entries);
    }
  }

  // ---------------------------------------------------------------- what a difference is

  /** The form's first value of a managed field is the header's: the same text, or for the two numbers a
      text that reads as the same number. */
  predicate HoldsField(job: Job, entries: seq<Entry>, text: string)
    requires Scalar(job, text).Some?
  {
    var value, want := EntryValue(entries, text), Scalar(job, text).value;
    if text == "interaction_defer_mode" then value.Some? && job.panel.number(value.value) == job.panel.number(want)
    else if text == "time_trigger_interval" then
      value.Some? && OnlyDigits(value.value) && job.panel.number(value.value) == job.panel.number(want)
    else value == Some(want)
  }

  /** The field is managed and the form's value is another. */
  predicate Differs(job: Job, entries: seq<Entry>, text: string) {
    Scalar(job, text).Some? && !HoldsField(job, entries, text)
  }

  function HeaderRows(h: Header): Slash {
    if h.slash.Some? then h.slash.value else Slash([], [])
  }

  lemma {:induction false} LabelGives(labels: seq<(string, string)>, caption: string, value: string)
    requires OneToOne(labels) && ValueOf(labels, caption).Some?
    ensures LabelOf(labels, value) == Some(caption) <==> ValueOf(labels, caption) == Some(value)
  {
    LabelBack(labels, caption);
    if LabelOf(labels, value) == Some(caption) {
      LabelIsThere(labels, caption, value);
      var i :| 0 <= i < |labels| && labels[i] == (caption, ValueOf(labels, caption).value);
      var j :| 0 <= j < |labels| && labels[j] == (caption, value);
    }
  }

  lemma {:induction false} LabelIsThere(labels: seq<(string, string)>, caption: string, value: string)
    requires LabelOf(labels, value) == Some(caption)
    ensures exists j :: 0 <= j < |labels| && labels[j] == (caption, value)
  {
    if labels[0].1 != value {
      LabelIsThere(labels[1..], caption, value);
      var j :| 0 <= j < |labels[1..]| && labels[1..][j] == (caption, value);
      assert labels[j + 1] == (caption, value);
    }
  }

  lemma ScalarsAre(job: Job)
    ensures var h := job.header;
            && Scalar(job, "type") == (if h.kind.Some? then ValueOf(job.panel.types, h.kind.value) else None)
            && Scalar(job, "trigger") == h.trigger && Scalar(job, "name") == h.name
            && Scalar(job, "GroupID") == (if h.group.Some? then ValueOf(job.panel.groups, h.group.value) else None)
            && Scalar(job, "interaction_defer_mode") == Some(job.panel.decimal(h.deferMode))
            && Scalar(job, "time_trigger_interval")
                 == (if h.isInterval && h.interval.Some? then Some(job.panel.decimal(h.interval.value)) else None)
            && Scalar(job, "slash_command_description")
                 == (if h.kind == Some("Slash Command") then h.slashDescription else None)
  {
  }

  lemma HoldsText(job: Job, entries: seq<Entry>, text: string)
    requires text in ["name", "type", "trigger", "GroupID", "slash_command_description"]
    ensures Differs(job, entries, text) <==> Scalar(job, text).Some? && EntryValue(entries, text) != Scalar(job, text)
  {
    hide Scalar;
    assert text[0] != 'i' && |"time_trigger_interval"| != |text|;
  }

  lemma HoldsNumbers(job: Job, entries: seq<Entry>)
    ensures var value, want := EntryValue(entries, "interaction_defer_mode"), Scalar(job, "interaction_defer_mode");
            Differs(job, entries, "interaction_defer_mode") <==>
              want.Some? && !(value.Some? && job.panel.number(value.value) == job.panel.number(want.value))
    ensures var value, want := EntryValue(entries, "time_trigger_interval"), Scalar(job, "time_trigger_interval");
            Differs(job, entries, "time_trigger_interval") <==>
              want.Some? && !(value.Some? && IsDigits(value.value)
                              && job.panel.number(value.value) == job.panel.number(want.value))
  {
    hide Scalar, IsDigits, OnlyDigits;
    var value := EntryValue(entries, "time_trigger_interval");
    if value.Some? {
      DigitsIff(value.value);
    }
    assert "interaction_defer_mode"[0] != "time_trigger_interval"[0];
  }

  /** The two numbers as they are read: one of the four defer modes, and an interval of digits alone. */
  lemma LiveNumbers(panel: Panel, entries: seq<Entry>, k: nat)
    ensures var live, value := LiveStructure(panel, entries), EntryValue(entries, "interaction_defer_mode");
            live.deferMode == Some(k) <==> k < 4 && value.Some? && panel.number(value.value) == Some(k)
    ensures var live, value := LiveStructure(panel, entries), EntryValue(entries, "time_trigger_interval");
            live.interval == Some(k) <==>
              value.Some? && OnlyDigits(value.value) && panel.number(value.value) == Some(k)
  {
    hide EntryValue, LabelOf, LiveSlash, IsDigits, OnlyDigits;
    var value := EntryValue(entries, "time_trigger_interval");
    if value.Some? {
      DigitsIff(value.value);
    }
  }

  lemma IfHas(c: bool, x: Difference, d: Difference)
    ensures d in If(c, x) <==> c && d == x
  {
  }

  /** The conditions of all the differences, by difference. */
  function Conditions(h: Header, live: Live, d: Difference): bool {
    match d
    case Name => h.name.Some? && h.name != live.name
    case Kind => h.kind.Some? && h.kind != live.kind
    case Trigger => h.trigger.Some? && h.trigger != live.trigger
    case Group => h.group.Some? && h.group != live.group
    case DeferMode => live.deferMode != Some(h.deferMode)
    case Interval => h.isInterval && h.interval.Some? && h.interval != live.interval
    case SlashDescription => IsSlashHeader(h) && h.slashDescription.Some? && h.slashDescription != live.slashDescription
    case SlashRows => IsSlashHeader(h) && HeaderRows(h) != live.slash
  }

  lemma InDiff(h: Header, live: Live, d: Difference)
    ensures d in StructureDiff(h, live) <==> Conditions(h, live, d)
  {
    hide If, IsSlashHeader;
    IfHas(h.name.Some? && h.name != live.name, Name, d);
    IfHas(h.kind.Some? && h.kind != live.kind, Kind, d);
    IfHas(h.trigger.Some? && h.trigger != live.trigger, Trigger, d);
    IfHas(h.group.Some? && h.group != live.group, Group, d);
    IfHas(live.deferMode != Some(h.deferMode), DeferMode, d);
    IfHas(h.isInterval && h.interval.Some? && h.interval != live.interval, Interval, d);
    IfHas(IsSlashHeader(h) && h.slashDescription.Some? && h.slashDescription != live.slashDescription,
          SlashDescription, d);
    IfHas(IsSlashHeader(h) && (if h.slash.Some? then h.slash.value else Slash([], [])) != live.slash, SlashRows, d);
  }

  /** A difference is reported for exactly the managed fields whose value on the form is another, and for
      the slash rows of a slash command exactly when they read as others than the header's. */
  lemma DiffIsExact(job: Job, entries: seq<Entry>)
    requires job.header.deferMode < DEFER_MODES && NumbersRead(job.panel) && !Throws(job)
    requires OneToOne(job.panel.types) && OneToOne(job.panel.groups)
    ensures var diff := StructureDiff(job.header, LiveStructure(job.panel, entries));
            && (Name in diff <==> Differs(job, entries, "name"))
            && (Kind in diff <==> Differs(job, entries, "type"))
            && (Trigger in diff <==> Differs(job, entries, "trigger"))
            && (Group in diff <==> Differs(job, entries, "GroupID"))
            && (DeferMode in diff <==> Differs(job, entries, "interaction_defer_mode"))
            && (Interval in diff <==> Differs(job, entries, "time_trigger_interval"))
            && (SlashDescription in diff <==> Differs(job, entries, "slash_command_description"))
            && (SlashRows in diff <==>
                  job.header.kind == Some("Slash Command") && LiveSlash(entries) != HeaderRows(job.header))
  {
    hide LiveSlash, EntryValue, OneToOne, ValueOf, LabelOf, IsDigits, OnlyDigits, Scalar, HoldsField, StructureDiff;
    var h, panel := job.header, job.panel;
    var kind, group := EntryValue(entries, "type"), EntryValue(entries, "GroupID");
    ScalarsAre(job);
    forall d
      ensures d in StructureDiff(h, LiveStructure(panel, entries)) <==> Conditions(h, LiveStructure(panel, entries), d)
    {
      InDiff(h, LiveStructure(panel, entries), d);
    }
    HoldsText(job, entries, "name");
    HoldsText(job, entries, "type");
    HoldsText(job, entries, "trigger");
    HoldsText(job, entries, "GroupID");
    HoldsText(job, entries, "slash_command_description");
    HoldsNumbers(job, entries);
    if h.kind.Some? && kind.Some? {
      LabelGives(panel.types, h.kind.value, kind.value);
    }
    if h.group.Some? && group.Some? {
      LabelGives(panel.groups, h.group.value, group.value);
    }
    assert panel.number(panel.decimal(h.deferMode)) == Some(h.deferMode);
    if h.interval.Some? {
      assert panel.number(panel.decimal(h.interval.value)) == Some(h.interval.value);
    }
  }

  /** No difference is reported if and only if every managed field of the form holds the header's value
      and a slash command's rows read as the header's. */
  lemma NoDiffIff(job: Job, entries: seq<Entry>)
    requires job.header.deferMode < DEFER_MODES && NumbersRead(job.panel) && !Throws(job)
    requires OneToOne(job.panel.types) && OneToOne(job.panel.groups)
    ensures StructureDiff(job.header, LiveStructure(job.panel, entries)) == {} <==>
              && (forall text :: Scalar(job, text).Some? ==> HoldsField(job, entries, text))
              && (job.header.kind == Some("Slash Command") ==> LiveSlash(entries) == HeaderRows(job.header))
  {
    hide HoldsField, StructureDiff, LiveStructure, LiveSlash, Scalar, OneToOne, NumbersRead, Throws;
    DiffIsExact(job, entries);
    var diff := StructureDiff(job.header, LiveStructure(job.panel, entries));
    forall text | Scalar(job, text).Some? && diff == {} ensures HoldsField(job, entries, text) {
      FieldNames(job, text);
    }
    if (forall text :: Scalar(job, text).Some? ==> HoldsField(job, entries, text))
       && (IsSlashHeader(job.header) ==> LiveSlash(entries) == HeaderRows(job.header)) {
      forall d ensures d !in diff {
        match d
        case Name =>
        case Kind =>
        case Trigger =>
        case Group =>
        case DeferMode =>
        case Interval =>
        case SlashDescription =>
        case SlashRows =>
      }
    }
  }

  lemma FieldNames(job: Job, text: string)
    requires Scalar(job, text).Some?
    ensures text == "name" || text == "type" || text == "trigger" || text == "GroupID" || text
        == "interaction_defer_mode"
         || text == "time_trigger_interval" || text == "slash_command_description"
  {
  }

  /** A form without differences keeps the value of every managed field when the header is written. */
  lemma NoDiffKeepsFields(job: Job, entries: seq<Entry>, text: string)
    requires job.header.deferMode < DEFER_MODES && NumbersRead(job.panel) && !Throws(job)
    requires OneToOne(job.panel.types) && OneToOne(job.panel.groups)
    requires StructureDiff(job.header, LiveStructure(job.panel, entries)) == {} && Scalar(job, text).Some?
    ensures var was, now := EntryValue(entries, text), EntryValue(Applied(job, entries), text);
            && was.Some? && now.Some?
            && if text == "interaction_defer_mode" || text == "time_trigger_interval" then
                 job.panel.number(now.value) == job.panel.number(was.value)
               else now == was
  {
    hide StructureDiff, LiveStructure, LiveSlash, Scalar, OneToOne, NumbersRead, Throws, Applied;
    NoDiffIff(job, entries);
    ScalarReads(job, entries, text);
  }

  /** is_enabled is written, taken off or left as it was. */
  lemma EnablingReads(job: Job, entries: seq<Entry>)
    ensures EntryValue(Applied(job, entries), ENABLED)
         == match job.enable
            case Some(true) => Some("on")
            case Some(false) => None
            case None => EntryValue(entries, ENABLED)
  {
    hide Scalar, Kept, Missing, Rows;
    var missing := Missing(job, ORDER, Names(job, entries));
    NoSuchScalar(job);
    KeptEnabled(job, entries);
    MissingScalars(job, ORDER, Names(job, entries));
    NoValue(missing, ENABLED);
    RowsAreSlash(job);
    NoValue(Rows(job), ENABLED);
    ValueConcat(Kept(job, entries), missing, ENABLED);
    ValueConcat(Body(job, entries), Rows(job), ENABLED);
    ValueConcat(Body(job, entries) + Rows(job), Enabling(job), ENABLED);
  }

  lemma RowsAreSlash(job: Job)
    ensures forall e :: e in Rows(job) ==> e.name != Plain(ENABLED)
  {
    if IsSlashHeader(job.header) && job.header.slash.Some? {
      SubsAreSlash(job.header.slash.value.subcommands);
      OptionsAreSlash(None, job.header.slash.value.options);
      assert USE_SUBS[0] == 's' && ENABLED[0] == 'i';
    }
  }

  lemma {:induction false} KeptEnabled(job: Job, entries: seq<Entry>)
    ensures EntryValue(Kept(job, entries), ENABLED) == if job.enable.Some? then None else EntryValue(entries, ENABLED)
  {
    hide Scalar;
    NoSuchScalar(job);
    if entries != [] {
      var n := |entries| - 1;
      var one := KeptOne(job, Names(job, entries[..n]), entries[n]);
      KeptEnabled(job, entries[..n]);
      assert entries == entries[..n] + [entries[n]];
      ValueConcat(entries[..n], [entries[n]], ENABLED);
      ValueConcat(Kept(job, entries[..n]), one, ENABLED);
      ValueOne(entries[n], ENABLED);
      EnabledOne(job, Names(job, entries[..n]), entries[n]);
    }
  }

  lemma EnabledOne(job: Job, done: set<string>, e: Entry)
    ensures EntryValue(KeptOne(job, done, e), ENABLED)
         == if job.enable.None? && e.name == Plain(ENABLED) then Some(e.value) else None
  {
    hide Scalar;
    NoSuchScalar(job);
    assert USE_SUBS[0] == 's' && ENABLED[0] == 'i';
    var one := KeptOne(job, done, e);
    if one != [] {
      ValueOne(one[0], ENABLED);
    }
  }

  // ---------------------------------------------------------------- the rows of any form

  /** The values of the entries of that name, in order. */
  function Values(entries: seq<Entry>, name: Name): seq<string> {
    if entries == [] then []
    else if entries[0].name == name then [entries[0].value] + Values(entries[1..], name)
    else Values(entries[1..], name)
  }

  function Joined(values: seq<string>): string
    requires values != []
  {
    if |values| == 1 then values[0] else values[0] + "," + Joined(values[1..])
  }

  /** A row's field: its values joined by commas. */
  function Text(entries: seq<Entry>, row: RowKey, field: string): string {
    var values := Values(entries, Field(row, field));
    if values == [] then "" else Joined(values)
  }

  predicate HasExtra(entries: seq<Entry>, row: RowKey) {
    || Text(entries, row, "choices") != "" || Text(entries, row, "min_value") != ""
    || Text(entries, row, "max_value") != "" || Text(entries, row, "min_length") != ""
    || Text(entries, row, "max_length") != "" || Text(entries, row, "channel_types") != ""
  }

  function RowOf(entries: seq<Entry>, row: RowKey): Row {
    Row(Text(entries, row, "name"), Text(entries, row, "type"), Text(entries, row, "description"),
        Values(entries, Field(row, "required")) != [], HasExtra(entries, row))
  }

  predicate IsNamed(entries: seq<Entry>, row: RowKey) {
    Text(entries, row, "name") != "" || Text(entries, row, "description") != ""
  }

  /** The rows are those of the form that have a name or a description, by rising index. */
  ghost predicate AreRowsOf(entries: seq<Entry>, sub: Option<nat>, rows: seq<Row>, at: seq<nat>) {
    && |at| == |rows|
    && (forall i, j :: 0 <= i < j < |at| ==> at[i] < at[j])
    && (forall i :: 0 <= i < |at| ==> rows[i] == RowOf(entries, KeyOf(sub, at[i])))
    && (forall j: nat :: j in at <==> IsNamed(entries, KeyOf(sub, j)))
  }

  ghost predicate ReadRows(entries: seq<Entry>, sub: Option<nat>, rows: seq<Row>) {
    exists at :: AreRowsOf(entries, sub, rows, at)
  }

  /** A subcommand's name or description: the last value it has. */
  function SubValue(entries: seq<Entry>, i: nat, isName: bool): string {
    var values := Values(entries, SubText(i, isName));
    if values == [] then "" else values[|values| - 1]
  }

  ghost predicate HasSub(entries: seq<Entry>, i: nat) {
    SubValue(entries, i, true) != "" || SubValue(entries, i, false) != "" || exists j :: IsNamed(entries, OfSub(i, j))
  }

  ghost predicate IsSub(entries: seq<Entry>, i: nat, s: Sub) {
    && s.name == SubValue(entries, i, true) && s.description == SubValue(entries, i, false)
    && ReadRows(entries, Some(i), s.options)
  }

  /** The subcommands are those of the form that have a name, a description or a row, by rising index. */
  ghost predicate AreSubsOf(entries: seq<Entry>, subs: seq<Sub>, at: seq<nat>) {
    && |at| == |subs|
    && (forall i, j :: 0 <= i < j < |at| ==> at[i] < at[j])
    && (forall i :: 0 <= i < |at| ==> IsSub(entries, at[i], subs[i]))
    && (forall i: nat :: i in at <==> HasSub(entries, i))
  }

  /** The form's rows: its subcommands when it uses them, else its flat options. */
  ghost predicate ReadSlash(entries: seq<Entry>, s: Slash) {
    if exists e :: e in entries && e.name == Plain("slash_use_subcommands")
    then s.options == [] && exists at :: AreSubsOf(entries, s.subcommands, at)
    else s.subcommands == [] && ReadRows(entries, None, s.options)
  }

  lemma {:induction false} JoinedGrows(values: seq<string>, value: string)
    requires values != []
    ensures Joined(values + [value]) == Joined(values) + "," + value
  {
    if |values| > 1 {
      JoinedGrows(values[1..], value);
      assert (values + [value])[1..] == values[1..] + [value];
      var rest := Joined(values[1..]);
      assert values[0] + "," + (rest + "," + value) == values[0] + "," + rest + "," + value;
    } else {
      assert (values + [value])[1..] == [value];
      assert values[0] + "," + value == Joined(values) + "," + value;
    }
  }

  lemma {:induction false} ValuesGrow(entries: seq<Entry>, e: Entry, name: Name)
    ensures Values(entries + [e], name) == Values(entries, name) + if e.name == name then [e.value] else []
  {
    if entries == [] {
      assert ([] + [e])[1..] == [];
    } else {
      ValuesGrow(entries[1..], e, name);
      assert (entries + [e])[1..] == entries[1..] + [e];
    }
  }

  lemma NothingEntered(row: RowKey)
    ensures Fields(NO_TABLES, row) == map[]
  {
  }

  lemma EnterChangesField(t: Tables, e: Entry, row: RowKey, field: string)
    ensures var was, fields := Fields(t, row), Fields(Enter(t, e), row);
            if e.name == Field(row, field) then
              field in fields && fields[field] == if field in was then was[field] + "," + e.value else e.value
            else (field in fields <==> field in was) && (field in was ==> fields[field] == was[field])
  {
  }

  /** What the tables hold of a row's field. */
  lemma {:induction false} FieldIsEntered(entries: seq<Entry>, row: RowKey, field: string)
    ensures var fields, values := Fields(EnterAll(NO_TABLES, entries), row), Values(entries, Field(row, field));
            && (field in fields <==> values != [])
            && (values != [] ==> fields[field] == Joined(values))
  {
    hide Enter, Fields;
    if entries == [] {
      NothingEntered(row);
    } else {
      var n := |entries| - 1;
      var last, rest := entries[n], entries[..n];
      assert entries == rest + [last];
      FieldIsEntered(rest, row, field);
      EnterChangesField(EnterAll(NO_TABLES, rest), last, row, field);
      ValuesGrow(rest, last, Field(row, field));
      var values := Values(rest, Field(row, field));
      if last.name == Field(row, field) {
        if values != [] {
          JoinedGrows(values, last.value);
        } else {
          assert Values(entries, Field(row, field)) == [last.value];
        }
      } else {
        assert Values(entries, Field(row, field)) == values;
      }
    }
  }

  lemma FieldReads(entries: seq<Entry>, row: RowKey, field: string)
    ensures FieldOr(Fields(EnterAll(NO_TABLES, entries), row), field) == Text(entries, row, field)
    ensures field in Fields(EnterAll(NO_TABLES, entries), row) <==> Values(entries, Field(row, field)) != []
  {
    FieldIsEntered(entries, row, field);
  }

  lemma RowIsRowOf(entries: seq<Entry>, row: RowKey)
    ensures var r := Normalize(Fields(EnterAll(NO_TABLES, entries), row));
            r == RowOf(entries, row) && (IsEmptyRow(r) <==> !IsNamed(entries, row))
  {
    hide EnterAll, Fields, Values, Text, FieldOr;
    FieldReads(entries, row, "name");
    FieldReads(entries, row, "type");
    FieldReads(entries, row, "description");
    FieldReads(entries, row, "required");
    FieldReads(entries, row, "choices");
    FieldReads(entries, row, "min_value");
    FieldReads(entries, row, "max_value");
    FieldReads(entries, row, "min_length");
    FieldReads(entries, row, "max_length");
    FieldReads(entries, row, "channel_types");
  }

  predicate Rising(keys: seq<nat>) {
    forall i, j :: 0 <= i < j < |keys| ==> keys[i] < keys[j]
  }

  lemma {:induction false} AscendingRises(s: set<nat>)
    ensures Rising(Ascending(s))
    decreases |s|
  {
    if s != {} {
      var m, rest := Greatest(s), Ascending(s - {Greatest(s)});
      AscendingRises(s - {m});
      AscendingMembers(s - {m});
      forall i | 0 <= i < |rest| ensures rest[i] < m {
        assert rest[i] in rest;
      }
    }
  }

  /** The rows that are read at some keys, and their positions. */
  ghost predicate RowsFound(entries: seq<Entry>, sub: Option<nat>, keys: seq<nat>, rows: seq<Row>, at: seq<nat>) {
    && |at| == |rows| && Rising(at)
    && (forall i :: 0 <= i < |at| ==> rows[i] == RowOf(entries, KeyOf(sub, at[i])))
    && (forall j: nat :: j in at <==> j in keys && IsNamed(entries, KeyOf(sub, j)))
  }

  lemma RowsGrow(entries: seq<Entry>, sub: Option<nat>, keys: seq<nat>, rows: seq<Row>, at: seq<nat>, k: nat)
    requires RowsFound(entries, sub, keys, rows, at) && forall i :: i in keys ==> i < k
    ensures if IsNamed(entries, KeyOf(sub, k))
            then RowsFound(entries, sub, keys + [k], rows + [RowOf(entries, KeyOf(sub, k))], at + [k])
            else RowsFound(entries, sub, keys + [k], rows + [], at)
  {
    hide RowOf, IsNamed;
    var _ := RisesTo(at, keys, k);
    assert rows + [] == rows;
    assert forall i: nat :: i in keys + [k] <==> i in keys || i == k;
    assert forall i: nat :: i in at + [k] <==> i in at || i == k;
  }

  lemma {:induction false} RowsAtKeys(entries: seq<Entry>, sub: Option<nat>, keys: seq<nat>) returns (at: seq<nat>)
    requires Rising(keys)
    ensures RowsFound(entries, sub, keys, RowsAt(EnterAll(NO_TABLES, entries), sub, keys), at)
    decreases |keys|
  {
    hide EnterAll, Fields, Normalize, IsEmptyRow, RowOf, IsNamed;
    if keys == [] {
      at := [];
    } else {
      hide RowsFound;
      var n := |keys| - 1;
      at := RowsAtKeys(entries, sub, keys[..n]);
      RowIsRowOf(entries, KeyOf(sub, keys[n]));
      assert keys == keys[..n] + [keys[n]];
      RowsGrow(entries, sub, keys[..n], RowsAt(EnterAll(NO_TABLES, entries), sub, keys[..n]), at, keys[n]);
      at := if IsNamed(entries, KeyOf(sub, keys[n])) then at + [keys[n]] else at;
    }
  }

  lemma KeysHoldNamed(entries: seq<Entry>, sub: Option<nat>, j: nat)
    requires IsNamed(entries, KeyOf(sub, j))
    ensures j in Keys(EnterAll(NO_TABLES, entries), sub)
  {
    hide EnterAll, Values;
    var row := KeyOf(sub, j);
    FieldIsEntered(entries, row, "name");
    FieldIsEntered(entries, row, "description");
    assert row.option == j;
  }

  lemma OptionsAreRead(entries: seq<Entry>, sub: Option<nat>)
    ensures ReadRows(entries, sub, OptionsOf(EnterAll(NO_TABLES, entries), sub))
  {
    hide EnterAll, RowsAt, Ascending, RowOf, IsNamed, Keys;
    var keys := Keys(EnterAll(NO_TABLES, entries), sub);
    AscendingMembers(keys);
    AscendingRises(keys);
    var at := RowsAtKeys(entries, sub, Ascending(keys));
    forall j: nat | IsNamed(entries, KeyOf(sub, j)) ensures j in keys {
      KeysHoldNamed(entries, sub, j);
    }
    assert AreRowsOf(entries, sub, OptionsOf(EnterAll(NO_TABLES, entries), sub), at);
  }

  /** What the tables hold of a subcommand. */
  lemma {:induction false} SubIsEntered(entries: seq<Entry>, i: nat)
    ensures var t := EnterAll(NO_TABLES, entries);
            && (i in t.subs ==> t.subs[i] == (SubValue(entries, i, true), SubValue(entries, i, false)))
            && (i !in t.subs ==>
                  && Values(entries, SubText(i, true)) == [] && Values(entries, SubText(i, false)) == []
                  && forall j :: OfSub(i, j) !in t.rows)
  {
    if entries != [] {
      var n := |entries| - 1;
      assert entries == entries[..n] + [entries[n]];
      SubIsEntered(entries[..n], i);
      ValuesGrow(entries[..n], entries[n], SubText(i, true));
      ValuesGrow(entries[..n], entries[n], SubText(i, false));
    }
  }

  /** A subcommand as it is read. */
  lemma SubIsRead(entries: seq<Entry>, i: nat)
    ensures var t := EnterAll(NO_TABLES, entries);
            && (i in t.subs ==> t.subs[i] == (SubValue(entries, i, true), SubValue(entries, i, false)))
            && (i in t.subs ==> (HasSub(entries, i) <==>
                  t.subs[i].0 != "" || t.subs[i].1 != "" || OptionsOf(t, Some(i)) != []))
            && (i !in t.subs ==> !HasSub(entries, i))
  {
    hide EnterAll, OptionsOf, IsNamed, Values;
    var t := EnterAll(NO_TABLES, entries);
    SubIsEntered(entries, i);
    OptionsAreRead(entries, Some(i));
    var options := OptionsOf(t, Some(i));
    var at :| AreRowsOf(entries, Some(i), options, at);
    if options != [] {
      assert at[0] in at;
      assert KeyOf(Some(i), at[0]) == OfSub(i, at[0]);
    }
    forall j | IsNamed(entries, OfSub(i, j)) ensures j in at && OfSub(i, j) in t.rows {
      assert KeyOf(Some(i), j) == OfSub(i, j);
      KeysHoldNamed(entries, Some(i), j);
    }
  }

  /** A subcommand read at a key. */
  lemma SubAtKey(entries: seq<Entry>, t: Tables, i: nat)
    requires t == EnterAll(NO_TABLES, entries) && i in t.subs
    ensures var s := Sub(t.subs[i].0, t.subs[i].1, OptionsOf(t, Some(i)));
            && IsSub(entries, i, s)
            && (HasSub(entries, i) <==> !(s.name == "" && s.description == "" && s.options == []))
  {
    hide EnterAll, OptionsOf, HasSub, ReadRows, SubValue;
    SubIsRead(entries, i);
    OptionsAreRead(entries, Some(i));
  }

  /** The subcommands that are read at some keys, and their positions. */
  ghost predicate SubsFound(entries: seq<Entry>, keys: seq<nat>, subs: seq<Sub>, at: seq<nat>) {
    && |at| == |subs| && Rising(at)
    && (forall i :: 0 <= i < |at| ==> IsSub(entries, at[i], subs[i]))
    && (forall i: nat :: i in at <==> i in keys && HasSub(entries, i))
  }

  lemma FoundGrows(entries: seq<Entry>, keys: seq<nat>, subs: seq<Sub>, at: seq<nat>, k: nat, s: Sub)
    requires SubsFound(entries, keys, subs, at) && IsSub(entries, k, s) && forall i :: i in keys ==> i < k
    ensures if HasSub(entries, k) then SubsFound(entries, keys + [k], subs + [s], at + [k])
            else SubsFound(entries, keys + [k], subs + [], at)
  {
    hide IsSub, HasSub;
    var _ := RisesTo(at, keys, k);
    assert subs + [] == subs;
    assert forall i: nat :: i in keys + [k] <==> i in keys || i == k;
    assert forall i: nat :: i in at + [k] <==> i in at || i == k;
  }

  lemma {:induction false} SubsAtKeys(entries: seq<Entry>, t: Tables, keys: seq<nat>) returns (at: seq<nat>)
    requires t == EnterAll(NO_TABLES, entries) && Rising(keys) && forall i :: i in keys ==> i in t.subs
    ensures SubsFound(entries, keys, SubsAt(t, keys), at)
    decreases |keys|
  {
    hide EnterAll, OptionsOf, HasSub, IsSub;
    if keys == [] {
      at := [];
    } else {
      hide SubsFound;
      var n := |keys| - 1;
      at := SubsAtKeys(entries, t, keys[..n]);
      SubAtKey(entries, t, keys[n]);
      assert keys == keys[..n] + [keys[n]];
      var s := Sub(t.subs[keys[n]].0, t.subs[keys[n]].1, OptionsOf(t, Some(keys[n])));
      FoundGrows(entries, keys[..n], SubsAt(t, keys[..n]), at, keys[n], s);
      at := if HasSub(entries, keys[n]) then at + [keys[n]] else at;
    }
  }

  /** Rising numbers from among smaller ones, and one more. */
  lemma RisesTo(at: seq<nat>, keys: seq<nat>, m: nat) returns (at': seq<nat>)
    requires Rising(at) && (forall k :: k in at ==> k in keys) && forall k :: k in keys ==> k < m
    ensures at' == at + [m] && Rising(at')
  {
    at' := at + [m];
    forall i | 0 <= i < |at| ensures at[i] < m {
      assert at[i] in at && at[i] in keys;
    }
  }

  lemma {:induction false} EntryIsThere(entries: seq<Entry>, text: string)
    ensures EntryValue(entries, text).Some? <==> exists e :: e in entries && e.name == Plain(text)
  {
    if entries != [] {
      EntryIsThere(entries[1..], text);
    }
  }

  /** On any form, whatever it repeats or leaves out. */
  lemma SlashIsRead(entries: seq<Entry>)
    ensures ReadSlash(entries, LiveSlash(entries))
  {
    hide EnterAll, OptionsOf, SubsAt, Ascending, HasSub, ReadRows;
    EntryIsThere(entries, USE_SUBS);
    var t := EnterAll(NO_TABLES, entries);
    if EntryValue(entries, USE_SUBS).None? {
      OptionsAreRead(entries, None);
    } else {
      AscendingMembers(t.subs.Keys);
      AscendingRises(t.subs.Keys);
      var at := SubsAtKeys(entries, t, Ascending(t.subs.Keys));
      forall i: nat | HasSub(entries, i) ensures i in t.subs {
        SubIsRead(entries, i);
      }
      assert AreSubsOf(entries, SubsAt(t, Ascending(t.subs.Keys)), at);
    }
  }

  // ---------------------------------------------------------------- fields a header cannot express

  predicate IsExtraField(field: string) {
    field in ["choices", "min_value", "max_value", "min_length", "max_length", "channel_types"]
  }

  /** The form has a non-empty value of a row's field. */
  predicate Filled(entries: seq<Entry>, row: RowKey, field: string) {
    exists e :: e in entries && e.name == Field(row, field) && e.value != ""
  }

  lemma {:induction false} FilledIsEntered(entries: seq<Entry>, row: RowKey, field: string)
    requires Filled(entries, row, field)
    ensures var t := EnterAll(NO_TABLES, entries);
            row in t.rows && field in t.rows[row] && t.rows[row][field] != ""
  {
    var n := |entries| - 1;
    var last, rest := entries[n], entries[..n];
    assert entries == rest + [last];
    if Filled(rest, row, field) {
      FilledIsEntered(rest, row, field);
    }
  }

  lemma {:induction false} RowIsRead(t: Tables, sub: Option<nat>, keys: seq<nat>, j: nat)
    requires j in keys && !IsEmptyRow(Normalize(Fields(t, KeyOf(sub, j))))
    ensures Normalize(Fields(t, KeyOf(sub, j))) in RowsAt(t, sub, keys)
  {
    hide Normalize, Fields;
    var n := |keys| - 1;
    if keys[n] != j {
      RowIsRead(t, sub, keys[..n], j);
    }
  }

  /** A row of the form with a name and something in a field a header cannot express is read with the mark
      of it, so a header never reads the same. */
  lemma ExtraIsSeen(entries: seq<Entry>, sub: Option<nat>, j: nat, field: string)
    requires IsExtraField(field) && Filled(entries, KeyOf(sub, j), field) && Filled(entries, KeyOf(sub, j), "name")
    ensures exists r :: r in OptionsOf(EnterAll(NO_TABLES, entries), sub) && r.extra
    ensures forall options :: Proper(options) ==> OptionsOf(EnterAll(NO_TABLES, entries), sub) != options
  {
    hide EnterAll, RowsAt, Ascending;
    var t, row := EnterAll(NO_TABLES, entries), KeyOf(sub, j);
    FilledIsEntered(entries, row, field);
    FilledIsEntered(entries, row, "name");
    var r := Normalize(Fields(t, row));
    assert r.extra && r.name != "";
    assert j in Keys(t, sub) by { assert row in t.rows && row.option == j; }
    AscendingMembers(Keys(t, sub));
    RowIsRead(t, sub, Ascending(Keys(t, sub)), j);
  }

  /** On a form without subcommands such a row is a difference. */
  lemma ExtraIsADifference(job: Job, entries: seq<Entry>, j: nat, field: string)
    requires ValidHeader(job.header) && job.header.kind == Some("Slash Command")
    requires EntryValue(entries, USE_SUBS) == None
    requires IsExtraField(field) && Filled(entries, Flat(j), field) && Filled(entries, Flat(j), "name")
    ensures SlashRows in StructureDiff(job.header, LiveStructure(job.panel, entries))
  {
    hide OptionsOf, EnterAll, IsExtraField, Filled;
    ExtraIsSeen(entries, None, j, field);
    NoRowsProper();
  }
}
