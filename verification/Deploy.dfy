/** The panel form that deploys a command (deploy.js): what a header makes of the form's entries, and
    what the form reads back as. */
module Deploy {

  import opened Basics

  // ---------------------------------------------------------------- form entries

  /** A slash row: a flat option, or an option of a subcommand. */
  datatype RowKey = Flat(option: nat) | OfSub(sub: nat, option: nat)

  /** An entry's name, the slash names taken apart. OtherSlash starts like one and names no row. */
  datatype Name =
    | Plain(text: string)
    | Field(row: RowKey, field: string)
    | SubText(sub: nat, isName: bool)
    | OtherSlash(text: string)

  datatype Entry = Entry(name: Name, value: string)

  const USE_SUBS := "slash_use_subcommands"
  const ENABLED := "is_enabled"

  predicate IsSlash(n: Name) {
    !n.Plain? || n.text == USE_SUBS
  }

  function EntryValue(entries: seq<Entry>, text: string): Option<string> {
    if entries == [] then None
    else if entries[0].name == Plain(text) then Some(entries[0].value)
    else EntryValue(entries[1..], text)
  }

  // ---------------------------------------------------------------- headers

  datatype Row = Row(name: string, kind: string, description: string, required: bool, extra: bool)

  datatype Sub = Sub(name: string, description: string, options: seq<Row>)

  datatype Slash = Slash(subcommands: seq<Sub>, options: seq<Row>)

  datatype Header = Header(kind: Option<string>, trigger: Option<string>, group: Option<string>, name: Option<string>,
                           deferMode: nat, isInterval: bool, interval: Option<nat>,
                           slashDescription: Option<string>, slash: Option<Slash>)

  const SLASH_COMMAND := "Slash Command"

  predicate IsSlashHeader(h: Header) {
    h.kind == Some(SLASH_COMMAND)
  }

  /** The options of the panel's selects in order, and how a script reads and writes numbers. */
  datatype Panel = Panel(types: seq<(string, string)>, groups: seq<(string, string)>,
                         number: string -> Option<nat>, decimal: nat -> string)

  function ValueOf(labels: seq<(string, string)>, caption: string): Option<string> {
    if labels == [] then None else if labels[0].0 == caption then Some(labels[0].1) else ValueOf(labels[1..], caption)
  }

  function LabelOf(labels: seq<(string, string)>, value: string): Option<string> {
    if labels == [] then None else if labels[0].1 == value then Some(labels[0].0) else LabelOf(labels[1..], value)
  }

  ghost predicate OneToOne(labels: seq<(string, string)>) {
    forall i, j :: 0 <= i < j < |labels| ==> labels[i].0 != labels[j].0 && labels[i].1 != labels[j].1
  }

  lemma {:induction false} LabelBack(labels: seq<(string, string)>, caption: string)
    requires OneToOne(labels) && ValueOf(labels, caption).Some?
    ensures LabelOf(labels, ValueOf(labels, caption).value) == Some(caption)
    ensures exists i :: 0 <= i < |labels| && labels[i] == (caption, ValueOf(labels, caption).value)
  {
    if labels[0].0 != caption {
      var rest := labels[1..];
      LabelBack(rest, caption);
      var i :| 0 <= i < |rest| && rest[i] == (caption, ValueOf(rest, caption).value);
      assert labels[i + 1] == rest[i];
    }
  }

  lemma {:induction false} ValueIsThere(labels: seq<(string, string)>, caption: string)
    ensures ValueOf(labels, caption).Some? <==> exists i :: 0 <= i < |labels| && labels[i].0 == caption
  {
    if labels != [] && labels[0].0 != caption {
      ValueIsThere(labels[1..], caption);
      if i :| 0 <= i < |labels| && labels[i].0 == caption {
        assert labels[1..][i - 1] == labels[i];
      }
    }
  }

  const DEFER_MODES: nat := 4

  // ---------------------------------------------------------------- writing

  /** A header against a panel; enable true or false sets is_enabled, none leaves it. */
  datatype Job = Job(header: Header, panel: Panel, enable: Option<bool>)

  const ORDER := ["type", "trigger", "GroupID", "name", "interaction_defer_mode", "time_trigger_interval",
                  "slash_command_description"]

  /** The value the header gives a form field, if it manages it. */
  function Scalar(job: Job, text: string): Option<string> {
    var h := job.header;
    if text == "type" then if h.kind.Some? then ValueOf(job.panel.types, h.kind.value) else None
    else if text == "trigger" then h.trigger
    else if text == "GroupID" then if h.group.Some? then ValueOf(job.panel.groups, h.group.value) else None
    else if text == "name" then h.name
    else if text == "interaction_defer_mode" then Some(job.panel.decimal(h.deferMode))
    else if text == "time_trigger_interval" then
      if h.isInterval && h.interval.Some? then Some(job.panel.decimal(h.interval.value)) else None
    else if text == "slash_command_description" then if IsSlashHeader(h) then h.slashDescription else None
    else None
  }

  /** The header names a type or a group the panel's selects lack. */
  predicate Throws(job: Job) {
    || (job.header.kind.Some? && ValueOf(job.panel.types, job.header.kind.value).None?)
    || (job.header.group.Some? && ValueOf(job.panel.groups, job.header.group.value).None?)
  }

  predicate IsScalar(job: Job, n: Name) {
    n.Plain? && Scalar(job, n.text).Some?
  }

  predicate Managed(job: Job, n: Name) {
    IsScalar(job, n) || (IsSlashHeader(job.header) && IsSlash(n)) || (n == Plain(ENABLED) && job.enable.Some?)
  }

  function Names(job: Job, entries: seq<Entry>): set<string> {
    set e | e in entries && IsScalar(job, e.name) :: e.name.text
  }

  /** What becomes of an entry, given the managed fields written already. */
  function KeptOne(job: Job, done: set<string>, e: Entry): seq<Entry> {
    if IsScalar(job, e.name) then if e.name.text in done then [] else [Entry(e.name, Scalar(job, e.name.text).value)]
    else if Managed(job, e.name) then []
    else [e]
  }

  /** The form's own entries, its first entry of each managed field with the header's value. */
  function Kept(job: Job, entries: seq<Entry>): seq<Entry> {
    if entries == [] then []
    else
      var n := |entries| - 1;
      Kept(job, entries[..n]) + KeptOne(job, Names(job, entries[..n]), entries[n])
  }

  function MissingOne(job: Job, done: set<string>, text: string): seq<Entry> {
    if Scalar(job, text).Some? && text !in done then [Entry(Plain(text), Scalar(job, text).value)] else []
  }

  /** The managed fields the form has no entry of. */
  function Missing(job: Job, order: seq<string>, done: set<string>): seq<Entry> {
    if order == [] then []
    else
      var n := |order| - 1;
      Missing(job, order[..n], done) + MissingOne(job, done, order[n])
  }

  function Fields(o: Row): seq<(string, string)> {
    [("name", o.name), ("type", o.kind), ("description", o.description)]
    + (if o.required then [("required", "on")] else [])
    + [("choices", ""), ("min_value", ""), ("max_value", ""), ("min_length", ""), ("max_length", "")]
  }

  function FieldEntries(row: RowKey, fields: seq<(string, string)>): seq<Entry> {
    seq(|fields|, i requires 0 <= i < |fields| => Entry(Field(row, fields[i].0), fields[i].1))
  }

  /** optionEntries. */
  function OptionEntries(row: RowKey, o: Row): seq<Entry> {
    FieldEntries(row, Fields(o))
  }

  /** A row's place: flat, or in a subcommand. */
  function KeyOf(sub: Option<nat>, j: nat): RowKey {
    if sub.None? then Flat(j) else OfSub(sub.value, j)
  }

  function OptionsEntries(sub: Option<nat>, options: seq<Row>): seq<Entry> {
    if options == [] then []
    else
      var j := |options| - 1;
      OptionsEntries(sub, options[..j]) + OptionEntries(KeyOf(sub, j), options[j])
  }

  function SubsEntries(subs: seq<Sub>): seq<Entry> {
    if subs == [] then []
    else
      var i := |subs| - 1;
      SubsEntries(subs[..i])
      + [Entry(SubText(i, true), subs[i].name), Entry(SubText(i, false), subs[i].description)]
      + OptionsEntries(Some(i), subs[i].options)
  }

  function SlashEntries(s: Slash): seq<Entry> {
    (if s.subcommands != [] then [Entry(Plain(USE_SUBS), "on")] else [])
    + SubsEntries(s.subcommands) + OptionsEntries(None, s.options)
  }

  function Body(job: Job, entries: seq<Entry>): seq<Entry> {
    Kept(job, entries) + Missing(job, ORDER, Names(job, entries))
  }

  function Rows(job: Job): seq<Entry> {
    if IsSlashHeader(job.header) && job.header.slash.Some? then SlashEntries(job.header.slash.value) else []
  }

  function Enabling(job: Job): seq<Entry> {
    if job.enable == Some(true) then [Entry(Plain(ENABLED), "on")] else []
  }

  /** The entries applyStructure posts. */
  function Applied(job: Job, entries: seq<Entry>): seq<Entry> {
    Body(job, entries) + Rows(job) + Enabling(job)
  }

  method ApplyStructure(job: Job, entries: seq<Entry>) returns (threw: bool, posted: seq<Entry>)
    ensures threw == Throws(job)
    ensures !threw ==> posted == Applied(job, entries)
  {
    hide ValueOf, Scalar, SlashEntries, Kept, Missing;
    posted := [];
    var h := job.header;
    if h.kind.Some? && ValueOf(job.panel.types, h.kind.value).None? {
      return true, [];
    }
    if h.group.Some? && ValueOf(job.panel.groups, h.group.value).None? {
      return true, [];
    }
    threw := false;
    posted := ReplaceEntries(job, entries);
    if IsSlashHeader(h) && h.slash.Some? {
      var rows := PushSlash(h.slash.value);
      posted := posted + rows;
    }
    if job.enable == Some(true) {
      posted := posted + [Entry(Plain(ENABLED), "on")];
    }
  }

  method ReplaceEntries(job: Job, entries: seq<Entry>) returns (posted: seq<Entry>)
    ensures posted == Body(job, entries)
  {
    hide *;
    var done: set<string>;
    posted, done := KeepEntries(job, entries);
    var missing := AddMissing(job, done);
    posted := posted + missing;
    BodyParts(job, entries);
  }

  lemma BodyParts(job: Job, entries: seq<Entry>)
    ensures Body(job, entries) == Kept(job, entries) + Missing(job, ORDER, Names(job, entries))
  {
  }

  /** The pass over the form's entries, and the managed fields it has written. */
  method KeepEntries(job: Job, entries: seq<Entry>) returns (posted: seq<Entry>, done: set<string>)
    ensures posted == Kept(job, entries) && done == Names(job, entries)
  {
    hide Scalar, Missing, Names;
    posted, done := [], {};
    assert Names(job, entries[..0]) == {} by { NoNames(job); }
    for i := 0 to |entries|
      invariant done == Names(job, entries[..i])
      invariant posted == Kept(job, entries[..i])
    {
      var e := entries[i];
      assert entries[..i + 1][..i] == entries[..i];
      NamesGrow(job, entries, i);
      if e.name.Plain? && Scalar(job, e.name.text).Some? {
        if e.name.text !in done {
          posted := posted + [Entry(e.name, Scalar(job, e.name.text).value)];
        }
        done := done + {e.name.text};
        continue;
      }
      if IsSlashHeader(job.header) && IsSlash(e.name) {
        continue;
      }
      if e.name == Plain(ENABLED) && job.enable.Some? {
        continue;
      }
      posted := posted + [e];
    }
    assert entries[..|entries|] == entries;
  }

  lemma NoNames(job: Job)
    ensures Names(job, []) == {}
  {
  }

  /** The managed fields that had no entry, in their fixed order. */
  method AddMissing(job: Job, done: set<string>) returns (missing: seq<Entry>)
    ensures missing == Missing(job, ORDER, done)
  {
    hide Scalar;
    missing := [];
    for i := 0 to |ORDER|
      invariant missing == Missing(job, ORDER[..i], done)
    {
      assert ORDER[..i + 1][..i] == ORDER[..i];
      if Scalar(job, ORDER[i]).Some? && ORDER[i] !in done {
        missing := missing + [Entry(Plain(ORDER[i]), Scalar(job, ORDER[i]).value)];
      }
    }
    assert ORDER[..|ORDER|] == ORDER;
  }

  method PushSlash(s: Slash) returns (out: seq<Entry>)
    ensures out == SlashEntries(s)
  {
    hide OptionEntries;
    out := [];
    if |s.subcommands| > 0 {
      out := out + [Entry(Plain(USE_SUBS), "on")];
    }
    ghost var start := out;
    for i := 0 to |s.subcommands|
      invariant out == start + SubsEntries(s.subcommands[..i])
    {
      var sub := s.subcommands[i];
      assert s.subcommands[..i + 1][..i] == s.subcommands[..i];
      var options := PushOptions(Some(i), sub.options);
      out := out + [Entry(SubText(i, true), sub.name), Entry(SubText(i, false), sub.description)] + options;
    }
    assert s.subcommands[..|s.subcommands|] == s.subcommands;
    var options := PushOptions(None, s.options);
    out := out + options;
  }

  method PushOptions(sub: Option<nat>, options: seq<Row>) returns (out: seq<Entry>)
    ensures out == OptionsEntries(sub, options)
  {
    hide OptionEntries;
    out := [];
    for j := 0 to |options|
      invariant out == OptionsEntries(sub, options[..j])
    {
      assert options[..j + 1][..j] == options[..j];
      out := out + OptionEntries(KeyOf(sub, j), options[j]);
    }
    assert options[..|options|] == options;
  }

  lemma NamesGrow(job: Job, entries: seq<Entry>, i: nat)
    requires i < |entries|
    ensures Names(job, entries[..i + 1])
         == Names(job, entries[..i]) + if IsScalar(job, entries[i].name) then {entries[i].name.text} else {}
  {
    hide Scalar;
    assert entries[..i + 1] == entries[..i] + [entries[i]];
  }
}
