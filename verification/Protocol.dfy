/** What every run keeps, over its whole tree of execCC runs. */
module Protocol {

  import opened Basics
  import opened Interactions

  // ---------------------------------------------------------------- the protocol

  /** What Discord knows of the interaction: nothing yet, a deferral to be filled, or an answer. */
  datatype Stage = Unanswered | Open | Answered

  function StageOf(st: State): Stage {
    if !st.respondedTo then Unanswered else if st.deferred then Open else Answered
  }

  /** The first answer is a message, an update or a modal; a deferral is filled once; the rest follow up. */
  function Advance(s: Stage, k: Kind): Option<Stage> {
    match s
    case Unanswered => if k.Message? || k.Update? || k.Modal? then Some(Answered) else None
    case Open => if k.DeferredEdit? then Some(Answered) else if k.Followup? then Some(Open) else None
    case Answered => if k.Followup? then Some(Answered) else None
  }

  function Drive(s: Stage, log: seq<Response>): Option<Stage> {
    if log == [] then Some(s)
    else
      var before := Drive(s, log[..|log| - 1]);
      if before.None? then None else Advance(before.value, log[|log| - 1].kind)
  }

  lemma {:induction false} DriveAppend(s: Stage, a: seq<Response>, b: seq<Response>)
    requires Drive(s, a).Some?
    ensures Drive(s, a + b) == Drive(Drive(s, a).value, b)
    decreases |b|
  {
    if b == [] {
      assert a + b == a;
    } else {
      DriveAppend(s, a, b[..|b| - 1]);
      assert (a + b)[..|a + b| - 1] == a + b[..|b| - 1];
    }
  }

  // ---------------------------------------------------------------- what a stretch of a run keeps

  predicate Sane(st: State) {
    st.deferred ==> st.respondedTo
  }

  function FreshResponses(st: State, st': State): seq<Response>
    requires st.responses <= st'.responses
  {
    st'.responses[|st.responses|..]
  }

  function FreshSent(st: State, st': State): seq<Sent>
    requires st.sent <= st'.sent
  {
    st'.sent[|st.sent|..]
  }

  predicate KeepsProtocol(setting: Setting, st: State, st': State) {
    && Sane(st')
    && st.responses <= st'.responses
    && Drive(StageOf(st), FreshResponses(st, st')) == Some(StageOf(st'))
    && (!setting.hasInteraction || DeferralFailed(setting, st) ==> FreshResponses(st, st') == [])
  }

  predicate Numbered(sent: seq<Sent>, from: nat) {
    forall i :: 0 <= i < |sent| ==> sent[i].id == FIRST_SENT_MESSAGE_ID + from + i + 1
  }

  /** Messages are numbered without a gap, in the order they are recorded. */
  predicate KeepsNumbers(st: State, st': State) {
    && st.sent <= st'.sent
    && |FreshSent(st, st')| == st'.sentIDs - st.sentIDs
    && Numbered(FreshSent(st, st'), st.sentIDs)
  }

  /** The message an answer holds: one of those sent, as ephemeral as the answer says, or the
      component's own message when the answer edits that; a modal has none. */
  predicate IsLinked(setting: Setting, r: Response, sent: seq<Sent>) {
    match r.kind
    case Modal => r.messageID == 0
    case Update => r.messageID == setting.componentMessage
    case _ =>
      || (exists s :: s in sent && s.id == r.messageID && s.ephemeral == r.ephemeral)
      || (r.kind.DeferredEdit? && setting.mode.DeferUpdate? && r.messageID == setting.componentMessage)
  }

  predicate AllLinked(setting: Setting, responses: seq<Response>, sent: seq<Sent>) {
    forall r :: r in responses ==> IsLinked(setting, r, sent)
  }

  predicate KeepsLinks(setting: Setting, st: State, st': State) {
    && st.responses <= st'.responses
    && st.sent <= st'.sent
    && AllLinked(setting, FreshResponses(st, st'), FreshSent(st, st'))
  }

  ghost predicate UniqueKeys(runs: seq<Scheduled>) {
    forall i, j :: 0 <= i < j < |runs| && runs[i].key.Some? ==>
      runs[i].command != runs[j].command || runs[i].key != runs[j].key
  }

  ghost predicate Keeps(setting: Setting, st: State, st': State) {
    && KeepsProtocol(setting, st, st')
    && KeepsNumbers(st, st')
    && KeepsLinks(setting, st, st')
    && (UniqueKeys(st.scheduled) ==> UniqueKeys(st'.scheduled))
  }

  lemma DriveNothing(s: Stage)
    ensures Drive(s, []) == Some(s)
  {
  }

  lemma DriveOne(s: Stage, r: Response)
    ensures Drive(s, [r]) == Advance(s, r.kind)
  {
    assert [r][..0] == [];
  }

  lemma ProtocolTransitive(setting: Setting, a: State, b: State, c: State)
    requires Sane(a) && KeepsProtocol(setting, a, b) && KeepsProtocol(setting, b, c)
    ensures KeepsProtocol(setting, a, c)
  {
    hide Drive;
    var x, y := FreshResponses(a, b), FreshResponses(b, c);
    assert FreshResponses(a, c) == x + y;
    DriveAppend(StageOf(a), x, y);
    DriveNothing(StageOf(a));
    DriveNothing(StageOf(b));
    if DeferralFailed(setting, a) {
      assert x == [] && StageOf(b) == StageOf(a) == Open;
      assert y == [];
    }
  }

  lemma NumbersTransitive(a: State, b: State, c: State)
    requires KeepsNumbers(a, b) && KeepsNumbers(b, c)
    ensures KeepsNumbers(a, c)
  {
    var m, n := FreshSent(a, b), FreshSent(b, c);
    var all := m + n;
    assert FreshSent(a, c) == all;
    forall i | 0 <= i < |all| ensures all[i].id == FIRST_SENT_MESSAGE_ID + a.sentIDs + i + 1 {
      if i >= |m| {
        assert all[i] == n[i - |m|];
      }
    }
  }

  lemma LinksTransitive(setting: Setting, a: State, b: State, c: State)
    requires KeepsLinks(setting, a, b) && KeepsLinks(setting, b, c)
    ensures KeepsLinks(setting, a, c)
  {
    var x, y, m, n := FreshResponses(a, b), FreshResponses(b, c), FreshSent(a, b), FreshSent(b, c);
    assert FreshResponses(a, c) == x + y && FreshSent(a, c) == m + n;
    forall r | r in x + y ensures IsLinked(setting, r, m + n) {
      if r in x {
        LinkedLater(setting, r, m, m + n);
      } else {
        LinkedLater(setting, r, n, m + n);
      }
    }
  }

  lemma LinkedLater(setting: Setting, r: Response, sent: seq<Sent>, sent': seq<Sent>)
    requires IsLinked(setting, r, sent) && forall s :: s in sent ==> s in sent'
    ensures IsLinked(setting, r, sent')
  {
  }

  lemma KeepsTransitive(setting: Setting, a: State, b: State, c: State)
    requires Sane(a) && Keeps(setting, a, b) && Keeps(setting, b, c)
    ensures Keeps(setting, a, c)
  {
    hide UniqueKeys, KeepsProtocol, KeepsNumbers, KeepsLinks;
    ProtocolTransitive(setting, a, b, c);
    NumbersTransitive(a, b, c);
    LinksTransitive(setting, a, b, c);
  }

  lemma KeepsSame(setting: Setting, st: State, st': State)
    requires Sane(st) && st'.responses == st.responses && st'.sent == st.sent && st'.sentIDs == st.sentIDs
    requires st'.respondedTo == st.respondedTo && st'.deferred == st.deferred && st'.scheduled == st.scheduled
    ensures Keeps(setting, st, st')
  {
    assert FreshResponses(st, st') == [] && FreshSent(st, st') == [];
  }

  /** One answer recorded, with or without a message of its own. */
  lemma KeepsAnswer(setting: Setting, st: State, st': State, r: Response)
    requires Sane(st) && Sane(st') && st'.responses == st.responses + [r] && st'.scheduled == st.scheduled
    requires Advance(StageOf(st), r.kind) == Some(StageOf(st'))
    requires setting.hasInteraction && !DeferralFailed(setting, st)
    requires (st'.sent == st.sent && st'.sentIDs == st.sentIDs && IsLinked(setting, r, []))
          || (exists c :: st'.sent == RecordSent(st, c, r.ephemeral).sent && st'.sentIDs == st.sentIDs + 1
                          && r.messageID == FIRST_SENT_MESSAGE_ID + st'.sentIDs && !r.kind.Modal? && !r.kind.Update?)
    ensures Keeps(setting, st, st')
  {
    DriveOne(StageOf(st), r);
    assert FreshResponses(st, st') == [r];
    if st'.sentIDs == st.sentIDs {
      assert FreshSent(st, st') == [];
    } else {
      var c :| st'.sent == RecordSent(st, c, r.ephemeral).sent;
      var s := Sent(FIRST_SENT_MESSAGE_ID + st.sentIDs + 1, c, r.ephemeral);
      assert FreshSent(st, st') == [s] && s in [s];
    }
  }

  lemma KeepsRecordSent(setting: Setting, st: State, channel: int, ephemeral: bool)
    requires Sane(st)
    ensures Keeps(setting, st, RecordSent(st, channel, ephemeral))
  {
    var st' := RecordSent(st, channel, ephemeral);
    assert FreshResponses(st, st') == [];
    assert FreshSent(st, st') == [Sent(FIRST_SENT_MESSAGE_ID + st.sentIDs + 1, channel, ephemeral)];
  }

  // ---------------------------------------------------------------- the calls

  lemma SendResponseKeeps(setting: Setting, st: State, call: Call, inTry: bool, channel: int)
    requires Sane(st) && call.SendResponse?
    ensures Keeps(setting, st, DoSendResponse(setting, st, call, inTry, channel).st)
  {
    hide Keeps;
    var st' := DoSendResponse(setting, st, call, inTry, channel).st;
    if st'.responses == st.responses {
      KeepsSame(setting, st, st');
    } else {
      assert st'.sent == RecordSent(st, channel, call.ephemeral).sent;
      KeepsAnswer(setting, st, st', st'.responses[|st.responses|]);
    }
  }

  lemma UpdateMessageKeeps(setting: Setting, st: State, call: Call, inTry: bool)
    requires Sane(st) && call.UpdateMessage?
    ensures Keeps(setting, st, DoUpdateMessage(setting, st, call, inTry).st)
  {
    hide Keeps;
    var st' := DoUpdateMessage(setting, st, call, inTry).st;
    if st'.responses == st.responses {
      KeepsSame(setting, st, st');
    } else {
      KeepsAnswer(setting, st, st', st'.responses[|st.responses|]);
    }
  }

  lemma SendModalKeeps(setting: Setting, st: State, call: Call, inTry: bool)
    requires Sane(st) && call.SendModal?
    ensures Keeps(setting, st, DoSendModal(setting, st, call, inTry).st)
  {
    hide Keeps;
    var st' := DoSendModal(setting, st, call, inTry).st;
    if st'.responses == st.responses {
      KeepsSame(setting, st, st');
    } else {
      KeepsAnswer(setting, st, st', st'.responses[|st.responses|]);
    }
  }

  lemma RespondKeeps(setting: Setting, st: State, channel: int)
    requires Sane(st) && setting.hasInteraction
    ensures Keeps(setting, st, RespondWithOutput(setting, st, channel))
  {
    hide Keeps;
    var st' := RespondWithOutput(setting, st, channel);
    if st'.responses == st.responses {
      KeepsSame(setting, st, st');
    } else {
      var r := st'.responses[|st.responses|];
      if st'.sentIDs != st.sentIDs {
        assert st'.sent == RecordSent(st, channel, r.ephemeral).sent;
      }
      KeepsAnswer(setting, st, st', r);
    }
  }

  lemma {:induction false} WithoutUniqueKeeps(runs: seq<Scheduled>, command: int, key: string)
    ensures var kept := WithoutUnique(runs, command, key);
            && (forall s :: s in kept <==> s in runs && !IsUniqueRun(s, command, key))
            && (UniqueKeys(runs) ==> UniqueKeys(kept))
  {
    if runs != [] {
      WithoutUniqueKeeps(runs[1..], command, key);
      assert runs == [runs[0]] + runs[1..];
      var kept := WithoutUnique(runs, command, key);
      if UniqueKeys(runs) {
        forall i, j | 0 <= i < j < |kept| && kept[i].key.Some?
          ensures kept[i].command != kept[j].command || kept[i].key != kept[j].key
        {
          var rest := WithoutUnique(runs[1..], command, key);
          if !IsUniqueRun(runs[0], command, key) {
            assert kept[j] == rest[j - 1];
            if i == 0 {
              assert kept[j] in runs[1..];
              var m :| 0 <= m < |runs[1..]| && runs[1..][m] == kept[j];
              assert runs[m + 1] == kept[j];
            } else {
              assert kept[i] == rest[i - 1];
            }
          }
        }
      }
    }
  }

  /** Scheduling under a key leaves it the only run of its command and key. */
  lemma ScheduleKeeps(setting: Setting, st: State, command: int, channel: int, delay: int, key: Option<string>)
    requires Sane(st)
    ensures Keeps(setting, st, Schedule(setting, st, command, channel, delay, key))
  {
    var st' := Schedule(setting, st, command, channel, delay, key);
    assert FreshResponses(st, st') == [] && FreshSent(st, st') == [];
    if key.Some? && UniqueKeys(st.scheduled) {
      WithoutUniqueKeeps(st.scheduled, command, key.value);
      var kept := WithoutUnique(st.scheduled, command, key.value);
      assert forall i :: 0 <= i < |kept| ==> kept[i] in kept;
    }
  }

  lemma CancelKeeps(setting: Setting, st: State, command: int, key: string)
    requires Sane(st)
    ensures Keeps(setting, st, st.(scheduled := WithoutUnique(st.scheduled, command, key)))
  {
    var st' := st.(scheduled := WithoutUnique(st.scheduled, command, key));
    assert FreshResponses(st, st') == [] && FreshSent(st, st') == [];
    WithoutUniqueKeeps(st.scheduled, command, key);
  }

  /** What a child keeps from its own start, its caller keeps from the call. */
  lemma MergeKeeps(setting: Setting, st: State, child: State)
    requires Sane(st) && Keeps(setting, ChildStart(st), child)
    ensures Keeps(setting, st, Merge(st, child))
  {
    hide UniqueKeys, Drive;
    var start, end := ChildStart(st), Merge(st, child);
    assert FreshResponses(st, end) == child.responses == FreshResponses(start, child);
    assert FreshSent(st, end) == child.sent == FreshSent(start, child);
  }

  // ---------------------------------------------------------------- whole runs

  lemma {:induction false} StepsKeep(setting: Setting, st: State, steps: seq<Step>, channel: int, depth: nat)
    requires Sane(st)
    ensures Keeps(setting, st, Steps(setting, st, steps, channel, depth).st)
    decreases steps, 1
  {
    hide Do, Keeps;
    if steps == [] {
      KeepsSame(setting, st, st);
    } else {
      var a := Do(setting, st, steps[0], channel, depth);
      DoKeeps(setting, st, steps[0], channel, depth);
      KeepsSane(setting, st, a.st);
      if !(a.failed && !steps[0].inTry) {
        StepsKeep(setting, a.st, steps[1..], channel, depth);
        KeepsTransitive(setting, st, a.st, Steps(setting, a.st, steps[1..], channel, depth).st);
      }
    }
  }

  lemma KeepsSane(setting: Setting, st: State, st': State)
    requires Keeps(setting, st, st')
    ensures Sane(st')
  {
  }

  lemma {:induction false} DoKeeps(setting: Setting, st: State, step: Step, channel: int, depth: nat)
    requires Sane(st)
    ensures Keeps(setting, st, Do(setting, st, step, channel, depth).st)
    decreases step, 1
  {
    hide Perform, Keeps;
    PerformKeeps(setting, st, step, channel, depth);
    var limit := LimitOf(step.call);
    if limit.Some? {
      var counted := Counted(st, limit.value);
      KeepsSame(setting, st, counted);
      PerformKeeps(setting, counted, step, channel, depth);
      KeepsTransitive(setting, st, counted, Perform(setting, counted, step, channel, depth).st);
    }
  }

  lemma {:induction false} PerformKeeps(setting: Setting, st: State, step: Step, channel: int, depth: nat)
    requires Sane(st)
    ensures Keeps(setting, st, Perform(setting, st, step, channel, depth).st)
    decreases step, 0
  {
    hide Keeps, Child, DoSendResponse, DoUpdateMessage, DoSendModal, RecordSent, Schedule, Merge, ChildStart;
    var call := step.call;
    KeepsSame(setting, st, st);
    if call.SendResponse? {
      SendResponseKeeps(setting, st, call, step.inTry, channel);
    } else if call.UpdateMessage? {
      UpdateMessageKeeps(setting, st, call, step.inTry);
    } else if call.SendModal? {
      SendModalKeeps(setting, st, call, step.inTry);
    } else if call.SendMessage? {
      KeepsRecordSent(setting, st, call.channel, false);
    } else if call.ScheduleUnique? {
      ScheduleKeeps(setting, st, call.command, call.channel, call.delay, Some(call.key));
    } else if call.CancelUnique? {
      CancelKeeps(setting, st, call.command, call.key);
    } else if call.ExecCC? {
      ScheduleKeeps(setting, st, call.command, call.channel, call.delay, None);
      SaneStart(st);
      ChildKeeps(setting, ChildStart(st), call.child, call.channel, depth + 1);
      MergeKeeps(setting, st, Child(setting, ChildStart(st), call.child, call.channel, depth + 1));
    } else {
      KeepsSame(setting, st, Perform(setting, st, step, channel, depth).st);
    }
  }

  lemma SaneStart(st: State)
    requires Sane(st)
    ensures Sane(ChildStart(st))
  {
  }

  lemma {:induction false} ChildKeeps(setting: Setting, st: State, script: Script, channel: int, depth: nat)
    requires Sane(st)
    ensures Keeps(setting, st, Child(setting, st, script, channel, depth))
    decreases script, 3
  {
    hide Keeps, Execute, RecordSent;
    var e := Execute(setting, st, script, channel, depth);
    ExecuteKeeps(setting, st, script, channel, depth);
    KeepsSane(setting, st, e.st);
    KeepsRecordSent(setting, e.st, channel, false);
    KeepsTransitive(setting, st, e.st, RecordSent(e.st, channel, false));
  }

  lemma {:induction false} ExecuteKeeps(setting: Setting, st: State, script: Script, channel: int, depth: nat)
    requires Sane(st)
    ensures Keeps(setting, st, Execute(setting, st, script, channel, depth).st)
    decreases script, 2
  {
    hide Keeps, Steps, Finish;
    var a := Steps(setting, st, script.steps, channel, depth);
    var failed := a.failed || script.fails;
    var out := script.prints && (failed || !DropsResponse(a.st));
    StepsKeep(setting, st, script.steps, channel, depth);
    KeepsSane(setting, st, a.st);
    FinishKeeps(setting, a.st, script, channel, depth, failed, out);
    KeepsTransitive(setting, st, a.st, Finish(setting, a.st, script, channel, depth, failed, out).st);
  }

  lemma FinishKeeps(setting: Setting, st: State, script: Script, channel: int, depth: nat, failed: bool, out: bool)
    requires Sane(st)
    ensures Keeps(setting, st, Finish(setting, st, script, channel, depth, failed, out).st)
  {
    hide Keeps, RespondWithOutput, RecordSent;
    var responds := out && (!failed || !script.showErrors) && !DropsResponse(st);
    KeepsSame(setting, st, st);
    var a := st;
    if setting.hasInteraction && responds {
      a := RespondWithOutput(setting, st, channel);
      RespondKeeps(setting, st, channel);
      KeepsSane(setting, st, a);
    }
    var b := if setting.hasInteraction && depth == 0 then WarnUnanswered(setting, a) else a;
    KeepsSame(setting, a, b);
    KeepsTransitive(setting, st, a, b);
    var to := if script.errorChannel != 0 then script.errorChannel else channel;
    KeepsRecordSent(setting, b, to, false);
    KeepsTransitive(setting, st, b, RecordSent(b, to, false));
  }

  // ---------------------------------------------------------------- a top-level run

  /** A run as the test starts it: a defer mode answers and defers the interaction before the run, and
      a delayed run may find it answered. */
  function Start(respondedTo: bool, deferred: bool, scheduled: seq<Scheduled>): State
    requires deferred ==> respondedTo
  {
    State(respondedTo, deferred, 0, scheduled, map[], false, None, [], [], [], 1)
  }

  predicate IsFirst(k: Kind) {
    k.Message? || k.Update? || k.Modal?
  }

  lemma {:induction false} DriveUnanswered(log: seq<Response>)
    requires Drive(Unanswered, log).Some?
    ensures log != [] ==> IsFirst(log[0].kind) && Drive(Unanswered, log) == Some(Answered)
    ensures log == [] ==> Drive(Unanswered, log) == Some(Unanswered)
    ensures forall i :: 1 <= i < |log| ==> log[i].kind.Followup?
    decreases |log|
  {
    if log != [] {
      DriveUnanswered(log[..|log| - 1]);
    }
  }

  lemma {:induction false} DriveDeferred(log: seq<Response>)
    requires Drive(Open, log).Some?
    ensures forall i :: 0 <= i < |log| ==> log[i].kind.Followup? || log[i].kind.DeferredEdit?
    ensures forall i, j :: 0 <= i < j < |log| && log[i].kind.DeferredEdit? ==> log[j].kind.Followup?
    ensures Drive(Open, log) == Some(if exists r :: r in log && r.kind.DeferredEdit? then Answered else Open)
    decreases |log|
  {
    if log != [] {
      var rest, last := log[..|log| - 1], log[|log| - 1];
      DriveDeferred(rest);
      assert log == rest + [last];
      if exists r :: r in rest && r.kind.DeferredEdit? {
        var r :| r in rest && r.kind.DeferredEdit?;
        assert r in log && last.kind.Followup?;
      } else if last.kind.DeferredEdit? {
        assert last in log;
      } else {
        assert forall r :: r in log ==> r in rest || r == last;
      }
    }
  }

  lemma {:induction false} DriveAnswered(log: seq<Response>)
    requires Drive(Answered, log).Some?
    ensures forall i :: 0 <= i < |log| ==> log[i].kind.Followup?
    ensures Drive(Answered, log) == Some(Answered)
    decreases |log|
  {
    if log != [] {
      DriveAnswered(log[..|log| - 1]);
    }
  }

  /** Over a whole run and the runs it executes, an interaction that starts unanswered gets at most one
      message, update or modal, always first, and only followups after it; it stays unanswered exactly
      when it gets nothing. */
  lemma OneFirstAnswer(setting: Setting, scheduled: seq<Scheduled>, script: Script, channel: int)
    ensures var st := Execute(setting, Start(false, false, scheduled), script, channel, 0).st;
            && (forall i :: 0 <= i < |st.responses| ==>
                  if i == 0 then IsFirst(st.responses[i].kind) else st.responses[i].kind.Followup?)
            && (st.respondedTo <==> st.responses != [])
            && !st.deferred
  {
    hide Execute, UniqueKeys;
    var start := Start(false, false, scheduled);
    var st := Execute(setting, start, script, channel, 0).st;
    ExecuteKeeps(setting, start, script, channel, 0);
    assert FreshResponses(start, st) == st.responses;
    DriveUnanswered(st.responses);
  }

  /** One that starts deferred gets none of those and at most one edit of the deferral, which is what
      ends the deferral; when the deferral failed it gets nothing at all. */
  lemma OneDeferredEdit(setting: Setting, scheduled: seq<Scheduled>, script: Script, channel: int)
    requires setting.hasInteraction
    ensures var st := Execute(setting, Start(true, true, scheduled), script, channel, 0).st;
            && (forall r :: r in st.responses ==> r.kind.Followup? || r.kind.DeferredEdit?)
            && (forall i, j :: 0 <= i < j < |st.responses| && st.responses[i].kind.DeferredEdit? ==>
                  st.responses[j].kind.Followup?)
            && st.respondedTo
            && (st.deferred <==> forall r :: r in st.responses ==> !r.kind.DeferredEdit?)
            && (setting.mode.DeferUpdate? && !setting.hasMessage ==> st.responses == [])
  {
    hide Execute, UniqueKeys;
    var start := Start(true, true, scheduled);
    var st := Execute(setting, start, script, channel, 0).st;
    ExecuteKeeps(setting, start, script, channel, 0);
    assert FreshResponses(start, st) == st.responses;
    DriveDeferred(st.responses);
  }

  /** One that starts answered, as a delayed run may find it, gets followups only. */
  lemma OnlyFollowups(setting: Setting, scheduled: seq<Scheduled>, script: Script, channel: int)
    ensures var st := Execute(setting, Start(true, false, scheduled), script, channel, 0).st;
            && (forall r :: r in st.responses ==> r.kind.Followup?)
            && st.respondedTo && !st.deferred
  {
    hide Execute, UniqueKeys;
    var start := Start(true, false, scheduled);
    var st := Execute(setting, start, script, channel, 0).st;
    ExecuteKeeps(setting, start, script, channel, 0);
    assert FreshResponses(start, st) == st.responses;
    DriveAnswered(st.responses);
  }

  /** A run without an interaction answers nothing. */
  lemma NothingToAnswer(setting: Setting, scheduled: seq<Scheduled>, script: Script, channel: int)
    requires !setting.hasInteraction
    ensures Execute(setting, Start(false, false, scheduled), script, channel, 0).st.responses == []
  {
    hide Execute, UniqueKeys, Drive;
    var start := Start(false, false, scheduled);
    var st := Execute(setting, start, script, channel, 0).st;
    ExecuteKeeps(setting, start, script, channel, 0);
    assert FreshResponses(start, st) == st.responses;
  }

  /** What the responses of a top-level run are, by how its interaction starts and ends. */
  predicate Answers(respondedTo: bool, deferred: bool, responses: seq<Response>, respondedTo': bool, deferred': bool) {
    if !respondedTo then
      && (forall i :: 0 <= i < |responses| ==>
            if i == 0 then IsFirst(responses[i].kind) else responses[i].kind.Followup?)
      && (respondedTo' <==> responses != [])
      && !deferred'
    else if !deferred then
      (forall r :: r in responses ==> r.kind.Followup?) && respondedTo' && !deferred'
    else
      && (forall r :: r in responses ==> r.kind.Followup? || r.kind.DeferredEdit?)
      && (forall i, j :: 0 <= i < j < |responses| && responses[i].kind.DeferredEdit? ==> responses[j].kind.Followup?)
      && respondedTo'
      && (deferred' <==> forall r :: r in responses ==> !r.kind.DeferredEdit?)
  }

  lemma RunAnswers(setting: Setting, respondedTo: bool, deferred: bool, scheduled: seq<Scheduled>, script: Script,
                   channel: int)
    requires (deferred ==> respondedTo) && (respondedTo ==> setting.hasInteraction)
    ensures var st := Execute(setting, Start(respondedTo, deferred, scheduled), script, channel, 0).st;
            Answers(respondedTo, deferred, st.responses, st.respondedTo, st.deferred)
  {
    hide Execute;
    if !respondedTo {
      OneFirstAnswer(setting, scheduled, script, channel);
    } else if deferred {
      OneDeferredEdit(setting, scheduled, script, channel);
    } else {
      OnlyFollowups(setting, scheduled, script, channel);
    }
  }

  /** Every answer of a top-level run holds a message the run, or a run it executed, sent. */
  lemma AnswersAreSent(setting: Setting, respondedTo: bool, deferred: bool, scheduled: seq<Scheduled>,
                       script: Script, channel: int)
    requires deferred ==> respondedTo
    ensures var st := Execute(setting, Start(respondedTo, deferred, scheduled), script, channel, 0).st;
            AllLinked(setting, st.responses, st.sent)
  {
    hide Execute, UniqueKeys, Drive;
    var start := Start(respondedTo, deferred, scheduled);
    var st := Execute(setting, start, script, channel, 0).st;
    ExecuteKeeps(setting, start, script, channel, 0);
    assert FreshResponses(start, st) == st.responses && FreshSent(start, st) == st.sent;
  }

  /** respondedTo never falls and deferred never rises, over any stretch of a run. */
  lemma FlagsAreMonotone(setting: Setting, st: State, steps: seq<Step>, channel: int, depth: nat)
    requires Sane(st)
    ensures var st' := Steps(setting, st, steps, channel, depth).st;
            (st.respondedTo ==> st'.respondedTo) && (st'.deferred ==> st.deferred)
  {
    hide Steps, UniqueKeys;
    var st' := Steps(setting, st, steps, channel, depth).st;
    StepsKeep(setting, st, steps, channel, depth);
    var log := FreshResponses(st, st');
    match StageOf(st) {
      case Unanswered => DriveUnanswered(log);
      case Open => DriveDeferred(log);
      case Answered => DriveAnswered(log);
    }
  }

  /** The messages of the whole tree, in the order they are merged, have the numbers 1, 2, 3, ... */
  lemma MessagesAreNumbered(setting: Setting, st: State, script: Script, channel: int)
    requires Sane(st) && st.sentIDs == 0 && st.sent == []
    ensures var end := Execute(setting, st, script, channel, 0).st;
            && |end.sent| == end.sentIDs
            && forall i :: 0 <= i < |end.sent| ==> end.sent[i].id == FIRST_SENT_MESSAGE_ID + i + 1
  {
    hide Execute, UniqueKeys, Drive;
    ExecuteKeeps(setting, st, script, channel, 0);
    var end := Execute(setting, st, script, channel, 0).st;
    assert FreshSent(st, end) == end.sent;
  }

  /** At most one scheduled run per command and unique key, over the whole tree. */
  lemma UniqueKeysKept(setting: Setting, st: State, script: Script, channel: int)
    requires Sane(st) && UniqueKeys(st.scheduled)
    ensures UniqueKeys(Execute(setting, st, script, channel, 0).st.scheduled)
  {
    hide Execute, UniqueKeys, Drive;
    ExecuteKeeps(setting, st, script, channel, 0);
  }

  // ---------------------------------------------------------------- how many runs

  /** The most runs a run at this depth can come to, with n children each. */
  function MostRuns(n: nat, depth: nat): nat
    decreases MAX_DEPTH - depth
  {
    if depth >= MAX_DEPTH then 1 else 1 + n * MostRuns(n, depth + 1)
  }

  function Spare(setting: Setting, st: State): nat {
    var n, used := Limit(setting, RunCC), Count(st, RunCC);
    if used >= n then 0 else n - used
  }

  /** The runs so far and those the counter still allows. */
  function Reach(setting: Setting, st: State, depth: nat): nat {
    st.runs + if depth >= MAX_DEPTH then 0 else Spare(setting, st) * MostRuns(Limit(setting, RunCC), depth + 1)
  }

  lemma ReachFalls(setting: Setting, st: State, st': State, depth: nat)
    requires st'.runs == st.runs && Count(st', RunCC) >= Count(st, RunCC)
    ensures Reach(setting, st', depth) <= Reach(setting, st, depth)
  {
    var m := MostRuns(Limit(setting, RunCC), depth + 1);
    Multiply(Spare(setting, st'), Spare(setting, st), m);
  }

  lemma Multiply(a: nat, b: nat, m: nat)
    requires a <= b
    ensures a * m <= b * m
  {
    assert b * m - a * m == (b - a) * m;
  }

  lemma {:induction false} StepsReach(setting: Setting, st: State, steps: seq<Step>, channel: int, depth: nat)
    requires setting.strict
    ensures Reach(setting, Steps(setting, st, steps, channel, depth).st, depth) <= Reach(setting, st, depth)
    decreases steps, 1
  {
    hide Do, Reach;
    if steps != [] {
      DoReach(setting, st, steps[0], channel, depth);
      StepsReach(setting, Do(setting, st, steps[0], channel, depth).st, steps[1..], channel, depth);
    }
  }

  /** Calls that run nothing leave the runs as they are, no counter falls, and none warns of an answer. */
  lemma PerformFrame(setting: Setting, st: State, step: Step, channel: int, depth: nat)
    ensures var st' := Perform(setting, st, step, channel, depth).st;
            && st'.warnings == st.warnings
            && Count(st', RunCC) >= Count(st, RunCC)
            && (!step.call.ExecCC? ==> st'.runs == st.runs)
  {
    hide WithoutUnique, Child, DoSendResponse, DoUpdateMessage, DoSendModal, DoSendMessage, CarriedInteraction;
    var call := step.call;
    if call.SendResponse? {
      SendResponseFrame(setting, st, call, step.inTry, channel);
    } else if call.UpdateMessage? {
      UpdateMessageFrame(setting, st, call, step.inTry);
    } else if call.SendModal? {
      SendModalFrame(setting, st, call, step.inTry);
    } else if call.SendMessage? {
      SendMessageFrame(setting, st, call, step.inTry);
    }
  }

  lemma SendResponseFrame(setting: Setting, st: State, call: Call, inTry: bool, channel: int)
    requires call.SendResponse?
    ensures var st' := DoSendResponse(setting, st, call, inTry, channel).st;
            st'.warnings == st.warnings && Count(st', RunCC) == Count(st, RunCC) && st'.runs == st.runs
  {
  }

  lemma UpdateMessageFrame(setting: Setting, st: State, call: Call, inTry: bool)
    requires call.UpdateMessage?
    ensures var st' := DoUpdateMessage(setting, st, call, inTry).st;
            st'.warnings == st.warnings && Count(st', RunCC) == Count(st, RunCC) && st'.runs == st.runs
  {
  }

  lemma SendModalFrame(setting: Setting, st: State, call: Call, inTry: bool)
    requires call.SendModal?
    ensures var st' := DoSendModal(setting, st, call, inTry).st;
            st'.warnings == st.warnings && Count(st', RunCC) == Count(st, RunCC) && st'.runs == st.runs
  {
  }

  lemma SendMessageFrame(setting: Setting, st: State, call: Call, inTry: bool)
    requires call.SendMessage?
    ensures var st' := DoSendMessage(setting, st, call, inTry).st;
            st'.warnings == st.warnings && Count(st', RunCC) == Count(st, RunCC) && st'.runs == st.runs
  {
  }

  lemma DoFrame(setting: Setting, st: State, step: Step, channel: int, depth: nat)
    ensures var st' := Do(setting, st, step, channel, depth).st;
            && st'.warnings == st.warnings
            && Count(st', RunCC) >= Count(st, RunCC)
            && (!step.call.ExecCC? ==> st'.runs == st.runs)
  {
    hide Perform;
    PerformFrame(setting, st, step, channel, depth);
    if LimitOf(step.call).Some? {
      PerformFrame(setting, Counted(st, LimitOf(step.call).value), step, channel, depth);
    }
  }

  lemma {:induction false} DoReach(setting: Setting, st: State, step: Step, channel: int, depth: nat)
    requires setting.strict
    ensures Reach(setting, Do(setting, st, step, channel, depth).st, depth) <= Reach(setting, st, depth)
    decreases step, 1
  {
    hide Reach, Do;
    if step.call.ExecCC? {
      ExecReach(setting, st, step, channel, depth);
    } else {
      DoFrame(setting, st, step, channel, depth);
      ReachFalls(setting, st, Do(setting, st, step, channel, depth).st, depth);
    }
  }

  lemma {:induction false} ExecReach(setting: Setting, st: State, step: Step, channel: int, depth: nat)
    requires setting.strict && step.call.ExecCC?
    ensures Reach(setting, Do(setting, st, step, channel, depth).st, depth) <= Reach(setting, st, depth)
    decreases step, 0
  {
    hide Child, Schedule, MostRuns, Reach;
    var counted := Counted(st, RunCC);
    var call := step.call;
    var st' := Do(setting, st, step, channel, depth).st;
    ReachFalls(setting, st, counted, depth);
    ScheduleRuns(setting, counted, call.command, call.channel, call.delay);
    if OverLimit(setting, counted, RunCC) {
      assert st' == counted;
    } else if depth >= MAX_DEPTH || st'.runs == counted.runs {
      DoFrame(setting, st, step, channel, depth);
      ReachFalls(setting, st, st', depth);
    } else {
      var child := Child(setting, ChildStart(counted), call.child, call.channel, depth + 1);
      ChildRuns(setting, ChildStart(counted), call.child, call.channel, depth + 1);
      assert st' == Perform(setting, counted, step, channel, depth).st;
      assert st' == Merge(counted, child);
      ReachChild(setting, st, child, depth);
    }
  }

  lemma ScheduleRuns(setting: Setting, st: State, command: int, channel: int, delay: int)
    ensures Schedule(setting, st, command, channel, delay, None).runs == st.runs
  {
  }

  lemma ReachChild(setting: Setting, st: State, child: State, depth: nat)
    requires depth < MAX_DEPTH && !OverLimit(setting, Counted(st, RunCC), RunCC)
    requires child.runs <= MostRuns(Limit(setting, RunCC), depth + 1)
    ensures Reach(setting, Merge(Counted(st, RunCC), child), depth) <= Reach(setting, st, depth)
  {
    hide MostRuns;
    var m, end := MostRuns(Limit(setting, RunCC), depth + 1), Merge(Counted(st, RunCC), child);
    assert Spare(setting, st) == Spare(setting, end) + 1;
    assert Spare(setting, st) * m == Spare(setting, end) * m + m;
  }

  lemma {:induction false} ChildRuns(setting: Setting, st: State, script: Script, channel: int, depth: nat)
    requires setting.strict && st.runs == 1 && st.counters == map[]
    ensures Child(setting, st, script, channel, depth).runs <= MostRuns(Limit(setting, RunCC), depth)
    decreases script, 3
  {
    hide Execute;
    ExecuteRuns(setting, st, script, channel, depth);
  }

  lemma {:induction false} ExecuteRuns(setting: Setting, st: State, script: Script, channel: int, depth: nat)
    requires setting.strict && st.runs == 1 && st.counters == map[]
    ensures Execute(setting, st, script, channel, depth).st.runs <= MostRuns(Limit(setting, RunCC), depth)
    decreases script, 2
  {
    hide Steps, Finish, MostRuns;
    var a := Steps(setting, st, script.steps, channel, depth);
    var failed := a.failed || script.fails;
    StepsReach(setting, st, script.steps, channel, depth);
    FinishRuns(setting, a.st, script, channel, depth, failed, script.prints && (failed || !DropsResponse(a.st)));
    ReachStart(setting, st, a.st, depth);
  }

  lemma FinishRuns(setting: Setting, st: State, script: Script, channel: int, depth: nat, failed: bool, out: bool)
    ensures Finish(setting, st, script, channel, depth, failed, out).st.runs == st.runs
  {
    hide DropsResponse;
  }

  lemma ReachStart(setting: Setting, st: State, st': State, depth: nat)
    requires st.runs == 1 && st.counters == map[]
    requires Reach(setting, st', depth) <= Reach(setting, st, depth)
    ensures st'.runs <= MostRuns(Limit(setting, RunCC), depth)
  {
    assert Spare(setting, st) == Limit(setting, RunCC);
    Multiply(0, Spare(setting, st'), MostRuns(Limit(setting, RunCC), depth + 1));
  }

  /** With -strict, one top-level run comes to at most 1 + n + n * n runs, n being the runcc limit:
      3 without premium, 111 with it. */
  lemma TreeIsBounded(setting: Setting, respondedTo: bool, deferred: bool, scheduled: seq<Scheduled>, script: Script,
                      channel: int)
    requires setting.strict && (deferred ==> respondedTo)
    ensures var end := Execute(setting, Start(respondedTo, deferred, scheduled), script, channel, 0).st;
            end.runs <= if setting.premium then 111 else 3
  {
    hide Execute;
    ExecuteRuns(setting, Start(respondedTo, deferred, scheduled), script, channel, 0);
    assert MostRuns(1, 1) == 2 && MostRuns(1, 0) == 3;
    assert MostRuns(10, 1) == 11 && MostRuns(10, 0) == 111;
  }

  // ---------------------------------------------------------------- the warnings at the end

  /** No child warns of an unanswered interaction: only the top-level run's end does. */
  lemma {:induction false} StepsDoNotWarn(setting: Setting, st: State, steps: seq<Step>, channel: int, depth: nat)
    ensures Steps(setting, st, steps, channel, depth).st.warnings == st.warnings
    decreases steps, 1
  {
    hide Do;
    if steps != [] {
      DoFrame(setting, st, steps[0], channel, depth);
      StepsDoNotWarn(setting, Do(setting, st, steps[0], channel, depth).st, steps[1..], channel, depth);
    }
  }

  lemma RespondWarns(setting: Setting, st: State, channel: int)
    ensures var st' := RespondWithOutput(setting, st, channel);
            st'.warnings == st.warnings || st'.warnings == st.warnings + [NoMessageToEdit]
  {
  }

  lemma RecordSentFrame(st: State, channel: int, ephemeral: bool)
    ensures var st' := RecordSent(st, channel, ephemeral);
            && st'.warnings == st.warnings && st'.runs == st.runs
            && st'.respondedTo == st.respondedTo && st'.deferred == st.deferred
  {
  }

  lemma FinishEnds(setting: Setting, st: State, script: Script, channel: int, failed: bool, out: bool)
    requires setting.hasInteraction
    ensures var end := Finish(setting, st, script, channel, 0, failed, out).st;
            var responds := out && (!failed || !script.showErrors) && !DropsResponse(st);
            var b := WarnUnanswered(setting, if responds then RespondWithOutput(setting, st, channel) else st);
            end.warnings == b.warnings && end.respondedTo == b.respondedTo && end.deferred == b.deferred
  {
    hide RespondWithOutput, DropsResponse, RecordSent, WarnUnanswered;
    var responds := out && (!failed || !script.showErrors) && !DropsResponse(st);
    var b := WarnUnanswered(setting, if responds then RespondWithOutput(setting, st, channel) else st);
    RecordSentFrame(b, if script.errorChannel != 0 then script.errorChannel else channel, false);
  }

  lemma FinishWarns(setting: Setting, st: State, script: Script, channel: int, failed: bool, out: bool)
    requires setting.hasInteraction && st.warnings == []
    ensures var end := Finish(setting, st, script, channel, 0, failed, out).st;
            && (NeverAnswered in end.warnings <==> !end.respondedTo)
            && (NeverFilled in end.warnings <==> end.respondedTo && end.deferred && !setting.mode.DeferUpdate?)
  {
    hide RespondWithOutput, Finish;
    FinishEnds(setting, st, script, channel, failed, out);
    RespondWarns(setting, st, channel);
  }

  /** The warnings tell the truth: "did not respond" is shown exactly when an unanswered interaction
      gets no answer, and a never filled deferral exactly when a deferred message gets no edit. */
  lemma WarningsAreExact(setting: Setting, respondedTo: bool, deferred: bool, scheduled: seq<Scheduled>,
                         script: Script, channel: int)
    requires setting.hasInteraction && (deferred ==> respondedTo)
    ensures var st := Execute(setting, Start(respondedTo, deferred, scheduled), script, channel, 0).st;
            && (NeverAnswered in st.warnings <==> !respondedTo && st.responses == [])
            && (NeverFilled in st.warnings <==>
                  deferred && !setting.mode.DeferUpdate? && forall r :: r in st.responses ==> !r.kind.DeferredEdit?)
  {
    hide Steps, Finish, UniqueKeys;
    var start := Start(respondedTo, deferred, scheduled);
    var a := Steps(setting, start, script.steps, channel, 0);
    var failed := a.failed || script.fails;
    StepsDoNotWarn(setting, start, script.steps, channel, 0);
    FinishWarns(setting, a.st, script, channel, failed, script.prints && (failed || !DropsResponse(a.st)));
    RunAnswers(setting, respondedTo, deferred, scheduled, script, channel);
  }

  /** A run that prints, does not fail and keeps its response leaves the interaction answered and no
      deferral open, unless the deferral itself failed. */
  lemma PrintingAnswers(setting: Setting, st: State, script: Script, channel: int, depth: nat)
    requires setting.hasInteraction && Sane(st)
    requires var a := Steps(setting, st, script.steps, channel, depth);
             script.prints && !script.fails && !a.failed && !DropsResponse(a.st) && !DeferralFailed(setting, a.st)
    ensures var end := Execute(setting, st, script, channel, depth).st;
            end.respondedTo && !end.deferred && |end.responses| > |st.responses|
  {
    hide Steps, Drive, UniqueKeys;
    StepsKeep(setting, st, script.steps, channel, depth);
  }
}
