/** What every call of a custom command's run does when nothing stands against it, and that it does nothing
    but count otherwise, field by field; and what becomes of a run's output. */
module Effects {

  import opened Basics
  import opened Interactions

  // ---------------------------------------------------------------- what stands against a call

  /** With -strict and inside a try what YAGPDB or Discord refuses is refused; elsewhere it is a warning. */
  predicate Lenient(setting: Setting, inTry: bool) {
    !setting.strict && !inTry
  }

  function RunsAllowed(setting: Setting): nat {
    if setting.premium then 10 else 1
  }

  predicate MayRun(setting: Setting, st: State, inTry: bool) {
    Count(st, RunCC) < RunsAllowed(setting) || Lenient(setting, inTry)
  }

  predicate MayCall(setting: Setting, st: State, inTry: bool) {
    Count(st, ApiCall) < 100 || Lenient(setting, inTry)
  }

  /** A deferred update of no message cannot be followed up. */
  predicate NothingToEdit(setting: Setting, st: State) {
    st.deferred && setting.mode.DeferUpdate? && !setting.hasMessage
  }

  predicate Responds(setting: Setting, st: State, call: Call, inTry: bool)
    requires call.SendResponse?
  {
    && setting.hasInteraction && call.token.Mine? && call.components
    && (call.valid || Lenient(setting, inTry))
    && MayCall(setting, st, inTry)
    && if st.respondedTo then !NothingToEdit(setting, st) else Count(st, InteractionResponse) < 1
  }

  predicate Updates(setting: Setting, st: State, call: Call, inTry: bool)
    requires call.UpdateMessage?
  {
    && setting.hasInteraction && setting.hasMessage && !st.respondedTo && call.components
    && (call.valid || Lenient(setting, inTry))
    && MayCall(setting, st, inTry)
    && Count(st, InteractionResponse) < 1
  }

  predicate Opens(setting: Setting, st: State, call: Call, inTry: bool)
    requires call.SendModal?
  {
    && setting.hasInteraction && !setting.isModalSubmit && !st.respondedTo && call.wellFormed
    && MayCall(setting, st, inTry)
    && Count(st, ModalCount) < 1 && Count(st, InteractionResponse) < 1
  }

  predicate Posts(setting: Setting, st: State, call: Call, inTry: bool)
    requires call.SendMessage?
  {
    && call.channel != 0 && call.allowed && call.components
    && (call.valid || Lenient(setting, inTry))
    && (Count(st, ApiCall) < 100 || !setting.strict)
  }

  predicate Plans(setting: Setting, st: State, call: Call, inTry: bool)
    requires call.ScheduleUnique?
  {
    && !call.lookup.Refused? && call.channel != 0 && call.delay > 0 && call.encodes
    && MayRun(setting, st, inTry)
  }

  predicate Cancels(setting: Setting, st: State, call: Call, inTry: bool)
    requires call.CancelUnique?
  {
    Count(st, CancelCC) < 10 || Lenient(setting, inTry)
  }

  predicate Delays(setting: Setting, st: State, call: Call, inTry: bool)
    requires call.ExecCC?
  {
    && !call.lookup.Refused? && call.channel != 0 && call.delay > 0 && call.encodes
    && MayRun(setting, st, inTry)
  }

  predicate Runs(setting: Setting, st: State, call: Call, inTry: bool, depth: nat)
    requires call.ExecCC?
  {
    && call.lookup.Mapped? && call.channel != 0 && call.delay <= 0 && call.header && depth < 2
    && MayRun(setting, st, inTry)
  }

  // ---------------------------------------------------------------- what a call does

  /** The next message: numbers go up by one from 1,100,000,000,000,000,001. */
  function NextMessage(st: State, channel: int, ephemeral: bool): Sent {
    Sent(1_100_000_000_000_000_000 + st.sentIDs + 1, channel, ephemeral)
  }

  /** The interaction as a scheduled run will find it. */
  function Stored(setting: Setting, st: State): Carried {
    if setting.hasInteraction then if st.respondedTo then Responded else Pending else NoInteraction
  }

  /** A child begins with the interaction, the numbers and the schedule as they are, and nothing else. */
  function Beginning(st: State): State {
    State(st.respondedTo, st.deferred, st.sentIDs, st.scheduled, map[], false, None, [], [], [], 1)
  }

  /** Without an interaction a child's output is a message, unless its error was shown in its place. */
  predicate PostsOutput(setting: Setting, child: Script, e: Executed) {
    e.out && !setting.hasInteraction && !(e.failed && child.showErrors)
  }

  /** A caller after a child: the shared things as the child left them, the child's messages, answers and
      runs after the caller's own, and the child's output. */
  predicate RanChild(setting: Setting, st: State, child: Script, channel: int, depth: nat, st': State) {
    var e := Execute(setting, Beginning(st), child, channel, depth + 1);
    var posted := if PostsOutput(setting, child, e) then [NextMessage(e.st, channel, false)] else [];
    && st' == State(e.st.respondedTo, e.st.deferred, e.st.sentIDs + |posted|, e.st.scheduled, st'.counters,
                    st.ephemeralResponse, st.deleteDelay, st.responses + e.st.responses, st.sent + e.st.sent + posted,
                    st.warnings, st.runs + e.st.runs)
    && st'.runs > st.runs
  }

  /** The runs scheduled before the last one. */
  function Before(st: State): seq<Scheduled>
    requires st.scheduled != []
  {
    st.scheduled[..|st.scheduled| - 1]
  }

  /** The kept runs are those of some positions in order, and the others all have the command and the key. */
  predicate KeepsAt(runs: seq<Scheduled>, kept: seq<Scheduled>, command: int, key: string, at: seq<nat>) {
    && |at| == |kept|
    && (forall i, j :: 0 <= i < j < |at| ==> at[i] < at[j])
    && (forall i :: 0 <= i < |at| ==> at[i] < |runs| && kept[i] == runs[at[i]])
    && (forall i :: 0 <= i < |runs| ==> (i in at <==> !(runs[i].command == command && runs[i].key == Some(key))))
  }

  ghost predicate Removes(runs: seq<Scheduled>, kept: seq<Scheduled>, command: int, key: string) {
    exists at :: KeepsAt(runs, kept, command, key, at)
  }

  /** A call's effect: all that it changes is what is said here and the counters. */
  ghost predicate HasEffect(setting: Setting, st: State, step: Step, channel: int, depth: nat, st': State,
                            failed: bool)
  {
    var counted, inTry := st.(counters := st'.counters), step.inTry;
    match step.call
    case SendResponse(_, ephemeral, _, _) =>
      if Responds(setting, st, step.call, inTry) then
        var m := NextMessage(st, channel, ephemeral);
        var kind := if st.respondedTo then Followup else Message;
        && !failed
        && st' == counted.(respondedTo := true, sentIDs := st.sentIDs + 1, sent := st.sent + [m],
                           responses := st.responses + [Response(kind, ephemeral, m.id)])
      else
        && st' == counted
        && failed == (|| !MayCall(setting, st, inTry) || step.call.token.Invalid?
                      || (step.call.token.Mine? && (|| !setting.hasInteraction || !Lenient(setting, inTry)
                                                    || (!st.respondedTo && Count(st, InteractionResponse) >= 1))))
    case UpdateMessage(_, _) =>
      if Updates(setting, st, step.call, inTry) then
        !failed && st' == counted.(respondedTo := true,
                                   responses := st.responses + [Response(Update, false, setting.componentMessage)])
      else
        && st' == counted
        && failed == (!Lenient(setting, inTry) || !setting.hasInteraction || Count(st, InteractionResponse) >= 1)
    case SendModal(_) =>
      if Opens(setting, st, step.call, inTry) then
        !failed && st' == counted.(respondedTo := true, responses := st.responses + [Response(Modal, false, 0)])
      else
        && st' == counted
        && failed == (|| !setting.hasInteraction || !Lenient(setting, inTry) || !step.call.wellFormed
                      || Count(st, ModalCount) >= 1 || Count(st, InteractionResponse) >= 1)
    case EphemeralResponse =>
      !failed && st' == st.(ephemeralResponse := st.ephemeralResponse || setting.hasInteraction)
    case DeleteResponse(delay) =>
      !failed && st' == st.(deleteDelay := Some(if delay <= 86400 then delay else 86400))
    case SendMessage(to, _, _, _) =>
      if Posts(setting, st, step.call, inTry) then
        !failed && st' == counted.(sentIDs := st.sentIDs + 1, sent := st.sent + [NextMessage(st, to, false)])
      else
        && st' == counted
        && failed == (!Lenient(setting, inTry) && to != 0 && !(setting.strict && Count(st, ApiCall) >= 100))
    case ScheduleUnique(command, _, to, delay, key, _) =>
      if Plans(setting, st, step.call, inTry) then
        var run := Scheduled(command, to, delay, Some(key), Stored(setting, st));
        && !failed && st'.scheduled != [] && st' == counted.(scheduled := Before(st') + [run])
        && Removes(st.scheduled, Before(st'), command, key)
      else
        && st' == counted
        && failed == (!MayRun(setting, st, inTry) || step.call.lookup.Refused? || to == 0 || delay > 0)
    case CancelUnique(command, key) =>
      if Cancels(setting, st, step.call, inTry) then
        && !failed && st' == counted.(scheduled := st'.scheduled)
        && Removes(st.scheduled, st'.scheduled, command, key)
      else failed && st' == counted
    case ExecCC(command, _, to, delay, _, _, child) =>
      if Delays(setting, st, step.call, inTry) then
        var run := Scheduled(command, to, delay, None, Stored(setting, st));
        !failed && st' == counted.(scheduled := st.scheduled + [run])
      else if Runs(setting, st, step.call, inTry, depth) then !failed && RanChild(setting, st, child, to, depth, st')
      else
        && st' == counted
        && failed == (!MayRun(setting, st, inTry) || !step.call.lookup.Unmapped? || to == 0 || delay > 0 || depth >= 2)
  }

  /** How often a call counts against each limit. */
  predicate Counts(setting: Setting, st: State, step: Step, st': State) {
    var call, answers := step.call, setting.hasInteraction && MayCall(setting, st, step.inTry);
    && Count(st', RunCC) == Count(st, RunCC) + (if call.ExecCC? || call.ScheduleUnique? then 1 else 0)
    && Count(st', CancelCC) == Count(st, CancelCC) + (if call.CancelUnique? then 1 else 0)
    && Count(st', ApiCall) == Count(st, ApiCall)
         + (if || call.SendResponse? || call.SendMessage?
               || ((call.UpdateMessage? || call.SendModal?) && setting.hasInteraction)
            then 1 else 0)
    && Count(st', ModalCount) == Count(st, ModalCount) + (if call.SendModal? && answers then 1 else 0)
    && Count(st', InteractionResponse) == Count(st, InteractionResponse)
         + if answers && (|| (call.SendResponse? && call.token.Mine? && !st.respondedTo) || call.UpdateMessage?
                          || (call.SendModal? && Count(st, ModalCount) < 1))
           then 1 else 0
  }

  // ---------------------------------------------------------------- the calls

  /** A counter goes up by one and the others stay. */
  lemma CountedIs(st: State, c: Counter)
    ensures forall d :: Count(Counted(st, c), d) == Count(st, d) + if d == c then 1 else 0
    ensures Counted(st, c) == st.(counters := Counted(st, c).counters)
  {
  }

  lemma SameCounts(a: State, b: State)
    requires a.counters == b.counters
    ensures forall c :: Count(a, c) == Count(b, c)
  {
  }

  /** The limits: a hundred API calls, ten cancellations, one run or ten with premium, one first answer and
      one modal. */
  lemma LimitsAre(setting: Setting)
    ensures Limit(setting, ApiCall) == 100 && Limit(setting, CancelCC) == 10
      && Limit(setting, RunCC) == RunsAllowed(setting)
    ensures Limit(setting, InteractionResponse) == 1 && Limit(setting, ModalCount) == 1
  {
  }

  /** A call behind a counter is counted, and then made unless the limit is reached. */
  lemma DoLimited(setting: Setting, st: State, step: Step, channel: int, depth: nat, c: Counter)
    requires LimitOf(step.call) == Some(c)
    ensures var room := Count(st, c) < Limit(setting, c);
            var lenient := if step.call.SendMessage? then !setting.strict else Lenient(setting, step.inTry);
            Do(setting, st, step, channel, depth) ==
              if room || lenient then Perform(setting, Counted(st, c), step, channel, depth)
              else After(Counted(st, c), !step.call.SendMessage?)
  {
    hide Perform, Limit, Counted, Count;
    CountedIs(st, c);
  }

  lemma Recorded(st: State, kind: Kind, ephemeral: bool, channel: int)
    ensures var m := NextMessage(st, channel, ephemeral);
            && RecordInteractionMessage(st.(respondedTo := true), kind, ephemeral, channel)
               == st.(respondedTo := true, sentIDs := st.sentIDs + 1, sent := st.sent + [m],
                      responses := st.responses + [Response(kind, ephemeral, m.id)])
            && m == NextMessage(Counted(st, InteractionResponse), channel, ephemeral)
  {
  }

  lemma SendResponseDoes(setting: Setting, st: State, call: Call, inTry: bool, channel: int)
    requires call.SendResponse?
    ensures var a := DoSendResponse(setting, st, call, inTry, channel);
            var room := setting.hasInteraction && call.token.Mine? && call.components
                        && (call.valid || Lenient(setting, inTry))
                        && if st.respondedTo then !NothingToEdit(setting, st) else Count(st, InteractionResponse) < 1;
            && (forall d :: d != InteractionResponse ==> Count(a.st, d) == Count(st, d))
            && Count(a.st, InteractionResponse) == Count(st, InteractionResponse)
                 + (if setting.hasInteraction && call.token.Mine? && !st.respondedTo then 1 else 0)
            && if room then
                 var m := NextMessage(st, channel, call.ephemeral);
                 var kind := if st.respondedTo then Followup else Message;
                 && !a.failed
                 && a.st == st.(counters := a.st.counters, respondedTo := true,
                                sentIDs := st.sentIDs + 1, sent := st.sent + [m],
                                responses := st.responses + [Response(kind, call.ephemeral, m.id)])
               else
                 && a.st == st.(counters := a.st.counters)
                 && a.failed == (|| call.token.Invalid?
                                 || (call.token.Mine? && (|| !setting.hasInteraction || !Lenient(setting, inTry)
                                                          || (!st.respondedTo && Count(st, InteractionResponse) >= 1))))
  {
    hide Counted, Count, Limit, NextMessage, RecordInteractionMessage;
    CountedIs(st, InteractionResponse);
    LimitsAre(setting);
    var first := if st.respondedTo then st else Counted(st, InteractionResponse);
    Recorded(st, Message, call.ephemeral, channel);
    Recorded(first, if st.respondedTo then Followup else Message, call.ephemeral, channel);
    var a := DoSendResponse(setting, st, call, inTry, channel);
    if a.st.counters == st.counters {
      SameCounts(a.st, st);
    } else {
      SameCounts(a.st, Counted(st, InteractionResponse));
    }
  }

  lemma SendResponseEffect(setting: Setting, st: State, step: Step, channel: int, depth: nat)
    requires step.call.SendResponse?
    ensures var a := Do(setting, st, step, channel, depth);
            HasEffect(setting, st, step, channel, depth, a.st, a.failed) && Counts(setting, st, step, a.st)
  {
    hide Do, DoSendResponse, Counted, Count, Limit;
    CountedIs(st, ApiCall);
    LimitsAre(setting);
    DoLimited(setting, st, step, channel, depth, ApiCall);
    SendResponseDoes(setting, Counted(st, ApiCall), step.call, step.inTry, channel);
  }

  lemma UpdateMessageEffect(setting: Setting, st: State, step: Step, channel: int, depth: nat)
    requires step.call.UpdateMessage?
    ensures var a := Do(setting, st, step, channel, depth);
            HasEffect(setting, st, step, channel, depth, a.st, a.failed) && Counts(setting, st, step, a.st)
  {
    hide Counted, Count, Limit;
    CountedIs(st, ApiCall);
    var b := Counted(Counted(st, ApiCall), InteractionResponse);
    CountedIs(Counted(st, ApiCall), InteractionResponse);
    LimitsAre(setting);
    SameCounts(RecordInteractionEdit(setting, b, Update).(respondedTo := true), b);
  }

  lemma SendModalEffect(setting: Setting, st: State, step: Step, channel: int, depth: nat)
    requires step.call.SendModal?
    ensures var a := Do(setting, st, step, channel, depth);
            HasEffect(setting, st, step, channel, depth, a.st, a.failed) && Counts(setting, st, step, a.st)
  {
    hide Counted, Count, Limit;
    CountedIs(st, ApiCall);
    CountedIs(Counted(st, ApiCall), ModalCount);
    var c := Counted(Counted(Counted(st, ApiCall), ModalCount), InteractionResponse);
    CountedIs(Counted(Counted(st, ApiCall), ModalCount), InteractionResponse);
    LimitsAre(setting);
    SameCounts(c.(responses := c.responses + [Response(Modal, false, 0)], respondedTo := true), c);
  }

  lemma SendMessageEffect(setting: Setting, st: State, step: Step, channel: int, depth: nat)
    requires step.call.SendMessage?
    ensures var a := Do(setting, st, step, channel, depth);
            HasEffect(setting, st, step, channel, depth, a.st, a.failed) && Counts(setting, st, step, a.st)
  {
    hide Do, Counted, Count, Limit;
    CountedIs(st, ApiCall);
    LimitsAre(setting);
    DoLimited(setting, st, step, channel, depth, ApiCall);
    CountedIs(st, ApiCall);
    var counted := Counted(st, ApiCall);
    SameCounts(RecordSent(counted, step.call.channel, false), counted);
  }

  lemma {:induction false} WithoutUniqueRemoves(runs: seq<Scheduled>, command: int, key: string)
    ensures Removes(runs, WithoutUnique(runs, command, key), command, key)
  {
    if runs == [] {
      assert KeepsAt(runs, [], command, key, []);
    } else {
      WithoutUniqueRemoves(runs[1..], command, key);
      var kept := WithoutUnique(runs[1..], command, key);
      var at :| KeepsAt(runs[1..], kept, command, key, at);
      var moved := seq(|at|, i requires 0 <= i < |at| => at[i] + 1);
      KeepsAtMoves(runs, kept, command, key, at, moved);
      if !(runs[0].command == command && runs[0].key == Some(key)) {
        KeepsFirst(runs, kept, command, key, moved);
        assert KeepsAt(runs, [runs[0]] + kept, command, key, [0] + moved);
      } else {
        assert KeepsAt(runs, kept, command, key, moved);
      }
    }
  }

  /** What is kept of the rest is kept of the whole, one position further on. */
  lemma KeepsAtMoves(runs: seq<Scheduled>, kept: seq<Scheduled>, command: int, key: string, at: seq<nat>,
                     moved: seq<nat>)
    requires runs != [] && KeepsAt(runs[1..], kept, command, key, at)
    requires |moved| == |at| && forall i :: 0 <= i < |at| ==> moved[i] == at[i] + 1
    ensures forall i, j :: 0 <= i < j < |moved| ==> moved[i] < moved[j]
    ensures forall i :: 0 <= i < |moved| ==> 0 < moved[i] < |runs| && kept[i] == runs[moved[i]]
    ensures forall i :: 0 < i < |runs| ==> (i in moved <==> !(runs[i].command == command && runs[i].key == Some(key)))
  {
    forall i | 0 < i < |runs|
      ensures i in moved <==> !(runs[i].command == command && runs[i].key == Some(key))
    {
      assert runs[i] == runs[1..][i - 1];
      if i in moved {
        var k :| 0 <= k < |moved| && moved[k] == i;
        assert at[k] == i - 1;
      }
      if i - 1 in at {
        var k :| 0 <= k < |at| && at[k] == i - 1;
        assert moved[k] == i;
      }
    }
  }

  lemma KeepsFirst(runs: seq<Scheduled>, kept: seq<Scheduled>, command: int, key: string, moved: seq<nat>)
    requires runs != [] && |moved| == |kept| && !(runs[0].command == command && runs[0].key == Some(key))
    requires forall i, j :: 0 <= i < j < |moved| ==> moved[i] < moved[j]
    requires forall i :: 0 <= i < |moved| ==> 0 < moved[i] < |runs| && kept[i] == runs[moved[i]]
    requires forall i :: 0 < i < |runs| ==> (i in moved <==> !(runs[i].command == command && runs[i].key == Some(key)))
    ensures KeepsAt(runs, [runs[0]] + kept, command, key, [0] + moved)
  {
    var at := [0] + moved;
    forall i | 0 <= i < |runs|
      ensures i in at <==> !(runs[i].command == command && runs[i].key == Some(key))
    {
      assert i in at <==> i == 0 || i in moved;
    }
  }

  lemma ScheduleUniqueEffect(setting: Setting, st: State, step: Step, channel: int, depth: nat)
    requires step.call.ScheduleUnique?
    ensures var a := Do(setting, st, step, channel, depth);
            HasEffect(setting, st, step, channel, depth, a.st, a.failed) && Counts(setting, st, step, a.st)
  {
    hide Do, Counted, Count, Limit, WithoutUnique, Removes;
    CountedIs(st, RunCC);
    LimitsAre(setting);
    DoLimited(setting, st, step, channel, depth, RunCC);
    var counted := Counted(st, RunCC);
    var b := Schedule(setting, counted, step.call.command, step.call.channel, step.call.delay, Some(step.call.key));
    SameCounts(b, counted);
    var kept := WithoutUnique(st.scheduled, step.call.command, step.call.key);
    WithoutUniqueRemoves(st.scheduled, step.call.command, step.call.key);
    assert b.scheduled[..|b.scheduled| - 1] == kept;
  }

  lemma CancelUniqueEffect(setting: Setting, st: State, step: Step, channel: int, depth: nat)
    requires step.call.CancelUnique?
    ensures var a := Do(setting, st, step, channel, depth);
            HasEffect(setting, st, step, channel, depth, a.st, a.failed) && Counts(setting, st, step, a.st)
  {
    hide Do, Counted, Count, Limit, WithoutUnique, Removes;
    CountedIs(st, CancelCC);
    LimitsAre(setting);
    DoLimited(setting, st, step, channel, depth, CancelCC);
    var counted := Counted(st, CancelCC);
    SameCounts(counted.(scheduled := WithoutUnique(st.scheduled, step.call.command, step.call.key)), counted);
    WithoutUniqueRemoves(st.scheduled, step.call.command, step.call.key);
  }

  lemma OwnEffect(setting: Setting, st: State, step: Step, channel: int, depth: nat)
    requires step.call.EphemeralResponse? || step.call.DeleteResponse?
    ensures var a := Do(setting, st, step, channel, depth);
            HasEffect(setting, st, step, channel, depth, a.st, a.failed) && Counts(setting, st, step, a.st)
  {
    var a := Do(setting, st, step, channel, depth);
    assert a == Perform(setting, st, step, channel, depth);
    SameCounts(a.st, st);
  }

  // ---- execCC

  lemma BeginsAsChild(st: State)
    ensures ChildStart(st) == Beginning(st)
  {
  }

  /** No call of a run takes a run back. */
  lemma {:induction false} StepsKeepRuns(setting: Setting, st: State, steps: seq<Step>, channel: int, depth: nat)
    ensures Steps(setting, st, steps, channel, depth).st.runs >= st.runs
    decreases steps, 1
  {
    hide Do;
    if steps != [] {
      DoKeepsRuns(setting, st, steps[0], channel, depth);
      StepsKeepRuns(setting, Do(setting, st, steps[0], channel, depth).st, steps[1..], channel, depth);
    }
  }

  lemma {:induction false} DoKeepsRuns(setting: Setting, st: State, step: Step, channel: int, depth: nat)
    ensures Do(setting, st, step, channel, depth).st.runs >= st.runs
    decreases step, 1
  {
    hide Do, HasEffect, Counts;
    DoHasEffect(setting, st, step, channel, depth);
    EffectKeepsRuns(setting, st, step, channel, depth, Do(setting, st, step, channel, depth));
  }

  lemma EffectKeepsRuns(setting: Setting, st: State, step: Step, channel: int, depth: nat, a: After)
    requires HasEffect(setting, st, step, channel, depth, a.st, a.failed)
    ensures a.st.runs >= st.runs
  {
    hide Responds, Updates, Opens, Posts, Plans, Cancels, Delays, Runs, Execute, Removes, Stored;
  }

  lemma {:induction false} ExecuteKeepsRuns(setting: Setting, st: State, script: Script, channel: int, depth: nat)
    ensures Execute(setting, st, script, channel, depth).st.runs >= st.runs
    decreases script, 2
  {
    hide Steps, Finish;
    var a := Steps(setting, st, script.steps, channel, depth);
    StepsKeepRuns(setting, st, script.steps, channel, depth);
    FinishKeepsRuns(setting, a.st, script, channel, depth, a.failed || script.fails,
                    script.prints && (a.failed || script.fails || !DropsResponse(a.st)));
  }

  lemma FinishKeepsRuns(setting: Setting, st: State, script: Script, channel: int, depth: nat, failed: bool, out: bool)
    ensures Finish(setting, st, script, channel, depth, failed, out).st.runs == st.runs
  {
    hide DropsResponse;
  }

  /** The caller after a child. */
  lemma {:induction false} MergedChild(setting: Setting, st: State, counted: State, child: Script, channel: int,
                                       depth: nat)
    requires counted == st.(counters := counted.counters)
    ensures RanChild(setting, st, child, channel, depth,
                     Merge(counted, Child(setting, ChildStart(counted), child, channel, depth + 1)))
    ensures var end := Child(setting, ChildStart(counted), child, channel, depth + 1);
            forall c :: Count(Merge(counted, end), c) == Count(counted, c)
    decreases child, 3
  {
    hide Execute;
    BeginsAsChild(counted);
    ExecuteKeepsRuns(setting, Beginning(st), child, channel, depth + 1);
    assert Beginning(counted) == Beginning(st);
    var e := Execute(setting, Beginning(st), child, channel, depth + 1);
    assert st.sent + e.st.sent + [] == st.sent + e.st.sent;
    assert st.sent + e.st.sent + [NextMessage(e.st, channel, false)]
        == st.sent + (e.st.sent + [NextMessage(e.st, channel, false)]);
  }

  lemma {:induction false} ExecEffect(setting: Setting, st: State, step: Step, channel: int, depth: nat)
    requires step.call.ExecCC?
    ensures var a := Do(setting, st, step, channel, depth);
            HasEffect(setting, st, step, channel, depth, a.st, a.failed) && Counts(setting, st, step, a.st)
    decreases step, 0, 0
  {
    hide Do, Child, Counted, Count, Limit, RanChild, Merge, ChildStart;
    var call, counted := step.call, Counted(st, RunCC);
    CountedIs(st, RunCC);
    LimitsAre(setting);
    DoLimited(setting, st, step, channel, depth, RunCC);
    MergedChild(setting, st, counted, call.child, call.channel, depth);
    SameCounts(Schedule(setting, counted, call.command, call.channel, call.delay, None), counted);
  }

  /** Every call has its effect. */
  lemma {:induction false} DoHasEffect(setting: Setting, st: State, step: Step, channel: int, depth: nat)
    ensures var a := Do(setting, st, step, channel, depth);
            HasEffect(setting, st, step, channel, depth, a.st, a.failed) && Counts(setting, st, step, a.st)
    decreases step, 0, 1
  {
    hide Do, HasEffect, Counts;
    match step.call
    case SendResponse(_, _, _, _) => SendResponseEffect(setting, st, step, channel, depth);
    case UpdateMessage(_, _) => UpdateMessageEffect(setting, st, step, channel, depth);
    case SendModal(_) => SendModalEffect(setting, st, step, channel, depth);
    case EphemeralResponse => OwnEffect(setting, st, step, channel, depth);
    case DeleteResponse(_) => OwnEffect(setting, st, step, channel, depth);
    case SendMessage(_, _, _, _) => SendMessageEffect(setting, st, step, channel, depth);
    case ScheduleUnique(_, _, _, _, _, _) => ScheduleUniqueEffect(setting, st, step, channel, depth);
    case CancelUnique(_, _) => CancelUniqueEffect(setting, st, step, channel, depth);
    case ExecCC(_, _, _, _, _, _, _) => ExecEffect(setting, st, step, channel, depth);
  }

  // ---------------------------------------------------------------- a run

  /** The states of a run between its calls: every call has its effect, and the calls go on until one fails
      outside a {{try}}. */
  ghost predicate IsRun(setting: Setting, steps: seq<Step>, channel: int, depth: nat, states: seq<State>,
                        fails: seq<bool>,
                  failed: bool)
  {
    && |states| == |fails| + 1 && |fails| <= |steps|
    && (forall i :: 0 <= i < |fails| ==>
          && HasEffect(setting, states[i], steps[i], channel, depth, states[i + 1], fails[i])
          && Counts(setting, states[i], steps[i], states[i + 1]))
    && (forall i :: 0 <= i < |fails| ==> ((fails[i] && !steps[i].inTry) <==> (failed && i == |fails| - 1)))
    && if failed then fails != [] else |fails| == |steps|
  }

  ghost predicate Goes(setting: Setting, st: State, steps: seq<Step>, channel: int, depth: nat, st': State,
                       failed: bool)
  {
    exists states, fails ::
      && IsRun(setting, steps, channel, depth, states, fails, failed)
      && states[0] == st && states[|fails|] == st'
  }

  lemma {:induction false} StepsGo(setting: Setting, st: State, steps: seq<Step>, channel: int, depth: nat)
    ensures var a := Steps(setting, st, steps, channel, depth); Goes(setting, st, steps, channel, depth, a.st, a.failed)
    decreases |steps|
  {
    hide Do, HasEffect, Counts;
    if steps == [] {
      StopsAtOnce(setting, st, channel, depth);
    } else {
      var a := Do(setting, st, steps[0], channel, depth);
      DoHasEffect(setting, st, steps[0], channel, depth);
      if a.failed && !steps[0].inTry {
        StopsFirst(setting, st, steps, channel, depth, a.st);
      } else {
        StepsGo(setting, a.st, steps[1..], channel, depth);
        var b := Steps(setting, a.st, steps[1..], channel, depth);
        hide IsRun;
        var states, fails :| && IsRun(setting, steps[1..], channel, depth, states, fails, b.failed)
                             && states[0] == a.st && states[|fails|] == b.st;
        RunFrom(setting, st, steps, channel, depth, states, fails, b.failed, a.failed);
      }
    }
  }

  lemma StopsAtOnce(setting: Setting, st: State, channel: int, depth: nat)
    ensures Goes(setting, st, [], channel, depth, st, false)
  {
    assert IsRun(setting, [], channel, depth, [st], [], false);
  }

  lemma StopsFirst(setting: Setting, st: State, steps: seq<Step>, channel: int, depth: nat, st': State)
    requires steps != [] && !steps[0].inTry
    requires HasEffect(setting, st, steps[0], channel, depth, st', true) && Counts(setting, st, steps[0], st')
    ensures Goes(setting, st, steps, channel, depth, st', true)
  {
    hide HasEffect, Counts;
    assert IsRun(setting, steps, channel, depth, [st, st'], [true], true);
  }

  lemma RunFrom(setting: Setting, st: State, steps: seq<Step>, channel: int, depth: nat, states: seq<State>,
                fails: seq<bool>, failed: bool, first: bool)
    requires steps != [] && IsRun(setting, steps[1..], channel, depth, states, fails, failed)
    requires HasEffect(setting, st, steps[0], channel, depth, states[0], first)
    requires Counts(setting, st, steps[0], states[0])
    requires first ==> steps[0].inTry
    ensures IsRun(setting, steps, channel, depth, [st] + states, [first] + fails, failed)
    ensures ([st] + states)[|fails| + 1] == states[|fails|]
  {
    hide HasEffect, Counts;
    var states', fails' := [st] + states, [first] + fails;
    forall i | 0 <= i < |fails'|
      ensures HasEffect(setting, states'[i], steps[i], channel, depth, states'[i + 1], fails'[i])
      ensures Counts(setting, states'[i], steps[i], states'[i + 1])
      ensures (fails'[i] && !steps[i].inTry) <==> (failed && i == |fails'| - 1)
    {
      if i > 0 {
        var k := i - 1;
        assert steps[i] == steps[1..][k] && states'[i] == states[k] && states'[i + 1] == states[k + 1]
          && fails'[i] == fails[k];
      }
    }
  }

  // ---------------------------------------------------------------- the output and the error

  predicate Deletes(st: State) {
    st.deleteDelay.Some? && st.deleteDelay.value < 1
  }

  /** An output answers the interaction, fills its deferral or follows up. */
  function Heard(setting: Setting, st: State, channel: int): State {
    if st.respondedTo && st.deferred && setting.mode.DeferUpdate? then
      if setting.hasMessage then
        st.(deferred := false, responses := st.responses + [Response(DeferredEdit, false, setting.componentMessage)])
      else st.(warnings := st.warnings + [NoMessageToEdit])
    else
      var kind := if !st.respondedTo then Message else if st.deferred then DeferredEdit else Followup;
      var ephemeral := if kind == DeferredEdit then setting.mode.DeferEphemeral? else st.ephemeralResponse;
      var m := NextMessage(st, channel, ephemeral);
      st.(respondedTo := true, deferred := st.deferred && !st.respondedTo, sentIDs := st.sentIDs + 1,
          sent := st.sent + [m], responses := st.responses + [Response(kind, m.ephemeral, m.id)])
  }

  /** The warning that a top-level run is due. */
  function Due(setting: Setting, st: State, depth: nat): seq<Warning> {
    if depth > 0 || !setting.hasInteraction then []
    else if !st.respondedTo then [NeverAnswered]
    else if st.deferred && !setting.mode.DeferUpdate? then [NeverFilled]
    else []
  }

  /** The end of a run: its output goes to the interaction unless deleteResponse deletes it or the error is shown
      instead, a top-level run gets its warning, and a shown error is a message in the error channel. */
  predicate EndsAs(setting: Setting, st: State, script: Script, channel: int, depth: nat, failed: bool, e: Executed) {
    var shows := failed && script.showErrors;
    var answers := setting.hasInteraction && script.prints && !Deletes(st) && !shows;
    var a := if answers then Heard(setting, st, channel) else st;
    var b := a.(warnings := a.warnings + Due(setting, a, depth));
    var report := NextMessage(b, if script.errorChannel != 0 then script.errorChannel else channel, false);
    var reports := shows && (script.errorValid || !setting.strict);
    var c := if reports then b.(sentIDs := b.sentIDs + 1, sent := b.sent + [report]) else b;
    e == Executed(c, script.prints && (shows || !Deletes(st)), failed)
  }

  /** A whole run: its calls, then its end. */
  ghost predicate Executes(setting: Setting, st: State, script: Script, channel: int, depth: nat, e: Executed) {
    exists end, stopped ::
      && Goes(setting, st, script.steps, channel, depth, end, stopped)
      && EndsAs(setting, end, script, channel, depth, stopped || script.fails, e)
  }

  lemma OutputGoes(setting: Setting, st: State, channel: int)
    requires setting.hasInteraction
    ensures RespondWithOutput(setting, st, channel) == Heard(setting, st, channel)
    ensures Heard(setting, st, channel).deleteDelay == st.deleteDelay
  {
  }

  lemma WarningIsDue(setting: Setting, st: State, depth: nat)
    ensures (if setting.hasInteraction && depth == 0 then WarnUnanswered(setting, st) else st)
         == st.(warnings := st.warnings + Due(setting, st, depth))
  {
    assert st.warnings + [] == st.warnings;
  }

  lemma FinishEnds(setting: Setting, st: State, script: Script, channel: int, depth: nat, failed: bool)
    ensures EndsAs(setting, st, script, channel, depth, failed,
                   Finish(setting, st, script, channel, depth, failed, script.prints && (failed || !DropsResponse(st))))
  {
    hide RespondWithOutput, WarnUnanswered, Heard, Due;
    if setting.hasInteraction {
      OutputGoes(setting, st, channel);
    }
    var answers := setting.hasInteraction && script.prints && !Deletes(st) && !(failed && script.showErrors);
    WarningIsDue(setting, if answers then Heard(setting, st, channel) else st, depth);
  }

  lemma ExecuteEnds(setting: Setting, st: State, script: Script, channel: int, depth: nat)
    ensures Executes(setting, st, script, channel, depth, Execute(setting, st, script, channel, depth))
  {
    hide Steps, Goes, EndsAs, Finish;
    var a := Steps(setting, st, script.steps, channel, depth);
    StepsGo(setting, st, script.steps, channel, depth);
    FinishEnds(setting, a.st, script, channel, depth, a.failed || script.fails);
  }

  // ---------------------------------------------------------------- children

  predicate IsImmediate(call: Call) {
    call.ExecCC? && call.lookup.Mapped? && call.channel != 0 && call.delay <= 0 && call.header
  }

  /** How many commands calls start for certain, used runs being counted already: each immediate execCC within
      the limit starts one, and whatever else does not stand in a {{try}} may end the run. */
  function Children(setting: Setting, steps: seq<Step>, used: nat): nat {
    if steps == [] then 0
    else
      var call := steps[0].call;
      if IsImmediate(call) && used < RunsAllowed(setting) then 1 + Children(setting, steps[1..], used + 1)
      else if steps[0].inTry then
        Children(setting, steps[1..], used + if call.ExecCC? || call.ScheduleUnique? then 1 else 0)
      else 0
  }

  /** Every immediate execCC within the limit runs its command. */
  lemma {:induction false} ChildrenRun(setting: Setting, st: State, steps: seq<Step>, channel: int, depth: nat)
    requires depth < 2
    ensures Steps(setting, st, steps, channel, depth).st.runs >= st.runs + Children(setting, steps, Count(st, RunCC))
    decreases |steps|
  {
    hide Do, Count, Execute;
    if steps != [] {
      var a := Do(setting, st, steps[0], channel, depth);
      DoHasEffect(setting, st, steps[0], channel, depth);
      EffectKeepsRuns(setting, st, steps[0], channel, depth, a);
      if IsImmediate(steps[0].call) && Count(st, RunCC) < RunsAllowed(setting) {
        EffectAddsRun(setting, st, steps[0], channel, depth, a);
      }
      hide HasEffect;
      StepsKeepRuns(setting, a.st, steps[1..], channel, depth);
      ChildrenRun(setting, a.st, steps[1..], channel, depth);
    }
  }

  lemma RunStartsChildren(setting: Setting, st: State, script: Script, channel: int)
    requires st.counters == map[]
    ensures Execute(setting, st, script, channel, 0).st.runs >= st.runs + Children(setting, script.steps, 0)
  {
    hide Steps, Finish, Children;
    var a := Steps(setting, st, script.steps, channel, 0);
    ChildrenRun(setting, st, script.steps, channel, 0);
    FinishKeepsRuns(setting, a.st, script, channel, 0, a.failed || script.fails,
                    script.prints && (a.failed || script.fails || !DropsResponse(a.st)));
  }

  lemma EffectAddsRun(setting: Setting, st: State, step: Step, channel: int, depth: nat, a: After)
    requires depth < 2 && IsImmediate(step.call) && Count(st, RunCC) < RunsAllowed(setting)
    requires HasEffect(setting, st, step, channel, depth, a.st, a.failed)
    ensures !a.failed && a.st.runs > st.runs
  {
    hide Execute;
  }

  /** A child that prints and keeps its output is heard: the output's message is the last of the caller's
      messages and, when there is an interaction, its answer is the last of the caller's answers. */
  lemma ChildIsHeard(setting: Setting, st: State, step: Step, channel: int, depth: nat, st': State, failed: bool)
    requires step.call.ExecCC? && Runs(setting, st, step.call, step.inTry, depth)
    requires HasEffect(setting, st, step, channel, depth, st', failed)
    requires var child := step.call.child;
             var end := Steps(setting, Beginning(st), child.steps, step.call.channel, depth + 1);
             child.prints && !Deletes(end.st) && !((end.failed || child.fails) && child.showErrors)
    requires setting.hasMessage || !setting.mode.DeferUpdate?
    ensures setting.hasInteraction ==> st'.respondedTo && |st'.responses| > |st.responses|
    ensures var last := if setting.hasInteraction then st'.responses[|st'.responses| - 1]
                        else Response(Message, false, 1_100_000_000_000_000_000 + st'.sentIDs);
            || (setting.mode.DeferUpdate? && last == Response(DeferredEdit, false, setting.componentMessage))
            || (&& |st'.sent| > |st.sent| && last.messageID == 1_100_000_000_000_000_000 + st'.sentIDs
                && st'.sent[|st'.sent| - 1] == Sent(last.messageID, step.call.channel, last.ephemeral)
                && !last.kind.Modal? && !last.kind.Update?)
  {
    var child, to := step.call.child, step.call.channel;
    var e := Execute(setting, Beginning(st), child, to, depth + 1);
    assert RanChild(setting, st, child, to, depth, st');
    var end := Steps(setting, Beginning(st), child.steps, to, depth + 1);
    FinishEnds(setting, end.st, child, to, depth + 1, end.failed || child.fails);
    hide Steps, Finish, Execute;
    assert EndsAs(setting, end.st, child, to, depth + 1, end.failed || child.fails, e);
    hide HasEffect;
    assert e.st.warnings == e.st.warnings + [];
  }
}
