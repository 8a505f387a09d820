/** The engine that runs commands: the objects an execCC tree shares by pointer and the context each
    run has for itself, every method tied to what Interactions says of its state. */
module Engine {

  import opened Basics
  import opened Interactions
  import Protocol
  import Effects

  class Interaction {
    const isModalSubmit: bool
    const hasMessage: bool
    const messageID: int
    var respondedTo: bool
    var deferred: bool

    constructor (isModalSubmit: bool, hasMessage: bool, messageID: int, respondedTo: bool, deferred: bool)
      ensures this.isModalSubmit == isModalSubmit && this.hasMessage == hasMessage && this.messageID == messageID
      ensures this.respondedTo == respondedTo && this.deferred == deferred
    {
      this.isModalSubmit, this.hasMessage, this.messageID := isModalSubmit, hasMessage, messageID;
      this.respondedTo, this.deferred := respondedTo, deferred;
    }
  }

  class SentIDs {
    var count: nat

    constructor ()
      ensures count == 0
    {
      count := 0;
    }
  }

  class ScheduledRuns {
    var runs: seq<Scheduled>

    constructor (runs: seq<Scheduled>)
      ensures this.runs == runs
    {
      this.runs := runs;
    }
  }

  class Context {
    const interaction: Interaction?
    const deferMode: DeferMode
    const strict: bool
    const premium: bool
    const channel: int
    const depth: nat
    const sentIDs: SentIDs
    const scheduled: ScheduledRuns
    var counters: map<Counter, nat>
    var inTry: bool
    var ephemeralResponse: bool
    var deleteDelay: Option<int>
    var responses: seq<Response>
    var sent: seq<Sent>
    var warnings: seq<Warning>
    ghost var runs: nat

    constructor (interaction: Interaction?, deferMode: DeferMode, strict: bool, premium: bool,
                 channel: int, depth: nat, sentIDs: SentIDs, scheduled: ScheduledRuns)
      ensures this.interaction == interaction && this.deferMode == deferMode && this.strict == strict
      ensures this.premium == premium && this.channel == channel && this.depth == depth
      ensures this.sentIDs == sentIDs && this.scheduled == scheduled
      ensures counters == map[] && !ephemeralResponse && deleteDelay == None
      ensures responses == [] && sent == [] && warnings == [] && runs == 1
    {
      this.interaction, this.deferMode, this.strict, this.premium := interaction, deferMode, strict, premium;
      this.channel, this.depth, this.sentIDs, this.scheduled := channel, depth, sentIDs, scheduled;
      counters, inTry, ephemeralResponse, deleteDelay := map[], false, false, None;
      responses, sent, warnings, runs := [], [], [], 1;
    }

    // -------------------------------------------------------------- the state as a value

    ghost function Setting(): Setting {
      Interactions.Setting(interaction != null, interaction != null && interaction.hasMessage,
                           if interaction == null then 0 else interaction.messageID,
                           interaction != null && interaction.isModalSubmit, deferMode, strict, premium)
    }

    ghost function Shared(): set<object> {
      {sentIDs, scheduled} + if interaction == null then {} else {interaction}
    }

    ghost function View(): State
      reads this, Shared()
    {
      State(interaction != null && interaction.respondedTo, interaction != null && interaction.deferred,
            sentIDs.count, scheduled.runs, counters, ephemeralResponse, deleteDelay, responses, sent, warnings, runs)
    }

    // -------------------------------------------------------------- limits

    /** countCall: counts, and says whether the count passed the limit. */
    method CountCall(c: Counter) returns (over: bool)
      modifies this`counters
      ensures View() == Counted(old(View()), c)
      ensures over == OverLimit(Setting(), View(), c)
    {
      var n := if c in counters then counters[c] else 0;
      counters := counters[c := n + 1];
      var limit := match c
        case ApiCall => 100
        case RunCC => if premium then 10 else 1
        case CancelCC => 10
        case InteractionResponse => 1
        case ModalCount => 1;
      over := counters[c] > limit;
    }

    // -------------------------------------------------------------- messages

    method RecordSentMessage(to: int, ephemeral: bool) returns (id: int)
      modifies this`sent, sentIDs
      ensures View() == RecordSent(old(View()), to, ephemeral)
      ensures id == FIRST_SENT_MESSAGE_ID + View().sentIDs
    {
      sentIDs.count := sentIDs.count + 1;
      id := FIRST_SENT_MESSAGE_ID + sentIDs.count;
      sent := sent + [Sent(id, to, false)];
      if ephemeral {
        sent := sent[|sent| - 1 := sent[|sent| - 1].(ephemeral := true)];
      }
    }

    method RecordInteractionMessage(kind: Kind, ephemeral: bool)
      modifies this`sent, this`responses, sentIDs
      ensures View() == Interactions.RecordInteractionMessage(old(View()), kind, ephemeral, channel)
    {
      var id := RecordSentMessage(channel, ephemeral);
      responses := responses + [Response(kind, ephemeral, id)];
    }

    predicate DeferralFailed()
      reads this, Shared()
    {
      interaction != null && interaction.deferred && deferMode.DeferUpdate? && !interaction.hasMessage
    }

    // -------------------------------------------------------------- answering the interaction

    method SendResponse(call: Call) returns (failed: bool)
      requires call.SendResponse?
      modifies this`counters, this`sent, this`responses, Shared()
      ensures After(View(), failed) == DoSendResponse(Setting(), old(View()), call, inTry, channel)
    {
      var first := interaction != null && call.token.Mine? && !interaction.respondedTo;
      if call.token.Invalid? || (call.token.Mine? && interaction == null) {
        return true;
      }
      if interaction == null || call.token.Foreign? {
        return false;
      }
      if first {
        var over := CountCall(InteractionResponse);
        if over {
          return true;
        }
      }
      if !call.valid && (strict || inTry) {
        return true;
      }
      if !call.components {
        return strict || inTry;
      }
      if !first && DeferralFailed() {
        return strict || inTry;
      }
      var kind := Followup;
      if first {
        kind := Message;
        interaction.respondedTo := true;
      }
      RecordInteractionMessage(kind, call.ephemeral);
      return false;
    }

    method UpdateMessage(call: Call) returns (failed: bool)
      requires call.UpdateMessage?
      modifies this`counters, this`responses, Shared()
      ensures After(View(), failed) == DoUpdateMessage(Setting(), old(View()), call, inTry)
    {
      if interaction == null {
        return true;
      }
      var overAPI := CountCall(ApiCall);
      if overAPI && (strict || inTry) {
        return true;
      }
      var over := CountCall(InteractionResponse);
      if over {
        return true;
      }
      if interaction.respondedTo || !interaction.hasMessage {
        return strict || inTry;
      }
      if !call.valid && (strict || inTry) {
        return true;
      }
      if !call.components {
        return strict || inTry;
      }
      responses := responses + [Response(Update, false, interaction.messageID)];
      interaction.respondedTo := true;
      return false;
    }

    method SendModal(call: Call) returns (failed: bool)
      requires call.SendModal?
      modifies this`counters, this`responses, Shared()
      ensures After(View(), failed) == DoSendModal(Setting(), old(View()), call, inTry)
    {
      if interaction == null {
        return true;
      }
      var overAPI := CountCall(ApiCall);
      if overAPI && (strict || inTry) {
        return true;
      }
      var overModal := CountCall(ModalCount);
      if overModal {
        return true;
      }
      var over := CountCall(InteractionResponse);
      if over || !call.wellFormed {
        return true;
      }
      if interaction.respondedTo || interaction.isModalSubmit {
        return strict || inTry;
      }
      responses := responses + [Response(Modal, false, 0)];
      interaction.respondedTo := true;
      return false;
    }

    method RespondWithOutput()
      requires interaction != null
      modifies this`sent, this`responses, this`warnings, Shared()
      ensures View() == Interactions.RespondWithOutput(Setting(), old(View()), channel)
    {
      if !interaction.respondedTo {
        interaction.respondedTo := true;
        RecordInteractionMessage(Message, ephemeralResponse);
      } else if DeferralFailed() {
        warnings := warnings + [NoMessageToEdit];
      } else if interaction.deferred && deferMode.DeferUpdate? {
        interaction.deferred := false;
        responses := responses + [Response(DeferredEdit, false, interaction.messageID)];
      } else if interaction.deferred {
        interaction.deferred := false;
        RecordInteractionMessage(DeferredEdit, deferMode.DeferEphemeral?);
      } else {
        RecordInteractionMessage(Followup, ephemeralResponse);
      }
    }

    method WarnUnanswered()
      requires interaction != null
      modifies this`warnings
      ensures View() == Interactions.WarnUnanswered(Setting(), old(View()))
    {
      if !interaction.respondedTo {
        warnings := warnings + [NeverAnswered];
      } else if interaction.deferred && !deferMode.DeferUpdate? {
        warnings := warnings + [NeverFilled];
      }
    }

    // -------------------------------------------------------------- other calls

    method SendMessage(call: Call) returns (failed: bool)
      requires call.SendMessage?
      modifies this`sent, sentIDs
      ensures After(View(), failed) == DoSendMessage(Setting(), old(View()), call, inTry)
    {
      if call.channel == 0 {
        return false;
      }
      if !call.allowed {
        return strict || inTry;
      }
      if !call.valid && (strict || inTry) {
        return true;
      }
      if !call.components {
        return strict || inTry;
      }
      var _ := RecordSentMessage(call.channel, false);
      return false;
    }

    method CancelScheduled(command: int, key: string)
      modifies scheduled
      ensures View() == old(View()).(scheduled := WithoutUnique(old(scheduled.runs), command, key))
    {
      var kept, i := [], 0;
      while i < |scheduled.runs|
        invariant 0 <= i <= |scheduled.runs| && scheduled.runs == old(scheduled.runs)
        invariant kept + WithoutUnique(scheduled.runs[i..], command, key) == WithoutUnique(scheduled.runs, command, key)
      {
        assert scheduled.runs[i..][1..] == scheduled.runs[i + 1..];
        if !(scheduled.runs[i].command == command && scheduled.runs[i].key == Some(key)) {
          kept := kept + [scheduled.runs[i]];
        }
        i := i + 1;
      }
      scheduled.runs := kept;
    }

    method Schedule(command: int, to: int, delay: int, key: Option<string>, encodes: bool) returns (failed: bool)
      modifies scheduled
      ensures failed == !encodes
      ensures View() == if encodes then Interactions.Schedule(Setting(), old(View()), command, to, delay, key)
                        else old(View())
    {
      var carried := NoInteraction;
      if interaction != null {
        carried := if interaction.respondedTo then Responded else Pending;
      }
      if !encodes {
        return true;
      }
      if key.Some? {
        CancelScheduled(command, key.value);
      }
      scheduled.runs := scheduled.runs + [Scheduled(command, to, delay, key, carried)];
      return false;
    }

    method ScheduleUnique(call: Call) returns (failed: bool)
      requires call.ScheduleUnique?
      modifies scheduled
      ensures After(View(), failed) == DoScheduleUnique(Setting(), old(View()), call)
    {
      if call.lookup.Refused? || call.channel == 0 {
        return true;
      }
      if call.delay <= 0 {
        return false;
      }
      failed := Schedule(call.command, call.channel, call.delay, Some(call.key), call.encodes);
    }

    // -------------------------------------------------------------- runs

    /** A call through withLimits: it has its effect, and counts. */
    method Call(step: Step) returns (failed: bool)
      modifies this, Shared()
      ensures After(View(), failed) == Do(Setting(), old(View()), step, channel, depth)
      ensures Effects.HasEffect(Setting(), old(View()), step, channel, depth, View(), failed)
      ensures Effects.Counts(Setting(), old(View()), step, View())
      decreases step, 3
    {
      hide Interactions.Perform, Effects.HasEffect, Effects.Counts;
      ghost var was := View();
      inTry := step.inTry;
      var limit, makes := LimitOf(step.call), true;
      failed := false;
      if limit.Some? {
        var over := CountCall(limit.value);
        if over && step.call.SendMessage? {
          makes := !strict;
        } else if over {
          makes := !(strict || inTry);
          failed := !makes;
        }
      }
      if makes {
        failed := Perform(step);
      }
      Effects.DoHasEffect(Setting(), was, step, channel, depth);
    }

    method Perform(step: Step) returns (failed: bool)
      requires inTry == step.inTry
      modifies this, Shared()
      ensures After(View(), failed) == Interactions.Perform(Setting(), old(View()), step, channel, depth)
      decreases step, 2
    {
      hide DoSendResponse, DoUpdateMessage, DoSendModal, DoSendMessage, DoScheduleUnique, Child;
      var call := step.call;
      if call.SendResponse? {
        failed := SendResponse(call);
      } else if call.UpdateMessage? {
        failed := UpdateMessage(call);
      } else if call.SendModal? {
        failed := SendModal(call);
      } else if call.SendMessage? {
        failed := SendMessage(call);
      } else if call.ScheduleUnique? {
        failed := ScheduleUnique(call);
      } else if call.CancelUnique? {
        CancelScheduled(call.command, call.key);
        failed := false;
      } else if call.ExecCC? {
        failed := ExecCC(step);
      } else if call.DeleteResponse? {
        deleteDelay := Some(if call.delay > 86400 then 86400 else call.delay);
        failed := false;
      } else {
        if interaction != null {
          ephemeralResponse := true;
        }
        failed := false;
      }
    }

    method ExecCC(step: Step) returns (failed: bool)
      requires step.call.ExecCC?
      modifies this, Shared()
      ensures After(View(), failed) == Interactions.Perform(Setting(), old(View()), step, channel, depth)
      decreases step, 1
    {
      hide Child, Interactions.Schedule;
      var ExecCC(command, lookup, to, delay, encodes, header, script) := step.call;
      if lookup.Refused? || to == 0 {
        return true;
      }
      if delay > 0 {
        failed := Schedule(command, to, delay, None, encodes);
        return;
      }
      if depth >= MAX_DEPTH {
        return true;
      }
      if lookup.Unmapped? {
        return false;
      }
      if !header {
        return true;
      }
      RunChild(script, to);
      return false;
    }

    /** A child's run with its own context over the shared objects, and its effects after the caller's. */
    method RunChild(script: Script, to: int)
      modifies this, Shared()
      ensures View() == Merge(old(View()), Child(Setting(), ChildStart(old(View())), script, to, depth + 1))
      decreases script, 3
    {
      hide Child;
      var child := new Context(interaction, deferMode, strict, premium, to, depth + 1, sentIDs, scheduled);
      assert child.View() == ChildStart(old(View()));
      child.RunAsChild(script);
      ghost var end := child.View();
      assert end == Child(Setting(), ChildStart(old(View())), script, to, depth + 1);
      hide ChildStart, Setting;
      sent := sent + child.sent;
      responses := responses + child.responses;
      runs := runs + child.runs;
    }

    method RunAsChild(script: Script)
      modifies this, Shared()
      ensures View() == Child(Setting(), old(View()), script, channel, depth)
      decreases script, 2
    {
      hide Interactions.Execute, RecordSent;
      var out, failed := Execute(script);
      if out && interaction == null && (!failed || !script.showErrors) {
        var _ := RecordSentMessage(channel, false);
      }
    }

    method Execute(script: Script) returns (out: bool, failed: bool)
      modifies this, Shared()
      ensures Executed(View(), out, failed) == Interactions.Execute(Setting(), old(View()), script, channel, depth)
      ensures Effects.Executes(Setting(), old(View()), script, channel, depth, Executed(View(), out, failed))
      decreases script, 1
    {
      hide Do, Interactions.Finish, Setting, Effects.HasEffect, Effects.Counts, Effects.Executes;
      ghost var was := View();
      var i, stopped := 0, false;
      while i < |script.steps| && !stopped
        invariant 0 <= i <= |script.steps|
        invariant Steps(Setting(), old(View()), script.steps, channel, depth)
               == if stopped then After(View(), true) else Steps(Setting(), View(), script.steps[i..], channel, depth)
        decreases |script.steps| - i, !stopped
      {
        var step := script.steps[i];
        assert script.steps[i..][1..] == script.steps[i + 1..];
        var stepFailed := Call(step);
        if stepFailed && !step.inTry {
          stopped := true;
        } else {
          i := i + 1;
        }
      }
      failed := stopped || script.fails;
      out := script.prints && (failed || !(deleteDelay.Some? && deleteDelay.value < 1));
      out := Finish(script, failed, out);
      Effects.ExecuteEnds(Setting(), was, script, channel, depth);
    }

    method Finish(script: Script, failed: bool, printed: bool) returns (out: bool)
      modifies this, Shared()
      ensures Executed(View(), out, failed)
          == Interactions.Finish(Setting(), old(View()), script, channel, depth, failed, printed)
    {
      hide Interactions.RespondWithOutput, Interactions.WarnUnanswered, RecordSent;
      out := printed;
      var dropped := deleteDelay.Some? && deleteDelay.value < 1;
      var responds := out && (!failed || !script.showErrors) && !dropped;
      if interaction != null {
        if responds {
          RespondWithOutput();
        }
        if depth == 0 {
          WarnUnanswered();
        }
      }
      if failed {
        if script.showErrors {
          var to := if script.errorChannel != 0 then script.errorChannel else channel;
          if script.errorValid || !strict {
            var _ := RecordSentMessage(to, false);
          }
        } else if dropped {
          out := false;
        }
      }
    }
  }
  // ---------------------------------------------------------------- a command's own run

  /** A top-level run on its interaction, if it has one, with the runs scheduled before it. Over it and
      all the runs it executes the interaction is answered once, its deferral filled once and the rest
      follows up; messages are numbered 1, 2, 3, ..., unique keys stay unique, the warnings are exact
      and -strict bounds the runs. */
  method RunCommand(interaction: Interaction?, deferMode: DeferMode, strict: bool, premium: bool, channel: int,
                    scheduled: ScheduledRuns, script: Script)
    returns (run: Context, out: bool, failed: bool)
    requires interaction != null && interaction.deferred ==> interaction.respondedTo
    modifies interaction, scheduled
    ensures fresh(run) && run.interaction == interaction && run.scheduled == scheduled
    ensures interaction == null ==> run.responses == []
    ensures interaction != null ==>
              && Protocol.Answers(old(interaction.respondedTo), old(interaction.deferred), run.responses,
                                  interaction.respondedTo, interaction.deferred)
              && (old(interaction.respondedTo) ==> interaction.respondedTo)
              && (interaction.deferred ==> old(interaction.deferred))
              && (NeverAnswered in run.warnings <==> !interaction.respondedTo)
              && (NeverFilled in run.warnings <==> interaction.deferred && !deferMode.DeferUpdate?)
    ensures Protocol.AllLinked(run.Setting(), run.responses, run.sent)
    ensures |run.sent| == run.sentIDs.count
    ensures forall i :: 0 <= i < |run.sent| ==> run.sent[i].id == FIRST_SENT_MESSAGE_ID + i + 1
    ensures Protocol.UniqueKeys(old(scheduled.runs)) ==> Protocol.UniqueKeys(scheduled.runs)
    ensures strict ==> run.runs <= if premium then 111 else 3
    ensures run.runs >= 1 + Effects.Children(run.Setting(), script.steps, 0)
    ensures var respondedTo := old(interaction != null && interaction.respondedTo);
            var deferred := old(interaction != null && interaction.deferred);
            var start := Protocol.Start(respondedTo, deferred, old(scheduled.runs));
            Effects.Executes(run.Setting(), start, script, channel, 0, Executed(run.View(), out, failed))
  {
    hide Interactions.Execute, Protocol.UniqueKeys, Effects.Executes, Effects.Children;
    var ids := new SentIDs();
    run := new Context(interaction, deferMode, strict, premium, channel, 0, ids, scheduled);
    ghost var setting := run.Setting();
    ghost var respondedTo := interaction != null && interaction.respondedTo;
    ghost var deferred := interaction != null && interaction.deferred;
    ghost var pending := scheduled.runs;
    assert run.View() == Protocol.Start(respondedTo, deferred, pending);
    out, failed := run.Execute(script);
    ghost var start := Protocol.Start(respondedTo, deferred, pending);
    assert run.View() == Interactions.Execute(setting, start, script, channel, 0).st;
    assert run.Setting() == setting;
    Effects.RunStartsChildren(setting, start, script, channel);
    Protocol.MessagesAreNumbered(setting, start, script, channel);
    Protocol.AnswersAreSent(setting, respondedTo, deferred, pending, script, channel);
    if Protocol.UniqueKeys(pending) {
      Protocol.UniqueKeysKept(setting, start, script, channel);
    }
    if strict {
      Protocol.TreeIsBounded(setting, respondedTo, deferred, pending, script, channel);
    }
    if interaction == null {
      Protocol.NothingToAnswer(setting, pending, script, channel);
    } else {
      Protocol.RunAnswers(setting, respondedTo, deferred, pending, script, channel);
      Protocol.WarningsAreExact(setting, respondedTo, deferred, pending, script, channel);
    }
  }
}
