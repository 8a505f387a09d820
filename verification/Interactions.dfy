/** What a custom command's run does to Discord, as values: the interaction its execCC tree shares,
    the numbering of sent messages and the list of scheduled runs (interactions.go, modals.go,
    engine.go, limits.go, schedule.go). A run is given by the calls its template makes. */
module Interactions {

  import opened Basics

  // ---------------------------------------------------------------- what the tree shares

  datatype DeferMode = DeferNone | DeferMessage | DeferEphemeral | DeferUpdate

  /** What never changes over the tree of one top-level run. */
  datatype Setting = Setting(hasInteraction: bool, hasMessage: bool, componentMessage: int, isModalSubmit: bool,
                             mode: DeferMode, strict: bool, premium: bool)

  datatype Kind = Message | Followup | DeferredEdit | Update | Modal

  /** An answer to the interaction; a modal has no message. */
  datatype Response = Response(kind: Kind, ephemeral: bool, messageID: int)

  datatype Sent = Sent(id: int, channel: int, ephemeral: bool)

  datatype Carried = NoInteraction | Pending | Responded

  datatype Scheduled = Scheduled(command: int, channel: int, delay: int, key: Option<string>, carried: Carried)

  datatype Counter = ApiCall | RunCC | CancelCC | InteractionResponse | ModalCount

  datatype Warning = NeverAnswered | NeverFilled | NoMessageToEdit

  /** respondedTo to scheduled are shared by pointer over the tree; the rest is the run's own. */
  datatype State = State(
    respondedTo: bool, deferred: bool, sentIDs: nat, scheduled: seq<Scheduled>,
    counters: map<Counter, nat>, ephemeralResponse: bool, deleteDelay: Option<int>,
    responses: seq<Response>, sent: seq<Sent>, warnings: seq<Warning>, runs: nat)

  // ---------------------------------------------------------------- what a template asks for

  datatype Token = Mine | Foreign | Invalid

  datatype Lookup = Refused | Unmapped | Mapped

  /** A call with what YAGPDB or Discord makes of its arguments: valid says Discord's limits hold,
      components that it takes the components. */
  datatype Call =
    | SendResponse(token: Token, ephemeral: bool, valid: bool, components: bool)
    | UpdateMessage(valid: bool, components: bool)
    | SendModal(wellFormed: bool)
    | EphemeralResponse
    | DeleteResponse(delay: int)
    | SendMessage(channel: int, allowed: bool, valid: bool, components: bool)
    | ScheduleUnique(command: int, lookup: Lookup, channel: int, delay: int, key: string, encodes: bool)
    | CancelUnique(command: int, key: string)
    | ExecCC(command: int, lookup: Lookup, channel: int, delay: int, encodes: bool, header: bool, child: Script)

  datatype Step = Step(call: Call, inTry: bool)

  /** The calls a run makes in order (each one's place in a {{try}}), whether it prints something and
      whether it fails after them, and the header's error settings. */
  datatype Script = Script(steps: seq<Step>, prints: bool, fails: bool, channel: int,
                           showErrors: bool, errorChannel: int, errorValid: bool)

  /** The state after a call, and whether the call returned an error. */
  datatype After = After(st: State, failed: bool)

  // ---------------------------------------------------------------- limits

  function Limit(setting: Setting, c: Counter): nat {
    match c
    case ApiCall => 100
    case RunCC => if setting.premium then 10 else 1
    case CancelCC => 10
    case InteractionResponse => 1
    case ModalCount => 1
  }

  function Count(st: State, c: Counter): nat {
    if c in st.counters then st.counters[c] else 0
  }

  function Counted(st: State, c: Counter): State {
    st.(counters := st.counters[c := Count(st, c) + 1])
  }

  predicate OverLimit(setting: Setting, st: State, c: Counter) {
    Count(st, c) > Limit(setting, c)
  }

  /** A rate limit or Discord's refusal is an error with -strict and inside {{try}}, else a warning. */
  predicate ReturnsError(setting: Setting, inTry: bool) {
    setting.strict || inTry
  }

  /** The counter withLimits counts a call against before making it, and whether the call is silent. */
  function LimitOf(call: Call): Option<Counter> {
    match call
    case SendResponse(_, _, _, _) => Some(ApiCall)
    case SendMessage(_, _, _, _) => Some(ApiCall)
    case ScheduleUnique(_, _, _, _, _, _) => Some(RunCC)
    case ExecCC(_, _, _, _, _, _, _) => Some(RunCC)
    case CancelUnique(_, _) => Some(CancelCC)
    case _ => None
  }

  // ---------------------------------------------------------------- messages

  const FIRST_SENT_MESSAGE_ID: int := 1_100_000_000_000_000_000

  function RecordSent(st: State, channel: int, ephemeral: bool): State {
    st.(sentIDs := st.sentIDs + 1,
        sent := st.sent + [Sent(FIRST_SENT_MESSAGE_ID + st.sentIDs + 1, channel, ephemeral)])
  }

  function RecordInteractionMessage(st: State, kind: Kind, ephemeral: bool, channel: int): State {
    var r := RecordSent(st, channel, ephemeral);
    r.(responses := r.responses + [Response(kind, ephemeral, FIRST_SENT_MESSAGE_ID + r.sentIDs)])
  }

  /** An update or a deferred update edits the component's message. */
  function RecordInteractionEdit(setting: Setting, st: State, kind: Kind): State {
    st.(responses := st.responses + [Response(kind, false, setting.componentMessage)])
  }

  predicate DeferralFailed(setting: Setting, st: State) {
    setting.hasInteraction && st.deferred && setting.mode.DeferUpdate? && !setting.hasMessage
  }

  // ---------------------------------------------------------------- the interaction calls

  function DoSendResponse(setting: Setting, st: State, call: Call, inTry: bool, channel: int): After
    requires call.SendResponse?
  {
    if call.token.Invalid? || (call.token.Mine? && !setting.hasInteraction) then After(st, true)
    else if !setting.hasInteraction || call.token.Foreign? then After(st, false)
    else
      var first := !st.respondedTo;
      var counted := if first then Counted(st, InteractionResponse) else st;
      if first && OverLimit(setting, counted, InteractionResponse) then After(counted, true)
      else if !call.valid && ReturnsError(setting, inTry) then After(counted, true)
      else if !call.components then After(counted, ReturnsError(setting, inTry))
      else if !first && DeferralFailed(setting, st) then After(counted, ReturnsError(setting, inTry))
      else
        var kind := if first then Message else Followup;
        After(RecordInteractionMessage(counted.(respondedTo := true), kind, call.ephemeral, channel), false)
  }

  function DoUpdateMessage(setting: Setting, st: State, call: Call, inTry: bool): After
    requires call.UpdateMessage?
  {
    if !setting.hasInteraction then After(st, true)
    else
      var a := Counted(st, ApiCall);
      if OverLimit(setting, a, ApiCall) && ReturnsError(setting, inTry) then After(a, true)
      else
        var b := Counted(a, InteractionResponse);
        if OverLimit(setting, b, InteractionResponse) then After(b, true)
        else if st.respondedTo || !setting.hasMessage then After(b, ReturnsError(setting, inTry))
        else if !call.valid && ReturnsError(setting, inTry) then After(b, true)
        else if !call.components then After(b, ReturnsError(setting, inTry))
        else After(RecordInteractionEdit(setting, b, Update).(respondedTo := true), false)
  }

  function DoSendModal(setting: Setting, st: State, call: Call, inTry: bool): After
    requires call.SendModal?
  {
    if !setting.hasInteraction then After(st, true)
    else
      var a := Counted(st, ApiCall);
      if OverLimit(setting, a, ApiCall) && ReturnsError(setting, inTry) then After(a, true)
      else
        var b := Counted(a, ModalCount);
        if OverLimit(setting, b, ModalCount) then After(b, true)
        else
          var c := Counted(b, InteractionResponse);
          if OverLimit(setting, c, InteractionResponse) then After(c, true)
          else if !call.wellFormed then After(c, true)
          else if st.respondedTo || setting.isModalSubmit then After(c, ReturnsError(setting, inTry))
          else After(c.(responses := c.responses + [Response(Modal, false, 0)], respondedTo := true), false)
  }

  /** Where a run's output goes when there is an interaction. */
  function RespondWithOutput(setting: Setting, st: State, channel: int): State {
    if !st.respondedTo then
      RecordInteractionMessage(st.(respondedTo := true), Message, st.ephemeralResponse, channel)
    else if DeferralFailed(setting, st) then st.(warnings := st.warnings + [NoMessageToEdit])
    else if st.deferred && setting.mode.DeferUpdate? then
      RecordInteractionEdit(setting, st.(deferred := false), DeferredEdit)
    else if st.deferred then
      RecordInteractionMessage(st.(deferred := false), DeferredEdit, setting.mode.DeferEphemeral?, channel)
    else RecordInteractionMessage(st, Followup, st.ephemeralResponse, channel)
  }

  function WarnUnanswered(setting: Setting, st: State): State {
    if !st.respondedTo then st.(warnings := st.warnings + [NeverAnswered])
    else if st.deferred && !setting.mode.DeferUpdate? then st.(warnings := st.warnings + [NeverFilled])
    else st
  }

  // ---------------------------------------------------------------- the other calls

  function DoSendMessage(setting: Setting, st: State, call: Call, inTry: bool): After
    requires call.SendMessage?
  {
    if call.channel == 0 then After(st, false)
    else if !call.allowed then After(st, ReturnsError(setting, inTry))
    else if !call.valid && ReturnsError(setting, inTry) then After(st, true)
    else if !call.components then After(st, ReturnsError(setting, inTry))
    else After(RecordSent(st, call.channel, false), false)
  }

  predicate IsUniqueRun(s: Scheduled, command: int, key: string) {
    s.command == command && s.key == Some(key)
  }

  function WithoutUnique(runs: seq<Scheduled>, command: int, key: string): seq<Scheduled> {
    if runs == [] then []
    else if IsUniqueRun(runs[0], command, key) then WithoutUnique(runs[1..], command, key)
    else [runs[0]] + WithoutUnique(runs[1..], command, key)
  }

  function CarriedInteraction(setting: Setting, st: State): Carried {
    if !setting.hasInteraction then NoInteraction else if st.respondedTo then Responded else Pending
  }

  function Schedule(setting: Setting, st: State, command: int, channel: int, delay: int, key: Option<string>): State {
    var kept := if key.Some? then WithoutUnique(st.scheduled, command, key.value) else st.scheduled;
    st.(scheduled := kept + [Scheduled(command, channel, delay, key, CarriedInteraction(setting, st))])
  }

  function DoScheduleUnique(setting: Setting, st: State, call: Call): After
    requires call.ScheduleUnique?
  {
    if call.lookup.Refused? || call.channel == 0 then After(st, true)
    else if call.delay <= 0 then After(st, false)
    else if !call.encodes then After(st, true)
    else After(Schedule(setting, st, call.command, call.channel, call.delay, Some(call.key)), false)
  }

  // ---------------------------------------------------------------- runs

  const MAX_DEPTH: nat := 2

  /** A child starts with the shared state and nothing of its own. */
  function ChildStart(st: State): State {
    st.(counters := map[], ephemeralResponse := false, deleteDelay := None,
        responses := [], sent := [], warnings := [], runs := 1)
  }

  /** A caller goes on with the shared state, and the child's effects after its own. */
  function Merge(st: State, child: State): State {
    State(child.respondedTo, child.deferred, child.sentIDs, child.scheduled,
          st.counters, st.ephemeralResponse, st.deleteDelay,
          st.responses + child.responses, st.sent + child.sent, st.warnings, st.runs + child.runs)
  }

  predicate DropsResponse(st: State) {
    st.deleteDelay.Some? && st.deleteDelay.value < 1
  }

  /** The calls of a run until one fails outside a {{try}}. */
  function Steps(setting: Setting, st: State, steps: seq<Step>, channel: int, depth: nat): After
    decreases steps, 1
  {
    if steps == [] then After(st, false)
    else
      var a := Do(setting, st, steps[0], channel, depth);
      if a.failed && !steps[0].inTry then a else Steps(setting, a.st, steps[1..], channel, depth)
  }

  /** A call as withLimits makes it. */
  function Do(setting: Setting, st: State, step: Step, channel: int, depth: nat): After
    decreases step, 1
  {
    var Step(call, inTry) := step;
    var limit := LimitOf(call);
    if limit.None? then Perform(setting, st, step, channel, depth)
    else
      var counted := Counted(st, limit.value);
      if !OverLimit(setting, counted, limit.value) then Perform(setting, counted, step, channel, depth)
      else if call.SendMessage? then
        if setting.strict then After(counted, false) else Perform(setting, counted, step, channel, depth)
      else if ReturnsError(setting, inTry) then After(counted, true)
      else Perform(setting, counted, step, channel, depth)
  }

  function Perform(setting: Setting, st: State, step: Step, channel: int, depth: nat): After
    decreases step, 0
  {
    var Step(call, inTry) := step;
    match call
    case SendResponse(_, _, _, _) => DoSendResponse(setting, st, call, inTry, channel)
    case UpdateMessage(_, _) => DoUpdateMessage(setting, st, call, inTry)
    case SendModal(_) => DoSendModal(setting, st, call, inTry)
    case EphemeralResponse => After(if setting.hasInteraction then st.(ephemeralResponse := true) else st, false)
    case DeleteResponse(delay) => After(st.(deleteDelay := Some(if delay > 86400 then 86400 else delay)), false)
    case SendMessage(_, _, _, _) => DoSendMessage(setting, st, call, inTry)
    case ScheduleUnique(_, _, _, _, _, _) => DoScheduleUnique(setting, st, call)
    case CancelUnique(command, key) => After(st.(scheduled := WithoutUnique(st.scheduled, command, key)), false)
    case ExecCC(command, lookup, to, delay, encodes, header, child) =>
      if lookup.Refused? || to == 0 then After(st, true)
      else if delay > 0 then
        if !encodes then After(st, true) else After(Schedule(setting, st, command, to, delay, None), false)
      else if depth >= MAX_DEPTH then After(st, true)
      else if lookup.Unmapped? then After(st, false)
      else if !header then After(st, true)
      else After(Merge(st, Child(setting, ChildStart(st), child, to, depth + 1)), false)
  }

  /** A child's run, and its output's message when no interaction takes it. */
  function Child(setting: Setting, st: State, script: Script, channel: int, depth: nat): State
    decreases script, 3
  {
    var e := Execute(setting, st, script, channel, depth);
    if e.out && !setting.hasInteraction && (!e.failed || !script.showErrors) then RecordSent(e.st, channel, false)
    else e.st
  }

  datatype Executed = Executed(st: State, out: bool, failed: bool)

  function Execute(setting: Setting, st: State, script: Script, channel: int, depth: nat): Executed
    decreases script, 2
  {
    var a := Steps(setting, st, script.steps, channel, depth);
    var failed := a.failed || script.fails;
    Finish(setting, a.st, script, channel, depth, failed, script.prints && (failed || !DropsResponse(a.st)))
  }

  /** What Execute does with the output and the error. */
  function Finish(setting: Setting, st: State, script: Script, channel: int, depth: nat, failed: bool,
                  out: bool): Executed
  {
    var responds := out && (!failed || !script.showErrors) && !DropsResponse(st);
    var a := if setting.hasInteraction && responds then RespondWithOutput(setting, st, channel) else st;
    var b := if setting.hasInteraction && depth == 0 then WarnUnanswered(setting, a) else a;
    if !failed then Executed(b, out, false)
    else if script.showErrors then
      var to := if script.errorChannel != 0 then script.errorChannel else channel;
      Executed(if script.errorValid || !setting.strict then RecordSent(b, to, false) else b, out, true)
    else Executed(b, out && !DropsResponse(b), true)
  }
}
