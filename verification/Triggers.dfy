/** Triggers with a literal text (trigger.go): the message that runs a command with given arguments gives
    those arguments back. */
module Triggers {

  import opened Args

  datatype Kind = Command | StartsWith | Contains | ExactMatch

  /** What the server and the bot bring: the prefix, the bot's ID as text, and which characters match
      one another (the same ones, or the same but for their case). */
  datatype Setting = Setting(prefix: string, botID: string, same: (char, char) -> bool)

  datatype Match = NoMatch | Match(end: nat)

  predicate LiteralAt(setting: Setting, literal: string, msg: string, at: nat) {
    at + |literal| <= |msg| && forall k :: 0 <= k < |literal| ==> setting.same(literal[k], msg[at + k])
  }

  predicate IsSpaceClass(c: char) {
    c in [' ', '\t', '\n', '\r', 11 as char, 12 as char]
  }

  /** What may stand before a Command trigger, in the order the pattern tries them. */
  function Mentions(setting: Setting): seq<string> {
    ["<@!" + setting.botID + "> ", "<@!" + setting.botID + ">", "<@" + setting.botID + "> ", "<@" + setting.botID + ">"]
  }

  function CommandAfter(setting: Setting, before: string, text: string, msg: string): Match {
    var end := |before| + |text|;
    if !LiteralAt(setting, before + text, msg, 0) then NoMatch
    else if end == |msg| then Match(end)
    else if IsSpaceClass(msg[end]) then Match(end + 1)
    else NoMatch
  }

  function FirstCommand(setting: Setting, before: seq<string>, text: string, msg: string): Match {
    if before == [] then NoMatch
    else
      var m := CommandAfter(setting, before[0], text, msg);
      if m.Match? then m else FirstCommand(setting, before[1..], text, msg)
  }

  function Leftmost(setting: Setting, text: string, msg: string, at: nat): Match
    decreases |msg| - at
  {
    if at > |msg| then NoMatch
    else if LiteralAt(setting, text, msg, at) then Match(at + |text|)
    else Leftmost(setting, text, msg, at + 1)
  }

  /** CheckMatch for the literal kinds: where the trigger's match ends in the message. */
  function CheckMatch(setting: Setting, kind: Kind, text: string, msg: string): (m: Match)
    ensures m.Match? ==> m.end <= |msg|
  {
    var m := match kind
      case Command => FirstCommand(setting, Mentions(setting) + [setting.prefix], text, msg)
      case StartsWith => if LiteralAt(setting, text, msg, 0) then Match(|text|) else NoMatch
      case Contains => Leftmost(setting, text, msg, 0)
      case ExactMatch => if |text| == |msg| && LiteralAt(setting, text, msg, 0) then Match(|text|) else NoMatch;
    if m.Match? && m.end > |msg| then NoMatch else m
  }

  /** The arguments after the trigger. */
  function Arguments(msg: string, m: Match): seq<string>
    requires m.Match? && m.end <= |msg|
  {
    Texts(Split(msg[m.end..]))
  }

  function TriggerMessage(setting: Setting, kind: Kind, text: string, args: seq<string>): string {
    (if kind.Command? then setting.prefix + text else text) + if args == [] then "" else " " + Join(args)
  }

  predicate Reflexive(setting: Setting) {
    forall c: char :: setting.same(c, c)
  }

  /** The alternative a Command trigger takes before its text: a mention of the bot, else the prefix. */
  function Taken(setting: Setting, before: seq<string>, text: string, msg: string): (o: string)
    requires FirstCommand(setting, before, text, msg).Match?
    ensures o in before && CommandAfter(setting, o, text, msg) == FirstCommand(setting, before, text, msg)
  {
    if CommandAfter(setting, before[0], text, msg).Match? then before[0] else Taken(setting, before[1..], text, msg)
  }

  function Alternatives(setting: Setting): seq<string> {
    Mentions(setting) + [setting.prefix]
  }

  // ---------------------------------------------------------------- which messages trigger

  predicate Same(setting: Setting, a: string, b: string) {
    |a| == |b| && forall k :: 0 <= k < |a| ==> setting.same(a[k], b[k])
  }

  /** The literal stands in the message at that place. */
  predicate StandsAt(setting: Setting, literal: string, msg: string, at: int) {
    0 <= at <= |msg| - |literal| && Same(setting, literal, msg[at..at + |literal|])
  }

  lemma LiteralStands(setting: Setting, literal: string, msg: string, at: nat)
    ensures LiteralAt(setting, literal, msg, at) <==> StandsAt(setting, literal, msg, at)
  {
  }

  /** The message starts with the literal, and a space or nothing is behind it. */
  predicate Heads(setting: Setting, literal: string, msg: string) {
    && StandsAt(setting, literal, msg, 0)
    && (|msg| == |literal| || msg[|literal|] in [' ', '\t', '\n', '\r', 11 as char, 12 as char])
  }

  lemma {:induction false} LeftmostIs(setting: Setting, text: string, msg: string, at: nat)
    ensures match Leftmost(setting, text, msg, at)
            case NoMatch => forall i :: at <= i ==> !LiteralAt(setting, text, msg, i)
            case Match(end) =>
              exists i :: at <= i && end == i + |text| && LiteralAt(setting, text, msg, i)
                          && forall j :: at <= j < i ==> !LiteralAt(setting, text, msg, j)
    decreases |msg| - at
  {
    if at <= |msg| && !LiteralAt(setting, text, msg, at) {
      LeftmostIs(setting, text, msg, at + 1);
    }
  }

  lemma {:induction false} SomeAlternative(setting: Setting, before: seq<string>, text: string, msg: string)
    ensures FirstCommand(setting, before, text, msg).Match?
       <==> exists o :: o in before && CommandAfter(setting, o, text, msg).Match?
  {
    if before != [] {
      SomeAlternative(setting, before[1..], text, msg);
      assert forall o :: o in before <==> o == before[0] || o in before[1..];
    }
  }

  /** The messages that trigger: the text and no more, the text at the start, the text anywhere (and then
      its first occurrence), and for a Command the text after the prefix or a mention of the bot, with a
      space or nothing behind it. */
  lemma MatchesIff(setting: Setting, kind: Kind, text: string, msg: string)
    ensures var m := CheckMatch(setting, kind, text, msg);
            match kind
            case ExactMatch => m == if Same(setting, text, msg) then Match(|msg|) else NoMatch
            case StartsWith => m == if StandsAt(setting, text, msg, 0) then Match(|text|) else NoMatch
            case Contains =>
              && (m.Match? <==> exists i :: StandsAt(setting, text, msg, i))
              && (m.Match? ==> StandsAt(setting, text, msg, m.end - |text|)
                               && forall i :: i < m.end - |text| ==> !StandsAt(setting, text, msg, i))
            case Command =>
              m.Match? <==> || Heads(setting, setting.prefix + text, msg)
                            || Heads(setting, "<@" + setting.botID + ">" + text, msg)
                            || Heads(setting, "<@" + setting.botID + "> " + text, msg)
                            || Heads(setting, "<@!" + setting.botID + ">" + text, msg)
                            || Heads(setting, "<@!" + setting.botID + "> " + text, msg)
  {
    match kind
    case ExactMatch => assert msg[0..|msg|] == msg;
    case StartsWith => LiteralStands(setting, text, msg, 0);
    case Contains => ContainsIff(setting, text, msg);
    case Command => CommandIff(setting, text, msg);
  }

  lemma ContainsIff(setting: Setting, text: string, msg: string)
    ensures var m := CheckMatch(setting, Contains, text, msg);
            && (m.Match? <==> exists i :: StandsAt(setting, text, msg, i))
            && (m.Match? ==> StandsAt(setting, text, msg, m.end - |text|)
                             && forall i :: i < m.end - |text| ==> !StandsAt(setting, text, msg, i))
  {
    hide Same, Leftmost;
    LeftmostIs(setting, text, msg, 0);
    forall i: nat ensures LiteralAt(setting, text, msg, i) <==> StandsAt(setting, text, msg, i) {
      LiteralStands(setting, text, msg, i);
    }
    hide LiteralAt, StandsAt;
    assert forall i :: i < 0 ==> !StandsAt(setting, text, msg, i) by { NotBefore(setting, text, msg); }
  }

  lemma NotBefore(setting: Setting, text: string, msg: string)
    ensures forall i :: i < 0 ==> !StandsAt(setting, text, msg, i)
    ensures forall i: nat :: LiteralAt(setting, text, msg, i) ==> i + |text| <= |msg|
  {
  }

  lemma CommandIff(setting: Setting, text: string, msg: string)
    ensures CheckMatch(setting, Command, text, msg).Match? <==>
              || Heads(setting, setting.prefix + text, msg)
              || Heads(setting, "<@" + setting.botID + ">" + text, msg)
              || Heads(setting, "<@" + setting.botID + "> " + text, msg)
              || Heads(setting, "<@!" + setting.botID + ">" + text, msg)
              || Heads(setting, "<@!" + setting.botID + "> " + text, msg)
  {
    hide Same, LiteralAt;
    var all := Alternatives(setting);
    SomeAlternative(setting, all, text, msg);
    forall o ensures CommandAfter(setting, o, text, msg).Match? <==> Heads(setting, o + text, msg) {
      LiteralStands(setting, o + text, msg, 0);
    }
    if FirstCommand(setting, all, text, msg).Match? {
      LiteralStands(setting, Taken(setting, all, text, msg) + text, msg, 0);
    }
    assert all[0] == "<@!" + setting.botID + "> " && all[1] == "<@!" + setting.botID + ">";
    assert all[2] == "<@" + setting.botID + "> " && all[3] == "<@" + setting.botID + ">" && all[4] == setting.prefix;
    assert forall o :: o in all <==> o == all[0] || o == all[1] || o == all[2] || o == all[3] || o == all[4];
  }

  lemma SplitAfterSpace(text: string)
    ensures Split(" " + text) == Split(text)
  {
    assert (" " + text)[1..] == text;
    assert Next(START, ' ') == START;
  }

  lemma LiteralPrefix(setting: Setting, literal: string, rest: string)
    requires Reflexive(setting)
    ensures LiteralAt(setting, literal, literal + rest, 0)
  {
  }

  /** Some alternative matches once one does. */
  lemma {:induction false} FirstMatches(setting: Setting, before: seq<string>, o: string, text: string, msg: string)
    requires o in before && CommandAfter(setting, o, text, msg).Match?
    ensures FirstCommand(setting, before, text, msg).Match?
  {
    if !CommandAfter(setting, before[0], text, msg).Match? {
      FirstMatches(setting, before[1..], o, text, msg);
    }
  }

  /** The message always triggers, wherever its match then ends. */
  lemma MessageTriggers(setting: Setting, kind: Kind, text: string, args: seq<string>)
    requires Reflexive(setting) && !kind.ExactMatch?
    ensures var msg := TriggerMessage(setting, kind, text, args);
            && CheckMatch(setting, kind, text, msg).Match?
            && (kind.Command? ==> FirstCommand(setting, Alternatives(setting), text, msg).Match?)
  {
    hide Join;
    var msg := TriggerMessage(setting, kind, text, args);
    var head := if kind.Command? then setting.prefix + text else text;
    var rest := if args == [] then "" else " " + Join(args);
    assert msg == head + rest;
    LiteralPrefix(setting, head, rest);
    if kind.Command? {
      assert args != [] ==> msg[|head|] == ' ';
      assert Alternatives(setting)[4] == setting.prefix;
      FirstMatches(setting, Alternatives(setting), setting.prefix, text, msg);
      var o := Taken(setting, Alternatives(setting), text, msg);
      assert CommandAfter(setting, o, text, msg) == CheckMatch(setting, kind, text, msg);
    }
  }

  /** A Command, Starts with or Contains message triggers, and unless a Command takes a mention of
      another length than the prefix before its text, gives its arguments back less the spaces they
      start with: hence exactly when none starts with one. */
  lemma TriggerRoundTrip(setting: Setting, kind: Kind, text: string, args: seq<string>)
    requires Reflexive(setting) && !kind.ExactMatch?
    ensures var msg := TriggerMessage(setting, kind, text, args);
            var m := CheckMatch(setting, kind, text, msg);
            && m.Match?
            && (kind.Command? ==> FirstCommand(setting, Alternatives(setting), text, msg).Match?)
            && ((kind.Command? ==> |Taken(setting, Alternatives(setting), text, msg)| == |setting.prefix|) ==>
                  && Arguments(msg, m) == Texts(AllBack(args))
                  && (Arguments(msg, m) == args <==> forall a :: a in args ==> a == "" || a[0] != ' '))
  {
    hide Split, Join, Texts;
    var msg := TriggerMessage(setting, kind, text, args);
    var head := if kind.Command? then setting.prefix + text else text;
    var rest := if args == [] then "" else " " + Join(args);
    assert msg == head + rest;
    LiteralPrefix(setting, head, rest);
    MessageTriggers(setting, kind, text, args);
    var m := CheckMatch(setting, kind, text, msg);
    SplitJoin(args);
    RoundTripIff(args);
    SplitAfterSpace(Join(args));
    JoinNothing();
    if kind.Command? ==> |Taken(setting, Alternatives(setting), text, msg)| == |setting.prefix| {
      if args == [] {
        assert msg[m.end..] == "";
      } else {
        assert rest[0] == ' ' && rest[1..] == Join(args);
        assert msg[m.end..] == if kind.Command? then Join(args) else rest;
      }
    }
  }

  lemma JoinNothing()
    ensures Join([]) == ""
  {
  }

  /** Without that an argument may be lost: with no prefix and a mention of the bot for its text, a
      Command takes the mention before its text from the arguments. */
  lemma MentionIsTaken()
    ensures var setting, text, args := Setting("", "1", (a: char, b: char) => a == b), "<@1>", ["<@1>", "a"];
            var m := CheckMatch(setting, Command, text, TriggerMessage(setting, Command, text, args));
            m.Match? && Arguments(TriggerMessage(setting, Command, text, args), m) == ["a"]
  {
    hide Split;
    var setting, text, args := Setting("", "1", (a: char, b: char) => a == b), "<@1>", ["<@1>", "a"];
    var msg, all := "<@1> <@1> a", Alternatives(setting);
    assert Join(args[1..]) == "a" && Join(args) == "<@1> a" by { JoinsPlainly(); }
    assert TriggerMessage(setting, Command, text, args) == msg;
    assert CommandAfter(setting, all[0], text, msg) == NoMatch
      && CommandAfter(setting, all[1], text, msg) == NoMatch by {
      assert (all[0] + text)[2] == '!' && (all[1] + text)[2] == '!' && msg[2] == '1';
    }
    assert all[2] + text == "<@1> <@1>" && CommandAfter(setting, all[2], text, msg) == Match(10);
    assert FirstCommand(setting, all, text, msg) == FirstCommand(setting, all[1..], text, msg);
    assert FirstCommand(setting, all[1..], text, msg) == FirstCommand(setting, all[1..][1..], text, msg);
    assert FirstCommand(setting, all[1..][1..], text, msg) == Match(10);
    SplitJoin(["a"]);
    JoinsPlainly();
    AllBackAt(["a"]);
    assert msg[10..] == "a" && "a"[0] == 'a';
  }

  lemma JoinsPlainly()
    ensures Join(["a"]) == "a" && Join(["<@1>", "a"]) == "<@1> a"
  {
    assert !NeedsQuotes("a") && !NeedsQuotes("<@1>");
    assert ["<@1>", "a"][1..] == ["a"];
  }
}
