/** The check for database calls in loops (loopcheck.go): a walk over each template that follows the
    templates called in its loops, whatever calls whatever. */
module LoopCheck {

  import opened Basics
  import opened Syntax
  import Interp

  /** The functions whose first counter is the database's (limits.go). */
  predicate IsDBFunc(name: string) {
    name in {"dbGet", "dbSet", "dbSetExpire", "dbDel", "dbDelById", "dbDelByID", "dbIncr", "dbGetPattern",
             "dbGetPatternReverse", "dbCount", "dbTopEntries", "dbBottomEntries", "dbRank", "dbDelMultiple"}
  }

  // ---------------------------------------------------------------- what a walk meets

  /** A database function's name, or a call of a defined template; inLoop says whether it may run more
      than once. */
  datatype Event = Use(func: string, inLoop: bool) | Callee(name: string, inLoop: bool)

  function ArgEvents(a: Arg, inLoop: bool): seq<Event> {
    match a
    case Ident(name) => if IsDBFunc(name) then [Use(name, inLoop)] else []
    case Paren(pipe) => PipeEvents(pipe, inLoop)
    case Chain(node, _) => ArgEvents(node, inLoop)
    case _ => []
  }

  function ArgsEvents(args: seq<Arg>, inLoop: bool): seq<Event> {
    if args == [] then [] else ArgEvents(args[0], inLoop) + ArgsEvents(args[1..], inLoop)
  }

  /** execTemplate with a literal name runs that template. */
  function LiteralCallee(cmd: Command, inLoop: bool): seq<Event> {
    var args := cmd.args;
    if |args| > 1 && args[0] == Ident(Interp.EXEC_TEMPLATE) && args[1].Str? then [Callee(args[1].text, inLoop)] else []
  }

  function CommandsEvents(cmds: seq<Command>, inLoop: bool): seq<Event> {
    if cmds == [] then []
    else LiteralCallee(cmds[0], inLoop) + ArgsEvents(cmds[0].args, inLoop) + CommandsEvents(cmds[1..], inLoop)
  }

  function PipeEvents(p: Pipe, inLoop: bool): seq<Event> {
    CommandsEvents(p.cmds, inLoop)
  }

  function PipesEvents(ps: seq<Pipe>, inLoop: bool): seq<Event> {
    if ps == [] then [] else PipeEvents(ps[0], inLoop) + PipesEvents(ps[1..], inLoop)
  }

  /** A range's expression runs once, a while's condition before every round; only bodies repeat. */
  function NodeEvents(n: Node, inLoop: bool): seq<Event> {
    match n
    case Action(pipe) => PipeEvents(pipe, inLoop)
    case Branch(kind, pipe, list, elseList) =>
      PipeEvents(pipe, inLoop || kind.While?)
      + Events(list, inLoop || kind.Range? || kind.While?)
      + Events(elseList, inLoop)
    case Try(list, catchList) => Events(list, inLoop) + Events(catchList, inLoop)
    case Return(pipes) => PipesEvents(pipes, inLoop)
    case Template(name, pipes) => PipesEvents(pipes, inLoop) + [Callee(name, inLoop)]
    case _ => []
  }

  function Events(nodes: seq<Node>, inLoop: bool): seq<Event> {
    if nodes == [] then [] else NodeEvents(nodes[0], inLoop) + Events(nodes[1..], inLoop)
  }

  function Uses(events: seq<Event>): seq<string> {
    if events == [] then [] else (if events[0].Use? then [events[0].func] else []) + Uses(events[1..])
  }

  function Callees(events: seq<Event>): seq<string> {
    if events == [] then [] else (if events[0].Callee? then [events[0].name] else []) + Callees(events[1..])
  }

  type Trees = map<string, seq<Node>>

  function TreeUses(trees: Trees, name: string): seq<string> {
    if name in trees then Uses(Events(trees[name], true)) else []
  }

  function TreeCalls(trees: Trees, name: string): seq<string> {
    if name in trees then Callees(Events(trees[name], true)) else []
  }

  // ---------------------------------------------------------------- the search

  lemma FewerLeft(all: set<string>, s: set<string>, t: set<string>)
    requires s <= t
    ensures |all - t| <= |all - s|
    ensures (exists x :: x in all && x in t && x !in s) ==> |all - t| < |all - s|
  {
    SubsetSize(all - t, all - s);
    if x :| x in all && x in t && x !in s {
      SubsetSize(all - t, all - s - {x});
    }
  }

  datatype Search = Search(found: string, seen: set<string>)

  /** dbFuncIn: the first database function of the template, or of a template it calls, marking every
      template it looks into. */
  function Find(trees: Trees, name: string, seen: set<string>): (s: Search)
    ensures seen <= s.seen
    decreases |trees.Keys - seen|, 1, 0
  {
    if name !in trees || name in seen then Search("", seen)
    else
      FewerLeft(trees.Keys, seen, seen + {name});
      if TreeUses(trees, name) != [] then Search(TreeUses(trees, name)[0], seen + {name})
      else FindFirst(trees, TreeCalls(trees, name), seen + {name})
  }

  function FindFirst(trees: Trees, names: seq<string>, seen: set<string>): (s: Search)
    ensures seen <= s.seen
    decreases |trees.Keys - seen|, 2, |names|
  {
    if names == [] then Search("", seen)
    else
      var s := Find(trees, names[0], seen);
      FewerLeft(trees.Keys, seen, s.seen);
      if s.found != "" then s else FindFirst(trees, names[1..], s.seen)
  }

  /** A chain of calls. */
  ghost predicate IsPath(trees: Trees, path: seq<string>) {
    path != [] && forall i :: 0 <= i < |path| - 1 ==> path[i + 1] in TreeCalls(trees, path[i])
  }

  /** Some chain of calls from the name ends in a template that uses a database function. */
  ghost predicate ReachesDB(trees: Trees, name: string, f: string) {
    exists path :: IsPath(trees, path) && path[0] == name && f in TreeUses(trees, path[|path| - 1])
  }

  lemma UseReaches(trees: Trees, name: string, f: string)
    requires f in TreeUses(trees, name)
    ensures ReachesDB(trees, name, f)
  {
    var path := [name];
    assert IsPath(trees, path) && f in TreeUses(trees, path[|path| - 1]);
  }

  lemma CallReaches(trees: Trees, name: string, called: string, f: string)
    requires called in TreeCalls(trees, name) && ReachesDB(trees, called, f)
    ensures ReachesDB(trees, name, f)
  {
    hide TreeUses, TreeCalls;
    var path :| IsPath(trees, path) && path[0] == called && f in TreeUses(trees, path[|path| - 1]);
    var longer := [name] + path;
    forall i | 0 <= i < |longer| - 1 ensures longer[i + 1] in TreeCalls(trees, longer[i]) {
      if i > 0 {
        assert path[i - 1 + 1] in TreeCalls(trees, path[i - 1]);
      }
    }
    assert longer[|longer| - 1] == path[|path| - 1];
  }

  /** What a search that found nothing knows of the templates it marked: they use no database function,
      and what they call is marked too. */
  ghost predicate Cleared(trees: Trees, before: set<string>, after: set<string>) {
    forall n :: n in after && n !in before ==>
      n in trees && TreeUses(trees, n) == [] && forall c :: c in TreeCalls(trees, n) && c in trees ==> c in after
  }

  lemma UsesAreDB(events: seq<Event>)
    requires forall e :: e in events && e.Use? ==> IsDBFunc(e.func)
    ensures forall f :: f in Uses(events) ==> f != ""
  {
    if events != [] {
      assert events[0] in events;
      assert forall e :: e in events[1..] ==> e in events;
      UsesAreDB(events[1..]);
      assert !IsDBFunc("");
    }
  }

  lemma {:induction false} ArgEventsDB(a: Arg, inLoop: bool)
    ensures forall e :: e in ArgEvents(a, inLoop) ==> (e.Use? ==> IsDBFunc(e.func)) && (inLoop ==> e.inLoop)
    decreases a, 0
  {
    if a.Paren? {
      CommandsEventsDB(a.pipe.cmds, inLoop);
    } else if a.Chain? {
      ArgEventsDB(a.node, inLoop);
    }
  }

  lemma {:induction false} ArgsEventsDB(args: seq<Arg>, inLoop: bool)
    ensures forall e :: e in ArgsEvents(args, inLoop) ==> (e.Use? ==> IsDBFunc(e.func)) && (inLoop ==> e.inLoop)
    decreases args, 0
  {
    if args != [] {
      ArgEventsDB(args[0], inLoop);
      ArgsEventsDB(args[1..], inLoop);
    }
  }

  lemma {:induction false} CommandsEventsDB(cmds: seq<Command>, inLoop: bool)
    ensures forall e :: e in CommandsEvents(cmds, inLoop) ==> (e.Use? ==> IsDBFunc(e.func)) && (inLoop ==> e.inLoop)
    decreases cmds, 0
  {
    if cmds != [] {
      ArgsEventsDB(cmds[0].args, inLoop);
      CommandsEventsDB(cmds[1..], inLoop);
    }
  }

  lemma {:induction false} PipesEventsDB(ps: seq<Pipe>, inLoop: bool)
    ensures forall e :: e in PipesEvents(ps, inLoop) ==> (e.Use? ==> IsDBFunc(e.func)) && (inLoop ==> e.inLoop)
    decreases ps, 0
  {
    if ps != [] {
      CommandsEventsDB(ps[0].cmds, inLoop);
      PipesEventsDB(ps[1..], inLoop);
    }
  }

  lemma {:induction false} EventsDB(nodes: seq<Node>, inLoop: bool)
    ensures forall e :: e in Events(nodes, inLoop) ==> (e.Use? ==> IsDBFunc(e.func)) && (inLoop ==> e.inLoop)
    decreases nodes, 1
  {
    if nodes != [] {
      NodeEventsDB(nodes[0], inLoop);
      EventsDB(nodes[1..], inLoop);
    }
  }

  lemma {:induction false} NodeEventsDB(n: Node, inLoop: bool)
    ensures forall e :: e in NodeEvents(n, inLoop) ==> (e.Use? ==> IsDBFunc(e.func)) && (inLoop ==> e.inLoop)
    decreases n, 0
  {
    hide IsDBFunc;
    if n.Action? {
      CommandsEventsDB(n.pipe.cmds, inLoop);
    } else if n.Branch? {
      CommandsEventsDB(n.pipe.cmds, inLoop || n.kind.While?);
      EventsDB(n.list, inLoop || n.kind.Range? || n.kind.While?);
      EventsDB(n.elseList, inLoop);
    } else if n.Try? {
      EventsDB(n.list, inLoop);
      EventsDB(n.catchList, inLoop);
    } else if n.Return? || n.Template? {
      PipesEventsDB(n.pipes, inLoop);
    }
  }

  lemma TreeUsesNamed(trees: Trees, name: string)
    ensures forall f :: f in TreeUses(trees, name) ==> f != ""
  {
    if name in trees {
      EventsDB(trees[name], true);
      UsesAreDB(Events(trees[name], true));
    }
  }

  lemma {:induction false} FindIsRight(trees: Trees, name: string, seen: set<string>)
    ensures var s := Find(trees, name, seen);
            && (s.found != "" ==> ReachesDB(trees, name, s.found))
            && (s.found == "" ==> Cleared(trees, seen, s.seen) && (name in trees ==> name in s.seen))
    decreases |trees.Keys - seen|, 1, 0
  {
    hide TreeUses, TreeCalls, ReachesDB;
    if name in trees && name !in seen {
      FewerLeft(trees.Keys, seen, seen + {name});
      TreeUsesNamed(trees, name);
      if TreeUses(trees, name) != [] {
        assert TreeUses(trees, name)[0] in TreeUses(trees, name);
        UseReaches(trees, name, TreeUses(trees, name)[0]);
      } else {
        FindFirstIsRight(trees, TreeCalls(trees, name), seen + {name});
        var s := FindFirst(trees, TreeCalls(trees, name), seen + {name});
        if s.found != "" {
          var c :| c in TreeCalls(trees, name) && ReachesDB(trees, c, s.found);
          CallReaches(trees, name, c, s.found);
        }
      }
    }
  }

  lemma {:induction false} FindFirstIsRight(trees: Trees, names: seq<string>, seen: set<string>)
    ensures var s := FindFirst(trees, names, seen);
            && (s.found != "" ==> exists c :: c in names && ReachesDB(trees, c, s.found))
            && (s.found == "" ==> Cleared(trees, seen, s.seen) && forall c :: c in names && c in trees ==> c in s.seen)
    decreases |trees.Keys - seen|, 2, |names|
  {
    hide TreeUses, TreeCalls, ReachesDB;
    if names != [] {
      var s := Find(trees, names[0], seen);
      FindIsRight(trees, names[0], seen);
      FewerLeft(trees.Keys, seen, s.seen);
      if s.found == "" {
        FindFirstIsRight(trees, names[1..], s.seen);
        assert forall c :: c in names <==> c == names[0] || c in names[1..];
      } else {
        assert names[0] in names;
      }
    }
  }

  /** Nothing is reachable from a cleared set but the set and names that are no template. */
  lemma {:induction false} ClearedHasNone(trees: Trees, seen: set<string>, path: seq<string>, f: string)
    requires Cleared(trees, {}, seen) && IsPath(trees, path) && (path[0] in trees ==> path[0] in seen)
    ensures f !in TreeUses(trees, path[|path| - 1])
    decreases |path|
  {
    hide TreeCalls;
    if |path| > 1 {
      assert path[1] in TreeCalls(trees, path[0]);
      if path[0] in trees {
        var rest := path[1..];
        forall i | 0 <= i < |rest| - 1 ensures rest[i + 1] in TreeCalls(trees, rest[i]) {
          assert path[i + 1 + 1] in TreeCalls(trees, path[i + 1]);
        }
        ClearedHasNone(trees, seen, rest, f);
      } else {
        NoCalls(trees, path[0]);
      }
    }
  }

  lemma NoCalls(trees: Trees, name: string)
    requires name !in trees
    ensures TreeCalls(trees, name) == []
  {
  }

  /** The search finds a function exactly when some chain of calls reaches one, and then one that is
      reached; it ends on every call graph, cycles included. */
  lemma FindIff(trees: Trees, name: string)
    ensures var f := Find(trees, name, {}).found;
            && (f != "" ==> ReachesDB(trees, name, f))
            && (f == "" <==> forall g :: !ReachesDB(trees, name, g))
  {
    hide Cleared, TreeUses;
    var s := Find(trees, name, {});
    FindIsRight(trees, name, {});
    if s.found == "" {
      forall g ensures !ReachesDB(trees, name, g) {
        forall path | IsPath(trees, path) && path[0] == name ensures g !in TreeUses(trees, path[|path| - 1]) {
          ClearedHasNone(trees, s.seen, path, g);
        }
      }
    }
  }

  // ---------------------------------------------------------------- what is flagged

  datatype Finding = Direct(func: string) | Through(name: string, func: string)

  /** What a walk finds at an event; template calls count only when the walk resolves them. */
  function FlagOne(trees: Trees, resolve: bool, e: Event): seq<Finding> {
    if !e.inLoop then []
    else if e.Use? then [Direct(e.func)]
    else if resolve && Find(trees, e.name, {}).found != "" then [Through(e.name, Find(trees, e.name, {}).found)]
    else []
  }

  function Flag(trees: Trees, resolve: bool, events: seq<Event>): seq<Finding> {
    if events == [] then [] else FlagOne(trees, resolve, events[0]) + Flag(trees, resolve, events[1..])
  }

  lemma {:induction false} FlagAppend(trees: Trees, resolve: bool, a: seq<Event>, b: seq<Event>)
    ensures Flag(trees, resolve, a + b) == Flag(trees, resolve, a) + Flag(trees, resolve, b)
    ensures Callees(a + b) == Callees(a) + Callees(b)
    decreases |a|
  {
    hide FlagOne;
    if a == [] {
      assert a + b == b;
    } else {
      assert (a + b)[1..] == a[1..] + b;
      FlagAppend(trees, resolve, a[1..], b);
    }
  }

  lemma FlagSingle(trees: Trees, resolve: bool, e: Event)
    ensures Flag(trees, resolve, [e]) == FlagOne(trees, resolve, e)
    ensures Callees([e]) == if e.Callee? then [e.name] else []
  {
    hide FlagOne;
    assert [e][1..] == [];
  }

  // ---------------------------------------------------------------- what a loop of a tree holds

  predicate UsesDatabase(func: string) {
    || func == "dbGet" || func == "dbSet" || func == "dbSetExpire" || func == "dbDel" || func == "dbDelById"
    || func == "dbDelByID" || func == "dbIncr" || func == "dbGetPattern" || func == "dbGetPatternReverse"
    || func == "dbCount" || func == "dbTopEntries" || func == "dbBottomEntries" || func == "dbRank"
    || func == "dbDelMultiple"
  }

  lemma DBFuncUsesDatabase(func: string)
    ensures IsDBFunc(func) <==> UsesDatabase(func)
  {
  }

  /** The call stands somewhere in the operand, whatever its flag says. */
  predicate ArgMentions(a: Arg, e: Event) {
    match a
    case Ident(name) => e.Use? && e.func == name && UsesDatabase(name)
    case Paren(pipe) => PipeMentions(pipe, e)
    case Chain(node, _) => ArgMentions(node, e)
    case _ => false
  }

  predicate ArgsMention(args: seq<Arg>, e: Event) {
    args != [] && (ArgMentions(args[0], e) || ArgsMention(args[1..], e))
  }

  predicate CommandsMention(cmds: seq<Command>, e: Event) {
    cmds != [] &&
    var args := cmds[0].args;
    || (e.Callee? && |args| > 1 && args[0] == Ident(Interp.EXEC_TEMPLATE) && args[1] == Str(e.name))
    || ArgsMention(args, e)
    || CommandsMention(cmds[1..], e)
  }

  predicate PipeMentions(p: Pipe, e: Event) {
    CommandsMention(p.cmds, e)
  }

  predicate PipesMention(ps: seq<Pipe>, e: Event) {
    ps != [] && (PipeMentions(ps[0], e) || PipesMention(ps[1..], e))
  }

  predicate NodeMentions(n: Node, e: Event) {
    match n
    case Action(pipe) => PipeMentions(pipe, e)
    case Branch(_, pipe, list, elseList) => PipeMentions(pipe, e) || Mentions(list, e) || Mentions(elseList, e)
    case Try(list, catchList) => Mentions(list, e) || Mentions(catchList, e)
    case Return(pipes) => PipesMention(pipes, e)
    case Template(name, pipes) => PipesMention(pipes, e) || (e.Callee? && e.name == name)
    case _ => false
  }

  predicate Mentions(nodes: seq<Node>, e: Event) {
    nodes != [] && (NodeMentions(nodes[0], e) || Mentions(nodes[1..], e))
  }

  /** The call stands in the body of a range of the tree, or in the condition or body of a while. */
  predicate NodeRepeats(n: Node, e: Event) {
    match n
    case Branch(kind, pipe, list, elseList) =>
      || (kind.Range? && Mentions(list, e))
      || (kind.While? && (PipeMentions(pipe, e) || Mentions(list, e)))
      || Repeats(list, e)
      || Repeats(elseList, e)
    case Try(list, catchList) => Repeats(list, e) || Repeats(catchList, e)
    case _ => false
  }

  predicate Repeats(nodes: seq<Node>, e: Event) {
    nodes != [] && (NodeRepeats(nodes[0], e) || Repeats(nodes[1..], e))
  }

  lemma {:induction false} RepeatsMentioned(nodes: seq<Node>, e: Event)
    ensures Repeats(nodes, e) ==> Mentions(nodes, e)
    decreases nodes, 1
  {
    if nodes != [] {
      NodeRepeatsMentioned(nodes[0], e);
      RepeatsMentioned(nodes[1..], e);
    }
  }

  lemma {:induction false} NodeRepeatsMentioned(n: Node, e: Event)
    ensures NodeRepeats(n, e) ==> NodeMentions(n, e)
    decreases n, 0
  {
    match n
    case Branch(_, _, list, elseList) =>
      RepeatsMentioned(list, e);
      RepeatsMentioned(elseList, e);
    case Try(list, catchList) =>
      RepeatsMentioned(list, e);
      RepeatsMentioned(catchList, e);
    case _ =>
  }

  lemma {:induction false} ArgMeets(a: Arg, e: Event, inLoop: bool)
    ensures e in ArgEvents(a, inLoop) <==> e.inLoop == inLoop && ArgMentions(a, e)
    decreases a, 0
  {
    hide IsDBFunc, UsesDatabase;
    match a
    case Ident(name) => DBFuncUsesDatabase(name);
    case Paren(pipe) => CommandsMeet(pipe.cmds, e, inLoop);
    case Chain(node, _) => ArgMeets(node, e, inLoop);
    case _ =>
  }

  lemma {:induction false} ArgsMeet(args: seq<Arg>, e: Event, inLoop: bool)
    ensures e in ArgsEvents(args, inLoop) <==> e.inLoop == inLoop && ArgsMention(args, e)
    decreases args, 0
  {
    if args != [] {
      ArgMeets(args[0], e, inLoop);
      ArgsMeet(args[1..], e, inLoop);
    }
  }

  lemma {:induction false} CommandsMeet(cmds: seq<Command>, e: Event, inLoop: bool)
    ensures e in CommandsEvents(cmds, inLoop) <==> e.inLoop == inLoop && CommandsMention(cmds, e)
    decreases cmds, 0
  {
    if cmds != [] {
      ArgsMeet(cmds[0].args, e, inLoop);
      CommandsMeet(cmds[1..], e, inLoop);
    }
  }

  lemma {:induction false} PipesMeet(ps: seq<Pipe>, e: Event, inLoop: bool)
    ensures e in PipesEvents(ps, inLoop) <==> e.inLoop == inLoop && PipesMention(ps, e)
    decreases ps, 0
  {
    if ps != [] {
      CommandsMeet(ps[0].cmds, e, inLoop);
      PipesMeet(ps[1..], e, inLoop);
    }
  }

  /** The walk meets a call as one that may repeat exactly when a loop of the tree holds it, and, in a
      tree walked as the body of a loop, exactly when the tree mentions it. */
  lemma {:induction false} EventsRepeat(nodes: seq<Node>, e: Event)
    requires e.inLoop
    ensures e in Events(nodes, true) <==> Mentions(nodes, e)
    ensures e in Events(nodes, false) <==> Repeats(nodes, e)
    decreases nodes, 1
  {
    if nodes != [] {
      NodeEventsRepeat(nodes[0], e);
      EventsRepeat(nodes[1..], e);
    }
  }

  lemma {:induction false} NodeEventsRepeat(n: Node, e: Event)
    requires e.inLoop
    ensures e in NodeEvents(n, true) <==> NodeMentions(n, e)
    ensures e in NodeEvents(n, false) <==> NodeRepeats(n, e)
    decreases n, 0
  {
    match n
    case Action(pipe) =>
      CommandsMeet(pipe.cmds, e, true);
      CommandsMeet(pipe.cmds, e, false);
    case Branch(_, pipe, list, elseList) =>
      CommandsMeet(pipe.cmds, e, true);
      CommandsMeet(pipe.cmds, e, false);
      EventsRepeat(list, e);
      EventsRepeat(elseList, e);
      RepeatsMentioned(list, e);
    case Try(list, catchList) =>
      EventsRepeat(list, e);
      EventsRepeat(catchList, e);
    case Return(pipes) =>
      PipesMeet(pipes, e, true);
      PipesMeet(pipes, e, false);
    case Template(_, pipes) =>
      PipesMeet(pipes, e, true);
      PipesMeet(pipes, e, false);
    case _ =>
  }

  /** What a template uses and calls is what its tree mentions, in a loop or not. */
  lemma {:induction false} UsesAndCalls(events: seq<Event>)
    requires forall e :: e in events ==> e.inLoop
    ensures forall f :: f in Uses(events) <==> Use(f, true) in events
    ensures forall t :: t in Callees(events) <==> Callee(t, true) in events
    decreases |events|
  {
    if events != [] {
      assert events[0] in events && forall e :: e in events[1..] ==> e in events;
      UsesAndCalls(events[1..]);
    }
  }

  lemma TreeMentions(trees: Trees, name: string, f: string)
    ensures f in TreeUses(trees, name) <==> name in trees && Mentions(trees[name], Use(f, true))
    ensures f in TreeCalls(trees, name) <==> name in trees && Mentions(trees[name], Callee(f, true))
  {
    if name in trees {
      EventsDB(trees[name], true);
      UsesAndCalls(Events(trees[name], true));
      EventsRepeat(trees[name], Use(f, true));
      EventsRepeat(trees[name], Callee(f, true));
    }
  }

  /** A finding is made for a call that may repeat: of a database function, or of a template from which
      a chain of calls reaches one. */
  predicate FindingOf(trees: Trees, e: Event, finding: Finding) {
    && e.inLoop
    && match finding
       case Direct(func) => e == Use(func, true)
       case Through(name, func) => e == Callee(name, true) && func != "" && func == Find(trees, name, {}).found
  }

  lemma {:induction false} FlagHas(trees: Trees, events: seq<Event>, finding: Finding)
    ensures finding in Flag(trees, true, events) <==> exists e :: e in events && FindingOf(trees, e, finding)
    decreases |events|
  {
    hide Find;
    if events != [] {
      FlagHas(trees, events[1..], finding);
      assert events[0] in events && forall e :: e in events <==> e == events[0] || e in events[1..];
      assert finding in FlagOne(trees, true, events[0]) <==> FindingOf(trees, events[0], finding);
    }
  }

  /** A tree's findings: the database functions its loops hold, and the templates its loops call that
      reach one, each with a function it reaches. */
  lemma TreeFindings(trees: Trees, nodes: seq<Node>)
    ensures var found := Flag(trees, true, Events(nodes, false));
            && (forall f :: Direct(f) in found <==> Repeats(nodes, Use(f, true)))
            && (forall t, f :: Through(t, f) in found ==> Repeats(nodes, Callee(t, true)) && ReachesDB(trees, t, f))
            && (forall t, f :: Repeats(nodes, Callee(t, true)) && ReachesDB(trees, t, f) ==>
                  exists g :: Through(t, g) in found)
  {
    hide Find, ReachesDB, Repeats, Events, Flag;
    var events := Events(nodes, false);
    forall f ensures Direct(f) in Flag(trees, true, events) <==> Repeats(nodes, Use(f, true)) {
      FlagHas(trees, events, Direct(f));
      EventsRepeat(nodes, Use(f, true));
      assert FindingOf(trees, Use(f, true), Direct(f));
    }
    forall t, f | Through(t, f) in Flag(trees, true, events)
      ensures Repeats(nodes, Callee(t, true)) && ReachesDB(trees, t, f)
    {
      FlagHas(trees, events, Through(t, f));
      EventsRepeat(nodes, Callee(t, true));
      FindIff(trees, t);
    }
    forall t, f | Repeats(nodes, Callee(t, true)) && ReachesDB(trees, t, f)
      ensures exists g :: Through(t, g) in Flag(trees, true, events)
    {
      FindIff(trees, t);
      var g := Find(trees, t, {}).found;
      EventsRepeat(nodes, Callee(t, true));
      assert FindingOf(trees, Callee(t, true), Through(t, g));
      FlagHas(trees, events, Through(t, g));
    }
  }

  /** A tree is flagged exactly when a loop of it holds a database call, or the call of a template from
      which a chain of calls reaches one. */
  lemma FlaggedIff(trees: Trees, nodes: seq<Node>)
    ensures Flag(trees, true, Events(nodes, false)) != [] <==>
            || (exists f :: Repeats(nodes, Use(f, true)))
            || (exists t, f :: Repeats(nodes, Callee(t, true)) && ReachesDB(trees, t, f))
  {
    hide ReachesDB, Repeats, Events, Flag;
    TreeFindings(trees, nodes);
    var found := Flag(trees, true, Events(nodes, false));
    if found != [] {
      assert found[0] in found;
      match found[0]
      case Direct(f) =>
      case Through(t, f) =>
    }
  }

  // ---------------------------------------------------------------- the walk

  /** The templates a search has looked into, shared by its calls. */
  class Marks {
    var names: set<string>

    constructor ()
      ensures names == {}
    {
      names := {};
    }
  }

  class LoopWalker {
    const trees: Trees
    const resolveTemplates: bool
    var findings: seq<Finding>
    var called: seq<string>
    /** What the walk has met so far. */
    ghost var events: seq<Event>

    ghost predicate Valid()
      reads this
    {
      findings == Flag(trees, resolveTemplates, events) && called == Callees(events)
    }

    constructor (trees: Trees, resolveTemplates: bool)
      ensures this.trees == trees && this.resolveTemplates == resolveTemplates && Valid() && events == []
    {
      this.trees, this.resolveTemplates := trees, resolveTemplates;
      findings, called, events := [], [], [];
    }

    method Walk(nodes: seq<Node>, inLoop: bool)
      requires Valid()
      modifies this
      ensures Valid() && events == old(events) + Events(nodes, inLoop)
      decreases resolveTemplates, 3, nodes, 1
    {
      hide Valid, NodeEvents;
      ghost var was := events;
      for i := 0 to |nodes|
        invariant Valid() && events + Events(nodes[i..], inLoop) == was + Events(nodes, inLoop)
      {
        assert nodes[i..][1..] == nodes[i + 1..];
        ghost var here := events;
        WalkNode(nodes[i], inLoop);
        assert here + (NodeEvents(nodes[i], inLoop) + Events(nodes[i + 1..], inLoop))
            == events + Events(nodes[i + 1..], inLoop);
      }
    }

    method WalkNode(n: Node, inLoop: bool)
      requires Valid()
      modifies this
      ensures Valid() && events == old(events) + NodeEvents(n, inLoop)
      decreases resolveTemplates, 3, n, 0
    {
      hide Valid, Events, PipeEvents, PipesEvents;
      match n {
        case Action(pipe) =>
          WalkPipe(pipe, inLoop);
        case Branch(kind, pipe, list, elseList) =>
          WalkPipe(pipe, inLoop || kind.While?);
          Walk(list, inLoop || kind.Range? || kind.While?);
          Walk(elseList, inLoop);
        case Try(list, catchList) =>
          Walk(list, inLoop);
          Walk(catchList, inLoop);
        case Return(pipes) =>
          WalkPipes(pipes, inLoop);
        case Template(name, pipes) =>
          WalkPipes(pipes, inLoop);
          CalledTemplate(name, inLoop);
        case _ =>
      }
    }

    method WalkPipes(pipes: seq<Pipe>, inLoop: bool)
      requires Valid()
      modifies this
      ensures Valid() && events == old(events) + PipesEvents(pipes, inLoop)
      decreases resolveTemplates, 3, pipes, 0
    {
      hide Valid, PipeEvents;
      ghost var was := events;
      for i := 0 to |pipes|
        invariant Valid() && events + PipesEvents(pipes[i..], inLoop) == was + PipesEvents(pipes, inLoop)
      {
        assert pipes[i..][1..] == pipes[i + 1..];
        ghost var here := events;
        WalkPipe(pipes[i], inLoop);
        assert here + (PipeEvents(pipes[i], inLoop) + PipesEvents(pipes[i + 1..], inLoop))
            == events + PipesEvents(pipes[i + 1..], inLoop);
      }
    }

    method WalkPipe(p: Pipe, inLoop: bool)
      requires Valid()
      modifies this
      ensures Valid() && events == old(events) + PipeEvents(p, inLoop)
      decreases resolveTemplates, 3, p, 0
    {
      hide Valid, ArgsEvents, LiteralCallee;
      ghost var was := events;
      for i := 0 to |p.cmds|
        invariant Valid() && events + CommandsEvents(p.cmds[i..], inLoop) == was + PipeEvents(p, inLoop)
      {
        assert p.cmds[i..][1..] == p.cmds[i + 1..];
        var cmd := p.cmds[i];
        ghost var here, rest := events, CommandsEvents(p.cmds[i + 1..], inLoop);
        WalkCommand(cmd, inLoop);
        assert here + (LiteralCallee(cmd, inLoop) + ArgsEvents(cmd.args, inLoop) + rest) == events + rest;
      }
    }

    method WalkCommand(cmd: Command, inLoop: bool)
      requires Valid()
      modifies this
      ensures Valid() && events == old(events) + (LiteralCallee(cmd, inLoop) + ArgsEvents(cmd.args, inLoop))
      decreases resolveTemplates, 3, cmd, 0
    {
      hide Valid, ArgsEvents;
      if |cmd.args| > 1 && cmd.args[0] == Ident(Interp.EXEC_TEMPLATE) && cmd.args[1].Str? {
        CalledTemplate(cmd.args[1].text, inLoop);
      }
      assert events == old(events) + LiteralCallee(cmd, inLoop);
      WalkArgs(cmd.args, inLoop);
    }

    method WalkArgs(args: seq<Arg>, inLoop: bool)
      requires Valid()
      modifies this
      ensures Valid() && events == old(events) + ArgsEvents(args, inLoop)
      decreases resolveTemplates, 3, args, 0
    {
      hide Valid, ArgEvents;
      ghost var was := events;
      for i := 0 to |args|
        invariant Valid() && events + ArgsEvents(args[i..], inLoop) == was + ArgsEvents(args, inLoop)
      {
        assert args[i..][1..] == args[i + 1..];
        ghost var here := events;
        WalkArg(args[i], inLoop);
        assert here + (ArgEvents(args[i], inLoop) + ArgsEvents(args[i + 1..], inLoop))
            == events + ArgsEvents(args[i + 1..], inLoop);
      }
    }

    method WalkArg(a: Arg, inLoop: bool)
      requires Valid()
      modifies this
      ensures Valid() && events == old(events) + ArgEvents(a, inLoop)
      decreases resolveTemplates, 3, a, 0
    {
      hide PipeEvents, Flag, Callees;
      match a {
        case Ident(name) =>
          if IsDBFunc(name) {
            FlagSingle(trees, resolveTemplates, Use(name, inLoop));
            FlagAppend(trees, resolveTemplates, events, [Use(name, inLoop)]);
            events := events + [Use(name, inLoop)];
            if inLoop {
              findings := findings + [Direct(name)];
            }
          }
        case Paren(pipe) =>
          WalkPipe(pipe, inLoop);
        case Chain(node, _) =>
          WalkArg(node, inLoop);
        case _ =>
      }
    }

    /** A template call is recorded, and flagged when it may repeat and reaches a database function. */
    method CalledTemplate(name: string, inLoop: bool)
      requires Valid()
      modifies this
      ensures Valid() && events == old(events) + [Callee(name, inLoop)]
      decreases resolveTemplates, 2
    {
      hide Find;
      called := called + [name];
      FlagAppend(trees, resolveTemplates, events, [Callee(name, inLoop)]);
      events := events + [Callee(name, inLoop)];
      if inLoop && resolveTemplates {
        var seen := new Marks();
        var f := DbFuncIn(name, seen);
        if f != "" {
          findings := findings + [Through(name, f)];
        }
      }
    }

    /** The first database function the template, or one it calls, uses. */
    method DbFuncIn(name: string, seen: Marks) returns (f: string)
      requires resolveTemplates
      modifies seen
      ensures Search(f, seen.names) == Find(trees, name, old(seen.names))
      decreases resolveTemplates, 1, |trees.Keys - seen.names|
    {
      hide Flag, Callees, Uses, Events;
      if name !in trees || name in seen.names {
        return "";
      }
      FewerLeft(trees.Keys, seen.names, seen.names + {name});
      seen.names := seen.names + {name};
      var inner := new LoopWalker(trees, false);
      inner.Walk(trees[name], true);
      assert inner.events == Events(trees[name], true);
      EventsDB(trees[name], true);
      FlagUses(trees, inner.events);
      if |inner.findings| > 0 {
        return inner.findings[0].func;
      }
      var calls := inner.called;
      assert calls == TreeCalls(trees, name);
      ghost var start := seen.names;
      for i := 0 to |calls|
        invariant start <= seen.names
        invariant FindFirst(trees, calls[i..], seen.names) == FindFirst(trees, calls, start)
      {
        assert calls[i..][0] == calls[i] && calls[i..][1..] == calls[i + 1..];
        FewerLeft(trees.Keys, start, seen.names);
        f := DbFuncIn(calls[i], seen);
        if f != "" {
          return f;
        }
      }
      return "";
    }
  }

  /** Walked as if in a loop, a tree's findings are the database functions it uses. */
  lemma {:induction false} FlagUses(trees: Trees, events: seq<Event>)
    requires forall e :: e in events ==> e.inLoop
    ensures var found, uses := Flag(trees, false, events), Uses(events);
            |found| == |uses| && forall i :: 0 <= i < |found| ==> found[i] == Direct(uses[i])
    decreases |events|
  {
    hide Find;
    if events != [] {
      assert events[0] in events;
      assert forall e :: e in events[1..] ==> e in events;
      FlagUses(trees, events[1..]);
    }
  }

  /** Every template's findings, in the order the templates are listed. */
  function AllFindings(trees: Trees, names: seq<string>): seq<Finding> {
    if names == [] then []
    else
      var found := if names[0] in trees then Flag(trees, true, Events(trees[names[0]], false)) else [];
      found + AllFindings(trees, names[1..])
  }

  /** What all the trees' findings are. */
  ghost predicate RightFindings(trees: Trees, names: seq<string>, found: seq<Finding>) {
    && (forall f :: Direct(f) in found <==> exists n :: n in names && n in trees && Repeats(trees[n], Use(f, true)))
    && (forall t, f :: Through(t, f) in found ==>
          ReachesDB(trees, t, f) && exists n :: n in names && n in trees && Repeats(trees[n], Callee(t, true)))
    && (forall n, t, f :: n in names && n in trees && Repeats(trees[n], Callee(t, true)) && ReachesDB(trees, t, f) ==>
          exists g :: Through(t, g) in found)
  }

  lemma {:induction false} AllFindingsRight(trees: Trees, names: seq<string>)
    ensures RightFindings(trees, names, AllFindings(trees, names))
    decreases |names|
  {
    hide ReachesDB, Repeats, Events, Flag, Mentions;
    if names != [] {
      AllFindingsRight(trees, names[1..]);
      assert forall n :: n in names <==> n == names[0] || n in names[1..];
      if names[0] in trees {
        TreeFindings(trees, trees[names[0]]);
      }
    }
  }

  method FindLoopDBCalls(trees: Trees, names: seq<string>) returns (findings: seq<Finding>)
    ensures findings == AllFindings(trees, names) && RightFindings(trees, names, findings)
  {
    hide Flag, Events, RightFindings;
    AllFindingsRight(trees, names);
    findings := [];
    for i := 0 to |names|
      invariant findings + AllFindings(trees, names[i..]) == AllFindings(trees, names)
    {
      assert names[i..][0] == names[i] && names[i..][1..] == names[i + 1..];
      if names[i] in trees {
        var w := new LoopWalker(trees, true);
        w.Walk(trees[names[i]], false);
        assert w.events == Events(trees[names[i]], false);
        assert findings + (w.findings + AllFindings(trees, names[i + 1..]))
            == findings + w.findings + AllFindings(trees, names[i + 1..]);
        findings := findings + w.findings;
      } else {
        assert [] + AllFindings(trees, names[i + 1..]) == AllFindings(trees, names[i + 1..]);
      }
    }
  }
}
