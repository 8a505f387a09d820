/** Two files the whitespace pass gets wrong, one for each thing DroppingPreservesResponse asks of a
    file, on a command's data, in a world that answers as the engine does. In the first a range assigns and
    overwrites a container variable; in the second a define has the name the pass keeps for computed names. */
module Limits {
  import opened Basics
  import opened Blank
  import opened Syntax
  import opened Interp
  import opened Whitespace
  import opened Silence
  import opened Response

  /** An action with one command. */
  function Do(decl: seq<string>, args: seq<Arg>): Node {
    Action(One(false, decl, args))
  }

  function One(isAssign: bool, decl: seq<string>, args: seq<Arg>): Pipe {
    Pipe(isAssign, decl, [Command(args)])
  }

  // ---------------------------------------------------------------- a world that answers as the engine does

  const EMPTY := Container(0)  // sdict
  const LIST := Container(1)   // cslice (modalBuilder "m" "t")
  const DATA := Container(2)   // sdict "ExecData" true
  const BUILDER := Other(0)    // modalBuilder "m" "t"
  const DOT := Other(1)        // a command's data, a map
  const YES := Other(2)        // true
  const ZERO := Other(3)       // 0, an index
  const USER := Other(4)       // a field of the data

  const SHOWN := "{x templates-m []}"  // a modal builder with the title "x"

  /** A builder's methods return the builder. */
  function Answer(callee: Callee, args: seq<Value>): Value {
    match callee
    case Func(name) =>
      if IsSilentFunc(name) then Text("")
      else if name == "sdict" then if args == [] then EMPTY else DATA
      else if IsConstructor(name) then LIST
      else if name == "joinStr" then if |args| == 2 then args[1] else Text("")
      else BUILDER
    case Method(recv, name) => if recv.Container? then Text("") else recv
  }

  predicate Takes(callee: Callee, n: nat) {
    match callee
    case Func(name) => (name == "modalBuilder" ==> n >= 2) && (name == "joinStr" || name == EXEC_TEMPLATE ==> n >= 1)
    case Method(_, name) => (name == "Set" ==> n == 2) && (name == "Del" ==> n == 1)
  }

  /** A map has no field it holds no key for, but asking for one is no error. */
  function MemberOf(v: Value, name: string): Member {
    if v.Container? && IsSilentMethod(name) then IsMethod
    else if v == BUILDER then if name == "Set" || name == "AddComponents" then IsMethod else NoMember
    else if v == DATA && name == "ExecData" then IsField(YES)
    else if v == DOT && name == "User" then IsField(USER)
    else if v == EMPTY || v == DATA || v == DOT then IsField(NoValue)
    else NoMember
  }

  /** isTrue: not the zero of its type. */
  predicate Truth(v: Value) {
    match v
    case NoValue => false
    case Text(s) => s != ""
    case Container(_) => v != EMPTY
    case Other(_) => v != ZERO
  }

  /** What a range goes over: an invalid value or an empty map has no element, and text is refused. */
  function Keys(v: Value): Option<seq<Value>> {
    if v == NoValue || v == EMPTY || v == ZERO then Some([])
    else if v == LIST then Some([ZERO])
    else if v == DATA then Some([Text("ExecData")])
    else if v == DOT then Some([Text("User")])
    else None
  }

  function Elem(v: Value): Option<Value> {
    if v == LIST then Some(BUILDER) else if v == DATA then Some(YES) else if v == DOT then Some(USER) else None
  }

  const WORLD: Oracle := Oracle(
    (hist: seq<Event>, callee: Callee, args: seq<Value>, inTry: bool) => Returns(Answer(callee, args)),
    (callee: Callee, n: nat) => Takes(callee, n),
    (callee: Callee, i: nat, v: Value) => true,
    (hist: seq<Event>, v: Value, name: string) => MemberOf(v, name),
    (hist: seq<Event>, v: Value) => Some(Truth(v)),
    (hist: seq<Event>, v: Value) => Keys(v),
    (hist: seq<Event>, v: Value, key: Value) => Elem(v),
    (hist: seq<Event>, v: Value) => Some(SHOWN))

  lemma WorldAsDocumented()
    ensures FunctionsAsDocumented(WORLD)
  {
  }

  lemma Trimmed(s: string, a: char, b: char)
    requires s != "" && s[0] == a && s[|s| - 1] == b && !IsSpace(a) && !IsSpace(b)
    ensures TrimSpace(s) == s
  {
  }

  // ---------------------------------------------------------------- what calls evaluate to

  lemma EmptyEnds(s: string)
    ensures s + "" == s && "" + s == s
  {
  }

  /** A list of one command is the command. */
  lemma OneIs(c: Context, cmd: Command, f: Frame, st: State)
    requires EvalCommand(c, cmd, None, f, st).end.Ok? && !TooLong(EvalCommand(c, cmd, None, f, st).end.value)
    ensures EvalCommands(c, [cmd], None, f, st) == EvalCommand(c, cmd, None, f, st)
    ensures forall a :: EvalPipe(c, Pipe(a, [], [cmd]), f, st) == EvalCommand(c, cmd, None, f, st)
  {
    hide EvalCommand;
    assert [cmd][1..] == [];
    EmptyEnds(EvalCommand(c, cmd, None, f, st).out);
  }

  /** A step that gives a value, writes nothing and leaves the variables, for n operations. */
  predicate Gives<T(==)>(r: Step<T>, v: T, st: State, n: nat) {
    r.end == Ok(v) && r.out == "" && r.st.vars == st.vars && r.st.ops + n == st.ops
  }

  function LiteralOf(a: Arg): Value {
    match a
    case Str(text) => Text(text)
    case Lit(v) => v
    case _ => NoValue
  }

  lemma LiteralGives(c: Context, a: Arg, f: Frame, st: State)
    requires a.Str? || a.Lit?
    ensures Gives(EvalArg(c, a, f, st), LiteralOf(a), st, 0)
  {
  }

  lemma ParenGives(c: Context, p: Pipe, v: Value, n: nat, f: Frame, st: State)
    requires Gives(EvalPipe(c, p, f, st), v, st, n)
    ensures Gives(EvalArg(c, Paren(p), f, st), v, st, n)
  {
    hide EvalPipe;
  }

  lemma NoArgs(c: Context, callee: Callee, i: nat, f: Frame, st: State)
    ensures Gives(EvalArgs(c, callee, i, [], f, st), [], st, 0)
  {
  }

  /** An operand and then the rest. */
  lemma ArgsGive(c: Context, callee: Callee, i: nat, args: seq<Arg>, v: Value, n: nat, values: seq<Value>, n': nat,
                 f: Frame, st: State)
    requires c.oracle == WORLD && args != []
    requires Gives(EvalArg(c, args[0], f, st), v, st, n)
    requires var st' := EvalArg(c, args[0], f, st).st;
             Gives(EvalArgs(c, callee, i + 1, args[1..], f, st'), values, st', n')
    ensures Gives(EvalArgs(c, callee, i, args, f, st), [v] + values, st, n + n')
  {
    hide EvalArg;
  }

  /** Two operands that are literals. */
  lemma LiteralsGive(c: Context, callee: Callee, args: seq<Arg>, f: Frame, st: State)
    requires c.oracle == WORLD && |args| == 2 && forall a :: a in args ==> a.Str? || a.Lit?
    ensures Gives(EvalArgs(c, callee, 0, args, f, st), [LiteralOf(args[0]), LiteralOf(args[1])], st, 0)
  {
    hide EvalArg, EvalArgs;
    var rest := args[1..];
    assert rest[1..] == [];
    LiteralGives(c, args[0], f, st);
    var st1 := EvalArg(c, args[0], f, st).st;
    LiteralGives(c, rest[0], f, st1);
    NoArgs(c, callee, 2, f, EvalArg(c, rest[0], f, st1).st);
    ArgsGive(c, callee, 1, rest, LiteralOf(rest[0]), 0, [], 0, f, st1);
    assert [LiteralOf(rest[0])] + [] == [LiteralOf(rest[0])];
    ArgsGive(c, callee, 0, args, LiteralOf(args[0]), 0, [LiteralOf(rest[0])], 0, f, st);
    assert [LiteralOf(args[0])] + [LiteralOf(rest[0])] == [LiteralOf(args[0]), LiteralOf(args[1])];
  }

  /** A call of a function or method that runs no tree, its operands known. */
  lemma InvokeGives(c: Context, callee: Callee, args: seq<Arg>, values: seq<Value>, n: nat, f: Frame, st: State)
    requires c.oracle == WORLD && Takes(callee, |args|) && !TooLong(Answer(callee, values))
    requires callee.Func? ==> callee.name != EXEC_TEMPLATE && !IsSender(callee.name)
    requires Gives(EvalArgs(c, callee, 0, args, f, st), values, st, n)
    ensures Gives(Invoke(c, callee, args, None, f, st), Answer(callee, values), st, n)
  {
    hide EvalArgs, Takes, Answer, IsSender;
  }

  lemma CallGives(c: Context, name: string, args: seq<Arg>, values: seq<Value>, n: nat, f: Frame, st: State)
    requires c.oracle == WORLD && Takes(Func(name), |args|) && !TooLong(Answer(Func(name), values))
    requires name != EXEC_TEMPLATE && !IsSender(name) && st.ops >= 10
    requires Gives(EvalArgs(c, Func(name), 0, args, f, Spend(10, st)), values, Spend(10, st), n)
    ensures Gives(EvalCommand(c, Command([Ident(name)] + args), None, f, st), Answer(Func(name), values), st, 10 + n)
    ensures forall a ::
              Gives(EvalPipe(c, One(a, [], [Ident(name)] + args), f, st), Answer(Func(name), values), st, 10 + n)
  {
    hide EvalArgs, Takes, Answer, IsSender, Invoke, EvalPipe;
    InvokeGives(c, Func(name), args, values, n, f, Spend(10, st));
    assert ([Ident(name)] + args)[1..] == args;
    OneIs(c, Command([Ident(name)] + args), f, st);
  }

  // ---------------------------------------------------------------- a range that assigns

  /** {{$v := sdict}}{{range $ = cslice (modalBuilder "m" "t")}}{{end}}{{"A"}} {{$v.Set "title" "x"}}:
      the range overwrites `$v`, the top of the stack, with the builder, whose Set returns the builder,
      so the last action prints it. */
  const BIND := Do(["$v"], [Ident("sdict")])
  const BUILD := One(false, [], [Ident("modalBuilder"), Str("m"), Str("t")])
  const LOOP := Branch(Range, One(true, ["$"], [Ident("cslice"), Paren(BUILD)]), [], [])
  const SHOW_A := Do([], [Str("A")])
  const GAP := TextNode(" ")
  const SET := Do([], [Var("$v", ["Set"]), Str("title"), Str("x")])
  const CLOBBER: seq<Node> := [BIND, LOOP, SHOW_A, GAP, SET]
  const CLOBBER_FACTS := Facts([Tree("main", CLOBBER, true)], {"$v"}, {"main"})

  /** What a list's first node adds to what is known of the rest. */
  lemma Cons(containers: set<string>, n: Node, rest: seq<Node>)
    ensures NodesBounds([n] + rest) == NodeBounds(n) + NodesBounds(rest)
    ensures NodesCalls([n] + rest) == NodeCalls(n) + NodesCalls(rest)
    ensures NodesSends([n] + rest) == NodeSends(n) + NodesSends(rest)
    ensures NodesOwn(containers, [n] + rest) <==> NodeOwns(containers, n) || NodesOwn(containers, rest)
  {
    assert ([n] + rest)[1..] == rest;
  }

  lemma WalkCons(c: Context, n: Node, rest: seq<Node>, f: Frame, st: State)
    ensures var r := WalkNode(c, n, f, st);
            WalkList(c, [n] + rest, f, st) == if r.end == Ok(Next) then After(r, WalkList(c, rest, f, r.st)) else r
  {
    assert ([n] + rest)[1..] == rest;
  }

  lemma ClobberOwns()
    ensures NodesBounds(CLOBBER) == [Bound("$v", true), Bound("$", false), Bound("$", true)]
    ensures NodesOwn({"$v"}, CLOBBER) && NodesSends(CLOBBER) == {} && NodesCalls(CLOBBER) == {}
  {
    hide NodesBounds, NodesCalls, NodesSends, NodesOwn, NodeBounds, NodeCalls, NodeSends, NodeOwns;
    ClobberNodes();
    Cons({"$v"}, SET, []);
    Cons({"$v"}, GAP, [SET]);
    Cons({"$v"}, SHOW_A, [GAP, SET]);
    Cons({"$v"}, LOOP, [SHOW_A, GAP, SET]);
    Cons({"$v"}, BIND, [LOOP, SHOW_A, GAP, SET]);
    NoNodes();
    assert [SET] == [SET] + [] && [GAP, SET] == [GAP] + [SET] && [SHOW_A, GAP, SET] == [SHOW_A] + [GAP, SET];
    assert [LOOP, SHOW_A, GAP, SET] == [LOOP] + [SHOW_A, GAP, SET] && CLOBBER == [BIND] + [LOOP, SHOW_A, GAP, SET];
  }

  lemma NoNodes()
    ensures NodesBounds([]) == [] && NodesCalls([]) == {} && NodesSends([]) == {}
  {
  }

  lemma ClobberNodes()
    ensures NodeBounds(BIND) == [Bound("$v", true)] && NodeBounds(LOOP) == [Bound("$", false), Bound("$", true)]
    ensures NodeBounds(SHOW_A) == [] && NodeBounds(GAP) == [] && NodeBounds(SET) == []
    ensures NodeOwns({"$v"}, SHOW_A)
    ensures forall n :: n in {BIND, LOOP, SHOW_A, GAP, SET} ==> NodeCalls(n) == {} && NodeSends(n) == {}
  {
    hide PipeCalls, PipeSends, PipeBounds, NodesCalls, NodesSends, NodesBounds;
    ClobberPipes();
    NoNodes();
    assert Bounds(["$"], false) == [Bound("$", false)] by { assert ["$"][1..] == []; }
    assert NodeCalls(BIND) == {} && NodeCalls(LOOP) == {} && NodeCalls(SHOW_A) == {} && NodeCalls(SET) == {}
      && NodeCalls(GAP) == {};
    assert NodeSends(BIND) == {} && NodeSends(LOOP) == {} && NodeSends(SHOW_A) == {} && NodeSends(SET) == {}
      && NodeSends(GAP) == {};
  }

  lemma ClobberPipes()
    ensures PipeBounds(BIND.pipe) == [Bound("$v", true)] && PipeBounds(LOOP.pipe) == [Bound("$", true)]
    ensures PipeBounds(SHOW_A.pipe) == [] && PipeBounds(SET.pipe) == []
    ensures forall p :: p in {BIND.pipe, LOOP.pipe, SHOW_A.pipe, SET.pipe} ==> PipeCalls(p) == {} && PipeSends(p) == {}
  {
    hide PipeCalls, PipeSends, ArgsBounds, PipeBounds;
    PlainPipe(BIND.pipe);
    PlainPipe(BUILD);
    PlainPipe(SHOW_A.pipe);
    PlainPipe(SET.pipe);
    NestedPipe(LOOP.pipe, BUILD);
    assert Bounds(["$v"], true) == [Bound("$v", true)] by { assert ["$v"][1..] == []; }
    assert Bounds(["$"], true) == [Bound("$", true)] by { assert ["$"][1..] == []; }
  }

  lemma {:induction false} PlainArgs(args: seq<Arg>)
    requires forall i :: 0 <= i < |args| ==> !args[i].Paren? && !args[i].Chain?
    ensures ArgsCalls(args) == {} && ArgsSends(args) == {} && ArgsBounds(args) == []
  {
    if args != [] {
      PlainArgs(args[1..]);
    }
  }

  predicate RunsNoTree(args: seq<Arg>) {
    args != [] && (args[0].Ident? ==> args[0].name != EXEC_TEMPLATE && !IsSender(args[0].name))
  }

  /** A pipe of one command names no template and binds only its own variables, if its operands do. */
  lemma OnePipe(p: Pipe)
    requires |p.cmds| == 1 && RunsNoTree(p.cmds[0].args)
    ensures PipeCalls(p) == ArgsCalls(p.cmds[0].args) && PipeSends(p) == ArgsSends(p.cmds[0].args)
    ensures PipeBounds(p) == Bounds(p.decl, IsConstructorPipe(p)) + ArgsBounds(p.cmds[0].args)
  {
    hide ArgsCalls, ArgsSends, ArgsBounds, IsSender, IsConstructorPipe, Bounds;
    assert p.cmds[1..] == [];
    assert ExecCallees(p.cmds[0]) == {} && SentCallees(p.cmds[0]) == {};
    assert CommandsCalls([]) == {} && CommandsSends([]) == {} && CommandsBounds([]) == [];
  }

  lemma PlainPipe(p: Pipe)
    requires |p.cmds| == 1 && RunsNoTree(p.cmds[0].args) && forall a :: a in p.cmds[0].args ==> !a.Paren? && !a.Chain?
    ensures PipeCalls(p) == {} && PipeSends(p) == {} && PipeBounds(p) == Bounds(p.decl, IsConstructorPipe(p))
  {
    hide IsConstructorPipe, Bounds, PipeCalls, PipeSends, PipeBounds, RunsNoTree, ArgsCalls, ArgsSends, ArgsBounds;
    var args := p.cmds[0].args;
    assert forall i :: 0 <= i < |args| ==> args[i] in args;
    PlainArgs(args);
    OnePipe(p);
  }

  /** A function call on the value of an inner pipe. */
  lemma NestedPipe(p: Pipe, inner: Pipe)
    requires |p.cmds| == 1 && |p.cmds[0].args| == 2 && p.cmds[0].args[0].Ident? && RunsNoTree(p.cmds[0].args)
    requires p.cmds[0].args[1] == Paren(inner) && PipeCalls(inner) == {} && PipeSends(inner) == {}
      && PipeBounds(inner) == []
    ensures PipeCalls(p) == {} && PipeSends(p) == {} && PipeBounds(p) == Bounds(p.decl, IsConstructorPipe(p))
  {
    hide IsConstructorPipe, Bounds, PipeCalls, PipeSends, PipeBounds, RunsNoTree;
    var args := p.cmds[0].args;
    assert args == [args[0], Paren(inner)] && args[1..] == [Paren(inner)] && args[1..][1..] == [];
    ParenArgs(inner, []);
    OnePipe(p);
  }

  /** An inner pipe among a call's operands. */
  lemma ParenArgs(inner: Pipe, rest: seq<Arg>)
    requires PipeCalls(inner) == {} && PipeSends(inner) == {} && PipeBounds(inner) == []
    ensures ArgsCalls([Paren(inner)] + rest) == ArgsCalls(rest) && ArgsSends([Paren(inner)] + rest) == ArgsSends(rest)
    ensures ArgsBounds([Paren(inner)] + rest) == ArgsBounds(rest)
  {
    hide PipeCalls, PipeSends, PipeBounds;
    assert ([Paren(inner)] + rest)[1..] == rest;
  }

  lemma ClobberCounts(fa: Facts)
    requires fa == CLOBBER_FACTS
    ensures NodeCount(fa, BIND) == 0 && NodeCount(fa, LOOP) == 0 && NodeCount(fa, GAP) == 0 && NodeCount(fa, SET) == 0
    ensures NodeCount(fa, SHOW_A) == 1
    ensures DropInside(LOOP) == LOOP
  {
    ClobberPipes();
  }

  lemma DropCons(fa: Facts, n: Node, rest: seq<Node>, before: nat, after: nat)
    ensures Count(fa, [n] + rest) == NodeCount(fa, n) + Count(fa, rest)
    ensures var behind := Count(fa, rest) + after;
            DropList(fa, [n] + rest, before, after) ==
              var dropped := DropList(fa, rest, before + NodeCount(fa, n), after);
              if n.TextNode? && IsBlankText(n.text) && (before == 0 || behind == 0) then dropped
              else [DropNode(fa, n, before, behind)] + dropped
  {
    hide NodeCount, DropNode, IsBlankText;
    assert ([n] + rest)[1..] == rest;
  }

  lemma ClobberDrops(fa: Facts)
    requires fa == CLOBBER_FACTS
    ensures DropList(fa, CLOBBER, 0, 0) == [BIND, LOOP, SHOW_A, SET]
  {
    hide Count, DropList, NodeCount;
    ClobberCounts(fa);
    assert Count(fa, []) == 0 && DropList(fa, [], 1, 0) == [] by { NoDrops(fa); }
    DropCons(fa, SET, [], 1, 0);
    DropCons(fa, GAP, [SET], 1, 0);
    DropCons(fa, SHOW_A, [GAP, SET], 0, 0);
    DropCons(fa, LOOP, [SHOW_A, GAP, SET], 0, 0);
    DropCons(fa, BIND, [LOOP, SHOW_A, GAP, SET], 0, 0);
    assert [SET] == [SET] + [] && [GAP, SET] == [GAP] + [SET] && [SHOW_A, GAP, SET] == [SHOW_A] + [GAP, SET];
    assert [LOOP, SHOW_A, GAP, SET] == [LOOP] + [SHOW_A, GAP, SET] && CLOBBER == [BIND] + [LOOP, SHOW_A, GAP, SET];
  }

  lemma NoDrops(fa: Facts)
    ensures Count(fa, []) == 0 && DropList(fa, [], 1, 0) == []
  {
  }

  lemma ClobberAnalysis()
    ensures IsContainerSet(CLOBBER_FACTS.containers, TreesBounds(CLOBBER_FACTS.trees))
      && PrintsLeast(CLOBBER_FACTS)
    ensures DropTrees(CLOBBER_FACTS, CLOBBER_FACTS.trees) == [Tree("main", [BIND, LOOP, SHOW_A, SET], true)]
  {
    hide NodesBounds, NodesOwn, NodesCalls, NodesSends, DropList;
    ClobberOwns();
    assert TreesBounds(CLOBBER_FACTS.trees) == NodesBounds(CLOBBER);
    ClobberDrops(CLOBBER_FACTS);
    DropTreesAt(CLOBBER_FACTS, CLOBBER_FACTS.trees);
    assert CLOBBER_FACTS.trees[0].root == CLOBBER;
  }

  /** An action that shows a literal, and one that calls a method without arguments. */
  lemma ShowsText(c: Context, f: Frame, st: State)
    ensures WalkNode(c, SHOW_A, f, st) == Step(Ok(Next), st, "A")
  {
    var cmd := Command([Str("A")]);
    assert EvalCommand(c, cmd, None, f, st) == Done(Text("A"), st);
    assert [cmd][1..] == [];
    assert EvalCommands(c, [cmd], None, f, st) == Done(Text("A"), st);
  }

  lemma SetShows(c: Context, f: Frame, st: State)
    requires c.oracle == WORLD && st.ops >= 10 && VarValue(st.vars, "$v") == Some(BUILDER)
    ensures WalkNode(c, SET, f, st).end == Ok(Next) && WalkNode(c, SET, f, st).out == SHOWN
  {
    hide EvalArgs, Invoke;
    var cmd, callee, args := SET.pipe.cmds[0], Method(BUILDER, "Set"), [Str("title"), Str("x")];
    var st1 := Spend(10, st);
    assert cmd.args[1..] == args;
    LiteralsGive(c, callee, args, f, st1);
    InvokeGives(c, callee, args, [Text("title"), Text("x")], 0, f, st1);
    assert Gives(EvalCommand(c, cmd, None, f, st), BUILDER, st, 10);
    OneIs(c, cmd, f, st);
  }

  /** What a pipe that declares or assigns does with its command's value. */
  lemma BindsValue(c: Context, p: Pipe, v: Value, n: nat, f: Frame, st: State, vars: seq<Binding>)
    requires |p.cmds| == 1 && Gives(EvalCommand(c, p.cmds[0], None, f, st), v, st, n) && !TooLong(v)
    requires Bind(p.isAssign, p.decl, v, st.vars) == Some(vars)
    ensures Gives(EvalPipe(c, p, f, st), v, st.(vars := vars), n)
  {
    hide EvalCommand, Bind;
    OneIs(c, p.cmds[0], f, st);
    assert p.cmds == [p.cmds[0]];
  }

  lemma BindsContainer(c: Context, f: Frame, st: State)
    requires c.oracle == WORLD && st.ops >= 10
    ensures var r := WalkNode(c, BIND, f, st);
            r.end == Ok(Next) && r.out == "" && r.st.vars == st.vars + [Binding("$v", EMPTY)] && r.st.ops + 10 == st.ops
  {
    hide EvalArgs, EvalCommand;
    NoArgs(c, Func("sdict"), 0, f, Spend(10, st));
    CallGives(c, "sdict", [], [], 0, f, st);
    assert [Ident("sdict")] + [] == [Ident("sdict")] && ["$v"][1..] == [];
    assert Bind(false, ["$v"], EMPTY, st.vars) == Some(st.vars + [Binding("$v", EMPTY)]);
    BindsValue(c, BIND.pipe, EMPTY, 10, f, st, st.vars + [Binding("$v", EMPTY)]);
  }

  lemma BuildGives(c: Context, f: Frame, st: State)
    requires c.oracle == WORLD && st.ops >= 10
    ensures Gives(EvalPipe(c, BUILD, f, st), BUILDER, st, 10)
  {
    hide EvalArgs, EvalCommand, EvalPipe, IsSender;
    var args := [Str("m"), Str("t")];
    LiteralsGive(c, Func("modalBuilder"), args, f, Spend(10, st));
    NotSender("modalBuilder");
    CallGives(c, "modalBuilder", args, [Text("m"), Text("t")], 0, f, st);
    assert [Ident("modalBuilder")] + args == [Ident("modalBuilder"), Str("m"), Str("t")];
  }

  lemma NotSender(name: string)
    requires name in ["modalBuilder", "cslice", "sdict", "joinStr"]
    ensures name != EXEC_TEMPLATE && !IsSender(name) && !IsSilentFunc(name)
  {
    if name[0] == 's' {
      assert name == "sdict" && |name| == 5;
    }
  }

  /** The range's pipe gives the list, and `$` with it. */
  lemma LoopPipe(c: Context, f: Frame, st: State)
    requires c.oracle == WORLD && st.ops >= 20 && st.vars == [Binding("$", DOT), Binding("$v", EMPTY)]
    ensures Gives(EvalPipe(c, LOOP.pipe, f, st), LIST, st.(vars := [Binding("$", LIST), Binding("$v", EMPTY)]), 20)
  {
    hide EvalArgs, EvalArg, EvalCommand, EvalPipe, IsSender;
    var args, st1, callee := [Paren(BUILD)], Spend(10, st), Func("cslice");
    assert args[1..] == [];
    BuildGives(c, f, st1);
    ParenGives(c, BUILD, BUILDER, 10, f, st1);
    NoArgs(c, callee, 1, f, EvalArg(c, args[0], f, st1).st);
    ArgsGive(c, callee, 0, args, BUILDER, 10, [], 0, f, st1);
    assert [BUILDER] + [] == [BUILDER];
    NotSender("cslice");
    CallGives(c, "cslice", args, [BUILDER], 10, f, st);
    assert [Ident("cslice")] + args == [Ident("cslice"), Paren(BUILD)];
    AssignsRoot(st.vars, LIST);
    BindsValue(c, LOOP.pipe, LIST, 20, f, st, [Binding("$", LIST), Binding("$v", EMPTY)]);
  }

  lemma AssignsRoot(vars: seq<Binding>, v: Value)
    requires |vars| == 2 && vars[0].name == "$" && vars[1].name != "$"
    ensures Bind(true, ["$"], v, vars) == Some([Binding("$", v), vars[1]])
  {
    assert ["$"][1..] == [];
    assert vars[..1][0 := Binding("$", v)] == [Binding("$", v)];
    assert SetVar(vars[..1], "$", v) == Some([Binding("$", v)]);
    assert [Binding("$", v)] + [vars[1]] == [Binding("$", v), vars[1]];
  }

  /** The round of the range puts its element in whatever is on top. */
  lemma RoundClobbers(c: Context, f: Frame, st: State)
    requires c.oracle == WORLD && st.ops >= 1 && st.vars == [Binding("$", LIST), Binding("$v", EMPTY)]
    ensures WalkRange(c, ["$"], [], LIST, [ZERO], 2, f, st)
         == Done(Next, Spend(1, st).(vars := [Binding("$", LIST), Binding("$v", BUILDER)]))
  {
    var vars' := [Binding("$", LIST), Binding("$v", BUILDER)];
    assert st.vars[1 := Binding("$v", BUILDER)] == vars';
    assert SetTops(["$"], ZERO, BUILDER, st.vars) == Some(vars');
    var st1 := Spend(1, st).(vars := vars');
    assert WalkList(c, [], f.(dot := BUILDER), st1) == Done(Next, st1);
    assert [ZERO][1..] == [] && vars'[..2] == vars';
  }

  lemma LoopClobbers(c: Context, f: Frame, st: State)
    requires c.oracle == WORLD && st.ops >= 22 && st.vars == [Binding("$", DOT), Binding("$v", EMPTY)]
    ensures var r := WalkNode(c, LOOP, f, st);
            && r.end == Ok(Next) && r.out == "" && r.st.ops + 22 == st.ops
            && r.st.vars == [Binding("$", LIST), Binding("$v", BUILDER)]
  {
    hide EvalPipe, WalkRange, WalkList;
    LoopPipe(c, f, Spend(1, st));
    var st1 := EvalPipe(c, LOOP.pipe, f, Spend(1, st)).st;
    RoundClobbers(c, f, st1);
    var vars := [Binding("$", LIST), Binding("$v", BUILDER)];
    assert vars[..2] == vars;
  }

  /** With the blank the response is "A {x templates-m []}"; without it, "A{x templates-m []}". */
  lemma AssigningRangeChangesResponse()
    ensures FunctionsAsDocumented(WORLD) && !IsDefine(CLOBBER_FACTS.trees, ANY_TREE)
    ensures IsContainerSet(CLOBBER_FACTS.containers, TreesBounds(CLOBBER_FACTS.trees))
      && PrintsLeast(CLOBBER_FACTS)
    ensures var c := Context(CLOBBER_FACTS.trees, "CC #1", WORLD);
            !SameResponse(Run(c, DOT, [], 100), Run(c.(trees := DropTrees(CLOBBER_FACTS, c.trees)), DOT, [], 100))
  {
    ClobberAnalysis();
    hide WalkList, FunctionsAsDocumented, DropTrees, DropTree, TreesBounds, PrintsLeast;
    WorldAsDocumented();
    var c := Context(CLOBBER_FACTS.trees, "CC #1", WORLD);
    var c' := c.(trees := DropTrees(CLOBBER_FACTS, c.trees));
    var f := Frame(DOT, false, 0);
    var st := State([Binding("$", DOT)], [], 100);
    ClobberResponse(c, f, st, [GAP, SET], " " + SHOWN);
    ClobberResponse(c', f, st, [SET], SHOWN);
    assert [BIND, LOOP, SHOW_A] + [GAP, SET] == CLOBBER;
    assert [BIND, LOOP, SHOW_A] + [SET] == [BIND, LOOP, SHOW_A, SET];
    Trimmed("A" + (" " + SHOWN), 'A', '}');
    Trimmed("A" + SHOWN, 'A', '}');
    assert |"A" + (" " + SHOWN)| != |"A" + SHOWN|;
  }

  lemma ClobberResponse(c: Context, f: Frame, st: State, rest: seq<Node>, out: string)
    requires c.oracle == WORLD && st == State([Binding("$", DOT)], [], 100)
    requires (rest == [GAP, SET] && out == " " + SHOWN) || (rest == [SET] && out == SHOWN)
    ensures WalkList(c, [BIND, LOOP, SHOW_A] + rest, f, st).out == "A" + out
  {
    hide WalkNode, WalkList;
    BindsContainer(c, f, st);
    var st1 := WalkNode(c, BIND, f, st).st;
    assert st1.vars == [Binding("$", DOT), Binding("$v", EMPTY)];
    LoopClobbers(c, f, st1);
    var st2 := WalkNode(c, LOOP, f, st1).st;
    ShowsText(c, f, st2);
    SetShows(c, f, st2);
    BlankShows(c, f, st2);
    BlankShows(c, f, WalkNode(c, SET, f, st2).st);
    WalkCons(c, SET, [], f, st2);
    WalkCons(c, GAP, [SET], f, st2);
    WalkCons(c, SHOW_A, rest, f, st2);
    WalkCons(c, LOOP, [SHOW_A] + rest, f, st1);
    WalkCons(c, BIND, [LOOP] + ([SHOW_A] + rest), f, st);
    assert [BIND] + ([LOOP] + ([SHOW_A] + rest)) == [BIND, LOOP, SHOW_A] + rest;
    assert [SET] + [] == [SET] && [GAP] + [SET] == [GAP, SET];
    EmptyEnds(SHOWN);
    EmptyEnds("A" + out);
  }

  lemma BlankShows(c: Context, f: Frame, st: State)
    ensures WalkNode(c, GAP, f, st) == Step(Ok(Next), st, " ")
    ensures WalkList(c, [], f, st) == Done(Next, st)
  {
  }

  // ---------------------------------------------------------------- a define named *

  /** {{define "*"}}{{end}}{{if .ExecData}} {{"B"}}{{else}}{{"A"}}{{$r := execTemplate
      (joinStr "" "CC #1") (sdict "ExecData" true)}}{{end}}: the name is computed, so the call may run the
      main tree, and does, as the name is the main tree's; but the pass takes its own mark for a computed
      name for a call of the define. */
  const SHOW_B := Do([], [Str("B")])
  const NAME := One(false, [], [Ident("joinStr"), Str(""), Str("CC #1")])
  const NESTED := One(false, [], [Ident("sdict"), Str("ExecData"), Lit(YES)])
  const CALL := Do(["$r"], [Ident(EXEC_TEMPLATE), Paren(NAME), Paren(NESTED)])
  const DEEPER := One(false, [], [Field(["ExecData"])])
  const BACK := Branch(If, DEEPER, [GAP, SHOW_B], [SHOW_A, CALL])
  const BACK' := Branch(If, DEEPER, [SHOW_B], [SHOW_A, CALL])
  const STAR := Tree("*", [], false)
  const STAR_FACTS := Facts([Tree("main", [BACK], true), STAR], {}, {"main"})

  lemma CallNode()
    ensures CommandsBounds(CALL.pipe.cmds) == [] && CommandsCalls(CALL.pipe.cmds) == {"*"}
      && CommandsSends(CALL.pipe.cmds) == {}
  {
    hide ArgsCalls, ArgsSends, ArgsBounds, PipeCalls, PipeSends, PipeBounds;
    CallOperands();
    var cmds := CALL.pipe.cmds;
    assert cmds[1..] == [];
    assert EXEC_TEMPLATE[0] != "sendTemplate"[0] && |EXEC_TEMPLATE| != |"sendTemplateDM"|;
  }

  lemma CallOperands()
    ensures var args := CALL.pipe.cmds[0].args; ArgsCalls(args) == {} && ArgsSends(args) == {} && ArgsBounds(args) == []
  {
    hide PipeCalls, PipeSends, PipeBounds;
    var args := CALL.pipe.cmds[0].args;
    InnerPipes();
    ParenArgs(NESTED, []);
    ParenArgs(NAME, [Paren(NESTED)]);
    assert [Paren(NESTED)] + [] == [Paren(NESTED)] && [Paren(NAME)] + [Paren(NESTED)] == args[1..];
    assert ArgsCalls(args) == ArgCalls(args[0]) + ArgsCalls(args[1..]);
  }

  lemma InnerPipes()
    ensures forall p :: p in {NAME, NESTED} ==> PipeCalls(p) == {} && PipeSends(p) == {} && PipeBounds(p) == []
  {
    hide PipeCalls, PipeSends, PipeBounds;
    PlainPipe(NAME);
    PlainPipe(NESTED);
  }

  lemma StarNodes()
    ensures forall n :: n in {GAP, SHOW_B, SHOW_A} ==> NodeBounds(n) == [] && NodeCalls(n) == {} && NodeSends(n) == {}
    ensures NodeBounds(CALL) == [Bound("$r", false)] && NodeCalls(CALL) == {"*"} && NodeSends(CALL) == {}
    ensures NodeOwns({}, SHOW_A) && PipeBounds(DEEPER) == [] && PipeCalls(DEEPER) == {} && PipeSends(DEEPER) == {}
  {
    hide CommandsCalls, CommandsSends, CommandsBounds, ArgsCalls, ArgsSends, ArgsBounds;
    CallNode();
    assert Bounds(["$r"], false) == [Bound("$r", false)] by { assert ["$r"][1..] == []; }
    StarShows();
  }

  lemma StarShows()
    ensures forall n :: n in {GAP, SHOW_B, SHOW_A} ==> NodeBounds(n) == [] && NodeCalls(n) == {} && NodeSends(n) == {}
    ensures NodeOwns({}, SHOW_A) && PipeBounds(DEEPER) == [] && PipeCalls(DEEPER) == {} && PipeSends(DEEPER) == {}
  {
  }

  lemma StarOwns()
    ensures NodesOwn({}, [BACK]) && NodesCalls([BACK]) == {"*"} && NodesSends([BACK]) == {}
    ensures NodesBounds([BACK]) == [Bound("$r", false)]
  {
    hide NodesBounds, NodesCalls, NodesSends, NodesOwn, PipeBounds, PipeCalls, PipeSends;
    StarNodes();
    NoNodes();
    Cons({}, SHOW_B, []);
    Cons({}, GAP, [SHOW_B]);
    Cons({}, CALL, []);
    Cons({}, SHOW_A, [CALL]);
    Cons({}, BACK, []);
    assert [SHOW_B] == [SHOW_B] + [] && [GAP, SHOW_B] == [GAP] + [SHOW_B] && [BACK] == [BACK] + [];
    assert [CALL] == [CALL] + [] && [SHOW_A, CALL] == [SHOW_A] + [CALL];
  }

  lemma StarCounts(fa: Facts)
    requires fa == STAR_FACTS
    ensures CalleePrints(fa, "*") && NodeCount(fa, GAP) == 0 && NodeCount(fa, SHOW_B) == 1
    ensures NodeCount(fa, SHOW_A) == 1 && NodeCount(fa, CALL) == 1
    ensures Bit(AnyPrints(fa, PipeCalls(DEEPER))) == 0
  {
    StarNodes();
    assert fa.trees[0].name in fa.prints;
    assert "*" in PipeCalls(CALL.pipe);
  }

  lemma StarThen(fa: Facts)
    requires fa == STAR_FACTS
    ensures DropList(fa, [GAP, SHOW_B], 0, 2) == [SHOW_B] && Count(fa, [GAP, SHOW_B]) == 1
  {
    hide Count, DropList, NodeCount, AnyPrints;
    StarCounts(fa);
    assert [SHOW_B] == [SHOW_B] + [] && [GAP, SHOW_B] == [GAP] + [SHOW_B];
    DropNone(fa, 1, 2);
    DropCons(fa, SHOW_B, [], 0, 2);
    DropCons(fa, GAP, [SHOW_B], 0, 2);
  }

  lemma StarElse(fa: Facts)
    requires fa == STAR_FACTS
    ensures DropList(fa, [SHOW_A, CALL], 1, 0) == [SHOW_A, CALL] && Count(fa, [SHOW_A, CALL]) == 2
  {
    hide Count, DropList, NodeCount, AnyPrints;
    StarCounts(fa);
    assert [CALL] == [CALL] + [] && [SHOW_A, CALL] == [SHOW_A] + [CALL];
    DropNone(fa, 3, 0);
    DropCons(fa, CALL, [], 2, 0);
    DropCons(fa, SHOW_A, [CALL], 1, 0);
  }

  lemma StarDrops(fa: Facts)
    requires fa == STAR_FACTS
    ensures DropList(fa, [BACK], 0, 0) == [BACK']
  {
    hide Count, DropList, NodeCount, AnyPrints, PipeCalls, CalleePrints, IsBlankText;
    StarCounts(fa);
    StarThen(fa);
    StarElse(fa);
    BranchDropped(fa, If, DEEPER, BACK.list, BACK.elseList, 0, 0);
    assert DropNode(fa, BACK, 0, 0) == BACK';
    hide DropNode;
    DropNone(fa, NodeCount(fa, BACK), 0);
    DropCons(fa, BACK, [], 0, 0);
    assert [BACK] == [BACK] + [];
  }

  lemma DropNone(fa: Facts, before: nat, after: nat)
    ensures Count(fa, []) == 0 && DropList(fa, [], before, after) == []
  {
  }

  lemma StarAnalysis()
    ensures IsContainerSet(STAR_FACTS.containers, TreesBounds(STAR_FACTS.trees)) && PrintsLeast(STAR_FACTS)
    ensures DropTrees(STAR_FACTS, STAR_FACTS.trees) == [Tree("main", [BACK'], true), STAR]
  {
    hide NodesBounds, NodesOwn, NodesCalls, NodesSends, DropList;
    var fa := STAR_FACTS;
    StarOwns();
    StarDrops(fa);
    NoNodes();
    assert !NodesOwn({}, []) by { NothingOwned(); }
    DropTreesAt(fa, fa.trees);
    assert fa.trees[1..] == [STAR] && [STAR][1..] == [];
    assert TreesBounds([STAR]) == [];
    assert TreesBounds(fa.trees) == [Bound("$r", false)];
    assert fa.trees[0].root == [BACK] && fa.trees[1] == STAR;
    assert !AnyPrints(fa, {});
  }

  lemma NothingOwned()
    ensures !NodesOwn({}, [])
  {
  }

  lemma ShowsB(c: Context, f: Frame, st: State)
    ensures WalkNode(c, SHOW_B, f, st) == Step(Ok(Next), st, "B")
  {
    var cmd := Command([Str("B")]);
    assert EvalCommand(c, cmd, None, f, st) == Done(Text("B"), st);
    assert [cmd][1..] == [];
    assert EvalCommands(c, [cmd], None, f, st) == Done(Text("B"), st);
  }

  /** {{if .ExecData}}: false on a command's data, true on the data of the nested run. */
  lemma DeeperIs(c: Context, f: Frame, st: State)
    requires c.oracle == WORLD && (f.dot == DOT || f.dot == DATA)
    ensures EvalPipe(c, DEEPER, f, st) == Done(if f.dot == DATA then YES else NoValue, st)
  {
    var cmd := DEEPER.cmds[0];
    assert EvalPath(c, f.dot, ["ExecData"], f, st) == Done(Plain(if f.dot == DATA then YES else NoValue), st);
    assert EvalCommand(c, cmd, None, f, st) == Done(if f.dot == DATA then YES else NoValue, st);
    OneIs(c, cmd, f, st);
  }

  /** What the main tree prints in the nested run. */
  lemma InnerRun(c: Context, list: seq<Node>, out: string, f: Frame, st: State)
    requires c.oracle == WORLD && f.dot == DATA
    requires (list == [GAP, SHOW_B] && out == " B") || (list == [SHOW_B] && out == "B")
    ensures WalkList(c, [Branch(If, DEEPER, list, [SHOW_A, CALL])], f, st) == Step(Ok(Next), st, out)
  {
    hide WalkList, WalkNode, EvalPipe;
    DeeperIs(c, f, st);
    ShowsB(c, f, st);
    BlankShows(c, f, st);
    var n := Branch(If, DEEPER, list, [SHOW_A, CALL]);
    WalkCons(c, SHOW_B, [], f, st);
    WalkCons(c, GAP, [SHOW_B], f, st);
    WalkCons(c, n, [], f, st);
    IfWithSteps(c, If, DEEPER, list, [SHOW_A, CALL], f, st);
    EmptyEnds("B");
    EmptyEnds(out);
    assert " " + "B" == " B";
    assert [SHOW_B] == [SHOW_B] + [] && [GAP, SHOW_B] == [GAP] + [SHOW_B] && [n] == [n] + [];
    assert st.vars[..|st.vars|] == st.vars;
  }

  /** The operands of the call: the main tree's name, and the data of the nested run. */
  lemma OperandsGive(c: Context, f: Frame, st: State)
    requires c.oracle == WORLD && st.ops >= 20
    ensures Gives(EvalArgs(c, Func(EXEC_TEMPLATE), 0, [Paren(NAME), Paren(NESTED)], f, st), [Text("CC #1"), DATA],
                  st, 20)
  {
    hide EvalArgs, EvalArg, EvalPipe;
    var callee, args, last := Func(EXEC_TEMPLATE), [Paren(NAME), Paren(NESTED)], [Paren(NESTED)];
    assert args[1..] == last && last[1..] == [];
    NameGives(c, f, st);
    ParenGives(c, NAME, Text("CC #1"), 10, f, st);
    var st1 := EvalArg(c, args[0], f, st).st;
    NestedGives(c, f, st1);
    ParenGives(c, NESTED, DATA, 10, f, st1);
    NoArgs(c, callee, 2, f, EvalArg(c, last[0], f, st1).st);
    ArgsGive(c, callee, 1, last, DATA, 10, [], 0, f, st1);
    assert [DATA] + [] == [DATA] && [Text("CC #1")] + [DATA] == [Text("CC #1"), DATA];
    ArgsGive(c, callee, 0, args, Text("CC #1"), 10, [DATA], 10, f, st);
  }

  lemma NameGives(c: Context, f: Frame, st: State)
    requires c.oracle == WORLD && st.ops >= 10
    ensures Gives(EvalPipe(c, NAME, f, st), Text("CC #1"), st, 10)
  {
    hide EvalArgs, EvalCommand, EvalPipe, IsSender, IsSilentFunc, IsConstructor;
    var args := [Str(""), Str("CC #1")];
    LiteralsGive(c, Func("joinStr"), args, f, Spend(10, st));
    NotSender("joinStr");
    assert Answer(Func("joinStr"), [Text(""), Text("CC #1")]) == Text("CC #1") by { JoinIsPlain(); }
    CallGives(c, "joinStr", args, [Text(""), Text("CC #1")], 0, f, st);
    assert [Ident("joinStr")] + args == [Ident("joinStr"), Str(""), Str("CC #1")];
  }

  lemma JoinIsPlain()
    ensures !IsConstructor("joinStr") && !IsSilentFunc("joinStr") && "joinStr" != "sdict"
  {
    assert "joinStr"[0] == 'j';
  }

  lemma NestedGives(c: Context, f: Frame, st: State)
    requires c.oracle == WORLD && st.ops >= 10
    ensures Gives(EvalPipe(c, NESTED, f, st), DATA, st, 10)
  {
    hide EvalArgs, EvalCommand, EvalPipe, IsSender;
    var args := [Str("ExecData"), Lit(YES)];
    LiteralsGive(c, Func("sdict"), args, f, Spend(10, st));
    NotSender("sdict");
    CallGives(c, "sdict", args, [Text("ExecData"), YES], 0, f, st);
    assert [Ident("sdict")] + args == [Ident("sdict"), Str("ExecData"), Lit(YES)];
  }

  /** The call runs the main tree on the nested data. */
  lemma CallEvals(c: Context, list: seq<Node>, out: string, f: Frame, st: State)
    requires c.oracle == WORLD && f.depth == 0 && st.ops >= 130
    requires (list == [GAP, SHOW_B] && out == " B") || (list == [SHOW_B] && out == "B")
    requires Lookup(c, "CC #1") == Some([Branch(If, DEEPER, list, [SHOW_A, CALL])])
    ensures var r := EvalCommand(c, CALL.pipe.cmds[0], None, f, st);
            r.end == Ok(NoValue) && r.out == out && r.st.vars == st.vars
  {
    hide EvalArgs, WalkList, Lookup;
    var args, values := [Paren(NAME), Paren(NESTED)], [Text("CC #1"), DATA];
    var callee, st1 := Func(EXEC_TEMPLATE), Spend(10, st);
    assert CALL.pipe.cmds[0].args[1..] == args;
    OperandsGive(c, f, st1);
    var st2 := EvalArgs(c, callee, 0, args, f, st1).st;
    var st3 := Spend(100, st2);
    InnerRun(c, list, out, Frame(DATA, f.inTry, 1), st3.(vars := [Binding("$", DATA)]));
    assert RunTree(c, "CC #1", DATA, f.inTry, 0, st3) == Step(Ok(Next), st3, out);
    assert ExecTemplate(c, values, f, st2) == Step(Ok(NoValue), st3, out);
    EmptyEnds(out);
    assert Invoke(c, callee, args, None, f, st1) == Step(Ok(NoValue), st3, out);
  }

  lemma CallRuns(c: Context, list: seq<Node>, out: string, f: Frame, st: State)
    requires c.oracle == WORLD && f.depth == 0 && st.ops >= 130
    requires (list == [GAP, SHOW_B] && out == " B") || (list == [SHOW_B] && out == "B")
    requires Lookup(c, "CC #1") == Some([Branch(If, DEEPER, list, [SHOW_A, CALL])])
    ensures WalkNode(c, CALL, f, st).end == Ok(Next) && WalkNode(c, CALL, f, st).out == out
  {
    hide EvalCommand, Lookup;
    var cmd := CALL.pipe.cmds[0];
    CallEvals(c, list, out, f, st);
    OneIs(c, cmd, f, st);
    assert ["$r"][1..] == [];
    assert Bind(false, ["$r"], NoValue, st.vars).Some?;
  }

  lemma StarResponse(c: Context, list: seq<Node>, out: string)
    requires c.oracle == WORLD && c.runName == "CC #1"
    requires (list == [GAP, SHOW_B] && out == " B") || (list == [SHOW_B] && out == "B")
    requires c.trees == [Tree("main", [Branch(If, DEEPER, list, [SHOW_A, CALL])], true), STAR]
    ensures Run(c, DOT, [], 200).out == "A" + out
  {
    hide WalkList, WalkNode, EvalPipe;
    var n, f, st := c.trees[0].root[0], Frame(DOT, false, 0), State([Binding("$", DOT)], [], 200);
    assert c.trees[1..] == [STAR] && [STAR][1..] == [] && "*" != "CC #1";
    assert FindDefine([STAR], "CC #1") == None;
    DeeperIs(c, f, st);
    ShowsText(c, f, st);
    CallRuns(c, list, out, f, st);
    WalkCons(c, CALL, [], f, st);
    BlankShows(c, f, WalkNode(c, CALL, f, st).st);
    WalkCons(c, SHOW_A, [CALL], f, st);
    IfWithSteps(c, If, DEEPER, list, [SHOW_A, CALL], f, st);
    WalkCons(c, n, [], f, st);
    BlankShows(c, f, WalkNode(c, n, f, st).st);
    EmptyEnds(out);
    EmptyEnds("A" + out);
    assert [CALL] == [CALL] + [] && [SHOW_A, CALL] == [SHOW_A] + [CALL] && [n] == [n] + [];
  }

  lemma StarRanges()
    ensures RangesDeclare([BACK])
  {
    assert [GAP, SHOW_B][1..] == [SHOW_B] && [SHOW_A, CALL][1..] == [CALL];
    assert [SHOW_B][1..] == [] && [CALL][1..] == [] && [BACK][1..] == [];
    assert RangesDeclare([SHOW_B]) && RangesDeclare([CALL]);
    assert RangesDeclare([GAP, SHOW_B]) && RangesDeclare([SHOW_A, CALL]);
  }

  /** With the blank the response is "A B"; without it, "AB". */
  lemma StarDefineChangesResponse()
    ensures FunctionsAsDocumented(WORLD) && RangesDeclare([BACK])
    ensures IsContainerSet(STAR_FACTS.containers, TreesBounds(STAR_FACTS.trees)) && PrintsLeast(STAR_FACTS)
    ensures var c := Context(STAR_FACTS.trees, "CC #1", WORLD);
            !SameResponse(Run(c, DOT, [], 200), Run(c.(trees := DropTrees(STAR_FACTS, c.trees)), DOT, [], 200))
  {
    StarAnalysis();
    StarRanges();
    hide WalkList, FunctionsAsDocumented, DropTrees, DropTree, TreesBounds, PrintsLeast, Run;
    WorldAsDocumented();
    var c := Context(STAR_FACTS.trees, "CC #1", WORLD);
    StarResponse(c, [GAP, SHOW_B], " B");
    StarResponse(c.(trees := DropTrees(STAR_FACTS, c.trees)), [SHOW_B], "B");
    Trimmed("A B", 'A', 'B');
    Trimmed("AB", 'A', 'B');
    assert |"A B"| != |"AB"|;
  }
}
