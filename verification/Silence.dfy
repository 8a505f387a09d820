/** The static analysis is sound: container variables hold containers in every environment a run
    reaches, and what the analysis calls silent writes nothing but blanks, through loops, tries, recursive
    defines and computed template calls. */
module Silence {
  import opened Basics
  import opened Blank
  import opened Syntax
  import opened Interp
  import opened Whitespace

  /** What the pass assumes of YAGPDB's functions (the vendor citations of whitespace.go): the
      silent ones return "", the constructors a container, and Set and Del are methods of every
      container, returning "". */
  ghost predicate FunctionsAsDocumented(o: Oracle) {
    && (forall hist, name, args, inTry ::
          IsSilentFunc(name) && o.call(hist, Func(name), args, inTry).Returns?
          ==> o.call(hist, Func(name), args, inTry).value == Text(""))
    && (forall hist, name, args, inTry ::
          IsConstructor(name) && o.call(hist, Func(name), args, inTry).Returns?
          ==> o.call(hist, Func(name), args, inTry).value.Container?)
    && (forall hist, recv: Value, name, args, inTry ::
          recv.Container? && IsSilentMethod(name) && o.call(hist, Method(recv, name), args, inTry).Returns?
          ==> o.call(hist, Method(recv, name), args, inTry).value == Text(""))
    && (forall hist, recv: Value, name ::
          recv.Container? && IsSilentMethod(name) ==> !o.member(hist, recv, name).IsField?)
  }

  /** A range that assigns (`range $x = ...`) overwrites the top of the stack, not its variables. */
  predicate RangeDeclares(p: Pipe) {
    p.decl == [] || !p.isAssign
  }

  predicate NodeRangesDeclare(n: Node) {
    match n
    case Branch(kind, pipe, list, elseList) =>
      (kind == Range ==> RangeDeclares(pipe)) && RangesDeclare(list) && RangesDeclare(elseList)
    case Try(list, catchList) => RangesDeclare(list) && RangesDeclare(catchList)
    case _ => true
  }

  predicate RangesDeclare(nodes: seq<Node>) {
    nodes == [] || (NodeRangesDeclare(nodes[0]) && RangesDeclare(nodes[1..]))
  }

  /** A tree is bare when it binds no container variable; nested trees start from the dot alone, so
      none is ever on its stack. */
  predicate IsBare(fa: Facts, root: seq<Node>) {
    var bounds := NodesBounds(root);
    forall i :: 0 <= i < |bounds| ==> bounds[i].name !in fa.containers
  }

  /** What the bindings of a tree, or of a part of one, may do to container variables. */
  predicate Binds(fa: Facts, bare: bool, bounds: seq<Bound>) {
    && "$" !in fa.containers
    && forall i :: 0 <= i < |bounds| && bounds[i].name in fa.containers ==> !bare && bounds[i].constructed
  }

  /** No range may overwrite a container variable: none assigns, or there is none to overwrite. */
  predicate RangesSafe(bare: bool, nodes: seq<Node>) {
    bare || RangesDeclare(nodes)
  }

  predicate TreeSafe(fa: Facts, root: seq<Node>) {
    Binds(fa, IsBare(fa, root), NodesBounds(root)) && RangesSafe(IsBare(fa, root), root)
  }

  ghost predicate Analysed(fa: Facts, c: Context) {
    && c.trees == fa.trees
    && FunctionsAsDocumented(c.oracle)
    && (forall i :: 0 <= i < |fa.trees| ==> TreeSafe(fa, fa.trees[i].root))
    && PrintsClosed(fa)
    && "$" !in fa.containers
  }

  /** Every container variable on the stack holds a container; in a bare tree there is none. */
  predicate ContainersHold(fa: Facts, bare: bool, vars: seq<Binding>) {
    forall i :: 0 <= i < |vars| && vars[i].name in fa.containers ==> !bare && vars[i].value.Container?
  }

  /** A walk only pushes: what was on the stack keeps its name and place. */
  predicate Extends(vars: seq<Binding>, vars': seq<Binding>) {
    |vars| <= |vars'| && forall i :: 0 <= i < |vars| ==> vars'[i].name == vars[i].name
  }

  /** What every step keeps, and what a step under a silent node writes. */
  predicate Kept<T>(fa: Facts, bare: bool, vars: seq<Binding>, r: Step<T>, quiet: bool) {
    ContainersHold(fa, bare, r.st.vars) && Extends(vars, r.st.vars) && (quiet ==> AllBlank(r.out))
  }

  /** A step after another keeps what both keep. */
  lemma KeptJoin<S, T>(fa: Facts, bare: bool, vars: seq<Binding>, r: Step<S>, r': Step<T>, q: bool, q': bool,
                       quiet: bool)
    requires Kept(fa, bare, vars, r, q) && Kept(fa, bare, r.st.vars, r', q') && (quiet ==> q && q')
    ensures Kept(fa, bare, vars, r'.(out := r.out + r'.out), quiet)
  {
  }

  lemma BindsSplit(fa: Facts, bare: bool, a: seq<Bound>, b: seq<Bound>)
    requires Binds(fa, bare, a + b)
    ensures Binds(fa, bare, a) && Binds(fa, bare, b)
  {
    forall i | 0 <= i < |a| && a[i].name in fa.containers ensures !bare && a[i].constructed {
      assert (a + b)[i] == a[i];
    }
    forall i | 0 <= i < |b| && b[i].name in fa.containers ensures !bare && b[i].constructed {
      assert (a + b)[|a| + i] == b[i];
    }
  }

  predicate MayHold(fa: Facts, bare: bool, decl: seq<string>, v: Value) {
    forall i :: 0 <= i < |decl| && decl[i] in fa.containers ==> !bare && v.Container?
  }

  lemma {:induction false} BoundsMayHold(fa: Facts, bare: bool, decl: seq<string>, constructed: bool, v: Value)
    requires Binds(fa, bare, Bounds(decl, constructed)) && (constructed ==> v.Container?)
    ensures MayHold(fa, bare, decl, v)
  {
    if decl != [] {
      BindsSplit(fa, bare, [Bound(decl[0], constructed)], Bounds(decl[1..], constructed));
      BoundsMayHold(fa, bare, decl[1..], constructed, v);
      assert [Bound(decl[0], constructed)][0].name == decl[0];
    }
  }

  lemma {:induction false} SetVarKept(fa: Facts, bare: bool, vars: seq<Binding>, name: string, v: Value)
    requires ContainersHold(fa, bare, vars) && (name in fa.containers ==> !bare && v.Container?)
    ensures match SetVar(vars, name, v)
            case None => true
            case Some(vars') => ContainersHold(fa, bare, vars') && Extends(vars, vars') && |vars'| == |vars|
  {
    if vars != [] && vars[|vars| - 1].name != name {
      SetVarKept(fa, bare, vars[..|vars| - 1], name, v);
    }
  }

  lemma {:induction false} BindKept(fa: Facts, bare: bool, isAssign: bool, decl: seq<string>, v: Value,
                                    vars: seq<Binding>)
    requires ContainersHold(fa, bare, vars) && MayHold(fa, bare, decl, v)
    ensures match Bind(isAssign, decl, v, vars)
            case None => true
            case Some(vars') =>
              && ContainersHold(fa, bare, vars') && Extends(vars, vars')
              && (!isAssign ==>
                    && |vars'| == |vars| + |decl|
                    && forall i :: 0 <= i < |decl| ==> vars'[|vars| + i].name == decl[i])
  {
    if decl != [] {
      assert decl[0] in fa.containers ==> !bare && v.Container?;
      if isAssign {
        SetVarKept(fa, bare, vars, decl[0], v);
        match SetVar(vars, decl[0], v)
        case None =>
        case Some(vars') => BindKept(fa, bare, isAssign, decl[1..], v, vars');
      } else {
        BindKept(fa, bare, isAssign, decl[1..], v, vars + [Binding(decl[0], v)]);
      }
    }
  }

  lemma {:induction false} VarValueHolds(fa: Facts, bare: bool, vars: seq<Binding>, name: string)
    requires ContainersHold(fa, bare, vars) && name in fa.containers
    ensures VarValue(vars, name).Some? ==> VarValue(vars, name).value.Container?
  {
    if vars != [] && vars[|vars| - 1].name != name {
      VarValueHolds(fa, bare, vars[..|vars| - 1], name);
    }
  }

  // ---------------------------------------------------------------- pipelines

  lemma {:induction false} EvalPipeKept(fa: Facts, bare: bool, c: Context, p: Pipe, f: Frame, st: State)
    requires Analysed(fa, c) && ContainersHold(fa, bare, st.vars) && Binds(fa, bare, PipeBounds(p))
    ensures var r := EvalPipe(c, p, f, st);
            && Kept(fa, bare, st.vars, r, !AnyPrints(fa, PipeCalls(p)))
            && (r.end.Ok? && IsConstructorPipe(p) ==> r.end.value.Container?)
            && (r.end.Ok? && IsSilentPipe(fa.containers, p) ==> r.end.value == Text(""))
            && (r.end.Ok? && !p.isAssign && p.decl != [] ==>
                  && |r.st.vars| >= |p.decl|
                  && forall i :: 0 <= i < |p.decl| ==> r.st.vars[|r.st.vars| - |p.decl| + i].name == p.decl[i])
    decreases st.ops, 0, p, 1
  {
    hide FunctionsAsDocumented, PrintsClosed, EvalCommands;
    BindsSplit(fa, bare, Bounds(p.decl, IsConstructorPipe(p)), CommandsBounds(p.cmds));
    EvalCommandsKept(fa, bare, c, p.cmds, None, f, st);
    var r := EvalCommands(c, p.cmds, None, f, st);
    if r.end.Ok? {
      BoundsMayHold(fa, bare, p.decl, IsConstructorPipe(p), r.end.value);
      BindKept(fa, bare, p.isAssign, p.decl, r.end.value, r.st.vars);
    }
  }

  lemma {:induction false} EvalPipesKept(fa: Facts, bare: bool, c: Context, ps: seq<Pipe>, f: Frame, st: State)
    requires Analysed(fa, c) && ContainersHold(fa, bare, st.vars) && Binds(fa, bare, PipesBounds(ps))
    ensures Kept(fa, bare, st.vars, EvalPipes(c, ps, f, st), !AnyPrints(fa, PipesCalls(ps)))
    decreases st.ops, 0, ps, 0
  {
    hide FunctionsAsDocumented, PrintsClosed;
    if ps != [] {
      BindsSplit(fa, bare, PipeBounds(ps[0]), PipesBounds(ps[1..]));
      EvalPipeKept(fa, bare, c, ps[0], f, st);
    }
  }

  /** The value of a command list that a constructor ends, or that is one silent command. */
  predicate LastConstructs(cmds: seq<Command>) {
    IsConstructorPipe(Pipe(false, [], cmds))
  }

  lemma {:induction false} EvalCommandsKept(fa: Facts, bare: bool, c: Context, cmds: seq<Command>,
                                            final: Option<Value>, f: Frame, st: State)
    requires Analysed(fa, c) && ContainersHold(fa, bare, st.vars) && Binds(fa, bare, CommandsBounds(cmds))
    ensures var r := EvalCommands(c, cmds, final, f, st);
            && Kept(fa, bare, st.vars, r, !AnyPrints(fa, CommandsCalls(cmds)))
            && (r.end.Ok? && LastConstructs(cmds) ==> r.end.value.Container?)
            && (r.end.Ok? && IsSilentPipe(fa.containers, Pipe(false, [], cmds)) ==> r.end.value == Text(""))
    decreases st.ops, 0, cmds, 0
  {
    hide FunctionsAsDocumented, PrintsClosed, EvalCommand, IsConstructor, IsSilentFunc, IsSilentMethod, TreeSafe,
      CalleePrints;
    if cmds != [] {
      BindsSplit(fa, bare, ArgsBounds(cmds[0].args), CommandsBounds(cmds[1..]));
      EvalCommandKept(fa, bare, c, cmds[0], final, f, st);
      var r := EvalCommand(c, cmds[0], final, f, st);
      if r.end.Ok? {
        EvalCommandsKept(fa, bare, c, cmds[1..], Some(r.end.value), f, r.st);
        if |cmds| > 1 {
          assert cmds[1..][|cmds[1..]| - 1] == cmds[|cmds| - 1];
        }
      }
    }
  }

  predicate CommandConstructs(cmd: Command) {
    cmd.args != [] &&
    match cmd.args[0]
    case Ident(name) => IsConstructor(name)
    case Paren(inner) => |cmd.args| == 1 && IsConstructorPipe(inner)
    case _ => false
  }

  predicate CommandSilent(containers: set<string>, cmd: Command) {
    cmd.args != [] &&
    match cmd.args[0]
    case Ident(name) => IsSilentFunc(name)
    case Var(name, path) => |path| == 1 && IsSilentMethod(path[0]) && name in containers
    case _ => false
  }

  lemma {:induction false} EvalCommandKept(fa: Facts, bare: bool, c: Context, cmd: Command, final: Option<Value>,
                                           f: Frame, st: State)
    requires Analysed(fa, c) && ContainersHold(fa, bare, st.vars) && Binds(fa, bare, ArgsBounds(cmd.args))
    ensures var r := EvalCommand(c, cmd, final, f, st);
            && Kept(fa, bare, st.vars, r, !AnyPrints(fa, ExecCallees(cmd) + ArgsCalls(cmd.args)))
            && (r.end.Ok? && CommandConstructs(cmd) ==> r.end.value.Container?)
            && (r.end.Ok? && CommandSilent(fa.containers, cmd) ==> r.end.value == Text(""))
    decreases st.ops, 0, cmd, 0
  {
    hide FunctionsAsDocumented, PrintsClosed, Resolve, Invoke;
    if cmd.args != [] && !cmd.args[0].Nil? {
      BindsSplit(fa, bare, ArgBounds(cmd.args[0]), ArgsBounds(cmd.args[1..]));
      ResolveKept(fa, bare, c, cmd.args[0], f, st);
      var r := Resolve(c, cmd.args[0], f, st);
      if r.end.Ok? && r.end.value.Callable? && CanSpend(10, r.st) {
        var name := LiteralAt(cmd.args, 1);
        assert LiteralAt(cmd.args[1..], 0) == name;
        assert cmd.args[0] == Ident(EXEC_TEMPLATE) ==> name in ExecCallees(cmd);
        InvokeKept(fa, bare, c, r.end.value.callee, cmd.args[1..], final, f, Spend(10, r.st));
      }
    }
  }

  lemma {:induction false} EvalArgKept(fa: Facts, bare: bool, c: Context, a: Arg, f: Frame, st: State)
    requires Analysed(fa, c) && ContainersHold(fa, bare, st.vars) && Binds(fa, bare, ArgBounds(a))
    ensures Kept(fa, bare, st.vars, EvalArg(c, a, f, st), !AnyPrints(fa, ArgCalls(a)))
    ensures a.Str? ==> EvalArg(c, a, f, st).end == Ok(Text(a.text))
    decreases st.ops, 0, a, 1
  {
    hide FunctionsAsDocumented, PrintsClosed;
    ResolveKept(fa, bare, c, a, f, st);
    var r := Resolve(c, a, f, st);
    if r.end.Ok? && r.end.value.Callable? && CanSpend(10, r.st) {
      InvokeKept(fa, bare, c, r.end.value.callee, [], None, f, Spend(10, r.st));
      if r.end.value.callee == Func(EXEC_TEMPLATE) {
        // without arguments it fails before it runs any tree
        var st1 := Spend(10, r.st);
        assert EvalArgs(c, Func(EXEC_TEMPLATE), 0, [], f, st1) == Done([], st1);
        assert CallWith(c, Func(EXEC_TEMPLATE), [], f, st1).out == "";
        assert Invoke(c, Func(EXEC_TEMPLATE), [], None, f, st1).out == "";
      }
    }
  }

  /** A callee is one the analysis knows: never execTemplate unless the operand names it. */
  predicate ResolvesTo(fa: Facts, a: Arg, t: Target) {
    match a
    case Ident(name) => t == Callable(Func(name))
    case Paren(_) => t.Plain?
    case Var(name, path) =>
      && (t.Callable? ==> t.callee.Method?)
      && (|path| == 1 && IsSilentMethod(path[0]) && name in fa.containers ==>
            t.Callable? && t.callee.recv.Container? && t.callee.name == path[0])
    case _ => t.Callable? ==> t.callee.Method?
  }

  lemma {:induction false} ResolveKept(fa: Facts, bare: bool, c: Context, a: Arg, f: Frame, st: State)
    requires Analysed(fa, c) && ContainersHold(fa, bare, st.vars) && Binds(fa, bare, ArgBounds(a))
    ensures var r := Resolve(c, a, f, st);
            && Kept(fa, bare, st.vars, r, !AnyPrints(fa, ArgCalls(a)))
            && (r.end.Ok? ==> ResolvesTo(fa, a, r.end.value))
            && (r.end.Ok? && a.Paren? && IsConstructorPipe(a.pipe) ==> r.end.value.value.Container?)
    decreases st.ops, 0, a, 0
  {
    hide PrintsClosed, EvalPipe, EvalArg;
    match a
    case Field(path) => EvalPathMethods(c, f.dot, path, f, st);
    case Var(name, path) =>
      if VarValue(st.vars, name).Some? {
        EvalPathMethods(c, VarValue(st.vars, name).value, path, f, st);
        if name in fa.containers {
          VarValueHolds(fa, bare, st.vars, name);
        }
      }
    case Paren(pipe) => EvalPipeKept(fa, bare, c, pipe, f, st);
    case Chain(node, path) =>
      if path != [] && !node.Nil? {
        EvalArgKept(fa, bare, c, node, f, st);
        var r := EvalArg(c, node, f, st);
        if r.end.Ok? {
          EvalPathMethods(c, r.end.value, path, f, r.st);
        }
      }
    case _ =>
  }

  lemma {:induction false} EvalPathMethods(c: Context, recv: Value, path: seq<string>, f: Frame, st: State)
    ensures var r := EvalPath(c, recv, path, f, st);
            r.end.Ok? && r.end.value.Callable? ==> r.end.value.callee.Method?
    decreases path
  {
    if |path| > 1 {
      if recv.NoValue? {
        EvalPathMethods(c, NoValue, path[1..], f, st);
      } else {
        match c.oracle.member(st.hist, recv, path[0])
        case NoMember =>
        case IsField(v) => EvalPathMethods(c, v, path[1..], f, st);
        case IsMethod =>
          if CanSpend(10, st) && c.oracle.arity(Method(recv, path[0]), 0) {
            var r := CallOracle(c, Method(recv, path[0]), [], f.inTry, Spend(10, st));
            if r.end.Ok? {
              EvalPathMethods(c, r.end.value, path[1..], f, r.st);
            }
          }
      }
    }
  }

  lemma {:induction false} EvalArgsKept(fa: Facts, bare: bool, c: Context, callee: Callee, i: nat, args: seq<Arg>,
                                        f: Frame, st: State)
    requires Analysed(fa, c) && ContainersHold(fa, bare, st.vars) && Binds(fa, bare, ArgsBounds(args))
    ensures var r := EvalArgs(c, callee, i, args, f, st);
            && Kept(fa, bare, st.vars, r, !AnyPrints(fa, ArgsCalls(args)))
            && (r.end.Ok? ==> |r.end.value| == |args|)
            && (r.end.Ok? && args != [] && args[0].Str? ==> r.end.value[0] == Text(args[0].text))
    decreases st.ops, 0, args, 0
  {
    hide FunctionsAsDocumented, PrintsClosed, EvalArg;
    if args != [] {
      BindsSplit(fa, bare, ArgBounds(args[0]), ArgsBounds(args[1..]));
      EvalArgKept(fa, bare, c, args[0], f, st);
      var r := EvalArg(c, args[0], f, st);
      if r.end.Ok? && c.oracle.accepts(callee, i, r.end.value) {
        EvalArgsKept(fa, bare, c, callee, i + 1, args[1..], f, r.st);
      }
    }
  }

  // ---------------------------------------------------------------- calls

  /** The names an execTemplate call with these arguments answers for. */
  function InvokeCalls(callee: Callee, args: seq<Arg>): set<string> {
    (if callee == Func(EXEC_TEMPLATE) then {LiteralAt(args, 0)} else {}) + ArgsCalls(args)
  }

  lemma {:induction false} InvokeKept(fa: Facts, bare: bool, c: Context, callee: Callee, args: seq<Arg>,
                                      final: Option<Value>, f: Frame, st: State)
    requires Analysed(fa, c) && ContainersHold(fa, bare, st.vars) && Binds(fa, bare, ArgsBounds(args))
    ensures var r := Invoke(c, callee, args, final, f, st);
            && Kept(fa, bare, st.vars, r, !AnyPrints(fa, InvokeCalls(callee, args)))
            && (r.end.Ok? && callee.Func? && IsConstructor(callee.name) ==> r.end.value.Container?)
            && (r.end.Ok? && callee.Func? && IsSilentFunc(callee.name) ==> r.end.value == Text(""))
            && (r.end.Ok? && callee.Method? && callee.recv.Container? && IsSilentMethod(callee.name)
                ==> r.end.value == Text(""))
    decreases st.ops, 3
  {
    hide Analysed, EvalArgs, CallWith, ArgsBounds, Binds, ArgsCalls, CalleePrints, IsConstructor, IsSilentFunc,
      IsSilentMethod;
    EvalArgsKept(fa, bare, c, callee, 0, args, f, st);
    var r := EvalArgs(c, callee, 0, args, f, st);
    if r.end.Ok? {
      var values := if final.Some? then r.end.value + [final.value] else r.end.value;
      var name := LiteralAt(args, 0);
      assert callee == Func(EXEC_TEMPLATE) ==> name in InvokeCalls(callee, args);
      CallWithKept(fa, bare, c, callee, name, values, f, r.st);
      KeptJoin(fa, bare, st.vars, r, CallWith(c, callee, values, f, r.st), !AnyPrints(fa, ArgsCalls(args)),
               callee == Func(EXEC_TEMPLATE) ==> !CalleePrints(fa, name), !AnyPrints(fa, InvokeCalls(callee, args)));
    }
  }

  lemma {:induction false} CallWithKept(fa: Facts, bare: bool, c: Context, callee: Callee, name: string,
                                        args: seq<Value>, f: Frame, st: State)
    requires Analysed(fa, c) && ContainersHold(fa, bare, st.vars)
    requires name == ANY_TREE || (args != [] && args[0] == Text(name))
    ensures var r := CallWith(c, callee, args, f, st);
            && Kept(fa, bare, st.vars, r, callee == Func(EXEC_TEMPLATE) ==> !CalleePrints(fa, name))
            && (r.end.Ok? && callee.Func? && IsConstructor(callee.name) ==> r.end.value.Container?)
            && (r.end.Ok? && callee.Func? && IsSilentFunc(callee.name) ==> r.end.value == Text(""))
            && (r.end.Ok? && callee.Method? && callee.recv.Container? && IsSilentMethod(callee.name)
                ==> r.end.value == Text(""))
    decreases st.ops, 2
  {
    hide PrintsClosed, RunTree, CalleePrints, TreeSafe;
    if callee == Func(EXEC_TEMPLATE) {
      if CanSpend(100, st) && 0 < |args| <= 2 && args[0].Text? {
        var dot := if |args| > 1 then args[1] else NoValue;
        RunTreeKept(fa, bare, c, name, args[0].s, dot, f.inTry, f.depth, Spend(100, st));
      }
    } else if callee.Func? && IsSender(callee.name) {
      var i := SenderIndex(callee.name);
      if i < |args| && args[i].Text? {
        var dot := if i + 1 < |args| then args[i + 1] else NoValue;
        RunTreeKept(fa, bare, c, ANY_TREE, args[i].s, dot, false, 0, st);
      }
    }
  }

  /** Running the tree a name stands for: `known` is what the analysis knows of the name. */
  lemma {:induction false} RunTreeKept(fa: Facts, bare: bool, c: Context, known: string, name: string, dot: Value,
                                       inTry: bool, depth: nat, st: State)
    requires Analysed(fa, c) && ContainersHold(fa, bare, st.vars) && (known == ANY_TREE || known == name)
    ensures Kept(fa, bare, st.vars, RunTree(c, name, dot, inTry, depth, st), !CalleePrints(fa, known))
    decreases st.ops, 1, 0
  {
    hide FunctionsAsDocumented, PrintsClosed, WalkList, IsBare;
    if Lookup(c, name).Some? && depth < MAX_EXEC_DEPTH {
      var root := Lookup(c, name).value;
      LookupAnalysed(fa, c, known, name);
      WalkListKept(fa, IsBare(fa, root), c, root, Frame(dot, inTry, depth + 1), st.(vars := [Binding("$", dot)]));
    }
  }

  lemma {:induction false} FindDefineIs(trees: seq<Tree>, name: string)
    ensures FindDefine(trees, name).Some? <==> IsDefine(trees, name)
    ensures FindDefine(trees, name).Some? ==>
              exists i :: 0 <= i < |trees| && !trees[i].isMain && trees[i].name == name
                          && trees[i].root == FindDefine(trees, name).value
    ensures FindMain(trees).Some? ==>
              exists i :: 0 <= i < |trees| && trees[i].isMain && trees[i].root == FindMain(trees).value
  {
    if trees != [] {
      var rest := trees[1..];
      FindDefineIs(rest, name);
      if FindDefine(rest, name).Some? {
        var i :| 0 <= i < |rest| && !rest[i].isMain && rest[i].name == name
                 && rest[i].root == FindDefine(rest, name).value;
        assert trees[i + 1] == rest[i];
      }
      if FindMain(rest).Some? {
        var i :| 0 <= i < |rest| && rest[i].isMain && rest[i].root == FindMain(rest).value;
        assert trees[i + 1] == rest[i];
      }
      if IsDefine(trees, name) && !(!trees[0].isMain && trees[0].name == name) {
        var i :| 0 <= i < |trees| && !trees[i].isMain && trees[i].name == name;
        assert rest[i - 1] == trees[i];
      }
    }
  }

  lemma LookupAnalysed(fa: Facts, c: Context, known: string, name: string)
    requires Analysed(fa, c) && Lookup(c, name).Some? && (known == ANY_TREE || known == name)
    ensures TreeSafe(fa, Lookup(c, name).value)
    ensures !CalleePrints(fa, known) ==> Count(fa, Lookup(c, name).value) == 0
  {
    FindDefineIs(c.trees, name);
    var i :| 0 <= i < |fa.trees| && fa.trees[i].root == Lookup(c, name).value
             && (FindDefine(c.trees, name).Some? ==> fa.trees[i].name == name);
    if !CalleePrints(fa, known) {
      assert fa.trees[i].name !in fa.prints;
      QuietCountsZero(fa, fa.trees[i].root);
    }
  }

  // ---------------------------------------------------------------- counting printers

  lemma AnyPrintsMonotone(fa: Facts, a: set<string>, b: set<string>)
    requires a <= b && !AnyPrints(fa, b)
    ensures !AnyPrints(fa, a)
  {
  }

  /** A tree without printers of its own that runs no printing tree has no printer events. */
  lemma {:induction false} QuietCountsZero(fa: Facts, nodes: seq<Node>)
    requires !NodesOwn(fa.containers, nodes) && !AnyPrints(fa, NodesCalls(nodes))
    ensures Count(fa, nodes) == 0
    decreases nodes, 0
  {
    if nodes != [] {
      AnyPrintsMonotone(fa, NodeCalls(nodes[0]), NodesCalls(nodes));
      AnyPrintsMonotone(fa, NodesCalls(nodes[1..]), NodesCalls(nodes));
      QuietNodeCountsZero(fa, nodes[0]);
      QuietCountsZero(fa, nodes[1..]);
    }
  }

  lemma {:induction false} QuietNodeCountsZero(fa: Facts, n: Node)
    requires !NodeOwns(fa.containers, n) && !AnyPrints(fa, NodeCalls(n))
    ensures NodeCount(fa, n) == 0
    decreases n, 1
  {
    match n
    case Branch(_, pipe, list, elseList) =>
      AnyPrintsMonotone(fa, PipeCalls(pipe), NodeCalls(n));
      AnyPrintsMonotone(fa, NodesCalls(list), NodeCalls(n));
      AnyPrintsMonotone(fa, NodesCalls(elseList), NodeCalls(n));
      QuietCountsZero(fa, list);
      QuietCountsZero(fa, elseList);
    case Try(list, catchList) =>
      AnyPrintsMonotone(fa, NodesCalls(list), NodeCalls(n));
      AnyPrintsMonotone(fa, NodesCalls(catchList), NodeCalls(n));
      QuietCountsZero(fa, list);
      QuietCountsZero(fa, catchList);
    case Template(name, pipes) =>
      AnyPrintsMonotone(fa, PipesCalls(pipes), NodeCalls(n));
      assert name in NodeCalls(n);
    case _ =>
  }

  // ---------------------------------------------------------------- walking

  lemma {:induction false} WalkListKept(fa: Facts, bare: bool, c: Context, nodes: seq<Node>, f: Frame, st: State)
    requires Analysed(fa, c) && ContainersHold(fa, bare, st.vars)
    requires Binds(fa, bare, NodesBounds(nodes)) && RangesSafe(bare, nodes)
    ensures Kept(fa, bare, st.vars, WalkList(c, nodes, f, st), Count(fa, nodes) == 0)
    decreases st.ops, 0, nodes, 0
  {
    hide FunctionsAsDocumented, PrintsClosed;
    if nodes != [] {
      BindsSplit(fa, bare, NodeBounds(nodes[0]), NodesBounds(nodes[1..]));
      WalkNodeKept(fa, bare, c, nodes[0], f, st);
      var r := WalkNode(c, nodes[0], f, st);
      if r.end == Ok(Next) {
        WalkListKept(fa, bare, c, nodes[1..], f, r.st);
      }
    }
  }

  predicate NodeRangesSafe(bare: bool, n: Node) {
    bare || NodeRangesDeclare(n)
  }

  lemma {:induction false} WalkNodeKept(fa: Facts, bare: bool, c: Context, n: Node, f: Frame, st: State)
    requires Analysed(fa, c) && ContainersHold(fa, bare, st.vars)
    requires Binds(fa, bare, NodeBounds(n)) && NodeRangesSafe(bare, n)
    ensures Kept(fa, bare, st.vars, WalkNode(c, n, f, st), NodeCount(fa, n) == 0)
    decreases st.ops, 0, n, 2
  {
    hide FunctionsAsDocumented, PrintsClosed;
    match n
    case Action(pipe) => EvalPipeKept(fa, bare, c, pipe, f, st);
    case Branch(kind, pipe, list, elseList) => WalkBranchKept(fa, bare, c, kind, pipe, list, elseList, f, st);
    case Try(list, catchList) =>
      BindsSplit(fa, bare, NodesBounds(list), NodesBounds(catchList));
      WalkListKept(fa, bare, c, list, f.(inTry := true), st);
      var r := WalkList(c, list, f.(inTry := true), st);
      if r.end.Thrown? {
        WalkListKept(fa, bare, c, catchList, f.(dot := r.end.err), r.st);
      }
    case Return(pipes) => EvalPipesKept(fa, bare, c, pipes, f, st);
    case Template(name, pipes) => WalkTemplateKept(fa, bare, c, name, pipes, f, st);
    case _ =>
  }

  lemma {:induction false} WalkTemplateKept(fa: Facts, bare: bool, c: Context, name: string, pipes: seq<Pipe>,
                                            f: Frame, st: State)
    requires Analysed(fa, c) && ContainersHold(fa, bare, st.vars) && Binds(fa, bare, PipesBounds(pipes))
    ensures Kept(fa, bare, st.vars, WalkNode(c, Template(name, pipes), f, st),
                 NodeCount(fa, Template(name, pipes)) == 0)
    decreases st.ops, 0, Template(name, pipes), 1
  {
    hide FunctionsAsDocumented, PrintsClosed, EvalPipes, RunTree;
    if CanSpend(100, st) {
      EvalPipesKept(fa, bare, c, pipes, f, Spend(100, st));
      var r := EvalPipes(c, pipes, f, Spend(100, st));
      if r.end.Ok? {
        RunTreeKept(fa, bare, c, name, name, r.end.value, f.inTry, f.depth, r.st);
      }
    }
  }

  lemma BranchBinds(fa: Facts, bare: bool, kind: BranchKind, pipe: Pipe, list: seq<Node>, elseList: seq<Node>)
    requires Binds(fa, bare, NodeBounds(Branch(kind, pipe, list, elseList)))
    ensures kind == Range ==> Binds(fa, bare, Bounds(pipe.decl, false))
    ensures Binds(fa, bare, PipeBounds(pipe))
    ensures Binds(fa, bare, NodesBounds(list)) && Binds(fa, bare, NodesBounds(elseList))
  {
    var own := if kind == Range then Bounds(pipe.decl, false) else [];
    BindsSplit(fa, bare, own + PipeBounds(pipe) + NodesBounds(list), NodesBounds(elseList));
    BindsSplit(fa, bare, own + PipeBounds(pipe), NodesBounds(list));
    BindsSplit(fa, bare, own, PipeBounds(pipe));
  }

  lemma {:induction false} WalkBranchKept(fa: Facts, bare: bool, c: Context, kind: BranchKind, pipe: Pipe,
                                          list: seq<Node>, elseList: seq<Node>, f: Frame, st: State)
    requires Analysed(fa, c) && ContainersHold(fa, bare, st.vars)
    requires Binds(fa, bare, NodeBounds(Branch(kind, pipe, list, elseList)))
    requires NodeRangesSafe(bare, Branch(kind, pipe, list, elseList))
    ensures Kept(fa, bare, st.vars, WalkBranch(c, kind, pipe, list, elseList, f, st),
                 NodeCount(fa, Branch(kind, pipe, list, elseList)) == 0)
    decreases st.ops, 0, Branch(kind, pipe, list, elseList), 1
  {
    hide Analysed, IsSilentPipe, IsConstructorPipe, AnyPrints, EvalPipe, WalkList, WalkRange, WalkWhile, Binds,
      PipeCalls,
      PipeBounds, NodesBounds, Count;
    BranchBinds(fa, bare, kind, pipe, list, elseList);
    if kind == While {
      if CanSpend(1, st) {
        WalkWhileKept(fa, bare, c, pipe, list, elseList, true, |st.vars|, f, Spend(1, st));
      }
    } else if kind != Range || CanSpend(1, st) {
      var st1 := if kind == Range then Spend(1, st) else st;
      EvalPipeKept(fa, bare, c, pipe, f, st1);
      var r := EvalPipe(c, pipe, f, st1);
      if r.end.Ok? {
        if kind == Range {
          var keys := c.oracle.keys(r.st.hist, r.end.value);
          if keys.Some? {
            if keys.value == [] {
              WalkListKept(fa, bare, c, elseList, f, r.st);
            } else {
              RangeTopsFree(fa, bare, pipe, r.st.vars);
              WalkRangeKept(fa, bare, c, pipe.decl, list, r.end.value, keys.value, |r.st.vars|, f, r.st);
            }
          }
        } else {
          var truth := c.oracle.truth(r.st.hist, r.end.value);
          if truth.Some? {
            var f' := if truth.value && kind == With then f.(dot := r.end.value) else f;
            WalkListKept(fa, bare, c, if truth.value then list else elseList, f', r.st);
          }
        }
      }
    }
  }

  /** The one or two variables at the top of the stack, which an iteration sets, are free of
      container variables. */
  predicate TopsFree(fa: Facts, decl: seq<string>, vars: seq<Binding>) {
    && (decl != [] && vars != [] ==> vars[|vars| - 1].name !in fa.containers)
    && (|decl| > 1 && |vars| > 1 ==> vars[|vars| - 2].name !in fa.containers)
  }

  lemma RangeTopsFree(fa: Facts, bare: bool, pipe: Pipe, vars: seq<Binding>)
    requires Binds(fa, bare, Bounds(pipe.decl, false))
    requires (bare || RangeDeclares(pipe)) && ContainersHold(fa, bare, vars)
    requires !pipe.isAssign && pipe.decl != [] ==>
               && |vars| >= |pipe.decl|
               && forall i :: 0 <= i < |pipe.decl| ==> vars[|vars| - |pipe.decl| + i].name == pipe.decl[i]
    ensures TopsFree(fa, pipe.decl, vars)
  {
    BoundsMayHold(fa, bare, pipe.decl, false, NoValue);
    if !bare && pipe.decl != [] {
      var n := |pipe.decl|;
      assert vars[|vars| - n + (n - 1)].name == pipe.decl[n - 1];
      if n > 1 {
        assert vars[|vars| - n + (n - 2)].name == pipe.decl[n - 2];
      }
    }
  }

  /** The steps of a range with a key left. */
  lemma RangeSteps(c: Context, decl: seq<string>, list: seq<Node>, v: Value, keys: seq<Value>, mark: nat, f: Frame,
                   st: State)
    ensures var whole := WalkRange(c, decl, list, v, keys, mark, f, st);
            if keys == [] then whole == Done(Next, st)
            else
              var elem := c.oracle.elem(st.hist, v, keys[0]);
              if elem == None || TooLong(elem.value) || !CanSpend(1, st) then whole == Stop(st)
              else
                var tops := SetTops(decl, keys[0], elem.value, st.vars);
                if tops == None then whole == Stop(st)
                else
                  var r := PopTo(mark, WalkList(c, list, f.(dot := elem.value), Spend(1, st).(vars := tops.value)));
                  if !GoesOn(r.end) then whole == r.(end := LoopEnd(r.end))
                  else
                    var r' := WalkRange(c, decl, list, v, keys[1..], mark, f, r.st);
                    whole == r'.(out := r.out + r'.out)
  {
    hide WalkList;
  }

  lemma {:induction false} WalkRangeKept(fa: Facts, bare: bool, c: Context, decl: seq<string>, list: seq<Node>,
                                         v: Value, keys: seq<Value>, mark: nat, f: Frame, st: State)
    requires Analysed(fa, c) && ContainersHold(fa, bare, st.vars) && mark == |st.vars| && TopsFree(fa, decl, st.vars)
    requires Binds(fa, bare, NodesBounds(list)) && RangesSafe(bare, list)
    ensures Kept(fa, bare, st.vars, WalkRange(c, decl, list, v, keys, mark, f, st), Count(fa, list) == 0)
    decreases st.ops, 0, list, 1
  {
    hide Analysed, WalkList, WalkRange, Binds, NodesBounds, Count, RangesSafe;
    RangeSteps(c, decl, list, v, keys, mark, f, st);
    if keys != [] && c.oracle.elem(st.hist, v, keys[0]).Some? && CanSpend(1, st) {
      var elem := c.oracle.elem(st.hist, v, keys[0]).value;
      var tops := SetTops(decl, keys[0], elem, st.vars);
      if tops.Some? {
        var st1 := Spend(1, st).(vars := tops.value);
        WalkListKept(fa, bare, c, list, f.(dot := elem), st1);
        var r := PopTo(mark, WalkList(c, list, f.(dot := elem), st1));
        if GoesOn(r.end) {
          WalkRangeKept(fa, bare, c, decl, list, v, keys[1..], mark, f, r.st);
        }
      }
    }
  }

  lemma {:induction false} WalkWhileKept(fa: Facts, bare: bool, c: Context, pipe: Pipe, list: seq<Node>,
                                         elseList: seq<Node>, first: bool, mark: nat, f: Frame, st: State)
    requires Analysed(fa, c) && ContainersHold(fa, bare, st.vars) && mark == |st.vars|
    requires Binds(fa, bare, PipeBounds(pipe)) && Binds(fa, bare, NodesBounds(list))
    requires Binds(fa, bare, NodesBounds(elseList)) && RangesSafe(bare, list) && RangesSafe(bare, elseList)
    ensures Kept(fa, bare, st.vars, WalkWhile(c, pipe, list, elseList, first, mark, f, st),
                 NodeCount(fa, Branch(While, pipe, list, elseList)) == 0)
    decreases st.ops, 0, Branch(While, pipe, list, elseList), 0
  {
    hide Analysed, IsSilentPipe, IsConstructorPipe, AnyPrints, EvalPipe, WalkList, Binds, PipeCalls, PipeBounds,
      NodesBounds,
      Count, RangesSafe;
    if CanSpend(5, st) {
      EvalPipeKept(fa, bare, c, pipe, f, Spend(5, st));
      var r := EvalPipe(c, pipe, f, Spend(5, st));
      if r.end.Ok? {
        var truth := c.oracle.truth(r.st.hist, r.end.value);
        if truth == Some(false) && first {
          WalkListKept(fa, bare, c, elseList, f, r.st);
        } else if truth == Some(true) {
          WalkListKept(fa, bare, c, list, f, r.st);
          var b := PopTo(mark, WalkList(c, list, f, r.st));
          if GoesOn(b.end) {
            WalkWhileKept(fa, bare, c, pipe, list, elseList, false, mark, f, b.st);
          }
        }
      }
    }
  }
}
