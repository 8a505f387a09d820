/** Renaming preserves meaning: a renamed file runs step for step like the original. */
module RenameRuns {
  import opened Basics
  import opened Syntax
  import opened Interp
  import opened Renaming

  lemma {:induction false} EvalPipeRenamed(m: Names, c: Context, c': Context, p: Pipe, f: Frame, st: State)
    requires RenamedFile(m, c, c') && KnownVars(m, st.vars) && KnownNames(m, PipeNames(p))
    ensures Mirrors(m, EvalPipe(c, p, f, st), EvalPipe(c', RenamePipe(m, p), f, RenameState(m, st)))
    decreases st.ops, 0, p, 1
  {
    hide Faithful, KnownNames, EvalCommands;
    KnownSplit(m, p.decl, CommandsNames(p.cmds));
    EvalCommandsRenamed(m, c, c', p.cmds, None, f, st);
    var r := EvalCommands(c, p.cmds, None, f, st);
    if r.end.Ok? {
      BindRenamed(m, p.isAssign, p.decl, r.end.value, r.st.vars);
    }
  }

  lemma {:induction false} EvalPipesRenamed(m: Names, c: Context, c': Context, ps: seq<Pipe>, f: Frame, st: State)
    requires RenamedFile(m, c, c') && KnownVars(m, st.vars) && KnownNames(m, PipesNames(ps))
    ensures Mirrors(m, EvalPipes(c, ps, f, st), EvalPipes(c', RenamePipes(m, ps), f, RenameState(m, st)))
    decreases st.ops, 0, ps, 0
  {
    hide Faithful, KnownNames;
    if ps != [] {
      KnownSplit(m, PipeNames(ps[0]), PipesNames(ps[1..]));
      EvalPipeRenamed(m, c, c', ps[0], f, st);
    }
  }

  lemma {:induction false} EvalCommandsRenamed(m: Names, c: Context, c': Context, cmds: seq<Command>,
                                               final: Option<Value>, f: Frame, st: State)
    requires RenamedFile(m, c, c') && KnownVars(m, st.vars) && KnownNames(m, CommandsNames(cmds))
    ensures Mirrors(m, EvalCommands(c, cmds, final, f, st),
                    EvalCommands(c', RenameCommands(m, cmds), final, f, RenameState(m, st)))
    decreases st.ops, 0, cmds, 0
  {
    hide Faithful, KnownNames, EvalCommand;
    if cmds != [] {
      KnownSplit(m, ArgsNames(cmds[0].args), CommandsNames(cmds[1..]));
      EvalCommandRenamed(m, c, c', cmds[0], final, f, st);
      assert RenameCommands(m, cmds)[1..] == RenameCommands(m, cmds[1..]);
      var r := EvalCommand(c, cmds[0], final, f, st);
      if r.end.Ok? {
        EvalCommandsRenamed(m, c, c', cmds[1..], Some(r.end.value), f, r.st);
      }
    }
  }

  lemma {:induction false} EvalCommandRenamed(m: Names, c: Context, c': Context, cmd: Command, final: Option<Value>,
                                              f: Frame, st: State)
    requires RenamedFile(m, c, c') && KnownVars(m, st.vars) && KnownNames(m, ArgsNames(cmd.args))
    ensures Mirrors(m, EvalCommand(c, cmd, final, f, st),
                    EvalCommand(c', Command(RenameArgs(m, cmd.args)), final, f, RenameState(m, st)))
    decreases st.ops, 0, cmd, 0
  {
    hide Faithful, KnownNames, KnownVars, ArgNames, RenamePipe, EvalPath, Lookup, Resolve, Invoke;
    if cmd.args != [] && !cmd.args[0].Nil? {
      KnownSplit(m, ArgNames(cmd.args[0]), ArgsNames(cmd.args[1..]));
      RenameArgsShape(m, cmd.args);
      ResolveRenamed(m, c, c', cmd.args[0], f, st);
      var r := Resolve(c, cmd.args[0], f, st);
      if r.end.Ok? && r.end.value.Callable? && CanSpend(10, r.st) {
        InvokeRenamed(m, c, c', r.end.value.callee, cmd.args[1..], final, f, Spend(10, r.st));
      }
    }
  }

  lemma {:induction false} RenameArgsShape(m: Names, args: seq<Arg>)
    ensures |RenameArgs(m, args)| == |args|
    ensures args != [] ==> RenameArgs(m, args)[0] == RenameArg(m, args[0])
    ensures args != [] ==> RenameArgs(m, args)[1..] == RenameArgs(m, args[1..])
  {
    if args != [] {
      RenameArgsShape(m, args[1..]);
    }
  }

  lemma {:induction false} EvalArgRenamed(m: Names, c: Context, c': Context, a: Arg, f: Frame, st: State)
    requires RenamedFile(m, c, c') && KnownVars(m, st.vars) && KnownNames(m, ArgNames(a))
    ensures Mirrors(m, EvalArg(c, a, f, st), EvalArg(c', RenameArg(m, a), f, RenameState(m, st)))
    decreases st.ops, 0, a, 1
  {
    hide Faithful, Resolve, Invoke;
    ResolveRenamed(m, c, c', a, f, st);
    var r := Resolve(c, a, f, st);
    if r.end.Ok? && r.end.value.Callable? && CanSpend(10, r.st) {
      InvokeRenamed(m, c, c', r.end.value.callee, [], None, f, Spend(10, r.st));
    }
  }

  lemma {:induction false} ResolveRenamed(m: Names, c: Context, c': Context, a: Arg, f: Frame, st: State)
    requires RenamedFile(m, c, c') && KnownVars(m, st.vars) && KnownNames(m, ArgNames(a))
    ensures Mirrors(m, Resolve(c, a, f, st), Resolve(c', RenameArg(m, a), f, RenameState(m, st)))
    decreases st.ops, 0, a, 0
  {
    match a
    case Field(path) => EvalPathRenamed(m, c, c', f.dot, path, f, st);
    case Var(name, path) =>
      assert ArgNames(a)[0] == name;
      VarValueRenamed(m, st.vars, name);
      match VarValue(st.vars, name) {
        case Some(v) => EvalPathRenamed(m, c, c', v, path, f, st);
        case None =>
      }
    case Paren(pipe) => EvalPipeRenamed(m, c, c', pipe, f, st);
    case Chain(node, path) =>
      if path != [] && !node.Nil? {
        EvalArgRenamed(m, c, c', node, f, st);
        var r := EvalArg(c, node, f, st);
        if r.end.Ok? {
          EvalPathRenamed(m, c, c', r.end.value, path, f, r.st);
        }
      }
    case _ =>
  }

  lemma {:induction false} EvalPathRenamed(m: Names, c: Context, c': Context, recv: Value, path: seq<string>,
                                           f: Frame, st: State)
    requires c'.oracle == c.oracle && KnownVars(m, st.vars)
    ensures Mirrors(m, EvalPath(c, recv, path, f, st), EvalPath(c', recv, path, f, RenameState(m, st)))
    decreases path
  {
    if path == [] || |path| == 1 {
    } else if recv.NoValue? {
      EvalPathRenamed(m, c, c', NoValue, path[1..], f, st);
    } else {
      match c.oracle.member(st.hist, recv, path[0])
      case NoMember =>
      case IsField(v) => EvalPathRenamed(m, c, c', v, path[1..], f, st);
      case IsMethod =>
        if CanSpend(10, st) && c.oracle.arity(Method(recv, path[0]), 0) {
          var r := CallOracle(c, Method(recv, path[0]), [], f.inTry, Spend(10, st));
          if r.end.Ok? {
            EvalPathRenamed(m, c, c', r.end.value, path[1..], f, r.st);
          }
        }
    }
  }

  lemma {:induction false} EvalArgsRenamed(m: Names, c: Context, c': Context, callee: Callee, i: nat, args: seq<Arg>,
                                           f: Frame, st: State)
    requires RenamedFile(m, c, c') && KnownVars(m, st.vars) && KnownNames(m, ArgsNames(args))
    ensures Mirrors(m, EvalArgs(c, callee, i, args, f, st),
                    EvalArgs(c', callee, i, RenameArgs(m, args), f, RenameState(m, st)))
    decreases st.ops, 0, args, 0
  {
    hide Faithful, KnownNames, EvalArg;
    if args != [] {
      KnownSplit(m, ArgNames(args[0]), ArgsNames(args[1..]));
      RenameArgsShape(m, args);
      EvalArgRenamed(m, c, c', args[0], f, st);
      var r := EvalArg(c, args[0], f, st);
      if r.end.Ok? && c.oracle.accepts(callee, i, r.end.value) {
        EvalArgsRenamed(m, c, c', callee, i + 1, args[1..], f, r.st);
      }
    }
  }

  lemma {:induction false} InvokeRenamed(m: Names, c: Context, c': Context, callee: Callee, args: seq<Arg>,
                                         final: Option<Value>, f: Frame, st: State)
    requires RenamedFile(m, c, c') && KnownVars(m, st.vars) && KnownNames(m, ArgsNames(args))
    ensures Mirrors(m, Invoke(c, callee, args, final, f, st),
                    Invoke(c', callee, RenameArgs(m, args), final, f, RenameState(m, st)))
    decreases st.ops, 3
  {
    hide Faithful, KnownNames, EvalArgs, CallWith;
    RenameArgsShape(m, args);
    EvalArgsRenamed(m, c, c', callee, 0, args, f, st);
    var r := EvalArgs(c, callee, 0, args, f, st);
    if r.end.Ok? {
      CallWithRenamed(m, c, c', callee, if final.Some? then r.end.value + [final.value] else r.end.value, f, r.st);
    }
  }

  lemma {:induction false} CallWithRenamed(m: Names, c: Context, c': Context, callee: Callee, args: seq<Value>,
                                           f: Frame, st: State)
    requires RenamedFile(m, c, c') && KnownVars(m, st.vars)
    ensures Mirrors(m, CallWith(c, callee, args, f, st), CallWith(c', callee, args, f, RenameState(m, st)))
    decreases st.ops, 2
  {
    hide Faithful, KnownNames, ExecTemplate, SendTemplate;
    if callee == Func(EXEC_TEMPLATE) {
      ExecTemplateRenamed(m, c, c', args, f, st);
    } else if callee.Func? && IsSender(callee.name) {
      SendTemplateRenamed(m, c, c', callee.name, args, f, st);
    }
  }

  lemma {:induction false} ExecTemplateRenamed(m: Names, c: Context, c': Context, args: seq<Value>, f: Frame, st: State)
    requires RenamedFile(m, c, c') && KnownVars(m, st.vars)
    ensures Mirrors(m, ExecTemplate(c, args, f, st), ExecTemplate(c', args, f, RenameState(m, st)))
    decreases st.ops, 1, 1
  {
    hide Faithful, KnownNames, RunTree;
    if CanSpend(100, st) && 0 < |args| <= 2 && args[0].Text? {
      var dot := if |args| > 1 then args[1] else NoValue;
      RunTreeRenamed(m, c, c', args[0].s, dot, f.inTry, f.depth, Spend(100, st));
    }
  }

  lemma {:induction false} SendTemplateRenamed(m: Names, c: Context, c': Context, fn: string, args: seq<Value>,
                                               f: Frame, st: State)
    requires RenamedFile(m, c, c') && KnownVars(m, st.vars)
    ensures Mirrors(m, SendTemplate(c, fn, args, f, st), SendTemplate(c', fn, args, f, RenameState(m, st)))
    decreases st.ops, 1, 1
  {
    hide Faithful, KnownNames, RunTree;
    var i := SenderIndex(fn);
    if i < |args| && args[i].Text? {
      var dot := if i + 1 < |args| then args[i + 1] else NoValue;
      RunTreeRenamed(m, c, c', args[i].s, dot, false, 0, st);
    }
  }

  lemma {:induction false} RunTreeRenamed(m: Names, c: Context, c': Context, name: string, dot: Value, inTry: bool,
                                          depth: nat, st: State)
    requires RenamedFile(m, c, c') && KnownVars(m, st.vars)
    ensures Mirrors(m, RunTree(c, name, dot, inTry, depth, st),
                    RunTree(c', name, dot, inTry, depth, RenameState(m, st)))
    decreases st.ops, 1, 0
  {
    hide WalkList;
    LookupRenamed(m, c.trees, name);
    match Lookup(c, name)
    case None =>
    case Some(root) =>
      if depth < MAX_EXEC_DEPTH {
        var inner := st.(vars := [Binding("$", dot)]);
        assert RenameState(m, inner) == inner;
        WalkListRenamed(m, c, c', root, Frame(dot, inTry, depth + 1), inner);
      }
  }

  lemma {:induction false} WalkListRenamed(m: Names, c: Context, c': Context, nodes: seq<Node>, f: Frame, st: State)
    requires RenamedFile(m, c, c') && KnownVars(m, st.vars) && KnownNames(m, NodesNames(nodes))
    ensures Mirrors(m, WalkList(c, nodes, f, st), WalkList(c', RenameNodes(m, nodes), f, RenameState(m, st)))
    decreases st.ops, 0, nodes, 0
  {
    hide Faithful, KnownNames;
    if nodes != [] {
      KnownSplit(m, NodeNames(nodes[0]), NodesNames(nodes[1..]));
      assert RenameNodes(m, nodes)[1..] == RenameNodes(m, nodes[1..]);
      WalkNodeRenamed(m, c, c', nodes[0], f, st);
      var r := WalkNode(c, nodes[0], f, st);
      if r.end == Ok(Next) {
        WalkListRenamed(m, c, c', nodes[1..], f, r.st);
      }
    }
  }

  lemma {:induction false} WalkNodeRenamed(m: Names, c: Context, c': Context, n: Node, f: Frame, st: State)
    requires RenamedFile(m, c, c') && KnownVars(m, st.vars) && KnownNames(m, NodeNames(n))
    ensures Mirrors(m, WalkNode(c, n, f, st), WalkNode(c', RenameNode(m, n), f, RenameState(m, st)))
    decreases st.ops, 0, n, 2
  {
    hide Faithful, KnownNames;
    match n
    case Action(pipe) =>
      EvalPipeRenamed(m, c, c', pipe, f, st);
      RenameDeclLength(m, pipe.decl);
    case Branch(kind, pipe, list, elseList) =>
      WalkBranchRenamed(m, c, c', kind, pipe, list, elseList, f, st);
      PopRenamed(m, |st.vars|, WalkBranch(c, kind, pipe, list, elseList, f, st));
    case Try(list, catchList) =>
      KnownSplit(m, NodesNames(list), NodesNames(catchList));
      WalkTryRenamed(m, c, c', list, catchList, f, st);
    case Return(pipes) => EvalPipesRenamed(m, c, c', pipes, f, st);
    case Template(name, pipes) => WalkTemplateRenamed(m, c, c', name, pipes, f, st);
    case _ =>
  }

  lemma {:induction false} WalkTryRenamed(m: Names, c: Context, c': Context, list: seq<Node>, catchList: seq<Node>,
                                          f: Frame, st: State)
    requires RenamedFile(m, c, c') && KnownVars(m, st.vars)
    requires KnownNames(m, NodesNames(list)) && KnownNames(m, NodesNames(catchList))
    ensures Mirrors(m, WalkNode(c, Try(list, catchList), f, st),
                    WalkNode(c', Try(RenameNodes(m, list), RenameNodes(m, catchList)), f, RenameState(m, st)))
    decreases st.ops, 0, Try(list, catchList), 1
  {
    hide Faithful, KnownNames, WalkList;
    WalkListRenamed(m, c, c', list, f.(inTry := true), st);
    var r := WalkList(c, list, f.(inTry := true), st);
    if r.end.Thrown? {
      WalkListRenamed(m, c, c', catchList, f.(dot := r.end.err), r.st);
    }
  }

  /** The steps of a template node. */
  lemma TemplateSteps(c: Context, name: string, pipes: seq<Pipe>, f: Frame, st: State)
    ensures var whole := WalkNode(c, Template(name, pipes), f, st);
            if !CanSpend(100, st) || Lookup(c, name) == None || f.depth >= MAX_EXEC_DEPTH then whole == Stop(st)
            else
              var r := EvalPipes(c, pipes, f, Spend(100, st));
              if !r.end.Ok? then whole == Carry(r)
              else
                var r' := RunTree(c, name, r.end.value, f.inTry, f.depth, r.st);
                whole == Step(if r'.end.Ok? then Ok(Next) else r'.end, r'.st, r.out + r'.out)
  {
    hide EvalPipes, RunTree, Lookup;
  }

  lemma {:induction false} WalkTemplateRenamed(m: Names, c: Context, c': Context, name: string, pipes: seq<Pipe>,
                                               f: Frame, st: State)
    requires RenamedFile(m, c, c') && KnownVars(m, st.vars) && KnownNames(m, PipesNames(pipes))
    ensures Mirrors(m, WalkNode(c, Template(name, pipes), f, st),
                    WalkNode(c', Template(name, RenamePipes(m, pipes)), f, RenameState(m, st)))
    decreases st.ops, 0, Template(name, pipes), 1
  {
    hide Faithful, KnownNames, KnownVars, EvalPipes, RunTree, WalkNode, FindDefine, RenameAll, PipesNames, RenamePipes;
    LookupRenamed(m, c.trees, name);
    TemplateSteps(c, name, pipes, f, st);
    TemplateSteps(c', name, RenamePipes(m, pipes), f, RenameState(m, st));
    if CanSpend(100, st) {
      EvalPipesRenamed(m, c, c', pipes, f, Spend(100, st));
      var r := EvalPipes(c, pipes, f, Spend(100, st));
      if r.end.Ok? {
        RunTreeRenamed(m, c, c', name, r.end.value, f.inTry, f.depth, r.st);
      }
    }
  }

  lemma {:induction false} WalkBranchRenamed(m: Names, c: Context, c': Context, kind: BranchKind, pipe: Pipe,
                                             list: seq<Node>, elseList: seq<Node>, f: Frame, st: State)
    requires RenamedFile(m, c, c') && KnownVars(m, st.vars)
    requires KnownNames(m, PipeNames(pipe) + NodesNames(list) + NodesNames(elseList))
    ensures Mirrors(m, WalkBranch(c, kind, pipe, list, elseList, f, st),
                    WalkBranch(c', kind, RenamePipe(m, pipe), RenameNodes(m, list), RenameNodes(m, elseList),
                               f, RenameState(m, st)))
    decreases st.ops, 0, Branch(kind, pipe, list, elseList), 1
  {
    hide Faithful, KnownNames, RenameNodes, NodesNames, PipeNames, KnownVars, EvalPipe, WalkList, WalkRange, WalkWhile;
    KnownSplit(m, PipeNames(pipe) + NodesNames(list), NodesNames(elseList));
    KnownSplit(m, PipeNames(pipe), NodesNames(list));
    if kind == While {
      if CanSpend(1, st) {
        WalkWhileRenamed(m, c, c', pipe, list, elseList, true, |st.vars|, f, Spend(1, st));
      }
    } else if kind == If || kind == With || CanSpend(1, st) {
      var st1 := if kind == Range then Spend(1, st) else st;
      EvalPipeRenamed(m, c, c', pipe, f, st1);
      var r := EvalPipe(c, pipe, f, st1);
      if r.end.Ok? {
        if kind == Range {
          match c.oracle.keys(r.st.hist, r.end.value)
          case None =>
          case Some(keys) =>
            if keys == [] {
              WalkListRenamed(m, c, c', elseList, f, r.st);
            } else {
              WalkRangeRenamed(m, c, c', pipe.decl, list, r.end.value, keys, |r.st.vars|, f, r.st);
            }
        } else {
          match c.oracle.truth(r.st.hist, r.end.value)
          case None =>
          case Some(truth) =>
            var f' := if truth && kind == With then f.(dot := r.end.value) else f;
            WalkListRenamed(m, c, c', if truth then list else elseList, f', r.st);
        }
      }
    }
  }

  lemma {:induction false} WalkRangeRenamed(m: Names, c: Context, c': Context, decl: seq<string>, list: seq<Node>,
                                            v: Value, keys: seq<Value>, mark: nat, f: Frame, st: State)
    requires RenamedFile(m, c, c') && KnownVars(m, st.vars) && KnownNames(m, NodesNames(list))
    ensures Mirrors(m, WalkRange(c, decl, list, v, keys, mark, f, st),
                    WalkRange(c', RenameDecl(m, decl), RenameNodes(m, list), v, keys, mark, f, RenameState(m, st)))
    decreases st.ops, 0, list, 1
  {
    hide Faithful, KnownNames, RenameNodes, NodesNames, RenameDecl, WalkList;
    if keys != [] && c.oracle.elem(st.hist, v, keys[0]).Some? && CanSpend(1, st) {
      var elem := c.oracle.elem(st.hist, v, keys[0]).value;
      SetTopsRenamed(m, decl, keys[0], elem, st.vars);
      match SetTops(decl, keys[0], elem, st.vars)
      case None =>
      case Some(vars) =>
        var st1 := Spend(1, st).(vars := vars);
        WalkListRenamed(m, c, c', list, f.(dot := elem), st1);
        PopRenamed(m, mark, WalkList(c, list, f.(dot := elem), st1));
        var r := PopTo(mark, WalkList(c, list, f.(dot := elem), st1));
        if GoesOn(r.end) {
          WalkRangeRenamed(m, c, c', decl, list, v, keys[1..], mark, f, r.st);
        }
    }
  }

  lemma {:induction false} WalkWhileRenamed(m: Names, c: Context, c': Context, pipe: Pipe, list: seq<Node>,
                                            elseList: seq<Node>, first: bool, mark: nat, f: Frame, st: State)
    requires RenamedFile(m, c, c') && KnownVars(m, st.vars) && KnownNames(m, PipeNames(pipe))
    requires KnownNames(m, NodesNames(list)) && KnownNames(m, NodesNames(elseList))
    ensures Mirrors(m, WalkWhile(c, pipe, list, elseList, first, mark, f, st),
                    WalkWhile(c', RenamePipe(m, pipe), RenameNodes(m, list), RenameNodes(m, elseList), first, mark,
                              f, RenameState(m, st)))
    decreases st.ops, 0, Branch(While, pipe, list, elseList), 0
  {
    hide Faithful, KnownNames, EvalPipe, WalkList;
    if CanSpend(5, st) {
      EvalPipeRenamed(m, c, c', pipe, f, Spend(5, st));
      var r := EvalPipe(c, pipe, f, Spend(5, st));
      if r.end.Ok? {
        match c.oracle.truth(r.st.hist, r.end.value)
        case None =>
        case Some(false) =>
          if first {
            WalkListRenamed(m, c, c', elseList, f, r.st);
          }
        case Some(true) =>
          WalkListRenamed(m, c, c', list, f, r.st);
          PopRenamed(m, mark, WalkList(c, list, f, r.st));
          var b := PopTo(mark, WalkList(c, list, f, r.st));
          if GoesOn(b.end) {
            WalkWhileRenamed(m, c, c', pipe, list, elseList, false, mark, f, b.st);
          }
      }
    }
  }

  /** The renamed command, run in the same world, ends the same way with the same effects (every
      call, every argument, every message sent) and the same output. */
  lemma RenamingPreservesRuns(m: Names, c: Context, dot: Value, hist: seq<Event>, ops: nat)
    requires Faithful(m) && KnownNames(m, TreesNames(c.trees))
    ensures var r := Run(c, dot, hist, ops);
            var r' := Run(c.(trees := RenameAll(m, c.trees)), dot, hist, ops);
            r'.end == r.end && r'.st.hist == r.st.hist && r'.st.ops == r.st.ops && r'.out == r.out
  {
    var c' := c.(trees := RenameAll(m, c.trees));
    LookupRenamed(m, c.trees, "");
    match FindMain(c.trees)
    case None =>
    case Some(root) =>
      var st := State([Binding("$", dot)], hist, ops);
      assert RenameState(m, st) == st;
      WalkListRenamed(m, c, c', root, Frame(dot, false, 0), st);
  }
}
