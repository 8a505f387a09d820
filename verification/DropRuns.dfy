/** Deleting blank text nodes leaves a run's control flow, variables and effects as they were, and
    where nothing is deleted, its output too: two runs over trees that differ only in blanks go through
    the same steps, whatever they call. */
module DropRuns {
  import opened Basics
  import opened Blank
  import opened Syntax
  import opened Interp
  import opened Whitespace

  /** Two files to compare. In a `lax` pair every tree loses its blanks and nothing is sent; in the
      other, the trees of `shared` are the same in both and run and send only each other. */
  datatype Pair = Pair(lax: bool, shared: set<string>)

  predicate Allowed(k: Pair, calls: set<string>, sends: set<string>) {
    if k.lax then sends == {} else calls <= k.shared && sends <= k.shared && ANY_TREE !in k.shared
  }

  function DropIf(drop: bool, nodes: seq<Node>): seq<Node> {
    if drop then DropAll(nodes) else nodes
  }

  function DropInsideIf(drop: bool, n: Node): Node {
    if drop then DropInside(n) else n
  }

  ghost predicate Comparable(k: Pair, c: Context, c': Context) {
    c'.oracle == c.oracle && SharedTrees(k, c, c')
  }

  ghost predicate SharedTrees(k: Pair, c: Context, c': Context) {
    forall name :: k.lax || name in k.shared ==>
      match Lookup(c, name)
      case None => Lookup(c', name) == None
      case Some(root) => Lookup(c', name) == Some(DropIf(k.lax, root)) && Allowed(k, NodesCalls(root), NodesSends(root))
  }

  /** The runs end alike with the same effects; with `exact`, the same output. */
  ghost predicate Alike<T>(exact: bool, r: Step<T>, r': Step<T>) {
    r'.end == r.end && r'.st == r.st && (exact ==> r'.out == r.out)
  }

  lemma {:induction false} EvalPipeAlike(k: Pair, c: Context, c': Context, p: Pipe, f: Frame, st: State)
    requires Comparable(k, c, c') && Allowed(k, PipeCalls(p), PipeSends(p))
    ensures Alike(!k.lax, EvalPipe(c, p, f, st), EvalPipe(c', p, f, st))
    decreases st.ops, 0, p, 1
  {
    hide SharedTrees, EvalCommands;
    EvalCommandsAlike(k, c, c', p.cmds, None, f, st);
  }

  lemma {:induction false} EvalPipesAlike(k: Pair, c: Context, c': Context, ps: seq<Pipe>, f: Frame, st: State)
    requires Comparable(k, c, c') && Allowed(k, PipesCalls(ps), PipesSends(ps))
    ensures Alike(!k.lax, EvalPipes(c, ps, f, st), EvalPipes(c', ps, f, st))
    decreases st.ops, 0, ps, 0
  {
    hide SharedTrees;
    if ps != [] {
      EvalPipeAlike(k, c, c', ps[0], f, st);
    }
  }

  lemma {:induction false} EvalCommandsAlike(k: Pair, c: Context, c': Context, cmds: seq<Command>,
                                             final: Option<Value>, f: Frame, st: State)
    requires Comparable(k, c, c') && Allowed(k, CommandsCalls(cmds), CommandsSends(cmds))
    ensures Alike(!k.lax, EvalCommands(c, cmds, final, f, st), EvalCommands(c', cmds, final, f, st))
    decreases st.ops, 0, cmds, 0
  {
    hide SharedTrees, EvalCommand;
    if cmds != [] {
      EvalCommandAlike(k, c, c', cmds[0], final, f, st);
      var r := EvalCommand(c, cmds[0], final, f, st);
      if r.end.Ok? {
        EvalCommandsAlike(k, c, c', cmds[1..], Some(r.end.value), f, r.st);
      }
    }
  }

  lemma {:induction false} EvalCommandAlike(k: Pair, c: Context, c': Context, cmd: Command, final: Option<Value>,
                                            f: Frame, st: State)
    requires Comparable(k, c, c')
    requires Allowed(k, ExecCallees(cmd) + ArgsCalls(cmd.args), SentCallees(cmd) + ArgsSends(cmd.args))
    ensures Alike(!k.lax, EvalCommand(c, cmd, final, f, st), EvalCommand(c', cmd, final, f, st))
    decreases st.ops, 0, cmd, 0
  {
    hide SharedTrees, Resolve, Invoke;
    if cmd.args != [] && !cmd.args[0].Nil? {
      ResolveAlike(k, c, c', cmd.args[0], f, st);
      var r := Resolve(c, cmd.args[0], f, st);
      if r.end.Ok? && r.end.value.Callable? && CanSpend(10, r.st) {
        var args := cmd.args[1..];
        assert forall i: nat :: LiteralAt(args, i) == LiteralAt(cmd.args, i + 1);
        InvokeAlike(k, c, c', r.end.value.callee, args, final, f, Spend(10, r.st));
      }
    }
  }

  lemma {:induction false} EvalArgAlike(k: Pair, c: Context, c': Context, a: Arg, f: Frame, st: State)
    requires Comparable(k, c, c') && Allowed(k, ArgCalls(a), ArgSends(a))
    ensures Alike(!k.lax, EvalArg(c, a, f, st), EvalArg(c', a, f, st))
    ensures a.Str? ==> EvalArg(c, a, f, st).end == Ok(Text(a.text))
    decreases st.ops, 0, a, 1
  {
    hide SharedTrees, Invoke;
    ResolveAlike(k, c, c', a, f, st);
    var r := Resolve(c, a, f, st);
    if r.end.Ok? && r.end.value.Callable? && CanSpend(10, r.st) {
      InvokeBareAlike(c, c', r.end.value.callee, f, Spend(10, r.st));
    }
  }

  /** A call without arguments runs no tree. */
  lemma InvokeBareAlike(c: Context, c': Context, callee: Callee, f: Frame, st: State)
    requires c'.oracle == c.oracle
    ensures Alike(true, Invoke(c, callee, [], None, f, st), Invoke(c', callee, [], None, f, st))
  {
    assert EvalArgs(c, callee, 0, [], f, st) == EvalArgs(c', callee, 0, [], f, st) == Done([], st);
    assert CallWith(c, callee, [], f, st) == CallWith(c', callee, [], f, st);
  }

  /** What a callee may run or send: nothing unless it is execTemplate or a sender. */
  predicate CalleeAllowed(k: Pair, a: Arg, t: Target) {
    t.Callable? && t.callee.Func? ==> a == Ident(t.callee.name)
  }

  lemma {:induction false} ResolveAlike(k: Pair, c: Context, c': Context, a: Arg, f: Frame, st: State)
    requires Comparable(k, c, c') && Allowed(k, ArgCalls(a), ArgSends(a))
    ensures Alike(!k.lax, Resolve(c, a, f, st), Resolve(c', a, f, st))
    ensures Resolve(c, a, f, st).end.Ok? ==> CalleeAllowed(k, a, Resolve(c, a, f, st).end.value)
    decreases st.ops, 0, a, 0
  {
    hide SharedTrees;
    match a
    case Field(path) => EvalPathAlike(c, c', f.dot, path, f, st);
    case Var(name, path) =>
      if VarValue(st.vars, name).Some? {
        EvalPathAlike(c, c', VarValue(st.vars, name).value, path, f, st);
      }
    case Paren(pipe) => EvalPipeAlike(k, c, c', pipe, f, st);
    case Chain(node, path) =>
      if path != [] && !node.Nil? {
        EvalArgAlike(k, c, c', node, f, st);
        var r := EvalArg(c, node, f, st);
        if r.end.Ok? {
          EvalPathAlike(c, c', r.end.value, path, f, r.st);
        }
      }
    case _ =>
  }

  lemma {:induction false} EvalPathAlike(c: Context, c': Context, recv: Value, path: seq<string>, f: Frame, st: State)
    requires c'.oracle == c.oracle
    ensures EvalPath(c, recv, path, f, st) == EvalPath(c', recv, path, f, st)
    ensures var r := EvalPath(c, recv, path, f, st);
            r.end.Ok? && r.end.value.Callable? ==> r.end.value.callee.Method?
    decreases path
  {
    if |path| > 1 {
      if recv.NoValue? {
        EvalPathAlike(c, c', NoValue, path[1..], f, st);
      } else {
        match c.oracle.member(st.hist, recv, path[0])
        case NoMember =>
        case IsField(v) => EvalPathAlike(c, c', v, path[1..], f, st);
        case IsMethod =>
          if CanSpend(10, st) && c.oracle.arity(Method(recv, path[0]), 0) {
            var r := CallOracle(c, Method(recv, path[0]), [], f.inTry, Spend(10, st));
            if r.end.Ok? {
              EvalPathAlike(c, c', r.end.value, path[1..], f, r.st);
            }
          }
      }
    }
  }

  /** The values the literals among some arguments have. */
  predicate Literals(args: seq<Arg>, values: seq<Value>) {
    |args| <= |values| && forall j :: 0 <= j < |args| && args[j].Str? ==> values[j] == Text(args[j].text)
  }

  lemma {:induction false} EvalArgsAlike(k: Pair, c: Context, c': Context, callee: Callee, i: nat, args: seq<Arg>,
                                         f: Frame, st: State)
    requires Comparable(k, c, c') && Allowed(k, ArgsCalls(args), ArgsSends(args))
    ensures Alike(!k.lax, EvalArgs(c, callee, i, args, f, st), EvalArgs(c', callee, i, args, f, st))
    ensures var r := EvalArgs(c, callee, i, args, f, st);
            r.end.Ok? ==> Literals(args, r.end.value)
    decreases st.ops, 0, args, 0
  {
    hide SharedTrees, EvalArg;
    if args != [] {
      EvalArgAlike(k, c, c', args[0], f, st);
      var r := EvalArg(c, args[0], f, st);
      if r.end.Ok? && c.oracle.accepts(callee, i, r.end.value) {
        EvalArgsAlike(k, c, c', callee, i + 1, args[1..], f, r.st);
      }
    }
  }

  // ---------------------------------------------------------------- calls

  function CalleeCalls(callee: Callee, args: seq<Arg>): set<string> {
    if callee == Func(EXEC_TEMPLATE) then {LiteralAt(args, 0)} else {}
  }

  function CalleeSends(callee: Callee, args: seq<Arg>): set<string> {
    if callee.Func? && IsSender(callee.name) then {LiteralAt(args, SenderIndex(callee.name))} else {}
  }

  lemma {:induction false} InvokeAlike(k: Pair, c: Context, c': Context, callee: Callee, args: seq<Arg>,
                                       final: Option<Value>, f: Frame, st: State)
    requires Comparable(k, c, c')
    requires Allowed(k, CalleeCalls(callee, args) + ArgsCalls(args), CalleeSends(callee, args) + ArgsSends(args))
    ensures Alike(!k.lax, Invoke(c, callee, args, final, f, st), Invoke(c', callee, args, final, f, st))
    decreases st.ops, 3
  {
    hide SharedTrees, EvalArgs, CallWith;
    EvalArgsAlike(k, c, c', callee, 0, args, f, st);
    var r := EvalArgs(c, callee, 0, args, f, st);
    if r.end.Ok? {
      var values := if final.Some? then r.end.value + [final.value] else r.end.value;
      CallWithAlike(k, c, c', callee, args, values, f, r.st);
    }
  }

  lemma {:induction false} CallWithAlike(k: Pair, c: Context, c': Context, callee: Callee, args: seq<Arg>,
                                         values: seq<Value>, f: Frame, st: State)
    requires Comparable(k, c, c') && Literals(args, values)
    requires Allowed(k, CalleeCalls(callee, args), CalleeSends(callee, args))
    ensures Alike(!k.lax, CallWith(c, callee, values, f, st), CallWith(c', callee, values, f, st))
    decreases st.ops, 2
  {
    hide SharedTrees, ExecTemplate, SendTemplate;
    if callee == Func(EXEC_TEMPLATE) {
      assert LiteralAt(args, 0) in CalleeCalls(callee, args);
      ExecTemplateAlike(k, c, c', values, f, st);
    } else if callee.Func? && IsSender(callee.name) {
      assert LiteralAt(args, SenderIndex(callee.name)) in CalleeSends(callee, args);
      SendTemplateAlike(k, c, c', callee.name, values, f, st);
    }
  }

  lemma {:induction false} ExecTemplateAlike(k: Pair, c: Context, c': Context, args: seq<Value>, f: Frame, st: State)
    requires Comparable(k, c, c')
    requires k.lax || (args != [] && args[0].Text? && args[0].s in k.shared)
    ensures Alike(!k.lax, ExecTemplate(c, args, f, st), ExecTemplate(c', args, f, st))
    decreases st.ops, 1, 1
  {
    hide SharedTrees, RunTree;
    if CanSpend(100, st) && 0 < |args| <= 2 && args[0].Text? {
      var dot := if |args| > 1 then args[1] else NoValue;
      RunTreeAlike(k, c, c', args[0].s, dot, f.inTry, f.depth, Spend(100, st));
    }
  }

  lemma {:induction false} SendTemplateAlike(k: Pair, c: Context, c': Context, fn: string, args: seq<Value>,
                                             f: Frame, st: State)
    requires Comparable(k, c, c') && !k.lax
    requires var i := SenderIndex(fn); i < |args| && args[i].Text? && args[i].s in k.shared
    ensures Alike(true, SendTemplate(c, fn, args, f, st), SendTemplate(c', fn, args, f, st))
    decreases st.ops, 1, 1
  {
    hide SharedTrees, RunTree;
    var i := SenderIndex(fn);
    var dot := if i + 1 < |args| then args[i + 1] else NoValue;
    RunTreeAlike(k, c, c', args[i].s, dot, false, 0, st);
  }

  lemma {:induction false} RunTreeAlike(k: Pair, c: Context, c': Context, name: string, dot: Value, inTry: bool,
                                        depth: nat, st: State)
    requires Comparable(k, c, c') && (k.lax || name in k.shared)
    ensures Alike(!k.lax, RunTree(c, name, dot, inTry, depth, st), RunTree(c', name, dot, inTry, depth, st))
    decreases st.ops, 1, 0
  {
    hide WalkList;
    if Lookup(c, name).Some? && depth < MAX_EXEC_DEPTH {
      var inner := st.(vars := [Binding("$", dot)]);
      WalkListAlike(k, k.lax, c, c', Lookup(c, name).value, Frame(dot, inTry, depth + 1), inner);
    }
  }

  // ---------------------------------------------------------------- walking

  lemma {:induction false} WalkListAlike(k: Pair, drop: bool, c: Context, c': Context, nodes: seq<Node>, f: Frame,
                                         st: State)
    requires Comparable(k, c, c') && Allowed(k, NodesCalls(nodes), NodesSends(nodes))
    ensures Alike(!k.lax && !drop, WalkList(c, nodes, f, st), WalkList(c', DropIf(drop, nodes), f, st))
    decreases st.ops, 0, nodes, 0
  {
    hide SharedTrees;
    if nodes != [] {
      WalkNodeAlike(k, drop, c, c', nodes[0], f, st);
      var r := WalkNode(c, nodes[0], f, st);
      if r.end == Ok(Next) {
        WalkListAlike(k, drop, c, c', nodes[1..], f, r.st);
      }
      if drop && !(nodes[0].TextNode? && IsBlankText(nodes[0].text)) {
        assert DropAll(nodes)[1..] == DropAll(nodes[1..]);
      }
    }
  }

  lemma {:induction false} WalkNodeAlike(k: Pair, drop: bool, c: Context, c': Context, n: Node, f: Frame, st: State)
    requires Comparable(k, c, c') && Allowed(k, NodeCalls(n), NodeSends(n))
    ensures Alike(!k.lax && !drop, WalkNode(c, n, f, st), WalkNode(c', DropInsideIf(drop, n), f, st))
    decreases st.ops, 0, n, 2
  {
    hide SharedTrees;
    match n
    case Action(pipe) => EvalPipeAlike(k, c, c', pipe, f, st);
    case Branch(kind, pipe, list, elseList) => WalkBranchAlike(k, drop, c, c', kind, pipe, list, elseList, f, st);
    case Try(list, catchList) => WalkTryAlike(k, drop, c, c', list, catchList, f, st);
    case Return(pipes) => EvalPipesAlike(k, c, c', pipes, f, st);
    case Template(name, pipes) => WalkTemplateAlike(k, c, c', name, pipes, f, st);
    case _ =>
  }

  lemma {:induction false} WalkTryAlike(k: Pair, drop: bool, c: Context, c': Context, list: seq<Node>,
                                        catchList: seq<Node>, f: Frame, st: State)
    requires Comparable(k, c, c')
    requires Allowed(k, NodesCalls(list) + NodesCalls(catchList), NodesSends(list) + NodesSends(catchList))
    ensures Alike(!k.lax && !drop, WalkNode(c, Try(list, catchList), f, st),
                  WalkNode(c', Try(DropIf(drop, list), DropIf(drop, catchList)), f, st))
    decreases st.ops, 0, Try(list, catchList), 1
  {
    hide SharedTrees, WalkList;
    WalkListAlike(k, drop, c, c', list, f.(inTry := true), st);
    var r := WalkList(c, list, f.(inTry := true), st);
    if r.end.Thrown? {
      WalkListAlike(k, drop, c, c', catchList, f.(dot := r.end.err), r.st);
    }
  }

  lemma {:induction false} WalkTemplateAlike(k: Pair, c: Context, c': Context, name: string, pipes: seq<Pipe>,
                                             f: Frame, st: State)
    requires Comparable(k, c, c') && Allowed(k, {name} + PipesCalls(pipes), PipesSends(pipes))
    ensures Alike(!k.lax, WalkNode(c, Template(name, pipes), f, st), WalkNode(c', Template(name, pipes), f, st))
    decreases st.ops, 0, Template(name, pipes), 1
  {
    hide EvalPipes, RunTree;
    assert k.lax || name in k.shared;
    if CanSpend(100, st) {
      EvalPipesAlike(k, c, c', pipes, f, Spend(100, st));
      var r := EvalPipes(c, pipes, f, Spend(100, st));
      if r.end.Ok? {
        RunTreeAlike(k, c, c', name, r.end.value, f.inTry, f.depth, r.st);
      }
    }
  }

  lemma {:induction false} WalkBranchAlike(k: Pair, drop: bool, c: Context, c': Context, kind: BranchKind,
                                           pipe: Pipe, list: seq<Node>, elseList: seq<Node>, f: Frame, st: State)
    requires Comparable(k, c, c')
    requires Allowed(k, PipeCalls(pipe) + NodesCalls(list) + NodesCalls(elseList),
                     PipeSends(pipe) + NodesSends(list) + NodesSends(elseList))
    ensures Alike(!k.lax && !drop, WalkBranch(c, kind, pipe, list, elseList, f, st),
                  WalkBranch(c', kind, pipe, DropIf(drop, list), DropIf(drop, elseList), f, st))
    decreases st.ops, 0, Branch(kind, pipe, list, elseList), 1
  {
    hide SharedTrees, EvalPipe, WalkList, WalkRange, WalkWhile;
    if kind == While {
      if CanSpend(1, st) {
        WalkWhileAlike(k, drop, c, c', pipe, list, elseList, true, |st.vars|, f, Spend(1, st));
      }
    } else if kind != Range || CanSpend(1, st) {
      var st1 := if kind == Range then Spend(1, st) else st;
      EvalPipeAlike(k, c, c', pipe, f, st1);
      var r := EvalPipe(c, pipe, f, st1);
      if r.end.Ok? {
        if kind == Range {
          var keys := c.oracle.keys(r.st.hist, r.end.value);
          if keys.Some? {
            if keys.value == [] {
              WalkListAlike(k, drop, c, c', elseList, f, r.st);
            } else {
              WalkRangeAlike(k, drop, c, c', pipe.decl, list, r.end.value, keys.value, |r.st.vars|, f, r.st);
            }
          }
        } else {
          var truth := c.oracle.truth(r.st.hist, r.end.value);
          if truth.Some? {
            var f' := if truth.value && kind == With then f.(dot := r.end.value) else f;
            WalkListAlike(k, drop, c, c', if truth.value then list else elseList, f', r.st);
          }
        }
      }
    }
  }

  lemma {:induction false} WalkRangeAlike(k: Pair, drop: bool, c: Context, c': Context, decl: seq<string>,
                                          list: seq<Node>, v: Value, keys: seq<Value>, mark: nat, f: Frame, st: State)
    requires Comparable(k, c, c') && Allowed(k, NodesCalls(list), NodesSends(list))
    ensures Alike(!k.lax && !drop, WalkRange(c, decl, list, v, keys, mark, f, st),
                  WalkRange(c', decl, DropIf(drop, list), v, keys, mark, f, st))
    decreases st.ops, 0, list, 1
  {
    hide SharedTrees, WalkList;
    if keys != [] && c.oracle.elem(st.hist, v, keys[0]).Some? && CanSpend(1, st) {
      var elem := c.oracle.elem(st.hist, v, keys[0]).value;
      var tops := SetTops(decl, keys[0], elem, st.vars);
      if tops.Some? {
        var st1 := Spend(1, st).(vars := tops.value);
        WalkListAlike(k, drop, c, c', list, f.(dot := elem), st1);
        var r := PopTo(mark, WalkList(c, list, f.(dot := elem), st1));
        if GoesOn(r.end) {
          WalkRangeAlike(k, drop, c, c', decl, list, v, keys[1..], mark, f, r.st);
        }
      }
    }
  }

  lemma {:induction false} WalkWhileAlike(k: Pair, drop: bool, c: Context, c': Context, pipe: Pipe, list: seq<Node>,
                                          elseList: seq<Node>, first: bool, mark: nat, f: Frame, st: State)
    requires Comparable(k, c, c')
    requires Allowed(k, PipeCalls(pipe) + NodesCalls(list) + NodesCalls(elseList),
                     PipeSends(pipe) + NodesSends(list) + NodesSends(elseList))
    ensures Alike(!k.lax && !drop, WalkWhile(c, pipe, list, elseList, first, mark, f, st),
                  WalkWhile(c', pipe, DropIf(drop, list), DropIf(drop, elseList), first, mark, f, st))
    decreases st.ops, 0, Branch(While, pipe, list, elseList), 0
  {
    hide SharedTrees, EvalPipe, WalkList;
    if CanSpend(5, st) {
      EvalPipeAlike(k, c, c', pipe, f, Spend(5, st));
      var r := EvalPipe(c, pipe, f, Spend(5, st));
      if r.end.Ok? {
        var truth := c.oracle.truth(r.st.hist, r.end.value);
        if truth == Some(false) && first {
          WalkListAlike(k, drop, c, c', elseList, f, r.st);
        } else if truth == Some(true) {
          WalkListAlike(k, drop, c, c', list, f, r.st);
          var b := PopTo(mark, WalkList(c, list, f, r.st));
          if GoesOn(b.end) {
            WalkWhileAlike(k, drop, c, c', pipe, list, elseList, false, mark, f, b.st);
          }
        }
      }
    }
  }
}
