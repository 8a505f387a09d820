/** The nodes and pipelines of a tree as plain sets (whitespace.go's eachNode without its order), and what the
    pass gathers from them: template names, sent names and bindings. */
module Everywhere {
  import opened Syntax
  import opened Whitespace

  // ---------------------------------------------------------------- all nodes, all pipelines

  /** A node and every node inside it. */
  function Inside(n: Node): set<Node> {
    {n} + match n
          case Branch(_, _, list, elseList) => Nodes(list) + Nodes(elseList)
          case Try(list, catchList) => Nodes(list) + Nodes(catchList)
          case _ => {}
  }

  function Nodes(nodes: seq<Node>): set<Node> {
    if nodes == [] then {} else Inside(nodes[0]) + Nodes(nodes[1..])
  }

  /** The pipelines of an operand, through parentheses and field chains. */
  function ArgPipes(a: Arg): set<Pipe> {
    match a
    case Paren(pipe) => Pipes(pipe)
    case Chain(node, _) => ArgPipes(node)
    case _ => {}
  }

  function ArgsPipes(args: seq<Arg>): set<Pipe> {
    if args == [] then {} else ArgPipes(args[0]) + ArgsPipes(args[1..])
  }

  function CommandsPipes(cmds: seq<Command>): set<Pipe> {
    if cmds == [] then {} else ArgsPipes(cmds[0].args) + CommandsPipes(cmds[1..])
  }

  /** A pipeline and every pipeline inside it. */
  function Pipes(p: Pipe): set<Pipe> {
    {p} + CommandsPipes(p.cmds)
  }

  function PipesIn(ps: seq<Pipe>): set<Pipe> {
    set q, p | q in ps && p in Pipes(q) :: p
  }

  /** The pipelines a node has at its own place. */
  function Own(n: Node): seq<Pipe> {
    match n
    case Action(pipe) => [pipe]
    case Branch(_, pipe, _, _) => [pipe]
    case Return(pipes) => pipes
    case Template(_, pipes) => pipes
    case _ => []
  }

  function PipesOf(nodes: set<Node>): set<Pipe> {
    set n, p | n in nodes && p in PipesIn(Own(n)) :: p
  }

  // ---------------------------------------------------------------- what they name and bind

  /** The literal text at an argument, or * for a computed one. */
  function NameAt(cmd: Command, i: nat): string {
    if i < |cmd.args| && cmd.args[i].Str? then cmd.args[i].text else "*"
  }

  function NamesAt(cmds: seq<Command>, f: string, i: nat): set<string> {
    set c | c in cmds && c.args != [] && c.args[0] == Ident(f) :: NameAt(c, i)
  }

  /** The trees that execTemplate calls run. */
  function Executed(pipes: set<Pipe>): set<string> {
    set p, x | p in pipes && x in NamesAt(p.cmds, "execTemplate", 1) :: x
  }

  /** The trees that are sent as messages. */
  function Sent(pipes: set<Pipe>): set<string> {
    set p, x | p in pipes && x in NamesAt(p.cmds, "sendTemplate", 2) + NamesAt(p.cmds, "sendTemplateDM", 1) :: x
  }

  function Templates(nodes: set<Node>): set<string> {
    set n | n in nodes && n.Template? :: n.name
  }

  /** Every tree a list may run, and every tree it may send. */
  function Called(nodes: seq<Node>): set<string> {
    Executed(PipesOf(Nodes(nodes))) + Templates(Nodes(nodes))
  }

  function SentBy(nodes: seq<Node>): set<string> {
    Sent(PipesOf(Nodes(nodes)))
  }

  /** Its last command builds a container, through parentheses. */
  predicate Builds(p: Pipe) {
    p.cmds != [] && p.cmds[|p.cmds| - 1].args != [] &&
    var args := p.cmds[|p.cmds| - 1].args;
    || args[0] in {Ident("dict"), Ident("sdict"), Ident("cslice")}
    || (|args| == 1 && args[0].Paren? && Builds(args[0].pipe))
  }

  function Bound(pipes: set<Pipe>): set<Whitespace.Bound> {
    set p, x | p in pipes && x in p.decl :: Whitespace.Bound(x, Builds(p))
  }

  /** A range binds elements. */
  function Elements(nodes: set<Node>): set<Whitespace.Bound> {
    set n, x | n in nodes && n.Branch? && n.kind == Range && x in n.pipe.decl :: Whitespace.Bound(x, false)
  }

  function Bindings(nodes: seq<Node>): set<Whitespace.Bound> {
    Bound(PipesOf(Nodes(nodes))) + Elements(Nodes(nodes))
  }

  function FileBindings(trees: seq<Tree>): set<Whitespace.Bound> {
    set i, b | 0 <= i < |trees| && b in Bindings(trees[i].root) :: b
  }

  function Elems(bounds: seq<Whitespace.Bound>): set<Whitespace.Bound> {
    set b | b in bounds
  }

  // ---------------------------------------------------------------- unions

  lemma PipesOfJoin(a: set<Node>, b: set<Node>)
    ensures PipesOf(a + b) == PipesOf(a) + PipesOf(b)
    ensures Templates(a + b) == Templates(a) + Templates(b)
    ensures Elements(a + b) == Elements(a) + Elements(b)
  {
  }

  lemma PipesOfOne(n: Node)
    ensures PipesOf({n}) == PipesIn(Own(n))
  {
  }

  lemma PipesInIs(ps: seq<Pipe>)
    ensures PipesIn(ps) == if ps == [] then {} else Pipes(ps[0]) + PipesIn(ps[1..])
  {
    if ps != [] {
      assert ps == [ps[0]] + ps[1..];
    }
  }

  lemma GatheredJoin(a: set<Pipe>, b: set<Pipe>)
    ensures Executed(a + b) == Executed(a) + Executed(b)
    ensures Sent(a + b) == Sent(a) + Sent(b)
    ensures Bound(a + b) == Bound(a) + Bound(b)
  {
  }

  lemma GatheredOne(p: Pipe)
    ensures Executed({p}) == NamesAt(p.cmds, "execTemplate", 1)
    ensures Sent({p}) == NamesAt(p.cmds, "sendTemplate", 2) + NamesAt(p.cmds, "sendTemplateDM", 1)
    ensures Bound({p}) == set x | x in p.decl :: Whitespace.Bound(x, Builds(p))
  {
  }

  lemma ElemsJoin(a: seq<Whitespace.Bound>, b: seq<Whitespace.Bound>)
    ensures Elems(a + b) == Elems(a) + Elems(b)
  {
  }

  lemma NamesAtIs(cmds: seq<Command>, f: string, i: nat)
    ensures NamesAt(cmds, f, i)
         == if cmds == [] then {}
            else (if cmds[0].args != [] && cmds[0].args[0] == Ident(f) then {NameAt(cmds[0], i)} else {})
                 + NamesAt(cmds[1..], f, i)
  {
    if cmds != [] {
      assert cmds == [cmds[0]] + cmds[1..];
    }
  }

  // ---------------------------------------------------------------- the pass gathers these

  lemma {:induction false} BuildsIff(p: Pipe)
    ensures IsConstructorPipe(p) == Builds(p)
    decreases p
  {
    if p.cmds != [] && p.cmds[|p.cmds| - 1].args != [] {
      var last := p.cmds[|p.cmds| - 1];
      if last.args[0].Paren? {
        assert last in p.cmds && last.args[0] in last.args;
        BuildsIff(last.args[0].pipe);
      }
    }
  }

  lemma {:induction false} DeclBounds(decl: seq<string>, constructed: bool)
    ensures Elems(Bounds(decl, constructed)) == set x | x in decl :: Whitespace.Bound(x, constructed)
  {
    if decl != [] {
      DeclBounds(decl[1..], constructed);
      ElemsJoin([Whitespace.Bound(decl[0], constructed)], Bounds(decl[1..], constructed));
      assert decl == [decl[0]] + decl[1..];
    }
  }

  lemma {:induction false} ArgGathers(a: Arg)
    ensures ArgCalls(a) == Executed(ArgPipes(a)) && ArgSends(a) == Sent(ArgPipes(a))
    ensures Elems(ArgBounds(a)) == Bound(ArgPipes(a))
    decreases a, 0
  {
    hide Executed, Sent, Bound, Pipes, PipeCalls, PipeSends, PipeBounds;
    match a
    case Paren(pipe) => PipeGathers(pipe);
    case Chain(node, _) => ArgGathers(node);
    case _ => NothingGathered();
  }

  lemma NothingGathered()
    ensures Executed({}) == {} && Sent({}) == {} && Bound({}) == {}
  {
  }

  lemma {:induction false} ArgsGather(args: seq<Arg>)
    ensures ArgsCalls(args) == Executed(ArgsPipes(args)) && ArgsSends(args) == Sent(ArgsPipes(args))
    ensures Elems(ArgsBounds(args)) == Bound(ArgsPipes(args))
    decreases args, 0
  {
    hide Executed, Sent, Bound, ArgPipes, ArgCalls, ArgSends, ArgBounds;
    if args == [] {
      NothingGathered();
    } else {
      ArgGathers(args[0]);
      ArgsGather(args[1..]);
      GatheredJoin(ArgPipes(args[0]), ArgsPipes(args[1..]));
      ElemsJoin(ArgBounds(args[0]), ArgsBounds(args[1..]));
    }
  }

  lemma {:induction false} CommandsGather(cmds: seq<Command>)
    ensures CommandsCalls(cmds) == NamesAt(cmds, "execTemplate", 1) + Executed(CommandsPipes(cmds))
    ensures CommandsSends(cmds)
         == NamesAt(cmds, "sendTemplate", 2) + NamesAt(cmds, "sendTemplateDM", 1) + Sent(CommandsPipes(cmds))
    ensures Elems(CommandsBounds(cmds)) == Bound(CommandsPipes(cmds))
    decreases cmds, 0
  {
    hide Executed, Sent, Bound, ArgsPipes, ArgsCalls, ArgsSends, ArgsBounds, NamesAt, NameAt;
    NamesAtIs(cmds, "execTemplate", 1);
    NamesAtIs(cmds, "sendTemplate", 2);
    NamesAtIs(cmds, "sendTemplateDM", 1);
    if cmds == [] {
      NothingGathered();
    } else {
      CommandGathers(cmds[0]);
      ArgsGather(cmds[0].args);
      CommandsGather(cmds[1..]);
      GatheredJoin(ArgsPipes(cmds[0].args), CommandsPipes(cmds[1..]));
      ElemsJoin(ArgsBounds(cmds[0].args), CommandsBounds(cmds[1..]));
    }
  }

  lemma CommandGathers(cmd: Command)
    ensures ExecCallees(cmd) == if cmd.args != [] && cmd.args[0] == Ident("execTemplate") then {NameAt(cmd, 1)} else {}
    ensures SentCallees(cmd)
         == (if cmd.args != [] && cmd.args[0] == Ident("sendTemplate") then {NameAt(cmd, 2)} else {})
          + (if cmd.args != [] && cmd.args[0] == Ident("sendTemplateDM") then {NameAt(cmd, 1)} else {})
  {
  }

  lemma {:induction false} PipeGathers(p: Pipe)
    ensures PipeCalls(p) == Executed(Pipes(p)) && PipeSends(p) == Sent(Pipes(p))
    ensures Elems(PipeBounds(p)) == Bound(Pipes(p))
    decreases p, 1
  {
    hide Executed, Sent, Bound, CommandsPipes, CommandsCalls, CommandsSends, CommandsBounds, NamesAt, Builds;
    CommandsGather(p.cmds);
    BuildsIff(p);
    DeclBounds(p.decl, IsConstructorPipe(p));
    GatheredOne(p);
    GatheredJoin({p}, CommandsPipes(p.cmds));
    ElemsJoin(Bounds(p.decl, IsConstructorPipe(p)), CommandsBounds(p.cmds));
  }

  lemma {:induction false} PipesGather(ps: seq<Pipe>)
    ensures PipesCalls(ps) == Executed(PipesIn(ps)) && PipesSends(ps) == Sent(PipesIn(ps))
    ensures Elems(PipesBounds(ps)) == Bound(PipesIn(ps))
  {
    hide Executed, Sent, Bound, Pipes, PipesIn, PipeCalls, PipeSends, PipeBounds;
    PipesInIs(ps);
    if ps == [] {
      NothingGathered();
    } else {
      PipeGathers(ps[0]);
      PipesGather(ps[1..]);
      GatheredJoin(Pipes(ps[0]), PipesIn(ps[1..]));
      ElemsJoin(PipeBounds(ps[0]), PipesBounds(ps[1..]));
    }
  }

  /** What a set of nodes calls, sends and binds. */
  predicate Gathers(nodes: set<Node>, calls: set<string>, sends: set<string>, bounds: set<Whitespace.Bound>) {
    && calls == Executed(PipesOf(nodes)) + Templates(nodes)
    && sends == Sent(PipesOf(nodes))
    && bounds == Bound(PipesOf(nodes)) + Elements(nodes)
  }

  lemma GathersJoin(a: set<Node>, b: set<Node>, ca: set<string>, cb: set<string>, sa: set<string>, sb: set<string>,
                    ba: set<Whitespace.Bound>, bb: set<Whitespace.Bound>)
    requires Gathers(a, ca, sa, ba) && Gathers(b, cb, sb, bb)
    ensures Gathers(a + b, ca + cb, sa + sb, ba + bb)
  {
    hide Executed, Sent, Bound, PipesOf, Templates, Elements;
    PipesOfJoin(a, b);
    GatheredJoin(PipesOf(a), PipesOf(b));
  }

  lemma NoneGather()
    ensures Gathers({}, {}, {}, {})
  {
  }

  function Named(n: Node): set<string> {
    if n.Template? then {n.name} else {}
  }

  /** A node at its own place. */
  lemma NodeGathers(n: Node)
    ensures Gathers({n}, PipesCalls(Own(n)) + Named(n), PipesSends(Own(n)),
                    Elems(PipesBounds(Own(n)))
                    + (if n.Branch? && n.kind == Range then Elems(Bounds(n.pipe.decl, false)) else {}))
  {
    hide Executed, Sent, Bound, PipesOf, PipesIn, PipesCalls, PipesSends, PipesBounds;
    PipesOfOne(n);
    PipesGather(Own(n));
    if n.Branch? && n.kind == Range {
      DeclBounds(n.pipe.decl, false);
    }
  }

  lemma OnePipe(p: Pipe)
    ensures PipesCalls([p]) == PipeCalls(p) && PipesSends([p]) == PipeSends(p) && PipesBounds([p]) == PipeBounds(p)
  {
    assert [p][1..] == [];
    assert PipeBounds(p) + [] == PipeBounds(p);
  }

  lemma {:induction false} InsideGathers(n: Node)
    ensures Gathers(Inside(n), NodeCalls(n), NodeSends(n), Elems(NodeBounds(n)))
    decreases n, 1
  {
    hide Gathers, NodeCalls, NodeSends, NodeBounds, Nodes, NodesCalls, NodesSends, NodesBounds, Elems;
    match n
    case Branch(_, _, list, elseList) =>
      NodesGather(list);
      NodesGather(elseList);
      BranchGathers(n);
    case Try(list, catchList) =>
      NodesGather(list);
      NodesGather(catchList);
      TryGathers(n);
    case _ => LeafGathers(n);
  }

  lemma LeafGathers(n: Node)
    requires !n.Branch? && !n.Try?
    ensures Gathers(Inside(n), NodeCalls(n), NodeSends(n), Elems(NodeBounds(n)))
  {
    hide Gathers, PipesCalls, PipesSends, PipesBounds, PipeCalls, PipeSends, PipeBounds, Elems;
    NodeGathers(n);
    ElemsNone();
    if n.Action? {
      OnePipe(n.pipe);
    }
    assert {n} + {} == {n};
    assert NodeCalls(n) == PipesCalls(Own(n)) + Named(n);
    assert Elems(NodeBounds(n)) == Elems(PipesBounds(Own(n))) + {};
  }

  lemma ElemsNone()
    ensures Elems([]) == {} && PipesBounds([]) == [] && PipesCalls([]) == {} && PipesSends([]) == {}
  {
  }

  lemma BranchGathers(n: Node)
    requires n.Branch?
    requires Gathers(Nodes(n.list), NodesCalls(n.list), NodesSends(n.list), Elems(NodesBounds(n.list)))
    requires Gathers(Nodes(n.elseList), NodesCalls(n.elseList), NodesSends(n.elseList), Elems(NodesBounds(n.elseList)))
    ensures Gathers(Inside(n), NodeCalls(n), NodeSends(n), Elems(NodeBounds(n)))
  {
    hide Gathers, PipesCalls, PipesSends, PipesBounds, PipeCalls, PipeSends, PipeBounds, Bounds, Nodes, NodesCalls,
      NodesSends,
      NodesBounds, Elems;
    var elements := if n.kind == Range then Bounds(n.pipe.decl, false) else [];
    NodeGathers(n);
    ElemsNone();
    OnePipe(n.pipe);
    assert PipesCalls(Own(n)) + {} == PipeCalls(n.pipe);
    GathersJoin(Nodes(n.list), Nodes(n.elseList), NodesCalls(n.list), NodesCalls(n.elseList), NodesSends(n.list),
                NodesSends(n.elseList), Elems(NodesBounds(n.list)), Elems(NodesBounds(n.elseList)));
    GathersJoin({n}, Nodes(n.list) + Nodes(n.elseList), PipeCalls(n.pipe), NodesCalls(n.list) + NodesCalls(n.elseList),
                PipeSends(n.pipe), NodesSends(n.list) + NodesSends(n.elseList),
                Elems(PipeBounds(n.pipe)) + Elems(elements),
                Elems(NodesBounds(n.list)) + Elems(NodesBounds(n.elseList)));
    ElemsJoin(elements, PipeBounds(n.pipe));
    ElemsJoin(elements + PipeBounds(n.pipe), NodesBounds(n.list));
    ElemsJoin(elements + PipeBounds(n.pipe) + NodesBounds(n.list), NodesBounds(n.elseList));
    assert Elems(NodeBounds(n)) == Elems(PipeBounds(n.pipe)) + Elems(elements)
                                 + (Elems(NodesBounds(n.list)) + Elems(NodesBounds(n.elseList)));
    assert NodeCalls(n) == PipeCalls(n.pipe) + (NodesCalls(n.list) + NodesCalls(n.elseList));
    assert NodeSends(n) == PipeSends(n.pipe) + (NodesSends(n.list) + NodesSends(n.elseList));
  }

  lemma TryGathers(n: Node)
    requires n.Try?
    requires Gathers(Nodes(n.list), NodesCalls(n.list), NodesSends(n.list), Elems(NodesBounds(n.list)))
    requires Gathers(Nodes(n.catchList), NodesCalls(n.catchList), NodesSends(n.catchList),
                     Elems(NodesBounds(n.catchList)))
    ensures Gathers(Inside(n), NodeCalls(n), NodeSends(n), Elems(NodeBounds(n)))
  {
    hide Gathers, PipesCalls, PipesSends, PipesBounds, Nodes, NodesCalls, NodesSends, NodesBounds, Elems;
    NodeGathers(n);
    ElemsNone();
    assert PipesCalls(Own(n)) + {} == {} && Elems(PipesBounds(Own(n))) + {} == {};
    GathersJoin(Nodes(n.list), Nodes(n.catchList), NodesCalls(n.list), NodesCalls(n.catchList), NodesSends(n.list),
                NodesSends(n.catchList), Elems(NodesBounds(n.list)), Elems(NodesBounds(n.catchList)));
    GathersJoin({n}, Nodes(n.list) + Nodes(n.catchList), {}, NodesCalls(n.list) + NodesCalls(n.catchList),
                {}, NodesSends(n.list) + NodesSends(n.catchList), {},
                Elems(NodesBounds(n.list)) + Elems(NodesBounds(n.catchList)));
    ElemsJoin(NodesBounds(n.list), NodesBounds(n.catchList));
    assert NodeCalls(n) == {} + (NodesCalls(n.list) + NodesCalls(n.catchList));
    assert NodeSends(n) == {} + (NodesSends(n.list) + NodesSends(n.catchList));
    assert Elems(NodeBounds(n)) == {} + (Elems(NodesBounds(n.list)) + Elems(NodesBounds(n.catchList)));
  }

  /** Names called, names sent and bindings are those of the nodes and pipelines wherever they stand. */
  lemma {:induction false} NodesGather(nodes: seq<Node>)
    ensures Gathers(Nodes(nodes), NodesCalls(nodes), NodesSends(nodes), Elems(NodesBounds(nodes)))
    decreases nodes, 0
  {
    hide Gathers, Inside, NodeCalls, NodeSends, NodeBounds, Elems;
    if nodes == [] {
      NoneGather();
      ElemsNone();
    } else {
      InsideGathers(nodes[0]);
      NodesGather(nodes[1..]);
      ElemsJoin(NodeBounds(nodes[0]), NodesBounds(nodes[1..]));
      GathersJoin(Inside(nodes[0]), Nodes(nodes[1..]), NodeCalls(nodes[0]), NodesCalls(nodes[1..]), NodeSends(nodes[0]),
                  NodesSends(nodes[1..]), Elems(NodeBounds(nodes[0])), Elems(NodesBounds(nodes[1..])));
    }
  }

  lemma NodesGathered(nodes: seq<Node>)
    ensures NodesCalls(nodes) == Called(nodes) && NodesSends(nodes) == SentBy(nodes)
    ensures Elems(NodesBounds(nodes)) == Bindings(nodes)
  {
    NodesGather(nodes);
  }

  lemma {:induction false} TreesGather(trees: seq<Tree>)
    ensures Elems(TreesBounds(trees)) == FileBindings(trees)
  {
    hide Nodes, NodesBounds, Elems, Bindings;
    if trees == [] {
      ElemsNone();
    } else {
      TreesGather(trees[1..]);
      NodesGathered(trees[0].root);
      ElemsJoin(NodesBounds(trees[0].root), TreesBounds(trees[1..]));
      assert trees == [trees[0]] + trees[1..];
      FileBindingsIs(trees);
    }
  }

  lemma FileBindingsIs(trees: seq<Tree>)
    requires trees != []
    ensures FileBindings(trees) == Bindings(trees[0].root) + FileBindings(trees[1..])
  {
    hide Bindings;
    forall b ensures b in FileBindings(trees) <==> b in Bindings(trees[0].root) || b in FileBindings(trees[1..]) {
      if b in FileBindings(trees) {
        var i :| 0 <= i < |trees| && b in Bindings(trees[i].root);
        if i > 0 {
          assert trees[i] == trees[1..][i - 1];
        }
      }
      if b in FileBindings(trees[1..]) {
        var i :| 0 <= i < |trees[1..]| && b in Bindings(trees[1..][i].root);
        assert trees[i + 1] == trees[1..][i];
      }
    }
  }
}
