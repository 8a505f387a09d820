/** minify, up to printing: rename the variables, then drop the whitespace. */
module Minify {
  import opened Blank
  import opened Syntax
  import opened Interp
  import opened Renaming
  import opened Whitespace
  import opened Silence
  import opened Response
  import RenameRuns
  import Renamer
  import Analyze
  import Leftovers

  /** Every binding of the name, anywhere in the file, gives it a constructor's value. */
  predicate OnlyConstructed(name: string, bounds: seq<Bound>) {
    name != "$" && forall j :: 0 <= j < |bounds| && bounds[j].name == name ==> bounds[j].constructed
  }

  predicate BindsContainer(bounds: seq<Bound>, root: seq<Node>) {
    exists i :: 0 <= i < |NodesBounds(root)| && OnlyConstructed(NodesBounds(root)[i].name, bounds)
  }

  /** What the pass needs of a file: its mark for a computed name is no define's name, and in a tree
      that binds a container variable no range assigns to variables it did not declare. Both can be
      read off the file. */
  predicate WellBehaved(trees: seq<Tree>) {
    && !IsDefine(trees, ANY_TREE)
    && forall i :: 0 <= i < |trees| ==>
         RangesDeclare(trees[i].root) || !BindsContainer(TreesBounds(trees), trees[i].root)
  }

  // ---------------------------------------------------------------- renaming keeps a file well behaved

  lemma {:induction false} RenamedRangesDeclare(m: Names, nodes: seq<Node>)
    ensures RangesDeclare(RenameNodes(m, nodes)) == RangesDeclare(nodes)
    decreases nodes, 0
  {
    if nodes != [] {
      RenamedNodeRangesDeclare(m, nodes[0]);
      RenamedRangesDeclare(m, nodes[1..]);
      assert RenameNodes(m, nodes)[1..] == RenameNodes(m, nodes[1..]);
    }
  }

  lemma {:induction false} RenamedNodeRangesDeclare(m: Names, n: Node)
    ensures NodeRangesDeclare(RenameNode(m, n)) == NodeRangesDeclare(n)
    decreases n, 1
  {
    match n
    case Branch(_, pipe, list, elseList) =>
      RenameDeclLength(m, pipe.decl);
      RenamedRangesDeclare(m, list);
      RenamedRangesDeclare(m, elseList);
    case Try(list, catchList) =>
      RenamedRangesDeclare(m, list);
      RenamedRangesDeclare(m, catchList);
    case _ =>
  }

  lemma {:induction false} RenameAllAt(m: Names, trees: seq<Tree>)
    ensures |RenameAll(m, trees)| == |trees|
    ensures forall i :: 0 <= i < |trees| ==> RenameAll(m, trees)[i] == trees[i].(root := RenameNodes(m, trees[i].root))
  {
    if trees != [] {
      RenameAllAt(m, trees[1..]);
    }
  }

  /** The bindings of a renamed tree: the same, under the new names. */
  function RenameBounds(m: Names, bounds: seq<Bound>): (r: seq<Bound>)
    ensures |r| == |bounds|
    ensures forall i :: 0 <= i < |r| ==> r[i] == Bound(NewName(m, bounds[i].name), bounds[i].constructed)
  {
    seq(|bounds|, i requires 0 <= i < |bounds| => Bound(NewName(m, bounds[i].name), bounds[i].constructed))
  }

  lemma RenameBoundsJoin(m: Names, a: seq<Bound>, b: seq<Bound>)
    ensures RenameBounds(m, a + b) == RenameBounds(m, a) + RenameBounds(m, b)
  {
  }

  lemma {:induction false} DeclBoundsRenamed(m: Names, decl: seq<string>, constructed: bool)
    ensures Bounds(RenameDecl(m, decl), constructed) == RenameBounds(m, Bounds(decl, constructed))
  {
    if decl != [] {
      DeclBoundsRenamed(m, decl[1..], constructed);
      assert RenameDecl(m, decl)[1..] == RenameDecl(m, decl[1..]);
      RenameBoundsJoin(m, [Bound(decl[0], constructed)], Bounds(decl[1..], constructed));
    }
  }

  lemma {:induction false} ArgBoundsRenamed(m: Names, a: Arg)
    ensures ArgBounds(RenameArg(m, a)) == RenameBounds(m, ArgBounds(a))
    decreases a, 0
  {
    hide PipeBounds, RenamePipe;
    match a
    case Paren(pipe) => PipeBoundsRenamed(m, pipe);
    case Chain(node, _) => ArgBoundsRenamed(m, node);
    case _ =>
  }

  lemma {:induction false} ArgsBoundsRenamed(m: Names, args: seq<Arg>)
    ensures ArgsBounds(RenameArgs(m, args)) == RenameBounds(m, ArgsBounds(args))
    decreases args, 0
  {
    if args != [] {
      ArgBoundsRenamed(m, args[0]);
      ArgsBoundsRenamed(m, args[1..]);
      assert RenameArgs(m, args)[1..] == RenameArgs(m, args[1..]);
      RenameBoundsJoin(m, ArgBounds(args[0]), ArgsBounds(args[1..]));
    }
  }

  lemma {:induction false} CommandsBoundsRenamed(m: Names, cmds: seq<Command>)
    ensures CommandsBounds(RenameCommands(m, cmds)) == RenameBounds(m, CommandsBounds(cmds))
    decreases cmds, 0
  {
    if cmds != [] {
      ArgsBoundsRenamed(m, cmds[0].args);
      CommandsBoundsRenamed(m, cmds[1..]);
      assert RenameCommands(m, cmds)[1..] == RenameCommands(m, cmds[1..]);
      RenameBoundsJoin(m, ArgsBounds(cmds[0].args), CommandsBounds(cmds[1..]));
    }
  }

  lemma {:induction false} RenameCommandsAt(m: Names, cmds: seq<Command>)
    ensures |RenameCommands(m, cmds)| == |cmds|
    ensures forall i :: 0 <= i < |cmds| ==> RenameCommands(m, cmds)[i] == Command(RenameArgs(m, cmds[i].args))
  {
    if cmds != [] {
      RenameCommandsAt(m, cmds[1..]);
    }
  }

  lemma {:induction false} ConstructorRenamed(m: Names, p: Pipe)
    ensures IsConstructorPipe(RenamePipe(m, p)) == IsConstructorPipe(p)
    decreases p
  {
    hide RenameCommands, RenameDecl, RenameArgs, IsConstructor;
    RenameCommandsAt(m, p.cmds);
    if p.cmds != [] {
      var args := p.cmds[|p.cmds| - 1].args;
      RenameRuns.RenameArgsShape(m, args);
      if args != [] && args[0].Paren? {
        assert args[0] in args && p.cmds[|p.cmds| - 1] in p.cmds;
        ConstructorRenamed(m, args[0].pipe);
      }
    }
  }

  lemma {:induction false} PipeBoundsRenamed(m: Names, p: Pipe)
    ensures PipeBounds(RenamePipe(m, p)) == RenameBounds(m, PipeBounds(p))
    decreases p, 1
  {
    hide IsConstructorPipe, RenameDecl, RenameCommands, CommandsBounds;
    CommandsBoundsRenamed(m, p.cmds);
    ConstructorRenamed(m, p);
    DeclBoundsRenamed(m, p.decl, IsConstructorPipe(p));
    RenameBoundsJoin(m, Bounds(p.decl, IsConstructorPipe(p)), CommandsBounds(p.cmds));
  }

  lemma {:induction false} PipesBoundsRenamed(m: Names, ps: seq<Pipe>)
    ensures PipesBounds(RenamePipes(m, ps)) == RenameBounds(m, PipesBounds(ps))
  {
    if ps != [] {
      PipeBoundsRenamed(m, ps[0]);
      PipesBoundsRenamed(m, ps[1..]);
      assert RenamePipes(m, ps)[1..] == RenamePipes(m, ps[1..]);
      RenameBoundsJoin(m, PipeBounds(ps[0]), PipesBounds(ps[1..]));
    }
  }

  lemma {:induction false} NodesBoundsRenamed(m: Names, nodes: seq<Node>)
    ensures NodesBounds(RenameNodes(m, nodes)) == RenameBounds(m, NodesBounds(nodes))
    decreases nodes, 0
  {
    if nodes != [] {
      NodeBoundsRenamed(m, nodes[0]);
      NodesBoundsRenamed(m, nodes[1..]);
      assert RenameNodes(m, nodes)[1..] == RenameNodes(m, nodes[1..]);
      RenameBoundsJoin(m, NodeBounds(nodes[0]), NodesBounds(nodes[1..]));
    }
  }

  lemma {:induction false} NodeBoundsRenamed(m: Names, n: Node)
    ensures NodeBounds(RenameNode(m, n)) == RenameBounds(m, NodeBounds(n))
    decreases n, 1
  {
    match n
    case Action(pipe) => PipeBoundsRenamed(m, pipe);
    case Branch(kind, pipe, list, elseList) =>
      DeclBoundsRenamed(m, pipe.decl, false);
      PipeBoundsRenamed(m, pipe);
      NodesBoundsRenamed(m, list);
      NodesBoundsRenamed(m, elseList);
      var own := if kind == Range then Bounds(pipe.decl, false) else [];
      RenameBoundsJoin(m, own, PipeBounds(pipe));
      RenameBoundsJoin(m, own + PipeBounds(pipe), NodesBounds(list));
      RenameBoundsJoin(m, own + PipeBounds(pipe) + NodesBounds(list), NodesBounds(elseList));
    case Try(list, catchList) =>
      NodesBoundsRenamed(m, list);
      NodesBoundsRenamed(m, catchList);
      RenameBoundsJoin(m, NodesBounds(list), NodesBounds(catchList));
    case Return(pipes) => PipesBoundsRenamed(m, pipes);
    case Template(_, pipes) => PipesBoundsRenamed(m, pipes);
    case _ =>
  }

  lemma {:induction false} TreesBoundsRenamed(m: Names, trees: seq<Tree>)
    ensures TreesBounds(RenameAll(m, trees)) == RenameBounds(m, TreesBounds(trees))
  {
    if trees != [] {
      NodesBoundsRenamed(m, trees[0].root);
      TreesBoundsRenamed(m, trees[1..]);
      assert RenameAll(m, trees)[1..] == RenameAll(m, trees[1..]);
      RenameBoundsJoin(m, NodesBounds(trees[0].root), TreesBounds(trees[1..]));
    }
  }

  /** A container variable of the renamed file was one of the file. */
  lemma RenamedContainer(m: Names, bounds: seq<Bound>, root: seq<Node>)
    requires "$" !in m && BindsContainer(RenameBounds(m, bounds), RenameNodes(m, root))
    ensures BindsContainer(bounds, root)
  {
    NodesBoundsRenamed(m, root);
    var renamed := NodesBounds(RenameNodes(m, root));
    var i :| 0 <= i < |renamed| && OnlyConstructed(renamed[i].name, RenameBounds(m, bounds));
    var name := NodesBounds(root)[i].name;
    forall j | 0 <= j < |bounds| && bounds[j].name == name ensures bounds[j].constructed {
      assert RenameBounds(m, bounds)[j].constructed;
    }
    assert OnlyConstructed(name, bounds);
  }

  lemma RenamedWellBehaved(m: Names, trees: seq<Tree>)
    requires "$" !in m && WellBehaved(trees)
    ensures WellBehaved(RenameAll(m, trees))
  {
    RenameAllAt(m, trees);
    TreesBoundsRenamed(m, trees);
    var renamed := RenameAll(m, trees);
    forall i | 0 <= i < |renamed|
      ensures RangesDeclare(renamed[i].root) || !BindsContainer(TreesBounds(renamed), renamed[i].root)
    {
      RenamedRangesDeclare(m, trees[i].root);
      if BindsContainer(TreesBounds(renamed), renamed[i].root) {
        RenamedContainer(m, TreesBounds(trees), trees[i].root);
      }
    }
  }

  // ---------------------------------------------------------------- the whole of minify

  /** What minify makes of a file's trees, with the names it gave and what the pass learnt of them. */
  ghost predicate Minified(trees: seq<Tree>, trees': seq<Tree>, m: Names, fa: Facts) {
    && Renamer.NamedByRank(TreesNames(trees), m)
    && fa.trees == RenameAll(m, trees)
    && IsContainerSet(fa.containers, TreesBounds(fa.trees))
    && PrintsLeast(fa)
    && trees' == DropTrees(fa, fa.trees)
  }

  method Minify(trees: seq<Tree>) returns (trees': seq<Tree>, m: Names, fa: Facts)
    requires |Renamer.Variables(TreesNames(trees))| <= Renamer.MAX_NAMES
    ensures Minified(trees, trees', m, fa) && Leftovers.Tidied(fa.trees, trees')
  {
    m := Renamer.NewRenamer(trees);
    trees', fa := Analyze.DropWhitespace(RenameAll(m, trees));
  }

  lemma FactsAnalysed(fa: Facts, c: Context)
    requires c.trees == fa.trees && FunctionsAsDocumented(c.oracle) && WellBehaved(fa.trees)
    requires IsContainerSet(fa.containers, TreesBounds(fa.trees)) && PrintsLeast(fa)
    ensures Analysed(fa, c)
  {
    hide NodesBounds, TreesBounds, RangesDeclare;
    forall i | 0 <= i < |fa.trees| ensures TreeSafe(fa, fa.trees[i].root) {
      TreeIsSafe(fa, i);
    }
  }

  lemma TreeIsSafe(fa: Facts, i: nat)
    requires WellBehaved(fa.trees) && IsContainerSet(fa.containers, TreesBounds(fa.trees)) && i < |fa.trees|
    ensures TreeSafe(fa, fa.trees[i].root)
  {
    hide NodesBounds, TreesBounds, RangesDeclare;
    Analyze.TreesBoundsAt(fa.trees, fa.containers, i);
    var root := fa.trees[i].root;
    if !IsBare(fa, root) {
      var j :| 0 <= j < |NodesBounds(root)| && NodesBounds(root)[j].name in fa.containers;
      assert OnlyConstructed(NodesBounds(root)[j].name, TreesBounds(fa.trees));
    }
  }

  /** A minified command is the command: in any world whose functions are as documented, from any
      dot and any history, with any number of operations, it ends the same way, with the same calls
      and messages, and its response trims to the same text. */
  lemma MinifyPreservesResponse(c: Context, trees': seq<Tree>, m: Names, fa: Facts, dot: Value, hist: seq<Event>,
                                ops: nat)
    requires FunctionsAsDocumented(c.oracle) && WellBehaved(c.trees) && Minified(c.trees, trees', m, fa)
    ensures var r, r' := Run(c, dot, hist, ops), Run(c.(trees := trees'), dot, hist, ops);
            && r'.end == r.end && r'.st.hist == r.st.hist && r'.st.ops == r.st.ops
            && TrimSpace(r'.out) == TrimSpace(r.out)
  {
    Renamer.RankedIsFaithful(TreesNames(c.trees), m);
    RenameRuns.RenamingPreservesRuns(m, c, dot, hist, ops);
    var c1 := c.(trees := fa.trees);
    RenamedWellBehaved(m, c.trees);
    FactsAnalysed(fa, c1);
    DroppingPreservesResponse(fa, c1, dot, hist, ops);
  }
}
