/** What the whitespace pass leaves behind, in the words of the trees alone: a blank text that stays in a main tree
    has a possible printer on both sides, and a file in which nothing prints keeps none. */
module Leftovers {
  import opened Basics
  import opened Blank
  import opened Syntax
  import opened Interp
  import opened Whitespace
  import Silence
  import Response
  import Everywhere

  // ---------------------------------------------------------------- possible printers, read off the trees

  /** A variable bound in the file, and by containers' constructors alone; $ is the dot. */
  predicate Built(trees: seq<Tree>, x: string) {
    x != "$" && Bound(x, true) in Everywhere.FileBindings(trees) && Bound(x, false) !in Everywhere.FileBindings(trees)
  }

  /** An action of one call that prints as nothing: one of the twelve functions, or Set or Del on such a variable. */
  predicate Silent(trees: seq<Tree>, p: Pipe) {
    && |p.cmds| == 1 && p.cmds[0].args != []
    && var head := p.cmds[0].args[0];
       || head == Ident("sendMessage") || head == Ident("sendResponse") || head == Ident("sendModal")
       || head == Ident("editMessage") || head == Ident("deleteMessage") || head == Ident("deleteTrigger")
       || head == Ident("deleteResponse") || head == Ident("execCC") || head == Ident("dbSet")
       || head == Ident("dbSetExpire") || head == Ident("dbDel") || head == Ident("dbDelById")
       || (head.Var? && (head.varPath == ["Set"] || head.varPath == ["Del"]) && Built(trees, head.varName))
  }

  /** A text with something to see, or an action that declares nothing and is not silent. */
  predicate IsPrinter(trees: seq<Tree>, n: Node) {
    || (n.TextNode? && exists i :: 0 <= i < |n.text| && !IsSpace(n.text[i]))
    || (n.Action? && n.pipe.decl == [] && !Silent(trees, n.pipe))
  }

  predicate OwnsPrinter(trees: seq<Tree>, nodes: seq<Node>) {
    exists n :: n in Everywhere.Nodes(nodes) && IsPrinter(trees, n)
  }

  /** A call by that name may run the tree of this name: a define answers to its own name alone, any other
      name may be any tree's. */
  predicate MayRun(trees: seq<Tree>, called: string, name: string) {
    if called != "*" && IsDefine(trees, called) then name == called
    else exists i :: 0 <= i < |trees| && trees[i].name == name
  }

  /** A tree of the first name has a call that may run one of the second. */
  predicate Leads(trees: seq<Tree>, name: string, next: string) {
    exists i, called :: 0 <= i < |trees| && trees[i].name == name
      && called in Everywhere.Called(trees[i].root) && MayRun(trees, called, next)
  }

  predicate TreeOwnsPrinter(trees: seq<Tree>, name: string) {
    exists i :: 0 <= i < |trees| && trees[i].name == name && OwnsPrinter(trees, trees[i].root)
  }

  /** Calls that lead from tree to tree up to one that has a printer of its own. */
  predicate IsChain(trees: seq<Tree>, names: seq<string>) {
    && names != []
    && (forall i :: 0 <= i < |names| - 1 ==> Leads(trees, names[i], names[i + 1]))
    && TreeOwnsPrinter(trees, names[|names| - 1])
  }

  ghost predicate MayPrint(trees: seq<Tree>, name: string) {
    exists names :: IsChain(trees, names) && names[0] == name
  }

  ghost predicate CallMayPrint(trees: seq<Tree>, called: string) {
    exists name :: MayRun(trees, called, name) && MayPrint(trees, name)
  }

  /** The trees that execTemplate calls in the node's own pipelines run. */
  function ExecutedAt(n: Node): set<string> {
    Everywhere.Executed(Everywhere.PipesIn(Everywhere.Own(n)))
  }

  /** Something may print at the node's own place, not counting the nodes inside it. */
  ghost predicate Prints(trees: seq<Tree>, n: Node) {
    || IsPrinter(trees, n)
    || (n.Template? && CallMayPrint(trees, n.name))
    || exists called :: called in ExecutedAt(n) && CallMayPrint(trees, called)
  }

  ghost predicate HasPrinter(trees: seq<Tree>, nodes: seq<Node>) {
    exists n :: n in Everywhere.Nodes(nodes) && Prints(trees, n)
  }

  // ---------------------------------------------------------------- blanks and their places

  predicate IsBlank(n: Node) {
    n.TextNode? && n.text != "" && forall i :: 0 <= i < |n.text| ==> IsSpace(n.text[i])
  }

  predicate BlankFree(nodes: seq<Node>) {
    forall n :: n in Everywhere.Nodes(nodes) ==> !IsBlank(n)
  }

  /** The nodes of a list in document order: branches and tries opened up, a loop being one place. */
  function Opened(n: Node): seq<Node> {
    match n
    case Branch(kind, pipe, list, elseList) =>
      if kind == Range || kind == While then [n] else [Branch(kind, pipe, [], [])] + Document(list) + Document(elseList)
    case Try(list, catchList) => Document(list) + Document(catchList)
    case _ => [n]
  }

  function Document(nodes: seq<Node>): seq<Node> {
    if nodes == [] then [] else Opened(nodes[0]) + Document(nodes[1..])
  }

  /** Every blank text has possible printers before and after it; a loop that keeps a blank text has a possible
      printer inside, or before and after it. */
  ghost predicate IsTight(trees: seq<Tree>, doc: seq<Node>) {
    forall i :: 0 <= i < |doc| ==>
      var between := HasPrinter(trees, doc[..i]) && HasPrinter(trees, doc[i + 1..]);
      && (IsBlank(doc[i]) ==> between)
      && (IsLoop(doc[i]) ==> BlankFree([doc[i]]) || HasPrinter(trees, [doc[i]]) || between)
  }

  // ---------------------------------------------------------------- the whole file

  /** Nothing prints, and nothing is sent as a message of its own. */
  predicate IsQuiet(trees: seq<Tree>) {
    forall i :: 0 <= i < |trees| ==> !OwnsPrinter(trees, trees[i].root) && Everywhere.SentBy(trees[i].root) == {}
  }

  /** Every tree that is called or sent is a define of the file, so the main tree runs by itself only. */
  predicate OnlyDefinesRun(trees: seq<Tree>) {
    forall i, name :: 0 <= i < |trees| && name in Everywhere.Called(trees[i].root) + Everywhere.SentBy(trees[i].root)
      ==> IsDefine(trees, name)
  }

  /** The pass on one tree: nothing but blank texts goes; in a quiet file all of them do; else a main tree that
      runs by itself is tight, and every other tree stays. */
  ghost predicate TreeTidied(trees: seq<Tree>, t: Tree, t': Tree) {
    && t' == t.(root := t'.root) && DropAll(t'.root) == DropAll(t.root)
    && (IsQuiet(trees) ==> BlankFree(t'.root))
    && (t.isMain && OnlyDefinesRun(trees) ==> IsTight(trees, Document(t'.root)))
    && (!IsQuiet(trees) && !(t.isMain && OnlyDefinesRun(trees)) ==> t' == t)
  }

  ghost predicate Tidied(trees: seq<Tree>, trees': seq<Tree>) {
    |trees'| == |trees| && forall i :: 0 <= i < |trees| ==> TreeTidied(trees, trees[i], trees'[i])
  }

  // ---------------------------------------------------------------- the facts are right

  /** The facts of a file: its trees, its container variables and its printing trees. */
  ghost predicate IsAnalysis(fa: Facts) {
    && IsContainerSet(fa.containers, TreesBounds(fa.trees)) && BoundSomewhere(fa.containers, TreesBounds(fa.trees))
    && PrintsLeast(fa)
  }

  lemma ContainersAreBuilt(fa: Facts)
    requires IsAnalysis(fa)
    ensures forall x :: x in fa.containers <==> Built(fa.trees, x)
  {
    hide PrintsLeast, Everywhere.FileBindings, TreesBounds;
    var bounds := TreesBounds(fa.trees);
    Everywhere.TreesGather(fa.trees);
    forall x ensures x in fa.containers <==> Built(fa.trees, x) {
      if x in fa.containers {
        var i :| 0 <= i < |bounds| && bounds[i].name == x;
        assert bounds[i] == Bound(x, true) && bounds[i] in Everywhere.Elems(bounds);
        assert Bound(x, false) !in bounds;
      }
      if Built(fa.trees, x) {
        assert Bound(x, true) in Everywhere.Elems(bounds) && Bound(x, false) !in Everywhere.Elems(bounds);
        var i :| 0 <= i < |bounds| && bounds[i] == Bound(x, true);
        forall j | 0 <= j < |bounds| && bounds[j].name == x ensures bounds[j].constructed {
          assert bounds[j] in Everywhere.Elems(bounds);
          assert bounds[j] == Bound(x, bounds[j].constructed);
        }
      }
    }
  }

  /** The facts agree with the trees about container variables. */
  ghost predicate Agrees(fa: Facts) {
    forall x :: x in fa.containers <==> Built(fa.trees, x)
  }

  lemma SilentIff(fa: Facts, p: Pipe)
    requires Agrees(fa)
    ensures IsSilentPipe(fa.containers, p) <==> Silent(fa.trees, p)
  {
    hide Built;
    if |p.cmds| == 1 && p.cmds[0].args != [] && p.cmds[0].args[0].Var? {
      var path := p.cmds[0].args[0].varPath;
      assert |path| == 1 ==> path == [path[0]];
    }
  }

  lemma PrinterIff(fa: Facts, n: Node)
    requires Agrees(fa) && (n.TextNode? || n.Action?)
    ensures NodeOwns(fa.containers, n) <==> IsPrinter(fa.trees, n)
  {
    hide IsSilentPipe, Silent;
    if n.Action? {
      SilentIff(fa, n.pipe);
    }
  }

  lemma {:induction false} InsideOwns(fa: Facts, n: Node)
    requires Agrees(fa)
    ensures NodeOwns(fa.containers, n) <==> exists m :: m in Everywhere.Inside(n) && IsPrinter(fa.trees, m)
    decreases n, 1
  {
    hide Agrees, Silent;
    match n
    case Branch(_, _, list, elseList) =>
      NodesOwnIff(fa, list);
      NodesOwnIff(fa, elseList);
    case Try(list, catchList) =>
      NodesOwnIff(fa, list);
      NodesOwnIff(fa, catchList);
    case TextNode(_) => PrinterIff(fa, n);
    case Action(_) => PrinterIff(fa, n);
    case _ =>
  }

  lemma {:induction false} NodesOwnIff(fa: Facts, nodes: seq<Node>)
    requires Agrees(fa)
    ensures NodesOwn(fa.containers, nodes) <==> OwnsPrinter(fa.trees, nodes)
    decreases nodes, 0
  {
    hide Agrees, IsPrinter, NodeOwns, Everywhere.Inside;
    if nodes != [] {
      InsideOwns(fa, nodes[0]);
      NodesOwnIff(fa, nodes[1..]);
    }
  }

  // ---- chains

  lemma {:induction false} ChainPrints(fa: Facts, names: seq<string>)
    requires Agrees(fa) && PrintsClosed(fa) && IsChain(fa.trees, names)
    ensures names[0] in fa.prints
  {
    hide Agrees, OwnsPrinter, NodesOwn, Everywhere.Called, NodesCalls;
    if |names| == 1 {
      var i :| 0 <= i < |fa.trees| && fa.trees[i].name == names[0] && OwnsPrinter(fa.trees, fa.trees[i].root);
      NodesOwnIff(fa, fa.trees[i].root);
    } else {
      var rest := names[1..];
      assert forall k :: 0 <= k < |rest| ==> rest[k] == names[k + 1];
      ChainPrints(fa, rest);
      var i, called :| 0 <= i < |fa.trees| && fa.trees[i].name == names[0]
        && called in Everywhere.Called(fa.trees[i].root) && MayRun(fa.trees, called, names[1]);
      Everywhere.NodesGathered(fa.trees[i].root);
      assert CalleePrints(fa, called);
      assert AnyPrints(fa, NodesCalls(fa.trees[i].root));
    }
  }

  lemma ChainGrows(trees: seq<Tree>, name: string, next: string)
    requires Leads(trees, name, next) && MayPrint(trees, next)
    ensures MayPrint(trees, name)
  {
    hide Leads, TreeOwnsPrinter;
    var names :| IsChain(trees, names) && names[0] == next;
    var longer := [name] + names;
    forall i | 0 <= i < |longer| - 1 ensures Leads(trees, longer[i], longer[i + 1]) {
      if i > 0 {
        assert longer[i] == names[i - 1] && longer[i + 1] == names[i];
      }
    }
    assert IsChain(trees, longer);
  }

  lemma ChainsAreClosed(fa: Facts, chained: set<string>)
    requires Agrees(fa)
    requires forall name :: name in chained <==>
               MayPrint(fa.trees, name) && exists i :: 0 <= i < |fa.trees| && fa.trees[i].name == name
    ensures PrintsClosed(fa.(prints := chained))
  {
    hide Agrees, OwnsPrinter, NodesOwn, Everywhere.Called, NodesCalls, MayPrint;
    var fa', trees := fa.(prints := chained), fa.trees;
    forall i | 0 <= i < |trees| && (NodesOwn(fa.containers, trees[i].root) || AnyPrints(fa', NodesCalls(trees[i].root)))
      ensures trees[i].name in chained
    {
      if NodesOwn(fa.containers, trees[i].root) {
        NodesOwnIff(fa, trees[i].root);
        OwnChain(trees, trees[i].name);
      } else {
        Everywhere.NodesGathered(trees[i].root);
        var called :| called in NodesCalls(trees[i].root) && CalleePrints(fa', called);
        var next := CalledTree(fa', called);
        assert Leads(trees, trees[i].name, next);
        ChainGrows(trees, trees[i].name, next);
      }
    }
  }

  lemma OwnChain(trees: seq<Tree>, name: string)
    requires TreeOwnsPrinter(trees, name)
    ensures MayPrint(trees, name)
  {
    assert IsChain(trees, [name]);
  }

  /** A printing tree that the call may run. */
  ghost function CalledTree(fa: Facts, called: string): (name: string)
    requires CalleePrints(fa, called)
    ensures MayRun(fa.trees, called, name) && name in fa.prints
  {
    if called != "*" && IsDefine(fa.trees, called) then called
    else
      var i :| 0 <= i < |fa.trees| && fa.trees[i].name in fa.prints;
      fa.trees[i].name
  }

  /** The printing trees are those from which a chain of calls leads to a printer. */
  lemma PrintsIff(fa: Facts, name: string)
    requires Agrees(fa) && PrintsLeast(fa)
    ensures name in fa.prints <==> MayPrint(fa.trees, name)
  {
    hide Agrees, PrintsClosed, Leads, TreeOwnsPrinter;
    if MayPrint(fa.trees, name) {
      var names :| IsChain(fa.trees, names) && names[0] == name;
      ChainPrints(fa, names);
    }
    var trees := fa.trees;
    var chained := set i | 0 <= i < |trees| && MayPrint(trees, trees[i].name) :: trees[i].name;
    ChainsAreClosed(fa, chained);
    assert fa.prints <= chained;
  }

  lemma CalleeIff(fa: Facts, called: string)
    requires Agrees(fa) && PrintsLeast(fa)
    ensures CalleePrints(fa, called) <==> CallMayPrint(fa.trees, called)
  {
    hide Agrees, PrintsLeast, MayPrint;
    if CalleePrints(fa, called) {
      PrintsIff(fa, CalledTree(fa, called));
    }
    if CallMayPrint(fa.trees, called) {
      var name :| MayRun(fa.trees, called, name) && MayPrint(fa.trees, name);
      PrintsIff(fa, name);
    }
  }

  lemma AnyIff(fa: Facts, names: set<string>)
    requires Agrees(fa) && PrintsLeast(fa)
    ensures AnyPrints(fa, names) <==> exists called :: called in names && CallMayPrint(fa.trees, called)
  {
    hide Agrees, PrintsLeast, CalleePrints, CallMayPrint;
    forall called ensures CalleePrints(fa, called) <==> CallMayPrint(fa.trees, called) {
      CalleeIff(fa, called);
    }
  }

  /** A node's own place, as the count sees it. */
  ghost predicate OwnPlace(fa: Facts, n: Node) {
    || ((n.TextNode? || n.Action?) && NodeOwns(fa.containers, n))
    || AnyPrints(fa, PipesCalls(Everywhere.Own(n)))
    || (n.Template? && CalleePrints(fa, n.name))
  }

  lemma OwnPlaceIff(fa: Facts, n: Node)
    requires Agrees(fa) && PrintsLeast(fa)
    ensures OwnPlace(fa, n) <==> Prints(fa.trees, n)
  {
    hide Agrees, PrintsLeast, CalleePrints, CallMayPrint, PipesCalls, Everywhere.Executed, Everywhere.PipesIn,
      NodeOwns, IsPrinter,
      AnyPrints;
    if n.TextNode? || n.Action? {
      PrinterIff(fa, n);
    } else {
      assert !IsPrinter(fa.trees, n) by { OthersPrintNothing(fa.trees, n); }
    }
    if n.Template? {
      CalleeIff(fa, n.name);
    }
    Everywhere.PipesGather(Everywhere.Own(n));
    AnyIff(fa, PipesCalls(Everywhere.Own(n)));
  }

  lemma OthersPrintNothing(trees: seq<Tree>, n: Node)
    requires !n.TextNode? && !n.Action?
    ensures !IsPrinter(trees, n)
  {
  }

  lemma {:induction false} NodeCountIff(fa: Facts, n: Node)
    requires Agrees(fa) && PrintsLeast(fa)
    ensures NodeCount(fa, n) > 0 <==> exists m :: m in Everywhere.Inside(n) && Prints(fa.trees, m)
    decreases n, 1
  {
    hide Agrees, PrintsLeast, Prints, AnyPrints, CalleePrints;
    OwnPlaceIff(fa, n);
    match n
    case Branch(_, pipe, list, elseList) =>
      Everywhere.OnePipe(pipe);
      CountIff(fa, list);
      CountIff(fa, elseList);
    case Try(list, catchList) =>
      NothingCalled(fa);
      CountIff(fa, list);
      CountIff(fa, catchList);
    case Action(pipe) => Everywhere.OnePipe(pipe);
    case _ => NothingCalled(fa);
  }

  lemma NothingCalled(fa: Facts)
    ensures !AnyPrints(fa, {})
  {
  }

  /** The pass counts a printer in a list exactly when some node in it may print. */
  lemma {:induction false} CountIff(fa: Facts, nodes: seq<Node>)
    requires Agrees(fa) && PrintsLeast(fa)
    ensures Count(fa, nodes) > 0 <==> HasPrinter(fa.trees, nodes)
    decreases nodes, 0
  {
    hide Agrees, PrintsLeast, Prints, NodeCount, Everywhere.Inside;
    if nodes != [] {
      NodeCountIff(fa, nodes[0]);
      CountIff(fa, nodes[1..]);
    }
  }

  // ---------------------------------------------------------------- what is left

  lemma {:induction false} CountJoin(fa: Facts, a: seq<Node>, b: seq<Node>)
    ensures Count(fa, a + b) == Count(fa, a) + Count(fa, b)
  {
    hide NodeCount;
    if a == [] {
      assert a + b == b;
    } else {
      CountJoin(fa, a[1..], b);
      assert (a + b)[1..] == a[1..] + b;
    }
  }

  lemma {:induction false} OpenedCounts(fa: Facts, n: Node)
    ensures Count(fa, Opened(n)) == NodeCount(fa, n)
    decreases n, 1
  {
    assert [n][1..] == [];
    match n
    case Branch(kind, pipe, list, elseList) =>
      if kind == If || kind == With {
        var head := Branch(kind, pipe, [], []);
        assert [head][1..] == [];
        DocumentCounts(fa, list);
        DocumentCounts(fa, elseList);
        CountJoin(fa, [head], Document(list));
        CountJoin(fa, [head] + Document(list), Document(elseList));
      }
    case Try(list, catchList) =>
      DocumentCounts(fa, list);
      DocumentCounts(fa, catchList);
      CountJoin(fa, Document(list), Document(catchList));
    case _ =>
  }

  lemma {:induction false} DocumentCounts(fa: Facts, nodes: seq<Node>)
    ensures Count(fa, Document(nodes)) == Count(fa, nodes)
    decreases nodes, 0
  {
    hide NodeCount, Opened;
    if nodes != [] {
      OpenedCounts(fa, nodes[0]);
      DocumentCounts(fa, nodes[1..]);
      CountJoin(fa, Opened(nodes[0]), Document(nodes[1..]));
    }
  }

  /** A place with so many printers before it and behind it keeps no blank it need not keep. */
  predicate PlaceIsTight(fa: Facts, n: Node, before: nat, behind: nat) {
    && (IsBlank(n) ==> before > 0 && behind > 0)
    && (IsLoop(n) ==> BlankFree([n]) || NodeCount(fa, n) > 0 || (before > 0 && behind > 0))
  }

  predicate TightAt(fa: Facts, doc: seq<Node>, i: nat, before: nat, after: nat)
    requires i < |doc|
  {
    PlaceIsTight(fa, doc[i], before + Count(fa, doc[..i]), Count(fa, doc[i + 1..]) + after)
  }

  predicate CountsTight(fa: Facts, doc: seq<Node>, before: nat, after: nat) {
    forall i :: 0 <= i < |doc| ==> TightAt(fa, doc, i, before, after)
  }

  lemma TightLeft(fa: Facts, a: seq<Node>, b: seq<Node>, i: nat, before: nat, after: nat)
    requires i < |a| && TightAt(fa, a, i, before, Count(fa, b) + after)
    ensures TightAt(fa, a + b, i, before, after)
  {
    hide PlaceIsTight, Count;
    assert (a + b)[..i] == a[..i] && (a + b)[i + 1..] == a[i + 1..] + b;
    CountJoin(fa, a[i + 1..], b);
  }

  lemma TightRight(fa: Facts, a: seq<Node>, b: seq<Node>, i: nat, before: nat, after: nat)
    requires i < |b| && TightAt(fa, b, i, before + Count(fa, a), after)
    ensures TightAt(fa, a + b, |a| + i, before, after)
  {
    hide PlaceIsTight, Count;
    assert (a + b)[..|a| + i] == a + b[..i] && (a + b)[|a| + i + 1..] == b[i + 1..];
    CountJoin(fa, a, b[..i]);
  }

  lemma TightJoin(fa: Facts, a: seq<Node>, b: seq<Node>, before: nat, after: nat)
    requires CountsTight(fa, a, before, Count(fa, b) + after) && CountsTight(fa, b, before + Count(fa, a), after)
    ensures CountsTight(fa, a + b, before, after)
  {
    hide TightAt, Count;
    forall i | 0 <= i < |a + b| ensures TightAt(fa, a + b, i, before, after) {
      if i < |a| {
        TightLeft(fa, a, b, i, before, after);
      } else {
        TightRight(fa, a, b, i - |a|, before, after);
      }
    }
  }

  lemma TightOne(fa: Facts, n: Node, before: nat, after: nat)
    requires PlaceIsTight(fa, n, before, after)
    ensures CountsTight(fa, [n], before, after)
  {
    hide PlaceIsTight;
    assert [n][..0] == [] && [n][1..] == [];
  }

  lemma {:induction false} DropListCounts(fa: Facts, nodes: seq<Node>, before: nat, after: nat)
    ensures Count(fa, DropList(fa, nodes, before, after)) == Count(fa, nodes)
    ensures DropAll(DropList(fa, nodes, before, after)) == DropAll(nodes)
    decreases nodes, 0
  {
    hide NodeCount, DropNode, DropInside;
    if nodes != [] {
      var behind := Count(fa, nodes[1..]) + after;
      var rest := DropList(fa, nodes[1..], before + NodeCount(fa, nodes[0]), after);
      DropListCounts(fa, nodes[1..], before + NodeCount(fa, nodes[0]), after);
      DropNodeCounts(fa, nodes[0], before, behind);
      BlankCountsNothing(fa, nodes[0]);
      assert ([DropNode(fa, nodes[0], before, behind)] + rest)[1..] == rest;
    }
  }

  lemma BlankCountsNothing(fa: Facts, n: Node)
    ensures n.TextNode? && IsBlankText(n.text) ==> NodeCount(fa, n) == 0
  {
  }

  /** The nodes differ in blank texts inside them at most. */
  predicate AlikeInside(fa: Facts, n: Node, n': Node) {
    && NodeCount(fa, n') == NodeCount(fa, n) && DropInside(n') == DropInside(n) && IsLoop(n') == IsLoop(n)
    && (n.TextNode? || n'.TextNode? ==> n' == n)
  }

  predicate AlikeLists(fa: Facts, nodes: seq<Node>, nodes': seq<Node>) {
    Count(fa, nodes') == Count(fa, nodes) && DropAll(nodes') == DropAll(nodes)
  }

  lemma {:induction false} DropNodeCounts(fa: Facts, n: Node, before: nat, after: nat)
    ensures AlikeInside(fa, n, DropNode(fa, n, before, after))
    decreases n, 1
  {
    hide Count, NodeCount, DropAll, DropInside, DropNode, DropList, AlikeInside;
    if IsLoop(n) {
      LoopAlike(fa, n, before, after);
    } else {
      match n
      case Branch(_, pipe, list, elseList) =>
        var inside := before + Bit(AnyPrints(fa, PipeCalls(pipe)));
        DropListCounts(fa, list, inside, Count(fa, elseList) + after);
        DropListCounts(fa, elseList, inside + Count(fa, list), after);
        BranchAlike(fa, n, before, after);
      case Try(list, catchList) =>
        DropListCounts(fa, list, before, Count(fa, catchList) + after);
        DropListCounts(fa, catchList, before + Count(fa, list), after);
        TryAlike(fa, n, before, after);
      case _ => LeafAlike(fa, n, before, after);
    }
  }

  lemma LeafAlike(fa: Facts, n: Node, before: nat, after: nat)
    requires !n.Branch? && !n.Try?
    ensures AlikeInside(fa, n, DropNode(fa, n, before, after))
  {
  }

  lemma LoopAlike(fa: Facts, n: Node, before: nat, after: nat)
    requires IsLoop(n)
    ensures AlikeInside(fa, n, DropNode(fa, n, before, after))
  {
    hide Count, NodeCount, DropAll;
    Response.DropInsideCounts(fa, n);
    InsideTwice(n);
  }

  lemma BranchAlike(fa: Facts, n: Node, before: nat, after: nat)
    requires n.Branch? && !IsLoop(n)
    requires var inside := before + Bit(AnyPrints(fa, PipeCalls(n.pipe)));
             && AlikeLists(fa, n.list, DropList(fa, n.list, inside, Count(fa, n.elseList) + after))
             && AlikeLists(fa, n.elseList, DropList(fa, n.elseList, inside + Count(fa, n.list), after))
    ensures AlikeInside(fa, n, DropNode(fa, n, before, after))
  {
    hide Count, DropAll, DropList;
  }

  lemma TryAlike(fa: Facts, n: Node, before: nat, after: nat)
    requires n.Try?
    requires AlikeLists(fa, n.list, DropList(fa, n.list, before, Count(fa, n.catchList) + after))
    requires AlikeLists(fa, n.catchList, DropList(fa, n.catchList, before + Count(fa, n.list), after))
    ensures AlikeInside(fa, n, DropNode(fa, n, before, after))
  {
    hide Count, DropAll, DropList;
  }

  /** Dropping every blank leaves none to drop. */
  lemma {:induction false} AllTwice(nodes: seq<Node>)
    ensures DropAll(DropAll(nodes)) == DropAll(nodes) && BlankFree(DropAll(nodes))
    decreases nodes, 0
  {
    hide DropInside, Everywhere.Inside;
    if nodes != [] {
      AllTwice(nodes[1..]);
      InsideTwice(nodes[0]);
      if !(nodes[0].TextNode? && IsBlankText(nodes[0].text)) {
        assert DropAll(nodes)[1..] == DropAll(nodes[1..]);
      }
    }
  }

  lemma {:induction false} InsideTwice(n: Node)
    ensures DropInside(DropInside(n)) == DropInside(n)
    ensures !(n.TextNode? && IsBlankText(n.text)) ==> forall m :: m in Everywhere.Inside(DropInside(n)) ==> !IsBlank(m)
    ensures n.TextNode? <==> DropInside(n).TextNode?
    ensures n.TextNode? ==> DropInside(n) == n
    decreases n, 1
  {
    match n
    case Branch(_, _, list, elseList) =>
      AllTwice(list);
      AllTwice(elseList);
    case Try(list, catchList) =>
      AllTwice(list);
      AllTwice(catchList);
    case _ =>
  }

  /** What dropFromMain leaves is tight. */
  lemma {:induction false} DropListIsTight(fa: Facts, nodes: seq<Node>, before: nat, after: nat)
    ensures CountsTight(fa, Document(DropList(fa, nodes, before, after)), before, after)
    decreases nodes, 0
  {
    hide CountsTight, Count, NodeCount, DropNode, Opened;
    if nodes == [] {
      NothingIsTight(fa, before, after);
    } else {
      var behind := Count(fa, nodes[1..]) + after;
      var rest := DropList(fa, nodes[1..], before + NodeCount(fa, nodes[0]), after);
      DropListIsTight(fa, nodes[1..], before + NodeCount(fa, nodes[0]), after);
      DropListCounts(fa, nodes[1..], before + NodeCount(fa, nodes[0]), after);
      if nodes[0].TextNode? && IsBlankText(nodes[0].text) && (before == 0 || behind == 0) {
        BlankCountsNothing(fa, nodes[0]);
      } else {
        var n' := DropNode(fa, nodes[0], before, behind);
        DropNodeIsTight(fa, nodes[0], before, behind);
        DropNodeCounts(fa, nodes[0], before, behind);
        OpenedCounts(fa, n');
        DocumentCounts(fa, rest);
        TightJoin(fa, Opened(n'), Document(rest), before, after);
        assert ([n'] + rest)[1..] == rest;
      }
    }
  }

  lemma NothingIsTight(fa: Facts, before: nat, after: nat)
    ensures Document([]) == [] && CountsTight(fa, [], before, after)
  {
  }

  lemma {:induction false} DropNodeIsTight(fa: Facts, n: Node, before: nat, after: nat)
    requires n.TextNode? && IsBlankText(n.text) ==> before > 0 && after > 0
    ensures CountsTight(fa, Opened(DropNode(fa, n, before, after)), before, after)
    decreases n, 1
  {
    hide CountsTight, Count, DropNode, DropList, Document, Opened;
    if IsLoop(n) {
      LoopIsTight(fa, n, before, after);
    } else {
      match n
      case Branch(_, pipe, list, elseList) =>
        var inside := before + Bit(AnyPrints(fa, PipeCalls(pipe)));
        DropListIsTight(fa, list, inside, Count(fa, elseList) + after);
        DropListIsTight(fa, elseList, inside + Count(fa, list), after);
        BranchIsTight(fa, n, before, after);
      case Try(list, catchList) =>
        DropListIsTight(fa, list, before, Count(fa, catchList) + after);
        DropListIsTight(fa, catchList, before + Count(fa, list), after);
        TryIsTight(fa, n, before, after);
      case _ => LeafIsTight(fa, n, before, after);
    }
  }

  lemma TryIsTight(fa: Facts, n: Node, before: nat, after: nat)
    requires n.Try?
    requires CountsTight(fa, Document(DropList(fa, n.list, before, Count(fa, n.catchList) + after)), before,
                         Count(fa, n.catchList) + after)
    requires CountsTight(fa, Document(DropList(fa, n.catchList, before + Count(fa, n.list), after)),
                         before + Count(fa, n.list), after)
    ensures CountsTight(fa, Opened(DropNode(fa, n, before, after)), before, after)
  {
    hide CountsTight, Count, DropList, Document;
    var list' := DropList(fa, n.list, before, Count(fa, n.catchList) + after);
    var catch' := DropList(fa, n.catchList, before + Count(fa, n.list), after);
    DropListCounts(fa, n.list, before, Count(fa, n.catchList) + after);
    DropListCounts(fa, n.catchList, before + Count(fa, n.list), after);
    DocumentCounts(fa, list');
    DocumentCounts(fa, catch');
    TightJoin(fa, Document(list'), Document(catch'), before, after);
  }

  lemma LeafIsTight(fa: Facts, n: Node, before: nat, after: nat)
    requires !n.Branch? && !n.Try? && (n.TextNode? && IsBlankText(n.text) ==> before > 0 && after > 0)
    ensures CountsTight(fa, Opened(DropNode(fa, n, before, after)), before, after)
  {
    TightOne(fa, n, before, after);
  }

  lemma LoopIsTight(fa: Facts, n: Node, before: nat, after: nat)
    requires IsLoop(n)
    ensures CountsTight(fa, Opened(DropNode(fa, n, before, after)), before, after)
  {
    hide Count, NodeCount, CountsTight, DropInside;
    var n' := DropNode(fa, n, before, after);
    InsideTwice(n);
    DropNodeCounts(fa, n, before, after);
    assert Everywhere.Nodes([n']) == Everywhere.Inside(n') by { assert [n'][1..] == []; }
    TightOne(fa, n', before, after);
  }

  lemma BranchIsTight(fa: Facts, n: Node, before: nat, after: nat)
    requires n.Branch? && !IsLoop(n)
    requires var inside := before + Bit(AnyPrints(fa, PipeCalls(n.pipe)));
             && CountsTight(fa, Document(DropList(fa, n.list, inside, Count(fa, n.elseList) + after)), inside,
                            Count(fa, n.elseList) + after)
             && CountsTight(fa, Document(DropList(fa, n.elseList, inside + Count(fa, n.list), after)),
                            inside + Count(fa, n.list), after)
    ensures CountsTight(fa, Opened(DropNode(fa, n, before, after)), before, after)
  {
    hide CountsTight, Count, DropList, AnyPrints;
    var own := Bit(AnyPrints(fa, PipeCalls(n.pipe)));
    var inside := before + own;
    var list' := DropList(fa, n.list, inside, Count(fa, n.elseList) + after);
    var else' := DropList(fa, n.elseList, inside + Count(fa, n.list), after);
    DropListCounts(fa, n.list, inside, Count(fa, n.elseList) + after);
    DropListCounts(fa, n.elseList, inside + Count(fa, n.list), after);
    DocumentCounts(fa, list');
    DocumentCounts(fa, else');
    var head := Branch(n.kind, n.pipe, [], []);
    HeadCounts(fa, head);
    TightOne(fa, head, before, Count(fa, n.list) + Count(fa, n.elseList) + after);
    TightJoin(fa, [head], Document(list'), before, Count(fa, n.elseList) + after);
    CountJoin(fa, [head], Document(list'));
    TightJoin(fa, [head] + Document(list'), Document(else'), before, after);
  }

  lemma HeadCounts(fa: Facts, head: Node)
    requires head.Branch? && head.list == [] && head.elseList == []
    ensures Count(fa, [head]) == Bit(AnyPrints(fa, PipeCalls(head.pipe)))
  {
    assert [head][1..] == [];
  }

  /** Tight by count is tight in the words of the trees. */
  lemma TightIff(fa: Facts, doc: seq<Node>)
    requires Agrees(fa) && PrintsLeast(fa) && CountsTight(fa, doc, 0, 0)
    ensures IsTight(fa.trees, doc)
  {
    hide Agrees, PrintsLeast, Count, NodeCount, HasPrinter, BlankFree, IsBlank;
    forall i | 0 <= i < |doc|
      ensures var between := HasPrinter(fa.trees, doc[..i]) && HasPrinter(fa.trees, doc[i + 1..]);
              && (IsBlank(doc[i]) ==> between)
              && (IsLoop(doc[i]) ==> BlankFree([doc[i]]) || HasPrinter(fa.trees, [doc[i]]) || between)
    {
      assert TightAt(fa, doc, i, 0, 0);
      CountIff(fa, doc[..i]);
      CountIff(fa, doc[i + 1..]);
      CountIff(fa, [doc[i]]);
      CountOne(fa, doc[i]);
    }
  }

  lemma CountOne(fa: Facts, n: Node)
    ensures Count(fa, [n]) == NodeCount(fa, n)
  {
    assert [n][1..] == [];
  }

  // ---------------------------------------------------------------- the file

  lemma QuietIff(fa: Facts)
    requires Agrees(fa)
    ensures NothingPrints(fa) <==> IsQuiet(fa.trees)
  {
    hide Agrees, NodesOwn, OwnsPrinter, NodesSends, Everywhere.SentBy;
    forall i | 0 <= i < |fa.trees|
      ensures NodesOwn(fa.containers, fa.trees[i].root) <==> OwnsPrinter(fa.trees, fa.trees[i].root)
      ensures NodesSends(fa.trees[i].root) == Everywhere.SentBy(fa.trees[i].root)
    {
      NodesOwnIff(fa, fa.trees[i].root);
      Everywhere.NodesGathered(fa.trees[i].root);
    }
  }

  lemma OnlyDefinesIff(fa: Facts)
    ensures !KeepMain(fa) && !MainReentrant(fa) <==> OnlyDefinesRun(fa.trees)
  {
    hide NodesSends, NodesCalls, Everywhere.SentBy, Everywhere.Called, IsDefine;
    forall i | 0 <= i < |fa.trees|
      ensures NodesCalls(fa.trees[i].root) == Everywhere.Called(fa.trees[i].root)
      ensures NodesSends(fa.trees[i].root) == Everywhere.SentBy(fa.trees[i].root)
    {
      Everywhere.NodesGathered(fa.trees[i].root);
    }
  }

  lemma QuietSendsNothing(fa: Facts)
    requires NothingPrints(fa)
    ensures !KeepMain(fa)
  {
  }

  lemma QuietRoot(fa: Facts, i: nat)
    requires NothingPrints(fa) && PrintsLeast(fa) && i < |fa.trees|
    ensures DropList(fa, fa.trees[i].root, 0, 0) == DropAll(fa.trees[i].root)
  {
    hide NodesOwn, DropList, DropAll;
    Response.NothingPrintsEmpty(fa);
    Silence.QuietCountsZero(fa, fa.trees[i].root);
    Response.SilentDropList(fa, fa.trees[i].root);
  }

  lemma TreeIsTidied(fa: Facts, i: nat)
    requires Agrees(fa) && PrintsLeast(fa) && i < |fa.trees|
    ensures TreeTidied(fa.trees, fa.trees[i], DropTree(fa, fa.trees[i]))
  {
    hide Agrees, PrintsLeast, NothingPrints, KeepMain, MainReentrant, IsQuiet, OnlyDefinesRun, DropList, DropAll,
      CountsTight,
      IsTight, BlankFree, Document;
    var root := fa.trees[i].root;
    QuietIff(fa);
    OnlyDefinesIff(fa);
    AllTwice(root);
    DropListCounts(fa, root, 0, 0);
    DropListIsTight(fa, root, 0, 0);
    TightIff(fa, Document(DropList(fa, root, 0, 0)));
    if NothingPrints(fa) {
      QuietSendsNothing(fa);
      QuietRoot(fa, i);
    }
  }

  /** dropWhitespace, in the words of the trees. */
  lemma DroppingTidies(fa: Facts)
    requires IsAnalysis(fa)
    ensures Tidied(fa.trees, DropTrees(fa, fa.trees))
  {
    hide TreeTidied, DropTree, PrintsLeast, IsContainerSet;
    ContainersAreBuilt(fa);
    DropTreesAt(fa, fa.trees);
    forall i | 0 <= i < |fa.trees| ensures TreeTidied(fa.trees, fa.trees[i], DropTree(fa, fa.trees[i])) {
      TreeIsTidied(fa, i);
    }
  }
}
