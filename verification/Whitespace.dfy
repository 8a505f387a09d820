/** yagmin's whitespace pass (whitespace.go): what it learns about a file, and which text nodes
    it deletes. */
module Whitespace {
  import opened Blank
  import opened Syntax
  import opened Interp

  predicate IsSilentFunc(name: string) {
    name in {"sendMessage", "sendResponse", "sendModal", "editMessage", "deleteMessage", "deleteTrigger",
             "deleteResponse", "execCC", "dbSet", "dbSetExpire", "dbDel", "dbDelById"}
  }

  predicate IsSilentMethod(name: string) {
    name in {"Set", "Del"}
  }

  predicate IsConstructor(name: string) {
    name in {"dict", "sdict", "cslice"}
  }

  /** allDefines: a template name that is not a literal. */
  const ANY_TREE := "*"

  /** The tree an execTemplate or a sender runs: the literal at that argument, or any. */
  function LiteralAt(args: seq<Arg>, i: nat): string {
    if i < |args| && args[i].Str? then args[i].text else ANY_TREE
  }

  function ExecCallees(cmd: Command): set<string> {
    if cmd.args != [] && cmd.args[0] == Ident(EXEC_TEMPLATE) then {LiteralAt(cmd.args, 1)} else {}
  }

  function SentCallees(cmd: Command): set<string> {
    if cmd.args != [] && cmd.args[0].Ident? && IsSender(cmd.args[0].name)
    then {LiteralAt(cmd.args, SenderIndex(cmd.args[0].name) + 1)} else {}
  }

  // ---------------------------------------------------------------- template names in a tree

  function ArgCalls(a: Arg): set<string> {
    match a
    case Paren(pipe) => PipeCalls(pipe)
    case Chain(node, _) => ArgCalls(node)
    case _ => {}
  }

  function ArgsCalls(args: seq<Arg>): set<string> {
    if args == [] then {} else ArgCalls(args[0]) + ArgsCalls(args[1..])
  }

  function CommandsCalls(cmds: seq<Command>): set<string> {
    if cmds == [] then {} else ExecCallees(cmds[0]) + ArgsCalls(cmds[0].args) + CommandsCalls(cmds[1..])
  }

  function PipeCalls(p: Pipe): set<string> {
    CommandsCalls(p.cmds)
  }

  function PipesCalls(ps: seq<Pipe>): set<string> {
    if ps == [] then {} else PipeCalls(ps[0]) + PipesCalls(ps[1..])
  }

  /** Every tree a node list may run, by {{template}} or execTemplate. */
  function NodeCalls(n: Node): set<string> {
    match n
    case Action(pipe) => PipeCalls(pipe)
    case Branch(_, pipe, list, elseList) => PipeCalls(pipe) + NodesCalls(list) + NodesCalls(elseList)
    case Try(list, catchList) => NodesCalls(list) + NodesCalls(catchList)
    case Return(pipes) => PipesCalls(pipes)
    case Template(name, pipes) => {name} + PipesCalls(pipes)
    case _ => {}
  }

  function NodesCalls(nodes: seq<Node>): set<string> {
    if nodes == [] then {} else NodeCalls(nodes[0]) + NodesCalls(nodes[1..])
  }

  function ArgSends(a: Arg): set<string> {
    match a
    case Paren(pipe) => PipeSends(pipe)
    case Chain(node, _) => ArgSends(node)
    case _ => {}
  }

  function ArgsSends(args: seq<Arg>): set<string> {
    if args == [] then {} else ArgSends(args[0]) + ArgsSends(args[1..])
  }

  function CommandsSends(cmds: seq<Command>): set<string> {
    if cmds == [] then {} else SentCallees(cmds[0]) + ArgsSends(cmds[0].args) + CommandsSends(cmds[1..])
  }

  function PipeSends(p: Pipe): set<string> {
    CommandsSends(p.cmds)
  }

  function PipesSends(ps: seq<Pipe>): set<string> {
    if ps == [] then {} else PipeSends(ps[0]) + PipesSends(ps[1..])
  }

  /** Every tree a node list may send as a message of its own. */
  function NodeSends(n: Node): set<string> {
    match n
    case Action(pipe) => PipeSends(pipe)
    case Branch(_, pipe, list, elseList) => PipeSends(pipe) + NodesSends(list) + NodesSends(elseList)
    case Try(list, catchList) => NodesSends(list) + NodesSends(catchList)
    case Return(pipes) => PipesSends(pipes)
    case Template(_, pipes) => PipesSends(pipes)
    case _ => {}
  }

  function NodesSends(nodes: seq<Node>): set<string> {
    if nodes == [] then {} else NodeSends(nodes[0]) + NodesSends(nodes[1..])
  }

  // ---------------------------------------------------------------- container variables

  /** isConstructorPipe: the value is a constructor's, through parentheses. */
  predicate IsConstructorPipe(p: Pipe) {
    p.cmds != [] &&
    var last := p.cmds[|p.cmds| - 1];
    last.args != [] &&
    match last.args[0]
    case Ident(name) => IsConstructor(name)
    case Paren(inner) => |last.args| == 1 && IsConstructorPipe(inner)
    case _ => false
  }

  /** One binding of a variable: its name, and whether what it is given is a constructor's value. */
  datatype Bound = Bound(name: string, constructed: bool)

  function Bounds(decl: seq<string>, constructed: bool): seq<Bound> {
    if decl == [] then [] else [Bound(decl[0], constructed)] + Bounds(decl[1..], constructed)
  }

  function ArgBounds(a: Arg): seq<Bound> {
    match a
    case Paren(pipe) => PipeBounds(pipe)
    case Chain(node, _) => ArgBounds(node)
    case _ => []
  }

  function ArgsBounds(args: seq<Arg>): seq<Bound> {
    if args == [] then [] else ArgBounds(args[0]) + ArgsBounds(args[1..])
  }

  function CommandsBounds(cmds: seq<Command>): seq<Bound> {
    if cmds == [] then [] else ArgsBounds(cmds[0].args) + CommandsBounds(cmds[1..])
  }

  function PipeBounds(p: Pipe): seq<Bound> {
    Bounds(p.decl, IsConstructorPipe(p)) + CommandsBounds(p.cmds)
  }

  function PipesBounds(ps: seq<Pipe>): seq<Bound> {
    if ps == [] then [] else PipeBounds(ps[0]) + PipesBounds(ps[1..])
  }

  /** Every binding under a node, as eachNode visits them: a range binds its elements. */
  function NodeBounds(n: Node): seq<Bound> {
    match n
    case Action(pipe) => PipeBounds(pipe)
    case Branch(kind, pipe, list, elseList) =>
      var elements := if kind == Range then Bounds(pipe.decl, false) else [];
      elements + PipeBounds(pipe) + NodesBounds(list) + NodesBounds(elseList)
    case Try(list, catchList) => NodesBounds(list) + NodesBounds(catchList)
    case Return(pipes) => PipesBounds(pipes)
    case Template(_, pipes) => PipesBounds(pipes)
    case _ => []
  }

  function NodesBounds(nodes: seq<Node>): seq<Bound> {
    if nodes == [] then [] else NodeBounds(nodes[0]) + NodesBounds(nodes[1..])
  }

  function TreesBounds(trees: seq<Tree>): seq<Bound> {
    if trees == [] then [] else NodesBounds(trees[0].root) + TreesBounds(trees[1..])
  }

  /** A set of container variables is right for some bindings when every one of them gives its
      members a constructor's value; `$` is bound to the dot, so it is never a member. */
  predicate BindsOnly(containers: set<string>, bounds: seq<Bound>) {
    && "$" !in containers
    && forall i :: 0 <= i < |bounds| && bounds[i].name in containers ==> bounds[i].constructed
  }

  predicate BoundSomewhere(containers: set<string>, bounds: seq<Bound>) {
    forall x :: x in containers ==> exists i :: 0 <= i < |bounds| && bounds[i].name == x
  }

  /** No variable that constructors alone bind is left out. */
  ghost predicate IsContainerSet(containers: set<string>, bounds: seq<Bound>) {
    && BindsOnly(containers, bounds)
    && forall i :: 0 <= i < |bounds| && bounds[i].name != "$"
         && (forall j :: 0 <= j < |bounds| && bounds[j].name == bounds[i].name ==> bounds[j].constructed)
         ==> bounds[i].name in containers
  }

  // ---------------------------------------------------------------- what may print

  /** What the pass knows: the trees, the container variables, and the trees that may print. */
  datatype Facts = Facts(trees: seq<Tree>, containers: set<string>, prints: set<string>)

  /** calleePrints: a define answers for itself, any other name for every tree. */
  predicate CalleePrints(fa: Facts, name: string) {
    if name != ANY_TREE && IsDefine(fa.trees, name) then name in fa.prints
    else exists i :: 0 <= i < |fa.trees| && fa.trees[i].name in fa.prints
  }

  predicate AnyPrints(fa: Facts, names: set<string>) {
    exists name :: name in names && CalleePrints(fa, name)
  }

  /** silentPipe: an action on this pipe prints "". */
  predicate IsSilentPipe(containers: set<string>, p: Pipe) {
    |p.cmds| == 1 && p.cmds[0].args != [] &&
    match p.cmds[0].args[0]
    case Ident(name) => IsSilentFunc(name)
    case Var(name, path) => |path| == 1 && IsSilentMethod(path[0]) && name in containers
    case _ => false
  }

  predicate ActionPrints(containers: set<string>, p: Pipe) {
    p.decl == [] && !IsSilentPipe(containers, p)
  }

  predicate IsBlankText(text: string) {
    text != "" && AllBlank(text)
  }

  /** A tree's own printers, wherever they stand in it. */
  predicate NodeOwns(containers: set<string>, n: Node) {
    match n
    case TextNode(text) => !AllBlank(text)
    case Action(pipe) => ActionPrints(containers, pipe)
    case Branch(_, _, list, elseList) => NodesOwn(containers, list) || NodesOwn(containers, elseList)
    case Try(list, catchList) => NodesOwn(containers, list) || NodesOwn(containers, catchList)
    case _ => false
  }

  predicate NodesOwn(containers: set<string>, nodes: seq<Node>) {
    nodes != [] && (NodeOwns(containers, nodes[0]) || NodesOwn(containers, nodes[1..]))
  }

  /** The set of printing trees is closed: an own printer, or a call to a printing tree, is in it. */
  predicate PrintsClosed(fa: Facts) {
    forall i :: 0 <= i < |fa.trees|
      && (NodesOwn(fa.containers, fa.trees[i].root) || AnyPrints(fa, NodesCalls(fa.trees[i].root)))
      ==> fa.trees[i].name in fa.prints
  }

  /** The least such set is what analyzeWhitespace computes. */
  ghost predicate PrintsLeast(fa: Facts) {
    PrintsClosed(fa) && forall s: set<string> :: PrintsClosed(fa.(prints := s)) ==> fa.prints <= s
  }

  // ---------------------------------------------------------------- printers in document order

  function Bit(b: bool): nat {
    if b then 1 else 0
  }

  /** How many printer events the linearizer records for a node. */
  function NodeCount(fa: Facts, n: Node): nat {
    match n
    case TextNode(text) => Bit(!AllBlank(text))
    case Action(pipe) => Bit(AnyPrints(fa, PipeCalls(pipe)) || ActionPrints(fa.containers, pipe))
    case Branch(_, pipe, list, elseList) =>
      Bit(AnyPrints(fa, PipeCalls(pipe))) + Count(fa, list) + Count(fa, elseList)
    case Try(list, catchList) => Count(fa, list) + Count(fa, catchList)
    case Return(pipes) => Bit(AnyPrints(fa, PipesCalls(pipes)))
    case Template(name, pipes) => Bit(AnyPrints(fa, PipesCalls(pipes)) || CalleePrints(fa, name))
    case Break => 0
    case Continue => 0
  }

  function Count(fa: Facts, nodes: seq<Node>): nat {
    if nodes == [] then 0 else NodeCount(fa, nodes[0]) + Count(fa, nodes[1..])
  }

  // ---------------------------------------------------------------- deletion

  /** dropAllWhitespace. */
  function DropAll(nodes: seq<Node>): seq<Node> {
    if nodes == [] then []
    else if nodes[0].TextNode? && IsBlankText(nodes[0].text) then DropAll(nodes[1..])
    else [DropInside(nodes[0])] + DropAll(nodes[1..])
  }

  function DropInside(n: Node): Node {
    match n
    case Branch(kind, pipe, list, elseList) => Branch(kind, pipe, DropAll(list), DropAll(elseList))
    case Try(list, catchList) => Try(DropAll(list), DropAll(catchList))
    case _ => n
  }

  predicate IsLoop(n: Node) {
    n.Branch? && (n.kind == Range || n.kind == While)
  }

  /** dropFromMain on a list with `before` printers ahead of it and `after` behind it: a blank text
      goes when nothing before it prints or nothing after it does. An outermost loop is one place:
      all its blanks go, or none. */
  function DropList(fa: Facts, nodes: seq<Node>, before: nat, after: nat): seq<Node>
    decreases nodes, 0
  {
    if nodes == [] then []
    else
      var behind := Count(fa, nodes[1..]) + after;
      var rest := DropList(fa, nodes[1..], before + NodeCount(fa, nodes[0]), after);
      var drop := nodes[0].TextNode? && IsBlankText(nodes[0].text) && (before == 0 || behind == 0);
      if drop then rest else [DropNode(fa, nodes[0], before, behind)] + rest
  }

  function DropNode(fa: Facts, n: Node, before: nat, after: nat): Node
    decreases n, 1
  {
    if IsLoop(n) then
      if NodeCount(fa, n) == 0 && (before == 0 || after == 0) then DropInside(n) else n
    else
      match n
      case Branch(kind, pipe, list, elseList) =>
        var inside := before + Bit(AnyPrints(fa, PipeCalls(pipe)));
        Branch(kind, pipe,
               DropList(fa, list, inside, Count(fa, elseList) + after),
               DropList(fa, elseList, inside + Count(fa, list), after))
      case Try(list, catchList) =>
        Try(DropList(fa, list, before, Count(fa, catchList) + after),
            DropList(fa, catchList, before + Count(fa, list), after))
      case _ => n
  }

  lemma BranchDropped(fa: Facts, kind: BranchKind, pipe: Pipe, list: seq<Node>, elseList: seq<Node>, before: nat,
                      after: nat)
    requires kind == If || kind == With
    ensures var inPipe := before + Bit(AnyPrints(fa, PipeCalls(pipe)));
            DropNode(fa, Branch(kind, pipe, list, elseList), before, after)
              == Branch(kind, pipe, DropList(fa, list, inPipe, Count(fa, elseList) + after),
                        DropList(fa, elseList, inPipe + Count(fa, list), after))
  {
  }

  // ---------------------------------------------------------------- the whole pass

  predicate AnyOwns(fa: Facts) {
    exists i :: 0 <= i < |fa.trees| && NodesOwn(fa.containers, fa.trees[i].root)
  }

  /** keepDefines: some tree may be sent as a message of its own. */
  predicate KeepDefines(fa: Facts) {
    exists i :: 0 <= i < |fa.trees| && NodesSends(fa.trees[i].root) != {}
  }

  predicate OnlyDefines(trees: seq<Tree>, names: set<string>) {
    forall name :: name in names ==> IsDefine(trees, name)
  }

  /** keepMain: what is sent may be the main tree. */
  predicate KeepMain(fa: Facts) {
    exists i :: 0 <= i < |fa.trees| && !OnlyDefines(fa.trees, NodesSends(fa.trees[i].root))
  }

  /** mainReentrant: a call may run the main tree. */
  predicate MainReentrant(fa: Facts) {
    exists i :: 0 <= i < |fa.trees| && !OnlyDefines(fa.trees, NodesCalls(fa.trees[i].root))
  }

  predicate NothingPrints(fa: Facts) {
    !AnyOwns(fa) && !KeepDefines(fa)
  }

  /** dropWhitespace, for one tree of the file. */
  function DropTree(fa: Facts, t: Tree): Tree {
    if !t.isMain then if NothingPrints(fa) then t.(root := DropAll(t.root)) else t
    else if KeepMain(fa) then t
    else if MainReentrant(fa) then if NothingPrints(fa) then t.(root := DropAll(t.root)) else t
    else t.(root := DropList(fa, t.root, 0, 0))
  }

  function DropTrees(fa: Facts, trees: seq<Tree>): seq<Tree> {
    if trees == [] then [] else [DropTree(fa, trees[0])] + DropTrees(fa, trees[1..])
  }

  lemma {:induction false} DropTreesAt(fa: Facts, trees: seq<Tree>)
    ensures |DropTrees(fa, trees)| == |trees|
    ensures forall i :: 0 <= i < |trees| ==> DropTrees(fa, trees)[i] == DropTree(fa, trees[i])
  {
    if trees != [] {
      DropTreesAt(fa, trees[1..]);
    }
  }
}
