/** yagmin's renaming (minify.go, renamer.apply): the first identifier of every variable is replaced through
    one map, and the bare `$` never is. What is known of one step over a renamed stack: lookups, assignments,
    bindings and a range's own writes to the top. */
module Renaming {
  import opened Basics
  import opened Syntax
  import opened Interp

  type Names = map<string, string>

  function NewName(m: Names, name: string): string {
    if name in m then m[name] else name
  }

  function RenameDecl(m: Names, decl: seq<string>): seq<string> {
    if decl == [] then [] else [NewName(m, decl[0])] + RenameDecl(m, decl[1..])
  }

  function RenameArg(m: Names, a: Arg): Arg {
    match a
    case Var(name, path) => Var(NewName(m, name), path)
    case Paren(pipe) => Paren(RenamePipe(m, pipe))
    case Chain(node, path) => Chain(RenameArg(m, node), path)
    case _ => a
  }

  function RenameArgs(m: Names, args: seq<Arg>): seq<Arg> {
    if args == [] then [] else [RenameArg(m, args[0])] + RenameArgs(m, args[1..])
  }

  function RenameCommands(m: Names, cmds: seq<Command>): seq<Command> {
    if cmds == [] then [] else [Command(RenameArgs(m, cmds[0].args))] + RenameCommands(m, cmds[1..])
  }

  function RenamePipe(m: Names, p: Pipe): Pipe {
    Pipe(p.isAssign, RenameDecl(m, p.decl), RenameCommands(m, p.cmds))
  }

  function RenamePipes(m: Names, ps: seq<Pipe>): seq<Pipe> {
    if ps == [] then [] else [RenamePipe(m, ps[0])] + RenamePipes(m, ps[1..])
  }

  function RenameNode(m: Names, n: Node): Node {
    match n
    case TextNode(_) => n
    case Action(pipe) => Action(RenamePipe(m, pipe))
    case Branch(kind, pipe, list, elseList) =>
      Branch(kind, RenamePipe(m, pipe), RenameNodes(m, list), RenameNodes(m, elseList))
    case Try(list, catchList) => Try(RenameNodes(m, list), RenameNodes(m, catchList))
    case Return(pipes) => Return(RenamePipes(m, pipes))
    case Template(name, pipes) => Template(name, RenamePipes(m, pipes))
    case Break => n
    case Continue => n
  }

  function RenameNodes(m: Names, nodes: seq<Node>): seq<Node> {
    if nodes == [] then [] else [RenameNode(m, nodes[0])] + RenameNodes(m, nodes[1..])
  }

  function RenameAll(m: Names, trees: seq<Tree>): seq<Tree> {
    if trees == [] then []
    else [trees[0].(root := RenameNodes(m, trees[0].root))] + RenameAll(m, trees[1..])
  }

  // ---------------------------------------------------------------- the names a tree uses

  /** Every variable a pipe names, in walkNodes' order: declarations, then the commands. */
  function ArgNames(a: Arg): seq<string> {
    match a
    case Var(name, _) => [name]
    case Paren(pipe) => PipeNames(pipe)
    case Chain(node, _) => ArgNames(node)
    case _ => []
  }

  function ArgsNames(args: seq<Arg>): seq<string> {
    if args == [] then [] else ArgNames(args[0]) + ArgsNames(args[1..])
  }

  function CommandsNames(cmds: seq<Command>): seq<string> {
    if cmds == [] then [] else ArgsNames(cmds[0].args) + CommandsNames(cmds[1..])
  }

  function PipeNames(p: Pipe): seq<string> {
    p.decl + CommandsNames(p.cmds)
  }

  function PipesNames(ps: seq<Pipe>): seq<string> {
    if ps == [] then [] else PipeNames(ps[0]) + PipesNames(ps[1..])
  }

  function NodeNames(n: Node): seq<string> {
    match n
    case Action(pipe) => PipeNames(pipe)
    case Branch(_, pipe, list, elseList) => PipeNames(pipe) + NodesNames(list) + NodesNames(elseList)
    case Try(list, catchList) => NodesNames(list) + NodesNames(catchList)
    case Return(pipes) => PipesNames(pipes)
    case Template(_, pipes) => PipesNames(pipes)
    case _ => []
  }

  function NodesNames(nodes: seq<Node>): seq<string> {
    if nodes == [] then [] else NodeNames(nodes[0]) + NodesNames(nodes[1..])
  }

  /** Every use of a variable in a file, in the order newRenamer counts them. */
  function TreesNames(trees: seq<Tree>): seq<string> {
    if trees == [] then [] else NodesNames(trees[0].root) + TreesNames(trees[1..])
  }

  // ---------------------------------------------------------------- the map

  /** An injective map that leaves `$` alone and gives its name to no other variable. */
  predicate Faithful(m: Names) {
    && "$" !in m.Keys
    && (forall x :: x in m ==> m[x] != "$")
    && forall x, y :: x in m && y in m && m[x] == m[y] ==> x == y
  }

  predicate KnownNames(m: Names, names: seq<string>) {
    forall i :: 0 <= i < |names| ==> names[i] in m || names[i] == "$"
  }

  predicate KnownVars(m: Names, vars: seq<Binding>) {
    forall i :: 0 <= i < |vars| ==> vars[i].name in m || vars[i].name == "$"
  }

  function RenameVars(m: Names, vars: seq<Binding>): (r: seq<Binding>)
    ensures |r| == |vars|
    ensures forall i :: 0 <= i < |r| ==> r[i] == Binding(NewName(m, vars[i].name), vars[i].value)
  {
    seq(|vars|, i requires 0 <= i < |vars| => Binding(NewName(m, vars[i].name), vars[i].value))
  }

  function RenameState(m: Names, st: State): State {
    st.(vars := RenameVars(m, st.vars))
  }

  function RenameStep<T>(m: Names, r: Step<T>): Step<T> {
    r.(st := RenameState(m, r.st))
  }

  /** What a renamed run keeps: the same end, effects and output, on the renamed variables. */
  ghost predicate Mirrors<T>(m: Names, r: Step<T>, r': Step<T>) {
    r' == RenameStep(m, r) && KnownVars(m, r.st.vars)
  }

  ghost predicate RenamedFile(m: Names, c: Context, c': Context) {
    && Faithful(m)
    && KnownNames(m, TreesNames(c.trees))
    && c' == c.(trees := RenameAll(m, c.trees))
  }

  // ---------------------------------------------------------------- the variable stack

  lemma NewNameInjective(m: Names, x: string, y: string)
    requires Faithful(m)
    requires x in m || x == "$"
    requires y in m || y == "$"
    ensures NewName(m, x) == NewName(m, y) <==> x == y
  {
  }

  lemma {:induction false} VarValueRenamed(m: Names, vars: seq<Binding>, name: string)
    requires Faithful(m) && KnownVars(m, vars) && (name in m || name == "$")
    ensures VarValue(RenameVars(m, vars), NewName(m, name)) == VarValue(vars, name)
  {
    if vars != [] {
      var n := |vars| - 1;
      NewNameInjective(m, vars[n].name, name);
      assert RenameVars(m, vars)[..n] == RenameVars(m, vars[..n]);
      VarValueRenamed(m, vars[..n], name);
    }
  }

  lemma RenameVarsSnoc(m: Names, vars: seq<Binding>, b: Binding)
    ensures RenameVars(m, vars + [b]) == RenameVars(m, vars) + [Binding(NewName(m, b.name), b.value)]
  {
  }

  lemma {:induction false} SetVarRenamed(m: Names, vars: seq<Binding>, name: string, v: Value)
    requires Faithful(m) && KnownVars(m, vars) && (name in m || name == "$")
    ensures SetVar(vars, name, v).None? ==> SetVar(RenameVars(m, vars), NewName(m, name), v) == None
    ensures SetVar(vars, name, v).Some? ==>
              var vars' := SetVar(vars, name, v).value;
              && SetVar(RenameVars(m, vars), NewName(m, name), v) == Some(RenameVars(m, vars'))
              && KnownVars(m, vars')
  {
    if vars != [] {
      var n := |vars| - 1;
      var renamed := RenameVars(m, vars);
      NewNameInjective(m, vars[n].name, name);
      assert renamed[..n] == RenameVars(m, vars[..n]);
      if vars[n].name == name {
        assert RenameVars(m, vars[n := Binding(name, v)]) == renamed[n := Binding(NewName(m, name), v)];
      } else {
        SetVarRenamed(m, vars[..n], name, v);
        var inner := SetVar(vars[..n], name, v);
        if inner.Some? {
          RenameVarsSnoc(m, inner.value, vars[n]);
          KnownSnoc(m, inner.value, vars[n]);
        }
      }
    }
  }

  lemma KnownSnoc(m: Names, vars: seq<Binding>, b: Binding)
    requires KnownVars(m, vars) && (b.name in m || b.name == "$")
    ensures KnownVars(m, vars + [b])
  {
  }

  lemma {:induction false} BindRenamed(m: Names, isAssign: bool, decl: seq<string>, v: Value, vars: seq<Binding>)
    requires Faithful(m) && KnownVars(m, vars) && KnownNames(m, decl)
    ensures match Bind(isAssign, decl, v, vars)
            case None => Bind(isAssign, RenameDecl(m, decl), v, RenameVars(m, vars)) == None
            case Some(vars') =>
              && Bind(isAssign, RenameDecl(m, decl), v, RenameVars(m, vars)) == Some(RenameVars(m, vars'))
              && KnownVars(m, vars')
  {
    if decl != [] {
      assert RenameDecl(m, decl)[1..] == RenameDecl(m, decl[1..]);
      assert decl[0] in m || decl[0] == "$";
      if isAssign {
        SetVarRenamed(m, vars, decl[0], v);
        match SetVar(vars, decl[0], v)
        case None =>
        case Some(vars') => BindRenamed(m, isAssign, decl[1..], v, vars');
      } else {
        var b := Binding(decl[0], v);
        assert RenameVars(m, vars + [b]) == RenameVars(m, vars) + [Binding(NewName(m, decl[0]), v)];
        BindRenamed(m, isAssign, decl[1..], v, vars + [b]);
      }
    }
  }

  lemma {:induction false} RenameDeclLength(m: Names, decl: seq<string>)
    ensures |RenameDecl(m, decl)| == |decl|
  {
    if decl != [] {
      RenameDeclLength(m, decl[1..]);
    }
  }

  lemma SetTopsRenamed(m: Names, decl: seq<string>, index: Value, elem: Value, vars: seq<Binding>)
    requires KnownVars(m, vars)
    ensures match SetTops(decl, index, elem, vars)
            case None => SetTops(RenameDecl(m, decl), index, elem, RenameVars(m, vars)) == None
            case Some(vars') =>
              && SetTops(RenameDecl(m, decl), index, elem, RenameVars(m, vars)) == Some(RenameVars(m, vars'))
              && KnownVars(m, vars')
  {
    RenameDeclLength(m, decl);
    match SetTops(decl, index, elem, vars)
    case None =>
    case Some(vars') =>
      assert SetTops(RenameDecl(m, decl), index, elem, RenameVars(m, vars)).value == RenameVars(m, vars');
  }

  lemma PopRenamed<T>(m: Names, mark: nat, r: Step<T>)
    requires KnownVars(m, r.st.vars)
    ensures Mirrors(m, PopTo(mark, r), PopTo(mark, RenameStep(m, r)))
  {
    assert Pop(RenameVars(m, r.st.vars), mark) == RenameVars(m, Pop(r.st.vars, mark));
  }

  lemma {:induction false} LookupRenamed(m: Names, trees: seq<Tree>, name: string)
    requires KnownNames(m, TreesNames(trees))
    ensures match FindDefine(trees, name)
            case None => FindDefine(RenameAll(m, trees), name) == None
            case Some(root) =>
              && FindDefine(RenameAll(m, trees), name) == Some(RenameNodes(m, root))
              && KnownNames(m, NodesNames(root))
    ensures match FindMain(trees)
            case None => FindMain(RenameAll(m, trees)) == None
            case Some(root) =>
              && FindMain(RenameAll(m, trees)) == Some(RenameNodes(m, root))
              && KnownNames(m, NodesNames(root))
  {
    if trees != [] {
      var rest := RenameAll(m, trees)[1..];
      assert rest == RenameAll(m, trees[1..]);
      var names := NodesNames(trees[0].root) + TreesNames(trees[1..]);
      KnownSplit(m, NodesNames(trees[0].root), TreesNames(trees[1..]));
      LookupRenamed(m, trees[1..], name);
    }
  }

  lemma KnownSplit(m: Names, a: seq<string>, b: seq<string>)
    requires KnownNames(m, a + b)
    ensures KnownNames(m, a) && KnownNames(m, b)
  {
    forall i | 0 <= i < |a| ensures a[i] in m || a[i] == "$" { assert (a + b)[i] == a[i]; }
    forall i | 0 <= i < |b| ensures b[i] in m || b[i] == "$" { assert (a + b)[|a| + i] == b[i]; }
  }
}
