/** The template engine (yagtemplate/exec.go): how a run walks the trees, binds variables, calls functions,
    writes its output and stops on an error. The oracle answers for everything outside the template, and
    every step may be the last: the operation budget is part of the state. */
module Interp {
  import opened Basics
  import opened Syntax

  datatype Callee = Func(name: string) | Method(recv: Value, name: string)

  /** What a run does to the world: every call with its arguments, and every define sent as a
      message of its own with the text it printed. */
  datatype Event =
    | Called(callee: Callee, args: seq<Value>, inTry: bool)
    | Sent(name: string, dot: Value, text: string, finished: bool)

  datatype Outcome = Returns(value: Value) | Errors(err: Value, catchable: bool)

  datatype Member = IsMethod | IsField(value: Value) | NoMember

  /** The world a run meets: each answer may depend on everything the run has done so far. */
  datatype Oracle = Oracle(
    call: (seq<Event>, Callee, seq<Value>, bool) -> Outcome,
    arity: (Callee, nat) -> bool,
    accepts: (Callee, nat, Value) -> bool,
    member: (seq<Event>, Value, string) -> Member,
    truth: (seq<Event>, Value) -> Option<bool>,
    keys: (seq<Event>, Value) -> Option<seq<Value>>,
    elem: (seq<Event>, Value, Value) -> Option<Value>,
    show: (seq<Event>, Value) -> Option<string>)

  datatype Binding = Binding(name: string, value: Value)

  /** The variable stack, the effects so far and the operations left (MaxOps). */
  datatype State = State(vars: seq<Binding>, hist: seq<Event>, ops: nat)

  /** Where a walk is: its dot, whether it is inside a try, and the depth of nested templates. */
  datatype Frame = Frame(dot: Value, inTry: bool, depth: nat)

  datatype Signal = Next | StopLoop | NextLoop | Ret(value: Value)

  /** An error a try may catch unwinds as `Thrown`; any other ends the run. */
  datatype End<T> = Ok(value: T) | Thrown(err: Value) | Fatal

  /** A step's result, with the text it wrote. */
  datatype Step<T> = Step(end: End<T>, st: State, out: string)

  /** What an operand stands for before its arguments are looked at. */
  datatype Target = Plain(value: Value) | Callable(callee: Callee) | Absent

  /** A file's trees, the name the engine gives the command's own tree, and the world. */
  datatype Context = Context(trees: seq<Tree>, runName: string, oracle: Oracle)

  const MAX_EXEC_DEPTH: nat := 100000
  const MAX_STRING_LENGTH: nat := 1000000

  /** maxStringLength, in bytes: a command, a call or a range element with a longer string ends the run. */
  predicate TooLong(v: Value) {
    v.Text? && |v.s| > MAX_STRING_LENGTH
  }

  function FindDefine(trees: seq<Tree>, name: string): Option<seq<Node>> {
    if trees == [] then None
    else if !trees[0].isMain && trees[0].name == name then Some(trees[0].root)
    else FindDefine(trees[1..], name)
  }

  function FindMain(trees: seq<Tree>): Option<seq<Node>> {
    if trees == [] then None
    else if trees[0].isMain then Some(trees[0].root)
    else FindMain(trees[1..])
  }

  /** The tree a template name runs. */
  function Lookup(c: Context, name: string): Option<seq<Node>> {
    match FindDefine(c.trees, name)
    case Some(root) => Some(root)
    case None => if name == c.runName then FindMain(c.trees) else None
  }

  // ---------------------------------------------------------------- the variable stack

  function Pop(vars: seq<Binding>, mark: nat): seq<Binding> {
    if mark <= |vars| then vars[..mark] else vars
  }

  function VarValue(vars: seq<Binding>, name: string): Option<Value> {
    if vars == [] then None
    else if vars[|vars| - 1].name == name then Some(vars[|vars| - 1].value)
    else VarValue(vars[..|vars| - 1], name)
  }

  /** setVar: the innermost variable of that name takes the value. */
  function SetVar(vars: seq<Binding>, name: string, v: Value): Option<seq<Binding>> {
    if vars == [] then None
    else
      var last := |vars| - 1;
      if vars[last].name == name then Some(vars[last := Binding(name, v)])
      else
        match SetVar(vars[..last], name, v)
        case Some(below) => Some(below + [vars[last]])
        case None => None
  }

  /** What a pipeline's declarations do with its value. */
  function Bind(isAssign: bool, decl: seq<string>, v: Value, vars: seq<Binding>): Option<seq<Binding>> {
    if decl == [] then Some(vars)
    else if isAssign then
      match SetVar(vars, decl[0], v)
      case Some(vars') => Bind(isAssign, decl[1..], v, vars')
      case None => None
    else Bind(isAssign, decl[1..], v, vars + [Binding(decl[0], v)])
  }

  /** setTopVar for each of a range's variables: the top of the stack takes the element, the one
      below it the index, whatever variables they are. */
  function SetTops(decl: seq<string>, index: Value, elem: Value, vars: seq<Binding>): Option<seq<Binding>> {
    var n := |vars|;
    if |decl| == 0 then Some(vars)
    else if n == 0 then None
    else
      var vars' := vars[n - 1 := vars[n - 1].(value := elem)];
      if |decl| == 1 then Some(vars')
      else if n == 1 then None
      else Some(vars'[n - 2 := vars'[n - 2].(value := index)])
  }

  // ---------------------------------------------------------------- calls

  function Done<T>(v: T, st: State): Step<T> {
    Step(Ok(v), st, "")
  }

  function Stop<T>(st: State): Step<T> {
    Step(Fatal, st, "")
  }

  /** incrOPs: the run ends once it is out of operations. */
  predicate CanSpend(n: nat, st: State) {
    n <= st.ops
  }

  function Spend(n: nat, st: State): State
    requires CanSpend(n, st)
  {
    st.(ops := st.ops - n)
  }

  /** safeCall: the function's error is thrown to an enclosing try, or ends the run. */
  function CallOracle(c: Context, callee: Callee, args: seq<Value>, inTry: bool, st: State): Step<Value> {
    var st' := st.(hist := st.hist + [Called(callee, args, inTry)]);
    match c.oracle.call(st.hist, callee, args, inTry)
    case Returns(v) => if TooLong(v) then Stop(st') else Done(v, st')
    case Errors(err, catchable) => Step(if inTry && catchable then Thrown(err) else Fatal, st', "")
  }

  /** evalFieldChain: every field but the last is read without arguments. */
  function EvalPath(c: Context, recv: Value, path: seq<string>, f: Frame, st: State): (r: Step<Target>)
    ensures r.st.ops <= st.ops && r.st.vars == st.vars && r.out == ""
    decreases path
  {
    if path == [] then Done(Plain(recv), st)
    else if recv.NoValue? then
      if |path| == 1 then Done(Absent, st) else EvalPath(c, NoValue, path[1..], f, st)
    else
      match c.oracle.member(st.hist, recv, path[0])
      case NoMember => Stop(st)
      case IsField(v) => if |path| == 1 then Done(Plain(v), st) else EvalPath(c, v, path[1..], f, st)
      case IsMethod =>
        var callee := Method(recv, path[0]);
        if |path| == 1 then Done(Callable(callee), st)
        else if !CanSpend(10, st) || !c.oracle.arity(callee, 0) then Stop(st)
        else
          var r := CallOracle(c, callee, [], f.inTry, Spend(10, st));
          match r.end
          case Ok(v) => EvalPath(c, v, path[1..], f, r.st)
          case Thrown(err) => Step(Thrown(err), r.st, "")
          case Fatal => Step(Fatal, r.st, "")
  }

  const EXEC_TEMPLATE := "execTemplate"

  predicate IsSender(name: string) {
    name == "sendTemplate" || name == "sendTemplateDM"
  }

  /** nestedSenders: the argument that names the template. */
  function SenderIndex(name: string): nat {
    if name == "sendTemplate" then 1 else 0
  }

  /** A finished step whose value is dropped, or whose end is carried to another type. */
  function Carry<S, T>(r: Step<S>): Step<T>
    requires !r.end.Ok?
  {
    Step(match r.end case Thrown(err) => Thrown(err) case Fatal => Fatal, r.st, r.out)
  }

  // ---------------------------------------------------------------- evaluation

  /** evalPipeline. */
  function EvalPipe(c: Context, p: Pipe, f: Frame, st: State): (r: Step<Value>)
    ensures r.st.ops <= st.ops
    decreases st.ops, 0, p, 1
  {
    var r := EvalCommands(c, p.cmds, None, f, st);
    if !r.end.Ok? then r
    else
      match Bind(p.isAssign, p.decl, r.end.value, r.st.vars)
      case Some(vars) => r.(st := r.st.(vars := vars))
      case None => r.(end := Fatal)
  }

  /** A pipeline that may be missing, as a return's or a template's may be. */
  function EvalPipes(c: Context, ps: seq<Pipe>, f: Frame, st: State): (r: Step<Value>)
    ensures r.st.ops <= st.ops
    decreases st.ops, 0, ps, 0
  {
    if ps == [] then Done(NoValue, st) else EvalPipe(c, ps[0], f, st)
  }

  /** The commands of a pipeline, each given the value of the one before as its last argument. */
  function EvalCommands(c: Context, cmds: seq<Command>, final: Option<Value>, f: Frame, st: State): (r: Step<Value>)
    ensures r.st.ops <= st.ops
    decreases st.ops, 0, cmds, 0
  {
    if cmds == [] then Done(if final.Some? then final.value else NoValue, st)
    else
      var r := EvalCommand(c, cmds[0], final, f, st);
      if !r.end.Ok? then r
      else if TooLong(r.end.value) then r.(end := Fatal)
      else
        var r' := EvalCommands(c, cmds[1..], Some(r.end.value), f, r.st);
        r'.(out := r.out + r'.out)
  }

  /** evalCommand. */
  function EvalCommand(c: Context, cmd: Command, final: Option<Value>, f: Frame, st: State): (r: Step<Value>)
    ensures r.st.ops <= st.ops
    decreases st.ops, 0, cmd, 0
  {
    if cmd.args == [] || cmd.args[0].Nil? || (cmd.args[0].Paren? && (|cmd.args| > 1 || final.Some?)) then Stop(st)
    else
      var r := Resolve(c, cmd.args[0], f, st);
      if !r.end.Ok? then Carry(r)
      else
        match r.end.value
        case Absent => Step(Ok(NoValue), r.st, r.out)
        case Plain(v) => Step(if |cmd.args| > 1 || final.Some? then Fatal else Ok(v), r.st, r.out)
        case Callable(callee) =>
          if !CanSpend(10, r.st) then Step(Fatal, r.st, r.out)
          else
            var r' := Invoke(c, callee, cmd.args[1..], final, f, Spend(10, r.st));
            r'.(out := r.out + r'.out)
  }

  /** evalArg: an operand without arguments of its own. */
  function EvalArg(c: Context, a: Arg, f: Frame, st: State): (r: Step<Value>)
    ensures r.st.ops <= st.ops
    decreases st.ops, 0, a, 1
  {
    var r := Resolve(c, a, f, st);
    if !r.end.Ok? then Carry(r)
    else
      match r.end.value
      case Absent => Step(Ok(NoValue), r.st, r.out)
      case Plain(v) => Step(Ok(v), r.st, r.out)
      case Callable(callee) =>
        if !CanSpend(10, r.st) then Step(Fatal, r.st, r.out)
        else
          var r' := Invoke(c, callee, [], None, f, Spend(10, r.st));
          r'.(out := r.out + r'.out)
  }

  /** The value or callee an operand stands for. */
  function Resolve(c: Context, a: Arg, f: Frame, st: State): (r: Step<Target>)
    ensures r.st.ops <= st.ops
    decreases st.ops, 0, a, 0
  {
    match a
    case Nil => Done(Plain(NoValue), st)
    case Str(text) => Done(Plain(Text(text)), st)
    case Lit(v) => Done(Plain(v), st)
    case Ident(name) => Done(Callable(Func(name)), st)
    case Field(path) => EvalPath(c, f.dot, path, f, st)
    case Var(name, path) =>
      (match VarValue(st.vars, name)
       case Some(v) => EvalPath(c, v, path, f, st)
       case None => Stop(st))
    case Paren(pipe) =>
      var r := EvalPipe(c, pipe, f, st);
      if r.end.Ok? then Step(Ok(Plain(r.end.value)), r.st, r.out) else Carry(r)
    case Chain(node, path) =>
      if path == [] || node.Nil? then Stop(st)
      else
        var r := EvalArg(c, node, f, st);
        if !r.end.Ok? then Carry(r)
        else
          var r' := EvalPath(c, r.end.value, path, f, r.st);
          r'.(out := r.out + r'.out)
  }

  /** The arguments from position i on, in order; each must suit its parameter. */
  function EvalArgs(c: Context, callee: Callee, i: nat, args: seq<Arg>, f: Frame, st: State): (r: Step<seq<Value>>)
    ensures r.st.ops <= st.ops
    decreases st.ops, 0, args, 0
  {
    if args == [] then Done([], st)
    else
      var r := EvalArg(c, args[0], f, st);
      if !r.end.Ok? then Carry(r)
      else if !c.oracle.accepts(callee, i, r.end.value) then Step(Fatal, r.st, r.out)
      else
        var r' := EvalArgs(c, callee, i + 1, args[1..], f, r.st);
        if !r'.end.Ok? then r'.(out := r.out + r'.out)
        else Step(Ok([r.end.value] + r'.end.value), r'.st, r.out + r'.out)
  }

  /** evalCall, its operations already spent: count the arguments, evaluate them, then call. */
  function Invoke(c: Context, callee: Callee, args: seq<Arg>, final: Option<Value>, f: Frame,
                  st: State): (r: Step<Value>)
    ensures r.st.ops <= st.ops
    decreases st.ops, 3
  {
    var n := |args| + (if final.Some? then 1 else 0);
    if !c.oracle.arity(callee, n) then Stop(st)
    else
      var r := EvalArgs(c, callee, 0, args, f, st);
      if !r.end.Ok? then Carry(r)
      else if final.Some? && !c.oracle.accepts(callee, |args|, final.value) then Step(Fatal, r.st, r.out)
      else
        var values := if final.Some? then r.end.value + [final.value] else r.end.value;
        var r' := CallWith(c, callee, values, f, r.st);
        r'.(out := r.out + r'.out)
  }

  /** The call itself: execTemplate and the senders run a tree, anything else asks the world. */
  function CallWith(c: Context, callee: Callee, args: seq<Value>, f: Frame, st: State): (r: Step<Value>)
    ensures r.st.ops <= st.ops
    decreases st.ops, 2
  {
    if callee == Func(EXEC_TEMPLATE) then ExecTemplate(c, args, f, st)
    else if callee.Func? && IsSender(callee.name) then SendTemplate(c, callee.name, args, f, st)
    else CallOracle(c, callee, args, f.inTry, st)
  }

  /** callExecTemplate: the tree runs on the same output, and what it returns is the value. */
  function ExecTemplate(c: Context, args: seq<Value>, f: Frame, st: State): (r: Step<Value>)
    ensures r.st.ops <= st.ops
    decreases st.ops, 1, 1
  {
    if !CanSpend(100, st) || |args| == 0 || |args| > 2 || !args[0].Text? then Stop(st)
    else
      var dot := if |args| > 1 then args[1] else NoValue;
      var r := RunTree(c, args[0].s, dot, f.inTry, f.depth, Spend(100, st));
      if !r.end.Ok? then Carry(r)
      else
        var v := if r.end.value.Ret? then r.end.value.value else NoValue;
        Step(if TooLong(v) then Fatal else Ok(v), r.st, r.out)
  }

  /** sendTemplate and sendTemplateDM: the tree's output is a message of its own, not part of the
      response, and its errors are the call's. */
  function SendTemplate(c: Context, fn: string, args: seq<Value>, f: Frame, st: State): (r: Step<Value>)
    ensures r.st.ops <= st.ops
    decreases st.ops, 1, 1
  {
    var i := SenderIndex(fn);
    if i < |args| && args[i].Text? then
      var dot := if i + 1 < |args| then args[i + 1] else NoValue;
      var r := RunTree(c, args[i].s, dot, false, 0, st);
      var sent := Sent(args[i].s, dot, r.out, r.end.Ok?);
      CallOracle(c, Func(fn), args, f.inTry, r.st.(hist := r.st.hist + [sent]))
    else CallOracle(c, Func(fn), args, f.inTry, st)
  }

  /** A nested run of the named tree: it inherits no variables but its dot, and leaves the
      caller's alone. */
  function RunTree(c: Context, name: string, dot: Value, inTry: bool, depth: nat, st: State): (r: Step<Signal>)
    ensures r.st.ops <= st.ops
    decreases st.ops, 1, 0
  {
    match Lookup(c, name)
    case None => Stop(st)
    case Some(root) =>
      if depth >= MAX_EXEC_DEPTH then Stop(st)
      else
        var r := WalkList(c, root, Frame(dot, inTry, depth + 1), st.(vars := [Binding("$", dot)]));
        r.(st := r.st.(vars := st.vars))
  }

  // ---------------------------------------------------------------- walking

  function WalkList(c: Context, nodes: seq<Node>, f: Frame, st: State): (r: Step<Signal>)
    ensures r.st.ops <= st.ops
    decreases st.ops, 0, nodes, 0
  {
    if nodes == [] then Done(Next, st)
    else
      var r := WalkNode(c, nodes[0], f, st);
      if r.end != Ok(Next) then r
      else
        var r' := WalkList(c, nodes[1..], f, r.st);
        r'.(out := r.out + r'.out)
  }

  function PopTo<T>(mark: nat, r: Step<T>): (r': Step<T>) {
    r.(st := r.st.(vars := Pop(r.st.vars, mark)))
  }

  /** walk. A try has no pop of its own: walkTry's deferred pop pops nothing. */
  function WalkNode(c: Context, n: Node, f: Frame, st: State): (r: Step<Signal>)
    ensures r.st.ops <= st.ops
    decreases st.ops, 0, n, 2
  {
    match n
    case TextNode(text) => Step(Ok(Next), st, text)
    case Action(pipe) =>
      var r := EvalPipe(c, pipe, f, st);
      if !r.end.Ok? then Carry(r)
      else if pipe.decl != [] then Step(Ok(Next), r.st, r.out)
      else
        (match Show(c, r.st.hist, r.end.value)
         case Some(s) => Step(Ok(Next), r.st, r.out + s)
         case None => Step(Fatal, r.st, r.out))
    case Branch(kind, pipe, list, elseList) =>
      PopTo(|st.vars|, WalkBranch(c, kind, pipe, list, elseList, f, st))
    case Try(list, catchList) =>
      var r := WalkList(c, list, f.(inTry := true), st);
      if !r.end.Thrown? then r
      else
        var r' := WalkList(c, catchList, f.(dot := r.end.err), r.st);
        r'.(out := r.out + r'.out)
    case Return(pipes) =>
      var r := EvalPipes(c, pipes, f, st);
      if r.end.Ok? then Step(Ok(Ret(r.end.value)), r.st, r.out) else Carry(r)
    case Template(name, pipes) =>
      if !CanSpend(100, st) || Lookup(c, name) == None || f.depth >= MAX_EXEC_DEPTH then Stop(st)
      else
        var r := EvalPipes(c, pipes, f, Spend(100, st));
        if !r.end.Ok? then Carry(r)
        else
          var r' := RunTree(c, name, r.end.value, f.inTry, f.depth, r.st);
          Step(if r'.end.Ok? then Ok(Next) else r'.end, r'.st, r.out + r'.out)
    case Break => Done(StopLoop, st)
    case Continue => Done(NextLoop, st)
  }

  /** printValue. */
  function Show(c: Context, hist: seq<Event>, v: Value): Option<string> {
    match v
    case NoValue => Some("<no value>")
    case Text(s) => Some(s)
    case _ => c.oracle.show(hist, v)
  }

  /** walkIfOrWith, walkRange and walkWhile, before their last pop. */
  function WalkBranch(c: Context, kind: BranchKind, pipe: Pipe, list: seq<Node>, elseList: seq<Node>, f: Frame,
                      st: State)
    : (r: Step<Signal>)
    ensures r.st.ops <= st.ops
    decreases st.ops, 0, Branch(kind, pipe, list, elseList), 1
  {
    if (kind == Range || kind == While) && !CanSpend(1, st) then Stop(st)
    else if kind == While then WalkWhile(c, pipe, list, elseList, true, |st.vars|, f, Spend(1, st))
    else
      var r := EvalPipe(c, pipe, f, if kind == Range then Spend(1, st) else st);
      if !r.end.Ok? then Carry(r)
      else if kind == Range then
        match c.oracle.keys(r.st.hist, r.end.value)
        case None => Step(Fatal, r.st, r.out)
        case Some(keys) =>
          var r' := if keys == [] then WalkList(c, elseList, f, r.st)
                    else WalkRange(c, pipe.decl, list, r.end.value, keys, |r.st.vars|, f, r.st);
          r'.(out := r.out + r'.out)
      else
        match c.oracle.truth(r.st.hist, r.end.value)
        case None => Step(Fatal, r.st, r.out)
        case Some(truth) =>
          var f' := if truth && kind == With then f.(dot := r.end.value) else f;
          var r' := WalkList(c, if truth then list else elseList, f', r.st);
          r'.(out := r.out + r'.out)
  }

  /** What a loop does with the signal its body ended on: go on, or stop with a signal. */
  predicate GoesOn(end: End<Signal>) {
    end == Ok(Next) || end == Ok(NextLoop)
  }

  function LoopEnd(end: End<Signal>): End<Signal> {
    if end == Ok(StopLoop) then Ok(Next) else end
  }

  /** The iterations of a range over the keys left. */
  function WalkRange(c: Context, decl: seq<string>, list: seq<Node>, v: Value, keys: seq<Value>, mark: nat, f: Frame,
                     st: State)
    : (r: Step<Signal>)
    ensures r.st.ops <= st.ops
    decreases st.ops, 0, list, 1
  {
    if keys == [] then Done(Next, st)
    else
      match c.oracle.elem(st.hist, v, keys[0])
      case None => Stop(st)
      case Some(elem) =>
        if TooLong(elem) || !CanSpend(1, st) then Stop(st)
        else
          match SetTops(decl, keys[0], elem, st.vars)
          case None => Stop(st)
          case Some(vars) =>
            var r := PopTo(mark, WalkList(c, list, f.(dot := elem), Spend(1, st).(vars := vars)));
            if !GoesOn(r.end) then r.(end := LoopEnd(r.end))
            else
              var r' := WalkRange(c, decl, list, v, keys[1..], mark, f, r.st);
              r'.(out := r.out + r'.out)
  }

  /** The iterations of a while; the else list runs when there is not even a first one. */
  function WalkWhile(c: Context, pipe: Pipe, list: seq<Node>, elseList: seq<Node>, first: bool, mark: nat, f: Frame,
                     st: State)
    : (r: Step<Signal>)
    ensures r.st.ops <= st.ops
    decreases st.ops, 0, Branch(While, pipe, list, elseList), 0
  {
    if !CanSpend(5, st) then Stop(st)
    else
      var r := EvalPipe(c, pipe, f, Spend(5, st));
      if !r.end.Ok? then Carry(r)
      else
        match c.oracle.truth(r.st.hist, r.end.value)
        case None => Step(Fatal, r.st, r.out)
        case Some(false) =>
          if !first then Step(Ok(Next), r.st, r.out)
          else
            var r' := WalkList(c, elseList, f, r.st);
            r'.(out := r.out + r'.out)
        case Some(true) =>
          var b := PopTo(mark, WalkList(c, list, f, r.st));
          if !GoesOn(b.end) then Step(LoopEnd(b.end), b.st, r.out + b.out)
          else
            var r' := WalkWhile(c, pipe, list, elseList, false, mark, f, b.st);
            r'.(out := r.out + b.out + r'.out)
  }

  /** A whole run of the command: its own tree on a dot, from what the world has seen so far. */
  function Run(c: Context, dot: Value, hist: seq<Event>, ops: nat): Step<Signal> {
    var st := State([Binding("$", dot)], hist, ops);
    match FindMain(c.trees)
    case None => Stop(st)
    case Some(root) => WalkList(c, root, Frame(dot, false, 0), st)
  }
}
