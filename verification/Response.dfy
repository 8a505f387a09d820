/** The whitespace pass cannot change the response, wherever a run is cut short. */
module Response {
  import opened Basics
  import opened Blank
  import opened Syntax
  import opened Interp
  import opened Whitespace
  import opened Silence
  import opened DropRuns

  /** How far two outputs may differ at a place with `before` printers behind it and `left` ahead
      of it in document order: only blanks while nothing has printed, and only in trailing blanks
      once nothing more will. */
  predicate Near(before: nat, left: nat, o: string, o': string) {
    && (before == 0 ==> AllBlank(o) && AllBlank(o'))
    && TrimSpace(o) == TrimSpace(o')
    && (left > 0 ==> TrimLeft(o) == TrimLeft(o'))
  }

  lemma NearLater(before: nat, left: nat, before': nat, left': nat, o: string, o': string)
    requires Near(before, left, o, o') && before <= before' && left' <= left
    ensures Near(before', left', o, o')
  {
  }

  /** Both runs write the same text, at a node that counts `n` printers. */
  lemma NearSame(before: nat, left: nat, n: nat, o: string, o': string, t: string)
    requires Near(before, n + left, o, o') && (n == 0 ==> AllBlank(t))
    ensures Near(before + n, left, o + t, o' + t)
  {
    if n + left > 0 {
      TrimLeftCongruent(o, o', t);
    } else {
      TrimSpaceAppendBlank(o, t);
      TrimSpaceAppendBlank(o', t);
    }
  }

  /** The runs write different blanks, where nothing has printed before or nothing will after. */
  lemma NearBlanks(before: nat, left: nat, o: string, o': string, w: string, w': string)
    requires Near(before, left, o, o') && AllBlank(w) && AllBlank(w') && (before == 0 || left == 0)
    ensures Near(before, left, o + w, o' + w')
  {
    TrimSpaceAppendBlank(o, w);
    TrimSpaceAppendBlank(o', w');
    TrimLeftEmptyIffBlank(o + w);
    TrimLeftEmptyIffBlank(o' + w');
  }

  lemma {:induction false} DropAllCounts(fa: Facts, nodes: seq<Node>)
    ensures Count(fa, DropAll(nodes)) == Count(fa, nodes)
    ensures RangesDeclare(nodes) ==> RangesDeclare(DropAll(nodes))
    ensures NodesBounds(DropAll(nodes)) == NodesBounds(nodes)
    ensures NodesCalls(DropAll(nodes)) == NodesCalls(nodes)
    ensures NodesSends(DropAll(nodes)) == NodesSends(nodes)
    ensures NodesOwn(fa.containers, DropAll(nodes)) == NodesOwn(fa.containers, nodes)
    decreases nodes, 0
  {
    if nodes != [] {
      DropAllCounts(fa, nodes[1..]);
      DropInsideCounts(fa, nodes[0]);
      if !(nodes[0].TextNode? && IsBlankText(nodes[0].text)) {
        assert DropAll(nodes)[1..] == DropAll(nodes[1..]);
      }
    }
  }

  lemma {:induction false} DropInsideCounts(fa: Facts, n: Node)
    ensures NodeCount(fa, DropInside(n)) == NodeCount(fa, n)
    ensures NodeRangesDeclare(n) ==> NodeRangesDeclare(DropInside(n))
    ensures NodeBounds(DropInside(n)) == NodeBounds(n)
    ensures NodeCalls(DropInside(n)) == NodeCalls(n)
    ensures NodeSends(DropInside(n)) == NodeSends(n)
    ensures NodeOwns(fa.containers, DropInside(n)) == NodeOwns(fa.containers, n)
    decreases n, 1
  {
    match n
    case Branch(_, _, list, elseList) =>
      DropAllCounts(fa, list);
      DropAllCounts(fa, elseList);
    case Try(list, catchList) =>
      DropAllCounts(fa, list);
      DropAllCounts(fa, catchList);
    case _ =>
  }

  // ---------------------------------------------------------------- the main tree

  /** The setting of a main tree that is never called: the original file and the one whose main
      tree alone changed, sharing every define. */
  ghost predicate MainOnly(fa: Facts, k: Pair, c: Context, c': Context) {
    Analysed(fa, c) && !k.lax && Comparable(k, c, c')
  }

  /** What a stretch of the main tree must satisfy to be walked in both files. */
  predicate Walkable(fa: Facts, bare: bool, k: Pair, nodes: seq<Node>) {
    Allowed(k, NodesCalls(nodes), NodesSends(nodes)) && Binds(fa, bare, NodesBounds(nodes)) && RangesSafe(bare, nodes)
  }

  predicate NodeWalkable(fa: Facts, bare: bool, k: Pair, n: Node) {
    Allowed(k, NodeCalls(n), NodeSends(n)) && Binds(fa, bare, NodeBounds(n)) && NodeRangesSafe(bare, n)
  }

  /** Two steps that end alike and whose outputs stay near. */
  ghost predicate StayNear<T>(before: nat, left: nat, r: Step<T>, r': Step<T>, o: string, o': string) {
    r'.end == r.end && r'.st == r.st && Near(before, left, o + r.out, o' + r'.out)
  }

  lemma WalkableSplit(fa: Facts, bare: bool, k: Pair, nodes: seq<Node>)
    requires nodes != [] && Walkable(fa, bare, k, nodes)
    ensures NodeWalkable(fa, bare, k, nodes[0]) && Walkable(fa, bare, k, nodes[1..])
  {
    BindsSplit(fa, bare, NodeBounds(nodes[0]), NodesBounds(nodes[1..]));
  }

  /** A step after another, with both outputs joined. */
  function After<S, T>(r: Step<S>, next: Step<T>): Step<T> {
    next.(out := r.out + next.out)
  }

  lemma AfterNear<S, T>(before: nat, left: nat, r: Step<S>, r': Step<S>, next: Step<T>, next': Step<T>, o: string,
                        o': string)
    requires StayNear(before, left, next, next', o + r.out, o' + r'.out)
    ensures StayNear(before, left, After(r, next), After(r', next'), o, o')
  {
    assert o + (r.out + next.out) == (o + r.out) + next.out;
    assert o' + (r'.out + next'.out) == (o' + r'.out) + next'.out;
  }

  /** One step of a list, in the original and where a node was kept. */
  lemma ListSteps(fa: Facts, c: Context, c': Context, nodes: seq<Node>, before: nat, after: nat, f: Frame, st: State)
    requires nodes != []
    ensures var r := WalkNode(c, nodes[0], f, st);
            WalkList(c, nodes, f, st) == if r.end == Ok(Next) then After(r, WalkList(c, nodes[1..], f, r.st)) else r
    ensures var behind := Count(fa, nodes[1..]) + after;
            var rest := DropList(fa, nodes[1..], before + NodeCount(fa, nodes[0]), after);
            if nodes[0].TextNode? && IsBlankText(nodes[0].text) && (before == 0 || behind == 0) then
              DropList(fa, nodes, before, after) == rest
            else
              var r := WalkNode(c', DropNode(fa, nodes[0], before, behind), f, st);
              WalkList(c', DropList(fa, nodes, before, after), f, st)
                == if r.end == Ok(Next) then After(r, WalkList(c', rest, f, r.st)) else r
  {
    var rest := DropList(fa, nodes[1..], before + NodeCount(fa, nodes[0]), after);
    var n' := DropNode(fa, nodes[0], before, Count(fa, nodes[1..]) + after);
    assert ([n'] + rest)[1..] == rest;
  }

  lemma {:induction false} DropListNear(fa: Facts, bare: bool, k: Pair, c: Context, c': Context, nodes: seq<Node>,
                                        before: nat, after: nat,
                                        f: Frame, st: State, o: string, o': string)
    requires MainOnly(fa, k, c, c') && Walkable(fa, bare, k, nodes) && ContainersHold(fa, bare, st.vars)
    requires Near(before, Count(fa, nodes) + after, o, o')
    ensures StayNear(before + Count(fa, nodes), after, WalkList(c, nodes, f, st),
                     WalkList(c', DropList(fa, nodes, before, after), f, st), o, o')
    decreases nodes, 1
  {
    if nodes == [] {
      assert o + "" == o && o' + "" == o';
    } else {
      DropConsNear(fa, bare, k, c, c', nodes, before, after, f, st, o, o');
    }
  }

  lemma {:induction false} DropConsNear(fa: Facts, bare: bool, k: Pair, c: Context, c': Context, nodes: seq<Node>,
                                        before: nat, after: nat,
                                        f: Frame, st: State, o: string, o': string)
    requires MainOnly(fa, k, c, c') && Walkable(fa, bare, k, nodes) && ContainersHold(fa, bare, st.vars) && nodes != []
    requires Near(before, Count(fa, nodes) + after, o, o')
    ensures StayNear(before + Count(fa, nodes), after, WalkList(c, nodes, f, st),
                     WalkList(c', DropList(fa, nodes, before, after), f, st), o, o')
    decreases nodes, 0
  {
    hide Near, SharedTrees, Analysed, WalkNode, WalkList, DropList, DropNode, Walkable, NodeWalkable, ContainersHold,
      AllBlank;
    var n, rest := nodes[0], nodes[1..];
    var count, behind := NodeCount(fa, n), Count(fa, rest) + after;
    var dropped := DropList(fa, rest, before + count, after);
    WalkableSplit(fa, bare, k, nodes);
    ListSteps(fa, c, c', nodes, before, after, f, st);
    var r := WalkNode(c, n, f, st);
    if n.TextNode? && IsBlankText(n.text) && (before == 0 || behind == 0) {
      TextNear(c, n, before, behind, f, st, o, o');
      var nothing := Done<Signal>(Next, st);
      DropListNear(fa, bare, k, c, c', rest, before, after, f, st, o + r.out, o' + nothing.out);
      AfterNear(before + Count(fa, rest), after, r, nothing,
                WalkList(c, rest, f, st), WalkList(c', dropped, f, st), o, o');
      assert "" + WalkList(c', dropped, f, st).out == WalkList(c', dropped, f, st).out;
    } else {
      var r' := WalkNode(c', DropNode(fa, n, before, behind), f, st);
      DropNodeNear(fa, bare, k, c, c', n, before, behind, f, st, o, o');
      if r.end == Ok(Next) {
        WalkNodeKept(fa, bare, c, n, f, st);
        DropListNear(fa, bare, k, c, c', rest, before + count, after, f, r.st, o + r.out, o' + r'.out);
        AfterNear(before + Count(fa, nodes), after, r, r',
                  WalkList(c, rest, f, r.st), WalkList(c', dropped, f, r.st), o, o');
      } else {
        NearLater(before + count, behind, before + Count(fa, nodes), after, o + r.out, o' + r'.out);
      }
    }
  }

  /** A blank text node that is written in one run and gone in the other. */
  lemma TextNear(c: Context, n: Node, before: nat, left: nat, f: Frame, st: State, o: string, o': string)
    requires n.TextNode? && AllBlank(n.text) && (before == 0 || left == 0) && Near(before, left, o, o')
    ensures var r := WalkNode(c, n, f, st);
            r.end == Ok(Next) && r.st == st && Near(before, left, o + r.out, o' + "")
  {
    NearBlanks(before, left, o, o', n.text, "");
  }

  lemma {:induction false} DropNodeNear(fa: Facts, bare: bool, k: Pair, c: Context, c': Context, n: Node,
                                        before: nat, after: nat,
                                        f: Frame, st: State, o: string, o': string)
    requires MainOnly(fa, k, c, c') && NodeWalkable(fa, bare, k, n) && ContainersHold(fa, bare, st.vars)
    requires Near(before, NodeCount(fa, n) + after, o, o')
    ensures StayNear(before + NodeCount(fa, n), after, WalkNode(c, n, f, st),
                     WalkNode(c', DropNode(fa, n, before, after), f, st), o, o')
    decreases n, 2
  {
    hide Near, SharedTrees, FunctionsAsDocumented, PrintsClosed, WalkNode;
    var count := NodeCount(fa, n);
    WalkNodeKept(fa, bare, c, n, f, st);
    if IsLoop(n) && count == 0 && (before == 0 || after == 0) {
      SilentLoopNear(fa, bare, k, c, c', n, before, after, f, st, o, o');
    } else if IsLoop(n) || !(n.Branch? || n.Try?) {
      WalkNodeAlike(k, false, c, c', n, f, st);
      NearSame(before, after, count, o, o', WalkNode(c, n, f, st).out);
    } else if n.Branch? {
      DropBranchNear(fa, bare, k, c, c', n.kind, n.pipe, n.list, n.elseList, before, after, f, st, o, o');
    } else {
      DropTryNear(fa, bare, k, c, c', n.list, n.catchList, before, after, f, st, o, o');
    }
  }

  /** A loop that prints nothing, with nothing printed before it or after it. */
  lemma SilentLoopNear(fa: Facts, bare: bool, k: Pair, c: Context, c': Context, n: Node, before: nat, after: nat,
                       f: Frame, st: State, o: string, o': string)
    requires MainOnly(fa, k, c, c') && NodeWalkable(fa, bare, k, n) && ContainersHold(fa, bare, st.vars)
    requires NodeCount(fa, n) == 0 && (before == 0 || after == 0) && Near(before, after, o, o')
    ensures StayNear(before, after, WalkNode(c, n, f, st), WalkNode(c', DropInside(n), f, st), o, o')
  {
    WalkNodeAlike(k, true, c, c', n, f, st);
    WalkNodeKept(fa, bare, c, n, f, st);
    DropInsideCounts(fa, n);
    WalkNodeKept(fa, bare, c, DropInside(n), f, st);
    WalkNodeAlike(k, false, c, c', DropInside(n), f, st);
    NearBlanks(before, after, o, o', WalkNode(c, n, f, st).out, WalkNode(c', DropInside(n), f, st).out);
  }

  /** The steps of an if or a with, before its last pop. */
  lemma IfWithArms(c: Context, kind: BranchKind, pipe: Pipe, list: seq<Node>, elseList: seq<Node>, f: Frame, st: State)
    requires kind == If || kind == With
    ensures var r := EvalPipe(c, pipe, f, st);
            var truth := if r.end.Ok? then c.oracle.truth(r.st.hist, r.end.value) else None;
            WalkBranch(c, kind, pipe, list, elseList, f, st) ==
              if !r.end.Ok? then Carry(r)
              else if truth.None? then Step(Fatal, r.st, r.out)
              else After(r, WalkList(c, if truth.value then list else elseList,
                              if truth.value && kind == With then f.(dot := r.end.value) else f, r.st))
  {
    hide EvalPipe, WalkList, WalkRange, WalkWhile;
  }

  /** The steps of an if or a with. */
  lemma IfWithSteps(c: Context, kind: BranchKind, pipe: Pipe, list: seq<Node>, elseList: seq<Node>, f: Frame, st: State)
    requires kind == If || kind == With
    ensures var r := EvalPipe(c, pipe, f, st);
            var mark := |st.vars|;
            var truth := if r.end.Ok? then c.oracle.truth(r.st.hist, r.end.value) else None;
            WalkNode(c, Branch(kind, pipe, list, elseList), f, st) ==
              if !r.end.Ok? then PopTo(mark, Carry(r))
              else if truth.None? then PopTo(mark, Step(Fatal, r.st, r.out))
              else PopTo(mark, After(r, WalkList(c, if truth.value then list else elseList,
                                     if truth.value && kind == With then f.(dot := r.end.value) else f, r.st)))
  {
    hide EvalPipe, WalkList, WalkBranch;
    IfWithArms(c, kind, pipe, list, elseList, f, st);
  }

  lemma BranchWalkable(fa: Facts, bare: bool, k: Pair, kind: BranchKind, pipe: Pipe, list: seq<Node>,
                       elseList: seq<Node>)
    requires kind == If || kind == With
    requires NodeWalkable(fa, bare, k, Branch(kind, pipe, list, elseList))
    ensures Allowed(k, PipeCalls(pipe), PipeSends(pipe)) && Binds(fa, bare, PipeBounds(pipe))
    ensures Walkable(fa, bare, k, list) && Walkable(fa, bare, k, elseList)
  {
    BranchBinds(fa, bare, kind, pipe, list, elseList);
  }

  lemma PopNear<T>(before: nat, left: nat, mark: nat, r: Step<T>, r': Step<T>, o: string, o': string)
    requires StayNear(before, left, r, r', o, o')
    ensures StayNear(before, left, PopTo(mark, r), PopTo(mark, r'), o, o')
  {
  }

  /** Where an if or with goes after its pipe: whether to its list, and the frame it walks there. */
  function Chosen(c: Context, kind: BranchKind, pipe: Pipe, f: Frame, st: State): Option<(bool, Frame)> {
    var r := EvalPipe(c, pipe, f, st);
    if !r.end.Ok? then None
    else
      match c.oracle.truth(r.st.hist, r.end.value)
      case None => None
      case Some(truth) => Some((truth, if truth && kind == With then f.(dot := r.end.value) else f))
  }

  /** An if or with is near when its pipe wrote the same text and the chosen lists stay near. */
  lemma IfWithNear(c: Context, c': Context, kind: BranchKind, pipe: Pipe, list: seq<Node>, elseList: seq<Node>,
                   list': seq<Node>, elseList': seq<Node>, before: nat, left: nat,
                   f: Frame, st: State, o: string, o': string)
    requires (kind == If || kind == With) && c'.oracle == c.oracle
    requires EvalPipe(c', pipe, f, st) == EvalPipe(c, pipe, f, st)
    requires var r := EvalPipe(c, pipe, f, st);
             && Near(before, left, o + r.out, o' + r.out)
             && match Chosen(c, kind, pipe, f, st)
                case None => true
                case Some((truth, f')) =>
                  StayNear(before, left, WalkList(c, if truth then list else elseList, f', r.st),
                           WalkList(c', if truth then list' else elseList', f', r.st), o + r.out, o' + r.out)
    ensures StayNear(before, left, WalkNode(c, Branch(kind, pipe, list, elseList), f, st),
                     WalkNode(c', Branch(kind, pipe, list', elseList'), f, st), o, o')
  {
    hide Near, WalkNode, WalkList, EvalPipe;
    IfWithSteps(c, kind, pipe, list, elseList, f, st);
    IfWithSteps(c', kind, pipe, list', elseList', f, st);
    var r := EvalPipe(c, pipe, f, st);
    match Chosen(c, kind, pipe, f, st)
    case None =>
    case Some((truth, f')) =>
      var w := WalkList(c, if truth then list else elseList, f', r.st);
      var w' := WalkList(c', if truth then list' else elseList', f', r.st);
      AfterNear(before, left, r, r, w, w', o, o');
      PopNear(before, left, |st.vars|, After(r, w), After(r, w'), o, o');
  }

  lemma {:induction false} DropBranchNear(fa: Facts, bare: bool, k: Pair, c: Context, c': Context, kind: BranchKind,
                                          pipe: Pipe, list: seq<Node>, elseList: seq<Node>,
                                          before: nat, after: nat, f: Frame, st: State, o: string, o': string)
    requires kind == If || kind == With
    requires MainOnly(fa, k, c, c') && NodeWalkable(fa, bare, k, Branch(kind, pipe, list, elseList))
      && ContainersHold(fa, bare, st.vars)
    requires Near(before, NodeCount(fa, Branch(kind, pipe, list, elseList)) + after, o, o')
    ensures StayNear(before + NodeCount(fa, Branch(kind, pipe, list, elseList)), after,
                     WalkNode(c, Branch(kind, pipe, list, elseList), f, st),
                     WalkNode(c', DropNode(fa, Branch(kind, pipe, list, elseList), before, after), f, st), o, o')
    decreases Branch(kind, pipe, list, elseList), 1
  {
    hide Near, StayNear, SharedTrees, Analysed, WalkNode, WalkList, EvalPipe, DropNode, DropList, NodeWalkable,
      Walkable,
      Binds, Allowed, AnyPrints, AllBlank, ContainersHold, Count, IsSilentPipe, IsConstructorPipe, Lookup;
    var inPipe, inList, inElse := Bit(AnyPrints(fa, PipeCalls(pipe))), Count(fa, list), Count(fa, elseList);
    var total := before + inPipe + inList + inElse;
    assert NodeCount(fa, Branch(kind, pipe, list, elseList)) == inPipe + inList + inElse;
    BranchWalkable(fa, bare, k, kind, pipe, list, elseList);
    BranchDropped(fa, kind, pipe, list, elseList, before, after);
    var list' := DropList(fa, list, before + inPipe, inElse + after);
    var elseList' := DropList(fa, elseList, before + inPipe + inList, after);
    EvalPipeKept(fa, bare, c, pipe, f, st);
    EvalPipeAlike(k, c, c', pipe, f, st);
    var r := EvalPipe(c, pipe, f, st);
    NearSame(before, inList + inElse + after, inPipe, o, o', r.out);
    NearLater(before + inPipe, inList + inElse + after, total, after, o + r.out, o' + r.out);
    match Chosen(c, kind, pipe, f, st) {
      case None =>
      case Some((truth, f')) =>
        BranchListNear(fa, bare, k, c, c', truth, list, elseList, before + inPipe, after,
                       f', r.st, o + r.out, o' + r.out);
    }
    IfWithNear(c, c', kind, pipe, list, elseList, list', elseList', total, after, f, st, o, o');
  }

  /** The list an if or with chose, the other one being skipped. */
  lemma {:induction false} BranchListNear(fa: Facts, bare: bool, k: Pair, c: Context, c': Context, truth: bool,
                                          list: seq<Node>, elseList: seq<Node>,
                                          before: nat, after: nat, f: Frame, st: State, o: string, o': string)
    requires MainOnly(fa, k, c, c') && Walkable(fa, bare, k, list) && Walkable(fa, bare, k, elseList)
      && ContainersHold(fa, bare, st.vars)
    requires Near(before, Count(fa, list) + Count(fa, elseList) + after, o, o')
    ensures var l := if truth then list else elseList;
            var l' := if truth then DropList(fa, list, before, Count(fa, elseList) + after)
                      else DropList(fa, elseList, before + Count(fa, list), after);
            StayNear(before + Count(fa, list) + Count(fa, elseList), after,
                     WalkList(c, l, f, st), WalkList(c', l', f, st), o, o')
    decreases if truth then list else elseList, 2
  {
    hide Near, SharedTrees, FunctionsAsDocumented, DropNode, WalkNode, WalkList;
    var inList, inElse := Count(fa, list), Count(fa, elseList);
    if truth {
      DropListNear(fa, bare, k, c, c', list, before, inElse + after, f, st, o, o');
      var l' := DropList(fa, list, before, inElse + after);
      NearLater(before + inList, inElse + after, before + inList + inElse, after,
                o + WalkList(c, list, f, st).out, o' + WalkList(c', l', f, st).out);
    } else {
      NearLater(before, inList + inElse + after, before + inList, inElse + after, o, o');
      DropListNear(fa, bare, k, c, c', elseList, before + inList, after, f, st, o, o');
    }
  }

  lemma {:induction false} DropTryNear(fa: Facts, bare: bool, k: Pair, c: Context, c': Context, list: seq<Node>,
                                       catchList: seq<Node>,
                                       before: nat, after: nat, f: Frame, st: State, o: string, o': string)
    requires MainOnly(fa, k, c, c') && NodeWalkable(fa, bare, k, Try(list, catchList))
      && ContainersHold(fa, bare, st.vars)
    requires Near(before, Count(fa, list) + Count(fa, catchList) + after, o, o')
    ensures StayNear(before + Count(fa, list) + Count(fa, catchList), after,
                     WalkNode(c, Try(list, catchList), f, st),
                     WalkNode(c', DropNode(fa, Try(list, catchList), before, after), f, st), o, o')
    decreases Try(list, catchList), 1
  {
    hide Near, SharedTrees, FunctionsAsDocumented, AllBlank, WalkList, ContainersHold, Count, DropList, Binds,
      RangesDeclare;
    var inList, inCatch := Count(fa, list), Count(fa, catchList);
    TryWalkable(fa, bare, k, list, catchList);
    var f1 := f.(inTry := true);
    WalkListKept(fa, bare, c, list, f1, st);
    DropListNear(fa, bare, k, c, c', list, before, inCatch + after, f1, st, o, o');
    var l, l' := DropList(fa, list, before, inCatch + after), DropList(fa, catchList, before + inList, after);
    var r, r' := WalkList(c, list, f1, st), WalkList(c', l, f1, st);
    NearLater(before + inList, inCatch + after, before + inList + inCatch, after, o + r.out, o' + r'.out);
    if r.end.Thrown? {
      var f2 := f.(dot := r.end.err);
      DropListNear(fa, bare, k, c, c', catchList, before + inList, after, f2, r.st, o + r.out, o' + r'.out);
      AfterNear(before + inList + inCatch, after, r, r',
                WalkList(c, catchList, f2, r.st), WalkList(c', l', f2, r.st), o, o');
    }
  }

  lemma TryWalkable(fa: Facts, bare: bool, k: Pair, list: seq<Node>, catchList: seq<Node>)
    requires NodeWalkable(fa, bare, k, Try(list, catchList))
    ensures Walkable(fa, bare, k, list) && Walkable(fa, bare, k, catchList)
  {
    BindsSplit(fa, bare, NodesBounds(list), NodesBounds(catchList));
  }

  // ---------------------------------------------------------------- the whole file

  function DropRoot(fa: Facts, isMain: bool, root: seq<Node>): seq<Node> {
    DropTree(fa, Tree("", root, isMain)).root
  }

  lemma {:induction false} DropTreesFind(fa: Facts, trees: seq<Tree>, name: string)
    ensures match FindDefine(trees, name)
            case None => FindDefine(DropTrees(fa, trees), name) == None
            case Some(root) => FindDefine(DropTrees(fa, trees), name) == Some(DropRoot(fa, false, root))
    ensures match FindMain(trees)
            case None => FindMain(DropTrees(fa, trees)) == None
            case Some(root) => FindMain(DropTrees(fa, trees)) == Some(DropRoot(fa, true, root))
  {
    if trees != [] {
      DropTreesFind(fa, trees[1..], name);
      assert DropTrees(fa, trees)[1..] == DropTrees(fa, trees[1..]);
    }
  }

  // ---- a file in which nothing prints

  lemma NothingPrintsEmpty(fa: Facts)
    requires PrintsLeast(fa) && !AnyOwns(fa)
    ensures fa.prints == {}
  {
    assert PrintsClosed(fa.(prints := {}));
  }

  lemma {:induction false} SilentDropList(fa: Facts, nodes: seq<Node>)
    requires Count(fa, nodes) == 0
    ensures DropList(fa, nodes, 0, 0) == DropAll(nodes)
    decreases nodes, 0
  {
    if nodes != [] {
      SilentDropList(fa, nodes[1..]);
      SilentDropNode(fa, nodes[0]);
    }
  }

  lemma {:induction false} SilentDropNode(fa: Facts, n: Node)
    requires NodeCount(fa, n) == 0
    ensures DropNode(fa, n, 0, 0) == DropInside(n)
    decreases n, 1
  {
    match n
    case Branch(_, _, list, elseList) =>
      SilentDropList(fa, list);
      SilentDropList(fa, elseList);
    case Try(list, catchList) =>
      SilentDropList(fa, list);
      SilentDropList(fa, catchList);
    case _ =>
  }

  /** With no printer anywhere every tree loses all its blanks. */
  lemma SilentDropRoot(fa: Facts, c: Context, i: nat)
    requires Analysed(fa, c) && NothingPrints(fa) && fa.prints == {} && i < |fa.trees|
    ensures DropRoot(fa, fa.trees[i].isMain, fa.trees[i].root) == DropAll(fa.trees[i].root)
    ensures Count(fa, fa.trees[i].root) == 0 && NodesSends(fa.trees[i].root) == {}
  {
    QuietCountsZero(fa, fa.trees[i].root);
    SilentDropList(fa, fa.trees[i].root);
  }

  lemma SilentComparable(fa: Facts, c: Context)
    requires Analysed(fa, c) && NothingPrints(fa) && fa.prints == {}
    ensures Comparable(Pair(true, {}), c, c.(trees := DropTrees(fa, c.trees)))
  {
    var c' := c.(trees := DropTrees(fa, c.trees));
    forall name
      ensures match Lookup(c, name)
              case None => Lookup(c', name) == None
              case Some(root) => Lookup(c', name) == Some(DropAll(root)) && NodesSends(root) == {}
    {
      FindDefineIs(c.trees, name);
      DropTreesFind(fa, c.trees, name);
      if FindDefine(c.trees, name).Some? {
        var i :| 0 <= i < |fa.trees| && !fa.trees[i].isMain && fa.trees[i].root == FindDefine(c.trees, name).value;
        SilentDropRoot(fa, c, i);
      } else if FindMain(c.trees).Some? {
        var i :| 0 <= i < |fa.trees| && fa.trees[i].isMain && fa.trees[i].root == FindMain(c.trees).value;
        SilentDropRoot(fa, c, i);
      }
    }
  }

  lemma SilentDropTree(fa: Facts, t: Tree)
    ensures DropTree(fa, t).root == DropRoot(fa, t.isMain, t.root)
  {
  }

  lemma SilentAnalysed(fa: Facts, c: Context)
    requires Analysed(fa, c) && NothingPrints(fa) && fa.prints == {}
    ensures Analysed(fa.(trees := DropTrees(fa, c.trees)), c.(trees := DropTrees(fa, c.trees)))
  {
    hide FunctionsAsDocumented, DropAll, DropRoot, NodesBounds, RangesDeclare, NodesOwn;
    var trees' := DropTrees(fa, c.trees);
    var fa' := fa.(trees := trees');
    DropTreesAt(fa, c.trees);
    forall i | 0 <= i < |trees'|
      ensures TreeSafe(fa', trees'[i].root)
      ensures !NodesOwn(fa.containers, trees'[i].root)
    {
      SilentDropRoot(fa, c, i);
      SilentDropTree(fa, fa.trees[i]);
      DropAllCounts(fa, fa.trees[i].root);
    }
  }

  /** A silent tree, and what is left of it, write blanks only. */
  lemma SilentTrees(fa: Facts, c: Context, i: nat, f: Frame, st: State)
    requires Analysed(fa, c) && NothingPrints(fa) && fa.prints == {} && i < |fa.trees|
    requires ContainersHold(fa, IsBare(fa, fa.trees[i].root), st.vars)
    ensures var root := fa.trees[i].root;
            && AllBlank(WalkList(c, root, f, st).out)
            && AllBlank(WalkList(c.(trees := DropTrees(fa, c.trees)), DropAll(root), f, st).out)
  {
    hide FunctionsAsDocumented, WalkList, DropList, NodesOwn, DropAll, NodesBounds, RangesDeclare;
    var c', root := c.(trees := DropTrees(fa, c.trees)), fa.trees[i].root;
    var bare := IsBare(fa, root);
    var fa' := fa.(trees := c'.trees);
    SilentDropRoot(fa, c, i);
    WalkListKept(fa, bare, c, root, f, st);
    SilentAnalysed(fa, c);
    DropTreesAt(fa, c.trees);
    DropAllCounts(fa, root);
    SilentDropTree(fa, fa.trees[i]);
    assert fa'.trees[i].root == DropAll(root);
    assert !NodesOwn(fa'.containers, fa'.trees[i].root) && !AnyPrints(fa', NodesCalls(fa'.trees[i].root));
    QuietCountsZero(fa', DropAll(root));
    WalkListKept(fa', bare, c', DropAll(root), f, st);
  }

  lemma SilentRun(fa: Facts, c: Context, dot: Value, hist: seq<Event>, ops: nat)
    requires Analysed(fa, c) && NothingPrints(fa) && fa.prints == {}
    ensures SameResponse(Run(c, dot, hist, ops), Run(c.(trees := DropTrees(fa, c.trees)), dot, hist, ops))
  {
    hide FunctionsAsDocumented, WalkList, DropList, NodesOwn, DropAll, NodesBounds, RangesDeclare, AllBlank;
    var c' := c.(trees := DropTrees(fa, c.trees));
    FindDefineIs(c.trees, "");
    DropTreesFind(fa, c.trees, "");
    if FindMain(c.trees).Some? {
      var root := FindMain(c.trees).value;
      var i :| 0 <= i < |fa.trees| && fa.trees[i].isMain && fa.trees[i].root == root;
      var st, f := State([Binding("$", dot)], hist, ops), Frame(dot, false, 0);
      SilentDropRoot(fa, c, i);
      SilentComparable(fa, c);
      WalkListAlike(Pair(true, {}), true, c, c', root, f, st);
      SilentTrees(fa, c, i, f, st);
      TrimLeftEmptyIffBlank(WalkList(c, root, f, st).out);
      TrimLeftEmptyIffBlank(WalkList(c', DropAll(root), f, st).out);
    }
  }

  // ---- a file in which only the main tree changes

  function DefineNames(trees: seq<Tree>): set<string> {
    set i | 0 <= i < |trees| && !trees[i].isMain :: trees[i].name
  }

  lemma MainComparable(fa: Facts, c: Context)
    requires Analysed(fa, c) && !NothingPrints(fa) && !KeepMain(fa) && !MainReentrant(fa)
      && !IsDefine(fa.trees, ANY_TREE)
    ensures var k := Pair(false, DefineNames(fa.trees));
            MainOnly(fa, k, c, c.(trees := DropTrees(fa, c.trees)))
            && forall i :: 0 <= i < |fa.trees| ==> Walkable(fa, IsBare(fa, fa.trees[i].root), k, fa.trees[i].root)
  {
    var k := Pair(false, DefineNames(fa.trees));
    var c' := c.(trees := DropTrees(fa, c.trees));
    assert forall name :: name in k.shared <==> IsDefine(fa.trees, name);
    forall i | 0 <= i < |fa.trees| ensures Allowed(k, NodesCalls(fa.trees[i].root), NodesSends(fa.trees[i].root)) {
      assert OnlyDefines(fa.trees, NodesCalls(fa.trees[i].root)) && OnlyDefines(fa.trees, NodesSends(fa.trees[i].root));
    }
    forall name | name in k.shared
      ensures Lookup(c, name).Some? && Lookup(c', name) == Lookup(c, name)
      ensures Allowed(k, NodesCalls(Lookup(c, name).value), NodesSends(Lookup(c, name).value))
    {
      FindDefineIs(c.trees, name);
      DropTreesFind(fa, c.trees, name);
    }
  }

  lemma MainRun(fa: Facts, c: Context, dot: Value, hist: seq<Event>, ops: nat)
    requires Analysed(fa, c) && !NothingPrints(fa) && !KeepMain(fa) && !MainReentrant(fa)
      && !IsDefine(fa.trees, ANY_TREE)
    ensures SameResponse(Run(c, dot, hist, ops), Run(c.(trees := DropTrees(fa, c.trees)), dot, hist, ops))
  {
    var k := Pair(false, DefineNames(fa.trees));
    var c' := c.(trees := DropTrees(fa, c.trees));
    FindDefineIs(c.trees, "");
    DropTreesFind(fa, c.trees, "");
    MainComparable(fa, c);
    if FindMain(c.trees).Some? {
      var root := FindMain(c.trees).value;
      var st, f := State([Binding("$", dot)], hist, ops), Frame(dot, false, 0);
      DropListNear(fa, IsBare(fa, root), k, c, c', root, 0, 0, f, st, "", "");
      assert "" + WalkList(c, root, f, st).out == WalkList(c, root, f, st).out;
      var root' := DropList(fa, root, 0, 0);
      assert "" + WalkList(c', root', f, st).out == WalkList(c', root', f, st).out;
    }
  }

  // ---- every file

  /** Two runs that end alike, with the same effects and operations, and the same response. */
  ghost predicate SameResponse(r: Step<Signal>, r': Step<Signal>) {
    r'.end == r.end && r'.st == r.st && TrimSpace(r'.out) == TrimSpace(r.out)
  }

  lemma UnchangedFile(fa: Facts, trees: seq<Tree>)
    requires !NothingPrints(fa) && (KeepMain(fa) || MainReentrant(fa))
    ensures DropTrees(fa, trees) == trees
  {
    DropTreesAt(fa, trees);
  }

  /** dropWhitespace cannot change the response: in every world whose functions are as documented,
      on every dot and whatever operations the run may use (so wherever an error or the operation
      limit cuts it short), the file without the dropped blanks ends the same way, with the same
      calls, arguments and messages sent, and a response that trims to the same text.
      Two things are asked of the file: no define is named `*`, the pass's own mark for a computed
      name, and a tree in which some range assigns to variables it did not declare binds no container
      variable. */
  lemma DroppingPreservesResponse(fa: Facts, c: Context, dot: Value, hist: seq<Event>, ops: nat)
    requires Analysed(fa, c) && PrintsLeast(fa) && !IsDefine(fa.trees, ANY_TREE)
    ensures SameResponse(Run(c, dot, hist, ops), Run(c.(trees := DropTrees(fa, c.trees)), dot, hist, ops))
  {
    if NothingPrints(fa) {
      NothingPrintsEmpty(fa);
      SilentRun(fa, c, dot, hist, ops);
    } else if KeepMain(fa) || MainReentrant(fa) {
      UnchangedFile(fa, c.trees);
    } else {
      MainRun(fa, c, dot, hist, ops);
    }
  }
}
