/** The decisions of dropFromMain, and that they delete exactly what the document-order rule says: a flat
    list of events and items, decided by counting, against a recursion over the tree. */
module DropFromMain {
  import opened Blank
  import opened Syntax
  import opened Interp
  import opened Whitespace
  import opened Linearize

  /** How many of some events are printers. */
  function Printers(events: seq<bool>): nat {
    if events == [] then 0 else Bit(events[0]) + Printers(events[1..])
  }

  /** The event range an item stands for. */
  function Range(item: Item): (int, int) {
    if item.loopStart >= 0 then (item.loopStart, item.loopEnd) else (item.pos, item.pos + 1)
  }

  predicate InRange(events: seq<bool>, item: Item) {
    0 <= Range(item).0 <= Range(item).1 <= |events|
  }

  /** An item goes when nothing prints in its range, and nothing before it or nothing after it. */
  predicate Droppable(events: seq<bool>, item: Item)
    requires InRange(events, item)
  {
    var (start, end) := Range(item);
    Printers(events[start..end]) == 0 && (Printers(events[..start]) == 0 || Printers(events[end..]) == 0)
  }

  function Decide(events: seq<bool>, items: seq<Item>): (r: seq<bool>)
    requires forall i :: 0 <= i < |items| ==> InRange(events, items[i])
    ensures |r| == |items|
    ensures forall i :: 0 <= i < |items| ==> r[i] == Droppable(events, items[i])
  {
    if items == [] then [] else [Droppable(events, items[0])] + Decide(events, items[1..])
  }

  function NodeBlanks(n: Node): nat {
    match n
    case TextNode(text) => Bit(IsBlankText(text))
    case Branch(_, _, list, elseList) => Blanks(list) + Blanks(elseList)
    case Try(list, catchList) => Blanks(list) + Blanks(catchList)
    case _ => 0
  }

  /** The blanks of a list, in document order. */
  function Blanks(nodes: seq<Node>): nat {
    if nodes == [] then 0 else NodeBlanks(nodes[0]) + Blanks(nodes[1..])
  }

  /** The list without the blanks that `drops` marks, the k-th flag being the k-th blank's. */
  function Filter(nodes: seq<Node>, drops: seq<bool>): seq<Node>
    requires |drops| == Blanks(nodes)
    decreases nodes, 0
  {
    if nodes == [] then []
    else
      var own := NodeBlanks(nodes[0]);
      var rest := Filter(nodes[1..], drops[own..]);
      if nodes[0].TextNode? then if own == 1 && drops[0] then rest else [nodes[0]] + rest
      else [FilterNode(nodes[0], drops[..own])] + rest
  }

  function FilterNode(n: Node, drops: seq<bool>): Node
    requires |drops| == NodeBlanks(n)
    decreases n, 1
  {
    match n
    case Branch(kind, pipe, list, elseList) =>
      Branch(kind, pipe, Filter(list, drops[..Blanks(list)]), Filter(elseList, drops[Blanks(list)..]))
    case Try(list, catchList) => Try(Filter(list, drops[..Blanks(list)]), Filter(catchList, drops[Blanks(list)..]))
    case _ => n
  }

  // ---------------------------------------------------------------- counting

  lemma {:induction false} PrintersAppend(a: seq<bool>, b: seq<bool>)
    ensures Printers(a + b) == Printers(a) + Printers(b)
  {
    if a == [] {
      assert a + b == b;
    } else {
      assert (a + b)[1..] == a[1..] + b;
      PrintersAppend(a[1..], b);
    }
  }

  lemma {:induction false} EventsCount(fa: Facts, nodes: seq<Node>)
    ensures Printers(Events(fa, nodes)) == Count(fa, nodes)
    decreases nodes, 0
  {
    if nodes != [] {
      EventsCount(fa, nodes[1..]);
      NodeEventsCount(fa, nodes[0]);
      PrintersAppend(NodeEvents(fa, nodes[0]), Events(fa, nodes[1..]));
    }
  }

  lemma {:induction false} NodeEventsCount(fa: Facts, n: Node)
    ensures Printers(NodeEvents(fa, n)) == NodeCount(fa, n)
    decreases n, 1
  {
    match n
    case Branch(_, pipe, list, elseList) =>
      var own := Printer(AnyPrints(fa, PipeCalls(pipe)));
      EventsCount(fa, list);
      EventsCount(fa, elseList);
      PrintersAppend(own + Events(fa, list), Events(fa, elseList));
      PrintersAppend(own, Events(fa, list));
    case Try(list, catchList) =>
      EventsCount(fa, list);
      EventsCount(fa, catchList);
      PrintersAppend(Events(fa, list), Events(fa, catchList));
    case _ =>
  }

  lemma {:induction false} ItemsCount(fa: Facts, nodes: seq<Node>, base: nat, inLoop: bool)
    ensures |Items(fa, nodes, base, inLoop)| == Blanks(nodes)
    decreases nodes, 0
  {
    if nodes != [] {
      NodeItemsCount(fa, nodes[0], base, inLoop);
      ItemsCount(fa, nodes[1..], base + |NodeEvents(fa, nodes[0])|, inLoop);
    }
  }

  lemma {:induction false} NodeItemsCount(fa: Facts, n: Node, base: nat, inLoop: bool)
    ensures |NodeItems(fa, n, base, inLoop)| == NodeBlanks(n)
    ensures n.Branch? ==> |BranchItems(fa, n, base, inLoop)| == NodeBlanks(n)
    decreases n, 1
  {
    match n
    case Branch(_, pipe, list, elseList) =>
      var inside := base + |Printer(AnyPrints(fa, PipeCalls(pipe)))|;
      ItemsCount(fa, list, inside, inLoop);
      ItemsCount(fa, elseList, inside + |Events(fa, list)|, inLoop);
      ItemsCount(fa, list, inside, true);
      ItemsCount(fa, elseList, inside + |Events(fa, list)|, true);
    case Try(list, catchList) =>
      ItemsCount(fa, list, base, inLoop);
      ItemsCount(fa, catchList, base + |Events(fa, list)|, inLoop);
    case _ =>
  }

  // ---------------------------------------------------------------- all or none

  predicate Every(drops: seq<bool>, d: bool) {
    forall i :: 0 <= i < |drops| ==> drops[i] == d
  }

  lemma TextBlanks(n: Node)
    ensures n.TextNode? ==> NodeBlanks(n) == Bit(IsBlankText(n.text)) && DropInside(n) == n
  {
  }

  lemma {:induction false} FilterEvery(nodes: seq<Node>, drops: seq<bool>, d: bool)
    requires |drops| == Blanks(nodes) && Every(drops, d)
    ensures Filter(nodes, drops) == if d then DropAll(nodes) else nodes
    decreases nodes, 0
  {
    if nodes != [] {
      hide FilterNode, DropInside, NodeBlanks;
      TextBlanks(nodes[0]);
      var own := NodeBlanks(nodes[0]);
      FilterEvery(nodes[1..], drops[own..], d);
      if !nodes[0].TextNode? {
        FilterNodeEvery(nodes[0], drops[..own], d);
      }
      assert nodes == [nodes[0]] + nodes[1..];
    }
  }

  lemma {:induction false} FilterNodeEvery(n: Node, drops: seq<bool>, d: bool)
    requires |drops| == NodeBlanks(n) && Every(drops, d)
    ensures FilterNode(n, drops) == if d then DropInside(n) else n
    decreases n, 1
  {
    match n
    case Branch(_, _, list, elseList) =>
      FilterEvery(list, drops[..Blanks(list)], d);
      FilterEvery(elseList, drops[Blanks(list)..], d);
    case Try(list, catchList) =>
      FilterEvery(list, drops[..Blanks(list)], d);
      FilterEvery(catchList, drops[Blanks(list)..], d);
    case _ =>
  }

  // ---------------------------------------------------------------- the decisions follow the rule

  predicate AllInRange(events: seq<bool>, items: seq<Item>) {
    forall i :: 0 <= i < |items| ==> InRange(events, items[i])
  }

  lemma DecideAppend(events: seq<bool>, a: seq<Item>, b: seq<Item>)
    requires AllInRange(events, a) && AllInRange(events, b)
    ensures AllInRange(events, a + b)
    ensures Decide(events, a + b)[..|a|] == Decide(events, a) && Decide(events, a + b)[|a|..] == Decide(events, b)
  {
    hide Decide, Droppable, InRange;
    var all := a + b;
    forall i | 0 <= i < |all| ensures InRange(events, all[i]) {
      if i >= |a| {
        assert all[i] == b[i - |a|];
      }
    }
    var d := Decide(events, all);
    forall i | 0 <= i < |b| ensures d[|a|..][i] == Decide(events, b)[i] {
      assert all[|a| + i] == b[i];
    }
    forall i | 0 <= i < |a| ensures d[..|a|][i] == Decide(events, a)[i] {
      assert all[i] == a[i];
    }
  }

  /** The events of a whole tree, a stretch of it standing after `pre` and before `post`. */
  function Around(pre: seq<bool>, own: seq<bool>, post: seq<bool>): seq<bool> {
    pre + own + post
  }

  lemma AroundSplit(pre: seq<bool>, a: seq<bool>, b: seq<bool>, post: seq<bool>)
    ensures Around(pre, a + b, post) == Around(pre, a, b + post) == Around(pre + a, b, post)
    ensures Printers(pre + a) == Printers(pre) + Printers(a) && Printers(b + post) == Printers(b) + Printers(post)
  {
    hide Printers;
    PrintersAppend(pre, a);
    PrintersAppend(b, post);
    assert pre + (a + b) == (pre + a) + b;
    assert (pre + a) + (b + post) == ((pre + a) + b) + post;
  }

  /** The decided stretch is what DropList makes of it. */
  ghost predicate Decided(fa: Facts, nodes: seq<Node>, events: seq<bool>, base: nat, before: nat, after: nat) {
    var items := Items(fa, nodes, base, false);
    && AllInRange(events, items) && |items| == Blanks(nodes)
    && Filter(nodes, Decide(events, items)) == DropList(fa, nodes, before, after)
  }

  ghost predicate NodeDecided(fa: Facts, n: Node, events: seq<bool>, base: nat, before: nat, after: nat) {
    var items := NodeItems(fa, n, base, false);
    && AllInRange(events, items) && |items| == NodeBlanks(n)
    && if n.TextNode? then
         NodeBlanks(n) == 1 ==> (Decide(events, items)[0] <==> before == 0 || after == 0)
       else FilterNode(n, Decide(events, items)) == DropNode(fa, n, before, after)
  }

  lemma NothingDecided(fa: Facts, events: seq<bool>, base: nat, before: nat, after: nat)
    ensures Decided(fa, [], events, base, before, after)
  {
  }

  lemma {:induction false} FilterDecided(fa: Facts, nodes: seq<Node>, pre: seq<bool>, post: seq<bool>)
    ensures Decided(fa, nodes, Around(pre, Events(fa, nodes), post), |pre|, Printers(pre), Printers(post))
    decreases nodes, 1
  {
    hide *;
    if nodes == [] {
      NothingDecided(fa, Around(pre, Events(fa, nodes), post), |pre|, Printers(pre), Printers(post));
    } else {
      var n, rest := nodes[0], nodes[1..];
      var own, others := NodeEvents(fa, n), Events(fa, rest);
      ConsRecords(fa, nodes, |pre|, false);
      NodeEventsCount(fa, n);
      EventsCount(fa, rest);
      AroundSplit(pre, own, others, post);
      FilterNodeDecided(fa, n, pre, others + post);
      FilterDecided(fa, rest, pre + own, post);
      ConsDecided(fa, nodes, Around(pre, own + others, post), |pre|, Printers(pre), Printers(post));
    }
  }

  lemma ConsDecided(fa: Facts, nodes: seq<Node>, events: seq<bool>, base: nat, before: nat, after: nat)
    requires nodes != []
    requires NodeDecided(fa, nodes[0], events, base, before, Count(fa, nodes[1..]) + after)
    requires Decided(fa, nodes[1..], events, base + |NodeEvents(fa, nodes[0])|, before + NodeCount(fa, nodes[0]), after)
    ensures Decided(fa, nodes, events, base, before, after)
  {
    hide NodeItems, NodeEvents, NodeBlanks, Decide, Droppable, NodeCount, FilterNode, DropNode, DropInside,
      IsBlankText, InRange, Every;
    var n, rest := nodes[0], nodes[1..];
    var a, b := NodeItems(fa, n, base, false), Items(fa, rest, base + |NodeEvents(fa, n)|, false);
    DecideAppend(events, a, b);
    TextBlanks(n);
    TextKept(fa, n, before, Count(fa, rest) + after);
    assert |a| == NodeBlanks(n);
    assert Decide(events, a + b)[..|a|] == Decide(events, a);
    if n.TextNode? && |a| == 1 {
      assert Decide(events, a + b)[0] == Decide(events, a)[0];
    }
  }

  lemma TextKept(fa: Facts, n: Node, before: nat, after: nat)
    ensures n.TextNode? ==> DropNode(fa, n, before, after) == n
  {
  }

  lemma {:induction false} FilterNodeDecided(fa: Facts, n: Node, pre: seq<bool>, post: seq<bool>)
    ensures NodeDecided(fa, n, Around(pre, NodeEvents(fa, n), post), |pre|, Printers(pre), Printers(post))
    decreases n, 2
  {
    if n.TextNode? {
      TextDecided(fa, n, pre, post);
    } else if IsLoop(n) {
      LoopDecided(fa, n, pre, post);
    } else if n.Branch? {
      BranchDecided(fa, n, pre, post);
    } else if n.Try? {
      TryDecided(fa, n, pre, post);
    } else {
      assert NodeItems(fa, n, |pre|, false) == [];
    }
  }

  /** A blank outside loops goes by what stands before it and after it. */
  lemma TextDecided(fa: Facts, n: Node, pre: seq<bool>, post: seq<bool>)
    requires n.TextNode?
    ensures NodeDecided(fa, n, Around(pre, NodeEvents(fa, n), post), |pre|, Printers(pre), Printers(post))
  {
    if IsBlankText(n.text) {
      var events := Around(pre, [false], post);
      assert events[|pre|..|pre| + 1] == [false] && Printers([false]) == 0;
      assert events[..|pre|] == pre && events[|pre| + 1..] == post;
    }
  }

  /** All the blanks of an outermost loop share one decision. */
  lemma LoopDecided(fa: Facts, n: Node, pre: seq<bool>, post: seq<bool>)
    requires IsLoop(n)
    ensures NodeDecided(fa, n, Around(pre, NodeEvents(fa, n), post), |pre|, Printers(pre), Printers(post))
  {
    var own := NodeEvents(fa, n);
    var events, end := Around(pre, own, post), |pre| + |own|;
    var items := NodeItems(fa, n, |pre|, false);
    NodeItemsCount(fa, n, |pre|, false);
    NodeEventsCount(fa, n);
    assert events[|pre|..end] == own && events[..|pre|] == pre && events[end..] == post;
    LoopItems(fa, n, |pre|);
    var d := NodeCount(fa, n) == 0 && (Printers(pre) == 0 || Printers(post) == 0);
    EveryDecided(events, items, |pre|, end, d);
    FilterNodeEvery(n, Decide(events, items), d);
  }

  lemma LoopItems(fa: Facts, n: Node, base: nat)
    requires IsLoop(n)
    ensures var items := NodeItems(fa, n, base, false);
            forall i :: 0 <= i < |items| ==> Range(items[i]) == (base, base + |NodeEvents(fa, n)|)
  {
  }

  lemma EveryDecided(events: seq<bool>, items: seq<Item>, start: nat, end: nat, d: bool)
    requires start <= end <= |events| && forall i :: 0 <= i < |items| ==> Range(items[i]) == (start, end)
    requires d <==> (&& Printers(events[start..end]) == 0
                     && (Printers(events[..start]) == 0 || Printers(events[end..]) == 0))
    ensures AllInRange(events, items) && Every(Decide(events, items), d)
  {
  }

  /** Two stretches one after the other: their items join, and so do their decisions. */
  lemma JoinDecided(fa: Facts, x: seq<Node>, y: seq<Node>, events: seq<bool>, baseX: nat, baseY: nat,
                    beforeX: nat, afterX: nat, beforeY: nat, afterY: nat)
    requires Decided(fa, x, events, baseX, beforeX, afterX) && Decided(fa, y, events, baseY, beforeY, afterY)
    ensures var items := Items(fa, x, baseX, false) + Items(fa, y, baseY, false);
            && AllInRange(events, items) && |items| == Blanks(x) + Blanks(y)
            && Filter(x, Decide(events, items)[..Blanks(x)]) == DropList(fa, x, beforeX, afterX)
            && Filter(y, Decide(events, items)[Blanks(x)..]) == DropList(fa, y, beforeY, afterY)
  {
    DecideAppend(events, Items(fa, x, baseX, false), Items(fa, y, baseY, false));
  }

  lemma IfWithItems(fa: Facts, n: Node, base: nat)
    requires n.Branch? && !IsLoop(n)
    ensures var own := Printer(AnyPrints(fa, PipeCalls(n.pipe)));
            NodeItems(fa, n, base, false)
              == Items(fa, n.list, base + |own|, false)
                 + Items(fa, n.elseList, base + |own| + |Events(fa, n.list)|, false)
  {
    assert NodeItems(fa, n, base, false) == BranchItems(fa, n, base, false);
  }

  lemma BranchJoined(fa: Facts, n: Node, events: seq<bool>, base: nat, before: nat, after: nat)
    requires n.Branch? && !IsLoop(n)
    requires var own := |Printer(AnyPrints(fa, PipeCalls(n.pipe)))|;
             && Decided(fa, n.list, events, base + own, before + own, Count(fa, n.elseList) + after)
             && Decided(fa, n.elseList, events, base + own + |Events(fa, n.list)|,
                        before + own + Count(fa, n.list), after)
    ensures NodeDecided(fa, n, events, base, before, after)
  {
    hide Events, Items, NodeItems, DropNode, Filter, DropList, Decided, AnyPrints, Count, Droppable, InRange;
    var own := |Printer(AnyPrints(fa, PipeCalls(n.pipe)))|;
    JoinDecided(fa, n.list, n.elseList, events, base + own, base + own + |Events(fa, n.list)|,
                before + own, Count(fa, n.elseList) + after, before + own + Count(fa, n.list), after);
    IfWithItems(fa, n, base);
    BranchDropped(fa, n.kind, n.pipe, n.list, n.elseList, before, after);
  }

  lemma {:induction false} BranchDecided(fa: Facts, n: Node, pre: seq<bool>, post: seq<bool>)
    requires n.Branch? && !IsLoop(n)
    ensures NodeDecided(fa, n, Around(pre, NodeEvents(fa, n), post), |pre|, Printers(pre), Printers(post))
    decreases n, 1
  {
    hide Around, Events, Decided, NodeDecided, AnyPrints, Count;
    var own, inList, inElse := Printer(AnyPrints(fa, PipeCalls(n.pipe))), Events(fa, n.list), Events(fa, n.elseList);
    EventsCount(fa, n.list);
    EventsCount(fa, n.elseList);
    AroundSplit(pre, own + inList, inElse, post);
    AroundSplit(pre, own, inList, inElse + post);
    AroundSplit(own, inList, [], []);
    FilterDecided(fa, n.list, pre + own, inElse + post);
    FilterDecided(fa, n.elseList, pre + (own + inList), post);
    assert Printers(own) == |own|;
    BranchJoined(fa, n, Around(pre, own + inList + inElse, post), |pre|, Printers(pre), Printers(post));
  }

  lemma TryJoined(fa: Facts, n: Node, events: seq<bool>, base: nat, before: nat, after: nat)
    requires n.Try?
    requires Decided(fa, n.list, events, base, before, Count(fa, n.catchList) + after)
    requires Decided(fa, n.catchList, events, base + |Events(fa, n.list)|, before + Count(fa, n.list), after)
    ensures NodeDecided(fa, n, events, base, before, after)
  {
    hide Events, Items, Filter, DropList, Decided, Count, Droppable, InRange;
    JoinDecided(fa, n.list, n.catchList, events, base, base + |Events(fa, n.list)|,
                before, Count(fa, n.catchList) + after, before + Count(fa, n.list), after);
  }

  lemma {:induction false} TryDecided(fa: Facts, n: Node, pre: seq<bool>, post: seq<bool>)
    requires n.Try?
    ensures NodeDecided(fa, n, Around(pre, NodeEvents(fa, n), post), |pre|, Printers(pre), Printers(post))
    decreases n, 1
  {
    hide Around, Events, Decided, NodeDecided, Count, Printers;
    var inList, inCatch := Events(fa, n.list), Events(fa, n.catchList);
    EventsCount(fa, n.list);
    EventsCount(fa, n.catchList);
    AroundSplit(pre, inList, inCatch, post);
    FilterDecided(fa, n.list, pre, inCatch + post);
    FilterDecided(fa, n.catchList, pre + inList, post);
    TryJoined(fa, n, Around(pre, inList + inCatch, post), |pre|, Printers(pre), Printers(post));
  }

  // ---------------------------------------------------------------- dropFromMain

  /** The main tree without its droppable blanks. */
  method DropFromMain(fa: Facts, root: seq<Node>) returns (root': seq<Node>)
    ensures root' == DropList(fa, root, 0, 0)
  {
    hide Events, Items, DropList, Filter, Droppable, Blanks;
    var l := new Linearizer(fa);
    l.List(root);
    var events, items := l.events, l.items;
    assert events == Events(fa, root) && items == Items(fa, root, 0, false);
    FilterDecidedWhole(fa, root);
    var drops := DecideItems(events, items);
    root' := Filter(root, drops);
  }

  /** Each item's decision, read off a table of how many printers stand before each event. */
  method DecideItems(events: seq<bool>, items: seq<Item>) returns (drops: seq<bool>)
    requires AllInRange(events, items)
    ensures drops == Decide(events, items)
  {
    var before: seq<nat> := [0];
    for i := 0 to |events|
      invariant |before| == i + 1
      invariant forall j :: 0 <= j <= i ==> before[j] == Printers(events[..j])
    {
      assert events[..i + 1] == events[..i] + [events[i]];
      PrintersAppend(events[..i], [events[i]]);
      before := before + [before[i] + (if events[i] then 1 else 0)];
    }
    assert events[..|events|] == events;
    var total := before[|events|];
    drops := [];
    for k := 0 to |items|
      invariant |drops| == k
      invariant forall j :: 0 <= j < k ==> drops[j] == Droppable(events, items[j])
    {
      var (start, end) := Range(items[k]);
      assert InRange(events, items[k]);
      PrintersBetween(events, start, end);
      var inside := before[end] - before[start];
      drops := drops + [inside == 0 && (before[start] == 0 || total - before[end] == 0)];
    }
  }

  lemma PrintersBetween(events: seq<bool>, start: nat, end: nat)
    requires start <= end <= |events|
    ensures Printers(events[..end]) == Printers(events[..start]) + Printers(events[start..end])
    ensures Printers(events) == Printers(events[..end]) + Printers(events[end..])
  {
    assert events[..end] == events[..start] + events[start..end];
    PrintersAppend(events[..start], events[start..end]);
    assert events == events[..end] + events[end..];
    PrintersAppend(events[..end], events[end..]);
  }

  lemma FilterDecidedWhole(fa: Facts, root: seq<Node>)
    ensures var events, items := Events(fa, root), Items(fa, root, 0, false);
            && AllInRange(events, items) && |items| == Blanks(root)
            && Filter(root, Decide(events, items)) == DropList(fa, root, 0, 0)
  {
    FilterDecided(fa, root, [], []);
    assert Around([], Events(fa, root), []) == Events(fa, root);
  }
}
