/** dropFromMain's linearizer: printers and blanks in document order. */
module Linearize {
  import opened Blank
  import opened Syntax
  import opened Interp
  import opened Whitespace

  /** A blank text node: its place among the events, and the event range of the outermost loop
      around it, or -1. The k-th item is the k-th blank in document order. */
  datatype Item = Item(pos: nat, loopStart: int, loopEnd: int)

  // ---------------------------------------------------------------- what a walk records

  function Printer(prints: bool): seq<bool> {
    if prints then [true] else []
  }

  function NodeEvents(fa: Facts, n: Node): seq<bool> {
    match n
    case TextNode(text) => if IsBlankText(text) then [false] else Printer(text != "")
    case Action(pipe) => Printer(AnyPrints(fa, PipeCalls(pipe)) || ActionPrints(fa.containers, pipe))
    case Branch(_, pipe, list, elseList) =>
      Printer(AnyPrints(fa, PipeCalls(pipe))) + Events(fa, list) + Events(fa, elseList)
    case Try(list, catchList) => Events(fa, list) + Events(fa, catchList)
    case Return(pipes) => Printer(AnyPrints(fa, PipesCalls(pipes)))
    case Template(name, pipes) => Printer(AnyPrints(fa, PipesCalls(pipes)) || CalleePrints(fa, name))
    case Break => []
    case Continue => []
  }

  function Events(fa: Facts, nodes: seq<Node>): seq<bool> {
    if nodes == [] then [] else NodeEvents(fa, nodes[0]) + Events(fa, nodes[1..])
  }

  function InLoop(items: seq<Item>, start: int, end: int): (r: seq<Item>)
    ensures |r| == |items|
    ensures forall i :: 0 <= i < |items| ==> r[i] == Item(items[i].pos, start, end)
  {
    if items == [] then [] else [Item(items[0].pos, start, end)] + InLoop(items[1..], start, end)
  }

  /** The items of a node whose first event is number `base`; inside a loop the loop marks them. */
  function NodeItems(fa: Facts, n: Node, base: nat, inLoop: bool): seq<Item>
    decreases n, 2
  {
    match n
    case TextNode(text) => if IsBlankText(text) then [Item(base, -1, -1)] else []
    case Branch(_, _, _, _) =>
      if IsLoop(n) && !inLoop then InLoop(BranchItems(fa, n, base, true), base, base + |NodeEvents(fa, n)|)
      else BranchItems(fa, n, base, inLoop)
    case Try(list, catchList) => Items(fa, list, base, inLoop) + Items(fa, catchList, base + |Events(fa, list)|, inLoop)
    case _ => []
  }

  function BranchItems(fa: Facts, n: Node, base: nat, inLoop: bool): seq<Item>
    requires n.Branch?
    decreases n, 1
  {
    var inside := base + |Printer(AnyPrints(fa, PipeCalls(n.pipe)))|;
    Items(fa, n.list, inside, inLoop) + Items(fa, n.elseList, inside + |Events(fa, n.list)|, inLoop)
  }

  function Items(fa: Facts, nodes: seq<Node>, base: nat, inLoop: bool): seq<Item>
    decreases nodes, 1
  {
    if nodes == [] then []
    else NodeItems(fa, nodes[0], base, inLoop) + Items(fa, nodes[1..], base + |NodeEvents(fa, nodes[0])|, inLoop)
  }

  lemma ConsRecords(fa: Facts, nodes: seq<Node>, base: nat, inLoop: bool)
    requires nodes != []
    ensures Events(fa, nodes) == NodeEvents(fa, nodes[0]) + Events(fa, nodes[1..])
    ensures Items(fa, nodes, base, inLoop)
         == NodeItems(fa, nodes[0], base, inLoop) + Items(fa, nodes[1..], base + |NodeEvents(fa, nodes[0])|, inLoop)
  {
  }

  // ---------------------------------------------------------------- the linearizer

  class Linearizer {
    const fa: Facts
    var events: seq<bool>
    var items: seq<Item>
    var inLoop: bool

    constructor (fa: Facts)
      ensures this.fa == fa && events == [] && items == [] && !inLoop
    {
      this.fa := fa;
      events, items, inLoop := [], [], false;
    }

    method Print(prints: bool)
      modifies this
      ensures events == old(events) + Printer(prints) && items == old(items) && inLoop == old(inLoop)
    {
      if prints {
        events := events + [true];
      }
    }

    method List(nodes: seq<Node>)
      modifies this
      ensures events == old(events) + Events(fa, nodes)
      ensures items == old(items) + Items(fa, nodes, |old(events)|, inLoop)
      ensures inLoop == old(inLoop)
      decreases nodes, 0
    {
      hide NodeEvents, NodeItems;
      ghost var was, had := events, items;
      for i := 0 to |nodes|
        invariant inLoop == old(inLoop)
        invariant events + Events(fa, nodes[i..]) == was + Events(fa, nodes)
        invariant items + Items(fa, nodes[i..], |events|, inLoop) == had + Items(fa, nodes, |was|, inLoop)
      {
        ghost var events0, items0 := events, items;
        ConsRecords(fa, nodes[i..], |events|, inLoop);
        Visit(nodes[i]);
        assert nodes[i..][1..] == nodes[i + 1..];
        assert events + Events(fa, nodes[i + 1..]) == events0 + Events(fa, nodes[i..]);
        assert items + Items(fa, nodes[i + 1..], |events|, inLoop) == items0 + Items(fa, nodes[i..], |events0|, inLoop);
      }
      assert nodes[|nodes|..] == [];
    }

    method Visit(n: Node)
      modifies this
      ensures events == old(events) + NodeEvents(fa, n)
      ensures items == old(items) + NodeItems(fa, n, |old(events)|, inLoop)
      ensures inLoop == old(inLoop)
      decreases n, 3
    {
      hide Events, Items, BranchItems, AnyPrints, IsBlankText, CalleePrints;
      match n
      case TextNode(text) =>
        if IsBlankText(text) {
          items := items + [Item(|events|, -1, -1)];
          events := events + [false];
        } else if text != "" {
          Print(true);
        }
      case Action(pipe) => Print(AnyPrints(fa, PipeCalls(pipe)) || ActionPrints(fa.containers, pipe));
      case Branch(_, _, _, _) =>
        if IsLoop(n) {
          Loop(n);
        } else {
          Arms(n);
        }
      case Try(list, catchList) =>
        List(list);
        List(catchList);
      case Return(pipes) => Print(AnyPrints(fa, PipesCalls(pipes)));
      case Template(name, pipes) => Print(AnyPrints(fa, PipesCalls(pipes)) || CalleePrints(fa, name));
      case _ =>
    }

    /** The source's branch. */
    method Arms(n: Node)
      requires n.Branch?
      modifies this
      ensures events == old(events) + NodeEvents(fa, n)
      ensures items == old(items) + BranchItems(fa, n, |old(events)|, inLoop)
      ensures inLoop == old(inLoop)
      decreases n, 1
    {
      hide Events, Items, AnyPrints;
      Print(AnyPrints(fa, PipeCalls(n.pipe)));
      List(n.list);
      List(n.elseList);
    }

    method Loop(n: Node)
      requires IsLoop(n)
      modifies this
      ensures events == old(events) + NodeEvents(fa, n)
      ensures items == old(items) + NodeItems(fa, n, |old(events)|, inLoop)
      ensures inLoop == old(inLoop)
      decreases n, 2
    {
      if inLoop {
        Arms(n);
      } else {
        inLoop := true;
        var start, from := |events|, |items|;
        Arms(n);
        assert items[from..] == BranchItems(fa, n, start, true);
        items := items[..from] + InLoop(items[from..], start, |events|);
        inLoop := false;
      }
    }
  }
}
