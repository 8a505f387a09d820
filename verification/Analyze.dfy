/** The loops of analyzeWhitespace and dropWhitespace: the least set of printing trees. */
module Analyze {
  import opened Basics
  import opened Syntax
  import opened Interp
  import opened Whitespace
  import DropFromMain
  import Leftovers

  /** containerVariables: the variables that are bound, and by constructors alone. */
  method ContainerVariables(trees: seq<Tree>) returns (containers: set<string>)
    ensures IsContainerSet(containers, TreesBounds(trees))
    ensures BoundSomewhere(containers, TreesBounds(trees))
  {
    var bounds := TreesBounds(trees);
    var container: map<string, bool> := map["$" := false]; // every binding so far is a constructor
    for i := 0 to |bounds|
      invariant "$" in container && !container["$"]
      invariant forall x :: x in container && x != "$" ==>
                  (container[x] <==> forall j :: 0 <= j < i && bounds[j].name == x ==> bounds[j].constructed)
      invariant forall j :: 0 <= j < i ==> bounds[j].name in container
      invariant forall x :: x in container && x != "$" ==> exists j :: 0 <= j < i && bounds[j].name == x
    {
      var b := bounds[i];
      if b.name !in container {
        container := container[b.name := true];
      }
      if !b.constructed {
        container := container[b.name := false];
      }
    }
    containers := set x | x in container && container[x];
  }

  lemma {:induction false} TreesBoundsAt(trees: seq<Tree>, containers: set<string>, i: nat)
    requires i < |trees| && BindsOnly(containers, TreesBounds(trees))
    ensures BindsOnly(containers, NodesBounds(trees[i].root))
  {
    var first, rest := NodesBounds(trees[0].root), TreesBounds(trees[1..]);
    assert forall j :: 0 <= j < |first| ==> (first + rest)[j] == first[j];
    assert forall j :: 0 <= j < |rest| ==> (first + rest)[|first| + j] == rest[j];
    if i > 0 {
      TreesBoundsAt(trees[1..], containers, i - 1);
    }
  }

  /** The tree at i prints: on its own, or by calling a tree already known to. */
  predicate PrintsNow(fa: Facts, i: nat)
    requires i < |fa.trees|
  {
    NodesOwn(fa.containers, fa.trees[i].root) || AnyPrints(fa, NodesCalls(fa.trees[i].root))
  }

  lemma PrintsMonotone(fa: Facts, prints: set<string>, i: nat)
    requires i < |fa.trees| && fa.prints <= prints && PrintsNow(fa, i)
    ensures PrintsNow(fa.(prints := prints), i)
  {
    var fa' := fa.(prints := prints);
    if AnyPrints(fa, NodesCalls(fa.trees[i].root)) {
      var name :| name in NodesCalls(fa.trees[i].root) && CalleePrints(fa, name);
      assert CalleePrints(fa', name);
    }
  }

  /** Close over calls until nothing changes: the result is closed, and inside every closed set. */
  method PrintingTrees(trees: seq<Tree>, containers: set<string>) returns (prints: set<string>)
    ensures PrintsLeast(Facts(trees, containers, prints))
  {
    ghost var names := set i | 0 <= i < |trees| :: trees[i].name;
    prints := set i | 0 <= i < |trees| && NodesOwn(containers, trees[i].root) :: trees[i].name;
    assert BelowClosed(trees, containers, prints);
    var changed := true;
    while changed
      invariant prints <= names && BelowClosed(trees, containers, prints)
      invariant !changed ==> PrintsClosed(Facts(trees, containers, prints))
      decreases |names - prints|, changed
    {
      ghost var before := prints;
      prints, changed := PrintingRound(trees, containers, prints, names);
      if changed {
        SmallerRest(names, before, prints);
      }
    }
  }

  /** One round over the trees. */
  method PrintingRound(trees: seq<Tree>, containers: set<string>, before: set<string>, ghost names: set<string>)
    returns (prints: set<string>, changed: bool)
    requires before <= names && BelowClosed(trees, containers, before)
    requires forall i :: 0 <= i < |trees| ==> trees[i].name in names
    ensures before <= prints <= names && BelowClosed(trees, containers, prints)
    ensures changed <==> before != prints
    ensures !changed ==> PrintsClosed(Facts(trees, containers, prints))
  {
    hide BelowClosed, NodesOwn, AnyPrints, NodesCalls;
    prints, changed := before, false;
    for i := 0 to |trees|
      invariant before <= prints <= names && BelowClosed(trees, containers, prints)
      invariant changed <==> before != prints
      invariant !changed ==>
                  forall j :: 0 <= j < i && PrintsNow(Facts(trees, containers, prints), j) ==> trees[j].name in prints
    {
      var fa := Facts(trees, containers, prints);
      if trees[i].name !in prints && PrintsNow(fa, i) {
        AddPrinting(fa, i);
        prints := prints + {trees[i].name};
        changed := true;
      }
    }
    if !changed {
      ClosedWhenDone(Facts(trees, containers, prints));
    }
  }

  lemma ClosedWhenDone(fa: Facts)
    requires forall j :: 0 <= j < |fa.trees| && PrintsNow(fa, j) ==> fa.trees[j].name in fa.prints
    ensures PrintsClosed(fa)
  {
    hide NodesOwn, AnyPrints;
    forall i | 0 <= i < |fa.trees|
      && (NodesOwn(fa.containers, fa.trees[i].root) || AnyPrints(fa, NodesCalls(fa.trees[i].root)))
      ensures fa.trees[i].name in fa.prints
    {
      assert PrintsNow(fa, i);
    }
  }

  /** Every closed set holds these trees. */
  ghost predicate BelowClosed(trees: seq<Tree>, containers: set<string>, prints: set<string>) {
    forall s: set<string> :: PrintsClosed(Facts(trees, containers, s)) ==> prints <= s
  }

  lemma AddPrinting(fa: Facts, i: nat)
    requires i < |fa.trees| && PrintsNow(fa, i) && BelowClosed(fa.trees, fa.containers, fa.prints)
    ensures BelowClosed(fa.trees, fa.containers, fa.prints + {fa.trees[i].name})
  {
    forall s: set<string> | PrintsClosed(Facts(fa.trees, fa.containers, s)) ensures fa.trees[i].name in s {
      PrintsMonotone(fa, s, i);
    }
  }

  lemma SmallerRest(names: set<string>, before: set<string>, prints: set<string>)
    requires before < prints <= names
    ensures |names - prints| < |names - before|
  {
    var name :| name in prints && name !in before;
    assert names - prints <= names - before - {name};
    SubsetSize(names - prints, names - before - {name});
  }

  /** dropWhitespace, on the trees of one file: what DropTrees says on the facts of the file, and with it what
      may stay. */
  method DropWhitespace(trees: seq<Tree>) returns (trees': seq<Tree>, fa: Facts)
    ensures fa.trees == trees && IsContainerSet(fa.containers, TreesBounds(trees)) && PrintsLeast(fa)
    ensures trees' == DropTrees(fa, trees) && Leftovers.Tidied(trees, trees')
  {
    hide NothingPrints, KeepMain, MainReentrant, DropAll, DropList, IsContainerSet, PrintsLeast, DropTrees,
      Leftovers.Tidied, TreesBounds;
    var containers := ContainerVariables(trees);
    var prints := PrintingTrees(trees, containers);
    fa := Facts(trees, containers, prints);
    var nothingPrints, keepMain, reentrant := NothingPrints(fa), KeepMain(fa), MainReentrant(fa);
    trees' := [];
    for i := 0 to |trees|
      invariant |trees'| == i
      invariant forall j :: 0 <= j < i ==> trees'[j] == DropTree(fa, trees[j])
    {
      var root := trees[i].root;
      if trees[i].isMain && !keepMain && !reentrant {
        root := DropFromMain.DropFromMain(fa, root);
      } else if nothingPrints && !(trees[i].isMain && keepMain) {
        root := DropAll(root);
      }
      trees' := trees' + [trees[i].(root := root)];
    }
    DropTreesAt(fa, trees);
    Leftovers.DroppingTidies(fa);
  }
}
