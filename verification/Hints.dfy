/** The nearest function name to a mistyped one (hints.go): a two-row edit distance and the best of a
    sorted list. */
module Hints {

  // ---------------------------------------------------------------- edit scripts

  datatype Edit = Keep(c: char) | Substitute(from: char, to: char) | Insert(c: char) | Delete(c: char)

  function Source(script: seq<Edit>): string {
    if script == [] then ""
    else
      var e := script[|script| - 1];
      Source(script[..|script| - 1])
      + (match e case Keep(c) => [c] case Substitute(c, _) => [c] case Delete(c) => [c] case Insert(_) => "")
  }

  function Target(script: seq<Edit>): string {
    if script == [] then ""
    else
      var e := script[|script| - 1];
      Target(script[..|script| - 1])
      + (match e case Keep(c) => [c] case Substitute(_, c) => [c] case Insert(c) => [c] case Delete(_) => "")
  }

  function Cost(script: seq<Edit>): nat {
    if script == [] then 0
    else Cost(script[..|script| - 1]) + if script[|script| - 1].Keep? then 0 else 1
  }

  predicate Turns(script: seq<Edit>, a: string, b: string) {
    Source(script) == a && Target(script) == b
  }

  // ---------------------------------------------------------------- Levenshtein distance

  function Min(a: nat, b: nat): nat {
    if a <= b then a else b
  }

  function Distance(a: string, b: string): nat
    decreases |a| + |b|
  {
    if a == "" then |b|
    else if b == "" then |a|
    else
      var a', b' := a[..|a| - 1], b[..|b| - 1];
      Min(Min(Distance(a', b) + 1, Distance(a, b') + 1),
          Distance(a', b') + if a[|a| - 1] == b[|b| - 1] then 0 else 1)
  }

  /** Dropping the last character of a text changes the distance by at most one. */
  lemma {:induction false} DistanceShift(a: string, b: string)
    ensures a != "" ==> Distance(a, b) <= Distance(a[..|a| - 1], b) + 1
    ensures b != "" ==> Distance(a, b) <= Distance(a, b[..|b| - 1]) + 1
    decreases |a| + |b|
  {
    if b != "" && a == "" {
      assert |b[..|b| - 1]| == |b| - 1;
    }
  }

  /** No script is cheaper than the distance. */
  lemma {:induction false} NoCheaper(script: seq<Edit>, a: string, b: string)
    requires Turns(script, a, b)
    ensures Distance(a, b) <= Cost(script)
    decreases |script|
  {
    if script != [] {
      var rest, e := script[..|script| - 1], script[|script| - 1];
      var s, t := Source(rest), Target(rest);
      NoCheaper(rest, s, t);
      match e {
        case Keep(c) =>
          assert a[..|a| - 1] == s && b[..|b| - 1] == t;
        case Substitute(from, to) =>
          assert a[..|a| - 1] == s && b[..|b| - 1] == t;
        case Insert(c) =>
          assert a == s && b[..|b| - 1] == t;
          DistanceShift(a, b);
        case Delete(c) =>
          assert b == t && a[..|a| - 1] == s;
          DistanceShift(a, b);
      }
    }
  }

  /** A script that costs just the distance. */
  lemma {:induction false} Cheapest(a: string, b: string) returns (script: seq<Edit>)
    ensures Turns(script, a, b) && Cost(script) == Distance(a, b)
    decreases |a| + |b|
  {
    if a == "" && b == "" {
      script := [];
    } else {
      var e: Edit, rest: seq<Edit>;
      if a == "" {
        e := Insert(b[|b| - 1]);
        rest := Cheapest(a, b[..|b| - 1]);
      } else if b == "" {
        e := Delete(a[|a| - 1]);
        rest := Cheapest(a[..|a| - 1], b);
      } else {
        var a', b', x, y := a[..|a| - 1], b[..|b| - 1], a[|a| - 1], b[|b| - 1];
        if Distance(a, b) == Distance(a', b) + 1 {
          e := Delete(x);
          rest := Cheapest(a', b);
        } else if Distance(a, b) == Distance(a, b') + 1 {
          e := Insert(y);
          rest := Cheapest(a, b');
        } else {
          e := if x == y then Keep(x) else Substitute(x, y);
          rest := Cheapest(a', b');
        }
      }
      script := rest + [e];
      assert script[..|script| - 1] == rest;
      assert a + "" == a && b + "" == b;
      assert a != "" ==> a[..|a| - 1] + [a[|a| - 1]] == a;
      assert b != "" ==> b[..|b| - 1] + [b[|b| - 1]] == b;
    }
  }

  /** The distance is the least cost of a script from one text to the other. */
  lemma DistanceIsLeastCost(a: string, b: string)
    ensures exists script :: Turns(script, a, b) && Cost(script) == Distance(a, b)
    ensures forall script :: Turns(script, a, b) ==> Distance(a, b) <= Cost(script)
  {
    var script := Cheapest(a, b);
    forall script | Turns(script, a, b) ensures Distance(a, b) <= Cost(script) {
      NoCheaper(script, a, b);
    }
  }

  // ---------------------------------------------------------------- the two rows

  lemma DistanceStep(a: string, b: string)
    requires a != "" && b != ""
    ensures var a', b' := a[..|a| - 1], b[..|b| - 1];
            Distance(a, b) == Min(Min(Distance(a', b) + 1, Distance(a, b') + 1),
                                  Distance(a', b') + if a[|a| - 1] == b[|b| - 1] then 0 else 1)
  {
  }

  lemma DistanceAt(a: string, b: string, i: nat, j: nat)
    requires 1 <= i <= |a| && 1 <= j <= |b|
    ensures Distance(a[..i], b[..j])
         == Min(Min(Distance(a[..i - 1], b[..j]) + 1, Distance(a[..i], b[..j - 1]) + 1),
                Distance(a[..i - 1], b[..j - 1]) + if a[i - 1] == b[j - 1] then 0 else 1)
  {
    hide Distance;
    DistanceStep(a[..i], b[..j]);
    assert a[..i][..i - 1] == a[..i - 1] && b[..j][..j - 1] == b[..j - 1];
  }

  method EditDistance(a: string, b: string) returns (d: nat)
    ensures d == Distance(a, b)
  {
    hide Distance;
    var prev, cur := new nat[|b| + 1], new nat[|b| + 1];
    for j := 0 to |b| + 1
      invariant forall k :: 0 <= k < j ==> prev[k] == k
    {
      prev[j] := j;
    }
    forall j | 0 <= j <= |b| ensures Distance(a[..0], b[..j]) == j {
      NothingLeft(a[..0], b[..j]);
    }
    for i := 1 to |a| + 1
      invariant prev.Length == |b| + 1 && cur.Length == |b| + 1 && prev != cur
      invariant fresh(prev) && fresh(cur)
      invariant forall k :: 0 <= k <= |b| ==> prev[k] == Distance(a[..i - 1], b[..k])
    {
      cur[0] := i;
      NothingLeft(a[..i], b[..0]);
      for j := 1 to |b| + 1
        invariant forall k :: 0 <= k <= |b| ==> prev[k] == Distance(a[..i - 1], b[..k])
        invariant forall k :: 0 <= k < j ==> cur[k] == Distance(a[..i], b[..k])
      {
        var cost := 1;
        if a[i - 1] == b[j - 1] {
          cost := 0;
        }
        DistanceAt(a, b, i, j);
        cur[j] := Min(Min(prev[j] + 1, cur[j - 1] + 1), prev[j - 1] + cost);
      }
      prev, cur := cur, prev;
    }
    assert a[..|a|] == a && b[..|b|] == b;
    d := prev[|b|];
  }

  lemma NothingLeft(a: string, b: string)
    ensures a == "" ==> Distance(a, b) == |b|
    ensures b == "" ==> Distance(a, b) == |a|
  {
  }

  // ---------------------------------------------------------------- the nearest name

  /** name's distance to the k-th name, letter case aside. */
  function Far(lower: string -> string, name: string, n: string): nat {
    Distance(lower(name), lower(n))
  }

  /** The names are sorted, so the first of several nearest ones is the first alphabetically. With a name
      equal but for case, that name; else the first name of least distance below the bound, or none. */
  method Closest(names: seq<string>, same: (string, string) -> bool, lower: string -> string, name: string)
    returns (best: string)
    requires "" !in names
    ensures (exists n :: n in names && same(n, name)) ==>
              exists k :: 0 <= k < |names| && best == names[k] && same(best, name)
                       && forall l :: 0 <= l < k ==> !same(names[l], name)
    ensures (forall n :: n in names ==> !same(n, name)) && best != "" ==>
              exists k :: 0 <= k < |names| && best == names[k] && Far(lower, name, best) < |name| / 3 + 2
                       && (forall l :: 0 <= l < k ==> Far(lower, name, names[l]) > Far(lower, name, best))
                       && (forall l :: k <= l < |names| ==> Far(lower, name, names[l]) >= Far(lower, name, best))
    ensures (forall n :: n in names ==> !same(n, name)) ==>
              (best == "" <==> forall n :: n in names ==> Far(lower, name, n) >= |name| / 3 + 2)
  {
    hide Distance;
    best := "";
    var bestDist := |name| / 3 + 2;
    ghost var at := 0;
    for i := 0 to |names|
      invariant forall k :: 0 <= k < i ==> !same(names[k], name)
      invariant forall k :: 0 <= k < i ==> Far(lower, name, names[k]) >= bestDist
      invariant best == "" ==> bestDist == |name| / 3 + 2
      invariant best != "" ==> 0 <= at < i && best == names[at] && bestDist == Far(lower, name, best) < |name| / 3 + 2
      invariant best != "" ==> forall k :: 0 <= k < at ==> Far(lower, name, names[k]) > bestDist
    {
      var n := names[i];
      assert n in names;
      if same(n, name) {
        return n;
      }
      var d := EditDistance(lower(name), lower(n));
      if d < bestDist {
        best, bestDist := n, d;
        at := i;
      }
    }
  }
}
