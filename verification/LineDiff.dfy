/** The snapshot diff (snapshot.go, lineDiff): a table of longest common subsequences and a walk over it. */
module LineDiff {

  type Line = string

  // ---------------------------------------------------------------- common subsequences

  predicate IsSubsequence(s: seq<Line>, x: seq<Line>) {
    s == [] || (x != [] && ((s[0] == x[0] && IsSubsequence(s[1..], x[1..])) || IsSubsequence(s, x[1..])))
  }

  /** What the table holds for the lines from a place on in each text. */
  function Lcs(x: seq<Line>, y: seq<Line>): nat
    decreases |x| + |y|
  {
    if x == [] || y == [] then 0
    else if x[0] == y[0] then Lcs(x[1..], y[1..]) + 1
    else if Lcs(x[1..], y) >= Lcs(x, y[1..]) then Lcs(x[1..], y)
    else Lcs(x, y[1..])
  }

  lemma {:induction false} SubsequenceTail(s: seq<Line>, x: seq<Line>)
    requires s != [] && IsSubsequence(s, x)
    ensures IsSubsequence(s[1..], x) && x != [] && IsSubsequence(s[1..], x[1..])
    decreases |x|
  {
    if s[0] == x[0] && IsSubsequence(s[1..], x[1..]) {
      Later(s[1..], x);
    } else {
      SubsequenceTail(s, x[1..]);
      Later(s[1..], x);
    }
  }

  lemma Later(s: seq<Line>, x: seq<Line>)
    requires x != [] && IsSubsequence(s, x[1..])
    ensures IsSubsequence(s, x)
  {
  }

  /** Skipping a line of a text costs a common subsequence at most one. */
  lemma {:induction false} LcsShift(x: seq<Line>, y: seq<Line>)
    ensures x != [] ==> Lcs(x[1..], y) <= Lcs(x, y) <= Lcs(x[1..], y) + 1
    ensures y != [] ==> Lcs(x, y[1..]) <= Lcs(x, y) <= Lcs(x, y[1..]) + 1
    decreases |x| + |y|
  {
    if x != [] && y != [] {
      LcsShift(x[1..], y);
      LcsShift(x, y[1..]);
    }
  }

  /** No common subsequence is longer than the table says. */
  lemma {:induction false} LcsIsMost(s: seq<Line>, x: seq<Line>, y: seq<Line>)
    requires IsSubsequence(s, x) && IsSubsequence(s, y)
    ensures |s| <= Lcs(x, y)
    decreases |x| + |y|
  {
    if s != [] {
      if s[0] == x[0] == y[0] {
        SubsequenceTail(s, x);
        SubsequenceTail(s, y);
        LcsIsMost(s[1..], x[1..], y[1..]);
      } else if s[0] != x[0] {
        LcsIsMost(s, x[1..], y);
        LcsShift(x, y);
      } else {
        LcsIsMost(s, x, y[1..]);
        LcsShift(x, y);
      }
    }
  }

  // ---------------------------------------------------------------- edit scripts

  datatype Edit = Keep(line: Line) | Remove(line: Line) | Add(line: Line)

  function Before(script: seq<Edit>): seq<Line> {
    if script == [] then [] else (if script[0].Add? then [] else [script[0].line]) + Before(script[1..])
  }

  function AfterEdits(script: seq<Edit>): seq<Line> {
    if script == [] then [] else (if script[0].Remove? then [] else [script[0].line]) + AfterEdits(script[1..])
  }

  function Kept(script: seq<Edit>): seq<Line> {
    if script == [] then [] else (if script[0].Keep? then [script[0].line] else []) + Kept(script[1..])
  }

  function Changes(script: seq<Edit>): seq<Edit> {
    if script == [] then [] else (if script[0].Keep? then [] else [script[0]]) + Changes(script[1..])
  }

  /** The script rebuilds both texts: kept and removed lines the first, kept and added lines the second. */
  predicate Turns(script: seq<Edit>, x: seq<Line>, y: seq<Line>) {
    Before(script) == x && AfterEdits(script) == y
  }

  lemma {:induction false} KeptIsCommon(script: seq<Edit>)
    ensures IsSubsequence(Kept(script), Before(script)) && IsSubsequence(Kept(script), AfterEdits(script))
    ensures |Changes(script)| == |Before(script)| + |AfterEdits(script)| - 2 * |Kept(script)|
  {
    if script != [] {
      KeptIsCommon(script[1..]);
      var e := script[0];
      var b, a, k := Before(script[1..]), AfterEdits(script[1..]), Kept(script[1..]);
      if e.Keep? {
        assert ([e.line] + k)[1..] == k && ([e.line] + b)[1..] == b && ([e.line] + a)[1..] == a;
      } else {
        assert [] + k == k;
        assert ([e.line] + b)[1..] == b && ([e.line] + a)[1..] == a && [] + a == a && [] + b == b;
      }
    }
  }

  /** The walk over the table. */
  function Walk(x: seq<Line>, y: seq<Line>): seq<Edit>
    decreases |x| + |y|
  {
    if x == [] && y == [] then []
    else if x != [] && y != [] && x[0] == y[0] then [Keep(x[0])] + Walk(x[1..], y[1..])
    else if y != [] && (x == [] || Lcs(x, y[1..]) >= Lcs(x[1..], y)) then [Add(y[0])] + Walk(x, y[1..])
    else [Remove(x[0])] + Walk(x[1..], y)
  }

  lemma StepTurns(e: Edit, rest: seq<Edit>)
    ensures var script := [e] + rest;
            && Before(script) == (if e.Add? then [] else [e.line]) + Before(rest)
            && AfterEdits(script) == (if e.Remove? then [] else [e.line]) + AfterEdits(rest)
            && |Kept(script)| == |Kept(rest)| + if e.Keep? then 1 else 0
  {
    assert ([e] + rest)[1..] == rest;
  }

  lemma {:induction false} WalkTurns(x: seq<Line>, y: seq<Line>)
    ensures Turns(Walk(x, y), x, y) && |Kept(Walk(x, y))| == Lcs(x, y)
    decreases |x| + |y|
  {
    if x == [] && y == [] {
    } else {
      hide Before, AfterEdits, Kept;
      if x != [] && y != [] && x[0] == y[0] {
        WalkTurns(x[1..], y[1..]);
        StepTurns(Keep(x[0]), Walk(x[1..], y[1..]));
      } else if y != [] && (x == [] || Lcs(x, y[1..]) >= Lcs(x[1..], y)) {
        WalkTurns(x, y[1..]);
        StepTurns(Add(y[0]), Walk(x, y[1..]));
      } else {
        WalkTurns(x[1..], y);
        StepTurns(Remove(x[0]), Walk(x[1..], y));
      }
    }
  }

  /** The table's number is the length of some common subsequence, and of none that is longer. */
  lemma LcsIsLongest(x: seq<Line>, y: seq<Line>)
    ensures exists s :: IsSubsequence(s, x) && IsSubsequence(s, y) && |s| == Lcs(x, y)
    ensures forall s :: IsSubsequence(s, x) && IsSubsequence(s, y) ==> |s| <= Lcs(x, y)
  {
    WalkTurns(x, y);
    KeptIsCommon(Walk(x, y));
    var s := Kept(Walk(x, y));
    assert IsSubsequence(s, x) && IsSubsequence(s, y);
    forall s | IsSubsequence(s, x) && IsSubsequence(s, y) ensures |s| <= Lcs(x, y) {
      LcsIsMost(s, x, y);
    }
  }

  /** The walk rebuilds both texts and changes as few lines as any script can. */
  lemma WalkIsShortest(x: seq<Line>, y: seq<Line>, script: seq<Edit>)
    requires Turns(script, x, y)
    ensures Turns(Walk(x, y), x, y)
    ensures |Changes(Walk(x, y))| <= |Changes(script)|
  {
    WalkTurns(x, y);
    KeptIsCommon(Walk(x, y));
    KeptIsCommon(script);
    LcsIsMost(Kept(script), x, y);
  }

  // ---------------------------------------------------------------- the loops

  const MAX_LINES: nat := 40

  method Table(x: seq<Line>, y: seq<Line>) returns (lcs: array2<nat>)
    ensures fresh(lcs) && lcs.Length0 == |x| + 1 && lcs.Length1 == |y| + 1
    ensures forall i, j :: 0 <= i <= |x| && 0 <= j <= |y| ==> lcs[i, j] == Lcs(x[i..], y[j..])
  {
    hide Lcs;
    lcs := new nat[|x| + 1, |y| + 1]((i, j) => 0);
    forall j | 0 <= j <= |y| ensures Lcs(x[|x|..], y[j..]) == 0 {
      LcsNothing(x[|x|..], y[j..]);
    }
    var i := |x|;
    while i > 0
      invariant 0 <= i <= |x|
      invariant forall k, j :: 0 <= k < i && 0 <= j <= |y| ==> lcs[k, j] == 0
      invariant forall k, j :: i <= k <= |x| && 0 <= j <= |y| ==> lcs[k, j] == Lcs(x[k..], y[j..])
    {
      i := i - 1;
      var j := |y|;
      LcsNothing(x[i..], y[|y|..]);
      while j > 0
        invariant 0 <= j <= |y|
        invariant forall k, l :: 0 <= k < i && 0 <= l <= |y| ==> lcs[k, l] == 0
        invariant forall l :: 0 <= l < j ==> lcs[i, l] == 0
        invariant forall l :: j <= l <= |y| ==> lcs[i, l] == Lcs(x[i..], y[l..])
        invariant forall k, l :: i < k <= |x| && 0 <= l <= |y| ==> lcs[k, l] == Lcs(x[k..], y[l..])
      {
        j := j - 1;
        LcsAt(x, y, i, j);
        if x[i] == y[j] {
          lcs[i, j] := lcs[i + 1, j + 1] + 1;
        } else if lcs[i + 1, j] >= lcs[i, j + 1] {
          lcs[i, j] := lcs[i + 1, j];
        } else {
          lcs[i, j] := lcs[i, j + 1];
        }
      }
    }
  }

  lemma LcsNothing(x: seq<Line>, y: seq<Line>)
    requires x == [] || y == []
    ensures Lcs(x, y) == 0
  {
  }

  lemma LcsAt(x: seq<Line>, y: seq<Line>, i: nat, j: nat)
    requires i < |x| && j < |y|
    ensures Lcs(x[i..], y[j..])
         == if x[i] == y[j] then Lcs(x[i + 1..], y[j + 1..]) + 1
            else if Lcs(x[i + 1..], y[j..]) >= Lcs(x[i..], y[j + 1..]) then Lcs(x[i + 1..], y[j..])
            else Lcs(x[i..], y[j + 1..])
  {
    assert x[i..][1..] == x[i + 1..] && y[j..][1..] == y[j + 1..];
  }

  lemma WalkAt(x: seq<Line>, y: seq<Line>, i: nat, j: nat)
    requires i <= |x| && j <= |y| && (i < |x| || j < |y|)
    ensures Changes(Walk(x[i..], y[j..]))
         == if i < |x| && j < |y| && x[i] == y[j] then Changes(Walk(x[i + 1..], y[j + 1..]))
            else if j < |y| && (i == |x| || Lcs(x[i..], y[j + 1..]) >= Lcs(x[i + 1..], y[j..])) then
              [Add(y[j])] + Changes(Walk(x[i..], y[j + 1..]))
            else [Remove(x[i])] + Changes(Walk(x[i + 1..], y[j..]))
  {
    if i < |x| {
      assert x[i..][1..] == x[i + 1..];
    }
    if j < |y| {
      assert y[j..][1..] == y[j + 1..];
    }
    var w := Walk(x[i..], y[j..]);
    if i < |x| && j < |y| && x[i] == y[j] {
      assert w[1..] == Walk(x[i + 1..], y[j + 1..]);
    } else if j < |y| && (i == |x| || Lcs(x[i..], y[j + 1..]) >= Lcs(x[i + 1..], y[j..])) {
      assert w[1..] == Walk(x[i..], y[j + 1..]);
    } else {
      assert w[1..] == Walk(x[i + 1..], y[j..]);
    }
  }

  /** The diff shows the walk's changes in order, the first 40 of them, and says "..." at 40. */
  method Diff(x: seq<Line>, y: seq<Line>) returns (out: seq<Edit>, more: bool)
    ensures var all := Changes(Walk(x, y));
            out == (if |all| > MAX_LINES then all[..MAX_LINES] else all) && more == (|all| >= MAX_LINES)
  {
    hide Changes, Walk, Lcs;
    var lcs := Table(x, y);
    ghost var all := Changes(Walk(x, y));
    out := [];
    var i, j := 0, 0;
    assert x[0..] == x && y[0..] == y;
    assert [] + all == all;
    while (i < |x| || j < |y|) && |out| < MAX_LINES
      modifies {}
      invariant 0 <= i <= |x| && 0 <= j <= |y| && |out| <= MAX_LINES
      invariant out + Changes(Walk(x[i..], y[j..])) == all
      decreases |x| - i + |y| - j
    {
      WalkAt(x, y, i, j);
      ghost var rest := Changes(Walk(x[i..], y[j..]));
      if i < |x| && j < |y| && x[i] == y[j] {
        i, j := i + 1, j + 1;
      } else if j < |y| && (i == |x| || lcs[i, j + 1] >= lcs[i + 1, j]) {
        assert rest == [Add(y[j])] + Changes(Walk(x[i..], y[j + 1..]));
        assert out + rest == out + [Add(y[j])] + Changes(Walk(x[i..], y[j + 1..]));
        out := out + [Add(y[j])];
        j := j + 1;
      } else {
        assert rest == [Remove(x[i])] + Changes(Walk(x[i + 1..], y[j..]));
        assert out + rest == out + [Remove(x[i])] + Changes(Walk(x[i + 1..], y[j..]));
        out := out + [Remove(x[i])];
        i := i + 1;
      }
    }
    more := |out| == MAX_LINES;
    if i == |x| && j == |y| {
      WalkEnd(x[i..], y[j..]);
    }
    assert out <= all;
  }

  lemma WalkEnd(x: seq<Line>, y: seq<Line>)
    requires x == [] && y == []
    ensures Changes(Walk(x, y)) == []
  {
  }
}
