/** newRenamer (minify.go): the most used variable gets the shortest name. The naming depends on the file
    alone, keeps variables apart, and no other naming over the same letters prints their uses shorter. */
module Renamer {
  import opened Basics
  import opened Syntax
  import opened Interp
  import opened Renaming

  /** nameAlphabet: a..z, then A..Z. */
  const LETTERS: nat := 52

  function Letter(i: nat): char
    requires i < LETTERS
  {
    if i < 26 then 'a' + i as char else 'A' + (i - 26) as char
  }

  /** The two-letter names run out here; shortName indexes past its alphabet beyond it. */
  const MAX_NAMES: nat := LETTERS + LETTERS * LETTERS

  /** shortName. */
  function ShortName(i: nat): string
    requires i < MAX_NAMES
  {
    if i < LETTERS then [Letter(i)] else [Letter((i - LETTERS) / LETTERS), Letter((i - LETTERS) % LETTERS)]
  }

  lemma LetterInjective(i: nat, j: nat)
    requires i < LETTERS && j < LETTERS && Letter(i) == Letter(j)
    ensures i == j
  {
  }

  lemma ShortNameInjective(i: nat, j: nat)
    requires i < MAX_NAMES && j < MAX_NAMES && ShortName(i) == ShortName(j)
    ensures i == j
  {
    hide Letter;
    assert |ShortName(i)| == |ShortName(j)|;
    assert ShortName(i)[0] == ShortName(j)[0];
    if i < LETTERS {
      LetterInjective(i, j);
    } else {
      assert ShortName(i)[1] == ShortName(j)[1];
      LetterInjective((i - LETTERS) / LETTERS, (j - LETTERS) / LETTERS);
      LetterInjective((i - LETTERS) % LETTERS, (j - LETTERS) % LETTERS);
    }
  }

  // ---------------------------------------------------------------- counting

  /** How often a name is used. */
  function Uses(names: seq<string>, x: string): nat {
    if names == [] then 0 else Uses(names[..|names| - 1], x) + (if names[|names| - 1] == x then 1 else 0)
  }

  /** The place of a name's first use. */
  function FirstUse(names: seq<string>, x: string): nat {
    if names == [] then 0 else if names[0] == x then 0 else 1 + FirstUse(names[1..], x)
  }

  /** The naming order: more uses first, ties by first appearance. */
  predicate Precedes(names: seq<string>, x: string, y: string) {
    Uses(names, x) > Uses(names, y) || (Uses(names, x) == Uses(names, y) && FirstUse(names, x) < FirstUse(names, y))
  }

  /** The variables of a file: every name used but the bare `$`. */
  function Variables(names: seq<string>): set<string> {
    set x | x in names && x != "$"
  }

  /** How many variables come before x in the naming order. */
  function Rank(names: seq<string>, x: string): nat {
    |set y | y in Variables(names) && Precedes(names, y, x)|
  }

  /** The naming: every variable gets the short name of its rank. It depends on the uses alone,
      not on any order in which a map lists them. */
  ghost predicate NamedByRank(names: seq<string>, m: Names) {
    m.Keys == Variables(names)
    && forall x :: x in m ==> Rank(names, x) < MAX_NAMES && m[x] == "$" + ShortName(Rank(names, x))
  }

  lemma {:induction false} FirstUseAt(names: seq<string>, x: string)
    requires x in names
    ensures FirstUse(names, x) < |names| && names[FirstUse(names, x)] == x
    ensures forall i :: 0 <= i < FirstUse(names, x) ==> names[i] != x
  {
    if names[0] != x {
      assert x in names[1..];
      FirstUseAt(names[1..], x);
    }
  }

  /** The naming order is a strict total order on the variables. */
  lemma PrecedesTotal(names: seq<string>, x: string, y: string)
    requires x in names && y in names
    ensures x != y ==> Precedes(names, x, y) != Precedes(names, y, x)
    ensures !Precedes(names, x, x)
  {
    FirstUseAt(names, x);
    FirstUseAt(names, y);
  }

  lemma PrecedesTransitive(names: seq<string>, x: string, y: string, z: string)
    requires Precedes(names, x, y) && Precedes(names, y, z)
    ensures Precedes(names, x, z)
  {
  }

  // ---------------------------------------------------------------- sorting

  predicate Ordered(names: seq<string>, s: seq<string>) {
    forall i, j :: 0 <= i < j < |s| ==> Precedes(names, s[i], s[j])
  }

  /** Some variables in naming order. */
  predicate Lists(names: seq<string>, s: seq<string>, variables: set<string>) {
    Ordered(names, s) && (set x | x in s) == variables && forall x :: x in s ==> x in names
  }

  function Inserted(names: seq<string>, s: seq<string>, x: string): seq<string> {
    if s == [] || !Precedes(names, s[0], x) then [x] + s else [s[0]] + Inserted(names, s[1..], x)
  }

  lemma {:induction false} InsertedLists(names: seq<string>, s: seq<string>, x: string, listed: set<string>)
    requires Lists(names, s, listed) && x in names && x !in listed
    ensures Lists(names, Inserted(names, s, x), listed + {x})
  {
    if s != [] {
      assert s[0] in s && s == [s[0]] + s[1..];
      PrecedesTotal(names, s[0], x);
      if Precedes(names, s[0], x) {
        var rest := set y | y in s[1..];
        InsertedLists(names, s[1..], x, rest);
        var r := Inserted(names, s[1..], x);
        forall j | 0 <= j < |r| ensures Precedes(names, s[0], r[j]) {
          assert r[j] in (set y | y in r);
          assert r[j] in rest + {x};
          assert forall k :: 0 < k < |s| ==> Precedes(names, s[0], s[k]);
        }
        assert forall y :: y in Inserted(names, s, x) <==> y == s[0] || y in r;
        assert forall y :: y in r <==> y in (set z | z in r);
      } else {
        forall k | 0 <= k < |s| ensures Precedes(names, x, s[k]) {
          if k > 0 {
            PrecedesTransitive(names, x, s[0], s[k]);
          }
        }
      }
    }
  }

  /** What the counting loop knows of every variable: its uses, and its number by first appearance. */
  ghost predicate Counted(names: seq<string>, count: map<string, nat>, first: map<string, nat>) {
    && count.Keys == first.Keys == Variables(names)
    && (forall x :: x in count ==> count[x] == Uses(names, x))
    && forall x, y :: x in first && y in first ==> (first[x] < first[y] <==> FirstUse(names, x) < FirstUse(names, y))
  }

  lemma {:induction false} FirstUsePrefix(names: seq<string>, i: nat, x: string)
    requires i < |names| && (x in names[..i] || names[i] == x)
    ensures FirstUse(names, x) == FirstUse(names[..i + 1], x)
    ensures x !in names[..i] ==> FirstUse(names, x) == i
    decreases i
  {
    if names[0] != x {
      assert names[1..][..i] == names[..i + 1][1..] && i > 0;
      assert names[..i] == [names[0]] + names[1..][..i - 1];
      FirstUsePrefix(names[1..], i - 1, x);
    }
  }

  lemma {:induction false} NotUsed(names: seq<string>, x: string)
    ensures Uses(names, x) == 0 <==> x !in names
  {
    if names != [] {
      var n := |names| - 1;
      NotUsed(names[..n], x);
      assert names == names[..n] + [names[n]];
    }
  }

  /** The counts after the first i uses. */
  ghost predicate CountsTo(names: seq<string>, i: nat, count: map<string, nat>)
    requires i <= |names|
  {
    count.Keys == Variables(names[..i]) && forall x :: x in count ==> count[x] == Uses(names[..i], x)
  }

  /** The numbers after the first i uses. */
  ghost predicate NumbersTo(names: seq<string>, i: nat, first: map<string, nat>, next: nat)
    requires i <= |names|
  {
    && first.Keys == Variables(names[..i])
    && (forall x :: x in first ==> first[x] < next && FirstUse(names, x) < i)
    && forall x, y :: x in first && y in first ==> (first[x] < first[y] <==> FirstUse(names, x) < FirstUse(names, y))
  }

  lemma UsesNext(names: seq<string>, i: nat, x: string)
    requires i < |names|
    ensures Uses(names[..i + 1], x) == Uses(names[..i], x) + if names[i] == x then 1 else 0
    ensures Variables(names[..i + 1]) == Variables(names[..i]) + if names[i] == "$" then {} else {names[i]}
  {
    assert names[..i + 1][..i] == names[..i] && names[..i + 1] == names[..i] + [names[i]];
  }

  lemma CountNext(names: seq<string>, i: nat, count: map<string, nat>)
    requires i < |names| && CountsTo(names, i, count)
    ensures var name := names[i];
            var before := if name in count then count[name] else 0;
            CountsTo(names, i + 1, if name == "$" then count else count[name := before + 1])
  {
    hide Uses, Variables;
    var name := names[i];
    UsesNext(names, i, name);
    NotUsed(names[..i], name);
    InVariables(names[..i], name);
    InVariables(names[..i], "$");
    var count' := if name == "$" then count else count[name := (if name in count then count[name] else 0) + 1];
    assert count'.Keys == Variables(names[..i + 1]);
    forall x | x in count' ensures count'[x] == Uses(names[..i + 1], x) {
      UsesNext(names, i, x);
      if x == name {
        assert Uses(names[..i], x) == if x in count then count[x] else 0;
      }
    }
  }

  lemma NumberNext(names: seq<string>, i: nat, first: map<string, nat>, next: nat)
    requires i < |names| && NumbersTo(names, i, first, next)
    ensures var name := names[i];
            if name == "$" || name in first then NumbersTo(names, i + 1, first, next)
            else NumbersTo(names, i + 1, first[name := next], next + 1)
  {
    hide Uses, FirstUse, Variables;
    var name := names[i];
    UsesNext(names, i, name);
    FirstUsePrefix(names, i, name);
    InVariables(names[..i], name);
  }

  lemma InVariables(names: seq<string>, x: string)
    ensures x in Variables(names) <==> x in names && x != "$"
  {
  }

  lemma CountStarts(names: seq<string>)
    ensures CountsTo(names, 0, map[]) && NumbersTo(names, 0, map[], 0)
  {
  }

  lemma CountEnds(names: seq<string>, count: map<string, nat>, first: map<string, nat>, next: nat)
    requires CountsTo(names, |names|, count) && NumbersTo(names, |names|, first, next)
    ensures Counted(names, count, first)
  {
    assert names[..|names|] == names;
  }

  lemma SameNames(names: seq<string>, i: nat, count: map<string, nat>, first: map<string, nat>, next: nat)
    requires i <= |names| && CountsTo(names, i, count) && NumbersTo(names, i, first, next)
    ensures count.Keys == first.Keys && "$" !in count
  {
  }

  method CountNames(names: seq<string>) returns (count: map<string, nat>, first: map<string, nat>)
    ensures Counted(names, count, first)
  {
    hide *;
    count, first := map[], map[];
    var next := 0;
    CountStarts(names);
    for i := 0 to |names|
      invariant CountsTo(names, i, count) && NumbersTo(names, i, first, next)
    {
      var name := names[i];
      SameNames(names, i, count, first, next);
      CountNext(names, i, count);
      NumberNext(names, i, first, next);
      if name == "$" {
        continue;
      }
      if name !in first {
        first := first[name := next];
        next := next + 1;
      }
      count := count[name := (if name in count then count[name] else 0) + 1];
    }
    CountEnds(names, count, first, next);
  }

  /** The comparison of sort.Slice, on the counts, is the naming order. */
  lemma CountedPrecedes(names: seq<string>, count: map<string, nat>, first: map<string, nat>, x: string, y: string)
    requires Counted(names, count, first) && x in count && y in count
    ensures y in first && x in first
    ensures Precedes(names, x, y) <==> count[x] > count[y] || (count[x] == count[y] && first[x] < first[y])
  {
  }

  lemma CountedKeys(names: seq<string>, count: map<string, nat>, first: map<string, nat>)
    requires Counted(names, count, first)
    ensures count.Keys == first.Keys == Variables(names) && forall x :: x in count ==> x in names
  {
  }

  lemma ListsKeys(names: seq<string>, s: seq<string>, variables: set<string>)
    requires Lists(names, s, variables)
    ensures forall y :: y in s ==> y in variables
  {
    assert forall y :: y in s ==> y in (set z | z in s);
  }

  lemma ListsNothing(names: seq<string>)
    ensures Lists(names, [], {})
  {
  }

  /** sort.Slice, by insertion; the order is strict, so the listing it leaves is the only one. */
  method SortNames(ghost names: seq<string>, count: map<string, nat>, first: map<string, nat>) returns (s: seq<string>)
    requires Counted(names, count, first)
    ensures Lists(names, s, Variables(names))
  {
    hide *;
    s := [];
    var left := count.Keys;
    CountedKeys(names, count, first);
    ListsNothing(names);
    assert count.Keys - left == {};
    while left != {}
      invariant left <= count.Keys && Lists(names, s, count.Keys - left)
    {
      var x :| x in left;
      ListsKeys(names, s, count.Keys - left);
      InsertedLists(names, s, x, count.Keys - left);
      s := InsertName(names, count, first, s, x);
      assert count.Keys - (left - {x}) == count.Keys - left + {x};
      left := left - {x};
    }
    assert count.Keys - left == Variables(names);
  }

  lemma InsertedFront(names: seq<string>, s: seq<string>, x: string)
    ensures Inserted(names, s, x)
         == if s == [] || !Precedes(names, s[0], x) then [x] + s else [s[0]] + Inserted(names, s[1..], x)
  {
  }

  method InsertName(ghost names: seq<string>, count: map<string, nat>, first: map<string, nat>, s: seq<string>,
                    x: string)
    returns (s': seq<string>)
    requires Counted(names, count, first) && x in count && forall y :: y in s ==> y in count
    ensures s' == Inserted(names, s, x)
  {
    hide *;
    var i := 0;
    assert s[0..] == s && s[..0] == [];
    CountedKeys(names, count, first);
    while i < |s| && (count[s[i]] > count[x] || (count[s[i]] == count[x] && first[s[i]] < first[x]))
      invariant 0 <= i <= |s| && Inserted(names, s, x) == s[..i] + Inserted(names, s[i..], x)
    {
      assert s[i] in s && s[i..][0] == s[i] && s[i..][1..] == s[i + 1..];
      CountedPrecedes(names, count, first, s[i], x);
      InsertedFront(names, s[i..], x);
      assert s[..i] + ([s[i]] + Inserted(names, s[i + 1..], x)) == s[..i + 1] + Inserted(names, s[i + 1..], x);
      i := i + 1;
    }
    InsertedFront(names, s[i..], x);
    if i < |s| {
      assert s[i] in s && s[i..][0] == s[i];
      CountedPrecedes(names, count, first, s[i], x);
    }
    s' := s[..i] + [x] + s[i..];
    assert s[..i] + ([x] + s[i..]) == s';
  }

  lemma {:induction false} ListingExists(names: seq<string>, variables: set<string>) returns (s: seq<string>)
    requires forall x :: x in variables ==> x in names
    ensures Lists(names, s, variables)
  {
    if variables == {} {
      s := [];
    } else {
      var x :| x in variables;
      s := ListingExists(names, variables - {x});
      InsertedLists(names, s, x, variables - {x});
      s := Inserted(names, s, x);
      assert variables - {x} + {x} == variables;
    }
  }

  /** A listing puts every variable at its rank. */
  lemma ListedAtRank(names: seq<string>, s: seq<string>, i: nat)
    requires Lists(names, s, Variables(names)) && i < |s|
    ensures Rank(names, s[i]) == i
  {
    var before := set y | y in Variables(names) && Precedes(names, y, s[i]);
    forall j | 0 <= j < |s| ensures Precedes(names, s[j], s[i]) <==> j < i {
      assert s[i] in s && s[j] in s;
      PrecedesTotal(names, s[i], s[j]);
    }
    assert forall j :: 0 <= j < |s| ==> s[j] in (set x | x in s);
    assert forall y :: y in before ==> y in (set x | x in s);
    assert forall j :: 0 <= j < i ==> s[..i][j] == s[j];
    assert before == set y | y in s[..i];
    assert Ordered(names, s[..i]);
    DistinctSize(names, s[..i]);
  }

  lemma NewAt(names: seq<string>, s: seq<string>, i: nat)
    requires Ordered(names, s) && i < |s| && forall x :: x in s ==> x in names
    ensures s[i] !in s[..i]
  {
    assert s[i] in s;
    PrecedesTotal(names, s[i], s[i]);
    assert forall j :: 0 <= j < i ==> Precedes(names, s[j], s[i]);
  }

  lemma {:induction false} DistinctSize(names: seq<string>, s: seq<string>)
    requires Ordered(names, s) && forall x :: x in s ==> x in names
    ensures |set x | x in s| == |s|
  {
    if s != [] {
      var last := |s| - 1;
      var init := s[..last];
      assert Ordered(names, init);
      DistinctSize(names, init);
      NewAt(names, s, last);
      assert s == init + [s[last]];
      assert (set x | x in s) == (set x | x in init) + {s[last]};
    }
  }

  // ---------------------------------------------------------------- newRenamer

  /** newRenamer, for a file with no more variables than there are short names. */
  method NewRenamer(trees: seq<Tree>) returns (m: Names)
    requires |Variables(TreesNames(trees))| <= MAX_NAMES
    ensures NamedByRank(TreesNames(trees), m)
    ensures Faithful(m) && KnownNames(m, TreesNames(trees))
  {
    var names := TreesNames(trees);
    var count, first := CountNames(names);
    var s := SortNames(names, count, first);
    m := NameInOrder(names, s);
    RankedIsFaithful(names, m);
  }

  /** Names handed out along a listing are the naming by rank. */
  lemma InOrderIsByRank(names: seq<string>, s: seq<string>, m: Names)
    requires Lists(names, s, Variables(names)) && |s| <= MAX_NAMES && m.Keys == set x | x in s
    requires forall j :: 0 <= j < |s| ==> m[s[j]] == "$" + ShortName(j)
    ensures NamedByRank(names, m)
  {
    hide Rank, Precedes, ShortName;
    forall x | x in m ensures Rank(names, x) < MAX_NAMES && m[x] == "$" + ShortName(Rank(names, x)) {
      var i :| 0 <= i < |s| && s[i] == x;
      ListedAtRank(names, s, i);
    }
  }

  /** A listing holds each variable once. */
  lemma ListsEach(names: seq<string>, s: seq<string>)
    requires Lists(names, s, Variables(names))
    ensures |s| == |Variables(names)|
    ensures forall i :: 0 <= i < |s| ==> s[i] !in s[..i]
  {
    hide Variables, Precedes;
    DistinctSize(names, s);
    forall i | 0 <= i < |s| ensures s[i] !in s[..i] {
      NewAt(names, s, i);
    }
  }

  method NameInOrder(ghost names: seq<string>, s: seq<string>) returns (m: Names)
    requires Lists(names, s, Variables(names)) && |Variables(names)| <= MAX_NAMES
    ensures NamedByRank(names, m)
  {
    hide *;
    ListsEach(names, s);
    m := map[];
    for i := 0 to |s|
      invariant m.Keys == set x | x in s[..i]
      invariant forall j :: 0 <= j < i ==> s[j] in m && m[s[j]] == "$" + ShortName(j)
    {
      m := m[s[i] := "$" + ShortName(i)];
      assert s[..i + 1] == s[..i] + [s[i]];
    }
    assert s[..|s|] == s;
    InOrderIsByRank(names, s, m);
  }

  lemma RankedIsFaithful(names: seq<string>, m: Names)
    requires NamedByRank(names, m)
    ensures Faithful(m) && KnownNames(m, names)
  {
    forall x, y | x in m && y in m && m[x] == m[y] ensures x == y {
      assert m[x][1..] == ShortName(Rank(names, x)) && m[y][1..] == ShortName(Rank(names, y));
      ShortNameInjective(Rank(names, x), Rank(names, y));
      SameRank(names, x, y);
    }
    forall x | x in m ensures m[x] != "$" {
      assert |m[x]| > 1;
    }
  }

  lemma SameRank(names: seq<string>, x: string, y: string)
    requires x in Variables(names) && y in Variables(names) && Rank(names, x) == Rank(names, y)
    ensures x == y
  {
    if x != y {
      PrecedesTotal(names, x, y);
      if Precedes(names, x, y) {
        RankGrows(names, x, y);
      } else {
        RankGrows(names, y, x);
      }
    }
  }

  lemma RankGrows(names: seq<string>, x: string, y: string)
    requires x in Variables(names) && y in Variables(names) && Precedes(names, x, y)
    ensures Rank(names, x) < Rank(names, y)
  {
    var below := set z | z in Variables(names) && Precedes(names, z, x);
    var above := set z | z in Variables(names) && Precedes(names, z, y);
    PrecedesTotal(names, x, x);
    assert x in above && x !in below;
    forall z | z in below ensures z in above {
      PrecedesTransitive(names, z, x, y);
    }
    SubsetSmaller(below, above, x);
  }

  lemma SubsetSmaller<T>(a: set<T>, b: set<T>, x: T)
    requires a <= b && x in b && x !in a
    ensures |a| < |b|
  {
    assert b == a + (b - a) && x in b - a;
  }

  /** Whatever order two runs met the variables in, they hand out the same names. */
  lemma NamingIsUnique(names: seq<string>, m: Names, m': Names)
    requires NamedByRank(names, m) && NamedByRank(names, m')
    ensures m == m'
  {
  }

  // ---------------------------------------------------------------- the naming is optimal

  /** How many letters the variables of a file print as, under some naming. */
  function PrintedLength(names: seq<string>, m: Names): nat {
    if names == [] then 0 else PrintedLength(names[..|names| - 1], m) + |NewName(m, names[|names| - 1])|
  }

  /** Another way to name the variables: injectively, by `$` and one letter or something longer. */
  ghost predicate NamesLetters(names: seq<string>, m: Names) {
    && Faithful(m) && m.Keys == Variables(names)
    && forall x :: x in m ==> |m[x]| > 2 || (|m[x]| == 2 && m[x][0] == '$' && IsLetter(m[x][1]))
  }

  /** The uses of the variables listed whose flag is set. */
  function Marked(names: seq<string>, s: seq<string>, flags: seq<bool>): nat
    requires |flags| == |s|
  {
    if s == [] then 0 else (if flags[0] then Uses(names, s[0]) else 0) + Marked(names, s[1..], flags[1..])
  }

  predicate IsShort(m: Names, x: string) {
    x in m && |m[x]| == 2
  }

  /** Which of the variables listed have one-letter names. */
  function ShortFlags(m: Names, s: seq<string>): (r: seq<bool>)
    ensures |r| == |s|
  {
    if s == [] then [] else [IsShort(m, s[0])] + ShortFlags(m, s[1..])
  }

  function Trues(flags: seq<bool>): nat {
    if flags == [] then 0 else (if flags[0] then 1 else 0) + Trues(flags[1..])
  }

  /** The first k uses of a listing. */
  function First(names: seq<string>, s: seq<string>, k: nat): nat {
    if s == [] || k == 0 then 0 else Uses(names, s[0]) + First(names, s[1..], k - 1)
  }

  predicate Falling(names: seq<string>, s: seq<string>) {
    forall i, j :: 0 <= i < j < |s| ==> Uses(names, s[i]) >= Uses(names, s[j])
  }

  lemma {:induction false} FirstShift(names: seq<string>, s: seq<string>, k: nat)
    requires s != [] && Falling(names, s)
    ensures First(names, s[1..], k) <= First(names, s, k)
  {
    if k > 0 && |s| > 1 {
      assert Uses(names, s[0]) >= Uses(names, s[1]);
      FirstShift(names, s[1..], k - 1);
    }
  }

  /** No k variables are used more than the first k of a falling listing. */
  lemma {:induction false} MarkedAtMostFirst(names: seq<string>, s: seq<string>, flags: seq<bool>, k: nat)
    requires |flags| == |s| && Falling(names, s) && Trues(flags) <= k
    ensures Marked(names, s, flags) <= First(names, s, k)
  {
    if s != [] {
      assert Falling(names, s[1..]);
      if flags[0] {
        MarkedAtMostFirst(names, s[1..], flags[1..], k - 1);
      } else {
        MarkedAtMostFirst(names, s[1..], flags[1..], k);
        FirstShift(names, s, k);
      }
    }
  }

  function Letters(): (r: set<string>)
    ensures |r| <= LETTERS
    ensures forall c :: IsLetter(c) ==> ['$', c] in r
  {
    LetterSet(LETTERS)
  }

  function LetterSet(n: nat): (r: set<string>)
    requires n <= LETTERS
    ensures |r| <= n
    ensures forall c :: IsLetter(c) && (exists i :: 0 <= i < n && Letter(i) == c) ==> ['$', c] in r
    ensures n == LETTERS ==> forall c :: IsLetter(c) ==> ['$', c] in r
  {
    if n == 0 then {}
    else
      assert n == LETTERS ==> forall c :: IsLetter(c) ==>
        Letter(if 'a' <= c <= 'z' then c as nat - 'a' as nat else 26 + (c as nat - 'A' as nat)) == c;
      LetterSet(n - 1) + {['$', Letter(n - 1)]}
  }

  /** The one-letter names given to the variables listed. */
  function ShortNames(m: Names, s: seq<string>): set<string> {
    if s == [] then {} else (if IsShort(m, s[0]) then {m[s[0]]} else {}) + ShortNames(m, s[1..])
  }

  lemma ShortFront(m: Names, s: seq<string>)
    requires s != []
    ensures Trues(ShortFlags(m, s)) == (if IsShort(m, s[0]) then 1 else 0) + Trues(ShortFlags(m, s[1..]))
    ensures ShortNames(m, s) == (if IsShort(m, s[0]) then {m[s[0]]} else {}) + ShortNames(m, s[1..])
  {
    hide IsShort;
    assert ShortFlags(m, s)[1..] == ShortFlags(m, s[1..]);
  }

  lemma ShortIsLetter(names: seq<string>, m: Names, x: string)
    requires NamesLetters(names, m) && IsShort(m, x)
    ensures m[x] in Letters()
  {
    hide Letters;
    assert m[x] == ['$', m[x][1]];
  }

  lemma {:induction false} ShortNamesAreLetters(names: seq<string>, m: Names, s: seq<string>)
    requires NamesLetters(names, m)
    ensures ShortNames(m, s) <= Letters()
  {
    if s != [] {
      hide *;
      ShortFront(m, s);
      ShortNamesAreLetters(names, m, s[1..]);
      if IsShort(m, s[0]) {
        ShortIsLetter(names, m, s[0]);
      }
    }
  }

  lemma {:induction false} OtherNamesDiffer(m: Names, x: string, s: seq<string>)
    requires Faithful(m) && x in m && forall i :: 0 <= i < |s| ==> s[i] != x
    ensures m[x] !in ShortNames(m, s)
  {
    if s != [] {
      OtherNamesDiffer(m, x, s[1..]);
    }
  }

  lemma {:induction false} FewShortCount(m: Names, s: seq<string>)
    requires Faithful(m) && forall i, j :: 0 <= i < j < |s| ==> s[i] != s[j]
    ensures Trues(ShortFlags(m, s)) == |ShortNames(m, s)|
  {
    if s != [] {
      hide *;
      ShortFront(m, s);
      FewShortCount(m, s[1..]);
      if IsShort(m, s[0]) {
        OtherNamesDiffer(m, s[0], s[1..]);
      }
    }
  }

  /** An injective naming gives no more than 52 variables a one-letter name. */
  lemma FewShort(names: seq<string>, m: Names, s: seq<string>)
    requires NamesLetters(names, m) && forall i, j :: 0 <= i < j < |s| ==> s[i] != s[j]
    ensures Trues(ShortFlags(m, s)) <= LETTERS
  {
    hide *;
    LettersAreFaithful(names, m);
    FewShortCount(m, s);
    ShortNamesAreLetters(names, m, s);
    assert Letters() == ShortNames(m, s) + (Letters() - ShortNames(m, s));
  }

  lemma LettersAreFaithful(names: seq<string>, m: Names)
    requires NamesLetters(names, m)
    ensures Faithful(m)
  {
  }

  /** The letters of the variables listed, by how often each is used. */
  function Weighted(names: seq<string>, s: seq<string>, m: Names): nat {
    if s == [] then 0 else Uses(names, s[0]) * |NewName(m, s[0])| + Weighted(names, s[1..], m)
  }

  lemma MoreLetters(uses: nat, n: nat)
    requires n >= 2
    ensures uses * n + (if n == 2 then uses else 0) >= 3 * uses
  {
    if n > 2 {
      assert uses * n == uses * 3 + uses * (n - 3);
    }
  }

  lemma {:induction false} WeightedAtLeast(names: seq<string>, s: seq<string>, m: Names)
    requires forall i :: 0 <= i < |s| ==> s[i] in m && |m[s[i]]| >= 2
    ensures Weighted(names, s, m) + Marked(names, s, ShortFlags(m, s)) >= 3 * First(names, s, |s|)
  {
    if s != [] {
      hide Uses;
      WeightedAtLeast(names, s[1..], m);
      MoreLetters(Uses(names, s[0]), |m[s[0]]|);
      assert ShortFlags(m, s)[1..] == ShortFlags(m, s[1..]);
    }
  }

  /** A naming whose first k listed variables, and no others, have one letter. */
  lemma {:induction false} WeightedRanked(names: seq<string>, s: seq<string>, m: Names, k: nat)
    requires forall i :: 0 <= i < |s| ==> |NewName(m, s[i])| == if i < k then 2 else 3
    ensures Weighted(names, s, m) + First(names, s, k) == 3 * First(names, s, |s|)
  {
    if s != [] {
      var rest := s[1..];
      WeightedRanked(names, rest, m, if k > 0 then k - 1 else 0);
      assert |NewName(m, s[0])| == if k > 0 then 2 else 3;
    }
  }

  // ---- the printed length, use by use and variable by variable

  lemma UsesSnoc(names: seq<string>, x: string, y: string)
    ensures Uses(names + [x], y) == Uses(names, y) + (if x == y then 1 else 0)
  {
    assert (names + [x])[..|names|] == names;
  }

  lemma OneMore(uses: nat, n: nat)
    ensures (uses + 1) * n == uses * n + n
  {
  }

  lemma {:induction false} WeightedStep(names: seq<string>, x: string, s: seq<string>, m: Names)
    requires forall i, j :: 0 <= i < j < |s| ==> s[i] != s[j]
    ensures Weighted(names + [x], s, m) == Weighted(names, s, m) + (if x in s then |NewName(m, x)| else 0)
  {
    if s != [] {
      hide Uses, NewName;
      WeightedStep(names, x, s[1..], m);
      UsesSnoc(names, x, s[0]);
      OneMore(Uses(names, s[0]), |NewName(m, s[0])|);
      assert x in s <==> x == s[0] || x in s[1..];
    }
  }

  lemma {:induction false} LengthIsWeighted(names: seq<string>, s: seq<string>, m: Names)
    requires forall i, j :: 0 <= i < j < |s| ==> s[i] != s[j]
    requires forall x :: x in names ==> x in s || x == "$"
    requires "$" !in s && "$" !in m
    ensures PrintedLength(names, m) == Weighted(names, s, m) + Uses(names, "$")
  {
    if names == [] {
      WeightedNone(s, m);
    } else {
      var init, x := names[..|names| - 1], names[|names| - 1];
      assert names == init + [x];
      LengthIsWeighted(init, s, m);
      WeightedStep(init, x, s, m);
    }
  }

  lemma {:induction false} WeightedNone(s: seq<string>, m: Names)
    ensures Weighted([], s, m) == 0
  {
    if s != [] {
      WeightedNone(s[1..], m);
    }
  }

  lemma ListedFacts(names: seq<string>, s: seq<string>)
    requires Lists(names, s, Variables(names))
    ensures forall i, j :: 0 <= i < j < |s| ==> s[i] != s[j]
    ensures forall x :: x in s <==> x in Variables(names)
    ensures Falling(names, s)
  {
    forall i, j | 0 <= i < j < |s| ensures s[i] != s[j] {
      assert s[i] in s;
      PrecedesTotal(names, s[i], s[i]);
      assert Precedes(names, s[i], s[j]);
    }
    assert forall x :: x in s <==> x in (set y | y in s);
  }

  /** No injective naming that keeps variables apart from each other and from `$` prints the uses of
      a file's variables in fewer letters than the naming by rank. */
  lemma RankNamingIsShortest(names: seq<string>, m: Names, other: Names)
    requires NamedByRank(names, m) && NamesLetters(names, other)
    ensures PrintedLength(names, m) <= PrintedLength(names, other)
  {
    var s := ListingExists(names, Variables(names));
    ListedFacts(names, s);
    forall i | 0 <= i < |s| ensures |NewName(m, s[i])| == if i < LETTERS then 2 else 3 {
      ListedAtRank(names, s, i);
      assert s[i] in s;
    }
    assert forall i :: 0 <= i < |s| ==> s[i] in s;
    WeightedRanked(names, s, m, LETTERS);
    WeightedAtLeast(names, s, other);
    FewShort(names, other, s);
    MarkedAtMostFirst(names, s, ShortFlags(other, s), LETTERS);
    LengthIsWeighted(names, s, m);
    LengthIsWeighted(names, s, other);
  }
}
