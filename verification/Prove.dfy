/** yagmin's own check of a renaming (prove.go): whether one text is another with its variables renamed
    by one injective map to short names. */
module Prove {

  import opened Basics

  // ---------------------------------------------------------------- variable tokens

  predicate StartsWord(c: char) {
    IsLetter(c) || c == '_'
  }

  predicate IsWord(c: char) {
    StartsWord(c) || '0' <= c <= '9'
  }

  predicate TokenAt(s: string, i: nat) {
    i + 1 < |s| && s[i] == '$' && StartsWord(s[i + 1])
  }

  function WordEnd(s: string, i: nat): (e: nat)
    requires i <= |s|
    ensures i <= e <= |s|
    ensures forall k :: i <= k < e ==> IsWord(s[k])
    ensures e < |s| ==> !IsWord(s[e])
    decreases |s| - i
  {
    if i < |s| && IsWord(s[i]) then WordEnd(s, i + 1) else i
  }

  /** The matches of varToken in the text from a place on: leftmost, longest, not overlapping. */
  function FindAll(s: string, from: nat): (spans: seq<(nat, nat)>)
    requires from <= |s|
    ensures forall k :: 0 <= k < |spans| ==> from <= spans[k].0 < spans[k].1 <= |s|
    decreases |s| - from
  {
    if from == |s| then []
    else if TokenAt(s, from) then
      var e := WordEnd(s, from + 1);
      [(from, e)] + FindAll(s, e)
    else FindAll(s, from + 1)
  }

  /** A text as its variable tokens and what stands before, between and after them. */
  datatype Lexed = Lexed(gaps: seq<string>, names: seq<string>)

  function Lex(s: string): (l: Lexed)
    ensures |l.gaps| == |l.names| + 1
    decreases |s|
  {
    if s == "" then Lexed([""], [])
    else if TokenAt(s, 0) then
      var e := WordEnd(s, 1);
      var rest := Lex(s[e..]);
      Lexed([""] + rest.gaps, [s[..e]] + rest.names)
    else
      var rest := Lex(s[1..]);
      Lexed(rest.gaps[0 := [s[0]] + rest.gaps[0]], rest.names)
  }

  function Text(gaps: seq<string>, names: seq<string>): string
    requires |gaps| == |names| + 1
  {
    if names == [] then gaps[0] else gaps[0] + names[0] + Text(gaps[1..], names[1..])
  }

  predicate IsToken(t: string) {
    TokenAt(t, 0) && forall k :: 1 <= k < |t| ==> IsWord(t[k])
  }

  predicate IsShort(t: string) {
    2 <= |t| <= 3 && t[0] == '$' && forall k :: 1 <= k < |t| ==> IsLetter(t[k])
  }

  // ---------------------------------------------------------------- the shapes of names

  predicate IsStart(c: char) {
    'A' <= c <= 'Z' || 'a' <= c <= 'z' || c == '_'
  }

  predicate IsPart(c: char) {
    'A' <= c <= 'Z' || 'a' <= c <= 'z' || c == '_' || '0' <= c <= '9'
  }

  /** varToken, all of it: $, a letter or _, then letters, digits and _. */
  predicate IsVariable(t: string) {
    |t| >= 2 && t[0] == '$' && IsStart(t[1]) && forall k :: 2 <= k < |t| ==> IsPart(t[k])
  }

  /** shortVar: $ and one letter or two. */
  predicate IsShortName(t: string) {
    && (|t| == 2 || |t| == 3) && t[0] == '$'
    && forall k :: 1 <= k < |t| ==> 'A' <= t[k] <= 'Z' || 'a' <= t[k] <= 'z'
  }

  lemma ShapesAgree(t: string)
    ensures IsToken(t) <==> IsVariable(t)
    ensures IsShort(t) <==> IsShortName(t)
  {
  }

  // ---------------------------------------------------------------- the check

  /** The pieces pair up: the same text outside the tokens, and one-to-one pairs of tokens whose changed
      sides are short. */
  ghost predicate PairsUp(normal: Lexed, mini: Lexed) {
    && normal.gaps == mini.gaps && |normal.names| == |mini.names|
    && (forall i :: 0 <= i < |normal.names| && normal.names[i] != mini.names[i] ==> IsShortName(mini.names[i]))
    && OneToOne(normal.names, mini.names)
  }

  ghost predicate OneToOne(from: seq<string>, to: seq<string>)
    requires |from| == |to|
  {
    forall i, j :: 0 <= i < |from| && 0 <= j < |from| ==> (from[i] == from[j] <==> to[i] == to[j])
  }

  lemma {:induction false} WordEndShift(s: string, from: nat, i: nat)
    requires from <= i <= |s|
    ensures WordEnd(s[from..], i - from) == WordEnd(s, i) - from
    decreases |s| - i
  {
    if i < |s| && IsWord(s[i]) {
      WordEndShift(s, from, i + 1);
    }
  }

  /** The spans from a place on cut the rest of the text as its pieces do. */
  ghost predicate Cuts(s: string, from: nat, spans: seq<(nat, nat)>, l: Lexed)
    requires from <= |s| && |l.gaps| == |l.names| + 1
  {
    && |spans| == |l.names|
    && (if spans == [] then l.gaps == [s[from..]] else
        && from <= spans[0].0 < spans[0].1 <= |s|
        && l.gaps[0] == s[from..spans[0].0] && l.names[0] == s[spans[0].0..spans[0].1]
        && spans[1..] == FindAll(s, spans[0].1)
        && Lexed(l.gaps[1..], l.names[1..]) == Lex(s[spans[0].1..]))
  }

  lemma {:induction false} FindAllLex(s: string, from: nat)
    requires from <= |s|
    ensures Cuts(s, from, FindAll(s, from), Lex(s[from..]))
    decreases |s| - from
  {
    hide WordEnd, FindAll, Lex;
    if from == |s| {
      CutsEnd(s);
    } else if TokenAt(s, from) {
      FindAllLex(s, WordEnd(s, from + 1));
      CutsToken(s, from);
    } else {
      FindAllLex(s, from + 1);
      CutsGap(s, from);
    }
  }

  lemma CutsEnd(s: string)
    ensures Cuts(s, |s|, FindAll(s, |s|), Lex(s[|s|..]))
  {
    assert s[|s|..] == "";
  }

  lemma LexAtToken(t: string)
    requires TokenAt(t, 0)
    ensures var e := WordEnd(t, 1);
            Lex(t) == Lexed([""] + Lex(t[e..]).gaps, [t[..e]] + Lex(t[e..]).names)
  {
    hide WordEnd;
  }

  lemma LexOther(s: string)
    requires s != "" && !TokenAt(s, 0)
    ensures var rest := Lex(s[1..]);
            Lex(s) == Lexed(rest.gaps[0 := [s[0]] + rest.gaps[0]], rest.names)
  {
    hide WordEnd;
  }

  lemma CutsToken(s: string, from: nat)
    requires from < |s| && TokenAt(s, from)
    requires |FindAll(s, WordEnd(s, from + 1))| == |Lex(s[WordEnd(s, from + 1)..]).names|
    ensures Cuts(s, from, FindAll(s, from), Lex(s[from..]))
  {
    hide WordEnd, Lex;
    var t, e := s[from..], WordEnd(s, from + 1);
    WordEndShift(s, from, from + 1);
    assert TokenAt(t, 0);
    LexAtToken(t);
    assert t[e - from..] == s[e..] && t[..e - from] == s[from..e];
    var rest := Lex(s[e..]);
    assert ([""] + rest.gaps)[1..] == rest.gaps && ([s[from..e]] + rest.names)[1..] == rest.names;
    assert FindAll(s, from)[1..] == FindAll(s, e);
    assert s[from..from] == "";
  }

  lemma CutsGap(s: string, from: nat)
    requires from < |s| && !TokenAt(s, from)
    requires Cuts(s, from + 1, FindAll(s, from + 1), Lex(s[from + 1..]))
    ensures Cuts(s, from, FindAll(s, from), Lex(s[from..]))
  {
    hide WordEnd;
    var t, rest, spans := s[from..], Lex(s[from + 1..]), FindAll(s, from + 1);
    assert !TokenAt(t, 0);
    assert t[1..] == s[from + 1..];
    var l := Lexed(rest.gaps[0 := [t[0]] + rest.gaps[0]], rest.names);
    assert Lex(t) == l && FindAll(s, from) == spans;
    assert l.gaps[1..] == rest.gaps[1..];
    if spans != [] {
      assert [t[0]] + s[from + 1..spans[0].0] == s[from..spans[0].0];
    } else {
      assert [t[0]] + s[from + 1..] == t;
    }
  }

  /** How far the loop is: i tokens read, the next one is looked for at prev. */
  ghost predicate Read(s: string, spans: seq<(nat, nat)>, i: nat, prev: nat) {
    var l := Lex(s);
    && prev <= |s| && i <= |spans| == |l.names|
    && spans[i..] == FindAll(s, prev)
    && Lexed(l.gaps[i..], l.names[i..]) == Lex(s[prev..])
  }

  lemma ReadStart(s: string)
    ensures Read(s, FindAll(s, 0), 0, 0)
  {
    hide FindAll, Lex;
    FindAllLex(s, 0);
    assert s[0..] == s;
  }

  lemma ReadNext(s: string, spans: seq<(nat, nat)>, i: nat, prev: nat)
    requires Read(s, spans, i, prev) && i < |spans|
    ensures prev <= spans[i].0 < spans[i].1 <= |s| && Read(s, spans, i + 1, spans[i].1)
    ensures Lex(s).gaps[i] == s[prev..spans[i].0] && Lex(s).names[i] == s[spans[i].0..spans[i].1]
  {
    hide FindAll, Lex;
    var l := Lex(s);
    FindAllLex(s, prev);
    assert spans[i..][1..] == spans[i + 1..] && spans[i..][0] == spans[i];
    assert l.gaps[i..][1..] == l.gaps[i + 1..] && l.names[i..][1..] == l.names[i + 1..];
    assert l.gaps[i..][0] == l.gaps[i] && l.names[i..][0] == l.names[i];
  }

  lemma ReadEnd(s: string, spans: seq<(nat, nat)>, prev: nat)
    requires Read(s, spans, |spans|, prev)
    ensures Lex(s).gaps[|spans|] == s[prev..]
  {
    hide FindAll, Lex;
    FindAllLex(s, prev);
    assert Lex(s).gaps[|spans|..][0] == Lex(s).gaps[|spans|];
  }

  /** The maps hold the pairs read so far, and nothing else. */
  ghost predicate Pairs(m: map<string, string>, from: seq<string>, to: seq<string>, n: nat)
    requires n <= |from| && n <= |to|
  {
    && (forall k :: 0 <= k < n ==> from[k] in m && m[from[k]] == to[k])
    && (forall t :: t in m ==> exists k :: 0 <= k < n && from[k] == t)
  }

  lemma PairsGrow(m: map<string, string>, from: seq<string>, to: seq<string>, n: nat)
    requires n < |from| && n < |to| && Pairs(m, from, to, n) && (from[n] in m ==> m[from[n]] == to[n])
    ensures Pairs(m[from[n] := to[n]], from, to, n + 1)
  {
    var grown := m[from[n] := to[n]];
    forall t | t in grown ensures exists k :: 0 <= k < n + 1 && from[k] == t {
      if t != from[n] {
        var k :| 0 <= k < n && from[k] == t;
      }
    }
  }

  /** A clash with a pair read before: no one-to-one pairing. */
  lemma PairsClash(m: map<string, string>, from: seq<string>, to: seq<string>, n: nat)
    requires |from| == |to| && n < |from| && Pairs(m, from, to, n) && from[n] in m && m[from[n]] != to[n]
    ensures !OneToOne(from, to)
  {
    var k :| 0 <= k < n && from[k] == from[n];
  }

  method SameUpToRenaming(normal: string, mini: string) returns (same: bool)
    ensures same <==> PairsUp(Lex(normal), Lex(mini))
  {
    hide FindAll, Lex, Read, Pairs, OneToOne, IsShort, IsShortName;
    var nv, mv := FindAll(normal, 0), FindAll(mini, 0);
    ghost var ln, lm := Lex(normal), Lex(mini);
    ReadStart(normal);
    ReadStart(mini);
    ReadBounds(normal, nv, 0, 0);
    ReadBounds(mini, mv, 0, 0);
    if |nv| != |mv| {
      return false;
    }
    var forward: map<string, string>, backward: map<string, string> := map[], map[];
    var prevN, prevM := 0, 0;
    NoPairs(ln.names, lm.names);
    NoPairs(lm.names, ln.names);
    for i := 0 to |nv|
      invariant 0 <= prevN <= |normal| && 0 <= prevM <= |mini|
      invariant Read(normal, nv, i, prevN) && Read(mini, mv, i, prevM)
      invariant forall k :: 0 <= k < i ==> ln.gaps[k] == lm.gaps[k]
      invariant forall k :: 0 <= k < i && ln.names[k] != lm.names[k] ==> IsShortName(lm.names[k])
      invariant Pairs(forward, ln.names, lm.names, i) && Pairs(backward, lm.names, ln.names, i)
    {
      ReadNext(normal, nv, i, prevN);
      ReadNext(mini, mv, i, prevM);
      if normal[prevN..nv[i].0] != mini[prevM..mv[i].0] {
        return false;
      }
      var from, to := normal[nv[i].0..nv[i].1], mini[mv[i].0..mv[i].1];
      ShapesAgree(to);
      if from != to && !IsShort(to) {
        return false;
      }
      if from in forward && forward[from] != to {
        PairsClash(forward, ln.names, lm.names, i);
        return false;
      }
      if to in backward && backward[to] != from {
        PairsClash(backward, lm.names, ln.names, i);
        OneToOneSwaps(ln.names, lm.names);
        return false;
      }
      PairsGrow(forward, ln.names, lm.names, i);
      PairsGrow(backward, lm.names, ln.names, i);
      forward, backward := forward[from := to], backward[to := from];
      prevN, prevM := nv[i].1, mv[i].1;
    }
    ReadEnd(normal, nv, prevN);
    ReadEnd(mini, mv, prevM);
    PairsOneToOne(forward, backward, ln.names, lm.names);
    same := normal[prevN..] == mini[prevM..];
    if same {
      assert ln.gaps == lm.gaps;
    }
  }

  lemma ReadBounds(s: string, spans: seq<(nat, nat)>, i: nat, prev: nat)
    requires Read(s, spans, i, prev)
    ensures |spans| == |Lex(s).names|
  {
  }

  lemma NoPairs(from: seq<string>, to: seq<string>)
    ensures Pairs(map[], from, to, 0)
  {
  }

  lemma OneToOneSwaps(from: seq<string>, to: seq<string>)
    requires |from| == |to|
    ensures OneToOne(from, to) <==> OneToOne(to, from)
  {
  }

  lemma PairsOneToOne(forward: map<string, string>, backward: map<string, string>, from: seq<string>, to: seq<string>)
    requires |from| == |to| && Pairs(forward, from, to, |from|) && Pairs(backward, to, from, |from|)
    ensures OneToOne(from, to)
  {
  }

  // ---------------------------------------------------------------- renaming a text

  /** A map of a text's tokens: total on them, one-to-one, and what it changes it makes short. */
  ghost predicate IsRenaming(m: map<string, string>, names: seq<string>) {
    && (forall t :: t in names ==> t in m && (m[t] == t || IsShortName(m[t])))
    && (forall t, u :: t in names && u in names && m[t] == m[u] ==> t == u)
  }

  function Renamed(m: map<string, string>, names: seq<string>): seq<string>
    requires forall t :: t in names ==> t in m
  {
    seq(|names|, i requires 0 <= i < |names| => m[names[i]])
  }

  /** The text with every variable token renamed. */
  function Render(m: map<string, string>, s: string): string
    requires forall t :: t in Lex(s).names ==> t in m
  {
    Text(Lex(s).gaps, Renamed(m, Lex(s).names))
  }

  lemma TextFront(gaps: seq<string>, names: seq<string>, t: string)
    requires |gaps| == |names| + 1
    ensures Text([""] + gaps, [t] + names) == t + Text(gaps, names)
  {
    assert ([""] + gaps)[1..] == gaps && ([t] + names)[1..] == names;
    assert "" + t == t;
  }

  /** The pieces of a text make the text. */
  lemma {:induction false} LexText(s: string)
    ensures Text(Lex(s).gaps, Lex(s).names) == s
    decreases |s|
  {
    if s == "" {
    } else {
      hide Lex, Text, WordEnd;
      if TokenAt(s, 0) {
        var e := WordEnd(s, 1);
        LexText(s[e..]);
        LexAtToken(s);
        TextFront(Lex(s[e..]).gaps, Lex(s[e..]).names, s[..e]);
        assert s[..e] + s[e..] == s;
      } else {
        var rest := Lex(s[1..]);
        LexText(s[1..]);
        LexOther(s);
        TextHead([s[0]], rest.gaps, rest.names);
        assert [s[0]] + s[1..] == s;
      }
    }
  }

  lemma TextHead(head: string, gaps: seq<string>, names: seq<string>)
    requires |gaps| == |names| + 1
    ensures Text(gaps[0 := head + gaps[0]], names) == head + Text(gaps, names)
  {
    var g := gaps[0 := head + gaps[0]];
    assert g[1..] == gaps[1..];
    if names == [] {
    } else {
      assert head + gaps[0] + names[0] + Text(gaps[1..], names[1..])
          == head + (gaps[0] + names[0] + Text(gaps[1..], names[1..]));
    }
  }

  /** A gap that may stand before a token, or end the text: it holds no token and, when it follows one,
      starts with no word character. */
  ghost predicate GapsHold(gaps: seq<string>) {
    && (forall g, i | g in gaps && 0 <= i < |g| :: !TokenAt(g, i))
    && (forall k :: 1 <= k < |gaps| ==> gaps[k] == "" || !IsWord(gaps[k][0]))
  }

  ghost predicate Holds(l: Lexed) {
    GapsHold(l.gaps) && forall t :: t in l.names ==> IsToken(t)
  }

  lemma {:induction false} LexHolds(s: string)
    ensures Holds(Lex(s))
    ensures Lex(s).gaps[0] == "" || Lex(s).gaps[0][0] == s[0]
    ensures |Lex(s).gaps[0]| <= |s| && Lex(s).gaps[0] == s[..|Lex(s).gaps[0]|]
    decreases |s|
  {
    var l := Lex(s);
    if s == "" {
    } else if TokenAt(s, 0) {
      var e := WordEnd(s, 1);
      LexHolds(s[e..]);
      var rest := Lex(s[e..]);
      assert IsToken(s[..e]);
      assert forall k :: 1 <= k < |l.gaps| ==> l.gaps[k] == rest.gaps[k - 1];
    } else {
      LexHolds(s[1..]);
      var rest := Lex(s[1..]);
      var g := [s[0]] + rest.gaps[0];
      forall i | 0 <= i < |g| ensures !TokenAt(g, i) {
        if i == 0 {
          if |g| > 1 {
            assert g[1] == s[1];
          }
        } else {
          assert !TokenAt(rest.gaps[0], i - 1);
        }
      }
      assert forall k :: 1 <= k < |l.gaps| ==> l.gaps[k] == rest.gaps[k];
    }
  }

  lemma {:induction false} WordEndOf(t: string, rest: string, i: nat)
    requires 1 <= i <= |t| && forall k :: 1 <= k < |t| ==> IsWord(t[k])
    requires rest == "" || !IsWord(rest[0])
    ensures WordEnd(t + rest, i) == |t|
    decreases |t| - i
  {
    if i < |t| {
      WordEndOf(t, rest, i + 1);
    }
  }

  /** A token before something that is no word character is lexed as that token. */
  lemma LexToken(t: string, rest: string)
    requires IsToken(t) && (rest == "" || !IsWord(rest[0]))
    ensures Lex(t + rest) == Lexed([""] + Lex(rest).gaps, [t] + Lex(rest).names)
  {
    WordEndOf(t, rest, 1);
    assert (t + rest)[..|t|] == t && (t + rest)[|t|..] == rest;
  }

  /** A gap before a token or the end is lexed as that gap. */
  lemma {:induction false} LexGap(g: string, rest: string)
    requires forall i :: 0 <= i < |g| ==> !TokenAt(g, i)
    requires rest == "" || TokenAt(rest, 0)
    ensures Lex(g + rest) == Lexed(Lex(rest).gaps[0 := g + Lex(rest).gaps[0]], Lex(rest).names)
    decreases |g|
  {
    hide Lex;
    var l := Lex(rest);
    if g == "" {
      assert g + rest == rest;
      assert g + l.gaps[0] == l.gaps[0];
    } else {
      var s := g + rest;
      assert s[1..] == g[1..] + rest;
      assert forall i :: 0 <= i < |g| - 1 ==> (TokenAt(g[1..], i) <==> TokenAt(g, i + 1));
      LexGap(g[1..], rest);
      assert !TokenAt(g, 0);
      if |g| == 1 && rest != "" {
        assert s[1] == rest[0] == '$';
      }
      LexOther(s);
      assert [s[0]] + (g[1..] + l.gaps[0]) == g + l.gaps[0];
    }
  }

  lemma LexNothing()
    ensures Lex("") == Lexed([""], [])
  {
  }

  /** Pieces that hold are what the text they make lexes to. */
  lemma {:induction false} TextLexes(gaps: seq<string>, names: seq<string>)
    requires |gaps| == |names| + 1 && Holds(Lexed(gaps, names))
    ensures Lex(Text(gaps, names)) == Lexed(gaps, names)
    decreases |names|
  {
    hide Lex, WordEnd;
    var g := gaps[0];
    assert g in gaps;
    if names == [] {
      LexNothing();
      LexGap(g, "");
      assert g + "" == g;
      assert Lex("").gaps[0 := g + ""] == [g] == gaps;
    } else {
      var t, rest := names[0], Text(gaps[1..], names[1..]);
      assert t in names;
      HoldsRest(gaps, names);
      TextLexes(gaps[1..], names[1..]);
      TextStarts(gaps[1..], names[1..]);
      LexToken(t, rest);
      assert TokenAt(t + rest, 0);
      LexGap(g, t + rest);
      assert g + (t + rest) == g + t + rest;
      assert g + "" == g;
      assert ([""] + gaps[1..])[0 := g] == gaps;
      assert [t] + names[1..] == names;
    }
  }

  lemma HoldsRest(gaps: seq<string>, names: seq<string>)
    requires |gaps| == |names| + 1 && names != [] && Holds(Lexed(gaps, names))
    ensures Holds(Lexed(gaps[1..], names[1..])) && (gaps[1] == "" || !IsWord(gaps[1][0]))
  {
    assert forall g :: g in gaps[1..] ==> g in gaps;
    assert forall t :: t in names[1..] ==> t in names;
    assert forall k :: 1 <= k < |gaps[1..]| ==> gaps[1..][k] == gaps[k + 1];
  }

  lemma TextStarts(gaps: seq<string>, names: seq<string>)
    requires |gaps| == |names| + 1 && Holds(Lexed(gaps, names)) && (gaps[0] == "" || !IsWord(gaps[0][0]))
    ensures Text(gaps, names) == "" || !IsWord(Text(gaps, names)[0])
  {
    if names != [] {
      assert names[0] in names;
      var s := gaps[0] + names[0] + Text(gaps[1..], names[1..]);
      assert s[0] == if gaps[0] == "" then '$' else gaps[0][0];
    }
  }

  lemma ShortIsToken(t: string)
    requires IsShortName(t)
    ensures IsToken(t)
  {
    ShapesAgree(t);
  }

  /** Variables and gaps as the leftmost-longest matches leave them: no gap holds the start of a variable,
      and none goes on with the variable before it. */
  ghost predicate IsLexed(gaps: seq<string>, names: seq<string>) {
    && |gaps| == |names| + 1
    && (forall t :: t in names ==> IsVariable(t))
    && (forall g, i :: g in gaps && 0 <= i < |g| - 1 ==> !(g[i] == '$' && IsStart(g[i + 1])))
    && (forall k :: 1 <= k < |gaps| ==> gaps[k] == "" || !IsPart(gaps[k][0]))
  }

  /** Every text is lexed in one way. */
  lemma LexIsOnly(s: string, gaps: seq<string>, names: seq<string>)
    requires |gaps| == |names| + 1
    ensures Lex(s) == Lexed(gaps, names) <==> IsLexed(gaps, names) && Text(gaps, names) == s
  {
    hide Lex, Text, IsToken, IsVariable;
    LexHolds(s);
    LexText(s);
    forall t ensures IsToken(t) <==> IsVariable(t) {
      ShapesAgree(t);
    }
    if IsLexed(gaps, names) {
      forall g, i | g in gaps && 0 <= i < |g| ensures !TokenAt(g, i) {
      }
      TextLexes(gaps, names);
    }
    if Lex(s) == Lexed(gaps, names) {
      forall g, i | g in gaps && 0 <= i < |g| - 1 ensures !(g[i] == '$' && IsStart(g[i + 1])) {
        assert !TokenAt(g, i);
      }
    }
  }

  /** The rendered text has the renamed tokens and the same text between them. */
  lemma RenderLexes(m: map<string, string>, s: string)
    requires IsRenaming(m, Lex(s).names)
    ensures Lex(Render(m, s)) == Lexed(Lex(s).gaps, Renamed(m, Lex(s).names))
  {
    var l := Lex(s);
    var to := Renamed(m, l.names);
    LexHolds(s);
    forall t | t in to ensures IsToken(t) {
      var i :| 0 <= i < |to| && to[i] == t;
      assert l.names[i] in l.names;
      if t != l.names[i] {
        ShortIsToken(t);
      }
    }
    TextLexes(l.gaps, to);
  }

  /** The check is sound and complete: it accepts a text exactly when some renaming renders it. */
  lemma AcceptsExactlyRenamings(normal: string, mini: string)
    ensures PairsUp(Lex(normal), Lex(mini)) <==>
            exists m :: IsRenaming(m, Lex(normal).names) && mini == Render(m, normal)
  {
    var from, to := Lex(normal).names, Lex(mini).names;
    if PairsUp(Lex(normal), Lex(mini)) {
      var m := PairMap(from, to);
      assert IsRenaming(m, from) by {
        forall t | t in from ensures t in m && (m[t] == t || IsShortName(m[t])) {
          var i :| 0 <= i < |from| && from[i] == t;
        }
        forall t, u | t in from && u in from && m[t] == m[u] ensures t == u {
          var i :| 0 <= i < |from| && from[i] == t;
          var j :| 0 <= j < |from| && from[j] == u;
        }
      }
      assert Renamed(m, from) == to;
      LexText(mini);
    }
    forall m | IsRenaming(m, from) && mini == Render(m, normal)
      ensures PairsUp(Lex(normal), Lex(mini))
    {
      RenderLexes(m, normal);
      assert to == Renamed(m, from);
      assert forall i :: 0 <= i < |from| ==> from[i] in from && to[i] == m[from[i]];
    }
  }

  lemma {:induction false} PairMap(from: seq<string>, to: seq<string>) returns (m: map<string, string>)
    requires |from| == |to| && OneToOne(from, to)
    ensures forall i :: 0 <= i < |from| ==> from[i] in m && m[from[i]] == to[i]
    decreases |from|
  {
    if from == [] {
      m := map[];
    } else {
      var n := |from| - 1;
      m := PairMap(from[..n], to[..n]);
      m := m[from[n] := to[n]];
    }
  }
}
