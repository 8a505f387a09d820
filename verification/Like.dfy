/** Postgres LIKE as the emulator matches it (db.go, matchText): a byte matcher that steps by
    character after a wildcard and gives up early. */
module Like {

  type byte = n: nat | n < 256

  const PERCENT: byte := 0x25
  const UNDERSCORE: byte := 0x5F
  const ESCAPE: byte := 0x5C

  datatype Verdict = LikeFalse | LikeTrue | LikeAbort | ErrLikeEscape

  predicate IsContinuation(b: byte) {
    0x80 <= b < 0xC0
  }

  function SkipContinuation(s: seq<byte>): (r: seq<byte>)
    ensures |r| <= |s|
  {
    if s != [] && IsContinuation(s[0]) then SkipContinuation(s[1..]) else s
  }

  /** nextChar: past one byte and the continuation bytes after it. */
  function NextChar(s: seq<byte>): (r: seq<byte>)
    requires s != []
    ensures |r| < |s|
  {
    SkipContinuation(s[1..])
  }

  // ---------------------------------------------------------------- what LIKE means

  /** The text after k characters, or no text when there are fewer. */
  function Skip(t: seq<byte>, k: nat): (r: seq<byte>)
    ensures |r| <= |t|
    decreases k
  {
    if k == 0 || t == [] then t else Skip(NextChar(t), k - 1)
  }

  /** t LIKE p: % stands for any run of characters, _ for one, and a backslash for the next byte. */
  ghost predicate Matches(t: seq<byte>, p: seq<byte>)
    decreases |p|
  {
    if p == [] then t == []
    else if p[0] == PERCENT then exists k: nat :: Matches(Skip(t, k), p[1..])
    else if t == [] then false
    else if p[0] == UNDERSCORE then Matches(NextChar(t), p[1..])
    else if p[0] == ESCAPE then |p| > 1 && t[0] == p[1] && Matches(t[1..], p[2..])
    else t[0] == p[0] && Matches(t[1..], p[1..])
  }

  // ---------------------------------------------------------------- the matcher

  /** The wildcards after a %: each _ takes a character. */
  datatype AfterWild = OutOfText | Rest(t: seq<byte>, p: seq<byte>)

  function SkipWild(t: seq<byte>, p: seq<byte>): (r: AfterWild)
    ensures r.Rest? ==> |r.p| <= |p| && |r.t| <= |t|
    ensures r.Rest? && r.p != [] ==> r.p[0] != PERCENT && r.p[0] != UNDERSCORE
    decreases |p|
  {
    if p != [] && p[0] == PERCENT then SkipWild(t, p[1..])
    else if p != [] && p[0] == UNDERSCORE then if t == [] then OutOfText else SkipWild(NextChar(t), p[1..])
    else Rest(t, p)
  }

  function SkipPercents(p: seq<byte>): seq<byte> {
    if p != [] && p[0] == PERCENT then SkipPercents(p[1..]) else p
  }

  /** The verdict of matchText. */
  function Judge(t: seq<byte>, p: seq<byte>): Verdict
    decreases |p|, |t|, 0
  {
    if p == [] then if t == [] then LikeTrue else LikeFalse
    else if t == [] then if SkipPercents(p) == [] then LikeTrue else LikeAbort
    else if p[0] == ESCAPE then
      if |p| == 1 then ErrLikeEscape else if p[1] != t[0] then LikeFalse else Judge(t[1..], p[2..])
    else if p[0] == PERCENT then
      match SkipWild(t, p[1..])
      case OutOfText => LikeAbort
      case Rest(t', p') =>
        if p' == [] then LikeTrue
        else if p'[0] == ESCAPE && |p'| < 2 then ErrLikeEscape
        else Scan(t', p')
    else if p[0] == UNDERSCORE then Judge(NextChar(t), p[1..])
    else if p[0] != t[0] then LikeFalse
    else Judge(t[1..], p[1..])
  }

  predicate StartsLiteral(p: seq<byte>) {
    p != [] && p[0] != PERCENT && p[0] != UNDERSCORE && (p[0] == ESCAPE ==> |p| >= 2)
  }

  /** The byte a pattern that starts with a literal needs first. */
  function FirstByte(p: seq<byte>): byte
    requires StartsLiteral(p)
  {
    if p[0] == ESCAPE then p[1] else p[0]
  }

  /** The scan for a text position where the rest of the pattern matches. */
  function Scan(t: seq<byte>, p: seq<byte>): Verdict
    requires StartsLiteral(p)
    decreases |p|, |t|, 1
  {
    if t == [] then LikeAbort
    else
      var v := if t[0] == FirstByte(p) then Judge(t, p) else LikeFalse;
      if v != LikeFalse then v else Scan(NextChar(t), p)
  }

  // ---------------------------------------------------------------- well-formed patterns

  /** The pattern ends with an unpaired backslash. */
  predicate EndsInEscape(p: seq<byte>) {
    p != [] && if p[0] == ESCAPE then |p| == 1 || EndsInEscape(p[2..]) else EndsInEscape(p[1..])
  }

  predicate StartsCharacter(p: seq<byte>) {
    p != [] ==> !IsContinuation(p[0]) && (p[0] == ESCAPE && |p| > 1 ==> !IsContinuation(p[1]))
  }

  /** What UTF-8 gives a pattern: no wildcard is followed by the inside of a character. */
  predicate WellFormed(p: seq<byte>) {
    p != [] ==>
      if p[0] == ESCAPE then |p| > 1 ==> WellFormed(p[2..])
      else (p[0] == PERCENT || p[0] == UNDERSCORE ==> StartsCharacter(p[1..])) && WellFormed(p[1..])
  }

  /** The pattern after the wildcards it starts with. */
  function AfterWilds(p: seq<byte>): (r: seq<byte>)
    ensures |r| <= |p| && (r != [] ==> r[0] != PERCENT && r[0] != UNDERSCORE)
  {
    if p != [] && (p[0] == PERCENT || p[0] == UNDERSCORE) then AfterWilds(p[1..]) else p
  }

  /** The first byte of the pattern is one from the inside of a character. */
  predicate StartsInside(p: seq<byte>) {
    p != [] && if p[0] == ESCAPE then |p| > 1 && IsContinuation(p[1]) else IsContinuation(p[0])
  }

  /** Some % is followed by the inside of a character. */
  predicate HasInside(p: seq<byte>)
    decreases |p|
  {
    p != [] &&
      if p[0] == ESCAPE then |p| > 1 && HasInside(p[2..])
      else if p[0] == PERCENT then StartsInside(AfterWilds(p[1..])) || HasInside(AfterWilds(p[1..]))
      else HasInside(p[1..])
  }

  /** Some _ is followed, wildcards aside, by the inside of a character: it steps over that. */
  predicate Stuck(p: seq<byte>) {
    p != [] &&
      if p[0] == ESCAPE then |p| > 1 && Stuck(p[2..])
      else (p[0] == UNDERSCORE && StartsInside(AfterWilds(p[1..]))) || Stuck(p[1..])
  }

  /** The pattern matches nothing at all. */
  predicate Blocked(p: seq<byte>) {
    Stuck(p) || EndsInEscape(p)
  }

  /** A % that may start over is followed by one that cannot stand where it should. */
  predicate Loses(p: seq<byte>)
    decreases |p|
  {
    p != [] &&
      if p[0] == ESCAPE then |p| > 1 && Loses(p[2..])
      else if p[0] == PERCENT then
        var w := AfterWilds(p[1..]);
        (!StartsInside(w) && HasInside(w)) || Loses(w)
      else Loses(p[1..])
  }

  // ---------------------------------------------------------------- stepping by characters

  predicate IsSuffix(s: seq<byte>, t: seq<byte>) {
    |s| <= |t| && s == t[|t| - |s|..]
  }

  lemma SuffixTransitive(a: seq<byte>, b: seq<byte>, c: seq<byte>)
    requires IsSuffix(a, b) && IsSuffix(b, c)
    ensures IsSuffix(a, c)
  {
  }

  lemma {:induction false} SkipContinuationSuffix(s: seq<byte>, t: seq<byte>)
    requires IsSuffix(s, t)
    ensures IsSuffix(SkipContinuation(t), t)
    ensures |s| > 0 && !IsContinuation(s[0]) ==> IsSuffix(s, SkipContinuation(t))
    ensures IsSuffix(SkipContinuation(s), SkipContinuation(t))
    decreases |t|
  {
    if t != [] && IsContinuation(t[0]) {
      if |s| < |t| {
        assert IsSuffix(s, t[1..]);
        SkipContinuationSuffix(s, t[1..]);
      } else {
        assert s == t;
        SkipContinuationSuffix(t[1..], t[1..]);
      }
    } else if |s| < |t| {
      SkipContinuationSuffix(s, s);
      SuffixTransitive(SkipContinuation(s), s, t);
    } else {
      assert s == t;
    }
  }

  /** A later start never falls behind: stepping keeps one text a suffix of the other. */
  lemma NextCharSuffix(s: seq<byte>, t: seq<byte>)
    requires s != [] && IsSuffix(s, t)
    ensures IsSuffix(NextChar(s), NextChar(t))
    ensures |s| < |t| && !IsContinuation(s[0]) ==> IsSuffix(s, NextChar(t))
  {
    assert IsSuffix(s[1..], t[1..]);
    SkipContinuationSuffix(s[1..], t[1..]);
    if |s| < |t| {
      assert IsSuffix(s, t[1..]);
      SkipContinuationSuffix(s, t[1..]);
    }
  }

  lemma NextCharIsSuffix(t: seq<byte>)
    requires t != []
    ensures IsSuffix(NextChar(t), t)
  {
    hide SkipContinuation;
    SkipContinuationSuffix(t[1..], t[1..]);
    SuffixTransitive(NextChar(t), t[1..], t);
  }

  lemma {:induction false} SkipSuffix(t: seq<byte>, k: nat)
    ensures IsSuffix(Skip(t, k), t)
    decreases k
  {
    hide NextChar, SkipContinuation;
    if k > 0 && t != [] {
      SkipSuffix(NextChar(t), k - 1);
      NextCharIsSuffix(t);
      SuffixTransitive(Skip(t, k), NextChar(t), t);
    }
  }

  lemma {:induction false} SkipPlus(t: seq<byte>, a: nat, b: nat)
    ensures Skip(Skip(t, a), b) == Skip(t, a + b)
    decreases a
  {
    if a > 0 && t != [] {
      SkipPlus(NextChar(t), a - 1, b);
    }
  }

  lemma {:induction false} SkipAll(t: seq<byte>) returns (k: nat)
    ensures Skip(t, k) == []
    decreases |t|
  {
    if t == [] {
      k := 0;
    } else {
      var j := SkipAll(NextChar(t));
      k := j + 1;
    }
  }

  // ---------------------------------------------------------------- wildcards

  ghost predicate SomewhereMatches(t: seq<byte>, p: seq<byte>) {
    exists k: nat :: Matches(Skip(t, k), p)
  }

  lemma {:induction false} NoTextMatches(p: seq<byte>)
    ensures Matches([], p) <==> SkipPercents(p) == []
    decreases |p|
  {
    if p != [] && p[0] == PERCENT {
      NoTextMatches(p[1..]);
      assert Skip([], 0) == [];
      assert forall k: nat :: Skip([], k) == [];
    }
  }

  /** Under a %, the wildcards that follow it only take their characters. */
  lemma {:induction false} SkipWildMatches(t: seq<byte>, p: seq<byte>)
    ensures match SkipWild(t, p)
            case OutOfText => !SomewhereMatches(t, p)
            case Rest(t', p') => SomewhereMatches(t, p) <==> SomewhereMatches(t', p')
    decreases |p|
  {
    if p != [] && p[0] == PERCENT {
      SkipWildMatches(t, p[1..]);
      if SomewhereMatches(t, p) {
        var k: nat :| Matches(Skip(t, k), p);
        var j: nat :| Matches(Skip(Skip(t, k), j), p[1..]);
        SkipPlus(t, k, j);
      }
      if SomewhereMatches(t, p[1..]) {
        assert Skip(t, 0) == t;
        assert Matches(Skip(t, 0), p);
      }
    } else if p != [] && p[0] == UNDERSCORE {
      if t == [] {
        assert forall k: nat :: Skip([], k) == [];
      } else {
        SkipWildMatches(NextChar(t), p[1..]);
        UnderscoreCommutes(t, p);
      }
    }
  }

  lemma UnderscoreCommutes(t: seq<byte>, p: seq<byte>)
    requires p != [] && p[0] == UNDERSCORE && t != []
    ensures SomewhereMatches(t, p) <==> SomewhereMatches(NextChar(t), p[1..])
  {
    if SomewhereMatches(t, p) {
      var k: nat :| Matches(Skip(t, k), p);
      SkipPlus(t, k, 1);
      assert Skip(Skip(t, k), 1) == Skip(NextChar(Skip(t, k)), 0);
      assert Matches(Skip(NextChar(t), k), p[1..]);
    }
    if SomewhereMatches(NextChar(t), p[1..]) {
      var k: nat :| Matches(Skip(NextChar(t), k), p[1..]);
      var j := StepBefore(t, k);
      assert Matches(Skip(t, j), p);
    }
  }

  /** The character stepped over to get somewhere. */
  lemma {:induction false} StepBefore(t: seq<byte>, k: nat) returns (j: nat)
    requires t != []
    ensures Skip(t, j) != [] && NextChar(Skip(t, j)) == Skip(NextChar(t), k)
    decreases k
  {
    if k == 0 || NextChar(t) == [] {
      j := 0;
    } else {
      var i := StepBefore(NextChar(t), k - 1);
      j := i + 1;
    }
  }

  // ---------------------------------------------------------------- the verdict is LIKE

  /** What a verdict claims: true says the text matches, false that it doesn't, and abort that no
      later start in the text does either. */
  ghost predicate Right(v: Verdict, t: seq<byte>, p: seq<byte>) {
    match v
    case LikeTrue => Matches(t, p)
    case LikeFalse => !Matches(t, p)
    case LikeAbort => forall s :: IsSuffix(s, t) ==> !Matches(s, p)
    case ErrLikeEscape => EndsInEscape(p)
  }

  /** The same of a scan, over all the places it may stop at. */
  ghost predicate ScanRight(v: Verdict, t: seq<byte>, p: seq<byte>) {
    match v
    case LikeTrue => SomewhereMatches(t, p)
    case LikeFalse => false
    case LikeAbort => forall s :: IsSuffix(s, t) ==> !Matches(s, p)
    case ErrLikeEscape => EndsInEscape(p)
  }

  lemma {:induction false} SkipWildPattern(t: seq<byte>, p: seq<byte>)
    requires StartsCharacter(p) && WellFormed(p) && SkipWild(t, p).Rest?
    ensures var p' := SkipWild(t, p).p;
            WellFormed(p') && StartsCharacter(p') && (EndsInEscape(p') ==> EndsInEscape(p))
    decreases |p|
  {
    if p != [] && p[0] == PERCENT {
      SkipWildPattern(t, p[1..]);
    } else if p != [] && p[0] == UNDERSCORE {
      SkipWildPattern(NextChar(t), p[1..]);
    }
  }

  /** Skipping wildcards from a later start never leaves the earlier start's text behind. */
  lemma {:induction false} SkipWildLater(s: seq<byte>, t: seq<byte>, p: seq<byte>)
    requires IsSuffix(s, t) && SkipWild(s, p).Rest?
    ensures SkipWild(t, p).Rest? && SkipWild(t, p).p == SkipWild(s, p).p && IsSuffix(SkipWild(s, p).t, SkipWild(t, p).t)
    decreases |p|
  {
    if p != [] && p[0] == PERCENT {
      SkipWildLater(s, t, p[1..]);
    } else if p != [] && p[0] == UNDERSCORE {
      NextCharSuffix(s, t);
      SkipWildLater(NextChar(s), NextChar(t), p[1..]);
    }
  }

  /** A pattern that starts with a literal matches only where its first byte stands. */
  lemma LiteralFirst(t: seq<byte>, p: seq<byte>)
    requires StartsLiteral(p) && Matches(t, p)
    ensures t != [] && t[0] == FirstByte(p)
  {
  }

  lemma {:induction false} WellFormedRight(t: seq<byte>, p: seq<byte>)
    requires WellFormed(p)
    ensures Right(Judge(t, p), t, p)
    decreases |p|, |t|, 1
  {
    if p == [] {
    } else if t == [] {
      NoTextMatches(p);
      assert forall s :: IsSuffix(s, t) ==> s == [];
    } else if p[0] == PERCENT {
      PercentRight(t, p);
    } else if p[0] == UNDERSCORE {
      WellFormedRight(NextChar(t), p[1..]);
      if Judge(t, p).LikeAbort? {
        forall s | IsSuffix(s, t) ensures !Matches(s, p) {
          if s != [] {
            NextCharSuffix(s, t);
          }
        }
      }
    } else if p[0] == ESCAPE {
      if |p| > 1 && p[1] == t[0] {
        WellFormedRight(t[1..], p[2..]);
        LaterLiteral(t, p, p[2..]);
      }
    } else if p[0] == t[0] {
      WellFormedRight(t[1..], p[1..]);
      LaterLiteral(t, p, p[1..]);
    }
  }

  /** An abort behind a literal holds in front of it: a later start has a later rest. */
  lemma LaterLiteral(t: seq<byte>, p: seq<byte>, rest: seq<byte>)
    requires t != [] && p != [] && p[0] != PERCENT && p[0] != UNDERSCORE
    requires (p[0] == ESCAPE && |p| > 1 && rest == p[2..]) || (p[0] != ESCAPE && rest == p[1..])
    ensures Right(LikeAbort, t[1..], rest) ==> Right(LikeAbort, t, p)
  {
    if Right(LikeAbort, t[1..], rest) {
      forall s | IsSuffix(s, t) ensures !Matches(s, p) {
        if s != [] {
          assert IsSuffix(s[1..], t[1..]);
        }
      }
    }
  }

  lemma {:induction false} PercentRight(t: seq<byte>, p: seq<byte>)
    requires WellFormed(p) && p != [] && p[0] == PERCENT && t != []
    ensures Right(Judge(t, p), t, p)
    decreases |p|, |t|, 0
  {
    var w := SkipWild(t, p[1..]);
    SkipWildMatches(t, p[1..]);
    assert Matches(t, p) <==> SomewhereMatches(t, p[1..]);
    if w.OutOfText? {
      LaterPercent(t, p);
    } else {
      SkipWildPattern(t, p[1..]);
      if w.p == [] {
        var k := SkipAll(w.t);
        assert Matches(Skip(w.t, k), []);
      } else if StartsLiteral(w.p) {
        ScanIsRight(w.t, w.p);
        if Judge(t, p).LikeAbort? {
          LaterPercent(t, p);
        }
      }
    }
  }

  /** A % from a later start scans a later text. */
  lemma LaterPercent(t: seq<byte>, p: seq<byte>)
    requires p != [] && p[0] == PERCENT
    requires var w := SkipWild(t, p[1..]);
             w.Rest? ==> forall s :: IsSuffix(s, w.t) ==> !Matches(s, w.p)
    ensures Right(LikeAbort, t, p)
  {
    forall s | IsSuffix(s, t) ensures !Matches(s, p) {
      SkipWildMatches(s, p[1..]);
      var v := SkipWild(s, p[1..]);
      if v.Rest? {
        SkipWildLater(s, t, p[1..]);
        var w := SkipWild(t, p[1..]);
        forall k: nat ensures !Matches(Skip(v.t, k), v.p) {
          SkipSuffix(v.t, k);
          SuffixTransitive(Skip(v.t, k), v.t, w.t);
        }
      }
      assert Matches(s, p) <==> SomewhereMatches(s, p[1..]);
    }
  }

  lemma {:induction false} ScanIsRight(t: seq<byte>, p: seq<byte>)
    requires WellFormed(p) && StartsLiteral(p) && !IsContinuation(FirstByte(p))
    ensures ScanRight(Scan(t, p), t, p)
    decreases |p|, |t|, 2
  {
    if t == [] {
      assert forall s :: IsSuffix(s, t) ==> s == [];
    } else {
      WellFormedRight(t, p);
      assert Skip(t, 0) == t;
      var here := t[0] == FirstByte(p) && Judge(t, p) != LikeFalse;
      if !here {
        assert !Matches(t, p);
        ScanIsRight(NextChar(t), p);
        ScanStep(t, p);
      }
    }
  }

  /** What a scan finds from the next character on, it finds from here when nothing matches here. */
  lemma ScanStep(t: seq<byte>, p: seq<byte>)
    requires t != [] && StartsLiteral(p) && !IsContinuation(FirstByte(p)) && !Matches(t, p)
    ensures SomewhereMatches(NextChar(t), p) ==> SomewhereMatches(t, p)
    ensures (forall s :: IsSuffix(s, NextChar(t)) ==> !Matches(s, p)) ==> forall s :: IsSuffix(s, t) ==> !Matches(s, p)
  {
    if SomewhereMatches(NextChar(t), p) {
      var k: nat :| Matches(Skip(NextChar(t), k), p);
      assert Skip(t, k + 1) == Skip(NextChar(t), k);
    }
    if forall s :: IsSuffix(s, NextChar(t)) ==> !Matches(s, p) {
      forall s | IsSuffix(s, t) ensures !Matches(s, p) {
        if Matches(s, p) {
          LiteralFirst(s, p);
          NextCharSuffix(s, t);
        }
      }
    }
  }

  // ---------------------------------------------------------------- every pattern

  /** No text, or one that does not start inside a character. */
  predicate AtStart(t: seq<byte>) {
    t == [] || !IsContinuation(t[0])
  }

  lemma {:induction false} SkipContinuationStarts(s: seq<byte>)
    ensures AtStart(SkipContinuation(s))
    ensures AtStart(s) ==> SkipContinuation(s) == s
  {
    if s != [] && IsContinuation(s[0]) {
      SkipContinuationStarts(s[1..]);
    }
  }

  lemma NextCharStarts(t: seq<byte>)
    requires t != []
    ensures AtStart(NextChar(t))
    ensures AtStart(t[1..]) ==> NextChar(t) == t[1..]
  {
    SkipContinuationStarts(t[1..]);
  }

  lemma {:induction false} SkipStarts(t: seq<byte>, k: nat)
    requires AtStart(t) || k > 0
    ensures AtStart(Skip(t, k))
    decreases k
  {
    hide NextChar;
    if k > 0 && t != [] {
      NextCharStarts(t);
      SkipStarts(NextChar(t), k - 1);
    }
  }

  /** Whatever the pattern, a true verdict is right. */
  lemma {:induction false} TrueMatches(t: seq<byte>, p: seq<byte>)
    requires Judge(t, p) == LikeTrue
    ensures Matches(t, p)
    decreases |p|, |t|, 0
  {
    hide NextChar, EndsInEscape;
    if p == [] {
    } else if t == [] {
      NoTextMatches(p);
    } else if p[0] == PERCENT {
      var w := SkipWild(t, p[1..]);
      SkipWildMatches(t, p[1..]);
      if w.p == [] {
        var k := SkipAll(w.t);
        assert Matches(Skip(w.t, k), []);
      } else {
        ScanTrueMatches(w.t, w.p);
      }
      assert SomewhereMatches(t, p[1..]);
    } else if p[0] == UNDERSCORE {
      TrueMatches(NextChar(t), p[1..]);
    } else if p[0] == ESCAPE {
      TrueMatches(t[1..], p[2..]);
    } else {
      TrueMatches(t[1..], p[1..]);
    }
  }

  lemma {:induction false} ScanTrueMatches(t: seq<byte>, p: seq<byte>)
    requires StartsLiteral(p) && Scan(t, p) == LikeTrue
    ensures SomewhereMatches(t, p)
    decreases |p|, |t|, 1
  {
    hide NextChar;
    if t[0] == FirstByte(p) && Judge(t, p) != LikeFalse {
      TrueMatches(t, p);
      assert Skip(t, 0) == t;
    } else {
      ScanTrueMatches(NextChar(t), p);
      var k: nat :| Matches(Skip(NextChar(t), k), p);
      assert Skip(t, k + 1) == Skip(NextChar(t), k);
    }
  }

  /** Where a character starts, the inside of one is not found. */
  lemma {:induction false} StartHasNoInside(t: seq<byte>, p: seq<byte>)
    requires AtStart(t) && StartsInside(AfterWilds(p))
    ensures !Matches(t, p)
    decreases |p|
  {
    hide NextChar, Skip;
    if p[0] == PERCENT {
      forall k: nat ensures !Matches(Skip(t, k), p[1..]) {
        SkipStarts(t, k);
        StartHasNoInside(Skip(t, k), p[1..]);
      }
    } else if p[0] == UNDERSCORE && t != [] {
      NextCharStarts(t);
      StartHasNoInside(NextChar(t), p[1..]);
    }
  }

  lemma {:induction false} BlockedMatchesNothing(t: seq<byte>, p: seq<byte>)
    requires Blocked(p)
    ensures !Matches(t, p)
    decreases |p|
  {
    hide NextChar, Skip;
    if p[0] == PERCENT {
      forall k: nat ensures !Matches(Skip(t, k), p[1..]) {
        BlockedMatchesNothing(Skip(t, k), p[1..]);
      }
    } else if t == [] {
    } else if p[0] == ESCAPE {
      if |p| > 1 {
        BlockedMatchesNothing(t[1..], p[2..]);
      }
    } else if p[0] == UNDERSCORE {
      NextCharStarts(t);
      if StartsInside(AfterWilds(p[1..])) {
        StartHasNoInside(NextChar(t), p[1..]);
      } else {
        BlockedMatchesNothing(NextChar(t), p[1..]);
      }
    } else {
      BlockedMatchesNothing(t[1..], p[1..]);
    }
  }

  lemma {:induction false} SkipWildIsAfter(t: seq<byte>, p: seq<byte>)
    requires SkipWild(t, p).Rest?
    ensures SkipWild(t, p).p == AfterWilds(p)
    decreases |p|
  {
    hide NextChar;
    if p != [] && p[0] == PERCENT {
      SkipWildIsAfter(t, p[1..]);
    } else if p != [] && p[0] == UNDERSCORE {
      SkipWildIsAfter(NextChar(t), p[1..]);
    }
  }

  lemma {:induction false} AfterWildsKeeps(p: seq<byte>)
    ensures EndsInEscape(AfterWilds(p)) <==> EndsInEscape(p)
    ensures Stuck(AfterWilds(p)) ==> Stuck(p)
    ensures Stuck(p) ==> Stuck(AfterWilds(p)) || (UNDERSCORE in Wilds(p) && StartsInside(AfterWilds(p)))
    ensures UNDERSCORE in Wilds(p) && StartsInside(AfterWilds(p)) ==> Stuck(p)
  {
    if p != [] && (p[0] == PERCENT || p[0] == UNDERSCORE) {
      AfterWildsKeeps(p[1..]);
    }
  }

  /** The wildcards a pattern starts with. */
  function Wilds(p: seq<byte>): seq<byte> {
    if p != [] && (p[0] == PERCENT || p[0] == UNDERSCORE) then [p[0]] + Wilds(p[1..]) else []
  }

  /** What a run of wildcards is followed by, a run of fewer of them is. */
  lemma {:induction false} RunInside(p: seq<byte>)
    requires !Stuck(p)
    ensures StartsInside(AfterWilds(p)) || HasInside(AfterWilds(p)) <==> StartsInside(p) || HasInside(p)
    decreases |p|
  {
    if p != [] && p[0] == UNDERSCORE {
      RunInside(p[1..]);
    }
  }

  lemma {:induction false} WellFormedIff(p: seq<byte>)
    ensures WellFormed(p) <==> !HasInside(p) && !Stuck(p)
    decreases |p|
  {
    if p != [] && p[0] == ESCAPE {
      if |p| > 1 {
        WellFormedIff(p[2..]);
      }
    } else if p != [] {
      WellFormedIff(p[1..]);
      if (p[0] == PERCENT || p[0] == UNDERSCORE) && !Stuck(p[1..]) {
        RunInside(p[1..]);
        assert StartsCharacter(p[1..]) <==> !StartsInside(p[1..]);
      }
    }
  }

  /** A scan for the inside of a character finds it at once or nowhere. */
  lemma {:induction false} ScanInside(t: seq<byte>, p: seq<byte>)
    requires StartsLiteral(p) && StartsInside(p) && AtStart(t)
    ensures Scan(t, p) == LikeAbort
    decreases |t|
  {
    hide NextChar;
    if t != [] {
      NextCharStarts(t);
      ScanInside(NextChar(t), p);
    }
  }

  lemma InsideMatchesHere(t: seq<byte>, p: seq<byte>)
    requires StartsLiteral(p) && StartsInside(p) && SomewhereMatches(t, p)
    ensures Matches(t, p)
  {
    var k: nat :| Matches(Skip(t, k), p);
    LiteralFirst(Skip(t, k), p);
    if k > 0 {
      SkipStarts(t, k);
    }
  }

  /** A pattern that does not lose matches finds every one. */
  lemma {:induction false} MatchesTrue(t: seq<byte>, p: seq<byte>)
    requires !Loses(p) && !Blocked(p) && Matches(t, p)
    ensures Judge(t, p) == LikeTrue
    decreases |p|, 0
  {
    hide NextChar, Skip, HasInside;
    if p == [] {
    } else if t == [] {
      NoTextMatches(p);
    } else if p[0] == PERCENT {
      var w := SkipWild(t, p[1..]);
      SkipWildMatches(t, p[1..]);
      assert SomewhereMatches(t, p[1..]);
      SkipWildIsAfter(t, p[1..]);
      AfterWildsKeeps(p[1..]);
      if w.p != [] {
        assert StartsLiteral(w.p);
        RunFinds(w.t, w.p);
      }
    } else if p[0] == UNDERSCORE {
      MatchesTrue(NextChar(t), p[1..]);
    } else if p[0] == ESCAPE {
      MatchesTrue(t[1..], p[2..]);
    } else {
      MatchesTrue(t[1..], p[1..]);
    }
  }

  lemma {:induction false} RunFinds(t: seq<byte>, p: seq<byte>)
    requires StartsLiteral(p) && !Loses(p) && !Blocked(p) && (StartsInside(p) || !HasInside(p))
      && SomewhereMatches(t, p)
    ensures Scan(t, p) == LikeTrue
    decreases |p|, 1
  {
    hide NextChar, Skip, Loses, HasInside, Stuck;
    if StartsInside(p) {
      InsideMatchesHere(t, p);
      LiteralFirst(t, p);
      MatchesTrue(t, p);
    } else {
      WellFormedIff(p);
      ScanIsRight(t, p);
      var k: nat :| Matches(Skip(t, k), p);
      SkipSuffix(t, k);
    }
  }

  /** What each verdict claims, for every text and every pattern: a true one that the text matches, the
      error that the pattern ends in an escape; false and abort that the text does not match, unless the
      pattern loses matches; and abort that no later start does, when no wildcard is followed by the
      inside of a character or the pattern matches nothing anyway. */
  lemma JudgeRight(t: seq<byte>, p: seq<byte>)
    ensures Judge(t, p) == LikeTrue ==> Matches(t, p)
    ensures Judge(t, p) == ErrLikeEscape ==> EndsInEscape(p) && !Stuck(p)
    ensures !Loses(p) || Blocked(p) ==> (Judge(t, p) == LikeTrue <==> Matches(t, p))
    ensures WellFormed(p) || Blocked(p) ==> Right(Judge(t, p), t, p)
  {
    hide Judge, Loses, WellFormed;
    if Judge(t, p) == LikeTrue {
      TrueMatches(t, p);
    }
    ErrorNeedsEscape(t, p);
    if Stuck(p) {
      StuckNeverErrs(t, p);
    }
    if Blocked(p) {
      forall s ensures !Matches(s, p) {
        BlockedMatchesNothing(s, p);
      }
    } else {
      if WellFormed(p) {
        WellFormedRight(t, p);
      }
      if !Loses(p) && Matches(t, p) {
        MatchesTrue(t, p);
      }
    }
  }

  // ---------------------------------------------------------------- the loops

  method AdvanceChar(s: seq<byte>) returns (r: seq<byte>)
    requires s != []
    ensures r == NextChar(s)
  {
    r := s[1..];
    while r != [] && IsContinuation(r[0])
      invariant SkipContinuation(r) == NextChar(s)
    {
      r := r[1..];
    }
  }

  method MatchText(text: seq<byte>, pattern: seq<byte>) returns (v: Verdict)
    ensures v == Judge(text, pattern)
    decreases |pattern|
  {
    hide NextChar;
    var t, p := text, pattern;
    if |p| == 1 && p[0] == PERCENT {
      assert SkipPercents(p) == [];
      assert SkipWild(t, p[1..]) == Rest(t, []);
      return LikeTrue;
    }
    while t != [] && p != []
      invariant Judge(t, p) == Judge(text, pattern)
      invariant |p| <= |pattern|
      decreases |p|
    {
      if p[0] == ESCAPE {
        p := p[1..];
        if p == [] {
          return ErrLikeEscape;
        }
        if p[0] != t[0] {
          return LikeFalse;
        }
      } else if p[0] == PERCENT {
        ghost var wild := SkipWild(t, p[1..]);
        p := p[1..];
        while p != [] && (p[0] == PERCENT || p[0] == UNDERSCORE)
          invariant SkipWild(t, p) == wild && |p| < |pattern|
        {
          if p[0] == UNDERSCORE {
            if t == [] {
              return LikeAbort;
            }
            t := AdvanceChar(t);
          }
          p := p[1..];
        }
        if p == [] {
          return LikeTrue;
        }
        if p[0] == ESCAPE && |p| < 2 {
          return ErrLikeEscape;
        }
        var firstpat := if p[0] == ESCAPE then p[1] else p[0];
        while t != []
          invariant Scan(t, p) == Judge(text, pattern)
          decreases |t|
        {
          if t[0] == firstpat {
            var matched := MatchText(t, p);
            if matched != LikeFalse {
              return matched;
            }
          }
          t := AdvanceChar(t);
        }
        return LikeAbort;
      } else if p[0] == UNDERSCORE {
        t := AdvanceChar(t);
        p := p[1..];
        continue;
      } else if p[0] != t[0] {
        return LikeFalse;
      }
      t := t[1..];
      p := p[1..];
    }
    if t != [] {
      return LikeFalse;
    }
    ghost var rest := p;
    while p != [] && p[0] == PERCENT
      invariant SkipPercents(p) == SkipPercents(rest)
    {
      p := p[1..];
    }
    return if p == [] then LikeTrue else LikeAbort;
  }

  // ---------------------------------------------------------------- the escape error

  /** A pattern that does not end in an escape never raises the error, well-formed or not. */
  lemma {:induction false} ErrorNeedsEscape(t: seq<byte>, p: seq<byte>)
    ensures Judge(t, p) == ErrLikeEscape ==> EndsInEscape(p)
    decreases |p|, |t|, 0
  {
    hide NextChar;
    if p == [] || t == [] {
    } else if p[0] == ESCAPE {
      if |p| > 1 && p[1] == t[0] {
        ErrorNeedsEscape(t[1..], p[2..]);
      }
    } else if p[0] == PERCENT {
      var w := SkipWild(t, p[1..]);
      if w.Rest? {
        SkipWildEscape(t, p[1..]);
        if StartsLiteral(w.p) {
          ScanErrorNeedsEscape(w.t, w.p);
        }
      }
    } else if p[0] == UNDERSCORE {
      ErrorNeedsEscape(NextChar(t), p[1..]);
    } else if p[0] == t[0] {
      ErrorNeedsEscape(t[1..], p[1..]);
    }
  }

  lemma {:induction false} SkipWildEscape(t: seq<byte>, p: seq<byte>)
    requires SkipWild(t, p).Rest?
    ensures EndsInEscape(SkipWild(t, p).p) <==> EndsInEscape(p)
    decreases |p|
  {
    if p != [] && p[0] == PERCENT {
      SkipWildEscape(t, p[1..]);
    } else if p != [] && p[0] == UNDERSCORE {
      SkipWildEscape(NextChar(t), p[1..]);
    }
  }

  lemma {:induction false} ScanErrorNeedsEscape(t: seq<byte>, p: seq<byte>)
    requires StartsLiteral(p)
    ensures Scan(t, p) == ErrLikeEscape ==> EndsInEscape(p)
    decreases |p|, |t|, 1
  {
    if t != [] {
      ErrorNeedsEscape(t, p);
      ScanErrorNeedsEscape(NextChar(t), p);
    }
  }

  /** Behind a _ that steps over what should follow it, the end of the pattern is not reached. */
  lemma {:induction false} StuckNeverErrs(t: seq<byte>, p: seq<byte>)
    requires Stuck(p) || (AtStart(t) && StartsInside(AfterWilds(p)))
    ensures Judge(t, p) != ErrLikeEscape
    decreases |p|, |t|, 0
  {
    hide NextChar;
    if t == [] {
    } else if p[0] == PERCENT {
      var w := SkipWild(t, p[1..]);
      AfterWildsKeeps(p[1..]);
      if w.Rest? {
        SkipWildIsAfter(t, p[1..]);
        if AtStart(t) || UNDERSCORE in Wilds(p[1..]) {
          SkipWildStarts(t, p[1..]);
        }
        if StartsLiteral(w.p) {
          StuckScan(w.t, w.p);
        }
      }
    } else if p[0] == UNDERSCORE {
      NextCharStarts(t);
      StuckNeverErrs(NextChar(t), p[1..]);
    } else if p[0] == ESCAPE {
      if |p| > 1 && p[1] == t[0] {
        StuckNeverErrs(t[1..], p[2..]);
      }
    } else if p[0] == t[0] {
      StuckNeverErrs(t[1..], p[1..]);
    }
  }

  lemma {:induction false} StuckScan(t: seq<byte>, p: seq<byte>)
    requires StartsLiteral(p) && (Stuck(p) || (AtStart(t) && StartsInside(p)))
    ensures Scan(t, p) != ErrLikeEscape
    decreases |p|, |t|, 1
  {
    hide NextChar;
    if t != [] {
      NextCharStarts(t);
      if t[0] == FirstByte(p) {
        StuckNeverErrs(t, p);
      }
      StuckScan(NextChar(t), p);
    }
  }

  lemma {:induction false} SkipWildStarts(t: seq<byte>, p: seq<byte>)
    requires SkipWild(t, p).Rest? && (AtStart(t) || UNDERSCORE in Wilds(p))
    ensures AtStart(SkipWild(t, p).t)
    decreases |p|
  {
    hide NextChar;
    if p != [] && p[0] == PERCENT {
      SkipWildStarts(t, p[1..]);
    } else if p != [] && p[0] == UNDERSCORE {
      NextCharStarts(t);
      SkipWildStarts(NextChar(t), p[1..]);
    }
  }

  // ---------------------------------------------------------------- texts that show what a pattern does

  const FILLER: byte := 0x78

  /** A filler for every _ among the wildcards a pattern starts with. */
  function Fillers(p: seq<byte>): seq<byte> {
    if p != [] && p[0] == PERCENT then Fillers(p[1..])
    else if p != [] && p[0] == UNDERSCORE then [FILLER] + Fillers(p[1..])
    else []
  }

  /** A text that matches the pattern, or walks the matcher up to the escape it ends in. */
  function Reaching(p: seq<byte>): seq<byte>
    decreases |p|
  {
    if p == [] then []
    else if p[0] == PERCENT then Fillers(p[1..]) + Reaching(AfterWilds(p[1..]))
    else if p[0] == UNDERSCORE then [FILLER] + Reaching(p[1..])
    else if p[0] == ESCAPE then if |p| == 1 then [FILLER] else [p[1]] + Reaching(p[2..])
    else [p[0]] + Reaching(p[1..])
  }

  lemma {:induction false} FillersStart(p: seq<byte>, s: seq<byte>)
    requires AtStart(s)
    ensures AtStart(Fillers(p) + s)
  {
    if p != [] && p[0] == PERCENT {
      FillersStart(p[1..], s);
    }
  }

  /** Fillers take a run of wildcards to what follows it. */
  lemma {:induction false} SkipWildOver(p: seq<byte>, s: seq<byte>)
    requires AtStart(s) || Fillers(p) == []
    ensures SkipWild(Fillers(p) + s, p) == Rest(s, AfterWilds(p))
  {
    hide NextChar;
    var t := Fillers(p) + s;
    if p != [] && p[0] == PERCENT {
      SkipWildOver(p[1..], s);
    } else if p != [] && p[0] == UNDERSCORE {
      var rest := Fillers(p[1..]) + s;
      assert t == [FILLER] + rest && t[1..] == rest;
      FillersStart(p[1..], s);
      NextCharStarts(t);
      SkipWildOver(p[1..], s);
    } else {
      assert t == s;
    }
  }

  lemma {:induction false} NoFillers(p: seq<byte>)
    ensures Fillers(p) != [] <==> UNDERSCORE in Wilds(p)
  {
    if p != [] && (p[0] == PERCENT || p[0] == UNDERSCORE) {
      NoFillers(p[1..]);
    }
  }

  /** Either nothing of the run steps, or what follows it starts a character. */
  lemma RunSteps(p: seq<byte>)
    requires !Stuck(p)
    ensures Fillers(p) == [] || !StartsInside(AfterWilds(p))
    ensures !Stuck(AfterWilds(p))
  {
    NoFillers(p);
    AfterWildsKeeps(p);
  }

  lemma {:induction false} ReachingStarts(p: seq<byte>)
    requires !StartsInside(AfterWilds(p))
    ensures AtStart(Reaching(p))
    decreases |p|
  {
    if p != [] && p[0] == PERCENT {
      ReachingStarts(AfterWilds(p[1..]));
      FillersStart(p[1..], Reaching(AfterWilds(p[1..])));
      assert AfterWilds(AfterWilds(p[1..])) == AfterWilds(p[1..]);
    }
  }

  /** A % run over its fillers, with a text for the rest. */
  lemma RunReaches(p: seq<byte>, s: seq<byte>)
    requires p != [] && p[0] == PERCENT && !Stuck(p) && (AtStart(s) || StartsInside(AfterWilds(p[1..])))
    ensures var w := AfterWilds(p[1..]);
            && SkipWild(Fillers(p[1..]) + s, p[1..]) == Rest(s, w)
            && (SomewhereMatches(s, w) ==> Matches(Fillers(p[1..]) + s, p))
            && !Stuck(w)
  {
    RunSteps(p[1..]);
    SkipWildOver(p[1..], s);
    SkipWildMatches(Fillers(p[1..]) + s, p[1..]);
    assert Matches(Fillers(p[1..]) + s, p) <==> SomewhereMatches(Fillers(p[1..]) + s, p[1..]);
  }

  lemma ReachingRunStarts(p: seq<byte>)
    ensures AtStart(Reaching(AfterWilds(p))) || StartsInside(AfterWilds(p))
  {
    if !StartsInside(AfterWilds(p)) {
      assert AfterWilds(AfterWilds(p)) == AfterWilds(p);
      ReachingStarts(AfterWilds(p));
    }
  }

  /** A pattern that is not blocked matches a text. */
  lemma {:induction false} ReachingMatches(p: seq<byte>)
    requires !Blocked(p)
    ensures Matches(Reaching(p), p)
    decreases |p|
  {
    hide NextChar, SkipWild, SkipContinuation;
    var t := Reaching(p);
    if p == [] {
    } else if p[0] == PERCENT {
      var w := AfterWilds(p[1..]);
      AfterWildsKeeps(p[1..]);
      ReachingMatches(w);
      ReachingRunStarts(p[1..]);
      assert Skip(Reaching(w), 0) == Reaching(w);
      RunReaches(p, Reaching(w));
    } else if p[0] == UNDERSCORE {
      ReachingMatches(p[1..]);
      ReachingStarts(p[1..]);
      assert t[1..] == Reaching(p[1..]);
      NextCharStarts(t);
    } else if p[0] == ESCAPE {
      ReachingMatches(p[2..]);
      assert t[1..] == Reaching(p[2..]);
    } else {
      ReachingMatches(p[1..]);
      assert t[1..] == Reaching(p[1..]);
    }
  }

  lemma {:induction false} ReachingErrs(p: seq<byte>)
    requires EndsInEscape(p) && !Stuck(p)
    ensures Reaching(p) != [] && Judge(Reaching(p), p) == ErrLikeEscape
    decreases |p|
  {
    hide NextChar, SkipWild, SkipContinuation;
    var t := Reaching(p);
    if p[0] == ESCAPE {
      if |p| > 1 {
        ReachingErrs(p[2..]);
        assert t[1..] == Reaching(p[2..]);
      }
    } else if p[0] == PERCENT {
      var w := AfterWilds(p[1..]);
      AfterWildsKeeps(p[1..]);
      ReachingRunStarts(p[1..]);
      RunReaches(p, Reaching(w));
      ReachingErrs(w);
    } else if p[0] == UNDERSCORE {
      ReachingErrs(p[1..]);
      ReachingStarts(p[1..]);
      assert t[1..] == Reaching(p[1..]);
      NextCharStarts(t);
    } else {
      ReachingErrs(p[1..]);
      assert t[1..] == Reaching(p[1..]);
    }
  }

  /** Some text raises the escape error exactly when the pattern ends in an unpaired backslash and no _
      before it steps over what should follow. */
  lemma EscapeErrorIff(p: seq<byte>)
    ensures (exists t :: Judge(t, p) == ErrLikeEscape) <==> EndsInEscape(p) && !Stuck(p)
  {
    hide Judge, Stuck;
    if EndsInEscape(p) && !Stuck(p) {
      ReachingErrs(p);
    }
    forall t ensures Judge(t, p) == ErrLikeEscape ==> EndsInEscape(p) && !Stuck(p) {
      JudgeRight(t, p);
    }
  }

  // ---------------------------------------------------------------- the patterns that lose matches

  /** A text for the pattern up to the first % that is followed by the inside of a character. */
  function ReachingTo(p: seq<byte>): seq<byte>
    requires HasInside(p)
    decreases |p|
  {
    if p[0] == PERCENT then
      var w := AfterWilds(p[1..]);
      if StartsInside(w) then [] else Fillers(p[1..]) + ReachingTo(w)
    else if p[0] == ESCAPE then [p[1]] + ReachingTo(p[2..])
    else (if p[0] == UNDERSCORE then [FILLER] else [p[0]]) + ReachingTo(p[1..])
  }

  lemma {:induction false} ReachingToStarts(p: seq<byte>, s: seq<byte>)
    requires HasInside(p) && AtStart(s) && !StartsInside(p)
    ensures AtStart(ReachingTo(p) + s)
    decreases |p|
  {
    if p[0] == PERCENT {
      var w := AfterWilds(p[1..]);
      if !StartsInside(w) {
        ReachingToStarts(w, s);
        FillersStart(p[1..], ReachingTo(w) + s);
        assert ReachingTo(p) + s == Fillers(p[1..]) + (ReachingTo(w) + s);
      }
    }
  }

  /** There the matcher gives up, on any text that starts with a character. */
  lemma {:induction false} GivesUp(p: seq<byte>, s: seq<byte>)
    requires HasInside(p) && !Stuck(p) && AtStart(s)
    ensures Judge(ReachingTo(p) + s, p) == LikeAbort
    decreases |p|
  {
    hide NextChar, SkipWild, SkipContinuation;
    var t := ReachingTo(p) + s;
    if p[0] == PERCENT {
      var w := AfterWilds(p[1..]);
      if StartsInside(w) {
        GivesUpHere(p, s);
        assert t == s;
      } else {
        var rest := ReachingTo(w) + s;
        assert t == Fillers(p[1..]) + rest;
        ReachingToStarts(w, s);
        RunReaches(p, rest);
        GivesUp(w, s);
        GivesUpBehind(p, rest);
      }
    } else if p[0] == ESCAPE {
      assert t[1..] == ReachingTo(p[2..]) + s;
      GivesUp(p[2..], s);
    } else {
      assert t[1..] == ReachingTo(p[1..]) + s;
      GivesUp(p[1..], s);
      if p[0] == UNDERSCORE {
        UnderscoreStarts(p, s);
        NextCharStarts(t);
      }
    }
  }

  lemma UnderscoreStarts(p: seq<byte>, s: seq<byte>)
    requires p != [] && p[0] == UNDERSCORE && HasInside(p) && !Stuck(p) && AtStart(s)
    ensures AtStart(ReachingTo(p[1..]) + s)
  {
    ReachingToStarts(p[1..], s);
  }

  lemma GivesUpHere(p: seq<byte>, s: seq<byte>)
    requires p != [] && p[0] == PERCENT && !Stuck(p) && StartsInside(AfterWilds(p[1..])) && AtStart(s)
    ensures Judge(s, p) == LikeAbort
  {
    hide NextChar;
    var w := AfterWilds(p[1..]);
    RunSteps(p[1..]);
    SkipWildOver(p[1..], s);
    assert Fillers(p[1..]) + s == s;
    ScanInside(s, w);
    assert SkipPercents(p) != [] by { PercentsBefore(p); }
  }

  lemma {:induction false} PercentsBefore(p: seq<byte>)
    requires AfterWilds(p) != []
    ensures SkipPercents(p) != []
  {
    if p[0] == PERCENT {
      PercentsBefore(p[1..]);
    }
  }

  /** A run whose first attempt gives up does not try again. */
  lemma GivesUpBehind(p: seq<byte>, rest: seq<byte>)
    requires p != [] && p[0] == PERCENT
    requires var w := AfterWilds(p[1..]);
             && SkipWild(Fillers(p[1..]) + rest, p[1..]) == Rest(rest, w)
             && StartsLiteral(w) && rest != [] && rest[0] == FirstByte(w) && Judge(rest, w) == LikeAbort
    ensures Judge(Fillers(p[1..]) + rest, p) == LikeAbort
  {
    hide NextChar, SkipWild;
  }
  /** A text on which the pattern loses a match: up to a % that may start over, a false start for what
      follows it, and then what matches. */
  function Losing(p: seq<byte>): seq<byte>
    requires Loses(p)
    decreases |p|
  {
    if p[0] == PERCENT then
      var w := AfterWilds(p[1..]);
      Fillers(p[1..]) + if !StartsInside(w) && HasInside(w) then ReachingTo(w) + Reaching(w) else Losing(w)
    else if p[0] == ESCAPE then [p[1]] + Losing(p[2..])
    else (if p[0] == UNDERSCORE then [FILLER] else [p[0]]) + Losing(p[1..])
  }

  lemma {:induction false} LosingStarts(p: seq<byte>)
    requires Loses(p) && !StartsInside(AfterWilds(p))
    ensures AtStart(Losing(p)) && Losing(p) != []
    decreases |p|
  {
    if p[0] == PERCENT {
      var w := AfterWilds(p[1..]);
      assert AfterWilds(w) == w;
      if HasInside(w) {
        ReachingStarts(w);
        ReachingToStarts(w, Reaching(w));
        FillersStart(p[1..], ReachingTo(w) + Reaching(w));
      } else {
        LosingStarts(w);
        FillersStart(p[1..], Losing(w));
      }
    }
  }

  /** A later start at a character is a place a % tries. */
  lemma {:induction false} SuffixIsSkip(a: seq<byte>, s: seq<byte>) returns (k: nat)
    requires AtStart(s) && s != []
    ensures Skip(a + s, k) == s
    decreases |a|
  {
    hide NextChar;
    var t := a + s;
    if a == [] {
      assert t == s;
      k := 0;
    } else {
      assert IsSuffix(s, t) by { assert t[|t| - |s|..] == s; }
      StepsTo(a, s);
      var a' := NextChar(t)[..|NextChar(t)| - |s|];
      var j := SuffixIsSkip(a', s);
      assert NextChar(t) == a' + s;
      k := j + 1;
    }
  }

  lemma StepsTo(a: seq<byte>, s: seq<byte>)
    requires AtStart(s) && s != [] && a != []
    ensures var r := NextChar(a + s); |s| <= |r| && r[|r| - |s|..] == s
  {
    var t := a + s;
    assert t[1..] == a[1..] + s;
    assert IsSuffix(s, t[1..]);
    SkipContinuationSuffix(s, t[1..]);
  }

  lemma BaseLoses(p: seq<byte>)
    requires p != [] && p[0] == PERCENT && !Blocked(p)
    requires var w := AfterWilds(p[1..]); !StartsInside(w) && HasInside(w)
    ensures Judge(Losing(p), p) == LikeAbort && Matches(Losing(p), p)
  {
    hide NextChar, SkipWild, SkipContinuation, Skip, ReachingTo, Reaching, HasInside, Stuck;
    var w := AfterWilds(p[1..]);
    var s := ReachingTo(w) + Reaching(w);
    assert AfterWilds(w) == w;
    AfterWildsKeeps(p[1..]);
    assert !Blocked(w) by { BlockedRest(p); }
    ReachingStarts(w);
    ReachingMatches(w);
    ReachingToStarts(w, Reaching(w));
    assert StartsLiteral(w) by { InsideIsSomewhere(w); LiteralAfter(w); }
    LiteralFirst(Reaching(w), w);
    var k := SuffixIsSkip(ReachingTo(w), Reaching(w));
    assert Matches(Skip(s, k), w);
    assert !Stuck(p);
    RunReaches(p, s);
    GivesUp(w, Reaching(w));
    assert s != [] && s[0] == FirstByte(w) by { ReachesFirst(w, Reaching(w)); }
    GivesUpBehind(p, s);
  }

  lemma BlockedRest(p: seq<byte>)
    requires p != [] && p[0] == PERCENT && !Blocked(p)
    ensures !Blocked(AfterWilds(p[1..]))
  {
    AfterWildsKeeps(p[1..]);
  }

  lemma InsideIsSomewhere(w: seq<byte>)
    requires HasInside(w)
    ensures w != []
  {
  }

  lemma LiteralAfter(w: seq<byte>)
    requires HasInside(w) && w[0] != PERCENT && w[0] != UNDERSCORE && !EndsInEscape(w)
    ensures StartsLiteral(w)
  {
  }

  lemma ReachesFirst(w: seq<byte>, s: seq<byte>)
    requires HasInside(w) && StartsLiteral(w)
    ensures ReachingTo(w) + s != [] && (ReachingTo(w) + s)[0] == FirstByte(w)
  {
  }

  lemma {:induction false} LosesOn(p: seq<byte>)
    requires Loses(p) && !Blocked(p)
    ensures Judge(Losing(p), p) == LikeAbort && Matches(Losing(p), p)
    decreases |p|
  {
    hide NextChar, SkipWild, SkipContinuation, Skip, HasInside, Reaching, ReachingTo;
    var t := Losing(p);
    if p[0] == PERCENT {
      var w := AfterWilds(p[1..]);
      if !StartsInside(w) && HasInside(w) {
        BaseLoses(p);
      } else {
        BlockedRest(p);
        LosesOn(w);
        LosesBehind(p);
      }
    } else if p[0] == ESCAPE {
      assert t[1..] == Losing(p[2..]);
      LosesOn(p[2..]);
    } else {
      assert t[1..] == Losing(p[1..]);
      LosesOn(p[1..]);
      if p[0] == UNDERSCORE {
        LosingStarts(p[1..]);
        NextCharStarts(t);
      }
    }
  }

  lemma LosesBehind(p: seq<byte>)
    requires Loses(p) && p[0] == PERCENT && !Blocked(p)
    requires var w := AfterWilds(p[1..]);
             && (StartsInside(w) || !HasInside(w)) && !Blocked(w)
             && Judge(Losing(w), w) == LikeAbort && Matches(Losing(w), w)
    ensures Judge(Losing(p), p) == LikeAbort && Matches(Losing(p), p)
  {
    hide NextChar, SkipWild, SkipContinuation, HasInside, Stuck, EndsInEscape;
    var w := AfterWilds(p[1..]);
    var s := Losing(w);
    assert Losing(p) == Fillers(p[1..]) + s;
    assert StartsLiteral(w) by { LosesLiteral(w); }
    LiteralFirst(s, w);
    assert AfterWilds(w) == w;
    if !StartsInside(w) {
      LosingStarts(w);
    }
    assert Skip(s, 0) == s;
    RunReaches(p, s);
    GivesUpBehind(p, s);
  }

  lemma LosesLiteral(w: seq<byte>)
    requires Loses(w) && !Blocked(w) && w[0] != PERCENT && w[0] != UNDERSCORE
    ensures StartsLiteral(w)
  {
  }

  /** matchText is LIKE on exactly the patterns that match nothing or hold no % that may start over before
      one followed by the inside of a character; and then for every text, valid UTF-8 or not. */
  lemma JudgeIsLike(p: seq<byte>)
    ensures (forall t :: Judge(t, p) == LikeTrue <==> Matches(t, p)) <==> !Loses(p) || Blocked(p)
  {
    hide Judge, Matches, Loses, Blocked;
    if !Loses(p) || Blocked(p) {
      forall t ensures Judge(t, p) == LikeTrue <==> Matches(t, p) {
        JudgeRight(t, p);
      }
    } else {
      LosesOn(p);
      assert Judge(Losing(p), p) != LikeTrue && Matches(Losing(p), p);
    }
  }

  /** Every verdict's claim holds on every text exactly for the patterns UTF-8 gives and those that match
      nothing: on any other, an abort leaves out a later start. */
  lemma VerdictsAreRight(p: seq<byte>)
    ensures (forall t :: Right(Judge(t, p), t, p)) <==> WellFormed(p) || Blocked(p)
  {
    hide Judge, Matches, WellFormed, Stuck, EndsInEscape;
    if WellFormed(p) || Blocked(p) {
      forall t ensures Right(Judge(t, p), t, p) {
        JudgeRight(t, p);
      }
    } else {
      WellFormedIff(p);
      var t := AbortsEarly(p);
      assert !Right(Judge(t, p), t, p);
    }
  }

  lemma AbortsEarly(p: seq<byte>) returns (t: seq<byte>)
    requires HasInside(p) && !Blocked(p)
    ensures Judge(t, p) == LikeAbort && exists s :: IsSuffix(s, t) && Matches(s, p)
  {
    hide Judge, Matches, HasInside, EndsInEscape, Stuck;
    var s := Reaching(p);
    t := ReachingTo(p) + ([FILLER] + s);
    GivesUp(p, [FILLER] + s);
    ReachingMatches(p);
    assert t[|t| - |s|..] == s;
    assert IsSuffix(s, t);
  }

  /** Without well-formedness the early exits lose matches: after a wildcard the matcher steps over
      whole characters, so it never stands on the second byte of one. */
  lemma InsideOfCharacterIsLost()
    ensures Matches([0xC3, 0xC3, 0xA9], [PERCENT, 0xC3, PERCENT, 0xA9])
    ensures Judge([0xC3, 0xC3, 0xA9], [PERCENT, 0xC3, PERCENT, 0xA9]) != LikeTrue
  {
    var t: seq<byte>, p: seq<byte> := [0xC3, 0xC3, 0xA9], [PERCENT, 0xC3, PERCENT, 0xA9];
    var s: seq<byte>, q: seq<byte>, e: seq<byte> := [0xC3, 0xA9], [PERCENT, 0xA9], [0xA9];
    assert s[1..] == e && q[1..] == e && t[1..] == s && p[1..] == [0xC3] + q && p[1..][1..] == q && e[1..] == [];
    assert SkipContinuation(e) == [] && NextChar(s) == [] && NextChar(t) == s && Skip(s, 0) == s && Skip(e, 0) == e;
    assert Skip(t, 1) == Skip(s, 0);
    assert Matches(e, e);
    assert Matches(Skip(e, 0), q[1..]);
    assert Matches(s, p[1..]);
    assert Matches(Skip(t, 1), p[1..]);
    assert Scan([], e) == LikeAbort;
    assert Scan(s, e) == LikeAbort;
    assert SkipWild(s, e) == Rest(s, e);
    assert Judge(s, q) == LikeAbort;
    assert Judge(t, p[1..]) == LikeAbort;
    assert Scan(t, p[1..]) == LikeAbort;
    assert SkipWild(t, p[1..]) == Rest(t, p[1..]);
  }

  // ---------------------------------------------------------------- the planner's warning

  /** The pattern holds a wildcard that is not escaped: it is no exact match. */
  predicate HasWildcard(p: seq<byte>) {
    p != [] &&
      if p[0] == ESCAPE then |p| > 1 && HasWildcard(p[2..])
      else p[0] == PERCENT || p[0] == UNDERSCORE || HasWildcard(p[1..])
  }

  /** A pattern without one matches a single text at most. */
  lemma {:induction false} ExactMatch(s: seq<byte>, t: seq<byte>, p: seq<byte>)
    requires !HasWildcard(p) && Matches(s, p) && Matches(t, p)
    ensures s == t
    decreases |p|
  {
    if p == [] {
    } else if p[0] == ESCAPE {
      ExactMatch(s[1..], t[1..], p[2..]);
      assert s == [s[0]] + s[1..] && t == [t[0]] + t[1..];
    } else {
      ExactMatch(s[1..], t[1..], p[1..]);
      assert s == [s[0]] + s[1..] && t == [t[0]] + t[1..];
    }
  }

  /** planRisk: one pass with two flags. */
  method PlanRisk(pattern: seq<byte>) returns (fires: bool)
    ensures fires <==> HasWildcard(pattern) && EndsInEscape(pattern)
  {
    var wildcard, escaped := false, false;
    for i := 0 to |pattern|
      invariant escaped ==> i > 0 && pattern[i - 1] == ESCAPE
      invariant var rest := if escaped then pattern[i - 1..] else pattern[i..];
                && (HasWildcard(pattern) <==> wildcard || HasWildcard(rest))
                && (EndsInEscape(pattern) <==> EndsInEscape(rest))
    {
      var c := pattern[i];
      if escaped {
        assert pattern[i - 1..][2..] == pattern[i + 1..];
        escaped := false;
      } else {
        assert pattern[i..][1..] == pattern[i + 1..];
        if c == ESCAPE {
          escaped := true;
        } else if c == PERCENT || c == UNDERSCORE {
          wildcard := true;
        }
      }
    }
    return wildcard && escaped;
  }
}
