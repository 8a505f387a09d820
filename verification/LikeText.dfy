/** The byte matcher read as text: on UTF-8 its verdict is LIKE over characters. */
module LikeText {

  import opened Like

  /** The bytes of a character, by its first byte (section 3 of RFC 3629). */
  function Width(lead: byte): nat {
    if lead < 0x80 then 1 else if lead < 0xC0 then 0 else if lead < 0xE0 then 2 else if lead < 0xF0 then 3 else 4
  }

  predicate IsCharacter(c: seq<byte>) {
    && c != []
    && |c| == Width(c[0])
    && forall i :: 1 <= i < |c| ==> 0x80 <= c[i] <= 0xBF
  }

  type Character = c: seq<byte> | IsCharacter(c) witness [0]

  datatype Token = Run | One | Plain(c: Character) | Escaped(c: Character)

  predicate IsSpecial(c: Character) {
    c[0] == '%' as int || c[0] == '_' as int || c[0] == '\\' as int
  }

  /** A character stands for itself only when it is no special one; escaped, any may. */
  predicate IsPattern(tokens: seq<Token>) {
    forall k :: k in tokens && k.Plain? ==> !IsSpecial(k.c)
  }

  function Encode(text: seq<Character>): seq<byte> {
    if text == [] then [] else text[0] + Encode(text[1..])
  }

  function EncodeToken(k: Token): seq<byte> {
    match k
    case Run => ['%' as int]
    case One => ['_' as int]
    case Plain(c) => c
    case Escaped(c) => ['\\' as int] + c
  }

  function EncodePattern(tokens: seq<Token>): seq<byte> {
    if tokens == [] then [] else EncodeToken(tokens[0]) + EncodePattern(tokens[1..])
  }

  /** text LIKE pattern, over characters. */
  predicate IsLike(text: seq<Character>, tokens: seq<Token>)
    decreases |tokens|
  {
    if tokens == [] then text == []
    else match tokens[0]
      case Run => exists k :: 0 <= k <= |text| && IsLike(text[k..], tokens[1..])
      case One => text != [] && IsLike(text[1..], tokens[1..])
      case Plain(c) => text != [] && text[0] == c && IsLike(text[1..], tokens[1..])
      case Escaped(c) => text != [] && text[0] == c && IsLike(text[1..], tokens[1..])
  }

  // ---------------------------------------------------------------- bytes and characters

  lemma {:induction false} SkipContinuationOver(c: seq<byte>, rest: seq<byte>)
    requires forall i :: 0 <= i < |c| ==> IsContinuation(c[i])
    requires rest != [] ==> !IsContinuation(rest[0])
    ensures SkipContinuation(c + rest) == rest
  {
    if c == [] {
      assert c + rest == rest;
    } else {
      assert (c + rest)[1..] == c[1..] + rest;
      SkipContinuationOver(c[1..], rest);
    }
  }

  lemma EncodeStarts(text: seq<Character>)
    ensures text == [] <==> Encode(text) == []
    ensures text != [] ==> Encode(text)[0] == text[0][0] && !IsContinuation(Encode(text)[0])
  {
  }

  /** Stepping over one character of the bytes steps over one of the text. */
  lemma NextCharEncoded(text: seq<Character>)
    requires text != []
    ensures Encode(text) != [] && NextChar(Encode(text)) == Encode(text[1..])
  {
    hide SkipContinuation;
    var c: seq<byte>, rest := text[0], Encode(text[1..]);
    EncodeStarts(text[1..]);
    assert Encode(text)[1..] == (c + rest)[1..];
    assert (c + rest)[1..] == c[1..] + rest;
    SkipContinuationOver(c[1..], rest);
  }

  lemma {:induction false} SkipEncoded(text: seq<Character>, k: nat)
    ensures Skip(Encode(text), k) == Encode(text[if k <= |text| then k else |text|..])
    decreases k
  {
    hide NextChar;
    EncodeStarts(text);
    if k > 0 && text != [] {
      NextCharEncoded(text);
      SkipEncoded(text[1..], k - 1);
      assert text[1..][if k - 1 <= |text[1..]| then k - 1 else |text[1..]|..]
          == text[if k <= |text| then k else |text|..];
    }
  }

  /** Characters are a prefix code: bytes that start with a character hold that character first. */
  lemma CharacterFirst(text: seq<Character>, c: Character)
    ensures c <= Encode(text) <==> text != [] && text[0] == c
    ensures c <= Encode(text) ==> Encode(text)[|c|..] == Encode(text[1..])
  {
    EncodeStarts(text);
    if text != [] {
      var d: seq<byte>, rest := text[0], Encode(text[1..]);
      if c <= d + rest {
        assert c[0] == (d + rest)[0] == d[0];
        assert c == (d + rest)[..|c|] == d;
      }
      assert (d + rest)[|d|..] == rest;
    }
  }

  /** Bytes that stand for themselves match one by one. */
  lemma {:induction false} PlainBytes(t: seq<byte>, c: seq<byte>, p: seq<byte>)
    requires forall i :: 0 <= i < |c| ==> c[i] != PERCENT && c[i] != UNDERSCORE && c[i] != ESCAPE
    ensures Matches(t, c + p) <==> c <= t && Matches(t[|c|..], p)
    decreases |c|
  {
    if c == [] {
      assert c + p == p && t[0..] == t;
    } else {
      var q := c + p;
      assert q[0] == c[0] && q[1..] == c[1..] + p;
      if t != [] && t[0] == c[0] {
        PlainBytes(t[1..], c[1..], p);
        assert c[1..] <= t[1..] <==> c <= t;
        if c <= t {
          assert t[1..][|c| - 1..] == t[|c|..];
        }
      }
    }
  }

  lemma EscapedBytes(t: seq<byte>, c: Character, p: seq<byte>)
    ensures Matches(t, [ESCAPE] + c + p) <==> c <= t && Matches(t[|c|..], p)
  {
    var q := [ESCAPE] + c + p;
    assert q[0] == ESCAPE && q[1] == c[0] && q[2..] == c[1..] + p;
    if t != [] && t[0] == c[0] {
      PlainBytes(t[1..], c[1..], p);
      assert c[1..] <= t[1..] <==> c <= t;
      if c <= t {
        assert t[1..][|c| - 1..] == t[|c|..];
      }
    }
  }

  // ---------------------------------------------------------------- the two relations agree

  lemma {:induction false} MatchesIsLike(text: seq<Character>, tokens: seq<Token>)
    requires IsPattern(tokens)
    ensures Matches(Encode(text), EncodePattern(tokens)) <==> IsLike(text, tokens)
    decreases |tokens|
  {
    hide NextChar, IsCharacter;
    EncodeStarts(text);
    if tokens != [] {
      var rest := tokens[1..];
      var p := EncodePattern(tokens);
      match tokens[0] {
        case Run =>
          RunIsRun(text, tokens);
        case One =>
          assert p[0] == UNDERSCORE && p[1..] == EncodePattern(rest);
          if text != [] {
            NextCharEncoded(text);
            MatchesIsLike(text[1..], rest);
          }
        case Plain(c) =>
          CharacterFirst(text, c);
          PlainCharacter(c);
          PlainBytes(Encode(text), c, EncodePattern(rest));
          if text != [] {
            MatchesIsLike(text[1..], rest);
          }
        case Escaped(c) =>
          CharacterFirst(text, c);
          EscapedBytes(Encode(text), c, EncodePattern(rest));
          if text != [] {
            MatchesIsLike(text[1..], rest);
          }
      }
    }
  }

  lemma PlainCharacter(c: Character)
    requires !IsSpecial(c)
    ensures forall i :: 0 <= i < |c| ==> c[i] != PERCENT && c[i] != UNDERSCORE && c[i] != ESCAPE
  {
  }

  lemma {:induction false} RunIsRun(text: seq<Character>, tokens: seq<Token>)
    requires IsPattern(tokens) && tokens != [] && tokens[0].Run?
    ensures Matches(Encode(text), EncodePattern(tokens)) <==> IsLike(text, tokens)
    decreases |tokens|, 0
  {
    hide NextChar, IsCharacter;
    var p, t := EncodePattern(tokens), Encode(text);
    assert p[0] == PERCENT && p[1..] == EncodePattern(tokens[1..]);
    forall k: nat
      ensures Matches(Skip(t, k), p[1..]) <==> IsLike(text[if k <= |text| then k else |text|..], tokens[1..])
    {
      SkipEncoded(text, k);
      MatchesIsLike(text[if k <= |text| then k else |text|..], tokens[1..]);
    }
    if IsLike(text, tokens) {
      var k: nat :| k <= |text| && IsLike(text[k..], tokens[1..]);
      assert Matches(Skip(t, k), p[1..]);
    }
  }

  // ---------------------------------------------------------------- patterns of text are well-formed

  lemma {:induction false} BytesWellFormed(c: seq<byte>, p: seq<byte>)
    requires forall i :: 0 <= i < |c| ==> c[i] != PERCENT && c[i] != UNDERSCORE && c[i] != ESCAPE
    ensures WellFormed(c + p) <==> WellFormed(p)
    ensures EndsInEscape(c + p) <==> EndsInEscape(p)
  {
    if c == [] {
      assert c + p == p;
    } else {
      assert (c + p)[1..] == c[1..] + p;
      BytesWellFormed(c[1..], p);
    }
  }

  /** A pattern written in characters is well-formed and ends in no escape. */
  lemma {:induction false} PatternWellFormed(tokens: seq<Token>)
    requires IsPattern(tokens)
    ensures WellFormed(EncodePattern(tokens)) && StartsCharacter(EncodePattern(tokens))
      && !EndsInEscape(EncodePattern(tokens))
  {
    if tokens != [] {
      var p := EncodePattern(tokens[1..]);
      PatternWellFormed(tokens[1..]);
      match tokens[0] {
        case Run =>
          assert ([PERCENT] + p)[1..] == p;
        case One =>
          assert ([UNDERSCORE] + p)[1..] == p;
        case Plain(c) =>
          PlainCharacter(c);
          BytesWellFormed(c, p);
        case Escaped(c) =>
          assert ([ESCAPE] + c + p)[2..] == c[1..] + p;
          BytesWellFormed(c[1..], p);
      }
    }
  }

  /** For every text and every pattern of characters, matchText says true exactly when the text is
      LIKE the pattern. */
  lemma JudgeIsTextLike(text: seq<Character>, tokens: seq<Token>)
    requires IsPattern(tokens)
    ensures Judge(Encode(text), EncodePattern(tokens)) != ErrLikeEscape
    ensures Judge(Encode(text), EncodePattern(tokens)) == LikeTrue <==> IsLike(text, tokens)
  {
    PatternWellFormed(tokens);
    JudgeRight(Encode(text), EncodePattern(tokens));
    assert IsSuffix(Encode(text), Encode(text));
    MatchesIsLike(text, tokens);
  }
}
