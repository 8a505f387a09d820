/** Go's strings.TrimSpace, which YAGPDB applies to the whole response before sending it. */
module Blank {

  /** The Unicode White_Space characters, TrimSpace's sense of white space. */
  predicate IsSpace(c: char) {
    '\t' <= c <= '\r' || c == ' ' || c == '\U{85}' || c == '\U{A0}' || c == '\U{1680}'
    || '\U{2000}' <= c <= '\U{200A}' || c == '\U{2028}' || c == '\U{2029}' || c == '\U{202F}'
    || c == '\U{205F}' || c == '\U{3000}'
  }

  predicate AllBlank(s: string) {
    forall i :: 0 <= i < |s| ==> IsSpace(s[i])
  }

  function TrimLeft(s: string): string {
    if s != [] && IsSpace(s[0]) then TrimLeft(s[1..]) else s
  }

  function TrimRight(s: string): string {
    if s != [] && IsSpace(s[|s| - 1]) then TrimRight(s[..|s| - 1]) else s
  }

  function TrimSpace(s: string): string {
    TrimRight(TrimLeft(s))
  }

  lemma {:induction false} TrimLeftEmptyIffBlank(s: string)
    ensures AllBlank(s) <==> TrimLeft(s) == ""
  {
    if s != [] && IsSpace(s[0]) {
      TrimLeftEmptyIffBlank(s[1..]);
      assert s == [s[0]] + s[1..];
    }
  }

  lemma {:induction false} TrimLeftAppend(s: string, t: string)
    ensures AllBlank(s) ==> TrimLeft(s + t) == TrimLeft(t)
    ensures !AllBlank(s) ==> TrimLeft(s + t) == TrimLeft(s) + t
  {
    if s == [] {
      assert s + t == t;
    } else {
      assert (s + t)[1..] == s[1..] + t;
      if IsSpace(s[0]) {
        assert s == [s[0]] + s[1..];
        TrimLeftAppend(s[1..], t);
      }
    }
  }

  lemma {:induction false} TrimRightAppendBlank(s: string, w: string)
    requires AllBlank(w)
    ensures TrimRight(s + w) == TrimRight(s)
  {
    if w == [] {
      assert s + w == s;
    } else {
      assert (s + w)[..|s + w| - 1] == s + w[..|w| - 1];
      TrimRightAppendBlank(s, w[..|w| - 1]);
    }
  }

  /** Blank text at the end of the response never shows. */
  lemma TrimSpaceAppendBlank(s: string, w: string)
    requires AllBlank(w)
    ensures TrimSpace(s + w) == TrimSpace(s)
  {
    TrimLeftAppend(s, w);
    TrimLeftEmptyIffBlank(s);
    TrimLeftEmptyIffBlank(w);
    if !AllBlank(s) {
      TrimRightAppendBlank(TrimLeft(s), w);
    }
  }

  /** Text appended to two responses that agree up to leading blanks keeps them agreeing. */
  lemma TrimLeftCongruent(s: string, s': string, t: string)
    requires TrimLeft(s) == TrimLeft(s')
    ensures TrimLeft(s + t) == TrimLeft(s' + t)
  {
    TrimLeftEmptyIffBlank(s);
    TrimLeftEmptyIffBlank(s');
    TrimLeftAppend(s, t);
    TrimLeftAppend(s', t);
  }
}
