/** Splitting a message into arguments, and joining them (args.go). */
module Args {

  /** One argument; the container is the quote that grouped it, or none. */
  datatype RawArg = RawArg(str: string, container: char)

  const NONE: char := '\0'

  predicate IsContainer(r: char) {
    r == '"' || r == '`'
  }

  // ---------------------------------------------------------------- splitting, as a machine

  datatype Scan = Scan(args: seq<RawArg>, buf: string, escape: bool, container: char)

  function Write(s: Scan, text: string): Scan {
    s.(buf := s.buf + text, escape := false)
  }

  function Cut(s: Scan): Scan {
    Scan(s.args + [RawArg(s.buf, s.container)], "", false, NONE)
  }

  /** One character: a backslash escapes the next, a space ends an argument outside quotes, a quote
      groups when it opens the argument. */
  function Next(s: Scan, r: char): Scan {
    if r == '\\' then if s.escape then Write(s, "\\") else s.(escape := true)
    else if r == ' ' then
      if s.buf == "" then s.(escape := false)
      else if s.container == NONE && !s.escape then Cut(s)
      else Write(s, " ")
    else if r == s.container && s.container != NONE then if s.escape then Write(s, [r]) else Cut(s)
    else if s.container == NONE && s.buf == "" && IsContainer(r) then
      if s.escape then Write(s, [r]) else s.(container := r)
    else Write(s, (if s.escape then "\\" else "") + [r])
  }

  function Run(s: Scan, text: string): Scan
    decreases |text|
  {
    if text == "" then s else Run(Next(s, text[0]), text[1..])
  }

  const START := Scan([], "", false, NONE)

  function End(s: Scan): seq<RawArg> {
    if s.buf == "" then s.args
    else s.args + [RawArg((if s.container != NONE then [s.container] else "") + s.buf, NONE)]
  }

  function Split(text: string): seq<RawArg> {
    End(Run(START, text))
  }

  method SplitArgs(text: string) returns (args: seq<RawArg>)
    ensures args == Split(text)
  {
    var buf: string, escape, container := "", false, NONE;
    args := [];
    for i := 0 to |text|
      invariant Run(Scan(args, buf, escape, container), text[i..]) == Run(START, text)
    {
      var r := text[i];
      assert text[i..][0] == r && text[i..][1..] == text[i + 1..];
      if r == '\\' {
        if escape {
          escape := false;
          buf := buf + "\\";
        } else {
          escape := true;
        }
        continue;
      }
      var isSpecialToken := true;
      if r == ' ' {
        if |buf| > 0 && container == NONE && !escape {
          args := args + [RawArg(buf, NONE)];
          buf := "";
        } else if |buf| > 0 {
          buf := buf + " ";
        }
      } else if r == container && container != NONE {
        if escape {
          buf := buf + [r];
        } else {
          args := args + [RawArg(buf, container)];
          buf := "";
          container := NONE;
        }
      } else if container == NONE && |buf| == 0 {
        if IsContainer(r) {
          if escape {
            buf := buf + [r];
          } else {
            container := r;
          }
        } else {
          isSpecialToken := false;
        }
      } else {
        isSpecialToken := false;
      }
      if !isSpecialToken {
        assert buf + "\\" + [r] == buf + ("\\" + [r]) && buf + [r] == buf + ("" + [r]);
        if escape {
          buf := buf + "\\";
        }
        buf := buf + [r];
      }
      escape := false;
    }
    assert text[|text|..] == "" && "" + buf == buf;
    if |buf| > 0 {
      var item := buf;
      if container != NONE {
        item := [container] + item;
      }
      args := args + [RawArg(item, NONE)];
    }
  }

  // ---------------------------------------------------------------- joining

  predicate NeedsQuotes(s: string) {
    s == "" || ' ' in s || '\\' in s || '"' in s || '`' in s
  }

  /** A backslash before every backslash and every quote of that kind. */
  function Escaped(quote: char, s: string): string {
    if s == "" then ""
    else (if s[0] == '\\' || s[0] == quote then ['\\', s[0]] else [s[0]]) + Escaped(quote, s[1..])
  }

  function Part(s: string): string {
    if NeedsQuotes(s) then "\"" + Escaped('"', s) + "\"" else s
  }

  function Join(args: seq<string>): string {
    if args == [] then "" else if |args| == 1 then Part(args[0]) else Part(args[0]) + " " + Join(args[1..])
  }

  method JoinArgs(args: seq<string>) returns (message: string)
    ensures message == Join(args)
  {
    var parts := [];
    for i := 0 to |args|
      invariant |parts| == i && forall k :: 0 <= k < i ==> parts[k] == Part(args[k])
    {
      var s := args[i];
      if s == "" || exists c :: c in s && c in " \\\"`" {
        assert ' ' in " \\\"`" && '\\' in " \\\"`" && '"' in " \\\"`" && '`' in " \\\"`";
        s := "\"" + Escaped('"', s) + "\"";
      } else {
        assert forall c :: c in " \\\"`" ==> c !in s;
        assert " \\\"`"[0] == ' ' && " \\\"`"[1] == '\\' && " \\\"`"[2] == '"' && " \\\"`"[3] == '`';
      }
      parts := parts + [s];
    }
    message := "";
    var i := |parts|;
    while i > 0
      invariant 0 <= i <= |parts|
      invariant message == Join(args[i..])
    {
      i := i - 1;
      assert args[i..][1..] == args[i + 1..];
      message := if i == |parts| - 1 then parts[i] else parts[i] + " " + message;
    }
  }

  // ---------------------------------------------------------------- the round trip

  function WithoutLeadingSpaces(s: string): (r: string)
    ensures |r| <= |s| && (r != "" ==> r[0] != ' ')
    ensures r == s <==> s == "" || s[0] != ' '
  {
    if s != "" && s[0] == ' ' then WithoutLeadingSpaces(s[1..]) else s
  }

  /** Only spaces go, and those at the start only. */
  lemma {:induction false} OnlySpacesGo(s: string)
    ensures var r := WithoutLeadingSpaces(s);
            s == Spaces(|s| - |r|) + r
  {
    if s != "" && s[0] == ' ' {
      OnlySpacesGo(s[1..]);
      var r := WithoutLeadingSpaces(s);
      assert s == " " + s[1..] && Spaces(|s| - |r|) == " " + Spaces(|s| - 1 - |r|);
    } else {
      assert Spaces(0) == "" && "" + s == s;
    }
  }

  /** An argument as it comes back. */
  function Back(s: string): RawArg {
    RawArg(WithoutLeadingSpaces(s), if NeedsQuotes(s) then '"' else NONE)
  }

  function AllBack(args: seq<string>): seq<RawArg> {
    if args == [] then [] else [Back(args[0])] + AllBack(args[1..])
  }

  lemma {:induction false} RunAppend(s: Scan, a: string, b: string)
    ensures Run(s, a + b) == Run(Run(s, a), b)
    decreases |a|
  {
    if a == "" {
      assert a + b == b;
    } else {
      assert (a + b)[1..] == a[1..] + b;
      RunAppend(Next(s, a[0]), a[1..], b);
    }
  }

  lemma RunOne(s: Scan, r: char)
    ensures Run(s, [r]) == Next(s, r)
  {
  }

  /** Characters of a word without spaces and backslashes go into the buffer as they are, quotes too but
      at its start. */
  lemma {:induction false} RunPlain(s: Scan, a: string)
    requires !s.escape && s.container == NONE && forall c :: c in a ==> c != ' ' && c != '\\'
    requires s.buf == "" && a != "" ==> a[0] != '"' && a[0] != '`'
    ensures Run(s, a) == s.(buf := s.buf + a)
    decreases |a|
  {
    if a == "" {
      assert s.buf + a == s.buf;
    } else {
      assert a[0] in a && forall c :: c in a[1..] ==> c in a;
      assert "" + [a[0]] == [a[0]];
      RunPlain(Next(s, a[0]), a[1..]);
      assert s.buf + [a[0]] + a[1..] == s.buf + a;
    }
  }

  predicate IsQuote(c: char) {
    c == '"' || c == '`'
  }

  /** Inside quotes the escaped text comes back, less the spaces it starts with. */
  lemma {:induction false} RunQuoted(s: Scan, quote: char, a: string)
    requires !s.escape && s.container == quote && IsQuote(quote)
    ensures Run(s, Escaped(quote, a)) == s.(buf := s.buf + if s.buf == "" then WithoutLeadingSpaces(a) else a)
    decreases |a|
  {
    hide Next;
    if a == "" {
      assert s.buf + "" == s.buf;
    } else {
      hide Run;
      var head := if a[0] == '\\' || a[0] == quote then ['\\', a[0]] else [a[0]];
      RunAppend(s, head, Escaped(quote, a[1..]));
      RunCharacter(s, quote, a[0]);
      if a[0] == ' ' && s.buf == "" {
        RunQuoted(s, quote, a[1..]);
      } else {
        RunQuoted(s.(buf := s.buf + [a[0]]), quote, a[1..]);
        assert s.buf + [a[0]] + a[1..] == s.buf + a;
      }
    }
  }

  lemma RunCharacter(s: Scan, quote: char, r: char)
    requires !s.escape && s.container == quote && IsQuote(quote)
    ensures Run(s, if r == '\\' || r == quote then ['\\', r] else [r])
         == if r == ' ' && s.buf == "" then s else s.(buf := s.buf + [r])
  {
    if r == '\\' || r == quote {
      var pair := ['\\', r];
      assert pair[1..] == [r];
      RunOne(s.(escape := true), r);
      assert Run(s, pair) == Run(Next(s, '\\'), pair[1..]);
    } else {
      RunOne(s, r);
    }
  }

  lemma RunPart(args: seq<RawArg>, a: string)
    ensures Run(Scan(args, "", false, NONE), Part(a))
         == if NeedsQuotes(a) then Scan(args + [Back(a)], "", false, NONE) else Scan(args, a, false, NONE)
  {
    var s := Scan(args, "", false, NONE);
    if NeedsQuotes(a) {
      var open := Scan(args, "", false, '"');
      RunAppend(s, "\"" + Escaped('"', a), "\"");
      RunAppend(s, "\"", Escaped('"', a));
      RunOne(s, '"');
      RunQuoted(open, '"', a);
      assert "" + WithoutLeadingSpaces(a) == WithoutLeadingSpaces(a);
      RunOne(open.(buf := WithoutLeadingSpaces(a)), '"');
    } else {
      RunPlain(s, a);
      assert "" + a == a;
    }
  }

  lemma {:induction false} SplitJoinFrom(before: seq<RawArg>, args: seq<string>)
    ensures End(Run(Scan(before, "", false, NONE), Join(args))) == before + AllBack(args)
    decreases |args|
  {
    if args == [] {
      assert before + [] == before;
    } else {
      var s, a := Scan(before, "", false, NONE), args[0];
      RunPart(before, a);
      assert before + [Back(a)] + AllBack(args[1..]) == before + AllBack(args);
      assert AllBack([]) == [];
      if |args| == 1 {
        assert args[1..] == [];
        assert "" + a == a;
        assert before + [Back(a)] + [] == before + [Back(a)];
      } else {
        RunAppend(s, Part(a) + " ", Join(args[1..]));
        RunAppend(s, Part(a), " ");
        RunOne(Run(s, Part(a)), ' ');
        assert Run(s, Part(a) + " ") == Scan(before + [Back(a)], "", false, NONE);
        SplitJoinFrom(before + [Back(a)], args[1..]);
      }
    }
  }

  /** Splitting joined arguments gives each one back without the spaces it starts with, grouped by
      quotes exactly when it needed them; whatever quotes, backslashes or backticks it holds. */
  lemma SplitJoin(args: seq<string>)
    ensures Split(Join(args)) == AllBack(args)
  {
    SplitJoinFrom([], args);
    assert [] + AllBack(args) == AllBack(args);
  }

  function Texts(args: seq<RawArg>): seq<string> {
    seq(|args|, i requires 0 <= i < |args| => args[i].str)
  }

  lemma {:induction false} AllBackAt(args: seq<string>)
    ensures |AllBack(args)| == |args|
    ensures forall i :: 0 <= i < |args| ==> AllBack(args)[i] == Back(args[i])
  {
    if args != [] {
      AllBackAt(args[1..]);
    }
  }

  /** The round trip the comment promises holds exactly when no argument starts with a space. */
  lemma RoundTripIff(args: seq<string>)
    ensures Texts(Split(Join(args))) == args <==> forall a :: a in args ==> a == "" || a[0] != ' '
  {
    SplitJoin(args);
    AllBackAt(args);
    var back := Texts(Split(Join(args)));
    assert forall i :: 0 <= i < |args| ==> back[i] == WithoutLeadingSpaces(args[i]);
    if forall a :: a in args ==> a == "" || a[0] != ' ' {
      forall i | 0 <= i < |args| ensures back[i] == args[i] {
        assert args[i] in args;
      }
    }
  }

  /** The input that shows it: a quoted argument loses its first space. */
  lemma LeadingSpaceIsLost()
    ensures Texts(Split(Join([" a"]))) == ["a"]
  {
    SplitJoin([" a"]);
    AllBackAt([" a"]);
    assert " a"[1..] == "a";
  }

  // ---------------------------------------------------------------- messages as people type them

  /** A word on its own, or a text in quotes of either kind. */
  datatype Typed = Bare(text: string) | Quoted(quote: char, text: string)

  predicate IsTyped(w: Typed) {
    match w
    case Bare(s) => s != "" && s[0] != '"' && s[0] != '`' && ' ' !in s && '\\' !in s
    case Quoted(q, _) => q == '"' || q == '`'
  }

  function Typing(w: Typed): string {
    match w
    case Bare(s) => s
    case Quoted(q, s) => [q] + Escaped(q, s) + [q]
  }

  /** What a typed word is read as: itself, or the quoted text less the spaces it starts with. */
  function ReadAs(w: Typed): RawArg {
    match w
    case Bare(s) => RawArg(s, '\0')
    case Quoted(q, s) => RawArg(WithoutLeadingSpaces(s), q)
  }

  function AllReadAs(words: seq<(Typed, nat)>): seq<RawArg> {
    seq(|words|, i requires 0 <= i < |words| => ReadAs(words[i].0))
  }

  function Spaces(n: nat): string {
    seq(n, i => ' ')
  }

  /** Words with a space between them, and more spaces after each. */
  function Line(words: seq<(Typed, nat)>): string {
    if words == [] then ""
    else Typing(words[0].0) + (if |words| == 1 then "" else " ") + Spaces(words[0].1) + Line(words[1..])
  }

  /** Spaces between arguments add nothing. */
  lemma {:induction false} RunSpaces(args: seq<RawArg>, n: nat)
    ensures Run(Scan(args, "", false, NONE), Spaces(n)) == Scan(args, "", false, NONE)
    decreases n
  {
    if n > 0 {
      assert Spaces(n)[0] == ' ' && Spaces(n)[1..] == Spaces(n - 1);
      RunSpaces(args, n - 1);
    }
  }

  /** A typed word, and the spaces after it if there are any. */
  lemma RunTyped(args: seq<RawArg>, w: Typed, n: nat)
    requires IsTyped(w)
    ensures var s := Run(Scan(args, "", false, NONE), Typing(w) + Spaces(n));
            if w.Bare? && n == 0 then s == Scan(args, w.text, false, NONE)
            else s == Scan(args + [ReadAs(w)], "", false, NONE)
  {
    hide Run, Next;
    var s := Scan(args, "", false, NONE);
    RunAppend(s, Typing(w), Spaces(n));
    match w
    case Bare(a) =>
      RunPlain(s, a);
      assert "" + a == a;
      if n > 0 {
        assert Spaces(n) == " " + Spaces(n - 1);
        RunAppend(Scan(args, a, false, NONE), " ", Spaces(n - 1));
        RunOne(Scan(args, a, false, NONE), ' ');
        CutsAtSpace(args, a);
        RunSpaces(args + [RawArg(a, NONE)], n - 1);
      } else {
        RunNothing(Scan(args, a, false, NONE));
      }
    case Quoted(q, a) =>
      RunInQuotes(args, q, a);
      RunSpaces(args + [ReadAs(w)], n);
  }

  lemma RunNothing(s: Scan)
    ensures Run(s, Spaces(0)) == s
  {
    assert Spaces(0) == "";
  }

  lemma CutsAtSpace(args: seq<RawArg>, a: string)
    requires a != ""
    ensures Next(Scan(args, a, false, NONE), ' ') == Scan(args + [RawArg(a, NONE)], "", false, NONE)
  {
  }

  lemma RunInQuotes(args: seq<RawArg>, q: char, a: string)
    requires q == '"' || q == '`'
    ensures Run(Scan(args, "", false, NONE), [q] + Escaped(q, a)) == Scan(args, WithoutLeadingSpaces(a), false, q)
    ensures Run(Scan(args, "", false, NONE), [q] + Escaped(q, a) + [q])
         == Scan(args + [RawArg(WithoutLeadingSpaces(a), q)], "", false, NONE)
  {
    var s, open := Scan(args, "", false, NONE), Scan(args, "", false, q);
    RunAppend(s, [q] + Escaped(q, a), [q]);
    RunAppend(s, [q], Escaped(q, a));
    RunOne(s, q);
    RunQuoted(open, q, a);
    assert "" + WithoutLeadingSpaces(a) == WithoutLeadingSpaces(a);
    RunOne(open.(buf := WithoutLeadingSpaces(a)), q);
  }

  lemma {:induction false} LineSplits(before: seq<RawArg>, words: seq<(Typed, nat)>)
    requires forall i :: 0 <= i < |words| ==> IsTyped(words[i].0)
    ensures End(Run(Scan(before, "", false, NONE), Line(words))) == before + AllReadAs(words)
    decreases |words|
  {
    hide Next, Run, Typing, ReadAs;
    var s := Scan(before, "", false, NONE);
    if words == [] {
      RunNothing(s);
      assert Spaces(0) == "" && before + AllReadAs(words) == before;
    } else {
      var w, n, rest := words[0].0, words[0].1, words[1..];
      var gap := if |words| == 1 then n else n + 1;
      assert (if |words| == 1 then "" else " ") + Spaces(n) == Spaces(gap);
      assert Line(words) == (Typing(w) + Spaces(gap)) + Line(rest);
      RunAppend(s, Typing(w) + Spaces(gap), Line(rest));
      RunTyped(before, w, gap);
      assert before + [ReadAs(w)] + AllReadAs(rest) == before + AllReadAs(words);
      if w.Bare? && gap == 0 {
        assert rest == [] && Line(rest) == "" == Spaces(0);
        RunNothing(Scan(before, w.text, false, NONE));
        EndsBare(before, w);
        assert before + [ReadAs(w)] + [] == before + [ReadAs(w)];
      } else {
        LineSplits(before + [ReadAs(w)], rest);
      }
    }
  }

  lemma EndsBare(before: seq<RawArg>, w: Typed)
    requires w.Bare? && IsTyped(w)
    ensures End(Scan(before, w.text, false, NONE)) == before + [ReadAs(w)]
  {
    assert "" + w.text == w.text;
  }

  /** A message of words and quoted texts, with any spaces around them, splits into just these. */
  lemma TypedSplits(lead: nat, words: seq<(Typed, nat)>)
    requires forall i :: 0 <= i < |words| ==> IsTyped(words[i].0)
    ensures Split(Spaces(lead) + Line(words)) == AllReadAs(words)
  {
    RunAppend(START, Spaces(lead), Line(words));
    RunSpaces([], lead);
    LineSplits([], words);
    assert [] + AllReadAs(words) == AllReadAs(words);
  }

  /** A quote that is never closed stays in front of its text, which is then no group. */
  lemma UnclosedQuote(q: char, s: string)
    requires q == '"' || q == '`'
    ensures Split([q] + Escaped(q, s))
         == if WithoutLeadingSpaces(s) == "" then [] else [RawArg([q] + WithoutLeadingSpaces(s), '\0')]
  {
    RunInQuotes([], q, s);
    var text := [q] + WithoutLeadingSpaces(s);
    assert [] + [RawArg(text, NONE)] == [RawArg(text, NONE)];
  }

  /** A backslash in a word: before a space it keeps the word together, before another it is one, before
      a quote that would open a group it is dropped, at the end too, and before anything else it stays. */
  lemma Backslashes(a: string, c: char, b: string)
    requires a != "" ==> IsTyped(Bare(a))
    requires ' ' !in b && '\\' !in b
    ensures Split(a + ['\\', c] + b) ==
              if c == '\\' then [RawArg(a + "\\" + b, '\0')]
              else if c == ' ' then if a != "" then [RawArg(a + " " + b, '\0')] else Split(b)
              else if a == "" && (c == '"' || c == '`') then [RawArg([c] + b, '\0')]
              else [RawArg(a + ['\\', c] + b, '\0')]
    ensures Split(a + "\\") == if a == "" then [] else [RawArg(a, '\0')]
  {
    hide Next;
    var pair := ['\\', c];
    RunAppend(START, a, "\\");
    RunAppend(START, a + pair, b);
    RunAppend(START, a, pair);
    if a != "" {
      RunPlain(START, a);
    }
    assert "" + a == a;
    var s := START.(buf := a);
    RunOne(s, '\\');
    assert pair[1..] == [c] && Run(s, pair) == Run(Next(s, '\\'), pair[1..]);
    Escapes(s);
    RunOne(s.(escape := true), c);
    AfterBackslash(a, c);
    var next := Next(s.(escape := true), c);
    if !(c == ' ' && a == "") {
      RunPlain(next, b);
    }
    assert forall x: RawArg :: [] + [x] == [x];
    assert forall x: string :: "" + x == x;
  }

  lemma Escapes(s: Scan)
    requires !s.escape
    ensures Next(s, '\\') == s.(escape := true)
  {
  }

  lemma AfterBackslash(a: string, c: char)
    ensures Next(Scan([], a, true, NONE), c) ==
              Scan([], if c == '\\' then a + "\\"
                       else if c == ' ' then if a == "" then "" else a + " "
                       else if a == "" && (c == '"' || c == '`') then [c]
                       else a + ['\\', c], false, NONE)
  {
    assert "\\" + [c] == ['\\', c];
  }
}
