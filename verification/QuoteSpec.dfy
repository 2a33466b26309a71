/** Quoting an argument list into one line, and cutting the line back into arguments. */
module QuoteSpec {
  import opened Basics
  predicate IsSep(c: char) { c == ' ' || c == '\t' || c == '\n' }

  /** Characters that make quotestrdup quote. A newline is not one of them. */
  predicate Forces(c: char) { c == ' ' || c == '\t' || c == '\'' }

  predicate NeedsQuotes(s: string) { exists i :: 0 <= i < |s| && Forces(s[i]) }

  function Doubled(s: string): string {
    if s == "" then "" else (if s[0] == '\'' then "''" else [s[0]]) + Doubled(s[1..])
  }

  function Quote(s: string): string {
    if NeedsQuotes(s) then "'" + Doubled(s) + "'" else s
  }

  /** What get_argv builds: the quoted arguments with one space between them. */
  function Join(args: seq<string>): string
    decreases |args|, 0
  {
    if args == [] then "" else Quote(args[0]) + Tail(args[1..])
  }

  function Tail(args: seq<string>): string
    decreases |args|, 1
  {
    if args == [] then "" else " " + Join(args)
  }

  // ---- cutting -----------------------------------------------------------------

  function SkipSeps(s: string): (r: string)
    ensures |r| <= |s| && (r == "" || !IsSep(r[0]))
  {
    if s != "" && IsSep(s[0]) then SkipSeps(s[1..]) else s
  }

  /** Up to the first separator or the end. */
  function Word(s: string): (r: string)
    ensures |r| <= |s|
  {
    if s == "" || IsSep(s[0]) then "" else [s[0]] + Word(s[1..])
  }

  datatype Token = Token(text: string, used: nat)

  /** What has been read, using up some characters, in front of the rest. */
  function Onto(got: string, used: nat, r: Option<Token>): Option<Token> {
    match r
    case None => None
    case Some(t) => Some(Token(got + t.text, t.used + used))
  }

  /** After an opening quote: the text up to the closing one, doubled quotes read
      as one. used counts the closing quote. */
  function Quoted(s: string): (r: Option<Token>)
    ensures r.Some? ==> |r.value.text| < r.value.used <= |s|
  {
    if s == "" then None
    else if s[0] == '\'' && (|s| == 1 || s[1] != '\'') then Some(Token("", 1))
    else
      var width := if s[0] == '\'' then 2 else 1;
      Onto([s[0]], width, Quoted(s[width..]))
  }

  /** unquotestr at the start of s: the token and how much of s it uses up. */
  function NextToken(s: string): (r: Option<Token>)
    requires s != ""
    ensures r.Some? ==> r.value.used <= |s| && |r.value.text| <= r.value.used
    ensures r.Some? && !IsSep(s[0]) ==> r.value.used > 0
  {
    if s[0] == '\'' then
      match Quoted(s[1..])
      case None => None
      case Some(t) => Some(Token(t.text, t.used + 1))
    else
      var w := Word(s);
      Some(Token(w, if |w| < |s| then |w| + 1 else |w|))
  }

  /** The tokens of s, which starts with no separator; None where tokenize fails,
      because a quote is not closed or more than limit tokens turn up. */
  function Tokens(s: string, limit: nat): Option<seq<string>>
    requires s == "" || !IsSep(s[0])
    decreases |s|
  {
    if s == "" then Some([])
    else if limit == 0 then None
    else match NextToken(s)
      case None => None
      case Some(t) =>
        match Tokens(SkipSeps(s[t.used..]), limit - 1)
        case None => None
        case Some(rest) => Some([t.text] + rest)
  }

  function Prepend(t: string, rest: Option<seq<string>>): Option<seq<string>> {
    match rest
    case None => None
    case Some(ts) => Some([t] + ts)
  }

  lemma TokensStep(s: string, limit: nat, t: Token, after: string)
    requires s != "" && !IsSep(s[0]) && limit > 0 && NextToken(s) == Some(t) && s[t.used..] == after
    ensures Tokens(s, limit) == Prepend(t.text, Tokens(SkipSeps(after), limit - 1))
  {
  }

  lemma TokensOfNothing(limit: nat)
    ensures Tokens(SkipSeps(""), limit) == Some([])
  {
  }

  function CountSeps(s: string): nat {
    if s == "" then 0 else CountSeps(s[1..]) + if IsSep(s[0]) then 1 else 0
  }

  function Tokenize(line: string): Option<seq<string>> {
    var s := SkipSeps(line);
    Tokens(s, CountSeps(s) + 1)
  }

  // ---- when the round trip holds --------------------------------------------------

  /** Arguments that survive: not empty, and not left bare around a newline. */
  predicate Survives(s: string) {
    s != "" && ('\n' in s ==> ' ' in s || '\t' in s || '\'' in s)
  }

  lemma DoubledFirst(s: string, tail: string)
    requires s != ""
    ensures Doubled(s) + tail ==
      if s[0] == '\'' then "''" + (Doubled(s[1..]) + tail) else [s[0]] + (Doubled(s[1..]) + tail)
  {
  }

  /** Reading on behind a character, or behind a doubled quote. */
  lemma QuotedOn(s: string, width: nat)
    requires s != "" && width == (if s[0] == '\'' then 2 else 1) <= |s| && (s[0] == '\'' ==> s[1] == '\'')
    ensures Quoted(s) == Onto([s[0]], width, Quoted(s[width..]))
  {
    hide Onto;
  }

  lemma QuotedPlain(c: char, text: string)
    requires c != '\''
    ensures Quoted([c] + text) == Onto([c], 1, Quoted(text))
  {
    hide Quoted, Onto;
    assert ([c] + text)[1..] == text;
    QuotedOn([c] + text, 1);
  }

  lemma QuotedPair(text: string)
    ensures Quoted("''" + text) == Onto("'", 2, Quoted(text))
  {
    hide Quoted, Onto;
    assert ("''" + text)[2..] == text;
    QuotedOn("''" + text, 2);
  }

  lemma DoubledLength(s: string)
    requires s != ""
    ensures |Doubled(s)| == |Doubled(s[1..])| + if s[0] == '\'' then 2 else 1
  {
  }

  lemma {:induction false} UnquoteDoubled(s: string, rest: string)
    requires rest == "" || rest[0] != '\''
    ensures Quoted(Doubled(s) + ("'" + rest)) == Some(Token(s, |Doubled(s)| + 1))
  {
    if s == "" {
      assert "" + ("'" + rest) == "'" + rest;
    } else {
      assert [s[0]] + s[1..] == s;
      DoubledFirst(s, "'" + rest);
      DoubledLength(s);
      UnquoteDoubled(s[1..], rest);
      hide Doubled, Quoted;
      var tail := Doubled(s[1..]) + ("'" + rest);
      if s[0] == '\'' { QuotedPair(tail); } else { QuotedPlain(s[0], tail); }
    }
  }

  lemma Reassociate(d: string, t: string)
    ensures ("'" + d + "'") + t == "'" + (d + ("'" + t))
    ensures ("'" + (d + ("'" + t)))[1..] == d + ("'" + t)
  {
  }

  /** A quoted argument followed by the rest of the line is one token. */
  lemma QuotedArgument(a: string, rest: seq<string>)
    requires NeedsQuotes(a)
    ensures var s := Quote(a) + Tail(rest);
      s != "" && s[0] == '\'' && NextToken(s) == Some(Token(a, |Quote(a)|))
  {
    var d, t := Doubled(a), Tail(rest);
    UnquoteDoubled(a, t);
    assert Quote(a) == "'" + d + "'";
    hide Quote, NeedsQuotes, Doubled, Tail, Quoted;
    Reassociate(d, t);
    assert NextToken("'" + (d + ("'" + t))) == Some(Token(a, |d| + 2));
  }

  /** Bare text free of separators and quotes, followed by the rest of the line. */
  lemma {:induction false} BareWord(w: string, rest: string)
    requires forall i :: 0 <= i < |w| ==> !IsSep(w[i])
    requires rest == "" || IsSep(rest[0])
    ensures Word(w + rest) == w
  {
    if w == "" {
      assert w + rest == rest;
    } else {
      assert (w + rest)[1..] == w[1..] + rest;
      BareWord(w[1..], rest);
    }
  }

  lemma BareArgument(a: string, rest: seq<string>)
    requires Survives(a) && !NeedsQuotes(a)
    ensures Quote(a) == a
    ensures var s := Quote(a) + Tail(rest);
      && s != "" && !IsSep(s[0])
      && NextToken(s) == Some(Token(a, |a| + if rest == [] then 0 else 1))
  {
    forall i | 0 <= i < |a| ensures !IsSep(a[i]) && a[i] != '\'' {
      assert !Forces(a[i]);
      assert a[i] == '\n' ==> '\n' in a;
    }
    BareWord(a, Tail(rest));
  }

  lemma {:induction false} CountSepsConcat(a: string, b: string)
    ensures CountSeps(a + b) == CountSeps(a) + CountSeps(b)
  {
    if a == "" {
      assert a + b == b;
    } else {
      assert (a + b)[1..] == a[1..] + b;
      CountSepsConcat(a[1..], b);
    }
  }

  lemma {:induction false} EnoughSeps(args: seq<string>)
    requires args != []
    ensures CountSeps(Join(args)) + 1 >= |args|
  {
    CountSepsConcat(Quote(args[0]), Tail(args[1..]));
    if |args| > 1 {
      EnoughSeps(args[1..]);
      CountSepsConcat(" ", Join(args[1..]));
      assert CountSeps(" ") == 1 by { assert " "[1..] == ""; }
    }
  }

  lemma SpaceIsSkipped(s: string)
    ensures SkipSeps(" " + s) == SkipSeps(s)
  {
    assert (" " + s)[1..] == s;
  }

  /** The first argument of a line is its first token, up to the next one. */
  lemma FirstArgument(args: seq<string>, limit: nat)
    requires args != [] && Survives(args[0]) && limit > 0
    ensures SkipSeps(Join(args)) == Join(args)
    ensures Tokens(SkipSeps(Join(args)), limit) == Prepend(args[0], Tokens(SkipSeps(Join(args[1..])), limit - 1))
  {
    var a, rest := args[0], args[1..];
    var s := Join(args);
    if NeedsQuotes(a) { QuotedArgument(a, rest); } else { BareArgument(a, rest); }
    assert SkipSeps(s) == s;
    hide Quote, NextToken, Tokens, SkipSeps, Survives, NeedsQuotes;
    if NeedsQuotes(a) {
      TokensStep(s, limit, Token(a, |Quote(a)|), Tail(rest));
      if rest != [] { SpaceIsSkipped(Join(rest)); }
    } else {
      if rest == [] {
        TokensStep(s, limit, Token(a, |a|), "");
      } else {
        assert s == a + " " + Join(rest);
        TokensStep(s, limit, Token(a, |a| + 1), Join(rest));
      }
    }
  }

  lemma {:induction false} SurvivorsTokenize(args: seq<string>, limit: nat)
    requires forall a :: a in args ==> Survives(a)
    requires limit >= |args|
    ensures Tokens(SkipSeps(Join(args)), limit) == Some(args)
  {
    hide Tokens, SkipSeps, Survives;
    if args == [] {
      TokensOfNothing(limit);
    } else {
      FirstArgument(args, limit);
      SurvivorsTokenize(args[1..], limit - 1);
      assert [args[0]] + args[1..] == args;
    }
  }

  ghost predicate AllSurvive(r: Option<seq<string>>) {
    r.Some? ==> forall t :: t in r.value ==> Survives(t)
  }

  lemma PrependSurvives(t: string, r: Option<seq<string>>)
    requires Survives(t) && AllSurvive(r)
    ensures AllSurvive(Prepend(t, r))
  {
  }

  lemma NoRoom(line: string)
    requires line != "" && !IsSep(line[0])
    ensures AllSurvive(Tokens(line, 0))
  {
  }

  predicate Bare(w: string) {
    forall i :: 0 <= i < |w| ==> !Forces(w[i])
  }

  lemma {:induction false} WordIsPrefix(s: string)
    ensures var r := Word(s);
      r == s[..|r|] && (forall i :: 0 <= i < |r| ==> !IsSep(r[i])) && (|r| < |s| ==> IsSep(s[|r|]))
  {
    if s != "" && !IsSep(s[0]) {
      WordIsPrefix(s[1..]);
      assert s == [s[0]] + s[1..];
    }
  }

  lemma WordSurvives(w: string)
    requires w != "" && !IsSep(w[0])
    ensures Survives(Word(w))
  {
    WordIsPrefix(w);
    assert Word(w) == [w[0]] + Word(w[1..]);
  }

  lemma {:induction false} WordOfLonger(w: string, rest: string)
    requires rest == "" || IsSep(rest[0])
    ensures Word(w + rest) == Word(w)
  {
    if w == "" {
      assert w + rest == rest;
    } else if !IsSep(w[0]) {
      assert (w + rest)[1..] == w[1..] + rest;
      WordOfLonger(w[1..], rest);
    }
  }

  /** The first word of bare text is what NextToken finds, and it would survive. */
  lemma WordOfBare(w: string, rest: string)
    requires Bare(w) && w != "" && !IsSep(w[0]) && (rest == "" || IsSep(rest[0]))
    ensures var word := Word(w);
      && Survives(word) && |word| <= |w|
      && NextToken(w + rest) == Some(Token(word, |word| + if |word| < |w + rest| then 1 else 0))
  {
    WordSurvives(w);
    WordOfLonger(w, rest);
    assert !Forces(w[0]);
    assert (w + rest)[0] == w[0];
  }

  lemma CutBehind(w: string, tail: string, k: nat)
    requires k <= |w|
    ensures (w + tail)[k..] == w[k..] + tail && |w + tail| == |w| + |tail|
    ensures w != "" ==> w + tail != "" && (w + tail)[0] == w[0]
  {
  }

  /** The first word ends inside the bare text. */
  lemma BareWordInside(w: string, rest: seq<string>, limit: nat)
    requires Bare(w) && w != "" && !IsSep(w[0]) && |Word(w)| < |w| && limit > 0
    ensures Tokens(w + Tail(rest), limit)
         == Prepend(Word(w), Tokens(SkipSeps(w[|Word(w)| + 1..] + Tail(rest)), limit - 1))
  {
    var tail := Tail(rest);
    assert tail == "" || tail[0] == ' ';
    WordOfBare(w, tail);
    hide *;
    CutBehind(w, tail, |Word(w)| + 1);
    TokensStep(w + tail, limit, Token(Word(w), |Word(w)| + 1), w[|Word(w)| + 1..] + tail);
  }

  lemma AfterLastWord(line: string, w: string, rest: seq<string>, after: string)
    requires line == w + Tail(rest)
    requires after == line[|w| + if |w| < |line| then 1 else 0..]
    ensures SkipSeps(after) == SkipSeps(Tail(rest))
  {
    if rest != [] {
      assert Tail(rest) == " " + Join(rest);
      SpaceIsSkipped(Join(rest));
      assert after == Join(rest);
    } else {
      assert after == "" == Tail(rest);
    }
  }

  /** The bare text is one word. */
  lemma BareWordLast(w: string, rest: seq<string>, limit: nat)
    requires Bare(w) && w != "" && !IsSep(w[0]) && |Word(w)| == |w| && limit > 0
    ensures Tokens(w + Tail(rest), limit) == Prepend(Word(w), Tokens(SkipSeps(Tail(rest)), limit - 1))
  {
    assert Tail(rest) == "" || IsSep(Tail(rest)[0]);
    hide NextToken, Tokens, SkipSeps, Tail, Bare, IsSep;
    WordOfBare(w, Tail(rest));
    var line := w + Tail(rest);
    var after := line[|w| + if |w| < |line| then 1 else 0..];
    AfterLastWord(line, w, rest, after);
    hide Word;
    TokensStep(line, limit, Token(Word(w), |line| - |after|), after);
  }

  lemma BareWordIsFirst(w: string, rest: seq<string>, limit: nat)
    requires Bare(w) && w != "" && !IsSep(w[0]) && limit > 0
    ensures var after := w[if |Word(w)| < |w| then |Word(w)| + 1 else |w|..];
      Tokens(w + Tail(rest), limit) == Prepend(Word(w), Tokens(SkipSeps(after + Tail(rest)), limit - 1))
  {
    hide NextToken, SkipSeps, Survives, Tail, Tokens;
    if |Word(w)| < |w| {
      BareWordInside(w, rest, limit);
    } else {
      BareWordLast(w, rest, limit);
      assert w[|w|..] + Tail(rest) == Tail(rest);
    }
  }

  lemma BareLineStart(w: string, rest: seq<string>)
    requires Bare(w) && w != "" && !IsSep(w[0])
    ensures SkipSeps(w + Tail(rest)) == w + Tail(rest)
    ensures Survives(Word(w))
  {
    WordOfBare(w, Tail(rest));
  }

  lemma BareSuffix(w: string, k: nat)
    requires Bare(w) && k <= |w|
    ensures Bare(w[k..])
  {
  }

  lemma NothingSurvives()
    ensures AllSurvive(Some([]))
  {
  }

  lemma {:induction false} DoubledIsLonger(s: string)
    ensures |Doubled(s)| >= |s|
  {
    if s != "" { DoubledIsLonger(s[1..]); }
  }

  lemma TailIsLonger(rest: seq<string>)
    requires rest != []
    ensures |rest[0]| + |Tail(rest[1..])| < |Tail(rest)|
  {
    DoubledIsLonger(rest[0]);
  }

  lemma BareTail(rest: seq<string>)
    requires rest != [] && !NeedsQuotes(rest[0])
    ensures Bare(rest[0]) && SkipSeps(Tail(rest)) == SkipSeps(rest[0] + Tail(rest[1..]))
  {
    SpaceIsSkipped(Join(rest));
  }

  lemma QuotedIsSurvivor(a: string)
    requires NeedsQuotes(a)
    ensures Survives(a)
  {
  }

  lemma FailureSurvives()
    ensures AllSurvive(None)
  {
  }

  lemma QuotedTail(rest: seq<string>, limit: nat)
    requires rest != [] && NeedsQuotes(rest[0])
    ensures Tokens(SkipSeps(Tail(rest)), limit) ==
      if limit == 0 then None else Prepend(rest[0], Tokens(SkipSeps(Tail(rest[1..])), limit - 1))
  {
    var a, more := rest[0], rest[1..];
    var line := Join(rest);
    SpaceIsSkipped(line);
    QuotedArgument(a, more);
    assert SkipSeps(line) == line == Quote(a) + Tail(more);
    if limit > 0 {
      hide Quote, NextToken, SkipSeps, Tokens;
      TokensStep(line, limit, Token(a, |Quote(a)|), Tail(more));
    }
  }

  lemma {:induction false} BareWordSurvives(w: string, rest: seq<string>, limit: nat)
    requires Bare(w) && w != "" && !IsSep(w[0])
    ensures AllSurvive(Tokens(SkipSeps(w + Tail(rest)), limit))
    decreases |w| + |Tail(rest)|, 0, 0
  {
    hide Word, SkipSeps, Survives, AllSurvive, Tail, Tokens, Bare;
    BareLineStart(w, rest);
    if limit == 0 {
      NoRoom(w + Tail(rest));
    } else {
      var after := w[if |Word(w)| < |w| then |Word(w)| + 1 else |w|..];
      BareSuffix(w, |w| - |after|);
      BareTextSurvives(after, rest, limit - 1);
      BareWordIsFirst(w, rest, limit);
      PrependSurvives(Word(w), Tokens(SkipSeps(after + Tail(rest)), limit - 1));
    }
  }

  /** Bare text left over from an argument, then the remaining arguments: whatever
      tokens come out, each one is an argument that would survive. */
  lemma {:induction false} BareTextSurvives(w: string, rest: seq<string>, limit: nat)
    requires Bare(w)
    ensures AllSurvive(Tokens(SkipSeps(w + Tail(rest)), limit))
    decreases |w| + |Tail(rest)|, 1, 0
  {
    var line := w + Tail(rest);
    if w == "" {
      assert line == Tail(rest);
      TailSurvives(rest, limit);
    } else if w[0] == '\n' {
      assert line[1..] == w[1..] + Tail(rest);
      BareTextSurvives(w[1..], rest, limit);
    } else {
      assert !Forces(w[0]);
      BareWordSurvives(w, rest, limit);
    }
  }

  lemma {:induction false} BareTailSurvives(rest: seq<string>, limit: nat)
    requires rest != [] && !NeedsQuotes(rest[0])
    ensures AllSurvive(Tokens(SkipSeps(Tail(rest)), limit))
    decreases |Tail(rest)|, 0, 0
  {
    hide AllSurvive, SkipSeps, Tokens, Tail, NeedsQuotes;
    TailIsLonger(rest);
    BareTail(rest);
    BareTextSurvives(rest[0], rest[1..], limit);
  }

  lemma {:induction false} TailSurvives(rest: seq<string>, limit: nat)
    ensures AllSurvive(Tokens(SkipSeps(Tail(rest)), limit))
    decreases |Tail(rest)|, 0, 1
  {
    hide AllSurvive, SkipSeps, Tokens;
    if rest == [] {
      assert Tail(rest) == "";
      TokensOfNothing(limit);
      NothingSurvives();
    } else if NeedsQuotes(rest[0]) {
      QuotedTailSurvives(rest, limit);
    } else {
      BareTailSurvives(rest, limit);
    }
  }

  lemma {:induction false} QuotedTailSurvives(rest: seq<string>, limit: nat)
    requires rest != [] && NeedsQuotes(rest[0])
    ensures AllSurvive(Tokens(SkipSeps(Tail(rest)), limit))
    decreases |Tail(rest)|, 0, 0
  {
    hide AllSurvive, SkipSeps, Tokens, Tail, NeedsQuotes;
    TailIsLonger(rest);
    QuotedTail(rest, limit);
    if limit > 0 {
      TailSurvives(rest[1..], limit - 1);
      QuotedIsSurvivor(rest[0]);
      PrependSurvives(rest[0], Tokens(SkipSeps(Tail(rest[1..])), limit - 1));
    } else {
      FailureSurvives();
    }
  }

  /** What comes back as it was sent can only be made of arguments that survive. */
  lemma ReturnedSurvives(args: seq<string>)
    requires args != []
    ensures AllSurvive(Tokenize(Join(args)))
  {
    var limit := CountSeps(SkipSeps(Join(args))) + 1;
    TailSurvives(args, limit);
    assert Tail(args) == " " + Join(args);
    hide Tail, Join, CountSeps, AllSurvive, Tokens;
    SpaceIsSkipped(Join(args));
  }

  /** The law of the pair: quoting, joining and cutting gives the arguments back
      exactly when every one of them survives. */
  lemma RoundTrip(args: seq<string>)
    requires args != []
    ensures Tokenize(Join(args)) == Some(args) <==> forall a :: a in args ==> Survives(a)
  {
    ReturnedSurvives(args);
    if forall a :: a in args ==> Survives(a) {
      EnoughSeps(args);
      FirstArgument(args, 1);
      hide Survives, Tokens, SkipSeps, CountSeps, Join;
      SurvivorsTokenize(args, CountSeps(Join(args)) + 1);
    }
  }

  /** An empty last argument, and a bare one around a newline: neither list comes back. */
  lemma LostArguments()
    ensures Tokenize(Join(["x", ""])) != Some(["x", ""])
    ensures Tokenize(Join(["x", "a\nb"])) != Some(["x", "a\nb"])
  {
    var empty, split := ["x", ""], ["x", "a\nb"];
    assert empty[1] in empty && !Survives("");
    assert split[1] in split && !Survives("a\nb") by { assert "a\nb"[1] == '\n'; }
    hide Tokenize, Join, Survives;
    RoundTrip(empty);
    RoundTrip(split);
  }

  lemma DoubledIs(s: string, rest: string, c: char)
    ensures Doubled("") == "" && Doubled(s + rest) == Doubled(s) + Doubled(rest)
    ensures Doubled([c]) == if c == '\'' then "''" else [c]
    decreases |s|
  {
    assert [c][1..] == "";
    if s == "" {
      assert s + rest == rest;
    } else {
      DoubledIs(s[1..], rest, c);
      assert (s + rest)[0] == s[0] && (s + rest)[1..] == s[1..] + rest;
    }
  }

  /** Quotes go around an argument with a space, a tab or a quote in it, and every quote in it
      is doubled. */
  lemma QuoteIs(s: string, rest: string, c: char)
    ensures Quote(s) == if ' ' in s || '\t' in s || '\'' in s then "'" + Doubled(s) + "'" else s
    ensures Doubled("") == "" && Doubled(s + rest) == Doubled(s) + Doubled(rest)
    ensures Doubled([c]) == if c == '\'' then "''" else [c]
  {
    DoubledIs(s, rest, c);
    hide Doubled;
    if ' ' in s || '\t' in s || '\'' in s {
      var i :| 0 <= i < |s| && (s[i] == ' ' || s[i] == '\t' || s[i] == '\'');
      assert Forces(s[i]);
    }
  }

  lemma WordOfLetter(c: char, sep: char, rest: string)
    requires !IsSep(c) && c != '\'' && IsSep(sep)
    ensures NextToken([c, sep] + rest) == Some(Token([c], 2))
  {
    var s := [c, sep] + rest;
    assert s[0] == c && s[1..] == [sep] + rest && ([sep] + rest)[0] == sep;
    assert Word([sep] + rest) == "";
    assert Word(s) == [c] + "" == [c];
  }

  /** A space, a tab and a newline end a word alike. */
  lemma SeparatorsCut(a: char, b: char, sep: char)
    requires sep in [' ', '\t', '\n'] && a !in [' ', '\t', '\n', '\''] && b !in [' ', '\t', '\n', '\'']
    ensures Tokenize([a, sep, b]) == Some([[a], [b]])
  {
    var line := [a, sep, b];
    assert line[2..] == [b] && line[1..] == [sep, b] && [sep, b][1..] == [b] && [b][1..] == "";
    assert [a, sep] + [b] == line by { assert |[a, sep] + [b]| == 3; }
    WordOfLetter(a, sep, [b]);
    assert Word("") == "" && Word([b]) == [b] + "" == [b];
    assert NextToken([b]) == Some(Token([b], 1));
    assert CountSeps("") == 0 && CountSeps([b]) == 0 && CountSeps([sep, b]) == 1 && CountSeps(line) == 1;
    assert SkipSeps(line) == line && SkipSeps([b]) == [b];
    TokensStep(line, 2, Token([a], 2), [b]);
    TokensStep([b], 1, Token([b], 1), "");
    TokensOfNothing(0);
    assert [[b]] + [] == [[b]] && [[a]] + [[b]] == [[a], [b]];
  }

  lemma JoinLetter(c: char, rest: seq<string>)
    requires !Forces(c)
    ensures Join([[c]] + rest) == [c] + if rest == [] then "" else " " + Join(rest)
  {
    assert ([[c]] + rest)[1..] == rest && Quote([c]) == [c];
  }

  lemma JoinFive()
    ensures Join(["a", "b", "c", "d", "e"]) == "a b c d e"
  {
    hide Join;
    var e, d, c, b := ["e"], ["d", "e"], ["c", "d", "e"], ["b", "c", "d", "e"];
    JoinLetter('e', []);
    JoinLetter('d', e);
    JoinLetter('c', d);
    JoinLetter('b', c);
    JoinLetter('a', b);
    assert ["e"] + [] == e && ["d"] + e == d && ["c"] + d == c && ["b"] + c == b;
    assert ["a"] + b == ["a", "b", "c", "d", "e"];
    assert Join(e) == "e" && Join(d) == "d e" && Join(c) == "c d e" && Join(b) == "b c d e";
  }

  /** Five tokens, and none because a quote is not closed. */
  lemma FiveAndNone()
    ensures Tokenize("a b c d e") == Some(["a", "b", "c", "d", "e"])
    ensures Tokenize("'") == None
  {
    var args := ["a", "b", "c", "d", "e"];
    assert forall a :: a in args ==> Survives(a);
    assert SkipSeps("'") == "'" && "'"[1..] == "";
    assert NextToken("'") == None;
    assert Tokenize("'") == None;
    hide Tokenize, Join, Survives;
    JoinFive();
    RoundTrip(args);
  }
}
