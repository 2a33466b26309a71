/** The string routines on buffers: quoting into an exactly sized copy, unquoting
    in place, and tokenizing a packed copy of the line. */
module Quote {
  import opened QuoteSpec
  import opened Basics
  const NUL: char := '\0'
  const EIO: nat := 5

  /** The C string at position at of buf is s. */
  predicate CStringAt(buf: seq<char>, at: nat, s: string) {
    && at + |s| < |buf|
    && buf[at..at + |s|] == s
    && buf[at + |s|] == NUL
    && NUL !in s
  }

  method Put(ret: array<char>, t: nat, c: char) returns (next: nat)
    requires t < ret.Length
    modifies ret
    ensures next == t + 1 && ret[..next] == old(ret[..t]) + [c]
  {
    ret[t] := c;
    next := t + 1;
  }

  function QuoteCount(s: string): nat {
    if s == "" then 0 else (if s[0] == '\'' then 1 else 0) + QuoteCount(s[1..])
  }

  lemma {:induction false} DoubledSize(s: string)
    ensures |Doubled(s)| == |s| + QuoteCount(s)
  {
    if s != "" { DoubledSize(s[1..]); }
  }

  lemma {:induction false} DoubledNoNul(s: string)
    requires NUL !in s
    ensures NUL !in Doubled(s)
  {
    if s != "" { DoubledNoNul(s[1..]); }
  }

  lemma DoubledNothing(str: string, k: nat)
    requires k == |str|
    ensures Doubled(str[k..]) == ""
  {
  }

  lemma DoubledNext(str: string, k: nat)
    requires k < |str|
    ensures Doubled(str[k..]) == (if str[k] == '\'' then "''" else [str[k]]) + Doubled(str[k + 1..])
  {
    assert str[k..][0] == str[k] && str[k..][1..] == str[k + 1..];
  }

  /** The character at k, with a second quote before it if it is one. */
  method PutDoubled(ret: array<char>, at: nat, c: char, ghost rest: string) returns (t: nat)
    requires at + (if c == '\'' then 2 else 1) <= ret.Length
    modifies ret
    ensures t == at + if c == '\'' then 2 else 1
    ensures ret[..t] + rest == old(ret[..at]) + ((if c == '\'' then "''" else [c]) + rest)
  {
    t := at;
    if c == '\'' {
      t := Put(ret, t, '\'');
      Regroup(old(ret[..at]), ['\''], ['\'']);
    }
    t := Put(ret, t, c);
    Regroup(old(ret[..at]), if c == '\'' then "''" else [c], rest);
  }

  method Doubling(str: string, nquot: nat) returns (ret: array<char>)
    requires NUL !in str && nquot == QuoteCount(str)
    ensures fresh(ret) && ret.Length == |Doubled(str)| + 3
    ensures CStringAt(ret[..], 0, "'" + Doubled(str) + "'")
  {
    DoubledNoNul(str);
    DoubledSize(str);
    hide Doubled, QuoteCount;
    var n := |str| + 2 + nquot;
    ret := new char[n + 1];
    ret[0] := '\'';
    var t := 1;
    assert ret[..1] == "'" && str[0..] == str;
    var k := 0;
    while k < |str|
      invariant 0 <= k <= |str| && 1 <= t && t + |Doubled(str[k..])| == n - 1
      invariant ret[..t] + Doubled(str[k..]) == "'" + Doubled(str)
    {
      DoubledNext(str, k);
      t := PutDoubled(ret, t, str[k], Doubled(str[k + 1..]));
      k := k + 1;
    }
    DoubledNothing(str, k);
    t := Put(ret, t, '\'');
    ret[t] := NUL;
    assert ret[..][0..n] == ret[..t] == "'" + Doubled(str) + "'";
  }

  method CountQuotes(str: string) returns (doquote: bool, nquot: nat)
    ensures doquote <==> NeedsQuotes(str)
    ensures nquot == QuoteCount(str)
  {
    doquote, nquot := false, 0;
    var i := 0;
    while i < |str|
      invariant 0 <= i <= |str|
      invariant doquote <==> exists k :: 0 <= k < i && Forces(str[k])
      invariant nquot + QuoteCount(str[i..]) == QuoteCount(str)
    {
      if str[i] == ' ' || str[i] == '\t' || str[i] == '\'' {
        doquote := true;
        if str[i] == '\'' { nquot := nquot + 1; }
      }
      i := i + 1;
    }
  }

  /** quotestrdup: count, then write into a buffer of exactly the counted size. */
  method QuoteStrDup(str: string) returns (ret: array<char>)
    requires NUL !in str
    ensures fresh(ret) && ret.Length == |QuoteSpec.Quote(str)| + 1
    ensures CStringAt(ret[..], 0, QuoteSpec.Quote(str))
  {
    var doquote, nquot := CountQuotes(str);
    if !doquote {
      ret := new char[|str| + 1](i => if 0 <= i < |str| then str[i] else NUL);
      assert ret[0..|str|] == str;
      return;
    }
    ret := Doubling(str, nquot);
  }

  // ---- unquoting in place --------------------------------------------------------

  /** A buffer whose text from position at on is s, up to its final NUL. */
  predicate Holds(buf: seq<char>, at: nat, s: string) {
    at + |s| + 1 == |buf| && CStringAt(buf, at, s)
  }

  lemma WordIs(s: string, k: nat, line: seq<char>, at: nat)
    requires Holds(line, at, s) && k <= |s|
    requires forall i :: at <= i < at + k ==> !IsSep(line[i])
    requires k < |s| ==> IsSep(s[k])
    ensures Word(s) == s[..k]
  {
    forall i | 0 <= i < k ensures !IsSep(s[..k][i]) {
      assert s[i] == line[at..at + |s|][i] == line[at + i];
    }
    BareWord(s[..k], s[k..]);
    assert s == s[..k] + s[k..];
  }

  /** Cutting a word of length k off with a NUL leaves it and the rest standing. */
  lemma WordCut(line: seq<char>, at: nat, s: string, k: nat)
    requires Holds(line, at, s) && k <= |s|
    ensures line[at + k] == NUL <==> k == |s|
    ensures k == |s| ==> CStringAt(line, at, s[..k]) && Holds(line, at + k, s[k..])
    ensures k < |s| ==> var now := line[at + k := NUL];
      CStringAt(now, at, s[..k]) && Holds(now, at + k + 1, s[k + 1..]) && now[..at] == line[..at]
  {
    assert k < |s| ==> line[at + k] == line[at..at + |s|][k] == s[k] && s[k] in s;
    var now := line[at + k := NUL];
    assert line[at..at + k] == line[at..at + |s|][..k];
    assert now[at..at + k] == line[at..at + k];
    if k < |s| {
      assert now[at + k + 1..at + |s|] == line[at..at + |s|][k + 1..];
    } else {
      assert line[at + k..at + k] == s[k..];
    }
  }

  /** unquotestr on a bare word: a NUL replaces the separator. */
  method CutWord(buf: array<char>, at: nat, ghost s: string) returns (e: nat)
    requires Holds(buf[..], at, s) && s != "" && s[0] != '\''
    modifies buf
    ensures NextToken(s).Some? && at <= e <= at + |s| && e == at + NextToken(s).value.used
    ensures CStringAt(buf[..], at, NextToken(s).value.text)
    ensures Holds(buf[..], e, s[e - at..])
    ensures buf[..at] == old(buf[..at])
  {
    ghost var line := buf[..];
    e := at;
    while buf[e] != ' ' && buf[e] != '\t' && buf[e] != '\n' && buf[e] != NUL
      invariant at <= e <= at + |s|
      invariant forall i :: at <= i < e ==> !IsSep(line[i])
      decreases at + |s| - e
    {
      assert line[e] == if e < at + |s| then s[e - at] else NUL;
      e := e + 1;
    }
    ghost var k := e - at;
    assert k < |s| ==> IsSep(s[k]) by { assert line[e] == if k < |s| then s[k] else NUL; }
    WordIs(s, k, line, at);
    WordCut(line, at, s, k);
    hide Word, CStringAt, Holds, IsSep;
    if buf[e] != NUL {
      buf[e] := NUL;
      e := e + 1;
    }
  }

  lemma OntoTwice(got: string, used: nat, more: string, width: nat, r: Option<Token>)
    ensures Onto("", 0, r) == r
    ensures Onto(got, used, Onto(more, width, r)) == Onto(got + more, used + width, r)
  {
    if r.Some? {
      assert "" + r.value.text == r.value.text;
      assert got + (more + r.value.text) == got + more + r.value.text;
    }
  }

  lemma QuotedEnd(rest: string)
    ensures rest == "" ==> Quoted(rest).None?
    ensures rest != "" && rest[0] == '\'' && (|rest| == 1 || rest[1] != '\'') ==> Quoted(rest) == Some(Token("", 1))
  {
  }

  lemma NextOfQuoted(s: string, r: Option<Token>)
    requires s != "" && s[0] == '\'' && r == Quoted(s[1..])
    ensures NextToken(s) == Onto("", 1, r)
  {
    if r.Some? { assert "" + r.value.text == r.value.text; }
  }

  /** What stands at position t of a buffer that holds rest there. */
  lemma CharsAt(buf: seq<char>, t: nat, rest: string)
    requires Holds(buf, t, rest)
    ensures buf[t] == if rest == "" then NUL else rest[0]
    ensures rest != "" ==> buf[t + 1] == if |rest| == 1 then NUL else rest[1]
    ensures forall k :: 0 <= k <= |rest| ==> Holds(buf, t + k, rest[k..])
  {
    var part := buf[t..t + |rest|];
    if rest != "" { assert part[0] == buf[t]; }
    if |rest| > 1 { assert part[1] == buf[t + 1]; }
    forall k | 0 <= k <= |rest| ensures Holds(buf, t + k, rest[k..]) {
      assert part[k..] == buf[t + k..t + |rest|];
      assert NUL !in rest[k..];
    }
  }

  /** Half way through a quoted token: got is written from at up to w, and what is
      unread still stands from t on. */
  ghost predicate Scanning(buf: seq<char>, at: nat, w: nat, t: nat, s: string, got: string) {
    && at < t <= at + |s| && at <= w < t && w == at + |got| && t <= |buf|
    && buf[at..w] == got && NUL !in got
    && Holds(buf, t, s[t - at..])
    && Quoted(s[1..]) == Onto(got, t - at - 1, Quoted(s[t - at..]))
  }

  lemma ScanStarts(buf: seq<char>, at: nat, s: string)
    requires Holds(buf, at, s) && s != ""
    ensures Scanning(buf, at, at, at + 1, s, "")
  {
    CharsAt(buf, at, s);
    OntoTwice("", 0, "", 0, Quoted(s[1..]));
  }

  lemma Unspoiled(was: seq<char>, now: seq<char>, at: nat, w: nat, e: nat, s: string, got: string)
    requires at <= w < e - 1 && e <= at + |s| && w == at + |got| && e <= |was|
    requires was[at..w] == got && NUL !in got && Holds(was, e - 1, s[e - 1 - at..])
    requires now == was[w := NUL]
    ensures CStringAt(now, at, got + "") && Holds(now, e, s[e - at..])
  {
    CharsAt(was, e - 1, s[e - 1 - at..]);
    assert s[e - 1 - at..][1..] == s[e - at..];
    assert got + "" == got && now[at..w] == was[at..w];
    assert now[e..at + |s|] == was[e..at + |s|];
  }

  /** *s = *t for s before t: appends to what is collected, spoils nothing unread. */
  method CopyDown(buf: array<char>, w: nat, t: nat, ghost got: string, ghost at: nat, ghost rest: string)
    requires at <= w < t && rest != "" && Holds(buf[..], t, rest)
    requires w == at + |got| && buf[at..w] == got && NUL !in got
    modifies buf
    ensures buf[at..w + 1] == got + [rest[0]] && NUL !in got + [rest[0]]
    ensures Holds(buf[..], t + 1, rest[1..])
    ensures buf[..at] == old(buf[..at])
  {
    CharsAt(buf[..], t, rest);
    ghost var line := buf[..];
    assert Holds(line, t + 1, rest[1..]);
    buf[w] := buf[t];
    assert buf[at..w + 1] == got + [rest[0]];
    assert buf[t + 1..t + |rest|] == line[t + 1..t + |rest|];
    assert rest[0] in rest;
  }

  /** One turn of the loop: a doubled quote counts as one. */
  method MoveDown(buf: array<char>, at: nat, w: nat, t: nat, ghost s: string, ghost got: string)
    returns (w': nat, t': nat, ghost got': string)
    requires Scanning(buf[..], at, w, t, s, got)
    requires buf[t] != NUL && !(buf[t] == '\'' && buf[t + 1] != '\'')
    requires t + 1 < buf.Length
    modifies buf
    ensures Scanning(buf[..], at, w', t', s, got') && t < t'
    ensures buf[..at] == old(buf[..at])
  {
    hide Quoted, Onto;
    ghost var rest := s[t - at..];
    assert Holds(buf[..], t, rest);
    CharsAt(buf[..], t, rest);
    var from := if buf[t] == '\'' then t + 1 else t;
    ghost var left := rest[from - t..];
    QuotedOn(rest, if rest[0] == '\'' then 2 else 1);
    CopyDown(buf, w, from, got, at, left);
    w', t', got' := w + 1, from + 1, got + [left[0]];
    OntoTwice(got, t - at - 1, [rest[0]], t' - t, Quoted(rest[t' - t..]));
    assert left[1..] == rest[t' - t..] == s[t' - at..];
    hide Holds, CStringAt;
  }

  /** unquotestr on a quoted token: two indices, the writing one behind the reading
      one, so what has not been read is still there. */
  method UnquoteInPlace(buf: array<char>, at: nat, ghost s: string) returns (ok: bool, e: nat)
    requires Holds(buf[..], at, s) && s != "" && s[0] == '\''
    modifies buf
    ensures ok <==> NextToken(s).Some?
    ensures ok ==> at < e <= at + |s| && e == at + NextToken(s).value.used
    ensures ok ==> at + |NextToken(s).value.text| < e && CStringAt(buf[..], at, NextToken(s).value.text)
    ensures ok ==> Holds(buf[..], e, s[e - at..])
    ensures buf[..at] == old(buf[..at])
  {
    hide Quoted, NextToken;
    var w, t := at, at + 1;
    ghost var got: string := "";
    ScanStarts(buf[..], at, s);
    CharsAt(buf[..], t, s[t - at..]);
    while buf[t] != NUL && !(buf[t] == '\'' && buf[t + 1] != '\'')
      invariant Scanning(buf[..], at, w, t, s, got)
      invariant buf[t] != NUL ==> t + 1 < buf.Length
      invariant buf[..at] == old(buf[..at])
      decreases at + |s| - t
    {
      w, t, got := MoveDown(buf, at, w, t, s, got);
      CharsAt(buf[..], t, s[t - at..]);
    }
    ghost var rest := s[t - at..];
    CharsAt(buf[..], t, rest);
    ghost var line := buf[..];
    buf[w] := NUL;
    QuotedEnd(rest);
    NextOfQuoted(s, Quoted(s[1..]));
    if buf[t] != '\'' { return false, 0; }
    e := t + 1;
    ok := true;
    Unspoiled(line, buf[..], at, w, e, s, got);
  }

  // ---- tokenize --------------------------------------------------------------------

  /** unquotestr: the token at position at, cut out of the buffer, and where to go on. */
  method UnquoteStr(buf: array<char>, at: nat, ghost s: string) returns (ok: bool, e: nat)
    requires Holds(buf[..], at, s) && s != ""
    modifies buf
    ensures ok <==> NextToken(s).Some?
    ensures ok ==> at <= e <= at + |s| && e == at + NextToken(s).value.used
    ensures ok ==> CStringAt(buf[..], at, NextToken(s).value.text)
    ensures ok ==> at + |NextToken(s).value.text| < e || e == at + |s|
    ensures ok ==> Holds(buf[..], e, s[e - at..])
    ensures buf[..at] == old(buf[..at])
  {
    CharsAt(buf[..], at, s);
    if buf[at] != '\'' {
      e := CutWord(buf, at, s);
      ok := true;
    } else {
      ok, e := UnquoteInPlace(buf, at, s);
    }
  }

  /** Skip separators from position at on. */
  method SkipInPlace(buf: array<char>, at: nat, ghost s: string) returns (p: nat)
    requires Holds(buf[..], at, s)
    ensures at <= p <= at + |s| && Holds(buf[..], p, SkipSeps(s)) && p == at + |s| - |SkipSeps(s)|
  {
    p := at;
    assert s[0..] == s;
    while buf[p] == ' ' || buf[p] == '\t' || buf[p] == '\n'
      invariant at <= p <= at + |s| && Holds(buf[..], p, s[p - at..])
      invariant SkipSeps(s[p - at..]) == SkipSeps(s)
      decreases at + |s| - p
    {
      CharsAt(buf[..], p, s[p - at..]);
      assert s[p - at..][1..] == s[p + 1 - at..];
      p := p + 1;
    }
    CharsAt(buf[..], p, s[p - at..]);
  }

  /** Tokens done so far, then the tokens of what is left. */
  function After(done: seq<string>, r: Option<seq<string>>): Option<seq<string>> {
    match r
    case None => None
    case Some(ts) => Some(done + ts)
  }

  lemma TokenDone(done: seq<string>, s: string, limit: nat)
    requires s != "" && !IsSep(s[0]) && limit > 0
    ensures NextToken(s).None? ==> After(done, Tokens(s, limit)).None?
    ensures NextToken(s).Some? ==> var t := NextToken(s).value;
      After(done, Tokens(s, limit)) == After(done + [t.text], Tokens(SkipSeps(s[t.used..]), limit - 1))
  {
    if NextToken(s).Some? {
      var t := NextToken(s).value;
      var r := Tokens(SkipSeps(s[t.used..]), limit - 1);
      if r.Some? { assert done + ([t.text] + r.value) == done + [t.text] + r.value; }
    }
  }

  /** The tokens cut out so far stand in the buffer, and all of them end before p
      unless nothing is left to read. */
  ghost predicate Stand(buf: seq<char>, toks: seq<nat>, done: seq<string>, p: nat, s: string) {
    && |toks| == |done|
    && forall i :: 0 <= i < |done| ==>
         CStringAt(buf, toks[i], done[i]) && (s != "" ==> toks[i] + |done[i]| < p)
  }

  lemma SliceKept(was: seq<char>, now: seq<char>, p: nat, a: nat, b: nat)
    requires p <= |was| && p <= |now| && was[..p] == now[..p] && a <= b < p
    ensures now[a..b] == was[a..b] && now[b] == was[b]
  {
    assert forall i :: 0 <= i < p ==> was[i] == was[..p][i] && now[i] == now[..p][i];
  }

  /** Writing from position p on leaves the tokens before it alone. */
  lemma StandKept(was: seq<char>, now: seq<char>, toks: seq<nat>, done: seq<string>, p: nat, s: string)
    requires Stand(was, toks, done, p, s) && s != "" && p <= |was| == |now| && was[..p] == now[..p]
    ensures forall i :: 0 <= i < |done| ==> CStringAt(now, toks[i], done[i]) && toks[i] + |done[i]| < p
  {
    forall i | 0 <= i < |done| ensures CStringAt(now, toks[i], done[i]) {
      assert CStringAt(was, toks[i], done[i]);
      SliceKept(was, now, p, toks[i], toks[i] + |done[i]|);
    }
  }

  /** Between two tokens: done is cut out, s still stands at p, and the tokens of
      the whole text are done followed by those of s. */
  ghost predicate Cutting(buf: seq<char>, p: nat, s: string, toks: seq<nat>, done: seq<string>, text: string, n: nat) {
    && Holds(buf, p, s) && (s == "" || !IsSep(s[0])) && (text == "" || !IsSep(text[0]))
    && |done| <= n && Stand(buf, toks, done, p, s)
    && Tokens(text, n) == After(done, Tokens(s, n - |done|))
  }

  lemma CuttingStarts(buf: seq<char>, text: string, n: nat)
    requires Holds(buf, 0, text) && (text == "" || !IsSep(text[0]))
    ensures Cutting(buf, 0, text, [], [], text, n)
  {
    var r := Tokens(text, n);
    if r.Some? { assert [] + r.value == r.value; }
  }

  lemma CuttingEnds(buf: seq<char>, p: nat, s: string, toks: seq<nat>, done: seq<string>, text: string, n: nat)
    requires Cutting(buf, p, s, toks, done, text, n)
    ensures p < |buf| && (buf[p] == NUL <==> s == "") && |toks| == |done|
    ensures s == "" ==> Tokens(text, n) == Some(done)
    ensures forall i :: 0 <= i < |toks| ==> CStringAt(buf, toks[i], done[i])
  {
    CharsAt(buf, p, s);
    assert done + [] == done;
  }

  lemma NoRoomLeft(done: seq<string>, s: string)
    requires s != "" && !IsSep(s[0])
    ensures After(done, Tokens(s, 0)).None?
  {
  }

  /** Cut the next token out and move on to the one after it. */
  method TakeToken(buf: array<char>, p: nat, ghost s: string, toks: seq<nat>, ghost done: seq<string>,
                   ghost text: string, n: nat)
    returns (good: bool, next: nat, ghost s': string, ghost done': seq<string>)
    requires Cutting(buf[..], p, s, toks, done, text, n) && s != ""
    modifies buf
    ensures good ==> Cutting(buf[..], next, s', toks + [p], done', text, n) && |s'| < |s|
    ensures !good ==> Tokens(text, n).None?
  {
    hide Tokens, NextToken, SkipSeps;
    next, s', done' := 0, s, done;
    if |toks| >= n {
      NoRoomLeft(done, s);
      return false, next, s', done';
    }
    ghost var was := buf[..];
    TokenDone(done, s, n - |done|);
    var e;
    good, e := UnquoteStr(buf, p, s);
    StandKept(was, buf[..], toks, done, p, s);
    if good {
      ghost var t := NextToken(s).value;
      next := SkipInPlace(buf, e, s[e - p..]);
      s', done' := SkipSeps(s[t.used..]), done + [t.text];
    }
  }

  /** The line without its leading separators, packed with its NUL, and the room
      for tokens: one more than the separators counted. */
  method PackedCopy(line: string) returns (buf: array<char>, n: nat)
    requires NUL !in line
    ensures fresh(buf) && Holds(buf[..], 0, SkipSeps(line)) && n == CountSeps(SkipSeps(line)) + 1
  {
    var k := 0;
    assert line[0..] == line;
    while k < |line| && IsSep(line[k])
      invariant 0 <= k <= |line| && SkipSeps(line[k..]) == SkipSeps(line)
    {
      assert line[k..][1..] == line[k + 1..];
      k := k + 1;
    }
    var s := line[k..];
    n := 1;
    var i := 0;
    assert s[0..] == s;
    while i < |s|
      invariant 0 <= i <= |s| && n + CountSeps(s[i..]) == CountSeps(s) + 1
    {
      if IsSep(s[i]) { n := n + 1; }
      assert s[i..][1..] == s[i + 1..];
      i := i + 1;
    }
    buf := new char[|s| + 1](i => if 0 <= i < |s| then s[i] else NUL);
    assert buf[0..|s|] == s;
  }

  /** The number tokenize returns: it does not tell EIO from a count. */
  function Returned(r: Option<seq<string>>): nat {
    match r
    case None => EIO
    case Some(toks) => |toks|
  }

  /** The code for a line that fails is also the count of five tokens, and no other count:
      the number alone tells the two apart for every line but these. */
  lemma EioIsFiveTokens(line: string)
    ensures Returned(Tokenize(line)) == EIO <==>
      Tokenize(line) == None || exists a, b, c, d, e :: Tokenize(line) == Some([a, b, c, d, e])
    ensures Tokenize("'") == None && Tokenize("a b c d e") == Some(["a", "b", "c", "d", "e"])
  {
    FiveAndNone();
    hide Tokenize;
    match Tokenize(line)
    case None =>
    case Some(ts) =>
      if |ts| == 5 { assert ts == [ts[0], ts[1], ts[2], ts[3], ts[4]]; }
  }

  /** tokenize: a packed copy of the line, cut up in place; toks are the starts of
      the tokens in it. It returns their number, or EIO exactly when the line has no
      tokens form; ok says whether the tokens are handed out. */
  method TokenizeLine(line: string) returns (ret: nat, ok: bool, toks: seq<nat>, buf: array<char>)
    requires NUL !in line
    ensures ok <==> Tokenize(line).Some?
    ensures ret == Returned(Tokenize(line)) && (ok ==> ret == |toks|)
    ensures ok ==> |toks| == |Tokenize(line).value|
    ensures ok ==> forall i :: 0 <= i < |toks| ==> CStringAt(buf[..], toks[i], Tokenize(line).value[i])
  {
    hide Tokens, NextToken, SkipSeps, Cutting, CStringAt, Holds;
    var n;
    buf, n := PackedCopy(line);
    ghost var text := SkipSeps(line);
    toks := [];
    ghost var done: seq<string> := [];
    var p := 0;
    ghost var s := text;
    CuttingStarts(buf[..], text, n);
    CuttingEnds(buf[..], p, s, toks, done, text, n);
    while buf[p] != NUL
      invariant 0 <= p < buf.Length && Cutting(buf[..], p, s, toks, done, text, n)
      invariant (buf[p] == NUL <==> s == "") && |toks| == |done|
      decreases |s|
    {
      var good, next;
      good, next, s, done := TakeToken(buf, p, s, toks, done, text, n);
      if !good { return EIO, false, [], buf; }
      toks := toks + [p];
      p := next;
      CuttingEnds(buf[..], p, s, toks, done, text, n);
    }
    CuttingEnds(buf[..], p, s, toks, done, text, n);
    ret, ok := |toks|, true;
  }
}
