/** What the parser makes of the printed text, however it is cut into chunks. */
module SexpRoundTrip {
  import opened SexpLayout
  import opened SexpSpec
  import opened Basics

  // ---- chunks ----------------------------------------------------------------

  function Resume(r: Result, more: string): Result
    requires r.More? ==> r.st.Valid()
  {
    match r
    case More(st, rest) => if rest == "" then Parse(st, more) else More(st, rest + more)
    case Done(elems, rest) => Done(elems, rest + more)
    case Error => Error
  }

  /** Cutting the text anywhere, even inside an escape, changes nothing. */
  lemma {:induction false} ParseInTwo(st: State, a: string, b: string)
    requires st.Valid()
    ensures Parse(st, a + b) == Resume(Parse(st, a), b)
    decreases |a|, if a != "" && Stalls(st, a[0]) then 1 else 0
  {
    if a == "" {
      assert a + b == b;
    } else {
      assert (a + b)[0] == a[0];
      assert (a + b)[1..] == a[1..] + b;
      if a[0] != '\0' {
        match Step(st, a[0])
        case Next(s, consumed) => ParseInTwo(s, if consumed then a[1..] else a, b);
        case Finished(_) =>
        case Failed =>
      }
    }
  }

  function Concat(chunks: seq<string>): string {
    if chunks == [] then "" else chunks[0] + Concat(chunks[1..])
  }

  /** Feeding the chunks one call at a time, as long as more is wanted. */
  function ParseChunks(st: State, chunks: seq<string>): Result
    requires st.Valid()
    decreases |chunks|
  {
    if chunks == [] then More(st, "")
    else match Parse(st, chunks[0])
      case More(s, rest) =>
        if rest == "" then ParseChunks(s, chunks[1..]) else More(s, rest + Concat(chunks[1..]))
      case Done(elems, rest) => Done(elems, rest + Concat(chunks[1..]))
      case Error => Error
  }

  lemma {:induction false} ChunkingIsIrrelevant(st: State, chunks: seq<string>)
    requires st.Valid()
    ensures ParseChunks(st, chunks) == Parse(st, Concat(chunks))
    decreases |chunks|
  {
    if chunks != [] {
      ParseInTwo(st, chunks[0], Concat(chunks[1..]));
      var r := Parse(st, chunks[0]);
      if r.More? && r.rest == "" { ChunkingIsIrrelevant(r.st, chunks[1..]); }
    }
  }

  // ---- reading back what was printed -------------------------------------------

  function Marked(v: string): seq<Char> {
    seq(|v|, i requires 0 <= i < |v| => Char(v[i], NeedsEscape(v[i])))
  }

  /** The printed text, taken apart. */
  function Plain(es: seq<Sexp>, afterAtom: bool): seq<Piece>
    decreases es
  {
    if es == [] then []
    else match es[0]
      case Atom(v) => [Word(if afterAtom then " " else "", Marked(v))] + Plain(es[1..], true)
      case List(inner) => [Group("", Plain(inner, false), "")] + Plain(es[1..], false)
  }

  lemma {:induction false} MarkedIs(v: string)
    ensures Spell(Marked(v)) == Escape(v) && Letters(Marked(v)) == v
    ensures v != "" && '\0' !in v ==> Legible(Marked(v))
  {
    if v != "" {
      MarkedIs(v[1..]);
      assert Marked(v)[1..] == Marked(v[1..]);
    }
  }

  /** What is printed is a text of the elements. */
  lemma PieceFirst(p: Piece, qs: seq<Piece>, afterAtom: bool)
    ensures Render([p] + qs) == match p
      case Word(pad, chars) => pad + (Spell(chars) + Render(qs))
      case Group(pad, inner, last) => pad + ("(" + (Render(inner) + (last + (")" + Render(qs)))))
    ensures Meaning([p] + qs) ==
      [if p.Word? then Atom(Letters(p.chars)) else List(Meaning(p.pieces))] + Meaning(qs)
    ensures WellSpelled([p] + qs, afterAtom) <==> match p
      case Word(pad, chars) => Blank(pad) && (afterAtom ==> pad != "") && Legible(chars) && WellSpelled(qs, true)
      case Group(pad, inner, last) =>
        Blank(pad) && WellSpelled(inner, false) && Blank(last) && WellSpelled(qs, false)
  {
    assert ([p] + qs)[0] == p && ([p] + qs)[1..] == qs;
  }

  lemma PrintableParts(es: seq<Sexp>)
    requires Printable(es) && es != []
    ensures Printable(es[1..])
    ensures es[0].List? ==> Printable(es[0].elems)
    ensures es[0].Atom? ==> es[0].val != "" && '\0' !in es[0].val
  {
  }

  lemma NoneOrOneSpace()
    ensures Blank("") && Blank(" ")
  {
  }

  lemma NothingBefore(s: string)
    ensures "" + s == s
  {
  }

  lemma ParenString(a: string, b: string)
    ensures "(" + a + ")" + b == "" + ("(" + (a + ("" + (")" + b))))
  {
    Regroup("(" + a, ")", b);
    Regroup("(", a, ")" + b);
    NothingBefore(")" + b);
    NothingBefore("(" + (a + (")" + b)));
  }

  lemma PlainAtom(es: seq<Sexp>, v: string, afterAtom: bool)
    requires es != [] && es[0] == Atom(v) && v != "" && '\0' !in v
    requires Render(Plain(es[1..], true)) == Elements(es[1..], true)
    requires Meaning(Plain(es[1..], true)) == es[1..] && WellSpelled(Plain(es[1..], true), true)
    ensures Render(Plain(es, afterAtom)) == Elements(es, afterAtom)
    ensures Meaning(Plain(es, afterAtom)) == es && WellSpelled(Plain(es, afterAtom), afterAtom)
  {
    var pad := if afterAtom then " " else "";
    var p, qs := Word(pad, Marked(v)), Plain(es[1..], true);
    assert Plain(es, afterAtom) == [p] + qs;
    assert Elements(es, afterAtom) == pad + Escape(v) + Elements(es[1..], true);
    assert es == [Atom(v)] + es[1..];
    hide *;
    NoneOrOneSpace();
    MarkedIs(v);
    PieceFirst(p, qs, afterAtom);
    Regroup(pad, Escape(v), Elements(es[1..], true));
  }

  lemma PlainList(es: seq<Sexp>, inner: seq<Sexp>, afterAtom: bool)
    requires es != [] && es[0] == List(inner)
    requires Render(Plain(inner, false)) == Elements(inner, false)
    requires Meaning(Plain(inner, false)) == inner && WellSpelled(Plain(inner, false), false)
    requires Render(Plain(es[1..], false)) == Elements(es[1..], false)
    requires Meaning(Plain(es[1..], false)) == es[1..] && WellSpelled(Plain(es[1..], false), false)
    ensures Render(Plain(es, afterAtom)) == Elements(es, afterAtom)
    ensures Meaning(Plain(es, afterAtom)) == es && WellSpelled(Plain(es, afterAtom), afterAtom)
  {
    var p, qs := Group("", Plain(inner, false), ""), Plain(es[1..], false);
    assert Plain(es, afterAtom) == [p] + qs;
    assert Elements(es, afterAtom) == "(" + Elements(inner, false) + ")" + Elements(es[1..], false);
    assert es == [List(inner)] + es[1..];
    hide *;
    NoneOrOneSpace();
    PieceFirst(p, qs, afterAtom);
    ParenString(Elements(inner, false), Elements(es[1..], false));
  }

  lemma {:induction false} PlainIs(es: seq<Sexp>, afterAtom: bool)
    requires Printable(es)
    ensures Render(Plain(es, afterAtom)) == Elements(es, afterAtom)
    ensures Meaning(Plain(es, afterAtom)) == es && WellSpelled(Plain(es, afterAtom), afterAtom)
    decreases es
  {
    if es != [] {
      PrintableParts(es);
      hide *;
      match es[0]
      case Atom(v) =>
        PlainIs(es[1..], true);
        PlainAtom(es, v, afterAtom);
      case List(inner) =>
        PlainIs(inner, false);
        PlainIs(es[1..], false);
        PlainList(es, inner, afterAtom);
    }
  }

  /** The round trip. From a fresh parser with any byte limit, the text of a list
      reads back as that list and uses up exactly its own text, if and only if the
      list nests at most 99 deep and costs no more than the limit. */
  lemma ParsePrinted(elems: seq<Sexp>, limit: nat, rest: string)
    requires Printable(elems)
    ensures Parse(START.(maxBytes := limit), Text(elems) + rest) ==
      if Depth([List(elems)]) < STACK_SIZE && (limit == 0 || Cost([List(elems)]) <= limit)
      then Done([List(elems)], rest) else Error
  {
    PlainIs(elems, false);
    hide Parse, Elements, Printable, Plain;
    assert Text(elems) + rest == "" + (['('] + (Elements(elems, false) + ("" + (")" + rest))));
    ParseSpelled("", Plain(elems, false), "", limit, rest);
  }

  /** The same in chunks: any way of cutting the text into calls. */
  lemma ParsePrintedChunks(elems: seq<Sexp>, limit: nat, chunks: seq<string>)
    requires Printable(elems) && Concat(chunks) == Text(elems)
    ensures ParseChunks(START.(maxBytes := limit), chunks) ==
      if Depth([List(elems)]) < STACK_SIZE && (limit == 0 || Cost([List(elems)]) <= limit)
      then Done([List(elems)], "") else Error
  {
    ChunkingIsIrrelevant(START.(maxBytes := limit), chunks);
    assert Text(elems) + "" == Text(elems);
    ParsePrinted(elems, limit, "");
  }

  /** Different lists print differently: nothing is lost in the text. */
  lemma TextIsInjective(a: seq<Sexp>, b: seq<Sexp>)
    requires Printable(a) && Printable(b) && Text(a) == Text(b)
    requires Depth([List(a)]) < STACK_SIZE
    ensures a == b
  {
    ParsePrinted(a, 0, "");
    ParsePrinted(b, 0, "");
  }

  lemma {:induction false} EscapeIsNoShorter(v: string)
    ensures |Escape(v)| >= |v|
  {
    if v != "" { EscapeIsNoShorter(v[1..]); }
  }

  /** A backslash stands before the nine characters it is needed for and before no other. */
  lemma {:induction false} EscapesAre(v: string)
    ensures Escape(v) == v <==>
      forall i :: 0 <= i < |v| ==> v[i] !in ['(', ')', '\\', ' ', '\t', '\n', '\U{000B}', '\U{000C}', '\r']
    ensures |Escape(v)| <= 2 * |v|
  {
    if v != "" {
      EscapesAre(v[1..]);
      EscapeIsNoShorter(v[1..]);
      assert v == [v[0]] + v[1..];
      assert NeedsEscape(v[0]) <==> v[0] in ['(', ')', '\\', ' ', '\t', '\n', '\U{000B}', '\U{000C}', '\r'];
      if NeedsEscape(v[0]) {
        assert |Escape(v)| > |v|;
      } else {
        assert Escape(v) == [v[0]] + Escape(v[1..]);
        assert Escape(v)[1..] == Escape(v[1..]);
      }
    }
  }

  lemma CostSplit(a: seq<Sexp>, b: seq<Sexp>)
    ensures Cost(a + b) == Cost(a) + Cost(b)
    decreases |a|
  {
    if a == [] {
      assert a + b == b;
    } else {
      assert (a + b)[0] == a[0] && (a + b)[1..] == a[1..] + b;
      CostSplit(a[1..], b);
    }
  }

  /** What counts against a byte limit: 24 for each element, and an atom's text with its NUL. */
  lemma CostIs(a: seq<Sexp>, b: seq<Sexp>, v: string)
    ensures Cost(a + b) == Cost(a) + Cost(b) && Cost([]) == 0
    ensures Cost([Atom(v)]) == 24 + |v| + 1 && Cost([List(a)]) == 24 + Cost(a)
  {
    CostSplit(a, b);
    OneAtom(v);
    OneList(a);
  }

  lemma TextOfElements(es: seq<Sexp>, v: string, inner: seq<Sexp>)
    ensures Elements([], false) == "" && Elements([], true) == ""
    ensures Elements([Atom(v)] + es, false) == "" + Escape(v) + Elements(es, true)
    ensures Elements([Atom(v)] + es, true) == " " + Escape(v) + Elements(es, true)
    ensures Elements([List(inner)] + es, false) == "(" + Elements(inner, false) + ")" + Elements(es, false)
    ensures Elements([List(inner)] + es, true) == "(" + Elements(inner, false) + ")" + Elements(es, false)
  {
    hide Escape;
    assert ([Atom(v)] + es)[1..] == es && ([List(inner)] + es)[1..] == es;
  }

  /** A closing parenthesis that closes nothing is an error. */
  lemma CloseWithoutOpen(pad: string, limit: nat, rest: string)
    requires Blank(pad)
    ensures Parse(START.(maxBytes := limit), pad + ([')'] + rest)) == Error
  {
    SkipBlanks(START.(maxBytes := limit), pad, [')'] + rest);
    ParseOne(START.(maxBytes := limit), ')', rest);
  }

  /** A NUL stops the parser with the text up to it read, and is left over. */
  lemma StopsAtNul(st: State, a: string, b: string)
    requires st.Valid() && Parse(st, a).More? && Parse(st, a).rest == ""
    ensures Parse(st, a + (['\0'] + b)) == More(Parse(st, a).st, ['\0'] + b)
  {
    ParseInTwo(st, a, ['\0'] + b);
    assert (['\0'] + b)[0] == '\0';
  }

  // ---- several expressions on one stream ------------------------------------------

  function Texts(lists: seq<seq<Sexp>>): string {
    if lists == [] then "" else Text(lists[0]) + Texts(lists[1..])
  }

  /** What n successive reads of complete expressions return. */
  function ReadMany(st: State, text: string, n: nat): (r: seq<Result>)
    requires st.Valid()
    decreases n
  {
    if n == 0 then []
    else match Parse(st, text)
      case Done(elems, rest) => [Done(elems, rest)] + ReadMany(START, rest, n - 1)
      case other => [other]
  }

  /** Reading a stream of printed lists gives back exactly those lists, in order,
      each read stopping where the next text begins. */
  lemma {:induction false} ReadManyPrinted(lists: seq<seq<Sexp>>, tail: string, i: nat)
    requires forall l :: l in lists ==> Printable(l) && Depth([List(l)]) < STACK_SIZE
    requires i < |lists|
    ensures var r := ReadMany(START, Texts(lists) + tail, |lists|);
      |r| == |lists| && r[i] == Done([List(lists[i])], Texts(lists[i + 1..]) + tail)
  {
    hide Parse, Text, Printable, Depth;
    var rest := lists[1..];
    assert Texts(lists) + tail == Text(lists[0]) + (Texts(rest) + tail);
    ParsePrinted(lists[0], 0, Texts(rest) + tail);
    if i > 0 {
      ReadManyPrinted(rest, tail, i - 1);
      assert rest[i..] == lists[i + 1..];
    } else if rest != [] {
      ReadManyPrinted(rest, tail, 0);
    }
  }

  /** A byte limit is for the first expression: two lists come through one after the other if
      and only if the first keeps to the limit, whatever the second costs. */
  lemma LimitIsForFirst(a: seq<Sexp>, b: seq<Sexp>, limit: nat, tail: string)
    requires Printable(a) && Printable(b) && Depth([List(a)]) < STACK_SIZE && Depth([List(b)]) < STACK_SIZE
    ensures ReadMany(START.(maxBytes := limit), Text(a) + (Text(b) + tail), 2) ==
      if limit == 0 || Cost([List(a)]) <= limit
      then [Done([List(a)], Text(b) + tail), Done([List(b)], tail)] else [Error]
  {
    hide Parse, Text, Printable, Depth, Cost;
    ParsePrinted(a, limit, Text(b) + tail);
    ParsePrinted(b, 0, tail);
    assert START.(maxBytes := 0) == START;
    assert ReadMany(START, tail, 0) == [];
    assert ReadMany(START, Text(b) + tail, 1) == [Done([List(b)], tail)] + [];
  }
}
