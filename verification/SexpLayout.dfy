/** S-expression texts as anybody may write them: any white space between the elements, and
    a backslash before any character. The parser reads every one of them. */
module SexpLayout {
  import opened SexpSpec
  import opened Basics

  // ---- texts -----------------------------------------------------------------------

  /** A character of an atom, with a backslash in front of it or without. */
  datatype Char = Char(c: char, escaped: bool)

  /** An element with the white space in front of it; a list also has the white space in
      front of its closing parenthesis. */
  datatype Piece =
    | Word(pad: string, chars: seq<Char>)
    | Group(pad: string, pieces: seq<Piece>, last: string)

  function SpellChar(ch: Char): string {
    if ch.escaped then ['\\', ch.c] else [ch.c]
  }

  function Spell(chars: seq<Char>): string {
    if chars == [] then "" else SpellChar(chars[0]) + Spell(chars[1..])
  }

  function Render(ps: seq<Piece>): string
    decreases ps
  {
    if ps == [] then ""
    else match ps[0]
      case Word(pad, chars) => pad + (Spell(chars) + Render(ps[1..]))
      case Group(pad, inner, last) => pad + ("(" + (Render(inner) + (last + (")" + Render(ps[1..])))))
  }

  function Letters(chars: seq<Char>): string {
    seq(|chars|, i requires 0 <= i < |chars| => chars[i].c)
  }

  /** What the text stands for. */
  function Meaning(ps: seq<Piece>): seq<Sexp>
    decreases ps
  {
    if ps == [] then []
    else
      var rest := Meaning(ps[1..]);
      match ps[0]
      case Word(_, chars) => [Atom(Letters(chars))] + rest
      case Group(_, inner, _) => [List(Meaning(inner))] + rest
  }

  predicate Blank(pad: string) {
    forall i :: 0 <= i < |pad| ==> pad[i] in [' ', '\t', '\n', '\U{000B}', '\U{000C}', '\r']
  }

  /** Without a backslash a character is neither a parenthesis nor white space nor a backslash. */
  predicate Legible(chars: seq<Char>) {
    chars != [] && forall i :: 0 <= i < |chars| ==>
      chars[i].c != '\0' &&
      (chars[i].escaped || chars[i].c !in ['(', ')', '\\', ' ', '\t', '\n', '\U{000B}', '\U{000C}', '\r'])
  }

  /** A text: between two atoms there is some white space. */
  predicate WellSpelled(ps: seq<Piece>, afterAtom: bool)
    decreases ps
  {
    if ps == [] then true
    else match ps[0]
      case Word(pad, chars) => Blank(pad) && (afterAtom ==> pad != "") && Legible(chars) && WellSpelled(ps[1..], true)
      case Group(pad, inner, last) =>
        Blank(pad) && WellSpelled(inner, false) && Blank(last) && WellSpelled(ps[1..], false)
  }

  // ---- reading ---------------------------------------------------------------------

  /** A pending atom is attached as soon as a delimiter shows up. */
  function Settle(st: State): State
    requires st.Valid()
  {
    if st.mode == InAtom then CompleteAtom(st) else st
  }

  /** The parser is between elements, or has just read an atom. */
  predicate AtBoundary(st: State, afterAtom: bool) {
    && st.Valid()
    && |st.levels| >= 2
    && (if afterAtom then st.mode == InAtom && !st.Exceeds(|st.atom| + 1) else st.mode == Outside && st.atom == "")
  }

  lemma SettleAtDelimiter(st: State, afterAtom: bool, c: char, rest: string)
    requires AtBoundary(st, afterAtom) && IsDelimiter(c)
    ensures Parse(st, [c] + rest) == Parse(Settle(st), [c] + rest)
  {
    assert ([c] + rest)[0] == c;
  }

  function AfterStep(r: StepResult, rest: string): Result
    requires r.Next? ==> r.st.Valid()
  {
    match r
    case Next(s, _) => Parse(s, rest)
    case Finished(elems) => Done(elems, rest)
    case Failed => Error
  }

  /** Reading one consumed character. */
  lemma ParseOne(st: State, c: char, rest: string)
    requires st.Valid() && c != '\0' && !Stalls(st, c)
    ensures Parse(st, [c] + rest) == AfterStep(Step(st, c), rest)
  {
    assert ([c] + rest)[0] == c && ([c] + rest)[1..] == rest;
  }

  lemma {:induction false} SkipBlanks(st: State, pad: string, text: string)
    requires st.Valid() && st.mode == Outside && Blank(pad)
    ensures Parse(st, pad + text) == Parse(st, text)
  {
    if pad == "" {
      assert pad + text == text;
    } else {
      assert pad + text == [pad[0]] + (pad[1..] + text);
      assert IsSpace(pad[0]);
      ParseOne(st, pad[0], pad[1..] + text);
      SkipBlanks(st, pad[1..], text);
    }
  }

  /** White space, or the delimiter that comes, ends a pending atom and is passed over. */
  lemma ReachNext(st: State, afterAtom: bool, pad: string, text: string)
    requires AtBoundary(st, afterAtom) && Blank(pad)
    requires afterAtom && pad == "" ==> text != "" && (text[0] == '(' || text[0] == ')')
    ensures Parse(st, pad + text) == Parse(Settle(st), text)
  {
    if afterAtom {
      if pad == "" {
        assert pad + text == text && text == [text[0]] + text[1..];
        SettleAtDelimiter(st, afterAtom, text[0], text[1..]);
      } else {
        assert pad + text == [pad[0]] + (pad[1..] + text);
        assert IsSpace(pad[0]);
        SettleAtDelimiter(st, afterAtom, pad[0], pad[1..] + text);
        SkipBlanks(Settle(st), pad, text);
      }
    } else {
      SkipBlanks(st, pad, text);
    }
  }

  /** Inside an atom a character reads as itself, with a backslash or without. */
  lemma ReadChar(st: State, ch: Char, rest: string)
    requires st.Valid() && st.mode == InAtom && Legible([ch])
    ensures Parse(st, SpellChar(ch) + rest) ==
      if st.Exceeds(|st.atom| + 2) then Error else Parse(st.(atom := st.atom + [ch.c]), rest)
  {
    assert [ch][0] == ch;
    if ch.escaped {
      assert SpellChar(ch) + rest == ['\\'] + ([ch.c] + rest);
      ParseOne(st, '\\', [ch.c] + rest);
      ParseOne(st.(mode := InEscape), ch.c, rest);
    } else {
      ParseOne(st, ch.c, rest);
    }
  }

  lemma {:induction false} ReadChars(st: State, chars: seq<Char>, rest: string)
    requires st.Valid() && st.mode == InAtom && (chars == [] || Legible(chars))
    requires chars == [] ==> !st.Exceeds(|st.atom| + 1)
    ensures Parse(st, Spell(chars) + rest) ==
      if st.Exceeds(|st.atom| + |chars| + 1) then Error else Parse(st.(atom := st.atom + Letters(chars)), rest)
    decreases |chars|
  {
    hide Parse, SpellChar;
    if chars == [] {
      assert Spell(chars) + rest == rest;
      assert st.atom + Letters(chars) == st.atom;
    } else {
      var tail := Spell(chars[1..]) + rest;
      assert Spell(chars) + rest == SpellChar(chars[0]) + tail;
      ReadChar(st, chars[0], tail);
      if !st.Exceeds(|st.atom| + 2) {
        var added := st.(atom := st.atom + [chars[0].c]);
        ReadChars(added, chars[1..], rest);
        assert added.atom + Letters(chars[1..]) == st.atom + Letters(chars);
      }
    }
  }

  lemma SpellStarts(chars: seq<Char>)
    requires Legible(chars)
    ensures Spell(chars) != "" && Spell(chars)[0] != '\0' && !IsDelimiter(Spell(chars)[0])
  {
  }

  /** From between elements an atom starts and reads the same way. */
  lemma ReadWord(st: State, chars: seq<Char>, rest: string)
    requires AtBoundary(st, false) && Legible(chars)
    ensures Parse(st, Spell(chars) + rest) ==
      if st.Exceeds(|chars| + 1) then Error else Parse(st.(mode := InAtom, atom := Letters(chars)), rest)
  {
    var text := Spell(chars) + rest;
    SpellStarts(chars);
    assert text[0] == Spell(chars)[0];
    var inAtom := st.(mode := InAtom);
    assert Parse(st, text) == Parse(inAtom, text);
    hide Parse, Spell;
    ReadChars(inAtom, chars, rest);
    assert "" + Letters(chars) == Letters(chars);
  }

  function Opened(st: State): State {
    st.(levels := st.levels + [[]], bytes := st.bytes + NODE_SIZE)
  }

  lemma OpenList(st: State, rest: string)
    requires st.Valid() && st.mode == Outside
    ensures Parse(st, ['('] + rest) ==
      if st.Exceeds(0) || |st.levels| == STACK_SIZE then Error else Parse(Opened(st), rest)
  {
    ParseOne(st, '(', rest);
  }

  function WithElements(st: State, es: seq<Sexp>): State
    requires st.Valid()
  {
    var sp := |st.levels| - 1;
    st.(levels := st.levels[sp := st.levels[sp] + es], bytes := st.bytes + Cost(es))
  }

  lemma OneList(inner: seq<Sexp>)
    ensures Cost([List(inner)]) == NODE_SIZE + Cost(inner) && Depth([List(inner)]) == Depth(inner) + 1
  {
    assert [List(inner)][1..] == [];
  }

  /** What the closing parenthesis makes of the open list. */
  lemma CloseStep(st: State, inner: seq<Sexp>)
    requires st.Valid() && |st.levels| < STACK_SIZE && st.mode == Outside
    ensures var closed := st.Attach(List(inner)).(bytes := st.bytes + Cost([List(inner)]));
      Step(WithElements(Opened(st), inner), ')') ==
        if |st.levels| == 1 then Finished(closed.levels[0]) else Next(closed, true)
  {
    var filled := WithElements(Opened(st), inner);
    OneList(inner);
    assert [] + inner == inner;
    assert filled.levels[..|st.levels|] == st.levels && filled.levels[|st.levels|] == inner;
  }

  /** The closing parenthesis attaches the finished list one level up. */
  lemma CloseList(st: State, inner: seq<Sexp>, rest: string)
    requires st.Valid() && |st.levels| < STACK_SIZE && st.mode == Outside
    ensures var closed := st.Attach(List(inner)).(bytes := st.bytes + Cost([List(inner)]));
      Parse(WithElements(Opened(st), inner), [')'] + rest) ==
        if |st.levels| == 1 then Done(closed.levels[0], rest) else Parse(closed, rest)
  {
    CloseStep(st, inner);
    ParseOne(WithElements(Opened(st), inner), ')', rest);
    hide Parse, Step, Cost, WithElements;
  }

  /** The elements fit the stack and the byte limit. */
  predicate Fits(st: State, es: seq<Sexp>) {
    && |st.levels| + Depth(es) <= STACK_SIZE
    && (st.maxBytes != 0 ==> st.bytes + Cost(es) <= st.maxBytes)
  }

  /** Adding the first element, then the others, is adding them all. */
  lemma WithFirst(st: State, es: seq<Sexp>, st1: State)
    requires st.Valid() && es != []
    requires st1 == st.Attach(es[0]).(bytes := st.bytes + Cost([es[0]]))
    ensures WithElements(st1, es[1..]) == WithElements(st, es)
  {
    var sp := |st.levels| - 1;
    assert [es[0]][1..] == [];
    assert st.levels[sp] + [es[0]] + es[1..] == st.levels[sp] + es;
    assert WithElements(st1, es[1..]).levels == WithElements(st, es).levels;
  }

  lemma OneAtom(v: string)
    ensures Cost([Atom(v)]) == NODE_SIZE + |v| + 1 && Depth([Atom(v)]) == 0
  {
    assert [Atom(v)][1..] == [];
  }

  lemma FitsFirst(st: State, es: seq<Sexp>, inner: seq<Sexp>)
    requires st.Valid() && es != [] && es[0] == List(inner)
    ensures var closed := st.Attach(List(inner)).(bytes := st.bytes + Cost([List(inner)]));
      Fits(st, es) <==> !st.Exceeds(0) && |st.levels| < STACK_SIZE && Fits(Opened(st), inner) && Fits(closed, es[1..])
  {
    OneList(inner);
  }

  lemma GroupString(pad: string, a: string, last: string, b: string, close: string)
    ensures pad + ("(" + (a + (last + (")" + b)))) + close == pad + (['('] + (a + (last + (")" + (b + close)))))
  {
    Regroup(pad, "(" + (a + (last + (")" + b))), close);
    Regroup("(", a + (last + (")" + b)), close);
    Regroup(a, last + (")" + b), close);
    Regroup(last, ")" + b, close);
    Regroup(")", b, close);
  }

  lemma GroupText(ps: seq<Piece>, close: string)
    requires ps != [] && ps[0].Group?
    ensures var p := ps[0];
      Render(ps) + close ==
        p.pad + (['('] + (Render(p.pieces) + (p.last + (")" + (Render(ps[1..]) + close)))))
  {
    GroupString(ps[0].pad, Render(ps[0].pieces), ps[0].last, Render(ps[1..]), close);
  }

  lemma WordText(ps: seq<Piece>, close: string)
    requires ps != [] && ps[0].Word?
    ensures Render(ps) + close == ps[0].pad + (Spell(ps[0].chars) + (Render(ps[1..]) + close))
  {
    Regroup(ps[0].pad, Spell(ps[0].chars) + Render(ps[1..]), close);
    Regroup(Spell(ps[0].chars), Render(ps[1..]), close);
  }

  lemma FirstMeans(ps: seq<Piece>, afterAtom: bool)
    requires ps != [] && WellSpelled(ps, afterAtom)
    ensures Meaning(ps) != [] && Meaning(ps)[1..] == Meaning(ps[1..])
    ensures Meaning(ps)[0] == match ps[0]
      case Word(_, chars) => Atom(Letters(chars))
      case Group(_, inner, _) => List(Meaning(inner))
    ensures Blank(ps[0].pad)
    ensures match ps[0]
      case Word(pad, chars) => (afterAtom ==> pad != "") && Legible(chars) && WellSpelled(ps[1..], true)
      case Group(_, inner, last) => WellSpelled(inner, false) && Blank(last) && WellSpelled(ps[1..], false)
  {
  }

  /** What reading the pieces up to the closing parenthesis comes to. */
  function AfterPieces(st: State, ps: seq<Piece>, rest: string): Result
    requires st.Valid()
  {
    if Fits(Settle(st), Meaning(ps)) then Parse(WithElements(Settle(st), Meaning(ps)), ")" + rest) else Error
  }

  lemma ReadNoPieces(st: State, ps: seq<Piece>, afterAtom: bool, last: string, rest: string)
    requires AtBoundary(st, afterAtom) && Blank(last) && ps == []
    requires st.maxBytes != 0 ==> Settle(st).bytes <= st.maxBytes
    ensures Parse(st, Render(ps) + (last + (")" + rest))) == AfterPieces(st, ps, rest)
  {
    hide Parse, Blank;
    assert Render(ps) + (last + (")" + rest)) == last + (")" + rest);
    ReachNext(st, afterAtom, last, ")" + rest);
    var settled := Settle(st);
    var sp := |settled.levels| - 1;
    assert settled.levels[sp] + [] == settled.levels[sp];
    assert WithElements(settled, Meaning(ps)) == settled;
  }

  lemma {:induction false} ReadGroupFirst(st: State, ps: seq<Piece>, afterAtom: bool, last: string, rest: string)
    requires AtBoundary(st, afterAtom) && WellSpelled(ps, afterAtom) && Blank(last) && ps != [] && ps[0].Group?
    requires st.maxBytes != 0 ==> Settle(st).bytes <= st.maxBytes
    ensures Parse(st, Render(ps) + (last + (")" + rest))) == AfterPieces(st, ps, rest)
    decreases ps, 0
  {
    hide Parse, Blank, WellSpelled, Render, Meaning, Cost, Depth;
    var settled := Settle(st);
    var p, inner := ps[0], Meaning(ps[0].pieces);
    var close := last + (")" + rest);
    var tail := Render(ps[1..]) + close;
    var body := Render(p.pieces) + (p.last + (")" + tail));
    FirstMeans(ps, afterAtom);
    GroupText(ps, close);
    ReachNext(st, afterAtom, p.pad, ['('] + body);
    OpenList(settled, body);
    FitsFirst(settled, Meaning(ps), inner);
    if !settled.Exceeds(0) && |settled.levels| < STACK_SIZE {
      OneList(inner);
      ReadPieces(Opened(settled), p.pieces, false, p.last, tail);
      if Fits(Opened(settled), inner) {
        CloseList(settled, inner, tail);
        var closed := settled.Attach(List(inner)).(bytes := settled.bytes + Cost([List(inner)]));
        ReadPieces(closed, ps[1..], false, last, rest);
        WithFirst(settled, Meaning(ps), closed);
      }
    }
  }

  /** Up to the parenthesis that closes them, the pieces read as what they mean, exactly
      when that fits; otherwise the parser reports an error. */
  lemma {:induction false} ReadPieces(st: State, ps: seq<Piece>, afterAtom: bool, last: string, rest: string)
    requires AtBoundary(st, afterAtom) && WellSpelled(ps, afterAtom) && Blank(last)
    requires st.maxBytes != 0 ==> Settle(st).bytes <= st.maxBytes
    ensures Parse(st, Render(ps) + (last + (")" + rest))) == AfterPieces(st, ps, rest)
    decreases ps
  {
    hide *;
    if ps == [] {
      ReadNoPieces(st, ps, afterAtom, last, rest);
    } else if ps[0].Word? {
      ReadWordFirst(st, ps, afterAtom, last, rest);
    } else {
      ReadGroupFirst(st, ps, afterAtom, last, rest);
    }
  }

  lemma {:induction false} ReadWordFirst(st: State, ps: seq<Piece>, afterAtom: bool, last: string, rest: string)
    requires AtBoundary(st, afterAtom) && WellSpelled(ps, afterAtom) && Blank(last) && ps != [] && ps[0].Word?
    requires st.maxBytes != 0 ==> Settle(st).bytes <= st.maxBytes
    ensures Parse(st, Render(ps) + (last + (")" + rest))) == AfterPieces(st, ps, rest)
    decreases ps, 0
  {
    hide Parse, Spell, Legible, Blank, WellSpelled, Render, Meaning;
    var settled := Settle(st);
    var chars := ps[0].chars;
    var close := last + (")" + rest);
    var tail := Render(ps[1..]) + close;
    FirstMeans(ps, afterAtom);
    WordText(ps, close);
    ReachNext(st, afterAtom, ps[0].pad, Spell(chars) + tail);
    ReadWord(settled, chars, tail);
    OneAtom(Letters(chars));
    if !settled.Exceeds(|chars| + 1) {
      var st1 := settled.(mode := InAtom, atom := Letters(chars));
      ReadPieces(st1, ps[1..], true, last, rest);
      WithFirst(settled, Meaning(ps), Settle(st1));
    }
  }

  /** Any text of a list, behind any white space: from a fresh parser with any byte limit it
      reads as the list it stands for and is used up exactly, if and only if that nests at
      most 99 deep and costs no more than the limit. */
  lemma ParseSpelled(pad: string, ps: seq<Piece>, last: string, limit: nat, rest: string)
    requires Blank(pad) && WellSpelled(ps, false) && Blank(last)
    ensures Parse(START.(maxBytes := limit), pad + (['('] + (Render(ps) + (last + (")" + rest))))) ==
      if Depth([List(Meaning(ps))]) <= 99 && (limit == 0 || Cost([List(Meaning(ps))]) <= limit)
      then Done([List(Meaning(ps))], rest) else Error
  {
    hide Parse, Render, Meaning, Blank, WellSpelled;
    var st := START.(maxBytes := limit);
    var body := Render(ps) + (last + (")" + rest));
    SkipBlanks(st, pad, ['('] + body);
    OpenList(st, body);
    OneList(Meaning(ps));
    if !st.Exceeds(0) {
      ReadPieces(Opened(st), ps, false, last, rest);
      CloseList(st, Meaning(ps), rest);
    }
  }
}
