/** The two stack-driven printers and the length estimate. */
module SexpPrinter {
  import opened SexpSpec

  // ---- the work that an explicit stack of siblings stands for ------------------

  /** What is still to be printed: the top of the stack first, and a closing
      parenthesis when a level runs out. */
  function ToPrint(stack: seq<seq<Sexp>>, afterAtom: bool): string {
    if stack == [] then ""
    else
      var n := |stack| - 1;
      Elements(stack[n], afterAtom) + (")" + ToPrint(stack[..n], false))
  }

  function Weight(es: seq<Sexp>): nat
    decreases es
  {
    if es == [] then 1
    else Weight(es[1..]) + 1 + match es[0] case Atom(_) => 0 case List(inner) => Weight(inner)
  }

  function StackWeight(stack: seq<seq<Sexp>>): nat {
    if stack == [] then 0 else Weight(stack[|stack| - 1]) + StackWeight(stack[..|stack| - 1])
  }

  /** Everything on the stack nests within what the stack has room for. */
  predicate StackFits(stack: seq<seq<Sexp>>) {
    stack == [] ||
    (|stack| + Depth(stack[|stack| - 1]) <= STACK_SIZE && StackFits(stack[..|stack| - 1]))
  }

  /** What sexp_strlen counts for the elements of a list. */
  function Estimate(es: seq<Sexp>): nat
    decreases es
  {
    if es == [] then 0
    else Estimate(es[1..]) + match es[0] case Atom(v) => |Escape(v)| + 1 case List(inner) => 2 + Estimate(inner)
  }

  function StackEstimate(stack: seq<seq<Sexp>>): nat {
    if stack == [] then 0 else Estimate(stack[|stack| - 1]) + StackEstimate(stack[..|stack| - 1])
  }

  lemma TurnOnEnd(stack: seq<seq<Sexp>>, afterAtom: bool)
    requires stack != [] && stack[|stack| - 1] == [] && |stack| <= STACK_SIZE
    ensures ToPrint(stack, afterAtom) == [')'] + ToPrint(stack[..|stack| - 1], false)
    ensures StackWeight(stack[..|stack| - 1]) < StackWeight(stack)
    ensures StackFits(stack[..|stack| - 1]) == StackFits(stack)
    ensures StackEstimate(stack) == StackEstimate(stack[..|stack| - 1])
  {
    assert "" + (")" + ToPrint(stack[..|stack| - 1], false)) == [')'] + ToPrint(stack[..|stack| - 1], false);
  }

  /** The stack after taking the first sibling of its top. */
  function Advanced(stack: seq<seq<Sexp>>): (r: seq<seq<Sexp>>)
    requires stack != [] && stack[|stack| - 1] != []
    ensures |r| == |stack|
    ensures r[..|r| - 1] == stack[..|stack| - 1] && r[|r| - 1] == stack[|stack| - 1][1..]
  {
    stack[..|stack| - 1] + [stack[|stack| - 1][1..]]
  }

  lemma AtomText(stack: seq<seq<Sexp>>, v: string, afterAtom: bool)
    requires stack != [] && stack[|stack| - 1] != [] && stack[|stack| - 1][0] == Atom(v)
    ensures ToPrint(stack, afterAtom) == (if afterAtom then " " else "") + (Escape(v) + ToPrint(Advanced(stack), true))
  {
    hide Escape;
    var close := ")" + ToPrint(stack[..|stack| - 1], false);
    var after := Elements(stack[|stack| - 1][1..], true);
    var space := if afterAtom then " " else "";
    assert (space + Escape(v) + after) + close == space + (Escape(v) + (after + close));
  }

  lemma TurnOnAtom(stack: seq<seq<Sexp>>, v: string, afterAtom: bool)
    requires stack != [] && stack[|stack| - 1] != [] && stack[|stack| - 1][0] == Atom(v)
    ensures ToPrint(stack, afterAtom) == (if afterAtom then " " else "") + (Escape(v) + ToPrint(Advanced(stack), true))
    ensures StackWeight(Advanced(stack)) < StackWeight(stack)
    ensures StackFits(Advanced(stack)) == StackFits(stack)
    ensures StackEstimate(stack) == |Escape(v)| + 1 + StackEstimate(Advanced(stack))
  {
    AtomText(stack, v, afterAtom);
    hide ToPrint, Escape;
  }

  lemma ListText(stack: seq<seq<Sexp>>, inner: seq<Sexp>, afterAtom: bool)
    requires stack != [] && stack[|stack| - 1] != [] && stack[|stack| - 1][0] == List(inner)
    ensures ToPrint(stack, afterAtom) == ['('] + ToPrint(Advanced(stack) + [inner], false)
  {
    assert (Advanced(stack) + [inner])[..|stack|] == Advanced(stack);
    var close := ")" + ToPrint(stack[..|stack| - 1], false);
    var after := Elements(stack[|stack| - 1][1..], false);
    var inside := Elements(inner, false);
    assert ("(" + inside + ")" + after) + close == ['('] + (inside + (")" + (after + close)));
  }

  lemma TurnOnList(stack: seq<seq<Sexp>>, inner: seq<Sexp>, afterAtom: bool)
    requires stack != [] && stack[|stack| - 1] != [] && stack[|stack| - 1][0] == List(inner)
    ensures ToPrint(stack, afterAtom) == ['('] + ToPrint(Advanced(stack) + [inner], false)
    ensures StackWeight(Advanced(stack) + [inner]) < StackWeight(stack)
    ensures StackFits(stack) == StackFits(Advanced(stack) + [inner])
    ensures |stack| >= STACK_SIZE ==> !StackFits(stack)
    ensures StackEstimate(stack) == 2 + StackEstimate(Advanced(stack) + [inner])
  {
    ListText(stack, inner, afterAtom);
    hide ToPrint;
    assert (Advanced(stack) + [inner])[..|stack|] == Advanced(stack);
  }

  lemma EmptyStack(afterAtom: bool)
    ensures ToPrint([], afterAtom) == "" && StackFits([]) && StackEstimate([]) == 0
  {
  }

  lemma SingleStack(elems: seq<Sexp>)
    ensures "(" + ToPrint([elems], false) == Text(elems)
    ensures StackFits([elems]) <==> Depth([List(elems)]) <= STACK_SIZE
    ensures StackEstimate([elems]) == Estimate(elems)
  {
    assert [elems][..0] == [];
    assert [List(elems)][1..] == [];
    assert ")" + "" == ")";
  }

  // ---- printing to a file ------------------------------------------------------

  method EscapeOnto(prefix: string, v: string) returns (out: string)
    ensures out == prefix + Escape(v)
  {
    out := prefix;
    var k := 0;
    while k < |v|
      invariant 0 <= k <= |v|
      invariant out + Escape(v[k..]) == prefix + Escape(v)
    {
      if NeedsEscape(v[k]) { out := out + "\\"; }
      out := out + [v[k]];
      k := k + 1;
    }
  }

  /** sexp_print: not ok where the source aborts on a stack overflow. */
  method SexpPrint(elems: seq<Sexp>) returns (ok: bool, out: string)
    ensures ok <==> Depth([List(elems)]) <= STACK_SIZE
    ensures ok ==> out == Text(elems)
  {
    hide ToPrint, StackFits, StackWeight, Escape, Depth, Text;
    SingleStack(elems);
    var stack, lastAtom := [elems], false;
    out := "(";
    while stack != []
      invariant |stack| <= STACK_SIZE
      invariant out + ToPrint(stack, lastAtom) == Text(elems)
      invariant StackFits(stack) <==> Depth([List(elems)]) <= STACK_SIZE
      decreases StackWeight(stack)
    {
      var top := stack[|stack| - 1];
      if top == [] {
        TurnOnEnd(stack, lastAtom);
        stack := stack[..|stack| - 1];
        out, lastAtom := out + ")", false;
      } else {
        match top[0] {
          case List(inner) =>
            TurnOnList(stack, inner, lastAtom);
            if |stack| >= STACK_SIZE { return false, ""; }
            stack := Advanced(stack) + [inner];
            out, lastAtom := out + "(", false;
          case Atom(v) =>
            TurnOnAtom(stack, v, lastAtom);
            stack := Advanced(stack);
            if lastAtom { out := out + " "; }
            out := EscapeOnto(out, v);
            lastAtom := true;
        }
      }
    }
    EmptyStack(lastAtom);
    ok := true;
  }

  // ---- the estimate --------------------------------------------------------------

  method EscapedLength(v: string) returns (len: nat)
    ensures len == |Escape(v)|
  {
    len := 0;
    var k := 0;
    while k < |v|
      invariant 0 <= k <= |v|
      invariant len + |Escape(v[k..])| == |Escape(v)|
    {
      if NeedsEscape(v[k]) { len := len + 1; }
      len := len + 1;
      k := k + 1;
    }
  }

  method SexpStrlen(elems: seq<Sexp>) returns (len: int)
    ensures len == if Depth([List(elems)]) <= STACK_SIZE then 2 + Estimate(elems) else -1
  {
    hide StackFits, StackWeight, Escape, Depth, StackEstimate, Estimate, ToPrint;
    SingleStack(elems);
    len := 2;
    var stack := [elems];
    while stack != []
      invariant |stack| <= STACK_SIZE
      invariant len + StackEstimate(stack) == 2 + Estimate(elems)
      invariant StackFits(stack) <==> Depth([List(elems)]) <= STACK_SIZE
      decreases StackWeight(stack)
    {
      var top := stack[|stack| - 1];
      if top == [] {
        TurnOnEnd(stack, false);
        stack := stack[..|stack| - 1];
      } else {
        match top[0] {
          case List(inner) =>
            TurnOnList(stack, inner, false);
            if |stack| >= STACK_SIZE { return -1; }
            len := len + 2;
            stack := Advanced(stack) + [inner];
          case Atom(v) =>
            TurnOnAtom(stack, v, false);
            stack := Advanced(stack);
            var shown := EscapedLength(v);
            len := len + shown + 1;
        }
      }
    }
    EmptyStack(false);
  }

  /** Atoms not directly followed by another atom: the ones after which the
      estimate counts a space that is not printed. */
  function Gaps(es: seq<Sexp>): nat
    decreases es
  {
    if es == [] then 0
    else Gaps(es[1..]) + match es[0]
      case Atom(_) => if |es| > 1 && es[1].Atom? then 0 else 1
      case List(inner) => Gaps(inner)
  }

  predicate HasAtom(es: seq<Sexp>)
    decreases es
  {
    es != [] && (HasAtom(es[1..]) || match es[0] case Atom(_) => true case List(inner) => HasAtom(inner))
  }

  lemma {:induction false} EstimateElements(es: seq<Sexp>, afterAtom: bool)
    ensures Estimate(es) + (if afterAtom && es != [] && es[0].Atom? then 1 else 0)
            == |Elements(es, afterAtom)| + Gaps(es)
    ensures Gaps(es) > 0 <==> HasAtom(es)
    decreases es
  {
    if es != [] {
      EstimateElements(es[1..], es[0].Atom?);
      match es[0]
      case Atom(v) =>
        if |es| > 1 { assert es[1..][0] == es[1]; }
      case List(inner) => EstimateElements(inner, false);
    }
  }

  /** The estimate is the text's length plus one for each atom that no atom
      follows: never too small for the text, and big enough for the text and its
      final NUL exactly when the list has an atom somewhere, as the empty list has not. */
  lemma EstimateIsEnough(elems: seq<Sexp>)
    ensures 2 + Estimate(elems) == |Text(elems)| + Gaps(elems)
    ensures |Text(elems)| + 1 <= 2 + Estimate(elems) <==> HasAtom(elems)
    ensures Text([]) == "()" && 2 + Estimate([]) == 2
  {
    EstimateElements(elems, false);
  }

  // ---- printing into a buffer -------------------------------------------------------

  /** The character before position p escapes the one at p. */
  function Escaped(text: string, p: nat): bool
    requires p <= |text|
  {
    p > 0 && text[p - 1] == '\\' && !Escaped(text, p - 1)
  }

  lemma EscapedNext(text: string, p: nat)
    requires p < |text|
    ensures Escaped(text, p + 1) <==> text[p] == '\\' && !Escaped(text, p)
  {
  }

  /** Right before p stands the space between two atoms, and the second one is not empty:
      this is where the printer does not look whether it has reached its bound. */
  predicate Skips(text: string, p: int) {
    1 <= p < |text| && text[p - 1] == ' ' && !Escaped(text, p - 1) && !IsDelimiter(text[p])
  }

  /** How much of the text is printed under the bound len (-1 for none). */
  function Extent(text: string, len: int): (n: nat)
    ensures n <= |text|
  {
    if 1 <= len <= |text| && !Skips(text, len) then len else |text|
  }

  /** More than the bound is printed exactly where it is not looked at; "(a b)" with the
      bound 3 is printed in full. */
  lemma BoundIsPassed(text: string, len: int)
    requires len >= 1
    ensures Extent(text, len) > len <==> Skips(text, len)
    ensures Text([Atom("a"), Atom("b")]) == "(a b)" && Extent("(a b)", 3) == 5
  {
    assert Escape("a") == "a" && Escape("b") == "b";
    assert [Atom("a"), Atom("b")][1..] == [Atom("b")];
    assert Elements([Atom("b")], true) == " b";
    assert Elements([Atom("a"), Atom("b")], false) == "a b";
    assert Skips("(a b)", 3);
  }

  /** At position p nothing has gone wrong yet: a bound that lies behind was skipped. */
  predicate Inside(text: string, len: int, p: nat) {
    p <= |text| && (1 <= len < p ==> Skips(text, len))
  }

  lemma InsideIsWithin(text: string, len: int, p: nat)
    requires Inside(text, len, p)
    ensures p <= Extent(text, len)
    ensures p == |text| ==> Extent(text, len) == p
    ensures p == len && p > 0 && !Skips(text, p) ==> Extent(text, len) == p
  {
  }

  lemma {:induction false} AfterAtomDelimits(stack: seq<seq<Sexp>>)
    requires stack != []
    ensures ToPrint(stack, true) != "" && IsDelimiter(ToPrint(stack, true)[0])
  {
    var top := stack[|stack| - 1];
    if top != [] && top[0].Atom? {
      assert Elements(top, true)[0] == ' ';
    } else if top != [] {
      assert Elements(top, true)[0] == '(';
    }
  }

  lemma EscapeStarts(v: string)
    requires v != ""
    ensures Escape(v) != "" && !IsDelimiter(Escape(v)[0])
  {
  }

  lemma SpaceFirst(s: string)
    ensures " " + s == [' '] + s
  {
  }

  lemma NothingFirst(s: string)
    ensures "" + s == s
  {
  }

  lemma NextChar(buf: seq<char>, pos: nat, after: string, text: string)
    requires pos <= |buf| && buf[..pos] + after == text && after != ""
    ensures pos < |text| && text[pos] == after[0]
  {
  }

  /** *str++ = c. */
  method Put(buf: array<char>, pos: nat, c: char, ghost text: string, ghost after: string) returns (next: nat)
    requires pos < buf.Length && pos <= |text| && buf[..pos] + ([c] + after) == text
    modifies buf
    ensures next == pos + 1 <= |text| && buf[..next] + after == text
    ensures text[pos] == c && (Escaped(text, next) <==> c == '\\' && !Escaped(text, pos))
    ensures after != "" ==> next < |text| && text[next] == after[0]
    ensures forall i :: next <= i < buf.Length ==> buf[i] == old(buf[i])
  {
    assert |text| == pos + 1 + |after|;
    assert text[pos] == ([c] + after)[0];
    EscapedNext(text, pos);
    hide Escaped;
    buf[pos] := c;
    next := pos + 1;
    assert buf[..next] == old(buf[..pos]) + [c];
    assert after != "" ==> text[next] == ([c] + after)[1];
  }

  lemma EscapedNothing(v: string, k: nat, after: string)
    requires k == |v|
    ensures Escape(v[k..]) + after == after
  {
    assert "" + after == after;
  }

  lemma EscapeNext(v: string, k: nat, after: string)
    requires k < |v|
    ensures var rest := Escape(v[k + 1..]) + after;
      Escape(v[k..]) + after == if NeedsEscape(v[k]) then ['\\'] + ([v[k]] + rest) else [v[k]] + rest
  {
    assert v[k..][0] == v[k] && v[k..][1..] == v[k + 1..];
  }

  lemma PrefixOf(buf: seq<char>, pos: nat, after: string, text: string)
    requires pos <= |buf| && buf[..pos] + after == text
    ensures buf[..pos] == text[..pos]
  {
  }

  /** One character of an atom, behind a backslash if it needs one. */
  method PutChar(buf: array<char>, at: nat, len: int, v: string, k: nat, ghost text: string, ghost after: string)
    returns (pos: nat, hit: bool)
    requires k < |v| && buf.Length > Extent(text, len)
    requires at <= buf.Length && buf[..at] + (Escape(v[k..]) + after) == text
    requires Inside(text, len, at) && !Escaped(text, at) && (at == len ==> Skips(text, len))
    modifies buf
    ensures at < pos <= buf.Length && Inside(text, len, pos)
    ensures hit <==> pos == len
    ensures !(text[pos - 1] == ' ' && !Escaped(text, pos - 1))
    ensures if hit then buf[..pos] == text[..pos]
            else buf[..pos] + (Escape(v[k + 1..]) + after) == text && !Escaped(text, pos)
    ensures forall i :: Extent(text, len) < i < buf.Length ==> buf[i] == old(buf[i])
  {
    ghost var rest := Escape(v[k + 1..]) + after;
    EscapeNext(v, k, after);
    assert !NeedsEscape(v[k]) ==> v[k] != ' ' && v[k] != '\\';
    hide Escape, Escaped, Extent, Skips, NeedsEscape;
    InsideIsWithin(text, len, at);
    pos := at;
    if NeedsEscape(v[k]) {
      pos := Put(buf, pos, '\\', text, [v[k]] + rest);
      InsideIsWithin(text, len, pos);
      if pos == len {
        PrefixOf(buf[..], pos, [v[k]] + rest, text);
        return pos, true;
      }
    }
    pos := Put(buf, pos, v[k], text, rest);
    hit := pos == len;
    PrefixOf(buf[..], pos, rest, text);
  }

  /** The characters of an atom; hit says that the bound was reached. */
  method PutAtom(buf: array<char>, start: nat, len: int, v: string, ghost text: string, ghost after: string)
    returns (pos: nat, hit: bool)
    requires buf.Length > Extent(text, len) && start <= buf.Length && buf[..start] + (Escape(v) + after) == text
    requires v != "" && Inside(text, len, start) && !Escaped(text, start) && (start == len ==> Skips(text, len))
    modifies buf
    ensures start < pos <= buf.Length && Inside(text, len, pos)
    ensures hit <==> pos == len
    ensures !(text[pos - 1] == ' ' && !Escaped(text, pos - 1))
    ensures if hit then buf[..pos] == text[..pos] else buf[..pos] + after == text && !Escaped(text, pos)
    ensures forall i :: Extent(text, len) < i < buf.Length ==> buf[i] == old(buf[i])
  {
    hide Escape, Escaped, Extent, Skips;
    pos, hit := start, false;
    var k := 0;
    while k < |v|
      invariant 0 <= k <= |v| && start <= pos <= buf.Length
      invariant (k > 0 ==> start < pos && pos != len) && (k == 0 ==> pos == start)
      invariant Inside(text, len, pos) && (pos == len ==> Skips(text, len)) && !Escaped(text, pos)
      invariant k > 0 ==> !(text[pos - 1] == ' ' && !Escaped(text, pos - 1))
      invariant buf[..pos] + (Escape(v[k..]) + after) == text
      invariant forall i :: Extent(text, len) < i < buf.Length ==> buf[i] == old(buf[i])
    {
      pos, hit := PutChar(buf, pos, len, v, k, text, after);
      if hit { return; }
      k := k + 1;
    }
    EscapedNothing(v, k, after);
  }

  /** Between two turns of the printer's loop: the text up to pos is in the buffer, and
      what is on the stack is the rest of it. */
  ghost predicate Printing(buf: seq<char>, pos: nat, stack: seq<seq<Sexp>>, lastAtom: bool, text: string, len: int) {
    && 1 <= pos <= |buf| && Inside(text, len, pos) && !Escaped(text, pos)
    && (stack != [] ==> !Skips(text, pos))
    && buf[..pos] + ToPrint(stack, lastAtom) == text
  }

  /** An atom, with a space before it if an atom came before; rest is what follows. */
  method PrintAtom(buf: array<char>, at: nat, len: int, v: string, lastAtom: bool, ghost stack: seq<seq<Sexp>>,
                   ghost rest: seq<seq<Sexp>>, ghost text: string)
    returns (pos: nat, hit: bool)
    requires buf.Length > Extent(text, len) && Printing(buf[..], at, stack, lastAtom, text, len) && at != len
    requires rest != []
    requires ToPrint(stack, lastAtom) == (if lastAtom then " " else "") + (Escape(v) + ToPrint(rest, true))
    modifies buf
    ensures hit ==> pos == Extent(text, len) == len && buf[..pos] == text[..pos]
    ensures !hit ==> Printing(buf[..], pos, rest, true, text, len)
    ensures forall i :: Extent(text, len) < i < buf.Length ==> buf[i] == old(buf[i])
  {
    ghost var after := ToPrint(rest, true);
    AfterAtomDelimits(rest);
    InsideIsWithin(text, len, at);
    assert buf[..][..at] == buf[..at];
    hide ToPrint, Extent, Escaped;
    pos, hit := at, false;
    if lastAtom {
      SpaceFirst(Escape(v) + after);
      pos := Put(buf, pos, ' ', text, Escape(v) + after);
    } else {
      NothingFirst(Escape(v) + after);
    }
    if v == "" {
      NothingFirst(after);
      NextChar(buf[..], pos, after, text);
    } else {
      EscapeStarts(v);
      NextChar(buf[..], pos, Escape(v) + after, text);
      hide Escape;
      pos, hit := PutAtom(buf, pos, len, v, text, after);
    }
    InsideIsWithin(text, len, pos);
    assert buf[..][..pos] == buf[..pos];
  }

  /** One parenthesis; rest is what the stack after it prints. */
  method PutParen(buf: array<char>, at: nat, len: int, c: char, ghost stack: seq<seq<Sexp>>, ghost lastAtom: bool,
                  ghost rest: seq<seq<Sexp>>, ghost text: string)
    returns (pos: nat)
    requires buf.Length > Extent(text, len) && Printing(buf[..], at, stack, lastAtom, text, len) && at != len
    requires (c == '(' || c == ')') && ToPrint(stack, lastAtom) == [c] + ToPrint(rest, false)
    modifies buf
    ensures Printing(buf[..], pos, rest, false, text, len)
    ensures forall i :: Extent(text, len) < i < buf.Length ==> buf[i] == old(buf[i])
  {
    hide ToPrint, Extent, Escaped;
    InsideIsWithin(text, len, at);
    assert buf[..][..at] == buf[..at];
    pos := Put(buf, at, c, text, ToPrint(rest, false));
    InsideIsWithin(text, len, pos);
    assert buf[..][..pos] == buf[..pos];
  }

  /** What the buffer is left with. */
  ghost predicate Printed(buf: seq<char>, n: nat, text: string, len: int) {
    n == Extent(text, len) && n < |buf| && buf[..n] == text[..n] && buf[n] == '\0'
  }

  lemma PrintingEnds(buf: seq<char>, pos: nat, stack: seq<seq<Sexp>>, lastAtom: bool, text: string, len: int)
    requires Printing(buf, pos, stack, lastAtom, text, len) && (stack == [] || pos == len)
    ensures pos == Extent(text, len) && buf[..pos] == text[..pos]
    ensures stack != [] ==> pos == len
  {
    InsideIsWithin(text, len, pos);
    PrefixOf(buf, pos, ToPrint(stack, lastAtom), text);
    EmptyStack(lastAtom);
    hide Extent, ToPrint;
    if stack == [] { assert |text| == pos + |ToPrint(stack, lastAtom)|; }
  }

  method Finish(buf: array<char>, pos: nat, ghost text: string, ghost len: int)
    requires buf.Length > Extent(text, len) && pos == Extent(text, len) && buf[..pos] == text[..pos]
    modifies buf
    ensures Printed(buf[..], pos, text, len)
    ensures forall i :: Extent(text, len) < i < buf.Length ==> buf[i] == old(buf[i])
  {
    buf[pos] := '\0';
    assert buf[..][..pos] == buf[..pos];
  }

  lemma PrintingStarts(buf: seq<char>, elems: seq<Sexp>, len: int)
    requires |buf| >= 1 && buf[0] == '('
    ensures Printing(buf, 1, [elems], false, Text(elems), len)
    ensures StackFits([elems]) <==> Depth([List(elems)]) <= STACK_SIZE
  {
    SingleStack(elems);
    var text := Text(elems);
    assert text[0] == '(';
    EscapedNext(text, 0);
    assert buf[..1] == "(";
  }

  /** sexp_snprint. The bound len (-1 for none) cuts the text off, but for one place: it is
      not looked at right behind the space between two atoms, and if it lies there the
      whole text is printed. The NUL goes after what is printed. */
  method SexpSnprint(buf: array<char>, len: int, elems: seq<Sexp>) returns (n: int)
    requires len >= -1 && buf.Length > Extent(Text(elems), len)
    modifies buf
    ensures n == -1 ==> Depth([List(elems)]) > STACK_SIZE
    ensures n != -1 && Depth([List(elems)]) > STACK_SIZE ==> n == len
    ensures n != -1 ==> n >= 0 && Printed(buf[..], n, Text(elems), len)
    ensures forall i :: Extent(Text(elems), len) < i < buf.Length ==> buf[i] == old(buf[i])
  {
    hide ToPrint, StackFits, StackWeight, Escape, Depth, Text, Escaped, Extent, Printing, Printed;
    ghost var text := Text(elems);
    var stack, lastAtom := [elems], false;
    buf[0] := '(';
    var pos := 1;
    PrintingStarts(buf[..], elems, len);
    while stack != [] && pos != len
      invariant |stack| <= STACK_SIZE && Printing(buf[..], pos, stack, lastAtom, text, len)
      invariant StackFits(stack) <==> Depth([List(elems)]) <= STACK_SIZE
      invariant forall i :: Extent(text, len) < i < buf.Length ==> buf[i] == old(buf[i])
      decreases StackWeight(stack)
    {
      ghost var before := stack;
      var top := stack[|stack| - 1];
      if top == [] {
        TurnOnEnd(stack, lastAtom);
        stack := stack[..|stack| - 1];
        pos := PutParen(buf, pos, len, ')', before, lastAtom, stack, text);
        lastAtom := false;
      } else {
        match top[0] {
          case List(inner) =>
            TurnOnList(stack, inner, lastAtom);
            if |stack| >= STACK_SIZE { return -1; }
            stack := Advanced(stack) + [inner];
            pos := PutParen(buf, pos, len, '(', before, lastAtom, stack, text);
            lastAtom := false;
          case Atom(v) =>
            TurnOnAtom(stack, v, lastAtom);
            stack := Advanced(stack);
            var hit;
            pos, hit := PrintAtom(buf, pos, len, v, lastAtom, before, stack, text);
            if hit {
              Finish(buf, pos, text, len);
              return pos;
            }
            lastAtom := true;
        }
      }
    }
    PrintingEnds(buf[..], pos, stack, lastAtom, text, len);
    assert buf[..][..pos] == buf[..pos];
    if stack == [] { EmptyStack(lastAtom); }
    Finish(buf, pos, text, len);
    n := pos;
  }

  /** sexp_string: the buffer sized by the estimate always holds the whole text. */
  method SexpString(elems: seq<Sexp>) returns (buf: array<char>)
    requires Depth([List(elems)]) <= STACK_SIZE
    ensures fresh(buf) && buf.Length == |Text(elems)| + Gaps(elems) + 1
    ensures buf[..|Text(elems)|] == Text(elems) && buf[|Text(elems)|] == '\0'
  {
    var len := SexpStrlen(elems);
    EstimateIsEnough(elems);
    buf := new char[len + 1];
    var n := SexpSnprint(buf, len, elems);
  }
}
