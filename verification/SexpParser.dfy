/** The resumable parser as an object whose fields carry over from call to call,
    and the client side that reads expressions off a connection with it. */
module SexpParser {
  import opened SexpRoundTrip
  import opened SexpSpec
  import opened Basics

  /** A turn that leaves its character is followed by one that takes it. */
  lemma StalledStepMoves(st: State, c: char)
    requires st.Valid()
    ensures Step(st, c).Next? && !Step(st, c).consumed ==> Stalls(st, c) && !Stalls(Step(st, c).st, c)
  {
  }

  class Parser {
    var mode: Mode
    var atom: string
    var levels: seq<seq<Sexp>>
    var maxBytes: nat
    var bytes: nat

    ghost function Value(): State
      reads this
    {
      State(mode, atom, levels, maxBytes, bytes)
    }

    constructor ()
      ensures Value() == START
    {
      mode, atom, levels, maxBytes, bytes := Outside, "", [[]], 0, 0;
    }

    method Reset()
      modifies this
      ensures Value() == START
    {
      mode, atom, levels, maxBytes, bytes := Outside, "", [[]], 0, 0;
    }

    method Limit(limit: nat)
      modifies this`maxBytes
      ensures Value() == old(Value()).(maxBytes := limit)
    {
      maxBytes := limit;
    }

    /** Account for one element with size bytes of text, unless over the limit. */
    method Charge(size: nat) returns (ok: bool)
      modifies this`bytes
      ensures ok <==> !old(Value()).Exceeds(size)
      ensures bytes == old(bytes) + if ok then NODE_SIZE + size else 0
    {
      if maxBytes != 0 && bytes + NODE_SIZE + size > maxBytes { return false; }
      bytes := bytes + NODE_SIZE + size;
      ok := true;
    }

    /** Put a finished element at the end of the innermost open list. */
    method Attach(sx: Sexp)
      requires Value().Valid()
      modifies this`levels
      ensures Value() == old(Value()).Attach(sx)
    {
      var sp := |levels| - 1;
      levels := levels[sp := levels[sp] + [sx]];
    }

    method CompleteAtom() returns (ok: bool)
      requires Value().Valid() && mode == Outside
      modifies this
      ensures ok <==> !old(Value()).Exceeds(|old(atom)| + 1)
      ensures ok ==> Value() == SexpSpec.CompleteAtom(old(Value()))
    {
      ok := Charge(|atom| + 1);
      if !ok { return; }
      Attach(Atom(atom));
      atom := "";
    }

    method AddToAtom(c: char) returns (ok: bool)
      requires mode == InAtom
      modifies this`atom
      ensures SexpSpec.AddToAtom(old(Value()), c) == if ok then Next(Value(), true) else Failed
    {
      if maxBytes != 0 && bytes + NODE_SIZE + |atom| + 2 > maxBytes { return false; }
      atom := atom + [c];
      ok := true;
    }

    /** The body of the parser's loop: one switch on the state. */
    method Turn(c: char) returns (ok: bool, consumed: bool, out: Option<seq<Sexp>>)
      requires Value().Valid()
      modifies this
      ensures var r := Step(old(Value()), c);
        && (ok <==> !r.Failed?)
        && (r.Next? ==> out == None && consumed == r.consumed && Value() == r.st)
        && (r.Finished? ==> out == Some(r.elems) && consumed && Value() == START)
        && (r.Failed? ==> out == None)
    {
      ok, consumed, out := true, true, None;
      match mode {
        case Outside =>
          if c == '(' {
            ok := Charge(0);
            if !ok { return; }
            if |levels| >= STACK_SIZE { ok := false; return; }
            levels := levels + [[]];
          } else if c == ')' {
            var sp := |levels| - 1;
            if sp == 0 { ok := false; return; }
            var inner := levels[sp];
            levels := levels[..sp];
            Attach(List(inner));
            if sp == 1 {
              out := Some(levels[0]);
              Reset();
            }
          } else if !IsSpace(c) {
            mode, consumed := InAtom, false;
          }
        case InAtom =>
          if IsDelimiter(c) {
            mode, consumed := Outside, false;
            ok := CompleteAtom();
          } else if c == '\\' {
            mode := InEscape;
          } else {
            ok := AddToAtom(c);
          }
        case InEscape =>
          mode := InAtom;
          ok := AddToAtom(c);
      }
    }

    /** sexp_parser_parse: eat text until an expression is complete (out), the
        text or a NUL ends it (no out), or something is wrong (used is -1). */
    method ParseChunk(str: string) returns (used: int, out: Option<seq<Sexp>>)
      requires Value().Valid()
      modifies this
      ensures var r := Parse(old(Value()), str);
        && (r.More? ==> 0 <= used <= |str| && r.rest == str[used..] && out == None && Value() == r.st)
        && (r.Done? ==> 0 <= used <= |str| && r.rest == str[used..] && out == Some(r.elems) && Value() == START)
        && (r.Error? ==> used == -1 && out == None)
    {
      out := None;
      ghost var st := Value();
      var i := 0;
      while i < |str| && str[i] != '\0'
        invariant 0 <= i <= |str| && out == None && Value().Valid()
        invariant Parse(Value(), str[i..]) == Parse(st, str)
        decreases |str| - i, if i < |str| && Stalls(Value(), str[i]) then 1 else 0
      {
        assert str[i..][0] == str[i] && str[i..][1..] == str[i + 1..];
        StalledStepMoves(Value(), str[i]);
        var ok, consumed;
        ok, consumed, out := Turn(str[i]);
        if !ok { return -1, None; }
        if consumed { i := i + 1; }
        if out.Some? { return i, out; }
      }
      used := i;
    }
  }

  const CLIENT_LIMIT: nat := 10240

  /** The parser the scheduler gives a new client. */
  method NewClientParser() returns (p: Parser)
    ensures fresh(p) && p.Value() == START.(maxBytes := CLIENT_LIMIT)
  {
    p := new Parser();
    p.Limit(CLIENT_LIMIT);
  }

  lemma {:induction false} NoNulNoRest(st: State, text: string)
    requires st.Valid() && '\0' !in text
    ensures Parse(st, text).More? ==> Parse(st, text).rest == ""
    decreases |text|, if text != "" && Stalls(st, text[0]) then 1 else 0
  {
    if text != "" {
      match Step(st, text[0])
      case Next(s, consumed) => NoNulNoRest(s, if consumed then text[1..] else text);
      case _ =>
    }
  }

  /** What stops the parser before the end of its text is a NUL, and it stops there again
      however often it is called. */
  lemma {:induction false} NulStops(st: State, text: string)
    requires st.Valid() && Parse(st, text).More?
    ensures var r := Parse(st, text);
      r.rest != "" ==> r.rest[0] == '\0' && '\0' in text && Parse(r.st, r.rest) == r
    decreases |text|, if text != "" && Stalls(st, text[0]) then 1 else 0
  {
    if text != "" && text[0] != '\0' {
      match Step(st, text[0])
      case Next(s, consumed) => NulStops(s, if consumed then text[1..] else text);
    }
  }

  lemma NextText(lists: seq<seq<Sexp>>, k: nat, tail: string)
    requires forall l :: l in lists ==> Printable(l) && Depth([List(l)]) < STACK_SIZE
    requires k < |lists|
    ensures START.Valid()
    ensures Parse(START, Texts(lists[k..]) + tail) == Done([List(lists[k])], Texts(lists[k + 1..]) + tail)
  {
    hide Parse, Text, Printable, Depth;
    var rest := lists[k..];
    assert rest[0] == lists[k] && rest[1..] == lists[k + 1..];
    assert Texts(rest) + tail == Text(lists[k]) + (Texts(rest[1..]) + tail);
    ParsePrinted(lists[k], 0, Texts(rest[1..]) + tail);
  }

  const BSIZE: nat := 4096

  /** A connection: the parser, what the last read left over, and the data the
      peer will deliver, one item per read; no more items means end of file. */
  class Client {
    const parser: Parser
    var left: string
    var incoming: seq<string>

    ghost predicate Valid()
      reads this, parser
    {
      && parser.Value().Valid()
      && '\0' !in left
      && forall s :: s in incoming ==> 1 <= |s| <= BSIZE && '\0' !in s
    }

    ghost function Pending(): string
      reads this
    {
      left + Concat(incoming)
    }

    constructor (incoming: seq<string>)
      requires forall s :: s in incoming ==> 1 <= |s| <= BSIZE && '\0' !in s
      ensures Valid() && fresh(parser) && parser.Value() == START && Pending() == Concat(incoming)
    {
      parser := new Parser();
      left := "";
      this.incoming := incoming;
      new;
      assert "" + Concat(incoming) == Concat(incoming);
    }

    method Read()
      requires left == ""
      modifies this
      ensures Pending() == old(Pending())
      ensures if old(incoming) == [] then left == "" && incoming == []
              else left == old(incoming)[0] && incoming == old(incoming)[1..]
    {
      if incoming != [] {
        left, incoming := incoming[0], incoming[1..];
        assert "" + old(Concat(incoming)) == old(Concat(incoming));
      }
    }

    /** bjs_recv: deliver the next complete expression of the byte stream, however
        the reads cut it, and keep what follows for the next call. */
    method Recv() returns (ok: bool, sx: seq<Sexp>)
      requires Valid()
      modifies this, parser
      ensures var r := Parse(old(parser.Value()), old(Pending()));
        && (ok <==> r.Done?)
        && (r.Done? ==> sx == r.elems && Pending() == r.rest && parser.Value() == START && Valid())
        && (r.More? ==> Pending() == "" && parser.Value() == r.st && Valid())
    {
      ok, sx := false, [];
      if left == "" { Read(); }
      while left != ""
        invariant Valid() && (left == "" ==> incoming == [])
        invariant Parse(parser.Value(), Pending()) == Parse(old(parser.Value()), old(Pending()))
        decreases |incoming| + if left == "" then 0 else 1
      {
        ghost var st, chunk, after := parser.Value(), left, Concat(incoming);
        ParseInTwo(st, chunk, after);
        NoNulNoRest(st, chunk);
        var used, out := parser.ParseChunk(left);
        if used == -1 { return; }
        left := left[used..];
        if out.Some? { return true, out.value; }
        assert left == "" && "" + after == after;
        Read();
      }
    }
  }

  /** Ready for the text of list k and whatever follows. */
  ghost predicate Awaits(c: Client, lists: seq<seq<Sexp>>, k: nat, tail: string)
    requires k <= |lists|
    reads c, c.parser
  {
    c.Valid() && c.parser.Value() == START && c.Pending() == Texts(lists[k..]) + tail
  }

  lemma NoneAwaited(c: Client, lists: seq<seq<Sexp>>, tail: string)
    requires Awaits(c, lists, |lists|, tail)
    ensures c.Valid() && c.Pending() == tail
  {
    assert "" + tail == tail;
  }

  method ReceiveOne(c: Client, ghost lists: seq<seq<Sexp>>, ghost k: nat, ghost tail: string) returns (sx: seq<Sexp>)
    requires forall l :: l in lists ==> Printable(l) && Depth([List(l)]) < STACK_SIZE
    requires k < |lists| && Awaits(c, lists, k, tail)
    modifies c, c.parser
    ensures sx == [List(lists[k])] && Awaits(c, lists, k + 1, tail)
  {
    hide Parse, Texts, Printable, Depth;
    NextText(lists, k, tail);
    var ok;
    ok, sx := c.Recv();
  }

  method ReceiveMany(c: Client, n: nat, ghost lists: seq<seq<Sexp>>, ghost tail: string) returns (got: seq<seq<Sexp>>)
    requires forall l :: l in lists ==> Printable(l) && Depth([List(l)]) < STACK_SIZE
    requires n == |lists| && Awaits(c, lists, 0, tail)
    modifies c, c.parser
    ensures |got| == n && forall k :: 0 <= k < n ==> got[k] == [List(lists[k])]
    ensures Awaits(c, lists, n, tail)
  {
    hide *;
    got := [];
    var k := 0;
    while k < n
      invariant k == |got| <= n && Awaits(c, lists, k, tail)
      invariant forall i :: 0 <= i < k ==> got[i] == [List(lists[i])]
    {
      var sx := ReceiveOne(c, lists, k, tail);
      got := got + [sx];
      k := k + 1;
    }
  }

  /** A connection that delivers the texts of some lists, cut into reads anywhere: as many
      calls of bjs_recv return exactly these lists, in order, and leave what follows. */
  method ReceiveAll(incoming: seq<string>, n: nat, ghost lists: seq<seq<Sexp>>, ghost tail: string)
    returns (got: seq<seq<Sexp>>, c: Client)
    requires forall s :: s in incoming ==> 1 <= |s| <= BSIZE && '\0' !in s
    requires forall l :: l in lists ==> Printable(l) && Depth([List(l)]) < STACK_SIZE
    requires n == |lists| && Concat(incoming) == Texts(lists) + tail
    ensures |got| == n && forall k :: 0 <= k < n ==> got[k] == [List(lists[k])]
    ensures fresh(c) && c.Valid() && c.Pending() == tail
  {
    hide Printable, Depth, Texts, Concat, IsSpace;
    c := new Client(incoming);
    assert lists[0..] == lists;
    got := ReceiveMany(c, n, lists, tail);
    NoneAwaited(c, lists, tail);
  }
}
