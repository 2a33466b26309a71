/** S-expressions, the text that stands for them, and the resumable parser as a
    function from state and text to state. */
module SexpSpec {
  datatype Sexp = Atom(val: string) | List(elems: seq<Sexp>)
  const STACK_SIZE: nat := 100

  /** sizeof(struct sexp_t) with 8-byte pointers: what one element costs against
      a parser's byte limit, besides its text. */
  const NODE_SIZE: nat := 24

  predicate IsSpace(c: char) {
    c == ' ' || c == '\t' || c == '\n' || c == '\U{000B}' || c == '\U{000C}' || c == '\r'
  }

  predicate IsDelimiter(c: char) {
    c == '(' || c == ')' || IsSpace(c)
  }

  // ---- text ----------------------------------------------------------------

  predicate NeedsEscape(c: char) {
    IsDelimiter(c) || c == '\\'
  }

  function EscapeChar(c: char): string {
    if NeedsEscape(c) then ['\\', c] else [c]
  }

  function Escape(s: string): string {
    if s == "" then "" else EscapeChar(s[0]) + Escape(s[1..])
  }

  /** The elements of a list as text; a space goes only between two atoms, so
      afterAtom says whether an atom comes right before. */
  function Elements(es: seq<Sexp>, afterAtom: bool): string
    decreases es
  {
    if es == [] then ""
    else match es[0]
      case Atom(v) => (if afterAtom then " " else "") + Escape(v) + Elements(es[1..], true)
      case List(inner) => "(" + Elements(inner, false) + ")" + Elements(es[1..], false)
  }

  function Text(elems: seq<Sexp>): string {
    "(" + Elements(elems, false) + ")"
  }

  /** How deep the lists in es nest. */
  function Depth(es: seq<Sexp>): nat
    decreases es
  {
    if es == [] then 0
    else
      var rest := Depth(es[1..]);
      match es[0]
      case Atom(_) => rest
      case List(inner) => if Depth(inner) + 1 > rest then Depth(inner) + 1 else rest
  }

  /** The bytes es counts for against a parser's limit. */
  function Cost(es: seq<Sexp>): nat
    decreases es
  {
    if es == [] then 0
    else Cost(es[1..]) + NODE_SIZE + match es[0] case Atom(v) => |v| + 1 case List(inner) => Cost(inner)
  }

  /** Atoms that have a text form: non-empty C strings. */
  predicate Printable(es: seq<Sexp>)
    decreases es
  {
    if es == [] then true
    else match es[0]
      case Atom(v) => v != "" && '\0' !in v && Printable(es[1..])
      case List(inner) => Printable(inner) && Printable(es[1..])
  }

  // ---- the parser ------------------------------------------------------------

  datatype Mode = Outside | InAtom | InEscape

  /** levels[i] holds what has been read so far of the list open at depth i;
      level 0 is outside every list. */
  datatype State = State(mode: Mode, atom: string, levels: seq<seq<Sexp>>, maxBytes: nat, bytes: nat) {
    predicate Valid() { 1 <= |levels| <= STACK_SIZE }

    predicate Exceeds(size: nat) {
      maxBytes != 0 && bytes + NODE_SIZE + size > maxBytes
    }

    function Attach(sx: Sexp): State
      requires Valid()
    {
      var sp := |levels| - 1;
      this.(levels := levels[sp := levels[sp] + [sx]])
    }
  }

  const START := State(Outside, "", [[]], 0, 0)

  datatype StepResult =
    | Next(st: State, consumed: bool)
    | Finished(elems: seq<Sexp>)
    | Failed

  function AddToAtom(st: State, c: char): StepResult {
    if st.Exceeds(|st.atom| + 2) then Failed
    else Next(st.(mode := InAtom, atom := st.atom + [c]), true)
  }

  function CompleteAtom(st: State): State
    requires st.Valid()
  {
    st.Attach(Atom(st.atom)).(mode := Outside, atom := "", bytes := st.bytes + NODE_SIZE + |st.atom| + 1)
  }

  /** One turn of the parser's loop on character c. */
  function Step(st: State, c: char): (r: StepResult)
    requires st.Valid()
    ensures r.Next? ==> r.st.Valid()
  {
    match st.mode
    case Outside =>
      if c == '(' then
        if st.Exceeds(0) || |st.levels| >= STACK_SIZE then Failed
        else Next(st.(levels := st.levels + [[]], bytes := st.bytes + NODE_SIZE), true)
      else if c == ')' then
        var sp := |st.levels| - 1;
        if sp == 0 then Failed
        else
          var popped := st.(levels := st.levels[..sp]).Attach(List(st.levels[sp]));
          if sp == 1 then Finished(popped.levels[0]) else Next(popped, true)
      else if IsSpace(c) then Next(st, true)
      else Next(st.(mode := InAtom), false)
    case InAtom =>
      if IsDelimiter(c) then
        if st.Exceeds(|st.atom| + 1) then Failed else Next(CompleteAtom(st), false)
      else if c == '\\' then Next(st.(mode := InEscape), true)
      else AddToAtom(st, c)
    case InEscape => AddToAtom(st, c)
  }

  /** The turn leaves c to be looked at again. */
  predicate Stalls(st: State, c: char) {
    match st.mode
    case Outside => !IsDelimiter(c)
    case InAtom => IsDelimiter(c)
    case InEscape => false
  }

  /** More: the text ran out, or a NUL stopped the parser, with rest unread.
      Done: one expression is complete and rest is left over. */
  datatype Result =
    | More(st: State, rest: string)
    | Done(elems: seq<Sexp>, rest: string)
    | Error

  function Parse(st: State, text: string): (r: Result)
    requires st.Valid()
    ensures r.More? ==> r.st.Valid()
    decreases |text|, if text != "" && Stalls(st, text[0]) then 1 else 0
  {
    if text == "" || text[0] == '\0' then More(st, text)
    else match Step(st, text[0])
      case Next(s, consumed) => Parse(s, if consumed then text[1..] else text)
      case Finished(elems) => Done(elems, text[1..])
      case Failed => Error
  }
}
