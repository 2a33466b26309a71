/** The named pipes of cellfs: buffers between writers and blocking readers, with
    writers held back while too much is buffered. */
module PipeFs {
  import opened Basics
  const LIMIT: nat := 32768
  datatype Buf = Buf(data: seq<bv8>, pos: nat)
  datatype Reader = Reader(tag: nat, count: nat)
  datatype Writer = Writer(tag: nat, data: seq<bv8>)
  datatype Reply = Reply(tag: nat, data: seq<bv8>)

  /** The pipe, and what it has done so far: the replies to readers and the writes
      it took, each in order. */
  datatype State = State(bufs: seq<Buf>, rreqs: seq<Reader>, wreqs: seq<Writer>, replies: seq<Reply>,
                         taken: seq<Writer>)

  const EMPTY := State([], [], [], [], [])

  /** Bytes accounted: whole buffers count until they are used up. */
  function Size(bufs: seq<Buf>): nat {
    if bufs == [] then 0 else |bufs[0].data| + Size(bufs[1..])
  }

  function Min(a: nat, b: nat): nat { if a < b then a else b }

  /** buf_add for a write that is answered. */
  function Take(s: State, w: Writer): State {
    s.(bufs := s.bufs + [Buf(w.data, 0)], taken := s.taken + [w])
  }

  /** The loop at the end of pipe_do: take postponed writes while there is room. */
  function Refill(s: State): State
    decreases |s.wreqs|
  {
    if Size(s.bufs) >= LIMIT || s.wreqs == [] then s
    else Refill(Take(s, s.wreqs[0]).(wreqs := s.wreqs[1..]))
  }

  predicate BufsOk(bufs: seq<Buf>) {
    forall b :: b in bufs ==> b.pos <= |b.data|
  }

  /** The reader at the head is answered from the first buffer. */
  function Serve(s: State): State
    requires BufsOk(s.bufs) && s.rreqs != [] && s.bufs != []
  {
    var r, b := s.rreqs[0], s.bufs[0];
    var n := Min(|b.data| - b.pos, r.count);
    s.(rreqs := s.rreqs[1..], replies := s.replies + [Reply(r.tag, b.data[b.pos..b.pos + n])],
       bufs := if b.pos + n >= |b.data| then s.bufs[1..] else [b.(pos := b.pos + n)] + s.bufs[1..])
  }

  /** pipe_do: at most one reader is served, from the first buffer alone. */
  function PipeDo(s: State): State
    requires BufsOk(s.bufs)
  {
    if s.rreqs == [] || s.bufs == [] then s else Refill(Serve(s))
  }

  datatype Op = Read(r: Reader) | Write(w: Writer)

  lemma TakeKeepsBufs(s: State, w: Writer)
    requires BufsOk(s.bufs)
    ensures BufsOk(Take(s, w).bufs)
  {
  }

  function OnOp(s: State, op: Op): State
    requires BufsOk(s.bufs)
  {
    match op
    case Read(r) => PipeDo(s.(rreqs := s.rreqs + [r]))
    case Write(w) =>
      if Size(s.bufs) > LIMIT then s.(wreqs := s.wreqs + [w])
      else
        TakeKeepsBufs(s, w);
        PipeDo(Take(s, w))
  }

  // ---- the bytes -------------------------------------------------------------------

  function Unread(bufs: seq<Buf>): seq<bv8>
    requires BufsOk(bufs)
  {
    if bufs == [] then [] else bufs[0].data[bufs[0].pos..] + Unread(bufs[1..])
  }

  function Delivered(rs: seq<Reply>): seq<bv8> {
    if rs == [] then [] else Delivered(rs[..|rs| - 1]) + rs[|rs| - 1].data
  }

  function Written(ws: seq<Writer>): seq<bv8> {
    if ws == [] then [] else Written(ws[..|ws| - 1]) + ws[|ws| - 1].data
  }

  lemma {:induction false} UnreadAppend(bufs: seq<Buf>, data: seq<bv8>)
    requires BufsOk(bufs)
    ensures BufsOk(bufs + [Buf(data, 0)]) && Unread(bufs + [Buf(data, 0)]) == Unread(bufs) + data
    ensures Size(bufs + [Buf(data, 0)]) == Size(bufs) + |data|
  {
    if bufs == [] {
      assert data[0..] == data;
      assert (bufs + [Buf(data, 0)])[1..] == [];
    } else {
      assert (bufs + [Buf(data, 0)])[1..] == bufs[1..] + [Buf(data, 0)];
      UnreadAppend(bufs[1..], data);
    }
  }

  /** Nothing is lost, repeated or reordered: what readers got, then what is buffered,
      is what was written, in the order the writes were taken. */
  ghost predicate Conserved(s: State) {
    BufsOk(s.bufs) && Delivered(s.replies) + Unread(s.bufs) == Written(s.taken)
  }

  lemma TakeConserves(s: State, w: Writer)
    requires Conserved(s)
    ensures Conserved(Take(s, w)) && Size(Take(s, w).bufs) == Size(s.bufs) + |w.data|
  {
    UnreadAppend(s.bufs, w.data);
    assert (s.taken + [w])[..|s.taken|] == s.taken;
    assert Delivered(s.replies) + (Unread(s.bufs) + w.data) == Written(s.taken) + w.data;
  }

  function ReplyTags(rs: seq<Reply>): seq<nat> {
    seq(|rs|, i requires 0 <= i < |rs| => rs[i].tag)
  }

  function ReaderTags(rs: seq<Reader>): seq<nat> {
    seq(|rs|, i requires 0 <= i < |rs| => rs[i].tag)
  }

  /** The readers and writers a step leaves in the queues. */
  function Readers(s: State): seq<nat> {
    ReplyTags(s.replies) + ReaderTags(s.rreqs)
  }

  lemma FirstTaken(s: State)
    requires Conserved(s) && s.wreqs != []
    ensures var t := Take(s, s.wreqs[0]).(wreqs := s.wreqs[1..]);
      && Conserved(t)
      && t.rreqs == s.rreqs && t.replies == s.replies
      && t.taken + t.wreqs == s.taken + s.wreqs
  {
    TakeConserves(s, s.wreqs[0]);
    assert s.wreqs == [s.wreqs[0]] + s.wreqs[1..];
    assert s.taken + [s.wreqs[0]] + s.wreqs[1..] == s.taken + s.wreqs;
  }

  lemma {:induction false} RefillKeeps(s: State)
    requires Conserved(s)
    ensures var u := Refill(s);
      && Conserved(u)
      && u.rreqs == s.rreqs && u.replies == s.replies
      && u.taken + u.wreqs == s.taken + s.wreqs
      && (u.wreqs != [] ==> Size(u.bufs) >= LIMIT)
    decreases |s.wreqs|
  {
    if Size(s.bufs) < LIMIT && s.wreqs != [] {
      FirstTaken(s);
      hide Conserved, Size;
      RefillKeeps(Take(s, s.wreqs[0]).(wreqs := s.wreqs[1..]));
    }
  }

  lemma UnreadFirst(bufs: seq<Buf>)
    requires BufsOk(bufs) && bufs != []
    ensures BufsOk(bufs[1..]) && Unread(bufs) == bufs[0].data[bufs[0].pos..] + Unread(bufs[1..])
  {
  }

  lemma ServedKeeps(s: State, b: Buf, n: nat, reply: Reply, rest: seq<Buf>)
    requires BufsOk(s.bufs) && s.bufs != [] && b == s.bufs[0] && n <= |b.data| - b.pos
    requires reply.data == b.data[b.pos..b.pos + n]
    requires rest == if b.pos + n >= |b.data| then s.bufs[1..] else [b.(pos := b.pos + n)] + s.bufs[1..]
    ensures BufsOk(rest) && reply.data + Unread(rest) == Unread(s.bufs)
  {
    UnreadFirst(s.bufs);
    if b.pos + n < |b.data| {
      assert rest[0] == b.(pos := b.pos + n) && rest[1..] == s.bufs[1..];
      UnreadFirst(rest);
      assert b.data[b.pos..] == reply.data + b.data[b.pos + n..];
      hide Unread, BufsOk;
      Regroup(reply.data, b.data[b.pos + n..], Unread(s.bufs[1..]));
    } else {
      assert b.data[b.pos..] == reply.data;
    }
  }

  /** Serving one reader moves its bytes from the buffer to the reply. */
  lemma DeliveredMore(rs: seq<Reply>, r: Reply)
    ensures Delivered(rs + [r]) == Delivered(rs) + r.data
    ensures ReplyTags(rs + [r]) == ReplyTags(rs) + [r.tag]
  {
    assert (rs + [r])[..|rs|] == rs;
  }

  lemma FirstReader(rs: seq<Reader>)
    requires rs != []
    ensures ReaderTags(rs) == [rs[0].tag] + ReaderTags(rs[1..])
  {
  }

  lemma ServeConserves(s: State)
    requires Conserved(s) && s.rreqs != [] && s.bufs != []
    ensures Conserved(Serve(s)) && Readers(Serve(s)) == Readers(s)
  {
    var r, b := s.rreqs[0], s.bufs[0];
    var n := Min(|b.data| - b.pos, r.count);
    var reply := Reply(r.tag, b.data[b.pos..b.pos + n]);
    var u := Serve(s);
    assert u.replies == s.replies + [reply] && u.rreqs == s.rreqs[1..] && u.taken == s.taken;
    ServedKeeps(s, b, n, reply, u.bufs);
    hide Serve, Unread, Delivered, Written, ReplyTags, ReaderTags, BufsOk;
    DeliveredMore(s.replies, reply);
    Regroup(Delivered(s.replies), reply.data, Unread(u.bufs));
    FirstReader(s.rreqs);
    Regroup(ReplyTags(s.replies), [r.tag], ReaderTags(u.rreqs));
  }

  lemma ServeLeavesWriters(s: State)
    requires BufsOk(s.bufs) && s.rreqs != [] && s.bufs != []
    ensures Serve(s).taken == s.taken && Serve(s).wreqs == s.wreqs
  {
  }

  lemma PipeDoKeeps(s: State)
    requires Conserved(s)
    ensures var u := PipeDo(s);
      && Conserved(u)
      && Readers(u) == Readers(s)
      && u.taken + u.wreqs == s.taken + s.wreqs
      && ((s.wreqs != [] ==> Size(s.bufs) >= LIMIT) ==> (u.wreqs != [] ==> Size(u.bufs) >= LIMIT))
  {
    if s.rreqs != [] && s.bufs != [] {
      ServeConserves(s);
      ServeLeavesWriters(s);
      hide Conserved, Serve, Refill;
      RefillKeeps(Serve(s));
    }
  }

  // ---- runs -------------------------------------------------------------------------

  /** The one way past a postponed writer: a write that comes when exactly the limit
      is buffered is taken at once. */
  predicate Overtakes(s: State, op: Op) {
    op.Write? && s.wreqs != [] && Size(s.bufs) <= LIMIT
  }

  lemma OpKeeps(s: State, op: Op)
    requires Conserved(s) && (s.wreqs != [] ==> Size(s.bufs) >= LIMIT)
    ensures var u := OnOp(s, op);
      && Conserved(u)
      && (u.wreqs != [] ==> Size(u.bufs) >= LIMIT)
      && Readers(u) == Readers(s) + (if op.Read? then [op.r.tag] else [])
      && u.taken + u.wreqs ==
           if op.Read? then s.taken + s.wreqs
           else if Overtakes(s, op) then s.taken + [op.w] + s.wreqs
           else s.taken + s.wreqs + [op.w]
  {
    hide PipeDo, Unread, Delivered, Written;
    match op
    case Read(r) =>
      var t := s.(rreqs := s.rreqs + [r]);
      assert Readers(t) == Readers(s) + [r.tag];
      PipeDoKeeps(t);
    case Write(w) =>
      if Size(s.bufs) > LIMIT {
        assert s.taken + (s.wreqs + [w]) == s.taken + s.wreqs + [w];
      } else {
        TakeConserves(s, w);
        TakeKeepsBufs(s, w);
        PipeDoKeeps(Take(s, w));
        if s.wreqs == [] { assert s.taken + [w] + s.wreqs == s.taken + s.wreqs + [w]; }
      }
  }

  function Run(ops: seq<Op>): (s: State)
    ensures Conserved(s)
    ensures s.wreqs != [] ==> Size(s.bufs) >= LIMIT
  {
    if ops == [] then EMPTY
    else
      var s := Run(ops[..|ops| - 1]);
      OpKeeps(s, ops[|ops| - 1]);
      OnOp(s, ops[|ops| - 1])
  }

  predicate SomeOvertaking(ops: seq<Op>) {
    ops != [] && (SomeOvertaking(ops[..|ops| - 1]) || Overtakes(Run(ops[..|ops| - 1]), ops[|ops| - 1]))
  }

  function ReadArrivals(ops: seq<Op>): seq<nat> {
    if ops == [] then []
    else ReadArrivals(ops[..|ops| - 1]) + if ops[|ops| - 1].Read? then [ops[|ops| - 1].r.tag] else []
  }

  function WriteArrivals(ops: seq<Op>): seq<Writer> {
    if ops == [] then []
    else WriteArrivals(ops[..|ops| - 1]) + if ops[|ops| - 1].Write? then [ops[|ops| - 1].w] else []
  }

  /** Overtaking happens exactly at the limit, never below it. */
  lemma OvertakingIsAtLimit(ops: seq<Op>, op: Op)
    requires Overtakes(Run(ops), op)
    ensures Size(Run(ops).bufs) == 32768
  {
  }

  /** Over any run: the bytes readers received followed by the bytes still buffered
      are the bytes of the writes taken, in that order; readers are answered in the
      order they came; and a writer waits only while the pipe is full. */
  lemma {:induction false} RunServesInOrder(ops: seq<Op>)
    ensures var s := Run(ops);
      && Delivered(s.replies) + Unread(s.bufs) == Written(s.taken)
      && Readers(s) == ReadArrivals(ops)
      && |s.taken| + |s.wreqs| == |WriteArrivals(ops)|
      && (s.wreqs != [] ==> Size(s.bufs) >= 32768)
  {
    if ops == [] {
      assert Readers(EMPTY) == [];
    } else {
      RunServesInOrder(ops[..|ops| - 1]);
      OpKeeps(Run(ops[..|ops| - 1]), ops[|ops| - 1]);
      var s, u := Run(ops[..|ops| - 1]), Run(ops);
      assert |u.taken + u.wreqs| == |s.taken + s.wreqs| + if ops[|ops| - 1].Write? then 1 else 0;
    }
  }

  predicate DistinctWriters(ws: seq<Writer>) {
    forall i, k :: 0 <= i < k < |ws| ==> ws[i] != ws[k]
  }

  lemma SameEnd(a: seq<Writer>, b: seq<Writer>, w: Writer)
    ensures a + [w] == b + [w] <==> a == b
  {
    if a + [w] == b + [w] {
      assert a == (a + [w])[..|a|] && b == (b + [w])[..|b|];
    }
  }

  /** The newcomer is last to arrive but not last in line. */
  lemma OvertakenIsLate(taken: seq<Writer>, waiting: seq<Writer>, was: seq<Writer>, w: Writer)
    requires waiting != [] && |taken| + |waiting| == |was| && DistinctWriters(was + [w])
    ensures taken + [w] + waiting != was + [w]
  {
    var arrived := was + [w];
    assert arrived[|taken|] != arrived[|was|];
    assert (taken + [w] + waiting)[|taken|] == w;
  }

  /** Writes are taken in the order they came if and only if nobody overtook. */
  lemma {:induction false} WritersInOrderIff(ops: seq<Op>)
    requires DistinctWriters(WriteArrivals(ops))
    ensures var s := Run(ops);
      s.taken + s.wreqs == WriteArrivals(ops) <==> !SomeOvertaking(ops)
  {
    if ops == [] {
      assert EMPTY.taken + EMPTY.wreqs == [];
    } else {
      var front, op := ops[..|ops| - 1], ops[|ops| - 1];
      var s, u := Run(front), Run(ops);
      var was, now := WriteArrivals(front), WriteArrivals(ops);
      assert now[..|was|] == was;
      assert DistinctWriters(was);
      WritersInOrderIff(front);
      OpKeeps(s, op);
      if op.Write? {
        RunServesInOrder(front);
        if Overtakes(s, op) {
          OvertakenIsLate(s.taken, s.wreqs, was, op.w);
        } else {
          SameEnd(s.taken + s.wreqs, was, op.w);
        }
      } else {
        assert now == was;
      }
    }
  }

  lemma RunOne(ops: seq<Op>, op: Op, more: seq<Op>)
    requires more == ops + [op]
    ensures Run(more) == OnOp(Run(ops), op)
    ensures SomeOvertaking(more) <==> SomeOvertaking(ops) || Overtakes(Run(ops), op)
    ensures WriteArrivals(more) == WriteArrivals(ops) + if op.Write? then [op.w] else []
  {
    assert more[..|more| - 1] == ops;
  }

  lemma OneByte(z: seq<bv8>)
    requires |z| == LIMIT
    ensures Size([Buf([0], 0)]) == 1 && Size([Buf([0], 0), Buf(z, 0)]) == LIMIT + 1 && Size([Buf(z, 0)]) == LIMIT
  {
    assert [Buf([0], 0)][1..] == [] && [Buf(z, 0)][1..] == [] && [Buf([0], 0), Buf(z, 0)][1..] == [Buf(z, 0)];
  }

  lemma FillPipe(a: Writer, b: Writer, c: Writer)
    requires a.data == [0] && |b.data| == LIMIT
    ensures OnOp(EMPTY, Write(a)) == State([Buf(a.data, 0)], [], [], [], [a])
    ensures OnOp(State([Buf(a.data, 0)], [], [], [], [a]), Write(b))
         == State([Buf(a.data, 0), Buf(b.data, 0)], [], [], [], [a, b])
    ensures OnOp(State([Buf(a.data, 0), Buf(b.data, 0)], [], [], [], [a, b]), Write(c))
         == State([Buf(a.data, 0), Buf(b.data, 0)], [], [c], [], [a, b])
  {
    OneByte(b.data);
    hide Size;
  }

  lemma DrainPipe(a: Writer, b: Writer, c: Writer, r: Reader)
    requires a.data == [0] && |b.data| == LIMIT && r.count == 1
    ensures OnOp(State([Buf(a.data, 0), Buf(b.data, 0)], [], [c], [], [a, b]), Read(r))
         == State([Buf(b.data, 0)], [], [c], [Reply(r.tag, [0])], [a, b])
  {
    OneByte(b.data);
    hide Size;
    var s := State([Buf(a.data, 0), Buf(b.data, 0)], [r], [c], [], [a, b]);
    assert a.data[0..1] == [0] && s.bufs[1..] == [Buf(b.data, 0)] && s.rreqs[1..] == [];
    assert Serve(s) == State([Buf(b.data, 0)], [], [c], [Reply(r.tag, [0])], [a, b]);
  }

  lemma RunNothing()
    ensures Run([]) == EMPTY && WriteArrivals([]) == []
  {
  }

  lemma FullAndWaiting(s: State, d: Writer)
    requires |s.bufs| == 1 && |s.bufs[0].data| == LIMIT && s.wreqs != []
    ensures Overtakes(s, Write(d))
  {
    assert s.bufs[1..] == [];
  }

  /** A write fills the pipe past the limit, the next one has to wait, one byte is read,
      and one more write comes. */
  function OvertakingRun(a: Writer, b: Writer, c: Writer, r: Reader, d: Writer): seq<Op> {
    [] + [Write(a)] + [Write(b)] + [Write(c)] + [Read(r)] + [Write(d)]
  }

  /** A run in which it happens: the last write is taken at once, the one before waits. */
  lemma OvertakingHappens(a: Writer, b: Writer, c: Writer, r: Reader, d: Writer)
    requires a.data == [0] && |b.data| == LIMIT && r.count == 1
    requires DistinctWriters([] + [a] + [b] + [c] + [d])
    ensures var ops := OvertakingRun(a, b, c, r, d);
      && WriteArrivals(ops) == [] + [a] + [b] + [c] + [d] && SomeOvertaking(ops)
      && Run(ops).taken + Run(ops).wreqs != WriteArrivals(ops)
  {
    hide OnOp, Overtakes, Run, SomeOvertaking, WriteArrivals, DistinctWriters;
    RunNothing();
    FillPipe(a, b, c);
    DrainPipe(a, b, c, r);
    var o1 := [] + [Write(a)];
    var o2 := o1 + [Write(b)];
    var o3 := o2 + [Write(c)];
    var o4 := o3 + [Read(r)];
    RunOne([], Write(a), o1);
    RunOne(o1, Write(b), o2);
    RunOne(o2, Write(c), o3);
    RunOne(o3, Read(r), o4);
    RunOne(o4, Write(d), o4 + [Write(d)]);
    FullAndWaiting(Run(o4), d);
    assert WriteArrivals(o4) == [] + [a] + [b] + [c];
    WritersInOrderIff(o4 + [Write(d)]);
  }

  // ---- how much a reader gets ------------------------------------------------------------

  /** One call answers the first reader, with as much as it asked for or with all that is
      left of the first buffer, whichever is less. */
  lemma PipeDoServes(s: State)
    requires Conserved(s) && s.rreqs != [] && s.bufs != []
    ensures var u, b, r := PipeDo(s), s.bufs[0], s.rreqs[0];
      && |u.replies| == |s.replies| + 1 && u.replies[..|s.replies|] == s.replies
      && var got := u.replies[|s.replies|];
        && got.tag == r.tag && got.data <= b.data[b.pos..]
        && |got.data| == if |b.data| - b.pos < r.count then |b.data| - b.pos else r.count
  {
    ServeConserves(s);
    hide Conserved;
    RefillKeeps(Serve(s));
  }

  /** The buffers are the last writes taken, and only the first has been read from. */
  ghost predicate Aligned(s: State) {
    && |s.bufs| <= |s.taken|
    && forall i :: 0 <= i < |s.bufs| ==>
         s.bufs[i].data == s.taken[|s.taken| - |s.bufs| + i].data && (i > 0 ==> s.bufs[i].pos == 0)
  }

  /** Reply i is no longer than what was asked for, and if it is shorter it ends where one of
      the writes ends. */
  ghost predicate Enough(replies: seq<Reply>, i: nat, count: nat, taken: seq<Writer>)
    requires i < |replies|
  {
    && |replies[i].data| <= count
    && (|replies[i].data| < count ==>
          exists m :: 0 <= m <= |taken| && Delivered(replies[..i + 1]) == Written(taken[..m]))
  }

  /** The readers asked for so far, answered in turn, each with enough. */
  ghost predicate Answering(s: State, asked: seq<Reader>) {
    && Conserved(s) && Aligned(s)
    && |asked| == |s.replies| + |s.rreqs| && asked[|s.replies|..] == s.rreqs
    && forall i :: 0 <= i < |s.replies| ==> Enough(s.replies, i, asked[i].count, s.taken)
  }

  lemma {:induction false} WrittenSplit(a: seq<Writer>, b: seq<Writer>)
    ensures Written(a + b) == Written(a) + Written(b)
  {
    if b == [] {
      assert a + b == a;
    } else {
      var n := |b| - 1;
      WrittenSplit(a, b[..n]);
      assert (a + b)[..|a + b| - 1] == a + b[..n];
      Regroup(Written(a), Written(b[..n]), b[n].data);
    }
  }

  lemma WrittenFirst(ws: seq<Writer>)
    requires ws != []
    ensures Written(ws) == ws[0].data + Written(ws[1..])
  {
    WrittenSplit([ws[0]], ws[1..]);
    assert [ws[0]] + ws[1..] == ws && [ws[0]][..0] == [];
  }

  lemma {:induction false} UnreadIsWritten(bufs: seq<Buf>, ws: seq<Writer>)
    requires BufsOk(bufs) && |bufs| == |ws|
    requires forall i :: 0 <= i < |bufs| ==> bufs[i].data == ws[i].data && bufs[i].pos == 0
    ensures Unread(bufs) == Written(ws)
  {
    if bufs != [] {
      UnreadIsWritten(bufs[1..], ws[1..]);
      WrittenFirst(ws);
      hide Written;
      assert bufs[0].data[0..] == bufs[0].data;
    }
  }

  lemma SameFront(a: seq<bv8>, b: seq<bv8>, c: seq<bv8>)
    requires a + c == b + c
    ensures a == b
  {
    assert |a| == |b| && a == (a + c)[..|a|] && b == (b + c)[..|b|];
  }

  lemma {:induction false} SizeIsWritten(bufs: seq<Buf>, ws: seq<Writer>)
    requires |bufs| == |ws| && forall i :: 0 <= i < |bufs| ==> bufs[i].data == ws[i].data
    ensures Size(bufs) == |Written(ws)|
  {
    if bufs != [] {
      SizeIsWritten(bufs[1..], ws[1..]);
      WrittenFirst(ws);
    }
  }

  /** The last writes taken are what the buffers hold. */
  lemma TailIsBuffered(s: State)
    requires Aligned(s) && BufsOk(s.bufs)
    ensures var tail := s.taken[|s.taken| - |s.bufs|..];
      && |tail| == |s.bufs| && (forall i :: 0 <= i < |s.bufs| ==> s.bufs[i].data == tail[i].data)
      && Size(s.bufs) == |Written(tail)|
      && ((s.bufs != [] ==> s.bufs[0].pos == 0) ==> Unread(s.bufs) == Written(tail))
      && Written(s.taken) == Written(s.taken[..|s.taken| - |s.bufs|]) + Written(tail)
  {
    var m := |s.taken| - |s.bufs|;
    assert s.taken[..m] + s.taken[m..] == s.taken;
    hide Written, Unread, Size;
    WrittenSplit(s.taken[..m], s.taken[m..]);
    SizeIsWritten(s.bufs, s.taken[m..]);
    if s.bufs != [] ==> s.bufs[0].pos == 0 { UnreadIsWritten(s.bufs, s.taken[m..]); }
  }

  /** Where no buffer has been begun, what was delivered ends with a write. */
  lemma AtWriteEnd(s: State)
    requires Conserved(s) && Aligned(s) && (s.bufs != [] ==> s.bufs[0].pos == 0)
    ensures Delivered(s.replies) == Written(s.taken[..|s.taken| - |s.bufs|])
  {
    hide Written, Delivered, Unread, Size, BufsOk;
    TailIsBuffered(s);
    SameFront(Delivered(s.replies), Written(s.taken[..|s.taken| - |s.bufs|]), Unread(s.bufs));
  }

  lemma EnoughStays(replies: seq<Reply>, i: nat, count: nat, taken: seq<Writer>, more: seq<Writer>)
    requires i < |replies| && Enough(replies, i, count, taken) && taken <= more
    ensures Enough(replies, i, count, more)
  {
    hide Delivered, Written;
    if |replies[i].data| < count {
      var m :| 0 <= m <= |taken| && Delivered(replies[..i + 1]) == Written(taken[..m]);
      assert more[..m] == taken[..m];
    }
  }

  lemma TakeKeepsAligned(s: State, w: Writer)
    requires Aligned(s)
    ensures Aligned(Take(s, w)) && Take(s, w).taken == s.taken + [w]
  {
  }

  lemma TakeAnswers(s: State, w: Writer, asked: seq<Reader>)
    requires Answering(s, asked)
    ensures Answering(Take(s, w), asked)
  {
    TakeConserves(s, w);
    TakeKeepsAligned(s, w);
    hide Conserved, Aligned, Enough;
    forall i | 0 <= i < |s.replies| ensures Enough(s.replies, i, asked[i].count, s.taken + [w]) {
      EnoughStays(s.replies, i, asked[i].count, s.taken, s.taken + [w]);
    }
  }

  lemma {:induction false} RefillAnswers(s: State, asked: seq<Reader>)
    requires Answering(s, asked)
    ensures Answering(Refill(s), asked)
    decreases |s.wreqs|
  {
    if Size(s.bufs) < LIMIT && s.wreqs != [] {
      TakeAnswers(s, s.wreqs[0], asked);
      var t := Take(s, s.wreqs[0]).(wreqs := s.wreqs[1..]);
      hide Enough, Size;
      assert Answering(t, asked);
      RefillAnswers(t, asked);
    }
  }

  lemma RestIsAligned(bufs: seq<Buf>, pos: nat, rest: seq<Buf>, taken: seq<Writer>)
    requires bufs != [] && |bufs| <= |taken|
    requires forall i :: 0 <= i < |bufs| ==>
      bufs[i].data == taken[|taken| - |bufs| + i].data && (i > 0 ==> bufs[i].pos == 0)
    requires rest == bufs[1..] || rest == [bufs[0].(pos := pos)] + bufs[1..]
    ensures |rest| <= |taken| && forall i :: 0 <= i < |rest| ==>
      rest[i].data == taken[|taken| - |rest| + i].data && (i > 0 ==> rest[i].pos == 0)
  {
    forall i | 0 <= i < |rest|
      ensures rest[i].data == taken[|taken| - |rest| + i].data && (i > 0 ==> rest[i].pos == 0)
    {
      if rest == bufs[1..] { assert rest[i] == bufs[i + 1]; }
    }
  }

  lemma ServeKeepsAligned(s: State)
    requires BufsOk(s.bufs) && Aligned(s) && s.rreqs != [] && s.bufs != []
    ensures Aligned(Serve(s)) && Serve(s).taken == s.taken
    ensures var b, n := s.bufs[0], Min(|s.bufs[0].data| - s.bufs[0].pos, s.rreqs[0].count);
      n < s.rreqs[0].count ==> Serve(s).bufs == s.bufs[1..] && (s.bufs[1..] != [] ==> s.bufs[1].pos == 0)
  {
    var b := s.bufs[0];
    RestIsAligned(s.bufs, b.pos + Min(|b.data| - b.pos, s.rreqs[0].count), Serve(s).bufs, s.taken);
  }

  lemma ReplyOf(s: State, asked: seq<Reader>)
    requires Answering(s, asked) && s.rreqs != [] && s.bufs != []
    ensures var u, n := Serve(s), |s.replies|;
      && asked[n] == s.rreqs[0] && |asked| == n + 1 + |u.rreqs| && asked[n + 1..] == u.rreqs
      && |u.replies| == n + 1 && u.replies[..n] == s.replies
      && |u.replies[n].data| == Min(|s.bufs[0].data| - s.bufs[0].pos, asked[n].count)
  {
    assert asked[|s.replies|..][0] == asked[|s.replies|] && asked[|s.replies| + 1..] == asked[|s.replies|..][1..];
    hide Enough, Aligned, Delivered, Unread, Written;
  }

  lemma OldReplyIsEnough(replies: seq<Reply>, more: seq<Reply>, i: nat, count: nat, taken: seq<Writer>)
    requires i < |replies| <= |more| && more[..|replies|] == replies && Enough(replies, i, count, taken)
    ensures Enough(more, i, count, taken)
  {
    assert more[..i + 1] == replies[..i + 1] && more[i] == replies[i];
  }

  lemma NewReplyIsEnough(s: State, asked: seq<Reader>)
    requires Answering(s, asked) && s.rreqs != [] && s.bufs != []
    ensures |Serve(s).replies| == |s.replies| + 1 && |s.replies| < |asked|
    ensures Enough(Serve(s).replies, |s.replies|, asked[|s.replies|].count, s.taken)
  {
    var u, n := Serve(s), |s.replies|;
    ReplyOf(s, asked);
    ServeConserves(s);
    ServeKeepsAligned(s);
    assert u.replies[..n + 1] == u.replies;
    hide Conserved, Aligned, Serve, Delivered, Written;
    if |u.replies[n].data| < asked[n].count { AtWriteEnd(u); }
  }

  lemma ServeAnswers(s: State, asked: seq<Reader>)
    requires Answering(s, asked) && s.rreqs != [] && s.bufs != []
    ensures Answering(Serve(s), asked)
  {
    var u, n := Serve(s), |s.replies|;
    ReplyOf(s, asked);
    NewReplyIsEnough(s, asked);
    ServeConserves(s);
    ServeKeepsAligned(s);
    hide Enough, Aligned, Conserved, Serve;
    forall i | 0 <= i < n ensures Enough(u.replies, i, asked[i].count, u.taken) {
      OldReplyIsEnough(s.replies, u.replies, i, asked[i].count, s.taken);
    }
  }

  lemma PipeDoAnswers(s: State, asked: seq<Reader>)
    requires Answering(s, asked)
    ensures Answering(PipeDo(s), asked)
  {
    if s.rreqs != [] && s.bufs != [] {
      ServeAnswers(s, asked);
      hide Answering, Serve;
      RefillAnswers(Serve(s), asked);
    }
  }

  function ReadRequests(ops: seq<Op>): seq<Reader> {
    if ops == [] then []
    else ReadRequests(ops[..|ops| - 1]) + if ops[|ops| - 1].Read? then [ops[|ops| - 1].r] else []
  }

  lemma ReadAsks(s: State, asked: seq<Reader>, r: Reader)
    requires Answering(s, asked)
    ensures Answering(s.(rreqs := s.rreqs + [r]), asked + [r])
  {
    assert (asked + [r])[|s.replies|..] == s.rreqs + [r];
    hide Enough;
    forall i | 0 <= i < |s.replies| ensures Enough(s.replies, i, (asked + [r])[i].count, s.taken) {
      assert (asked + [r])[i] == asked[i];
    }
  }

  lemma StillAnswering(s: State, wreqs: seq<Writer>, asked: seq<Reader>)
    requires Answering(s, asked)
    ensures Answering(s.(wreqs := wreqs), asked)
  {
  }

  lemma OpAnswers(s: State, asked: seq<Reader>, op: Op)
    requires Answering(s, asked)
    ensures BufsOk(s.bufs) && Answering(OnOp(s, op), asked + if op.Read? then [op.r] else [])
  {
    assert BufsOk(s.bufs) && asked + [] == asked;
    hide PipeDo, Answering;
    match op
    case Read(r) =>
      ReadAsks(s, asked, r);
      PipeDoAnswers(s.(rreqs := s.rreqs + [r]), asked + [r]);
    case Write(w) =>
      if Size(s.bufs) <= LIMIT {
        TakeAnswers(s, w, asked);
        PipeDoAnswers(Take(s, w), asked);
      } else {
        assert Answering(s.(wreqs := s.wreqs + [w]), asked) by { StillAnswering(s, s.wreqs + [w], asked); }
      }
  }

  lemma {:induction false} RunAnswers(ops: seq<Op>)
    ensures Answering(Run(ops), ReadRequests(ops))
  {
    if ops != [] {
      var front, op := ops[..|ops| - 1], ops[|ops| - 1];
      RunAnswers(front);
      hide OnOp, Answering;
      OpAnswers(Run(front), ReadRequests(front), op);
    }
  }

  /** Over any run, the i-th reply is no longer than the i-th read asked for, and a shorter
      one ends where a write ends. */
  lemma RepliesAreEnough(ops: seq<Op>, i: nat)
    requires i < |Run(ops).replies|
    ensures var s := Run(ops);
      && i < |ReadRequests(ops)|
      && |s.replies[i].data| <= ReadRequests(ops)[i].count
      && (|s.replies[i].data| < ReadRequests(ops)[i].count ==>
            exists m :: 0 <= m <= |s.taken| && Delivered(s.replies[..i + 1]) == Written(s.taken[..m]))
  {
    RunAnswers(ops);
    hide Run, Delivered, Written, ReadRequests;
    assert Enough(Run(ops).replies, i, ReadRequests(ops)[i].count, Run(ops).taken);
  }

  lemma {:induction false} UnreadIsPart(bufs: seq<Buf>)
    requires BufsOk(bufs)
    ensures |Unread(bufs)| <= Size(bufs)
  {
    if bufs != [] { UnreadIsPart(bufs[1..]); }
  }

  /** Over any run, what is accounted for are the writes taken whose last byte has not been
      delivered, each in full, however much of it has been. */
  lemma WholeWritesCount(ops: seq<Op>)
    ensures var s := Run(ops);
      && |s.bufs| <= |s.taken|
      && Size(s.bufs) == |Written(s.taken[|s.taken| - |s.bufs|..])|
      && |Written(s.taken[..|s.taken| - |s.bufs|])| <= |Delivered(s.replies)|
  {
    var s := Run(ops);
    hide Run, Written, Delivered, Size, Unread, Enough, BufsOk;
    RunAnswers(ops);
    TailIsBuffered(s);
    UnreadIsPart(s.bufs);
  }

  // ---- readers that are left waiting ----------------------------------------------------

  /** A reader waits although something is buffered. */
  predicate LeftWaiting(s: State) {
    s.rreqs != [] && s.bufs != []
  }

  lemma {:induction false} RefillEmpty(s: State)
    ensures Refill(s).bufs == [] <==> s.bufs == [] && s.wreqs == []
    decreases |s.wreqs|
  {
    if Size(s.bufs) < LIMIT && s.wreqs != [] {
      RefillEmpty(Take(s, s.wreqs[0]).(wreqs := s.wreqs[1..]));
    }
  }

  lemma PipeDoLeaves(s: State)
    requires Conserved(s)
    ensures LeftWaiting(PipeDo(s)) <==>
      |s.rreqs| >= 2 && s.bufs != [] &&
      (|s.bufs| >= 2 || s.wreqs != [] || |s.bufs[0].data| - s.bufs[0].pos > s.rreqs[0].count)
  {
    if s.rreqs != [] && s.bufs != [] {
      ServeConserves(s);
      hide Conserved;
      RefillKeeps(Serve(s));
      RefillEmpty(Serve(s));
    }
  }

  /** Two readers wait, and more comes than the first one asked for. */
  predicate TooMuchForOne(s: State, op: Op) {
    op.Write? && |s.rreqs| >= 2 && |op.w.data| > s.rreqs[0].count
  }

  /** A reader is first left waiting by such a write and by nothing else. */
  lemma OpLeaves(s: State, op: Op)
    requires Conserved(s) && (s.wreqs != [] ==> Size(s.bufs) >= LIMIT) && !LeftWaiting(s)
    ensures LeftWaiting(OnOp(s, op)) <==> TooMuchForOne(s, op)
  {
    match op
    case Read(r) =>
      PipeDoLeaves(s.(rreqs := s.rreqs + [r]));
    case Write(w) =>
      if Size(s.bufs) <= LIMIT {
        TakeConserves(s, w);
        hide Conserved;
        PipeDoLeaves(Take(s, w));
      }
  }

  predicate EverLeftWaiting(ops: seq<Op>) {
    LeftWaiting(Run(ops)) || (ops != [] && EverLeftWaiting(ops[..|ops| - 1]))
  }

  predicate SomeTooMuch(ops: seq<Op>) {
    ops != [] && (SomeTooMuch(ops[..|ops| - 1]) || TooMuchForOne(Run(ops[..|ops| - 1]), ops[|ops| - 1]))
  }

  /** Over any run: a reader waits while something is buffered at some point, if and only if
      at some point more was written than the first of two waiting readers asked for. */
  lemma {:induction false} LeftWaitingIff(ops: seq<Op>)
    ensures EverLeftWaiting(ops) <==> SomeTooMuch(ops)
  {
    if ops != [] {
      var front := ops[..|ops| - 1];
      LeftWaitingIff(front);
      assert Run(ops) == OnOp(Run(front), ops[|ops| - 1]);
      if !EverLeftWaiting(front) { OpLeaves(Run(front), ops[|ops| - 1]); }
    }
  }

  lemma TwoReadersWait(r: Reader, q: Reader)
    ensures OnOp(EMPTY, Read(r)) == State([], [r], [], [], [])
    ensures OnOp(State([], [r], [], [], []), Read(q)) == State([], [r, q], [], [], [])
  {
    assert [] + [r] == [r] && [r] + [q] == [r, q];
  }

  lemma TwoBytesCome(r: Reader, q: Reader, w: Writer)
    requires r.count == 1 && |w.data| == 2
    ensures OnOp(State([], [r, q], [], [], []), Write(w))
         == State([Buf(w.data, 1)], [q], [], [Reply(r.tag, [w.data[0]])], [w])
  {
    assert Size([]) == 0;
    hide Size;
    var t := State([Buf(w.data, 0)], [r, q], [], [], [w]);
    assert Take(State([], [r, q], [], [], []), w) == t;
    assert w.data[0..1] == [w.data[0]] && [r, q][1..] == [q];
    assert Serve(t) == State([Buf(w.data, 1)], [q], [], [Reply(r.tag, [w.data[0]])], [w]);
  }

  /** Such a run: of two one-byte reads and a two-byte write, the second reader is left
      with the second byte unread. */
  lemma SecondReaderWaits(r: Reader, q: Reader, w: Writer)
    requires r.count == 1 && q.count == 1 && |w.data| == 2
    ensures var ops := [] + [Read(r)] + [Read(q)] + [Write(w)];
      && Run(ops) == State([Buf(w.data, 1)], [q], [], [Reply(r.tag, [w.data[0]])], [w])
      && LeftWaiting(Run(ops))
  {
    hide OnOp, Run;
    RunNothing();
    TwoReadersWait(r, q);
    TwoBytesCome(r, q, w);
    var o1 := [] + [Read(r)];
    var o2 := o1 + [Read(q)];
    RunOne([], Read(r), o1);
    RunOne(o1, Read(q), o2);
    RunOne(o2, Write(w), o2 + [Write(w)]);
  }

  // ---- the program --------------------------------------------------------------------

  class Pipe {
    var size: nat
    var bufs: seq<Buf>
    var rreqs: seq<Reader>
    var wreqs: seq<Writer>
    var replies: seq<Reply>
    var taken: seq<Writer>

    ghost function Value(): State
      reads this
    {
      State(bufs, rreqs, wreqs, replies, taken)
    }

    ghost predicate Valid()
      reads this
    {
      BufsOk(bufs) && size == Size(bufs)
    }

    constructor ()
      ensures Valid() && Value() == EMPTY
    {
      size, bufs, rreqs, wreqs, replies, taken := 0, [], [], [], [], [];
    }

    method BufAdd(w: Writer)
      requires Valid()
      modifies this
      ensures Valid() && Value() == Take(old(Value()), w)
    {
      UnreadAppend(bufs, w.data);
      bufs := bufs + [Buf(w.data, 0)];
      size := size + |w.data|;
      taken := taken + [w];
    }

    /** One reader is answered from the first buffer. */
    method ServeOne()
      requires Valid() && rreqs != [] && bufs != []
      modifies this
      ensures Valid() && Value() == Serve(old(Value()))
    {
      var r, buf := rreqs[0], bufs[0];
      var n := |buf.data| - buf.pos;
      if n > r.count { n := r.count; }
      replies := replies + [Reply(r.tag, buf.data[buf.pos..buf.pos + n])];
      buf := buf.(pos := buf.pos + n);
      rreqs := rreqs[1..];
      if buf.pos >= |buf.data| {
        bufs := bufs[1..];
        size := size - |buf.data|;
      } else {
        assert ([buf] + bufs[1..])[1..] == bufs[1..];
        bufs := [buf] + bufs[1..];
      }
    }

    /** pipe_do. */
    method Do()
      requires Valid()
      modifies this
      ensures Valid() && Value() == PipeDo(old(Value()))
    {
      if rreqs == [] || bufs == [] { return; }
      ServeOne();
      hide Serve;
      while size < LIMIT && wreqs != []
        invariant Valid() && Refill(Value()) == PipeDo(old(Value()))
        decreases |wreqs|
      {
        var w := wreqs[0];
        BufAdd(w);
        wreqs := wreqs[1..];
      }
    }

    method DoRead(r: Reader)
      requires Valid()
      modifies this
      ensures Valid() && Value() == OnOp(old(Value()), Read(r))
    {
      rreqs := rreqs + [r];
      Do();
    }

    /** pipefs_write: accepted is false when the answer is put off. */
    method DoWrite(w: Writer) returns (accepted: bool)
      requires Valid()
      modifies this
      ensures Valid() && Value() == OnOp(old(Value()), Write(w))
      ensures accepted <==> Size(old(bufs)) <= 32768
    {
      if size > LIMIT {
        wreqs := wreqs + [w];
        return false;
      }
      BufAdd(w);
      Do();
      accepted := true;
    }
  }
}
