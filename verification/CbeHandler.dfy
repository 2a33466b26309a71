/** One call of the completion handler, the slots it can lose, and whole runs. */
module CbeHandler {
  import opened CbeSlots
  import opened Basics

  // ---- one call of the handler -----------------------------------------------------

  /** What answers may do to a slot: nothing, or turn it from working to writing. */
  ghost predicate Answered(a: State, b: State, i: nat) {
    && i < |a.slots| && |b.slots| == |a.slots|
    && (b.slots[i] == a.slots[i] || (a.slots[i].phase == Working && b.slots[i] == a.slots[i].(phase := Writing)))
    && (i in b.flight ==> i in a.flight || (b.slots[i].phase == Writing && a.slots[i].phase == Working))
    && (b.slots[i] != a.slots[i] ==> i in b.flight)
  }

  lemma {:induction false} AnswersKeep(s: State, rs: seq<nat>)
    requires Inv(s)
    ensures Inv(OnAnswers(s, rs)) && OnAnswers(s, rs).made == s.made
    ensures forall i :: 0 <= i < SLOTS ==> Answered(s, OnAnswers(s, rs), i)
    ensures OnAnswers(s, rs).live == s.live
    ensures s.flight <= OnAnswers(s, rs).flight
    decreases |rs|
  {
    if rs != [] {
      AnswersKeep(s, rs[..|rs| - 1]);
      var m := OnAnswers(s, rs[..|rs| - 1]);
      AnswerKeeps(m, rs[|rs| - 1]);
      forall i | 0 <= i < SLOTS ensures Answered(s, OnAnswers(s, rs), i) {
        assert Answered(s, m, i);
        assert Answered(m, OnAnswers(s, rs), i);
      }
    }
  }

  /** Answers turn exactly the slots that work on an answered request to writing, and start
      the transfers of their replies. */
  lemma {:induction false} AnswersAre(s: State, rs: seq<nat>, i: nat)
    requires Inv(s) && i < SLOTS
    ensures var t, answered := OnAnswers(s, rs), s.slots[i].phase == Working && s.slots[i].req in rs;
      && |t.slots| == SLOTS
      && t.slots[i] == (if answered then s.slots[i].(phase := Writing) else s.slots[i])
      && (i in t.flight <==> i in s.flight || answered)
    decreases |rs|
  {
    if rs != [] {
      var front, r := rs[..|rs| - 1], rs[|rs| - 1];
      AnswersAre(s, front, i);
      AnswersKeep(s, front);
      assert rs == front + [r];
      var m := OnAnswers(s, front);
      hide OnAnswers, Listed, NoRepeats;
      assert Matched(m) && Matched(s);
    }
  }

  /** The completions name only slots whose transfer had been started. */
  ghost predicate Honest(s: State, c: Completion) { CompletionOk(c) && c.mask <= s.flight }

  /** Each completion names a slot whose transfer can have been started. */
  ghost predicate Names(s: State, c: Completion) {
    CompletionOk(c) && |s.slots| == SLOTS && forall k :: k in c.mask ==> k < SLOTS && Moving(s.slots[k])
  }

  /** The handler acted on the end of slot i's transfer: a stored reply ends its request,
      a fetched one is with the server or already answered. */
  ghost predicate Handled(a: State, b: State, i: nat) {
    && i < |a.slots| && |b.slots| == |a.slots|
    && if a.slots[i].phase == Writing then b.slots[i] == a.slots[i].(phase := Free)
       else
         b.slots[i] == a.slots[i].(phase := Working) ||
         (b.slots[i] == a.slots[i].(phase := Writing) && i in b.flight)
  }

  /** The tags of the requests below slot n whose replies have been stored. */
  ghost function Ended(s: State, n: nat, mask: set<nat>): set<nat>
    requires n <= |s.slots|
  {
    set k: nat | k < n && k in mask && s.slots[k].phase == Writing :: Bit(s, k)
  }

  /** The request is open and has the tag its packet names. */
  ghost predicate Tagged(s: State, r: nat, p: Packet) {
    r in s.live && p.fcall == Some(s.live[r].tag)
  }

  /** What n visits have done: the named slots below n moved on, all others are as they
      were but for answers, and the signal holds the tag of each ended request. */
  ghost predicate VisitedTo(s: State, n: nat, c: Completion, p: Pass)
    requires n <= SLOTS && |s.slots| == SLOTS && |p.s.slots| == SLOTS && CompletionOk(c)
  {
    && (forall k :: 0 <= k < SLOTS ==>
          if k in c.mask && k < n then Handled(s, p.s, k)
          else Answered(s.(flight := s.flight - c.mask), p.s, k))
    && p.s.made == s.made && p.s.told == s.told
    && s.flight - c.mask <= p.s.flight
    && p.sig == Ended(s, n, c.mask)
    && (forall k: nat :: k < n && k in c.mask && s.slots[k].phase == Reading ==>
          Tagged(p.s, s.slots[k].req, c.packets[k]))
    && (forall k :: 0 <= k < SLOTS && s.slots[k].phase == Writing && p.s.slots[k].phase == Writing ==>
          Bit(p.s, k) == Bit(s, k))
  }

  predicate Refused(s: State, c: Completion, b: nat)
    requires |s.slots| == SLOTS && CompletionOk(c)
  {
    && b < SLOTS && b in c.mask && s.slots[b].phase == Reading
    && (c.packets[b].size > c.msize || c.packets[b].fcall == None)
  }

  ghost predicate AllAccepted(s: State, n: nat, c: Completion)
    requires n <= SLOTS && |s.slots| == SLOTS && CompletionOk(c)
  {
    forall k :: 0 <= k < n ==> !Refused(s, c, k)
  }

  /** The first slot below n whose packet is refused, or n. */
  function FirstRefused(s: State, c: Completion, n: nat): (b: nat)
    requires n <= SLOTS && |s.slots| == SLOTS && CompletionOk(c)
    ensures b <= n && AllAccepted(s, b, c) && (b < n ==> Refused(s, c, b))
  {
    if n == 0 then 0
    else
      var b := FirstRefused(s, c, n - 1);
      if b < n - 1 || Refused(s, c, n - 1) then b else n
  }

  /** The visits up to n went through, or stopped at the first refused packet. */
  ghost predicate Tidy(s: State, n: nat, c: Completion, p: Pass)
    requires n <= SLOTS && |s.slots| == SLOTS && CompletionOk(c)
  {
    && |p.s.slots| == SLOTS && Inv(p.s)
    && if p.clean then VisitedTo(s, n, c, p) && AllAccepted(s, n, c)
       else exists b: nat :: b < n && Refused(s, c, b) && AllAccepted(s, b, c) && VisitedTo(s, b, c, p.(clean := true))
  }

  lemma StartTidy(s: State, c: Completion)
    requires Inv(s) && Honest(s, c)
    ensures Tidy(s, 0, c, Visits(s, 0, c))
  {
    var p := Visits(s, 0, c);
    forall r ensures r in p.s.ireqs <==> In(p.s, r, Reading) { assert r in s.ireqs <==> In(s, r, Reading); }
    forall r ensures r in p.s.oreqs <==> In(p.s, r, Writing) { assert r in s.oreqs <==> In(s, r, Writing); }
  }

  lemma AnsweredTwice(a: State, b: State, c: State, i: nat)
    requires Answered(a, b, i) && Answered(b, c, i) && b.flight <= c.flight
    ensures Answered(a, c, i)
  {
  }

  lemma HandledThenAnswered(a: State, b: State, c: State, i: nat)
    requires Handled(a, b, i) && Answered(b, c, i) && b.flight <= c.flight
    ensures Handled(a, c, i)
  {
  }

  ghost predicate OthersLive(a: State, b: State, r: nat) {
    forall x :: x in a.live && x != r ==> x in b.live && b.live[x] == a.live[x]
  }

  /** A slot handled before holds another request than the one at n. */
  lemma OtherRequest(s: State, n: nat, c: Completion, p: Pass, k: nat)
    requires Names(s, c) && n < SLOTS && Inv(p.s) && VisitedTo(s, n, c, p)
    requires k < n && k in c.mask && s.slots[k].phase == Reading && n in c.mask
    ensures s.slots[k].req != s.slots[n].req
  {
    assert Handled(s, p.s, k) && Answered(s.(flight := s.flight - c.mask), p.s, n);
    assert p.s.slots[k].req == s.slots[k].req && p.s.slots[n].req == s.slots[n].req;
  }

  lemma VisitReadingKeeps(s: State, n: nat, c: Completion, p: Pass)
    requires Names(s, c) && n < SLOTS && Inv(p.s) && VisitedTo(s, n, c, p) && p.clean
    requires n in c.mask && s.slots[n].phase == Reading && Accepted(c.packets[n], c.msize)
    ensures var q := Visit(p, n, c);
      && Inv(q.s) && q.clean && q.sig == p.sig
      && q.s.made == p.s.made && q.s.told == p.s.told && p.s.flight <= q.s.flight
      && (forall k :: 0 <= k < SLOTS ==> if k == n then Handled(s, q.s, k) else Answered(p.s, q.s, k))
      && (forall k :: 0 <= k < SLOTS && p.s.slots[k].phase == Writing ==> Bit(q.s, k) == Bit(p.s, k))
      && OthersLive(p.s, q.s, s.slots[n].req) && Tagged(q.s, s.slots[n].req, c.packets[n])
  {
    var tag := c.packets[n].fcall.value;
    assert Answered(s.(flight := s.flight - c.mask), p.s, n);
    FetchedKeeps(p.s, n, tag);
    var f := Fetched(p.s, n, tag);
    AnswersKeepLength(f, c.answers[n]);
    AnswersKeep(f, c.answers[n]);
    var q := Visit(p, n, c);
    forall k | 0 <= k < SLOTS
      ensures if k == n then Handled(s, q.s, k) else Answered(p.s, q.s, k)
    {
      assert Answered(f, q.s, k);
    }
    forall k | 0 <= k < SLOTS && p.s.slots[k].phase == Writing ensures Bit(q.s, k) == Bit(p.s, k) {
      assert Answered(f, q.s, k) && f.slots[k] == p.s.slots[k];
      assert p.s.live[p.s.slots[k].req].slot == k;
    }
  }

  lemma VisitReading(s: State, n: nat, c: Completion, p: Pass)
    requires Names(s, c) && n < SLOTS && Tidy(s, n, c, p) && p.clean
    requires n in c.mask && s.slots[n].phase == Reading && Accepted(c.packets[n], c.msize)
    ensures Tidy(s, n + 1, c, Visit(p, n, c))
  {
    VisitReadingKeeps(s, n, c, p);
    var q := Visit(p, n, c);
    var s0 := s.(flight := s.flight - c.mask);
    hide Visit, Inv;
    forall k: nat | k < n && k in c.mask && s.slots[k].phase == Reading
      ensures Tagged(q.s, s.slots[k].req, c.packets[k])
    {
      OtherRequest(s, n, c, p, k);
    }
    forall k | 0 <= k < SLOTS
      ensures if k in c.mask && k < n + 1 then Handled(s, q.s, k) else Answered(s0, q.s, k)
      ensures s.slots[k].phase == Writing && q.s.slots[k].phase == Writing ==> Bit(q.s, k) == Bit(s, k)
    {
      if k != n {
        if k in c.mask && k < n {
          HandledThenAnswered(s, p.s, q.s, k);
        } else {
          AnsweredTwice(s0, p.s, q.s, k);
          assert s.slots[k].phase == Writing ==> p.s.slots[k].phase == Writing;
        }
      }
    }
    assert Ended(s, n + 1, c.mask) == Ended(s, n, c.mask);
    hide Handled, Answered, Tagged, Bit, Ended, Accepted;
    assert VisitedTo(s, n + 1, c, q);
  }

  lemma VisitWritingKeeps(s: State, n: nat, c: Completion, p: Pass)
    requires Names(s, c) && n < SLOTS && Inv(p.s) && VisitedTo(s, n, c, p) && p.clean
    requires n in c.mask && s.slots[n].phase == Writing
    ensures var q := Visit(p, n, c);
      && Inv(q.s) && q.clean && q.sig == p.sig + {Bit(s, n)}
      && q.s.made == p.s.made && q.s.told == p.s.told && p.s.flight == q.s.flight
      && Handled(s, q.s, n)
      && (forall k :: 0 <= k < SLOTS && k != n ==> p.s.slots[k] == q.s.slots[k])
      && (forall k :: 0 <= k < SLOTS && p.s.slots[k].phase == Writing && q.s.slots[k].phase == Writing ==>
            Bit(q.s, k) == Bit(p.s, k))
      && OthersLive(p.s, q.s, s.slots[n].req)
  {
    assert Answered(s.(flight := s.flight - c.mask), p.s, n);
    StoredKeeps(p.s, n);
  }

  lemma VisitWriting(s: State, n: nat, c: Completion, p: Pass)
    requires Names(s, c) && n < SLOTS && Tidy(s, n, c, p) && p.clean
    requires n in c.mask && s.slots[n].phase == Writing
    ensures Tidy(s, n + 1, c, Visit(p, n, c))
  {
    VisitWritingKeeps(s, n, c, p);
    var q := Visit(p, n, c);
    hide Visit, Inv;
    forall k: nat | k < n && k in c.mask && s.slots[k].phase == Reading
      ensures Tagged(q.s, s.slots[k].req, c.packets[k])
    {
      OtherRequest(s, n, c, p, k);
    }
    assert VisitedTo(s, n + 1, c, q) by {
      forall k | 0 <= k < SLOTS
        ensures if k in c.mask && k < n + 1 then Handled(s, q.s, k)
                else Answered(s.(flight := s.flight - c.mask), q.s, k)
      {
        assert k != n && !(k in c.mask && k < n) ==> Answered(s.(flight := s.flight - c.mask), p.s, k);
      }
      assert Ended(s, n + 1, c.mask) == Ended(s, n, c.mask) + {Bit(s, n)};
    }
  }

  lemma BadPacketTidy(s: State, n: nat, c: Completion, p: Pass)
    requires Names(s, c) && n < SLOTS && Tidy(s, n, c, p) && p.clean
    requires n in c.mask && Refused(s, c, n)
    ensures Tidy(s, n + 1, c, Visit(p, n, c))
  {
    hide Inv;
    assert Answered(s.(flight := s.flight - c.mask), p.s, n);
    assert Visit(p, n, c).(clean := true) == p;
  }

  lemma SkipTidy(s: State, n: nat, c: Completion, p: Pass)
    requires Names(s, c) && n < SLOTS && Tidy(s, n, c, p) && p.clean && n !in c.mask
    ensures Tidy(s, n + 1, c, Visit(p, n, c))
  {
    hide Inv;
    assert Ended(s, n + 1, c.mask) == Ended(s, n, c.mask);
  }

  lemma VisitTidy(s: State, n: nat, c: Completion, p: Pass)
    requires Names(s, c) && n < SLOTS && Tidy(s, n, c, p)
    ensures Tidy(s, n + 1, c, if p.clean && !p.s.aborted then Visit(p, n, c) else p)
  {
    assert !p.s.aborted;
    hide Inv, Visit, Accepted, VisitedTo;
    if p.clean {
      if n !in c.mask {
        SkipTidy(s, n, c, p);
      } else if s.slots[n].phase == Writing {
        VisitWriting(s, n, c, p);
      } else if Accepted(c.packets[n], c.msize) {
        VisitReading(s, n, c, p);
      } else {
        BadPacketTidy(s, n, c, p);
      }
    }
  }

  lemma VisitsAre(s: State, n: nat, c: Completion)
    requires CompletionOk(c) && 1 <= n <= SLOTS && |s.slots| == SLOTS
    ensures var p := Visits(s, n - 1, c);
      Visits(s, n, c) == if p.clean && !p.s.aborted then Visit(p, n - 1, c) else p
  {
  }

  lemma HonestNames(s: State, c: Completion)
    requires Inv(s) && Honest(s, c)
    ensures Names(s, c)
  {
  }

  lemma {:induction false} VisitsTidy(s: State, n: nat, c: Completion)
    requires Inv(s) && Honest(s, c) && n <= SLOTS
    ensures Tidy(s, n, c, Visits(s, n, c))
  {
    assert CompletionOk(c) && |s.slots| == SLOTS;
    hide *;
    if n == 0 {
      StartTidy(s, c);
    } else {
      HonestNames(s, c);
      VisitsTidy(s, n - 1, c);
      VisitTidy(s, n - 1, c, Visits(s, n - 1, c));
      VisitsAre(s, n, c);
    }
  }

  lemma CompleteKeeps(s: State, c: Completion)
    requires Inv(s) && Honest(s, c)
    ensures Inv(OnComplete(s, c)) && OnComplete(s, c).made == s.made
  {
    VisitsTidy(s, SLOTS, c);
    var p := Visits(s, SLOTS, c);
    var t := OnComplete(s, c);
    forall r ensures r in t.ireqs <==> In(t, r, Reading) { assert r in p.s.ireqs <==> In(p.s, r, Reading); }
    forall r ensures r in t.oreqs <==> In(t, r, Writing) { assert r in p.s.oreqs <==> In(p.s, r, Writing); }
  }

  /** Unless a packet is refused, every slot named moves on, no other slot does but by an
      answer, and the SPE is told the tags of exactly the requests that ended. */
  lemma CompleteEffect(s: State, c: Completion)
    requires Inv(s) && Honest(s, c) && AllAccepted(s, SLOTS, c)
    ensures forall k :: 0 <= k < SLOTS && k in c.mask ==> Handled(s, OnComplete(s, c), k)
    ensures forall k :: 0 <= k < SLOTS && k !in c.mask ==> Answered(s, OnComplete(s, c), k)
    ensures forall k: nat :: k < SLOTS && k in c.mask && s.slots[k].phase == Reading ==>
              Tagged(OnComplete(s, c), s.slots[k].req, c.packets[k])
    ensures OnComplete(s, c).told ==
      if Ended(s, SLOTS, c.mask) == {} then s.told else s.told + [Ended(s, SLOTS, c.mask)]
  {
    VisitsTidy(s, SLOTS, c);
    var p := Visits(s, SLOTS, c);
    hide Visits, Ended, Refused;
    forall k | 0 <= k < SLOTS && k !in c.mask ensures Answered(s, OnComplete(s, c), k) {
      assert Answered(s.(flight := s.flight - c.mask), p.s, k);
    }
  }

  /** What the SPE is told, in the fields of the state before: the tags of the requests in
      the named slots that were writing, NOTAG as 0; nothing if there is none. */
  lemma CompleteTells(s: State, c: Completion)
    requires Inv(s) && Honest(s, c) && AllAccepted(s, SLOTS, c)
    ensures forall k :: 0 <= k < SLOTS && s.slots[k].phase == Writing ==> s.slots[k].req in s.live
    ensures var tags := set k: nat | k < SLOTS && k in c.mask && s.slots[k].phase == Writing ::
        if s.live[s.slots[k].req].tag == 0xFFFF then 0 else s.live[s.slots[k].req].tag;
      OnComplete(s, c).told == s.told + if tags == {} then [] else [tags]
  {
    CompleteEffect(s, c);
    hide OnComplete;
    assert Ended(s, SLOTS, c.mask) == set k: nat | k < SLOTS && k in c.mask && s.slots[k].phase == Writing ::
        if s.live[s.slots[k].req].tag == NOTAG then 0 else s.live[s.slots[k].req].tag;
    assert s.told + [] == s.told;
  }

  // ---- replies that nobody is told of --------------------------------------------------

  /** A call that stops at a refused packet has acted on the named slots below it, and tells
      the SPE nothing of it. */
  lemma RefusedEffect(s: State, c: Completion, b: nat)
    requires Inv(s) && Honest(s, c) && b < SLOTS && Refused(s, c, b) && AllAccepted(s, b, c)
    ensures forall k :: 0 <= k < b && k in c.mask ==> Handled(s, OnComplete(s, c), k)
    ensures forall k :: 0 <= k < SLOTS && !(k in c.mask && k < b) ==>
              Answered(s.(flight := s.flight - c.mask), OnComplete(s, c), k)
    ensures OnComplete(s, c).told == s.told
  {
    VisitsTidy(s, SLOTS, c);
    var p := Visits(s, SLOTS, c);
    hide Visits, Ended, Handled, Answered, Tagged, Inv;
    assert !p.clean;
    var n: nat :| n < SLOTS && Refused(s, c, n) && AllAccepted(s, n, c) && VisitedTo(s, n, c, p.(clean := true));
    assert n == b;
  }

  lemma FreedIsEnded(s: State, t: State, c: Completion, n: nat, k: nat)
    requires Inv(s) && Inv(t) && Honest(s, c) && k < SLOTS && s.slots[k].phase == Writing && t.slots[k].phase == Free
    requires forall i :: 0 <= i < SLOTS ==>
      if i in c.mask && i < n then Handled(s, t, i) else Answered(s.(flight := s.flight - c.mask), t, i)
    ensures s.slots[k].req !in t.live
  {
    forall i | 0 <= i < SLOTS
      ensures t.slots[i].req == s.slots[i].req && (t.slots[i].phase != Free ==> s.slots[i].phase != Free)
    {
      assert if i in c.mask && i < n then Handled(s, t, i) else Answered(s.(flight := s.flight - c.mask), t, i);
    }
  }

  /** A request whose reply has been stored ends, and the SPE is not told, if and only if no
      packet below its slot is refused and one above it is. */
  lemma UntoldIff(s: State, c: Completion, k: nat)
    requires Inv(s) && Honest(s, c) && k < SLOTS && k in c.mask && s.slots[k].phase == Writing
    ensures s.slots[k].req !in OnComplete(s, c).live <==> AllAccepted(s, k, c)
    ensures OnComplete(s, c).told == s.told <==> !AllAccepted(s, SLOTS, c)
  {
    var t := OnComplete(s, c);
    var n := FirstRefused(s, c, SLOTS);
    CompleteKeeps(s, c);
    if n == SLOTS { CompleteEffect(s, c); } else { RefusedEffect(s, c, n); }
    assert Bit(s, k) in Ended(s, SLOTS, c.mask);
    assert n == SLOTS ==> t.told != s.told;
    hide OnComplete, Ended, Tagged, Bit;
    forall i | 0 <= i < SLOTS
      ensures if i in c.mask && i < n then Handled(s, t, i) else Answered(s.(flight := s.flight - c.mask), t, i)
    {
      if n == SLOTS && i !in c.mask { assert Answered(s, t, i); }
    }
    if k < n {
      assert Handled(s, t, k);
      FreedIsEnded(s, t, c, n, k);
    } else {
      assert Answered(s.(flight := s.flight - c.mask), t, k);
      assert t.slots[k].req in t.live;
    }
  }

  lemma {:induction false} OnlyNamedAreVisited(s: State, m: nat, n: nat, c: Completion)
    requires CompletionOk(c) && m <= n <= SLOTS && |s.slots| == SLOTS && forall k :: m <= k < n ==> k !in c.mask
    ensures Visits(s, n, c) == Visits(s, m, c)
  {
    if m < n { OnlyNamedAreVisited(s, m, n - 1, c); }
  }

  lemma VisitedAt(s: State, n: nat, c: Completion, p: Pass)
    requires Inv(s) && Honest(s, c) && n < SLOTS && Tidy(s, n, c, p) && p.clean && n in c.mask
    ensures n !in p.s.flight && (p.s.slots[n].phase == Reading ==> s.slots[n] == p.s.slots[n])
    ensures AllAccepted(s, n, c)
  {
    assert Answered(s.(flight := s.flight - c.mask), p.s, n);
  }

  /** Of a call that names one slot with an accepted packet: the request is answered at once if
      the server does so, and else is with the server. */
  lemma FetchedThenAnswered(p: Pass, k: nat, c: Completion)
    requires CompletionOk(c) && k < SLOTS && Inv(p.s) && k in c.mask && k !in p.s.flight
    requires p.s.slots[k].phase == Reading && Accepted(c.packets[k], c.msize)
    ensures Visit(p, k, c).clean == p.clean && Visit(p, k, c).s.slots[k].phase ==
      if p.s.slots[k].req in c.answers[k] then Writing else Working
  {
    var tag := c.packets[k].fcall.value;
    FetchedKeeps(p.s, k, tag);
    AnswersAre(Fetched(p.s, k, tag), c.answers[k], k);
    hide OnAnswers;
  }

  lemma OneFetched(s: State, c: Completion, k: nat)
    requires Inv(s) && Honest(s, c) && k < SLOTS && c.mask == {k} && s.slots[k].phase == Reading
    requires AllAccepted(s, SLOTS, c)
    ensures OnComplete(s, c).slots[k].phase == (if s.slots[k].req in c.answers[k] then Writing else Working)
  {
    OnlyNamedAreVisited(s, 0, k, c);
    OnlyNamedAreVisited(s, k + 1, SLOTS, c);
    VisitsAre(s, k + 1, c);
    var p := Visits(s, 0, c);
    assert p.clean && !p.s.aborted && p.s.slots == s.slots && k !in p.s.flight;
    VisitsTidy(s, 0, c);
    assert Inv(p.s);
    assert !Refused(s, c, k) && Accepted(c.packets[k], c.msize);
    hide Inv, Visits, Visit, Tidy;
    FetchedThenAnswered(p, k, c);
  }

  // ---- slots that are lost ---------------------------------------------------------

  /** In the middle of a transfer that has already ended: nothing will end it again. */
  ghost predicate Lost(s: State, i: nat) { i < |s.slots| && Moving(s.slots[i]) && i !in s.flight }

  /** Exactly the slots named in the call from the first refused packet on are lost. */
  lemma LostIffRefused(s: State, c: Completion, i: nat)
    requires Inv(s) && Honest(s, c) && i < SLOTS && !Lost(s, i)
    ensures Lost(OnComplete(s, c), i) <==> i in c.mask && exists b: nat :: b <= i && Refused(s, c, b)
  {
    VisitsTidy(s, SLOTS, c);
    var p := Visits(s, SLOTS, c);
    hide Visits, Ended;
    var n: nat := SLOTS;
    if !p.clean {
      n :| n < SLOTS && Refused(s, c, n) && AllAccepted(s, n, c) && VisitedTo(s, n, c, p.(clean := true));
    }
    if i in c.mask && i < n {
      assert Handled(s, p.s, i);
    } else {
      assert Answered(s.(flight := s.flight - c.mask), p.s, i);
    }
  }

  // ---- runs ------------------------------------------------------------------------

  datatype Event = Message | Answer(req: nat) | Done(c: Completion)

  function On(s: State, e: Event): State
    requires |s.slots| == SLOTS && (e.Done? ==> CompletionOk(e.c))
  {
    match e
    case Message => OnMessage(s)
    case Answer(r) => OnAnswer(s, r)
    case Done(c) => OnComplete(s, c)
  }

  /** The SPE keeps at most eight requests open, and completions are of transfers that
      were started. */
  ghost predicate Allowed(s: State, e: Event) {
    match e
    case Message => |s.live| < SLOTS
    case Answer(r) => true
    case Done(c) => Honest(s, c)
  }

  function Used(slots: seq<Slot>): set<nat> {
    set i: nat | i < |slots| && slots[i].phase != Free
  }

  function Below(n: nat): (r: set<nat>)
    ensures |r| == n && forall i: nat :: i in r <==> i < n
  {
    if n == 0 then {} else Below(n - 1) + {n - 1}
  }

  lemma FreeIffNotAll(slots: seq<Slot>)
    ensures var used := Used(slots);
      |used| <= |slots| && (FirstFree(slots) < |slots| <==> |used| < |slots|)
  {
    hide FirstFree, Below;
    var used := Used(slots);
    SubsetSize(used, Below(|slots|));
    if FirstFree(slots) < |slots| {
      assert FirstFree(slots) in Below(|slots|) && FirstFree(slots) !in used;
    } else {
      assert used == Below(|slots|);
    }
  }

  lemma {:induction false} SameSize(rs: set<nat>, used: set<nat>, live: map<nat, Request>)
    requires rs <= live.Keys && used == set r | r in rs :: live[r].slot
    requires forall q, r :: q in rs && r in rs && live[q].slot == live[r].slot ==> q == r
    ensures |rs| == |used|
  {
    if rs == {} {
      assert used == {};
    } else {
      var r :| r in rs;
      var less := used - {live[r].slot};
      assert less == set q | q in rs - {r} :: live[q].slot;
      SameSize(rs - {r}, less, live);
      assert used == less + {live[r].slot};
    }
  }

  lemma UsedAreLive(s: State)
    requires Inv(s)
    ensures |s.live| == |Used(s.slots)|
  {
    var used := Used(s.slots);
    forall i | i in used ensures i in set r | r in s.live :: s.live[r].slot {
      assert s.slots[i].req in s.live;
    }
    assert used == set r | r in s.live :: s.live[r].slot;
    SameSize(s.live.Keys, used, s.live);
    assert s.live.Keys == set r | r in s.live;
  }

  /** The assertion that a slot is free holds exactly while fewer than eight requests
      are open. */
  lemma FreeSlotIff(s: State)
    requires Inv(s)
    ensures |s.live| <= SLOTS == 8
    ensures FirstFree(s.slots) < SLOTS <==> |s.live| < SLOTS
    ensures OnMessage(s).aborted <==> |s.live| == SLOTS
  {
    UsedAreLive(s);
    assert |s.slots| == SLOTS && !s.aborted;
    FreeIffNotAll(s.slots);
  }

  lemma EventKeeps(s: State, e: Event)
    requires Inv(s) && Allowed(s, e)
    ensures Inv(On(s, e))
  {
    match e
    case Message => FreeSlotIff(s); MessageKeeps(s);
    case Answer(r) => AnswerKeeps(s, r);
    case Done(c) => CompleteKeeps(s, c);
  }

  /** The events are allowed one after another. */
  ghost predicate Feasible(s: State, es: seq<Event>)
    decreases |es|
  {
    es == [] ||
    (|s.slots| == SLOTS && Allowed(s, es[0]) && (es[0].Done? ==> CompletionOk(es[0].c)) &&
     Feasible(On(s, es[0]), es[1..]))
  }

  function Run(s: State, es: seq<Event>): State
    requires Feasible(s, es)
    decreases |es|
  {
    if es == [] then s else Run(On(s, es[0]), es[1..])
  }

  /** In every interleaving of messages, answers and completions the lists and the slots
      agree, and neither an assertion nor the abort is reached. */
  lemma {:induction false} RunKeeps(s: State, es: seq<Event>)
    requires Inv(s) && Feasible(s, es)
    ensures Inv(Run(s, es)) && !Run(s, es).aborted
    decreases |es|
  {
    if es != [] {
      EventKeeps(s, es[0]);
      RunKeeps(On(s, es[0]), es[1..]);
    }
  }

  lemma EventKeepsLost(s: State, e: Event, i: nat)
    requires Inv(s) && Allowed(s, e) && Lost(s, i)
    ensures Lost(On(s, e), i) && On(s, e).slots[i] == s.slots[i]
  {
    match e
    case Message => FreeSlotIff(s);
    case Answer(r) =>
    case Done(c) =>
      VisitsTidy(s, SLOTS, c);
      var p := Visits(s, SLOTS, c);
      hide Visits, Ended;
      var n: nat := SLOTS;
      if !p.clean {
        n :| n < SLOTS && Refused(s, c, n) && AllAccepted(s, n, c) && VisitedTo(s, n, c, p.(clean := true));
      }
      assert Answered(s.(flight := s.flight - c.mask), p.s, i);
  }

  /** A lost slot is never used again, and so is one fewer for the SPE. */
  lemma {:induction false} LostForGood(s: State, es: seq<Event>, i: nat)
    requires Inv(s) && Feasible(s, es) && Lost(s, i)
    ensures Lost(Run(s, es), i) && Run(s, es).slots[i] == s.slots[i]
    decreases |es|
  {
    if es != [] {
      EventKeeps(s, es[0]);
      EventKeepsLost(s, es[0], i);
      LostForGood(On(s, es[0]), es[1..], i);
    }
  }

  /** The event names the slot in a call at or behind a refused packet. */
  ghost predicate Loses(s: State, e: Event, i: nat)
    requires |s.slots| == SLOTS && Allowed(s, e)
  {
    e.Done? && i in e.c.mask && exists b: nat :: b <= i && Refused(s, e.c, b)
  }

  ghost predicate EverLoses(s: State, es: seq<Event>, i: nat)
    requires Feasible(s, es)
    decreases |es|
  {
    es != [] && (Loses(s, es[0], i) || EverLoses(On(s, es[0]), es[1..], i))
  }

  lemma EventLoses(s: State, e: Event, i: nat)
    requires Inv(s) && Allowed(s, e) && i < SLOTS
    ensures Lost(On(s, e), i) <==> Lost(s, i) || Loses(s, e, i)
  {
    if Lost(s, i) {
      EventKeepsLost(s, e, i);
    } else {
      match e
      case Message =>
      case Answer(r) =>
      case Done(c) =>
        LostIffRefused(s, c, i);
        hide Inv;
    }
  }

  /** Over any run a slot ends up in the middle of a transfer that nothing will end, if and
      only if some call of the run names it at or behind a refused packet. */
  lemma {:induction false} LostInRunIff(s: State, es: seq<Event>, i: nat)
    requires Inv(s) && Feasible(s, es) && i < SLOTS
    ensures Lost(Run(s, es), i) <==> Lost(s, i) || EverLoses(s, es, i)
    decreases |es|
  {
    if es != [] {
      EventKeeps(s, es[0]);
      EventLoses(s, es[0], i);
      hide Inv, Lost, Loses, On;
      LostInRunIff(On(s, es[0]), es[1..], i);
    }
  }

  lemma OneEvent(s: State, e: Event, rest: seq<Event>)
    requires |s.slots| == SLOTS && Allowed(s, e) && (e.Done? ==> CompletionOk(e.c))
    requires Feasible(On(s, e), rest)
    ensures Feasible(s, [e] + rest) && Run(s, [e] + rest) == Run(On(s, e), rest)
  {
    hide On, Allowed;
    var es := [e] + rest;
    assert es[0] == e && es[1..] == rest;
  }

  lemma FirstMessage()
    ensures Inv(START) && |START.live| == 0
    ensures var s := OnMessage(START); s.slots[0] == Slot(Reading, 0) && s.flight == {0} && Inv(s)
  {
    assert START.slots[0].phase == Free;
    assert FirstFree(START.slots) == 0;
    hide FirstFree;
    assert Inv(START);
    MessageKeeps(START);
  }

  /** And slots do get lost: a message, then a packet that cannot be decoded. */
  lemma SlotIsLost(bad: Completion)
    requires CompletionOk(bad) && bad.mask == {0} && bad.packets[0].fcall == None
    ensures Feasible(START, [Message, Done(bad)]) && Lost(Run(START, [Message, Done(bad)]), 0)
  {
    FirstMessage();
    var s := OnMessage(START);
    assert Allowed(START, Message) && Allowed(s, Done(bad)) && Refused(s, bad, 0);
    assert Feasible(OnComplete(s, bad), []) && Run(OnComplete(s, bad), []) == OnComplete(s, bad);
    hide Inv, OnComplete, OnMessage, Feasible, Run;
    LostIffRefused(s, bad, 0);
    OneEvent(s, Done(bad), []);
    OneEvent(START, Message, [Done(bad)]);
    assert [Message] + [Done(bad)] == [Message, Done(bad)];
  }

  // ---- requests that have ended ----------------------------------------------------

  lemma VisitAddsNone(p: Pass, i: nat, c: Completion)
    requires CompletionOk(c) && i < SLOTS && |p.s.slots| == SLOTS
    ensures Visit(p, i, c).s.live.Keys <= p.s.live.Keys
  {
    if i in c.mask && p.s.slots[i].phase == Reading && Accepted(c.packets[i], c.msize) {
      AnswersKeepLength(Fetched(p.s, i, c.packets[i].fcall.value), c.answers[i]);
    }
  }

  lemma {:induction false} VisitsAddNone(s: State, n: nat, c: Completion)
    requires CompletionOk(c) && n <= SLOTS && |s.slots| == SLOTS
    ensures Visits(s, n, c).s.live.Keys <= s.live.Keys
  {
    if n > 0 {
      VisitsAddNone(s, n - 1, c);
      VisitAddsNone(Visits(s, n - 1, c), n - 1, c);
    }
  }

  /** A request that has ended never comes back, so its tag is told in its own call or
      never on its account. */
  lemma {:induction false} EndedForGood(s: State, es: seq<Event>, r: nat)
    requires Inv(s) && Feasible(s, es) && r < s.made && r !in s.live
    ensures r !in Run(s, es).live
    decreases |es|
  {
    if es != [] {
      EventKeeps(s, es[0]);
      if es[0].Done? {
        CompleteKeeps(s, es[0].c);
        VisitsAddNone(s, SLOTS, es[0].c);
      }
      hide Inv, Visits;
      EndedForGood(On(s, es[0]), es[1..], r);
    }
  }

  // ---- whose tags are told --------------------------------------------------------------

  /** The call accepts a packet for request r that names this tag. */
  ghost predicate NamedIn(s: State, c: Completion, n: nat, r: nat, tag: nat)
    requires n <= SLOTS && |s.slots| == SLOTS && CompletionOk(c)
  {
    exists k: nat :: k < n && k in c.mask && s.slots[k] == Slot(Reading, r)
      && c.packets[k].fcall == Some(tag) && AllAccepted(s, k + 1, c)
  }

  /** Between two states a request has kept its tag, and its packet has not been read. */
  ghost predicate KeptTag(s: State, t: State, r: nat) {
    && r in s.live && r in t.live && t.live[r].tag == s.live[r].tag
    && (In(s, r, Reading) ==> In(t, r, Reading))
  }

  lemma AnswersKeepTag(s: State, rs: seq<nat>, r: nat)
    requires Inv(s) && r in s.live
    ensures KeptTag(s, OnAnswers(s, rs), r)
  {
    AnswersKeep(s, rs);
    assert Answered(s, OnAnswers(s, rs), s.live[r].slot);
  }

  lemma VisitTag(p: Pass, n: nat, c: Completion, r: nat)
    requires CompletionOk(c) && n < SLOTS && Inv(p.s) && (n in c.mask ==> n !in p.s.flight)
    requires r in Visit(p, n, c).s.live
    ensures KeptTag(p.s, Visit(p, n, c).s, r) ||
      (n in c.mask && p.s.slots[n] == Slot(Reading, r) && Accepted(c.packets[n], c.msize)
       && c.packets[n].fcall == Some(Visit(p, n, c).s.live[r].tag))
  {
    if n in c.mask && p.s.slots[n].phase == Reading && Accepted(c.packets[n], c.msize) {
      var f := Fetched(p.s, n, c.packets[n].fcall.value);
      FetchedKeeps(p.s, n, c.packets[n].fcall.value);
      AnswersKeepLength(f, c.answers[n]);
      AnswersKeepTag(f, c.answers[n], r);
      hide OnAnswers;
    }
  }

  lemma TidyIsInv(s: State, n: nat, c: Completion, p: Pass)
    requires n <= SLOTS && |s.slots| == SLOTS && CompletionOk(c) && Tidy(s, n, c, p)
    ensures Inv(p.s)
  {
  }

  lemma NamedNext(s: State, n: nat, c: Completion, r: nat, tag: nat)
    requires n < SLOTS && |s.slots| == SLOTS && CompletionOk(c) && AllAccepted(s, n, c)
    requires n in c.mask && s.slots[n] == Slot(Reading, r) && Accepted(c.packets[n], c.msize)
    requires c.packets[n].fcall == Some(tag)
    ensures NamedIn(s, c, n + 1, r, tag)
  {
    assert AllAccepted(s, n + 1, c);
  }

  lemma Sizes(s: State, c: Completion)
    requires Inv(s) && Honest(s, c)
    ensures CompletionOk(c) && |s.slots| == SLOTS
    ensures forall r :: r in s.live ==> r in Visits(s, 0, c).s.live && KeptTag(s, Visits(s, 0, c).s, r)
    ensures Visits(s, 0, c).s.live == s.live
  {
  }

  lemma VisitTagIn(s: State, n: nat, c: Completion, p: Pass, r: nat)
    requires Inv(s) && Honest(s, c) && n < SLOTS && Tidy(s, n, c, p) && p.clean
    requires r in Visit(p, n, c).s.live
    ensures r in p.s.live
    ensures KeptTag(p.s, Visit(p, n, c).s, r) || NamedIn(s, c, n + 1, r, Visit(p, n, c).s.live[r].tag)
  {
    hide *;
    Sizes(s, c);
    TidyIsInv(s, n, c, p);
    if n in c.mask { VisitedAt(s, n, c, p); }
    VisitAddsNone(p, n, c);
    VisitTag(p, n, c, r);
    if !KeptTag(p.s, Visit(p, n, c).s, r) {
      NamedNext(s, n, c, r, Visit(p, n, c).s.live[r].tag);
    }
  }

  lemma KeptOrNamed(s: State, m: State, t: State, c: Completion, n: nat, r: nat)
    requires n < SLOTS && |s.slots| == SLOTS && CompletionOk(c) && r in m.live && r in t.live
    requires KeptTag(s, m, r) || NamedIn(s, c, n, r, m.live[r].tag)
    requires KeptTag(m, t, r) || NamedIn(s, c, n + 1, r, t.live[r].tag)
    ensures KeptTag(s, t, r) || NamedIn(s, c, n + 1, r, t.live[r].tag)
  {
    hide AllAccepted, In;
  }

  lemma SameTag(s: State, r: nat)
    requires r in s.live
    ensures KeptTag(s, s, r)
  {
  }

  lemma {:induction false} VisitsTag(s: State, n: nat, c: Completion, r: nat)
    requires Inv(s) && Honest(s, c) && n <= SLOTS && r in Visits(s, n, c).s.live
    ensures KeptTag(s, Visits(s, n, c).s, r) || NamedIn(s, c, n, r, Visits(s, n, c).s.live[r].tag)
  {
    hide *;
    Sizes(s, c);
    if n > 0 {
      var p := Visits(s, n - 1, c);
      VisitsTidy(s, n - 1, c);
      VisitsAre(s, n, c);
      if p.clean && !p.s.aborted {
        VisitTagIn(s, n - 1, c, p, r);
      } else {
        SameTag(p.s, r);
      }
      VisitsTag(s, n - 1, c, r);
      KeptOrNamed(s, p.s, Visits(s, n, c).s, c, n - 1, r);
    }
  }

  lemma EventTag(s: State, e: Event, r: nat)
    requires Inv(s) && Allowed(s, e) && r in On(s, e).live && !In(On(s, e), r, Reading)
    ensures (r in s.live && !In(s, r, Reading) && On(s, e).live[r].tag == s.live[r].tag) ||
            (e.Done? && NamedIn(s, e.c, SLOTS, r, On(s, e).live[r].tag))
  {
    match e
    case Message =>
    case Answer(q) =>
    case Done(c) =>
      hide Inv, Visits, NamedIn;
      VisitsTag(s, SLOTS, c, r);
  }

  /** At some call of the run a packet with this tag was accepted for request r. */
  ghost predicate WasNamed(s: State, es: seq<Event>, r: nat, tag: nat)
    requires Feasible(s, es)
    decreases |es|
  {
    es != [] && ((es[0].Done? && NamedIn(s, es[0].c, SLOTS, r, tag)) || WasNamed(On(s, es[0]), es[1..], r, tag))
  }

  /** A request with the server or being answered has the tag of the packet that was read
      for it, however the run goes. */
  lemma {:induction false} TagIsNamed(s: State, es: seq<Event>, r: nat)
    requires Inv(s) && Feasible(s, es) && r in Run(s, es).live && !In(Run(s, es), r, Reading)
    ensures WasNamed(s, es, r, Run(s, es).live[r].tag) ||
            (r in s.live && !In(s, r, Reading) && Run(s, es).live[r].tag == s.live[r].tag)
    decreases |es|
  {
    if es != [] {
      EventKeeps(s, es[0]);
      var t := On(s, es[0]);
      assert Run(s, es) == Run(t, es[1..]);
      hide Inv, NamedIn, In, On;
      TagIsNamed(t, es[1..], r);
      if r in t.live && !In(t, r, Reading) { EventTag(s, es[0], r); }
    }
  }

  lemma TellsTag(s: State, c: Completion, k: nat)
    requires Inv(s) && Honest(s, c) && AllAccepted(s, SLOTS, c)
    requires k < SLOTS && k in c.mask && s.slots[k].phase == Writing
    ensures s.slots[k].req in s.live && !In(s, s.slots[k].req, Reading)
    ensures var told, tag := OnComplete(s, c).told, s.live[s.slots[k].req].tag;
      told != [] && (if tag == NOTAG then 0 else tag) in told[|told| - 1]
  {
    CompleteTells(s, c);
    hide OnComplete, AllAccepted, Honest;
    var tags := set i: nat | i < SLOTS && i in c.mask && s.slots[i].phase == Writing ::
        if s.live[s.slots[i].req].tag == NOTAG then 0 else s.live[s.slots[i].req].tag;
    var tag := s.live[s.slots[k].req].tag;
    assert (if tag == NOTAG then 0 else tag) in tags;
    assert OnComplete(s, c).told == s.told + [tags];
  }

  /** From the start: when a reply has been stored and no packet of the call is refused, the
      SPE is told the tag that was named by the packet read for the request. */
  lemma ToldAsNamed(es: seq<Event>, c: Completion, k: nat)
    requires Feasible(START, es) && Honest(Run(START, es), c)
    requires |Run(START, es).slots| == SLOTS && AllAccepted(Run(START, es), SLOTS, c)
    requires k < SLOTS && k in c.mask && Run(START, es).slots[k].phase == Writing
    ensures var s := Run(START, es);
      && OnComplete(s, c).told != [] && s.slots[k].req in s.live
      && exists tag: nat :: WasNamed(START, es, s.slots[k].req, tag)
           && (if tag == NOTAG then 0 else tag) in OnComplete(s, c).told[|OnComplete(s, c).told| - 1]
  {
    FirstMessage();
    RunKeeps(START, es);
    var s := Run(START, es);
    hide *;
    TellsTag(s, c, k);
    assert s.slots[k].req !in START.live;
    TagIsNamed(START, es, s.slots[k].req);
  }

  // ---- a run that drops a notification --------------------------------------------------

  lemma FetchFirst(good: Completion)
    requires CompletionOk(good) && good.mask == {0} && Accepted(good.packets[0], good.msize)
    ensures var s := OnMessage(START);
      var t := OnAnswer(OnComplete(s, good), 0);
      && Inv(s) && Honest(s, good) && Inv(OnComplete(s, good)) && Inv(t)
      && t.slots[0] == Slot(Writing, 0) && 0 in t.flight && t.made == 1
      && t.told == [] && t.slots[1].phase == Free
  {
    FirstMessage();
    var s := OnMessage(START);
    assert s.slots[1].phase == Free && s.told == [] && s.made == 1;
    assert !Refused(s, good, 0) && AllAccepted(s, SLOTS, good);
    hide OnMessage, Visits, OnComplete;
    CompleteKeeps(s, good);
    CompleteEffect(s, good);
    var m := OnComplete(s, good);
    assert Handled(s, m, 0) && Answered(s, m, 1);
    assert Ended(s, SLOTS, good.mask) == {};
    AnswerKeeps(m, 0);
  }

  lemma DropSecond(t: State, bad: Completion)
    requires Inv(t) && t.slots[0] == Slot(Writing, 0) && 0 in t.flight && t.slots[1].phase == Free
    requires CompletionOk(bad) && bad.mask == {0, 1} && bad.packets[1].fcall == None
    ensures var u := OnMessage(t);
      && Inv(u) && |t.live| < SLOTS && Honest(u, bad)
      && 0 !in OnComplete(u, bad).live && OnComplete(u, bad).told == t.told
  {
    var u := OnMessage(t);
    assert FirstFree(t.slots) == 1;
    FreeSlotIff(t);
    MessageKeeps(t);
    hide OnComplete, FirstFree, Inv;
    assert Refused(u, bad, 1) && !Refused(u, bad, 0);
    UntoldIff(u, bad, 0);
  }

  /** A reply is being stored while a second request is read; one call names both, and the
      second packet cannot be decoded: the first request is gone and the SPE was told nothing. */
  lemma TagIsUntold(good: Completion, bad: Completion)
    requires CompletionOk(good) && good.mask == {0} && Accepted(good.packets[0], good.msize)
    requires CompletionOk(bad) && bad.mask == {0, 1} && bad.packets[1].fcall == None
    ensures var es := [Message] + ([Done(good)] + ([Answer(0)] + ([Message] + ([Done(bad)] + []))));
      && Feasible(START, es) && Run(START, es).told == [] && Run(START, es).made == 2
      && 0 !in Run(START, es).live
  {
    FirstMessage();
    FetchFirst(good);
    var s := OnMessage(START);
    var m := OnComplete(s, good);
    var t := OnAnswer(m, 0);
    DropSecond(t, bad);
    var u := OnMessage(t);
    var v := OnComplete(u, bad);
    assert u.made == 2 by { FreeSlotIff(t); }
    CompleteKeeps(u, bad);
    assert Feasible(v, []) && Run(v, []) == v;
    assert |START.slots| == SLOTS && |s.slots| == SLOTS && |m.slots| == SLOTS;
    assert |t.slots| == SLOTS && |u.slots| == SLOTS;
    hide Inv, OnComplete, OnAnswer, OnMessage, Feasible, Run, Honest;
    assert Allowed(START, Message) && Allowed(s, Done(good)) && Allowed(m, Answer(0));
    assert Allowed(t, Message) && Allowed(u, Done(bad));
    OneEvent(u, Done(bad), []);
    OneEvent(t, Message, [Done(bad)] + []);
    OneEvent(m, Answer(0), [Message] + ([Done(bad)] + []));
    OneEvent(s, Done(good), [Answer(0)] + ([Message] + ([Done(bad)] + [])));
    OneEvent(START, Message, [Done(good)] + ([Answer(0)] + ([Message] + ([Done(bad)] + []))));
  }
}
