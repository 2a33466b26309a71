/** The connection object, whose fields the messages, replies and completions update. */
module CbeConnection {
  import opened Basics
  import opened CbeSlots
  import opened CbeHandler

  lemma NamedAreIdle(s: State, n: nat, c: Completion, p: Pass)
    requires Inv(s) && Honest(s, c) && n < SLOTS && Tidy(s, n, c, p) && p.clean
    ensures n in c.mask ==> n !in p.s.flight && Moving(p.s.slots[n])
  {
    assert Answered(s.(flight := s.flight - c.mask), p.s, n);
  }

  lemma VisitsNext(s: State, n: nat, c: Completion)
    requires Inv(s) && Honest(s, c) && n < SLOTS && Visits(s, n, c).clean
    ensures var p := Visits(s, n, c);
      Visits(s, n + 1, c) == Visit(p, n, c) && Inv(p.s) && (n in c.mask ==> n !in p.s.flight && Moving(p.s.slots[n]))
  {
    VisitsTidy(s, n, c);
    NamedAreIdle(s, n, c, Visits(s, n, c));
  }

  /** After a refused packet the rest of the mask is not looked at. */
  lemma {:induction false} VisitsStay(s: State, n: nat, m: nat, c: Completion)
    requires CompletionOk(c) && n <= m <= SLOTS && |s.slots| == SLOTS && !Visits(s, n, c).clean
    ensures Visits(s, m, c) == Visits(s, n, c)
    decreases m - n
  {
    if n < m { VisitsStay(s, n, m - 1, c); }
  }

  class CbeConn {
    const reqs: array<Slot>
    var ireqs: seq<nat>
    var oreqs: seq<nat>
    var live: map<nat, Request>
    var made: nat
    var flight: set<nat>
    var told: seq<set<nat>>

    ghost function Now(): State
      reads this, reqs
    {
      State(reqs[..], ireqs, oreqs, live, made, flight, told, false)
    }

    ghost predicate Valid()
      reads this, reqs
    {
      reqs.Length == SLOTS && Inv(Now())
    }

    constructor ()
      ensures Valid() && Now() == START && fresh(reqs)
    {
      reqs := new Slot[SLOTS](_ => Slot(Free, 0));
      ireqs, oreqs, live, made, flight, told := [], [], map[], 0, {}, [];
    }

    method TakeSlot(i: nat)
      requires Valid() && i == FirstFree(reqs[..]) < SLOTS
      modifies this, reqs
      ensures Valid() && Now() == OnMessage(old(Now())) && made == old(made) + 1
    {
      ghost var s := Now();
      MessageKeeps(s);
      hide Inv, FirstFree;
      reqs[i] := Slot(Reading, made);
      live := live[made := Request(i, NOTAG)];
      ireqs := [made] + ireqs;
      flight := flight + {i};
      made := made + 1;
      assert reqs[..] == s.slots[i := Slot(Reading, s.made)];
    }

    method FindFree() returns (i: nat)
      requires reqs.Length == SLOTS && FirstFree(reqs[..]) < SLOTS
      ensures i == FirstFree(reqs[..])
    {
      hide FirstFree;
      i := 0;
      while reqs[i].phase != Free
        invariant 0 <= i <= FirstFree(reqs[..])
        decreases SLOTS - i
      {
        i := i + 1;
      }
    }

    method Message()
      requires Valid() && |live| < SLOTS
      modifies this, reqs
      ensures Valid() && Now() == OnMessage(old(Now())) && made == old(made) + 1
    {
      FreeSlotIff(Now());
      hide Inv, FirstFree, OnMessage;
      var i := FindFree();
      TakeSlot(i);
    }

    method Respond(r: nat)
      requires Valid() && CanAnswer(Now(), r)
      modifies this, reqs
      ensures Valid() && Now() == OnAnswer(old(Now()), r)
    {
      ghost var s := Now();
      AnswerKeeps(s, r);
      oreqs := oreqs + [r];
      var i := live[r].slot;
      reqs[i] := reqs[i].(phase := Writing);
      flight := flight + {i};
      assert reqs[..] == s.slots[i := s.slots[i].(phase := Writing)];
    }

    /** The server's answers while it is given one request. */
    method Process(rs: seq<nat>)
      requires Valid()
      modifies this, reqs
      ensures Valid() && Now() == OnAnswers(old(Now()), rs)
    {
      ghost var s := Now();
      var i := 0;
      while i < |rs|
        invariant 0 <= i <= |rs| && Valid() && Now() == OnAnswers(s, rs[..i])
      {
        assert rs[..i + 1][..i] == rs[..i];
        if rs[i] in live && reqs[live[rs[i]].slot].phase == Working {
          Respond(rs[i]);
        }
        i := i + 1;
      }
      assert rs[..i] == rs;
    }

    /** Walk to the request and unlink it; it must be there. */
    static method Remove(list: seq<nat>, r: nat) returns (rest: seq<nat>)
      requires r in list
      ensures rest == Without(list, r)
    {
      var k := 0;
      while list[k] != r
        invariant 0 <= k < |list| && forall j :: 0 <= j < k ==> list[j] != r
        decreases |list| - k
      {
        k := k + 1;
      }
      rest := list[..k] + list[k + 1..];
      WithoutAt(list, k);
    }

    method Fetch(i: nat, tag: nat)
      requires Valid() && i < SLOTS && i !in flight && reqs[i].phase == Reading
      modifies this, reqs
      ensures Valid() && Now() == Fetched(old(Now()), i, tag)
    {
      ghost var s := Now();
      FetchedKeeps(s, i, tag);
      var r := reqs[i].req;
      assert In(s, r, Reading);
      ireqs := Remove(ireqs, r);
      live := live[r := live[r].(tag := tag)];
      reqs[i] := reqs[i].(phase := Working);
      assert reqs[..] == s.slots[i := s.slots[i].(phase := Working)];
    }

    method Store(i: nat) returns (bit: nat)
      requires Valid() && i < SLOTS && i !in flight && reqs[i].phase == Writing
      modifies this, reqs
      ensures Valid() && Now() == Stored(old(Now()), i) && bit == Bit(old(Now()), i)
    {
      ghost var s := Now();
      StoredKeeps(s, i);
      var r := reqs[i].req;
      assert In(s, r, Writing);
      bit := if live[r].tag == NOTAG then 0 else live[r].tag;
      oreqs := Remove(oreqs, r);
      live := live - {r};
      reqs[i] := reqs[i].(phase := Free);
      assert reqs[..] == s.slots[i := s.slots[i].(phase := Free)];
    }

    /** One slot; false if its packet is refused. */
    method OneSlot(i: nat, c: Completion, sig: set<nat>) returns (ok: bool, sig': set<nat>)
      requires Valid() && CompletionOk(c) && i < SLOTS && (i in c.mask ==> i !in flight && Moving(reqs[i]))
      modifies this, reqs
      ensures reqs.Length == SLOTS && Valid()
      ensures Pass(Now(), sig', ok) == Visit(Pass(old(Now()), sig, true), i, c)
    {
      ok, sig' := true, sig;
      hide Inv;
      if i in c.mask {
        if reqs[i].phase == Reading {
          if c.packets[i].size > c.msize || c.packets[i].fcall.None? {
            ok := false;
            return;
          }
          Fetch(i, c.packets[i].fcall.value);
          Process(c.answers[i]);
        } else {
          var bit := Store(i);
          sig' := sig + {bit};
        }
      }
    }

    /** The visit to slot i, when the ones before it went through. */
    method NextSlot(i: nat, c: Completion, sig: set<nat>, ghost s: State) returns (ok: bool, sig': set<nat>)
      requires reqs.Length == SLOTS && Inv(Now()) && i < SLOTS
      requires Inv(s) && Honest(s, c) && Visits(s, i, c) == Pass(Now(), sig, true)
      modifies this, reqs
      ensures reqs.Length == SLOTS && Inv(Now()) && Visits(s, i + 1, c) == Pass(Now(), sig', ok)
    {
      VisitsNext(s, i, c);
      hide Inv, Visit, Visits, Honest;
      assert reqs[..][i] == reqs[i];
      ok, sig' := OneSlot(i, c, sig);
    }

    /** Visit the slots in turn until one has a packet that is refused. */
    method AllSlots(c: Completion) returns (ok: bool, sig: set<nat>)
      requires Valid() && Honest(Now(), c)
      modifies this, reqs
      ensures reqs.Length == SLOTS && Valid() && Pass(Now(), sig, ok) == Visits(old(Now()), SLOTS, c)
    {
      ghost var s := Now();
      var i := 0;
      ok, sig := true, {};
      flight := flight - c.mask;
      StartTidy(s, c);
      assert Inv(Now());
      hide Inv, Visit, Tidy, Honest;
      assert Visits(s, 0, c) == Pass(Now(), sig, ok);
      hide Visits;
      while ok && i < SLOTS
        invariant 0 <= i <= SLOTS && reqs.Length == SLOTS && Inv(Now())
        invariant Visits(s, i, c) == Pass(Now(), sig, ok)
      {
        ok, sig := NextSlot(i, c, sig, s);
        i := i + 1;
      }
      if !ok {
        VisitsStay(s, i, SLOTS, c);
      }
    }

    method Dma(c: Completion)
      requires Valid() && Honest(Now(), c)
      modifies this, reqs
      ensures Valid() && Now() == OnComplete(old(Now()), c)
    {
      CompleteKeeps(Now(), c);
      var ok, sig := AllSlots(c);
      hide Inv;
      if ok && sig != {} {
        told := told + [sig];
      }
    }
  }
}
