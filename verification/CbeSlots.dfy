/** The eight request slots of a 9P connection to a Cell SPE: requests are fetched and
    replies stored by DMA, and one handler is told which transfers have ended. */
module CbeSlots {
  import opened Basics
  const SLOTS: nat := 8
  const NOTAG: nat := 0xFFFF
  datatype Phase = Free | Reading | Working | Writing
  datatype Slot = Slot(phase: Phase, req: nat)
  datatype Request = Request(slot: nat, tag: nat)

  /** What a fetched packet holds: its size field and, if it can be decoded, its tag. */
  datatype Packet = Packet(size: nat, fcall: Option<nat>)

  /** The connection. `flight` is what the DMA engine has not finished yet, `told` the
      notifications sent, `aborted` says that an assertion failed or abort was called. */
  datatype State = State(slots: seq<Slot>, ireqs: seq<nat>, oreqs: seq<nat>, live: map<nat, Request>, made: nat,
                         flight: set<nat>, told: seq<set<nat>>, aborted: bool)

  const START := State(seq(SLOTS, _ => Slot(Free, 0)), [], [], map[], 0, {}, [], false)

  // ---- the steps -------------------------------------------------------------------

  function FirstFree(slots: seq<Slot>): (i: nat)
    ensures i <= |slots| && (i < |slots| ==> slots[i].phase == Free)
    ensures forall k :: 0 <= k < i ==> slots[k].phase != Free
  {
    if slots == [] || slots[0].phase == Free then 0
    else
      var i := FirstFree(slots[1..]);
      assert forall k :: 1 <= k < i + 1 ==> slots[k] == slots[1..][k - 1];
      i + 1
  }

  /** sp_cbeconn_msg: a message names a packet; fetch it into the first free slot. */
  function OnMessage(s: State): State
    requires |s.slots| == SLOTS
  {
    var i := FirstFree(s.slots);
    if i == SLOTS then s.(aborted := true)
    else s.(slots := s.slots[i := Slot(Reading, s.made)], ireqs := [s.made] + s.ireqs,
            live := s.live[s.made := Request(i, NOTAG)], made := s.made + 1, flight := s.flight + {i})
  }

  /** The server holds this request and has not answered it. */
  predicate CanAnswer(s: State, r: nat) {
    r in s.live && s.live[r].slot < |s.slots| && s.slots[s.live[r].slot].phase == Working
  }

  /** sp_conn_respond and sp_cbeconn_dataout: queue the reply and store it. */
  function OnAnswer(s: State, r: nat): State {
    if !CanAnswer(s, r) then s
    else
      var i := s.live[r].slot;
      s.(oreqs := s.oreqs + [r], slots := s.slots[i := s.slots[i].(phase := Writing)], flight := s.flight + {i})
  }

  function OnAnswers(s: State, rs: seq<nat>): State
    decreases |rs|
  {
    if rs == [] then s else OnAnswer(OnAnswers(s, rs[..|rs| - 1]), rs[|rs| - 1])
  }

  predicate Accepted(p: Packet, msize: nat) { p.size <= msize && p.fcall.Some? }

  /** The packet in slot i is decoded and goes to the server. */
  function Fetched(s: State, i: nat, tag: nat): State
    requires i < |s.slots|
  {
    var r := s.slots[i].req;
    if r !in s.ireqs || r !in s.live then s.(aborted := true)
    else s.(ireqs := Without(s.ireqs, r), live := s.live[r := s.live[r].(tag := tag)],
            slots := s.slots[i := s.slots[i].(phase := Working)])
  }

  /** The reply in slot i has been stored: the request ends. */
  function Stored(s: State, i: nat): State
    requires i < |s.slots|
  {
    var r := s.slots[i].req;
    if r !in s.oreqs then s.(aborted := true)
    else s.(oreqs := Without(s.oreqs, r), live := s.live - {r}, slots := s.slots[i := s.slots[i].(phase := Free)])
  }

  function Bit(s: State, i: nat): nat
    requires i < |s.slots|
  {
    var r := s.slots[i].req;
    if r !in s.live || s.live[r].tag == NOTAG then 0 else s.live[r].tag
  }

  /** What the world supplies to one call of the handler: the transfers that ended, the
      packets in the slots, and the requests the server answers at once while it is
      given the request of each slot. */
  datatype Completion = Completion(mask: set<nat>, packets: seq<Packet>, answers: seq<seq<nat>>, msize: nat)

  predicate CompletionOk(c: Completion) { |c.packets| == SLOTS && |c.answers| == SLOTS }
  datatype Pass = Pass(s: State, sig: set<nat>, clean: bool)

  lemma AnswersKeepLength(s: State, rs: seq<nat>)
    ensures |OnAnswers(s, rs).slots| == |s.slots|
    ensures OnAnswers(s, rs).told == s.told && OnAnswers(s, rs).aborted == s.aborted
    ensures OnAnswers(s, rs).live == s.live && OnAnswers(s, rs).made == s.made
  {
  }

  /** One slot in the handler's loop. */
  function Visit(p: Pass, i: nat, c: Completion): (q: Pass)
    requires CompletionOk(c) && i < SLOTS && |p.s.slots| == SLOTS
    ensures |q.s.slots| == SLOTS
  {
    if i !in c.mask then p
    else if p.s.slots[i].phase == Reading then
      if !Accepted(c.packets[i], c.msize) then p.(clean := false)
      else
        var s := Fetched(p.s, i, c.packets[i].fcall.value);
        if s.aborted then p.(s := s)
        else
          AnswersKeepLength(s, c.answers[i]);
          p.(s := OnAnswers(s, c.answers[i]))
    else if p.s.slots[i].phase == Writing then p.(s := Stored(p.s, i), sig := p.sig + {Bit(p.s, i)})
    else p.(s := p.s.(aborted := true))
  }

  /** The handler's loop from the start up to slot n; it stops at a bad packet. */
  function Visits(s: State, n: nat, c: Completion): (q: Pass)
    requires CompletionOk(c) && n <= SLOTS && |s.slots| == SLOTS
    ensures |q.s.slots| == SLOTS
  {
    if n == 0 then Pass(s.(flight := s.flight - c.mask), {}, true)
    else
      var p := Visits(s, n - 1, c);
      if p.clean && !p.s.aborted then Visit(p, n - 1, c) else p
  }

  /** sp_cbeconn_dma, with no reset pending. */
  function OnComplete(s: State, c: Completion): State
    requires CompletionOk(c) && |s.slots| == SLOTS
  {
    var p := Visits(s, SLOTS, c);
    if p.clean && !p.s.aborted && p.sig != {} then p.s.(told := p.s.told + [p.sig]) else p.s
  }

  // ---- the invariant ---------------------------------------------------------------

  ghost predicate In(s: State, r: nat, phase: Phase) {
    r in s.live && s.live[r].slot < |s.slots| && s.slots[s.live[r].slot].phase == phase
  }

  /** Slots in use and live requests match one to one. */
  ghost predicate Matched(s: State) {
    && (forall r :: r in s.live ==> r < s.made && s.live[r].slot < |s.slots|
                                    && s.slots[s.live[r].slot].phase != Free && s.slots[s.live[r].slot].req == r)
    && (forall i :: 0 <= i < |s.slots| && s.slots[i].phase != Free ==>
          s.slots[i].req in s.live && s.live[s.slots[i].req].slot == i)
  }

  /** A request is on the input list exactly while its slot is being read, and on the
      output list exactly while it is being written, once. */
  ghost predicate Listed(s: State) {
    && NoRepeats(s.ireqs) && NoRepeats(s.oreqs)
    && (forall r :: r in s.ireqs <==> In(s, r, Reading))
    && (forall r :: r in s.oreqs <==> In(s, r, Writing))
  }

  predicate Moving(slot: Slot) { slot.phase == Reading || slot.phase == Writing }

  ghost predicate Inv(s: State) {
    && |s.slots| == SLOTS && !s.aborted && Matched(s) && Listed(s)
    && (forall i :: i in s.flight ==> i < SLOTS && Moving(s.slots[i]))
  }

  lemma MessageKeeps(s: State)
    requires Inv(s) && FirstFree(s.slots) < SLOTS
    ensures Inv(OnMessage(s)) && OnMessage(s).made == s.made + 1
  {
    var t := OnMessage(s);
    assert s.made !in s.live;
    forall r ensures r in t.ireqs <==> In(t, r, Reading) {
      assert r in t.ireqs <==> r == s.made || r in s.ireqs;
    }
    forall r ensures r in t.oreqs <==> In(t, r, Writing) {
      assert r in t.oreqs <==> In(s, r, Writing);
    }
    assert s.made !in s.ireqs;
  }

  lemma AnswerKeeps(s: State, r: nat)
    requires Inv(s)
    ensures Inv(OnAnswer(s, r))
  {
    if CanAnswer(s, r) {
      var t := OnAnswer(s, r);
      assert r !in s.oreqs && r !in s.ireqs;
      forall x ensures x in t.oreqs <==> In(t, x, Writing) {
        assert x in t.oreqs <==> x == r || x in s.oreqs;
      }
      forall x ensures x in t.ireqs <==> In(t, x, Reading) {
        assert x in s.ireqs <==> In(s, x, Reading);
      }
    }
  }

  lemma FetchedKeeps(s: State, i: nat, tag: nat)
    requires Inv(s) && i < SLOTS && i !in s.flight && s.slots[i].phase == Reading
    ensures Inv(Fetched(s, i, tag))
  {
    var r := s.slots[i].req;
    var t := Fetched(s, i, tag);
    assert In(s, r, Reading);
    WithoutMembers(s.ireqs, r);
    forall x ensures x in t.ireqs <==> In(t, x, Reading) {
      assert x in s.ireqs <==> In(s, x, Reading);
    }
    forall x ensures x in t.oreqs <==> In(t, x, Writing) {
      assert x in s.oreqs <==> In(s, x, Writing);
    }
  }

  lemma StoredKeeps(s: State, i: nat)
    requires Inv(s) && i < SLOTS && i !in s.flight && s.slots[i].phase == Writing
    ensures Inv(Stored(s, i))
  {
    var r := s.slots[i].req;
    var t := Stored(s, i);
    assert In(s, r, Writing);
    WithoutMembers(s.oreqs, r);
    forall x ensures x in t.ireqs <==> In(t, x, Reading) {
      assert x in s.ireqs <==> In(s, x, Reading);
    }
    forall x ensures x in t.oreqs <==> In(t, x, Writing) {
      assert x in s.oreqs <==> In(s, x, Writing);
    }
  }
}
