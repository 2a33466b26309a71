/** The schedule a filler pass builds: how many nodes are free from now on,
    kept as a list of (time, free nodes) events in increasing time order. */
module Timeline {
  datatype Event = Event(time: nat, nodes: int)

  predicate Ordered(ev: seq<Event>) {
    && |ev| > 0
    && ev[0].time == 0
    && forall i, j :: 0 <= i < j < |ev| ==> ev[i].time < ev[j].time
  }

  /** Free nodes at time t: what the last event not after t says. */
  function Level(ev: seq<Event>, t: nat): int
    requires |ev| > 0
  {
    var last := ev[|ev| - 1];
    if |ev| == 1 || last.time <= t then last.nodes else Level(ev[..|ev| - 1], t)
  }

  predicate Covers(ev: seq<Event>, i: nat, t: nat) {
    && i < |ev|
    && ev[i].time <= t
    && (i + 1 < |ev| ==> t < ev[i + 1].time)
  }

  lemma {:induction false} LevelOfCover(ev: seq<Event>, i: nat, t: nat)
    requires Ordered(ev) && Covers(ev, i, t)
    ensures Level(ev, t) == ev[i].nodes
    decreases |ev|
  {
    if i + 1 < |ev| {
      var short := ev[..|ev| - 1];
      assert Covers(short, i, t);
      LevelOfCover(short, i, t);
    }
  }

  lemma {:induction false} CoverExists(ev: seq<Event>, t: nat) returns (i: nat)
    requires Ordered(ev)
    ensures Covers(ev, i, t)
    ensures Level(ev, t) == ev[i].nodes
    decreases |ev|
  {
    if ev[|ev| - 1].time <= t {
      i := |ev| - 1;
    } else {
      i := CoverExists(ev[..|ev| - 1], t);
    }
    LevelOfCover(ev, i, t);
  }

  /** Enough nodes at every moment of the closed interval [s, s + time]. */
  ghost predicate Fits(ev: seq<Event>, s: nat, time: nat, nodes: int)
    requires |ev| > 0
  {
    forall x: nat :: s <= x <= s + time ==> Level(ev, x) >= nodes
  }

  /** Somewhere in that interval there are not. */
  ghost predicate Blocked(ev: seq<Event>, s: nat, time: nat, nodes: int)
    requires |ev| > 0
  {
    exists x: nat :: s <= x <= s + time && Level(ev, x) < nodes
  }

  /** h is the least start that fits, among all times; -1 if there is none. */
  ghost predicate IsHole(ev: seq<Event>, h: int, time: nat, nodes: int)
    requires |ev| > 0
  {
    && -1 <= h
    && (h >= 0 ==> Fits(ev, h, time, nodes))
    && (forall s: nat :: (h == -1 || s < h) ==> !Fits(ev, s, time, nodes))
  }

  lemma UnfitIsBlocked(ev: seq<Event>, h: int, time: nat, nodes: int)
    requires |ev| > 0 && IsHole(ev, h, time, nodes)
    ensures h >= 0 ==> forall x: nat :: h <= x <= h + time ==> Level(ev, x) >= nodes
    ensures forall s: nat :: h == -1 || s < h ==> Blocked(ev, s, time, nodes)
  {
    forall s: nat | h == -1 || s < h ensures Blocked(ev, s, time, nodes) {
      assert !Fits(ev, s, time, nodes);
    }
  }

  function Times(ev: seq<Event>): set<nat> {
    set e | e in ev :: e.time
  }

  /** Between event i and the next one the level is event i's. */
  lemma SegmentLevel(ev: seq<Event>, i: nat)
    requires Ordered(ev) && i < |ev|
    ensures forall x: nat :: ev[i].time <= x && (i + 1 < |ev| ==> x < ev[i + 1].time) ==>
      Level(ev, x) == ev[i].nodes
  {
    forall x: nat | ev[i].time <= x && (i + 1 < |ev| ==> x < ev[i + 1].time)
      ensures Level(ev, x) == ev[i].nodes
    {
      LevelOfCover(ev, i, x);
    }
  }

  lemma InsertIsOrdered(was: seq<Event>, mid: seq<Event>, se: nat, time: nat)
    requires Ordered(was) && Covers(was, se, time) && was[se].time != time
    requires mid == was[..se + 1] + [Event(time, was[se].nodes)] + was[se + 1..]
    ensures Ordered(mid)
  {
    assert forall k :: 0 <= k < |mid| ==>
      mid[k] == if k <= se then was[k] else if k == se + 1 then Event(time, was[se].nodes) else was[k - 1];
  }

  lemma InsertKeepsCover(was: seq<Event>, mid: seq<Event>, se: nat, time: nat, c: nat, t: nat)
    requires Ordered(was) && Covers(was, se, time) && Ordered(mid)
    requires mid == was[..se + 1] + [Event(time, was[se].nodes)] + was[se + 1..]
    requires Covers(was, c, t)
    ensures Level(mid, t) == was[c].nodes
  {
    var d := if c < se || (c == se && t < time) then c else c + 1;
    assert Covers(mid, d, t);
    LevelOfCover(mid, d, t);
  }

  lemma TimesOfInsert(was: seq<Event>, mid: seq<Event>, se: nat, time: nat)
    requires se < |was|
    requires (mid == was && was[se].time == time) ||
             mid == was[..se + 1] + [Event(time, was[se].nodes)] + was[se + 1..]
    ensures Times(mid) == Times(was) + {time}
  {
    if mid == was {
      assert was[se] in was;
    } else {
      assert forall e :: e in mid <==> e in was || e == Event(time, was[se].nodes) by {
        assert was == was[..se + 1] + was[se + 1..];
      }
      assert Event(time, was[se].nodes) in mid;
    }
  }

  /** Either the event for time exists at se, or a copy of the level goes in after it. */
  lemma InsertKeepsLevels(was: seq<Event>, mid: seq<Event>, se: nat, time: nat)
    requires Ordered(was) && Covers(was, se, time)
    requires if was[se].time == time then mid == was
             else mid == was[..se + 1] + [Event(time, was[se].nodes)] + was[se + 1..]
    ensures Ordered(mid)
    ensures forall t: nat :: Level(mid, t) == Level(was, t)
    ensures Times(mid) == Times(was) + {time}
  {
    TimesOfInsert(was, mid, se, time);
    if mid != was {
      InsertIsOrdered(was, mid, se, time);
      forall t: nat
        ensures Level(mid, t) == Level(was, t)
      {
        var c := CoverExists(was, t);
        InsertKeepsCover(was, mid, se, time, c, t);
      }
    }
  }

  lemma TimesByIndex(a: seq<Event>, b: seq<Event>)
    requires |a| == |b| && forall k :: 0 <= k < |a| ==> a[k].time == b[k].time
    ensures Times(a) == Times(b)
  {
    forall t | t in Times(a) ensures t in Times(b) {
      var k :| 0 <= k < |a| && a[k].time == t;
      assert b[k] in b;
    }
    forall t | t in Times(b) ensures t in Times(a) {
      var k :| 0 <= k < |b| && b[k].time == t;
      assert a[k] in a;
    }
  }

  /** Adding adj to every event from the one at time on shifts the level there by adj. */
  lemma AdjustedLevels(mid: seq<Event>, out: seq<Event>, from: nat, time: nat, adj: int)
    requires Ordered(mid) && from < |mid| && mid[from].time == time
    requires |out| == |mid|
    requires forall k :: 0 <= k < |mid| ==>
      out[k] == Event(mid[k].time, mid[k].nodes + if from <= k then adj else 0)
    ensures Ordered(out)
    ensures forall t: nat :: Level(out, t) == Level(mid, t) + if t >= time then adj else 0
    ensures Times(out) == Times(mid)
  {
    TimesByIndex(out, mid);
    forall t: nat
      ensures Level(out, t) == Level(mid, t) + if t >= time then adj else 0
    {
      var c := CoverExists(mid, t);
      assert Covers(out, c, t);
      LevelOfCover(out, c, t);
    }
  }

  class Schedule {
    var events: seq<Event>

    ghost predicate Valid()
      reads this
    {
      Ordered(events)
    }

    constructor (total: int)
      ensures Valid()
      ensures forall t: nat :: Level(events, t) == total
    {
      events := [Event(0, total)];
    }

    method AddSchedEvent(time: nat, adj: int)
      requires Valid()
      modifies this
      ensures Valid()
      ensures forall t: nat :: Level(events, t) == old(Level(events, t)) + if t >= time then adj else 0
      ensures Times(events) == old(Times(events)) + {time}
    {
      hide Level, Times;
      ghost var was := events;
      var se := 0;
      while se + 1 < |events| && events[se + 1].time <= time
        invariant 0 <= se < |events|
        invariant events[se].time <= time
      {
        se := se + 1;
      }
      assert Covers(events, se, time);
      var slot := se;
      if events[se].time != time {
        events := events[..se + 1] + [Event(time, events[se].nodes)] + events[se + 1..];
        slot := se + 1;
      }
      ghost var mid := events;
      InsertKeepsLevels(was, mid, se, time);
      var i := slot;
      while i < |events|
        invariant slot <= i <= |events| == |mid|
        invariant forall k :: 0 <= k < |mid| ==>
          events[k] == Event(mid[k].time, mid[k].nodes + if slot <= k < i then adj else 0)
      {
        events := events[i := events[i].(nodes := events[i].nodes + adj)];
        i := i + 1;
      }
      AdjustedLevels(mid, events, slot, time, adj);
    }

    method FindHole(time: nat, nodes: int) returns (start: int)
      requires Valid()
      ensures IsHole(events, start, time, nodes)
      ensures start >= 0 ==> forall x: nat :: start <= x <= start + time ==> Level(events, x) >= nodes
      ensures forall s: nat :: start == -1 || s < start ==> Blocked(events, s, time, nodes)
      ensures start != -1 ==> start in Times(events)
    {
      start := -1;
      var i := 0;
      while i < |events|
        invariant 0 <= i <= |events|
        invariant start == -1 || (start >= 0 && start in Times(events[..i]))
        // no start before the current candidate fits
        invariant forall s: nat ::
          (if start == -1 then (i < |events| ==> s < events[i].time) else s < start) ==>
            !Fits(events, s, time, nodes)
        // the candidate has enough nodes at every moment looked at so far
        invariant start != -1 ==> forall x: nat :: start <= x && (i < |events| ==> x < events[i].time) ==>
          Level(events, x) >= nodes
        invariant start != -1 && i < |events| ==> start <= events[i].time
      {
        ghost var start0 := start;
        if start != -1 && events[i].time > start + time {
          assert Fits(events, start, time, nodes);
          UnfitIsBlocked(events, start, time, nodes);
          return;
        }
        SegmentLevel(events, i);
        assert events[..i + 1] == events[..i] + [events[i]];
        if events[i].nodes >= nodes {
          if start == -1 { start := events[i].time; }
        } else {
          forall s: nat | i + 1 < |events| ==> s < events[i + 1].time
            ensures !Fits(events, s, time, nodes)
          {
            if s >= events[i].time {
              assert Level(events, s) < nodes;
            } else if start0 != -1 && s >= start0 {
              assert Level(events, events[i].time) < nodes;
            }
          }
          start := -1;
        }
        i := i + 1;
      }
      assert events[..i] == events;
      UnfitIsBlocked(events, start, time, nodes);
    }
  }
}
