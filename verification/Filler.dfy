/** The filler policy as it runs: loops over the pool's queue and node table that
    update the queue in place and build the schedule event by event. */
module Filler {
  import opened FillerPool
  import opened FillerSafety
  import opened Basics
  import Timeline

  ghost predicate StartedIn(before: seq<Job>, after: seq<Job>) {
    exists k :: 0 <= k < |before| && k < |after| && !before[k].Running() && after[k].Running()
  }

  /** Some job left or started: what filler_schedule reports. */
  ghost predicate Acted(p: Pool, now: nat, late: seq<nat>) {
    || (exists j :: j in p.jobs && j.Expired(now))
    || StartedIn(KillExpired(p.jobs, now), Pass(p, now, late).jobs)
  }

  /** The events and the reservations describe the same free nodes. */
  ghost predicate Agree(ev: seq<Timeline.Event>, total: nat, rs: seq<Reservation>) {
    && Timeline.Ordered(ev)
    && forall t: nat :: Timeline.Level(ev, t) == Free(total, rs, t)
  }

  lemma HolesAgree(ev: seq<Timeline.Event>, total: nat, rs: seq<Reservation>, h: int, time: nat, nodes: nat)
    requires Agree(ev, total, rs) && Timeline.IsHole(ev, h, time, nodes)
    ensures h == Hole(total, rs, time, nodes)
  {
    forall s: nat
      ensures Timeline.Fits(ev, s, time, nodes) <==> Fits(total, rs, s, time, nodes)
    {
      if Timeline.Fits(ev, s, time, nodes) {
        forall x: nat | s <= x <= s + time ensures Free(total, rs, x) >= nodes {
          assert Timeline.Level(ev, x) >= nodes;
        }
      }
      if Fits(total, rs, s, time, nodes) {
        forall x: nat | s <= x <= s + time ensures Timeline.Level(ev, x) >= nodes {
          assert Free(total, rs, x) >= nodes;
        }
      }
    }
    var g := Hole(total, rs, time, nodes);
    assert IsHole(total, rs, g, time, nodes);
  }

  lemma {:induction false} KillRemovesExpired(jobs: seq<Job>, now: nat)
    ensures |KillExpired(jobs, now)| <= |jobs|
    ensures |KillExpired(jobs, now)| < |jobs| <==> exists j :: j in jobs && j.Expired(now)
  {
    if jobs != [] {
      var front, last := jobs[..|jobs| - 1], jobs[|jobs| - 1];
      KillRemovesExpired(front, now);
      assert jobs == front + [last];
    }
  }

  /** Giving job k nodes below i leaves the idleness of node i as it was. */
  lemma IdleStaysKnown(was: seq<Job>, k: nat, taken: seq<nat>, i: nat)
    requires k < |was| && i !in taken
    ensures i in HeldSet(Given(was, k, taken)) <==> i in HeldSet(was)
  {
    var now := was[k := was[k].(held := was[k].held + taken)];
    HeldByWhom(was, i);
    HeldByWhom(now, i);
    if m :| 0 <= m < |was| && i in was[m].held { assert i in now[m].held; }
    if m :| 0 <= m < |now| && i in now[m].held { assert i in was[m].held; }
  }

  lemma GivenMore(was: seq<Job>, k: nat, taken: seq<nat>, i: nat)
    requires k < |was|
    ensures |Given(was, k, taken)| == |was| && Given(was, k, []) == was
    ensures var now := Given(was, k, taken); now[k := now[k].(held := now[k].held + [i])] == Given(was, k, taken + [i])
  {
    assert was[k].held + [] == was[k].held;
    Regroup(was[k].held, taken, [i]);
  }

  lemma StartedSoFar(alive: seq<Job>, before: seq<Job>, after: seq<Job>, k: nat)
    requires k < |alive| == |before| == |after|
    requires before[k] == alive[k]
    requires forall i :: 0 <= i < |alive| && i != k ==> after[i] == before[i]
    ensures StartedIn(alive[..k + 1], after) <==>
            StartedIn(alive[..k], before) || (!alive[k].Running() && after[k].Running())
  {
    if StartedIn(alive[..k], before) {
      var i :| 0 <= i < k && !alive[..k][i].Running() && before[i].Running();
      assert alive[..k + 1][i] == alive[i] && after[i] == before[i];
    }
    if StartedIn(alive[..k + 1], after) {
      var i :| 0 <= i < k + 1 && !alive[..k + 1][i].Running() && after[i].Running();
      if i < k { assert alive[..k][i] == alive[i] && after[i] == before[i]; }
    }
    if !alive[k].Running() && after[k].Running() {
      assert alive[..k + 1][k] == alive[k];
    }
  }

  lemma NoneStartedYet(alive: seq<Job>, jobs: seq<Job>)
    ensures !StartedIn(alive[..0], jobs)
  {
  }

  class PoolQueue {
    var up: seq<bool>
    var jobs: seq<Job>

    ghost function Value(): Pool
      reads this
    {
      Pool(up, jobs)
    }

    constructor (up: seq<bool>)
      ensures Value() == Pool(up, []) && WellFormed(Value())
    {
      this.up := up;
      jobs := [];
    }

    /** filler_submit: the request must be positive and fit the pool's node table.
        The number of seconds was checked before the policy is asked. */
    method Submit(id: nat, nodes: int, secs: nat, ready: bool) returns (accepted: bool)
      requires WellFormed(Value()) && secs >= 1
      modifies this`jobs
      ensures accepted <==> 1 <= nodes <= |up|
      ensures jobs == old(jobs) + if accepted then [Job(id, nodes, secs, ready, 0, [])] else []
      ensures WellFormed(Value())
    {
      if nodes <= 0 || nodes > |up| { return false; }
      ghost var was := jobs;
      jobs := jobs + [Job(id, nodes, secs, ready, 0, [])];
      assert jobs[..|jobs| - 1] == was;
      assert SetOf([]) == {};
      accepted := true;
    }

    /** filler_timeout: sleep exactly until the first running job expires. */
    method Timeout(now: nat) returns (wanted: bool, tmo: int)
      ensures wanted <==> exists j :: j in jobs && j.Running()
      ensures !wanted ==> tmo == -1
      ensures wanted ==> tmo >= 0 && exists j :: j in jobs && j.Expired(now + tmo)
      ensures forall j, t: nat :: j in jobs && now <= t < now + tmo ==> !j.Expired(t)
    {
      tmo, wanted := -1, false;
      ghost var first := 0;
      for i := 0 to |jobs|
        invariant wanted <==> exists k :: 0 <= k < i && jobs[k].Running()
        invariant !wanted ==> tmo == -1
        invariant wanted ==> tmo >= 0 && 0 <= first < i && jobs[first].Expired(now + tmo)
        invariant wanted ==> forall k, t: nat :: 0 <= k < i && now <= t < now + tmo ==> !jobs[k].Expired(t)
      {
        var j := jobs[i];
        if j.Running() {
          var timeUsed := now - j.start;
          var timeLeft := j.secs - timeUsed;
          if timeLeft < 0 { timeLeft := 0; }
          if tmo == -1 || tmo > timeLeft { tmo := timeLeft; first := i; }
          wanted := true;
        }
      }
    }

    /** Kill off jobs whose time has expired. */
    method KillExpiredJobs(now: nat) returns (killed: bool)
      modifies this`jobs
      ensures jobs == KillExpired(old(jobs), now)
      ensures killed <==> exists j :: j in old(jobs) && j.Expired(now)
    {
      killed := false;
      ghost var was := jobs;
      ghost var seen := 0;
      var i := 0;
      while i < |jobs|
        invariant 0 <= i <= |jobs| && 0 <= seen <= |was| && |jobs| - i == |was| - seen
        invariant jobs[..i] == KillExpired(was[..seen], now)
        invariant jobs[i..] == was[seen..]
        invariant killed <==> exists m :: 0 <= m < seen && was[m].Expired(now)
      {
        assert jobs[i] == was[seen];
        assert was[..seen + 1][..seen] == was[..seen];
        if jobs[i].Expired(now) {
          jobs := jobs[..i] + jobs[i + 1..];
          killed := true;
        } else {
          i := i + 1;
        }
        seen := seen + 1;
      }
      assert was[..seen] == was && jobs[..i] == jobs;
    }

    /** Count how many nodes of the pool are up. */
    method CountUp() returns (total: nat)
      ensures total == |UpSet(up)|
    {
      total := 0;
      var i := 0;
      ghost var seen: set<nat> := {};
      while i < |up|
        invariant 0 <= i <= |up|
        invariant seen == (set n: nat | n < i && up[n]) && total == |seen|
      {
        if up[i] { total := total + 1; seen := seen + {i}; }
        i := i + 1;
      }
      assert seen == UpSet(up);
    }

    /** bjs_node_idle: the node is up and no job holds it. */
    method IsIdle(i: nat) returns (idle: bool)
      requires i < |up|
      ensures idle <==> up[i] && i !in HeldSet(jobs)
    {
      idle := up[i];
      var m := 0;
      while m < |jobs| && idle
        invariant 0 <= m <= |jobs|
        invariant idle ==> up[i] && forall x :: 0 <= x < m ==> i !in jobs[x].held
        invariant !idle ==> !up[i] || i in HeldSet(jobs)
      {
        HeldByWhom(jobs, i);
        if i in jobs[m].held { idle := false; }
        m := m + 1;
      }
      HeldByWhom(jobs, i);
    }

    /** Find nodes for the job at position k and allocate them, lowest index first. */
    method TakeNodes(k: nat)
      requires k < |jobs|
      modifies this`jobs
      ensures jobs == Given(old(jobs), k, TakeIdle(up, HeldSet(old(jobs)), 0, old(jobs)[k].nodes))
    {
      ghost var was := jobs;
      var nodes := jobs[k].nodes;
      ghost var taken: seq<nat> := [];
      GivenMore(was, k, taken, 0);
      hide HeldSet, Given;
      var i := 0;
      while i < |up| && nodes > 0
        invariant 0 <= i <= |up|
        invariant jobs == Given(was, k, taken)
        invariant forall n :: n in taken ==> n < i
        invariant taken + TakeIdle(up, HeldSet(was), i, nodes) == TakeIdle(up, HeldSet(was), 0, was[k].nodes)
      {
        IdleStaysKnown(was, k, taken, i);
        GivenMore(was, k, taken, i);
        var idle := IsIdle(i);
        if idle {
          jobs := jobs[k := jobs[k].(held := jobs[k].held + [i])];
          Regroup(taken, [i], TakeIdle(up, HeldSet(was), i + 1, nodes - 1));
          taken := taken + [i];
          nodes := nodes - 1;
        }
        i := i + 1;
      }
      assert taken + [] == taken;
    }

    /** The two events that take nodes out of the schedule from one time to another. */
    static method Reserve(schedule: Timeline.Schedule, ghost total: nat, ghost rs: seq<Reservation>,
                          from: nat, to: nat, nodes: nat)
      requires Agree(schedule.events, total, rs) && from <= to
      modifies schedule
      ensures Agree(schedule.events, total, rs + [Reservation(from, to, nodes)])
    {
      schedule.AddSchedEvent(from, -(nodes as int));
      schedule.AddSchedEvent(to, nodes);
      forall t: nat
        ensures Timeline.Level(schedule.events, t) == Free(total, rs + [Reservation(from, to, nodes)], t)
      {
        UsedAppend(rs, Reservation(from, to, nodes), t);
      }
    }

    /** One turn of the loop over the waiting jobs. */
    method Admission(k: nat, now: nat, late: seq<nat>, total: nat, schedule: Timeline.Schedule,
                     ghost rs: seq<Reservation>)
      returns (started: bool, ghost rs': seq<Reservation>)
      requires k < |jobs| && now >= 1 && total == |UpSet(up)|
      requires Agree(schedule.events, total, rs)
      modifies this`jobs, schedule
      ensures Sweep(jobs, rs') == SweepJob(up, Sweep(old(jobs), rs), k, now, late)
      ensures Agree(schedule.events, total, rs')
      ensures |jobs| == |old(jobs)| && forall i :: 0 <= i < |jobs| && i != k ==> jobs[i] == old(jobs)[i]
      ensures started <==> !old(jobs)[k].Running() && jobs[k].Running()
      ensures started ==> old(jobs)[k].ready && old(jobs)[k].nodes <= total
      ensures old(jobs)[k].Running() ==> jobs[k].Running()
    {
      rs' := rs;
      started := false;
      var j := jobs[k];
      if j.Running() { return; }
      if j.nodes > total || !j.ready { return; }
      var start := schedule.FindHole(j.secs, j.nodes);
      HolesAgree(schedule.events, total, rs, start, j.secs, j.nodes);
      if start == -1 { return; }
      Reserve(schedule, total, rs, start, start + j.secs, j.nodes);
      rs' := rs + [Reservation(start, start + j.secs, j.nodes)];
      if start == 0 {
        TakeNodes(k);
        jobs := jobs[k := jobs[k].(start := now + LateAt(late, k))];
        started := true;
      }
    }

    /** The loop over the waiting jobs. */
    method Backfill(now: nat, late: seq<nat>, total: nat, schedule: Timeline.Schedule) returns (started: bool)
      requires now >= 1 && total == |UpSet(up)| && Agree(schedule.events, total, RunningReservations(jobs, now))
      modifies this`jobs, schedule
      ensures |jobs| == |old(jobs)|
      ensures jobs == SweepFrom(up, Sweep(old(jobs), RunningReservations(old(jobs), now)), 0, now, late).jobs
      ensures started <==> StartedIn(old(jobs), jobs)
    {
      hide UpSet, RunningReservations, Agree, SweepJob;
      ghost var alive := jobs;
      ghost var rs := RunningReservations(jobs, now);
      ghost var s0 := Sweep(jobs, rs);
      started := false;
      var k := 0;
      NoneStartedYet(alive, jobs);
      while k < |jobs|
        invariant 0 <= k <= |jobs| == |alive| && Agree(schedule.events, total, rs)
        invariant SweepFrom(up, Sweep(jobs, rs), k, now, late) == SweepFrom(up, s0, 0, now, late)
        invariant forall i :: k <= i < |jobs| ==> jobs[i] == alive[i]
        invariant started <==> StartedIn(alive[..k], jobs)
      {
        ghost var before := jobs;
        var one: bool;
        one, rs := Admission(k, now, late, total, schedule, rs);
        started := started || one;
        StartedSoFar(alive, before, jobs, k);
        k := k + 1;
      }
      assert alive[..k] == alive;
    }

    /** filler_schedule. late[k] is how many seconds after now the job at queue
        position k is stamped if it is started. */
    method Schedule(now: nat, late: seq<nat>) returns (didSomething: bool)
      requires WellFormed(Value()) && now >= 1
      modifies this`jobs
      ensures Value() == Pass(old(Value()), now, late)
      ensures WellFormed(Value())
      ensures didSomething <==> Acted(old(Value()), now, late)
    {
      PassIsSound(Value(), now, late);
      var killed := KillExpiredJobs(now);
      hide WellFormed, KillExpired, RunningReservations, Agree, SweepFrom;
      var total := CountUp();
      var schedule := PlaceRunning(now, total);
      var started := Backfill(now, late, total, schedule);
      didSomething := killed || started;
    }

    /** Start the schedule with every running job's nodes taken until it ends. */
    method PlaceRunning(now: nat, total: nat) returns (schedule: Timeline.Schedule)
      ensures fresh(schedule) && Agree(schedule.events, total, RunningReservations(jobs, now))
    {
      schedule := new Timeline.Schedule(total);
      var i := 0;
      while i < |jobs|
        invariant 0 <= i <= |jobs| && fresh(schedule)
        invariant Agree(schedule.events, total, RunningReservations(jobs[..i], now))
      {
        ghost var rs := RunningReservations(jobs[..i], now);
        assert jobs[..i + 1][..i] == jobs[..i];
        if jobs[i].Running() {
          var rem := jobs[i].Remaining(now);
          Reserve(schedule, total, rs, 0, rem, jobs[i].nodes);
        }
        i := i + 1;
      }
      assert jobs[..i] == jobs;
    }
  }
}
