/** A pass keeps the pool in order: running jobs hold exactly the nodes they asked for,
    nobody shares one, and the schedule is never negative. */
module FillerSafety {
  import opened FillerPool
  import opened Basics

  /** What the last job adds to the nodes held. */
  lemma LastHolds(jobs: seq<Job>)
    requires jobs != []
    ensures var front, held := jobs[..|jobs| - 1], SetOf(jobs[|jobs| - 1].held);
      && HeldSet(jobs) == HeldSet(front) + held
      && (NoSharing(jobs) <==> NoSharing(front) && HeldSet(front) !! held)
  {
  }

  // ---- counting nodes ----------------------------------------------------

  function NodeSum(jobs: seq<Job>): nat {
    if jobs == [] then 0
    else
      var j := jobs[|jobs| - 1];
      NodeSum(jobs[..|jobs| - 1]) + if j.Running() then j.nodes else 0
  }

  lemma {:induction false} DistinctSize(s: seq<nat>)
    requires NoRepeats(s)
    ensures |SetOf(s)| == |s|
  {
    if s == [] {
      assert SetOf(s) == {};
    } else {
      var front := s[..|s| - 1];
      DistinctSize(front);
      assert SetOf(s) == SetOf(front) + {s[|s| - 1]};
    }
  }

  /** The nodes held are as many as the running jobs asked for together. */
  lemma {:induction false} HeldCount(jobs: seq<Job>, up: seq<bool>)
    requires WellFormed(Pool(up, jobs))
    ensures |HeldSet(jobs)| == NodeSum(jobs)
    ensures HeldSet(jobs) <= UpSet(up)
  {
    if jobs != [] {
      var last := jobs[|jobs| - 1];
      HeldCount(jobs[..|jobs| - 1], up);
      assert JobOk(last, up);
      DistinctSize(last.held);
    }
  }

  lemma {:induction false} HeldByWhom(jobs: seq<Job>, n: nat)
    ensures n in HeldSet(jobs) <==> exists k :: 0 <= k < |jobs| && n in jobs[k].held
  {
    if jobs != [] {
      HeldByWhom(jobs[..|jobs| - 1], n);
      assert n in jobs[|jobs| - 1].held <==> n in SetOf(jobs[|jobs| - 1].held);
    }
  }

  /** NoSharing, read pair by pair. */
  lemma {:induction false} NoSharingPairwise(jobs: seq<Job>, i: nat, k: nat)
    requires NoSharing(jobs) && i < k < |jobs|
    ensures SetOf(jobs[i].held) !! SetOf(jobs[k].held)
  {
    var front := jobs[..|jobs| - 1];
    if k < |front| {
      NoSharingPairwise(front, i, k);
    } else {
      forall n | n in SetOf(jobs[i].held)
        ensures n in HeldSet(front)
      {
        HeldByWhom(front, n);
        assert n in front[i].held;
      }
    }
  }

  function IdleFrom(up: seq<bool>, busy: set<nat>, i: nat): set<nat> {
    set m | m in UpSet(up) - busy && m >= i
  }

  /** TakeIdle returns distinct idle nodes. */
  lemma {:induction false} TakeIdleIsIdle(up: seq<bool>, busy: set<nat>, i: nat, n: nat)
    requires i <= |up|
    ensures NoRepeats(TakeIdle(up, busy, i, n))
    ensures SetOf(TakeIdle(up, busy, i, n)) <= IdleFrom(up, busy, i)
    decreases |up| - i
  {
    if i < |up| && n > 0 {
      if up[i] && i !in busy {
        var rest := TakeIdle(up, busy, i + 1, n - 1);
        TakeIdleIsIdle(up, busy, i + 1, n - 1);
        forall m | 0 <= m < |rest| ensures rest[m] > i {
          assert rest[m] in SetOf(rest);
        }
        assert SetOf([i] + rest) == {i} + SetOf(rest);
      } else {
        TakeIdleIsIdle(up, busy, i + 1, n);
      }
    }
  }

  /** And the lowest ones, in ascending order. */
  lemma {:induction false} TakeIdleIsLowest(up: seq<bool>, busy: set<nat>, i: nat, n: nat)
    requires i <= |up|
    ensures forall a, b :: 0 <= a < b < |TakeIdle(up, busy, i, n)| ==>
      TakeIdle(up, busy, i, n)[a] < TakeIdle(up, busy, i, n)[b]
    ensures forall x, m :: x in TakeIdle(up, busy, i, n) && i <= m < x < |up| && up[m] && m !in busy ==>
      m in TakeIdle(up, busy, i, n)
    decreases |up| - i
  {
    if i < |up| && n > 0 {
      var take := up[i] && i !in busy;
      var rest := TakeIdle(up, busy, i + 1, if take then n - 1 else n);
      TakeIdleIsLowest(up, busy, i + 1, if take then n - 1 else n);
      TakeIdleIsIdle(up, busy, i + 1, if take then n - 1 else n);
      forall a | 0 <= a < |rest| ensures rest[a] > i { assert rest[a] in SetOf(rest); }
    }
  }

  lemma TakeIdleBelow(up: seq<bool>, busy: set<nat>, n: nat)
    ensures var held := TakeIdle(up, busy, 0, n);
      forall x, m :: x in held && m in IdleFrom(up, busy, 0) && m < x ==> m in held
  {
    TakeIdleIsLowest(up, busy, 0, n);
    TakeIdleIsIdle(up, busy, 0, n);
    var held := TakeIdle(up, busy, 0, n);
    assert forall x :: x in held ==> x in SetOf(held);
  }

  /** TakeIdle returns as many nodes as asked when that many are idle. */
  lemma {:induction false} TakeIdleCount(up: seq<bool>, busy: set<nat>, i: nat, n: nat)
    requires i <= |up| && n <= |IdleFrom(up, busy, i)|
    ensures |TakeIdle(up, busy, i, n)| == n
    decreases |up| - i
  {
    if i == |up| {
      assert IdleFrom(up, busy, i) == {};
    } else if n > 0 {
      var rest := IdleFrom(up, busy, i + 1);
      if up[i] && i !in busy {
        assert IdleFrom(up, busy, i) == rest + {i};
        TakeIdleCount(up, busy, i + 1, n - 1);
      } else {
        assert IdleFrom(up, busy, i) == rest;
        TakeIdleCount(up, busy, i + 1, n);
      }
    }
  }

  // ---- the schedule never goes negative ----------------------------------

  lemma UsedAppend(rs: seq<Reservation>, r: Reservation, t: nat)
    ensures Used(rs + [r], t) == Used(rs, t) + if r.from <= t < r.to then r.nodes else 0
  {
    assert (rs + [r])[..|rs|] == rs;
  }

  lemma {:induction false} RunningUse(jobs: seq<Job>, now: nat, t: nat)
    ensures Used(RunningReservations(jobs, now), t) <= NodeSum(jobs)
    ensures t == 0 ==> Used(RunningReservations(jobs, now), t) == NodeSum(jobs)
  {
    if jobs != [] {
      var j := jobs[|jobs| - 1];
      var front := jobs[..|jobs| - 1];
      RunningUse(front, now, t);
      UsedAppend(RunningReservations(front, now), Reservation(0, j.Remaining(now), j.nodes), t);
    }
  }

  /** What holds all through a pass: the pool is well formed, the schedule is
      never negative, and what it has free now is the number of idle nodes. */
  ghost predicate Sound(up: seq<bool>, s: Sweep) {
    && WellFormed(Pool(up, s.jobs))
    && (forall t: nat :: Free(|UpSet(up)|, s.rs, t) >= 0)
    && Free(|UpSet(up)|, s.rs, 0) == |IdleSet(up, s.jobs)|
  }

  /** Reserving a hole keeps the schedule non-negative. */
  lemma ReserveHole(total: nat, rs: seq<Reservation>, h: nat, time: nat, nodes: nat)
    requires forall t: nat :: Free(total, rs, t) >= 0
    requires time >= 1 && Fits(total, rs, h, time, nodes)
    ensures var after := rs + [Reservation(h, h + time, nodes)];
      && (forall t: nat :: Free(total, after, t) >= 0)
      && Free(total, after, 0) == Free(total, rs, 0) - if h == 0 then nodes else 0
  {
    var r := Reservation(h, h + time, nodes);
    forall t: nat
      ensures Free(total, rs + [r], t) >= 0
    {
      assert Free(total, rs, t) >= if h <= t <= h + time then nodes else 0;
      UsedAppend(rs, r, t);
    }
    UsedAppend(rs, r, 0);
  }

  /** A job started at hole 0 gets exactly as many nodes as it asked for, each
      of them up and idle until then. */
  lemma StartTakesIdleNodes(up: seq<bool>, s: Sweep, nodes: nat)
    requires Sound(up, s) && Free(|UpSet(up)|, s.rs, 0) >= nodes
    ensures var held := TakeIdle(up, HeldSet(s.jobs), 0, nodes);
      && |held| == nodes
      && NoRepeats(held)
      && SetOf(held) <= IdleSet(up, s.jobs)
  {
    assert IdleFrom(up, HeldSet(s.jobs), 0) == IdleSet(up, s.jobs);
    TakeIdleIsIdle(up, HeldSet(s.jobs), 0, nodes);
    TakeIdleCount(up, HeldSet(s.jobs), 0, nodes);
  }

  lemma {:induction false} HeldOfStart(jobs: seq<Job>, k: nat, j: Job)
    requires NoSharing(jobs) && k < |jobs| && jobs[k].held == []
    requires SetOf(j.held) !! HeldSet(jobs)
    ensures NoSharing(jobs[k := j])
    ensures HeldSet(jobs[k := j]) == HeldSet(jobs) + SetOf(j.held)
  {
    var n := |jobs| - 1;
    assert jobs[k := j][..n] == if k < n then jobs[..n][k := j] else jobs[..n];
    if k < n {
      HeldOfStart(jobs[..n], k, j);
    } else {
      assert SetOf(jobs[k].held) == {};
    }
  }

  lemma StartKeepsWellFormed(up: seq<bool>, jobs: seq<Job>, k: nat, start: nat, held: seq<nat>)
    requires WellFormed(Pool(up, jobs)) && k < |jobs| && !jobs[k].Running() && start >= 1
    requires |held| == jobs[k].nodes && NoRepeats(held) && SetOf(held) <= IdleSet(up, jobs)
    ensures WellFormed(Pool(up, jobs[k := jobs[k].(start := start, held := jobs[k].held + held)]))
  {
    assert JobOk(jobs[k], up);
    assert jobs[k].held + held == held;
    var j := jobs[k].(start := start, held := held);
    HeldOfStart(jobs, k, j);
    assert JobOk(j, up) by {
      assert forall n :: n in held ==> n in SetOf(held);
    }
    assert forall x :: x in jobs[k := j] ==> x == j || x in jobs;
  }

  lemma StartTakesFromIdle(up: seq<bool>, jobs: seq<Job>, k: nat, start: nat, held: seq<nat>)
    requires NoSharing(jobs) && k < |jobs| && jobs[k].held == []
    requires |held| == jobs[k].nodes && NoRepeats(held) && SetOf(held) <= IdleSet(up, jobs)
    ensures var after := jobs[k := jobs[k].(start := start, held := jobs[k].held + held)];
      |IdleSet(up, after)| == |IdleSet(up, jobs)| - jobs[k].nodes
  {
    hide HeldSet, NoSharing, NoRepeats;
    assert jobs[k].held + held == held;
    var j := jobs[k].(start := start, held := held);
    HeldOfStart(jobs, k, j);
    DistinctSize(held);
    assert IdleSet(up, jobs[k := j]) == IdleSet(up, jobs) - SetOf(held);
  }

  /** A start at hole 0 keeps the pool well formed and uses up as many idle nodes as the
      job asked for. */
  lemma StartLowersIdle(up: seq<bool>, s: Sweep, k: nat, start: nat)
    requires Sound(up, s) && k < |s.jobs| && !s.jobs[k].Running() && start >= 1
    requires Fits(|UpSet(up)|, s.rs, 0, s.jobs[k].secs, s.jobs[k].nodes)
    ensures var j := s.jobs[k];
      var after := s.jobs[k := j.(start := start, held := j.held + TakeIdle(up, HeldSet(s.jobs), 0, j.nodes))];
      WellFormed(Pool(up, after)) && |IdleSet(up, after)| == |IdleSet(up, s.jobs)| - j.nodes
  {
    var j := s.jobs[k];
    assert JobOk(j, up) && j.held == [];
    assert WellFormed(Pool(up, s.jobs)) && NoSharing(s.jobs);
    assert Free(|UpSet(up)|, s.rs, 0) >= j.nodes;
    hide *;
    StartTakesIdleNodes(up, s, j.nodes);
    var held := TakeIdle(up, HeldSet(s.jobs), 0, j.nodes);
    StartKeepsWellFormed(up, s.jobs, k, start, held);
    StartTakesFromIdle(up, s.jobs, k, start, held);
  }

  lemma SoundAfter(up: seq<bool>, s: Sweep, jobs: seq<Job>, r: Reservation)
    requires WellFormed(Pool(up, jobs)) && forall t: nat :: Free(|UpSet(up)|, s.rs + [r], t) >= 0
    requires Free(|UpSet(up)|, s.rs + [r], 0) == |IdleSet(up, jobs)|
    ensures Sound(up, Sweep(jobs, s.rs + [r]))
  {
  }

  /** The parts of soundness, for whoever does not need to look inside them. */
  lemma SoundParts(up: seq<bool>, s: Sweep, k: nat)
    requires Sound(up, s) && k < |s.jobs|
    ensures WellFormed(Pool(up, s.jobs)) && JobOk(s.jobs[k], up) && s.jobs[k].secs >= 1
    ensures forall t: nat :: Free(|UpSet(up)|, s.rs, t) >= 0
    ensures Free(|UpSet(up)|, s.rs, 0) == |IdleSet(up, s.jobs)|
  {
  }

  lemma AdmitIs(up: seq<bool>, s: Sweep, k: nat, h: nat, start: nat)
    requires k < |s.jobs|
    ensures var j := s.jobs[k];
      var held := j.held + TakeIdle(up, HeldSet(s.jobs), 0, j.nodes);
      Admit(up, s, k, h, start) == Sweep(if h == 0 then s.jobs[k := j.(start := start, held := held)] else s.jobs,
                                         s.rs + [Reservation(h, h + j.secs, j.nodes)])
  {
  }

  lemma AdmitKeepsSound(up: seq<bool>, s: Sweep, k: nat, h: nat, start: nat)
    requires Sound(up, s) && k < |s.jobs| && !s.jobs[k].Running() && start >= 1
    requires Fits(|UpSet(up)|, s.rs, h, s.jobs[k].secs, s.jobs[k].nodes)
    ensures Sound(up, Admit(up, s, k, h, start))
  {
    hide *;
    var j := s.jobs[k];
    AdmitIs(up, s, k, h, start);
    SoundParts(up, s, k);
    ReserveHole(|UpSet(up)|, s.rs, h, j.secs, j.nodes);
    if h == 0 { StartLowersIdle(up, s, k, start); }
    SoundAfter(up, s, Admit(up, s, k, h, start).jobs, Reservation(h, h + j.secs, j.nodes));
  }

  lemma SweepJobKeepsSound(up: seq<bool>, s: Sweep, k: nat, now: nat, late: seq<nat>)
    requires Sound(up, s) && k < |s.jobs| && now >= 1
    ensures Sound(up, SweepJob(up, s, k, now, late))
  {
    hide Sound;
    var j := s.jobs[k];
    if !j.Running() && Runnable(j, up) {
      var h := Hole(|UpSet(up)|, s.rs, j.secs, j.nodes);
      if h >= 0 {
        AdmitKeepsSound(up, s, k, h, now + LateAt(late, k));
      }
    }
  }

  lemma {:induction false} SweepKeepsSound(up: seq<bool>, s: Sweep, k: nat, now: nat, late: seq<nat>)
    requires Sound(up, s) && k <= |s.jobs| && now >= 1
    ensures Sound(up, SweepFrom(up, s, k, now, late))
    decreases |s.jobs| - k
  {
    hide Sound, SweepJob;
    if k < |s.jobs| {
      SweepJobKeepsSound(up, s, k, now, late);
      SweepKeepsSound(up, SweepJob(up, s, k, now, late), k + 1, now, late);
    }
  }

  lemma {:induction false} KillKeepsWellFormed(jobs: seq<Job>, up: seq<bool>, now: nat)
    requires WellFormed(Pool(up, jobs))
    ensures WellFormed(Pool(up, KillExpired(jobs, now)))
    ensures HeldSet(KillExpired(jobs, now)) <= HeldSet(jobs)
    ensures forall j :: j in KillExpired(jobs, now) <==> j in jobs && !j.Expired(now)
  {
    if jobs != [] {
      var front, last := jobs[..|jobs| - 1], jobs[|jobs| - 1];
      KillKeepsWellFormed(front, up, now);
      assert jobs == front + [last];
      var kept := KillExpired(front, now);
      assert (kept + [last])[..|kept|] == kept;
    }
  }

  lemma StartIsSound(p: Pool, now: nat)
    requires WellFormed(p)
    ensures Sound(p.up, SweepStart(p.jobs, now))
  {
    KillKeepsWellFormed(p.jobs, p.up, now);
    var q := p.(jobs := KillExpired(p.jobs, now));
    var rs := RunningReservations(q.jobs, now);
    HeldCount(q.jobs, p.up);
    assert UpSet(p.up) == IdleSet(p.up, q.jobs) + HeldSet(q.jobs);
    forall t: nat
      ensures Free(|UpSet(p.up)|, rs, t) >= 0
      ensures t == 0 ==> Free(|UpSet(p.up)|, rs, t) == |IdleSet(p.up, q.jobs)|
    {
      RunningUse(q.jobs, now, t);
    }
  }

  /** The whole pass re-establishes the invariant it starts from. */
  lemma PassIsSound(p: Pool, now: nat, late: seq<nat>)
    requires WellFormed(p) && now >= 1
    ensures Sound(p.up, PassSweep(p, now, late))
    ensures WellFormed(Pass(p, now, late))
  {
    StartIsSound(p, now);
    SweepKeepsSound(p.up, SweepStart(p.jobs, now), 0, now, late);
  }

  lemma {:induction false} LastEnd(rs: seq<Reservation>) returns (s: nat)
    ensures forall t: nat :: t >= s ==> Used(rs, t) == 0
  {
    if rs == [] {
      s := 0;
    } else {
      s := LastEnd(rs[..|rs| - 1]);
      s := if s < rs[|rs| - 1].to then rs[|rs| - 1].to else s;
    }
  }

  /** From s on there are not enough nodes up to and including second s + time. */
  ghost predicate Blocked(total: nat, rs: seq<Reservation>, s: nat, time: nat, nodes: nat) {
    exists x: nat :: s <= x <= s + time && Used(rs, x) + nodes > total
  }

  /** A waiting job always finds a hole, since after the last reservation every node is free:
      the least start from which the nodes are there up to and including the last second. */
  lemma HoleNeverMissing(total: nat, rs: seq<Reservation>, time: nat, nodes: nat)
    requires nodes <= total
    ensures var h := Hole(total, rs, time, nodes);
      && h >= 0
      && (forall x: nat :: h <= x <= h + time ==> Used(rs, x) + nodes <= total)
      && (forall s: nat :: s < h ==> Blocked(total, rs, s, time, nodes))
  {
    var s := LastEnd(rs);
    assert Fits(total, rs, s, time, nodes);
    hide Used;
    var h := Hole(total, rs, time, nodes);
    assert IsHole(total, rs, h, time, nodes);
    forall x: nat | h <= x <= h + time ensures Used(rs, x) + nodes <= total {
      assert Free(total, rs, x) >= nodes;
    }
    forall s: nat | s < h ensures Blocked(total, rs, s, time, nodes) {
      assert !Fits(total, rs, s, time, nodes);
      var x: nat :| s <= x <= s + time && Free(total, rs, x) < nodes;
      assert Used(rs, x) + nodes > total;
    }
  }

  // ---- turn by turn --------------------------------------------------------

  /** Positions already swept are not touched again. */
  lemma {:induction false} SweepKeepsEarlier(up: seq<bool>, s: Sweep, i: nat, now: nat, late: seq<nat>)
    requires i <= |s.jobs|
    ensures SweepFrom(up, s, i, now, late).jobs[..i] == s.jobs[..i]
    decreases |s.jobs| - i
  {
    if i < |s.jobs| {
      var r := SweepJob(up, s, i, now, late);
      SweepKeepsEarlier(up, r, i + 1, now, late);
      var out := SweepFrom(up, r, i + 1, now, late).jobs;
      assert out[..i] == out[..i + 1][..i] == r.jobs[..i + 1][..i] == s.jobs[..i];
    }
  }

  lemma {:induction false} UpToThenFrom(up: seq<bool>, s: Sweep, k: nat, now: nat, late: seq<nat>)
    requires k <= |s.jobs|
    ensures SweepFrom(up, SweepUpTo(up, s, k, now, late), k, now, late) == SweepFrom(up, s, 0, now, late)
  {
    if k > 0 { UpToThenFrom(up, s, k - 1, now, late); }
  }

  lemma {:induction false} UpToLeavesLater(up: seq<bool>, s: Sweep, k: nat, now: nat, late: seq<nat>)
    requires k <= |s.jobs|
    ensures forall i :: k <= i < |s.jobs| ==> SweepUpTo(up, s, k, now, late).jobs[i] == s.jobs[i]
  {
    if k > 0 { UpToLeavesLater(up, s, k - 1, now, late); }
  }

  lemma {:induction false} UpToKeepsEarlier(up: seq<bool>, s: Sweep, i: nat, k: nat, now: nat, late: seq<nat>)
    requires i < k <= |s.jobs|
    ensures SweepUpTo(up, s, k, now, late).jobs[i] == SweepUpTo(up, s, i + 1, now, late).jobs[i]
    decreases k
  {
    if i + 1 < k { UpToKeepsEarlier(up, s, i, k - 1, now, late); }
  }

  /** The invariant holds after every turn. */
  lemma {:induction false} UpToIsSound(up: seq<bool>, s: Sweep, k: nat, now: nat, late: seq<nat>)
    requires Sound(up, s) && k <= |s.jobs| && now >= 1
    ensures Sound(up, SweepUpTo(up, s, k, now, late))
  {
    hide Sound, SweepJob;
    if k > 0 {
      UpToIsSound(up, s, k - 1, now, late);
      SweepJobKeepsSound(up, SweepUpTo(up, s, k - 1, now, late), k - 1, now, late);
    }
  }

  /** What turn k makes of the job it meets. One that is running or cannot run is passed
      over. Any other is given a reservation, the earliest hole the reservations before
      leave; if that is now it starts, with exactly as many distinct nodes as it asked
      for, all up and idle until then, and else nothing else changes. */
  ghost predicate Placed(up: seq<bool>, before: Sweep, after: Sweep, k: nat, now: nat, late: seq<nat>) {
    && k < |before.jobs| == |after.jobs|
    && var j, started := before.jobs[k], after.jobs[k];
      if j.start != 0 || !j.ready || j.nodes > |UpSet(up)| then after == before
      else
        var h := Hole(|UpSet(up)|, before.rs, j.secs, j.nodes);
        && h >= 0
        && after.rs == before.rs + [Reservation(h, h + j.secs, j.nodes)]
        && if h > 0 then after.jobs == before.jobs
           else
             && started == j.(start := now + if k < |late| then late[k] else 0, held := started.held)
             && |started.held| == j.nodes && NoRepeats(started.held)
             && SetOf(started.held) <= IdleSet(up, before.jobs)
             && (forall x, m :: x in started.held && m in IdleSet(up, before.jobs) && m < x ==> m in started.held)
             && after.jobs == before.jobs[k := started]
  }

  lemma KilledAtStart(jobs: seq<Job>, now: nat)
    ensures SweepStart(jobs, now).jobs == KillExpired(jobs, now)
  {
  }

  lemma PassEndsWith(p: Pool, k: nat, now: nat, late: seq<nat>)
    requires k < |SweepStart(p.jobs, now).jobs|
    ensures var s := SweepStart(p.jobs, now);
      && |Pass(p, now, late).jobs| == |s.jobs|
      && Pass(p, now, late).jobs[k] == SweepUpTo(p.up, s, k + 1, now, late).jobs[k]
  {
    var s := SweepStart(p.jobs, now);
    hide SweepStart, SweepUpTo, SweepFrom;
    var after := SweepUpTo(p.up, s, k + 1, now, late);
    UpToThenFrom(p.up, s, k + 1, now, late);
    SweepKeepsEarlier(p.up, after, k + 1, now, late);
    var out := SweepFrom(p.up, after, k + 1, now, late).jobs;
    assert out[..k + 1][k] == after.jobs[k];
  }

  /** A waiting job holds nothing, and at hole 0 gets all it asked for. */
  lemma HeldAtStart(up: seq<bool>, s: Sweep, k: nat)
    requires Sound(up, s) && k < |s.jobs| && !s.jobs[k].Running()
    requires Fits(|UpSet(up)|, s.rs, 0, s.jobs[k].secs, s.jobs[k].nodes)
    ensures var j := s.jobs[k];
      var held := j.held + TakeIdle(up, HeldSet(s.jobs), 0, j.nodes);
      && |held| == j.nodes && NoRepeats(held) && SetOf(held) <= IdleSet(up, s.jobs)
      && forall x, m :: x in held && m in IdleSet(up, s.jobs) && m < x ==> m in held
  {
    var j := s.jobs[k];
    assert JobOk(j, up) && j.held == [];
    TakeIdleBelow(up, HeldSet(s.jobs), j.nodes);
    assert IdleFrom(up, HeldSet(s.jobs), 0) == IdleSet(up, s.jobs);
    assert Free(|UpSet(up)|, s.rs, 0) >= j.nodes;
    hide *;
    StartTakesIdleNodes(up, s, j.nodes);
    var held := TakeIdle(up, HeldSet(s.jobs), 0, j.nodes);
    assert [] + held == held;
  }

  lemma AdmitPlaces(up: seq<bool>, before: Sweep, k: nat, h: nat, now: nat, late: seq<nat>)
    requires k < |before.jobs| && now >= 1
    requires before.jobs[k].start == 0 && before.jobs[k].ready && before.jobs[k].nodes <= |UpSet(up)|
    requires h == Hole(|UpSet(up)|, before.rs, before.jobs[k].secs, before.jobs[k].nodes)
    requires h == 0 ==> var j := before.jobs[k];
      var held := j.held + TakeIdle(up, HeldSet(before.jobs), 0, j.nodes);
      && |held| == j.nodes && NoRepeats(held) && SetOf(held) <= IdleSet(up, before.jobs)
      && forall x, m :: x in held && m in IdleSet(up, before.jobs) && m < x ==> m in held
    ensures Placed(up, before, Admit(up, before, k, h, now + LateAt(late, k)), k, now, late)
  {
    hide UpSet, HeldSet, IdleSet, TakeIdle, SetOf, NoRepeats, Hole;
  }

  lemma JobPlaces(up: seq<bool>, before: Sweep, k: nat, now: nat, late: seq<nat>)
    requires k < |before.jobs| && now >= 1 && Sound(up, before)
    ensures Placed(up, before, SweepJob(up, before, k, now, late), k, now, late)
  {
    var j := before.jobs[k];
    if Eligible(j, up) {
      HoleNeverMissing(|UpSet(up)|, before.rs, j.secs, j.nodes);
      var h := Hole(|UpSet(up)|, before.rs, j.secs, j.nodes);
      if h == 0 { HeldAtStart(up, before, k); }
      assert SweepJob(up, before, k, now, late) == Admit(up, before, k, h, now + LateAt(late, k));
      assert j.start == 0 && j.ready && j.nodes <= |UpSet(up)| && h >= 0;
      hide *;
      AdmitPlaces(up, before, k, h, now, late);
    } else {
      hide UpSet;
    }
  }

  lemma TurnPlaces(up: seq<bool>, s: Sweep, k: nat, now: nat, late: seq<nat>)
    requires k < |s.jobs| && now >= 1 && Sound(up, SweepUpTo(up, s, k, now, late))
    ensures Placed(up, SweepUpTo(up, s, k, now, late), SweepUpTo(up, s, k + 1, now, late), k, now, late)
  {
    assert SweepUpTo(up, s, k + 1, now, late) == SweepJob(up, SweepUpTo(up, s, k, now, late), k, now, late);
    hide *;
    JobPlaces(up, SweepUpTo(up, s, k, now, late), k, now, late);
  }

  /** Over a whole pass: the schedule is sound before and after each turn, the turn
      places its job, and what it makes of it is what the pass ends with. */
  lemma PassPlacesEveryJob(p: Pool, now: nat, late: seq<nat>, k: nat)
    requires WellFormed(p) && now >= 1 && k < |KillExpired(p.jobs, now)|
    ensures var s := SweepStart(p.jobs, now);
      var before, after := SweepUpTo(p.up, s, k, now, late), SweepUpTo(p.up, s, k + 1, now, late);
      && Sound(p.up, before) && Sound(p.up, after)
      && before.jobs[k] == s.jobs[k]
      && Placed(p.up, before, after, k, now, late)
      && |Pass(p, now, late).jobs| == |s.jobs| && Pass(p, now, late).jobs[k] == after.jobs[k]
  {
    hide *;
    var s := SweepStart(p.jobs, now);
    KilledAtStart(p.jobs, now);
    StartIsSound(p, now);
    UpToIsSound(p.up, s, k, now, late);
    UpToIsSound(p.up, s, k + 1, now, late);
    UpToLeavesLater(p.up, s, k, now, late);
    TurnPlaces(p.up, s, k, now, late);
    PassEndsWith(p, k, now, late);
  }

  /** Who is served, in the job's own fields: a turn makes one reservation for a waiting job
      that is ready and wants no more nodes than are up, and none for any other; and only
      such a job is started by the pass. */
  lemma OnlyRunnableAreServed(p: Pool, now: nat, late: seq<nat>, k: nat)
    requires WellFormed(p) && now >= 1 && k < |KillExpired(p.jobs, now)|
    ensures var s, j := SweepStart(p.jobs, now), KillExpired(p.jobs, now)[k];
      |SweepUpTo(p.up, s, k + 1, now, late).rs| == |SweepUpTo(p.up, s, k, now, late).rs| +
        if j.start == 0 && j.ready && j.nodes <= |UpSet(p.up)| then 1 else 0
    ensures var j, after := KillExpired(p.jobs, now)[k], Pass(p, now, late).jobs;
      && |after| == |KillExpired(p.jobs, now)|
      && (j.start == 0 && after[k].start != 0 ==> j.ready && j.nodes <= |UpSet(p.up)|)
  {
    KilledAtStart(p.jobs, now);
    PassPlacesEveryJob(p, now, late, k);
    hide Hole, UpSet, IdleSet, SetOf, NoRepeats, Sound, SweepStart, SweepUpTo, Pass, KillExpired;
  }
}
