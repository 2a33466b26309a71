/** The simple policy: kill what has expired, then start waiting jobs strictly in
    queue order for as long as the first of them fits. */
module SimplePool {
  import opened Basics
  import opened FillerSafety
  import opened FillerPool
  import opened Filler
  import opened SharedPool

  /** bjs_node_usable for jobs that may not be killed: no job holds the node. Whether
      the node is up is not asked. */
  function UsableSet(up: seq<bool>, jobs: seq<Job>): set<nat> {
    set i: nat | i < |up| && i !in HeldSet(jobs)
  }

  /** The idle nodes come first; a usable node that is left is down, and allocating
      it is refused, so it is only counted. */
  function StartedJob(up: seq<bool>, jobs: seq<Job>, k: nat, now: nat): Job
    requires k < |jobs|
  {
    jobs[k].(start := now, held := jobs[k].held + TakeIdle(up, HeldSet(jobs), 0, jobs[k].nodes))
  }

  function Starting(up: seq<bool>, jobs: seq<Job>, now: nat): (r: seq<Job>)
    requires now >= 1
    ensures |r| == |jobs|
    decreases Waiting(jobs)
  {
    var k := FirstToStart(jobs, up);
    if k == |jobs| || jobs[k].nodes > |UsableSet(up, jobs)| then jobs
    else
      WaitingAfterStart(jobs, k, StartedJob(up, jobs, k, now));
      Starting(up, jobs[k := StartedJob(up, jobs, k, now)], now)
  }

  function SimplePass(p: Pool, now: nat): Pool
    requires now >= 1
  {
    p.(jobs := Starting(p.up, KillExpired(p.jobs, now), now))
  }

  /** The pass stops with nobody left to start, or at a first job that does not fit. */
  lemma {:induction false} StartingStops(up: seq<bool>, jobs: seq<Job>, now: nat)
    requires now >= 1
    ensures var r := Starting(up, jobs, now);
      var k := FirstToStart(r, up);
      && (k < |r| ==> r[k].nodes > |UsableSet(up, r)|)
      && Waiting(r) <= Waiting(jobs)
    ensures (forall j :: j in jobs ==> j.secs >= 1 && !j.Expired(now)) ==>
      forall j :: j in Starting(up, jobs, now) ==> !j.Expired(now)
    decreases Waiting(jobs)
  {
    var k := FirstToStart(jobs, up);
    if k < |jobs| && jobs[k].nodes <= |UsableSet(up, jobs)| {
      var j := StartedJob(up, jobs, k, now);
      WaitingAfterStart(jobs, k, j);
      assert jobs[k] in jobs;
      assert forall x :: x in jobs[k := j] ==> x == j || x in jobs;
      StartingStops(up, jobs[k := j], now);
    }
  }

  lemma {:induction false} TakeIdleAtMost(up: seq<bool>, busy: set<nat>, i: nat, n: nat)
    requires i <= |up|
    ensures |TakeIdle(up, busy, i, n)| <= |IdleFrom(up, busy, i)|
    decreases |up| - i
  {
    TakeIdleIsIdle(up, busy, i, n);
    DistinctSize(TakeIdle(up, busy, i, n));
    SubsetSize(SetOf(TakeIdle(up, busy, i, n)), IdleFrom(up, busy, i));
  }

  /** A job that is started gets all the nodes it asked for exactly when that many
      are idle: what the policy counts before is the nodes no job holds, and that
      is not enough when some of them are down. */
  lemma StartedInFull(up: seq<bool>, jobs: seq<Job>, k: nat, now: nat)
    requires k < |jobs| && jobs[k].held == []
    ensures |StartedJob(up, jobs, k, now).held| == jobs[k].nodes <==> jobs[k].nodes <= |IdleSet(up, jobs)|
    ensures var held := StartedJob(up, jobs, k, now).held;
      forall x, m :: x in held && m in IdleSet(up, jobs) && m < x ==> m in held
  {
    var busy, n := HeldSet(jobs), jobs[k].nodes;
    assert IdleFrom(up, busy, 0) == IdleSet(up, jobs);
    assert [] + TakeIdle(up, busy, 0, n) == TakeIdle(up, busy, 0, n);
    assert StartedJob(up, jobs, k, now).held == TakeIdle(up, busy, 0, n);
    hide StartedJob, TakeIdle, HeldSet, IdleSet, IdleFrom;
    TakeIdleBelow(up, busy, n);
    if n <= |IdleSet(up, jobs)| { TakeIdleCount(up, busy, 0, n); }
    TakeIdleAtMost(up, busy, 0, n);
  }

  /** With every node up the two counts agree, and each started job is served. */
  lemma UsableIsIdleWhenUp(up: seq<bool>, jobs: seq<Job>)
    ensures (forall i :: 0 <= i < |up| ==> up[i]) ==> UsableSet(up, jobs) == IdleSet(up, jobs)
    ensures IdleSet(up, jobs) <= UsableSet(up, jobs)
  {
  }

  // ---- the whole pass ----------------------------------------------------------------

  /** What the jobs that wait in a and run in b asked for together. */
  function StartedNodes(a: seq<Job>, b: seq<Job>): nat
    requires |a| == |b|
  {
    if a == [] then 0
    else
      var n := |a| - 1;
      StartedNodes(a[..n], b[..n]) + if !a[n].Running() && b[n].Running() then b[n].nodes else 0
  }

  lemma {:induction false} StartedNodesStep(a: seq<Job>, k: nat, j: Job, b: seq<Job>)
    requires k < |a| == |b| && !a[k].Running() && j.Running() && b[k] == j
    ensures StartedNodes(a, b) == j.nodes + StartedNodes(a[k := j], b)
  {
    var n := |a| - 1;
    if k < n {
      assert a[k := j][..n] == a[..n][k := j];
      StartedNodesStep(a[..n], k, j, b[..n]);
    } else {
      assert a[k := j][..n] == a[..n];
    }
  }

  lemma {:induction false} NothingStarted(a: seq<Job>)
    ensures StartedNodes(a, a) == 0
  {
    if a != [] { NothingStarted(a[..|a| - 1]); }
  }

  lemma {:induction false} RunningStay(up: seq<bool>, jobs: seq<Job>, now: nat, i: nat)
    requires now >= 1 && i < |jobs| && jobs[i].Running()
    ensures Starting(up, jobs, now)[i] == jobs[i]
    decreases Waiting(jobs)
  {
    var k := FirstToStart(jobs, up);
    if k < |jobs| && jobs[k].nodes <= |UsableSet(up, jobs)| {
      var j := StartedJob(up, jobs, k, now);
      WaitingAfterStart(jobs, k, j);
      hide UsableSet, StartedJob, FirstToStart;
      RunningStay(up, jobs[k := j], now, i);
    }
  }

  lemma StartingStep(up: seq<bool>, jobs: seq<Job>, now: nat)
    requires now >= 1 && FirstToStart(jobs, up) < |jobs|
    requires jobs[FirstToStart(jobs, up)].nodes <= |UsableSet(up, jobs)|
    ensures var k := FirstToStart(jobs, up);
      var j := StartedJob(up, jobs, k, now);
      && Waiting(jobs[k := j]) < Waiting(jobs)
      && Starting(up, jobs, now) == Starting(up, jobs[k := j], now)
      && Starting(up, jobs, now)[k] == j
      && StartedNodes(jobs, Starting(up, jobs, now)) == j.nodes + StartedNodes(jobs[k := j], Starting(up, jobs, now))
  {
    var k := FirstToStart(jobs, up);
    var j := StartedJob(up, jobs, k, now);
    WaitingAfterStart(jobs, k, j);
    assert Starting(up, jobs, now) == Starting(up, jobs[k := j], now);
    hide Starting;
    RunningStay(up, jobs[k := j], now, k);
    StartedNodesStep(jobs, k, j, Starting(up, jobs, now));
  }

  /** A start that idle nodes suffice for keeps the pool well formed and takes that many
      of them; any other leaves a running job short. */
  lemma StartIsExact(up: seq<bool>, jobs: seq<Job>, k: nat, now: nat)
    requires WellFormed(Pool(up, jobs)) && k < |jobs| && !jobs[k].Running() && now >= 1
    ensures var j := StartedJob(up, jobs, k, now);
      if jobs[k].nodes <= |IdleSet(up, jobs)|
      then WellFormed(Pool(up, jobs[k := j])) && |IdleSet(up, jobs[k := j])| == |IdleSet(up, jobs)| - j.nodes
      else !JobOk(j, up)
  {
    assert JobOk(jobs[k], up) && jobs[k].held == [] && NoSharing(jobs);
    StartedInFull(up, jobs, k, now);
    if jobs[k].nodes <= |IdleSet(up, jobs)| {
      var busy, n := HeldSet(jobs), jobs[k].nodes;
      var held := TakeIdle(up, busy, 0, n);
      assert IdleFrom(up, busy, 0) == IdleSet(up, jobs);
      hide WellFormed, JobOk, NoSharing, HeldSet, IdleSet, UpSet;
      TakeIdleIsIdle(up, busy, 0, n);
      TakeIdleCount(up, busy, 0, n);
      StartKeepsWellFormed(up, jobs, k, now, held);
      StartTakesFromIdle(up, jobs, k, now, held);
    }
  }

  /** A round of starts serves everyone it starts in full exactly when they ask together
      for no more nodes than are idle before it. */
  lemma {:induction false} StartingIsExact(up: seq<bool>, jobs: seq<Job>, now: nat)
    requires WellFormed(Pool(up, jobs)) && now >= 1
    ensures var after := Starting(up, jobs, now);
      WellFormed(Pool(up, after)) <==> StartedNodes(jobs, after) <= |IdleSet(up, jobs)|
    decreases Waiting(jobs)
  {
    var k := FirstToStart(jobs, up);
    if k < |jobs| && jobs[k].nodes <= |UsableSet(up, jobs)| {
      var j := StartedJob(up, jobs, k, now);
      var after := Starting(up, jobs, now);
      StartingStep(up, jobs, now);
      StartIsExact(up, jobs, k, now);
      assert j.nodes == jobs[k].nodes && after[k] == j;
      hide Starting, FirstToStart, UsableSet, StartedJob, JobOk, IdleSet, NoSharing, StartedNodes;
      if jobs[k].nodes <= |IdleSet(up, jobs)| {
        StartingIsExact(up, jobs[k := j], now);
      } else {
        assert j in after;
      }
    } else {
      NothingStarted(jobs);
    }
  }

  // ---- the condition before the pass -------------------------------------------------

  /** What the runnable waiting jobs ask for, in queue order. */
  function Asked(jobs: seq<Job>, up: seq<bool>): seq<nat> {
    if jobs == [] then []
    else
      var j := jobs[0];
      (if j.start == 0 && j.ready && j.nodes <= |UpSet(up)| then [j.nodes] else []) + Asked(jobs[1..], up)
  }

  /** Down that list, for as long as a request fits the usable nodes that are left it
      also fits the idle ones that are left. */
  predicate NoGap(asked: seq<nat>, idle: int, usable: int) {
    asked == [] || asked[0] > usable ||
    (asked[0] <= idle && NoGap(asked[1..], idle - asked[0], usable - asked[0]))
  }

  lemma {:induction false} NobodyAsks(jobs: seq<Job>, up: seq<bool>)
    requires forall i :: 0 <= i < |jobs| ==> !Eligible(jobs[i], up)
    ensures Asked(jobs, up) == []
  {
    if jobs != [] { NobodyAsks(jobs[1..], up); }
  }

  lemma {:induction false} FirstAsks(jobs: seq<Job>, up: seq<bool>, k: nat, j: Job)
    requires k < |jobs| && Eligible(jobs[k], up) && j.Running()
    requires forall i :: 0 <= i < k ==> !Eligible(jobs[i], up)
    ensures Asked(jobs, up) == [jobs[k].nodes] + Asked(jobs[k := j], up)
  {
    if k == 0 {
      assert jobs[k := j][1..] == jobs[1..];
    } else {
      assert jobs[k := j][1..] == jobs[1..][k - 1 := j];
      FirstAsks(jobs[1..], up, k - 1, j);
    }
  }

  lemma StartTakesUsable(up: seq<bool>, jobs: seq<Job>, k: nat, now: nat)
    requires WellFormed(Pool(up, jobs)) && k < |jobs| && !jobs[k].Running() && now >= 1
    requires jobs[k].nodes <= |IdleSet(up, jobs)|
    ensures |UsableSet(up, jobs[k := StartedJob(up, jobs, k, now)])| == |UsableSet(up, jobs)| - jobs[k].nodes
  {
    assert JobOk(jobs[k], up) && jobs[k].held == [] && NoSharing(jobs);
    var busy, n := HeldSet(jobs), jobs[k].nodes;
    var held := TakeIdle(up, busy, 0, n);
    assert [] + held == held && IdleFrom(up, busy, 0) == IdleSet(up, jobs);
    hide WellFormed, JobOk, NoSharing, HeldSet, NoRepeats, TakeIdle, IdleFrom, UpSet;
    TakeIdleIsIdle(up, busy, 0, n);
    TakeIdleCount(up, busy, 0, n);
    HeldOfStart(jobs, k, StartedJob(up, jobs, k, now));
    DistinctSize(held);
    UsableIsIdleWhenUp(up, jobs);
    assert UsableSet(up, jobs[k := StartedJob(up, jobs, k, now)]) == UsableSet(up, jobs) - SetOf(held);
  }

  lemma {:induction false} StartingHasNoGap(up: seq<bool>, jobs: seq<Job>, now: nat)
    requires WellFormed(Pool(up, jobs)) && now >= 1
    ensures WellFormed(Pool(up, Starting(up, jobs, now))) <==>
      NoGap(Asked(jobs, up), |IdleSet(up, jobs)|, |UsableSet(up, jobs)|)
    decreases Waiting(jobs)
  {
    var k := FirstToStart(jobs, up);
    if k == |jobs| {
      NobodyAsks(jobs, up);
    } else {
      var j := StartedJob(up, jobs, k, now);
      assert j.Running();
      FirstAsks(jobs, up, k, j);
      if jobs[k].nodes <= |UsableSet(up, jobs)| {
        StartingStep(up, jobs, now);
        StartIsExact(up, jobs, k, now);
        var after := Starting(up, jobs, now);
        hide Starting, FirstToStart, StartedJob, JobOk, IdleSet, UsableSet, NoSharing, Asked;
        if jobs[k].nodes <= |IdleSet(up, jobs)| {
          StartTakesUsable(up, jobs, k, now);
          StartingHasNoGap(up, jobs[k := j], now);
        } else {
          assert after[k] == j && j in after;
        }
      }
    }
  }

  /** Over a whole pass: every job started gets all its nodes, and the pool is as well
      formed as before, if and only if the requests of the jobs that may start leave no
      gap between idle and usable nodes once the expired jobs are gone. */
  lemma PassServesIff(p: Pool, now: nat)
    requires WellFormed(p) && now >= 1
    ensures var alive := KillExpired(p.jobs, now);
      WellFormed(SimplePass(p, now)) <==>
      NoGap(Asked(alive, p.up), |IdleSet(p.up, alive)|, |UsableSet(p.up, alive)|)
  {
    KillKeepsWellFormed(p.jobs, p.up, now);
    hide WellFormed, IdleSet, UsableSet, Asked, NoGap, KillExpired;
    StartingHasNoGap(p.up, KillExpired(p.jobs, now), now);
  }

  /** The same read off the finished pass: the jobs it started ask together for no more
      nodes than were idle. */
  lemma PassServesSum(p: Pool, now: nat)
    requires WellFormed(p) && now >= 1
    ensures var alive, after := KillExpired(p.jobs, now), SimplePass(p, now);
      && |after.jobs| == |alive|
      && (WellFormed(after) <==> StartedNodes(alive, after.jobs) <= |IdleSet(p.up, alive)|)
  {
    KillKeepsWellFormed(p.jobs, p.up, now);
    hide WellFormed, IdleSet, KillExpired;
    StartingIsExact(p.up, KillExpired(p.jobs, now), now);
  }

  lemma {:induction false} NoGapWhenEqual(asked: seq<nat>, n: int)
    ensures NoGap(asked, n, n)
  {
    if asked != [] && asked[0] <= n { NoGapWhenEqual(asked[1..], n - asked[0]); }
  }

  /** With every node up the policy always does. */
  lemma PassServesWhenUp(p: Pool, now: nat)
    requires WellFormed(p) && now >= 1 && forall i :: 0 <= i < |p.up| ==> p.up[i]
    ensures WellFormed(SimplePass(p, now))
  {
    var alive := KillExpired(p.jobs, now);
    UsableIsIdleWhenUp(p.up, alive);
    hide WellFormed, IdleSet, UsableSet, KillExpired;
    PassServesIff(p, now);
    NoGapWhenEqual(Asked(alive, p.up), |IdleSet(p.up, alive)|);
  }

  lemma ShortSets(up: seq<bool>, a: Job, b: Job)
    requires up == [true, true, false] && a.held == [0] && b.held == []
    ensures HeldSet([a, b]) == {0} && UsableSet(up, [a, b]) == {1, 2}
    ensures IdleSet(up, [a, b]) == {1} && IdleFrom(up, {0}, 0) == {1}
    ensures |UpSet(up)| == 2
  {
    assert [a, b][..1] == [a] && [a][..0] == [];
    assert HeldSet([a]) == {0} && HeldSet([a, b]) == {0};
    hide HeldSet;
    assert UpSet(up) == {0, 1};
  }

  lemma ShortJobs(up: seq<bool>, a: Job, b: Job)
    requires up == [true, true, false] && a == Job(0, 1, 10, true, 5, [0]) && b == Job(1, 2, 10, true, 0, [])
    requires |UpSet(up)| == 2
    ensures WellFormed(Pool(up, [a, b])) && JobOk(a, up) && JobOk(b, up)
  {
    assert [a, b][..1] == [a] && [a][..0] == [];
    assert NoSharing([a]) && SetOf(b.held) == {};
    hide UpSet, HeldSet;
    assert JobOk(a, up) && JobOk(b, up);
  }

  lemma ShortPool(up: seq<bool>, a: Job, b: Job)
    requires up == [true, true, false] && a == Job(0, 1, 10, true, 5, [0]) && b == Job(1, 2, 10, true, 0, [])
    ensures HeldSet([a, b]) == {0} && UsableSet(up, [a, b]) == {1, 2}
    ensures IdleSet(up, [a, b]) == {1} && IdleFrom(up, {0}, 0) == {1}
    ensures WellFormed(Pool(up, [a, b])) && FirstToStart([a, b], up) == 1
  {
    ShortSets(up, a, b);
    ShortJobs(up, a, b);
    hide HeldSet, UpSet, WellFormed, UsableSet, IdleSet, IdleFrom;
    assert [a, b][..1] == [a] && [a][..0] == [];
    assert FirstToStart([a], up) == 1;
  }

  lemma ShortAsked(up: seq<bool>, a: Job, b: Job)
    requires up == [true, true, false] && a == Job(0, 1, 10, true, 5, [0]) && b == Job(1, 2, 10, true, 0, [])
    ensures KillExpired([a, b], 6) == [a, b] && Asked([a, b], up) == [2]
  {
    assert [a, b][..1] == [a] && [a][..0] == [] && [a, b][1..] == [b] && [b][1..] == [];
    assert !a.Expired(6) && !b.Expired(6);
    assert KillExpired([], 6) == [] && KillExpired([a], 6) == [a];
    assert UpSet(up) == {0, 1};
    hide UpSet;
    assert !Eligible(a, up) && Eligible(b, up);
    assert Asked([], up) == [] && Asked([b], up) == [2];
  }

  /** A pool where it goes wrong: one node busy, one idle, one down. The job that
      wants two nodes can run in principle, is the next to start, passes the count,
      and is given fewer nodes than it asked for. */
  lemma ShortStart()
    ensures var p := Pool([true, true, false], [Job(0, 1, 10, true, 5, [0]), Job(1, 2, 10, true, 0, [])]);
      var after := SimplePass(p, 6);
      && WellFormed(p) && !WellFormed(after) && |after.jobs| == 2
      && after.jobs[0] == p.jobs[0]
      && after.jobs[1].Running() && |after.jobs[1].held| < p.jobs[1].nodes
  {
    var up := [true, true, false];
    var a, b := Job(0, 1, 10, true, 5, [0]), Job(1, 2, 10, true, 0, []);
    var jobs := [a, b];
    ShortPool(up, a, b);
    ShortAsked(up, a, b);
    assert !NoGap([2], 1, 2) && |IdleFrom(up, {0}, 0)| == 1;
    assert StartedJob(up, jobs, 1, 6).Running();
    hide WellFormed, HeldSet, UsableSet, IdleSet, Asked, KillExpired;
    hide Starting, NoGap, StartedJob, IdleFrom, UpSet, StartedNodes;
    PassServesIff(Pool(up, jobs), 6);
    StartingStep(up, jobs, 6);
    RunningStay(up, jobs, 6, 0);
    StartedInFull(up, jobs, 1, 6);
    TakeIdleAtMost(up, {0}, 0, 2);
  }

  method IsHeld(q: PoolQueue, i: nat) returns (held: bool)
    ensures held <==> i in HeldSet(q.jobs)
  {
    HeldByWhom(q.jobs, i);
    held := false;
    var m := 0;
    while m < |q.jobs| && !held
      invariant 0 <= m <= |q.jobs|
      invariant held ==> i in HeldSet(q.jobs)
      invariant !held ==> forall x :: 0 <= x < m ==> i !in q.jobs[x].held
    {
      if i in q.jobs[m].held { held := true; }
      m := m + 1;
    }
  }

  /** count_free_nodes. */
  method CountFreeNodes(q: PoolQueue) returns (ct: nat)
    ensures ct == |UsableSet(q.up, q.jobs)|
  {
    ct := 0;
    ghost var seen: set<nat> := {};
    var i := 0;
    while i < |q.up|
      invariant 0 <= i <= |q.up| && ct == |seen|
      invariant seen == (set n: nat | n < i && n !in HeldSet(q.jobs))
    {
      var held := IsHeld(q, i);
      if !held {
        ct := ct + 1;
        seen := seen + {i};
      }
      i := i + 1;
    }
    assert seen == UsableSet(q.up, q.jobs);
  }

  /** simple_schedule. Starting a job is not reported, only killing one. */
  method SimpleSchedule(q: PoolQueue, now: nat) returns (didSomething: bool)
    requires now >= 1
    modifies q`jobs
    ensures q.Value() == SimplePass(old(q.Value()), now)
    ensures didSomething <==> exists j :: j in old(q.jobs) && j.Expired(now)
  {
    didSomething := q.KillExpiredJobs(now);
    ghost var alive := q.jobs;
    var k := FindFirstRunnable(q);
    while k < |q.jobs|
      invariant k == FirstToStart(q.jobs, q.up)
      invariant Starting(q.up, q.jobs, now) == Starting(q.up, alive, now)
      decreases Waiting(q.jobs)
    {
      var free := CountFreeNodes(q);
      if q.jobs[k].nodes > free { return; }
      ghost var before := q.jobs;
      WaitingAfterStart(before, k, StartedJob(q.up, before, k, now));
      q.TakeNodes(k);
      q.jobs := q.jobs[k := q.jobs[k].(start := now)];
      assert q.jobs == before[k := StartedJob(q.up, before, k, now)];
      k := FindFirstRunnable(q);
    }
  }
}
