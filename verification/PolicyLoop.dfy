/** The scheduler's main loop over its pools: run every policy, again and again,
    until a whole round reports that nothing was done. */
module PolicyLoop {
  import opened SimplePool
  import opened SharedPool
  import opened Filler
  import opened FillerPool
  import opened FillerSafety
  import opened Basics
  import NoDelay
  datatype Kind = FillerPolicy | SimplePolicy | SharedPolicy

  /** Accepted requests are positive; a filler pool also keeps its allocation invariant. */
  ghost predicate Sane(kind: Kind, p: Pool) {
    && (forall j :: j in p.jobs ==> j.nodes >= 1 && j.secs >= 1)
    && (kind.FillerPolicy? ==> WellFormed(p))
  }

  /** With the clock at now the policy has nothing left to do in this pool. */
  ghost predicate Quiet(kind: Kind, p: Pool, now: nat) {
    match kind
    case FillerPolicy => !Acted(p, now, [])
    case SimplePolicy =>
      && (forall j :: j in p.jobs ==> !j.Expired(now))
      && (var k := FirstToStart(p.jobs, p.up); k < |p.jobs| ==> p.jobs[k].nodes > |UsableSet(p.up, p.jobs)|)
    case SharedPolicy => FirstToStart(p.jobs, p.up) == |p.jobs|
  }

  /** What every round that does something lowers. */
  function Work(jobs: seq<Job>): nat {
    |jobs| + Waiting(jobs)
  }

  // ---- a pass only removes expired jobs and starts waiting ones ---------------------

  ghost predicate StartsOnly(a: seq<Job>, b: seq<Job>) {
    && |a| == |b|
    && forall i :: 0 <= i < |a| ==>
         b[i] == a[i] || (!a[i].Running() && b[i].Running() && b[i].nodes == a[i].nodes && b[i].secs == a[i].secs)
  }

  lemma StartedInFront(a: seq<Job>, b: seq<Job>)
    requires |a| == |b| > 0
    ensures var n := |a| - 1;
      StartedIn(a, b) <==> StartedIn(a[..n], b[..n]) || (!a[n].Running() && b[n].Running())
  {
    var n := |a| - 1;
    if StartedIn(a[..n], b[..n]) {
      var k :| 0 <= k < n && !a[..n][k].Running() && b[..n][k].Running();
      assert !a[k].Running() && b[k].Running();
    }
    if StartedIn(a, b) {
      var k :| 0 <= k < |a| && !a[k].Running() && b[k].Running();
      if k < n { assert !a[..n][k].Running() && b[..n][k].Running(); }
    }
  }

  lemma FrontStartsOnly(a: seq<Job>, b: seq<Job>)
    requires StartsOnly(a, b) && a != []
    ensures var n := |a| - 1;
      && StartsOnly(a[..n], b[..n])
      && (b[n] == a[n] || (!a[n].Running() && b[n].Running()))
      && (a == b <==> a[..n] == b[..n] && a[n] == b[n])
  {
    var n := |a| - 1;
    assert a == a[..n] + [a[n]] && b == b[..n] + [b[n]];
  }

  lemma {:induction false} StartsLower(a: seq<Job>, b: seq<Job>)
    requires StartsOnly(a, b)
    ensures Waiting(b) <= Waiting(a)
    ensures StartedIn(a, b) ==> Waiting(b) < Waiting(a)
    ensures !StartedIn(a, b) ==> a == b
  {
    if a != [] {
      var n := |a| - 1;
      assert Waiting(a) == Waiting(a[..n]) + (if a[n].Running() then 0 else 1);
      assert Waiting(b) == Waiting(b[..n]) + (if b[n].Running() then 0 else 1);
      FrontStartsOnly(a, b);
      hide StartsOnly, StartedIn, Waiting;
      StartsLower(a[..n], b[..n]);
      StartedInFront(a, b);
    } else {
      assert b == [];
    }
  }

  lemma SweepJobStartsOnly(up: seq<bool>, s: Sweep, k: nat, now: nat, late: seq<nat>)
    requires now >= 1 && k < |s.jobs|
    ensures StartsOnly(s.jobs, SweepJob(up, s, k, now, late).jobs)
  {
  }

  lemma {:induction false} SweepStartsOnly(up: seq<bool>, s: Sweep, k: nat, now: nat, late: seq<nat>)
    requires now >= 1 && k <= |s.jobs|
    ensures StartsOnly(s.jobs, SweepFrom(up, s, k, now, late).jobs)
    decreases |s.jobs| - k
  {
    if k < |s.jobs| {
      SweepJobStartsOnly(up, s, k, now, late);
      var r := SweepJob(up, s, k, now, late);
      hide SweepJob;
      SweepStartsOnly(up, r, k + 1, now, late);
    }
  }

  lemma WaitingOneMore(jobs: seq<Job>, j: Job)
    ensures Waiting(jobs + [j]) == Waiting(jobs) + if j.Running() then 0 else 1
  {
    assert (jobs + [j])[..|jobs|] == jobs;
  }

  lemma KillOneMore(jobs: seq<Job>, j: Job, now: nat)
    ensures KillExpired(jobs + [j], now) ==
      if j.Expired(now) then KillExpired(jobs, now) else KillExpired(jobs, now) + [j]
  {
    assert (jobs + [j])[..|jobs|] == jobs;
  }

  lemma {:induction false} KillKeepsWaiting(jobs: seq<Job>, now: nat)
    ensures Waiting(KillExpired(jobs, now)) == Waiting(jobs)
  {
    if jobs != [] {
      hide Waiting, KillExpired;
      var front, last := jobs[..|jobs| - 1], jobs[|jobs| - 1];
      assert jobs == front + [last];
      KillKeepsWaiting(front, now);
      KillOneMore(front, last, now);
      WaitingOneMore(KillExpired(front, now), last);
      WaitingOneMore(front, last);
    }
  }

  lemma {:induction false} NoneExpiredNoneKilled(jobs: seq<Job>, now: nat)
    requires forall j :: j in jobs ==> !j.Expired(now)
    ensures KillExpired(jobs, now) == jobs
  {
    if jobs != [] {
      var n := |jobs| - 1;
      assert forall j :: j in jobs[..n] ==> j in jobs;
      NoneExpiredNoneKilled(jobs[..n], now);
      assert jobs[n] in jobs && jobs == jobs[..n] + [jobs[n]];
    }
  }

  /** Killing: never more work, less if anything expired. */
  lemma KillLowers(jobs: seq<Job>, now: nat)
    ensures Work(KillExpired(jobs, now)) <= Work(jobs)
    ensures (exists j :: j in jobs && j.Expired(now)) ==> Work(KillExpired(jobs, now)) < Work(jobs)
    ensures forall j :: j in KillExpired(jobs, now) ==> j in jobs && !j.Expired(now)
  {
    KillKeepsWaiting(jobs, now);
    KillRemovesExpired(jobs, now);
    NoDelay.KillKeepsMembers(jobs, now);
  }

  lemma FillerPassLowers(p: Pool, now: nat)
    requires now >= 1
    ensures var q := Pass(p, now, []);
      && Work(q.jobs) <= Work(p.jobs)
      && (Acted(p, now, []) ==> Work(q.jobs) < Work(p.jobs))
      && (!Acted(p, now, []) ==> q == p)
      && ((forall j :: j in p.jobs ==> j.nodes >= 1 && j.secs >= 1) ==>
            forall j :: j in q.jobs ==> j.nodes >= 1 && j.secs >= 1)
  {
    var alive := KillExpired(p.jobs, now);
    var q := Pass(p, now, []);
    KillLowers(p.jobs, now);
    hide SweepFrom, KillExpired, Waiting, RunningReservations;
    SweepStartsOnly(p.up, SweepStart(p.jobs, now), 0, now, []);
    StartsLower(alive, q.jobs);
    forall j | j in q.jobs ensures exists i :: i in alive && i.nodes == j.nodes && i.secs == j.secs {
      var k :| 0 <= k < |q.jobs| && q.jobs[k] == j;
      assert alive[k] in alive;
    }
    if !Acted(p, now, []) { NoneExpiredNoneKilled(p.jobs, now); }
  }

  lemma {:induction false} StartingStartsOnly(up: seq<bool>, jobs: seq<Job>, now: nat)
    requires now >= 1
    ensures StartsOnly(jobs, Starting(up, jobs, now))
    decreases Waiting(jobs)
  {
    var k := FirstToStart(jobs, up);
    if k < |jobs| && jobs[k].nodes <= |UsableSet(up, jobs)| {
      WaitingAfterStart(jobs, k, StartedJob(up, jobs, k, now));
      StartingStartsOnly(up, jobs[k := StartedJob(up, jobs, k, now)], now);
    }
  }

  lemma SimplePassLowers(p: Pool, now: nat)
    requires now >= 1 && Sane(SimplePolicy, p)
    ensures var q := SimplePass(p, now);
      && Work(q.jobs) <= Work(p.jobs)
      && ((exists j :: j in p.jobs && j.Expired(now)) ==> Work(q.jobs) < Work(p.jobs))
      && Sane(SimplePolicy, q) && Quiet(SimplePolicy, q, now)
  {
    var alive := KillExpired(p.jobs, now);
    var q := SimplePass(p, now);
    KillLowers(p.jobs, now);
    StartingStartsOnly(p.up, alive, now);
    StartsLower(alive, q.jobs);
    StartingStops(p.up, alive, now);
    forall j | j in q.jobs ensures j.nodes >= 1 && j.secs >= 1 {
      var k :| 0 <= k < |q.jobs| && q.jobs[k] == j;
      assert alive[k] in alive;
    }
  }

  lemma SharedPassLowers(up: seq<bool>, jobs: seq<Job>, order: seq<nat>, now: nat)
    requires now >= 1 && order != [] && forall j :: j in jobs ==> j.nodes >= 1 && j.secs >= 1
    ensures var q := Starts(up, Spread(jobs, 0), order, now).jobs;
      && Work(q) <= Work(jobs)
      && (FirstToStart(jobs, up) < |jobs| ==> Work(q) < Work(jobs))
      && forall j :: j in q ==> j.nodes >= 1 && j.secs >= 1
  {
    StartsAreOk(up, jobs, Spread(jobs, 0), order, now);
    var q := Starts(up, Spread(jobs, 0), order, now).jobs;
    hide Starts;
    forall j | j in q ensures j.nodes >= 1 && j.secs >= 1 {
      var k :| 0 <= k < |q| && q[k] == j;
      assert jobs[k] in jobs;
    }
  }

  lemma FreeAtStart(p: Pool, now: nat)
    requires Sound(p.up, SweepStart(p.jobs, now)) && KillExpired(p.jobs, now) == p.jobs
    ensures |UpSet(p.up)| - Used(RunningReservations(p.jobs, now), 0) == |IdleSet(p.up, p.jobs)|
  {
  }

  lemma RoomIs(p: Pool, now: nat, n: nat)
    requires NoDelay.Busy(p.jobs, now) + n <= |UpSet(p.up)|
    ensures NoDelay.RoomFrom(p, now, n)
  {
  }

  lemma IdleIsRoom(p: Pool, n: nat, now: nat)
    requires WellFormed(p) && KillExpired(p.jobs, now) == p.jobs && n <= |IdleSet(p.up, p.jobs)|
    ensures NoDelay.RoomFrom(p, now, n)
  {
    hide *;
    StartIsSound(p, now);
    FreeAtStart(p, now);
    NoDelay.KillKeepsMembers(p.jobs, now);
    NoDelay.RunningUseIsBusy(p.jobs, now, 0);
    RoomIs(p, now, n);
  }

  /** The running jobs only ever free nodes, so enough idle nodes now are enough for
      any length of time. */
  lemma HoleIsNow(p: Pool, k: nat, now: nat)
    requires WellFormed(p) && KillExpired(p.jobs, now) == p.jobs && k < |p.jobs|
    requires p.jobs[k].nodes <= |IdleSet(p.up, p.jobs)|
    ensures Hole(|UpSet(p.up)|, SweepStart(p.jobs, now).rs, p.jobs[k].secs, p.jobs[k].nodes) == 0
  {
    IdleIsRoom(p, p.jobs[k].nodes, now);
    hide WellFormed, IdleSet, UpSet, KillExpired, RunningReservations, NoDelay.RoomFrom, Hole;
    NoDelay.RoomBoundsHole(p, k, now, now);
  }

  /** A quiet filler pool's first runnable waiting job really does not fit now: it
      wants more nodes than are idle. */
  lemma QuietFillerIsFull(p: Pool, now: nat)
    requires now >= 1 && WellFormed(p) && Quiet(FillerPolicy, p, now)
    ensures var k := FirstToStart(p.jobs, p.up); k < |p.jobs| ==> p.jobs[k].nodes > |IdleSet(p.up, p.jobs)|
  {
    var k := FirstToStart(p.jobs, p.up);
    if k < |p.jobs| {
      NoneExpiredNoneKilled(p.jobs, now);
      FillerPassLowers(p, now);
      var s := SweepStart(p.jobs, now);
      NoDelay.SweepReachesFirst(p.up, s, 0, k, now, []);
      SweepKeepsEarlier(p.up, SweepJob(p.up, s, k, now, []), k + 1, now, []);
      var r := SweepJob(p.up, s, k, now, []);
      var out := SweepFrom(p.up, r, k + 1, now, []).jobs;
      assert out[..k + 1][k] == r.jobs[k];
      assert out == p.jobs;
      var j := p.jobs[k];
      StartIsSound(p, now);
      assert JobOk(j, p.up);
      if j.nodes <= |IdleSet(p.up, p.jobs)| {
        HoleIsNow(p, k, now);
      }
    }
  }

  lemma QuietIsUnchanged(p: Pool, now: nat)
    requires now >= 1 && WellFormed(p) && Quiet(FillerPolicy, p, now)
    ensures KillExpired(p.jobs, now) == p.jobs && Pass(p, now, []) == p
    ensures SweepStart(p.jobs, now).jobs == p.jobs
  {
    NoneExpiredNoneKilled(p.jobs, now);
    FillerPassLowers(p, now);
  }

  /** Where the pass changes nothing, neither do its first k turns. */
  lemma UpToIsUnchanged(p: Pool, now: nat, k: nat)
    requires now >= 1 && WellFormed(p) && Pass(p, now, []) == p && KillExpired(p.jobs, now) == p.jobs
    requires SweepStart(p.jobs, now).jobs == p.jobs && k <= |p.jobs|
    ensures SweepUpTo(p.up, SweepStart(p.jobs, now), k, now, []).jobs == p.jobs
  {
    hide *;
    var start := SweepStart(p.jobs, now);
    var s := SweepUpTo(p.up, start, k, now, []);
    UpToLeavesLater(p.up, start, k, now, []);
    forall i | 0 <= i < k ensures s.jobs[i] == p.jobs[i] {
      PassPlacesEveryJob(p, now, [], i);
      UpToKeepsEarlier(p.up, start, i, k, now, []);
    }
  }

  /** And none of its runnable waiting jobs could start: the hole that is left for it after
      the reservations of the jobs before it is later than now. */
  lemma QuietFillerReservesAll(p: Pool, now: nat, k: nat)
    requires now >= 1 && WellFormed(p) && Quiet(FillerPolicy, p, now)
    requires k < |p.jobs| && Eligible(p.jobs[k], p.up)
    ensures KillExpired(p.jobs, now) == p.jobs
    ensures var s := SweepUpTo(p.up, SweepStart(p.jobs, now), k, now, []);
      s.jobs == p.jobs && Hole(|UpSet(p.up)|, s.rs, p.jobs[k].secs, p.jobs[k].nodes) > 0
  {
    hide Quiet, WellFormed, Pass, Hole, SweepUpTo, SweepStart, KillExpired, UpSet, Sound, IdleSet;
    QuietIsUnchanged(p, now);
    UpToIsUnchanged(p, now, k);
    PassPlacesEveryJob(p, now, [], k);
  }

  // ---- what becomes of every job ------------------------------------------------------

  /** Job a could run and waited, and has been started at now: it is the same job and has
      been given distinct up nodes, as many as it asked for unless the policy is simple. */
  predicate StartedAs(kind: Kind, up: seq<bool>, a: Job, b: Job, now: nat) {
    && a.start == 0 && a.ready && a.nodes <= |UpSet(up)|
    && b.start == now && b.id == a.id && b.nodes == a.nodes && b.secs == a.secs && b.ready == a.ready
    && |a.held| <= |b.held| && b.held[..|a.held|] == a.held
    && var got := b.held[|a.held|..];
      && NoRepeats(got) && (forall n :: n in got ==> n < |up| && up[n])
      && |got| <= a.nodes && (kind != SimplePolicy ==> |got| == a.nodes)
  }

  predicate Carried(kind: Kind, up: seq<bool>, a: seq<Job>, b: seq<Job>, now: nat) {
    |a| == |b| && forall i :: 0 <= i < |a| ==> b[i] == a[i] || StartedAs(kind, up, a[i], b[i], now)
  }

  /** The queue positions of the jobs whose time is not over. */
  function Kept(jobs: seq<Job>, now: nat): (ks: seq<nat>)
    ensures forall i, k :: 0 <= i < k < |ks| ==> ks[i] < ks[k]
    ensures forall i :: 0 <= i < |ks| ==> ks[i] < |jobs|
    ensures forall x :: 0 <= x < |jobs| ==> (x in ks <==> !(jobs[x].start != 0 && now - jobs[x].start >= jobs[x].secs))
  {
    if jobs == [] then []
    else
      var n := |jobs| - 1;
      var before := Kept(jobs[..n], now);
      if jobs[n].start != 0 && now - jobs[n].start >= jobs[n].secs then before else before + [n]
  }

  function Survivors(jobs: seq<Job>, now: nat): seq<Job> {
    var ks := Kept(jobs, now);
    seq(|ks|, i requires 0 <= i < |ks| => jobs[ks[i]])
  }

  /** The jobs whose time is over are gone, but for the shared policy, which kills none; each
      of the others is as it was or has been started. */
  predicate Outcome(kind: Kind, up: seq<bool>, a: seq<Job>, b: seq<Job>, now: nat) {
    Carried(kind, up, if kind == SharedPolicy then a else Survivors(a, now), b, now)
  }

  lemma {:induction false} KillLeavesSurvivors(jobs: seq<Job>, now: nat)
    ensures KillExpired(jobs, now) == Survivors(jobs, now)
  {
    if jobs != [] {
      var n := |jobs| - 1;
      KillLeavesSurvivors(jobs[..n], now);
      assert Survivors(jobs, now) == Survivors(jobs[..n], now) + if jobs[n].Expired(now) then [] else [jobs[n]];
    }
  }

  lemma PlacedIsCarried(up: seq<bool>, before: Sweep, after: Sweep, k: nat, now: nat)
    requires Placed(up, before, after, k, now, []) && JobOk(before.jobs[k], up)
    ensures after.jobs[k] == before.jobs[k] || StartedAs(FillerPolicy, up, before.jobs[k], after.jobs[k], now)
  {
    var held := after.jobs[k].held;
    assert before.jobs[k].start == 0 ==> before.jobs[k].held == [];
    assert forall n :: n in held ==> n in SetOf(held);
    assert held[0..] == held && held[..0] == [];
    hide SetOf, NoRepeats, HeldSet, JobOk, Hole;
  }

  lemma FillerOutcome(p: Pool, now: nat)
    requires WellFormed(p) && now >= 1
    ensures Outcome(FillerPolicy, p.up, p.jobs, Pass(p, now, []).jobs, now)
  {
    var a, b := KillExpired(p.jobs, now), Pass(p, now, []).jobs;
    KillLeavesSurvivors(p.jobs, now);
    KillKeepsWellFormed(p.jobs, p.up, now);
    KilledAtStart(p.jobs, now);
    if a == [] { assert Pass(p, now, []).jobs == []; }
    assert forall j :: j in a ==> JobOk(j, p.up);
    hide WellFormed, JobOk, Pass, SweepStart, SweepUpTo, Survivors, KillExpired, StartedAs, Placed, Sound;
    forall k | 0 <= k < |a| ensures |b| == |a| && (b[k] == a[k] || StartedAs(FillerPolicy, p.up, a[k], b[k], now)) {
      PassPlacesEveryJob(p, now, [], k);
      var s := SweepStart(p.jobs, now);
      assert a[k] in a;
      PlacedIsCarried(p.up, SweepUpTo(p.up, s, k, now, []), SweepUpTo(p.up, s, k + 1, now, []), k, now);
    }
  }

  lemma {:induction false} TakeIdleAtMostAsked(up: seq<bool>, busy: set<nat>, i: nat, n: nat)
    requires i <= |up|
    ensures |TakeIdle(up, busy, i, n)| <= n
    decreases |up| - i
  {
    if i < |up| && n > 0 {
      TakeIdleAtMostAsked(up, busy, i + 1, if up[i] && i !in busy then n - 1 else n);
    }
  }

  lemma {:induction false} StartingCarries(up: seq<bool>, jobs: seq<Job>, now: nat)
    requires now >= 1
    ensures Carried(SimplePolicy, up, jobs, Starting(up, jobs, now), now)
    decreases Waiting(jobs)
  {
    var k := FirstToStart(jobs, up);
    if k < |jobs| && jobs[k].nodes <= |UsableSet(up, jobs)| {
      var j := StartedJob(up, jobs, k, now);
      var got := TakeIdle(up, HeldSet(jobs), 0, jobs[k].nodes);
      TakeIdleIsIdle(up, HeldSet(jobs), 0, jobs[k].nodes);
      TakeIdleAtMostAsked(up, HeldSet(jobs), 0, jobs[k].nodes);
      assert forall n :: n in got ==> n in SetOf(got);
      assert StartedAs(SimplePolicy, up, jobs[k], j, now);
      StartingStep(up, jobs, now);
      StartingCarries(up, jobs[k := j], now);
    }
  }

  lemma SimpleOutcome(p: Pool, now: nat)
    requires now >= 1
    ensures Outcome(SimplePolicy, p.up, p.jobs, SimplePass(p, now).jobs, now)
  {
    KillLeavesSurvivors(p.jobs, now);
    StartingCarries(p.up, KillExpired(p.jobs, now), now);
  }

  lemma PlacedIsStarted(up: seq<bool>, a: Job, b: Job, order: seq<nat>, from: nat, now: nat)
    requires now >= 1 && order != [] && NoRepeats(order) && forall n :: n in order <==> n in UpSet(up)
    requires Eligible(a, up) && StartedWith(a, b, order, from, now)
    ensures StartedAs(SharedPolicy, up, a, b, now)
  {
    OrderCovers(order, up);
    PlaceIsDistinct(order, from, a.nodes);
    var got := Place(order, from, a.nodes);
    assert forall n :: n in got ==> n in UpSet(up);
    assert |got| == a.nodes && b.held[|a.held|..] == got && b.held[..|a.held|] == a.held;
    hide Place, NoRepeats;
  }

  lemma SharedOutcome(up: seq<bool>, jobs: seq<Job>, order: seq<nat>, now: nat)
    requires now >= 1 && order != [] && LeastLoadedFirst(order, up, jobs)
    ensures Outcome(SharedPolicy, up, jobs, Starts(up, Spread(jobs, 0), order, now).jobs, now)
  {
    StartsAreOk(up, jobs, Spread(jobs, 0), order, now);
    var after := Starts(up, Spread(jobs, 0), order, now).jobs;
    hide Starts, NoRepeats, Load, UpSet, StartedWith, StartedAs, FirstToStart, Waiting;
    forall k | 0 <= k < |jobs| ensures after[k] == jobs[k] || StartedAs(SharedPolicy, up, jobs[k], after[k], now) {
      if after[k] != jobs[k] {
        var from: nat :| StartedWith(jobs[k], after[k], order, from, now);
        PlacedIsStarted(up, jobs[k], after[k], order, from, now);
      }
    }
  }

  /** A job whose time is not over at now keeps that, started or not. */
  lemma NoneOver(kind: Kind, up: seq<bool>, a: seq<Job>, b: seq<Job>, now: nat)
    requires now >= 1 && kind != SharedPolicy && Outcome(kind, up, a, b, now)
    requires forall j :: j in a ==> j.secs >= 1
    ensures Survivors(b, now) == b
  {
    var ks, r := Kept(a, now), Survivors(a, now);
    forall k | 0 <= k < |b| ensures !b[k].Expired(now) {
      assert ks[k] in ks && a[ks[k]] in a && r[k] == a[ks[k]];
      assert b[k] == r[k] || StartedAs(kind, up, r[k], b[k], now);
    }
    NoneExpiredNoneKilled(b, now);
    KillLeavesSurvivors(b, now);
  }

  /** Two calls with the same clock are as good as one. */
  lemma OutcomeTwice(kind: Kind, up: seq<bool>, a: seq<Job>, b: seq<Job>, c: seq<Job>, now: nat)
    requires now >= 1 && Outcome(kind, up, a, b, now) && Outcome(kind, up, b, c, now)
    requires forall j :: j in a ==> j.secs >= 1
    ensures Outcome(kind, up, a, c, now)
  {
    if kind != SharedPolicy { NoneOver(kind, up, a, b, now); }
    hide Survivors;
  }

  // ---- the loop -----------------------------------------------------------------------

  function Sum(s: seq<nat>): nat {
    if s == [] then 0 else Sum(s[..|s| - 1]) + s[|s| - 1]
  }

  lemma {:induction false} SumUpdate(s: seq<nat>, i: nat, v: nat)
    requires i < |s|
    ensures Sum(s[i := v]) == Sum(s) - s[i] + v
  {
    var n := |s| - 1;
    assert s[i := v][..n] == if i < n then s[..n][i := v] else s[..n];
    if i < n { SumUpdate(s[..n], i, v); }
  }

  lemma NothingDone(up: seq<bool>, jobs: seq<Job>, now: nat)
    ensures Outcome(SharedPolicy, up, jobs, jobs, now)
  {
  }

  /** One policy's schedule call. */
  method RunPolicy(kind: Kind, q: PoolQueue, now: nat) returns (did: bool)
    requires now >= 1 && Sane(kind, q.Value())
    modifies q`jobs
    ensures Outcome(kind, q.up, old(q.jobs), q.jobs, now)
    ensures Sane(kind, q.Value())
    ensures Work(q.jobs) <= Work(old(q.jobs))
    ensures did ==> Work(q.jobs) < Work(old(q.jobs))
    ensures !did ==> Quiet(kind, q.Value(), now)
  {
    ghost var p := q.Value();
    hide Outcome;
    match kind
    case FillerPolicy =>
      FillerOutcome(p, now);
      FillerPassLowers(p, now);
      did := q.Schedule(now, []);
    case SimplePolicy =>
      SimpleOutcome(p, now);
      SimplePassLowers(p, now);
      did := SimpleSchedule(q, now);
    case SharedPolicy =>
      ghost var order;
      did, order := SharedSchedule(q, now);
      if did {
        SharedOutcome(p.up, p.jobs, order, now);
        SharedPassLowers(p.up, p.jobs, order, now);
      } else {
        NothingDone(p.up, p.jobs, now);
      }
  }

  /** work lists the pools' work, none above its bound; every pool is sane. */
  ghost predicate Tracked(kinds: seq<Kind>, pools: seq<PoolQueue>, work: seq<nat>, bounds: seq<nat>)
    requires |kinds| == |pools|
    reads pools
  {
    && |work| == |bounds| == |pools|
    && forall i :: 0 <= i < |pools| ==>
         work[i] == Work(pools[i].jobs) && work[i] <= bounds[i] && Sane(kinds[i], pools[i].Value())
  }

  /** One round over all the pools. */
  method Round(kinds: seq<Kind>, pools: seq<PoolQueue>, now: nat, ghost work0: seq<nat>, ghost bounds: seq<nat>)
    returns (chng: bool, ghost work: seq<nat>)
    requires |kinds| == |pools| && now >= 1
    requires forall i, k :: 0 <= i < k < |pools| ==> pools[i] != pools[k]
    requires Tracked(kinds, pools, work0, bounds)
    modifies pools`jobs
    ensures forall i :: 0 <= i < |pools| ==> Outcome(kinds[i], pools[i].up, old(pools[i].jobs), pools[i].jobs, now)
    ensures Tracked(kinds, pools, work, bounds)
    ensures Sum(work) <= Sum(work0) && (chng ==> Sum(work) < Sum(work0))
    ensures !chng ==> forall k :: 0 <= k < |pools| ==> Quiet(kinds[k], pools[k].Value(), now)
  {
    hide Sane, Quiet, Work, Outcome, Sum;
    chng, work := false, work0;
    var i := 0;
    while i < |pools|
      invariant 0 <= i <= |pools| && Tracked(kinds, pools, work, bounds)
      invariant forall k :: 0 <= k < i ==> Outcome(kinds[k], pools[k].up, old(pools[k].jobs), pools[k].jobs, now)
      invariant forall k :: i <= k < |pools| ==> pools[k].jobs == old(pools[k].jobs)
      invariant Sum(work) <= Sum(work0) && (chng ==> Sum(work) < Sum(work0))
      invariant !chng ==> forall k :: 0 <= k < i ==> Quiet(kinds[k], pools[k].Value(), now)
    {
      var did := RunPolicy(kinds[i], pools[i], now);
      SumUpdate(work, i, Work(pools[i].jobs));
      work := work[i := Work(pools[i].jobs)];
      chng := chng || did;
      i := i + 1;
    }
  }

  /** What became of every pool's jobs, given what they were. */
  ghost predicate AllCarried(kinds: seq<Kind>, pools: seq<PoolQueue>, was: seq<seq<Job>>, now: nat)
    requires |kinds| == |pools|
    reads pools
  {
    |was| == |pools| && forall i :: 0 <= i < |pools| ==> Outcome(kinds[i], pools[i].up, was[i], pools[i].jobs, now)
  }

  /** One more round carries on what the rounds before made of the jobs. */
  method NextRound(kinds: seq<Kind>, pools: seq<PoolQueue>, now: nat, ghost work0: seq<nat>, ghost bounds: seq<nat>,
                   ghost was: seq<seq<Job>>)
    returns (chng: bool, ghost work: seq<nat>)
    requires |kinds| == |pools| && now >= 1
    requires forall i, k :: 0 <= i < k < |pools| ==> pools[i] != pools[k]
    requires Tracked(kinds, pools, work0, bounds) && AllCarried(kinds, pools, was, now)
    requires forall i :: 0 <= i < |was| ==> forall j :: j in was[i] ==> j.secs >= 1
    modifies pools`jobs
    ensures Tracked(kinds, pools, work, bounds) && AllCarried(kinds, pools, was, now)
    ensures Sum(work) <= Sum(work0) && (chng ==> Sum(work) < Sum(work0))
    ensures !chng ==> forall k :: 0 <= k < |pools| ==> Quiet(kinds[k], pools[k].Value(), now)
  {
    hide Sane, Quiet, Work, Outcome, Tracked;
    chng, work := Round(kinds, pools, now, work0, bounds);
    forall i | 0 <= i < |pools| ensures Outcome(kinds[i], pools[i].up, was[i], pools[i].jobs, now) {
      OutcomeTwice(kinds[i], pools[i].up, was[i], old(pools[i].jobs), pools[i].jobs, now);
    }
  }

  /** The do-while of main, with the clock standing at now. It ends, because every
      round but the last lowers the number of jobs plus waiting jobs. */
  method Rounds(kinds: seq<Kind>, pools: seq<PoolQueue>, now: nat, ghost bounds: seq<nat>, ghost was: seq<seq<Job>>)
    requires |kinds| == |pools| == |was| && now >= 1
    requires forall i, k :: 0 <= i < k < |pools| ==> pools[i] != pools[k]
    requires Tracked(kinds, pools, bounds, bounds) && forall i :: 0 <= i < |pools| ==> pools[i].jobs == was[i]
    requires forall i :: 0 <= i < |was| ==> forall j :: j in was[i] ==> j.secs >= 1
    modifies pools`jobs
    ensures AllCarried(kinds, pools, was, now)
    ensures exists work :: Tracked(kinds, pools, work, bounds)
    ensures forall i :: 0 <= i < |pools| ==> Quiet(kinds[i], pools[i].Value(), now)
  {
    hide Sane, Quiet, Work, Outcome;
    var chng;
    ghost var work;
    chng, work := Round(kinds, pools, now, bounds, bounds);
    while chng
      invariant Tracked(kinds, pools, work, bounds) && AllCarried(kinds, pools, was, now)
      invariant !chng ==> forall i :: 0 <= i < |pools| ==> Quiet(kinds[i], pools[i].Value(), now)
      decreases Sum(work), chng
    {
      chng, work := NextRound(kinds, pools, now, work, bounds, was);
    }
  }

  /** When the loop ends every pool is quiet, and each job is gone if its time was over,
      and else is as it was or has been started once. */
  method RunPolicies(kinds: seq<Kind>, pools: seq<PoolQueue>, now: nat)
    requires |kinds| == |pools| && now >= 1
    requires forall i, k :: 0 <= i < k < |pools| ==> pools[i] != pools[k]
    requires forall i :: 0 <= i < |pools| ==> Sane(kinds[i], pools[i].Value())
    modifies pools`jobs
    ensures forall i :: 0 <= i < |pools| ==> Outcome(kinds[i], pools[i].up, old(pools[i].jobs), pools[i].jobs, now)
    ensures forall i :: 0 <= i < |pools| ==> Sane(kinds[i], pools[i].Value())
    ensures forall i :: 0 <= i < |pools| ==> Quiet(kinds[i], pools[i].Value(), now)
    ensures forall i :: 0 <= i < |pools| ==> Work(pools[i].jobs) <= old(Work(pools[i].jobs))
  {
    assert forall i :: 0 <= i < |pools| ==> forall j :: j in pools[i].jobs ==> j.secs >= 1;
    hide Sane, Quiet, Work, Outcome;
    ghost var bounds: seq<nat> := seq(|pools|, i requires 0 <= i < |pools| reads pools => Work(pools[i].jobs));
    ghost var was: seq<seq<Job>> := seq(|pools|, i requires 0 <= i < |pools| reads pools => pools[i].jobs);
    Rounds(kinds, pools, now, bounds, was);
  }
}
