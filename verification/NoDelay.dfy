/** The promise made to the first runnable waiting job of a filler pool never
    moves later, over any run of passes, submissions and departures. */
module NoDelay {
  import opened FillerPool
  import opened FillerSafety

  // ---- who is first ------------------------------------------------------

  /** Queue position k is the first runnable waiting job, and the only one named id. */
  predicate IsFirst(p: Pool, k: nat, id: nat) {
    && k < |p.jobs|
    && (forall i :: 0 <= i < |p.jobs| ==> (p.jobs[i].id == id <==> i == k))
    && p.jobs[k].start == 0 && p.jobs[k].ready && p.jobs[k].nodes <= |UpSet(p.up)|
    && forall i :: 0 <= i < k ==> p.jobs[i].start != 0 || !p.jobs[i].ready || p.jobs[i].nodes > |UpSet(p.up)|
  }

  // ---- capacity left by the running jobs ----------------------------------

  /** Nodes of running jobs whose time is not over at absolute time t. */
  function Busy(jobs: seq<Job>, t: nat): nat {
    if jobs == [] then 0
    else
      var j := jobs[|jobs| - 1];
      Busy(jobs[..|jobs| - 1], t) + if j.Running() && j.start + j.secs > t then j.nodes else 0
  }

  lemma {:induction false} BusyMonotone(jobs: seq<Job>, t: nat, u: nat)
    requires t <= u
    ensures Busy(jobs, u) <= Busy(jobs, t)
  {
    if jobs != [] { BusyMonotone(jobs[..|jobs| - 1], t, u); }
  }

  function BusyOf(j: Job, t: nat): nat {
    if j.Running() && j.start + j.secs > t then j.nodes else 0
  }

  lemma {:induction false} BusyConcat(a: seq<Job>, b: seq<Job>, t: nat)
    ensures Busy(a + b, t) == Busy(a, t) + Busy(b, t)
  {
    if b == [] {
      assert a + b == a;
    } else {
      var n := |b| - 1;
      BusyConcat(a, b[..n], t);
      assert (a + b)[..|a + b| - 1] == a + b[..n];
    }
  }

  lemma BusyOne(j: Job, t: nat)
    ensures Busy([j], t) == BusyOf(j, t)
  {
    assert [j][..0] == [];
  }

  lemma BusySplit(jobs: seq<Job>, k: nat, t: nat)
    requires k < |jobs|
    ensures Busy(jobs, t) == Busy(jobs[..k], t) + BusyOf(jobs[k], t) + Busy(jobs[k + 1..], t)
  {
    BusyConcat(jobs[..k], [jobs[k]], t);
    BusyConcat(jobs[..k] + [jobs[k]], jobs[k + 1..], t);
    assert jobs == jobs[..k] + [jobs[k]] + jobs[k + 1..];
    BusyOne(jobs[k], t);
  }

  lemma BusyUpdate(jobs: seq<Job>, k: nat, j: Job, t: nat)
    requires k < |jobs|
    ensures Busy(jobs[k := j], t) == Busy(jobs, t) - BusyOf(jobs[k], t) + BusyOf(j, t)
  {
    hide Busy;
    var out := jobs[k := j];
    BusySplit(jobs, k, t);
    BusySplit(out, k, t);
    assert out[..k] == jobs[..k] && out[k + 1..] == jobs[k + 1..];
  }

  lemma BusyWithout(jobs: seq<Job>, k: nat, t: nat)
    requires k < |jobs|
    ensures Busy(jobs[..k] + jobs[k + 1..], t) == Busy(jobs, t) - BusyOf(jobs[k], t)
  {
    hide Busy;
    BusySplit(jobs, k, t);
    BusyConcat(jobs[..k], jobs[k + 1..], t);
  }

  /** Killing what has expired by now changes no capacity from now on. */
  lemma {:induction false} BusyAfterKill(jobs: seq<Job>, now: nat, t: nat)
    requires t >= now
    ensures Busy(KillExpired(jobs, now), t) == Busy(jobs, t)
  {
    if jobs != [] {
      var n := |jobs| - 1;
      BusyAfterKill(jobs[..n], now, t);
      var kept := KillExpired(jobs[..n], now);
      assert (kept + [jobs[n]])[..|kept|] == kept;
    }
  }

  /** Among jobs none of which has expired, the schedule of the running jobs is
      the capacity they leave, so it never falls as time goes on. The rounding
      of a remaining time up to one second is never taken. */
  lemma {:induction false} RunningUseIsBusy(jobs: seq<Job>, now: nat, x: nat)
    requires forall j :: j in jobs ==> !j.Expired(now)
    ensures Used(RunningReservations(jobs, now), x) == Busy(jobs, now + x)
  {
    if jobs != [] {
      var n := |jobs| - 1;
      var front := jobs[..n];
      assert forall j :: j in front ==> j in jobs;
      RunningUseIsBusy(front, now, x);
      assert jobs[n] in jobs;
      UsedAppend(RunningReservations(front, now), Reservation(0, jobs[n].Remaining(now), jobs[n].nodes), x);
    }
  }

  /** From absolute time t on, the running jobs always leave nodes for n more. */
  predicate RoomFrom(p: Pool, t: nat, n: nat) {
    Busy(p.jobs, t) + n <= |UpSet(p.up)|
  }

  lemma RoomLater(p: Pool, t: nat, u: nat, n: nat)
    requires RoomFrom(p, t, n) && t <= u
    ensures RoomFrom(p, u, n)
  {
    BusyMonotone(p.jobs, t, u);
  }

  // ---- the promise ---------------------------------------------------------

  /** The absolute start the pass at now promises to the job at position k of
      the surviving queue, when that job is the first one waiting. */
  ghost function Promise(p: Pool, k: nat, now: nat): int
    requires k < |KillExpired(p.jobs, now)|
  {
    var s := SweepStart(p.jobs, now);
    now + Hole(|UpSet(p.up)|, s.rs, s.jobs[k].secs, s.jobs[k].nodes)
  }

  /** Nobody before the first waiting job gets a reservation or starts. */
  lemma {:induction false} SweepReachesFirst(up: seq<bool>, s: Sweep, i: nat, k: nat, now: nat, late: seq<nat>)
    requires i <= k < |s.jobs|
    requires forall m :: i <= m < k ==> !Eligible(s.jobs[m], up)
    ensures SweepFrom(up, s, i, now, late) == SweepFrom(up, s, k, now, late)
    decreases k - i
  {
    if i < k {
      assert SweepJob(up, s, i, now, late) == s;
      SweepReachesFirst(up, s, i + 1, k, now, late);
    }
  }

  lemma {:induction false} SweepKeepsIds(up: seq<bool>, s: Sweep, i: nat, now: nat, late: seq<nat>)
    requires i <= |s.jobs|
    ensures forall m :: 0 <= m < |s.jobs| ==> SweepFrom(up, s, i, now, late).jobs[m].id == s.jobs[m].id
    decreases |s.jobs| - i
  {
    if i < |s.jobs| {
      SweepKeepsIds(up, SweepJob(up, s, i, now, late), i + 1, now, late);
    }
  }

  /** Every start of the pass is at most drift seconds late. */
  predicate Within(late: seq<nat>, drift: nat) {
    forall k :: 0 <= k < |late| ==> late[k] <= drift
  }

  /** Once the first job holds a reservation around now + h, backfilling keeps
      room for it there: jobs running past that moment, even if they started up
      to drift seconds late, are all paid for in the schedule at h. */
  ghost predicate Paid(s: Sweep, h: nat, now: nat, drift: nat, n: nat) {
    Busy(s.jobs, now + h + drift) + n <= Used(s.rs, h)
  }

  lemma SweepJobKeepsPaid(up: seq<bool>, s: Sweep, i: nat, h: nat, now: nat, late: seq<nat>, drift: nat, n: nat)
    requires i < |s.jobs| && Within(late, drift) && Paid(s, h, now, drift, n)
    ensures Paid(SweepJob(up, s, i, now, late), h, now, drift, n)
  {
    var j := s.jobs[i];
    if Eligible(j, up) {
      var g := Hole(|UpSet(up)|, s.rs, j.secs, j.nodes);
      if g >= 0 {
        UsedAppend(s.rs, Reservation(g, g + j.secs, j.nodes), h);
        var held := TakeIdle(up, HeldSet(s.jobs), 0, j.nodes);
        BusyUpdate(s.jobs, i, j.(start := now + LateAt(late, i), held := j.held + held), now + h + drift);
      }
    }
  }

  lemma {:induction false} SweepKeepsPaid(up: seq<bool>, s: Sweep, i: nat, h: nat, now: nat,
                                          late: seq<nat>, drift: nat, n: nat)
    requires i <= |s.jobs| && Paid(s, h, now, drift, n)
    requires Within(late, drift)
    ensures Paid(SweepFrom(up, s, i, now, late), h, now, drift, n)
    decreases |s.jobs| - i
  {
    if i < |s.jobs| {
      SweepJobKeepsPaid(up, s, i, h, now, late, drift, n);
      SweepKeepsPaid(up, SweepJob(up, s, i, now, late), i + 1, h, now, late, drift, n);
    }
  }

  // ---- one pass ------------------------------------------------------------

  lemma {:induction false} KillKeepsMembers(jobs: seq<Job>, now: nat)
    ensures forall j :: j in KillExpired(jobs, now) ==> j in jobs && !j.Expired(now)
  {
    if jobs != [] { KillKeepsMembers(jobs[..|jobs| - 1], now); }
  }

  /** Killing expired jobs keeps the first waiting job first. */
  lemma {:induction false} KillKeepsFirst(p: Pool, k: nat, id: nat, now: nat) returns (m: nat)
    requires IsFirst(p, k, id)
    ensures IsFirst(p.(jobs := KillExpired(p.jobs, now)), m, id)
    ensures KillExpired(p.jobs, now)[m] == p.jobs[k]
    decreases |p.jobs|
  {
    var n := |p.jobs| - 1;
    var front := p.(jobs := p.jobs[..n]);
    var kept := KillExpired(front.jobs, now);
    if k < n {
      m := KillKeepsFirst(front, k, id, now);
    } else {
      m := |kept|;
      KillKeepsMembers(front.jobs, now);
      forall i | 0 <= i < m ensures !Eligible(kept[i], p.up) && kept[i].id != id {
        assert kept[i] in kept;
        var i0 :| 0 <= i0 < n && front.jobs[i0] == kept[i];
        assert p.jobs[i0] == kept[i];
      }
    }
  }

  function Later(a: nat, b: nat): nat { if a < b then b else a }

  /** Where the running jobs leave room from time t on, the hole of the first
      job is no later than t, and it is now once t has come. */
  lemma RoomBoundsHole(p: Pool, k: nat, now: nat, t: nat)
    requires k < |KillExpired(p.jobs, now)|
    requires RoomFrom(p, t, KillExpired(p.jobs, now)[k].nodes)
    ensures now <= Promise(p, k, now) <= Later(now, t)
  {
    var s := SweepStart(p.jobs, now);
    var j := s.jobs[k];
    var total := |UpSet(p.up)|;
    var x0 := if now < t then t - now else 0;
    KillKeepsMembers(p.jobs, now);
    forall x: nat | x0 <= x <= x0 + j.secs
      ensures Free(total, s.rs, x) >= j.nodes
    {
      RunningUseIsBusy(s.jobs, now, x);
      BusyAfterKill(p.jobs, now, now + x);
      BusyMonotone(p.jobs, t, now + x);
    }
    assert Fits(total, s.rs, x0, j.secs, j.nodes);
    assert IsHole(total, s.rs, Hole(total, s.rs, j.secs, j.nodes), j.secs, j.nodes);
  }

  /** The job at position k is id, and runs with all the nodes it asked for. */
  predicate StartedAt(p: Pool, k: nat, id: nat) {
    k < |p.jobs| && p.jobs[k].id == id && p.jobs[k].Running() && |p.jobs[k].held| == p.jobs[k].nodes
  }

  lemma ReachFirst(up: seq<bool>, s: Sweep, m: nat, id: nat, now: nat, late: seq<nat>)
    requires IsFirst(Pool(up, s.jobs), m, id)
    ensures SweepFrom(up, s, 0, now, late) == SweepFrom(up, s, m, now, late)
  {
    SweepReachesFirst(up, s, 0, m, now, late);
  }

  lemma FirstStaysFirst(p: Pool, m: nat, id: nat, after: seq<Job>)
    requires IsFirst(p, m, id) && |after| == |p.jobs|
    requires forall i: nat :: i <= m ==> after[i] == p.jobs[i]
    requires forall i :: 0 <= i < |p.jobs| ==> after[i].id == p.jobs[i].id
    ensures IsFirst(p.(jobs := after), m, id) && after[m] == p.jobs[m]
  {
  }

  /** The sweep with one more reservation, of job m from h on. */
  function Reserved(s: Sweep, m: nat, h: nat): (r: Sweep)
    requires m < |s.jobs|
    ensures r.jobs == s.jobs
  {
    Sweep(s.jobs, s.rs + [Reservation(h, h + s.jobs[m].secs, s.jobs[m].nodes)])
  }

  lemma PromiseIsPaid(jobs: seq<Job>, s: Sweep, m: nat, h: nat, now: nat, drift: nat)
    requires s == SweepStart(jobs, now) && m < |s.jobs| && s.jobs[m].secs >= 1
    ensures Paid(Reserved(s, m, h), h, now, drift, s.jobs[m].nodes)
  {
    KillKeepsMembers(jobs, now);
    RunningUseIsBusy(s.jobs, now, h);
    BusyMonotone(s.jobs, now + h, now + h + drift);
    UsedAppend(s.rs, Reservation(h, h + s.jobs[m].secs, s.jobs[m].nodes), h);
  }

  lemma HoleIsTime(total: nat, rs: seq<Reservation>, time: nat, nodes: nat)
    ensures Hole(total, rs, time, nodes) >= -1
  {
  }

  lemma FirstStarts(up: seq<bool>, s: Sweep, m: nat, id: nat, now: nat, late: seq<nat>)
    requires Sound(up, s) && IsFirst(Pool(up, s.jobs), m, id) && now >= 1
    requires Hole(|UpSet(up)|, s.rs, s.jobs[m].secs, s.jobs[m].nodes) == 0
    ensures var after := SweepFrom(up, s, m, now, late).jobs;
      StartedAt(Pool(up, after), m, id) && after[m].start == now + LateAt(late, m)
  {
    HeldAtStart(up, s, m);
    var r := SweepJob(up, s, m, now, late);
    assert Eligible(s.jobs[m], up) && s.jobs[m].id == id;
    hide Sound, Hole, IsHole, UpSet, HeldSet, TakeIdle, SetOf, IdleSet, Runnable, IsFirst;
    assert r == Admit(up, s, m, 0, now + LateAt(late, m));
    SweepKeepsEarlier(up, r, m + 1, now, late);
    hide SweepJob, LateAt;
    assert SweepFrom(up, r, m + 1, now, late).jobs[..m + 1][m] == r.jobs[m];
  }

  /** A turn at a hole after now only adds the reservation. */
  lemma TurnReserves(up: seq<bool>, s: Sweep, m: nat, now: nat, late: seq<nat>)
    requires m < |s.jobs| && Eligible(s.jobs[m], up) && now >= 1
    requires Hole(|UpSet(up)|, s.rs, s.jobs[m].secs, s.jobs[m].nodes) > 0
    ensures var j := s.jobs[m];
      var h := Hole(|UpSet(up)|, s.rs, j.secs, j.nodes);
      var r := SweepJob(up, s, m, now, late);
      && r == Reserved(s, m, h)
      && SweepFrom(up, s, m, now, late) == SweepFrom(up, r, m + 1, now, late)
  {
  }

  lemma SweptIsKept(up: seq<bool>, r: Sweep, m: nat, now: nat, late: seq<nat>, i: nat)
    requires i <= m < |r.jobs|
    ensures SweepFrom(up, r, m + 1, now, late).jobs[i] == r.jobs[i]
  {
    SweepKeepsEarlier(up, r, m + 1, now, late);
    var out := SweepFrom(up, r, m + 1, now, late).jobs;
    hide SweepFrom;
    assert out[..m + 1][i] == out[i] && r.jobs[..m + 1][i] == r.jobs[i];
  }

  lemma PaidIsRoom(up: seq<bool>, s: Sweep, h: nat, now: nat, drift: nat, n: nat)
    requires Paid(s, h, now, drift, n) && Sound(up, s)
    ensures RoomFrom(Pool(up, s.jobs), now + h + drift, n)
  {
    assert Free(|UpSet(up)|, s.rs, h) >= 0;
  }

  lemma WaitsOn(up: seq<bool>, s: Sweep, m: nat, id: nat, now: nat, late: seq<nat>)
    requires Sound(up, s) && IsFirst(Pool(up, s.jobs), m, id) && now >= 1
    requires Hole(|UpSet(up)|, s.rs, s.jobs[m].secs, s.jobs[m].nodes) > 0
    ensures var after := Pool(up, SweepFrom(up, s, m, now, late).jobs);
      IsFirst(after, m, id) && after.jobs[m] == s.jobs[m]
  {
    assert Eligible(s.jobs[m], up) && m < |s.jobs|;
    hide *;
    var r := SweepJob(up, s, m, now, late);
    TurnReserves(up, s, m, now, late);
    var out := SweepFrom(up, r, m + 1, now, late).jobs;
    forall i: nat | i <= m ensures out[i] == s.jobs[i] {
      SweptIsKept(up, r, m, now, late, i);
    }
    SweepKeepsIds(up, s, m, now, late);
    FirstStaysFirst(Pool(up, s.jobs), m, id, out);
  }

  lemma RequestIsPositive(up: seq<bool>, s: Sweep, j: Job)
    requires Sound(up, s) && j in s.jobs
    ensures j.nodes >= 1 && j.secs >= 1
  {
    assert JobOk(j, up);
  }

  lemma PaidWaits(up: seq<bool>, s: Sweep, r: Sweep, m: nat, h: nat, now: nat, late: seq<nat>, drift: nat, n: nat)
    requires Sound(up, s) && m < |s.jobs| == |r.jobs| && now >= 1 && Within(late, drift)
    requires Paid(r, h, now, drift, n) && SweepFrom(up, s, m, now, late) == SweepFrom(up, r, m + 1, now, late)
    ensures RoomFrom(Pool(up, SweepFrom(up, s, m, now, late).jobs), now + h + drift, n)
  {
    hide *;
    SweepKeepsPaid(up, r, m + 1, h, now, late, drift, n);
    SweepKeepsSound(up, s, m, now, late);
    PaidIsRoom(up, SweepFrom(up, s, m, now, late), h, now, drift, n);
  }

  lemma RoomWaits(up: seq<bool>, s: Sweep, m: nat, h: nat, now: nat, late: seq<nat>, drift: nat, jobs: seq<Job>)
    requires s == SweepStart(jobs, now) && Sound(up, s) && m < |s.jobs| && Eligible(s.jobs[m], up) && now >= 1
    requires Within(late, drift) && h > 0 && h == Hole(|UpSet(up)|, s.rs, s.jobs[m].secs, s.jobs[m].nodes)
    ensures RoomFrom(Pool(up, SweepFrom(up, s, m, now, late).jobs), now + h + drift, s.jobs[m].nodes)
  {
    hide *;
    RequestIsPositive(up, s, s.jobs[m]);
    TurnReserves(up, s, m, now, late);
    var r := Reserved(s, m, h);
    PromiseIsPaid(jobs, s, m, h, now, drift);
    PaidWaits(up, s, r, m, h, now, late, drift, s.jobs[m].nodes);
  }

  /** From the first job's position m on, the sweep starts it, which it does when its hole
      is now, or leaves it first with room from its hole plus drift. */
  lemma SweepServesFirst(up: seq<bool>, s: Sweep, m: nat, id: nat, now: nat, late: seq<nat>, drift: nat, jobs: seq<Job>)
    requires s == SweepStart(jobs, now) && Sound(up, s) && IsFirst(Pool(up, s.jobs), m, id) && now >= 1
    requires Within(late, drift)
    ensures var j := s.jobs[m];
      var h := Hole(|UpSet(up)|, s.rs, j.secs, j.nodes);
      var after := SweepFrom(up, s, m, now, late).jobs;
      && h >= 0
      && (h == 0 ==> StartedAt(Pool(up, after), m, id) && after[m].start == now + LateAt(late, m))
      && (h > 0 ==> IsFirst(Pool(up, after), m, id) && after[m] == j
                    && RoomFrom(Pool(up, after), now + h + drift, j.nodes))
  {
    var j := s.jobs[m];
    assert Eligible(j, up) && j.nodes <= |UpSet(up)| && m < |s.jobs|;
    hide *;
    HoleNeverMissing(|UpSet(up)|, s.rs, j.secs, j.nodes);
    HoleIsTime(|UpSet(up)|, s.rs, j.secs, j.nodes);
    if Hole(|UpSet(up)|, s.rs, j.secs, j.nodes) == 0 {
      FirstStarts(up, s, m, id, now, late);
    } else {
      WaitsOn(up, s, m, id, now, late);
      RoomWaits(up, s, m, Hole(|UpSet(up)|, s.rs, j.secs, j.nodes), now, late, drift, jobs);
    }
  }

  /** The first job either starts in this pass, which it does when its hole is
      now, or waits on, still first, with room from its promise plus drift. */
  lemma PassServesFirst(p: Pool, k: nat, id: nat, now: nat, late: seq<nat>, drift: nat)
    returns (m: nat)
    requires WellFormed(p) && IsFirst(p, k, id) && now >= 1
    requires Within(late, drift)
    ensures m < |KillExpired(p.jobs, now)| == |Pass(p, now, late).jobs|
    ensures KillExpired(p.jobs, now)[m] == p.jobs[k]
    ensures var promise := Promise(p, m, now);
      var after := Pass(p, now, late);
      && promise >= now
      && (promise == now ==>
            StartedAt(after, m, id) && after.jobs[m].start == now + LateAt(late, m))
      && (promise > now ==>
            IsFirst(after, m, id) && after.jobs[m] == p.jobs[k] && RoomFrom(after, promise + drift, p.jobs[k].nodes))
  {
    hide IsFirst, Sound, WellFormed, RoomFrom, SweepFrom;
    m := KillKeepsFirst(p, k, id, now);
    var s := SweepStart(p.jobs, now);
    StartIsSound(p, now);
    SweepServesFirst(p.up, s, m, id, now, late, drift, p.jobs);
    ReachFirst(p.up, s, m, id, now, late);
  }

  // ---- runs ----------------------------------------------------------------

  /** What happens to the pool between and in passes. Leave is any departure:
      an exit, early or not, or a removal by a client. A pass reads the clock
      as now; its starts are stamped at most drift seconds later. */
  datatype Step =
    | Submit(job: Job)
    | Leave(pos: nat)
    | RunPass(now: nat, late: seq<nat>, drift: nat)

  ghost predicate Allowed(p: Pool, s: Step, id: nat) {
    match s
    case Submit(j) => j.nodes >= 1 && j.secs >= 1 && j.start == 0 && j.held == [] && j.id != id
    case Leave(i) => i < |p.jobs| && p.jobs[i].id != id
    case RunPass(now, late, drift) => now >= 1 && Within(late, drift)
  }

  ghost function Next(p: Pool, s: Step, id: nat): Pool
    requires Allowed(p, s, id)
  {
    match s
    case Submit(j) => p.(jobs := p.jobs + [j])
    case Leave(i) => p.(jobs := p.jobs[..i] + p.jobs[i + 1..])
    case RunPass(now, late, _) => Pass(p, now, late)
  }

  function DriftOf(s: Step): nat {
    if s.RunPass? then s.drift else 0
  }

  function Drift(steps: seq<Step>): nat {
    if steps == [] then 0 else DriftOf(steps[0]) + Drift(steps[1..])
  }

  /** Job id is waiting, is the first that can run, and has room from t on. */
  ghost predicate Assured(p: Pool, id: nat, t: nat) {
    && WellFormed(p)
    && exists k: nat :: IsFirst(p, k, id) && RoomFrom(p, t, p.jobs[k].nodes)
  }

  ghost predicate HasStarted(p: Pool, id: nat) {
    exists k: nat :: StartedAt(p, k, id)
  }

  lemma SubmitKeepsWellFormed(p: Pool, j: Job)
    requires WellFormed(p)
    requires j.nodes >= 1 && j.secs >= 1 && j.start == 0 && j.held == []
    ensures WellFormed(p.(jobs := p.jobs + [j]))
  {
    assert JobOk(j, p.up);
    var after := p.jobs + [j];
    assert after[..|after| - 1] == p.jobs && after[|after| - 1] == j;
    assert SetOf(j.held) == {};
    hide JobOk, HeldSet, SetOf;
    assert NoSharing(after);
  }

  lemma SubmitKeepsFirst(p: Pool, j: Job, k: nat, id: nat, t: nat)
    requires WellFormed(p) && IsFirst(p, k, id)
    requires j.nodes >= 1 && j.secs >= 1 && j.start == 0 && j.held == [] && j.id != id
    ensures var q := p.(jobs := p.jobs + [j]);
      WellFormed(q) && IsFirst(q, k, id) && Busy(q.jobs, t) == Busy(p.jobs, t)
  {
    SubmitKeepsWellFormed(p, j);
    BusyConcat(p.jobs, [j], t);
    BusyOne(j, t);
    hide WellFormed, Busy, Runnable;
    var q := p.(jobs := p.jobs + [j]);
    assert forall i :: 0 <= i < |p.jobs| ==> q.jobs[i] == p.jobs[i];
    assert q.jobs[|p.jobs|] == j;
  }

  /** Without entry i, all but the last are the old front without it. */
  lemma FrontOfLeave(jobs: seq<Job>, i: nat)
    requires i < |jobs| - 1
    ensures var n, out := |jobs| - 1, jobs[..i] + jobs[i + 1..];
      |out| == n && out[n - 1] == jobs[n] && out[..n - 1] == jobs[..n][..i] + jobs[..n][i + 1..]
  {
  }

  lemma {:induction false} LeaveKeepsNoSharing(jobs: seq<Job>, i: nat)
    requires NoSharing(jobs) && i < |jobs|
    ensures NoSharing(jobs[..i] + jobs[i + 1..])
    ensures HeldSet(jobs[..i] + jobs[i + 1..]) <= HeldSet(jobs)
  {
    var n := |jobs| - 1;
    var out := jobs[..i] + jobs[i + 1..];
    LastHolds(jobs);
    hide *;
    if i < n {
      LeaveKeepsNoSharing(jobs[..n], i);
      FrontOfLeave(jobs, i);
      LastHolds(out);
    } else {
      assert out == jobs[..n];
    }
  }

  lemma LeaveKeepsWellFormed(p: Pool, i: nat)
    requires WellFormed(p) && i < |p.jobs|
    ensures WellFormed(p.(jobs := p.jobs[..i] + p.jobs[i + 1..]))
  {
    LeaveKeepsNoSharing(p.jobs, i);
    hide NoSharing, JobOk;
    assert forall j :: j in p.jobs[..i] + p.jobs[i + 1..] ==> j in p.jobs;
  }

  lemma LeaveKeepsFirst(p: Pool, i: nat, k: nat, id: nat, t: nat)
    requires WellFormed(p) && IsFirst(p, k, id) && i < |p.jobs| && i != k
    ensures var q := p.(jobs := p.jobs[..i] + p.jobs[i + 1..]);
      && WellFormed(q) && IsFirst(q, if i < k then k - 1 else k, id) && Busy(q.jobs, t) <= Busy(p.jobs, t)
      && q.jobs[if i < k then k - 1 else k] == p.jobs[k]
  {
    BusyWithout(p.jobs, i, t);
    LeaveKeepsWellFormed(p, i);
    hide WellFormed, Busy, Eligible;
    var out := p.jobs[..i] + p.jobs[i + 1..];
    assert forall m :: 0 <= m < |out| ==> out[m] == p.jobs[if m < i then m else m + 1];
  }

  lemma AssuredAt(p: Pool, m: nat, id: nat, t: nat)
    requires WellFormed(p) && IsFirst(p, m, id) && RoomFrom(p, t, p.jobs[m].nodes)
    ensures Assured(p, id, t)
  {
  }

  /** Whatever leaves frees room, and whatever arrives queues behind. */
  lemma SubmitKeepsAssured(p: Pool, j: Job, id: nat, t: nat)
    requires Assured(p, id, t) && Allowed(p, Submit(j), id)
    ensures Assured(p.(jobs := p.jobs + [j]), id, t)
  {
    var k: nat :| IsFirst(p, k, id) && RoomFrom(p, t, p.jobs[k].nodes);
    assert WellFormed(p) && k < |p.jobs|;
    hide WellFormed, IsFirst, Busy, UpSet, Assured;
    SubmitKeepsFirst(p, j, k, id, t);
    AssuredAt(p.(jobs := p.jobs + [j]), k, id, t);
  }

  lemma LeaveKeepsAssured(p: Pool, i: nat, id: nat, t: nat)
    requires Assured(p, id, t) && Allowed(p, Leave(i), id)
    ensures Assured(p.(jobs := p.jobs[..i] + p.jobs[i + 1..]), id, t)
  {
    var k: nat :| IsFirst(p, k, id) && RoomFrom(p, t, p.jobs[k].nodes);
    assert WellFormed(p) && k < |p.jobs| && i != k && i < |p.jobs|;
    hide WellFormed, IsFirst, Busy, UpSet, Assured;
    LeaveKeepsFirst(p, i, k, id, t);
    AssuredAt(p.(jobs := p.jobs[..i] + p.jobs[i + 1..]), if i < k then k - 1 else k, id, t);
  }

  lemma EnvironmentKeepsAssured(p: Pool, s: Step, id: nat, t: nat)
    requires Assured(p, id, t) && Allowed(p, s, id) && !s.RunPass?
    ensures Assured(Next(p, s, id), id, t)
  {
    hide Assured;
    match s
    case Submit(j) => SubmitKeepsAssured(p, j, id, t);
    case Leave(i) => LeaveKeepsAssured(p, i, id, t);
  }

  /** The pass at now promises job id a start no later than bound. */
  ghost predicate PromisedBy(p: Pool, id: nat, now: nat, bound: nat) {
    exists m: nat ::
      m < |KillExpired(p.jobs, now)| && KillExpired(p.jobs, now)[m].id == id && Promise(p, m, now) <= bound
  }

  lemma PassStartsWhenDue(p: Pool, k: nat, id: nat, t: nat, now: nat, late: seq<nat>, drift: nat)
    requires WellFormed(p) && IsFirst(p, k, id) && now >= 1
    requires RoomFrom(p, t, p.jobs[k].nodes) && now >= t
    requires Within(late, drift)
    ensures HasStarted(Pass(p, now, late), id)
  {
    hide IsFirst, WellFormed, Pass, Promise, RoomFrom, KillExpired, StartedAt, Sound;
    var m := PassServesFirst(p, k, id, now, late, drift);
    RoomBoundsHole(p, m, now, t);
  }

  lemma PromisedAt(p: Pool, m: nat, id: nat, now: nat, bound: nat)
    requires m < |KillExpired(p.jobs, now)| && KillExpired(p.jobs, now)[m].id == id && Promise(p, m, now) <= bound
    ensures PromisedBy(p, id, now, bound)
  {
  }

  lemma PassHonoursRoom(p: Pool, k: nat, id: nat, t: nat, now: nat, late: seq<nat>, drift: nat)
    requires WellFormed(p) && IsFirst(p, k, id) && now >= 1
    requires RoomFrom(p, t, p.jobs[k].nodes)
    requires Within(late, drift)
    ensures PromisedBy(p, id, now, Later(now, t))
    ensures HasStarted(Pass(p, now, late), id) || Assured(Pass(p, now, late), id, t + drift)
  {
    hide WellFormed, Pass, Promise, PromisedBy, Assured, RoomFrom, KillExpired;
    hide StartedAt, Sound, Hole, Within, Eligible;
    var m := PassServesFirst(p, k, id, now, late, drift);
    RoomBoundsHole(p, m, now, t);
    PromisedAt(p, m, id, now, Later(now, t));
    if Promise(p, m, now) > now {
      var after := Pass(p, now, late);
      PassIsSound(p, now, late);
      RoomLater(after, Promise(p, m, now) + drift, t + drift, p.jobs[k].nodes);
      AssuredAt(after, m, id, t + drift);
    }
  }

  /** One pass: the promise is no later than the room assured before it; at or
      after that time the job starts; otherwise the assurance carries on. */
  lemma PassHonoursAssurance(p: Pool, id: nat, t: nat, now: nat, late: seq<nat>, drift: nat)
    requires Assured(p, id, t) && now >= 1
    requires Within(late, drift)
    ensures PromisedBy(p, id, now, Later(now, t))
    ensures now >= t ==> HasStarted(Pass(p, now, late), id)
    ensures HasStarted(Pass(p, now, late), id) || Assured(Pass(p, now, late), id, t + drift)
  {
    var k: nat :| IsFirst(p, k, id) && RoomFrom(p, t, p.jobs[k].nodes);
    PassHonoursRoom(p, k, id, t, now, late, drift);
    if now >= t { PassStartsWhenDue(p, k, id, t, now, late, drift); }
  }

  ghost predicate AllAllowed(p: Pool, steps: seq<Step>, id: nat)
    decreases |steps|
  {
    steps == [] || (Allowed(p, steps[0], id) && AllAllowed(Next(p, steps[0], id), steps[1..], id))
  }

  ghost function After(p: Pool, steps: seq<Step>, id: nat): Pool
    requires AllAllowed(p, steps, id)
    decreases |steps|
  {
    if steps == [] then p else After(Next(p, steps[0], id), steps[1..], id)
  }

  /** Job id has not started before, during or right after these steps. */
  ghost predicate Waits(p: Pool, steps: seq<Step>, id: nat)
    requires AllAllowed(p, steps, id)
    decreases |steps|
  {
    !HasStarted(p, id) && (steps == [] || Waits(Next(p, steps[0], id), steps[1..], id))
  }

  /** As long as job id waits, the room it is assured of moves by the drift of the
      passes and by nothing else. */
  lemma {:induction false} RunNeverDelays(p: Pool, steps: seq<Step>, id: nat, t: nat)
    requires AllAllowed(p, steps, id) && Assured(p, id, t) && Waits(p, steps, id)
    ensures Assured(After(p, steps, id), id, t + Drift(steps))
    decreases |steps|
  {
    hide Assured, Pass, PromisedBy, HasStarted;
    if steps != [] {
      var s := steps[0];
      var q := Next(p, s, id);
      assert Waits(q, steps[1..], id) && !HasStarted(q, id);
      if s.RunPass? {
        PassHonoursAssurance(p, id, t, s.now, s.late, s.drift);
      } else {
        EnvironmentKeepsAssured(p, s, id, t);
      }
      RunNeverDelays(q, steps[1..], id, t + DriftOf(s));
    }
  }

  /** The pass that makes the promise starts the job or leaves it assured of it. */
  lemma FirstPromise(p: Pool, k: nat, id: nat, now: nat, late: seq<nat>, drift: nat) returns (m: nat)
    requires WellFormed(p) && IsFirst(p, k, id) && now >= 1
    requires Within(late, drift)
    ensures m < |KillExpired(p.jobs, now)| && KillExpired(p.jobs, now)[m] == p.jobs[k]
    ensures Promise(p, m, now) >= now
    ensures HasStarted(Pass(p, now, late), id) || Assured(Pass(p, now, late), id, Promise(p, m, now) + drift)
  {
    hide IsFirst, WellFormed, Pass, Promise, RoomFrom, StartedAt, Sound, Within, KillExpired;
    m := PassServesFirst(p, k, id, now, late, drift);
    PassIsSound(p, now, late);
    var after := Pass(p, now, late);
    if Promise(p, m, now) > now {
      assert IsFirst(after, m, id) && RoomFrom(after, Promise(p, m, now) + drift, after.jobs[m].nodes);
    }
  }

  lemma StillWaits(p: Pool, steps: seq<Step>, id: nat)
    requires AllAllowed(p, steps, id) && Waits(p, steps, id)
    ensures !HasStarted(p, id)
  {
  }

  lemma PassHonoursStep(p: Pool, s: Step, id: nat, t: nat)
    requires Assured(p, id, t) && s.RunPass? && Allowed(p, s, id)
    ensures PromisedBy(p, id, s.now, Later(s.now, t))
    ensures s.now >= t ==> HasStarted(Next(p, s, id), id)
  {
    hide Assured, PromisedBy, HasStarted, Pass, Within;
    PassHonoursAssurance(p, id, t, s.now, s.late, s.drift);
  }

  /** The guarantee as a client meets it. A pass makes the first runnable waiting job
      a promise; any steps follow while the job waits; then a pass promises it a start
      no later than that but for the drift in between, and if that time has come
      starts it. */
  lemma PromiseIsKept(p: Pool, k: nat, id: nat, now: nat, late: seq<nat>, drift: nat, steps: seq<Step>, last: Step)
    returns (m: nat)
    requires WellFormed(p) && IsFirst(p, k, id) && now >= 1
    requires Within(late, drift)
    requires AllAllowed(Pass(p, now, late), steps, id) && Waits(Pass(p, now, late), steps, id)
    requires last.RunPass? && Allowed(After(Pass(p, now, late), steps, id), last, id)
    ensures m < |KillExpired(p.jobs, now)| && KillExpired(p.jobs, now)[m] == p.jobs[k]
    ensures Promise(p, m, now) >= now
    ensures var q, bound := After(Pass(p, now, late), steps, id), Promise(p, m, now) + drift + Drift(steps);
      && PromisedBy(q, id, last.now, Later(last.now, bound))
      && (last.now >= bound ==> HasStarted(Next(q, last, id), id))
  {
    hide *;
    var after := Pass(p, now, late);
    m := FirstPromise(p, k, id, now, late, drift);
    var bound := Promise(p, m, now) + drift;
    StillWaits(after, steps, id);
    RunNeverDelays(after, steps, id, bound);
    PassHonoursStep(After(after, steps, id), last, id, bound + Drift(steps));
  }
}
