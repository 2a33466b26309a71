/** What one pass of the filler policy does to its pool, on values:
    expired jobs leave, every waiting job is given the earliest hole left, and
    the jobs whose hole is now take idle nodes and start. */
module FillerPool {
  import opened Basics

  /** A job of the pool. start is 0 while it waits; held lists its nodes;
      ready says that its dependencies are satisfied. */
  datatype Job = Job(id: nat, nodes: nat, secs: nat, ready: bool, start: nat, held: seq<nat>) {
    predicate Running() { start != 0 }
    predicate Expired(now: nat) { Running() && now - start >= secs }
    /** Seconds the schedule still counts this running job for. */
    function Remaining(now: nat): (r: nat)
      ensures r >= 1
    {
      var left := secs - (now - start);
      if left <= 0 then 1 else left
    }
  }

  datatype Pool = Pool(up: seq<bool>, jobs: seq<Job>)

  /** A promise of nodes from second from up to, not including, second to. */
  datatype Reservation = Reservation(from: nat, to: nat, nodes: nat)

  // ---- nodes -------------------------------------------------------------

  function UpSet(up: seq<bool>): set<nat> {
    set i: nat | i < |up| && up[i]
  }

  function SetOf(s: seq<nat>): set<nat> { set n | n in s }

  /** Every node some job holds. */
  function HeldSet(jobs: seq<Job>): set<nat> {
    if jobs == [] then {}
    else HeldSet(jobs[..|jobs| - 1]) + SetOf(jobs[|jobs| - 1].held)
  }

  function IdleSet(up: seq<bool>, jobs: seq<Job>): set<nat> {
    UpSet(up) - HeldSet(jobs)
  }

  predicate Runnable(j: Job, up: seq<bool>) {
    j.nodes <= |UpSet(up)| && j.ready
  }

  predicate Eligible(j: Job, up: seq<bool>) {
    !j.Running() && Runnable(j, up)
  }

  predicate JobOk(j: Job, up: seq<bool>) {
    && j.nodes >= 1 && j.secs >= 1
    && |j.held| == (if j.Running() then j.nodes else 0)
    && NoRepeats(j.held)
    && forall n :: n in j.held ==> n in UpSet(up)
  }

  /** No node is held by two jobs. */
  predicate NoSharing(jobs: seq<Job>) {
    jobs == [] ||
    (NoSharing(jobs[..|jobs| - 1]) && HeldSet(jobs[..|jobs| - 1]) !! SetOf(jobs[|jobs| - 1].held))
  }

  /** Running jobs hold exactly the nodes they asked for, all up, and no node
      is held by two jobs; waiting jobs hold nothing. */
  predicate WellFormed(p: Pool) {
    && (forall j :: j in p.jobs ==> JobOk(j, p.up))
    && NoSharing(p.jobs)
  }

  /** The queue after job k is given nodes. */
  function Given(jobs: seq<Job>, k: nat, nodes: seq<nat>): seq<Job>
    requires k < |jobs|
  {
    jobs[k := jobs[k].(held := jobs[k].held + nodes)]
  }

  /** The first n idle nodes from position i on. */
  function TakeIdle(up: seq<bool>, busy: set<nat>, i: nat, n: nat): seq<nat>
    requires i <= |up|
    decreases |up| - i
  {
    if i == |up| || n == 0 then []
    else if up[i] && i !in busy then [i] + TakeIdle(up, busy, i + 1, n - 1)
    else TakeIdle(up, busy, i + 1, n)
  }

  // ---- reservations ------------------------------------------------------

  function Used(rs: seq<Reservation>, t: nat): nat {
    if rs == [] then 0
    else
      var r := rs[|rs| - 1];
      Used(rs[..|rs| - 1], t) + if r.from <= t < r.to then r.nodes else 0
  }

  function Free(total: nat, rs: seq<Reservation>, t: nat): int {
    total - Used(rs, t)
  }

  ghost predicate Fits(total: nat, rs: seq<Reservation>, s: nat, time: nat, nodes: nat) {
    forall x: nat :: s <= x <= s + time ==> Free(total, rs, x) >= nodes
  }

  ghost predicate IsHole(total: nat, rs: seq<Reservation>, h: int, time: nat, nodes: nat) {
    && -1 <= h
    && (h >= 0 ==> Fits(total, rs, h, time, nodes))
    && (forall s: nat :: (h == -1 || s < h) ==> !Fits(total, rs, s, time, nodes))
  }

  lemma {:induction false} LeastFit(total: nat, rs: seq<Reservation>, s: nat, time: nat, nodes: nat)
    returns (h: nat)
    requires Fits(total, rs, s, time, nodes)
    ensures IsHole(total, rs, h, time, nodes)
    decreases s
  {
    if r: nat :| r < s && Fits(total, rs, r, time, nodes) {
      h := LeastFit(total, rs, r, time, nodes);
    } else {
      h := s;
    }
  }

  lemma HoleExists(total: nat, rs: seq<Reservation>, time: nat, nodes: nat)
    ensures exists h :: IsHole(total, rs, h, time, nodes)
  {
    if s: nat :| Fits(total, rs, s, time, nodes) {
      var h := LeastFit(total, rs, s, time, nodes);
      assert IsHole(total, rs, h, time, nodes);
    } else {
      assert IsHole(total, rs, -1, time, nodes);
    }
  }

  /** The earliest start whose closed interval has enough nodes, or -1. */
  ghost function Hole(total: nat, rs: seq<Reservation>, time: nat, nodes: nat): (h: int)
    ensures IsHole(total, rs, h, time, nodes)
  {
    HoleExists(total, rs, time, nodes);
    var h :| IsHole(total, rs, h, time, nodes);
    h
  }

  function RunningReservations(jobs: seq<Job>, now: nat): seq<Reservation> {
    if jobs == [] then []
    else
      var j := jobs[|jobs| - 1];
      var before := RunningReservations(jobs[..|jobs| - 1], now);
      if j.Running() then before + [Reservation(0, j.Remaining(now), j.nodes)] else before
  }

  // ---- one pass ----------------------------------------------------------

  function KillExpired(jobs: seq<Job>, now: nat): seq<Job> {
    if jobs == [] then []
    else
      var j := jobs[|jobs| - 1];
      var before := KillExpired(jobs[..|jobs| - 1], now);
      if j.Expired(now) then before else before + [j]
  }

  datatype Sweep = Sweep(jobs: seq<Job>, rs: seq<Reservation>)

  /** Job k is given the hole at h; if that is now, it takes idle nodes and starts. */
  function Admit(up: seq<bool>, s: Sweep, k: nat, h: nat, start: nat): (r: Sweep)
    requires k < |s.jobs|
    ensures |r.jobs| == |s.jobs|
  {
    var j := s.jobs[k];
    var rs := s.rs + [Reservation(h, h + j.secs, j.nodes)];
    if h != 0 then Sweep(s.jobs, rs)
    else
      var held := TakeIdle(up, HeldSet(s.jobs), 0, j.nodes);
      Sweep(s.jobs[k := j.(start := start, held := j.held + held)], rs)
  }

  /** Seconds that pass between the clock reading of a pass and the start of the
      job at position k. */
  function LateAt(late: seq<nat>, k: nat): nat {
    if k < |late| then late[k] else 0
  }

  /** Queue position k of a sweep. The start time is read afresh, so it may lie
      LateAt(late, k) seconds after now. */
  ghost function SweepJob(up: seq<bool>, s: Sweep, k: nat, now: nat, late: seq<nat>): (r: Sweep)
    requires k < |s.jobs|
    ensures |r.jobs| == |s.jobs|
  {
    var j := s.jobs[k];
    if j.Running() || !Runnable(j, up) then s
    else
      var h := Hole(|UpSet(up)|, s.rs, j.secs, j.nodes);
      if h == -1 then s else Admit(up, s, k, h, now + LateAt(late, k))
  }

  ghost function SweepFrom(up: seq<bool>, s: Sweep, k: nat, now: nat, late: seq<nat>): (r: Sweep)
    requires k <= |s.jobs|
    ensures |r.jobs| == |s.jobs|
    decreases |s.jobs| - k
  {
    if k == |s.jobs| then s
    else SweepFrom(up, SweepJob(up, s, k, now, late), k + 1, now, late)
  }

  ghost function SweepStart(jobs: seq<Job>, now: nat): Sweep {
    var alive := KillExpired(jobs, now);
    Sweep(alive, RunningReservations(alive, now))
  }

  ghost function PassSweep(p: Pool, now: nat, late: seq<nat>): Sweep {
    SweepFrom(p.up, SweepStart(p.jobs, now), 0, now, late)
  }

  /** The pool after a pass that reads the clock as now. */
  ghost function Pass(p: Pool, now: nat, late: seq<nat>): Pool {
    p.(jobs := PassSweep(p, now, late).jobs)
  }

  /** The sweep after its first k turns. */
  ghost function SweepUpTo(up: seq<bool>, s: Sweep, k: nat, now: nat, late: seq<nat>): (r: Sweep)
    requires k <= |s.jobs|
    ensures |r.jobs| == |s.jobs|
  {
    if k == 0 then s else SweepJob(up, SweepUpTo(up, s, k - 1, now, late), k - 1, now, late)
  }
}
