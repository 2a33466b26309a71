/** The shared policy: waiting jobs are spread round robin over the up nodes, least
    loaded first. */
module SharedPool {
  import opened Filler
  import opened FillerPool
  import opened FillerSafety
  import opened Basics

  // ---- who waits ------------------------------------------------------------------

  function Waiting(jobs: seq<Job>): nat {
    if jobs == [] then 0
    else Waiting(jobs[..|jobs| - 1]) + if jobs[|jobs| - 1].Running() then 0 else 1
  }

  lemma {:induction false} WaitingAfterStart(jobs: seq<Job>, k: nat, j: Job)
    requires k < |jobs| && !jobs[k].Running() && j.Running()
    ensures Waiting(jobs[k := j]) == Waiting(jobs) - 1
  {
    var n := |jobs| - 1;
    assert jobs[k := j][..n] == if k < n then jobs[..n][k := j] else jobs[..n];
    if k < n { WaitingAfterStart(jobs[..n], k, j); }
  }

  /** find_first_runable: the first runnable job that is not running. */
  function FirstToStart(jobs: seq<Job>, up: seq<bool>): (k: nat)
    ensures k <= |jobs|
    ensures k < |jobs| ==> jobs[k].start == 0 && jobs[k].ready && jobs[k].nodes <= |UpSet(up)|
    ensures forall i :: 0 <= i < k ==> jobs[i].start != 0 || !jobs[i].ready || jobs[i].nodes > |UpSet(up)|
  {
    if jobs == [] then 0
    else
      var n := |jobs| - 1;
      var k := FirstToStart(jobs[..n], up);
      if k < n then k else if Eligible(jobs[n], up) then n else n + 1
  }

  method FindFirstRunnable(q: PoolQueue) returns (k: nat)
    ensures k == FirstToStart(q.jobs, q.up)
  {
    var upcount := q.CountUp();
    k := 0;
    while k < |q.jobs| && (q.jobs[k].Running() || q.jobs[k].nodes > upcount || !q.jobs[k].ready)
      invariant 0 <= k <= |q.jobs|
      invariant forall i :: 0 <= i < k ==> !Eligible(q.jobs[i], q.up)
    {
      k := k + 1;
    }
  }

  // ---- spreading ------------------------------------------------------------------------

  /** Where a turning index of period m stands after a turns, and how often it has
      come round. */
  function Turn(a: nat, m: nat): (r: nat)
    requires m > 0
    ensures r < m
  {
    a % m
  }

  function Rounds(a: nat, m: nat): nat
    requires m > 0
  {
    a / m
  }

  /** The nodes placements idx, idx + 1, ... fall on, r of them. */
  function Place(order: seq<nat>, idx: nat, r: nat): seq<nat>
    requires order != []
  {
    seq(r, i requires 0 <= i < r => order[Turn(idx + i, |order|)])
  }

  lemma MulSign(m: nat, d: int)
    requires m > 0
    ensures d >= 1 ==> m * d >= m
    ensures d <= -1 ==> m * d <= -(m as int)
    ensures d == 0 ==> m * d == 0
  {
  }

  lemma ModDiffers(a: nat, b: nat, m: nat)
    requires m > 0 && a < b < a + m
    ensures Turn(a, m) != Turn(b, m)
  {
    var d := b / m - a / m;
    MulSign(m, d);
    assert b == m * (b / m) + b % m && a == m * (a / m) + a % m;
    assert m * d == m * (b / m) - m * (a / m);
  }

  /** No more placements in a row than nodes: no node is hit twice. */
  lemma PlaceIsDistinct(order: seq<nat>, idx: nat, r: nat)
    requires order != [] && NoRepeats(order) && r <= |order|
    ensures NoRepeats(Place(order, idx, r))
    ensures forall n :: n in Place(order, idx, r) ==> n in order
  {
    hide Turn;
    var m := |order|;
    var p := Place(order, idx, r);
    forall i, k | 0 <= i < k < r
      ensures p[i] != p[k]
    {
      var x, y := Turn(idx + i, m), Turn(idx + k, m);
      ModDiffers(idx + i, idx + k, m);
      assert p[i] == order[x] && p[k] == order[y];
    }
    forall n | n in p ensures n in order {
      var i :| 0 <= i < r && p[i] == n;
      assert n == order[Turn(idx + i, m)];
    }
  }

  lemma LastPlacement(order: seq<nat>, q: nat, i: nat)
    requires order != [] && NoRepeats(order) && i < |order|
    ensures Count(Place(order, 0, q + 1), order[i]) ==
            Count(Place(order, 0, q), order[i]) + if Turn(q, |order|) == i then 1 else 0
  {
    hide Turn;
    var all := Place(order, 0, q + 1);
    assert all[..q] == Place(order, 0, q);
    assert all[q] == order[Turn(q, |order|)];
  }

  lemma DivModIs(a: nat, m: nat, d: nat, r: nat)
    requires m > 0 && a == m * d + r && r < m
    ensures a / m == d && a % m == r
  {
    var e := a / m - d;
    MulSign(m, e);
    assert a == m * (a / m) + a % m;
    assert m * e == m * (a / m) - m * d;
  }

  lemma NextPlacement(q: nat, m: nat)
    requires m > 0
    ensures if Turn(q, m) + 1 == m then Rounds(q + 1, m) == Rounds(q, m) + 1 && Turn(q + 1, m) == 0
            else Rounds(q + 1, m) == Rounds(q, m) && Turn(q + 1, m) == Turn(q, m) + 1
  {
    var d, r := q / m, q % m;
    assert q == m * d + r;
    if r + 1 == m {
      assert q + 1 == m * (d + 1);
      DivModIs(q + 1, m, d + 1, 0);
    } else {
      DivModIs(q + 1, m, d, r + 1);
    }
  }

  lemma NoPlacement(m: nat)
    requires m > 0
    ensures Rounds(0, m) == 0 && Turn(0, m) == 0
  {
    DivModIs(0, m, 0, 0);
  }

  /** Of p placements the node at position i of the order gets p / m, and one more
      if it is among the first p % m. */
  lemma {:induction false} PlacementsPerNode(order: seq<nat>, p: nat, i: nat)
    requires order != [] && NoRepeats(order) && i < |order|
    ensures Count(Place(order, 0, p), order[i]) == Rounds(p, |order|) + if i < Turn(p, |order|) then 1 else 0
    decreases p
  {
    hide Turn, Rounds;
    var m := |order|;
    if p > 0 {
      PlacementsPerNode(order, p - 1, i);
      LastPlacement(order, p - 1, i);
      NextPlacement(p - 1, m);
    } else {
      NoPlacement(m);
    }
  }

  lemma PlaceConcat(order: seq<nat>, a: nat, b: nat)
    requires order != []
    ensures Place(order, 0, a) + Place(order, a, b) == Place(order, 0, a + b)
  {
  }

  lemma ModOnce(a: nat, m: nat)
    requires m > 0
    ensures (a + m) % m == a % m
  {
    assert a == m * (a / m) + a % m;
    DivModIs(a + m, m, a / m + 1, a % m);
  }

  lemma {:induction false} ModShift(a: nat, m: nat, d: nat)
    requires m > 0
    ensures (a + m * d) % m == a % m
    decreases d
  {
    if d > 0 {
      ModShift(a, m, d - 1);
      assert a + m * d == (a + m * (d - 1)) + m;
      ModOnce(a + m * (d - 1), m);
    }
  }

  lemma IndexTurns(p: nat, r: nat, m: nat)
    requires m > 0
    ensures Turn(Turn(p, m) + r, m) == Turn(p + r, m)
  {
    var d, t := p / m, p % m;
    assert p == m * d + t;
    ModShift(t + r, m, d);
    assert t + r + m * d == p + r;
  }

  /** The turning index of the source is the number of placements so far, mod m. */
  lemma PlaceFromMod(order: seq<nat>, p: nat, r: nat)
    requires order != []
    ensures Place(order, Turn(p, |order|), r) == Place(order, p, r)
  {
    hide Turn;
    forall i | 0 <= i < r
      ensures Place(order, Turn(p, |order|), r)[i] == Place(order, p, r)[i]
    {
      IndexTurns(p, i, |order|);
    }
  }

  // ---- the pass ---------------------------------------------------------------------------

  /** How many allocations a node has. */
  function Load(jobs: seq<Job>, n: nat): nat {
    if jobs == [] then 0 else Load(jobs[..|jobs| - 1], n) + Count(jobs[|jobs| - 1].held, n)
  }

  /** The up nodes, each once, least loaded first. */
  ghost predicate LeastLoadedFirst(order: seq<nat>, up: seq<bool>, jobs: seq<Job>) {
    && NoRepeats(order)
    && (forall n :: n in order <==> n in UpSet(up))
    && forall i, k :: 0 <= i < k < |order| ==> Load(jobs, order[i]) <= Load(jobs, order[k])
  }

  datatype Spread = Spread(jobs: seq<Job>, placed: nat)

  /** Start the waiting runnable jobs in queue order, each on the next nodes. */
  function Starts(up: seq<bool>, s: Spread, order: seq<nat>, now: nat): Spread
    requires now >= 1 && order != []
    decreases Waiting(s.jobs)
  {
    var k := FirstToStart(s.jobs, up);
    if k == |s.jobs| then s
    else
      var j := s.jobs[k];
      var started := j.(start := now, held := j.held + Place(order, s.placed, j.nodes));
      WaitingAfterStart(s.jobs, k, started);
      Starts(up, Spread(s.jobs[k := started], s.placed + j.nodes), order, now)
  }

  lemma StartsStep(up: seq<bool>, jobs: seq<Job>, placed: nat, order: seq<nat>, now: nat)
    requires now >= 1 && order != [] && FirstToStart(jobs, up) < |jobs|
    ensures var k := FirstToStart(jobs, up);
      var started := jobs[k].(start := now, held := jobs[k].held + Place(order, placed, jobs[k].nodes));
      Starts(up, Spread(jobs, placed), order, now) ==
        Starts(up, Spread(jobs[k := started], placed + jobs[k].nodes), order, now)
  {
  }

  lemma StartsEnd(up: seq<bool>, jobs: seq<Job>, placed: nat, order: seq<nat>, now: nat)
    requires now >= 1 && order != [] && FirstToStart(jobs, up) == |jobs|
    ensures Starts(up, Spread(jobs, placed), order, now) == Spread(jobs, placed)
  {
  }

  /** What a started job looks like, given which placements it received. */
  predicate StartedWith(before: Job, after: Job, order: seq<nat>, from: nat, now: nat)
    requires order != []
  {
    after == before.(start := now, held := before.held + Place(order, from, before.nodes))
  }

  /** Every job is as it was, or was a runnable waiting job and got exactly its number
      of consecutive placements; at the end nobody runnable waits. */
  ghost predicate SpreadOk(up: seq<bool>, before: seq<Job>, s: Spread, order: seq<nat>, now: nat)
    requires order != []
  {
    && |s.jobs| == |before|
    && forall i :: 0 <= i < |before| ==>
         s.jobs[i] == before[i] ||
         (Eligible(before[i], up) &&
          exists from: nat :: from + before[i].nodes <= s.placed && StartedWith(before[i], s.jobs[i], order, from, now))
  }

  lemma StartKeepsSpread(up: seq<bool>, before: seq<Job>, s: Spread, order: seq<nat>, now: nat)
    requires now >= 1 && order != [] && SpreadOk(up, before, s, order, now) && FirstToStart(s.jobs, up) < |s.jobs|
    ensures var k := FirstToStart(s.jobs, up);
      var started := s.jobs[k].(start := now, held := s.jobs[k].held + Place(order, s.placed, s.jobs[k].nodes));
      SpreadOk(up, before, Spread(s.jobs[k := started], s.placed + s.jobs[k].nodes), order, now)
  {
    var k := FirstToStart(s.jobs, up);
    var j := s.jobs[k];
    var started := j.(start := now, held := j.held + Place(order, s.placed, j.nodes));
    assert j == before[k];
    assert StartedWith(before[k], started, order, s.placed, now);
  }

  lemma {:induction false} StartsAreOk(up: seq<bool>, before: seq<Job>, s: Spread, order: seq<nat>, now: nat)
    requires now >= 1 && order != [] && SpreadOk(up, before, s, order, now)
    ensures SpreadOk(up, before, Starts(up, s, order, now), order, now)
    ensures var after := Starts(up, s, order, now).jobs; FirstToStart(after, up) == |after|
    ensures Waiting(Starts(up, s, order, now).jobs) <= Waiting(s.jobs)
    ensures FirstToStart(s.jobs, up) < |s.jobs| ==> Waiting(Starts(up, s, order, now).jobs) < Waiting(s.jobs)
    decreases Waiting(s.jobs)
  {
    var k := FirstToStart(s.jobs, up);
    if k < |s.jobs| {
      var j := s.jobs[k];
      var started := j.(start := now, held := j.held + Place(order, s.placed, j.nodes));
      var next := Spread(s.jobs[k := started], s.placed + j.nodes);
      WaitingAfterStart(s.jobs, k, started);
      StartKeepsSpread(up, before, s, order, now);
      StartsStep(up, s.jobs, s.placed, order, now);
      assert Starts(up, s, order, now) == Starts(up, next, order, now);
      hide SpreadOk, Starts, Place, FirstToStart, Waiting;
      StartsAreOk(up, before, next, order, now);
    }
  }

  /** One allocation list grows by what was placed: the new load of each node is the
      old one plus its share of the placements of this pass. */
  lemma {:induction false} LoadAfterStart(jobs: seq<Job>, k: nat, extra: seq<nat>, start: nat, n: nat)
    requires k < |jobs|
    ensures Load(jobs[k := jobs[k].(start := start, held := jobs[k].held + extra)], n) ==
      Load(jobs, n) + Count(extra, n)
  {
    var m := |jobs| - 1;
    var j := jobs[k].(start := start, held := jobs[k].held + extra);
    assert jobs[k := j][..m] == if k < m then jobs[..m][k := j] else jobs[..m];
    if k < m {
      LoadAfterStart(jobs[..m], k, extra, start, n);
    } else {
      CountConcat(jobs[k].held, extra, n);
    }
  }

  lemma {:induction false} LoadAfterStarts(up: seq<bool>, s: Spread, order: seq<nat>, now: nat, n: nat)
    requires now >= 1 && order != []
    ensures var r := Starts(up, s, order, now);
      && r.placed >= s.placed
      && Load(r.jobs, n) + Count(Place(order, 0, s.placed), n) == Load(s.jobs, n) + Count(Place(order, 0, r.placed), n)
    decreases Waiting(s.jobs)
  {
    var k := FirstToStart(s.jobs, up);
    if k < |s.jobs| {
      var j := s.jobs[k];
      var extra := Place(order, s.placed, j.nodes);
      var started := j.(start := now, held := j.held + extra);
      WaitingAfterStart(s.jobs, k, started);
      LoadAfterStart(s.jobs, k, extra, now, n);
      PlaceConcat(order, s.placed, j.nodes);
      CountConcat(Place(order, 0, s.placed), extra, n);
      LoadAfterStarts(up, Spread(s.jobs[k := started], s.placed + j.nodes), order, now, n);
    }
  }

  /** The balance of a pass: with p placements over m up nodes each node's load grows
      by p / m, and by one more exactly for the p % m least loaded ones. */
  lemma PassIsBalanced(up: seq<bool>, jobs: seq<Job>, order: seq<nat>, now: nat, i: nat)
    requires now >= 1 && order != [] && LeastLoadedFirst(order, up, jobs) && i < |order|
    ensures var r := Starts(up, Spread(jobs, 0), order, now);
      && Load(r.jobs, order[i]) == Load(jobs, order[i])
           + r.placed / |order| + (if i < r.placed % |order| then 1 else 0)
      && forall k :: i < k < |order| ==> Load(jobs, order[i]) <= Load(jobs, order[k])
  {
    var r := Starts(up, Spread(jobs, 0), order, now);
    LoadAfterStarts(up, Spread(jobs, 0), order, now, order[i]);
    PlacementsPerNode(order, r.placed, i);
    assert Place(order, 0, 0) == [];
  }

  lemma OrderCovers(order: seq<nat>, up: seq<bool>)
    requires NoRepeats(order) && forall n :: n in order <==> n in UpSet(up)
    ensures |order| == |UpSet(up)|
  {
    DistinctSize(order);
    assert SetOf(order) == UpSet(up);
  }

  lemma ServedFrom(up: seq<bool>, before: Job, after: Job, order: seq<nat>, from: nat, now: nat)
    requires now >= 1 && order != [] && StartedWith(before, after, order, from, now)
    requires NoRepeats(order) && forall n :: n in order <==> n in UpSet(up)
    requires Runnable(before, up) && before.held == []
    ensures after.Running() && |after.held| == before.nodes && NoRepeats(after.held)
    ensures forall n :: n in after.held ==> n in UpSet(up)
  {
    OrderCovers(order, up);
    PlaceIsDistinct(order, from, before.nodes);
    assert [] + Place(order, from, before.nodes) == Place(order, from, before.nodes);
  }

  /** Each started job holds exactly the number of nodes it asked for, all different
      and all up. */
  lemma StartedJobsAreServed(up: seq<bool>, jobs: seq<Job>, order: seq<nat>, now: nat, k: nat)
    requires now >= 1 && order != [] && LeastLoadedFirst(order, up, jobs) && k < |jobs|
    ensures var after := Starts(up, Spread(jobs, 0), order, now).jobs;
      && |after| == |jobs|
      && (after[k] != jobs[k] ==> Eligible(jobs[k], up))
      && (Eligible(jobs[k], up) && jobs[k].held == [] ==>
            after[k].Running() && |after[k].held| == jobs[k].nodes && NoRepeats(after[k].held)
            && forall n :: n in after[k].held ==> n in UpSet(up))
  {
    StartsAreOk(up, jobs, Spread(jobs, 0), order, now);
    var after := Starts(up, Spread(jobs, 0), order, now).jobs;
    hide Starts;
    if Eligible(jobs[k], up) && jobs[k].held == [] {
      assert !Eligible(after[k], up);
      var from: nat :| StartedWith(jobs[k], after[k], order, from, now);
      ServedFrom(up, jobs[k], after[k], order, from, now);
    }
  }

  // ---- the program ----------------------------------------------------------------------------

  lemma InsertNode(order: seq<nat>, at: nat, i: nat)
    requires at <= |order| && NoRepeats(order) && i !in order
    ensures NoRepeats(order[..at] + [i] + order[at..])
    ensures forall n :: n in order[..at] + [i] + order[at..] <==> n in order || n == i
  {
    assert order == order[..at] + order[at..];
  }

  lemma NothingRepeats(s: seq<nat>)
    requires s == []
    ensures NoRepeats(s)
  {
  }

  /** Put the node behind those that are no more loaded. */
  method InsertByLoad(q: PoolQueue, order: seq<nat>, i: nat) returns (longer: seq<nat>)
    requires NoRepeats(order) && i !in order
    requires forall a, b :: 0 <= a < b < |order| ==> Load(q.jobs, order[a]) <= Load(q.jobs, order[b])
    ensures NoRepeats(longer) && forall n :: n in longer <==> n in order || n == i
    ensures forall a, b :: 0 <= a < b < |longer| ==> Load(q.jobs, longer[a]) <= Load(q.jobs, longer[b])
  {
    hide Load;
    var at := 0;
    while at < |order| && Load(q.jobs, order[at]) <= Load(q.jobs, i)
      invariant 0 <= at <= |order|
      invariant forall a :: 0 <= a < at ==> Load(q.jobs, order[a]) <= Load(q.jobs, i)
    {
      at := at + 1;
    }
    InsertNode(order, at, i);
    longer := order[..at] + [i] + order[at..];
    hide NoRepeats;
    assert forall k :: 0 <= k < |longer| ==>
      longer[k] == if k < at then order[k] else if k == at then i else order[k - 1];
  }

  /** qsort on the counts: the up nodes in some order of increasing load. */
  method LeastLoaded(q: PoolQueue) returns (order: seq<nat>)
    ensures LeastLoadedFirst(order, q.up, q.jobs)
  {
    hide Load, NoRepeats;
    order := [];
    var i := 0;
    assert NoRepeats(order) by { NothingRepeats(order); }
    while i < |q.up|
      invariant 0 <= i <= |q.up|
      invariant NoRepeats(order)
      invariant forall n :: n in order <==> n < i && n in UpSet(q.up)
      invariant forall a, b :: 0 <= a < b < |order| ==> Load(q.jobs, order[a]) <= Load(q.jobs, order[b])
    {
      if q.up[i] { order := InsertByLoad(q, order, i); }
      i := i + 1;
    }
  }

  lemma SmallTurn(a: nat, m: nat)
    requires a < m
    ensures Turn(a, m) == a
  {
    DivModIs(a, m, 0, a);
  }

  /** The inner loop: one node per turn, the index going round. */
  method GiveNodes(q: PoolQueue, k: nat, sorted: seq<nat>, idx0: nat) returns (idx: nat)
    requires k < |q.jobs| && sorted != [] && idx0 < |sorted|
    modifies q`jobs
    ensures var j := old(q.jobs)[k];
      q.jobs == old(q.jobs)[k := j.(held := j.held + Place(sorted, idx0, j.nodes))]
    ensures idx == Turn(idx0 + old(q.jobs)[k].nodes, |sorted|)
  {
    SmallTurn(idx0, |sorted|);
    idx := idx0;
    ghost var was := q.jobs[k];
    var reqd := q.jobs[k].nodes;
    assert Place(sorted, idx0, 0) == [] && was.held + [] == was.held;
    assert q.jobs == q.jobs[k := was.(held := was.held + Place(sorted, idx0, 0))];
    var i := 0;
    while i < reqd
      invariant 0 <= i <= reqd && idx == Turn(idx0 + i, |sorted|)
      invariant q.jobs == old(q.jobs)[k := was.(held := was.held + Place(sorted, idx0, i))]
    {
      assert Place(sorted, idx0, i + 1) == Place(sorted, idx0, i) + [sorted[idx]];
      assert was.held + Place(sorted, idx0, i) + [sorted[idx]] == was.held + Place(sorted, idx0, i + 1);
      q.jobs := q.jobs[k := q.jobs[k].(held := q.jobs[k].held + [sorted[idx]])];
      IndexTurns(idx0 + i, 1, |sorted|);
      idx := (idx + 1) % |sorted|;
      assert idx == Turn(idx0 + i + 1, |sorted|);
      i := i + 1;
    }
  }

  /** Allocate to the job at position k from the turning index on, and start it. */
  method StartNext(q: PoolQueue, k: nat, sorted: seq<nat>, idx: nat, ghost placed: nat, now: nat)
    returns (idx': nat, ghost placed': nat)
    requires now >= 1 && sorted != [] && idx == Turn(placed, |sorted|)
    requires k == FirstToStart(q.jobs, q.up) < |q.jobs|
    modifies q`jobs
    ensures idx' == Turn(placed', |sorted|)
    ensures Starts(q.up, Spread(q.jobs, placed'), sorted, now) == Starts(q.up, Spread(old(q.jobs), placed), sorted, now)
    ensures Waiting(q.jobs) < Waiting(old(q.jobs))
  {
    hide Turn, Place, Starts;
    ghost var before := q.jobs;
    var reqd := q.jobs[k].nodes;
    StartsStep(q.up, before, placed, sorted, now);
    PlaceFromMod(sorted, placed, reqd);
    IndexTurns(placed, reqd, |sorted|);
    idx' := GiveNodes(q, k, sorted, idx);
    q.jobs := q.jobs[k := q.jobs[k].(start := now)];
    placed' := placed + reqd;
    WaitingAfterStart(before, k, q.jobs[k]);
    assert q.jobs == before[k := before[k].(start := now, held := before[k].held + Place(sorted, placed, reqd))];
  }

  /** shared_schedule. */
  method SharedSchedule(q: PoolQueue, now: nat) returns (didSomething: bool, ghost order: seq<nat>)
    requires now >= 1
    requires forall j :: j in q.jobs ==> j.nodes >= 1
    modifies q`jobs
    ensures didSomething <==> FirstToStart(old(q.jobs), q.up) < |old(q.jobs)|
    ensures !didSomething ==> q.jobs == old(q.jobs)
    ensures didSomething ==> order != [] && LeastLoadedFirst(order, q.up, old(q.jobs))
    ensures didSomething ==> q.jobs == Starts(q.up, Spread(old(q.jobs), 0), order, now).jobs
  {
    order := [];
    var k := FindFirstRunnable(q);
    if k == |q.jobs| { return false, order; }
    var sorted := LeastLoaded(q);
    order := sorted;
    assert q.jobs[k] in q.jobs;
    OrderCovers(sorted, q.up);
    var nodeCount := |sorted|;
    NoPlacement(nodeCount);
    hide Turn, Place, Starts, LeastLoadedFirst;
    var idx := 0;
    ghost var placed: nat := 0;
    ghost var was := q.jobs;
    while k < |q.jobs|
      invariant k == FirstToStart(q.jobs, q.up) && nodeCount == |sorted| > 0
      invariant idx == Turn(placed, nodeCount)
      invariant Starts(q.up, Spread(q.jobs, placed), sorted, now) == Starts(q.up, Spread(was, 0), sorted, now)
      decreases Waiting(q.jobs)
    {
      idx, placed := StartNext(q, k, sorted, idx, placed, now);
      k := FindFirstRunnable(q);
    }
    StartsEnd(q.up, q.jobs, placed, sorted, now);
    didSomething := true;
  }
}
