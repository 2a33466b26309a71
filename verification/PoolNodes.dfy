/** The nodes that the queues say a job holds, and the allocations that the lists in
    memory have for it, are the same. */
module PoolNodes {
  import opened SimplePool
  import opened SharedPool
  import opened FillerPool
  import opened FillerSafety
  import opened Basics
  import Allocator

  function NodesOf(allocs: map<nat, Allocator.Alloc>, s: seq<nat>): seq<nat> {
    seq(|s|, i requires 0 <= i < |s| => if s[i] in allocs then allocs[s[i]].node else 0)
  }

  predicate UniqueIds(jobs: seq<Job>) {
    forall i, k :: 0 <= i < k < |jobs| ==> jobs[i].id != jobs[k].id
  }

  function Ids(jobs: seq<Job>): set<nat> {
    set j | j in jobs :: j.id
  }

  predicate HeldAgree(allocs: map<nat, Allocator.Alloc>, ofJob: map<nat, seq<nat>>, jobs: seq<Job>) {
    forall k :: 0 <= k < |jobs| ==> jobs[k].id in ofJob && jobs[k].held == NodesOf(allocs, ofJob[jobs[k].id])
  }

  /** Exactly the jobs of the pool have lists, and each holds the nodes of its own. */
  predicate Agree(t: Allocator.Tables, p: Pool) {
    && Allocator.Consistent(t) && |t.onNode| == |p.up|
    && UniqueIds(p.jobs) && t.ofJob.Keys == Ids(p.jobs)
    && HeldAgree(t.allocs, t.ofJob, p.jobs)
  }

  lemma JobNamed(jobs: seq<Job>, i: nat) returns (k: nat)
    requires i in Ids(jobs)
    ensures k < |jobs| && jobs[k].id == i
  {
    var j :| j in jobs && j.id == i;
    k :| 0 <= k < |jobs| && jobs[k] == j;
  }

  /** A job has the node exactly if one of its allocations is on that node's list. */
  lemma HoldsIffListed(t: Allocator.Tables, i: nat, n: nat)
    requires Allocator.Consistent(t) && i in t.ofJob && n < |t.onNode|
    ensures n in NodesOf(t.allocs, t.ofJob[i]) <==>
      exists a :: a in t.onNode[n] && a in t.allocs && t.allocs[a].job == i
  {
    var held := NodesOf(t.allocs, t.ofJob[i]);
    if n in held {
      var m :| 0 <= m < |held| && held[m] == n;
      var a := t.ofJob[i][m];
      assert a in t.ofJob[i] && a in t.allocs && Allocator.OnOwnLists(t, a);
    }
    if a :| a in t.onNode[n] && a in t.allocs && t.allocs[a].job == i {
      assert Allocator.OnOwnLists(t, a);
      var m :| 0 <= m < |t.ofJob[i]| && t.ofJob[i][m] == a;
      assert held[m] == n;
    }
  }

  /** The idle test on the lists is the idle test on the queue. */
  lemma IdleAgrees(t: Allocator.Tables, p: Pool, n: nat)
    requires Agree(t, p) && n < |p.up|
    ensures n in HeldSet(p.jobs) <==> t.onNode[n] != []
    ensures n in IdleSet(p.up, p.jobs) <==> p.up[n] && t.onNode[n] == []
  {
    HeldByWhom(p.jobs, n);
    if n in HeldSet(p.jobs) {
      var k :| 0 <= k < |p.jobs| && n in p.jobs[k].held;
      HoldsIffListed(t, p.jobs[k].id, n);
    }
    if t.onNode[n] != [] {
      var a := t.onNode[n][0];
      assert a in t.onNode[n] && a in t.allocs && Allocator.OnOwnLists(t, a);
      var k := JobNamed(p.jobs, t.allocs[a].job);
      HoldsIffListed(t, p.jobs[k].id, n);
    }
  }

  predicate HeldOnce(jobs: seq<Job>) {
    forall j :: j in jobs ==> NoRepeats(j.held)
  }

  lemma TwoPlaces(s: seq<nat>, x: nat, y: nat)
    requires NoRepeats(s) && x < |s| && y < |s| && s[x] == s[y]
    ensures x == y
  {
  }

  lemma SameAllocation(t: Allocator.Tables, p: Pool, n: nat, a: nat, b: nat)
    requires Agree(t, p) && n < |p.up| && HeldOnce(p.jobs)
    requires a in t.onNode[n] && b in t.onNode[n] && a in t.allocs && b in t.allocs
    requires t.allocs[a].job == t.allocs[b].job
    ensures a == b
  {
    assert Allocator.OnOwnLists(t, a) && Allocator.OnOwnLists(t, b);
    var i := t.allocs[a].job;
    var k := JobNamed(p.jobs, i);
    var x :| 0 <= x < |t.ofJob[i]| && t.ofJob[i][x] == a;
    var y :| 0 <= y < |t.ofJob[i]| && t.ofJob[i][y] == b;
    var held := p.jobs[k].held;
    assert held[x] == n && held[y] == n;
    assert p.jobs[k] in p.jobs && NoRepeats(held);
    hide *;
    assert x == y by { TwoPlaces(held, x, y); }
  }

  /** Where no job holds a node twice, no job is on a node's list twice. */
  lemma OnceIsOnce(t: Allocator.Tables, p: Pool, n: nat)
    requires Agree(t, p) && n < |p.up| && HeldOnce(p.jobs)
    ensures Allocator.OncePerJob(t, n)
  {
    var s := t.onNode[n];
    assert NoRepeats(s);
    forall i, k | 0 <= i < k < |s| && s[i] in t.allocs && s[k] in t.allocs
      ensures t.allocs[s[i]].job != t.allocs[s[k]].job
    {
      if t.allocs[s[i]].job == t.allocs[s[k]].job { SameAllocation(t, p, n, s[i], s[k]); }
    }
  }

  // ---- the policies ------------------------------------------------------------------

  predicate WaitingHoldNothing(jobs: seq<Job>) {
    forall j :: j in jobs && !j.Running() ==> j.held == []
  }

  lemma FillerHoldsOnce(p: Pool, now: nat, late: seq<nat>)
    requires WellFormed(p) && now >= 1
    ensures HeldOnce(Pass(p, now, late).jobs)
  {
    hide Pass, NoSharing;
    PassIsSound(p, now, late);
    var q := Pass(p, now, late);
    assert forall j :: j in q.jobs ==> JobOk(j, q.up);
  }

  lemma NobodyStarts(up: seq<bool>, order: seq<nat>, now: nat)
    requires now >= 1 && order != []
    ensures Starts(up, Spread([], 0), order, now).jobs == []
  {
    StartsEnd(up, [], 0, order, now);
  }

  lemma SharedHoldsOnce(up: seq<bool>, jobs: seq<Job>, order: seq<nat>, now: nat)
    requires now >= 1 && order != [] && LeastLoadedFirst(order, up, jobs)
    requires HeldOnce(jobs) && WaitingHoldNothing(jobs)
    ensures HeldOnce(Starts(up, Spread(jobs, 0), order, now).jobs)
  {
    hide Starts, LeastLoadedFirst, NoRepeats, Runnable;
    var after := Starts(up, Spread(jobs, 0), order, now).jobs;
    assert |after| == |jobs| by {
      if jobs == [] { NobodyStarts(up, order, now); } else { StartedJobsAreServed(up, jobs, order, now, 0); }
    }
    forall k | 0 <= k < |after| ensures NoRepeats(after[k].held) {
      StartedJobsAreServed(up, jobs, order, now, k);
      assert jobs[k] in jobs;
    }
  }

  lemma {:induction false} SimpleHoldsOnce(up: seq<bool>, jobs: seq<Job>, now: nat)
    requires now >= 1 && HeldOnce(jobs) && WaitingHoldNothing(jobs)
    ensures HeldOnce(Starting(up, jobs, now))
    decreases Waiting(jobs)
  {
    var k := FirstToStart(jobs, up);
    if k < |jobs| && jobs[k].nodes <= |UsableSet(up, jobs)| {
      var j := StartedJob(up, jobs, k, now);
      StartingStep(up, jobs, now);
      TakeIdleIsIdle(up, HeldSet(jobs), 0, jobs[k].nodes);
      assert jobs[k] in jobs && jobs[k].held == [];
      assert [] + TakeIdle(up, HeldSet(jobs), 0, jobs[k].nodes) == TakeIdle(up, HeldSet(jobs), 0, jobs[k].nodes);
      assert NoRepeats(j.held) && j.Running();
      hide StartedJob, NoRepeats, UsableSet, FirstToStart, StartedNodes;
      assert forall x :: x in jobs[k := j] ==> x == j || x in jobs;
      SimpleHoldsOnce(up, jobs[k := j], now);
    }
  }

  // ---- the steps ---------------------------------------------------------------------

  lemma IdsKept(jobs: seq<Job>, k: nat, j: Job)
    requires k < |jobs| && j.id == jobs[k].id
    ensures Ids(jobs[k := j]) == Ids(jobs) && (UniqueIds(jobs) ==> UniqueIds(jobs[k := j]))
  {
    forall i | i in Ids(jobs) ensures i in Ids(jobs[k := j]) {
      var m := JobNamed(jobs, i);
      assert jobs[k := j][m] in jobs[k := j];
    }
    forall i | i in Ids(jobs[k := j]) ensures i in Ids(jobs) {
      var m := JobNamed(jobs[k := j], i);
      assert jobs[m] in jobs;
    }
  }

  lemma IdsWith(jobs: seq<Job>, j: Job)
    ensures Ids(jobs + [j]) == Ids(jobs) + {j.id}
    ensures UniqueIds(jobs) && j.id !in Ids(jobs) ==> UniqueIds(jobs + [j])
  {
    assert forall x :: x in jobs + [j] <==> x in jobs || x == j;
    assert forall k :: 0 <= k < |jobs| ==> jobs[k] in jobs;
  }

  lemma IdsWithout(jobs: seq<Job>, k: nat)
    requires UniqueIds(jobs) && k < |jobs|
    ensures var rest := jobs[..k] + jobs[k + 1..]; Ids(rest) == Ids(jobs) - {jobs[k].id} && UniqueIds(rest)
  {
    var rest := jobs[..k] + jobs[k + 1..];
    assert forall m :: 0 <= m < |rest| ==> rest[m] == jobs[if m < k then m else m + 1];
    forall i | i in Ids(rest) ensures i in Ids(jobs) - {jobs[k].id} {
      var m := JobNamed(rest, i);
      assert jobs[if m < k then m else m + 1] in jobs;
    }
    forall i | i in Ids(jobs) && i != jobs[k].id ensures i in Ids(rest) {
      var m := JobNamed(jobs, i);
      assert rest[if m < k then m else m - 1] in rest;
    }
  }

  lemma HeldOfOthers(allocs: map<nat, Allocator.Alloc>, after: map<nat, Allocator.Alloc>, s: seq<nat>)
    requires forall x :: x in s ==> x in allocs && x in after && after[x] == allocs[x]
    ensures NodesOf(after, s) == NodesOf(allocs, s)
  {
    assert forall m :: 0 <= m < |s| ==> s[m] in s;
  }

  /** A new job has no nodes and an empty list. */
  lemma SubmitAgrees(t: Allocator.Tables, p: Pool, j: Job)
    requires Agree(t, p) && j.id !in t.ofJob && j.held == []
    ensures Agree(t.(ofJob := t.ofJob[j.id := []]), p.(jobs := p.jobs + [j]))
  {
    Allocator.JobAdded(t, j.id);
    hide Allocator.Consistent;
    IdsWith(p.jobs, j);
    hide UniqueIds, Ids;
    assert HeldAgree(t.allocs, t.ofJob[j.id := []], p.jobs + [j]);
  }

  lemma HeldAfterAllocate(t: Allocator.Tables, jobs: seq<Job>, k: nat, a: nat, node: nat)
    requires Allocator.JobListsOk(t) && HeldAgree(t.allocs, t.ofJob, jobs) && UniqueIds(jobs)
    requires k < |jobs| && a !in t.allocs && node < |t.onNode|
    ensures var u := Allocator.Assigned(t, a, jobs[k].id, node);
      HeldAgree(u.allocs, u.ofJob, jobs[k := jobs[k].(held := jobs[k].held + [node])])
  {
    var u := Allocator.Assigned(t, a, jobs[k].id, node);
    forall m | 0 <= m < |jobs|
      ensures NodesOf(u.allocs, u.ofJob[jobs[m].id]) ==
        NodesOf(t.allocs, t.ofJob[jobs[m].id]) + if m == k then [node] else []
    {
      var s := t.ofJob[jobs[m].id];
      HeldOfOthers(t.allocs, u.allocs, s);
      if m == k {
        assert NodesOf(u.allocs, s + [a]) == NodesOf(u.allocs, s) + [node];
      } else {
        assert jobs[m].id != jobs[k].id;
      }
    }
  }

  /** One bjs_node_allocate is one more node for the job. */
  lemma AllocateAgrees(t: Allocator.Tables, p: Pool, k: nat, a: nat, node: nat)
    requires Agree(t, p) && k < |p.jobs| && a !in t.allocs && node < |p.up|
    ensures Agree(Allocator.Assigned(t, a, p.jobs[k].id, node),
                  p.(jobs := p.jobs[k := p.jobs[k].(held := p.jobs[k].held + [node])]))
  {
    var id := p.jobs[k].id;
    assert Allocator.JobListsOk(t);
    assert id in t.ofJob;
    Allocator.AssignedIsConsistent(t, a, id, node);
    hide Allocator.Consistent, Allocator.JobListsOk, HeldAgree, UniqueIds, Ids, NodesOf;
    IdsKept(p.jobs, k, p.jobs[k].(held := p.jobs[k].held + [node]));
    HeldAfterAllocate(t, p.jobs, k, a, node);
    assert Allocator.Assigned(t, a, id, node).ofJob.Keys == t.ofJob.Keys;
  }

  /** The start of a job, one allocation after the other, numbered from a on. */
  function AssignAll(t: Allocator.Tables, a: nat, job: nat, nodes: seq<nat>): Allocator.Tables
    requires job in t.ofJob && forall i :: 0 <= i < |nodes| ==> nodes[i] < |t.onNode|
    decreases |nodes|
  {
    if nodes == [] then t else AssignAll(Allocator.Assigned(t, a, job, nodes[0]), a + 1, job, nodes[1..])
  }

  lemma GivenTwice(jobs: seq<Job>, k: nat, nodes: seq<nat>)
    requires k < |jobs|
    ensures Given(jobs, k, []) == jobs
    ensures nodes != [] ==> Given(Given(jobs, k, [nodes[0]]), k, nodes[1..]) == Given(jobs, k, nodes)
  {
    var j := jobs[k];
    assert j.held + [] == j.held;
    if nodes != [] {
      assert j.held + [nodes[0]] + nodes[1..] == j.held + nodes;
    }
  }

  /** Starting a job allocation by allocation gives it these nodes on both sides. */
  lemma {:induction false} StartAgrees(t: Allocator.Tables, p: Pool, k: nat, a: nat, nodes: seq<nat>)
    requires Agree(t, p) && k < |p.jobs| && p.jobs[k].id in t.ofJob
    requires (forall x :: x in t.allocs ==> x < a) && |t.onNode| == |p.up|
    requires forall i :: 0 <= i < |nodes| ==> nodes[i] < |p.up|
    ensures Agree(AssignAll(t, a, p.jobs[k].id, nodes), p.(jobs := Given(p.jobs, k, nodes)))
    decreases |nodes|
  {
    GivenTwice(p.jobs, k, nodes);
    if nodes != [] {
      var u, q := Allocator.Assigned(t, a, p.jobs[k].id, nodes[0]), p.(jobs := Given(p.jobs, k, [nodes[0]]));
      assert q.jobs[k].id == p.jobs[k].id && |q.jobs| == |p.jobs|;
      AllocateAgrees(t, p, k, a, nodes[0]);
      assert Agree(u, q);
      hide Agree, Given;
      StartAgrees(u, q, k, a + 1, nodes[1..]);
    }
  }

  /** Stamping the start time changes neither side. */
  lemma StampAgrees(t: Allocator.Tables, p: Pool, k: nat, start: nat)
    requires Agree(t, p) && k < |p.jobs|
    ensures Agree(t, p.(jobs := p.jobs[k := p.jobs[k].(start := start)]))
  {
    IdsKept(p.jobs, k, p.jobs[k].(start := start));
    hide Allocator.Consistent, NodesOf, UniqueIds, Ids;
  }

  lemma HeldAfterRemove(t: Allocator.Tables, jobs: seq<Job>, k: nat)
    requires Allocator.Consistent(t) && HeldAgree(t.allocs, t.ofJob, jobs) && UniqueIds(jobs) && k < |jobs|
    ensures var u := Allocator.Removed(t, jobs[k].id);
      HeldAgree(u.allocs, u.ofJob, jobs[..k] + jobs[k + 1..])
  {
    var id, rest := jobs[k].id, jobs[..k] + jobs[k + 1..];
    var u := Allocator.Removed(t, id);
    assert Allocator.JobListsOk(t);
    Allocator.KillEmptiesJob(t, id);
    assert u.ofJob == t.ofJob[id := []] - {id} && u.allocs == Allocator.Kill(t, id).allocs;
    hide Allocator.Consistent, NodesOf, Allocator.Kill, Allocator.Removed;
    forall m | 0 <= m < |rest| ensures rest[m].id in u.ofJob && rest[m].held == NodesOf(u.allocs, u.ofJob[rest[m].id]) {
      var at := if m < k then m else m + 1;
      var j := rest[m];
      assert j == jobs[at] && j.id != id;
      forall x | x in t.ofJob[j.id] ensures x in t.allocs && x in u.allocs && u.allocs[x] == t.allocs[x] {
        Allocator.KillFreesAll(t, id, x);
      }
      HeldOfOthers(t.allocs, u.allocs, t.ofJob[j.id]);
    }
  }

  /** bjs_job_remove takes the job out of both. */
  lemma RemoveAgrees(t: Allocator.Tables, p: Pool, k: nat)
    requires Agree(t, p) && k < |p.jobs|
    ensures Agree(Allocator.Removed(t, p.jobs[k].id), p.(jobs := p.jobs[..k] + p.jobs[k + 1..]))
  {
    var id := p.jobs[k].id;
    Allocator.KillEmptiesJob(t, id);
    Allocator.JobDropped(Allocator.Kill(t, id), id);
    HeldAfterRemove(t, p.jobs, k);
    IdsWithout(p.jobs, k);
    var u := Allocator.Removed(t, id);
    assert u.ofJob.Keys == t.ofJob.Keys - {id} && |u.onNode| == |t.onNode| && Allocator.Consistent(u);
    hide Allocator.Consistent, Allocator.Removed, HeldAgree, UniqueIds, Ids;
    assert Agree(u, p.(jobs := p.jobs[..k] + p.jobs[k + 1..]));
  }
}
