/** Node allocations on two circular lists at once: the job's list of nodes and the
    node's list of jobs, linked through next and prev pointers. */
module Allocator {
  import opened Basics

  /** The addresses of the list_head structures: the head inside a job, the head
      inside a node, and the two links inside an allocation. */
  datatype Link = JobHead(job: nat) | NodeHead(node: nat) | OnJob(alloc: nat) | OnNode(alloc: nat)

  /** The pointer fields of all list_head structures. */
  datatype Links = Links(next: map<Link, Link>, prev: map<Link, Link>)

  function Following(n: nat, i: nat): nat
    requires i < n
  {
    if i + 1 == n then 0 else i + 1
  }

  /** next leads from each element to the following one, and from the last to the head. */
  ghost predicate Forward(next: map<Link, Link>, r: seq<Link>) {
    forall i :: 0 <= i < |r| ==> r[i] in next && next[r[i]] == r[Following(|r|, i)]
  }

  /** prev leads from each following element back to it. */
  ghost predicate Backward(prev: map<Link, Link>, r: seq<Link>) {
    forall i :: 0 <= i < |r| ==> r[Following(|r|, i)] in prev && prev[r[Following(|r|, i)]] == r[i]
  }

  /** r, head first, is a well-formed circular list: no element twice, and next and
      prev lead around it in opposite directions. */
  ghost predicate Ring(m: Links, r: seq<Link>) {
    |r| > 0 && NoRepeats(r) && Forward(m.next, r) && Backward(m.prev, r)
  }

  /** __list_add: entry goes between prev and next. */
  function ListInsert(m: Links, entry: Link, prev: Link, next: Link): Links {
    Links(m.next[entry := next][prev := entry], m.prev[next := entry][entry := prev])
  }

  function ListAddTail(m: Links, entry: Link, head: Link): Links
    requires head in m.prev
  {
    ListInsert(m, entry, m.prev[head], head)
  }

  /** list_del: the neighbours point at each other. */
  function ListDel(m: Links, entry: Link): Links
    requires entry in m.prev && entry in m.next
  {
    var prev, next := m.prev[entry], m.next[entry];
    Links(m.next[prev := next], m.prev[next := prev])
  }

  lemma RingEnds(m: Links, r: seq<Link>)
    requires Ring(m, r)
    ensures r[0] in m.prev && m.prev[r[0]] == r[|r| - 1]
    ensures m.next[r[0]] == if |r| == 1 then r[0] else r[1]
    ensures m.next[r[0]] == r[0] <==> |r| == 1
  {
    assert Following(|r|, |r| - 1) == 0;
  }

  lemma AddTailKeepsRing(m: Links, r: seq<Link>, entry: Link)
    requires Ring(m, r) && entry !in r
    ensures r[0] in m.prev && Ring(ListAddTail(m, entry, r[0]), r + [entry])
  {
    RingEnds(m, r);
    var after, q := ListAddTail(m, entry, r[0]), r + [entry];
    var n := |r|;
    forall i | 0 <= i < |q|
      ensures q[i] in after.next && after.next[q[i]] == q[Following(|q|, i)]
    {
      if i < n { assert r[i] in m.next && m.next[r[i]] == r[Following(n, i)]; }
    }
    forall i | 0 <= i < |q|
      ensures q[Following(|q|, i)] in after.prev && after.prev[q[Following(|q|, i)]] == q[i]
    {
      if i + 1 < n { assert m.prev[r[Following(n, i)]] == r[i]; }
    }
  }

  lemma AddTailElsewhere(m: Links, r: seq<Link>, entry: Link, q: seq<Link>)
    requires Ring(m, r) && Ring(m, q) && entry !in q
    requires forall x :: x in r ==> x !in q
    ensures r[0] in m.prev && Ring(ListAddTail(m, entry, r[0]), q)
  {
    RingEnds(m, r);
    var after := ListAddTail(m, entry, r[0]);
    assert r[|r| - 1] !in q && r[0] !in q;
    forall i | 0 <= i < |q|
      ensures q[i] in after.next && after.next[q[i]] == q[Following(|q|, i)]
    {
      assert q[i] in q;
    }
    forall i | 0 <= i < |q|
      ensures q[Following(|q|, i)] in after.prev && after.prev[q[Following(|q|, i)]] == q[i]
    {
      assert q[Following(|q|, i)] in q;
    }
  }

  /** Positions before and after the gap left by removing position k. */
  lemma AroundGap(r: seq<Link>, k: nat, i: nat)
    requires NoRepeats(r) && 1 <= k < |r| && i < |r| - 1
    ensures var q := r[..k] + r[k + 1..];
      var j := if i < k then i else i + 1;
      && q[i] == r[j]
      && q[Following(|q|, i)] == r[if i == k - 1 then Following(|r|, k) else Following(|r|, j)]
      && (i != k - 1 ==> r[j] != r[k - 1])
  {
  }

  lemma DelForwardAt(next: map<Link, Link>, r: seq<Link>, k: nat, i: nat)
    requires NoRepeats(r) && Forward(next, r) && 1 <= k < |r| && i < |r| - 1
    ensures var q, after := r[..k] + r[k + 1..], next[r[k - 1] := r[Following(|r|, k)]];
      q[i] in after && after[q[i]] == q[Following(|q|, i)]
  {
    var j := if i < k then i else i + 1;
    AroundGap(r, k, i);
    assert r[j] in next && next[r[j]] == r[Following(|r|, j)];
    hide Forward, NoRepeats, Following;
  }

  lemma DelForward(next: map<Link, Link>, r: seq<Link>, k: nat)
    requires NoRepeats(r) && Forward(next, r) && 1 <= k < |r|
    ensures Forward(next[r[k - 1] := r[Following(|r|, k)]], r[..k] + r[k + 1..])
  {
    var q := r[..k] + r[k + 1..];
    var after := next[r[k - 1] := r[Following(|r|, k)]];
    forall i | 0 <= i < |q| ensures q[i] in after && after[q[i]] == q[Following(|q|, i)] {
      DelForwardAt(next, r, k, i);
    }
  }

  lemma DelBackward(prev: map<Link, Link>, r: seq<Link>, k: nat)
    requires NoRepeats(r) && Backward(prev, r) && 1 <= k < |r|
    ensures Backward(prev[r[Following(|r|, k)] := r[k - 1]], r[..k] + r[k + 1..])
  {
    var n, q := |r|, r[..k] + r[k + 1..];
    var after := prev[r[Following(n, k)] := r[k - 1]];
    forall i | 0 <= i < |q|
      ensures q[Following(|q|, i)] in after && after[q[Following(|q|, i)]] == q[i]
    {
      var j := if i < k then i else i + 1;
      assert q[i] == r[j];
      if i == k - 1 {
        assert q[Following(|q|, i)] == r[Following(n, k)];
      } else {
        assert q[Following(|q|, i)] == r[Following(n, j)];
        assert r[Following(n, j)] in prev && prev[r[Following(n, j)]] == r[j];
        assert Following(n, j) != Following(n, k);
      }
    }
  }

  lemma DelKeepsDistinct(r: seq<Link>, k: nat)
    requires NoRepeats(r) && k < |r|
    ensures NoRepeats(r[..k] + r[k + 1..])
  {
  }

  lemma InOwnPlace(m: Links, r: seq<Link>, k: nat)
    requires Ring(m, r) && 1 <= k < |r|
    ensures r[k] in m.next && m.next[r[k]] == r[Following(|r|, k)]
    ensures r[k] in m.prev && m.prev[r[k]] == r[k - 1]
  {
    assert Following(|r|, k - 1) == k;
  }

  lemma DelKeepsRing(m: Links, r: seq<Link>, k: nat)
    requires Ring(m, r) && 1 <= k < |r|
    ensures r[k] in m.prev && r[k] in m.next && Ring(ListDel(m, r[k]), r[..k] + r[k + 1..])
  {
    InOwnPlace(m, r, k);
    hide NoRepeats, Forward, Backward, Following;
    DelKeepsDistinct(r, k);
    DelForward(m.next, r, k);
    DelBackward(m.prev, r, k);
  }

  lemma DelElsewhere(m: Links, r: seq<Link>, k: nat, q: seq<Link>)
    requires Ring(m, r) && Ring(m, q) && 1 <= k < |r|
    requires forall x :: x in r ==> x !in q
    ensures r[k] in m.prev && r[k] in m.next && Ring(ListDel(m, r[k]), q)
  {
    var n := |r|;
    assert Following(n, k - 1) == k;
    assert m.prev[r[k]] == r[k - 1] && m.next[r[k]] == r[Following(n, k)];
    assert r[k - 1] in r && r[Following(n, k)] in r;
    var after := ListDel(m, r[k]);
    forall i | 0 <= i < |q|
      ensures q[i] in after.next && after.next[q[i]] == q[Following(|q|, i)]
    {
      assert q[i] in q;
    }
    forall i | 0 <= i < |q|
      ensures q[Following(|q|, i)] in after.prev && after.prev[q[Following(|q|, i)]] == q[i]
    {
      assert q[Following(|q|, i)] in q;
    }
  }

  // ---- jobs, nodes and allocations ---------------------------------------------

  /** A struct node_alloc_t: whose it is and where. */
  datatype Alloc = Alloc(job: nat, node: nat)

  function JobRing(job: nat, allocs: seq<nat>): seq<Link> {
    [JobHead(job)] + seq(|allocs|, i requires 0 <= i < |allocs| => OnJob(allocs[i]))
  }

  function NodeRing(node: nat, allocs: seq<nat>): seq<Link> {
    [NodeHead(node)] + seq(|allocs|, i requires 0 <= i < |allocs| => OnNode(allocs[i]))
  }

  /** The lists by their contents: which allocations each job and each node has, in
      list order, what they are, and the nodes handed to cleaning so far. */
  datatype Tables = Tables(allocs: map<nat, Alloc>, ofJob: map<nat, seq<nat>>, onNode: seq<seq<nat>>, cleaned: seq<nat>)

  /** Each list names an allocation at most once. */
  predicate ListsDistinct(t: Tables) {
    && (forall j :: j in t.ofJob ==> NoRepeats(t.ofJob[j]))
    && (forall n :: 0 <= n < |t.onNode| ==> NoRepeats(t.onNode[n]))
  }

  predicate OnOwnLists(t: Tables, a: nat)
    requires a in t.allocs
  {
    && t.allocs[a].job in t.ofJob && a in t.ofJob[t.allocs[a].job]
    && t.allocs[a].node < |t.onNode| && a in t.onNode[t.allocs[a].node]
  }

  predicate JobListsOk(t: Tables) {
    forall j, a :: j in t.ofJob && a in t.ofJob[j] ==> a in t.allocs && t.allocs[a].job == j
  }

  predicate NodeListsOk(t: Tables) {
    forall n, a :: 0 <= n < |t.onNode| && a in t.onNode[n] ==> a in t.allocs && t.allocs[a].node == n
  }

  /** An allocation is on its job's list iff it is on its node's list, and on no other. */
  predicate Consistent(t: Tables) {
    && ListsDistinct(t)
    && (forall a :: a in t.allocs ==> OnOwnLists(t, a))
    && JobListsOk(t)
    && NodeListsOk(t)
  }

  function Assigned(t: Tables, a: nat, job: nat, node: nat): Tables
    requires job in t.ofJob && node < |t.onNode|
  {
    t.(allocs := t.allocs[a := Alloc(job, node)],
       ofJob := t.ofJob[job := t.ofJob[job] + [a]],
       onNode := t.onNode[node := t.onNode[node] + [a]])
  }

  /** Taking an allocation off both lists hands its node to cleaning exactly when
      it was the last one there. */
  function Released(t: Tables, a: nat): Tables
    requires a in t.allocs && t.allocs[a].job in t.ofJob && t.allocs[a].node < |t.onNode|
  {
    var job, node := t.allocs[a].job, t.allocs[a].node;
    var left := Without(t.onNode[node], a);
    Tables(t.allocs - {a}, t.ofJob[job := Without(t.ofJob[job], a)], t.onNode[node := left],
           t.cleaned + if left == [] then [node] else [])
  }

  lemma AppendedIsDistinct(s: seq<nat>, a: nat)
    requires NoRepeats(s) && a !in s
    ensures NoRepeats(s + [a]) && forall x :: x in s + [a] <==> x in s || x == a
  {
  }

  lemma AssignedOwnLists(t: Tables, a: nat, job: nat, node: nat, b: nat)
    requires a !in t.allocs && job in t.ofJob && node < |t.onNode|
    requires b == a || (b in t.allocs && OnOwnLists(t, b))
    ensures OnOwnLists(Assigned(t, a, job, node), b)
  {
  }

  lemma AssignedListsDistinct(t: Tables, a: nat, job: nat, node: nat)
    requires ListsDistinct(t) && job in t.ofJob && node < |t.onNode| && a !in t.ofJob[job] && a !in t.onNode[node]
    ensures ListsDistinct(Assigned(t, a, job, node))
  {
    AppendedIsDistinct(t.ofJob[job], a);
    AppendedIsDistinct(t.onNode[node], a);
    hide NoRepeats;
  }

  lemma AssignedListsOk(t: Tables, a: nat, job: nat, node: nat)
    requires JobListsOk(t) && NodeListsOk(t) && a !in t.allocs && job in t.ofJob && node < |t.onNode|
    ensures JobListsOk(Assigned(t, a, job, node)) && NodeListsOk(Assigned(t, a, job, node))
  {
  }

  lemma AssignedIsConsistent(t: Tables, a: nat, job: nat, node: nat)
    requires Consistent(t) && a !in t.allocs && job in t.ofJob && node < |t.onNode|
    ensures Consistent(Assigned(t, a, job, node))
  {
    assert a !in t.ofJob[job] && a !in t.onNode[node];
    hide ListsDistinct, JobListsOk, NodeListsOk, OnOwnLists;
    AssignedListsDistinct(t, a, job, node);
    AssignedListsOk(t, a, job, node);
    var u := Assigned(t, a, job, node);
    forall b | b in u.allocs ensures OnOwnLists(u, b) {
      AssignedOwnLists(t, a, job, node, b);
    }
  }

  lemma ReleasedOwnLists(t: Tables, a: nat, b: nat)
    requires Consistent(t) && a in t.allocs && b in t.allocs && b != a
    requires t.allocs[a].job in t.ofJob && t.allocs[a].node < |t.onNode|
    requires forall x :: x in Without(t.ofJob[t.allocs[a].job], a) <==> x in t.ofJob[t.allocs[a].job] && x != a
    requires forall x :: x in Without(t.onNode[t.allocs[a].node], a) <==> x in t.onNode[t.allocs[a].node] && x != a
    ensures OnOwnLists(Released(t, a), b)
  {
    assert OnOwnLists(t, b);
  }

  lemma ReleasedIsConsistent(t: Tables, a: nat)
    requires Consistent(t) && a in t.allocs
    ensures Consistent(Released(t, a))
  {
    assert OnOwnLists(t, a);
    WithoutMembers(t.ofJob[t.allocs[a].job], a);
    WithoutMembers(t.onNode[t.allocs[a].node], a);
    hide NoRepeats, Without;
    var u := Released(t, a);
    forall b | b in u.allocs ensures OnOwnLists(u, b) {
      ReleasedOwnLists(t, a, b);
    }
    hide OnOwnLists;
    assert ListsDistinct(u);
    assert JobListsOk(u) && NodeListsOk(u);
  }

  // ---- killing a job ---------------------------------------------------------------

  lemma FirstRelease(t: Tables, j: nat)
    requires Consistent(t) && j in t.ofJob && t.ofJob[j] != []
    ensures var a := t.ofJob[j][0];
      && a in t.allocs && t.allocs[a].job == j && OnOwnLists(t, a)
      && Consistent(Released(t, a))
      && Released(t, a).ofJob == t.ofJob[j := t.ofJob[j][1..]]
      && |Released(t, a).onNode| == |t.onNode|
      && (forall n :: 0 <= n < |t.onNode| && n != t.allocs[a].node ==> Released(t, a).onNode[n] == t.onNode[n])
      && (forall x :: x in Released(t, a).onNode[t.allocs[a].node] <==> x in t.onNode[t.allocs[a].node] && x != a)
  {
    var a := t.ofJob[j][0];
    assert a in t.ofJob[j];
    assert OnOwnLists(t, a);
    ReleasedIsConsistent(t, a);
    WithoutMembers(t.onNode[t.allocs[a].node], a);
  }

  /** Release everything job j holds, first to last. */
  function Kill(t: Tables, j: nat): Tables
    requires Consistent(t) && j in t.ofJob
    decreases if j in t.ofJob then |t.ofJob[j]| else 0
  {
    if t.ofJob[j] == [] then t
    else
      FirstRelease(t, j);
      Kill(Released(t, t.ofJob[j][0]), j)
  }

  predicate OnlyOf(t: Tables, s: seq<nat>, j: nat) {
    forall a :: a in s ==> a in t.allocs && t.allocs[a].job == j
  }

  predicate JobOn(t: Tables, j: nat, n: nat)
    requires n < |t.onNode|
  {
    exists a :: a in t.onNode[n] && a in t.allocs && t.allocs[a].job == j
  }

  /** After a kill the job's own list is empty and the other jobs' are as before. */
  lemma {:induction false} KillEmptiesJob(t: Tables, j: nat)
    requires Consistent(t) && j in t.ofJob
    ensures Consistent(Kill(t, j))
    ensures Kill(t, j).ofJob == t.ofJob[j := []]
    ensures |Kill(t, j).onNode| == |t.onNode|
    decreases if j in t.ofJob then |t.ofJob[j]| else 0
  {
    if t.ofJob[j] == [] {
      assert t.ofJob == t.ofJob[j := []];
    } else {
      FirstRelease(t, j);
      hide Consistent, OnOwnLists;
      KillEmptiesJob(Released(t, t.ofJob[j][0]), j);
    }
  }

  /** The allocations left are those of other jobs, unchanged. */
  lemma {:induction false} KillFreesAll(t: Tables, j: nat, a: nat)
    requires Consistent(t) && j in t.ofJob
    ensures a in Kill(t, j).allocs <==> a in t.allocs && t.allocs[a].job != j
    ensures a in Kill(t, j).allocs ==> Kill(t, j).allocs[a] == t.allocs[a]
    decreases if j in t.ofJob then |t.ofJob[j]| else 0
  {
    if t.ofJob[j] == [] {
      if a in t.allocs { assert OnOwnLists(t, a); }
    } else {
      FirstRelease(t, j);
      hide Consistent, OnOwnLists;
      KillFreesAll(Released(t, t.ofJob[j][0]), j, a);
    }
  }

  /** The allocations of s that are not job j's. */
  function Others(allocs: map<nat, Alloc>, s: seq<nat>, j: nat): seq<nat> {
    if s == [] then []
    else (if s[0] in allocs && allocs[s[0]].job == j then [] else [s[0]]) + Others(allocs, s[1..], j)
  }

  lemma {:induction false} OthersOfRest(allocs: map<nat, Alloc>, s: seq<nat>, a: nat, j: nat)
    requires a !in s
    ensures Others(allocs - {a}, s, j) == Others(allocs, s, j)
  {
    if s != [] { OthersOfRest(allocs, s[1..], a, j); }
  }

  lemma {:induction false} OthersAfterRelease(allocs: map<nat, Alloc>, s: seq<nat>, a: nat, j: nat)
    requires NoRepeats(s) && a in allocs && allocs[a].job == j
    ensures Others(allocs - {a}, Without(s, a), j) == Others(allocs, s, j)
  {
    if s != [] {
      if s[0] == a {
        assert a !in s[1..];
        OthersOfRest(allocs, s[1..], a, j);
      } else {
        OthersAfterRelease(allocs, s[1..], a, j);
        assert Without(s, a)[1..] == Without(s[1..], a);
      }
    }
  }

  lemma {:induction false} OthersOfOthers(allocs: map<nat, Alloc>, s: seq<nat>, j: nat)
    requires forall x :: x in s ==> x in allocs && allocs[x].job != j
    ensures Others(allocs, s, j) == s
  {
    if s != [] { OthersOfOthers(allocs, s[1..], j); }
  }

  /** On every node exactly the allocations of other jobs are left, in their order. */
  lemma {:induction false} KillLeavesOthers(t: Tables, j: nat, n: nat)
    requires Consistent(t) && j in t.ofJob && n < |t.onNode|
    ensures |Kill(t, j).onNode| == |t.onNode|
    ensures Kill(t, j).onNode[n] == Others(t.allocs, t.onNode[n], j)
    decreases if j in t.ofJob then |t.ofJob[j]| else 0
  {
    if t.ofJob[j] == [] {
      forall x | x in t.onNode[n] ensures x in t.allocs && t.allocs[x].job != j {
        assert OnOwnLists(t, x);
      }
      OthersOfOthers(t.allocs, t.onNode[n], j);
    } else {
      FirstRelease(t, j);
      var a := t.ofJob[j][0];
      if n == t.allocs[a].node {
        OthersAfterRelease(t.allocs, t.onNode[n], a, j);
      } else {
        assert a !in t.onNode[n];
        OthersOfRest(t.allocs, t.onNode[n], a, j);
      }
      hide Consistent, OnOwnLists, Others;
      KillLeavesOthers(Released(t, a), j, n);
    }
  }

  lemma OnlyOfRelease(t: Tables, a: nat, j: nat, n: nat)
    requires Consistent(t) && a in t.allocs && t.allocs[a].job == j && n < |t.onNode| && OnOwnLists(t, a)
    ensures OnlyOf(Released(t, a), Released(t, a).onNode[n], j) <==> OnlyOf(t, t.onNode[n], j)
    ensures n != t.allocs[a].node ==> Released(t, a).onNode[n] == t.onNode[n]
    ensures n == t.allocs[a].node ==> t.onNode[n] != []
    ensures n == t.allocs[a].node && Released(t, a).onNode[n] == [] ==> OnlyOf(t, t.onNode[n], j)
  {
    WithoutMembers(t.onNode[t.allocs[a].node], a);
    var r := Released(t, a);
    if n == t.allocs[a].node && r.onNode[n] == [] {
      forall x | x in t.onNode[n] ensures x == a {
        assert x in Without(t.onNode[n], a) <==> x != a;
      }
    }
  }

  lemma CountOne(s: seq<nat>, node: nat, n: nat)
    ensures Count(s + [node], n) == Count(s, n) + if node == n then 1 else 0
  {
    assert (s + [node])[..|s|] == s;
  }

  /** A node was cleaned once if the job had been alone on it, and else not at all. */
  lemma {:induction false} KillCleansOnce(t: Tables, j: nat, n: nat)
    requires Consistent(t) && j in t.ofJob && n < |t.onNode|
    ensures Count(Kill(t, j).cleaned, n) == Count(t.cleaned, n) +
      if t.onNode[n] != [] && OnlyOf(t, t.onNode[n], j) then 1 else 0
    decreases if j in t.ofJob then |t.ofJob[j]| else 0
  {
    if t.ofJob[j] == [] {
      if t.onNode[n] != [] {
        var b := t.onNode[n][0];
        assert b in t.onNode[n] && OnOwnLists(t, b);
      }
    } else {
      FirstRelease(t, j);
      var a := t.ofJob[j][0];
      var r := Released(t, a);
      CountOne(t.cleaned, t.allocs[a].node, n);
      OnlyOfRelease(t, a, j, n);
      hide Consistent, OnOwnLists, OnlyOf, Without, Count;
      KillCleansOnce(r, j, n);
      assert t.cleaned + [] == t.cleaned;
    }
  }

  // ---- all the rings together -----------------------------------------------------------

  /** Every list in memory is a circular list with the contents the tables give. */
  ghost predicate AllRings(m: Links, ofJob: map<nat, seq<nat>>, onNode: seq<seq<nat>>) {
    && (forall j :: j in ofJob ==> Ring(m, JobRing(j, ofJob[j])))
    && (forall n :: 0 <= n < |onNode| ==> Ring(m, NodeRing(n, onNode[n])))
  }

  predicate Apart(q: seq<Link>, r: seq<Link>) {
    forall x :: x in q ==> x !in r
  }

  lemma NodeRingGrows(n: nat, s: seq<nat>, a: nat)
    ensures NodeRing(n, s + [a]) == NodeRing(n, s) + [OnNode(a)]
    ensures JobRing(n, s + [a]) == JobRing(n, s) + [OnJob(a)]
  {
  }

  lemma NodeLinksSplit(n: nat, s: seq<nat>, k: nat, w: seq<nat>)
    requires k < |s| && w == s[..k] + s[k + 1..]
    ensures NodeRing(n, w) == NodeRing(n, s)[..k + 1] + NodeRing(n, s)[k + 2..]
  {
    var r := NodeRing(n, s);
    assert forall i :: 0 <= i < |w| ==> w[i] == if i < k then s[i] else s[i + 1];
  }

  lemma JobLinksSplit(n: nat, s: seq<nat>, k: nat, w: seq<nat>)
    requires k < |s| && w == s[..k] + s[k + 1..]
    ensures JobRing(n, w) == JobRing(n, s)[..k + 1] + JobRing(n, s)[k + 2..]
  {
    var r := JobRing(n, s);
    assert forall i :: 0 <= i < |w| ==> w[i] == if i < k then s[i] else s[i + 1];
  }

  lemma RingShrinks(n: nat, s: seq<nat>, k: nat)
    requires NoRepeats(s) && k < |s|
    ensures NodeRing(n, Without(s, s[k])) == NodeRing(n, s)[..k + 1] + NodeRing(n, s)[k + 2..]
    ensures JobRing(n, Without(s, s[k])) == JobRing(n, s)[..k + 1] + JobRing(n, s)[k + 2..]
  {
    WithoutAt(s, k);
    hide Without, NoRepeats;
    var w := s[..k] + s[k + 1..];
    NodeLinksSplit(n, s, k, w);
    JobLinksSplit(n, s, k, w);
  }

  lemma InRing(n: nat, s: seq<nat>, x: Link)
    ensures x in NodeRing(n, s) <==> x == NodeHead(n) || (x.OnNode? && x.alloc in s)
    ensures x in JobRing(n, s) <==> x == JobHead(n) || (x.OnJob? && x.alloc in s)
  {
    if x.OnNode? && x.alloc in s {
      var i :| 0 <= i < |s| && s[i] == x.alloc;
      assert NodeRing(n, s)[i + 1] == x;
    }
    if x.OnJob? && x.alloc in s {
      var i :| 0 <= i < |s| && s[i] == x.alloc;
      assert JobRing(n, s)[i + 1] == x;
    }
    assert NodeRing(n, s)[0] == NodeHead(n) && JobRing(n, s)[0] == JobHead(n);
  }

  /** An allocation that does not exist is on no ring. */
  lemma NewLinksFree(t: Tables, a: nat)
    requires Consistent(t) && a !in t.allocs
    ensures forall j :: j in t.ofJob ==> OnJob(a) !in JobRing(j, t.ofJob[j]) && OnNode(a) !in JobRing(j, t.ofJob[j])
    ensures forall n :: 0 <= n < |t.onNode| ==>
      OnJob(a) !in NodeRing(n, t.onNode[n]) && OnNode(a) !in NodeRing(n, t.onNode[n])
  {
    forall j | j in t.ofJob ensures OnJob(a) !in JobRing(j, t.ofJob[j]) {
      assert a !in t.ofJob[j];
    }
    forall n | 0 <= n < |t.onNode| ensures OnNode(a) !in NodeRing(n, t.onNode[n]) {
      assert a !in t.onNode[n];
    }
  }

  lemma OnOneList(t: Tables, a: nat, j: nat, i: nat)
    ensures JobListsOk(t) && j in t.ofJob && i in t.ofJob && a in t.ofJob[j] && a in t.ofJob[i] ==> j == i
    ensures NodeListsOk(t) && j < |t.onNode| && i < |t.onNode| && a in t.onNode[j] && a in t.onNode[i] ==> j == i
  {
    if JobListsOk(t) && j in t.ofJob && a in t.ofJob[j] { assert t.allocs[a].job == j; }
    if NodeListsOk(t) && j < |t.onNode| && a in t.onNode[j] { assert t.allocs[a].node == j; }
  }

  lemma NodesApart(t: Tables, n: nat, i: nat)
    requires NodeListsOk(t) && n < |t.onNode| && i < |t.onNode| && i != n
    ensures Apart(NodeRing(n, t.onNode[n]), NodeRing(i, t.onNode[i]))
  {
    forall x | x in NodeRing(n, t.onNode[n]) ensures x !in NodeRing(i, t.onNode[i]) {
      InRing(n, t.onNode[n], x);
      InRing(i, t.onNode[i], x);
      if x.OnNode? { OnOneList(t, x.alloc, n, i); }
    }
  }

  lemma JobsApart(t: Tables, j: nat, i: nat)
    requires JobListsOk(t) && j in t.ofJob && i in t.ofJob && i != j
    ensures Apart(JobRing(j, t.ofJob[j]), JobRing(i, t.ofJob[i]))
  {
    forall x | x in JobRing(j, t.ofJob[j]) ensures x !in JobRing(i, t.ofJob[i]) {
      InRing(j, t.ofJob[j], x);
      InRing(i, t.ofJob[i], x);
      if x.OnJob? { OnOneList(t, x.alloc, j, i); }
    }
  }

  lemma KindsApart(j: nat, s: seq<nat>, n: nat, q: seq<nat>)
    ensures Apart(JobRing(j, s), NodeRing(n, q)) && Apart(NodeRing(n, q), JobRing(j, s))
  {
  }

  lemma AddToNode(m: Links, t: Tables, a: nat, node: nat)
    requires Consistent(t) && a !in t.allocs && node < |t.onNode|
    requires AllRings(m, t.ofJob, t.onNode)
    ensures NodeHead(node) in m.prev
    ensures AllRings(ListAddTail(m, OnNode(a), NodeHead(node)), t.ofJob, t.onNode[node := t.onNode[node] + [a]])
  {
    NewLinksFree(t, a);
    var r := NodeRing(node, t.onNode[node]);
    AddTailKeepsRing(m, r, OnNode(a));
    NodeRingGrows(node, t.onNode[node], a);
    forall j | j in t.ofJob
      ensures Ring(ListAddTail(m, OnNode(a), NodeHead(node)), JobRing(j, t.ofJob[j]))
    {
      KindsApart(j, t.ofJob[j], node, t.onNode[node]);
      AddTailElsewhere(m, r, OnNode(a), JobRing(j, t.ofJob[j]));
    }
    forall n | 0 <= n < |t.onNode| && n != node
      ensures Ring(ListAddTail(m, OnNode(a), NodeHead(node)), NodeRing(n, t.onNode[n]))
    {
      NodesApart(t, node, n);
      AddTailElsewhere(m, r, OnNode(a), NodeRing(n, t.onNode[n]));
    }
  }

  lemma AddToJob(m: Links, t: Tables, a: nat, job: nat, onNode: seq<seq<nat>>)
    requires Consistent(t) && a !in t.allocs && job in t.ofJob
    requires AllRings(m, t.ofJob, onNode)
    ensures JobHead(job) in m.prev
    ensures AllRings(ListAddTail(m, OnJob(a), JobHead(job)), t.ofJob[job := t.ofJob[job] + [a]], onNode)
  {
    NewLinksFree(t, a);
    var r := JobRing(job, t.ofJob[job]);
    AddTailKeepsRing(m, r, OnJob(a));
    NodeRingGrows(job, t.ofJob[job], a);
    forall j | j in t.ofJob && j != job
      ensures Ring(ListAddTail(m, OnJob(a), JobHead(job)), JobRing(j, t.ofJob[j]))
    {
      JobsApart(t, job, j);
      AddTailElsewhere(m, r, OnJob(a), JobRing(j, t.ofJob[j]));
    }
    forall n | 0 <= n < |onNode|
      ensures Ring(ListAddTail(m, OnJob(a), JobHead(job)), NodeRing(n, onNode[n]))
    {
      KindsApart(job, t.ofJob[job], n, onNode[n]);
      assert OnJob(a) !in NodeRing(n, onNode[n]);
      AddTailElsewhere(m, r, OnJob(a), NodeRing(n, onNode[n]));
    }
  }

  /** Taking entry k off a ring leaves it a ring of the others. */
  lemma DelOwnRing(m: Links, n: nat, s: seq<nat>, k: nat)
    requires NoRepeats(s) && k < |s|
    ensures Ring(m, NodeRing(n, s)) ==>
      && OnNode(s[k]) in m.prev && OnNode(s[k]) in m.next
      && Ring(ListDel(m, OnNode(s[k])), NodeRing(n, Without(s, s[k])))
    ensures Ring(m, JobRing(n, s)) ==>
      && OnJob(s[k]) in m.prev && OnJob(s[k]) in m.next
      && Ring(ListDel(m, OnJob(s[k])), JobRing(n, Without(s, s[k])))
  {
    var r, q := NodeRing(n, s), JobRing(n, s);
    assert r[k + 1] == OnNode(s[k]) && q[k + 1] == OnJob(s[k]);
    RingShrinks(n, s, k);
    hide Ring, NodeRing, JobRing, ListDel, Without;
    if Ring(m, r) { DelKeepsRing(m, r, k + 1); }
    if Ring(m, q) { DelKeepsRing(m, q, k + 1); }
  }

  /** Taking an entry off one ring leaves a ring that shares nothing with it. */
  lemma DelOtherRing(m: Links, r: seq<Link>, k: nat, q: seq<Link>, entry: Link)
    requires Ring(m, r) && Ring(m, q) && k + 1 < |r| && r[k + 1] == entry && Apart(r, q)
    ensures entry in m.prev && entry in m.next && Ring(ListDel(m, entry), q)
  {
    hide ListDel, Ring;
    DelElsewhere(m, r, k + 1, q);
  }

  lemma DelFromNode(m: Links, t: Tables, a: nat, k: nat)
    requires NodeListsOk(t) && a in t.allocs && t.allocs[a].node < |t.onNode|
    requires NoRepeats(t.onNode[t.allocs[a].node])
    requires k < |t.onNode[t.allocs[a].node]| && t.onNode[t.allocs[a].node][k] == a
    requires AllRings(m, t.ofJob, t.onNode)
    ensures OnNode(a) in m.prev && OnNode(a) in m.next
    ensures var node := t.allocs[a].node;
      AllRings(ListDel(m, OnNode(a)), t.ofJob, t.onNode[node := Without(t.onNode[node], a)])
  {
    var node := t.allocs[a].node;
    var s := t.onNode[node];
    var r := NodeRing(node, s);
    assert r[k + 1] == OnNode(a);
    DelOwnRing(m, node, s, k);
    hide Ring, NodeRing, JobRing, ListDel, Without, NoRepeats, Apart, NodeListsOk;
    forall j | j in t.ofJob
      ensures Ring(ListDel(m, OnNode(a)), JobRing(j, t.ofJob[j]))
    {
      KindsApart(j, t.ofJob[j], node, s);
      DelOtherRing(m, r, k, JobRing(j, t.ofJob[j]), OnNode(a));
    }
    forall n | 0 <= n < |t.onNode| && n != node
      ensures Ring(ListDel(m, OnNode(a)), NodeRing(n, t.onNode[n]))
    {
      NodesApart(t, node, n);
      DelOtherRing(m, r, k, NodeRing(n, t.onNode[n]), OnNode(a));
    }
  }

  lemma DelFromJob(m: Links, t: Tables, a: nat, k: nat, onNode: seq<seq<nat>>)
    requires JobListsOk(t) && a in t.allocs && t.allocs[a].job in t.ofJob
    requires NoRepeats(t.ofJob[t.allocs[a].job])
    requires k < |t.ofJob[t.allocs[a].job]| && t.ofJob[t.allocs[a].job][k] == a
    requires AllRings(m, t.ofJob, onNode)
    ensures OnJob(a) in m.prev && OnJob(a) in m.next
    ensures var job := t.allocs[a].job;
      AllRings(ListDel(m, OnJob(a)), t.ofJob[job := Without(t.ofJob[job], a)], onNode)
  {
    var job := t.allocs[a].job;
    var s := t.ofJob[job];
    var r := JobRing(job, s);
    assert r[k + 1] == OnJob(a);
    DelOwnRing(m, job, s, k);
    hide Ring, NodeRing, JobRing, ListDel, Without, NoRepeats, Apart, JobListsOk;
    forall j | j in t.ofJob && j != job
      ensures Ring(ListDel(m, OnJob(a)), JobRing(j, t.ofJob[j]))
    {
      JobsApart(t, job, j);
      DelOtherRing(m, r, k, JobRing(j, t.ofJob[j]), OnJob(a));
    }
    forall n | 0 <= n < |onNode|
      ensures Ring(ListDel(m, OnJob(a)), NodeRing(n, onNode[n]))
    {
      KindsApart(job, s, n, onNode[n]);
      DelOtherRing(m, r, k, NodeRing(n, onNode[n]), OnJob(a));
    }
  }

  lemma EmptyNode(m: Links, ofJob: map<nat, seq<nat>>, onNode: seq<seq<nat>>, node: nat)
    requires AllRings(m, ofJob, onNode) && node < |onNode|
    ensures NodeHead(node) in m.next
    ensures m.next[NodeHead(node)] == if onNode[node] == [] then NodeHead(node) else OnNode(onNode[node][0])
  {
    RingEnds(m, NodeRing(node, onNode[node]));
  }

  /** Both list_del calls of a deallocation, and the emptiness test after them. */
  lemma ReleaseLinks(m: Links, t: Tables, a: nat)
    requires Consistent(t) && a in t.allocs && AllRings(m, t.ofJob, t.onNode)
    ensures OnOwnLists(t, a)
    ensures OnNode(a) in m.prev && OnNode(a) in m.next
    ensures var m1 := ListDel(m, OnNode(a));
      && OnJob(a) in m1.prev && OnJob(a) in m1.next
      && var m2, u, node := ListDel(m1, OnJob(a)), Released(t, a), t.allocs[a].node;
        && AllRings(m2, u.ofJob, u.onNode) && |u.onNode| == |t.onNode|
        && NodeHead(node) in m2.next
        && u.cleaned == (if m2.next[NodeHead(node)] == NodeHead(node) then t.cleaned + [node] else t.cleaned)
        && u.allocs == t.allocs - {a}
  {
    assert OnOwnLists(t, a);
    assert a in t.ofJob[t.allocs[a].job] && a in t.onNode[t.allocs[a].node];
    var node, u := t.allocs[a].node, Released(t, a);
    assert u.cleaned == if u.onNode[node] == [] then t.cleaned + [node] else t.cleaned;
    var k :| 0 <= k < |t.onNode[node]| && t.onNode[node][k] == a;
    var i :| 0 <= i < |t.ofJob[t.allocs[a].job]| && t.ofJob[t.allocs[a].job][i] == a;
    hide Consistent, AllRings, OnOwnLists, Without, ListDel;
    DelFromNode(m, t, a, k);
    var m1 := ListDel(m, OnNode(a));
    DelFromJob(m1, t, a, i, u.onNode);
    EmptyNode(ListDel(m1, OnJob(a)), u.ofJob, u.onNode, node);
  }

  lemma OtherRing(m: Links, r: seq<Link>, head: Link)
    requires Ring(m, r) && head !in r
    ensures Ring(Links(m.next[head := head], m.prev[head := head]), r)
  {
    assert forall i :: 0 <= i < |r| ==> r[i] != head && r[Following(|r|, i)] != head;
  }

  /** A fresh head of its own leaves every other ring alone. */
  lemma AddHead(m: Links, ofJob: map<nat, seq<nat>>, onNode: seq<seq<nat>>, j: nat)
    requires AllRings(m, ofJob, onNode) && j !in ofJob
    ensures var head := JobHead(j);
      AllRings(Links(m.next[head := head], m.prev[head := head]), ofJob[j := []], onNode)
  {
    var head := JobHead(j);
    var now := Links(m.next[head := head], m.prev[head := head]);
    assert JobRing(j, []) == [head];
    forall i | i in ofJob ensures Ring(now, JobRing(i, ofJob[i])) {
      OtherRing(m, JobRing(i, ofJob[i]), head);
    }
    forall n | 0 <= n < |onNode| ensures Ring(now, NodeRing(n, onNode[n])) {
      OtherRing(m, NodeRing(n, onNode[n]), head);
    }
  }

  // ---- the lists in memory ------------------------------------------------------------

  lemma JobAdded(t: Tables, j: nat)
    requires Consistent(t) && j !in t.ofJob
    ensures Consistent(t.(ofJob := t.ofJob[j := []]))
  {
    var u := t.(ofJob := t.ofJob[j := []]);
    forall a | a in u.allocs ensures OnOwnLists(u, a) {
      assert OnOwnLists(t, a);
    }
  }

  lemma EmptyJob(m: Links, ofJob: map<nat, seq<nat>>, onNode: seq<seq<nat>>, j: nat)
    requires AllRings(m, ofJob, onNode) && j in ofJob
    ensures JobHead(j) in m.next
    ensures m.next[JobHead(j)] == if ofJob[j] == [] then JobHead(j) else OnJob(ofJob[j][0])
  {
    RingEnds(m, JobRing(j, ofJob[j]));
  }

  /** Where the walk over a node's jobs goes after its first. */
  lemma SecondOnNode(m: Links, ofJob: map<nat, seq<nat>>, onNode: seq<seq<nat>>, node: nat)
    requires AllRings(m, ofJob, onNode) && node < |onNode| && onNode[node] != []
    ensures OnNode(onNode[node][0]) in m.next
    ensures m.next[OnNode(onNode[node][0])] == if |onNode[node]| == 1 then NodeHead(node) else OnNode(onNode[node][1])
  {
    var r := NodeRing(node, onNode[node]);
    assert r[1] in m.next && m.next[r[1]] == r[Following(|r|, 1)];
  }

  function Removed(t: Tables, j: nat): Tables
    requires Consistent(t) && j in t.ofJob
  {
    var u := Kill(t, j);
    u.(ofJob := u.ofJob - {j})
  }

  lemma JobDropped(u: Tables, j: nat)
    requires Consistent(u) && j in u.ofJob && u.ofJob[j] == []
    ensures Consistent(u.(ofJob := u.ofJob - {j}))
  {
    var v := u.(ofJob := u.ofJob - {j});
    forall a | a in v.allocs ensures OnOwnLists(v, a) {
      assert OnOwnLists(u, a);
    }
  }

  /** No job has the node twice. */
  predicate OncePerJob(t: Tables, node: nat)
    requires node < |t.onNode|
  {
    forall i, k :: 0 <= i < k < |t.onNode[node]| ==>
      var s := t.onNode[node];
      s[i] in t.allocs && s[k] in t.allocs ==> t.allocs[s[i]].job != t.allocs[s[k]].job
  }

  /** On such a node only the first allocation belongs to the first job. */
  lemma OnlyFirstIsOf(t: Tables, node: nat)
    requires NodeListsOk(t) && node < |t.onNode| && OncePerJob(t, node) && t.onNode[node] != []
    requires t.onNode[node][0] in t.allocs
    ensures Others(t.allocs, t.onNode[node], t.allocs[t.onNode[node][0]].job) == t.onNode[node][1..]
  {
    var s := t.onNode[node];
    var j := t.allocs[s[0]].job;
    forall x | x in s[1..] ensures x in t.allocs && t.allocs[x].job != j {
      var i :| 0 <= i < |s[1..]| && s[1..][i] == x;
      assert s[i + 1] == x && x in s;
    }
    OthersOfOthers(t.allocs, s[1..], j);
    assert [] + s[1..] == s[1..];
  }

  lemma StillOnce(t: Tables, node: nat, j: nat)
    requires Consistent(t) && node < |t.onNode| && OncePerJob(t, node) && t.onNode[node] != [] && j in t.ofJob
    requires |Kill(t, j).onNode| == |t.onNode| && Kill(t, j).onNode[node] == t.onNode[node][1..]
    ensures OncePerJob(Kill(t, j), node)
  {
    var s, u := t.onNode[node], Kill(t, j);
    forall i, k | 0 <= i < k < |s[1..]| && s[1..][i] in u.allocs && s[1..][k] in u.allocs
      ensures u.allocs[s[1..][i]].job != u.allocs[s[1..][k]].job
    {
      KillFreesAll(t, j, s[i + 1]);
      KillFreesAll(t, j, s[k + 1]);
    }
  }

  lemma FirstJobRemoved(t: Tables, node: nat)
    requires Consistent(t) && node < |t.onNode| && OncePerJob(t, node) && t.onNode[node] != []
    ensures var a := t.onNode[node][0];
      && a in t.allocs && OnOwnLists(t, a)
      && var r := Removed(t, t.allocs[a].job);
        && Consistent(r) && |r.onNode| == |t.onNode|
        && r.onNode[node] == t.onNode[node][1..]
        && OncePerJob(r, node)
        && r.ofJob.Keys == t.ofJob.Keys - {t.allocs[a].job}
        && (forall i :: i in r.ofJob ==> r.ofJob[i] == t.ofJob[i])
  {
    var s := t.onNode[node];
    var a := s[0];
    assert a in s && OnOwnLists(t, a);
    var j := t.allocs[a].job;
    KillEmptiesJob(t, j);
    JobDropped(Kill(t, j), j);
    KillLeavesOthers(t, j, node);
    OnlyFirstIsOf(t, node);
    hide Consistent, OnOwnLists, Kill;
    assert s == [a] + s[1..];
    StillOnce(t, node, j);
  }

  /** The jobs of a node are removed one by one, first to last. */
  function NodeKilled(t: Tables, node: nat): Tables
    requires Consistent(t) && node < |t.onNode| && OncePerJob(t, node)
    decreases if node < |t.onNode| then |t.onNode[node]| else 0
  {
    if t.onNode[node] == [] then t
    else
      FirstJobRemoved(t, node);
      NodeKilled(Removed(t, t.allocs[t.onNode[node][0]].job), node)
  }

  // ---- what a removal leaves and cleans --------------------------------------------------

  /** All that is left on every list when a job has been removed. */
  lemma RemovedFields(t: Tables, j: nat)
    requires Consistent(t) && j in t.ofJob
    ensures var u, v := Kill(t, j), Removed(t, j);
      v.allocs == u.allocs && v.ofJob == u.ofJob - {j} && v.onNode == u.onNode && v.cleaned == u.cleaned
  {
  }

  lemma RemovedIs(t: Tables, j: nat)
    requires Consistent(t) && j in t.ofJob
    ensures var u := Removed(t, j);
      && Consistent(u) && u.ofJob == t.ofJob - {j} && |u.onNode| == |t.onNode|
      && (forall a :: a in u.allocs <==> a in t.allocs && t.allocs[a].job != j)
      && (forall a :: a in u.allocs ==> u.allocs[a] == t.allocs[a])
      && (forall n :: 0 <= n < |t.onNode| ==> u.onNode[n] == Others(t.allocs, t.onNode[n], j))
  {
    KillEmptiesJob(t, j);
    JobDropped(Kill(t, j), j);
    RemovedFields(t, j);
    assert t.ofJob[j := []] - {j} == t.ofJob - {j};
    assert Consistent(Removed(t, j));
    hide *;
    var u := Removed(t, j);
    forall a ensures (a in u.allocs <==> a in t.allocs && t.allocs[a].job != j)
      && (a in u.allocs ==> u.allocs[a] == t.allocs[a])
    {
      KillFreesAll(t, j, a);
    }
    forall n | 0 <= n < |t.onNode| ensures u.onNode[n] == Others(t.allocs, t.onNode[n], j) {
      KillLeavesOthers(t, j, n);
    }
  }

  /** How often a node has been handed to cleaning. */
  function Cleanings(t: Tables, n: nat): nat { Count(t.cleaned, n) }

  /** Something is on node n, and all of it is job j's. */
  predicate AllOf(t: Tables, n: nat, j: nat)
    requires n < |t.onNode|
  {
    t.onNode[n] != [] && forall a :: a in t.onNode[n] ==> a in t.allocs && t.allocs[a].job == j
  }

  /** Removing a job has cleaned a node once if all that was on it was the job's, and else
      not at all. */
  lemma RemovedCleansOnce(t: Tables, j: nat, n: nat)
    requires Consistent(t) && j in t.ofJob && n < |t.onNode|
    ensures Cleanings(Removed(t, j), n) == Cleanings(t, n) + if AllOf(t, n, j) then 1 else 0
  {
    KillCleansOnce(t, j, n);
    RemovedFields(t, j);
    hide Kill, Removed, Consistent, Count;
  }

  lemma {:induction false} OthersAre(allocs: map<nat, Alloc>, s: seq<nat>, j: nat)
    ensures forall a :: a in Others(allocs, s, j) <==> a in s && !(a in allocs && allocs[a].job == j)
  {
    if s != [] {
      OthersAre(allocs, s[1..], j);
      assert s == [s[0]] + s[1..];
    }
  }

  /** Everything on node n is a job's that is on the node killed, too. */
  ghost predicate GoesWith(t: Tables, node: nat, n: nat)
    requires node < |t.onNode| && n < |t.onNode|
  {
    && t.onNode[n] != []
    && forall a :: a in t.onNode[n] ==> a in t.allocs && JobOn(t, t.allocs[a].job, node)
  }

  lemma JobsOnAfter(t: Tables, node: nat, j: nat)
    requires Consistent(t) && node < |t.onNode| && OncePerJob(t, node) && t.onNode[node] != []
    ensures t.onNode[node][0] in t.allocs && t.allocs[t.onNode[node][0]].job in t.ofJob
    ensures var gone := t.allocs[t.onNode[node][0]].job;
      && |Removed(t, gone).onNode| == |t.onNode|
      && (JobOn(t, j, node) <==> j == gone || JobOn(Removed(t, gone), j, node))
  {
    FirstJobRemoved(t, node);
    assert NodeListsOk(t) && NodeListsOk(Removed(t, t.allocs[t.onNode[node][0]].job));
    var a := t.onNode[node][0];
    var gone := t.allocs[a].job;
    var r := Removed(t, gone);
    hide OnOwnLists, OncePerJob, Kill, Consistent, JobListsOk, NodeListsOk, ListsDistinct;
    assert t.onNode[node] == [a] + r.onNode[node];
    if x :| x in r.onNode[node] && x in t.allocs && t.allocs[x].job == j && j != gone {
      KillFreesAll(t, gone, x);
      assert JobOn(r, j, node);
    }
    if x :| x in r.onNode[node] && x in r.allocs && r.allocs[x].job == j {
      KillFreesAll(t, gone, x);
      assert x in t.onNode[node];
    }
    if j == gone { assert a in t.onNode[node]; }
  }

  lemma OnlyKnown(t: Tables, n: nat)
    requires Consistent(t) && n < |t.onNode|
    ensures forall a :: a in t.onNode[n] ==> a in t.allocs
  {
  }

  lemma GoesWithLeft(t: Tables, r: Tables, node: nat, n: nat, gone: nat)
    requires node < |t.onNode| == |r.onNode| && n < |t.onNode|
    requires forall a :: a in t.onNode[n] ==> a in t.allocs
    requires forall a :: a in r.onNode[n] <==> a in t.onNode[n] && t.allocs[a].job != gone
    requires forall a :: a in r.onNode[n] ==> a in r.allocs && r.allocs[a] == t.allocs[a]
    requires forall j :: JobOn(t, j, node) <==> j == gone || JobOn(r, j, node)
    ensures GoesWith(t, node, n) <==> (GoesWith(r, node, n) || AllOf(t, n, gone))
    ensures GoesWith(r, node, n) ==> !AllOf(t, n, gone)
  {
    hide JobOn;
    if r.onNode[n] == [] {
      forall a | a in t.onNode[n] ensures t.allocs[a].job == gone { assert a !in r.onNode[n]; }
    } else {
      assert r.onNode[n][0] in r.onNode[n];
    }
    if t.onNode[n] != [] { assert t.onNode[n][0] in t.onNode[n]; }
  }

  lemma GoesWithRest(t: Tables, node: nat, n: nat)
    requires Consistent(t) && node < |t.onNode| && OncePerJob(t, node) && t.onNode[node] != [] && n < |t.onNode|
    requires t.onNode[node][0] in t.allocs && t.allocs[t.onNode[node][0]].job in t.ofJob
    ensures var gone := t.allocs[t.onNode[node][0]].job;
      && |Removed(t, gone).onNode| == |t.onNode|
      && (GoesWith(t, node, n) <==> (GoesWith(Removed(t, gone), node, n) || AllOf(t, n, gone)))
      && (GoesWith(Removed(t, gone), node, n) ==> !AllOf(t, n, gone))
  {
    var gone := t.allocs[t.onNode[node][0]].job;
    var r := Removed(t, gone);
    assert NodeListsOk(t) && forall a :: a in t.onNode[n] ==> a in t.allocs;
    hide *;
    RemovedIs(t, gone);
    OthersAre(t.allocs, t.onNode[n], gone);
    OnlyKnown(r, n);
    forall j ensures JobOn(t, j, node) <==> j == gone || JobOn(r, j, node) {
      JobsOnAfter(t, node, j);
    }
    GoesWithLeft(t, r, node, n, gone);
  }

  lemma RemovedCleans(t: Tables, j: nat)
    requires Consistent(t) && j in t.ofJob
    ensures forall n :: 0 <= n < |t.onNode| ==>
      Cleanings(Removed(t, j), n) == Cleanings(t, n) + if AllOf(t, n, j) then 1 else 0
  {
    hide *;
    forall n | 0 <= n < |t.onNode|
      ensures Cleanings(Removed(t, j), n) == Cleanings(t, n) + if AllOf(t, n, j) then 1 else 0
    {
      RemovedCleansOnce(t, j, n);
    }
  }

  lemma NobodyGoes(t: Tables, node: nat, n: nat)
    requires node < |t.onNode| && t.onNode[node] == [] && n < |t.onNode|
    ensures !GoesWith(t, node, n)
  {
    if t.onNode[n] != [] { assert t.onNode[n][0] in t.onNode[n]; }
  }

  /** Killing a node has cleaned each node once on which there were only jobs of the node
      killed, the node itself if it had any, and no other. */
  lemma {:induction false} NodeKilledCleansOnce(t: Tables, node: nat, n: nat)
    requires Consistent(t) && node < |t.onNode| && OncePerJob(t, node) && n < |t.onNode|
    ensures Cleanings(NodeKilled(t, node), n) == Cleanings(t, n) + if GoesWith(t, node, n) then 1 else 0
    decreases if node < |t.onNode| then |t.onNode[node]| else 0
  {
    if t.onNode[node] == [] {
      NobodyGoes(t, node, n);
    } else {
      FirstJobRemoved(t, node);
      var gone := t.allocs[t.onNode[node][0]].job;
      assert gone in t.ofJob && NodeKilled(t, node) == NodeKilled(Removed(t, gone), node);
      hide *;
      RemovedCleansOnce(t, gone, n);
      GoesWithRest(t, node, n);
      NodeKilledCleansOnce(Removed(t, gone), node, n);
    }
  }

  lemma NodeKilledCleans(t: Tables, node: nat)
    requires Consistent(t) && node < |t.onNode| && OncePerJob(t, node)
    ensures forall n :: 0 <= n < |t.onNode| ==>
      Cleanings(NodeKilled(t, node), n) == Cleanings(t, n) + if GoesWith(t, node, n) then 1 else 0
  {
    hide *;
    forall n | 0 <= n < |t.onNode|
      ensures Cleanings(NodeKilled(t, node), n) == Cleanings(t, n) + if GoesWith(t, node, n) then 1 else 0
    {
      NodeKilledCleansOnce(t, node, n);
    }
  }

  /** The node killed is one of those if anything was on it. */
  lemma GoesWithItself(t: Tables, node: nat)
    requires Consistent(t) && node < |t.onNode|
    ensures GoesWith(t, node, node) <==> t.onNode[node] != []
  {
    OnlyKnown(t, node);
    hide Consistent;
  }

  /** What bjs_job_free asserts, as it reads the pointers: the job still has nodes. */
  predicate HasNodes(m: Links, j: nat)
    requires JobHead(j) in m.next
  {
    m.next[JobHead(j)] != JobHead(j)
  }

  lemma HasNodesIff(m: Links, t: Tables, j: nat)
    requires AllRings(m, t.ofJob, t.onNode) && j in t.ofJob
    ensures JobHead(j) in m.next && (HasNodes(m, j) <==> t.ofJob[j] != [])
  {
    EmptyJob(m, t.ofJob, t.onNode, j);
  }

  /** Behind bjs_job_kill, which is where bjs_job_remove frees the job, it never has. */
  lemma KilledHasNoNodes(m: Links, t: Tables, j: nat)
    requires Consistent(t) && j in t.ofJob && AllRings(m, Kill(t, j).ofJob, Kill(t, j).onNode)
    ensures j in Kill(t, j).ofJob && JobHead(j) in m.next && !HasNodes(m, j)
  {
    KillEmptiesJob(t, j);
    HasNodesIff(m, Kill(t, j), j);
  }

  class NodeTable {
    var up: seq<bool>
    var links: Links
    var allocs: map<nat, Alloc>
    var cleaned: seq<nat>
    var nextAlloc: nat
    ghost var ofJob: map<nat, seq<nat>>
    ghost var onNode: seq<seq<nat>>

    ghost function Value(): Tables
      reads this
    {
      Tables(allocs, ofJob, onNode, cleaned)
    }

    ghost predicate Valid()
      reads this
    {
      && Consistent(Value())
      && |onNode| == |up|
      && AllRings(links, ofJob, onNode)
      && forall a :: a in allocs ==> a < nextAlloc
    }

    /** One node table entry per flag, each with an empty list. */
    constructor (up: seq<bool>)
      ensures Valid() && this.up == up
      ensures Value() == Tables(map[], map[], seq(|up|, _ => []), [])
    {
      this.up := up;
      var heads: map<Link, Link> := map n: nat | 0 <= n < |up| :: NodeHead(n) := NodeHead(n);
      links := Links(heads, heads);
      allocs, cleaned, nextAlloc := map[], [], 0;
      ofJob, onNode := map[], seq(|up|, _ => []);
      new;
      forall n | 0 <= n < |onNode| ensures Ring(links, NodeRing(n, onNode[n])) {
        assert NodeRing(n, onNode[n]) == [NodeHead(n)];
      }
    }

    /** A node goes down or comes up: its allocations stay what they are. */
    method NodeStatus(node: nat, isUp: bool)
      requires Valid() && node < |up|
      modifies this`up
      ensures Valid() && up == old(up)[node := isUp] && Value() == old(Value())
    {
      up := up[node := isUp];
    }

    /** A new job: INIT_LIST_HEAD on its list of nodes. */
    method AddJob(j: nat)
      requires Valid() && j !in ofJob
      modifies this
      ensures Valid() && Value() == old(Value()).(ofJob := old(ofJob)[j := []])
      ensures up == old(up)
    {
      AddHead(links, ofJob, onNode, j);
      links := Links(links.next[JobHead(j) := JobHead(j)], links.prev[JobHead(j) := JobHead(j)]);
      ofJob := ofJob[j := []];
      JobAdded(old(Value()), j);
    }

    /** bjs_node_allocate: refused for a node that is out of range or down. */
    method Allocate(job: nat, node: int) returns (done: bool)
      requires Valid() && job in ofJob
      modifies this
      ensures Valid() && up == old(up)
      ensures done <==> 0 <= node < |up| && up[node]
      ensures Value() == if done then Assigned(old(Value()), old(nextAlloc), job, node) else old(Value())
      ensures done ==>
        && old(nextAlloc) !in old(allocs) && allocs == old(allocs)[old(nextAlloc) := Alloc(job, node)]
        && ofJob == old(ofJob)[job := old(ofJob)[job] + [old(nextAlloc)]]
        && onNode == old(onNode)[node := old(onNode)[node] + [old(nextAlloc)]]
    {
      hide Consistent, AllRings;
      if node < 0 || node >= |up| { return false; }
      if !up[node] { return false; }
      var a := nextAlloc;
      nextAlloc := nextAlloc + 1;
      ghost var t := Value();
      AssignedIsConsistent(t, a, job, node);
      AddToNode(links, t, a, node);
      links := ListAddTail(links, OnNode(a), NodeHead(node));
      onNode := onNode[node := onNode[node] + [a]];
      AddToJob(links, t, a, job, onNode);
      links := ListAddTail(links, OnJob(a), JobHead(job));
      ofJob := ofJob[job := ofJob[job] + [a]];
      allocs := allocs[a := Alloc(job, node)];
      done := true;
    }

    /** bjs_node_deallocate: off both lists; clean the node if its list is now empty. */
    method Deallocate(a: nat)
      requires Valid() && a in allocs
      modifies this
      ensures Valid() && Value() == Released(old(Value()), a)
      ensures up == old(up)
    {
      ghost var t := Value();
      hide Consistent, AllRings, ListDel, Released, Without, NoRepeats;
      ReleaseLinks(links, t, a);
      ReleasedIsConsistent(t, a);
      ghost var u := Released(t, a);
      hide OnOwnLists;
      var node := allocs[a].node;
      links := ListDel(links, OnNode(a));
      links := ListDel(links, OnJob(a));
      ofJob, onNode := u.ofJob, u.onNode;
      allocs := allocs - {a};
      if links.next[NodeHead(node)] == NodeHead(node) { cleaned := cleaned + [node]; }
      assert Value() == u;
    }

    /** bjs_job_kill: release the first allocation while there is one. */
    method JobKill(j: nat)
      requires Valid() && j in ofJob
      modifies this
      ensures Valid() && Value() == Kill(old(Value()), j)
      ensures up == old(up)
    {
      EmptyJob(links, ofJob, onNode, j);
      while links.next[JobHead(j)] != JobHead(j)
        invariant up == old(up)
        invariant Valid() && j in ofJob && JobHead(j) in links.next
        invariant links.next[JobHead(j)] == if ofJob[j] == [] then JobHead(j) else OnJob(ofJob[j][0])
        invariant Kill(Value(), j) == Kill(old(Value()), j)
        decreases if j in ofJob then |ofJob[j]| else 0
      {
        FirstRelease(Value(), j);
        hide Consistent, AllRings;
        var n := links.next[JobHead(j)].alloc;
        Deallocate(n);
        EmptyJob(links, ofJob, onNode, j);
      }
    }

    /** bjs_job_remove: kill the job, then drop it. */
    method JobRemove(j: nat)
      requires Valid() && j in ofJob
      modifies this
      ensures Valid() && Value() == Removed(old(Value()), j)
      ensures forall n :: 0 <= n < |old(onNode)| ==>
        Cleanings(Value(), n) == Cleanings(old(Value()), n) + if AllOf(old(Value()), n, j) then 1 else 0
      ensures up == old(up)
    {
      KillEmptiesJob(Value(), j);
      RemovedCleans(Value(), j);
      hide AllOf, Cleanings;
      JobKill(j);
      JobDropped(Value(), j);
      ofJob := ofJob - {j};
    }

    /** bjs_kill_node: remove every job that is on the node, in list order. The next
        link is read before the job is removed, which is sound because no job is
        on the node twice. */
    method KillNode(node: int)
      requires Valid()
      requires 0 <= node < |up| ==> OncePerJob(Value(), node)
      modifies this
      ensures Valid() && up == old(up)
      ensures Value() == if 0 <= node < |up| then NodeKilled(old(Value()), node) else old(Value())
      ensures 0 <= node < |up| ==> forall n :: 0 <= n < |old(onNode)| ==>
        Cleanings(Value(), n) == Cleanings(old(Value()), n) + if GoesWith(old(Value()), node, n) then 1 else 0
    {
      if node < 0 || node >= |up| { return; }
      NodeKilledCleans(Value(), node);
      EmptyNode(links, ofJob, onNode, node);
      var l := links.next[NodeHead(node)];
      while l != NodeHead(node)
        invariant up == old(up)
        invariant Valid() && OncePerJob(Value(), node)
        invariant l == if onNode[node] == [] then NodeHead(node) else OnNode(onNode[node][0])
        invariant NodeKilled(Value(), node) == NodeKilled(old(Value()), node)
        decreases |onNode[node]|
      {
        ghost var t := Value();
        var a := l.alloc;
        assert NodeKilled(t, node) == NodeKilled(Removed(t, t.allocs[onNode[node][0]].job), node) by {
          FirstJobRemoved(t, node);
        }
        hide Consistent, AllRings, OnOwnLists, OncePerJob, Removed, NodeKilled, GoesWith, Cleanings;
        SecondOnNode(links, ofJob, onNode, node);
        FirstJobRemoved(t, node);
        var next := links.next[l];
        JobRemove(allocs[a].job);
        l := next;
      }
    }
  }

  /** After bjs_kill_node the node's list is empty, and exactly the jobs that were on
      it are gone; the others keep all their nodes. */
  lemma {:induction false} NodeKilledIsFree(t: Tables, node: nat, j: nat)
    requires Consistent(t) && node < |t.onNode| && OncePerJob(t, node)
    ensures var u := NodeKilled(t, node);
      && Consistent(u) && |u.onNode| == |t.onNode| && u.onNode[node] == []
      && (j in u.ofJob <==> j in t.ofJob && !JobOn(t, j, node))
      && (j in u.ofJob ==> u.ofJob[j] == t.ofJob[j])
    decreases if node < |t.onNode| then |t.onNode[node]| else 0
  {
    if t.onNode[node] != [] {
      FirstJobRemoved(t, node);
      var gone := t.allocs[t.onNode[node][0]].job;
      var r := Removed(t, gone);
      JobsOnAfter(t, node, j);
      hide Consistent, OnOwnLists, OncePerJob, Removed, JobOn;
      NodeKilledIsFree(r, node, j);
    }
  }

  /** One job on one node: what the assertion asks for holds while it runs and not when it
      is freed. */
  method RunAndKill() returns (table: NodeTable, before: bool, after: bool)
    ensures fresh(table) && table.Valid()
    ensures before && !after
  {
    table := new NodeTable([true]);
    table.AddJob(0);
    var done := table.Allocate(0, 0);
    HasNodesIff(table.links, table.Value(), 0);
    before := table.links.next[JobHead(0)] != JobHead(0);
    ghost var t := table.Value();
    table.JobKill(0);
    KilledHasNoNodes(table.links, t, 0);
    after := table.links.next[JobHead(0)] != JobHead(0);
  }
}
