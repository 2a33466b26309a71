/** Tree spawn: a node list is cut into leaders, each with the nodes it will clone
    itself to, and every leader does the same with its own list. */
module TreeSpawn {
  import opened Basics

  /** Leader is sent the files; it clones its session to clones. */
  datatype Group = Group(leader: string, clones: seq<string>)

  // ---- the arithmetic -----------------------------------------------------------

  /** How many groups of b it takes for a. */
  function CeilDiv(a: nat, b: nat): nat
    requires b > 0
  {
    if a == 0 then 0 else if a <= b then 1 else 1 + CeilDiv(a - b, b)
  }

  lemma {:induction false} CeilDivBounds(a: nat, b: nat)
    requires b > 0
    ensures a <= CeilDiv(a, b) * b < a + b
  {
    if a > b {
      CeilDivBounds(a - b, b);
      assert (1 + CeilDiv(a - b, b)) * b == b + CeilDiv(a - b, b) * b;
    }
  }

  lemma MulMono(x: nat, y: nat, b: nat)
    requires x <= y
    ensures x * b <= y * b
  {
  }

  /** Comparing with a ceiling quotient. */
  lemma CeilDivAtMost(a: nat, b: nat, q: nat)
    requires b > 0
    ensures CeilDiv(a, b) <= q <==> a <= q * b
  {
    CeilDivBounds(a, b);
    hide CeilDiv;
    var c := CeilDiv(a, b);
    if c <= q {
      MulMono(c, q, b);
    } else {
      MulMono(q + 1, c, b);
      assert (q + 1) * b == q * b + b;
    }
  }

  /** The source writes it with a quotient and a remainder. */
  lemma CeilDivIsQuotient(a: nat, b: nat)
    requires b > 0
    ensures CeilDiv(a, b) == a / b + if a % b != 0 then 1 else 0
  {
    hide CeilDiv;
    var q := a / b + if a % b != 0 then 1 else 0;
    assert a == a / b * b + a % b;
    assert q * b == a / b * b + if a % b != 0 then b else 0;
    CeilDivAtMost(a, b, q);
    if q > 0 {
      assert (q - 1) * b == q * b - b;
      CeilDivAtMost(a, b, q - 1);
    }
  }

  /** Leaders for ns nodes under the cap: all of them when there is no cap. */
  function Leaders(ns: nat, cap: int): nat {
    if cap > 0 then (if cap > ns then ns else cap) else ns
  }

  /** The size of a full group, leader included. */
  function GroupSize(ns: nat, cap: int): nat
    requires ns > 0
  {
    if cap > 0 then CeilDiv(ns, Leaders(ns, cap)) else 1
  }

  /** Leaders that get clones at all. */
  function CloningLeaders(ns: nat, cap: int): nat
    requires ns > 0
  {
    var n, m := Leaders(ns, cap), GroupSize(ns, cap);
    if m > 1 then CeilDiv(ns - n, m - 1) else 0
  }

  /** Where the groups with clones end: the nodes that are clones, plus their leaders. */
  function CloningEnd(ns: nat, cap: int): nat
    requires ns > 0
  {
    ns - Leaders(ns, cap) + CloningLeaders(ns, cap)
  }

  lemma GroupSizeBounds(ns: nat, n: nat)
    requires 1 <= n <= ns
    ensures var m := CeilDiv(ns, n); m >= 1 && (m - 1) * n < ns <= n * m && (m == 1 ==> ns == n)
  {
    var m := CeilDiv(ns, n);
    CeilDivBounds(ns, n);
    assert m * n == n * m && (m - 1) * n == m * n - n;
    CeilDivAtMost(ns, n, 0);
  }

  lemma MulGrows(a: nat, b: nat)
    requires a >= 1 && b >= 1
    ensures a * b >= a + b - 1
  {
    assert (a - 1) * (b - 1) >= 0;
  }

  /** At least m - 1 nodes are left to be clones, so the first group is full. */
  lemma FullFirstGroup(ns: nat, n: nat, m: nat)
    requires 1 <= n <= ns && m > 1 && (m - 1) * n < ns
    ensures ns - n >= m - 1
  {
    MulGrows(m - 1, n);
  }

  lemma Distribute(x: int, y: int)
    ensures x * (y - 1) == x * y - x && (x - 1) * y == x * y - y
  {
  }

  lemma CloningArithmetic(ns: nat, n: nat, m: nat)
    requires 1 <= n <= ns <= n * m && m > 1 && (m - 1) * n < ns
    ensures var cn := CeilDiv(ns - n, m - 1);
      && 1 <= cn <= n
      && (cn - 1) * m < ns - n + cn <= cn * m
      && m <= ns - n + cn
  {
    hide CeilDiv;
    var cn := CeilDiv(ns - n, m - 1);
    CeilDivBounds(ns - n, m - 1);
    Distribute(cn, m);
    Distribute(n, m);
    CeilDivAtMost(ns - n, m - 1, n);
    FullFirstGroup(ns, n, m);
    CeilDivAtMost(ns - n, m - 1, 0);
  }

  /** The groups before CloningEnd are full but for the last one, they are exactly
      CloningLeaders many, and CloningEnd never exceeds the node list. */
  lemma GroupArithmetic(ns: nat, cap: int)
    requires ns > 0
    ensures var n, m, cn, ce := Leaders(ns, cap), GroupSize(ns, cap), CloningLeaders(ns, cap), CloningEnd(ns, cap);
      && 1 <= n <= ns && m >= 1 && cn <= n && ce <= ns
      && ns <= n * m
      && ce <= cn * m
      && (cn > 0 ==> (cn - 1) * m < ce)
      && (m > 1 ==> m <= ce)
      && (m == 1 ==> ns == n)
  {
    var n, m := Leaders(ns, cap), GroupSize(ns, cap);
    if cap > 0 {
      GroupSizeBounds(ns, n);
    }
    if m > 1 {
      CloningArithmetic(ns, n, m);
    }
  }

  // ---- the groups -----------------------------------------------------------------

  /** Consecutive groups of m, the last one maybe shorter. */
  function Cut(s: seq<string>, m: nat): seq<Group>
    requires m >= 1
  {
    if s == [] then []
    else if |s| <= m then [Group(s[0], s[1..])]
    else [Group(s[0], s[1..m])] + Cut(s[m..], m)
  }

  function Singles(s: seq<string>): seq<Group> {
    if s == [] then [] else [Group(s[0], [])] + Singles(s[1..])
  }

  function Groups(nds: seq<string>, cap: int): seq<Group>
    requires nds != []
  {
    GroupArithmetic(|nds|, cap);
    var ce := CloningEnd(|nds|, cap);
    Cut(nds[..ce], GroupSize(|nds|, cap)) + Singles(nds[ce..])
  }

  /** The nodes the groups speak of, in order. */
  function Members(gs: seq<Group>): seq<string> {
    if gs == [] then [] else [gs[0].leader] + gs[0].clones + Members(gs[1..])
  }

  lemma {:induction false} MembersConcat(a: seq<Group>, b: seq<Group>)
    ensures Members(a + b) == Members(a) + Members(b)
  {
    if a == [] {
      assert a + b == b && [] + Members(b) == Members(b);
    } else {
      var x, first := a + b, [a[0].leader] + a[0].clones;
      assert x[0] == a[0] && x[1..] == a[1..] + b;
      assert Members(x) == first + Members(x[1..]) && Members(a) == first + Members(a[1..]);
      hide Members;
      MembersConcat(a[1..], b);
      Regroup(first, Members(a[1..]), Members(b));
    }
  }

  lemma OneGroup(leader: string, clones: seq<string>)
    ensures Members([Group(leader, clones)]) == [leader] + clones
  {
    assert [Group(leader, clones)][1..] == [];
  }

  lemma {:induction false} CutLosesNothing(s: seq<string>, m: nat)
    requires m >= 1
    ensures Members(Cut(s, m)) == s
    decreases |s|
  {
    if s != [] && |s| > m {
      var first, rest := [Group(s[0], s[1..m])], Cut(s[m..], m);
      assert Cut(s, m) == first + rest;
      CutLosesNothing(s[m..], m);
      hide Cut;
      MembersConcat(first, rest);
      OneGroup(s[0], s[1..m]);
      assert [s[0]] + s[1..m] + s[m..] == s;
    } else if s != [] {
      OneGroup(s[0], s[1..]);
      assert [s[0]] + s[1..] == s;
    }
  }

  lemma {:induction false} CutSizes(s: seq<string>, m: nat)
    requires m >= 1
    ensures forall g :: g in Cut(s, m) ==> |g.clones| <= m - 1
    ensures |Cut(s, m)| == CeilDiv(|s|, m)
    ensures |s| >= m ==> |Cut(s, m)[0].clones| == m - 1
    decreases |s|
  {
    if s != [] && |s| > m {
      CutSizes(s[m..], m);
    }
  }

  lemma {:induction false} SinglesCoverAll(s: seq<string>)
    ensures Members(Singles(s)) == s && |Singles(s)| == |s|
    ensures forall g :: g in Singles(s) ==> g.clones == []
  {
    if s != [] {
      SinglesCoverAll(s[1..]);
      assert [s[0]] + [] + s[1..] == s;
    }
  }

  lemma CloningGroups(ns: nat, cap: int)
    requires ns > 0
    ensures CeilDiv(CloningEnd(ns, cap), GroupSize(ns, cap)) == CloningLeaders(ns, cap)
  {
    GroupArithmetic(ns, cap);
    var m, cn, ce := GroupSize(ns, cap), CloningLeaders(ns, cap), CloningEnd(ns, cap);
    hide CloningEnd, GroupSize, CloningLeaders, CeilDiv, Leaders;
    CeilDivAtMost(ce, m, cn);
    if cn > 0 { CeilDivAtMost(ce, m, cn - 1); }
  }

  lemma JoinedGroups(a: seq<Group>, b: seq<Group>)
    ensures forall g :: g in a + b ==> g in a || g in b
    ensures a != [] ==> (a + b)[0] == a[0]
    ensures a == [] && b != [] ==> (a + b)[0] == b[0] && b[0] in b
  {
  }

  lemma GroupsAre(nds: seq<string>, cap: int)
    requires nds != []
    ensures var ce, m := CloningEnd(|nds|, cap), GroupSize(|nds|, cap);
      && ce <= |nds| && m >= 1 && Groups(nds, cap) == Cut(nds[..ce], m) + Singles(nds[ce..])
      && (m > 1 ==> m <= ce) && (m == 1 ==> ce == 0 && |nds| == Leaders(|nds|, cap))
      && |nds| - ce + CloningLeaders(|nds|, cap) == Leaders(|nds|, cap)
  {
    GroupArithmetic(|nds|, cap);
  }

  lemma MembersOfParts(gs: seq<Group>, a: seq<Group>, b: seq<Group>, x: seq<string>, y: seq<string>)
    requires gs == a + b && Members(a) == x && Members(b) == y
    ensures Members(gs) == x + y
  {
    hide Members;
    MembersConcat(a, b);
  }

  lemma TwoParts(nds: seq<string>, k: nat)
    requires k <= |nds|
    ensures nds[..k] + nds[k..] == nds
  {
  }

  lemma GroupsLoseNothing(nds: seq<string>, cap: int)
    requires nds != []
    ensures Members(Groups(nds, cap)) == nds
  {
    var m, ce := GroupSize(|nds|, cap), CloningEnd(|nds|, cap);
    hide *;
    GroupsAre(nds, cap);
    CutLosesNothing(nds[..ce], m);
    SinglesCoverAll(nds[ce..]);
    MembersOfParts(Groups(nds, cap), Cut(nds[..ce], m), Singles(nds[ce..]), nds[..ce], nds[ce..]);
    TwoParts(nds, ce);
  }

  lemma GroupSizes(nds: seq<string>, cap: int)
    requires nds != []
    ensures var gs := Groups(nds, cap);
      && |gs| == Leaders(|nds|, cap) && gs != []
      && (forall g :: g in gs ==> |g.clones| + 1 <= GroupSize(|nds|, cap))
      && |gs[0].clones| + 1 == GroupSize(|nds|, cap)
  {
    var m, ce := GroupSize(|nds|, cap), CloningEnd(|nds|, cap);
    hide *;
    GroupsAre(nds, cap);
    var cloning, single := nds[..ce], nds[ce..];
    CutSizes(cloning, m);
    SinglesCoverAll(single);
    CloningGroups(|nds|, cap);
    JoinedGroups(Cut(cloning, m), Singles(single));
  }

  /** The groups take every node once, in order; there are exactly Leaders of them;
      none is larger than ceil(ns / leaders), and the first one is that large. */
  lemma {:induction false} CutIsFull(s: seq<string>, m: nat, i: nat)
    requires m >= 1 && i + 1 < |Cut(s, m)|
    ensures |Cut(s, m)[i].clones| == m - 1
    decreases |s|
  {
    if i > 0 { CutIsFull(s[m..], m, i - 1); }
  }

  lemma CloningInFront(a: seq<Group>, b: seq<Group>, k: nat)
    requires k < |a + b| && (a + b)[k].clones != [] && forall g :: g in b ==> g.clones == []
    ensures k < |a|
  {
    assert forall i :: |a| <= i < |a + b| ==> (a + b)[i] == b[i - |a|] && b[i - |a|] in b;
  }

  /** Only the last group that has clones at all may have fewer than the first. */
  lemma GroupsAreFull(nds: seq<string>, cap: int, i: nat, k: nat)
    requires nds != [] && i < k < |Groups(nds, cap)| && Groups(nds, cap)[k].clones != []
    ensures |Groups(nds, cap)[i].clones| + 1 == GroupSize(|nds|, cap)
  {
    var m, ce := GroupSize(|nds|, cap), CloningEnd(|nds|, cap);
    var gs := Groups(nds, cap);
    hide *;
    GroupsAre(nds, cap);
    SinglesCoverAll(nds[ce..]);
    CloningInFront(Cut(nds[..ce], m), Singles(nds[ce..]), k);
    CutIsFull(nds[..ce], m, i);
  }

  /** The size of a full group in multiplications. */
  lemma GroupSizeIs(ns: nat, cap: int)
    requires ns > 0
    ensures var n, m := if cap > 0 then (if cap < ns then cap else ns) else ns, GroupSize(ns, cap);
      n == Leaders(ns, cap) && (m - 1) * n < ns <= m * n
  {
    var n, m := Leaders(ns, cap), GroupSize(ns, cap);
    if cap > 0 {
      GroupSizeBounds(ns, n);
      assert n * m == m * n;
    }
  }

  /** The groups take every node once, in order. There are as many as the cap allows, or as
      there are nodes if there is no cap or they are fewer. The first one is the least size
      with which that many groups hold all the nodes; none is larger; and of those with
      clones only the last may be smaller. */
  lemma GroupsCoverAll(nds: seq<string>, cap: int)
    requires nds != []
    ensures var gs := Groups(nds, cap);
      && Members(gs) == nds
      && |gs| == (if cap > 0 then (if cap < |nds| then cap else |nds|) else |nds|)
      && |gs[0].clones| * |gs| < |nds| <= (|gs[0].clones| + 1) * |gs|
      && (forall g :: g in gs ==> |g.clones| <= |gs[0].clones|)
      && (forall i, k :: 0 <= i < k < |gs| && gs[k].clones != [] ==> |gs[i].clones| == |gs[0].clones|)
  {
    hide *;
    GroupsLoseNothing(nds, cap);
    GroupSizes(nds, cap);
    GroupSizeIs(|nds|, cap);
    var gs := Groups(nds, cap);
    forall i, k | 0 <= i < k < |gs| && gs[k].clones != [] ensures |gs[i].clones| == |gs[0].clones| {
      GroupsAreFull(nds, cap, i, k);
    }
  }

  // ---- the whole tree ----------------------------------------------------------------

  lemma ClonesAreFewer(nds: seq<string>, cap: int)
    requires nds != []
    ensures forall g :: g in Groups(nds, cap) ==> |g.clones| < |nds|
  {
    GroupSizes(nds, cap);
    GroupArithmetic(|nds|, cap);
    var n, m := Leaders(|nds|, cap), GroupSize(|nds|, cap);
    if cap > 0 {
      CeilDivAtMost(|nds|, n, |nds|);
      MulMono(1, n, |nds|);
      assert |nds| * n == n * |nds|;
    }
  }

  function ReachedBy(gs: seq<Group>, cap: int, bound: nat): seq<string>
    requires forall g :: g in gs ==> |g.clones| < bound
    decreases bound, 0, |gs|
  {
    if gs == [] then []
    else [gs[0].leader] + Reached(gs[0].clones, cap) + ReachedBy(gs[1..], cap, bound)
  }

  /** Every node in the order the tree reaches it: each leader, then whatever the
      leader's own spawn of its clone list reaches. */
  function Reached(nds: seq<string>, cap: int): seq<string>
    decreases |nds|, 1, 0
  {
    if nds == [] then []
    else
      ClonesAreFewer(nds, cap);
      ReachedBy(Groups(nds, cap), cap, |nds|)
  }

  lemma {:induction false} GroupsReachAll(gs: seq<Group>, cap: int, bound: nat)
    requires forall g :: g in gs ==> |g.clones| < bound
    ensures ReachedBy(gs, cap, bound) == Members(gs)
    decreases bound, 0, |gs|
  {
    if gs != [] {
      TreeReachesAll(gs[0].clones, cap);
      GroupsReachAll(gs[1..], cap, bound);
    }
  }

  /** The recursion ends and reaches each listed node exactly once. */
  lemma {:induction false} TreeReachesAll(nds: seq<string>, cap: int)
    ensures Reached(nds, cap) == nds
    decreases |nds|, 1, 0
  {
    if nds != [] {
      ClonesAreFewer(nds, cap);
      GroupsCoverAll(nds, cap);
      GroupsReachAll(Groups(nds, cap), cap, |nds|);
    }
  }

  // ---- how deep the tree is -------------------------------------------------------------

  function Max(a: nat, b: nat): nat { if a < b then b else a }

  function LevelsBelow(gs: seq<Group>, cap: int, bound: nat): nat
    requires forall g :: g in gs ==> |g.clones| < bound
    decreases bound, 0, |gs|
  {
    if gs == [] then 0
    else Max(Levels(gs[0].clones, cap), LevelsBelow(gs[1..], cap, bound))
  }

  /** Hops from the caller to the farthest node. */
  function Levels(nds: seq<string>, cap: int): nat
    decreases |nds|, 1, 0
  {
    if nds == [] then 0
    else
      ClonesAreFewer(nds, cap);
      1 + LevelsBelow(Groups(nds, cap), cap, |nds|)
  }

  /** c + c^2 + ... + c^d, the nodes d levels can reach. */
  function Capacity(c: nat, d: nat): nat {
    if d == 0 then 0 else c * (1 + Capacity(c, d - 1))
  }

  /** The largest group has at most 1 + below members exactly when c such groups can take
      all the nodes. */
  lemma LargestGroup(ns: nat, c: nat, below: nat)
    requires c >= 1 && ns > 0
    ensures GroupSize(ns, c) <= 1 + below <==> ns <= c * (1 + below)
  {
    hide CeilDiv;
    var q := 1 + below;
    assert q * c == c * q;
    if c <= ns {
      CeilDivAtMost(ns, c, q);
    } else {
      CeilDivAtMost(ns, ns, 1);
      CeilDivAtMost(ns, ns, 0);
      MulMono(1, q, c);
    }
  }

  lemma LevelsAre(nds: seq<string>, c: nat)
    ensures nds == [] ==> Levels(nds, c) == 0
    ensures nds != [] ==> (forall g :: g in Groups(nds, c) ==> |g.clones| < |nds|)
    ensures nds != [] ==> Levels(nds, c) == 1 + LevelsBelow(Groups(nds, c), c, |nds|)
  {
    hide Groups, LevelsBelow;
    if nds != [] { ClonesAreFewer(nds, c); }
  }

  lemma CapacityIs(c: nat, d: nat)
    ensures Capacity(c, d) == if d == 0 then 0 else c * (1 + Capacity(c, d - 1))
  {
  }

  /** d levels are enough exactly for the node lists of at most c + ... + c^d. */
  lemma {:induction false} LevelsNeeded(nds: seq<string>, c: nat, d: nat)
    requires c >= 1
    ensures Levels(nds, c) <= d <==> |nds| <= Capacity(c, d)
    decreases |nds|, 1, 0
  {
    hide *;
    LevelsAre(nds, c);
    CapacityIs(c, d);
    if nds != [] && d > 0 {
      GroupSizes(nds, c);
      LevelsBelowNeeded(Groups(nds, c), c, d - 1, |nds|, 0);
      LargestGroup(|nds|, c, Capacity(c, d - 1));
    }
  }

  lemma {:induction false} LevelsBelowBounded(gs: seq<Group>, c: nat, d: nat, bound: nat, most: nat)
    requires c >= 1
    requires forall g :: g in gs ==> |g.clones| < bound && |g.clones| <= most
    ensures most <= Capacity(c, d) ==> LevelsBelow(gs, c, bound) <= d
    decreases bound, 0, |gs|
  {
    if gs != [] {
      LevelsNeeded(gs[0].clones, c, d);
      LevelsBelowBounded(gs[1..], c, d, bound, most);
    }
  }

  /** Largest is a group none of the others outgrows. */
  lemma {:induction false} LevelsBelowNeeded(gs: seq<Group>, c: nat, d: nat, bound: nat, largest: nat)
    requires c >= 1 && largest < |gs|
    requires forall g :: g in gs ==> |g.clones| < bound && |g.clones| <= |gs[largest].clones|
    ensures LevelsBelow(gs, c, bound) <= d <==> |gs[largest].clones| <= Capacity(c, d)
    decreases bound, 0, |gs|
  {
    LevelsNeeded(gs[0].clones, c, d);
    if largest > 0 {
      assert gs[1..][largest - 1] == gs[largest];
      LevelsBelowNeeded(gs[1..], c, d, bound, largest - 1);
    } else if |gs| > 1 {
      assert forall g :: g in gs[1..] ==> g in gs;
      LevelsBelowBounded(gs[1..], c, d, bound, |gs[0].clones|);
    }
  }

  /** The cap xrx chooses when none is given, from the integer square root r. */
  function ChosenCap(len: nat, r: nat): nat {
    if r * r < len then r + 1 else r
  }

  /** It is the ceiling of the square root, and with it two levels always suffice. */
  lemma ChosenCapNeedsTwoLevels(nds: seq<string>, r: nat)
    requires r * r <= |nds| < (r + 1) * (r + 1)
    ensures Levels(nds, ChosenCap(|nds|, r)) <= 2
    ensures var c := ChosenCap(|nds|, r); |nds| <= c * c && forall d: nat :: d < c ==> d * d < |nds|
  {
    var c := ChosenCap(|nds|, r);
    assert |nds| <= c * c;
    forall d: nat | d < c ensures d * d < |nds| {
      MulMono(d, c - 1, d);
      MulMono(d, c - 1, c - 1);
    }
    if nds != [] {
      assert Capacity(c, 1) == c * (1 + Capacity(c, 0)) == c;
      assert Capacity(c, 2) == c * (1 + c);
      assert c * (1 + c) == c + c * c;
      LevelsNeeded(nds, c, 2);
    }
  }
}
