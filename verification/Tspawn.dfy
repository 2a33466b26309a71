/** tspawn on one node: parse the destination list, start a copy to every leader
    with its clone list, and answer once all the copies are done. */
module Tspawn {
  import opened TreeSpawn
  import opened Basics

  // ---- the node list as text ----------------------------------------------------

  /** The list node_setup sends a leader: every name followed by a comma. */
  function CloneList(names: seq<string>): string {
    if names == [] then "" else names[0] + "," + CloneList(names[1..])
  }

  predicate NodeName(s: string) {
    s != "" && ',' !in s
  }

  /** s cut at every comma. */
  function Split(s: string): (r: seq<string>)
    ensures |r| >= 1
  {
    if s == "" then [""]
    else if s[0] == ',' then [""] + Split(s[1..])
    else
      var r := Split(s[1..]);
      [[s[0]] + r[0]] + r[1..]
  }

  function WithoutTrailingCommas(s: string): string {
    if s != "" && s[|s| - 1] == ',' then WithoutTrailingCommas(s[..|s| - 1]) else s
  }

  lemma {:induction false} SplitName(name: string, rest: string)
    requires ',' !in name
    ensures Split(name + "," + rest) == [name] + Split(rest)
    ensures Split(name) == [name]
  {
    if name == "" {
      assert name + "," + rest == "," + rest;
    } else {
      SplitName(name[1..], rest);
      var text := name + "," + rest;
      assert text[1..] == name[1..] + "," + rest;
      assert ([name[1..]] + Split(rest))[1..] == Split(rest);
      assert [name[0]] + name[1..] == name;
    }
  }

  /** A name list joined by commas, with no comma at the end. */
  function Joined(names: seq<string>): string
    requires names != []
  {
    if |names| == 1 then names[0] else names[0] + "," + Joined(names[1..])
  }

  lemma {:induction false} JoinedList(names: seq<string>)
    requires names != [] && forall n :: n in names ==> NodeName(n)
    ensures CloneList(names) == Joined(names) + ","
    ensures Joined(names) != "" && Joined(names)[|Joined(names)| - 1] != ','
    ensures Split(Joined(names)) == names
  {
    var name := names[0];
    assert NodeName(name);
    if |names| == 1 {
      assert CloneList(names[1..]) == "";
      SplitName(name, "");
      assert name + "," + "" == name + ",";
    } else {
      var rest := Joined(names[1..]);
      JoinedList(names[1..]);
      assert name + "," + (rest + ",") == name + "," + rest + ",";
      SplitName(name, rest);
    }
  }

  /** What a leader receives is the list it was given. */
  lemma CloneListRoundTrip(names: seq<string>)
    requires names != [] && forall n :: n in names ==> NodeName(n)
    ensures Split(WithoutTrailingCommas(CloneList(names))) == names
  {
    JoinedList(names);
    var text := CloneList(names);
    assert text[..|text| - 1] == Joined(names);
  }

  /** However many commas come at the end. */
  lemma {:induction false} TrailingCommasGo(s: string, n: nat)
    requires s == "" || s[|s| - 1] != ','
    ensures WithoutTrailingCommas(s + seq(n, _ => ',')) == s
    decreases n
  {
    var all := s + seq(n, _ => ',');
    if n == 0 {
      assert all == s;
    } else {
      assert all[..|all| - 1] == s + seq(n - 1, _ => ',');
      TrailingCommasGo(s, n - 1);
    }
  }

  /** The names have no comma, and joined by commas they are the text. */
  lemma {:induction false} SplitIs(s: string)
    ensures Joined(Split(s)) == s && forall n :: n in Split(s) ==> ',' !in n
  {
    if s != "" {
      var r := Split(s[1..]);
      SplitIs(s[1..]);
      assert s == [s[0]] + s[1..];
      if s[0] == ',' {
        assert ([""] + r)[1..] == r;
        assert Split(s) == [""] + r && "" + "," + Joined(r) == s;
      } else {
        assert ([[s[0]] + r[0]] + r[1..])[1..] == r[1..];
        if |r| > 1 { assert [s[0]] + r[0] + "," + Joined(r[1..]) == [s[0]] + (r[0] + "," + Joined(r[1..])); }
        assert r[0] in r && forall n :: n in r[1..] ==> n in r;
      }
    }
  }

  method StripCommas(nodelist: string) returns (s: string)
    requires exists k :: 0 <= k < |nodelist| && nodelist[k] != ','
    ensures s == WithoutTrailingCommas(nodelist)
  {
    var len := |nodelist|;
    assert nodelist[..len] == nodelist;
    while nodelist[len - 1] == ','
      invariant 0 < len <= |nodelist|
      invariant exists k :: 0 <= k < len && nodelist[k] != ','
      invariant WithoutTrailingCommas(nodelist[..len]) == WithoutTrailingCommas(nodelist)
      decreases len
    {
      assert nodelist[..len][..len - 1] == nodelist[..len - 1];
      len := len - 1;
    }
    s := nodelist[..len];
  }

  /** The next comma from position from on, or the end. */
  method Find(s: string, from: nat) returns (at: nat)
    requires from <= |s|
    ensures from <= at <= |s| && ',' !in s[from..at] && (at < |s| ==> s[at] == ',')
  {
    at := from;
    while at < |s| && s[at] != ','
      invariant from <= at <= |s| && ',' !in s[from..at]
    {
      at := at + 1;
    }
  }

  /** The name from start up to the comma, or the end. */
  lemma NextName(s: string, start: nat, comma: nat, names: seq<string>)
    requires start <= comma <= |s| && ',' !in s[start..comma] && (comma < |s| ==> s[comma] == ',')
    ensures names + Split(s[start..]) ==
      if comma == |s| then names + [s[start..comma]] else names + [s[start..comma]] + Split(s[comma + 1..])
  {
    var name := s[start..comma];
    hide Split;
    if comma == |s| {
      assert s[start..] == name;
      SplitName(name, "");
    } else {
      assert s[start..] == name + "," + s[comma + 1..];
      SplitName(name, s[comma + 1..]);
      Regroup(names, [name], Split(s[comma + 1..]));
    }
  }

  method CutAtCommas(s: string) returns (names: seq<string>)
    ensures names == Split(s)
  {
    hide Split;
    names := [];
    var start := 0;
    var more := true;
    assert s[0..] == s && [] + Split(s) == Split(s);
    while more
      invariant 0 <= start <= |s|
      invariant if more then names + Split(s[start..]) == Split(s) else names == Split(s)
      decreases more, |s| - start
    {
      var comma := Find(s, start);
      NextName(s, start, comma, names);
      names := names + [s[start..comma]];
      if comma == |s| { more := false; } else { start := comma + 1; }
    }
  }

  /** getnodes: drop the commas at the end, then cut at the others. */
  method GetNodes(nodelist: string) returns (names: seq<string>)
    requires exists k :: 0 <= k < |nodelist| && nodelist[k] != ','
    ensures names == Split(WithoutTrailingCommas(nodelist))
  {
    var s := StripCommas(nodelist);
    names := CutAtCommas(s);
  }

  // ---- counting the copies ---------------------------------------------------------

  /** total copies were started; completions counts calls of tspawn_done. */
  datatype Progress = Progress(total: nat, ndone: nat, async: bool, completions: nat)

  datatype Event = CopyDone | SetupReturns

  function OnEvent(p: Progress, e: Event): Progress {
    match e
    case CopyDone =>
      var q := p.(ndone := p.ndone + 1);
      if q.ndone < q.total || !q.async then q else q.(completions := q.completions + 1)
    case SetupReturns =>
      var q := p.(async := true);
      if q.ndone >= q.total then q.(completions := q.completions + 1) else q
  }

  function OnEvents(p: Progress, es: seq<Event>): Progress {
    if es == [] then p else OnEvent(OnEvents(p, es[..|es| - 1]), es[|es| - 1])
  }

  /** Before the last of the copies and the return of the setup, in whatever order
      they come, nothing is completed; with the last of them it is, once. */
  lemma {:induction false} CompletesOnce(total: nat, es: seq<Event>)
    requires total >= 1
    requires Count(es, CopyDone) <= total && Count(es, SetupReturns) <= 1
    ensures var p := OnEvents(Progress(total, 0, false, 0), es);
      && p.total == total
      && p.ndone == Count(es, CopyDone)
      && (p.async <==> Count(es, SetupReturns) == 1)
      && p.completions == if Count(es, CopyDone) == total && Count(es, SetupReturns) == 1 then 1 else 0
  {
    if es != [] { CompletesOnce(total, es[..|es| - 1]); }
  }

  datatype Slot = Empty | Filled(group: Group)

  lemma SliceOfSlice(s: seq<string>, i: nat, j: nat, a: nat, b: nat)
    requires i <= j <= |s| && a <= b <= j - i
    ensures s[i..j][a..b] == s[i + a..i + b]
  {
    assert |s[i..j][a..b]| == b - a;
    assert forall k :: 0 <= k < b - a ==> s[i..j][a..b][k] == s[i + a + k];
  }

  lemma CutFirst(nds: seq<string>, i: nat, ce: nat, m: nat)
    requires i < ce <= |nds| && m >= 1
    ensures var e := if i + m > ce then ce else i + m;
      Cut(nds[i..ce], m) == [Group(nds[i], nds[i + 1..e])] + Cut(nds[e..ce], m)
  {
    var e := if i + m > ce then ce else i + m;
    var rest := nds[i..ce];
    assert |rest| <= m ==> rest[1..] == nds[i + 1..e];
    if |rest| > m {
      SliceOfSlice(nds, i, ce, 1, m);
      assert rest[m..] == nds[i + m..ce];
    }
    assert nds[ce..ce] == [];
  }

  lemma CutNothing(m: nat)
    requires m >= 1
    ensures Cut([], m) == []
  {
  }

  lemma NextGroup(gs: seq<Group>, idx: nat, g: Group, rest: seq<Group>)
    requires idx <= |gs| && gs[idx..] == [g] + rest
    ensures idx < |gs| && gs[idx] == g && gs[idx + 1..] == rest
  {
    assert gs[idx + 1..] == gs[idx..][1..];
  }

  lemma {:induction false} AllTrue(s: seq<bool>)
    ensures Count(s, true) <= |s|
    ensures Count(s, true) == |s| <==> forall k :: 0 <= k < |s| ==> s[k]
  {
    if s != [] { AllTrue(s[..|s| - 1]); }
  }

  class Spawn {
    var maxsessions: int
    var nnodes: nat
    var nodes: seq<Slot>
    var ndone: nat
    var async: bool
    var completions: nat

    ghost function Value(): Progress
      reads this
    {
      Progress(|nodes|, ndone, async, completions)
    }

    constructor (maxsessions: int)
      ensures Value() == Progress(0, 0, false, 0) && this.maxsessions == maxsessions
    {
      this.maxsessions := maxsessions;
      nnodes, nodes, ndone, async, completions := 0, [], 0, false, 0;
    }

    /** tspawn_done, as far as it is counted. */
    method Done()
      modifies this
      ensures Value() == old(Value()).(completions := old(completions) + 1) && nnodes == 0
      ensures nodes == old(nodes) && maxsessions == old(maxsessions)
    {
      nnodes := 0;
      completions := completions + 1;
    }

    /** node_cb: one copy is done; answer if it was the last and setup is over. */
    method NodeCallback()
      requires nnodes == |nodes|
      modifies this
      ensures Value() == OnEvent(old(Value()), CopyDone)
      ensures nodes == old(nodes) && maxsessions == old(maxsessions)
      ensures nnodes == if completions == old(completions) then |nodes| else 0
    {
      ndone := ndone + 1;
      if ndone < nnodes || !async { return; }
      Done();
    }

    /** How many leaders, how large a group, and where the groups end. */
    static method Shape(ns: nat, maxsessions: int) returns (n: nat, m: nat, ce: nat)
      requires ns > 0
      ensures n == Leaders(ns, maxsessions) && m == GroupSize(ns, maxsessions) && ce == CloningEnd(ns, maxsessions)
    {
      if maxsessions > 0 {
        n := maxsessions;
        if n > ns { n := ns; }
        m := ns / n + if ns % n != 0 then 1 else 0;
      } else {
        n, m := ns, 1;
      }
      GroupArithmetic(ns, maxsessions);
      if maxsessions > 0 { CeilDivIsQuotient(ns, n); }
      if m > 1 { CeilDivIsQuotient(ns - n, m - 1); }
      var cn := if m > 1 then (ns - n) / (m - 1) + (if (ns - n) % (m - 1) != 0 then 1 else 0) else 0;
      ce := ns - n + cn;
    }

    /** The first idx slots are filled, and every copy that was over at once is counted. */
    ghost predicate StateOk(gs: seq<Group>, idx: nat, sync: seq<bool>)
      requires |sync| == |gs|
      reads this
    {
      && idx <= |gs| == |nodes|
      && (forall k :: 0 <= k < |gs| ==> nodes[k] == if k < idx then Filled(gs[k]) else Empty)
      && ndone == Count(sync[..idx], true)
      && !async && completions == 0
    }

    method StartCopy(ghost gs: seq<Group>, idx: nat, g: Group, sync: seq<bool>)
      requires |sync| == |gs| == nnodes && idx < |gs| && g == gs[idx]
      requires StateOk(gs, idx, sync)
      modifies this
      ensures StateOk(gs, idx + 1, sync)
      ensures maxsessions == old(maxsessions) && nnodes == old(nnodes)
    {
      nodes := nodes[idx := Filled(g)];
      assert sync[..idx + 1][..idx] == sync[..idx];
      if sync[idx] { NodeCallback(); }
    }

    /** The first loop: groups of m, each leader with the rest of its group to clone. */
    method StartCloning(ghost gs: seq<Group>, nds: seq<string>, m: nat, ce: nat, sync: seq<bool>) returns (idx: nat)
      requires |sync| == |gs| == nnodes && m >= 1 && ce <= |nds| && StateOk(gs, 0, sync)
      requires gs == Cut(nds[..ce], m) + Singles(nds[ce..])
      modifies this
      ensures idx <= |gs| && StateOk(gs, idx, sync) && gs[idx..] == Singles(nds[ce..])
      ensures maxsessions == old(maxsessions) && nnodes == old(nnodes)
    {
      hide Cut, Singles;
      var i := 0;
      idx := 0;
      while i < ce
        invariant 0 <= i <= ce && 0 <= idx <= |gs| == nnodes && StateOk(gs, idx, sync)
        invariant gs[idx..] == Cut(nds[i..ce], m) + Singles(nds[ce..])
        invariant maxsessions == old(maxsessions) && nnodes == old(nnodes)
      {
        var b, e := i + 1, if i + m > ce then ce else i + m;
        CutFirst(nds, i, ce, m);
        NextGroup(gs, idx, Group(nds[i], nds[b..e]), Cut(nds[e..ce], m) + Singles(nds[ce..]));
        StartCopy(gs, idx, Group(nds[i], nds[b..e]), sync);
        i := e;
        idx := idx + 1;
      }
      assert nds[i..ce] == [];
      assert Cut([], m) == [] by { CutNothing(m); }
      assert [] + Singles(nds[ce..]) == Singles(nds[ce..]);
    }

    /** The second loop: leaders with nothing to clone. */
    method StartSingles(ghost gs: seq<Group>, nds: seq<string>, ce: nat, first: nat, sync: seq<bool>)
      requires |sync| == |gs| == nnodes && ce <= |nds| && first <= |gs| && StateOk(gs, first, sync)
      requires gs[first..] == Singles(nds[ce..])
      modifies this
      ensures StateOk(gs, |gs|, sync)
      ensures maxsessions == old(maxsessions) && nnodes == old(nnodes)
    {
      var i, idx := ce, first;
      while i < |nds|
        invariant ce <= i <= |nds| && 0 <= idx <= |gs| == nnodes && StateOk(gs, idx, sync)
        invariant gs[idx..] == Singles(nds[i..])
        invariant maxsessions == old(maxsessions) && nnodes == old(nnodes)
      {
        assert nds[i..][1..] == nds[i + 1..];
        NextGroup(gs, idx, Group(nds[i], []), Singles(nds[i + 1..]));
        StartCopy(gs, idx, Group(nds[i], []), sync);
        i := i + 1;
        idx := idx + 1;
      }
    }

    /** tspawn. sync[k] says that the k-th copy is over before its start returns. */
    method Run(nds: seq<string>, sync: seq<bool>)
      requires nds != [] && |sync| == Leaders(|nds|, maxsessions)
      requires nodes == [] && ndone == 0 && !async && completions == 0
      modifies this
      ensures var gs := Groups(nds, maxsessions);
        |nodes| == |gs| && forall k :: 0 <= k < |gs| ==> nodes[k] == Filled(gs[k])
      ensures maxsessions == old(maxsessions)
      ensures async && ndone == Count(sync, true)
      ensures completions == if forall k :: 0 <= k < |sync| ==> sync[k] then 1 else 0
      ensures completions == if ndone == |nodes| then 1 else 0
      ensures ndone <= |nodes| && nnodes == if completions == 0 then |nodes| else 0
    {
      var n, m, ce := Shape(|nds|, maxsessions);
      hide Leaders, GroupSize, CloningEnd, Cut, Singles, Members;
      ghost var gs := Groups(nds, maxsessions);
      assert m >= 1 && ce <= |nds| && |gs| == n by {
        GroupArithmetic(|nds|, maxsessions);
        GroupsCoverAll(nds, maxsessions);
      }
      nnodes := n;
      nodes := seq(n, _ => Empty);
      assert gs == Cut(nds[..ce], m) + Singles(nds[ce..]);
      var idx := StartCloning(gs, nds, m, ce, sync);
      StartSingles(gs, nds, ce, idx, sync);
      assert sync[..|gs|] == sync;
      AllTrue(sync);
      async := true;
      if ndone >= nnodes { Done(); }
    }
  }

  /** A whole spawn: the setup, then the callback of each copy that was still open when it
      returned. Nothing is completed while one of them is open; in the end the spawn has
      been completed once, and every slot holds its group. */
  method SpawnAll(nds: seq<string>, maxsessions: int, sync: seq<bool>) returns (t: Spawn)
    requires nds != [] && |sync| == Leaders(|nds|, maxsessions)
    ensures fresh(t) && t.completions == 1 && t.ndone == |t.nodes|
    ensures |t.nodes| == |Groups(nds, maxsessions)|
    ensures forall k :: 0 <= k < |t.nodes| ==> t.nodes[k] == Filled(Groups(nds, maxsessions)[k])
  {
    t := new Spawn(maxsessions);
    t.Run(nds, sync);
    ghost var slots := t.nodes;
    while t.ndone < |t.nodes|
      invariant t.nodes == slots && t.async && t.ndone <= |t.nodes|
      invariant t.completions == if t.ndone == |t.nodes| then 1 else 0
      invariant t.nnodes == if t.completions == 0 then |t.nodes| else 0
      decreases |t.nodes| - t.ndone
    {
      t.NodeCallback();
    }
  }
}
