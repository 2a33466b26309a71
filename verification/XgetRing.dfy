/** The workers of one xget file: a doubly linked list scanned as a ring from a cursor
    to choose the server a client is sent to. */
module XgetRing {
  import opened Basics
  const MAXLEVELS: nat := 4

  // ---- the choice ------------------------------------------------------------------

  /** What the scan sees of a worker: its level, and its server's connections. */
  datatype View = View(level: nat, conns: Option<nat>)

  predicate Open(v: View, most: nat) { v.conns.Some? && v.conns.value < most }

  /** One turn of the scan: t is the choice among the first i, vs[i] is looked at. */
  function Turn(vs: seq<View>, t: Option<nat>, i: nat, level: nat, most: nat): Option<nat>
    requires i < |vs| && (t.Some? ==> t.value < |vs| && vs[t.value].conns.Some?)
  {
    if vs[i].conns.None? then t
    else if t.None? then if vs[i].conns.value < most then Some(i) else None
    else if vs[t.value].conns.value > vs[i].conns.value && vs[i].level == level then Some(i)
    else if vs[t.value].level != level && vs[t.value].conns.value > vs[i].conns.value then Some(i)
    else t
  }

  function Choice(vs: seq<View>, n: nat, level: nat, most: nat): (t: Option<nat>)
    requires n <= |vs|
    ensures t.Some? ==> t.value < n && Open(vs[t.value], most)
  {
    if n == 0 then None else Turn(vs, Choice(vs, n - 1, level, most), n - 1, level, most)
  }

  /** An open worker of the wanted level that beats every open worker of another level
      scanned before it. */
  ghost predicate Leads(vs: seq<View>, i: nat, level: nat, most: nat) {
    && i < |vs| && Open(vs[i], most) && vs[i].level == level
    && forall j :: 0 <= j < i && Open(vs[j], most) && vs[j].level != level ==> vs[j].conns.value > vs[i].conns.value
  }

  /** A worker is chosen exactly if one is open; none of the wanted level has fewer
      connections; and it is of the wanted level exactly if some worker leads. */
  lemma {:induction false} ChoiceIsRight(vs: seq<View>, n: nat, level: nat, most: nat)
    requires n <= |vs|
    ensures var t := Choice(vs, n, level, most);
      && (t.Some? <==> exists i: nat :: i < n && Open(vs[i], most))
      && (t.Some? ==> forall i :: 0 <= i < n && vs[i].conns.Some?
                                  && (vs[i].level == level || vs[t.value].level != level)
                        ==> vs[t.value].conns.value <= vs[i].conns.value)
      && (t.Some? ==> (vs[t.value].level == level <==> exists i: nat :: i < n && Leads(vs, i, level, most)))
  {
    if n > 0 {
      ChoiceIsRight(vs, n - 1, level, most);
      var s := Choice(vs, n - 1, level, most);
      var t := Choice(vs, n, level, most);
      if t.Some? && t != s && vs[n - 1].level == level && (s.None? || vs[s.value].level != level) {
        assert Leads(vs, n - 1, level, most);
      }
    }
  }

  /** Of those it is measured against the choice is the first with so few connections: all
      scanned before it have more. With ChoiceIsRight this leaves only one choice. */
  lemma {:induction false} ChoiceIsFirst(vs: seq<View>, n: nat, level: nat, most: nat)
    requires n <= |vs|
    ensures var t := Choice(vs, n, level, most);
      t.Some? ==> forall i :: 0 <= i < t.value && vs[i].conns.Some?
                                && (vs[i].level == level || vs[t.value].level != level)
                    ==> vs[i].conns.value > vs[t.value].conns.value
  {
    if n > 0 {
      ChoiceIsFirst(vs, n - 1, level, most);
      ChoiceIsRight(vs, n - 1, level, most);
    }
  }

  /** The wanted level is not preferred as such: with two idle workers the one scanned
      first is chosen although the other is of the wanted level. */
  lemma WantedLevelCanLose()
    ensures var vs := [View(2, Some(0)), View(1, Some(0))];
      Choice(vs, 2, 1, 10) == Some(0) && Open(vs[1], 10) && vs[1].level == 1 && vs[0].level != 1
  {
    var vs := [View(2, Some(0)), View(1, Some(0))];
    assert Choice(vs, 0, 1, 10) == None;
    assert Choice(vs, 1, 1, 10) == Some(0);
  }

  // ---- the ring --------------------------------------------------------------------

  /** A worker: its level in the tree of copies, and the address its server has, unless
      that server is gone. */
  datatype Worker = Worker(level: nat, server: Option<nat>)

  function Place(n: nat, k: nat, i: nat): (at: nat)
    requires k < n && i < n
    ensures at < n && (at == k + i || at + n == k + i)
  {
    if k + i < n then k + i else k + i - n
  }

  /** The ring as seen from position k. */
  function From<T>(ws: seq<T>, k: nat): (o: seq<T>)
    requires k < |ws|
    ensures |o| == |ws|
  {
    ws[k..] + ws[..k]
  }

  /** A choice among the first in scanning order, as a position in the list. */
  function Located(n: nat, k: nat, c: Option<nat>): Option<nat>
    requires k < n && (c.Some? ==> c.value < n)
  {
    if c.Some? then Some(Place(n, k, c.value)) else None
  }

  /** Every position comes once, from any starting point. */
  lemma PlacesAreAll(n: nat, k: nat, at: nat)
    requires k < n && at < n
    ensures exists i: nat :: i < n && Place(n, k, i) == at && forall j: nat :: j < n && Place(n, k, j) == at ==> i == j
  {
    var i := if at < k then at + n - k else at - k;
    assert Place(n, k, i) == at;
  }

  function ViewOf(w: Worker, conns: map<nat, nat>): View {
    View(w.level, if w.server.Some? && w.server.value in conns then Some(conns[w.server.value]) else None)
  }

  function Views(ws: seq<Worker>, conns: map<nat, nat>): (vs: seq<View>)
    ensures |vs| == |ws|
  {
    if ws == [] then [] else Views(ws[..|ws| - 1], conns) + [ViewOf(ws[|ws| - 1], conns)]
  }

  lemma {:induction false} ViewsAt(ws: seq<Worker>, conns: map<nat, nat>, i: nat)
    requires i < |ws|
    ensures Views(ws, conns)[i] == ViewOf(ws[i], conns)
  {
    if i < |ws| - 1 { ViewsAt(ws[..|ws| - 1], conns, i); }
  }

  lemma SeenAt(ws: seq<Worker>, conns: map<nat, nat>, k: nat, i: nat)
    requires k < |ws| && i < |ws|
    ensures From(Views(ws, conns), k)[i] == ViewOf(ws[Place(|ws|, k, i)], conns)
  {
    ViewsAt(ws, conns, Place(|ws|, k, i));
  }

  /** The position redir_read chooses with the cursor at k. */
  function Pick(ws: seq<Worker>, conns: map<nat, nat>, k: nat, level: nat, most: nat): (p: Option<nat>)
    requires k < |ws|
    ensures p.Some? ==> p.value < |ws|
  {
    Located(|ws|, k, Choice(From(Views(ws, conns), k), |ws|, level, most))
  }

  /** From any cursor: some worker is chosen exactly if one has a server with room, the
      choice has room, and no worker of the wanted level has fewer connections. */
  lemma PickIsRight(ws: seq<Worker>, conns: map<nat, nat>, k: nat, level: nat, most: nat)
    requires k < |ws|
    ensures var p := Pick(ws, conns, k, level, most);
      && (p.Some? <==> exists at: nat :: at < |ws| && Open(ViewOf(ws[at], conns), most))
      && (p.Some? ==> p.value < |ws| && Open(ViewOf(ws[p.value], conns), most))
      && (p.Some? ==> forall at: nat :: at < |ws| && ws[at].level == level && ViewOf(ws[at], conns).conns.Some? ==>
            ViewOf(ws[p.value], conns).conns.value <= ViewOf(ws[at], conns).conns.value)
  {
    var o := From(Views(ws, conns), k);
    var c := Choice(o, |ws|, level, most);
    ChoiceIsRight(o, |ws|, level, most);
    if c.Some? { SeenAt(ws, conns, k, c.value); }
    forall at: nat | at < |ws| ensures exists i: nat :: i < |ws| && o[i] == ViewOf(ws[at], conns) {
      PlacesAreAll(|ws|, k, at);
      var i: nat :| i < |ws| && Place(|ws|, k, i) == at;
      SeenAt(ws, conns, k, i);
    }
    hide Views, From, Choice;
    forall i: nat | i < |ws| && c.None? ensures !Open(ViewOf(ws[Place(|ws|, k, i)], conns), most) {
      SeenAt(ws, conns, k, i);
    }
  }

  /** The first worker serving from address a, or the length. */
  function FirstServing(ws: seq<Worker>, a: nat): (k: nat)
    ensures k <= |ws| && (k < |ws| ==> ws[k].server == Some(a))
    ensures forall j :: 0 <= j < k ==> ws[j].server != Some(a)
  {
    if ws == [] || ws[0].server == Some(a) then 0
    else
      var k := FirstServing(ws[1..], a);
      assert forall j :: 1 <= j < k + 1 ==> ws[j] == ws[1..][j - 1];
      1 + k
  }

  /** The first of the levels a client was sent to least often. */
  predicate IsWanted(levels: seq<nat>, dl: nat) {
    && 1 <= dl <= |levels|
    && forall n :: 0 <= n < |levels| ==> levels[dl - 1] <= levels[n] && (n < dl - 1 ==> levels[dl - 1] < levels[n])
  }

  method WantedLevel(levels: array<nat>) returns (dl: nat)
    requires levels.Length >= 1
    ensures IsWanted(levels[..], dl)
  {
    dl := 0;
    var n := 1;
    while n < levels.Length
      invariant dl < n <= levels.Length && IsWanted(levels[..n], dl + 1)
    {
      if levels[dl] > levels[n] { dl := n; }
      n := n + 1;
    }
    assert levels[..n] == levels[..];
    dl := dl + 1;
  }

  class Ring {
    var workers: seq<Worker>
    var cursor: Option<nat>
    var conns: map<nat, nat>

    /** The cursor is in the list, and only an empty list has none; no worker is at the
        level where the scan would stop advancing. */
    predicate Valid()
      reads this
    {
      && (if workers == [] then cursor == None else cursor.Some? && cursor.value < |workers|)
      && (forall w :: w in workers ==> 1 <= w.level < MAXLEVELS)
    }

    constructor ()
      ensures Valid() && workers == [] && conns == map[]
    {
      workers, cursor, conns := [], None, map[];
    }

    /** Where the scan goes from w, or that it has been round. */
    method Advance(w: nat, ghost i: nat) returns (round: bool, v: nat)
      requires cursor.Some? && cursor.value < |workers| && i < |workers| && w == Place(|workers|, cursor.value, i)
      ensures round == (i + 1 == |workers|)
      ensures !round ==> v == Place(|workers|, cursor.value, i + 1)
    {
      round, v := false, w;
      if w + 1 == |workers| && cursor.value == 0 {
        round := true;
      } else if w + 1 == |workers| {
        v := 0;
      } else if w + 1 == cursor.value {
        round := true;
      } else {
        v := w + 1;
      }
    }

    /** The body of the scan for the worker at w, when t is the choice so far. */
    method Consider(t: Option<nat>, w: nat, level: nat, most: nat, ghost o: seq<View>, ghost i: nat)
      returns (r: Option<nat>)
      requires Valid() && cursor.Some? && i < |workers| && w == Place(|workers|, cursor.value, i)
      requires o == From(Views(workers, conns), cursor.value)
      requires t == Located(|workers|, cursor.value, Choice(o, i, level, most))
      ensures r == Located(|workers|, cursor.value, Choice(o, i + 1, level, most))
    {
      hide Views, From, Place;
      r := t;
      assert workers[w] in workers && workers[w].level < MAXLEVELS;
      var v := ViewOf(workers[w], conns);
      SeenAt(workers, conns, cursor.value, i);
      if t == None {
        if v.conns.Some? && v.conns.value < most { r := Some(w); }
      } else if v.conns.Some? {
        var b := ViewOf(workers[t.value], conns);
        SeenAt(workers, conns, cursor.value, Choice(o, i, level, most).value);
        if b.conns.value > v.conns.value && level == v.level {
          r := Some(w);
        } else if b.level != level && b.conns.value > v.conns.value {
          r := Some(w);
        }
      }
    }

    /** The scan of redir_read: all workers, from the cursor round. */
    method Scan(level: nat, most: nat) returns (t: Option<nat>)
      requires Valid() && cursor.Some?
      ensures t == Pick(workers, conns, cursor.value, level, most)
    {
      ghost var n, k, o := |workers|, cursor.value, From(Views(workers, conns), cursor.value);
      ghost var i: nat := 0;
      var w := cursor.value;
      t := None;
      assert Choice(o, 0, level, most) == None;
      assert |workers| > 0 && t == Located(n, k, None);
      assert w == Place(n, k, 0);
      hide Views, From, Choice, ViewOf, Located, Place, Valid;
      while true
        invariant i < n == |o| && w == Place(n, k, i)
        invariant t == Located(n, k, Choice(o, i, level, most))
        decreases n - i
      {
        t := Consider(t, w, level, most, o, i);
        i := i + 1;
        var round, v := Advance(w, i - 1);
        if round { break; }
        w := v;
      }
    }

    /** redir_read: the address the client is sent to (None: this server itself); the
        cursor moves past the chosen worker. */
    method Redirect(level: nat, most: nat) returns (to: Option<nat>, at: Option<nat>)
      requires Valid()
      modifies this`cursor
      ensures Valid()
      ensures at == if workers == [] then None else Pick(workers, conns, old(cursor).value, level, most)
      ensures at == None ==> to == None && cursor == old(cursor)
      ensures at.Some? ==> at.value < |workers| && to == workers[at.value].server
      ensures at.Some? ==> cursor == Some(if at.value + 1 < |workers| then at.value + 1 else 0)
    {
      to, at := None, None;
      if cursor == None { return; }
      at := Scan(level, most);
      hide Pick;
      if at == None { return; }
      to := workers[at.value].server;
      cursor := Some(if at.value + 1 == |workers| then 0 else at.value + 1);
    }

    /** redir_read for a client that has been sent to each level levels[i] times: it is to
        go where it was sent least often, and the level it is sent to is counted. */
    method RedirRead(levels: array<nat>, most: nat) returns (to: Option<nat>, at: Option<nat>, ghost wanted: nat)
      requires Valid() && levels.Length == MAXLEVELS - 1
      modifies this`cursor, levels
      ensures Valid() && IsWanted(old(levels[..]), wanted)
      ensures at == if workers == [] then None else Pick(workers, conns, old(cursor).value, wanted, most)
      ensures at == None ==> to == None && cursor == old(cursor) && levels[..] == old(levels[..])
      ensures at.Some? ==> at.value < |workers| && to == workers[at.value].server
      ensures at.Some? ==> cursor == Some(if at.value + 1 < |workers| then at.value + 1 else 0)
      ensures at.Some? ==> var l := workers[at.value].level;
        1 <= l <= levels.Length && levels[..] == old(levels[..])[l - 1 := old(levels[l - 1]) + 1]
    {
      var level := WantedLevel(levels);
      wanted := level;
      to, at := Redirect(level, most);
      if at.Some? {
        var l := workers[at.value].level;
        assert workers[at.value] in workers;
        levels[l - 1] := levels[l - 1] + 1;
      }
    }

    /** removeworker: the cursor stays on its worker; if that is the one removed it goes to
        the next, or from the end of the list to the front. */
    method Remove(k: nat)
      requires Valid() && k < |workers|
      modifies this`workers, this`cursor
      ensures Valid() && workers == old(workers)[..k] + old(workers)[k + 1..]
      ensures old(cursor).value != k ==>
                cursor == Some(if k < old(cursor).value then old(cursor).value - 1 else old(cursor).value)
      ensures old(cursor).value == k && workers != [] ==> cursor == Some(if k < |workers| then k else 0)
    {
      workers := workers[..k] + workers[k + 1..];
      if cursor.value == k {
        cursor := if k < |workers| then Some(k) else if workers == [] then None else Some(0);
      } else if k < cursor.value {
        cursor := Some(cursor.value - 1);
      }
    }

    method Search(a: nat) returns (k: nat)
      ensures k == FirstServing(workers, a)
    {
      hide FirstServing;
      k := 0;
      while k < |workers| && workers[k].server != Some(a)
        invariant k <= FirstServing(workers, a)
      {
        k := k + 1;
      }
    }

    /** avail_write once its message is read. The sender serves from `address`, and has its
        data from the worker at `source` or, if None, is the origin. That worker's server
        is charged a connection even if the sender is then not admitted. */
    method Avail(source: Option<nat>, address: nat) returns (added: bool)
      requires Valid()
      requires forall w :: w in workers ==> w.server.Some? && w.server.value in conns
      modifies this
      ensures Valid()
      ensures var n := |old(workers)|;
        var below := if source.None? then 0 else FirstServing(old(workers), source.value);
        var level := if source.None? then 1 else if below < n then old(workers)[below].level + 1 else MAXLEVELS;
        && added == (level < MAXLEVELS && FirstServing(old(workers), address) == n)
        && workers == (if added then old(workers) + [Worker(level, Some(address))] else old(workers))
        && cursor == (if added && n == 0 then Some(0) else old(cursor))
        && (forall a :: a in old(conns) ==>
              a in conns && conns[a] == old(conns)[a] + if source == Some(a) && below < n then 1 else 0)
        && (forall a :: a in conns ==> a in old(conns) || (added && a == address && conns[a] == 0))
        && (added ==> address in conns)
    {
      added := false;
      var level := 1;
      if source.Some? {
        var below := Search(source.value);
        if below == |workers| { return; }
        level := workers[below].level + 1;
        assert workers[below] in workers;
        conns := conns[source.value := conns[source.value] + 1];
        if level >= MAXLEVELS { return; }
      }
      var same := Search(address);
      if same < |workers| { return; }
      if address !in conns { conns := conns[address := 0]; }
      if workers == [] { cursor := Some(0); }
      workers := workers + [Worker(level, Some(address))];
      added := true;
    }
  }

  /** Worker 1 comes from the origin, worker 2 copies from worker 1. */
  method TwoWorkers() returns (ring: Ring)
    ensures fresh(ring) && ring.Valid() && ring.cursor == Some(0)
    ensures ring.workers == [Worker(1, Some(1)), Worker(2, Some(2))] && ring.conns == map[1 := 1, 2 := 0]
  {
    ring := new Ring();
    var a := ring.Avail(None, 1);
    assert ring.workers == [Worker(1, Some(1))] && ring.conns == map[1 := 0];
    var b := ring.Avail(Some(1), 2);
  }

  lemma TwoPicks(ws: seq<Worker>, conns: map<nat, nat>)
    requires ws == [Worker(1, Some(1)), Worker(2, Some(2))] && conns == map[1 := 1, 2 := 0]
    ensures Pick(ws, conns, 0, 1, 10) == Some(0) && Pick(ws, conns, 1, 1, 10) == Some(1)
  {
    var u, v := View(1, Some(1)), View(2, Some(0));
    assert ws[..1] == [ws[0]] && ws[..1][..0] == [];
    assert Views(ws, conns) == [u, v];
    assert From([u, v], 0) == [u, v] && From([u, v], 1) == [v, u];
    hide Views, From;
    assert Choice([u, v], 1, 1, 10) == Some(0) && Choice([v, u], 1, 1, 10) == Some(0);
  }

  /** The wanted level loses in a real ring: of two clients that are both to go to level 1
      the second is sent to worker 2. Worker 1 has room all the time. */
  method WantedLevelLoses() returns (ring: Ring, first: Option<nat>, second: Option<nat>)
    ensures fresh(ring) && ring.Valid() && ring.workers == [Worker(1, Some(1)), Worker(2, Some(2))]
    ensures first == Some(1) && second == Some(2)
    ensures Open(ViewOf(ring.workers[0], ring.conns), 10)
  {
    ring := TwoWorkers();
    TwoPicks(ring.workers, ring.conns);
    hide Pick;
    var at;
    first, at := ring.Redirect(1, 10);
    second, at := ring.Redirect(1, 10);
  }
}
