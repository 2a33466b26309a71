/** The fids of one 9P connection: a hash table of 64 chains, whose lookup moves what it
    finds to the front of its chain. */
module FidPool {
  import opened Basics
  const SIZE: nat := 64

  function Bucket(n: nat): (b: nat)
    ensures b < SIZE
  {
    n % SIZE
  }

  class Fid {
    const fid: nat
    var refcount: int
    var next: Fid?

    constructor (fid: nat)
      ensures this.fid == fid && refcount == 0
    {
      this.fid, next, refcount := fid, null, 0;
    }
  }

  ghost function At(c: seq<Fid>, i: nat): Fid? {
    if i < |c| then c[i] else null
  }

  /** Following next from head gives exactly the objects of c. */
  ghost predicate Linked(head: Fid?, c: seq<Fid>)
    reads c`next
  {
    head == At(c, 0) && forall i: nat :: i < |c| ==> c[i].next == At(c, i + 1)
  }

  function Dropped(c: seq<Fid>, k: nat): seq<Fid>
    requires k < |c|
  {
    c[..k] + c[k + 1..]
  }

  /** c with its element k first. */
  function ToFront(c: seq<Fid>, k: nat): seq<Fid>
    requires k < |c|
  {
    [c[k]] + Dropped(c, k)
  }

  /** The chains hold, once each and in the bucket their numbers hash to, exactly the
      objects of the map. */
  ghost predicate Table(chains: seq<seq<Fid>>, contents: map<nat, Fid>) {
    && |chains| == SIZE
    && (forall b :: 0 <= b < SIZE ==>
          NoRepeats(chains[b]) && forall f :: f in chains[b] ==> Bucket(f.fid) == b && f in contents.Values)
    && (forall n :: n in contents ==> contents[n].fid == n && contents[n] in chains[Bucket(n)])
  }

  lemma DroppedIs(c: seq<Fid>, k: nat)
    requires k < |c| && NoRepeats(c)
    ensures NoRepeats(Dropped(c, k)) && forall f :: f in Dropped(c, k) <==> f in c && f != c[k]
  {
    assert c == c[..k] + [c[k]] + c[k + 1..];
  }

  /** Which element follows which once element k is passed by. */
  lemma DroppedLinks(c: seq<Fid>, k: nat, i: nat)
    requires k < |c| && i < |c| - 1
    ensures var w, at := Dropped(c, k), if i < k then i else i + 1;
      |w| == |c| - 1 && w[i] == c[at] && At(w, i + 1) == (if at == k - 1 then At(c, k + 1) else At(c, at + 1))
  {
  }

  lemma DroppedSize(c: seq<Fid>, k: nat)
    requires k < |c|
    ensures |Dropped(c, k)| == |c| - 1 && At(Dropped(c, k), 0) == if k == 0 then At(c, 1) else At(c, 0)
  {
  }

  /** Once taken out of its chain, an object hangs on no chain. */
  lemma DroppedIsNowhere(chains: seq<seq<Fid>>, contents: map<nat, Fid>, b: nat, k: nat)
    requires Table(chains, contents) && b < SIZE && k < |chains[b]|
    ensures var cs := chains[b := Dropped(chains[b], k)]; forall d :: 0 <= d < SIZE ==> chains[b][k] !in cs[d]
  {
    DroppedIs(chains[b], k);
    hide Dropped, NoRepeats;
    var f := chains[b][k];
    assert f in chains[b];
  }

  /** The chain that may hold n holds nothing else numbered n. */
  lemma InChain(chains: seq<seq<Fid>>, contents: map<nat, Fid>, f: Fid)
    requires Table(chains, contents)
    ensures f in chains[Bucket(f.fid)] <==> f.fid in contents && contents[f.fid] == f
  {
    if f in chains[Bucket(f.fid)] {
      var n :| n in contents && contents[n] == f;
    }
  }

  lemma Absent(chains: seq<seq<Fid>>, contents: map<nat, Fid>, n: nat)
    requires Table(chains, contents) && forall f: Fid :: f in chains[Bucket(n)] ==> f.fid != n
    ensures n !in contents
  {
  }

  lemma FrontKeepsTable(chains: seq<seq<Fid>>, contents: map<nat, Fid>, b: nat, k: nat)
    requires Table(chains, contents) && b < SIZE && k < |chains[b]|
    ensures Table(chains[b := ToFront(chains[b], k)], contents)
  {
    DroppedIs(chains[b], k);
    hide Dropped;
    var c := chains[b];
    assert forall f :: f in ToFront(c, k) <==> f in c;
  }

  lemma DroppedKeepsTable(chains: seq<seq<Fid>>, contents: map<nat, Fid>, b: nat, k: nat)
    requires Table(chains, contents) && b < SIZE && k < |chains[b]|
    ensures Table(chains[b := Dropped(chains[b], k)], contents - {chains[b][k].fid})
  {
    var x := chains[b][k];
    DroppedIs(chains[b], k);
    hide Dropped;
    var cs, m := chains[b := Dropped(chains[b], k)], contents - {x.fid};
    forall d, f: Fid | 0 <= d < SIZE && f in cs[d] ensures f in m.Values {
      assert f in chains[d];
      InChain(chains, contents, f);
      InChain(chains, contents, x);
      assert m[f.fid] == f;
    }
  }

  lemma WithKeepsTable(chains: seq<seq<Fid>>, contents: map<nat, Fid>, f: Fid)
    requires Table(chains, contents) && f.fid !in contents
    ensures var b := Bucket(f.fid); Table(chains[b := [f] + chains[b]], contents[f.fid := f])
  {
    var b := Bucket(f.fid);
    var cs, m := chains[b := [f] + chains[b]], contents[f.fid := f];
    InChain(chains, contents, f);
    forall d, g: Fid | 0 <= d < SIZE && g in cs[d] ensures Bucket(g.fid) == d && g in m.Values {
      if g == f {
        assert m[f.fid] == f;
      } else {
        assert g in chains[d];
        InChain(chains, contents, g);
        assert m[g.fid] == g;
      }
    }
  }

  class Pool {
    const htable: array<Fid?>
    ghost var chains: seq<seq<Fid>>

    /** The finite map the table stands for. */
    ghost var contents: map<nat, Fid>

    ghost predicate Valid()
      reads this, htable, contents.Values`next
    {
      htable.Length == SIZE && Table(chains, contents) && forall b :: 0 <= b < SIZE ==> Linked(htable[b], chains[b])
    }

    constructor ()
      ensures Valid() && contents == map[] && fresh(htable)
    {
      htable := new Fid?[SIZE](_ => null);
      chains := seq(SIZE, _ => []);
      contents := map[];
    }

    /** The object before the one numbered n in its chain (null if that is the first),
        and the object itself (null if there is none). */
    method Locate(n: nat) returns (prev: Fid?, f: Fid?, ghost k: nat)
      requires Valid()
      ensures f == if n in contents then contents[n] else null
      ensures f != null ==>
        && k < |chains[Bucket(n)]| && chains[Bucket(n)][k] == f
        && (k == 0 ==> prev == null) && (k > 0 ==> prev == chains[Bucket(n)][k - 1])
    {
      ghost var c := chains[Bucket(n)];
      assert Linked(htable[Bucket(n)], c);
      assert |chains| == SIZE;
      hide Table, NoRepeats, Bucket, Linked;
      k := 0;
      prev, f := null, htable[Bucket(n)];
      while f != null && f.fid != n
        invariant k <= |c| && f == At(c, k) && forall i: nat :: i < |c| ==> c[i].next == At(c, i + 1)
        invariant if k == 0 then prev == null else prev == c[k - 1]
        invariant forall i :: 0 <= i < k ==> c[i].fid != n
        decreases |c| - k
      {
        prev, f := f, f.next;
        k := k + 1;
      }
      if f != null {
        assert k < |c| && c[k] == f && f.fid == n;
        InChain(chains, contents, f);
      } else {
        assert k == |c|;
        Absent(chains, contents, n);
      }
    }

    /** Take the object at k out of chain b; what hangs on no other chain is left as it
        was. */
    method Unlink(b: nat, prev: Fid?, f: Fid, ghost k: nat)
      requires Valid() && b < SIZE && k < |chains[b]| && chains[b][k] == f
      requires (k == 0 ==> prev == null) && (k > 0 ==> prev == chains[b][k - 1])
      modifies htable, contents.Values`next
      ensures Linked(htable[b], Dropped(chains[b], k))
      ensures forall d :: 0 <= d < SIZE && d != b ==> Linked(htable[d], chains[d])
    {
      ghost var c := chains[b];
      assert Linked(htable[b], c) && NoRepeats(c);
      assert forall i: nat :: i < |c| ==> c[i].next == At(c, i + 1);
      assert prev != null ==> prev in c;
      if prev == null { htable[b] := f.next; } else { prev.next := f.next; }
      forall d | 0 <= d < SIZE && d != b ensures Linked(htable[d], chains[d]) {
        hide Linked, NoRepeats;
        assert old(Linked(htable[d], chains[d]));
        assert prev !in chains[d];
      }
      hide NoRepeats, Table, Dropped;
      assert forall i: nat :: i < |c| ==> c[i].next == if i == k - 1 then At(c, k + 1) else At(c, i + 1);
      ghost var w := Dropped(c, k);
      DroppedSize(c, k);
      forall i: nat | i < |w| ensures w[i].next == At(w, i + 1) {
        DroppedLinks(c, k, i);
      }
    }

    /** Put f, which hangs on no chain, at the head of chain b. */
    method Push(b: nat, f: Fid, ghost cs: seq<seq<Fid>>)
      requires htable.Length == SIZE == |cs| && b < SIZE
      requires forall d :: 0 <= d < SIZE ==> f !in cs[d] && Linked(htable[d], cs[d])
      modifies htable, f`next
      ensures htable[b] == f && Linked(htable[b], [f] + cs[b])
      ensures forall d :: 0 <= d < SIZE && d != b ==> Linked(htable[d], cs[d])
    {
      f.next := htable[b];
      htable[b] := f;
      ghost var c := [f] + cs[b];
      assert old(Linked(htable[b], cs[b]));
      forall i: nat | i < |c| ensures c[i].next == At(c, i + 1) {
        assert i > 0 ==> c[i] == cs[b][i - 1] && old(c[i].next) == At(cs[b], i);
      }
      hide Linked;
      forall d | 0 <= d < SIZE && d != b ensures Linked(htable[d], cs[d]) {
        assert old(Linked(htable[d], cs[d]));
      }
    }

    /** The two relinkings of a lookup: cs are the chains without the object, out with it
        in front. */
    method Splice(b: nat, prev: Fid?, f: Fid, ghost k: nat, ghost cs: seq<seq<Fid>>, ghost out: seq<seq<Fid>>)
      requires Valid() && b < SIZE && k < |chains[b]| && chains[b][k] == f && f in contents.Values
      requires (k == 0 ==> prev == null) && (k > 0 ==> prev == chains[b][k - 1])
      requires |cs| == |out| == SIZE && cs[b] == Dropped(chains[b], k) && out[b] == [f] + cs[b]
      requires forall d :: 0 <= d < SIZE ==> f !in cs[d] && (d != b ==> out[d] == cs[d] == chains[d])
      modifies htable, contents.Values`next
      ensures htable[b] == f && forall d :: 0 <= d < SIZE ==> Linked(htable[d], out[d])
    {
      hide Dropped, NoRepeats, At, Table, Linked;
      Unlink(b, prev, f, k);
      assert forall d :: 0 <= d < SIZE ==> f !in cs[d] && Linked(htable[d], cs[d]);
      Push(b, f, cs);
    }

    /** sp_fid_find: the map is what it was, and the object found is now first. */
    method Find(n: nat) returns (f: Fid?)
      requires Valid()
      modifies this`chains, htable, contents.Values`next
      ensures Valid()
      ensures f == if n in contents then contents[n] else null
      ensures f != null ==> htable[Bucket(n)] == f
    {
      var prev;
      ghost var k;
      assert |chains| == SIZE == htable.Length;
      hide Dropped, Linked, NoRepeats, Table, Bucket, At;
      prev, f, k := Locate(n);
      if f == null { return; }
      var b := Bucket(n);
      DroppedIsNowhere(chains, contents, b, k);
      FrontKeepsTable(chains, contents, b, k);
      ghost var cs, out := chains[b := Dropped(chains[b], k)], chains[b := ToFront(chains[b], k)];
      assert f in contents.Values;
      Splice(b, prev, f, k, cs, out);
      chains := out;
    }

    /** sp_fid_create: only an absent number is added. */
    method Create(n: nat) returns (f: Fid?)
      requires Valid()
      modifies this, htable, contents.Values`next
      ensures Valid()
      ensures n in old(contents) ==> f == null && contents == old(contents)
      ensures n !in old(contents) ==>
        f != null && fresh(f) && f.fid == n && f.refcount == 0 && contents == old(contents)[n := f]
    {
      f := Find(n);
      if f != null { return null; }
      f := new Fid(n);
      Push(Bucket(n), f, chains);
      WithKeepsTable(chains, contents, f);
      chains := chains[Bucket(n) := [f] + chains[Bucket(n)]];
      contents := contents[n := f];
    }

    /** sp_fid_destroy: the object that has x's number goes, and is handed to the
        server's fiddestroy. */
    method Destroy(x: Fid) returns (gone: Fid?)
      requires Valid()
      modifies this, htable, contents.Values`next
      ensures Valid() && contents == old(contents) - {x.fid}
      ensures gone == if x.fid in old(contents) then old(contents)[x.fid] else null
    {
      var prev;
      ghost var k;
      assert |chains| == SIZE;
      prev, gone, k := Locate(x.fid);
      hide Dropped, Linked, NoRepeats, Table, Bucket;
      if gone == null {
        assert contents - {x.fid} == contents;
        return;
      }
      var b := Bucket(x.fid);
      DroppedKeepsTable(chains, contents, b, k);
      Unlink(b, prev, gone, k);
      ghost var cs := chains[b := Dropped(chains[b], k)];
      assert forall d :: 0 <= d < SIZE ==> Linked(htable[d], cs[d]);
      chains, contents := cs, contents - {x.fid};
    }

    /** sp_fid_decref: the object goes with its last reference. */
    method DecRef(x: Fid?) returns (gone: Fid?)
      requires Valid()
      modifies this, htable, contents.Values`next, (if x == null then {} else {x})`refcount
      ensures Valid()
      ensures x != null ==> x.refcount == old(x.refcount) - 1
      ensures x == null || old(x.refcount) != 1 ==> gone == null && contents == old(contents)
      ensures x != null && old(x.refcount) == 1 ==>
        && contents == old(contents) - {x.fid}
        && gone == if x.fid in old(contents) then old(contents)[x.fid] else null
    {
      gone := null;
      if x == null { return; }
      x.refcount := x.refcount - 1;
      if x.refcount == 0 {
        gone := Destroy(x);
      }
    }
  }
}
