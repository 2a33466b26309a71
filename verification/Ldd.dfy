/** The shared libraries a binary needs: a worklist that grows while it is walked. */
module Ldd {
  import opened Basics

  /** What an ELF file says about its dependencies. needed keeps the order and the
      repetitions of the file's DT_NEEDED entries; rpath is its search list. A broken
      file has a good header, which is all that locating it looks at, but its dynamic
      section cannot be read. */
  datatype Elf = Elf(elfclass: nat, interp: Option<string>, rpath: Option<seq<string>>, needed: seq<string>,
                     broken: bool)

  /** The files with an ELF header, and where to look for libraries. */
  datatype World = World(files: map<string, Elf>, sysroot: Option<string>,
                         libPath: seq<string>, conf: seq<string>, defaults: seq<string>)

  datatype Dep = Dep(name: string, rpath: Option<seq<string>>, path: Option<string>)

  // ---- locating ---------------------------------------------------------------

  function PathIn(w: World, dir: string, name: string): string {
    (if w.sysroot.Some? then w.sysroot.value + "/" else "") + dir + "/" + name
  }

  predicate Usable(w: World, path: string, elfclass: nat) {
    path in w.files && w.files[path].elfclass == elfclass
  }

  predicate Readable(w: World, path: string) {
    path in w.files && !w.files[path].broken
  }

  /** The first directory of the list that has a usable file of that name. */
  function FirstIn(w: World, dirs: seq<string>, name: string, elfclass: nat): (r: Option<string>)
    ensures r.Some? ==> Usable(w, r.value, elfclass)
  {
    if dirs == [] then None
    else if Usable(w, PathIn(w, dirs[0], name), elfclass) then Some(PathIn(w, dirs[0], name))
    else FirstIn(w, dirs[1..], name, elfclass)
  }

  /** All the directories tried for a dependency, in order. */
  function SearchList(w: World, rpath: Option<seq<string>>): seq<string> {
    (if rpath.Some? then rpath.value else []) + w.libPath + w.conf + w.defaults
  }

  function Locate(w: World, name: string, rpath: Option<seq<string>>, elfclass: nat): Option<string> {
    FirstIn(w, SearchList(w, rpath), name, elfclass)
  }

  /** Nothing is found only if no directory has it, and else nothing before it has it. */
  lemma {:induction false} FirstIsFirst(w: World, dirs: seq<string>, name: string, elfclass: nat) returns (i: nat)
    ensures i <= |dirs|
    ensures forall k :: 0 <= k < i ==> !Usable(w, PathIn(w, dirs[k], name), elfclass)
    ensures FirstIn(w, dirs, name, elfclass) == if i == |dirs| then None else Some(PathIn(w, dirs[i], name))
  {
    if dirs == [] || Usable(w, PathIn(w, dirs[0], name), elfclass) {
      i := 0;
    } else {
      i := FirstIsFirst(w, dirs[1..], name, elfclass);
      assert forall k :: 1 <= k < i + 1 ==> dirs[k] == dirs[1..][k - 1];
      i := i + 1;
    }
  }

  lemma {:induction false} FirstInConcat(w: World, a: seq<string>, b: seq<string>, name: string, elfclass: nat)
    ensures FirstIn(w, a + b, name, elfclass) ==
      if FirstIn(w, a, name, elfclass).Some? then FirstIn(w, a, name, elfclass) else FirstIn(w, b, name, elfclass)
  {
    if a == [] {
      assert a + b == b;
    } else {
      assert (a + b)[1..] == a[1..] + b;
      FirstInConcat(w, a[1..], b, name, elfclass);
    }
  }

  /** A file of the right class is at the place that the system root, a directory and a
      name make. */
  predicate IsAt(w: World, dir: string, name: string, elfclass: nat) {
    var path := if w.sysroot == None then dir + "/" + name else w.sysroot.value + "/" + dir + "/" + name;
    path in w.files && w.files[path].elfclass == elfclass
  }

  lemma PathIs(w: World, dir: string, name: string, elfclass: nat)
    ensures PathIn(w, dir, name) ==
      if w.sysroot == None then dir + "/" + name else w.sysroot.value + "/" + dir + "/" + name
    ensures Usable(w, PathIn(w, dir, name), elfclass) <==> IsAt(w, dir, name, elfclass)
  {
    if w.sysroot == None { assert "" + dir == dir; }
  }

  lemma {:induction false} FirstInIs(w: World, dirs: seq<string>, name: string, elfclass: nat, i: nat)
    requires i <= |dirs| && forall k :: 0 <= k < i ==> !IsAt(w, dirs[k], name, elfclass)
    requires i < |dirs| ==> IsAt(w, dirs[i], name, elfclass)
    ensures FirstIn(w, dirs, name, elfclass) == if i < |dirs| then Some(PathIn(w, dirs[i], name)) else None
  {
    if dirs != [] { PathIs(w, dirs[0], name, elfclass); }
    if i > 0 {
      assert forall k :: 0 <= k < i - 1 ==> dirs[1..][k] == dirs[k + 1];
      hide IsAt, PathIn, Usable;
      FirstInIs(w, dirs[1..], name, elfclass, i - 1);
    }
  }

  lemma SearchIn(w: World, name: string, rpath: Option<seq<string>>, elfclass: nat, lists: seq<seq<string>>)
    requires lists == [if rpath == None then [] else rpath.value, w.libPath, w.conf, w.defaults]
    ensures Locate(w, name, rpath, elfclass) ==
      if FirstIn(w, lists[0], name, elfclass).Some? then FirstIn(w, lists[0], name, elfclass)
      else if FirstIn(w, lists[1], name, elfclass).Some? then FirstIn(w, lists[1], name, elfclass)
      else if FirstIn(w, lists[2], name, elfclass).Some? then FirstIn(w, lists[2], name, elfclass)
      else FirstIn(w, lists[3], name, elfclass)
  {
    hide FirstIn;
    FirstInConcat(w, lists[0] + w.libPath + w.conf, w.defaults, name, elfclass);
    FirstInConcat(w, lists[0] + w.libPath, w.conf, name, elfclass);
    FirstInConcat(w, lists[0], w.libPath, name, elfclass);
  }

  /** The file's own search list first, then the library path, the configured and the default
      directories: where directory i of list l is the first that has the file, and none of
      the lists before has it, the file is found there. */
  lemma LocateInOrder(w: World, name: string, rpath: Option<seq<string>>, elfclass: nat, lists: seq<seq<string>>,
                      l: nat, i: nat)
    requires lists == [if rpath == None then [] else rpath.value, w.libPath, w.conf, w.defaults] && l < 4
    requires forall m, k :: 0 <= m < l && 0 <= k < |lists[m]| ==> !IsAt(w, lists[m][k], name, elfclass)
    requires i < |lists[l]| && IsAt(w, lists[l][i], name, elfclass)
    requires forall k :: 0 <= k < i ==> !IsAt(w, lists[l][k], name, elfclass)
    ensures var dir := lists[l][i];
      Locate(w, name, rpath, elfclass) ==
        Some(if w.sysroot == None then dir + "/" + name else w.sysroot.value + "/" + dir + "/" + name)
  {
    hide FirstIn, Locate, IsAt, PathIn;
    SearchIn(w, name, rpath, elfclass, lists);
    forall m | 0 <= m < l ensures FirstIn(w, lists[m], name, elfclass) == None {
      FirstInIs(w, lists[m], name, elfclass, |lists[m]|);
    }
    FirstInIs(w, lists[l], name, elfclass, i);
    PathIs(w, lists[l][i], name, elfclass);
  }

  /** It is found nowhere if no directory of the four lists has it. */
  lemma LocateNowhere(w: World, name: string, rpath: Option<seq<string>>, elfclass: nat, lists: seq<seq<string>>)
    requires lists == [if rpath == None then [] else rpath.value, w.libPath, w.conf, w.defaults]
    requires forall m, k :: 0 <= m < 4 && 0 <= k < |lists[m]| ==> !IsAt(w, lists[m][k], name, elfclass)
    ensures Locate(w, name, rpath, elfclass) == None
  {
    hide FirstIn, Locate, IsAt;
    SearchIn(w, name, rpath, elfclass, lists);
    forall m | 0 <= m < 4 ensures FirstIn(w, lists[m], name, elfclass) == None {
      FirstInIs(w, lists[m], name, elfclass, |lists[m]|);
    }
  }

  // ---- the list -----------------------------------------------------------------

  function Names(deps: seq<Dep>): seq<string> {
    seq(|deps|, i requires 0 <= i < |deps| => deps[i].name)
  }

  /** Append the names not yet there, in order of first appearance, each with the
      search list of the file that first asks for it. */
  function AddAll(deps: seq<Dep>, needed: seq<string>, rpath: Option<seq<string>>): seq<Dep> {
    if needed == [] then deps
    else
      var before := AddAll(deps, needed[..|needed| - 1], rpath);
      var name := needed[|needed| - 1];
      if name in Names(before) then before else before + [Dep(name, rpath, None)]
  }

  predicate DistinctNames(deps: seq<Dep>) {
    forall i, k :: 0 <= i < k < |deps| ==> deps[i].name != deps[k].name
  }

  lemma {:induction false} AddAllAppends(deps: seq<Dep>, needed: seq<string>, rpath: Option<seq<string>>)
    requires DistinctNames(deps)
    ensures var r := AddAll(deps, needed, rpath);
      && deps <= r && DistinctNames(r)
      && (forall n :: n in Names(r) <==> n in Names(deps) || n in needed)
      && (forall i :: |deps| <= i < |r| ==> r[i].rpath == rpath && r[i].path == None && r[i].name in needed)
  {
    if needed != [] {
      var n := |needed| - 1;
      AddAllAppends(deps, needed[..n], rpath);
      var before := AddAll(deps, needed[..n], rpath);
      var last := needed[n];
      assert needed == needed[..n] + [last];
      if last !in Names(before) {
        var r := before + [Dep(last, rpath, None)];
        assert Names(r) == Names(before) + [last];
        forall i | 0 <= i < |before| ensures r[i].name != last {
          assert r[i].name == Names(before)[i];
        }
      }
    }
  }

  // ---- what the closure is --------------------------------------------------------

  function NeededBy(w: World, path: string): seq<string>
    requires path in w.files
  {
    w.files[path].needed
  }

  /** The first k entries are resolved: each sits at the first place its search
      finds, and everything its file needs is on the list. */
  predicate Resolved(w: World, elfclass: nat, deps: seq<Dep>, k: nat) {
    k <= |deps| &&
    forall i :: 0 <= i < k ==>
      && deps[i].path.Some?
      && deps[i].path == Locate(w, deps[i].name, deps[i].rpath, elfclass)
      && deps[i].path.value in w.files && !w.files[deps[i].path.value].broken
      && forall n :: n in NeededBy(w, deps[i].path.value) ==> n in Names(deps)
  }

  /** s contains what the binary needs and is closed under needing, as far as the
      first k entries of the list are concerned. */
  ghost predicate ClosedUnder(w: World, binary: string, deps: seq<Dep>, k: nat, s: iset<string>)
    requires binary in w.files
  {
    && (forall n :: n in NeededBy(w, binary) ==> n in s)
    && forall i :: 0 <= i < k && i < |deps| && deps[i].name in s
                   && deps[i].path.Some? && deps[i].path.value in w.files ==>
         forall n :: n in NeededBy(w, deps[i].path.value) ==> n in s
  }

  /** Nothing is on the list that the binary does not reach. */
  ghost predicate Reached(w: World, binary: string, deps: seq<Dep>, k: nat)
    requires binary in w.files
  {
    forall s: iset<string> :: ClosedUnder(w, binary, deps, k, s) ==> forall n :: n in Names(deps) ==> n in s
  }

  /** Every name any file needs: the list can grow no further than this. */
  function Universe(w: World): set<string> {
    set f, n | f in w.files && n in w.files[f].needed :: n
  }

  function NameSet(deps: seq<Dep>): set<string> {
    set n | n in Names(deps)
  }

  lemma {:induction false} DistinctCount(deps: seq<Dep>)
    requires DistinctNames(deps)
    ensures |NameSet(deps)| == |deps|
  {
    if deps == [] {
      assert NameSet(deps) == {};
    } else {
      var n := |deps| - 1;
      DistinctCount(deps[..n]);
      assert Names(deps) == Names(deps[..n]) + [deps[n].name];
      forall i | 0 <= i < n ensures Names(deps[..n])[i] != deps[n].name {}
      assert NameSet(deps) == NameSet(deps[..n]) + {deps[n].name};
    }
  }

  // ---- discovery order ------------------------------------------------------------

  /** A name that a file needs, with the search list of that file. */
  datatype Want = Want(name: string, rpath: Option<seq<string>>)

  function WantsOf(needed: seq<string>, rpath: Option<seq<string>>): seq<Want> {
    seq(|needed|, i requires 0 <= i < |needed| => Want(needed[i], rpath))
  }

  function WantedBy(w: World, path: string): seq<Want> {
    if path in w.files then WantsOf(w.files[path].needed, w.files[path].rpath) else []
  }

  /** The files the walk has read at position k: the binary, then one for each entry. */
  function Walked(binary: string, deps: seq<Dep>, k: nat): seq<string>
    requires k <= |deps| && forall i :: 0 <= i < k ==> deps[i].path.Some?
  {
    [binary] + seq(k, i requires 0 <= i < k => deps[i].path.value)
  }

  /** What these files ask for, in the order they are read. */
  function ReadOrder(w: World, files: seq<string>): seq<Want> {
    if files == [] then []
    else ReadOrder(w, files[..|files| - 1]) + WantedBy(w, files[|files| - 1])
  }

  lemma ReadOneMore(w: World, files: seq<string>, f: string)
    ensures ReadOrder(w, files + [f]) == ReadOrder(w, files) + WantedBy(w, f)
  {
    assert (files + [f])[..|files|] == files;
  }

  function Wants(deps: seq<Dep>): seq<Want> {
    seq(|deps|, i requires 0 <= i < |deps| => Want(deps[i].name, deps[i].rpath))
  }

  /** Where a name is first asked for, or the end. */
  function Position(wants: seq<Want>, name: string): (x: nat)
    ensures x <= |wants| && (x < |wants| ==> wants[x].name == name)
    ensures forall y :: 0 <= y < x ==> wants[y].name != name
  {
    if wants == [] then 0
    else
      var n := |wants| - 1;
      var x := Position(wants[..n], name);
      if x < n then x else if wants[n].name == name then n else n + 1
  }

  /** Of all that is asked for, what asks for its name first. */
  function Firsts(wants: seq<Want>): seq<Want> {
    if wants == [] then []
    else
      var n := |wants| - 1;
      Firsts(wants[..n]) + if Position(wants, wants[n].name) == n then [wants[n]] else []
  }

  lemma PositionBefore(front: seq<Want>, last: Want, name: string)
    ensures Position(front + [last], name) ==
      if Position(front, name) < |front| || last.name == name then Position(front, name) else |front| + 1
  {
    assert (front + [last])[..|front|] == front;
  }

  lemma FirstsStep(front: seq<Want>, last: Want)
    ensures Firsts(front + [last]) == Firsts(front) + if Position(front, last.name) == |front| then [last] else []
  {
    assert (front + [last])[..|front|] == front;
    PositionBefore(front, last, last.name);
  }

  lemma {:induction false} FirstAt(wants: seq<Want>, i: nat)
    requires i < |Firsts(wants)|
    ensures Position(wants, Firsts(wants)[i].name) < |wants|
    ensures Firsts(wants)[i] == wants[Position(wants, Firsts(wants)[i].name)]
  {
    var n := |wants| - 1;
    var before, last := wants[..n], wants[n];
    assert wants == before + [last];
    FirstsStep(before, last);
    if i < |Firsts(before)| { FirstAt(before, i); }
    hide Firsts, Position;
    PositionBefore(before, last, Firsts(wants)[i].name);
  }

  lemma {:induction false} FirstsInOrder(wants: seq<Want>, i: nat, k: nat)
    requires i < k < |Firsts(wants)|
    ensures Position(wants, Firsts(wants)[i].name) < Position(wants, Firsts(wants)[k].name)
  {
    var n := |wants| - 1;
    var before, last := wants[..n], wants[n];
    assert wants == before + [last];
    FirstsStep(before, last);
    FirstAt(before, i);
    if k < |Firsts(before)| {
      FirstsInOrder(before, i, k);
      FirstAt(before, k);
    }
    hide Firsts, Position;
    PositionBefore(before, last, Firsts(wants)[i].name);
    PositionBefore(before, last, Firsts(wants)[k].name);
  }

  predicate Has(wants: seq<Want>, name: string) {
    exists i :: 0 <= i < |wants| && wants[i].name == name
  }

  lemma {:induction false} NoneMissing(wants: seq<Want>, x: nat)
    requires x < |wants|
    ensures Has(Firsts(wants), wants[x].name)
  {
    var n := |wants| - 1;
    var before, last := wants[..n], wants[n];
    assert wants == before + [last];
    FirstsStep(before, last);
    hide Firsts, Position;
    var p := if x < n then x else Position(before, last.name);
    if p < n {
      assert before[p].name == wants[x].name;
      NoneMissing(before, p);
      var i :| 0 <= i < |Firsts(before)| && Firsts(before)[i].name == before[p].name;
      assert Firsts(wants)[i] == Firsts(before)[i];
    } else {
      assert Firsts(wants)[|Firsts(before)|] == last;
    }
  }

  /** Each entry is the first that asks for its name, the entries come in the order of the
      asking, and no name is missing. */
  lemma FirstsAreFirst(wants: seq<Want>)
    ensures forall i :: 0 <= i < |Firsts(wants)| ==>
      Position(wants, Firsts(wants)[i].name) < |wants| &&
      Firsts(wants)[i] == wants[Position(wants, Firsts(wants)[i].name)]
    ensures forall i, k :: 0 <= i < k < |Firsts(wants)| ==>
      Position(wants, Firsts(wants)[i].name) < Position(wants, Firsts(wants)[k].name)
    ensures forall x :: 0 <= x < |wants| ==> Has(Firsts(wants), wants[x].name)
  {
    hide Firsts, Position, Has;
    forall i | 0 <= i < |Firsts(wants)|
      ensures Position(wants, Firsts(wants)[i].name) < |wants|
      ensures Firsts(wants)[i] == wants[Position(wants, Firsts(wants)[i].name)]
    {
      FirstAt(wants, i);
    }
    forall i, k | 0 <= i < k < |Firsts(wants)|
      ensures Position(wants, Firsts(wants)[i].name) < Position(wants, Firsts(wants)[k].name)
    {
      FirstsInOrder(wants, i, k);
    }
    forall x | 0 <= x < |wants| ensures Has(Firsts(wants), wants[x].name) {
      NoneMissing(wants, x);
    }
  }

  lemma WantsOfMore(read: seq<Want>, needed: seq<string>, rpath: Option<seq<string>>)
    requires needed != []
    ensures read + WantsOf(needed, rpath) ==
      read + WantsOf(needed[..|needed| - 1], rpath) + [Want(needed[|needed| - 1], rpath)]
  {
  }

  lemma WantsOfOneMore(deps: seq<Dep>, d: Dep)
    ensures Wants(deps + [d]) == Wants(deps) + [Want(d.name, d.rpath)]
  {
  }

  lemma AddAllStep(deps: seq<Dep>, needed: seq<string>, rpath: Option<seq<string>>)
    requires needed != []
    ensures var before, name := AddAll(deps, needed[..|needed| - 1], rpath), needed[|needed| - 1];
      AddAll(deps, needed, rpath) == if name in Names(before) then before else before + [Dep(name, rpath, None)]
  {
  }

  /** A name is on the list exactly if it has been asked for. */
  lemma NameIsRead(deps: seq<Dep>, read: seq<Want>, name: string)
    requires Wants(deps) == Firsts(read)
    ensures name in Names(deps) <==> Position(read, name) < |read|
  {
    FirstsAreFirst(read);
    if name in Names(deps) {
      var i :| 0 <= i < |deps| && Names(deps)[i] == name;
      assert Wants(deps)[i].name == name;
    }
    if Position(read, name) < |read| {
      var i :| 0 <= i < |Firsts(read)| && Firsts(read)[i].name == name;
      assert Names(deps)[i] == Wants(deps)[i].name;
    }
  }

  lemma {:induction false} WantsOfAdd(deps: seq<Dep>, read: seq<Want>, needed: seq<string>, rpath: Option<seq<string>>)
    requires Wants(deps) == Firsts(read)
    ensures Wants(AddAll(deps, needed, rpath)) == Firsts(read + WantsOf(needed, rpath))
  {
    if needed == [] {
      assert read + WantsOf(needed, rpath) == read;
    } else {
      hide *;
      var n := |needed| - 1;
      var front, last := read + WantsOf(needed[..n], rpath), Want(needed[n], rpath);
      var added := AddAll(deps, needed[..n], rpath);
      WantsOfAdd(deps, read, needed[..n], rpath);
      WantsOfMore(read, needed, rpath);
      AddAllStep(deps, needed, rpath);
      NameIsRead(added, front, needed[n]);
      FirstsStep(front, last);
      WantsOfOneMore(added, Dep(needed[n], rpath, None));
      assert Firsts(front) + [] == Firsts(front);
    }
  }

  // ---- which files are meant --------------------------------------------------------

  predicate Asks(w: World, f: string, d: Dep) {
    f in w.files && d.name in NeededBy(w, f) && d.rpath == w.files[f].rpath
  }

  /** The binary is in s, and so is every file that a file in s finds for a name it needs. */
  ghost predicate FilesClosed(w: World, binary: string, elfclass: nat, s: iset<string>) {
    binary in s &&
    forall f, n :: f in s && f in w.files && n in NeededBy(w, f) ==>
      var found := Locate(w, n, w.files[f].rpath, elfclass);
      found.Some? ==> found.value in s
  }

  /** A closed set has the files located so far, and for each entry a file that asks for it. */
  ghost predicate FilesReached(w: World, binary: string, elfclass: nat, deps: seq<Dep>, k: nat) {
    forall s: iset<string> :: FilesClosed(w, binary, elfclass, s) ==>
      (forall i :: 0 <= i < k && i < |deps| && deps[i].path.Some? ==> deps[i].path.value in s) &&
      (forall i :: 0 <= i < |deps| ==> exists f :: f in s && Asks(w, f, deps[i]))
  }

  // ---- the walk ---------------------------------------------------------------------

  /** All that holds when the walk stands at position k. */
  ghost predicate Walking(w: World, binary: string, elfclass: nat, deps: seq<Dep>, k: nat) {
    && Readable(w, binary)
    && DistinctNames(deps) && k <= |deps|
    && Resolved(w, elfclass, deps, k)
    && (forall i :: k <= i < |deps| ==> deps[i].path == None)
    && (forall n :: n in NeededBy(w, binary) ==> n in Names(deps))
    && NameSet(deps) <= Universe(w)
    && Reached(w, binary, deps, k)
    && FilesReached(w, binary, elfclass, deps, k)
    && Wants(deps) == Firsts(ReadOrder(w, Walked(binary, deps, k)))
  }

  lemma FirstWants(w: World, binary: string)
    requires binary in w.files
    ensures Wants(AddAll([], w.files[binary].needed, w.files[binary].rpath)) == Firsts(ReadOrder(w, [binary]))
  {
    assert Wants([]) == Firsts([]);
    WantsOfAdd([], [], w.files[binary].needed, w.files[binary].rpath);
    ReadOneMore(w, [], binary);
    assert [] + [binary] == [binary];
  }

  lemma StartReaches(w: World, binary: string, elfclass: nat, deps: seq<Dep>)
    requires binary in w.files
    requires forall n :: n in Names(deps) ==> n in NeededBy(w, binary)
    requires forall i :: 0 <= i < |deps| ==> Asks(w, binary, deps[i])
    ensures Reached(w, binary, deps, 0) && FilesReached(w, binary, elfclass, deps, 0)
  {
    hide Asks, Names, NeededBy, Locate;
  }

  lemma StartNames(w: World, binary: string, deps: seq<Dep>)
    requires binary in w.files
    requires deps == AddAll([], w.files[binary].needed, w.files[binary].rpath)
    ensures DistinctNames(deps) && NameSet(deps) <= Universe(w)
    ensures forall n :: n in Names(deps) <==> n in NeededBy(w, binary)
    ensures forall i :: 0 <= i < |deps| ==> deps[i].path == None && Asks(w, binary, deps[i])
  {
    AddAllAppends([], w.files[binary].needed, w.files[binary].rpath);
    hide AddAll, DistinctNames;
  }

  lemma WalkStarts(w: World, binary: string, deps: seq<Dep>)
    requires Readable(w, binary)
    requires deps == AddAll([], w.files[binary].needed, w.files[binary].rpath)
    ensures Walking(w, binary, w.files[binary].elfclass, deps, 0)
  {
    assert Walked(binary, deps, 0) == [binary];
    hide AddAll, Firsts, Locate, WantsOf, Wants, Position, Reached, FilesReached, ReadOrder;
    hide DistinctNames, NameSet, Universe, Names, NeededBy, Asks, Walked;
    StartNames(w, binary, deps);
    FirstWants(w, binary);
    StartReaches(w, binary, w.files[binary].elfclass, deps);
  }

  /** One step: entry k is located at path, and what its file needs is added. */
  function Step(w: World, deps: seq<Dep>, k: nat, path: string): seq<Dep>
    requires k < |deps| && path in w.files
  {
    AddAll(deps[k := deps[k].(path := Some(path))], w.files[path].needed, w.files[path].rpath)
  }

  lemma StepExtends(w: World, deps: seq<Dep>, k: nat, path: string)
    requires k < |deps| && path in w.files && DistinctNames(deps)
    ensures var r := Step(w, deps, k, path);
      && |deps| <= |r| && DistinctNames(r)
      && r[k] == deps[k].(path := Some(path))
      && (forall i :: 0 <= i < |deps| && i != k ==> r[i] == deps[i])
      && (forall i :: |deps| <= i < |r| ==> r[i].path == None && Asks(w, path, r[i]))
      && (forall n :: n in Names(r) <==> n in Names(deps) || n in NeededBy(w, path))
  {
    var marked := deps[k := deps[k].(path := Some(path))];
    assert Names(marked) == Names(deps);
    AddAllAppends(marked, w.files[path].needed, w.files[path].rpath);
    var r := Step(w, deps, k, path);
    assert forall i :: 0 <= i < |deps| ==> r[i] == marked[i];
  }

  lemma StepKeepsReached(w: World, binary: string, deps: seq<Dep>, k: nat, path: string)
    requires binary in w.files && k < |deps| && path in w.files && DistinctNames(deps)
    requires Reached(w, binary, deps, k)
    ensures Reached(w, binary, Step(w, deps, k, path), k + 1)
  {
    var r := Step(w, deps, k, path);
    StepExtends(w, deps, k, path);
    forall s: iset<string>, n | ClosedUnder(w, binary, r, k + 1, s) && n in Names(r)
      ensures n in s
    {
      forall i | 0 <= i < k && deps[i].name in s && deps[i].path.Some? && deps[i].path.value in w.files
        ensures forall m :: m in NeededBy(w, deps[i].path.value) ==> m in s
      {
        assert r[i] == deps[i];
      }
      assert ClosedUnder(w, binary, deps, k, s);
      assert Names(deps)[k] in Names(deps);
      assert r[k].name in s;
    }
  }

  lemma StepKeepsResolved(w: World, elfclass: nat, deps: seq<Dep>, k: nat, path: string)
    requires k < |deps| && Readable(w, path) && DistinctNames(deps)
    requires Resolved(w, elfclass, deps, k)
    requires Locate(w, deps[k].name, deps[k].rpath, elfclass) == Some(path)
    ensures Resolved(w, elfclass, Step(w, deps, k, path), k + 1)
  {
    StepExtends(w, deps, k, path);
  }

  lemma StepKeepsOrder(w: World, binary: string, elfclass: nat, deps: seq<Dep>, k: nat, path: string)
    requires k < |deps| && Readable(w, path) && DistinctNames(deps)
    requires Resolved(w, elfclass, deps, k)
    requires Wants(deps) == Firsts(ReadOrder(w, Walked(binary, deps, k)))
    requires Locate(w, deps[k].name, deps[k].rpath, elfclass) == Some(path)
    ensures var r := Step(w, deps, k, path);
      Resolved(w, elfclass, r, k + 1) && Wants(r) == Firsts(ReadOrder(w, Walked(binary, r, k + 1)))
  {
    var r := Step(w, deps, k, path);
    StepExtends(w, deps, k, path);
    StepKeepsResolved(w, elfclass, deps, k, path);
    assert Walked(binary, r, k + 1) == Walked(binary, deps, k) + [path];
    ReadOneMore(w, Walked(binary, deps, k), path);
    var marked := deps[k := deps[k].(path := Some(path))];
    assert Wants(marked) == Wants(deps);
    hide AddAll, Firsts, Locate;
    WantsOfAdd(marked, ReadOrder(w, Walked(binary, deps, k)), w.files[path].needed, w.files[path].rpath);
  }

  lemma StepKeepsFiles(w: World, binary: string, elfclass: nat, deps: seq<Dep>, k: nat, path: string)
    requires k < |deps| && path in w.files && DistinctNames(deps)
    requires FilesReached(w, binary, elfclass, deps, k)
    requires Locate(w, deps[k].name, deps[k].rpath, elfclass) == Some(path)
    ensures FilesReached(w, binary, elfclass, Step(w, deps, k, path), k + 1)
  {
    var r := Step(w, deps, k, path);
    StepExtends(w, deps, k, path);
    hide Step, Locate, DistinctNames;
    forall s: iset<string> | FilesClosed(w, binary, elfclass, s)
      ensures forall i :: 0 <= i < k + 1 && i < |r| && r[i].path.Some? ==> r[i].path.value in s
      ensures forall i :: 0 <= i < |r| ==> exists f :: f in s && Asks(w, f, r[i])
    {
      var g :| g in s && Asks(w, g, deps[k]);
      assert path in s;
      forall i | 0 <= i < |r| ensures exists f :: f in s && Asks(w, f, r[i]) {
        if i < |deps| {
          var f :| f in s && Asks(w, f, deps[i]);
          assert Asks(w, f, r[i]);
        } else {
          assert Asks(w, path, r[i]);
        }
      }
    }
  }

  lemma WalkSteps(w: World, binary: string, elfclass: nat, deps: seq<Dep>, k: nat, path: string)
    requires Walking(w, binary, elfclass, deps, k) && k < |deps|
    requires Readable(w, path) && Locate(w, deps[k].name, deps[k].rpath, elfclass) == Some(path)
    ensures Walking(w, binary, elfclass, Step(w, deps, k, path), k + 1)
  {
    hide Resolved, Reached, FilesReached, Firsts, ReadOrder, Asks;
    StepExtends(w, deps, k, path);
    StepKeepsReached(w, binary, deps, k, path);
    StepKeepsFiles(w, binary, elfclass, deps, k, path);
    StepKeepsOrder(w, binary, elfclass, deps, k, path);
    assert forall n :: n in NeededBy(w, path) ==> n in Universe(w);
  }

  /** The list never outgrows the universe of names, so the walk ends. */
  lemma WalkIsBounded(w: World, binary: string, elfclass: nat, deps: seq<Dep>, k: nat)
    requires Walking(w, binary, elfclass, deps, k)
    ensures k <= |deps| <= |Universe(w)|
  {
    DistinctCount(deps);
    SubsetSize(NameSet(deps), Universe(w));
  }

  lemma LocatedIsReadable(w: World, d: Dep, elfclass: nat)
    ensures var r := Locate(w, d.name, d.rpath, elfclass); r.Some? ==> r.value in w.files
  {
  }

  // ---- the program --------------------------------------------------------------------

  function Libraries(deps: seq<Dep>, interp: Option<string>): seq<string> {
    if deps == [] then []
    else
      var d := deps[|deps| - 1];
      Libraries(deps[..|deps| - 1], interp)
        + if d.path.None? || (interp.Some? && d.path == interp) then [] else [d.path.value]
  }

  /** The walk stands at entry k of ds and cannot go on. */
  ghost predicate StuckAt(w: World, binary: string, ds: seq<Dep>, k: nat) {
    && Readable(w, binary) && k < |ds| && Walking(w, binary, w.files[binary].elfclass, ds, k)
    && var found := Locate(w, ds[k].name, ds[k].rpath, w.files[binary].elfclass);
       found == None || found.value !in w.files || w.files[found.value].broken
  }

  class Deplist {
    const w: World
    var deps: seq<Dep>
    var interp: Option<string>
    var elfclass: Option<nat>

    constructor (w: World)
      ensures this.w == w && deps == [] && interp == None && elfclass == None
    {
      this.w := w;
      deps, interp, elfclass := [], None, None;
    }

    /** add_dep: walk the list; append the name if it is not there. */
    method AddDep(name: string, rpath: Option<seq<string>>)
      modifies this`deps
      ensures deps == if name in Names(old(deps)) then old(deps) else old(deps) + [Dep(name, rpath, None)]
    {
      var d := 0;
      while d < |deps|
        invariant 0 <= d <= |deps|
        invariant forall i :: 0 <= i < d ==> deps[i].name != name
      {
        if deps[d].name == name {
          assert Names(deps)[d] == name;
          return;
        }
        d := d + 1;
      }
      deps := deps + [Dep(name, rpath, None)];
    }

    /** The loop of find_deps over the entries of the dynamic section. */
    method AddNeeded(needed: seq<string>, rpath: Option<seq<string>>)
      modifies this`deps
      ensures deps == AddAll(old(deps), needed, rpath)
    {
      assert AddAll(deps, needed[..0], rpath) == deps;
      hide AddAll;
      var n := 0;
      while n < |needed|
        invariant 0 <= n <= |needed|
        invariant deps == AddAll(old(deps), needed[..n], rpath)
      {
        assert needed[..n + 1][..n] == needed[..n];
        AddAllStep(old(deps), needed[..n + 1], rpath);
        AddDep(needed[n], rpath);
        n := n + 1;
      }
      assert needed[..n] == needed;
    }

    /** find_deps: read one file; add what it needs. */
    method FindDeps(path: string) returns (ok: bool)
      modifies this
      ensures ok <==> path in w.files && !w.files[path].broken
      ensures !ok ==> deps == old(deps)
      ensures ok ==> deps == AddAll(old(deps), w.files[path].needed, w.files[path].rpath)
      ensures ok ==> interp == if old(interp).Some? then old(interp) else w.files[path].interp
      ensures ok ==> elfclass == if old(elfclass).Some? then old(elfclass) else Some(w.files[path].elfclass)
    {
      if path !in w.files { return false; }
      var elf := w.files[path];
      if interp == None { interp := elf.interp; }
      if elfclass == None { elfclass := Some(elf.elfclass); }
      if elf.broken { return false; }
      AddNeeded(elf.needed, elf.rpath);
      ok := true;
    }

    method LocateIn(dirs: seq<string>, name: string, class_: nat) returns (r: Option<string>)
      ensures r == FirstIn(w, dirs, name, class_)
    {
      var i := 0;
      assert dirs[0..] == dirs;
      while i < |dirs|
        invariant 0 <= i <= |dirs|
        invariant FirstIn(w, dirs[i..], name, class_) == FirstIn(w, dirs, name, class_)
      {
        assert dirs[i..][1..] == dirs[i + 1..];
        var path := PathIn(w, dirs[i], name);
        if path in w.files {
          if w.files[path].elfclass == class_ { return Some(path); }
        }
        i := i + 1;
      }
      r := None;
    }

    /** locate_dep: the file's own search list, then the three general ones. */
    method LocateDep(d: Dep, class_: nat) returns (r: Option<string>)
      ensures r == Locate(w, d.name, d.rpath, class_)
    {
      var own := if d.rpath.Some? then d.rpath.value else [];
      FirstInConcat(w, own + w.libPath + w.conf, w.defaults, d.name, class_);
      FirstInConcat(w, own + w.libPath, w.conf, d.name, class_);
      FirstInConcat(w, own, w.libPath, d.name, class_);
      r := LocateIn(own, d.name, class_);
      if r == None { r := LocateIn(w.libPath, d.name, class_); }
      if r == None { r := LocateIn(w.conf, d.name, class_); }
      if r == None { r := LocateIn(w.defaults, d.name, class_); }
    }

    /** The dependency loop of xp_ldd. On success the list is the whole closure; it
        fails exactly when the binary cannot be read, or the walk comes to a name that is
        found nowhere or to a file that cannot be read. */
    method Close(binary: string) returns (ok: bool)
      requires deps == [] && interp == None && elfclass == None
      modifies this
      ensures ok ==> Readable(w, binary) && Walking(w, binary, w.files[binary].elfclass, deps, |deps|)
      ensures !ok ==> !Readable(w, binary) || exists ds: seq<Dep>, k: nat :: StuckAt(w, binary, ds, k)
    {
      hide Walking, Locate, AddAll;
      ok := FindDeps(binary);
      if !ok { return; }
      WalkStarts(w, binary, deps);
      ghost var class_ := w.files[binary].elfclass;
      var cdep := 0;
      while cdep < |deps|
        invariant ok && elfclass == Some(class_) && 0 <= cdep && Walking(w, binary, class_, deps, cdep)
        decreases |Universe(w)| - cdep
      {
        WalkIsBounded(w, binary, class_, deps, cdep);
        LocatedIsReadable(w, deps[cdep], class_);
        ghost var before := deps;
        var found := LocateDep(deps[cdep], elfclass.value);
        if found == None {
          assert StuckAt(w, binary, deps, cdep);
          return false;
        }
        deps := deps[cdep := deps[cdep].(path := found)];
        ok := FindDeps(found.value);
        if !ok {
          assert StuckAt(w, binary, before, cdep);
          return;
        }
        assert deps == Step(w, before, cdep, found.value) && Some(found.value) == found;
        WalkSteps(w, binary, class_, before, cdep, found.value);
        cdep := cdep + 1;
      }
      WalkIsBounded(w, binary, class_, deps, cdep);
    }

    /** The result of xp_ldd: the binary, then every library but the interpreter. */
    method Paths(binary: string) returns (ret: seq<string>)
      requires forall d :: d in deps ==> d.path.Some?
      ensures ret == [binary] + Libraries(deps, interp)
    {
      ret := [binary];
      var i := 0;
      while i < |deps|
        invariant 0 <= i <= |deps|
        invariant ret == [binary] + Libraries(deps[..i], interp)
      {
        assert deps[..i + 1][..i] == deps[..i];
        assert deps[i] in deps;
        if !(interp.Some? && deps[i].path == interp) { ret := ret + [deps[i].path.value]; }
        i := i + 1;
      }
      assert deps[..i] == deps;
    }
  }

  /** The libraries reported are the files found, without the interpreter. */
  lemma {:induction false} LibrariesAre(deps: seq<Dep>, interp: Option<string>, p: string)
    ensures p in Libraries(deps, interp) <==>
      Some(p) != interp && exists i: nat :: i < |deps| && deps[i].path == Some(p)
  {
    if deps != [] {
      LibrariesAre(deps[..|deps| - 1], interp, p);
    }
  }

  /** They come in the order of the list, one for each entry that has a file other than the
      interpreter. */
  lemma {:induction false} LibrariesInOrder(a: seq<Dep>, b: seq<Dep>, interp: Option<string>)
    ensures Libraries(a + b, interp) == Libraries(a, interp) + Libraries(b, interp)
    ensures |a| == 1 ==>
      Libraries(a, interp) == if a[0].path == None || a[0].path == interp then [] else [a[0].path.value]
  {
    if |a| == 1 {
      assert a[..0] == [];
      assert Libraries(a[..0], interp) == [];
    }
    if b == [] {
      assert a + b == a;
    } else {
      var n := |b| - 1;
      LibrariesInOrder(a, b[..n], interp);
      assert (a + b)[..|a + b| - 1] == a + b[..n];
    }
  }

  // ---- reading the result ---------------------------------------------------------------

  /** The names found are the least set that has what the binary needs and what
      the file found for each of its members needs. */
  lemma ClosureIsExact(w: World, binary: string, elfclass: nat, deps: seq<Dep>)
    requires Walking(w, binary, elfclass, deps, |deps|)
    ensures ClosedUnder(w, binary, deps, |deps|, iset n | n in Names(deps))
    ensures forall s: iset<string> :: ClosedUnder(w, binary, deps, |deps|, s) ==>
      forall n :: n in Names(deps) ==> n in s
  {
  }

  ghost function Found(binary: string, deps: seq<Dep>): iset<string> {
    iset p | p == binary || exists i :: 0 <= i < |deps| && deps[i].path == Some(p)
  }

  /** No two of these files find a name they both need in different places. */
  ghost predicate OneMeaning(w: World, elfclass: nat, files: iset<string>) {
    forall f, g, n :: f in files && g in files && f in w.files && g in w.files
                      && n in NeededBy(w, f) && n in NeededBy(w, g) ==>
      Locate(w, n, w.files[f].rpath, elfclass) == Locate(w, n, w.files[g].rpath, elfclass)
  }

  /** Each file on the list finds each name it needs where the list has it. */
  ghost predicate ListAgrees(w: World, binary: string, elfclass: nat, deps: seq<Dep>) {
    forall f, i :: f in Found(binary, deps) && f in w.files && 0 <= i < |deps| && deps[i].name in NeededBy(w, f) ==>
      Locate(w, deps[i].name, w.files[f].rpath, elfclass) == deps[i].path
  }

  lemma {:induction false} PositionIn(a: seq<Want>, b: seq<Want>, name: string)
    ensures Position(a + b, name) ==
      if Position(a, name) < |a| then Position(a, name) else |a| + Position(b, name)
  {
    if b == [] {
      assert a + b == a;
    } else {
      var front, last := b[..|b| - 1], b[|b| - 1];
      assert b == front + [last] && a + b == (a + front) + [last];
      PositionIn(a, front, name);
      PositionBefore(a + front, last, name);
      PositionBefore(front, last, name);
    }
  }

  lemma WantedIff(w: World, f: string, name: string)
    ensures Position(WantedBy(w, f), name) < |WantedBy(w, f)| <==> f in w.files && name in NeededBy(w, f)
  {
    if f in w.files && name in NeededBy(w, f) {
      var y :| 0 <= y < |NeededBy(w, f)| && NeededBy(w, f)[y] == name;
      assert WantedBy(w, f)[y].name == name;
    }
  }

  /** The first of these files that needs the name, or their number. */
  function FirstAsker(w: World, files: seq<string>, name: string): (j: nat)
    ensures j <= |files| && (j < |files| ==> files[j] in w.files && name in NeededBy(w, files[j]))
    ensures forall m :: 0 <= m < j && files[m] in w.files ==> name !in NeededBy(w, files[m])
  {
    if files == [] then 0
    else
      var n := |files| - 1;
      var j := FirstAsker(w, files[..n], name);
      if j < n then j else if files[n] in w.files && name in NeededBy(w, files[n]) then n else n + 1
  }

  /** What is read first about a name is what the first file that needs it says. */
  lemma {:induction false} ReadFrom(w: World, files: seq<string>, name: string)
    ensures var read := ReadOrder(w, files);
      var x, j := Position(read, name), FirstAsker(w, files, name);
      && (x < |read| <==> j < |files|)
      && (x < |read| ==> read[x].rpath == w.files[files[j]].rpath)
  {
    if files != [] {
      var n := |files| - 1;
      ReadFrom(w, files[..n], name);
      WantedIff(w, files[n], name);
      PositionIn(ReadOrder(w, files[..n]), WantedBy(w, files[n]), name);
    }
  }

  lemma FirstWantOf(w: World, files: seq<string>, deps: seq<Dep>, i: nat)
    requires Wants(deps) == Firsts(ReadOrder(w, files)) && i < |deps|
    ensures var j := FirstAsker(w, files, deps[i].name);
      j < |files| && Asks(w, files[j], deps[i])
  {
    var read := ReadOrder(w, files);
    assert Wants(deps)[i] == Want(deps[i].name, deps[i].rpath);
    hide Firsts, ReadOrder, Position, FirstAsker, Wants;
    FirstAt(read, i);
    ReadFrom(w, files, deps[i].name);
  }

  /** An entry has the search list of the first file in walk order that needs its name. */
  lemma AskedFirst(w: World, binary: string, elfclass: nat, deps: seq<Dep>, i: nat)
    requires Walking(w, binary, elfclass, deps, |deps|) && i < |deps|
    ensures var files := Walked(binary, deps, |deps|);
      var j := FirstAsker(w, files, deps[i].name);
      j < |files| && files[j] in Found(binary, deps) && Asks(w, files[j], deps[i])
  {
    var files := Walked(binary, deps, |deps|);
    assert Wants(deps) == Firsts(ReadOrder(w, files));
    assert forall j :: 0 <= j < |files| ==> files[j] in Found(binary, deps);
    hide *;
    FirstWantOf(w, files, deps, i);
  }

  /** The files found are the least set with the binary in it that is closed under finding
      what is needed, if no two of them mean different files by one name; in any case they
      are in every such set. And the list has every name where every file that needs it
      finds it, if and only if no two of them mean different files. */
  lemma ClosureIsLeast(w: World, binary: string, elfclass: nat, deps: seq<Dep>)
    requires Walking(w, binary, elfclass, deps, |deps|)
    ensures forall s: iset<string> :: FilesClosed(w, binary, elfclass, s) ==> Found(binary, deps) <= s
    ensures OneMeaning(w, elfclass, Found(binary, deps)) <==> ListAgrees(w, binary, elfclass, deps)
    ensures OneMeaning(w, elfclass, Found(binary, deps)) ==> FilesClosed(w, binary, elfclass, Found(binary, deps))
  {
    var files := Found(binary, deps);
    hide Locate, Reached, Firsts, ReadOrder, FirstAsker;
    if OneMeaning(w, elfclass, files) {
      forall f, i | f in files && f in w.files && 0 <= i < |deps| && deps[i].name in NeededBy(w, f)
        ensures Locate(w, deps[i].name, w.files[f].rpath, elfclass) == deps[i].path
      {
        AskedFirst(w, binary, elfclass, deps, i);
      }
    }
    forall f, n | f in files && f in w.files && n in NeededBy(w, f)
      ensures exists i :: 0 <= i < |deps| && deps[i].name == n
    {
      assert n in Names(deps);
      var i :| 0 <= i < |deps| && Names(deps)[i] == n;
    }
  }

  // ---- a name with two meanings -------------------------------------------------------

  /** The binary and its first library both need "y", with different search lists. */
  function TwoMeanings(): World {
    World(map["b" := Elf(1, None, Some(["p"]), ["x", "y"], false), "p/x" := Elf(1, None, Some(["q"]), ["y"], false),
              "p/y" := Elf(1, None, None, [], false), "q/y" := Elf(1, None, None, [], false)],
          None, [], [], [])
  }

  lemma TwoPlaces(w: World)
    requires w == TwoMeanings()
    ensures Locate(w, "x", Some(["p"]), 1) == Some("p/x") && Locate(w, "y", Some(["p"]), 1) == Some("p/y")
    ensures Locate(w, "y", Some(["q"]), 1) == Some("q/y")
  {
    var p: Option<seq<string>>, q: Option<seq<string>> := Some(["p"]), Some(["q"]);
    assert SearchList(w, p) == ["p"] && SearchList(w, q) == ["q"];
    assert PathIn(w, "p", "x") == "p/x" && PathIn(w, "p", "y") == "p/y" && PathIn(w, "q", "y") == "q/y";
  }

  lemma TwoReaders(w: World)
    requires w == TwoMeanings()
    ensures Readable(w, "b") && w.files["b"] == Elf(1, None, Some(["p"]), ["x", "y"], false)
    ensures Readable(w, "p/x") && w.files["p/x"] == Elf(1, None, Some(["q"]), ["y"], false)
    ensures Readable(w, "p/y") && w.files["p/y"] == Elf(1, None, None, [], false)
  {
  }

  function TwoDeps(x: Option<string>, y: Option<string>): seq<Dep> {
    [Dep("x", Some(["p"]), x), Dep("y", Some(["p"]), y)]
  }

  lemma OneAdded(deps: seq<Dep>, name: string, rpath: Option<seq<string>>)
    ensures AddAll(deps, [], rpath) == deps
    ensures AddAll(deps, [name], rpath) == if name in Names(deps) then deps else deps + [Dep(name, rpath, None)]
  {
    assert [name][..0] == [];
  }

  lemma TwoAdded()
    ensures AddAll([], ["x", "y"], Some(["p"])) == TwoDeps(None, None)
  {
    var p := Some(["p"]);
    assert ["x", "y"][..1] == ["x"] && Names([]) == [] && Names([Dep("x", p, None)]) == ["x"];
    OneAdded([], "x", p);
  }

  lemma TwoSteps(w: World)
    requires w == TwoMeanings()
    ensures "p/x" in w.files && "p/y" in w.files
    ensures Step(w, TwoDeps(None, None), 0, "p/x") == TwoDeps(Some("p/x"), None)
    ensures Step(w, TwoDeps(Some("p/x"), None), 1, "p/y") == TwoDeps(Some("p/x"), Some("p/y"))
  {
    TwoReaders(w);
    var d1 := TwoDeps(Some("p/x"), None);
    var d2 := TwoDeps(Some("p/x"), Some("p/y"));
    assert Names(d1)[1] == "y";
    OneAdded(d1, "y", Some(["q"]));
    OneAdded(d2, "y", None);
    hide TwoMeanings, AddAll, Names;
    var d0 := TwoDeps(None, None);
    assert d0[0 := d0[0].(path := Some("p/x"))] == d1 && d1[1 := d1[1].(path := Some("p/y"))] == d2;
  }

  lemma TwoWalk(w: World)
    requires w == TwoMeanings() && "b" in w.files
    ensures Walking(w, "b", 1, TwoDeps(Some("p/x"), Some("p/y")), 2)
  {
    TwoReaders(w);
    TwoPlaces(w);
    TwoAdded();
    TwoSteps(w);
    var d0, d1 := TwoDeps(None, None), TwoDeps(Some("p/x"), None);
    assert d0[0].name == "x" && d0[0].rpath == Some(["p"]) && d1[1].name == "y" && d1[1].rpath == Some(["p"]);
    assert |d0| == 2 && |d1| == 2;
    hide *;
    WalkStarts(w, "b", d0);
    WalkSteps(w, "b", 1, d0, 0, "p/x");
    WalkSteps(w, "b", 1, d1, 1, "p/y");
  }

  /** The walk of that binary ends with the "y" the binary means. Its first library means
      another, which is not on the list. */
  lemma OtherMeaning()
    ensures var w, deps := TwoMeanings(), TwoDeps(Some("p/x"), Some("p/y"));
      && "b" in w.files && Walking(w, "b", 1, deps, 2)
      && !OneMeaning(w, 1, Found("b", deps)) && !FilesClosed(w, "b", 1, Found("b", deps))
  {
    var w, deps := TwoMeanings(), TwoDeps(Some("p/x"), Some("p/y"));
    TwoReaders(w);
    TwoPlaces(w);
    TwoWalk(w);
    assert "p/x" in Found("b", deps) by { assert deps[0].path == Some("p/x"); }
    assert "b" in Found("b", deps) && "q/y" !in Found("b", deps);
    hide TwoMeanings, Locate, Walking, TwoDeps, Found;
    assert ["x", "y"][1] == "y" && ["y"][0] == "y";
    assert "y" in NeededBy(w, "p/x") && "y" in NeededBy(w, "b");
  }
}
