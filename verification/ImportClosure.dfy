/** The import closure of a Lean source: a post-order walk of a possibly cyclic import graph. */
module ImportClosure {
  import opened Lists
  import opened Wrappers

  type Path = string

  /** Each existing file with the ZtareProofs modules it imports, as paths, in order of
      appearance; an imported path need not exist. */
  type Files = map<Path, seq<Path>>

  // ---------- Reachability ----------

  predicate Imports(files: Files, u: Path, v: Path) {
    u in files && v in files && v in files[u]
  }

  ghost predicate IsWalk(files: Files, walk: seq<Path>) {
    walk != [] && forall i, j :: 0 <= i && j == i + 1 && j < |walk| ==> Imports(files, walk[i], walk[j])
  }

  ghost predicate Reaches(files: Files, u: Path, v: Path) {
    exists walk :: IsWalk(files, walk) && walk[0] == u && walk[|walk| - 1] == v
  }

  lemma ReachesSelf(files: Files, u: Path)
    ensures Reaches(files, u, u)
  {
    assert IsWalk(files, [u]);
  }

  lemma ReachesStep(files: Files, u: Path, v: Path, w: Path)
    requires Reaches(files, u, v) && Imports(files, v, w)
    ensures Reaches(files, u, w)
  {
    var walk :| IsWalk(files, walk) && walk[0] == u && walk[|walk| - 1] == v;
    assert IsWalk(files, walk + [w]);
  }

  lemma ReachesTrans(files: Files, u: Path, v: Path, w: Path)
    requires Reaches(files, u, v) && Reaches(files, v, w)
    ensures Reaches(files, u, w)
  {
    var p :| IsWalk(files, p) && p[0] == u && p[|p| - 1] == v;
    var q :| IsWalk(files, q) && q[0] == v && q[|q| - 1] == w;
    assert IsWalk(files, p + q[1..]);
    assert (p + q[1..])[|p| + |q| - 2] == w;
  }

  ghost predicate ClosedUnderImports(files: Files, cells: set<Path>) {
    forall u, v :: u in cells && Imports(files, u, v) ==> v in cells
  }

  lemma ClosedHoldsReached(files: Files, cells: set<Path>, u: Path, v: Path)
    requires ClosedUnderImports(files, cells) && u in cells && Reaches(files, u, v)
    ensures v in cells
  {
    var walk :| IsWalk(files, walk) && walk[0] == u && walk[|walk| - 1] == v;
    for i := 1 to |walk|
      invariant walk[i - 1] in cells
    {
    }
  }

  /** Along a walk that keeps off some files, its ends included. */
  ghost predicate ReachesOff(files: Files, off: set<Path>, u: Path, v: Path) {
    exists walk :: IsWalk(files, walk) && walk[0] == u && walk[|walk| - 1] == v && forall x :: x in walk ==> x !in off
  }

  lemma OffSelf(files: Files, off: set<Path>, u: Path)
    requires u !in off
    ensures ReachesOff(files, off, u, u)
  {
    assert IsWalk(files, [u]);
  }

  lemma OffReaches(files: Files, off: set<Path>, u: Path, v: Path)
    requires ReachesOff(files, off, u, v)
    ensures Reaches(files, u, v)
  {
  }

  lemma OffPrepend(files: Files, off: set<Path>, u: Path, v: Path, w: Path)
    requires u !in off && Imports(files, u, v) && ReachesOff(files, off + {u}, v, w)
    ensures ReachesOff(files, off, u, w)
  {
    var walk :| IsWalk(files, walk) && walk[0] == v && walk[|walk| - 1] == w && forall x :: x in walk ==> x !in off + {u};
    assert IsWalk(files, [u] + walk);
  }

  lemma OffWeaker(files: Files, off: set<Path>, more: set<Path>, u: Path, v: Path)
    requires off <= more && ReachesOff(files, more, u, v)
    ensures ReachesOff(files, off, u, v)
  {
  }

  lemma OffTrans(files: Files, off: set<Path>, u: Path, v: Path, w: Path)
    requires ReachesOff(files, off, u, v) && ReachesOff(files, off, v, w)
    ensures ReachesOff(files, off, u, w)
  {
    var p :| IsWalk(files, p) && p[0] == u && p[|p| - 1] == v && forall x :: x in p ==> x !in off;
    var q :| IsWalk(files, q) && q[0] == v && q[|q| - 1] == w && forall x :: x in q ==> x !in off;
    assert IsWalk(files, p + q[1..]);
    assert (p + q[1..])[|p| + |q| - 2] == w;
  }

  /** A walk either keeps off more files or has a last part that starts at one of them. */
  lemma OffOrMeets(files: Files, off: set<Path>, more: set<Path>, u: Path, v: Path) returns (y: Path)
    requires ReachesOff(files, off, u, v) && !ReachesOff(files, more, u, v)
    ensures y in more && y !in off && ReachesOff(files, off, y, v)
  {
    var walk :| IsWalk(files, walk) && walk[0] == u && walk[|walk| - 1] == v && forall x :: x in walk ==> x !in off;
    var k :| 0 <= k < |walk| && walk[k] in more;
    y := walk[k];
    assert IsWalk(files, walk[k..]);
  }

  // ---------- The order that the walk leaves behind ----------

  /** Some of the imports leads to the file, off the given ones. */
  ghost predicate Led(files: Files, off: set<Path>, imports: seq<Path>, x: Path) {
    exists v :: v in imports && v in files && ReachesOff(files, off, v, x)
  }

  /** The files that the imports lead to come first in the list. */
  ghost predicate ComeFirst(files: Files, off: set<Path>, imports: seq<Path>, listed: seq<Path>) {
    exists m :: 0 <= m <= |listed| && forall x :: x in listed[..m] <==> Led(files, off, imports, x)
  }

  /** The files stand in the order of the first import that leads to them. */
  ghost predicate InBlocks(files: Files, off: set<Path>, imports: seq<Path>, listed: seq<Path>) {
    forall k :: 0 <= k <= |imports| ==> ComeFirst(files, off, imports[..k], listed)
  }

  /** What the file at place i imports is listed before it, or leads back to it. */
  ghost predicate Placed(files: Files, ordered: seq<Path>, i: nat)
    requires i < |ordered|
  {
    forall v :: Imports(files, ordered[i], v) ==> v in ordered[..i] || Reaches(files, v, ordered[i])
  }

  ghost predicate DependencyFirst(files: Files, ordered: seq<Path>) {
    forall i, v :: 0 <= i < |ordered| && Imports(files, ordered[i], v) ==> v in ordered[..i]
  }

  ghost predicate OnCycle(files: Files, u: Path) {
    exists v :: Imports(files, u, v) && Reaches(files, v, u)
  }

  /** The state of a walk whose open calls are the grey files. */
  ghost predicate Walking(files: Files, grey: set<Path>, seen: set<Path>, ordered: seq<Path>) {
    && Distinct(ordered)
    && (forall x :: x in seen <==> x in ordered || x in grey)
    && (forall x :: x in ordered ==> x !in grey && x in files)
    && (forall i, v :: 0 <= i < |ordered| && Imports(files, ordered[i], v) ==> v in seen)
    && forall i :: 0 <= i < |ordered| ==> Placed(files, ordered, i)
  }

  ghost predicate AllReach(files: Files, from: set<Path>, to: Path) {
    forall g :: g in from ==> Reaches(files, g, to)
  }

  lemma FinishFile(files: Files, grey: set<Path>, seen: set<Path>, ordered: seq<Path>, p: Path)
    requires Walking(files, grey + {p}, seen, ordered) && p in files && p !in grey
    requires AllReach(files, grey + {p}, p)
    requires forall v :: Imports(files, p, v) ==> v in seen
    ensures Walking(files, grey, seen, ordered + [p])
  {
    var after := ordered + [p];
    assert after[..|ordered|] == ordered;
    forall i | 0 <= i < |after| ensures Placed(files, after, i) {
      if i < |ordered| {
        assert after[..i] == ordered[..i] && Placed(files, ordered, i);
      }
    }
  }

  /** What a further import adds to the files seen. */
  lemma LedMore(files: Files, off: set<Path>, imports: seq<Path>, v: Path, before: set<Path>, after: set<Path>)
    requires forall x :: x in before <==> x in off || Led(files, off, imports, x)
    requires forall x :: x in after <==> x in before || (v in files && ReachesOff(files, before, v, x))
    ensures forall x :: x in after <==> x in off || Led(files, off, imports + [v], x)
  {
    forall x ensures x in after <==> x in off || Led(files, off, imports + [v], x) {
      if Led(files, off, imports + [v], x) && !Led(files, off, imports, x) && x !in after {
        var y := OffOrMeets(files, off, before, v, x);
        var u :| u in imports && u in files && ReachesOff(files, off, u, y);
        OffTrans(files, off, u, y, x);
        assert false;
      }
      if x in after && x !in before { OffWeaker(files, off, before, v, x); }
    }
  }

  /** What a walk adds to its list is what it adds to the files seen. */
  lemma NewlyListed(files: Files, grey: set<Path>, path: Path, seen0: set<Path>, ordered0: seq<Path>, seen: set<Path>,
                    ordered: seq<Path>)
    requires Walking(files, grey, seen0, ordered0) && Walking(files, grey + {path}, seen, ordered)
    requires ordered0 <= ordered && path !in seen0
    ensures forall x :: x in ordered[|ordered0|..] <==> x in seen && x !in seen0 + {path}
  {
    assert ordered == ordered0 + ordered[|ordered0|..];
    forall x | x in ordered[|ordered0|..] ensures x !in ordered0 {
      var i :| |ordered0| <= i < |ordered| && ordered[i] == x;
    }
  }

  lemma StillFirst(files: Files, off: set<Path>, imports: seq<Path>, listed: seq<Path>, more: seq<Path>)
    requires ComeFirst(files, off, imports, listed) && listed <= more
    ensures ComeFirst(files, off, imports, more)
  {
    var m :| 0 <= m <= |listed| && forall x :: x in listed[..m] <==> Led(files, off, imports, x);
    assert more[..m] == listed[..m];
  }

  lemma AllFirst(files: Files, off: set<Path>, imports: seq<Path>, listed: seq<Path>, seen: set<Path>)
    requires forall x :: x in listed <==> x in seen && x !in off
    requires forall x :: x in seen <==> x in off || Led(files, off, imports, x)
    ensures ComeFirst(files, off, imports, listed)
  {
    assert listed[..|listed|] == listed;
    forall x | Led(files, off, imports, x) ensures x !in off {
      var v :| v in imports && v in files && ReachesOff(files, off, v, x);
    }
  }

  /** A finished walk has seen all that its start leads to, off the files seen before. */
  lemma WhitePath(files: Files, grey: set<Path>, seen0: set<Path>, seen: set<Path>, ordered: seq<Path>, path: Path, x: Path)
    requires Walking(files, grey, seen, ordered) && grey <= seen0 && path in seen && ReachesOff(files, seen0, path, x)
    ensures x in seen
  {
    var walk :| IsWalk(files, walk) && walk[0] == path && walk[|walk| - 1] == x && forall y :: y in walk ==> y !in seen0;
    for i := 1 to |walk|
      invariant walk[i - 1] in seen
    {
      assert walk[i - 1] in ordered;
      assert Imports(files, walk[i - 1], walk[i]);
    }
  }

  lemma SeenFromPath(files: Files, grey: set<Path>, seen0: set<Path>, seen: set<Path>, ordered: seq<Path>, path: Path)
    requires Walking(files, grey, seen, ordered) && grey <= seen0 <= seen && path in seen && path !in seen0 && path in files
    requires forall x :: x in seen <==> x in seen0 + {path} || Led(files, seen0 + {path}, files[path], x)
    ensures forall x :: x in seen <==> x in seen0 || ReachesOff(files, seen0, path, x)
  {
    forall x ensures x in seen <==> x in seen0 || ReachesOff(files, seen0, path, x) {
      if x == path {
        OffSelf(files, seen0, path);
      } else if Led(files, seen0 + {path}, files[path], x) {
        var v :| v in files[path] && v in files && ReachesOff(files, seen0 + {path}, v, x);
        OffPrepend(files, seen0, path, v, x);
      }
      if ReachesOff(files, seen0, path, x) { WhitePath(files, grey, seen0, seen, ordered, path, x); }
    }
  }

  /** The state of a call after its first k imports: off, besides what was seen before it, is its own file. */
  ghost predicate Visiting(files: Files, grey: set<Path>, path: Path, seen0: set<Path>, ordered0: seq<Path>, k: nat,
                           seen: set<Path>, ordered: seq<Path>)
    requires path in files && k <= |files[path]|
  {
    && Walking(files, grey + {path}, seen, ordered)
    && seen0 + {path} <= seen && ordered0 <= ordered
    && (forall x :: x in seen <==> x in seen0 + {path} || Led(files, seen0 + {path}, files[path][..k], x))
    && forall j :: 0 <= j <= k ==> ComeFirst(files, seen0 + {path}, files[path][..j], ordered[|ordered0|..])
  }

  lemma VisitBegins(files: Files, grey: set<Path>, path: Path, seen0: set<Path>, ordered0: seq<Path>)
    requires Walking(files, grey, seen0, ordered0) && path in files && path !in seen0
    ensures Visiting(files, grey, path, seen0, ordered0, 0, seen0 + {path}, ordered0)
  {
    assert files[path][..0] == [] && ordered0[|ordered0|..] == [];
    AllFirst(files, seen0 + {path}, [], [], seen0 + {path});
  }

  /** What a call for one more import leaves behind, if it is a file at all. */
  ghost predicate Visited(files: Files, v: Path, seen: set<Path>, ordered: seq<Path>, seen': set<Path>, ordered': seq<Path>) {
    && seen <= seen' && ordered <= ordered'
    && (forall x :: x in seen' <==> x in seen || (v in files && ReachesOff(files, seen, v, x)))
  }

  lemma VisitAdds(files: Files, grey: set<Path>, path: Path, seen0: set<Path>, ordered0: seq<Path>, k: nat,
                  seen: set<Path>, ordered: seq<Path>, seen': set<Path>, ordered': seq<Path>)
    requires path in files && k < |files[path]| && Visiting(files, grey, path, seen0, ordered0, k, seen, ordered)
    requires Walking(files, grey, seen0, ordered0) && path !in seen0
    requires Walking(files, grey + {path}, seen', ordered')
    requires Visited(files, files[path][k], seen, ordered, seen', ordered')
    ensures Visiting(files, grey, path, seen0, ordered0, k + 1, seen', ordered')
  {
    var base, listed := seen0 + {path}, ordered'[|ordered0|..];
    assert files[path][..k + 1] == files[path][..k] + [files[path][k]];
    LedMore(files, base, files[path][..k], files[path][k], seen, seen');
    NewlyListed(files, grey, path, seen0, ordered0, seen', ordered');
    AllFirst(files, base, files[path][..k + 1], listed, seen');
    forall j | 0 <= j <= k ensures ComeFirst(files, base, files[path][..j], listed) {
      StillFirst(files, base, files[path][..j], ordered[|ordered0|..], listed);
    }
  }

  /** What a call leaves behind: the files that its own leads to, off those seen before, have been seen too; a new
      file ends the list, and those listed with it stand in the order of its imports. */
  ghost predicate Finished(files: Files, path: Path, seen0: set<Path>, ordered0: seq<Path>, seen: set<Path>, ordered: seq<Path>) {
    && path in seen && seen0 <= seen && ordered0 <= ordered
    && (forall x :: x in seen <==> x in seen0 || ReachesOff(files, seen0, path, x))
    && (path !in seen0 ==>
          && path in files && ordered != [] && ordered[|ordered| - 1] == path
          && InBlocks(files, seen0 + {path}, files[path], ordered[|ordered0|..]))
  }

  lemma AlreadySeen(files: Files, path: Path, seen: set<Path>, ordered: seq<Path>)
    requires path in seen
    ensures Finished(files, path, seen, ordered, seen, ordered)
  {
  }

  lemma VisitEnds(files: Files, grey: set<Path>, path: Path, seen0: set<Path>, ordered0: seq<Path>, seen: set<Path>,
                  ordered: seq<Path>)
    requires Walking(files, grey, seen0, ordered0) && AllReach(files, grey, path) && path in files && path !in seen0
    requires Visiting(files, grey, path, seen0, ordered0, |files[path]|, seen, ordered)
    ensures Walking(files, grey, seen, ordered + [path])
    ensures Finished(files, path, seen0, ordered0, seen, ordered + [path])
  {
    ReachesSelf(files, path);
    assert files[path][..|files[path]|] == files[path];
    forall v | Imports(files, path, v) ensures v in seen {
      if v !in seen0 + {path} { OffSelf(files, seen0 + {path}, v); }
    }
    FinishFile(files, grey, seen, ordered, path);
    SeenFromPath(files, grey, seen0, seen, ordered + [path], path);
    forall k | 0 <= k <= |files[path]|
      ensures ComeFirst(files, seen0 + {path}, files[path][..k], (ordered + [path])[|ordered0|..])
    {
      StillFirst(files, seen0 + {path}, files[path][..k], ordered[|ordered0|..], (ordered + [path])[|ordered0|..]);
    }
  }

  class Closure {
    const files: Files
    var seen: set<Path>
    var ordered: seq<Path>

    constructor (files: Files)
      ensures this.files == files && seen == {} && ordered == []
    {
      this.files, seen, ordered := files, {}, [];
    }

    /** The nested visit. It fails only on a path that is not a file. */
    method Visit(path: Path, ghost grey: set<Path>) returns (ok: bool)
      requires Walking(files, grey, seen, ordered) && AllReach(files, grey, path)
      modifies this
      ensures ok <==> old(path in seen) || path in files
      ensures ok ==> Walking(files, grey, seen, ordered)
      ensures ok ==> Finished(files, path, old(seen), old(ordered), seen, ordered)
      decreases files.Keys - seen, 0
    {
      if path in seen {
        AlreadySeen(files, path, seen, ordered);
        return true;
      }
      seen := seen + {path};
      if path !in files { return false; }
      ghost var seen0, ordered0 := old(seen), old(ordered);
      OpenReaches(files, grey, path);
      VisitBegins(files, grey, path, seen0, ordered0);
      for i := 0 to |files[path]|
        invariant Visiting(files, grey, path, seen0, ordered0, i, seen, ordered)
        invariant seen0 < seen
      {
        VisitImport(path, i, grey, seen0, ordered0);
      }
      VisitEnds(files, grey, path, seen0, ordered0, seen, ordered);
      ordered := ordered + [path];
      ok := true;
    }

    /** One pass of its loop. */
    method VisitImport(path: Path, i: nat, ghost grey: set<Path>, ghost seen0: set<Path>, ghost ordered0: seq<Path>)
      requires path in files && i < |files[path]| && Visiting(files, grey, path, seen0, ordered0, i, seen, ordered)
      requires Walking(files, grey, seen0, ordered0) && path !in seen0 && AllReach(files, grey + {path}, path)
      modifies this
      ensures Visiting(files, grey, path, seen0, ordered0, i + 1, seen, ordered)
      ensures old(seen) <= seen
      decreases files.Keys - seen, 1
    {
      var dependency := files[path][i];
      ghost var before, listed := seen, ordered;
      if dependency in files {
        assert Imports(files, path, dependency);
        Descend(files, grey + {path}, path, dependency);
        var visited := Visit(dependency, grey + {path});
      }
      VisitAdds(files, grey, path, seen0, ordered0, i, before, listed, seen, ordered);
    }
  }

  lemma OpenReaches(files: Files, grey: set<Path>, path: Path)
    requires AllReach(files, grey, path)
    ensures AllReach(files, grey + {path}, path)
  {
    ReachesSelf(files, path);
  }

  lemma Descend(files: Files, open: set<Path>, path: Path, dependency: Path)
    requires AllReach(files, open, path) && Imports(files, path, dependency)
    ensures AllReach(files, open, dependency)
  {
    forall g | g in open ensures Reaches(files, g, dependency) { ReachesStep(files, g, path, dependency); }
  }

  /** The files reachable from the source, each once, ending with the source; an import listed
      after its importer leads back to it. None stands for dying on a missing source. */
  method LeanImportSourceClosure(files: Files, source: Path) returns (closure: Option<seq<Path>>)
    ensures closure.None? <==> source !in files
    ensures closure.Some? ==> Distinct(closure.value)
    ensures closure.Some? ==> forall x :: x in closure.value <==> Reaches(files, source, x)
    ensures closure.Some? ==> closure.value != [] && closure.value[|closure.value| - 1] == source
    ensures closure.Some? ==> forall i :: 0 <= i < |closure.value| ==> Placed(files, closure.value, i)
    ensures closure.Some? ==> InBlocks(files, {source}, files[source], closure.value)
    ensures closure.Some? ==>
      (DependencyFirst(files, closure.value) <==> forall u :: Reaches(files, source, u) ==> !OnCycle(files, u))
  {
    var c := new Closure(files);
    var ok := c.Visit(source, {});
    if !ok { return None; }
    ghost var cells := c.seen;
    assert {} + {source} == {source} && c.ordered[0..] == c.ordered;
    forall x | x in c.ordered ensures Reaches(files, source, x) { OffReaches(files, {}, source, x); }
    forall x | Reaches(files, source, x) ensures x in c.ordered {
      assert ClosedUnderImports(files, cells);
      ClosedHoldsReached(files, cells, source, x);
    }
    FirstIffAcyclic(files, c.ordered);
    closure := Some(c.ordered);
  }

  // ---------- Dependency-first exactly without cycles ----------

  lemma {:induction false} WalkGoesBack(files: Files, ordered: seq<Path>, walk: seq<Path>, i: nat, j: nat)
    requires Distinct(ordered) && DependencyFirst(files, ordered) && IsWalk(files, walk)
    requires i < |ordered| && j < |ordered| && walk[0] == ordered[i] && walk[|walk| - 1] == ordered[j]
    ensures j <= i
    decreases |walk|
  {
    if |walk| > 1 {
      assert Imports(files, walk[0], walk[1]);
      var k :| 0 <= k < i && ordered[k] == walk[1];
      assert IsWalk(files, walk[1..]);
      WalkGoesBack(files, ordered, walk[1..], k, j);
    }
  }

  lemma NoCycleWhenFirst(files: Files, ordered: seq<Path>, i: nat)
    requires Distinct(ordered) && DependencyFirst(files, ordered) && i < |ordered|
    ensures !OnCycle(files, ordered[i])
  {
    forall v | Imports(files, ordered[i], v) ensures !Reaches(files, v, ordered[i]) {
      var k :| 0 <= k < i && ordered[k] == v;
      forall walk | IsWalk(files, walk) && walk[0] == v ensures walk[|walk| - 1] != ordered[i] {
        if walk[|walk| - 1] == ordered[i] { WalkGoesBack(files, ordered, walk, k, i); }
      }
    }
  }

  lemma FirstIffAcyclic(files: Files, ordered: seq<Path>)
    requires Distinct(ordered) && forall i :: 0 <= i < |ordered| ==> Placed(files, ordered, i)
    ensures DependencyFirst(files, ordered) <==> forall u :: u in ordered ==> !OnCycle(files, u)
  {
    if DependencyFirst(files, ordered) {
      forall u | u in ordered ensures !OnCycle(files, u) {
        var i :| 0 <= i < |ordered| && ordered[i] == u;
        NoCycleWhenFirst(files, ordered, i);
      }
    } else {
      var i, v :| 0 <= i < |ordered| && Imports(files, ordered[i], v) && v !in ordered[..i];
      assert Placed(files, ordered, i);
      assert OnCycle(files, ordered[i]);
    }
  }

  /** Two files that import each other: the closure of A is B, A, and B imports the later A. */
  lemma ImportCycleOutOfOrder()
    ensures var files, ordered := map["A" := ["B"], "B" := ["A"]], ["B", "A"];
            && Distinct(ordered) && (forall x :: x in ordered <==> Reaches(files, "A", x))
            && (forall i :: 0 <= i < |ordered| ==> Placed(files, ordered, i))
            && !DependencyFirst(files, ordered)
  {
    var files: Files, ordered := map["A" := ["B"], "B" := ["A"]], ["B", "A"];
    assert Imports(files, "A", "B") && Imports(files, "B", "A");
    ReachesSelf(files, "A");
    ReachesSelf(files, "B");
    ReachesStep(files, "A", "A", "B");
    ReachesStep(files, "B", "B", "A");
    forall x | Reaches(files, "A", x) ensures x in ordered { ClosedHoldsReached(files, {"A", "B"}, "A", x); }
    assert ordered[0] == "B" && "A" !in ordered[..0];
  }
}
