/**
 * Queries over the dependency table: the direct dependents of a work, whether a work has
 * completed all its prerequisites, the outputs its prerequisites pass on, and the transitive
 * dependents that a failure reaches.
 */
module DependencyGraph {
  import opened WorkModel

  /** The works that name `id` as a prerequisite. */
  function DependentIds(deps: seq<Dependency>, id: string): (r: seq<string>)
    ensures forall x :: x in r <==> Dependency(x, id) in deps
    decreases |deps|
  {
    if deps == [] then []
    else (if deps[0].prerequisiteId == id then [deps[0].workSpecId] else []) + DependentIds(deps[1..], id)
  }

  /** Every prerequisite row of `id` points at a work that has SUCCEEDED. */
  predicate HasCompletedAllPrerequisites(specs: map<string, WorkSpec>, deps: seq<Dependency>, id: string)
  {
    forall i :: 0 <= i < |deps| && deps[i].workSpecId == id ==>
      deps[i].prerequisiteId in specs && specs[deps[i].prerequisiteId].state == Succeeded
  }

  /** The outputs of `id`'s prerequisites. */
  function InputsFromPrerequisites(specs: map<string, WorkSpec>, deps: seq<Dependency>, id: string): (r: seq<Data>)
    ensures forall o :: o in r <==>
      exists i :: 0 <= i < |deps| && deps[i].workSpecId == id && deps[i].prerequisiteId in specs
        && specs[deps[i].prerequisiteId].output == o
    decreases |deps|
  {
    if deps == [] then []
    else
      var tail := InputsFromPrerequisites(specs, deps[1..], id);
      var here := if deps[0].workSpecId == id && deps[0].prerequisiteId in specs
        then [specs[deps[0].prerequisiteId].output] else [];
      assert forall i :: 0 <= i < |deps| - 1 ==> deps[1..][i] == deps[i + 1];
      here + tail
  }

  /** A work with a single prerequisite row receives exactly that prerequisite's output. */
  lemma {:induction false} InputsFromSinglePrerequisite(specs: map<string, WorkSpec>, deps: seq<Dependency>, id: string, k: nat)
    requires k < |deps| && deps[k].workSpecId == id && deps[k].prerequisiteId in specs
    requires forall i :: 0 <= i < |deps| && i != k ==> deps[i].workSpecId != id
    ensures InputsFromPrerequisites(specs, deps, id) == [specs[deps[k].prerequisiteId].output]
    decreases |deps|
  {
    if k == 0 {
      NoInputsWithoutRows(specs, deps[1..], id);
    } else {
      InputsFromSinglePrerequisite(specs, deps[1..], id, k - 1);
    }
  }

  /** A work with exactly two prerequisite rows receives their outputs, in the order of the rows. */
  lemma {:induction false} InputsFromTwoPrerequisites(specs: map<string, WorkSpec>, deps: seq<Dependency>, id: string,
                                                      k1: nat, k2: nat)
    requires k1 < k2 < |deps| && deps[k1].workSpecId == id && deps[k2].workSpecId == id
    requires deps[k1].prerequisiteId in specs && deps[k2].prerequisiteId in specs
    requires forall i :: 0 <= i < |deps| && i != k1 && i != k2 ==> deps[i].workSpecId != id
    ensures InputsFromPrerequisites(specs, deps, id)
      == [specs[deps[k1].prerequisiteId].output, specs[deps[k2].prerequisiteId].output]
    decreases |deps|
  {
    if k1 == 0 {
      InputsFromSinglePrerequisite(specs, deps[1..], id, k2 - 1);
    } else {
      InputsFromTwoPrerequisites(specs, deps[1..], id, k1 - 1, k2 - 1);
    }
  }

  lemma {:induction false} NoInputsWithoutRows(specs: map<string, WorkSpec>, deps: seq<Dependency>, id: string)
    requires forall i :: 0 <= i < |deps| ==> deps[i].workSpecId != id
    ensures InputsFromPrerequisites(specs, deps, id) == []
    decreases |deps|
  {
    if deps != [] {
      NoInputsWithoutRows(specs, deps[1..], id);
    }
  }

  /**
   * `p` walks from a work to its dependents: each next element names the previous one as a
   * prerequisite.
   */
  ghost predicate IsDependencyPath(deps: seq<Dependency>, p: seq<string>)
  {
    |p| > 0 && forall i :: 0 <= i < |p| - 1 ==> Dependency(p[i + 1], p[i]) in deps
  }

  /** `x` is `root` or one of its transitive dependents. */
  ghost predicate Reaches(deps: seq<Dependency>, root: string, x: string)
  {
    exists p :: IsDependencyPath(deps, p) && p[0] == root && p[|p| - 1] == x
  }

  lemma ExtendPath(deps: seq<Dependency>, p: seq<string>, d: string)
    requires IsDependencyPath(deps, p) && Dependency(d, p[|p| - 1]) in deps
    ensures IsDependencyPath(deps, p + [d])
  {
    var q := p + [d];
    forall i | 0 <= i < |q| - 1 ensures Dependency(q[i + 1], q[i]) in deps {
      if i < |p| - 1 {
        assert q[i + 1] == p[i + 1] && q[i] == p[i];
      }
    }
  }

  /** A set closed under "is a dependent of" that holds a path's start holds its end. */
  lemma {:induction false} ClosedSetContainsPath(deps: seq<Dependency>, s: set<string>, p: seq<string>)
    requires IsDependencyPath(deps, p) && p[0] in s
    requires forall i :: 0 <= i < |deps| && deps[i].prerequisiteId in s ==> deps[i].workSpecId in s
    ensures p[|p| - 1] in s
    decreases |p|
  {
    if |p| > 1 {
      var q := p[..|p| - 1];
      assert IsDependencyPath(deps, q) by {
        forall i | 0 <= i < |q| - 1 ensures Dependency(q[i + 1], q[i]) in deps {
          assert q[i + 1] == p[i + 1] && q[i] == p[i];
        }
      }
      ClosedSetContainsPath(deps, s, q);
      assert Dependency(p[|p| - 1], p[|p| - 2]) in deps;
      var i :| 0 <= i < |deps| && deps[i] == Dependency(p[|p| - 1], p[|p| - 2]);
    }
  }

  lemma ProperSubsetSmaller<T>(a: set<T>, b: set<T>)
    requires a < b
    ensures |a| < |b|
  {
    assert !(b <= a);
    var x :| x in b && x !in a;
    SubsetNoLarger(a, b - {x});
  }

  lemma {:induction false} SubsetNoLarger<T>(a: set<T>, b: set<T>)
    requires a <= b
    ensures |a| <= |b|
    decreases |a|
  {
    if a != {} {
      var x :| x in a;
      SubsetNoLarger(a - {x}, b - {x});
    }
  }

  /** `via` holds, for every work in `visited`, a dependency path from `root` to it. */
  ghost predicate PathsFrom(deps: seq<Dependency>, root: string, visited: set<string>, via: map<string, seq<string>>)
  {
    forall x :: x in visited ==>
      x in via && IsDependencyPath(deps, via[x]) && via[x][0] == root && via[x][|via[x]| - 1] == x
  }

  /** The works any dependency row names as a dependent, plus `root`. */
  ghost function Universe(deps: seq<Dependency>, root: string): set<string>
  {
    {root} + set i | 0 <= i < |deps| :: deps[i].workSpecId
  }

  /** Every element of `xs` is in `s`. */
  predicate AllIn(xs: seq<string>, s: set<string>)
  {
    forall x :: x in xs ==> x in s
  }

  /** One step of the walk: mark every not yet visited dependent of `w` and queue it. */
  method VisitDependents(deps: seq<Dependency>, ghost root: string, w: string, visited: set<string>, worklist: seq<string>,
                         ghost via: map<string, seq<string>>)
    returns (visited': set<string>, worklist': seq<string>, ghost via': map<string, seq<string>>)
    requires w in visited && visited <= Universe(deps, root) && PathsFrom(deps, root, visited, via)
    requires AllIn(worklist, visited)
    ensures AllIn(worklist', visited')
    ensures visited <= visited' <= Universe(deps, root) && PathsFrom(deps, root, visited', via')
    ensures visited' == visited ==> worklist' == worklist
    ensures forall x :: x in worklist ==> x in worklist'
    ensures forall x :: x in visited' && x !in visited ==> x in worklist'
    ensures forall i :: 0 <= i < |deps| && deps[i].prerequisiteId == w ==> deps[i].workSpecId in visited'
  {
    visited', worklist', via' := visited, worklist, via;
    var j := 0;
    while j < |deps|
      invariant 0 <= j <= |deps|
      invariant visited <= visited' <= Universe(deps, root) && PathsFrom(deps, root, visited', via')
      invariant visited' == visited ==> worklist' == worklist
      invariant forall x :: x in worklist ==> x in worklist'
      invariant forall x :: x in worklist' ==> x in visited'
      invariant forall x :: x in visited' && x !in visited ==> x in worklist'
      invariant forall i :: 0 <= i < j && deps[i].prerequisiteId == w ==> deps[i].workSpecId in visited'
    {
      var d := deps[j].workSpecId;
      if deps[j].prerequisiteId == w && d !in visited' {
        assert deps[j] == Dependency(d, w) && deps[j] in deps;
        ExtendPath(deps, via'[w], d);
        via' := via'[d := via'[w] + [d]];
        visited' := visited' + {d};
        worklist' := worklist' + [d];
      }
      j := j + 1;
    }
  }

  /**
   * The work `root` and all its transitive dependents, found by a worklist walk that visits each
   * work at most once, so it terminates on diamond-shaped and cyclic tables alike.
   */
  method TransitiveDependents(deps: seq<Dependency>, root: string) returns (reached: set<string>)
    ensures forall x :: x in reached <==> Reaches(deps, root, x)
  {
    var visited: set<string> := {root};
    var worklist: seq<string> := [root];
    ghost var via: map<string, seq<string>> := map[root := [root]];
    while worklist != []
      invariant root in visited && visited <= Universe(deps, root) && PathsFrom(deps, root, visited, via)
      invariant AllIn(worklist, visited)
      invariant ClosedBeyond(deps, visited, worklist)
      decreases |Universe(deps, root) - visited|, |worklist|
    {
      visited, worklist, via := WalkStep(deps, root, visited, worklist, via);
    }
    reached := visited;
    WalkFindsExactlyReached(deps, root, visited, via);
  }

  /** One step of the walk: take the first work off the worklist and visit its dependents. */
  method WalkStep(deps: seq<Dependency>, ghost root: string, visited: set<string>, worklist: seq<string>,
                  ghost via: map<string, seq<string>>)
    returns (visited': set<string>, worklist': seq<string>, ghost via': map<string, seq<string>>)
    requires worklist != []
    requires root in visited && visited <= Universe(deps, root) && PathsFrom(deps, root, visited, via)
    requires AllIn(worklist, visited) && ClosedBeyond(deps, visited, worklist)
    ensures root in visited' && visited' <= Universe(deps, root) && PathsFrom(deps, root, visited', via')
    ensures AllIn(worklist', visited') && ClosedBeyond(deps, visited', worklist')
    ensures |Universe(deps, root) - visited'| < |Universe(deps, root) - visited|
      || (visited' == visited && |worklist'| < |worklist|)
  {
    var w := worklist[0];
    var rest := worklist[1..];
    assert worklist == [w] + rest;
    visited', worklist', via' := VisitDependents(deps, root, w, visited, rest, via);
    ClosedAfterVisit(deps, w, rest, visited, visited', worklist');
    if visited' != visited {
      ProperSubsetSmaller(Universe(deps, root) - visited', Universe(deps, root) - visited);
    }
  }

  /** Every dependent of a visited work that has left the worklist is visited too. */
  ghost predicate ClosedBeyond(deps: seq<Dependency>, visited: set<string>, worklist: seq<string>)
  {
    forall i :: 0 <= i < |deps| && deps[i].prerequisiteId in visited && deps[i].prerequisiteId !in worklist ==>
      deps[i].workSpecId in visited
  }

  /** Taking `w` off the worklist and visiting its dependents keeps the walk closed beyond the worklist. */
  lemma ClosedAfterVisit(deps: seq<Dependency>, w: string, rest: seq<string>, visited0: set<string>,
                         visited: set<string>, worklist: seq<string>)
    requires ClosedBeyond(deps, visited0, [w] + rest) && visited0 <= visited
    requires forall x :: x in rest ==> x in worklist
    requires forall x :: x in visited && x !in visited0 ==> x in worklist
    requires forall i :: 0 <= i < |deps| && deps[i].prerequisiteId == w ==> deps[i].workSpecId in visited
    ensures ClosedBeyond(deps, visited, worklist)
  {
    forall i | 0 <= i < |deps| && deps[i].prerequisiteId in visited && deps[i].prerequisiteId !in worklist
      ensures deps[i].workSpecId in visited
    {
      var p := deps[i].prerequisiteId;
      if p != w {
        assert p in visited0 && p !in [w] + rest;
      }
    }
  }

  /** A closed set of works, each with a path from `root`, is exactly what `root` reaches. */
  lemma WalkFindsExactlyReached(deps: seq<Dependency>, root: string, visited: set<string>, via: map<string, seq<string>>)
    requires root in visited && PathsFrom(deps, root, visited, via)
    requires forall i :: 0 <= i < |deps| && deps[i].prerequisiteId in visited ==> deps[i].workSpecId in visited
    ensures forall x :: x in visited <==> Reaches(deps, root, x)
  {
    forall x ensures x in visited <==> Reaches(deps, root, x) {
      if x in visited {
        assert IsDependencyPath(deps, via[x]);
      }
      if Reaches(deps, root, x) {
        var p :| IsDependencyPath(deps, p) && p[0] == root && p[|p| - 1] == x;
        ClosedSetContainsPath(deps, visited, p);
      }
    }
  }
}
