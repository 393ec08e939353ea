/**
 * The search at the heart of `CommitGraph._filter`: from one interesting
 * commit, walk the parent edges, record every interesting commit met and do
 * not walk past it, and keep walking past uninteresting ones.
 */
module Reachability {
  import opened Wrappers
  import opened Graphs

  function Last(path: seq<Sha>): Sha
    requires |path| > 0
  {
    path[|path| - 1]
  }

  /** The search may go from `x` to `y`: `x` is uninteresting and lists `y` as a parent. */
  ghost predicate Step(parents: ParentMap, interesting: set<Sha>, x: Sha, y: Sha)
  {
    x !in interesting && x in parents && y in parents[x]
  }

  /**
   * `path` is a walk the search from `start` can take: it begins at a parent of
   * `start` and every commit it passes through, all but the last, is uninteresting.
   */
  ghost predicate IsSearchPath(parents: ParentMap, interesting: set<Sha>, start: Sha, path: seq<Sha>)
  {
    && |path| > 0
    && start in parents && path[0] in parents[start]
    && forall k :: 0 <= k < |path| - 1 ==> Step(parents, interesting, path[k], path[k + 1])
  }

  ghost predicate Reaches(parents: ParentMap, interesting: set<Sha>, start: Sha, j: Sha)
  {
    exists path :: IsSearchPath(parents, interesting, start, path) && Last(path) == j
  }

  /**
   * The nearest interesting ancestors of `start`: the interesting commits the
   * search reaches through uninteresting commits only.
   */
  ghost function Nearest(parents: ParentMap, interesting: set<Sha>, start: Sha): set<Sha>
  {
    set j | j in Listed(parents) && j in interesting && Reaches(parents, interesting, start, j)
  }

  /**
   * The search from `start` never meets an uninteresting commit that is not a key
   * of the parent map (the source would raise `KeyError` looking up its parents).
   */
  ghost predicate NoMissingParent(parents: ParentMap, interesting: set<Sha>, start: Sha)
  {
    forall j :: Reaches(parents, interesting, start, j) && j !in interesting ==> j in parents
  }

  lemma SearchPathListed(parents: ParentMap, interesting: set<Sha>, start: Sha, path: seq<Sha>)
    requires IsSearchPath(parents, interesting, start, path)
    ensures Last(path) in Listed(parents)
  {
    if |path| == 1 {
      assert path[0] in parents[start];
    } else {
      assert Step(parents, interesting, path[|path| - 2], path[|path| - 1]);
    }
  }

  lemma ExtendSearchPath(parents: ParentMap, interesting: set<Sha>, start: Sha, path: seq<Sha>, p: Sha)
    requires IsSearchPath(parents, interesting, start, path)
    requires Step(parents, interesting, Last(path), p)
    ensures IsSearchPath(parents, interesting, start, path + [p])
  {
    var path' := path + [p];
    forall k | 0 <= k < |path'| - 1 ensures Step(parents, interesting, path'[k], path'[k + 1]) {
      if k < |path| - 1 {
        assert path'[k] == path[k] && path'[k + 1] == path[k + 1];
      }
    }
  }

  /**
   * A set that holds the parents of `start` and, with every uninteresting commit,
   * its parents, holds every commit a search path passes through.
   */
  lemma {:induction false} ClosedSetHoldsSearchPaths(parents: ParentMap, interesting: set<Sha>, start: Sha,
                                                    closed: set<Sha>, path: seq<Sha>)
    requires start in parents ==> Elems(parents[start]) <= closed
    requires forall x :: x in closed && x !in interesting ==> x in parents && Elems(parents[x]) <= closed
    requires IsSearchPath(parents, interesting, start, path)
    ensures Last(path) in closed
  {
    if |path| == 1 {
      assert path[0] in Elems(parents[start]);
    } else {
      var prefix := path[..|path| - 1];
      assert IsSearchPath(parents, interesting, start, prefix) by {
        forall k | 0 <= k < |prefix| - 1 ensures Step(parents, interesting, prefix[k], prefix[k + 1]) {
          assert Step(parents, interesting, path[k], path[k + 1]);
        }
      }
      ClosedSetHoldsSearchPaths(parents, interesting, start, closed, prefix);
      assert Step(parents, interesting, path[|path| - 2], path[|path| - 1]);
      assert Last(path) in Elems(parents[Last(prefix)]);
    }
  }

  /** Each entry of `toVisit` comes with a search path from `start` that ends at it. */
  ghost predicate Witnessed(parents: ParentMap, interesting: set<Sha>, start: Sha,
                            toVisit: seq<Sha>, witnesses: seq<seq<Sha>>)
  {
    && |witnesses| == |toVisit|
    && forall k :: 0 <= k < |toVisit| ==>
         IsSearchPath(parents, interesting, start, witnesses[k]) && Last(witnesses[k]) == toVisit[k]
  }

  /** Every uninteresting commit of `seen` has its parents in `pending`. */
  ghost predicate ClosedUnder(parents: ParentMap, interesting: set<Sha>, seen: set<Sha>, pending: set<Sha>)
  {
    forall x :: x in seen && x !in interesting ==> x in parents && Elems(parents[x]) <= pending
  }

  lemma ElemsAppend(a: seq<Sha>, b: seq<Sha>)
    ensures Elems(a + b) == Elems(a) + Elems(b)
  {
  }

  lemma WitnessExpansion(parents: ParentMap, interesting: set<Sha>, start: Sha,
                         toVisit: seq<Sha>, witnesses: seq<seq<Sha>>, i: nat)
    requires Witnessed(parents, interesting, start, toVisit, witnesses)
    requires i < |toVisit| && toVisit[i] !in interesting && toVisit[i] in parents
    ensures Witnessed(parents, interesting, start, toVisit + parents[toVisit[i]],
                      witnesses + seq(|parents[toVisit[i]]|, m requires 0 <= m < |parents[toVisit[i]]| =>
                                        witnesses[i] + [parents[toVisit[i]][m]]))
  {
    var ps := parents[toVisit[i]];
    var ext := seq(|ps|, m requires 0 <= m < |ps| => witnesses[i] + [ps[m]]);
    var toVisit', witnesses' := toVisit + ps, witnesses + ext;
    forall k | 0 <= k < |toVisit'|
      ensures IsSearchPath(parents, interesting, start, witnesses'[k]) && Last(witnesses'[k]) == toVisit'[k]
    {
      if k >= |toVisit| {
        var m := k - |toVisit|;
        assert witnesses'[k] == witnesses[i] + [ps[m]];
        ExtendSearchPath(parents, interesting, start, witnesses[i], ps[m]);
      }
    }
  }

  /** When the worklist is exhausted, the interesting commits seen are the nearest interesting ancestors. */
  lemma SearchComplete(parents: ParentMap, interesting: set<Sha>, start: Sha,
                       toVisit: seq<Sha>, witnesses: seq<seq<Sha>>, seen: set<Sha>)
    requires Witnessed(parents, interesting, start, toVisit, witnesses)
    requires start in parents ==> Elems(parents[start]) <= Elems(toVisit)
    requires seen == Elems(toVisit)
    requires ClosedUnder(parents, interesting, seen, seen)
    ensures NoMissingParent(parents, interesting, start)
    ensures seen * interesting == Nearest(parents, interesting, start)
  {
    forall x | Reaches(parents, interesting, start, x) ensures x in seen {
      var path :| IsSearchPath(parents, interesting, start, path) && Last(path) == x;
      ClosedSetHoldsSearchPaths(parents, interesting, start, seen, path);
    }
    forall x | x in seen ensures Reaches(parents, interesting, start, x) && x in Listed(parents) {
      var k :| 0 <= k < |toVisit| && toVisit[k] == x;
      SearchPathListed(parents, interesting, start, witnesses[k]);
    }
  }

  /** The loop invariant of the search after `i` entries of `toVisit` have been handled. */
  ghost predicate SearchInvariant(parents: ParentMap, interesting: set<Sha>, start: Sha, toVisit: seq<Sha>,
                                  witnesses: seq<seq<Sha>>, i: int, seen: set<Sha>, found: set<Sha>)
  {
    && 0 <= i <= |toVisit|
    && Witnessed(parents, interesting, start, toVisit, witnesses)
    && (start in parents ==> Elems(parents[start]) <= Elems(toVisit))
    && seen == Elems(toVisit[..i]) && seen <= Listed(parents)
    && found == seen * interesting
    && ClosedUnder(parents, interesting, seen, Elems(toVisit))
  }

  lemma SearchStart(parents: ParentMap, interesting: set<Sha>, start: Sha, toVisit: seq<Sha>)
    requires toVisit == if start in parents then parents[start] else []
    ensures SearchInvariant(parents, interesting, start, toVisit,
                            seq(|toVisit|, m requires 0 <= m < |toVisit| => [toVisit[m]]), 0, {}, {})
  {
  }

  /** Meeting a commit that was seen before changes nothing but the position. */
  lemma SearchSkip(parents: ParentMap, interesting: set<Sha>, start: Sha, toVisit: seq<Sha>,
                   witnesses: seq<seq<Sha>>, i: int, seen: set<Sha>, found: set<Sha>)
    requires SearchInvariant(parents, interesting, start, toVisit, witnesses, i, seen, found)
    requires i < |toVisit| && toVisit[i] in seen
    ensures SearchInvariant(parents, interesting, start, toVisit, witnesses, i + 1, seen, found)
  {
    assert toVisit[..i + 1] == toVisit[..i] + [toVisit[i]];
    ElemsAppend(toVisit[..i], [toVisit[i]]);
  }

  /** Meeting an interesting commit for the first time records it and does not expand it. */
  lemma SearchRecord(parents: ParentMap, interesting: set<Sha>, start: Sha, toVisit: seq<Sha>,
                     witnesses: seq<seq<Sha>>, i: int, seen: set<Sha>, found: set<Sha>)
    requires SearchInvariant(parents, interesting, start, toVisit, witnesses, i, seen, found)
    requires i < |toVisit| && toVisit[i] !in seen && toVisit[i] in interesting
    ensures SearchInvariant(parents, interesting, start, toVisit, witnesses, i + 1,
                            seen + {toVisit[i]}, found + {toVisit[i]})
  {
    assert toVisit[..i + 1] == toVisit[..i] + [toVisit[i]];
    ElemsAppend(toVisit[..i], [toVisit[i]]);
    SearchPathListed(parents, interesting, start, witnesses[i]);
  }

  /** Meeting an uninteresting commit for the first time queues all of its parents. */
  lemma SearchExpand(parents: ParentMap, interesting: set<Sha>, start: Sha, toVisit: seq<Sha>,
                     witnesses: seq<seq<Sha>>, i: int, seen: set<Sha>, found: set<Sha>)
    requires SearchInvariant(parents, interesting, start, toVisit, witnesses, i, seen, found)
    requires i < |toVisit| && toVisit[i] !in seen && toVisit[i] !in interesting && toVisit[i] in parents
    ensures SearchInvariant(parents, interesting, start, toVisit + parents[toVisit[i]],
                            witnesses + seq(|parents[toVisit[i]]|, m requires 0 <= m < |parents[toVisit[i]]| =>
                                              witnesses[i] + [parents[toVisit[i]][m]]),
                            i + 1, seen + {toVisit[i]}, found)
  {
    var j, ps := toVisit[i], parents[toVisit[i]];
    assert toVisit[..i + 1] == toVisit[..i] + [j];
    ElemsAppend(toVisit[..i], [j]);
    ElemsAppend(toVisit, ps);
    assert (toVisit + ps)[..i + 1] == toVisit[..i + 1];
    SearchPathListed(parents, interesting, start, witnesses[i]);
    WitnessExpansion(parents, interesting, start, toVisit, witnesses, i);
  }

  /**
   * The worklist loop of `_filter` for one interesting commit: `toVisit` grows
   * while it is walked, `seen` keeps every commit from being expanded twice.
   * The result is exactly the nearest interesting ancestors, or the `KeyError`
   * of an uninteresting commit the search reaches that has no parent entry.
   */
  method Search(parents: ParentMap, interesting: set<Sha>, start: Sha) returns (r: Outcome<set<Sha>>)
    ensures r.Ok? <==> NoMissingParent(parents, interesting, start)
    ensures r.Ok? ==> r.value == Nearest(parents, interesting, start)
    ensures r.KeyError? ==>
              r.key !in interesting && r.key !in parents && Reaches(parents, interesting, start, r.key)
  {
    var toVisit: seq<Sha> := if start in parents then parents[start] else [];
    ghost var witnesses: seq<seq<Sha>> := seq(|toVisit|, m requires 0 <= m < |toVisit| => [toVisit[m]]);
    var seen: set<Sha> := {};
    var found: set<Sha> := {};
    var i := 0;
    SearchStart(parents, interesting, start, toVisit);
    while i < |toVisit|
      invariant SearchInvariant(parents, interesting, start, toVisit, witnesses, i, seen, found)
      decreases Listed(parents) - seen, |toVisit| - i
    {
      var j := toVisit[i];
      if j in seen {
        SearchSkip(parents, interesting, start, toVisit, witnesses, i, seen, found);
      } else if j in interesting {
        SearchRecord(parents, interesting, start, toVisit, witnesses, i, seen, found);
        seen, found := seen + {j}, found + {j};
      } else {
        if j !in parents {
          assert IsSearchPath(parents, interesting, start, witnesses[i]) && Last(witnesses[i]) == j;
          return KeyError(j);
        }
        SearchExpand(parents, interesting, start, toVisit, witnesses, i, seen, found);
        var ps := parents[j];
        witnesses := witnesses + seq(|ps|, m requires 0 <= m < |ps| => witnesses[i] + [ps[m]]);
        toVisit := toVisit + ps;
        seen := seen + {j};
      }
      i := i + 1;
    }
    assert toVisit[..i] == toVisit;
    SearchComplete(parents, interesting, start, toVisit, witnesses, seen);
    r := Ok(found);
  }

  /**
   * Every entry of `filtered` lists, without repetitions, exactly the nearest
   * interesting ancestors of its commit, found without a missing key.
   */
  ghost predicate FilteredEntries(parents: ParentMap, interesting: set<Sha>, filtered: ParentMap)
  {
    forall c :: c in filtered ==>
      && Elems(filtered[c]) == Nearest(parents, interesting, c)
      && NoDuplicates(filtered[c])
      && NoMissingParent(parents, interesting, c)
  }

  lemma FilteredEntriesAdd(parents: ParentMap, interesting: set<Sha>, filtered: ParentMap, c: Sha, ps: seq<Sha>)
    requires FilteredEntries(parents, interesting, filtered)
    requires Elems(ps) == Nearest(parents, interesting, c) && NoDuplicates(ps)
    requires NoMissingParent(parents, interesting, c)
    ensures FilteredEntries(parents, interesting, filtered[c := ps])
  {
  }

  /**
   * A commit without parents, or absent from the parent map (a tag on a
   * non-commit object), has no interesting ancestors and raises no error.
   */
  lemma NoParentsNoAncestors(parents: ParentMap, interesting: set<Sha>, c: Sha)
    requires c !in parents || parents[c] == []
    ensures Nearest(parents, interesting, c) == {}
    ensures NoMissingParent(parents, interesting, c)
  {
  }

  /**
   * When every listed parent is interesting, the search stops at the direct
   * parents: filtering then leaves each commit's parents as they were.
   */
  lemma {:induction false} AllInterestingKeepsParents(parents: ParentMap, interesting: set<Sha>, c: Sha)
    requires Listed(parents) <= interesting
    requires c in parents
    ensures Nearest(parents, interesting, c) == Elems(parents[c])
    ensures NoMissingParent(parents, interesting, c)
  {
    forall j | Reaches(parents, interesting, c, j) ensures j in parents[c] && j in interesting {
      var path :| IsSearchPath(parents, interesting, c, path) && Last(path) == j;
      assert path[0] in Listed(parents);
      assert |path| > 1 ==> Step(parents, interesting, path[0], path[1]);
    }
    forall j | j in parents[c] ensures j in Nearest(parents, interesting, c) {
      assert IsSearchPath(parents, interesting, c, [j]);
      assert j in Listed(parents);
    }
  }

  /**
   * The chain a -> b -> c -> d, with only a and d interesting, collapses to the
   * single edge a -> d: d is the only nearest interesting ancestor of a, and d has none.
   */
  lemma ChainCollapses()
    ensures Nearest(map["a" := ["b"], "b" := ["c"], "c" := ["d"], "d" := []], {"a", "d"}, "a") == {"d"}
    ensures Nearest(map["a" := ["b"], "b" := ["c"], "c" := ["d"], "d" := []], {"a", "d"}, "d") == {}
    ensures NoMissingParent(map["a" := ["b"], "b" := ["c"], "c" := ["d"], "d" := []], {"a", "d"}, "a")
  {
    var parents: ParentMap := map["a" := ["b"], "b" := ["c"], "c" := ["d"], "d" := []];
    var interesting := {"a", "d"};
    assert IsSearchPath(parents, interesting, "a", ["b", "c", "d"]);
    assert "d" in Listed(parents) by {
      assert "c" in parents && "d" in parents["c"];
    }
    forall j | j in Listed(parents) ensures j in {"b", "c", "d"} {
      var x, y :| x in parents && y in parents[x] && y == j;
    }
    NoParentsNoAncestors(parents, interesting, "d");
    forall j | Reaches(parents, interesting, "a", j) && j !in interesting ensures j in parents {
      var path :| IsSearchPath(parents, interesting, "a", path) && Last(path) == j;
      assert Last(path) in Listed(parents) by {
        SearchPathListed(parents, interesting, "a", path);
      }
    }
  }

  /** `y` is listed as a parent of `x`. */
  ghost predicate ParentEdge(parents: ParentMap, x: Sha, y: Sha)
  {
    x in parents && y in parents[x]
  }

  /** `path` follows parent edges back from `c`, through any commits. */
  ghost predicate IsAncestorPath(parents: ParentMap, c: Sha, path: seq<Sha>)
  {
    && |path| > 0 && ParentEdge(parents, c, path[0])
    && forall k :: 0 <= k < |path| - 1 ==> ParentEdge(parents, path[k], path[k + 1])
  }

  /** The parent relation of the filtered graph: each interesting commit to its nearest interesting ancestors. */
  ghost function FilteredParents(parents: ParentMap, interesting: set<Sha>): map<Sha, set<Sha>>
  {
    map c | c in interesting :: Nearest(parents, interesting, c)
  }

  /** `path` follows edges back from `c` in a graph whose parents are sets. */
  ghost predicate IsFilteredPath(filtered: map<Sha, set<Sha>>, c: Sha, path: seq<Sha>)
  {
    && |path| > 0 && c in filtered && path[0] in filtered[c]
    && forall k :: 0 <= k < |path| - 1 ==> path[k] in filtered && path[k + 1] in filtered[path[k]]
  }

  /** The first interesting commit on an ancestor path ends a search path. */
  lemma FirstInteresting(parents: ParentMap, interesting: set<Sha>, c: Sha, path: seq<Sha>)
    returns (m: nat)
    requires IsAncestorPath(parents, c, path) && Last(path) in interesting
    ensures m < |path| && path[m] in interesting
    ensures IsSearchPath(parents, interesting, c, path[..m + 1])
  {
    m := 0;
    while path[m] !in interesting
      invariant m < |path|
      invariant forall k :: 0 <= k < m ==> path[k] !in interesting
      decreases |path| - m
    {
      m := m + 1;
    }
    var prefix := path[..m + 1];
    forall k | 0 <= k < |prefix| - 1 ensures Step(parents, interesting, prefix[k], prefix[k + 1]) {
      assert ParentEdge(parents, path[k], path[k + 1]);
    }
  }

  /**
   * Filtering keeps the ancestor order among interesting commits: an interesting
   * ancestor of an interesting commit is also its ancestor in the filtered graph.
   */
  lemma {:induction false} AncestryPreserved(parents: ParentMap, interesting: set<Sha>, c: Sha, path: seq<Sha>)
    returns (filteredPath: seq<Sha>)
    requires c in interesting
    requires IsAncestorPath(parents, c, path) && Last(path) in interesting
    ensures IsFilteredPath(FilteredParents(parents, interesting), c, filteredPath)
    ensures Last(filteredPath) == Last(path)
    decreases |path|
  {
    var filtered := FilteredParents(parents, interesting);
    var m := FirstInteresting(parents, interesting, c, path);
    var j := path[m];
    SearchPathListed(parents, interesting, c, path[..m + 1]);
    assert j in filtered[c];
    if m == |path| - 1 {
      filteredPath := [j];
    } else {
      var rest := path[m + 1..];
      assert ParentEdge(parents, path[m], path[m + 1]);
      assert IsAncestorPath(parents, j, rest) by {
        forall k | 0 <= k < |rest| - 1 ensures ParentEdge(parents, rest[k], rest[k + 1]) {
          assert ParentEdge(parents, path[m + 1 + k], path[m + 1 + k + 1]);
        }
      }
      var tail := AncestryPreserved(parents, interesting, j, rest);
      filteredPath := [j] + tail;
      forall k | 0 <= k < |filteredPath| - 1
        ensures filteredPath[k] in filtered && filteredPath[k + 1] in filtered[filteredPath[k]]
      {
        if k > 0 {
          assert filteredPath[k] == tail[k - 1] && filteredPath[k + 1] == tail[k];
        }
      }
    }
  }

  lemma AncestorPathConcat(parents: ParentMap, c: Sha, a: seq<Sha>, b: seq<Sha>)
    requires IsAncestorPath(parents, c, a) && IsAncestorPath(parents, Last(a), b)
    ensures IsAncestorPath(parents, c, a + b)
  {
    var ab := a + b;
    forall k | 0 <= k < |ab| - 1 ensures ParentEdge(parents, ab[k], ab[k + 1]) {
      if k < |a| - 1 {
        assert ParentEdge(parents, a[k], a[k + 1]);
      } else if k >= |a| {
        assert ParentEdge(parents, b[k - |a|], b[k - |a| + 1]);
      }
    }
  }

  /** Conversely, every edge of the filtered graph stands for real ancestry in the parent map. */
  lemma {:induction false} FilteredAncestryIsReal(parents: ParentMap, interesting: set<Sha>, c: Sha,
                                                 filteredPath: seq<Sha>)
    returns (path: seq<Sha>)
    requires IsFilteredPath(FilteredParents(parents, interesting), c, filteredPath)
    ensures IsAncestorPath(parents, c, path)
    ensures Last(path) == Last(filteredPath)
    decreases |filteredPath|
  {
    var j := filteredPath[0];
    assert Reaches(parents, interesting, c, j);
    var w :| IsSearchPath(parents, interesting, c, w) && Last(w) == j;
    assert IsAncestorPath(parents, c, w) by {
      forall k | 0 <= k < |w| - 1 ensures ParentEdge(parents, w[k], w[k + 1]) {
        assert Step(parents, interesting, w[k], w[k + 1]);
      }
    }
    if |filteredPath| == 1 {
      path := w;
    } else {
      var rest := filteredPath[1..];
      assert IsFilteredPath(FilteredParents(parents, interesting), j, rest) by {
        forall k | 0 <= k < |rest| - 1
          ensures rest[k] in FilteredParents(parents, interesting)
          ensures rest[k + 1] in FilteredParents(parents, interesting)[rest[k]]
        {
          assert rest[k] == filteredPath[k + 1] && rest[k + 1] == filteredPath[k + 2];
        }
      }
      var tail := FilteredAncestryIsReal(parents, interesting, j, rest);
      AncestorPathConcat(parents, c, w, tail);
      path := w + tail;
    }
  }

  /** No commit is its own ancestor: the parent map describes a directed acyclic graph. */
  ghost predicate Acyclic(parents: ParentMap)
  {
    forall c, path :: IsAncestorPath(parents, c, path) ==> Last(path) != c
  }

  /** Every parent the filter gives a commit is interesting, hence a key of the filtered graph. */
  lemma NearestInteresting(parents: ParentMap, interesting: set<Sha>, c: Sha)
    ensures Nearest(parents, interesting, c) <= interesting
  {
  }

  /** In a DAG the filter never makes a commit its own parent: no edge line joins a commit to itself. */
  lemma NoSelfLoop(parents: ParentMap, interesting: set<Sha>, c: Sha)
    requires Acyclic(parents)
    ensures c !in Nearest(parents, interesting, c)
  {
    if c in Nearest(parents, interesting, c) {
      var w :| IsSearchPath(parents, interesting, c, w) && Last(w) == c;
      assert IsAncestorPath(parents, c, w) by {
        forall k | 0 <= k < |w| - 1 ensures ParentEdge(parents, w[k], w[k + 1]) {
          assert Step(parents, interesting, w[k], w[k + 1]);
        }
      }
      assert false;
    }
  }

  /** Filtering a DAG gives a DAG: no path of the filtered graph leads back to where it started. */
  lemma FilteredAcyclic(parents: ParentMap, interesting: set<Sha>, c: Sha, filteredPath: seq<Sha>)
    requires Acyclic(parents)
    requires IsFilteredPath(FilteredParents(parents, interesting), c, filteredPath)
    ensures Last(filteredPath) != c
  {
    var path := FilteredAncestryIsReal(parents, interesting, c, filteredPath);
  }
}
