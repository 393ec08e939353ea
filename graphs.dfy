/**
 * The commit graph's two maps as values: the parent map as the loader hands it
 * over, the child map that `CommitGraph` derives from it, and the consistency
 * check that relates the two.
 */
module Graphs {

  /** A commit id (a SHA-1 in hex in practice; the model treats it as an opaque string). */
  type Sha = string

  /** Commit to its parents, in the order the loader gives them. */
  type ParentMap = map<Sha, seq<Sha>>

  /** Commit to the set of its children. */
  type ChildMap = map<Sha, set<Sha>>

  function Elems(xs: seq<Sha>): set<Sha>
  {
    set x | x in xs
  }

  ghost predicate NoDuplicates(xs: seq<Sha>)
  {
    forall i, j :: 0 <= i < j < |xs| ==> xs[i] != xs[j]
  }

  /** Every id listed as a parent of some commit of `done`. */
  ghost function ListedIn(parents: ParentMap, done: set<Sha>): set<Sha>
  {
    set c, p | c in done && c in parents && p in parents[c] :: p
  }

  /** Every id listed as a parent anywhere in the map. */
  ghost function Listed(parents: ParentMap): set<Sha>
  {
    ListedIn(parents, parents.Keys)
  }

  lemma ListedInAdd(parents: ParentMap, done: set<Sha>, c: Sha)
    requires c in parents
    ensures ListedIn(parents, done + {c}) == ListedIn(parents, done) + Elems(parents[c])
  {
  }

  /**
   * Parent and child map describe the same edges: `p` is a parent of `c`
   * exactly when `c` is a child of `p`.
   */
  ghost predicate Reciprocal(parents: ParentMap, children: ChildMap)
  {
    && (forall c, p :: c in parents && p in parents[c] ==> p in children && c in children[p])
    && (forall p, c :: p in children && c in children[p] ==> c in parents && p in parents[c])
  }

  /**
   * `children` is the inverse of `parents`: reciprocal, and with an entry for
   * every commit that is a key of `parents` or listed as a parent.
   */
  ghost predicate IsChildMapOf(parents: ParentMap, children: ChildMap)
  {
    && children.Keys == parents.Keys + Listed(parents)
    && Reciprocal(parents, children)
  }

  /** The inverse exists and is unique, so "the" child map of a parent map is well defined. */
  lemma ChildMapUnique(parents: ParentMap, c1: ChildMap, c2: ChildMap)
    requires IsChildMapOf(parents, c1) && IsChildMapOf(parents, c2)
    ensures c1 == c2
  {
    forall q | q in c1 ensures c1[q] == c2[q] {
      forall c | c in c1[q] ensures c in c2[q] {
        assert c in parents && q in parents[c];
      }
      forall c | c in c2[q] ensures c in c1[q] {
        assert c in parents && q in parents[c];
      }
    }
  }

  /** A commit with at least two children is one that at least two distinct commits list as a parent. */
  lemma {:induction false} BifurcationHasTwoChildren(parents: ParentMap, children: ChildMap, q: Sha)
    requires IsChildMapOf(parents, children) && q in children
    ensures |children[q]| > 1 <==>
            exists a, b :: a in parents && b in parents && a != b && q in parents[a] && q in parents[b]
  {
    if |children[q]| > 1 {
      var a :| a in children[q];
      assert |children[q] - {a}| > 0;
      var b :| b in children[q] - {a};
      assert a in parents && q in parents[a];
      assert b in parents && q in parents[b];
    }
    if exists a, b :: a in parents && b in parents && a != b && q in parents[a] && q in parents[b] {
      var a, b :| a in parents && b in parents && a != b && q in parents[a] && q in parents[b];
      assert a in children[q] && b in children[q];
      var rest := children[q] - {a, b};
      assert children[q] == {a, b} + rest;
      assert |{a, b}| == 2;
    }
  }

  /**
   * What the two assertion loops of `_verify_child_mapping` check, as written,
   * counting a missing dictionary key as a failure: the first loop visits the
   * children of every listed parent, the second the parents of every listed child.
   */
  ghost predicate PassesAsWritten(parents: ParentMap, children: ChildMap)
  {
    && (forall k, p :: k in parents && p in parents[k] ==>
          p in children && forall c :: c in children[p] ==> c in parents && p in parents[c])
    && (forall q, c :: q in children && c in children[q] ==>
          c in parents && forall p :: p in parents[c] ==> p in children && c in children[p])
  }

  /** The check as written accepts every reciprocal pair of maps. */
  lemma ReciprocalPassesAsWritten(parents: ParentMap, children: ChildMap)
    requires Reciprocal(parents, children)
    ensures PassesAsWritten(parents, children)
  {
  }

  /**
   * The check as written accepts a pair of maps that are not inverse: `k` lists
   * `p` as its parent, but `p` has no recorded child.
   */
  lemma AsWrittenMissesMissingChild()
    ensures PassesAsWritten(map["k" := ["p"], "p" := []], map["k" := {}, "p" := {}])
    ensures !Reciprocal(map["k" := ["p"], "p" := []], map["k" := {}, "p" := {}])
  {
    var parents: ParentMap := map["k" := ["p"], "p" := []];
    var children: ChildMap := map["k" := {}, "p" := {}];
    assert "p" in parents["k"] && "k" !in children["p"];
  }

  /**
   * The miss the other way round: `k` records `x` as a child, but `x` does not
   * list `k`, and the check as written accepts it.
   */
  lemma AsWrittenMissesMissingParent()
    ensures PassesAsWritten(map["k" := [], "x" := []], map["k" := {"x"}, "x" := {}])
    ensures !Reciprocal(map["k" := [], "x" := []], map["k" := {"x"}, "x" := {}])
  {
    var parents: ParentMap := map["k" := [], "x" := []];
    var children: ChildMap := map["k" := {"x"}, "x" := {}];
    assert "x" in children["k"] && "k" !in parents["x"];
  }

  /**
   * `children` inverts the parent lists of the commits in `done`: the state of
   * `_calculate_child_mapping` between two commits.
   */
  ghost predicate Inverts(parents: ParentMap, done: set<Sha>, children: ChildMap)
  {
    && done <= parents.Keys
    && (forall q :: q in children <==> q in done || q in ListedIn(parents, done))
    && forall q, c :: q in children ==> (c in children[q] <==> c in done && q in parents[c])
  }

  /**
   * `children` inverts the parent lists of the commits in `done` and the first
   * parents `listed` of one more commit `sha`: the state of `_calculate_child_mapping`
   * within the parents of `sha`.
   */
  ghost predicate InvertsSoFar(parents: ParentMap, done: set<Sha>, sha: Sha, listed: seq<Sha>, children: ChildMap)
  {
    && done <= parents.Keys
    && (forall q :: q in children <==> q in done || q in ListedIn(parents, done) || q in listed)
    && forall q, c :: q in children ==>
         (c in children[q] <==> (c in done && q in parents[c]) || (c == sha && q in listed))
  }

  /** Nothing of `sha` is recorded before its first parent. */
  lemma InvertsStart(parents: ParentMap, done: set<Sha>, sha: Sha, children: ChildMap)
    requires Inverts(parents, done, children)
    ensures InvertsSoFar(parents, done, sha, [], children)
  {
    assert Elems([]) == {};
  }

  /** Recording `sha` as a child of its next parent `p`. */
  lemma InvertsOneMore(parents: ParentMap, done: set<Sha>, sha: Sha, listed: seq<Sha>, p: Sha,
                       children: ChildMap)
    requires InvertsSoFar(parents, done, sha, listed, children)
    ensures var grown := if p in children then children else children[p := {}];
            InvertsSoFar(parents, done, sha, listed + [p], grown[p := grown[p] + {sha}])
  {
    var grown := if p in children then children else children[p := {}];
    var after := grown[p := grown[p] + {sha}];
    if p !in children {
      assert forall c :: c in done && p in parents[c] ==> p in ListedIn(parents, done);
    }
    assert forall c :: c in after[p] <==> (c in done && p in parents[c]) || (c == sha && p in listed + [p]);
    assert forall q :: q in after && q != p ==> after[q] == children[q];
  }

  /** Finishing the parents of `sha`, and giving `sha` an entry if it has none yet. */
  lemma InvertsCommit(parents: ParentMap, todo: set<Sha>, sha: Sha, children: ChildMap)
    requires todo <= parents.Keys && sha in todo
    requires InvertsSoFar(parents, parents.Keys - todo, sha, parents[sha], children)
    ensures var after := if sha in children then children else children[sha := {}];
            Inverts(parents, parents.Keys - (todo - {sha}), after)
  {
    var done := parents.Keys - todo;
    var after := if sha in children then children else children[sha := {}];
    assert parents.Keys - (todo - {sha}) == done + {sha};
    ListedInAdd(parents, done, sha);
    forall q, c | q in after ensures c in after[q] <==> (c in done + {sha} && q in parents[c]) {
      if sha !in children && q == sha {
        assert forall c :: c in done && q in parents[c] ==> q in ListedIn(parents, done);
      }
    }
  }

  /** Once every commit is done, the map is the child map. */
  lemma InvertsAll(parents: ParentMap, children: ChildMap)
    requires Inverts(parents, parents.Keys, children)
    ensures IsChildMapOf(parents, children)
  {
  }

  /** Some listing, without repetitions, of a set: the order Python iterates a set in is not fixed. */
  method Enumerate(s: set<Sha>) returns (xs: seq<Sha>)
    ensures Elems(xs) == s
    ensures NoDuplicates(xs)
  {
    xs := [];
    var todo := s;
    while todo != {}
      invariant todo <= s
      invariant Elems(xs) == s - todo
      invariant NoDuplicates(xs)
      decreases todo
    {
      var x :| x in todo;
      assert Elems(xs + [x]) == Elems(xs) + {x};
      xs := xs + [x];
      todo := todo - {x};
    }
  }
}
