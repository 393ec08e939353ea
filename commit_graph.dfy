/**
 * The `CommitGraph` class: a parent map with the branch and tag names that
 * point into it, the child map derived from it, its queries, the filter that
 * keeps only the interesting commits, and the DOT rendering.
 */
module CommitGraphs {
  import opened Wrappers
  import opened Graphs
  import Reachability
  import Digits
  import Dot

  class CommitGraph {
    const parents: ParentMap
    const branches: map<Sha, seq<string>>
    const tags: map<Sha, seq<string>>
    /** Commits drawn as standing for elided history; always empty after construction. */
    var dotdot: set<Sha>
    var children: ChildMap

    /**
     * Stores the three maps and derives the child map, which then passes the
     * consistency check as the source writes it: a derived map is reciprocal,
     * and every reciprocal pair passes.
     */
    constructor (parentMap: ParentMap, branchDict: map<Sha, seq<string>>, tagDict: map<Sha, seq<string>>)
      ensures parents == parentMap && branches == branchDict && tags == tagDict
      ensures dotdot == {}
      ensures IsChildMapOf(parents, children)
    {
      parents := parentMap;
      branches := branchDict;
      tags := tagDict;
      dotdot := {};
      children := map[];
      new;
      CalculateChildMapping();
      ReciprocalPassesAsWritten(parents, children);
      var ok := VerifyChildMappingAsWritten();
      assert ok;
    }

    /** Fills the empty child map with the inverse of the parent map. */
    method CalculateChildMapping()
      requires children == map[]
      modifies this`children
      ensures IsChildMapOf(parents, children)
    {
      var todo := parents.Keys;
      assert ListedIn(parents, {}) == {};
      while todo != {}
        invariant todo <= parents.Keys
        invariant Inverts(parents, parents.Keys - todo, children)
        decreases todo
      {
        var sha :| sha in todo;
        var ps := parents[sha];
        ghost var done := parents.Keys - todo;
        InvertsStart(parents, done, sha, children);
        assert ps[..0] == [];
        var j := 0;
        while j < |ps|
          invariant 0 <= j <= |ps|
          invariant InvertsSoFar(parents, done, sha, ps[..j], children)
        {
          var p := ps[j];
          InvertsOneMore(parents, done, sha, ps[..j], p, children);
          if p !in children {
            children := children[p := {}];
          }
          children := children[p := children[p] + {sha}];
          assert ps[..j + 1] == ps[..j] + [p];
          j := j + 1;
        }
        assert ps[..j] == parents[sha];
        InvertsCommit(parents, todo, sha, children);
        if sha !in children {
          children := children[sha := {}];
        }
        todo := todo - {sha};
      }
      InvertsAll(parents, children);
    }

    /**
     * The consistency check of parent and child map, with the assertions
     * checking what they evidently mean to: every parent of a commit records it
     * as a child, and every child of a commit lists it as a parent. A missing
     * dictionary key fails the check like a failed assertion does.
     */
    method VerifyChildMapping() returns (ok: bool)
      ensures ok <==> Reciprocal(parents, children)
    {
      var todo := parents.Keys;
      while todo != {}
        invariant todo <= parents.Keys
        invariant forall c, p :: c in parents && c !in todo && p in parents[c] ==> p in children && c in children[p]
        decreases todo
      {
        var sha :| sha in todo;
        var ps := parents[sha];
        var j := 0;
        while j < |ps|
          invariant 0 <= j <= |ps|
          invariant forall m :: 0 <= m < j ==> ps[m] in children && sha in children[ps[m]]
        {
          var p := ps[j];
          if p !in children || sha !in children[p] {
            return false;
          }
          j := j + 1;
        }
        todo := todo - {sha};
      }
      var pending := children.Keys;
      while pending != {}
        invariant pending <= children.Keys
        invariant forall q, c :: q in children && q !in pending && c in children[q] ==> c in parents && q in parents[c]
        decreases pending
      {
        var q :| q in pending;
        var chs := children[q];
        while chs != {}
          invariant chs <= children[q]
          invariant forall c :: c in children[q] && c !in chs ==> c in parents && q in parents[c]
          decreases chs
        {
          var c :| c in chs;
          if c !in parents || q !in parents[c] {
            return false;
          }
          chs := chs - {c};
        }
        pending := pending - {q};
      }
      return true;
    }

    /**
     * The consistency check exactly as its loops are written: for each listed
     * parent it checks the parents of that parent's children, and for each
     * listed child the children of that child's parents.
     */
    method VerifyChildMappingAsWritten() returns (ok: bool)
      ensures ok <==> PassesAsWritten(parents, children)
    {
      var todo := parents.Keys;
      while todo != {}
        invariant todo <= parents.Keys
        invariant forall k, p :: k in parents && k !in todo && p in parents[k] ==>
                    p in children && forall c :: c in children[p] ==> c in parents && p in parents[c]
        decreases todo
      {
        var sha :| sha in todo;
        var ps := parents[sha];
        var j := 0;
        while j < |ps|
          invariant 0 <= j <= |ps|
          invariant forall m :: 0 <= m < j ==>
                      ps[m] in children && forall c :: c in children[ps[m]] ==> c in parents && ps[m] in parents[c]
        {
          var p := ps[j];
          if p !in children {
            return false;
          }
          var chs := children[p];
          while chs != {}
            invariant chs <= children[p]
            invariant forall c :: c in children[p] && c !in chs ==> c in parents && p in parents[c]
            decreases chs
          {
            var c :| c in chs;
            if c !in parents || p !in parents[c] {
              return false;
            }
            chs := chs - {c};
          }
          j := j + 1;
        }
        todo := todo - {sha};
      }
      var pending := children.Keys;
      while pending != {}
        invariant pending <= children.Keys
        invariant forall q, c :: q in children && q !in pending && c in children[q] ==>
                    c in parents && forall p :: p in parents[c] ==> p in children && c in children[p]
        decreases pending
      {
        var q :| q in pending;
        var chs := children[q];
        while chs != {}
          invariant chs <= children[q]
          invariant forall c :: c in children[q] && c !in chs ==>
                      c in parents && forall p :: p in parents[c] ==> p in children && c in children[p]
          decreases chs
        {
          var c :| c in chs;
          if c !in parents {
            return false;
          }
          var ps := parents[c];
          var j := 0;
          while j < |ps|
            invariant 0 <= j <= |ps|
            invariant forall m :: 0 <= m < j ==> ps[m] in children && c in children[ps[m]]
          {
            if ps[j] !in children || c !in children[ps[j]] {
              return false;
            }
            j := j + 1;
          }
          chs := chs - {c};
        }
        pending := pending - {q};
      }
      return true;
    }

    /** The commits without parents. */
    function FindRoots(): (r: set<Sha>)
      ensures forall k :: k in r <==> k in parents && parents[k] == []
    {
      set k | k in parents && parents[k] == []
    }

    /** The commits with more than one parent. */
    function FindMerges(): (r: set<Sha>)
      ensures forall k :: k in r <==> k in parents && |parents[k]| > 1
    {
      set k | k in parents && |parents[k]| > 1
    }

    /** The commits with more than one child. */
    function FindBifurcations(): (r: set<Sha>)
      reads this
      ensures forall k :: k in r <==> k in children && |children[k]| > 1
    {
      set k | k in children && |children[k]| > 1
    }

    /** The commits `_filter` keeps, as chosen by its switches and its list of extra ids. */
    function Interesting(branchesOn: bool, tagsOn: bool, rootsOn: bool, mergesOn: bool, bifurcationsOn: bool,
                         additional: seq<Sha>): (r: set<Sha>)
      reads this
      ensures forall c :: c in r <==>
                || (branchesOn && c in branches) || (tagsOn && c in tags)
                || (rootsOn && c in parents && parents[c] == [])
                || (mergesOn && c in parents && |parents[c]| > 1)
                || (bifurcationsOn && c in children && |children[c]| > 1)
                || c in additional
    {
      (if branchesOn then branches.Keys else {})
      + (if tagsOn then tags.Keys else {})
      + (if rootsOn then FindRoots() else {})
      + (if mergesOn then FindMerges() else {})
      + (if bifurcationsOn then FindBifurcations() else {})
      + Elems(additional)
    }

    /**
     * The graph of the interesting commits only. Each keeps as its parents the
     * nearest interesting ancestors, reached through uninteresting commits. The
     * search fails with the missing key when it reaches an uninteresting commit
     * that is not a key of the parent map. The receiver is not changed.
     */
    method Filter(branchesOn: bool := true, tagsOn: bool := true, rootsOn: bool := false,
                  mergesOn: bool := false, bifurcationsOn: bool := false, additional: seq<Sha> := [])
      returns (r: Outcome<CommitGraph>)
      ensures var interesting := old(Interesting(branchesOn, tagsOn, rootsOn, mergesOn, bifurcationsOn, additional));
              r.Ok? <==> forall c :: c in interesting ==> Reachability.NoMissingParent(parents, interesting, c)
      ensures r.Ok? ==>
                var interesting := old(Interesting(branchesOn, tagsOn, rootsOn, mergesOn, bifurcationsOn, additional));
                && fresh(r.value)
                && r.value.parents.Keys == interesting
                && (forall c :: c in interesting ==>
                      && Elems(r.value.parents[c]) == Reachability.Nearest(parents, interesting, c)
                      && NoDuplicates(r.value.parents[c]))
                && r.value.branches == branches && r.value.tags == tags
                && r.value.dotdot == {} && IsChildMapOf(r.value.parents, r.value.children)
      ensures r.KeyError? ==>
                var interesting := old(Interesting(branchesOn, tagsOn, rootsOn, mergesOn, bifurcationsOn, additional));
                && r.key !in interesting && r.key !in parents
                && exists c :: c in interesting && Reachability.Reaches(parents, interesting, c, r.key)
    {
      var interesting := Interesting(branchesOn, tagsOn, rootsOn, mergesOn, bifurcationsOn, additional);
      var todo := interesting;
      var reachable: ParentMap := map[];
      while todo != {}
        invariant todo <= interesting
        invariant reachable.Keys == interesting - todo
        invariant Reachability.FilteredEntries(parents, interesting, reachable)
        decreases todo
      {
        var c :| c in todo;
        var found := Reachability.Search(parents, interesting, c);
        if found.KeyError? {
          assert c in interesting && Reachability.Reaches(parents, interesting, c, found.key);
          assert !Reachability.NoMissingParent(parents, interesting, c);
          return KeyError(found.key);
        }
        var ordered := Enumerate(found.value);
        Reachability.FilteredEntriesAdd(parents, interesting, reachable, c, ordered);
        reachable := reachable[c := ordered];
        todo := todo - {c};
      }
      assert reachable.Keys == interesting;
      var g := new CommitGraph(reachable, branches, tags);
      r := Ok(g);
    }

    /**
     * The shortest id prefix length, from 7 up, at which the commits of the
     * parent map stay distinct; 40, the full length, when none below does.
     */
    function MinimalShaOneDigits(): (r: int)
      ensures Digits.MinDigits <= r <= Digits.FullDigits
      ensures r < Digits.FullDigits ==> Digits.Unambiguous(parents.Keys, r)
      ensures forall e :: Digits.MinDigits <= e < r ==> !Digits.Unambiguous(parents.Keys, e)
    {
      Digits.MinimalDigitsFrom(parents.Keys, Digits.MinDigits)
    }

    /**
     * The DOT file, line by line: the opening line, one node per labelled
     * commit, one per elided commit, one per remaining commit when ids are
     * truncated, one edge per parent link, the closing line.
     */
    method GenerateDotFile(shaOnesOnLabels: bool, shaOneDigits: Option<int> := None) returns (lines: seq<Dot.Line>)
      ensures Dot.IsDocument(branches, tags, parents, dotdot, shaOnesOnLabels, shaOneDigits, lines)
    {
      var labelled := Dot.LabelSection(branches, tags, shaOnesOnLabels, shaOneDigits);
      var elided := Dot.ElidedSection(dotdot);
      var plain := Dot.PlainSection(parents, branches, tags, dotdot, shaOneDigits);
      var edges := Dot.EdgeSection(parents);
      lines := [Dot.Open] + labelled + elided + plain + edges + [Dot.Close];
      Dot.AssembledDocument(branches, tags, parents, dotdot, shaOnesOnLabels, shaOneDigits,
                            labelled, elided, plain, edges, lines);
    }
  }
}
