# git-big-picture: the commit graph, modelled in Dafny

git-big-picture draws a Git repository's history as a Graphviz graph. It keeps
only the commits that matter: those a branch or tag points at, roots, merges,
bifurcations, and commits the user names. Its centre is the `CommitGraph`
class in `git_big_picture/main.py`. This project models that class, without
the code that asks Git for the data.

- **Data.** A `CommitGraph` holds three things:
  - the parent map: commit id to its list of parent ids;
  - the branch and tag maps: commit id to the names that point at it;
  - `dotdot`, the set of commits drawn as elided history.

  The constructor derives the child map (`children`) from the parent map in
  place, then checks that the two maps agree.
- **Queries.** They return the roots, the merges and the bifurcations.
- **Filter.** `_filter` builds a new graph that holds only the interesting
  commits. Each keeps as its parents its nearest interesting ancestors. The
  search to reach them walks through uninteresting commits and stops at
  interesting ones.
- **Digits.** `_minimal_sha_one_digits` finds the shortest id prefix, from 7
  characters up, that still tells all commits apart.
- **DOT file.** `_generate_dot_file` writes the graph as DOT lines, in this
  order:
  - the opening line;
  - one node per labelled commit, with its sorted tag and branch names and its
    colour;
  - one node per elided commit;
  - one node per remaining commit, with its shortened id, when ids are shortened;
  - one edge per parent link;
  - the closing line.

Modules:

- `Wrappers`: `Option` and `Outcome`. `Outcome` carries Python's `KeyError` as
  a value.
- `Strings`: Python's prefix slice, code-point string order, and sorting.
- `Graphs`: the parent and child maps, and what it means for a child map to
  invert a parent map.
- `Reachability`: the search inside `_filter`, specified by the set of nearest
  interesting ancestors.
- `Digits`: the minimal prefix width.
- `Dot`: DOT lines as a datatype with their exact text, and the sections of
  the file.
- `CommitGraphs`: the class itself. Its fields are the source's attributes.
  Its methods update `children` in place.

`Filter` and `GenerateDotFile` take the source's default arguments: branches
and tags on, roots, merges and bifurcations off, no additional ids, and no id
width.

Wherever the source iterates over a dictionary or a set, the model picks the
next element with `:|`. So every proved property holds for any iteration
order.

## Model

| member | source | states |
|---|---|---|
| CommitGraphs.CommitGraph.constructor | git_big_picture/main.py:50-58 | the three maps are stored as given, `dotdot` starts empty, and `children` ends as the exact inverse of the parent map; the consistency check, run as the source writes it, then passes |
| CommitGraphs.CommitGraph.CalculateChildMapping | git_big_picture/main.py:71-79 | filling the empty child map gives it one key for every commit that is a key or a listed parent, and records `c` as a child of `p` exactly when `p` is listed among the parents of `c` |
| CommitGraphs.CommitGraph.VerifyChildMapping | git_big_picture/main.py:81-91 | the corrected check, where a missing key also fails: it passes exactly when every listed parent records the child and every recorded child lists the parent |
| CommitGraphs.CommitGraph.VerifyChildMappingAsWritten | git_big_picture/main.py:81-91 | the check as its loops are written passes exactly when, for each listed parent, its recorded children list it back, and, for each recorded child, its listed parents record it back |
| Graphs.ChildMapUnique | git_big_picture/main.py:71-79 | two child maps of the same parent map are equal, so the derived map is the only possible inverse |
| Graphs.ReciprocalPassesAsWritten | git_big_picture/main.py:81-91 | every pair of reciprocal maps passes the check as written |
| Graphs.AsWrittenMissesMissingChild | git_big_picture/main.py:84-91 | the check as written accepts a pair of maps where `k` lists `p` as a parent but `p` records no child |
| Graphs.AsWrittenMissesMissingParent | git_big_picture/main.py:84-91 | the check as written accepts a pair of maps where `k` records `x` as a child but `x` lists no parent |
| Graphs.BifurcationHasTwoChildren | git_big_picture/main.py:101-103 | under a derived child map, a commit has more than one child exactly when two distinct commits list it as a parent |
| CommitGraphs.CommitGraph.FindRoots | git_big_picture/main.py:93-95 | a commit is a root exactly when it is a key of the parent map with no parents |
| CommitGraphs.CommitGraph.FindMerges | git_big_picture/main.py:97-99 | a commit is a merge exactly when it is a key with more than one parent |
| CommitGraphs.CommitGraph.FindBifurcations | git_big_picture/main.py:101-103 | a commit is a bifurcation exactly when it is a key of the child map with more than one child |
| CommitGraphs.CommitGraph.Interesting | git_big_picture/main.py:143-155 | a commit is interesting exactly when a branch (if enabled) or a tag (if enabled) points at it, or it is a root, merge or bifurcation (each if enabled), or it is listed among the additional ids |
| Reachability.Search | git_big_picture/main.py:159-181 | the walk from one interesting commit succeeds exactly when it meets no uninteresting commit missing from the parent map. On success it returns exactly that commit's nearest interesting ancestors. On failure the reported key is uninteresting, missing from the parent map, and reached by the walk |
| CommitGraphs.CommitGraph.Filter | git_big_picture/main.py:105-185 | filtering fails exactly when the walk from some interesting commit meets an uninteresting commit missing from the parent map, and then it names such a commit. On success it returns a new graph whose keys are exactly the interesting commits, each with its nearest interesting ancestors listed once as parents, with the same branches and tags and a derived child map; the receiver is not changed |
| Reachability.NoParentsNoAncestors | git_big_picture/main.py:160-164 | an interesting commit that is not a key, or that has no parents, gets no parents and cannot fail |
| Reachability.AllInterestingKeepsParents | git_big_picture/main.py:176-178 | when every listed parent is interesting, filtering keeps each commit's parents as they are |
| Reachability.ChainCollapses | git_big_picture/main.py:170-181 | the chain a -> b -> c -> d, with only a and d interesting, collapses to the single edge a -> d |
| Reachability.AncestryPreserved | git_big_picture/main.py:157-181 | completeness: an interesting ancestor of an interesting commit is still its ancestor in the filtered graph |
| Reachability.FilteredAncestryIsReal | git_big_picture/main.py:157-181 | soundness: every path in the filtered graph stands for a path of real parent links |
| Reachability.NearestInteresting | git_big_picture/main.py:176-178 | every parent the filter gives a commit is interesting, so every edge of the filtered graph ends at one of its keys |
| Reachability.NoSelfLoop | git_big_picture/main.py:170-181 | when the parent map is acyclic, as the class documents its graph to be (git_big_picture/main.py:38), the filter never makes a commit its own parent |
| Reachability.FilteredAcyclic | git_big_picture/main.py:157-181 | when the parent map is acyclic, no path of the filtered graph leads back to its start: filtering a DAG gives a DAG |
| CommitGraphs.CommitGraph.MinimalShaOneDigits | git_big_picture/main.py:187-194 | the result lies between 7 and 40. Below 40 the prefixes of that length tell all commits apart, and no shorter length from 7 up does |
| Digits.MinimalDigitsFrom | git_big_picture/main.py:190-194 | the search from width `d` returns the first width from `d` below 40 that tells the keys apart, or 40 |
| Digits.UnambiguousIffInjective | git_big_picture/main.py:192 | counting distinct prefixes, as the source does, is the same as no two commits sharing a prefix |
| Digits.Monotone | git_big_picture/main.py:191-192 | a width that tells the commits apart keeps doing so when it grows |
| Digits.FullLengthUnambiguous | git_big_picture/main.py:194 | the fallback of 40 tells apart any ids of at most 40 characters |
| Digits.SharedSevenNeedMore | git_big_picture/main.py:187-194 | any two distinct ids that share their first seven characters need more than seven |
| Digits.EarlyDifferenceNeedsSeven | git_big_picture/main.py:187-194 | any two ids that differ within their first seven characters need exactly seven |
| Digits.SharedSevenNeedEight | git_big_picture/main.py:187-194 | example: `abcdefg1` and `abcdefg2` need exactly eight |
| Digits.EarlyDifferenceExample | git_big_picture/main.py:187-194 | example: `ab00000` and `ac00000` need seven |
| Strings.Prefix | git_big_picture/main.py:217 | the slice `s[0:n]` is a prefix of `s`, with Python's length for negative and oversized `n` |
| Strings.Sort | git_big_picture/main.py:226-229 | `sorted` returns a sorted permutation of its input |
| Strings.SortedPermutationUnique | git_big_picture/main.py:226-229 | the sorted permutation is unique, so the label order does not depend on how names are listed |
| Strings.BelowTotal | git_big_picture/main.py:226-229 | any two names are ordered one way or the other |
| Strings.BelowAntisymmetric | git_big_picture/main.py:226-229 | two names ordered both ways are equal |
| Strings.BelowReflexive | git_big_picture/main.py:226-229 | every name is ordered before or equal to itself |
| Strings.BelowTransitive | git_big_picture/main.py:226-229 | the name order is transitive |
| Dot.DecimalString | git_big_picture/main.py:231 | `%d` gives a non-empty string of decimal digits with no leading zero except for 0 itself |
| Dot.DecimalRoundTrip | git_big_picture/main.py:231 | reading the digits of `%d` back gives the number that was formatted |
| Dot.JoinAppend | git_big_picture/main.py:238-239 | `sep.join` of two non-empty lists put end to end is the two joins with one separator between them |
| Dot.Text | git_big_picture/main.py:234-251 | the characters of each line as the source's templates produce them, labels joined by backslash-n; only the opening line reads `digraph {` and only the closing line `}` |
| Dot.LabelledTextExample | git_big_picture/main.py:236-240 | example: a commit with labels `v1` and `main` and colour 3 gets the label text `v1\nmain` and the colour `/pastel13/3` |
| Dot.TextExamples | git_big_picture/main.py:242-250 | examples: the elided-node, plain-node and edge lines, character for character |
| Dot.FormatSha | git_big_picture/main.py:212-217 | the shown id is a prefix of the id. It is the whole id when no width is given or the width is 40, and otherwise it has the asked width, as far as the id is that long |
| Dot.ColorCase | git_big_picture/main.py:223-231 | the colour index is 0, 1, 2 or 3 exactly when the commit has no label, only tags, only branches, or both |
| Dot.LabelsOrder | git_big_picture/main.py:219-239 | a node's labels are its tag names sorted, then its branch names sorted, then the shown id exactly when ids on labels are asked for |
| Dot.LabelSection | git_big_picture/main.py:219-240 | the labelled lines are exactly one node line per commit a branch or tag points at, each with its labels and colour |
| Dot.ElidedSection | git_big_picture/main.py:241-242 | exactly one elided node line per commit in `dotdot` |
| Dot.PlainSection | git_big_picture/main.py:243-247 | when ids are shortened, exactly one node line with the shown id per key without a label that is not elided, and none otherwise |
| Dot.EdgeLines | git_big_picture/main.py:249-250 | one edge line per listed parent of one commit, in order |
| Dot.EdgeSection | git_big_picture/main.py:248-250 | the edge lines count each link `c -> p` exactly as often as `p` is listed among the parents of `c` |
| Dot.StatementShape | git_big_picture/main.py:236-250 | every node or edge line's text is a tab, the quoted id of its node (or of the edge's child), and a closing `;` |
| Dot.DocumentLayout | git_big_picture/main.py:234-251 | the file opens with `digraph {` and closes with `}`, and in between come labelled nodes, then elided nodes, then plain nodes, then edges |
| Dot.AssembledDocument | git_big_picture/main.py:234-252 | the four sections between the opening and closing lines make up a DOT file with the layout and the per-commit and per-link counts above |
| CommitGraphs.CommitGraph.GenerateDotFile | git_big_picture/main.py:196-252 | the returned lines are a DOT file of this graph: the layout above, one node per labelled, elided or (when shortening) remaining commit, and each parent link as often as it is listed |

The predicate `Dot.HasLabel` is `_has_label` (git_big_picture/main.py:60-69).
It has no contract of its own, so it has no row above. The node sections and
the document use it to decide which commits get a label.

## Left out

- The Git glue: reading refs and parents from Git, building the graph from a repository, and running Graphviz. The model takes the three maps as given.
- `_find_roots`, `_find_merges` and `_find_bifurcations` return Python lists in dictionary order. The model returns the sets of their elements. The order of those lists only affects the order of later iterations, and the model proves its properties for every order.
- Python 2 details: `xrange`, and an eager `map` used for its side effect. The model states what these compute.
- Which failing `KeyError` key is reported first depends on the order of the interesting list and of the walk. The model reports some uninteresting, missing commit that a walk reaches, and proves only that.
- `_filter` walks its interesting list with duplicates. The model walks the set, because a repeated commit gets the same parent set again.
- Copying branches and tags with `deepcopy`: Dafny maps are values, so the new graph simply holds equal maps.
- `_generate_dot_file` rebinds `self.parents` in its edge loop (git_big_picture/main.py:248), so after it returns the object holds the last parent list it visited. The model does not reproduce this. `GenerateDotFile` changes nothing, so the rebinding's effect on later calls is not modelled.
- Nothing in this part of the program adds to `dotdot`, so the model's graphs keep it empty. The elided section is still modelled for any `dotdot`.
- `sorted` compares names by code point, as Python does for strings. Locale collation is not involved, and the model does not model it.
- The DOT lines are a datatype. `Dot.Text` gives their exact characters. Python's `%` formatting does no escaping, and neither does the model.
- Like the source, the digit search returns 40 without checking that 40 digits tell the commits apart. `Digits.FullLengthUnambiguous` shows that 40 always works for ids of at most 40 characters. Longer ids are not ruled out, because the source does not rule them out.
- The source's `assert` statements in `_verify_child_mapping` become a boolean result, and so does the `KeyError` its lookups `self.children[p]` and `self.parents[c]` raise for a missing key (git_big_picture/main.py:86, 90): both the as-written and the corrected check report a missing key as `false`, the same as a failed assertion. The model does not tell the two failures apart. The constructor proves the result is true.

## Findings

| source | as written | input that shows it | evidently intended | confidence | as-written member | corrected member |
|---|---|---|---|---|---|---|
| git_big_picture/main.py:84-91 | the first loop checks, for each listed parent `p`, that every recorded child of `p` lists `p`; the second checks, for each recorded child `c`, that every listed parent of `c` records `c`. So a parent link of a commit is checked only when some entry records that commit as a child, and a child link of a commit only when some commit lists it as a parent: a link missing from a commit that nothing points back to passes | parents `{k: [p], p: []}`, children `{k: set(), p: set()}`: `k` lists `p`, `p` records no child, and both loops pass. The other way round, parents `{k: [], x: []}`, children `{k: {x}, x: set()}`: `k` records `x`, `x` lists no parent, and both loops pass | every listed parent records the child, and every recorded child lists the parent | not executed | CommitGraphs.CommitGraph.VerifyChildMappingAsWritten, Graphs.AsWrittenMissesMissingChild, Graphs.AsWrittenMissesMissingParent | CommitGraphs.CommitGraph.VerifyChildMapping |
