/**
 * The Graphviz DOT text that `_generate_dot_file` emits, one structured
 * `Line` per text line, with `Text` giving the characters of each.
 */
module Dot {
  import opened Wrappers
  import opened Strings
  import opened Graphs

  /** One line of the emitted DOT file. */
  datatype Line =
    | Open                                                   // digraph {
    | LabelledNode(sha: Sha, labels: seq<string>, color: nat) // a commit with tags or branches
    | ElidedNode(sha: Sha)                                   // a commit standing for elided history
    | PlainNode(sha: Sha, shortId: string)                  // an unlabelled commit, with its short id
    | Edge(child: Sha, parent: Sha)                          // child -> parent
    | Close                                                  // }

  /** The block a line belongs to; the file emits the blocks in this order. */
  function Rank(line: Line): nat
  {
    match line
    case Open => 0
    case LabelledNode(_, _, _) => 1
    case ElidedNode(_) => 2
    case PlainNode(_, _) => 3
    case Edge(_, _) => 4
    case Close => 5
  }

  function DigitChar(n: nat): char
    requires n < 10
  {
    "0123456789"[n]
  }

  /** Python's `"%d" % n` for a natural number: decimal digits, without leading zeros. */
  function DecimalString(n: nat): (r: string)
    ensures |r| > 0 && forall i :: 0 <= i < |r| ==> '0' <= r[i] <= '9'
    ensures r[0] == '0' <==> n == 0
    ensures r[0] == '0' ==> |r| == 1
  {
    if n < 10 then [DigitChar(n)] else DecimalString(n / 10) + [DigitChar(n % 10)]
  }

  /** The number a string of decimal digits denotes, read left to right. */
  function DecimalValue(s: string): int
  {
    if s == [] then 0 else 10 * DecimalValue(s[..|s| - 1]) + (s[|s| - 1] as int - '0' as int)
  }

  /** Reading the digits back gives the number that was formatted. */
  lemma {:induction false} DecimalRoundTrip(n: nat)
    ensures DecimalValue(DecimalString(n)) == n
  {
    var r := DecimalString(n);
    if n >= 10 {
      DecimalRoundTrip(n / 10);
      assert r[..|r| - 1] == DecimalString(n / 10);
    }
  }

  /** Python's `sep.join(xs)`. */
  function Join(xs: seq<string>, sep: string): string
  {
    if xs == [] then "" else if |xs| == 1 then xs[0] else xs[0] + sep + Join(xs[1..], sep)
  }

  /** Joining two non-empty lists is joining each and putting one separator between them. */
  lemma {:induction false} JoinAppend(xs: seq<string>, ys: seq<string>, sep: string)
    requires xs != [] && ys != []
    ensures Join(xs + ys, sep) == Join(xs, sep) + sep + Join(ys, sep)
    decreases |xs|
  {
    if |xs| == 1 {
      assert (xs + ys)[1..] == ys;
    } else {
      assert (xs + ys)[1..] == xs[1..] + ys;
      JoinAppend(xs[1..], ys, sep);
    }
  }

  /**
   * The characters of a line; labels are joined by the two characters backslash
   * and `n`. Only the opening line reads `digraph {` and only the closing one `}`.
   */
  function Text(line: Line): (r: string)
    ensures r == "digraph {" <==> line.Open?
    ensures r == "}" <==> line.Close?
  {
    match line
    case Open => "digraph {"
    case LabelledNode(sha, labels, color) =>
      "\t\"" + sha + ("\"[label=\"" + Join(labels, "\\n") + "\", color=\"/pastel13/" + DecimalString(color)
                      + "\", style=filled];")
    case ElidedNode(sha) => "\t\"" + sha + "\"[label=\"...\"];"
    case PlainNode(sha, shortId) => "\t\"" + sha + ("\"[label=\"" + shortId + "\"];")
    case Edge(child, parent) => "\t\"" + child + ("\" -> \"" + parent + "\";")
    case Close => "}"
  }

  /**
   * A labelled node as the source's template writes it: the labels joined by
   * backslash-n, and the colour index in decimal after the palette name.
   */
  lemma LabelledTextExample()
    ensures Text(LabelledNode("ab", ["v1", "main"], 3))
            == "\t\"" + "ab" + ("\"[label=\"" + "v1\\nmain" + "\", color=\"/pastel13/" + "3" + "\", style=filled];")
  {
    assert Join(["v1", "main"], "\\n") == "v1\\nmain" by {
      assert ["v1", "main"][1..] == ["main"];
    }
    assert DecimalString(3) == "3";
  }

  /** The other node and edge lines, spelled out character for character. */
  lemma TextExamples()
    ensures Text(ElidedNode("ab")) == "\t\"ab\"[label=\"...\"];"
    ensures Text(PlainNode("ab", "a")) == "\t\"ab\"[label=\"a\"];"
    ensures Text(Edge("ab", "cd")) == "\t\"ab\" -> \"cd\";"
  {
    assert "\t\"" + "ab" == "\t\"ab";
    assert "\t\"ab" + "\"[label=\"...\"];" == "\t\"ab\"[label=\"...\"];";
    assert "\"[label=\"" + "a" + "\"];" == "\"[label=\"a\"];";
    assert "\t\"ab" + "\"[label=\"a\"];" == "\t\"ab\"[label=\"a\"];";
    assert "\" -> \"" + "cd" + "\";" == "\" -> \"cd\";";
    assert "\t\"ab" + "\" -> \"cd\";" == "\t\"ab\" -> \"cd\";";
  }

  /** A tab, a quoted id, something ending in `;`: the shape of every DOT statement the file holds. */
  ghost predicate Statement(t: string, id: string)
  {
    && |t| >= 4 + |id|
    && t[0] == '\t' && t[1] == '"' && t[2..2 + |id|] == id && t[2 + |id|] == '"'
    && t[|t| - 1] == ';'
  }

  lemma QuotedStatement(id: string, rest: string)
    requires |rest| > 1 && rest[0] == '"' && rest[|rest| - 1] == ';'
    ensures Statement("\t\"" + id + rest, id)
  {
    var t := "\t\"" + id + rest;
    assert t[2..2 + |id|] == id;
  }

  /**
   * Every line other than the first and the last is one DOT statement: a tab,
   * the quoted id of the node (of the child, for an edge), and a closing `;`.
   */
  lemma StatementShape(line: Line)
    requires !line.Open? && !line.Close?
    ensures Statement(Text(line), if line.Edge? then line.child else line.sha)
  {
    match line
    case LabelledNode(sha, labels, color) =>
      QuotedStatement(sha, "\"[label=\"" + Join(labels, "\\n") + "\", color=\"/pastel13/" + DecimalString(color)
                           + "\", style=filled];");
    case ElidedNode(sha) =>
      QuotedStatement(sha, "\"[label=\"...\"];");
    case PlainNode(sha, shortId) =>
      QuotedStatement(sha, "\"[label=\"" + shortId + "\"];");
    case Edge(child, parent) =>
      QuotedStatement(child, "\" -> \"" + parent + "\";");
  }

  /** Ids are shortened unless no width is given or the width is the full 40. */
  predicate Truncating(digits: Option<int>)
  {
    digits.Some? && digits.value != 40
  }

  /** `format_sha_one`: the id, or its first `digits` characters when truncating. */
  function FormatSha(sha: Sha, digits: Option<int>): (r: string)
    ensures r <= sha
    ensures !Truncating(digits) ==> r == sha
    ensures Truncating(digits) && 0 <= digits.value <= |sha| ==> |r| == digits.value
  {
    if !Truncating(digits) then sha else Prefix(sha, digits.value)
  }

  /** The fill colour index: 1 for tags only, 2 for branches only, 3 for both (0 for neither). */
  function ColorCase(branches: map<Sha, seq<string>>, tags: map<Sha, seq<string>>, k: Sha): (r: nat)
    ensures r == 0 <==> k !in branches && k !in tags
    ensures r == 1 <==> k in tags && k !in branches
    ensures r == 2 <==> k !in tags && k in branches
    ensures r == 3 <==> k in tags && k in branches
  {
    (if k in tags then 1 else 0) + (if k in branches then 2 else 0)
  }

  /** A commit has a label when a branch or a tag points at it (`_has_label`). */
  predicate HasLabel(branches: map<Sha, seq<string>>, tags: map<Sha, seq<string>>, k: Sha)
  {
    k in branches || k in tags
  }

  /** The label lines of a commit: sorted tag names, then sorted branch names, then the id if asked for. */
  function Labels(branches: map<Sha, seq<string>>, tags: map<Sha, seq<string>>, k: Sha,
                  shaOnesOnLabels: bool, digits: Option<int>): seq<string>
  {
    (if k in tags then Sort(tags[k]) else [])
    + (if k in branches then Sort(branches[k]) else [])
    + (if shaOnesOnLabels then [FormatSha(k, digits)] else [])
  }

  /** The node line `label_gen` yields for a labelled commit. */
  function LabelLine(branches: map<Sha, seq<string>>, tags: map<Sha, seq<string>>, k: Sha,
                     shaOnesOnLabels: bool, digits: Option<int>): Line
  {
    LabelledNode(k, Labels(branches, tags, k, shaOnesOnLabels, digits), ColorCase(branches, tags, k))
  }

  /**
   * The labels are the sorted tag names followed by the sorted branch names,
   * and the id is the last label exactly when it was asked for.
   */
  lemma LabelsOrder(branches: map<Sha, seq<string>>, tags: map<Sha, seq<string>>, k: Sha,
                    shaOnesOnLabels: bool, digits: Option<int>)
    ensures var ts := if k in tags then tags[k] else [];
            var bs := if k in branches then branches[k] else [];
            var labels := Labels(branches, tags, k, shaOnesOnLabels, digits);
            && |labels| == |ts| + |bs| + (if shaOnesOnLabels then 1 else 0)
            && SortedStrings(labels[..|ts|]) && multiset(labels[..|ts|]) == multiset(ts)
            && SortedStrings(labels[|ts|..|ts| + |bs|]) && multiset(labels[|ts|..|ts| + |bs|]) == multiset(bs)
            && (shaOnesOnLabels ==> labels[|labels| - 1] == FormatSha(k, digits))
  {
    var ts := if k in tags then tags[k] else [];
    var bs := if k in branches then branches[k] else [];
    var st, sb := Sort(ts), Sort(bs);
    var tail := if shaOnesOnLabels then [FormatSha(k, digits)] else [];
    assert Labels(branches, tags, k, shaOnesOnLabels, digits) == st + sb + tail;
    assert |st| == |multiset(st)| == |ts|;
    assert |sb| == |multiset(sb)| == |bs|;
    ThreeParts(st, sb, tail);
  }

  lemma ThreeParts(a: seq<string>, b: seq<string>, c: seq<string>)
    ensures |a + b + c| == |a| + |b| + |c|
    ensures (a + b + c)[..|a|] == a && (a + b + c)[|a|..|a| + |b|] == b
    ensures |c| > 0 ==> (a + b + c)[|a + b + c| - 1] == c[|c| - 1]
  {
    assert (a + b + c)[..|a|] == a;
    assert (a + b + c)[|a|..|a| + |b|] == b;
  }

  lemma CountAppend<T>(s: seq<T>, x: T, y: T)
    ensures multiset(s + [x])[y] == multiset(s)[y] + (if x == y then 1 else 0)
  {
    assert multiset(s + [x]) == multiset(s) + multiset{x};
  }

  /** The labelled node lines: exactly one for each commit with a branch or a tag. */
  method LabelSection(branches: map<Sha, seq<string>>, tags: map<Sha, seq<string>>,
                      shaOnesOnLabels: bool, digits: Option<int>) returns (section: seq<Line>)
    ensures forall l :: l in section ==>
              && l.LabelledNode?
              && HasLabel(branches, tags, l.sha)
              && l == LabelLine(branches, tags, l.sha, shaOnesOnLabels, digits)
    ensures forall k :: HasLabel(branches, tags, k) ==>
              multiset(section)[LabelLine(branches, tags, k, shaOnesOnLabels, digits)] == 1
  {
    var keys := branches.Keys + tags.Keys;
    var todo := keys;
    section := [];
    ghost var shas: seq<Sha> := [];
    while todo != {}
      invariant todo <= keys
      invariant |shas| == |section|
      invariant forall i :: 0 <= i < |section| ==>
                  section[i] == LabelLine(branches, tags, shas[i], shaOnesOnLabels, digits)
      invariant forall i :: 0 <= i < |shas| ==> shas[i] in keys - todo
      invariant forall k {:trigger multiset(shas)[k]} :: k in keys ==> multiset(shas)[k] == if k in todo then 0 else 1
      decreases todo
    {
      var k :| k in todo;
      LabelSectionStep(branches, tags, shaOnesOnLabels, digits, keys, todo, shas, section, k);
      shas := shas + [k];
      section := section + [LabelLine(branches, tags, k, shaOnesOnLabels, digits)];
      todo := todo - {k};
    }
    LabelSectionCounts(branches, tags, shaOnesOnLabels, digits, shas, section);
  }

  lemma LabelSectionStep(branches: map<Sha, seq<string>>, tags: map<Sha, seq<string>>,
                         shaOnesOnLabels: bool, digits: Option<int>, keys: set<Sha>, todo: set<Sha>,
                         shas: seq<Sha>, section: seq<Line>, k: Sha)
    requires k in todo && todo <= keys
    requires |shas| == |section|
    requires forall i :: 0 <= i < |section| ==>
               section[i] == LabelLine(branches, tags, shas[i], shaOnesOnLabels, digits)
    requires forall i :: 0 <= i < |shas| ==> shas[i] in keys - todo
    requires forall k {:trigger multiset(shas)[k]} :: k in keys ==> multiset(shas)[k] == if k in todo then 0 else 1
    ensures var shas', section' := shas + [k], section + [LabelLine(branches, tags, k, shaOnesOnLabels, digits)];
            && |shas'| == |section'|
            && (forall i :: 0 <= i < |section'| ==>
                  section'[i] == LabelLine(branches, tags, shas'[i], shaOnesOnLabels, digits))
            && (forall i :: 0 <= i < |shas'| ==> shas'[i] in keys - (todo - {k}))
            && (forall k' {:trigger multiset(shas')[k']} :: k' in keys ==>
                  multiset(shas')[k'] == if k' in todo - {k} then 0 else 1)
  {
    forall k' {:trigger multiset(shas + [k])[k']} | k' in keys
      ensures multiset(shas + [k])[k'] == if k' in todo - {k} then 0 else 1
    {
      CountAppend(shas, k, k');
    }
  }

  lemma LabelSectionCounts(branches: map<Sha, seq<string>>, tags: map<Sha, seq<string>>,
                           shaOnesOnLabels: bool, digits: Option<int>, shas: seq<Sha>, section: seq<Line>)
    requires |shas| == |section|
    requires forall i :: 0 <= i < |section| ==>
               section[i] == LabelLine(branches, tags, shas[i], shaOnesOnLabels, digits)
    requires forall i :: 0 <= i < |shas| ==> shas[i] in branches.Keys + tags.Keys
    requires forall k {:trigger multiset(shas)[k]} :: k in branches.Keys + tags.Keys ==> multiset(shas)[k] == 1
    ensures forall l :: l in section ==>
              && l.LabelledNode?
              && HasLabel(branches, tags, l.sha)
              && l == LabelLine(branches, tags, l.sha, shaOnesOnLabels, digits)
    ensures forall k :: HasLabel(branches, tags, k) ==>
              multiset(section)[LabelLine(branches, tags, k, shaOnesOnLabels, digits)] == 1
  {
    forall k | k in branches.Keys + tags.Keys
      ensures multiset(section)[LabelLine(branches, tags, k, shaOnesOnLabels, digits)] == 1
    {
      CountThroughInjection(branches, tags, shaOnesOnLabels, digits, shas, section, k);
    }
  }

  /** Counting node lines is counting their ids, because the line determines its id. */
  lemma {:induction false} CountThroughInjection(branches: map<Sha, seq<string>>, tags: map<Sha, seq<string>>,
                                                shaOnesOnLabels: bool, digits: Option<int>,
                                                shas: seq<Sha>, section: seq<Line>, k: Sha)
    requires |shas| == |section|
    requires forall i :: 0 <= i < |section| ==>
               section[i] == LabelLine(branches, tags, shas[i], shaOnesOnLabels, digits)
    ensures multiset(section)[LabelLine(branches, tags, k, shaOnesOnLabels, digits)] == multiset(shas)[k]
  {
    if |shas| > 0 {
      var n := |shas| - 1;
      assert shas == shas[..n] + [shas[n]];
      assert section == section[..n] + [section[n]];
      CountThroughInjection(branches, tags, shaOnesOnLabels, digits, shas[..n], section[..n], k);
      CountAppend(shas[..n], shas[n], k);
      CountAppend(section[..n], section[n], LabelLine(branches, tags, k, shaOnesOnLabels, digits));
    }
  }

  /** The elided-history node lines: exactly one for each marked commit. */
  method ElidedSection(dotdot: set<Sha>) returns (section: seq<Line>)
    ensures forall l :: l in section ==> l.ElidedNode? && l.sha in dotdot
    ensures forall k :: k in dotdot ==> multiset(section)[ElidedNode(k)] == 1
  {
    var todo := dotdot;
    section := [];
    while todo != {}
      invariant todo <= dotdot
      invariant forall i :: 0 <= i < |section| ==> section[i].ElidedNode? && section[i].sha in dotdot - todo
      invariant forall k :: k in dotdot ==> multiset(section)[ElidedNode(k)] == if k in todo then 0 else 1
      decreases todo
    {
      var k :| k in todo;
      assert ElidedNode(k) !in section;
      section := section + [ElidedNode(k)];
      todo := todo - {k};
    }
  }

  /** The commits of the parent map that get a plain node line when ids are truncated. */
  function PlainKeys(parents: ParentMap, branches: map<Sha, seq<string>>, tags: map<Sha, seq<string>>,
                     dotdot: set<Sha>): set<Sha>
  {
    set e | e in parents && !HasLabel(branches, tags, e) && e !in dotdot
  }

  /**
   * The plain node lines: none unless ids are truncated, and then exactly one,
   * labelled with the short id, for each unlabelled and unelided commit of the parent map.
   */
  method PlainSection(parents: ParentMap, branches: map<Sha, seq<string>>, tags: map<Sha, seq<string>>,
                      dotdot: set<Sha>, digits: Option<int>) returns (section: seq<Line>)
    ensures !Truncating(digits) ==> section == []
    ensures forall l :: l in section ==>
              && l.PlainNode?
              && l.sha in PlainKeys(parents, branches, tags, dotdot)
              && l.shortId == FormatSha(l.sha, digits)
    ensures Truncating(digits) ==>
              forall k :: k in PlainKeys(parents, branches, tags, dotdot) ==>
                multiset(section)[PlainNode(k, FormatSha(k, digits))] == 1
  {
    section := [];
    if Truncating(digits) {
      var keys := PlainKeys(parents, branches, tags, dotdot);
      var todo := keys;
      while todo != {}
        invariant todo <= keys
        invariant forall i :: 0 <= i < |section| ==>
                    && section[i].PlainNode?
                    && section[i].sha in keys - todo
                    && section[i].shortId == FormatSha(section[i].sha, digits)
        invariant forall k :: k in keys ==>
                    multiset(section)[PlainNode(k, FormatSha(k, digits))] == if k in todo then 0 else 1
        decreases todo
      {
        var k :| k in todo;
        var line := PlainNode(k, FormatSha(k, digits));
        assert line !in section;
        section := section + [line];
        todo := todo - {k};
      }
    }
  }

  /** `child -> p` for each `p` of `ps`, in order. */
  function EdgeLines(child: Sha, ps: seq<Sha>): (r: seq<Line>)
    ensures |r| == |ps| && forall i :: 0 <= i < |r| ==> r[i] == Edge(child, ps[i])
  {
    if ps == [] then [] else EdgeLines(child, ps[..|ps| - 1]) + [Edge(child, ps[|ps| - 1])]
  }

  lemma {:induction false} EdgeLinesCount(child: Sha, ps: seq<Sha>, c: Sha, p: Sha)
    ensures multiset(EdgeLines(child, ps))[Edge(c, p)] == if c == child then multiset(ps)[p] else 0
  {
    if ps != [] {
      var n := |ps| - 1;
      assert ps == ps[..n] + [ps[n]];
      EdgeLinesCount(child, ps[..n], c, p);
      CountAppend(EdgeLines(child, ps[..n]), Edge(child, ps[n]), Edge(c, p));
      CountAppend(ps[..n], ps[n], p);
    }
  }

  /** Appending the edge lines of one more commit keeps the edge-section invariant. */
  lemma EdgeSectionGrows(parents: ParentMap, todo: set<Sha>, child: Sha, before: seq<Line>, after: seq<Line>)
    requires child in todo && child in parents
    requires forall i :: 0 <= i < |before| ==> before[i].Edge?
    requires forall c, p :: multiset(before)[Edge(c, p)] ==
               if c in parents && c !in todo then multiset(parents[c])[p] else 0
    requires after == before + EdgeLines(child, parents[child])
    ensures forall i :: 0 <= i < |after| ==> after[i].Edge?
    ensures forall c, p :: multiset(after)[Edge(c, p)] ==
              if c in parents && c !in todo - {child} then multiset(parents[c])[p] else 0
  {
    forall c, p
      ensures multiset(after)[Edge(c, p)] ==
              if c in parents && c !in todo - {child} then multiset(parents[c])[p] else 0
    {
      EdgeLinesCount(child, parents[child], c, p);
    }
  }

  /** The edge lines: one `child -> parent` line per occurrence of `parent` in the parent list of `child`. */
  method EdgeSection(parents: ParentMap) returns (section: seq<Line>)
    ensures forall i :: 0 <= i < |section| ==> section[i].Edge?
    ensures forall c, p :: multiset(section)[Edge(c, p)] == if c in parents then multiset(parents[c])[p] else 0
  {
    var todo := parents.Keys;
    section := [];
    while todo != {}
      invariant todo <= parents.Keys
      invariant forall i :: 0 <= i < |section| ==> section[i].Edge?
      invariant forall c, p :: multiset(section)[Edge(c, p)] ==
                  if c in parents && c !in todo then multiset(parents[c])[p] else 0
      decreases todo
    {
      var child :| child in todo;
      var ps := parents[child];
      ghost var before := section;
      var j := 0;
      while j < |ps|
        invariant 0 <= j <= |ps|
        invariant section == before + EdgeLines(child, ps[..j])
      {
        assert ps[..j + 1][..j] == ps[..j];
        section := section + [Edge(child, ps[j])];
        j := j + 1;
      }
      assert ps[..j] == ps;
      EdgeSectionGrows(parents, todo, child, before, section);
      todo := todo - {child};
    }
  }

  /** Every line of `section` belongs to block `rank`. */
  ghost predicate InBlock(section: seq<Line>, rank: nat)
  {
    forall i :: 0 <= i < |section| ==> Rank(section[i]) == rank
  }

  /** A block holds no line of another block. */
  lemma OutsideBlock(section: seq<Line>, rank: nat, x: Line)
    requires InBlock(section, rank) && Rank(x) != rank
    ensures multiset(section)[x] == 0
  {
    assert forall i :: 0 <= i < |section| ==> section[i] != x;
  }

  /**
   * The file `_generate_dot_file` assembles: the opening line, the four blocks
   * in order, the closing line.
   */
  lemma DocumentLayout(labelled: seq<Line>, elided: seq<Line>, plain: seq<Line>, edges: seq<Line>, doc: seq<Line>)
    requires InBlock(labelled, 1) && InBlock(elided, 2) && InBlock(plain, 3) && InBlock(edges, 4)
    requires doc == [Open] + labelled + elided + plain + edges + [Close]
    ensures doc[0] == Open && doc[|doc| - 1] == Close
    ensures forall i :: 0 < i < |doc| - 1 ==> 0 < Rank(doc[i]) < 5
    ensures forall i, j :: 0 <= i < j < |doc| ==> Rank(doc[i]) <= Rank(doc[j])
  {
    var b := 1 + |labelled|;
    var c := b + |elided|;
    var d := c + |plain|;
    var e := d + |edges|;
    assert forall i :: 0 <= i < |doc| ==>
      Rank(doc[i]) == if i == 0 then 0 else if i < b then 1 else if i < c then 2
                      else if i < d then 3 else if i < e then 4 else 5 by {
      forall i | 0 <= i < |doc|
        ensures Rank(doc[i]) == if i == 0 then 0 else if i < b then 1 else if i < c then 2
                                else if i < d then 3 else if i < e then 4 else 5 {
        if 0 < i < b {
          assert doc[i] == labelled[i - 1];
        } else if b <= i < c {
          assert doc[i] == elided[i - b];
        } else if c <= i < d {
          assert doc[i] == plain[i - c];
        } else if d <= i < e {
          assert doc[i] == edges[i - d];
        }
      }
    }
  }

  /** Each line of the assembled file is counted in its own block. */
  lemma DocumentCounts(labelled: seq<Line>, elided: seq<Line>, plain: seq<Line>, edges: seq<Line>)
    requires InBlock(labelled, 1) && InBlock(elided, 2) && InBlock(plain, 3) && InBlock(edges, 4)
    ensures var doc := [Open] + labelled + elided + plain + edges + [Close];
            && (forall x :: Rank(x) == 1 ==> multiset(doc)[x] == multiset(labelled)[x])
            && (forall x :: Rank(x) == 2 ==> multiset(doc)[x] == multiset(elided)[x])
            && (forall x :: Rank(x) == 3 ==> multiset(doc)[x] == multiset(plain)[x])
            && (forall x :: Rank(x) == 4 ==> multiset(doc)[x] == multiset(edges)[x])
  {
    var doc := [Open] + labelled + elided + plain + edges + [Close];
    assert multiset(doc) == multiset{Open} + multiset(labelled) + multiset(elided)
                            + multiset(plain) + multiset(edges) + multiset{Close};
    forall x | 0 < Rank(x) < 5 ensures multiset(doc)[x] == (if Rank(x) == 1 then multiset(labelled)[x]
                                                          else if Rank(x) == 2 then multiset(elided)[x]
                                                          else if Rank(x) == 3 then multiset(plain)[x]
                                                          else multiset(edges)[x]) {
      if Rank(x) != 1 { OutsideBlock(labelled, 1, x); }
      if Rank(x) != 2 { OutsideBlock(elided, 2, x); }
      if Rank(x) != 3 { OutsideBlock(plain, 3, x); }
      if Rank(x) != 4 { OutsideBlock(edges, 4, x); }
    }
  }

  /** Where each kind of node line of the assembled file comes from. */
  lemma DocumentNodes(branches: map<Sha, seq<string>>, tags: map<Sha, seq<string>>, parents: ParentMap,
                      dotdot: set<Sha>, shaOnesOnLabels: bool, digits: Option<int>,
                      labelled: seq<Line>, elided: seq<Line>, plain: seq<Line>, edges: seq<Line>, doc: seq<Line>)
    requires forall l :: l in labelled ==>
               && l.LabelledNode?
               && HasLabel(branches, tags, l.sha)
               && l == LabelLine(branches, tags, l.sha, shaOnesOnLabels, digits)
    requires forall l :: l in elided ==> l.ElidedNode? && l.sha in dotdot
    requires !Truncating(digits) ==> plain == []
    requires forall l :: l in plain ==>
               && l.PlainNode?
               && l.sha in PlainKeys(parents, branches, tags, dotdot)
               && l.shortId == FormatSha(l.sha, digits)
    requires forall i :: 0 <= i < |edges| ==> edges[i].Edge?
    requires doc == [Open] + labelled + elided + plain + edges + [Close]
    ensures forall l :: l in doc && l.LabelledNode? ==>
              HasLabel(branches, tags, l.sha) && l == LabelLine(branches, tags, l.sha, shaOnesOnLabels, digits)
    ensures forall l :: l in doc && l.ElidedNode? ==> l.sha in dotdot
    ensures forall l :: l in doc && l.PlainNode? ==>
              && Truncating(digits)
              && l.sha in parents && !HasLabel(branches, tags, l.sha) && l.sha !in dotdot
              && l.shortId == FormatSha(l.sha, digits)
  {
    forall l | l in doc && !l.Open? && !l.Close?
      ensures l.LabelledNode? ==> l in labelled
      ensures l.ElidedNode? ==> l in elided
      ensures l.PlainNode? ==> l in plain
    {
      assert l in labelled || l in elided || l in plain || l in edges;
    }
  }

  /** How often each node and edge line occurs in the assembled file. */
  lemma DocumentTally(branches: map<Sha, seq<string>>, tags: map<Sha, seq<string>>, parents: ParentMap,
                      dotdot: set<Sha>, shaOnesOnLabels: bool, digits: Option<int>,
                      labelled: seq<Line>, elided: seq<Line>, plain: seq<Line>, edges: seq<Line>, doc: seq<Line>)
    requires InBlock(labelled, 1) && InBlock(elided, 2) && InBlock(plain, 3) && InBlock(edges, 4)
    requires forall k :: HasLabel(branches, tags, k) ==>
               multiset(labelled)[LabelLine(branches, tags, k, shaOnesOnLabels, digits)] == 1
    requires forall k :: k in dotdot ==> multiset(elided)[ElidedNode(k)] == 1
    requires Truncating(digits) ==>
               forall k :: k in PlainKeys(parents, branches, tags, dotdot) ==>
                 multiset(plain)[PlainNode(k, FormatSha(k, digits))] == 1
    requires forall c, p {:trigger multiset(edges)[Edge(c, p)]} ::
               multiset(edges)[Edge(c, p)] == if c in parents then multiset(parents[c])[p] else 0
    requires doc == [Open] + labelled + elided + plain + edges + [Close]
    ensures forall k :: HasLabel(branches, tags, k) ==>
              multiset(doc)[LabelLine(branches, tags, k, shaOnesOnLabels, digits)] == 1
    ensures forall k :: k in dotdot ==> multiset(doc)[ElidedNode(k)] == 1
    ensures Truncating(digits) ==>
              forall k :: k in parents && !HasLabel(branches, tags, k) && k !in dotdot ==>
                multiset(doc)[PlainNode(k, FormatSha(k, digits))] == 1
    ensures forall c, p {:trigger multiset(doc)[Edge(c, p)]} ::
              multiset(doc)[Edge(c, p)] == if c in parents then multiset(parents[c])[p] else 0
  {
    DocumentCounts(labelled, elided, plain, edges);
    assert doc == [Open] + labelled + elided + plain + edges + [Close];
  }

  /**
   * What the DOT file of a graph consists of: the opening line, then the
   * labelled nodes, the elided nodes, the plain nodes and the edges, in that
   * order, then the closing line. Each labelled commit has exactly one node
   * line, with its sorted names and its colour; each elided commit one; each
   * remaining commit of the parent map one, with its short id, when ids are
   * truncated and none otherwise; and each parent link `c -> p` occurs as
   * often as `p` is listed among the parents of `c`.
   */
  ghost predicate IsDocument(branches: map<Sha, seq<string>>, tags: map<Sha, seq<string>>, parents: ParentMap,
                             dotdot: set<Sha>, shaOnesOnLabels: bool, digits: Option<int>, doc: seq<Line>)
  {
    && |doc| >= 2 && doc[0] == Open && doc[|doc| - 1] == Close
    && (forall i :: 0 < i < |doc| - 1 ==> 0 < Rank(doc[i]) < 5)
    && (forall i, j :: 0 <= i < j < |doc| ==> Rank(doc[i]) <= Rank(doc[j]))
    && (forall l :: l in doc && l.LabelledNode? ==>
          HasLabel(branches, tags, l.sha) && l == LabelLine(branches, tags, l.sha, shaOnesOnLabels, digits))
    && (forall k :: HasLabel(branches, tags, k) ==>
          multiset(doc)[LabelLine(branches, tags, k, shaOnesOnLabels, digits)] == 1)
    && (forall l :: l in doc && l.ElidedNode? ==> l.sha in dotdot)
    && (forall k :: k in dotdot ==> multiset(doc)[ElidedNode(k)] == 1)
    && (forall l :: l in doc && l.PlainNode? ==>
          && Truncating(digits)
          && l.sha in parents && !HasLabel(branches, tags, l.sha) && l.sha !in dotdot
          && l.shortId == FormatSha(l.sha, digits))
    && (Truncating(digits) ==>
          forall k :: k in parents && !HasLabel(branches, tags, k) && k !in dotdot ==>
            multiset(doc)[PlainNode(k, FormatSha(k, digits))] == 1)
    && (forall c, p {:trigger multiset(doc)[Edge(c, p)]} ::
          multiset(doc)[Edge(c, p)] == if c in parents then multiset(parents[c])[p] else 0)
  }

  /** The four sections, put between the opening and the closing line, make up the DOT file. */
  lemma AssembledDocument(branches: map<Sha, seq<string>>, tags: map<Sha, seq<string>>, parents: ParentMap,
                          dotdot: set<Sha>, shaOnesOnLabels: bool, digits: Option<int>,
                          labelled: seq<Line>, elided: seq<Line>, plain: seq<Line>, edges: seq<Line>, doc: seq<Line>)
    requires forall l :: l in labelled ==>
               && l.LabelledNode?
               && HasLabel(branches, tags, l.sha)
               && l == LabelLine(branches, tags, l.sha, shaOnesOnLabels, digits)
    requires forall k :: HasLabel(branches, tags, k) ==>
               multiset(labelled)[LabelLine(branches, tags, k, shaOnesOnLabels, digits)] == 1
    requires forall l :: l in elided ==> l.ElidedNode? && l.sha in dotdot
    requires forall k :: k in dotdot ==> multiset(elided)[ElidedNode(k)] == 1
    requires !Truncating(digits) ==> plain == []
    requires forall l :: l in plain ==>
               && l.PlainNode?
               && l.sha in PlainKeys(parents, branches, tags, dotdot)
               && l.shortId == FormatSha(l.sha, digits)
    requires Truncating(digits) ==>
               forall k :: k in PlainKeys(parents, branches, tags, dotdot) ==>
                 multiset(plain)[PlainNode(k, FormatSha(k, digits))] == 1
    requires forall i :: 0 <= i < |edges| ==> edges[i].Edge?
    requires forall c, p {:trigger multiset(edges)[Edge(c, p)]} ::
               multiset(edges)[Edge(c, p)] == if c in parents then multiset(parents[c])[p] else 0
    requires doc == [Open] + labelled + elided + plain + edges + [Close]
    ensures IsDocument(branches, tags, parents, dotdot, shaOnesOnLabels, digits, doc)
  {
    assert InBlock(labelled, 1) && InBlock(elided, 2) && InBlock(plain, 3) && InBlock(edges, 4);
    DocumentLayout(labelled, elided, plain, edges, doc);
    DocumentNodes(branches, tags, parents, dotdot, shaOnesOnLabels, digits, labelled, elided, plain, edges, doc);
    DocumentTally(branches, tags, parents, dotdot, shaOnesOnLabels, digits, labelled, elided, plain, edges, doc);
  }
}
