/**
 * The shortest id prefix, at least 7 characters long, that keeps every commit
 * of the parent map distinct; 40 (a full SHA-1) when no shorter one does.
 */
module Digits {
  import opened Strings
  import opened Graphs

  /** The shortest prefix length tried. */
  const MinDigits := 7
  /** The length of a full SHA-1 in hex, the fallback. */
  const FullDigits := 40

  /** The ids cut to their first `d` characters. */
  function Prefixes(keys: set<Sha>, d: int): set<Sha>
  {
    set e | e in keys :: Prefix(e, d)
  }

  /** The source's test: as many distinct prefixes as there are keys. */
  predicate Unambiguous(keys: set<Sha>, d: int)
  {
    |Prefixes(keys, d)| == |keys|
  }

  /** Prefixes of length `d` tell any two keys apart. */
  ghost predicate PrefixInjective(keys: set<Sha>, d: int)
  {
    forall a, b :: a in keys && b in keys && Prefix(a, d) == Prefix(b, d) ==> a == b
  }

  lemma {:induction false} ImageNoLarger(keys: set<Sha>, d: int)
    ensures |Prefixes(keys, d)| <= |keys|
    decreases |keys|
  {
    if keys != {} {
      var x :| x in keys;
      var rest := keys - {x};
      ImageNoLarger(rest, d);
      assert Prefixes(keys, d) == Prefixes(rest, d) + {Prefix(x, d)};
    }
  }

  /** Counting distinct prefixes, as the source does, is the same as asking that no two keys share one. */
  lemma {:induction false} UnambiguousIffInjective(keys: set<Sha>, d: int)
    ensures Unambiguous(keys, d) <==> PrefixInjective(keys, d)
    decreases |keys|
  {
    if keys != {} {
      var x :| x in keys;
      var rest := keys - {x};
      assert Prefixes(keys, d) == Prefixes(rest, d) + {Prefix(x, d)};
      UnambiguousIffInjective(rest, d);
      ImageNoLarger(rest, d);
      if PrefixInjective(keys, d) {
        assert PrefixInjective(rest, d);
        assert Prefix(x, d) !in Prefixes(rest, d);
      } else {
        var a, b :| a in keys && b in keys && Prefix(a, d) == Prefix(b, d) && a != b;
        var keep := keys - {a};
        assert Prefixes(keys, d) == Prefixes(keep, d);
        ImageNoLarger(keep, d);
      }
    }
  }

  /** A prefix length that tells the keys apart keeps doing so when it grows. */
  lemma Monotone(keys: set<Sha>, d: int, e: int)
    requires 0 <= d <= e
    requires Unambiguous(keys, d)
    ensures Unambiguous(keys, e)
  {
    UnambiguousIffInjective(keys, d);
    UnambiguousIffInjective(keys, e);
    forall a, b | a in keys && b in keys && Prefix(a, e) == Prefix(b, e) ensures Prefix(a, d) == Prefix(b, d) {
      assert Prefix(a, d) == Prefix(a, e)[..|Prefix(a, d)|];
      assert Prefix(b, d) == Prefix(b, e)[..|Prefix(b, d)|];
    }
  }

  /** The fallback is sound: full-length prefixes always tell ids of at most 40 characters apart. */
  lemma FullLengthUnambiguous(keys: set<Sha>)
    requires forall e :: e in keys ==> |e| <= FullDigits
    ensures Unambiguous(keys, FullDigits)
  {
    assert Prefixes(keys, FullDigits) == keys;
  }

  /** The search of `_minimal_sha_one_digits` from prefix length `d` on. */
  function MinimalDigitsFrom(keys: set<Sha>, d: int): (r: int)
    requires MinDigits <= d <= FullDigits
    ensures d <= r <= FullDigits
    ensures r < FullDigits ==> Unambiguous(keys, r)
    ensures forall e :: d <= e < r ==> !Unambiguous(keys, e)
    decreases FullDigits - d
  {
    if d == FullDigits then FullDigits
    else if Unambiguous(keys, d) then d
    else MinimalDigitsFrom(keys, d + 1)
  }

  /** Two distinct ids that agree on their first seven characters need more than seven. */
  lemma SharedSevenNeedMore(a: Sha, b: Sha)
    requires a != b && Prefix(a, MinDigits) == Prefix(b, MinDigits)
    ensures MinimalDigitsFrom({a, b}, MinDigits) > MinDigits
  {
    UnambiguousIffInjective({a, b}, MinDigits);
  }

  /** Two ids that differ within their first seven characters need no more than seven. */
  lemma EarlyDifferenceNeedsSeven(a: Sha, b: Sha)
    requires Prefix(a, MinDigits) != Prefix(b, MinDigits)
    ensures MinimalDigitsFrom({a, b}, MinDigits) == MinDigits
  {
    UnambiguousIffInjective({a, b}, MinDigits);
  }

  /** For example, these two ids, which differ only in their eighth character, need exactly eight. */
  lemma SharedSevenNeedEight()
    ensures MinimalDigitsFrom({"abcdefg1", "abcdefg2"}, MinDigits) == 8
  {
    var keys := {"abcdefg1", "abcdefg2"};
    assert "abcdefg1"[7] != "abcdefg2"[7];
    assert |keys| == 2;
    assert Prefix("abcdefg1", 7) == "abcdefg" == Prefix("abcdefg2", 7);
    assert Prefixes(keys, 7) == {"abcdefg"};
    assert !Unambiguous(keys, 7);
    assert Prefix("abcdefg1", 8) == "abcdefg1" && Prefix("abcdefg2", 8) == "abcdefg2";
    assert Prefixes(keys, 8) == keys;
    assert MinimalDigitsFrom(keys, 8) == 8;
  }

  /** For example, these two ids, which differ in their second character, need seven. */
  lemma EarlyDifferenceExample()
    ensures MinimalDigitsFrom({"ab00000", "ac00000"}, MinDigits) == 7
  {
    var keys := {"ab00000", "ac00000"};
    assert Prefix("ab00000", 7) == "ab00000" && Prefix("ac00000", 7) == "ac00000";
    assert Prefixes(keys, 7) == keys;
  }
}
