/** The scores of a merge result, determined by counting above every bound. */
module MergeScores {
  import opened Sequences
  import opened TopAnswers
  import opened MergeResults
  import opened MergeTheorems

  function Max(a: real, b: real): real {
    if a >= b then a else b
  }

  function Scores(items: seq<Item>): seq<real> {
    if items == [] then [] else [Score(items[0])] + Scores(items[1..])
  }

  ghost predicate NonIncreasing(scores: seq<real>) {
    scores == [] || ((forall i :: 0 < i < |scores| ==> scores[0] >= scores[i]) && NonIncreasing(scores[1..]))
  }

  function Above(scores: seq<real>, v: real): nat {
    if scores == [] then 0 else (if scores[0] >= v then 1 else 0) + Above(scores[1..], v)
  }

  lemma {:induction false} ScoresAt(items: seq<Item>)
    ensures |Scores(items)| == |items|
    ensures forall i :: 0 <= i < |items| ==> Scores(items)[i] == Score(items[i])
    ensures forall v :: Above(Scores(items), v) == Count(items, Ge(v))
  {
    if items != [] {
      ScoresAt(items[1..]);
      forall i | 0 < i < |items| ensures Scores(items)[i] == Score(items[i]) {
        assert Scores(items[1..])[i - 1] == Score(items[1..][i - 1]);
      }
      forall v ensures Above(Scores(items), v) == Count(items, Ge(v)) {
        assert Above(Scores(items[1..]), v) == Count(items[1..], Ge(v));
        assert Scores(items)[1..] == Scores(items[1..]);
      }
    }
  }

  lemma {:induction false} RankedScores(items: seq<Item>)
    requires SortedBy(items, Descending())
    ensures NonIncreasing(Scores(items))
  {
    if items != [] {
      RankedScores(items[1..]);
      ScoresAt(items);
      assert Scores(items)[1..] == Scores(items[1..]);
      forall i | 0 < i < |items| ensures Scores(items)[0] >= Scores(items)[i] {
        SortedAt(items, Descending(), 0, i);
      }
    }
  }

  lemma {:induction false} AboveNone(scores: seq<real>, v: real)
    requires forall i :: 0 <= i < |scores| ==> scores[i] < v
    ensures Above(scores, v) == 0
  {
    if scores != [] {
      AboveNone(scores[1..], v);
    }
  }

  /** Non-increasing sequences with the same counts above every bound are equal. */
  lemma {:induction false} SameScores(a: seq<real>, b: seq<real>)
    requires NonIncreasing(a) && NonIncreasing(b)
    requires forall v :: Above(a, v) == Above(b, v)
    ensures a == b
  {
    if b != [] {
      assert Above(a, b[0]) == Above(b, b[0]);
    }
    if a != [] {
      assert Above(a, a[0]) == Above(b, a[0]);
      if b == [] || b[0] < a[0] {
        AboveNone(b, a[0]);
      } else if a[0] < b[0] {
        AboveNone(a, b[0]);
      }
      forall v ensures Above(a[1..], v) == Above(b[1..], v) {
        assert Above(a, v) == Above(b, v);
      }
      SameScores(a[1..], b[1..]);
    }
  }

  lemma {:induction false} AtLeastCount(items: seq<Item>, threshold: real, v: real)
    ensures Count(AtLeast(items, threshold), Ge(v)) == Count(items, Ge(Max(v, threshold)))
  {
    if items != [] {
      AtLeastCount(items[1..], threshold, v);
      assert ([items[0]] + AtLeast(items[1..], threshold))[1..] == AtLeast(items[1..], threshold);
    }
  }

  lemma {:induction false} PrefixCount(items: seq<Item>, n: nat, v: real)
    requires SortedBy(items, Descending()) && n <= |items|
    ensures Count(items[..n], Ge(v)) == Min(n, Count(items, Ge(v)))
  {
    if n > 0 {
      PrefixCount(items[1..], n - 1, v);
      assert items[..n][1..] == items[1..][..n - 1];
      if Score(items[0]) < v {
        forall i | 0 <= i < |items[1..]| ensures Score(items[1..][i]) < v {
          SortedAt(items, Descending(), 0, i + 1);
        }
        CountZero(items[1..], Ge(v));
      }
    }
  }

  lemma {:induction false} PrefixSorted(items: seq<Item>, n: nat)
    requires SortedBy(items, Descending()) && n <= |items|
    ensures SortedBy(items[..n], Descending())
  {
    if n > 0 {
      PrefixSorted(items[1..], n - 1);
      assert items[..n][1..] == items[1..][..n - 1];
    }
  }

  /** Above every bound, a result holds what the merged entries hold above bound and threshold,
      up to `topK`. */
  lemma ResultCount(groups: seq<seq<Item>>, topK: nat, threshold: real, v: real)
    ensures Count(Result(groups, topK, threshold), Ge(v)) ==
            Min(topK, Count(Dedup(Flatten(groups)), Ge(Max(v, threshold))))
    ensures NonIncreasing(Scores(Result(groups, topK, threshold)))
  {
    var merged, ranked := Dedup(Flatten(groups)), Ranked(groups);
    var kept := AtLeast(ranked, threshold);
    SortByProps(merged, Descending());
    AtLeastSplits(ranked, threshold);
    PrefixSorted(ranked, |kept|);
    assert ranked[..|kept|] == kept;
    AtLeastCount(ranked, threshold, v);
    CountSame(ranked, merged, Ge(Max(v, threshold)));
    var n := if topK < |kept| then topK else |kept|;
    assert Result(groups, topK, threshold) == kept[..n];
    PrefixCount(kept, n, v);
    PrefixSorted(kept, n);
    RankedScores(kept[..n]);
    hide Ranked, AtLeast, Dedup, Flatten;
  }
}
