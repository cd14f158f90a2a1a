/** What merged search results mean: first occurrences, exact accounting, optimality, and
    the equality of scattering the search over folders with searching their union. */
module MergeTheorems {
  import opened Sequences
  import opened MergeResults

  // ----- deduplication keeps first occurrences

  /** The entry at `i` is identified and the first of the sequence with its key. */
  ghost predicate IsFirst(items: seq<Item>, i: nat)
    requires i < |items|
  {
    Identified(items[i]) && forall j :: 0 <= j < i ==> Key(items[j]) != Key(items[i])
  }

  /** The first occurrences among the first `n` entries, in order. */
  ghost function Firsts(items: seq<Item>, n: nat): seq<Item>
    requires n <= |items|
  {
    if n == 0 then []
    else if IsFirst(items, n - 1) then Firsts(items, n - 1) + [items[n - 1]]
    else Firsts(items, n - 1)
  }

  lemma DedupAppend(items: seq<Item>, it: Item)
    ensures Dedup(items + [it]) == Add(Dedup(items), it)
  {
    AddAllAppend([], items, [it]);
    assert AddAll(Dedup(items), [it]) == AddAll(Add(Dedup(items), it), [it][1..]);
  }

  lemma {:induction false} FirstsCover(items: seq<Item>, n: nat, j: nat)
    requires j < n <= |items| && Identified(items[j])
    ensures Key(items[j]) in Keys(Firsts(items, n))
  {
    hide Key;
    KeysAppend(Firsts(items, n - 1), items[n - 1]);
    if j < n - 1 {
      FirstsCover(items, n - 1, j);
    } else if !IsFirst(items, j) {
      var i :| 0 <= i < j && Key(items[i]) == Key(items[j]);
      FirstsCover(items, n - 1, i);
    }
  }

  lemma {:induction false} FirstsSource(items: seq<Item>, n: nat, k: string) returns (j: nat)
    requires n <= |items| && k in Keys(Firsts(items, n))
    ensures j < n && Key(items[j]) == k
  {
    hide Key;
    if n > 0 {
      KeysAppend(Firsts(items, n - 1), items[n - 1]);
      if k in Keys(Firsts(items, n - 1)) {
        j := FirstsSource(items, n - 1, k);
      } else {
        j := n - 1;
      }
    }
  }

  /** An entry is new to the first occurrences so far exactly if it is a first occurrence. */
  lemma NewIsFirst(items: seq<Item>, n: nat)
    requires n < |items| && Identified(items[n])
    ensures Key(items[n]) !in Keys(Firsts(items, n)) <==> IsFirst(items, n)
  {
    hide Key, Keys;
    if Key(items[n]) in Keys(Firsts(items, n)) {
      var j := FirstsSource(items, n, Key(items[n]));
    } else if !IsFirst(items, n) {
      var j :| 0 <= j < n && Key(items[j]) == Key(items[n]);
      FirstsCover(items, n, j);
    }
  }

  lemma {:induction false} DedupPrefix(items: seq<Item>, n: nat)
    requires n <= |items|
    ensures Dedup(items[..n]) == Firsts(items, n)
  {
    if n > 0 {
      DedupPrefix(items, n - 1);
      DedupAppend(items[..n - 1], items[n - 1]);
      assert items[..n - 1] + [items[n - 1]] == items[..n];
      hide Dedup, Keys, Key, Identified;
      if Identified(items[n - 1]) {
        NewIsFirst(items, n - 1);
      }
    }
  }

  /** Deduplication is exactly the sequence of first occurrences: an entry survives if and only
      if it is identified and no earlier entry has its key, whatever the scores are. */
  lemma DedupIsFirsts(items: seq<Item>)
    ensures Dedup(items) == Firsts(items, |items|)
  {
    DedupPrefix(items, |items|);
    assert items[..|items|] == items;
  }

  /** All entries are identified, and no two have the same key. */
  ghost predicate DistinctKeys(items: seq<Item>) {
    items == [] || (Identified(items[|items| - 1]) &&
      Key(items[|items| - 1]) !in Keys(items[..|items| - 1]) && DistinctKeys(items[..|items| - 1]))
  }

  lemma DistinctAppend(items: seq<Item>, it: Item)
    ensures DistinctKeys(items + [it]) <==> DistinctKeys(items) && Identified(it) && Key(it) !in Keys(items)
  {
    assert (items + [it])[..|items|] == items;
  }

  lemma {:induction false} FirstsDistinct(items: seq<Item>, n: nat)
    requires n <= |items|
    ensures DistinctKeys(Firsts(items, n))
  {
    if n > 0 {
      FirstsDistinct(items, n - 1);
      hide Key, Keys, DistinctKeys;
      if IsFirst(items, n - 1) {
        NewIsFirst(items, n - 1);
        DistinctAppend(Firsts(items, n - 1), items[n - 1]);
      }
    }
  }

  /** Nothing is lost from entries that are already distinct. */
  lemma {:induction false} DedupOfDistinct(items: seq<Item>)
    requires DistinctKeys(items)
    ensures Dedup(items) == items
  {
    if items != [] {
      var n := |items| - 1;
      DedupOfDistinct(items[..n]);
      DedupAppend(items[..n], items[n]);
      assert items[..n] + [items[n]] == items;
    }
  }

  // ----- accounting

  function Skipped(items: seq<Item>): nat {
    if items == [] then 0
    else Skipped(items[..|items| - 1]) + if Identified(items[|items| - 1]) then 0 else 1
  }

  /** Entries whose key some earlier entry has. */
  ghost function Repeats(items: seq<Item>, n: nat): nat
    requires n <= |items|
  {
    if n == 0 then 0
    else Repeats(items, n - 1) + if Identified(items[n - 1]) && !IsFirst(items, n - 1) then 1 else 0
  }

  lemma {:induction false} FirstsCount(items: seq<Item>, n: nat)
    requires n <= |items|
    ensures n == Skipped(items[..n]) + Repeats(items, n) + |Firsts(items, n)|
  {
    if n > 0 {
      FirstsCount(items, n - 1);
      assert items[..n][..n - 1] == items[..n - 1];
    }
  }

  /** How many of `n` ranked entries `xs[:topK]` cuts off; a negative bound counts from the end. */
  function CutOff(n: nat, topK: int): nat {
    if topK >= n then 0 else if topK >= 0 then n - topK else if n >= -topK then -topK else n
  }

  lemma SliceCut(xs: seq<Item>, k: int)
    ensures |Slice(xs, k)| + CutOff(|xs|, k) == |xs|
  {
  }

  /** Every raw entry falls into exactly one class, each counted on the raw entries: skipped
      without an identity, repeated, below the threshold, cut off, or returned. */
  lemma Conservation(groups: seq<seq<Item>>, topK: int, threshold: real)
    ensures var items := Flatten(groups);
            var firsts := Firsts(items, |items|);
            && |items| == Skipped(items) + Repeats(items, |items|) + Count(firsts, Below(threshold))
                          + CutOff(Count(firsts, Ge(threshold)), topK) + |Result(groups, topK, threshold)|
            && |Result(groups, topK, threshold)| <= Count(firsts, Ge(threshold))
  {
    var items := Flatten(groups);
    var firsts := Firsts(items, |items|);
    FirstsCount(items, |items|);
    DedupIsFirsts(items);
    assert items[..|items|] == items;
    SortByProps(firsts, Descending());
    FilterCount(Ranked(groups), Ge(threshold));
    CountSame(Ranked(groups), firsts, Ge(threshold));
    CountSplit(firsts, Ge(threshold), Below(threshold));
    SliceCut(AtLeast(Ranked(groups), threshold), topK);
    hide Firsts, Dedup, SortBy, Slice, Flatten, CutOff;
  }

  // ----- ranking and threshold

  lemma {:induction false} AtLeastSplits(items: seq<Item>, threshold: real)
    requires SortedBy(items, Descending())
    ensures AtLeast(items, threshold) <= items
    ensures forall i :: 0 <= i < |items| ==> (Score(items[i]) >= threshold <==> i < |AtLeast(items, threshold)|)
  {
    if items != [] {
      AtLeastSplits(items[1..], threshold);
      if Score(items[0]) < threshold {
        forall i | 0 < i < |items| ensures Score(items[i]) < threshold {
          assert items[1..][i - 1] == items[i];
          SortedAt(items, Descending(), 0, i);
        }
        if |items| > 1 {
          assert Score(items[1..][0]) < threshold;
        }
      } else {
        forall i | 0 < i < |items|
          ensures Score(items[i]) >= threshold <==> i < |AtLeast(items, threshold)|
        {
          assert items[1..][i - 1] == items[i];
        }
      }
    }
  }

  /** The result is a prefix of the ranking: the entries at or above the threshold come first,
      and no returned entry is outscored by one that was left out. */
  lemma ResultIsBestPrefix(groups: seq<seq<Item>>, topK: int, threshold: real)
    ensures Result(groups, topK, threshold) <= AtLeast(Ranked(groups), threshold) <= Ranked(groups)
    ensures multiset(Ranked(groups)) == multiset(Dedup(Flatten(groups)))
    ensures forall i, j :: 0 <= i < j < |Ranked(groups)| ==> Score(Ranked(groups)[i]) >= Score(Ranked(groups)[j])
    ensures forall i :: 0 <= i < |Ranked(groups)| ==>
              (Score(Ranked(groups)[i]) >= threshold <==> i < |AtLeast(Ranked(groups), threshold)|)
  {
    var ranked := Ranked(groups);
    SortByProps(Dedup(Flatten(groups)), Descending());
    AtLeastSplits(ranked, threshold);
    forall i, j | 0 <= i < j < |ranked| ensures Score(ranked[i]) >= Score(ranked[j]) {
      SortedAt(ranked, Descending(), i, j);
    }
  }

  /** Equal scores keep the order in which the entries were first seen. */
  lemma TiesKeepOrder(groups: seq<seq<Item>>, score: real)
    ensures AtKey(Ranked(groups), Descending(), -score) == AtKey(Dedup(Flatten(groups)), Descending(), -score)
  {
    SortByProps(Dedup(Flatten(groups)), Descending());
  }
}
