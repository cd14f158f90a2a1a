/** Merging the per-folder answers of a scattered search: first occurrence wins, stable
    descending sort by score, threshold, truncation; and the fan-out around it. */
module MergeResults {
  import opened Sequences

  /** One entry of an upstream answer. Absent or falsy identity fields are "", and a score
      that is not a number is None. `Junk` is an entry that is not a dictionary. */
  datatype Item =
    | Junk
    | Doc(docId: string, id: string, documentId: string, score: Option<real>, text: string)

  function Key(it: Item): string {
    if it.Junk? then ""
    else if it.docId != "" then it.docId
    else if it.id != "" then it.id
    else it.documentId
  }

  /** Entries without a stable identity are skipped. */
  predicate Identified(it: Item) {
    Key(it) != ""
  }

  function Score(it: Item): real {
    if it.Doc? && it.score.Some? then it.score.value else 0.0
  }

  function Keys(items: seq<Item>): set<string> {
    if items == [] then {} else Keys(items[..|items| - 1]) + {Key(items[|items| - 1])}
  }

  lemma KeysAppend(items: seq<Item>, it: Item)
    ensures Keys(items + [it]) == Keys(items) + {Key(it)}
  {
    assert (items + [it])[..|items|] == items;
  }

  lemma {:induction false} KeyIn(items: seq<Item>, i: nat)
    requires i < |items|
    ensures Key(items[i]) in Keys(items)
  {
    if i < |items| - 1 {
      KeyIn(items[..|items| - 1], i);
    }
  }

  lemma {:induction false} KeyFrom(items: seq<Item>, k: string) returns (i: nat)
    requires k in Keys(items)
    ensures i < |items| && Key(items[i]) == k
  {
    if k in Keys(items[..|items| - 1]) {
      i := KeyFrom(items[..|items| - 1], k);
    } else {
      i := |items| - 1;
    }
  }

  function Flatten(groups: seq<seq<Item>>): seq<Item> {
    if groups == [] then [] else groups[0] + Flatten(groups[1..])
  }

  /** Adds an identified entry whose key has not been seen before. */
  function Add(kept: seq<Item>, it: Item): seq<Item> {
    if Identified(it) && Key(it) !in Keys(kept) then kept + [it] else kept
  }

  function AddAll(kept: seq<Item>, items: seq<Item>): seq<Item>
    decreases items
  {
    if items == [] then kept else AddAll(Add(kept, items[0]), items[1..])
  }

  function Dedup(items: seq<Item>): seq<Item> {
    AddAll([], items)
  }

  function Descending(): Item -> real {
    it => -Score(it)
  }

  function Ranked(groups: seq<seq<Item>>): seq<Item> {
    SortBy(Dedup(Flatten(groups)), Descending())
  }

  /** Tests a score against a bound. */
  function Ge(v: real): Item -> bool {
    it => Score(it) >= v
  }

  function Below(v: real): Item -> bool {
    it => Score(it) < v
  }

  /** The entries at or above the threshold. */
  function AtLeast(items: seq<Item>, threshold: real): seq<Item> {
    Filter(items, Ge(threshold))
  }

  /** Python's `xs[:k]`: a negative bound counts from the end. */
  function Slice<T>(xs: seq<T>, k: int): (r: seq<T>)
    ensures r <= xs
    ensures k >= 0 ==> |r| == if k < |xs| then k else |xs|
  {
    if 0 <= k < |xs| then xs[..k]
    else if k >= 0 then xs
    else if |xs| + k > 0 then xs[..|xs| + k] else []
  }

  function Result(groups: seq<seq<Item>>, topK: int, threshold: real): seq<Item> {
    Slice(AtLeast(Ranked(groups), threshold), topK)
  }

  lemma {:induction false} AddAllAppend(kept: seq<Item>, xs: seq<Item>, ys: seq<Item>)
    ensures AddAll(kept, xs + ys) == AddAll(AddAll(kept, xs), ys)
    decreases xs
  {
    if xs == [] {
      assert xs + ys == ys;
    } else {
      AddAllAppend(Add(kept, xs[0]), xs[1..], ys);
      assert (xs + ys)[1..] == xs[1..] + ys;
    }
  }

  /** What the filter drops from the ranking is what lies below the threshold. */
  lemma DroppedCount(merged: seq<Item>, threshold: real)
    ensures var ranked := SortBy(merged, Descending());
            |ranked| - |AtLeast(ranked, threshold)| == Count(merged, Below(threshold))
  {
    var ranked := SortBy(merged, Descending());
    SortByProps(merged, Descending());
    FilterCount(ranked, Ge(threshold));
    CountSplit(ranked, Ge(threshold), Below(threshold));
    CountSame(ranked, merged, Below(threshold));
  }

  /** The inner loop: adds the unseen entries of one group to what was collected so far. */
  method Scan(group: seq<Item>, kept: seq<Item>, keys: set<string>) returns (merged: seq<Item>, seen: set<string>)
    requires keys == Keys(kept)
    ensures merged == AddAll(kept, group) && seen == Keys(merged)
  {
    merged, seen := kept, keys;
    for j := 0 to |group|
      invariant AddAll(merged, group[j..]) == AddAll(kept, group) && seen == Keys(merged)
    {
      var it := group[j];
      assert group[j..][1..] == group[j + 1..];
      KeysAppend(merged, it);
      if Identified(it) && Key(it) !in seen {
        seen := seen + {Key(it)};
        merged := merged + [it];
      }
    }
  }

  /** The outer loop, with its set of seen keys. */
  method Collect(groups: seq<seq<Item>>) returns (merged: seq<Item>)
    ensures merged == Dedup(Flatten(groups))
  {
    var seen: set<string> := {};
    merged := [];
    for i := 0 to |groups|
      invariant AddAll(merged, Flatten(groups[i..])) == Dedup(Flatten(groups)) && seen == Keys(merged)
    {
      AddAllAppend(merged, groups[i], Flatten(groups[i + 1..]));
      assert groups[i..][1..] == groups[i + 1..];
      merged, seen := Scan(groups[i], merged, seen);
    }
  }

  /** `_merge_results`: the kept entries and the number dropped below the threshold. */
  method Merge(groups: seq<seq<Item>>, topK: int, threshold: real) returns (items: seq<Item>, dropped: int)
    ensures items == Result(groups, topK, threshold)
    ensures dropped == Count(Dedup(Flatten(groups)), Below(threshold))
  {
    var merged := Collect(groups);
    DroppedCount(merged, threshold);
    merged := SortBy(merged, Descending());
    var kept: seq<Item> := [];
    for i := 0 to |merged|
      invariant kept == AtLeast(merged[..i], threshold)
    {
      FilterAppend(merged[..i], [merged[i]], Ge(threshold));
      assert merged[..i] + [merged[i]] == merged[..i + 1];
      if Score(merged[i]) >= threshold {
        kept := kept + [merged[i]];
      }
    }
    assert merged[..|merged|] == merged;
    items, dropped := Slice(kept, topK), |merged| - |kept|;
  }
}
