/** Documents behind hits: a search may return several hits of one document, and the merge keeps the
    first of them. */
module Documents {
  import opened Sequences
  import opened MergeResults
  import opened MergeTheorems

  // ----- what deduplication keeps

  lemma {:induction false} FirstsFrom(items: seq<Item>, n: nat, x: Item)
    requires n <= |items| && x in Firsts(items, n)
    ensures x in items
  {
    if n > 0 && x in Firsts(items, n - 1) {
      FirstsFrom(items, n - 1, x);
    }
  }

  lemma {:induction false} FirstsMember(items: seq<Item>, n: nat, x: Item)
    requires n <= |items|
    ensures x in Firsts(items, n) <==> exists i :: 0 <= i < n && IsFirst(items, i) && items[i] == x
  {
    if n > 0 {
      FirstsMember(items, n - 1, x);
      hide IsFirst;
    }
  }

  lemma DedupMember(items: seq<Item>, x: Item)
    ensures x in Dedup(items) <==> exists i :: 0 <= i < |items| && IsFirst(items, i) && items[i] == x
  {
    DedupIsFirsts(items);
    FirstsMember(items, |items|, x);
  }

  lemma DedupFrom(items: seq<Item>, x: Item)
    requires x in Dedup(items)
    ensures x in items && Identified(x)
  {
    DedupMember(items, x);
  }

  /** Some entry has the key. */
  ghost predicate HasEntry(items: seq<Item>, k: string) {
    exists j :: 0 <= j < |items| && Key(items[j]) == k
  }

  lemma EntryKept(items: seq<Item>, k: string)
    requires HasEntry(items, k) && k != ""
    ensures k in Keys(Dedup(items))
  {
    var j :| 0 <= j < |items| && Key(items[j]) == k;
    DedupIsFirsts(items);
    FirstsCover(items, |items|, j);
  }

  /** Every identified entry has a kept entry with its key. */
  lemma KeptFor(items: seq<Item>, y: Item) returns (x: Item)
    requires y in items && Identified(y)
    ensures x in Dedup(items) && Key(x) == Key(y)
  {
    var j :| 0 <= j < |items| && items[j] == y;
    assert HasEntry(items, Key(y));
    EntryKept(items, Key(y));
    var i := KeyFrom(Dedup(items), Key(y));
    x := Dedup(items)[i];
  }

  /** What is kept of two groups is kept of one of them. */
  lemma DedupJoin(a: seq<Item>, b: seq<Item>, x: Item)
    requires x in Dedup(a + b)
    ensures x in Dedup(a) || x in Dedup(b)
  {
    DedupMember(a + b, x);
    var i :| 0 <= i < |a + b| && IsFirst(a + b, i) && (a + b)[i] == x;
    hide Dedup, Key, Identified;
    if i < |a| {
      assert forall j :: 0 <= j <= i ==> (a + b)[j] == a[j];
      assert IsFirst(a, i);
      DedupMember(a, x);
    } else {
      assert forall j :: 0 <= j <= i - |a| ==> b[j] == (a + b)[|a| + j];
      assert IsFirst(b, i - |a|);
      DedupMember(b, x);
    }
  }

  lemma {:induction false} DedupGroups(groups: seq<seq<Item>>, x: Item) returns (g: seq<Item>)
    requires x in Dedup(Flatten(groups))
    ensures g in groups && x in Dedup(g)
  {
    if groups != [] {
      hide Dedup;
      DedupJoin(groups[0], Flatten(groups[1..]), x);
      if x in Dedup(groups[0]) {
        g := groups[0];
      } else {
        g := DedupGroups(groups[1..], x);
      }
    }
  }

  // ----- counting documents

  /** The documents with a hit. */
  ghost function IdKeys(items: seq<Item>): set<string> {
    set x | x in items && Identified(x) :: Key(x)
  }

  /** The documents with a hit at or above the bound. */
  ghost function KeysAbove(items: seq<Item>, v: real): set<string> {
    set x | x in items && Identified(x) && Score(x) >= v :: Key(x)
  }

  lemma KeysAboveGrow(some: seq<Item>, all: seq<Item>, v: real, w: real)
    requires w <= v && forall x :: x in some ==> x in all
    ensures KeysAbove(some, v) <= KeysAbove(all, w)
  {
    hide Key, Identified, Score;
  }

  /** The first hit of each document is its best. A descending list is so, and any list in which
      no document occurs twice. */
  ghost predicate BestFirst(items: seq<Item>) {
    forall x, y :: x in Dedup(items) && y in items && Key(x) == Key(y) ==> Score(y) <= Score(x)
  }

  lemma SortedIsBestFirst(items: seq<Item>)
    requires SortedBy(items, Descending())
    ensures BestFirst(items)
  {
    forall x, y | x in Dedup(items) && y in items && Key(x) == Key(y) ensures Score(y) <= Score(x) {
      DedupMember(items, x);
      var i :| 0 <= i < |items| && IsFirst(items, i) && items[i] == x;
      var j :| 0 <= j < |items| && items[j] == y;
      hide Dedup, Key;
      if i < j {
        SortedAt(items, Descending(), i, j);
      }
    }
  }

  lemma {:induction false} DistinctSame(items: seq<Item>, x: Item, y: Item)
    requires DistinctKeys(items) && x in items && y in items && Key(x) == Key(y)
    ensures x == y
  {
    var n := |items| - 1;
    hide Key, Keys;
    if x in items[..n] && y in items[..n] {
      DistinctSame(items[..n], x, y);
    } else {
      assert items == items[..n] + [items[n]];
      if x != items[n] {
        var i :| 0 <= i < n && items[..n][i] == x;
        KeyIn(items[..n], i);
      } else if y != items[n] {
        var i :| 0 <= i < n && items[..n][i] == y;
        KeyIn(items[..n], i);
      }
    }
  }

  lemma DistinctIsBestFirst(items: seq<Item>)
    requires DistinctKeys(items)
    ensures BestFirst(items)
  {
    DedupOfDistinct(items);
    forall x, y | x in items && y in items && Key(x) == Key(y) ensures Score(y) <= Score(x) {
      DistinctSame(items, x, y);
    }
  }

  lemma NewKey(past: seq<Item>, last: Item)
    requires Key(last) !in Keys(past)
    ensures forall x :: x in past ==> Key(x) != Key(last)
  {
    forall x | x in past ensures Key(x) != Key(last) {
      var i :| 0 <= i < |past| && past[i] == x;
      KeyIn(past, i);
    }
  }

  lemma KeysSnoc(past: seq<Item>, last: Item, v: real)
    requires Identified(last)
    ensures IdKeys(past + [last]) == IdKeys(past) + {Key(last)}
    ensures KeysAbove(past + [last], v) == KeysAbove(past, v) + if Score(last) >= v then {Key(last)} else {}
  {
    hide Key, Identified, Score;
    assert forall x :: x in past + [last] <==> x in past || x == last;
  }

  lemma {:induction false} DistinctCard(items: seq<Item>, v: real)
    requires DistinctKeys(items)
    ensures |IdKeys(items)| == |items| && |KeysAbove(items, v)| == Count(items, Ge(v))
  {
    if items != [] {
      var n := |items| - 1;
      var past, last := items[..n], items[n];
      DistinctCard(past, v);
      CountAppend(past, [last], Ge(v));
      CountOne(last, Ge(v));
      NewKey(past, last);
      KeysSnoc(past, last, v);
      assert past + [last] == items;
      assert Key(last) !in IdKeys(past) && Key(last) !in KeysAbove(past, v);
      hide Key, Keys, Identified, IdKeys, KeysAbove, Count;
    }
  }

  lemma DedupDistinct(items: seq<Item>)
    ensures DistinctKeys(Dedup(items))
  {
    DedupIsFirsts(items);
    FirstsDistinct(items, |items|);
  }

  lemma DedupKeys(items: seq<Item>)
    ensures IdKeys(Dedup(items)) == IdKeys(items)
  {
    hide Dedup, Key, Identified;
    forall y | y in items && Identified(y) ensures Key(y) in IdKeys(Dedup(items)) {
      var x := KeptFor(items, y);
      DedupFrom(items, x);
    }
    forall x | x in Dedup(items) ensures x in items && Identified(x) {
      DedupFrom(items, x);
    }
  }

  /** Deduplication leaves one entry per document. */
  lemma DocumentCount(items: seq<Item>)
    ensures |Dedup(items)| == |IdKeys(items)|
  {
    DedupDistinct(items);
    DistinctCard(Dedup(items), 0.0);
    DedupKeys(items);
    hide Dedup, IdKeys, DistinctKeys;
  }

  /** With best hits first, deduplication leaves above a bound one entry per document with a hit
      above it. */
  lemma DocumentsAbove(items: seq<Item>, v: real)
    requires BestFirst(items)
    ensures Count(Dedup(items), Ge(v)) == |KeysAbove(items, v)|
  {
    DedupDistinct(items);
    DistinctCard(Dedup(items), v);
    hide Dedup, Key, Identified, DistinctKeys, Score, Count;
    forall y | y in items && Identified(y) && Score(y) >= v ensures Key(y) in KeysAbove(Dedup(items), v) {
      var x := KeptFor(items, y);
      DedupFrom(items, x);
    }
    forall x | x in Dedup(items) ensures x in items && Identified(x) {
      DedupFrom(items, x);
    }
    assert KeysAbove(Dedup(items), v) == KeysAbove(items, v);
  }
}
