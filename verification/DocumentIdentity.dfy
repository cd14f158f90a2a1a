/** Which fields of a hit say what document it belongs to and how it ranks, said of the fields. */
module DocumentIdentity {
  import opened Sequences
  import opened MergeResults
  import opened MergeTheorems
  import opened Documents

  // ----- which hits are one document

  lemma DedupPair(x: Item, y: Item)
    ensures Identified(x) && Identified(y) ==> Dedup([x, y]) == if Key(x) == Key(y) then [x] else [x, y]
    ensures Dedup([x]) == if Identified(x) then [x] else []
  {
    assert [] + [x] == [x] && [x] + [y] == [x, y];
    assert Dedup([]) == [];
    DedupAppend([], x);
    DedupAppend([x], y);
    KeysAppend([], x);
    hide Dedup, Key, Identified;
  }

  /** With document ids, two hits are one document exactly if these are equal, whatever the other
      fields are; the first hit is kept. */
  lemma SameDocumentId(x: Item, y: Item)
    requires x.Doc? && y.Doc? && x.docId != "" && y.docId != ""
    ensures Dedup([x, y]) == if x.docId == y.docId then [x] else [x, y]
  {
    DedupPair(x, y);
  }

  /** Without document ids the plain ids decide. */
  lemma SameId(x: Item, y: Item)
    requires x.Doc? && y.Doc? && x.docId == "" && y.docId == "" && x.id != "" && y.id != ""
    ensures Dedup([x, y]) == if x.id == y.id then [x] else [x, y]
  {
    DedupPair(x, y);
  }

  /** Without both, the third field decides. */
  lemma SameThirdId(x: Item, y: Item)
    requires x.Doc? && y.Doc? && x.docId == "" && y.docId == "" && x.id == "" && y.id == ""
    requires x.documentId != "" && y.documentId != ""
    ensures Dedup([x, y]) == if x.documentId == y.documentId then [x] else [x, y]
  {
    DedupPair(x, y);
  }

  /** The three fields share one name space: a hit without a document id is one document with a hit
      whose document id is its plain id, or its third id if it has no plain one. */
  lemma AcrossFields(x: Item, y: Item)
    requires x.Doc? && y.Doc? && x.docId != "" && y.docId == ""
    ensures y.id != "" ==> Dedup([x, y]) == if x.docId == y.id then [x] else [x, y]
    ensures y.id == "" && y.documentId != "" ==> Dedup([x, y]) == if x.docId == y.documentId then [x] else [x, y]
  {
    DedupPair(x, y);
  }

  /** A hit is skipped exactly if it is no record or has none of the three ids. */
  lemma SkippedExactly(x: Item)
    ensures Dedup([x]) == [] <==> x.Junk? || (x.docId == "" && x.id == "" && x.documentId == "")
  {
    DedupPair(x, x);
  }

  // ----- the result

  lemma Returned(groups: seq<seq<Item>>, topK: int, threshold: real, i: nat)
    requires i < |Result(groups, topK, threshold)|
    ensures i < |Ranked(groups)| && Result(groups, topK, threshold)[i] == Ranked(groups)[i]
    ensures Ranked(groups)[i] in Dedup(Flatten(groups))
  {
    ResultIsBestPrefix(groups, topK, threshold);
    SortMembers(Dedup(Flatten(groups)), Descending());
    hide Result, Flatten, Dedup, AtLeast;
    assert Result(groups, topK, threshold) <= Ranked(groups);
  }

  lemma DistinctLast(items: seq<Item>)
    requires DistinctKeys(items) && items != []
    ensures Key(items[|items| - 1]) !in Keys(items[..|items| - 1])
  {
  }

  lemma TwoInMultiset(xs: seq<Item>, i: nat, j: nat)
    requires i < j < |xs| && xs[i] == xs[j]
    ensures multiset(xs)[xs[i]] >= 2
  {
    assert xs == xs[..i] + [xs[i]] + xs[i + 1..j] + [xs[j]] + xs[j + 1..];
  }

  lemma {:induction false} OneInDistinct(items: seq<Item>, x: Item)
    requires DistinctKeys(items)
    ensures multiset(items)[x] <= 1
  {
    if items != [] {
      var n := |items| - 1;
      OneInDistinct(items[..n], x);
      assert items == items[..n] + [items[n]];
      if x == items[n] && x in items[..n] {
        var i :| 0 <= i < n && items[..n][i] == x;
        KeyIn(items[..n], i);
        DistinctLast(items);
        assert false;
      }
      assert x == items[n] ==> x !in multiset(items[..n]);
    }
  }

  lemma SameMembersDistinct(items: seq<Item>, sorted: seq<Item>, i: nat, j: nat)
    requires DistinctKeys(items) && multiset(items) == multiset(sorted) && i < j < |sorted|
    ensures Key(sorted[i]) != Key(sorted[j])
  {
    var x, y := sorted[i], sorted[j];
    if Key(x) == Key(y) {
      assert x in multiset(items) && y in multiset(items);
      DistinctSame(items, x, y);
      TwoInMultiset(sorted, i, j);
      OneInDistinct(items, x);
      assert false;
    }
  }

  /** No two returned entries share a document id, and none is without any id. */
  lemma ResultDocuments(groups: seq<seq<Item>>, topK: int, threshold: real)
    ensures var r := Result(groups, topK, threshold);
            && (forall i :: 0 <= i < |r| ==> r[i].Doc? && (r[i].docId != "" || r[i].id != "" || r[i].documentId != ""))
            && (forall i, j :: 0 <= i < j < |r| && r[i].docId != "" ==> r[i].docId != r[j].docId)
  {
    var r := Result(groups, topK, threshold);
    var firsts := Dedup(Flatten(groups));
    DedupDistinct(Flatten(groups));
    SortByProps(firsts, Descending());
    forall i | 0 <= i < |r|
      ensures r[i].Doc? && (r[i].docId != "" || r[i].id != "" || r[i].documentId != "")
    {
      Returned(groups, topK, threshold, i);
      DedupFrom(Flatten(groups), r[i]);
    }
    forall i, j | 0 <= i < j < |r| && r[i].docId != "" ensures r[i].docId != r[j].docId {
      Returned(groups, topK, threshold, i);
      Returned(groups, topK, threshold, j);
      SameMembersDistinct(firsts, Ranked(groups), i, j);
    }
  }

  // ----- how hits rank

  lemma OneHit(x: Item, threshold: real)
    requires Identified(x)
    ensures Result([[x]], 1, threshold) == if Score(x) >= threshold then [x] else []
  {
    assert [[x]][1..] == [] && [x] + [] == [x] && [x][1..] == [];
    assert Flatten([[x]]) == [x];
    DedupPair(x, x);
    assert Ranked([[x]]) == SortBy([x], Descending()) == [x];
    hide Dedup, Flatten, SortBy, Score;
    assert Filter([], Ge(threshold)) == [];
    assert AtLeast([x], threshold) == if Score(x) >= threshold then [x] else [];
  }

  /** A hit without a numeric score ranks as one that scored zero: it is dropped by every positive
      threshold and by no other. */
  lemma ScorelessIsZero(x: Item, threshold: real)
    requires x.Doc? && x.docId != "" && x.score == None
    ensures Result([[x]], 1, threshold) == if 0.0 >= threshold then [x] else []
  {
    OneHit(x, threshold);
  }

  /** A numeric score is what the threshold looks at, equality included. */
  lemma ScoreDecides(x: Item, threshold: real)
    requires x.Doc? && x.docId != "" && x.score.Some?
    ensures Result([[x]], 1, threshold) == if x.score.value >= threshold then [x] else []
  {
    OneHit(x, threshold);
  }

  /** The returned entries are in descending order of their numeric scores, an entry without one
      standing where a zero would. */
  lemma ResultRanks(groups: seq<seq<Item>>, topK: int, threshold: real, i: nat, j: nat)
    requires i < j < |Result(groups, topK, threshold)|
    ensures var a, b := Result(groups, topK, threshold)[i], Result(groups, topK, threshold)[j];
            && a.Doc? && b.Doc?
            && (a.score.Some? && b.score.Some? ==> a.score.value >= b.score.value)
            && (a.score.Some? && b.score == None ==> a.score.value >= 0.0)
            && (a.score == None && b.score.Some? ==> 0.0 >= b.score.value)
  {
    ResultDocuments(groups, topK, threshold);
    ResultIsBestPrefix(groups, topK, threshold);
    Returned(groups, topK, threshold, i);
    Returned(groups, topK, threshold, j);
    hide Result, Ranked, AtLeast, Dedup, Flatten;
    assert Score(Ranked(groups)[i]) >= Score(Ranked(groups)[j]);
  }
}
