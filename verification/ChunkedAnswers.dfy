/** What several hits per document do to the exactness of the merge, folder by folder. */
module ChunkedAnswers {
  import opened Sequences
  import opened TopAnswers
  import opened MergeResults
  import opened MergeTheorems
  import opened MergeScores
  import opened Documents
  import opened ScatterGather

  // ----- one folder

  lemma OneFolder(f: Folder, k: nat)
    requires TopK(f.docs, k, f.best) && BestFirst(f.docs) && BestFirst(f.best)
    ensures AllBest([f], k) && Disjoint([f]) && Listed([f])
    ensures Answers([f]) == [f.best] && Contents([f]) == [f.docs]
  {
    assert AnswerTo([f], k, f.best, 0);
    assert [f][1..] == [];
  }

  lemma FlattenOne(g: seq<Item>)
    ensures Flatten([g]) == g
  {
    assert [g][1..] == [] && g + [] == g;
  }

  lemma DedupShorter(items: seq<Item>)
    ensures |Dedup(items)| <= |items|
  {
    FirstsCount(items, |items|);
    DedupIsFirsts(items);
  }

  /** An answer that is not full misses a document. */
  lemma ShortMisses(f: Folder, k: nat) returns (y: Item)
    requires TopK(f.docs, k, f.best) && !Full(f, k)
    ensures y in f.docs && Identified(y) && Key(y) !in IdKeys(f.best) && |Dedup(f.best)| < k
  {
    DocumentCount(f.best);
    DocumentCount(f.docs);
    DedupShorter(f.best);
    hide Dedup, Key, Identified;
    forall x | x in f.best ensures x in f.docs {
      TopElements(f.docs, k, f.best, ByScore(), x);
    }
    SubsetSize(IdKeys(f.best), IdKeys(f.docs));
    assert IdKeys(f.best) != IdKeys(f.docs);
    var d :| d in IdKeys(f.docs) && d !in IdKeys(f.best);
    y :| y in f.docs && Identified(y) && Key(y) == d;
  }

  /** The answer of one folder gives the scores of the whole folder, for every threshold, if and only
      if it holds as many documents as it can: `k`, or all there are. Several hits of one document
      can push another one out. */
  lemma OneFolderExactly(docs: seq<Item>, k: nat, best: seq<Item>)
    requires TopK(docs, k, best) && BestFirst(docs) && BestFirst(best)
    ensures (forall threshold :: Scores(Result([best], k, threshold)) == Scores(Result([docs], k, threshold))) <==>
            |Dedup(best)| == Min(k, |Dedup(docs)|)
  {
    var f := Folder(docs, best);
    OneFolder(f, k);
    hide Dedup, TopK, BestFirst, Scores, Result, AllBest, Disjoint, Listed, Contents, Answers;
    if Full(f, k) {
      forall threshold ensures Scores(Result([best], k, threshold)) == Scores(Result([docs], k, threshold)) {
        ScatterGatherExact([f], k, threshold);
      }
    } else {
      var y := ShortMisses(f, k);
      OwnAnswers([f], k);
      MergeExactly([f], k, [best], Score(y));
      FlattenOne(best);
      FlattenOne(docs);
      assert Missed([best], y) && Count(Dedup(best), Ge(Score(y))) < k;
      assert Scores(Result([best], k, Score(y))) != Scores(Result([docs], k, Score(y)));
    }
  }

  // ----- an example

  function Hit(document: string, score: real): Item {
    Doc(document, "", "", Some(score), "")
  }

  const D1A := Hit("d1", 0.9)
  const D1B := Hit("d1", 0.8)
  const D2 := Hit("d2", 0.7)
  const D3 := Hit("d3", 0.1)

  const F := Folder([D1A, D1B] + [D2], [D1A, D1B])
  const G := Folder([D3] + [], [D3])

  lemma PrefixIsTop(best: seq<Item>, rest: seq<Item>, k: nat)
    requires |best| == k || (rest == [] && |best| <= k)
    requires forall a, b :: a in best && b in rest ==> Score(b) <= Score(a)
    ensures TopK(best + rest, k, best)
  {
    assert multiset(best + rest) - multiset(best) == multiset(rest);
  }

  lemma Ordered(items: seq<Item>)
    requires forall i, j :: 0 <= i < j < |items| ==> Score(items[j]) <= Score(items[i])
    ensures BestFirst(items)
  {
    SortedFromPairs(items, Descending());
    SortedIsBestFirst(items);
  }

  lemma ExampleAnswers()
    ensures AnswerTo([F, G], 2, F.best, 0) && AnswerTo([F, G], 2, G.best, 1)
  {
    PrefixIsTop([D1A, D1B], [D2], 2);
    PrefixIsTop([D3], [], 2);
    Ordered(F.best);
    Ordered(G.best);
    hide TopK, BestFirst;
  }

  lemma ExampleListed()
    ensures Listed([F, G])
  {
    Ordered(F.docs);
    Ordered(G.docs);
    hide BestFirst;
  }

  lemma ExampleDisjoint()
    ensures Disjoint([F, G])
  {
    forall x, y | x in F.docs && y in G.docs ensures Key(x) != Key(y) {
      assert y == D3 && (x == D1A || x == D1B || x == D2);
    }
  }

  lemma ExampleFlat()
    ensures Flatten(Answers([F, G])) == [D1A, D1B, D3]
  {
    FoldersAt([F, G]);
    assert Answers([F, G]) == [F.best] + [G.best];
    assert ([F.best] + [G.best])[1..] == [G.best];
    FlattenOne(G.best);
    assert F.best + G.best == [D1A, D1B, D3];
  }

  lemma ExampleKeys()
    ensures KeysAbove([D1A, D1B, D3], 0.7) == {"d1"}
    ensures IdKeys([D1A, D1B, D3]) == {"d1", "d3"}
    ensures IdKeys(F.best) == {"d1"} && IdKeys(F.docs) == {"d1", "d2"}
  {
    var raw := [D1A, D1B, D3];
    assert D1A in raw && D3 in raw && D1A in F.best && D1A in F.docs && D2 in F.docs;
    assert forall x :: x in raw <==> x == D1A || x == D1B || x == D3;
    assert forall x :: x in F.best <==> x == D1A || x == D1B;
    assert forall x :: x in F.docs <==> x == D1A || x == D1B || x == D2;
  }

  /** Two hits of one document fill the answer of the first folder; the merge then returns the
      document of the second folder, which is worse than the one that was pushed out. */
  lemma ChunksPushDocumentOut()
    ensures AllBest([F, G], 2) && Disjoint([F, G]) && Listed([F, G]) && !Full(F, 2)
    ensures Scores(Result(Answers([F, G]), 2, 0.0)) != Scores(Result(Contents([F, G]), 2, 0.0))
  {
    ExampleAnswers();
    ExampleListed();
    ExampleDisjoint();
    ExampleFlat();
    ExampleKeys();
    hide AnswerTo, BestFirst, Dedup, Flatten, Result, Scores, Contents, Answers, IdKeys, KeysAbove, Disjoint, Listed;
    OwnAnswers([F, G], 2);
    AnswersBestFirst([F, G], 2, Answers([F, G]));
    hide AllAnswers, AllAnswered;
    DocumentsAbove([D1A, D1B, D3], 0.7);
    DocumentCount(F.best);
    DocumentCount(F.docs);
    assert Missed(Answers([F, G]), D2) && Score(D2) == 0.7;
    FolderInContents([F, G], 0, D2);
    MergeExactly([F, G], 2, Answers([F, G]), 0.0);
  }

  // ----- one hit per document

  function HasKey(k: string): Item -> bool {
    it => Key(it) == k
  }

  lemma {:induction false} KeyCounts(items: seq<Item>, k: string)
    ensures k in Keys(items) <==> Count(items, HasKey(k)) > 0
  {
    if items != [] {
      var n := |items| - 1;
      KeyCounts(items[..n], k);
      CountAppend(items[..n], [items[n]], HasKey(k));
      CountOne(items[n], HasKey(k));
      assert items[..n] + [items[n]] == items;
      hide Count, Key;
    }
  }

  lemma {:induction false} DistinctByCount(items: seq<Item>)
    ensures DistinctKeys(items) <==>
            forall k :: Count(items, HasKey(k)) <= if k == "" then 0 else 1
  {
    if items != [] {
      var n := |items| - 1;
      var past, last := items[..n], items[n];
      DistinctByCount(past);
      assert past + [last] == items;
      forall k ensures Count(items, HasKey(k)) == Count(past, HasKey(k)) + if Key(last) == k then 1 else 0 {
        CountAppend(past, [last], HasKey(k));
        CountOne(last, HasKey(k));
      }
      KeyCounts(past, Key(last));
      hide Count, Key, Keys;
      if DistinctKeys(past) && Identified(last) && Key(last) !in Keys(past) {
        assert DistinctKeys(items);
      } else if DistinctKeys(past) {
        assert Count(items, HasKey(Key(last))) > if Key(last) == "" then 0 else 1;
      } else {
        var k :| Count(past, HasKey(k)) > if k == "" then 0 else 1;
        assert Count(items, HasKey(k)) >= Count(past, HasKey(k));
      }
    }
  }

  lemma ContentsCount(folders: seq<Folder>, p: Item -> bool)
    requires folders != []
    ensures Count(Flatten(Contents(folders)), p) ==
            Count(folders[0].docs, p) + Count(Flatten(Contents(folders[1..])), p)
  {
    var rest := Contents(folders[1..]);
    assert Contents(folders) == [folders[0].docs] + rest;
    assert ([folders[0].docs] + rest)[1..] == rest;
    CountAppend(folders[0].docs, Flatten(rest), p);
    hide Count;
  }

  lemma {:induction false} CountInFolder(folders: seq<Folder>, i: nat, p: Item -> bool)
    requires i < |folders|
    ensures Count(folders[i].docs, p) <= Count(Flatten(Contents(folders)), p)
  {
    hide Count, Flatten, Contents;
    ContentsCount(folders, p);
    if i > 0 {
      CountInFolder(folders[1..], i - 1, p);
    }
  }

  lemma {:induction false} CountInTwo(folders: seq<Folder>, i: nat, j: nat, p: Item -> bool)
    requires i < j < |folders|
    ensures Count(folders[i].docs, p) + Count(folders[j].docs, p) <= Count(Flatten(Contents(folders)), p)
  {
    hide Count, Flatten, Contents;
    ContentsCount(folders, p);
    if i > 0 {
      CountInTwo(folders[1..], i - 1, j - 1, p);
    } else {
      CountInFolder(folders[1..], j - 1, p);
    }
  }

  lemma CountSome(items: seq<Item>, x: Item)
    requires x in items
    ensures Count(items, HasKey(Key(x))) >= 1
  {
    CountZero(items, HasKey(Key(x)));
    var i :| 0 <= i < |items| && items[i] == x;
  }

  lemma DistinctApart(folders: seq<Folder>, i: nat, j: nat, x: Item, y: Item)
    requires DistinctKeys(Flatten(Contents(folders))) && i < j < |folders|
    requires x in folders[i].docs && y in folders[j].docs
    ensures Key(x) != Key(y)
  {
    hide Count, Flatten, Contents, Key, DistinctKeys;
    if Key(x) == Key(y) {
      DistinctByCount(Flatten(Contents(folders)));
      CountInTwo(folders, i, j, HasKey(Key(x)));
      CountSome(folders[i].docs, x);
      CountSome(folders[j].docs, y);
      assert false;
    }
  }

  lemma DistinctFolder(folders: seq<Folder>, k: nat, i: nat)
    requires DistinctKeys(Flatten(Contents(folders))) && i < |folders| && TopK(folders[i].docs, k, folders[i].best)
    ensures DistinctKeys(folders[i].docs) && DistinctKeys(folders[i].best)
  {
    var f := folders[i];
    DistinctByCount(Flatten(Contents(folders)));
    DistinctByCount(f.docs);
    DistinctByCount(f.best);
    hide DistinctKeys, Contents, Flatten, Key;
    forall d ensures Count(f.docs, HasKey(d)) <= if d == "" then 0 else 1 {
      CountInFolder(folders, i, HasKey(d));
    }
    forall d ensures Count(f.best, HasKey(d)) <= if d == "" then 0 else 1 {
      RestCount(f.docs, f.best, HasKey(d));
    }
  }

  /** With one hit per document, over all folders, every best-k answer in any order is full, and the
      merge is exact. */
  lemma {:induction false} DistinctHitsExact(folders: seq<Folder>, k: nat, threshold: real)
    requires forall i :: 0 <= i < |folders| ==> TopK(folders[i].docs, k, folders[i].best)
    requires DistinctKeys(Flatten(Contents(folders)))
    ensures Scores(Result(Answers(folders), k, threshold)) == Scores(Result(Contents(folders), k, threshold))
  {
    hide DistinctKeys, Contents, Flatten, Key, BestFirst, Dedup, Result, Scores, Answers;
    forall i | 0 <= i < |folders|
      ensures BestFirst(folders[i].docs) && AnswerTo(folders, k, folders[i].best, i) && Full(folders[i], k)
    {
      DistinctFolder(folders, k, i);
      DistinctIsBestFirst(folders[i].docs);
      DistinctIsBestFirst(folders[i].best);
      DedupOfDistinct(folders[i].docs);
      DedupOfDistinct(folders[i].best);
    }
    forall i, j, x, y | 0 <= i < |folders| && 0 <= j < |folders| && x in folders[i].docs && y in folders[j].docs &&
      Key(x) == Key(y) ensures i == j {
      if i < j {
        DistinctApart(folders, i, j, x, y);
      } else if j < i {
        DistinctApart(folders, j, i, y, x);
      }
    }
    ScatterGatherExact(folders, k, threshold);
  }
}
