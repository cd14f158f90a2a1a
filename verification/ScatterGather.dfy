/** Searching folder by folder and merging, compared with ranking all hits of all folders. A search
    returns hits, of which several may belong to one document, and the merge keeps one per document. */
module ScatterGather {
  import opened Sequences
  import opened TopAnswers
  import opened MergeResults
  import opened MergeTheorems
  import opened MergeScores
  import opened Documents

  // ----- folders and answers

  function ByScore(): Item -> real {
    it => Score(it)
  }

  /** `best` are the `k` best hits of the folder (all of them, if there are fewer), in any order and
      with any choice among equal scores. */
  ghost predicate TopK(docs: seq<Item>, k: nat, best: seq<Item>) {
    Top(docs, k, best, ByScore())
  }

  /** A top-k answer contains, above every score, as many hits as the folder has, up to `k`. */
  lemma TopKCount(docs: seq<Item>, k: nat, best: seq<Item>, v: real)
    requires TopK(docs, k, best)
    ensures Count(best, Ge(v)) == Min(k, Count(docs, Ge(v)))
  {
    TopCount(docs, k, best, ByScore(), v, Ge(v));
  }

  /** A folder's hits and the answer to the search in it. */
  datatype Folder = Folder(docs: seq<Item>, best: seq<Item>)

  function Answers(folders: seq<Folder>): seq<seq<Item>> {
    if folders == [] then [] else [folders[0].best] + Answers(folders[1..])
  }

  function Contents(folders: seq<Folder>): seq<seq<Item>> {
    if folders == [] then [] else [folders[0].docs] + Contents(folders[1..])
  }

  lemma {:induction false} FoldersAt(folders: seq<Folder>)
    ensures |Answers(folders)| == |Contents(folders)| == |folders|
    ensures forall i :: 0 <= i < |folders| ==>
              Answers(folders)[i] == folders[i].best && Contents(folders)[i] == folders[i].docs
  {
    if folders != [] {
      FoldersAt(folders[1..]);
    }
  }

  /** No document lies in two folders. */
  ghost predicate Disjoint(folders: seq<Folder>) {
    forall i, j, x, y ::
      0 <= i < |folders| && 0 <= j < |folders| && x in folders[i].docs && y in folders[j].docs ==>
      Identified(x) && Key(x) == Key(y) ==> i == j
  }

  /** Each folder lists the best hit of a document first. */
  ghost predicate Listed(folders: seq<Folder>) {
    forall i :: 0 <= i < |folders| ==> BestFirst(folders[i].docs)
  }

  /** The group is what a search of the `i`-th folder may return: the `k` best hits, with any choice
      among ties, the best hit of each document first. */
  ghost predicate AnswerTo(folders: seq<Folder>, k: nat, g: seq<Item>, i: nat) {
    i < |folders| && TopK(folders[i].docs, k, g) && BestFirst(g)
  }

  ghost predicate IsAnswer(folders: seq<Folder>, k: nat, g: seq<Item>) {
    exists i :: AnswerTo(folders, k, g, i)
  }

  ghost predicate AllAnswers(folders: seq<Folder>, k: nat, groups: seq<seq<Item>>) {
    forall g :: g in groups ==> IsAnswer(folders, k, g)
  }

  lemma {:induction false} InGroups(groups: seq<seq<Item>>, x: Item)
    ensures x in Flatten(groups) <==> exists n :: 0 <= n < |groups| && x in groups[n]
  {
    if groups != [] {
      InGroups(groups[1..], x);
      assert forall n :: 0 < n < |groups| ==> groups[n] == groups[1..][n - 1];
      if x in groups[0] {
        assert x in groups[0];
      } else if n :| 0 <= n < |groups[1..]| && x in groups[1..][n] {
        assert x in groups[n + 1];
      }
    }
  }

  lemma InContents(folders: seq<Folder>, y: Item) returns (i: nat)
    requires y in Flatten(Contents(folders))
    ensures i < |folders| && y in folders[i].docs
  {
    InGroups(Contents(folders), y);
    FoldersAt(folders);
    i :| 0 <= i < |Contents(folders)| && y in Contents(folders)[i];
  }

  lemma FolderInContents(folders: seq<Folder>, i: nat, y: Item)
    requires i < |folders| && y in folders[i].docs
    ensures y in Flatten(Contents(folders))
  {
    FoldersAt(folders);
    assert y in Contents(folders)[i];
    InGroups(Contents(folders), y);
  }

  /** Each returned hit is a hit of a folder whose answer holds it. */
  lemma InAnswers(folders: seq<Folder>, k: nat, groups: seq<seq<Item>>, x: Item) returns (g: seq<Item>, i: nat)
    requires AllAnswers(folders, k, groups) && x in Flatten(groups)
    ensures g in groups && x in g && AnswerTo(folders, k, g, i) && x in folders[i].docs
  {
    InGroups(groups, x);
    var n :| 0 <= n < |groups| && x in groups[n];
    g := groups[n];
    assert IsAnswer(folders, k, g);
    i :| AnswerTo(folders, k, g, i);
    TopElements(folders[i].docs, k, g, ByScore(), x);
  }

  /** What an answer keeps of a document is the document's best hit in the whole folder. */
  lemma KeptIsBest(folders: seq<Folder>, k: nat, g: seq<Item>, i: nat, x: Item, y: Item)
    requires AnswerTo(folders, k, g, i) && x in Dedup(g) && y in folders[i].docs && Key(x) == Key(y)
    ensures Score(y) <= Score(x)
  {
    hide Dedup, Key;
    DedupFrom(g, x);
    if y !in g {
      LeftOutIsBelow(folders[i].docs, k, g, ByScore(), x, y);
    }
  }

  lemma AnswerFolder(folders: seq<Folder>, k: nat, groups: seq<seq<Item>>, g: seq<Item>, x: Item) returns (i: nat)
    requires AllAnswers(folders, k, groups) && g in groups && x in g
    ensures AnswerTo(folders, k, g, i) && x in folders[i].docs
  {
    assert IsAnswer(folders, k, g);
    i :| AnswerTo(folders, k, g, i);
    TopElements(folders[i].docs, k, g, ByScore(), x);
  }

  lemma AnswersBestFirst(folders: seq<Folder>, k: nat, groups: seq<seq<Item>>)
    requires AllAnswers(folders, k, groups) && Disjoint(folders)
    ensures BestFirst(Flatten(groups))
  {
    hide Dedup, Key, Flatten, Identified, AllAnswers, AnswerTo, Score;
    var raw := Flatten(groups);
    forall x, y | x in Dedup(raw) && y in raw && Key(x) == Key(y) ensures Score(y) <= Score(x) {
      var g := DedupGroups(groups, x);
      DedupFrom(g, x);
      var i := AnswerFolder(folders, k, groups, g, x);
      var h, j := InAnswers(folders, k, groups, y);
      KeptIsBest(folders, k, g, i, x, y);
    }
  }

  lemma ContentsBestFirst(folders: seq<Folder>)
    requires Listed(folders) && Disjoint(folders)
    ensures BestFirst(Flatten(Contents(folders)))
  {
    FoldersAt(folders);
    hide Dedup, Key, Flatten, Identified, Score, Contents;
    var all := Flatten(Contents(folders));
    forall x, y | x in Dedup(all) && y in all && Key(x) == Key(y) ensures Score(y) <= Score(x) {
      var g := DedupGroups(Contents(folders), x);
      DedupFrom(g, x);
      var i :| 0 <= i < |folders| && Contents(folders)[i] == g;
      var j := InContents(folders, y);
      assert BestFirst(folders[i].docs);
    }
  }

  // ----- when the merge is exact

  /** The hit belongs to a document of which no hit came back. */
  ghost predicate Missed(groups: seq<seq<Item>>, y: Item) {
    Identified(y) && Key(y) !in IdKeys(Flatten(groups))
  }

  /** Every document of which no hit came back, although its best hit reaches the threshold, is
      matched by `k` returned documents that are at least as good. */
  ghost predicate NothingMissed(folders: seq<Folder>, k: nat, groups: seq<seq<Item>>, threshold: real) {
    forall y :: y in Flatten(Contents(folders)) && Missed(groups, y) && Score(y) >= threshold ==>
      Count(Dedup(Flatten(groups)), Ge(Score(y))) >= k
  }

  lemma FoundAmongAll(folders: seq<Folder>, k: nat, groups: seq<seq<Item>>, v: real)
    requires AllAnswers(folders, k, groups)
    ensures KeysAbove(Flatten(groups), v) <= KeysAbove(Flatten(Contents(folders)), v)
  {
    hide Key, Flatten, Identified, AllAnswers, AnswerTo, Score;
    forall x | x in Flatten(groups) ensures x in Flatten(Contents(folders)) {
      var g, i := InAnswers(folders, k, groups, x);
      FolderInContents(folders, i, x);
    }
  }

  /** A document that came back at all came back with its best hit. */
  lemma FoundWithBest(folders: seq<Folder>, k: nat, groups: seq<seq<Item>>, y: Item)
    requires AllAnswers(folders, k, groups) && Disjoint(folders)
    requires y in Flatten(Contents(folders)) && Identified(y) && Key(y) in IdKeys(Flatten(groups))
    ensures Key(y) in KeysAbove(Flatten(groups), Score(y))
  {
    hide Key, Flatten, Identified, AllAnswers, Score;
    var x :| x in Flatten(groups) && Identified(x) && Key(x) == Key(y);
    var g, i := InAnswers(folders, k, groups, x);
    var j := InContents(folders, y);
    if y in g {
      InGroups(groups, y);
    } else {
      LeftOutIsBelow(folders[i].docs, k, g, ByScore(), x, y);
    }
  }

  lemma HitAbove(all: seq<Item>, some: seq<Item>, v: real) returns (y: Item)
    requires KeysAbove(some, v) <= KeysAbove(all, v) && KeysAbove(some, v) != KeysAbove(all, v)
    ensures y in all && Identified(y) && Score(y) >= v && Key(y) !in KeysAbove(some, v)
  {
    hide Key, Identified, Score;
    var d :| d in KeysAbove(all, v) && d !in KeysAbove(some, v);
    y :| y in all && Identified(y) && Score(y) >= v && Key(y) == d;
  }

  /** Above every bound from the threshold on, the groups and the folders hold equally many
      documents, up to `k`. */
  lemma CountsAgree(folders: seq<Folder>, k: nat, groups: seq<seq<Item>>, threshold: real, v: real)
    requires AllAnswers(folders, k, groups) && Disjoint(folders) && Listed(folders)
    requires NothingMissed(folders, k, groups, threshold) && v >= threshold
    ensures Min(k, Count(Dedup(Flatten(groups)), Ge(v))) == Min(k, Count(Dedup(Flatten(Contents(folders))), Ge(v)))
  {
    var raw, all := Flatten(groups), Flatten(Contents(folders));
    AnswersBestFirst(folders, k, groups);
    ContentsBestFirst(folders);
    DocumentsAbove(raw, v);
    DocumentsAbove(all, v);
    FoundAmongAll(folders, k, groups, v);
    SubsetSize(KeysAbove(raw, v), KeysAbove(all, v));
    hide Dedup, Flatten, Key, AllAnswers, Disjoint, Listed, BestFirst, Count, Contents, Score, KeysAbove, IdKeys;
    if KeysAbove(raw, v) != KeysAbove(all, v) {
      var y := HitAbove(all, raw, v);
      KeysAboveGrow(raw, raw, Score(y), v);
      if Key(y) in IdKeys(raw) {
        FoundWithBest(folders, k, groups, y);
      }
      DocumentsAbove(raw, Score(y));
      SubsetSize(KeysAbove(raw, Score(y)), KeysAbove(raw, v));
    }
  }

  lemma CountsDiffer(folders: seq<Folder>, k: nat, groups: seq<seq<Item>>, y: Item)
    requires AllAnswers(folders, k, groups) && Disjoint(folders) && Listed(folders)
    requires y in Flatten(Contents(folders)) && Missed(groups, y)
    requires Count(Dedup(Flatten(groups)), Ge(Score(y))) < k
    ensures Min(k, Count(Dedup(Flatten(groups)), Ge(Score(y)))) !=
            Min(k, Count(Dedup(Flatten(Contents(folders))), Ge(Score(y))))
  {
    var raw, all, v := Flatten(groups), Flatten(Contents(folders)), Score(y);
    AnswersBestFirst(folders, k, groups);
    ContentsBestFirst(folders);
    DocumentsAbove(raw, v);
    DocumentsAbove(all, v);
    FoundAmongAll(folders, k, groups, v);
    SubsetSize(KeysAbove(raw, v), KeysAbove(all, v));
    hide Dedup, Flatten, Key, AllAnswers, Disjoint, Listed, BestFirst, Count, Contents, Score;
    assert Key(y) in KeysAbove(all, v) && Key(y) !in KeysAbove(raw, v);
  }

  lemma ScoresAbove(groups: seq<seq<Item>>, k: nat, threshold: real, v: real)
    ensures Above(Scores(Result(groups, k, threshold)), v) ==
            Min(k, Count(Dedup(Flatten(groups)), Ge(Max(v, threshold))))
  {
    ResultCount(groups, k, threshold, v);
    ScoresAt(Result(groups, k, threshold));
    hide Result, Count, Above, Dedup, Flatten;
  }

  /** The scatter-gather theorem. Let documents be disjoint between folders, and let every group be a
      best-k answer of some folder; folders may be searched repeatedly or not at all. Then merging
      the groups and cutting at `k` returns the very scores of ranking all hits of all folders if
      and only if no document was missed that belongs to them. */
  lemma {:induction false} MergeExactly(folders: seq<Folder>, k: nat, groups: seq<seq<Item>>, threshold: real)
    requires AllAnswers(folders, k, groups) && Disjoint(folders) && Listed(folders)
    ensures Scores(Result(groups, k, threshold)) == Scores(Result(Contents(folders), k, threshold)) <==>
            NothingMissed(folders, k, groups, threshold)
  {
    var merged, direct := Result(groups, k, threshold), Result(Contents(folders), k, threshold);
    forall v
      ensures Above(Scores(merged), v) == Min(k, Count(Dedup(Flatten(groups)), Ge(Max(v, threshold))))
      ensures Above(Scores(direct), v) == Min(k, Count(Dedup(Flatten(Contents(folders))), Ge(Max(v, threshold))))
    {
      ScoresAbove(groups, k, threshold, v);
      ScoresAbove(Contents(folders), k, threshold, v);
    }
    ResultCount(groups, k, threshold, 0.0);
    ResultCount(Contents(folders), k, threshold, 0.0);
    hide Dedup, Flatten, Result, Scores, Above, Count, AllAnswers, Disjoint, Listed, Contents, Ge, NonIncreasing;
    if NothingMissed(folders, k, groups, threshold) {
      hide NothingMissed;
      forall v ensures Above(Scores(merged), v) == Above(Scores(direct), v) {
        CountsAgree(folders, k, groups, threshold, Max(v, threshold));
      }
      SameScores(Scores(merged), Scores(direct));
    } else {
      var y :| y in Flatten(Contents(folders)) && Missed(groups, y) && Score(y) >= threshold &&
        Count(Dedup(Flatten(groups)), Ge(Score(y))) < k;
      CountsDiffer(folders, k, groups, y);
      assert Above(Scores(merged), Score(y)) != Above(Scores(direct), Score(y));
    }
  }

  // ----- full answers

  /** The answer holds as many documents as a best-k answer can: `k`, or all there are. */
  ghost predicate Full(f: Folder, k: nat) {
    |Dedup(f.best)| == Min(k, |Dedup(f.docs)|)
  }

  /** Each folder's own answer is among the groups. */
  ghost predicate AllAnswered(folders: seq<Folder>, groups: seq<seq<Item>>) {
    forall i :: 0 <= i < |folders| ==> folders[i].best in groups
  }

  /** The folders' own answers are answers. */
  ghost predicate AllBest(folders: seq<Folder>, k: nat) {
    forall i :: 0 <= i < |folders| ==> AnswerTo(folders, k, folders[i].best, i)
  }

  /** If a full answer misses a document, all its documents are at least as good, and they are `k`. */
  lemma FullIsBetter(f: Folder, k: nat, y: Item)
    requires TopK(f.docs, k, f.best) && Full(f, k)
    requires y in f.docs && Identified(y) && Key(y) !in IdKeys(f.best)
    ensures |IdKeys(f.best)| >= k && IdKeys(f.best) <= KeysAbove(f.best, Score(y))
  {
    DocumentCount(f.best);
    DocumentCount(f.docs);
    hide Dedup, Key, Identified;
    forall x | x in f.best ensures x in f.docs && Score(x) >= Score(y) {
      TopElements(f.docs, k, f.best, ByScore(), x);
      LeftOutIsBelow(f.docs, k, f.best, ByScore(), x, y);
    }
    assert Key(y) in IdKeys(f.docs);
    SubsetSize(IdKeys(f.best), IdKeys(f.docs));
  }

  lemma GroupWithin(groups: seq<seq<Item>>, g: seq<Item>, v: real)
    requires g in groups
    ensures KeysAbove(g, v) <= KeysAbove(Flatten(groups), v)
  {
    forall x | x in g ensures x in Flatten(groups) {
      InGroups(groups, x);
    }
    KeysAboveGrow(g, Flatten(groups), v, v);
  }

  lemma MissingEverywhere(groups: seq<seq<Item>>, g: seq<Item>, d: string)
    requires g in groups && d !in IdKeys(Flatten(groups))
    ensures d !in IdKeys(g)
  {
    forall x | x in g ensures x in Flatten(groups) {
      InGroups(groups, x);
    }
    hide Flatten, Key, Identified;
  }

  lemma FullMissesNothing(folders: seq<Folder>, k: nat, groups: seq<seq<Item>>, threshold: real)
    requires AllAnswers(folders, k, groups) && AllAnswered(folders, groups) && Disjoint(folders)
    requires AllBest(folders, k) && forall i :: 0 <= i < |folders| ==> Full(folders[i], k)
    ensures NothingMissed(folders, k, groups, threshold)
  {
    AnswersBestFirst(folders, k, groups);
    var raw := Flatten(groups);
    hide Dedup, Flatten, Key, Identified, AllAnswers, Disjoint, BestFirst, Count, Contents, Score, TopK, KeysAbove,
      IdKeys, Full;
    forall y | y in Flatten(Contents(folders)) && Missed(groups, y)
      ensures Count(Dedup(raw), Ge(Score(y))) >= k
    {
      var i := InContents(folders, y);
      assert folders[i].best in groups && AnswerTo(folders, k, folders[i].best, i);
      MissingEverywhere(groups, folders[i].best, Key(y));
      FullIsBetter(folders[i], k, y);
      GroupWithin(groups, folders[i].best, Score(y));
      DocumentsAbove(raw, Score(y));
      SubsetSize(IdKeys(folders[i].best), KeysAbove(raw, Score(y)));
    }
  }

  lemma OwnAnswers(folders: seq<Folder>, k: nat)
    requires AllBest(folders, k)
    ensures AllAnswers(folders, k, Answers(folders)) && AllAnswered(folders, Answers(folders))
  {
    FoldersAt(folders);
    hide AnswerTo;
    forall g | g in Answers(folders) ensures IsAnswer(folders, k, g) {
      var i :| 0 <= i < |folders| && Answers(folders)[i] == g;
      assert AnswerTo(folders, k, g, i);
    }
    forall i | 0 <= i < |folders| ensures folders[i].best in Answers(folders) {
      assert Answers(folders)[i] == folders[i].best;
    }
  }

  /** If every folder answers with its `k` best hits, and these hold `k` documents or all the folder
      has, the merge of the answers is exact for every threshold. */
  lemma {:induction false} ScatterGatherExact(folders: seq<Folder>, k: nat, threshold: real)
    requires AllBest(folders, k) && Disjoint(folders) && Listed(folders)
    requires forall i :: 0 <= i < |folders| ==> Full(folders[i], k)
    ensures Scores(Result(Answers(folders), k, threshold)) == Scores(Result(Contents(folders), k, threshold))
  {
    OwnAnswers(folders, k);
    hide AllBest, Disjoint, Listed, Full, AllAnswers, AllAnswered, Result, Scores, NothingMissed;
    FullMissesNothing(folders, k, Answers(folders), threshold);
    MergeExactly(folders, k, Answers(folders), threshold);
  }
}
