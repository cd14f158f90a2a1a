/** The query fan-out: scope checks, one search per folder, tolerance of failed searches,
    and the merge of what came back. */
module Query {
  import opened Sequences
  import opened MergeResults
  import opened MergeTheorems
  import opened MergeScores
  import opened Documents
  import opened ScatterGather
  import opened RepeatedSearches

  type FolderId = string
  type ProjectId = string

  /** What one search returns: a list of hits, or a gateway error. */
  datatype Answer = Down | Hits(items: seq<Item>)

  datatype Outcome =
    | NoScope
    | NotFound(id: FolderId)
    | Foreign(id: FolderId)
    | Found(items: seq<Item>, below: int, unavailable: bool)

  const MAX_TOP_K := 50
  const MAX_FOLDER_SCOPE := 32

  function ClampTopK(k: int): (r: nat)
    ensures 1 <= k <= 50 ==> r == k
    ensures k < 1 ==> r == 1
    ensures k > 50 ==> r == 50
  {
    var m := if k < MAX_TOP_K then k else MAX_TOP_K;
    if m < 1 then 1 else m
  }

  function ClampThreshold(t: real): (r: real)
    ensures 0.0 <= t <= 1.0 ==> r == t
    ensures t < 0.0 ==> r == 0.0
    ensures t > 1.0 ==> r == 1.0
  {
    var m := if t < 1.0 then t else 1.0;
    if m < 0.0 then 0.0 else m
  }

  /** The first 32 of the named folders. */
  function Scope(folderIds: seq<FolderId>): (scope: seq<FolderId>)
    ensures scope <= folderIds
    ensures |scope| == if |folderIds| <= 32 then |folderIds| else 32
  {
    if |folderIds| > MAX_FOLDER_SCOPE then folderIds[..MAX_FOLDER_SCOPE] else folderIds
  }

  predicate Owned(folders: map<FolderId, ProjectId>, project: ProjectId, id: FolderId) {
    id in folders && folders[id] == project
  }

  /** How many searches are sent: one per folder in scope, or one for the whole base. */
  function Searches(folderIds: seq<FolderId>): (n: nat)
    ensures n == if |folderIds| == 0 then 1 else if |folderIds| <= 32 then |folderIds| else 32
  {
    if folderIds == [] then 1 else |Scope(folderIds)|
  }

  /** The non-empty answers of the first `n` searches; failed searches contribute nothing. */
  function Replies(answer: nat -> Answer, n: nat): seq<seq<Item>> {
    if n == 0 then []
    else
      var past := Replies(answer, n - 1);
      match answer(n - 1)
      case Down => past
      case Hits(items) => if items == [] then past else past + [items]
  }

  method RunQuery(project: ProjectId, folders: map<FolderId, ProjectId>, manual: bool,
                  folderIds: seq<FolderId>, topK: int, threshold: real, answer: nat -> Answer)
    returns (o: Outcome)
    ensures o.NoScope? <==> manual && folderIds == []
    ensures o.NotFound? || o.Foreign? ==>
              exists i :: 0 <= i < |Scope(folderIds)| && Scope(folderIds)[i] == o.id &&
                (o.NotFound? <==> o.id !in folders) && !Owned(folders, project, o.id) &&
                forall j :: 0 <= j < i ==> Owned(folders, project, Scope(folderIds)[j])
    ensures o.Found? ==>
              && (forall i :: 0 <= i < |Scope(folderIds)| ==> Owned(folders, project, Scope(folderIds)[i]))
              && o.items == Result(Replies(answer, Searches(folderIds)), ClampTopK(topK), ClampThreshold(threshold))
              && o.below == Count(Dedup(Flatten(Replies(answer, Searches(folderIds)))),
                                  Below(ClampThreshold(threshold)))
              && (o.unavailable <==> forall i :: 0 <= i < Searches(folderIds) ==> answer(i).Down?)
  {
    if manual && folderIds == [] {
      return NoScope;
    }
    var scope := Scope(folderIds);
    for i := 0 to |scope|
      invariant forall j :: 0 <= j < i ==> Owned(folders, project, scope[j])
    {
      if scope[i] !in folders {
        return NotFound(scope[i]);
      }
      if folders[scope[i]] != project {
        return Foreign(scope[i]);
      }
    }
    var n := Searches(folderIds);
    var groups: seq<seq<Item>> := [];
    var failures := 0;
    for i := 0 to n
      invariant groups == Replies(answer, i)
      invariant 0 <= failures <= i && (failures == i <==> forall j :: 0 <= j < i ==> answer(j).Down?)
    {
      match answer(i)
      case Down => failures := failures + 1;
      case Hits(items) =>
        if items != [] {
          groups := groups + [items];
        }
    }
    var items, below := Merge(groups, ClampTopK(topK), ClampThreshold(threshold));
    o := Found(items, below, failures > 0 && failures == n);
  }

  // ----- what a query returns

  /** All successful answers, the empty ones included. */
  function Successes(answer: nat -> Answer, n: nat): seq<seq<Item>> {
    if n == 0 then []
    else if answer(n - 1).Down? then Successes(answer, n - 1)
    else Successes(answer, n - 1) + [answer(n - 1).items]
  }

  lemma FlattenSnoc(groups: seq<seq<Item>>, g: seq<Item>)
    ensures Flatten(groups + [g]) == Flatten(groups) + g
  {
    FlattenJoin(groups, [g]);
    FlattenCons(g, []);
    assert [g] + [] == [g] && Flatten([]) == [] && g + [] == g;
  }

  /** Dropping failed and empty answers loses no entry. */
  lemma {:induction false} RepliesFlatten(answer: nat -> Answer, n: nat)
    ensures Flatten(Replies(answer, n)) == Flatten(Successes(answer, n))
  {
    if n > 0 {
      hide Flatten;
      RepliesFlatten(answer, n - 1);
      if answer(n - 1).Hits? {
        FlattenSnoc(Replies(answer, n - 1), answer(n - 1).items);
        FlattenSnoc(Successes(answer, n - 1), answer(n - 1).items);
        assert Flatten(Successes(answer, n - 1)) + [] == Flatten(Successes(answer, n - 1));
      }
    }
  }

  /** The hits of an answer; a failed search has none. */
  function HitsOf(a: Answer): seq<Item> {
    if a.Down? then [] else a.items
  }

  /** What is merged are the hits of all searches, one search after the other. */
  lemma {:induction false} AllHitsMerged(answer: nat -> Answer, n: nat)
    ensures Flatten(Replies(answer, n)) == Flatten(seq(n, i requires 0 <= i < n => HitsOf(answer(i))))
  {
    var all := seq(n, i requires 0 <= i < n => HitsOf(answer(i)));
    if n > 0 {
      hide Flatten;
      AllHitsMerged(answer, n - 1);
      var past := seq(n - 1, i requires 0 <= i < n - 1 => HitsOf(answer(i)));
      assert all == past + [HitsOf(answer(n - 1))];
      FlattenSnoc(past, HitsOf(answer(n - 1)));
      if answer(n - 1).Hits? && answer(n - 1).items != [] {
        FlattenSnoc(Replies(answer, n - 1), answer(n - 1).items);
      } else {
        assert Flatten(past) + [] == Flatten(past);
      }
    } else {
      assert all == [] == Replies(answer, 0);
    }
  }

  lemma ResultOfFlatten(a: seq<seq<Item>>, b: seq<seq<Item>>, topK: int, threshold: real)
    requires Flatten(a) == Flatten(b)
    ensures Result(a, topK, threshold) == Result(b, topK, threshold)
  {
    hide Flatten, Dedup, SortBy, AtLeast;
  }

  /** The folder of the `i`-th search; "" stands for the whole base. */
  function SearchedIn(folderIds: seq<FolderId>, i: nat): FolderId {
    if i < |Scope(folderIds)| then Scope(folderIds)[i] else ""
  }

  /** An earlier search of the same folder succeeded. */
  predicate SearchedBefore(folderIds: seq<FolderId>, answer: nat -> Answer, n: nat) {
    exists j :: 0 <= j < n && answer(j).Hits? && SearchedIn(folderIds, j) == SearchedIn(folderIds, n)
  }

  /** The folders with a successful search among the first `n`, each once, with their documents
      and the first answer. */
  function Covered(folderIds: seq<FolderId>, answer: nat -> Answer, docs: FolderId -> seq<Item>, n: nat): seq<Folder> {
    if n == 0 then []
    else
      var past := Covered(folderIds, answer, docs, n - 1);
      if answer(n - 1).Down? || SearchedBefore(folderIds, answer, n - 1) then past
      else past + [Folder(docs(SearchedIn(folderIds, n - 1)), answer(n - 1).items)]
  }

  /** Every successful search returned the `k` best hits of its folder, the best hit of each document
      first. */
  ghost predicate BestReturned(folderIds: seq<FolderId>, answer: nat -> Answer, docs: FolderId -> seq<Item>,
                               n: nat, k: nat) {
    forall i :: 0 <= i < n && answer(i).Hits? ==>
      TopK(docs(SearchedIn(folderIds, i)), k, answer(i).items) && BestFirst(answer(i).items)
  }

  lemma {:induction false} CoveredFolder(folderIds: seq<FolderId>, answer: nat -> Answer, docs: FolderId -> seq<Item>,
                                         n: nat, j: nat) returns (i: nat)
    requires j < n && answer(j).Hits?
    ensures i < |Covered(folderIds, answer, docs, n)|
    ensures Covered(folderIds, answer, docs, n)[i].docs == docs(SearchedIn(folderIds, j))
    decreases n, j
  {
    hide SearchedIn;
    if j < n - 1 {
      i := CoveredFolder(folderIds, answer, docs, n - 1, j);
    } else if SearchedBefore(folderIds, answer, j) {
      var e :| 0 <= e < j && answer(e).Hits? && SearchedIn(folderIds, e) == SearchedIn(folderIds, j);
      i := CoveredFolder(folderIds, answer, docs, n - 1, e);
    } else {
      i := |Covered(folderIds, answer, docs, n - 1)|;
    }
  }

  lemma {:induction false} CoveredBest(folderIds: seq<FolderId>, answer: nat -> Answer, docs: FolderId -> seq<Item>,
                                       n: nat, k: nat)
    requires BestReturned(folderIds, answer, docs, n, k)
    ensures AllBest(Covered(folderIds, answer, docs, n), k)
  {
    hide TopK, BestFirst, SearchedBefore, SearchedIn;
    if n > 0 {
      CoveredBest(folderIds, answer, docs, n - 1, k);
    }
  }

  lemma MoreFolders(folders: seq<Folder>, f: Folder, k: nat, groups: seq<seq<Item>>)
    requires AllAnswers(folders, k, groups)
    ensures AllAnswers(folders + [f], k, groups)
  {
    hide TopK, BestFirst;
    forall g | g in groups ensures IsAnswer(folders + [f], k, g) {
      assert IsAnswer(folders, k, g);
      var i :| AnswerTo(folders, k, g, i);
      assert AnswerTo(folders + [f], k, g, i);
    }
  }

  lemma AnswerGiven(folders: seq<Folder>, k: nat, g: seq<Item>, i: nat)
    requires AnswerTo(folders, k, g, i)
    ensures IsAnswer(folders, k, g)
  {
  }

  /** Every success is an answer of a covered folder. */
  lemma {:induction false} SuccessesCovered(folderIds: seq<FolderId>, answer: nat -> Answer,
                                            docs: FolderId -> seq<Item>, n: nat, k: nat)
    requires BestReturned(folderIds, answer, docs, n, k)
    ensures AllAnswers(Covered(folderIds, answer, docs, n), k, Successes(answer, n))
  {
    if n > 0 {
      hide TopK, BestFirst, SearchedBefore, SearchedIn, IsAnswer;
      SuccessesCovered(folderIds, answer, docs, n - 1, k);
      if answer(n - 1).Hits? {
        var items := answer(n - 1).items;
        MoreFolders(Covered(folderIds, answer, docs, n - 1), Folder(docs(SearchedIn(folderIds, n - 1)), items),
                    k, Successes(answer, n - 1));
        var i := CoveredFolder(folderIds, answer, docs, n, n - 1);
        AnswerGiven(Covered(folderIds, answer, docs, n), k, items, i);
      }
    }
  }

  /** Every covered folder is answered by a success. */
  lemma {:induction false} CoveredAnswered(folderIds: seq<FolderId>, answer: nat -> Answer,
                                           docs: FolderId -> seq<Item>, n: nat)
    ensures AllAnswered(Covered(folderIds, answer, docs, n), Successes(answer, n))
  {
    if n > 0 {
      hide SearchedBefore, SearchedIn;
      CoveredAnswered(folderIds, answer, docs, n - 1);
      assert forall g :: g in Successes(answer, n - 1) ==> g in Successes(answer, n);
    }
  }

  /** End to end: when every search that succeeds returns its folder's best hits, and no document
      lies in two folders, the query returns the scores of ranking all hits of the folders that
      answered, each folder counted once however often it was named, if and only if no document
      was missed that belongs to them. */
  lemma {:induction false} QueryIsExact(folderIds: seq<FolderId>, answer: nat -> Answer, docs: FolderId -> seq<Item>,
                                        topK: int, threshold: real)
    requires BestReturned(folderIds, answer, docs, Searches(folderIds), ClampTopK(topK))
    requires Disjoint(Covered(folderIds, answer, docs, Searches(folderIds)))
    requires Listed(Covered(folderIds, answer, docs, Searches(folderIds)))
    ensures var k, t, n := ClampTopK(topK), ClampThreshold(threshold), Searches(folderIds);
            var folders := Covered(folderIds, answer, docs, n);
            Scores(Result(Replies(answer, n), k, t)) == Scores(Result(Contents(folders), k, t)) <==>
            NothingMissed(folders, k, Successes(answer, n), t)
  {
    hide Flatten, Result, Covered, Replies, Successes, BestReturned, Disjoint, Listed, AllAnswers, NothingMissed,
      ClampTopK, ClampThreshold, Searches, Scores;
    var k, t, n := ClampTopK(topK), ClampThreshold(threshold), Searches(folderIds);
    RepliesFlatten(answer, n);
    ResultOfFlatten(Replies(answer, n), Successes(answer, n), k, t);
    SuccessesCovered(folderIds, answer, docs, n, k);
    MergeExactly(Covered(folderIds, answer, docs, n), k, Successes(answer, n), t);
  }

  /** In particular nothing is missed when the first answer of each folder holds `k` documents or all
      that the folder has. */
  lemma {:induction false} FullQueryIsExact(folderIds: seq<FolderId>, answer: nat -> Answer,
                                            docs: FolderId -> seq<Item>, topK: int, threshold: real)
    requires BestReturned(folderIds, answer, docs, Searches(folderIds), ClampTopK(topK))
    requires var folders := Covered(folderIds, answer, docs, Searches(folderIds));
             && Disjoint(folders) && Listed(folders)
             && forall i :: 0 <= i < |folders| ==> Full(folders[i], ClampTopK(topK))
    ensures var k, t, n := ClampTopK(topK), ClampThreshold(threshold), Searches(folderIds);
            Scores(Result(Replies(answer, n), k, t)) ==
            Scores(Result(Contents(Covered(folderIds, answer, docs, n)), k, t))
  {
    hide Flatten, Result, Covered, Replies, Successes, BestReturned, Disjoint, Listed, AllAnswers, AllAnswered, AllBest,
      NothingMissed, ClampTopK, ClampThreshold, Searches, Scores, Full;
    var k, t, n := ClampTopK(topK), ClampThreshold(threshold), Searches(folderIds);
    QueryIsExact(folderIds, answer, docs, topK, threshold);
    CoveredBest(folderIds, answer, docs, n, k);
    SuccessesCovered(folderIds, answer, docs, n, k);
    CoveredAnswered(folderIds, answer, docs, n);
    FullMissesNothing(Covered(folderIds, answer, docs, n), k, Successes(answer, n), t);
  }
}
