/** Searching a folder more than once, with any choice among equal scores each time. */
module RepeatedSearches {
  import opened Sequences
  import opened TopAnswers
  import opened MergeResults
  import opened MergeTheorems
  import opened MergeScores
  import opened Documents
  import opened ScatterGather

  // ----- repeated groups

  lemma {:induction false} AddAllNothing(kept: seq<Item>, items: seq<Item>)
    requires forall i :: 0 <= i < |items| && Identified(items[i]) ==> Key(items[i]) in Keys(kept)
    ensures AddAll(kept, items) == kept
    decreases items
  {
    if items != [] {
      hide Key, Keys;
      assert Add(kept, items[0]) == kept;
      AddAllNothing(kept, items[1..]);
    }
  }

  lemma FlattenCons(g: seq<Item>, gs: seq<seq<Item>>)
    ensures Flatten([g] + gs) == g + Flatten(gs)
  {
    assert ([g] + gs)[1..] == gs;
  }

  lemma ConcatAssoc(a: seq<Item>, b: seq<Item>, c: seq<Item>)
    ensures a + (b + c) == (a + b) + c
  {
  }

  lemma {:induction false} FlattenJoin(xs: seq<seq<Item>>, ys: seq<seq<Item>>)
    ensures Flatten(xs + ys) == Flatten(xs) + Flatten(ys)
  {
    if xs == [] {
      assert xs + ys == ys;
    } else {
      FlattenJoin(xs[1..], ys);
      assert Flatten(xs + ys) == xs[0] + Flatten(xs[1..] + ys) by {
        assert (xs + ys)[1..] == xs[1..] + ys;
      }
      ConcatAssoc(xs[0], Flatten(xs[1..]), Flatten(ys));
    }
  }

  lemma DedupMiddle(a: seq<Item>, g: seq<Item>, c: seq<Item>)
    requires forall i :: 0 <= i < |g| && Identified(g[i]) ==> HasEntry(a, Key(g[i]))
    ensures Dedup(a + g + c) == Dedup(a + c)
  {
    forall i | 0 <= i < |g| && Identified(g[i]) ensures Key(g[i]) in Keys(Dedup(a)) {
      EntryKept(a, Key(g[i]));
    }
    AddAllNothing(Dedup(a), g);
    AddAllAppend([], a + g, c);
    AddAllAppend([], a, g);
    AddAllAppend([], a, c);
    hide AddAll, Keys, Key;
  }

  /** A group all of whose documents were already returned by earlier groups changes nothing. */
  lemma CoveredGroupIgnored(before: seq<seq<Item>>, g: seq<Item>, after: seq<seq<Item>>, topK: int, threshold: real)
    requires forall i :: 0 <= i < |g| && Identified(g[i]) ==> HasEntry(Flatten(before), Key(g[i]))
    ensures Dedup(Flatten(before + [g] + after)) == Dedup(Flatten(before + after))
    ensures Result(before + [g] + after, topK, threshold) == Result(before + after, topK, threshold)
  {
    DedupMiddle(Flatten(before), g, Flatten(after));
    FlattenJoin(before + [g], after);
    FlattenJoin(before, [g]);
    FlattenJoin(before, after);
    FlattenCons(g, []);
    assert Flatten([]) == [] && [g] + [] == [g] && g + [] == g;
    hide Dedup, Flatten, Key, SortBy, AtLeast, HasEntry;
    assert Ranked(before + [g] + after) == Ranked(before + after);
  }

  lemma {:induction false} InFlatten(groups: seq<seq<Item>>, n: nat, i: nat) returns (j: nat)
    requires n < |groups| && i < |groups[n]|
    ensures j < |Flatten(groups)| && Flatten(groups)[j] == groups[n][i]
  {
    if n == 0 {
      j := i;
    } else {
      j := InFlatten(groups[1..], n - 1, i);
      j := |groups[0]| + j;
    }
  }

  /** An answer that repeats an earlier one literally changes nothing. */
  lemma RepeatedFolderIgnored(before: seq<seq<Item>>, g: seq<Item>, after: seq<seq<Item>>, topK: int, threshold: real)
    requires g in before
    ensures Result(before + [g] + after, topK, threshold) == Result(before + after, topK, threshold)
  {
    var n :| 0 <= n < |before| && before[n] == g;
    forall i | 0 <= i < |g| && Identified(g[i]) ensures HasEntry(Flatten(before), Key(g[i])) {
      var j := InFlatten(before, n, i);
      hide Key, Flatten;
    }
    CoveredGroupIgnored(before, g, after, topK, threshold);
  }

  // ----- repeated searches

  /** Repeated searches are harmless. Let every group be a best-k answer of some folder, with any
      choice among ties, and let each folder have one full answer among them. Then the merge
      returns the very scores of ranking all hits of the folders, each folder once. */
  lemma {:induction false} RepeatsAreHarmless(folders: seq<Folder>, k: nat, groups: seq<seq<Item>>, threshold: real)
    requires AllAnswers(folders, k, groups) && AllAnswered(folders, groups) && AllBest(folders, k)
    requires Disjoint(folders) && Listed(folders) && forall i :: 0 <= i < |folders| ==> Full(folders[i], k)
    ensures Scores(Result(groups, k, threshold)) == Scores(Result(Contents(folders), k, threshold))
  {
    hide AllBest, Disjoint, Listed, Full, AllAnswers, AllAnswered, Result, Scores, NothingMissed;
    FullMissesNothing(folders, k, groups, threshold);
    MergeExactly(folders, k, groups, threshold);
  }

  /** More answers miss no more. */
  lemma MoreMissNoMore(folders: seq<Folder>, k: nat, fewer: seq<seq<Item>>, more: seq<seq<Item>>, threshold: real)
    requires AllAnswers(folders, k, fewer) && AllAnswers(folders, k, more) && Disjoint(folders)
    requires NothingMissed(folders, k, fewer, threshold) && forall g :: g in fewer ==> g in more
    ensures NothingMissed(folders, k, more, threshold)
  {
    AnswersBestFirst(folders, k, fewer);
    AnswersBestFirst(folders, k, more);
    hide Dedup, Flatten, Key, Identified, AllAnswers, Disjoint, BestFirst, Count, Contents, Score, KeysAbove;
    forall x | x in Flatten(fewer) ensures x in Flatten(more) {
      InGroups(fewer, x);
      var n :| 0 <= n < |fewer| && x in fewer[n];
      assert fewer[n] in more;
      InGroups(more, x);
    }
    forall y | y in Flatten(Contents(folders)) && Missed(more, y) && Score(y) >= threshold
      ensures Count(Dedup(Flatten(more)), Ge(Score(y))) >= k
    {
      assert Missed(fewer, y);
      DocumentsAbove(Flatten(fewer), Score(y));
      DocumentsAbove(Flatten(more), Score(y));
      KeysAboveGrow(Flatten(fewer), Flatten(more), Score(y), Score(y));
      SubsetSize(KeysAbove(Flatten(fewer), Score(y)), KeysAbove(Flatten(more), Score(y)));
    }
  }

  /** Once nothing is missed, one more search of a folder, anywhere among the others, leaves the
      scores as they are. */
  lemma RepeatedSearchIgnored(folders: seq<Folder>, k: nat, before: seq<seq<Item>>, g: seq<Item>,
                              after: seq<seq<Item>>, threshold: real)
    requires AllAnswers(folders, k, before + after) && IsAnswer(folders, k, g)
    requires Disjoint(folders) && Listed(folders) && NothingMissed(folders, k, before + after, threshold)
    ensures Scores(Result(before + [g] + after, k, threshold)) == Scores(Result(before + after, k, threshold))
  {
    hide IsAnswer, Disjoint, Listed, Result, Scores, NothingMissed;
    var fewer, more := before + after, before + [g] + after;
    forall h | h in more ensures IsAnswer(folders, k, h) {
      assert h in fewer || h == g;
    }
    assert forall h :: h in fewer ==> h in more;
    MoreMissNoMore(folders, k, fewer, more, threshold);
    MergeExactly(folders, k, fewer, threshold);
    MergeExactly(folders, k, more, threshold);
  }
}
