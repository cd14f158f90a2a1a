/** What a move and a deletion do to the ancestors of every folder. */
module FolderMoves {
  import opened Sequences
  import opened FolderStore
  import opened FolderForest

  ghost function AfterMove(t: Tables, id: FolderId, p: FolderId): Folders {
    FolderUpdated(t, id, Some(p), None, None).0.folders
  }

  ghost predicate Accepted(t: Tables, id: FolderId, p: FolderId) {
    p != "" && FolderUpdated(t, id, Some(p), None, None).1.Done?
  }

  lemma ParentsAfterMove(t: Tables, id: FolderId, p: FolderId)
    requires Forest(t) && Accepted(t, id, p)
    ensures id != "" && ParentOf(AfterMove(t, id, p), id) == p && WalkPasses(t.folders, p, id)
    ensures forall y :: y != id ==> ParentOf(AfterMove(t, id, p), y) == ParentOf(t.folders, y)
  {
  }

  /** A moved folder takes its new parent and all ancestors of that parent, as they were before
      the move, and no others. */
  lemma {:induction false} MoveTakesAncestors(t: Tables, id: FolderId, p: FolderId, n: nat)
    requires Forest(t) && Accepted(t, id, p)
    ensures Chain(AfterMove(t, id, p), id, n + 1) == Chain(t.folders, p, n)
  {
    var f' := AfterMove(t, id, p);
    ParentsAfterMove(t, id, p);
    hide FolderUpdated, Forest;
    forall i: nat | i < n ensures Chain(t.folders, p, i) != id {
      assert !OnChain(t.folders, p, id);
    }
    SameUntil(t.folders, f', id, p, n);
    ChainStep(f', id, n);
  }

  /** Folders outside the moved subtree keep all their ancestors. */
  lemma {:induction false} OthersKeepAncestors(t: Tables, id: FolderId, p: FolderId, x: FolderId, n: nat)
    requires Forest(t) && Accepted(t, id, p) && !OnChain(t.folders, x, id)
    ensures Chain(AfterMove(t, id, p), x, n) == Chain(t.folders, x, n)
  {
    ParentsAfterMove(t, id, p);
    SameUntil(t.folders, AfterMove(t, id, p), id, x, n);
  }

  lemma ParentAfterDeletion(t: Tables, id: FolderId, y: FolderId)
    requires id in t.folders && y != id && id != ""
    ensures ParentOf(FolderDeleted(t, id).0.folders, y) ==
            if ParentOf(t.folders, y) == id then "" else ParentOf(t.folders, y)
  {
  }

  /** Deleting a folder cuts every chain that led through it, just below it, and no other chain:
      the subtrees under it stay whole and become trees of their own. */
  lemma {:induction false} DeletionCutsChains(t: Tables, id: FolderId, x: FolderId, n: nat)
    requires Forest(t) && id in t.folders && x != id
    ensures Chain(FolderDeleted(t, id).0.folders, x, n) ==
            if MetBefore(t.folders, x, id, n + 1) then "" else Chain(t.folders, x, n)
  {
    var f, f' := t.folders, FolderDeleted(t, id).0.folders;
    assert id != "";
    if n == 0 {
      assert Chain(f, x, 0) == x;
    } else {
      DeletionCutsChains(t, id, x, n - 1);
      assert MetBefore(f, x, id, n + 1) <==> MetBefore(f, x, id, n) || Chain(f, x, n) == id;
      if !MetBefore(f, x, id, n) {
        ParentAfterDeletion(t, id, Chain(f, x, n - 1));
        hide FolderDeleted, Forest;
      }
    }
  }
}
