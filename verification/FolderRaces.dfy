/** What atomic store calls buy: two moves that are both validated before either is written. */
module FolderRaces {
  import opened Sequences
  import opened FolderStore
  import opened FolderForest

  /** The move of `id` below `p` passes the validation, and the foreign key lets it be written. */
  ghost predicate Passes(t: Tables, id: FolderId, p: FolderId) {
    id in t.folders && p != "" && Validated(t, t.folders[id].project, p, Some(id)).Done?
  }

  /** The folders after both writes. */
  function MovedBoth(t: Tables, a: FolderId, pa: FolderId, b: FolderId, pb: FolderId): Folders
    requires a in t.folders && b in t.folders
  {
    Moved(t.(folders := Moved(t, a, pa)), b, pb)
  }

  lemma {:induction false} ChainJoin(f: Folders, x: FolderId, y: FolderId, m: nat, d: nat)
    requires Chain(f, x, m) == y != ""
    ensures Chain(f, x, m + d) == Chain(f, y, d)
  {
    if d > 0 {
      ChainJoin(f, x, y, m, d - 1);
    }
  }

  lemma PassingWalk(t: Tables, id: FolderId, p: FolderId)
    requires Forest(t) && Passes(t, id, p)
    ensures id != "" && p in t.folders && WalkPasses(t.folders, p, id)
    ensures ParentOf(Moved(t, id, p), id) == p && Moved(t, id, p).Keys == t.folders.Keys
    ensures forall y :: y != id ==> ParentOf(Moved(t, id, p), y) == ParentOf(t.folders, y)
  {
  }

  /** Writing a parent into an acyclic table keeps it acyclic exactly if its chain avoids the folder. */
  lemma WriteAcyclicExactly(f: Folders, f': Folders, id: FolderId)
    requires Acyclic(f) && id in f && id != "" && f'.Keys == f.Keys
    requires forall y :: y != id ==> ParentOf(f', y) == ParentOf(f, y)
    requires Ends(f, ParentOf(f', id))
    ensures Acyclic(f') <==> !OnChain(f, ParentOf(f', id), id)
  {
    if OnChain(f, ParentOf(f', id), id) {
      MoveClosesCycle(f, f', id, ParentOf(f', id));
    } else {
      AcyclicAfterMove(f, f', id);
    }
  }

  lemma AvoidingSame(f: Folders, f1: Folders, a: FolderId, x: FolderId, n: nat)
    requires a != "" && !OnChain(f, x, a) && forall y :: y != a ==> ParentOf(f1, y) == ParentOf(f, y)
    ensures Chain(f1, x, n) == Chain(f, x, n)
  {
    assert forall i: nat :: i < n ==> Chain(f, x, i) != a;
    SameUntil(f, f1, a, x, n);
  }

  lemma ThroughMoved(f: Folders, f1: Folders, x: FolderId, b: FolderId, pa: FolderId, m: nat)
    requires !OnChain(f, x, b)
    requires forall n: nat :: n <= m ==> Chain(f1, x, n) == Chain(f, x, n)
    requires forall d: nat :: Chain(f1, x, m + 1 + d) == Chain(f, pa, d)
    ensures OnChain(f1, x, b) <==> OnChain(f, pa, b)
  {
    if OnChain(f1, x, b) {
      var n: nat :| Chain(f1, x, n) == b;
      assert n > m;
      var d := n - m - 1;
      assert Chain(f1, x, m + 1 + d) == Chain(f, pa, d);
    }
    if OnChain(f, pa, b) {
      var d: nat :| Chain(f, pa, d) == b;
      assert Chain(f1, x, m + 1 + d) == Chain(f, pa, d);
    }
  }

  lemma MeetsThrough(f: Folders, f1: Folders, a: FolderId, x: FolderId, b: FolderId)
    requires a != "" && a != b && forall y :: y != a ==> ParentOf(f1, y) == ParentOf(f, y)
    requires !OnChain(f, x, b) && !OnChain(f, ParentOf(f1, a), a) && OnChain(f, x, a)
    ensures OnChain(f1, x, b) <==> OnChain(f, ParentOf(f1, a), b)
  {
    var pa := ParentOf(f1, a);
    var n: nat :| Chain(f, x, n) == a;
    var m := FirstMeeting(f, x, a, n);
    hide Chain;
    SameUntil(f, f1, a, x, m);
    forall d: nat ensures Chain(f1, x, m + 1 + d) == Chain(f, pa, d) {
      ChainJoin(f1, x, a, m, d + 1);
      ChainStep(f1, a, d);
      AvoidingSame(f, f1, a, pa, d);
    }
    forall n: nat | n <= m ensures Chain(f1, x, n) == Chain(f, x, n) {
      SameUntil(f, f1, a, x, n);
    }
    ThroughMoved(f, f1, x, b, pa, m);
  }

  /** After the first move, the chain of `x` meets `b` exactly if it met `b` before, or meets the
      moved folder and goes on through its new parent. */
  lemma MeetsAfterMove(f: Folders, f1: Folders, a: FolderId, x: FolderId, b: FolderId)
    requires a != "" && a != b && forall y :: y != a ==> ParentOf(f1, y) == ParentOf(f, y)
    requires !OnChain(f, x, b) && !OnChain(f, ParentOf(f1, a), a)
    ensures OnChain(f1, x, b) <==> OnChain(f, x, a) && OnChain(f, ParentOf(f1, a), b)
  {
    var pa := ParentOf(f1, a);
    hide Chain;
    if OnChain(f, x, a) {
      MeetsThrough(f, f1, a, x, b);
    } else {
      forall n: nat ensures Chain(f1, x, n) == Chain(f, x, n) {
        AvoidingSame(f, f1, a, x, n);
      }
    }
  }

  /** Two parents written one after the other into an acyclic table. */
  lemma TwoWrites(f: Folders, f1: Folders, f2: Folders, a: FolderId, b: FolderId)
    requires Acyclic(f) && a in f && b in f && a != "" && b != "" && a != b
    requires f1.Keys == f.Keys && f2.Keys == f.Keys && ParentOf(f2, b) in f
    requires forall y :: y != a ==> ParentOf(f1, y) == ParentOf(f, y)
    requires forall y :: y != b ==> ParentOf(f2, y) == ParentOf(f1, y)
    requires WalkPasses(f, ParentOf(f1, a), a) && WalkPasses(f, ParentOf(f2, b), b)
    ensures Acyclic(f2) <==> !(OnChain(f, ParentOf(f2, b), a) && OnChain(f, ParentOf(f1, a), b))
  {
    AcyclicAfterMove(f, f1, a);
    hide OnChain, Ends, ParentOf;
    WriteAcyclicExactly(f1, f2, b);
    MeetsAfterMove(f, f1, a, ParentOf(f2, b), b);
  }

  lemma WrittenLast(t: Tables, a: FolderId, pa: FolderId, b: FolderId, pb: FolderId)
    requires a in t.folders && b in t.folders
    ensures ParentOf(MovedBoth(t, a, pa, b, pb), b) == pb && MovedBoth(t, a, pa, b, pb).Keys == t.folders.Keys
    ensures forall y :: y != b ==> ParentOf(MovedBoth(t, a, pa, b, pb), y) == ParentOf(Moved(t, a, pa), y)
  {
  }

  /** Two moves validated against the same forest, then both written, close a cycle if and only if
      each of the two new parents lies at or below the folder that the other move takes away.
      That can be told before either call. */
  lemma RacingMovesExactly(t: Tables, a: FolderId, pa: FolderId, b: FolderId, pb: FolderId)
    requires Forest(t) && Passes(t, a, pa) && Passes(t, b, pb)
    ensures Acyclic(MovedBoth(t, a, pa, b, pb)) <==> !(OnChain(t.folders, pb, a) && OnChain(t.folders, pa, b))
  {
    var f, f1, f2 := t.folders, Moved(t, a, pa), MovedBoth(t, a, pa, b, pb);
    PassingWalk(t, a, pa);
    PassingWalk(t, b, pb);
    WrittenLast(t, a, pa, b, pb);
    assert Acyclic(f);
    hide Passes, Forest, OnChain, Ends, MovedBoth, Moved, ParentOf, Acyclic;
    if a == b {
      AcyclicAfterMove(f, f2, b);
    } else {
      TwoWrites(f, f1, f2, a, b);
    }
  }

  lemma RootPasses(f: Folders, x: FolderId, y: FolderId)
    requires x != "" && ParentOf(f, x) == "" && y != x
    ensures WalkPasses(f, x, y)
  {
    assert Chain(f, x, 1) == "";
    forall n: nat ensures Chain(f, x, n) == "" || n == 0 {
      if n > 0 {
        ChainStaysDone(f, x, 1, n);
      }
    }
  }

  /** For instance two roots moved below each other; validated after the first write, the second
      move is refused. */
  lemma RacingMovesCloseCycle(t: Tables, a: FolderId, b: FolderId)
    requires Forest(t) && a in t.folders && b in t.folders && a != b
    requires t.folders[a].project == t.folders[b].project
    requires t.folders[a].parent == None && t.folders[b].parent == None
    ensures Passes(t, a, b) && Passes(t, b, a)
    ensures var first := t.(folders := Moved(t, a, b));
            Validated(first, t.folders[b].project, a, Some(b)).Cycle? && !Acyclic(Moved(first, b, a))
  {
    RootPasses(t.folders, b, a);
    RootPasses(t.folders, a, b);
    assert Chain(t.folders, a, 0) == a && Chain(t.folders, b, 0) == b;
    RacingMovesExactly(t, a, b, b, a);
    var first := t.(folders := Moved(t, a, b));
    assert Chain(first.folders, a, 1) == b;
    assert OnChain(first.folders, a, b);
  }
}
