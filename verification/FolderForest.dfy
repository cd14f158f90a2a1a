/** Every reachable folder table is a forest inside each project, and the ancestor walk is
    exactly the test that keeps it one. */
module FolderForest {
  import opened Sequences
  import opened FolderStore

  type Folders = map<FolderId, Folder>

  /** References stay inside the project and point to rows that exist. */
  ghost predicate Linked(t: Tables) {
    && (forall x :: x in t.folders ==> x != "" && t.folders[x].project in t.projects)
    && (forall x :: x in t.folders && t.folders[x].parent.Some? ==>
          t.folders[x].parent.value in t.folders &&
          t.folders[t.folders[x].parent.value].project == t.folders[x].project)
    && (forall x :: x in t.files ==> t.files[x].project in t.projects)
    && (forall x :: x in t.files && t.files[x].folder.Some? ==>
          t.files[x].folder.value in t.folders && t.folders[t.files[x].folder.value].project == t.files[x].project)
  }

  ghost predicate Acyclic(folders: Folders) {
    forall x :: x in folders ==> Ends(folders, x)
  }

  ghost predicate Forest(t: Tables) {
    Linked(t) && Acyclic(t.folders)
  }

  // ----- chains under a change of parents

  lemma {:induction false} ChainStep(folders: Folders, x: FolderId, n: nat)
    requires x != ""
    ensures Chain(folders, x, n + 1) == Chain(folders, ParentOf(folders, x), n)
  {
    if n > 0 {
      ChainStep(folders, x, n - 1);
    }
  }

  lemma EndsStep(folders: Folders, x: FolderId)
    ensures Ends(folders, ParentOf(folders, x)) ==> Ends(folders, x)
  {
    if Ends(folders, ParentOf(folders, x)) && x != "" {
      var n: nat :| Chain(folders, ParentOf(folders, x), n) == "";
      ChainStep(folders, x, n);
    } else if x == "" {
      assert Chain(folders, x, 0) == "";
    }
  }

  lemma NowhereEnds(folders: Folders)
    ensures Ends(folders, "")
  {
    assert Chain(folders, "", 0) == "";
  }

  /** If every folder keeps its parent or gets one whose chain ends, ended chains still end. */
  lemma {:induction false} EndsKept(f: Folders, f': Folders, x: FolderId, n: nat)
    requires Chain(f, x, n) == ""
    requires forall y :: ParentOf(f', y) == ParentOf(f, y) || Ends(f', ParentOf(f', y))
    ensures Ends(f', x)
    decreases n
  {
    NowhereEnds(f');
    if x != "" {
      if ParentOf(f', x) == ParentOf(f, x) && n > 0 {
        ChainStep(f, x, n - 1);
        EndsKept(f, f', ParentOf(f, x), n - 1);
      }
      EndsStep(f', x);
    }
  }

  /** Up to its first meeting with the changed folder, a chain does not change. */
  lemma {:induction false} SameUntil(f: Folders, f': Folders, id: FolderId, x: FolderId, n: nat)
    requires forall y :: y != id ==> ParentOf(f', y) == ParentOf(f, y)
    requires forall i: nat :: i < n ==> Chain(f, x, i) != id
    ensures Chain(f', x, n) == Chain(f, x, n)
  {
    if n > 0 {
      SameUntil(f, f', id, x, n - 1);
    }
  }

  lemma EndsAvoiding(f: Folders, f': Folders, id: FolderId, x: FolderId)
    requires forall y :: y != id ==> ParentOf(f', y) == ParentOf(f, y)
    requires id != "" && WalkPasses(f, x, id)
    ensures Ends(f', x)
  {
    var n: nat :| Chain(f, x, n) == "";
    forall i: nat | i < n ensures Chain(f, x, i) != id {
      if Chain(f, x, i) == id {
        assert OnChain(f, x, id);
      }
    }
    SameUntil(f, f', id, x, n);
  }

  /** Giving `id` a parent whose chain ends without meeting `id` keeps the table acyclic. */
  lemma AcyclicAfterMove(f: Folders, f': Folders, id: FolderId)
    requires Acyclic(f) && id != "" && f'.Keys <= f.Keys + {id}
    requires forall y :: y != id ==> ParentOf(f', y) == ParentOf(f, y)
    requires WalkPasses(f, ParentOf(f', id), id)
    ensures Acyclic(f')
  {
    EndsAvoiding(f, f', id, ParentOf(f', id));
    EndsStep(f', id);
    forall x | x in f' ensures Ends(f', x) {
      if x != id {
        var n: nat :| Chain(f, x, n) == "";
        EndsKept(f, f', x, n);
      }
    }
  }

  lemma {:induction false} FirstMeeting(f: Folders, x: FolderId, id: FolderId, n: nat) returns (m: nat)
    requires Chain(f, x, n) == id
    ensures Chain(f, x, m) == id && forall i: nat :: i < m ==> Chain(f, x, i) != id
  {
    if i: nat :| i < n && Chain(f, x, i) == id {
      m := FirstMeeting(f, x, id, i);
    } else {
      m := n;
    }
  }

  /** Moving a folder below one of its own descendants closes a cycle through it. */
  lemma MoveClosesCycle(f: Folders, f': Folders, id: FolderId, p: FolderId)
    requires forall y :: y != id ==> ParentOf(f', y) == ParentOf(f, y)
    requires id in f' && ParentOf(f', id) == p && OnChain(f, p, id)
    ensures !Ends(f', id)
  {
    var n: nat :| Chain(f, p, n) == id;
    var m := FirstMeeting(f, p, id, n);
    SameUntil(f, f', id, p, m);
    ChainStep(f', id, m);
    ChainLoops(f', id, 0, m + 1);
  }

  // ----- the walk is the exact test

  function Moved(t: Tables, id: FolderId, p: FolderId): Folders
    requires id in t.folders
  {
    t.folders[id := Edited(t.folders[id], Some(p), None, None)]
  }

  /** On a forest, for an existing parent in the same project, the validation passes exactly
      when the move would leave the table acyclic. */
  lemma MoveAllowedExactly(t: Tables, id: FolderId, p: FolderId)
    requires Forest(t) && id in t.folders && p in t.folders && t.folders[p].project == t.folders[id].project
    ensures Validated(t, t.folders[id].project, p, Some(id)).Done? <==> Acyclic(Moved(t, id, p))
  {
    var f' := Moved(t, id, p);
    assert p != "" && id != "";
    assert ParentOf(f', id) == p;
    assert Ends(t.folders, p);
    if WalkPasses(t.folders, p, id) {
      AcyclicAfterMove(t.folders, f', id);
    } else {
      MoveClosesCycle(t.folders, f', id, p);
      assert id in f';
    }
  }

  // ----- what each call keeps

  lemma {:induction false} ChainInside(t: Tables, p: FolderId, n: nat)
    requires Linked(t) && (p == "" || p in t.folders)
    ensures Chain(t.folders, p, n) == "" || Chain(t.folders, p, n) in t.folders
  {
    if n > 0 {
      ChainInside(t, p, n - 1);
    }
  }

  /** The chain of an existing folder, or of none, ends and cannot meet a new id. */
  lemma NewIsOffChains(t: Tables, p: FolderId, id: FolderId)
    requires Forest(t) && id !in t.folders && (p == "" || p in t.folders)
    ensures WalkPasses(t.folders, p, id)
  {
    NowhereEnds(t.folders);
    forall n: nat ensures Chain(t.folders, p, n) == "" || Chain(t.folders, p, n) in t.folders {
      ChainInside(t, p, n);
    }
  }

  lemma CreateKeepsForest(t: Tables, id: FolderId, f: Folder)
    requires Forest(t) && id != ""
    ensures Forest(FolderCreated(t, id, f).0)
  {
    if FolderCreated(t, id, f).1.Done? {
      var f' := t.folders[id := f];
      NewIsOffChains(t, Ref(f.parent), id);
      assert ParentOf(f', id) == Ref(f.parent);
      AcyclicAfterMove(t.folders, f', id);
    }
  }

  lemma UpdateKeepsForest(t: Tables, id: FolderId, parent: Option<FolderId>, name: Option<string>,
                          sortOrder: Option<int>)
    requires Forest(t) && id != ""
    ensures Forest(FolderUpdated(t, id, parent, name, sortOrder).0)
  {
    if FolderUpdated(t, id, parent, name, sortOrder).1.Done? {
      var f' := t.folders[id := Edited(t.folders[id], parent, name, sortOrder)];
      if parent.Some? {
        assert parent.value != "";
        assert ParentOf(f', id) == parent.value;
        AcyclicAfterMove(t.folders, f', id);
      } else {
        forall x | x in f' ensures Ends(f', x) {
          var n: nat :| Chain(t.folders, x, n) == "";
          EndsKept(t.folders, f', x, n);
        }
      }
    }
  }

  /** Removing rows, with every reference to them set to NULL, only shortens chains. */
  lemma ShorterIsAcyclic(f: Folders, f': Folders)
    requires Acyclic(f) && f'.Keys <= f.Keys
    requires forall x :: x in f' ==> f'[x].parent == f[x].parent || f'[x].parent == None
    ensures Acyclic(f')
  {
    NowhereEnds(f');
    forall x | x in f' ensures Ends(f', x) {
      var n: nat :| Chain(f, x, n) == "";
      EndsKept(f, f', x, n);
    }
  }

  lemma DeleteKeepsForest(t: Tables, id: FolderId)
    requires Forest(t)
    ensures Forest(FolderDeleted(t, id).0)
  {
    ShorterIsAcyclic(t.folders, FolderDeleted(t, id).0.folders);
  }

  lemma ProjectDeleteKeepsForest(t: Tables, p: ProjectId)
    requires Forest(t)
    ensures Forest(ProjectDeleted(t, p).0)
  {
    ShorterIsAcyclic(t.folders, ProjectDeleted(t, p).0.folders);
  }

  // ----- every run

  datatype Op =
    | CreateProject(p: ProjectId)
    | DeleteProject(p: ProjectId)
    | CreateFolder(id: FolderId, folder: Folder)
    | UpdateFolder(id: FolderId, parent: Option<FolderId>, name: Option<string>, sortOrder: Option<int>)
    | DeleteFolder(id: FolderId)
    | CreateFile(file: FileId, row: File)
    | UpdateFile(file: FileId, folderRef: Option<FolderId>, fileName: Option<string>)
    | DeleteFile(file: FileId)

  /** A new folder always has a non-empty id: an empty one is replaced by a generated one. */
  ghost function Apply(t: Tables, op: Op): Tables {
    match op
    case CreateProject(p) => ProjectCreated(t, p).0
    case DeleteProject(p) => ProjectDeleted(t, p).0
    case CreateFolder(id, f) => if id == "" then t else FolderCreated(t, id, f).0
    case UpdateFolder(id, parent, name, sortOrder) => FolderUpdated(t, id, parent, name, sortOrder).0
    case DeleteFolder(id) => FolderDeleted(t, id).0
    case CreateFile(id, f) => FileCreated(t, id, f).0
    case UpdateFile(id, folder, name) => FileUpdated(t, id, folder, name).0
    case DeleteFile(id) => FileDeleted(t, id).0
  }

  ghost function After(run: Run<Op>): Tables {
    if run.Start? then NO_ROWS else Apply(After(run.past), run.event)
  }

  lemma ApplyKeepsForest(t: Tables, op: Op)
    requires Forest(t)
    ensures Forest(Apply(t, op))
  {
    match op
    case CreateFolder(id, f) => if id != "" { CreateKeepsForest(t, id, f); }
    case UpdateFolder(id, parent, name, sortOrder) =>
      if id in t.folders {
        UpdateKeepsForest(t, id, parent, name, sortOrder);
      }
    case DeleteFolder(id) => DeleteKeepsForest(t, id);
    case DeleteProject(p) => ProjectDeleteKeepsForest(t, p);
    case _ =>
  }

  /** Whatever store calls are made, in whatever order and with whatever arguments, the folder
      table is a forest whose links, and the files' links, stay within their project. */
  lemma {:induction false} AlwaysForest(run: Run<Op>)
    ensures Forest(After(run))
  {
    if run.Then? {
      AlwaysForest(run.past);
      ApplyKeepsForest(After(run.past), run.event);
    }
  }
}
