/** Removing a folder together with its files: the files of one listing are deleted one by one,
    then the folder row, which turns what is left in it into top-level files and folders. */
module FolderRemoval {
  import opened Sequences
  import opened Paging
  import opened FolderStore
  import opened FolderForest

  ghost predicate InFolder(t: Tables, id: FolderId, x: FileId) {
    x in t.files && t.files[x].folder == Some(id)
  }

  /** An answer of `list_knowledge_files` for a folder: files of the project in that folder, each
      once, and all of them unless the page is full. */
  ghost predicate IsFileListing(t: Tables, id: FolderId, listed: seq<FileId>)
    requires id in t.folders
  {
    && |listed| <= MAX_PAGE_SIZE
    && (forall i :: 0 <= i < |listed| ==>
          InFolder(t, id, listed[i]) && t.files[listed[i]].project == t.folders[id].project)
    && (forall i, j :: 0 <= i < j < |listed| ==> listed[i] != listed[j])
    && (|listed| < MAX_PAGE_SIZE ==>
          forall x :: InFolder(t, id, x) && t.files[x].project == t.folders[id].project ==> x in listed)
  }

  ghost function Removal(t: Tables, id: FolderId, listed: seq<FileId>): Tables {
    FolderDeleted(t.(files := map x | x in t.files && x !in listed :: t.files[x]), id).0
  }

  method RemoveFolder(store: Store, id: FolderId, listed: seq<FileId>) returns (o: Outcome)
    requires id in store.folders ==> IsFileListing(store.View(), id, listed)
    modifies store`folders, store`files
    ensures old(id !in store.folders) ==> o.Missing? && store.View() == old(store.View())
    ensures old(id in store.folders) ==> o.Done? && store.View() == Removal(old(store.View()), id, listed)
    ensures store.folders.Keys == old(store.folders).Keys - {id}
    ensures old(id in store.folders) ==>
              forall x :: x in store.files <==> x in old(store.files) && x !in listed
    ensures old(id in store.folders) ==> forall x :: x in store.files ==>
              store.files[x] == old(store.files)[x].(folder := Unlinked(old(store.files)[x].folder, id))
    ensures old(id in store.folders) ==> forall x :: x in store.files ==> store.files[x].folder != Some(id)
  {
    if id !in store.folders {
      return Missing;
    }
    for i := 0 to |listed|
      invariant store.projects == old(store.projects) && store.folders == old(store.folders)
      invariant forall x :: x in store.files <==> x in old(store.files) && x !in listed[..i]
      invariant forall x :: x in store.files ==> store.files[x] == old(store.files)[x]
    {
      assert listed[i] !in listed[..i];
      var d := store.DeleteFile(listed[i]);
      assert d.Done?;
    }
    assert listed[..|listed|] == listed;
    assert store.files == map x | x in old(store.files) && x !in listed :: old(store.files)[x];
    o := store.DeleteFolder(id);
  }

  ghost function FilesIn(t: Tables, id: FolderId): set<FileId> {
    set x | x in t.files && InFolder(t, id, x)
  }

  /** The files that were in the folder and outlive it. */
  ghost function Survivors(t: Tables, id: FolderId, listed: seq<FileId>): set<FileId> {
    set x | x in t.files && InFolder(t, id, x) && x in Removal(t, id, listed).files
  }

  /** A folder with more than 500 files does not take the rest with it: exactly the files beyond
      the page survive, as top-level files, and the folder goes clean exactly up to 500 files. */
  lemma SurvivorsExactly(t: Tables, id: FolderId, listed: seq<FileId>)
    requires Forest(t) && id in t.folders && IsFileListing(t, id, listed)
    ensures |Survivors(t, id, listed)| ==
            if |FilesIn(t, id)| <= MAX_PAGE_SIZE then 0 else |FilesIn(t, id)| - MAX_PAGE_SIZE
    ensures forall x :: x in Survivors(t, id, listed) ==> Removal(t, id, listed).files[x].folder == None
  {
    forall x | x in listed ensures InFolder(t, id, x) {
      var i :| 0 <= i < |listed| && listed[i] == x;
    }
    PageCovers(FilesIn(t, id), listed);
    assert Survivors(t, id, listed) == set x | x in FilesIn(t, id) && x !in listed;
  }

  /** Nothing outside the folder is lost or moved, and the tables remain a forest. */
  lemma OthersStay(t: Tables, id: FolderId, listed: seq<FileId>)
    requires Forest(t) && id in t.folders && IsFileListing(t, id, listed)
    ensures Forest(Removal(t, id, listed))
    ensures forall x :: x in t.files && !InFolder(t, id, x) ==>
              x in Removal(t, id, listed).files && Removal(t, id, listed).files[x] == t.files[x]
    ensures forall x :: x in t.folders && x != id && t.folders[x].parent != Some(id) ==>
              x in Removal(t, id, listed).folders && Removal(t, id, listed).folders[x] == t.folders[x]
  {
    var u := t.(files := map x | x in t.files && x !in listed :: t.files[x]);
    assert Forest(u);
    DeleteKeepsForest(u, id);
  }
}
