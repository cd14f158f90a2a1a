/** The copy of a project's folders and files as a whole: where everything ends up, what is lost, and
    when nothing is. */
module ContentCopy {
  import opened Sequences
  import opened Paging
  import opened FolderStore
  import opened FolderForest
  import opened FolderCopy

  ghost predicate HasFileRow(rows: seq<ListedFile>, x: FileId) {
    exists i :: 0 <= i < |rows| && rows[i].id == x
  }

  /** An answer of `list_knowledge_files` for a project: its files, each once, by name, and all of
      them unless the page is full. */
  ghost predicate IsFileListing(t: Tables, project: ProjectId, rows: seq<ListedFile>) {
    && |rows| <= MAX_PAGE_SIZE
    && (forall i :: 0 <= i < |rows| ==> rows[i].id in t.files && t.files[rows[i].id] == rows[i].row)
    && (forall i :: 0 <= i < |rows| ==> rows[i].row.project == project)
    && (forall i, j :: 0 <= i < j < |rows| ==> rows[i].id != rows[j].id)
    && (forall i, j :: 0 <= i < j < |rows| ==> NameLe(rows[i].row.name, rows[j].row.name))
    && (|rows| < MAX_PAGE_SIZE ==>
          forall x :: x in t.files && t.files[x].project == project ==> HasFileRow(rows, x))
  }

  // ----- where the files go

  function FileCopyOf(frows: seq<ListedFile>, idMap: map<FolderId, FolderId>, dest: ProjectId, i: nat): File
    requires i < |frows|
  {
    File(dest, Image(idMap, frows[i].row.folder), frows[i].stem)
  }

  lemma {:induction false} NotYetCopied(files: map<FileId, File>, frows: seq<ListedFile>, fids: seq<FileId>,
                                        dest: ProjectId, idMap: map<FolderId, FolderId>, n: nat, i: nat)
    requires n <= i < |frows| == |fids| && Generated(files.Keys, fids)
    ensures fids[i] !in WithFileCopies(files, frows, fids, dest, idMap, n)
  {
    hide Image;
    if n > 0 {
      NotYetCopied(files, frows, fids, dest, idMap, n - 1, i);
    }
  }

  /** Each safe file is in the table as it was copied, and no other new row is. */
  lemma {:induction false} FileCopyStored(files: map<FileId, File>, frows: seq<ListedFile>, fids: seq<FileId>,
                                          dest: ProjectId, idMap: map<FolderId, FolderId>, n: nat, i: nat)
    requires i < n <= |frows| == |fids| && Generated(files.Keys, fids)
    ensures var files' := WithFileCopies(files, frows, fids, dest, idMap, n);
            if frows[i].safe then fids[i] in files' && files'[fids[i]] == FileCopyOf(frows, idMap, dest, i)
            else fids[i] !in files'
  {
    hide Image;
    if i < n - 1 {
      FileCopyStored(files, frows, fids, dest, idMap, n - 1, i);
    } else if !frows[i].safe {
      NotYetCopied(files, frows, fids, dest, idMap, n - 1, i);
    }
  }

  lemma {:induction false} OldFilesStay(files: map<FileId, File>, frows: seq<ListedFile>, fids: seq<FileId>,
                                        dest: ProjectId, idMap: map<FolderId, FolderId>, n: nat, x: FileId)
    requires n <= |frows| == |fids| && Generated(files.Keys, fids) && x in files
    ensures x in WithFileCopies(files, frows, fids, dest, idMap, n)
    ensures WithFileCopies(files, frows, fids, dest, idMap, n)[x] == files[x]
  {
    hide Image;
    if n > 0 {
      OldFilesStay(files, frows, fids, dest, idMap, n - 1, x);
    }
  }

  /** Every id in the folder map names a copied folder of the new project. */
  lemma MapsToCopies(folders: map<FolderId, Folder>, rows: seq<Listed>, ids: seq<FolderId>, dest: ProjectId)
    requires |rows| == |ids| && Generated(folders.Keys, ids)
    ensures var m := IdMap(rows, ids, |rows|); var f' := WithCopies(folders, rows, ids, dest, |rows|);
            forall x :: x in m ==> m[x] != "" && m[x] in f' && f'[m[x]].project == dest
  {
    var m := IdMap(rows, ids, |rows|);
    forall x | x in m
      ensures m[x] != "" && m[x] in WithCopies(folders, rows, ids, dest, |rows|)
      ensures WithCopies(folders, rows, ids, dest, |rows|)[m[x]].project == dest
    {
      IdMapAt(rows, ids, |rows|, x);
      var j :| 0 <= j < |rows| && ids[j] == m[x];
      CopyStored(folders, rows, ids, dest, |rows|, j);
      hide WithCopies, IdMap;
    }
  }

  lemma {:induction false} FilesKeepForest(t: Tables, dest: ProjectId, frows: seq<ListedFile>, fids: seq<FileId>,
                                           idMap: map<FolderId, FolderId>, n: nat)
    requires Forest(t) && dest in t.projects && n <= |frows| == |fids|
    requires forall x :: x in idMap ==>
               idMap[x] != "" && idMap[x] in t.folders && t.folders[idMap[x]].project == dest
    ensures Forest(t.(files := WithFileCopies(t.files, frows, fids, dest, idMap, n)))
  {
    hide Acyclic;
    if n > 0 {
      FilesKeepForest(t, dest, frows, fids, idMap, n - 1);
    }
  }

  /** The folder loop and then the file loop. Every safe file ends up under its generated id, named by
      the stem of its path, in the copy of its folder or at the top level; the old rows stay, and
      the folders remain a forest. */
  method CopyContent(store: Store, dest: ProjectId, rows: seq<Listed>, ids: seq<FolderId>,
                     frows: seq<ListedFile>, fids: seq<FileId>)
    requires Forest(store.View()) && dest in store.projects
    requires |rows| == |ids| && Generated(store.folders.Keys, ids)
    requires |frows| == |fids| && Generated(store.files.Keys, fids)
    modifies store`folders, store`files
    ensures Forest(store.View())
    ensures store.folders == WithCopies(old(store.folders), rows, ids, dest, |rows|)
    ensures forall i :: 0 <= i < |frows| && frows[i].safe ==>
              fids[i] in store.files && store.files[fids[i]] == FileCopyOf(frows, IdMap(rows, ids, |rows|), dest, i)
    ensures forall i :: 0 <= i < |frows| && frows[i].safe ==>
              && fids[i] in store.files && store.files[fids[i]].project == dest
              && store.files[fids[i]].name == frows[i].stem
    ensures forall i :: 0 <= i < |frows| && !frows[i].safe ==> fids[i] !in store.files
    ensures forall x :: x in old(store.files) ==> x in store.files && store.files[x] == old(store.files)[x]
  {
    ghost var before := store.files;
    MapsToCopies(store.folders, rows, ids, dest);
    var idMap := CopyFolders(store, dest, rows, ids);
    ghost var t := store.View();
    CopyFiles(store, dest, frows, fids, idMap);
    FilesKeepForest(t, dest, frows, fids, idMap, |frows|);
    forall i | 0 <= i < |frows|
      ensures if frows[i].safe then fids[i] in store.files && store.files[fids[i]] == FileCopyOf(frows, idMap, dest, i)
              else fids[i] !in store.files
    {
      FileCopyStored(before, frows, fids, dest, idMap, |frows|, i);
    }
    forall x | x in before ensures x in store.files && store.files[x] == before[x] {
      OldFilesStay(before, frows, fids, dest, idMap, |frows|, x);
    }
  }

  // ----- what is lost

  ghost function FoldersOf(t: Tables, project: ProjectId): set<FolderId> {
    set x | x in t.folders && t.folders[x].project == project
  }

  ghost function FilesOf(t: Tables, project: ProjectId): set<FileId> {
    set x | x in t.files && t.files[x].project == project
  }

  /** Every folder of the project has a copy, in its place. */
  ghost predicate FoldersComplete(t: Tables, project: ProjectId, rows: seq<Listed>, ids: seq<FolderId>, dest: ProjectId)
    requires |rows| == |ids|
  {
    (forall x :: x in FoldersOf(t, project) ==> HasRow(rows, x)) && Mirrors(rows, ids, dest)
  }

  function RowIds(rows: seq<Listed>): (xs: seq<FolderId>)
    ensures |xs| == |rows| && forall i :: 0 <= i < |rows| ==> xs[i] == rows[i].id
  {
    seq(|rows|, i requires 0 <= i < |rows| => rows[i].id)
  }

  function FileRowIds(rows: seq<ListedFile>): (xs: seq<FileId>)
    ensures |xs| == |rows| && forall i :: 0 <= i < |rows| ==> xs[i] == rows[i].id
  {
    seq(|rows|, i requires 0 <= i < |rows| => rows[i].id)
  }

  lemma ListedFolders(t: Tables, project: ProjectId, rows: seq<Listed>)
    requires IsListing(t, project, rows)
    ensures IsPage(FoldersOf(t, project), RowIds(rows))
    ensures forall x :: HasRow(rows, x) <==> x in RowIds(rows)
  {
    forall x ensures HasRow(rows, x) <==> x in RowIds(rows) {
      if i :| 0 <= i < |rows| && rows[i].id == x {
        assert RowIds(rows)[i] == x;
      }
    }
  }

  lemma ListedFiles(t: Tables, project: ProjectId, rows: seq<ListedFile>)
    requires IsFileListing(t, project, rows)
    ensures IsPage(FilesOf(t, project), FileRowIds(rows))
    ensures forall x :: HasFileRow(rows, x) <==> x in FileRowIds(rows)
  {
    forall x ensures HasFileRow(rows, x) <==> x in FileRowIds(rows) {
      if i :| 0 <= i < |rows| && rows[i].id == x {
        assert FileRowIds(rows)[i] == x;
      }
    }
  }

  /** The folder copy is complete if and only if the project has at most 500 folders and the listing
      puts every parent before its children. */
  lemma {:induction false} FoldersCompleteExactly(t: Tables, project: ProjectId, rows: seq<Listed>,
                                                  ids: seq<FolderId>, dest: ProjectId)
    requires IsListing(t, project, rows) && |rows| == |ids|
    ensures FoldersComplete(t, project, rows, ids, dest) <==>
            ParentsFirst(rows) && |FoldersOf(t, project)| <= MAX_PAGE_SIZE
  {
    MirrorsExactly(t, project, rows, ids, dest);
    ListedFolders(t, project, rows);
    PageCovers(FoldersOf(t, project), RowIds(rows));
    hide Mirrors, ParentsFirst, HasRow, IsListing, FoldersOf, IsPage;
  }

  /** The file has a copy, and in the copy of its folder if it lies in one. */
  ghost predicate FileMirrored(rows: seq<Listed>, ids: seq<FolderId>, frows: seq<ListedFile>, dest: ProjectId, i: nat)
    requires i < |frows| && |rows| == |ids|
  {
    var folder, copy := frows[i].row.folder, FileCopyOf(frows, IdMap(rows, ids, |rows|), dest, i).folder;
    frows[i].safe && (folder.Some? <==> copy.Some?) && (folder.Some? ==> IsCopy(rows, ids, folder.value, copy.value))
  }

  /** Every file of the project has a copy, in its place. */
  ghost predicate FilesComplete(t: Tables, project: ProjectId, rows: seq<Listed>, ids: seq<FolderId>,
                                frows: seq<ListedFile>, dest: ProjectId)
    requires |rows| == |ids|
  {
    (forall x :: x in FilesOf(t, project) ==> HasFileRow(frows, x)) &&
    forall i :: 0 <= i < |frows| ==> FileMirrored(rows, ids, frows, dest, i)
  }

  lemma FileMirroredExactly(rows: seq<Listed>, ids: seq<FolderId>, frows: seq<ListedFile>, dest: ProjectId, i: nat)
    requires i < |frows| && |rows| == |ids|
    ensures FileMirrored(rows, ids, frows, dest, i) <==>
            frows[i].safe && (frows[i].row.folder.Some? ==> HasRow(rows, frows[i].row.folder.value))
  {
    if frows[i].row.folder.Some? {
      FileFollowsFolder(rows, ids, frows[i].row.folder.value);
    }
    hide IdMap, HasRow, IsCopy;
  }

  /** The file copy is complete if and only if the project has at most 500 files, all their names can
      be used, and all their folders were listed; beyond that exactly the files past the page
      are not even looked at. */
  lemma FilesCompleteExactly(t: Tables, project: ProjectId, rows: seq<Listed>, ids: seq<FolderId>,
                             frows: seq<ListedFile>, dest: ProjectId)
    requires IsFileListing(t, project, frows) && |rows| == |ids|
    ensures FilesComplete(t, project, rows, ids, frows, dest) <==>
            && |FilesOf(t, project)| <= MAX_PAGE_SIZE
            && forall i :: 0 <= i < |frows| ==>
                 frows[i].safe && (frows[i].row.folder.Some? ==> HasRow(rows, frows[i].row.folder.value))
    ensures |set x | x in FilesOf(t, project) && !HasFileRow(frows, x)| ==
            if |FilesOf(t, project)| <= MAX_PAGE_SIZE then 0 else |FilesOf(t, project)| - MAX_PAGE_SIZE
  {
    ListedFiles(t, project, frows);
    PageCovers(FilesOf(t, project), FileRowIds(frows));
    forall i | 0 <= i < |frows|
      ensures FileMirrored(rows, ids, frows, dest, i) <==>
              frows[i].safe && (frows[i].row.folder.Some? ==> HasRow(rows, frows[i].row.folder.value))
    {
      FileMirroredExactly(rows, ids, frows, dest, i);
    }
    hide FileMirrored, HasRow, HasFileRow, IsFileListing, FilesOf, IsPage;
    assert (set x | x in FilesOf(t, project) && !HasFileRow(frows, x)) ==
           set x | x in FilesOf(t, project) && x !in FileRowIds(frows);
  }

  /** Nothing of a project is lost or displaced by the copy if and only if it has at most 500 folders
      and at most 500 files, the listing puts parents before children, and all file names can be
      used. */
  lemma CopyCompleteExactly(t: Tables, project: ProjectId, rows: seq<Listed>, ids: seq<FolderId>,
                            frows: seq<ListedFile>, dest: ProjectId)
    requires Linked(t) && IsListing(t, project, rows) && IsFileListing(t, project, frows) && |rows| == |ids|
    ensures FoldersComplete(t, project, rows, ids, dest) && FilesComplete(t, project, rows, ids, frows, dest) <==>
            && |FoldersOf(t, project)| <= MAX_PAGE_SIZE && |FilesOf(t, project)| <= MAX_PAGE_SIZE
            && ParentsFirst(rows) && forall i :: 0 <= i < |frows| ==> frows[i].safe
  {
    FoldersCompleteExactly(t, project, rows, ids, dest);
    FilesCompleteExactly(t, project, rows, ids, frows, dest);
    hide FilesComplete, Mirrors, HasRow, ParentsFirst;
    forall i | 0 <= i < |frows| && frows[i].row.folder.Some?
      ensures frows[i].row.folder.value in FoldersOf(t, project)
    {
      assert t.files[frows[i].id] == frows[i].row;
    }
    hide Linked, IsListing, IsFileListing, FoldersOf, FilesOf;
  }
}
