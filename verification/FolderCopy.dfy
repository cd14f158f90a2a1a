/** Copying a project's folders and files into another project, row by row in listing order,
    with a map from old to new folder ids that grows as the copy proceeds. */
module FolderCopy {
  import opened Sequences
  import opened Paging
  import opened FolderStore
  import opened FolderForest

  datatype Listed = Listed(id: FolderId, row: Folder)
  /** `safe` tells whether the name can be used as a file name, `stem` is the stem of the path that
      the copy is written to: the name's own, or a generated one if that path is taken. */
  datatype ListedFile = ListedFile(id: FileId, row: File, safe: bool, stem: string)

  // ----- the listing

  predicate NameLe(a: string, b: string) {
    a == "" || (b != "" && (a[0] < b[0] || (a[0] == b[0] && NameLe(a[1..], b[1..]))))
  }

  predicate ListedBefore(a: Folder, b: Folder) {
    a.sortOrder < b.sortOrder || (a.sortOrder == b.sortOrder && NameLe(a.name, b.name))
  }

  ghost predicate HasRow(rows: seq<Listed>, x: FolderId) {
    exists i :: 0 <= i < |rows| && rows[i].id == x
  }

  /** An answer of `list_folders`: rows of the project, each once, by sort order and name, and
      all of them unless the page is full. */
  ghost predicate IsListing(t: Tables, project: ProjectId, rows: seq<Listed>) {
    && |rows| <= MAX_PAGE_SIZE
    && (forall i :: 0 <= i < |rows| ==> rows[i].id in t.folders && t.folders[rows[i].id] == rows[i].row)
    && (forall i :: 0 <= i < |rows| ==> rows[i].row.project == project)
    && (forall i, j :: 0 <= i < j < |rows| ==> rows[i].id != rows[j].id)
    && (forall i, j :: 0 <= i < j < |rows| ==> ListedBefore(rows[i].row, rows[j].row))
    && (|rows| < MAX_PAGE_SIZE ==>
          forall x :: x in t.folders && t.folders[x].project == project ==> HasRow(rows, x))
  }

  // ----- the copy

  /** `folder_id_map` after the first `n` rows; `ids` are the generated ids. */
  function IdMap(rows: seq<Listed>, ids: seq<FolderId>, n: nat): map<FolderId, FolderId>
    requires n <= |rows| == |ids|
  {
    if n == 0 then map[] else IdMap(rows, ids, n - 1)[rows[n - 1].id := ids[n - 1]]
  }

  /** `folder_id_map.get(parent)`. */
  function Image(m: map<FolderId, FolderId>, r: Option<FolderId>): Option<FolderId> {
    if r.Some? && r.value in m then Some(m[r.value]) else None
  }

  function CopyOf(rows: seq<Listed>, ids: seq<FolderId>, dest: ProjectId, i: nat): Folder
    requires i < |rows| == |ids|
  {
    Folder(dest, Image(IdMap(rows, ids, i), rows[i].row.parent), rows[i].row.name, rows[i].row.sortOrder)
  }

  function WithCopies(folders: map<FolderId, Folder>, rows: seq<Listed>, ids: seq<FolderId>, dest: ProjectId, n: nat)
    : map<FolderId, Folder>
    requires n <= |rows| == |ids|
  {
    if n == 0 then folders
    else WithCopies(folders, rows, ids, dest, n - 1)[ids[n - 1] := CopyOf(rows, ids, dest, n - 1)]
  }

  /** Generated ids are new, non-empty and never repeated. */
  ghost predicate Generated(taken: set<string>, ids: seq<string>) {
    && (forall i :: 0 <= i < |ids| ==> ids[i] != "" && ids[i] !in taken)
    && (forall i, j :: 0 <= i < j < |ids| ==> ids[i] != ids[j])
  }

  /** Each copy is in the table as it was written. */
  lemma {:induction false} CopyStored(folders: map<FolderId, Folder>, rows: seq<Listed>, ids: seq<FolderId>,
                                      dest: ProjectId, n: nat, i: nat)
    requires i < n <= |rows| == |ids| && Generated(folders.Keys, ids)
    ensures ids[i] in WithCopies(folders, rows, ids, dest, n)
    ensures WithCopies(folders, rows, ids, dest, n)[ids[i]] == CopyOf(rows, ids, dest, i)
  {
    hide CopyOf;
    if i < n - 1 {
      CopyStored(folders, rows, ids, dest, n - 1, i);
    }
  }

  /** The copy touches no other row. */
  lemma {:induction false} OthersUntouched(folders: map<FolderId, Folder>, rows: seq<Listed>, ids: seq<FolderId>,
                                           dest: ProjectId, n: nat, x: FolderId)
    requires n <= |rows| == |ids| && x !in ids[..n]
    ensures x in WithCopies(folders, rows, ids, dest, n) <==> x in folders
    ensures x in folders ==> WithCopies(folders, rows, ids, dest, n)[x] == folders[x]
  {
    hide CopyOf;
    if n > 0 {
      assert ids[n - 1] in ids[..n];
      assert forall y :: y in ids[..n - 1] ==> y in ids[..n];
      OthersUntouched(folders, rows, ids, dest, n - 1, x);
    }
  }

  lemma {:induction false} IdMapAt(rows: seq<Listed>, ids: seq<FolderId>, n: nat, x: FolderId)
    requires n <= |rows| == |ids|
    ensures x in IdMap(rows, ids, n) ==>
              exists j :: 0 <= j < n && rows[j].id == x && ids[j] == IdMap(rows, ids, n)[x]
    ensures forall j :: 0 <= j < n && rows[j].id == x ==> x in IdMap(rows, ids, n)
  {
    if n > 0 {
      IdMapAt(rows, ids, n - 1, x);
    }
  }

  /** Creating the next copy succeeds: its id is new, and its parent, if any, is a copy. */
  lemma NextCopyCreated(t: Tables, u: Tables, rows: seq<Listed>, ids: seq<FolderId>, dest: ProjectId, i: nat)
    requires Forest(u) && dest in u.projects && i < |rows| == |ids| && Generated(t.folders.Keys, ids)
    requires u.folders == WithCopies(t.folders, rows, ids, dest, i)
    ensures FolderCreated(u, ids[i], CopyOf(rows, ids, dest, i)).1.Done?
    ensures Forest(FolderCreated(u, ids[i], CopyOf(rows, ids, dest, i)).0)
  {
    var copy := CopyOf(rows, ids, dest, i);
    OthersUntouched(t.folders, rows, ids, dest, i, ids[i]);
    CreateKeepsForest(u, ids[i], copy);
    if copy.parent.Some? {
      IdMapAt(rows, ids, i, rows[i].row.parent.value);
      var j :| 0 <= j < i && ids[j] == copy.parent.value;
      CopyStored(t.folders, rows, ids, dest, i, j);
    }
    hide WithCopies, Forest, IdMap;
  }

  /** The copies have the new project and the name and sort order of their originals; old rows stay. */
  lemma CopiedFields(folders: map<FolderId, Folder>, rows: seq<Listed>, ids: seq<FolderId>, dest: ProjectId)
    requires |rows| == |ids| && Generated(folders.Keys, ids)
    ensures var f' := WithCopies(folders, rows, ids, dest, |rows|);
            && (forall i :: 0 <= i < |rows| ==>
                  && ids[i] in f' && f'[ids[i]].project == dest && f'[ids[i]].name == rows[i].row.name
                  && f'[ids[i]].sortOrder == rows[i].row.sortOrder)
            && (forall x :: x in folders ==> x in f' && f'[x] == folders[x])
  {
    var f' := WithCopies(folders, rows, ids, dest, |rows|);
    forall i | 0 <= i < |rows|
      ensures ids[i] in f' && f'[ids[i]].project == dest && f'[ids[i]].name == rows[i].row.name
      ensures f'[ids[i]].sortOrder == rows[i].row.sortOrder
    {
      CopyStored(folders, rows, ids, dest, |rows|, i);
      hide WithCopies, IdMap, Image;
    }
    forall x | x in folders ensures x in f' && f'[x] == folders[x] {
      OthersUntouched(folders, rows, ids, dest, |rows|, x);
      hide WithCopies;
    }
  }

  /** The folder loop of the copy: no create fails, the old rows stay, each listed folder gets
      one copy, and the table remains a forest. */
  method CopyFolders(store: Store, dest: ProjectId, rows: seq<Listed>, ids: seq<FolderId>)
    returns (idMap: map<FolderId, FolderId>)
    requires Forest(store.View()) && dest in store.projects
    requires |rows| == |ids| && Generated(store.folders.Keys, ids)
    modifies store`folders
    ensures store.folders == WithCopies(old(store.folders), rows, ids, dest, |rows|)
    ensures idMap == IdMap(rows, ids, |rows|)
    ensures forall i :: 0 <= i < |rows| ==>
              && ids[i] in store.folders && store.folders[ids[i]].project == dest
              && store.folders[ids[i]].name == rows[i].row.name
              && store.folders[ids[i]].sortOrder == rows[i].row.sortOrder
    ensures forall x :: x in old(store.folders) ==>
              x in store.folders && store.folders[x] == old(store.folders)[x]
    ensures Forest(store.View())
  {
    ghost var t := store.View();
    idMap := map[];
    for i := 0 to |rows|
      invariant store.View() == t.(folders := WithCopies(t.folders, rows, ids, dest, i))
      invariant idMap == IdMap(rows, ids, i)
      invariant Forest(store.View())
    {
      NextCopyCreated(t, store.View(), rows, ids, dest, i);
      var f := rows[i].row;
      var o := store.CreateFolder(ids[i], Folder(dest, Image(idMap, f.parent), f.name, f.sortOrder));
      assert o.Done?;
      idMap := idMap[rows[i].id := ids[i]];
    }
    CopiedFields(t.folders, rows, ids, dest);
  }

  function WithFileCopies(files: map<FileId, File>, rows: seq<ListedFile>, ids: seq<FileId>, dest: ProjectId,
                          idMap: map<FolderId, FolderId>, n: nat): map<FileId, File>
    requires n <= |rows| == |ids|
  {
    if n == 0 then files
    else
      var past := WithFileCopies(files, rows, ids, dest, idMap, n - 1);
      var f := rows[n - 1];
      if f.safe then past[ids[n - 1] := File(dest, Image(idMap, f.row.folder), f.stem)] else past
  }

  /** The file loop: names that cannot be used as a file name are skipped, every other file is
      copied into the copy of its folder, or to the top level if its folder was not copied. */
  method CopyFiles(store: Store, dest: ProjectId, rows: seq<ListedFile>, ids: seq<FileId>,
                   idMap: map<FolderId, FolderId>)
    requires dest in store.projects && |rows| == |ids| && Generated(store.files.Keys, ids)
    requires forall x :: x in idMap ==>
               idMap[x] != "" && idMap[x] in store.folders && store.folders[idMap[x]].project == dest
    modifies store`files
    ensures store.files == WithFileCopies(old(store.files), rows, ids, dest, idMap, |rows|)
  {
    for i := 0 to |rows|
      invariant store.files == WithFileCopies(old(store.files), rows, ids, dest, idMap, i)
      invariant store.projects == old(store.projects) && store.folders == old(store.folders)
      invariant forall x :: x in store.files ==> x in old(store.files) || exists j :: 0 <= j < i && ids[j] == x
    {
      if rows[i].safe {
        var f := rows[i].row;
        var o := store.CreateFile(ids[i], File(dest, Image(idMap, f.folder), rows[i].stem));
        assert o.Done?;
      }
    }
  }

  // ----- what the copy looks like

  ghost predicate ListedEarlier(rows: seq<Listed>, i: nat, x: FolderId) {
    i <= |rows| && exists j :: 0 <= j < i && rows[j].id == x
  }

  /** Every parent is listed, and before its children. */
  ghost predicate ParentsFirst(rows: seq<Listed>) {
    forall i :: 0 <= i < |rows| && rows[i].row.parent.Some? ==> ListedEarlier(rows, i, rows[i].row.parent.value)
  }

  /** `y` is the copy of `x`. */
  ghost predicate IsCopy(rows: seq<Listed>, ids: seq<FolderId>, x: FolderId, y: FolderId)
    requires |rows| == |ids|
  {
    exists i :: 0 <= i < |rows| && rows[i].id == x && ids[i] == y
  }

  /** A copied folder keeps its parent exactly if the parent was listed before it; otherwise it
      becomes a root. */
  lemma ParentKeptExactly(rows: seq<Listed>, ids: seq<FolderId>, dest: ProjectId, i: nat)
    requires i < |rows| == |ids| && rows[i].row.parent.Some?
    requires forall i, j :: 0 <= i < j < |rows| ==> rows[i].id != rows[j].id
    ensures CopyOf(rows, ids, dest, i).parent.Some? <==> ListedEarlier(rows, i, rows[i].row.parent.value)
    ensures CopyOf(rows, ids, dest, i).parent.Some? ==>
              IsCopy(rows, ids, rows[i].row.parent.value, CopyOf(rows, ids, dest, i).parent.value)
  {
    IdMapAt(rows, ids, i, rows[i].row.parent.value);
  }

  lemma CopyParent(t: Tables, project: ProjectId, dest: ProjectId, rows: seq<Listed>, ids: seq<FolderId>, j: nat)
    requires IsListing(t, project, rows) && |rows| == |ids| && Generated(t.folders.Keys, ids) && j < |rows|
    ensures var p := CopyOf(rows, ids, dest, j).parent;
            && (p.Some? ==> p.value != "" && IsCopy(rows, ids, ParentOf(t.folders, rows[j].id), p.value))
            && (ListedEarlier(rows, j, ParentOf(t.folders, rows[j].id)) && ParentOf(t.folders, rows[j].id) != "" ==>
                  p.Some?)
  {
    if rows[j].row.parent.Some? {
      ParentKeptExactly(rows, ids, dest, j);
    }
  }

  /** Following the parents of a copy never leaves the copies, and runs along the chain of the
      original: the copy's ancestors are copies of the original's ancestors, at the same height. */
  lemma {:induction false} CopyChain(t: Tables, project: ProjectId, dest: ProjectId, rows: seq<Listed>,
                                     ids: seq<FolderId>, i: nat, n: nat)
    requires IsListing(t, project, rows) && |rows| == |ids| && Generated(t.folders.Keys, ids) && Linked(t)
    requires i < |rows|
    ensures var y := Chain(WithCopies(t.folders, rows, ids, dest, |rows|), ids[i], n);
            y == "" || IsCopy(rows, ids, Chain(t.folders, rows[i].id, n), y)
  {
    var f' := WithCopies(t.folders, rows, ids, dest, |rows|);
    if n > 0 {
      CopyChain(t, project, dest, rows, ids, i, n - 1);
      var y := Chain(f', ids[i], n - 1);
      if y != "" {
        var j :| 0 <= j < |rows| && rows[j].id == Chain(t.folders, rows[i].id, n - 1) && ids[j] == y;
        CopyStored(t.folders, rows, ids, dest, |rows|, j);
        hide IsListing, Generated, WithCopies, CopyOf;
        CopyParent(t, project, dest, rows, ids, j);
      }
    } else {
      assert rows[i].id != "" && ids[i] != "";
    }
  }

  /** With parents listed first, the copy is isomorphic to the original: the chain of each copy
      is the copy of the chain, step for step, and ends where the original ends. */
  lemma {:induction false} CopyIsomorphic(t: Tables, project: ProjectId, dest: ProjectId, rows: seq<Listed>,
                                          ids: seq<FolderId>, i: nat, n: nat)
    requires IsListing(t, project, rows) && |rows| == |ids| && Generated(t.folders.Keys, ids) && Linked(t)
    requires i < |rows| && ParentsFirst(rows)
    ensures var y := Chain(WithCopies(t.folders, rows, ids, dest, |rows|), ids[i], n);
            var x := Chain(t.folders, rows[i].id, n);
            (x == "" <==> y == "") && (x != "" ==> IsCopy(rows, ids, x, y))
  {
    var f' := WithCopies(t.folders, rows, ids, dest, |rows|);
    CopyChain(t, project, dest, rows, ids, i, n);
    if n > 0 {
      CopyIsomorphic(t, project, dest, rows, ids, i, n - 1);
      var y := Chain(f', ids[i], n - 1);
      if y != "" {
        var j :| 0 <= j < |rows| && rows[j].id == Chain(t.folders, rows[i].id, n - 1) && ids[j] == y;
        CopyStored(t.folders, rows, ids, dest, |rows|, j);
        CopyParent(t, project, dest, rows, ids, j);
        hide IsListing, Generated, WithCopies, CopyOf, IsCopy, ListedEarlier;
      }
    } else {
      assert rows[i].id != "" && ids[i] != "";
    }
  }

  /** Every copy has the copy of its original's parent as parent, and roots stay roots. */
  ghost predicate Mirrors(rows: seq<Listed>, ids: seq<FolderId>, dest: ProjectId)
    requires |rows| == |ids|
  {
    forall i :: 0 <= i < |rows| ==>
      (rows[i].row.parent.Some? <==> CopyOf(rows, ids, dest, i).parent.Some?) &&
      (rows[i].row.parent.Some? ==>
        IsCopy(rows, ids, rows[i].row.parent.value, CopyOf(rows, ids, dest, i).parent.value))
  }

  /** The copy mirrors the original exactly when the listing puts every parent before its
      children; otherwise some folder has become a root. */
  lemma {:induction false} MirrorsExactly(t: Tables, project: ProjectId, rows: seq<Listed>, ids: seq<FolderId>,
                                          dest: ProjectId)
    requires IsListing(t, project, rows) && |rows| == |ids|
    ensures Mirrors(rows, ids, dest) <==> ParentsFirst(rows)
  {
    forall i | 0 <= i < |rows|
      ensures rows[i].row.parent.Some? ==>
        (CopyOf(rows, ids, dest, i).parent.Some? <==> ListedEarlier(rows, i, rows[i].row.parent.value))
      ensures rows[i].row.parent.Some? && CopyOf(rows, ids, dest, i).parent.Some? ==>
        IsCopy(rows, ids, rows[i].row.parent.value, CopyOf(rows, ids, dest, i).parent.value)
      ensures rows[i].row.parent == None ==> CopyOf(rows, ids, dest, i).parent == None
    {
      if rows[i].row.parent.Some? {
        ParentKeptExactly(rows, ids, dest, i);
      }
    }
    hide CopyOf, IsCopy, ListedEarlier, IsListing;
  }

  /** A child whose name sorts before its parent's is listed first and loses its place. */
  lemma EarlyChildLosesParent(ids: seq<FolderId>, dest: ProjectId)
    requires |ids| == 2
    ensures var child := Folder("p", Some("2"), "a", 0);
            var parent := Folder("p", None, "b", 0);
            var rows := [Listed("1", child), Listed("2", parent)];
            && IsListing(Tables({"p"}, map["1" := child, "2" := parent], map[]), "p", rows)
            && !ParentsFirst(rows)
            && CopyOf(rows, ids, dest, 0).parent == None
  {
    var child := Folder("p", Some("2"), "a", 0);
    var parent := Folder("p", None, "b", 0);
    var rows := [Listed("1", child), Listed("2", parent)];
    var t := Tables({"p"}, map["1" := child, "2" := parent], map[]);
    assert ListedBefore(child, parent);
    forall x | x in t.folders ensures HasRow(rows, x) {
      if x == "1" { assert rows[0].id == x; } else { assert rows[1].id == x; }
    }
    assert !ListedEarlier(rows, 0, "2");
    assert rows[0].row.parent == Some("2");
  }

  /** A copied file lies in the copy of its folder exactly if that folder was listed. */
  lemma FileFollowsFolder(rows: seq<Listed>, ids: seq<FolderId>, x: FolderId)
    requires |rows| == |ids|
    ensures Image(IdMap(rows, ids, |rows|), Some(x)).Some? <==> HasRow(rows, x)
    ensures HasRow(rows, x) ==> IsCopy(rows, ids, x, Image(IdMap(rows, ids, |rows|), Some(x)).value)
  {
    IdMapAt(rows, ids, |rows|, x);
  }
}
