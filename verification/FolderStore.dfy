/** The knowledge-folder and knowledge-file tables with their foreign keys: folders point
    to a parent folder, files to a folder, both to a project. A store call is atomic. */
module FolderStore {
  import opened Sequences

  type ProjectId = string
  type FolderId = string
  type FileId = string

  datatype Folder = Folder(project: ProjectId, parent: Option<FolderId>, name: string, sortOrder: int)
  datatype File = File(project: ProjectId, folder: Option<FolderId>, name: string)

  datatype Tables = Tables(projects: set<ProjectId>, folders: map<FolderId, Folder>, files: map<FileId, File>)

  const NO_ROWS := Tables({}, map[], map[])

  /** `Missing` is the None/False answer for an unknown id; `Integrity` a violated key constraint. */
  datatype Outcome = Done | Missing | ParentNotFound | ParentElsewhere | Cycle | Integrity

  // ----- the parent chain

  /** The parent as the walk sees it: "" for none, for an unknown folder and for an empty id. */
  function ParentOf(folders: map<FolderId, Folder>, x: FolderId): FolderId {
    if x in folders && folders[x].parent.Some? then folders[x].parent.value else ""
  }

  /** The `n`-th folder of the chain that starts at `x`, "" once the chain has ended. */
  function Chain(folders: map<FolderId, Folder>, x: FolderId, n: nat): FolderId {
    if x == "" then ""
    else if n == 0 then x
    else
      var y := Chain(folders, x, n - 1);
      if y == "" then "" else ParentOf(folders, y)
  }

  ghost predicate Ends(folders: map<FolderId, Folder>, x: FolderId) {
    exists n: nat :: Chain(folders, x, n) == ""
  }

  ghost predicate OnChain(folders: map<FolderId, Folder>, x: FolderId, y: FolderId) {
    y != "" && exists n: nat :: Chain(folders, x, n) == y
  }

  ghost predicate MetBefore(folders: map<FolderId, Folder>, x: FolderId, y: FolderId, n: nat) {
    exists i: nat :: i < n && Chain(folders, x, i) == y
  }

  /** The parent chain of `x` comes to an end without meeting `self`. */
  ghost predicate WalkPasses(folders: map<FolderId, Folder>, x: FolderId, self: FolderId) {
    Ends(folders, x) && !OnChain(folders, x, self)
  }

  // ----- what each call does

  /** `_validate_folder_parent`; `self` is given when an existing folder is moved. */
  ghost function Validated(t: Tables, project: ProjectId, parent: FolderId, self: Option<FolderId>): Outcome {
    if parent == "" then Done
    else if parent !in t.folders then ParentNotFound
    else if t.folders[parent].project != project then ParentElsewhere
    else if self.Some? && !WalkPasses(t.folders, parent, self.value) then Cycle
    else Done
  }

  /** The id in an optional reference; a missing one reads as "". */
  function Ref(r: Option<FolderId>): FolderId {
    if r.Some? then r.value else ""
  }

  predicate ReferenceHolds(t: Tables, r: Option<FolderId>) {
    r.Some? ==> r.value in t.folders
  }

  ghost function FolderCreated(t: Tables, id: FolderId, f: Folder): (Tables, Outcome) {
    var v := Validated(t, f.project, Ref(f.parent), None);
    if !v.Done? then (t, v)
    else if id in t.folders || f.project !in t.projects || !ReferenceHolds(t, f.parent) then (t, Integrity)
    else (t.(folders := t.folders[id := f]), Done)
  }

  /** None leaves a field as it is; in particular no update can make a folder a root. */
  function Edited(f: Folder, parent: Option<FolderId>, name: Option<string>, sortOrder: Option<int>): Folder {
    Folder(f.project,
           if parent.Some? then parent else f.parent,
           if name.Some? then name.value else f.name,
           if sortOrder.Some? then sortOrder.value else f.sortOrder)
  }

  ghost function FolderUpdated(t: Tables, id: FolderId, parent: Option<FolderId>, name: Option<string>,
                               sortOrder: Option<int>): (Tables, Outcome) {
    if id !in t.folders then (t, Missing)
    else
      var v := if parent.Some? then Validated(t, t.folders[id].project, parent.value, Some(id)) else Done;
      if !v.Done? then (t, v)
      else if !ReferenceHolds(t, parent) then (t, Integrity)
      else (t.(folders := t.folders[id := Edited(t.folders[id], parent, name, sortOrder)]), Done)
  }

  /** ON DELETE SET NULL on both references. */
  function Unlinked(r: Option<FolderId>, id: FolderId): Option<FolderId> {
    if r == Some(id) then None else r
  }

  function FolderDeleted(t: Tables, id: FolderId): (Tables, Outcome) {
    if id !in t.folders then (t, Missing)
    else
      (Tables(t.projects,
              map x | x in t.folders && x != id :: t.folders[x].(parent := Unlinked(t.folders[x].parent, id)),
              map x | x in t.files :: t.files[x].(folder := Unlinked(t.files[x].folder, id))), Done)
  }

  ghost function FileCreated(t: Tables, id: FileId, f: File): (Tables, Outcome) {
    var v := Validated(t, f.project, Ref(f.folder), None);
    if !v.Done? then (t, v)
    else if id in t.files || f.project !in t.projects || !ReferenceHolds(t, f.folder) then (t, Integrity)
    else (t.(files := t.files[id := f]), Done)
  }

  ghost function FileUpdated(t: Tables, id: FileId, folder: Option<FolderId>, name: Option<string>): (Tables, Outcome) {
    if id !in t.files then (t, Missing)
    else
      var f := t.files[id];
      var v := if folder.Some? then Validated(t, f.project, folder.value, None) else Done;
      if !v.Done? then (t, v)
      else if !ReferenceHolds(t, folder) then (t, Integrity)
      else (t.(files := t.files[id := File(f.project, if folder.Some? then folder else f.folder,
                                           if name.Some? then name.value else f.name)]), Done)
  }

  function FileDeleted(t: Tables, id: FileId): (Tables, Outcome) {
    if id !in t.files then (t, Missing) else (t.(files := t.files - {id}), Done)
  }

  function ProjectCreated(t: Tables, p: ProjectId): (Tables, Outcome) {
    if p in t.projects then (t, Integrity) else (t.(projects := t.projects + {p}), Done)
  }

  /** What is left of a reference when the folders of project `p` disappear. */
  function KeptReference(folders: map<FolderId, Folder>, p: ProjectId, r: Option<FolderId>): (kept: Option<FolderId>)
    ensures kept == r || kept == None
    ensures r.Some? && r.value in folders ==> (kept == r <==> folders[r.value].project != p)
    ensures r.Some? && r.value !in folders && r.value != "" ==> kept == r
  {
    if Ref(r) in folders && folders[Ref(r)].project == p then None else r
  }

  /** ON DELETE CASCADE for the project's folders and files, and SET NULL for references into
      the folders that disappear. */
  function ProjectDeleted(t: Tables, p: ProjectId): (Tables, Outcome) {
    if p !in t.projects then (t, Missing)
    else
      (Tables(t.projects - {p},
              map x | x in t.folders && t.folders[x].project != p ::
                t.folders[x].(parent := KeptReference(t.folders, p, t.folders[x].parent)),
              map x | x in t.files && t.files[x].project != p ::
                t.files[x].(folder := KeptReference(t.folders, p, t.files[x].folder))), Done)
  }

  // ----- facts about chains

  lemma {:induction false} ChainShift(folders: map<FolderId, Folder>, x: FolderId, i: nat, j: nat, d: nat)
    requires Chain(folders, x, i) == Chain(folders, x, j)
    ensures Chain(folders, x, i + d) == Chain(folders, x, j + d)
  {
    if d > 0 {
      ChainShift(folders, x, i, j, d - 1);
    }
  }

  lemma {:induction false} ChainStaysDone(folders: map<FolderId, Folder>, x: FolderId, n: nat, m: nat)
    requires Chain(folders, x, n) == "" && n <= m
    ensures Chain(folders, x, m) == ""
  {
    if m > n {
      ChainStaysDone(folders, x, n, m - 1);
    }
  }

  /** A chain that repeats itself never ends. */
  lemma {:induction false} RepeatNeverEnds(folders: map<FolderId, Folder>, x: FolderId, i: nat, j: nat, m: nat)
    requires i < j && Chain(folders, x, i) == Chain(folders, x, j) != ""
    ensures Chain(folders, x, m) != ""
    decreases m
  {
    if m <= j {
      if Chain(folders, x, m) == "" {
        ChainStaysDone(folders, x, m, j);
      }
    } else {
      RepeatNeverEnds(folders, x, i, j, m - (j - i));
      ChainShift(folders, x, i, j, m - j);
    }
  }

  lemma ChainLoops(folders: map<FolderId, Folder>, x: FolderId, i: nat, j: nat)
    requires i < j && Chain(folders, x, i) == Chain(folders, x, j) != ""
    ensures !Ends(folders, x)
  {
    forall m: nat ensures Chain(folders, x, m) != "" {
      RepeatNeverEnds(folders, x, i, j, m);
    }
  }

  /** What lies on a chain that has ended was met before its end. */
  lemma ChainDone(folders: map<FolderId, Folder>, x: FolderId, n: nat)
    requires Chain(folders, x, n) == ""
    ensures Ends(folders, x)
    ensures forall y :: OnChain(folders, x, y) ==> MetBefore(folders, x, y, n)
  {
    forall y | OnChain(folders, x, y) ensures MetBefore(folders, x, y, n) {
      var i: nat :| Chain(folders, x, i) == y;
      if i >= n {
        ChainStaysDone(folders, x, n, i);
      }
    }
  }

  /** A reference to nothing, or to a folder of the project. An empty id refers to whatever row has it. */
  predicate MayRefer(folders: map<FolderId, Folder>, project: ProjectId, r: Option<FolderId>) {
    r.Some? ==> r.value in folders && (r.value == "" || folders[r.value].project == project)
  }

  // ----- the store object

  class Store {
    var projects: set<ProjectId>
    var folders: map<FolderId, Folder>
    var files: map<FileId, File>

    ghost function View(): Tables
      reads this
    {
      Tables(projects, folders, files)
    }

    constructor ()
      ensures View() == NO_ROWS
    {
      projects, folders, files := {}, map[], map[];
    }

    /** The ancestor walk: climbs until the chain ends, meets `self`, or repeats itself. It
        terminates on every table, even a cyclic one, since each folder is visited once. */
    method Walk(parent: FolderId, self: FolderId) returns (ok: bool)
      requires self != ""
      ensures ok <==> WalkPasses(folders, parent, self)
    {
      var visited: set<FolderId> := {};
      var cur := parent;
      ghost var n: nat := 0;
      while cur != ""
        invariant cur == Chain(folders, parent, n)
        invariant forall x :: x in visited <==> MetBefore(folders, parent, x, n)
        invariant "" !in visited && self !in visited
        decreases folders.Keys - visited, cur != ""
      {
        if cur == self {
          return false;
        }
        if cur in visited {
          ghost var i: nat :| i < n && Chain(folders, parent, i) == cur;
          ChainLoops(folders, parent, i, n);
          return false;
        }
        visited := visited + {cur};
        cur := ParentOf(folders, cur);
        n := n + 1;
      }
      ChainDone(folders, parent, n);
      return true;
    }

    method ValidateParent(project: ProjectId, parent: FolderId, self: Option<FolderId>) returns (v: Outcome)
      requires self != Some("")
      ensures v == Validated(View(), project, parent, self)
      ensures v.ParentNotFound? <==> parent != "" && parent !in folders
      ensures v.ParentElsewhere? <==> parent in folders && parent != "" && folders[parent].project != project
      ensures v.Cycle? ==> self.Some?
      ensures parent == "" ==> v.Done?
      ensures !v.Missing? && !v.Integrity?
    {
      if parent == "" {
        return Done;
      }
      if parent !in folders {
        return ParentNotFound;
      }
      if folders[parent].project != project {
        return ParentElsewhere;
      }
      if self.Some? {
        var ok := Walk(parent, self.value);
        if !ok {
          return Cycle;
        }
      }
      return Done;
    }

    method CreateFolder(id: FolderId, f: Folder) returns (o: Outcome)
      requires id != ""
      modifies this`folders
      ensures (View(), o) == FolderCreated(old(View()), id, f)
      ensures folders == if o.Done? then old(folders)[id := f] else old(folders)
      ensures o.Done? <==>
                id !in old(folders) && f.project in projects && MayRefer(old(folders), f.project, f.parent)
    {
      o := ValidateParent(f.project, Ref(f.parent), None);
      if o.Done? {
        if id in folders || f.project !in projects || (f.parent.Some? && f.parent.value !in folders) {
          return Integrity;
        }
        folders := folders[id := f];
      }
    }

    method UpdateFolder(id: FolderId, parent: Option<FolderId>, name: Option<string>, sortOrder: Option<int>)
      returns (o: Outcome)
      requires id != ""
      modifies this`folders
      ensures (View(), o) == FolderUpdated(old(View()), id, parent, name, sortOrder)
      ensures o.Missing? <==> id !in old(folders)
      ensures !o.Done? ==> folders == old(folders)
      ensures o.Done? ==>
                && id in old(folders) && folders.Keys == old(folders).Keys
                && (forall x :: x in folders && x != id ==> folders[x] == old(folders)[x])
                && folders[id].project == old(folders)[id].project
                && folders[id].parent == (if parent.Some? then parent else old(folders)[id].parent)
                && folders[id].name == (if name.Some? then name.value else old(folders)[id].name)
                && folders[id].sortOrder == (if sortOrder.Some? then sortOrder.value else old(folders)[id].sortOrder)
      ensures id in old(folders) ==>
                (o.Done? <==> MayRefer(old(folders), old(folders)[id].project, parent) &&
                              (Ref(parent) == "" || WalkPasses(old(folders), Ref(parent), id)))
    {
      if id !in folders {
        return Missing;
      }
      if parent.Some? {
        o := ValidateParent(folders[id].project, parent.value, Some(id));
        if !o.Done? {
          return;
        }
        if parent.value !in folders {
          return Integrity;
        }
      }
      folders := folders[id := Edited(folders[id], parent, name, sortOrder)];
      o := Done;
    }

    method DeleteFolder(id: FolderId) returns (o: Outcome)
      modifies this`folders, this`files
      ensures (View(), o) == FolderDeleted(old(View()), id)
      ensures if id in old(folders) then o.Done? else o.Missing? && folders == old(folders) && files == old(files)
      ensures folders.Keys == old(folders).Keys - {id} && files.Keys == old(files).Keys
      ensures forall x :: x in folders ==>
                && folders[x].project == old(folders)[x].project && folders[x].name == old(folders)[x].name
                && folders[x].sortOrder == old(folders)[x].sortOrder
      ensures forall x :: x in folders && id in old(folders) ==>
                folders[x].parent == if old(folders)[x].parent == Some(id) then None else old(folders)[x].parent
      ensures forall x :: x in files ==>
                files[x].project == old(files)[x].project && files[x].name == old(files)[x].name
      ensures forall x :: x in files && id in old(folders) ==>
                files[x].folder == if old(files)[x].folder == Some(id) then None else old(files)[x].folder
    {
      var r := FolderDeleted(Tables(projects, folders, files), id);
      folders, files, o := r.0.folders, r.0.files, r.1;
    }

    method CreateProject(p: ProjectId) returns (o: Outcome)
      modifies this`projects
      ensures (View(), o) == ProjectCreated(old(View()), p)
      ensures projects == old(projects) + {p} && (o.Done? <==> p !in old(projects))
    {
      if p in projects {
        return Integrity;
      }
      projects := projects + {p};
      o := Done;
    }

    method DeleteProject(p: ProjectId) returns (o: Outcome)
      modifies this
      ensures (View(), o) == ProjectDeleted(old(View()), p)
      ensures if p in old(projects) then o.Done? else o.Missing? && View() == old(View())
      ensures projects == old(projects) - {p}
      ensures forall x :: x in folders ==>
                x in old(folders) && folders[x] == old(folders)[x].(parent := folders[x].parent)
      ensures forall x :: x in files ==> x in old(files) && files[x] == old(files)[x].(folder := files[x].folder)
      ensures p in old(projects) ==> forall x :: x in folders <==> x in old(folders) && old(folders)[x].project != p
      ensures p in old(projects) ==> forall x :: x in files <==> x in old(files) && old(files)[x].project != p
      ensures p in old(projects) ==> forall x :: x in folders ==>
                folders[x].parent == KeptReference(old(folders), p, old(folders)[x].parent)
      ensures p in old(projects) ==> forall x :: x in files ==>
                files[x].folder == KeptReference(old(folders), p, old(files)[x].folder)
    {
      var r := ProjectDeleted(Tables(projects, folders, files), p);
      projects, folders, files, o := r.0.projects, r.0.folders, r.0.files, r.1;
    }

    method CreateFile(id: FileId, f: File) returns (o: Outcome)
      modifies this`files
      ensures (View(), o) == FileCreated(old(View()), id, f)
      ensures files == if o.Done? then old(files)[id := f] else old(files)
      ensures o.Done? <==> id !in old(files) && f.project in projects && MayRefer(folders, f.project, f.folder)
    {
      o := ValidateParent(f.project, Ref(f.folder), None);
      if o.Done? {
        if id in files || f.project !in projects || (f.folder.Some? && f.folder.value !in folders) {
          return Integrity;
        }
        files := files[id := f];
      }
    }

    method UpdateFile(id: FileId, folder: Option<FolderId>, name: Option<string>) returns (o: Outcome)
      modifies this`files
      ensures (View(), o) == FileUpdated(old(View()), id, folder, name)
      ensures o.Missing? <==> id !in old(files)
      ensures !o.Done? ==> files == old(files)
      ensures o.Done? ==>
                && id in old(files) && files.Keys == old(files).Keys
                && (forall x :: x in files && x != id ==> files[x] == old(files)[x])
                && files[id].project == old(files)[id].project
                && files[id].folder == (if folder.Some? then folder else old(files)[id].folder)
                && files[id].name == (if name.Some? then name.value else old(files)[id].name)
      ensures id in old(files) ==> (o.Done? <==> MayRefer(folders, old(files)[id].project, folder))
    {
      if id !in files {
        return Missing;
      }
      var f := files[id];
      if folder.Some? {
        o := ValidateParent(f.project, folder.value, None);
        if !o.Done? {
          return;
        }
        if folder.value !in folders {
          return Integrity;
        }
        f := f.(folder := folder);
      }
      if name.Some? {
        f := f.(name := name.value);
      }
      files := files[id := f];
      o := Done;
    }

    method DeleteFile(id: FileId) returns (o: Outcome)
      modifies this`files
      ensures (View(), o) == FileDeleted(old(View()), id)
      ensures files == old(files) - {id} && (if id in old(files) then o.Done? else o.Missing?)
    {
      if id !in files {
        return Missing;
      }
      files := files - {id};
      o := Done;
    }
  }
}
