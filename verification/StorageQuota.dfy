/** The storage quota: usage measured by walking the disk, the check, and the copy or unlink
    that follows it. A check and its copy have no suspension between them, so they are one step. */
module StorageQuota {
  import opened Sequences

  type ProjectId = string

  /** A file under a project's directory. A symbolic link, or a file whose size cannot be read,
      is not measured. */
  datatype Entry = Entry(project: ProjectId, path: string, size: nat, measured: bool)

  /** The files in the order in which the directory walk meets them. */
  type Disk = seq<Entry>

  /** A quota that is not positive is not enforced. */
  datatype Quotas = Quotas(project: int, overall: int)

  function Weight(e: Entry): nat {
    if e.measured then e.size else 0
  }

  function Used(d: Disk, p: ProjectId): nat {
    if d == [] then 0 else (if d[0].project == p then Weight(d[0]) else 0) + Used(d[1..], p)
  }

  function Total(d: Disk): nat {
    if d == [] then 0 else Weight(d[0]) + Total(d[1..])
  }

  predicate At(e: Entry, p: ProjectId, path: string) {
    e.project == p && e.path == path
  }

  predicate Exists(d: Disk, p: ProjectId, path: string) {
    exists i :: 0 <= i < |d| && At(d[i], p, path)
  }

  /** No two files share a path. */
  ghost predicate Unique(d: Disk) {
    forall i, j :: 0 <= i < j < |d| ==> !At(d[i], d[j].project, d[j].path)
  }

  /** The measured bytes at a path, 0 when there is no file. */
  function WeightAt(d: Disk, p: ProjectId, path: string): nat {
    if d == [] then 0
    else if At(d[0], p, path) then Weight(d[0])
    else WeightAt(d[1..], p, path)
  }

  /** The renaming of a complete temporary copy onto the path. */
  function Put(d: Disk, e: Entry): Disk {
    if d == [] then [e]
    else if At(d[0], e.project, e.path) then [e] + d[1..]
    else [d[0]] + Put(d[1..], e)
  }

  function Removed(d: Disk, p: ProjectId, path: string): Disk {
    if d == [] then []
    else if At(d[0], p, path) then d[1..]
    else [d[0]] + Removed(d[1..], p, path)
  }

  predicate Accepts(q: Quotas, d: Disk, p: ProjectId, add: int) {
    && 0 <= add
    && (q.project > 0 ==> Used(d, p) + add <= q.project)
    && (q.overall > 0 ==> Total(d) + add <= q.overall)
  }

  /** The enforced quotas hold for project `p` and over all projects. */
  ghost predicate Within(q: Quotas, d: Disk, p: ProjectId) {
    && (q.project > 0 ==> Used(d, p) <= q.project)
    && (q.overall > 0 ==> Total(d) <= q.overall)
  }

  // ----- the operations

  /** `done` says whether the file system carried the copy or the unlink out. */
  datatype Event =
    | Upload(project: ProjectId, path: string, unused: string, size: nat, done: bool)
    | Replace(project: ProjectId, path: string, size: nat, done: bool)
    | Delete(project: ProjectId, path: string, done: bool)

  /** Where a write goes: an upload avoids a path that is taken. */
  function Target(d: Disk, e: Event): string {
    if e.Upload? && Exists(d, e.project, e.path) then e.unused else e.path
  }

  predicate Writes(q: Quotas, d: Disk, e: Event) {
    !e.Delete? && e.done && Accepts(q, d, e.project, e.size)
  }

  predicate Frees(e: Event) {
    e.Delete? && e.done
  }

  function Step(q: Quotas, d: Disk, e: Event): Disk {
    if Writes(q, d, e) then Put(d, Entry(e.project, Target(d, e), e.size, true))
    else if Frees(e) then Removed(d, e.project, e.path)
    else d
  }

  lemma {:induction false} NothingRemoved(d: Disk, p: ProjectId, path: string)
    requires !Exists(d, p, path)
    ensures Removed(d, p, path) == d && WeightAt(d, p, path) == 0
  {
    if d != [] {
      assert !At(d[0], p, path);
      assert forall i :: 0 <= i < |d[1..]| ==> d[1..][i] == d[i + 1];
      NothingRemoved(d[1..], p, path);
    }
  }

  class FileStore {
    const quotas: Quotas
    var disk: Disk

    constructor (quotas: Quotas)
      ensures this.quotas == quotas && disk == []
    {
      this.quotas := quotas;
      disk := [];
    }

    method ProjectUsage(p: ProjectId) returns (total: nat)
      ensures total == Used(disk, p)
    {
      total := 0;
      for i := 0 to |disk|
        invariant total + Used(disk[i..], p) == Used(disk, p)
      {
        var e := disk[i];
        if e.project == p && e.measured {
          total := total + e.size;
        }
      }
    }

    method GlobalUsage() returns (total: nat)
      ensures total == Total(disk)
    {
      total := 0;
      for i := 0 to |disk|
        invariant total + Total(disk[i..]) == Total(disk)
      {
        var e := disk[i];
        if e.measured {
          total := total + e.size;
        }
      }
    }

    method CheckQuota(p: ProjectId, add: int) returns (ok: bool)
      ensures ok <==> Accepts(quotas, disk, p, add)
      ensures ok <==>
                && add >= 0
                && (quotas.project <= 0 || Used(disk, p) + add <= quotas.project)
                && (quotas.overall <= 0 || Total(disk) + add <= quotas.overall)
    {
      if add < 0 {
        return false;
      }
      if quotas.project > 0 {
        var used := ProjectUsage(p);
        if used + add > quotas.project {
          return false;
        }
      }
      if quotas.overall > 0 {
        var used := GlobalUsage();
        if used + add > quotas.overall {
          return false;
        }
      }
      return true;
    }

    /** An upload; `unused` stands for the generated name that avoids a path that is taken. */
    method UploadFile(p: ProjectId, path: string, unused: string, size: nat, copied: bool) returns (ok: bool)
      modifies this`disk
      ensures ok <==> Accepts(quotas, old(disk), p, size)
      ensures disk == Step(quotas, old(disk), Upload(p, path, unused, size, copied))
      ensures !ok || !copied ==> disk == old(disk)
    {
      ok := CheckQuota(p, size);
      if !ok {
        return;
      }
      var target := path;
      if Exists(disk, p, path) {
        target := unused;
      }
      if copied {
        disk := Put(disk, Entry(p, target, size, true));
      }
    }

    /** A replacement asks for room for all of the new bytes, the old ones still counted. */
    method ReplaceFile(p: ProjectId, path: string, size: nat, copied: bool) returns (ok: bool)
      modifies this`disk
      ensures ok <==> Accepts(quotas, old(disk), p, size)
      ensures disk == Step(quotas, old(disk), Replace(p, path, size, copied))
      ensures !ok || !copied ==> disk == old(disk)
    {
      ok := CheckQuota(p, size);
      if ok && copied {
        disk := Put(disk, Entry(p, path, size, true));
      }
    }

    method DeleteFile(p: ProjectId, path: string, unlinked: bool)
      modifies this`disk
      ensures disk == Step(quotas, old(disk), Delete(p, path, unlinked))
      ensures !unlinked ==> disk == old(disk)
    {
      if Exists(disk, p, path) {
        if unlinked {
          disk := Removed(disk, p, path);
        }
      } else {
        NothingRemoved(disk, p, path);
      }
    }
  }

  // ----- bytes are swapped, not lost

  /** A write takes the bytes that were at its path away and puts its own there: the path's
      project and the whole disk change by that difference, no other project changes. */
  lemma {:induction false} PutSwaps(d: Disk, e: Entry, p: ProjectId)
    ensures Used(Put(d, e), e.project) + WeightAt(d, e.project, e.path) == Used(d, e.project) + Weight(e)
    ensures Total(Put(d, e)) + WeightAt(d, e.project, e.path) == Total(d) + Weight(e)
    ensures p != e.project ==> Used(Put(d, e), p) == Used(d, p)
  {
    if d != [] && !At(d[0], e.project, e.path) {
      PutSwaps(d[1..], e, p);
    }
  }

  lemma {:induction false} RemovalFrees(d: Disk, at: ProjectId, path: string, p: ProjectId)
    ensures Used(Removed(d, at, path), at) + WeightAt(d, at, path) == Used(d, at)
    ensures Total(Removed(d, at, path)) + WeightAt(d, at, path) == Total(d)
    ensures p != at ==> Used(Removed(d, at, path), p) == Used(d, p)
  {
    if d != [] && !At(d[0], at, path) {
      RemovalFrees(d[1..], at, path, p);
    }
  }

  lemma {:induction false} PathCounted(d: Disk, p: ProjectId, path: string)
    ensures WeightAt(d, p, path) <= Used(d, p) <= Total(d)
  {
    if d != [] {
      PathCounted(d[1..], p, path);
    }
  }

  /** What usage is: additive over the files, a measured file counts its size for its own project and
      over all, a link or an unreadable file counts nothing. */
  lemma {:induction false} UsageExactly(d: Disk, rest: Disk, p: ProjectId)
    ensures Used(d + rest, p) == Used(d, p) + Used(rest, p) && Total(d + rest) == Total(d) + Total(rest)
    ensures |d| == 1 ==> Total(d) == (if d[0].measured then d[0].size else 0)
    ensures |d| == 1 ==> Used(d, p) == if d[0].measured && d[0].project == p then d[0].size else 0
  {
    if d == [] {
      assert d + rest == rest;
    } else {
      UsageExactly(d[1..], rest, p);
      assert (d + rest)[1..] == d[1..] + rest;
    }
  }

  /** After a write the path holds the new bytes, and every other path what it held before. */
  lemma {:induction false} WriteLands(d: Disk, e: Entry, p: ProjectId, path: string)
    ensures WeightAt(Put(d, e), p, path) ==
            if p == e.project && path == e.path then (if e.measured then e.size else 0) else WeightAt(d, p, path)
  {
    if d != [] {
      WriteLands(d[1..], e, p, path);
    }
  }

  /** An accepted upload lands under its name, or, if that is taken, under the generated one. */
  lemma UploadLands(q: Quotas, d: Disk, e: Event)
    requires e.Upload? && e.done && Accepts(q, d, e.project, e.size)
    ensures var path := if Exists(d, e.project, e.path) then e.unused else e.path;
            WeightAt(Step(q, d, e), e.project, path) == e.size
  {
    WriteLands(d, Entry(e.project, Target(d, e), e.size, true), e.project, Target(d, e));
  }

  /** An accepted replacement lands at the very path. */
  lemma ReplaceLands(q: Quotas, d: Disk, e: Event)
    requires e.Replace? && e.done && Accepts(q, d, e.project, e.size)
    ensures WeightAt(Step(q, d, e), e.project, e.path) == e.size
  {
    WriteLands(d, Entry(e.project, e.path, e.size, true), e.project, e.path);
  }

  /** A write that is refused or fails, and an unlink that fails, change nothing. */
  lemma FailureChangesNothing(q: Quotas, d: Disk, e: Event)
    requires !e.done || (!e.Delete? && !Accepts(q, d, e.project, e.size))
    ensures Step(q, d, e) == d
  {
  }

  // ----- what a decision means

  /** The bytes that can still be added, if a quota is enforced at all. */
  function Headroom(q: Quotas, d: Disk, p: ProjectId): Option<int> {
    var own := q.project - Used(d, p);
    var all := q.overall - Total(d);
    if q.project > 0 && q.overall > 0 then Some(if own < all then own else all)
    else if q.project > 0 then Some(own)
    else if q.overall > 0 then Some(all)
    else None
  }

  /** An upload to a free path is accepted exactly when the disk with the file on it keeps both
      quotas. */
  lemma UploadExactly(q: Quotas, d: Disk, p: ProjectId, path: string, size: nat)
    requires !Exists(d, p, path)
    ensures Accepts(q, d, p, size) <==> Within(q, Put(d, Entry(p, path, size, true)), p)
  {
    NothingRemoved(d, p, path);
    PutSwaps(d, Entry(p, path, size, true), p);
  }

  /** A replacement is accepted exactly when the new file fits the headroom, though its result
      would keep the quotas exactly when it fits the headroom plus the old file: the old bytes
      are not credited. */
  lemma ReplaceExactly(q: Quotas, d: Disk, p: ProjectId, path: string, size: nat)
    ensures var room := Headroom(q, d, p);
            && (Accepts(q, d, p, size) <==> (room.Some? ==> size <= room.value))
            && (Within(q, Put(d, Entry(p, path, size, true)), p) <==>
                (room.Some? ==> size <= room.value + WeightAt(d, p, path)))
  {
    PutSwaps(d, Entry(p, path, size, true), p);
  }

  /** In a project that is full, not even a replacement by a smaller file is accepted, unless
      that file is empty. */
  lemma FullProjectRefusesReplace(q: Quotas, d: Disk, p: ProjectId, path: string, size: nat)
    requires q.project > 0 && Used(d, p) == q.project && Within(q, d, p)
    requires 0 < size < WeightAt(d, p, path)
    ensures !Accepts(q, d, p, size)
    ensures Within(q, Put(d, Entry(p, path, size, true)), p)
  {
    ReplaceExactly(q, d, p, path, size);
    PutSwaps(d, Entry(p, path, size, true), p);
  }

  lemma ReplaceRefusedThoughItFits()
    ensures var q := Quotas(10, 0);
            var d := [Entry("p", "a", 8, true)];
            !Accepts(q, d, "p", 4) && Within(q, Put(d, Entry("p", "a", 4, true)), "p")
  {
    var d := [Entry("p", "a", 8, true)];
    assert WeightAt(d, "p", "a") == 8;
    assert Used(d, "p") == 8 + Used(d[1..], "p");
    PutSwaps(d, Entry("p", "a", 4, true), "p");
  }

  /** Deleting the old file first makes the check ask for what the result needs. */
  lemma DeleteThenUploadIsExact(q: Quotas, d: Disk, p: ProjectId, path: string, size: nat)
    ensures Accepts(q, Removed(d, p, path), p, size) <==> Within(q, Put(d, Entry(p, path, size, true)), p)
  {
    PutSwaps(d, Entry(p, path, size, true), p);
    RemovalFrees(d, p, path, p);
  }

  // ----- every interleaving

  function End(q: Quotas, start: Disk, run: Run<Event>): Disk {
    match run
    case Start => start
    case Then(past, e) => Step(q, End(q, start, past), e)
  }

  /** The bytes that accepted writes put into a project. */
  function Stored(q: Quotas, start: Disk, run: Run<Event>, p: ProjectId): nat {
    match run
    case Start => 0
    case Then(past, e) =>
      Stored(q, start, past, p) +
      if e.project == p && Writes(q, End(q, start, past), e) then e.size else 0
  }

  /** The bytes that writes replaced and deletes removed in a project. */
  function Freed(q: Quotas, start: Disk, run: Run<Event>, p: ProjectId): nat {
    match run
    case Start => 0
    case Then(past, e) =>
      var d := End(q, start, past);
      Freed(q, start, past, p) +
      if e.project == p && (Writes(q, d, e) || Frees(e)) then WeightAt(d, p, Target(d, e)) else 0
  }

  /** Conservation: what a project uses is what it started with, plus what was stored, minus what
      was freed. */
  lemma {:induction false} UsageLedger(q: Quotas, start: Disk, run: Run<Event>, p: ProjectId)
    ensures Used(End(q, start, run), p) + Freed(q, start, run, p) == Used(start, p) + Stored(q, start, run, p)
  {
    if run.Then? {
      UsageLedger(q, start, run.past, p);
      var d, e := End(q, start, run.past), run.event;
      if Writes(q, d, e) {
        PutSwaps(d, Entry(e.project, Target(d, e), e.size, true), p);
      } else if Frees(e) {
        RemovalFrees(d, e.project, e.path, p);
      }
    }
  }

  function Max(a: int, b: int): int {
    if a < b then b else a
  }

  /** One step never lifts a usage above the larger of its quota and what it was. */
  lemma StepNeverOverruns(q: Quotas, d: Disk, e: Event, p: ProjectId)
    ensures q.project > 0 ==> Used(Step(q, d, e), p) <= Max(Used(d, p), q.project)
    ensures q.overall > 0 ==> Total(Step(q, d, e)) <= Max(Total(d), q.overall)
  {
    if Writes(q, d, e) {
      PutSwaps(d, Entry(e.project, Target(d, e), e.size, true), p);
    } else if Frees(e) {
      RemovalFrees(d, e.project, e.path, p);
    }
  }

  /** In every run, from any disk: a positive quota is exceeded only by what already exceeded it
      at the start. */
  lemma {:induction false} NeverOverruns(q: Quotas, start: Disk, run: Run<Event>, p: ProjectId)
    ensures q.project > 0 ==> Used(End(q, start, run), p) <= Max(Used(start, p), q.project)
    ensures q.overall > 0 ==> Total(End(q, start, run)) <= Max(Total(start), q.overall)
  {
    if run.Then? {
      NeverOverruns(q, start, run.past, p);
      StepNeverOverruns(q, End(q, start, run.past), run.event, p);
    }
  }

  /** Every interleaving of uploads, replacements and deletes that starts within the quotas stays
      within them, for every project and over all. */
  lemma QuotasHold(q: Quotas, start: Disk, run: Run<Event>, p: ProjectId)
    requires Within(q, start, p)
    ensures Within(q, End(q, start, run), p)
  {
    NeverOverruns(q, start, run, p);
  }

  // ----- one file per path

  lemma HeadOnly(d: Disk)
    requires d != [] && Unique(d)
    ensures !Exists(d[1..], d[0].project, d[0].path)
  {
    if i :| 0 <= i < |d[1..]| && At(d[1..][i], d[0].project, d[0].path) {
      assert d[1..][i] == d[i + 1];
      assert At(d[0], d[i + 1].project, d[i + 1].path);
    }
  }

  lemma Headed(e: Entry, r: Disk)
    ensures forall p, path :: Exists([e] + r, p, path) <==> At(e, p, path) || Exists(r, p, path)
    ensures Unique(r) && !Exists(r, e.project, e.path) ==> Unique([e] + r)
  {
    var d := [e] + r;
    assert d[0] == e && forall i :: 0 < i < |d| ==> d[i] == r[i - 1];
    forall p, path ensures Exists(d, p, path) <==> At(e, p, path) || Exists(r, p, path) {
      if i :| 0 <= i < |r| && At(r[i], p, path) {
        assert At(d[i + 1], p, path);
      }
      if At(e, p, path) {
        assert At(d[0], p, path);
      }
    }
    if Unique(r) && !Exists(r, e.project, e.path) {
      forall i, j | 0 <= i < j < |d| ensures !At(d[i], d[j].project, d[j].path) {
        if i > 0 {
          assert !At(r[i - 1], r[j - 1].project, r[j - 1].path);
        } else {
          assert !At(r[j - 1], e.project, e.path);
        }
      }
    }
  }

  lemma {:induction false} PutKeepsPaths(d: Disk, e: Entry)
    requires Unique(d)
    ensures Unique(Put(d, e))
    ensures forall p, path :: Exists(Put(d, e), p, path) <==> Exists(d, p, path) || At(e, p, path)
  {
    if d != [] {
      var r := d[1..];
      assert Unique(r);
      if At(d[0], e.project, e.path) {
        HeadOnly(d);
        Headed(e, r);
      } else {
        PutKeepsPaths(r, e);
        HeadOnly(d);
        Headed(d[0], Put(r, e));
      }
      Headed(d[0], r);
      assert d == [d[0]] + r;
    } else {
      Headed(e, d);
      assert [e] + d == [e];
    }
  }

  lemma {:induction false} RemovalKeepsPaths(d: Disk, at: ProjectId, path: string)
    requires Unique(d)
    ensures Unique(Removed(d, at, path))
    ensures forall p, x :: Exists(Removed(d, at, path), p, x) <==> Exists(d, p, x) && !(p == at && x == path)
  {
    if d != [] {
      var r := d[1..];
      assert Unique(r);
      HeadOnly(d);
      if !At(d[0], at, path) {
        RemovalKeepsPaths(r, at, path);
        Headed(d[0], Removed(r, at, path));
      }
      Headed(d[0], r);
      assert d == [d[0]] + r;
    }
  }

  /** Some event of the run takes the file at the path away. */
  ghost predicate FreedIn(run: Run<Event>, p: ProjectId, path: string) {
    run.Then? &&
    (FreedIn(run.past, p, path) || (Frees(run.event) && run.event.project == p && run.event.path == path))
  }

  /** A path holds at most one file in every run; and a path in use stays in use unless a delete
      frees that very path. */
  lemma {:induction false} PathsUnique(q: Quotas, start: Disk, run: Run<Event>)
    requires Unique(start)
    ensures Unique(End(q, start, run))
    ensures forall p, path :: Exists(start, p, path) && !FreedIn(run, p, path) ==> Exists(End(q, start, run), p, path)
  {
    if run.Then? {
      PathsUnique(q, start, run.past);
      var d, e := End(q, start, run.past), run.event;
      hide Exists, Unique, Accepts;
      if Writes(q, d, e) {
        PutKeepsPaths(d, Entry(e.project, Target(d, e), e.size, true));
      } else if Frees(e) {
        RemovalKeepsPaths(d, e.project, e.path);
      }
    }
  }

  /** A delete takes the file at its path away, and no other. */
  lemma DeleteExactly(q: Quotas, d: Disk, e: Event)
    requires Unique(d) && e.Delete?
    ensures forall p, path :: Exists(Step(q, d, e), p, path) <==>
              Exists(d, p, path) && !(e.done && p == e.project && path == e.path)
  {
    RemovalKeepsPaths(d, e.project, e.path);
  }

  /** An upload destroys nothing: when its generated name is unused, every path keeps its bytes. */
  lemma UploadOverwritesNothing(q: Quotas, d: Disk, e: Event, p: ProjectId, path: string)
    requires e.Upload? && (Exists(d, e.project, e.path) ==> !Exists(d, e.project, e.unused))
    requires Exists(d, p, path)
    ensures WeightAt(Step(q, d, e), p, path) == WeightAt(d, p, path)
  {
    if Writes(q, d, e) {
      WriteLands(d, Entry(e.project, Target(d, e), e.size, true), p, path);
    }
  }
}
