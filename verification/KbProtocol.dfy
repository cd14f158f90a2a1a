/** The knowledge-base creation protocol: any number of concurrent callers of
    `_ensure_kb`, one asyncio lock per project, and an upstream that may answer a
    probe ambiguously, refuse a create, or lose knowledge bases. Every `await` is a
    step boundary; what runs between two of them is one step. */
module KbProtocol {
  import opened Sequences

  type ProjectId = string
  type CallerId = nat
  type LockId = nat
  type KbId = string

  /** The part of a project row the protocol reads; `kbId` may be NULL or empty. */
  datatype Row = Row(name: string, kbId: Option<KbId>)

  /** What a caller is waiting for. In the in-lock phases `stale` is the id the caller read
      from the row and found gone, or "" if it read none. */
  datatype Phase =
    | ReadRow
    | Probe(kb: KbId)
    | Reprobe(kb: KbId)
    | Clear
    | Queue
    | ReadLocked
    | ProbeLocked(kb: KbId)
    | ReprobeLocked(kb: KbId)
    | Create(stale: KbId)
    | Save(id: KbId, stale: KbId)
    | Returned(id: KbId)
    | Raised

  datatype Caller = Caller(project: ProjectId, phase: Phase, lock: LockId)

  datatype State = State(
    rows: map<ProjectId, Row>,
    locks: map<ProjectId, LockId>,
    nextLock: LockId,
    held: set<LockId>,
    callers: map<CallerId, Caller>,
    live: set<KbId>)

  datatype CreateReply = Created(id: KbId) | NoId | Refused

  datatype Event =
    | Begin(c: CallerId, p: ProjectId)     // a new call
    | Resume(c: CallerId)                  // a store access or the lock acquisition of `c` completes
    | Status(c: CallerId, code: int)       // the probe of `c` is answered; -1 for a connection failure
    | Reply(c: CallerId, reply: CreateReply)
    | Lose(kb: KbId)                       // upstream loses a knowledge base
    | Drop(p: ProjectId)                   // the project, and with it its row, is deleted

  // ----- the store

  /** The stored id as the code tests it: a missing row, NULL and "" all count as none. */
  function Stored(rows: map<ProjectId, Row>, p: ProjectId): KbId {
    if p in rows && rows[p].kbId.Some? then rows[p].kbId.value else ""
  }

  /** `update_project` with the single field `kb_id`: a missing row stays missing and a None
      value is dropped, so writing None changes nothing. */
  function Update(rows: map<ProjectId, Row>, p: ProjectId, kbId: Option<KbId>): map<ProjectId, Row> {
    if p !in rows || kbId.None? then rows else rows[p := rows[p].(kbId := kbId)]
  }

  // ----- one step

  predicate InLock(ph: Phase) {
    ph.ReadLocked? || ph.ProbeLocked? || ph.ReprobeLocked? || ph.Create? || ph.Save?
  }

  function PhaseOf(s: State, c: CallerId): Phase {
    if c in s.callers then s.callers[c].phase else Raised
  }

  function Probed(ph: Phase): Option<KbId> {
    match ph
    case Probe(kb) => Some(kb)
    case Reprobe(kb) => Some(kb)
    case ProbeLocked(kb) => Some(kb)
    case ReprobeLocked(kb) => Some(kb)
    case _ => None
  }

  /** The environment is arbitrary: a probe may be answered by any status, true or not. A created
      id is not empty. */
  predicate Enabled(s: State, e: Event) {
    match e
    case Begin(c, p) => c !in s.callers
    case Resume(c) =>
      var ph := PhaseOf(s, c);
      ph.ReadRow? || ph.Clear? || ph.ReadLocked? || ph.Save? || (ph.Queue? && s.callers[c].lock !in s.held)
    case Status(c, code) => Probed(PhaseOf(s, c)).Some?
    case Reply(c, reply) => PhaseOf(s, c).Create? && (reply.Created? ==> reply.id != "")
    case Lose(kb) => kb in s.live
    case Drop(p) => p in s.rows
  }

  function Move(s: State, c: CallerId, ph: Phase): State
    requires c in s.callers
  {
    s.(callers := s.callers[c := s.callers[c].(phase := ph)])
  }

  /** Leaving the `async with` block, normally or by an exception. */
  function Leave(s: State, c: CallerId, ph: Phase): State
    requires c in s.callers
  {
    Move(s.(held := s.held - {s.callers[c].lock}), c, ph)
  }

  /** Looks up the project's lock, making one on first use, and starts waiting for it. */
  function Enqueue(s: State, c: CallerId): State
    requires c in s.callers
  {
    var p := s.callers[c].project;
    var s' := if p in s.locks then s else s.(locks := s.locks[p := s.nextLock], nextLock := s.nextLock + 1);
    s'.(callers := s.callers[c := s.callers[c].(phase := Queue, lock := s'.locks[p])])
  }

  function Resumed(s: State, c: CallerId): State
    requires c in s.callers
  {
    var p := s.callers[c].project;
    var kb := Stored(s.rows, p);
    match s.callers[c].phase
    case ReadRow => if kb != "" then Move(s, c, Probe(kb)) else Enqueue(s, c)
    case Clear => Enqueue(s.(rows := Update(s.rows, p, None)), c)
    case Queue => Move(s.(held := s.held + {s.callers[c].lock}), c, ReadLocked)
    case ReadLocked => Move(s, c, if kb != "" then ProbeLocked(kb) else Create(""))
    case Save(id, stale) => Leave(s.(rows := Update(s.rows, p, Some(id))), c, Returned(id))
    case _ => s
  }

  /** A probe answer: 200 confirms, 404 refutes, anything else is asked once more and then trusted. */
  function Answered(s: State, c: CallerId, code: int): State
    requires c in s.callers
  {
    match s.callers[c].phase
    case Probe(kb) =>
      Move(s, c, if code == 200 then Returned(kb) else if code == 404 then Clear else Reprobe(kb))
    case Reprobe(kb) => Move(s, c, if code == 404 then Clear else Returned(kb))
    case ProbeLocked(kb) =>
      if code == 200 then Leave(s, c, Returned(kb))
      else Move(s, c, if code == 404 then Create(kb) else ReprobeLocked(kb))
    case ReprobeLocked(kb) => if code == 404 then Move(s, c, Create(kb)) else Leave(s, c, Returned(kb))
    case _ => s
  }

  function Replied(s: State, c: CallerId, reply: CreateReply): State
    requires c in s.callers
  {
    match s.callers[c].phase
    case Create(stale) =>
      if reply.Created? then Move(s.(live := s.live + {reply.id}), c, Save(reply.id, stale))
      else Leave(s, c, Raised)
    case _ => s
  }

  function Next(s: State, e: Event): State
    requires Enabled(s, e)
  {
    match e
    case Begin(c, p) => s.(callers := s.callers[c := Caller(p, ReadRow, 0)])
    case Resume(c) => Resumed(s, c)
    case Status(c, code) => Answered(s, c, code)
    case Reply(c, reply) => Replied(s, c, reply)
    case Lose(kb) => s.(live := s.live - {kb})
    case Drop(p) => s.(rows := s.rows - {p})
  }

  /** No call has been made yet. */
  function Fresh(rows: map<ProjectId, Row>, live: set<KbId>): State {
    State(rows, map[], 0, {}, map[], live)
  }

  // ----- the coordinator object

  /** The coordinator with the store and the upstream it talks to. Each method is the code
      between two awaits of one call. */
  class Coordinator {
    var rows: map<ProjectId, Row>
    var locks: map<ProjectId, LockId>
    var nextLock: LockId
    var held: set<LockId>
    var callers: map<CallerId, Caller>
    var live: set<KbId>

    ghost function View(): State
      reads this
    {
      State(rows, locks, nextLock, held, callers, live)
    }

    constructor (rows: map<ProjectId, Row>, live: set<KbId>)
      ensures View() == Fresh(rows, live)
    {
      this.rows, this.live := rows, live;
      locks, nextLock, held, callers := map[], 0, {}, map[];
    }

    method UpdateProject(p: ProjectId, kbId: Option<KbId>)
      modifies this`rows
      ensures rows == Update(old(rows), p, kbId)
    {
      if p in rows && kbId.Some? {
        rows := rows[p := rows[p].(kbId := kbId)];
      }
    }

    /** The project is deleted while calls may be under way. */
    method DropRow(p: ProjectId)
      requires p in rows
      modifies this`rows
      ensures View() == Next(old(View()), Drop(p))
    {
      rows := rows - {p};
    }

    method KbCreateLock(p: ProjectId) returns (lock: LockId)
      modifies this`locks, this`nextLock
      ensures p in locks && lock == locks[p]
      ensures if p in old(locks) then locks == old(locks) && nextLock == old(nextLock)
              else locks == old(locks)[p := old(nextLock)] && nextLock == old(nextLock) + 1
    {
      if p !in locks {
        locks := locks[p := nextLock];
        nextLock := nextLock + 1;
      }
      lock := locks[p];
    }

    method SetPhase(c: CallerId, ph: Phase)
      requires c in callers
      modifies this`callers
      ensures callers == old(callers)[c := old(callers)[c].(phase := ph)]
    {
      callers := callers[c := callers[c].(phase := ph)];
    }

    method Release(c: CallerId)
      requires c in callers
      modifies this`held
      ensures held == old(held) - {callers[c].lock}
    {
      held := held - {callers[c].lock};
    }

    method WaitForLock(c: CallerId)
      requires c in callers
      modifies this`callers, this`locks, this`nextLock
      ensures View() == Enqueue(old(View()), c)
    {
      var lock := KbCreateLock(callers[c].project);
      callers := callers[c := callers[c].(phase := Queue, lock := lock)];
    }

    method BeginCall(c: CallerId, p: ProjectId)
      requires Enabled(View(), Begin(c, p))
      modifies this
      ensures View() == Next(old(View()), Begin(c, p))
    {
      callers := callers[c := Caller(p, ReadRow, 0)];
    }

    /** The unlocked read: probe a stored id, or go for the lock. */
    method FastRead(c: CallerId)
      requires c in callers && callers[c].phase.ReadRow?
      modifies this
      ensures View() == Next(old(View()), Resume(c))
    {
      var existing := Stored(rows, callers[c].project);
      if existing != "" {
        SetPhase(c, Probe(existing));
      } else {
        WaitForLock(c);
      }
    }

    method FastAnswer(c: CallerId, code: int)
      requires c in callers && (callers[c].phase.Probe? || callers[c].phase.Reprobe?)
      requires Enabled(View(), Status(c, code))
      modifies this
      ensures View() == Next(old(View()), Status(c, code))
    {
      var existing := callers[c].phase.kb;
      if code == 404 {
        SetPhase(c, Clear);
      } else if code == 200 || callers[c].phase.Reprobe? {
        SetPhase(c, Returned(existing));
      } else {
        SetPhase(c, Reprobe(existing));
      }
    }

    method ClearStale(c: CallerId)
      requires c in callers && callers[c].phase.Clear?
      modifies this
      ensures View() == Next(old(View()), Resume(c))
    {
      UpdateProject(callers[c].project, None);
      WaitForLock(c);
    }

    method Acquire(c: CallerId)
      requires c in callers && callers[c].phase.Queue? && callers[c].lock !in held
      modifies this
      ensures View() == Next(old(View()), Resume(c))
    {
      held := held + {callers[c].lock};
      SetPhase(c, ReadLocked);
    }

    method LockedRead(c: CallerId)
      requires c in callers && callers[c].phase.ReadLocked?
      modifies this
      ensures View() == Next(old(View()), Resume(c))
    {
      var existing := Stored(rows, callers[c].project);
      if existing != "" {
        SetPhase(c, ProbeLocked(existing));
      } else {
        SetPhase(c, Create(""));
      }
    }

    method LockedAnswer(c: CallerId, code: int)
      requires c in callers && (callers[c].phase.ProbeLocked? || callers[c].phase.ReprobeLocked?)
      requires Enabled(View(), Status(c, code))
      modifies this
      ensures View() == Next(old(View()), Status(c, code))
    {
      var existing := callers[c].phase.kb;
      if code == 404 {
        SetPhase(c, Create(existing));
      } else if code == 200 || callers[c].phase.ReprobeLocked? {
        Release(c);
        SetPhase(c, Returned(existing));
      } else {
        SetPhase(c, ReprobeLocked(existing));
      }
    }

    method CreateAnswered(c: CallerId, reply: CreateReply)
      requires Enabled(View(), Reply(c, reply))
      modifies this
      ensures View() == Next(old(View()), Reply(c, reply))
    {
      if reply.Created? {
        live := live + {reply.id};
        SetPhase(c, Save(reply.id, callers[c].phase.stale));
      } else {
        Release(c);
        SetPhase(c, Raised);
      }
    }

    method SaveNew(c: CallerId)
      requires c in callers && callers[c].phase.Save?
      modifies this
      ensures View() == Next(old(View()), Resume(c))
    {
      var id := callers[c].phase.id;
      UpdateProject(callers[c].project, Some(id));
      Release(c);
      SetPhase(c, Returned(id));
    }
  }
}
