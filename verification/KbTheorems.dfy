/** What every interleaving of the knowledge-base protocol keeps: mutual exclusion, the
    exact account of created knowledge bases, agreement of all callers, and progress. */
module KbTheorems {
  import opened Sequences
  import opened KbProtocol

  type Trace = Run<Event>

  /** An event that is not enabled does nothing, so every sequence of events is a run. */
  function Do(s: State, e: Event): State {
    if Enabled(s, e) then Next(s, e) else s
  }

  function At(init: State, run: Trace): State {
    if run.Start? then init else Do(At(init, run.past), run.event)
  }

  ghost predicate IsFresh(init: State) {
    init == Fresh(init.rows, init.live)
  }

  // ----- mutual exclusion

  ghost predicate Holds(s: State, c: CallerId) {
    c in s.callers && InLock(s.callers[c].phase)
  }

  /** Each project has its own lock, every caller uses the lock of its project, and a caller
      past the lock holds it, alone. */
  ghost predicate Locked(s: State) {
    && (forall p :: p in s.locks ==> s.locks[p] < s.nextLock)
    && (forall p, q :: p in s.locks && q in s.locks && s.locks[p] == s.locks[q] ==> p == q)
    && (forall c :: c in s.callers && (s.callers[c].phase.Queue? || InLock(s.callers[c].phase)) ==>
          s.callers[c].project in s.locks && s.callers[c].lock == s.locks[s.callers[c].project])
    && (forall c :: Holds(s, c) ==> s.callers[c].lock in s.held)
    && (forall c, d :: Holds(s, c) && Holds(s, d) && s.callers[c].lock == s.callers[d].lock ==> c == d)
  }

  /** `Locked` speaks of the locks and the callers only. */
  lemma LockedElsewhere(s: State, rows: map<ProjectId, Row>, live: set<KbId>)
    requires Locked(s)
    ensures Locked(s.(rows := rows, live := live))
  {
  }

  lemma MoveLocked(s: State, c: CallerId, ph: Phase)
    requires Locked(s) && c in s.callers && !ph.Queue? && (InLock(ph) ==> InLock(s.callers[c].phase))
    ensures Locked(Move(s, c, ph))
  {
    var s' := Move(s, c, ph);
    hide InLock;
    forall d, d' | Holds(s', d) && Holds(s', d') && s'.callers[d].lock == s'.callers[d'].lock ensures d == d' {
      assert Holds(s, d) && Holds(s, d');
    }
    forall d | Holds(s', d) ensures s'.callers[d].lock in s'.held {
      assert Holds(s, d);
    }
  }

  lemma LeaveLocked(s: State, c: CallerId, ph: Phase)
    requires Locked(s) && Holds(s, c) && !ph.Queue? && !InLock(ph)
    ensures Locked(Leave(s, c, ph))
  {
    var s' := Leave(s, c, ph);
    hide InLock;
    forall d, d' | Holds(s', d) && Holds(s', d') && s'.callers[d].lock == s'.callers[d'].lock ensures d == d' {
      assert Holds(s, d) && Holds(s, d');
    }
    forall d | Holds(s', d) ensures s'.callers[d].lock in s'.held {
      assert Holds(s, d);
    }
  }

  lemma AcquireLocked(s: State, c: CallerId)
    requires Locked(s) && c in s.callers && s.callers[c].phase.Queue? && s.callers[c].lock !in s.held
    ensures Locked(Move(s.(held := s.held + {s.callers[c].lock}), c, ReadLocked))
  {
    var s' := Move(s.(held := s.held + {s.callers[c].lock}), c, ReadLocked);
    forall d, d' | Holds(s', d) && Holds(s', d') && s'.callers[d].lock == s'.callers[d'].lock ensures d == d' {
      assert d == c || Holds(s, d);
      assert d' == c || Holds(s, d');
    }
    forall d | Holds(s', d) ensures s'.callers[d].lock in s'.held {
      assert d == c || Holds(s, d);
    }
  }

  lemma EnqueueLocked(s: State, c: CallerId)
    requires Locked(s) && c in s.callers && !InLock(s.callers[c].phase)
    ensures Locked(Enqueue(s, c))
  {
    var s' := Enqueue(s, c);
    forall d, d' | Holds(s', d) && Holds(s', d') && s'.callers[d].lock == s'.callers[d'].lock ensures d == d' {
      assert Holds(s, d) && Holds(s, d');
    }
    forall d | Holds(s', d) ensures s'.callers[d].lock in s'.held {
      assert Holds(s, d);
    }
  }

  lemma BeginLocked(s: State, c: CallerId, p: ProjectId)
    requires Locked(s) && c !in s.callers
    ensures Locked(s.(callers := s.callers[c := Caller(p, ReadRow, 0)]))
  {
    var s' := s.(callers := s.callers[c := Caller(p, ReadRow, 0)]);
    forall d, d' | Holds(s', d) && Holds(s', d') && s'.callers[d].lock == s'.callers[d'].lock ensures d == d' {
      assert Holds(s, d) && Holds(s, d');
    }
    forall d | Holds(s', d) ensures s'.callers[d].lock in s'.held {
      assert Holds(s, d);
    }
  }

  lemma ResumedLocked(s: State, c: CallerId)
    requires Locked(s) && Enabled(s, Resume(c))
    ensures Locked(Resumed(s, c))
  {
    hide Locked;
    var p := s.callers[c].project;
    var kb := Stored(s.rows, p);
    match s.callers[c].phase
    case ReadRow =>
      MoveLocked(s, c, Probe(kb));
      EnqueueLocked(s, c);
    case Clear =>
      LockedElsewhere(s, Update(s.rows, p, None), s.live);
      EnqueueLocked(s.(rows := Update(s.rows, p, None)), c);
    case Queue => AcquireLocked(s, c);
    case ReadLocked => MoveLocked(s, c, if kb != "" then ProbeLocked(kb) else Create(""));
    case Save(id, stale) =>
      LockedElsewhere(s, Update(s.rows, p, Some(id)), s.live);
      LeaveLocked(s.(rows := Update(s.rows, p, Some(id))), c, Returned(id));
    case _ =>
  }

  lemma AnsweredLocked(s: State, c: CallerId, code: int)
    requires Locked(s) && Enabled(s, Status(c, code))
    ensures Locked(Answered(s, c, code))
  {
    hide Locked;
    match s.callers[c].phase
    case Probe(kb) =>
      MoveLocked(s, c, if code == 200 then Returned(kb) else if code == 404 then Clear else Reprobe(kb));
    case Reprobe(kb) => MoveLocked(s, c, if code == 404 then Clear else Returned(kb));
    case ProbeLocked(kb) =>
      LeaveLocked(s, c, Returned(kb));
      MoveLocked(s, c, if code == 404 then Create(kb) else ReprobeLocked(kb));
    case ReprobeLocked(kb) =>
      LeaveLocked(s, c, Returned(kb));
      MoveLocked(s, c, Create(kb));
    case _ =>
  }

  lemma RepliedLocked(s: State, c: CallerId, reply: CreateReply)
    requires Locked(s) && Enabled(s, Reply(c, reply))
    ensures Locked(Replied(s, c, reply))
  {
    hide Locked;
    if reply.Created? {
      LockedElsewhere(s, s.rows, s.live + {reply.id});
      MoveLocked(s.(live := s.live + {reply.id}), c, Save(reply.id, s.callers[c].phase.stale));
    } else {
      LeaveLocked(s, c, Raised);
    }
  }

  lemma LockedStep(s: State, e: Event)
    requires Locked(s)
    ensures Locked(Do(s, e))
  {
    hide Locked, Resumed, Answered, Replied;
    if Enabled(s, e) {
      match e
      case Begin(c, p) => BeginLocked(s, c, p);
      case Resume(c) => ResumedLocked(s, c);
      case Status(c, code) => AnsweredLocked(s, c, code);
      case Reply(c, reply) => RepliedLocked(s, c, reply);
      case Lose(kb) => LockedElsewhere(s, s.rows, s.live - {kb});
      case Drop(p) => LockedElsewhere(s, s.rows - {p}, s.live);
    }
  }

  /** What a caller inside the lock remembers about the row is still true of the row, as long as
      there is one. */
  ghost predicate Remembers(s: State, c: CallerId)
    requires c in s.callers
  {
    var p := s.callers[c].project;
    match s.callers[c].phase
    case ProbeLocked(kb) => kb != "" && (p in s.rows ==> kb == Stored(s.rows, p))
    case ReprobeLocked(kb) => kb != "" && (p in s.rows ==> kb == Stored(s.rows, p))
    case Create(stale) => p in s.rows ==> stale == Stored(s.rows, p)
    case Save(id, stale) => id != "" && (p in s.rows ==> stale == Stored(s.rows, p))
    case _ => true
  }

  ghost predicate Sound(s: State) {
    Locked(s) && forall c :: c in s.callers ==> Remembers(s, c)
  }

  lemma OneProjectOneHolder(s: State, c: CallerId, d: CallerId)
    requires Locked(s) && Holds(s, c) && Holds(s, d) && s.callers[c].project == s.callers[d].project
    ensures c == d
  {
  }

  function Actor(e: Event): Option<CallerId> {
    match e
    case Begin(c, _) => Some(c)
    case Resume(c) => Some(c)
    case Status(c, _) => Some(c)
    case Reply(c, _) => Some(c)
    case Lose(_) => None
    case Drop(_) => None
  }

  lemma OthersStay(s: State, e: Event, c: CallerId)
    requires Actor(e) != Some(c)
    ensures c in Do(s, e).callers <==> c in s.callers
    ensures c in s.callers ==> Do(s, e).callers[c] == s.callers[c]
  {
    hide Stored, Update;
    if Enabled(s, e) {
      match e
      case Begin(_, _) =>
      case Resume(d) => assert Resumed(s, d) == Next(s, e);
      case Status(d, code) => assert Answered(s, d, code) == Next(s, e);
      case Reply(d, reply) => assert Replied(s, d, reply) == Next(s, e);
      case Lose(_) =>
      case Drop(_) =>
    }
  }

  /** No one else can change the row of a project whose lock a caller holds, but for deleting it. */
  lemma OthersRemember(s: State, e: Event, c: CallerId)
    requires Locked(s) && Holds(s, c) && Actor(e) != Some(c) && s.callers[c].project in Do(s, e).rows
    ensures s.callers[c].project in s.rows
    ensures Stored(Do(s, e).rows, s.callers[c].project) == Stored(s.rows, s.callers[c].project)
  {
    if Enabled(s, e) && e.Resume? && s.callers[e.c].phase.Save? {
      assert Holds(s, e.c);
      if s.callers[c].project == s.callers[e.c].project {
        OneProjectOneHolder(s, c, e.c);
      }
      hide Locked;
    } else {
      hide Locked;
    }
  }

  lemma ActorRemembers(s: State, e: Event, c: CallerId)
    requires Actor(e) == Some(c) && Enabled(s, e) && (c in s.callers ==> Remembers(s, c))
    ensures c in Do(s, e).callers && Remembers(Do(s, e), c)
  {
  }

  lemma DoActs(s: State, e: Event, c: CallerId)
    requires Sound(s) && Actor(e) == Some(c) && c in Do(s, e).callers
    ensures Remembers(Do(s, e), c)
  {
    if Enabled(s, e) {
      hide Locked, Stored;
      ActorRemembers(s, e, c);
    }
  }

  lemma SoundStep(s: State, e: Event)
    requires Sound(s)
    ensures Sound(Do(s, e))
  {
    LockedStep(s, e);
    var s' := Do(s, e);
    forall c | c in s'.callers ensures Remembers(s', c) {
      hide Do, Enabled, Locked, Stored;
      if Actor(e) != Some(c) {
        OthersStay(s, e, c);
        assert Remembers(s, c);
        if Holds(s, c) && s.callers[c].project in s'.rows {
          OthersRemember(s, e, c);
        }
      } else {
        DoActs(s, e, c);
      }
    }
  }

  lemma {:induction false} AlwaysSound(init: State, run: Trace)
    requires IsFresh(init)
    ensures Sound(At(init, run))
  {
    if run.Then? {
      AlwaysSound(init, run.past);
      SoundStep(At(init, run.past), run.event);
    }
  }

  /** At no moment are two callers of one project between the locked read and the release. */
  lemma MutualExclusion(init: State, run: Trace, c: CallerId, d: CallerId)
    requires IsFresh(init)
    requires Holds(At(init, run), c) && Holds(At(init, run), d)
    requires At(init, run).callers[c].project == At(init, run).callers[d].project
    ensures c == d
  {
    AlwaysSound(init, run);
    OneProjectOneHolder(At(init, run), c, d);
  }

  // ----- the account of created knowledge bases

  ghost predicate Of(s: State, c: CallerId, p: ProjectId) {
    c in s.callers && s.callers[c].project == p
  }

  /** The event brings project `p` a new id. */
  function Creates(s: State, e: Event, p: ProjectId): int {
    if Enabled(s, e) && e.Reply? && e.reply.Created? && s.callers[e.c].project == p then 1 else 0
  }

  /** A caller inside the lock of `p` is told that the stored id is gone. */
  function Goes(s: State, e: Event, p: ProjectId): int {
    if Enabled(s, e) && e.Status? && e.code == 404 && InLock(s.callers[e.c].phase) && s.callers[e.c].project == p
    then 1 else 0
  }

  /** The event is a failed create that was to replace an id confirmed gone. */
  function Wastes(s: State, e: Event, p: ProjectId): int {
    if Enabled(s, e) && e.Reply? && !e.reply.Created? && s.callers[e.c].phase.stale != "" && s.callers[e.c].project == p
    then 1 else 0
  }

  function CreatedFor(init: State, run: Trace, p: ProjectId): int {
    if run.Start? then 0 else CreatedFor(init, run.past, p) + Creates(At(init, run.past), run.event, p)
  }

  function GoneFor(init: State, run: Trace, p: ProjectId): (n: int)
    ensures n >= 0
  {
    if run.Start? then 0 else GoneFor(init, run.past, p) + Goes(At(init, run.past), run.event, p)
  }

  function WastedFor(init: State, run: Trace, p: ProjectId): (n: int)
    ensures n >= 0
  {
    if run.Start? then 0 else WastedFor(init, run.past, p) + Wastes(At(init, run.past), run.event, p)
  }

  function Has(s: State, p: ProjectId): int {
    if Stored(s.rows, p) != "" then 1 else 0
  }

  /** Work in progress: a confirmed loss not yet replaced, or a first id not yet saved. */
  function PhaseCredit(ph: Phase): int {
    match ph
    case Create(stale) => if stale != "" then -1 else 0
    case Save(id, stale) => if stale == "" then 1 else 0
    case _ => 0
  }

  /** The work in progress on `p`; only its lock holder can have any. */
  ghost function Credit(s: State, p: ProjectId): int {
    if c :| Of(s, c, p) && PhaseCredit(s.callers[c].phase) != 0 then PhaseCredit(s.callers[c].phase) else 0
  }

  lemma CreditOf(s: State, c: CallerId, p: ProjectId)
    requires Locked(s) && Of(s, c, p) && PhaseCredit(s.callers[c].phase) != 0
    ensures Credit(s, p) == PhaseCredit(s.callers[c].phase)
  {
    var d :| Of(s, d, p) && PhaseCredit(s.callers[d].phase) != 0 && Credit(s, p) == PhaseCredit(s.callers[d].phase);
    assert Of(s, d, p) && PhaseCredit(s.callers[d].phase) != 0;
    assert Holds(s, d);
    OneProjectOneHolder(s, c, d);
  }

  lemma CreditNone(s: State, p: ProjectId)
    requires forall c :: Of(s, c, p) ==> PhaseCredit(s.callers[c].phase) == 0
    ensures Credit(s, p) == 0
  {
  }

  lemma CreditHeld(s: State, c: CallerId, p: ProjectId)
    requires Locked(s) && Of(s, c, p) && Holds(s, c)
    ensures Credit(s, p) == PhaseCredit(s.callers[c].phase)
  {
    if PhaseCredit(s.callers[c].phase) != 0 {
      CreditOf(s, c, p);
    } else {
      forall d | Of(s, d, p) ensures PhaseCredit(s.callers[d].phase) == 0 {
        if PhaseCredit(s.callers[d].phase) != 0 {
          OneProjectOneHolder(s, c, d);
        }
      }
      CreditNone(s, p);
    }
  }

  /** If no phase of `p` that carries credit changes, the credit of `p` does not. */
  lemma CreditFrame(s: State, s': State, p: ProjectId)
    requires Locked(s) && Locked(s')
    requires forall c :: (Of(s, c, p) && PhaseCredit(s.callers[c].phase) != 0) <==>
                         (Of(s', c, p) && PhaseCredit(s'.callers[c].phase) != 0)
    requires forall c :: Of(s, c, p) && Of(s', c, p) ==>
                         PhaseCredit(s.callers[c].phase) == PhaseCredit(s'.callers[c].phase)
    ensures Credit(s, p) == Credit(s', p)
  {
    hide Locked;
    if c :| Of(s, c, p) && PhaseCredit(s.callers[c].phase) != 0 {
      CreditOf(s, c, p);
      CreditOf(s', c, p);
    } else {
      CreditNone(s, p);
      CreditNone(s', p);
    }
  }

  lemma ProjectsStay(s: State, e: Event, c: CallerId)
    requires c in s.callers
    ensures c in Do(s, e).callers && Do(s, e).callers[c].project == s.callers[c].project
  {
    hide Stored, Update;
    if Enabled(s, e) {
      match e
      case Begin(_, _) =>
      case Resume(d) => assert Resumed(s, d) == Next(s, e);
      case Status(d, code) => assert Answered(s, d, code) == Next(s, e);
      case Reply(d, reply) => assert Replied(s, d, reply) == Next(s, e);
      case Lose(_) =>
      case Drop(_) =>
    }
  }

  /** A caller that does not hold the lock has no credit before or after its step. */
  lemma LockIsKept(s: State, e: Event, c: CallerId)
    requires Enabled(s, e) && Actor(e) == Some(c) && c in s.callers && !Holds(s, c)
    ensures PhaseCredit(PhaseOf(s, c)) == 0 && PhaseCredit(PhaseOf(Do(s, e), c)) == 0
  {
  }

  /** Only the acting caller's own phase changes the credit of its project. */
  lemma CreditStep(s: State, e: Event, c: CallerId, p: ProjectId)
    requires Sound(s) && Enabled(s, e) && Actor(e) == Some(c) && Of(s, c, p)
    ensures Credit(Do(s, e), p) - Credit(s, p) ==
            PhaseCredit(PhaseOf(Do(s, e), c)) - PhaseCredit(PhaseOf(s, c))
  {
    var s' := Do(s, e);
    LockedStep(s, e);
    ProjectsStay(s, e, c);
    if !Holds(s, c) {
      LockIsKept(s, e, c);
    }
    hide Locked, Do, Enabled;
    if Holds(s, c) {
      CreditHeld(s, c, p);
      if Holds(s', c) {
        CreditHeld(s', c, p);
      } else {
        forall d | Of(s', d, p) ensures PhaseCredit(s'.callers[d].phase) == 0 {
          if d != c {
            OthersStay(s, e, d);
            if PhaseCredit(s'.callers[d].phase) != 0 {
              OneProjectOneHolder(s, c, d);
            }
          }
        }
        CreditNone(s', p);
      }
    } else {
      forall d ensures Of(s, d, p) <==> Of(s', d, p) {
        if d != c {
          OthersStay(s, e, d);
        }
      }
      forall d | Of(s, d, p) && d != c ensures s'.callers[d] == s.callers[d] {
        OthersStay(s, e, d);
      }
      CreditFrame(s, s', p);
    }
  }

  lemma CreditOthers(s: State, e: Event, p: ProjectId)
    requires Sound(s)
    requires Actor(e).Some? ==> !Of(Do(s, e), Actor(e).value, p)
    ensures Credit(Do(s, e), p) == Credit(s, p)
  {
    var s' := Do(s, e);
    LockedStep(s, e);
    forall c: CallerId ensures Of(s, c, p) <==> Of(s', c, p) {
      if Actor(e) != Some(c) {
        OthersStay(s, e, c);
      } else if c in s.callers {
        ProjectsStay(s, e, c);
      }
    }
    forall c | Of(s, c, p) ensures s'.callers[c] == s.callers[c] {
      assert Of(s', c, p);
      OthersStay(s, e, c);
    }
    hide Do, Locked;
    CreditFrame(s, s', p);
  }

  /** The account of one step of a caller of `p`, phase by phase. */
  lemma PhaseLedger(s: State, e: Event, c: CallerId, p: ProjectId)
    requires Enabled(s, e) && Actor(e) == Some(c) && Of(s, c, p) && p in s.rows && Remembers(s, c)
    ensures Has(Do(s, e), p) + PhaseCredit(PhaseOf(Do(s, e), c)) - Has(s, p) - PhaseCredit(PhaseOf(s, c)) ==
            Creates(s, e, p) + Wastes(s, e, p) - Goes(s, e, p)
  {
  }

  lemma OtherRowsStay(s: State, e: Event, p: ProjectId)
    requires p in Do(s, e).rows && (Actor(e).Some? ==> !Of(s, Actor(e).value, p))
    ensures Stored(Do(s, e).rows, p) == Stored(s.rows, p)
    ensures Creates(s, e, p) == Goes(s, e, p) == Wastes(s, e, p) == 0
  {
  }

  lemma RowsShrink(s: State, e: Event)
    ensures Do(s, e).rows.Keys <= s.rows.Keys
  {
    hide Stored;
  }

  lemma HasIsStored(s: State, s': State, p: ProjectId)
    requires Stored(s.rows, p) == Stored(s'.rows, p)
    ensures Has(s, p) == Has(s', p)
  {
  }

  lemma BeginLedger(s: State, e: Event, p: ProjectId)
    requires Sound(s) && e.Begin? && Enabled(s, e)
    ensures Has(Do(s, e), p) == Has(s, p) && Credit(Do(s, e), p) == Credit(s, p)
    ensures Creates(s, e, p) == Goes(s, e, p) == Wastes(s, e, p) == 0
  {
    LockedStep(s, e);
    hide Locked;
    CreditFrame(s, Do(s, e), p);
  }

  lemma LedgerStep(s: State, e: Event, p: ProjectId)
    requires Sound(s) && p in Do(s, e).rows
    ensures Has(Do(s, e), p) + Credit(Do(s, e), p) - Has(s, p) - Credit(s, p) ==
            Creates(s, e, p) + Wastes(s, e, p) - Goes(s, e, p)
  {
    RowsShrink(s, e);
    hide Locked, Resumed, Answered, Replied, Stored, Has, PhaseCredit;
    if !Enabled(s, e) {
      assert Do(s, e) == s;
    } else if Actor(e).Some? && Of(s, Actor(e).value, p) {
      CreditStep(s, e, Actor(e).value, p);
      PhaseLedger(s, e, Actor(e).value, p);
    } else if e.Begin? {
      BeginLedger(s, e, p);
    } else {
      if Actor(e).Some? {
        ProjectsStay(s, e, Actor(e).value);
      }
      CreditOthers(s, e, p);
      OtherRowsStay(s, e, p);
      HasIsStored(s, Do(s, e), p);
    }
  }

  /** The conservation law of the protocol, on every run after which the project still exists: the
      ids created for it, and the replacements that failed, balance the 404 answers inside its
      lock, the change of its row, and the work in progress, however upstream answers. */
  lemma {:induction false} Ledger(init: State, run: Trace, p: ProjectId)
    requires IsFresh(init) && p in At(init, run).rows
    ensures CreatedFor(init, run, p) + WastedFor(init, run, p) ==
            GoneFor(init, run, p) + Has(At(init, run), p) + Credit(At(init, run), p) - Has(init, p)
  {
    if run.Start? {
      CreditNone(init, p);
    } else {
      RowsShrink(At(init, run.past), run.event);
      Ledger(init, run.past, p);
      AlwaysSound(init, run.past);
      LedgerStep(At(init, run.past), run.event, p);
      hide Do, Creates, Goes, Wastes, Has, Credit, Sound;
    }
  }

  /** A first id is in progress only while the row holds none. */
  lemma CreditBound(s: State, p: ProjectId)
    requires Sound(s) && p in s.rows
    ensures Has(s, p) + Credit(s, p) <= 1
  {
    hide Locked, Stored;
    if c :| Of(s, c, p) && PhaseCredit(s.callers[c].phase) != 0 && Credit(s, p) == PhaseCredit(s.callers[c].phase) {
      assert Remembers(s, c);
    }
  }

  /** At most one knowledge base more than 404 answers inside the lock is ever created for a project
      while it exists, by any number of callers and whether or not the answers are true; none
      more, if the row held an id from the start. */
  lemma CreationBound(init: State, run: Trace, p: ProjectId)
    requires IsFresh(init) && p in At(init, run).rows
    ensures CreatedFor(init, run, p) + Has(init, p) <= 1 + GoneFor(init, run, p)
  {
    Ledger(init, run, p);
    AlwaysSound(init, run);
    CreditBound(At(init, run), p);
  }
}
