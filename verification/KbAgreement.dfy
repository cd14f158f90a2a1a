/** What the callers of the knowledge-base protocol can rely on: agreement when upstream
    loses nothing, justified replacement when it does, and termination. */
module KbAgreement {
  import opened Sequences
  import opened KbProtocol
  import opened KbTheorems

  // ----- no losses: everyone gets the same id

  ghost predicate Lossless(run: Trace) {
    run.Start? || (Lossless(run.past) && !run.event.Lose?)
  }

  /** A 404 is the answer for a knowledge base that is gone. */
  predicate HonestStep(s: State, e: Event) {
    Enabled(s, e) && e.Status? && e.code == 404 ==> Probed(PhaseOf(s, e.c)).value !in s.live
  }

  ghost predicate Honest(init: State, run: Trace) {
    run.Start? || (Honest(init, run.past) && HonestStep(At(init, run.past), run.event))
  }

  /** Each phase of a caller of `p` agrees with the row, and nobody has seen a loss. */
  ghost predicate PhaseAgrees(s: State, ph: Phase, stored: KbId) {
    match ph
    case Probe(kb) => kb == stored && kb != ""
    case Reprobe(kb) => kb == stored && kb != ""
    case ProbeLocked(kb) => kb == stored && kb != ""
    case ReprobeLocked(kb) => kb == stored && kb != ""
    case Clear => false
    case Create(stale) => stale == ""
    case Save(id, stale) => stale == "" && id != "" && id in s.live
    case Returned(id) => id == stored && id != ""
    case _ => true
  }

  ghost predicate Agreed(s: State, p: ProjectId) {
    var stored := Stored(s.rows, p);
    p in s.rows && (stored != "" ==> stored in s.live) &&
    forall c :: Of(s, c, p) ==> PhaseAgrees(s, s.callers[c].phase, stored)
  }

  /** A step of a caller of `p` keeps its own phase in agreement, and the row unless it saves. */
  lemma ActorAgrees(s: State, e: Event, c: CallerId, p: ProjectId)
    requires Agreed(s, p) && HonestStep(s, e) && Enabled(s, e) && Actor(e) == Some(c) && Of(Do(s, e), c, p)
    requires c in s.callers ==> Remembers(s, c)
    ensures var s' := Do(s, e); var stored := Stored(s'.rows, p);
            && p in s'.rows && (stored != "" ==> stored in s'.live) && s.live <= s'.live
            && PhaseAgrees(s', s'.callers[c].phase, stored)
            && (stored == Stored(s.rows, p) || Stored(s.rows, p) == "")
  {
    if c in s.callers {
      assert Of(s, c, p);
    }
  }

  lemma LiveGrows(s: State, e: Event)
    requires !e.Lose?
    ensures s.live <= Do(s, e).live
  {
  }

  lemma OtherProjects(s: State, e: Event, p: ProjectId)
    requires !e.Lose? && p in Do(s, e).rows && (Actor(e).Some? ==> !Of(Do(s, e), Actor(e).value, p))
    ensures Stored(Do(s, e).rows, p) == Stored(s.rows, p) && s.live <= Do(s, e).live
  {
    if Actor(e).Some? && Actor(e).value in s.callers {
      ProjectsStay(s, e, Actor(e).value);
    }
    OtherRowsStay(s, e, p);
    LiveGrows(s, e);
  }

  lemma AgreedStep(s: State, e: Event, p: ProjectId)
    requires Sound(s) && Agreed(s, p) && !e.Lose? && HonestStep(s, e) && p in Do(s, e).rows
    ensures Agreed(Do(s, e), p)
  {
    var s' := Do(s, e);
    if Enabled(s, e) {
      if Actor(e).Some? && Of(s', Actor(e).value, p) {
        ActorAgrees(s, e, Actor(e).value, p);
      } else {
        OtherProjects(s, e, p);
      }
      forall c | Of(s', c, p) ensures PhaseAgrees(s', s'.callers[c].phase, Stored(s'.rows, p)) {
        if Actor(e) != Some(c) {
          OthersStay(s, e, c);
          hide Do, Enabled, Stored, Locked;
          assert Of(s, c, p);
        }
      }
      hide Do, Enabled, Stored, Locked;
    }
  }

  lemma {:induction false} AlwaysAgreed(init: State, run: Trace, p: ProjectId)
    requires IsFresh(init) && p in At(init, run).rows && Lossless(run) && Honest(init, run)
    requires Stored(init.rows, p) != "" ==> Stored(init.rows, p) in init.live
    ensures Agreed(At(init, run), p)
  {
    if run.Then? {
      RowsShrink(At(init, run.past), run.event);
      AlwaysAgreed(init, run.past, p);
      AlwaysSound(init, run.past);
      AgreedStep(At(init, run.past), run.event, p);
    }
  }

  lemma ReturnedStored(s: State, p: ProjectId, c: CallerId)
    requires Agreed(s, p) && Of(s, c, p) && PhaseOf(s, c).Returned?
    ensures PhaseOf(s, c).id == Stored(s.rows, p)
  {
  }

  /** If upstream loses nothing, all callers of a project that return get one and the same id,
      and it is the id in the row. */
  lemma AllCallersAgree(init: State, run: Trace, p: ProjectId, c: CallerId, d: CallerId)
    requires IsFresh(init) && p in At(init, run).rows && Lossless(run) && Honest(init, run)
    requires Stored(init.rows, p) != "" ==> Stored(init.rows, p) in init.live
    requires Of(At(init, run), c, p) && Of(At(init, run), d, p)
    requires PhaseOf(At(init, run), c).Returned? && PhaseOf(At(init, run), d).Returned?
    ensures PhaseOf(At(init, run), c).id == PhaseOf(At(init, run), d).id == Stored(At(init, run).rows, p)
  {
    hide At, Lossless, Honest, Stored, Agreed;
    AlwaysAgreed(init, run, p);
    ReturnedStored(At(init, run), p, c);
    ReturnedStored(At(init, run), p, d);
  }

  lemma NothingGoes(s: State, e: Event, p: ProjectId)
    requires Agreed(s, p) && HonestStep(s, e)
    ensures Goes(s, e, p) == 0
  {
    if Enabled(s, e) && e.Status? && Of(s, e.c, p) {
      assert e.code != 404;
    }
  }

  /** If upstream loses nothing, at most one create ever succeeds for a project, and none if
      its row held an id; in particular ambiguous answers never cause a create. */
  lemma {:induction false} AtMostOneCreate(init: State, run: Trace, p: ProjectId)
    requires IsFresh(init) && p in At(init, run).rows && Lossless(run) && Honest(init, run)
    requires Stored(init.rows, p) != "" ==> Stored(init.rows, p) in init.live
    ensures GoneFor(init, run, p) == 0
    ensures CreatedFor(init, run, p) + Has(init, p) <= 1
  {
    if run.Then? {
      RowsShrink(At(init, run.past), run.event);
      AtMostOneCreate(init, run.past, p);
      AlwaysAgreed(init, run.past, p);
      NothingGoes(At(init, run.past), run.event, p);
    }
    hide Agreed;
    CreationBound(init, run, p);
  }

  // ----- losses: a stored id is replaced only when it was confirmed gone

  /** Some caller of `p`, inside the lock, got a 404 for `kb`. */
  ghost predicate ToldGone(init: State, run: Trace, p: ProjectId, kb: KbId) {
    run.Then? &&
    (ToldGone(init, run.past, p, kb) ||
     var s := At(init, run.past);
     Goes(s, run.event, p) == 1 && Probed(PhaseOf(s, run.event.c)) == Some(kb))
  }

  /** The knowledge base was gone at some moment of the run. */
  ghost predicate WasGone(init: State, run: Trace, kb: KbId) {
    kb !in At(init, run).live || (run.Then? && WasGone(init, run.past, kb))
  }

  lemma {:induction false} HonestLoss(init: State, run: Trace, p: ProjectId, kb: KbId)
    requires Honest(init, run) && ToldGone(init, run, p, kb)
    ensures WasGone(init, run, kb)
  {
    hide Do, Enabled;
    if ToldGone(init, run.past, p, kb) {
      HonestLoss(init, run.past, p, kb);
    } else {
      assert kb !in At(init, run.past).live;
      assert WasGone(init, run.past, kb);
    }
  }

  /** The id that the caller is about to replace, "" if none. */
  function Replacing(ph: Phase): KbId {
    match ph
    case Create(stale) => stale
    case Save(id, stale) => stale
    case _ => ""
  }

  lemma ReplacingStep(s: State, e: Event, c: CallerId)
    requires c in Do(s, e).callers && Replacing(PhaseOf(Do(s, e), c)) != ""
    ensures c in s.callers && Do(s, e).callers[c].project == s.callers[c].project
    ensures Replacing(PhaseOf(Do(s, e), c)) == Replacing(PhaseOf(s, c)) ||
            (Goes(s, e, s.callers[c].project) == 1 && e.c == c &&
             Probed(PhaseOf(s, c)) == Some(Replacing(PhaseOf(Do(s, e), c))))
  {
    hide Stored, Update;
    if Actor(e) != Some(c) {
      OthersStay(s, e, c);
      hide Do;
    } else if c in s.callers {
      ProjectsStay(s, e, c);
    }
  }

  lemma {:induction false} ReplacementsJustified(init: State, run: Trace, c: CallerId)
    requires IsFresh(init) && c in At(init, run).callers
    requires Replacing(PhaseOf(At(init, run), c)) != ""
    ensures ToldGone(init, run, At(init, run).callers[c].project, Replacing(PhaseOf(At(init, run), c)))
  {
    if run.Then? {
      ReplacingStep(At(init, run.past), run.event, c);
      hide Do, Goes;
      if Replacing(PhaseOf(At(init, run.past), c)) == Replacing(PhaseOf(At(init, run), c)) {
        ReplacementsJustified(init, run.past, c);
      }
    }
  }

  lemma RowWriter(s: State, e: Event, p: ProjectId)
    requires p in Do(s, e).rows && Stored(Do(s, e).rows, p) != Stored(s.rows, p)
    ensures Actor(e).Some? && Of(s, Actor(e).value, p) && PhaseOf(s, Actor(e).value).Save?
  {
  }

  /** Whatever upstream does, a stored id is only ever overwritten after a caller holding the
      project's lock was told 404 for exactly that id: ambiguous answers replace nothing. If
      upstream is honest, that knowledge base was gone. */
  lemma OverwritesJustified(init: State, run: Trace, p: ProjectId)
    requires IsFresh(init) && run.Then? && p in At(init, run).rows
    requires Stored(At(init, run.past).rows, p) != ""
    requires Stored(At(init, run).rows, p) != Stored(At(init, run.past).rows, p)
    ensures ToldGone(init, run.past, p, Stored(At(init, run.past).rows, p))
    ensures Honest(init, run.past) ==> WasGone(init, run.past, Stored(At(init, run.past).rows, p))
  {
    var s := At(init, run.past);
    RowWriter(s, run.event, p);
    RowsShrink(s, run.event);
    var c := Actor(run.event).value;
    AlwaysSound(init, run.past);
    hide Do, Locked, Stored;
    assert Remembers(s, c);
    ReplacementsJustified(init, run.past, c);
    if Honest(init, run.past) {
      HonestLoss(init, run.past, p, Stored(s.rows, p));
    }
  }

  /** The row of `p` held `id` at some moment of the run. */
  ghost predicate WasStored(init: State, run: Trace, p: ProjectId, id: KbId) {
    Stored(At(init, run).rows, p) == id || (run.Then? && WasStored(init, run.past, p, id))
  }

  /** The id a caller has read from the row, or will return. */
  function Carried(ph: Phase): Option<KbId> {
    match ph
    case Returned(id) => Some(id)
    case _ => Probed(ph)
  }

  lemma CarriedStep(s: State, e: Event, c: CallerId)
    requires c in Do(s, e).callers && Carried(PhaseOf(Do(s, e), c)).Some?
    ensures c in s.callers && Do(s, e).callers[c].project == s.callers[c].project
    ensures var id := Carried(PhaseOf(Do(s, e), c));
            || id == Carried(PhaseOf(s, c))
            || id == Some(Stored(Do(s, e).rows, s.callers[c].project))
            || s.callers[c].project !in Do(s, e).rows
  {
    if Actor(e) != Some(c) {
      OthersStay(s, e, c);
      hide Do;
    } else if c in s.callers {
      ProjectsStay(s, e, c);
    }
  }

  /** On every run, with or without losses, each id returned for a project that still exists has been
      its stored id. */
  lemma {:induction false} ReturnedWasStored(init: State, run: Trace, c: CallerId)
    requires IsFresh(init) && c in At(init, run).callers
    requires At(init, run).callers[c].project in At(init, run).rows
    requires Carried(PhaseOf(At(init, run), c)).Some?
    ensures WasStored(init, run, At(init, run).callers[c].project, Carried(PhaseOf(At(init, run), c)).value)
  {
    if run.Then? {
      CarriedStep(At(init, run.past), run.event, c);
      RowsShrink(At(init, run.past), run.event);
      hide Do, Stored;
      if Carried(PhaseOf(At(init, run), c)) == Carried(PhaseOf(At(init, run.past), c)) {
        ReturnedWasStored(init, run.past, c);
      }
    }
  }

  // ----- progress

  ghost predicate Unfinished(ph: Phase) {
    !ph.Returned? && !ph.Raised?
  }

  /** Every held lock is held by a caller that will release it. */
  ghost predicate Owned(s: State) {
    forall l :: l in s.held ==> exists c :: Holds(s, c) && s.callers[c].lock == l
  }

  lemma HolderStays(s: State, e: Event, c: CallerId)
    requires Holds(s, c) && Actor(e) == Some(c) && s.callers[c].lock in Do(s, e).held
    ensures Holds(Do(s, e), c) && Do(s, e).callers[c].lock == s.callers[c].lock
  {
    hide Stored, Update;
  }

  lemma LockTaken(s: State, e: Event, l: LockId)
    requires l !in s.held && l in Do(s, e).held
    ensures exists c :: Holds(Do(s, e), c) && Do(s, e).callers[c].lock == l
  {
    hide Stored, Update;
    assert e.Resume? && s.callers[e.c].phase.Queue?;
    assert Holds(Do(s, e), e.c);
  }

  lemma OwnedStep(s: State, e: Event)
    requires Locked(s) && Owned(s)
    ensures Owned(Do(s, e))
  {
    var s' := Do(s, e);
    forall l | l in s'.held ensures exists c :: Holds(s', c) && s'.callers[c].lock == l {
      if l in s.held {
        var c :| Holds(s, c) && s.callers[c].lock == l;
        if Actor(e) != Some(c) {
          OthersStay(s, e, c);
          assert Holds(s', c) && s'.callers[c].lock == l;
        } else {
          HolderStays(s, e, c);
          assert Holds(s', c) && s'.callers[c].lock == l;
        }
      } else {
        LockTaken(s, e, l);
      }
    }
  }

  lemma {:induction false} AlwaysOwned(init: State, run: Trace)
    requires IsFresh(init)
    ensures Owned(At(init, run))
  {
    if run.Then? {
      AlwaysOwned(init, run.past);
      AlwaysSound(init, run.past);
      OwnedStep(At(init, run.past), run.event);
    }
  }

  lemma NextEvent(s: State, c: CallerId) returns (e: Event)
    requires c in s.callers && Unfinished(s.callers[c].phase) && !s.callers[c].phase.Queue?
    ensures Enabled(s, e) && !e.Begin? && !e.Lose? && !e.Drop?
  {
    var ph := s.callers[c].phase;
    if Probed(ph).Some? {
      e := Status(c, -1);
    } else if ph.Create? {
      e := Reply(c, Refused);
    } else {
      e := Resume(c);
    }
  }

  /** The protocol cannot get stuck: while a call is unfinished, some call can go on. */
  lemma NoDeadlock(init: State, run: Trace, c: CallerId) returns (e: Event)
    requires IsFresh(init) && c in At(init, run).callers && Unfinished(At(init, run).callers[c].phase)
    ensures Enabled(At(init, run), e) && !e.Begin? && !e.Lose? && !e.Drop?
  {
    var s := At(init, run);
    AlwaysOwned(init, run);
    if !s.callers[c].phase.Queue? {
      e := NextEvent(s, c);
    } else if s.callers[c].lock !in s.held {
      e := Resume(c);
    } else {
      var d :| Holds(s, d) && s.callers[d].lock == s.callers[c].lock;
      e := NextEvent(s, d);
    }
  }

  function Rank(ph: Phase): nat {
    match ph
    case ReadRow => 10
    case Probe(_) => 9
    case Reprobe(_) => 8
    case Clear => 7
    case Queue => 6
    case ReadLocked => 5
    case ProbeLocked(_) => 4
    case ReprobeLocked(_) => 3
    case Create(_) => 2
    case Save(_, _) => 1
    case _ => 0
  }

  function StepsOf(init: State, run: Trace, c: CallerId): nat {
    if run.Start? then 0
    else StepsOf(init, run.past, c) +
         (if Enabled(At(init, run.past), run.event) && Actor(run.event) == Some(c) then 1 else 0)
  }

  lemma RankStep(s: State, e: Event, c: CallerId)
    requires Enabled(s, e) && Actor(e) == Some(c) && c in s.callers
    ensures c in Do(s, e).callers && Rank(PhaseOf(Do(s, e), c)) < Rank(PhaseOf(s, c))
  {
    hide Stored, Update;
    match e
    case Resume(_) => assert Resumed(s, c) == Do(s, e);
    case Status(_, code) => assert Answered(s, c, code) == Do(s, e);
    case Reply(_, reply) => assert Replied(s, c, reply) == Do(s, e);
  }

  /** Every call is over after at most eleven steps of its own, on every run. */
  lemma {:induction false} CallsAreShort(init: State, run: Trace, c: CallerId)
    requires IsFresh(init)
    ensures StepsOf(init, run, c) + Rank(PhaseOf(At(init, run), c)) <= 11
    ensures c !in At(init, run).callers ==> StepsOf(init, run, c) == 0
  {
    if run.Then? {
      var s, e := At(init, run.past), run.event;
      CallsAreShort(init, run.past, c);
      if Actor(e) != Some(c) {
        OthersStay(s, e, c);
        hide Do, Enabled;
      } else if Enabled(s, e) && c in s.callers {
        RankStep(s, e, c);
        hide Do, Enabled;
      }
    }
  }

  // ----- who takes the lock, and who fails

  /** The caller has given up on the unlocked path. */
  predicate PastFastPath(ph: Phase) {
    ph.Clear? || ph.Queue? || InLock(ph) || ph.Raised?
  }

  /** This event sends `c` to the lock for a reason: no stored id, or a confirmed loss. */
  predicate SentToLock(s: State, e: Event, c: CallerId) {
    c in s.callers && Enabled(s, e) && Actor(e) == Some(c) &&
    ((e.Resume? && s.callers[c].phase.ReadRow? && Stored(s.rows, s.callers[c].project) == "") ||
     (e.Status? && e.code == 404 && (s.callers[c].phase.Probe? || s.callers[c].phase.Reprobe?)))
  }

  ghost predicate WasSentToLock(init: State, run: Trace, c: CallerId) {
    run.Then? && (WasSentToLock(init, run.past, c) || SentToLock(At(init, run.past), run.event, c))
  }

  lemma FastPathStep(s: State, e: Event, c: CallerId)
    requires c in Do(s, e).callers && PastFastPath(PhaseOf(Do(s, e), c))
    ensures c in s.callers && (PastFastPath(PhaseOf(s, c)) || SentToLock(s, e, c))
  {
    if Actor(e) != Some(c) {
      OthersStay(s, e, c);
      hide Do;
    }
  }

  /** A project with a live knowledge base never blocks: a caller waits for the lock, or fails,
      only if it read no stored id or was told 404 for the one it read. */
  lemma {:induction false} LockOnlyWhenNeeded(init: State, run: Trace, c: CallerId)
    requires IsFresh(init) && c in At(init, run).callers && PastFastPath(PhaseOf(At(init, run), c))
    ensures WasSentToLock(init, run, c)
  {
    if run.Then? {
      FastPathStep(At(init, run.past), run.event, c);
      hide Do, SentToLock;
      if PastFastPath(PhaseOf(At(init, run.past), c)) && c in At(init, run.past).callers {
        LockOnlyWhenNeeded(init, run.past, c);
      }
    }
  }

  /** Upstream refused the create of `c`, or gave it no id. */
  ghost predicate CreateFailed(init: State, run: Trace, c: CallerId) {
    run.Then? &&
    (CreateFailed(init, run.past, c) ||
     (run.event.Reply? && run.event.c == c && !run.event.reply.Created? && Enabled(At(init, run.past), run.event)))
  }

  lemma RaisedStep(s: State, e: Event, c: CallerId)
    requires c in Do(s, e).callers && PhaseOf(Do(s, e), c).Raised?
    ensures c in s.callers
    ensures PhaseOf(s, c).Raised? || (Enabled(s, e) && e.Reply? && e.c == c && !e.reply.Created?)
  {
    if Actor(e) != Some(c) {
      OthersStay(s, e, c);
      hide Do;
    }
  }

  /** A call fails only because its own create failed: ambiguous probes never raise. */
  lemma {:induction false} RaisedOnlyByCreate(init: State, run: Trace, c: CallerId)
    requires IsFresh(init) && c in At(init, run).callers && PhaseOf(At(init, run), c).Raised?
    ensures CreateFailed(init, run, c)
  {
    if run.Then? {
      RaisedStep(At(init, run.past), run.event, c);
      hide Do, Enabled;
      if PhaseOf(At(init, run.past), c).Raised? {
        RaisedOnlyByCreate(init, run.past, c);
      }
    }
  }
}
