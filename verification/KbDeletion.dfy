/** Creating knowledge bases for a project that has no row, at any moment of any run: the bound on
    creates holds as long as the row is there, and from no later moment on. */
module KbDeletion {
  import opened Sequences
  import opened KbProtocol
  import opened KbTheorems
  import opened KbAgreement

  /** `later` continues `run` without deleting the project. */
  ghost predicate Continues(later: Trace, run: Trace, p: ProjectId) {
    later == run || (later.Then? && later.event != Drop(p) && Continues(later.past, run, p))
  }

  lemma {:induction false} ContinuesOn(last: Trace, later: Trace, run: Trace, p: ProjectId)
    requires Continues(last, later, p) && Continues(later, run, p)
    ensures Continues(last, run, p)
  {
    if last != later {
      ContinuesOn(last.past, later, run, p);
    }
  }

  lemma KeptStep(s: State, e: Event, p: ProjectId)
    requires p in s.rows && e != Drop(p)
    ensures p in Do(s, e).rows
  {
    hide Stored;
  }

  lemma {:induction false} KeptRow(init: State, later: Trace, run: Trace, p: ProjectId)
    requires p in At(init, run).rows && Continues(later, run, p)
    ensures p in At(init, later).rows
  {
    if later != run {
      KeptRow(init, later.past, run, p);
      KeptStep(At(init, later.past), later.event, p);
    }
  }

  // ----- getting the lock

  /** No call holds the lock of the project. */
  ghost predicate Free(s: State, p: ProjectId) {
    p in s.locks ==> s.locks[p] !in s.held
  }

  /** A step of the lock holder that gets it further without a 404. */
  function Onward(s: State, c: CallerId): Event {
    var ph := PhaseOf(s, c);
    if Probed(ph).Some? then Status(c, -1) else if ph.Create? then Reply(c, Refused) else Resume(c)
  }

  lemma OnwardStep(s: State, c: CallerId)
    requires Holds(s, c)
    ensures Enabled(s, Onward(s, c)) && Actor(Onward(s, c)) == Some(c)
    ensures forall p :: Goes(s, Onward(s, c), p) == 0 && Creates(s, Onward(s, c), p) == 0
    ensures Do(s, Onward(s, c)).locks == s.locks
  {
    hide Stored, Update;
  }

  /** A lock holder can be brought to give the lock back, without a 404 and without a create. */
  lemma {:induction false} Finish(init: State, run: Trace, p: ProjectId, c: CallerId) returns (later: Trace)
    requires IsFresh(init) && Holds(At(init, run), c) && At(init, run).callers[c].project == p
    ensures Continues(later, run, p) && Free(At(init, later), p)
    ensures CreatedFor(init, later, p) == CreatedFor(init, run, p) && GoneFor(init, later, p) == GoneFor(init, run, p)
    decreases Rank(PhaseOf(At(init, run), c))
  {
    var s := At(init, run);
    var e := Onward(s, c);
    AlwaysSound(init, run);
    OnwardStep(s, c);
    RankStep(s, e, c);
    ProjectsStay(s, e, c);
    hide Do, Enabled, Onward, Creates, Goes, Rank;
    var next := Then(run, e);
    assert At(init, next) == Do(s, e);
    assert Continues(next, run, p);
    if Holds(At(init, next), c) {
      later := Finish(init, next, p, c);
      ContinuesOn(later, next, run, p);
    } else {
      later := next;
      if s.callers[c].lock in Do(s, e).held {
        HolderStays(s, e, c);
      }
    }
  }

  /** From every moment on, the lock of a project can become free. */
  lemma Released(init: State, run: Trace, p: ProjectId) returns (later: Trace)
    requires IsFresh(init)
    ensures Continues(later, run, p) && Free(At(init, later), p)
    ensures CreatedFor(init, later, p) == CreatedFor(init, run, p) && GoneFor(init, later, p) == GoneFor(init, run, p)
  {
    var s := At(init, run);
    AlwaysOwned(init, run);
    AlwaysSound(init, run);
    if Free(s, p) {
      later := run;
    } else {
      var c :| Holds(s, c) && s.callers[c].lock == s.locks[p];
      later := Finish(init, run, p, c);
    }
  }

  // ----- a call for a project without a row

  /** One more call that runs alone, creates a knowledge base, and leaves no trace of it. */
  function OneMore(run: Trace, p: ProjectId, c: CallerId): Trace {
    Then(Then(Then(Then(Then(Then(run, Begin(c, p)), Resume(c)), Resume(c)), Resume(c)),
      Reply(c, Created("x"))), Resume(c))
  }

  lemma CountsStep(init: State, run: Trace, p: ProjectId)
    requires run.Then? && !run.event.Status?
    ensures CreatedFor(init, run, p) == CreatedFor(init, run.past, p) + Creates(At(init, run.past), run.event, p)
    ensures GoneFor(init, run, p) == GoneFor(init, run.past, p)
    ensures At(init, run) == Do(At(init, run.past), run.event)
  {
  }

  lemma HeldLocksOld(s: State)
    requires Locked(s) && Owned(s)
    ensures forall l :: l in s.held ==> l < s.nextLock
  {
    forall l | l in s.held ensures l < s.nextLock {
      var c :| Holds(s, c) && s.callers[c].lock == l;
    }
  }

  /** Without a row and with the lock free, a call gets into the queue for a free lock. */
  lemma LoneCallQueues(s: State, p: ProjectId, c: CallerId)
    requires Locked(s) && Owned(s) && Free(s, p) && p !in s.rows && c !in s.callers
    ensures var s2 := Do(Do(s, Begin(c, p)), Resume(c));
            && c in s2.callers && s2.callers[c].project == p && s2.callers[c].phase == Queue
            && p in s2.locks && s2.callers[c].lock == s2.locks[p] && s2.locks[p] !in s2.held
            && s2.held == s.held && s2.rows == s.rows && s2.callers.Keys == s.callers.Keys + {c}
  {
    HeldLocksOld(s);
    hide Locked, Owned;
    var s1 := Do(s, Begin(c, p));
    assert s1.callers[c] == Caller(p, ReadRow, 0) && Stored(s1.rows, p) == "";
    assert Do(s1, Resume(c)) == Enqueue(s1, c);
  }

  /** It then takes the lock and finds no id. */
  lemma QueuedCallCreates(s: State, p: ProjectId, c: CallerId)
    requires c in s.callers && s.callers[c].project == p && s.callers[c].phase == Queue
    requires s.callers[c].lock !in s.held && p !in s.rows
    ensures var s4 := Do(Do(s, Resume(c)), Resume(c));
            && c in s4.callers && s4.callers[c] == s.callers[c].(phase := Create(""))
            && s4.held == s.held + {s.callers[c].lock} && s4.locks == s.locks
            && s4.rows == s.rows && s4.callers.Keys == s.callers.Keys
  {
    var s3 := Do(s, Resume(c));
    assert s3.callers[c].phase == ReadLocked && Stored(s3.rows, p) == "";
  }

  /** Its id has no row to go to, and the lock is free again. */
  lemma CreatingCallEnds(s: State, p: ProjectId, c: CallerId)
    requires c in s.callers && s.callers[c].project == p && s.callers[c].phase == Create("") && p !in s.rows
    requires p in s.locks && s.callers[c].lock == s.locks[p]
    ensures var e := Reply(c, Created("x")); var s6 := Do(Do(s, e), Resume(c));
            && Creates(s, e, p) == 1
            && Free(s6, p) && s6.rows == s.rows && s6.callers.Keys == s.callers.Keys
  {
    var s5 := Do(s, Reply(c, Created("x")));
    assert s5.callers[c].phase == Save("x", "");
  }

  lemma CallWithoutRow(s: State, p: ProjectId, c: CallerId)
    requires Locked(s) && Owned(s) && Free(s, p) && p !in s.rows && c !in s.callers
    ensures var s1 := Do(s, Begin(c, p)); var s2 := Do(s1, Resume(c)); var s3 := Do(s2, Resume(c));
            var s4 := Do(s3, Resume(c)); var s5 := Do(s4, Reply(c, Created("x"))); var s6 := Do(s5, Resume(c));
            && Creates(s4, Reply(c, Created("x")), p) == 1
            && Free(s6, p) && p !in s6.rows && s6.callers.Keys == s.callers.Keys + {c}
  {
    hide Do, Creates, Free, Locked, Owned;
    var s2 := Do(Do(s, Begin(c, p)), Resume(c));
    LoneCallQueues(s, p, c);
    QueuedCallCreates(s2, p, c);
    CreatingCallEnds(Do(Do(s2, Resume(c)), Resume(c)), p, c);
  }

  lemma OneMoreContinues(run: Trace, p: ProjectId, c: CallerId)
    ensures Continues(OneMore(run, p, c), run, p)
  {
    assert Continues(run, run, p);
    var r2 := Then(Then(run, Begin(c, p)), Resume(c));
    assert Continues(r2.past, run, p);
    assert Continues(r2, run, p);
    var r4 := Then(Then(r2, Resume(c)), Resume(c));
    assert Continues(r4.past, run, p);
    assert Continues(r4, run, p);
  }

  lemma OneMoreCreated(init: State, run: Trace, p: ProjectId, c: CallerId)
    requires IsFresh(init) && Free(At(init, run), p) && p !in At(init, run).rows && c !in At(init, run).callers
    ensures var run' := OneMore(run, p, c); var s := At(init, run');
            && Free(s, p) && p !in s.rows && s.callers.Keys == At(init, run).callers.Keys + {c}
            && CreatedFor(init, run', p) >= CreatedFor(init, run, p) + 1
            && GoneFor(init, run', p) == GoneFor(init, run, p)
  {
    AlwaysSound(init, run);
    AlwaysOwned(init, run);
    hide Locked, Owned;
    CallWithoutRow(At(init, run), p, c);
    hide Do, Free, At, CreatedFor, GoneFor;
    var r1 := Then(run, Begin(c, p));
    CountsStep(init, r1, p);
    var r2 := Then(r1, Resume(c));
    CountsStep(init, r2, p);
    var r3 := Then(r2, Resume(c));
    CountsStep(init, r3, p);
    var r4 := Then(r3, Resume(c));
    CountsStep(init, r4, p);
    var r5 := Then(r4, Reply(c, Created("x")));
    CountsStep(init, r5, p);
    CountsStep(init, OneMore(run, p, c), p);
  }

  /** `n` more such calls, one after the other, by the callers from `base` on. */
  function Calls(run: Trace, p: ProjectId, base: CallerId, n: nat): Trace {
    if n == 0 then run else OneMore(Calls(run, p, base, n - 1), p, base + n - 1)
  }

  /** Without a row, calls that run one after the other create one knowledge base each. */
  lemma {:induction false} CreatesPileUp(init: State, run: Trace, p: ProjectId, base: CallerId, n: nat)
    requires IsFresh(init) && Free(At(init, run), p) && p !in At(init, run).rows
    requires forall c :: c in At(init, run).callers ==> c < base
    ensures var run' := Calls(run, p, base, n); var s := At(init, run');
            && Free(s, p) && p !in s.rows && (forall c :: c in s.callers ==> c < base + n)
            && CreatedFor(init, run', p) >= CreatedFor(init, run, p) + n
            && GoneFor(init, run', p) == GoneFor(init, run, p)
            && Continues(run', run, p)
  {
    hide Do, OneMore, Free, At, CreatedFor, GoneFor;
    if n > 0 {
      var past := Calls(run, p, base, n - 1);
      CreatesPileUp(init, run, p, base, n - 1);
      OneMoreCreated(init, past, p, base + n - 1);
      OneMoreContinues(past, p, base + n - 1);
      ContinuesOn(OneMore(past, p, base + n - 1), past, run, p);
    }
  }

  lemma {:induction false} CallersBelow(init: State, run: Trace) returns (base: CallerId)
    requires IsFresh(init)
    ensures forall c :: c in At(init, run).callers ==> c < base
  {
    if run.Start? {
      base := 0;
    } else {
      base := CallersBelow(init, run.past);
      var s, e := At(init, run.past), run.event;
      if Actor(e).Some? && base <= Actor(e).value {
        base := Actor(e).value + 1;
      }
      forall c | c in At(init, run).callers ensures c < base {
        if Actor(e) != Some(c) {
          OthersStay(s, e, c);
        }
      }
    }
  }

  lemma {:induction false} RowStaysGone(init: State, later: Trace, run: Trace, p: ProjectId)
    requires p !in At(init, run).rows && Continues(later, run, p)
    ensures p !in At(init, later).rows
  {
    if later != run {
      RowStaysGone(init, later.past, run, p);
      RowsShrink(At(init, later.past), later.event);
    }
  }

  // ----- the row is what the bound needs

  /** Whenever the project has no row, whoever is under way and whatever they hold, the run can go on so
      that `n` more knowledge bases are created for it, without any 404. */
  lemma DeletionUnbindsCreation(init: State, run: Trace, p: ProjectId, n: nat) returns (later: Trace)
    requires IsFresh(init) && p !in At(init, run).rows
    ensures Continues(later, run, p)
    ensures CreatedFor(init, later, p) >= CreatedFor(init, run, p) + n
    ensures GoneFor(init, later, p) == GoneFor(init, run, p)
  {
    hide Do, Calls, Free;
    var free := Released(init, run, p);
    RowStaysGone(init, free, run, p);
    var base := CallersBelow(init, free);
    CreatesPileUp(init, free, p, base, n);
    later := Calls(free, p, base, n);
    ContinuesOn(later, free, run, p);
  }

  lemma {:induction false} CreatedNotNegative(init: State, run: Trace, p: ProjectId)
    ensures CreatedFor(init, run, p) >= 0
  {
    hide Do, Enabled;
    if run.Then? {
      CreatedNotNegative(init, run.past, p);
    }
  }

  /** At every moment of every run: the project has its row if and only if every continuation that does
      not delete it keeps to the creation bound. */
  lemma {:induction false} RowExactly(init: State, run: Trace, p: ProjectId)
    requires IsFresh(init)
    ensures p in At(init, run).rows <==>
            forall later :: Continues(later, run, p) ==> CreatedFor(init, later, p) <= 1 + GoneFor(init, later, p)
  {
    if p in At(init, run).rows {
      forall later | Continues(later, run, p)
        ensures CreatedFor(init, later, p) <= 1 + GoneFor(init, later, p)
      {
        KeptRow(init, later, run, p);
        CreationBound(init, later, p);
      }
    } else {
      CreatedNotNegative(init, run, p);
      var later := DeletionUnbindsCreation(init, run, p, 2 + GoneFor(init, run, p));
    }
  }

  /** In particular the creation bound holds on all runs that do not delete the project exactly if it
      has a row from the start. */
  lemma CreationBoundExactly(init: State, p: ProjectId)
    requires IsFresh(init)
    ensures (forall run :: Continues(run, Start, p) ==> CreatedFor(init, run, p) <= 1 + GoneFor(init, run, p)) <==>
            p in init.rows
  {
    RowExactly(init, Start, p);
  }
}
