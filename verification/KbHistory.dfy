/** What a caller of the knowledge-base protocol has gone through decides where it is: the ids it
    returns, read off its own events. */
module KbHistory {
  import opened Sequences
  import opened KbProtocol
  import opened KbTheorems

  /** An event of the caller, and the id it was probing at that moment, "" if it was not. */
  datatype Moment = Moment(asked: KbId, event: Event)

  function Asked(s: State, c: CallerId): KbId {
    var kb := Probed(PhaseOf(s, c));
    if kb.Some? then kb.value else ""
  }

  /** All events of the caller, in order. */
  function History(init: State, run: Trace, c: CallerId): seq<Moment> {
    if run.Start? then []
    else
      var s := At(init, run.past);
      if Enabled(s, run.event) && Actor(run.event) == Some(c)
      then History(init, run.past, c) + [Moment(Asked(s, c), run.event)]
      else History(init, run.past, c)
  }

  /** Neither a confirmation nor a refutation. */
  predicate Ambiguous(code: int) {
    code != 200 && code != 404
  }

  /** The last answer said 200 for the id. */
  predicate Confirmed(h: seq<Moment>, id: KbId) {
    |h| >= 1 && h[|h| - 1].asked == id && h[|h| - 1].event.Status? && h[|h| - 1].event.code == 200
  }

  /** The last two answers, both about the id, were neither 200 nor 404. */
  predicate TwiceAmbiguous(h: seq<Moment>, id: KbId) {
    && |h| >= 2
    && h[|h| - 1].asked == id && h[|h| - 1].event.Status? && Ambiguous(h[|h| - 1].event.code)
    && h[|h| - 2].asked == id && h[|h| - 2].event.Status? && Ambiguous(h[|h| - 2].event.code)
  }

  /** The caller's create was answered with the id, and the id was saved. */
  predicate CreatedAndSaved(h: seq<Moment>, c: CallerId, id: KbId) {
    |h| >= 2 && h[|h| - 2].event == Reply(c, Created(id)) && h[|h| - 1].event == Resume(c)
  }

  predicate Vouched(h: seq<Moment>, c: CallerId, id: KbId) {
    Confirmed(h, id) || TwiceAmbiguous(h, id) || CreatedAndSaved(h, c, id)
  }

  /** The last event was an answer about the id, and refuted it. */
  predicate Refuted(h: seq<Moment>, id: KbId) {
    h != [] && h[|h| - 1].asked == id && h[|h| - 1].event.Status? && h[|h| - 1].event.code == 404
  }

  /** The last event was an answer about the id, neither 200 nor 404. */
  predicate LeftOpen(h: seq<Moment>, id: KbId) {
    h != [] && h[|h| - 1].asked == id && h[|h| - 1].event.Status? && Ambiguous(h[|h| - 1].event.code)
  }

  /** What each phase says about the caller's last events. */
  ghost predicate Fits(ph: Phase, h: seq<Moment>, c: CallerId) {
    h != [] && (forall id :: Vouched(h, c, id) <==> ph == Returned(id)) &&
    var last := h[|h| - 1];
    match ph
    case ReadRow => last.event.Begin?
    case Probe(kb) => last.event == Resume(c)
    case ProbeLocked(kb) => last.event == Resume(c)
    case Queue => last.event == Resume(c)
    case ReadLocked => last.event == Resume(c)
    case Reprobe(kb) => LeftOpen(h, kb)
    case ReprobeLocked(kb) => LeftOpen(h, kb)
    case Clear => last.event.Status? && last.event.code == 404
    case Create(stale) => if stale == "" then last.event == Resume(c) else Refuted(h, stale)
    case Save(id, _) => last.event == Reply(c, Created(id))
    case Raised => last.event.Reply? && !last.event.reply.Created?
    case Returned(_) => true
  }

  lemma FitsBegin(s: State, c: CallerId, p: ProjectId)
    requires c !in s.callers
    ensures c in Do(s, Begin(c, p)).callers
    ensures Fits(Do(s, Begin(c, p)).callers[c].phase, [Moment(Asked(s, c), Begin(c, p))], c)
  {
  }

  lemma FitsResume(s: State, c: CallerId, h: seq<Moment>)
    requires Enabled(s, Resume(c)) && c in s.callers && Fits(s.callers[c].phase, h, c) && Remembers(s, c)
    ensures c in Resumed(s, c).callers
    ensures Fits(Resumed(s, c).callers[c].phase, h + [Moment(Asked(s, c), Resume(c))], c)
  {
    var next := h + [Moment(Asked(s, c), Resume(c))];
    assert next[|next| - 1] == Moment(Asked(s, c), Resume(c)) && next[|next| - 2] == h[|h| - 1];
    hide Stored, Update;
  }

  lemma FitsStatus(s: State, c: CallerId, code: int, h: seq<Moment>)
    requires Enabled(s, Status(c, code)) && c in s.callers && Fits(s.callers[c].phase, h, c) && Remembers(s, c)
    ensures c in Answered(s, c, code).callers
    ensures Fits(Answered(s, c, code).callers[c].phase, h + [Moment(Asked(s, c), Status(c, code))], c)
  {
    var next := h + [Moment(Asked(s, c), Status(c, code))];
    assert next[|next| - 1] == Moment(Asked(s, c), Status(c, code)) && next[|next| - 2] == h[|h| - 1];
    hide Stored, Update;
  }

  lemma FitsReply(s: State, c: CallerId, reply: CreateReply, h: seq<Moment>)
    requires Enabled(s, Reply(c, reply)) && c in s.callers && Fits(s.callers[c].phase, h, c)
    ensures c in Replied(s, c, reply).callers
    ensures Fits(Replied(s, c, reply).callers[c].phase, h + [Moment(Asked(s, c), Reply(c, reply))], c)
  {
    var next := h + [Moment(Asked(s, c), Reply(c, reply))];
    assert next[|next| - 1] == Moment(Asked(s, c), Reply(c, reply)) && next[|next| - 2] == h[|h| - 1];
    hide Stored, Update;
  }

  lemma FitsStep(s: State, e: Event, c: CallerId, h: seq<Moment>)
    requires Enabled(s, e) && Actor(e) == Some(c)
    requires if c in s.callers then Fits(s.callers[c].phase, h, c) && Remembers(s, c) else h == []
    ensures c in Do(s, e).callers
    ensures Fits(Do(s, e).callers[c].phase, h + [Moment(Asked(s, c), e)], c)
  {
    hide Fits, Remembers, Resumed, Answered, Replied, Asked;
    match e
    case Begin(_, p) =>
      FitsBegin(s, c, p);
      assert [] + [Moment(Asked(s, c), e)] == [Moment(Asked(s, c), e)];
    case Resume(_) => FitsResume(s, c, h);
    case Status(_, code) => FitsStatus(s, c, code, h);
    case Reply(_, reply) => FitsReply(s, c, reply, h);
  }

  lemma NotEnabled(s: State, e: Event)
    requires !Enabled(s, e)
    ensures Do(s, e) == s
  {
  }

  lemma {:induction false} AlwaysFits(init: State, run: Trace, c: CallerId)
    requires IsFresh(init)
    ensures if c in At(init, run).callers then Fits(At(init, run).callers[c].phase, History(init, run, c), c)
            else History(init, run, c) == []
  {
    if run.Then? {
      var s, e := At(init, run.past), run.event;
      AlwaysFits(init, run.past, c);
      AlwaysSound(init, run.past);
      hide Do, Enabled, Fits, Locked;
      if Actor(e) != Some(c) {
        OthersStay(s, e, c);
      } else if Enabled(s, e) {
        FitsStep(s, e, c, History(init, run.past, c));
      } else {
        NotEnabled(s, e);
      }
    }
  }

  /** On every run a call has returned an id if and only if its last answer confirmed that id, or its
      last two answers about it were ambiguous, or its own create was answered with it and saved. */
  lemma ReturnedExactly(init: State, run: Trace, c: CallerId, id: KbId)
    requires IsFresh(init) && c in At(init, run).callers
    ensures PhaseOf(At(init, run), c) == Returned(id) <==> Vouched(History(init, run, c), c, id)
  {
    AlwaysFits(init, run, c);
  }

  lemma FitsRefuted(ph: Phase, h: seq<Moment>, c: CallerId, id: KbId)
    requires Fits(ph, h, c) && Refuted(h, id)
    ensures ph.Clear? || ph == Create(id)
  {
    assert ph.Returned? ==> Vouched(h, c, ph.id);
  }

  /** A refuted id is never returned: a call whose last event is a 404 is on its way to the lock, or,
      inside it, about to create a replacement for the very id it was told is gone. */
  lemma RefutedGoesOn(init: State, run: Trace, c: CallerId, id: KbId)
    requires IsFresh(init) && c in At(init, run).callers && Refuted(History(init, run, c), id)
    ensures PhaseOf(At(init, run), c).Clear? || PhaseOf(At(init, run), c) == Create(id)
  {
    AlwaysFits(init, run, c);
    hide Fits, Refuted, History, At;
    FitsRefuted(At(init, run).callers[c].phase, History(init, run, c), c, id);
  }

  lemma FitsOpen(ph: Phase, h: seq<Moment>, c: CallerId, id: KbId)
    requires Fits(ph, h, c) && LeftOpen(h, id) && !TwiceAmbiguous(h, id)
    ensures ph == Reprobe(id) || ph == ReprobeLocked(id)
  {
    assert ph.Returned? ==> Vouched(h, c, ph.id);
  }

  /** A first ambiguous answer is never believed: the same id is probed once more. */
  lemma AmbiguousAsksAgain(init: State, run: Trace, c: CallerId, id: KbId)
    requires IsFresh(init) && c in At(init, run).callers
    requires LeftOpen(History(init, run, c), id) && !TwiceAmbiguous(History(init, run, c), id)
    ensures PhaseOf(At(init, run), c) == Reprobe(id) || PhaseOf(At(init, run), c) == ReprobeLocked(id)
  {
    AlwaysFits(init, run, c);
    hide Fits, LeftOpen, TwiceAmbiguous, History, At;
    FitsOpen(At(init, run).callers[c].phase, History(init, run, c), c, id);
  }
}
