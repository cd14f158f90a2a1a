/** What the identity caches guarantee on every interleaving of verifications. */
module VerifierRuns {
  import opened Sequences
  import opened IdentityCache

  // ----- cached answers are recent answers of the identity service

  ghost predicate DenialProduced(ttl: Time, run: Trace, token: Token, begun: Time) {
    Produced(ttl, run, token, Denied, begun) || Produced(ttl, run, token, Unreachable, begun)
  }

  /** Each cache entry stems from an answer to a request begun `ttl` before its expiry. */
  ghost predicate Backed(ttl: Time, run: Trace, c: Cache) {
    && (forall t :: t in c.pos ==> Produced(ttl, run, t, Verified(c.pos[t].claims), c.pos[t].expiry - ttl))
    && (forall t :: t in c.neg ==> DenialProduced(ttl, run, t, c.neg[t] - ttl))
  }

  ghost predicate PendingPast(s: State, run: Trace) {
    forall id :: id in s.pending ==> run.Then? && s.pending[id].begun <= run.event.at
  }

  lemma {:induction false} BegunInPast(ttl: Time, run: Trace, prune: bool)
    requires Timed(run)
    ensures PendingPast(At(ttl, run, prune), run)
  {
    if run.Then? {
      hide Recorded, Lookup;
      BegunInPast(ttl, run.past, prune);
    }
  }

  /** Recording adds at most the entry of the finished request. */
  lemma RecordedEntries(c: Cache, ttl: Time, token: Token, begun: Time, o: Outcome, t: Token)
    ensures var r := Recorded(c, ttl, token, begun, o, true);
            && (t in r.pos ==> (t in c.pos && r.pos[t] == c.pos[t]) ||
                               (t == token && o.Verified? && r.pos[t] == Entry(o.claims, begun + ttl)))
            && (t in r.neg ==> (t in c.neg && r.neg[t] == c.neg[t]) ||
                               (t == token && (o.Denied? || o.Unreachable?) && r.neg[t] == begun + ttl))
  {
  }

  lemma RecordedBacked(ttl: Time, run: Trace, c: Cache, token: Token, begun: Time, o: Outcome)
    requires Backed(ttl, run, c) && Produced(ttl, run, token, o, begun)
    ensures Backed(ttl, run, Recorded(c, ttl, token, begun, o, true))
  {
    hide Produced, Recorded;
    var r := Recorded(c, ttl, token, begun, o, true);
    forall t | t in r.pos ensures Produced(ttl, run, t, Verified(r.pos[t].claims), r.pos[t].expiry - ttl) {
      RecordedEntries(c, ttl, token, begun, o, t);
    }
    forall t | t in r.neg ensures DenialProduced(ttl, run, t, r.neg[t] - ttl) {
      RecordedEntries(c, ttl, token, begun, o, t);
    }
  }

  lemma BackedLater(ttl: Time, run: Trace, c: Cache)
    requires run.Then? && Backed(ttl, run.past, c)
    ensures Backed(ttl, run, c)
  {
    hide At;
  }

  lemma {:induction false} AlwaysBacked(ttl: Time, run: Trace)
    requires Timed(run)
    ensures Backed(ttl, run, At(ttl, run, true).cache)
  {
    if run.Then? {
      var s, e := At(ttl, run.past, true), run.event;
      AlwaysBacked(ttl, run.past);
      BegunInPast(ttl, run.past, true);
      BackedLater(ttl, run, s.cache);
      hide Recorded, Lookup, Backed;
      if e.Reply? && e.id in s.pending {
        var r := s.pending[e.id];
        assert Produced(ttl, run, r.token, e.outcome, r.begun);
        RecordedBacked(ttl, run, s.cache, r.token, r.begun, e.outcome);
      }
    }
  }

  lemma {:induction false} ProducedInPast(ttl: Time, run: Trace, token: Token, o: Outcome, begun: Time)
    requires Timed(run) && Produced(ttl, run, token, o, begun)
    ensures run.Then? && begun <= run.event.at
  {
    hide At;
    if Produced(ttl, run.past, token, o, begun) {
      ProducedInPast(ttl, run.past, token, o, begun);
    }
  }

  /** The identity service gave this answer, granted or denied, to a request begun at `begun`. */
  ghost predicate AnswerProduced(ttl: Time, run: Trace, token: Token, a: Answer, begun: Time) {
    match a
    case Granted(claims) => Produced(ttl, run, token, Verified(claims), begun)
    case CachedDenial => DenialProduced(ttl, run, token, begun)
    case _ => false
  }

  /** Under any interleaving, an answer taken from a cache was given by the identity service for
      that very token, to a request begun less than `ttl` before. */
  lemma CachedAnswersAreFresh(ttl: Time, run: Trace)
    requires run.Then? && Timed(run) && run.event.Ask?
    requires AnswerOf(At(ttl, run.past, true), ttl, run.event).Some?
    ensures var a := AnswerOf(At(ttl, run.past, true), ttl, run.event).value; var at := run.event.at;
            exists begun: Time :: at - ttl < begun <= at && AnswerProduced(ttl, run.past, run.event.token, a, begun)
  {
    var c, t, at := At(ttl, run.past, true).cache, run.event.token, run.event.at;
    AlwaysBacked(ttl, run.past);
    hide At;
    if PosLive(c, t, at) {
      var begun := c.pos[t].expiry - ttl;
      ProducedInPast(ttl, run.past, t, Verified(c.pos[t].claims), begun);
      assert AnswerProduced(ttl, run.past, t, Granted(c.pos[t].claims), begun);
    } else {
      var begun := c.neg[t] - ttl;
      assert AnswerProduced(ttl, run.past, t, CachedDenial, begun);
      if Produced(ttl, run.past, t, Denied, begun) {
        ProducedInPast(ttl, run.past, t, Denied, begun);
      } else {
        ProducedInPast(ttl, run.past, t, Unreachable, begun);
      }
    }
  }

  // ----- a constant identity service

  type Oracle = Token -> Option<Claims>

  /** What a service with a fixed verdict on every token replies. */
  function Verdict(v: Option<Claims>): Outcome {
    if v.Some? then Verified(v.value) else Denied
  }

  ghost predicate Faithful(ttl: Time, run: Trace, oracle: Oracle) {
    run.Start? ||
    (Faithful(ttl, run.past, oracle) &&
     (run.event.Reply? && run.event.id in At(ttl, run.past, true).pending ==>
        run.event.outcome == Verdict(oracle(At(ttl, run.past, true).pending[run.event.id].token))))
  }

  ghost predicate Matches(c: Cache, oracle: Oracle) {
    && (forall t :: t in c.pos ==> oracle(t) == Some(c.pos[t].claims))
    && (forall t :: t in c.neg ==> oracle(t) == None)
  }

  lemma RecordedMatches(c: Cache, oracle: Oracle, ttl: Time, token: Token, begun: Time)
    requires Matches(c, oracle)
    ensures Matches(Recorded(c, ttl, token, begun, Verdict(oracle(token)), true), oracle)
  {
  }

  lemma {:induction false} AlwaysMatches(ttl: Time, run: Trace, oracle: Oracle)
    requires Faithful(ttl, run, oracle)
    ensures Matches(At(ttl, run, true).cache, oracle)
  {
    if run.Then? {
      var s, e := At(ttl, run.past, true), run.event;
      AlwaysMatches(ttl, run.past, oracle);
      if e.Reply? && e.id in s.pending {
        RecordedMatches(s.cache, oracle, ttl, s.pending[e.id].token, s.pending[e.id].begun);
      }
      hide Recorded, Lookup, Matches, Verdict;
    }
  }

  /** With a fixed verdict per token, every answer, cached or not, is the verdict. */
  lemma CachedVerifierIsOracle(ttl: Time, run: Trace, oracle: Oracle)
    requires run.Then? && Faithful(ttl, run, oracle)
    requires AnswerOf(At(ttl, run.past, true), ttl, run.event).Some?
    ensures var s := At(ttl, run.past, true); var a := AnswerOf(s, ttl, run.event).value;
            && TokenOf(s, run.event).Some?
            && var v := oracle(TokenOf(s, run.event).value);
               if v.Some? then a == Granted(v.value) else a == CachedDenial || a == Refused
  {
    AlwaysMatches(ttl, run.past, oracle);
    hide At;
  }

  // ----- pruning cannot be observed

  /** From time `t` on, the two caches answer alike, each cache for itself. */
  ghost predicate AgreeFrom(c: Cache, u: Cache, t: Time) {
    forall token, now :: now >= t ==>
      && (PosLive(c, token, now) <==> PosLive(u, token, now))
      && (PosLive(c, token, now) ==> c.pos[token].claims == u.pos[token].claims)
      && (NegLive(c, token, now) <==> NegLive(u, token, now))
  }

  lemma PrunePosAgrees(c: Cache, u: Cache, t: Time, begun: Time)
    requires AgreeFrom(c, u, t) && begun <= t
    ensures AgreeFrom(c.(pos := PrunedPos(c.pos, begun)), u, t)
  {
    forall token, now | now >= t
      ensures PosLive(c.(pos := PrunedPos(c.pos, begun)), token, now) <==> PosLive(c, token, now)
    {
    }
    forall token, now | now >= t
      ensures NegLive(c.(pos := PrunedPos(c.pos, begun)), token, now) <==> NegLive(c, token, now)
    {
    }
  }

  lemma PruneNegAgrees(c: Cache, u: Cache, t: Time, begun: Time)
    requires AgreeFrom(c, u, t) && begun <= t
    ensures AgreeFrom(c.(neg := PrunedNeg(c.neg, begun)), u, t)
  {
    forall token, now | now >= t
      ensures NegLive(c.(neg := PrunedNeg(c.neg, begun)), token, now) <==> NegLive(c, token, now)
    {
    }
    forall token, now | now >= t
      ensures PosLive(c.(neg := PrunedNeg(c.neg, begun)), token, now) <==> PosLive(c, token, now)
    {
    }
  }

  lemma GrantAgrees(c: Cache, u: Cache, t: Time, token: Token, e: Entry)
    requires AgreeFrom(c, u, t)
    ensures AgreeFrom(Cache(c.pos[token := e], c.neg - {token}), Cache(u.pos[token := e], u.neg - {token}), t)
  {
    var c', u' := Cache(c.pos[token := e], c.neg - {token}), Cache(u.pos[token := e], u.neg - {token});
    forall x, now | now >= t
      ensures PosLive(c', x, now) <==> PosLive(u', x, now)
      ensures PosLive(c', x, now) ==> c'.pos[x].claims == u'.pos[x].claims
      ensures NegLive(c', x, now) <==> NegLive(u', x, now)
    {
      assert PosLive(c, x, now) <==> PosLive(u, x, now);
      assert NegLive(c, x, now) <==> NegLive(u, x, now);
    }
  }

  lemma DenyAgrees(c: Cache, u: Cache, t: Time, token: Token, expiry: Time)
    requires AgreeFrom(c, u, t)
    ensures AgreeFrom(Cache(c.pos, c.neg[token := expiry]), Cache(u.pos, u.neg[token := expiry]), t)
  {
    var c', u' := Cache(c.pos, c.neg[token := expiry]), Cache(u.pos, u.neg[token := expiry]);
    forall x, now | now >= t
      ensures PosLive(c', x, now) <==> PosLive(u', x, now)
      ensures PosLive(c', x, now) ==> c'.pos[x].claims == u'.pos[x].claims
      ensures NegLive(c', x, now) <==> NegLive(u', x, now)
    {
      assert PosLive(c, x, now) <==> PosLive(u, x, now);
      assert NegLive(c, x, now) <==> NegLive(u, x, now);
    }
  }

  lemma RecordedAgrees(c: Cache, u: Cache, t: Time, ttl: Time, token: Token, begun: Time, o: Outcome)
    requires AgreeFrom(c, u, t) && begun <= t
    ensures AgreeFrom(Recorded(c, ttl, token, begun, o, true), Recorded(u, ttl, token, begun, o, false), t)
  {
    hide AgreeFrom, PrunedPos, PrunedNeg;
    if ttl > 0.0 && o.Verified? {
      var e := Entry(o.claims, begun + ttl);
      GrantAgrees(c, u, t, token, e);
      PrunePosAgrees(Cache(c.pos[token := e], c.neg - {token}), Cache(u.pos[token := e], u.neg - {token}), t, begun);
    } else if ttl > 0.0 && !o.Garbled? {
      DenyAgrees(c, u, t, token, begun + ttl);
      PruneNegAgrees(Cache(c.pos, c.neg[token := begun + ttl]), Cache(u.pos, u.neg[token := begun + ttl]), t, begun);
    }
  }

  lemma SameLookup(c: Cache, u: Cache, t: Time, ttl: Time, token: Token, now: Time)
    requires AgreeFrom(c, u, t) && t <= now
    ensures Lookup(c, ttl, token, now) == Lookup(u, ttl, token, now)
  {
    assert PosLive(c, token, now) <==> PosLive(u, token, now);
  }

  lemma AgreeBefore(ttl: Time, run: Trace)
    requires run.Then? && Timed(run)
    requires run.past.Start? ==> At(ttl, run.past, true) == At(ttl, run.past, false)
    requires run.past.Then? ==>
               AgreeFrom(At(ttl, run.past, true).cache, At(ttl, run.past, false).cache, run.past.event.at)
    ensures AgreeFrom(At(ttl, run.past, true).cache, At(ttl, run.past, false).cache, run.event.at)
  {
    hide At;
  }

  lemma {:induction false} AlwaysAgree(ttl: Time, run: Trace)
    requires Timed(run)
    ensures At(ttl, run, true).pending == At(ttl, run, false).pending
    ensures run.Start? ==> At(ttl, run, true) == At(ttl, run, false)
    ensures run.Then? ==> AgreeFrom(At(ttl, run, true).cache, At(ttl, run, false).cache, run.event.at)
  {
    if run.Then? {
      AlwaysAgree(ttl, run.past);
      BegunInPast(ttl, run.past, true);
      AgreeBefore(ttl, run);
      var s, u, e := At(ttl, run.past, true), At(ttl, run.past, false), run.event;
      hide AgreeFrom, Recorded, Lookup;
      if e.Ask? {
        SameLookup(s.cache, u.cache, e.at, ttl, e.token, e.at);
      } else if e.id in s.pending {
        RecordedAgrees(s.cache, u.cache, e.at, ttl, s.pending[e.id].token, s.pending[e.id].begun, e.outcome);
      }
    }
  }

  /** Dropping expired entries past 1024 changes no answer of any interleaved run. */
  lemma PruningInvisible(ttl: Time, run: Trace)
    requires run.Then? && Timed(run)
    ensures AnswerOf(At(ttl, run.past, true), ttl, run.event) == AnswerOf(At(ttl, run.past, false), ttl, run.event)
  {
    AlwaysAgree(ttl, run.past);
    AgreeBefore(ttl, run);
    hide At, AgreeFrom, Lookup;
    var s, u, e := At(ttl, run.past, true), At(ttl, run.past, false), run.event;
    if e.Ask? {
      SameLookup(s.cache, u.cache, e.at, ttl, e.token, e.at);
    }
  }

  // ----- answers are remembered

  /** `later` continues `run` without a reply for the token. */
  ghost predicate Quiet(ttl: Time, later: Trace, run: Trace, token: Token) {
    later == run ||
    (later.Then? && Quiet(ttl, later.past, run, token) &&
     (later.event.Reply? ==> TokenOf(At(ttl, later.past, true), later.event) != Some(token)))
  }

  /** A request for another token drops only what had expired when it began. */
  lemma EntriesStay(c: Cache, ttl: Time, other: Token, begun: Time, o: Outcome, token: Token)
    requires token != other
    ensures var r := Recorded(c, ttl, other, begun, o, true);
            && (token in c.pos && c.pos[token].expiry > begun ==> token in r.pos && r.pos[token] == c.pos[token])
            && (token in c.neg && c.neg[token] > begun ==> token in r.neg && r.neg[token] == c.neg[token])
  {
  }

  lemma {:induction false} EntryLasts(ttl: Time, later: Trace, run: Trace, token: Token, expiry: Time)
    requires Timed(later) && Quiet(ttl, later, run, token) && (later.Then? ==> later.event.at < expiry)
    ensures var c := At(ttl, run, true).cache; var c' := At(ttl, later, true).cache;
            && (token in c.pos && c.pos[token].expiry == expiry ==> token in c'.pos && c'.pos[token] == c.pos[token])
            && (token in c.neg && c.neg[token] == expiry ==> token in c'.neg && c'.neg[token] == c.neg[token])
  {
    if later != run {
      var s, e := At(ttl, later.past, true), later.event;
      EntryLasts(ttl, later.past, run, token, expiry);
      BegunInPast(ttl, later.past, true);
      if e.Reply? && e.id in s.pending {
        EntriesStay(s.cache, ttl, s.pending[e.id].token, s.pending[e.id].begun, e.outcome, token);
      }
      hide Recorded, Lookup;
    }
  }

  lemma RecordedItself(c: Cache, ttl: Time, token: Token, begun: Time, o: Outcome)
    requires ttl > 0.0 && !o.Garbled?
    ensures var r := Recorded(c, ttl, token, begun, o, true);
            if o.Verified? then token in r.pos && r.pos[token] == Entry(o.claims, begun + ttl)
            else token in r.neg && r.neg[token] == begun + ttl
  {
  }

  /** Until `ttl` after its request began, an answer spares every further request for its token,
      whatever happens to other tokens meanwhile; and a grant stays that grant. */
  lemma VerdictRemembered(ttl: Time, run: Trace, later: Trace, id: RequestId, at: Time)
    requires ttl > 0.0 && run.Then? && run.event.Reply? && !run.event.outcome.Garbled?
    requires run.event.id in At(ttl, run.past, true).pending
    requires var r := At(ttl, run.past, true).pending[run.event.id];
             && Quiet(ttl, later, run, r.token) && Timed(Then(later, Ask(id, r.token, at)))
             && 0.0 <= at < r.begun + ttl && id !in At(ttl, later, true).pending
    ensures var r := At(ttl, run.past, true).pending[run.event.id];
            var answer := AnswerOf(At(ttl, later, true), ttl, Ask(id, r.token, at));
            && answer.Some?
            && (run.event.outcome.Verified? ==> answer == Some(Granted(run.event.outcome.claims)))
  {
    var s := At(ttl, run.past, true);
    var r := s.pending[run.event.id];
    RecordedItself(s.cache, ttl, r.token, r.begun, run.event.outcome);
    EntryLasts(ttl, later, run, r.token, r.begun + ttl);
    hide Recorded, Quiet;
  }
}
