/** When a token is live in both identity caches: read off the history of any interleaving. */
module VerifierExclusion {
  import opened Sequences
  import opened IdentityCache
  import opened VerifierRuns

  // ----- the caches, read off the history

  /** The event ends a pending request for the token. */
  predicate Settles(s: State, e: Event, token: Token) {
    e.Reply? && TokenOf(s, e) == Some(token)
  }

  /** When the request of the latest grant for the token began. */
  function LastGrant(ttl: Time, run: Trace, token: Token): Option<Time> {
    if run.Start? then None
    else
      var s := At(ttl, run.past, true);
      if Settles(s, run.event, token) && run.event.outcome.Verified? then Some(s.pending[run.event.id].begun)
      else LastGrant(ttl, run.past, token)
  }

  /** When the request of the latest denial since the latest grant began; a failed request counts
      as a denial. */
  function DenialAfter(ttl: Time, run: Trace, token: Token): Option<Time> {
    if run.Start? then None
    else
      var s := At(ttl, run.past, true);
      if Settles(s, run.event, token) && !run.event.outcome.Garbled? then
        if run.event.outcome.Verified? then None else Some(s.pending[run.event.id].begun)
      else DenialAfter(ttl, run.past, token)
  }

  /** The claims of the latest grant. */
  function GrantedClaims(ttl: Time, run: Trace, token: Token): Option<Claims> {
    if run.Start? then None
    else if Settles(At(ttl, run.past, true), run.event, token) && run.event.outcome.Verified?
    then Some(run.event.outcome.claims)
    else GrantedClaims(ttl, run.past, token)
  }

  /** The unpruned caches are exactly the latest grant and the latest denial since. */
  ghost predicate Recalls(ttl: Time, run: Trace, token: Token, c: Cache) {
    var g, d := LastGrant(ttl, run, token), DenialAfter(ttl, run, token);
    && (token in c.pos <==> g.Some?) && (g.Some? ==> c.pos[token].expiry == g.value + ttl)
    && (g.Some? ==> GrantedClaims(ttl, run, token) == Some(c.pos[token].claims))
    && (token in c.neg <==> d.Some?) && (d.Some? ==> c.neg[token] == d.value + ttl)
  }

  lemma RecordedRecalls(c: Cache, ttl: Time, token: Token, begun: Time, o: Outcome)
    requires ttl > 0.0
    ensures var r := Recorded(c, ttl, token, begun, o, false);
            && (o.Garbled? ==> r == c)
            && (o.Verified? ==> r.pos == c.pos[token := Entry(o.claims, begun + ttl)] && r.neg == c.neg - {token})
            && (o.Denied? || o.Unreachable? ==> r.pos == c.pos && r.neg == c.neg[token := begun + ttl])
  {
  }

  lemma {:induction false} UnprunedRecalls(ttl: Time, run: Trace, token: Token)
    requires ttl > 0.0 && Timed(run)
    ensures Recalls(ttl, run, token, At(ttl, run, false).cache)
  {
    if run.Then? {
      hide Lookup, AgreeFrom, Recorded;
      UnprunedRecalls(ttl, run.past, token);
      AlwaysAgree(ttl, run.past);
      var u, e := At(ttl, run.past, false), run.event;
      if e.Reply? && e.id in u.pending {
        RecordedRecalls(u.cache, ttl, u.pending[e.id].token, u.pending[e.id].begun, e.outcome);
      }
    }
  }

  /** What lives in the pruned caches, at any time from the last event on. */
  lemma {:induction false} CachesExactly(ttl: Time, run: Trace, token: Token, now: Time)
    requires ttl > 0.0 && Timed(run) && (run.Then? ==> run.event.at <= now)
    ensures var c := At(ttl, run, true).cache;
            var g, d := LastGrant(ttl, run, token), DenialAfter(ttl, run, token);
            && (PosLive(c, token, now) <==> g.Some? && now < g.value + ttl)
            && (PosLive(c, token, now) ==> GrantedClaims(ttl, run, token) == Some(c.pos[token].claims))
            && (NegLive(c, token, now) <==> d.Some? && now < d.value + ttl && d.value + ttl != 0.0)
  {
    UnprunedRecalls(ttl, run, token);
    AlwaysAgree(ttl, run);
    hide At, LastGrant, DenialAfter, GrantedClaims;
    var c, u := At(ttl, run, true).cache, At(ttl, run, false).cache;
    assert PosLive(c, token, now) <==> PosLive(u, token, now);
    assert NegLive(c, token, now) <==> NegLive(u, token, now);
  }

  /** A token is live in both caches if and only if its latest grant and a denial recorded after
      that grant both stem from requests begun less than `ttl` ago. */
  lemma BothLiveExactly(ttl: Time, run: Trace, token: Token, now: Time)
    requires ttl > 0.0 && 0.0 <= now && Timed(run) && (run.Then? ==> run.event.at <= now)
    ensures var c := At(ttl, run, true).cache;
            var g, d := LastGrant(ttl, run, token), DenialAfter(ttl, run, token);
            PosLive(c, token, now) && NegLive(c, token, now) <==>
            g.Some? && d.Some? && now < g.value + ttl && now < d.value + ttl
  {
    CachesExactly(ttl, run, token, now);
  }

  // ----- requests that overlap

  /** The latest denial since the latest grant began before that grant had expired. */
  ghost predicate Overlap(ttl: Time, run: Trace, token: Token) {
    var g, d := LastGrant(ttl, run, token), DenialAfter(ttl, run, token);
    g.Some? && d.Some? && d.value < g.value + ttl
  }

  // ----- one verification at a time

  datatype Call = Call(token: Token, now: Time, outcome: Outcome)

  ghost predicate TimedCalls(calls: Run<Call>) {
    calls.Start? || (TimedCalls(calls.past) && (calls.past.Then? ==> calls.past.event.now <= calls.event.now))
  }

  /** The interleaving in which each verification finishes before the next one begins. */
  function Serial(calls: Run<Call>): (run: Trace)
    ensures run.Start? <==> calls.Start?
    ensures run.Then? ==> run.event.at == calls.event.now
  {
    if calls.Start? then Start
    else
      var c := calls.event;
      Then(Then(Serial(calls.past), Ask(0, c.token, c.now)), Reply(0, c.outcome, c.now))
  }

  function AfterCalls(ttl: Time, calls: Run<Call>): Cache {
    At(ttl, Serial(calls), true).cache
  }

  /** The state between the two events of the last verification. */
  function Asked(ttl: Time, calls: Run<Call>): State
    requires calls.Then?
  {
    At(ttl, Then(Serial(calls.past), Ask(0, calls.event.token, calls.event.now)), true)
  }

  lemma SerialStep(ttl: Time, calls: Run<Call>)
    requires calls.Then? && TimedCalls(calls)
    requires Timed(Serial(calls.past)) && At(ttl, Serial(calls.past), true).pending == map[]
    ensures Timed(Serial(calls)) && At(ttl, Serial(calls), true).pending == map[]
    ensures var c := calls.event;
            Asked(ttl, calls).pending ==
            if Lookup(AfterCalls(ttl, calls.past), ttl, c.token, c.now).Some? then map[]
            else map[0 := Request(c.token, c.now)]
  {
    hide Recorded, Lookup;
    var c := calls.event;
    var asked := Then(Serial(calls.past), Ask(0, c.token, c.now));
    assert Timed(asked);
    assert map[0 := Request(c.token, c.now)] - {0} == map[];
  }

  lemma {:induction false} SerialRun(ttl: Time, calls: Run<Call>)
    requires TimedCalls(calls)
    ensures Timed(Serial(calls)) && At(ttl, Serial(calls), true).pending == map[]
  {
    if calls.Then? {
      SerialRun(ttl, calls.past);
      SerialStep(ttl, calls);
    }
  }

  /** One at a time, a denial since the latest grant can only begin when that grant has expired. */
  lemma {:induction false} SerialApart(ttl: Time, calls: Run<Call>, token: Token)
    requires ttl > 0.0 && TimedCalls(calls)
    ensures !Overlap(ttl, Serial(calls), token)
  {
    if calls.Then? {
      var c := calls.event;
      var asked := Then(Serial(calls.past), Ask(0, c.token, c.now));
      SerialApart(ttl, calls.past, token);
      SerialRun(ttl, calls.past);
      SerialStep(ttl, calls);
      CachesExactly(ttl, Serial(calls.past), token, c.now);
      hide At, Recorded, PosLive, NegLive;
      assert LastGrant(ttl, asked, token) == LastGrant(ttl, Serial(calls.past), token);
      assert DenialAfter(ttl, asked, token) == DenialAfter(ttl, Serial(calls.past), token);
    }
  }

  lemma {:induction false} DenialInThePast(ttl: Time, run: Trace, token: Token)
    requires Timed(run)
    ensures DenialAfter(ttl, run, token).Some? ==> run.Then? && DenialAfter(ttl, run, token).value <= run.event.at
  {
    if run.Then? {
      hide At;
      DenialInThePast(ttl, run.past, token);
      BegunInPast(ttl, run.past, true);
    }
  }

  lemma {:induction false} NothingCached(ttl: Time, run: Trace)
    requires ttl <= 0.0
    ensures At(ttl, run, true).cache == EMPTY
  {
    if run.Then? {
      NothingCached(ttl, run.past);
    }
  }

  /** When each verification finishes before the next one begins, no token is ever live in both
      caches. */
  lemma {:induction false} NeverBoth(ttl: Time, calls: Run<Call>, token: Token, now: Time)
    requires TimedCalls(calls) && (calls.Then? ==> calls.event.now <= now)
    ensures !(PosLive(AfterCalls(ttl, calls), token, now) && NegLive(AfterCalls(ttl, calls), token, now))
  {
    if ttl > 0.0 {
      SerialRun(ttl, calls);
      hide At, LastGrant, DenialAfter;
      CachesExactly(ttl, Serial(calls), token, now);
      SerialApart(ttl, calls, token);
      DenialInThePast(ttl, Serial(calls), token);
    } else {
      NothingCached(ttl, Serial(calls));
    }
  }

  /** Two overlapping requests for one token, the first granted and the second denied, leave the
      token live in both caches; the positive one then wins. */
  lemma InterleavingAllowsBoth(ttl: Time, token: Token, claims: Claims, at: Time)
    requires ttl > 0.0 && at > 0.0
    ensures var run := Then(Then(Then(Then(Start, Ask(0, token, at)), Ask(1, token, at)),
                                 Reply(0, Verified(claims), at)), Reply(1, Denied, at));
            var c := At(ttl, run, true).cache;
            && Timed(run) && Overlap(ttl, run, token) && PosLive(c, token, at) && NegLive(c, token, at)
            && Lookup(c, ttl, token, at) == Some(Granted(claims))
  {
    hide Recorded;
    var r1 := Then(Start, Ask(0, token, at));
    var r2 := Then(r1, Ask(1, token, at));
    var r3 := Then(r2, Reply(0, Verified(claims), at));
    var run := Then(r3, Reply(1, Denied, at));
    assert Timed(r1) && Timed(r2) && Timed(r3) && Timed(run);
    assert At(ttl, r1, true) == State(EMPTY, map[0 := Request(token, at)]);
    assert At(ttl, r2, true) == State(EMPTY, map[0 := Request(token, at), 1 := Request(token, at)]);
    assert At(ttl, r3, true).pending == map[1 := Request(token, at)];
    assert LastGrant(ttl, run, token) == Some(at) && DenialAfter(ttl, run, token) == Some(at);
    BothLiveExactly(ttl, run, token, at);
    RecordedItself(EMPTY, ttl, token, at, Verified(claims));
    RecordedEntries(At(ttl, r3, true).cache, ttl, token, at, Denied, token);
  }
}
