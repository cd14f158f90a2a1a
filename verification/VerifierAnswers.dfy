/** What every verification answers, asynchronous or blocking, read off the history. */
module VerifierAnswers {
  import opened Sequences
  import opened IdentityCache
  import opened VerifierRuns
  import opened VerifierExclusion

  // ----- interleaved verifications

  /** A token's latest grant is younger than `ttl`. */
  predicate GrantLives(ttl: Time, run: Trace, token: Token, now: Time) {
    var g := LastGrant(ttl, run, token);
    g.Some? && now < g.value + ttl
  }

  /** A denial since the latest grant is younger than `ttl`. */
  predicate DenialLives(ttl: Time, run: Trace, token: Token, now: Time) {
    var d := DenialAfter(ttl, run, token);
    d.Some? && now < d.value + ttl && d.value + ttl != 0.0
  }

  /** A new verification is answered with the claims of the latest grant while that lives, else with a
      denial while one since lives; otherwise, and only then, it asks the identity service. */
  lemma AskExactly(ttl: Time, run: Trace, id: RequestId, token: Token, now: Time)
    requires ttl > 0.0 && Timed(Then(run, Ask(id, token, now))) && id !in At(ttl, run, true).pending
    ensures var answer := AnswerOf(At(ttl, run, true), ttl, Ask(id, token, now));
            if GrantLives(ttl, run, token, now) then
              GrantedClaims(ttl, run, token).Some? && answer == Some(Granted(GrantedClaims(ttl, run, token).value))
            else if DenialLives(ttl, run, token, now) then answer == Some(CachedDenial)
            else answer == None && Next(At(ttl, run, true), ttl, Ask(id, token, now), true).pending ==
                                   At(ttl, run, true).pending[id := Request(token, now)]
  {
    CachesExactly(ttl, run, token, now);
    hide At, LastGrant, DenialAfter, GrantedClaims;
  }

  /** The reply of the identity service decides the answer of its request: verified claims are granted,
      a body that does not parse breaks, everything else is refused. */
  lemma ReplyExactly(s: State, ttl: Time, id: RequestId, o: Outcome, at: Time)
    requires id in s.pending
    ensures match o
            case Verified(claims) => AnswerOf(s, ttl, Reply(id, o, at)) == Some(Granted(claims))
            case Garbled => AnswerOf(s, ttl, Reply(id, o, at)) == Some(Broken)
            case _ => AnswerOf(s, ttl, Reply(id, o, at)) == Some(Refused)
  {
  }

  /** After a recording each cache has at most 1024 entries, or none that had expired when the request
      began. */
  lemma RecordingPrunes(c: Cache, ttl: Time, token: Token, begun: Time, o: Outcome)
    requires ttl > 0.0 && !o.Garbled?
    ensures var r := Recorded(c, ttl, token, begun, o, true);
            if o.Verified? then |r.pos| <= 1024 || forall t :: t in r.pos ==> r.pos[t].expiry > begun
            else |r.neg| <= 1024 || forall t :: t in r.neg ==> r.neg[t] > begun
  {
  }

  // ----- one verification at a time

  /** The answer of the last of sequential verifications: that of the cache, if it has one, else that
      of the identity service. */
  ghost predicate IsAnswer(ttl: Time, calls: Run<Call>, answer: Answer)
    requires calls.Then?
  {
    var c := calls.event;
    var hit := AnswerOf(At(ttl, Serial(calls.past), true), ttl, Ask(0, c.token, c.now));
    Some(answer) == if hit.Some? then hit else AnswerOf(Asked(ttl, calls), ttl, Reply(0, c.outcome, c.now))
  }

  /** What the identity service's outcome answers. */
  ghost predicate Answers(o: Outcome, answer: Answer) {
    match o
    case Verified(claims) => answer == Granted(claims)
    case Garbled => answer == Broken
    case _ => answer == Refused
  }

  lemma AskedPending(ttl: Time, calls: Run<Call>)
    requires calls.Then? && TimedCalls(calls)
    ensures var c := calls.event; var s := At(ttl, Serial(calls.past), true);
            && Timed(Then(Serial(calls.past), Ask(0, c.token, c.now))) && s.pending == map[]
            && Asked(ttl, calls) == Next(s, ttl, Ask(0, c.token, c.now), true)
  {
    SerialRun(ttl, calls.past);
  }

  function GrantAnswer(ttl: Time, run: Trace, token: Token): Option<Answer> {
    var claims := GrantedClaims(ttl, run, token);
    if claims.Some? then Some(Granted(claims.value)) else None
  }

  /** The blocking verifier, called any number of times: while the latest grant of a token is younger
      than `ttl` it answers with the claims of that grant, else with a denial while one since is
      younger, and otherwise with what the identity service says now. */
  lemma SerialAnswer(ttl: Time, calls: Run<Call>, answer: Answer)
    requires ttl > 0.0 && calls.Then? && TimedCalls(calls) && IsAnswer(ttl, calls, answer)
    ensures var past, c := Serial(calls.past), calls.event;
            if GrantLives(ttl, past, c.token, c.now) then Some(answer) == GrantAnswer(ttl, past, c.token)
            else if DenialLives(ttl, past, c.token, c.now) then answer == CachedDenial
            else Answers(c.outcome, answer)
  {
    var past, c := Serial(calls.past), calls.event;
    AskedPending(ttl, calls);
    AskExactly(ttl, past, 0, c.token, c.now);
    hide At, GrantLives, DenialLives, GrantedClaims, Lookup;
    if !GrantLives(ttl, past, c.token, c.now) && !DenialLives(ttl, past, c.token, c.now) {
      ReplyExactly(Asked(ttl, calls), ttl, 0, c.outcome, c.now);
    }
  }

  /** Every reply of the identity service was its fixed verdict. */
  ghost predicate FixedVerdicts(calls: Run<Call>, oracle: Oracle) {
    calls.Start? || (FixedVerdicts(calls.past, oracle) && calls.event.outcome == Verdict(oracle(calls.event.token)))
  }

  lemma {:induction false} SerialFaithful(ttl: Time, calls: Run<Call>, oracle: Oracle)
    requires FixedVerdicts(calls, oracle) && TimedCalls(calls)
    ensures Faithful(ttl, Serial(calls), oracle)
  {
    if calls.Then? {
      SerialFaithful(ttl, calls.past, oracle);
      AskedPending(ttl, calls);
      hide Verdict;
    }
  }

  /** With a fixed verdict per token the blocking verifier answers that verdict every time, from its
      caches or not. */
  lemma SerialVerifierIsOracle(ttl: Time, calls: Run<Call>, answer: Answer, oracle: Oracle)
    requires calls.Then? && TimedCalls(calls) && FixedVerdicts(calls, oracle) && IsAnswer(ttl, calls, answer)
    ensures var v := oracle(calls.event.token);
            if v.Some? then answer == Granted(v.value) else answer == CachedDenial || answer == Refused
  {
    var c := calls.event;
    var asked := Then(Serial(calls.past), Ask(0, c.token, c.now));
    SerialFaithful(ttl, calls.past, oracle);
    SerialFaithful(ttl, calls, oracle);
    AskedPending(ttl, calls);
    assert Faithful(ttl, asked, oracle);
    hide At, Faithful, Verdict;
    if AnswerOf(At(ttl, Serial(calls.past), true), ttl, asked.event).Some? {
      CachedVerifierIsOracle(ttl, asked, oracle);
    } else {
      CachedVerifierIsOracle(ttl, Serial(calls), oracle);
    }
  }

  lemma AfterOne(ttl: Time, calls: Run<Call>)
    requires calls.Then?
    ensures AfterCalls(ttl, calls) ==
            Next(Asked(ttl, calls), ttl, Reply(0, calls.event.outcome, calls.event.now), true).cache
  {
  }

  /** One more call of the blocking verifier, in a sequence of calls: the object keeps the cache of the
      run, and gives the run's answer. */
  method VerifyNext(v: Verifier, ghost past: Run<Call>, token: Token, now: Time, o: Outcome) returns (answer: Answer)
    requires v.View() == AfterCalls(v.ttl, past) && TimedCalls(Then(past, Call(token, now, o)))
    modifies v
    ensures v.View() == AfterCalls(v.ttl, Then(past, Call(token, now, o)))
    ensures IsAnswer(v.ttl, Then(past, Call(token, now, o)), answer)
  {
    ghost var calls := Then(past, Call(token, now, o));
    AskedPending(v.ttl, calls);
    AfterOne(v.ttl, calls);
    answer := v.VerifySync(token, now, o);
  }
}
