/** The token verifier with its positive and negative caches. A verification that misses
    both caches is a request that begins, awaits the identity service, and finishes; other
    verifications run in between. */
module IdentityCache {
  import opened Sequences

  type Token = string
  type Claims = string
  type Time = real

  datatype Entry = Entry(claims: Claims, expiry: Time)

  datatype Cache = Cache(pos: map<Token, Entry>, neg: map<Token, Time>)

  const EMPTY := Cache(map[], map[])
  const MAX_ENTRIES := 1024

  /** What the identity service makes of a request; `Garbled` is a success without valid JSON. */
  datatype Outcome = Verified(claims: Claims) | Denied | Unreachable | Garbled

  datatype Answer = Granted(claims: Claims) | CachedDenial | Refused | Broken

  // ----- the two halves of a verification

  predicate PosLive(c: Cache, token: Token, now: Time) {
    token in c.pos && c.pos[token].expiry > now
  }

  /** An expiry of zero is falsy and never counts. */
  predicate NegLive(c: Cache, token: Token, now: Time) {
    token in c.neg && c.neg[token] != 0.0 && c.neg[token] > now
  }

  /** The cache lookup; the positive cache comes first. */
  function Lookup(c: Cache, ttl: Time, token: Token, now: Time): Option<Answer> {
    if ttl <= 0.0 then None
    else if PosLive(c, token, now) then Some(Granted(c.pos[token].claims))
    else if NegLive(c, token, now) then Some(CachedDenial)
    else None
  }

  function Direct(o: Outcome): Answer {
    match o
    case Verified(claims) => Granted(claims)
    case Garbled => Broken
    case _ => Refused
  }

  function PrunedPos(pos: map<Token, Entry>, begun: Time): map<Token, Entry> {
    map t | t in pos && pos[t].expiry > begun :: pos[t]
  }

  function PrunedNeg(neg: map<Token, Time>, begun: Time): map<Token, Time> {
    map t | t in neg && neg[t] > begun :: neg[t]
  }

  /** What a finished request records. Expiry and pruning go by the time the request began.
      With `prune` off, nothing is ever dropped. */
  function Recorded(c: Cache, ttl: Time, token: Token, begun: Time, o: Outcome, prune: bool): Cache {
    if ttl <= 0.0 || o.Garbled? then c
    else if o.Verified? then
      var pos := c.pos[token := Entry(o.claims, begun + ttl)];
      Cache(if prune && |pos| > MAX_ENTRIES then PrunedPos(pos, begun) else pos, c.neg - {token})
    else
      var neg := c.neg[token := begun + ttl];
      Cache(c.pos, if prune && |neg| > MAX_ENTRIES then PrunedNeg(neg, begun) else neg)
  }

  // ----- events of interleaved verifications

  type RequestId = nat

  datatype Request = Request(token: Token, begun: Time)

  datatype Event =
    | Ask(id: RequestId, token: Token, at: Time)
    | Reply(id: RequestId, outcome: Outcome, at: Time)

  datatype State = State(cache: Cache, pending: map<RequestId, Request>)

  type Trace = Run<Event>

  /** A verification that hits a cache ends at once; one that misses stays pending. A request id
      that is still pending, or is not, makes the event void. */
  function Next(s: State, ttl: Time, e: Event, prune: bool): State {
    match e
    case Ask(id, token, at) =>
      if id in s.pending || Lookup(s.cache, ttl, token, at).Some? then s
      else s.(pending := s.pending[id := Request(token, at)])
    case Reply(id, o, at) =>
      if id !in s.pending then s
      else State(Recorded(s.cache, ttl, s.pending[id].token, s.pending[id].begun, o, prune), s.pending - {id})
  }

  function At(ttl: Time, run: Trace, prune: bool): State {
    if run.Start? then State(EMPTY, map[]) else Next(At(ttl, run.past, prune), ttl, run.event, prune)
  }

  /** The answer the event gives to its caller, if it gives one. */
  function AnswerOf(s: State, ttl: Time, e: Event): Option<Answer> {
    match e
    case Ask(id, token, at) => if id in s.pending then None else Lookup(s.cache, ttl, token, at)
    case Reply(id, o, at) => if id in s.pending then Some(Direct(o)) else None
  }

  /** The token the event is about, if it has one. */
  function TokenOf(s: State, e: Event): Option<Token> {
    match e
    case Ask(id, token, at) => Some(token)
    case Reply(id, o, at) => if id in s.pending then Some(s.pending[id].token) else None
  }

  ghost predicate Timed(run: Trace) {
    run.Start? || (Timed(run.past) && (run.past.Then? ==> run.past.event.at <= run.event.at))
  }

  /** The identity service answered `o` for `token`, to a request begun at `begun`. */
  ghost predicate Produced(ttl: Time, run: Trace, token: Token, o: Outcome, begun: Time) {
    run.Then? &&
    (Produced(ttl, run.past, token, o, begun) ||
     var s := At(ttl, run.past, true);
     run.event.Reply? && run.event.id in s.pending && s.pending[run.event.id] == Request(token, begun) &&
     run.event.outcome == o && begun <= run.event.at)
  }

  // ----- the verifier object

  class Verifier {
    const ttl: Time
    var pos: map<Token, Entry>
    var neg: map<Token, Time>

    ghost function View(): Cache
      reads this
    {
      Cache(pos, neg)
    }

    constructor (ttl: Time)
      ensures this.ttl == ttl && View() == EMPTY
    {
      this.ttl := ttl;
      pos, neg := map[], map[];
    }

    /** The code up to the request: answers from a cache, or None to go on. */
    method Begin(token: Token, now: Time) returns (answer: Option<Answer>)
      ensures answer == Lookup(View(), ttl, token, now)
    {
      if ttl > 0.0 {
        if token in pos && pos[token].expiry > now {
          return Some(Granted(pos[token].claims));
        }
        if token in neg && neg[token] != 0.0 && neg[token] > now {
          return Some(CachedDenial);
        }
      }
      return None;
    }

    /** The code after the request, `begun` being the time read before it. */
    method Finish(token: Token, begun: Time, o: Outcome) returns (answer: Answer)
      modifies this
      ensures View() == Recorded(old(View()), ttl, token, begun, o, true)
      ensures match o
              case Verified(claims) => answer == Granted(claims)
              case Garbled => answer == Broken
              case _ => answer == Refused
    {
      answer := Direct(o);
      if ttl > 0.0 {
        match o
        case Garbled =>
        case Verified(claims) =>
          pos := pos[token := Entry(claims, begun + ttl)];
          neg := neg - {token};
          if |pos| > MAX_ENTRIES {
            pos := PrunedPos(pos, begun);
          }
        case _ =>
          neg := neg[token := begun + ttl];
          if |neg| > MAX_ENTRIES {
            neg := PrunedNeg(neg, begun);
          }
      }
    }

    /** `identity_verify_sync`: nothing runs between the lookup and the recording. It does and answers
        what the two events of one asynchronous verification do and answer, one right after the
        other. */
    method VerifySync(token: Token, now: Time, o: Outcome) returns (answer: Answer)
      modifies this
      ensures var s := State(old(View()), map[]);
              var asked := Next(s, ttl, Ask(0, token, now), true);
              && View() == Next(asked, ttl, Reply(0, o, now), true).cache
              && (if AnswerOf(s, ttl, Ask(0, token, now)).Some?
                  then Some(answer) == AnswerOf(s, ttl, Ask(0, token, now))
                  else Some(answer) == AnswerOf(asked, ttl, Reply(0, o, now)))
    {
      var cached := Begin(token, now);
      if cached.Some? {
        return cached.value;
      }
      answer := Finish(token, now, o);
    }
  }
}
