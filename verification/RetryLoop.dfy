/** The retry loop of the gateway client, over a sequence of attempt outcomes. */
module RetryLoop {
  import opened Sequences

  /** What one attempt comes to: a response with a JSON body, a success whose body does not
      parse, an HTTP error status, a timeout or transport error, any other request error. */
  datatype Attempt = Success | BadBody | Status(code: int) | Transient | RequestError

  datatype Result =
    | Returned
    | DecodeError
    | HttpFailure(code: int)
    | RequestFailure
    | Exhausted(lastStatus: Option<int>)

  datatype Metric = Metric(ok: bool, retries: int)

  const RETRYABLE_STATUS := {429, 500, 502, 503, 504}
  const IDEMPOTENT_METHODS := {"GET", "HEAD", "OPTIONS", "PUT", "DELETE"}
  const RETRY_BACKOFF_BASE := 0.4

  function Pow2(n: nat): (r: real)
    ensures r >= 1.0
  {
    if n == 0 then 1.0 else 2.0 * Pow2(n - 1)
  }

  /** Full jitter: anything between zero and the exponential bound. */
  ghost predicate Jittered(jitter: nat -> real) {
    forall a :: 0.0 <= jitter(a) <= RETRY_BACKOFF_BASE * Pow2(a)
  }

  /** The outcome is not retried. A status is retried only if it is a retryable one and the
      method (in upper case) may be repeated after it reached the server. */
  predicate Final(verb: string, o: Attempt) {
    match o
    case Transient => false
    case Status(code) => code !in RETRYABLE_STATUS || verb !in IDEMPOTENT_METHODS
    case _ => true
  }

  predicate GotResponse(o: Attempt) {
    o.Success? || o.BadBody? || o.Status?
  }

  /** The first final outcome among the first `n`, or `n` if there is none. */
  function FirstFinal(verb: string, outcome: nat -> Attempt, n: nat): (i: nat)
    ensures i <= n
    ensures i < n ==> Final(verb, outcome(i))
    ensures forall j :: 0 <= j < i ==> !Final(verb, outcome(j))
  {
    if n == 0 then 0
    else
      var i := FirstFinal(verb, outcome, n - 1);
      if i < n - 1 || Final(verb, outcome(n - 1)) then i else n
  }

  function LastStatus(outcome: nat -> Attempt, n: nat): Option<int> {
    if n == 0 then None
    else if outcome(n - 1).Status? then Some(outcome(n - 1).code)
    else LastStatus(outcome, n - 1)
  }

  function Slept(jitter: nat -> real, n: nat): real {
    if n == 0 then 0.0 else Slept(jitter, n - 1) + jitter(n - 1)
  }

  /** The result of a final outcome. */
  function ResultOf(o: Attempt): Result {
    match o
    case Success => Returned
    case BadBody => DecodeError
    case Status(code) => HttpFailure(code)
    case _ => RequestFailure
  }

  /** How many attempts `range(retries + 1)` allows. */
  function Budget(retries: int): nat {
    if retries < 0 then 0 else retries + 1
  }

  lemma FirstFinalIs(verb: string, outcome: nat -> Attempt, n: nat, i: nat)
    requires i <= n && (i < n ==> Final(verb, outcome(i)))
    requires forall j :: 0 <= j < i ==> !Final(verb, outcome(j))
    ensures FirstFinal(verb, outcome, n) == i
  {
    var f := FirstFinal(verb, outcome, n);
    if f != i {
      assert false;
    }
  }

  /** `_request`: one attempt after the other until a final outcome or the budget is spent. A
      gateway error and a success record one metric each; a body that does not parse escapes
      without any. */
  method Request(verb: string, retries: int, outcome: nat -> Attempt, jitter: nat -> real)
    returns (result: Result, attempts: nat, slept: real, recorded: seq<Metric>)
    ensures var n := Budget(retries); var i := FirstFinal(verb, outcome, n);
            && attempts == (if i < n then i + 1 else n)
            && result == (if i < n then ResultOf(outcome(i)) else Exhausted(LastStatus(outcome, n)))
            && slept == Slept(jitter, if i < n || n == 0 then i else n - 1)
            && recorded == if i < n && outcome(i).BadBody? then [] else [Metric(result.Returned?, i)]
    ensures retries < 0 ==> attempts == 0 && result == Exhausted(None) && slept == 0.0 && recorded == [Metric(false, 0)]
  {
    var lastStatus: Option<int> := None;
    var retriesDone := 0;
    attempts, slept, recorded := 0, 0.0, [];
    var n := Budget(retries);
    while attempts < n
      invariant attempts <= n && retriesDone == attempts && recorded == []
      invariant forall j :: 0 <= j < attempts ==> !Final(verb, outcome(j))
      invariant lastStatus == LastStatus(outcome, attempts)
      invariant slept == Slept(jitter, if attempts < n || n == 0 then attempts else n - 1)
    {
      var attempt := attempts;
      attempts := attempts + 1;
      match outcome(attempt) {
      case Success =>
        recorded := [Metric(true, retriesDone)];
        FirstFinalIs(verb, outcome, n, attempt);
        return Returned, attempts, slept, recorded;
      case BadBody =>
        FirstFinalIs(verb, outcome, n, attempt);
        return DecodeError, attempts, slept, recorded;
      case Status(code) =>
        lastStatus := Some(code);
        if code !in RETRYABLE_STATUS || verb !in IDEMPOTENT_METHODS {
          recorded := [Metric(false, retriesDone)];
          FirstFinalIs(verb, outcome, n, attempt);
          return HttpFailure(code), attempts, slept, recorded;
        }
        retriesDone := retriesDone + 1;
      case Transient =>
        retriesDone := retriesDone + 1;
      case RequestError =>
        recorded := [Metric(false, retriesDone)];
        FirstFinalIs(verb, outcome, n, attempt);
        return RequestFailure, attempts, slept, recorded;
      }
      if attempt < retries {
        slept := slept + jitter(attempt);
      }
    }
    FirstFinalIs(verb, outcome, n, n);
    result, recorded := Exhausted(lastStatus), [Metric(false, retriesDone)];
  }

  // ----- what the loop guarantees

  lemma {:induction false} SleepBound(jitter: nat -> real, n: nat)
    requires Jittered(jitter)
    ensures 0.0 <= Slept(jitter, n) <= RETRY_BACKOFF_BASE * (Pow2(n) - 1.0)
  {
    if n > 0 {
      SleepBound(jitter, n - 1);
    }
  }

  lemma {:induction false} Pow2Grows(m: nat, n: nat)
    requires m <= n
    ensures Pow2(m) <= Pow2(n)
  {
    if m < n {
      Pow2Grows(m, n - 1);
    }
  }

  lemma SleepWithin(jitter: nat -> real, m: nat, n: nat)
    requires Jittered(jitter) && m <= n
    ensures 0.0 <= Slept(jitter, m) <= RETRY_BACKOFF_BASE * (Pow2(n) - 1.0)
  {
    SleepBound(jitter, m);
    Pow2Grows(m, n);
  }

  /** Every attempt but the last was retried for a reason: no response at all, or a retryable
      status of a repeatable method. So a request that must not be repeated gets at most one
      response, as its last attempt. */
  lemma EarlierAttempts(verb: string, retries: int, outcome: nat -> Attempt, j: nat)
    requires j + 1 < if FirstFinal(verb, outcome, Budget(retries)) < Budget(retries)
                     then FirstFinal(verb, outcome, Budget(retries)) + 1 else Budget(retries)
    ensures outcome(j).Transient? ||
            (outcome(j).Status? && outcome(j).code in RETRYABLE_STATUS && verb in IDEMPOTENT_METHODS)
    ensures verb !in IDEMPOTENT_METHODS ==> !GotResponse(outcome(j))
  {
    assert !Final(verb, outcome(j));
  }

  /** The failures that are tried again: a timeout or transport error always, five statuses if the
      method may be repeated. */
  predicate TriedAgain(verb: string, o: Attempt) {
    || o.Transient?
    || (o.Status? && (o.code == 429 || o.code == 500 || o.code == 502 || o.code == 503 || o.code == 504)
        && (verb == "GET" || verb == "HEAD" || verb == "OPTIONS" || verb == "PUT" || verb == "DELETE"))
  }

  lemma FinalMeans(verb: string, o: Attempt)
    ensures Final(verb, o) <==> !TriedAgain(verb, o)
  {
  }

  /** The latest status among the first `n` outcomes. */
  lemma {:induction false} LastStatusIs(outcome: nat -> Attempt, n: nat)
    ensures LastStatus(outcome, n) == None ==> forall j :: 0 <= j < n ==> !outcome(j).Status?
    ensures LastStatus(outcome, n).Some? ==>
              exists j :: 0 <= j < n && outcome(j) == Status(LastStatus(outcome, n).value) &&
                forall m :: j < m < n ==> !outcome(m).Status?
  {
    if n > 0 {
      LastStatusIs(outcome, n - 1);
      if outcome(n - 1).Status? {
        assert outcome(n - 1) == Status(LastStatus(outcome, n).value);
      }
    }
  }

  /** Between any two attempts, and only there, the loop sleeps once: if all jitters but that of attempt
      `m` are zero, the total is that one exactly if attempt `m` was followed by another. */
  lemma {:induction false} SleepsOnce(jitter: nat -> real, n: nat, m: nat)
    requires forall a :: a != m ==> jitter(a) == 0.0
    ensures Slept(jitter, n) == if m < n then jitter(m) else 0.0
  {
    if n > 0 {
      SleepsOnce(jitter, n - 1, m);
    }
  }

  /** With the default of three retries the waits are at most 0.4, 0.8 and 1.6 seconds, 2.8 in all. */
  lemma DefaultSleep(jitter: nat -> real)
    requires Jittered(jitter)
    ensures jitter(0) <= 0.4 && jitter(1) <= 0.8 && jitter(2) <= 1.6 && Slept(jitter, 3) <= 2.8
    ensures Pow2(0) == 1.0 && Pow2(1) == 2.0 && Pow2(2) == 4.0 && Pow2(3) == 8.0
  {
    assert Pow2(1) == 2.0 && Pow2(2) == 4.0;
    assert jitter(0) <= RETRY_BACKOFF_BASE * Pow2(0) && jitter(1) <= RETRY_BACKOFF_BASE * Pow2(1);
    assert Slept(jitter, 3) == jitter(0) + jitter(1) + jitter(2);
  }

  /** The bound on the total is the sum of the largest waits there can be. */
  lemma {:induction false} LongestSleep(n: nat)
    ensures var longest := (a: nat) => 0.4 * Pow2(a);
            Jittered(longest) && Slept(longest, n) == 0.4 * (Pow2(n) - 1.0)
  {
    if n > 0 {
      LongestSleep(n - 1);
    }
  }

  /** What the last attempt comes to for the caller. */
  predicate Concludes(o: Attempt, result: Result) {
    match o
    case Success => result == Returned
    case BadBody => result == DecodeError
    case Status(code) => result == HttpFailure(code)
    case Transient => false
    case RequestError => result == RequestFailure
  }

  /** The guarantees of one request. Attempts go on exactly while they fail in a way that is tried
      again, at most `retries + 1` times; the result is that of the last attempt, or, when all are
      spent, the latest status. It sleeps between attempts, at most `0.4 * (2^retries - 1)` in all,
      and records one metric unless a body failed to parse. A method that may not be repeated gets
      no attempt after a response. */
  method BoundedRequest(verb: string, retries: nat, outcome: nat -> Attempt, jitter: nat -> real)
    returns (result: Result, attempts: nat, slept: real, recorded: seq<Metric>)
    requires Jittered(jitter)
    ensures 1 <= attempts <= retries + 1
    ensures forall j :: 0 <= j < attempts - 1 ==> TriedAgain(verb, outcome(j))
    ensures attempts <= retries ==> !TriedAgain(verb, outcome(attempts - 1))
    ensures if TriedAgain(verb, outcome(attempts - 1)) then result.Exhausted?
            else Concludes(outcome(attempts - 1), result)
    ensures forall i :: 0 <= i <= retries && outcome(i).Success? &&
                        (forall j :: 0 <= j < i ==> TriedAgain(verb, outcome(j))) ==>
              result == Returned && attempts == i + 1
    ensures result.HttpFailure? ==>
              outcome(attempts - 1) == Status(result.code) && !TriedAgain(verb, outcome(attempts - 1))
    ensures result.Exhausted? ==> attempts == retries + 1
    ensures result == Exhausted(None) ==> forall j :: 0 <= j < attempts ==> !outcome(j).Status?
    ensures result.Exhausted? && result.lastStatus.Some? ==>
              exists j :: 0 <= j < attempts && outcome(j) == Status(result.lastStatus.value) &&
                forall m :: j < m < attempts ==> !outcome(m).Status?
    ensures slept == Slept(jitter, attempts - 1) && 0.0 <= slept <= 0.4 * (Pow2(retries) - 1.0)
    ensures recorded == if result.DecodeError? then []
                        else [Metric(result.Returned?, if result.Exhausted? then attempts else attempts - 1)]
    ensures verb !in IDEMPOTENT_METHODS ==> forall j :: 0 <= j < attempts - 1 ==> !GotResponse(outcome(j))
  {
    result, attempts, slept, recorded := Request(verb, retries, outcome, jitter);
    SleepWithin(jitter, attempts - 1, retries);
    LastStatusIs(outcome, retries + 1);
    forall j: nat ensures Final(verb, outcome(j)) <==> !TriedAgain(verb, outcome(j)) {
      FinalMeans(verb, outcome(j));
    }
  }
}
