/** When the capped rate limiter is as good as an unbounded one, said exactly: in terms of the
    traffic, of what clients can see, and of the plain limit. */
module RateLimiterBoundary {
  import opened Sequences
  import opened RateLimiter
  import opened RateLimiterRuns
  import opened RateLimiterTheorems

  // ----- in terms of the traffic

  lemma VictimsOfFull(cfg: Config, t: Table, now: Time)
    requires Victims(cfg, t, now) == []
    ensures |t.order| < TableCap(cfg)
  {
    SortByProps(t.order, Age(t, now));
    hide SortBy, Age;
  }

  /** A key that is live in the reference survives the dropping of stale keys. */
  lemma LiveKeyKept(cfg: Config, calls: Calls, now: Time, k: Key)
    requires Timed(calls) && NoForced(cfg, calls) && (calls.Then? ==> now >= calls.event.evictNow)
    requires k in LiveKeys(cfg, calls, now - cfg.window)
    ensures k in TableAfter(cfg, calls).log && k in Pruned(cfg, TableAfter(cfg, calls), now).log
  {
    var cutoff := now - cfg.window;
    LiveKeyStored(cfg, calls, k, cutoff);
    hide Pruned, TableAfter, Live, Bucket, Since, IdealLog, Faithful, NoForced, Step;
    TableWellFormed(cfg, calls);
    UnforcedIsFaithful(cfg, calls);
    PrunedBucket(cfg, TableAfter(cfg, calls), now, k, cutoff);
    BucketMeaning(cfg, calls, k, cutoff);
    assert Since(cfg, calls, k) == IdealLog(cfg, calls, k);
  }

  lemma FewerThan(cfg: Config, t: Table, live: set<Key>, k: Key, n: int)
    requires WellFormed(t) && live <= t.log.Keys
    requires |t.order| < n || (|t.order| <= n && k in t.log && k !in live)
    ensures |live| < n
  {
    DistinctCard(t.order);
    if |t.order| < n {
      SubsetSize(live, t.log.Keys);
    } else {
      SubsetSize(live, t.log.Keys - {k});
    }
  }

  lemma LastUnforced(cfg: Config, calls: Calls)
    requires calls.Then? && Timed(calls) && NoForced(cfg, calls)
    ensures Timed(calls.past) && NoForced(cfg, calls.past)
    ensures calls.event.now <= calls.event.evictNow
    ensures calls.past.Then? ==> calls.past.event.evictNow <= calls.event.now
    ensures ForcedOut(cfg, TableAfter(cfg, calls.past), calls.event) == []
  {
    hide ForcedOut;
  }

  /** What is not in the window is not in any later one. */
  lemma NotLiveLater(cfg: Config, calls: Calls, k: Key, cutoff: Time, later: Time)
    requires cutoff <= later && Live(IdealLog(cfg, calls, k), cutoff) == []
    ensures k !in LiveKeys(cfg, calls, later)
  {
    hide Live, IdealLog;
    LiveLive(IdealLog(cfg, calls, k), cutoff, later);
    NothingLive(later);
  }

  /** A key without a hit in the window, according to the reference, is admitted. */
  lemma CallerAdmitted(cfg: Config, calls: Calls)
    requires cfg.limit >= 1 && calls.Then? && Timed(calls) && NoForced(cfg, calls)
    requires Live(IdealLog(cfg, calls.past, calls.event.key), calls.event.now - cfg.window) == []
    ensures Accepts(cfg, TableAfter(cfg, calls.past), calls.event)
  {
    hide Live, TableAfter, Since, IdealLog, Timed, NoForced, ForcedOut, Faithful;
    LastUnforced(cfg, calls);
    UnforcedIsFaithful(cfg, calls.past);
    DecisionMeaning(cfg, calls);
    assert Since(cfg, calls.past, calls.event.key) == IdealLog(cfg, calls.past, calls.event.key);
    hide Accepts;
  }

  /** A call that evicts no live key finds room for its own key beside the live ones. */
  lemma RoomInTable(cfg: Config, t: Table, c: Call, live: set<Key>)
    requires WellFormed(t) && |t.order| <= TableCap(cfg)
    requires Accepts(cfg, t, c) && ForcedOut(cfg, t, c) == [] && c.key !in live
    requires forall k :: k in live ==> k in t.log && k in Pruned(cfg, t, c.evictNow).log
    ensures |live| < TableCap(cfg)
  {
    hide Live, Pruned, Victims, Accepts, WellFormed;
    EvictedWellFormed(cfg, t, c.evictNow);
    if MustEvict(cfg, t, c) {
      VictimsOfFull(cfg, Pruned(cfg, t, c.evictNow), c.evictNow);
      FewerThan(cfg, Pruned(cfg, t, c.evictNow), live, c.key, TableCap(cfg));
    } else {
      FewerThan(cfg, t, live, c.key, TableCap(cfg));
    }
  }

  lemma UnforcedStepRoomy(cfg: Config, calls: Calls)
    requires cfg.limit >= 1 && calls.Then? && Timed(calls) && NoForced(cfg, calls)
    requires Live(IdealLog(cfg, calls.past, calls.event.key), calls.event.now - cfg.window) == []
    ensures |LiveKeys(cfg, calls.past, calls.event.evictNow - cfg.window)| < TableCap(cfg)
  {
    hide LiveKeys, Live, Pruned, TableAfter, Accepts, WellFormed, ForcedOut, Timed, NoForced, IdealLog;
    var past, c := calls.past, calls.event;
    LastUnforced(cfg, calls);
    NotLiveLater(cfg, past, c.key, c.now - cfg.window, c.evictNow - cfg.window);
    CallerAdmitted(cfg, calls);
    TableWellFormed(cfg, past);
    TableBounded(cfg, past);
    var live := LiveKeys(cfg, past, c.evictNow - cfg.window);
    forall k | k in live
      ensures k in TableAfter(cfg, past).log && k in Pruned(cfg, TableAfter(cfg, past), c.evictNow).log
    {
      LiveKeyKept(cfg, past, c.evictNow, k);
    }
    RoomInTable(cfg, TableAfter(cfg, past), c, live);
  }

  lemma {:induction false} UnforcedIsRoomy(cfg: Config, calls: Calls)
    requires cfg.limit >= 1 && Timed(calls) && NoForced(cfg, calls)
    ensures Roomy(cfg, calls)
  {
    hide Live, LiveKeys, IdealLog, Timed, NoForced, TableAfter, ForcedOut;
    if calls.Then? {
      LastUnforced(cfg, calls);
      UnforcedIsRoomy(cfg, calls.past);
      if Live(IdealLog(cfg, calls.past, calls.event.key), calls.event.now - cfg.window) == [] {
        UnforcedStepRoomy(cfg, calls);
      }
    }
  }

  /** No live key is ever evicted exactly on the runs in which, whenever a key without a hit in
      the window calls, the live keys leave room for one more in the table. */
  lemma RoomyExactly(cfg: Config, calls: Calls)
    requires cfg.limit >= 1 && Timed(calls)
    ensures NoForced(cfg, calls) <==> Roomy(cfg, calls)
  {
    if Roomy(cfg, calls) {
      RoomyIsUnforced(cfg, calls);
    }
    if NoForced(cfg, calls) {
      UnforcedIsRoomy(cfg, calls);
    }
  }

  /** The boundary in terms of the traffic alone: no client can ever tell the capped limiter from
      the unbounded one exactly if the traffic leaves room in the table at every new key. */
  lemma TrafficIsTheBoundary(cfg: Config, calls: Calls)
    requires cfg.limit >= 1 && cfg.window > 0.0 && Timed(calls)
    ensures Roomy(cfg, calls) <==> forall moment :: Extends(calls, moment) ==> Unobservable(cfg, moment)
  {
    RoomyExactly(cfg, calls);
    ForcedEvictionIsTheBoundary(cfg, calls);
  }

  // ----- in terms of the plain limit

  /** No key has more than `limit` admissions in any stretch no longer than the window. */
  ghost predicate WithinLimit(cfg: Config, calls: Calls) {
    forall k, lo: Time, hi: Time :: hi - lo <= cfg.window ==> Within(Admissions(cfg, calls, k), lo, hi) <= cfg.limit
  }

  /** The plain limit holds however many requests a client sends right after the run. */
  ghost predicate LimitKept(cfg: Config, calls: Calls) {
    calls.Then? ==> forall k, n :: WithinLimit(cfg, Burst(calls, k, n))
  }

  lemma {:induction false} AdmissionsInThePast(cfg: Config, calls: Calls, k: Key)
    requires Timed(calls)
    ensures forall x :: x in Admissions(cfg, calls, k) ==> calls.Then? && x <= calls.event.now
  {
    if calls.Then? {
      hide Accepted;
      AdmissionsInThePast(cfg, calls.past, k);
    }
  }

  lemma {:induction false} NeverEvicted(cfg: Config, calls: Calls, k: Key)
    requires NoForced(cfg, calls)
    ensures Evictions(cfg, calls, k) == []
  {
    if calls.Then? {
      hide Forced;
      NeverEvicted(cfg, calls.past, k);
    }
  }

  /** A burst admits only its own key, and never evicts it. */
  lemma {:induction false} BurstHistory(cfg: Config, calls: Calls, b: Key, n: nat, k: Key)
    requires calls.Then?
    ensures k != b ==> Admissions(cfg, Burst(calls, b, n), k) == Admissions(cfg, calls, k)
    ensures Evictions(cfg, Burst(calls, b, n), b) == Evictions(cfg, calls, b)
  {
    if n > 0 {
      hide Accepted, Forced;
      BurstHistory(cfg, calls, b, n - 1, k);
      var run := Burst(calls, b, n);
      if b in Forced(cfg, run) {
        ForcedStep(cfg, run, b, run.event.now);
      }
    }
  }

  lemma AllowanceOne(cfg: Config)
    requires cfg.limit >= 1
    ensures Allowance(cfg, 1) == cfg.limit
  {
  }

  lemma UnevictedRate(cfg: Config, calls: Calls, k: Key, lo: Time, hi: Time)
    requires cfg.limit >= 1 && Timed(calls) && Evictions(cfg, calls, k) == [] && hi - lo <= cfg.window
    ensures Within(Admissions(cfg, calls, k), lo, hi) <= cfg.limit
  {
    hide Timed, Admissions, Evictions, Within, Allowance;
    RateBound(cfg, calls, k, lo, hi);
    NothingWithin(lo, hi);
    AllowanceOne(cfg);
  }

  lemma UnforcedKeepsLimit(cfg: Config, calls: Calls, b: Key, n: nat)
    requires cfg.limit >= 1 && calls.Then? && Timed(calls) && NoForced(cfg, calls)
    ensures WithinLimit(cfg, Burst(calls, b, n))
  {
    hide Timed, Admissions, Evictions, Within, NoForced, Burst;
    var run := Burst(calls, b, n);
    BurstTimed(calls, b, n);
    forall k, lo: Time, hi: Time | hi - lo <= cfg.window
      ensures Within(Admissions(cfg, run, k), lo, hi) <= cfg.limit
    {
      BurstHistory(cfg, calls, b, n, k);
      NeverEvicted(cfg, calls, k);
      UnevictedRate(cfg, if k == b then run else calls, k, lo, hi);
    }
  }

  lemma {:induction false} BurstAdds(cfg: Config, calls: Calls, v: Key, n: nat)
    requires calls.Then? && Timed(calls) && Since(cfg, calls, v) == [] && cfg.window > 0.0 && n <= cfg.limit
    ensures var d := calls.event.evictNow - cfg.window;
            |Live(Admissions(cfg, Burst(calls, v, n), v), d)| == |Live(Admissions(cfg, calls, v), d)| + n
  {
    hide Live, Accepted, Forced, Since, Admissions, Timed;
    if n > 0 {
      BurstAdds(cfg, calls, v, n - 1);
      BurstAdmitted(cfg, calls, v, n);
      HistoryStep(cfg, Burst(calls, v, n), v, calls.event.evictNow - cfg.window);
    }
  }

  /** The victim of a forced eviction has an admission in the window. */
  lemma VictimAdmitted(cfg: Config, calls: Calls, v: Key)
    requires calls.Then? && Timed(calls) && v in Forced(cfg, calls)
    ensures Live(Admissions(cfg, calls, v), calls.event.evictNow - cfg.window) != []
  {
    hide Live, TableAfter, Since, ForcedOut, Bucket, Accepts, Admissions;
    var d := calls.event.evictNow - cfg.window;
    TableWellFormed(cfg, calls.past);
    ForcedAreLive(cfg, TableAfter(cfg, calls.past), calls.event, v);
    BucketMeaning(cfg, calls.past, v, d);
    SinceWithinAdmissions(cfg, calls.past, v, d);
    HistoryStep(cfg, calls, v, d);
  }

  lemma VictimOverruns(cfg: Config, calls: Calls)
    requires cfg.limit >= 1 && cfg.window > 0.0
    requires calls.Then? && Timed(calls) && Forced(cfg, calls) != []
    ensures !LimitKept(cfg, calls)
  {
    hide Live, Forced, Accepted, Since, Admissions, Within, TableAfter, Timed;
    var v := Forced(cfg, calls)[0];
    var run := Burst(calls, v, cfg.limit);
    var e := calls.event.evictNow;
    SinceForced(cfg, calls, v);
    VictimAdmitted(cfg, calls, v);
    BurstAdds(cfg, calls, v, cfg.limit);
    BurstTimed(calls, v, cfg.limit);
    AdmissionsInThePast(cfg, run, v);
    var admitted := Admissions(cfg, run, v);
    assert forall i :: 0 <= i < |admitted| ==> admitted[i] in admitted;
    WithinLive(admitted, e - cfg.window, e);
    assert Within(Admissions(cfg, run, v), e - cfg.window, e) > cfg.limit;
    assert !WithinLimit(cfg, run);
  }

  lemma {:induction false} SomeMomentOverruns(cfg: Config, calls: Calls) returns (moment: Calls)
    requires cfg.limit >= 1 && cfg.window > 0.0
    requires Timed(calls) && !NoForced(cfg, calls)
    ensures Extends(calls, moment) && !LimitKept(cfg, moment)
  {
    hide Forced, LimitKept;
    if Forced(cfg, calls) != [] {
      VictimOverruns(cfg, calls);
      moment := calls;
    } else {
      moment := SomeMomentOverruns(cfg, calls.past);
    }
  }

  /** The plain limit: a run has no forced eviction if and only if at no moment of it a client can
      get more than `limit` requests admitted in a stretch no longer than the window. */
  lemma PlainLimitExactly(cfg: Config, calls: Calls)
    requires cfg.limit >= 1 && cfg.window > 0.0 && Timed(calls)
    ensures NoForced(cfg, calls) <==> forall moment :: Extends(calls, moment) ==> LimitKept(cfg, moment)
  {
    if NoForced(cfg, calls) {
      forall moment | Extends(calls, moment) ensures LimitKept(cfg, moment) {
        UnforcedPast(cfg, calls, moment);
        if moment.Then? {
          forall k, n ensures WithinLimit(cfg, Burst(moment, k, n)) {
            UnforcedKeepsLimit(cfg, moment, k, n);
          }
        }
      }
    } else {
      var moment := SomeMomentOverruns(cfg, calls);
    }
  }
}
