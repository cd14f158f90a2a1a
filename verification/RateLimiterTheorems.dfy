/** The two main results about the rate limiter: how many requests a window can admit,
    and when the capped table decides like an unbounded log. */
module RateLimiterTheorems {
  import opened Sequences
  import opened RateLimiter
  import opened RateLimiterRuns

  // ----- the rate a key can reach

  /** How many of the times lie in the half-open interval (lo, hi]. */
  function Within(ts: seq<Time>, lo: Time, hi: Time): nat {
    if ts == [] then 0
    else Within(ts[..|ts| - 1], lo, hi) + (if lo < ts[|ts| - 1] <= hi then 1 else 0)
  }

  lemma WithinAppend(ts: seq<Time>, t: Time, lo: Time, hi: Time)
    ensures Within(ts + [t], lo, hi) == Within(ts, lo, hi) + (if lo < t <= hi then 1 else 0)
  {
    assert (ts + [t])[..|ts|] == ts;
  }

  lemma {:induction false} WithinLive(ts: seq<Time>, lo: Time, hi: Time)
    ensures Within(ts, lo, hi) <= |Live(ts, lo)|
    ensures (forall i :: 0 <= i < |ts| ==> ts[i] <= hi) ==> Within(ts, lo, hi) == |Live(ts, lo)|
  {
    if ts != [] {
      var n := |ts| - 1;
      WithinLive(ts[..n], lo, hi);
      LiveAppend(ts[..n], ts[n], lo);
      assert ts[..n] + [ts[n]] == ts;
    }
  }

  function Cap(cfg: Config): nat {
    if cfg.limit < 0 then 0 else cfg.limit
  }

  /** What `e` forced evictions allow. */
  function Allowance(cfg: Config, e: nat): nat {
    Cap(cfg) * e
  }

  lemma AllowanceStep(cfg: Config, e: nat)
    ensures Allowance(cfg, e + 1) == Allowance(cfg, e) + Cap(cfg)
  {
  }

  lemma {:induction false} EvictionsInThePast(cfg: Config, calls: Calls, k: Key)
    requires Timed(calls)
    ensures forall x :: x in Evictions(cfg, calls, k) ==> calls.Then? && x <= calls.event.evictNow
  {
    if calls.Then? {
      hide Forced;
      EvictionsInThePast(cfg, calls.past, k);
    }
  }

  lemma {:induction false} SinceInThePast(cfg: Config, calls: Calls, k: Key)
    requires Timed(calls)
    ensures forall x :: x in Since(cfg, calls, k) ==> calls.Then? && x <= calls.event.now
  {
    if calls.Then? {
      hide Forced, Accepted;
      SinceInThePast(cfg, calls.past, k);
    }
  }

  lemma RoomLeft(cfg: Config, calls: Calls, lo: Time)
    requires calls.Then? && Timed(calls) && Accepted(cfg, calls) && lo >= calls.event.now - cfg.window
    ensures |Live(Since(cfg, calls.past, calls.event.key), lo)| < Cap(cfg)
  {
    var since := Since(cfg, calls.past, calls.event.key);
    DecisionMeaning(cfg, calls);
    hide Accepted, Live, Since, Timed, Filter;
    LiveLive(since, calls.event.now - cfg.window, lo);
    LiveSound(Live(since, calls.event.now - cfg.window), lo);
  }

  /** The window holds at most `limit` admissions made since the last forced eviction. */
  lemma {:induction false} SinceBounded(cfg: Config, calls: Calls, k: Key, d: Time)
    requires Timed(calls) && (calls.Then? ==> d >= calls.event.now - cfg.window)
    ensures |Live(Since(cfg, calls, k), d)| <= Cap(cfg)
  {
    if calls.Then? {
      var c := calls.event;
      assert Live([], d) == [];
      hide Forced, Accepted, Live;
      SinceBounded(cfg, calls.past, k, d);
      LiveAppend(Since(cfg, calls.past, k), c.now, d);
      if c.key == k && Accepted(cfg, calls) {
        RoomLeft(cfg, calls, d);
      }
    }
  }

  lemma HistoryStep(cfg: Config, calls: Calls, k: Key, d: Time)
    requires calls.Then?
    ensures var a := if calls.event.key == k && Accepted(cfg, calls) && calls.event.now > d then 1 else 0;
            && |Live(Admissions(cfg, calls, k), d)| == |Live(Admissions(cfg, calls.past, k), d)| + a
            && (k !in Forced(cfg, calls) ==>
                  && |Live(Since(cfg, calls, k), d)| == |Live(Since(cfg, calls.past, k), d)| + a
                  && Evictions(cfg, calls, k) == Evictions(cfg, calls.past, k))
  {
    LiveAppend(Admissions(cfg, calls.past, k), calls.event.now, d);
    LiveAppend(Since(cfg, calls.past, k), calls.event.now, d);
    hide Forced, Accepted, Live;
  }

  lemma ForcedStep(cfg: Config, calls: Calls, k: Key, d: Time)
    requires calls.Then? && k in Forced(cfg, calls)
    ensures k != calls.event.key && Since(cfg, calls, k) == []
    ensures |Live(Evictions(cfg, calls, k), d)| ==
            |Live(Evictions(cfg, calls.past, k), d)| + (if calls.event.evictNow > d then 1 else 0)
  {
    TableWellFormed(cfg, calls.past);
    ForcedAreLive(cfg, TableAfter(cfg, calls.past), calls.event, k);
    LiveAppend(Evictions(cfg, calls.past, k), calls.event.evictNow, d);
    hide ForcedOut, TableAfter, Live;
  }

  lemma {:induction false} AllExpired(ts: seq<Time>, d: Time)
    requires forall x :: x in ts ==> x <= d
    ensures Live(ts, d) == []
  {
    if ts != [] {
      assert ts[0] in ts && forall x :: x in ts[1..] ==> x in ts;
      AllExpired(ts[1..], d);
    }
  }

  /** After a forced eviction at or before `d`, nothing later than `d` was in the bucket. */
  lemma NothingLater(cfg: Config, calls: Calls, k: Key, d: Time)
    requires Timed(calls) && (calls.Then? ==> d >= calls.event.now)
    ensures Live(Since(cfg, calls, k), d) == []
  {
    SinceInThePast(cfg, calls, k);
    AllExpired(Since(cfg, calls, k), d);
  }

  /** Admissions in the window are paid for by the bucket, or by a forced eviction each `limit`. */
  lemma {:induction false} AdmissionsAccounted(cfg: Config, calls: Calls, k: Key, d: Time)
    requires Timed(calls) && (calls.Then? ==> d >= calls.event.now - cfg.window)
    ensures |Live(Admissions(cfg, calls, k), d)| <=
            Allowance(cfg, |Live(Evictions(cfg, calls, k), d)|) + |Live(Since(cfg, calls, k), d)|
  {
    NothingLive(d);
    hide Accepted, Forced, Live, Cap, Allowance;
    if calls.Then? {
      hide Since, Admissions, Evictions;
      AdmissionsAccounted(cfg, calls.past, k, d);
      HistoryStep(cfg, calls, k, d);
      if k in Forced(cfg, calls) {
        ForcedStep(cfg, calls, k, d);
        AllowanceStep(cfg, |Live(Evictions(cfg, calls.past, k), d)|);
        SinceBounded(cfg, calls.past, k, d);
        if calls.event.evictNow <= d {
          NothingLater(cfg, calls.past, k, d);
        }
      }
    }
  }

  lemma NothingWithin(lo: Time, hi: Time)
    ensures Within([], lo, hi) == 0
  {
  }

  lemma WithinStep(cfg: Config, calls: Calls, k: Key, lo: Time, hi: Time)
    requires calls.Then?
    ensures Within(Admissions(cfg, calls, k), lo, hi) == Within(Admissions(cfg, calls.past, k), lo, hi) +
            (if calls.event.key == k && Accepted(cfg, calls) && lo < calls.event.now <= hi then 1 else 0)
    ensures Within(Evictions(cfg, calls, k), lo, hi) == Within(Evictions(cfg, calls.past, k), lo, hi) +
            (if k in Forced(cfg, calls) && lo < calls.event.evictNow <= hi then 1 else 0)
  {
    hide Forced, Accepted, Within;
    WithinAppend(Admissions(cfg, calls.past, k), calls.event.now, lo, hi);
    WithinAppend(Evictions(cfg, calls.past, k), calls.event.evictNow, lo, hi);
  }

  /** The one step of the rate theorem that needs the bucket: an admission at `now <= hi`. */
  lemma LatestAdmission(cfg: Config, calls: Calls, k: Key, lo: Time, hi: Time)
    requires calls.Then? && Timed(calls) && hi - lo <= cfg.window
    requires calls.event.key == k && Accepted(cfg, calls) && lo < calls.event.now <= hi
    ensures Within(Admissions(cfg, calls.past, k), lo, hi) + 1 <=
            Allowance(cfg, 1 + Within(Evictions(cfg, calls.past, k), lo, hi))
  {
    hide Accepted, Forced, Live, Within, Admissions, Evictions, Since, Cap, Allowance;
    var evictions := Evictions(cfg, calls.past, k);
    AdmissionsAccounted(cfg, calls.past, k, lo);
    WithinLive(Admissions(cfg, calls.past, k), lo, hi);
    EvictionsInThePast(cfg, calls.past, k);
    assert forall i :: 0 <= i < |evictions| ==> evictions[i] in evictions;
    WithinLive(evictions, lo, hi);
    RoomLeft(cfg, calls, lo);
    AllowanceStep(cfg, |Live(evictions, lo)|);
  }

  /** The rate theorem. In any stretch of time no longer than the window, a key is admitted at
      most `limit` times, plus `limit` for each time it was forced out of the table meanwhile. */
  lemma {:induction false} RateBound(cfg: Config, calls: Calls, k: Key, lo: Time, hi: Time)
    requires Timed(calls) && hi - lo <= cfg.window
    ensures Within(Admissions(cfg, calls, k), lo, hi) <=
            Allowance(cfg, 1 + Within(Evictions(cfg, calls, k), lo, hi))
  {
    hide Forced, Accepted, Cap, Allowance, Within;
    if calls.Start? {
      assert Within([], lo, hi) == 0 by { NothingWithin(lo, hi); }
    } else {
      RateBound(cfg, calls.past, k, lo, hi);
      WithinStep(cfg, calls, k, lo, hi);
      hide Timed, Admissions, Evictions;
      AllowanceStep(cfg, 1 + Within(Evictions(cfg, calls.past, k), lo, hi));
      if calls.event.key == k && Accepted(cfg, calls) && lo < calls.event.now <= hi {
        LatestAdmission(cfg, calls, k, lo, hi);
      }
    }
  }

  // ----- the unbounded limiter as reference

  /** Without forced evictions the capped table decides exactly like the unbounded log:
      pruning stale hits and evicting stale keys cannot be observed. */
  lemma {:induction false} UnforcedIsFaithful(cfg: Config, calls: Calls)
    requires Timed(calls) && NoForced(cfg, calls)
    ensures Faithful(cfg, calls)
    ensures forall k :: Since(cfg, calls, k) == IdealLog(cfg, calls, k)
  {
    if calls.Then? {
      UnforcedIsFaithful(cfg, calls.past);
      DecisionMeaning(cfg, calls);
      hide Accepted, Forced, Live;
      assert Since(cfg, calls.past, calls.event.key) == IdealLog(cfg, calls.past, calls.event.key);
      forall k ensures Since(cfg, calls, k) == IdealLog(cfg, calls, k) {
        assert Since(cfg, calls.past, k) == IdealLog(cfg, calls.past, k);
      }
    }
  }

  function Keys(calls: Calls): set<Key> {
    if calls.Start? then {} else Keys(calls.past) + {calls.event.key}
  }

  lemma {:induction false} LoggedKeys(cfg: Config, calls: Calls, k: Key)
    requires IdealLog(cfg, calls, k) != []
    ensures k in Keys(calls)
  {
    hide IdealAccepted;
    if calls.event.key != k {
      LoggedKeys(cfg, calls.past, k);
    }
  }

  /** The keys with an admitted hit later than the cutoff, according to the reference. */
  ghost function LiveKeys(cfg: Config, calls: Calls, cutoff: Time): set<Key> {
    set k | k in Keys(calls) && Live(IdealLog(cfg, calls, k), cutoff) != []
  }

  /** Whenever a key without a hit in the window calls, fewer than `maxIps` keys have one (none, if
      `maxIps` is not positive).
      This speaks of the traffic and the reference only, not of the capped table. */
  ghost predicate Roomy(cfg: Config, calls: Calls) {
    calls.Start? ||
    (Roomy(cfg, calls.past) &&
     (Live(IdealLog(cfg, calls.past, calls.event.key), calls.event.now - cfg.window) == [] ==>
        |LiveKeys(cfg, calls.past, calls.event.evictNow - cfg.window)| < TableCap(cfg)))
  }

  lemma PrunedKeyLive(cfg: Config, calls: Calls, now: Time, k: Key)
    requires Timed(calls) && NoForced(cfg, calls) && (calls.Then? ==> now >= calls.event.evictNow)
    requires k in Pruned(cfg, TableAfter(cfg, calls), now).log
    ensures k in LiveKeys(cfg, calls, now - cfg.window)
  {
    hide Pruned, TableAfter, Live, Bucket, Since, IdealLog, Faithful, NoForced, Step;
    var cutoff := now - cfg.window;
    TableWellFormed(cfg, calls);
    UnforcedIsFaithful(cfg, calls);
    PrunedBucket(cfg, TableAfter(cfg, calls), now, k, cutoff);
    BucketMeaning(cfg, calls, k, cutoff);
    assert Since(cfg, calls, k) == IdealLog(cfg, calls, k);
    NothingLive(cutoff);
    LoggedKeys(cfg, calls, k);
  }

  /** The keys left after dropping the stale ones are all live in the reference. */
  lemma PrunedKeysLive(cfg: Config, calls: Calls, now: Time)
    requires Timed(calls) && NoForced(cfg, calls) && (calls.Then? ==> now >= calls.event.evictNow)
    ensures |Pruned(cfg, TableAfter(cfg, calls), now).order| <= |LiveKeys(cfg, calls, now - cfg.window)|
  {
    hide Pruned, TableAfter, LiveKeys, NoForced, Step, Timed;
    TableWellFormed(cfg, calls);
    EvictedWellFormed(cfg, TableAfter(cfg, calls), now);
    var p := Pruned(cfg, TableAfter(cfg, calls), now);
    forall k | k in Elems(p.order) ensures k in LiveKeys(cfg, calls, now - cfg.window) {
      PrunedKeyLive(cfg, calls, now, k);
    }
    DistinctCard(p.order);
    SubsetSize(Elems(p.order), LiveKeys(cfg, calls, now - cfg.window));
  }

  /** A key that is live in the reference is in the table. */
  lemma LiveKeyStored(cfg: Config, calls: Calls, k: Key, cutoff: Time)
    requires Timed(calls) && NoForced(cfg, calls)
    requires calls.Then? ==> cutoff >= calls.event.evictNow - cfg.window
    requires Live(IdealLog(cfg, calls, k), cutoff) != []
    ensures k in TableAfter(cfg, calls).log
  {
    hide TableAfter, Live, Since, IdealLog, Faithful, NoForced, Step;
    UnforcedIsFaithful(cfg, calls);
    BucketMeaning(cfg, calls, k, cutoff);
    assert Since(cfg, calls, k) == IdealLog(cfg, calls, k);
    NothingLive(cutoff);
  }

  lemma {:induction false} RoomyIsUnforced(cfg: Config, calls: Calls)
    requires Timed(calls) && Roomy(cfg, calls)
    ensures NoForced(cfg, calls)
  {
    hide TableAfter, Live, IdealLog, Step, Evicted, Pruned, LiveKeys, Accepts;
    if calls.Then? {
      var c := calls.event;
      RoomyIsUnforced(cfg, calls.past);
      if Live(IdealLog(cfg, calls.past, c.key), c.now - cfg.window) != [] {
        LiveKeyStored(cfg, calls.past, c.key, c.now - cfg.window);
      } else {
        PrunedKeysLive(cfg, calls.past, c.evictNow);
      }
    }
  }

  /** The refinement theorem: on every run in which, whenever a new key calls, fewer than
      `maxIps` keys have a hit in the window, all decisions are those of the unbounded log. */
  lemma RoomyIsFaithful(cfg: Config, calls: Calls)
    requires Timed(calls) && Roomy(cfg, calls)
    ensures Faithful(cfg, calls)
  {
    RoomyIsUnforced(cfg, calls);
    UnforcedIsFaithful(cfg, calls);
  }

  /** `calls` continued by `n` requests of one key at its last instant. */
  function Burst(calls: Calls, k: Key, n: nat): (run: Calls)
    requires calls.Then?
    ensures run.Then?
  {
    if n == 0 then calls else Then(Burst(calls, k, n - 1), Call(k, calls.event.evictNow, calls.event.evictNow))
  }

  lemma {:induction false} BurstTimed(calls: Calls, k: Key, n: nat)
    requires calls.Then? && Timed(calls)
    ensures Timed(Burst(calls, k, n)) && Burst(calls, k, n).event.evictNow == calls.event.evictNow
  {
    if n > 0 {
      BurstTimed(calls, k, n - 1);
    }
  }

  /** A key that was just forced out gets a full new quota at once. */
  lemma {:induction false} BurstAdmitted(cfg: Config, calls: Calls, v: Key, n: nat)
    requires calls.Then? && Timed(calls) && Since(cfg, calls, v) == []
    requires cfg.window > 0.0 && n <= cfg.limit
    ensures |Live(Since(cfg, Burst(calls, v, n), v), calls.event.evictNow - cfg.window)| == n
    ensures n > 0 ==> Accepted(cfg, Burst(calls, v, n))
  {
    hide Live, Forced, Accepted, Since, TableAfter, Step, Timed;
    var e := calls.event.evictNow;
    if n == 0 {
      NothingLive(e - cfg.window);
    } else {
      var run := Burst(calls, v, n);
      BurstAdmitted(cfg, calls, v, n - 1);
      BurstTimed(calls, v, n);
      DecisionMeaning(cfg, run);
      HistoryStep(cfg, run, v, e - cfg.window);
      if v in Forced(cfg, run) {
        ForcedStep(cfg, run, v, e);
      }
    }
  }

  lemma IdealStep(cfg: Config, calls: Calls, k: Key, d: Time)
    requires calls.Then?
    ensures |Live(IdealLog(cfg, calls, k), d)| == |Live(IdealLog(cfg, calls.past, k), d)| +
            (if calls.event.key == k && IdealAccepted(cfg, calls) && calls.event.now > d then 1 else 0)
  {
    hide Live, IdealAccepted;
    LiveAppend(IdealLog(cfg, calls.past, k), calls.event.now, d);
  }

  /** The reference still remembers the hits of a key that was forced out. */
  lemma {:induction false} BurstRemembered(cfg: Config, calls: Calls, v: Key, n: nat)
    requires calls.Then? && Timed(calls) && Since(cfg, calls, v) == []
    requires cfg.window > 0.0 && n <= cfg.limit
    requires Live(IdealLog(cfg, calls, v), calls.event.evictNow - cfg.window) != []
    requires Faithful(cfg, Burst(calls, v, n))
    ensures |Live(IdealLog(cfg, Burst(calls, v, n), v), calls.event.evictNow - cfg.window)| >= 1 + n
  {
    hide Live, Forced, Accepted, IdealAccepted, Since, IdealLog, TableAfter, Step, Timed;
    if n > 0 {
      BurstRemembered(cfg, calls, v, n - 1);
      BurstAdmitted(cfg, calls, v, n);
      IdealStep(cfg, Burst(calls, v, n), v, calls.event.evictNow - cfg.window);
    }
  }

  /** A victim is live in the reference at the moment it is forced out. */
  lemma VictimRemembered(cfg: Config, calls: Calls, v: Key)
    requires calls.Then? && Timed(calls) && NoForced(cfg, calls.past) && v in Forced(cfg, calls)
    ensures Live(IdealLog(cfg, calls, v), calls.event.evictNow - cfg.window) != []
  {
    hide Live, TableAfter, Step, Faithful, Since, IdealLog, IdealAccepted, NoForced, ForcedOut, Bucket;
    var cutoff := calls.event.evictNow - cfg.window;
    TableWellFormed(cfg, calls.past);
    ForcedAreLive(cfg, TableAfter(cfg, calls.past), calls.event, v);
    BucketMeaning(cfg, calls.past, v, cutoff);
    UnforcedIsFaithful(cfg, calls.past);
    assert Since(cfg, calls.past, v) == IdealLog(cfg, calls.past, v);
    IdealStep(cfg, calls, v, cutoff);
  }

  /** However many requests a client sends right after the run, it sees the reference's decisions. */
  ghost predicate Unobservable(cfg: Config, calls: Calls) {
    calls.Then? ==> forall k, n :: Faithful(cfg, Burst(calls, k, n))
  }

  lemma {:induction false} BurstFaithful(cfg: Config, calls: Calls, k: Key, n: nat)
    requires calls.Then? && Timed(calls) && NoForced(cfg, calls)
    ensures Faithful(cfg, Burst(calls, k, n))
    ensures Since(cfg, Burst(calls, k, n), k) == IdealLog(cfg, Burst(calls, k, n), k)
  {
    hide Accepted, Forced, Live, Timed, TableAfter, Step, NoForced;
    if n == 0 {
      UnforcedIsFaithful(cfg, calls);
    } else {
      var run := Burst(calls, k, n);
      BurstFaithful(cfg, calls, k, n - 1);
      BurstTimed(calls, k, n);
      DecisionMeaning(cfg, run);
      if k in Forced(cfg, run) {
        ForcedStep(cfg, run, k, calls.event.evictNow);
      }
    }
  }

  lemma SinceForced(cfg: Config, calls: Calls, v: Key)
    requires calls.Then? && v in Forced(cfg, calls)
    ensures Since(cfg, calls, v) == []
  {
  }

  lemma VictimObserves(cfg: Config, calls: Calls)
    requires cfg.limit >= 1 && cfg.window > 0.0
    requires calls.Then? && Timed(calls) && NoForced(cfg, calls.past) && Forced(cfg, calls) != []
    ensures !Unobservable(cfg, calls)
  {
    hide Live, Forced, Accepted, Since, IdealLog, TableAfter, Step, NoForced, Timed;
    var v := Forced(cfg, calls)[0];
    var run := Burst(calls, v, cfg.limit);
    SinceForced(cfg, calls, v);
    VictimRemembered(cfg, calls, v);
    BurstAdmitted(cfg, calls, v, cfg.limit);
    if Faithful(cfg, run) {
      BurstRemembered(cfg, calls, v, cfg.limit - 1);
    }
    assert !Faithful(cfg, run);
  }

  lemma {:induction false} SomeMomentObservable(cfg: Config, calls: Calls) returns (moment: Calls)
    requires cfg.limit >= 1 && cfg.window > 0.0
    requires Timed(calls) && !NoForced(cfg, calls)
    ensures Extends(calls, moment) && !Unobservable(cfg, moment)
  {
    hide Forced, Unobservable;
    if NoForced(cfg, calls.past) {
      VictimObserves(cfg, calls);
      moment := calls;
    } else {
      moment := SomeMomentObservable(cfg, calls.past);
    }
  }

  lemma {:induction false} UnforcedPast(cfg: Config, calls: Calls, moment: Calls)
    requires Extends(calls, moment) && Timed(calls) && NoForced(cfg, calls)
    ensures Timed(moment) && NoForced(cfg, moment)
  {
    hide Forced;
    if calls != moment {
      UnforcedPast(cfg, calls.past, moment);
    }
  }

  /** Forced evictions are the exact boundary: a run has none if and only if at no moment of it
      can a client, by its own requests, tell the capped table from an unbounded one. */
  lemma ForcedEvictionIsTheBoundary(cfg: Config, calls: Calls)
    requires cfg.limit >= 1 && cfg.window > 0.0 && Timed(calls)
    ensures NoForced(cfg, calls) <==> forall moment :: Extends(calls, moment) ==> Unobservable(cfg, moment)
  {
    if NoForced(cfg, calls) {
      forall moment | Extends(calls, moment) ensures Unobservable(cfg, moment) {
        UnforcedPast(cfg, calls, moment);
        if moment.Then? {
          forall k, n ensures Faithful(cfg, Burst(moment, k, n)) {
            BurstFaithful(cfg, moment, k, n);
          }
        }
      }
    } else {
      var moment := SomeMomentObservable(cfg, calls);
    }
  }
}
