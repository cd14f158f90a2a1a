/** Whole runs of the rate limiter: what the buckets mean, how far a run can exceed
    the nominal rate, and when the bounded table is indistinguishable from an
    unbounded sliding-window log. */
module RateLimiterRuns {
  import opened Sequences
  import opened RateLimiter

  type Calls = Run<Call>

  function TableAfter(cfg: Config, calls: Calls): Table {
    if calls.Start? then EMPTY else Step(cfg, TableAfter(cfg, calls.past), calls.event)
  }

  /** The clock never goes back, within a call or between calls. */
  ghost predicate Timed(calls: Calls) {
    calls.Start? ||
    (Timed(calls.past) && calls.event.now <= calls.event.evictNow &&
     (calls.past.Start? || calls.past.event.evictNow <= calls.event.now))
  }

  predicate Accepted(cfg: Config, calls: Calls)
    requires calls.Then?
  {
    Accepts(cfg, TableAfter(cfg, calls.past), calls.event)
  }

  function Forced(cfg: Config, calls: Calls): seq<Key>
    requires calls.Then?
  {
    ForcedOut(cfg, TableAfter(cfg, calls.past), calls.event)
  }

  /** The times at which `k` was admitted, oldest first. */
  function Admissions(cfg: Config, calls: Calls, k: Key): seq<Time> {
    if calls.Start? then []
    else if calls.event.key == k && Accepted(cfg, calls) then Admissions(cfg, calls.past, k) + [calls.event.now]
    else Admissions(cfg, calls.past, k)
  }

  /** The times at which `k` was evicted although it had a hit in the window. */
  function Evictions(cfg: Config, calls: Calls, k: Key): seq<Time> {
    if calls.Start? then []
    else if k in Forced(cfg, calls) then Evictions(cfg, calls.past, k) + [calls.event.evictNow]
    else Evictions(cfg, calls.past, k)
  }

  /** The admissions of `k` after its last forced eviction. */
  function Since(cfg: Config, calls: Calls, k: Key): seq<Time> {
    if calls.Start? || k in Forced(cfg, calls) then []
    else if calls.event.key == k && Accepted(cfg, calls) then Since(cfg, calls.past, k) + [calls.event.now]
    else Since(cfg, calls.past, k)
  }

  /** The reference: one unbounded log per key, never evicted. */
  function IdealLog(cfg: Config, calls: Calls, k: Key): seq<Time>
    decreases calls, 1
  {
    if calls.Start? then []
    else if calls.event.key == k && IdealAccepted(cfg, calls) then IdealLog(cfg, calls.past, k) + [calls.event.now]
    else IdealLog(cfg, calls.past, k)
  }

  predicate IdealAccepted(cfg: Config, calls: Calls)
    requires calls.Then?
    decreases calls, 0
  {
    |Live(IdealLog(cfg, calls.past, calls.event.key), calls.event.now - cfg.window)| < cfg.limit
  }

  /** Every decision of the run is the reference's decision. */
  ghost predicate Faithful(cfg: Config, calls: Calls) {
    calls.Start? || (Faithful(cfg, calls.past) && (Accepted(cfg, calls) <==> IdealAccepted(cfg, calls)))
  }

  ghost predicate NoForced(cfg: Config, calls: Calls) {
    calls.Start? || (NoForced(cfg, calls.past) && Forced(cfg, calls) == [])
  }

  // ----- the meaning of a bucket

  lemma {:induction false} TableWellFormed(cfg: Config, calls: Calls)
    ensures WellFormed(TableAfter(cfg, calls))
  {
    if calls.Then? {
      TableWellFormed(cfg, calls.past);
      StepWellFormed(cfg, TableAfter(cfg, calls.past), calls.event);
    }
  }

  lemma DropBucket(t: Table, ks: seq<Key>, k: Key)
    ensures Bucket(Drop(t, ks), k) == if k in ks then [] else Bucket(t, k)
  {
    assert k in ks <==> k in Elems(ks);
  }

  lemma VictimsInTable(cfg: Config, t: Table, now: Time)
    requires WellFormed(t)
    ensures forall k :: k in Victims(cfg, t, now) ==> k in t.log
  {
    var sorted := SortBy(t.order, Age(t, now));
    SortByProps(t.order, Age(t, now));
    forall k | k in Victims(cfg, t, now) ensures k in t.log {
      assert k in sorted;
      assert k in multiset(sorted);
      assert k in t.order;
      assert k in Elems(t.order);
    }
  }

  lemma StaleKeysExactly(t: Table, cutoff: Time, k: Key)
    requires WellFormed(t)
    ensures k in Stale(t, cutoff) <==> k in t.log && Live(Bucket(t, k), cutoff) == []
  {
    hide Live, Bucket;
    FilterSound(t.order, k => Live(Bucket(t, k), cutoff) == []);
    assert k in t.order <==> k in Elems(t.order);
  }

  lemma NothingLive(cutoff: Time)
    ensures Live([], cutoff) == []
  {
  }

  lemma PrunedBucket(cfg: Config, t: Table, now: Time, k: Key, d: Time)
    requires WellFormed(t) && d >= now - cfg.window
    ensures Live(Bucket(Pruned(cfg, t, now), k), d) == Live(Bucket(t, k), d)
    ensures k in Pruned(cfg, t, now).log <==> k in t.log && Live(Bucket(t, k), now - cfg.window) != []
  {
    hide Live, Stale, WellFormed, Without;
    var cutoff := now - cfg.window;
    var stale := Stale(t, cutoff);
    StaleKeysExactly(t, cutoff, k);
    DropBucket(t, stale, k);
    LiveLive(Bucket(t, k), cutoff, d);
    NothingLive(d);
    assert k in stale <==> k in Elems(stale);
  }

  /** No key is forced out by its own call, and only live keys are forced out. */
  lemma ForcedAreLive(cfg: Config, t: Table, call: Call, k: Key)
    requires WellFormed(t) && k in ForcedOut(cfg, t, call)
    ensures k != call.key && MustEvict(cfg, t, call)
    ensures Live(Bucket(t, k), call.evictNow - cfg.window) != []
  {
    hide Victims, Pruned, Live, Accepts, SortBy;
    EvictedWellFormed(cfg, t, call.evictNow);
    VictimsInTable(cfg, Pruned(cfg, t, call.evictNow), call.evictNow);
    PrunedBucket(cfg, t, call.evictNow, k, call.evictNow - cfg.window);
  }

  lemma EvictedBucket(cfg: Config, t: Table, call: Call, k: Key, d: Time)
    requires WellFormed(t) && MustEvict(cfg, t, call) && d >= call.evictNow - cfg.window
    ensures Live(Bucket(Evicted(cfg, t, call.evictNow), k), d) ==
            if k in ForcedOut(cfg, t, call) then [] else Live(Bucket(t, k), d)
  {
    var p := Pruned(cfg, t, call.evictNow);
    PrunedBucket(cfg, t, call.evictNow, k, d);
    DropBucket(p, Victims(cfg, p, call.evictNow), k);
  }

  lemma StepBucket(cfg: Config, t: Table, call: Call, k: Key, d: Time)
    requires WellFormed(t) && call.now <= call.evictNow && d >= call.evictNow - cfg.window
    ensures Live(Bucket(Step(cfg, t, call), k), d) ==
            if k in ForcedOut(cfg, t, call) then []
            else Live(Bucket(t, k), d) +
                 (if call.key == k && Accepts(cfg, t, call) && call.now > d then [call.now] else [])
  {
    hide Live, Evicted, Victims, Pruned;
    if k in ForcedOut(cfg, t, call) {
      ForcedAreLive(cfg, t, call, k);
    }
    if MustEvict(cfg, t, call) {
      EvictedBucket(cfg, t, call, k, d);
    }
    if k == call.key {
      var cutoff := call.now - cfg.window;
      LiveLive(Bucket(t, k), cutoff, d);
      LiveAppend(Live(Bucket(t, k), cutoff), call.now, d);
    }
  }

  /** In the window that ends now or later, a bucket holds exactly the admissions of its
      key since the key was last forced out; dropping stale keys does not show. */
  lemma {:induction false} BucketMeaning(cfg: Config, calls: Calls, k: Key, d: Time)
    requires Timed(calls) && (calls.Start? || d >= calls.event.evictNow - cfg.window)
    ensures Live(Bucket(TableAfter(cfg, calls), k), d) == Live(Since(cfg, calls, k), d)
  {
    assert Live([], d) == [];
    hide Step, Live;
    if calls.Then? {
      BucketMeaning(cfg, calls.past, k, d);
      TableWellFormed(cfg, calls.past);
      StepBucket(cfg, TableAfter(cfg, calls.past), calls.event, k, d);
      LiveAppend(Since(cfg, calls.past, k), calls.event.now, d);
    }
  }

  /** The decision, read off the history: reject exactly when `limit` admissions since the
      last forced eviction of the key lie in the window. */
  lemma {:induction false} DecisionMeaning(cfg: Config, calls: Calls)
    requires calls.Then? && Timed(calls)
    ensures Accepted(cfg, calls) <==>
            |Live(Since(cfg, calls.past, calls.event.key), calls.event.now - cfg.window)| < cfg.limit
  {
    hide Step, Live, Since, TableAfter;
    BucketMeaning(cfg, calls.past, calls.event.key, calls.event.now - cfg.window);
  }

  lemma {:induction false} SinceWithinAdmissions(cfg: Config, calls: Calls, k: Key, d: Time)
    ensures |Live(Since(cfg, calls, k), d)| <= |Live(Admissions(cfg, calls, k), d)|
  {
    assert Live([], d) == [];
    hide Step, Live, TableAfter, ForcedOut;
    if calls.Then? {
      SinceWithinAdmissions(cfg, calls.past, k, d);
      LiveAppend(Since(cfg, calls.past, k), calls.event.now, d);
      LiveAppend(Admissions(cfg, calls.past, k), calls.event.now, d);
    }
  }

  /** Rejections are never spurious: `limit` admitted hits really lie in the window. */
  lemma RejectionsAreEarned(cfg: Config, calls: Calls)
    requires calls.Then? && Timed(calls) && !Accepted(cfg, calls)
    ensures |Live(Admissions(cfg, calls.past, calls.event.key), calls.event.now - cfg.window)| >= cfg.limit
  {
    DecisionMeaning(cfg, calls);
    SinceWithinAdmissions(cfg, calls.past, calls.event.key, calls.event.now - cfg.window);
  }

  // ----- the shape of reachable tables

  ghost predicate Ascending(ts: seq<Time>) {
    ts == [] || ((forall i :: 0 < i < |ts| ==> ts[0] <= ts[i]) && Ascending(ts[1..]))
  }

  lemma {:induction false} AscendingAppend(ts: seq<Time>, t: Time)
    requires Ascending(ts) && forall i :: 0 <= i < |ts| ==> ts[i] <= t
    ensures Ascending(ts + [t])
  {
    if ts == [] {
      assert (ts + [t])[1..] == [];
    } else {
      AscendingAppend(ts[1..], t);
      assert (ts + [t])[1..] == ts[1..] + [t];
    }
  }

  lemma {:induction false} AscendingLive(ts: seq<Time>, c: Time)
    requires Ascending(ts)
    ensures Ascending(Live(ts, c))
  {
    if ts != [] {
      AscendingLive(ts[1..], c);
      LiveSound(ts[1..], c);
    }
  }

  lemma OtherBucket(cfg: Config, t: Table, call: Call, k: Key)
    requires k != call.key && k in Step(cfg, t, call).log
    ensures k in t.log && Step(cfg, t, call).log[k] == t.log[k]
  {
  }

  lemma OwnBucket(cfg: Config, t: Table, call: Call)
    ensures call.key in Step(cfg, t, call).log
    ensures Step(cfg, t, call).log[call.key] ==
            Live(Bucket(t, call.key), call.now - cfg.window) +
            (if Accepts(cfg, t, call) then [call.now] else [])
  {
  }

  /** Every entry of a bucket is an admission of its own key that the clock has passed. */
  lemma {:induction false} BucketHistory(cfg: Config, calls: Calls, k: Key)
    requires Timed(calls)
    ensures forall x :: x in Bucket(TableAfter(cfg, calls), k) ==>
              x in Admissions(cfg, calls, k) && calls.Then? && x <= calls.event.now
  {
    if calls.Then? {
      var t, c := TableAfter(cfg, calls.past), calls.event;
      BucketHistory(cfg, calls.past, k);
      assert Admissions(cfg, calls, k) ==
             Admissions(cfg, calls.past, k) + if k == c.key && Accepts(cfg, t, c) then [c.now] else [];
      if k == c.key {
        OwnBucket(cfg, t, c);
        LiveSound(Bucket(t, k), c.now - cfg.window);
        hide Step, Live, Accepts, Admissions;
        forall x | x in Bucket(TableAfter(cfg, calls), k)
          ensures x in Admissions(cfg, calls, k) && x <= c.now
        {
          assert x in Bucket(t, k) || (Accepts(cfg, t, c) && x == c.now);
        }
      } else {
        assert forall x :: x in Bucket(TableAfter(cfg, calls), k) ==> x in Bucket(t, k) by {
          if k in Step(cfg, t, c).log {
            OtherBucket(cfg, t, c, k);
          }
        }
        assert calls.past.Then? ==> calls.past.event.now <= c.now;
        hide Step, Live, Accepts, Admissions, Bucket, TableAfter;
      }
    }
  }

  /** A stored bucket is never empty, is ascending and has at most `limit` entries. */
  lemma {:induction false} BucketShape(cfg: Config, calls: Calls, k: Key)
    requires cfg.limit >= 1 && Timed(calls) && k in TableAfter(cfg, calls).log
    ensures 1 <= |TableAfter(cfg, calls).log[k]| <= cfg.limit
    ensures Ascending(TableAfter(cfg, calls).log[k])
  {
    if calls.Then? {
      var t, c := TableAfter(cfg, calls.past), calls.event;
      if k in t.log {
        BucketShape(cfg, calls.past, k);
      }
      if k == c.key {
        var before := Bucket(t, k);
        var recent := Live(before, c.now - cfg.window);
        OwnBucket(cfg, t, c);
        BucketHistory(cfg, calls.past, k);
        LiveSound(before, c.now - cfg.window);
        AscendingLive(before, c.now - cfg.window);
        forall i | 0 <= i < |recent| ensures recent[i] <= c.now {
          assert recent[i] in before;
        }
        AscendingAppend(recent, c.now);
        assert recent + [] == recent;
        hide Step, Live;
      } else {
        OtherBucket(cfg, t, c, k);
        hide Step, Live;
      }
    }
  }

  // ----- the size of the key table

  lemma {:induction false} DistinctCounts<T>(s: seq<T>)
    ensures Distinct(s) <==> forall x :: x in s ==> multiset(s)[x] == 1
  {
    if s != [] {
      DistinctCounts(s[1..]);
      assert s == [s[0]] + s[1..];
      forall x ensures multiset(s)[x] == (if x == s[0] then 1 else 0) + multiset(s[1..])[x] {
      }
      if forall x :: x in s ==> multiset(s)[x] == 1 {
        assert multiset(s)[s[0]] == 1;
        assert s[0] !in s[1..];
        forall x | x in s[1..] ensures multiset(s[1..])[x] == 1 {
          assert x in s;
        }
      }
    }
  }

  lemma {:induction false} DistinctPrefix<T>(s: seq<T>, n: nat)
    requires Distinct(s) && n <= |s|
    ensures Distinct(s[..n])
  {
    if n > 0 {
      DistinctPrefix(s[1..], n - 1);
      assert s[..n][1..] == s[1..][..n - 1];
    }
  }

  lemma WithoutSize(order: seq<Key>, ks: seq<Key>)
    requires Distinct(order) && Distinct(ks) && forall k :: k in ks ==> k in order
    ensures |Without(order, ks)| == |order| - |ks|
  {
    FilterDistinct(order, k => k !in ks);
    FilterSound(order, k => k !in ks);
    assert Elems(Without(order, ks)) == Elems(order) - Elems(ks);
    assert Elems(ks) <= Elems(order);
    DistinctCard(order);
    DistinctCard(ks);
    DistinctCard(Without(order, ks));
  }

  lemma SortedKeys(t: Table, now: Time)
    requires WellFormed(t)
    ensures Distinct(SortBy(t.order, Age(t, now)))
    ensures forall k :: k in SortBy(t.order, Age(t, now)) <==> k in t.order
  {
    var sorted := SortBy(t.order, Age(t, now));
    SortByProps(t.order, Age(t, now));
    hide SortBy, Age;
    assert forall x :: x in sorted <==> x in multiset(sorted);
    assert forall x :: x in t.order <==> x in multiset(t.order);
    DistinctCounts(t.order);
    DistinctCounts(sorted);
  }

  lemma PrefixIsLeast(sorted: seq<Key>, age: Key -> Time, n: nat, v: Key, s: Key)
    requires SortedBy(sorted, age) && n <= |sorted| && v in sorted[..n] && s in sorted && s !in sorted[..n]
    ensures age(v) <= age(s)
  {
    var i :| 0 <= i < n && sorted[i] == v;
    var j :| 0 <= j < |sorted| && sorted[j] == s;
    assert i < j by {
      forall q | 0 <= q < n ensures sorted[q] != s {
        assert sorted[..n][q] == sorted[q];
      }
    }
    SortedAt(sorted, age, i, j);
  }

  /** Evicting from a full table drops the oldest keys and just enough of them for one new key. */
  lemma VictimsAreOldest(cfg: Config, t: Table, now: Time)
    requires WellFormed(t) && |t.order| >= cfg.maxIps
    ensures |Drop(t, Victims(cfg, t, now)).order| == if cfg.maxIps < 1 then 0 else cfg.maxIps - 1
    ensures forall v, s :: v in Victims(cfg, t, now) && s in t.order && s !in Victims(cfg, t, now) ==>
              Age(t, now)(v) <= Age(t, now)(s)
  {
    var age := Age(t, now);
    var sorted := SortBy(t.order, age);
    var victims := Victims(cfg, t, now);
    SortByProps(t.order, age);
    SortedKeys(t, now);
    hide SortBy, Age;
    assert victims == sorted[..|victims|];
    DistinctPrefix(sorted, |victims|);
    forall k | k in victims ensures k in t.order {
      assert k in sorted;
    }
    WithoutSize(t.order, victims);
    forall v, s | v in victims && s in t.order && s !in victims ensures age(v) <= age(s) {
      PrefixIsLeast(sorted, age, |victims|, v, s);
    }
  }

  function TableCap(cfg: Config): int {
    if cfg.maxIps < 1 then 1 else cfg.maxIps
  }

  lemma StepSize(cfg: Config, t: Table, call: Call)
    requires cfg.limit >= 1 && WellFormed(t) && |t.order| <= TableCap(cfg)
    ensures |Step(cfg, t, call).order| <= TableCap(cfg)
  {
    if MustEvict(cfg, t, call) {
      var p := Pruned(cfg, t, call.evictNow);
      EvictedWellFormed(cfg, t, call.evictNow);
      if |p.order| < cfg.maxIps {
        assert Victims(cfg, p, call.evictNow) == [];
        DropNothing(p);
      } else {
        VictimsAreOldest(cfg, p, call.evictNow);
      }
    } else if !Accepts(cfg, t, call) {
      assert call.key in t.log;
    }
  }

  lemma {:induction false} TableBounded(cfg: Config, calls: Calls)
    requires cfg.limit >= 1
    ensures |TableAfter(cfg, calls).order| <= TableCap(cfg)
  {
    if calls.Then? {
      TableBounded(cfg, calls.past);
      TableWellFormed(cfg, calls.past);
      StepSize(cfg, TableAfter(cfg, calls.past), calls.event);
    }
  }

  function Name(n: nat): (k: Key)
    ensures |k| == n
  {
    if n == 0 then "" else Name(n - 1) + "x"
  }

  function Strangers(n: nat): (calls: Calls)
  {
    if n == 0 then Start else Then(Strangers(n - 1), Call(Name(n), 0.0, 0.0))
  }

  /** With a non-positive limit every call is rejected before the cap is looked at. */
  lemma {:induction false} RejectedKeysPileUp(cfg: Config, n: nat)
    requires cfg.limit <= 0
    ensures |TableAfter(cfg, Strangers(n)).order| == n
    ensures forall k :: k in TableAfter(cfg, Strangers(n)).log ==> |k| <= n
  {
    if n > 0 {
      RejectedKeysPileUp(cfg, n - 1);
    }
  }

  /** The key table stays within its cap on every run exactly when the limit is positive. */
  lemma TableBoundedExactly(cfg: Config)
    ensures (forall calls :: |TableAfter(cfg, calls).order| <= TableCap(cfg)) <==> cfg.limit >= 1
  {
    if cfg.limit >= 1 {
      forall calls ensures |TableAfter(cfg, calls).order| <= TableCap(cfg) {
        TableBounded(cfg, calls);
      }
    } else {
      RejectedKeysPileUp(cfg, TableCap(cfg) + 1);
    }
  }
}
