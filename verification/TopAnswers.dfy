/** Best-k answers: what `ORDER BY key DESC LIMIT k` or a search may return when keys can tie. */
module TopAnswers {
  import opened Sequences

  function Min(a: int, b: int): int {
    if a <= b then a else b
  }

  /** No element of `rest` has a greater key than an element of `kept`. */
  ghost predicate NoneAbove<T(!new)>(kept: seq<T>, rest: multiset<T>, key: T -> real) {
    forall a, b :: a in kept && b in rest ==> key(b) <= key(a)
  }

  /** `best` are `k` elements of `all` with the greatest keys (all of them, if there are fewer), in
      any order and with any choice among equal keys. */
  ghost predicate Top<T(!new)>(all: seq<T>, k: nat, best: seq<T>, key: T -> real) {
    multiset(best) <= multiset(all) && |best| == Min(k, |all|) && NoneAbove(best, multiset(all) - multiset(best), key)
  }

  lemma TopElements<T(!new)>(all: seq<T>, k: nat, best: seq<T>, key: T -> real, x: T)
    requires Top(all, k, best, key) && x in best
    ensures x in all
  {
    assert x in multiset(best);
    assert x in multiset(all);
  }

  /** What was left out is not above anything that was kept. */
  lemma LeftOutIsBelow<T(!new)>(all: seq<T>, k: nat, best: seq<T>, key: T -> real, a: T, b: T)
    requires Top(all, k, best, key) && a in best && b in all && b !in best
    ensures key(b) <= key(a)
  {
    assert b in multiset(all) && b !in multiset(best);
    assert b in multiset(all) - multiset(best);
  }

  /** The elements that `best` leaves out. */
  ghost function Rest<T>(all: seq<T>, best: seq<T>): (rest: seq<T>)
    requires multiset(best) <= multiset(all)
    ensures multiset(best + rest) == multiset(all)
    ensures multiset(rest) == multiset(all) - multiset(best)
    ensures |best| + |rest| == |all|
  {
    var rest := SeqOf(multiset(all) - multiset(best));
    assert |best + rest| == |multiset(best + rest)| == |multiset(all)| == |all|;
    rest
  }

  lemma RestCount<T>(all: seq<T>, best: seq<T>, p: T -> bool)
    requires multiset(best) <= multiset(all)
    ensures Count(all, p) == Count(best, p) + Count(Rest(all, best), p)
  {
    CountSame(all, best + Rest(all, best), p);
    CountAppend(best, Rest(all, best), p);
  }

  /** If something above the bound was left out, all that was kept is above it. */
  lemma KeptAbove<T(!new)>(all: seq<T>, k: nat, best: seq<T>, key: T -> real, v: real, p: T -> bool)
    requires Top(all, k, best, key) && Count(Rest(all, best), p) > 0
    requires forall x :: p(x) <==> key(x) >= v
    ensures Count(best, p) == |best|
  {
    var rest := Rest(all, best);
    CountZero(rest, p);
    CountZero(best, p);
    var left := multiset(all) - multiset(best);
    hide Rest, Count;
    var i :| 0 <= i < |rest| && p(rest[i]);
    var b := rest[i];
    assert b in left && key(b) >= v;
    forall j | 0 <= j < |best| ensures p(best[j]) {
      assert key(b) <= key(best[j]);
    }
  }

  /** Above every bound, a best-k answer holds as much as there is, up to `k`. */
  lemma TopCount<T(!new)>(all: seq<T>, k: nat, best: seq<T>, key: T -> real, v: real, p: T -> bool)
    requires Top(all, k, best, key) && forall x :: p(x) <==> key(x) >= v
    ensures Count(best, p) == Min(k, Count(all, p))
  {
    RestCount(all, best, p);
    if Count(Rest(all, best), p) > 0 {
      KeptAbove(all, k, best, key, v, p);
    }
    hide Count, Rest, NoneAbove;
  }

  // ----- the keys of an answer

  function AtOrAbove<T>(key: T -> real, v: real): T -> bool {
    x => key(x) >= v
  }

  lemma {:induction false} LeastFirst<T>(xs: seq<T>, key: T -> real)
    requires SortedBy(xs, key) && xs != []
    ensures Count(xs, AtOrAbove(key, key(xs[0]))) == |xs|
  {
    CountZero(xs, AtOrAbove(key, key(xs[0])));
    forall i | 0 <= i < |xs| ensures key(xs[i]) >= key(xs[0]) {
      if i > 0 {
        SortedAt(xs, key, 0, i);
      }
    }
  }

  lemma AllAtOrAbove<T>(xs: seq<T>, key: T -> real, v: real)
    requires xs != [] && Count(xs, AtOrAbove(key, v)) == |xs|
    ensures key(xs[0]) >= v
  {
    CountZero(xs, AtOrAbove(key, v));
  }

  /** Ordered sequences of one length with the same counts above every bound have the same keys. */
  lemma {:induction false} SameKeys<T>(xs: seq<T>, ys: seq<T>, key: T -> real)
    requires SortedBy(xs, key) && SortedBy(ys, key) && |xs| == |ys|
    requires forall v :: Count(xs, AtOrAbove(key, v)) == Count(ys, AtOrAbove(key, v))
    ensures forall i :: 0 <= i < |xs| ==> key(xs[i]) == key(ys[i])
  {
    if xs != [] {
      LeastFirst(xs, key);
      LeastFirst(ys, key);
      AllAtOrAbove(ys, key, key(xs[0]));
      AllAtOrAbove(xs, key, key(ys[0]));
      forall v ensures Count(xs[1..], AtOrAbove(key, v)) == Count(ys[1..], AtOrAbove(key, v)) {
        assert Count(xs, AtOrAbove(key, v)) == Count(ys, AtOrAbove(key, v));
      }
      SameKeys(xs[1..], ys[1..], key);
      forall i | 0 <= i < |xs| ensures key(xs[i]) == key(ys[i]) {
        if i > 0 {
          assert xs[i] == xs[1..][i - 1] && ys[i] == ys[1..][i - 1];
        }
      }
    }
  }

  /** All ordered best-k answers have the same keys, position by position. */
  lemma TopKeys<T(!new)>(all: seq<T>, k: nat, a: seq<T>, b: seq<T>, key: T -> real)
    requires Top(all, k, a, key) && Top(all, k, b, key) && SortedBy(a, key) && SortedBy(b, key)
    ensures |a| == |b| && forall i :: 0 <= i < |a| ==> key(a[i]) == key(b[i])
  {
    forall v ensures Count(a, AtOrAbove(key, v)) == Count(b, AtOrAbove(key, v)) {
      TopCount(all, k, a, key, v, AtOrAbove(key, v));
      TopCount(all, k, b, key, v, AtOrAbove(key, v));
    }
    hide Count, SortedBy, NoneAbove;
    SameKeys(a, b, key);
  }
}
