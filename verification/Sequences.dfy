/** Sequence vocabulary shared by the models: options, filtering, counting and
    the stable sort that both Python's `sorted`/`list.sort` and the store's
    `ORDER BY created_at` (ties in insertion order) compute. */
module Sequences {
  datatype Option<+T> = None | Some(value: T)

  /** A finite run: the events so far, the latest one outermost. */
  datatype Run<E> = Start | Then(past: Run<E>, event: E)

  /** `longer` continues `shorter`. */
  ghost predicate Extends<E>(longer: Run<E>, shorter: Run<E>) {
    longer == shorter || (longer.Then? && Extends(longer.past, shorter))
  }

  lemma SubsetSize<T>(a: set<T>, b: set<T>)
    requires a <= b
    ensures |a| <= |b| && (a != b ==> |a| < |b|)
  {
    assert b == a + (b - a);
    assert |b| == |a| + |b - a|;
  }

  /** The elements of `xs` that satisfy `p`, in order. */
  function Filter<T>(xs: seq<T>, p: T -> bool): (r: seq<T>)
  {
    if xs == [] then []
    else if p(xs[0]) then [xs[0]] + Filter(xs[1..], p)
    else Filter(xs[1..], p)
  }

  lemma {:induction false} FilterAppend<T>(xs: seq<T>, ys: seq<T>, p: T -> bool)
    ensures Filter(xs + ys, p) == Filter(xs, p) + Filter(ys, p)
  {
    if xs == [] {
      assert xs + ys == ys;
    } else {
      FilterAppend(xs[1..], ys, p);
      assert (xs + ys)[1..] == xs[1..] + ys;
      assert Filter(xs + ys, p) ==
             (if p(xs[0]) then [xs[0]] else []) + (Filter(xs[1..], p) + Filter(ys, p));
    }
  }

  lemma {:induction false} FilterSound<T>(xs: seq<T>, p: T -> bool)
    ensures |Filter(xs, p)| <= |xs|
    ensures forall x :: x in Filter(xs, p) <==> x in xs && p(x)
  {
    if xs != [] {
      FilterSound(xs[1..], p);
    }
  }

  lemma {:induction false} FilterAll<T>(xs: seq<T>, p: T -> bool)
    requires forall x :: x in xs ==> p(x)
    ensures Filter(xs, p) == xs
  {
    if xs != [] {
      FilterAll(xs[1..], p);
    }
  }

  lemma {:induction false} FilterNone<T>(xs: seq<T>, p: T -> bool)
    requires forall x :: x in xs ==> !p(x)
    ensures Filter(xs, p) == []
  {
    if xs != [] {
      FilterNone(xs[1..], p);
    }
  }

  /** Filtering twice is filtering by the conjunction; a weaker outer test drops out. */
  lemma {:induction false} FilterFilter<T>(xs: seq<T>, p: T -> bool, q: T -> bool)
    requires forall x :: x in xs && q(x) ==> p(x)
    ensures Filter(Filter(xs, p), q) == Filter(xs, q)
  {
    if xs != [] {
      FilterFilter(xs[1..], p, q);
    }
  }

  /** Filtering twice keeps what passes both tests. */
  lemma {:induction false} FilterBoth<T>(xs: seq<T>, p: T -> bool, q: T -> bool, both: T -> bool)
    requires forall x :: x in xs ==> (both(x) <==> p(x) && q(x))
    ensures Filter(Filter(xs, p), q) == Filter(xs, both)
  {
    if xs != [] {
      FilterBoth(xs[1..], p, q, both);
    }
  }

  lemma {:induction false} FilterSame<T>(xs: seq<T>, p: T -> bool, q: T -> bool)
    requires forall x :: x in xs ==> (p(x) <==> q(x))
    ensures Filter(xs, p) == Filter(xs, q)
  {
    if xs != [] {
      FilterSame(xs[1..], p, q);
    }
  }

  /** How many elements satisfy `p`. */
  function Count<T>(xs: seq<T>, p: T -> bool): (n: nat)
    ensures n <= |xs|
  {
    if xs == [] then 0 else (if p(xs[0]) then 1 else 0) + Count(xs[1..], p)
  }

  lemma {:induction false} FilterCount<T>(xs: seq<T>, p: T -> bool)
    ensures |Filter(xs, p)| == Count(xs, p)
  {
    if xs != [] {
      FilterCount(xs[1..], p);
    }
  }

  lemma {:induction false} CountSplit<T>(xs: seq<T>, p: T -> bool, q: T -> bool)
    requires forall x :: q(x) <==> !p(x)
    ensures Count(xs, p) + Count(xs, q) == |xs|
  {
    if xs != [] {
      CountSplit(xs[1..], p, q);
    }
  }

  lemma {:induction false} CountAppend<T>(xs: seq<T>, ys: seq<T>, p: T -> bool)
    ensures Count(xs + ys, p) == Count(xs, p) + Count(ys, p)
  {
    if xs == [] {
      assert xs + ys == ys;
    } else {
      CountAppend(xs[1..], ys, p);
      assert (xs + ys)[1..] == xs[1..] + ys;
    }
  }

  function Omit<T>(xs: seq<T>, i: nat): seq<T>
    requires i < |xs|
  {
    xs[..i] + xs[i + 1..]
  }

  lemma OmitElements<T>(xs: seq<T>, i: nat)
    requires i < |xs|
    ensures multiset(Omit(xs, i)) == multiset(xs) - multiset{xs[i]}
  {
    assert xs == xs[..i] + [xs[i]] + xs[i + 1..];
  }

  lemma OmitSplit<T>(xs: seq<T>, i: nat)
    requires i < |xs|
    ensures xs == xs[..i] + ([xs[i]] + xs[i + 1..])
  {
  }

  lemma CountOne<T>(x: T, p: T -> bool)
    ensures Count([x], p) == if p(x) then 1 else 0
  {
    assert [x][1..] == [];
  }

  lemma OmitCount<T>(xs: seq<T>, i: nat, p: T -> bool)
    requires i < |xs|
    ensures Count(xs, p) == Count(Omit(xs, i), p) + (if p(xs[i]) then 1 else 0)
  {
    hide Count;
    var front, back := xs[..i], xs[i + 1..];
    OmitSplit(xs, i);
    CountAppend(front, [xs[i]] + back, p);
    CountAppend([xs[i]], back, p);
    CountAppend(front, back, p);
    CountOne(xs[i], p);
  }

  lemma SomewhereIn<T>(xs: seq<T>, ys: seq<T>) returns (i: nat)
    requires multiset(xs) == multiset(ys) && xs != []
    ensures i < |ys| && ys[i] == xs[0]
  {
    assert xs[0] in multiset(ys);
    i :| 0 <= i < |ys| && ys[i] == xs[0];
  }

  lemma OmitShorter<T>(xs: seq<T>, i: nat)
    requires i < |xs|
    ensures |Omit(xs, i)| == |xs| - 1
  {
  }

  /** Counting does not depend on the order. */
  lemma {:induction false} CountSame<T>(xs: seq<T>, ys: seq<T>, p: T -> bool)
    requires multiset(xs) == multiset(ys)
    ensures Count(xs, p) == Count(ys, p)
  {
    if xs == [] {
      assert |multiset(ys)| == 0;
    } else {
      hide Count, Omit;
      var i := SomewhereIn(xs, ys);
      OmitElements(ys, i);
      OmitElements(xs, 0);
      OmitCount(ys, i, p);
      OmitCount(xs, 0, p);
      OmitShorter(xs, 0);
      CountSame(Omit(xs, 0), Omit(ys, i), p);
    }
  }

  lemma {:induction false} CountZero<T>(xs: seq<T>, p: T -> bool)
    ensures Count(xs, p) == 0 <==> forall i :: 0 <= i < |xs| ==> !p(xs[i])
    ensures Count(xs, p) == |xs| <==> forall i :: 0 <= i < |xs| ==> p(xs[i])
  {
    if xs != [] {
      CountZero(xs[1..], p);
      assert forall i :: 0 < i < |xs| ==> xs[i] == xs[1..][i - 1];
      assert forall i :: 0 <= i < |xs| - 1 ==> xs[1..][i] == xs[i + 1];
    }
  }

  /** Some sequence with the given elements. */
  ghost function SeqOf<T>(m: multiset<T>): (xs: seq<T>)
    ensures multiset(xs) == m
    decreases |m|
  {
    if m == multiset{} then []
    else var x :| x in m; [x] + SeqOf(m - multiset{x})
  }

  function HasValue<T>(key: T -> real, v: real): T -> bool {
    x => key(x) == v
  }

  /** The elements whose key is `v`, in order: what a stable sort must not permute. */
  function AtKey<T>(xs: seq<T>, key: T -> real, v: real): seq<T> {
    Filter(xs, HasValue(key, v))
  }

  lemma AtKeySound<T>(xs: seq<T>, key: T -> real, v: real)
    ensures forall x :: x in AtKey(xs, key, v) <==> x in xs && key(x) == v
  {
    FilterSound(xs, HasValue(key, v));
  }

  ghost predicate SortedBy<T>(xs: seq<T>, key: T -> real) {
    xs == [] || ((forall y :: y in xs[1..] ==> key(xs[0]) <= key(y)) && SortedBy(xs[1..], key))
  }

  lemma {:induction false} SortedAt<T>(xs: seq<T>, key: T -> real, i: nat, j: nat)
    requires SortedBy(xs, key) && i < j < |xs|
    ensures key(xs[i]) <= key(xs[j])
  {
    if i == 0 {
      assert xs[j] == xs[1..][j - 1];
    } else {
      SortedAt(xs[1..], key, i - 1, j - 1);
    }
  }

  lemma {:induction false} SortedFromPairs<T>(xs: seq<T>, key: T -> real)
    requires forall i, j :: 0 <= i < j < |xs| ==> key(xs[i]) <= key(xs[j])
    ensures SortedBy(xs, key)
  {
    if xs != [] {
      forall y | y in xs[1..] ensures key(xs[0]) <= key(y) {
        var j :| 0 <= j < |xs[1..]| && xs[1..][j] == y;
        assert xs[j + 1] == y;
      }
      SortedFromPairs(xs[1..], key);
    }
  }

  /** Puts `x` in front of the first element whose key is not smaller. */
  function Insert<T>(x: T, xs: seq<T>, key: T -> real): (r: seq<T>)
  {
    if xs == [] then [x]
    else if key(x) <= key(xs[0]) then [x] + xs
    else [xs[0]] + Insert(x, xs[1..], key)
  }

  /** A stable ascending sort: elements with equal keys keep their order. */
  function SortBy<T>(xs: seq<T>, key: T -> real): (r: seq<T>)
  {
    if xs == [] then [] else Insert(xs[0], SortBy(xs[1..], key), key)
  }

  lemma {:induction false} InsertSame<T>(x: T, xs: seq<T>, key: T -> real)
    ensures multiset(Insert(x, xs, key)) == multiset{x} + multiset(xs)
  {
    if xs != [] && key(x) > key(xs[0]) {
      InsertSame(x, xs[1..], key);
      assert xs == [xs[0]] + xs[1..];
    }
  }

  lemma {:induction false} InsertSorted<T>(x: T, xs: seq<T>, key: T -> real)
    requires SortedBy(xs, key)
    ensures SortedBy(Insert(x, xs, key), key)
  {
    if xs == [] {
    } else if key(x) <= key(xs[0]) {
      assert ([x] + xs)[1..] == xs;
    } else {
      InsertSorted(x, xs[1..], key);
      var rest := Insert(x, xs[1..], key);
      assert ([xs[0]] + rest)[1..] == rest;
      forall y | y in rest ensures key(xs[0]) <= key(y) {
        InsertSame(x, xs[1..], key);
        assert y in multiset(rest);
      }
    }
  }

  lemma {:induction false} InsertStable<T>(x: T, xs: seq<T>, key: T -> real, v: real)
    ensures AtKey(Insert(x, xs, key), key, v) == (if key(x) == v then [x] else []) + AtKey(xs, key, v)
  {
    if xs == [] {
      assert [x][1..] == [];
    } else if key(x) <= key(xs[0]) {
      assert ([x] + xs)[1..] == xs;
    } else {
      InsertStable(x, xs[1..], key, v);
      var rest := Insert(x, xs[1..], key);
      assert ([xs[0]] + rest)[1..] == rest;
    }
  }

  /** The sort is a permutation, is ordered, and is stable. */
  lemma {:induction false} SortByProps<T>(xs: seq<T>, key: T -> real)
    ensures SortedBy(SortBy(xs, key), key)
    ensures multiset(SortBy(xs, key)) == multiset(xs)
    ensures |SortBy(xs, key)| == |xs|
    ensures forall v: real :: AtKey(SortBy(xs, key), key, v) == AtKey(xs, key, v)
  {
    if xs != [] {
      SortByProps(xs[1..], key);
      var rest := SortBy(xs[1..], key);
      InsertSame(xs[0], rest, key);
      InsertSorted(xs[0], rest, key);
      assert xs == [xs[0]] + xs[1..];
      assert |SortBy(xs, key)| == |multiset(SortBy(xs, key))| == |multiset(xs)| == |xs|;
      forall v: real ensures AtKey(SortBy(xs, key), key, v) == AtKey(xs, key, v) {
        InsertStable(xs[0], rest, key, v);
        assert AtKey(rest, key, v) == AtKey(xs[1..], key, v);
      }
    }
  }

  /** Being ordered and stable determines the result, so any stable sort computes `SortBy`. */
  lemma {:induction false} StableSortUnique<T>(xs: seq<T>, ys: seq<T>, key: T -> real)
    requires SortedBy(xs, key) && SortedBy(ys, key)
    requires forall v: real :: AtKey(xs, key, v) == AtKey(ys, key, v)
    ensures xs == ys
  {
    if ys != [] {
      assert AtKey(xs, key, key(ys[0])) == AtKey(ys, key, key(ys[0]));
    }
    if xs != [] {
      var v := key(xs[0]);
      assert AtKey(ys, key, v) == AtKey(xs, key, v);
      AtKeySound(ys, key, v);
      assert xs[0] in AtKey(ys, key, v);
      assert xs[0] in ys;
      var w := key(ys[0]);
      assert AtKey(xs, key, w) == AtKey(ys, key, w);
      AtKeySound(xs, key, w);
      assert ys[0] in AtKey(xs, key, w);
      assert AtKey(xs, key, v)[0] == xs[0] && AtKey(ys, key, w)[0] == ys[0];
      assert v == w && xs[0] == ys[0];
      forall u: real ensures AtKey(xs[1..], key, u) == AtKey(ys[1..], key, u) {
        assert AtKey(xs, key, u) == AtKey(ys, key, u);
        if v == u {
          assert AtKey(xs, key, u)[1..] == AtKey(xs[1..], key, u);
          assert AtKey(ys, key, u)[1..] == AtKey(ys[1..], key, u);
        }
      }
      StableSortUnique(xs[1..], ys[1..], key);
    }
  }

  /** A sequence that is already ordered is its own sort. */
  lemma {:induction false} SortOfSorted<T>(xs: seq<T>, key: T -> real)
    requires SortedBy(xs, key)
    ensures SortBy(xs, key) == xs
  {
    SortByProps(xs, key);
    StableSortUnique(SortBy(xs, key), xs, key);
  }

  /** `a` occurs before `b`. */
  ghost predicate Precedes<T>(xs: seq<T>, a: T, b: T) {
    exists i, j :: 0 <= i < j < |xs| && xs[i] == a && xs[j] == b
  }

  lemma PrecedesCons<T>(x: T, xs: seq<T>, a: T, b: T)
    ensures Precedes([x] + xs, a, b) <==> Precedes(xs, a, b) || (x == a && b in xs)
  {
    var ys := [x] + xs;
    if i, j :| 0 <= i < j < |ys| && ys[i] == a && ys[j] == b {
      assert b == xs[j - 1];
      if i > 0 {
        assert xs[i - 1] == a && xs[j - 1] == b;
      }
    }
    if i, j :| 0 <= i < j < |xs| && xs[i] == a && xs[j] == b {
      assert ys[i + 1] == a && ys[j + 1] == b;
    }
    if x == a && b in xs {
      var j :| 0 <= j < |xs| && xs[j] == b;
      assert ys[0] == a && ys[j + 1] == b;
    }
  }

  lemma {:induction false} InsertMembers<T>(x: T, xs: seq<T>, key: T -> real)
    ensures forall y :: y in Insert(x, xs, key) <==> y == x || y in xs
  {
    if xs != [] {
      InsertMembers(x, xs[1..], key);
    }
  }

  lemma {:induction false} InsertKeepsOrder<T>(x: T, xs: seq<T>, key: T -> real, a: T, b: T)
    requires Precedes(xs, a, b) || (a == x && b in xs && key(x) <= key(b))
    ensures Precedes(Insert(x, xs, key), a, b)
  {
    assert xs == [xs[0]] + xs[1..];
    PrecedesCons(xs[0], xs[1..], a, b);
    if key(x) <= key(xs[0]) {
      PrecedesCons(x, xs, a, b);
    } else {
      PrecedesCons(xs[0], Insert(x, xs[1..], key), a, b);
      InsertMembers(x, xs[1..], key);
      if Precedes(xs[1..], a, b) || (a == x && b in xs[1..] && key(x) <= key(b)) {
        InsertKeepsOrder(x, xs[1..], key, a, b);
      }
    }
  }

  lemma {:induction false} SortMembers<T>(xs: seq<T>, key: T -> real)
    ensures forall y :: y in SortBy(xs, key) <==> y in xs
  {
    if xs != [] {
      SortMembers(xs[1..], key);
      InsertMembers(xs[0], SortBy(xs[1..], key), key);
    }
  }

  /** The sort moves nothing behind an element that is not smaller. */
  lemma {:induction false} SortKeepsOrder<T>(xs: seq<T>, key: T -> real, a: T, b: T)
    requires Precedes(xs, a, b) && key(a) <= key(b)
    ensures Precedes(SortBy(xs, key), a, b)
  {
    assert xs == [xs[0]] + xs[1..];
    PrecedesCons(xs[0], xs[1..], a, b);
    SortMembers(xs[1..], key);
    if Precedes(xs[1..], a, b) {
      SortKeepsOrder(xs[1..], key, a, b);
    }
    InsertKeepsOrder(xs[0], SortBy(xs[1..], key), key, a, b);
  }
}
