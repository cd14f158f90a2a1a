/** The page limits shared by all list queries of the store. */
module Paging {
  import opened Sequences

  const MAX_PAGE_SIZE := 500

  /** `LIMIT lim OFFSET off`. */
  function Page<T>(xs: seq<T>, lim: nat, off: nat): (page: seq<T>)
    ensures |page| == if off >= |xs| then 0 else if off + lim <= |xs| then lim else |xs| - off
    ensures forall i :: 0 <= i < |page| ==> page[i] == xs[off + i]
  {
    if off >= |xs| then [] else if off + lim <= |xs| then xs[off..off + lim] else xs[off..]
  }

  function PageSize(limit: Option<int>): nat {
    if limit.None? || limit.value > MAX_PAGE_SIZE then MAX_PAGE_SIZE
    else if limit.value <= 0 then 100 else limit.value
  }

  /** Limits outside 1..500 become 100 or 500, a missing one 500; negative offsets become 0. */
  method Paginate(limit: Option<int>, offset: int) returns (lim: nat, off: nat)
    ensures limit.None? ==> lim == 500
    ensures limit.Some? && limit.value <= 0 ==> lim == 100
    ensures limit.Some? && limit.value > 0 ==> lim == if limit.value < 500 then limit.value else 500
    ensures lim == PageSize(limit) && off == if offset > 0 then offset else 0
  {
    off := if offset > 0 then offset else 0;
    if limit.None? {
      return MAX_PAGE_SIZE, off;
    }
    var l := limit.value;
    if l <= 0 {
      l := 100;
    }
    if l > MAX_PAGE_SIZE {
      l := MAX_PAGE_SIZE;
    }
    lim := l;
  }

  // ----- what one page covers

  lemma {:induction false} DistinctCount<T>(xs: seq<T>)
    requires forall i, j :: 0 <= i < j < |xs| ==> xs[i] != xs[j]
    ensures |set x | x in xs| == |xs|
  {
    if xs != [] {
      DistinctCount(xs[1..]);
      assert (set x | x in xs) == {xs[0]} + set x | x in xs[1..];
    }
  }

  /** `xs` is one page of `all`: each element once, and all of them unless the page is full. */
  ghost predicate IsPage<T(!new)>(all: set<T>, xs: seq<T>) {
    && |xs| <= MAX_PAGE_SIZE
    && (forall x :: x in xs ==> x in all)
    && (forall i, j :: 0 <= i < j < |xs| ==> xs[i] != xs[j])
    && (|xs| < MAX_PAGE_SIZE ==> forall x :: x in all ==> x in xs)
  }

  /** A page covers everything exactly up to 500 elements, and leaves out the number beyond. */
  lemma PageCovers<T(!new)>(all: set<T>, xs: seq<T>)
    requires IsPage(all, xs)
    ensures (forall x :: x in all ==> x in xs) <==> |all| <= MAX_PAGE_SIZE
    ensures |set x | x in all && x !in xs| == if |all| <= MAX_PAGE_SIZE then 0 else |all| - MAX_PAGE_SIZE
  {
    var page, beyond := set x | x in xs, set x | x in all && x !in xs;
    DistinctCount(xs);
    assert all == page + beyond && page * beyond == {};
    assert |all| == |page| + |beyond|;
    if |xs| < MAX_PAGE_SIZE {
      assert beyond == {};
    }
    if forall x :: x in all ==> x in xs {
      assert beyond == {};
    } else {
      var x :| x in all && x !in xs;
      assert x in beyond;
    }
  }
}
