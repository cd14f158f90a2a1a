/** The query for the latest rows of a chat, which leaves the order of rows of equal time open, and
    when its answer is determined all the same. */
module LatestRows {
  import opened Sequences
  import opened TopAnswers
  import opened MessageLog

  /** An answer to `(... ORDER BY created_at DESC LIMIT k) ORDER BY created_at ASC`. The query
      does not order rows of equal time, so any choice and order among ties is an answer. */
  ghost predicate IsLatest(asc: seq<Message>, k: nat, answer: seq<Message>) {
    Top(asc, k, answer, ByTime()) && SortedBy(answer, ByTime())
  }

  function Latest(asc: seq<Message>, k: nat): seq<Message>
    requires k <= |asc|
  {
    asc[|asc| - k..]
  }

  // ----- DESC LIMIT, then ASC, is the end of the ascending listing

  lemma SplitAt(xs: seq<Message>, s: nat)
    requires s <= |xs|
    ensures multiset(xs[s..]) <= multiset(xs) && multiset(xs) - multiset(xs[s..]) == multiset(xs[..s])
  {
    assert xs == xs[..s] + xs[s..];
  }

  lemma SuffixSorted(xs: seq<Message>, s: nat)
    requires SortedBy(xs, ByTime()) && s <= |xs|
    ensures SortedBy(xs[s..], ByTime())
    decreases s
  {
    if s > 0 {
      SuffixSorted(xs[1..], s - 1);
      assert xs[s..] == xs[1..][s - 1..];
    }
  }

  lemma PrefixEarlier(asc: seq<Message>, s: nat, b: Message, a: Message)
    requires SortedBy(asc, ByTime()) && s <= |asc| && b in asc[..s] && a in asc[s..]
    ensures b.createdAt <= a.createdAt
  {
    var i :| 0 <= i < s && asc[..s][i] == b;
    var j :| 0 <= j < |asc| - s && asc[s..][j] == a;
    SortedAt(asc, ByTime(), i, s + j);
  }

  lemma SuffixIsLatest(asc: seq<Message>, s: nat)
    requires SortedBy(asc, ByTime()) && s <= |asc|
    ensures NoneAbove(asc[s..], multiset(asc[..s]), ByTime())
  {
    forall a, b | a in asc[s..] && b in multiset(asc[..s]) ensures b.createdAt <= a.createdAt {
      PrefixEarlier(asc, s, b, a);
    }
    hide SortedBy;
  }

  /** The end of any ascending arrangement of the rows is an answer. */
  lemma {:induction false} LatestIsAnswer(asc: seq<Message>, k: nat)
    requires SortedBy(asc, ByTime()) && k <= |asc|
    ensures IsLatest(asc, k, Latest(asc, k))
  {
    var s := |asc| - k;
    hide SortedBy, NoneAbove;
    SuffixSorted(asc, s);
    SplitAt(asc, s);
    SuffixIsLatest(asc, s);
  }

  /** Each row of an answer is a row of the listing, of the same time as the row at its place. */
  lemma {:induction false} AnswerAt(asc: seq<Message>, k: nat, answer: seq<Message>, p: nat) returns (q: nat)
    requires SortedBy(asc, ByTime()) && k <= |asc| && IsLatest(asc, k, answer) && p < k
    ensures |answer| == k && q < |asc| && answer[p] == asc[q]
    ensures asc[q].createdAt == asc[|asc| - k + p].createdAt
  {
    LatestIsAnswer(asc, k);
    hide NoneAbove, SortedBy;
    TopKeys(asc, k, answer, Latest(asc, k), ByTime());
    TopElements(asc, k, answer, ByTime(), answer[p]);
    q :| 0 <= q < |asc| && asc[q] == answer[p];
    assert ByTime()(answer[p]) == ByTime()(Latest(asc, k)[p]);
  }

  // ----- when the rows are determined

  /** From position `s` on, each row is later than the one before it. */
  ghost predicate StrictFrom(asc: seq<Message>, s: int) {
    forall j :: 0 < j < |asc| && s <= j ==> asc[j - 1].createdAt < asc[j].createdAt
  }

  ghost predicate DistinctIds(rows: seq<Message>) {
    forall i, j :: 0 <= i < j < |rows| ==> rows[i].id != rows[j].id
  }

  /** Two rows of equal time, the later one in the listing at position `s` or behind it. */
  ghost predicate Tied(asc: seq<Message>, s: int, i: nat, j: nat) {
    i < j < |asc| && s <= j && asc[i].createdAt == asc[j].createdAt
  }

  ghost predicate TieFree(asc: seq<Message>, s: int) {
    forall i: nat, j: nat :: !Tied(asc, s, i, j)
  }

  lemma StrictPair(asc: seq<Message>, s: int, i: nat, j: nat)
    requires SortedBy(asc, ByTime()) && StrictFrom(asc, s) && i < j < |asc| && s <= j
    ensures asc[i].createdAt < asc[j].createdAt
  {
    if i < j - 1 {
      SortedAt(asc, ByTime(), i, j - 1);
    }
    hide SortedBy;
    assert asc[j - 1].createdAt < asc[j].createdAt;
  }

  lemma StrictIsTieFree(asc: seq<Message>, s: int)
    requires SortedBy(asc, ByTime())
    ensures StrictFrom(asc, s) <==> TieFree(asc, s)
  {
    hide SortedBy;
    if StrictFrom(asc, s) {
      forall i: nat, j: nat ensures !Tied(asc, s, i, j) {
        if i < j < |asc| && s <= j {
          StrictPair(asc, s, i, j);
        }
      }
    } else {
      var j :| 0 < j < |asc| && s <= j && !(asc[j - 1].createdAt < asc[j].createdAt);
      SortedAt(asc, ByTime(), j - 1, j);
      assert Tied(asc, s, j - 1, j);
    }
  }

  lemma AnswerLength(asc: seq<Message>, k: nat, answer: seq<Message>)
    requires k <= |asc| && IsLatest(asc, k, answer)
    ensures |answer| == k
  {
  }

  lemma SameElements(a: seq<Message>, b: seq<Message>)
    requires |a| == |b| && forall p :: 0 <= p < |a| ==> a[p] == b[p]
    ensures a == b
  {
  }

  lemma LatestLength(asc: seq<Message>, k: nat)
    requires k <= |asc|
    ensures |Latest(asc, k)| == k
  {
  }

  lemma UntiedRow(asc: seq<Message>, k: nat, answer: seq<Message>, p: nat)
    requires SortedBy(asc, ByTime()) && k <= |asc| && IsLatest(asc, k, answer) && p < k
    requires TieFree(asc, |asc| - k)
    ensures |answer| == |Latest(asc, k)| == k && answer[p] == Latest(asc, k)[p]
  {
    hide SortedBy, IsLatest;
    var q := AnswerAt(asc, k, answer, p);
    assert !Tied(asc, |asc| - k, q, |asc| - k + p) && !Tied(asc, |asc| - k, |asc| - k + p, q);
  }

  /** If times are strict where it matters, the query has one answer: the end of the listing. */
  lemma {:induction false} LatestUnique(asc: seq<Message>, k: nat, answer: seq<Message>)
    requires SortedBy(asc, ByTime()) && k <= |asc| && IsLatest(asc, k, answer) && StrictFrom(asc, |asc| - k)
    ensures answer == Latest(asc, k)
  {
    hide *;
    StrictIsTieFree(asc, |asc| - k);
    AnswerLength(asc, k, answer);
    LatestLength(asc, k);
    forall p: nat | p < k ensures answer[p] == Latest(asc, k)[p] {
      UntiedRow(asc, k, answer, p);
    }
    SameElements(answer, Latest(asc, k));
  }

  /** The listing with two rows exchanged. */
  function Swapped(asc: seq<Message>, i: nat, j: nat): seq<Message>
    requires i < j < |asc|
  {
    asc[i := asc[j]][j := asc[i]]
  }

  lemma SwappedSame(asc: seq<Message>, i: nat, j: nat)
    requires i < j < |asc|
    ensures multiset(Swapped(asc, i, j)) == multiset(asc) && |Swapped(asc, i, j)| == |asc|
  {
  }

  lemma SwappedSorted(asc: seq<Message>, i: nat, j: nat)
    requires SortedBy(asc, ByTime()) && i < j < |asc| && asc[i].createdAt == asc[j].createdAt
    ensures SortedBy(Swapped(asc, i, j), ByTime())
  {
    var sw := Swapped(asc, i, j);
    assert forall m :: 0 <= m < |asc| ==> sw[m].createdAt == asc[m].createdAt;
    forall m, n | 0 <= m < n < |sw| ensures sw[m].createdAt <= sw[n].createdAt {
      SortedAt(asc, ByTime(), m, n);
    }
    SortedFromPairs(sw, ByTime());
  }

  lemma SameAnswers(xs: seq<Message>, ys: seq<Message>, k: nat, answer: seq<Message>)
    requires multiset(xs) == multiset(ys) && IsLatest(xs, k, answer)
    ensures IsLatest(ys, k, answer)
  {
    assert |xs| == |multiset(xs)| == |multiset(ys)| == |ys|;
  }

  /** Exchanging tied rows gives the query another answer, with the one row at the place of the other. */
  lemma SwappedAnswer(asc: seq<Message>, k: nat, i: nat, j: nat)
    requires SortedBy(asc, ByTime()) && k <= |asc| && Tied(asc, |asc| - k, i, j)
    ensures var answer := Latest(Swapped(asc, i, j), k);
            IsLatest(asc, k, answer) && |answer| == k && answer[j - (|asc| - k)] == asc[i]
  {
    SwappedSame(asc, i, j);
    SwappedSorted(asc, i, j);
    LatestIsAnswer(Swapped(asc, i, j), k);
    hide IsLatest, SortedBy;
    SameAnswers(Swapped(asc, i, j), asc, k, Latest(Swapped(asc, i, j), k));
  }

  /** A tie that reaches the kept rows gives the query a second answer. */
  lemma {:induction false} TieGivesTwoAnswers(asc: seq<Message>, k: nat, i: nat, j: nat)
    requires SortedBy(asc, ByTime()) && DistinctIds(asc) && k <= |asc| && Tied(asc, |asc| - k, i, j)
    ensures IsLatest(asc, k, Latest(Swapped(asc, i, j), k)) && Latest(Swapped(asc, i, j), k) != Latest(asc, k)
  {
    SwappedAnswer(asc, k, i, j);
    assert Latest(asc, k)[j - (|asc| - k)] == asc[j];
    hide IsLatest, SortedBy;
  }

  /** The rows of the answer are determined exactly when each kept row is later than the row before
      it; otherwise the database may return different rows or a different order. */
  lemma RowsDeterminedExactly(asc: seq<Message>, k: nat)
    requires SortedBy(asc, ByTime()) && DistinctIds(asc) && k <= |asc|
    ensures (forall answer :: IsLatest(asc, k, answer) ==> answer == Latest(asc, k)) <==> StrictFrom(asc, |asc| - k)
  {
    hide SortedBy, IsLatest, Latest, StrictFrom, DistinctIds;
    if StrictFrom(asc, |asc| - k) {
      forall answer | IsLatest(asc, k, answer) ensures answer == Latest(asc, k) {
        LatestUnique(asc, k, answer);
      }
    } else {
      StrictIsTieFree(asc, |asc| - k);
      var i: nat, j: nat :| Tied(asc, |asc| - k, i, j);
      TieGivesTwoAnswers(asc, k, i, j);
    }
  }

  // ----- when role and content are determined

  function Records(rows: seq<Message>): seq<Record> {
    if rows == [] then []
    else [Record(rows[0].body.role, rows[0].body.content, rows[0].createdAt)] + Records(rows[1..])
  }

  /** The rows to insert: role and content; the JSON columns were not part of the snapshot. */
  function RestoredBodies(records: seq<Record>): seq<Body> {
    if records == [] then []
    else [Body(records[0].role, records[0].content, NO_META)] + RestoredBodies(records[1..])
  }

  /** Bodies without their JSON columns. */
  function Stripped(rows: seq<Message>): seq<Body> {
    if rows == [] then [] else [rows[0].body.(meta := NO_META)] + Stripped(rows[1..])
  }

  lemma {:induction false} RecordsAt(rows: seq<Message>)
    ensures |Records(rows)| == |Stripped(rows)| == |rows|
    ensures forall i :: 0 <= i < |rows| ==>
              && Records(rows)[i] == Record(rows[i].body.role, rows[i].body.content, rows[i].createdAt)
              && Stripped(rows)[i] == rows[i].body.(meta := NO_META)
  {
    if rows != [] {
      RecordsAt(rows[1..]);
    }
  }

  predicate SameText(a: Message, b: Message) {
    a.body.role == b.body.role && a.body.content == b.body.content
  }

  /** Rows of equal time that can come to lie at position `s` or behind it agree in role and content. */
  ghost predicate TiesAgree(asc: seq<Message>, s: int) {
    forall i: nat, j: nat :: Tied(asc, s, i, j) ==> SameText(asc[i], asc[j])
  }

  lemma StrictAgrees(asc: seq<Message>, s: int)
    requires SortedBy(asc, ByTime()) && StrictFrom(asc, s)
    ensures TiesAgree(asc, s)
  {
    StrictIsTieFree(asc, s);
    hide StrictFrom, SortedBy;
  }

  lemma AgreeingRow(asc: seq<Message>, k: nat, answer: seq<Message>, p: nat)
    requires SortedBy(asc, ByTime()) && k <= |asc| && IsLatest(asc, k, answer) && TiesAgree(asc, |asc| - k) && p < k
    ensures |answer| == |Latest(asc, k)| == k
    ensures SameText(answer[p], Latest(asc, k)[p]) && answer[p].createdAt == Latest(asc, k)[p].createdAt
  {
    hide SortedBy, IsLatest;
    var s := |asc| - k;
    var q := AnswerAt(asc, k, answer, p);
    assert Latest(asc, k)[p] == asc[s + p];
    if q < s + p {
      assert Tied(asc, s, q, s + p);
    } else if s + p < q {
      assert Tied(asc, s, s + p, q);
    }
  }

  lemma {:induction false} SameTexts(a: seq<Message>, b: seq<Message>)
    requires |a| == |b|
    requires forall p :: 0 <= p < |a| ==> SameText(a[p], b[p]) && a[p].createdAt == b[p].createdAt
    ensures Records(a) == Records(b) && Stripped(a) == Stripped(b)
  {
    if a != [] {
      assert forall p :: 0 <= p < |a| - 1 ==> a[1..][p] == a[p + 1] && b[1..][p] == b[p + 1];
      SameTexts(a[1..], b[1..]);
    }
  }

  lemma AgreeingAnswer(asc: seq<Message>, k: nat, answer: seq<Message>)
    requires SortedBy(asc, ByTime()) && k <= |asc| && IsLatest(asc, k, answer) && TiesAgree(asc, |asc| - k)
    ensures Records(answer) == Records(Latest(asc, k)) && Stripped(answer) == Stripped(Latest(asc, k))
  {
    hide *;
    AnswerLength(asc, k, answer);
    LatestLength(asc, k);
    forall p: nat | p < k
      ensures SameText(answer[p], Latest(asc, k)[p]) && answer[p].createdAt == Latest(asc, k)[p].createdAt
    {
      AgreeingRow(asc, k, answer, p);
    }
    SameTexts(answer, Latest(asc, k));
  }

  lemma DisagreeingAnswer(asc: seq<Message>, k: nat, i: nat, j: nat)
    requires SortedBy(asc, ByTime()) && k <= |asc| && Tied(asc, |asc| - k, i, j) && !SameText(asc[i], asc[j])
    ensures var answer := Latest(Swapped(asc, i, j), k);
            && IsLatest(asc, k, answer)
            && Records(answer) != Records(Latest(asc, k)) && Stripped(answer) != Stripped(Latest(asc, k))
  {
    SwappedAnswer(asc, k, i, j);
    var answer, p := Latest(Swapped(asc, i, j), k), j - (|asc| - k);
    RecordsAt(answer);
    RecordsAt(Latest(asc, k));
    hide IsLatest, SortedBy, Records, Stripped;
    assert Latest(asc, k)[p] == asc[j];
    assert Records(answer)[p] != Records(Latest(asc, k))[p];
    assert Stripped(answer)[p] != Stripped(Latest(asc, k))[p];
  }

  /** What a snapshot records, and what its restore gives back, is determined exactly when rows of
      equal time that can reach the kept part agree in role and content. */
  lemma {:induction false} TextDeterminedExactly(asc: seq<Message>, k: nat)
    requires SortedBy(asc, ByTime()) && k <= |asc|
    ensures (forall answer :: IsLatest(asc, k, answer) ==> Records(answer) == Records(Latest(asc, k))) <==>
            TiesAgree(asc, |asc| - k)
    ensures (forall answer :: IsLatest(asc, k, answer) ==> Stripped(answer) == Stripped(Latest(asc, k))) <==>
            TiesAgree(asc, |asc| - k)
  {
    hide SortedBy, IsLatest, Records, Stripped, Latest;
    if TiesAgree(asc, |asc| - k) {
      forall answer | IsLatest(asc, k, answer)
        ensures Records(answer) == Records(Latest(asc, k)) && Stripped(answer) == Stripped(Latest(asc, k))
      {
        AgreeingAnswer(asc, k, answer);
      }
    } else {
      var i: nat, j: nat :| i < j < |asc| && Tied(asc, |asc| - k, i, j) && !SameText(asc[i], asc[j]);
      DisagreeingAnswer(asc, k, i, j);
    }
  }

  // ----- distinct times

  ghost predicate DistinctTimes(rows: seq<Message>) {
    forall i, j :: 0 <= i < j < |rows| ==> rows[i].createdAt != rows[j].createdAt
  }

  lemma {:induction false} NoneAtTime(rows: seq<Message>, v: real)
    requires forall i :: 0 <= i < |rows| ==> rows[i].createdAt != v
    ensures AtKey(rows, ByTime(), v) == []
  {
    if rows != [] {
      NoneAtTime(rows[1..], v);
    }
  }

  lemma {:induction false} OnePerTime(rows: seq<Message>, v: real)
    requires DistinctTimes(rows)
    ensures |AtKey(rows, ByTime(), v)| <= 1
  {
    if rows != [] {
      OnePerTime(rows[1..], v);
      if rows[0].createdAt == v {
        forall i | 0 <= i < |rows[1..]| ensures rows[1..][i].createdAt != v {
          assert rows[i + 1] == rows[1..][i];
        }
        NoneAtTime(rows[1..], v);
      }
    }
  }

  lemma {:induction false} TwoPerTime(xs: seq<Message>, j: nat)
    requires 0 < j < |xs| && xs[j - 1].createdAt == xs[j].createdAt
    ensures |AtKey(xs, ByTime(), xs[j].createdAt)| >= 2
  {
    var v := xs[j].createdAt;
    if j == 1 {
      assert xs[1..][0] == xs[1] && AtKey(xs[1..], ByTime(), v) == [xs[1]] + AtKey(xs[1..][1..], ByTime(), v);
    } else {
      TwoPerTime(xs[1..], j - 1);
      assert xs[1..][j - 1] == xs[j] && xs[1..][j - 2] == xs[j - 1];
    }
  }

  /** Messages with distinct times list strictly. */
  lemma DistinctIsStrict(rows: seq<Message>)
    requires DistinctTimes(rows)
    ensures StrictFrom(SortBy(rows, ByTime()), 0)
  {
    var asc := SortBy(rows, ByTime());
    SortByProps(rows, ByTime());
    forall j | 0 < j < |asc| ensures asc[j - 1].createdAt < asc[j].createdAt {
      SortedAt(asc, ByTime(), j - 1, j);
      if asc[j - 1].createdAt == asc[j].createdAt {
        TwoPerTime(asc, j);
        OnePerTime(rows, asc[j].createdAt);
      }
    }
  }
}
