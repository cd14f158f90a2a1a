/** Forking a chat page by page, and taking and restoring snapshots. */
module Conversations {
  import opened Sequences
  import opened Paging
  import opened MessageLog

  // ----- forking

  function Max0(n: int): nat {
    if n < 0 then 0 else n
  }

  /** The last `cap` elements, or all of them; none for a negative cap. */
  function Tail<T>(xs: seq<T>, cap: int): seq<T> {
    if cap >= |xs| then xs else xs[|xs| - Max0(cap)..]
  }

  ghost predicate Monotone(clock: nat -> real) {
    forall i, j :: 0 <= i <= j ==> clock(i) <= clock(j)
  }

  /** What the fork has written so far: the pages up to `offset`, in order, at times the clock
      has passed. */
  ghost predicate Copied(rows: seq<Message>, before: seq<Message>, source: ChatId, dest: ChatId,
                         from: nat, offset: nat, now: real) {
    var asc := Ascending(before, source);
    && from <= offset <= |asc|
    && (forall c :: c != dest ==> Of(rows, c) == Of(before, c))
    && Bodies(Of(rows, dest)) == Bodies(asc[from..offset])
    && SortedBy(Of(rows, dest), ByTime())
    && (forall i :: 0 <= i < |Of(rows, dest)| ==> Of(rows, dest)[i].createdAt <= now)
  }

  lemma AscendingLength(rows: seq<Message>, chat: ChatId)
    ensures |Ascending(rows, chat)| == |Of(rows, chat)|
  {
    SortByProps(Of(rows, chat), ByTime());
  }

  lemma NextPage<T>(xs: seq<T>, from: nat, off: nat)
    requires from <= off <= |xs|
    ensures var batch := Page(xs, MAX_PAGE_SIZE, off);
            && off + |batch| <= |xs| && (off < |xs| ==> batch != [])
            && xs[from..off] + batch == xs[from..off + |batch|]
  {
  }

  /** A batch insert into `dest`, seen chat by chat. */
  lemma BatchSeen(rows: seq<Message>, bodies: seq<Body>, dest: ChatId, now: real, id: nat, c: ChatId)
    ensures Of(rows + Stamped(bodies, dest, now, id), c) ==
            if c == dest then Of(rows, dest) + Stamped(bodies, dest, now, id) else Of(rows, c)
  {
    OfAppend(rows, Stamped(bodies, dest, now, id), c);
    OfStamped(bodies, dest, now, id, c);
  }

  /** A batch stamped later than everything in `xs`, put behind it. */
  lemma BatchBehind(xs: seq<Message>, bodies: seq<Body>, dest: ChatId, past: real, now: real, id: nat)
    requires SortedBy(xs, ByTime()) && past <= now
    requires forall i :: 0 <= i < |xs| ==> xs[i].createdAt <= past
    ensures var ys := xs + Stamped(bodies, dest, now, id);
            && SortedBy(ys, ByTime()) && Bodies(ys) == Bodies(xs) + bodies
            && forall i :: 0 <= i < |ys| ==> ys[i].createdAt <= now
  {
    OfStamped(bodies, dest, now, id, dest);
    BodiesAppend(xs, Stamped(bodies, dest, now, id));
    AppendLater(xs, Stamped(bodies, dest, now, id), now);
    hide Stamped, Bodies, Of, SortedBy;
  }

  /** One page of the copy. */
  lemma PageCopied(rows: seq<Message>, before: seq<Message>, source: ChatId, dest: ChatId, from: nat, offset: nat,
                   past: real, now: real, id: nat)
    requires source != dest && past <= now
    requires Copied(rows, before, source, dest, from, offset, past)
    ensures var batch := Page(Ascending(rows, source), MAX_PAGE_SIZE, offset);
            && Ascending(rows, source) == Ascending(before, source)
            && offset + |batch| <= |Ascending(before, source)|
            && (offset < |Ascending(before, source)| ==> batch != [])
            && Copied(rows + Stamped(Bodies(batch), dest, now, id), before, source, dest, from, offset + |batch|, now)
  {
    var asc := Ascending(before, source);
    assert Ascending(rows, source) == asc;
    var batch := Page(asc, MAX_PAGE_SIZE, offset);
    NextPage(asc, from, offset);
    hide Stamped, Bodies, Of, Ascending, Page, SortedBy;
    BodiesAppend(asc[from..offset], batch);
    BatchBehind(Of(rows, dest), Bodies(batch), dest, past, now, id);
    forall c ensures Of(rows + Stamped(Bodies(batch), dest, now, id), c) ==
                     if c == dest then Of(rows, dest) + Stamped(Bodies(batch), dest, now, id) else Of(rows, c)
    {
      BatchSeen(rows, Bodies(batch), dest, now, id, c);
    }
  }

  /** One round of the loop: reads the page at `offset` and inserts it as one batch. */
  method CopyPage(store: MessageStore, source: ChatId, dest: ChatId, offset: nat, now: real,
                  ghost before: seq<Message>, ghost from: nat, ghost past: real) returns (n: nat)
    requires source != dest && past <= now && Copied(store.rows, before, source, dest, from, offset, past)
    modifies store
    ensures Copied(store.rows, before, source, dest, from, offset + n, now)
    ensures offset < |Ascending(before, source)| ==> n > 0
  {
    ghost var rows, id := store.rows, store.nextId;
    var batch := store.ListMessages(source, Some(FORK_PAGE), offset);
    PageCopied(rows, before, source, dest, from, offset, past, now, id);
    n := |batch|;
    if batch != [] {
      var _ := store.CreateBatch(dest, Bodies(batch), now);
    } else {
      assert rows + Stamped(Bodies(batch), dest, now, id) == rows;
    }
  }

  lemma CopyStarts(before: seq<Message>, source: ChatId, dest: ChatId, from: nat, now: real)
    requires Of(before, dest) == [] && from <= |Ascending(before, source)|
    ensures Copied(before, before, source, dest, from, from, now)
  {
  }

  lemma NothingToCopy(before: seq<Message>, source: ChatId, dest: ChatId, cap: int)
    requires Of(before, dest) == [] && |Of(before, source)| <= Max0(|Of(before, source)| - cap)
    ensures Bodies(Ascending(before, dest)) == Bodies(Tail(Ascending(before, source), cap)) == []
    ensures |Tail(Ascending(before, source), cap)| == 0
  {
    AscendingLength(before, source);
    assert Tail(Ascending(before, source), cap) == [];
  }

  lemma CopyEnds(rows: seq<Message>, before: seq<Message>, source: ChatId, dest: ChatId, from: nat, offset: nat,
                 now: real, cap: int)
    requires Copied(rows, before, source, dest, from, offset, now)
    requires offset == |Ascending(before, source)| && from == Max0(offset - cap) < offset
    ensures Bodies(Ascending(rows, dest)) == Bodies(Tail(Ascending(before, source), cap))
    ensures |Tail(Ascending(before, source), cap)| == offset - from
  {
    var asc := Ascending(before, source);
    SortOfSorted(Of(rows, dest), ByTime());
    assert asc[from..offset] == Tail(asc, cap);
  }

  /** The copy of the tail, message by message. */
  lemma TailCopied(rows: seq<Message>, before: seq<Message>, source: ChatId, dest: ChatId, cap: int)
    requires Bodies(Ascending(rows, dest)) == Bodies(Tail(Ascending(before, source), cap))
    ensures var asc, copy := Ascending(before, source), Ascending(rows, dest);
            && |copy| == |Tail(asc, cap)| == (if cap < 0 then 0 else if |asc| <= cap then |asc| else cap)
            && forall i :: 0 <= i < |copy| ==> copy[i].body == asc[|asc| - |copy| + i].body
  {
    BodiesAt(Ascending(rows, dest));
    BodiesAt(Tail(Ascending(before, source), cap));
  }

  /** The loop over the pages, from position `start` to the end. */
  method CopyPages(store: MessageStore, source: ChatId, dest: ChatId, start: nat, total: nat, clock: nat -> real,
                   ghost before: seq<Message>)
    returns (copied: nat, ghost last: real)
    requires source != dest && Monotone(clock) && start <= total == |Ascending(before, source)|
    requires Copied(store.rows, before, source, dest, start, start, clock(0))
    modifies store
    ensures Copied(store.rows, before, source, dest, start, total, last) && copied == total - start
  {
    var offset, batches := start, 0;
    copied, last := 0, clock(0);
    while offset < total
      invariant start <= offset <= total && copied == offset - start && last == clock(batches)
      invariant Copied(store.rows, before, source, dest, start, offset, last)
      decreases total - offset
    {
      var n := CopyPage(store, source, dest, offset, clock(batches + 1), before, start, last);
      if n == 0 {
        break;
      }
      batches := batches + 1;
      copied, last := copied + n, clock(batches);
      offset := offset + n;
    }
  }

  /** The copying part of `fork_chat`. It asks for pages of 1000, gets at most 500, and still
      copies exactly the last `cap` messages, each once and in order; it terminates, and no
      other chat, the source included, changes. */
  method ForkMessages(store: MessageStore, source: ChatId, dest: ChatId, cap: int, clock: nat -> real)
    returns (copied: nat)
    requires source != dest && Of(store.rows, dest) == [] && Monotone(clock)
    modifies store
    ensures Bodies(Ascending(store.rows, dest)) == Bodies(Tail(Ascending(old(store.rows), source), cap))
    ensures copied == |Tail(Ascending(old(store.rows), source), cap)|
    ensures var asc, copy := Ascending(old(store.rows), source), Ascending(store.rows, dest);
            && copied == |copy| == (if cap < 0 then 0 else if |asc| <= cap then |asc| else cap)
            && forall i :: 0 <= i < copied ==> copy[i].body == asc[|asc| - copied + i].body
    ensures forall c :: c != dest ==> Of(store.rows, c) == Of(old(store.rows), c)
  {
    ghost var before := store.rows;
    AscendingLength(before, source);
    var total := store.CountMessages(source);
    var truncated := if total - cap > 0 then total - cap else 0;
    copied := 0;
    if truncated >= total {
      NothingToCopy(before, source, dest, cap);
      TailCopied(before, before, source, dest, cap);
      return;
    }
    CopyStarts(before, source, dest, truncated, clock(0));
    ghost var last;
    copied, last := CopyPages(store, source, dest, truncated, total, clock, before);
    CopyEnds(store.rows, before, source, dest, truncated, total, last, cap);
    TailCopied(store.rows, before, source, dest, cap);
  }
}
