/** Taking a snapshot of a chat's latest messages, and restoring it in one transaction. */
module Snapshots {
  import opened Sequences
  import opened MessageLog
  import opened LatestRows

  /** How many rows `LIMIT cap` leaves of `n`; SQLite reads a negative limit as none. */
  function Kept(n: nat, cap: int): (k: nat)
    ensures cap < 0 ==> k == n
    ensures cap >= 0 ==> k == if n <= cap then n else cap
  {
    if 0 <= cap < n then cap else n
  }

  datatype Snapshot = Snapshot(chat: ChatId, records: seq<Record>, messageCount: nat)

  /** `create_snapshot`: counts all messages, keeps the latest `cap` as the database answers. */
  method CreateSnapshot(store: MessageStore, chat: ChatId, cap: int, answer: seq<Message>) returns (snap: Snapshot)
    requires IsLatest(Ascending(store.rows, chat), Kept(|Of(store.rows, chat)|, cap), answer)
    ensures snap == Snapshot(chat, Records(answer), |Of(store.rows, chat)|)
    ensures |snap.records| == |answer| && forall i :: 0 <= i < |answer| ==>
              snap.records[i] == Record(answer[i].body.role, answer[i].body.content, answer[i].createdAt)
  {
    RecordsAt(answer);
    var n := store.CountMessages(chat);
    snap := Snapshot(chat, Records(answer), n);
  }

  function Restored(rows: seq<Message>, snap: Snapshot, now: real, id: nat): seq<Message> {
    Except(rows, snap.chat) + Stamped(RestoredBodies(snap.records), snap.chat, now, id)
  }

  // ----- restoring

  lemma {:induction false} RecordsRoundTrip(rows: seq<Message>)
    ensures RestoredBodies(Records(rows)) == Stripped(rows)
  {
    if rows != [] {
      RecordsRoundTrip(rows[1..]);
    }
  }

  lemma RestoredRows(rows: seq<Message>, snap: Snapshot, now: real, id: nat, c: ChatId)
    ensures Of(Restored(rows, snap, now, id), c) ==
            if c == snap.chat then Stamped(RestoredBodies(snap.records), snap.chat, now, id) else Of(rows, c)
  {
    OfAppend(Except(rows, snap.chat), Stamped(RestoredBodies(snap.records), snap.chat, now, id), c);
    OfExcept(rows, snap.chat, c);
    OfStamped(RestoredBodies(snap.records), snap.chat, now, id, c);
  }

  lemma {:induction false} RestoredBodiesAt(records: seq<Record>)
    ensures |RestoredBodies(records)| == |records|
    ensures forall i :: 0 <= i < |records| ==>
              RestoredBodies(records)[i] == Body(records[i].role, records[i].content, Meta(None, None, None))
  {
    if records != [] {
      RestoredBodiesAt(records[1..]);
    }
  }

  /** `restore_snapshot`: replaces the chat's messages by the recorded ones, in one transaction. */
  method RestoreSnapshot(store: MessageStore, snap: Snapshot, now: real) returns (n: nat)
    modifies store
    ensures store.rows == Restored(old(store.rows), snap, now, old(store.nextId)) && n == |snap.records|
    ensures |Of(store.rows, snap.chat)| == |snap.records|
    ensures forall i :: 0 <= i < |snap.records| ==>
              var m := Of(store.rows, snap.chat)[i];
              && m.body == Body(snap.records[i].role, snap.records[i].content, Meta(None, None, None))
              && m.createdAt == now
    ensures forall c :: c != snap.chat ==> Of(store.rows, c) == Of(old(store.rows), c)
  {
    ghost var rows, id := store.rows, store.nextId;
    RestoredBodiesAt(snap.records);
    n := store.ReplaceChat(snap.chat, RestoredBodies(snap.records), now);
    StampedAt(RestoredBodies(snap.records), snap.chat, now, id);
    forall c ensures Of(store.rows, c) ==
                     if c == snap.chat then Stamped(RestoredBodies(snap.records), snap.chat, now, id) else Of(rows, c)
    {
      RestoredRows(rows, snap, now, id, c);
    }
  }

  lemma StampedSorted(bodies: seq<Body>, chat: ChatId, now: real, id: nat)
    ensures SortedBy(Stamped(bodies, chat, now, id), ByTime())
  {
    OfStamped(bodies, chat, now, id, chat);
    AppendLater([], Stamped(bodies, chat, now, id), now);
    assert [] + Stamped(bodies, chat, now, id) == Stamped(bodies, chat, now, id);
  }

  /** Whatever answer the database gave to the snapshot, and whatever happened to the table since,
      a restore gives back role and content of exactly that answer, and leaves every other chat as
      it then is. */
  lemma RestoreGivesBack(later: seq<Message>, chat: ChatId, n: nat, answer: seq<Message>, now: real, id: nat)
    ensures var restored := Restored(later, Snapshot(chat, Records(answer), n), now, id);
            && Bodies(Ascending(restored, chat)) == Stripped(answer)
            && forall c :: c != chat ==> Of(restored, c) == Of(later, c)
  {
    var snap := Snapshot(chat, Records(answer), n);
    var restored := Restored(later, snap, now, id);
    forall c ensures Of(restored, c) == if c == chat then Stamped(RestoredBodies(snap.records), chat, now, id)
                                        else Of(later, c)
    {
      RestoredRows(later, snap, now, id, c);
    }
    RecordsRoundTrip(answer);
    StampedSorted(RestoredBodies(snap.records), chat, now, id);
    SortOfSorted(Stamped(RestoredBodies(snap.records), chat, now, id), ByTime());
    OfStamped(RestoredBodies(snap.records), chat, now, id, chat);
  }

  lemma KeptFits(n: nat, cap: int)
    ensures Kept(n, cap) <= n
  {
  }

  lemma AscendingRows(rows: seq<Message>, chat: ChatId)
    ensures SortedBy(Ascending(rows, chat), ByTime()) && |Ascending(rows, chat)| == |Of(rows, chat)|
  {
    SortByProps(Of(rows, chat), ByTime());
  }

  /** The round trip. A snapshot of a chat whose latest messages are strictly ordered, or tie only
      with messages of the same role and content, restored after any changes whatever to the
      table, gives back role and content of exactly the last `min(n, cap)` messages in order. */
  lemma {:induction false} SnapshotRoundTrip(before: seq<Message>, chat: ChatId, cap: int, answer: seq<Message>,
                                             later: seq<Message>, now: real, id: nat)
    requires TiesAgree(Ascending(before, chat), |Of(before, chat)| - Kept(|Of(before, chat)|, cap))
    requires IsLatest(Ascending(before, chat), Kept(|Of(before, chat)|, cap), answer)
    ensures |Ascending(before, chat)| == |Of(before, chat)|
    ensures var n := |Of(before, chat)|;
            var restored := Restored(later, Snapshot(chat, Records(answer), n), now, id);
            && Bodies(Ascending(restored, chat)) == Stripped(Latest(Ascending(before, chat), Kept(n, cap)))
            && forall c :: c != chat ==> Of(restored, c) == Of(later, c)
  {
    hide *;
    KeptFits(|Of(before, chat)|, cap);
    AscendingRows(before, chat);
    RestoreGivesBack(later, chat, |Of(before, chat)|, answer, now, id);
    AgreeingAnswer(Ascending(before, chat), Kept(|Of(before, chat)|, cap), answer);
  }

  /** And that condition is exact: every answer the database may give comes back as the last messages
      if and only if tied messages that can reach the snapshot agree in role and content. */
  lemma RoundTripExactly(before: seq<Message>, chat: ChatId, cap: int, later: seq<Message>, now: real, id: nat)
    ensures |Ascending(before, chat)| == |Of(before, chat)|
    ensures var n := |Of(before, chat)|; var asc, k := Ascending(before, chat), Kept(n, cap);
            (forall answer :: IsLatest(asc, k, answer) ==>
               Bodies(Ascending(Restored(later, Snapshot(chat, Records(answer), n), now, id), chat)) ==
               Stripped(Latest(asc, k))) <==> TiesAgree(asc, n - k)
  {
    hide *;
    AscendingRows(before, chat);
    var n := |Of(before, chat)|;
    KeptFits(n, cap);
    forall answer
      ensures Bodies(Ascending(Restored(later, Snapshot(chat, Records(answer), n), now, id), chat)) == Stripped(answer)
    {
      RestoreGivesBack(later, chat, n, answer, now, id);
    }
    TextDeterminedExactly(Ascending(before, chat), Kept(n, cap));
  }

  lemma RestoredListing(rows: seq<Message>, snap: Snapshot, now: real, id: nat)
    ensures Ascending(Restored(rows, snap, now, id), snap.chat) ==
            Stamped(RestoredBodies(snap.records), snap.chat, now, id)
    ensures |RestoredBodies(snap.records)| == |snap.records|
  {
    RestoredRows(rows, snap, now, id, snap.chat);
    RestoredBodiesAt(snap.records);
    StampedSorted(RestoredBodies(snap.records), snap.chat, now, id);
    SortOfSorted(Stamped(RestoredBodies(snap.records), snap.chat, now, id), ByTime());
  }

  /** All rows of a restored chat carry one timestamp, so from two messages on, the next snapshot of
      it has a second answer. */
  lemma RestoredChatTies(rows: seq<Message>, snap: Snapshot, now: real, id: nat, k: nat)
    requires 2 <= |snap.records| && 1 <= k <= |snap.records|
    ensures var asc := Ascending(Restored(rows, snap, now, id), snap.chat);
            && |asc| == |snap.records| && !StrictFrom(asc, |asc| - k)
            && exists answer :: IsLatest(asc, k, answer) && answer != Latest(asc, k)
  {
    var bodies := RestoredBodies(snap.records);
    var asc := Ascending(Restored(rows, snap, now, id), snap.chat);
    RestoredListing(rows, snap, now, id);
    StampedAt(bodies, snap.chat, now, id);
    StampedSorted(bodies, snap.chat, now, id);
    var n := |asc|;
    hide SortedBy, IsLatest, Ascending, Restored, Stamped, RestoredBodies;
    assert DistinctIds(asc) && Tied(asc, n - k, n - 2, n - 1);
    TieGivesTwoAnswers(asc, k, n - 2, n - 1);
    StrictIsTieFree(asc, n - k);
  }

  /** Its text stays determined exactly if all restored messages have the same role and content. */
  lemma RestoredTextDetermined(rows: seq<Message>, snap: Snapshot, now: real, id: nat, k: nat)
    requires 1 <= k <= |snap.records|
    ensures var asc := Ascending(Restored(rows, snap, now, id), snap.chat);
            && |asc| == |snap.records|
            && ((forall answer :: IsLatest(asc, k, answer) ==> Records(answer) == Records(Latest(asc, k))) <==>
                forall i, j :: 0 <= i < j < |asc| ==> SameText(asc[i], asc[j]))
  {
    var bodies := RestoredBodies(snap.records);
    var asc := Ascending(Restored(rows, snap, now, id), snap.chat);
    RestoredListing(rows, snap, now, id);
    StampedAt(bodies, snap.chat, now, id);
    StampedSorted(bodies, snap.chat, now, id);
    hide SortedBy, IsLatest, Ascending, Restored, Stamped, RestoredBodies, Records;
    TextDeterminedExactly(asc, k);
    if TiesAgree(asc, |asc| - k) {
      forall i, j | 0 <= i < j < |asc| ensures SameText(asc[i], asc[j]) {
        var last := |asc| - 1;
        if i < last {
          assert Tied(asc, |asc| - k, i, last);
        }
        if j < last {
          assert Tied(asc, |asc| - k, j, last);
        }
      }
    }
  }
}
