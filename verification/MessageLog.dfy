/** The message table and the operations that move whole conversations: paged listing,
    forking by pages, snapshot dump and transactional restore. */
module MessageLog {
  import opened Sequences
  import opened Paging

  type ChatId = string

  /** The three optional JSON columns of a message. */
  datatype Meta = Meta(ragSources: Option<string>, toolCalls: Option<string>, tokenUsage: Option<string>)

  const NO_META := Meta(None, None, None)

  datatype Body = Body(role: string, content: string, meta: Meta)

  /** A row; `id` is unique, generated by the store. */
  datatype Message = Message(id: nat, chat: ChatId, body: Body, createdAt: real)

  /** What a snapshot keeps of a message. */
  datatype Record = Record(role: string, content: string, createdAt: real)

  const FORK_PAGE := 1000

  // ----- reading

  function In(chat: ChatId): Message -> bool {
    (m: Message) => m.chat == chat
  }

  function NotIn(chat: ChatId): Message -> bool {
    (m: Message) => m.chat != chat
  }

  /** The rows of one chat, in insertion order. */
  function Of(rows: seq<Message>, chat: ChatId): seq<Message> {
    Filter(rows, In(chat))
  }

  function Except(rows: seq<Message>, chat: ChatId): seq<Message> {
    Filter(rows, NotIn(chat))
  }

  function ByTime(): Message -> real {
    (m: Message) => m.createdAt
  }

  /** `ORDER BY created_at ASC`, ties in insertion order. */
  function Ascending(rows: seq<Message>, chat: ChatId): seq<Message> {
    SortBy(Of(rows, chat), ByTime())
  }

  // ----- writing

  /** The rows a batch insert adds: new ids, one timestamp for all. */
  function Stamped(bodies: seq<Body>, chat: ChatId, now: real, id: nat): seq<Message>
    decreases bodies
  {
    if bodies == [] then [] else [Message(id, chat, bodies[0], now)] + Stamped(bodies[1..], chat, now, id + 1)
  }

  function Bodies(rows: seq<Message>): seq<Body> {
    if rows == [] then [] else [rows[0].body] + Bodies(rows[1..])
  }

  lemma {:induction false} StampedAt(bodies: seq<Body>, chat: ChatId, now: real, id: nat)
    ensures |Stamped(bodies, chat, now, id)| == |bodies|
    ensures forall i :: 0 <= i < |bodies| ==> Stamped(bodies, chat, now, id)[i] == Message(id + i, chat, bodies[i], now)
    decreases bodies
  {
    if bodies != [] {
      StampedAt(bodies[1..], chat, now, id + 1);
    }
  }

  lemma {:induction false} BodiesAt(rows: seq<Message>)
    ensures |Bodies(rows)| == |rows|
    ensures forall i :: 0 <= i < |rows| ==> Bodies(rows)[i] == rows[i].body
  {
    if rows != [] {
      BodiesAt(rows[1..]);
    }
  }

  class MessageStore {
    var rows: seq<Message>
    var nextId: nat

    constructor ()
      ensures rows == [] && nextId == 0
    {
      rows, nextId := [], 0;
    }

    method CountMessages(chat: ChatId) returns (n: nat)
      ensures n == |Of(rows, chat)|
    {
      n := |Of(rows, chat)|;
    }

    method ListMessages(chat: ChatId, limit: Option<int>, offset: int) returns (page: seq<Message>)
      ensures page == Page(Ascending(rows, chat), PageSize(limit), if offset > 0 then offset else 0)
      ensures |page| <= 500
    {
      var lim, off := Paginate(limit, offset);
      page := Page(Ascending(rows, chat), lim, off);
    }

    /** The loop that builds the rows of an insert. */
    method Payload(chat: ChatId, bodies: seq<Body>, now: real) returns (payload: seq<Message>)
      modifies this`nextId
      ensures payload == Stamped(bodies, chat, now, old(nextId)) && nextId == old(nextId) + |bodies|
    {
      payload := [];
      for i := 0 to |bodies|
        invariant nextId == old(nextId) + i
        invariant payload + Stamped(bodies[i..], chat, now, nextId) == Stamped(bodies, chat, now, old(nextId))
      {
        ghost var rest := Stamped(bodies[i + 1..], chat, now, nextId + 1);
        assert bodies[i..][1..] == bodies[i + 1..];
        assert (payload + [Message(nextId, chat, bodies[i], now)]) + rest ==
               payload + ([Message(nextId, chat, bodies[i], now)] + rest);
        payload := payload + [Message(nextId, chat, bodies[i], now)];
        nextId := nextId + 1;
      }
    }

    method CreateBatch(chat: ChatId, bodies: seq<Body>, now: real) returns (n: nat)
      modifies this
      ensures rows == old(rows) + Stamped(bodies, chat, now, old(nextId))
      ensures |rows| == |old(rows)| + |bodies| && forall i :: 0 <= i < |bodies| ==>
                rows[|old(rows)| + i] == Message(old(nextId) + i, chat, bodies[i], now)
      ensures nextId == old(nextId) + |bodies| && n == |bodies|
    {
      StampedAt(bodies, chat, now, nextId);
      n := |bodies|;
      if bodies == [] {
        return;
      }
      var payload := Payload(chat, bodies, now);
      rows := rows + payload;
    }

    /** DELETE and INSERT in one transaction. */
    method ReplaceChat(chat: ChatId, bodies: seq<Body>, now: real) returns (n: nat)
      modifies this
      ensures rows == Except(old(rows), chat) + Stamped(bodies, chat, now, old(nextId))
      ensures nextId == old(nextId) + |bodies| && n == |bodies|
    {
      var payload := Payload(chat, bodies, now);
      rows := Except(rows, chat) + payload;
      n := |bodies|;
    }
  }

  // ----- facts about rows

  lemma OfFirst(rows: seq<Message>, chat: ChatId)
    requires rows != []
    ensures Of(rows, chat) == (if rows[0].chat == chat then [rows[0]] else []) + Of(rows[1..], chat)
  {
  }

  lemma {:induction false} OfCounts(rows: seq<Message>, chat: ChatId, m: Message)
    ensures multiset(Of(rows, chat))[m] == if m.chat == chat then multiset(rows)[m] else 0
  {
    if rows != [] {
      OfCounts(rows[1..], chat, m);
      assert rows == [rows[0]] + rows[1..];
      hide Of;
      OfFirst(rows, chat);
    }
  }

  lemma {:induction false} OfKeepsOrder(rows: seq<Message>, chat: ChatId, a: Message, b: Message)
    requires Precedes(rows, a, b) && a.chat == chat && b.chat == chat
    ensures Precedes(Of(rows, chat), a, b)
  {
    assert rows == [rows[0]] + rows[1..];
    PrecedesCons(rows[0], rows[1..], a, b);
    OfFirst(rows, chat);
    FilterSound(rows[1..], In(chat));
    if rows[0].chat == chat {
      PrecedesCons(rows[0], Of(rows[1..], chat), a, b);
    }
    if Precedes(rows[1..], a, b) {
      OfKeepsOrder(rows[1..], chat, a, b);
      hide Of, Precedes;
      assert [] + Of(rows[1..], chat) == Of(rows[1..], chat);
    }
  }

  /** The ascending listing of a chat: exactly its rows, no later one before an earlier one, and rows of
      equal time in the order in which they were inserted. */
  lemma ListingExactly(rows: seq<Message>, chat: ChatId)
    ensures forall m :: multiset(Ascending(rows, chat))[m] == if m.chat == chat then multiset(rows)[m] else 0
    ensures forall i, j :: 0 <= i < j < |Ascending(rows, chat)| ==>
              Ascending(rows, chat)[i].createdAt <= Ascending(rows, chat)[j].createdAt
    ensures forall a, b :: Precedes(rows, a, b) && a.chat == chat && b.chat == chat && a.createdAt <= b.createdAt ==>
              Precedes(Ascending(rows, chat), a, b)
  {
    SortByProps(Of(rows, chat), ByTime());
    forall m ensures multiset(Ascending(rows, chat))[m] == if m.chat == chat then multiset(rows)[m] else 0 {
      OfCounts(rows, chat, m);
    }
    forall i, j | 0 <= i < j < |Ascending(rows, chat)|
      ensures Ascending(rows, chat)[i].createdAt <= Ascending(rows, chat)[j].createdAt
    {
      SortedAt(Ascending(rows, chat), ByTime(), i, j);
    }
    forall a, b | Precedes(rows, a, b) && a.chat == chat && b.chat == chat && a.createdAt <= b.createdAt
      ensures Precedes(Ascending(rows, chat), a, b)
    {
      OfKeepsOrder(rows, chat, a, b);
      SortKeepsOrder(Of(rows, chat), ByTime(), a, b);
    }
  }

  lemma OfAppend(xs: seq<Message>, ys: seq<Message>, chat: ChatId)
    ensures Of(xs + ys, chat) == Of(xs, chat) + Of(ys, chat)
  {
    FilterAppend(xs, ys, In(chat));
  }

  lemma OfExcept(rows: seq<Message>, chat: ChatId, other: ChatId)
    ensures Of(Except(rows, chat), other) == if other == chat then [] else Of(rows, other)
  {
    if other == chat {
      FilterSound(rows, NotIn(chat));
      FilterNone(Except(rows, chat), In(chat));
    } else {
      FilterFilter(rows, NotIn(chat), In(other));
    }
  }

  lemma {:induction false} OfStamped(bodies: seq<Body>, chat: ChatId, now: real, id: nat, other: ChatId)
    ensures Of(Stamped(bodies, chat, now, id), other) == if other == chat then Stamped(bodies, chat, now, id) else []
    ensures |Stamped(bodies, chat, now, id)| == |bodies|
    ensures Bodies(Stamped(bodies, chat, now, id)) == bodies
    ensures forall i :: 0 <= i < |bodies| ==> Stamped(bodies, chat, now, id)[i].createdAt == now
    decreases bodies
  {
    if bodies != [] {
      OfStamped(bodies[1..], chat, now, id + 1, other);
    }
  }

  lemma {:induction false} BodiesAppend(xs: seq<Message>, ys: seq<Message>)
    ensures Bodies(xs + ys) == Bodies(xs) + Bodies(ys)
  {
    if xs == [] {
      assert xs + ys == ys;
    } else {
      BodiesAppend(xs[1..], ys);
      assert (xs + ys)[1..] == xs[1..] + ys;
    }
  }

  /** Rows appended at one time no earlier than the rest keep an ascending sequence ascending. */
  lemma {:induction false} AppendLater(xs: seq<Message>, ys: seq<Message>, now: real)
    requires SortedBy(xs, ByTime())
    requires forall i :: 0 <= i < |xs| ==> xs[i].createdAt <= now
    requires forall i :: 0 <= i < |ys| ==> ys[i].createdAt == now
    ensures SortedBy(xs + ys, ByTime())
  {
    if xs != [] {
      AppendLater(xs[1..], ys, now);
      assert (xs + ys)[1..] == xs[1..] + ys;
    } else if ys != [] {
      AppendLater([], ys[1..], now);
      assert [] + ys == ys && [] + ys[1..] == ys[1..];
    }
  }
}
