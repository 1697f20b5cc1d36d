/** `MessageController`: the inbox (one entry per counterpart), a
    conversation between two users (which marks the caller's incoming
    messages read), sending, and marking one message read. Messages only go
    between users of different roles. */
module Messages {
  import opened Wrappers
  import opened Entities
  import Seqs
  import Text

  const MaxContent: nat := 1000

  // ---------------------------------------------------------------------------
  // MessageController::inbox

  /** `u` sent or received `m`. */
  predicate Involves(m: Message, u: nat) {
    m.senderId == u || m.receiverId == u
  }

  /** The other party of `m` as seen by `u` (the receiver when `u` sent it). */
  function Counterpart(m: Message, u: nat): nat {
    if m.senderId == u then m.receiverId else m.senderId
  }

  /** `u`'s messages in table order. */
  function Mine(msgs: seq<Message>, u: nat): (r: seq<Message>)
    ensures forall i | 0 <= i < |r| :: Involves(r[i], u)
  {
    Seqs.Filter(msgs, (m: Message) => Involves(m, u))
  }

  /** The group of `u`'s messages whose other party is `other`. */
  function Group(msgs: seq<Message>, u: nat, other: nat): (r: seq<Message>)
    ensures forall i | 0 <= i < |r| :: Involves(r[i], u) && Counterpart(r[i], u) == other && r[i] in msgs
  {
    Seqs.Filter(Mine(msgs, u), (m: Message) => Counterpart(m, u) == other)
  }

  /** The group keys in order of first appearance (`groupBy`). */
  function Partners(msgs: seq<Message>, u: nat): (r: seq<nat>)
    ensures Seqs.Distinct(r)
  {
    var mine := Mine(msgs, u);
    Seqs.Dedup(seq(|mine|, i requires 0 <= i < |mine| => Counterpart(mine[i], u)))
  }

  /** Every key names a non-empty group. */
  lemma PartnerHasGroup(msgs: seq<Message>, u: nat, other: nat)
    requires other in Partners(msgs, u)
    ensures |Group(msgs, u, other)| > 0
  {
    var mine := Mine(msgs, u);
    var keys := seq(|mine|, i requires 0 <= i < |mine| => Counterpart(mine[i], u));
    var i :| 0 <= i < |keys| && keys[i] == other;
    assert mine[i] in mine;
  }

  /** Position of the first message with the latest `created_at`
      (`sortByDesc('created_at')->first()`, a stable sort). */
  function LatestIndex(g: seq<Message>): (k: nat)
    requires |g| > 0
    ensures k < |g|
    ensures forall j | 0 <= j < |g| :: g[j].createdAt <= g[k].createdAt
    ensures forall j | 0 <= j < k :: g[j].createdAt < g[k].createdAt
    decreases |g|
  {
    if |g| == 1 then 0
    else
      var k := LatestIndex(g[..|g| - 1]);
      if g[|g| - 1].createdAt > g[k].createdAt then |g| - 1 else k
  }

  /** `latest_message` of an inbox entry. */
  datatype Preview = Preview(content: string, createdAt: int, isRead: bool, sentByMe: bool)

  datatype InboxEntry = InboxEntry(userId: nat, userName: string, latest: Preview, unreadCount: nat)

  /** The messages of a group that `u` has yet to read. */
  function Unread(g: seq<Message>, u: nat): seq<Message> {
    Seqs.Filter(g, (m: Message) => m.receiverId == u && !m.isRead)
  }

  function Entry(s: Store, u: nat, other: nat): (e: InboxEntry)
    requires other in Partners(s.messages, u)
    ensures e.userId == other
  {
    var g := Group(s.messages, u, other);
    PartnerHasGroup(s.messages, u, other);
    var m := g[LatestIndex(g)];
    InboxEntry(other,
               if other in s.users then s.users[other].name else "Unknown",
               Preview(m.content, m.createdAt, m.isRead, m.senderId == u),
               |Unread(g, u)|)
  }

  /** `GET /messages/inbox` for user `u`. */
  function Inbox(s: Store, u: nat): (r: seq<InboxEntry>)
    ensures forall i, j | 0 <= i < j < |r| :: r[i].userId != r[j].userId
  {
    var ps := Partners(s.messages, u);
    seq(|ps|, i requires 0 <= i < |ps| => Entry(s, u, ps[i]))
  }

  /** Every message `u` sent or received is represented by exactly one entry,
      the one for its other party, and every entry stands for such messages. */
  lemma InboxCoversAll(s: Store, u: nat, k: nat)
    requires k < |s.messages| && Involves(s.messages[k], u)
    ensures exists i | 0 <= i < |Inbox(s, u)| :: Inbox(s, u)[i].userId == Counterpart(s.messages[k], u)
  {
    var m := s.messages[k];
    var mine := Mine(s.messages, u);
    assert m in mine;
    var j :| 0 <= j < |mine| && mine[j] == m;
    var keys := seq(|mine|, i requires 0 <= i < |mine| => Counterpart(mine[i], u));
    assert keys[j] == Counterpart(m, u);
    var ps := Partners(s.messages, u);
    var i :| 0 <= i < |ps| && ps[i] == Counterpart(m, u);
    assert Inbox(s, u)[i].userId == Counterpart(m, u);
  }

  /** An entry's preview is a message of its group with the latest
      `created_at`, and `sent_by_me` holds iff `u` sent it. */
  lemma InboxLatest(s: Store, u: nat, i: nat)
    requires i < |Inbox(s, u)|
    ensures var e := Inbox(s, u)[i];
      var g := Group(s.messages, u, e.userId);
      exists k | 0 <= k < |g| ::
        && (forall j | 0 <= j < |g| :: g[j].createdAt <= g[k].createdAt)
        && e.latest == Preview(g[k].content, g[k].createdAt, g[k].isRead, g[k].senderId == u)
  {
    var ps := Partners(s.messages, u);
    var g := Group(s.messages, u, ps[i]);
    PartnerHasGroup(s.messages, u, ps[i]);
    var k := LatestIndex(g);
    assert Inbox(s, u)[i] == Entry(s, u, ps[i]);
  }

  /** `unread_count` counts exactly the messages from the other party to `u`
      that are unread (for a counterpart other than `u` itself). */
  lemma UnreadCountExact(s: Store, u: nat, other: nat)
    requires other != u
    ensures Unread(Group(s.messages, u, other), u)
      == Seqs.Filter(s.messages, (m: Message) => m.senderId == other && m.receiverId == u && !m.isRead)
  {
    var inv := (m: Message) => Involves(m, u);
    var key := (m: Message) => Counterpart(m, u) == other;
    var unread := (m: Message) => m.receiverId == u && !m.isRead;
    var both := (m: Message) => Involves(m, u) && Counterpart(m, u) == other;
    var target := (m: Message) => m.senderId == other && m.receiverId == u && !m.isRead;
    Seqs.FilterTwice(s.messages, inv, key, both);
    Seqs.FilterTwice(s.messages, both, unread, target);
  }

  // ---------------------------------------------------------------------------
  // MessageController::conversation

  /** `m` went from `a` to `b` or from `b` to `a`. */
  predicate Between(m: Message, a: nat, b: nat) {
    (m.senderId == a && m.receiverId == b) || (m.senderId == b && m.receiverId == a)
  }

  predicate SortedByTime(ms: seq<Message>) {
    forall i, j | 0 <= i < j < |ms| :: ms[i].createdAt <= ms[j].createdAt
  }

  /** Insert `m` into a list before the first message later than it. */
  function Insert(m: Message, ms: seq<Message>): (r: seq<Message>)
    ensures multiset(r) == multiset(ms) + multiset{m}
    decreases |ms|
  {
    if |ms| == 0 then [m]
    else if m.createdAt < ms[0].createdAt then [m] + ms
    else
      assert ms == [ms[0]] + ms[1..];
      [ms[0]] + Insert(m, ms[1..])
  }

  /** Inserting into a time-sorted list keeps it sorted. */
  lemma {:induction false} InsertSorted(m: Message, ms: seq<Message>)
    requires SortedByTime(ms)
    ensures SortedByTime(Insert(m, ms))
    decreases |ms|
  {
    if |ms| > 0 && m.createdAt >= ms[0].createdAt {
      var tail := ms[1..];
      assert SortedByTime(tail) by {
        assert forall i | 0 <= i < |tail| :: tail[i] == ms[i + 1];
      }
      InsertSorted(m, tail);
      var rest := Insert(m, tail);
      forall i | 0 <= i < |rest|
        ensures ms[0].createdAt <= rest[i].createdAt
      {
        assert rest[i] in multiset(rest);
        if rest[i] != m {
          assert rest[i] in multiset(tail);
          var j :| 0 <= j < |tail| && tail[j] == rest[i];
          assert tail[j] == ms[j + 1];
        }
      }
      assert Insert(m, ms) == [ms[0]] + rest;
    }
  }

  /** `orderBy('created_at', 'asc')`. */
  function SortByTime(ms: seq<Message>): (r: seq<Message>)
    ensures SortedByTime(r)
    ensures multiset(r) == multiset(ms)
    decreases |ms|
  {
    if |ms| == 0 then []
    else
      assert ms == ms[..|ms| - 1] + [ms[|ms| - 1]];
      var sorted := SortByTime(ms[..|ms| - 1]);
      InsertSorted(ms[|ms| - 1], sorted);
      Insert(ms[|ms| - 1], sorted)
  }

  /** `where(receiver_id = u, sender_id = other, is_read = false)->update(is_read = true)`. */
  function MarkFrom(msgs: seq<Message>, u: nat, other: nat): (r: seq<Message>)
    ensures |r| == |msgs|
  {
    seq(|msgs|, i requires 0 <= i < |msgs| =>
      if msgs[i].receiverId == u && msgs[i].senderId == other && !msgs[i].isRead
      then msgs[i].(isRead := true) else msgs[i])
  }

  /** `GET /messages/{userId}` for caller `a`: the messages between the two,
      oldest first, as they were before this call marked the caller's incoming
      ones read. */
  function Conversation(s: Store, a: Actor, other: nat): (r: Reply<seq<Message>>)
    ensures other !in s.users ==> r.status == 404 && r.store == s
    ensures other in s.users && s.users[other].role == a.role ==> r.status == 403 && r.store == s
    ensures r.status == 200 <==> other in s.users && s.users[other].role != a.role
    ensures r.store.(messages := s.messages) == s
    ensures r.status == 200 ==>
      && r.body.Data?
      && SortedByTime(r.body.value)
      && multiset(r.body.value) == multiset(Seqs.Filter(s.messages, (m: Message) => Between(m, a.userId, other)))
  {
    if other !in s.users then Reply(s, 404, Note("User not found"))
    else if s.users[other].role == a.role then
      Reply(s, 403, Note("Messaging allowed only between customer and supplier"))
    else
      var between := Seqs.Filter(s.messages, (m: Message) => Between(m, a.userId, other));
      Reply(s.(messages := MarkFrom(s.messages, a.userId, other)), 200, Data(SortByTime(between)))
  }

  /** After a conversation every message from the other user to the caller is
      read, and every other message is exactly as it was. */
  lemma ConversationMarksRead(s: Store, a: Actor, other: nat)
    requires other in s.users && s.users[other].role != a.role
    ensures var after := Conversation(s, a, other).store.messages;
      && |after| == |s.messages|
      && (forall i | 0 <= i < |s.messages| && s.messages[i].senderId == other && s.messages[i].receiverId == a.userId ::
            after[i] == s.messages[i].(isRead := true))
      && (forall i | 0 <= i < |s.messages| && !(s.messages[i].senderId == other && s.messages[i].receiverId == a.userId) ::
            after[i] == s.messages[i])
  {
  }

  /** Exactly the messages between the two users are returned: each returned
      message is between them and every message between them is returned. */
  lemma ConversationExact(s: Store, a: Actor, other: nat)
    requires other in s.users && s.users[other].role != a.role
    ensures var r := Conversation(s, a, other).body.value;
      && (forall i | 0 <= i < |r| :: Between(r[i], a.userId, other) && r[i] in s.messages)
      && (forall k | 0 <= k < |s.messages| && Between(s.messages[k], a.userId, other) :: s.messages[k] in r)
  {
    var r := Conversation(s, a, other).body.value;
    Seqs.PermutedFilter(r, s.messages, (m: Message) => Between(m, a.userId, other));
  }

  // ---------------------------------------------------------------------------
  // MessageController::store

  /** `POST /messages` from `a`; `now` is the insert's `created_at`. */
  function Send(s: Store, a: Actor, receiverId: nat, content: string, now: int): (r: Reply<Message>)
    ensures r.status != 201 ==> r.store == s
    ensures r.store.(messages := s.messages) == s
    ensures !Text.Filled(content) ==> r.status == 422
    ensures receiverId in s.users && s.users[receiverId].role == a.role && Text.Filled(content) && |content| <= MaxContent ==>
      r.status == 403
    ensures r.status == 201 <==>
      receiverId in s.users && Text.Filled(content) && |content| <= MaxContent && s.users[receiverId].role != a.role
    ensures r.status == 201 ==>
      && r.body.Data?
      && r.store.messages == s.messages + [r.body.value]
      && r.body.value == Message(a.userId, receiverId, content, false, now)
      && !r.body.value.isRead && |r.body.value.content| <= MaxContent
  {
    if receiverId !in s.users || !(Text.Filled(content) && |content| <= MaxContent) then Reply(s, 422, Note(ValidationFailed))
    else if s.users[receiverId].role == a.role then
      Reply(s, 403, Note("Messaging allowed only between customer and supplier"))
    else
      var m := Message(a.userId, receiverId, content, false, now);
      Reply(s.(messages := s.messages + [m]), 201, Data(m))
  }

  /** Appending a message `u` has not read from `other` adds it to the end of
      `u`'s unread messages from `other`. */
  lemma UnreadAppend(msgs: seq<Message>, m: Message, u: nat, other: nat)
    requires m.receiverId == u && !m.isRead && Counterpart(m, u) == other
    ensures Unread(Group(msgs + [m], u, other), u) == Unread(Group(msgs, u, other), u) + [m]
  {
    Seqs.FilterConcat(msgs, [m], (x: Message) => Involves(x, u));
    assert Mine(msgs + [m], u) == Mine(msgs, u) + [m];
    Seqs.FilterConcat(Mine(msgs, u), [m], (x: Message) => Counterpart(x, u) == other);
    assert Group(msgs + [m], u, other) == Group(msgs, u, other) + [m];
    Seqs.FilterConcat(Group(msgs, u, other), [m], (x: Message) => x.receiverId == u && !x.isRead);
  }

  /** The inbox entry for the other party of one of `u`'s messages counts
      `u`'s unread messages from that party. */
  lemma InboxCountsUnread(s: Store, u: nat, k: nat)
    requires k < |s.messages| && Involves(s.messages[k], u)
    ensures var other := Counterpart(s.messages[k], u);
      exists i | 0 <= i < |Inbox(s, u)| ::
        Inbox(s, u)[i].userId == other && Inbox(s, u)[i].unreadCount == |Unread(Group(s.messages, u, other), u)|
  {
    InboxCoversAll(s, u, k);
  }

  /** A sent message reaches the receiver: the sender's conversation with
      the receiver returns it, and the receiver's unread messages from the
      sender, which the inbox counts, gain exactly this one. */
  lemma SentIsDelivered(s: Store, a: Actor, receiverId: nat, content: string, now: int)
    requires Send(s, a, receiverId, content, now).status == 201
    ensures var r := Send(s, a, receiverId, content, now);
      var m := r.body.value;
      && Conversation(r.store, a, receiverId).status == 200
      && m in Conversation(r.store, a, receiverId).body.value
      && Unread(Group(r.store.messages, receiverId, a.userId), receiverId)
           == Unread(Group(s.messages, receiverId, a.userId), receiverId) + [m]
      && exists i | 0 <= i < |Inbox(r.store, receiverId)| ::
           && Inbox(r.store, receiverId)[i].userId == a.userId
           && Inbox(r.store, receiverId)[i].unreadCount == |Unread(Group(s.messages, receiverId, a.userId), receiverId)| + 1
  {
    var r := Send(s, a, receiverId, content, now);
    var m := r.body.value;
    assert r.store.messages[|s.messages|] == m;
    ConversationExact(r.store, a, receiverId);
    UnreadAppend(s.messages, m, receiverId, a.userId);
    InboxCountsUnread(r.store, receiverId, |s.messages|);
  }

  // ---------------------------------------------------------------------------
  // MessageController::markAsRead

  /** `PATCH /messages/{message}/read` by user `u`. */
  function MarkAsRead(s: Store, u: nat, id: nat): (r: Reply<()>)
    ensures id >= |s.messages| ==> r.status == 404
    ensures id < |s.messages| && s.messages[id].receiverId != u ==> r.status == 403
    ensures r.status != 200 ==> r.store == s
    ensures r.store.(messages := s.messages) == s
    ensures r.status == 200 <==> id < |s.messages| && s.messages[id].receiverId == u
    ensures r.status == 200 ==> r.store.messages == s.messages[id := s.messages[id].(isRead := true)]
  {
    if id >= |s.messages| then Reply(s, 404, Note("No query results for model [App\\Models\\Message]."))
    else if s.messages[id].receiverId != u then Reply(s, 403, Note("Unauthorized"))
    else if !s.messages[id].isRead then
      Reply(s.(messages := s.messages[id := s.messages[id].(isRead := true)]), 200, Note("Message marked as read"))
    else Reply(s, 200, Note("Message marked as read"))
  }

  /** Marking twice is marking once, and the message is read afterwards. */
  lemma MarkAsReadIdempotent(s: Store, u: nat, id: nat)
    requires id < |s.messages| && s.messages[id].receiverId == u
    ensures var once := MarkAsRead(s, u, id);
      && once.store.messages[id].isRead
      && MarkAsRead(once.store, u, id).store == once.store
  {
  }
}
