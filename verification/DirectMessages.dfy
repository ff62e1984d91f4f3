/** server/src/dm/messages.rs and server/src/dm/offline.rs: sending and paging encrypted messages, and the queue for
    recipients who are not connected. */
module DirectMessages {
  import opened Wrappers
  import opened MessageLog

  /** 30 days, in the unit of the time stamps. */
  const QUEUE_LIFETIME := 30 * 24 * 3600

  datatype Status = Done | NotFound | Forbidden

  datatype Participants = Participants(a: UserKey, b: UserKey)

  /** A row of dm_offline_queue; the row's id is its key in the map. */
  datatype Entry = Entry(recipient: UserKey, message: nat, queuedAt: int, delivered: bool)

  // ---- what the queue's statements do ----

  /** WHERE recipient_pubkey = user AND delivered = 0 */
  function PendingFor(queue: map<nat, Entry>, user: UserKey): set<nat> {
    set id | id in queue && queue[id].recipient == user && !queue[id].delivered
  }

  /** WHERE recipient_pubkey = user AND dm_message_id IN messages */
  function Addressed(queue: map<nat, Entry>, user: UserKey, messages: set<nat>): set<nat> {
    set id | id in queue && queue[id].recipient == user && queue[id].message in messages
  }

  /** UPDATE dm_offline_queue SET delivered = 1 for these rows */
  function Marked(queue: map<nat, Entry>, ids: set<nat>): map<nat, Entry> {
    map id | id in queue :: if id in ids then queue[id].(delivered := true) else queue[id]
  }

  /** WHERE queued_at < datetime('now', '-30 days') */
  function Expired(queue: map<nat, Entry>, now: int): set<nat> {
    set id | id in queue && queue[id].queuedAt < now - QUEUE_LIFETIME
  }

  function Elements(messages: seq<nat>): set<nat> { set m | m in messages }

  lemma NoElements()
    ensures Elements([]) == {}
  {
  }

  lemma NextElement(messages: seq<nat>, i: nat)
    requires i < |messages|
    ensures Elements(messages[..i + 1]) == Elements(messages[..i]) + {messages[i]}
  {
    assert messages[..i + 1] == messages[..i] + [messages[i]];
  }

  function TimeOf(rows: seq<Row>, message: nat): int {
    if rows == [] then 0
    else if rows[|rows| - 1].id == message then rows[|rows| - 1].body.timestamp
    else TimeOf(rows[..|rows| - 1], message)
  }

  ghost predicate DistinctIds(rows: seq<Row>) {
    forall i, j :: 0 <= i < j < |rows| ==> rows[i].id != rows[j].id
  }

  lemma {:induction false} TimeIs(rows: seq<Row>, r: Row)
    requires DistinctIds(rows) && r in rows
    ensures TimeOf(rows, r.id) == r.body.timestamp
  {
    var n := |rows| - 1;
    var k :| 0 <= k <= n && rows[k] == r;
    if k < n {
      assert rows[..n][k] == r;
      TimeIs(rows[..n], r);
    }
  }

  lemma TimesAre(rows: seq<Row>)
    requires DistinctIds(rows)
    ensures forall r :: r in rows ==> TimeOf(rows, r.id) == r.body.timestamp
  {
    forall r | r in rows ensures TimeOf(rows, r.id) == r.body.timestamp {
      TimeIs(rows, r);
    }
  }

  /** SELECT ... ORDER BY m.timestamp ASC: the pending rows once each, ties in any order. */
  ghost predicate IsFetch(out: seq<nat>, rows: seq<Row>, queue: map<nat, Entry>, user: UserKey) {
    && (forall id :: id in out <==> id in PendingFor(queue, user))
    && (forall i, j :: 0 <= i < j < |out| ==> out[i] != out[j])
    && forall i, j :: 0 <= i < j < |out| && out[i] in queue && out[j] in queue ==>
         TimeOf(rows, queue[out[i]].message) <= TimeOf(rows, queue[out[j]].message)
  }

  ghost predicate HasMessage(rows: seq<Row>, message: nat) {
    exists r :: r in rows && r.id == message
  }

  /** The conversations' rows are numbered and never deleted; every queue row's message is there, as its foreign key
      demands. */
  ghost predicate Consistent(rows: seq<Row>, next: nat, queue: map<nat, Entry>, nextEntry: nat) {
    && Numbered(rows) && IdsAscend(rows, next)
    && (forall k :: 0 <= k < |rows| ==> !rows[k].deleted)
    && forall id :: id in queue ==> id < nextEntry && HasMessage(rows, queue[id].message)
  }

  lemma SendIsConsistent(rows: seq<Row>, next: nat, queue: map<nat, Entry>, nextEntry: nat, log: LogId, body: Body)
    requires Consistent(rows, next, queue, nextEntry)
    ensures var row := Row(next, log, MaxSequence(rows, log) + 1, false, body);
      && Consistent(rows + [row], next + 1, queue, nextEntry)
      && row.sequence == Count(rows, log) + 1
      && HasMessage(rows + [row], next)
  {
    hide Numbered, MaxSequence, Count, HasMessage, IdsAscend;
    var row := Row(next, log, MaxSequence(rows, log) + 1, false, body);
    InsertKeepsNumbered(rows, row);
    MaxIsCount(rows, log);
    MessagesStay(rows, row);
    IdsAscendMore(rows, next, row);
    QueueStays(rows, queue, row);
  }

  lemma QueueStays(rows: seq<Row>, queue: map<nat, Entry>, row: Row)
    requires forall id :: id in queue ==> HasMessage(rows, queue[id].message)
    ensures forall id :: id in queue ==> HasMessage(rows + [row], queue[id].message)
  {
    MessagesStay(rows, row);
    hide HasMessage;
  }

  lemma IdsAscendMore(rows: seq<Row>, next: nat, row: Row)
    requires IdsAscend(rows, next) && row.id == next
    ensures IdsAscend(rows + [row], next + 1)
  {
  }

  lemma MessagesStay(rows: seq<Row>, row: Row)
    ensures forall m :: HasMessage(rows, m) ==> HasMessage(rows + [row], m)
    ensures HasMessage(rows + [row], row.id)
  {
    assert row in rows + [row];
    forall m | HasMessage(rows, m) ensures HasMessage(rows + [row], m) {
      var r :| r in rows && r.id == m;
      assert r in rows + [row];
    }
  }

  /** The participant a message goes to: the other one, or the sender of a conversation with oneself. */
  function Recipient(p: Participants, sender: UserKey): UserKey { if sender == p.a then p.b else p.a }

  function Allowed(conversations: map<LogId, Participants>, conversation: LogId, user: UserKey): Status {
    if conversation !in conversations then NotFound
    else if user != conversations[conversation].a && user != conversations[conversation].b then Forbidden
    else Done
  }

  class DmTables {
    var conversations: map<LogId, Participants>
    var rows: seq<Row>
    var nextId: nat
    var queue: map<nat, Entry>
    var nextEntry: nat

    constructor (conversations: map<LogId, Participants>)
      ensures Consistent(rows, nextId, queue, nextEntry) && rows == [] && queue == map[]
      ensures this.conversations == conversations
    {
      this.conversations, rows, nextId, queue, nextEntry := conversations, [], 0, map[], 0;
    }

    /** send_dm_message up to the delivery: whether the recipient counts as online is any boolean. The entry to queue is
        written by a background job, later. */
    method SendMessage(conversation: LogId, body: Body, online: bool)
      returns (status: Status, toQueue: Option<(UserKey, nat)>)
      requires Consistent(rows, nextId, queue, nextEntry)
      modifies this
      ensures Consistent(rows, nextId, queue, nextEntry)
      ensures conversations == old(conversations) && queue == old(queue) && nextEntry == old(nextEntry)
      ensures status ==
        if conversation !in conversations then NotFound
        else if body.sender !in {conversations[conversation].a, conversations[conversation].b} then Forbidden
        else Done
      ensures status != Done ==> rows == old(rows) && nextId == old(nextId) && toQueue == None
      ensures status == Done ==> nextId == old(nextId) + 1
      ensures status == Done ==>
        && rows == old(rows) + [Row(old(nextId), conversation, Count(old(rows), conversation) + 1, false, body)]
        && HasMessage(rows, old(nextId))
        && conversation in conversations
        && var both := conversations[conversation];
           toQueue == if online then None else Some((if body.sender == both.a then both.b else both.a, old(nextId)))
    {
      hide Consistent, HasMessage, MaxSequence, Count;
      toQueue := None;
      if conversation !in conversations {
        return NotFound, None;
      }
      var participants := conversations[conversation];
      if body.sender != participants.a && body.sender != participants.b {
        return Forbidden, None;
      }
      SendIsConsistent(rows, nextId, queue, nextEntry, conversation, body);
      var nextSequence := MaxSequence(rows, conversation) + 1;
      rows := rows + [Row(nextId, conversation, nextSequence, false, body)];
      if !online {
        toQueue := Some((Recipient(participants, body.sender), nextId));
      }
      nextId := nextId + 1;
      status := Done;
    }

    /** The background job that queues a message. */
    method Enqueue(recipient: UserKey, message: nat, now: int)
      requires Consistent(rows, nextId, queue, nextEntry) && HasMessage(rows, message)
      modifies this
      ensures Consistent(rows, nextId, queue, nextEntry)
      ensures conversations == old(conversations) && rows == old(rows) && nextId == old(nextId)
      ensures nextEntry == old(nextEntry) + 1 && old(nextEntry) !in old(queue)
      ensures queue == old(queue)[old(nextEntry) := Entry(recipient, message, now, false)]
    {
      hide Numbered, IdsAscend, HasMessage;
      queue := queue[nextEntry := Entry(recipient, message, now, false)];
      nextEntry := nextEntry + 1;
    }

    /** get_dm_messages: a participant gets the newest messages below the cursor, and nothing at all without one. */
    method GetMessages(conversation: LogId, user: UserKey, before: Option<nat>, limit: Option<nat>)
      returns (status: Status, page: Page)
      requires Consistent(rows, nextId, queue, nextEntry) && IsCursor(before)
      ensures status ==
        if conversation !in conversations then NotFound
        else if user !in {conversations[conversation].a, conversations[conversation].b} then Forbidden
        else Done
      ensures status != Done || before.None? || before.value >= 0x8000_0000_0000_0000 ==> page == Page([], false)
      ensures status == Done && before.Some? && before.value < 0x8000_0000_0000_0000 ==>
        var asked := if limit.Some? then limit.value else 50;
        && |page.messages| <= asked && |page.messages| <= 100
        && (forall i, j :: 0 <= i < j < |page.messages| ==> page.messages[i].sequence > page.messages[j].sequence)
        && (forall m :: m in page.messages ==> m in rows && m.log == conversation && m.sequence < before.value)
        && (forall r, m :: r in rows && r.log == conversation && r !in page.messages && m in page.messages ==>
              r.sequence < m.sequence || r.sequence >= before.value)
        && (page.hasMore <==>
              exists r :: r in rows && r.log == conversation && r.sequence < before.value && r !in page.messages)
        && (page.hasMore ==> |page.messages| == if asked < 100 then asked else 100)
    {
      IsNumbered(rows, nextId, queue, nextEntry);
      PageIsNewest(rows, conversation, before, limit);
      AllowedIs(conversations, conversation, user);
      hide *;
      status := Allowed(conversations, conversation, user);
      page := if status == Done then GetPage(rows, conversation, before, limit) else Page([], false);
    }

    /** get_offline_messages: the pending rows in order of their messages' times, all marked delivered. */
    method GetOfflineMessages(user: UserKey) returns (out: seq<nat>)
      requires Consistent(rows, nextId, queue, nextEntry)
      modifies this
      ensures Consistent(rows, nextId, queue, nextEntry)
      ensures conversations == old(conversations) && rows == old(rows)
      ensures nextId == old(nextId) && nextEntry == old(nextEntry)
      ensures IsFetch(out, rows, old(queue), user)
      ensures forall id :: id in out <==>
        id in old(queue) && old(queue)[id].recipient == user && !old(queue)[id].delivered
      ensures forall i, j :: 0 <= i < j < |out| ==> out[i] != out[j]
      ensures forall i, j, r, q ::
        0 <= i < j < |out| && r in rows && q in rows && out[i] in old(queue) && out[j] in old(queue) ==>
          (r.id == old(queue)[out[i]].message && q.id == old(queue)[out[j]].message ==>
             r.body.timestamp <= q.body.timestamp)
      ensures queue == Marked(old(queue), PendingFor(old(queue), user))
      ensures forall id :: id in queue <==> id in old(queue)
      ensures forall id :: id in queue ==>
        queue[id] == if old(queue)[id].recipient == user then old(queue)[id].(delivered := true) else old(queue)[id]
    {
      hide *;
      IsNumbered(rows, nextId, queue, nextEntry);
      PendingIs(queue, user);
      out := Collect(rows, queue, user);
      FetchIs(out, rows, queue, user);
      MarkedIsConsistent(rows, nextId, queue, nextEntry, PendingFor(queue, user));
      hide *;
      queue := Marked(queue, PendingFor(queue, user));
    }

    /** ack_offline_messages, one statement per message */
    method AckOfflineMessages(user: UserKey, messages: seq<nat>)
      requires Consistent(rows, nextId, queue, nextEntry)
      modifies this
      ensures Consistent(rows, nextId, queue, nextEntry)
      ensures conversations == old(conversations) && rows == old(rows)
      ensures nextId == old(nextId) && nextEntry == old(nextEntry)
      ensures queue == Marked(old(queue), Addressed(old(queue), user, Elements(messages)))
      ensures forall id :: id in queue <==> id in old(queue)
      ensures forall id :: id in queue ==>
        queue[id] ==
          if old(queue)[id].recipient == user && old(queue)[id].message in messages
          then old(queue)[id].(delivered := true) else old(queue)[id]
    {
      AddressedAre(queue, user, messages);
      ghost var before := queue;
      hide *;
      MarkNone(queue, user);
      NoElements();
      assert messages[..0] == [];
      var i := 0;
      while i < |messages|
        invariant 0 <= i <= |messages| && Consistent(rows, nextId, queue, nextEntry)
        invariant conversations == old(conversations) && rows == old(rows)
        invariant nextId == old(nextId) && nextEntry == old(nextEntry)
        invariant queue == Marked(before, Addressed(before, user, Elements(messages[..i])))
      {
        MarkedIsConsistent(rows, nextId, queue, nextEntry, Addressed(queue, user, {messages[i]}));
        MarkOneMore(before, user, Elements(messages[..i]), messages[i]);
        NextElement(messages, i);
        queue := Marked(queue, Addressed(queue, user, {messages[i]}));
        i := i + 1;
      }
      assert messages[..i] == messages;
    }

    /** spawn_offline_cleanup, one round */
    method Cleanup(now: int)
      requires Consistent(rows, nextId, queue, nextEntry)
      modifies this
      ensures Consistent(rows, nextId, queue, nextEntry)
      ensures conversations == old(conversations) && rows == old(rows)
      ensures nextId == old(nextId) && nextEntry == old(nextEntry)
      ensures queue == old(queue) - Expired(old(queue), now)
      ensures forall id :: id in queue <==> id in old(queue) && old(queue)[id].queuedAt >= now - 30 * 24 * 3600
      ensures forall id :: id in queue ==> queue[id] == old(queue)[id]
    {
      ExpiredAre(queue, now);
      hide Numbered, IdsAscend, HasMessage, Expired;
      queue := queue - Expired(queue, now);
    }
  }

  lemma IsNumbered(rows: seq<Row>, next: nat, queue: map<nat, Entry>, nextEntry: nat)
    requires Consistent(rows, next, queue, nextEntry)
    ensures Numbered(rows) && DistinctIds(rows) && forall r :: r in rows ==> !r.deleted
  {
  }

  lemma AllowedIs(conversations: map<LogId, Participants>, conversation: LogId, user: UserKey)
    ensures Allowed(conversations, conversation, user) ==
      if conversation !in conversations then NotFound
      else if user !in {conversations[conversation].a, conversations[conversation].b} then Forbidden
      else Done
    ensures I64_LIMIT == 0x8000_0000_0000_0000
  {
  }

  lemma PendingIs(queue: map<nat, Entry>, user: UserKey)
    ensures forall id :: id in PendingFor(queue, user) <==>
      id in queue && queue[id].recipient == user && !queue[id].delivered
    ensures forall id :: id in Marked(queue, PendingFor(queue, user)) <==> id in queue
    ensures forall id :: id in queue ==>
      Marked(queue, PendingFor(queue, user))[id] ==
        if queue[id].recipient == user then queue[id].(delivered := true) else queue[id]
  {
  }

  lemma AddressedAre(queue: map<nat, Entry>, user: UserKey, messages: seq<nat>)
    ensures var marked := Marked(queue, Addressed(queue, user, Elements(messages)));
      && (forall id :: id in marked <==> id in queue)
      && (forall id :: id in queue ==>
            marked[id] ==
              if queue[id].recipient == user && queue[id].message in messages then queue[id].(delivered := true)
              else queue[id])
  {
  }

  lemma ExpiredAre(queue: map<nat, Entry>, now: int)
    ensures forall id :: id in Expired(queue, now) <==> id in queue && queue[id].queuedAt < now - 30 * 24 * 3600
  {
  }

  lemma FetchIs(out: seq<nat>, rows: seq<Row>, queue: map<nat, Entry>, user: UserKey)
    requires IsFetch(out, rows, queue, user) && DistinctIds(rows)
    ensures forall i, j, r, q ::
      0 <= i < j < |out| && r in rows && q in rows && out[i] in queue && out[j] in queue ==>
        (r.id == queue[out[i]].message && q.id == queue[out[j]].message ==> r.body.timestamp <= q.body.timestamp)
    ensures forall id :: id in out <==> id in queue && queue[id].recipient == user && !queue[id].delivered
    ensures forall i, j :: 0 <= i < j < |out| ==> out[i] != out[j]
  {
    TimesAre(rows);
    hide TimeOf;
  }

  lemma MarkedIsConsistent(rows: seq<Row>, next: nat, queue: map<nat, Entry>, nextEntry: nat, ids: set<nat>)
    requires Consistent(rows, next, queue, nextEntry)
    ensures Consistent(rows, next, Marked(queue, ids), nextEntry)
  {
    hide Numbered, IdsAscend, HasMessage;
  }

  lemma MarkNone(queue: map<nat, Entry>, user: UserKey)
    ensures Marked(queue, Addressed(queue, user, {})) == queue
  {
  }

  lemma MarkOneMore(queue: map<nat, Entry>, user: UserKey, messages: set<nat>, m: nat)
    ensures var marked := Marked(queue, Addressed(queue, user, messages));
      Marked(marked, Addressed(marked, user, {m})) == Marked(queue, Addressed(queue, user, messages + {m}))
  {
  }

  lemma {:induction false} EarliestExists(times: map<nat, int>, ids: set<nat>)
    requires ids != {} && ids <= times.Keys
    ensures exists m :: m in ids && forall id :: id in ids ==> times[m] <= times[id]
  {
    var x :| x in ids;
    var rest := ids - {x};
    assert ids == rest + {x};
    if rest == {} {
    } else {
      EarliestExists(times, rest);
      var m :| m in rest && forall id :: id in rest ==> times[m] <= times[id];
      var first := if times[m] <= times[x] then m else x;
      assert first in ids && forall id :: id in ids ==> times[first] <= times[id];
    }
  }

  /** These ids, once each, in order of their times. */
  ghost predicate Lists(out: seq<nat>, ids: set<nat>, times: map<nat, int>) {
    && (forall id :: id in out <==> id in ids)
    && (forall i, j :: 0 <= i < j < |out| ==> out[i] != out[j])
    && forall i, j :: 0 <= i < j < |out| && out[i] in times && out[j] in times ==> times[out[i]] <= times[out[j]]
  }

  lemma ListOneMore(out: seq<nat>, ids: set<nat>, times: map<nat, int>, next: nat)
    requires Lists(out, ids, times) && next in times && next !in ids
    requires forall id :: id in ids && id in times ==> times[id] <= times[next]
    ensures Lists(out + [next], ids + {next}, times)
  {
    assert forall i :: 0 <= i < |out| ==> out[i] in out;
  }

  /** The order of the query: one row after another, an earliest each time. */
  method InOrder(times: map<nat, int>) returns (out: seq<nat>)
    ensures Lists(out, times.Keys, times)
  {
    var left := times.Keys;
    ghost var listed: set<nat> := {};
    out := [];
    NothingListed(times);
    hide *;
    while left != {}
      invariant left <= times.Keys && left !! listed && left + listed == times.Keys
      invariant Lists(out, listed, times)
      invariant forall id, later :: id in listed && later in left ==> times[id] <= times[later]
      decreases |left|
    {
      EarliestExists(times, left);
      var next :| next in left && forall id :: id in left ==> times[next] <= times[id];
      ListOneMore(out, listed, times, next);
      out := out + [next];
      listed := listed + {next};
      left := left - {next};
    }
  }

  /** Collecting the rows of the ordered query. */
  method Collect(rows: seq<Row>, queue: map<nat, Entry>, user: UserKey) returns (out: seq<nat>)
    ensures IsFetch(out, rows, queue, user)
  {
    PendingIsQueued(queue, user);
    hide *;
    var times := map id | id in PendingFor(queue, user) :: TimeOf(rows, queue[id].message);
    out := InOrder(times);
    ListIsFetch(out, rows, queue, user, times);
  }

  lemma PendingIsQueued(queue: map<nat, Entry>, user: UserKey)
    ensures forall id :: id in PendingFor(queue, user) ==> id in queue
  {
  }

  lemma NothingListed(times: map<nat, int>)
    ensures Lists([], {}, times)
  {
  }

  lemma ListIsFetch(out: seq<nat>, rows: seq<Row>, queue: map<nat, Entry>, user: UserKey, times: map<nat, int>)
    requires times.Keys == PendingFor(queue, user) && Lists(out, times.Keys, times)
    requires forall id :: id in times ==> id in queue && times[id] == TimeOf(rows, queue[id].message)
    ensures IsFetch(out, rows, queue, user)
  {
    hide TimeOf;
    assert forall i :: 0 <= i < |out| ==> out[i] in out;
  }

  // ---- every run of the queue ----

  /** With the rows that have left the queue's care: returned by fetches, in order, acknowledged before any fetch
      returned them, and purged while pending. */
  datatype State = State(rows: seq<Row>, queue: map<nat, Entry>, next: nat, returned: seq<nat>, acked: set<nat>,
                         purged: set<nat>)

  datatype Event =
    | Sent(row: Row)
    | Queue(recipient: UserKey, message: nat, now: int)
    | Fetch(user: UserKey, out: seq<nat>)
    | Ack(user: UserKey, messages: set<nat>)
    | Purge(now: int)

  ghost predicate Enabled(s: State, e: Event) {
    && (e.Sent? ==> forall r :: r in s.rows ==> r.id != e.row.id)
    && (e.Fetch? ==> IsFetch(e.out, s.rows, s.queue, e.user))
  }

  ghost function Undelivered(queue: map<nat, Entry>): set<nat> {
    set id | id in queue && !queue[id].delivered
  }

  ghost function After(s: State, e: Event): State {
    match e
    case Sent(row) => s.(rows := s.rows + [row])
    case Queue(recipient, message, now) =>
      s.(queue := s.queue[s.next := Entry(recipient, message, now, false)], next := s.next + 1)
    case Fetch(user, out) => s.(queue := Marked(s.queue, PendingFor(s.queue, user)), returned := s.returned + out)
    case Ack(user, messages) =>
      var ids := Addressed(s.queue, user, messages);
      s.(queue := Marked(s.queue, ids), acked := s.acked + ids * Undelivered(s.queue))
    case Purge(now) =>
      var ids := Expired(s.queue, now);
      s.(queue := s.queue - ids, purged := s.purged + ids * Undelivered(s.queue))
  }

  ghost function Final(es: seq<Event>): State {
    if es == [] then State([], map[], 0, [], {}, {}) else After(Final(es[..|es| - 1]), es[|es| - 1])
  }

  ghost predicate Legal(es: seq<Event>) {
    es == [] || (Legal(es[..|es| - 1]) && Enabled(Final(es[..|es| - 1]), es[|es| - 1]))
  }

  ghost function Returned(s: State): set<nat> { set id | id in s.returned }

  /** Every id so far is in exactly one of four places. */
  ghost predicate FourPlaces(next: nat, a: set<nat>, b: set<nat>, c: set<nat>, d: set<nat>) {
    && (forall id :: 0 <= id < next <==> id in a || id in b || id in c || id in d)
    && (forall id :: id in a ==> id !in b && id !in c && id !in d)
    && (forall id :: id in b ==> id !in c && id !in d)
    && forall id :: id in c ==> id !in d
  }

  /** Every row ever queued is in exactly one place, and no row was returned twice. */
  ghost predicate Accounted(s: State) {
    && FourPlaces(s.next, Returned(s), s.acked, s.purged, Undelivered(s.queue))
    && (forall i, j :: 0 <= i < j < |s.returned| ==> s.returned[i] != s.returned[j])
    && forall id :: id in s.queue ==> id < s.next
  }

  lemma Moved(next: nat, a: set<nat>, b: set<nat>, c: set<nat>, d: set<nat>, m: set<nat>)
    requires FourPlaces(next, a, b, c, d) && m <= d
    ensures FourPlaces(next, a + m, b, c, d - m)
    ensures FourPlaces(next, a, b + m, c, d - m)
    ensures FourPlaces(next, a, b, c + m, d - m)
  {
  }

  lemma OneMore(next: nat, a: set<nat>, b: set<nat>, c: set<nat>, d: set<nat>)
    requires FourPlaces(next, a, b, c, d)
    ensures FourPlaces(next + 1, a, b, c, d + {next})
  {
  }

  lemma FetchAccounted(s: State, user: UserKey, out: seq<nat>)
    requires Accounted(s) && IsFetch(out, s.rows, s.queue, user)
    ensures Accounted(After(s, Fetch(user, out)))
  {
    hide TimeOf;
    var t := After(s, Fetch(user, out));
    var pending := PendingFor(s.queue, user);
    FetchedIds(s, out, pending);
    FetchedOnce(s.returned, out, Returned(s));
    UndeliveredAfter(s.queue, pending);
    MarkedKeys(s.queue, pending);
    hide Marked, Returned, Undelivered, IsFetch, PendingFor, Accounted;
    FetchedMoved(s, t, pending);
  }

  /** The pending rows move to the returned ones. */
  lemma FetchedMoved(s: State, t: State, pending: set<nat>)
    requires Accounted(s) && pending <= Undelivered(s.queue)
    requires t.next == s.next && t.acked == s.acked && t.purged == s.purged
    requires Returned(t) == Returned(s) + pending && Undelivered(t.queue) == Undelivered(s.queue) - pending
    requires forall i, j :: 0 <= i < j < |t.returned| ==> t.returned[i] != t.returned[j]
    requires forall id :: id in t.queue <==> id in s.queue
    ensures Accounted(t)
  {
    Moved(s.next, Returned(s), s.acked, s.purged, Undelivered(s.queue), pending);
    hide Returned, Undelivered, FourPlaces;
  }

  lemma MarkedKeys(queue: map<nat, Entry>, ids: set<nat>)
    ensures forall id :: id in Marked(queue, ids) <==> id in queue
  {
  }

  lemma FetchedIds(s: State, out: seq<nat>, pending: set<nat>)
    requires forall id :: id in out <==> id in pending
    ensures Returned(s.(returned := s.returned + out)) == Returned(s) + pending
    ensures forall t: State :: t.returned == s.returned + out ==> Returned(t) == Returned(s) + pending
  {
  }

  lemma FetchedOnce(returned: seq<nat>, out: seq<nat>, ids: set<nat>)
    requires forall i, j :: 0 <= i < j < |returned| ==> returned[i] != returned[j]
    requires forall i, j :: 0 <= i < j < |out| ==> out[i] != out[j]
    requires forall id :: id in returned <==> id in ids
    requires forall id :: id in out ==> id !in ids
    ensures forall i, j :: 0 <= i < j < |returned + out| ==> (returned + out)[i] != (returned + out)[j]
  {
    var all := returned + out;
    forall i, j | 0 <= i < j < |all| ensures all[i] != all[j] {
      assert i < |returned| ==> returned[i] in returned;
      assert j >= |returned| ==> all[j] == out[j - |returned|] && all[j] in out;
    }
  }

  lemma UndeliveredAfter(queue: map<nat, Entry>, ids: set<nat>)
    requires ids <= Undelivered(queue)
    ensures Undelivered(Marked(queue, ids)) == Undelivered(queue) - ids
  {
  }

  lemma StepAccounted(s: State, e: Event)
    requires Accounted(s) && Enabled(s, e)
    ensures Accounted(After(s, e))
  {
    hide IsFetch, FourPlaces;
    var t := After(s, e);
    var a, d := Returned(s), Undelivered(s.queue);
    match e
    case Sent(_) => assert Returned(t) == a;
    case Queue(_, _, _) =>
      OneMore(s.next, a, s.acked, s.purged, d);
      assert Returned(t) == a && Undelivered(t.queue) == d + {s.next};
    case Fetch(user, out) => FetchAccounted(s, user, out);
    case Ack(user, messages) =>
      var ids := Addressed(s.queue, user, messages);
      Moved(s.next, a, s.acked, s.purged, d, ids * d);
      assert Returned(t) == a && Undelivered(t.queue) == d - ids * d;
    case Purge(now) =>
      var ids := Expired(s.queue, now);
      Moved(s.next, a, s.acked, s.purged, d, ids * d);
      assert Returned(t) == a && Undelivered(t.queue) == d - ids * d;
  }

  /** In every run: returned at most once, and returned, acknowledged, purged or still pending, one of the four. */
  lemma {:induction false} EveryRunIsAccounted(es: seq<Event>)
    requires Legal(es)
    ensures Accounted(Final(es))
    ensures var s := Final(es);
      && (forall i, j :: 0 <= i < j < |s.returned| ==> s.returned[i] != s.returned[j])
      && (forall id :: 0 <= id < s.next <==>
            id in s.returned || id in s.acked || id in s.purged || (id in s.queue && !s.queue[id].delivered))
      && (forall id :: id in s.returned ==> id !in s.acked && id !in s.purged)
      && (forall id :: id in s.acked ==> id !in s.purged)
      && (forall id :: id in s.queue && !s.queue[id].delivered ==>
            id !in s.returned && id !in s.acked && id !in s.purged)
  {
    if es == [] {
      assert Returned(Final(es)) == {} && Undelivered(Final(es).queue) == {};
    } else {
      EveryRunIsAccounted(es[..|es| - 1]);
      StepAccounted(Final(es[..|es| - 1]), es[|es| - 1]);
    }
    AccountedMeans(Final(es));
    hide Accounted, Final;
  }

  lemma AccountedMeans(s: State)
    requires Accounted(s)
    ensures forall i, j :: 0 <= i < j < |s.returned| ==> s.returned[i] != s.returned[j]
    ensures forall id :: 0 <= id < s.next <==>
      id in s.returned || id in s.acked || id in s.purged || (id in s.queue && !s.queue[id].delivered)
    ensures forall id :: id in s.returned ==> id !in s.acked && id !in s.purged
    ensures forall id :: id in s.acked ==> id !in s.purged
    ensures forall id :: id in s.queue && !s.queue[id].delivered ==>
      id !in s.returned && id !in s.acked && id !in s.purged
  {
    assert forall id :: id in Returned(s) <==> id in s.returned;
    assert forall id :: id in Undelivered(s.queue) <==> id in s.queue && !s.queue[id].delivered;
  }

  /** A delivered row never becomes pending again. */
  lemma {:induction false} DeliveredForGood(es: seq<Event>, n: nat, id: nat)
    requires Legal(es) && n <= |es| && id < Final(es[..n]).next && id !in Undelivered(Final(es[..n]).queue)
    ensures id !in Undelivered(Final(es).queue)
    decreases |es|
  {
    if n == |es| {
      assert es[..n] == es;
    } else {
      var before := es[..|es| - 1];
      assert before[..n] == es[..n];
      DeliveredForGood(before, n, id);
      NextGrows(before, n);
    }
  }

  lemma {:induction false} NextGrows(es: seq<Event>, n: nat)
    requires n <= |es|
    ensures Final(es[..n]).next <= Final(es).next
    decreases |es|
  {
    if n == |es| {
      assert es[..n] == es;
    } else {
      assert es[..|es| - 1][..n] == es[..n];
      NextGrows(es[..|es| - 1], n);
    }
  }

  lemma FetchReturnsPending(s: State, id: nat, out: seq<nat>)
    requires id in Undelivered(s.queue) && Enabled(s, Fetch(s.queue[id].recipient, out))
    ensures id in out
  {
    hide TimeOf;
    assert id in PendingFor(s.queue, s.queue[id].recipient);
  }

  /** The event is not one that takes the entry off the pending rows. */
  predicate LeavesPending(e: Event, entry: Entry) {
    && !(e.Fetch? && e.user == entry.recipient)
    && !(e.Ack? && e.user == entry.recipient && entry.message in e.messages)
    && !(e.Purge? && entry.queuedAt < e.now - QUEUE_LIFETIME)
  }

  lemma {:induction false} StaysPending(es: seq<Event>, i: nat, j: nat)
    requires Legal(es) && i < j <= |es| && es[i].Queue?
    requires forall k :: i < k < j ==> LeavesPending(es[k], Entry(es[i].recipient, es[i].message, es[i].now, false))
    ensures var id, s := Final(es[..i]).next, Final(es[..j]);
      id in s.queue && s.queue[id] == Entry(es[i].recipient, es[i].message, es[i].now, false) && id < s.next
    decreases j
  {
    assert es[..j][..j - 1] == es[..j - 1];
    if j == i + 1 {
    } else {
      StaysPending(es, i, j - 1);
      assert Final(es[..j]) == After(Final(es[..j - 1]), es[j - 1]);
      hide Final;
      assert LeavesPending(es[j - 1], Entry(es[i].recipient, es[i].message, es[i].now, false));
    }
  }

  lemma {:induction false} LegalPrefix(es: seq<Event>, j: nat)
    requires Legal(es) && j < |es|
    ensures Legal(es[..j]) && Enabled(Final(es[..j]), es[j])
    decreases |es|
  {
    hide IsFetch, Final;
    if j == |es| - 1 {
    } else {
      var before := es[..|es| - 1];
      assert before[..j] == es[..j];
      LegalPrefix(before, j);
    }
  }

  lemma {:induction false} IdsStayDistinct(es: seq<Event>)
    requires Legal(es)
    ensures DistinctIds(Final(es).rows)
  {
    if es == [] {
    } else {
      var s, e := Final(es[..|es| - 1]), es[|es| - 1];
      IdsStayDistinct(es[..|es| - 1]);
      if e.Sent? {
        assert Enabled(s, e);
        assert forall k :: 0 <= k < |s.rows| ==> s.rows[k] in s.rows;
      }
    }
  }

  /** In every run a queued row is returned by the recipient's next fetch, unless it is acknowledged or purged
      before, and it comes after every returned row whose message is older. */
  lemma PendingIsFetchedNext(es: seq<Event>, i: nat, j: nat)
    requires Legal(es) && i < j < |es| && es[i].Queue? && es[j].Fetch? && es[j].user == es[i].recipient
    requires forall k :: i < k < j ==>
      && !(es[k].Fetch? && es[k].user == es[i].recipient)
      && !(es[k].Ack? && es[k].user == es[i].recipient && es[i].message in es[k].messages)
      && !(es[k].Purge? && es[i].now < es[k].now - 30 * 24 * 3600)
    ensures var id, s, out := Final(es[..i]).next, Final(es[..j]), es[j].out;
      && id in s.queue && s.queue[id] == Entry(es[i].recipient, es[i].message, es[i].now, false)
      && id in out
      && forall m, n, r, q ::
           0 <= m < |out| && 0 <= n < |out| && out[m] == id && out[n] in s.queue && r in s.rows && q in s.rows ==>
             (r.id == es[i].message && q.id == s.queue[out[n]].message && q.body.timestamp < r.body.timestamp ==> n < m)
  {
    LeavingIs(es, i, j);
    StaysPending(es, i, j);
    LegalPrefix(es, j);
    LegalSoFar(es, j);
    IdsStayDistinct(es[..j]);
    TimesAre(Final(es[..j]).rows);
    hide Final, Legal, IsFetch, TimeOf;
    FetchReturnsPending(Final(es[..j]), Final(es[..i]).next, es[j].out);
  }

  lemma LegalSoFar(es: seq<Event>, j: nat)
    requires Legal(es) && j < |es|
    ensures Legal(es[..j])
  {
    LegalPrefix(es, j);
  }

  lemma LeavingIs(es: seq<Event>, i: nat, j: nat)
    requires i < j < |es| && es[i].Queue?
    requires forall k :: i < k < j ==>
      && !(es[k].Fetch? && es[k].user == es[i].recipient)
      && !(es[k].Ack? && es[k].user == es[i].recipient && es[i].message in es[k].messages)
      && !(es[k].Purge? && es[i].now < es[k].now - 30 * 24 * 3600)
    ensures forall k :: i < k < j ==> LeavesPending(es[k], Entry(es[i].recipient, es[i].message, es[i].now, false))
  {
  }

  // ---- the handlers' calls are such a run ----

  datatype Call =
    | Send(conversation: LogId, body: Body, online: bool)
    | RunJob(job: nat, now: int)
    | FetchAll(user: UserKey)
    | AckAll(user: UserKey, messages: seq<nat>)
    | CleanUp(now: int)

  ghost predicate Follows(tables: DmTables, s: State)
    reads tables
  {
    s.rows == tables.rows && s.queue == tables.queue && s.next == tables.nextEntry
  }

  /** The messages that wait for the background job are there. */
  ghost predicate Jobs(rows: seq<Row>, jobs: seq<(UserKey, nat)>) {
    forall k :: 0 <= k < |jobs| ==> HasMessage(rows, jobs[k].1)
  }

  lemma JobsStay(rows: seq<Row>, row: Row, jobs: seq<(UserKey, nat)>, job: (UserKey, nat))
    requires Jobs(rows, jobs) && job.1 == row.id
    ensures Jobs(rows + [row], jobs) && Jobs(rows + [row], jobs + [job])
  {
    MessagesStay(rows, row);
    hide HasMessage;
  }

  lemma FreshId(rows: seq<Row>, next: nat, queue: map<nat, Entry>, nextEntry: nat)
    requires Consistent(rows, next, queue, nextEntry)
    ensures forall r :: r in rows ==> r.id != next
  {
  }

  /** One call is one event, or none if it is refused; a message that is not delivered at once waits in jobs until its
      background job runs. */
  method Handle(tables: DmTables, call: Call, jobs: seq<(UserKey, nat)>, ghost s: State)
    returns (jobs': seq<(UserKey, nat)>, ghost e: Option<Event>)
    requires Consistent(tables.rows, tables.nextId, tables.queue, tables.nextEntry)
    requires Follows(tables, s) && Jobs(tables.rows, jobs)
    modifies tables
    ensures Consistent(tables.rows, tables.nextId, tables.queue, tables.nextEntry) && Jobs(tables.rows, jobs')
    ensures e.None? ==> Follows(tables, s)
    ensures e.Some? ==> Enabled(s, e.value) && Follows(tables, After(s, e.value))
  {
    FreshId(tables.rows, tables.nextId, tables.queue, tables.nextEntry);
    hide Consistent, HasMessage, Count, IsFetch, PendingFor, Marked, Addressed, Expired, Elements;
    jobs', e := jobs, None;
    match call {
      case Send(conversation, body, online) =>
        ghost var id := tables.nextId;
        var status, toQueue := tables.SendMessage(conversation, body, online);
        if status == Done {
          ghost var row := tables.rows[|s.rows|];
          e := Some(Sent(row));
          JobsStay(s.rows, row, jobs, if toQueue.Some? then toQueue.value else (body.sender, id));
          if toQueue.Some? {
            jobs' := jobs + [toQueue.value];
          }
        }
      case RunJob(job, now) =>
        if job < |jobs| {
          tables.Enqueue(jobs[job].0, jobs[job].1, now);
          e := Some(Queue(jobs[job].0, jobs[job].1, now));
          jobs' := jobs[..job] + jobs[job + 1..];
        }
      case FetchAll(user) =>
        var out := tables.GetOfflineMessages(user);
        e := Some(Fetch(user, out));
      case AckAll(user, messages) =>
        tables.AckOfflineMessages(user, messages);
        e := Some(Ack(user, Elements(messages)));
      case CleanUp(now) =>
        tables.Cleanup(now);
        e := Some(Purge(now));
    }
  }

  /** So whatever is said of every run holds of the tables after any calls. */
  method HandleAll(tables: DmTables, calls: seq<Call>) returns (ghost es: seq<Event>)
    requires Consistent(tables.rows, tables.nextId, tables.queue, tables.nextEntry)
    requires tables.rows == [] && tables.queue == map[] && tables.nextEntry == 0
    modifies tables
    ensures Legal(es) && Follows(tables, Final(es)) && |es| <= |calls|
  {
    es := [];
    var jobs: seq<(UserKey, nat)> := [];
    for i := 0 to |calls|
      invariant Consistent(tables.rows, tables.nextId, tables.queue, tables.nextEntry) && Jobs(tables.rows, jobs)
      invariant Legal(es) && Follows(tables, Final(es)) && |es| <= i
    {
      hide Consistent, Enabled, After, Jobs;
      ghost var e;
      jobs, e := Handle(tables, calls[i], jobs, Final(es));
      if e.Some? {
        assert (es + [e.value])[..|es|] == es;
        es := es + [e.value];
      }
    }
  }
}
