/** server/src/chat/messages.rs and server/src/p2p/messages.rs: the two writers of the messages table, edits, soft
    deletions, and the deletion of a whole channel. */
module Chat {
  import opened Wrappers
  import opened MessageLog

  const MAX_CONTENT_LENGTH := 4000

  datatype Status = Done | BadRequest | TooLarge | NotFound | Forbidden | Failed

  /** Of the content after trimming, in bytes. */
  function ContentStatus(content: Bytes): Status {
    if content == [] then BadRequest else if |content| > MAX_CONTENT_LENGTH then TooLarge else Done
  }

  // ---- topics ----

  /** rsplit_once('/'): the position of the last slash. */
  function LastSlash(topic: string): (i: Option<nat>)
    ensures i.Some? ==> i.value < |topic| && topic[i.value] == '/' && '/' !in topic[i.value + 1..]
    ensures i.None? ==> '/' !in topic
  {
    if topic == [] then None
    else if topic[|topic| - 1] == '/' then Some(|topic| - 1)
    else
      var before := LastSlash(topic[..|topic| - 1]);
      assert topic == topic[..|topic| - 1] + [topic[|topic| - 1]];
      assert before.Some? ==>
        topic[before.value + 1..] == topic[..|topic| - 1][before.value + 1..] + [topic[|topic| - 1]];
      before
  }

  function ExtractChannelId(topic: string): Option<LogId> {
    match LastSlash(topic)
    case Some(i) => if topic[i + 1..] == "" then None else Some(LogId(topic[i + 1..]))
    case None => None
  }

  /** The channel is what follows the last slash, and there is one for every id without a slash, whatever the prefix. */
  lemma TopicNamesChannel(topic: string, id: string)
    ensures ExtractChannelId(topic) == Some(LogId(id)) <==>
      id != "" && '/' !in id && exists prefix: string :: topic == prefix + "/" + id
  {
    if ExtractChannelId(topic) == Some(LogId(id)) {
      var i := LastSlash(topic).value;
      assert topic == topic[..i] + "/" + topic[i + 1..];
    }
    if id != "" && '/' !in id {
      forall prefix: string | topic == prefix + "/" + id ensures ExtractChannelId(topic) == Some(LogId(id)) {
        LastSlashOf(prefix, id);
        assert topic[|prefix| + 1..] == id;
      }
    }
  }

  lemma LastSlashOf(prefix: string, id: string)
    requires '/' !in id
    ensures LastSlash(prefix + "/" + id) == Some(|prefix|)
  {
    var topic := prefix + "/" + id;
    assert topic[|prefix|] == '/' && topic[|prefix| + 1..] == id;
    var i := LastSlash(topic).value;
    SlashAfter(topic, i, |prefix|);
    SlashAfter(topic, |prefix|, i);
  }

  lemma SlashAfter(s: string, i: nat, j: nat)
    ensures i < j < |s| && s[j] == '/' ==> '/' in s[i + 1..]
  {
    if i < j < |s| {
      assert s[i + 1..][j - i - 1] == s[j];
    }
  }

  // ---- rows by id ----

  /** WHERE id = id AND channel_id = log AND deleted = 0 */
  function Find(rows: seq<Row>, id: nat, log: LogId): (k: Option<nat>)
    ensures k.Some? ==> k.value < |rows| && rows[k.value].id == id && rows[k.value].log == log && !rows[k.value].deleted
    ensures k.None? ==> forall j :: 0 <= j < |rows| ==> !(rows[j].id == id && rows[j].log == log && !rows[j].deleted)
  {
    if rows == [] then None
    else
      var n := |rows| - 1;
      if rows[n].id == id && rows[n].log == log && !rows[n].deleted then Some(n)
      else
        assert forall j :: 0 <= j < n ==> rows[..n][j] == rows[j];
        Find(rows[..n], id, log)
  }

  function Edited(rows: seq<Row>, k: nat, content: Bytes): seq<Row>
    requires k < |rows|
  {
    rows[k := rows[k].(body := rows[k].body.(content := content, edited := true))]
  }

  function Deleted(rows: seq<Row>, k: nat): seq<Row>
    requires k < |rows|
  {
    rows[k := rows[k].(deleted := true)]
  }

  function NewRow(rows: seq<Row>, id: nat, log: LogId, body: Body): Row {
    Row(id, log, MaxSequence(rows, log) + 1, false, body)
  }

  ghost predicate Consistent(channels: set<LogId>, rows: seq<Row>, next: nat) {
    && Numbered(rows) && IdsAscend(rows, next)
    && forall k :: 0 <= k < |rows| ==> rows[k].log in channels
  }

  lemma AppendIsConsistent(channels: set<LogId>, rows: seq<Row>, next: nat, log: LogId, body: Body)
    requires Consistent(channels, rows, next) && log in channels
    ensures MaxSequence(rows, log) == Count(rows, log)
    ensures Consistent(channels, rows + [Row(next, log, MaxSequence(rows, log) + 1, false, body)], next + 1)
  {
    InsertKeepsNumbered(rows, NewRow(rows, next, log, body));
    MaxIsCount(rows, log);
    hide Numbered, MaxSequence, Count;
  }

  lemma EditIsConsistent(channels: set<LogId>, rows: seq<Row>, next: nat, k: nat, content: Bytes)
    requires Consistent(channels, rows, next) && k < |rows|
    ensures Consistent(channels, Edited(rows, k, content), next) && Grows(rows, Edited(rows, k, content))
  {
    hide Numbered;
    UpdateKeepsNumbered(rows, Edited(rows, k, content), rows[k].log);
  }

  lemma DeleteIsConsistent(channels: set<LogId>, rows: seq<Row>, next: nat, k: nat)
    requires Consistent(channels, rows, next) && k < |rows|
    ensures Consistent(channels, Deleted(rows, k), next) && Grows(rows, Deleted(rows, k))
  {
    hide Numbered;
    UpdateKeepsNumbered(rows, Deleted(rows, k), rows[k].log);
  }

  lemma {:induction false} WithoutLogRows(rows: seq<Row>, log: LogId)
    ensures forall r :: r in WithoutLog(rows, log) <==> r in rows && r.log != log
  {
    if rows == [] {
    } else {
      WithoutLogRows(rows[..|rows| - 1], log);
      LastKept(rows, log);
      Split(rows);
      hide WithoutLog;
    }
  }

  lemma IdsAscendSnoc(rows: seq<Row>, next: nat, r: Row)
    requires IdsAscend(rows, r.id) && r.id < next
    ensures IdsAscend(rows + [r], next)
  {
  }

  lemma IdsAscendInit(rows: seq<Row>, next: nat)
    requires rows != [] && IdsAscend(rows, next)
    ensures IdsAscend(rows[..|rows| - 1], rows[|rows| - 1].id) && rows[|rows| - 1].id < next
  {
  }

  lemma IdsAscendMore(rows: seq<Row>, next: nat, more: nat)
    requires IdsAscend(rows, next) && next <= more
    ensures IdsAscend(rows, more)
  {
  }

  lemma {:induction false} WithoutLogIds(rows: seq<Row>, log: LogId, next: nat)
    requires IdsAscend(rows, next)
    ensures IdsAscend(WithoutLog(rows, log), next)
  {
    if rows == [] {
    } else {
      var last := rows[|rows| - 1];
      var rest := WithoutLog(rows[..|rows| - 1], log);
      IdsAscendInit(rows, next);
      WithoutLogIds(rows[..|rows| - 1], log, last.id);
      LastKept(rows, log);
      IdsAscendSnoc(rest, next, last);
      IdsAscendMore(rest, last.id, next);
      hide WithoutLog, IdsAscend;
    }
  }

  lemma CascadeIsConsistent(channels: set<LogId>, rows: seq<Row>, next: nat, log: LogId)
    requires Consistent(channels, rows, next)
    ensures Consistent(channels - {log}, WithoutLog(rows, log), next)
  {
    hide Numbered, WithoutLog, IdsAscend;
    CascadeKeepsNumbered(rows, log);
    WithoutLogRows(rows, log);
    WithoutLogIds(rows, log, next);
    OtherLogsStay(rows, WithoutLog(rows, log), channels, log);
  }

  lemma OtherLogsStay(rows: seq<Row>, left: seq<Row>, channels: set<LogId>, log: LogId)
    requires forall k :: 0 <= k < |rows| ==> rows[k].log in channels
    requires forall r :: r in left <==> r in rows && r.log != log
    ensures forall k :: 0 <= k < |left| ==> left[k].log in channels - {log}
  {
    forall k | 0 <= k < |left| ensures left[k].log in channels - {log} {
      assert left[k] in left;
      var j :| 0 <= j < |rows| && rows[j] == left[k];
    }
  }

  class ChatTables {
    var channels: set<LogId>
    var rows: seq<Row>
    var nextId: nat

    constructor (channels: set<LogId>)
      ensures Consistent(this.channels, rows, nextId) && this.channels == channels && rows == []
    {
      this.channels, rows, nextId := channels, [], 1;
    }

    /** create_message: the row appended for a REST request carries the number of the channel's rows, and one. */
    method CreateMessage(channel: LogId, body: Body) returns (status: Status)
      requires Consistent(channels, rows, nextId)
      modifies this
      ensures Consistent(channels, rows, nextId) && channels == old(channels)
      ensures status == (if body.content == [] then BadRequest else if |body.content| > 4000 then TooLarge
                         else if channel !in channels then NotFound else Done)
      ensures rows == old(rows) +
        if status != Done then []
        else [Row(old(nextId), channel, Count(old(rows), channel) + 1, false, body.(edited := false))]
    {
      ContentStatusIs(body.content);
      hide *;
      status := ContentStatus(body.content);
      if status != Done {
        return;
      }
      if channel !in channels {
        return NotFound;
      }
      Insert(channel, body.(edited := false));
    }

    method Insert(log: LogId, body: Body)
      requires Consistent(channels, rows, nextId) && log in channels
      modifies this
      ensures Consistent(channels, rows, nextId) && channels == old(channels)
      ensures rows == old(rows) + [Row(old(nextId), log, Count(old(rows), log) + 1, false, body)]
    {
      hide *;
      AppendIsConsistent(channels, rows, nextId, log, body);
      var nextSequence := MaxSequence(rows, log) + 1;
      rows := rows + [Row(nextId, log, nextSequence, false, body)];
      nextId := nextId + 1;
    }

    /** handle_gossip_message: a verified envelope goes into the same sequence; a topic without a channel, or one for a
        channel the server does not have, is an error and writes nothing. */
    method HandleGossipMessage(topic: string, body: Body) returns (status: Status)
      requires Consistent(channels, rows, nextId)
      modifies this
      ensures Consistent(channels, rows, nextId) && channels == old(channels)
      ensures var channel := ExtractChannelId(topic);
        && status == (if channel.Some? && channel.value in channels then Done else Failed)
        && (status == Done ==>
              var sequence := Count(old(rows), channel.value) + 1;
              rows == old(rows) + [Row(old(nextId), channel.value, sequence, false, body.(edited := false))])
      ensures status != Done ==> rows == old(rows)
    {
      hide *;
      var channel := ExtractChannelId(topic);
      if channel.None? || channel.value !in channels {
        return Failed;
      }
      Insert(channel.value, body.(edited := false));
      return Done;
    }

    /** edit_message */
    method EditMessage(channel: LogId, id: nat, sender: UserKey, content: Bytes) returns (status: Status)
      requires Consistent(channels, rows, nextId)
      modifies this
      ensures Consistent(channels, rows, nextId) && channels == old(channels)
      ensures content == [] ==> status == BadRequest
      ensures |content| > 4000 ==> status == TooLarge
      ensures 0 < |content| <= 4000 ==>
        && status in {Done, NotFound, Forbidden}
        && (status == NotFound <==> forall r :: r in old(rows) && r.id == id && r.log == channel ==> r.deleted)
        && (status == Done ==>
              exists k :: 0 <= k < |old(rows)| &&
                var row := old(rows)[k];
                && row.id == id && row.log == channel && !row.deleted && row.body.sender == sender
                && rows == old(rows)[k := row.(body := row.body.(content := content, edited := true))])
        && (status == Forbidden ==>
              exists r :: r in old(rows) && r.id == id && r.log == channel && !r.deleted && r.body.sender != sender)
      ensures status != Done ==> rows == old(rows)
      ensures Grows(old(rows), rows)
    {
      ContentStatusIs(content);
      FoundIs(rows, id, channel);
      EditedIs(rows, content);
      hide *;
      Unchanged(rows);
      status := ContentStatus(content);
      if status != Done {
        return;
      }
      var found := Find(rows, id, channel);
      if found.None? {
        return NotFound;
      }
      if rows[found.value].body.sender != sender {
        return Forbidden;
      }
      EditIsConsistent(channels, rows, nextId, found.value, content);
      rows := Edited(rows, found.value, content);
      return Done;
    }

    /** delete_message: the row stays, so its number is never given out again. */
    method DeleteMessage(channel: LogId, id: nat, sender: UserKey, moderator: bool) returns (status: Status)
      requires Consistent(channels, rows, nextId)
      modifies this
      ensures Consistent(channels, rows, nextId) && channels == old(channels)
      ensures status in {Done, NotFound, Forbidden}
      ensures status == NotFound <==> forall r :: r in old(rows) && r.id == id && r.log == channel ==> r.deleted
      ensures status == Done ==>
        exists k :: 0 <= k < |old(rows)| &&
          var row := old(rows)[k];
          && row.id == id && row.log == channel && !row.deleted && (row.body.sender == sender || moderator)
          && rows == old(rows)[k := row.(deleted := true)]
      ensures status == Forbidden ==>
        !moderator
        && exists r :: r in old(rows) && r.id == id && r.log == channel && !r.deleted && r.body.sender != sender
      ensures status != Done ==> rows == old(rows)
      ensures Grows(old(rows), rows)
    {
      FoundIs(rows, id, channel);
      DeletedIs(rows);
      hide *;
      Unchanged(rows);
      var found := Find(rows, id, channel);
      if found.None? {
        return NotFound;
      }
      if rows[found.value].body.sender != sender && !moderator {
        return Forbidden;
      }
      DeleteIsConsistent(channels, rows, nextId, found.value);
      rows := Deleted(rows, found.value);
      return Done;
    }

    /** DELETE FROM channels: its rows go with it. */
    method DeleteChannel(channel: LogId) returns (status: Status)
      requires Consistent(channels, rows, nextId)
      modifies this
      ensures Consistent(channels, rows, nextId) && channels == old(channels) - {channel}
      ensures status == if channel in old(channels) then Done else NotFound
      ensures rows == if status == Done then WithoutLog(old(rows), channel) else old(rows)
      ensures status == Done ==> forall r :: r in rows <==> r in old(rows) && r.log != channel
    {
      WithoutLogRows(rows, channel);
      hide *;
      if channel !in channels {
        return NotFound;
      }
      CascadeIsConsistent(channels, rows, nextId, channel);
      channels := channels - {channel};
      rows := WithoutLog(rows, channel);
      return Done;
    }
  }

  lemma Unchanged(rows: seq<Row>)
    ensures Grows(rows, rows)
  {
  }

  lemma ContentStatusIs(content: Bytes)
    ensures ContentStatus(content) == if content == [] then BadRequest else if |content| > 4000 then TooLarge else Done
  {
  }

  /** There is at most one row with an id, so a search finds it or there is none. */
  lemma FoundIs(rows: seq<Row>, id: nat, log: LogId)
    ensures var k := Find(rows, id, log);
      && (k.None? <==> forall r :: r in rows && r.id == id && r.log == log ==> r.deleted)
      && (k.Some? ==> k.value < |rows| && rows[k.value] in rows)
      && (k.Some? ==> rows[k.value].id == id && rows[k.value].log == log && !rows[k.value].deleted)
  {
    var k := Find(rows, id, log);
    if k.None? {
      forall r | r in rows && r.id == id && r.log == log ensures r.deleted {
        var j :| 0 <= j < |rows| && rows[j] == r;
      }
    }
  }

  lemma EditedIs(rows: seq<Row>, content: Bytes)
    ensures forall k :: 0 <= k < |rows| ==>
      Edited(rows, k, content) == rows[k := rows[k].(body := rows[k].body.(content := content, edited := true))]
  {
  }

  lemma DeletedIs(rows: seq<Row>)
    ensures forall k :: 0 <= k < |rows| ==> Deleted(rows, k) == rows[k := rows[k].(deleted := true)]
  {
  }

  // ---- every run of the writers ----

  datatype Op =
    | Write(id: nat, channel: LogId, body: Body)
    | Edit(k: nat, content: Bytes)
    | Delete(k: nat)
    | DropChannel(channel: LogId)

  function Apply(rows: seq<Row>, op: Op): seq<Row> {
    match op
    case Write(id, channel, body) => rows + [NewRow(rows, id, channel, body)]
    case Edit(k, content) => if k < |rows| then Edited(rows, k, content) else rows
    case Delete(k) => if k < |rows| then Deleted(rows, k) else rows
    case DropChannel(channel) => WithoutLog(rows, channel)
  }

  function RunAll(ops: seq<Op>): seq<Row> {
    if ops == [] then [] else Apply(RunAll(ops[..|ops| - 1]), ops[|ops| - 1])
  }

  // ---- the handlers' calls are such a run ----

  datatype Call =
    | Send(channel: LogId, body: Body)
    | Gossip(topic: string, body: Body)
    | EditOne(channel: LogId, id: nat, sender: UserKey, content: Bytes)
    | DeleteOne(channel: LogId, id: nat, sender: UserKey, moderator: bool)
    | DropOne(channel: LogId)

  method HandleSend(tables: ChatTables, call: Call) returns (status: Status, ghost done: seq<Op>)
    requires Consistent(tables.channels, tables.rows, tables.nextId) && call.Send?
    modifies tables
    ensures Consistent(tables.channels, tables.rows, tables.nextId)
    ensures status != Done ==> done == [] && tables.rows == old(tables.rows)
    ensures status == Done ==> |done| == 1 && tables.rows == Apply(old(tables.rows), done[0])
  {
    ghost var rows, next, body := tables.rows, tables.nextId, call.body.(edited := false);
    RowsNumbered(tables.channels, rows, next);
    WriteIs(rows, next, call.channel, body);
    hide *;
    status := tables.CreateMessage(call.channel, call.body);
    done := if status == Done then [Write(next, call.channel, body)] else [];
  }

  method HandleGossip(tables: ChatTables, call: Call) returns (status: Status, ghost done: seq<Op>)
    requires Consistent(tables.channels, tables.rows, tables.nextId) && call.Gossip?
    modifies tables
    ensures Consistent(tables.channels, tables.rows, tables.nextId)
    ensures status != Done ==> done == [] && tables.rows == old(tables.rows)
    ensures status == Done ==> |done| == 1 && tables.rows == Apply(old(tables.rows), done[0])
  {
    ghost var rows, next, body := tables.rows, tables.nextId, call.body.(edited := false);
    RowsNumbered(tables.channels, rows, next);
    hide *;
    status := tables.HandleGossipMessage(call.topic, call.body);
    done := [];
    if status == Done {
      ghost var channel := ExtractChannelId(call.topic).value;
      WriteIs(rows, next, channel, body);
      done := [Write(next, channel, body)];
    }
  }

  method HandleEdit(tables: ChatTables, call: Call) returns (status: Status, ghost done: seq<Op>)
    requires Consistent(tables.channels, tables.rows, tables.nextId) && call.EditOne?
    modifies tables
    ensures Consistent(tables.channels, tables.rows, tables.nextId)
    ensures status != Done ==> done == [] && tables.rows == old(tables.rows)
    ensures status == Done ==> |done| == 1 && tables.rows == Apply(old(tables.rows), done[0])
  {
    ghost var rows := tables.rows;
    EditIs(rows, call.content);
    hide *;
    status := tables.EditMessage(call.channel, call.id, call.sender, call.content);
    done := [];
    if status == Done {
      ghost var k :| 0 <= k < |rows| &&
        tables.rows == rows[k := rows[k].(body := rows[k].body.(content := call.content, edited := true))];
      done := [Edit(k, call.content)];
    }
  }

  method HandleDelete(tables: ChatTables, call: Call) returns (status: Status, ghost done: seq<Op>)
    requires Consistent(tables.channels, tables.rows, tables.nextId) && call.DeleteOne?
    modifies tables
    ensures Consistent(tables.channels, tables.rows, tables.nextId)
    ensures status != Done ==> done == [] && tables.rows == old(tables.rows)
    ensures status == Done ==> |done| == 1 && tables.rows == Apply(old(tables.rows), done[0])
  {
    ghost var rows := tables.rows;
    DeleteIs(rows);
    hide *;
    status := tables.DeleteMessage(call.channel, call.id, call.sender, call.moderator);
    done := [];
    if status == Done {
      ghost var k :| 0 <= k < |rows| && tables.rows == rows[k := rows[k].(deleted := true)];
      done := [Delete(k)];
    }
  }

  /** One call is one operation on the rows, or none if it is refused. */
  method Handle(tables: ChatTables, call: Call) returns (status: Status, ghost done: seq<Op>)
    requires Consistent(tables.channels, tables.rows, tables.nextId)
    modifies tables
    ensures Consistent(tables.channels, tables.rows, tables.nextId)
    ensures status != Done ==> done == [] && tables.rows == old(tables.rows)
    ensures status == Done ==> |done| == 1 && tables.rows == Apply(old(tables.rows), done[0])
  {
    hide *;
    match call {
      case Send(_, _) => status, done := HandleSend(tables, call);
      case Gossip(_, _) => status, done := HandleGossip(tables, call);
      case EditOne(_, _, _, _) => status, done := HandleEdit(tables, call);
      case DeleteOne(_, _, _, _) => status, done := HandleDelete(tables, call);
      case DropOne(channel) =>
        DropIs(tables.rows, channel);
        status := tables.DeleteChannel(channel);
        done := if status == Done then [DropChannel(channel)] else [];
    }
  }

  lemma WriteIs(rows: seq<Row>, id: nat, channel: LogId, body: Body)
    requires Numbered(rows)
    ensures Apply(rows, Write(id, channel, body)) == rows + [Row(id, channel, Count(rows, channel) + 1, false, body)]
  {
    MaxIsCount(rows, channel);
  }

  lemma EditIs(rows: seq<Row>, content: Bytes)
    ensures forall k :: 0 <= k < |rows| ==>
      Apply(rows, Edit(k, content)) == rows[k := rows[k].(body := rows[k].body.(content := content, edited := true))]
  {
  }

  lemma DeleteIs(rows: seq<Row>)
    ensures forall k :: 0 <= k < |rows| ==> Apply(rows, Delete(k)) == rows[k := rows[k].(deleted := true)]
  {
  }

  lemma DropIs(rows: seq<Row>, channel: LogId)
    ensures Apply(rows, DropChannel(channel)) == WithoutLog(rows, channel)
  {
  }

  lemma RowsNumbered(channels: set<LogId>, rows: seq<Row>, next: nat)
    requires Consistent(channels, rows, next)
    ensures Numbered(rows)
  {
  }

  /** So whatever is said of every run holds of the tables after any calls. */
  method HandleAll(tables: ChatTables, calls: seq<Call>) returns (ghost ops: seq<Op>)
    requires Consistent(tables.channels, tables.rows, tables.nextId) && tables.rows == []
    modifies tables
    ensures tables.rows == RunAll(ops) && |ops| <= |calls|
  {
    ops := [];
    for i := 0 to |calls|
      invariant Consistent(tables.channels, tables.rows, tables.nextId)
      invariant tables.rows == RunAll(ops) && |ops| <= i
    {
      var status;
      ghost var done;
      status, done := Handle(tables, calls[i]);
      if status == Done {
        assert (ops + done)[..|ops|] == ops;
        ops := ops + done;
      }
    }
  }

  /** However REST sends, gossip receipts, edits, deletions and dropped channels come after one another, every channel's
      rows carry exactly 1, 2, ..., n in insertion order, the deleted ones included. */
  lemma {:induction false} EveryRunIsOneToN(ops: seq<Op>, log: LogId, k: nat)
    requires k < |InLog(RunAll(ops), log)|
    ensures InLog(RunAll(ops), log)[k].sequence == k + 1
  {
    EveryRunIsNumbered(ops);
    LogIsOneToN(RunAll(ops), log);
  }

  lemma {:induction false} EveryRunIsNumbered(ops: seq<Op>)
    ensures Numbered(RunAll(ops))
  {
    if ops == [] {
    } else {
      var rows := RunAll(ops[..|ops| - 1]);
      EveryRunIsNumbered(ops[..|ops| - 1]);
      hide Numbered, MaxSequence, WithoutLog;
      match ops[|ops| - 1]
      case Write(id, channel, body) => InsertKeepsNumbered(rows, NewRow(rows, id, channel, body));
      case Edit(k, content) =>
        if k < |rows| {
          UpdateKeepsNumbered(rows, Edited(rows, k, content), rows[k].log);
        }
      case Delete(k) =>
        if k < |rows| {
          UpdateKeepsNumbered(rows, Deleted(rows, k), rows[k].log);
        }
      case DropChannel(channel) => CascadeKeepsNumbered(rows, channel);
    }
  }

  // ---- every run is a history that a walk can go through ----

  lemma OpEvolves(rows: seq<Row>, op: Op, log: LogId)
    requires op != DropChannel(log)
    ensures Evolves(rows, Apply(rows, op), log)
  {
    match op
    case Write(_, _, _) => GrowthOfLogs(rows, Apply(rows, op), log);
    case Edit(k, content) => GrowthOfLogs(rows, Apply(rows, op), log);
    case Delete(k) => GrowthOfLogs(rows, Apply(rows, op), log);
    case DropChannel(channel) => CascadeKeepsOthers(rows, channel, log);
  }

  /** Whatever is written between two moments of a run, a channel that is not dropped has only been appended to,
      edited and soft-deleted. */
  lemma {:induction false} RunEvolves(ops: seq<Op>, i: nat, j: nat, log: LogId)
    requires i <= j <= |ops| && forall k :: i <= k < j ==> ops[k] != DropChannel(log)
    ensures Evolves(RunAll(ops[..i]), RunAll(ops[..j]), log)
    decreases j
  {
    if i == j {
    } else {
      RunEvolves(ops, i, j - 1, log);
      assert ops[..j][..j - 1] == ops[..j - 1];
      OpEvolves(RunAll(ops[..j - 1]), ops[j - 1], log);
      hide RunAll, Apply, InLog;
      assert RunAll(ops[..j]) == Apply(RunAll(ops[..j - 1]), ops[j - 1]) by { LastOp(ops[..j]); }
    }
  }

  lemma LastOp(ops: seq<Op>)
    requires ops != []
    ensures RunAll(ops) == Apply(RunAll(ops[..|ops| - 1]), ops[|ops| - 1])
  {
  }

  /** So a walk whose pages are taken at any moments of any run sees, once each and newest first, every message that was
      there at its first page and is not deleted by its last. */
  lemma WalkThroughARun(ops: seq<Op>, cuts: seq<nat>, log: LogId, cursor: nat, limit: Option<nat>, k: nat)
    requires cuts != [] && (forall i :: 0 <= i < |cuts| ==> cuts[i] <= |ops|)
    requires forall i, j :: 0 <= i <= j < |cuts| ==> cuts[i] <= cuts[j]
    requires forall n :: cuts[0] <= n < |ops| ==> ops[n] != DropChannel(log)
    requires cursor < I64_LIMIT && limit != Some(0)
    ensures var tables := seq(|cuts|, i requires 0 <= i < |cuts| => RunAll(ops[..cuts[i]]));
      var first, last := InLog(tables[0], log), InLog(tables[|cuts| - 1], log);
      && (forall i :: 0 <= i < |tables| ==> Numbered(tables[i]))
      && Descending(Visited(tables, log, cursor, limit))
      && (Finished(tables, log, cursor, limit)
          && k < |first| && first[k].log == log && first[k].sequence < cursor && !first[k].deleted
          && k < |last| && !last[k].deleted ==>
            exists m :: m in Visited(tables, log, cursor, limit) && m.id == first[k].id)
  {
    var tables := seq(|cuts|, i requires 0 <= i < |cuts| => RunAll(ops[..cuts[i]]));
    forall i | 0 <= i < |tables| ensures Numbered(tables[i]) {
      EveryRunIsNumbered(ops[..cuts[i]]);
    }
    forall i, j | 0 <= i <= j < |tables| ensures Evolves(tables[i], tables[j], log) {
      RunEvolves(ops, cuts[i], cuts[j], log);
    }
    hide RunAll, InLog, Visited, Finished, Numbered, Evolves, Descending;
    VisitedOnce(tables, log, cursor, limit);
    var first, last := InLog(tables[0], log), InLog(tables[|cuts| - 1], log);
    if Finished(tables, log, cursor, limit)
       && k < |first| && first[k].log == log && first[k].sequence < cursor && !first[k].deleted
       && k < |last| && !last[k].deleted {
      VisitedAll(tables, log, cursor, limit, k);
    }
  }
}
