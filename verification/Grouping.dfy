/** groupDmMessages of client/src/renderer/src/components/DmChatView.tsx: message groups and day separators. */
module Grouping {
  /** Five minutes in milliseconds. */
  const GROUP_TIME_WINDOW_MS := 300000

  datatype Message = Message(id: nat, sender: nat, timestamp: int)

  /** A local calendar day; which day a time falls on is up to the time zone. */
  type Day = int

  datatype Item = Separator(day: Day) | Group(messages: seq<Message>)

  predicate Together(day: int -> Day, prev: Message, msg: Message) {
    && msg.sender == prev.sender
    && msg.timestamp - prev.timestamp <= GROUP_TIME_WINDOW_MS
    && day(msg.timestamp) == day(prev.timestamp)
  }

  // ---- what the list of items must be ----

  predicate IsGroup(day: int -> Day, g: seq<Message>) {
    g != [] && forall i :: 0 < i < |g| ==> Together(day, g[i - 1], g[i])
  }

  function GroupsOf(items: seq<Item>): seq<seq<Message>> {
    if items == [] then []
    else GroupsOf(items[..|items| - 1]) + match items[|items| - 1] case Separator(_) => [] case Group(g) => [g]
  }

  function DaysOf(items: seq<Item>): seq<Day> {
    if items == [] then []
    else DaysOf(items[..|items| - 1]) + match items[|items| - 1] case Separator(d) => [d] case Group(_) => []
  }

  /** The days of the messages, each at its first appearance. */
  function FirstDays(day: int -> Day, messages: seq<Message>): seq<Day> {
    if messages == [] then []
    else
      var before, d := FirstDays(day, messages[..|messages| - 1]), day(messages[|messages| - 1].timestamp);
      before + if d in before then [] else [d]
  }

  lemma {:induction false} DaysAppear(day: int -> Day, messages: seq<Message>, i: nat)
    requires i < |messages|
    ensures day(messages[i].timestamp) in FirstDays(day, messages)
  {
    if i == |messages| - 1 {
    } else {
      assert messages[..|messages| - 1][i] == messages[i];
      DaysAppear(day, messages[..|messages| - 1], i);
    }
  }

  lemma NextDay(day: int -> Day, messages: seq<Message>, i: nat)
    requires i < |messages|
    ensures var before, d := FirstDays(day, messages[..i]), day(messages[i].timestamp);
      FirstDays(day, messages[..i + 1]) == before + if d in before then [] else [d]
  {
    assert messages[..i + 1][..i] == messages[..i];
  }

  lemma DaysSnoc(items: seq<Item>, x: Item)
    ensures DaysOf(items + [x]) == DaysOf(items) + match x case Separator(d) => [d] case Group(_) => []
  {
    assert (items + [x])[..|items|] == items;
  }

  function Concat(gs: seq<seq<Message>>): seq<Message> {
    if gs == [] then [] else Concat(gs[..|gs| - 1]) + gs[|gs| - 1]
  }

  /** A division into runs that belong together, none of which could be joined to the next. */
  ghost predicate IsGrouping(day: int -> Day, gs: seq<seq<Message>>, messages: seq<Message>) {
    && Concat(gs) == messages
    && (forall k :: 0 <= k < |gs| ==> IsGroup(day, gs[k]))
    && forall k :: 0 < k < |gs| && gs[k - 1] != [] && gs[k] != [] ==>
         !Together(day, gs[k - 1][|gs[k - 1]| - 1], gs[k][0])
  }

  /** Each day once, before every group of that day, and right before one. */
  ghost predicate IsSeparated(day: int -> Day, items: seq<Item>) {
    && (forall i, j :: 0 <= i < j < |items| && items[i].Separator? && items[j].Separator? ==>
          items[i].day != items[j].day)
    && (forall j :: 0 <= j < |items| && items[j].Group? ==>
          forall m :: m in items[j].messages ==>
            exists i :: 0 <= i < j && items[i] == Separator(day(m.timestamp)))
    && forall i :: 0 <= i < |items| && items[i].Separator? ==>
         i + 1 < |items| && items[i + 1].Group? && items[i + 1].messages != []
         && day(items[i + 1].messages[0].timestamp) == items[i].day
  }

  // ---- the loop ----

  method GroupDmMessages(day: int -> Day, messages: seq<Message>) returns (items: seq<Item>)
    ensures IsGrouping(day, GroupsOf(items), messages)
    ensures IsSeparated(day, items) && DaysOf(items) == FirstDays(day, messages)
    ensures var gs := GroupsOf(items);
      && Concat(gs) == messages && (forall k :: 0 <= k < |gs| ==> gs[k] != [])
      && (forall k, i :: 0 <= k < |gs| && 0 < i < |gs[k]| ==>
            && gs[k][i].sender == gs[k][i - 1].sender
            && gs[k][i].timestamp - gs[k][i - 1].timestamp <= 300000
            && day(gs[k][i].timestamp) == day(gs[k][i - 1].timestamp))
      && (forall k :: 0 < k < |gs| ==>
            var prev, msg := gs[k - 1][|gs[k - 1]| - 1], gs[k][0];
            || msg.sender != prev.sender
            || msg.timestamp - prev.timestamp > 300000
            || day(msg.timestamp) != day(prev.timestamp))
    ensures forall i, j :: 0 <= i < j < |items| && items[i].Separator? && items[j].Separator? ==>
      items[i].day != items[j].day
    ensures forall j :: 0 <= j < |items| && items[j].Group? ==>
      forall m :: m in items[j].messages ==> exists i :: 0 <= i < j && items[i] == Separator(day(m.timestamp))
    ensures forall i :: 0 <= i < |items| && items[i].Separator? ==>
      i + 1 < |items| && items[i + 1].Group? && items[i + 1].messages != []
      && day(items[i + 1].messages[0].timestamp) == items[i].day
  {
    items := GroupLoop(day, messages);
    hide *;
    GroupingMeans(day, GroupsOf(items), messages);
    SeparatedMeans(day, items);
  }

  lemma SeparatedMeans(day: int -> Day, items: seq<Item>)
    requires IsSeparated(day, items)
    ensures forall i, j :: 0 <= i < j < |items| && items[i].Separator? && items[j].Separator? ==>
      items[i].day != items[j].day
    ensures forall j :: 0 <= j < |items| && items[j].Group? ==>
      forall m :: m in items[j].messages ==> exists i :: 0 <= i < j && items[i] == Separator(day(m.timestamp))
    ensures forall i :: 0 <= i < |items| && items[i].Separator? ==>
      i + 1 < |items| && items[i + 1].Group? && items[i + 1].messages != []
      && day(items[i + 1].messages[0].timestamp) == items[i].day
  {
  }

  lemma GroupingMeans(day: int -> Day, gs: seq<seq<Message>>, messages: seq<Message>)
    requires IsGrouping(day, gs, messages)
    ensures Concat(gs) == messages && (forall k :: 0 <= k < |gs| ==> gs[k] != [])
    ensures forall k, i :: 0 <= k < |gs| && 0 < i < |gs[k]| ==>
      && gs[k][i].sender == gs[k][i - 1].sender
      && gs[k][i].timestamp - gs[k][i - 1].timestamp <= 300000
      && day(gs[k][i].timestamp) == day(gs[k][i - 1].timestamp)
    ensures forall k :: 0 < k < |gs| ==>
      var prev, msg := gs[k - 1][|gs[k - 1]| - 1], gs[k][0];
      || msg.sender != prev.sender
      || msg.timestamp - prev.timestamp > 300000
      || day(msg.timestamp) != day(prev.timestamp)
  {
    forall k, i | 0 <= k < |gs| && 0 < i < |gs[k]|
      ensures gs[k][i].sender == gs[k][i - 1].sender
      ensures gs[k][i].timestamp - gs[k][i - 1].timestamp <= 300000
      ensures day(gs[k][i].timestamp) == day(gs[k][i - 1].timestamp)
    {
      assert IsGroup(day, gs[k]);
      assert Together(day, gs[k][i - 1], gs[k][i]);
    }
    forall k | 0 < k < |gs|
      ensures var prev, msg := gs[k - 1][|gs[k - 1]| - 1], gs[k][0];
        || msg.sender != prev.sender
        || msg.timestamp - prev.timestamp > 300000
        || day(msg.timestamp) != day(prev.timestamp)
    {
      assert IsGroup(day, gs[k - 1]) && IsGroup(day, gs[k]);
      assert !Together(day, gs[k - 1][|gs[k - 1]| - 1], gs[k][0]);
    }
  }

  /** One pass, with the group in progress and the days seen so far. */
  method GroupLoop(day: int -> Day, messages: seq<Message>) returns (items: seq<Item>)
    ensures IsGrouping(day, GroupsOf(items), messages)
    ensures IsSeparated(day, items) && DaysOf(items) == FirstDays(day, messages)
  {
    hide *;
    NoItems(day);
    items := [];
    if |messages| == 0 {
      return;
    }
    var current := [messages[0]];
    var firstDay := day(messages[0].timestamp);
    items := [Separator(firstDay)];
    var seen := {firstDay};
    FirstItems(day, messages[0]);
    FirstDay(day, messages);
    var i := 1;
    while i < |messages|
      invariant 1 <= i <= |messages| && current != [] && current[|current| - 1] == messages[i - 1]
      invariant IsGrouping(day, GroupsOf(items) + [current], messages[..i])
      invariant Pending(day, items, seen, current)
      invariant DaysOf(items) == FirstDays(day, messages[..i])
      invariant forall d :: d in seen <==> d in DaysOf(items)
    {
      var msg, prev := messages[i], messages[i - 1];
      var msgDay := day(msg.timestamp);
      NextDay(day, messages, i);
      DaysAppear(day, messages[..i], i - 1);
      DaysSnoc(items, Group(current));
      DaysSnoc(items + [Group(current)], Separator(msgDay));
      if Together(day, prev, msg) {
        Extend(day, GroupsOf(items), current, messages, i);
        ExtendPending(day, items, seen, current, msg);
        SameDay(day, prev, msg);
        current := current + [msg];
      } else {
        Flush(day, GroupsOf(items), current, messages, i);
        FlushPending(day, items, seen, current, msg);
        items := items + [Group(current)];
        if msgDay !in seen {
          items := items + [Separator(msgDay)];
          seen := seen + {msgDay};
        }
        current := [msg];
      }
      i := i + 1;
    }
    assert messages[..i] == messages;
    DaysSnoc(items, Group(current));
    Finish(day, items, seen, current);
    items := items + [Group(current)];
  }

  lemma NoItems(day: int -> Day)
    ensures IsGrouping(day, GroupsOf([]), []) && IsSeparated(day, []) && DaysOf([]) == FirstDays(day, [])
  {
  }

  lemma FirstDay(day: int -> Day, messages: seq<Message>)
    requires messages != []
    ensures DaysOf([Separator(day(messages[0].timestamp))]) == [day(messages[0].timestamp)]
    ensures FirstDays(day, messages[..1]) == [day(messages[0].timestamp)]
    ensures messages[..1] == [messages[0]]
  {
    NextDay(day, messages, 0);
    DaysSnoc([], Separator(day(messages[0].timestamp)));
    assert [] + [Separator(day(messages[0].timestamp))] == [Separator(day(messages[0].timestamp))];
  }

  lemma SameDay(day: int -> Day, prev: Message, msg: Message)
    requires Together(day, prev, msg)
    ensures day(msg.timestamp) == day(prev.timestamp)
  {
  }

  /** The items so far, with the group that is still open. */
  ghost predicate Pending(day: int -> Day, items: seq<Item>, seen: set<Day>, current: seq<Message>) {
    && current != []
    && IsSeparated(day, items + [Group(current)])
    && forall d :: d in seen <==> exists i :: 0 <= i < |items| && items[i] == Separator(d)
  }

  lemma FirstItems(day: int -> Day, m: Message)
    ensures GroupsOf([Separator(day(m.timestamp))]) == []
    ensures IsGrouping(day, GroupsOf([Separator(day(m.timestamp))]) + [[m]], [m])
    ensures Pending(day, [Separator(day(m.timestamp))], {day(m.timestamp)}, [m])
  {
    var items := [Separator(day(m.timestamp))];
    assert items[..0] == [];
    var gs := [[m]];
    assert gs[..0] == [] && Concat(gs) == [m];
    assert (items + [Group([m])])[0] == items[0];
  }

  lemma GroupsSnoc(items: seq<Item>, x: Item)
    ensures GroupsOf(items + [x]) == GroupsOf(items) + match x case Separator(_) => [] case Group(g) => [g]
  {
    assert (items + [x])[..|items|] == items;
  }

  lemma ConcatSnoc(gs: seq<seq<Message>>, g: seq<Message>)
    ensures Concat(gs + [g]) == Concat(gs) + g
  {
    assert (gs + [g])[..|gs|] == gs;
  }

  lemma Extend(day: int -> Day, gs: seq<seq<Message>>, current: seq<Message>, messages: seq<Message>, i: nat)
    requires 1 <= i < |messages| && current != [] && current[|current| - 1] == messages[i - 1]
    requires IsGrouping(day, gs + [current], messages[..i]) && Together(day, messages[i - 1], messages[i])
    ensures IsGrouping(day, gs + [current + [messages[i]]], messages[..i + 1])
  {
    ConcatSnoc(gs, current);
    ConcatSnoc(gs, current + [messages[i]]);
    hide Together;
    assert messages[..i + 1] == messages[..i] + [messages[i]];
    assert (gs + [current])[|gs|] == current;
    assert forall k :: 0 <= k < |gs| ==> (gs + [current])[k] == gs[k];
  }

  lemma Flush(day: int -> Day, gs: seq<seq<Message>>, current: seq<Message>, messages: seq<Message>, i: nat)
    requires 1 <= i < |messages| && current != [] && current[|current| - 1] == messages[i - 1]
    requires IsGrouping(day, gs + [current], messages[..i]) && !Together(day, messages[i - 1], messages[i])
    ensures IsGrouping(day, gs + [current] + [[messages[i]]], messages[..i + 1])
  {
    ConcatSnoc(gs + [current], [messages[i]]);
    hide Together;
    assert messages[..i + 1] == messages[..i] + [messages[i]];
  }

  lemma ExtendPending(day: int -> Day, items: seq<Item>, seen: set<Day>, current: seq<Message>, msg: Message)
    requires Pending(day, items, seen, current) && Together(day, current[|current| - 1], msg)
    ensures Pending(day, items, seen, current + [msg])
  {
    var last := current[|current| - 1];
    var a := items + [Group(current)];
    assert a[|items|] == Group(current) && last in current;
    var i :| 0 <= i < |items| && a[i] == Separator(day(last.timestamp));
    assert items[i] == Separator(day(msg.timestamp));
    hide Together;
    LongerLastGroup(day, items, current, msg, i);
  }

  lemma LongerLastGroup(day: int -> Day, items: seq<Item>, current: seq<Message>, msg: Message, s: nat)
    requires current != [] && IsSeparated(day, items + [Group(current)])
    requires s < |items| && items[s] == Separator(day(msg.timestamp))
    ensures IsSeparated(day, items + [Group(current + [msg])])
  {
    var a, b := items + [Group(current)], items + [Group(current + [msg])];
    assert forall k :: 0 <= k < |items| ==> a[k] == items[k] && b[k] == items[k];
    assert a[|items|] == Group(current) && b[|items|] == Group(current + [msg]);
    forall j, m | 0 <= j < |b| && b[j].Group? && m in b[j].messages
      ensures exists i :: 0 <= i < j && b[i] == Separator(day(m.timestamp))
    {
      if j == |items| && m !in current {
        assert m == msg && b[s] == Separator(day(m.timestamp));
      } else {
        assert m in a[j].messages;
        var i :| 0 <= i < j && a[i] == Separator(day(m.timestamp));
        assert b[i] == a[i];
      }
    }
  }

  lemma FlushPending(day: int -> Day, items: seq<Item>, seen: set<Day>, current: seq<Message>, msg: Message)
    requires Pending(day, items, seen, current)
    ensures var d := day(msg.timestamp); var flushed := items + [Group(current)];
      && (d in seen ==> Pending(day, flushed, seen, [msg]))
      && (d !in seen ==> Pending(day, flushed + [Separator(d)], seen + {d}, [msg]))
      && GroupsOf(flushed) == GroupsOf(items) + [current]
      && GroupsOf(flushed + [Separator(d)]) == GroupsOf(items) + [current]
  {
    var d := day(msg.timestamp);
    var flushed := items + [Group(current)];
    GroupsSnoc(items, Group(current));
    GroupsSnoc(flushed, Separator(d));
    SameSeparators(items, current, seen);
    if d in seen {
      AppendGroup(day, flushed, msg);
    } else {
      AppendDay(day, flushed, msg);
      MoreSeparators(flushed, seen, d);
    }
  }

  lemma SameSeparators(items: seq<Item>, current: seq<Message>, seen: set<Day>)
    requires forall d :: d in seen <==> exists i :: 0 <= i < |items| && items[i] == Separator(d)
    ensures var flushed := items + [Group(current)];
      forall d :: d in seen <==> exists i :: 0 <= i < |flushed| && flushed[i] == Separator(d)
  {
    var flushed := items + [Group(current)];
    forall d ensures d in seen <==> exists i :: 0 <= i < |flushed| && flushed[i] == Separator(d) {
      if d in seen {
        var i :| 0 <= i < |items| && items[i] == Separator(d);
        assert flushed[i] == Separator(d);
      }
      if i :| 0 <= i < |flushed| && flushed[i] == Separator(d) {
        assert items[i] == Separator(d);
      }
    }
  }

  lemma MoreSeparators(items: seq<Item>, seen: set<Day>, day: Day)
    requires forall d :: d in seen <==> exists i :: 0 <= i < |items| && items[i] == Separator(d)
    ensures var more := items + [Separator(day)];
      forall d :: d in seen + {day} <==> exists i :: 0 <= i < |more| && more[i] == Separator(d)
  {
    var more := items + [Separator(day)];
    assert more[|items|] == Separator(day);
    forall d ensures d in seen + {day} <==> exists i :: 0 <= i < |more| && more[i] == Separator(d) {
      if d in seen {
        var i :| 0 <= i < |items| && items[i] == Separator(d);
        assert more[i] == Separator(d);
      }
      if i :| 0 <= i < |more| && more[i] == Separator(d) && d != day {
        assert items[i] == Separator(d);
      }
    }
  }

  lemma AppendGroup(day: int -> Day, items: seq<Item>, msg: Message)
    requires IsSeparated(day, items) && exists i :: 0 <= i < |items| && items[i] == Separator(day(msg.timestamp))
    ensures IsSeparated(day, items + [Group([msg])])
  {
    var after := items + [Group([msg])];
    assert forall k :: 0 <= k < |items| ==> after[k] == items[k];
    var i :| 0 <= i < |items| && items[i] == Separator(day(msg.timestamp));
    assert after[i] == Separator(day(msg.timestamp));
  }

  lemma AppendDay(day: int -> Day, items: seq<Item>, msg: Message)
    requires IsSeparated(day, items) && forall i :: 0 <= i < |items| ==> items[i] != Separator(day(msg.timestamp))
    ensures IsSeparated(day, items + [Separator(day(msg.timestamp))] + [Group([msg])])
  {
    var after := items + [Separator(day(msg.timestamp))] + [Group([msg])];
    assert forall k :: 0 <= k < |items| ==> after[k] == items[k];
    assert after[|items|] == Separator(day(msg.timestamp));
  }

  lemma Finish(day: int -> Day, items: seq<Item>, seen: set<Day>, current: seq<Message>)
    requires Pending(day, items, seen, current)
    ensures GroupsOf(items + [Group(current)]) == GroupsOf(items) + [current]
    ensures IsSeparated(day, items + [Group(current)])
  {
    GroupsSnoc(items, Group(current));
  }

  // ---- there is only one such list of groups ----

  function LastStart(gs: seq<seq<Message>>, messages: seq<Message>): int
    requires gs != []
  {
    |messages| - |gs[|gs| - 1]|
  }

  lemma ConcatLast(gs: seq<seq<Message>>, messages: seq<Message>)
    requires gs != [] && Concat(gs) == messages
    ensures 0 <= LastStart(gs, messages)
    ensures Concat(gs[..|gs| - 1]) == messages[..LastStart(gs, messages)]
    ensures gs[|gs| - 1] == messages[LastStart(gs, messages)..]
  {
    assert messages == Concat(gs[..|gs| - 1]) + gs[|gs| - 1];
  }

  /** The last group starts where two neighbours do not belong together. */
  lemma LastGroupIsMaximal(day: int -> Day, gs: seq<seq<Message>>, messages: seq<Message>)
    requires IsGrouping(day, gs, messages) && gs != []
    ensures 0 <= LastStart(gs, messages) < |messages|
    ensures var cut := LastStart(gs, messages); cut > 0 ==> !Together(day, messages[cut - 1], messages[cut])
  {
    ConcatLast(gs, messages);
    assert IsGroup(day, gs[|gs| - 1]);
    hide Together;
    var before := gs[..|gs| - 1];
    if before != [] {
      assert before[|before| - 1] == gs[|gs| - 2] && IsGroup(day, gs[|gs| - 2]);
      ConcatLast(before, Concat(before));
    }
  }

  /** Inside the last group all neighbours do. */
  lemma LastGroupIsOne(day: int -> Day, gs: seq<seq<Message>>, messages: seq<Message>)
    requires IsGrouping(day, gs, messages) && gs != []
    ensures 0 <= LastStart(gs, messages)
    ensures forall i :: LastStart(gs, messages) < i < |messages| ==> Together(day, messages[i - 1], messages[i])
  {
    ConcatLast(gs, messages);
    var g := gs[|gs| - 1];
    var cut := LastStart(gs, messages);
    assert IsGroup(day, g);
    hide Together;
    forall i | cut < i < |messages| ensures Together(day, messages[i - 1], messages[i]) {
      assert Together(day, g[i - cut - 1], g[i - cut]);
    }
  }

  lemma SameLastStart(day: int -> Day, gs: seq<seq<Message>>, hs: seq<seq<Message>>, messages: seq<Message>)
    requires IsGrouping(day, gs, messages) && IsGrouping(day, hs, messages) && gs != [] && hs != []
    ensures LastStart(gs, messages) == LastStart(hs, messages)
  {
    LastGroupIsMaximal(day, gs, messages);
    LastGroupIsMaximal(day, hs, messages);
    LastGroupIsOne(day, gs, messages);
    LastGroupIsOne(day, hs, messages);
    hide *;
  }

  /** Two divisions into maximal runs of the same messages are the same. */
  lemma {:induction false} GroupingIsUnique(day: int -> Day, gs: seq<seq<Message>>, hs: seq<seq<Message>>,
                                            messages: seq<Message>)
    requires IsGrouping(day, gs, messages) && IsGrouping(day, hs, messages)
    ensures gs == hs
    decreases |gs|
  {
    NoMoreGroupsThanMessages(day, gs);
    NoMoreGroupsThanMessages(day, hs);
    if messages == [] {
    } else {
      assert gs != [] && hs != [];
      var g, h := gs[..|gs| - 1], hs[..|hs| - 1];
      SameLastStart(day, gs, hs, messages);
      ConcatLast(gs, messages);
      ConcatLast(hs, messages);
      GroupingIsUnique(day, g, h, messages[..LastStart(gs, messages)]);
      assert gs == g + [gs[|gs| - 1]] && hs == h + [hs[|hs| - 1]];
    }
  }

  lemma {:induction false} NoMoreGroupsThanMessages(day: int -> Day, gs: seq<seq<Message>>)
    requires forall k :: 0 <= k < |gs| ==> IsGroup(day, gs[k])
    ensures |gs| <= |Concat(gs)|
  {
    if gs == [] {
    } else {
      NoMoreGroupsThanMessages(day, gs[..|gs| - 1]);
    }
  }
}
