/**
 Agent events and the messages they belong to. Storing an event and linking are separate
 transactions, and other requests may run between them, so a history is any interleaving of the two.
 */
module Events {
  import opened Collections

  datatype Kind = PostToolUse | Stop | UserPromptSubmit | OtherEvent

  /** `time` is the instant of the event's timestamp. */
  datatype Row = Row(id: string, kind: Kind, agent: string, time: int, message: Option<string>)

  /**
   One transaction: an event is inserted unlinked, replacing a row of the same id, or an agent's
   open tool events are linked to a message.
   */
  datatype Action = Store(id: string, kind: Kind, agent: string, time: int) | Link(agent: string, message: string)

  predicate Open(r: Row, agent: string) {
    r.agent == agent && r.message == None && r.kind == PostToolUse
  }

  function LinkRow(r: Row, agent: string, message: string): Row {
    if Open(r, agent) then r.(message := Some(message)) else r
  }

  function LinkAll(rows: seq<Row>, agent: string, message: string): seq<Row> {
    seq(|rows|, i requires 0 <= i < |rows| => LinkRow(rows[i], agent, message))
  }

  function Without(rows: seq<Row>, id: string): seq<Row> {
    if rows == [] then []
    else
      var n := |rows| - 1;
      Without(rows[..n], id) + if rows[n].id == id then [] else [rows[n]]
  }

  function Step(rows: seq<Row>, a: Action): seq<Row> {
    match a
    case Store(id, kind, agent, time) => Without(rows, id) + [Row(id, kind, agent, time, None)]
    case Link(agent, message) => LinkAll(rows, agent, message)
  }

  ghost function Table(history: seq<Action>): seq<Row> {
    if history == [] then [] else Step(Table(history[..|history| - 1]), history[|history| - 1])
  }

  /** No event id is stored twice. */
  ghost predicate FreshIds(history: seq<Action>) {
    forall i, j :: 0 <= i < j < |history| && history[i].Store? && history[j].Store? ==> history[i].id != history[j].id
  }

  lemma {:induction false} NothingWithout(rows: seq<Row>, id: string)
    ensures forall r :: r in Without(rows, id) <==> r in rows && r.id != id
    ensures (forall r :: r in rows ==> r.id != id) ==> Without(rows, id) == rows
  {
    if rows != [] {
      var n := |rows| - 1;
      var before, last := rows[..n], rows[n];
      assert rows == before + [last];
      NothingWithout(before, id);
      assert Without(rows, id) == Without(before, id) + if last.id == id then [] else [last];
      hide Without;
      assert forall r :: r in rows <==> r in before || r == last;
    }
  }

  /** Every row was stored. */
  lemma {:induction false} RowsWereStored(history: seq<Action>, r: Row)
    requires r in Table(history)
    ensures exists i :: 0 <= i < |history| && history[i].Store? && history[i].id == r.id
  {
    var n := |history| - 1;
    var before := history[..n];
    var rows := Table(before);
    if history[n].Store? {
      NothingWithout(rows, history[n].id);
      if r in rows {
        RowsWereStored(before, r);
        var i :| 0 <= i < |before| && before[i].Store? && before[i].id == r.id;
        assert history[i] == before[i];
      } else {
        assert history[n].id == r.id;
      }
    } else {
      var k :| 0 <= k < |rows| && LinkRow(rows[k], history[n].agent, history[n].message) == r;
      assert rows[k] in rows && rows[k].id == r.id;
      RowsWereStored(before, rows[k]);
      var i :| 0 <= i < |before| && before[i].Store? && before[i].id == rows[k].id;
      assert history[i] == before[i];
    }
  }

  /** With fresh ids, storing appends. */
  lemma FreshStoreAppends(before: seq<Action>, a: Action)
    requires FreshIds(before + [a]) && a.Store?
    ensures FreshIds(before) && Step(Table(before), a) == Table(before) + [Row(a.id, a.kind, a.agent, a.time, None)]
  {
    var history, rows := before + [a], Table(before);
    FreshBefore(before, [a]);
    forall r | r in rows ensures r.id != a.id {
      RowsWereStored(before, r);
      var i :| 0 <= i < |before| && before[i].Store? && before[i].id == r.id;
      assert history[i] == before[i] && history[|before|] == a;
    }
    NothingWithout(rows, a.id);
  }

  lemma FreshBefore(before: seq<Action>, more: seq<Action>)
    requires FreshIds(before + more)
    ensures FreshIds(before)
  {
    var all := before + more;
    assert forall i :: 0 <= i < |before| ==> all[i] == before[i];
  }

  /** An event that reuses an id takes the other's row, and its link, away. */
  lemma ReusedIdForgets(id: string, agent: string, other: string, message: string, time: int, later: int)
    ensures var history := [Store(id, PostToolUse, agent, time), Link(agent, message), Store(id, Stop, other, later)];
            && EventsOf(Table(history[..2]), message) == [Row(id, PostToolUse, agent, time, Some(message))]
            && Table(history) == [Row(id, Stop, other, later, None)]
  {
    var first, link, second := Store(id, PostToolUse, agent, time), Link(agent, message), Store(id, Stop, other, later);
    var row := Row(id, PostToolUse, agent, time, None);
    hide Without, LinkAll, EventsOf, Table;
    assert Table([]) == [] by { EmptyTable(); }
    assert [] + [first] == [first] && [first] + [link] == [first, link] && [first, link] + [second] == [first, link, second];
    TableAppend([], first);
    TableAppend([first], link);
    TableAppend([first, link], second);
    OneRow(row, message);
    NothingWithout([], id);
    assert Without([], id) == [] by { assert forall r :: r !in Without([], id); }
    var linked := row.(message := Some(message));
    assert Table([first]) == [row];
    assert Table([first, link]) == LinkAll([row], agent, message) == [linked];
    assert Table([first, link, second]) == Without([linked], id) + [Row(id, Stop, other, later, None)];
    assert [first, link, second][..2] == [first, link];
  }

  lemma EmptyTable()
    ensures Table([]) == []
  {
  }

  lemma OneRow(row: Row, message: string)
    requires row.kind == PostToolUse && row.message == None
    ensures var linked := row.(message := Some(message));
            && LinkAll([row], row.agent, message) == [linked]
            && Without([linked], row.id) == []
            && EventsOf([linked], message) == [linked]
  {
    var linked := row.(message := Some(message));
    assert [linked][..0] == [];
  }

  lemma TableAppend(history: seq<Action>, a: Action)
    ensures Table(history + [a]) == Step(Table(history), a)
  {
    assert (history + [a])[..|history|] == history;
  }

  function OpenCount(rows: seq<Row>, agent: string): nat {
    if rows == [] then 0
    else OpenCount(rows[..|rows| - 1], agent) + if Open(rows[|rows| - 1], agent) then 1 else 0
  }

  /** The places of an agent's open tool events. */
  ghost function OpenAt(rows: seq<Row>, agent: string): set<nat> {
    set k: nat | k < |rows| && rows[k].agent == agent && rows[k].kind == PostToolUse && rows[k].message == None
  }

  lemma {:induction false} OpenCountIs(rows: seq<Row>, agent: string)
    ensures OpenCount(rows, agent) == |OpenAt(rows, agent)|
  {
    if rows != [] {
      var n := |rows| - 1;
      OpenCountIs(rows[..n], agent);
      assert OpenAt(rows, agent) == OpenAt(rows[..n], agent) + if Open(rows[n], agent) then {n} else {};
    }
  }

  function EventsOf(rows: seq<Row>, message: string): seq<Row> {
    if rows == [] then []
    else
      var n := |rows| - 1;
      EventsOf(rows[..n], message) + if rows[n].message == Some(message) then [rows[n]] else []
  }

  lemma {:induction false} EventsOfMembers(rows: seq<Row>, message: string)
    ensures forall r :: r in EventsOf(rows, message) <==> r in rows && r.message == Some(message)
  {
    if rows != [] {
      var n := |rows| - 1;
      EventsOfMembers(rows[..n], message);
      assert rows == rows[..n] + [rows[n]];
    }
  }

  /** A link with a message id not used before makes that message's events exactly the open ones. */
  lemma {:induction false} LinkCount(rows: seq<Row>, agent: string, message: string)
    requires forall r :: r in rows ==> r.message != Some(message)
    ensures |EventsOf(LinkAll(rows, agent, message), message)| == OpenCount(rows, agent)
  {
    if rows != [] {
      var n := |rows| - 1;
      assert rows == rows[..n] + [rows[n]];
      assert LinkAll(rows, agent, message)[..n] == LinkAll(rows[..n], agent, message);
      LinkCount(rows[..n], agent, message);
    }
  }

  // ---- which link an event gets ----

  /** The message of the first link for `agent` at or after step i; None if there is none. */
  ghost function FirstLink(history: seq<Action>, agent: string, i: nat): Option<string>
    requires i <= |history|
    decreases |history| - i
  {
    if i == |history| then None
    else if history[i].Link? && history[i].agent == agent then Some(history[i].message)
    else FirstLink(history, agent, i + 1)
  }

  /** The events stored so far, as positions in the history. */
  ghost function Stores(history: seq<Action>): seq<nat> {
    if history == [] then []
    else
      var n := |history| - 1;
      Stores(history[..n]) + if history[n].Store? then [n] else []
  }

  lemma {:induction false} StoresAre(history: seq<Action>)
    requires FreshIds(history)
    ensures |Stores(history)| == |Table(history)|
    ensures forall k :: 0 <= k < |Stores(history)| ==> Stores(history)[k] < |history| && history[Stores(history)[k]].Store?
    ensures forall j, k :: 0 <= j < k < |Stores(history)| ==> Stores(history)[j] < Stores(history)[k]
    ensures forall i :: 0 <= i < |history| && history[i].Store? ==> i in Stores(history)
  {
    if history != [] {
      var n := |history| - 1;
      var before, a := history[..n], history[n];
      assert history == before + [a];
      FreshBefore(before, [a]);
      if a.Store? {
        FreshStoreAppends(before, a);
      }
      StoresAre(before);
      StoresAppend(before, a);
      hide Stores, Table, Step, FreshIds;
      assert forall k :: 0 <= k < n ==> history[k] == before[k];
      if a.Store? {
        assert Stores(history)[|Stores(before)|] == n;
      }
    }
  }

  lemma StoresAppend(before: seq<Action>, a: Action)
    ensures Stores(before + [a]) == Stores(before) + if a.Store? then [|before|] else []
    ensures Table(before + [a]) == Step(Table(before), a)
    ensures a.Link? ==> |Table(before + [a])| == |Table(before)|
  {
    assert (before + [a])[..|before|] == before;
  }

  lemma {:induction false} FirstLinkAppend(history: seq<Action>, a: Action, agent: string, i: nat)
    requires i <= |history|
    ensures FirstLink(history + [a], agent, i)
         == if FirstLink(history, agent, i).Some? then FirstLink(history, agent, i)
            else if a.Link? && a.agent == agent then Some(a.message) else None
    decreases |history| - i
  {
    if i < |history| {
      FirstLinkAppend(history, a, agent, i + 1);
    }
  }

  /**
   After any history, the k-th event is as it was stored, and linked exactly if it is a tool call
   and its agent has a later link: then to the first one.
   */
  lemma {:induction false} LinkedToFirst(history: seq<Action>, k: nat)
    requires FreshIds(history) && k < |Table(history)|
    ensures |Stores(history)| == |Table(history)| && Stores(history)[k] < |history| && history[Stores(history)[k]].Store?
    ensures var s := history[Stores(history)[k]];
            Table(history)[k] == Row(s.id, s.kind, s.agent, s.time,
                                     if s.kind == PostToolUse then FirstLink(history, s.agent, Stores(history)[k]) else None)
  {
    StoresAre(history);
    var n := |history| - 1;
    var before, last := history[..n], history[n];
    assert history == before + [last];
    FreshBefore(before, [last]);
    if last.Store? {
      FreshStoreAppends(before, last);
    }
    StoresAre(before);
    var i := Stores(history)[k];
    if k < |Table(before)| {
      LinkedToFirst(before, k);
      assert Stores(before)[k] == i && before[i] == history[i];
      FirstLinkAppend(before, last, history[i].agent, i);
    } else {
      assert i == n;
    }
  }

  /** A link never changes, over any continuation. */
  lemma {:induction false} LinkNeverChanges(history: seq<Action>, more: seq<Action>, k: nat)
    requires FreshIds(history + more) && k < |Table(history)| && Table(history)[k].message.Some?
    ensures k < |Table(history + more)| && Table(history + more)[k] == Table(history)[k]
    decreases |more|
  {
    if more == [] {
      assert history + more == history;
    } else {
      var n := |more| - 1;
      var before := history + more[..n];
      assert history + more == before + [more[n]];
      FreshBefore(before, [more[n]]);
      if more[n].Store? {
        FreshStoreAppends(before, more[n]);
      }
      LinkNeverChanges(history, more[..n], k);
      TableAppend(before, more[n]);
    }
  }

  /** Links of one agent follow the order of its events: an earlier tool call is never linked later. */
  lemma {:induction false} FirstLinkMonotone(history: seq<Action>, agent: string, i: nat, j: nat)
    requires i <= j <= |history| && FirstLink(history, agent, j).Some?
    ensures FirstLink(history, agent, i).Some?
    ensures FirstLink(history, agent, i) == FirstLink(history, agent, j) ||
            exists l :: i <= l < j && history[l].Link? && history[l].agent == agent
    decreases j - i
  {
    if i < j {
      FirstLinkMonotone(history, agent, i + 1, j);
    }
  }

  // ---- the events of a message ----

  ghost predicate FreshMessages(history: seq<Action>) {
    forall i, j :: 0 <= i < j < |history| && history[i].Link? && history[j].Link? ==> history[i].message != history[j].message
  }

  /** No link for the agent lies strictly between an event and the link at l: they share a segment. */
  ghost predicate InSegment(history: seq<Action>, agent: string, i: nat, l: nat) {
    && i < l < |history| && history[l].Link? && history[l].agent == agent
    && forall m :: i <= m < l ==> !(history[m].Link? && history[m].agent == agent)
  }

  lemma {:induction false} SegmentLink(history: seq<Action>, agent: string, i: nat, l: nat)
    requires i <= l < |history| && history[l].Link? && history[l].agent == agent
    requires forall m :: i <= m < l ==> !(history[m].Link? && history[m].agent == agent)
    ensures FirstLink(history, agent, i) == Some(history[l].message)
    decreases l - i
  {
    if i < l {
      SegmentLink(history, agent, i + 1, l);
    }
  }

  lemma {:induction false} LinkPosition(history: seq<Action>, agent: string, i: nat) returns (l: nat)
    requires i <= |history| && FirstLink(history, agent, i).Some?
    ensures i <= l < |history| && history[l].Link? && history[l].agent == agent
    ensures FirstLink(history, agent, i) == Some(history[l].message)
    ensures forall m :: i <= m < l ==> !(history[m].Link? && history[m].agent == agent)
    decreases |history| - i
  {
    if history[i].Link? && history[i].agent == agent {
      l := i;
    } else {
      l := LinkPosition(history, agent, i + 1);
    }
  }

  /**
   With fresh message ids, the events of the message linked at step l are exactly the agent's tool
   calls stored since the agent's previous link: a consecutive segment of its log.
   */
  lemma MessageEventsAreSegment(history: seq<Action>, l: nat, k: nat)
    requires FreshIds(history) && FreshMessages(history) && l < |history| && history[l].Link? && k < |Table(history)|
    ensures |Stores(history)| == |Table(history)| && Stores(history)[k] < |history| && history[Stores(history)[k]].Store?
    ensures var s := history[Stores(history)[k]];
            Table(history)[k].message == Some(history[l].message)
            <==> s.kind == PostToolUse && s.agent == history[l].agent && InSegment(history, s.agent, Stores(history)[k], l)
  {
    LinkedToFirst(history, k);
    var i := Stores(history)[k];
    var s := history[i];
    if Table(history)[k].message == Some(history[l].message) {
      var m := LinkPosition(history, s.agent, i);
      assert m == l;
    }
    if s.kind == PostToolUse && s.agent == history[l].agent && InSegment(history, s.agent, i, l) {
      SegmentLink(history, s.agent, i, l);
    }
  }

  // ---- the handler taken as one step ----

  /** A handled event; `reply` is the message a Stop stored, if it stored one. */
  datatype Handled = Handled(id: string, kind: Kind, agent: string, time: int, reply: Option<string>)

  ghost predicate OnlyStopsReply(events: seq<Handled>) {
    forall e :: e in events && e.reply.Some? ==> e.kind == Stop
  }

  function StoreOf(e: Handled): Action {
    Store(e.id, e.kind, e.agent, e.time)
  }

  function ActionsOf(e: Handled): seq<Action> {
    [StoreOf(e)] + if e.reply.Some? then [Link(e.agent, e.reply.value)] else []
  }

  ghost function History(events: seq<Handled>): seq<Action> {
    if events == [] then [] else History(events[..|events| - 1]) + ActionsOf(events[|events| - 1])
  }

  /** The message of the first Stop of the agent, from event i on, that stored one. */
  ghost function FirstReply(events: seq<Handled>, agent: string, i: nat): Option<string>
    requires i <= |events|
    decreases |events| - i
  {
    if i == |events| then None
    else if events[i].reply.Some? && events[i].agent == agent then events[i].reply
    else FirstReply(events, agent, i + 1)
  }

  lemma {:induction false} FirstReplyAppend(events: seq<Handled>, e: Handled, agent: string, i: nat)
    requires i <= |events|
    ensures FirstReply(events + [e], agent, i)
         == if FirstReply(events, agent, i).Some? then FirstReply(events, agent, i)
            else if e.reply.Some? && e.agent == agent then e.reply else None
    decreases |events| - i
  {
    if i < |events| {
      FirstReplyAppend(events, e, agent, i + 1);
    }
  }

  ghost predicate FreshEvents(events: seq<Handled>) {
    forall i, j :: 0 <= i < j < |events| ==> events[i].id != events[j].id
  }

  /** A row's id is an event's. */
  lemma {:induction false} HistoryIds(events: seq<Handled>, k: nat)
    requires k < |History(events)| && History(events)[k].Store?
    ensures exists i :: 0 <= i < |events| && events[i].id == History(events)[k].id
  {
    var n := |events| - 1;
    var h := History(events[..n]);
    if k < |h| {
      HistoryIds(events[..n], k);
      var i :| 0 <= i < n && events[..n][i].id == h[k].id;
      assert events[i].id == h[k].id;
    } else {
      assert events[n].id == History(events)[k].id;
    }
  }

  lemma NewEventId(events: seq<Handled>, e: Handled)
    requires FreshEvents(events + [e])
    ensures forall r :: r in Table(History(events)) ==> r.id != e.id
  {
    hide Table;
    var h := History(events);
    forall r | r in Table(h) ensures r.id != e.id {
      RowsWereStored(h, r);
      var k :| 0 <= k < |h| && h[k].Store? && h[k].id == r.id;
      HistoryIds(events, k);
      var i :| 0 <= i < |events| && events[i].id == h[k].id;
      assert (events + [e])[i] == events[i] && (events + [e])[|events|] == e;
    }
  }

  lemma HistoryAppend(events: seq<Handled>, e: Handled)
    ensures History(events + [e]) == History(events) + ActionsOf(e)
  {
    assert (events + [e])[..|events|] == events;
  }

  /** Handling one more event appends its row, and then links if a message was stored. */
  lemma HistoryTable(events: seq<Handled>, e: Handled)
    requires FreshEvents(events + [e])
    ensures var rows := Table(History(events)) + [Row(e.id, e.kind, e.agent, e.time, None)];
            Table(History(events + [e])) == if e.reply.Some? then LinkAll(rows, e.agent, e.reply.value) else rows
  {
    var h, a := History(events), StoreOf(e);
    HistoryAppend(events, e);
    NewEventId(events, e);
    hide Table, History, FreshEvents;
    NothingWithout(Table(h), e.id);
    TableAppend(h, a);
    if e.reply.Some? {
      TableAppend(h + [a], Link(e.agent, e.reply.value));
      assert h + ActionsOf(e) == (h + [a]) + [Link(e.agent, e.reply.value)];
    } else {
      assert h + ActionsOf(e) == h + [a];
    }
  }

  /** Each tool call is linked to the first later Stop of its agent that stored a message, or stays unlinked. */
  lemma {:induction false} LinkedToFirstStop(events: seq<Handled>, i: nat)
    requires FreshEvents(events) && OnlyStopsReply(events) && i < |events|
    ensures |Table(History(events))| == |events|
    ensures var e := events[i];
            Table(History(events))[i] == Row(e.id, e.kind, e.agent, e.time,
              if e.kind == PostToolUse then FirstReply(events, e.agent, i) else None)
  {
    var n := |events| - 1;
    var before, last := events[..n], events[n];
    assert events == before + [last];
    if n == 0 {
      NothingHandled();
    } else {
      LinkedToFirstStop(before, if i < n then i else 0);
    }
    LinkedNext(before, last, i);
  }

  lemma LinkedNext(before: seq<Handled>, last: Handled, i: nat)
    requires FreshEvents(before + [last]) && OnlyStopsReply(before + [last]) && i <= |before|
    requires |Table(History(before))| == |before|
    requires i < |before| ==>
      var e := before[i];
      Table(History(before))[i] == Row(e.id, e.kind, e.agent, e.time,
        if e.kind == PostToolUse then FirstReply(before, e.agent, i) else None)
    ensures var events := before + [last];
            var e := events[i];
            && |Table(History(events))| == |events|
            && Table(History(events))[i] == Row(e.id, e.kind, e.agent, e.time,
                 if e.kind == PostToolUse then FirstReply(events, e.agent, i) else None)
  {
    var events := before + [last];
    HistoryTable(before, last);
    assert last in events by { assert events[|before|] == last; }
    hide Table, History, FreshEvents, FirstReply;
    if i < |before| {
      FirstReplyAppend(before, last, before[i].agent, i);
    } else {
      LastReply(events);
    }
  }

  lemma NothingHandled()
    ensures Table(History([])) == []
  {
  }

  lemma LastReply(events: seq<Handled>)
    requires events != []
    ensures var e := events[|events| - 1]; FirstReply(events, e.agent, |events| - 1) == e.reply
  {
  }

  // ---- the store ----

  class EventStore {
    var rows: seq<Row>

    constructor ()
      ensures rows == []
    {
      rows := [];
    }

    /** Inserts the row; one of the same id is replaced. */
    method StoreEvent(id: string, kind: Kind, agent: string, time: int)
      modifies this
      ensures rows == Step(old(rows), Store(id, kind, agent, time))
      ensures Row(id, kind, agent, time, None) in rows
      ensures forall r :: r in rows && r.id != id <==> r in old(rows) && r.id != id
      ensures (forall r :: r in old(rows) ==> r.id != id) ==> rows == old(rows) + [Row(id, kind, agent, time, None)]
    {
      NothingWithout(rows, id);
      var row := Row(id, kind, agent, time, None);
      var kept := Without(rows, id);
      rows := kept + [row];
      assert rows[|kept|] == row;
      assert forall r :: r in rows <==> r in kept || r == row;
    }

    method LinkEventsToMessage(agent: string, message: string) returns (linked: nat)
      modifies this
      ensures rows == Step(old(rows), Link(agent, message))
      ensures linked == OpenCount(old(rows), agent)
      ensures |rows| == |old(rows)|
      ensures forall k :: 0 <= k < |rows| ==>
                var r := old(rows)[k];
                rows[k] == if r.agent == agent && r.kind == PostToolUse && r.message == None then r.(message := Some(message)) else r
      ensures linked == |OpenAt(old(rows), agent)|
    {
      linked := 0;
      var i := 0;
      while i < |rows|
        invariant 0 <= i <= |rows| == |old(rows)|
        invariant forall k :: 0 <= k < |rows| ==> rows[k] == if k < i then LinkRow(old(rows)[k], agent, message) else old(rows)[k]
        invariant linked == OpenCount(old(rows)[..i], agent)
      {
        assert old(rows)[..i + 1][..i] == old(rows)[..i];
        if Open(rows[i], agent) {
          rows := rows[i := rows[i].(message := Some(message))];
          linked := linked + 1;
        }
        i := i + 1;
      }
      assert old(rows)[..i] == old(rows);
      OpenCountIs(old(rows), agent);
    }

    /** The rows linked to a message, by time. */
    method GetEventsByMessage(message: string) returns (events: seq<Row>)
      ensures ByTime(events)
      ensures multiset(events) == multiset(EventsOf(rows, message))
      ensures forall r: Row :: multiset(events)[r] == if r.message == Some(message) then multiset(rows)[r] else 0
    {
      hide InsertByTime;
      events := [];
      var i := 0;
      while i < |rows|
        invariant 0 <= i <= |rows| && ByTime(events)
        invariant multiset(events) == multiset(EventsOf(rows[..i], message))
      {
        hide ByTime, EventsOf;
        EventsOfMore(rows, i, message);
        if rows[i].message == Some(message) {
          InsertedByTime(rows[i], events);
          events := InsertByTime(rows[i], events);
        }
        i := i + 1;
      }
      assert rows[..i] == rows;
      forall r: Row ensures multiset(events)[r] == if r.message == Some(message) then multiset(rows)[r] else 0 {
        EventsOfCount(rows, message, r);
      }
    }
  }

  lemma {:induction false} EventsOfCount(rows: seq<Row>, message: string, r: Row)
    ensures multiset(EventsOf(rows, message))[r] == if r.message == Some(message) then multiset(rows)[r] else 0
  {
    if rows != [] {
      var n := |rows| - 1;
      EventsOfCount(rows[..n], message, r);
      assert rows == rows[..n] + [rows[n]];
    }
  }

  ghost predicate ByTime(events: seq<Row>) {
    forall i, j :: 0 <= i < j < |events| ==> events[i].time <= events[j].time
  }

  /** The row after all that are not later. */
  function InsertByTime(r: Row, events: seq<Row>): seq<Row> {
    if events == [] || r.time < events[0].time then [r] + events else [events[0]] + InsertByTime(r, events[1..])
  }

  lemma {:induction false} InsertedSame(r: Row, events: seq<Row>)
    ensures multiset(InsertByTime(r, events)) == multiset(events) + multiset{r}
  {
    if events != [] {
      assert events == [events[0]] + events[1..];
      InsertedSame(r, events[1..]);
    }
  }

  lemma {:induction false} InsertedByTime(r: Row, events: seq<Row>)
    requires ByTime(events)
    ensures ByTime(InsertByTime(r, events)) && multiset(InsertByTime(r, events)) == multiset(events) + multiset{r}
  {
    InsertedSame(r, events);
    if events != [] && r.time >= events[0].time {
      var rest := InsertByTime(r, events[1..]);
      InsertedByTime(r, events[1..]);
      assert InsertByTime(r, events) == [events[0]] + rest;
      hide InsertByTime;
      forall k | 0 <= k < |rest| ensures events[0].time <= rest[k].time {
        assert rest[k] in multiset(rest);
        assert rest[k] in multiset(events[1..]) + multiset{r};
      }
      EarliestFirst(events[0], rest);
    }
  }

  lemma EarliestFirst(r: Row, rest: seq<Row>)
    requires ByTime(rest) && forall k :: 0 <= k < |rest| ==> r.time <= rest[k].time
    ensures ByTime([r] + rest)
  {
  }

  lemma EventsOfMore(rows: seq<Row>, i: nat, message: string)
    requires i < |rows|
    ensures EventsOf(rows[..i + 1], message)
         == EventsOf(rows[..i], message) + if rows[i].message == Some(message) then [rows[i]] else []
  {
    assert rows[..i + 1][..i] == rows[..i];
  }
}
