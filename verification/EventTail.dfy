/**
 * The run-event stream: a polling tail over an append-only log that a client
 * may lose at any moment and resume with the id it received last
 * (Last-Event-ID, section 9.2 of the WHATWG HTML Living Standard).
 */
module EventTail {
  import opened Common
  import Decimal

  const MAX_EVENT_CURSOR := 0x4000_0000_0000_0000
  const MAX_HEADER := 32

  datatype Event = Event(id: nat, name: string, data: string)

  /** How the source language reads an integer out of a string. */
  type IntReader = string -> Option<int>

  ghost predicate ReadsNumerals(parse: IntReader) {
    forall n: nat :: parse(Decimal.Render(n)) == Some(n)
  }

  /** The log position a Last-Event-ID header names; anything unusable is the start. */
  function EventCursor(header: Option<string>, parse: IntReader): int {
    if header.None? || |header.value| > MAX_HEADER then 0
    else
      match parse(header.value)
      case None => 0
      case Some(cursor) => if 0 <= cursor <= MAX_EVENT_CURSOR then cursor else 0
  }

  lemma PowerTwenty()
    ensures Decimal.Power(20) == 100000000000000000000
  {
    assert Decimal.Power(5) == 100000;
    assert Decimal.Power(10) == 10000000000;
    assert Decimal.Power(15) == 1000000000000000;
  }

  /** A received id resumes exactly where it stood, precisely up to the largest cursor. */
  lemma CursorResumesExactly(n: nat, parse: IntReader)
    requires ReadsNumerals(parse) && n > 0
    ensures EventCursor(Some(Decimal.Render(n)), parse) == n <==> n <= 4611686018427387904
  {
    if n <= MAX_EVENT_CURSOR {
      PowerTwenty();
      Decimal.RenderLength(n, 20);
    }
  }

  // ----- The log -----

  ghost predicate LogOk(log: seq<Event>) {
    && (forall i :: 0 <= i < |log| ==> 0 < log[i].id <= MAX_EVENT_CURSOR)
    && (forall i, j :: 0 <= i < j < |log| ==> log[i].id < log[j].id)
  }

  /** What the store returns: the events above the cursor, in ascending order. */
  function EventsAfter(log: seq<Event>, after: int): seq<Event> {
    if log == [] then []
    else
      EventsAfter(log[..|log| - 1], after) +
      (if log[|log| - 1].id > after then [log[|log| - 1]] else [])
  }

  /** The id the first k events leave a reader at. */
  function IdAt(log: seq<Event>, k: nat): int
    requires k <= |log|
  {
    if k == 0 then 0 else log[k - 1].id
  }

  lemma FrontOfLog(log: seq<Event>, k: nat)
    requires LogOk(log) && k < |log|
    ensures LogOk(log[..|log| - 1]) && IdAt(log[..|log| - 1], k) == IdAt(log, k) < log[|log| - 1].id
  {
  }

  lemma NewestEvent(log: seq<Event>, after: int)
    requires log != [] && after < log[|log| - 1].id
    ensures EventsAfter(log, after) == EventsAfter(log[..|log| - 1], after) + [log[|log| - 1]]
  {
  }

  lemma {:induction false} EventsAfterPosition(log: seq<Event>, k: nat)
    requires LogOk(log) && k <= |log|
    ensures EventsAfter(log, IdAt(log, k)) == log[k..]
    decreases |log|, 1
  {
    if k == |log| {
      NothingAfter(log, IdAt(log, k));
    } else {
      OlderAfterPosition(log, k);
    }
  }

  lemma {:induction false} OlderAfterPosition(log: seq<Event>, k: nat)
    requires LogOk(log) && k < |log|
    ensures EventsAfter(log, IdAt(log, k)) == log[k..]
    decreases |log|, 0
  {
    hide LogOk, EventsAfter, IdAt;
    var front := log[..|log| - 1];
    FrontOfLog(log, k);
    EventsAfterPosition(front, k);
    NewestEvent(log, IdAt(log, k));
    assert log[k..] == front[k..] + [log[|log| - 1]];
  }

  lemma {:induction false} NothingAfter(log: seq<Event>, after: int)
    requires forall i :: 0 <= i < |log| ==> log[i].id <= after
    ensures EventsAfter(log, after) == []
  {
    if log != [] {
      NothingAfter(log[..|log| - 1], after);
    }
  }

  // ----- The stream as a state machine -----

  /**
   * A connection. Open holds the tail's cursor, the events it has fetched and not yet
   * yielded, and those yielded but not yet received. Ending only delivers what was yielded.
   */
  datatype Connection =
    | Closed
    | Open(after: int, batch: seq<Event>, wire: seq<Event>)
    | Ending(wire: seq<Event>)

  datatype State = State(log: seq<Event>, terminal: bool, received: seq<Event>, conn: Connection)

  ghost predicate Init(s: State) {
    s.log == [] && s.received == [] && s.conn == Closed
  }

  /** The run appends an event, changes status, or both in one transaction. */
  ghost predicate RunMoves(s: State, t: State) {
    && (t.log == s.log || exists e :: t.log == s.log + [e])
    && LogOk(t.log)
    && t == s.(log := t.log, terminal := t.terminal)
  }

  function LastEventId(received: seq<Event>): Option<string> {
    if received == [] then None else Some(Decimal.Render(received[|received| - 1].id))
  }

  ghost predicate Connects(s: State, t: State, parse: IntReader) {
    && s.conn == Closed
    && t == s.(conn := Open(EventCursor(LastEventId(s.received), parse), [], []))
  }

  /** One poll: fetch what is above the cursor; an empty fetch on a terminal run ends the stream. */
  ghost predicate Polls(s: State, t: State) {
    && s.conn.Open? && s.conn.batch == []
    && var events := EventsAfter(s.log, s.conn.after);
       if events != [] then t == s.(conn := s.conn.(batch := events))
       else if s.terminal then t == s.(conn := Ending(s.conn.wire))
       else t == s
  }

  ghost predicate Yields(s: State, t: State) {
    && s.conn.Open? && s.conn.batch != []
    && var e := s.conn.batch[0];
       t == s.(conn := Open(e.id, s.conn.batch[1..], s.conn.wire + [e]))
  }

  /** The lifetime runs out or membership is lost, before or between events. */
  ghost predicate Lapses(s: State, t: State) {
    s.conn.Open? && t == s.(conn := Ending(s.conn.wire))
  }

  ghost predicate Receives(s: State, t: State) {
    && !s.conn.Closed? && s.conn.wire != []
    && t == s.(received := s.received + [s.conn.wire[0]], conn := s.conn.(wire := s.conn.wire[1..]))
  }

  /** The connection is gone, with whatever was still on the wire. */
  ghost predicate Drops(s: State, t: State) {
    !s.conn.Closed? && t == s.(conn := Closed)
  }

  ghost predicate Next(s: State, t: State, parse: IntReader) {
    || RunMoves(s, t)
    || Connects(s, t, parse)
    || Polls(s, t)
    || Yields(s, t)
    || Lapses(s, t)
    || Receives(s, t)
    || Drops(s, t)
  }

  /** Received and in-flight events form a gap-free prefix; fetched ones continue it. */
  ghost predicate Inv(s: State) {
    && LogOk(s.log)
    && s.received <= s.log
    && (!s.conn.Closed? ==> s.received + s.conn.wire <= s.log)
    && (s.conn.Open? ==>
          var k := |s.received| + |s.conn.wire|;
          && s.conn.after == IdAt(s.log, k)
          && s.conn.batch <= s.log[k..])
  }

  lemma ConnectKeepsInv(s: State, t: State, parse: IntReader)
    requires Inv(s) && ReadsNumerals(parse) && Connects(s, t, parse)
    ensures Inv(t)
  {
    var k := |s.received|;
    if k > 0 {
      assert s.received[k - 1] == s.log[k - 1];
      CursorResumesExactly(s.log[k - 1].id, parse);
    }
  }

  lemma YieldKeepsInv(s: State, t: State)
    requires Inv(s) && Yields(s, t)
    ensures Inv(t)
  {
    var k := |s.received| + |s.conn.wire|;
    assert s.conn.batch[0] == s.log[k..][0] == s.log[k];
    assert s.received + t.conn.wire == (s.received + s.conn.wire) + [s.log[k]];
    assert s.log[k + 1..] == s.log[k..][1..];
  }

  lemma ReceiveKeepsInv(s: State, t: State)
    requires Inv(s) && Receives(s, t)
    ensures Inv(t)
  {
    assert t.received + t.conn.wire == s.received + s.conn.wire;
    assert t.received <= t.received + t.conn.wire;
  }

  lemma RunMoveKeepsInv(s: State, t: State)
    requires Inv(s) && RunMoves(s, t)
    ensures Inv(t)
  {
    if s.conn.Open? {
      var k := |s.received| + |s.conn.wire|;
      assert s.log <= t.log;
      assert s.log[k..] <= t.log[k..];
    }
  }

  lemma PollKeepsInv(s: State, t: State)
    requires Inv(s) && Polls(s, t)
    ensures Inv(t)
  {
    EventsAfterPosition(s.log, |s.received| + |s.conn.wire|);
  }

  lemma NextKeepsInv(s: State, t: State, parse: IntReader)
    requires Inv(s) && ReadsNumerals(parse) && Next(s, t, parse)
    ensures Inv(t)
  {
    if RunMoves(s, t) {
      RunMoveKeepsInv(s, t);
    } else if Connects(s, t, parse) {
      ConnectKeepsInv(s, t, parse);
    } else if Polls(s, t) {
      PollKeepsInv(s, t);
    } else if Yields(s, t) {
      YieldKeepsInv(s, t);
    } else if Receives(s, t) {
      ReceiveKeepsInv(s, t);
    }
  }

  ghost predicate Run(states: seq<State>, parse: IntReader) {
    && states != [] && Init(states[0])
    && forall i :: 0 <= i < |states| - 1 ==> Next(states[i], states[i + 1], parse)
  }

  lemma {:induction false} RunKeepsInv(states: seq<State>, parse: IntReader, i: nat)
    requires Run(states, parse) && ReadsNumerals(parse) && i < |states|
    ensures Inv(states[i])
  {
    if i > 0 {
      RunKeepsInv(states, parse, i - 1);
      NextKeepsInv(states[i - 1], states[i], parse);
    }
  }

  /**
   * In every state of every run, what the client holds is a prefix of the log: no gap, no
   * duplicate, no reordering, whatever was cut off and resumed.
   */
  lemma ReceivedIsPrefix(states: seq<State>, parse: IntReader, i: nat)
    requires Run(states, parse) && ReadsNumerals(parse) && i < |states|
    ensures states[i].received <= states[i].log
    ensures forall a, b :: 0 <= a < b < |states[i].received| ==> states[i].received[a].id < states[i].received[b].id
  {
    RunKeepsInv(states, parse, i);
  }

  /** A tail that ends by polling has put the whole log on its way to the client. */
  lemma TerminalCloseDeliversAll(states: seq<State>, parse: IntReader, i: nat)
    requires Run(states, parse) && ReadsNumerals(parse) && i + 1 < |states|
    requires Polls(states[i], states[i + 1]) && states[i + 1].conn.Ending?
    ensures states[i].terminal
    ensures states[i + 1].received + states[i + 1].conn.wire == states[i].log
  {
    RunKeepsInv(states, parse, i);
    var s := states[i];
    EventsAfterPosition(s.log, |s.received| + |s.conn.wire|);
  }

  lemma NextGrows(s: State, t: State, parse: IntReader)
    requires Next(s, t, parse)
    ensures s.log <= t.log && s.received <= t.received
  {
    hide LogOk, EventsAfter, EventCursor, LastEventId;
  }

  /** The log itself only grows, so a prefix once received stays one. */
  lemma {:induction false} LogOnlyGrows(states: seq<State>, parse: IntReader, i: nat, j: nat)
    requires Run(states, parse) && i <= j < |states|
    ensures states[i].log <= states[j].log && states[i].received <= states[j].received
    decreases j
  {
    hide Next, Init;
    if i < j {
      LogOnlyGrows(states, parse, i, j - 1);
      NextGrows(states[j - 1], states[j], parse);
    }
  }

  // ----- What is in the log is delivered -----

  /** A step of the stream itself that does something: nothing lapses, nothing is lost, no poll in vain. */
  ghost predicate Delivers(s: State, t: State) {
    (Polls(s, t) && t != s) || Yields(s, t) || Receives(s, t)
  }

  /** Connected, and everything on its way if the stream is ending. */
  ghost predicate OnItsWay(s: State) {
    Inv(s) && !s.conn.Closed? && (s.conn.Ending? ==> s.received + s.conn.wire == s.log)
  }

  /** All is received; the stream of a terminal run has ended, that of a live one may stay open. */
  ghost predicate Delivered(s: State) {
    s.received == s.log && (s.conn == Ending([]) || (!s.terminal && s.conn.Open? && s.conn.batch == s.conn.wire == []))
  }

  /** What a step of the stream leaves alone; only a terminal run's stream is ever ended by it. */
  ghost predicate SameRun(s: State, t: State) {
    t.log == s.log && t.terminal == s.terminal && (s.conn.Open? && t.conn.Ending? ==> s.terminal)
  }

  lemma DeliveryKeeps(s: State, t: State)
    requires OnItsWay(s) && Delivers(s, t)
    ensures OnItsWay(t) && SameRun(s, t)
  {
    if Polls(s, t) {
      PollKeepsInv(s, t);
      FetchesAll(s);
    } else if Yields(s, t) {
      YieldKeepsInv(s, t);
    } else {
      ReceiveKeepsInv(s, t);
      assert t.received + t.conn.wire == s.received + s.conn.wire;
    }
  }

  /** How much of the stream is still to do: unfetched, fetched, sent, and the close. */
  function ToDo(s: State): int {
    match s.conn
    case Closed => 0
    case Open(_, batch, wire) =>
      3 * (|s.log| - |s.received| - |wire| - |batch|) + 2 * |batch| + |wire| + (if s.terminal then 1 else 0)
    case Ending(wire) => |wire|
  }

  lemma ToDoBounded(s: State)
    requires OnItsWay(s)
    ensures ToDo(s) >= 0
    ensures ToDo(s) == 0 ==> Delivered(s)
  {
    if s.conn.Ending? && s.conn.wire == [] { assert s.received + [] == s.received; }
  }

  lemma DeliveryShrinks(s: State, t: State)
    requires OnItsWay(s) && Delivers(s, t)
    ensures ToDo(t) < ToDo(s)
  {
    hide EventsAfter, LogOk;
    if Polls(s, t) { FetchesAll(s); }
  }

  lemma FetchesAll(s: State)
    requires Inv(s) && s.conn.Open?
    ensures EventsAfter(s.log, s.conn.after) == s.log[|s.received| + |s.conn.wire|..]
  {
    EventsAfterPosition(s.log, |s.received| + |s.conn.wire|);
  }

  lemma DeliveryGoesOn(s: State) returns (t: State)
    requires OnItsWay(s) && ToDo(s) > 0
    ensures Delivers(s, t)
  {
    if s.conn.wire != [] {
      t := s.(received := s.received + [s.conn.wire[0]], conn := s.conn.(wire := s.conn.wire[1..]));
      assert Receives(s, t);
    } else if s.conn.batch != [] {
      t := s.(conn := Open(s.conn.batch[0].id, s.conn.batch[1..], s.conn.wire + [s.conn.batch[0]]));
      assert Yields(s, t);
    } else {
      FetchesAll(s);
      var events := EventsAfter(s.log, s.conn.after);
      t := if events != [] then s.(conn := s.conn.(batch := events)) else s.(conn := Ending(s.conn.wire));
      assert Polls(s, t) && t != s;
    }
  }

  ghost predicate Delivery(states: seq<State>) {
    states != [] && forall i :: 0 <= i < |states| - 1 ==> Delivers(states[i], states[i + 1])
  }

  /** The stream has no step left. */
  ghost predicate Stopped(s: State) {
    forall t :: !Delivers(s, t)
  }

  /**
   * However polls, yields and receipts fall they are bounded, and where they stop all is received:
   * a terminal run's stream has then ended, and a live run's, if it was open, is still open.
   */
  lemma {:induction false} DeliveryComplete(states: seq<State>)
    requires Delivery(states) && OnItsWay(states[0])
    ensures var s, t := states[0], states[|states| - 1];
            && OnItsWay(t) && SameRun(s, t) && |states| - 1 <= ToDo(s) - ToDo(t)
            && (Stopped(t) ==> Delivered(t))
  {
    hide Delivers, OnItsWay, ToDo, Delivered;
    var n := |states| - 1;
    if n > 0 {
      var front := states[..n];
      assert Delivery(front) && front[|front| - 1] == states[n - 1];
      DeliveryComplete(front);
      DeliveryKeeps(states[n - 1], states[n]);
      DeliveryShrinks(states[n - 1], states[n]);
      ConnectionStays(states[0], states[n - 1], states[n]);
    }
    ToDoBounded(states[n]);
    if ToDo(states[n]) > 0 {
      var t := DeliveryGoesOn(states[n]);
    }
  }

  lemma ConnectionStays(s: State, t: State, u: State)
    requires SameRun(s, t) && SameRun(t, u) && OnItsWay(t)
    ensures SameRun(s, u)
  {
  }

  /** From any connected state what is in the log can be received by steps of the stream alone. */
  lemma {:induction false} LogDelivered(s: State) returns (states: seq<State>)
    requires OnItsWay(s)
    ensures Delivery(states) && states[0] == s && Delivered(states[|states| - 1])
    decreases (if ToDo(s) < 0 then 0 else ToDo(s))
  {
    hide Delivers, OnItsWay, ToDo, Delivered;
    ToDoBounded(s);
    if ToDo(s) == 0 {
      states := [s];
    } else {
      var t := DeliveryGoesOn(s);
      DeliveryKeeps(s, t);
      DeliveryShrinks(s, t);
      ToDoBounded(t);
      var rest := LogDelivered(t);
      states := [s] + rest;
      forall i | 0 <= i < |states| - 1 ensures Delivers(states[i], states[i + 1]) {
        if i > 0 { assert states[i] == rest[i - 1] && states[i + 1] == rest[i]; }
      }
    }
  }
}
