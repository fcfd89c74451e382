/** The bounded event log of an agent session and the stream a client sees: replay, then live. */
module AgentEvents {
  import opened Common

  datatype Kind =
    | SessionCreated | TurnStarted | TextDelta | ToolCall | ToolCallCancelled
    | ContextCompacted | Usage | Final | Error

  datatype Event = Event(id: nat, kind: Kind)
  datatype Log = Log(events: seq<Event>, lastId: nat)

  const MAX_EVENTS := 2000

  function Append(log: Log, kind: Kind): Log {
    var events := log.events + [Event(log.lastId + 1, kind)];
    Log(if |events| > MAX_EVENTS then events[|events| - MAX_EVENTS..] else events, log.lastId + 1)
  }

  /** The retained events are the last min(2000, lastId) ones, with contiguous ids. */
  ghost predicate Contiguous(log: Log) {
    && |log.events| == Min(MAX_EVENTS, log.lastId)
    && forall i | 0 <= i < |log.events| :: log.events[i].id == log.lastId - |log.events| + 1 + i
  }

  lemma AppendKeepsContiguous(log: Log, kind: Kind)
    requires Contiguous(log)
    ensures Contiguous(Append(log, kind))
      && Append(log, kind).events[|Append(log, kind).events| - 1] == Event(log.lastId + 1, kind)
  {
  }

  /** What the replay of a connection sends. */
  function EventsAfter(events: seq<Event>, cursor: nat): seq<Event> {
    if events == [] then []
    else
      var n := |events| - 1;
      EventsAfter(events[..n], cursor) + (if events[n].id > cursor then [events[n]] else [])
  }

  function AppendAll(log: Log, kinds: seq<Kind>): Log {
    if kinds == [] then log else Append(AppendAll(log, kinds[..|kinds| - 1]), kinds[|kinds| - 1])
  }

  /** What a subscriber is sent while these events are appended. */
  function Live(log: Log, kinds: seq<Kind>): seq<Event> {
    if kinds == [] then []
    else
      var n := |kinds| - 1;
      Live(log, kinds[..n]) + [Event(AppendAll(log, kinds[..n]).lastId + 1, kinds[n])]
  }

  /** The ids from + 1, ..., to, each once and in order. */
  ghost predicate Covers(events: seq<Event>, from: nat, to: nat) {
    |events| == to - from && forall i | 0 <= i < |events| :: events[i].id == from + 1 + i
  }

  lemma {:induction false} ReplayCovers(events: seq<Event>, from: nat, cursor: nat)
    requires Covers(events, from, from + |events|) && from <= cursor <= from + |events|
    ensures Covers(EventsAfter(events, cursor), cursor, from + |events|)
  {
    if events != [] {
      var n := |events| - 1;
      if cursor <= from + n {
        ReplayCovers(events[..n], from, cursor);
      } else {
        ReplayNothing(events, cursor);
      }
    }
  }

  lemma {:induction false} ReplayNothing(events: seq<Event>, cursor: nat)
    requires forall i | 0 <= i < |events| :: events[i].id <= cursor
    ensures EventsAfter(events, cursor) == []
  {
    if events != [] { ReplayNothing(events[..|events| - 1], cursor); }
  }

  lemma {:induction false} LiveCovers(log: Log, kinds: seq<Kind>)
    ensures AppendAll(log, kinds).lastId == log.lastId + |kinds|
    ensures Covers(Live(log, kinds), log.lastId, log.lastId + |kinds|)
  {
    if kinds != [] { LiveCovers(log, kinds[..|kinds| - 1]); }
  }

  lemma StreamCovers(log: Log, cursor: nat, kinds: seq<Kind>)
    requires Contiguous(log) && log.lastId - |log.events| <= cursor <= log.lastId
    ensures Covers(EventsAfter(log.events, cursor) + Live(log, kinds), cursor, log.lastId + |kinds|)
  {
    LiveCovers(log, kinds);
    ReplayCovers(log.events, log.lastId - |log.events|, cursor);
  }

  /** A client connects with a cursor and stays while at least one more event is appended: it gets
      every later event exactly once and in order if and only if its cursor lies between the oldest
      retained event and the newest. */
  lemma StreamIsExactIff(log: Log, cursor: nat, kinds: seq<Kind>)
    requires Contiguous(log) && |kinds| >= 1
    ensures Covers(EventsAfter(log.events, cursor) + Live(log, kinds), cursor, log.lastId + |kinds|)
      <==> log.lastId - |log.events| <= cursor <= log.lastId
  {
    var from := log.lastId - |log.events|;
    var sent := EventsAfter(log.events, cursor) + Live(log, kinds);
    LiveCovers(log, kinds);
    if from <= cursor <= log.lastId {
      StreamCovers(log, cursor, kinds);
    } else if cursor < from {
      ReplayAll(log.events, cursor);
      assert |sent| == |log.events| + |kinds|;
    } else {
      ReplayNothing(log.events, cursor);
      assert |sent| == |kinds|;
    }
  }

  lemma {:induction false} ReplayAll(events: seq<Event>, cursor: nat)
    requires forall i | 0 <= i < |events| :: events[i].id > cursor
    ensures EventsAfter(events, cursor) == events
  {
    if events != [] {
      ReplayAll(events[..|events| - 1], cursor);
      assert events == events[..|events| - 1] + [events[|events| - 1]];
    }
  }

  // ---------- Clients coming and going ----------

  /** The log with its listeners; what each listener was sent stands for its connection. */
  datatype Hub = Hub(log: Log, sent: map<Id, seq<Event>>)

  datatype Request = DoAppend(kind: Kind) | DoConnect(client: Id, after: nat) | DoDisconnect(client: Id)

  function Step(h: Hub, r: Request): Hub {
    match r
    case DoAppend(kind) => Hub(Append(h.log, kind), map c | c in h.sent :: h.sent[c] + [Event(h.log.lastId + 1, kind)])
    case DoConnect(client, after) => h.(sent := h.sent[client := EventsAfter(h.log.events, after)])
    case DoDisconnect(client) => h.(sent := h.sent - {client})
  }

  function After(h: Hub, run: seq<Request>, n: nat): Hub
    requires n <= |run|
  {
    if n == 0 then h else Step(After(h, run, n - 1), run[n - 1])
  }

  /** Neither connects nor disconnects this client among the requests from i up to j. */
  ghost predicate Undisturbed(run: seq<Request>, i: nat, j: nat, client: Id)
    requires i <= j <= |run|
  {
    forall k | i <= k < j :: run[k].DoAppend? || run[k].client != client
  }

  lemma LogStep(h: Hub, r: Request)
    requires Contiguous(h.log)
    ensures Contiguous(Step(h, r).log) && Step(h, r).log.lastId == h.log.lastId + if r.DoAppend? then 1 else 0
  {
    if r.DoAppend? { AppendKeepsContiguous(h.log, r.kind); }
  }

  lemma {:induction false} LogAlways(h: Hub, run: seq<Request>, n: nat)
    requires Contiguous(h.log) && n <= |run|
    ensures Contiguous(After(h, run, n).log)
  {
    if n > 0 {
      LogAlways(h, run, n - 1);
      LogStep(After(h, run, n - 1), run[n - 1]);
    }
  }

  lemma {:induction false} AwayForGood(h: Hub, run: seq<Request>, i: nat, j: nat, client: Id)
    requires i <= j <= |run| && client !in After(h, run, i).sent && Undisturbed(run, i, j, client)
    ensures client !in After(h, run, j).sent
    decreases j
  {
    if i < j { AwayForGood(h, run, i, j - 1, client); }
  }

  /** Once disconnected a client is sent nothing, whatever is appended and whoever else comes and goes,
      until it connects again. */
  lemma DisconnectedHearsNothing(h: Hub, run: seq<Request>, i: nat, j: nat, client: Id)
    requires i < j <= |run| && run[i] == DoDisconnect(client) && Undisturbed(run, i + 1, j, client)
    ensures client !in After(h, run, j).sent
  {
    AwayForGood(h, run, i + 1, j, client);
  }

  lemma CoversOneMore(events: seq<Event>, from: nat, to: nat, kind: Kind)
    requires from <= to && Covers(events, from, to)
    ensures Covers(events + [Event(to + 1, kind)], from, to + 1)
  {
  }

  lemma {:induction false} StillCovered(h: Hub, run: seq<Request>, i: nat, j: nat, client: Id, cursor: nat)
    requires Contiguous(h.log) && i <= j <= |run| && Undisturbed(run, i, j, client)
    requires cursor <= After(h, run, i).log.lastId && client in After(h, run, i).sent
    requires Covers(After(h, run, i).sent[client], cursor, After(h, run, i).log.lastId)
    ensures cursor <= After(h, run, j).log.lastId && client in After(h, run, j).sent
    ensures Covers(After(h, run, j).sent[client], cursor, After(h, run, j).log.lastId)
    decreases j
  {
    if i < j {
      StillCovered(h, run, i, j - 1, client, cursor);
      var now := After(h, run, j - 1);
      LogAlways(h, run, j - 1);
      LogStep(now, run[j - 1]);
      if run[j - 1].DoAppend? { CoversOneMore(now.sent[client], cursor, now.log.lastId, run[j - 1].kind); }
    }
  }

  /** A client that connects with a cursor the log covers has been sent, at any later time, exactly the
      events after its cursor, once and in order, whoever else comes and goes. */
  lemma ConnectedHearsAll(h: Hub, run: seq<Request>, i: nat, j: nat, client: Id, cursor: nat)
    requires Contiguous(h.log) && i < j <= |run| && run[i] == DoConnect(client, cursor)
    requires Undisturbed(run, i + 1, j, client)
    requires var log := After(h, run, i).log; log.lastId - |log.events| <= cursor <= log.lastId
    ensures client in After(h, run, j).sent
    ensures Covers(After(h, run, j).sent[client], cursor, After(h, run, j).log.lastId)
  {
    var log := After(h, run, i).log;
    LogAlways(h, run, i);
    ReplayCovers(log.events, log.lastId - |log.events|, cursor);
    assert After(h, run, i + 1).sent[client] == EventsAfter(log.events, cursor);
    StillCovered(h, run, i + 1, j, client, cursor);
  }

  // ---------- The history behind the log ----------

  /** The kinds appended by the first n requests. */
  function Kinds(run: seq<Request>, n: nat): seq<Kind>
    requires n <= |run|
  {
    if n == 0 then [] else Kinds(run, n - 1) + if run[n - 1].DoAppend? then [run[n - 1].kind] else []
  }

  /** All events there ever were, numbered from one. */
  function History(kinds: seq<Kind>): seq<Event> { seq(|kinds|, i requires 0 <= i < |kinds| => Event(i + 1, kinds[i])) }

  /** The log holds the last 2000 events of the history. */
  ghost predicate Retains(log: Log, kinds: seq<Kind>) {
    log.lastId == |kinds| && log.events == LastOf(History(kinds), 2000)
  }

  lemma AppendRetains(log: Log, kinds: seq<Kind>, kind: Kind)
    requires Retains(log, kinds)
    ensures Retains(Append(log, kind), kinds + [kind])
  {
    assert History(kinds + [kind]) == History(kinds) + [Event(|kinds| + 1, kind)];
  }

  const EMPTY_HUB := Hub(Log([], 0), map[])

  lemma {:induction false} HistoryRetained(run: seq<Request>, n: nat)
    requires n <= |run|
    ensures Retains(After(EMPTY_HUB, run, n).log, Kinds(run, n))
  {
    if n > 0 {
      HistoryRetained(run, n - 1);
      if run[n - 1].DoAppend? {
        AppendRetains(After(EMPTY_HUB, run, n - 1).log, Kinds(run, n - 1), run[n - 1].kind);
      } else {
        assert Kinds(run, n) == Kinds(run, n - 1);
      }
    } else {
      assert History([]) == [];
    }
  }

  /** What a replay sends is what the log holds past the cursor. */
  lemma {:induction false} ReplayIsTail(kinds: seq<Kind>, from: nat, cursor: nat)
    requires from <= cursor <= |kinds|
    ensures EventsAfter(History(kinds)[from..], cursor) == History(kinds)[cursor..]
    decreases |kinds|
  {
    var events := History(kinds)[from..];
    if cursor == |kinds| {
      ReplayNothing(events, cursor);
    } else {
      var n := |kinds| - 1;
      var front := kinds[..n];
      assert History(kinds) == History(front) + [Event(n + 1, kinds[n])];
      assert events[..|events| - 1] == History(front)[from..];
      ReplayIsTail(front, from, cursor);
    }
  }

  /** A connected client has been sent the events of the history past its cursor, kinds included. */
  ghost predicate Heard(h: Hub, client: Id, kinds: seq<Kind>, cursor: nat) {
    cursor <= |kinds| && client in h.sent && h.sent[client] == History(kinds)[cursor..]
  }

  lemma HeardStep(h: Hub, r: Request, client: Id, kinds: seq<Kind>, cursor: nat)
    requires Heard(h, client, kinds, cursor) && h.log.lastId == |kinds| && (r.DoAppend? || r.client != client)
    ensures Heard(Step(h, r), client, if r.DoAppend? then kinds + [r.kind] else kinds, cursor)
  {
    if r.DoAppend? { assert History(kinds + [r.kind]) == History(kinds) + [Event(|kinds| + 1, r.kind)]; }
  }

  /** A client that connected with a covered cursor has been sent exactly the history past its cursor: the
      same events that the log was given, in order, whoever else comes and goes. */
  lemma {:induction false} StreamIsHistory(run: seq<Request>, i: nat, j: nat, client: Id, cursor: nat)
    requires i < j <= |run| && run[i] == DoConnect(client, cursor) && Undisturbed(run, i + 1, j, client)
    requires var log := After(EMPTY_HUB, run, i).log; log.lastId - |log.events| <= cursor <= log.lastId
    ensures Heard(After(EMPTY_HUB, run, j), client, Kinds(run, j), cursor)
    decreases j
  {
    HistoryRetained(run, j - 1);
    if i + 1 == j {
      var kinds := Kinds(run, i);
      var from := |kinds| - |LastOf(History(kinds), 2000)|;
      assert LastOf(History(kinds), 2000) == History(kinds)[from..];
      ReplayIsTail(kinds, from, cursor);
      assert Kinds(run, j) == kinds;
    } else {
      StreamIsHistory(run, i, j - 1, client, cursor);
      HeardStep(After(EMPTY_HUB, run, j - 1), run[j - 1], client, Kinds(run, j - 1), cursor);
      if !run[j - 1].DoAppend? { assert Kinds(run, j) == Kinds(run, j - 1); }
    }
  }

  class EventLog {
    var events: seq<Event>
    var lastId: nat
    var sent: map<Id, seq<Event>>

    ghost function Value(): Log
      reads this
    {
      Log(events, lastId)
    }

    ghost function State(): Hub
      reads this
    {
      Hub(Value(), sent)
    }

    constructor ()
      ensures State() == Hub(Log([], 0), map[]) && Contiguous(Value())
    {
      events, lastId, sent := [], 0, map[];
    }

    method AppendEvent(kind: Kind)
      requires Contiguous(Value())
      modifies this
      ensures State() == Step(old(State()), DoAppend(kind)) && Contiguous(Value())
    {
      lastId := lastId + 1;
      var event := Event(lastId, kind);
      events := events + [event];
      if |events| > MAX_EVENTS { events := events[|events| - MAX_EVENTS..]; }
      AppendKeepsContiguous(old(Value()), kind);
      assert Value() == Append(old(Value()), kind);
      Notify(event);
    }

    method Notify(event: Event)
      modifies this`sent
      ensures sent == map c | c in old(sent) :: old(sent)[c] + [event]
    {
      var todo := sent.Keys;
      while todo != {}
        invariant todo <= old(sent).Keys
        invariant sent == map c | c in old(sent) :: if c in todo then old(sent)[c] else old(sent)[c] + [event]
        decreases todo
      {
        var c :| c in todo;
        sent := sent[c := sent[c] + [event]];
        todo := todo - {c};
      }
    }

    /** The events route: replay what the log retains past the cursor, then register. */
    method Connect(client: Id, after: nat)
      modifies this`sent
      ensures State() == Step(old(State()), DoConnect(client, after))
    {
      var replayed := [];
      for i := 0 to |events|
        invariant replayed == EventsAfter(events[..i], after)
      {
        assert events[..i + 1][..i] == events[..i];
        if events[i].id > after { replayed := replayed + [events[i]]; }
      }
      assert events[..|events|] == events;
      sent := sent[client := replayed];
    }

    method Disconnect(client: Id)
      modifies this`sent
      ensures State() == Step(old(State()), DoDisconnect(client))
    {
      sent := sent - {client};
    }
  }
}
