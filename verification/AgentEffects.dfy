/** What each request does to an agent session, as its client sees it: what becomes pending, what is
    recorded, what is announced, and how the rounds are spent. */
module AgentEffects {
  import opened Common
  import opened AgentConversation
  import opened AgentMachine
  import opened AgentRuns
  import Events = AgentEvents

  // ---------- Replies ----------

  /** A reply with a tool call makes that call pending and waits for it. */
  lemma CallBecomesPending(s: S, call: Call, usage: bool, breaks: bool)
    requires s.control.advancing == InFlight
    ensures var t := Step(s, Reply(Calls(call), usage, breaks)).0;
      t.control.pending == Some(call) && t.control.status == WaitingTool && t.control.advancing == Idle
        && t.conv == s.conv
  {
  }

  /** Its result is then recorded under the id, name and arguments the reply asked for. */
  lemma CallIsAnswered(s: S, call: Call, item: Item, usage: bool, b: bool, c: bool)
    requires s.control.advancing == InFlight && item.callId == call.callId != NoId && call.callId !in s.conv.completed
    ensures var entry := Tool(call.callId, call.name, call.args, item.ok, item.result);
      var t := Step(Step(s, Reply(Calls(call), usage, b)).0, Submit([item], c)).0;
      && t.conv.history == s.conv.history + [entry] && t.control.pending.None?
      && t.conv.completed == s.conv.completed[call.callId := entry]
  {
    var waiting := Step(s, Reply(Calls(call), usage, b)).0;
    CallBecomesPending(s, call, usage, b);
    AnsweredIff(waiting, item, c);
    assert [item][1..] == [];
    assert SubmitAll(Accept(waiting, item), []) == Batch(Accept(waiting, item), 0, false, []);
  }

  /** An answer completes the session, a failure fails it; neither records anything or calls again. */
  lemma ReplyEnds(s: S, usage: bool, breaks: bool)
    requires s.control.advancing == InFlight
    ensures Step(s, Reply(Answers, usage, breaks)).0 ==
      s.(control := s.control.(status := Completed, advancing := Idle))
    ensures Step(s, Reply(Fails, usage, breaks)).0 == s.(control := s.control.(status := Failed, advancing := Idle))
    ensures Step(s, Reply(Answers, usage, breaks)).1.calls == Step(s, Reply(Fails, usage, breaks)).1.calls == 0
  {
  }

  /** A reply that is no action is recorded with its error. */
  lemma MalformedIsRecorded(s: S, error: string, raw: string, usage: bool, breaks: bool)
    requires s.control.advancing == InFlight
    ensures Step(s, Reply(Malformed(error, raw), usage, breaks)).0.conv.history == s.conv.history + [Fault(error, raw)]
  {
  }

  /** Without a call in flight there is nothing to reply to, and nothing to stream. */
  lemma NobodyListens(s: S, outcome: Outcome, usage: bool, breaks: bool)
    requires s.control.advancing != InFlight
    ensures Step(s, Reply(outcome, usage, breaks)) == (s, Done([])) && Step(s, Chunk) == (s, Done([]))
  {
  }

  /** A reply throws exactly if the parser does; nothing but the promise changes then. */
  lemma ReplyThrowsIff(s: S, outcome: Outcome, usage: bool, breaks: bool)
    ensures Step(s, Reply(outcome, usage, breaks)).1.threw <==> s.control.advancing == InFlight && outcome == Breaks
    ensures s.control.advancing == InFlight && outcome == Breaks ==>
      Step(s, Reply(outcome, usage, breaks)).0 == s.(control := s.control.(advancing := Idle))
  {
  }

  /** A new session is idle and empty, and its first turn calls the brain. */
  lemma FreshIs(requested: Setting, fallback: Setting)
    ensures var s := Fresh(requested, fallback);
      && s.control.status == Created && s.control.round == 0 && s.control.pending.None?
      && s.conv == Conversation([], [], "", map[])
      && Step(s, Start(true, true, false)).1.calls == 1
  {
  }

  // ---------- Turns ----------

  /** A turn starts exactly with content that checks out, in a session that is not cancelled, waits for
      no tool and is not at work; otherwise it throws and changes nothing. */
  lemma TurnStartsIff(s: S, hasContent: bool, promptValid: bool, breaks: bool)
    ensures var (t, out) := Step(s, Start(hasContent, promptValid, breaks));
      && (!out.threw <==> hasContent && promptValid && s.control.pending.None?
                          && s.control.status !in {Running, Thinking, WaitingTool, Cancelled})
      && (out.threw ==> t == s && out.events == [] && out.calls == 0)
      && t.conv == s.conv && t.control.pending == s.control.pending && t.control.aborted == s.control.aborted
  {
  }

  /** The request brings an idle session to its loop, or the loop round after a reply that was no action. */
  ghost predicate EntersLoop(s: S, r: Request) {
    || (s.control.advancing == Idle && ReachesLoop(s, r))
    || (s.control.advancing == InFlight && r.Reply? && r.outcome.Malformed?)
  }

  /** What the loop does: nothing after a cancel; ends at the limit; else spends a round on a call, which
      is then in flight unless it broke. */
  lemma LoopOutcome(s: S, r: Request)
    requires Coherent(s.control) && Sticky(s.control) && EntersLoop(s, r)
    ensures s.control.aborted ==> Spends(s, r, 0, 0)
    ensures !s.control.aborted && LimitReached(s.control) ==>
      Spends(s, r, 0, 0) && Step(s, r).0.control.status == ReachedMax
    ensures !s.control.aborted && !LimitReached(s.control) && r.breaks ==>
      Spends(s, r, 0, 1) && Step(s, r).0.control.status == Failed
    ensures !s.control.aborted && !LimitReached(s.control) && !r.breaks ==>
      Spends(s, r, 1, 0) && Step(s, r).0.control.status == Thinking && Step(s, r).0.control.advancing == InFlight
  {
    if r.Submit? { SubmitControl(s, r.items); }
  }

  ghost predicate Spends(s: S, r: Request, calls: nat, broken: nat) {
    var (t, out) := Step(s, r);
    out.calls == calls && out.broken == broken && t.control.round == s.control.round + calls + broken
  }

  /** The limit is reached exactly when as many rounds are spent as it says. */
  lemma LimitReachedIff(c: Control, n: nat)
    requires c.limit == Rounds(n as real)
    ensures LimitReached(c) <==> c.round >= n
  {
  }

  /** After n replies that were no actions, of a session that had this many rounds left. */
  ghost predicate Used(c: Control, n: nat, left: nat, limit: nat) {
    && c.limit == Rounds(limit as real) && left <= limit && c.round == limit - left + Min(n, left)
    && (if n <= left then Thinks(c) else c.advancing == Idle && c.status == ReachedMax)
  }

  /** A thinking session that gets only replies that are no actions uses up exactly its rounds. */
  lemma {:induction false} RoundsAreUsed(s: S, run: seq<Request>, n: nat, limit: nat)
    requires Thinks(s.control) && s.control.limit == Rounds(limit as real) && s.control.round <= limit
    requires n <= |run| && AllMalformed(run, n)
    ensures CallsUpTo(s, run, n) == Min(n, limit - s.control.round)
    ensures Used(After(s, run, n).control, n, limit - s.control.round, limit)
  {
    if n > 0 {
      RoundsAreUsed(s, run, n - 1, limit);
      RoundUsed(After(s, run, n - 1), run[n - 1], n, limit - s.control.round, limit);
    }
  }

  lemma RoundUsed(s: S, r: Request, n: nat, left: nat, limit: nat)
    requires RepliesMalformed(r) && n > 0 && Used(s.control, n - 1, left, limit)
    ensures Step(s, r).1.calls == (if n <= left then 1 else 0) && Used(Step(s, r).0.control, n, left, limit)
  {
    LimitReachedIff(s.control, limit);
  }

  /** A number asked for becomes the limit, held between 1 and 200; without one the limit stays; a new
      session falls back to the server's setting, held likewise, and else to twelve rounds. */
  lemma LimitIs(s: S, n: real, fallback: Setting)
    ensures var held := Rounds(if n < 1.0 then 1.0 else if n > 200.0 then 200.0 else n);
      && (n != 0.0 ==> Step(s, Configure(Number(n), fallback)).0.control.limit == held)
      && (n != 0.0 ==> Fresh(Number(n), fallback).control.limit == held)
      && (n != 0.0 ==> Fresh(Absent, Number(n)).control.limit == held)
      && Fresh(Absent, Absent).control.limit == Rounds(12.0)
      && (Numeric(s.control.limit) ==> Step(s, Configure(Absent, fallback)).0.control.limit == s.control.limit)
      && Step(s, Configure(Absent, fallback)).0.conv == s.conv
  {
  }

  // ---------- Results ----------

  /** What a single result does: it throws without an id or for a call that is not pending, is skipped if
      its call is completed, and is accepted otherwise. */
  lemma OneResult(s: S, item: Item)
    ensures var b := SubmitAll(s, [item]);
      var pending := s.control.pending.Some? && s.control.pending.value.callId == item.callId;
      && (b.threw <==> item.callId == NoId || (item.callId !in s.conv.completed && !pending))
      && (b.accepted == 1 <==> item.callId != NoId && item.callId !in s.conv.completed && pending)
      && (b.accepted == 0 ==> b.s == s && b.events == [])
      && (b.accepted == 1 ==> b.s.control == s.control.(pending := None))
  {
    assert [item][1..] == [];
    if Expected(s, item) {
      assert SubmitAll(Accept(s, item), []) == Batch(Accept(s, item), 0, false, []);
    }
  }

  /** A batch is its results one after the other, up to the first that throws. */
  lemma {:induction false} BatchIsInOrder(s: S, a: seq<Item>, b: seq<Item>)
    ensures var x := SubmitAll(s, a);
      SubmitAll(s, a + b) ==
        if x.threw then x
        else var y := SubmitAll(x.s, b); Batch(y.s, x.accepted + y.accepted, y.threw, x.events + y.events)
    decreases |a|
  {
    if a == [] {
      assert a + b == b;
      assert [] + SubmitAll(s, b).events == SubmitAll(s, b).events;
    } else {
      var item := a[0];
      assert (a + b)[0] == item && (a + b)[1..] == a[1..] + b;
      if item.callId == NoId {
      } else if item.callId in s.conv.completed {
        BatchIsInOrder(s, a[1..], b);
      } else if Expected(s, item) {
        var t := Accept(s, item);
        BatchIsInOrder(t, a[1..], b);
        var x := SubmitAll(t, a[1..]);
        EventsJoin(Compaction(Push(s.conv, EntryFor(s.control.pending.value, item))), x.events,
          SubmitAll(x.s, b).events);
      }
    }
  }

  lemma EventsJoin(a: seq<Events.Kind>, b: seq<Events.Kind>, c: seq<Events.Kind>)
    ensures a + b + c == a + (b + c)
  {
  }

  /** A submission throws exactly if its batch does, and then keeps what the batch accepted before. */
  lemma SubmitThrowsIff(s: S, items: seq<Item>, breaks: bool)
    ensures Step(s, Submit(items, breaks)).1.threw <==> SubmitAll(s, items).threw
    ensures SubmitAll(s, items).threw ==> Step(s, Submit(items, breaks)).0 == SubmitAll(s, items).s
  {
  }

  /** A cancel sets the flag, withdraws the pending call and touches nothing else. */
  lemma CancelIs(s: S)
    ensures Step(s, Cancel).0 == s.(control := s.control.(aborted := true, pending := None, status := Cancelled))
    ensures Step(s, Cancel).1.calls == Step(s, Cancel).1.broken == 0 && !Step(s, Cancel).1.threw
  {
  }

  // ---------- Announcements ----------

  /** A tool call is announced exactly when one becomes pending, and withdrawn exactly when a cancel finds
      one pending. */
  lemma ToolCallsAnnounced(s: S, r: Request)
    ensures Events.ToolCall in Step(s, r).1.events <==> s.control.advancing == InFlight && r.Reply? && r.outcome.Calls?
    ensures Events.ToolCallCancelled in Step(s, r).1.events <==> r == Cancel && s.control.pending.Some?
  {
    if r.Submit? { SubmitAnnounces(s, r); } else { OthersAnnounceCalls(s, r); }
  }

  lemma InJoined(a: seq<Events.Kind>, b: seq<Events.Kind>, c: seq<Events.Kind>)
    ensures forall kind :: kind in a + b + c <==> kind in a || kind in b || kind in c
  {
  }

  /** A reply to a call in flight announces usage, what it came to, and what the loop then comes to. */
  lemma ReplyAnnounces(s: S, outcome: Outcome, usage: bool, breaks: bool)
    requires s.control.advancing == InFlight
    ensures forall kind :: kind in Step(s, Reply(outcome, usage, breaks)).1.events <==>
      || (kind == Events.Usage && usage && outcome != Fails)
      || (kind == Events.ToolCall && outcome.Calls?)
      || (kind == Events.Final && (outcome == Answers || Resume(s.control, outcome, breaks).1 == OutOfRounds))
      || (kind == Events.Error && (outcome == Fails || Resume(s.control, outcome, breaks).1 == CallBroke))
      || (kind == Events.ContextCompacted && outcome.Malformed?
        && TooLong(Push(s.conv, Fault(outcome.error, outcome.raw))))
  {
    var used := if usage && outcome != Fails then [Events.Usage] else [];
    var i := Resume(s.control, outcome, breaks).1;
    if outcome.Malformed? {
      InJoined(used, Compaction(Push(s.conv, Fault(outcome.error, outcome.raw))), LoopEvents(i));
    } else {
      InJoined(used, ReplyEvents(outcome), []);
      assert used + ReplyEvents(outcome) + [] == used + ReplyEvents(outcome);
    }
  }

  lemma OthersAnnounceCalls(s: S, r: Request)
    requires !r.Submit?
    ensures Events.ToolCall in Step(s, r).1.events <==> s.control.advancing == InFlight && r.Reply? && r.outcome.Calls?
    ensures Events.ToolCallCancelled in Step(s, r).1.events <==> r == Cancel && s.control.pending.Some?
  {
    if r.Reply? && s.control.advancing == InFlight { ReplyAnnounces(s, r.outcome, r.usage, r.breaks); }
  }

  /** A submission announces compactions, and what the loop it enters comes to. */
  lemma SubmitAnnounces(s: S, r: Request)
    requires r.Submit?
    ensures forall kind | kind in Step(s, r).1.events :: kind in {Events.ContextCompacted, Events.Final, Events.Error}
    ensures Events.Final in Step(s, r).1.events <==> Entered(s, r).1 == OutOfRounds
    ensures Events.Error in Step(s, r).1.events <==> Entered(s, r).1 == CallBroke
    ensures Step(s, r).1.broken == LoopBroken(Entered(s, r).1)
  {
    BatchEvents(s, r.items);
  }

  /** The loop that a submission enters, if its batch went through. */
  ghost function Entered(s: S, r: Request): (Control, Iteration)
    requires r.Submit?
  {
    var b := SubmitAll(s, r.items);
    if b.threw || b.accepted == 0 then (b.s.control, Returned) else Enter(b.s.control.(status := Running), r.breaks)
  }

  lemma EnteredOutOfRoundsIff(s: S, r: Request)
    requires Coherent(s.control) && Sticky(s.control) && r.Submit?
    ensures Entered(s, r).1 == OutOfRounds <==> EntersLoop(s, r) && !s.control.aborted && LimitReached(s.control)
  {
    SubmitControl(s, r.items);
  }

  /** A batch by itself announces compactions only. */
  lemma {:induction false} BatchEvents(s: S, items: seq<Item>)
    ensures forall kind | kind in SubmitAll(s, items).events :: kind == Events.ContextCompacted
    decreases |items|
  {
    if items != [] {
      var item := items[0];
      if item.callId != NoId && item.callId in s.conv.completed {
        BatchEvents(s, items[1..]);
      } else if item.callId != NoId && Expected(s, item) {
        BatchEvents(Accept(s, item), items[1..]);
      }
    }
  }

  /** An end is announced exactly when an answer completes the session or its rounds run out; a start with
      every turn that starts; an error with a failed or broken call and with a cancel. */
  lemma EndsAnnounced(s: S, r: Request)
    requires Coherent(s.control) && Sticky(s.control)
    ensures EndsAre(s, r)
  {
    if r.Submit? {
      SubmitAnnounces(s, r);
      EnteredOutOfRoundsIff(s, r);
    } else {
      OthersAnnounceEnds(s, r);
    }
  }

  ghost predicate EndsAre(s: S, r: Request) {
    var (t, out) := Step(s, r);
    && (Events.Final in out.events <==>
          (s.control.advancing == InFlight && r.Reply? && r.outcome == Answers)
          || (EntersLoop(s, r) && !s.control.aborted && LimitReached(s.control)))
    && (Events.Error in out.events <==>
          r == Cancel || (s.control.advancing == InFlight && r.Reply? && r.outcome == Fails) || out.broken == 1)
    && (Events.TurnStarted in out.events <==> r.Start? && !out.threw)
  }

  lemma OthersAnnounceEnds(s: S, r: Request)
    requires Coherent(s.control) && Sticky(s.control) && !r.Submit?
    ensures EndsAre(s, r)
  {
    if r.Reply? && s.control.advancing == InFlight {
      ReplyAnnounces(s, r.outcome, r.usage, r.breaks);
      ResumeEnds(s, r);
    } else if r.Start? {
      StartAnnounces(s, r);
    }
  }

  lemma ResumeEnds(s: S, r: Request)
    requires Coherent(s.control) && Sticky(s.control) && r.Reply? && s.control.advancing == InFlight
    ensures var i := Resume(s.control, r.outcome, r.breaks).1;
      && (i == OutOfRounds <==> r.outcome.Malformed? && !s.control.aborted && LimitReached(s.control))
      && (i == CallBroke <==> Step(s, r).1.broken == 1)
  {
  }

  lemma StartAnnounces(s: S, r: Request)
    requires r.Start?
    ensures EndsAre(s, r)
  {
  }

  /** Usage is announced with every reply that brought it, and text with every interrupt and every chunk of
      a call in flight. */
  lemma TextAnnounced(s: S, r: Request)
    ensures Events.Usage in Step(s, r).1.events <==>
      s.control.advancing == InFlight && r.Reply? && r.usage && r.outcome != Fails
    ensures Events.TextDelta in Step(s, r).1.events <==>
      r == Interrupt || (r == Chunk && s.control.advancing == InFlight)
    ensures Events.SessionCreated !in Step(s, r).1.events
  {
    if r.Submit? { SubmitAnnounces(s, r); } else { OthersAnnounceText(s, r); }
  }

  lemma OthersAnnounceText(s: S, r: Request)
    requires !r.Submit?
    ensures Events.Usage in Step(s, r).1.events <==>
      s.control.advancing == InFlight && r.Reply? && r.usage && r.outcome != Fails
    ensures Events.TextDelta in Step(s, r).1.events <==>
      r == Interrupt || (r == Chunk && s.control.advancing == InFlight)
    ensures Events.SessionCreated !in Step(s, r).1.events
  {
    if r.Reply? && s.control.advancing == InFlight { ReplyAnnounces(s, r.outcome, r.usage, r.breaks); }
  }

  // ---------- The summary ----------

  /** The lines of these entries, in order. */
  function Lines(entries: seq<Entry>): string {
    if entries == [] then "" else Lines(entries[..|entries| - 1]) + Line(entries[|entries| - 1])
  }

  function Older(entries: seq<Entry>): seq<Entry> { if |entries| <= 6 then [] else entries[..|entries| - 6] }

  lemma {:induction false} FoldedAppendsLines(recent: seq<Entry>, summary: string)
    ensures Folded(recent, summary) == summary + Lines(Older(recent))
  {
    if |recent| <= 6 {
      assert summary + "" == summary;
    } else {
      FoldedAppendsLines(recent[1..], summary + Line(recent[0]));
      LinesFront(Older(recent));
      OlderTail(recent);
      Joined(summary, Line(recent[0]), Lines(Older(recent)[1..]));
    }
  }

  lemma OlderTail(recent: seq<Entry>)
    requires |recent| > 6
    ensures Older(recent) != [] && Older(recent)[0] == recent[0] && Older(recent[1..]) == Older(recent)[1..]
  {
  }

  lemma Joined(a: string, b: string, c: string)
    ensures a + b + c == a + (b + c)
  {
  }

  lemma {:induction false} LinesFront(entries: seq<Entry>)
    requires entries != []
    ensures Lines(entries) == Line(entries[0]) + Lines(entries[1..])
  {
    var n := |entries| - 1;
    if n == 0 {
      assert entries == [entries[0]] && Line(entries[0]) + "" == Line(entries[0]);
      OneLine(entries[0]);
    } else {
      LinesFront(entries[..n]);
      assert entries[..n][1..] == entries[1..][..n - 1];
      Joined(Line(entries[0]), Lines(entries[1..][..n - 1]), Line(entries[n]));
    }
  }

  /** As long as it fits, the summary is the lines of all entries but the last six. */
  ghost predicate Summarizes(c: Conversation) {
    |Lines(Older(c.history))| <= 6000 ==> c.summary == Lines(Older(c.history))
  }

  lemma RecordSummarizes(c: Conversation, entry: Entry)
    requires Bounded(c) && Summarizes(c)
    ensures Summarizes(Fold(Push(c, entry)))
  {
    var recent := c.recent + [entry];
    FoldedAppendsLines(recent, c.summary);
    OlderGrows(c.history, entry);
    if |c.history| < 6 {
      assert Older(recent) == [] && c.summary + "" == c.summary;
    } else {
      OldestOfRecent(c, entry);
      OneLine(c.history[|c.history| - 6]);
    }
  }

  lemma OldestOfRecent(c: Conversation, entry: Entry)
    requires Bounded(c) && |c.history| >= 6
    ensures Older(c.recent + [entry]) == [c.history[|c.history| - 6]]
  {
    assert c.recent == c.history[|c.history| - 6..];
  }

  lemma OneLine(entry: Entry)
    ensures Lines([entry]) == Line(entry)
  {
    assert [entry][..0] == [] && "" + Line(entry) == Line(entry);
  }

  /** Each entry beyond the last six adds its line. */
  lemma OlderGrows(history: seq<Entry>, entry: Entry)
    ensures |history| < 6 ==> Older(history + [entry]) == Older(history) == []
    ensures |history| >= 6 ==> Lines(Older(history + [entry])) == Lines(Older(history)) + Line(history[|history| - 6])
  {
    var more := history + [entry];
    if |history| >= 6 {
      var n := |history| - 6;
      assert Older(more) == history[..n + 1] && history[..n + 1][..n] == history[..n];
      assert Older(history) == history[..n];
    }
  }

  ghost predicate Tells(s: S) { Good(s) && Summarizes(s.conv) }

  /** What every step keeps holds in every reachable state. */
  lemma {:induction false} Invariant(keeps: S -> bool, s: S, run: seq<Request>, n: nat)
    requires n <= |run| && keeps(s) && forall t, r {:trigger Step(t, r)} :: keeps(t) ==> keeps(Step(t, r).0)
    ensures keeps(After(s, run, n))
  {
    if n > 0 { Invariant(keeps, s, run, n - 1); }
  }

  /** So it is in every reachable state: nothing of the history is lost before the bound is met. */
  lemma SummaryAlways(s: S, run: seq<Request>, n: nat)
    requires Tells(s) && n <= |run|
    ensures Tells(After(s, run, n))
  {
    var keeps := (t: S) => Tells(t);
    forall t, r | keeps(t) ensures keeps(Step(t, r).0) { StepTells(t, r, Step(t, r).0); }
    Invariant(keeps, s, run, n);
    assert keeps(After(s, run, n));
  }

  lemma StepTells(s: S, r: Request, t: S)
    requires Tells(s) && t == Step(s, r).0
    ensures Tells(t)
  {
    StepGood(s, r);
    StepRecords(s, r);
    if t.conv != s.conv {
      var entry :| Records(s, r, entry);
      RecordSummarizes(s.conv, entry);
    }
  }

  lemma FreshTells(requested: Setting, fallback: Setting)
    ensures Tells(Fresh(requested, fallback))
  {
    FreshGood(requested, fallback);
  }

  /** The line of an entry: its name or "action", its arguments up to 300 characters, its outcome, and its
      result, or the reply that was no action, up to 500. */
  lemma LineIs(id: Id, name: string, args: string, ok: bool, result: string, error: string, raw: string)
    ensures Line(Tool(id, name, args, ok, result)) ==
      "\n- " + (if name == "" then "action" else name) + " " + Compact(args, 300) + ": "
      + (if ok then "ok" else "failed") + " " + Compact(result, 500)
    ensures Line(Fault(error, raw)) == "\n- protocol_error {}: failed " + Compact(if raw == "" then error else raw, 500)
  {
  }

  /** The digits of a number, read again. */
  function Value(digits: string): int {
    if digits == "" then 0 else Value(digits[..|digits| - 1]) * 10 + (digits[|digits| - 1] as int - '0' as int)
  }

  predicate IsDigit(c: char) { '0' <= c <= '9' }

  /** A text of digits that reads as n and does not begin with a zero, unless it is one. */
  ghost predicate Spells(digits: string, n: nat) {
    && digits != "" && Value(digits) == n && (n > 0 ==> digits[0] != '0')
    && forall i | 0 <= i < |digits| :: IsDigit(digits[i])
  }

  /** The number of missing characters is told in decimal digits. */
  lemma {:induction false} DigitsRead(n: nat)
    ensures Spells(Digits(n), n)
  {
    OneDigit(n % 10);
    if n >= 10 {
      DigitsRead(n / 10);
      OneMoreDigit(Digits(n / 10), "0123456789"[n % 10], n);
    } else {
      assert Digits(n) == ["0123456789"[n]];
      ValueSnoc("", "0123456789"[n]);
      assert "" + ["0123456789"[n]] == ["0123456789"[n]];
    }
  }

  lemma OneMoreDigit(front: string, c: char, n: nat)
    requires n >= 10 && Spells(front, n / 10) && IsDigit(c) && c as int == '0' as int + n % 10
    ensures Spells(front + [c], n)
  {
    ValueSnoc(front, c);
  }

  lemma ValueSnoc(digits: string, c: char)
    ensures Value(digits + [c]) == Value(digits) * 10 + (c as int - '0' as int)
  {
    assert (digits + [c])[..|digits|] == digits;
  }

  lemma OneDigit(d: nat)
    requires d < 10
    ensures "0123456789"[d] as int == '0' as int + d && IsDigit("0123456789"[d])
  {
  }

  /** A summary of at most 6000 characters stays; a longer one is cut to its last 6000, says so, and is
      announced. */
  lemma SummaryIsCut(c: Conversation)
    ensures var text := Folded(c.recent, c.summary);
      && (TooLong(c) <==> |text| > 6000)
      && (|text| <= 6000 ==> Fold(c).summary == text)
      && (|text| > 6000 ==> Fold(c).summary == "...(older context omitted)...\n" + text[|text| - 6000..])
      && (Compaction(c) == if |text| > 6000 then [Events.ContextCompacted] else [])
  {
  }

  /** A longer text is cut to its beginning, and says how much is missing. */
  lemma CompactCuts(text: string, limit: nat)
    ensures |text| <= limit ==> Compact(text, limit) == text
    ensures |text| > limit ==>
      Compact(text, limit) == text[..limit] + ("...(truncated " + (Digits(|text| - limit) + " chars)"))
  {
    if |text| > limit {
      var missing := Digits(|text| - limit);
      Joined(text[..limit], "...(truncated ", missing);
      Joined(text[..limit], "...(truncated " + missing, " chars)");
      Joined("...(truncated ", missing, " chars)");
    }
  }
}
