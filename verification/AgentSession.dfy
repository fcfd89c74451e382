/** The agent session object: its handlers and the segments of its advance loop, updating the
    session's fields in place. `appended` lists the events handed to the session's event log. */
module AgentSession {
  import opened Common
  import opened AgentConversation
  import opened AgentMachine
  import Events = AgentEvents

  lemma Appended(a: seq<Events.Kind>, b: seq<Events.Kind>, c: seq<Events.Kind>)
    ensures a + b + c == a + (b + c) && a + [] == a && [] + c == c && b + [] == b
  {
  }

  /** A batch result with what came before it. */
  ghost function Prepend(b: Batch, accepted: nat, events: seq<Events.Kind>): Batch {
    Batch(b.s, accepted + b.accepted, b.threw, events + b.events)
  }

  /** One turn of the batch loop. */
  lemma BatchStep(s: S, items: seq<Item>, n: nat, accepted: nat, events: seq<Events.Kind>)
    requires n < |items|
    ensures var item, here, rest := items[n], SubmitAll(s, items[n..]), items[n + 1..];
      if item.callId == NoId || (item.callId !in s.conv.completed && !Expected(s, item)) then
        Prepend(here, accepted, events) == Batch(s, accepted, true, events)
      else if item.callId in s.conv.completed then here == SubmitAll(s, rest)
      else Prepend(here, accepted, events) == Prepend(SubmitAll(Accept(s, item), rest), accepted + 1,
             events + Compaction(Push(s.conv, EntryFor(s.control.pending.value, item))))
  {
    assert items[n..][0] == items[n] && items[n..][1..] == items[n + 1..];
    if items[n].callId != NoId && items[n].callId !in s.conv.completed && Expected(s, items[n]) {
      Appended(events, Compaction(Push(s.conv, EntryFor(s.control.pending.value, items[n]))),
        SubmitAll(Accept(s, items[n]), items[n + 1..]).events);
    }
  }

  class Session {
    var status: Status
    var aborted: bool
    var round: nat
    var maxRounds: Limit
    var pending: Option<Call>
    var advancing: Advancing
    var history: seq<Entry>
    var recent: seq<Entry>
    var summary: string
    var completed: map<Id, Entry>
    var appended: seq<Events.Kind>

    ghost function ControlState(): Control
      reads this`status, this`aborted, this`round, this`maxRounds, this`pending, this`advancing
    {
      Control(status, aborted, round, maxRounds, pending, advancing)
    }

    ghost function Value(): S
      reads this
    {
      S(ControlState(), Conversation(history, recent, summary, completed))
    }

    constructor (requested: Setting, fallback: Setting)
      ensures Value() == Fresh(requested, fallback) && appended == [Events.SessionCreated]
    {
      status, aborted, round, maxRounds := Created, false, 0, NewLimit(NoNumber, requested, fallback);
      pending, advancing := None, Idle;
      history, recent, summary, completed := [], [], "", map[];
      appended := [Events.SessionCreated];
    }

    method AppendEvent(kind: Events.Kind)
      modifies this`appended
      ensures appended == old(appended) + [kind]
    {
      appended := appended + [kind];
    }

    method RecordEntry(entry: Entry)
      modifies this`history, this`recent, this`summary, this`completed, this`appended
      ensures Value().conv == Fold(Push(old(Value().conv), entry))
      ensures appended == old(appended) + Compaction(Push(old(Value().conv), entry))
    {
      if entry.Tool? { completed := completed[entry.callId := entry]; }
      history := history + [entry];
      recent := recent + [entry];
      var compacted;
      recent, summary, compacted := FoldSummary(recent, summary);
      if compacted { AppendEvent(Events.ContextCompacted); }
    }

    /** The loop test and the code up to the next await. */
    method TopOfLoop(breaks: bool) returns (i: Iteration)
      modifies this`status, this`round, this`appended
      ensures (ControlState(), i) == LoopTop(old(ControlState()), breaks) && appended == old(appended) + LoopEvents(i)
    {
      if pending.Some? || status == Cancelled || aborted || status == Completed { return Returned; }
      if maxRounds.Rounds? && round as real >= maxRounds.n {
        status := ReachedMax;
        AppendEvent(Events.Final);
        return OutOfRounds;
      }
      round := round + 1;
      status := Thinking;
      if breaks {
        status := Failed;
        AppendEvent(Events.Error);
        return CallBroke;
      }
      i := CallStarted;
    }

    /** advanceSession: the loop's exit clears the promise; the assignment around it comes last. */
    method AdvanceSession(breaks: bool) returns (i: Iteration)
      modifies this`status, this`round, this`advancing, this`appended
      ensures (ControlState(), i) == Enter(old(ControlState()), breaks) && appended == old(appended) + LoopEvents(i)
    {
      if advancing != Idle { return Returned; }
      i := TopOfLoop(breaks);
      if i != CallStarted { advancing := Idle; }
      advancing := if i == CallStarted then InFlight else Settled;
    }

    /** The loop resumed by the end of its brain call. */
    method BrainReturned(outcome: Outcome, usage: bool, breaks: bool) returns (calls: nat, broken: nat, threw: bool)
      modifies this
      ensures Did(old(Value()), old(appended), DoReply(old(Value()), outcome, usage, breaks), calls, broken, threw)
    {
      calls, broken, threw := 0, 0, false;
      if advancing != InFlight {
        Appended(appended, [], []);
        return;
      }
      var used: seq<Events.Kind> := if usage && outcome != Fails then [Events.Usage] else [];
      Appended(appended, used, if outcome.Malformed? then [] else ReplyEvents(outcome));
      if usage && outcome != Fails { AppendEvent(Events.Usage); }
      match outcome
      case Fails =>
        status, advancing := Failed, Idle;
        AppendEvent(Events.Error);
      case Breaks =>
        advancing, threw := Idle, true;
      case Answers =>
        status, advancing := Completed, Idle;
        AppendEvent(Events.Final);
      case Calls(call) =>
        pending, status, advancing := Some(call), WaitingTool, Idle;
        AppendEvent(Events.ToolCall);
      case Malformed(error, raw) =>
        var i := ContinueAfter(Fault(error, raw), breaks);
        calls, broken := LoopCalls(i), LoopBroken(i);
        Appended(old(appended), used, Compaction(Push(old(Value().conv), Fault(error, raw))) + LoopEvents(i));
        Appended(used, Compaction(Push(old(Value().conv), Fault(error, raw))), LoopEvents(i));
    }

    /** A reply that was no action is noted, and the loop goes round. */
    method ContinueAfter(entry: Entry, breaks: bool) returns (i: Iteration)
      requires advancing == InFlight && entry.Fault?
      modifies this
      ensures Value().conv == Fold(Push(old(Value().conv), entry))
      ensures (ControlState(), i) == Resume(old(ControlState()), Malformed(entry.error, entry.raw), breaks)
      ensures appended == old(appended) + (Compaction(Push(old(Value().conv), entry)) + LoopEvents(i))
    {
      RecordEntry(entry);
      i := TopOfLoop(breaks);
      if i != CallStarted { advancing := Idle; }
    }

    /** The outcome of a handler: its step was taken and its events were appended. */
    ghost predicate Did(
        before: S, appendedBefore: seq<Events.Kind>, step: (S, Output), calls: nat, broken: nat, threw: bool)
      reads this
    {
      Value() == step.0 && calls == step.1.calls && broken == step.1.broken && threw == step.1.threw
        && appended == appendedBefore + step.1.events
    }

    method StartTurn(hasContent: bool, promptValid: bool, breaks: bool) returns (calls: nat, broken: nat, threw: bool)
      modifies this
      ensures Did(
        old(Value()), old(appended), DoStart(old(Value()), hasContent, promptValid, breaks), calls, broken, threw)
    {
      calls, broken, threw := 0, 0, true;
      Appended(appended, [], []);
      if pending.Some? || status == Running || status == Thinking || status == WaitingTool { return; }
      if status == Cancelled { return; }
      if !hasContent { return; }
      if !promptValid { return; }
      status := Running;
      AppendEvent(Events.TurnStarted);
      var i := AdvanceSession(breaks);
      calls, broken, threw := LoopCalls(i), LoopBroken(i), false;
      Appended(old(appended), [Events.TurnStarted], LoopEvents(i));
    }

    method AcceptResult(item: Item) returns (ghost compaction: seq<Events.Kind>)
      requires Expected(Value(), item)
      modifies this`pending, this`history, this`recent, this`summary, this`completed, this`appended
      ensures Value() == Accept(old(Value()), item)
      ensures compaction == Compaction(Push(old(Value().conv), EntryFor(old(pending.value), item)))
      ensures appended == old(appended) + compaction
    {
      var entry := EntryFor(pending.value, item);
      compaction := Compaction(Push(Conversation(history, recent, summary, completed), entry));
      pending := None;
      RecordEntry(entry);
    }

    /** The loop over the results of one request. */
    method AcceptResults(items: seq<Item>) returns (accepted: nat, threw: bool)
      modifies this
      ensures var b := SubmitAll(old(Value()), items);
        Value() == b.s && accepted == b.accepted && threw == b.threw && appended == old(appended) + b.events
    {
      accepted, threw := 0, false;
      ghost var sent: seq<Events.Kind> := [];
      assert items[0..] == items;
      for n := 0 to |items|
        invariant appended == old(appended) + sent && !threw
        invariant SubmitAll(old(Value()), items) == Prepend(SubmitAll(Value(), items[n..]), accepted, sent)
      {
        var item := items[n];
        BatchStep(Value(), items, n, accepted, sent);
        if item.callId == NoId {
          threw := true;
          return;
        }
        if item.callId in completed { continue; }
        if pending.None? || pending.value.callId != item.callId {
          threw := true;
          return;
        }
        ghost var compaction := AcceptResult(item);
        accepted, sent := accepted + 1, sent + compaction;
      }
    }

    method SubmitToolResults(items: seq<Item>, breaks: bool) returns (calls: nat, broken: nat, threw: bool)
      modifies this
      ensures Did(old(Value()), old(appended), DoSubmit(old(Value()), items, breaks), calls, broken, threw)
    {
      calls, broken := 0, 0;
      var accepted;
      accepted, threw := AcceptResults(items);
      if threw || accepted == 0 { return; }
      status := Running;
      var i := AdvanceSession(breaks);
      calls, broken := LoopCalls(i), LoopBroken(i);
      Appended(old(appended), SubmitAll(old(Value()), items).events, LoopEvents(i));
    }

    method CancelSession()
      modifies this
      ensures Did(old(Value()), old(appended), DoCancel(old(Value())), 0, 0, false)
    {
      Appended(appended, if pending.Some? then [Events.ToolCallCancelled] else [], [Events.Error]);
      aborted := true;
      if pending.Some? {
        AppendEvent(Events.ToolCallCancelled);
        pending := None;
      }
      status := Cancelled;
      AppendEvent(Events.Error);
    }

    /** An interrupt, or a chunk streamed by the brain call in flight. */
    method NoteText()
      modifies this`appended
      ensures Did(old(Value()), old(appended), Step(old(Value()), Interrupt), 0, 0, false)
      ensures advancing == InFlight ==> Did(old(Value()), old(appended), Step(old(Value()), Chunk), 0, 0, false)
    {
      AppendEvent(Events.TextDelta);
    }

    method Configure(requested: Setting, fallback: Setting)
      modifies this`maxRounds
      ensures Value() == DoConfigure(old(Value()), requested, fallback)
    {
      maxRounds := NewLimit(maxRounds, requested, fallback);
    }
  }
}
