/** What holds of an agent session in every interleaving of its handlers. */
module AgentRuns {
  import opened Common
  import opened AgentConversation
  import opened AgentMachine
  import Events = AgentEvents

  function Flying(c: Control): nat { if c.advancing == InFlight then 1 else 0 }

  // ---------- What a batch of results does ----------

  ghost predicate AcceptsItem(s: S, items: seq<Item>, item: Item, t: S) {
    item in items && item.callId != NoId && Expected(s, item) && item.callId !in s.conv.completed
      && t == Accept(s, item)
  }

  ghost predicate AcceptedOne(s: S, items: seq<Item>, t: S) {
    exists item :: AcceptsItem(s, items, item, t)
  }

  /** A batch accepts at most the pending call. */
  lemma {:induction false} SubmitFrame(s: S, items: seq<Item>)
    ensures SubmitAll(s, items).accepted <= 1
    ensures SubmitAll(s, items).accepted == 0 ==> SubmitAll(s, items).s == s
    ensures SubmitAll(s, items).accepted == 1 ==> AcceptedOne(s, items, SubmitAll(s, items).s)
    decreases |items|
  {
    if items != [] {
      var item, rest := items[0], items[1..];
      assert item in items && forall x | x in rest :: x in items;
      if item.callId != NoId && item.callId in s.conv.completed {
        SubmitFrame(s, rest);
        if SubmitAll(s, rest).accepted == 1 { AcceptedAmong(s, rest, items, SubmitAll(s, rest).s); }
      } else if item.callId != NoId && Expected(s, item) {
        SubmitFrame(Accept(s, item), rest);
        assert AcceptsItem(s, items, item, Accept(s, item));
      }
    }
  }

  lemma AcceptedAmong(s: S, some: seq<Item>, items: seq<Item>, t: S)
    requires AcceptedOne(s, some, t) && forall x | x in some :: x in items
    ensures AcceptedOne(s, items, t)
  {
    var item :| AcceptsItem(s, some, item, t);
    assert AcceptsItem(s, items, item, t);
  }

  /** What the control state looks like after the batch, before the loop is entered. */
  lemma SubmitControl(s: S, items: seq<Item>)
    ensures var b := SubmitAll(s, items);
      && b.accepted <= 1
      && b.s.control == (if b.accepted == 1 then s.control.(pending := None) else s.control)
      && (b.accepted == 1 ==> s.control.pending.Some? && Answerable(s, s.control.pending.value))
      && (b.accepted == 0 ==> b.s == s)
  {
    SubmitFrame(s, items);
    if SubmitAll(s, items).accepted == 1 {
      var item :| AcceptsItem(s, items, item, SubmitAll(s, items).s);
    }
  }

  /** A result for this call would be taken as one. */
  predicate Answerable(s: S, call: Call) { call.callId != NoId && call.callId !in s.conv.completed }

  // ---------- One call at a time, each consuming a round ----------

  /** A call is started only by a session that is neither cancelled nor out of rounds; it costs one
      round and is the only one outstanding. */
  ghost predicate CallDiscipline(c: Control, d: Control, calls: nat, broken: nat, replied: nat) {
    && calls + broken <= 1 && d.round == c.round + calls + broken
    && Flying(c) + calls == Flying(d) + replied
    && (calls + broken == 1 ==> !c.aborted && !LimitReached(c))
    && (c.aborted ==> d.aborted)
    && (c.advancing == Settled ==> d.advancing == Settled && calls + broken == 0)
  }

  lemma EnterDiscipline(c: Control, breaks: bool)
    ensures var (d, i) := Enter(c, breaks); CallDiscipline(c, d, LoopCalls(i), LoopBroken(i), 0)
  {
  }

  lemma ResumeDiscipline(c: Control, outcome: Outcome, breaks: bool)
    requires c.advancing == InFlight
    ensures var (d, i) := Resume(c, outcome, breaks); CallDiscipline(c, d, LoopCalls(i), LoopBroken(i), 1)
  {
  }

  lemma CallStep(s: S, r: Request)
    ensures var (t, out) := Step(s, r);
      CallDiscipline(s.control, t.control, out.calls, out.broken, Replied(s, r))
  {
    match r
    case Start(_, _, breaks) => EnterDiscipline(s.control.(status := Running), breaks);
    case Reply(outcome, _, breaks) =>
      if s.control.advancing == InFlight { ResumeDiscipline(s.control, outcome, breaks); }
    case Submit(items, breaks) =>
      SubmitControl(s, items);
      EnterDiscipline(SubmitAll(s, items).s.control.(status := Running), breaks);
    case _ =>
  }

  lemma FlightStep(s: S, r: Request)
    ensures Flying(s.control) + Step(s, r).1.calls == Flying(Step(s, r).0.control) + Replied(s, r)
    ensures Step(s, r).0.control.round == s.control.round + Step(s, r).1.calls + Step(s, r).1.broken
  {
    CallStep(s, r);
  }

  /** Never more than one brain call is outstanding: calls started and replies received differ by
      whether one is in flight. */
  lemma {:induction false} OneCallInFlight(s: S, run: seq<Request>, n: nat)
    requires n <= |run|
    ensures CallsUpTo(s, run, n) + Flying(s.control) == RepliesUpTo(s, run, n) + Flying(After(s, run, n).control)
  {
    if n > 0 {
      OneCallInFlight(s, run, n - 1);
      FlightStep(After(s, run, n - 1), run[n - 1]);
    }
  }

  /** Every round was spent on one call that was started or on one attempt that broke. */
  lemma {:induction false} RoundsCountAttempts(s: S, run: seq<Request>, n: nat)
    requires n <= |run|
    ensures After(s, run, n).control.round == s.control.round + CallsUpTo(s, run, n) + BrokenUpTo(s, run, n)
  {
    if n > 0 {
      RoundsCountAttempts(s, run, n - 1);
      FlightStep(After(s, run, n - 1), run[n - 1]);
    }
  }

  lemma {:induction false} AbortSticks(s: S, run: seq<Request>, i: nat, j: nat)
    requires i <= j <= |run| && After(s, run, i).control.aborted
    ensures After(s, run, j).control.aborted
    decreases j
  {
    if i < j {
      AbortSticks(s, run, i, j - 1);
      CallStep(After(s, run, j - 1), run[j - 1]);
    }
  }

  /** After a cancel no brain call is ever started, even if a late reply overwrites the status. */
  lemma NoCallAfterCancel(s: S, run: seq<Request>, i: nat, j: nat)
    requires i < j < |run| && run[i] == Cancel
    ensures CallsAt(s, run, j) == 0 && Step(After(s, run, j), run[j]).1.broken == 0
  {
    assert After(s, run, i + 1) == DoCancel(After(s, run, i)).0;
    AbortSticks(s, run, i + 1, j);
    CallStep(After(s, run, j), run[j]);
  }

  // ---------- The round bound ----------

  predicate Numeric(l: Limit) { l.Rounds? && 1.0 <= l.n <= MAX_ROUNDS }

  predicate Usable(setting: Setting) { setting.Number? && setting.n != 0.0 }

  /** The settings a session can be created with so that its limit is a number. */
  predicate StartsNumeric(requested: Setting, fallback: Setting) {
    requested != Text && (Usable(requested) || fallback != Text)
  }

  /** A later setting is no text that is no number; by then the fallback does not matter. */
  predicate Parses(r: Request) { r.Configure? ==> r.requested != Text }

  /** Exactly when the limit is a number between 1 and 200 after creation, and stays one. */
  lemma FreshLimitIff(requested: Setting, fallback: Setting)
    ensures Numeric(Fresh(requested, fallback).control.limit) <==> StartsNumeric(requested, fallback)
  {
  }

  lemma NumericKeptIff(s: S, r: Request)
    requires Numeric(s.control.limit)
    ensures Numeric(Step(s, r).0.control.limit) <==> Parses(r)
  {
    LimitStep(s, r);
  }

  lemma LimitStep(s: S, r: Request)
    ensures Step(s, r).0.control.limit ==
      if r.Configure? then NewLimit(s.control.limit, r.requested, r.fallback) else s.control.limit
  {
    if r.Submit? { SubmitControl(s, r.items); }
  }

  ghost predicate WithinRounds(c: Control) { Numeric(c.limit) && c.round <= 200 }

  lemma RoundStep(s: S, r: Request)
    requires WithinRounds(s.control) && Parses(r)
    ensures WithinRounds(Step(s, r).0.control)
  {
    CallStep(s, r);
    NumericKeptIff(s, r);
  }

  /** At most 200 calls are started or attempted in the life of a session, however often its limit is changed. */
  lemma {:induction false} AtMost200Calls(requested: Setting, fallback: Setting, run: seq<Request>, n: nat)
    requires StartsNumeric(requested, fallback) && n <= |run|
    requires forall i | 0 <= i < n :: Parses(run[i])
    ensures WithinRounds(After(Fresh(requested, fallback), run, n).control)
    ensures CallsUpTo(Fresh(requested, fallback), run, n) + BrokenUpTo(Fresh(requested, fallback), run, n) <= 200
  {
    var s := Fresh(requested, fallback);
    if n > 0 {
      AtMost200Calls(requested, fallback, run, n - 1);
      RoundStep(After(s, run, n - 1), run[n - 1]);
    }
    RoundsCountAttempts(s, run, n);
  }

  /** The brain thinks in a session whose limit is no number. */
  ghost predicate ThinksUnlimited(c: Control) {
    c.limit == NoNumber && c.advancing == InFlight && c.pending.None? && c.status == Thinking && !c.aborted
  }

  predicate RepliesMalformed(r: Request) { r.Reply? && r.outcome.Malformed? && !r.breaks }

  predicate AllMalformed(run: seq<Request>, n: nat)
    requires n <= |run|
  {
    n == 0 || (RepliesMalformed(run[n - 1]) && AllMalformed(run, n - 1))
  }

  lemma UnlimitedStep(s: S, r: Request)
    requires ThinksUnlimited(s.control) && RepliesMalformed(r)
    ensures ThinksUnlimited(Step(s, r).0.control) && Step(s, r).1.calls == 1
  {
  }

  /** With a limit that is no number there is no bound: every reply without a usable action starts
      another call, however many there were. */
  lemma {:induction false} UnboundedWithoutNumber(s: S, run: seq<Request>, n: nat)
    requires ThinksUnlimited(s.control) && n <= |run| && AllMalformed(run, n)
    ensures ThinksUnlimited(After(s, run, n).control) && CallsUpTo(s, run, n) == n
  {
    if n > 0 {
      UnboundedWithoutNumber(s, run, n - 1);
      UnlimitedStep(After(s, run, n - 1), run[n - 1]);
    }
  }

  ghost predicate Thinks(c: Control) {
    c.advancing == InFlight && c.pending.None? && c.status == Thinking && !c.aborted
      && (Numeric(c.limit) || c.limit == NoNumber)
  }

  /** However a session goes on without a new setting, it starts no more than b calls. */
  ghost predicate BoundedBy(s: S, b: nat) {
    forall run {:trigger NeverConfigures(run)} :: NeverConfigures(run) ==> CallsUpTo(s, run, |run|) <= b
  }

  predicate NeverConfigures(run: seq<Request>) { forall i | 0 <= i < |run| :: !run[i].Configure? }

  /** A thinking session has any bound at all on the calls it will start exactly if its limit is a
      number. */
  lemma BoundedIffNumeric(s: S)
    requires Thinks(s.control)
    ensures (exists b: nat :: BoundedBy(s, b)) <==> s.control.limit != NoNumber
  {
    if s.control.limit == NoNumber {
      forall b: nat ensures !BoundedBy(s, b) { ManyReplies(s, b + 1); }
    } else {
      var b := 200 + s.control.round;
      forall run | NeverConfigures(run) ensures CallsUpTo(s, run, |run|) <= b { NumericBounds(s, run, |run|); }
      assert BoundedBy(s, b);
    }
  }

  lemma ManyReplies(s: S, n: nat)
    requires Thinks(s.control) && s.control.limit == NoNumber
    ensures exists run :: NeverConfigures(run) && CallsUpTo(s, run, |run|) == n
  {
    var run := seq(n, _ => Reply(Malformed("", ""), false, false));
    AllAreMalformed(run, n);
    UnboundedWithoutNumber(s, run, n);
    assert NeverConfigures(run) && CallsUpTo(s, run, |run|) == n;
  }

  lemma {:induction false} AllAreMalformed(run: seq<Request>, n: nat)
    requires n <= |run| && forall i | 0 <= i < |run| :: RepliesMalformed(run[i])
    ensures AllMalformed(run, n)
  {
    if n > 0 { AllAreMalformed(run, n - 1); }
  }

  lemma {:induction false} NumericBounds(s: S, run: seq<Request>, n: nat)
    requires Numeric(s.control.limit) && n <= |run| && NeverConfigures(run)
    ensures Numeric(After(s, run, n).control.limit)
    ensures After(s, run, n).control.round <= Max(200, s.control.round)
    ensures CallsUpTo(s, run, n) <= 200 + s.control.round
  {
    if n > 0 {
      NumericBounds(s, run, n - 1);
      NumericKeptIff(After(s, run, n - 1), run[n - 1]);
      CallStep(After(s, run, n - 1), run[n - 1]);
    }
    RoundsCountAttempts(s, run, n);
  }

  // ---------- Pending calls, history, summary, events ----------

  /** A pending call means the session waits for a tool; while the brain thinks nothing is pending. */
  ghost predicate Coherent(c: Control) {
    && (c.pending.Some? ==> c.status == WaitingTool && c.advancing != InFlight)
    && (c.advancing == InFlight ==> c.status == Thinking || c.status == Cancelled)
  }

  lemma CoherentStep(s: S, r: Request)
    requires Coherent(s.control)
    ensures Coherent(Step(s, r).0.control)
  {
    if r.Submit? { SubmitControl(s, r.items); }
  }

  ghost predicate Good(s: S) { Coherent(s.control) && Bounded(s.conv) && OncePerCall(s.conv) }

  lemma PushGood(c: Conversation, entry: Entry)
    requires Bounded(c) && OncePerCall(c) && (entry.Tool? ==> entry.callId !in c.completed)
    ensures Bounded(Fold(Push(c, entry))) && OncePerCall(Fold(Push(c, entry)))
  {
    RecordKeepsBounds(c, entry);
    RecordKeepsOnce(c, entry);
  }

  /** What a step does to the conversation: nothing, or it records one new entry. */
  ghost predicate Records(s: S, r: Request, entry: Entry) {
    && (entry.Tool? ==> entry.callId !in s.conv.completed && r.Submit? && s.control.pending.Some?
                        && entry.callId == s.control.pending.value.callId
                        && entry.name == s.control.pending.value.name && entry.args == s.control.pending.value.args)
    && Step(s, r).0.conv == Fold(Push(s.conv, entry))
  }

  /** A step records at most one entry; a tool entry is the result of the call that was pending,
      under that call's name and arguments, and never of a call completed before. */
  lemma StepRecords(s: S, r: Request)
    ensures Step(s, r).0.conv == s.conv || exists entry :: Records(s, r, entry)
  {
    match r
    case Reply(outcome, _, _) =>
      if s.control.advancing == InFlight && outcome.Malformed? {
        assert Records(s, r, Fault(outcome.error, outcome.raw));
      }
    case Submit(items, _) =>
      SubmitFrame(s, items);
      if SubmitAll(s, items).accepted == 1 {
        var item :| AcceptsItem(s, items, item, SubmitAll(s, items).s);
        assert Records(s, r, EntryFor(s.control.pending.value, item));
      }
    case _ =>
  }

  lemma StepGood(s: S, r: Request)
    requires Good(s)
    ensures Good(Step(s, r).0)
  {
    CoherentStep(s, r);
    StepRecords(s, r);
    if Step(s, r).0.conv != s.conv {
      var entry :| Records(s, r, entry);
      PushGood(s.conv, entry);
    }
  }

  /** In every reachable state: recent is the tail of the history, the summary is bounded, every call
      id entered the history at most once and is completed with that entry, and a pending call means
      waiting for its tool. */
  lemma {:induction false} AlwaysGood(s: S, run: seq<Request>, n: nat)
    requires Good(s) && n <= |run|
    ensures Good(After(s, run, n))
  {
    if n > 0 {
      AlwaysGood(s, run, n - 1);
      StepGood(After(s, run, n - 1), run[n - 1]);
    }
  }

  lemma FreshGood(requested: Setting, fallback: Setting)
    ensures Good(Fresh(requested, fallback)) && Sticky(Fresh(requested, fallback).control)
  {
  }

  /** Results of calls completed before are ignored: the session stays exactly as it is. */
  lemma {:induction false} ResubmitIsNoOp(s: S, items: seq<Item>, breaks: bool)
    requires forall item | item in items :: item.callId in s.conv.completed && item.callId != NoId
    ensures SubmitAll(s, items) == Batch(s, 0, false, []) && DoSubmit(s, items, breaks) == (s, Done([]))
    decreases |items|
  {
    if items != [] {
      assert items[0] in items;
      ResubmitIsNoOp(s, items[1..], breaks);
    }
  }

  // ---------- Where the loop gets stuck ----------

  /** Once the loop's promise has settled before being stored, no request ever starts another brain
      call: not a follow-up turn, not a tool result, not a raised limit. */
  lemma {:induction false} WedgedForever(s: S, run: seq<Request>, i: nat, j: nat)
    requires i <= j <= |run| && After(s, run, i).control.advancing == Settled
    ensures After(s, run, j).control.advancing == Settled
    ensures CallsUpTo(s, run, j) == CallsUpTo(s, run, i)
    decreases j
  {
    if i < j {
      WedgedForever(s, run, i, j - 1);
      CallStep(After(s, run, j - 1), run[j - 1]);
    }
  }

  /** Exactly when entering the loop wedges an idle session that was just set running: the session is
      cancelled, its rounds are used up, or the attempt to call the brain breaks before its await. */
  lemma EnterWedgesIff(c: Control, breaks: bool)
    requires c.advancing == Idle && c.status == Running && c.pending.None?
    ensures Enter(c, breaks).0.advancing == Settled <==> c.aborted || LimitReached(c) || breaks
    ensures LoopCalls(Enter(c, breaks).1) == if c.aborted || LimitReached(c) || breaks then 0 else 1
  {
  }

  /** What a request has to find to reach the loop of an idle session. */
  ghost predicate ReachesLoop(s: S, r: Request) {
    match r
    case Start(hasContent, promptValid, _) =>
      !Busy(s.control) && s.control.status != Cancelled && hasContent && promptValid
    case Submit(items, _) => SubmitAll(s, items).accepted > 0 && !SubmitAll(s, items).threw
    case _ => false
  }

  /** Exactly when a request wedges a session that was not wedged before. */
  lemma StepWedgesIff(s: S, r: Request)
    requires Coherent(s.control) && s.control.advancing != Settled
    ensures Step(s, r).0.control.advancing == Settled <==>
      s.control.advancing == Idle && ReachesLoop(s, r) && (s.control.aborted || LimitReached(s.control) || r.breaks)
  {
    match r
    case Submit(items, breaks) => SubmitControl(s, items);
    case _ =>
  }

  /** So a tool result that arrives when the rounds are used up wedges the session. */
  lemma LastRoundWedges(s: S, item: Item, breaks: bool)
    requires Expected(s, item) && item.callId != NoId && item.callId !in s.conv.completed
    requires s.control.advancing == Idle && LimitReached(s.control) && !s.control.aborted
    ensures var t := Step(s, Submit([item], breaks)).0.control; t.status == ReachedMax && t.advancing == Settled
  {
    assert [item][1..] == [];
    assert SubmitAll(Accept(s, item), []) == Batch(Accept(s, item), 0, false, []);
  }

  /** A result under the pending call's id is recorded, under the call's name and arguments, exactly
      if the id was not completed before. */
  lemma AnsweredIff(s: S, item: Item, breaks: bool)
    requires Expected(s, item) && item.callId != NoId
    ensures Step(s, Submit([item], breaks)).0.conv.history == s.conv.history + [EntryFor(s.control.pending.value, item)]
      <==> item.callId !in s.conv.completed
    ensures Step(s, Submit([item], breaks)).0.control.pending.None? <==> item.callId !in s.conv.completed
  {
    assert [item][1..] == [];
    var t := if item.callId in s.conv.completed then s else Accept(s, item);
    assert SubmitAll(t, []) == Batch(t, 0, false, []);
    assert |s.conv.history| < |s.conv.history + [EntryFor(s.control.pending.value, item)]|;
  }

  /** A tool call whose id was used before is never answered: its result counts as a repetition, so
      the call stays pending, and no turn can start, until the session is cancelled. */
  lemma {:induction false} ReusedCallIdBlocks(s: S, run: seq<Request>, n: nat)
    requires Coherent(s.control) && s.control.pending.Some? && s.control.pending.value.callId in s.conv.completed
      && n <= |run|
    requires forall i | 0 <= i < n :: run[i] != Cancel
    ensures After(s, run, n).control.pending == s.control.pending && After(s, run, n).conv == s.conv
    ensures Coherent(After(s, run, n).control) && CallsUpTo(s, run, n) == 0
  {
    if n > 0 {
      ReusedCallIdBlocks(s, run, n - 1);
      BlockedStep(After(s, run, n - 1), run[n - 1]);
    }
  }

  lemma BlockedStep(s: S, r: Request)
    requires Coherent(s.control) && s.control.pending.Some? && s.control.pending.value.callId in s.conv.completed
      && r != Cancel
    ensures Coherent(Step(s, r).0.control) && Step(s, r).0.control.pending == s.control.pending
    ensures Step(s, r).0.conv == s.conv && Step(s, r).1.calls == 0
  {
    if r.Submit? { SubmitControl(s, r.items); }
  }

  // ---------- Sessions that never call the brain again ----------

  /** The status says cancelled only if the abort flag does. */
  ghost predicate Sticky(c: Control) { c.status == Cancelled ==> c.aborted }

  lemma StickyStep(s: S, r: Request)
    requires Sticky(s.control)
    ensures Sticky(Step(s, r).0.control)
  {
    if r.Submit? { SubmitControl(s, r.items); }
  }

  lemma {:induction false} StickyAlways(s: S, run: seq<Request>, n: nat)
    requires Sticky(s.control) && n <= |run|
    ensures Sticky(After(s, run, n).control)
  {
    if n > 0 {
      StickyAlways(s, run, n - 1);
      StickyStep(After(s, run, n - 1), run[n - 1]);
    }
  }

  /** No way leads to the loop: the abort flag is set, a settled promise is stored, or nothing is in
      flight and neither a result nor a turn would be accepted. */
  ghost predicate DeadEnd(s: S) {
    var c := s.control;
    || c.aborted || c.advancing == Settled
    || (c.advancing == Idle && if c.pending.Some? then !Answerable(s, c.pending.value) else Busy(c))
  }

  lemma DeadEndStep(s: S, r: Request)
    requires Coherent(s.control) && DeadEnd(s)
    ensures DeadEnd(Step(s, r).0) && Step(s, r).1.calls == 0
  {
    CallStep(s, r);
    if r.Submit? { SubmitControl(s, r.items); }
  }

  lemma {:induction false} DeadEndForever(s: S, run: seq<Request>, n: nat)
    requires Coherent(s.control) && DeadEnd(s) && n <= |run|
    ensures Coherent(After(s, run, n).control) && DeadEnd(After(s, run, n)) && CallsUpTo(s, run, n) == 0
  {
    if n > 0 {
      DeadEndForever(s, run, n - 1);
      CoherentStep(After(s, run, n - 1), run[n - 1]);
      DeadEndStep(After(s, run, n - 1), run[n - 1]);
    }
  }

  /** However the session goes on, settings that lift its limit included, no brain call is started. */
  ghost predicate NeverCallsAgain(s: S) { forall run :: CallsUpTo(s, run, |run|) == 0 }

  /** What brings a session that is no dead end to its next call, once its limit allows one. */
  function WayOn(s: S): Request {
    if s.control.advancing == InFlight then Reply(Malformed("", ""), false, false)
    else if s.control.pending.Some? then Submit([Item(s.control.pending.value.callId, true, "")], false)
    else Start(true, true, false)
  }

  lemma WayOnCalls(s: S)
    requires Coherent(s.control) && Sticky(s.control) && !DeadEnd(s) && s.control.limit == NoNumber
    ensures Step(s, WayOn(s)).1.calls == 1
  {
    if s.control.advancing == Idle && s.control.pending.Some? {
      var item := Item(s.control.pending.value.callId, true, "");
      assert [item][1..] == [];
      assert SubmitAll(Accept(s, item), []) == Batch(Accept(s, item), 0, false, []);
    }
  }

  /** A session never calls the brain again if and only if it is cancelled, holds a settled promise, or
      is idle and accepts neither a result nor a turn. */
  lemma NeverCallsAgainIff(s: S)
    requires Coherent(s.control) && Sticky(s.control)
    ensures NeverCallsAgain(s) <==> DeadEnd(s)
  {
    if DeadEnd(s) {
      forall run ensures CallsUpTo(s, run, |run|) == 0 { DeadEndForever(s, run, |run|); }
    } else {
      var freed := Step(s, Configure(Text, Absent)).0;
      assert WayOn(freed) == WayOn(s);
      WayOnCalls(freed);
      TwoSteps(s, Configure(Text, Absent), WayOn(s));
      assert !NeverCallsAgain(s);
    }
  }

  lemma TwoSteps(s: S, first: Request, second: Request)
    ensures CallsUpTo(s, [first, second], 2) == Step(s, first).1.calls + Step(Step(s, first).0, second).1.calls
  {
    var run := [first, second];
    assert After(s, run, 0) == s;
    assert After(s, run, 1) == Step(s, first).0;
    assert CallsUpTo(s, run, 1) == CallsAt(s, run, 0);
  }

  /** A reply that the parser throws on is such an end: the status stays thinking, so no turn starts. */
  lemma ParserThrowEnds(s: S, usage: bool, breaks: bool)
    requires Coherent(s.control) && Sticky(s.control) && s.control.advancing == InFlight
    ensures NeverCallsAgain(Step(s, Reply(Breaks, usage, breaks)).0)
    ensures Step(s, Reply(Breaks, usage, breaks)).0.control.aborted == s.control.aborted
  {
    var r := Reply(Breaks, usage, breaks);
    CoherentStep(s, r);
    StickyStep(s, r);
    NeverCallsAgainIff(Step(s, r).0);
  }

  /** So is a batch that throws after accepting the pending call: the session still waits for a tool,
      with no call to wait for. */
  lemma HalfBatchEnds(s: S, item: Item, bad: Item, breaks: bool)
    requires Coherent(s.control) && Sticky(s.control) && Expected(s, item) && Answerable(s, s.control.pending.value)
    requires bad.callId == NoId || (bad.callId != item.callId && bad.callId !in s.conv.completed)
    ensures var t := Step(s, Submit([item, bad], breaks)).0;
      t.control.pending.None? && t.control.status == WaitingTool && NeverCallsAgain(t)
  {
    var r := Submit([item, bad], breaks);
    assert [item, bad][1..] == [bad];
    assert SubmitAll(Accept(s, item), [bad]) == Batch(Accept(s, item), 0, true, []);
    CoherentStep(s, r);
    StickyStep(s, r);
    NeverCallsAgainIff(Step(s, r).0);
  }

  // ---------- The event log of a run ----------

  /** Whatever a run appends, the retained events are the newest, with contiguous ids. */
  lemma {:induction false} LogStaysContiguous(log: Events.Log, kinds: seq<Events.Kind>)
    requires Events.Contiguous(log)
    ensures Events.Contiguous(Events.AppendAll(log, kinds))
    ensures Events.AppendAll(log, kinds).lastId == log.lastId + |kinds|
  {
    if kinds != [] {
      var n := |kinds| - 1;
      LogStaysContiguous(log, kinds[..n]);
      Events.AppendKeepsContiguous(Events.AppendAll(log, kinds[..n]), kinds[n]);
    }
  }

  /** A client that connects in the middle of a run, with a cursor the log still covers, has been
      sent every event after its cursor once and in order, whatever the run goes on to append. */
  lemma RunStreamIsExact(log: Events.Log, s: S, run: seq<Request>, m: nat, n: nat, cursor: nat)
    requires Events.Contiguous(log) && m <= n <= |run|
    requires var now := Events.AppendAll(log, EventsBetween(s, run, 0, m));
      now.lastId - |now.events| <= cursor <= now.lastId
    ensures var now, later := Events.AppendAll(log, EventsBetween(s, run, 0, m)), EventsBetween(s, run, m, n);
      Events.Covers(Events.EventsAfter(now.events, cursor) + Events.Live(now, later), cursor, now.lastId + |later|)
  {
    LogStaysContiguous(log, EventsBetween(s, run, 0, m));
    Events.StreamCovers(Events.AppendAll(log, EventsBetween(s, run, 0, m)), cursor, EventsBetween(s, run, m, n));
  }
}
