/** An agent session between await points: each request below is what one handler, or the advance
    loop resumed by a reply, does without interruption. */
module AgentMachine {
  import opened Common
  import opened AgentConversation
  import Events = AgentEvents

  datatype Status = Created | Running | Thinking | WaitingTool | Completed | Cancelled | ReachedMax | Failed

  datatype Call = Call(callId: Id, name: string, args: string)

  /** maxRounds after coercion: NoNumber is what a text that is no number becomes. */
  datatype Limit = NoNumber | Rounds(n: real)

  /** A maxRounds setting as it arrives. */
  datatype Setting = Absent | Text | Number(n: real)

  /** The promise of the advance loop: none, waiting for the brain, or one that settled before it
      was stored and is therefore never cleared. */
  datatype Advancing = Idle | InFlight | Settled

  datatype Control = Control(
    status: Status, aborted: bool, round: nat, limit: Limit, pending: Option<Call>, advancing: Advancing)

  datatype S = S(control: Control, conv: Conversation)

  /** How a brain call ends; Breaks is a reply that the parser throws on. */
  datatype Outcome = Fails | Breaks | Answers | Malformed(error: string, raw: string) | Calls(call: Call)

  datatype Item = Item(callId: Id, ok: bool, result: string)

  /** `breaks` says that the attempt to call the brain, if the step makes one, throws before its
      await: building the prompt fails, or what should be the brain is no asynchronous function. */
  datatype Request =
    | Start(hasContent: bool, promptValid: bool, breaks: bool)
    | Reply(outcome: Outcome, usage: bool, breaks: bool)
    | Submit(items: seq<Item>, breaks: bool)
    | Cancel
    | Interrupt
    | Chunk
    | Configure(requested: Setting, fallback: Setting)

  /** How many brain calls a step started, how many attempts broke before their await, whether the
      handler threw, and the events it appended. */
  datatype Output = Output(calls: nat, broken: nat, threw: bool, events: seq<Events.Kind>)

  const MAX_ROUNDS := 200.0
  const DEFAULT_ROUNDS := 12.0

  function Done(events: seq<Events.Kind>): Output { Output(0, 0, false, events) }

  function Threw(events: seq<Events.Kind>): Output { Output(0, 0, true, events) }

  function Park(c: Control, advancing: Advancing): Control { c.(advancing := advancing) }

  function Compaction(c: Conversation): seq<Events.Kind> { if TooLong(c) then [Events.ContextCompacted] else [] }

  // ---------- The advance loop ----------

  datatype Iteration = CallStarted | CallBroke | OutOfRounds | Returned

  predicate HardStopped(c: Control) { c.status == Cancelled || c.aborted }

  predicate LimitReached(c: Control) { c.limit.Rounds? && c.round as real >= c.limit.n }

  /** The loop from its test to the next await: a call is started, or the loop returns. An attempt
      that breaks has used up its round. */
  function LoopTop(c: Control, breaks: bool): (Control, Iteration) {
    if c.pending.Some? || HardStopped(c) || c.status == Completed then (c, Returned)
    else if LimitReached(c) then (c.(status := ReachedMax), OutOfRounds)
    else if breaks then (c.(round := c.round + 1, status := Failed), CallBroke)
    else (c.(round := c.round + 1, status := Thinking), CallStarted)
  }

  function LoopEvents(i: Iteration): seq<Events.Kind> {
    match i
    case OutOfRounds => [Events.Final]
    case CallBroke => [Events.Error]
    case _ => []
  }

  function LoopCalls(i: Iteration): nat { if i == CallStarted then 1 else 0 }

  function LoopBroken(i: Iteration): nat { if i == CallBroke then 1 else 0 }

  /** Entering the loop. Returning before any await clears the promise first and stores it after. */
  function Enter(c: Control, breaks: bool): (Control, Iteration) {
    if c.advancing != Idle then (c, Returned)
    else
      var (t, i) := LoopTop(c, breaks);
      (Park(t, if i == CallStarted then InFlight else Settled), i)
  }

  /** What a reply does to the control state, up to the next await. */
  function Resume(c: Control, outcome: Outcome, breaks: bool): (Control, Iteration) {
    match outcome
    case Fails => (Park(c.(status := Failed), Idle), Returned)
    case Breaks => (Park(c, Idle), Returned)
    case Answers => (Park(c.(status := Completed), Idle), Returned)
    case Calls(call) => (Park(c.(pending := Some(call), status := WaitingTool), Idle), Returned)
    case Malformed(_, _) =>
      var (t, i) := LoopTop(c, breaks);
      (Park(t, if i == CallStarted then InFlight else Idle), i)
  }

  function ReplyEvents(outcome: Outcome): seq<Events.Kind> {
    match outcome
    case Fails => [Events.Error]
    case Answers => [Events.Final]
    case Calls(_) => [Events.ToolCall]
    case _ => []
  }

  function DoReply(s: S, outcome: Outcome, usage: bool, breaks: bool): (S, Output) {
    if s.control.advancing != InFlight then (s, Done([]))
    else
      var (control, i) := Resume(s.control, outcome, breaks);
      var used := if usage && outcome != Fails then [Events.Usage] else [];
      if outcome.Malformed? then
        var pushed := Push(s.conv, Fault(outcome.error, outcome.raw));
        (S(control, Fold(pushed)),
          Output(LoopCalls(i), LoopBroken(i), false, used + Compaction(pushed) + LoopEvents(i)))
      else (s.(control := control), Output(0, 0, outcome == Breaks, used + ReplyEvents(outcome)))
  }

  // ---------- The handlers ----------

  predicate Busy(c: Control) {
    c.pending.Some? || c.status == Running || c.status == Thinking || c.status == WaitingTool
  }

  function DoStart(s: S, hasContent: bool, promptValid: bool, breaks: bool): (S, Output) {
    if Busy(s.control) || s.control.status == Cancelled || !hasContent || !promptValid then (s, Threw([]))
    else
      var (control, i) := Enter(s.control.(status := Running), breaks);
      (s.(control := control), Output(LoopCalls(i), LoopBroken(i), false, [Events.TurnStarted] + LoopEvents(i)))
  }

  predicate Expected(s: S, item: Item) { s.control.pending.Some? && s.control.pending.value.callId == item.callId }

  function EntryFor(call: Call, item: Item): Entry { Tool(item.callId, call.name, call.args, item.ok, item.result) }

  function Accept(s: S, item: Item): S
    requires Expected(s, item)
  {
    S(s.control.(pending := None), Fold(Push(s.conv, EntryFor(s.control.pending.value, item))))
  }

  datatype Batch = Batch(s: S, accepted: nat, threw: bool, events: seq<Events.Kind>)

  /** The batch loop over the results of one request. */
  function SubmitAll(s: S, items: seq<Item>): Batch
    decreases |items|
  {
    if items == [] then Batch(s, 0, false, [])
    else
      var item := items[0];
      if item.callId == NoId then Batch(s, 0, true, [])
      else if item.callId in s.conv.completed then SubmitAll(s, items[1..])
      else if !Expected(s, item) then Batch(s, 0, true, [])
      else
        var rest := SubmitAll(Accept(s, item), items[1..]);
        Batch(rest.s, rest.accepted + 1, rest.threw,
              Compaction(Push(s.conv, EntryFor(s.control.pending.value, item))) + rest.events)
  }

  function DoSubmit(s: S, items: seq<Item>, breaks: bool): (S, Output) {
    var b := SubmitAll(s, items);
    if b.threw then (b.s, Threw(b.events))
    else if b.accepted == 0 then (b.s, Done(b.events))
    else
      var (control, i) := Enter(b.s.control.(status := Running), breaks);
      (b.s.(control := control), Output(LoopCalls(i), LoopBroken(i), false, b.events + LoopEvents(i)))
  }

  function DoCancel(s: S): (S, Output) {
    (s.(control := s.control.(aborted := true, pending := None, status := Cancelled)),
     Done((if s.control.pending.Some? then [Events.ToolCallCancelled] else []) + [Events.Error]))
  }

  function Clamped(n: real): Limit { Rounds(if n < 1.0 then 1.0 else if n > MAX_ROUNDS then MAX_ROUNDS else n) }

  function NewLimit(current: Limit, requested: Setting, fallback: Setting): Limit {
    if requested == Text then NoNumber
    else if requested.Number? && requested.n != 0.0 then Clamped(requested.n)
    else if current.Rounds? then Clamped(current.n)
    else if fallback == Text then NoNumber
    else if fallback.Number? && fallback.n != 0.0 then Clamped(fallback.n)
    else Rounds(DEFAULT_ROUNDS)
  }

  function DoConfigure(s: S, requested: Setting, fallback: Setting): S {
    s.(control := s.control.(limit := NewLimit(s.control.limit, requested, fallback)))
  }

  function Step(s: S, r: Request): (S, Output) {
    match r
    case Start(hasContent, promptValid, breaks) => DoStart(s, hasContent, promptValid, breaks)
    case Reply(outcome, usage, breaks) => DoReply(s, outcome, usage, breaks)
    case Submit(items, breaks) => DoSubmit(s, items, breaks)
    case Cancel => DoCancel(s)
    case Interrupt => (s, Done([Events.TextDelta]))
    case Chunk => (s, Done(if s.control.advancing == InFlight then [Events.TextDelta] else []))
    case Configure(requested, fallback) => (DoConfigure(s, requested, fallback), Done([]))
  }

  /** A session just created. */
  function Fresh(requested: Setting, fallback: Setting): S {
    S(Control(Created, false, 0, NewLimit(NoNumber, requested, fallback), None, Idle), Conversation([], [], "", map[]))
  }

  // ---------- Runs ----------

  function After(s: S, run: seq<Request>, n: nat): S
    requires n <= |run|
  {
    if n == 0 then s else Step(After(s, run, n - 1), run[n - 1]).0
  }

  function CallsAt(s: S, run: seq<Request>, i: nat): nat
    requires i < |run|
  {
    Step(After(s, run, i), run[i]).1.calls
  }

  /** Brain calls started by the first n requests. */
  function CallsUpTo(s: S, run: seq<Request>, n: nat): nat
    requires n <= |run|
  {
    if n == 0 then 0 else CallsUpTo(s, run, n - 1) + CallsAt(s, run, n - 1)
  }

  /** Attempts among the first n requests that broke before their await. */
  function BrokenUpTo(s: S, run: seq<Request>, n: nat): nat
    requires n <= |run|
  {
    if n == 0 then 0 else BrokenUpTo(s, run, n - 1) + Step(After(s, run, n - 1), run[n - 1]).1.broken
  }

  /** Brain calls that ended among the first n requests. */
  function RepliesUpTo(s: S, run: seq<Request>, n: nat): nat
    requires n <= |run|
  {
    if n == 0 then 0
    else RepliesUpTo(s, run, n - 1) + Replied(After(s, run, n - 1), run[n - 1])
  }

  function Replied(s: S, r: Request): nat { if r.Reply? && s.control.advancing == InFlight then 1 else 0 }

  /** The events appended by the requests from position m up to n. */
  function EventsBetween(s: S, run: seq<Request>, m: nat, n: nat): seq<Events.Kind>
    requires m <= n <= |run|
    decreases n
  {
    if m == n then [] else EventsBetween(s, run, m, n - 1) + Step(After(s, run, n - 1), run[n - 1]).1.events
  }
}
