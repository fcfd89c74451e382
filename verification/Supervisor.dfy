/** The supervisor of one execution slice on a virtual clock: timers are pending deadlines, and time
    does not pass a pending deadline without its callback having run. */
module Supervisor {
  import opened Common
  import opened ProgressPolicy

  datatype State = Active | Warning | Cancelling
  datatype Code = NoMeaningfulProgress | TurnTimeout

  /** What the onState callback was told. */
  datatype Notice =
    | Started(at: int) | Quiet(at: int) | TurnEnding(at: int, remainingMs: int)
    | Cancelled(code: Code) | Progressed(at: int)

  /** An empty fingerprint is accepted without being remembered. */
  datatype Fingerprint = Blank | Print(text: string)

  /** The no-progress window: when it began and what is still pending of it. */
  datatype Window = Window(lastProgress: int, warningAt: Option<int>, cancelAt: Option<int>)

  datatype Turn = Turn(started: bool, warned: bool, warningAt: Option<int>, cancelAt: Option<int>)

  datatype Memory = Memory(prints: set<Fingerprint>, order: seq<Fingerprint>)

  /** What was reported so far: state notices, and cancellations handed to onCancel. */
  datatype Log = Log(notices: seq<Notice>, cancels: seq<Code>)

  datatype S = S(policy: Policy, clock: int, state: State, window: Window, turn: Turn,
                 disposed: bool, cancelled: bool, memory: Memory, log: Log)

  const MAX_PRINTS := 128
  const MAX_LEAD_MS := 10 * MINUTE_MS

  function Lead(p: Policy): int { Min(MAX_LEAD_MS, Max(1, p.turnMaxMs / 10)) }

  // ---------- What each call and callback does ----------

  function NewWindow(p: Policy, now: int): Window { Window(now, Some(now + p.warningMs), Some(now + p.cancelMs)) }

  function NewTurn(p: Policy, now: int, warned: bool): Turn {
    Turn(true, warned, Some(now + Max(0, p.turnMaxMs - Lead(p))), Some(now + p.turnMaxMs))
  }

  function Initial(policy: Policy, apiTurn: bool, now: int): S {
    S(policy, now, Active, NewWindow(policy, now),
      if apiTurn then NewTurn(policy, now, false) else Turn(false, false, None, None),
      false, false, Memory({}, []), Log([Started(now)], []))
  }

  predicate Live(s: S) { !s.cancelled && !s.disposed }

  function Say(s: S, notice: Notice): Log { s.log.(notices := s.log.notices + [notice]) }

  function Cancel(s: S, code: Code): S {
    if !Live(s) then s
    else s.(cancelled := true, state := Cancelling,
      log := Log(s.log.notices + [Cancelled(code)], s.log.cancels + [code]))
  }

  function Remember(m: Memory, p: Fingerprint): Memory {
    if p == Blank then m
    else
      var order := m.order + [p];
      if |order| > MAX_PRINTS then Memory(m.prints + {p} - {order[0]}, order[1..]) else Memory(m.prints + {p}, order)
  }

  predicate Accepts(s: S, p: Fingerprint) { Live(s) && (p == Blank || p !in s.memory.prints) }

  function DoMark(s: S, p: Fingerprint): S {
    if !Accepts(s, p) then s
    else s.(memory := Remember(s.memory, p), state := if s.turn.warned then Warning else Active,
            window := NewWindow(s.policy, s.clock), log := Say(s, Progressed(s.clock)))
  }

  predicate Waits(deadline: Option<int>, to: int) { deadline.None? || to <= deadline.value }

  predicate MayTick(s: S, to: int) {
    s.clock <= to && Waits(s.window.warningAt, to) && Waits(s.window.cancelAt, to)
    && Waits(s.turn.warningAt, to) && Waits(s.turn.cancelAt, to)
  }

  predicate Due(deadline: Option<int>, clock: int) { deadline.Some? && deadline.value <= clock }

  function DoQuietDue(s: S): S {
    if !Due(s.window.warningAt, s.clock) then s
    else
      var t := s.(window := s.window.(warningAt := None));
      if !Live(s) then t else t.(state := Warning, log := Say(s, Quiet(s.clock)))
  }

  function DoCancelDue(s: S): S {
    if !Due(s.window.cancelAt, s.clock) then s
    else Cancel(s.(window := s.window.(cancelAt := None)), NoMeaningfulProgress)
  }

  function DoTurnWarningDue(s: S): S {
    if !Due(s.turn.warningAt, s.clock) then s
    else if !Live(s) then s.(turn := s.turn.(warningAt := None))
    else s.(turn := s.turn.(warningAt := None, warned := true), state := Warning,
      log := Say(s, TurnEnding(s.clock, Lead(s.policy))))
  }

  function DoTurnCancelDue(s: S): S {
    if !Due(s.turn.cancelAt, s.clock) then s else Cancel(s.(turn := s.turn.(cancelAt := None)), TurnTimeout)
  }

  function DoStartTurn(s: S): S {
    if s.turn.started || !Live(s) then s else s.(turn := NewTurn(s.policy, s.clock, s.turn.warned))
  }

  function DoDispose(s: S): S {
    s.(disposed := true, window := s.window.(warningAt := None, cancelAt := None),
       turn := s.turn.(warningAt := None, cancelAt := None))
  }

  datatype Request =
    | Tick(to: int)
    | QuietDue | CancelDue | TurnWarningDue | TurnCancelDue
    | MarkProgress(mark: Fingerprint)
    | StartTurn
    | Dispose

  /** A callback runs only when its timer is pending and due; the clock only moves forward and
      stops at the next pending deadline. */
  function Step(s: S, r: Request): S {
    match r
    case Tick(to) => if MayTick(s, to) then s.(clock := to) else s
    case QuietDue => DoQuietDue(s)
    case CancelDue => DoCancelDue(s)
    case TurnWarningDue => DoTurnWarningDue(s)
    case TurnCancelDue => DoTurnCancelDue(s)
    case MarkProgress(p) => DoMark(s, p)
    case StartTurn => DoStartTurn(s)
    case Dispose => DoDispose(s)
  }

  class ExecutionSupervisor {
    const policy: Policy
    var clock: int
    var lastProgress: int
    var state: State
    var warningAt: Option<int>
    var cancelAt: Option<int>
    var turnWarningAt: Option<int>
    var turnCancelAt: Option<int>
    var disposed: bool
    var cancelled: bool
    var turnWarned: bool
    var turnStarted: bool
    var prints: set<Fingerprint>
    var order: seq<Fingerprint>
    var notices: seq<Notice>
    var cancels: seq<Code>

    ghost function Value(): S
      reads this
    {
      S(policy, clock, state, Window(lastProgress, warningAt, cancelAt),
        Turn(turnStarted, turnWarned, turnWarningAt, turnCancelAt),
        disposed, cancelled, Memory(prints, order), Log(notices, cancels))
    }

    constructor (policy: Policy, apiTurn: bool, now: int)
      ensures Value() == Initial(policy, apiTurn, now)
    {
      this.policy := policy;
      clock, lastProgress, state := now, now, Active;
      warningAt, cancelAt, turnWarningAt, turnCancelAt := None, None, None, None;
      disposed, cancelled, turnWarned, turnStarted := false, false, false, false;
      prints, order, notices, cancels := {}, [], [], [];
      new;
      ArmMeaningfulTimers();
      if apiTurn { StartApiActiveTurn(); }
      notices := notices + [Started(now)];
      assert notices == [Started(now)];
    }

    method ArmMeaningfulTimers()
      modifies this`warningAt, this`cancelAt
      ensures warningAt == Some(clock + policy.warningMs) && cancelAt == Some(clock + policy.cancelMs)
    {
      warningAt := Some(clock + policy.warningMs);
      cancelAt := Some(clock + policy.cancelMs);
    }

    method StartApiActiveTurn()
      modifies this`turnStarted, this`turnWarningAt, this`turnCancelAt
      ensures Value() == DoStartTurn(old(Value()))
    {
      if turnStarted || disposed || cancelled { return; }
      turnStarted := true;
      var lead := Lead(policy);
      turnWarningAt := Some(clock + Max(0, policy.turnMaxMs - lead));
      turnCancelAt := Some(clock + policy.turnMaxMs);
    }

    method CancelWith(code: Code)
      modifies this
      ensures Value() == Cancel(old(Value()), code)
    {
      if disposed || cancelled { return; }
      cancelled := true;
      state := Cancelling;
      notices := notices + [Cancelled(code)];
      cancels := cancels + [code];
    }

    method OnQuiet()
      modifies this
      ensures Value() == DoQuietDue(old(Value()))
    {
      if warningAt.None? || warningAt.value > clock { return; }
      warningAt := None;
      if disposed || cancelled { return; }
      state := Warning;
      notices := notices + [Quiet(clock)];
    }

    method OnCancelDue()
      modifies this
      ensures Value() == DoCancelDue(old(Value()))
    {
      if cancelAt.None? || cancelAt.value > clock { return; }
      cancelAt := None;
      CancelWith(NoMeaningfulProgress);
    }

    method OnTurnWarning()
      modifies this
      ensures Value() == DoTurnWarningDue(old(Value()))
    {
      if turnWarningAt.None? || turnWarningAt.value > clock { return; }
      turnWarningAt := None;
      if disposed || cancelled { return; }
      turnWarned := true;
      state := Warning;
      notices := notices + [TurnEnding(clock, Lead(policy))];
    }

    method OnTurnTimeout()
      modifies this
      ensures Value() == DoTurnCancelDue(old(Value()))
    {
      if turnCancelAt.None? || turnCancelAt.value > clock { return; }
      turnCancelAt := None;
      CancelWith(TurnTimeout);
    }

    method MarkMeaningfulProgress(mark: Fingerprint) returns (accepted: bool)
      modifies this
      ensures Value() == DoMark(old(Value()), mark) && accepted == Accepts(old(Value()), mark)
    {
      if disposed || cancelled { return false; }
      if mark != Blank && mark in prints { return false; }
      RememberPrint(mark);
      lastProgress := clock;
      state := if turnWarned then Warning else Active;
      ArmMeaningfulTimers();
      notices := notices + [Progressed(clock)];
      accepted := true;
    }

    method RememberPrint(mark: Fingerprint)
      modifies this`prints, this`order
      ensures Memory(prints, order) == Remember(old(Memory(prints, order)), mark)
    {
      if mark == Blank { return; }
      prints := prints + {mark};
      order := order + [mark];
      if |order| > MAX_PRINTS {
        prints := prints - {order[0]};
        order := order[1..];
      }
    }

    method DisposeTimers()
      modifies this
      ensures Value() == DoDispose(old(Value()))
    {
      disposed := true;
      warningAt, cancelAt, turnWarningAt, turnCancelAt := None, None, None, None;
    }
  }

  // ---------- Runs ----------

  function After(s: S, run: seq<Request>, n: nat): S
    requires n <= |run|
  {
    if n == 0 then s else Step(After(s, run, n - 1), run[n - 1])
  }

  /** The clock reading of the last accepted progress, or of the start. */
  function LastAccepted(s: S, run: seq<Request>, n: nat): int
    requires n <= |run|
  {
    if n == 0 then s.window.lastProgress
    else
      var now := After(s, run, n - 1);
      if run[n - 1].MarkProgress? && Accepts(now, run[n - 1].mark) then now.clock else LastAccepted(s, run, n - 1)
  }

  /** While the slice runs, the cancellation is exactly cancelMs after the last progress, and the
      warning of the current quiet window is either still ahead or has been given on time. */
  ghost predicate OnTime(s: S) {
    && Ordered(s.policy)
    && (Live(s) ==>
          && s.state != Cancelling && s.log.cancels == []
          && s.window.cancelAt == Some(s.window.lastProgress + s.policy.cancelMs) && s.clock <= s.window.cancelAt.value
          && (if s.window.warningAt.Some?
              then s.window.warningAt.value == s.window.lastProgress + s.policy.warningMs
                   && s.clock <= s.window.warningAt.value
              else Quiet(s.window.lastProgress + s.policy.warningMs) in s.log.notices)
          && s.turn.started == s.turn.cancelAt.Some?
          && Waits(s.turn.cancelAt, s.clock) && Waits(s.turn.warningAt, s.clock))
    && (s.cancelled ==> s.state == Cancelling && |s.log.cancels| == 1)
    && (!s.cancelled ==> s.log.cancels == [])
  }

  lemma InitialOnTime(policy: Policy, apiTurn: bool, now: int)
    requires Ordered(policy)
    ensures OnTime(Initial(policy, apiTurn, now)) && Live(Initial(policy, apiTurn, now))
    ensures TurnPaired(Initial(policy, apiTurn, now)) && TurnWarned(Initial(policy, apiTurn, now))
    ensures StateTells(Initial(policy, apiTurn, now)) && Initial(policy, apiTurn, now).log == Log([Started(now)], [])
    ensures Remembers(Initial(policy, apiTurn, now).memory, [])
  {
  }

  lemma OnTimeKept(s: S, r: Request)
    requires OnTime(s)
    ensures OnTime(Step(s, r))
  {
  }

  lemma {:induction false} OnTimeAlways(s: S, run: seq<Request>, n: nat)
    requires OnTime(s) && n <= |run|
    ensures OnTime(After(s, run, n))
  {
    if n > 0 {
      OnTimeAlways(s, run, n - 1);
      OnTimeKept(After(s, run, n - 1), run[n - 1]);
    }
  }

  lemma {:induction false} LastProgressIsLastAccepted(s: S, run: seq<Request>, n: nat)
    requires n <= |run|
    ensures After(s, run, n).window.lastProgress == LastAccepted(s, run, n)
    ensures After(s, run, n).policy == s.policy
  {
    if n > 0 {
      LastProgressIsLastAccepted(s, run, n - 1);
      ProgressStep(After(s, run, n - 1), run[n - 1]);
    }
  }

  lemma ProgressStep(s: S, r: Request)
    ensures Step(s, r).policy == s.policy
    ensures Step(s, r).window.lastProgress ==
      if r.MarkProgress? && Accepts(s, r.mark) then s.clock else s.window.lastProgress
  {
  }

  /** The no-progress deadline follows the last accepted progress, and time never passes it in a
      slice that is still running. */
  lemma QuietDeadline(s: S, run: seq<Request>, n: nat)
    requires OnTime(s) && n <= |run| && Live(After(s, run, n))
    ensures After(s, run, n).window.cancelAt == Some(LastAccepted(s, run, n) + s.policy.cancelMs)
    ensures After(s, run, n).clock <= LastAccepted(s, run, n) + s.policy.cancelMs
  {
    OnTimeAlways(s, run, n);
    LastProgressIsLastAccepted(s, run, n);
    RunningDeadline(After(s, run, n));
  }

  lemma RunningDeadline(s: S)
    requires OnTime(s) && Live(s)
    ensures s.window.cancelAt == Some(s.window.lastProgress + s.policy.cancelMs)
      && s.clock <= s.window.lastProgress + s.policy.cancelMs
  {
  }

  /** A cancellation for lack of progress comes at its deadline, and its quiet window was warned of. */
  lemma WarnedBeforeCancel(s: S, run: seq<Request>, i: nat)
    requires OnTime(s) && i < |run| && Live(After(s, run, i))
    requires After(s, run, i + 1).log.cancels == [NoMeaningfulProgress]
    ensures var last := LastAccepted(s, run, i);
      && After(s, run, i).clock == last + s.policy.cancelMs
      && Quiet(last + s.policy.warningMs) in After(s, run, i).log.notices
      && last <= last + s.policy.warningMs < After(s, run, i).clock
  {
    OnTimeAlways(s, run, i);
    LastProgressIsLastAccepted(s, run, i);
    QuietCancelStep(After(s, run, i), run[i]);
  }

  lemma QuietCancelStep(s: S, r: Request)
    requires OnTime(s) && Live(s) && Step(s, r).log.cancels == [NoMeaningfulProgress]
    ensures s.clock == s.window.lastProgress + s.policy.cancelMs && s.policy.warningMs >= 0
    ensures Quiet(s.window.lastProgress + s.policy.warningMs) in s.log.notices
  {
    assert Step(s, r).log.cancels[0] == NoMeaningfulProgress;
  }

  /** Cancellation is announced at most once and never taken back. */
  lemma {:induction false} CancelledForGood(s: S, run: seq<Request>, i: nat, j: nat)
    requires OnTime(s) && i <= j <= |run|
    ensures |After(s, run, j).log.cancels| <= 1
    ensures After(s, run, i).cancelled ==>
      After(s, run, j).state == Cancelling && After(s, run, j).cancelled
        && After(s, run, j).log.cancels == After(s, run, i).log.cancels
    decreases j
  {
    OnTimeAlways(s, run, j);
    if i < j { CancelledForGood(s, run, i, j - 1); }
  }

  ghost predicate TurnRuns(s: S, deadline: int) {
    s.turn.started && s.turn.cancelAt == Some(deadline) && s.clock <= deadline
  }

  /** A started API turn keeps its deadline whatever progress is marked, and no running slice
      outlives it. */
  lemma {:induction false} TurnIsBounded(s: S, run: seq<Request>, i: nat, j: nat, deadline: int)
    requires OnTime(s) && i <= j <= |run| && TurnRuns(After(s, run, i), deadline)
    ensures Live(After(s, run, j)) ==> TurnRuns(After(s, run, j), deadline)
    decreases j
  {
    if i < j {
      TurnIsBounded(s, run, i, j - 1, deadline);
      OnTimeAlways(s, run, j - 1);
      TurnStep(After(s, run, j - 1), run[j - 1], deadline);
    }
  }

  lemma TurnStep(s: S, r: Request, deadline: int)
    requires OnTime(s) && (Live(s) ==> TurnRuns(s, deadline))
    ensures Live(Step(s, r)) ==> TurnRuns(Step(s, r), deadline)
  {
  }

  lemma TurnDeadlineSet(s: S)
    requires Live(s) && !s.turn.started
    requires OnTime(s)
    ensures TurnRuns(Step(s, StartTurn), s.clock + s.policy.turnMaxMs)
    ensures var warning := Step(s, StartTurn).turn.warningAt;
      warning.Some? && s.clock <= warning.value <= s.clock + s.policy.turnMaxMs
  {
  }

  /** A pending turn warning stands where it was armed relative to the turn's deadline. */
  ghost predicate TurnPaired(s: S) {
    s.turn.warningAt.Some? && Live(s) ==>
      s.turn.cancelAt.Some? && s.turn.warningAt.value == s.turn.cancelAt.value - Min(s.policy.turnMaxMs, Lead(s.policy))
  }

  lemma TurnPairedKept(s: S, r: Request)
    requires OnTime(s) && TurnPaired(s)
    ensures TurnPaired(Step(s, r))
  {
  }

  lemma {:induction false} TurnPairedAlways(s: S, run: seq<Request>, n: nat)
    requires OnTime(s) && TurnPaired(s) && n <= |run|
    ensures TurnPaired(After(s, run, n))
  {
    if n > 0 {
      TurnPairedAlways(s, run, n - 1);
      OnTimeAlways(s, run, n - 1);
      TurnPairedKept(After(s, run, n - 1), run[n - 1]);
    }
  }

  /** The remaining time announced by a turn warning is the time left to the turn's deadline, except
      for a limit that was rounded to zero. */
  lemma TurnWarningIsTrueIff(s: S, run: seq<Request>, i: nat)
    requires OnTime(s) && TurnPaired(s) && i < |run| && run[i] == TurnWarningDue
    requires Live(After(s, run, i)) && Due(After(s, run, i).turn.warningAt, After(s, run, i).clock)
    ensures var now, next := After(s, run, i), After(s, run, i + 1);
      && next.log.notices == now.log.notices + [TurnEnding(now.clock, Lead(now.policy))]
      && now.turn.cancelAt.Some?
        && (now.clock + Lead(now.policy) == now.turn.cancelAt.value <==> s.policy.turnMaxMs >= 1)
  {
    OnTimeAlways(s, run, i);
    TurnPairedAlways(s, run, i);
    LastProgressIsLastAccepted(s, run, i);
    WarningNow(After(s, run, i));
  }

  /** Exactly when a resolved limit is zero. */
  lemma TurnLimitIsZeroIff(minutes: Settings, overrides: Settings)
    ensures var limit := PositiveNumber(overrides.turnMax, MinutesToMs(minutes.turnMax, DEFAULT_TURN_MS) as real);
      Resolve(minutes, overrides).turnMaxMs == 0 <==> limit < 0.5
  {
    MinutesAreNotNegative(minutes.turnMax, DEFAULT_TURN_MS);
  }

  /** A turn limit of 0.3 milliseconds: the turn is over when it starts, and one is announced to remain. */
  lemma ZeroLimitIsMisannounced(minutes: Settings, overrides: Settings, now: int)
    requires overrides.turnMax == Num(0.3)
    ensures var s := Initial(Resolve(minutes, overrides), true, now);
      s.turn.cancelAt == Some(now) && Step(s, TurnWarningDue).log.notices == [Started(now), TurnEnding(now, 1)]
  {
    TurnLimitIsZeroIff(minutes, overrides);
  }

  lemma WarningNow(s: S)
    requires OnTime(s) && TurnPaired(s) && Live(s) && Due(s.turn.warningAt, s.clock)
    ensures s.turn.cancelAt.Some? && (s.clock + Lead(s.policy) == s.turn.cancelAt.value <==> s.policy.turnMaxMs >= 1)
  {
  }

  /** A turn whose warning is no longer pending has been warned of, with the time then left. */
  ghost predicate TurnWarned(s: S) {
    Live(s) && s.turn.cancelAt.Some? && s.turn.warningAt.None? ==>
      TurnEnding(s.turn.cancelAt.value - Min(s.policy.turnMaxMs, Lead(s.policy)), Lead(s.policy)) in s.log.notices
  }

  lemma TurnWarnedKept(s: S, r: Request)
    requires OnTime(s) && TurnPaired(s) && TurnWarned(s)
    ensures TurnWarned(Step(s, r))
  {
    assert forall notice: Notice :: notice in s.log.notices ==> notice in s.log.notices + [Quiet(s.clock)];
  }

  lemma {:induction false} TurnWarnedAlways(s: S, run: seq<Request>, n: nat)
    requires OnTime(s) && TurnPaired(s) && TurnWarned(s) && n <= |run|
    ensures TurnWarned(After(s, run, n))
  {
    if n > 0 {
      TurnWarnedAlways(s, run, n - 1);
      OnTimeAlways(s, run, n - 1);
      TurnPairedAlways(s, run, n - 1);
      TurnWarnedKept(After(s, run, n - 1), run[n - 1]);
    }
  }

  /** A turn is cancelled for its limit exactly at its deadline, however much progress was marked, and
      with a limit of at least a millisecond it was warned of before. */
  lemma WarnedBeforeTimeout(s: S, run: seq<Request>, i: nat, j: nat, deadline: int)
    requires OnTime(s) && TurnPaired(s) && TurnWarned(s) && i <= j < |run|
    requires TurnRuns(After(s, run, i), deadline) && Live(After(s, run, j))
    requires After(s, run, j + 1).log.cancels == [TurnTimeout]
    ensures After(s, run, j).clock == deadline
    ensures s.policy.turnMaxMs >= 1 ==>
      TurnEnding(deadline - Lead(s.policy), Lead(s.policy)) in After(s, run, j).log.notices
  {
    OnTimeAlways(s, run, j);
    TurnPairedAlways(s, run, j);
    TurnWarnedAlways(s, run, j);
    TurnIsBounded(s, run, i, j, deadline);
    LastProgressIsLastAccepted(s, run, j);
    TimeoutStep(After(s, run, j), run[j], deadline);
  }

  lemma TimeoutStep(s: S, r: Request, deadline: int)
    requires OnTime(s) && TurnPaired(s) && TurnWarned(s) && Live(s) && TurnRuns(s, deadline)
    requires Step(s, r).log.cancels == [TurnTimeout]
    ensures s.clock == deadline
    ensures s.policy.turnMaxMs >= 1 ==> TurnEnding(deadline - Lead(s.policy), Lead(s.policy)) in s.log.notices
  {
    assert Step(s, r).log.cancels[0] == TurnTimeout;
  }

  // ---------- What each event does ----------

  /** A due timer of a running slice does its work: the warning warns, the cancellation cancels. */
  lemma DueTimersFire(s: S)
    requires Live(s)
    ensures Due(s.window.warningAt, s.clock) ==>
      Step(s, QuietDue).state == Warning && Step(s, QuietDue).log.notices == s.log.notices + [Quiet(s.clock)]
    ensures Due(s.turn.warningAt, s.clock) ==>
      Step(s, TurnWarningDue).state == Warning && Step(s, TurnWarningDue).turn.warned
    ensures Due(s.window.cancelAt, s.clock) ==> CancelledBy(s, Step(s, CancelDue), NoMeaningfulProgress)
    ensures Due(s.turn.cancelAt, s.clock) ==> CancelledBy(s, Step(s, TurnCancelDue), TurnTimeout)
  {
  }

  ghost predicate CancelledBy(s: S, t: S, code: Code) {
    t.cancelled && t.state == Cancelling && t.log.cancels == s.log.cancels + [code]
    && t.log.notices == s.log.notices + [Cancelled(code)]
  }

  /** A timer that is not pending, or not due yet, does nothing. */
  lemma EarlyTimersRest(s: S)
    ensures !Due(s.window.warningAt, s.clock) ==> Step(s, QuietDue) == s
    ensures !Due(s.window.cancelAt, s.clock) ==> Step(s, CancelDue) == s
    ensures !Due(s.turn.warningAt, s.clock) ==> Step(s, TurnWarningDue) == s
    ensures !Due(s.turn.cancelAt, s.clock) ==> Step(s, TurnCancelDue) == s
  {
  }

  /** Time reaches a later moment exactly if no pending deadline lies before it, and moves nothing else. */
  lemma TimePassesIff(s: S, to: int)
    requires to > s.clock
    ensures Step(s, Tick(to)).clock == to <==>
      forall d {:trigger Waits(d, to)} |
        d in [s.window.warningAt, s.window.cancelAt, s.turn.warningAt, s.turn.cancelAt] ::
        d.None? || to <= d.value
    ensures Step(s, Tick(to)).(clock := s.clock) == s
  {
    var deadlines := [s.window.warningAt, s.window.cancelAt, s.turn.warningAt, s.turn.cancelAt];
    assert deadlines[0] in deadlines && deadlines[1] in deadlines && deadlines[2] in deadlines
      && deadlines[3] in deadlines;
    assert forall d | d in deadlines :: Waits(d, to) <==> d.None? || to <= d.value;
  }

  /** Accepted progress opens a new window from now and is announced; a turn keeps its timers. */
  lemma ProgressIs(s: S, p: Fingerprint)
    requires Accepts(s, p)
    ensures var t := Step(s, MarkProgress(p));
      && t.window == Window(s.clock, Some(s.clock + s.policy.warningMs), Some(s.clock + s.policy.cancelMs))
      && t.log.notices == s.log.notices + [Progressed(s.clock)] && t.log.cancels == s.log.cancels
      && t.turn == s.turn && t.clock == s.clock
  {
  }

  /** Any other mark changes nothing at all. */
  lemma RefusedMarkRests(s: S, p: Fingerprint)
    requires !Accepts(s, p)
    ensures Step(s, MarkProgress(p)) == s
  {
  }

  /** A running slice is in the warning state exactly while its quiet window or its turn has been warned
      of; a turn's warning is not taken back by progress. */
  ghost predicate StateTells(s: S) {
    Live(s) ==> s.state == if s.turn.warned || s.window.warningAt.None? then Warning else Active
  }

  lemma StateTellsKept(s: S, r: Request)
    requires StateTells(s)
    ensures StateTells(Step(s, r))
    ensures s.turn.warned ==> Step(s, r).turn.warned
  {
  }

  lemma {:induction false} StateTellsAlways(s: S, run: seq<Request>, n: nat)
    requires StateTells(s) && n <= |run|
    ensures StateTells(After(s, run, n))
  {
    if n > 0 {
      StateTellsAlways(s, run, n - 1);
      StateTellsKept(After(s, run, n - 1), run[n - 1]);
    }
  }

  /** A disposed slice reports nothing, cancels nothing and accepts nothing, ever. */
  lemma {:induction false} DisposedIsSilent(s: S, run: seq<Request>, i: nat, j: nat)
    requires i < j <= |run| && run[i] == Dispose
    ensures After(s, run, j).disposed && After(s, run, j).log == After(s, run, i).log
    ensures After(s, run, j).cancelled == After(s, run, i).cancelled
      && After(s, run, j).memory == After(s, run, i).memory
    decreases j
  {
    if i + 1 < j {
      DisposedIsSilent(s, run, i, j - 1);
      DisposedStep(After(s, run, j - 1), run[j - 1]);
    }
  }

  /** Disposal leaves no timer pending. */
  lemma DisposeClears(s: S)
    ensures var t := Step(s, Dispose);
      && t.window.warningAt.None? && t.window.cancelAt.None? && t.turn.warningAt.None? && t.turn.cancelAt.None?
      && t.state == s.state && t.clock == s.clock
  {
  }

  lemma DisposedStep(s: S, r: Request)
    requires s.disposed
    ensures Step(s, r).disposed && Step(s, r).log == s.log && Step(s, r).cancelled == s.cancelled
      && Step(s, r).memory == s.memory
  {
  }

  /** A turn starts once: a second start changes nothing. */
  lemma TurnStartsOnce(s: S)
    ensures Live(s) ==> Step(s, StartTurn).turn.started
    ensures s.turn.started ==> Step(s, StartTurn) == s
  {
  }

  /** The turn's warning leads its deadline by a tenth of the limit, at least a millisecond and at most ten
      minutes. */
  lemma LeadIs(p: Policy)
    requires p.turnMaxMs >= 0
    ensures 10 <= p.turnMaxMs <= 6000000 ==> 10 * Lead(p) <= p.turnMaxMs < 10 * Lead(p) + 10
    ensures p.turnMaxMs < 10 ==> Lead(p) == 1
    ensures p.turnMaxMs >= 6000000 ==> Lead(p) == 600000
  {
  }

  // ---------- Fingerprints ----------

  /** The nonblank fingerprints accepted among the first n requests, in order. */
  ghost function AcceptedPrints(s: S, run: seq<Request>, n: nat): seq<Fingerprint>
    requires n <= |run|
  {
    if n == 0 then []
    else
      var earlier := AcceptedPrints(s, run, n - 1);
      var now, r := After(s, run, n - 1), run[n - 1];
      if r.MarkProgress? && r.mark != Blank && Accepts(now, r.mark) then earlier + [r.mark] else earlier
  }

  ghost predicate NoRepeats(s: seq<Fingerprint>) { forall i, j | 0 <= i < j < |s| :: s[i] != s[j] }

  ghost predicate Remembers(m: Memory, accepted: seq<Fingerprint>) {
    m.order == LastOf(accepted, MAX_PRINTS) && NoRepeats(m.order) && m.prints == set p | p in m.order
  }

  lemma RememberKept(m: Memory, accepted: seq<Fingerprint>, p: Fingerprint)
    requires Remembers(m, accepted) && p != Blank && p !in m.prints
    ensures Remembers(Remember(m, p), accepted + [p])
  {
    var order := m.order + [p];
    assert NoRepeats(order);
    assert forall q :: q in order <==> q in m.prints || q == p;
    assert order == LastOf(accepted, MAX_PRINTS) + [p];
    if |order| > MAX_PRINTS {
      assert order == [order[0]] + order[1..] && order[0] !in order[1..];
      assert forall q :: q in order[1..] <==> q in order && q != order[0];
      assert order[1..] == LastOf(accepted + [p], MAX_PRINTS);
    }
  }

  lemma MemoryStep(s: S, r: Request)
    ensures Step(s, r).memory == if r.MarkProgress? && Accepts(s, r.mark) then Remember(s.memory, r.mark) else s.memory
  {
  }

  /** So progress is accepted exactly while the slice runs, and not if it repeats one of the last 128. */
  lemma AcceptedIff(s: S, run: seq<Request>, n: nat, p: Fingerprint)
    requires n <= |run| && Remembers(s.memory, [])
    ensures Accepts(After(s, run, n), p) <==>
      && !After(s, run, n).cancelled && !After(s, run, n).disposed
      && (p == Blank || p !in LastOf(AcceptedPrints(s, run, n), 128))
  {
    RemembersLast(s, run, n);
  }

  /** The remembered set is exactly the last 128 accepted fingerprints, and they are all different. */
  lemma {:induction false} RemembersLast(s: S, run: seq<Request>, n: nat)
    requires n <= |run| && Remembers(s.memory, [])
    ensures Remembers(After(s, run, n).memory, AcceptedPrints(s, run, n))
  {
    if n > 0 {
      RemembersLast(s, run, n - 1);
      var now, r := After(s, run, n - 1), run[n - 1];
      MemoryStep(now, r);
      if r.MarkProgress? && r.mark != Blank && Accepts(now, r.mark) {
        RememberKept(now.memory, AcceptedPrints(s, run, n - 1), r.mark);
      }
    }
  }
}
