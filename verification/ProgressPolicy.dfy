/** Resolving the progress policy: configured minutes and overriding milliseconds, rounded. */
module ProgressPolicy {
  import opened Common

  /** A configuration value as a number; anything absent, unparsable or infinite is NotFinite. */
  datatype Number = NotFinite | Num(value: real)

  datatype Policy = Policy(warningMs: int, cancelMs: int, turnMaxMs: int, verifyMs: int)

  datatype Settings = Settings(warning: Number, cancel: Number, turnMax: Number, verify: Number)

  const MINUTE_MS := 60000
  const DEFAULT_WARNING_MS := 10 * MINUTE_MS
  const DEFAULT_CANCEL_MS := 60 * MINUTE_MS
  const DEFAULT_TURN_MS := 8 * 60 * MINUTE_MS
  const DEFAULT_VERIFY_MS := 15000

  function Round(x: real): int { (x + 0.5).Floor }

  function PositiveNumber(v: Number, fallback: real): real { if v.Num? && v.value > 0.0 then v.value else fallback }

  function MinutesToMs(v: Number, fallbackMs: int): int {
    Round(PositiveNumber(v, fallbackMs as real / MINUTE_MS as real) * MINUTE_MS as real)
  }

  function MaxReal(a: real, b: real): real { if a < b then b else a }

  function Resolve(minutes: Settings, overrides: Settings): Policy {
    var warning := PositiveNumber(overrides.warning, MinutesToMs(minutes.warning, DEFAULT_WARNING_MS) as real);
    var requested := PositiveNumber(overrides.cancel, MinutesToMs(minutes.cancel, DEFAULT_CANCEL_MS) as real);
    var cancel := MaxReal(warning + 1.0, requested);
    Policy(
      Round(warning), Round(cancel),
      Round(PositiveNumber(overrides.turnMax, MinutesToMs(minutes.turnMax, DEFAULT_TURN_MS) as real)),
      Round(PositiveNumber(overrides.verify,
        PositiveNumber(minutes.verify, DEFAULT_VERIFY_MS as real / 1000.0) * 1000.0)))
  }

  /** What the supervisor relies on. */
  predicate Ordered(p: Policy) { 0 <= p.warningMs < p.cancelMs && 0 <= p.turnMaxMs }

  lemma MinutesAreNotNegative(v: Number, fallbackMs: int)
    requires fallbackMs >= 0
    ensures MinutesToMs(v, fallbackMs) >= 0
  {
  }

  /** Rounding never closes the gap between the warning and the cancellation, however the two were
      configured; the warning itself may round to zero. */
  lemma ResolvedIsOrdered(minutes: Settings, overrides: Settings)
    ensures Ordered(Resolve(minutes, overrides))
  {
    MinutesAreNotNegative(minutes.warning, DEFAULT_WARNING_MS);
    MinutesAreNotNegative(minutes.turnMax, DEFAULT_TURN_MS);
    var warning := PositiveNumber(overrides.warning, MinutesToMs(minutes.warning, DEFAULT_WARNING_MS) as real);
    assert warning >= 0.0;
    RoundKeepsGap(warning, MaxReal(warning + 1.0,
      PositiveNumber(overrides.cancel, MinutesToMs(minutes.cancel, DEFAULT_CANCEL_MS) as real)));
  }

  lemma RoundKeepsGap(x: real, y: real)
    requires x + 1.0 <= y
    ensures Round(x) + 1 <= Round(y)
  {
    assert (x + 0.5).Floor as real + 1.0 <= y + 0.5;
  }

  // ---------- Which setting is followed ----------

  predicate Positive(v: Number) { v.Num? && v.value > 0.0 }

  /** Rounding goes to the nearest integer, halves up. */
  lemma RoundIsNearest(x: real, n: int)
    ensures Round(x) == n <==> n as real - 0.5 <= x < n as real + 0.5
  {
  }

  /** The warning follows its override, else the configured minutes, else ten minutes. */
  lemma WarningFollows(minutes: Settings, overrides: Settings)
    ensures var ms := Resolve(minutes, overrides).warningMs;
      && (Positive(overrides.warning) ==> ms == Round(overrides.warning.value))
      && (!Positive(overrides.warning) && Positive(minutes.warning) ==> ms == Round(minutes.warning.value * 60000.0))
      && (!Positive(overrides.warning) && !Positive(minutes.warning) ==> ms == 600000)
  {
    Whole(MinutesToMs(minutes.warning, DEFAULT_WARNING_MS));
  }

  lemma Whole(n: int)
    ensures Round(n as real) == n
  {
  }

  /** What the cancellation is asked to be: its override, else its minutes, else an hour. */
  ghost predicate CancelAsked(minutes: Settings, overrides: Settings, ms: real) {
    if Positive(overrides.cancel) then ms == overrides.cancel.value
    else if Positive(minutes.cancel) then ms == Round(minutes.cancel.value * 60000.0) as real
    else ms == 3600000.0
  }

  /** What the warning is before it is rounded. */
  ghost predicate WarningAsked(minutes: Settings, overrides: Settings, ms: real) {
    if Positive(overrides.warning) then ms == overrides.warning.value
    else if Positive(minutes.warning) then ms == Round(minutes.warning.value * 60000.0) as real
    else ms == 600000.0
  }

  /** The cancellation is what was asked for if that leaves the warning a millisecond, and otherwise comes
      a millisecond after the warning. */
  lemma CancelFollows(minutes: Settings, overrides: Settings, warning: real, cancel: real)
    requires WarningAsked(minutes, overrides, warning) && CancelAsked(minutes, overrides, cancel)
    ensures var p := Resolve(minutes, overrides);
      p.cancelMs == if warning + 1.0 <= cancel then Round(cancel) else p.warningMs + 1
  {
    WarningFollows(minutes, overrides);
    RoundUpOne(warning);
    Whole(MinutesToMs(minutes.cancel, DEFAULT_CANCEL_MS));
  }

  lemma RoundUpOne(x: real)
    ensures Round(x + 1.0) == Round(x) + 1
  {
    RoundIsNearest(x, Round(x));
    RoundIsNearest(x + 1.0, Round(x) + 1);
  }

  /** The turn limit follows its override, else its minutes, else eight hours; the time to verify a
      termination its override, else the configured seconds, else fifteen. */
  lemma LimitsFollow(minutes: Settings, overrides: Settings)
    ensures var p := Resolve(minutes, overrides);
      && (Positive(overrides.turnMax) ==> p.turnMaxMs == Round(overrides.turnMax.value))
      && (!Positive(overrides.turnMax) && Positive(minutes.turnMax) ==>
            p.turnMaxMs == Round(minutes.turnMax.value * 60000.0))
      && (!Positive(overrides.turnMax) && !Positive(minutes.turnMax) ==> p.turnMaxMs == 28800000)
      && (Positive(overrides.verify) ==> p.verifyMs == Round(overrides.verify.value))
      && (!Positive(overrides.verify) && Positive(minutes.verify) ==>
        p.verifyMs == Round(minutes.verify.value * 1000.0))
      && (!Positive(overrides.verify) && !Positive(minutes.verify) ==> p.verifyMs == 15000)
  {
    Whole(MinutesToMs(minutes.turnMax, DEFAULT_TURN_MS));
  }
}
