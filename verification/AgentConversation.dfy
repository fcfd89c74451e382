/** What an agent session remembers: the full history, the recent steps, and the folded summary. */
module AgentConversation {
  import opened Common

  /** A tool result, or the note of a reply that was no usable action. */
  datatype Entry =
    | Tool(callId: Id, name: string, args: string, ok: bool, result: string)
    | Fault(error: string, raw: string)

  datatype Conversation = Conversation(
    history: seq<Entry>, recent: seq<Entry>, summary: string, completed: map<Id, Entry>)

  const KEEP_RECENT := 6
  const MAX_SUMMARY := 6000
  const OMITTED := "...(older context omitted)...\n"

  function Digits(n: nat): string {
    (if n < 10 then "" else Digits(n / 10)) + ["0123456789"[n % 10]]
  }

  function Compact(text: string, limit: nat): string {
    if |text| > limit then text[..limit] + "...(truncated " + Digits(|text| - limit) + " chars)" else text
  }

  function Or(a: string, b: string): string { if a != "" then a else b }

  function Line(s: Entry): string {
    match s
    case Tool(_, name, args, ok, result) =>
      "\n- " + Or(name, "action") + " " + Compact(args, 300) + ": " + (if ok then "ok" else "failed") + " " +
        Compact(result, 500)
    case Fault(error, raw) =>
      "\n- protocol_error {}: failed " + Compact(Or(raw, error), 500)
  }

  /** The summary after folding all but the last six recent steps into it. */
  function Folded(recent: seq<Entry>, summary: string): string {
    if |recent| <= KEEP_RECENT then summary else Folded(recent[1..], summary + Line(recent[0]))
  }

  predicate TooLong(c: Conversation) { |Folded(c.recent, c.summary)| > MAX_SUMMARY }

  function Shorten(summary: string): string {
    if |summary| > MAX_SUMMARY then OMITTED + summary[|summary| - MAX_SUMMARY..] else summary
  }

  function Fold(c: Conversation): Conversation {
    c.(recent := LastOf(c.recent, KEEP_RECENT), summary := Shorten(Folded(c.recent, c.summary)))
  }

  function Push(c: Conversation, s: Entry): Conversation {
    c.(history := c.history + [s], recent := c.recent + [s],
       completed := if s.Tool? then c.completed[s.callId := s] else c.completed)
  }

  /** Both the recent steps and the summary stay bounded, whatever is folded into them. */
  ghost predicate Bounded(c: Conversation) {
    c.recent == LastOf(c.history, KEEP_RECENT) && |c.summary| <= |OMITTED| + MAX_SUMMARY
  }

  /** The tool results in the history are exactly the completed calls, each of them once. */
  ghost predicate OncePerCall(c: Conversation) {
    && (forall i | 0 <= i < |c.history| && c.history[i].Tool? ::
          c.history[i].callId in c.completed && c.completed[c.history[i].callId] == c.history[i])
    && (forall i, j | 0 <= i < j < |c.history| && c.history[i].Tool? && c.history[j].Tool? ::
          c.history[i].callId != c.history[j].callId)
    && (forall id | id in c.completed ::
      c.completed[id].Tool? && c.completed[id].callId == id && c.completed[id] in c.history)
  }

  lemma RecordKeepsBounds(c: Conversation, s: Entry)
    requires Bounded(c)
    ensures Bounded(Fold(Push(c, s)))
  {
    assert LastOf(c.recent + [s], KEEP_RECENT) == LastOf(c.history + [s], KEEP_RECENT);
  }

  lemma RecordKeepsOnce(c: Conversation, s: Entry)
    requires OncePerCall(c) && (s.Tool? ==> s.callId !in c.completed)
    ensures OncePerCall(Fold(Push(c, s)))
  {
    assert forall x | x in c.history :: x in c.history + [s];
  }

  /** The loop that folds: one step at a time off the front. */
  method FoldSummary(recent0: seq<Entry>, summary0: string)
    returns (recent: seq<Entry>, summary: string, compacted: bool)
    ensures recent == LastOf(recent0, KEEP_RECENT)
    ensures summary == Shorten(Folded(recent0, summary0)) && compacted == (|Folded(recent0, summary0)| > MAX_SUMMARY)
  {
    recent, summary := recent0, summary0;
    while |recent| > KEEP_RECENT
      invariant Folded(recent, summary) == Folded(recent0, summary0)
      invariant LastOf(recent, KEEP_RECENT) == LastOf(recent0, KEEP_RECENT)
      decreases |recent|
    {
      summary, recent := FoldOne(recent, summary);
    }
    compacted := |summary| > MAX_SUMMARY;
    summary := Shorten(summary);
  }

  method FoldOne(recent: seq<Entry>, summary: string) returns (summary': string, recent': seq<Entry>)
    requires |recent| > KEEP_RECENT
    ensures |recent'| < |recent| && LastOf(recent', KEEP_RECENT) == LastOf(recent, KEEP_RECENT)
    ensures Folded(recent', summary') == Folded(recent, summary)
  {
    summary', recent' := summary + Line(recent[0]), recent[1..];
    LastOfTail(recent, KEEP_RECENT);
  }

  lemma LastOfTail(s: seq<Entry>, k: nat)
    requires |s| > k
    ensures LastOf(s[1..], k) == LastOf(s, k)
  {
    assert s[1..][|s| - 1 - k..] == s[|s| - k..];
  }
}
