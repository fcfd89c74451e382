/** Merging replicated sync rows: live rows compete by a lexicographic version, deletions by their
    replication stamp alone. */
module SyncMerge {
  import opened Common

  /** A time column: empty, or milliseconds since the epoch (negative before 1970). */
  datatype Time = Blank | At(ms: int)

  function Ms(t: Time): int { if t.Blank? then 0 else t.ms }

  datatype Row = Row(source: Time, target: Time, lastSynced: Time, updated: Time, replicatedAt: int, payload: string)

  /** `explicit` tells that a live row carries its replication stamp under the name that the comparison
      reads first; it is then compared as it is, even if it is zero. */
  datatype Incoming = Live(row: Row, explicit: bool) | Deleted(row: Row)

  /** What the two tables hold for one key. */
  datatype Entry = Entry(live: Option<Row>, tomb: Option<int>)

  const EMPTY := Entry(None, None)

  function Authority(r: Row): int { Max(Ms(r.source), Ms(r.target)) }

  function Change(r: Row): int { Max(Ms(r.lastSynced), Ms(r.updated)) }

  function Version(r: Row): int { Max(Max(Authority(r), Change(r)), r.replicatedAt) }

  function Compare(a: Row, b: Row): int {
    if Authority(a) != Authority(b) then Authority(a) - Authority(b)
    else if Change(a) != Change(b) then Change(a) - Change(b)
    else a.replicatedAt - b.replicatedAt
  }

  function StampOf(r: Row, now: int): int {
    if r.replicatedAt != 0 then r.replicatedAt else if Version(r) != 0 then Version(r) else now
  }

  function AsCompared(r: Row, explicit: bool, stamp: int): Row { if explicit then r else r.(replicatedAt := stamp) }

  /** The row an upsert leaves behind: an empty target time keeps the stored one. */
  function Upserted(cur: Option<Row>, r: Row, stamp: int): Row {
    r.(target := if r.target.Blank? && cur.Some? then cur.value.target else r.target,
       updated := if r.updated.Blank? then At(stamp) else r.updated,
       replicatedAt := stamp)
  }

  function Merge(e: Entry, incoming: Incoming, now: int): Entry {
    var stamp := StampOf(incoming.row, now);
    match incoming
    case Live(r, explicit) =>
      if e.tomb.Some? && e.tomb.value >= stamp then e
      else if e.live.Some? && Compare(e.live.value, AsCompared(r, explicit, stamp)) >= 0 then e
      else Entry(Some(Upserted(e.live, r, stamp)), None)
    case Deleted(_) =>
      if e.tomb.Some? && e.tomb.value >= stamp then e
      else if e.live.Some? && e.live.value.replicatedAt > stamp then e
      else Entry(None, Some(stamp))
  }

  class Store {
    var states: map<Id, Row>
    var tombs: map<Id, int>

    ghost function At(key: Id): Entry
      reads this
    {
      Entry(if key in states then Some(states[key]) else None, if key in tombs then Some(tombs[key]) else None)
    }

    method MergeRow(key: Id, incoming: Incoming, now: int)
      modifies this
      ensures key != NoId ==> At(key) == Merge(old(At(key)), incoming, now)
      ensures forall other | other != key || key == NoId :: At(other) == old(At(other))
    {
      if key == NoId { return; }
      var stamp := StampOf(incoming.row, now);
      if incoming.Deleted? {
        MergeTombstone(key, stamp);
        return;
      }
      if key in tombs && tombs[key] >= stamp { return; }
      var cur := if key in states then Some(states[key]) else None;
      if cur.Some? && Compare(cur.value, AsCompared(incoming.row, incoming.explicit, stamp)) >= 0 { return; }
      states := states[key := Upserted(cur, incoming.row, stamp)];
      tombs := tombs - {key};
    }

    method MergeTombstone(key: Id, stamp: int)
      modifies this
      ensures At(key) == if (old(At(key)).tomb.Some? && old(At(key)).tomb.value >= stamp)
                            || (old(At(key)).live.Some? && old(At(key)).live.value.replicatedAt > stamp)
                         then old(At(key)) else Entry(None, Some(stamp))
      ensures forall other | other != key :: At(other) == old(At(other))
    {
      if key in tombs && tombs[key] >= stamp { return; }
      if key in states && states[key].replicatedAt > stamp { return; }
      states := states - {key};
      if key !in tombs || stamp > tombs[key] { tombs := tombs[key := stamp]; }
    }
  }

  // ---------- What one merge does ----------

  /** The stamp a row goes by: its own, else the latest of its times, else the clock. */
  lemma StampIs(r: Row, now: int)
    ensures r.replicatedAt != 0 ==> StampOf(r, now) == r.replicatedAt
    ensures r.replicatedAt == 0 && Version(r) == 0 ==> StampOf(r, now) == now
    ensures r.replicatedAt == 0 && Version(r) != 0 ==> IsLatestTime(StampOf(r, now), r)
  {
  }

  /** The greatest of the four times and the stamp. */
  ghost predicate IsLatestTime(v: int, r: Row) {
    var times := {Ms(r.source), Ms(r.target), Ms(r.lastSynced), Ms(r.updated), r.replicatedAt};
    v in times && forall t | t in times :: t <= v
  }

  /** Rows are compared by the later of source and target time, then by the later of synchronization and
      update time, then by stamp. */
  lemma ComparesLexically(a: Row, b: Row)
    ensures Compare(a, b) > 0 <==>
      || Later(a.source, a.target) > Later(b.source, b.target)
      || (Later(a.source, a.target) == Later(b.source, b.target)
          && (Later(a.lastSynced, a.updated) > Later(b.lastSynced, b.updated)
              || (Later(a.lastSynced, a.updated) == Later(b.lastSynced, b.updated) && a.replicatedAt > b.replicatedAt)))
    ensures Compare(a, b) < 0 <==> Compare(b, a) > 0
  {
  }

  ghost function Later(a: Time, b: Time): (ms: int)
    ensures ms >= Ms(a) && ms >= Ms(b) && (ms == Ms(a) || ms == Ms(b))
  {
    if Ms(a) < Ms(b) then Ms(b) else Ms(a)
  }

  /** A live row is taken over exactly if no tombstone is as new and the stored row compares less. It
      then replaces the tombstone, and the stored row with all its content; an empty target time keeps the
      stored one, an empty update time becomes the stamp. */
  lemma LiveTakenIff(e: Entry, r: Row, explicit: bool, now: int)
    ensures var e', stamp := Merge(e, Live(r, explicit), now), StampOf(r, now);
      var taken :=
        && (e.tomb.None? || e.tomb.value < stamp)
        && (e.live.None? || Compare(e.live.value, if explicit then r else r.(replicatedAt := stamp)) < 0);
      && (!taken ==> e' == e)
      && (taken ==> e'.tomb.None? && e'.live.Some?)
      && (taken ==> e'.live.value.replicatedAt == stamp && e'.live.value.payload == r.payload)
      && (taken ==> e'.live.value.source == r.source && e'.live.value.lastSynced == r.lastSynced)
      && (taken && r.target.Blank? && e.live.Some? ==> e'.live.value.target == e.live.value.target)
      && (taken && (!r.target.Blank? || e.live.None?) ==> e'.live.value.target == r.target)
      && (taken ==> e'.live.value.updated == (if r.updated.Blank? then At(stamp) else r.updated))
  {
  }

  /** A deletion is taken over exactly if no tombstone is as new and no live row newer. */
  lemma DeletionTakenIff(e: Entry, r: Row, now: int)
    ensures var e', stamp := Merge(e, Deleted(r), now), StampOf(r, now);
      var taken := (e.tomb.None? || e.tomb.value < stamp) && (e.live.None? || e.live.value.replicatedAt <= stamp);
      e' == if taken then Entry(None, Some(stamp)) else e
  {
  }

  // ---------- Keeping an old target time ----------

  /** Exactly when keeping the stored target time leaves the incoming version alone: always, unless
      the source time lies before 1970 and the kept one is not the epoch itself. */
  lemma KeptTargetVersionIff(cur: Row, r: Row, stamp: int)
    requires r.target.Blank? && !r.updated.Blank? && Compare(cur, r.(replicatedAt := stamp)) < 0
    ensures Compare(Upserted(Some(cur), r, stamp), r.(replicatedAt := stamp)) == 0
      <==> (Ms(r.source) >= 0 || Ms(cur.target) == 0)
  {
  }

  /** Such a row, five milliseconds before 1970, is stored under an earlier version than it was sent with. */
  lemma OldSourceShiftsVersion()
    ensures var cur := Row(Blank, At(-3), Blank, At(1), 1, "");
      var r := Row(At(-5), Blank, Blank, At(2), 2, "");
      && Compare(cur, r) < 0 && Compare(Upserted(Some(cur), r, 2), r) < 0
      && Merge(Entry(Some(cur), None), Live(r, true), 0) == Entry(Some(Upserted(Some(cur), r, 2)), None)
  {
  }

  // ---------- Runs of merges ----------

  ghost function MergeAll(events: seq<Incoming>): Entry {
    if events == [] then EMPTY else Merge(MergeAll(events[..|events| - 1]), events[|events| - 1], 0)
  }

  /** No key ever has both a live row and a tombstone. */
  lemma {:induction false} NeverBoth(e: Entry, incoming: Incoming, now: int)
    requires e.live.None? || e.tomb.None?
    ensures Merge(e, incoming, now).live.None? || Merge(e, incoming, now).tomb.None?
  {
  }

  /** What another node's export looks like: a positive stamp, a filled update time, no source time
      before 1970. */
  ghost predicate Exported(x: Incoming) {
    x.row.replicatedAt > 0 && (x.Live? ==> !x.row.updated.Blank? && Ms(x.row.source) >= 0)
  }

  /** Of two live rows neither is the greater version with the smaller stamp. */
  ghost predicate Agree(a: Incoming, b: Incoming) {
    a.Live? && b.Live? && Compare(a.row, b.row) > 0 ==> a.row.replicatedAt >= b.row.replicatedAt
  }

  ghost predicate AllAgree(events: seq<Incoming>) {
    && (forall x | x in events :: Exported(x))
    && (forall x, y | x in events && y in events :: Agree(x, y))
  }

  datatype Outcome = Nothing | LiveAt(stamp: int) | DeadAt(stamp: int)

  ghost function OutcomeOf(e: Entry): Outcome {
    if e.live.Some? then LiveAt(e.live.value.replicatedAt) else if e.tomb.Some? then DeadAt(e.tomb.value) else Nothing
  }

  /** The greatest stamp wins, and among equals a deletion does. Order and repetition do not enter. */
  ghost predicate Wins(events: seq<Incoming>, o: Outcome) {
    match o
    case Nothing => events == []
    case LiveAt(s) =>
      && (exists x :: x in events && x.Live? && x.row.replicatedAt == s)
      && (forall x | x in events :: x.row.replicatedAt <= s && (x.Deleted? ==> x.row.replicatedAt < s))
    case DeadAt(s) =>
      && (exists x :: x in events && x.Deleted? && x.row.replicatedAt == s)
      && (forall x | x in events :: x.row.replicatedAt <= s)
  }

  /** This row is the one that was sent: its version and its content; its target time too, unless the
      sender left that to the receiver. */
  ghost predicate IsFrom(row: Row, sent: Row) {
    && Compare(row, sent) == 0 && row.replicatedAt == sent.replicatedAt
    && row.payload == sent.payload && row.source == sent.source
    && row.lastSynced == sent.lastSynced && row.updated == sent.updated
    && (!sent.target.Blank? ==> row.target == sent.target)
  }

  /** The stored row is one of the merged rows. */
  ghost predicate Represents(e: Entry, events: seq<Incoming>) {
    && (e.live.None? || e.tomb.None?)
    && (e.live.Some? ==> exists x :: x in events && x.Live? && IsFrom(e.live.value, x.row))
  }

  lemma MergeStep(e: Entry, events: seq<Incoming>, y: Incoming)
    requires AllAgree(events + [y]) && Represents(e, events) && Wins(events, OutcomeOf(e))
    ensures var e' := Merge(e, y, 0); Represents(e', events + [y]) && Wins(events + [y], OutcomeOf(e'))
  {
    var e' := Merge(e, y, 0);
    var more := events + [y];
    assert y in more && more[..|events|] == events;
    assert forall x | x in events :: x in more;
    if e.live.Some? {
      var a :| a in events && a.Live? && IsFrom(e.live.value, a.row);
      assert Agree(a, y) && Agree(y, a);
    }
    if e' != e && y.Live? {
      if e.live.Some? && y.row.target.Blank? { KeptTargetVersionIff(e.live.value, y.row, y.row.replicatedAt); }
      assert IsFrom(e'.live.value, y.row);
    }
  }

  lemma {:induction false} MergedIsWinner(events: seq<Incoming>)
    requires AllAgree(events)
    ensures Represents(MergeAll(events), events) && Wins(events, OutcomeOf(MergeAll(events)))
  {
    if events != [] {
      var n := |events| - 1;
      assert events == events[..n] + [events[n]];
      assert forall x | x in events[..n] :: x in events;
      MergedIsWinner(events[..n]);
      MergeStep(MergeAll(events[..n]), events[..n], events[n]);
    }
  }

  lemma WinnerIsUnique(a: seq<Incoming>, b: seq<Incoming>, o: Outcome, p: Outcome)
    requires (forall x :: x in a <==> x in b) && Wins(a, o) && Wins(b, p)
    ensures o == p
  {
    if |a| > 0 { assert a[0] in a; }
    if |b| > 0 { assert b[0] in b; }
  }

  /** Replicas that have seen the same exports, in any order and any number of times, agree on
      whether the item lives and on its stamp. */
  lemma Converges(a: seq<Incoming>, b: seq<Incoming>)
    requires AllAgree(a) && forall x :: x in a <==> x in b
    ensures OutcomeOf(MergeAll(a)) == OutcomeOf(MergeAll(b))
  {
    MergedIsWinner(a);
    MergedIsWinner(b);
    WinnerIsUnique(a, b, OutcomeOf(MergeAll(a)), OutcomeOf(MergeAll(b)));
  }

  /** Any two live rows that do not agree diverge: with a deletion stamped as the greater version, the
      order of arrival decides whether the item lives. */
  lemma DisagreeingRowsDiverge(a: Incoming, b: Incoming)
    requires Exported(a) && Exported(b) && !Agree(a, b)
    ensures var t := DeletionAt(a.row.replicatedAt);
      && Exported(t)
      && OutcomeOf(MergeAll([a, b, t])) == DeadAt(a.row.replicatedAt)
      && OutcomeOf(MergeAll([b, t, a])) == LiveAt(a.row.replicatedAt)
  {
    var t := DeletionAt(a.row.replicatedAt);
    Unfold3(a, b, t);
    Unfold3(b, t, a);
    LiveAlone(a);
    LiveAlone(b);
    Antisymmetric(a.row, b.row);
  }

  function DeletionAt(stamp: int): Incoming { Deleted(Row(Blank, Blank, Blank, Blank, stamp, "")) }

  lemma Antisymmetric(a: Row, b: Row)
    ensures Compare(a, b) == -Compare(b, a)
  {
  }

  lemma LiveAlone(x: Incoming)
    requires Exported(x) && x.Live?
    ensures Merge(EMPTY, x, 0) == Entry(Some(x.row), None)
  {
  }

  /** The exports over some live rows: any of these, and any deletions. */
  ghost predicate ExportsOver(lives: seq<Incoming>, events: seq<Incoming>) {
    forall x | x in events :: Exported(x) && (x.Live? ==> x in lives)
  }

  ghost predicate SameExports(a: seq<Incoming>, b: seq<Incoming>) { forall x :: x in a <==> x in b }

  /** Replicas that received the same exports over these rows agree, in whatever order they came. */
  ghost predicate AlwaysConverges(lives: seq<Incoming>) {
    forall a, b | ExportsOver(lives, a) && SameExports(a, b) :: OutcomeOf(MergeAll(a)) == OutcomeOf(MergeAll(b))
  }

  ghost predicate Uncrossed(lives: seq<Incoming>) { forall a, b | a in lives && b in lives :: Agree(a, b) }

  /** Replicas always converge exactly if no two of the live rows disagree. */
  lemma ConvergesIff(lives: seq<Incoming>)
    requires forall x | x in lives :: x.Live? && Exported(x)
    ensures AlwaysConverges(lives) <==> Uncrossed(lives)
  {
    if Uncrossed(lives) {
      forall a, b | ExportsOver(lives, a) && SameExports(a, b)
        ensures OutcomeOf(MergeAll(a)) == OutcomeOf(MergeAll(b))
      {
        assert forall x, y | x in a && y in a :: Agree(x, y);
        Converges(a, b);
      }
    } else {
      var a, b :| a in lives && b in lives && !Agree(a, b);
      var t := DeletionAt(a.row.replicatedAt);
      DisagreeingRowsDiverge(a, b);
      assert ExportsOver(lives, [a, b, t]) && SameExports([a, b, t], [b, t, a]);
      assert DeadAt(a.row.replicatedAt) != LiveAt(a.row.replicatedAt);
    }
  }

  /** Exactly when an explicit zero stamp changes what a merge does: the stored row equals the incoming
      one in authority and change, and its stamp lies below the one the incoming row would get. */
  lemma ExplicitZeroMattersIff(e: Entry, r: Row, now: int)
    requires r.replicatedAt == 0 && now > 0
    ensures Merge(e, Live(r, true), now) != Merge(e, Live(r, false), now) <==>
      && (e.tomb.None? || e.tomb.value < StampOf(r, now)) && e.live.Some?
      && Authority(e.live.value) == Authority(r) && Change(e.live.value) == Change(r)
      && 0 <= e.live.value.replicatedAt < StampOf(r, now)
  {
  }

  /** It then keeps the stored row, which the incoming one would replace otherwise. */
  lemma ExplicitZeroIsCompared(cur: Row, r: Row, now: int)
    requires r.replicatedAt == 0 && Authority(cur) == Authority(r) && Change(cur) == Change(r)
    requires 0 <= cur.replicatedAt < StampOf(r, now)
    ensures Merge(Entry(Some(cur), None), Live(r, true), now) == Entry(Some(cur), None)
    ensures Merge(Entry(Some(cur), None), Live(r, false), now) != Entry(Some(cur), None)
  {
  }

  lemma Unfold3(x: Incoming, y: Incoming, z: Incoming)
    ensures MergeAll([x, y, z]) == Merge(Merge(Merge(EMPTY, x, 0), y, 0), z, 0)
  {
    assert [x, y, z][..2] == [x, y] && [x, y][..1] == [x] && [x][..0] == [];
    assert MergeAll([x]) == Merge(EMPTY, x, 0);
    assert MergeAll([x, y]) == Merge(MergeAll([x]), y, 0);
  }
}
