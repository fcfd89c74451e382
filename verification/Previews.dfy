/** Git previews: versioned per (repository, kind, branch), consumed by at most one operation. */
module Previews {
  import opened Common

  datatype Key = Key(repo: Id, kind: Id, branch: Id)
  datatype Status = Active | Consumed | Expired
  datatype Preview = Preview(key: Key, version: nat, status: Status, consumedBy: Id, createdAt: nat, expiresAt: int)

  type Table = map<Id, Preview>

  datatype Request =
    | Create(id: Id, key: Key, createdAt: nat, expiresAt: int)
    | Consume(id: Id, op: Id, now: nat)

  datatype Reply =
    | Thrown
    | Created(preview: Preview)
    | Invalid
    | NotFound
    | AlreadyConsumed
    | PastExpiry
    | Taken(replay: bool)

  const MIN_LIFETIME_MS := 1000
  const DEFAULT_LIFETIME_MS := 300000

  // ---------- The highest version so far ----------

  ghost predicate IsMaxVersion(t: Table, key: Key, m: nat) {
    && (forall id | id in t && t[id].key == key :: t[id].version <= m)
    && (m == 0 || exists id :: id in t && t[id].key == key && t[id].version == m)
  }

  lemma {:induction false} MaxVersionExists(t: Table, key: Key)
    ensures exists m: nat :: IsMaxVersion(t, key, m)
    decreases |t|
  {
    if t.Keys == {} {
      assert IsMaxVersion(t, key, 0);
    } else {
      var id :| id in t;
      var rest := t - {id};
      assert |rest| < |t| by { assert t.Keys == rest.Keys + {id}; }
      MaxVersionExists(rest, key);
      var n: nat :| IsMaxVersion(rest, key, n);
      if t[id].key == key && t[id].version > n {
        assert IsMaxVersion(t, key, t[id].version);
      } else {
        if n > 0 {
          var other :| other in rest && rest[other].key == key && rest[other].version == n;
          assert other in t && t[other].version == n;
        }
        assert IsMaxVersion(t, key, n);
      }
    }
  }

  ghost function MaxVersion(t: Table, key: Key): (m: nat)
    ensures IsMaxVersion(t, key, m)
  {
    MaxVersionExists(t, key);
    var m: nat :| IsMaxVersion(t, key, m);
    m
  }

  function Lifetime(createdAt: nat, expiresAt: int): int {
    Max(createdAt + MIN_LIFETIME_MS, if expiresAt == 0 then createdAt + DEFAULT_LIFETIME_MS else expiresAt)
  }

  // ---------- The two transactions ----------

  ghost function Step(t: Table, r: Request): (Table, Reply) {
    match r
    case Create(id, key, createdAt, expiresAt) =>
      if NoId in {id, key.repo, key.kind, key.branch} || id in t then (t, Thrown)
      else
        var row := Preview(key, MaxVersion(t, key) + 1, Active, NoId, createdAt, Lifetime(createdAt, expiresAt));
        (t[id := row], Created(row))
    case Consume(id, op, now) =>
      if NoId in {id, op} then (t, Invalid)
      else if id !in t then (t, NotFound)
      else if t[id].status == Consumed && t[id].consumedBy == op then (t, Taken(true))
      else if t[id].status != Active then (t, AlreadyConsumed)
      else if t[id].expiresAt <= now then (t[id := t[id].(status := Expired)], PastExpiry)
      else (t[id := t[id].(status := Consumed, consumedBy := op)], Taken(false))
  }

  class Store {
    var previews: Table

    constructor ()
      ensures previews == map[] && Gapless(previews)
    {
      previews := map[];
    }

    method SelectMaxVersion(key: Key) returns (m: nat)
      ensures IsMaxVersion(previews, key, m)
    {
      m := 0;
      var left := previews.Keys;
      while left != {}
        invariant left <= previews.Keys
        invariant forall id | id in previews.Keys - left && previews[id].key == key :: previews[id].version <= m
        invariant m == 0 || exists id :: id in previews && previews[id].key == key && previews[id].version == m
        decreases left
      {
        var id :| id in left;
        left := left - {id};
        if previews[id].key == key && previews[id].version > m { m := previews[id].version; }
      }
    }

    method CreatePreview(id: Id, key: Key, createdAt: nat, expiresAt: int) returns (reply: Reply)
      modifies this
      ensures (previews, reply) == Step(old(previews), Create(id, key, createdAt, expiresAt))
    {
      if NoId in {id, key.repo, key.kind, key.branch} { return Thrown; }
      var current := SelectMaxVersion(key);
      MaxVersionUnique(previews, key, current, MaxVersion(previews, key));
      if id in previews { return Thrown; }
      previews := previews[id := Preview(key, current + 1, Active, NoId, createdAt, Lifetime(createdAt, expiresAt))];
      reply := Created(previews[id]);
    }

    method ConsumePreview(id: Id, op: Id, now: nat) returns (reply: Reply)
      modifies this
      ensures (previews, reply) == Step(old(previews), Consume(id, op, now))
    {
      if NoId in {id, op} { return Invalid; }
      if id !in previews { return NotFound; }
      var preview := previews[id];
      if preview.status == Consumed && preview.consumedBy == op { return Taken(true); }
      if preview.status != Active { return AlreadyConsumed; }
      if preview.expiresAt <= now {
        previews := previews[id := previews[id].(status := Expired)];
        return PastExpiry;
      }
      var changed := 0;
      if previews[id].status == Active {
        previews := previews[id := previews[id].(status := Consumed, consumedBy := op)];
        changed := 1;
      }
      if changed != 1 { assert false; }
      reply := Taken(false);
    }
  }

  lemma MaxVersionUnique(t: Table, key: Key, m: nat, n: nat)
    requires IsMaxVersion(t, key, m) && IsMaxVersion(t, key, n)
    ensures m == n
  {
  }

  // ---------- Runs ----------

  ghost function After(t: Table, run: seq<Request>, n: nat): Table
    requires n <= |run|
  {
    if n == 0 then t else Step(After(t, run, n - 1), run[n - 1]).0
  }

  ghost function ReplyAt(t: Table, run: seq<Request>, i: nat): Reply
    requires i < |run|
  {
    Step(After(t, run, i), run[i]).1
  }

  ghost predicate Issued(t: Table, key: Key, v: nat) {
    exists id :: id in t && t[id].key == key && t[id].version == v
  }

  ghost predicate NoGaps(t: Table) {
    forall id, v: nat | id in t && 1 <= v <= t[id].version :: Issued(t, t[id].key, v)
  }

  ghost predicate NoRepeats(t: Table) {
    && (forall a, b | a in t && b in t && t[a].key == t[b].key && t[a].version == t[b].version :: a == b)
    && (forall id | id in t :: t[id].version >= 1)
  }

  /** Per key, the versions are 1, 2, ..., n without gaps or repetitions. */
  ghost predicate Gapless(t: Table) { NoGaps(t) && NoRepeats(t) }

  lemma IssuedUpToMax(t: Table, key: Key, v: nat)
    requires NoGaps(t) && 1 <= v <= MaxVersion(t, key)
    ensures Issued(t, key, v)
  {
    var top :| top in t && t[top].key == key && t[top].version == MaxVersion(t, key);
    assert Issued(t, t[top].key, v);
  }

  lemma IssuedForGood(t: Table, r: Request, key: Key, v: nat)
    requires Issued(t, key, v)
    ensures Issued(Step(t, r).0, key, v)
  {
    var id :| id in t && t[id].key == key && t[id].version == v;
    RowStep(t, r, id);
  }

  lemma NoGapsKept(t: Table, r: Request)
    requires NoGaps(t)
    ensures NoGaps(Step(t, r).0)
  {
    var t' := Step(t, r).0;
    forall id, v: nat | id in t' && 1 <= v <= t'[id].version ensures Issued(t', t'[id].key, v) {
      var key := t'[id].key;
      if id in t {
        RowStep(t, r, id);
        assert Issued(t, t[id].key, v);
        IssuedForGood(t, r, key, v);
      } else if v <= MaxVersion(t, key) {
        IssuedUpToMax(t, key, v);
        IssuedForGood(t, r, key, v);
      }
    }
  }

  lemma NoRepeatsKept(t: Table, r: Request)
    requires NoRepeats(t)
    ensures NoRepeats(Step(t, r).0)
  {
  }

  lemma GaplessKept(t: Table, r: Request)
    requires Gapless(t)
    ensures Gapless(Step(t, r).0)
  {
    NoGapsKept(t, r);
    NoRepeatsKept(t, r);
  }

  lemma {:induction false} GaplessAlways(t: Table, run: seq<Request>, n: nat)
    requires Gapless(t) && n <= |run|
    ensures Gapless(After(t, run, n))
  {
    if n > 0 {
      GaplessAlways(t, run, n - 1);
      GaplessKept(After(t, run, n - 1), run[n - 1]);
    }
  }

  /** Rows are never dropped; only an active one changes, and only by being consumed or expired. */
  ghost predicate Evolves(a: Preview, b: Preview) {
    || b == a
    || (a.status == Active && b == a.(status := Expired))
    || (a.status == Active && exists op :: op != NoId && b == a.(status := Consumed, consumedBy := op))
  }

  lemma RowStep(t: Table, r: Request, id: Id)
    requires id in t
    ensures id in Step(t, r).0 && Evolves(t[id], Step(t, r).0[id])
    ensures r.Consume? && r.id == id && Step(t, r).1 == Taken(false) ==> r.now < t[id].expiresAt
  {
  }

  lemma {:induction false} RowForever(t: Table, run: seq<Request>, i: nat, j: nat, id: Id)
    requires i <= j <= |run| && id in After(t, run, i)
    ensures id in After(t, run, j) && Evolves(After(t, run, i)[id], After(t, run, j)[id])
    decreases j
  {
    if i < j {
      RowForever(t, run, i, j - 1, id);
      RowStep(After(t, run, j - 1), run[j - 1], id);
    }
  }

  /** Whoever consumes a preview is the only one, strictly before its expiry: whoever tries later succeeds
      exactly if it is the same operation, replaying, whatever its clock reads. */
  lemma ConsumedByOne(t: Table, run: seq<Request>, i: nat, j: nat)
    requires i < j < |run| && run[i].Consume? && run[j].Consume? && run[i].id == run[j].id && run[j].op != NoId
    requires ReplyAt(t, run, i).Taken?
    ensures ReplyAt(t, run, j) == (if run[j].op == run[i].op then Taken(true) else AlreadyConsumed)
    ensures ReplyAt(t, run, i) == Taken(false) ==> run[i].now < After(t, run, i)[run[i].id].expiresAt
  {
    TakenStays(After(t, run, i), run[i]);
    RowForever(t, run, i + 1, j, run[i].id);
  }

  lemma TakenStays(t: Table, r: Request)
    requires r.Consume? && Step(t, r).1.Taken?
    ensures r.id in Step(t, r).0 && Step(t, r).0[r.id].status == Consumed && Step(t, r).0[r.id].consumedBy == r.op
    ensures Step(t, r).1 == Taken(false) ==> r.now < t[r.id].expiresAt
  {
  }

  /** Whoever comes too late expires the preview: nobody consumes it from then on, whatever their clocks read. */
  lemma ExpiredForGood(t: Table, run: seq<Request>, i: nat, j: nat)
    requires i < j < |run| && run[i].Consume? && run[j].Consume? && run[i].id == run[j].id
    requires NoId !in {run[j].id, run[j].op} && ReplyAt(t, run, i) == PastExpiry
    ensures ReplyAt(t, run, j) == AlreadyConsumed
  {
    ExpiredStays(After(t, run, i), run[i]);
    RowForever(t, run, i + 1, j, run[i].id);
  }

  lemma ExpiredStays(t: Table, r: Request)
    requires r.Consume? && Step(t, r).1 == PastExpiry
    ensures r.id in Step(t, r).0 && Step(t, r).0[r.id].status == Expired
  {
  }

  /** A create in a run gets the next version of its key. */
  lemma CreateTakesNextVersion(t: Table, r: Request)
    requires Gapless(t) && r.Create? && Step(t, r).1.Created?
    ensures forall v: nat :: 1 <= v < Step(t, r).1.preview.version <==> Issued(t, r.key, v)
  {
    forall v: nat | 1 <= v <= MaxVersion(t, r.key) { IssuedUpToMax(t, r.key, v); }
  }

  /** A new preview can be consumed, by whichever operation comes first, exactly until it expires; it
      lives at least a second. */
  lemma ConsumableUntilIff(t: Table, r: Request, op: Id, now: nat)
    requires r.Create? && Step(t, r).1.Created? && op != NoId
    ensures var row := Step(t, r).1.preview;
      && row.expiresAt >= r.createdAt + 1000
      && (Step(Step(t, r).0, Consume(r.id, op, now)).1 == Taken(false) <==> now < row.expiresAt)
      && (Step(Step(t, r).0, Consume(r.id, op, now)).1 == PastExpiry <==> now >= row.expiresAt)
  {
  }

  /** A create under a new id always succeeds; the preview is active, belongs to its key, and lives until
      the expiry given, but at least a second, or five minutes if none is given. Other previews stay. */
  lemma CreatedIff(t: Table, r: Request)
    requires r.Create? && NoId !in {r.id, r.key.repo, r.key.kind, r.key.branch}
    ensures Step(t, r).1.Created? <==> r.id !in t
    ensures r.id !in t ==> r.id in Step(t, r).0 && Step(t, r).1.preview == Step(t, r).0[r.id]
    ensures r.id !in t ==>
      var row := Step(t, r).0[r.id];
      && row.key == r.key && row.status == Active && row.consumedBy == NoId && row.createdAt == r.createdAt
      && (r.expiresAt == 0 ==> row.expiresAt == r.createdAt + 300000)
      && (r.expiresAt != 0 && r.expiresAt < r.createdAt + 1000 ==> row.expiresAt == r.createdAt + 1000)
      && (r.expiresAt != 0 && r.expiresAt >= r.createdAt + 1000 ==> row.expiresAt == r.expiresAt)
    ensures forall id | id in t :: id in Step(t, r).0 && Step(t, r).0[id] == t[id]
  {
  }

  /** A consumption touches no other preview, and none that is not active. */
  lemma ConsumeTouchesOne(t: Table, r: Request, id: Id)
    requires r.Consume? && id in t && (id != r.id || t[id].status != Active)
    ensures id in Step(t, r).0 && Step(t, r).0[id] == t[id]
  {
  }
}
