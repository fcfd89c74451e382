/** Leases on the physical resources of a worktree: one row per resource key, claimed in sets,
    renewed and released by (token, owner). */
module WorktreeLeases {
  import opened Common

  datatype Row = Row(token: Id, kind: Id, task: Id, owner: Id, heartbeatAt: nat, expiresAt: nat)
  type Rows = map<Id, Row>

  datatype Request =
    | Claim(resourceKeys: seq<Id>, token: Id, kind: Id, task: Id, owner: Id, now: nat, ttl: int)
    | Renew(token: Id, owner: Id, now: nat, ttl: int)
    | Release(token: Id, owner: Id)
    | ReleaseOwner(owner: Id)
    | ReleaseTask(task: Id, kind: Id)
    | SettleTask(task: Id, now: nat, runtimeActive: bool)

  datatype Reply = Invalid | Conflict | Claimed(keys: set<Id>, expiresAt: nat) | Changed(rows: nat)

  const DEFAULT_TTL_MS := 15000
  const MIN_TTL_MS := 1000
  const AI := Id("ai")

  function Ttl(ttl: int): nat { Max(MIN_TTL_MS, if ttl == 0 then DEFAULT_TTL_MS else ttl) }

  function KeySet(resourceKeys: seq<Id>): set<Id> { set k | k in resourceKeys && k != NoId }

  function Without(rows: Rows, gone: set<Id>): Rows { map k | k in rows && k !in gone :: rows[k] }

  function Beat(row: Row, now: nat, ttl: int): Row { row.(heartbeatAt := now, expiresAt := now + Ttl(ttl)) }

  function Assign(keys: set<Id>, row: Row): Rows { map k | k in keys :: row }

  function Expired(rows: Rows, keys: set<Id>, now: nat): set<Id> {
    set k | k in keys && k in rows && rows[k].expiresAt <= now
  }

  function HeldBy(rows: Rows, token: Id, owner: Id): set<Id> {
    set k | k in rows && rows[k].token == token && rows[k].owner == owner
  }

  function Delete(rows: Rows, gone: set<Id>): (Rows, Reply) { (Without(rows, gone), Changed(|gone * rows.Keys|)) }

  function Step(rows: Rows, r: Request): (Rows, Reply) {
    match r
    case Claim(resourceKeys, token, kind, task, owner, now, ttl) =>
      var keys := KeySet(resourceKeys);
      if keys == {} || NoId in {token, kind, owner} then (rows, Invalid)
      else
        var left := Without(rows, Expired(rows, keys, now));
        if keys * left.Keys != {} then (left, Conflict)
        else
          var row := Row(token, kind, task, owner, now, now + Ttl(ttl));
          (left + Assign(keys, row), Claimed(keys, row.expiresAt))
    case Renew(token, owner, now, ttl) =>
      if NoId in {token, owner} then (rows, Changed(0))
      else
        var mine := HeldBy(rows, token, owner);
        ((map k | k in rows :: if k in mine then Beat(rows[k], now, ttl) else rows[k]), Changed(|mine|))
    case Release(token, owner) =>
      if NoId in {token, owner} then (rows, Changed(0)) else Delete(rows, HeldBy(rows, token, owner))
    case ReleaseOwner(owner) =>
      if owner == NoId then (rows, Changed(0)) else Delete(rows, set k | k in rows && rows[k].owner == owner)
    case ReleaseTask(task, kind) =>
      if NoId in {task, kind} then (rows, Changed(0))
      else Delete(rows, set k | k in rows && rows[k].task == task && rows[k].kind == kind)
    case SettleTask(task, now, runtimeActive) =>
      var ai := set k | k in rows && rows[k].kind == AI && rows[k].task == task;
      if task == NoId || runtimeActive || (exists k :: k in ai && rows[k].expiresAt > now) then (rows, Changed(0))
      else Delete(rows, set k | k in ai && rows[k].expiresAt <= now)
  }

  /** The count a holder compares with the number of keys it claimed. */
  function CountActive(rows: Rows, token: Id, owner: Id, now: nat): nat {
    if NoId in {token, owner} then 0 else |set k | k in HeldBy(rows, token, owner) && rows[k].expiresAt > now|
  }

  class Store {
    var rows: Rows

    constructor ()
      ensures rows == map[]
    {
      rows := map[];
    }

    method ClaimLease(resourceKeys: seq<Id>, token: Id, kind: Id, task: Id, owner: Id, now: nat, ttl: int)
      returns (reply: Reply)
      modifies this
      ensures (rows, reply) == Step(old(rows), Claim(resourceKeys, token, kind, task, owner, now, ttl))
    {
      var keys := DistinctKeys(resourceKeys);
      if |keys| == 0 || NoId in {token, kind, owner} {
        assert |keys| > 0 ==> keys[0] in KeySet(resourceKeys);
        return Invalid;
      }
      assert keys[0] in KeySet(resourceKeys);
      ReapExpired(keys, now);
      var conflict := FindAny(keys);
      if conflict.Some? {
        assert conflict.value in KeySet(resourceKeys) * rows.Keys;
        return Conflict;
      }
      var expiresAt := now + Ttl(ttl);
      InsertAll(keys, Row(token, kind, task, owner, now, expiresAt));
      reply := Claimed(Elements(keys), expiresAt);
    }

    method ReapExpired(keys: seq<Id>, now: nat)
      modifies this
      ensures rows == Without(old(rows), Expired(old(rows), Elements(keys), now))
    {
      rows := map k | k in rows && !(rows[k].expiresAt <= now && k in keys) :: rows[k];
    }

    method FindAny(keys: seq<Id>) returns (found: Option<Id>)
      ensures found.Some? ==> found.value in keys && found.value in rows
      ensures found.None? ==> forall k | k in keys :: k !in rows
    {
      for i := 0 to |keys|
        invariant forall j | 0 <= j < i :: keys[j] !in rows
      {
        if keys[i] in rows { return Some(keys[i]); }
      }
      found := None;
    }

    /** Every insert meets a free key: the keys are distinct and none is taken. */
    method InsertAll(keys: seq<Id>, row: Row)
      requires Distinct(keys)
      requires Elements(keys) !! rows.Keys
      modifies this
      ensures rows == old(rows) + Assign(Elements(keys), row)
    {
      ghost var done := {};
      for i := 0 to |keys|
        invariant done == Elements(keys[..i])
        invariant rows == old(rows) + Assign(done, row)
      {
        assert keys[i] in Elements(keys) && keys[i] !in keys[..i];
        assert keys[i] !in rows;
        AssignOne(old(rows), done, keys[i], row);
        rows := rows[keys[i] := row];
        assert keys[..i + 1] == keys[..i] + [keys[i]];
        done := done + {keys[i]};
      }
      assert keys[..|keys|] == keys;
    }

    method RenewLease(token: Id, owner: Id, now: nat, ttl: int) returns (reply: Reply)
      modifies this
      ensures (rows, reply) == Step(old(rows), Renew(token, owner, now, ttl))
    {
      if NoId in {token, owner} { return Changed(0); }
      var todo := HeldBy(rows, token, owner);
      ghost var mine := todo;
      var changes := 0;
      while todo != {}
        invariant todo <= mine && changes == |mine| - |todo|
        invariant rows.Keys == old(rows).Keys
        invariant forall k | k in rows ::
          rows[k] == if k in mine && k !in todo then Beat(old(rows)[k], now, ttl) else old(rows)[k]
        decreases todo
      {
        var k :| k in todo;
        rows := rows[k := Beat(rows[k], now, ttl)];
        todo := todo - {k};
        changes := changes + 1;
      }
      assert rows == Step(old(rows), Renew(token, owner, now, ttl)).0;
      reply := Changed(changes);
    }

    method ReleaseLease(token: Id, owner: Id) returns (reply: Reply)
      modifies this
      ensures (rows, reply) == Step(old(rows), Release(token, owner))
    {
      if NoId in {token, owner} { return Changed(0); }
      reply := DeleteRows(HeldBy(rows, token, owner));
    }

    method ReleaseOwnerLeases(owner: Id) returns (reply: Reply)
      modifies this
      ensures (rows, reply) == Step(old(rows), ReleaseOwner(owner))
    {
      if owner == NoId { return Changed(0); }
      reply := DeleteRows(set k | k in rows && rows[k].owner == owner);
    }

    method ReleaseTaskLeases(task: Id, kind: Id) returns (reply: Reply)
      modifies this
      ensures (rows, reply) == Step(old(rows), ReleaseTask(task, kind))
    {
      if NoId in {task, kind} { return Changed(0); }
      reply := DeleteRows(set k | k in rows && rows[k].task == task && rows[k].kind == kind);
    }

    method SettleInactiveTask(task: Id, now: nat, runtimeActive: bool) returns (reply: Reply)
      modifies this
      ensures (rows, reply) == Step(old(rows), SettleTask(task, now, runtimeActive))
    {
      if task == NoId { return Changed(0); }
      var active := exists k | k in rows :: rows[k].expiresAt > now && rows[k].kind == AI && rows[k].task == task;
      if runtimeActive || active { return Changed(0); }
      ghost var ai := set k | k in rows && rows[k].kind == AI && rows[k].task == task;
      var gone := set k | k in rows && rows[k].kind == AI && rows[k].task == task && rows[k].expiresAt <= now;
      assert gone == set k | k in ai && rows[k].expiresAt <= now;
      reply := DeleteRows(gone);
    }

    method DeleteRows(gone: set<Id>) returns (reply: Reply)
      modifies this
      ensures (rows, reply) == Delete(old(rows), gone)
    {
      var todo := gone * rows.Keys;
      var changes := 0;
      ghost var done := {};
      while todo != {}
        invariant todo !! done && todo + done == gone * old(rows).Keys && changes == |done|
        invariant rows == Without(old(rows), done)
        decreases todo
      {
        var k :| k in todo;
        rows := rows - {k};
        assert rows == Without(old(rows), done + {k});
        todo, done, changes := todo - {k}, done + {k}, changes + 1;
      }
      assert rows == Without(old(rows), gone);
      reply := Changed(changes);
    }
  }

  lemma AssignOne(rows: Rows, done: set<Id>, key: Id, row: Row)
    ensures (rows + Assign(done, row))[key := row] == rows + Assign(done + {key}, row)
  {
  }

  /** The keys to claim: blanks dropped, each once. */
  method DistinctKeys(resourceKeys: seq<Id>) returns (keys: seq<Id>)
    ensures Elements(keys) == KeySet(resourceKeys)
    ensures Distinct(keys)
  {
    keys := [];
    for n := 0 to |resourceKeys|
      invariant Elements(keys) == KeySet(resourceKeys[..n])
      invariant Distinct(keys)
    {
      var k := resourceKeys[n];
      assert resourceKeys[..n + 1] == resourceKeys[..n] + [k];
      assert KeySet(resourceKeys[..n + 1]) == KeySet(resourceKeys[..n]) + (if k != NoId then {k} else {});
      if k != NoId && k !in keys { keys := keys + [k]; }
    }
    assert resourceKeys[..|resourceKeys|] == resourceKeys;
  }

  // ---------- Runs, with what each token was once granted ----------

  datatype Grant = Grant(owner: Id, keys: set<Id>)

  /** The table together with the grants handed out so far, by token. */
  datatype World = World(rows: Rows, grants: map<Id, Grant>)

  function Next(w: World, r: Request): World {
    var (rows, reply) := Step(w.rows, r);
    World(rows, if r.Claim? && reply.Claimed? then w.grants[r.token := Grant(r.owner, reply.keys)] else w.grants)
  }

  function After(w: World, run: seq<Request>, n: nat): World
    requires n <= |run|
  {
    if n == 0 then w else Next(After(w, run, n - 1), run[n - 1])
  }

  /** The first n requests claim under tokens that no earlier claim was granted under. */
  ghost predicate FreshTokens(w: World, run: seq<Request>, n: nat)
    requires n <= |run|
  {
    n == 0 ||
    (FreshTokens(w, run, n - 1) && (run[n - 1].Claim? ==> run[n - 1].token !in After(w, run, n - 1).grants))
  }

  /** Every row belongs to the grant its token stands for. */
  ghost predicate RowsGranted(w: World) {
    forall k | k in w.rows :: RowGranted(w, k)
  }

  ghost predicate OneExpiry(rows: Rows) {
    forall j, k | j in rows && k in rows && rows[j].token == rows[k].token :: rows[j].expiresAt == rows[k].expiresAt
  }

  predicate Grants(rows: Rows, r: Request) { r.Claim? && Step(rows, r).1.Claimed? }

  /** A granted claim adds its keys under its own token and leaves every other row alone. */
  lemma ClaimedRows(rows: Rows, r: Request, k: Id)
    requires Grants(rows, r) && k in Step(rows, r).0
    ensures var (after, reply) := Step(rows, r);
      if k in reply.keys then
        after[k].token == r.token && after[k].owner == r.owner && after[k].expiresAt == reply.expiresAt
      else k in rows && after[k] == rows[k]
  {
  }

  /** Everything else creates no row and changes no holder. */
  lemma OtherRows(rows: Rows, r: Request, k: Id)
    requires !Grants(rows, r) && k in Step(rows, r).0
    ensures k in rows && Step(rows, r).0[k].token == rows[k].token && Step(rows, r).0[k].owner == rows[k].owner
    ensures !r.Renew? ==> Step(rows, r).0[k] == rows[k]
  {
  }

  ghost predicate RowGranted(w: World, k: Id)
    requires k in w.rows
  {
    var row := w.rows[k];
    row.token in w.grants && row.owner == w.grants[row.token].owner && k in w.grants[row.token].keys
  }

  lemma GrantedKept(w: World, r: Request)
    requires RowsGranted(w) && (r.Claim? ==> r.token !in w.grants)
    ensures RowsGranted(Next(w, r))
  {
    forall k | k in Next(w, r).rows ensures RowGranted(Next(w, r), k) {
      if Grants(w.rows, r) { ClaimedRows(w.rows, r, k); } else { OtherRows(w.rows, r, k); }
      assert k in w.rows ==> RowGranted(w, k);
    }
  }

  lemma ExpiryKept(w: World, r: Request)
    requires RowsGranted(w) && OneExpiry(w.rows) && (r.Claim? ==> r.token !in w.grants)
    ensures OneExpiry(Next(w, r).rows)
  {
    if !r.Renew? {
      var rows := Next(w, r).rows;
      forall j, k | j in rows && k in rows && rows[j].token == rows[k].token
        ensures rows[j].expiresAt == rows[k].expiresAt
      {
        if Grants(w.rows, r) {
          ClaimedRows(w.rows, r, j);
          ClaimedRows(w.rows, r, k);
        } else {
          OtherRows(w.rows, r, j);
          OtherRows(w.rows, r, k);
        }
        assert forall x | x in w.rows :: RowGranted(w, x);
      }
    } else {
      RenewedExpiry(w, r);
    }
  }

  lemma RenewedExpiry(w: World, r: Request)
    requires r.Renew? && RowsGranted(w) && OneExpiry(w.rows)
    ensures OneExpiry(Next(w, r).rows)
  {
    assert forall x | x in w.rows :: RowGranted(w, x);
  }

  lemma {:induction false} GrantedAlways(w: World, run: seq<Request>, n: nat)
    requires RowsGranted(w) && OneExpiry(w.rows) && n <= |run| && FreshTokens(w, run, n)
    ensures RowsGranted(After(w, run, n)) && OneExpiry(After(w, run, n).rows)
  {
    if n > 0 {
      GrantedAlways(w, run, n - 1);
      var now, r := After(w, run, n - 1), run[n - 1];
      GrantedKept(now, r);
      ExpiryKept(now, r);
    }
  }

  /** A holder whose active rows are as many as the keys it was granted holds exactly those keys. */
  lemma FullCountHoldsAll(w: World, token: Id, owner: Id, now: nat)
    requires RowsGranted(w) && token in w.grants
    requires CountActive(w.rows, token, owner, now) == |w.grants[token].keys|
    ensures forall k | k in w.grants[token].keys :: k in w.rows && w.rows[k].token == token && w.rows[k].expiresAt > now
  {
    var active := set k | k in HeldBy(w.rows, token, owner) && w.rows[k].expiresAt > now;
    var keys := w.grants[token].keys;
    assert active <= keys;
    if NoId in {token, owner} {
      assert keys == {};
    } else {
      assert |keys - active| == |keys| - |active|;
    }
  }

  /** In every reachable state, two holders that both count all their keys share none. */
  lemma FullHoldersAreDisjoint(w: World, run: seq<Request>, n: nat, a: Id, ownerA: Id, nowA: nat, b: Id, ownerB: Id,
      nowB: nat)
    requires RowsGranted(w) && OneExpiry(w.rows) && n <= |run| && FreshTokens(w, run, n)
    requires var now := After(w, run, n);
      && a != b && a in now.grants && b in now.grants
      && CountActive(now.rows, a, ownerA, nowA) == |now.grants[a].keys|
      && CountActive(now.rows, b, ownerB, nowB) == |now.grants[b].keys|
    ensures After(w, run, n).grants[a].keys !! After(w, run, n).grants[b].keys
  {
    GrantedAlways(w, run, n);
    FullCountHoldsAll(After(w, run, n), a, ownerA, nowA);
    FullCountHoldsAll(After(w, run, n), b, ownerB, nowB);
  }

  /** A claim gets all its keys or none: granted, each of them is its row; otherwise no row is its. */
  lemma ClaimsAllOrNone(w: World, r: Request)
    requires RowsGranted(w) && r.Claim? && r.token !in w.grants
    ensures var (rows, reply) := Step(w.rows, r);
      HeldBy(rows, r.token, r.owner) == if reply.Claimed? then KeySet(r.resourceKeys) else {}
  {
  }

  /** A granted claim counts all its keys exactly until it expires. */
  lemma ClaimedUntilIff(w: World, r: Request, later: nat)
    requires RowsGranted(w) && r.Claim? && r.token !in w.grants && Grants(w.rows, r)
    ensures CountActive(Step(w.rows, r).0, r.token, r.owner, later) == |KeySet(r.resourceKeys)| <==>
      later < r.now + Ttl(r.ttl)
    ensures KeySet(r.resourceKeys) != {} && Ttl(r.ttl) >= 1000
  {
    var rows := Step(w.rows, r).0;
    ClaimsAllOrNone(w, r);
    forall k | k in KeySet(r.resourceKeys) ensures k in rows && rows[k].expiresAt == r.now + Ttl(r.ttl) {
      ClaimedRows(w.rows, r, k);
    }
    var active := set k | k in HeldBy(rows, r.token, r.owner) && rows[k].expiresAt > later;
    assert active == if later < r.now + Ttl(r.ttl) then KeySet(r.resourceKeys) else {};
  }

  /** A claim never disturbs an unexpired row of anybody else. */
  lemma ClaimSparesTheLiving(rows: Rows, r: Request, k: Id)
    requires r.Claim? && k in rows && rows[k].expiresAt > r.now
    ensures k in Step(rows, r).0 && Step(rows, r).0[k] == rows[k]
  {
    var keys := KeySet(r.resourceKeys);
    var left := Without(rows, Expired(rows, keys, r.now));
    assert k in left;
    if k in keys { assert k in keys * left.Keys; }
  }

  /** Renewal does not look at expiry: whatever rows the token still has, expired or not, are active
      again, and exactly these. */
  lemma RenewRevives(rows: Rows, token: Id, owner: Id, now: nat, ttl: int, later: nat)
    requires NoId !in {token, owner} && later < now + Ttl(ttl)
    ensures var renewed := Step(rows, Renew(token, owner, now, ttl)).0;
      CountActive(renewed, token, owner, later) == |HeldBy(rows, token, owner)|
  {
    var renewed := Step(rows, Renew(token, owner, now, ttl)).0;
    assert (set k | k in HeldBy(renewed, token, owner) && renewed[k].expiresAt > later) == HeldBy(rows, token, owner);
  }

  /** So a renewed grant counts all its keys exactly if it has lost none of them, expired or not. */
  lemma RenewedIsFullIff(w: World, token: Id, now: nat, ttl: int, later: nat)
    requires RowsGranted(w) && token in w.grants && NoId !in {token, w.grants[token].owner} && later < now + Ttl(ttl)
    ensures var owner, keys := w.grants[token].owner, w.grants[token].keys;
      CountActive(Step(w.rows, Renew(token, owner, now, ttl)).0, token, owner, later) == |keys| <==>
        HeldBy(w.rows, token, owner) == keys
  {
    var owner, keys := w.grants[token].owner, w.grants[token].keys;
    RenewRevives(w.rows, token, owner, now, ttl, later);
    var held := HeldBy(w.rows, token, owner);
    forall k | k in held ensures k in keys { assert RowGranted(w, k); }
    if |held| == |keys| {
      assert |keys - held| == |keys| - |held|;
      assert forall k | k in keys :: k in keys - held || k in held;
    }
  }

  /** A claim that takes over a key of an older grant leaves that grant short of it. */
  lemma TakenKeyIsLost(w: World, r: Request, token: Id, key: Id)
    requires RowsGranted(w) && r.Claim? && r.token !in w.grants && token in w.grants
    requires Step(w.rows, r).1.Claimed? && key in KeySet(r.resourceKeys) && key in w.grants[token].keys
    ensures key !in HeldBy(Next(w, r).rows, token, w.grants[token].owner)
  {
  }

  lemma LostStep(w: World, r: Request, token: Id, owner: Id, key: Id)
    requires token in w.grants && (r.Claim? ==> r.token !in w.grants)
    ensures token in Next(w, r).grants && Next(w, r).grants[token] == w.grants[token]
    ensures key !in HeldBy(w.rows, token, owner) ==> key !in HeldBy(Next(w, r).rows, token, owner)
  {
  }

  /** Renewals revive the rest of such a lease, but its holder never counts all its keys again. */
  lemma {:induction false} NeverFullAgain(w: World, run: seq<Request>, n: nat, token: Id, key: Id, now: nat)
    requires RowsGranted(w) && OneExpiry(w.rows) && n <= |run| && FreshTokens(w, run, n)
    requires token in w.grants && key in w.grants[token].keys && key !in HeldBy(w.rows, token, w.grants[token].owner)
    ensures token in After(w, run, n).grants && After(w, run, n).grants[token] == w.grants[token]
    ensures key !in HeldBy(After(w, run, n).rows, token, w.grants[token].owner)
    ensures CountActive(After(w, run, n).rows, token, w.grants[token].owner, now) < |w.grants[token].keys|
  {
    if n > 0 {
      NeverFullAgain(w, run, n - 1, token, key, now);
      LostStep(After(w, run, n - 1), run[n - 1], token, w.grants[token].owner, key);
    }
    GrantedAlways(w, run, n);
    CountIsShort(After(w, run, n), token, key, now);
  }

  lemma CountIsShort(w: World, token: Id, key: Id, now: nat)
    requires RowsGranted(w) && token in w.grants && key in w.grants[token].keys
    requires key !in HeldBy(w.rows, token, w.grants[token].owner)
    ensures CountActive(w.rows, token, w.grants[token].owner, now) < |w.grants[token].keys|
  {
    var owner, keys := w.grants[token].owner, w.grants[token].keys;
    var active := set k | k in HeldBy(w.rows, token, owner) && w.rows[k].expiresAt > now;
    assert active <= keys - {key};
    assert |keys - {key} - active| == |keys| - 1 - |active|;
  }

  // ---------- Exactly what each request does ----------

  predicate Complete(r: Request)
    requires r.Claim?
  {
    (exists k :: k in r.resourceKeys && k != NoId) && NoId !in {r.token, r.kind, r.owner}
  }

  /** Nobody holds this key past the moment. */
  predicate Free(rows: Rows, k: Id, now: nat) { k in rows ==> rows[k].expiresAt <= now }

  /** A complete claim is granted exactly if all its keys are free. Each then has a row of the claimant, and
      every other row stays. */
  lemma ClaimGrantedIff(rows: Rows, r: Request)
    requires r.Claim? && Complete(r)
    ensures Step(rows, r).1.Claimed? <==> forall k | k in KeySet(r.resourceKeys) :: Free(rows, k, r.now)
    ensures Step(rows, r).1.Claimed? ==> Step(rows, r).1.keys == KeySet(r.resourceKeys)
    ensures Step(rows, r).1.Claimed? ==>
      forall k {:trigger k in Step(rows, r).0} :: k in Step(rows, r).0 <==> k in rows || k in KeySet(r.resourceKeys)
  {
    var keys := KeySet(r.resourceKeys);
    assert keys != {} by { var k :| k in r.resourceKeys && k != NoId; assert k in keys; }
    var left := Without(rows, Expired(rows, keys, r.now));
    if forall k | k in keys :: Free(rows, k, r.now) {
      assert keys * left.Keys == {};
    } else {
      var k :| k in keys && !Free(rows, k, r.now);
      assert k in keys * left.Keys;
    }
  }

  lemma GrantedRow(rows: Rows, r: Request, k: Id)
    requires Grants(rows, r) && k in KeySet(r.resourceKeys)
    ensures k in Step(rows, r).0
    ensures Step(rows, r).0[k] == Row(r.token, r.kind, r.task, r.owner, r.now, Step(rows, r).1.expiresAt)
    ensures Step(rows, r).1.expiresAt == r.now + Max(1000, if r.ttl == 0 then 15000 else r.ttl)
  {
  }

  /** A claim in conflict has cleared its expired keys and touched nothing else; an incomplete one touched
      nothing. */
  lemma RefusedClaim(rows: Rows, r: Request, k: Id)
    requires r.Claim? && !Grants(rows, r)
    ensures k in Step(rows, r).0 <==>
      k in rows && !(Complete(r) && k in KeySet(r.resourceKeys) && rows[k].expiresAt <= r.now)
    ensures k in Step(rows, r).0 ==> Step(rows, r).0[k] == rows[k]
    ensures Step(rows, r).1 == (if Complete(r) then Conflict else Invalid)
  {
    if Complete(r) {
      var k :| k in r.resourceKeys && k != NoId;
      assert k in KeySet(r.resourceKeys);
    } else if NoId !in {r.token, r.kind, r.owner} {
      assert KeySet(r.resourceKeys) == {};
    }
  }

  /** The rows a release names: by token and owner, by owner, or by task and kind. */
  predicate Named(r: Request, row: Row) {
    match r
    case Release(token, owner) => NoId !in {token, owner} && row.token == token && row.owner == owner
    case ReleaseOwner(owner) => owner != NoId && row.owner == owner
    case ReleaseTask(task, kind) => NoId !in {task, kind} && row.task == task && row.kind == kind
    case _ => false
  }

  predicate Releases(r: Request) { r.Release? || r.ReleaseOwner? || r.ReleaseTask? }

  /** A release removes exactly the rows it names and counts them. */
  lemma ReleaseIsExact(rows: Rows, r: Request)
    requires Releases(r)
    ensures forall k {:trigger k in Step(rows, r).0} :: k in Step(rows, r).0 <==> k in rows && !Named(r, rows[k])
    ensures forall k {:trigger Step(rows, r).0[k]} :: k in Step(rows, r).0 ==> Step(rows, r).0[k] == rows[k]
    ensures Step(rows, r).1 == Changed(|rows.Keys - Step(rows, r).0.Keys|)
  {
    var after := Step(rows, r).0;
    var gone := set k | k in rows && Named(r, rows[k]);
    assert rows.Keys - after.Keys == gone;
    match r
    case Release(token, owner) => if NoId !in {token, owner} { assert HeldBy(rows, token, owner) * rows.Keys == gone; }
    case ReleaseOwner(owner) =>
      if owner != NoId { assert (set k | k in rows && rows[k].owner == owner) * rows.Keys == gone; }
    case ReleaseTask(task, kind) =>
      if NoId !in {task, kind} {
        assert (set k | k in rows && rows[k].task == task && rows[k].kind == kind) * rows.Keys == gone;
      }
  }

  /** So keys whose rows a release named are free for the next claim, whatever its clock reads. */
  lemma ReleasedAreFree(rows: Rows, r: Request, next: Request)
    requires Releases(r) && next.Claim? && Complete(next)
    requires forall k | k in KeySet(next.resourceKeys) :: k in rows ==> Named(r, rows[k])
    ensures Step(Step(rows, r).0, next).1.Claimed?
  {
    ReleaseIsExact(rows, r);
    var after := Step(rows, r).0;
    forall k | k in KeySet(next.resourceKeys) ensures Free(after, k, next.now) { assert k !in after; }
    ClaimGrantedIff(after, next);
  }

  predicate OfAi(row: Row, task: Id) { row.kind == Id("ai") && row.task == task }

  /** Settling removes rows exactly if nothing of the task is active, and then exactly its AI rows. */
  lemma SettleIsExact(rows: Rows, task: Id, now: nat, runtimeActive: bool, k: Id)
    ensures k in Step(rows, SettleTask(task, now, runtimeActive)).0 <==>
      && k in rows
      && !(task != NoId && !runtimeActive && OfAi(rows[k], task)
           && forall o | o in rows && OfAi(rows[o], task) :: rows[o].expiresAt <= now)
    ensures k in Step(rows, SettleTask(task, now, runtimeActive)).0 ==>
      Step(rows, SettleTask(task, now, runtimeActive)).0[k] == rows[k]
  {
  }

  /** Renewing touches only the rows of token and owner, and of these only the times; it counts them. */
  lemma RenewIsExact(rows: Rows, token: Id, owner: Id, now: nat, ttl: int, k: Id)
    requires NoId !in {token, owner}
    ensures var (after, reply) := Step(rows, Renew(token, owner, now, ttl));
      && after.Keys == rows.Keys && reply == Changed(|HeldBy(rows, token, owner)|)
      && (k in rows && (rows[k].token != token || rows[k].owner != owner) ==> after[k] == rows[k])
      && (k in rows && rows[k].token == token && rows[k].owner == owner ==>
            after[k] == rows[k].(heartbeatAt := now, expiresAt := now + Max(1000, if ttl == 0 then 15000 else ttl)))
  {
  }

  /** The count is of the holder's rows that expire later. */
  lemma CountIs(rows: Rows, token: Id, owner: Id, now: nat, held: set<Id>)
    requires NoId !in {token, owner}
    requires forall k :: k in held <==>
      k in rows && rows[k].token == token && rows[k].owner == owner && rows[k].expiresAt > now
    ensures CountActive(rows, token, owner, now) == |held|
  {
    assert held == set k | k in HeldBy(rows, token, owner) && rows[k].expiresAt > now;
  }
}
