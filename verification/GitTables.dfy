/** The Git controller's tables and, for each exported operation, the one atomic step it takes on
    them. Clock readings are parameters: several processes call in with clocks of their own. */
module GitTables {
  import opened Common

  datatype Lease = Lease(
    leaseId: Id, operationId: Id, kind: Id, owner: Id, pid: int,
    fence: nat, acquiredAt: nat, heartbeatAt: nat, expiresAt: nat)

  datatype MirrorKey = MirrorKey(repo: Id, remote: Id, branch: Id)
  datatype Mirror = Mirror(acceptedSha: Id, generation: nat, acceptedAt: nat, operationId: Id, fence: int)

  datatype Status = Running | Succeeded | RecoveryRequired | OtherStatus(text: string)
  datatype Phase = NoPhase | Previewed | Verified | RecoveryPhase | OtherPhase(text: string)

  datatype RecoveryState = Pending | Applied | OtherState
  datatype OpResult = OpResult(
    marker: Id, recovery: RecoveryState, appliedAt: nat,
    registryGeneration: int, entryGeneration: int, rest: string)

  datatype OpKey = OpKey(repo: Id, opType: Id, idemKey: Id)
  datatype Operation = Operation(
    key: OpKey, owner: Id, status: Status, phase: Phase,
    code: Id, fence: Option<int>, result: Option<OpResult>, updatedAt: nat, completedAt: Option<nat>)

  datatype JournalRow = JournalRow(op: Id, repo: Id, phase: Phase, fence: Option<int>, at: nat)

  /** `byKey` is the unique index of the operations table over its idempotency keys. */
  datatype Tables = Tables(
    fences: map<Id, nat>, leases: map<Id, Lease>, mirrors: map<MirrorKey, Mirror>,
    operations: map<Id, Operation>, byKey: map<OpKey, Id>, journal: seq<JournalRow>)

  datatype Request =
    | Claim(repo: Id, lease: Id, op: Id, kind: Id, owner: Id, pid: int, now: nat, ttl: int)
    | Renew(repo: Id, lease: Id, owner: Id, fence: int, now: nat, ttl: int)
    | Assert(repo: Id, lease: Id, owner: Id, fence: int, now: nat)
    | Release(repo: Id, lease: Id, owner: Id, fence: int)
    | ReleaseOrphan(repo: Id, lease: Id, op: Id, owner: Id, pid: int, fence: int)
    | Swap(key: MirrorKey, expectedSha: Id, expectedGeneration: int, acceptedSha: Id,
           op: Id, fence: int, checkedAt: nat, acceptedAt: nat)
    | Begin(op: Id, repo: Id, opType: Id, idemKey: Id, phase: Phase, owner: Id, now: nat)
    | Append(op: Id, repo: Id, phase: Phase, journalFence: Option<int>, now: nat)
    | Stage(op: Id, owner: Id, phase: Phase, fence: int, result: Option<OpResult>, now: nat)
    | Recover(op: Id, owner: Id, expectedUpdatedAt: Option<nat>, status: Status, phase: Phase,
              code: Id, result: Option<OpResult>, recoveryFence: Option<int>, now: nat)
    | Acknowledge(op: Id, idemKey: Id, registryGeneration: int, entryGeneration: int, now: nat)

  datatype Reason =
    | InvalidRequest | Conflict | LeaseLost | StaleFence | SwapFailed
    | NotRunning | NotFound | RecoveryRaced | NotAcknowledgeable | NotPending

  datatype Reply =
    | Refused(reason: Reason)
    | Thrown
    | Claimed(lease: Lease)
    | Renewed(expiresAt: nat)
    | Held(lease: Lease)
    | Released
    | Swapped(previousSha: Id, previousGeneration: nat, state: Mirror)
    | Began(created: bool, op: Id)
    | Appended(position: nat)
    | Staged(operation: Operation)
    | Recovered(operation: Operation)
    | Acknowledged(replay: bool)

  const DEFAULT_TTL_MS := 30000
  const MIN_TTL_MS := 1000

  function Ttl(ttl: int): nat { Max(MIN_TTL_MS, if ttl == 0 then DEFAULT_TTL_MS else ttl) }

  function LastFence(t: Tables, repo: Id): nat { if repo in t.fences then t.fences[repo] else 0 }

  // ---------- Leases and fences ----------

  predicate LeaseIdTaken(t: Tables, repo: Id, lease: Id) {
    exists other | other in t.leases :: other != repo && t.leases[other].leaseId == lease
  }

  function DoClaim(t: Tables, r: Request): (Tables, Reply)
    requires r.Claim?
  {
    if NoId in {r.repo, r.lease, r.op, r.kind, r.owner} then (t, Refused(InvalidRequest))
    else if r.repo in t.leases && t.leases[r.repo].expiresAt > r.now then (t, Refused(Conflict))
    else if LeaseIdTaken(t, r.repo, r.lease) then (t, Thrown)
    else
      var held := if r.repo in t.leases then t.leases[r.repo].fence else 0;
      var token := Max(LastFence(t, r.repo), held) + 1;
      var row := Lease(r.lease, r.op, r.kind, r.owner, r.pid, token, r.now, r.now, r.now + Ttl(r.ttl));
      (t.(fences := t.fences[r.repo := token], leases := t.leases[r.repo := row]), Claimed(row))
  }

  predicate Matches(t: Tables, repo: Id, lease: Id, owner: Id, fence: int) {
    repo in t.leases && t.leases[repo].leaseId == lease && t.leases[repo].owner == owner
      && t.leases[repo].fence == fence
  }

  predicate FenceIsLast(t: Tables, repo: Id) {
    repo in t.leases && repo in t.fences && t.fences[repo] == t.leases[repo].fence
  }

  function DoRenew(t: Tables, r: Request): (Tables, Reply)
    requires r.Renew?
  {
    if Matches(t, r.repo, r.lease, r.owner, r.fence) && t.leases[r.repo].expiresAt > r.now then
      var row := t.leases[r.repo].(heartbeatAt := r.now, expiresAt := r.now + Ttl(r.ttl));
      (t.(leases := t.leases[r.repo := row]), Renewed(row.expiresAt))
    else (t, Refused(LeaseLost))
  }

  function DoAssert(t: Tables, r: Request): (Tables, Reply)
    requires r.Assert?
  {
    if Matches(t, r.repo, r.lease, r.owner, r.fence) && t.leases[r.repo].expiresAt > r.now && FenceIsLast(t, r.repo)
    then (t, Held(t.leases[r.repo])) else (t, Refused(LeaseLost))
  }

  function DoRelease(t: Tables, r: Request): (Tables, Reply)
    requires r.Release?
  {
    if Matches(t, r.repo, r.lease, r.owner, r.fence) then (t.(leases := t.leases - {r.repo}), Released)
    else (t, Refused(LeaseLost))
  }

  function DoReleaseOrphan(t: Tables, r: Request): (Tables, Reply)
    requires r.ReleaseOrphan?
  {
    if Matches(t, r.repo, r.lease, r.owner, r.fence)
       && t.leases[r.repo].operationId == r.op && t.leases[r.repo].pid == r.pid
    then (t.(leases := t.leases - {r.repo}), Released)
    else (t, Refused(LeaseLost))
  }

  // ---------- Mirror compare-and-swap ----------

  predicate ActiveFence(t: Tables, repo: Id, op: Id, fence: int, now: nat) {
    && repo in t.leases && t.leases[repo].operationId == op && t.leases[repo].fence == fence
    && t.leases[repo].expiresAt > now && FenceIsLast(t, repo)
  }

  function Sha(t: Tables, key: MirrorKey): Id { if key in t.mirrors then t.mirrors[key].acceptedSha else NoId }

  function Generation(t: Tables, key: MirrorKey): nat { if key in t.mirrors then t.mirrors[key].generation else 0 }

  function DoSwap(t: Tables, r: Request): (Tables, Reply)
    requires r.Swap?
  {
    if NoId in {r.key.repo, r.key.remote, r.key.branch, r.acceptedSha} then (t, Refused(InvalidRequest))
    else if !ActiveFence(t, r.key.repo, r.op, r.fence, r.checkedAt) then (t, Refused(StaleFence))
    else if Sha(t, r.key) != r.expectedSha || Generation(t, r.key) != r.expectedGeneration then (t, Refused(SwapFailed))
    else
      var row := Mirror(r.acceptedSha, Generation(t, r.key) + 1, r.acceptedAt, r.op, r.fence);
      (t.(mirrors := t.mirrors[r.key := row]), Swapped(Sha(t, r.key), Generation(t, r.key), row))
  }

  // ---------- Journaled operations ----------

  function DoBegin(t: Tables, r: Request): (Tables, Reply)
    requires r.Begin?
  {
    var key := OpKey(r.repo, r.opType, r.idemKey);
    if NoId in {r.repo, r.opType, r.idemKey, r.op} then (t, Thrown)
    else if key in t.byKey then (t, Began(false, t.byKey[key]))
    else if r.op in t.operations then (t, Thrown)
    else
      var phase := if r.phase == NoPhase then Previewed else r.phase;
      var row := Operation(key, r.owner, Running, phase, NoId, None, None, r.now, None);
      (t.(operations := t.operations[r.op := row], byKey := t.byKey[key := r.op]), Began(true, r.op))
  }

  function Coalesce(first: Option<int>, second: Option<int>): Option<int> { if first.Some? then first else second }

  function DoAppend(t: Tables, r: Request): (Tables, Reply)
    requires r.Append?
  {
    if NoId in {r.op, r.repo} || r.phase == NoPhase then (t, Thrown)
    else
      var journal := t.journal + [JournalRow(r.op, r.repo, r.phase, r.journalFence, r.now)];
      var operations :=
        if r.op !in t.operations then t.operations
        else
          var o := t.operations[r.op];
          t.operations[r.op := o.(phase := r.phase, fence := Coalesce(r.journalFence, o.fence), updatedAt := r.now)];
      (t.(journal := journal, operations := operations), Appended(|journal|))
  }

  function DoStage(t: Tables, r: Request): (Tables, Reply)
    requires r.Stage?
  {
    if NoId in {r.op, r.owner} || r.phase == NoPhase || r.fence < 1 || r.result.None? then (t, Refused(InvalidRequest))
    else if r.op !in t.operations || t.operations[r.op].status != Running || t.operations[r.op].owner != r.owner then
      (t, Refused(NotRunning))
    else
      var o := t.operations[r.op];
      if !ActiveFence(t, o.key.repo, r.op, r.fence, r.now) || t.leases[o.key.repo].owner != r.owner then
        (t, Refused(StaleFence))
      else
        var row := o.(phase := r.phase, result := r.result, fence := Some(r.fence), updatedAt := r.now);
        (t.(journal := t.journal + [JournalRow(r.op, o.key.repo, r.phase, Some(r.fence), r.now)],
            operations := t.operations[r.op := row]),
         Staged(row))
  }

  function DoRecover(t: Tables, r: Request): (Tables, Reply)
    requires r.Recover?
  {
    if NoId in {r.op, r.owner} || r.status !in {Succeeded, RecoveryRequired}
       || r.phase !in {Verified, RecoveryPhase} then
      (t, Refused(InvalidRequest))
    else if r.op !in t.operations then (t, Refused(NotFound))
    else
      var o := t.operations[r.op];
      if o.status != Running then (t, Refused(NotRunning))
      else if o.owner != r.owner || (r.expectedUpdatedAt.Some? && r.expectedUpdatedAt.value != o.updatedAt) then
        (t, Refused(RecoveryRaced))
      else
        var row := o.(status := r.status, phase := r.phase, code := r.code, result := r.result,
                      fence := Coalesce(r.recoveryFence, o.fence), updatedAt := r.now, completedAt := Some(r.now));
        (t.(journal := t.journal + [JournalRow(r.op, o.key.repo, r.phase, Coalesce(r.recoveryFence, o.fence), r.now)],
            operations := t.operations[r.op := row]),
         Recovered(row))
  }

  function DoAcknowledge(t: Tables, r: Request): (Tables, Reply)
    requires r.Acknowledge?
  {
    if NoId in {r.op, r.idemKey} || r.registryGeneration < 1 || r.entryGeneration < 1 then (t, Refused(InvalidRequest))
    else if r.op !in t.operations then (t, Refused(NotAcknowledgeable))
    else
      var o := t.operations[r.op];
      if o.status != Succeeded || o.key.idemKey != r.idemKey || o.result.None? || o.result.value.marker != r.op then
        (t, Refused(NotAcknowledgeable))
      else if o.result.value.recovery == Applied then (t, Acknowledged(true))
      else if o.result.value.recovery != Pending then (t, Refused(NotPending))
      else
        var result := o.result.value.(recovery := Applied, appliedAt := r.now,
                                      registryGeneration := r.registryGeneration, entryGeneration := r.entryGeneration);
        (t.(operations := t.operations[r.op := o.(result := Some(result), updatedAt := r.now)]), Acknowledged(false))
  }

  // ---------- One step, and runs ----------

  function Step(t: Tables, r: Request): (Tables, Reply) {
    match r
    case Claim(_, _, _, _, _, _, _, _) => DoClaim(t, r)
    case Renew(_, _, _, _, _, _) => DoRenew(t, r)
    case Assert(_, _, _, _, _) => DoAssert(t, r)
    case Release(_, _, _, _) => DoRelease(t, r)
    case ReleaseOrphan(_, _, _, _, _, _) => DoReleaseOrphan(t, r)
    case Swap(_, _, _, _, _, _, _, _) => DoSwap(t, r)
    case Begin(_, _, _, _, _, _, _) => DoBegin(t, r)
    case Append(_, _, _, _, _) => DoAppend(t, r)
    case Stage(_, _, _, _, _, _) => DoStage(t, r)
    case Recover(_, _, _, _, _, _, _, _, _) => DoRecover(t, r)
    case Acknowledge(_, _, _, _, _) => DoAcknowledge(t, r)
  }

  /** The tables after the first n requests of a run. */
  function After(t: Tables, run: seq<Request>, n: nat): Tables
    requires n <= |run|
  {
    if n == 0 then t else Step(After(t, run, n - 1), run[n - 1]).0
  }

  /** What the request at position i was told. */
  function ReplyAt(t: Tables, run: seq<Request>, i: nat): Reply
    requires i < |run|
  {
    Step(After(t, run, i), run[i]).1
  }
}
