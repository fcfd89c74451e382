/** What each request of the Git controller does, as its caller sees it: exactly when it is granted, and
    what is stored afterwards under its own name. What it does not name stays as it was. */
module GitEffects {
  import opened Common
  import opened GitTables
  import opened GitRuns

  // ---------- Nothing else changes ----------

  /** A request about one repository leaves the leases and fences of all others alone. */
  lemma OtherRepositoriesStay(t: Tables, r: Request, repo: Id)
    requires (r.Claim? || r.Renew? || r.Assert? || r.Release? || r.ReleaseOrphan?) ==> r.repo != repo
    ensures var t' := Step(t, r).0;
      && LastFence(t', repo) == LastFence(t, repo)
      && (repo in t'.leases <==> repo in t.leases)
      && (repo in t.leases ==> t'.leases[repo] == t.leases[repo])
  {
  }

  /** Only a swap of this mirror changes it. */
  lemma OtherMirrorsStay(t: Tables, r: Request, key: MirrorKey)
    requires r.Swap? ==> r.key != key
    ensures key in Step(t, r).0.mirrors <==> key in t.mirrors
    ensures key in t.mirrors ==> Step(t, r).0.mirrors[key] == t.mirrors[key]
  {
  }

  predicate OfOperations(r: Request) { r.Begin? || r.Append? || r.Stage? || r.Recover? || r.Acknowledge? }

  /** Only a request naming an operation changes it. */
  lemma OtherOperationsStay(t: Tables, r: Request, op: Id)
    requires OfOperations(r) ==> r.op != op
    ensures op in Step(t, r).0.operations <==> op in t.operations
    ensures op in t.operations ==> Step(t, r).0.operations[op] == t.operations[op]
  {
  }

  /** Requests about operations touch no lease, fence or mirror; all others touch no operation, no key
      and no journal. */
  lemma TablesApart(t: Tables, r: Request)
    ensures OfOperations(r) ==>
      Step(t, r).0.leases == t.leases && Step(t, r).0.fences == t.fences && Step(t, r).0.mirrors == t.mirrors
    ensures !OfOperations(r) ==> Step(t, r).0.operations == t.operations && Step(t, r).0.journal == t.journal
    ensures !r.Begin? ==> Step(t, r).0.byKey == t.byKey
  {
  }

  // ---------- Leases ----------

  predicate Standing(t: Tables, repo: Id, now: nat) { repo in t.leases && now < t.leases[repo].expiresAt }

  /** A complete claim is granted exactly if no unexpired lease stands and its lease id is free. Its
      token is the next one, and the lease is the claimant's. */
  lemma ClaimGrantedIff(t: Tables, r: Request)
    requires FencesOk(t) && r.Claim? && NoId !in {r.repo, r.lease, r.op, r.kind, r.owner}
    ensures Step(t, r).1.Claimed? <==> !Standing(t, r.repo, r.now) && !LeaseIdTaken(t, r.repo, r.lease)
    ensures Step(t, r).1 == Refused(Conflict) <==> Standing(t, r.repo, r.now)
    ensures Step(t, r).1.Claimed? ==> r.repo in Step(t, r).0.leases
    ensures Step(t, r).1.Claimed? ==>
      var row := Step(t, r).0.leases[r.repo];
      && row == Step(t, r).1.lease && row.fence == LastFence(t, r.repo) + 1 == LastFence(Step(t, r).0, r.repo)
      && row.leaseId == r.lease && row.operationId == r.op && row.kind == r.kind
      && row.owner == r.owner && row.pid == r.pid && row.acquiredAt == row.heartbeatAt == r.now
  {
  }

  /** Who a lease belongs to: its id, its owner and its token. */
  predicate Owns(t: Tables, repo: Id, lease: Id, owner: Id, fence: int) {
    repo in t.leases && t.leases[repo].leaseId == lease && t.leases[repo].owner == owner
      && t.leases[repo].fence == fence
  }

  /** A renewal succeeds exactly for the owner of an unexpired lease. It moves the heartbeat to the
      renewing clock and tells the stored expiry, and changes nothing else of the lease. */
  lemma RenewedIff(t: Tables, r: Request)
    requires r.Renew?
    ensures Step(t, r).1.Renewed? <==> Owns(t, r.repo, r.lease, r.owner, r.fence) && Standing(t, r.repo, r.now)
    ensures Step(t, r).1.Renewed? ==> r.repo in Step(t, r).0.leases
    ensures Step(t, r).1.Renewed? ==>
      var row := Step(t, r).0.leases[r.repo];
      && row.heartbeatAt == r.now && row.expiresAt == Step(t, r).1.expiresAt
      && row.(heartbeatAt := 0, expiresAt := 0) == t.leases[r.repo].(heartbeatAt := 0, expiresAt := 0)
    ensures Step(t, r).0.fences == t.fences
  {
  }

  /** In a consistent state an assertion holds exactly for the owner of an unexpired lease, and tells it. */
  lemma HeldIff(t: Tables, r: Request)
    requires FencesOk(t) && r.Assert?
    ensures Step(t, r).1.Held? <==> Owns(t, r.repo, r.lease, r.owner, r.fence) && Standing(t, r.repo, r.now)
    ensures Step(t, r).1.Held? ==> Step(t, r).1.lease == t.leases[r.repo]
    ensures Step(t, r).0 == t
  {
  }

  /** A lease is released exactly by its owner, expired or not; an orphaned one by whoever names its
      operation and process besides. The fence stays, so no token is issued twice. */
  lemma ReleasedIff(t: Tables, r: Request)
    requires r.Release? || r.ReleaseOrphan?
    ensures Step(t, r).1 == Released <==>
      && Owns(t, r.repo, r.lease, r.owner, r.fence)
      && (r.ReleaseOrphan? ==> t.leases[r.repo].operationId == r.op && t.leases[r.repo].pid == r.pid)
    ensures Step(t, r).1 == Released ==> r.repo !in Step(t, r).0.leases && Step(t, r).0.fences == t.fences
  {
  }

  // ---------- Mirrors ----------

  /** A complete swap succeeds exactly if its operation holds the fence and the stored sha and generation
      are the expected ones. The mirror then holds the candidate, at the next generation, under the
      operation and the token of the swap. */
  lemma SwappedIff(t: Tables, r: Request)
    requires r.Swap? && NoId !in {r.key.repo, r.key.remote, r.key.branch, r.acceptedSha}
    ensures Step(t, r).1.Swapped? <==>
      && ActiveFence(t, r.key.repo, r.op, r.fence, r.checkedAt)
      && Sha(t, r.key) == r.expectedSha && Generation(t, r.key) == r.expectedGeneration
    ensures Step(t, r).1 == Refused(StaleFence) <==> !ActiveFence(t, r.key.repo, r.op, r.fence, r.checkedAt)
    ensures Step(t, r).1.Swapped? ==> r.key in Step(t, r).0.mirrors && Step(t, r).1.state == Step(t, r).0.mirrors[r.key]
    ensures Step(t, r).1.Swapped? ==>
      var row := Step(t, r).0.mirrors[r.key];
      && row.acceptedSha == r.acceptedSha && row.operationId == r.op && row.acceptedAt == r.acceptedAt
      && row.fence == r.fence && row.generation == r.expectedGeneration + 1
    ensures Step(t, r).1.Swapped? ==>
      Step(t, r).1.previousSha == r.expectedSha && Step(t, r).1.previousGeneration == r.expectedGeneration
  {
  }

  /** The fence is active for an operation exactly if it holds the unexpired lease and presents its token. */
  lemma ActiveFenceIff(t: Tables, repo: Id, op: Id, fence: int, now: nat)
    requires FencesOk(t)
    ensures ActiveFence(t, repo, op, fence, now) <==>
      Standing(t, repo, now) && t.leases[repo].operationId == op && fence == LastFence(t, repo)
  {
  }

  // ---------- Operations ----------

  /** A complete begin creates an operation exactly if neither its key nor its id is known. It runs, in
      the phase given or else PREVIEWED, without token, code or result. */
  lemma BegunIff(t: Tables, r: Request)
    requires KeysOk(t) && r.Begin? && NoId !in {r.repo, r.opType, r.idemKey, r.op}
    ensures Step(t, r).1 == Began(true, r.op) <==>
      r.op !in t.operations && forall o | o in t.operations :: t.operations[o].key != OpKey(r.repo, r.opType, r.idemKey)
    ensures Step(t, r).1 == Began(true, r.op) ==>
      && r.op in Step(t, r).0.operations && OpKey(r.repo, r.opType, r.idemKey) in Step(t, r).0.byKey
      && Step(t, r).0.byKey[OpKey(r.repo, r.opType, r.idemKey)] == r.op
    ensures Step(t, r).1 == Began(true, r.op) ==>
      var o := Step(t, r).0.operations[r.op];
      && o.key == OpKey(r.repo, r.opType, r.idemKey) && o.owner == r.owner && o.status == Running
      && o.phase == (if r.phase == NoPhase then Previewed else r.phase) && o.updatedAt == r.now
      && o.code == NoId && o.fence.None? && o.result.None? && o.completedAt.None?
    ensures Step(t, r).0.journal == t.journal
  {
  }

  /** The row a step journals for an operation. */
  ghost predicate Journals(t: Tables, t': Tables, op: Id, repo: Id, phase: Phase, fence: Option<int>, now: nat) {
    t'.journal == t.journal + [JournalRow(op, repo, phase, fence, now)]
  }

  /** The token an operation keeps when a request may or may not bring one. */
  ghost predicate TokenKept(after: Option<int>, brought: Option<int>, before: Option<int>) {
    (brought.Some? ==> after == brought) && (brought.None? ==> after == before)
  }

  /** A complete journal entry is always accepted, last in the journal. A known operation takes over its
      phase and clock, and its token if it has one; nothing else of it changes. */
  lemma AppendedAlways(t: Tables, r: Request)
    requires r.Append? && NoId !in {r.op, r.repo} && r.phase != NoPhase
    ensures Step(t, r).1 == Appended(|t.journal| + 1)
    ensures Journals(t, Step(t, r).0, r.op, r.repo, r.phase, r.journalFence, r.now)
    ensures r.op in t.operations ==> r.op in Step(t, r).0.operations
    ensures r.op in t.operations ==>
      var o, o' := t.operations[r.op], Step(t, r).0.operations[r.op];
      && o'.phase == r.phase && o'.updatedAt == r.now && TokenKept(o'.fence, r.journalFence, o.fence)
      && o'.key == o.key && o'.owner == o.owner && o'.status == o.status && o'.code == o.code
      && o'.result == o.result && o'.completedAt == o.completedAt
  {
  }

  /** A complete stage succeeds exactly for the owner of a running operation that holds the fence as the
      lease's owner too. It journals its phase and stores the result under the token. */
  lemma StagedIff(t: Tables, r: Request)
    requires r.Stage? && NoId !in {r.op, r.owner} && r.phase != NoPhase && r.fence >= 1 && r.result.Some?
    ensures Step(t, r).1.Staged? <==>
      && r.op in t.operations && t.operations[r.op].status == Running && t.operations[r.op].owner == r.owner
      && ActiveFence(t, t.operations[r.op].key.repo, r.op, r.fence, r.now)
      && t.leases[t.operations[r.op].key.repo].owner == r.owner
    ensures Step(t, r).1.Staged? ==>
      Journals(t, Step(t, r).0, r.op, t.operations[r.op].key.repo, r.phase, Some(r.fence), r.now)
    ensures Step(t, r).1.Staged? ==>
      r.op in Step(t, r).0.operations && Step(t, r).1.operation == Step(t, r).0.operations[r.op]
    ensures Step(t, r).1.Staged? ==>
      var o, o' := t.operations[r.op], Step(t, r).1.operation;
      && o'.phase == r.phase && o'.result == r.result && o'.fence == Some(r.fence) && o'.updatedAt == r.now
      && o'.key == o.key && o'.owner == o.owner && o'.status == Running && o'.code == o.code
      && o'.completedAt == o.completedAt
  {
  }

  predicate TerminalPair(r: Request)
    requires r.Recover?
  {
    (r.status == Succeeded || r.status == RecoveryRequired) && (r.phase == Verified || r.phase == RecoveryPhase)
  }

  /** A complete recovery is granted exactly for the owner of an operation that is still running and, if a
      time is expected, was last updated then. The operation then has the status, phase, code and result
      asked for, is completed, and the journal says so. */
  lemma RecoveredIff(t: Tables, r: Request)
    requires r.Recover? && NoId !in {r.op, r.owner} && TerminalPair(r)
    ensures Step(t, r).1.Recovered? <==>
      && r.op in t.operations && t.operations[r.op].status == Running && t.operations[r.op].owner == r.owner
      && (r.expectedUpdatedAt.Some? ==> t.operations[r.op].updatedAt == r.expectedUpdatedAt.value)
    ensures Step(t, r).1.Recovered? ==>
      r.op in Step(t, r).0.operations && Step(t, r).1.operation == Step(t, r).0.operations[r.op]
    ensures Step(t, r).1.Recovered? ==>
      var o, o' := t.operations[r.op], Step(t, r).1.operation;
      && o'.status == r.status && o'.phase == r.phase && o'.code == r.code && o'.result == r.result
      && o'.updatedAt == r.now && o'.completedAt == Some(r.now) && TokenKept(o'.fence, r.recoveryFence, o.fence)
      && o'.key == o.key && o'.owner == o.owner
      && Journals(t, Step(t, r).0, r.op, o.key.repo, r.phase, o'.fence, r.now)
  {
  }

  /** Incomplete recoveries and those to any other status or phase are refused. */
  lemma OnlyTerminalRecoveries(t: Tables, r: Request)
    requires r.Recover? && (NoId in {r.op, r.owner} || !TerminalPair(r))
    ensures Step(t, r) == (t, Refused(InvalidRequest))
  {
  }

  /** A recovery waits to be acknowledged: the operation succeeded and its result carries its own id. */
  predicate AwaitsAcknowledgement(t: Tables, op: Id, idemKey: Id, state: RecoveryState) {
    && op in t.operations && t.operations[op].status == Succeeded && t.operations[op].key.idemKey == idemKey
    && t.operations[op].result.Some? && t.operations[op].result.value.marker == op
    && t.operations[op].result.value.recovery == state
  }

  /** A complete acknowledgement is applied exactly to a pending recovery and repeated exactly on an
      applied one. Applied, the result says when and at which generations; the rest of it stays. */
  lemma AcknowledgedIff(t: Tables, r: Request)
    requires r.Acknowledge? && NoId !in {r.op, r.idemKey} && r.registryGeneration >= 1 && r.entryGeneration >= 1
    ensures Step(t, r).1 == Acknowledged(false) <==> AwaitsAcknowledgement(t, r.op, r.idemKey, Pending)
    ensures Step(t, r).1 == Acknowledged(true) <==> AwaitsAcknowledgement(t, r.op, r.idemKey, Applied)
    ensures Step(t, r).1 == Acknowledged(false) ==>
      r.op in Step(t, r).0.operations && Step(t, r).0.operations[r.op].result.Some?
    ensures Step(t, r).1 == Acknowledged(false) ==>
      var o, o' := t.operations[r.op], Step(t, r).0.operations[r.op];
      var was, now := o.result.value, o'.result.value;
      && now.recovery == Applied && now.appliedAt == r.now && now.marker == was.marker && now.rest == was.rest
      && now.registryGeneration == r.registryGeneration && now.entryGeneration == r.entryGeneration
      && o'.(result := None, updatedAt := 0) == o.(result := None, updatedAt := 0) && o'.updatedAt == r.now
    ensures Step(t, r).0.journal == t.journal
  {
  }
}
