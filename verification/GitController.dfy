/** The Git controller's store: each method runs one transaction on the tables, statement by
    statement, and is proved to take exactly the step of GitTables. */
module GitController {
  import opened Common
  import opened GitTables
  import opened GitRuns

  class Store {
    var fences: map<Id, nat>
    var leases: map<Id, Lease>
    var mirrors: map<MirrorKey, Mirror>
    var operations: map<Id, Operation>
    var byKey: map<OpKey, Id>
    var journal: seq<JournalRow>

    constructor ()
      ensures Contents() == Tables(map[], map[], map[], map[], map[], [])
      ensures FencesOk(Contents()) && KeysOk(Contents()) && JournalOwned(Contents())
    {
      fences, leases, mirrors, operations, byKey, journal := map[], map[], map[], map[], map[], [];
    }

    ghost function Contents(): Tables
      reads this
    {
      Tables(fences, leases, mirrors, operations, byKey, journal)
    }

    method ClaimLease(repo: Id, lease: Id, op: Id, kind: Id, owner: Id, pid: int, now: nat, ttl: int)
      returns (reply: Reply)
      modifies this
      ensures (Contents(), reply) == DoClaim(old(Contents()), Claim(repo, lease, op, kind, owner, pid, now, ttl))
    {
      if NoId in {repo, lease, op, kind, owner} { return Refused(InvalidRequest); }
      var fences0, leases0 := fences, leases;
      var existing := if repo in leases then Some(leases[repo]) else None;
      if existing.Some? && existing.value.expiresAt > now { return Refused(Conflict); }
      var lastFence := if repo in fences then fences[repo] else 0;
      var held := if existing.Some? then existing.value.fence else 0;
      var token := Max(lastFence, held) + 1;
      fences := fences[repo := token];
      leases := leases - {repo};
      if exists other | other in leases :: leases[other].leaseId == lease {
        assert LeaseIdTaken(old(Contents()), repo, lease);
        // The insert violates the unique lease id; the transaction rolls back.
        fences, leases := fences0, leases0;
        return Thrown;
      }
      assert !LeaseIdTaken(old(Contents()), repo, lease) by {
        assert forall other | other in leases0 && other != repo :: other in leases;
      }
      leases := leases[repo := Lease(lease, op, kind, owner, pid, token, now, now, now + Ttl(ttl))];
      assert leases == leases0[repo := leases[repo]];
      reply := Claimed(leases[repo]);
    }

    method RenewLease(repo: Id, lease: Id, owner: Id, fence: int, now: nat, ttl: int) returns (reply: Reply)
      modifies this`leases
      ensures (Contents(), reply) == DoRenew(old(Contents()), Renew(repo, lease, owner, fence, now, ttl))
    {
      var expiresAt := now + Ttl(ttl);
      var changes := 0;
      if repo in leases {
        var row := leases[repo];
        if row.leaseId == lease && row.owner == owner && row.fence == fence && row.expiresAt > now {
          leases := leases[repo := row.(heartbeatAt := now, expiresAt := expiresAt)];
          changes := 1;
        }
      }
      reply := if changes == 1 then Renewed(expiresAt) else Refused(LeaseLost);
    }

    method AssertLease(repo: Id, lease: Id, owner: Id, fence: int, now: nat) returns (reply: Reply)
      ensures (Contents(), reply) == DoAssert(Contents(), Assert(repo, lease, owner, fence, now))
    {
      if repo in leases && repo in fences {
        var row := leases[repo];
        if row.leaseId == lease && row.owner == owner && row.fence == fence && row.expiresAt > now
           && fences[repo] == row.fence {
          return Held(row);
        }
      }
      reply := Refused(LeaseLost);
    }

    method ReleaseLease(repo: Id, lease: Id, owner: Id, fence: int) returns (reply: Reply)
      modifies this`leases
      ensures (Contents(), reply) == DoRelease(old(Contents()), Release(repo, lease, owner, fence))
    {
      var changes := 0;
      if repo in leases {
        var row := leases[repo];
        if row.leaseId == lease && row.owner == owner && row.fence == fence {
          leases := leases - {repo};
          changes := 1;
        }
      }
      reply := if changes == 1 then Released else Refused(LeaseLost);
    }

    method ReleaseOrphanedLease(repo: Id, lease: Id, op: Id, owner: Id, pid: int, fence: int) returns (reply: Reply)
      modifies this`leases
      ensures (Contents(), reply) == DoReleaseOrphan(old(Contents()), ReleaseOrphan(repo, lease, op, owner, pid, fence))
    {
      var changes := 0;
      if repo in leases {
        var row := leases[repo];
        if row.leaseId == lease && row.operationId == op && row.owner == owner && row.pid == pid && row.fence == fence {
          leases := leases - {repo};
          changes := 1;
        }
      }
      reply := if changes == 1 then Released else Refused(LeaseLost);
    }

    method HasActiveFence(repo: Id, op: Id, fence: int, now: nat) returns (found: bool)
      ensures found == ActiveFence(Contents(), repo, op, fence, now)
    {
      found := repo in leases && repo in fences && leases[repo].operationId == op && leases[repo].fence == fence
               && leases[repo].expiresAt > now && fences[repo] == leases[repo].fence;
    }

    method CompareAndSwapMirror(key: MirrorKey, expectedSha: Id, expectedGeneration: int, acceptedSha: Id,
                                op: Id, fence: int, checkedAt: nat, acceptedAt: nat) returns (reply: Reply)
      modifies this`mirrors
      ensures (Contents(), reply) ==
        DoSwap(old(Contents()),
          Swap(key, expectedSha, expectedGeneration, acceptedSha, op, fence, checkedAt, acceptedAt))
    {
      if NoId in {key.repo, key.remote, key.branch, acceptedSha} { return Refused(InvalidRequest); }
      var active := HasActiveFence(key.repo, op, fence, checkedAt);
      if !active { return Refused(StaleFence); }
      var actualSha := if key in mirrors then mirrors[key].acceptedSha else NoId;
      var actualGeneration := if key in mirrors then mirrors[key].generation else 0;
      if actualSha != expectedSha || actualGeneration != expectedGeneration { return Refused(SwapFailed); }
      mirrors := mirrors[key := Mirror(acceptedSha, actualGeneration + 1, acceptedAt, op, fence)];
      reply := Swapped(actualSha, actualGeneration, mirrors[key]);
    }

    method BeginOperation(op: Id, repo: Id, opType: Id, idemKey: Id, phase: Phase, owner: Id, now: nat)
      returns (reply: Reply)
      modifies this`operations, this`byKey
      ensures (Contents(), reply) == DoBegin(old(Contents()), Begin(op, repo, opType, idemKey, phase, owner, now))
    {
      if NoId in {repo, opType, idemKey, op} { return Thrown; }
      var key := OpKey(repo, opType, idemKey);
      if key in byKey { return Began(false, byKey[key]); }
      if op in operations { return Thrown; }
      var first := if phase == NoPhase then Previewed else phase;
      operations := operations[op := Operation(key, owner, Running, first, NoId, None, None, now, None)];
      byKey := byKey[key := op];
      reply := Began(true, op);
    }

    method AppendJournal(op: Id, repo: Id, phase: Phase, fence: Option<int>, now: nat) returns (reply: Reply)
      modifies this`operations, this`journal
      ensures (Contents(), reply) == DoAppend(old(Contents()), Append(op, repo, phase, fence, now))
    {
      if NoId in {op, repo} || phase == NoPhase { return Thrown; }
      journal := journal + [JournalRow(op, repo, phase, fence, now)];
      if op in operations {
        var o := operations[op];
        operations := operations[op := o.(phase := phase, fence := Coalesce(fence, o.fence), updatedAt := now)];
      }
      reply := Appended(|journal|);
    }

    /** The update is conditional on what was read in the same transaction, so it always applies. */
    method StageRecovery(op: Id, owner: Id, phase: Phase, fence: int, result: Option<OpResult>, now: nat)
      returns (reply: Reply)
      modifies this`operations, this`journal
      ensures (Contents(), reply) == DoStage(old(Contents()), Stage(op, owner, phase, fence, result, now))
    {
      if NoId in {op, owner} || phase == NoPhase || fence < 1 || result.None? { return Refused(InvalidRequest); }
      if op !in operations || operations[op].status != Running || operations[op].owner != owner {
        return Refused(NotRunning);
      }
      var current := operations[op];
      var active := HasActiveFence(current.key.repo, op, fence, now);
      if !active || leases[current.key.repo].owner != owner { return Refused(StaleFence); }
      journal := journal + [JournalRow(op, current.key.repo, phase, Some(fence), now)];
      var changed := 0;
      if operations[op].status == Running && operations[op].owner == owner {
        operations := operations[op := operations[op].(
          phase := phase, result := result, fence := Some(fence), updatedAt := now)];
        changed := 1;
      }
      if changed != 1 {
        assert false;
      }
      reply := Staged(operations[op]);
    }

    method RecoverOperation(op: Id, owner: Id, expectedUpdatedAt: Option<nat>, status: Status, phase: Phase, code: Id,
                            result: Option<OpResult>, fence: Option<int>, now: nat) returns (reply: Reply)
      modifies this`operations, this`journal
      ensures (Contents(), reply) ==
        DoRecover(old(Contents()), Recover(op, owner, expectedUpdatedAt, status, phase, code, result, fence, now))
    {
      if NoId in {op, owner} || status !in {Succeeded, RecoveryRequired} || phase !in {Verified, RecoveryPhase} {
        return Refused(InvalidRequest);
      }
      if op !in operations { return Refused(NotFound); }
      var current := operations[op];
      if current.status != Running { return Refused(NotRunning); }
      if current.owner != owner || (expectedUpdatedAt.Some? && current.updatedAt != expectedUpdatedAt.value) {
        return Refused(RecoveryRaced);
      }
      journal := journal + [JournalRow(op, current.key.repo, phase, Coalesce(fence, current.fence), now)];
      var changed := 0;
      if operations[op].status == Running && operations[op].owner == owner
         && operations[op].updatedAt == current.updatedAt {
        operations := operations[op := operations[op].(status := status, phase := phase, code := code, result := result,
          fence := Coalesce(fence, operations[op].fence), updatedAt := now, completedAt := Some(now))];
        changed := 1;
      }
      if changed != 1 {
        assert false;
      }
      reply := Recovered(operations[op]);
    }

    method AcknowledgeRegistryRecovery(op: Id, idemKey: Id, registryGeneration: int, entryGeneration: int, now: nat)
      returns (reply: Reply)
      modifies this`operations
      ensures (Contents(), reply) ==
        DoAcknowledge(old(Contents()), Acknowledge(op, idemKey, registryGeneration, entryGeneration, now))
    {
      if NoId in {op, idemKey} || registryGeneration < 1 || entryGeneration < 1 { return Refused(InvalidRequest); }
      if op !in operations { return Refused(NotAcknowledgeable); }
      var current := operations[op];
      if current.status != Succeeded || current.key.idemKey != idemKey || current.result.None?
         || current.result.value.marker != op {
        return Refused(NotAcknowledgeable);
      }
      if current.result.value.recovery == Applied { return Acknowledged(true); }
      if current.result.value.recovery != Pending { return Refused(NotPending); }
      var result := current.result.value.(recovery := Applied, appliedAt := now,
        registryGeneration := registryGeneration, entryGeneration := entryGeneration);
      var changed := 0;
      if operations[op].status == Succeeded && operations[op].updatedAt == current.updatedAt {
        operations := operations[op := operations[op].(result := Some(result), updatedAt := now)];
        changed := 1;
      }
      if changed != 1 {
        assert false;
      }
      reply := Acknowledged(false);
    }
  }
}
