/** Safety of the Git controller over whole runs: arbitrary interleavings of requests from many
    owners, with arbitrary clock readings. */
module GitRuns {
  import opened Common
  import opened GitTables

  // ---------- What every step keeps ----------

  ghost predicate FencesOk(t: Tables) { LeasesOk(t) && MirrorsOk(t) && LeaseIdsOk(t) }

  /** Every stored lease carries the last fence of its repository. */
  ghost predicate LeasesOk(t: Tables) { forall repo | repo in t.leases :: FenceIsLast(t, repo) }

  /** No mirror was accepted under a token that was never issued. */
  ghost predicate MirrorsOk(t: Tables) {
    forall key | key in t.mirrors :: t.mirrors[key].fence <= LastFence(t, key.repo)
  }

  /** The UNIQUE constraint on lease ids. */
  ghost predicate LeaseIdsOk(t: Tables) {
    forall a, b | a in t.leases && b in t.leases && t.leases[a].leaseId == t.leases[b].leaseId :: a == b
  }

  /** Every operation is the one its idempotency key is registered to. */
  ghost predicate KeysOk(t: Tables) {
    && (forall op | op in t.operations :: t.operations[op].key in t.byKey && t.byKey[t.operations[op].key] == op)
    && (forall key | key in t.byKey :: t.byKey[key] in t.operations && t.operations[t.byKey[key]].key == key)
  }

  lemma FencesKept(t: Tables, r: Request)
    requires FencesOk(t)
    ensures FencesOk(Step(t, r).0)
  {
    LeasesKept(t, r);
    MirrorsKept(t, r);
    LeaseIdsKept(t, r);
  }

  lemma LeasesKept(t: Tables, r: Request)
    requires LeasesOk(t)
    ensures LeasesOk(Step(t, r).0)
  {
  }

  lemma MirrorsKept(t: Tables, r: Request)
    requires LeasesOk(t) && MirrorsOk(t)
    ensures MirrorsOk(Step(t, r).0)
  {
    forall key | key in Step(t, r).0.mirrors
      ensures Step(t, r).0.mirrors[key].fence <= LastFence(Step(t, r).0, key.repo)
    {
      FenceStep(t, r, key.repo);
      MirrorOrigin(t, r, key);
    }
  }

  lemma MirrorOrigin(t: Tables, r: Request, key: MirrorKey)
    requires key in Step(t, r).0.mirrors
    ensures (key in t.mirrors && Step(t, r).0.mirrors[key] == t.mirrors[key])
      || Step(t, r).0.mirrors[key].fence <= LastFence(Step(t, r).0, key.repo)
  {
  }

  lemma LeaseIdsKept(t: Tables, r: Request)
    requires LeaseIdsOk(t)
    ensures LeaseIdsOk(Step(t, r).0)
  {
    forall repo | repo in Step(t, r).0.leases ensures LeaseIdFrom(t, r, repo) { LeaseIdOrigin(t, r, repo); }
  }

  /** A lease id is the one stored before, or one that a claim just found free. */
  ghost predicate LeaseIdFrom(t: Tables, r: Request, repo: Id)
    requires repo in Step(t, r).0.leases
  {
    var id := Step(t, r).0.leases[repo].leaseId;
    || (repo in t.leases && t.leases[repo].leaseId == id)
    || (r.Claim? && r.repo == repo && !LeaseIdTaken(t, repo, id))
  }

  lemma LeaseIdOrigin(t: Tables, r: Request, repo: Id)
    requires repo in Step(t, r).0.leases
    ensures LeaseIdFrom(t, r, repo)
  {
  }

  lemma KeysKept(t: Tables, r: Request)
    requires KeysOk(t)
    ensures KeysOk(Step(t, r).0)
  {
    if !r.Begin? {
      KeysFramed(t, r);
      forall op | op in t.operations ensures Step(t, r).0.operations[op].key == t.operations[op].key {
        KeyFramed(t, r, op);
      }
    }
  }

  lemma KeysFramed(t: Tables, r: Request)
    requires !r.Begin?
    ensures Step(t, r).0.byKey == t.byKey && Step(t, r).0.operations.Keys == t.operations.Keys
  {
  }

  lemma KeyFramed(t: Tables, r: Request, op: Id)
    requires !r.Begin? && op in t.operations && op in Step(t, r).0.operations
    ensures Step(t, r).0.operations[op].key == t.operations[op].key
  {
  }

  lemma {:induction false} FencesAlways(t: Tables, run: seq<Request>, n: nat)
    requires FencesOk(t) && n <= |run|
    ensures FencesOk(After(t, run, n))
  {
    if n > 0 {
      FencesAlways(t, run, n - 1);
      FencesKept(After(t, run, n - 1), run[n - 1]);
    }
  }

  lemma {:induction false} KeysAlways(t: Tables, run: seq<Request>, n: nat)
    requires KeysOk(t) && n <= |run|
    ensures KeysOk(After(t, run, n))
  {
    if n > 0 {
      KeysAlways(t, run, n - 1);
      KeysKept(After(t, run, n - 1), run[n - 1]);
    }
  }

  // ---------- Fencing tokens ----------

  lemma FenceStep(t: Tables, r: Request, repo: Id)
    requires LeasesOk(t)
    ensures LastFence(t, repo) <= LastFence(Step(t, r).0, repo)
    ensures Step(t, r).1.Claimed? && r.repo == repo ==>
      LastFence(Step(t, r).0, repo) == Step(t, r).1.lease.fence > LastFence(t, repo)
  {
  }

  lemma {:induction false} FenceGrows(t: Tables, run: seq<Request>, i: nat, j: nat, repo: Id)
    requires FencesOk(t) && i <= j <= |run|
    ensures LastFence(After(t, run, i), repo) <= LastFence(After(t, run, j), repo)
    decreases j
  {
    if i < j {
      FenceGrows(t, run, i, j - 1, repo);
      FencesAlways(t, run, j - 1);
      FenceStep(After(t, run, j - 1), run[j - 1], repo);
    }
  }

  /** Request i was granted a lease on this repository. */
  ghost predicate Grants(t: Tables, run: seq<Request>, i: nat, repo: Id)
    requires i < |run|
  {
    run[i].Claim? && run[i].repo == repo && ReplyAt(t, run, i).Claimed?
  }

  /** Tokens issued for one repository strictly increase, whatever happens in between. */
  lemma TokensStrictlyIncrease(t: Tables, run: seq<Request>, i: nat, j: nat, repo: Id)
    requires FencesOk(t) && i < j < |run| && Grants(t, run, i, repo) && Grants(t, run, j, repo)
    ensures ReplyAt(t, run, i).lease.fence < ReplyAt(t, run, j).lease.fence
  {
    FencesAlways(t, run, i);
    FencesAlways(t, run, j);
    FenceStep(After(t, run, i), run[i], repo);
    FenceGrows(t, run, i + 1, j, repo);
    FenceStep(After(t, run, j), run[j], repo);
  }

  /** The token a request presents for a repository; a stage presents it for its operation's. */
  ghost predicate Presents(t: Tables, r: Request, repo: Id, token: int) {
    match r
    case Renew(p, _, _, f, _, _) => p == repo && f == token
    case Assert(p, _, _, f, _) => p == repo && f == token
    case Release(p, _, _, f) => p == repo && f == token
    case ReleaseOrphan(p, _, _, _, _, f) => p == repo && f == token
    case Swap(key, _, _, _, _, f, _, _) => key.repo == repo && f == token
    case Stage(op, _, _, f, _, _) => op in t.operations && t.operations[op].key.repo == repo && f == token
    case _ => false
  }

  lemma OldTokenRefused(t: Tables, r: Request, repo: Id, token: int)
    requires FencesOk(t) && Presents(t, r, repo, token) && token < LastFence(t, repo)
    ensures Step(t, r).0 == t && Step(t, r).1.Refused?
  {
  }

  /** Once a larger token has been issued, no request presenting an older one succeeds or touches
      anything, the successor's lease included. */
  lemma SupersededTokenIsDead(t: Tables, run: seq<Request>, i: nat, j: nat, repo: Id, token: int)
    requires FencesOk(t) && i < j < |run| && Grants(t, run, i, repo)
    requires token < ReplyAt(t, run, i).lease.fence && Presents(After(t, run, j), run[j], repo, token)
    ensures ReplyAt(t, run, j).Refused? && After(t, run, j + 1) == After(t, run, j)
  {
    FencesAlways(t, run, i);
    FenceStep(After(t, run, i), run[i], repo);
    FenceGrows(t, run, i + 1, j, repo);
    FencesAlways(t, run, j);
    OldTokenRefused(After(t, run, j), run[j], repo, token);
  }

  /** No release of this repository's lease succeeds among the requests from i up to j. */
  ghost predicate NoRelease(t: Tables, run: seq<Request>, i: nat, j: nat, repo: Id)
    requires i <= j <= |run|
    decreases j
  {
    i == j || (NoRelease(t, run, i, j - 1, repo) && (ReplyAt(t, run, j - 1) == Released ==> run[j - 1].repo != repo))
  }

  /** No lease on this repository is granted among the requests from i up to j. */
  ghost predicate NoGrant(t: Tables, run: seq<Request>, i: nat, j: nat, repo: Id)
    requires i <= j <= |run|
    decreases j
  {
    i == j || (NoGrant(t, run, i, j - 1, repo) && !Grants(t, run, j - 1, repo))
  }

  /** The last expiry that the holder granted by request i was told before request j. */
  ghost function ToldUntil(t: Tables, run: seq<Request>, i: nat, j: nat): nat
    requires i < j <= |run| && run[i].Claim? && ReplyAt(t, run, i).Claimed?
    decreases j
  {
    if j == i + 1 then ReplyAt(t, run, i).lease.expiresAt
    else if run[j - 1].Renew? && run[j - 1].repo == run[i].repo && ReplyAt(t, run, j - 1).Renewed?
    then ReplyAt(t, run, j - 1).expiresAt
    else ToldUntil(t, run, i, j - 1)
  }

  lemma LeaseStep(t: Tables, r: Request, repo: Id)
    requires repo in t.leases
    requires !(r.Claim? && r.repo == repo && Step(t, r).1.Claimed?)
    requires Step(t, r).1 == Released ==> r.repo != repo
    ensures var t' := Step(t, r).0;
      && repo in t'.leases && t'.leases[repo].fence == t.leases[repo].fence
      && t'.leases[repo].operationId == t.leases[repo].operationId && t'.leases[repo].owner == t.leases[repo].owner
      && t'.leases[repo].expiresAt ==
           if r.Renew? && r.repo == repo && Step(t, r).1.Renewed? then Step(t, r).1.expiresAt
           else t.leases[repo].expiresAt
  {
  }

  /** Until it is released or followed, a granted lease stays in place with the expiry last told. */
  lemma {:induction false} LeaseStays(t: Tables, run: seq<Request>, i: nat, j: nat, repo: Id)
    requires i < j <= |run| && Grants(t, run, i, repo)
    requires NoRelease(t, run, i + 1, j, repo) && NoGrant(t, run, i + 1, j, repo)
    ensures repo in After(t, run, j).leases
    ensures var row, lease := After(t, run, j).leases[repo], ReplyAt(t, run, i).lease;
      row.fence == lease.fence && row.operationId == lease.operationId && row.owner == lease.owner
        && row.expiresAt == ToldUntil(t, run, i, j)
    decreases j
  {
    if i + 1 < j {
      LeaseStays(t, run, i, j - 1, repo);
      LeaseStep(After(t, run, j - 1), run[j - 1], repo);
    }
  }

  /** Mutual exclusion over runs: if a lease is granted after another without a release between them,
      the earlier holder's last told expiry has passed on the later claimant's clock. */
  lemma SuccessorWaits(t: Tables, run: seq<Request>, i: nat, j: nat, repo: Id)
    requires i < j < |run| && Grants(t, run, i, repo) && Grants(t, run, j, repo)
    requires NoRelease(t, run, i + 1, j, repo) && NoGrant(t, run, i + 1, j, repo)
    ensures run[j].now >= ToldUntil(t, run, i, j)
  {
    LeaseStays(t, run, i, j, repo);
  }

  /** Request i is the latest grant before request n, and its lease has not been released since. */
  ghost predicate LatestGrant(t: Tables, run: seq<Request>, i: nat, n: nat, repo: Id)
    requires n <= |run|
  {
    i < n && Grants(t, run, i, repo) && NoGrant(t, run, i + 1, n, repo) && NoRelease(t, run, i + 1, n, repo)
  }

  /** Whatever lease is stored was granted last and is not released. */
  lemma {:induction false} StoredLeaseIsLatest(t: Tables, run: seq<Request>, n: nat, repo: Id) returns (i: nat)
    requires repo !in t.leases && n <= |run| && repo in After(t, run, n).leases
    ensures LatestGrant(t, run, i, n, repo)
  {
    if Grants(t, run, n - 1, repo) {
      i := n - 1;
    } else {
      LeaseOrigin(After(t, run, n - 1), run[n - 1], repo);
      i := StoredLeaseIsLatest(t, run, n - 1, repo);
      StillLatest(t, run, i, n, repo);
    }
  }

  lemma StillLatest(t: Tables, run: seq<Request>, i: nat, n: nat, repo: Id)
    requires 0 < n <= |run| && LatestGrant(t, run, i, n - 1, repo)
    requires !Grants(t, run, n - 1, repo) && (ReplyAt(t, run, n - 1) == Released ==> run[n - 1].repo != repo)
    ensures LatestGrant(t, run, i, n, repo)
  {
  }

  lemma LeaseOrigin(t: Tables, r: Request, repo: Id)
    requires repo in Step(t, r).0.leases && !(r.Claim? && r.repo == repo && Step(t, r).1.Claimed?)
    ensures repo in t.leases && (Step(t, r).1 == Released ==> r.repo != repo)
  {
  }

  /** Who passes the fence test of a swap or a stage was granted the latest lease on the repository,
      for this operation and under this token, and has not outlived the expiry last told. */
  lemma ActiveFenceIsLatestGrant(t: Tables, run: seq<Request>, n: nat, repo: Id, op: Id, fence: int, now: nat)
    returns (i: nat)
    requires repo !in t.leases && n <= |run| && ActiveFence(After(t, run, n), repo, op, fence, now)
    ensures LatestGrant(t, run, i, n, repo)
    ensures ReplyAt(t, run, i).lease.operationId == op && ReplyAt(t, run, i).lease.fence == fence
    ensures now < ToldUntil(t, run, i, n)
  {
    i := StoredLeaseIsLatest(t, run, n, repo);
    LeaseStays(t, run, i, n, repo);
  }

  /** A granted lease asserts exactly until its expiry by the asserting clock, and a renewal moves that
      to the renewing clock plus the new lifetime, at least a second. */
  lemma HeldUntilIff(t: Tables, r: Request, later: nat)
    requires FencesOk(t) && (r.Claim? || r.Renew?) && !Step(t, r).1.Refused? && !Step(t, r).1.Thrown?
    ensures r.repo in Step(t, r).0.leases
    ensures var t' := Step(t, r).0; var row := t'.leases[r.repo];
      && row.leaseId == r.lease && row.owner == r.owner && row.expiresAt >= r.now + 1000
      && (Step(t', Assert(r.repo, r.lease, r.owner, row.fence, later)).1.Held? <==>
        later < r.now + Max(1000, if r.ttl == 0 then 30000 else r.ttl))
  {
  }

  /** After a release the repository is free: the next claim is granted whatever its clock reads,
      under a larger token than the released one. */
  lemma ReleasedIsFree(t: Tables, r: Request, next: Request)
    requires FencesOk(t) && (r.Release? || r.ReleaseOrphan?) && Step(t, r).1 == Released
    requires next.Claim? && next.repo == r.repo && NoId !in {next.repo, next.lease, next.op, next.kind, next.owner}
    requires !LeaseIdTaken(Step(t, r).0, next.repo, next.lease)
    ensures Step(Step(t, r).0, next).1.Claimed? && Step(Step(t, r).0, next).1.lease.fence > r.fence
  {
    assert LastFence(Step(t, r).0, r.repo) == r.fence;
  }

  // ---------- The mirror chain ----------

  /** A successful swap: what it was asked to replace and to accept, and what it was told. */
  datatype Win = Win(expectedSha: Id, expectedGeneration: int, candidate: Id, previousSha: Id, state: Mirror)

  function WinOf(r: Request, reply: Reply): Win
    requires r.Swap? && reply.Swapped?
  {
    Win(r.expectedSha, r.expectedGeneration, r.acceptedSha, reply.previousSha, reply.state)
  }

  /** The swaps of one mirror that succeeded among the first n requests, in order. */
  ghost function Wins(t: Tables, run: seq<Request>, key: MirrorKey, n: nat): seq<Win>
    requires n <= |run|
  {
    if n == 0 then []
    else
      var earlier := Wins(t, run, key, n - 1);
      var r, reply := run[n - 1], ReplyAt(t, run, n - 1);
      if r.Swap? && r.key == key && reply.Swapped?
      then earlier + [WinOf(r, reply)] else earlier
  }

  /** Each win continues the one before it, the first one continues (sha, generation, fence). */
  ghost predicate Chain(wins: seq<Win>, sha: Id, generation: nat, fence: int) {
    wins == [] ||
    var n := |wins| - 1;
    Chain(wins[..n], sha, generation, fence) && Follows(wins[..n], wins[n], sha, generation, fence)
  }

  ghost predicate Follows(wins: seq<Win>, w: Win, sha: Id, generation: nat, fence: int) {
    && w.previousSha == w.expectedSha && w.state.acceptedSha == w.candidate
    && w.previousSha == (if wins == [] then sha else wins[|wins| - 1].state.acceptedSha)
    && w.expectedGeneration == generation + |wins| && w.state.generation == generation + |wins| + 1
    && w.state.fence >= (if wins == [] then fence else wins[|wins| - 1].state.fence)
  }

  lemma ChainSnoc(wins: seq<Win>, w: Win, sha: Id, generation: nat, fence: int)
    requires Chain(wins, sha, generation, fence) && Follows(wins, w, sha, generation, fence)
    ensures Chain(wins + [w], sha, generation, fence)
  {
    assert (wins + [w])[..|wins|] == wins;
  }

  ghost function MirrorFence(t: Tables, key: MirrorKey): int { if key in t.mirrors then t.mirrors[key].fence else 0 }

  /** The row is what the last win made it. */
  ghost predicate RowIs(t: Tables, key: MirrorKey, wins: seq<Win>, t0: Tables) {
    if wins == [] then
      (key in t.mirrors <==> key in t0.mirrors) && (key in t.mirrors ==> t.mirrors[key] == t0.mirrors[key])
    else key in t.mirrors && t.mirrors[key] == wins[|wins| - 1].state
  }

  lemma SwapStep(t: Tables, r: Request, key: MirrorKey)
    requires FencesOk(t)
    ensures var (t', reply) := Step(t, r);
      if r.Swap? && r.key == key && reply.Swapped? then
        && key in t'.mirrors && reply.state == t'.mirrors[key]
        && reply.previousSha == r.expectedSha == Sha(t, key) && reply.state.acceptedSha == r.acceptedSha
        && r.expectedGeneration == Generation(t, key) && reply.state.generation == Generation(t, key) + 1
        && reply.state.fence == LastFence(t, key.repo)
      else (key in t'.mirrors <==> key in t.mirrors) && (key in t.mirrors ==> t'.mirrors[key] == t.mirrors[key])
  {
  }

  /** The wins so far, and the row they have made. */
  ghost predicate ChainedUpTo(t: Tables, run: seq<Request>, key: MirrorKey, n: nat)
    requires n <= |run|
  {
    && Chain(Wins(t, run, key, n), Sha(t, key), Generation(t, key), MirrorFence(t, key))
    && RowIs(After(t, run, n), key, Wins(t, run, key, n), t)
  }

  /** Successful swaps of one mirror form an unbroken chain. */
  lemma {:induction false} MirrorChain(t: Tables, run: seq<Request>, key: MirrorKey, n: nat)
    requires FencesOk(t) && n <= |run|
    ensures ChainedUpTo(t, run, key, n)
  {
    if n > 0 {
      MirrorChain(t, run, key, n - 1);
      ChainStep(t, run, key, n);
    }
  }

  lemma ChainStep(t: Tables, run: seq<Request>, key: MirrorKey, n: nat)
    requires FencesOk(t) && 0 < n <= |run| && ChainedUpTo(t, run, key, n - 1)
    ensures ChainedUpTo(t, run, key, n)
  {
    FencesAlways(t, run, n - 1);
    ChainFrom(t, run, key, n, After(t, run, n - 1), Wins(t, run, key, n - 1));
  }

  lemma ChainFrom(t: Tables, run: seq<Request>, key: MirrorKey, n: nat, now: Tables, wins: seq<Win>)
    requires 0 < n <= |run| && now == After(t, run, n - 1) && wins == Wins(t, run, key, n - 1)
    requires FencesOk(now) && ChainedUpTo(t, run, key, n - 1)
    ensures ChainedUpTo(t, run, key, n)
  {
    var r, reply := run[n - 1], Step(now, run[n - 1]).1;
    SwapStep(now, r, key);
    if r.Swap? && r.key == key && reply.Swapped? {
      var win := WinOf(r, reply);
      WinFollows(now, key, wins, t, win);
      ChainSnoc(wins, win, Sha(t, key), Generation(t, key), MirrorFence(t, key));
    }
  }

  /** A win that continues the row continues the chain that made the row. */
  lemma WinFollows(now: Tables, key: MirrorKey, wins: seq<Win>, t: Tables, win: Win)
    requires Chain(wins, Sha(t, key), Generation(t, key), MirrorFence(t, key)) && RowIs(now, key, wins, t)
    requires win.previousSha == win.expectedSha == Sha(now, key) && win.expectedGeneration == Generation(now, key)
    requires win.state.acceptedSha == win.candidate
    requires win.state.generation == Generation(now, key) + 1 && win.state.fence >= MirrorFence(now, key)
    ensures Follows(wins, win, Sha(t, key), Generation(t, key), MirrorFence(t, key))
  {
    ChainLast(wins, Sha(t, key), Generation(t, key), MirrorFence(t, key));
  }

  lemma ChainLast(wins: seq<Win>, sha: Id, generation: nat, fence: int)
    requires Chain(wins, sha, generation, fence)
    ensures wins != [] ==> wins[|wins| - 1].state.generation == generation + |wins|
  {
  }

  /** Read off the chain: generations count the wins, so at most one swap wins per generation. */
  lemma {:induction false} ChainAt(wins: seq<Win>, sha: Id, generation: nat, fence: int, k: nat)
    requires Chain(wins, sha, generation, fence) && k < |wins|
    ensures wins[k].expectedGeneration == generation + k && wins[k].state.generation == generation + k + 1
    ensures wins[k].state.acceptedSha == wins[k].candidate && wins[k].previousSha == wins[k].expectedSha
    ensures k > 0 ==>
      wins[k].previousSha == wins[k - 1].state.acceptedSha && wins[k].state.fence >= wins[k - 1].state.fence
  {
    var n := |wins| - 1;
    if k < n { ChainAt(wins[..n], sha, generation, fence, k); }
  }

  lemma OneWinnerPerGeneration(t: Tables, run: seq<Request>, key: MirrorKey, i: nat, j: nat)
    requires FencesOk(t) && i < |Wins(t, run, key, |run|)| && j < |Wins(t, run, key, |run|)|
    ensures var wins := Wins(t, run, key, |run|);
      wins[i].expectedGeneration == wins[j].expectedGeneration ==> i == j
  {
    MirrorChain(t, run, key, |run|);
    var wins := Wins(t, run, key, |run|);
    ChainAt(wins, Sha(t, key), Generation(t, key), MirrorFence(t, key), i);
    ChainAt(wins, Sha(t, key), Generation(t, key), MirrorFence(t, key), j);
  }

  /** A request that is refused or throws leaves every table as it was. */
  lemma FailureChangesNothing(t: Tables, r: Request)
    ensures Step(t, r).1.Refused? || Step(t, r).1.Thrown? ==> Step(t, r).0 == t
  {
  }

  // ---------- Operations: registered once, settled once, acknowledged once ----------

  lemma {:induction false} KeyStaysRegistered(t: Tables, run: seq<Request>, i: nat, j: nat, key: OpKey)
    requires i <= j <= |run| && key in After(t, run, i).byKey
    ensures key in After(t, run, j).byKey && After(t, run, j).byKey[key] == After(t, run, i).byKey[key]
    decreases j
  {
    if i < j {
      KeyStaysRegistered(t, run, i, j - 1, key);
      KeyStep(After(t, run, j - 1), run[j - 1], key);
    }
  }

  lemma KeyStep(t: Tables, r: Request, key: OpKey)
    requires key in t.byKey
    ensures key in Step(t, r).0.byKey && Step(t, r).0.byKey[key] == t.byKey[key]
  {
  }

  /** All begins under one idempotency key get the same operation; only the first creates it. */
  lemma BeginIsIdempotent(t: Tables, run: seq<Request>, i: nat, j: nat)
    requires i < j < |run| && run[i].Begin? && run[j].Begin?
    requires OpKey(run[i].repo, run[i].opType, run[i].idemKey) == OpKey(run[j].repo, run[j].opType, run[j].idemKey)
    requires ReplyAt(t, run, i).Began? && ReplyAt(t, run, j).Began?
    ensures ReplyAt(t, run, j) == Began(false, ReplyAt(t, run, i).op)
    ensures After(t, run, j + 1) == After(t, run, j)
  {
    KeyStaysRegistered(t, run, i + 1, j, OpKey(run[i].repo, run[i].opType, run[i].idemKey));
  }

  ghost predicate Settled(t: Tables, op: Id) { op in t.operations && t.operations[op].status != Running }

  lemma {:induction false} SettledForever(t: Tables, run: seq<Request>, i: nat, j: nat, op: Id)
    requires i <= j <= |run| && Settled(After(t, run, i), op)
    ensures Settled(After(t, run, j), op)
    ensures After(t, run, j).operations[op].status == After(t, run, i).operations[op].status
    decreases j
  {
    if i < j {
      SettledForever(t, run, i, j - 1, op);
      SettledStep(After(t, run, j - 1), run[j - 1], op);
    }
  }

  lemma SettledStep(t: Tables, r: Request, op: Id)
    requires Settled(t, op)
    ensures Settled(Step(t, r).0, op) && Step(t, r).0.operations[op].status == t.operations[op].status
    ensures AppliedTo(t, op) ==> Step(t, r).0.operations[op].result == t.operations[op].result
  {
  }

  /** Recovery takes an operation out of RUNNING at most once, and no stage follows it. */
  lemma RecoversOnce(t: Tables, run: seq<Request>, i: nat, j: nat)
    requires i < j < |run| && run[i].Recover? && ReplyAt(t, run, i).Recovered?
    requires (run[j].Recover? || run[j].Stage?) && run[j].op == run[i].op
    ensures ReplyAt(t, run, j).Refused?
  {
    RecoverySettles(After(t, run, i), run[i]);
    SettledForever(t, run, i + 1, j, run[i].op);
    SettledRefuses(After(t, run, j), run[j]);
  }

  lemma RecoverySettles(t: Tables, r: Request)
    requires r.Recover? && Step(t, r).1.Recovered?
    ensures Settled(Step(t, r).0, r.op)
  {
  }

  lemma SettledRefuses(t: Tables, r: Request)
    requires (r.Recover? || r.Stage?) && Settled(t, r.op)
    ensures Step(t, r).1.Refused?
  {
  }

  ghost predicate AppliedTo(t: Tables, op: Id) {
    Settled(t, op) && t.operations[op].result.Some? && t.operations[op].result.value.recovery == Applied
  }

  lemma {:induction false} AppliedForever(t: Tables, run: seq<Request>, i: nat, j: nat, op: Id)
    requires i <= j <= |run| && AppliedTo(After(t, run, i), op)
    ensures AppliedTo(After(t, run, j), op)
    ensures After(t, run, j).operations[op].result == After(t, run, i).operations[op].result
    decreases j
  {
    if i < j {
      AppliedForever(t, run, i, j - 1, op);
      SettledStep(After(t, run, j - 1), run[j - 1], op);
    }
  }

  /** An acknowledgement is applied once: later ones are at most replays and change nothing. */
  lemma AcknowledgesOnce(t: Tables, run: seq<Request>, i: nat, j: nat)
    requires i < j < |run| && run[i].Acknowledge? && ReplyAt(t, run, i) == Acknowledged(false)
    requires run[j].Acknowledge? && run[j].op == run[i].op
    ensures ReplyAt(t, run, j) != Acknowledged(false) && After(t, run, j + 1) == After(t, run, j)
  {
    AppliedForever(t, run, i + 1, j, run[i].op);
  }

  // ---------- The phase of an operation and its journal ----------

  ghost function LastPhase(journal: seq<JournalRow>, op: Id): Phase {
    if journal == [] then NoPhase
    else if journal[|journal| - 1].op == op then journal[|journal| - 1].phase
    else LastPhase(journal[..|journal| - 1], op)
  }

  /** The operation is in the phase it journaled last, if it journaled any. */
  ghost predicate PhaseJournaled(t: Tables, op: Id) {
    op in t.operations && LastPhase(t.journal, op) != NoPhase ==> t.operations[op].phase == LastPhase(t.journal, op)
  }

  function InitialPhase(r: Request): Phase
    requires r.Begin?
  {
    if r.phase == NoPhase then Previewed else r.phase
  }

  /** A begin that creates an operation whose id was journaled earlier, last under another phase than
      it starts in: the key is new, the operation is new, the journal is not. */
  ghost predicate BeginsOverJournal(t: Tables, r: Request, op: Id) {
    && r.Begin? && r.op == op && NoId !in {r.repo, r.opType, r.idemKey, r.op}
    && OpKey(r.repo, r.opType, r.idemKey) !in t.byKey && op !in t.operations
    && LastPhase(t.journal, op) !in {NoPhase, InitialPhase(r)}
  }

  lemma JournalGrows(journal: seq<JournalRow>, row: JournalRow, op: Id)
    ensures LastPhase(journal + [row], op) == if row.op == op then row.phase else LastPhase(journal, op)
  {
    assert (journal + [row])[..|journal|] == journal;
  }

  /** Exactly when a step lets the phase and the journal drift apart. */
  lemma PhaseKeptIff(t: Tables, r: Request, op: Id)
    requires PhaseJournaled(t, op)
    ensures PhaseJournaled(Step(t, r).0, op) <==> !BeginsOverJournal(t, r, op)
  {
    if r.Begin? {
      BeginOnly(t, r, op);
    } else {
      PhaseStep(t, r, op);
      var t' := Step(t, r).0;
      if t'.journal != t.journal {
        JournalStep(t, r);
        JournalGrows(t.journal, t'.journal[|t.journal|], op);
      }
    }
  }

  lemma BeginOnly(t: Tables, r: Request, op: Id)
    requires r.Begin?
    ensures Step(t, r).0.journal == t.journal
    ensures var t' := Step(t, r).0; op in t'.operations && op in t.operations ==> t'.operations[op] == t.operations[op]
    ensures var t' := Step(t, r).0; op in t'.operations && op !in t.operations ==>
      r.op == op && Step(t, r).1 == Began(true, op) && t'.operations[op].phase == InitialPhase(r)
    ensures Step(t, r).1 == Began(true, op) && op !in t.operations ==> op in Step(t, r).0.operations && r.op == op
  {
  }

  /** What a step other than a begin adds to the journal: nothing, or one row for its operation. */
  lemma JournalStep(t: Tables, r: Request)
    requires !r.Begin? && Step(t, r).0.journal != t.journal
    ensures (r.Append? || r.Stage? || r.Recover?) && |Step(t, r).0.journal| == |t.journal| + 1
    ensures var row := Step(t, r).0.journal[|t.journal|];
      Step(t, r).0.journal == t.journal + [row] && row.op == r.op && row.phase == r.phase
  {
  }

  /** Past its begin, an operation's phase changes only to the phase journaled in the same step. */
  lemma PhaseStep(t: Tables, r: Request, op: Id)
    requires !r.Begin?
    ensures op in Step(t, r).0.operations <==> op in t.operations
    ensures var t' := Step(t, r).0;
      var journaled := t'.journal != t.journal && (r.Append? || r.Stage? || r.Recover?) && r.op == op;
      op in t.operations ==> t'.operations[op].phase == (if journaled then r.phase else t.operations[op].phase)
  {
  }

  /** None of the first n requests journals for an operation that has not begun. */
  ghost predicate JournalsOnlyBegun(t: Tables, run: seq<Request>, n: nat)
    requires n <= |run|
  {
    n == 0 ||
    (JournalsOnlyBegun(t, run, n - 1) && (run[n - 1].Append? ==> run[n - 1].op in After(t, run, n - 1).operations))
  }

  ghost predicate JournalOwned(t: Tables) {
    forall row | row in t.journal :: row.op in t.operations
  }

  lemma OwnedJournalHasNoStrangers(journal: seq<JournalRow>, op: Id)
    requires forall row | row in journal :: row.op != op
    ensures LastPhase(journal, op) == NoPhase
  {
    if journal != [] {
      assert journal[|journal| - 1] in journal;
      OwnedJournalHasNoStrangers(journal[..|journal| - 1], op);
    }
  }

  /** The operation is in its last journaled phase after each of the first n requests. */
  ghost predicate AgreesThroughout(t: Tables, run: seq<Request>, n: nat, op: Id)
    requires n <= |run|
  {
    PhaseJournaled(After(t, run, n), op) && (n == 0 || AgreesThroughout(t, run, n - 1, op))
  }

  ghost predicate NeverBeginsOverJournal(t: Tables, run: seq<Request>, n: nat, op: Id)
    requires n <= |run|
  {
    n == 0 || (NeverBeginsOverJournal(t, run, n - 1, op) && !BeginsOverJournal(After(t, run, n - 1), run[n - 1], op))
  }

  /** Over every run whatsoever, an operation is always in the phase journaled last for it exactly if
      it was not begun over a journal that ended in another phase. */
  lemma {:induction false} PhaseIsLastJournaledIff(t: Tables, run: seq<Request>, n: nat, op: Id)
    requires n <= |run| && PhaseJournaled(t, op)
    ensures AgreesThroughout(t, run, n, op) <==> NeverBeginsOverJournal(t, run, n, op)
  {
    if n > 0 {
      PhaseIsLastJournaledIff(t, run, n - 1, op);
      if AgreesThroughout(t, run, n - 1, op) {
        assert PhaseJournaled(After(t, run, n - 1), op);
        PhaseKeptIff(After(t, run, n - 1), run[n - 1], op);
      }
    }
  }

  /** In particular in every run that journals only for operations that exist. */
  lemma {:induction false} PhaseIsLastJournaled(t: Tables, run: seq<Request>, n: nat, op: Id)
    requires n <= |run| && JournalsOnlyBegun(t, run, n) && JournalOwned(t) && PhaseJournaled(t, op)
    ensures PhaseJournaled(After(t, run, n), op) && JournalOwned(After(t, run, n))
  {
    if n > 0 {
      PhaseIsLastJournaled(t, run, n - 1, op);
      var now := After(t, run, n - 1);
      PhaseKeptIff(now, run[n - 1], op);
      if op !in now.operations { OwnedJournalHasNoStrangers(now.journal, op); }
      OwnershipKept(now, run[n - 1]);
    }
  }

  lemma OwnershipKept(t: Tables, r: Request)
    requires JournalOwned(t) && (r.Append? ==> r.op in t.operations)
    ensures JournalOwned(Step(t, r).0)
  {
  }

  /** The journal accepts rows for operations that do not exist; beginning one afterwards leaves
      it in a phase other than the last one journaled for it. */
  lemma JournalBeforeBegin(op: Id, repo: Id, opType: Id, idemKey: Id, owner: Id)
    requires NoId !in {op, repo, opType, idemKey}
    ensures var empty := Tables(map[], map[], map[], map[], map[], []);
      var run := [Append(op, repo, Verified, None, 0), Begin(op, repo, opType, idemKey, Previewed, owner, 0)];
      !PhaseJournaled(After(empty, run, 2), op)
  {
    var empty := Tables(map[], map[], map[], map[], map[], []);
    var run := [Append(op, repo, Verified, None, 0), Begin(op, repo, opType, idemKey, Previewed, owner, 0)];
    assert After(empty, run, 0) == empty;
    var one := After(empty, run, 1);
    assert one == DoAppend(empty, run[0]).0;
    PhaseKeptIff(one, run[1], op);
    JournalGrows([], JournalRow(op, repo, Verified, None, 0), op);
    assert one.journal == [] + [JournalRow(op, repo, Verified, None, 0)];
  }
}
