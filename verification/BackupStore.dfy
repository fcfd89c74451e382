/** Content-addressed backups: rows share blobs by hash, pruning drops the oldest rows of a source
    and collects the blobs nobody refers to any more. */
module BackupStore {
  import opened Common

  datatype Bytes = Bytes(content: string)

  /** The primitives the store relies on, and where each id stands in the collation of ids. */
  datatype Codec = Codec(sha: Bytes -> Id, gzip: Bytes -> Bytes, gunzip: Bytes -> Bytes, rank: Id -> real)

  ghost predicate Lawful(c: Codec) { HashesApart(c) && Unzips(c) && Collates(c) }

  ghost predicate HashesApart(c: Codec) {
    forall x, y :: c.sha(x) == c.sha(y) ==> x == y
  }

  ghost predicate Unzips(c: Codec) { forall x :: c.gunzip(c.gzip(x)) == x }

  ghost predicate Collates(c: Codec) {
    forall a, b :: c.rank(a) == c.rank(b) ==> a == b
  }

  /** Rows from before blobs existed carry their data themselves and have no hash. */
  datatype Backup = Stored(createdAt: nat, source: Id, hash: Id) | Legacy(createdAt: nat, source: Id, data: Bytes)
  datatype Blob = Blob(gzipped: bool, data: Bytes)
  datatype Tables = Tables(backups: map<Id, Backup>, blobs: map<Id, Blob>)

  const DEFAULT_KEEP := 48
  const MAX_KEEP := 1000

  function KeepCount(keep: int): nat { Max(1, Min(MAX_KEEP, if keep == 0 then DEFAULT_KEEP else keep)) }

  function Encode(c: Codec, raw: Bytes): Blob {
    var zipped := c.gzip(raw);
    if |zipped.content| < |raw.content| then Blob(true, zipped) else Blob(false, raw)
  }

  function DecodeBlob(c: Codec, b: Blob): Bytes { if b.gzipped then c.gunzip(b.data) else b.data }

  /** What reading a backup returns; None when the row or its blob is missing. */
  function Read(c: Codec, t: Tables, id: Id): Option<Bytes> {
    if id !in t.backups then None
    else match t.backups[id]
      case Legacy(_, _, data) => Some(data)
      case Stored(_, _, hash) => if hash in t.blobs then Some(DecodeBlob(c, t.blobs[hash])) else None
  }

  function Referenced(backups: map<Id, Backup>): set<Id> {
    set id | id in backups && backups[id].Stored? :: backups[id].hash
  }

  function Collect(t: Tables): Tables {
    t.(blobs := map h | h in t.blobs && h in Referenced(t.backups) :: t.blobs[h])
  }

  // ---------- The two transactions ----------

  /** None when the id is taken: the transaction rolls back. */
  function Insert(c: Codec, t: Tables, id: Id, source: Id, createdAt: nat, raw: Bytes): Option<Tables> {
    if id in t.backups then None
    else
      var hash := c.sha(raw);
      Some(Tables(t.backups[id := Stored(createdAt, source, hash)],
                  if hash in t.blobs then t.blobs else t.blobs[hash := Encode(c, raw)]))
  }

  function OfSource(t: Tables, source: Id): set<Id> { set id | id in t.backups && t.backups[id].source == source }

  predicate Newer(c: Codec, t: Tables, a: Id, b: Id)
    requires a in t.backups && b in t.backups
  {
    t.backups[a].createdAt > t.backups[b].createdAt
    || (t.backups[a].createdAt == t.backups[b].createdAt && c.rank(a) > c.rank(b))
  }

  function NewerThan(c: Codec, t: Tables, ids: set<Id>, id: Id): set<Id>
    requires ids <= t.backups.Keys && id in t.backups
  {
    set o | o in ids && Newer(c, t, o, id)
  }

  /** The rows past the newest k of a source. */
  function Stale(c: Codec, t: Tables, source: Id, k: nat): set<Id> {
    set id | id in OfSource(t, source) && |NewerThan(c, t, OfSource(t, source), id)| >= k
  }

  /** The transaction that deletes rows chosen before it. */
  function Remove(t: Tables, ids: set<Id>): Tables { if ids == {} then t else Collect(t.(backups := t.backups - ids)) }

  /** A prune that nobody interrupts between choosing its rows and deleting them. */
  function Prune(c: Codec, t: Tables, source: Id, keep: int): Tables { Remove(t, Stale(c, t, source, KeepCount(keep))) }

  // ---------- The store ----------

  class Store {
    const codec: Codec
    var backups: map<Id, Backup>
    var blobs: map<Id, Blob>

    constructor (codec: Codec)
      ensures this.codec == codec && Contents() == Tables(map[], map[])
    {
      this.codec := codec;
      backups, blobs := map[], map[];
    }

    ghost function Contents(): Tables
      reads this
    {
      Tables(backups, blobs)
    }

    method InsertBackup(id: Id, source: Id, createdAt: nat, raw: Bytes) returns (ok: bool)
      modifies this
      ensures ok <==> Insert(codec, old(Contents()), id, source, createdAt, raw).Some?
      ensures Contents() ==
        if ok then Insert(codec, old(Contents()), id, source, createdAt, raw).value else old(Contents())
    {
      var hash, encoded, blobs0 := codec.sha(raw), Encode(codec, raw), blobs;
      if hash !in blobs { blobs := blobs[hash := encoded]; }
      if id in backups {
        blobs := blobs0;
        return false;
      }
      backups := backups[id := Stored(createdAt, source, hash)];
      ok := true;
    }

    /** The ids of a source, newest first. */
    method SelectNewestFirst(source: Id) returns (ids: seq<Id>)
      requires Lawful(codec)
      ensures SortedBy(codec, Contents(), ids) && Elements(ids) == OfSource(Contents(), source)
    {
      var todo := set id | id in backups && backups[id].source == source;
      ids := [];
      while todo != {}
        invariant SortedBy(codec, Contents(), ids)
        invariant todo !! Elements(ids) && todo + Elements(ids) == OfSource(Contents(), source)
        decreases todo
      {
        var id :| id in todo;
        InsertSortedOk(codec, Contents(), ids, id);
        ids := InsertSorted(codec, Tables(backups, blobs), ids, id);
        todo := todo - {id};
      }
    }

    /** The rows past the newest ones, chosen outside any transaction. */
    method SelectStale(source: Id, keep: int) returns (stale: seq<Id>)
      requires Lawful(codec)
      ensures Elements(stale) == Stale(codec, Contents(), source, KeepCount(keep))
      ensures |stale| == |Stale(codec, Contents(), source, KeepCount(keep))|
    {
      var k := KeepCount(keep);
      var ids := SelectNewestFirst(source);
      StaleIsTail(codec, Contents(), source, ids, k);
      StaleCount(codec, Contents(), source, ids, k);
      stale := if |ids| <= k then [] else ids[k..];
    }

    method DeleteStale(stale: seq<Id>)
      modifies this
      ensures Contents() == Remove(old(Contents()), Elements(stale))
    {
      if |stale| == 0 { return; }
      assert stale[0] in Elements(stale);
      RemoveRows(stale);
      CollectBlobs();
    }

    method PruneBackups(source: Id, keep: int) returns (deleted: nat)
      requires Lawful(codec)
      modifies this
      ensures Contents() == Prune(codec, old(Contents()), source, keep)
      ensures deleted == |Stale(codec, old(Contents()), source, KeepCount(keep))|
    {
      var stale := SelectStale(source, keep);
      DeleteStale(stale);
      deleted := |stale|;
    }

    method RemoveRows(ids: seq<Id>)
      modifies this`backups
      ensures backups == old(backups) - Elements(ids)
    {
      for i := 0 to |ids|
        invariant backups == old(backups) - Elements(ids[..i])
      {
        assert ids[..i + 1] == ids[..i] + [ids[i]];
        assert Elements(ids[..i + 1]) == Elements(ids[..i]) + {ids[i]};
        backups := backups - {ids[i]};
      }
      assert ids[..|ids|] == ids;
    }

    method CollectBlobs()
      modifies this`blobs
      ensures Contents() == Collect(old(Contents()))
    {
      blobs := map h |
        h in blobs && exists id :: id in backups && backups[id].Stored? && backups[id].hash == h :: blobs[h];
    }
  }

  ghost predicate SortedBy(c: Codec, t: Tables, ids: seq<Id>) {
    && (forall id | id in ids :: id in t.backups)
    && (forall i, j | 0 <= i < j < |ids| :: Newer(c, t, ids[i], ids[j]))
  }

  function InsertSorted(c: Codec, t: Tables, ids: seq<Id>, id: Id): seq<Id>
    requires id in t.backups && forall o | o in ids :: o in t.backups
  {
    if ids == [] || Newer(c, t, id, ids[0]) then [id] + ids else [ids[0]] + InsertSorted(c, t, ids[1..], id)
  }

  lemma {:induction false} InsertSortedOk(c: Codec, t: Tables, ids: seq<Id>, id: Id)
    requires Lawful(c) && SortedBy(c, t, ids) && id in t.backups && id !in ids
    ensures SortedBy(c, t, InsertSorted(c, t, ids, id))
    ensures Elements(InsertSorted(c, t, ids, id)) == Elements(ids) + {id}
  {
    var out := InsertSorted(c, t, ids, id);
    if ids != [] && !Newer(c, t, id, ids[0]) {
      InsertSortedOk(c, t, ids[1..], id);
      var rest := InsertSorted(c, t, ids[1..], id);
      forall j | 0 <= j < |rest| ensures Newer(c, t, ids[0], rest[j]) {
        assert rest[j] in Elements(rest);
        if rest[j] != id { assert rest[j] in ids[1..]; }
      }
    }
    forall o ensures o in Elements(out) <==> o in Elements(ids) + {id} {
      if ids != [] { assert ids == [ids[0]] + ids[1..]; }
    }
  }

  /** In a sorted list, the rows newer than the one at position i are the i rows before it. */
  lemma RankIsPosition(c: Codec, t: Tables, ids: seq<Id>, i: nat)
    requires Lawful(c) && SortedBy(c, t, ids) && i < |ids|
    ensures Elements(ids) <= t.backups.Keys
    ensures ids[i] in t.backups && NewerThan(c, t, Elements(ids), ids[i]) == Elements(ids[..i])
    ensures |Elements(ids[..i])| == i
  {
    forall o ensures o in NewerThan(c, t, Elements(ids), ids[i]) <==> o in Elements(ids[..i]) {
      if o in ids {
        var j :| 0 <= j < |ids| && ids[j] == o;
        if j < i { assert ids[..i][j] == o; }
      }
    }
    SortedIsDistinct(c, t, ids, i);
  }

  lemma SortedIsDistinct(c: Codec, t: Tables, ids: seq<Id>, i: nat)
    requires Lawful(c) && SortedBy(c, t, ids) && i <= |ids|
    ensures |Elements(ids[..i])| == i
  {
    forall j, k | 0 <= j < k < i ensures ids[..i][j] != ids[..i][k] { assert Newer(c, t, ids[j], ids[k]); }
    CardOfDistinct(ids[..i]);
  }

  lemma StaleIsTail(c: Codec, t: Tables, source: Id, ids: seq<Id>, k: nat)
    requires Lawful(c) && SortedBy(c, t, ids) && Elements(ids) == OfSource(t, source)
    ensures Stale(c, t, source, k) == if |ids| <= k then {} else Elements(ids[k..])
  {
    forall id ensures id in Stale(c, t, source, k) <==> k < |ids| && id in ids[k..] {
      if id in Elements(ids) {
        var i :| 0 <= i < |ids| && ids[i] == id;
        RankIsPosition(c, t, ids, i);
        if i >= k { assert ids[k..][i - k] == id; }
      }
      if k < |ids| && id in ids[k..] {
        var j :| 0 <= j < |ids[k..]| && ids[k..][j] == id;
        RankIsPosition(c, t, ids, k + j);
        assert id in Elements(ids);
      }
    }
  }

  lemma StaleCount(c: Codec, t: Tables, source: Id, ids: seq<Id>, k: nat)
    requires Lawful(c) && SortedBy(c, t, ids) && Elements(ids) == OfSource(t, source)
    ensures |Stale(c, t, source, k)| == if |ids| <= k then 0 else |ids| - k
    ensures |OfSource(t, source)| == |ids|
  {
    StaleIsTail(c, t, source, ids, k);
    SortedIsDistinct(c, t, ids, |ids|);
    assert ids[..|ids|] == ids;
    if k < |ids| {
      var tail := ids[k..];
      assert SortedBy(c, t, tail);
      SortedIsDistinct(c, t, tail, |tail|);
      assert tail[..|tail|] == tail;
    }
  }

  lemma {:induction false} SortedListExists(c: Codec, t: Tables, ids: set<Id>) returns (s: seq<Id>)
    requires Lawful(c) && ids <= t.backups.Keys
    ensures SortedBy(c, t, s) && Elements(s) == ids
    decreases ids
  {
    if ids == {} {
      s := [];
    } else {
      var id :| id in ids;
      var rest := SortedListExists(c, t, ids - {id});
      InsertSortedOk(c, t, rest, id);
      s := InsertSorted(c, t, rest, id);
    }
  }

  lemma KeptAreNewer(c: Codec, t: Tables, source: Id, k: nat, a: Id, b: Id)
    requires Lawful(c) && a in OfSource(t, source) && b in Stale(c, t, source, k) && a !in Stale(c, t, source, k)
    ensures Newer(c, t, a, b)
  {
    var all := OfSource(t, source);
    if !Newer(c, t, a, b) {
      assert NewerThan(c, t, all, b) <= NewerThan(c, t, all, a);
      SubsetCard(NewerThan(c, t, all, b), NewerThan(c, t, all, a));
    }
  }

  lemma PruneRemoves(c: Codec, t: Tables, source: Id, keep: int)
    ensures Prune(c, t, source, keep).backups == t.backups - Stale(c, t, source, KeepCount(keep))
    ensures OfSource(Prune(c, t, source, keep), source) == OfSource(t, source) - Stale(c, t, source, KeepCount(keep))
  {
  }

  /** Pruning keeps exactly the newest rows of the source and touches no other source. */
  lemma PruneKeepsNewest(c: Codec, t: Tables, source: Id, keep: int)
    requires Lawful(c)
    ensures var t' := Prune(c, t, source, keep);
      && |OfSource(t', source)| == Min(KeepCount(keep), |OfSource(t, source)|)
      && (forall a, b | a in OfSource(t', source) && b in OfSource(t, source) - OfSource(t', source) ::
        Newer(c, t, a, b))
  {
    var k, all := KeepCount(keep), OfSource(t, source);
    var stale := Stale(c, t, source, k);
    PruneRemoves(c, t, source, keep);
    forall a, b | a in all - stale && b in stale ensures Newer(c, t, a, b) { KeptAreNewer(c, t, source, k, a, b); }
    var ids := SortedListExists(c, t, all);
    StaleCount(c, t, source, ids, k);
    assert |all - stale| == |all| - |stale|;
  }

  /** A removed row is older than every row left of its source; of the same age, its id comes earlier. */
  lemma PrunedAreOlder(c: Codec, t: Tables, source: Id, keep: int, left: Id, gone: Id)
    requires Lawful(c) && left in OfSource(Prune(c, t, source, keep), source)
    requires gone in OfSource(t, source) - OfSource(Prune(c, t, source, keep), source)
    ensures left in t.backups && gone in t.backups
    ensures t.backups[left].createdAt >= t.backups[gone].createdAt
    ensures t.backups[left].createdAt == t.backups[gone].createdAt ==> c.rank(left) > c.rank(gone)
  {
    PruneRemoves(c, t, source, keep);
    PruneKeepsNewest(c, t, source, keep);
    assert Newer(c, t, left, gone);
  }

  /** How many a prune leaves: what it is asked for, between 1 and 1000, and 48 if it is not asked. */
  lemma PruneLeaves(c: Codec, t: Tables, source: Id, keep: int)
    requires Lawful(c)
    ensures var n, left := |OfSource(t, source)|, |OfSource(Prune(c, t, source, keep), source)|;
      && (1 <= keep <= 1000 ==> left == if n < keep then n else keep)
      && (keep == 0 ==> left == if n < 48 then n else 48)
      && (keep < 0 ==> left == if n == 0 then 0 else 1)
      && (keep > 1000 ==> left == if n < 1000 then n else 1000)
  {
    PruneKeepsNewest(c, t, source, keep);
  }

  /** An insert succeeds exactly under a new id, and the row is the one inserted; others stay. */
  lemma InsertedIff(c: Codec, t: Tables, id: Id, source: Id, createdAt: nat, raw: Bytes)
    ensures Insert(c, t, id, source, createdAt, raw).Some? <==> id !in t.backups
    ensures id !in t.backups ==>
      var t' := Insert(c, t, id, source, createdAt, raw).value;
      && t'.backups == t.backups[id := Stored(createdAt, source, c.sha(raw))]
      && t'.blobs.Keys == t.blobs.Keys + {c.sha(raw)} && forall h | h in t.blobs :: t'.blobs[h] == t.blobs[h]
  {
  }

  /** A new blob is stored compressed exactly if that is shorter. */
  lemma CompressedIff(c: Codec, t: Tables, id: Id, source: Id, createdAt: nat, raw: Bytes)
    requires id !in t.backups && c.sha(raw) !in t.blobs
    ensures var blob := Insert(c, t, id, source, createdAt, raw).value.blobs[c.sha(raw)];
      && (blob.gzipped <==> |c.gzip(raw).content| < |raw.content|)
      && blob.data == if blob.gzipped then c.gzip(raw) else raw
  {
  }

  lemma PruneSparesOthers(c: Codec, t: Tables, source: Id, keep: int, id: Id)
    requires id in t.backups
    ensures var t' := Prune(c, t, source, keep);
      && (id in t'.backups ==> t'.backups[id] == t.backups[id])
      && (t.backups[id].source != source ==> id in t'.backups)
  {
  }

  /** Whatever other processes do between the choice and the deletion, a prune removes from its source
      just the rows it chose, and every row that it knew and did not choose is newer than each of them. */
  lemma LatePruneTakesStale(c: Codec, t: Tables, later: Tables, source: Id, keep: int)
    requires Lawful(c)
    ensures var all, stale := OfSource(t, source), Stale(c, t, source, KeepCount(keep));
      && OfSource(Remove(later, stale), source) == OfSource(later, source) - stale
      && |all - stale| == Min(KeepCount(keep), |all|)
      && (forall a, b | a in all - stale && b in stale :: Newer(c, t, a, b))
  {
    var stale := Stale(c, t, source, KeepCount(keep));
    RemoveTakes(later, stale, source);
    RemoveTakes(t, stale, source);
    PruneKeepsNewest(c, t, source, keep);
    assert OfSource(t, source) - (OfSource(t, source) - stale) == stale;
  }

  /** If the others only inserted, the newest rows there were at the choice and everything inserted since
      remain. */
  lemma LatePruneKeepsNewest(c: Codec, t: Tables, later: Tables, source: Id, keep: int)
    requires Lawful(c) && forall id | id in t.backups :: id in later.backups && later.backups[id] == t.backups[id]
    ensures var kept := OfSource(Prune(c, t, source, keep), source);
      var since := OfSource(later, source) - OfSource(t, source);
      && OfSource(Remove(later, Stale(c, t, source, KeepCount(keep))), source) == kept + since && kept !! since
      && |kept| == Min(KeepCount(keep), |OfSource(t, source)|)
      && (forall a, b | a in kept && b in OfSource(t, source) - kept :: Newer(c, t, a, b))
  {
    var stale := Stale(c, t, source, KeepCount(keep));
    PruneRemoves(c, t, source, keep);
    PruneKeepsNewest(c, t, source, keep);
    RemoveTakes(later, stale, source);
    SplitBySource(OfSource(t, source), OfSource(later, source), stale);
  }

  /** Two prunes of one source that chose their rows at the same time remove together what the stricter
      of them removes alone. */
  lemma OverlappingPrunes(c: Codec, t: Tables, source: Id, keep: int, other: int)
    requires Lawful(c)
    ensures Remove(Prune(c, t, source, other), Stale(c, t, source, KeepCount(keep))).backups ==
      t.backups - Stale(c, t, source, Min(KeepCount(keep), KeepCount(other)))
  {
    PruneRemoves(c, t, source, other);
    StricterIsMore(c, t, source, KeepCount(keep), KeepCount(other));
  }

  lemma StricterIsMore(c: Codec, t: Tables, source: Id, k: nat, m: nat)
    ensures Stale(c, t, source, k) + Stale(c, t, source, m) == Stale(c, t, source, Min(k, m))
  {
  }

  lemma RemoveTakes(t: Tables, ids: set<Id>, source: Id)
    ensures OfSource(Remove(t, ids), source) == OfSource(t, source) - ids
  {
  }

  lemma SplitBySource(all: set<Id>, more: set<Id>, stale: set<Id>)
    requires stale <= all <= more
    ensures more - stale == (all - stale) + (more - all) && (all - stale) !! (more - all)
  {
  }

  lemma {:induction false} SubsetCard(a: set<Id>, b: set<Id>)
    requires a <= b
    ensures |a| <= |b|
  {
    assert |b - a| == |b| - |a|;
  }

  // ---------- Runs ----------

  /** A deletion may be of any rows: those that some prune chose at any earlier time. */
  datatype Request =
    | DoInsert(id: Id, source: Id, createdAt: nat, raw: Bytes)
    | DoDelete(stale: set<Id>)

  /** The tables with the data each remaining backup was inserted with. */
  datatype Origin = Origin(source: Id, createdAt: nat, raw: Bytes)

  datatype World = World(t: Tables, inserted: map<Id, Origin>)

  function Next(c: Codec, w: World, r: Request): World {
    match r
    case DoInsert(id, source, createdAt, raw) =>
      var t' := Insert(c, w.t, id, source, createdAt, raw);
      if t'.None? then w else World(t'.value, w.inserted[id := Origin(source, createdAt, raw)])
    case DoDelete(stale) => World(Remove(w.t, stale), w.inserted)
  }

  function After(c: Codec, w: World, run: seq<Request>, n: nat): World
    requires n <= |run|
  {
    if n == 0 then w else Next(c, After(c, w, run, n - 1), run[n - 1])
  }

  ghost predicate NoOrphans(t: Tables) { t.blobs.Keys == Referenced(t.backups) }

  /** Blobs decode to data of their hash and are never larger than it; rows refer to what was inserted. */
  ghost predicate Faithful(c: Codec, w: World) {
    && (forall h | h in w.t.blobs :: c.sha(DecodeBlob(c, w.t.blobs[h])) == h)
    && (forall h | h in w.t.blobs :: |w.t.blobs[h].data.content| <= |DecodeBlob(c, w.t.blobs[h]).content|)
    && (forall id | id in w.t.backups :: id in w.inserted)
    && (forall id | id in w.t.backups && w.t.backups[id].Stored? :: w.t.backups[id].hash == c.sha(w.inserted[id].raw))
    && (forall id | id in w.t.backups && w.t.backups[id].Legacy? :: w.t.backups[id].data == w.inserted[id].raw)
    && (forall id | id in w.t.backups :: w.t.backups[id].source == w.inserted[id].source)
    && (forall id | id in w.t.backups :: w.t.backups[id].createdAt == w.inserted[id].createdAt)
  }

  lemma NoOrphansKept(c: Codec, w: World, r: Request)
    requires NoOrphans(w.t)
    ensures NoOrphans(Next(c, w, r).t)
  {
    var t' := Next(c, w, r).t;
    forall h ensures h in t'.blobs <==> h in Referenced(t'.backups) {
      if h in w.t.blobs {
        var id :| id in w.t.backups && w.t.backups[id].Stored? && w.t.backups[id].hash == h;
        if id in t'.backups { assert t'.backups[id] == w.t.backups[id]; }
      }
      if r.DoInsert? && h == c.sha(r.raw) && r.id !in w.t.backups { assert t'.backups[r.id].hash == h; }
    }
  }

  lemma FaithfulKept(c: Codec, w: World, r: Request)
    requires Unzips(c) && Faithful(c, w)
    ensures Faithful(c, Next(c, w, r))
  {
  }

  lemma {:induction false} KeptAlways(c: Codec, w: World, run: seq<Request>, n: nat)
    requires Unzips(c) && NoOrphans(w.t) && Faithful(c, w) && n <= |run|
    ensures NoOrphans(After(c, w, run, n).t) && Faithful(c, After(c, w, run, n))
  {
    if n > 0 {
      KeptAlways(c, w, run, n - 1);
      NoOrphansKept(c, After(c, w, run, n - 1), run[n - 1]);
      FaithfulKept(c, After(c, w, run, n - 1), run[n - 1]);
    }
  }

  /** Every backup still listed reads back as the data it was inserted with, even if its blob was
      shared with backups pruned since. */
  lemma BackupsReadBack(c: Codec, w: World, run: seq<Request>, n: nat, id: Id)
    requires Lawful(c) && NoOrphans(w.t) && Faithful(c, w) && n <= |run|
    requires id in After(c, w, run, n).t.backups
    ensures var now := After(c, w, run, n);
      id in now.inserted && Read(c, now.t, id) == Some(now.inserted[id].raw)
  {
    KeptAlways(c, w, run, n);
    var now := After(c, w, run, n);
    if now.t.backups[id].Stored? { assert now.t.backups[id].hash in Referenced(now.t.backups); }
  }
}
