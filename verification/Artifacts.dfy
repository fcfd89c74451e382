/** The artifacts of an agent session: pruning by age, count and size, and admission under quotas. */
module Artifacts {
  import opened Common
  import Base64

  /** A size after numeric coercion; a text that is no number counts as nothing in every sum. */
  datatype Size = NoNumber | Bytes(n: nat)

  /** What a client sent. The source keeps only the size; the upload is here to speak of its bytes. */
  datatype Upload = Upload(base64: string)

  datatype Artifact = Artifact(id: Id, size: Size, createdAt: nat, upload: Upload)

  const MAX_COUNT := 200
  const MAX_ITEM := 8 * 1024 * 1024
  const MAX_TOTAL := 64 * 1024 * 1024
  const TTL_MS := 7 * 24 * 60 * 60 * 1000

  function Counted(s: Size): nat { if s.Bytes? then s.n else 0 }

  function Total(s: seq<Artifact>): nat { if s == [] then 0 else Counted(s[0].size) + Total(s[1..]) }

  predicate Fits(s: seq<Artifact>) { |s| <= MAX_COUNT && Total(s) <= MAX_TOTAL }

  predicate Fresh(a: Artifact, now: int) { now - a.createdAt <= TTL_MS }

  function Unexpired(s: seq<Artifact>, now: int): seq<Artifact> {
    if s == [] then [] else (if Fresh(s[0], now) then [s[0]] else []) + Unexpired(s[1..], now)
  }

  /** Stable insertion by creation time. */
  function Insert(s: seq<Artifact>, a: Artifact): seq<Artifact> {
    if s == [] || s[|s| - 1].createdAt <= a.createdAt then s + [a] else Insert(s[..|s| - 1], a) + [s[|s| - 1]]
  }

  function Sort(s: seq<Artifact>): seq<Artifact> {
    if s == [] then [] else Insert(Sort(s[..|s| - 1]), s[|s| - 1])
  }

  /** Oldest artifacts go until the rest fits. */
  function LongestFit(s: seq<Artifact>): (r: seq<Artifact>)
    ensures Fits(r)
  {
    if Fits(s) then s else assert s != []; LongestFit(s[1..])
  }

  function Pruned(s: seq<Artifact>, now: int): seq<Artifact> { LongestFit(Sort(Unexpired(s, now))) }

  method PruneExpired(artifacts: seq<Artifact>, now: int) returns (kept: seq<Artifact>)
    ensures kept == Pruned(artifacts, now)
  {
    kept := Sort(Unexpired(artifacts, now));
    while |kept| > MAX_COUNT
      invariant LongestFit(kept) == Pruned(artifacts, now)
    {
      kept := kept[1..];
    }
    var totalSize := Total(kept);
    while totalSize > MAX_TOTAL && |kept| > 0
      invariant |kept| <= MAX_COUNT && totalSize == Total(kept)
      invariant LongestFit(kept) == Pruned(artifacts, now)
      decreases |kept|
    {
      totalSize := totalSize - Counted(kept[0].size);
      kept := kept[1..];
    }
  }

  // ---------- What pruning keeps ----------

  ghost predicate Sorted(s: seq<Artifact>) { forall i, j | 0 <= i < j < |s| :: s[i].createdAt <= s[j].createdAt }

  ghost function Count(s: seq<Artifact>, a: Artifact): nat {
    if s == [] then 0 else Count(s[..|s| - 1], a) + if s[|s| - 1] == a then 1 else 0
  }

  lemma CountAppend(s: seq<Artifact>, x: Artifact, a: Artifact)
    ensures Count(s + [x], a) == Count(s, a) + if x == a then 1 else 0
  {
    assert (s + [x])[..|s|] == s;
  }

  lemma {:induction false} InsertCounts(s: seq<Artifact>, x: Artifact, a: Artifact)
    ensures Count(Insert(s, x), a) == Count(s, a) + if x == a then 1 else 0
  {
    if s == [] || s[|s| - 1].createdAt <= x.createdAt {
      CountAppend(s, x, a);
    } else {
      InsertCounts(s[..|s| - 1], x, a);
      CountAppend(Insert(s[..|s| - 1], x), s[|s| - 1], a);
    }
  }

  lemma {:induction false} InsertSorts(s: seq<Artifact>, x: Artifact)
    requires Sorted(s)
    ensures Sorted(Insert(s, x)) && |Insert(s, x)| == |s| + 1
    ensures forall i | 0 <= i <= |s| ::
      Insert(s, x)[i].createdAt <= if s == [] then x.createdAt else Max(s[|s| - 1].createdAt, x.createdAt)
  {
    if s != [] && s[|s| - 1].createdAt > x.createdAt { InsertSorts(s[..|s| - 1], x); }
  }

  lemma {:induction false} SortSorts(s: seq<Artifact>, a: Artifact)
    ensures Sorted(Sort(s)) && Count(Sort(s), a) == Count(s, a)
  {
    if s != [] {
      SortSorts(s[..|s| - 1], a);
      InsertSorts(Sort(s[..|s| - 1]), s[|s| - 1]);
      InsertCounts(Sort(s[..|s| - 1]), s[|s| - 1], a);
    }
  }

  lemma {:induction false} UnexpiredCounts(s: seq<Artifact>, now: int, a: Artifact)
    ensures Count(Unexpired(s, now), a) == if Fresh(a, now) then Count(s, a) else 0
  {
    if s != [] {
      UnexpiredCounts(s[1..], now, a);
      CountFront(s, a);
      if Fresh(s[0], now) {
        CountFront(Unexpired(s, now), a);
        assert Unexpired(s, now)[1..] == Unexpired(s[1..], now);
      } else {
        assert Unexpired(s, now) == Unexpired(s[1..], now);
      }
    }
  }

  lemma {:induction false} CountFront(s: seq<Artifact>, a: Artifact)
    requires s != []
    ensures Count(s, a) == (if s[0] == a then 1 else 0) + Count(s[1..], a)
  {
    if |s| > 1 {
      CountFront(s[..|s| - 1], a);
      assert s[..|s| - 1][1..] == s[1..][..|s| - 2];
    } else {
      assert s[..0] == [] && s[1..] == [];
    }
  }

  lemma {:induction false} LongestFitIsLongest(s: seq<Artifact>)
    ensures |LongestFit(s)| <= |s| && LongestFit(s) == s[|s| - |LongestFit(s)|..]
    ensures forall j | 0 <= j <= |s| && Fits(s[j..]) :: |s| - j <= |LongestFit(s)|
  {
    if !Fits(s) {
      LongestFitIsLongest(s[1..]);
      assert s[0..] == s;
      forall j | 0 <= j <= |s| && Fits(s[j..]) ensures |s| - j <= |LongestFit(s)| {
        if j > 0 { assert s[j..] == s[1..][j - 1..]; }
      }
    }
  }

  /** What remains is the longest newest-first run of the unexpired artifacts within both limits: a
      tail of their list by age, and no longer tail of it fits. */
  lemma PruneKeepsNewest(s: seq<Artifact>, now: int, a: Artifact)
    ensures var all, kept := Sort(Unexpired(s, now)), Pruned(s, now);
      && Sorted(all) && Count(all, a) == (if Fresh(a, now) then Count(s, a) else 0)
      && |kept| <= |all| && kept == all[|all| - |kept|..] && Fits(kept)
      && (forall j | 0 <= j <= |all| && Fits(all[j..]) :: |all| - j <= |kept|)
  {
    SortSorts(Unexpired(s, now), a);
    UnexpiredCounts(s, now, a);
    LongestFitIsLongest(Sort(Unexpired(s, now)));
  }

  // ---------- Admission ----------

  datatype Refusal = TooMany | TooLarge | OverTotal
  datatype Added = Admitted(item: Artifact) | Rejected(why: Refusal)

  /** A declared size: absent ones are zero, and a text that is no number poisons the maximum. */
  datatype Declared = NoNumberDeclared | Declares(n: int)

  function DeclaredSize(base64: string, declared: Declared): Size {
    var actual := if base64 == "" then 0 else Base64.DecodedBytes(base64);
    if declared.NoNumberDeclared? then NoNumber else Bytes(Max(actual, declared.n))
  }

  function Add(s: seq<Artifact>, id: Id, base64: string, declared: Declared, now: nat): (seq<Artifact>, Added) {
    var kept := Pruned(s, now);
    var size := DeclaredSize(base64, declared);
    if |kept| >= MAX_COUNT then (kept, Rejected(TooMany))
    else if size.Bytes? && size.n > MAX_ITEM then (kept, Rejected(TooLarge))
    else if size.Bytes? && Total(kept) + size.n > MAX_TOTAL then (kept, Rejected(OverTotal))
    else (kept + [Artifact(id, size, now, Upload(base64))], Admitted(Artifact(id, size, now, Upload(base64))))
  }

  class Shelf {
    var artifacts: seq<Artifact>

    constructor ()
      ensures artifacts == []
    {
      artifacts := [];
    }

    method AddArtifact(id: Id, base64: string, declared: Declared, now: nat) returns (r: Added)
      modifies this
      ensures (artifacts, r) == Add(old(artifacts), id, base64, declared, now)
    {
      artifacts := PruneExpired(artifacts, now);
      if |artifacts| >= MAX_COUNT { return Rejected(TooMany); }
      var size := DeclaredSize(base64, declared);
      if size.Bytes? && size.n > MAX_ITEM { return Rejected(TooLarge); }
      var totalSize := Total(artifacts);
      if size.Bytes? && totalSize + size.n > MAX_TOTAL { return Rejected(OverTotal); }
      var item := Artifact(id, size, now, Upload(base64));
      artifacts := artifacts + [item];
      r := Admitted(item);
    }
  }

  datatype Request = DoAdd(id: Id, base64: string, declared: Declared, now: nat) | DoPrune(now: nat)

  function Step(s: seq<Artifact>, r: Request): seq<Artifact> {
    match r
    case DoAdd(id, base64, declared, now) => Add(s, id, base64, declared, now).0
    case DoPrune(now) => Pruned(s, now)
  }

  function After(s: seq<Artifact>, run: seq<Request>, n: nat): seq<Artifact>
    requires n <= |run|
  {
    if n == 0 then s else Step(After(s, run, n - 1), run[n - 1])
  }

  ghost predicate WithinQuotas(s: seq<Artifact>) {
    Fits(s) && forall a | a in s :: Counted(a.size) <= MAX_ITEM
  }

  lemma {:induction false} TotalAppend(s: seq<Artifact>, a: Artifact)
    ensures Total(s + [a]) == Total(s) + Counted(a.size)
  {
    if s != [] {
      TotalAppend(s[1..], a);
      assert (s + [a])[1..] == s[1..] + [a];
    }
  }

  lemma {:induction false} CountIsMembership(s: seq<Artifact>, a: Artifact)
    ensures a in s <==> Count(s, a) > 0
  {
    if s != [] {
      CountIsMembership(s[..|s| - 1], a);
      assert s == s[..|s| - 1] + [s[|s| - 1]];
    }
  }

  lemma PrunedIsSubset(s: seq<Artifact>, now: int, a: Artifact)
    requires a in Pruned(s, now)
    ensures a in s
  {
    PruneKeepsNewest(s, now, a);
    CountIsMembership(Sort(Unexpired(s, now)), a);
    CountIsMembership(s, a);
  }

  lemma StepKeepsQuotas(s: seq<Artifact>, r: Request)
    requires WithinQuotas(s)
    ensures WithinQuotas(Step(s, r))
  {
    forall a | a in Pruned(s, r.now) ensures a in s { PrunedIsSubset(s, r.now, a); }
    if r.DoAdd? {
      TotalAppend(Pruned(s, r.now), Artifact(r.id, DeclaredSize(r.base64, r.declared), r.now, Upload(r.base64)));
    }
  }

  /** In every reachable state the count, per-item and total limits hold, by the sizes counted. */
  lemma {:induction false} AlwaysWithinQuotas(s: seq<Artifact>, run: seq<Request>, n: nat)
    requires WithinQuotas(s) && n <= |run|
    ensures WithinQuotas(After(s, run, n))
  {
    if n > 0 {
      AlwaysWithinQuotas(s, run, n - 1);
      StepKeepsQuotas(After(s, run, n - 1), run[n - 1]);
    }
  }

  /** The longer of what was sent and what was declared. */
  ghost predicate SizeIs(base64: string, n: int, size: nat) {
    size == if Base64.DecodedBytes(base64) < n then n else Base64.DecodedBytes(base64)
  }

  /** An artifact with a declared number is admitted exactly if there is room for one more of at most 200,
      it has at most eight megabytes, and all together at most 64. It is then held last, as sent; otherwise
      only what pruning takes is gone. */
  lemma AdmittedIff(s: seq<Artifact>, id: Id, base64: string, n: int, now: nat, size: nat)
    requires SizeIs(base64, n, size)
    ensures var kept, (after, r) := Pruned(s, now), Add(s, id, base64, Declares(n), now);
      && (r.Admitted? <==> |kept| < 200 && size <= 8388608 && Total(kept) + size <= 67108864)
      && (r.Admitted? ==> r.item == Artifact(id, Bytes(size), now, Upload(base64)) && after == kept + [r.item])
      && (!r.Admitted? ==> after == kept)
  {
    Base64.EmptyMeasuresNothing();
  }

  /** Which limit a refusal names: the count before the size, the size before the total. */
  lemma RefusalNames(s: seq<Artifact>, id: Id, base64: string, n: int, now: nat, size: nat)
    requires SizeIs(base64, n, size)
    ensures var kept, r := Pruned(s, now), Add(s, id, base64, Declares(n), now).1;
      && (r == Rejected(TooMany) <==> |kept| >= 200)
      && (r == Rejected(TooLarge) <==> |kept| < 200 && size > 8388608)
      && (r == Rejected(OverTotal) <==> |kept| < 200 && size <= 8388608 && Total(kept) + size > 67108864)
  {
    Base64.EmptyMeasuresNothing();
  }

  /** An artifact is kept by age exactly for seven days. */
  lemma FreshIff(a: Artifact, now: int)
    ensures a in Unexpired([a], now) <==> now <= a.createdAt + 604800000
  {
  }

  /** Those of one moment, in their order. */
  function OfMoment(s: seq<Artifact>, t: nat): seq<Artifact> {
    if s == [] then []
    else OfMoment(s[..|s| - 1], t) + if s[|s| - 1].createdAt == t then [s[|s| - 1]] else []
  }

  lemma {:induction false} InsertIsStable(s: seq<Artifact>, a: Artifact, t: nat)
    requires Sorted(s)
    ensures OfMoment(Insert(s, a), t) == OfMoment(s, t) + if a.createdAt == t then [a] else []
  {
    if s == [] || s[|s| - 1].createdAt <= a.createdAt {
      assert (s + [a])[..|s|] == s;
    } else {
      var n := |s| - 1;
      InsertIsStable(s[..n], a, t);
      assert (Insert(s[..n], a) + [s[n]])[..|Insert(s[..n], a)|] == Insert(s[..n], a);
    }
  }

  /** Sorting by age leaves artifacts of the same moment in the order they came. */
  lemma {:induction false} SortIsStable(s: seq<Artifact>, t: nat)
    ensures OfMoment(Sort(s), t) == OfMoment(s, t)
  {
    if s != [] {
      var n := |s| - 1;
      SortIsStable(s[..n], t);
      SortSorts(s[..n], s[n]);
      InsertIsStable(Sort(s[..n]), s[n], t);
    }
  }

  // ---------- The bytes behind the sizes ----------

  /** The counted size covers what was sent. */
  ghost predicate Measured(s: seq<Artifact>) {
    forall a | a in s :: a.size.Bytes? && Base64.DecodedBytes(a.upload.base64) <= a.size.n
  }

  predicate DeclaresNumbers(r: Request) { r.DoAdd? ==> r.declared.Declares? }

  lemma StepKeepsMeasured(s: seq<Artifact>, r: Request)
    requires Measured(s) && DeclaresNumbers(r)
    ensures Measured(Step(s, r))
  {
    forall a | a in Pruned(s, r.now) ensures a in s { PrunedIsSubset(s, r.now, a); }
    Base64.EmptyMeasuresNothing();
  }

  lemma {:induction false} AlwaysMeasured(s: seq<Artifact>, run: seq<Request>, n: nat)
    requires Measured(s) && n <= |run| && forall i | 0 <= i < n :: DeclaresNumbers(run[i])
    ensures Measured(After(s, run, n))
  {
    if n > 0 {
      AlwaysMeasured(s, run, n - 1);
      StepKeepsMeasured(After(s, run, n - 1), run[n - 1]);
    }
  }

  ghost function TotalBytes(contents: seq<seq<Base64.byte>>): nat {
    if contents == [] then 0 else |contents[0]| + TotalBytes(contents[1..])
  }

  /** These are the bytes that the artifacts were sent as. */
  ghost predicate Sent(s: seq<Artifact>, contents: seq<seq<Base64.byte>>) {
    |contents| == |s| && forall i | 0 <= i < |s| ::
      Base64.WithoutSpace(s[i].upload.base64) == Base64.Encode(contents[i])
  }

  lemma {:induction false} BytesWithinTotal(s: seq<Artifact>, contents: seq<seq<Base64.byte>>)
    requires Measured(s) && Sent(s, contents)
    ensures TotalBytes(contents) <= Total(s)
  {
    if s != [] {
      assert s[0] in s;
      Base64.DecodedBytesIsLength(s[0].upload.base64, contents[0]);
      assert forall a | a in s[1..] :: a in s;
      BytesWithinTotal(s[1..], contents[1..]);
    }
  }

  /** As long as every declared size is a number, the decoded bytes of all artifacts held stay within
      the session's limit in every reachable state. */
  lemma BytesAlwaysWithinQuota(s: seq<Artifact>, run: seq<Request>, n: nat, contents: seq<seq<Base64.byte>>)
    requires WithinQuotas(s) && Measured(s) && n <= |run| && forall i | 0 <= i < n :: DeclaresNumbers(run[i])
    requires Sent(After(s, run, n), contents)
    ensures TotalBytes(contents) <= MAX_TOTAL
  {
    AlwaysWithinQuotas(s, run, n);
    AlwaysMeasured(s, run, n);
    BytesWithinTotal(After(s, run, n), contents);
  }

  /** An admitted artifact is no larger than the item limit in its decoded bytes, unless it declared
      a size that is no number; such a one is admitted whatever its size, as long as there is room
      in the count. */
  lemma AdmittedBytes(s: seq<Artifact>, id: Id, bytes: seq<Base64.byte>, base64: string, declared: Declared, now: nat)
    requires Base64.WithoutSpace(base64) == Base64.Encode(bytes)
    ensures declared.Declares? && Add(s, id, base64, declared, now).1.Admitted? ==> |bytes| <= MAX_ITEM
    ensures declared.NoNumberDeclared? ==>
      (Add(s, id, base64, declared, now).1.Admitted? <==> |Pruned(s, now)| < MAX_COUNT)
  {
    Base64.DecodedBytesIsLength(base64, bytes);
    Base64.EncodeEnds(bytes);
  }

  /** Nothing larger than the item limit is ever admitted under this declaration. */
  ghost predicate LimitsItems(declared: Declared) {
    forall s, id, bytes: seq<Base64.byte>, base64, now
      {:trigger Add(s, id, base64, declared, now), Base64.Encode(bytes)} ::
      Base64.WithoutSpace(base64) == Base64.Encode(bytes) && Add(s, id, base64, declared, now).1.Admitted? ==>
        |bytes| <= MAX_ITEM
  }

  /** The item limit binds exactly if the declared size is a number. */
  lemma LimitsItemsIff(declared: Declared)
    ensures LimitsItems(declared) <==> declared.Declares?
  {
    if declared.Declares? {
      forall s, id, bytes: seq<Base64.byte>, base64, now
        {:trigger Add(s, id, base64, declared, now), Base64.Encode(bytes)}
        | Base64.WithoutSpace(base64) == Base64.Encode(bytes) && Add(s, id, base64, declared, now).1.Admitted?
        ensures |bytes| <= MAX_ITEM {
        AdmittedBytes(s, id, bytes, base64, declared, now);
      }
    } else {
      var bytes: seq<Base64.byte> := seq(MAX_ITEM + 1, _ => 0);
      var base64 := Base64.Encode(bytes);
      Base64.EncodeHasNoSpace(bytes);
      AdmittedBytes([], NoId, bytes, base64, declared, 0);
      NothingIsPruned();
      assert Add([], NoId, base64, declared, 0).1.Admitted? && |bytes| > MAX_ITEM;
    }
  }

  lemma NothingIsPruned()
    ensures Pruned([], 0) == []
  {
    LongestFitIsLongest(Sort(Unexpired([], 0)));
  }
}
