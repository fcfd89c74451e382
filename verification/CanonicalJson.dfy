/** The canonical text that request signatures are computed over. Keys are compared by a collation,
    given as the place of each key in it; equal places are ties. */
module CanonicalJson {
  import opened JsonText

  type Collation = Key -> real

  function Defined(fields: seq<Field>): (r: seq<Field>)
    ensures forall e :: e in r <==> e in fields && !e.value.Undefined?
  {
    if fields == [] then []
    else
      assert fields == [fields[0]] + fields[1..];
      (if fields[0].value.Undefined? then [] else [fields[0]]) + Defined(fields[1..])
  }

  /** Stable insertion: after everything placed no later. */
  function Insert(es: seq<Field>, e: Field, at: Collation): (r: seq<Field>)
    ensures forall x :: x in r <==> x in es || x == e
  {
    if es == [] || at(es[|es| - 1].key) <= at(e.key) then es + [e]
    else
      assert es == es[..|es| - 1] + [es[|es| - 1]];
      Insert(es[..|es| - 1], e, at) + [es[|es| - 1]]
  }

  function Sort(es: seq<Field>, at: Collation): (r: seq<Field>)
    ensures forall x :: x in r <==> x in es
  {
    if es == [] then []
    else
      assert es == es[..|es| - 1] + [es[|es| - 1]];
      Insert(Sort(es[..|es| - 1], at), es[|es| - 1], at)
  }

  function Entries(fields: seq<Field>, at: Collation): seq<Field> { Sort(Defined(fields), at) }

  function OrNull(s: string): string { if s == "" then "null" else s }

  function Join(texts: seq<string>): string {
    if texts == [] then "" else if |texts| == 1 then texts[0] else texts[0] + ([','] + Join(texts[1..]))
  }

  function Canonical(v: Value, at: Collation): string {
    match v
    case Undefined => ""
    case Null => ""
    case Bool(b) => if b then "true" else "false"
    case Num(n) => n
    case Str(s) => Quote(s)
    case Arr(items) =>
      ['['] + (Join(seq(|items|, i requires 0 <= i < |items| => OrNull(Canonical(items[i], at)))) + [']'])
    case Obj(fields) =>
      var es := Entries(fields, at);
      ['{'] + (Join(seq(|es|, i requires 0 <= i < |es| =>
        assert es[i] in fields;
        Quote(es[i].key.text) + ([':'] + OrNull(Canonical(es[i].value, at))))) + ['}'])
  }

  /** The value with undefined properties dropped, undefined items null, and keys in order. */
  function Normal(v: Value, at: Collation): Value {
    match v
    case Undefined => Null
    case Arr(items) => Arr(seq(|items|, i requires 0 <= i < |items| => Normal(items[i], at)))
    case Obj(fields) =>
      var es := Entries(fields, at);
      Obj(seq(|es|, i requires 0 <= i < |es| =>
        assert es[i] in fields;
        Field(es[i].key, Normal(es[i].value, at))))
    case _ => v
  }

  lemma {:induction false} NormalIsPlain(v: Value, at: Collation)
    ensures Plain(Normal(v, at))
  {
    match v
    case Arr(items) => forall i | 0 <= i < |items| ensures Plain(Normal(items[i], at)) { NormalIsPlain(items[i], at); }
    case Obj(fields) =>
      var es := Entries(fields, at);
      forall i | 0 <= i < |es| ensures Plain(Normal(es[i].value, at)) {
        assert es[i] in fields;
        NormalIsPlain(es[i].value, at);
      }
    case _ =>
  }

  // ---------- The canonical text is the text of the normal form ----------

  ghost predicate Prints(t: string, v: Value) { forall rest :: t + rest == TextOn(v, rest) }

  ghost predicate PrintsField(t: string, f: Field) { forall rest :: t + rest == FieldOn(f, rest) }

  lemma {:induction false} JoinPrintsItems(ts: seq<string>, vs: seq<Value>, rest: string)
    requires |ts| == |vs| > 0 && forall i | 0 <= i < |ts| :: Prints(ts[i], vs[i])
    ensures Join(ts) + ([']'] + rest) == TextOn(vs[0], ItemsOn(vs[1..], rest))
  {
    if |ts| > 1 {
      JoinPrintsItems(ts[1..], vs[1..], rest);
      Associates(ts[0], [','] + Join(ts[1..]), [']'] + rest);
      Associates([','], Join(ts[1..]), [']'] + rest);
    }
    assert Prints(ts[0], vs[0]);
  }

  lemma {:induction false} JoinPrintsFields(ts: seq<string>, fs: seq<Field>, rest: string)
    requires |ts| == |fs| > 0 && forall i | 0 <= i < |ts| :: PrintsField(ts[i], fs[i])
    ensures Join(ts) + (['}'] + rest) == FieldOn(fs[0], FieldsOn(fs[1..], rest))
  {
    if |ts| > 1 {
      JoinPrintsFields(ts[1..], fs[1..], rest);
      Associates(ts[0], [','] + Join(ts[1..]), ['}'] + rest);
      Associates([','], Join(ts[1..]), ['}'] + rest);
    }
    assert PrintsField(ts[0], fs[0]);
  }

  lemma QuotePrints(s: string, rest: string)
    ensures Quote(s) + rest == ['"'] + QuoteOn(s, rest)
  {
    QuoteOnIs(s, rest);
    Associates(['"'] + Escaped(s), ['"'], rest);
    Associates(['"'], Escaped(s), ['"'] + rest);
  }

  lemma FieldPrints(f: Field, t: string)
    requires Prints(t, f.value)
    ensures PrintsField(Quote(f.key.text) + ([':'] + t), f)
  {
    forall rest ensures Quote(f.key.text) + ([':'] + t) + rest == FieldOn(f, rest) {
      QuotePrints(f.key.text, [':'] + TextOn(f.value, rest));
      Associates(Quote(f.key.text), [':'] + t, rest);
      Associates([':'], t, rest);
    }
  }

  lemma BracketsPrint(open: char, body: string, close: char, rest: string)
    ensures [open] + (body + [close]) + rest == [open] + (body + ([close] + rest))
  {
    Associates([open], body + [close], rest);
    Associates(body, [close], rest);
  }

  lemma {:induction false} CanonicalPrints(v: Value, at: Collation)
    ensures Prints(OrNull(Canonical(v, at)), Normal(v, at))
  {
    var n := Normal(v, at);
    match v
    case Str(s) => forall rest ensures Quote(s) + rest == TextOn(n, rest) { QuotePrints(s, rest); }
    case Arr(items) => ArrayPrints(v, at);
    case Obj(fields) => ObjectPrints(v, at);
    case _ =>
  }

  lemma {:induction false} ArrayPrints(v: Value, at: Collation)
    requires v.Arr?
    ensures Prints(Canonical(v, at), Normal(v, at))
    decreases v, 0
  {
    var n, items := Normal(v, at), v.items;
    var ts := seq(|items|, i requires 0 <= i < |items| => OrNull(Canonical(items[i], at)));
    forall i | 0 <= i < |items| ensures Prints(ts[i], n.items[i]) { CanonicalPrints(items[i], at); }
    forall rest ensures Canonical(v, at) + rest == TextOn(n, rest) {
      BracketsPrint('[', Join(ts), ']', rest);
      if items != [] { JoinPrintsItems(ts, n.items, rest); }
    }
  }

  lemma {:induction false} ObjectPrints(v: Value, at: Collation)
    requires v.Obj?
    ensures Prints(Canonical(v, at), Normal(v, at))
    decreases v, 0
  {
    var n, es := Normal(v, at), Entries(v.fields, at);
    var ts := seq(|es|, i requires 0 <= i < |es| =>
      Quote(es[i].key.text) + ([':'] + OrNull(Canonical(es[i].value, at))));
    forall i | 0 <= i < |es| ensures PrintsField(ts[i], n.fields[i]) {
      assert es[i] in v.fields;
      CanonicalPrints(es[i].value, at);
      FieldPrints(n.fields[i], OrNull(Canonical(es[i].value, at)));
    }
    assert Canonical(v, at) == ['{'] + (Join(ts) + ['}']);
    forall rest ensures Canonical(v, at) + rest == TextOn(n, rest) {
      BracketsPrint('{', Join(ts), '}', rest);
      if es != [] { JoinPrintsFields(ts, n.fields, rest); }
    }
  }

  predicate Nullish(v: Value) { v.Undefined? || v.Null? }

  /** Equal canonical texts of values that are not null mean equal normal forms. */
  lemma CanonicalDeterminesNormal(v: Value, w: Value, at: Collation)
    requires !Nullish(v) && !Nullish(w)
    ensures Canonical(v, at) == Canonical(w, at) <==> Normal(v, at) == Normal(w, at)
  {
    CanonicalIsText(v, at);
    CanonicalIsText(w, at);
    if Canonical(v, at) == Canonical(w, at) {
      NormalIsPlain(v, at);
      NormalIsPlain(w, at);
      TextIsInjective(Normal(v, at), Normal(w, at), "", "");
    }
  }

  /** Nothing signs as the empty text: only null and undefined do, at the top. Below it they print null. */
  lemma NothingIsEmptyIff(v: Value, at: Collation)
    ensures Canonical(v, at) == "" <==> v == Null || v == Undefined
    ensures Canonical(Arr([v]), at) ==
      (if v == Null || v == Undefined then "[null]" else "[" + (Canonical(v, at) + "]"))
  {
    if !Nullish(v) { CanonicalIsText(v, at); }
    var texts := seq(1, i requires 0 <= i < 1 => OrNull(Canonical([v][i], at)));
    assert Canonical(Arr([v]), at) == ['['] + (Join(texts) + [']']);
    assert Join(texts) == OrNull(Canonical(v, at));
    if Nullish(v) { assert ['['] + ("null" + [']']) == "[null]"; }
  }

  /** Keys are printed in the order of the collation. */
  lemma KeysInOrder(v: Value, at: Collation)
    requires v.Obj? && Proper(v)
    ensures Normal(v, at).Obj? && Sorted(Normal(v, at).fields, at)
    ensures forall k :: HasKey(Normal(v, at).fields, k) <==>
      exists e :: e in v.fields && !e.value.Undefined? && e.key == k
  {
    var es, n := Entries(v.fields, at), Normal(v, at).fields;
    DefinedIsDistinct(v.fields);
    SortSorts(Defined(v.fields), at);
    assert |n| == |es| && forall i | 0 <= i < |es| :: n[i].key == es[i].key;
    forall k ensures HasKey(n, k) <==> exists e :: e in v.fields && !e.value.Undefined? && e.key == k {
      EntriesHaveKey(v.fields, at, k);
      if HasKey(es, k) {
        var i :| 0 <= i < |es| && es[i].key == k;
        assert n[i].key == k;
      }
      if HasKey(n, k) {
        var i :| 0 <= i < |n| && n[i].key == k;
        assert es[i].key == k;
      }
    }
  }

  lemma CanonicalIsText(v: Value, at: Collation)
    requires !Nullish(v)
    ensures Canonical(v, at) == TextOn(Normal(v, at), "")
  {
    CanonicalPrints(v, at);
    assert Canonical(v, at) != "";
    assert Canonical(v, at) + "" == Canonical(v, at);
  }

  // ---------- Equality up to key order and undefined properties ----------

  ghost predicate Equivalent(v: Value, w: Value)
    decreases v, 1
  {
    match v
    case Undefined => Nullish(w)
    case Null => Nullish(w)
    case Arr(items) => w.Arr? && |items| == |w.items| && forall i | 0 <= i < |items| :: Equivalent(items[i], w.items[i])
    case Obj(fields) =>
      && w.Obj?
      && (forall e {:trigger HasMatch(e, w.fields)} | e in fields && !e.value.Undefined? :: HasMatch(e, w.fields))
      && (forall d {:trigger IsMatched(fields, d)} | d in w.fields && !d.value.Undefined? :: IsMatched(fields, d))
    case _ => v == w
  }

  ghost predicate Matches(e: Field, d: Field)
    decreases e, 0
  {
    !e.value.Undefined? && !d.value.Undefined? && d.key == e.key && Equivalent(e.value, d.value)
  }

  ghost predicate HasMatch(e: Field, g: seq<Field>)
    decreases e, 1
  {
    exists d :: d in g && Matches(e, d)
  }

  ghost predicate IsMatched(f: seq<Field>, d: Field)
    decreases f, 0
  {
    exists i :: 0 <= i < |f| && Matches(f[i], d)
  }

  lemma {:induction false} SameNormalIsEquivalent(v: Value, w: Value, at: Collation)
    requires Normal(v, at) == Normal(w, at)
    ensures Equivalent(v, w)
  {
    match v
    case Arr(items) =>
      forall i | 0 <= i < |items| ensures Equivalent(items[i], w.items[i]) {
        assert Normal(v, at).items[i] == Normal(w, at).items[i];
        SameNormalIsEquivalent(items[i], w.items[i], at);
      }
    case Obj(fields) =>
      var a, b := Entries(fields, at), Entries(w.fields, at);
      assert |a| == |Normal(v, at).fields| && |b| == |Normal(w, at).fields|;
      forall i | 0 <= i < |a|
        ensures a[i] in fields && b[i] in w.fields && a[i].key == b[i].key && Equivalent(a[i].value, b[i].value)
      {
        assert a[i] in fields;
        assert Normal(v, at).fields[i] == Normal(w, at).fields[i];
        SameNormalIsEquivalent(a[i].value, b[i].value, at);
      }
      PairedIsEquivalent(fields, w.fields, a, b);
    case _ =>
  }

  lemma PairedIsEquivalent(f: seq<Field>, g: seq<Field>, a: seq<Field>, b: seq<Field>)
    requires |a| == |b| && (forall e :: e in a <==> e in f && !e.value.Undefined?)
      && (forall d :: d in b <==> d in g && !d.value.Undefined?)
    requires forall i | 0 <= i < |a| :: a[i].key == b[i].key && Equivalent(a[i].value, b[i].value)
    ensures Equivalent(Obj(f), Obj(g))
  {
    forall e | e in f && !e.value.Undefined? ensures HasMatch(e, g) {
      var i :| 0 <= i < |a| && a[i] == e;
      assert b[i] in b && Matches(e, b[i]);
    }
    forall d | d in g && !d.value.Undefined? ensures IsMatched(f, d) {
      var i :| 0 <= i < |b| && b[i] == d;
      assert a[i] in a && Matches(a[i], d);
      var j :| 0 <= j < |f| && f[j] == a[i];
    }
  }

  // ---------- Key order does not matter when the collation separates keys ----------

  /** What every JavaScript object is: no key twice. */
  ghost predicate Proper(v: Value) {
    match v
    case Arr(items) => forall i | 0 <= i < |items| :: Proper(items[i])
    case Obj(fields) => DistinctKeys(fields) && forall e | e in fields :: Proper(e.value)
    case _ => true
  }

  ghost predicate DistinctKeys(es: seq<Field>) { forall i, j | 0 <= i < j < |es| :: es[i].key != es[j].key }

  ghost predicate Separates(at: Collation) { forall a, b :: at(a) == at(b) ==> a == b }

  ghost predicate Sorted(es: seq<Field>, at: Collation) {
    forall i, j | 0 <= i < j < |es| :: at(es[i].key) <= at(es[j].key)
  }

  lemma {:induction false} DefinedIsDistinct(fields: seq<Field>)
    requires DistinctKeys(fields)
    ensures DistinctKeys(Defined(fields))
  {
    if fields != [] { DefinedIsDistinct(fields[1..]); }
  }

  lemma {:induction false} InsertSorts(es: seq<Field>, e: Field, at: Collation)
    requires Sorted(es, at)
    ensures Sorted(Insert(es, e, at), at)
  {
    if es != [] && at(es[|es| - 1].key) > at(e.key) {
      var n := |es| - 1;
      InsertSorts(es[..n], e, at);
      var r := Insert(es[..n], e, at);
      forall i | 0 <= i < |r| ensures at(r[i].key) <= at(es[n].key) { assert r[i] in r; }
    }
  }

  lemma {:induction false} InsertKeepsDistinct(es: seq<Field>, e: Field, at: Collation)
    requires DistinctKeys(es) && forall x | x in es :: x.key != e.key
    ensures DistinctKeys(Insert(es, e, at))
  {
    if es != [] && at(es[|es| - 1].key) > at(e.key) {
      var n := |es| - 1;
      InsertKeepsDistinct(es[..n], e, at);
      var r := Insert(es[..n], e, at);
      forall i | 0 <= i < |r| ensures r[i].key != es[n].key { assert r[i] in r; }
    }
  }

  lemma {:induction false} SortSorts(es: seq<Field>, at: Collation)
    requires DistinctKeys(es)
    ensures Sorted(Sort(es, at), at) && DistinctKeys(Sort(es, at))
  {
    if es != [] {
      SortSorts(es[..|es| - 1], at);
      InsertSorts(Sort(es[..|es| - 1], at), es[|es| - 1], at);
      InsertKeepsDistinct(Sort(es[..|es| - 1], at), es[|es| - 1], at);
    }
  }

  ghost predicate HasKey(es: seq<Field>, k: Key) { exists i :: 0 <= i < |es| && es[i].key == k }

  ghost predicate SameKeys(a: seq<Field>, b: seq<Field>) { forall k :: HasKey(a, k) <==> HasKey(b, k) }

  lemma FirstIsLeast(a: seq<Field>, b: seq<Field>, at: Collation)
    requires Sorted(b, at) && SameKeys(a, b) && a != []
    ensures b != [] && at(b[0].key) <= at(a[0].key)
  {
    assert HasKey(a, a[0].key);
    var i :| 0 <= i < |b| && b[i].key == a[0].key;
  }

  lemma HasKeyOfTail(a: seq<Field>, k: Key)
    requires a != [] && DistinctKeys(a)
    ensures HasKey(a[1..], k) <==> HasKey(a, k) && k != a[0].key
  {
    if HasKey(a, k) && k != a[0].key {
      var i :| 0 <= i < |a| && a[i].key == k;
      assert a[1..][i - 1].key == k;
    }
    if HasKey(a[1..], k) {
      var i :| 0 <= i < |a[1..]| && a[1..][i].key == k;
      assert a[i + 1].key == k;
    }
  }

  lemma {:induction false} SameKeysSameOrder(a: seq<Field>, b: seq<Field>, at: Collation)
    requires Separates(at) && Sorted(a, at) && Sorted(b, at) && DistinctKeys(a) && DistinctKeys(b) && SameKeys(a, b)
    ensures |a| == |b| && forall i | 0 <= i < |a| :: a[i].key == b[i].key
    decreases |a|
  {
    if a != [] || b != [] {
      if a != [] { FirstIsLeast(a, b, at); }
      FirstIsLeast(b, a, at);
      FirstIsLeast(a, b, at);
      forall k ensures HasKey(a[1..], k) <==> HasKey(b[1..], k) {
        HasKeyOfTail(a, k);
        HasKeyOfTail(b, k);
      }
      SameKeysSameOrder(a[1..], b[1..], at);
      forall i | 0 <= i < |a| ensures a[i].key == b[i].key {
        if i > 0 { assert a[i] == a[1..][i - 1] && b[i] == b[1..][i - 1]; }
      }
    }
  }

  lemma {:induction false} EquivalentHasSameNormal(v: Value, w: Value, at: Collation)
    requires Separates(at) && Proper(v) && Proper(w) && Equivalent(v, w)
    ensures Normal(v, at) == Normal(w, at)
  {
    match v
    case Arr(items) =>
      forall i | 0 <= i < |items| ensures Normal(items[i], at) == Normal(w.items[i], at) {
        EquivalentHasSameNormal(items[i], w.items[i], at);
      }
    case Obj(fields) =>
      var a, b := Entries(fields, at), Entries(w.fields, at);
      EntriesAlign(fields, w.fields, at);
      forall i | 0 <= i < |a| ensures Normal(v, at).fields[i] == Normal(w, at).fields[i] {
        assert a[i] in fields && b[i] in w.fields;
        EquivalentHasSameNormal(a[i].value, b[i].value, at);
      }
      assert Normal(v, at).fields == Normal(w, at).fields;
    case _ =>
  }

  /** Each defined field of one object has a match in the other, and keys are unique. */
  lemma MatchesKey(f: seq<Field>, g: seq<Field>, e: Field, d: Field)
    requires Equivalent(Obj(f), Obj(g)) && DistinctKeys(g)
    requires e in f && d in g && !e.value.Undefined? && !d.value.Undefined? && e.key == d.key
    ensures Equivalent(e.value, d.value)
  {
    assert HasMatch(e, g);
    var c :| c in g && Matches(e, c);
    var i :| 0 <= i < |g| && g[i] == c;
    var j :| 0 <= j < |g| && g[j] == d;
    assert i == j;
  }

  lemma EntriesHaveKey(f: seq<Field>, at: Collation, k: Key)
    ensures HasKey(Entries(f, at), k) <==> exists e :: e in f && !e.value.Undefined? && e.key == k
  {
    var es := Entries(f, at);
    if HasKey(es, k) {
      var i :| 0 <= i < |es| && es[i].key == k;
      assert es[i] in es;
    }
    if e :| e in f && !e.value.Undefined? && e.key == k {
      assert e in es;
      var i :| 0 <= i < |es| && es[i] == e;
    }
  }

  lemma EquivalentSameKeys(f: seq<Field>, g: seq<Field>, at: Collation)
    requires Equivalent(Obj(f), Obj(g))
    ensures SameKeys(Entries(f, at), Entries(g, at))
  {
    forall k ensures HasKey(Entries(f, at), k) <==> HasKey(Entries(g, at), k) {
      EntriesHaveKey(f, at, k);
      EntriesHaveKey(g, at, k);
      if e :| e in f && !e.value.Undefined? && e.key == k { assert HasMatch(e, g); }
      if d :| d in g && !d.value.Undefined? && d.key == k {
        assert IsMatched(f, d);
        var i :| 0 <= i < |f| && Matches(f[i], d);
        assert f[i] in f;
      }
    }
  }

  /** Equivalent objects list the same keys, in the same order once sorted. */
  lemma EntriesAlign(f: seq<Field>, g: seq<Field>, at: Collation)
    requires Separates(at) && DistinctKeys(f) && DistinctKeys(g) && Equivalent(Obj(f), Obj(g))
    ensures var a, b := Entries(f, at), Entries(g, at);
      |a| == |b| && forall i | 0 <= i < |a| :: a[i].key == b[i].key && Equivalent(a[i].value, b[i].value)
  {
    var a, b := Entries(f, at), Entries(g, at);
    DefinedIsDistinct(f);
    DefinedIsDistinct(g);
    SortSorts(Defined(f), at);
    SortSorts(Defined(g), at);
    EquivalentSameKeys(f, g, at);
    SameKeysSameOrder(a, b, at);
    forall i | 0 <= i < |a| ensures Equivalent(a[i].value, b[i].value) {
      assert a[i] in a && b[i] in b;
      MatchesKey(f, g, a[i], b[i]);
    }
  }

  /** The canonical text is injective up to exactly the order of keys, undefined properties, and
      undefined items counting as null, whatever the collation. */
  lemma CanonicalIsInjective(v: Value, w: Value, at: Collation)
    requires !Nullish(v) && !Nullish(w) && Canonical(v, at) == Canonical(w, at)
    ensures Equivalent(v, w)
  {
    CanonicalDeterminesNormal(v, w, at);
    SameNormalIsEquivalent(v, w, at);
  }

  /** All equivalent values have one canonical text exactly if the collation has no ties. */
  lemma OrderIndependentIff(at: Collation)
    ensures Separates(at) <==> OrderIndependent(at)
  {
    if Separates(at) {
      forall v, w | Proper(v) && Proper(w) && !Nullish(v) && !Nullish(w) && Equivalent(v, w)
        ensures Canonical(v, at) == Canonical(w, at) {
        EquivalentHasSameNormal(v, w, at);
        CanonicalDeterminesNormal(v, w, at);
      }
    } else {
      var a, b :| at(a) == at(b) && a != b;
      TiesShow(a, b, at);
    }
  }

  ghost predicate OrderIndependent(at: Collation) {
    forall v, w | Proper(v) && Proper(w) && !Nullish(v) && !Nullish(w) && Equivalent(v, w) ::
      Canonical(v, at) == Canonical(w, at)
  }

  lemma TiesShow(a: Key, b: Key, at: Collation)
    requires a != b && at(a) == at(b)
    ensures !OrderIndependent(at)
  {
    var x, y := Field(a, Bool(true)), Field(b, Bool(true));
    SwappedIsEquivalent(x, y);
    SwappedPrintsDifferently(x, y, at);
    PairIsProper(x, y);
    PairIsProper(y, x);
    DifferentTexts(Obj([x, y]), Obj([y, x]), at);
  }

  lemma PairIsProper(x: Field, y: Field)
    requires x.key != y.key && x.value == Bool(true) && y.value == Bool(true)
    ensures Proper(Obj([x, y]))
  {
  }

  lemma DifferentTexts(v: Value, w: Value, at: Collation)
    requires Proper(v) && Proper(w) && !Nullish(v) && !Nullish(w) && Equivalent(v, w)
      && Canonical(v, at) != Canonical(w, at)
    ensures !OrderIndependent(at)
  {
  }

  lemma SwappedPrintsDifferently(x: Field, y: Field, at: Collation)
    requires x.key != y.key && at(x.key) == at(y.key) && x.value == Bool(true) && y.value == Bool(true)
    ensures Canonical(Obj([x, y]), at) != Canonical(Obj([y, x]), at)
  {
    PairSort(x, y, at);
    PairSort(y, x, at);
    assert Normal(Obj([x, y]), at).fields[0].key == x.key && Normal(Obj([y, x]), at).fields[0].key == y.key;
    CanonicalDeterminesNormal(Obj([x, y]), Obj([y, x]), at);
  }

  lemma SwappedIsEquivalent(x: Field, y: Field)
    requires x.value == Bool(true) && y.value == Bool(true)
    ensures Equivalent(Obj([x, y]), Obj([y, x]))
  {
    var f, g := [x, y], [y, x];
    assert f[0] == x && f[1] == y && g[0] == y && g[1] == x;
    assert Equivalent(Bool(true), Bool(true)) && Matches(x, x) && Matches(y, y);
    forall e | e in f ensures HasMatch(e, g) { assert e in g; }
    forall d | d in g ensures IsMatched(f, d) { assert d == f[0] || d == f[1]; }
  }

  lemma PairSort(x: Field, y: Field, at: Collation)
    requires at(x.key) == at(y.key) && !x.value.Undefined? && !y.value.Undefined?
    ensures Entries([x, y], at) == [x, y]
  {
    assert [x, y][1..] == [y] && [y][1..] == [];
    assert Defined([y]) == [y] && Defined([x, y]) == [x, y];
    assert [x, y][..1] == [x] && [x][..0] == [];
    assert Sort([x], at) == [x];
  }
}
