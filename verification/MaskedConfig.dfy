/** Masking secrets in a configuration tree for display, and merging an edited mask back. */
module MaskedConfig {
  import opened Common

  datatype Key = Key(text: string)

  datatype Conf =
    | Undefined | Null | Bool(b: bool) | NaN | Num(n: real) | Str(s: string)
    | Arr(items: seq<Conf>)
    | Obj(fields: map<Key, Conf>)

  // ---------- Which keys are secret, which strings are masks ----------

  predicate OccursAt(word: string, s: string, i: nat) {
    i + |word| <= |s| && forall j | 0 <= j < |word| :: Lower(s[i + j]) == word[j]
  }

  predicate Mentions(s: string, word: string) { exists i: nat | i <= |s| :: OccursAt(word, s, i) }

  /** Keys naming a token, key, secret or cookie, in any letter case. */
  predicate Sensitive(k: Key) {
    Mentions(k.text, "token") || Mentions(k.text, "key") || Mentions(k.text, "secret") || Mentions(k.text, "cookie")
  }

  const MASK := "***"

  predicate IsMasked(v: Conf) { v.Str? && Mentions(v.s, MASK) }

  predicate Truthy(v: Conf) {
    match v
    case Undefined => false
    case Null => false
    case Bool(b) => b
    case NaN => false
    case Num(n) => n != 0.0
    case Str(s) => s != ""
    case Arr(_) => true
    case Obj(_) => true
  }

  function MaskLeaf(v: Conf): Conf { if Truthy(v) then Str(MASK) else Str("") }

  /** Assigning to this key on a plain object sets its prototype and no field. */
  const PROTO := Key("__proto__")

  /** Array positions are never secret; below any other key the mask recurses. */
  function Mask(v: Conf): Conf {
    match v
    case Arr(items) => Arr(seq(|items|, i requires 0 <= i < |items| => Mask(items[i])))
    case Obj(fields) =>
      Obj(map k | k in fields && k != PROTO :: if Sensitive(k) then MaskLeaf(fields[k]) else Mask(fields[k]))
    case _ => v
  }

  function FieldsOf(v: Conf): map<Key, Conf> { if v.Obj? then v.fields else map[] }

  function Merge(current: Conf, incoming: Conf): Conf
    decreases incoming
  {
    if IsMasked(incoming) then current
    else match incoming
      case Obj(fields) =>
        var out := FieldsOf(current);
        Obj(map k | k in out.Keys + (fields.Keys - {PROTO}) ::
              if k in fields then Merge(if k in out then out[k] else Undefined, fields[k]) else out[k])
      case _ => incoming
  }

  // ---------- What the mask hides ----------

  ghost function LowerAll(s: string): string { seq(|s|, i requires 0 <= i < |s| => Lower(s[i])) }

  lemma OccursAtIff(word: string, s: string, i: nat)
    ensures OccursAt(word, s, i) <==> i + |word| <= |s| && LowerAll(s[i..i + |word|]) == word
  {
    if i + |word| <= |s| {
      var lower := LowerAll(s[i..i + |word|]);
      if OccursAt(word, s, i) { assert forall j | 0 <= j < |word| :: lower[j] == word[j]; }
      if lower == word {
        forall j | 0 <= j < |word| ensures Lower(s[i + j]) == word[j] { assert lower[j] == word[j]; }
      }
    }
  }

  /** Some stretch of the text reads as the word, in whatever letter case. */
  lemma MentionsIff(s: string, word: string)
    ensures Mentions(s, word) <==>
      exists before, middle, after :: s == before + (middle + after) && LowerAll(middle) == word
  {
    if i: nat :| i <= |s| && OccursAt(word, s, i) {
      OccursAtIff(word, s, i);
      var n := i + |word|;
      assert s == s[..i] + (s[i..n] + s[n..]);
    }
    if before, middle, after :| s == before + (middle + after) && LowerAll(middle) == word {
      assert s[|before|..|before| + |word|] == middle;
      OccursAtIff(word, s, |before|);
    }
  }

  /** A key is secret exactly if it names a token, key, secret or cookie anywhere, in any letter case. */
  lemma SensitiveIff(k: Key)
    ensures Sensitive(k) <==> exists before, middle, after ::
      k.text == before + (middle + after) && LowerAll(middle) in {"token", "key", "secret", "cookie"}
  {
    MentionsIff(k.text, "token");
    MentionsIff(k.text, "key");
    MentionsIff(k.text, "secret");
    MentionsIff(k.text, "cookie");
  }

  /** A value reads as masked exactly if it is a text with three stars in a row. */
  lemma IsMaskedIff(v: Conf)
    ensures IsMasked(v) <==> v.Str? && exists before, after :: v.s == before + ("***" + after)
  {
    if v.Str? {
      MentionsIff(v.s, MASK);
      assert LowerAll("***") == "***";
      if before, middle, after :| v.s == before + (middle + after) && LowerAll(middle) == MASK {
        assert |middle| == 3 && forall i | 0 <= i < 3 :: LowerAll(middle)[i] == Lower(middle[i]);
        assert middle == "***";
      }
    }
  }

  /** What shows as empty: nothing, false, zero, not a number and the empty text. */
  lemma TruthyIff(v: Conf)
    ensures Truthy(v) <==> v !in {Undefined, Null, Bool(false), NaN, Num(0.0), Str("")}
    ensures MaskLeaf(v) == (if Truthy(v) then Str("***") else Str(""))
  {
  }

  /** Where a value stands: below which keys and at which positions. */
  datatype Hop = In(key: Key) | Nth(i: nat)

  ghost predicate Leads(v: Conf, path: seq<Hop>)
    decreases |path|
  {
    path == [] ||
    match path[0]
    case In(k) => v.Obj? && k in v.fields && Leads(v.fields[k], path[1..])
    case Nth(i) => v.Arr? && i < |v.items| && Leads(v.items[i], path[1..])
  }

  ghost function Under(v: Conf, path: seq<Hop>): Conf
    requires Leads(v, path)
    decreases |path|
  {
    if path == [] then v
    else
      match path[0]
      case In(k) => Under(v.fields[k], path[1..])
      case Nth(i) => Under(v.items[i], path[1..])
  }

  /** The last key on the path is secret. */
  ghost predicate EndsSecret(path: seq<Hop>) { path != [] && path[|path| - 1].In? && Sensitive(path[|path| - 1].key) }

  /** Whatever stands in a mask under a secret key, at any depth and below arrays too, is the mark or the
      empty text. */
  lemma {:induction false} MaskHides(v: Conf, path: seq<Hop>)
    requires EndsSecret(path) && Leads(Mask(v), path)
    ensures Under(Mask(v), path) in {Str(""), Str("***")}
    decreases |path|
  {
    var rest := path[1..];
    match path[0]
    case In(k) =>
      var shown := Mask(v).fields[k];
      if Sensitive(k) {
        assert shown == MaskLeaf(v.fields[k]);
        assert rest == [] || !Leads(shown, rest);
      } else {
        assert shown == Mask(v.fields[k]) && rest != [] && rest[|rest| - 1] == path[|path| - 1];
        MaskHides(v.fields[k], rest);
      }
    case Nth(i) =>
      assert Mask(v).items[i] == Mask(v.items[i]) && rest != [] && rest[|rest| - 1] == path[|path| - 1];
      MaskHides(v.items[i], rest);
  }

  /** The trees differ at most in what their secrets are, as long as both are something or both nothing. */
  ghost predicate SameButSecrets(v: Conf, w: Conf) {
    match v
    case Arr(items) =>
      w.Arr? && |items| == |w.items| && forall i | 0 <= i < |items| :: SameButSecrets(items[i], w.items[i])
    case Obj(fields) =>
      && w.Obj? && fields.Keys == w.fields.Keys
      && forall k | k in fields ::
           if Sensitive(k) then Truthy(fields[k]) == Truthy(w.fields[k]) else SameButSecrets(fields[k], w.fields[k])
    case _ => v == w
  }

  /** Such trees look the same: the mask depends on no secret. */
  lemma {:induction false} MaskTellsNothing(v: Conf, w: Conf)
    requires SameButSecrets(v, w)
    ensures Mask(v) == Mask(w)
  {
    match v
    case Arr(items) =>
      forall i | 0 <= i < |items| ensures Mask(v).items[i] == Mask(w).items[i] {
        MaskTellsNothing(items[i], w.items[i]);
      }
      assert Mask(v).items == Mask(w).items;
    case Obj(fields) =>
      forall k | k in fields && k != PROTO ensures Mask(v).fields[k] == Mask(w).fields[k] {
        if !Sensitive(k) { MaskTellsNothing(fields[k], w.fields[k]); }
      }
      assert Mask(v).fields == Mask(w).fields;
    case _ =>
  }

  /** What is secret nowhere is shown as it is, and so is every value that is no object and no array. */
  lemma MaskShows(v: Conf)
    ensures !v.Obj? && !v.Arr? ==> Mask(v) == v
    ensures v.Arr? ==> Mask(v).Arr? && |Mask(v).items| == |v.items|
    ensures v.Obj? ==> Mask(v).Obj? && Mask(v).fields.Keys == v.fields.Keys - {PROTO}
  {
  }

  // ---------- When the mask can be undone ----------

  /** Masking loses nothing here: every secret already reads as its mask, and no field is dropped. */
  ghost predicate ShowsNoSecret(v: Conf) {
    match v
    case Arr(items) => forall i | 0 <= i < |items| :: ShowsNoSecret(items[i])
    case Obj(fields) =>
      PROTO !in fields &&
      forall k | k in fields ::
        if Sensitive(k) then (fields[k] == Str("") || fields[k] == Str(MASK)) else ShowsNoSecret(fields[k])
    case _ => true
  }

  /** Secrets reached through objects are truthy or the empty string; arrays hide none. A field the
      mask drops is not merged, and so stays. */
  ghost predicate Restorable(v: Conf) {
    match v
    case Arr(_) => ShowsNoSecret(v)
    case Obj(fields) =>
      forall k | k in fields && k != PROTO ::
        if Sensitive(k) then Truthy(fields[k]) || fields[k] == Str("") else Restorable(fields[k])
    case _ => true
  }

  lemma MaskLeafIsIdentityIff(v: Conf)
    ensures MaskLeaf(v) == v <==> (v == Str("") || v == Str(MASK))
  {
    assert |MASK| == 3 && MASK != "";
  }

  lemma {:induction false} MaskIsIdentityIff(v: Conf)
    ensures Mask(v) == v <==> ShowsNoSecret(v)
  {
    match v
    case Arr(items) =>
      forall i | 0 <= i < |items| ensures Mask(items[i]) == items[i] <==> ShowsNoSecret(items[i]) {
        MaskIsIdentityIff(items[i]);
      }
      if Mask(v) == v {
        forall i | 0 <= i < |items| ensures ShowsNoSecret(items[i]) { assert Mask(v).items[i] == items[i]; }
      }
    case Obj(fields) =>
      forall k | k in fields && k != PROTO
        ensures Mask(v).fields[k] == fields[k] <==> (
          if Sensitive(k) then fields[k] == Str("") || fields[k] == Str(MASK) else ShowsNoSecret(fields[k]))
      {
        assert Mask(v).fields[k] == if Sensitive(k) then MaskLeaf(fields[k]) else Mask(fields[k]);
        MaskIsIdentityIff(fields[k]);
        MaskLeafIsIdentityIff(fields[k]);
      }
      assert Mask(v).fields.Keys == fields.Keys - {PROTO};
      if ShowsNoSecret(v) { assert Mask(v).fields == fields; }
    case _ =>
  }

  lemma MaskReadsMasked()
    ensures IsMasked(Str(MASK)) && !IsMasked(Str(""))
  {
    assert OccursAt(MASK, MASK, 0);
  }

  function At(v: Conf, k: Key): Conf { if k in FieldsOf(v) then FieldsOf(v)[k] else Undefined }

  lemma MergeField(current: Conf, incoming: Conf, k: Key)
    requires incoming.Obj?
    ensures Merge(current, incoming).Obj?
      && Merge(current, incoming).fields.Keys == FieldsOf(current).Keys + (incoming.fields.Keys - {PROTO})
    ensures k in FieldsOf(current).Keys + (incoming.fields.Keys - {PROTO}) ==>
      Merge(current, incoming).fields[k] ==
        if k in incoming.fields then Merge(At(current, k), incoming.fields[k]) else At(current, k)
  {
  }

  lemma SecretMerges(v: Conf)
    ensures Merge(v, MaskLeaf(v)) == v <==> Truthy(v) || v == Str("")
  {
    MaskReadsMasked();
  }

  /** Merging the untouched mask of a tree restores the tree exactly when the tree is restorable. */
  lemma {:induction false} MaskRoundTripIff(v: Conf)
    ensures Merge(v, Mask(v)) == v <==> Restorable(v)
  {
    match v
    case Arr(items) => MaskIsIdentityIff(v);
    case Obj(fields) =>
      var out := Merge(v, Mask(v));
      forall k | k in fields
        ensures k in out.fields
        ensures out.fields[k] == fields[k] <==> (
          k == PROTO || if Sensitive(k) then Truthy(fields[k]) || fields[k] == Str("") else Restorable(fields[k]))
      {
        MergeField(v, Mask(v), k);
        MaskRoundTripIff(fields[k]);
        SecretMerges(fields[k]);
      }
      assert out.fields.Keys == fields.Keys;
      if Restorable(v) { assert out.fields == fields; }
    case _ =>
  }

  // ---------- Editing the mask ----------

  /** The path leads through nonsecret object fields; its last key may be new or secret. */
  ghost predicate Reaches(v: Conf, path: seq<Key>) {
    v.Obj? && path != [] && path[0] != PROTO &&
    (|path| == 1 || (path[0] in v.fields && !Sensitive(path[0]) && Reaches(v.fields[path[0]], path[1..])))
  }

  ghost function Edit(v: Conf, path: seq<Key>, value: Conf): Conf
    requires Reaches(v, path)
    decreases |path|
  {
    Obj(v.fields[path[0] := if |path| == 1 then value else Edit(v.fields[path[0]], path[1..], value)])
  }

  lemma {:induction false} MaskReaches(v: Conf, path: seq<Key>)
    requires Reaches(v, path)
    ensures Reaches(Mask(v), path)
    decreases |path|
  {
    if |path| > 1 { MaskReaches(v.fields[path[0]], path[1..]); }
  }

  /** A leaf that is not a mask, or a whole array. */
  predicate Plain(value: Conf) { !value.Obj? && !IsMasked(value) }

  /** Replacing one field of the mask: the merge puts there what it makes of the replacement. */
  lemma OneFieldEdited(v: Conf, key: Key, shown: Conf, merged: Conf)
    requires v.Obj? && Restorable(v) && key != PROTO && Merge(At(v, key), shown) == merged
    ensures Mask(v).Obj?
    ensures Merge(v, Obj(Mask(v).fields[key := shown])) == Obj(v.fields[key := merged])
  {
    var edited := Obj(Mask(v).fields[key := shown]);
    var out := Merge(v, edited);
    MergeField(v, edited, key);
    forall k | k in v.fields && k != key ensures k in out.fields && out.fields[k] == v.fields[k] {
      OtherFieldStays(v, key, shown, k);
    }
    assert out.fields.Keys == v.fields.Keys + {key};
    assert out.fields == v.fields[key := merged];
  }

  lemma OtherFieldStays(v: Conf, key: Key, shown: Conf, k: Key)
    requires v.Obj? && Restorable(v) && k in v.fields && k != key
    ensures Mask(v).Obj?
    ensures var out := Merge(v, Obj(Mask(v).fields[key := shown]));
      out.Obj? && k in out.fields && out.fields[k] == v.fields[k]
  {
    MergeField(v, Obj(Mask(v).fields[key := shown]), k);
    if k != PROTO { FieldMerges(v, k); }
  }

  /** Putting one value into the mask and merging changes exactly that place of the tree. */
  lemma {:induction false} EditedMaskMerges(v: Conf, path: seq<Key>, value: Conf)
    requires Restorable(v) && Reaches(v, path) && Plain(value)
    ensures Reaches(Mask(v), path)
    ensures Merge(v, Edit(Mask(v), path, value)) == Edit(v, path, value)
    decreases |path|
  {
    MaskReaches(v, path);
    if |path| > 1 {
      var child := v.fields[path[0]];
      EditedMaskMerges(child, path[1..], value);
      OneFieldEdited(v, path[0], Edit(Mask(child), path[1..], value), Edit(child, path[1..], value));
    } else {
      assert Merge(At(v, path[0]), value) == value;
      OneFieldEdited(v, path[0], value, value);
    }
  }

  lemma FieldMerges(v: Conf, k: Key)
    requires v.Obj? && k in v.fields && k != PROTO && Restorable(v)
    ensures Mask(v).Obj? && k in Mask(v).fields && Merge(v.fields[k], Mask(v).fields[k]) == v.fields[k]
  {
    SecretMerges(v.fields[k]);
    MaskRoundTripIff(v.fields[k]);
  }

  // ---------- What any merge does ----------

  /** Saving the same edit twice is saving it once. */
  lemma {:induction false} MergeIsIdempotent(current: Conf, incoming: Conf)
    ensures Merge(Merge(current, incoming), incoming) == Merge(current, incoming)
    decreases incoming
  {
    if incoming.Obj? && !IsMasked(incoming) {
      var once := Merge(current, incoming);
      var twice := Merge(once, incoming);
      forall k | k in once.fields ensures k in twice.fields && twice.fields[k] == once.fields[k] {
        MergeField(current, incoming, k);
        MergeField(once, incoming, k);
        if k in incoming.fields { MergeIsIdempotent(At(current, k), incoming.fields[k]); }
      }
      assert twice.fields.Keys == once.fields.Keys;
      assert twice.fields == once.fields;
    }
  }

  datatype Found = Nothing | Value(v: Conf)

  /** What stands at a path of object fields. */
  ghost function Get(v: Conf, path: seq<Key>): Found
    decreases |path|
  {
    if path == [] then Value(v) else if path[0] in FieldsOf(v) then Get(FieldsOf(v)[path[0]], path[1..]) else Nothing
  }

  /** An edit leaves a path alone if it stops short of it, or shows a mask on the way or in place. */
  ghost predicate LeavesAlone(incoming: Conf, path: seq<Key>)
    decreases |path|
  {
    IsMasked(incoming)
    || (path != [] && incoming.Obj?
        && (path[0] in incoming.fields ==> LeavesAlone(incoming.fields[path[0]], path[1..])))
  }

  /** Whatever an edit leaves alone keeps its value, secrets behind their masks included. */
  lemma {:induction false} UntouchedStays(current: Conf, incoming: Conf, path: seq<Key>)
    requires LeavesAlone(incoming, path) && Get(current, path).Value?
    ensures Get(Merge(current, incoming), path) == Get(current, path)
    decreases |path|
  {
    if !IsMasked(incoming) {
      MergeField(current, incoming, path[0]);
      if path[0] in incoming.fields { UntouchedStays(At(current, path[0]), incoming.fields[path[0]], path[1..]); }
    }
  }

  /** Whatever leaf or array an edit shows unmasked is what stands there afterwards, whatever stood
      there before. */
  lemma {:induction false} ShownIsSet(current: Conf, incoming: Conf, path: seq<Key>, value: Conf)
    requires Get(incoming, path) == Value(value) && Plain(value) && PROTO !in path
    ensures Get(Merge(current, incoming), path) == Value(value)
    decreases |path|
  {
    if path != [] {
      MergeField(current, incoming, path[0]);
      assert forall k | k in path[1..] :: k in path;
      ShownIsSet(At(current, path[0]), incoming.fields[path[0]], path[1..], value);
    }
  }
}
