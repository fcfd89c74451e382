/** JSON values as JavaScript holds them, and their text. */
module JsonText {

  datatype Key = Key(text: string)

  /** What a finite number prints as. */
  type Numeral = s: string | IsNumeral(s) witness "0"

  predicate NumeralChar(c: char) { '0' <= c <= '9' || c == '-' || c == '+' || c == '.' || c == 'e' || c == 'E' }

  predicate IsNumeral(s: string) {
    s != "" && ('0' <= s[0] <= '9' || s[0] == '-') && forall i | 0 <= i < |s| :: NumeralChar(s[i])
  }

  datatype Field = Field(key: Key, value: Value)

  /** Object fields are in insertion order. */
  datatype Value =
    | Undefined | Null | Bool(b: bool) | Num(numeral: Numeral) | Str(s: string)
    | Arr(items: seq<Value>)
    | Obj(fields: seq<Field>)

  // ---------- Strings: section 7 of RFC 8259, escaping what must be escaped ----------

  function Hex(n: int): char
    requires 0 <= n < 16
  {
    if n < 10 then ('0' as int + n) as char else ('a' as int + (n - 10)) as char
  }

  function Escape(c: char): string {
    if c == '"' then ['\\', '"']
    else if c == '\\' then ['\\', '\\']
    else if c as int == 8 then ['\\', 'b']
    else if c as int == 9 then ['\\', 't']
    else if c as int == 10 then ['\\', 'n']
    else if c as int == 12 then ['\\', 'f']
    else if c as int == 13 then ['\\', 'r']
    else if c as int < 32 then ['\\', 'u', '0', '0', Hex(c as int / 16), Hex(c as int % 16)]
    else [c]
  }

  function Escaped(s: string): string {
    if s == "" then "" else Escape(s[0]) + Escaped(s[1..])
  }

  function Quote(s: string): string { ['"'] + Escaped(s) + ['"'] }

  /** The text of the rest of a string, closed, and what follows it. */
  function QuoteOn(s: string, rest: string): string {
    if s == "" then ['"'] + rest else Escape(s[0]) + QuoteOn(s[1..], rest)
  }

  lemma Associates(a: string, b: string, c: string)
    ensures a + b + c == a + (b + c)
  {
  }

  lemma {:induction false} QuoteOnIs(s: string, rest: string)
    ensures Escaped(s) + (['"'] + rest) == QuoteOn(s, rest)
  {
    if s != "" {
      QuoteOnIs(s[1..], rest);
      Associates(Escape(s[0]), Escaped(s[1..]), ['"'] + rest);
    }
  }

  /** No escape is the beginning of another. */
  lemma EscapeIsPrefixFree(c: char, d: char, x: string, y: string)
    requires Escape(c) + x == Escape(d) + y
    ensures c == d && x == y
  {
    var a, b := Escape(c), Escape(d);
    assert (a + x)[0] == a[0] && (b + y)[0] == b[0];
    if |a| > 1 && |b| > 1 {
      assert (a + x)[1] == a[1] && (b + y)[1] == b[1];
      if |a| == 6 && |b| == 6 {
        assert (a + x)[4] == a[4] && (b + y)[4] == b[4];
        assert (a + x)[5] == a[5] && (b + y)[5] == b[5];
      }
    }
    assert |a| == |b|;
    assert (a + x)[|a|..] == x && (b + y)[|b|..] == y;
  }

  lemma QuoteStarts(s: string, rest: string)
    ensures |QuoteOn(s, rest)| > 0 && (QuoteOn(s, rest)[0] == '"' <==> s == "")
  {
  }

  lemma {:induction false} QuoteIsInjective(s: string, t: string, x: string, y: string)
    requires QuoteOn(s, x) == QuoteOn(t, y)
    ensures s == t && x == y
  {
    QuoteStarts(s, x);
    QuoteStarts(t, y);
    if s == "" {
      assert (['"'] + x)[1..] == x && (['"'] + y)[1..] == y;
    } else {
      EscapeIsPrefixFree(s[0], t[0], QuoteOn(s[1..], x), QuoteOn(t[1..], y));
      QuoteIsInjective(s[1..], t[1..], x, y);
      assert s == [s[0]] + s[1..] && t == [t[0]] + t[1..];
    }
  }

  // ---------- Whole values ----------

  /** A value's text followed by `rest`. Undefined prints like null. */
  function TextOn(v: Value, rest: string): string
    decreases v, 0
  {
    match v
    case Undefined => "null" + rest
    case Null => "null" + rest
    case Bool(b) => (if b then "true" else "false") + rest
    case Num(n) => n + rest
    case Str(s) => ['"'] + QuoteOn(s, rest)
    case Arr(items) => ['['] + (if items == [] then [']'] + rest else TextOn(items[0], ItemsOn(items[1..], rest)))
    case Obj(fields) => ['{'] + (if fields == [] then ['}'] + rest else FieldOn(fields[0], FieldsOn(fields[1..], rest)))
  }

  function FieldOn(f: Field, rest: string): string
    decreases f, 0
  {
    ['"'] + QuoteOn(f.key.text, [':'] + TextOn(f.value, rest))
  }

  /** The items after the first, the closing bracket, and what follows. */
  function ItemsOn(items: seq<Value>, rest: string): string
    decreases items, 0
  {
    if items == [] then [']'] + rest else [','] + TextOn(items[0], ItemsOn(items[1..], rest))
  }

  function FieldsOn(fields: seq<Field>, rest: string): string
    decreases fields, 0
  {
    if fields == [] then ['}'] + rest else [','] + FieldOn(fields[0], FieldsOn(fields[1..], rest))
  }

  predicate Delimited(rest: string) { rest == "" || rest[0] == ',' || rest[0] == ']' || rest[0] == '}' }

  /** No undefined anywhere: what a text can stand for. */
  predicate Plain(v: Value) {
    match v
    case Undefined => false
    case Arr(items) => forall i | 0 <= i < |items| :: Plain(items[i])
    case Obj(fields) => forall i | 0 <= i < |fields| :: Plain(fields[i].value)
    case _ => true
  }

  // ---------- The text determines the value ----------

  lemma ConsIsInjective(c: char, d: char, x: string, y: string)
    requires [c] + x == [d] + y
    ensures c == d && x == y
  {
    assert ([c] + x)[0] == c && ([d] + y)[0] == d;
    assert ([c] + x)[1..] == x && ([d] + y)[1..] == y;
  }

  lemma WordIsInjective(w: string, x: string, y: string)
    requires w + x == w + y
    ensures x == y
  {
    assert (w + x)[|w|..] == x && (w + y)[|w|..] == y;
  }

  lemma NumeralIsInjective(a: Numeral, b: Numeral, x: string, y: string)
    requires a + x == b + y && Delimited(x) && Delimited(y)
    ensures a == b && x == y
  {
    NumeralStops(a, b, x, y);
    NumeralStops(b, a, y, x);
    assert (a + x)[..|a|] == a && (b + y)[..|b|] == b;
    WordIsInjective(a, x, y);
  }

  lemma NumeralStops(a: Numeral, b: Numeral, x: string, y: string)
    requires a + x == b + y && Delimited(x)
    ensures |b| <= |a|
  {
    var n := |a|;
    if n < |a + x| { assert (a + x)[n] == x[0]; }
    assert (b + y)[..|b|] == b;
  }

  /** The first character tells the kinds apart. */
  function First(v: Value): char {
    match v
    case Undefined => 'n'
    case Null => 'n'
    case Bool(b) => if b then 't' else 'f'
    case Num(n) => n[0]
    case Str(_) => '"'
    case Arr(_) => '['
    case Obj(_) => '{'
  }

  lemma FirstIsFirst(v: Value, rest: string)
    ensures |TextOn(v, rest)| > 0 && TextOn(v, rest)[0] == First(v)
  {
  }

  lemma {:induction false} TextIsInjective(v: Value, w: Value, x: string, y: string)
    requires Plain(v) && Plain(w) && Delimited(x) && Delimited(y) && TextOn(v, x) == TextOn(w, y)
    ensures v == w && x == y
    decreases v, 1
  {
    FirstIsFirst(v, x);
    FirstIsFirst(w, y);
    match v
    case Null => WordIsInjective("null", x, y);
    case Bool(b) => WordIsInjective(if b then "true" else "false", x, y);
    case Num(n) => NumeralIsInjective(n, w.numeral, x, y);
    case Str(s) =>
      ConsIsInjective('"', '"', QuoteOn(s, x), QuoteOn(w.s, y));
      QuoteIsInjective(s, w.s, x, y);
    case Arr(items) => ArrayIsInjective(items, w.items, x, y);
    case Obj(fields) => ObjectIsInjective(fields, w.fields, x, y);
    case Undefined =>
  }

  lemma {:induction false} ArrayIsInjective(a: seq<Value>, b: seq<Value>, x: string, y: string)
    requires Plain(Arr(a)) && Plain(Arr(b)) && Delimited(x) && Delimited(y) && TextOn(Arr(a), x) == TextOn(Arr(b), y)
    ensures a == b && x == y
    decreases a, 3
  {
    var p := if a == [] then [']'] + x else TextOn(a[0], ItemsOn(a[1..], x));
    var q := if b == [] then [']'] + y else TextOn(b[0], ItemsOn(b[1..], y));
    ConsIsInjective('[', '[', p, q);
    if a == [] && b == [] {
      ConsIsInjective(']', ']', x, y);
    } else if a == [] {
      FirstIsFirst(b[0], ItemsOn(b[1..], y));
    } else if b == [] {
      FirstIsFirst(a[0], ItemsOn(a[1..], x));
    } else {
      TextIsInjective(a[0], b[0], ItemsOn(a[1..], x), ItemsOn(b[1..], y));
      ItemsAreInjective(a[1..], b[1..], x, y);
      assert a == [a[0]] + a[1..] && b == [b[0]] + b[1..];
    }
  }

  lemma {:induction false} ItemsAreInjective(a: seq<Value>, b: seq<Value>, x: string, y: string)
    requires Plain(Arr(a)) && Plain(Arr(b)) && Delimited(x) && Delimited(y) && ItemsOn(a, x) == ItemsOn(b, y)
    ensures a == b && x == y
    decreases a, 2
  {
    if a == [] || b == [] {
      assert ItemsOn(a, x)[0] == if a == [] then ']' else ',';
      assert ItemsOn(b, y)[0] == if b == [] then ']' else ',';
      ConsIsInjective(']', ']', x, y);
    } else {
      ConsIsInjective(',', ',', TextOn(a[0], ItemsOn(a[1..], x)), TextOn(b[0], ItemsOn(b[1..], y)));
      TextIsInjective(a[0], b[0], ItemsOn(a[1..], x), ItemsOn(b[1..], y));
      ItemsAreInjective(a[1..], b[1..], x, y);
      assert a == [a[0]] + a[1..] && b == [b[0]] + b[1..];
    }
  }

  lemma {:induction false} ObjectIsInjective(a: seq<Field>, b: seq<Field>, x: string, y: string)
    requires Plain(Obj(a)) && Plain(Obj(b)) && Delimited(x) && Delimited(y) && TextOn(Obj(a), x) == TextOn(Obj(b), y)
    ensures a == b && x == y
    decreases a, 3
  {
    var p := if a == [] then ['}'] + x else FieldOn(a[0], FieldsOn(a[1..], x));
    var q := if b == [] then ['}'] + y else FieldOn(b[0], FieldsOn(b[1..], y));
    ConsIsInjective('{', '{', p, q);
    if a == [] || b == [] {
      assert p[0] == if a == [] then '}' else '"';
      assert q[0] == if b == [] then '}' else '"';
      ConsIsInjective('}', '}', x, y);
    } else {
      FieldIsInjective(a[0], b[0], FieldsOn(a[1..], x), FieldsOn(b[1..], y));
      FieldsAreInjective(a[1..], b[1..], x, y);
      assert a == [a[0]] + a[1..] && b == [b[0]] + b[1..];
    }
  }

  lemma {:induction false} FieldIsInjective(f: Field, g: Field, x: string, y: string)
    requires Plain(f.value) && Plain(g.value) && Delimited(x) && Delimited(y) && FieldOn(f, x) == FieldOn(g, y)
    ensures f == g && x == y
    decreases f, 1
  {
    var p, q := [':'] + TextOn(f.value, x), [':'] + TextOn(g.value, y);
    ConsIsInjective('"', '"', QuoteOn(f.key.text, p), QuoteOn(g.key.text, q));
    QuoteIsInjective(f.key.text, g.key.text, p, q);
    ConsIsInjective(':', ':', TextOn(f.value, x), TextOn(g.value, y));
    TextIsInjective(f.value, g.value, x, y);
  }

  lemma {:induction false} FieldsAreInjective(a: seq<Field>, b: seq<Field>, x: string, y: string)
    requires Plain(Obj(a)) && Plain(Obj(b)) && Delimited(x) && Delimited(y) && FieldsOn(a, x) == FieldsOn(b, y)
    ensures a == b && x == y
    decreases a, 2
  {
    if a == [] || b == [] {
      assert FieldsOn(a, x)[0] == if a == [] then '}' else ',';
      assert FieldsOn(b, y)[0] == if b == [] then '}' else ',';
      ConsIsInjective('}', '}', x, y);
    } else {
      ConsIsInjective(',', ',', FieldOn(a[0], FieldsOn(a[1..], x)), FieldOn(b[0], FieldsOn(b[1..], y)));
      FieldIsInjective(a[0], b[0], FieldsOn(a[1..], x), FieldsOn(b[1..], y));
      FieldsAreInjective(a[1..], b[1..], x, y);
      assert a == [a[0]] + a[1..] && b == [b[0]] + b[1..];
    }
  }

  // ---------- Reading a string back ----------

  datatype Read = Broken | Was(s: string, rest: string)

  function HexValue(c: char): int {
    if '0' <= c <= '9' then c as int - '0' as int
    else if 'a' <= c <= 'f' then c as int - 'a' as int + 10
    else if 'A' <= c <= 'F' then c as int - 'A' as int + 10
    else -1
  }

  function OneOf(c: char, read: Read): Read { if read.Broken? then Broken else Was([c] + read.s, read.rest) }

  /** What section 7 of RFC 8259 reads after an opening quote: the string up to its closing quote, and what
      follows it. */
  function ReadString(s: string): Read {
    if s == "" then Broken
    else if s[0] == '"' then Was("", s[1..])
    else if s[0] != '\\' then OneOf(s[0], ReadString(s[1..]))
    else if |s| < 2 then Broken
    else if s[1] == '"' || s[1] == '\\' || s[1] == '/' then OneOf(s[1], ReadString(s[2..]))
    else if s[1] == 'b' then OneOf(8 as char, ReadString(s[2..]))
    else if s[1] == 'f' then OneOf(12 as char, ReadString(s[2..]))
    else if s[1] == 'n' then OneOf('\n', ReadString(s[2..]))
    else if s[1] == 'r' then OneOf('\r', ReadString(s[2..]))
    else if s[1] == 't' then OneOf('\t', ReadString(s[2..]))
    else if s[1] == 'u' && |s| >= 6 && IsCode(s[2..6]) then OneOf(Code(s[2..6]) as char, ReadString(s[6..]))
    else Broken
  }

  predicate IsCode(h: string) {
    |h| == 4 && (forall i | 0 <= i < 4 :: HexValue(h[i]) >= 0) && Code(h) < 0xD800
  }

  function Code(h: string): int
    requires |h| == 4
  {
    HexValue(h[0]) * 4096 + HexValue(h[1]) * 256 + HexValue(h[2]) * 16 + HexValue(h[3])
  }

  lemma HexReads(n: int)
    requires 0 <= n < 16
    ensures HexValue(Hex(n)) == n
  {
  }

  lemma ShortReads(c: char, rest: string)
    requires |Escape(c)| < 6
    ensures ReadString(Escape(c) + rest) == OneOf(c, ReadString(rest))
  {
    assert (Escape(c) + rest)[|Escape(c)|..] == rest;
  }

  lemma CodeReads(h: string, rest: string)
    requires IsCode(h)
    ensures ReadString(['\\', 'u'] + h + rest) == OneOf(Code(h) as char, ReadString(rest))
  {
    var text := ['\\', 'u'] + h + rest;
    assert text[2..6] == h && text[6..] == rest;
  }

  lemma ControlCode(c: char)
    requires |Escape(c)| == 6
    ensures var h := ['0', '0', Hex(c as int / 16), Hex(c as int % 16)];
      IsCode(h) && Code(h) == c as int && Escape(c) == ['\\', 'u'] + h
  {
    HexReads(c as int / 16);
    HexReads(c as int % 16);
  }

  lemma EscapeReads(c: char, rest: string)
    ensures ReadString(Escape(c) + rest) == OneOf(c, ReadString(rest))
  {
    if |Escape(c)| == 6 {
      ControlCode(c);
      CodeReads(['0', '0', Hex(c as int / 16), Hex(c as int % 16)], rest);
    } else {
      ShortReads(c, rest);
    }
  }

  /** Every escaped string reads back as itself, wherever it stands. */
  lemma {:induction false} QuoteReadsBack(s: string, rest: string)
    ensures ReadString(QuoteOn(s, rest)) == Was(s, rest)
  {
    if s == "" {
      assert (['"'] + rest)[1..] == rest;
    } else {
      QuoteReadsBack(s[1..], rest);
      EscapeReads(s[0], QuoteOn(s[1..], rest));
      assert s == [s[0]] + s[1..];
    }
  }

  /** How the simple values and the empty ones print. */
  lemma LiteralsAre(n: Numeral)
    ensures TextOn(Null, "") == TextOn(Undefined, "") == "null"
    ensures TextOn(Bool(true), "") == "true" && TextOn(Bool(false), "") == "false"
    ensures TextOn(Num(n), "") == n && TextOn(Arr([]), "") == "[]" && TextOn(Obj([]), "") == "{}"
  {
    assert n + "" == n;
  }

  /** Escaped are exactly quotes, backslashes and control characters. */
  lemma EscapedIff(c: char)
    ensures Escape(c) != [c] <==> c == '"' || c == '\\' || c as int < 32
  {
  }
}
