/** Finding the JSON action in a model's reply: a fenced block if there is one, otherwise the first
    balanced pair of braces, reading strings and their escapes. */
module ActionScanner {
  import opened Common
  import opened JsonText

  // ---------- The brace scanner ----------

  /** How many characters, from here, until the braces balance. */
  function Scan(text: string, depth: int, inString: bool, escaped: bool): Option<nat> {
    if text == "" then None
    else
      var c, rest := text[0], text[1..];
      if inString then
        if escaped then Past(Scan(rest, depth, true, false), 1)
        else if c == '\\' then Past(Scan(rest, depth, true, true), 1)
        else Past(Scan(rest, depth, c != '"', false), 1)
      else if c == '"' then Past(Scan(rest, depth, true, false), 1)
      else if c == '{' then Past(Scan(rest, depth + 1, false, false), 1)
      else if c == '}' then
        if depth - 1 == 0 then Some(1) else Past(Scan(rest, depth - 1, false, false), 1)
      else Past(Scan(rest, depth, false, false), 1)
  }

  function Past(found: Option<nat>, n: nat): Option<nat> { if found.Some? then Some(found.value + n) else None }

  function IndexOf(text: string, c: char): (i: nat)
    ensures i <= |text| && (i < |text| ==> text[i] == c) && forall j | 0 <= j < i :: text[j] != c
  {
    if text == "" || text[0] == c then 0 else 1 + IndexOf(text[1..], c)
  }

  // ---------- The fence ----------

  predicate FenceAt(text: string, i: nat) {
    i + 3 <= |text| && text[i] == '`' && text[i + 1] == '`' && text[i + 2] == '`'
  }

  /** The first fence at or after i, |text| if there is none. */
  function NextFence(text: string, i: nat): (f: nat)
    requires i <= |text|
    ensures i <= f <= |text| && (f < |text| ==> FenceAt(text, f)) && forall j | i <= j < f :: !FenceAt(text, j)
    decreases |text| - i
  {
    if i == |text| || FenceAt(text, i) then i else NextFence(text, i + 1)
  }

  predicate StartsWithJson(s: string) {
    |s| >= 4 && Lower(s[0]) == 'j' && Lower(s[1]) == 's' && Lower(s[2]) == 'o' && Lower(s[3]) == 'n'
  }

  /** What stands between the first two fences, without a leading "json". */
  function Fenced(text: string): Option<string> {
    var open := NextFence(text, 0);
    if open == |text| then None
    else
      var close := NextFence(text, open + 3);
      if close == |text| then None
      else
        var body := text[open + 3..close];
        Some(Trim(if StartsWithJson(body) then body[4..] else body))
  }

  /** Two fences that do not overlap: what the regular expression needs. */
  ghost predicate HasFence(text: string) { exists i: nat, j: nat :: FencePair(text, i, j) }

  ghost predicate FencePair(text: string, i: nat, j: nat) { i + 3 <= j && FenceAt(text, i) && FenceAt(text, j) }

  /** A text is read as fenced exactly if it has an opening and a closing fence; one that the model never
      closed is none. */
  lemma FencedIff(text: string)
    ensures Fenced(text).Some? <==> HasFence(text)
  {
    var open := NextFence(text, 0);
    if open < |text| {
      var close := NextFence(text, open + 3);
      if close < |text| { assert FencePair(text, open, close); }
    }
    if i: nat, j: nat :| FencePair(text, i, j) {
      assert open <= i;
    }
  }

  function FirstObject(text: string): string {
    match Fenced(text)
    case Some(body) => body
    case None => BareObject(text)
  }

  /** From the first opening brace to where its braces balance. */
  function BareObject(text: string): string {
    var start := IndexOf(text, '{');
    if start == |text| then ""
    else
      var n := Scan(text[start..], 0, false, false);
      ScanStays(text[start..], 0, false, false);
      if n.Some? then text[start..start + n.value] else ""
  }

  lemma {:induction false} ScanStays(text: string, depth: int, inString: bool, escaped: bool)
    ensures Scan(text, depth, inString, escaped).Some? ==> Scan(text, depth, inString, escaped).value <= |text|
  {
    if text != "" {
      var c, rest := text[0], text[1..];
      ScanStays(rest, depth, true, false);
      ScanStays(rest, depth, true, true);
      ScanStays(rest, depth, false, false);
      ScanStays(rest, depth + 1, false, false);
      ScanStays(rest, depth - 1, false, false);
    }
  }

  /** The scan from start is now at index, in this state. */
  ghost predicate Remains(source: string, start: nat, index: nat, depth: int, inString: bool, escaped: bool) {
    && start <= index <= |source|
    && Scan(source[start..], 0, false, false) == Past(Scan(source[index..], depth, inString, escaped), index - start)
  }

  function Deeper(c: char, depth: int): int { if c == '{' then depth + 1 else if c == '}' then depth - 1 else depth }

  lemma Advance(source: string, start: nat, index: nat, depth: int, inString: bool, escaped: bool)
    requires index < |source| && (escaped ==> inString) && Remains(source, start, index, depth, inString, escaped)
    ensures inString ==>
      Remains(source, start, index + 1, depth, escaped || source[index] != '"', !escaped && source[index] == '\\')
    ensures !inString && source[index] == '}' && depth == 1 ==>
      Scan(source[start..], 0, false, false) == Some(index + 1 - start)
    ensures !inString && !(source[index] == '}' && depth == 1) ==>
      Remains(source, start, index + 1, Deeper(source[index], depth), source[index] == '"', false)
  {
    var ch, rest := source[index], source[index + 1..];
    assert source[index..] == [ch] + rest;
    ScanCons(ch, rest, depth, inString, escaped);
  }

  method FirstJsonObject(source: string) returns (found: string)
    ensures found == FirstObject(source)
  {
    var fence := Fenced(source);
    if fence.Some? { return fence.value; }
    var start := IndexOf(source, '{');
    if start == |source| { return ""; }
    ScanStays(source[start..], 0, false, false);
    var depth, inString, escaped := 0, false, false;
    for index := start to |source|
      invariant Remains(source, start, index, depth, inString, escaped)
      invariant escaped ==> inString
    {
      var ch := source[index];
      Advance(source, start, index, depth, inString, escaped);
      if inString {
        if escaped { escaped := false; }
        else if ch == '\\' { escaped := true; }
        else if ch == '"' { inString := false; }
        continue;
      }
      if ch == '"' { inString := true; }
      else if ch == '{' { depth := depth + 1; }
      else if ch == '}' {
        depth := depth - 1;
        if depth == 0 { return source[start..index + 1]; }
      }
    }
    found := "";
  }

  // ---------- Balanced texts ----------

  /** A string is characters that end nothing, and backslash pairs. */
  datatype Piece = Raw(c: char) | Pair(c: char)

  /** A text with balanced braces: every RFC 8259 object, with any layout and any escapes, is Braced. */
  datatype Token = Other(c: char) | Quoted(pieces: seq<Piece>) | Braced(inner: seq<Token>)

  predicate ProperPieces(ps: seq<Piece>) {
    forall i | 0 <= i < |ps| :: ps[i].Raw? ==> ps[i].c != '"' && ps[i].c != '\\'
  }

  predicate Proper(t: Token) {
    match t
    case Other(c) => c != '"' && c != '{' && c != '}'
    case Quoted(ps) => ProperPieces(ps)
    case Braced(inner) => forall i | 0 <= i < |inner| :: Proper(inner[i])
  }

  predicate AllProper(ts: seq<Token>) { forall i | 0 <= i < |ts| :: Proper(ts[i]) }

  function PiecesOn(ps: seq<Piece>, rest: string): string {
    if ps == [] then ['"'] + rest
    else (if ps[0].Raw? then [ps[0].c] else ['\\', ps[0].c]) + PiecesOn(ps[1..], rest)
  }

  function TokenOn(t: Token, rest: string): string
    decreases t, 0
  {
    match t
    case Other(c) => [c] + rest
    case Quoted(ps) => ['"'] + PiecesOn(ps, rest)
    case Braced(inner) => ['{'] + TokensOn(inner, ['}'] + rest)
  }

  function TokensOn(ts: seq<Token>, rest: string): string
    decreases ts, 0
  {
    if ts == [] then rest else TokenOn(ts[0], TokensOn(ts[1..], rest))
  }

  // ---------- Scanning a balanced text ----------

  /** The scan of text goes on as that of its suffix. */
  ghost predicate Continues(text: string, depth: int, inString: bool, rest: string) {
    |rest| <= |text| && Scan(text, depth, inString, false) == Past(Scan(rest, depth, false, false), |text| - |rest|)
  }

  lemma ScanCons(c: char, rest: string, depth: int, inString: bool, escaped: bool)
    ensures ([c] + rest)[1..] == rest
    ensures inString && escaped ==>
      Scan([c] + rest, depth, inString, escaped) == Past(Scan(rest, depth, true, false), 1)
    ensures inString && !escaped ==>
      Scan([c] + rest, depth, inString, escaped) == Past(Scan(rest, depth, c != '"', c == '\\'), 1)
    ensures !inString && c != '"' && c != '{' && c != '}' ==>
      Scan([c] + rest, depth, inString, escaped) == Past(Scan(rest, depth, false, false), 1)
    ensures !inString && c == '"' ==>
      Scan([c] + rest, depth, inString, escaped) == Past(Scan(rest, depth, true, false), 1)
    ensures !inString && c == '{' ==>
      Scan([c] + rest, depth, inString, escaped) == Past(Scan(rest, depth + 1, false, false), 1)
    ensures !inString && c == '}' && depth == 1 ==> Scan([c] + rest, depth, inString, escaped) == Some(1)
    ensures !inString && c == '}' && depth != 1 ==>
      Scan([c] + rest, depth, inString, escaped) == Past(Scan(rest, depth - 1, false, false), 1)
  {
    assert ([c] + rest)[1..] == rest;
  }

  lemma {:induction false} ScanPieces(ps: seq<Piece>, rest: string, depth: int)
    requires ProperPieces(ps)
    ensures Continues(PiecesOn(ps, rest), depth, true, rest)
  {
    if ps == [] {
      ScanCons('"', rest, depth, true, false);
    } else {
      var tail := PiecesOn(ps[1..], rest);
      ScanPieces(ps[1..], rest, depth);
      if ps[0].Raw? {
        ScanCons(ps[0].c, tail, depth, true, false);
      } else {
        assert ['\\', ps[0].c] + tail == ['\\'] + ([ps[0].c] + tail);
        ScanCons('\\', [ps[0].c] + tail, depth, true, false);
        ScanCons(ps[0].c, tail, depth, true, true);
      }
    }
  }

  lemma {:induction false} ScanToken(t: Token, rest: string, depth: int)
    requires Proper(t) && depth >= 1
    ensures Continues(TokenOn(t, rest), depth, false, rest)
    decreases t, 0
  {
    match t
    case Other(c) => ScanCons(c, rest, depth, false, false);
    case Quoted(ps) =>
      ScanCons('"', PiecesOn(ps, rest), depth, false, false);
      ScanPieces(ps, rest, depth);
    case Braced(inner) =>
      ScanCons('{', TokensOn(inner, ['}'] + rest), depth, false, false);
      ScanTokens(inner, ['}'] + rest, depth + 1);
      ScanCons('}', rest, depth + 1, false, false);
  }

  lemma {:induction false} ScanTokens(ts: seq<Token>, rest: string, depth: int)
    requires AllProper(ts) && depth >= 1
    ensures Continues(TokensOn(ts, rest), depth, false, rest)
    decreases ts, 0
  {
    if ts != [] {
      ScanTokens(ts[1..], rest, depth);
      ScanToken(ts[0], TokensOn(ts[1..], rest), depth);
    }
  }

  /** From its opening brace the scanner stops exactly at the brace that closes it. */
  lemma ScanObject(inner: seq<Token>, rest: string)
    requires AllProper(inner)
    ensures |TokenOn(Braced(inner), rest)| >= |rest|
    ensures Scan(TokenOn(Braced(inner), rest), 0, false, false) == Some(|TokenOn(Braced(inner), rest)| - |rest|)
  {
    ScanCons('{', TokensOn(inner, ['}'] + rest), 0, false, false);
    ScanTokens(inner, ['}'] + rest, 1);
    ScanCons('}', rest, 1, false, false);
  }

  lemma {:induction false} PiecesSplit(ps: seq<Piece>, rest: string)
    ensures PiecesOn(ps, rest) == PiecesOn(ps, "") + rest
  {
    if ps == [] {
      assert ['"'] + "" + rest == ['"'] + rest;
    } else {
      PiecesSplit(ps[1..], rest);
      Associates(if ps[0].Raw? then [ps[0].c] else ['\\', ps[0].c], PiecesOn(ps[1..], ""), rest);
    }
  }

  lemma {:induction false} TokenSplit(t: Token, rest: string)
    ensures TokenOn(t, rest) == TokenOn(t, "") + rest
    decreases t, 0
  {
    match t
    case Other(c) => assert [c] + "" + rest == [c] + rest;
    case Quoted(ps) =>
      PiecesSplit(ps, rest);
      Associates(['"'], PiecesOn(ps, ""), rest);
    case Braced(inner) =>
      TokensSplit(inner, ['}'] + rest);
      TokensSplit(inner, ['}'] + "");
      Associates(['{'], TokensOn(inner, "") + (['}'] + ""), rest);
      Associates(TokensOn(inner, ""), ['}'] + "", rest);
      assert ['}'] + "" + rest == ['}'] + rest;
  }

  lemma {:induction false} TokensSplit(ts: seq<Token>, rest: string)
    ensures TokensOn(ts, rest) == TokensOn(ts, "") + rest
    decreases ts, 0
  {
    if ts == [] {
      assert "" + rest == rest;
    } else {
      TokensSplit(ts[1..], rest);
      TokenSplit(ts[0], TokensOn(ts[1..], rest));
      TokenSplit(ts[0], TokensOn(ts[1..], ""));
      Associates(TokenOn(ts[0], ""), TokensOn(ts[1..], ""), rest);
    }
  }

  lemma ObjectSplit(inner: seq<Token>, rest: string)
    ensures TokenOn(Braced(inner), rest) == TokenOn(Braced(inner), "") + rest
    ensures |TokenOn(Braced(inner), "")| >= 2 && TokenOn(Braced(inner), "")[0] == '{'
    ensures TokenOn(Braced(inner), "")[|TokenOn(Braced(inner), "")| - 1] == '}'
  {
    TokenSplit(Braced(inner), rest);
    TokensSplit(inner, ['}'] + "");
    assert ['}'] + "" == ['}'];
    assert TokenOn(Braced(inner), "") == ['{'] + (TokensOn(inner, "") + ['}']);
  }

  lemma FirstBrace(prefix: string, rest: string)
    requires '{' !in prefix && rest != "" && rest[0] == '{'
    ensures IndexOf(prefix + rest, '{') == |prefix| && (prefix + rest)[|prefix|..] == rest
  {
    var text := prefix + rest;
    assert text[|prefix|] == '{' && forall j | 0 <= j < |prefix| :: text[j] == prefix[j];
  }

  lemma BareIs(text: string, start: nat, whole: string, suffix: string)
    requires start == IndexOf(text, '{') < |text| && text[start..] == whole + suffix
    requires Scan(text[start..], 0, false, false) == Some(|whole|)
    ensures BareObject(text) == whole
  {
    assert text[start..start + |whole|] == text[start..][..|whole|] == whole;
  }

  /** In a text that is not fenced, the scanner returns exactly the first balanced object, whatever
      stands before it without an opening brace and whatever follows. */
  lemma FindsBareObject(prefix: string, inner: seq<Token>, suffix: string)
    requires AllProper(inner) && '{' !in prefix
    requires !HasFence(prefix + TokenOn(Braced(inner), suffix))
    ensures FirstObject(prefix + TokenOn(Braced(inner), suffix)) == TokenOn(Braced(inner), "")
  {
    FencedIff(prefix + TokenOn(Braced(inner), suffix));
    ObjectSplit(inner, suffix);
    ScanObject(inner, suffix);
    FirstBrace(prefix, TokenOn(Braced(inner), suffix));
    BareIs(prefix + TokenOn(Braced(inner), suffix), |prefix|, TokenOn(Braced(inner), ""), suffix);
  }

  // ---------- Fenced objects ----------

  ghost predicate Blank(s: string) { forall i | 0 <= i < |s| :: IsSpace(s[i]) }

  lemma {:induction false} TrimLeftDrops(blank: string, s: string)
    requires Blank(blank) && s != "" && !IsSpace(s[0])
    ensures TrimLeft(blank + s) == s
  {
    if blank == "" {
      assert blank + s == s;
    } else {
      TrimLeftDrops(blank[1..], s);
      assert (blank + s)[1..] == blank[1..] + s;
    }
  }

  lemma {:induction false} TrimRightDrops(s: string, blank: string)
    requires Blank(blank) && s != "" && !IsSpace(s[|s| - 1])
    ensures TrimRight(s + blank) == s
  {
    if blank == "" {
      assert s + blank == s;
    } else {
      TrimRightDrops(s, blank[..|blank| - 1]);
      assert (s + blank)[..|s + blank| - 1] == s + blank[..|blank| - 1];
    }
  }

  const FENCE := "```"

  ghost predicate IsLanguage(s: string) { s == "" || (|s| == 4 && StartsWithJson(s)) }

  /** The fence after this prefix is the first: none starts inside it, not even one reaching into the fence. */
  ghost predicate NoFenceBefore(prefix: string) { forall j | 0 <= j < |prefix| :: !FenceAt(prefix + FENCE, j) }

  /** A fenced object is returned without its fence, its language tag and the white space around it,
      as long as the fence is the first and the object contains no fence itself. */
  lemma FindsFencedObject(prefix: string, language: string, before: string, action: string, after: string,
      suffix: string)
    requires NoFenceBefore(prefix) && IsLanguage(language) && Blank(before) && Blank(after)
    requires |action| >= 2 && action[0] == '{' && action[|action| - 1] == '}'
    requires forall j | 0 <= j < |action| :: !FenceAt(action, j)
    ensures FirstObject(prefix + (FENCE + (language + (before + (action + (after + (FENCE + suffix))))))) == action
  {
    var body := language + (before + (action + after));
    var text := prefix + (FENCE + (body + (FENCE + suffix)));
    assert text == prefix + (FENCE + (language + (before + (action + (after + (FENCE + suffix))))));
    BodyHasNoFence(language, before, action, after);
    FencesFound(prefix, body, suffix);
    var inner := before + (action + after);
    if language == "" {
      assert body == inner && !StartsWithJson(inner);
    } else {
      assert body[4..] == inner && StartsWithJson(body);
    }
    TrimLeftDrops(before, action + after);
    TrimRightDrops(action, after);
  }

  /** No fence starts inside the body, not even one reaching into the closing fence. */
  lemma BodyHasNoFence(language: string, before: string, action: string, after: string)
    requires IsLanguage(language) && Blank(before) && Blank(after)
    requires |action| >= 2 && action[|action| - 1] == '}' && forall j | 0 <= j < |action| :: !FenceAt(action, j)
    ensures var body := language + (before + (action + after));
      forall rest: string, j | 0 <= j < |body| :: !FenceAt(body + rest, j)
  {
    var body := language + (before + (action + after));
    var lead := |language| + |before|;
    assert forall i | 0 <= i < lead :: body[i] != '`';
    assert forall i | 0 <= i < |action| :: body[lead + i] == action[i];
    assert forall i | lead + |action| <= i < |body| :: body[i] == after[i - lead - |action|];
    forall rest: string, j | 0 <= j < |body| ensures !FenceAt(body + rest, j) {
      var whole := body + rest;
      var last := lead + |action| - 1;
      assert whole[j] == body[j] && whole[last] == '}';
      if lead <= j && j + 2 <= last {
        assert !FenceAt(action, j - lead);
        assert whole[j + 1] == body[j + 1] && whole[j + 2] == body[j + 2];
      }
    }
  }

  lemma OpeningFence(prefix: string, rest: string)
    requires NoFenceBefore(prefix)
    ensures FenceAt(prefix + (FENCE + rest), |prefix|) && NextFence(prefix + (FENCE + rest), 0) == |prefix|
  {
    var text := prefix + (FENCE + rest);
    assert forall j | 0 <= j < |prefix| + 3 :: text[j] == (prefix + FENCE)[j];
    forall j | 0 <= j < |prefix| ensures !FenceAt(text, j) { assert !FenceAt(prefix + FENCE, j); }
    assert FenceAt(text, |prefix|);
  }

  lemma FenceStarts(text: string, c: nat, suffix: string)
    requires c <= |text| && text[c..] == FENCE + suffix
    ensures FenceAt(text, c)
  {
    assert text[c..][0] == '`' && text[c..][1] == '`' && text[c..][2] == '`';
  }

  lemma ClosingFence(text: string, from: nat, body: string, suffix: string)
    requires from <= |text| && text[from..] == body + (FENCE + suffix)
    requires forall j | 0 <= j < |body| :: !FenceAt(text[from..], j)
    ensures NextFence(text, from) == from + |body| < |text| && text[from..from + |body|] == body
  {
    var rest, c := text[from..], from + |body|;
    assert rest[|body|..] == FENCE + suffix == text[c..];
    FenceStarts(text, c, suffix);
    forall j | from <= j < c ensures !FenceAt(text, j) { assert !FenceAt(rest, j - from); }
    assert rest[..|body|] == body;
  }

  lemma FencesFound(prefix: string, body: string, suffix: string)
    requires NoFenceBefore(prefix) && forall rest: string, j | 0 <= j < |body| :: !FenceAt(body + rest, j)
    ensures Fenced(prefix + (FENCE + (body + (FENCE + suffix)))) ==
      Some(Trim(if StartsWithJson(body) then body[4..] else body))
  {
    var rest := body + (FENCE + suffix);
    var text := prefix + (FENCE + rest);
    OpeningFence(prefix, rest);
    assert text == prefix + FENCE + rest;
    ClosingFence(text, |prefix| + 3, body, suffix);
  }

  /** What stands before and after is white space, what remains neither begins nor ends with any. */
  lemma TrimIs(s: string) returns (before: string, after: string)
    ensures s == before + (Trim(s) + after) && Blank(before) && Blank(after)
    ensures Trim(s) != "" ==> !IsSpace(Trim(s)[0]) && !IsSpace(Trim(s)[|Trim(s)| - 1])
  {
    before := LeftBlank(s);
    after := RightBlank(TrimLeft(s));
  }

  lemma {:induction false} LeftBlank(s: string) returns (blank: string)
    ensures s == blank + TrimLeft(s) && Blank(blank) && (TrimLeft(s) != "" ==> !IsSpace(TrimLeft(s)[0]))
  {
    if s != "" && IsSpace(s[0]) {
      var rest := LeftBlank(s[1..]);
      blank := [s[0]] + rest;
      assert s == [s[0]] + s[1..];
    } else {
      blank := "";
    }
  }

  lemma {:induction false} RightBlank(s: string) returns (blank: string)
    ensures s == TrimRight(s) + blank && Blank(blank)
    ensures TrimRight(s) != "" ==> TrimRight(s)[0] == s[0] && !IsSpace(TrimRight(s)[|TrimRight(s)| - 1])
    ensures s != "" && !IsSpace(s[0]) ==> TrimRight(s) != ""
  {
    if s != "" && IsSpace(s[|s| - 1]) {
      var rest := RightBlank(s[..|s| - 1]);
      blank := rest + [s[|s| - 1]];
      assert s == s[..|s| - 1] + [s[|s| - 1]];
    } else {
      blank := "";
    }
  }

  /** Whatever a fence holds, the answer is its text up to the next fence, without a leading language
      tag in any letter case and trimmed; another tag stays part of it. */
  lemma FenceWins(text: string, i: nat, j: nat)
    requires FencePair(text, i, j) && (forall k | 0 <= k < i :: !FenceAt(text, k))
    requires forall k | i + 3 <= k < j :: !FenceAt(text, k)
    ensures FirstObject(text) == Trim(if StartsWithJson(text[i + 3..j]) then text[i + 7..j] else text[i + 3..j])
  {
    assert NextFence(text, 0) == i && NextFence(text, i + 3) == j;
    if StartsWithJson(text[i + 3..j]) { assert text[i + 3..j][4..] == text[i + 7..j]; }
  }

  lemma JsonTagIff(s: string)
    ensures StartsWithJson(s) <==>
      |s| >= 4 && s[0] in {'j', 'J'} && s[1] in {'s', 'S'} && s[2] in {'o', 'O'} && s[3] in {'n', 'N'}
  {
  }

  // ---------- Printed JSON values are balanced ----------

  function Raws(w: string): seq<Piece> { seq(|w|, i requires 0 <= i < |w| => Raw(w[i])) }

  function EscapePieces(e: string): seq<Piece> { if |e| <= 1 then Raws(e) else [Pair(e[1])] + Raws(e[2..]) }

  function PiecesOf(s: string): seq<Piece> { if s == "" then [] else EscapePieces(Escape(s[0])) + PiecesOf(s[1..]) }

  predicate EndsNothing(w: string) { forall i | 0 <= i < |w| :: w[i] != '"' && w[i] != '\\' }

  lemma EscapeShape(c: char)
    ensures var e := Escape(c);
      |e| >= 1 && if |e| == 1 then EndsNothing(e) else e[0] == '\\' && EndsNothing(e[2..])
  {
  }

  lemma {:induction false} RawsText(w: string, ps: seq<Piece>, rest: string)
    requires EndsNothing(w)
    ensures PiecesOn(Raws(w) + ps, rest) == w + PiecesOn(ps, rest) && ProperPieces(Raws(w))
  {
    if w == "" {
      assert Raws(w) + ps == ps;
    } else {
      RawsText(w[1..], ps, rest);
      assert Raws(w) + ps == [Raw(w[0])] + (Raws(w[1..]) + ps);
      FrontPiece(Raw(w[0]), Raws(w[1..]) + ps, rest);
      assert w == [w[0]] + w[1..];
      Associates([w[0]], w[1..], PiecesOn(ps, rest));
    }
  }

  lemma FrontPiece(q: Piece, ps: seq<Piece>, rest: string)
    ensures PiecesOn([q] + ps, rest) == (if q.Raw? then [q.c] else ['\\', q.c]) + PiecesOn(ps, rest)
  {
    assert ([q] + ps)[1..] == ps;
  }

  lemma EscapeIsPieces(c: char, ps: seq<Piece>, rest: string)
    ensures PiecesOn(EscapePieces(Escape(c)) + ps, rest) == Escape(c) + PiecesOn(ps, rest)
    ensures ProperPieces(EscapePieces(Escape(c)))
  {
    var e := Escape(c);
    EscapeShape(c);
    if |e| == 1 {
      RawsText(e, ps, rest);
    } else {
      RawsText(e[2..], ps, rest);
      assert EscapePieces(e) + ps == [Pair(e[1])] + (Raws(e[2..]) + ps);
      FrontPiece(Pair(e[1]), Raws(e[2..]) + ps, rest);
      assert e == ['\\', e[1]] + e[2..];
      Associates(['\\', e[1]], e[2..], PiecesOn(ps, rest));
    }
  }

  lemma {:induction false} QuotedIsPieces(s: string, rest: string)
    ensures QuoteOn(s, rest) == PiecesOn(PiecesOf(s), rest) && ProperPieces(PiecesOf(s))
  {
    if s != "" {
      QuotedIsPieces(s[1..], rest);
      EscapeIsPieces(s[0], PiecesOf(s[1..]), rest);
    }
  }

  function Word(w: string): seq<Token> { seq(|w|, i requires 0 <= i < |w| => Other(w[i])) }

  function Tokens(v: Value): seq<Token>
    decreases v, 0
  {
    match v
    case Undefined => Word("null")
    case Null => Word("null")
    case Bool(b) => Word(if b then "true" else "false")
    case Num(n) => Word(n)
    case Str(s) => [Quoted(PiecesOf(s))]
    case Arr(items) => [Other('[')] + (if items == [] then [Other(']')] else Tokens(items[0]) + ItemTokens(items[1..]))
    case Obj(fields) => [Braced(Inside(fields))]
  }

  function ItemTokens(items: seq<Value>): seq<Token>
    decreases items, 0
  {
    if items == [] then [Other(']')] else [Other(',')] + (Tokens(items[0]) + ItemTokens(items[1..]))
  }

  function Inside(fields: seq<Field>): seq<Token>
    decreases fields, 1
  {
    if fields == [] then [] else FieldTokens(fields[0]) + MoreFields(fields[1..])
  }

  function FieldTokens(f: Field): seq<Token>
    decreases f, 0
  {
    [Quoted(PiecesOf(f.key.text))] + ([Other(':')] + Tokens(f.value))
  }

  function MoreFields(fields: seq<Field>): seq<Token>
    decreases fields, 0
  {
    if fields == [] then [] else [Other(',')] + (FieldTokens(fields[0]) + MoreFields(fields[1..]))
  }

  lemma {:induction false} TokensJoin(a: seq<Token>, b: seq<Token>, rest: string)
    ensures TokensOn(a + b, rest) == TokensOn(a, TokensOn(b, rest))
  {
    if a == [] {
      assert a + b == b;
    } else {
      assert (a + b)[1..] == a[1..] + b;
      TokensJoin(a[1..], b, rest);
    }
  }

  lemma FrontToken(t: Token, ts: seq<Token>, rest: string)
    ensures TokensOn([t] + ts, rest) == TokenOn(t, TokensOn(ts, rest)) && TokensOn([t], rest) == TokenOn(t, rest)
  {
    assert ([t] + ts)[1..] == ts;
  }

  predicate Harmless(w: string) { forall i | 0 <= i < |w| :: w[i] != '"' && w[i] != '{' && w[i] != '}' }

  lemma {:induction false} WordText(w: string, rest: string)
    requires Harmless(w)
    ensures TokensOn(Word(w), rest) == w + rest && AllProper(Word(w))
  {
    if w == "" {
      assert w + rest == rest;
    } else {
      WordText(w[1..], rest);
      assert Word(w) == [Other(w[0])] + Word(w[1..]);
      FrontToken(Other(w[0]), Word(w[1..]), rest);
      assert w == [w[0]] + w[1..];
      Associates([w[0]], w[1..], rest);
    }
  }

  /** The printed text of any value is that of balanced tokens, whatever its strings hold. */
  lemma {:induction false} TokensText(v: Value, rest: string)
    ensures TokensOn(Tokens(v), rest) == TextOn(v, rest) && AllProper(Tokens(v))
    decreases v, 1
  {
    match v
    case Undefined => WordText("null", rest);
    case Null => WordText("null", rest);
    case Bool(b) => WordText(if b then "true" else "false", rest);
    case Num(n) => WordText(n, rest);
    case Str(s) =>
      QuotedIsPieces(s, rest);
      FrontToken(Quoted(PiecesOf(s)), [], rest);
    case Arr(items) =>
      if items == [] {
        FrontToken(Other('['), [Other(']')], rest);
        FrontToken(Other(']'), [], rest);
      } else {
        FrontToken(Other('['), Tokens(items[0]) + ItemTokens(items[1..]), rest);
        TokensJoin(Tokens(items[0]), ItemTokens(items[1..]), rest);
        ItemsText(items[1..], rest);
        TokensText(items[0], ItemsOn(items[1..], rest));
      }
    case Obj(fields) =>
      FrontToken(Braced(Inside(fields)), [], rest);
      if fields != [] {
        TokensJoin(FieldTokens(fields[0]), MoreFields(fields[1..]), ['}'] + rest);
        FieldsText(fields[1..], rest);
        FieldText(fields[0], FieldsOn(fields[1..], rest));
      }
  }

  lemma {:induction false} ItemsText(items: seq<Value>, rest: string)
    ensures TokensOn(ItemTokens(items), rest) == ItemsOn(items, rest) && AllProper(ItemTokens(items))
    decreases items, 1
  {
    if items == [] {
      FrontToken(Other(']'), [], rest);
    } else {
      FrontToken(Other(','), Tokens(items[0]) + ItemTokens(items[1..]), rest);
      TokensJoin(Tokens(items[0]), ItemTokens(items[1..]), rest);
      ItemsText(items[1..], rest);
      TokensText(items[0], ItemsOn(items[1..], rest));
    }
  }

  lemma {:induction false} FieldText(f: Field, rest: string)
    ensures TokensOn(FieldTokens(f), rest) == FieldOn(f, rest) && AllProper(FieldTokens(f))
    decreases f, 1
  {
    var key := Quoted(PiecesOf(f.key.text));
    FrontToken(key, [Other(':')] + Tokens(f.value), rest);
    FrontToken(Other(':'), Tokens(f.value), rest);
    TokensText(f.value, rest);
    QuotedIsPieces(f.key.text, [':'] + TextOn(f.value, rest));
  }

  lemma {:induction false} FieldsText(fields: seq<Field>, rest: string)
    ensures TokensOn(MoreFields(fields), ['}'] + rest) == FieldsOn(fields, rest) && AllProper(MoreFields(fields))
    decreases fields, 1
  {
    if fields != [] {
      FrontToken(Other(','), FieldTokens(fields[0]) + MoreFields(fields[1..]), ['}'] + rest);
      TokensJoin(FieldTokens(fields[0]), MoreFields(fields[1..]), ['}'] + rest);
      FieldsText(fields[1..], rest);
      FieldText(fields[0], FieldsOn(fields[1..], rest));
    }
  }

  /** A printed object comes back exactly, out of any unfenced text in which no brace precedes it. */
  lemma FindsPrintedObject(prefix: string, v: Value, suffix: string)
    requires v.Obj? && '{' !in prefix && !HasFence(prefix + TextOn(v, suffix))
    ensures TextOn(v, suffix) == TextOn(v, "") + suffix
    ensures FirstObject(prefix + TextOn(v, suffix)) == TextOn(v, "")
  {
    var inner := Inside(v.fields);
    TokensText(v, suffix);
    TokensText(v, "");
    FrontToken(Braced(inner), [], suffix);
    FrontToken(Braced(inner), [], "");
    assert Proper(Tokens(v)[0]);
    ObjectSplit(inner, suffix);
    FindsBareObject(prefix, inner, suffix);
  }

  /** So two replies in which the scanner finds the same printed object carry the same object. */
  lemma FoundObjectsAgree(p: string, v: Value, x: string, q: string, w: Value, y: string)
    requires v.Obj? && w.Obj? && Plain(v) && Plain(w) && '{' !in p && '{' !in q
    requires !HasFence(p + TextOn(v, x)) && !HasFence(q + TextOn(w, y))
    ensures FirstObject(p + TextOn(v, x)) == FirstObject(q + TextOn(w, y)) <==> v == w
  {
    FindsPrintedObject(p, v, x);
    FindsPrintedObject(q, w, y);
    if TextOn(v, "") == TextOn(w, "") { TextIsInjective(v, w, "", ""); }
  }

  /** A text without three backticks in a row is never fenced. */
  lemma UnfencedWithoutFence(text: string)
    requires forall j | 0 <= j < |text| :: !FenceAt(text, j)
    ensures !HasFence(text) && Fenced(text).None?
  {
    FencedIff(text);
  }

  // ---------- Whatever is found is a balanced object ----------

  /** What closes some open levels, each with its remaining tokens and its brace, and what follows. */
  function CloseOn(levels: seq<seq<Token>>, rest: string): string {
    if levels == [] then rest else TokensOn(levels[0], ['}'] + CloseOn(levels[1..], rest))
  }

  ghost predicate ProperLevels(levels: seq<seq<Token>>) { forall i | 0 <= i < |levels| :: AllProper(levels[i]) }

  lemma ConsToken(t: Token, level: seq<Token>, others: seq<seq<Token>>, rest: string)
    ensures CloseOn([[t] + level] + others, rest) == TokenOn(t, CloseOn([level] + others, rest))
  {
    assert ([[t] + level] + others)[1..] == others && ([level] + others)[1..] == others;
    FrontToken(t, level, ['}'] + CloseOn(others, rest));
  }

  lemma ConsLevel(levels: seq<seq<Token>>, rest: string)
    ensures CloseOn([[]] + levels, rest) == ['}'] + CloseOn(levels, rest)
  {
    assert ([[]] + levels)[1..] == levels;
  }

  /** A string the scanner gets out of is a run of proper pieces and its closing quote. */
  lemma {:induction false} StringIsPieces(text: string, depth: int) returns (ps: seq<Piece>, rest: string)
    requires Scan(text, depth, true, false).Some?
    ensures ProperPieces(ps) && |rest| < |text| && text == PiecesOn(ps, rest)
    ensures Continues(text, depth, true, rest)
    decreases |text|
  {
    var c, tail := text[0], text[1..];
    assert text == [c] + tail;
    if c == '"' {
      ps, rest := [], tail;
    } else if c == '\\' {
      var d, after := tail[0], tail[1..];
      assert tail == [d] + after && text == ['\\', d] + after;
      ps, rest := StringIsPieces(after, depth);
      FrontPiece(Pair(d), ps, rest);
      ps := [Pair(d)] + ps;
    } else {
      ps, rest := StringIsPieces(tail, depth);
      FrontPiece(Raw(c), ps, rest);
      ps := [Raw(c)] + ps;
    }
  }

  /** Where the scan of some open levels ends, all of them have been closed by balanced text. */
  lemma {:induction false} ScanIsBalanced(text: string, depth: nat) returns (levels: seq<seq<Token>>, rest: string)
    requires depth >= 1 && Scan(text, depth, false, false).Some?
    ensures |levels| == depth && ProperLevels(levels) && text == CloseOn(levels, rest)
    ensures |rest| < |text| && Scan(text, depth, false, false) == Some(|text| - |rest|)
    decreases |text|
  {
    var c, tail := text[0], text[1..];
    assert text == [c] + tail;
    if c == '"' {
      var ps, after := StringIsPieces(tail, depth);
      levels, rest := ScanIsBalanced(after, depth);
      levels := OneMore(Quoted(ps), levels, rest);
    } else if c == '{' {
      levels, rest := ScanIsBalanced(tail, depth + 1);
      levels := OneOpened(levels, rest);
    } else if c == '}' && depth == 1 {
      levels, rest := [[]], tail;
      ConsLevel([], tail);
    } else if c == '}' {
      levels, rest := ScanIsBalanced(tail, depth - 1);
      ConsLevel(levels, rest);
      levels := [[]] + levels;
    } else {
      levels, rest := ScanIsBalanced(tail, depth);
      levels := OneMore(Other(c), levels, rest);
    }
  }

  lemma OneMore(t: Token, levels: seq<seq<Token>>, rest: string) returns (more: seq<seq<Token>>)
    requires levels != [] && ProperLevels(levels) && Proper(t)
    ensures |more| == |levels| && ProperLevels(more) && CloseOn(more, rest) == TokenOn(t, CloseOn(levels, rest))
  {
    more := [[t] + levels[0]] + levels[1..];
    assert levels == [levels[0]] + levels[1..];
    ConsToken(t, levels[0], levels[1..], rest);
  }

  lemma OneOpened(levels: seq<seq<Token>>, rest: string) returns (fewer: seq<seq<Token>>)
    requires |levels| >= 2 && ProperLevels(levels)
    ensures |fewer| == |levels| - 1 && ProperLevels(fewer) && CloseOn(fewer, rest) == ['{'] + CloseOn(levels, rest)
  {
    assert forall i | 0 <= i < |levels| - 1 :: levels[1..][i] == levels[i + 1];
    fewer := OneMore(Braced(levels[0]), levels[1..], rest);
  }

  /** The text holds a balanced object that begins at its first brace: this one. */
  ghost predicate Holds(text: string, found: string) {
    exists prefix, inner, suffix :: HoldsAt(text, found, prefix, inner, suffix)
  }

  ghost predicate HoldsAt(text: string, found: string, prefix: string, inner: seq<Token>, suffix: string) {
    '{' !in prefix && AllProper(inner) && found == TokenOn(Braced(inner), "")
      && text == prefix + TokenOn(Braced(inner), suffix)
  }

  lemma FrontIsBalanced(text: string) returns (inner: seq<Token>, suffix: string)
    requires text != "" && text[0] == '{' && Scan(text, 0, false, false).Some?
    ensures AllProper(inner) && text == TokenOn(Braced(inner), suffix)
    ensures Scan(text, 0, false, false) == Some(|text| - |suffix|)
  {
    var tail := text[1..];
    assert text == ['{'] + tail;
    var levels;
    levels, suffix := ScanIsBalanced(tail, 1);
    inner := levels[0];
    assert levels[1..] == [] && CloseOn([], suffix) == suffix;
  }

  lemma FoundIsHeld(text: string)
    requires !HasFence(text) && FirstObject(text) != ""
    ensures Holds(text, FirstObject(text))
  {
    FencedIff(text);
    var start := IndexOf(text, '{');
    var inner, suffix := FrontIsBalanced(text[start..]);
    ObjectSplit(inner, suffix);
    BareIs(text, start, TokenOn(Braced(inner), ""), suffix);
    HeldFrom(text, start, inner, suffix);
  }

  lemma HeldFrom(text: string, start: nat, inner: seq<Token>, suffix: string)
    requires start == IndexOf(text, '{') && AllProper(inner) && text[start..] == TokenOn(Braced(inner), suffix)
    ensures Holds(text, TokenOn(Braced(inner), ""))
  {
    assert text == text[..start] + text[start..];
    assert HoldsAt(text, TokenOn(Braced(inner), ""), text[..start], inner, suffix);
  }

  /** What an unfenced text yields is exactly the balanced object at its first brace. */
  lemma FoundIff(text: string, found: string)
    requires !HasFence(text) && found != ""
    ensures FirstObject(text) == found <==> Holds(text, found)
  {
    if Holds(text, found) {
      var prefix, inner, suffix :| HoldsAt(text, found, prefix, inner, suffix);
      FindsBareObject(prefix, inner, suffix);
    }
    if FirstObject(text) == found { FoundIsHeld(text); }
  }

  /** And nothing is found exactly when it holds no such object. */
  lemma NothingFoundIff(text: string)
    requires !HasFence(text)
    ensures FirstObject(text) == "" <==> !exists found :: Holds(text, found)
  {
    if FirstObject(text) != "" { FoundIsHeld(text); }
    if found :| Holds(text, found) {
      var prefix, inner, suffix :| HoldsAt(text, found, prefix, inner, suffix);
      ObjectSplit(inner, suffix);
      FindsBareObject(prefix, inner, suffix);
    }
  }
}
