/** Measuring a base64 text without decoding it, against the encoding of RFC 4648 section 4. */
module Base64 {
  import opened Common

  newtype byte = n: int | 0 <= n < 256

  function Symbol(n: int): char
    requires 0 <= n < 64
  {
    if n < 26 then ('A' as int + n) as char
    else if n < 52 then ('a' as int + (n - 26)) as char
    else if n < 62 then ('0' as int + (n - 52)) as char
    else if n == 62 then '+' else '/'
  }

  /** One to three bytes as four characters, '=' where no bits are left. */
  function Group(g: seq<byte>): string {
    if |g| == 0 || |g| > 3 then "" else
    var a := g[0] as int;
    var b := if |g| > 1 then g[1] as int else 0;
    var c := if |g| > 2 then g[2] as int else 0;
    [Symbol(a / 4), Symbol(a % 4 * 16 + b / 16),
     if |g| > 1 then Symbol(b % 16 * 4 + c / 64) else '=',
     if |g| > 2 then Symbol(c % 64) else '=']
  }

  function InGroups(group: seq<byte> -> string, bytes: seq<byte>): string {
    if |bytes| == 0 then "" else if |bytes| <= 3 then group(bytes) else group(bytes[..3]) + InGroups(group, bytes[3..])
  }

  function Encode(bytes: seq<byte>): string { InGroups(Group, bytes) }

  function WithoutSpace(s: string): string {
    if s == "" then "" else (if IsSpace(s[0]) then "" else [s[0]]) + WithoutSpace(s[1..])
  }

  predicate EndsWith(s: string, tail: string) { |tail| <= |s| && s[|s| - |tail|..] == tail }

  function DecodedBytes(value: string): nat {
    var text := WithoutSpace(value);
    if text == "" then 0
    else
      var padding := if EndsWith(text, "==") then 2 else if EndsWith(text, "=") then 1 else 0;
      var n := |text| * 3 / 4 - padding;
      if n < 0 then 0 else n
  }

  /** Groups have four characters; the third and fourth are padding for the missing bytes. */
  ghost predicate Pads(group: seq<byte> -> string) {
    forall g | 1 <= |g| <= 3 ::
      |group(g)| == 4 && group(g)[1] != '=' && (group(g)[2] == '=' <==> |g| == 1) && (group(g)[3] == '=' <==> |g| <= 2)
  }

  lemma GroupPads()
    ensures Pads(Group)
  {
  }

  /** How many padding signs end the encoding of n bytes. */
  function Padding(n: nat): nat { if n % 3 == 1 then 2 else if n % 3 == 2 then 1 else 0 }

  /** How an encoding ends: its length, and its padding. */
  ghost predicate Ends(s: string, n: nat) {
    3 * |s| == 4 * (n + Padding(n)) && (n > 0 ==> |s| >= 4 && EndsPadded(s, Padding(n)))
  }

  ghost predicate EndsPadded(s: string, padding: nat)
    requires |s| >= 4
  {
    s[|s| - 3] != '=' && (s[|s| - 2] == '=' <==> padding == 2) && (s[|s| - 1] == '=' <==> padding >= 1)
  }

  lemma ThreeMore(n: nat)
    requires n >= 3
    ensures Padding(n) == Padding(n - 3)
  {
  }

  /** A full group in front changes nothing at the end. */
  lemma PrefixKeepsEnd(head: string, tail: string, n: nat)
    requires n > 3 && |head| == 4 && Ends(tail, n - 3)
    ensures Ends(head + tail, n)
  {
    var s := head + tail;
    assert s[|s| - 1] == tail[|tail| - 1] && s[|s| - 2] == tail[|tail| - 2] && s[|s| - 3] == tail[|tail| - 3];
    ThreeMore(n);
  }

  lemma {:induction false} EncodingEnds(group: seq<byte> -> string, bytes: seq<byte>)
    requires Pads(group)
    ensures Ends(InGroups(group, bytes), |bytes|)
  {
    if |bytes| > 3 {
      EncodingEnds(group, bytes[3..]);
      PrefixKeepsEnd(group(bytes[..3]), InGroups(group, bytes[3..]), |bytes|);
    }
  }

  lemma PaddingIs(s: string)
    requires |s| >= 2
    ensures EndsWith(s, "=") <==> s[|s| - 1] == '='
    ensures EndsWith(s, "==") <==> s[|s| - 1] == '=' && s[|s| - 2] == '='
  {
    assert s[|s| - 1..] == [s[|s| - 1]];
    assert s[|s| - 2..] == [s[|s| - 2], s[|s| - 1]];
  }

  lemma MeasurePadded(value: string, padding: nat)
    requires var text := WithoutSpace(value);
      && |text| >= 2
      && (padding == 2 <==> text[|text| - 1] == '=' && text[|text| - 2] == '=')
      && (padding == 0 <==> text[|text| - 1] != '=') && padding <= 2
    ensures |WithoutSpace(value)| * 3 / 4 >= padding ==> DecodedBytes(value) == |WithoutSpace(value)| * 3 / 4 - padding
  {
    PaddingIs(WithoutSpace(value));
  }

  lemma MeasureEnds(value: string, n: nat)
    requires Ends(WithoutSpace(value), n)
    ensures DecodedBytes(value) == n
  {
    if n > 0 {
      MeasurePadded(value, Padding(n));
    }
  }

  lemma EncodeEnds(bytes: seq<byte>)
    ensures Ends(Encode(bytes), |bytes|)
  {
    GroupPads();
    EncodingEnds(Group, bytes);
  }

  /** For every byte string, and every way of spreading white space over its encoding, the measure is
      the number of bytes. */
  lemma DecodedBytesIsLength(value: string, bytes: seq<byte>)
    requires WithoutSpace(value) == Encode(bytes)
    ensures DecodedBytes(value) == |bytes|
  {
    EncodeEnds(bytes);
    MeasureEnds(value, |bytes|);
  }

  lemma EmptyMeasuresNothing()
    ensures DecodedBytes("") == 0
  {
  }

  predicate Spaceless(s: string) { forall i | 0 <= i < |s| :: !IsSpace(s[i]) }

  lemma {:induction false} SpacelessStays(s: string)
    requires Spaceless(s)
    ensures WithoutSpace(s) == s
  {
    if s != "" {
      SpacelessStays(s[1..]);
      assert s == [s[0]] + s[1..];
    }
  }

  lemma GroupIsSpaceless(g: seq<byte>)
    ensures Spaceless(Group(g))
  {
  }

  lemma {:induction false} GroupsAreSpaceless(bytes: seq<byte>)
    ensures Spaceless(InGroups(Group, bytes))
  {
    if 0 < |bytes| <= 3 {
      GroupIsSpaceless(bytes);
    } else if |bytes| > 3 {
      GroupIsSpaceless(bytes[..3]);
      GroupsAreSpaceless(bytes[3..]);
    }
  }

  /** An encoding holds no white space, so it is its own text without any. */
  lemma EncodeHasNoSpace(bytes: seq<byte>)
    ensures WithoutSpace(Encode(bytes)) == Encode(bytes)
  {
    GroupsAreSpaceless(bytes);
    SpacelessStays(Encode(bytes));
  }

  // ---------- Encodings without padding ----------

  function WithoutPadding(s: string): string {
    if s != "" && s[|s| - 1] == '=' then WithoutPadding(s[..|s| - 1]) else s
  }

  lemma Unpadded(s: string, n: nat)
    requires Ends(s, n) && n > 0
    ensures WithoutPadding(s) == s[..|s| - Padding(n)] && s[|s| - Padding(n) - 1] != '='
  {
    StripOne(s);
    if Padding(n) == 2 {
      StripOne(s[..|s| - 1]);
      assert s[..|s| - 1][..|s| - 2] == s[..|s| - 2];
      StripOne(s[..|s| - 2]);
    } else if Padding(n) == 1 {
      StripOne(s[..|s| - 1]);
    } else {
      assert s[..|s|] == s;
    }
  }

  lemma StripOne(s: string)
    requires s != ""
    ensures WithoutPadding(s) == if s[|s| - 1] == '=' then WithoutPadding(s[..|s| - 1]) else s
  {
  }

  lemma UnpaddedEnds(s: string, n: nat)
    requires Ends(s, n) && n > 0
    ensures |WithoutPadding(s)| == |s| - Padding(n) >= 2 && WithoutPadding(s)[|WithoutPadding(s)| - 1] != '='
  {
    Unpadded(s, n);
  }

  lemma MeasurePlain(value: string)
    requires |WithoutSpace(value)| >= 2 && WithoutSpace(value)[|WithoutSpace(value)| - 1] != '='
    ensures DecodedBytes(value) == |WithoutSpace(value)| * 3 / 4
  {
    PaddingIs(WithoutSpace(value));
  }

  lemma MeasureUnpadded(value: string, s: string, n: nat)
    requires Ends(s, n) && WithoutSpace(value) == WithoutPadding(s)
    ensures DecodedBytes(value) == n
  {
    if n > 0 {
      UnpaddedEnds(s, n);
      MeasurePlain(value);
    } else {
      assert s == "";
    }
  }

  /** The measure is the number of bytes for encodings without padding as well. */
  lemma UnpaddedBytesIsLength(value: string, bytes: seq<byte>)
    requires WithoutSpace(value) == WithoutPadding(Encode(bytes))
    ensures DecodedBytes(value) == |bytes|
  {
    EncodeEnds(bytes);
    MeasureUnpadded(value, Encode(bytes), |bytes|);
  }

  // ---------- The encoding is that of the standard ----------

  /** What a symbol stands for; the padding sign stands for no bits. */
  function Bits(c: char): int {
    if 'A' <= c <= 'Z' then c as int - 'A' as int
    else if 'a' <= c <= 'z' then c as int - 'a' as int + 26
    else if '0' <= c <= '9' then c as int - '0' as int + 52
    else if c == '+' then 62 else if c == '/' then 63 else 0
  }

  lemma BitsOfSymbol(n: int)
    requires 0 <= n < 64
    ensures Bits(Symbol(n)) == n
  {
  }

  function ByteAt(g: seq<byte>, i: nat): int { if i < |g| then g[i] as int else 0 }

  /** The four symbols of a group spell the 24 bits of its three bytes, missing ones counting as zero. */
  lemma GroupSpells(g: seq<byte>)
    requires 1 <= |g| <= 3
    ensures |Group(g)| == 4
    ensures Bits(Group(g)[0]) * 262144 + Bits(Group(g)[1]) * 4096 + Bits(Group(g)[2]) * 64 + Bits(Group(g)[3])
      == ByteAt(g, 0) * 65536 + ByteAt(g, 1) * 256 + ByteAt(g, 2)
  {
    var a, b, c := ByteAt(g, 0), ByteAt(g, 1), ByteAt(g, 2);
    GroupBits(g, a, b, c);
    Regroup(a / 4, a % 4, b / 16, b % 16, c / 64, c % 64);
  }

  lemma GroupBits(g: seq<byte>, a: int, b: int, c: int)
    requires 1 <= |g| <= 3 && a == ByteAt(g, 0) && b == ByteAt(g, 1) && c == ByteAt(g, 2)
    ensures |Group(g)| == 4
    ensures Bits(Group(g)[0]) == a / 4 && Bits(Group(g)[1]) == a % 4 * 16 + b / 16
    ensures Bits(Group(g)[2]) == b % 16 * 4 + c / 64 && Bits(Group(g)[3]) == c % 64
  {
    BitsOfSymbol(a / 4);
    BitsOfSymbol(a % 4 * 16 + b / 16);
    BitsOfSymbol(b % 16 * 4 + c / 64);
    BitsOfSymbol(c % 64);
  }

  lemma Regroup(a1: int, a0: int, b1: int, b0: int, c1: int, c0: int)
    ensures a1 * 262144 + (a0 * 16 + b1) * 4096 + (b0 * 4 + c1) * 64 + c0
      == (a1 * 4 + a0) * 65536 + (b1 * 16 + b0) * 256 + (c1 * 64 + c0)
  {
  }
}
