/** Normalizing the list of tools a client declares: aliases resolved, unusable and repeated names
    dropped, the first declaration of a name kept. */
module ToolManifest {
  import opened Common
  import opened JsonText

  /** Property access on a plain object also finds what every object inherits. */
  const INHERITED: set<string> := {
    "constructor", "toString", "toLocaleString", "valueOf", "hasOwnProperty", "isPrototypeOf", "propertyIsEnumerable",
    "__proto__", "__defineGetter__", "__defineSetter__", "__lookupGetter__", "__lookupSetter__"}

  /** A tool name is text, unless the alias table inherited something of that name. */
  datatype Name = Text(s: string) | Inherited(member: string)

  /** What String() makes of a name. */
  function Shown(name: Name): string {
    match name
    case Text(s) => s
    case Inherited(m) =>
      if m == "__proto__" then "[object Object]"
      else "function " + (if m == "constructor" then "Object" else m) + "() { [native code] }"
  }

  function Alias(raw: string): string {
    if raw in {"bash", "shell", "command", "run_bash"} then "run_command"
    else if raw == "read" then "read_file"
    else if raw == "write" then "write_file"
    else if raw == "edit" then "edit_file"
    else if raw == "list" || raw == "ls" then "list_dir"
    else if raw in {"finish", "finish_task", "done"} then "final"
    else raw
  }

  function NormalName(raw: string): Name {
    var name := Trim(raw);
    if name in INHERITED then Inherited(name) else Text(Alias(name))
  }

  datatype Tool = Tool(name: Name, description: string, parameters: Value)

  /** A declared entry: nothing usable, a declaration, or one wrapped in a "function" field. */
  datatype Entry = Nothing | Declared(tool: Tool) | Wrapped(tool: Tool)

  const NO_PARAMETERS := Obj([Field(Key("type"), Str("object")), Field(Key("properties"), Obj([]))])

  /** The tool an entry declares, under its normal name. */
  function Image(e: Entry): Tool {
    if e.Nothing? then Tool(Text(""), "", NO_PARAMETERS)
    else
      Tool(NormalName(Shown(e.tool.name)), e.tool.description,
           if e.tool.parameters.Arr? || e.tool.parameters.Obj? then e.tool.parameters else NO_PARAMETERS)
  }

  predicate Usable(name: Name) { name != Text("") && name != Text("final") }

  function NamesOf(tools: seq<Tool>): set<Name> { set t | t in tools :: t.name }

  function Images(entries: seq<Entry>): seq<Tool> { seq(|entries|, i requires 0 <= i < |entries| => Image(entries[i])) }

  /** The usable tools, each name once. */
  function Dedup(tools: seq<Tool>): seq<Tool> {
    if tools == [] then []
    else
      var before, last := Dedup(tools[..|tools| - 1]), tools[|tools| - 1];
      if Usable(last.name) && last.name !in NamesOf(before) then before + [last] else before
  }

  function Normalize(entries: seq<Entry>): seq<Tool> { Dedup(Images(entries)) }

  lemma DedupSnoc(front: seq<Tool>, last: Tool)
    ensures Dedup(front + [last]) ==
      if Usable(last.name) && last.name !in NamesOf(Dedup(front)) then Dedup(front) + [last] else Dedup(front)
  {
    assert (front + [last])[..|front|] == front;
  }

  lemma NextImage(entries: seq<Entry>, i: nat)
    requires i < |entries|
    ensures var before, next := Dedup(Images(entries)[..i]), Image(entries[i]);
      Dedup(Images(entries)[..i + 1]) ==
        if Usable(next.name) && next.name !in NamesOf(before) then before + [next] else before
  {
    var tools := Images(entries);
    assert tools[..i + 1] == tools[..i] + [tools[i]];
    DedupSnoc(tools[..i], tools[i]);
  }

  method NormalizeToolManifest(entries: seq<Entry>) returns (out: seq<Tool>)
    ensures out == Normalize(entries)
  {
    out := [];
    var seen: set<Name> := {};
    for i := 0 to |entries|
      invariant out == Dedup(Images(entries)[..i]) && seen == NamesOf(out)
    {
      var tool := Image(entries[i]);
      NextImage(entries, i);
      if !Usable(tool.name) || tool.name in seen { continue; }
      NamesSnoc(out, tool);
      seen := seen + {tool.name};
      out := out + [tool];
    }
    assert Images(entries)[..|entries|] == Images(entries);
  }

  // ---------- What is kept ----------

  ghost predicate FirstAt(tools: seq<Tool>, i: nat, t: Tool)
    requires i < |tools|
  {
    tools[i] == t && Usable(t.name) && t.name !in NamesOf(tools[..i])
  }

  lemma NamesSnoc(tools: seq<Tool>, t: Tool)
    ensures NamesOf(tools + [t]) == NamesOf(tools) + {t.name}
  {
  }

  lemma {:induction false} NamesKept(tools: seq<Tool>, name: Name)
    ensures name in NamesOf(Dedup(tools)) <==> name in NamesOf(tools) && Usable(name)
  {
    if tools != [] {
      var front, last := tools[..|tools| - 1], tools[|tools| - 1];
      NamesKept(front, name);
      NamesKept(front, last.name);
      assert tools == front + [last];
      NamesSnoc(front, last);
      NamesSnoc(Dedup(front), last);
    }
  }

  lemma {:induction false} DedupKeepsFirst(tools: seq<Tool>, t: Tool)
    ensures t in Dedup(tools) <==> exists i | 0 <= i < |tools| :: FirstAt(tools, i, t)
  {
    if tools != [] {
      var n := |tools| - 1;
      var front := tools[..n];
      DedupKeepsFirst(front, t);
      NamesKept(front, t.name);
      forall i | 0 <= i < n ensures FirstAt(front, i, t) <==> FirstAt(tools, i, t) {
        assert front[..i] == tools[..i] && front[i] == tools[i];
      }
      if t in Dedup(front) {
        var i :| 0 <= i < n && FirstAt(front, i, t);
        assert FirstAt(tools, i, t);
      } else if t in Dedup(tools) {
        assert FirstAt(tools, n, t);
      }
    }
  }

  /** Kept are exactly the usable tools whose name no earlier entry has. */
  lemma KeepsFirstDeclarations(entries: seq<Entry>, t: Tool)
    ensures t in Normalize(entries) <==> exists i | 0 <= i < |entries| :: FirstAt(Images(entries), i, t)
  {
    DedupKeepsFirst(Images(entries), t);
  }

  ghost predicate DistinctNames(tools: seq<Tool>) {
    forall i, j | 0 <= i < j < |tools| :: tools[i].name != tools[j].name
  }

  lemma {:induction false} DedupIsDistinct(tools: seq<Tool>)
    ensures DistinctNames(Dedup(tools)) && forall t | t in Dedup(tools) :: Usable(t.name) && t in tools
  {
    if tools != [] { DedupIsDistinct(tools[..|tools| - 1]); }
  }

  lemma {:induction false} DistinctStays(tools: seq<Tool>)
    requires DistinctNames(tools) && forall t | t in tools :: Usable(t.name)
    ensures Dedup(tools) == tools
  {
    if tools != [] {
      var front, last := tools[..|tools| - 1], tools[|tools| - 1];
      assert tools == front + [last];
      DistinctStays(front);
    }
  }

  // ---------- Normalizing again ----------

  /** The normalized list, declared again. */
  function Redeclared(tools: seq<Tool>): seq<Entry> { seq(|tools|, i requires 0 <= i < |tools| => Declared(tools[i])) }

  ghost predicate Stable(t: Tool) { Image(Declared(t)) == t }

  lemma {:induction false} TrimLeftTwice(s: string)
    ensures TrimLeft(TrimLeft(s)) == TrimLeft(s) && (TrimLeft(s) != "" ==> !IsSpace(TrimLeft(s)[0]))
  {
    if s != "" && IsSpace(s[0]) { TrimLeftTwice(s[1..]); }
  }

  lemma {:induction false} TrimRightKeepsFront(s: string)
    ensures TrimRight(TrimRight(s)) == TrimRight(s) && TrimRight(s) <= s
  {
    if s != "" && IsSpace(s[|s| - 1]) { TrimRightKeepsFront(s[..|s| - 1]); }
  }

  lemma TrimTwice(s: string)
    ensures Trim(Trim(s)) == Trim(s)
  {
    TrimLeftTwice(s);
    TrimRightKeepsFront(TrimLeft(s));
  }

  predicate IsTarget(s: string) { s in {"run_command", "read_file", "write_file", "edit_file", "list_dir", "final"} }

  lemma InheritedStarts(s: string)
    ensures s in INHERITED ==> s != "" && s[0] in {'c', 't', 'v', 'h', 'i', 'p', '_'}
  {
  }

  lemma TargetStarts(s: string)
    ensures IsTarget(s) ==> s != "" && s[0] in {'r', 'w', 'e', 'l', 'f'} && !IsSpace(s[|s| - 1])
  {
  }

  lemma AliasEnds(s: string)
    ensures IsTarget(Alias(s)) || Alias(s) == s
    ensures IsTarget(s) ==> Alias(s) == s
  {
  }

  lemma AliasIsStable(s: string)
    requires Trim(s) !in INHERITED
    ensures Trim(Alias(Trim(s))) == Alias(Trim(s)) && Alias(Alias(Trim(s))) == Alias(Trim(s))
      && Alias(Trim(s)) !in INHERITED
  {
    var raw := Trim(s);
    AliasEnds(raw);
    if Alias(raw) == raw {
      TrimTwice(s);
    } else {
      AliasEnds(Alias(raw));
      TargetStarts(Alias(raw));
      InheritedStarts(Alias(raw));
      TrimNone(Alias(raw));
    }
  }

  lemma TrimNone(s: string)
    requires s != "" && !IsSpace(s[0]) && !IsSpace(s[|s| - 1])
    ensures Trim(s) == s
  {
  }

  lemma ShownMember(member: string)
    requires member in INHERITED
    ensures NormalName(Shown(Inherited(member))).Text?
  {
    var s := Shown(Inherited(member));
    TrimNone(s);
    assert |s| > 0 && (s[0] == 'f' || s[0] == '[');
  }

  /** A tool survives a second normalization unchanged exactly when its name is text. */
  lemma StableIff(e: Entry)
    ensures Stable(Image(e)) <==> Image(e).name.Text?
  {
    if !e.Nothing? {
      var raw := Shown(e.tool.name);
      if Trim(raw) in INHERITED { ShownMember(Trim(raw)); } else { AliasIsStable(raw); }
    }
  }

  predicate Inherits(e: Entry) { !e.Nothing? && Trim(Shown(e.tool.name)) in INHERITED }

  lemma InheritsIff(e: Entry)
    ensures Image(e).name.Inherited? <==> Inherits(e)
    ensures Inherits(e) ==> Usable(Image(e).name) && Image(e).name.member in INHERITED
  {
  }

  /** Normalizing a normalized list changes nothing exactly when no declared name, trimmed, is that of
      a member every object inherits. */
  lemma NormalizeTwiceIff(entries: seq<Entry>)
    ensures Normalize(Redeclared(Normalize(entries))) == Normalize(entries) <==> !exists e | e in entries :: Inherits(e)
  {
    var tools := Normalize(entries);
    DedupIsDistinct(Images(entries));
    DistinctStays(tools);
    if e :| e in entries && Inherits(e) {
      InheritsIff(e);
      InheritedIsLost(entries, e);
    } else {
      forall i | 0 <= i < |tools| ensures Images(Redeclared(tools))[i] == tools[i] {
        ImagesAre(entries, tools[i]);
        var e :| e in entries && Image(e) == tools[i];
        StableIff(e);
        InheritsIff(e);
      }
      assert Images(Redeclared(tools)) == tools;
    }
  }

  lemma ImagesAre(entries: seq<Entry>, t: Tool)
    ensures t in Images(entries) <==> exists e | e in entries :: Image(e) == t
  {
    forall i | 0 <= i < |entries| ensures Image(entries[i]) in Images(entries) {
      assert Images(entries)[i] == Image(entries[i]);
    }
    if t in Images(entries) {
      var i :| 0 <= i < |entries| && Images(entries)[i] == t;
      assert entries[i] in entries;
    }
  }

  /** The inherited name is kept the first time and is not even declared the second time. */
  lemma InheritedIsLost(entries: seq<Entry>, e: Entry)
    requires e in entries && Inherits(e)
    ensures Normalize(Redeclared(Normalize(entries))) != Normalize(entries)
  {
    var tools, name := Normalize(entries), Image(e).name;
    InheritsIff(e);
    ImagesAre(entries, Image(e));
    NamesKept(Images(entries), name);
    NamesKept(Images(Redeclared(tools)), name);
    if t :| t in Images(Redeclared(tools)) && t.name == name { SecondHasTexts(entries, t); }
  }

  lemma SecondHasTexts(entries: seq<Entry>, t: Tool)
    requires t in Images(Redeclared(Normalize(entries)))
    ensures t.name.Text?
  {
    var tools := Normalize(entries);
    var i :| 0 <= i < |tools| && Images(Redeclared(tools))[i] == t;
    DedupIsDistinct(Images(entries));
    ImagesAre(entries, tools[i]);
    var e :| e in entries && Image(e) == tools[i];
    SecondNameIsText(e);
  }

  lemma SecondNameIsText(e: Entry)
    ensures Image(Declared(Image(e))).name.Text?
  {
    InheritsIff(e);
    if Inherits(e) { ShownMember(Image(e).name.member); } else { StableIff(e); }
  }

  // ---------- What a kept tool is ----------

  /** The alias table; every other name stands for itself. */
  lemma AliasTable(name: string)
    ensures name in {"bash", "shell", "command", "run_bash"} ==> Alias(name) == "run_command"
    ensures name == "read" ==> Alias(name) == "read_file"
    ensures name == "write" ==> Alias(name) == "write_file"
    ensures name == "edit" ==> Alias(name) == "edit_file"
    ensures name in {"list", "ls"} ==> Alias(name) == "list_dir"
    ensures name in {"finish", "finish_task", "done"} ==> Alias(name) == "final"
    ensures !IsAlias(name) ==> Alias(name) == name
  {
  }

  predicate IsAlias(name: string) {
    name in {"bash", "shell", "command", "run_bash", "read", "write", "edit", "list", "ls", "finish", "finish_task",
      "done"}
  }

  /** A declaration is kept under the alias of its trimmed name, with its own description, and with its own
      parameters if they are an object or an array; without any it takes none. */
  lemma DeclaredAs(e: Entry, name: string)
    requires !e.Nothing? && e.tool.name == Text(name) && Trim(name) !in INHERITED
    ensures Image(e).name == Text(Alias(Trim(name))) && Image(e).description == e.tool.description
    ensures e.tool.parameters.Obj? || e.tool.parameters.Arr? ==> Image(e).parameters == e.tool.parameters
    ensures !e.tool.parameters.Obj? && !e.tool.parameters.Arr? ==>
      Image(e).parameters == Obj([Field(Key("type"), Str("object")), Field(Key("properties"), Obj([]))])
  {
  }

  /** Neither "final" nor an empty name is kept, under whatever alias. */
  lemma UsableIff(name: string)
    requires Trim(name) !in INHERITED
    ensures Usable(NormalName(name)) <==> Trim(name) !in {"", "final", "finish", "finish_task", "done"}
  {
    AliasTable(Trim(name));
  }

  /** The positions that a deduplicated list is taken from. */
  function Positions(tools: seq<Tool>): seq<nat> {
    if tools == [] then []
    else
      var n := |tools| - 1;
      Positions(tools[..n]) + if |Dedup(tools)| > |Dedup(tools[..n])| then [n] else []
  }

  /** Kept tools stay in the order they were declared in. */
  lemma {:induction false} KeepsOrder(tools: seq<Tool>)
    ensures |Positions(tools)| == |Dedup(tools)|
    ensures forall k | 0 <= k < |Dedup(tools)| ::
      Positions(tools)[k] < |tools| && Dedup(tools)[k] == tools[Positions(tools)[k]]
    ensures forall i, j | 0 <= i < j < |Dedup(tools)| :: Positions(tools)[i] < Positions(tools)[j]
  {
    if tools != [] {
      var n := |tools| - 1;
      KeepsOrder(tools[..n]);
      assert forall k | 0 <= k < n :: tools[..n][k] == tools[k];
    }
  }

  /** What an inherited member becomes as a text. */
  lemma InheritedShows(member: string)
    ensures Shown(Inherited("__proto__")) == "[object Object]"
    ensures Shown(Inherited("constructor")) == "function Object() { [native code] }"
    ensures member != "__proto__" && member != "constructor" ==>
      Shown(Inherited(member)) == "function " + member + "() { [native code] }"
  {
    assert "function " + "Object" + "() { [native code] }" == "function Object() { [native code] }";
  }
}
