/** Tool calls and the pairwise dependency heuristic of the parallel executor. */
module ToolCalls {

  /** JSON arguments of a tool call. */
  datatype Json =
    | Null
    | Boolean(b: bool)
    | Number(r: real)
    | String(s: string)
    | Array(items: seq<Json>)
    | Object(fields: map<string, Json>)

  datatype ToolCall = ToolCall(id: string, name: string, arguments: Json)

  const PATH_KEYS: seq<string> :=
    ["path", "file", "file_path", "directory", "dir", "target", "destination", "src", "dest"]

  function StringsUnder(fields: map<string, Json>, keys: seq<string>): seq<string> {
    if keys == [] then []
    else
      var rest := StringsUnder(fields, keys[1..]);
      if keys[0] in fields && fields[keys[0]].String? then [fields[keys[0]].s] + rest else rest
  }

  function ExtractFilePaths(arguments: Json): seq<string> {
    if arguments.Object? then StringsUnder(arguments.fields, PATH_KEYS) else []
  }

  /** Only `file_read` is known to write nothing; every other tool may write all its paths. */
  function ExtractWritePaths(name: string, arguments: Json): seq<string> {
    if name == "file_read" then [] else ExtractFilePaths(arguments)
  }

  predicate IsReadOnlyTool(name: string) {
    name in ["file_read", "file_list", "file_search", "browser"]
  }

  /** The paths a call mentions, and those among them it may write. */
  function Paths(c: ToolCall): set<string> {
    set p | p in ExtractFilePaths(c.arguments)
  }

  function WritePaths(c: ToolCall): set<string> {
    set p | p in ExtractWritePaths(c.name, c.arguments)
  }

  predicate AreDependent(a: ToolCall, b: ToolCall) {
    if a.name == "shell" && b.name == "shell" then true
    else if Paths(a) == {} && Paths(b) == {} then a.name == b.name && !IsReadOnlyTool(a.name)
    else
      var overlapping := Paths(a) * Paths(b);
      overlapping != {} && exists p | p in overlapping :: p in WritePaths(a) || p in WritePaths(b)
  }

  // ---------------------------------------------------------------------
  // What the heuristic looks at
  // ---------------------------------------------------------------------

  /** A field of the arguments under one of the nine keys is the string `p`. */
  ghost predicate Names(c: ToolCall, p: string) {
    c.arguments.Object? &&
    exists key :: key in c.arguments.fields && c.arguments.fields[key] == String(p) &&
                  key in {"path", "file", "file_path", "directory", "dir", "target", "destination", "src", "dest"}
  }

  ghost predicate SharePath(a: ToolCall, b: ToolCall) {
    exists p :: Names(a, p) && Names(b, p)
  }

  lemma {:induction false} StringsUnderMeaning(fields: map<string, Json>, keys: seq<string>, p: string)
    ensures p in StringsUnder(fields, keys) <==> exists key :: key in keys && key in fields && fields[key] == String(p)
  {
    if keys != [] {
      StringsUnderMeaning(fields, keys[1..], p);
      assert keys == [keys[0]] + keys[1..];
    }
  }

  /** The paths of a call are the strings under those keys, whatever the tool. */
  lemma PathsMeaning(c: ToolCall, p: string)
    ensures p in Paths(c) <==> Names(c, p)
  {
    if c.arguments.Object? {
      StringsUnderMeaning(c.arguments.fields, PATH_KEYS, p);
    }
  }

  /** It may write them all, unless it is `file_read`. */
  lemma WritePathsMeaning(c: ToolCall, p: string)
    ensures p in WritePaths(c) <==> Names(c, p) && c.name != "file_read"
  {
    PathsMeaning(c, p);
  }

  lemma SharePathMeaning(a: ToolCall, b: ToolCall)
    ensures SharePath(a, b) <==> Paths(a) * Paths(b) != {}
  {
    forall p ensures (p in Paths(a) <==> Names(a, p)) && (p in Paths(b) <==> Names(b, p)) {
      PathsMeaning(a, p);
      PathsMeaning(b, p);
    }
    if p :| Names(a, p) && Names(b, p) {
      assert p in Paths(a) * Paths(b);
    }
    if p :| p in Paths(a) * Paths(b) {
      assert Names(a, p) && Names(b, p);
    }
  }

  lemma PathlessMeaning(c: ToolCall)
    ensures Paths(c) == {} <==> forall p :: !Names(c, p)
  {
    forall p ensures p in Paths(c) <==> Names(c, p) {
      PathsMeaning(c, p);
    }
  }

  /** The heuristic in terms of names and arguments alone: two calls are dependent exactly if both are `shell`, or they
      share a path and not both are `file_read`, or neither names a path and they are the same tool, other than the four
      that only read. */
  lemma DependentIff(a: ToolCall, b: ToolCall)
    ensures AreDependent(a, b) <==>
              || a.name == b.name == "shell"
              || (SharePath(a, b) && !(a.name == b.name == "file_read"))
              || ((forall p :: !Names(a, p) && !Names(b, p)) && a.name == b.name
                  && a.name !in {"file_read", "file_list", "file_search", "browser"})
  {
    SharePathMeaning(a, b);
    PathlessMeaning(a);
    PathlessMeaning(b);
    if p :| p in Paths(a) * Paths(b) {
      PathsMeaning(a, p);
      PathsMeaning(b, p);
      WritePathsMeaning(a, p);
      WritePathsMeaning(b, p);
    }
  }

  /** Two writers of one path, and two readers of it. */
  lemma WritersAndReaders(id: string, p: string)
    ensures var arguments := Object(map["path" := String(p)]);
            && AreDependent(ToolCall(id, "file_write", arguments), ToolCall(id, "file_write", arguments))
            && AreDependent(ToolCall(id, "file_write", arguments), ToolCall(id, "file_read", arguments))
            && !AreDependent(ToolCall(id, "file_read", arguments), ToolCall(id, "file_read", arguments))
  {
    var arguments := Object(map["path" := String(p)]);
    var write, read := ToolCall(id, "file_write", arguments), ToolCall(id, "file_read", arguments);
    assert "path" in arguments.fields;
    assert Names(write, p) && Names(read, p);
    DependentIff(write, write);
    DependentIff(write, read);
    DependentIff(read, read);
  }

  /** The heuristic does not depend on the order of its two calls. */
  lemma DependenceIsSymmetric(a: ToolCall, b: ToolCall)
    ensures AreDependent(a, b) == AreDependent(b, a)
  {
    assert Paths(a) * Paths(b) == Paths(b) * Paths(a);
  }

  /** Two paths-respecting calls conflict when one may write what the other mentions. */
  predicate PathsConflict(a: ToolCall, b: ToolCall) {
    WritePaths(a) * Paths(b) != {} || WritePaths(b) * Paths(a) != {}
  }

  /** A path conflict is always reported; besides it only two name-based rules report anything. */
  lemma DependenceMeaning(a: ToolCall, b: ToolCall)
    ensures AreDependent(a, b) <==>
              || PathsConflict(a, b)
              || (a.name == b.name == "shell")
              || (Paths(a) == Paths(b) == {} && a.name == b.name && !IsReadOnlyTool(a.name))
  {
    var overlapping := Paths(a) * Paths(b);
    assert WritePaths(a) <= Paths(a) && WritePaths(b) <= Paths(b);
    if p :| p in WritePaths(a) * Paths(b) {
      assert p in overlapping;
    }
    if p :| p in WritePaths(b) * Paths(a) {
      assert p in overlapping;
    }
    if p :| p in overlapping && (p in WritePaths(a) || p in WritePaths(b)) {
      assert p in WritePaths(a) * Paths(b) || p in WritePaths(b) * Paths(a);
    }
  }
}
