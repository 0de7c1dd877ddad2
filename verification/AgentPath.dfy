/**
 Agent paths (agent/path.go): validation, joining, reference resolution and prefix
 matching, all on strings, proved against the tree they denote. A valid path is
 `/morpheus` or `/root` followed by agent names; the latter is written here as the
 rendering of its list of names.
 */
module AgentPath {
  import opened Common

  const ROOT: string := "/root"
  const MORPHEUS: string := "/morpheus"

  datatype PathError = NotAbsolute | TrailingSlash | EmptyName | ReservedName | ContainsSlash | BadCharacter | EmptyReference

  // Splitting at slashes

  function Split(s: string): (segments: seq<string>)
    ensures segments != []
  {
    if s == [] then [""]
    else if s[0] == '/' then [""] + Split(s[1..])
    else var rest := Split(s[1..]); [[s[0]] + rest[0]] + rest[1..]
  }

  function Glue(segments: seq<string>): string
    requires segments != []
  {
    if |segments| == 1 then segments[0] else segments[0] + "/" + Glue(segments[1..])
  }

  ghost predicate SlashFree(segments: seq<string>) {
    forall i :: 0 <= i < |segments| ==> '/' !in segments[i]
  }

  lemma {:induction false} GlueSplit(s: string)
    ensures Glue(Split(s)) == s && SlashFree(Split(s))
  {
    if s != [] {
      GlueSplit(s[1..]);
      var rest := Split(s[1..]);
      assert Split(s)[1..] == if s[0] == '/' then rest else rest[1..];
      assert s == [s[0]] + s[1..];
    }
  }

  lemma {:induction false} SplitAtSlash(a: string, b: string)
    requires '/' !in a
    ensures Split(a) == [a]
    ensures Split(a + "/" + b) == [a] + Split(b)
  {
    if a == [] {
      assert (a + "/" + b)[1..] == b;
    } else {
      SplitAtSlash(a[1..], b);
      assert (a + "/" + b)[1..] == a[1..] + "/" + b;
      assert a == [a[0]] + a[1..];
    }
  }

  lemma {:induction false} SplitGlue(segments: seq<string>)
    requires segments != [] && SlashFree(segments)
    ensures Split(Glue(segments)) == segments
  {
    SplitAtSlash(segments[0], if |segments| == 1 then "" else Glue(segments[1..]));
    if |segments| > 1 {
      SplitGlue(segments[1..]);
    }
  }

  lemma {:induction false} GlueAppend(a: seq<string>, b: seq<string>)
    requires a != [] && b != []
    ensures Glue(a + b) == Glue(a) + "/" + Glue(b)
  {
    assert (a + b)[1..] == a[1..] + b;
    if |a| > 1 {
      GlueAppend(a[1..], b);
    }
  }

  lemma {:induction false} SplitAppend(a: seq<string>, t: string)
    requires a != [] && SlashFree(a)
    ensures Split(Glue(a) + "/" + t) == a + Split(t)
  {
    hide Split;
    if |a| == 1 {
      SplitAtSlash(a[0], t);
    } else {
      var rest := Glue(a[1..]) + "/" + t;
      SplitAppend(a[1..], t);
      SplitAtSlash(a[0], rest);
      Regroup(a[0], Glue(a[1..]), t);
      assert a == [a[0]] + a[1..];
    }
  }

  lemma Regroup(x: string, y: string, t: string)
    ensures x + "/" + y + "/" + t == x + "/" + (y + "/" + t)
  {
  }

  // The validators

  predicate NameChar(c: char) {
    'a' <= c <= 'z' || '0' <= c <= '9' || c == '_'
  }

  function ValidateAgentName(name: string): Option<PathError> {
    if name == "" then Some(EmptyName)
    else if name == "root" then Some(ReservedName)
    else if name == "." || name == ".." then Some(ReservedName)
    else if '/' in name then Some(ContainsSlash)
    else if exists i :: 0 <= i < |name| && !NameChar(name[i]) then Some(BadCharacter)
    else None
  }

  /** The first error among segments. */
  function ValidateNames(names: seq<string>): Option<PathError> {
    if names == [] then None
    else
      var error := ValidateAgentName(names[0]);
      if error.Some? then error else ValidateNames(names[1..])
  }

  function ValidateAgentPath(path: string): Option<PathError> {
    if path == MORPHEUS then None
    else if path == [] || path[0] != '/' then Some(NotAbsolute)
    else
      var stripped := path[1..];
      var segments := Split(stripped);
      if segments[0] != "root" then Some(NotAbsolute)
      else if stripped[|stripped| - 1..] == "/" then Some(TrailingSlash)
      else ValidateNames(segments[1..])
  }

  function NewAgentPath(path: string): Result<string, PathError> {
    var error := ValidateAgentPath(path);
    if error.Some? then Err(error.value) else Ok(path)
  }

  function Join(p: string, name: string): Result<string, PathError> {
    var error := ValidateAgentName(name);
    if error.Some? then Err(error.value) else NewAgentPath(p + "/" + name)
  }

  function ValidateRelativeReference(reference: string): Option<PathError> {
    if reference != [] && reference[|reference| - 1] == '/' then Some(TrailingSlash)
    else ValidateNames(Split(reference))
  }

  function ResolvePath(p: string, reference: string): Result<string, PathError> {
    if reference == "" then Err(EmptyReference)
    else if reference == ROOT then Ok(ROOT)
    else if reference[0] == '/' then NewAgentPath(reference)
    else
      var error := ValidateRelativeReference(reference);
      if error.Some? then Err(error.value) else NewAgentPath(p + "/" + reference)
  }

  predicate MatchesPrefix(p: string, prefix: string) {
    prefix == ROOT || p == prefix || prefix + "/" <= p
  }

  /** The text after the last slash. */
  function LastSegment(s: string): string {
    if '/' in s then LastSegment(s[1..]) else s
  }

  function AgentName(p: string): string {
    if p == "" || p == ROOT then "root"
    else
      var segment := LastSegment(p);
      if segment == "" then "root" else segment
  }

  // What paths denote

  predicate ValidName(name: string) {
    name != "" && name != "root" && forall i :: 0 <= i < |name| ==> NameChar(name[i])
  }

  predicate ValidNames(names: seq<string>) {
    forall i :: 0 <= i < |names| ==> ValidName(names[i])
  }

  /** The path of the agent reached from the root through `names`. */
  function Render(names: seq<string>): string {
    "/" + Glue(["root"] + names)
  }

  /** Names are accepted iff they are non-empty, of small letters, digits and underscores, and not the root's. */
  lemma NameAccepted(name: string)
    ensures ValidateAgentName(name) == None <==>
      name != "" && name != "root" && forall i :: 0 <= i < |name| ==> 'a' <= name[i] <= 'z' || '0' <= name[i] <= '9' || name[i] == '_'
  {
    NameValidIff(name);
  }

  lemma NameValidIff(name: string)
    ensures ValidateAgentName(name) == None <==> ValidName(name)
    ensures ValidName(name) ==> '/' !in name
  {
    assert !NameChar('/') && !NameChar('.');
    if name == "." || name == ".." { assert !NameChar(name[0]); }
  }

  lemma {:induction false} NamesValidIff(names: seq<string>)
    ensures ValidateNames(names) == None <==> ValidNames(names)
    ensures ValidNames(names) ==> SlashFree(names)
  {
    if names != [] {
      NameValidIff(names[0]);
      NamesValidIff(names[1..]);
      assert names == [names[0]] + names[1..];
    }
  }

  lemma RenderParts(names: seq<string>)
    requires ValidNames(names)
    ensures Render(names)[0] == '/' && Render(names)[1..] == Glue(["root"] + names)
    ensures SlashFree(["root"] + names) && Split(Render(names)[1..]) == ["root"] + names
    ensures Render(names) != MORPHEUS
  {
    NamesValidIff(names);
    SplitGlue(["root"] + names);
    SplitAtSlash("morpheus", "");
    assert MORPHEUS[1..] == "morpheus";
  }

  lemma {:induction false} LastCharOfGlue(segments: seq<string>)
    requires segments != [] && SlashFree(segments) && segments[|segments| - 1] != ""
    ensures Glue(segments) != [] && Glue(segments)[|Glue(segments)| - 1] != '/'
  {
    if |segments| > 1 {
      LastCharOfGlue(segments[1..]);
    } else {
      assert segments[0][|segments[0]| - 1] in segments[0];
    }
  }

  lemma RenderingValid(names: seq<string>)
    requires ValidNames(names)
    ensures ValidateAgentPath(Render(names)) == None
  {
    hide Glue, Split, ValidateNames, SlashFree, ValidName;
    RenderParts(names);
    NamesValidIff(names);
    GlueEnds(names);
    var segments := Split(Render(names)[1..]);
    assert segments[0] == "root" && segments[1..] == names;
    assert ValidateNames(segments[1..]) == None;
  }

  /** A rendering does not end in a slash. */
  lemma GlueEnds(names: seq<string>)
    requires ValidNames(names)
    ensures var path := Glue(["root"] + names); path != [] && path[|path| - 1..] != "/"
  {
    var segments := ["root"] + names;
    NamesValidIff(names);
    LastCharOfGlue(segments);
  }

  lemma ValidRendering(path: string)
    requires ValidateAgentPath(path) == None && path != MORPHEUS
    ensures exists names :: ValidNames(names) && path == Render(names)
  {
    hide Glue, Split, ValidateNames, SlashFree, ValidName;
    GlueSplit(path[1..]);
    var names := Split(path[1..])[1..];
    NamesValidIff(names);
    assert Split(path[1..]) == ["root"] + names;
    assert path == "/" + path[1..] == Render(names);
  }

  /** The validator accepts `/morpheus` and the renderings of valid names, nothing else. */
  lemma ValidPathIff(path: string)
    ensures ValidateAgentPath(path) == None
      <==> path == MORPHEUS || exists names :: ValidNames(names) && path == Render(names)
  {
    hide Render, ValidNames;
    if names :| ValidNames(names) && path == Render(names) {
      RenderingValid(names);
    }
    if ValidateAgentPath(path) == None && path != MORPHEUS {
      ValidRendering(path);
    }
  }

  /** Different name lists have different paths. */
  lemma RenderInjective(a: seq<string>, b: seq<string>)
    requires ValidNames(a) && ValidNames(b) && Render(a) == Render(b)
    ensures a == b
  {
    RenderParts(a);
    RenderParts(b);
    assert (["root"] + a)[1..] == a && (["root"] + b)[1..] == b;
  }

  lemma SplitBelow(sa: seq<string>, sb: seq<string>, t: string)
    requires sa != [] && sb != [] && SlashFree(sa) && SlashFree(sb)
    requires Glue(sa) == Glue(sb) + "/" + t
    ensures sa == sb + Split(t)
  {
    SplitAppend(sb, t);
    SplitGlue(sa);
  }

  lemma PrefixBelow(a: seq<string>, b: seq<string>)
    requires ValidNames(a) && ValidNames(b) && Render(b) + "/" <= Render(a)
    ensures b <= a
  {
    RenderParts(a);
    RenderParts(b);
    var below, above := Glue(["root"] + a), Glue(["root"] + b);
    assert above + "/" <= below by {
      assert Render(a)[1..] == below && (Render(b) + "/")[1..] == above + "/";
    }
    SplitBelow(["root"] + a, ["root"] + b, below[|above| + 1..]);
    assert (["root"] + a)[1..] == a && (["root"] + b)[1..] == b;
  }

  lemma BelowPrefix(a: seq<string>, b: seq<string>)
    requires ValidNames(a) && ValidNames(b) && b < a
    ensures Render(b) + "/" <= Render(a)
  {
    var rest := a[|b|..];
    assert a == b + rest;
    RenderChild(b, rest);
  }

  /** Prefix matching on path strings is prefix matching on name lists: never a sibling. */
  lemma MatchesPrefixIff(a: seq<string>, b: seq<string>)
    requires ValidNames(a) && ValidNames(b)
    ensures MatchesPrefix(Render(a), Render(b)) <==> b <= a
  {
    var p, prefix := Render(a), Render(b);
    if prefix == ROOT {
      RootIsEmpty(b);
    } else if p == prefix {
      RenderInjective(a, b);
    } else if prefix + "/" <= p {
      PrefixBelow(a, b);
    } else if b <= a {
      assert a != b;
      BelowPrefix(a, b);
    }
  }

  lemma RootIsEmpty(a: seq<string>)
    requires ValidNames(a)
    ensures Render(a) == ROOT <==> a == []
  {
  }

  /** `/morpheus` is matched only by itself, and by no prefix but itself and the root. */
  lemma MorpheusApart(a: seq<string>)
    requires ValidNames(a)
    ensures !MatchesPrefix(Render(a), MORPHEUS)
    ensures MatchesPrefix(MORPHEUS, Render(a)) <==> a == []
  {
    assert Render(a)[1] == 'r' by {
      assert Glue(["root"] + a)[..4] == "root";
    }
    assert MORPHEUS[1] == 'm';
    assert (Render(a) + "/")[1] == 'r' && (MORPHEUS + "/")[1] == 'm';
    RootIsEmpty(a);
  }

  /** Joining appends one name; it fails on an invalid name and below `/morpheus`. */
  lemma JoinAppends(a: seq<string>, name: string)
    requires ValidNames(a)
    ensures Join(Render(a), name).Ok? <==> ValidName(name)
    ensures ValidName(name) ==> Join(Render(a), name) == Ok(Render(a + [name])) && AgentName(Render(a + [name])) == name
    ensures Join(MORPHEUS, name).Err?
  {
    NameValidIff(name);
    if ValidName(name) {
      RenderChild(a, [name]);
      ValidPathIff(Render(a + [name]));
      NameOfChild(a, name);
    }
    NothingBelowMorpheus(name);
  }

  /** The names of the two paths at the top. */
  lemma TopNames()
    ensures AgentName("/root") == "root" && AgentName("/morpheus") == "morpheus"
    ensures Render([]) == "/root"
  {
    LastSegmentOf("/", "morpheus");
    assert "/" + "morpheus" == "/morpheus";
  }

  lemma NameOfChild(a: seq<string>, name: string)
    requires ValidNames(a) && ValidName(name)
    ensures AgentName(Render(a + [name])) == name
  {
    NameValidIff(name);
    RenderChild(a, [name]);
    LastSegmentOf(Render(a) + "/", name);
    assert Render(a) + "/" + Glue([name]) == Render(a) + "/" + name;
    RootIsEmpty(a + [name]);
  }

  lemma NothingBelowMorpheus(name: string)
    ensures NewAgentPath(MORPHEUS + "/" + name).Err?
  {
    var below := MORPHEUS + "/" + name;
    assert below[1..] == "morpheus" + "/" + name;
    SplitAtSlash("morpheus", name);
  }

  lemma RenderChild(a: seq<string>, more: seq<string>)
    requires ValidNames(a) && ValidNames(more) && more != []
    ensures Render(a + more) == Render(a) + "/" + Glue(more)
  {
    GlueAppend(["root"] + a, more);
    assert ["root"] + (a + more) == (["root"] + a) + more;
  }

  lemma {:induction false} LastSegmentOf(front: string, name: string)
    requires front != [] && front[|front| - 1] == '/' && '/' !in name
    ensures LastSegment(front + name) == name
  {
    assert front[|front| - 1] in front + name;
    assert (front + name)[1..] == front[1..] + name;
    if |front| > 1 {
      LastSegmentOf(front[1..], name);
    } else {
      assert front[1..] + name == name;
    }
  }

  /** A relative reference resolves to the path of the appended names, and only then. */
  lemma ResolveRelative(a: seq<string>, reference: string)
    requires ValidNames(a) && reference != "" && reference[0] != '/'
    ensures ResolvePath(Render(a), reference).Ok? <==> ValidNames(Split(reference))
    ensures ValidNames(Split(reference)) ==>
      ResolvePath(Render(a), reference) == Ok(Render(a + Split(reference)))
  {
    hide ValidateNames, Glue, ValidateAgentName, Split;
    var names := Split(reference);
    GlueSplit(reference);
    NamesValidIff(names);
    if ValidNames(names) {
      LastCharOfGlue(names);
      RenderChild(a, names);
      ValidPathIff(Render(a + names));
    }
  }

  /** Whatever resolves is a valid path; a valid absolute path resolves to itself from anywhere. */
  lemma ResolveSound(p: string, reference: string)
    ensures ResolvePath(p, reference).Ok? ==> ValidateAgentPath(ResolvePath(p, reference).value) == None
    ensures ValidateAgentPath(reference) == None ==> ResolvePath(p, reference) == Ok(reference)
  {
  }

  /** Relative references never leave the subtree of the path they are resolved from. */
  lemma ResolveStaysBelow(a: seq<string>, reference: string)
    requires ValidNames(a) && reference != "" && reference[0] != '/'
    requires ResolvePath(Render(a), reference).Ok?
    ensures MatchesPrefix(ResolvePath(Render(a), reference).value, Render(a))
  {
  }
}
