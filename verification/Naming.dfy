/** Go identifiers and dotted names from manifest segments. */
module Naming {
  import opened Wrappers
  import opened Text

  /** Case mapping of ASCII letters. */
  function UpperChar(c: char): char {
    if 'a' <= c <= 'z' then (c as int - 32) as char else c
  }

  function LowerChar(c: char): char {
    if 'A' <= c <= 'Z' then (c as int + 32) as char else c
  }

  function ToUpper(s: string): string {
    seq(|s|, i requires 0 <= i < |s| => UpperChar(s[i]))
  }

  function ToLower(s: string): string {
    seq(|s|, i requires 0 <= i < |s| => LowerChar(s[i]))
  }

  const ACRONYMS: map<string, string> := map[
    "csrf" := "CSRF", "http" := "HTTP", "https" := "HTTPS", "id" := "ID", "oidc" := "OIDC",
    "sql" := "SQL", "sso" := "SSO", "totp" := "TOTP", "url" := "URL", "xdg" := "XDG"]

  predicate IsSeparator(c: char) {
    c == '-' || c == '_' || c == '.' || c == '/'
  }

  /** The maximal runs of non-separators; `current` is the run being read. */
  function FieldsFrom(current: string, s: string): seq<string>
    decreases |s|
  {
    if s == "" then (if current == "" then [] else [current])
    else if IsSeparator(s[0]) then (if current == "" then [] else [current]) + FieldsFrom("", s[1..])
    else FieldsFrom(current + [s[0]], s[1..])
  }

  function Fields(s: string): seq<string> {
    FieldsFrom("", s)
  }

  function Acronym(segment: string): Option<string> {
    if ToLower(segment) in ACRONYMS then Some(ACRONYMS[ToLower(segment)]) else None
  }

  function GoSegment(segment: string): string {
    if segment == "" then ""
    else if Acronym(segment).Some? then Acronym(segment).value
    else if segment == ToUpper(segment) then segment
    else ToUpper(segment[..1]) + ToLower(segment[1..])
  }

  function GoName(value: string): string {
    MapConcat(GoSegment, Fields(value))
  }

  /** One turn of the loop below: the builder takes the segment's spelling. */
  method WriteSegment(b: string, segment: string) returns (b': string)
    ensures b' == b + GoSegment(segment)
  {
    if segment == "" {
      return b;
    }
    var acronym := Acronym(segment);
    if acronym.Some? {
      return b + acronym.value;
    }
    if segment == ToUpper(segment) {
      return b + segment;
    }
    Regroup(b, ToUpper(segment[..1]), ToLower(segment[1..]));
    b' := b + ToUpper(segment[..1]);
    b' := b' + ToLower(segment[1..]);
  }

  lemma NameFrom(name: string, segments: seq<string>, i: nat)
    requires i < |segments|
    ensures name + MapConcat(GoSegment, segments[i..])
         == (name + GoSegment(segments[i])) + MapConcat(GoSegment, segments[i + 1..])
  {
    assert segments[i..][0] == segments[i] && segments[i..][1..] == segments[i + 1..];
    Regroup(name, GoSegment(segments[i]), MapConcat(GoSegment, segments[i + 1..]));
  }

  method BuildGoName(value: string) returns (name: string)
    ensures name == GoName(value)
  {
    var segments := Fields(value);
    name := "";
    for i := 0 to |segments|
      invariant GoName(value) == name + MapConcat(GoSegment, segments[i..])
    {
      NameFrom(name, segments, i);
      name := WriteSegment(name, segments[i]);
    }
    assert name + "" == name;
  }

  function GoNameFromPath(segments: seq<string>): string {
    GoName(Join(segments, '_'))
  }

  function I18nConstantName(modulePath: seq<string>, messageName: string): string {
    GoNameFromPath(modulePath + [messageName])
  }

  function EventConstantName(modulePath: seq<string>, eventID: string): string {
    MapConcat(GoName, modulePath + [eventID])
  }

  /** The white space of Unicode. */
  const SPACES := {
    ' ', '\t', '\n', '\r', '\U{B}', '\U{C}', '\U{85}', '\U{A0}', '\U{1680}',
    '\U{2000}', '\U{2001}', '\U{2002}', '\U{2003}', '\U{2004}', '\U{2005}', '\U{2006}', '\U{2007}', '\U{2008}',
    '\U{2009}', '\U{200A}', '\U{2028}', '\U{2029}', '\U{202F}', '\U{205F}', '\U{3000}'}

  function CleanPath(parts: seq<string>): seq<string> {
    if parts == [] then [] else
    var part := Trim(parts[0], SPACES);
    (if part == "" then [] else [part]) + CleanPath(parts[1..])
  }

  function DisplayPath(parts: seq<string>): string {
    if CleanPath(parts) == [] then "<root>" else Join(CleanPath(parts), '.')
  }

  lemma PathFrom(cleaned: seq<string>, parts: seq<string>, i: nat)
    requires i < |parts|
    ensures var part := Trim(parts[i], SPACES);
            cleaned + CleanPath(parts[i..]) ==
              (if part == "" then cleaned else cleaned + [part]) + CleanPath(parts[i + 1..])
  {
    assert parts[i..][0] == parts[i] && parts[i..][1..] == parts[i + 1..];
    Regroup(cleaned, [Trim(parts[i], SPACES)], CleanPath(parts[i + 1..]));
    assert [] + CleanPath(parts[i + 1..]) == CleanPath(parts[i + 1..]);
  }

  method BuildDisplayPath(parts: seq<string>) returns (path: string)
    ensures path == DisplayPath(parts)
  {
    var cleaned: seq<string> := [];
    for i := 0 to |parts|
      invariant CleanPath(parts) == cleaned + CleanPath(parts[i..])
    {
      PathFrom(cleaned, parts, i);
      var part := Trim(parts[i], SPACES);
      if part == "" {
        continue;
      }
      cleaned := cleaned + [part];
    }
    assert cleaned + [] == cleaned;
    if |cleaned| == 0 {
      return "<root>";
    }
    return Join(cleaned, '.');
  }

  function EventTypeFor(modulePath: seq<string>, eventID: string): string {
    DisplayPath(modulePath + [eventID])
  }

  // ---- distribution ----

  lemma {:induction false} FieldsAppend(current: string, a: string, sep: char, b: string)
    requires IsSeparator(sep)
    ensures FieldsFrom(current, a + [sep] + b) == FieldsFrom(current, a) + Fields(b)
    decreases |a|
  {
    if a == "" {
      assert (a + [sep] + b)[1..] == b;
    } else {
      assert (a + [sep] + b)[1..] == a[1..] + [sep] + b;
      if IsSeparator(a[0]) {
        FieldsAppend("", a[1..], sep, b);
      } else {
        FieldsAppend(current + [a[0]], a[1..], sep, b);
      }
    }
  }

  /** A name built across a separator is the names of the two sides put together. */
  lemma GoNameDistributes(a: string, sep: char, b: string)
    requires sep in {'-', '_', '.', '/'}
    ensures GoName(a + [sep] + b) == GoName(a) + GoName(b)
  {
    FieldsAppend("", a, sep, b);
    MapConcatAppend(GoSegment, Fields(a), Fields(b));
  }

  lemma {:induction false} FieldsOfOne(current: string, s: string)
    requires forall i :: 0 <= i < |s| ==> s[i] !in {'-', '_', '.', '/'}
    ensures FieldsFrom(current, s) == if current + s == "" then [] else [current + s]
    decreases |s|
  {
    if s == "" {
      assert current + s == current;
    } else {
      FieldsOfOne(current + [s[0]], s[1..]);
      assert current + [s[0]] + s[1..] == current + s;
    }
  }

  /** And without a separator it is the spelling of the whole. */
  lemma GoNameOfOne(s: string)
    requires forall i :: 0 <= i < |s| ==> s[i] !in {'-', '_', '.', '/'}
    ensures GoName(s) == GoSegment(s)
  {
    FieldsOfOne("", s);
    assert "" + s == s;
    if s != "" {
      MapConcatOne(GoSegment, s);
    }
  }

  lemma {:induction false} GoNameOfJoin(parts: seq<string>, sep: char)
    requires IsSeparator(sep)
    ensures GoName(Join(parts, sep)) == MapConcat(GoName, parts)
  {
    if |parts| == 1 {
      assert parts[1..] == [];
    } else if |parts| > 1 {
      GoNameDistributes(parts[0], sep, Join(parts[1..], sep));
      GoNameOfJoin(parts[1..], sep);
    }
  }

  /** The two catalogs name constants alike, although one joins the path before naming it and the
      other names each segment. */
  lemma ConstantNamesAgree(modulePath: seq<string>, name: string)
    ensures I18nConstantName(modulePath, name) == EventConstantName(modulePath, name)
  {
    GoNameOfJoin(modulePath + [name], '_');
  }

  /** Dropping the leading segment drops exactly its name from the front of the constant. */
  lemma ConstantOfTail(modulePath: seq<string>, eventID: string)
    requires modulePath != []
    ensures EventConstantName(modulePath, eventID) ==
              GoName(modulePath[0]) + EventConstantName(modulePath[1..], eventID)
  {
    assert (modulePath + [eventID])[1..] == modulePath[1..] + [eventID];
  }

  // ---- what the names look like ----

  predicate HasLowerCase(s: string) {
    exists i :: 0 <= i < |s| && 'a' <= s[i] <= 'z'
  }

  lemma UpperIsUnchangedExactly(s: string)
    ensures s == ToUpper(s) <==> !HasLowerCase(s)
  {
    if !HasLowerCase(s) {
      assert forall i :: 0 <= i < |s| ==> ToUpper(s)[i] == s[i];
    } else {
      var i :| 0 <= i < |s| && 'a' <= s[i] <= 'z';
      assert ToUpper(s)[i] != s[i];
    }
  }

  /** The table gives each acronym in upper case. */
  lemma AcronymsAreUpper(k: string)
    requires k in ACRONYMS
    ensures ACRONYMS[k] == ToUpper(k)
  {
    assert ToUpper("csrf") == "CSRF" && ToUpper("http") == "HTTP" && ToUpper("https") == "HTTPS";
    assert ToUpper("id") == "ID" && ToUpper("oidc") == "OIDC" && ToUpper("sql") == "SQL" && ToUpper("sso") == "SSO";
    assert ToUpper("totp") == "TOTP" && ToUpper("url") == "URL" && ToUpper("xdg") == "XDG";
  }

  lemma UpperOfLower(s: string)
    ensures ToUpper(ToLower(s)) == ToUpper(s)
  {
    assert forall i :: 0 <= i < |s| ==> ToUpper(ToLower(s))[i] == ToUpper(s)[i];
  }

  /** A segment is written in upper case if it is an acronym or has no lower-case letter, and otherwise
      with a capital and the rest in lower case. */
  lemma SegmentSpelling(segment: string)
    ensures var acronym := ToLower(segment) in
              {"csrf", "http", "https", "id", "oidc", "sql", "sso", "totp", "url", "xdg"};
            GoSegment(segment) ==
              if acronym || !HasLowerCase(segment) then ToUpper(segment)
              else ToUpper(segment[..1]) + ToLower(segment[1..])
  {
    UpperIsUnchangedExactly(segment);
    if ToLower(segment) in ACRONYMS {
      AcronymsAreUpper(ToLower(segment));
      UpperOfLower(segment);
    }
  }

  /** A part that is blank adds nothing to a path. */
  lemma BlankIsDropped(a: seq<string>, blank: string, b: seq<string>)
    requires AllIn(blank, SPACES)
    ensures DisplayPath(a + [blank] + b) == DisplayPath(a + b)
  {
    CleanAppend(a, b);
    CleanAppend(a, [blank] + b);
    assert a + [blank] + b == a + ([blank] + b);
    assert ([blank] + b)[1..] == b;
    TrimOf(blank, "", "", SPACES);
    assert blank + "" + "" == blank;
    assert [] + CleanPath(b) == CleanPath(b);
  }

  lemma {:induction false} CleanAppend(a: seq<string>, b: seq<string>)
    ensures CleanPath(a + b) == CleanPath(a) + CleanPath(b)
  {
    if a == [] {
      assert a + b == b && CleanPath(a) + CleanPath(b) == CleanPath(b);
    } else {
      CleanAppend(a[1..], b);
      assert (a + b)[1..] == a[1..] + b;
      Regroup([Trim(a[0], SPACES)], CleanPath(a[1..]), CleanPath(b));
      assert [] + CleanPath(a[1..]) == CleanPath(a[1..]);
    }
  }

  /** Blanks around a part make no difference. */
  lemma PartsAreTrimmed(a: seq<string>, l: string, part: string, r: string, b: seq<string>)
    requires AllIn(l, SPACES) && AllIn(r, SPACES)
    ensures DisplayPath(a + [l + part + r] + b) == DisplayPath(a + [part] + b)
  {
    var l', r' := TrimCuts(part, SPACES);
    TrimOf(l', Trim(part, SPACES), r', SPACES);
    assert AllIn(l + l', SPACES) && AllIn(r' + r, SPACES);
    TrimOf(l + l', Trim(part, SPACES), r' + r, SPACES);
    assert l + part + r == (l + l') + Trim(part, SPACES) + (r' + r);
    CleanAppend(a + [l + part + r], b);
    CleanAppend(a, [l + part + r]);
    CleanAppend(a + [part], b);
    CleanAppend(a, [part]);
  }

  /** A path of nothing is shown as the root. */
  lemma NothingIsRoot()
    ensures DisplayPath([]) == "<root>"
  {
  }

  lemma {:induction false} CleanPartsStay(parts: seq<string>)
    requires forall i :: 0 <= i < |parts| ==> parts[i] != "" && Trim(parts[i], SPACES) == parts[i]
    ensures CleanPath(parts) == parts
    decreases |parts|
  {
    if parts != [] {
      CleanPartsStay(parts[1..]);
    }
  }

  /** The type of an event is its path and ID with dots between, when these are not empty and have no
      outer white space. */
  lemma TypeIsDotted(modulePath: seq<string>, eventID: string)
    requires forall i :: 0 <= i < |modulePath + [eventID]| ==>
               var part := (modulePath + [eventID])[i]; part != "" && Trim(part, SPACES) == part
    ensures EventTypeFor(modulePath, eventID) == Join(modulePath + [eventID], '.')
  {
    CleanPartsStay(modulePath + [eventID]);
  }
}
