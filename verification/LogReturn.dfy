/** The rule that no function logs an error and returns one: what the analyser finds in a file. */
module LogReturn {
  import opened Wrappers
  import opened Text
  import opened Naming

  /** What type checking says of a selector: the package of the function it names, and the package and
      name of the type its receiver is a pointer to. */
  datatype Callee =
    | NoSelector
    | Selector(name: string, functionPackage: Option<string>, receiver: Option<(string, string)>)

  /** A syntax tree, as far as the rule looks at it. A function literal has a header, its type, and a
      body; results[i] says whether result i is an error. */
  datatype Node =
    | Call(pos: nat, callee: Callee, parts: seq<Node>)
    | Return(pos: nat, parts: seq<Node>)
    | Ident(name: string)
    | FuncLit(line: nat, endLine: nat, results: seq<bool>, header: seq<Node>, body: Node)
    | Other(parts: seq<Node>)

  datatype Comments = Comments(line: nat, texts: seq<string>)

  datatype Decl =
    | FuncDecl(name: string, line: nat, endLine: nat, doc: Option<Comments>, results: seq<bool>,
               header: seq<Node>, body: Option<Node>)
    | GenDecl(parts: seq<Node>)

  datatype File = File(decls: seq<Decl>, comments: seq<Comments>)

  datatype Unit = Unit(
    name: string, line: nat, endLine: nat, doc: Option<Comments>, errorResults: seq<nat>, body: Node)

  // ---- logging calls and error returns ----

  datatype Sink = Sink(packagePath: string, typeName: string, methods: seq<string>)

  const LOGGING := "github.com/sidarth-23/dinchy/internal/platform/logging"

  const LOGGING_SINKS: seq<Sink> := [
    Sink(LOGGING, "", ["Error", "HTTPError", "Panic"]),
    Sink("log/slog", "Logger", ["Error", "ErrorContext"])
  ]

  predicate Matches(sink: Sink, callee: Callee)
    requires callee.Selector?
  {
    && callee.name in sink.methods
    && if sink.typeName == "" then callee.functionPackage == Some(sink.packagePath)
       else callee.receiver == Some((sink.packagePath, sink.typeName))
  }

  predicate IsLoggingCall(callee: Callee) {
    callee.Selector? && exists i :: 0 <= i < |LOGGING_SINKS| && Matches(LOGGING_SINKS[i], callee)
  }

  /** A naked return counts. A result position beyond the expressions returned does not, so `return f()`
      for several results is judged by its first position alone. */
  predicate IsErrorReturn(indexes: seq<nat>, results: seq<Node>) {
    indexes != [] &&
    (results == [] || exists i :: 0 <= i < |indexes| && indexes[i] < |results| && results[indexes[i]] != Ident("nil"))
  }

  function ErrorResults(results: seq<bool>): (indexes: seq<nat>)
    ensures forall i :: i in indexes <==> 0 <= i < |results| && results[i]
  {
    if results == [] then [] else
    var n := |results| - 1;
    ErrorResults(results[..n]) + (if results[n] then [n] else [])
  }

  // ---- a function's own calls and returns ----

  /** The calls and returns of a tree that are not inside a function literal in it. */
  function Own(n: Node): seq<Node> {
    match n
    case Call(_, _, parts) => [n] + OwnOf(parts)
    case Return(_, parts) => [n] + OwnOf(parts)
    case Ident(_) => []
    case FuncLit(_, _, _, _, _) => []
    case Other(parts) => OwnOf(parts)
  }

  function OwnOf(ns: seq<Node>): seq<Node> {
    if ns == [] then [] else Own(ns[0]) + OwnOf(ns[1..])
  }

  predicate Logs(own: seq<Node>) {
    exists i :: 0 <= i < |own| && own[i].Call? && IsLoggingCall(own[i].callee)
  }

  predicate ReturnsError(indexes: seq<nat>, own: seq<Node>) {
    exists i :: 0 <= i < |own| && own[i].Return? && IsErrorReturn(indexes, own[i].parts)
  }

  // ---- directives ----

  const DIRECTIVE := "dinchy:allow-logreturn"

  function CutPrefix(s: string, prefix: string): Option<string> {
    if prefix <= s then Some(s[|prefix|..]) else None
  }

  function TrimSpace(s: string): string {
    Trim(s, SPACES)
  }

  /** A comment without its slashes and the blanks around. */
  function Stripped(text: string): string {
    var trimmed := TrimSpace(text);
    TrimSpace(if "//" <= trimmed then trimmed[2..] else trimmed)
  }

  /** The reason a comment gives, when it is a directive; it may be empty. */
  function Reason(text: string): Option<string> {
    match CutPrefix(Stripped(text), DIRECTIVE)
    case None => None
    case Some(reason) => Some(TrimSpace(reason))
  }

  /** The first directive among the comments. */
  function FirstReason(texts: seq<string>): (r: Option<string>)
    ensures r.None? <==> forall i :: 0 <= i < |texts| ==> Reason(texts[i]).None?
  {
    if texts == [] then None else if Reason(texts[0]).Some? then Reason(texts[0]) else
    FirstReason(texts[1..])
  }

  predicate AtUnit(unit: Unit, group: Comments) {
    (group.line == unit.line || group.line == unit.endLine) && unit.doc != Some(group)
  }

  /** The comments that may excuse a unit: its documentation, then those on its first or last line. */
  function NearbyComments(unit: Unit, comments: seq<Comments>): seq<string> {
    (if unit.doc.Some? then unit.doc.value.texts else []) + LineComments(unit, comments)
  }

  function LineComments(unit: Unit, comments: seq<Comments>): seq<string> {
    if comments == [] then [] else
    (if AtUnit(unit, comments[0]) then comments[0].texts else []) + LineComments(unit, comments[1..])
  }

  datatype Finding = NeedsReason(line: nat) | LogsAndReturns(line: nat, name: string)

  /** What the rule says of one unit. */
  function Findings(unit: Unit, comments: seq<Comments>): seq<Finding> {
    var reason := FirstReason(NearbyComments(unit, comments));
    (if reason == Some("") then [NeedsReason(unit.line)] else []) +
    (if (reason.None? || reason == Some("")) && Logs(Own(unit.body)) && ReturnsError(unit.errorResults, Own(unit.body))
     then [LogsAndReturns(unit.line, unit.name)] else [])
  }

  // ---- the units of a file ----

  function LiteralUnit(n: Node): Unit
    requires n.FuncLit?
  {
    Unit("func literal", n.line, n.endLine, None, ErrorResults(n.results), n.body)
  }

  function Units(n: Node): seq<Unit> {
    match n
    case Call(_, _, parts) => UnitsOf(parts)
    case Return(_, parts) => UnitsOf(parts)
    case Ident(_) => []
    case FuncLit(_, _, _, header, body) => [LiteralUnit(n)] + UnitsOf(header) + Units(body)
    case Other(parts) => UnitsOf(parts)
  }

  function UnitsOf(ns: seq<Node>): seq<Unit> {
    if ns == [] then [] else Units(ns[0]) + UnitsOf(ns[1..])
  }

  function DeclUnits(d: Decl): seq<Unit> {
    match d
    case FuncDecl(name, line, endLine, doc, results, header, body) =>
      (match body
       case None => UnitsOf(header)
       case Some(b) => [Unit(name, line, endLine, doc, ErrorResults(results), b)] + UnitsOf(header) + Units(b))
    case GenDecl(parts) => UnitsOf(parts)
  }

  function FileUnits(decls: seq<Decl>): seq<Unit> {
    if decls == [] then [] else DeclUnits(decls[0]) + FileUnits(decls[1..])
  }

  // ---- the walk over one function ----

  /** What a walk over a tree with these own calls and returns has found, having found `log` and `ret`
      before it: nothing outside the tree, and everything in it unless it has found both. */
  predicate Found(indexes: seq<nat>, own: seq<Node>, log: bool, ret: bool, log': bool, ret': bool) {
    && (log ==> log') && (ret ==> ret')
    && (log' ==> log || Logs(own)) && (ret' ==> ret || ReturnsError(indexes, own))
    && ((log' && ret') || ((log || Logs(own) ==> log') && (ret || ReturnsError(indexes, own) ==> ret')))
  }

  lemma FoundThen(indexes: seq<nat>, own: seq<Node>, own': seq<Node>,
                  l0: bool, r0: bool, l1: bool, r1: bool, l2: bool, r2: bool)
    requires Found(indexes, own, l0, r0, l1, r1) && Found(indexes, own', l1, r1, l2, r2)
    ensures Found(indexes, own + own', l0, r0, l2, r2)
  {
    var all := own + own';
    assert forall i :: 0 <= i < |own| ==> all[i] == own[i];
    assert forall i :: 0 <= i < |own'| ==> all[|own| + i] == own'[i];
    assert Logs(all) <==> Logs(own) || Logs(own') by {
      if Logs(own') {
        var i :| 0 <= i < |own'| && own'[i].Call? && IsLoggingCall(own'[i].callee);
        assert all[|own| + i] == own'[i];
      }
    }
    assert ReturnsError(indexes, all) <==> ReturnsError(indexes, own) || ReturnsError(indexes, own') by {
      if ReturnsError(indexes, own') {
        var i :| 0 <= i < |own'| && own'[i].Return? && IsErrorReturn(indexes, own'[i].parts);
        assert all[|own| + i] == own'[i];
      }
    }
  }

  lemma FoundBoth(indexes: seq<nat>, own: seq<Node>)
    ensures Found(indexes, own, true, true, true, true)
  {
  }

  method LoggingCall(callee: Callee) returns (r: bool)
    ensures r == IsLoggingCall(callee)
  {
    if callee.NoSelector? {
      return false;
    }
    var i := 0;
    while i < |LOGGING_SINKS|
      invariant 0 <= i <= |LOGGING_SINKS|
      invariant forall j :: 0 <= j < i ==> !Matches(LOGGING_SINKS[j], callee)
    {
      if Matches(LOGGING_SINKS[i], callee) {
        return true;
      }
      i := i + 1;
    }
    return false;
  }

  method ErrorReturn(indexes: seq<nat>, results: seq<Node>) returns (r: bool)
    ensures r == IsErrorReturn(indexes, results)
  {
    if |indexes| == 0 {
      return false;
    }
    if |results| == 0 {
      return true;
    }
    var i := 0;
    while i < |indexes|
      invariant 0 <= i <= |indexes|
      invariant forall j :: 0 <= j < i && indexes[j] < |results| ==> results[indexes[j]] == Ident("nil")
    {
      if indexes[i] < |results| && results[indexes[i]] != Ident("nil") {
        return true;
      }
      i := i + 1;
    }
    return false;
  }

  method ErrorResultIndexes(results: seq<bool>) returns (indexes: seq<nat>)
    ensures indexes == ErrorResults(results)
    ensures forall j, k :: 0 <= j < k < |indexes| ==> indexes[j] < indexes[k]
  {
    indexes := [];
    var i := 0;
    while i < |results|
      invariant 0 <= i <= |results| && indexes == ErrorResults(results[..i])
      invariant forall j :: 0 <= j < |indexes| ==> indexes[j] < i
      invariant forall j, k :: 0 <= j < k < |indexes| ==> indexes[j] < indexes[k]
    {
      assert results[..i + 1][..i] == results[..i];
      if results[i] {
        indexes := indexes + [i];
      }
      i := i + 1;
    }
    assert results[..i] == results;
  }

  /** The walk stays out of function literals and, once it has found both, goes no deeper. */
  class Search {
    const errorResults: seq<nat>
    var hasLog: bool
    var hasErrorReturn: bool

    constructor (errorResults: seq<nat>)
      ensures this.errorResults == errorResults && !hasLog && !hasErrorReturn
    {
      this.errorResults, hasLog, hasErrorReturn := errorResults, false, false;
    }

    method Inspect(n: Node)
      modifies this
      ensures Found(errorResults, Own(n), old(hasLog), old(hasErrorReturn), hasLog, hasErrorReturn)
      decreases n
    {
      if n.FuncLit? || n.Ident? {
        return;
      }
      if n.Call? {
        var logging := LoggingCall(n.callee);
        hasLog := hasLog || logging;
      } else if n.Return? {
        var returning := ErrorReturn(errorResults, n.parts);
        hasErrorReturn := hasErrorReturn || returning;
      }
      ghost var here := if n.Other? then [] else [n];
      assert Found(errorResults, here, old(hasLog), old(hasErrorReturn), hasLog, hasErrorReturn) by {
        if !n.Other? {
          assert here[0] == n;
        }
      }
      ghost var log, ret := hasLog, hasErrorReturn;
      if !hasLog || !hasErrorReturn {
        InspectAll(n.parts);
      } else {
        FoundBoth(errorResults, OwnOf(n.parts));
      }
      FoundThen(errorResults, here, OwnOf(n.parts), old(hasLog), old(hasErrorReturn), log, ret, hasLog, hasErrorReturn);
      assert here + OwnOf(n.parts) == Own(n);
    }

    method InspectAll(ns: seq<Node>)
      modifies this
      ensures Found(errorResults, OwnOf(ns), old(hasLog), old(hasErrorReturn), hasLog, hasErrorReturn)
      decreases ns
    {
      if ns == [] {
        return;
      }
      Inspect(ns[0]);
      ghost var log, ret := hasLog, hasErrorReturn;
      InspectAll(ns[1..]);
      FoundThen(errorResults, Own(ns[0]), OwnOf(ns[1..]),
                old(hasLog), old(hasErrorReturn), log, ret, hasLog, hasErrorReturn);
    }
  }

  /** A violation exactly when the function's own calls and returns log and return an error. */
  method LogReturnViolation(unit: Unit) returns (r: bool)
    ensures r <==> Logs(Own(unit.body)) && ReturnsError(unit.errorResults, Own(unit.body))
  {
    var search := new Search(unit.errorResults);
    search.Inspect(unit.body);
    r := search.hasLog && search.hasErrorReturn;
  }

  // ---- the walk over the file ----

  lemma AllTogether(before: seq<Unit>, unit: Unit, header: seq<Unit>, body: seq<Unit>)
    ensures before + [unit] + header + body == before + ([unit] + header + body)
  {
  }

  class Collector {
    var units: seq<Unit>

    constructor ()
      ensures units == []
    {
      units := [];
    }

    method Inspect(n: Node)
      modifies this
      ensures units == old(units) + Units(n)
      decreases n
    {
      match n
      case Ident(_) =>
      case FuncLit(line, endLine, results, header, body) =>
        var indexes := ErrorResultIndexes(results);
        units := units + [Unit("func literal", line, endLine, None, indexes, body)];
        InspectAll(header);
        Inspect(body);
        AllTogether(old(units), LiteralUnit(n), UnitsOf(header), Units(body));
      case Call(_, _, parts) => InspectAll(parts);
      case Return(_, parts) => InspectAll(parts);
      case Other(parts) => InspectAll(parts);
    }

    method InspectAll(ns: seq<Node>)
      modifies this
      ensures units == old(units) + UnitsOf(ns)
      decreases ns
    {
      if ns != [] {
        Inspect(ns[0]);
        InspectAll(ns[1..]);
      }
    }

    method InspectDecl(d: Decl)
      modifies this
      ensures units == old(units) + DeclUnits(d)
    {
      match d
      case GenDecl(parts) => InspectAll(parts);
      case FuncDecl(name, line, endLine, doc, results, header, body) =>
        if body.None? {
          InspectAll(header);
        } else {
          var indexes := ErrorResultIndexes(results);
          units := units + [Unit(name, line, endLine, doc, indexes, body.value)];
          InspectAll(header);
          Inspect(body.value);
          AllTogether(old(units), Unit(name, line, endLine, doc, indexes, body.value), UnitsOf(header),
                      Units(body.value));
        }
    }
  }

  /** The units are those of the declarations and of every function literal, outer before inner. */
  method CollectTypedFunctionUnits(file: File) returns (units: seq<Unit>)
    ensures units == FileUnits(file.decls)
  {
    var collector := new Collector();
    var i := 0;
    while i < |file.decls|
      invariant 0 <= i <= |file.decls|
      invariant collector.units + FileUnits(file.decls[i..]) == FileUnits(file.decls)
    {
      assert file.decls[i..][0] == file.decls[i] && file.decls[i..][1..] == file.decls[i + 1..];
      Regroup(collector.units, DeclUnits(file.decls[i]), FileUnits(file.decls[i + 1..]));
      collector.InspectDecl(file.decls[i]);
      i := i + 1;
    }
    units := collector.units;
  }

  // ---- analysing a unit ----

  lemma FirstReasonAppend(a: seq<string>, b: seq<string>)
    ensures FirstReason(a + b) == if FirstReason(a).Some? then FirstReason(a) else FirstReason(b)
    decreases |a|
  {
    if a == [] {
      assert a + b == b;
    } else {
      FirstReasonAppend(a[1..], b);
      assert (a + b)[1..] == a[1..] + b;
    }
  }

  method CommentGroupDirective(texts: seq<string>) returns (reason: Option<string>)
    ensures reason == FirstReason(texts)
  {
    var i := 0;
    while i < |texts|
      invariant 0 <= i <= |texts| && FirstReason(texts) == FirstReason(texts[i..])
    {
      assert texts[i..][0] == texts[i] && texts[i..][1..] == texts[i + 1..];
      if Reason(texts[i]).Some? {
        return Reason(texts[i]);
      }
      i := i + 1;
    }
    return None;
  }

  method AllowDirective(unit: Unit, comments: seq<Comments>) returns (reason: Option<string>)
    ensures reason == FirstReason(NearbyComments(unit, comments))
  {
    var doc := if unit.doc.Some? then unit.doc.value.texts else [];
    reason := CommentGroupDirective(doc);
    FirstReasonAppend(doc, LineComments(unit, comments));
    var i := 0;
    while i < |comments| && reason.None?
      invariant 0 <= i <= |comments|
      invariant reason.None? ==>
                  FirstReason(LineComments(unit, comments[i..])) == FirstReason(NearbyComments(unit, comments))
      invariant reason.Some? ==> reason == FirstReason(NearbyComments(unit, comments))
      decreases |comments| - i
    {
      assert comments[i..][0] == comments[i] && comments[i..][1..] == comments[i + 1..];
      if AtUnit(unit, comments[i]) {
        FirstReasonAppend(comments[i].texts, LineComments(unit, comments[i + 1..]));
        reason := CommentGroupDirective(comments[i].texts);
      } else {
        assert [] + LineComments(unit, comments[i + 1..]) == LineComments(unit, comments[i + 1..]);
      }
      i := i + 1;
    }
  }

  method AnalyzeFunctionUnit(unit: Unit, comments: seq<Comments>) returns (findings: seq<Finding>)
    ensures findings == Findings(unit, comments)
  {
    findings := [];
    var reason := AllowDirective(unit, comments);
    if reason == Some("") {
      findings := findings + [NeedsReason(unit.line)];
    }
    if |unit.errorResults| == 0 {
      NoErrorNoReturn(Own(unit.body));
      return;
    }
    if reason.Some? && reason.value != "" {
      return;
    }
    var violation := LogReturnViolation(unit);
    if violation {
      findings := findings + [LogsAndReturns(unit.line, unit.name)];
    }
  }

  lemma NoErrorNoReturn(own: seq<Node>)
    ensures !ReturnsError([], own)
  {
  }

  /** Of a signature: whether returning these expressions returns an error. A naked return does, if there
      is an error to return; otherwise some error result must be given an expression other than nil. */
  predicate GivesError(results: seq<bool>, returned: seq<Node>) {
    exists i :: 0 <= i < |results| && results[i]
                && (returned == [] || (i < |returned| && returned[i] != Ident("nil")))
  }

  /** Error returns are judged by every error result of the signature. */
  lemma ErrorReturnExactly(results: seq<bool>, returned: seq<Node>)
    ensures IsErrorReturn(ErrorResults(results), returned) <==> GivesError(results, returned)
  {
    var indexes := ErrorResults(results);
    if GivesError(results, returned) {
      var i :| 0 <= i < |results| && results[i]
               && (returned == [] || (i < |returned| && returned[i] != Ident("nil")));
      assert i in indexes;
      var j :| 0 <= j < |indexes| && indexes[j] == i;
    }
    if indexes != [] {
      assert indexes[0] in indexes;
    }
    if IsErrorReturn(indexes, returned) && returned != [] {
      var j :| 0 <= j < |indexes| && indexes[j] < |returned| && returned[indexes[j]] != Ident("nil");
      assert indexes[j] in indexes;
    }
  }

  /** With one expression for each result, as in `return nil, err`: exactly when that of some error result
      is not nil. */
  lemma OneEachExactly(results: seq<bool>, returned: seq<Node>)
    requires |returned| == |results|
    ensures IsErrorReturn(ErrorResults(results), returned) <==>
              exists i :: 0 <= i < |results| && results[i] && returned[i] != Ident("nil")
  {
    ErrorReturnExactly(results, returned);
  }

  /** What logs: the package's own Error, HTTPError and Panic, and Error and ErrorContext of a logger. */
  lemma LoggingCallExactly(callee: Callee)
    ensures IsLoggingCall(callee) <==>
              && callee.Selector?
              && (|| (callee.name in {"Error", "HTTPError", "Panic"}
                      && callee.functionPackage == Some("github.com/sidarth-23/dinchy/internal/platform/logging"))
                  || (callee.name in {"Error", "ErrorContext"} && callee.receiver == Some(("log/slog", "Logger"))))
  {
    if callee.Selector? {
      var sinks := LOGGING_SINKS;
      assert sinks[0].methods == ["Error", "HTTPError", "Panic"] && sinks[1].methods == ["Error", "ErrorContext"];
      assert callee.name in sinks[0].methods <==> callee.name in {"Error", "HTTPError", "Panic"} by {
        assert sinks[0].methods[0] == "Error" && sinks[0].methods[1] == "HTTPError" && sinks[0].methods[2] == "Panic";
      }
      assert callee.name in sinks[1].methods <==> callee.name in {"Error", "ErrorContext"} by {
        assert sinks[1].methods[0] == "Error" && sinks[1].methods[1] == "ErrorContext";
      }
      assert IsLoggingCall(callee) <==> Matches(sinks[0], callee) || Matches(sinks[1], callee);
    }
  }

  /** A function of this signature is reported exactly when some call of its own logs, some return of its
      own gives an error, and no directive with a reason excuses it; a directive without a reason is
      reported as such. */
  lemma ReportedExactly(unit: Unit, results: seq<bool>, comments: seq<Comments>)
    requires unit.errorResults == ErrorResults(results)
    ensures var own, reason := Own(unit.body), FirstReason(NearbyComments(unit, comments));
            && (LogsAndReturns(unit.line, unit.name) in Findings(unit, comments) <==>
                  && (exists i :: 0 <= i < |own| && own[i].Call? && IsLoggingCall(own[i].callee))
                  && (exists i :: 0 <= i < |own| && own[i].Return? && GivesError(results, own[i].parts))
                  && !(reason.Some? && reason.value != ""))
            && (NeedsReason(unit.line) in Findings(unit, comments) <==> reason == Some(""))
  {
    var own, reason := Own(unit.body), FirstReason(NearbyComments(unit, comments));
    var findings := Findings(unit, comments);
    if reason == Some("") {
      assert findings[0] == NeedsReason(unit.line);
    }
    forall i | 0 <= i < |own| && own[i].Return?
      ensures IsErrorReturn(unit.errorResults, own[i].parts) <==> GivesError(results, own[i].parts)
    {
      ErrorReturnExactly(results, own[i].parts);
    }
    if Logs(own) && ReturnsError(unit.errorResults, own) && !(reason.Some? && reason.value != "") {
      assert findings[|findings| - 1] == LogsAndReturns(unit.line, unit.name);
    }
  }

  /** A declared function is examined with the results of its own signature. */
  lemma DeclaredReportedExactly(d: Decl, comments: seq<Comments>)
    requires d.FuncDecl? && d.body.Some?
    ensures DeclUnits(d) != []
    ensures var unit, own := DeclUnits(d)[0], Own(d.body.value);
            && unit.name == d.name && unit.line == d.line && unit.endLine == d.endLine && unit.doc == d.doc
            && (LogsAndReturns(d.line, d.name) in Findings(unit, comments) <==>
                  && (exists i :: 0 <= i < |own| && own[i].Call? && IsLoggingCall(own[i].callee))
                  && (exists i :: 0 <= i < |own| && own[i].Return? && GivesError(d.results, own[i].parts))
                  && FirstReason(NearbyComments(unit, comments)) in {None, Some("")})
  {
    var unit := Unit(d.name, d.line, d.endLine, d.doc, ErrorResults(d.results), d.body.value);
    assert DeclUnits(d) == [unit] + UnitsOf(d.header) + Units(d.body.value);
    ReportedExactly(unit, d.results, comments);
  }

  /** And a function literal with those of its own. */
  lemma LiteralReportedExactly(n: Node, comments: seq<Comments>)
    requires n.FuncLit?
    ensures Units(n) != []
    ensures var unit, own := Units(n)[0], Own(n.body);
            && unit.name == "func literal" && unit.line == n.line && unit.endLine == n.endLine && unit.doc.None?
            && (LogsAndReturns(n.line, "func literal") in Findings(unit, comments) <==>
                  && (exists i :: 0 <= i < |own| && own[i].Call? && IsLoggingCall(own[i].callee))
                  && (exists i :: 0 <= i < |own| && own[i].Return? && GivesError(n.results, own[i].parts))
                  && FirstReason(NearbyComments(unit, comments)) in {None, Some("")})
  {
    assert Units(n) == [LiteralUnit(n)] + UnitsOf(n.header) + Units(n.body);
    ReportedExactly(LiteralUnit(n), n.results, comments);
  }

  // ---- what excuses a function ----

  /** The text is a directive, and this is what follows the name of the directive. */
  predicate IsDirective(text: string, before: string, slashes: string, gap: string, rest: string) {
    && text == before + slashes + gap + "dinchy:allow-logreturn" + rest
    && AllIn(before, SPACES) && slashes in {"", "//"} && AllIn(gap, SPACES)
  }

  lemma TrimBeforeBlank(s: string, blank: string)
    requires AllIn(blank, SPACES)
    ensures Trim(s + blank, SPACES) == Trim(s, SPACES)
  {
    var l, r := TrimCuts(s, SPACES);
    TrimOf(l, Trim(s, SPACES), r + blank, SPACES);
    assert s + blank == l + Trim(s, SPACES) + (r + blank);
  }

  lemma Spread(a: string, b: string, c: string, d: string, e: string, f: string, g: string)
    ensures a + (b + (c + (d + e) + f)) + g == a + b + c + d + (e + (f + g))
  {
  }

  lemma BlanksAppend(a: string, b: string)
    requires AllIn(a, SPACES) && AllIn(b, SPACES)
    ensures AllIn(a + b, SPACES)
  {
  }

  lemma StrippedIsGiven(text: string)
    returns (before: string, slashes: string, gap: string, after': string, after: string)
    ensures text == before + (slashes + (gap + Stripped(text) + after')) + after
    ensures AllIn(before, SPACES) && slashes in {"", "//"} && AllIn(gap, SPACES)
    ensures AllIn(after', SPACES) && AllIn(after, SPACES)
  {
    before, after := TrimCuts(text, SPACES);
    var trimmed := Trim(text, SPACES);
    slashes := if "//" <= trimmed then "//" else "";
    assert trimmed == slashes + trimmed[|slashes|..];
    gap, after' := TrimCuts(trimmed[|slashes|..], SPACES);
  }

  lemma ReasonIsGiven(text: string) returns (before: string, slashes: string, gap: string, rest: string)
    requires Reason(text).Some?
    ensures IsDirective(text, before, slashes, gap, rest) && Reason(text) == Some(Trim(rest, SPACES))
  {
    var after, after';
    before, slashes, gap, after', after := StrippedIsGiven(text);
    var reason := Stripped(text)[|DIRECTIVE|..];
    assert Stripped(text) == DIRECTIVE + reason;
    rest := reason + (after' + after);
    Spread(before, slashes, gap, DIRECTIVE, reason, after', after);
    BlanksAppend(after', after);
    TrimBeforeBlank(reason, after' + after);
  }

  /** The rest without the blanks after it. */
  lemma RestCuts(rest: string) returns (tail: string, blank: string)
    ensures rest == tail + blank && AllIn(blank, SPACES) && Trimmed(DIRECTIVE + tail, SPACES)
  {
    var l, r := TrimCuts(rest, SPACES);
    var core := Trim(rest, SPACES);
    tail, blank := if core == "" then "" else l + core, if core == "" then rest else r;
    assert DIRECTIVE[0] == 'd' && DIRECTIVE[|DIRECTIVE| - 1] == 'n';
    if core == "" {
      assert rest == l + r;
      assert DIRECTIVE + tail == DIRECTIVE;
    } else {
      assert (DIRECTIVE + tail)[|DIRECTIVE + tail| - 1] == core[|core| - 1];
    }
  }

  lemma StrippedBare(before: string, named: string, blank: string)
    requires AllIn(before, SPACES) && AllIn(blank, SPACES)
    requires Trimmed(named, SPACES) && named != "" && named[0] != '/'
    ensures Stripped(before + named + blank) == named
  {
    TrimOf(before, named, blank, SPACES);
    TrimOf("", named, "", SPACES);
    assert "" + named + "" == named;
  }

  lemma StrippedSlashed(before: string, slashes: string, gap: string, named: string, blank: string)
    requires AllIn(before, SPACES) && slashes == "//" && AllIn(gap, SPACES) && AllIn(blank, SPACES)
    requires Trimmed(named, SPACES) && named != ""
    ensures Stripped(before + (slashes + (gap + named)) + blank) == named
  {
    var trimmed := slashes + (gap + named);
    TrimOf(gap, named, "", SPACES);
    assert gap + named + "" == gap + named;
    assert trimmed[0] == '/' && trimmed[|trimmed| - 1] == named[|named| - 1];
    TrimOf(before, trimmed, blank, SPACES);
    assert trimmed[2..] == gap + named;
  }

  lemma Bring(a: string, b: string, c: string, d: string, e: string, f: string)
    ensures a + b + c + d + (e + f) == a + (b + (c + (d + e))) + f
    ensures a + "" + c + d + (e + f) == (a + c) + (d + e) + f
  {
    assert a + "" == a;
  }

  lemma DirectiveGivesReason(text: string, before: string, slashes: string, gap: string, rest: string)
    requires IsDirective(text, before, slashes, gap, rest)
    ensures Reason(text) == Some(Trim(rest, SPACES))
  {
    var tail, blank := RestCuts(rest);
    TrimBeforeBlank(tail, blank);
    Bring(before, slashes, gap, DIRECTIVE, tail, blank);
    assert (DIRECTIVE + tail)[0] == 'd';
    if slashes == "" {
      BlanksAppend(before, gap);
      StrippedBare(before + gap, DIRECTIVE + tail, blank);
    } else {
      StrippedSlashed(before, slashes, gap, DIRECTIVE + tail, blank);
    }
    assert (DIRECTIVE + tail)[|DIRECTIVE|..] == tail;
  }

  /** A comment is a directive exactly when the name of the directive begins its text, after slashes and
      blanks; the reason is what follows it, trimmed. */
  lemma ReasonExactly(text: string, reason: string)
    ensures Reason(text) == Some(reason) <==>
              exists before, slashes, gap, rest ::
                IsDirective(text, before, slashes, gap, rest) && reason == Trim(rest, SPACES)
  {
    if Reason(text) == Some(reason) {
      var before, slashes, gap, rest := ReasonIsGiven(text);
    }
    if before, slashes, gap, rest :|
      IsDirective(text, before, slashes, gap, rest) && reason == Trim(rest, SPACES) {
      DirectiveGivesReason(text, before, slashes, gap, rest);
    }
  }

  predicate NoDirective(texts: seq<string>) {
    forall i :: 0 <= i < |texts| ==> Reason(texts[i]).None?
  }

  /** The first directive of these gives this reason. */
  ghost predicate GivesFirst(texts: seq<string>, reason: string) {
    exists i :: GivesAt(texts, i, reason)
  }

  predicate GivesAt(texts: seq<string>, i: int, reason: string) {
    0 <= i < |texts| && Reason(texts[i]) == Some(reason) && NoDirective(texts[..i])
  }

  lemma GivesAtTail(texts: seq<string>, i: int, reason: string)
    requires texts != [] && Reason(texts[0]).None?
    ensures GivesAt(texts, i, reason) <==> GivesAt(texts[1..], i - 1, reason)
  {
    if 0 < i < |texts| {
      assert texts[..i] == [texts[0]] + texts[1..][..i - 1];
    }
  }

  lemma GivesFirstTail(texts: seq<string>, reason: string)
    requires texts != [] && Reason(texts[0]).None?
    ensures GivesFirst(texts, reason) <==> GivesFirst(texts[1..], reason)
  {
    if i :| GivesAt(texts[1..], i, reason) {
      GivesAtTail(texts, i + 1, reason);
    }
    if i :| GivesAt(texts, i, reason) {
      GivesAtTail(texts, i, reason);
    }
  }

  lemma {:induction false} FirstReasonExactly(texts: seq<string>, reason: string)
    ensures FirstReason(texts) == Some(reason) <==> GivesFirst(texts, reason)
  {
    if texts == [] {
    } else if Reason(texts[0]).Some? {
      if Reason(texts[0]) == Some(reason) {
        assert GivesAt(texts, 0, reason);
      }
      assert forall i :: 0 < i <= |texts| ==> texts[..i][0] == texts[0];
    } else {
      FirstReasonExactly(texts[1..], reason);
      GivesFirstTail(texts, reason);
    }
  }

  /** The group is no documentation of the unit and stands on its first or its last line. */
  predicate Beside(unit: Unit, group: Comments) {
    group.line in {unit.line, unit.endLine} && unit.doc != Some(group)
  }

  /** The first group beside the unit that has a directive gives this reason. */
  ghost predicate GroupGives(unit: Unit, comments: seq<Comments>, reason: string) {
    exists k :: GroupGivesAt(unit, comments, k, reason)
  }

  ghost predicate GroupGivesAt(unit: Unit, comments: seq<Comments>, k: int, reason: string) {
    && 0 <= k < |comments| && Beside(unit, comments[k]) && GivesFirst(comments[k].texts, reason)
    && NoneBeside(unit, comments[..k])
  }

  predicate NoneBeside(unit: Unit, comments: seq<Comments>) {
    forall k :: 0 <= k < |comments| && Beside(unit, comments[k]) ==> NoDirective(comments[k].texts)
  }

  lemma GroupGivesAtTail(unit: Unit, comments: seq<Comments>, k: int, reason: string)
    requires comments != [] && (Beside(unit, comments[0]) ==> NoDirective(comments[0].texts))
    ensures GroupGivesAt(unit, comments, k, reason) <==> GroupGivesAt(unit, comments[1..], k - 1, reason)
  {
    if 0 < k < |comments| {
      assert comments[..k] == [comments[0]] + comments[1..][..k - 1];
    }
  }

  lemma GroupGivesTail(unit: Unit, comments: seq<Comments>, reason: string)
    requires comments != [] && (Beside(unit, comments[0]) ==> NoDirective(comments[0].texts))
    ensures GroupGives(unit, comments, reason) <==> GroupGives(unit, comments[1..], reason)
  {
    if k :| GroupGivesAt(unit, comments[1..], k, reason) {
      GroupGivesAtTail(unit, comments, k + 1, reason);
    }
    if k :| GroupGivesAt(unit, comments, k, reason) {
      GroupGivesAtTail(unit, comments, k, reason);
    }
  }

  lemma GroupGivesHead(unit: Unit, comments: seq<Comments>, reason: string)
    requires comments != [] && Beside(unit, comments[0]) && !NoDirective(comments[0].texts)
    ensures GroupGives(unit, comments, reason) <==> GivesFirst(comments[0].texts, reason)
  {
    if GivesFirst(comments[0].texts, reason) {
      assert GroupGivesAt(unit, comments, 0, reason);
    }
    assert forall k :: 0 < k <= |comments| ==> comments[..k][0] == comments[0];
  }

  lemma {:induction false} LineReasonExactly(unit: Unit, comments: seq<Comments>, reason: string)
    ensures FirstReason(LineComments(unit, comments)) == Some(reason) <==> GroupGives(unit, comments, reason)
    decreases |comments|
  {
    if comments != [] {
      var here := if AtUnit(unit, comments[0]) then comments[0].texts else [];
      LineReasonExactly(unit, comments[1..], reason);
      if Beside(unit, comments[0]) && !NoDirective(comments[0].texts) {
        GroupGivesHead(unit, comments, reason);
      } else {
        GroupGivesTail(unit, comments, reason);
      }
      FirstReasonAppend(here, LineComments(unit, comments[1..]));
      FirstReasonExactly(here, reason);
    }
  }

  /** A unit's directive is the first in its documentation, or, if that has none, the first in the first
      group beside the unit that has one. */
  lemma DirectiveExactly(unit: Unit, comments: seq<Comments>, reason: string)
    ensures FirstReason(NearbyComments(unit, comments)) == Some(reason) <==>
              || (unit.doc.Some? && GivesFirst(unit.doc.value.texts, reason))
              || ((unit.doc.Some? ==> NoDirective(unit.doc.value.texts)) && GroupGives(unit, comments, reason))
  {
    var doc := if unit.doc.Some? then unit.doc.value.texts else [];
    FirstReasonAppend(doc, LineComments(unit, comments));
    FirstReasonExactly(doc, reason);
    LineReasonExactly(unit, comments, reason);
  }

  // ---- returns of one expression ----

  /** A return of one expression is judged by the first position alone. */
  lemma OneExpressionExactly(indexes: seq<nat>, e: Node)
    ensures IsErrorReturn(indexes, [e]) <==> 0 in indexes && e != Ident("nil")
  {
    if 0 in indexes && e != Ident("nil") {
      var i :| 0 <= i < |indexes| && indexes[i] == 0;
      assert [e][indexes[i]] == e;
    }
  }

  /** So `return f()`, for all results at once, is an error return exactly when the first is an error. */
  lemma ForwardedExactly(results: seq<bool>, call: Node)
    requires call.Call?
    ensures IsErrorReturn(ErrorResults(results), [call]) <==> results != [] && results[0]
  {
    OneExpressionExactly(ErrorResults(results), call);
    assert 0 in ErrorResults(results) <==> 0 < |results| && results[0];
  }

  /** A function of results (T, error) that logs an error and then does `return f()`. */
  function Forwarding(): Unit {
    Unit("forwarding", 1, 4, None, ErrorResults([false, true]),
         Other([Call(2, Selector("Error", Some(LOGGING), None), []), Return(3, [Call(3, NoSelector, [])])]))
  }

  lemma ForwardingOwns()
    ensures var log, call := Call(2, Selector("Error", Some(LOGGING), None), []), Call(3, NoSelector, []);
            Own(Forwarding().body) == [log, Return(3, [call]), call]
  {
    var log, call := Call(2, Selector("Error", Some(LOGGING), None), []), Call(3, NoSelector, []);
    var ret := Return(3, [call]);
    assert Own(log) == [log] + [] && Own(call) == [call] + [];
    Alone(call, true);
    Alone(ret, true);
    assert Own(ret) == [ret] + [call];
    assert [log, ret][1..] == [ret];
    assert OwnOf([log, ret]) == [log] + ([ret] + [call]);
  }

  lemma ForwardingErrors()
    ensures ErrorResults([false, true]) == [1]
  {
    assert [false, true][..1] == [false] && [false][..0] == [];
    assert ErrorResults([false]) == [] + [];
    assert ErrorResults([false, true]) == [] + [1];
  }

  lemma ErrorIsLogged()
    ensures IsLoggingCall(Selector("Error", Some(LOGGING), None))
  {
    assert LOGGING_SINKS[0].methods[0] == "Error";
    assert Matches(LOGGING_SINKS[0], Selector("Error", Some(LOGGING), None));
  }

  lemma ForwardingIsClean()
    ensures Logs(Own(Forwarding().body)) && !ReturnsError([1], Own(Forwarding().body))
  {
    ForwardingOwns();
    ErrorIsLogged();
    var own := Own(Forwarding().body);
    assert own[0].Call?;
    OneExpressionExactly([1], own[2]);
  }

  /** It logs, it may return the error it got, and nothing is reported. */
  lemma ForwardedErrorExample()
    ensures Logs(Own(Forwarding().body)) && Forwarding().errorResults == [1]
    ensures Findings(Forwarding(), []) == []
  {
    ForwardingErrors();
    ForwardingIsClean();
    assert NearbyComments(Forwarding(), []) == [];
    assert FirstReason([]) == None;
  }

  /** A function of results (T, error) that logs an error and then does `return nil, err`. */
  function Returning(): Unit {
    Unit("returning", 1, 4, None, ErrorResults([false, true]),
         Other([Call(2, Selector("Error", Some(LOGGING), None), []), Return(3, [Ident("nil"), Ident("err")])]))
  }

  lemma ReturningOwns()
    ensures Own(Returning().body) == [Call(2, Selector("Error", Some(LOGGING), None), []),
                                      Return(3, [Ident("nil"), Ident("err")])]
  {
    var log, ret := Call(2, Selector("Error", Some(LOGGING), None), []), Return(3, [Ident("nil"), Ident("err")]);
    assert [Ident("nil"), Ident("err")][1..] == [Ident("err")];
    assert OwnOf([Ident("err")]) == [] + [] && OwnOf([Ident("nil"), Ident("err")]) == [] + [];
    assert Own(log) == [log] + [] && Own(ret) == [ret] + [];
    Alone(ret, true);
    assert [log, ret][1..] == [ret];
    assert OwnOf([log, ret]) == [log] + [ret];
  }

  lemma NilAndError()
    ensures GivesError([false, true], [Ident("nil"), Ident("err")])
  {
    var returned := [Ident("nil"), Ident("err")];
    assert "nil"[0] == 'n' && "err"[0] == 'e';
    assert [false, true][1] && returned[1] != Ident("nil");
  }

  lemma ReturningLogsAndReturns()
    ensures Logs(Own(Returning().body)) && ReturnsError(Returning().errorResults, Own(Returning().body))
  {
    ReturningOwns();
    ErrorIsLogged();
    var own := Own(Returning().body);
    assert own[0].Call? && own[1].Return?;
    NilAndError();
    ErrorReturnExactly([false, true], own[1].parts);
  }

  /** It is reported. */
  lemma ReturnedErrorExample()
    ensures Findings(Returning(), []) == [LogsAndReturns(1, "returning")]
  {
    ReturningLogsAndReturns();
    assert NearbyComments(Returning(), []) == [];
    assert FirstReason([]) == None;
    assert [] + [LogsAndReturns(1, "returning")] == [LogsAndReturns(1, "returning")];
  }

  // ---- every call and return belongs to one unit ----

  /** The calls and returns inside function bodies; `inside` says whether the tree itself is. */
  function InBody(n: Node, inside: bool): seq<Node> {
    match n
    case Call(_, _, parts) => (if inside then [n] else []) + InBodyOf(parts, inside)
    case Return(_, parts) => (if inside then [n] else []) + InBodyOf(parts, inside)
    case Ident(_) => []
    case FuncLit(_, _, _, header, body) => InBodyOf(header, inside) + InBody(body, true)
    case Other(parts) => InBodyOf(parts, inside)
  }

  function InBodyOf(ns: seq<Node>, inside: bool): seq<Node> {
    if ns == [] then [] else InBody(ns[0], inside) + InBodyOf(ns[1..], inside)
  }

  /** Those in the header of a literal that is itself inside a function body. */
  function Orphans(n: Node, inside: bool): seq<Node> {
    match n
    case Call(_, _, parts) => OrphansOf(parts, inside)
    case Return(_, parts) => OrphansOf(parts, inside)
    case Ident(_) => []
    case FuncLit(_, _, _, header, body) =>
      (if inside then OwnOf(header) else []) + OrphansOf(header, inside) + Orphans(body, true)
    case Other(parts) => OrphansOf(parts, inside)
  }

  function OrphansOf(ns: seq<Node>, inside: bool): seq<Node> {
    if ns == [] then [] else Orphans(ns[0], inside) + OrphansOf(ns[1..], inside)
  }

  function OwnOfUnits(units: seq<Unit>): seq<Node> {
    if units == [] then [] else Own(units[0].body) + OwnOfUnits(units[1..])
  }

  lemma {:induction false} OwnOfUnitsAppend(a: seq<Unit>, b: seq<Unit>)
    ensures OwnOfUnits(a + b) == OwnOfUnits(a) + OwnOfUnits(b)
  {
    if a == [] {
      assert a + b == b;
    } else {
      OwnOfUnitsAppend(a[1..], b);
      assert (a + b)[1..] == a[1..] + b && (a + b)[0] == a[0];
      Regroup(Own(a[0].body), OwnOfUnits(a[1..]), OwnOfUnits(b));
    }
  }

  lemma OwnOfOne(unit: Unit)
    ensures OwnOfUnits([unit]) == Own(unit.body)
  {
    assert [unit][1..] == [];
    assert Own(unit.body) + [] == Own(unit.body);
  }

  lemma LiteralOwns(n: Node)
    requires n.FuncLit?
    ensures OwnOfUnits(Units(n)) == Own(n.body) + OwnOfUnits(UnitsOf(n.header)) + OwnOfUnits(Units(n.body))
  {
    OwnOfUnitsAppend([LiteralUnit(n)] + UnitsOf(n.header), Units(n.body));
    OwnOfUnitsAppend([LiteralUnit(n)], UnitsOf(n.header));
    OwnOfOne(LiteralUnit(n));
  }

  lemma LiteralPartition(n: Node, inside: bool)
    requires n.FuncLit?
    requires multiset(InBodyOf(n.header, inside)) == multiset(if inside then OwnOf(n.header) else [])
               + multiset(OwnOfUnits(UnitsOf(n.header))) + multiset(OrphansOf(n.header, inside))
    requires multiset(InBody(n.body, true)) ==
               multiset(Own(n.body)) + multiset(OwnOfUnits(Units(n.body))) + multiset(Orphans(n.body, true))
    ensures multiset(InBody(n, inside)) == multiset(OwnOfUnits(Units(n))) + multiset(Orphans(n, inside))
  {
    LiteralOwns(n);
    assert InBody(n, inside) == InBodyOf(n.header, inside) + InBody(n.body, true);
    var orphans := if inside then OwnOf(n.header) else [];
    assert Orphans(n, inside) == orphans + OrphansOf(n.header, inside) + Orphans(n.body, true);
  }

  lemma PartsPartition(n: Node, inside: bool)
    requires n.Call? || n.Return? || n.Other?
    requires multiset(InBodyOf(n.parts, inside)) == multiset(if inside then OwnOf(n.parts) else [])
               + multiset(OwnOfUnits(UnitsOf(n.parts))) + multiset(OrphansOf(n.parts, inside))
    ensures multiset(InBody(n, inside)) ==
              multiset(if inside then Own(n) else []) + multiset(OwnOfUnits(Units(n))) + multiset(Orphans(n, inside))
  {
    assert !inside || n.Other? ==> InBody(n, inside) == InBodyOf(n.parts, inside);
    if inside && !n.Other? {
      AddOne(n, InBodyOf(n.parts, inside), OwnOf(n.parts), OwnOfUnits(UnitsOf(n.parts)), OrphansOf(n.parts, inside));
    }
  }

  lemma AddOne<T>(x: T, all: seq<T>, own: seq<T>, units: seq<T>, orphans: seq<T>)
    requires multiset(all) == multiset(own) + multiset(units) + multiset(orphans)
    ensures multiset([x] + all) == multiset([x] + own) + multiset(units) + multiset(orphans)
  {
  }

  /** Inside a body, a call or return is the body's own, or of a unit further in, or an orphan. */
  lemma {:induction false} NodePartition(n: Node, inside: bool)
    ensures multiset(InBody(n, inside)) ==
              multiset(if inside then Own(n) else []) + multiset(OwnOfUnits(Units(n))) + multiset(Orphans(n, inside))
    decreases n
  {
    if n.FuncLit? {
      NodesPartition(n.header, inside);
      NodePartition(n.body, true);
      LiteralPartition(n, inside);
    } else if !n.Ident? {
      NodesPartition(n.parts, inside);
      PartsPartition(n, inside);
    }
  }

  lemma {:induction false} NodesPartition(ns: seq<Node>, inside: bool)
    ensures multiset(InBodyOf(ns, inside)) ==
              multiset(if inside then OwnOf(ns) else []) + multiset(OwnOfUnits(UnitsOf(ns)))
              + multiset(OrphansOf(ns, inside))
    decreases ns
  {
    if ns != [] {
      NodePartition(ns[0], inside);
      NodesPartition(ns[1..], inside);
      OwnOfUnitsAppend(Units(ns[0]), UnitsOf(ns[1..]));
    }
  }

  function DeclInBody(d: Decl): seq<Node> {
    match d
    case GenDecl(parts) => InBodyOf(parts, false)
    case FuncDecl(_, _, _, _, _, header, body) =>
      InBodyOf(header, false) + (if body.Some? then InBody(body.value, true) else [])
  }

  function DeclOrphans(d: Decl): seq<Node> {
    match d
    case GenDecl(parts) => OrphansOf(parts, false)
    case FuncDecl(_, _, _, _, _, header, body) =>
      OrphansOf(header, false) + (if body.Some? then Orphans(body.value, true) else [])
  }

  function FileInBody(decls: seq<Decl>): seq<Node> {
    if decls == [] then [] else DeclInBody(decls[0]) + FileInBody(decls[1..])
  }

  function FileOrphans(decls: seq<Decl>): seq<Node> {
    if decls == [] then [] else DeclOrphans(decls[0]) + FileOrphans(decls[1..])
  }

  lemma DeclPartition(d: Decl)
    ensures multiset(DeclInBody(d)) == multiset(OwnOfUnits(DeclUnits(d))) + multiset(DeclOrphans(d))
  {
    match d
    case GenDecl(parts) => NodesPartition(parts, false);
    case FuncDecl(name, line, endLine, doc, results, header, body) =>
      NodesPartition(header, false);
      if body.Some? {
        var unit := Unit(name, line, endLine, doc, ErrorResults(results), body.value);
        NodePartition(body.value, true);
        OwnOfUnitsAppend([unit] + UnitsOf(header), Units(body.value));
        OwnOfUnitsAppend([unit], UnitsOf(header));
      }
  }

  /** Across a file, the calls and returns inside function bodies are, each once, the own ones of the
      collected units and the orphans. */
  lemma {:induction false} FilePartition(decls: seq<Decl>)
    ensures multiset(FileInBody(decls)) == multiset(OwnOfUnits(FileUnits(decls))) + multiset(FileOrphans(decls))
    decreases |decls|
  {
    if decls != [] {
      DeclPartition(decls[0]);
      FilePartition(decls[1..]);
      OwnOfUnitsAppend(DeclUnits(decls[0]), FileUnits(decls[1..]));
    }
  }

  /** The units' own calls and returns are exactly those inside function bodies, unless the header of a
      literal inside a body holds any. */
  lemma PartitionExactly(decls: seq<Decl>)
    ensures multiset(FileInBody(decls)) == multiset(OwnOfUnits(FileUnits(decls))) <==> FileOrphans(decls) == []
  {
    FilePartition(decls);
    if FileOrphans(decls) != [] {
      assert FileOrphans(decls)[0] in multiset(FileOrphans(decls));
    }
  }

  predicate OwnedBy(units: seq<Unit>, u: int, x: Node) {
    && 0 <= u < |units| && x in Own(units[u].body)
    && forall v :: 0 <= v < |units| && v != u ==> x !in Own(units[v].body)
  }

  lemma {:induction false} OwnedBySome(units: seq<Unit>, x: Node) returns (u: nat)
    requires multiset(OwnOfUnits(units))[x] == 1
    ensures OwnedBy(units, u, x)
    decreases |units|
  {
    var own, rest := Own(units[0].body), OwnOfUnits(units[1..]);
    assert multiset(own + rest)[x] == multiset(own)[x] + multiset(rest)[x];
    if x in own {
      u := 0;
      assert multiset(own)[x] > 0;
      forall v | 0 < v < |units| ensures x !in Own(units[v].body) {
        if x in Own(units[v].body) {
          OwnIsIncluded(units[1..], v - 1, x);
        }
      }
    } else {
      u := OwnedBySome(units[1..], x);
      u := u + 1;
    }
  }

  lemma {:induction false} OwnIsIncluded(units: seq<Unit>, v: nat, x: Node)
    requires v < |units| && x in Own(units[v].body)
    ensures multiset(OwnOfUnits(units))[x] > 0
    decreases |units|
  {
    var own, rest := Own(units[0].body), OwnOfUnits(units[1..]);
    assert multiset(own + rest)[x] == multiset(own)[x] + multiset(rest)[x];
    if v > 0 {
      OwnIsIncluded(units[1..], v - 1, x);
    } else {
      assert x in multiset(own);
    }
  }

  /** Every call or return that occurs once inside function bodies and is no orphan belongs to exactly
      one collected unit. */
  lemma BelongsToOneUnit(decls: seq<Decl>, x: Node)
    requires multiset(FileInBody(decls))[x] == 1 && x !in FileOrphans(decls)
    ensures var units := FileUnits(decls);
            exists u :: OwnedBy(units, u, x)
  {
    FilePartition(decls);
    assert multiset(FileOrphans(decls))[x] == 0;
    var u := OwnedBySome(FileUnits(decls), x);
  }

  /** What the language lets stand in such a header is constant: no return and no logging call. */
  predicate ConstantHeaders(decls: seq<Decl>) {
    forall x :: x in FileOrphans(decls) ==> x.Call? && !IsLoggingCall(x.callee)
  }

  lemma CountWithout<T>(whole: multiset<T>, part: multiset<T>, rest: seq<T>, x: T)
    requires whole == part + multiset(rest) && x !in rest
    ensures whole[x] == part[x]
  {
    assert multiset(rest)[x] == 0;
  }

  /** So each return and each logging call inside a body is some unit's own, as often as it occurs. */
  lemma NoneThatCountsIsMissed(decls: seq<Decl>, x: Node)
    requires ConstantHeaders(decls) && (x.Return? || (x.Call? && IsLoggingCall(x.callee)))
    ensures multiset(FileInBody(decls))[x] == multiset(OwnOfUnits(FileUnits(decls)))[x]
  {
    FilePartition(decls);
    CountWithout(multiset(FileInBody(decls)), multiset(OwnOfUnits(FileUnits(decls))), FileOrphans(decls), x);
  }

  /** `len("ab")`, a constant. */
  const LENGTH := Call(2, NoSelector, [Ident("len"), Other([])])

  lemma LengthIsOne(inside: bool)
    ensures Own(LENGTH) == [LENGTH] && Units(LENGTH) == []
    ensures InBody(LENGTH, inside) == if inside then [LENGTH] else []
  {
    var text := Other([]);
    assert [Ident("len"), text][1..] == [text];
    Alone(text, inside);
    assert OwnOf([Ident("len"), text]) == [] + [] && UnitsOf([Ident("len"), text]) == [] + [];
    assert InBodyOf([Ident("len"), text], inside) == [] + [];
  }

  /** `func(a [len("ab")]int) {}`, and a body that is only this. */
  const LITERAL := FuncLit(2, 2, [], [LENGTH], Other([]))
  const BODY := Other([LITERAL])

  lemma BodyHoldsLength()
    ensures InBody(BODY, true) == [LENGTH]
  {
    LengthIsOne(true);
    Alone(LENGTH, true);
    Alone(LITERAL, true);
    assert InBody(Other([]), true) == [];
    assert InBody(LITERAL, true) == [LENGTH] + [];
  }

  lemma BodyOwnsNothing()
    ensures Own(BODY) == [] && Own(LITERAL.body) == []
  {
    Alone(LITERAL, true);
  }

  lemma BodyUnits()
    ensures Units(BODY) == [LiteralUnit(LITERAL)]
  {
    LengthIsOne(true);
    Alone(LENGTH, true);
    Alone(LITERAL, true);
    assert Units(Other([])) == [];
    assert Units(LITERAL) == [LiteralUnit(LITERAL)] + [] + [];
  }

  lemma DeclAlone(d: Decl)
    ensures FileInBody([d]) == DeclInBody(d) && FileUnits([d]) == DeclUnits(d)
  {
    assert [d][1..] == [];
    assert DeclInBody(d) + [] == DeclInBody(d) && DeclUnits(d) + [] == DeclUnits(d);
  }

  lemma TwoUnitsOwnNothing(a: Unit, b: Unit)
    requires Own(a.body) == [] && Own(b.body) == []
    ensures OwnOfUnits([a, b]) == []
  {
    assert [a, b][1..] == [b] && [b][1..] == [];
    assert OwnOfUnits([b]) == [] + [];
  }

  /** The call in the array length of such a literal inside a function is examined with neither. */
  lemma OrphanExample()
    ensures var decls := [FuncDecl("g", 1, 3, None, [], [], Some(BODY))];
            LENGTH in FileInBody(decls) && LENGTH !in OwnOfUnits(FileUnits(decls))
  {
    var d := FuncDecl("g", 1, 3, None, [], [], Some(BODY));
    var unit := Unit("g", 1, 3, None, [], BODY);
    DeclAlone(d);
    BodyHoldsLength();
    assert DeclInBody(d) == [] + [LENGTH];
    BodyUnits();
    assert DeclUnits(d) == [unit] + [] + [LiteralUnit(LITERAL)];
    BodyOwnsNothing();
    TwoUnitsOwnNothing(unit, LiteralUnit(LITERAL));
    assert DeclUnits(d) == [unit, LiteralUnit(LITERAL)];
  }

  lemma Alone(n: Node, inside: bool)
    ensures OwnOf([n]) == Own(n) && UnitsOf([n]) == Units(n) && InBodyOf([n], inside) == InBody(n, inside)
  {
    assert Own(n) + [] == Own(n) && Units(n) + [] == Units(n) && InBody(n, inside) + [] == InBody(n, inside);
  }
}
