/**
 * The render transport of `src/plantuml/renders/httpWrapper.ts`.
 *
 * `httpWrapper` accepts "GET" or "POST" and, either way, POSTs a fixed JSON record to
 * `<server>/json`. The closed-over state of the request (received chunks, their total
 * length, the response, the recorded error) is an `Exchange` object whose methods are the
 * event handlers; `OnClose` is `closeCallback`, which settles the promise by a fixed
 * priority of checks. What the network delivered is given as a list of events.
 *
 * `diagramStartReg.test` is the parameter `isStart`; a JavaScript number holding an
 * integer is an `Option<int>` (`None` is NaN), and a value a template literal prints as
 * "undefined" is an `Option` whose `None` prints so.
 */
module HttpWrapper {
  import opened Base
  import opened JsText
  import opened Include

  // ---------------------------------------------------------------- the method switch

  /** The message of `ERROR_405`. */
  const Error405Message: string := "HTTP method POST is not supported by this URL"

  /** The method and path the request is actually sent with. */
  datatype Route = Route(verb: string, path: string)

  /** The `switch (method)` and the override after it: "GET" and "POST" are both sent as a
      POST to `[server, "json"].join("/")`; any other method is rejected. */
  function RequestRoute(requestMethod: string, server: string): (r: Result<Route, string>)
    ensures r.Ok? <==> requestMethod == "GET" || requestMethod == "POST"
    ensures r.Ok? ==> r.value.verb == "POST" && IsPrefix(server, r.value.path) && r.value.path[|server|..] == "/json"
    ensures r.Err? ==> r.error == "Unsupported request method: " + requestMethod
  {
    if requestMethod == "GET" || requestMethod == "POST" then Ok(Route("POST", server + "/json"))
    else Err("Unsupported request method: " + requestMethod)
  }

  /** Which accepted method the caller asked for makes no difference to the request. */
  lemma RouteIgnoresMethod(server: string)
    ensures RequestRoute("GET", server) == RequestRoute("POST", server)
  {
  }

  // ---------------------------------------------------------------- createJson

  /** The record `createJson` stringifies, field by field. */
  datatype JsonRequest = JsonRequest(responseFormat: string, inputFormat: string, archiveType: string, mainFile: string, data: string)

  /** `createJson(format, mainF, dataStr)`: the format upper-cased, the two fixed fields,
      and the other two arguments copied. */
  function CreateJson(format: string, mainFile: string, data: string): (r: JsonRequest)
    ensures |r.responseFormat| == |format| && AsciiLower(r.responseFormat) == AsciiLower(format)
    ensures forall k :: 0 <= k < |r.responseFormat| ==> !('a' <= r.responseFormat[k] <= 'z')
    ensures r.inputFormat == "ARCHIVE" && r.archiveType == "AUTO_DETECT"
    ensures r.mainFile == mainFile && r.data == data
  {
    JsonRequest(AsciiUpper(format), "ARCHIVE", "AUTO_DETECT", mainFile, data)
  }

  /** Upper-casing only depends on the letters up to case. */
  lemma {:induction false} UpperOfLower(s: string)
    ensures AsciiUpper(AsciiLower(s)) == AsciiUpper(s)
  {
    if s != [] {
      UpperOfLower(s[1..]);
      assert AsciiLower(s)[1..] == AsciiLower(s[1..]);
    }
  }

  /** Formats that differ only in letter case ("png", "PNG") give the same request. */
  lemma CreateJsonIgnoresCase(f1: string, f2: string, mainFile: string, data: string)
    requires AsciiLower(f1) == AsciiLower(f2)
    ensures CreateJson(f1, mainFile, data) == CreateJson(f2, mainFile, data)
  {
    UpperOfLower(f1);
    UpperOfLower(f2);
  }

  // ---------------------------------------------------------------- parsePlantumlError

  /** A JavaScript number holding an integer, plus `k` (NaN stays NaN). */
  function Add(n: Option<int>, k: int): Option<int> {
    match n
    case None => None
    case Some(v) => Some(v + k)
  }

  /** A possibly `undefined` string as a template literal or `parseInt` sees it. */
  function OrUndefined(s: Option<string>): string {
    match s
    case None => "undefined"
    case Some(v) => v
  }

  /** `lines[k]` as a template literal prints it: "undefined" for NaN or an index outside. */
  function LineAt(lines: seq<string>, k: Option<int>): (r: string)
    ensures k.Some? && 0 <= k.value < |lines| ==> r == lines[k.value]
    ensures k.None? || k.value < 0 || k.value >= |lines| ==> r == "undefined"
  {
    if k.Some? && 0 <= k.value < |lines| then lines[k.value] else "undefined"
  }

  /** `lines[0]`, or the text `test` sees for `undefined`. */
  function FirstLine(lines: seq<string>): string {
    if |lines| > 0 then lines[0] else "undefined"
  }

  /** A line made of white space only, so that its `trim()` is empty (falsy); see
      `BlankIsTrimmedEmpty`. */
  predicate IsBlank(line: string) {
    AllSpace(line)
  }

  lemma BlankIsTrimmedEmpty(line: string)
    ensures IsBlank(line) <==> Trim(line) == ""
  {
  }

  /** `n` is the length of the run of blank lines starting at index `i`. */
  predicate BlankRun(lines: seq<string>, i: nat, n: nat) {
    && (n == 0 || i + n <= |lines|)
    && (forall k :: i <= k < i + n ==> IsBlank(lines[k]))
    && (i + n < |lines| ==> !IsBlank(lines[i + n]))
  }

  /** The length of the run of blank lines starting at index `i`. */
  function BlanksFrom(lines: seq<string>, i: nat): (n: nat)
    decreases |lines| - i
    ensures BlankRun(lines, i, n)
  {
    if i >= |lines| || !IsBlank(lines[i]) then 0 else 1 + BlanksFrom(lines, i + 1)
  }

  /** A run of blank lines has only one length. */
  lemma BlankRunUnique(lines: seq<string>, i: nat, m: nat, n: nat)
    requires BlankRun(lines, i, m) && BlankRun(lines, i, n)
    ensures m == n
  {
  }

  /** Where a reported error sits: the line shown as "Diagram Line", the line in the
      containing file, and the quoted content. */
  datatype ErrorPosition = ErrorPosition(diagramLine: Option<int>, fileLine: Option<int>, content: string)

  /** The arithmetic of `parsePlantumlError`: one more when the first line is a start
      marker, then the blank lines after the first line, then the diagram's start line;
      the content is taken before the start line is added. */
  function MapErrorLine(lines: seq<string>, startLine: int, reported: Option<int>, isStart: string -> bool): ErrorPosition {
    var line := if isStart(FirstLine(lines)) then Add(reported, 1) else reported;
    var inDiagram := Add(line, BlanksFrom(lines, 1));
    ErrorPosition(line, Add(inDiagram, startLine), LineAt(lines, Add(inDiagram, -1)))
  }

  /** The message: `${error} (@ Diagram Line ${line}, File Line ${fileLine})\n"${lineContent}"\n${description}\n`. */
  function FormatError(error: string, p: ErrorPosition, description: Option<string>): string {
    error + " (@ Diagram Line " + NumberText(p.diagramLine) + ", File Line " + NumberText(p.fileLine) + ")\n\""
      + p.content + "\"\n" + OrUndefined(description) + "\n"
  }

  /** `parsePlantumlError(error, line, description, diagram)`. */
  method ParsePlantumlError(error: string, line: Option<int>, description: Option<string>, diagram: Diagram, isStart: string -> bool)
    returns (message: string)
    ensures message == FormatError(error, MapErrorLine(diagram.lines, diagram.startLine, line, isStart), description)
  {
    var lines := diagram.lines;
    var diagramLine := line;
    if isStart(FirstLine(lines)) {
      diagramLine := Add(diagramLine, 1);
    }
    var fileLine := diagramLine;
    var blankLineCount := 0;
    var i := 1;
    while i < |lines|
      invariant 1 <= i && (|lines| == 0 ==> i == 1) && (|lines| > 0 ==> i <= |lines|)
      invariant blankLineCount == i - 1
      invariant forall k :: 1 <= k < i ==> IsBlank(lines[k])
    {
      if !IsBlank(lines[i]) {
        break;
      }
      blankLineCount := blankLineCount + 1;
      i := i + 1;
    }
    BlankRunUnique(lines, 1, blankLineCount, BlanksFrom(lines, 1));
    fileLine := Add(fileLine, blankLineCount);
    var lineContent := LineAt(lines, Add(fileLine, -1));
    fileLine := Add(fileLine, diagram.startLine);
    message := FormatError(error, ErrorPosition(diagramLine, fileLine, lineContent), description);
  }

  /** "Diagram Line" is the reported line plus one exactly when the first line is a start
      marker, and the reported line otherwise; NaN stays NaN. */
  lemma DiagramLineShift(lines: seq<string>, startLine: int, reported: Option<int>, isStart: string -> bool)
    ensures var p := MapErrorLine(lines, startLine, reported, isStart);
      && (reported.None? ==> p.diagramLine.None? && p.fileLine.None? && p.content == "undefined")
      && (reported.Some? ==> (p.diagramLine == Some(reported.value + 1) <==> isStart(FirstLine(lines))))
      && (reported.Some? ==> (p.diagramLine == Some(reported.value) <==> !isStart(FirstLine(lines))))
  {
  }

  /** "File Line" adds to "Diagram Line" the blank lines that follow the first line (the first
      is never counted) and the start line; the content is the line at the position before
      the start line is added, counted from one. */
  lemma FileLineCountsBlanks(lines: seq<string>, startLine: int, reported: int, isStart: string -> bool, blanks: nat)
    requires BlankRun(lines, 1, blanks)
    ensures var p := MapErrorLine(lines, startLine, Some(reported), isStart);
      && p.diagramLine.Some? && p.fileLine == Some(p.diagramLine.value + blanks + startLine)
      && (1 <= p.diagramLine.value + blanks <= |lines| ==> p.content == lines[p.diagramLine.value + blanks - 1])
  {
    BlankRunUnique(lines, 1, blanks, BlanksFrom(lines, 1));
  }

  /** A start marker, two blank lines and a reported line 5: the message shows Diagram
      Line 6 and File Line 8 plus the start line, and quotes `lines[7]`. */
  lemma MarkerAndTwoBlanks(lines: seq<string>, startLine: int, isStart: string -> bool)
    requires |lines| >= 8 && isStart(lines[0])
    requires IsBlank(lines[1]) && IsBlank(lines[2]) && !IsBlank(lines[3])
    ensures MapErrorLine(lines, startLine, Some(5), isStart) == ErrorPosition(Some(6), Some(8 + startLine), lines[7])
  {
    assert BlankRun(lines, 1, 2);
    FileLineCountsBlanks(lines, startLine, 5, isStart, 2);
  }

  /** The numbers in the message read back, with `parseInt`, as the mapped lines. */
  lemma MessageNumbersReadBack(p: ErrorPosition)
    ensures ParseInt(NumberText(p.diagramLine)) == p.diagramLine
    ensures ParseInt(NumberText(p.fileLine)) == p.fileLine
  {
    NumberTextRoundTrip(p.diagramLine);
    NumberTextRoundTrip(p.fileLine);
  }

  // ---------------------------------------------------------------- commonParent

  /** The longest common prefix of two strings. */
  function CommonPrefix(a: string, b: string): (r: string)
    ensures IsPrefix(r, a) && IsPrefix(r, b)
    ensures |r| == |a| || |r| == |b| || a[|r|] != b[|r|]
  {
    if a == [] || b == [] || a[0] != b[0] then [] else [a[0]] + CommonPrefix(a[1..], b[1..])
  }

  /** Every common prefix of the two strings is a prefix of `CommonPrefix`. */
  lemma {:induction false} CommonPrefixGreatest(a: string, b: string, p: string)
    requires IsPrefix(p, a) && IsPrefix(p, b)
    ensures IsPrefix(p, CommonPrefix(a, b))
  {
    if p != [] {
      assert a[0] == p[0] == b[0];
      CommonPrefixGreatest(a[1..], b[1..], p[1..]);
      assert p == [p[0]] + p[1..];
    }
  }

  /** `commonParent(path1, path2)`: characters of `path1` while they equal the ones of
      `path2` at the same index (`charAt` past the end of `path2` is "", which differs). */
  method CommonParent(path1: string, path2: string) returns (common: string)
    ensures common == CommonPrefix(path1, path2)
    ensures IsPrefix(common, path1) && IsPrefix(common, path2)
    ensures |common| == |path1| || |common| == |path2| || path1[|common|] != path2[|common|]
  {
    common := "";
    var i := 0;
    while i < |path1|
      invariant 0 <= i <= |path1| && common == path1[..i] && IsPrefix(common, path2)
      invariant IsPrefix(common, CommonPrefix(path1, path2))
    {
      if i < |path2| && path1[i] == path2[i] {
        assert path1[..i + 1] == common + [path1[i]];
        common := common + [path1[i]];
        CommonPrefixGreatest(path1, path2, common);
      } else {
        break;
      }
      i := i + 1;
    }
    CommonPrefixGreatest(path1, path2, common);
  }

  /** The common prefix of `start` and every name, taken in order. */
  function CommonPrefixOfAll(start: string, names: seq<string>): string
  {
    if names == [] then start else CommonPrefix(CommonPrefixOfAll(start, names[..|names| - 1]), names[|names| - 1])
  }

  /** The keys `for...in` visits on an array of `n` elements: "0", "1", …, "n-1". */
  function IndexKeys(n: nat): (r: seq<string>)
    ensures |r| == n && forall k :: 0 <= k < n ==> r[k] == NatText(k)
  {
    if n == 0 then [] else IndexKeys(n - 1) + [NatText(n - 1)]
  }

  /** The loop after `getIncludes`: `upperParent` starts at `diagram.path` and meets each key
      `for (let f in includes)` visits, which are the array's index strings, not its paths. */
  method UpperParent(path: string, includes: seq<Entry>) returns (upper: string)
    ensures upper == CommonPrefixOfAll(path, IndexKeys(|includes|))
    ensures IsPrefix(upper, path)
  {
    upper := path;
    var k := 0;
    while k < |includes|
      invariant 0 <= k <= |includes| && upper == CommonPrefixOfAll(path, IndexKeys(k))
    {
      NextIndexKey(path, k);
      upper := CommonParent(upper, NatText(k));
      k := k + 1;
    }
    CommonPrefixOfAllBound(path, IndexKeys(|includes|), upper);
  }

  lemma NextIndexKey(path: string, k: nat)
    ensures CommonPrefixOfAll(path, IndexKeys(k + 1)) == CommonPrefix(CommonPrefixOfAll(path, IndexKeys(k)), NatText(k))
  {
    assert IndexKeys(k + 1)[..k] == IndexKeys(k);
  }

  /** A string is a prefix of `CommonPrefixOfAll` exactly when it is a prefix of the start
      and of every name. */
  lemma {:induction false} CommonPrefixOfAllBound(start: string, names: seq<string>, p: string)
    ensures IsPrefix(p, CommonPrefixOfAll(start, names))
      <==> IsPrefix(p, start) && forall k :: 0 <= k < |names| ==> IsPrefix(p, names[k])
  {
    if names != [] {
      var init := names[..|names| - 1];
      var last := names[|names| - 1];
      var c := CommonPrefixOfAll(start, init);
      CommonPrefixOfAllBound(start, init, p);
      if IsPrefix(p, CommonPrefixOfAll(start, names)) {
        PrefixTransitive(p, CommonPrefixOfAll(start, names), c);
        PrefixTransitive(p, CommonPrefixOfAll(start, names), last);
        assert forall k :: 0 <= k < |init| ==> init[k] == names[k];
      }
      if IsPrefix(p, start) && forall k :: 0 <= k < |names| ==> IsPrefix(p, names[k]) {
        assert forall k :: 0 <= k < |init| ==> init[k] == names[k];
        assert IsPrefix(p, names[|names| - 1]);
        CommonPrefixGreatest(c, last, p);
      }
    }
  }

  /** Since the keys are indices, the included files never matter: with no includes the
      result is the diagram's path, with one it is "0" or "", with more it is "". */
  lemma UpperParentOfIndices(path: string, n: nat)
    ensures n == 0 ==> CommonPrefixOfAll(path, IndexKeys(n)) == path
    ensures n == 1 ==> CommonPrefixOfAll(path, IndexKeys(n)) == (if |path| > 0 && path[0] == '0' then "0" else "")
    ensures n >= 2 ==> CommonPrefixOfAll(path, IndexKeys(n)) == ""
  {
    if n == 1 {
      NextIndexKey(path, 0);
      PrefixWithKey(path, NatText(0));
    } else if n >= 2 {
      var r := CommonPrefixOfAll(path, IndexKeys(n));
      CommonPrefixOfAllBound(path, IndexKeys(n), r);
      PrefixOfTwoKeys(r, IndexKeys(n)[0], IndexKeys(n)[1]);
    }
  }

  lemma PrefixWithKey(path: string, key: string)
    requires key == NatText(0)
    ensures CommonPrefix(path, key) == (if |path| > 0 && path[0] == '0' then "0" else "")
  {
    assert key == "0";
    if |path| > 0 && path[0] == '0' {
      assert CommonPrefix(path[1..], key[1..]) == [];
    }
  }

  lemma PrefixOfTwoKeys(r: string, k0: string, k1: string)
    requires k0 == NatText(0) && k1 == NatText(1)
    requires IsPrefix(r, k0) && IsPrefix(r, k1)
    ensures r == ""
  {
    assert k0 == "0" && k1 == "1";
  }

  // ---------------------------------------------------------------- closeCallback

  /** The parts of an `IncomingMessage` the callback reads. Header values are `None` when
      the header is absent. */
  datatype Response = Response(
    statusCode: int,
    statusMessage: string,
    diagramError: Option<string>,        // x-plantuml-diagram-error
    errorLine: Option<string>,           // x-plantuml-diagram-error-line
    description: Option<string>)         // x-plantuml-diagram-description

  /** The value held by `httpError`: the `Error` of a request 'error' event, or a message the
      callback composed. */
  datatype Failure = ConnectionError(message: string) | Message(text: string)

  /** Why the promise rejects. */
  datatype Reason =
    | Unsupported(message: string)          // the string rejected for an unknown method
    | ReadFailed(path: string)              // `getIncludes` threw reading this path
    | Failed(failure: Failure)              // `reject(httpError)`
    | MethodNotAllowed(message: string)     // `reject(ERROR_405)`
    | RenderFailed(error: string, out: seq<byte>)  // `reject({error: httpError, out: body})`

  /** How the promise ends; `Pending` when it never settles. */
  datatype Outcome = Resolved(value: seq<byte>) | Rejected(reason: Reason) | Pending

  /** The `writeFileSync(savePath, body)` the callback performs. */
  datatype FileWrite = FileWrite(path: string, content: seq<byte>)

  datatype Settled = Settled(outcome: Outcome, write: Option<FileWrite>)

  /** What `closeCallback` does: how the promise settles, and the value it leaves in
      `httpError`. */
  datatype Closing = Closing(settled: Settled, httpError: Option<Failure>)

  /** A header value is truthy when present and not empty. */
  predicate Truthy(h: Option<string>) {
    h.Some? && h.value != ""
  }

  /** The message for a status the callback does not single out. */
  function StatusMessage(res: Response, route: Route): string {
    NumberText(Some(res.statusCode)) + " " + res.statusMessage + "\n\n" + route.verb + " " + route.path
  }

  /** `closeCallback`, given the state it closes over. A close with neither an error nor a
      response throws a `TypeError` in the listener (`response.statusCode`), and the promise
      never settles. */
  function CloseCallback(httpError: Option<Failure>, response: Option<Response>, body: seq<byte>, savePath: Option<string>,
                         route: Route, diagram: Diagram, isStart: string -> bool): Closing
  {
    if httpError.Some? then Closing(Settled(Rejected(Failed(httpError.value)), None), httpError)
    else if response.None? then Closing(Settled(Pending, None), None)
    else
      var res := response.value;
      if res.statusCode == 200 then
        if Truthy(savePath) then
          if |body| > 0 then Closing(Settled(Resolved(Utf8(savePath.value)), Some(FileWrite(savePath.value, body))), None)
          else Closing(Settled(Resolved(Utf8("")), None), None)
        else Closing(Settled(Resolved(body), None), None)
      else if Truthy(res.diagramError) then
        var message := FormatError(res.diagramError.value,
          MapErrorLine(diagram.lines, diagram.startLine, ParseInt(OrUndefined(res.errorLine)), isStart), res.description);
        Closing(Settled(Rejected(RenderFailed(message, body)), None), Some(Message(message)))
      else if res.statusCode == 405 then Closing(Settled(Rejected(MethodNotAllowed(Error405Message)), None), None)
      else
        var message := StatusMessage(res, route);
        Closing(Settled(Rejected(RenderFailed(message, body)), None), Some(Message(message)))
  }

  /** An error recorded before the close wins over whatever the response says. */
  lemma ConnectionErrorWins(e: Failure, response: Option<Response>, body: seq<byte>, savePath: Option<string>,
                            route: Route, diagram: Diagram, isStart: string -> bool)
    ensures CloseCallback(Some(e), response, body, savePath, route, diagram, isStart).settled
      == Settled(Rejected(Failed(e)), None)
  {
  }

  /** Status 200 resolves: with a save path and a body, the body is written there and the
      path's bytes are the result; with a save path and no body the result is empty;
      without a save path the body itself is the result. */
  lemma OkResolves(res: Response, body: seq<byte>, savePath: Option<string>, route: Route, diagram: Diagram, isStart: string -> bool)
    requires res.statusCode == 200
    ensures var s := CloseCallback(None, Some(res), body, savePath, route, diagram, isStart).settled;
      && (Truthy(savePath) && body != [] ==> s == Settled(Resolved(Utf8(savePath.value)), Some(FileWrite(savePath.value, body))))
      && (Truthy(savePath) && body == [] ==> s == Settled(Resolved([]), None))
      && (!Truthy(savePath) ==> s == Settled(Resolved(body), None))
  {
  }

  /** Any other status with a diagnostic header rejects with the mapped message and the
      body received, and this comes before the 405 check. */
  lemma DiagnosticRejects(res: Response, body: seq<byte>, savePath: Option<string>, route: Route, diagram: Diagram, isStart: string -> bool)
    requires res.statusCode != 200 && Truthy(res.diagramError)
    ensures var s := CloseCallback(None, Some(res), body, savePath, route, diagram, isStart).settled;
      var p := MapErrorLine(diagram.lines, diagram.startLine, ParseInt(OrUndefined(res.errorLine)), isStart);
      s == Settled(Rejected(RenderFailed(FormatError(res.diagramError.value, p, res.description), body)), None)
  {
  }

  /** Without the header, 405 rejects with `ERROR_405` and no body; every other status
      rejects with "<status> <message>\n\nPOST <server>/json" and the body. */
  lemma StatusRejects(res: Response, body: seq<byte>, savePath: Option<string>, server: string, diagram: Diagram, isStart: string -> bool)
    requires res.statusCode != 200 && !Truthy(res.diagramError)
    ensures var route := Route("POST", server + "/json");
      var s := CloseCallback(None, Some(res), body, savePath, route, diagram, isStart).settled;
      && (res.statusCode == 405 ==> s == Settled(Rejected(MethodNotAllowed(Error405Message)), None))
      && (res.statusCode != 405 ==> s == Settled(Rejected(RenderFailed(
            NumberText(Some(res.statusCode)) + " " + res.statusMessage + "\n\nPOST " + server + "/json", body)), None))
  {
    var x := NumberText(Some(res.statusCode)) + " " + res.statusMessage;
    assert x + "\n\n" + "POST" + " " + (server + "/json") == x + "\n\nPOST " + server + "/json";
  }

  /** The callback settles the promise exactly once, unless it has neither an error nor a
      response to read; only a resolution with a save path writes a file. */
  lemma SettlesOnce(httpError: Option<Failure>, response: Option<Response>, body: seq<byte>, savePath: Option<string>,
                    route: Route, diagram: Diagram, isStart: string -> bool)
    ensures var s := CloseCallback(httpError, response, body, savePath, route, diagram, isStart).settled;
      && (s.outcome.Pending? <==> httpError.None? && response.None?)
      && (s.write.Some? ==> s.outcome.Resolved? && Truthy(savePath) && s.write.value == FileWrite(savePath.value, body))
  {
  }

  // ---------------------------------------------------------------- the request's state

  /** `Buffer.concat(list, totalLength)`: the bytes in order, cut or zero-filled to the length. */
  function Concat(chunks: seq<seq<byte>>, totalLength: nat): (r: seq<byte>)
    ensures |r| == totalLength
    ensures totalLength <= |Flatten(chunks)| ==> IsPrefix(r, Flatten(chunks))
    ensures totalLength >= |Flatten(chunks)| ==> IsPrefix(Flatten(chunks), r)
    ensures forall i :: |Flatten(chunks)| <= i < totalLength ==> r[i] == 0
  {
    var all := Flatten(chunks);
    if totalLength <= |all| then all[..totalLength] else all + seq(totalLength - |all|, _ => 0)
  }

  lemma FlattenLength(chunks: seq<seq<byte>>, c: seq<byte>)
    ensures |Flatten(chunks + [c])| == |Flatten(chunks)| + |c|
  {
    FlattenAppend(chunks, c);
  }

  /** The closed-over variables of one `httpWrapper` call. */
  class Exchange {
    var buffBody: seq<seq<byte>>
    var buffBodyLen: int
    var response: Option<Response>
    var httpError: Option<Failure>

    /** `buffBodyLen` counts the bytes of the chunks kept. */
    ghost predicate Valid()
      reads this
    {
      buffBodyLen == |Flatten(buffBody)|
    }

    function Snapshot(): Observed
      reads this
    {
      Observed(buffBody, response, httpError)
    }

    constructor()
      ensures Valid() && Snapshot() == Observed([], None, None) && buffBodyLen == 0
    {
      buffBody := [];
      buffBodyLen := 0;
      response := None;
      httpError := None;
    }

    /** `responseCallback`: keep the response (its 'data' listener is `OnData`). */
    method OnResponse(res: Response)
      requires Valid()
      modifies this
      ensures Valid()
      ensures response == Some(res) && buffBody == old(buffBody) && buffBodyLen == old(buffBodyLen) && httpError == old(httpError)
    {
      response := Some(res);
    }

    /** The response's 'data' listener: keep the chunk and count its bytes. */
    method OnData(chunk: seq<byte>)
      requires Valid()
      modifies this
      ensures Valid()
      ensures buffBody == old(buffBody) + [chunk] && buffBodyLen == old(buffBodyLen) + |chunk|
      ensures response == old(response) && httpError == old(httpError)
    {
      FlattenLength(buffBody, chunk);
      buffBody := buffBody + [chunk];
      buffBodyLen := buffBodyLen + |chunk|;
    }

    /** The request's 'error' listener. */
    method OnError(message: string)
      requires Valid()
      modifies this
      ensures Valid()
      ensures httpError == Some(ConnectionError(message))
      ensures buffBody == old(buffBody) && buffBodyLen == old(buffBodyLen) && response == old(response)
    {
      httpError := Some(ConnectionError(message));
    }

    /** `closeCallback`. */
    method OnClose(savePath: Option<string>, route: Route, diagram: Diagram, isStart: string -> bool) returns (s: Settled)
      requires Valid()
      modifies this
      ensures Closing(s, httpError) == CloseCallback(old(httpError), response, Flatten(buffBody), savePath, route, diagram, isStart)
      ensures buffBody == old(buffBody) && buffBodyLen == old(buffBodyLen) && response == old(response)
    {
      if httpError.Some? {
        return Settled(Rejected(Failed(httpError.value)), None);
      }
      if response.None? {
        return Settled(Pending, None);
      }
      var body := Concat(buffBody, buffBodyLen);
      assert body == Flatten(buffBody);
      var res := response.value;
      var write: Option<FileWrite> := None;
      if res.statusCode == 200 {
        if Truthy(savePath) {
          if |body| > 0 {
            write := Some(FileWrite(savePath.value, body));
            body := Utf8(savePath.value);
          } else {
            body := Utf8("");
          }
        }
      } else if Truthy(res.diagramError) {
        var message := ParsePlantumlError(res.diagramError.value, ParseInt(OrUndefined(res.errorLine)), res.description, diagram, isStart);
        httpError := Some(Message(message));
      } else if res.statusCode == 405 {
        return Settled(Rejected(MethodNotAllowed(Error405Message)), None);
      } else {
        httpError := Some(Message(StatusMessage(res, route)));
      }
      if httpError.Some? {
        return Settled(Rejected(RenderFailed(httpError.value.text, body)), None);
      }
      return Settled(Resolved(body), write);
    }
  }

  // ---------------------------------------------------------------- one call, from the events observed

  /** What the network delivered, in order. */
  datatype Event = ResponseEvent(res: Response) | DataEvent(chunk: seq<byte>) | ErrorEvent(message: string) | CloseEvent

  /** The closed-over state after some events. */
  datatype Observed = Observed(chunks: seq<seq<byte>>, response: Option<Response>, httpError: Option<Failure>)

  /** One event's effect; a chunk arriving before any response has no listener yet. */
  function Step(o: Observed, e: Event): Observed {
    match e
    case ResponseEvent(res) => o.(response := Some(res))
    case DataEvent(chunk) => if o.response.Some? then o.(chunks := o.chunks + [chunk]) else o
    case ErrorEvent(message) => o.(httpError := Some(ConnectionError(message)))
    case CloseEvent => o
  }

  function Observe(events: seq<Event>): Observed {
    if events == [] then Observed([], None, None) else Step(Observe(events[..|events| - 1]), events[|events| - 1])
  }

  /** The index of the first close, or the length when there is none. */
  function FirstClose(events: seq<Event>): (k: nat)
    ensures k <= |events|
    ensures forall j :: 0 <= j < k ==> !events[j].CloseEvent?
    ensures k < |events| ==> events[k].CloseEvent?
  {
    if events == [] || events[0].CloseEvent? then 0 else 1 + FirstClose(events[1..])
  }

  /** The request written on the wire. */
  datatype Sent = Sent(route: Route, json: JsonRequest)

  datatype Rendering = Rendering(settled: Settled, sent: Option<Sent>)

  /** `httpWrapper(method, server, diagram, format, index, savePath)`: the method check,
      then (inside the promise) `getIncludes`, whose throw rejects the promise, then the
      request, then the first close settles the promise from what came before it. */
  function Render(requestMethod: string, server: string, diagram: Diagram, format: string, savePath: Option<string>,
                  fs: FileSystem, env: Env, isStart: string -> bool, events: seq<Event>): Rendering
  {
    match RequestRoute(requestMethod, server)
    case Err(m) => Rendering(Settled(Rejected(Unsupported(m)), None), None)
    case Ok(route) =>
      match Includes(fs, env, diagram)
      case Err(p) => Rendering(Settled(Rejected(ReadFailed(p)), None), None)
      case Ok(_) =>
        var sent := Some(Sent(route, CreateJson(format, "", "")));
        var k := FirstClose(events);
        if k == |events| then Rendering(Settled(Pending, None), sent)
        else
          var o := Observe(events[..k]);
          Rendering(CloseCallback(o.httpError, o.response, Flatten(o.chunks), savePath, route, diagram, isStart).settled, sent)
  }

  method HttpWrapper(requestMethod: string, server: string, diagram: Diagram, format: string, savePath: Option<string>,
                     fs: FileSystem, env: Env, isStart: string -> bool, events: seq<Event>) returns (r: Rendering)
    ensures r == Render(requestMethod, server, diagram, format, savePath, fs, env, isStart, events)
  {
    var route := RequestRoute(requestMethod, server);
    if route.Err? {
      return Rendering(Settled(Rejected(Unsupported(route.error)), None), None);
    }
    var exchange := new Exchange();
    var includes := GetIncludes(fs, env, diagram);
    if includes.Err? {
      return Rendering(Settled(Rejected(ReadFailed(includes.error)), None), None);
    }
    var upperParent := UpperParent(diagram.path, includes.value);
    var sent := Some(Sent(route.value, CreateJson(format, "", "")));
    RenderOnceSent(requestMethod, server, diagram, format, savePath, fs, env, isStart, events);
    var i := Deliver(exchange, events);
    if i == |events| {
      return Rendering(Settled(Pending, None), sent);
    }
    var settled := exchange.OnClose(savePath, route.value, diagram, isStart);
    return Rendering(settled, sent);
  }

  /** The handlers run for each event up to the first close; returns where it is. */
  method Deliver(exchange: Exchange, events: seq<Event>) returns (i: nat)
    requires exchange.Valid() && exchange.Snapshot() == Observed([], None, None)
    modifies exchange
    ensures i == FirstClose(events)
    ensures exchange.Valid() && exchange.Snapshot() == Observe(events[..i])
  {
    i := 0;
    while i < |events| && !events[i].CloseEvent?
      invariant 0 <= i <= |events|
      invariant forall j :: 0 <= j < i ==> !events[j].CloseEvent?
      invariant exchange.Valid() && exchange.Snapshot() == Observe(events[..i])
      decreases |events| - i
    {
      ObservePush(events, i);
      match events[i] {
        case ResponseEvent(res) =>
          exchange.OnResponse(res);
        case DataEvent(chunk) =>
          if exchange.response.Some? {
            exchange.OnData(chunk);
          }
        case ErrorEvent(message) =>
          exchange.OnError(message);
      }
      i := i + 1;
    }
    FirstCloseUnique(events, i);
  }

  lemma ObservePush(events: seq<Event>, i: nat)
    requires i < |events|
    ensures Observe(events[..i + 1]) == Step(Observe(events[..i]), events[i])
  {
    assert events[..i + 1][..i] == events[..i];
  }

  /** `Render` once the request has gone out. */
  lemma RenderOnceSent(requestMethod: string, server: string, diagram: Diagram, format: string, savePath: Option<string>,
                       fs: FileSystem, env: Env, isStart: string -> bool, events: seq<Event>)
    requires RequestRoute(requestMethod, server).Ok? && Includes(fs, env, diagram).Ok?
    ensures var route := RequestRoute(requestMethod, server).value;
      var sent := Some(Sent(route, CreateJson(format, "", "")));
      var k := FirstClose(events);
      var o := Observe(events[..k]);
      Render(requestMethod, server, diagram, format, savePath, fs, env, isStart, events)
        == if k == |events| then Rendering(Settled(Pending, None), sent)
           else Rendering(CloseCallback(o.httpError, o.response, Flatten(o.chunks), savePath, route, diagram, isStart).settled, sent)
  {
  }

  lemma {:induction false} FirstCloseUnique(events: seq<Event>, i: nat)
    requires i <= |events| && forall j :: 0 <= j < i ==> !events[j].CloseEvent?
    requires i < |events| ==> events[i].CloseEvent?
    ensures FirstClose(events) == i
  {
    if i > 0 {
      FirstCloseUnique(events[1..], i - 1);
    }
  }

  // ---------------------------------------------------------------- properties of a call

  /** "GET" and "POST" give the same call. */
  lemma RenderIgnoresMethod(server: string, diagram: Diagram, format: string, savePath: Option<string>,
                            fs: FileSystem, env: Env, isStart: string -> bool, events: seq<Event>)
    ensures Render("GET", server, diagram, format, savePath, fs, env, isStart, events)
      == Render("POST", server, diagram, format, savePath, fs, env, isStart, events)
  {
  }

  /** Any other method rejects at once with its message, and nothing is sent. */
  lemma UnsupportedMethodRejects(requestMethod: string, server: string, diagram: Diagram, format: string, savePath: Option<string>,
                                 fs: FileSystem, env: Env, isStart: string -> bool, events: seq<Event>)
    requires requestMethod != "GET" && requestMethod != "POST"
    ensures Render(requestMethod, server, diagram, format, savePath, fs, env, isStart, events)
      == Rendering(Settled(Rejected(Unsupported("Unsupported request method: " + requestMethod)), None), None)
  {
  }

  /** Once the connection has closed, later events change nothing. */
  lemma LaterEventsIgnored(requestMethod: string, server: string, diagram: Diagram, format: string, savePath: Option<string>,
                           fs: FileSystem, env: Env, isStart: string -> bool, events: seq<Event>, later: seq<Event>)
    requires exists j :: 0 <= j < |events| && events[j].CloseEvent?
    ensures Render(requestMethod, server, diagram, format, savePath, fs, env, isStart, events + later)
      == Render(requestMethod, server, diagram, format, savePath, fs, env, isStart, events)
  {
    var k := FirstClose(events);
    FirstCloseUnique(events + later, k);
    assert (events + later)[..k] == events[..k];
  }

  /** The body a call resolves with, without a save path, is the chunks received after the
      response, in order. */
  lemma {:induction false} ChunksKeptInOrder(events: seq<Event>, res: Response, chunks: seq<seq<byte>>)
    requires |events| == |chunks| + 1 && events[0] == ResponseEvent(res)
    requires forall k :: 0 <= k < |chunks| ==> events[k + 1] == DataEvent(chunks[k])
    ensures Observe(events) == Observed(chunks, Some(res), None)
  {
    if chunks == [] {
      assert events[..0] == [];
    } else {
      var n := |chunks| - 1;
      assert events[..|events| - 1][0] == events[0];
      ChunksKeptInOrder(events[..|events| - 1], res, chunks[..n]);
      assert chunks[..n] + [chunks[n]] == chunks;
    }
  }

  /** With the method accepted and the included files read, the call settles as the
      callback does on the state before the first close. */
  lemma SettledAtClose(requestMethod: string, server: string, diagram: Diagram, format: string, savePath: Option<string>,
                       fs: FileSystem, env: Env, isStart: string -> bool, events: seq<Event>, k: nat)
    requires RequestRoute(requestMethod, server).Ok? && Includes(fs, env, diagram).Ok?
    requires k < |events| && FirstClose(events) == k
    ensures var o := Observe(events[..k]);
      Render(requestMethod, server, diagram, format, savePath, fs, env, isStart, events).settled
        == CloseCallback(o.httpError, o.response, Flatten(o.chunks), savePath, RequestRoute(requestMethod, server).value, diagram, isStart).settled
  {
  }

  /** A response, then data chunks, then the close: the close is the first one, and the
      state it sees holds the response and the chunks in order. */
  lemma ResponseThenChunks(events: seq<Event>, res: Response, chunks: seq<seq<byte>>)
    requires |events| == |chunks| + 2 && events[0] == ResponseEvent(res) && events[|chunks| + 1] == CloseEvent
    requires forall k :: 0 <= k < |chunks| ==> events[k + 1] == DataEvent(chunks[k])
    ensures FirstClose(events) == |chunks| + 1
    ensures Observe(events[..|chunks| + 1]) == Observed(chunks, Some(res), None)
  {
    var k := |chunks| + 1;
    forall j | 0 <= j < k
      ensures !events[j].CloseEvent?
    {
      if j > 0 {
        assert events[(j - 1) + 1] == DataEvent(chunks[j - 1]);
      }
    }
    FirstCloseUnique(events, k);
    ChunksKeptInOrder(events[..k], res, chunks);
  }

  /** A 200 response with a body, with a save path: the body is written to the path and the
      call resolves with the path's bytes. */
  lemma SavedToPath(server: string, diagram: Diagram, format: string, path: string, fs: FileSystem, env: Env,
                    isStart: string -> bool, res: Response, chunks: seq<seq<byte>>, events: seq<Event>)
    requires res.statusCode == 200 && path != "" && Flatten(chunks) != []
    requires Includes(fs, env, diagram).Ok?
    requires |events| == |chunks| + 2 && events[0] == ResponseEvent(res) && events[|chunks| + 1] == CloseEvent
    requires forall k :: 0 <= k < |chunks| ==> events[k + 1] == DataEvent(chunks[k])
    ensures Render("POST", server, diagram, format, Some(path), fs, env, isStart, events).settled
      == Settled(Resolved(Utf8(path)), Some(FileWrite(path, Flatten(chunks))))
  {
    ResponseThenChunks(events, res, chunks);
    SettledAtClose("POST", server, diagram, format, Some(path), fs, env, isStart, events, |chunks| + 1);
    OkResolves(res, Flatten(chunks), Some(path), Route("POST", server + "/json"), diagram, isStart);
  }

  /** A 405 response without the diagnostic header rejects with `ERROR_405`, whichever
      accepted method was asked for. */
  lemma MethodNotAllowedEitherWay(requestMethod: string, server: string, diagram: Diagram, format: string, savePath: Option<string>,
                                  fs: FileSystem, env: Env, isStart: string -> bool, res: Response)
    requires requestMethod == "GET" || requestMethod == "POST"
    requires res.statusCode == 405 && !Truthy(res.diagramError)
    requires Includes(fs, env, diagram).Ok?
    ensures Render(requestMethod, server, diagram, format, savePath, fs, env, isStart, [ResponseEvent(res), CloseEvent]).settled
      == Settled(Rejected(MethodNotAllowed(Error405Message)), None)
  {
    var events := [ResponseEvent(res), CloseEvent];
    FirstCloseUnique(events, 1);
    assert events[..1] == [ResponseEvent(res)];
    assert Observe(events[..1]) == Observed([], Some(res), None) by {
      assert events[..1][..0] == [];
    }
  }
}
