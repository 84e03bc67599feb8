# PlantUML include resolution and render transport, in Dafny

This project models two parts of the PlantUML extension for VS Code and proves properties of them.

**The include resolver** is `src/plantuml/diagram/include.ts`. It finds every file a diagram pulls in with `!include` or `!includesub`:
- Relative targets are resolved against the file's own directory, then the configured include paths, then the diagrams root.
- Found paths are appended to a shared list. A relative target found in no search path is appended as `undefined`.
- Each newly found file is read and scanned in turn. This is how include cycles end.

**The render transport** is `src/plantuml/renders/httpWrapper.ts`. It has six parts:
- the method check, which sends either accepted method as a POST to `<server>/json`;
- the JSON request record;
- the event handlers that collect the response;
- the close handler, which settles the render promise by a fixed order of checks;
- the mapping of a server-reported error line back into the document;
- `commonParent`.

Modules:

- `Base` (`base.dfy`): `Option`, `Result`, bytes, prefixes, and the concatenation of chunks.
- `JsText` (`js_text.dfy`): the JavaScript string operations the source relies on:
  - `trim` and its white-space class;
  - `split('\n')`;
  - ASCII `toUpperCase`;
  - `parseInt` and the printing of numbers (NaN is `None`);
  - `Buffer.from(string)` as UTF-8.
- `IncludeRegex` (`include_regex.dfy`): the directive pattern `INCLUDE_REG`, written as a matcher that returns the indent, keyword, gap, lazily matched target and optional `!word` label.
- `Include` (`include.dfy`):
  - search paths, `findFile`, and the specification functions of the scan;
  - the class `IncludeScanner`, whose `found` field is the shared list. Its two mutually recursive methods `FindIncludes` and `FindIncludesInIncluded` are proved equal to the scan functions.
  - The termination measure is the number of files in the file map that are not yet in the list.
- `HttpWrapper` (`http_wrapper.dfy`):
  - the method switch, `createJson`, `parsePlantumlError` (a loop method proved against a line-mapping function), `commonParent` (a loop method) and the `upperParent` loop after `getIncludes`;
  - the class `Exchange`, which holds the variables the handlers close over;
  - `CloseCallback`, the classification made at close;
  - the method `HttpWrapper`, which replays a list of observed network events, proved against the function `Render`.

Collaborators appear as parameters or data:
- The file system is a map from file path to content plus a set of directory paths. `existsSync` is true for both. `readFileSync` succeeds only on a file; on a directory it throws, as Node's `EISDIR` does.
- `path.join`, `dirname` and `isAbsolute`, `vscode.Uri.file`, and the two configuration lookups are functions in an `Env` record.
- `diagramStartReg.test` is a parameter `isStart`.
- The network is a list of events: response, data chunk, error, close.

## Model

| member | source | states |
|---|---|---|
| IncludeRegex.MatchIncludeSound | src/plantuml/diagram/include.ts:8 | a line the pattern accepts is exactly indent + `!` + keyword + gap + target + optional `!word`, with white-space indent, `include`/`includesub` in any case, a non-empty white-space gap, and no line terminator in the target; the gap is maximal, so the target starts with a non-space unless it is the single space left of an all-space tail |
| IncludeRegex.MatchIncludeComplete | src/plantuml/diagram/include.ts:8 | every well-formed directive text is accepted, and it is cut back into that same directive when its gap is maximal |
| IncludeRegex.MatchIncludeCharacterised | src/plantuml/diagram/include.ts:8 | a line is accepted exactly when some well-formed directive spells it, and the match is exactly the spelling with the maximal gap |
| IncludeRegex.LabelSplitOff | src/plantuml/diagram/include.ts:8 | for a target that holds no `!` and starts with a non-space, a trailing `!word` is split off as the label, and the target is the same as for the line without it |
| IncludeRegex.KeywordDoesNotAffectTarget | src/plantuml/diagram/include.ts:8 | `include` and `includesub`, in any letter case, match the same lines with the same target and label |
| IncludeRegex.CrLineDoesNotMatch | src/plantuml/diagram/include.ts:8 | a line ending in a line terminator (a CRLF line after `split('\n')`) is not a directive, because `.` does not match it |
| JsText.Trim | src/plantuml/diagram/include.ts:27 | the result is a slice of the input with only white space cut from both ends, starts and ends with a non-space, and is empty exactly when the input is all white space |
| JsText.JoinSplitLines | src/plantuml/diagram/include.ts:20 | joining the pieces of `split('\n')` with `\n` gives the text back |
| JsText.SplitJoinLines | src/plantuml/diagram/include.ts:20 | splitting a join of newline-free lines gives the lines back |
| Include.Dedup | src/plantuml/diagram/include.ts:47 | `Array.from(new Set(...))` has no repeats, has the same members, and keeps the first element first |
| Include.DedupKeepsFirstOccurrences | src/plantuml/diagram/include.ts:47 | the deduplicated list is each element at its first occurrence, in order |
| Include.SearchPaths | src/plantuml/diagram/include.ts:40-48 | no uri gives `[]`; otherwise the file's directory comes first, the members are exactly directory, include paths and diagrams root (if set), and there are no repeats |
| Include.GetSearchPaths | src/plantuml/diagram/include.ts:40-48 | the loop that pushes the candidates and removes repeats computes `SearchPaths` |
| Include.FirstExisting | src/plantuml/diagram/include.ts:50-58 | `undefined` exactly when no directory holds the target; otherwise `join(dir, target)` for the first directory in order whose candidate exists |
| Include.FindFile | src/plantuml/diagram/include.ts:50-58 | the loop with early return computes `FirstExisting` |
| Include.DirectiveTargetMeaning | src/plantuml/diagram/include.ts:22-27 | a line has a target exactly when some well-formed directive spells it, and that target is the trimmed target of the spelling with the maximal gap |
| Include.ScanLine | src/plantuml/diagram/include.ts:25-35 | handling one line only appends to the list |
| Include.ScanLines | src/plantuml/diagram/include.ts:19-38 | scanning lines only appends to the list: existing entries are never removed or reordered |
| Include.ScanFile | src/plantuml/diagram/include.ts:60-65 | scanning an included file only appends to the list |
| Include.ScanFileRead | src/plantuml/diagram/include.ts:63-64 | a present, non-empty path is read, its content is split on `\n`, and its lines are scanned with the search paths of its own directory |
| Include.ScanLinesStep | src/plantuml/diagram/include.ts:22-37 | one line is handled, then the rest continue from the list it leaves, and a thrown read stops the scan |
| Include.IncludeScanner.constructor | src/plantuml/diagram/include.ts:14 | the shared list starts empty and nothing has been read |
| Include.IncludeScanner.IncludeLine | src/plantuml/diagram/include.ts:25-35 | the callback appends a new entry and scans it, leaving the list, the files read and the failure as `ScanLine` says |
| Include.IncludeScanner.AddIncluded | src/plantuml/diagram/include.ts:30-33 | an entry already listed changes nothing; a new one is appended and then scanned, leaving the list, the files read and the failure as `ScanFile` says |
| Include.IncludeScanner.FindIncludes | src/plantuml/diagram/include.ts:19-38 | the list, the files read and the failure after `findIncludes` are those of `ScanLines` |
| Include.IncludeScanner.FindIncludesInIncluded | src/plantuml/diagram/include.ts:60-65 | the list, the files read and the failure after `findIncludesInIncluded` are those of `ScanFile` |
| Include.GetIncludes | src/plantuml/diagram/include.ts:11-17 | the result is `Includes`; a result list has no repeats, holds only found paths, absolute targets or `undefined`, and is closed: every directive of the diagram and of every listed file resolves to nothing or to a listed entry. Each entry is asked for by a line of the diagram or by a file listed before it |
| Include.ScanLinesClosed | src/plantuml/diagram/include.ts:19-38 | a scan that does not throw leaves every one of its directives resolved to a listed entry, and every file it appended has all its own directives resolved to listed entries |
| Include.ScanLinesDiscovered | src/plantuml/diagram/include.ts:19-38 | a scan appends only entries its own lines ask for, or that a file listed before them asks for |
| Include.IncludesDiscovered | src/plantuml/diagram/include.ts:11-17 | every entry `getIncludes` returns is asked for by a line of the diagram, or by a file listed before it: the list holds nothing unreached, in discovery order |
| Include.IncludesClosed | src/plantuml/diagram/include.ts:11-17 | the list `getIncludes` returns contains everything the diagram reaches through directives: nothing reachable is missing |
| Include.ScanLinesNoDuplicates | src/plantuml/diagram/include.ts:30-31 | a list without repeats stays without repeats through the scan, because an entry is pushed only when `indexOf` is -1 |
| Include.ScanLinesResolved | src/plantuml/diagram/include.ts:29 | every entry pushed is a path that exists, an absolute target used verbatim, or `undefined`; a failure is a path that is not a file: an absolute target, or a directory a search path led to |
| Include.ScanLinesReads | src/plantuml/diagram/include.ts:30-33 | the files read are exactly the readable entries the scan appended, in order |
| Include.EachFileReadOnce | src/plantuml/diagram/include.ts:60-64 | every file is read at most once, and only files on disk that are in the list are read |
| Include.NothingNew | src/plantuml/diagram/include.ts:30 | lines whose entries are already listed, or that are not directives, change nothing and read nothing |
| Include.NoDirectives | src/plantuml/diagram/include.ts:22 | a document with no directive line yields `[]` |
| Include.LeafRead | src/plantuml/diagram/include.ts:30-33 | a new present file with no directives is appended and read once, and nothing else happens |
| Include.ReadKnownOnly | src/plantuml/diagram/include.ts:60-64 | a file whose directives ask for nothing new is read, and the list does not change |
| Include.MissingAbsoluteFails | src/plantuml/diagram/include.ts:29-33 | an absolute target is pushed without an existence check, and reading it when missing throws that path |
| Include.DirectoryReadFails | src/plantuml/diagram/include.ts:50-65 | a relative target whose first existing candidate is a directory is listed, and reading it throws that path |
| Include.UnresolvedListedOnce | src/plantuml/diagram/include.ts:29-31 | an unresolved relative target adds `undefined` once and nothing is read for it |
| Include.FlatIncludes | src/plantuml/diagram/include.ts:22-35 | N lines naming N distinct new files without directives list exactly those files, in line order, each read once |
| Include.MutualIncludes | src/plantuml/diagram/include.ts:30-33 | two files that include each other are each listed and read once, and the scan ends |
| Include.IncludeCycleEnds | src/plantuml/diagram/include.ts:11-17 | a diagram including `/a`, where `/a` and `/b` include each other, yields `["/a", "/b"]` |
| Include.DirectiveOf | src/plantuml/diagram/include.ts:26-27 | the target of `!include p` is `p` for a target without spaces at its ends, `!` or line terminators |
| HttpWrapper.RequestRoute | src/plantuml/renders/httpWrapper.ts:19-34 | accepted exactly when the method is "GET" or "POST", and then sent as POST to the server followed by `/json`; otherwise rejected with "Unsupported request method: " + method |
| HttpWrapper.RouteIgnoresMethod | src/plantuml/renders/httpWrapper.ts:32-34 | "GET" and "POST" give the same route |
| HttpWrapper.CreateJson | src/plantuml/renders/httpWrapper.ts:146-156 | the response format is the format upper-cased: same length, same letters up to case, and no lower-case letter left. Input format is "ARCHIVE", archive type is "AUTO_DETECT", and main file and data are copied |
| HttpWrapper.CreateJsonIgnoresCase | src/plantuml/renders/httpWrapper.ts:148 | formats that differ only in letter case give the same request record |
| HttpWrapper.BlanksFrom | src/plantuml/renders/httpWrapper.ts:161-165 | the count is the length of the maximal run of whitespace-only lines from index 1: all counted lines are blank and the next one, if any, is not |
| HttpWrapper.BlankRunUnique | src/plantuml/renders/httpWrapper.ts:161-165 | the run of blank lines has a single length |
| HttpWrapper.BlankIsTrimmedEmpty | src/plantuml/renders/httpWrapper.ts:163 | a line counts as blank exactly when its `trim()` is empty |
| HttpWrapper.ParsePlantumlError | src/plantuml/renders/httpWrapper.ts:158-170 | the loop that counts blank lines produces the message `error (@ Diagram Line L, File Line F)\n"content"\ndescription\n` for the position `MapErrorLine` gives |
| HttpWrapper.DiagramLineShift | src/plantuml/renders/httpWrapper.ts:159 | Diagram Line is the reported line plus 1 exactly when the first line is a start marker, and the reported line exactly when it is not; NaN stays NaN and quotes "undefined" |
| HttpWrapper.FileLineCountsBlanks | src/plantuml/renders/httpWrapper.ts:160-168 | File Line is Diagram Line plus the maximal run of blank lines from index 1 plus the start line; the content is `lines[DiagramLine + blanks - 1]`, taken before the start line is added |
| HttpWrapper.MarkerAndTwoBlanks | src/plantuml/renders/httpWrapper.ts:158-170 | marker, two blank lines and reported line 5 give Diagram Line 6, File Line 8 + start, and content `lines[7]` |
| HttpWrapper.MessageNumbersReadBack | src/plantuml/renders/httpWrapper.ts:169 | the numbers printed in the message read back with `parseInt` as the mapped lines |
| HttpWrapper.CommonPrefix | src/plantuml/renders/httpWrapper.ts:132-144 | a prefix of both strings that stops at the first mismatch or at the end of either string |
| HttpWrapper.CommonPrefixGreatest | src/plantuml/renders/httpWrapper.ts:132-144 | every common prefix of the two strings is a prefix of the result, so the result is the longest one |
| HttpWrapper.CommonParent | src/plantuml/renders/httpWrapper.ts:132-144 | the loop returns the longest common prefix: a prefix of both, no longer than `path1`, ending at a mismatch or where `path2` runs out |
| HttpWrapper.UpperParent | src/plantuml/renders/httpWrapper.ts:116-120 | the loop starts at `diagram.path` and meets each key `for...in` visits, the index strings "0" to "n-1"; the result is a prefix of the path |
| HttpWrapper.CommonPrefixOfAllBound | src/plantuml/renders/httpWrapper.ts:116-120 | a string is a prefix of the folded common prefix exactly when it is a prefix of the start and of every name |
| HttpWrapper.UpperParentOfIndices | src/plantuml/renders/httpWrapper.ts:116-120 | the included files never matter: no includes leave the path, one gives "0" or "", and two or more give "" |
| HttpWrapper.ConnectionErrorWins | src/plantuml/renders/httpWrapper.ts:68-71 | an error recorded before the close rejects with that error, whatever the response |
| HttpWrapper.OkResolves | src/plantuml/renders/httpWrapper.ts:74-82 | status 200 resolves. With a save path and a body, the body is written there and the result is the path's bytes. With a save path and no body, the result is empty. Without one, the result is the body |
| HttpWrapper.DiagnosticRejects | src/plantuml/renders/httpWrapper.ts:83-89 | any other status with the diagnostic header, 405 included, rejects with the mapped message and the body |
| HttpWrapper.StatusRejects | src/plantuml/renders/httpWrapper.ts:90-96 | without that header, 405 rejects with `ERROR_405` and no body; any other status rejects with "<status> <message>\n\nPOST <server>/json" and the body |
| HttpWrapper.SettlesOnce | src/plantuml/renders/httpWrapper.ts:67-102 | the close settles the promise unless there is neither an error nor a response; only a resolution with a save path writes a file, and it writes the body |
| HttpWrapper.Concat | src/plantuml/renders/httpWrapper.ts:73 | `Buffer.concat(list, totalLength)` has exactly `totalLength` bytes: the chunks' bytes in order, cut at that length, or followed by zero bytes up to it |
| HttpWrapper.Exchange.constructor | src/plantuml/renders/httpWrapper.ts:37-40 | no chunk, length 0, no response, no error |
| HttpWrapper.Exchange.OnResponse | src/plantuml/renders/httpWrapper.ts:56-60 | keeps the response, and the chunk count stays right |
| HttpWrapper.Exchange.OnData | src/plantuml/renders/httpWrapper.ts:61-64 | appends the chunk and adds its length, so `buffBodyLen` keeps counting the bytes of `buffBody` |
| HttpWrapper.Exchange.OnError | src/plantuml/renders/httpWrapper.ts:108-110 | records the connection error and leaves the rest |
| HttpWrapper.Exchange.OnClose | src/plantuml/renders/httpWrapper.ts:67-102 | settles, writes and leaves `httpError` as `CloseCallback` says, with the body equal to the chunks concatenated in order |
| HttpWrapper.Deliver | src/plantuml/renders/httpWrapper.ts:104-112 | the handlers run for each event up to the first close, and the state they leave is `Observe` of those events |
| HttpWrapper.HttpWrapper | src/plantuml/renders/httpWrapper.ts:16-129 | replaying the events computes `Render`: method check, then `getIncludes` (a throw rejects) and the `upperParent` loop, then the request record, then the first close settles from the state before it |
| HttpWrapper.RenderIgnoresMethod | src/plantuml/renders/httpWrapper.ts:19-34 | a "GET" call and a "POST" call behave the same |
| HttpWrapper.UnsupportedMethodRejects | src/plantuml/renders/httpWrapper.ts:28-29 | any other method rejects with its message, and nothing is sent |
| HttpWrapper.LaterEventsIgnored | src/plantuml/renders/httpWrapper.ts:112 | once the connection has closed, later events change nothing |
| HttpWrapper.ChunksKeptInOrder | src/plantuml/renders/httpWrapper.ts:61-64 | chunks after the response are kept in arrival order |
| HttpWrapper.SettledAtClose | src/plantuml/renders/httpWrapper.ts:112-114 | with the method accepted and the includes read, the call settles as the close handler does on the state before the first close |
| HttpWrapper.SavedToPath | src/plantuml/renders/httpWrapper.ts:74-78 | a 200 response with a body and a save path writes the body there and resolves with the path's bytes |
| HttpWrapper.MethodNotAllowedEitherWay | src/plantuml/renders/httpWrapper.ts:90-92 | a 405 without the diagnostic header rejects with `ERROR_405`, whichever accepted method was asked for |
| JsText.NumberTextRoundTrip | src/plantuml/renders/httpWrapper.ts:86 | `parseInt` of a printed number (or of "NaN") gives the number back |
| JsText.AsciiUpper | src/plantuml/renders/httpWrapper.ts:148 | same length, no lower-case ASCII letter left, same letters up to case, other characters unchanged |
| JsText.Utf8 | src/plantuml/renders/httpWrapper.ts:78 | `Buffer.from(savePath)` has at least one byte per character and is empty only for the empty string |

## Left out

- Network I/O is not modelled: `url.parse`, the request options, `http.request`/`https.request`, `req.write` and `req.end`. What the network delivers is a list of events, and what is written on the wire is the route plus the request record.
- Promise and event-loop scheduling is not modelled. A chunk before any response has no listener and is dropped, and everything after the first close is ignored.
- The text of `JSON.stringify` and its escaping are not modelled; the request is the record of its five fields.
- CreateJson: `toUpperCase` is modelled on ASCII letters only; other characters are left as they are.
- `makePlantumlURL` and the "om80" POST URL are not modelled, because the override right after them replaces both.
- The `upperParent` result is never used, so `Render` does not carry it. `diagram.path` is taken to be a string: `commonParent` reads `path1.length`, which would throw on `undefined`.
- CommonParent: characters are Unicode scalar values, while `charAt` and `length` count UTF-16 code units. For text outside the Basic Multilingual Plane the source can cut a surrogate pair, which the model cannot express.
- `diagramStartReg` is defined in a file that is not part of this model. Its `test` is the parameter `isStart`, a pure predicate. The `lastIndex` state that `test` keeps on a regular expression with the global or sticky flag is not modelled.
- Node's `path` normalisation, `vscode.Uri` and the configuration lookups are abstract functions in `Env`.
- File contents are strings: `readFileSync(...).toString()` decoding is not modelled.
- The file system is fixed for the length of a call; concurrent changes are not modelled.
- `writeFileSync` is an output effect that always succeeds. A failing write would throw inside the listener and leave the promise unsettled.
- A close with neither an error nor a response throws a `TypeError` in the listener (`response.statusCode`), so the promise never settles. This is modelled as `Pending`.
- Numbers are unbounded integers. The precision limits of JavaScript numbers for very large line numbers, and header values given as arrays, are not modelled.
- Utf8: only its length bounds and emptiness are stated, plus the bytes of ASCII text (`Utf8Ascii`).
