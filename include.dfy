/**
 * The include-closure resolver of `src/plantuml/diagram/include.ts`.
 *
 * `getIncludes` collects, in first-discovery order, every file reachable from a
 * diagram through `!include` / `!includesub` directives. Relative targets are
 * looked up in the search directories of the including file; the list of found
 * entries is shared across the recursion, a file is read and scanned only by
 * the call that first appends it, and so include cycles end.
 *
 * Collaborators are parameters: the file system is a map from path to content
 * of files and directories, Node's `path` functions, the `fsPath` of
 * `vscode.Uri.file` and the extension's configuration are the functions of an
 * `Env`. A uri is represented by its `fsPath`.
 */
module Include {
  import opened Base
  import opened JsText
  import opened IncludeRegex

  datatype Env = Env(
    join: (string, string) -> string,          // path.join
    dirname: string -> string,                 // path.dirname
    isAbsolute: string -> bool,                // path.isAbsolute
    fileUri: string -> string,                 // vscode.Uri.file(p).fsPath
    includePaths: string -> seq<string>,       // config.includepaths(uri)
    diagramsRoot: string -> Option<string>)    // config.diagramsRoot(uri)?.fsPath

  /** The files (path to content) and the directories on disk. `existsSync` is true for
      both; `readFileSync(p).toString()` is `files[p]`, and it throws for a directory
      (EISDIR) as for a path that does not exist. On a real disk no path is both a file and
      a directory, so `dirs` is meant to be disjoint from the keys of `files`; the model
      does not rely on it, and a path in both would behave as a readable file. */
  datatype FileSystem = FileSystem(files: map<string, string>, dirs: set<string>)

  /** `fs.existsSync(p)`. */
  predicate Exists(fs: FileSystem, p: string) {
    p in fs.files || p in fs.dirs
  }

  /** An entry of the result list: a path, or `undefined` (`None`) for a relative target
      that no search directory holds. */
  type Entry = Option<string>

  /** The parts of a diagram this core reads: its lines, the uri of the file it came from
      (absent for an unsaved document), the line it starts at in that file, and its path. */
  datatype Diagram = Diagram(lines: seq<string>, parentUri: Option<string>, startLine: int, path: string)

  // ---------------------------------------------------------------- search paths

  /** The directories `getSearchPaths` lists before it removes repeats: the file's own
      directory, the configured include paths, then the diagrams root if one is set. */
  function SearchCandidates(env: Env, uri: string): seq<string> {
    [env.dirname(uri)] + env.includePaths(uri)
      + (match env.diagramsRoot(uri) case Some(root) => [root] case None => [])
  }

  /** Appends to `seen` each element of `s` not met before, in order (`new Set` insertion). */
  function DedupInto(seen: seq<string>, s: seq<string>): (r: seq<string>)
    decreases |s|
    ensures IsPrefix(seen, r)
    ensures NoDuplicates(seen) ==> NoDuplicates(r)
    ensures forall x :: x in r <==> x in seen || x in s
  {
    if s == [] then seen
    else
      var seen' := if s[0] in seen then seen else seen + [s[0]];
      var r := DedupInto(seen', s[1..]);
      assert forall x :: x in s <==> x == s[0] || x in s[1..];
      r
  }

  /** `Array.from(new Set(s))`. */
  function Dedup(s: seq<string>): (r: seq<string>)
    ensures NoDuplicates(r)
    ensures forall x :: x in r <==> x in s
    ensures s != [] ==> r != [] && r[0] == s[0]
  {
    var r := DedupInto([], s);
    if s != [] then
      assert [] + [s[0]] == [s[0]];
      assert DedupInto([], s) == DedupInto([s[0]], s[1..]);
      r
    else r
  }

  /** An independent statement of what the set keeps: the first occurrence of each element,
      defined from the end of the sequence. */
  function FirstOccurrences(s: seq<string>): (r: seq<string>)
    ensures forall x :: x in r <==> x in s
  {
    if s == [] then []
    else
      var init := s[..|s| - 1];
      var r := FirstOccurrences(init);
      assert forall x :: x in s <==> x in init || x == s[|s| - 1];
      if s[|s| - 1] in init then r else r + [s[|s| - 1]]
  }

  lemma {:induction false} DedupIntoFirstOccurrences(p: seq<string>, s: seq<string>)
    ensures DedupInto(FirstOccurrences(p), s) == FirstOccurrences(p + s)
    decreases |s|
  {
    if s == [] {
      assert p + s == p;
    } else {
      var q := FirstOccurrences(p);
      var p' := p + [s[0]];
      calc {
        DedupInto(q, s);
        == { DedupIntoStep(q, s); }
        DedupInto(if s[0] in q then q else q + [s[0]], s[1..]);
        == { FirstOccurrencesPush(p, s[0]); }
        DedupInto(FirstOccurrences(p'), s[1..]);
        == { DedupIntoFirstOccurrences(p', s[1..]); }
        FirstOccurrences(p' + s[1..]);
        == { assert p' + s[1..] == p + s; }
        FirstOccurrences(p + s);
      }
    }
  }

  lemma DedupIntoStep(seen: seq<string>, s: seq<string>)
    requires s != []
    ensures DedupInto(seen, s) == DedupInto(if s[0] in seen then seen else seen + [s[0]], s[1..])
  {
  }

  lemma FirstOccurrencesPush(p: seq<string>, x: string)
    ensures FirstOccurrences(p + [x]) == if x in FirstOccurrences(p) then FirstOccurrences(p) else FirstOccurrences(p) + [x]
  {
    assert (p + [x])[..|p + [x]| - 1] == p;
  }

  /** Removing repeats keeps exactly the first occurrences, in their order. */
  lemma DedupKeepsFirstOccurrences(s: seq<string>)
    ensures Dedup(s) == FirstOccurrences(s)
  {
    DedupIntoFirstOccurrences([], s);
    assert [] + s == s;
  }

  /** `getSearchPaths(uri)`: nothing for a missing uri; otherwise the file's own directory
      first, then the configured paths and the root, each directory once. */
  function SearchPaths(env: Env, uri: Option<string>): (r: seq<string>)
    ensures uri.None? ==> r == []
    ensures uri.Some? ==> r != [] && r[0] == env.dirname(uri.value)
    ensures uri.Some? ==> forall d :: d in r <==> d in SearchCandidates(env, uri.value)
    ensures NoDuplicates(r)
  {
    match uri
    case None => []
    case Some(u) => Dedup(SearchCandidates(env, u))
  }

  /** `getSearchPaths`, building the list with `push` and removing repeats with a `Set`. */
  method GetSearchPaths(env: Env, uri: Option<string>) returns (searchPaths: seq<string>)
    ensures searchPaths == SearchPaths(env, uri)
  {
    if uri.None? {
      return [];
    }
    var u := uri.value;
    var candidates := [env.dirname(u)];
    candidates := candidates + env.includePaths(u);
    var root := env.diagramsRoot(u);
    if root.Some? {
      candidates := candidates + [root.value];
    }
    assert candidates == SearchCandidates(env, u);
    var seen: set<string> := {};
    searchPaths := [];
    for i := 0 to |candidates|
      invariant forall x :: x in seen <==> x in searchPaths
      invariant DedupInto(searchPaths, candidates[i..]) == DedupInto([], candidates)
    {
      DedupIntoStep(searchPaths, candidates[i..]);
      assert candidates[i..][1..] == candidates[i + 1..];
      if candidates[i] !in seen {
        seen := seen + {candidates[i]};
        searchPaths := searchPaths + [candidates[i]];
      }
    }
    assert candidates[|candidates|..] == [];
  }

  // ---------------------------------------------------------------- findFile

  /** `dirs[k]` is the first search directory holding `target`. */
  predicate FirstHit(fs: FileSystem, env: Env, dirs: seq<string>, target: string, k: int) {
    0 <= k < |dirs| && Exists(fs, env.join(dirs[k], target))
    && forall j :: 0 <= j < k ==> !Exists(fs, env.join(dirs[j], target))
  }

  /** The first search directory whose candidate exists, joined with the target. */
  function FirstExisting(fs: FileSystem, env: Env, dirs: seq<string>, target: string): (r: Entry)
    ensures r.None? <==> forall k :: 0 <= k < |dirs| ==> !Exists(fs, env.join(dirs[k], target))
    ensures r.Some? ==> Exists(fs, r.value) && exists k :: FirstHit(fs, env, dirs, target, k) && r.value == env.join(dirs[k], target)
  {
    if dirs == [] then None
    else
      var candidate := env.join(dirs[0], target);
      if Exists(fs, candidate) then Some(candidate)
      else
        var r := FirstExisting(fs, env, dirs[1..], target);
        assert forall k :: 1 <= k < |dirs| ==> dirs[1..][k - 1] == dirs[k];
        if r.Some? then
          var k :| FirstHit(fs, env, dirs[1..], target, k) && r.value == env.join(dirs[1..][k], target);
          assert FirstHit(fs, env, dirs, target, k + 1) by {
            forall j | 0 <= j < k + 1 ensures !Exists(fs, env.join(dirs[j], target)) {
              if j > 0 { assert dirs[j] == dirs[1..][j - 1]; }
            }
          }
          r
        else r
  }

  /** `findFile`: loops over the directories and returns at the first candidate that exists. */
  method FindFile(fs: FileSystem, env: Env, file: string, searchPaths: seq<string>) returns (found: Entry)
    ensures found == FirstExisting(fs, env, searchPaths, file)
  {
    for i := 0 to |searchPaths|
      invariant FirstExisting(fs, env, searchPaths, file) == FirstExisting(fs, env, searchPaths[i..], file)
    {
      assert searchPaths[i..][1..] == searchPaths[i + 1..];
      found := Some(env.join(searchPaths[i], file));
      if Exists(fs, found.value) {
        return found;
      }
    }
    return None;
  }

  /** `path.isAbsolute(target) ? target : findFile(target, searchPaths)`. */
  function Resolve(fs: FileSystem, env: Env, target: string, searchPaths: seq<string>): Entry {
    if env.isAbsolute(target) then Some(target) else FirstExisting(fs, env, searchPaths, target)
  }

  /** The trimmed target of a line the include pattern matches (`args[1].trim()`); the
      keyword and the label play no part in what is included. */
  function DirectiveTarget(line: string): Option<string> {
    match MatchInclude(line)
    case None => None
    case Some(d) => Some(Trim(d.target))
  }

  /** A line has a target exactly when some well-formed directive spells it, and the target
      is the trimmed target of the spelling whose gap is maximal. */
  lemma DirectiveTargetMeaning(line: string)
    ensures DirectiveTarget(line).Some? <==> exists d :: WellFormed(d) && Text(d) == line
    ensures forall d :: WellFormed(d) && Text(d) == line && MaximalGap(d) ==> DirectiveTarget(line) == Some(Trim(d.target))
    ensures DirectiveTarget(line).Some? ==>
      exists d :: WellFormed(d) && Text(d) == line && MaximalGap(d) && DirectiveTarget(line).value == Trim(d.target)
  {
    MatchIncludeCharacterised(line);
  }

  /** The lines `filter` keeps, each as its target, and `None` for a line it drops. */
  function Targets(lines: seq<string>): (r: seq<Option<string>>)
    ensures |r| == |lines|
    ensures forall i :: 0 <= i < |lines| ==> r[i] == DirectiveTarget(lines[i])
  {
    seq(|lines|, i requires 0 <= i < |lines| => DirectiveTarget(lines[i]))
  }

  /** The entry a directive asks for: its target, resolved against the search paths. */
  function LineTarget(fs: FileSystem, env: Env, searchPaths: seq<string>, target: Option<string>): Option<Entry> {
    match target
    case None => None
    case Some(t) => Some(Resolve(fs, env, t, searchPaths))
  }

  /** A pushed entry `findIncludesInIncluded` goes on to read: not `undefined`, not "" (both
      falsy), and present (otherwise `readFileSync` throws). */
  predicate Readable(fs: FileSystem, e: Entry) {
    e.Some? && e.value != "" && e.value in fs.files
  }

  /** The entry is a path found on disk, an absolute target taken as written, or `undefined`. */
  predicate Resolved(fs: FileSystem, env: Env, e: Entry) {
    e.None? || Exists(fs, e.value) || env.isAbsolute(e.value)
  }

  // ---------------------------------------------------------------- termination measure

  /** The files of the map that are not yet in the list. */
  function Unread(fs: FileSystem, found: seq<Entry>): nat {
    |set p | p in fs.files.Keys && Some(p) !in found|
  }

  lemma {:induction false} SubsetCardinality(a: set<string>, b: set<string>)
    requires a <= b
    ensures |a| <= |b|
    decreases |b|
  {
    if a != {} {
      var x :| x in a;
      SubsetCardinality(a - {x}, b - {x});
    }
  }

  lemma UnreadAntitone(fs: FileSystem, a: seq<Entry>, b: seq<Entry>)
    requires forall e :: e in a ==> e in b
    ensures Unread(fs, b) <= Unread(fs, a)
  {
    SubsetCardinality(set p | p in fs.files.Keys && Some(p) !in b, set p | p in fs.files.Keys && Some(p) !in a);
  }

  /** Appending an entry never adds unread files, and appending a readable new one removes one. */
  lemma UnreadAfterPush(fs: FileSystem, found: seq<Entry>, e: Entry)
    requires e !in found
    ensures Unread(fs, found + [e]) + (if Readable(fs, e) then 1 else 0) <= Unread(fs, found)
  {
    var before := set p | p in fs.files.Keys && Some(p) !in found;
    var after := set p | p in fs.files.Keys && Some(p) !in found + [e];
    if Readable(fs, e) {
      assert after == before - {e.value};
    } else {
      UnreadAntitone(fs, found, found + [e]);
    }
  }

  lemma PrefixMembers<T>(a: seq<T>, b: seq<T>)
    requires IsPrefix(a, b)
    ensures forall e :: e in a ==> e in b
  {
    forall e | e in a ensures e in b {
      var k :| 0 <= k < |a| && a[k] == e;
      assert b[k] == e;
    }
  }


  // ---------------------------------------------------------------- the scan, as functions

  /** The effect of a scan: the list afterwards, the files read (in order), and the path
      whose `readFileSync` threw, if one did (the scan stops there). */
  datatype Scan = Scan(found: seq<Entry>, readFiles: seq<string>, failure: Option<string>)

  /** The callback `findIncludes` runs for one line: a line the pattern matches resolves its
      target, and an entry not yet in the list is appended and handed to `ScanFile`. */
  function ScanLine(fs: FileSystem, env: Env, target: Option<string>, searchPaths: seq<string>, found: seq<Entry>): (r: Scan)
    decreases Unread(fs, found), 1, 0
    ensures IsPrefix(found, r.found)
  {
    match LineTarget(fs, env, searchPaths, target)
    case None => Scan(found, [], None)
    case Some(file) =>
      if file in found then Scan(found, [], None)
      else
        UnreadAfterPush(fs, found, file);
        var r := ScanFile(fs, env, file, found + [file]);
        PrefixOfPush(found, file);
        PrefixTransitive(found, found + [file], r.found);
        r
  }

  /** `findIncludes(lines, searchPaths, found)`: the lines in order, stopping at a read that
      throws. */
  function ScanLines(fs: FileSystem, env: Env, targets: seq<Option<string>>, searchPaths: seq<string>, found: seq<Entry>): (r: Scan)
    decreases Unread(fs, found), 2, |targets|
    ensures IsPrefix(found, r.found)
  {
    if targets == [] then Scan(found, [], None)
    else
      var step := ScanLine(fs, env, targets[0], searchPaths, found);
      if step.failure.Some? then step
      else
        PrefixMembers(found, step.found);
        UnreadAntitone(fs, found, step.found);
        var rest := ScanLines(fs, env, targets[1..], searchPaths, step.found);
        PrefixTransitive(found, step.found, rest.found);
        Scan(rest.found, step.readFiles + rest.readFiles, rest.failure)
  }

  /** `findIncludesInIncluded(file, found)`: a falsy entry is left alone, a path that is not
      a file (absent, or a directory) throws, and a file is read, split on '\n' and scanned
      with the search paths of its own directory. */
  function ScanFile(fs: FileSystem, env: Env, file: Entry, found: seq<Entry>): (r: Scan)
    decreases Unread(fs, found) + (if Readable(fs, file) then 1 else 0), 0, 0
    ensures IsPrefix(found, r.found)
  {
    if file.None? || file.value == "" then Scan(found, [], None)
    else if file.value !in fs.files then Scan(found, [], Some(file.value))
    else
      var inner := ScanLines(fs, env, Targets(SplitLines(fs.files[file.value])), SearchPaths(env, Some(env.fileUri(file.value))), found);
      Scan(inner.found, [file.value] + inner.readFiles, inner.failure)
  }

  /** `getIncludes(diagram)`: the list, or the path whose read threw. */
  function Includes(fs: FileSystem, env: Env, diagram: Diagram): Result<seq<Entry>, string> {
    var s := ScanLines(fs, env, Targets(diagram.lines), SearchPaths(env, diagram.parentUri), []);
    if s.failure.Some? then Err(s.failure.value) else Ok(s.found)
  }

  /** One turn of the loop in `findIncludes`: the line at `i`, then the lines after it. */
  lemma ScanLinesStep(fs: FileSystem, env: Env, targets: seq<Option<string>>, i: int, searchPaths: seq<string>, found: seq<Entry>)
    requires 0 <= i < |targets|
    ensures var step := ScanLine(fs, env, targets[i], searchPaths, found);
      ScanLines(fs, env, targets[i..], searchPaths, found)
      == if step.failure.Some? then step
         else
           var rest := ScanLines(fs, env, targets[i + 1..], searchPaths, step.found);
           Scan(rest.found, step.readFiles + rest.readFiles, rest.failure)
  {
    assert targets[i..][0] == targets[i];
    assert targets[i..][1..] == targets[i + 1..];
  }

  lemma ScanLineUnread(fs: FileSystem, env: Env, target: Option<string>, searchPaths: seq<string>, found: seq<Entry>)
    ensures Unread(fs, ScanLine(fs, env, target, searchPaths, found).found) <= Unread(fs, found)
  {
    var r := ScanLine(fs, env, target, searchPaths, found);
    PrefixMembers(found, r.found);
    UnreadAntitone(fs, found, r.found);
  }

  /** Scanning what is left, after the files logged so far, ends where the whole scan does. */
  predicate Continues(rest: Scan, log: seq<string>, whole: Scan, log0: seq<string>) {
    rest.found == whole.found && rest.failure == whole.failure && log + rest.readFiles == log0 + whole.readFiles
  }

  lemma ContinuesStep(here: Scan, step: Scan, rest: Scan, log: seq<string>, whole: Scan, log0: seq<string>)
    requires Continues(here, log, whole, log0)
    requires here == Scan(rest.found, step.readFiles + rest.readFiles, rest.failure)
    ensures Continues(rest, log + step.readFiles, whole, log0)
  {
    assert log + here.readFiles == (log + step.readFiles) + rest.readFiles;
  }

  /** A file that exists is read, then its lines are scanned with its own search paths. */
  lemma ScanFileRead(fs: FileSystem, env: Env, p: string, found: seq<Entry>)
    requires p != "" && p in fs.files
    ensures var inner := ScanLines(fs, env, Targets(SplitLines(fs.files[p])), SearchPaths(env, Some(env.fileUri(p))), found);
      ScanFile(fs, env, Some(p), found) == Scan(inner.found, [p] + inner.readFiles, inner.failure)
  {
  }

  // ---------------------------------------------------------------- the scan, as the source runs it

  /** The state `getIncludes` shares across the recursion: the `foundIncludeds` array, and
      (for the proof) the files read so far. */
  class IncludeScanner {
    const fs: FileSystem
    const env: Env
    var found: seq<Entry>
    ghost var readLog: seq<string>

    constructor(fs: FileSystem, env: Env)
      ensures this.fs == fs && this.env == env && found == [] && readLog == []
    {
      this.fs := fs;
      this.env := env;
      found := [];
      readLog := [];
    }

    /** The `replace` callback of `findIncludes`, for one line. */
    method IncludeLine(line: string, searchPaths: seq<string>) returns (failure: Option<string>)
      modifies this
      decreases Unread(fs, found), 1, 0
      ensures var r := ScanLine(fs, env, DirectiveTarget(line), searchPaths, old(found));
        found == r.found && readLog == old(readLog) + r.readFiles && failure == r.failure
    {
      var m := MatchInclude(line);
      if m.None? {
        return None;
      }
      var target := Trim(m.value.target);
      var file: Entry;
      if env.isAbsolute(target) {
        file := Some(target);
      } else {
        file := FindFile(fs, env, target, searchPaths);
      }
      ScanLineOf(fs, env, DirectiveTarget(line), searchPaths, found, file);
      failure := AddIncluded(file);
    }

    /** The callback once the entry is known: push it when `indexOf` does not find it, then
        scan it. */
    method AddIncluded(file: Entry) returns (failure: Option<string>)
      modifies this
      decreases Unread(fs, found), 0, 1
      ensures var r := if file in old(found) then Scan(old(found), [], None) else ScanFile(fs, env, file, old(found) + [file]);
        found == r.found && readLog == old(readLog) + r.readFiles && failure == r.failure
    {
      if file in found {
        return None;
      }
      UnreadAfterPush(fs, found, file);
      found := found + [file];
      failure := FindIncludesInIncluded(file);
    }

    /** `findIncludes`; a non-`None` result is the path whose read threw. */
    method FindIncludes(lines: seq<string>, searchPaths: seq<string>) returns (failure: Option<string>)
      modifies this
      decreases Unread(fs, found), 2, |lines|
      ensures var r := ScanLines(fs, env, Targets(lines), searchPaths, old(found));
        found == r.found && readLog == old(readLog) + r.readFiles && failure == r.failure
    {
      ghost var targets := Targets(lines);
      ghost var whole := ScanLines(fs, env, targets, searchPaths, found);
      assert targets[0..] == targets;
      var i := 0;
      while i < |lines|
        invariant 0 <= i <= |lines|
        invariant Unread(fs, found) <= Unread(fs, old(found))
        invariant Continues(ScanLines(fs, env, targets[i..], searchPaths, found), readLog, whole, old(readLog))
      {
        ScanLinesStep(fs, env, targets, i, searchPaths, found);
        ScanLineUnread(fs, env, targets[i], searchPaths, found);
        ghost var here := ScanLines(fs, env, targets[i..], searchPaths, found);
        ghost var step := ScanLine(fs, env, targets[i], searchPaths, found);
        ghost var log := readLog;
        failure := IncludeLine(lines[i], searchPaths);
        if failure.Some? {
          return;
        }
        ContinuesStep(here, step,
          ScanLines(fs, env, targets[i + 1..], searchPaths, found), log, whole, old(readLog));
        i := i + 1;
      }
      assert targets[|lines|..] == [];
      failure := None;
    }

    /** `findIncludesInIncluded`. */
    method FindIncludesInIncluded(file: Entry) returns (failure: Option<string>)
      modifies this
      decreases Unread(fs, found) + (if Readable(fs, file) then 1 else 0), 0, 0
      ensures var r := ScanFile(fs, env, file, old(found));
        found == r.found && readLog == old(readLog) + r.readFiles && failure == r.failure
    {
      if file.None? || file.value == "" {
        return None;
      }
      var p := file.value;
      if p !in fs.files {
        return Some(p);
      }
      var content := fs.files[p];
      readLog := readLog + [p];
      var searchPaths := GetSearchPaths(env, Some(env.fileUri(p)));
      failure := FindIncludes(SplitLines(content), searchPaths);
      ScanFileRead(fs, env, p, old(found));
      ConcatAssoc(old(readLog), [p], ScanLines(fs, env, Targets(SplitLines(content)), searchPaths, old(found)).readFiles);
    }
  }

  /** `getIncludes`: a fresh list, filled by scanning the diagram's lines with the search
      paths of its own uri. */
  method GetIncludes(fs: FileSystem, env: Env, diagram: Diagram) returns (r: Result<seq<Entry>, string>)
    ensures r == Includes(fs, env, diagram)
    ensures r.Ok? ==> NoDuplicates(r.value)
    ensures r.Ok? ==> forall e :: e in r.value ==> Resolved(fs, env, e)
    ensures r.Ok? ==> Covered(fs, env, SearchPaths(env, diagram.parentUri), Targets(diagram.lines), r.value)
    ensures r.Ok? ==> forall e :: e in r.value ==> FileClosed(fs, env, e, r.value)
    ensures r.Ok? ==> Discovered(fs, env, SearchPaths(env, diagram.parentUri), Targets(diagram.lines), r.value, 0)
  {
    var searchPaths := GetSearchPaths(env, diagram.parentUri);
    var scanner := new IncludeScanner(fs, env);
    var failure := scanner.FindIncludes(diagram.lines, searchPaths);
    ScanLinesNoDuplicates(fs, env, Targets(diagram.lines), searchPaths, []);
    ScanLinesResolved(fs, env, Targets(diagram.lines), searchPaths, []);
    IncludesClosed(fs, env, diagram);
    IncludesDiscovered(fs, env, diagram);
    if failure.Some? {
      return Err(failure.value);
    }
    return Ok(scanner.found);
  }

  // ---------------------------------------------------------------- properties of the scan

  lemma PushKeepsNoDuplicates<T>(s: seq<T>, x: T)
    requires NoDuplicates(s) && x !in s
    ensures NoDuplicates(s + [x])
  {
  }

  /** An entry is appended only when `indexOf` did not find it, so the list never holds
      one twice: a cycle, or a file included from two places, is scanned once. */
  lemma {:induction false} ScanLinesNoDuplicates(fs: FileSystem, env: Env, targets: seq<Option<string>>, searchPaths: seq<string>, found: seq<Entry>)
    requires NoDuplicates(found)
    ensures NoDuplicates(ScanLines(fs, env, targets, searchPaths, found).found)
    decreases Unread(fs, found), 2, |targets|
  {
    if targets != [] {
      ScanLineNoDuplicates(fs, env, targets[0], searchPaths, found);
      var step := ScanLine(fs, env, targets[0], searchPaths, found);
      if step.failure.None? {
        PrefixMembers(found, step.found);
        UnreadAntitone(fs, found, step.found);
        ScanLinesNoDuplicates(fs, env, targets[1..], searchPaths, step.found);
      }
    }
  }

  lemma {:induction false} ScanLineNoDuplicates(fs: FileSystem, env: Env, target: Option<string>, searchPaths: seq<string>, found: seq<Entry>)
    requires NoDuplicates(found)
    ensures NoDuplicates(ScanLine(fs, env, target, searchPaths, found).found)
    decreases Unread(fs, found), 1, 0
  {
    match LineTarget(fs, env, searchPaths, target)
    case None =>
    case Some(file) =>
      if file !in found {
        UnreadAfterPush(fs, found, file);
        PushKeepsNoDuplicates(found, file);
        ScanFileNoDuplicates(fs, env, file, found + [file]);
      }
  }

  lemma {:induction false} ScanFileNoDuplicates(fs: FileSystem, env: Env, file: Entry, found: seq<Entry>)
    requires NoDuplicates(found)
    ensures NoDuplicates(ScanFile(fs, env, file, found).found)
    decreases Unread(fs, found) + (if Readable(fs, file) then 1 else 0), 0, 0
  {
    if Readable(fs, file) {
      ScanLinesNoDuplicates(fs, env, Targets(SplitLines(fs.files[file.value])), SearchPaths(env, Some(env.fileUri(file.value))), found);
    }
  }

  /** The scan's result is well resolved: every entry is a path that exists, an absolute
      target, or `undefined`, and a scan that stops does so at a path that is not a file:
      an absolute target, or a directory a search path led to. */
  predicate ResolvedScan(fs: FileSystem, env: Env, r: Scan) {
    (forall e :: e in r.found ==> Resolved(fs, env, e))
    && (r.failure.Some? ==> r.failure.value !in fs.files && (env.isAbsolute(r.failure.value) || r.failure.value in fs.dirs))
  }

  lemma {:induction false} ScanLinesResolved(fs: FileSystem, env: Env, targets: seq<Option<string>>, searchPaths: seq<string>, found: seq<Entry>)
    requires forall e :: e in found ==> Resolved(fs, env, e)
    ensures ResolvedScan(fs, env, ScanLines(fs, env, targets, searchPaths, found))
    decreases Unread(fs, found), 2, |targets|
  {
    if targets != [] {
      ScanLineResolved(fs, env, targets[0], searchPaths, found);
      var step := ScanLine(fs, env, targets[0], searchPaths, found);
      if step.failure.None? {
        PrefixMembers(found, step.found);
        UnreadAntitone(fs, found, step.found);
        ScanLinesResolved(fs, env, targets[1..], searchPaths, step.found);
      }
    }
  }

  lemma {:induction false} ScanLineResolved(fs: FileSystem, env: Env, target: Option<string>, searchPaths: seq<string>, found: seq<Entry>)
    requires forall e :: e in found ==> Resolved(fs, env, e)
    ensures ResolvedScan(fs, env, ScanLine(fs, env, target, searchPaths, found))
    decreases Unread(fs, found), 1, 0
  {
    match LineTarget(fs, env, searchPaths, target)
    case None =>
    case Some(file) =>
      if file !in found {
        UnreadAfterPush(fs, found, file);
        var t := target.value;
        if !env.isAbsolute(t) {
          assert file == FirstExisting(fs, env, searchPaths, t);
        }
        assert Resolved(fs, env, file);
        ScanFileResolved(fs, env, file, found + [file]);
      }
  }

  lemma {:induction false} ScanFileResolved(fs: FileSystem, env: Env, file: Entry, found: seq<Entry>)
    requires forall e :: e in found ==> Resolved(fs, env, e)
    requires file in found
    ensures ResolvedScan(fs, env, ScanFile(fs, env, file, found))
    decreases Unread(fs, found) + (if Readable(fs, file) then 1 else 0), 0, 0
  {
    if Readable(fs, file) {
      ScanLinesResolved(fs, env, Targets(SplitLines(fs.files[file.value])), SearchPaths(env, Some(env.fileUri(file.value))), found);
    }
  }

  /** The paths `findIncludesInIncluded` reads for the given entries, in order. */
  function Readables(fs: FileSystem, s: seq<Entry>): seq<string> {
    if s == [] then []
    else (if Readable(fs, s[0]) then [s[0].value] else []) + Readables(fs, s[1..])
  }

  lemma {:induction false} ReadablesAppend(fs: FileSystem, a: seq<Entry>, b: seq<Entry>)
    ensures Readables(fs, a + b) == Readables(fs, a) + Readables(fs, b)
  {
    if a == [] {
      assert a + b == b;
    } else {
      assert (a + b)[1..] == a[1..] + b;
      ReadablesAppend(fs, a[1..], b);
    }
  }

  lemma {:induction false} ReadablesOfDistinct(fs: FileSystem, s: seq<Entry>)
    requires NoDuplicates(s)
    ensures NoDuplicates(Readables(fs, s))
    ensures forall p :: p in Readables(fs, s) ==> p in fs.files && Some(p) in s
  {
    if s != [] {
      ReadablesOfDistinct(fs, s[1..]);
      assert forall p :: p in Readables(fs, s) ==> p in Readables(fs, s[1..]) || Some(p) == s[0];
    }
  }

  /** The files read are exactly the readable entries the scan appended, in order: a file
      is read by the call that appends it and by no other. */
  lemma {:induction false} ScanLinesReads(fs: FileSystem, env: Env, targets: seq<Option<string>>, searchPaths: seq<string>, found: seq<Entry>)
    ensures var r := ScanLines(fs, env, targets, searchPaths, found);
      r.readFiles == Readables(fs, r.found[|found|..])
    decreases Unread(fs, found), 2, |targets|
  {
    if targets == [] {
      assert found[|found|..] == [];
    } else {
      ScanLineReads(fs, env, targets[0], searchPaths, found);
      var step := ScanLine(fs, env, targets[0], searchPaths, found);
      if step.failure.None? {
        PrefixMembers(found, step.found);
        UnreadAntitone(fs, found, step.found);
        ScanLinesReads(fs, env, targets[1..], searchPaths, step.found);
        var rest := ScanLines(fs, env, targets[1..], searchPaths, step.found);
        PrefixSplit(found, step.found, rest.found);
        ReadablesAppend(fs, step.found[|found|..], rest.found[|step.found|..]);
      }
    }
  }

  lemma {:induction false} ScanLineReads(fs: FileSystem, env: Env, target: Option<string>, searchPaths: seq<string>, found: seq<Entry>)
    ensures var r := ScanLine(fs, env, target, searchPaths, found);
      r.readFiles == Readables(fs, r.found[|found|..])
    decreases Unread(fs, found), 1, 0
  {
    match LineTarget(fs, env, searchPaths, target)
    case None =>
      assert found[|found|..] == [];
    case Some(file) =>
      if file in found {
        assert found[|found|..] == [];
      } else {
        UnreadAfterPush(fs, found, file);
        NewEntry(fs, env, target, searchPaths, found, file);
        ScanFileReads(fs, env, file, found + [file]);
        ReadsAfterPush(fs, found, file, ScanFile(fs, env, file, found + [file]));
      }
  }

  /** The reads of a scan that began by appending `file`, counted from before the append. */
  lemma ReadsAfterPush(fs: FileSystem, found: seq<Entry>, file: Entry, r: Scan)
    requires IsPrefix(found + [file], r.found)
    requires r.readFiles == (if Readable(fs, file) then [file.value] else []) + Readables(fs, r.found[|found + [file]|..])
    ensures r.readFiles == Readables(fs, r.found[|found|..])
  {
    var tail := r.found[|found + [file]|..];
    assert r.found[|found|..] == [file] + tail by {
      PrefixOfPush(found, file);
      PrefixSplit(found, found + [file], r.found);
      assert (found + [file])[|found|..] == [file];
    }
    assert [file][1..] == [];
    ReadablesAppend(fs, [file], tail);
  }

  lemma {:induction false} ScanFileReads(fs: FileSystem, env: Env, file: Entry, found: seq<Entry>)
    ensures var r := ScanFile(fs, env, file, found);
      r.readFiles == (if Readable(fs, file) then [file.value] else []) + Readables(fs, r.found[|found|..])
    decreases Unread(fs, found) + (if Readable(fs, file) then 1 else 0), 0, 0
  {
    if Readable(fs, file) {
      ScanLinesReads(fs, env, Targets(SplitLines(fs.files[file.value])), SearchPaths(env, Some(env.fileUri(file.value))), found);
    } else {
      assert found[|found|..] == [];
    }
  }

  /** However the includes nest or cycle, `getIncludes` reads each file at most once, and
      only files that exist and that it lists. */
  lemma EachFileReadOnce(fs: FileSystem, env: Env, diagram: Diagram)
    ensures var s := ScanLines(fs, env, Targets(diagram.lines), SearchPaths(env, diagram.parentUri), []);
      NoDuplicates(s.readFiles) && forall p :: p in s.readFiles ==> p in fs.files && Some(p) in s.found
  {
    var sp := SearchPaths(env, diagram.parentUri);
    ScanLinesReads(fs, env, Targets(diagram.lines), sp, []);
    ScanLinesNoDuplicates(fs, env, Targets(diagram.lines), sp, []);
    var s := ScanLines(fs, env, Targets(diagram.lines), sp, []);
    assert s.found[0..] == s.found;
    ReadablesOfDistinct(fs, s.found);
  }

  // ---------------------------------------------------------------- the list is closed under inclusion

  /** Each of `targets` is no directive at all, or resolves to an entry the list holds
      (which may be `undefined`). */
  predicate Covered(fs: FileSystem, env: Env, searchPaths: seq<string>, targets: seq<Option<string>>, found: seq<Entry>) {
    forall k :: 0 <= k < |targets| ==> AsksNothingNew(fs, env, searchPaths, targets[k], found)
  }

  /** A listed file that is read has all its directives covered by the list. */
  predicate FileClosed(fs: FileSystem, env: Env, e: Entry, found: seq<Entry>) {
    Readable(fs, e) ==> Covered(fs, env, SearchPaths(env, Some(env.fileUri(e.value))), Targets(SplitLines(fs.files[e.value])), found)
  }

  /** The entries appended since `found` are each closed with respect to `now`. */
  predicate NewClosed(fs: FileSystem, env: Env, found: seq<Entry>, now: seq<Entry>)
    requires |found| <= |now|
  {
    forall e :: e in now[|found|..] ==> FileClosed(fs, env, e, now)
  }

  lemma CoveredGrows(fs: FileSystem, env: Env, searchPaths: seq<string>, targets: seq<Option<string>>, a: seq<Entry>, b: seq<Entry>)
    requires Covered(fs, env, searchPaths, targets, a) && IsPrefix(a, b)
    ensures Covered(fs, env, searchPaths, targets, b)
  {
    PrefixMembers(a, b);
  }

  lemma NewClosedGrows(fs: FileSystem, env: Env, found: seq<Entry>, a: seq<Entry>, b: seq<Entry>)
    requires IsPrefix(found, a) && IsPrefix(a, b) && NewClosed(fs, env, found, a)
    ensures forall e :: e in a[|found|..] ==> FileClosed(fs, env, e, b)
  {
    forall e | e in a[|found|..] && Readable(fs, e)
      ensures Covered(fs, env, SearchPaths(env, Some(env.fileUri(e.value))), Targets(SplitLines(fs.files[e.value])), b)
    {
      CoveredGrows(fs, env, SearchPaths(env, Some(env.fileUri(e.value))), Targets(SplitLines(fs.files[e.value])), a, b);
    }
  }

  /** A scan that does not throw leaves every one of its directives covered, and every file
      it appended closed: nothing reachable is missing from the list. */
  lemma {:induction false} ScanLinesClosed(fs: FileSystem, env: Env, targets: seq<Option<string>>, searchPaths: seq<string>, found: seq<Entry>)
    ensures var r := ScanLines(fs, env, targets, searchPaths, found);
      r.failure.None? ==> Covered(fs, env, searchPaths, targets, r.found) && NewClosed(fs, env, found, r.found)
    decreases Unread(fs, found), 2, |targets|
  {
    var r := ScanLines(fs, env, targets, searchPaths, found);
    if targets == [] {
      assert r.found[|found|..] == [];
    } else {
      ScanLineClosed(fs, env, targets[0], searchPaths, found);
      var step := ScanLine(fs, env, targets[0], searchPaths, found);
      if step.failure.None? {
        PrefixMembers(found, step.found);
        UnreadAntitone(fs, found, step.found);
        ScanLinesClosed(fs, env, targets[1..], searchPaths, step.found);
        var rest := ScanLines(fs, env, targets[1..], searchPaths, step.found);
        assert r.found == rest.found && r.failure == rest.failure;
        if r.failure.None? {
          PrefixMembers(step.found, rest.found);
          forall k | 0 <= k < |targets| ensures AsksNothingNew(fs, env, searchPaths, targets[k], r.found) {
            if k > 0 {
              assert targets[k] == targets[1..][k - 1];
            }
          }
          PrefixSplit(found, step.found, rest.found);
          NewClosedGrows(fs, env, found, step.found, rest.found);
        }
      }
    }
  }

  lemma {:induction false} ScanLineClosed(fs: FileSystem, env: Env, target: Option<string>, searchPaths: seq<string>, found: seq<Entry>)
    ensures var r := ScanLine(fs, env, target, searchPaths, found);
      r.failure.None? ==> AsksNothingNew(fs, env, searchPaths, target, r.found) && NewClosed(fs, env, found, r.found)
    decreases Unread(fs, found), 1, 0
  {
    var r := ScanLine(fs, env, target, searchPaths, found);
    match LineTarget(fs, env, searchPaths, target)
    case None =>
      assert found[|found|..] == [];
    case Some(file) =>
      if file in found {
        assert found[|found|..] == [];
      } else {
        UnreadAfterPush(fs, found, file);
        NewEntry(fs, env, target, searchPaths, found, file);
        ScanFileClosed(fs, env, file, found + [file]);
        if r.failure.None? {
          PrefixOfPush(found, file);
          PrefixSplit(found, found + [file], r.found);
          assert (found + [file])[|found|..] == [file];
          assert r.found[|found|..] == [file] + r.found[|found + [file]|..];
          PrefixMembers(found + [file], r.found);
        }
      }
  }

  lemma {:induction false} ScanFileClosed(fs: FileSystem, env: Env, file: Entry, found: seq<Entry>)
    ensures var r := ScanFile(fs, env, file, found);
      r.failure.None? ==> FileClosed(fs, env, file, r.found) && NewClosed(fs, env, found, r.found)
    decreases Unread(fs, found) + (if Readable(fs, file) then 1 else 0), 0, 0
  {
    if Readable(fs, file) {
      ScanLinesClosed(fs, env, Targets(SplitLines(fs.files[file.value])), SearchPaths(env, Some(env.fileUri(file.value))), found);
    } else {
      assert found[|found|..] == [];
    }
  }

  /** The list `getIncludes` returns is closed: every directive of the diagram, and every
      directive of every listed file it read, resolves to nothing or to a listed entry. */
  lemma IncludesClosed(fs: FileSystem, env: Env, diagram: Diagram)
    ensures var r := Includes(fs, env, diagram);
      r.Ok? ==> (Covered(fs, env, SearchPaths(env, diagram.parentUri), Targets(diagram.lines), r.value)
                 && forall e :: e in r.value ==> FileClosed(fs, env, e, r.value))
  {
    var sp := SearchPaths(env, diagram.parentUri);
    ScanLinesClosed(fs, env, Targets(diagram.lines), sp, []);
    var s := ScanLines(fs, env, Targets(diagram.lines), sp, []);
    assert s.found[0..] == s.found;
  }

  // ---------------------------------------------------------------- where each entry comes from

  /** Some line of `targets` asks for `e`. */
  predicate AskedBy(fs: FileSystem, env: Env, searchPaths: seq<string>, targets: seq<Option<string>>, e: Entry) {
    exists k :: 0 <= k < |targets| && LineTarget(fs, env, searchPaths, targets[k]) == Some(e)
  }

  /** `f` is a file that is read, and one of its directives asks for `e`. */
  predicate AskedIn(fs: FileSystem, env: Env, f: Entry, e: Entry) {
    Readable(fs, f) && AskedBy(fs, env, SearchPaths(env, Some(env.fileUri(f.value))), Targets(SplitLines(fs.files[f.value])), e)
  }

  /** The entry at `i` is asked for by a file listed before it. */
  predicate Earlier(fs: FileSystem, env: Env, now: seq<Entry>, i: nat)
    requires i < |now|
  {
    exists j :: 0 <= j < i && AskedIn(fs, env, now[j], now[i])
  }

  /** Every entry of `now` from index `from` on is asked for by a line of `targets`, or by a
      file listed before it. */
  predicate Discovered(fs: FileSystem, env: Env, searchPaths: seq<string>, targets: seq<Option<string>>, now: seq<Entry>, from: nat) {
    forall i :: from <= i < |now| ==> AskedBy(fs, env, searchPaths, targets, now[i]) || Earlier(fs, env, now, i)
  }

  /** Every entry of `now` from index `from` on is asked for by a file listed before it. */
  predicate FromFiles(fs: FileSystem, env: Env, now: seq<Entry>, from: nat) {
    forall i :: from <= i < |now| ==> Earlier(fs, env, now, i)
  }

  lemma EarlierGrows(fs: FileSystem, env: Env, a: seq<Entry>, b: seq<Entry>, i: nat)
    requires IsPrefix(a, b) && i < |a| && Earlier(fs, env, a, i)
    ensures Earlier(fs, env, b, i)
  {
    var j :| 0 <= j < i && AskedIn(fs, env, a[j], a[i]);
    assert a[j] == b[j] && a[i] == b[i];
  }

  /** A scan appends only entries its lines ask for, or that a file listed before them asks for. */
  lemma {:induction false} ScanLinesDiscovered(fs: FileSystem, env: Env, targets: seq<Option<string>>, searchPaths: seq<string>, found: seq<Entry>)
    ensures Discovered(fs, env, searchPaths, targets, ScanLines(fs, env, targets, searchPaths, found).found, |found|)
    decreases Unread(fs, found), 2, |targets|
  {
    if targets != [] {
      var r := ScanLines(fs, env, targets, searchPaths, found);
      ScanLineDiscovered(fs, env, targets[0], searchPaths, found);
      var step := ScanLine(fs, env, targets[0], searchPaths, found);
      assert Discovered(fs, env, searchPaths, [targets[0]], step.found, |found|);
      if step.failure.Some? {
        assert r.found == step.found;
        forall i | |found| <= i < |r.found|
          ensures AskedBy(fs, env, searchPaths, targets, r.found[i]) || Earlier(fs, env, r.found, i)
        {
          FromFirstLine(fs, env, targets, searchPaths, step.found, r.found, i);
        }
      } else {
        PrefixMembers(found, step.found);
        UnreadAntitone(fs, found, step.found);
        ScanLinesDiscovered(fs, env, targets[1..], searchPaths, step.found);
        var rest := ScanLines(fs, env, targets[1..], searchPaths, step.found);
        assert r.found == rest.found;
        forall i | |found| <= i < |r.found|
          ensures AskedBy(fs, env, searchPaths, targets, r.found[i]) || Earlier(fs, env, r.found, i)
        {
          if i < |step.found| {
            FromFirstLine(fs, env, targets, searchPaths, step.found, r.found, i);
          } else {
            FromLaterLine(fs, env, targets, searchPaths, r.found[i]);
          }
        }
      }
    }
  }

  lemma FromFirstLine(fs: FileSystem, env: Env, targets: seq<Option<string>>, searchPaths: seq<string>, a: seq<Entry>, b: seq<Entry>, i: nat)
    requires targets != [] && IsPrefix(a, b) && i < |a|
    requires AskedBy(fs, env, searchPaths, [targets[0]], a[i]) || Earlier(fs, env, a, i)
    ensures AskedBy(fs, env, searchPaths, targets, b[i]) || Earlier(fs, env, b, i)
  {
    assert a[i] == b[i];
    if !Earlier(fs, env, a, i) {
      var k :| 0 <= k < 1 && LineTarget(fs, env, searchPaths, [targets[0]][k]) == Some(a[i]);
      assert LineTarget(fs, env, searchPaths, targets[0]) == Some(b[i]);
    } else {
      EarlierGrows(fs, env, a, b, i);
    }
  }

  lemma FromLaterLine(fs: FileSystem, env: Env, targets: seq<Option<string>>, searchPaths: seq<string>, e: Entry)
    requires targets != []
    ensures AskedBy(fs, env, searchPaths, targets[1..], e) ==> AskedBy(fs, env, searchPaths, targets, e)
  {
    if AskedBy(fs, env, searchPaths, targets[1..], e) {
      var k :| 0 <= k < |targets[1..]| && LineTarget(fs, env, searchPaths, targets[1..][k]) == Some(e);
      assert targets[1..][k] == targets[k + 1];
    }
  }

  /** A line appends the entry it asks for, then only entries that listed files ask for. */
  lemma {:induction false} ScanLineDiscovered(fs: FileSystem, env: Env, target: Option<string>, searchPaths: seq<string>, found: seq<Entry>)
    ensures Discovered(fs, env, searchPaths, [target], ScanLine(fs, env, target, searchPaths, found).found, |found|)
    decreases Unread(fs, found), 1, 0
  {
    match LineTarget(fs, env, searchPaths, target)
    case None =>
    case Some(file) =>
      if file !in found {
        UnreadAfterPush(fs, found, file);
        NewEntry(fs, env, target, searchPaths, found, file);
        ScanFileDiscovered(fs, env, file, found + [file]);
        var r := ScanFile(fs, env, file, found + [file]);
        assert r.found[|found|] == (found + [file])[|found|] == file;
        assert LineTarget(fs, env, searchPaths, [target][0]) == Some(r.found[|found|]);
      }
  }

  /** Reading a listed file appends only entries that listed files ask for. */
  lemma {:induction false} ScanFileDiscovered(fs: FileSystem, env: Env, file: Entry, found: seq<Entry>)
    requires file in found
    ensures FromFiles(fs, env, ScanFile(fs, env, file, found).found, |found|)
    decreases Unread(fs, found) + (if Readable(fs, file) then 1 else 0), 0, 0
  {
    if Readable(fs, file) {
      var sp := SearchPaths(env, Some(env.fileUri(file.value)));
      var targets := Targets(SplitLines(fs.files[file.value]));
      ScanLinesDiscovered(fs, env, targets, sp, found);
      var r := ScanFile(fs, env, file, found);
      var m :| 0 <= m < |found| && found[m] == file;
      forall i | |found| <= i < |r.found| ensures Earlier(fs, env, r.found, i) {
        assert r.found[m] == file;
        if AskedBy(fs, env, sp, targets, r.found[i]) {
          assert AskedIn(fs, env, r.found[m], r.found[i]);
        }
      }
    }
  }

  /** Every entry `getIncludes` returns is asked for by a line of the diagram, or by a file
      listed before it: the list holds nothing that was not reached, in discovery order. */
  lemma IncludesDiscovered(fs: FileSystem, env: Env, diagram: Diagram)
    ensures var r := Includes(fs, env, diagram);
      r.Ok? ==> Discovered(fs, env, SearchPaths(env, diagram.parentUri), Targets(diagram.lines), r.value, 0)
  {
    ScanLinesDiscovered(fs, env, Targets(diagram.lines), SearchPaths(env, diagram.parentUri), []);
  }

  // ---------------------------------------------------------------- what a scan yields in simple cases

  /** The line asks for nothing, or for an entry the list already holds. */
  predicate AsksNothingNew(fs: FileSystem, env: Env, searchPaths: seq<string>, target: Option<string>, found: seq<Entry>) {
    var e := LineTarget(fs, env, searchPaths, target);
    e.None? || e.value in found
  }

  /** Lines that ask for nothing new leave the list as it is and read no file. */
  lemma {:induction false} NothingNew(fs: FileSystem, env: Env, targets: seq<Option<string>>, searchPaths: seq<string>, found: seq<Entry>)
    requires forall k :: 0 <= k < |targets| ==> AsksNothingNew(fs, env, searchPaths, targets[k], found)
    ensures ScanLines(fs, env, targets, searchPaths, found) == Scan(found, [], None)
    decreases |targets|
  {
    if targets != [] {
      assert AsksNothingNew(fs, env, searchPaths, targets[0], found);
      NothingNew(fs, env, targets[1..], searchPaths, found);
    }
  }

  /** A diagram without include directives includes nothing. */
  lemma NoDirectives(fs: FileSystem, env: Env, diagram: Diagram)
    requires forall k :: 0 <= k < |diagram.lines| ==> MatchInclude(diagram.lines[k]).None?
    ensures Includes(fs, env, diagram) == Ok([])
  {
    var targets := Targets(diagram.lines);
    var sp := SearchPaths(env, diagram.parentUri);
    forall k | 0 <= k < |targets| ensures AsksNothingNew(fs, env, sp, targets[k], []) {
      assert targets[k] == DirectiveTarget(diagram.lines[k]);
    }
    NothingNew(fs, env, targets, sp, []);
  }

  /** A file without include directives of its own. */
  predicate Leaf(fs: FileSystem, p: string) {
    p in fs.files && forall t :: t in Targets(SplitLines(fs.files[p])) ==> t.None?
  }

  /** A new, present file with no directives is appended and read, and nothing else happens. */
  lemma LeafRead(fs: FileSystem, env: Env, target: Option<string>, searchPaths: seq<string>, found: seq<Entry>, p: string)
    requires LineTarget(fs, env, searchPaths, target) == Some(Some(p))
    requires p != "" && Leaf(fs, p) && Some(p) !in found
    ensures ScanLine(fs, env, target, searchPaths, found) == Scan(found + [Some(p)], [p], None)
  {
    assert KnownOnly(fs, env, p, found + [Some(p)]);
    ReadKnownOnly(fs, env, p, found + [Some(p)]);
    NewEntry(fs, env, target, searchPaths, found, Some(p));
  }

  /** Every directive of the file asks for nothing new. */
  predicate KnownOnly(fs: FileSystem, env: Env, p: string, found: seq<Entry>) {
    p in fs.files && forall t :: t in Targets(SplitLines(fs.files[p])) ==> AsksNothingNew(fs, env, SearchPaths(env, Some(env.fileUri(p))), t, found)
  }

  /** A present file whose directives ask for nothing new is read, and nothing else happens. */
  lemma ReadKnownOnly(fs: FileSystem, env: Env, p: string, found: seq<Entry>)
    requires p != "" && KnownOnly(fs, env, p, found)
    ensures ScanFile(fs, env, Some(p), found) == Scan(found, [p], None)
  {
    var targets := Targets(SplitLines(fs.files[p]));
    var sp := SearchPaths(env, Some(env.fileUri(p)));
    forall k | 0 <= k < |targets| ensures AsksNothingNew(fs, env, sp, targets[k], found) {
      assert targets[k] in targets;
    }
    NothingNew(fs, env, targets, sp, found);
    ScanFileRead(fs, env, p, found);
    assert [p] + [] == [p];
  }

  /** An absolute target that does not exist is appended, and its read throws. */
  lemma MissingAbsoluteFails(fs: FileSystem, env: Env, t: string, searchPaths: seq<string>, found: seq<Entry>)
    requires env.isAbsolute(t) && t != "" && t !in fs.files && Some(t) !in found
    ensures ScanLine(fs, env, Some(t), searchPaths, found) == Scan(found + [Some(t)], [], Some(t))
  {
  }

  /** A relative target whose first existing candidate is a directory (as `path.join(dir, "")`
      is for the empty target of `!include` followed by spaces only) is listed, and reading
      it throws. */
  lemma DirectoryReadFails(fs: FileSystem, env: Env, t: string, searchPaths: seq<string>, found: seq<Entry>, d: string)
    requires !env.isAbsolute(t) && FirstExisting(fs, env, searchPaths, t) == Some(d)
    requires d in fs.dirs && d !in fs.files && d != "" && Some(d) !in found
    ensures ScanLine(fs, env, Some(t), searchPaths, found) == Scan(found + [Some(d)], [], Some(d))
  {
  }

  /** A relative target found in no search path is listed as `undefined`, once, and not read. */
  lemma UnresolvedListedOnce(fs: FileSystem, env: Env, t: string, searchPaths: seq<string>, found: seq<Entry>)
    requires !env.isAbsolute(t)
    requires forall k :: 0 <= k < |searchPaths| ==> !Exists(fs, env.join(searchPaths[k], t))
    ensures ScanLine(fs, env, Some(t), searchPaths, found)
      == if None in found then Scan(found, [], None) else Scan(found + [None], [], None)
  {
  }

  function Entries(files: seq<string>): (r: seq<Entry>)
    ensures |r| == |files|
    ensures forall k :: 0 <= k < |files| ==> r[k] == Some(files[k])
  {
    if files == [] then [] else [Some(files[0])] + Entries(files[1..])
  }

  /** Directives that each name a different new file without directives of its own list
      those files in order and read each once. */
  lemma {:induction false} FlatIncludes(fs: FileSystem, env: Env, targets: seq<Option<string>>, searchPaths: seq<string>, found: seq<Entry>, files: seq<string>)
    requires |files| == |targets| && NoDuplicates(files)
    requires forall k :: 0 <= k < |targets| ==> LineTarget(fs, env, searchPaths, targets[k]) == Some(Some(files[k]))
    requires forall k :: 0 <= k < |files| ==> files[k] != "" && Leaf(fs, files[k]) && Some(files[k]) !in found
    ensures ScanLines(fs, env, targets, searchPaths, found) == Scan(found + Entries(files), files, None)
    decreases |targets|
  {
    if targets != [] {
      var next := found + [Some(files[0])];
      var step := Scan(next, [files[0]], None);
      var rest := Scan(next + Entries(files[1..]), files[1..], None);
      assert ScanLine(fs, env, targets[0], searchPaths, found) == step by {
        LeafRead(fs, env, targets[0], searchPaths, found, files[0]);
      }
      assert ScanLines(fs, env, targets[1..], searchPaths, next) == rest by {
        forall k | 0 <= k < |files| - 1
          ensures LineTarget(fs, env, searchPaths, targets[1..][k]) == Some(Some(files[1..][k]))
          ensures files[1..][k] != "" && Leaf(fs, files[1..][k]) && Some(files[1..][k]) !in next
        {
          assert targets[1..][k] == targets[k + 1] && files[1..][k] == files[k + 1];
        }
        FlatIncludes(fs, env, targets[1..], searchPaths, next, files[1..]);
      }
      ScanLinesCons(fs, env, targets, searchPaths, found, step, rest);
      assert next + Entries(files[1..]) == found + Entries(files) by {
        ConcatAssoc(found, [Some(files[0])], Entries(files[1..]));
      }
      assert [files[0]] + files[1..] == files;
    }
  }

  /** The first line, then the others from where it left the list. */
  lemma ScanLinesCons(fs: FileSystem, env: Env, targets: seq<Option<string>>, searchPaths: seq<string>, found: seq<Entry>, step: Scan, rest: Scan)
    requires targets != [] && ScanLine(fs, env, targets[0], searchPaths, found) == step && step.failure.None?
    requires ScanLines(fs, env, targets[1..], searchPaths, step.found) == rest
    ensures ScanLines(fs, env, targets, searchPaths, found) == Scan(rest.found, step.readFiles + rest.readFiles, rest.failure)
  {
  }

  /** `a` and `b` are two different present files, each holding one directive naming the
      other by an absolute path. */
  predicate MutualPair(fs: FileSystem, env: Env, a: string, b: string) {
    && a != "" && b != "" && a != b && a in fs.files && b in fs.files
    && env.isAbsolute(a) && env.isAbsolute(b)
    && Targets(SplitLines(fs.files[a])) == [Some(b)] && Targets(SplitLines(fs.files[b])) == [Some(a)]
  }

  /** Two files that include each other, reached from a line that includes the first: both
      are listed and read once, and the scan ends. */
  lemma MutualIncludes(fs: FileSystem, env: Env, a: string, b: string, searchPaths: seq<string>)
    requires MutualPair(fs, env, a, b)
    ensures ScanLines(fs, env, [Some(a)], searchPaths, []) == Scan([Some(a), Some(b)], [a, b], None)
  {
    MutualReadsBoth(fs, env, a, b);
    assert [] + [Some(a)] == [Some(a)];
    NewSingleLine(fs, env, Some(a), searchPaths, [], Some(a), [Some(a)]);
  }

  /** Once `a` is listed, reading it lists and reads `b`, and the line back to `a` stops. */
  lemma MutualReadsBoth(fs: FileSystem, env: Env, a: string, b: string)
    requires MutualPair(fs, env, a, b)
    ensures ScanFile(fs, env, Some(a), [Some(a)]) == Scan([Some(a), Some(b)], [a, b], None)
  {
    MutualCloses(fs, env, a, b);
    MutualSecond(fs, env, a, b, SearchPaths(env, Some(env.fileUri(a))));
    MutualOpens(fs, env, a, b);
  }

  /** Reading `a`, whose one line names `b`, reads `a` and does what that line does. */
  lemma MutualOpens(fs: FileSystem, env: Env, a: string, b: string)
    requires a != "" && a in fs.files && Targets(SplitLines(fs.files[a])) == [Some(b)]
    requires ScanLines(fs, env, [Some(b)], SearchPaths(env, Some(env.fileUri(a))), [Some(a)]) == Scan([Some(a), Some(b)], [b], None)
    ensures ScanFile(fs, env, Some(a), [Some(a)]) == Scan([Some(a), Some(b)], [a, b], None)
  {
    ScanFileOf(fs, env, a, [Some(b)], [Some(a)], Scan([Some(a), Some(b)], [b], None));
    PairConcat(a, b);
  }

  /** In `a`, the line naming `b` lists it and reads it. */
  lemma MutualSecond(fs: FileSystem, env: Env, a: string, b: string, searchPaths: seq<string>)
    requires env.isAbsolute(b) && a != b
    requires ScanFile(fs, env, Some(b), [Some(a), Some(b)]) == Scan([Some(a), Some(b)], [b], None)
    ensures ScanLines(fs, env, [Some(b)], searchPaths, [Some(a)]) == Scan([Some(a), Some(b)], [b], None)
  {
    PairConcat(Some(a), Some(b));
    NewSingleLine(fs, env, Some(b), searchPaths, [Some(a)], Some(b), [Some(a), Some(b)]);
  }

  /** Reading `b` once both are listed reads nothing more. */
  lemma MutualCloses(fs: FileSystem, env: Env, a: string, b: string)
    requires MutualPair(fs, env, a, b)
    ensures ScanFile(fs, env, Some(b), [Some(a), Some(b)]) == Scan([Some(a), Some(b)], [b], None)
  {
    assert KnownOnly(fs, env, b, [Some(a), Some(b)]) by {
      forall t | t in Targets(SplitLines(fs.files[b]))
        ensures AsksNothingNew(fs, env, SearchPaths(env, Some(env.fileUri(b))), t, [Some(a), Some(b)])
      {
        assert t == Some(a);
      }
    }
    ReadKnownOnly(fs, env, b, [Some(a), Some(b)]);
  }

  /** `ScanFileRead`, with the file's directives and the scan of them given. */
  lemma ScanFileOf(fs: FileSystem, env: Env, p: string, targets: seq<Option<string>>, found: seq<Entry>, inner: Scan)
    requires p != "" && p in fs.files && Targets(SplitLines(fs.files[p])) == targets
    requires ScanLines(fs, env, targets, SearchPaths(env, Some(env.fileUri(p))), found) == inner
    ensures ScanFile(fs, env, Some(p), found) == Scan(inner.found, [p] + inner.readFiles, inner.failure)
  {
    ScanFileRead(fs, env, p, found);
  }

  /** A line asking for an entry appends it when it is not yet listed and hands it to
      `ScanFile`. */
  lemma ScanLineOf(fs: FileSystem, env: Env, target: Option<string>, searchPaths: seq<string>, found: seq<Entry>, e: Entry)
    requires LineTarget(fs, env, searchPaths, target) == Some(e)
    ensures ScanLine(fs, env, target, searchPaths, found)
      == if e in found then Scan(found, [], None) else ScanFile(fs, env, e, found + [e])
  {
  }

  /** A line asking for an entry not yet listed appends it and hands it to `ScanFile`. */
  lemma NewEntry(fs: FileSystem, env: Env, target: Option<string>, searchPaths: seq<string>, found: seq<Entry>, e: Entry)
    requires LineTarget(fs, env, searchPaths, target) == Some(e) && e !in found
    ensures ScanLine(fs, env, target, searchPaths, found) == ScanFile(fs, env, e, found + [e])
  {
  }

  /** A single line asking for an entry not yet listed appends it and hands it to `ScanFile`. */
  lemma NewSingleLine(fs: FileSystem, env: Env, target: Option<string>, searchPaths: seq<string>, found: seq<Entry>, e: Entry, next: seq<Entry>)
    requires LineTarget(fs, env, searchPaths, target) == Some(e) && e !in found && next == found + [e]
    ensures ScanLines(fs, env, [target], searchPaths, found) == ScanFile(fs, env, e, next)
  {
    SingleLine(fs, env, target, searchPaths, found);
  }

  lemma SingleLine(fs: FileSystem, env: Env, target: Option<string>, searchPaths: seq<string>, found: seq<Entry>)
    ensures ScanLines(fs, env, [target], searchPaths, found) == ScanLine(fs, env, target, searchPaths, found)
  {
    var step := ScanLine(fs, env, target, searchPaths, found);
    assert [target][1..] == [];
    assert step.readFiles + [] == step.readFiles;
  }

  /** The smallest cycle: "/a" holds `!include /b`, "/b" holds `!include /a`, and the
      diagram includes "/a". */
  lemma IncludeCycleEnds(fs: FileSystem, env: Env, diagram: Diagram)
    requires fs.files == map["/a" := "!include /b", "/b" := "!include /a"]
    requires diagram.lines == ["!include /a"]
    requires env.isAbsolute("/a") && env.isAbsolute("/b")
    ensures Includes(fs, env, diagram) == Ok([Some("/a"), Some("/b")])
  {
    SlashPathDirective('a');
    SlashPathDirective('b');
    assert fs.files["/a"] == "!include " + "/b" && fs.files["/b"] == "!include " + "/a";
    assert diagram.lines == ["!include " + "/a"];
    MutualFromDiagram(fs, env, "/a", "/b", diagram);
  }

  lemma SlashPathDirective(c: char)
    requires 'a' <= c <= 'z'
    ensures SplitLines("!include " + ['/', c]) == ["!include " + ['/', c]]
    ensures Targets(["!include " + ['/', c]]) == [Some(['/', c])]
  {
    SingleDirective(['/', c]);
  }

  lemma MutualFromDiagram(fs: FileSystem, env: Env, a: string, b: string, diagram: Diagram)
    requires MutualPair(fs, env, a, b) && Targets(diagram.lines) == [Some(a)]
    ensures Includes(fs, env, diagram) == Ok([Some(a), Some(b)])
  {
    MutualIncludes(fs, env, a, b, SearchPaths(env, diagram.parentUri));
  }

  /** A file or a diagram made of the one line `!include <p>`, for a path without spaces,
      newlines or '!', asks for `p` and nothing else. */
  lemma SingleDirective(p: string)
    requires p != [] && !IsJsSpace(p[0]) && NoLineTerminator(p) && '!' !in p
    requires !IsJsSpace(p[|p| - 1])
    ensures SplitLines("!include " + p) == ["!include " + p]
    ensures Targets(["!include " + p]) == [Some(p)]
  {
    var line := "!include " + p;
    DirectiveHasNoNewline(p);
    SplitLinesOfLine(line, []);
    DirectiveOf(p);
    assert Targets([line])[0] == DirectiveTarget(line);
  }

  lemma DirectiveHasNoNewline(p: string)
    requires NoLineTerminator(p)
    ensures '\n' !in "!include " + p
  {
    var line := "!include " + p;
    forall i | 0 <= i < |line| ensures line[i] != '\n' {
      if i >= 9 {
        assert line[i] == p[i - 9];
      }
    }
  }

  /** The directive `!include <p>` for a path without spaces, newlines or '!'. */
  lemma DirectiveOf(p: string)
    requires p != [] && !IsJsSpace(p[0]) && NoLineTerminator(p) && '!' !in p
    requires !IsJsSpace(p[|p| - 1])
    ensures DirectiveTarget("!include " + p) == Some(p)
  {
    var line := "!include " + p;
    assert MatchInclude(line) == Some(Directive("", "include", " ", p, None)) by {
      assert IsKeyword("include") by {
        assert AsciiLower("include") == "include";
      }
      assert "" + "!" + "include" + " " == "!include ";
      assert line + LabelText(None) == line;
      LabelSplitOffCase(line, "", "include", " ", p, None);
    }
    TrimUnchanged(p);
  }

  lemma TrimUnchanged(p: string)
    requires p != [] && !IsJsSpace(p[0]) && !IsJsSpace(p[|p| - 1])
    ensures Trim(p) == p
  {
    TrimStartUnchanged(p);
    assert TrimEnd(p) == p;
  }
}
