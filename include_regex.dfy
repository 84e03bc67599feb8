/**
 * The directive pattern of `include.ts`,
 *
 *   /^\s*!(include(?:sub)?)\s+(.+?)(?:!(\w+))?$/i
 *
 * written as a function that cuts a matching line into its parts exactly as
 * the backtracking matcher does: greedy leading spaces, the keyword in any
 * ASCII case, a greedy run of spaces, the shortest target after which only a
 * `!word` label or the end of the line is left. The pattern has no `m` or `s`
 * flag, so `$` is the end of the line and `.` refuses line terminators
 * (a CRLF line, still holding its `\r`, never matches).
 */
module IncludeRegex {
  import opened Base
  import opened JsText

  /** The parts of a matching line: `keyword` is capture group 1, `target` group 2
      (before it is trimmed), `sub` group 3, the label; `indent` and `gap` are the spaces
      around the keyword. */
  datatype Directive = Directive(indent: string, keyword: string, gap: string, target: string, sub: Option<string>)

  function LabelText(sub: Option<string>): string {
    match sub
    case None => ""
    case Some(w) => "!" + w
  }

  /** The line a directive was cut from. */
  function Text(d: Directive): string {
    d.indent + "!" + d.keyword + d.gap + d.target + LabelText(d.sub)
  }

  predicate IsKeyword(kw: string) {
    AsciiLower(kw) == "include" || AsciiLower(kw) == "includesub"
  }

  predicate IsWord(w: string) {
    w != [] && forall i :: 0 <= i < |w| ==> IsWordChar(w[i])
  }

  /** What `(?:!(\w+))?$` accepts: nothing, or `!` and a word up to the end. */
  predicate IsLabelSuffix(s: string) {
    s == [] || (s[0] == '!' && IsWord(s[1..]))
  }

  /** The conditions every match satisfies: the parts have the shapes the pattern
      gives them, and the target is the shortest one the lazy `(.+?)` allows. */
  predicate WellFormed(d: Directive) {
    && AllSpace(d.indent)
    && IsKeyword(d.keyword)
    && d.gap != [] && AllSpace(d.gap)
    && d.target != [] && NoLineTerminator(d.target)
    && (d.sub.Some? ==> IsWord(d.sub.value))
    && forall k :: 1 <= k < |d.target| ==> !IsLabelSuffix(d.target[k..] + LabelText(d.sub))
  }

  /** The gap holds every space the greedy `\s+` can keep: the target starts with a
      non-space, or it is the one space given back at the end of an all-space line. */
  predicate MaximalGap(d: Directive) {
    d.target != [] && (!IsJsSpace(d.target[0]) || (|d.target| == 1 && d.sub.None?))
  }

  /** Length of `include(?:sub)?` at the start of `s` when a space follows it, else 0. */
  function KeywordLength(s: string): (n: nat)
    ensures n == 0 || n == 7 || n == 10
    ensures n > 0 ==> n < |s| && IsKeyword(s[..n]) && IsJsSpace(s[n])
  {
    if |s| > 10 && AsciiLower(s[..10]) == "includesub" && IsJsSpace(s[10]) then 10
    else if |s| > 7 && AsciiLower(s[..7]) == "include" && IsJsSpace(s[7]) then 7
    else 0
  }

  /** The lazy `(.+?)`: the shortest length, from `from` on, that leaves a label suffix. */
  function LazyLength(body: string, from: nat): (n: nat)
    requires 1 <= from <= |body|
    decreases |body| - from
    ensures from <= n <= |body| && IsLabelSuffix(body[n..])
    ensures forall k :: from <= k < n ==> !IsLabelSuffix(body[k..])
  {
    if IsLabelSuffix(body[from..]) then from else LazyLength(body, from + 1)
  }

  /** Matches `\s+(.+?)(?:!(\w+))?$` against what follows the keyword. When the rest of
      the line is all spaces, `\s+` gives its last space back to the target. */
  function MatchTail(indent: string, keyword: string, rest: string): Option<Directive>
    requires AllSpace(indent) && IsKeyword(keyword)
    requires |rest| > 0 && IsJsSpace(rest[0])
  {
    var gap := LeadingSpace(rest);
    var body := rest[|gap|..];
    if body != [] then
      if NoLineTerminator(body) then
        var n := LazyLength(body, 1);
        Some(Directive(indent, keyword, gap, body[..n], if n == |body| then None else Some(body[n + 1..])))
      else None
    else if |gap| >= 2 && !IsLineTerminator(gap[|gap| - 1]) then
      Some(Directive(indent, keyword, gap[..|gap| - 1], [gap[|gap| - 1]], None))
    else None
  }

  lemma MatchTailSound(indent: string, keyword: string, rest: string)
    requires AllSpace(indent) && IsKeyword(keyword)
    requires |rest| > 0 && IsJsSpace(rest[0])
    ensures var r := MatchTail(indent, keyword, rest);
      r.Some? ==> Text(r.value) == indent + "!" + keyword + rest && WellFormed(r.value) && MaximalGap(r.value)
  {
    var gap := LeadingSpace(rest);
    var body := rest[|gap|..];
    assert rest == gap + body;
    if body != [] {
      if NoLineTerminator(body) {
        LazyTargetSound(indent, keyword, gap, body);
        assert body[0] == rest[|gap|];
      }
    } else if |gap| >= 2 && !IsLineTerminator(gap[|gap| - 1]) {
      LastSpaceTargetSound(indent, keyword, gap);
    }
  }

  /** The usual case: the target is the shortest run after the spaces that leaves a label
      or nothing. */
  lemma LazyTargetSound(indent: string, keyword: string, gap: string, body: string)
    requires AllSpace(indent) && IsKeyword(keyword)
    requires gap != [] && AllSpace(gap)
    requires body != [] && NoLineTerminator(body)
    ensures var n := LazyLength(body, 1);
      var d := Directive(indent, keyword, gap, body[..n], if n == |body| then None else Some(body[n + 1..]));
      Text(d) == indent + "!" + keyword + (gap + body) && WellFormed(d)
  {
    var n := LazyLength(body, 1);
    var d := Directive(indent, keyword, gap, body[..n], if n == |body| then None else Some(body[n + 1..]));
    LazyCut(body, n, d.sub);
    assert WellFormed(d) by {
      assert |d.target| == n;
    }
    ConcatAssoc(indent + "!" + keyword + gap, body[..n], LabelText(d.sub));
    ConcatAssoc(indent + "!" + keyword, gap, body);
  }

  /** A line that ends right after the keyword's spaces: the target is the last space. */
  lemma LastSpaceTargetSound(indent: string, keyword: string, gap: string)
    requires AllSpace(indent) && IsKeyword(keyword)
    requires |gap| >= 2 && AllSpace(gap) && !IsLineTerminator(gap[|gap| - 1])
    ensures var d := Directive(indent, keyword, gap[..|gap| - 1], [gap[|gap| - 1]], None);
      Text(d) == indent + "!" + keyword + gap && WellFormed(d)
  {
    var d := Directive(indent, keyword, gap[..|gap| - 1], [gap[|gap| - 1]], None);
    assert gap == gap[..|gap| - 1] + [gap[|gap| - 1]];
    assert AllSpace(d.gap) && AllSpace(d.target) by {
      assert forall i :: 0 <= i < |gap| - 1 ==> d.gap[i] == gap[i];
    }
    Assembled(d, gap);
  }

  lemma Assembled(d: Directive, rest: string)
    requires AllSpace(d.indent) && IsKeyword(d.keyword) && d.gap != [] && AllSpace(d.gap)
    requires d.target != [] && NoLineTerminator(d.target)
    requires d.sub.Some? ==> IsWord(d.sub.value)
    requires forall k :: 1 <= k < |d.target| ==> !IsLabelSuffix(d.target[k..] + LabelText(d.sub))
    requires rest == d.gap + d.target + LabelText(d.sub)
    ensures Text(d) == d.indent + "!" + d.keyword + rest && WellFormed(d)
  {
  }

  /** Cutting `body` at the lazy length gives a target and a label that rebuild it. */
  lemma LazyCut(body: string, n: nat, sub: Option<string>)
    requires 1 <= n <= |body| && NoLineTerminator(body)
    requires IsLabelSuffix(body[n..]) && forall k :: 1 <= k < n ==> !IsLabelSuffix(body[k..])
    requires sub == if n == |body| then None else Some(body[n + 1..])
    ensures body[..n] + LabelText(sub) == body
    ensures NoLineTerminator(body[..n])
    ensures sub.Some? ==> IsWord(sub.value)
    ensures forall k :: 1 <= k < n ==> !IsLabelSuffix(body[..n][k..] + LabelText(sub))
  {
    assert LabelText(sub) == body[n..] by {
      if n < |body| { assert body[n..] == "!" + body[n + 1..]; }
    }
    forall k | 1 <= k < n ensures body[..n][k..] + LabelText(sub) == body[k..] {
    }
  }

  /** `line.match(INCLUDE_REG)`. */
  function MatchInclude(line: string): Option<Directive> {
    var indent := LeadingSpace(line);
    MatchAfterIndent(indent, line[|indent|..])
  }

  /** `!` must follow the leading spaces. */
  function MatchAfterIndent(indent: string, rest: string): Option<Directive>
    requires AllSpace(indent)
  {
    if |rest| == 0 || rest[0] != '!' then None
    else MatchKeyword(indent, rest[1..])
  }

  /** `include(?:sub)?` must follow the `!`, then a space. */
  function MatchKeyword(indent: string, s: string): Option<Directive>
    requires AllSpace(indent)
  {
    var n := KeywordLength(s);
    if n == 0 then None
    else MatchTail(indent, s[..n], s[n..])
  }

  /** A match cuts the line into well-formed parts that, put back together, give the line. */
  lemma MatchIncludeSound(line: string)
    ensures var r := MatchInclude(line);
      r.Some? ==> Text(r.value) == line && WellFormed(r.value) && MaximalGap(r.value)
  {
    var indent := LeadingSpace(line);
    assert line == indent + line[|indent|..];
    MatchAfterIndentSound(indent, line[|indent|..]);
  }

  lemma MatchAfterIndentSound(indent: string, rest: string)
    requires AllSpace(indent)
    ensures var r := MatchAfterIndent(indent, rest);
      r.Some? ==> Text(r.value) == indent + rest && WellFormed(r.value) && MaximalGap(r.value)
  {
    if |rest| > 0 && rest[0] == '!' {
      assert rest == "!" + rest[1..];
      MatchKeywordSound(indent, rest[1..]);
      assert indent + "!" + rest[1..] == indent + rest;
    }
  }

  lemma MatchKeywordSound(indent: string, s: string)
    requires AllSpace(indent)
    ensures var r := MatchKeyword(indent, s);
      r.Some? ==> Text(r.value) == indent + "!" + s && WellFormed(r.value) && MaximalGap(r.value)
  {
    var n := KeywordLength(s);
    if n > 0 {
      assert s == s[..n] + s[n..];
      MatchTailSound(indent, s[..n], s[n..]);
      assert indent + "!" + s[..n] + s[n..] == indent + "!" + s;
    }
  }

  /** A line is a directive exactly when some well-formed directive spells it, and the
      match is then the one spelling whose gap is maximal. */
  lemma MatchIncludeCharacterised(line: string)
    ensures MatchInclude(line).Some? <==> exists d :: WellFormed(d) && Text(d) == line
    ensures forall d :: MatchInclude(line) == Some(d) <==> WellFormed(d) && Text(d) == line && MaximalGap(d)
  {
    MatchIncludeSound(line);
    forall d | WellFormed(d) && Text(d) == line
      ensures MatchInclude(line).Some?
      ensures MaximalGap(d) ==> MatchInclude(line) == Some(d)
    {
      MatchIncludeComplete(d);
    }
  }

  /** The line a well-formed directive spells is matched, and cut back into that directive
      when its gap is maximal. */
  lemma MatchIncludeComplete(d: Directive)
    requires WellFormed(d)
    ensures MatchInclude(Text(d)).Some?
    ensures MaximalGap(d) ==> MatchInclude(Text(d)) == Some(d)
  {
    var tail := d.gap + d.target + LabelText(d.sub);
    assert Text(d) == d.indent + "!" + d.keyword + tail;
    MatchAfterKeyword(d.indent, d.keyword, tail);
    MatchTailComplete(d);
    if MaximalGap(d) {
      MatchTailExact(d);
    }
  }

  /** After the keyword, some cut of the rest always succeeds: the spaces never run into
      a line terminator of the target or the label. */
  lemma MatchTailComplete(d: Directive)
    requires WellFormed(d)
    ensures MatchTail(d.indent, d.keyword, d.gap + d.target + LabelText(d.sub)).Some?
  {
    var tail := d.gap + d.target + LabelText(d.sub);
    var rest := d.target + LabelText(d.sub);
    ConcatAssoc(d.gap, d.target, LabelText(d.sub));
    SuffixKeepsNoTerminator(d.target, d.sub);
    var g := LeadingSpace(tail);
    assert |g| >= |d.gap|;
    var body := tail[|g|..];
    assert body == rest[|g| - |d.gap|..];
    if body == [] {
      assert g == tail;
      assert tail[|tail| - 1] == rest[|rest| - 1];
    } else {
      forall i | 0 <= i < |body| ensures !IsLineTerminator(body[i]) {
        assert body[i] == rest[|g| - |d.gap| + i];
      }
    }
  }

  /** The lazy length is the least cut from `from` on that leaves a label suffix. */
  lemma LazyLengthIs(body: string, from: nat, n: nat)
    requires 1 <= from <= n <= |body| && IsLabelSuffix(body[n..])
    requires forall k :: from <= k < n ==> !IsLabelSuffix(body[k..])
    ensures LazyLength(body, from) == n
  {
  }

  /** With a maximal gap, the rest after the keyword is cut back into the same gap, target
      and label. */
  lemma MatchTailExact(d: Directive)
    requires WellFormed(d) && MaximalGap(d)
    ensures MatchTail(d.indent, d.keyword, d.gap + d.target + LabelText(d.sub)) == Some(d)
  {
    if !IsJsSpace(d.target[0]) {
      LazyCutExact(d);
    } else {
      LastSpaceExact(d);
    }
  }

  /** A target that starts with a non-space: the spaces stop where it starts, and the lazy
      cut ends where the label starts. */
  lemma LazyCutExact(d: Directive)
    requires WellFormed(d) && !IsJsSpace(d.target[0])
    ensures MatchTail(d.indent, d.keyword, d.gap + d.target + LabelText(d.sub)) == Some(d)
  {
    var body := d.target + LabelText(d.sub);
    var tail := d.gap + body;
    ConcatAssoc(d.gap, d.target, LabelText(d.sub));
    LeadingSpaceOf(d.gap, body);
    assert tail[|d.gap|..] == body;
    SuffixKeepsNoTerminator(d.target, d.sub);
    LazyCutAt(d.target, d.sub);
    assert body[..|d.target|] == d.target;
    if d.sub.Some? {
      assert body[|d.target| + 1..] == d.sub.value;
    }
  }

  lemma LazyCutAt(t: string, sub: Option<string>)
    requires t != [] && (sub.Some? ==> IsWord(sub.value))
    requires forall k :: 1 <= k < |t| ==> !IsLabelSuffix(t[k..] + LabelText(sub))
    ensures LazyLength(t + LabelText(sub), 1) == |t|
  {
    var body := t + LabelText(sub);
    assert body[|t|..] == LabelText(sub);
    assert IsLabelSuffix(LabelText(sub)) by {
      if sub.Some? {
        assert LabelText(sub)[1..] == sub.value;
      }
    }
    forall k | 1 <= k < |t| ensures body[k..] == t[k..] + LabelText(sub) {
    }
    LazyLengthIs(body, 1, |t|);
  }

  /** An all-space rest: `\s+` keeps all but the last space, which is the target. */
  lemma LastSpaceExact(d: Directive)
    requires WellFormed(d) && |d.target| == 1 && IsJsSpace(d.target[0]) && d.sub.None?
    ensures MatchTail(d.indent, d.keyword, d.gap + d.target + LabelText(d.sub)) == Some(d)
  {
    var tail := d.gap + d.target;
    assert d.gap + d.target + LabelText(d.sub) == tail;
    assert AllSpace(tail);
    LeadingSpaceOf(tail, []);
    assert tail + [] == tail;
    assert tail[..|tail| - 1] == d.gap;
    assert [tail[|tail| - 1]] == d.target;
  }

  lemma {:induction false} LeadingSpaceOf(sp: string, x: string)
    requires AllSpace(sp)
    requires x == [] || !IsJsSpace(x[0])
    ensures LeadingSpace(sp + x) == sp
  {
    if sp != [] {
      LeadingSpaceOf(sp[1..], x);
      assert (sp + x)[1..] == sp[1..] + x;
    }
  }

  /** Once the keyword is found, what follows it alone decides the match. */
  lemma MatchAfterKeyword(indent: string, kw: string, tail: string)
    requires AllSpace(indent) && IsKeyword(kw)
    requires |tail| > 0 && IsJsSpace(tail[0])
    ensures MatchInclude(indent + "!" + kw + tail) == MatchTail(indent, kw, tail)
  {
    ConcatAssoc(indent + "!", kw, tail);
    ConcatAssoc(indent, "!", kw + tail);
    IndentThenBang(indent, "!" + (kw + tail));
    BangThenKeyword(indent, kw + tail);
    KeywordThenTail(indent, kw, tail);
  }

  lemma IndentThenBang(indent: string, rest: string)
    requires AllSpace(indent) && rest != [] && rest[0] == '!'
    ensures MatchInclude(indent + rest) == MatchAfterIndent(indent, rest)
  {
    LeadingSpaceOf(indent, rest);
    assert (indent + rest)[|indent|..] == rest;
  }

  lemma BangThenKeyword(indent: string, s: string)
    requires AllSpace(indent)
    ensures MatchAfterIndent(indent, "!" + s) == MatchKeyword(indent, s)
  {
    assert ("!" + s)[1..] == s;
  }

  lemma KeywordThenTail(indent: string, kw: string, tail: string)
    requires AllSpace(indent) && IsKeyword(kw)
    requires |tail| > 0 && IsJsSpace(tail[0])
    ensures MatchKeyword(indent, kw + tail) == MatchTail(indent, kw, tail)
  {
    KeywordLengthOf(kw, tail);
    assert (kw + tail)[..|kw|] == kw;
    assert (kw + tail)[|kw|..] == tail;
  }

  lemma KeywordLengthOf(kw: string, tail: string)
    requires IsKeyword(kw)
    requires |tail| > 0 && IsJsSpace(tail[0])
    ensures KeywordLength(kw + tail) == |kw|
  {
    var s := kw + tail;
    assert |kw| == 7 || |kw| == 10 by {
      assert |AsciiLower(kw)| == |kw|;
    }
    assert s[..|kw|] == kw;
    assert s[|kw|] == tail[0];
    if |kw| == 7 && |s| > 10 {
      assert s[..10][7] == tail[0];
      assert AsciiLower(s[..10])[7] != 's';
    }
  }

  /** `!include` and `!includesub`, in any case, resolve the same target with the same label. */
  lemma KeywordDoesNotAffectTarget(indent: string, kw1: string, kw2: string, tail: string)
    requires AllSpace(indent) && IsKeyword(kw1) && IsKeyword(kw2)
    requires |tail| > 0 && IsJsSpace(tail[0])
    ensures MatchInclude(indent + "!" + kw1 + tail).Some? <==> MatchInclude(indent + "!" + kw2 + tail).Some?
    ensures MatchInclude(indent + "!" + kw1 + tail).Some? ==>
      && MatchInclude(indent + "!" + kw1 + tail).value.target == MatchInclude(indent + "!" + kw2 + tail).value.target
      && MatchInclude(indent + "!" + kw1 + tail).value.sub == MatchInclude(indent + "!" + kw2 + tail).value.sub
  {
    MatchAfterKeyword(indent, kw1, tail);
    MatchAfterKeyword(indent, kw2, tail);
  }

  /** A trailing `!word` is split off as the label, and the target is what it would be
      without the label. */
  lemma LabelSplitOff(indent: string, kw: string, gap: string, t: string, w: string)
    requires AllSpace(indent) && IsKeyword(kw) && gap != [] && AllSpace(gap)
    requires t != [] && !IsJsSpace(t[0]) && NoLineTerminator(t) && '!' !in t
    requires IsWord(w)
    ensures MatchInclude(indent + "!" + kw + gap + t + "!" + w) == Some(Directive(indent, kw, gap, t, Some(w)))
    ensures MatchInclude(indent + "!" + kw + gap + t) == Some(Directive(indent, kw, gap, t, None))
  {
    WithLabel(indent, kw, gap, t, w);
    WithoutLabel(indent, kw, gap, t);
  }

  lemma WithLabel(indent: string, kw: string, gap: string, t: string, w: string)
    requires AllSpace(indent) && IsKeyword(kw) && gap != [] && AllSpace(gap)
    requires t != [] && !IsJsSpace(t[0]) && NoLineTerminator(t) && '!' !in t
    requires IsWord(w)
    ensures MatchInclude(indent + "!" + kw + gap + t + "!" + w) == Some(Directive(indent, kw, gap, t, Some(w)))
  {
    var line := indent + "!" + kw + gap + t;
    ConcatAssoc(line, "!", w);
    LabelSplitOffCase(line + "!" + w, indent, kw, gap, t, Some(w));
  }

  lemma WithoutLabel(indent: string, kw: string, gap: string, t: string)
    requires AllSpace(indent) && IsKeyword(kw) && gap != [] && AllSpace(gap)
    requires t != [] && !IsJsSpace(t[0]) && NoLineTerminator(t) && '!' !in t
    ensures MatchInclude(indent + "!" + kw + gap + t) == Some(Directive(indent, kw, gap, t, None))
  {
    var line := indent + "!" + kw + gap + t;
    assert line + LabelText(None) == line;
    LabelSplitOffCase(line, indent, kw, gap, t, None);
  }

  lemma LabelSplitOffCase(line: string, indent: string, kw: string, gap: string, t: string, sub: Option<string>)
    requires AllSpace(indent) && IsKeyword(kw) && gap != [] && AllSpace(gap)
    requires t != [] && !IsJsSpace(t[0]) && NoLineTerminator(t) && '!' !in t
    requires sub.Some? ==> IsWord(sub.value)
    requires line == indent + "!" + kw + gap + t + LabelText(sub)
    ensures MatchInclude(line) == Some(Directive(indent, kw, gap, t, sub))
  {
    var tail := gap + t + LabelText(sub);
    ConcatAssoc(indent + "!" + kw, gap, t);
    ConcatAssoc(indent + "!" + kw, gap + t, LabelText(sub));
    MatchAfterKeyword(indent, kw, tail);
    TailWithoutBang(indent, kw, gap, t, sub);
  }

  lemma TailWithoutBang(indent: string, kw: string, gap: string, t: string, sub: Option<string>)
    requires AllSpace(indent) && IsKeyword(kw) && gap != [] && AllSpace(gap)
    requires t != [] && !IsJsSpace(t[0]) && NoLineTerminator(t) && '!' !in t
    requires sub.Some? ==> IsWord(sub.value)
    ensures MatchTail(indent, kw, gap + t + LabelText(sub)) == Some(Directive(indent, kw, gap, t, sub))
  {
    var body := t + LabelText(sub);
    var tail := gap + t + LabelText(sub);
    ConcatAssoc(gap, t, LabelText(sub));
    LeadingSpaceOf(gap, body);
    assert tail[|gap|..] == body;
    SuffixKeepsNoTerminator(t, sub);
    LazyLengthStopsAtBang(t, sub);
    assert body[..|t|] == t;
    if sub.Some? {
      assert body[|t| + 1..] == sub.value;
    }
  }

  lemma SuffixKeepsNoTerminator(t: string, sub: Option<string>)
    requires NoLineTerminator(t)
    requires sub.Some? ==> IsWord(sub.value)
    ensures NoLineTerminator(t + LabelText(sub))
  {
    var body := t + LabelText(sub);
    forall i | 0 <= i < |body| ensures !IsLineTerminator(body[i]) {
      if i > |t| {
        assert body[i] == sub.value[i - |t| - 1];
      }
    }
  }

  /** When the target holds no `!`, the lazy target ends exactly where the label starts. */
  lemma LazyLengthStopsAtBang(t: string, sub: Option<string>)
    requires t != [] && '!' !in t
    requires sub.Some? ==> IsWord(sub.value)
    ensures LazyLength(t + LabelText(sub), 1) == |t|
  {
    var body := t + LabelText(sub);
    var n := LazyLength(body, 1);
    assert body[|t|..] == LabelText(sub);
  }

  /** A line whose last character is a line terminator (a CRLF line keeps its `\r`
      after `split('\n')`) is not a directive. */
  lemma CrLineDoesNotMatch(line: string)
    requires line != [] && IsLineTerminator(line[|line| - 1])
    ensures MatchInclude(line).None?
  {
    MatchIncludeSound(line);
    if MatchInclude(line).Some? {
      TextEndsInTargetOrLabel(MatchInclude(line).value);
    }
  }

  /** The text of a directive ends in its target or its label, never in a line terminator. */
  lemma TextEndsInTargetOrLabel(d: Directive)
    requires WellFormed(d)
    ensures var t := Text(d); t != [] && !IsLineTerminator(t[|t| - 1])
  {
    var head := d.indent + "!" + d.keyword + d.gap;
    assert Text(d) == head + d.target + LabelText(d.sub);
    if d.sub.Some? {
      var w := d.sub.value;
      assert Text(d)[|Text(d)| - 1] == w[|w| - 1];
      assert IsWordChar(w[|w| - 1]);
    } else {
      assert Text(d)[|Text(d)| - 1] == d.target[|d.target| - 1];
    }
  }
}
