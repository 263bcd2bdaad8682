/**
  Hook scripts: the two scanners over line endings, which must agree, and the
  runner scripts built from them.
 */
module ScriptLines {
  import opened Wrappers

  predicate NoLf(s: string) {
    forall i :: 0 <= i < |s| ==> s[i] != '\n'
  }

  predicate CrlfAt(s: string, i: nat) {
    i + 1 < |s| && s[i] == '\r' && s[i + 1] == '\n'
  }

  predicate NoCrlfIn(s: string, from: nat, to: nat) {
    forall i :: from <= i < to ==> !CrlfAt(s, i)
  }

  predicate AllNoLf(lines: seq<string>) {
    forall i :: 0 <= i < |lines| ==> NoLf(lines[i])
  }

  /** Each CRLF replaced by LF: what both scanners are for. */
  function ReplaceCrlf(s: string): string {
    if s == "" then ""
    else if CrlfAt(s, 0) then "\n" + ReplaceCrlf(s[2..])
    else [s[0]] + ReplaceCrlf(s[1..])
  }

  // -------------------------------------------------------- The chunk scanner

  /** `indexOf('\r\n', from)` */
  method IndexOfCrlf(s: string, from: nat) returns (at: Option<nat>)
    requires from <= |s|
    ensures at.Some? ==> from <= at.value && CrlfAt(s, at.value) && NoCrlfIn(s, from, at.value)
    ensures at.None? ==> NoCrlfIn(s, from, |s|)
  {
    for i := from to |s|
      invariant NoCrlfIn(s, from, i)
    {
      if CrlfAt(s, i) {
        return Some(i);
      }
    }
    return None;
  }

  lemma CopyOne(s: string)
    requires s != "" && !CrlfAt(s, 0)
    ensures ReplaceCrlf(s) == [s[0]] + ReplaceCrlf(s[1..])
  {
  }

  lemma ReplaceOne(s: string)
    requires CrlfAt(s, 0)
    ensures ReplaceCrlf(s) == "\n" + ReplaceCrlf(s[2..])
  {
  }

  lemma NoCrlfInRest(s: string, n: nat)
    requires 0 < n <= |s| && NoCrlfIn(s, 0, n)
    ensures !CrlfAt(s, 0) && NoCrlfIn(s[1..], 0, n - 1)
  {
    assert forall i :: 0 <= i < n - 1 ==> CrlfAt(s[1..], i) == CrlfAt(s, i + 1);
  }

  /** Characters before the first CRLF are copied. */
  lemma {:induction false} CopyBeforeCrlf(s: string, n: nat)
    requires n <= |s| && NoCrlfIn(s, 0, n)
    ensures ReplaceCrlf(s) == s[..n] + ReplaceCrlf(s[n..])
  {
    hide ReplaceCrlf, CrlfAt, NoCrlfIn;
    if n == 0 {
      assert s[0..] == s;
    } else {
      NoCrlfInRest(s, n);
      CopyBeforeCrlf(s[1..], n - 1);
      CopyOne(s);
      assert s[1..][n - 1..] == s[n..];
      assert [s[0]] + (s[1..][..n - 1] + ReplaceCrlf(s[n..])) == s[..n] + ReplaceCrlf(s[n..]);
    }
  }

  lemma NoCrlfIsUnchanged(s: string)
    requires NoCrlfIn(s, 0, |s|)
    ensures ReplaceCrlf(s) == s
  {
    CopyBeforeCrlf(s, |s|);
    assert s[|s|..] == "" && s[..|s|] == s;
  }

  lemma ReplaceUpToFirstCrlf(s: string, k: nat)
    requires CrlfAt(s, k) && NoCrlfIn(s, 0, k)
    ensures ReplaceCrlf(s) == s[..k] + "\n" + ReplaceCrlf(s[k + 2..])
  {
    CopyBeforeCrlf(s, k);
    assert CrlfAt(s[k..], 0) && s[k..][2..] == s[k + 2..];
  }

  /** One round of the chunk scanner, whose chunk starts at `from`. */
  lemma ReplaceChunk(s: string, from: nat, to: nat)
    requires from <= to && CrlfAt(s, to) && NoCrlfIn(s, from, to)
    ensures ReplaceCrlf(s[from..]) == s[from..to] + "\n" + ReplaceCrlf(s[to + 2..])
  {
    hide ReplaceCrlf;
    var rest := s[from..];
    assert forall i :: 0 <= i < to - from ==> CrlfAt(rest, i) == CrlfAt(s, from + i);
    ReplaceUpToFirstCrlf(rest, to - from);
    assert rest[..to - from] == s[from..to] && rest[to - from + 2..] == s[to + 2..];
  }

  lemma LastChunk(s: string, from: nat)
    requires from <= |s| && NoCrlfIn(s, from, |s|)
    ensures ReplaceCrlf(s[from..]) == s[from..]
  {
    assert forall i :: 0 <= i < |s| - from ==> CrlfAt(s[from..], i) == CrlfAt(s, from + i);
    NoCrlfIsUnchanged(s[from..]);
  }

  lemma Regroup(a: string, b: string, c: string, d: string)
    ensures a + (b + c + d) == (a + b + c) + d
  {
    assert a + (b + c + d) == (a + b + c) + d;
  }

  /** What is still to come when the chunk scanner has done `done`. */
  ghost predicate Remaining(s: string, done: string, from: nat) {
    from <= |s| && done + ReplaceCrlf(s[from..]) == ReplaceCrlf(s)
  }

  lemma ChunkRound(s: string, done: string, from: nat, to: nat)
    requires Remaining(s, done, from) && from <= to && CrlfAt(s, to) && NoCrlfIn(s, from, to)
    ensures Remaining(s, done + s[from..to] + "\n", to + 2)
  {
    ReplaceChunk(s, from, to);
    Regroup(done, s[from..to], "\n", ReplaceCrlf(s[to + 2..]));
  }

  lemma FirstChunk(s: string, to: nat)
    requires CrlfAt(s, to) && NoCrlfIn(s, 0, to)
    ensures Remaining(s, s[..to] + "\n", to + 2)
  {
    ReplaceUpToFirstCrlf(s, to);
  }

  lemma LastRound(s: string, done: string, from: nat)
    requires Remaining(s, done, from) && NoCrlfIn(s, from, |s|)
    ensures done + s[from..] == ReplaceCrlf(s)
  {
    LastChunk(s, from);
  }

  /** The scanner over chunks replaces every CRLF, and nothing else. */
  method NormalizeCrlfScriptLineEndings(script: string) returns (normalized: string)
    ensures normalized == ReplaceCrlf(script)
  {
    hide ReplaceCrlf, Remaining, CrlfAt, NoCrlfIn;
    var crlfStart := IndexOfCrlf(script, 0);
    if crlfStart.None? {
      NoCrlfIsUnchanged(script);
      return script;
    }
    normalized := script[..crlfStart.value];
    var chunkStart := crlfStart.value + 2;
    normalized := normalized + "\n";
    FirstChunk(script, crlfStart.value);
    crlfStart := IndexOfCrlf(script, chunkStart);
    while crlfStart.Some?
      invariant chunkStart <= |script| && Remaining(script, normalized, chunkStart)
      invariant crlfStart.Some? ==> chunkStart <= crlfStart.value && CrlfAt(script, crlfStart.value)
      invariant NoCrlfIn(script, chunkStart, if crlfStart.Some? then crlfStart.value else |script|)
      decreases |script| - chunkStart
    {
      ChunkRound(script, normalized, chunkStart, crlfStart.value);
      normalized := normalized + script[chunkStart..crlfStart.value];
      normalized := normalized + "\n";
      chunkStart := crlfStart.value + 2;
      crlfStart := IndexOfCrlf(script, chunkStart);
    }
    LastRound(script, normalized, chunkStart);
    normalized := normalized + script[chunkStart..];
  }

  // --------------------------------------------------------- The line scanner

  /** The lines, each followed by LF. */
  function Terminated(lines: seq<string>): string {
    if lines == [] then "" else Terminated(lines[..|lines| - 1]) + lines[|lines| - 1] + "\n"
  }

  /** The lines with LF between them. */
  function Joined(lines: seq<string>): string
    requires lines != []
  {
    Terminated(lines[..|lines| - 1]) + lines[|lines| - 1]
  }

  lemma PlainChunk(s: string, from: nat, to: nat)
    requires from <= to <= |s| && NoCrlfIn(s, from, to)
    ensures ReplaceCrlf(s[from..]) == s[from..to] + ReplaceCrlf(s[to..])
  {
    hide ReplaceCrlf;
    var rest := s[from..];
    assert forall i :: 0 <= i < to - from ==> CrlfAt(rest, i) == CrlfAt(s, from + i);
    CopyBeforeCrlf(rest, to - from);
    assert rest[..to - from] == s[from..to] && rest[to - from..] == s[to..];
  }

  /** The line that ends at the LF at `lf`, without the CR of its ending. */
  function LineUpTo(s: string, from: nat, lf: nat): string
    requires from <= lf < |s|
  {
    s[from..if lf > from && s[lf - 1] == '\r' then lf - 1 else lf]
  }

  /** The script from `from` on, when its first LF is at `lf`. */
  lemma ReplaceFirstLine(s: string, from: nat, lf: nat)
    requires from <= lf < |s| && s[lf] == '\n' && forall i :: from <= i < lf ==> s[i] != '\n'
    ensures ReplaceCrlf(s[from..]) == LineUpTo(s, from, lf) + "\n" + ReplaceCrlf(s[lf + 1..])
  {
    hide ReplaceCrlf;
    if lf > from && s[lf - 1] == '\r' {
      ReplaceChunk(s, from, lf - 1);
    } else {
      PlainChunk(s, from, lf + 1);
      assert s[from..lf + 1] == s[from..lf] + "\n";
    }
  }

  lemma LastLine(s: string, from: nat)
    requires from <= |s| && forall i :: from <= i < |s| ==> s[i] != '\n'
    ensures ReplaceCrlf(s[from..]) == s[from..] && NoLf(s[from..])
  {
    LastChunk(s, from);
  }

  predicate NoLfIn(s: string, from: nat, to: nat) {
    forall i :: from <= i < to && i < |s| ==> s[i] != '\n'
  }

  /** What is still to come when the line scanner has yielded `lines`. */
  ghost predicate LinesRemaining(s: string, lines: seq<string>, from: nat) {
    from <= |s| && AllNoLf(lines) && Terminated(lines) + ReplaceCrlf(s[from..]) == ReplaceCrlf(s)
  }

  lemma NoLinesYet(s: string)
    ensures LinesRemaining(s, [], 0)
  {
    assert s[0..] == s;
  }

  lemma LineHasNoLf(s: string, from: nat, lf: nat)
    requires from <= lf < |s| && NoLfIn(s, from, lf)
    ensures NoLf(LineUpTo(s, from, lf))
  {
  }

  /** One more line, and the script from after it on. */
  lemma LineStep(s: string, lines: seq<string>, from: nat, lf: nat)
    requires LinesRemaining(s, lines, from)
    requires from <= lf < |s| && s[lf] == '\n' && NoLfIn(s, from, lf)
    ensures LinesRemaining(s, lines + [LineUpTo(s, from, lf)], lf + 1)
  {
    hide ReplaceCrlf, Terminated, Joined, LineUpTo;
    LineHasNoLf(s, from, lf);
    var line := LineUpTo(s, from, lf);
    ReplaceFirstLine(s, from, lf);
    Regroup(Terminated(lines), line, "\n", ReplaceCrlf(s[lf + 1..]));
    TerminatedAppends(lines, line);
  }

  lemma LastLineStep(s: string, lines: seq<string>, from: nat)
    requires LinesRemaining(s, lines, from) && NoLfIn(s, from, |s|)
    ensures AllNoLf(lines + [s[from..]]) && Joined(lines + [s[from..]]) == ReplaceCrlf(s)
  {
    LastLine(s, from);
    TerminatedAppends(lines, s[from..]);
  }

  lemma TerminatedAppends(lines: seq<string>, line: string)
    ensures Terminated(lines + [line]) == Terminated(lines) + line + "\n" && Joined(lines + [line]) == Terminated(lines) + line
  {
    assert (lines + [line])[..|lines|] == lines;
  }

  /** The scan from `index` on, when the current line starts at `lineStart`. */
  function ScanFrom(s: string, lineStart: nat, index: nat, lines: seq<string>): seq<string>
    requires lineStart <= index <= |s|
    decreases |s| - index
  {
    if index == |s| then lines + [s[lineStart..]]
    else if s[index] != '\n' then ScanFrom(s, lineStart, index + 1, lines)
    else ScanFrom(s, index + 1, index + 1, lines + [LineUpTo(s, lineStart, index)])
  }

  lemma {:induction false} ScanYieldsLines(s: string, lineStart: nat, index: nat, lines: seq<string>)
    requires lineStart <= index <= |s| && NoLfIn(s, lineStart, index) && LinesRemaining(s, lines, lineStart)
    ensures var all := ScanFrom(s, lineStart, index, lines); all != [] && AllNoLf(all) && Joined(all) == ReplaceCrlf(s)
    decreases |s| - index
  {
    if index == |s| {
      LastLineStep(s, lines, lineStart);
    } else if s[index] != '\n' {
      ScanYieldsLines(s, lineStart, index + 1, lines);
    } else {
      LineStep(s, lines, lineStart, index);
      ScanYieldsLines(s, index + 1, index + 1, lines + [LineUpTo(s, lineStart, index)]);
    }
  }

  /** The scanner over lines: what it yields, joined with LF, is the script with
      every CRLF replaced, and no line contains LF. */
  method IterateLfScriptLines(script: string) returns (lines: seq<string>)
    ensures lines != [] && AllNoLf(lines)
    ensures Joined(lines) == ReplaceCrlf(script)
  {
    ghost var answer := ScanFrom(script, 0, 0, []);
    NoLinesYet(script);
    ScanYieldsLines(script, 0, 0, []);
    lines := [];
    var lineStart := 0;
    for index := 0 to |script|
      invariant lineStart <= index && ScanFrom(script, lineStart, index, lines) == answer
    {
      if script[index] != '\n' {
        continue;
      }
      var lineEnd := if index > lineStart && script[index - 1] == '\r' then index - 1 else index;
      lines := lines + [script[lineStart..lineEnd]];
      lineStart := index + 1;
    }
    lines := lines + [script[lineStart..]];
  }

  /** Lines without LF are determined by their joined text, so the contract above
      leaves no choice. */
  lemma {:induction false} JoinedDeterminesLines(a: seq<string>, b: seq<string>)
    requires a != [] && b != [] && Joined(a) == Joined(b)
    requires AllNoLf(a) && AllNoLf(b)
    ensures a == b
    decreases |a|
  {
    var lastA, lastB := a[|a| - 1], b[|b| - 1];
    var initA, initB := a[..|a| - 1], b[..|b| - 1];
    LastLineFromJoined(initA, lastA, initB, lastB);
    if initA != [] {
      TerminatedIsJoined(initA);
      TerminatedIsJoined(initB);
      assert Joined(initA) == Terminated(initA)[..|Terminated(initA)| - 1];
      assert Joined(initB) == Terminated(initB)[..|Terminated(initB)| - 1];
      JoinedDeterminesLines(initA, initB);
    }
    assert a == initA + [lastA] && b == initB + [lastB];
  }

  lemma TerminatedIsJoined(lines: seq<string>)
    requires lines != []
    ensures Terminated(lines) == Joined(lines) + "\n"
  {
  }

  /** A text cut after an LF, and again later, has an LF in between. */
  lemma LaterCutHasLf(ta: string, la: string, tb: string, lb: string)
    requires ta + la == tb + lb && |ta| < |tb| && tb[|tb| - 1] == '\n'
    ensures !NoLf(la)
  {
    assert (ta + la)[|tb| - 1] == (tb + lb)[|tb| - 1];
    assert la[|tb| - 1 - |ta|] == '\n';
  }

  /** The text after the last LF is the last line. */
  lemma LastLineFromJoined(a: seq<string>, la: string, b: seq<string>, lb: string)
    requires Terminated(a) + la == Terminated(b) + lb && NoLf(la) && NoLf(lb)
    ensures la == lb && Terminated(a) == Terminated(b) && (a == [] <==> b == [])
  {
    var ta, tb := Terminated(a), Terminated(b);
    var text := ta + la;
    if |ta| < |tb| {
      LaterCutHasLf(ta, la, tb, lb);
    } else if |tb| < |ta| {
      LaterCutHasLf(tb, lb, ta, la);
    }
    assert ta == text[..|ta|] && tb == text[..|tb|];
    assert la == text[|ta|..] && lb == text[|tb|..];
  }

  // ------------------------------------------------------------- The lines

  /** The text cut at each LF. */
  function SplitLf(s: string): (lines: seq<string>)
    ensures lines != []
  {
    if s == "" then [""]
    else
      var before := SplitLf(s[..|s| - 1]);
      var last := |before| - 1;
      if s[|s| - 1] == '\n' then before + [""] else before[last := before[last] + [s[|s| - 1]]]
  }

  function LinesOf(script: string): (lines: seq<string>)
    ensures lines != []
  {
    SplitLf(ReplaceCrlf(script))
  }

  lemma NewLine(lines: seq<string>)
    requires lines != [] && AllNoLf(lines)
    ensures AllNoLf(lines + [""]) && Joined(lines + [""]) == Joined(lines) + "\n"
  {
    TerminatedAppends(lines, "");
    TerminatedIsJoined(lines);
  }

  lemma LongerLine(lines: seq<string>, c: char)
    requires lines != [] && AllNoLf(lines) && c != '\n'
    ensures var grown := lines[|lines| - 1 := lines[|lines| - 1] + [c]];
            AllNoLf(grown) && Joined(grown) == Joined(lines) + [c]
  {
    var last := |lines| - 1;
    var grown := lines[last := lines[last] + [c]];
    assert grown[..last] == lines[..last];
    assert Terminated(lines[..last]) + (lines[last] + [c]) == Terminated(lines[..last]) + lines[last] + [c];
  }

  lemma {:induction false} SplitJoins(s: string)
    ensures AllNoLf(SplitLf(s)) && Joined(SplitLf(s)) == s
  {
    if s != "" {
      var init, c := s[..|s| - 1], s[|s| - 1];
      SplitJoins(init);
      if c == '\n' {
        NewLine(SplitLf(init));
      } else {
        LongerLine(SplitLf(init), c);
      }
      assert s == init + [c];
    }
  }

  /** The two scanners agree: the lines of one, joined with LF, are the text of the
      other; and the lines are those of the script with each CRLF replaced. */
  method ScannersAgree(script: string) returns (lines: seq<string>, normalized: string)
    ensures lines == LinesOf(script) && Joined(lines) == normalized
  {
    lines := IterateLfScriptLines(script);
    normalized := NormalizeCrlfScriptLineEndings(script);
    SplitJoins(ReplaceCrlf(script));
    JoinedDeterminesLines(lines, LinesOf(script));
  }

  // --------------------------------------------------------- Runner scripts

  /** The characters JavaScript's `trim` removes. */
  predicate IsWhitespace(c: char) {
    c in {' ', '\t', '\n', '\r', '\U{000B}', '\U{000C}', '\U{00A0}', '\U{1680}', '\U{2028}', '\U{2029}', '\U{202F}', '\U{205F}', '\U{3000}', '\U{FEFF}'}
    || '\U{2000}' <= c <= '\U{200A}'
  }

  function Trim(s: string): string {
    if s == "" then ""
    else if IsWhitespace(s[0]) then Trim(s[1..])
    else if IsWhitespace(s[|s| - 1]) then Trim(s[..|s| - 1])
    else s
  }

  /** `inner` is `s` without the whitespace around it. */
  ghost predicate IsTrimmed(s: string, inner: string) {
    exists i, j :: TrimmedBetween(s, inner, i, j)
  }

  predicate TrimmedBetween(s: string, inner: string, i: int, j: int) {
    && 0 <= i <= j <= |s| && inner == s[i..j]
    && (forall k :: 0 <= k < i ==> IsWhitespace(s[k])) && (forall k :: j <= k < |s| ==> IsWhitespace(s[k]))
    && (i < j ==> !IsWhitespace(s[i]) && !IsWhitespace(s[j - 1]))
  }

  lemma TrimmedAtFront(s: string, inner: string)
    requires s != "" && IsWhitespace(s[0]) && IsTrimmed(s[1..], inner)
    ensures IsTrimmed(s, inner)
  {
    hide IsWhitespace;
    var rest := s[1..];
    var i, j :| TrimmedBetween(rest, inner, i, j);
    assert forall k :: 1 <= k < |s| ==> s[k] == rest[k - 1];
    assert TrimmedBetween(s, inner, i + 1, j + 1);
  }

  lemma TrimmedAtBack(s: string, inner: string)
    requires s != "" && IsWhitespace(s[|s| - 1]) && IsTrimmed(s[..|s| - 1], inner)
    ensures IsTrimmed(s, inner)
  {
    hide IsWhitespace;
    var i, j :| TrimmedBetween(s[..|s| - 1], inner, i, j);
    assert TrimmedBetween(s, inner, i, j);
  }

  /** `Trim` removes the whitespace around a string, and nothing else. */
  lemma {:induction false} TrimTrims(s: string)
    ensures IsTrimmed(s, Trim(s))
    decreases |s|
  {
    hide IsWhitespace, IsTrimmed;
    if s == "" {
      UntrimmedIsTrimmed(s);
    } else if IsWhitespace(s[0]) {
      TrimTrims(s[1..]);
      TrimmedAtFront(s, Trim(s[1..]));
    } else if IsWhitespace(s[|s| - 1]) {
      TrimTrims(s[..|s| - 1]);
      TrimmedAtBack(s, Trim(s[..|s| - 1]));
    } else {
      UntrimmedIsTrimmed(s);
    }
  }

  lemma UntrimmedIsTrimmed(s: string)
    requires s == "" || (!IsWhitespace(s[0]) && !IsWhitespace(s[|s| - 1]))
    ensures IsTrimmed(s, s)
  {
    assert TrimmedBetween(s, s, 0, |s|);
  }

  lemma {:induction false} TrimKeepsNoLf(s: string)
    requires NoLf(s)
    ensures NoLf(Trim(s))
    decreases |s|
  {
    if s != "" {
      if IsWhitespace(s[0]) {
        TrimKeepsNoLf(s[1..]);
      } else if IsWhitespace(s[|s| - 1]) {
        TrimKeepsNoLf(s[..|s| - 1]);
      }
    }
  }

  const HEADER := ["@echo off", "setlocal EnableExtensions"]
  const FAIL_FAST := "if errorlevel 1 exit /b %errorlevel%"

  /** What the shell is to see for one line of the script. */
  function Commands(line: string): seq<string> {
    if Trim(line) == "" then [""] else ["call " + Trim(line), FAIL_FAST]
  }

  function AllCommands(lines: seq<string>): seq<string> {
    if lines == [] then [] else AllCommands(lines[..|lines| - 1]) + Commands(lines[|lines| - 1])
  }

  /** Lines ended the Windows way. */
  function WindowsText(lines: seq<string>): string {
    if lines == [] then "" else WindowsText(lines[..|lines| - 1]) + lines[|lines| - 1] + "\r\n"
  }

  lemma {:induction false} WindowsTextConcat(a: seq<string>, b: seq<string>)
    ensures WindowsText(a + b) == WindowsText(a) + WindowsText(b)
  {
    if b == [] {
      assert a + b == a;
    } else {
      var last := b[|b| - 1];
      WindowsTextConcat(a, b[..|b| - 1]);
      assert (a + b)[..|a + b| - 1] == a + b[..|b| - 1];
      Regroup(WindowsText(a), WindowsText(b[..|b| - 1]), last, "\r\n");
    }
  }

  lemma WindowsTextOfOne(a: string)
    ensures WindowsText([a]) == a + "\r\n"
  {
    assert [a][..0] == [];
    assert "" + a + "\r\n" == a + "\r\n";
  }

  lemma WindowsTextOfTwo(a: string, b: string)
    ensures WindowsText([a, b]) == a + "\r\n" + b + "\r\n"
  {
    assert [a, b][..1] == [a];
    WindowsTextOfOne(a);
  }

  /** What one line of the script adds to the runner. */
  function CommandText(line: string): string {
    if Trim(line) == "" then "\r\n" else "call " + Trim(line) + ("\r\n" + FAIL_FAST + "\r\n")
  }

  lemma CommandTextIsWindowsText(line: string)
    ensures WindowsText(Commands(line)) == CommandText(line)
  {
    if Trim(line) == "" {
      WindowsTextOfOne("");
    } else {
      var call := "call " + Trim(line);
      WindowsTextOfTwo(call, FAIL_FAST);
      assert call + "\r\n" + FAIL_FAST + "\r\n" == call + ("\r\n" + FAIL_FAST + "\r\n");
    }
  }

  /** The runner when the first `i` lines of the script are done. */
  ghost predicate RunnerSoFar(runner: string, lines: seq<string>, i: nat) {
    i <= |lines| && runner == WindowsText(HEADER + AllCommands(lines[..i]))
  }

  lemma RunnerHeader(lines: seq<string>)
    ensures RunnerSoFar("@echo off\r\n" + "setlocal EnableExtensions\r\n", lines, 0)
  {
    HeaderText();
    NoCommandsYet(lines);
  }

  lemma HeaderText()
    ensures WindowsText(HEADER) == "@echo off\r\n" + "setlocal EnableExtensions\r\n"
  {
    hide WindowsText;
    WindowsTextOfTwo("@echo off", "setlocal EnableExtensions");
    assert "@echo off" + "\r\n" == "@echo off\r\n" && "setlocal EnableExtensions" + "\r\n" == "setlocal EnableExtensions\r\n";
    Regroup3("@echo off\r\n", "setlocal EnableExtensions", "\r\n");
  }

  lemma NoCommandsYet(lines: seq<string>)
    ensures HEADER + AllCommands(lines[..0]) == HEADER
  {
  }

  lemma CommandsStep(header: seq<string>, lines: seq<string>, i: nat)
    requires i < |lines|
    ensures header + AllCommands(lines[..i + 1]) == header + AllCommands(lines[..i]) + Commands(lines[i])
  {
    assert lines[..i + 1][..i] == lines[..i];
  }

  lemma RunnerStep(runner: string, lines: seq<string>, i: nat)
    requires i < |lines| && RunnerSoFar(runner, lines, i)
    ensures RunnerSoFar(runner + CommandText(lines[i]), lines, i + 1)
  {
    CommandTextIsWindowsText(lines[i]);
    CommandsStep(HEADER, lines, i);
    WindowsTextConcat(HEADER + AllCommands(lines[..i]), Commands(lines[i]));
  }

  lemma RunnerDone(runner: string, script: string)
    requires RunnerSoFar(runner, LinesOf(script), |LinesOf(script)|)
    ensures runner == WindowsText(HEADER + AllCommands(LinesOf(script)))
  {
    assert LinesOf(script)[..|LinesOf(script)|] == LinesOf(script);
  }

  /** One `call` with its fail-fast test for each line that is not blank, in order. */
  method BuildWindowsRunnerScript(script: string) returns (runnerScript: string)
    ensures runnerScript == WindowsText(HEADER + AllCommands(LinesOf(script)))
  {
    var lines, _ := ScannersAgree(script);
    runnerScript := "@echo off\r\n" + "setlocal EnableExtensions\r\n";
    RunnerHeader(lines);
    for i := 0 to |lines|
      invariant RunnerSoFar(runnerScript, lines, i)
    {
      RunnerStep(runnerScript, lines, i);
      var command := Trim(lines[i]);
      if command == "" {
        runnerScript := runnerScript + "\r\n";
        continue;
      }
      runnerScript := runnerScript + ("call " + command + ("\r\n" + FAIL_FAST + "\r\n"));
    }
    RunnerDone(runnerScript, script);
  }

  lemma {:induction false} ReplaceConcat(a: string, b: string)
    requires a == "" || a[|a| - 1] != '\r'
    ensures ReplaceCrlf(a + b) == ReplaceCrlf(a) + ReplaceCrlf(b)
    decreases |a|
  {
    hide ReplaceCrlf;
    if a == "" {
      assert a + b == b && ReplaceCrlf("") == "" by {
        NoCrlfIsUnchanged("");
      }
    } else if CrlfAt(a, 0) {
      ReplaceConcat(a[2..], b);
      ReplaceOne(a);
      ReplaceOne(a + b);
      assert (a + b)[2..] == a[2..] + b;
      Regroup3("\n", ReplaceCrlf(a[2..]), ReplaceCrlf(b));
    } else {
      ReplaceConcat(a[1..], b);
      CopyOne(a);
      CopyOne(a + b);
      assert (a + b)[1..] == a[1..] + b;
      Regroup3([a[0]], ReplaceCrlf(a[1..]), ReplaceCrlf(b));
    }
  }

  lemma Regroup3(a: string, b: string, c: string)
    ensures a + (b + c) == (a + b) + c
  {
    assert a + (b + c) == (a + b) + c;
  }

  lemma WindowsLineReadsBack(line: string)
    requires NoLf(line)
    ensures ReplaceCrlf(line + "\r\n") == line + "\n"
  {
    hide ReplaceCrlf;
    var text := line + "\r\n";
    ReplaceUpToFirstCrlf(text, |line|);
    NoCrlfIsUnchanged("");
    assert text[..|line|] == line && text[|line| + 2..] == "";
  }

  /** Read back with the same line scanner, a Windows text has just its lines. */
  lemma {:induction false} WindowsTextReadsBack(lines: seq<string>)
    requires AllNoLf(lines)
    ensures ReplaceCrlf(WindowsText(lines)) == Terminated(lines)
    ensures lines != [] ==> |WindowsText(lines)| > 0 && WindowsText(lines)[|WindowsText(lines)| - 1] == '\n'
  {
    hide ReplaceCrlf;
    if lines == [] {
      NoCrlfIsUnchanged("");
    } else {
      var before, last := lines[..|lines| - 1], lines[|lines| - 1];
      WindowsTextReadsBack(before);
      WindowsLineReadsBack(last);
      ReplaceConcat(WindowsText(before), last + "\r\n");
      Regroup3(WindowsText(before), last, "\r\n");
      Regroup3(Terminated(before), last, "\n");
    }
  }

  lemma CommandHasNoLf(line: string)
    requires NoLf(line)
    ensures AllNoLf(Commands(line))
  {
    hide Trim;
    TrimKeepsNoLf(line);
    assert NoLf(FAIL_FAST) && NoLf("call ");
  }

  lemma {:induction false} CommandsHaveNoLf(lines: seq<string>)
    requires AllNoLf(lines)
    ensures AllNoLf(AllCommands(lines))
  {
    hide NoLf, Commands;
    if lines != [] {
      CommandsHaveNoLf(lines[..|lines| - 1]);
      CommandHasNoLf(lines[|lines| - 1]);
    }
  }

  /** The lines the shell reads from the Windows runner: the header, then one `call`
      and its fail-fast test for each line of the script that is not blank, in
      order, and nothing else. */
  lemma WindowsRunnerReadsBack(script: string)
    ensures LinesOf(WindowsText(HEADER + AllCommands(LinesOf(script)))) == HEADER + AllCommands(LinesOf(script)) + [""]
  {
    HeaderHasNoLf();
    ScriptCommandsHaveNoLf(script);
    WindowsLinesReadBack(HEADER, AllCommands(LinesOf(script)));
  }

  lemma HeaderHasNoLf()
    ensures AllNoLf(HEADER)
  {
  }

  lemma ScriptCommandsHaveNoLf(script: string)
    ensures AllNoLf(AllCommands(LinesOf(script)))
  {
    SplitJoins(ReplaceCrlf(script));
    CommandsHaveNoLf(LinesOf(script));
  }

  lemma WindowsLinesReadBack(header: seq<string>, lines: seq<string>)
    requires AllNoLf(header) && AllNoLf(lines)
    ensures LinesOf(WindowsText(header + lines)) == header + lines + [""]
  {
    WindowsTextReadsBack(header + lines);
    TerminatedSplits(header + lines);
  }

  lemma TerminatedSplits(lines: seq<string>)
    requires AllNoLf(lines)
    ensures SplitLf(Terminated(lines)) == lines + [""]
  {
    SplitJoins(Terminated(lines));
    TerminatedAppends(lines, "");
    JoinedDeterminesLines(SplitLf(Terminated(lines)), lines + [""]);
  }

  lemma NothingTerminated()
    ensures Terminated([]) == ""
  {
  }

  lemma {:induction false} TerminatedConcat(a: seq<string>, b: seq<string>)
    ensures Terminated(a + b) == Terminated(a) + Terminated(b)
  {
    hide Terminated, Joined;
    if b == [] {
      assert a + b == a;
      NothingTerminated();
    } else {
      var init, last := b[..|b| - 1], b[|b| - 1];
      TerminatedConcat(a, init);
      assert a + b == a + init + [last] && b == init + [last];
      TerminatedAppends(a + init, last);
      TerminatedAppends(init, last);
      Regroup(Terminated(a), Terminated(init), last, "\n");
    }
  }

  // What the Windows runner runs

  predicate IsCall(line: string) {
    "call " <= line
  }

  /** The commands that the lines call, in order. */
  function Called(lines: seq<string>): seq<string> {
    if lines == [] then []
    else
      var before, last := Called(lines[..|lines| - 1]), lines[|lines| - 1];
      if IsCall(last) then before + [last[5..]] else before
  }

  /** The lines that are not blank, trimmed, in order. */
  function NotBlank(lines: seq<string>): seq<string> {
    if lines == [] then []
    else
      var before, last := NotBlank(lines[..|lines| - 1]), lines[|lines| - 1];
      if Trim(last) == "" then before else before + [Trim(last)]
  }

  ghost predicate FailsFast(lines: seq<string>) {
    forall i :: 0 <= i < |lines| && IsCall(lines[i]) ==> i + 1 < |lines| && lines[i + 1] == "if errorlevel 1 exit /b %errorlevel%"
  }

  lemma CalledAppends(lines: seq<string>, line: string)
    ensures Called(lines + [line]) == if IsCall(line) then Called(lines) + [line[5..]] else Called(lines)
  {
    assert (lines + [line])[..|lines|] == lines;
  }

  lemma CommandsCall(lines: seq<string>, line: string)
    requires FailsFast(lines)
    ensures Called(lines + Commands(line)) == if Trim(line) == "" then Called(lines) else Called(lines) + [Trim(line)]
    ensures FailsFast(lines + Commands(line))
  {
    hide Trim, Called;
    var command := "call " + Trim(line);
    if Trim(line) == "" {
      CalledAppends(lines, "");
    } else {
      assert command[..5] == "call " && command[5..] == Trim(line);
      assert !IsCall(FAIL_FAST) by {
        assert FAIL_FAST[0] == 'i';
      }
      CalledAppends(lines, command);
      CalledAppends(lines + [command], FAIL_FAST);
      assert lines + Commands(line) == lines + [command] + [FAIL_FAST];
    }
  }

  lemma {:induction false} AllCommandsCall(header: seq<string>, lines: seq<string>)
    requires FailsFast(header)
    ensures Called(header + AllCommands(lines)) == Called(header) + NotBlank(lines) && FailsFast(header + AllCommands(lines))
  {
    hide Commands, Called, Trim, FailsFast;
    if lines == [] {
      assert header + AllCommands(lines) == header && Called(header) + NotBlank(lines) == Called(header);
    } else {
      var init, last := lines[..|lines| - 1], lines[|lines| - 1];
      AllCommandsCall(header, init);
      CommandsCall(header + AllCommands(init), last);
      assert header + AllCommands(lines) == header + AllCommands(init) + Commands(last);
    }
  }

  lemma HeaderCallsNothing()
    ensures Called(HEADER) == [] && FailsFast(HEADER)
  {
    assert HEADER[0][0] == '@' && HEADER[1][0] == 's';
    assert HEADER[..1] == [HEADER[0]] && [HEADER[0]][..0] == [];
    assert Called([HEADER[0]]) == [];
  }

  /** What the shell reads from the Windows runner calls the lines of the script that are
      not blank, trimmed, one after the other, and gives up after any that fails. */
  lemma WindowsRunnerCallsScript(script: string)
    ensures var lines := LinesOf(WindowsText(HEADER + AllCommands(LinesOf(script))));
            Called(lines) == NotBlank(LinesOf(script)) && FailsFast(lines)
  {
    hide Called, NotBlank, LinesOf, WindowsText;
    WindowsRunnerReadsBack(script);
    HeaderCallsNothing();
    AllCommandsCall(HEADER, LinesOf(script));
    CalledAppends(HEADER + AllCommands(LinesOf(script)), "");
    assert [] + NotBlank(LinesOf(script)) == NotBlank(LinesOf(script));
  }

  const POSIX_HEADER := ["#!/usr/bin/env bash", "set -e"]

  /** The POSIX runner, cut at LF: fail-fast once, then the lines of the script. */
  lemma PosixRunnerReadsBack(script: string)
    ensures SplitLf(Terminated(POSIX_HEADER) + ReplaceCrlf(script) + "\n") == POSIX_HEADER + LinesOf(script) + [""]
  {
    assert AllNoLf(POSIX_HEADER);
    HeaderThenScript(POSIX_HEADER, script);
  }

  lemma HeaderThenScript(header: seq<string>, script: string)
    requires AllNoLf(header)
    ensures SplitLf(Terminated(header) + ReplaceCrlf(script) + "\n") == header + LinesOf(script) + [""]
  {
    hide ReplaceCrlf, SplitLf, Terminated, Joined, NoLf;
    var lines := LinesOf(script);
    SplitJoins(ReplaceCrlf(script));
    TerminatedIsJoined(lines);
    TerminatedConcat(header, lines);
    TerminatedSplits(header + lines);
    assert Terminated(header) + (ReplaceCrlf(script) + "\n") == Terminated(header) + ReplaceCrlf(script) + "\n";
  }

  method BuildPosixRunnerScript(script: string) returns (runnerScript: string)
    ensures SplitLf(runnerScript) == POSIX_HEADER + LinesOf(script) + [""]
  {
    var normalized := NormalizeCrlfScriptLineEndings(script);
    runnerScript := "#!/usr/bin/env bash\nset -e\n" + normalized + "\n";
    PosixRunnerReadsBack(script);
    assert POSIX_HEADER[..1] == ["#!/usr/bin/env bash"] && ["#!/usr/bin/env bash"][..0] == [];
    assert Terminated(POSIX_HEADER) == "#!/usr/bin/env bash\nset -e\n";
  }
}
