/** Vault notes: a frontmatter block and a body, parsed and rendered; and the pass that copies
    each mapped document into its note. */
module VaultNotes {
  import opened Text
  import opened Wrappers

  // ---------------------------------------------------------------- lines

  /** Where `str.splitlines` ends a line. */
  predicate IsBreak(c: char) {
    c in {'\n', '\r', '\U{B}', '\U{C}', '\U{1C}', '\U{1D}', '\U{1E}', '\U{85}', '\U{2028}', '\U{2029}'}
  }

  predicate BreakFree(s: string) {
    forall i :: 0 <= i < |s| ==> !IsBreak(s[i])
  }

  /** The length of the first line, its ending included. */
  function LineEnd(s: string): (n: nat)
    ensures n <= |s| && (|s| > 0 ==> n > 0)
    decreases |s|
  {
    if |s| == 0 then 0
    else if s[0] == '\r' && |s| > 1 && s[1] == '\n' then 2
    else if IsBreak(s[0]) then 1
    else 1 + LineEnd(s[1..])
  }

  /** The lines of a text, each with its ending. */
  function SplitLines(s: string): seq<string>
    decreases |s|
  {
    if |s| == 0 then [] else [s[..LineEnd(s)]] + SplitLines(s[LineEnd(s)..])
  }

  function Concat(lines: seq<string>): string
    decreases |lines|
  {
    if |lines| == 0 then "" else lines[0] + Concat(lines[1..])
  }

  /** `rstrip("\r\n")`. */
  function Chomp(s: string): string
    decreases |s|
  {
    if |s| > 0 && (s[|s| - 1] == '\r' || s[|s| - 1] == '\n') then Chomp(s[..|s| - 1]) else s
  }

  // ---------------------------------------------------------------- notes

  datatype Note = Note(frontmatter: seq<string>, body: string)

  const LF: string := "\n"
  const CRLF: string := "\r\n"
  const FENCE: string := "---"

  function NoteNewline(text: string): Option<string> {
    if StartsWith(text, FENCE + CRLF) then Some(CRLF)
    else if StartsWith(text, FENCE + LF) then Some(LF)
    else None
  }

  /** Exactly one blank line after the frontmatter belongs to it. */
  function DropSeparator(body: string): string {
    if StartsWith(body, CRLF) then body[2..] else if StartsWith(body, LF) then body[1..] else body
  }

  /** The lines before the closing fence and the lines after it. */
  function Scan(lines: seq<string>): Option<(seq<string>, seq<string>)>
    decreases |lines|
  {
    if |lines| == 0 then None
    else if Chomp(lines[0]) == FENCE then Some(([], lines[1..]))
    else Prepend([Chomp(lines[0])], Scan(lines[1..]))
  }

  function Prepend(fm: seq<string>, found: Option<(seq<string>, seq<string>)>): Option<(seq<string>, seq<string>)> {
    if found.None? then None else Some((fm + found.value.0, found.value.1))
  }

  lemma PrependTwice(a: seq<string>, b: seq<string>, found: Option<(seq<string>, seq<string>)>)
    ensures Prepend(a, Prepend(b, found)) == Prepend(a + b, found)
    ensures Prepend([], found) == found
  {
    if found.Some? {
      assert a + (b + found.value.0) == a + b + found.value.0;
      assert [] + found.value.0 == found.value.0;
    }
  }

  function Parse(text: string): Note {
    match NoteNewline(text)
    case None => Note([], text)
    case Some(nl) =>
      match Scan(SplitLines(text[3 + |nl|..]))
      case None => Note([], text)
      case Some(found) => Note(found.0, DropSeparator(Concat(found.1)))
  }

  function Join(lines: seq<string>, nl: string): string
    decreases |lines|
  {
    if |lines| == 0 then "" else if |lines| == 1 then lines[0] else lines[0] + nl + Join(lines[1..], nl)
  }

  function StampLine(line: string, today: string): string {
    if StartsWith(line, "updated:") then "updated: " + today else line
  }

  function Stamped(fm: seq<string>, today: string): (r: seq<string>) {
    seq(|fm|, i requires 0 <= i < |fm| => StampLine(fm[i], today))
  }

  function Render(fm: seq<string>, body: string, today: string, nl: string): string {
    FENCE + nl + Join(Stamped(fm, today), nl) + nl + FENCE + nl + nl + body
  }

  function DeclaredSource(fm: seq<string>): Option<string>
    decreases |fm|
  {
    if |fm| == 0 then None
    else if StartsWith(fm[0], "source:") then Some(Strip(fm[0][7..]))
    else DeclaredSource(fm[1..])
  }

  datatype Problem = NoFrontmatter | NoSourceKey | OtherSource(declared: string)

  function OwnershipProblem(fm: seq<string>, source: string): Option<Problem> {
    if |fm| == 0 then Some(NoFrontmatter)
    else match DeclaredSource(fm)
      case None => Some(NoSourceKey)
      case Some(declared) => if declared != source then Some(OtherSource(declared)) else None
  }

  function NewFrontmatter(source: string, today: string): seq<string> {
    ["project: QU.I.R.K.", "type: guide", "status: active", "source: " + source, "updated: " + today]
  }

  /** Line by line, as the source looks for the closing fence. */
  method ParseNote(text: string) returns (note: Note)
    ensures note == Parse(text)
  {
    var nl := NoteNewline(text);
    if nl.None? {
      return Note([], text);
    }
    var lines := SplitLines(text[3 + |nl.value|..]);
    var fm := [];
    assert lines[0..] == lines;
    PrependTwice([], [], Scan(lines));
    for i := 0 to |lines|
      invariant Scan(lines) == Prepend(fm, Scan(lines[i..]))
    {
      PrependTwice(fm, [Chomp(lines[i])], Scan(lines[i + 1..]));
      assert lines[i..][1..] == lines[i + 1..];
      if Chomp(lines[i]) == FENCE {
        assert Scan(lines[i..]) == Some(([], lines[i + 1..]));
        assert fm + [] == fm;
        return Note(fm, DropSeparator(Concat(lines[i + 1..])));
      }
      fm := fm + [Chomp(lines[i])];
    }
    return Note([], text);
  }

  method FindDeclaredSource(fm: seq<string>) returns (r: Option<string>)
    ensures r == DeclaredSource(fm)
  {
    for i := 0 to |fm|
      invariant DeclaredSource(fm) == DeclaredSource(fm[i..])
    {
      assert fm[i..][1..] == fm[i + 1..];
      if StartsWith(fm[i], "source:") {
        return Some(Strip(fm[i][7..]));
      }
    }
    return None;
  }

  // ---------------------------------------------------------------- splitting what was rendered

  lemma {:induction false} ConcatSplit(s: string)
    ensures Concat(SplitLines(s)) == s
    decreases |s|
  {
    if |s| > 0 {
      ConcatSplit(s[LineEnd(s)..]);
      assert s == s[..LineEnd(s)] + s[LineEnd(s)..];
    }
  }

  /** A break-free line ends where its line ending does. */
  lemma {:induction false} LineEndAt(line: string, ending: string, rest: string)
    requires BreakFree(line)
    requires ending == CRLF || (|ending| == 1 && IsBreak(ending[0]) && ending[0] != '\r')
    ensures LineEnd(line + ending + rest) == |line| + |ending|
    decreases |line|
  {
    var s := line + ending + rest;
    if |line| > 0 {
      LineEndAt(line[1..], ending, rest);
      assert s[1..] == line[1..] + ending + rest;
      assert s[0] == line[0];
    } else {
      assert s == ending + rest;
    }
  }

  lemma SplitFirst(line: string, ending: string, rest: string)
    requires BreakFree(line)
    requires ending == CRLF || (|ending| == 1 && IsBreak(ending[0]) && ending[0] != '\r')
    ensures SplitLines(line + ending + rest) == [line + ending] + SplitLines(rest)
  {
    LineEndAt(line, ending, rest);
    var s := line + ending + rest;
    assert s[..|line| + |ending|] == line + ending;
    assert s[|line| + |ending|..] == rest;
  }

  predicate IsNewline(nl: string) {
    nl == LF || nl == CRLF
  }

  lemma ChompLine(line: string, nl: string)
    requires IsNewline(nl)
    requires |line| > 0 ==> line[|line| - 1] != '\r' && line[|line| - 1] != '\n'
    ensures Chomp(line + nl) == line
  {
    assert Chomp(line) == line;
    if nl == LF {
      assert (line + nl)[..|line|] == line;
    } else {
      assert (line + nl)[..|line| + 1] == line + "\r";
      assert (line + "\r")[..|line|] == line;
      assert Chomp(line + "\r") == line;
    }
  }

  /** A line as `Parse` returns it: at most its last character is a line break, and then not
      one of the two that are trimmed. */
  ghost predicate Clean(line: string) {
    && (forall i :: 0 <= i < |line| - 1 ==> !IsBreak(line[i]))
    && (|line| > 0 ==> line[|line| - 1] != '\r' && line[|line| - 1] != '\n')
    && line != FENCE
  }

  /** A line that ends in a break of its own is followed by an empty one when read back. */
  function Reread(line: string): seq<string> {
    if |line| > 0 && IsBreak(line[|line| - 1]) then [line, ""] else [line]
  }

  function RereadAll(lines: seq<string>): seq<string>
    decreases |lines|
  {
    if |lines| == 0 then [] else Reread(lines[0]) + RereadAll(lines[1..])
  }

  function Terminated(lines: seq<string>, nl: string): string
    decreases |lines|
  {
    if |lines| == 0 then "" else lines[0] + nl + Terminated(lines[1..], nl)
  }

  lemma {:induction false} JoinTerminated(lines: seq<string>, nl: string)
    requires |lines| > 0
    ensures Join(lines, nl) + nl == Terminated(lines, nl)
    decreases |lines|
  {
    if |lines| == 1 {
      assert Terminated(lines[1..], nl) == "";
    } else {
      JoinTerminated(lines[1..], nl);
      assert Join(lines, nl) + nl == lines[0] + nl + (Join(lines[1..], nl) + nl);
    }
  }

  lemma ChompClean(line: string)
    requires Clean(line)
    ensures Chomp(line) == line
  {
  }

  lemma ScanOne(line: string, nl: string, rest: string)
    requires IsNewline(nl) && Clean(line)
    ensures Scan(SplitLines(line + nl + rest)) == Prepend(Reread(line), Scan(SplitLines(rest)))
  {
    if |line| > 0 && IsBreak(line[|line| - 1]) {
      SplitBroken(line, nl, rest);
      ChompLine("", nl);
      assert "" + nl == nl;
      ChompClean(line);
      ScanSteps(line, nl, SplitLines(rest));
    } else {
      assert BreakFree(line);
      ChompLine(line, nl);
      SplitFirst(line, nl, rest);
      ScanStep(line + nl, SplitLines(rest));
    }
  }

  lemma SplitBroken(line: string, nl: string, rest: string)
    requires IsNewline(nl) && Clean(line) && |line| > 0 && IsBreak(line[|line| - 1])
    ensures SplitLines(line + nl + rest) == [line] + ([nl] + SplitLines(rest))
  {
    var n := |line| - 1;
    var tail := nl + rest;
    assert line[..n] + line[n..] == line;
    assert line + nl + rest == line + tail;
    SplitFirst(line[..n], line[n..], tail);
    assert "" + nl + rest == tail;
    SplitFirst("", nl, rest);
    assert "" + nl == nl;
  }

  lemma ScanStep(line: string, rest: seq<string>)
    requires Chomp(line) != FENCE
    ensures Scan([line] + rest) ==
            Prepend([Chomp(line)], Scan(rest))
  {
    assert ([line] + rest)[1..] == rest;
  }

  lemma ScanSteps(line: string, nl: string, rest: seq<string>)
    requires Chomp(line) == line != FENCE && Chomp(nl) == ""
    ensures Scan([line] + ([nl] + rest)) ==
            Prepend([line, ""], Scan(rest))
  {
    ScanStep(nl, rest);
    ScanStep(line, [nl] + rest);
    PrependTwice([line], [""], Scan(rest));
    assert [line] + [""] == [line, ""];
  }

  lemma TerminatedHead(lines: seq<string>, nl: string, rest: string)
    requires |lines| > 0
    ensures Terminated(lines, nl) + rest == lines[0] + nl + (Terminated(lines[1..], nl) + rest)
  {
    assert Terminated(lines, nl) == lines[0] + nl + Terminated(lines[1..], nl);
  }

  lemma {:induction false} ScanTerminated(lines: seq<string>, nl: string, rest: string)
    requires IsNewline(nl) && forall i :: 0 <= i < |lines| ==> Clean(lines[i])
    ensures Scan(SplitLines(Terminated(lines, nl) + rest)) ==
            Prepend(RereadAll(lines), Scan(SplitLines(rest)))
    decreases |lines|
  {
    if |lines| == 0 {
      assert Terminated(lines, nl) + rest == rest;
      PrependTwice([], [], Scan(SplitLines(rest)));
    } else {
      ScanTerminated(lines[1..], nl, rest);
      PrependTwice(Reread(lines[0]), RereadAll(lines[1..]), Scan(SplitLines(rest)));
      TerminatedHead(lines, nl, rest);
      ScanOne(lines[0], nl, Terminated(lines[1..], nl) + rest);
    }
  }

  lemma ScanFence(nl: string, rest: string)
    requires IsNewline(nl)
    ensures Scan(SplitLines(FENCE + nl + rest)) == Some(([], SplitLines(rest)))
  {
    SplitFirst(FENCE, nl, rest);
    ChompLine(FENCE, nl);
    assert ([FENCE + nl] + SplitLines(rest))[1..] == SplitLines(rest);
  }

  lemma StartsNot(s: string, p: string, i: nat)
    requires i < |s| && i < |p| && s[i] != p[i]
    ensures !StartsWith(s, p)
  {
    assert |p| <= |s| ==> s[..|p|][i] == s[i];
  }

  lemma NewlineSeen(nl: string, rest: string)
    requires IsNewline(nl)
    ensures NoteNewline(FENCE + nl + rest) == Some(nl)
    ensures (FENCE + nl + rest)[3 + |nl|..] == rest
  {
    var text := FENCE + nl + rest;
    assert text[..3 + |nl|] == FENCE + nl;
    assert text[3] == nl[0];
    if nl == LF {
      StartsNot(text, FENCE + CRLF, 3);
    }
  }

  lemma SeparatorDropped(nl: string, body: string)
    requires IsNewline(nl)
    ensures DropSeparator(nl + body) == body
  {
    var s := nl + body;
    assert s[..|nl|] == nl && s[|nl|..] == body && s[0] == nl[0];
    if nl == LF {
      StartsNot(s, CRLF, 0);
    }
  }

  /** Lines up to a closing fence are read back, whatever follows the fence. */
  lemma ParseTerminated(lines: seq<string>, nl: string, rest: string)
    requires IsNewline(nl) && forall i :: 0 <= i < |lines| ==> Clean(lines[i])
    ensures var text := FENCE + nl + (Terminated(lines, nl) + (FENCE + nl + rest));
            && NoteNewline(text) == Some(nl)
            && Parse(text) == Note(RereadAll(lines), DropSeparator(rest))
  {
    var tail := FENCE + nl + rest;
    NewlineSeen(nl, Terminated(lines, nl) + tail);
    ScanTerminated(lines, nl, tail);
    ScanFence(nl, rest);
    ConcatSplit(rest);
    assert RereadAll(lines) + [] == RereadAll(lines);
  }

  lemma RenderIsTerminated(fm: seq<string>, body: string, today: string, nl: string)
    requires |fm| > 0
    ensures Render(fm, body, today, nl) ==
            FENCE + nl + (Terminated(Stamped(fm, today), nl) + (FENCE + nl + (nl + body)))
  {
    JoinTerminated(Stamped(fm, today), nl);
    var j := Join(Stamped(fm, today), nl);
    assert FENCE + nl + j + nl + FENCE + nl + nl + body == FENCE + nl + ((j + nl) + (FENCE + nl + (nl + body)));
  }

  /** A note of clean lines is read back with its body intact, in its own line ending. */
  lemma RenderedIsParsed(fm: seq<string>, body: string, today: string, nl: string)
    requires IsNewline(nl) && BreakFree(today)
    requires |fm| > 0 && forall i :: 0 <= i < |fm| ==> Clean(fm[i])
    ensures NoteNewline(Render(fm, body, today, nl)) == Some(nl)
    ensures Parse(Render(fm, body, today, nl)) == Note(RereadAll(Stamped(fm, today)), body)
  {
    RenderIsTerminated(fm, body, today, nl);
    forall i | 0 <= i < |fm| ensures Clean(Stamped(fm, today)[i]) {
      StampClean(fm[i], today);
    }
    ParseTerminated(Stamped(fm, today), nl, nl + body);
    SeparatorDropped(nl, body);
  }

  lemma StampClean(line: string, today: string)
    requires BreakFree(today)
    ensures Clean(line) ==> Clean(StampLine(line, today))
    ensures BreakFree(line) ==> BreakFree(StampLine(line, today))
    ensures StampLine(line, today) == FENCE <==> line == FENCE
  {
    var stamped := "updated: " + today;
    assert stamped[0] == 'u';
    if StartsWith(line, "updated:") {
      assert line[..8][0] == line[0];
      forall i | 0 <= i < |stamped| ensures !IsBreak(stamped[i]) {
        if i >= 9 {
          assert stamped[i] == today[i - 9];
        }
      }
    }
  }

  lemma {:induction false} BreakFreeRereads(lines: seq<string>)
    requires forall i :: 0 <= i < |lines| ==> BreakFree(lines[i])
    ensures RereadAll(lines) == lines
    decreases |lines|
  {
    if |lines| > 0 {
      BreakFreeRereads(lines[1..]);
    }
  }

  lemma {:induction false} TerminatedAppend(a: seq<string>, b: seq<string>, nl: string)
    ensures Terminated(a + b, nl) == Terminated(a, nl) + Terminated(b, nl)
    decreases |a|
  {
    if |a| == 0 {
      assert a + b == b;
    } else {
      assert (a + b)[1..] == a[1..] + b;
      TerminatedAppend(a[1..], b, nl);
    }
  }

  lemma TerminatedAround(lines: seq<string>, k: nat, nl: string, rest: string)
    requires k < |lines|
    ensures Terminated(lines, nl) + rest == Terminated(lines[..k], nl) + (lines[k] + nl + (Terminated(lines[k + 1..], nl) + rest))
  {
    assert lines == lines[..k] + lines[k..];
    TerminatedAppend(lines[..k], lines[k..], nl);
    TerminatedHead(lines[k..], nl, rest);
    assert lines[k..][1..] == lines[k + 1..];
  }

  /** A fence inside the frontmatter ends it early. */
  lemma FenceCutsShort(lines: seq<string>, body: string, nl: string)
    requires IsNewline(nl) && FENCE in lines
    requires forall i :: 0 <= i < |lines| ==> BreakFree(lines[i])
    ensures |Parse(FENCE + nl + (Terminated(lines, nl) + (FENCE + nl + (nl + body)))).frontmatter| < |lines|
  {
    var k := FirstFence(lines);
    var rest := Terminated(lines[k + 1..], nl) + (FENCE + nl + (nl + body));
    TerminatedAround(lines, k, nl, FENCE + nl + (nl + body));
    ParseTerminated(lines[..k], nl, rest);
    BreakFreeRereads(lines[..k]);
  }

  lemma FirstFence(lines: seq<string>) returns (k: nat)
    requires FENCE in lines
    ensures k < |lines| && lines[k] == FENCE && forall i :: 0 <= i < k ==> lines[i] != FENCE
  {
    k := 0;
    while lines[k] != FENCE
      invariant k < |lines| && forall i :: 0 <= i < k ==> lines[i] != FENCE
      decreases |lines| - k
    {
      assert exists j :: k < j < |lines| && lines[j] == FENCE;
      k := k + 1;
    }
  }

  /** The round trip: on break-free lines, parsing what was rendered returns the stamped
      frontmatter and the exact body if and only if there is a frontmatter and none of its
      lines is a fence. */
  lemma RoundTrip(fm: seq<string>, body: string, today: string, nl: string)
    requires IsNewline(nl) && BreakFree(today)
    requires forall i :: 0 <= i < |fm| ==> BreakFree(fm[i])
    ensures Parse(Render(fm, body, today, nl)) == Note(Stamped(fm, today), body) <==> |fm| > 0 && FENCE !in fm
  {
    StampedLines(fm, today);
    var lines := Stamped(fm, today);
    if |fm| == 0 {
      EmptyDoesNotReturn(body, today, nl);
    } else if FENCE in fm {
      RenderIsTerminated(fm, body, today, nl);
      FenceCutsShort(lines, body, nl);
    } else {
      RenderedIsParsed(fm, body, today, nl);
      BreakFreeRereads(lines);
    }
  }

  lemma StampedLines(fm: seq<string>, today: string)
    requires BreakFree(today)
    requires forall i :: 0 <= i < |fm| ==> BreakFree(fm[i])
    ensures forall i :: 0 <= i < |fm| ==> BreakFree(Stamped(fm, today)[i])
    ensures FENCE in Stamped(fm, today) <==> FENCE in fm
    ensures FENCE !in fm ==> forall i :: 0 <= i < |fm| ==> Clean(fm[i])
  {
    var lines := Stamped(fm, today);
    forall i | 0 <= i < |fm| ensures BreakFree(lines[i]) && (lines[i] == FENCE <==> fm[i] == FENCE) {
      StampClean(fm[i], today);
    }
    if FENCE in fm {
      var k := FirstFence(fm);
      assert lines[k] == FENCE;
    }
  }

  /** Without frontmatter, the empty line between the fences is read back as one. */
  lemma EmptyDoesNotReturn(body: string, today: string, nl: string)
    requires IsNewline(nl)
    ensures |Parse(Render([], body, today, nl)).frontmatter| == 1
  {
    assert Join(Stamped([], today), nl) == "";
    assert Terminated([""], nl) == nl;
    assert Render([], body, today, nl) == FENCE + nl + (Terminated([""], nl) + (FENCE + nl + (nl + body)));
    ParseTerminated([""], nl, nl + body);
  }

  // ---------------------------------------------------------------- frontmatter as parsed

  /** The length of the first line without its ending. */
  function ContentEnd(s: string): (k: nat)
    ensures k <= |s|
    ensures forall i :: 0 <= i < k ==> !IsBreak(s[i])
    ensures k < |s| ==> IsBreak(s[k])
    decreases |s|
  {
    if |s| == 0 || IsBreak(s[0]) then 0 else 1 + ContentEnd(s[1..])
  }

  lemma {:induction false} LineEndsAfterContent(s: string)
    ensures var k, n := ContentEnd(s), LineEnd(s);
            || n == k == |s|
            || (n == k + 1 && k < |s|)
            || (n == k + 2 && k + 1 < |s| && s[k] == '\r' && s[k + 1] == '\n')
    decreases |s|
  {
    if |s| > 0 && !IsBreak(s[0]) {
      LineEndsAfterContent(s[1..]);
    }
  }

  lemma ChompedIsClean(s: string)
    ensures var line := Chomp(s[..LineEnd(s)]); line != FENCE ==> Clean(line)
  {
    LineEndsAfterContent(s);
    var k, n := ContentEnd(s), LineEnd(s);
    assert s[..n][..k] == s[..k];
    assert Chomp(s[..k]) == s[..k];
    if n == k + 1 {
      assert s[..n][..n - 1] == s[..k];
    } else if n == k + 2 {
      assert s[..n][..n - 1] == s[..k + 1] && s[..k + 1][..k] == s[..k];
      assert Chomp(s[..k + 1]) == s[..k];
    }
  }

  lemma {:induction false} ScannedIsClean(s: string)
    requires Scan(SplitLines(s)).Some?
    ensures forall i :: 0 <= i < |Scan(SplitLines(s)).value.0| ==> Clean(Scan(SplitLines(s)).value.0[i])
    decreases |s|
  {
    var lines := SplitLines(s);
    if Chomp(lines[0]) != FENCE {
      assert lines[1..] == SplitLines(s[LineEnd(s)..]);
      ScannedIsClean(s[LineEnd(s)..]);
      ChompedIsClean(s);
    }
  }

  lemma ParsedIsClean(text: string)
    ensures forall i :: 0 <= i < |Parse(text).frontmatter| ==> Clean(Parse(text).frontmatter[i])
    ensures |Parse(text).frontmatter| > 0 ==> NoteNewline(text).Some? && IsNewline(NoteNewline(text).value)
  {
    var nl := NoteNewline(text);
    if nl.Some? && Scan(SplitLines(text[3 + |nl.value|..])).Some? {
      ScannedIsClean(text[3 + |nl.value|..]);
    }
  }

  lemma StampKeepsSource(line: string, today: string)
    ensures StartsWith(StampLine(line, today), "source:") <==> StartsWith(line, "source:")
  {
    if StartsWith(line, "updated:") {
      assert line[..8][0] == line[0];
      StartsNot(line, "source:", 0);
      StartsNot("updated: " + today, "source:", 0);
    }
  }

  /** Stamping and reading back do not change which source a note declares. */
  lemma {:induction false} SourceSurvives(fm: seq<string>, today: string)
    ensures DeclaredSource(RereadAll(Stamped(fm, today))) == DeclaredSource(fm)
    decreases |fm|
  {
    if |fm| > 0 {
      var line := StampLine(fm[0], today);
      assert Stamped(fm, today)[1..] == Stamped(fm[1..], today);
      SourceSurvives(fm[1..], today);
      StampKeepsSource(fm[0], today);
      SourceOfReread(line, RereadAll(Stamped(fm[1..], today)));
      if StartsWith(line, "source:") {
        assert line == fm[0] by {
          if StartsWith(fm[0], "updated:") {
            StartsNot(line, "source:", 0);
          }
        }
      }
    }
  }

  lemma SourceOfReread(line: string, rest: seq<string>)
    ensures DeclaredSource(Reread(line) + rest) ==
            if StartsWith(line, "source:") then Some(Strip(line[7..])) else DeclaredSource(rest)
  {
    assert ([line] + rest)[1..] == rest;
    assert ([line, ""] + rest)[1..] == [""] + rest;
    assert ([""] + rest)[1..] == rest;
  }

  lemma TailIsTrimmed(line: string, from: nat)
    requires Clean(line) && from <= |line|
    ensures Trimmed(Strip(line[from..])) && BreakFree(Strip(line[from..]))
  {
    var tail := line[from..];
    StripIsTrimmed(tail);
    StripIsPart(tail);
    forall i | 0 <= i < |Strip(tail)| ensures !IsBreak(Strip(tail)[i]) {
      var j := StripAt(tail, i);
      assert line[from + j] == tail[j];
    }
  }

  /** A declared source is free of white space at its ends and of line breaks. */
  lemma {:induction false} DeclaredIsTrimmed(fm: seq<string>)
    requires forall i :: 0 <= i < |fm| ==> Clean(fm[i])
    requires DeclaredSource(fm).Some?
    ensures Trimmed(DeclaredSource(fm).value) && BreakFree(DeclaredSource(fm).value)
    decreases |fm|
  {
    if StartsWith(fm[0], "source:") {
      TailIsTrimmed(fm[0], 7);
    } else {
      DeclaredIsTrimmed(fm[1..]);
    }
  }

  lemma StripAt(s: string, i: nat) returns (j: nat)
    requires i < |Strip(s)|
    ensures j < |s| && Strip(s)[i] == s[j] && (j == |s| - 1 ==> i == |Strip(s)| - 1)
  {
    StripIsPart(s);
    j := |s| - |Lstrip(s)| + i;
    assert s[j] == Lstrip(s)[i] == Strip(s)[i];
  }

  // ---------------------------------------------------------------- one pair

  datatype Status = InSync | Drift | Missing | Written | Created | Refused

  datatype PairResult = PairResult(source: string, target: string, status: Status, diffLines: nat, detail: Option<Problem>)

  /** What a pass depends on besides the vault: the documents, the diff counter and the date. */
  datatype Setting = Setting(docs: string -> string, diff: (string, string) -> nat, today: string)

  /** A text has no differing lines with itself, and the date is one line. */
  ghost predicate Sound(c: Setting) {
    (forall t: string :: c.diff(t, t) == 0) && BreakFree(c.today)
  }

  /** One pair: the note as it is afterwards, and the result. */
  function SyncNote(c: Setting, source: string, target: string, write: bool, note: Option<string>): (Option<string>, PairResult) {
    var doc := c.docs(source);
    if note.None? then
      if write then (Some(Render(NewFrontmatter(source, c.today), doc, c.today, LF)),
                     PairResult(source, target, Created, c.diff("", doc), None))
      else (None, PairResult(source, target, Missing, c.diff("", doc), None))
    else
      var parsed := Parse(note.value);
      var n := c.diff(parsed.body, doc);
      var problem := OwnershipProblem(parsed.frontmatter, source);
      if problem.Some? then (note, PairResult(source, target, Refused, n, problem))
      else if n == 0 then (note, PairResult(source, target, InSync, 0, None))
      else if !write then (note, PairResult(source, target, Drift, n, None))
      else
        var nl := if NoteNewline(note.value).Some? then NoteNewline(note.value).value else LF;
        (Some(Render(parsed.frontmatter, doc, c.today, nl)), PairResult(source, target, Written, n, None))
  }

  ghost predicate Settled(c: Setting, source: string, target: string, note: Option<string>) {
    note.Some? && SyncNote(c, source, target, false, note).1.status in {InSync, Refused}
  }

  lemma NewNoteDeclares(source: string, today: string)
    requires BreakFree(source) && BreakFree(today)
    ensures DeclaredSource(Stamped(NewFrontmatter(source, today), today)) == Some(Strip(source))
  {
    var fm := NewFrontmatter(source, today);
    var lines := Stamped(fm, today);
    var line := "source: " + source;
    assert line[..7] == "source:";
    StartsNot(fm[0], "updated:", 0);
    StartsNot(fm[1], "updated:", 0);
    StartsNot(fm[2], "updated:", 0);
    StartsNot(line, "updated:", 0);
    StartsNot(fm[0], "source:", 0);
    StartsNot(fm[1], "source:", 0);
    StartsNot(fm[2], "source:", 1);
    assert lines[0] == fm[0] && lines[1..][0] == fm[1] && lines[2..][0] == fm[2] && lines[3..][0] == line;
    assert lines[1..][1..] == lines[2..] && lines[2..][1..] == lines[3..];
    assert DeclaredSource(lines) == DeclaredSource(lines[1..]) == DeclaredSource(lines[2..]) == DeclaredSource(lines[3..]);
    assert line[7..] == " " + source;
    assert (" " + source)[1..] == source;
  }

  lemma NewNoteParses(c: Setting, source: string)
    requires Sound(c) && BreakFree(source)
    ensures var fm := NewFrontmatter(source, c.today);
            Parse(Render(fm, c.docs(source), c.today, LF)) == Note(Stamped(fm, c.today), c.docs(source))
  {
    var fm := NewFrontmatter(source, c.today);
    forall i | 0 <= i < |fm| ensures BreakFree(fm[i]) && fm[i] != FENCE {
      NewLineIsBreakFree(source, c.today, i);
    }
    RoundTrip(fm, c.docs(source), c.today, LF);
  }

  lemma NewLineIsBreakFree(source: string, today: string, i: nat)
    requires BreakFree(source) && BreakFree(today) && i < 5
    ensures BreakFree(NewFrontmatter(source, today)[i]) && NewFrontmatter(source, today)[i] != FENCE
  {
    var line := NewFrontmatter(source, today)[i];
    assert |line| > 3;
    if i == 3 {
      forall k | 0 <= k < |line| ensures !IsBreak(line[k]) {
        assert k >= 8 ==> line[k] == source[k - 8];
      }
    } else if i == 4 {
      forall k | 0 <= k < |line| ensures !IsBreak(line[k]) {
        assert k >= 9 ==> line[k] == today[k - 9];
      }
    }
  }

  /** After a writing pass over a pair, a further pass finds it in sync or refused. A refused note
      is the same text as before; a created note is accepted if and only if the source's path has
      no white space at its ends and no line break; a rewritten one always, with the document as
      its body. */
  lemma WrittenSettles(c: Setting, later: string, source: string, target: string, note: Option<string>)
    requires Sound(c) && BreakFree(later)
    ensures var again := c.(today := later);
            var (after, result) := SyncNote(c, source, target, true, note);
            && Settled(again, source, target, after)
            && (result.status.Refused? || result.status.InSync? ==> after == note)
            && (result.status.Written? ==> Parse(after.value).body == c.docs(source)
                                           && SyncNote(again, source, target, false, after).1.status.InSync?)
            && (result.status.Created? ==>
                  (SyncNote(again, source, target, false, after).1.status.InSync?
                   <==> Strip(source) == source && BreakFree(source)))
  {
    var (after, result) := SyncNote(c, source, target, true, note);
    if result.status.Created? {
      CreatedSettles(c, later, source, target);
    } else if result.status.Written? {
      var fm := Parse(note.value).frontmatter;
      ParsedIsClean(note.value);
      RenderedIsParsed(fm, c.docs(source), c.today, NoteNewline(note.value).value);
      SourceSurvives(fm, c.today);
      RereadNotEmpty(Stamped(fm, c.today));
    } else if result.status.InSync? {
      assert Parse(note.value).frontmatter == Parse(after.value).frontmatter;
    }
  }

  lemma RereadNotEmpty(lines: seq<string>)
    requires |lines| > 0
    ensures |RereadAll(lines)| > 0
  {
  }

  lemma CreatedSettles(c: Setting, later: string, source: string, target: string)
    requires Sound(c) && BreakFree(later)
    ensures var again := c.(today := later);
            var after := SyncNote(c, source, target, true, None).0;
            var result := SyncNote(again, source, target, false, after).1;
            && result.status in {InSync, Refused}
            && (result.status.InSync? <==> Strip(source) == source && BreakFree(source))
  {
    var text := Render(NewFrontmatter(source, c.today), c.docs(source), c.today, LF);
    if BreakFree(source) {
      NewNoteParses(c, source);
      NewNoteDeclares(source, c.today);
    } else {
      ParsedIsClean(text);
      if DeclaredSource(Parse(text).frontmatter).Some? {
        DeclaredIsTrimmed(Parse(text).frontmatter);
      }
    }
  }
}
