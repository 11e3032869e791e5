/** What it is to read a note, to write one, and to sync one, said about the texts themselves. */
module VaultMeaning {
  import opened VaultNotes
  import opened VaultSync
  import opened Sequences
  import opened Text
  import opened Wrappers

  // ---------------------------------------------------------------- lines

  /** Line feed, line tabulation, form feed, carriage return, the three information separators,
      next line, line separator and paragraph separator. */
  ghost predicate Breaks(c: char) {
    c as int in {10, 11, 12, 13, 28, 29, 30, 133, 8232, 8233}
  }

  /** One line: it ends at its first break, a carriage return taking the line feed after it
      along, or where the text ends. */
  ghost predicate LineAt(s: string, from: nat, end: nat) {
    && from < end <= |s|
    && (forall i :: from <= i < end - 1 && Breaks(s[i]) ==> i == end - 2 && s[i] == '\r' && s[i + 1] == '\n')
    && (end < |s| ==> Breaks(s[end - 1]) && !(s[end - 1] == '\r' && s[end] == '\n'))
  }

  /** The text falls into `n` lines. */
  ghost predicate Lines(s: string, at: seq<nat>, n: nat) {
    Cuts(s, at, n) && forall i :: 0 <= i < n ==> LineAt(s, at[i], at[i + 1])
  }

  lemma BreaksIs(c: char)
    ensures IsBreak(c) <==> Breaks(c)
  {
  }

  lemma {:induction false} LineEndIs(s: string, from: nat, end: nat)
    requires LineAt(s, from, end)
    ensures LineEnd(s[from..]) == end - from
    decreases end - from
  {
    var t := s[from..];
    BreaksIs(s[from]);
    BreaksIs(s[end - 1]);
    if !IsBreak(s[from]) && from + 1 < end {
      LineEndIs(s, from + 1, end);
      assert t[1..] == s[from + 1..];
    } else if !IsBreak(s[from]) {
      assert end == |s|;
      assert t[1..] == "";
    }
  }

  lemma SplitIs(s: string, at: seq<nat>, n: nat, j: nat)
    requires Lines(s, at, n) && j < n
    ensures SplitLines(s[at[j]..]) == [Piece(s, at, j)] + SplitLines(s[at[j + 1]..])
  {
    var t := s[at[j]..];
    assert LineAt(s, at[j], at[j + 1]);
    LineEndIs(s, at[j], at[j + 1]);
    assert t[..LineEnd(t)] == Piece(s, at, j);
    assert t[LineEnd(t)..] == s[at[j + 1]..];
  }

  /** Every text falls into lines. */
  lemma {:induction false} LinesThere(s: string, from: nat) returns (at: seq<nat>, n: nat)
    requires from <= |s|
    ensures |at| == n + 1 && at[0] == from && at[n] == |s|
    ensures forall i :: 0 <= i < n ==> LineAt(s, at[i], at[i + 1])
    decreases |s| - from
  {
    if from == |s| {
      at, n := [from], 0;
    } else {
      var end := from + LineEnd(s[from..]);
      LineStops(s, from);
      var rest, m := LinesThere(s, end);
      at, n := [from] + rest, m + 1;
      forall i | 0 <= i < n ensures LineAt(s, at[i], at[i + 1]) {
        if i > 0 {
          assert at[i] == rest[i - 1] && at[i + 1] == rest[i];
        }
      }
    }
  }

  lemma {:induction false} LineStops(s: string, from: nat)
    requires from < |s|
    ensures LineAt(s, from, from + LineEnd(s[from..]))
    decreases |s| - from
  {
    var t := s[from..];
    BreaksIs(s[from]);
    if !IsBreak(s[from]) {
      assert t[1..] == s[from + 1..];
      if from + 1 < |s| {
        LineStops(s, from + 1);
      }
    }
  }

  /** A line without the carriage returns and line feeds at its end. */
  ghost predicate Bare(line: string, content: string) {
    && |content| <= |line| && line[..|content|] == content
    && (forall i :: |content| <= i < |line| ==> line[i] in "\r\n")
    && (|content| > 0 ==> content[|content| - 1] !in "\r\n")
  }

  lemma {:induction false} ChompMeans(line: string)
    ensures Bare(line, Chomp(line))
    decreases |line|
  {
    if |line| > 0 && (line[|line| - 1] == '\r' || line[|line| - 1] == '\n') {
      ChompMeans(line[..|line| - 1]);
    }
  }

  lemma BareUnique(line: string, a: string, b: string)
    requires Bare(line, a) && Bare(line, b)
    ensures a == b
  {
    BareNotShorter(line, a, b);
    BareNotShorter(line, b, a);
  }

  lemma BareNotShorter(line: string, a: string, b: string)
    requires Bare(line, a) && Bare(line, b)
    ensures |b| <= |a|
  {
    assert |b| > 0 ==> line[|b| - 1] == b[|b| - 1];
  }

  // ---------------------------------------------------------------- reading a note

  /** What follows the closing fence is the body, but for one empty line. */
  ghost predicate Separated(tail: string, body: string) {
    || tail == "\r\n" + body
    || tail == "\n" + body
    || (tail == body && !Begins(tail, "\r\n") && !Begins(tail, "\n"))
  }

  lemma SeparatorIs(tail: string)
    ensures Separated(tail, DropSeparator(tail))
  {
    BeginsIs(tail, "\r\n");
    BeginsIs(tail, "\n");
    assert tail == tail[..0] + tail;
    assert |tail| >= 1 ==> tail == tail[..1] + tail[1..];
    assert |tail| >= 2 ==> tail == tail[..2] + tail[2..];
  }

  /** The first of the lines that is a fence. */
  ghost predicate ClosesAt(s: string, at: seq<nat>, n: nat, k: nat) {
    k < n && Bare(Piece(s, at, k), "---") && forall i :: 0 <= i < k ==> !Bare(Piece(s, at, i), "---")
  }

  lemma ScanStepIs(s: string, at: seq<nat>, n: nat, j: nat) returns (content: string)
    requires Lines(s, at, n) && j < n
    ensures Bare(Piece(s, at, j), content)
    ensures var r, rest := Scan(SplitLines(s[at[j]..])), SplitLines(s[at[j + 1]..]);
            if Bare(Piece(s, at, j), "---") then r == Some(([], rest))
            else r == Prepend([content], Scan(rest))
  {
    SplitIs(s, at, n, j);
    var line, rest := Piece(s, at, j), SplitLines(s[at[j + 1]..]);
    assert ([line] + rest)[1..] == rest;
    content := Chomp(line);
    ChompMeans(line);
    if Bare(line, "---") {
      BareUnique(line, content, "---");
    }
  }

  lemma {:induction false} ScanIs(s: string, at: seq<nat>, n: nat, j: nat, k: nat)
    requires Lines(s, at, n) && j <= k && ClosesAt(s, at, n, k)
    ensures var r := Scan(SplitLines(s[at[j]..]));
            && r.Some? && r.value.1 == SplitLines(s[at[k + 1]..])
            && |r.value.0| == k - j
            && forall i :: j <= i < k ==> Bare(Piece(s, at, i), r.value.0[i - j])
    decreases k - j
  {
    var content := ScanStepIs(s, at, n, j);
    if j < k {
      ScanIs(s, at, n, j + 1, k);
      var inner, r := Scan(SplitLines(s[at[j + 1]..])).value, Scan(SplitLines(s[at[j]..])).value;
      assert r.0 == [content] + inner.0;
      forall i | j <= i < k ensures Bare(Piece(s, at, i), r.0[i - j]) {
        if i > j {
          assert r.0[i - j] == inner.0[i - (j + 1)];
        }
      }
    }
  }

  lemma {:induction false} ScanFails(s: string, at: seq<nat>, n: nat, j: nat)
    requires Lines(s, at, n) && j <= n && forall i :: 0 <= i < n ==> !Bare(Piece(s, at, i), "---")
    ensures Scan(SplitLines(s[at[j]..])).None?
    decreases n - j
  {
    if j < n {
      var _ := ScanStepIs(s, at, n, j);
      ScanFails(s, at, n, j + 1);
    } else {
      assert s[at[j]..] == "";
    }
  }

  /** The text begins with a fence and a line ending, and goes on with `rest`. */
  ghost predicate Opens(text: string, nl: string, rest: string) {
    (nl == "\n" || nl == "\r\n") && text == "---" + nl + rest
  }

  lemma OpeningIs(text: string, nl: string, rest: string)
    requires Opens(text, nl, rest)
    ensures NoteNewline(text) == Some(nl) && text[3 + |nl|..] == rest
  {
    NewlineSeen(nl, rest);
  }

  lemma OpeningSeen(text: string)
    ensures NoteNewline(text).Some? ==>
              var nl := NoteNewline(text).value; 3 + |nl| <= |text| && Opens(text, nl, text[3 + |nl|..])
  {
    assert |text| >= 4 ==> text == text[..4] + text[4..];
    assert |text| >= 5 ==> text == text[..5] + text[5..];
  }

  /** What a text that opens with a fence is read as: without a closing one all of it is body;
      otherwise the lines between the two are the frontmatter, and what follows the first closing
      one, but for an empty line, is the body. */
  ghost predicate ReadAs(text: string, rest: string, at: seq<nat>, n: nat, note: Note)
    requires Lines(rest, at, n)
  {
    && ((forall i :: 0 <= i < n ==> !Bare(Piece(rest, at, i), "---")) ==> note == Note([], text))
    && (forall k: nat :: ClosesAt(rest, at, n, k) ==> Encloses(rest, at, n, k, note))
  }

  ghost predicate Encloses(rest: string, at: seq<nat>, n: nat, k: nat, note: Note)
    requires Lines(rest, at, n) && k < n
  {
    && |note.frontmatter| == k
    && (forall i :: 0 <= i < k ==> Bare(Piece(rest, at, i), note.frontmatter[i]))
    && Separated(rest[at[k + 1]..], note.body)
  }

  /** A note is read as it stands; without an opening fence all of it is body. */
  lemma NoteMeans(text: string)
    ensures (forall nl, rest :: !Opens(text, nl, rest)) ==> Parse(text) == Note([], text)
    ensures forall nl, rest, at: seq<nat>, n: nat ::
              Opens(text, nl, rest) && Lines(rest, at, n) ==> ReadAs(text, rest, at, n, Parse(text))
  {
    OpeningSeen(text);
    forall nl, rest, at: seq<nat>, n: nat | Opens(text, nl, rest) && Lines(rest, at, n)
      ensures ReadAs(text, rest, at, n, Parse(text))
    {
      if forall i :: 0 <= i < n ==> !Bare(Piece(rest, at, i), "---") {
        Unclosed(text, nl, rest, at, n);
      }
      forall k: nat | ClosesAt(rest, at, n, k) ensures Encloses(rest, at, n, k, Parse(text)) {
        Closed(text, nl, rest, at, n, k);
      }
    }
  }

  lemma Unclosed(text: string, nl: string, rest: string, at: seq<nat>, n: nat)
    requires Opens(text, nl, rest) && Lines(rest, at, n)
    requires forall i :: 0 <= i < n ==> !Bare(Piece(rest, at, i), "---")
    ensures Parse(text) == Note([], text)
  {
    OpeningIs(text, nl, rest);
    ScanFails(rest, at, n, 0);
    assert rest[0..] == rest;
  }

  lemma Closed(text: string, nl: string, rest: string, at: seq<nat>, n: nat, k: nat)
    requires Opens(text, nl, rest) && Lines(rest, at, n) && ClosesAt(rest, at, n, k)
    ensures Encloses(rest, at, n, k, Parse(text))
  {
    OpeningIs(text, nl, rest);
    ScanIs(rest, at, n, 0, k);
    assert rest[0..] == rest;
    ConcatSplit(rest[at[k + 1]..]);
    SeparatorIs(rest[at[k + 1]..]);
  }

  // ---------------------------------------------------------------- writing a note

  /** A line of the frontmatter as it is written back: the date is set, any other line kept. */
  ghost predicate WrittenBack(line: string, today: string, nl: string, piece: string) {
    piece == (if Begins(line, "updated:") then "updated: " + today else line) + nl
  }

  /** The text of a note: the frontmatter between its fences, an empty line, and the body. */
  ghost predicate NoteText(fm: seq<string>, body: string, today: string, nl: string, text: string) {
    exists block ::
      && text == "---" + nl + block + "---" + nl + nl + body
      && Pieced(block, |fm|, LineWritten(fm, today, nl))
  }

  ghost function LineWritten(fm: seq<string>, today: string, nl: string): (nat, string) -> bool {
    (i: nat, piece: string) => i < |fm| && WrittenBack(fm[i], today, nl, piece)
  }

  lemma {:induction false} BlockIs(fm: seq<string>, today: string, nl: string, n: nat)
    requires n <= |fm|
    ensures Pieced(Terminated(Stamped(fm, today)[..n], nl), n, LineWritten(fm, today, nl))
    decreases n
  {
    var lines := Stamped(fm, today);
    if n == 0 {
      PiecedNone(LineWritten(fm, today, nl));
    } else {
      BlockIs(fm, today, nl, n - 1);
      BeginsIs(fm[n - 1], "updated:");
      var last := lines[n - 1];
      assert lines[..n] == lines[..n - 1] + [last];
      TerminatedAppend(lines[..n - 1], [last], nl);
      assert Terminated([last], nl) == last + nl + "" == last + nl;
      PiecedSnoc(Terminated(lines[..n - 1], nl), n - 1, LineWritten(fm, today, nl), last + nl);
    }
  }

  lemma RenderMeans(fm: seq<string>, body: string, today: string, nl: string)
    requires |fm| > 0
    ensures NoteText(fm, body, today, nl, Render(fm, body, today, nl))
  {
    var lines := Stamped(fm, today);
    BlockIs(fm, today, nl, |fm|);
    assert lines[..|fm|] == lines;
    RenderIsTerminated(fm, body, today, nl);
    var block := Terminated(lines, nl);
    assert "---" + nl + (block + ("---" + nl + (nl + body))) == "---" + nl + block + "---" + nl + nl + body;
  }

  /** The text of a note made new, word for word. */
  ghost function NewText(source: string, body: string, today: string): string {
    "---" + "\n"
    + "project: QU.I.R.K." + "\n"
    + "type: guide" + "\n"
    + "status: active" + "\n"
    + ("source: " + source) + "\n"
    + ("updated: " + today) + "\n"
    + "---" + "\n" + "\n"
    + body
  }

  lemma NewNoteIs(source: string, body: string, today: string)
    ensures Render(NewFrontmatter(source, today), body, today, LF) == NewText(source, body, today)
  {
    var fm := NewFrontmatter(source, today);
    NewLinesStay(source, today);
    JoinFive(fm, LF);
    FiveLines(FENCE, fm[0], fm[1], fm[2], fm[3], fm[4], LF, body);
  }

  lemma NewLinesStay(source: string, today: string)
    ensures Stamped(NewFrontmatter(source, today), today) == NewFrontmatter(source, today)
  {
    var fm := NewFrontmatter(source, today);
    assert fm[0][0] != 'u' && fm[1][0] != 'u' && fm[2][0] != 'u' && fm[3][0] != 'u';
    forall i | 0 <= i < 5 ensures StampLine(fm[i], today) == fm[i] {
      BeginsIs(fm[i], "updated:");
    }
  }

  lemma JoinFive(fm: seq<string>, nl: string)
    requires |fm| == 5
    ensures Join(fm, nl) == fm[0] + nl + (fm[1] + nl + (fm[2] + nl + (fm[3] + nl + fm[4])))
  {
    assert fm[1..][1..] == fm[2..] && fm[2..][1..] == fm[3..] && fm[3..][1..] == fm[4..];
    assert Join(fm[4..], nl) == fm[4];
    assert Join(fm[3..], nl) == fm[3] + nl + Join(fm[4..], nl);
    assert Join(fm[2..], nl) == fm[2] + nl + Join(fm[3..], nl);
    assert Join(fm[1..], nl) == fm[1] + nl + Join(fm[2..], nl);
  }

  lemma FiveLines(f: string, a: string, b: string, c: string, d: string, e: string, nl: string, body: string)
    ensures f + nl + (a + nl + (b + nl + (c + nl + (d + nl + e)))) + nl + f + nl + nl + body
         == f + nl + a + nl + b + nl + c + nl + d + nl + e + nl + f + nl + nl + body
  {
  }

  // ---------------------------------------------------------------- whose note it is

  /** The note declares a source: its first line with that key names it. */
  ghost predicate Declares(fm: seq<string>, source: string) {
    exists k: nat :: FirstSource(fm, k) && Stripped(fm[k][7..], source)
  }

  ghost predicate FirstSource(fm: seq<string>, k: nat) {
    && k < |fm| && Begins(fm[k], "source:")
    && forall i :: 0 <= i < k ==> !Begins(fm[i], "source:")
  }

  lemma {:induction false} SourceIs(fm: seq<string>, k: nat)
    requires FirstSource(fm, k)
    ensures DeclaredSource(fm) == Some(Strip(fm[k][7..]))
    decreases k
  {
    BeginsIs(fm[0], "source:");
    if k > 0 {
      assert fm[1..][k - 1] == fm[k];
      SourceIs(fm[1..], k - 1);
    }
  }

  lemma {:induction false} SourceThere(fm: seq<string>) returns (k: nat)
    ensures DeclaredSource(fm).Some? ==> FirstSource(fm, k)
    ensures DeclaredSource(fm).None? ==> forall i :: 0 <= i < |fm| ==> !Begins(fm[i], "source:")
    decreases |fm|
  {
    k := 0;
    if |fm| > 0 {
      BeginsIs(fm[0], "source:");
      if !StartsWith(fm[0], "source:") {
        var j := SourceThere(fm[1..]);
        k := j + 1;
      }
    }
  }

  /** The source found is the one declared. */
  lemma SourceMeans(fm: seq<string>, source: string)
    ensures DeclaredSource(fm).None? <==> forall i :: 0 <= i < |fm| ==> !Begins(fm[i], "source:")
    ensures DeclaredSource(fm) == Some(source) <==> Declares(fm, source)
  {
    var k := SourceThere(fm);
    if DeclaredSource(fm).Some? {
      SourceIs(fm, k);
      StripMeans(fm[k][7..]);
    }
    if Declares(fm, source) {
      var j: nat :| FirstSource(fm, j) && Stripped(fm[j][7..], source);
      SourceIs(fm, j);
      StripUnique(fm[j][7..], source);
    }
  }

  /** Why a note is not known to be of this source. */
  ghost predicate NotOf(fm: seq<string>, source: string, problem: Problem) {
    match problem
    case NoFrontmatter => fm == []
    case NoSourceKey => fm != [] && forall i :: 0 <= i < |fm| ==> !Begins(fm[i], "source:")
    case OtherSource(declared) => Declares(fm, declared) && declared != source
  }

  lemma ProblemMeans(fm: seq<string>, source: string)
    ensures var p := OwnershipProblem(fm, source);
            if p.None? then Declares(fm, source) else !Declares(fm, source) && NotOf(fm, source, p.value)
  {
    SourceMeans(fm, source);
    if DeclaredSource(fm).Some? {
      SourceMeans(fm, DeclaredSource(fm).value);
    }
  }

  // ---------------------------------------------------------------- one pair, and all of them

  /** What syncing one pair makes of its note, and what it reports. */
  ghost predicate PairDone(c: Setting, pair: Pair, write: bool, before: Option<string>, after: Option<string>, r: PairResult) {
    && r.source == pair.source && r.target == pair.target
    && (before.None? ==> IsNew(c, pair, write, after, r))
    && (before.Some? ==> IsOld(c, pair, write, before.value, after, r))
  }

  /** There is no note: it is made, or missed. */
  ghost predicate IsNew(c: Setting, pair: Pair, write: bool, after: Option<string>, r: PairResult) {
    && r.diffLines == c.diff("", c.docs(pair.source)) && r.detail == None
    && r.status == (if write then Created else Missing)
    && after == (if write then Some(NewText(pair.source, c.docs(pair.source), c.today)) else None)
  }

  /** There is a note: one that is not of this source is left alone, whatever its body; one with
      the document as its body as well; any other is written, under its own line ending. */
  ghost predicate IsOld(c: Setting, pair: Pair, write: bool, before: string, after: Option<string>, r: PairResult) {
    var note := Parse(before);
    var doc := c.docs(pair.source);
    && r.diffLines == c.diff(note.body, doc)
    && (r.status.Refused? <==> !Declares(note.frontmatter, pair.source))
    && (r.detail.Some? <==> r.status.Refused?)
    && (r.detail.Some? ==> NotOf(note.frontmatter, pair.source, r.detail.value))
    && (r.status.InSync? <==> !r.status.Refused? && r.diffLines == 0)
    && (r.status.Written? <==> !r.status.Refused? && !r.status.InSync? && write)
    && (r.status.Drift? <==> !r.status.Refused? && !r.status.InSync? && !write)
    && (!r.status.Written? ==> after == Some(before))
    && (r.status.Written? ==>
          && after.Some?
          && NoteText(note.frontmatter, doc, c.today, if Begins(before, "---\r\n") then "\r\n" else "\n", after.value))
  }

  /** One pair is synced as it should be, with or without writing. */
  lemma PairIs(c: Setting, pair: Pair, write: bool, before: Option<string>)
    ensures var (after, r) := SyncNote(c, pair.source, pair.target, write, before);
            PairDone(c, pair, write, before, after, r)
  {
    var (after, r) := SyncNote(c, pair.source, pair.target, write, before);
    if before.None? {
      NewNoteIs(pair.source, c.docs(pair.source), c.today);
    } else {
      var note := Parse(before.value);
      ProblemMeans(note.frontmatter, pair.source);
      BeginsIs(before.value, "---\r\n");
      assert FENCE + CRLF == "---\r\n";
      ParsedIsClean(before.value);
      if r.status.Written? {
        var nl := if StartsWith(before.value, "---\r\n") then "\r\n" else "\n";
        assert NoteNewline(before.value).value == nl;
        RenderMeans(note.frontmatter, c.docs(pair.source), c.today, nl);
      }
    }
  }

  /** The pairs of a mapping are those of the documents tracked, in order. */
  ghost function OfTracked(tracked: set<string>): Pair -> bool {
    (pair: Pair) => pair.source in tracked
  }

  lemma {:induction false} TrackedIs(mapping: seq<Pair>, tracked: set<string>)
    ensures Filtered(mapping, OfTracked(tracked), Itself(), Tracked(mapping, tracked))
    decreases |mapping|
  {
    if |mapping| == 0 {
      FilteredNone(OfTracked(tracked), Itself());
    } else {
      var n := |mapping| - 1;
      TrackedIs(mapping[..n], tracked);
      var init := Tracked(mapping[..n], tracked);
      assert init + [] == init;
      FilteredLast(mapping, OfTracked(tracked), Itself(), init, Tracked(mapping, tracked));
    }
  }

  /** A pass over a mapping of distinct targets: a result for each tracked document, in order; its
      note as one sync leaves it; and every other note untouched. */
  lemma PassMeans(c: Setting, notes: map<string, string>, mapping: seq<Pair>, tracked: set<string>, write: bool)
    requires DistinctTargets(mapping)
    ensures var pairs := Tracked(mapping, tracked);
            var (after, results) := Pass(c, notes, pairs, write);
            && Filtered(mapping, OfTracked(tracked), Itself(), pairs)
            && |results| == |pairs|
            && (forall i :: 0 <= i < |pairs| ==>
                  PairDone(c, pairs[i], write, Lookup(notes, pairs[i].target), Lookup(after, pairs[i].target), results[i]))
            && (forall t :: !Targets(pairs, t) ==> Lookup(after, t) == Lookup(notes, t))
  {
    var pairs := Tracked(mapping, tracked);
    TrackedIs(mapping, tracked);
    TrackedFromMapping(mapping, tracked);
    var (after, results) := Pass(c, notes, pairs, write);
    PassLength(c, notes, pairs, write);
    forall i | 0 <= i < |pairs|
      ensures PairDone(c, pairs[i], write, Lookup(notes, pairs[i].target), Lookup(after, pairs[i].target), results[i])
    {
      PassAt(c, notes, pairs, write, i);
      PairIs(c, pairs[i], write, Lookup(notes, pairs[i].target));
    }
    forall t | !Targets(pairs, t) ensures Lookup(after, t) == Lookup(notes, t) {
      PassElsewhere(c, notes, pairs, write, t);
    }
  }
}
