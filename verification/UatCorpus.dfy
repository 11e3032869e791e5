/** The acceptance-test corpus: a one-pass scanner over the lines of the document. */
module UatCorpus {
  import opened Text
  import opened Wrappers

  /** One of the three boxes of a result line. */
  datatype Box = Box(checked: bool, annotation: Option<string>)

  /** A line by the shape it matches; `gap` says that a notes line holds the gap phrase. */
  datatype Line =
    | Heading(id: string)
    | ResultLine(pass: Box, fail: Box, skip: Box)
    | NotesLine(text: string, gap: bool)
    | Other(text: string)

  datatype Disposition = Gap | Deferred | Obsolete | SkipOther | Pass | Fail | Undispositioned | Malformed

  datatype Mark = PassMark | FailMark | SkipMark

  /** Line numbers start at 1. */
  datatype CaseRecord = CaseRecord(
    id: string, headingAt: nat, resultAt: Option<nat>, boxes: set<Mark>, annotation: Option<string>,
    disposition: Disposition, notesAt: Option<nat>, notesText: Option<string>, notesGap: bool)

  function StripStars(s: string): string
    decreases |s|
  {
    if |s| > 0 && s[0] == '*' then StripStars(s[1..]) else s
  }

  predicate Announces(plain: string, word: string) {
    StartsWith(plain, word + " \U{2014} ") || StartsWith(plain, word + " - ")
  }

  function ClassifyAnnotation(annotation: Option<string>): Disposition {
    if annotation.None? then SkipOther
    else
      var plain := Strip(StripStars(Strip(annotation.value)));
      if Announces(plain, "GAP") then Gap
      else if Announces(plain, "DEFERRED") then Deferred
      else if Announces(plain, "OBSOLETE") then Obsolete
      else SkipOther
  }

  /** A checked SKIP without an annotation counts as a gap if the case's own notes say so. */
  predicate IsGap(c: CaseRecord) {
    c.disposition == Gap || (c.disposition == SkipOther && c.notesGap)
  }

  // ---------------------------------------------------------------- what the document means

  /** A heading at index `at` and the lines up to the next heading. */
  datatype Span = Span(id: string, at: nat, body: seq<Line>)

  /** The spans of the first `n` lines. */
  function Spans(lines: seq<Line>, n: nat): seq<Span>
    requires n <= |lines|
    decreases n
  {
    if n == 0 then [] else Extended(Spans(lines, n - 1), lines[n - 1], n - 1)
  }

  /** One more line, at index `at`: a heading opens a span, any other line belongs to the open one. */
  function Extended(spans: seq<Span>, line: Line, at: nat): seq<Span> {
    if line.Heading? then spans + [Span(line.id, at, [])]
    else if |spans| == 0 then []
    else
      var last := spans[|spans| - 1];
      spans[..|spans| - 1] + [last.(body := last.body + [line])]
  }

  /** The first result-shaped line. */
  function FirstResult(body: seq<Line>): (r: Option<nat>)
    ensures r.Some? ==> r.value < |body| && body[r.value].ResultLine?
    decreases |body|
  {
    if |body| == 0 then None
    else if FirstResult(body[..|body| - 1]).Some? then FirstResult(body[..|body| - 1])
    else if body[|body| - 1].ResultLine? then Some(|body| - 1)
    else None
  }

  /** The first notes-shaped line from `start` on. */
  function FirstNotes(body: seq<Line>, start: nat): (r: Option<nat>)
    ensures r.Some? ==> start <= r.value < |body| && body[r.value].NotesLine?
    decreases |body|
  {
    if |body| <= start then None
    else if FirstNotes(body[..|body| - 1], start).Some? then FirstNotes(body[..|body| - 1], start)
    else if body[|body| - 1].NotesLine? then Some(|body| - 1)
    else None
  }

  function Blank(id: string, at: nat): CaseRecord {
    CaseRecord(id, at + 1, None, {}, None, Undispositioned, None, None, false)
  }

  function Boxes(line: Line): set<Mark>
    requires line.ResultLine?
  {
    (if line.pass.checked then {PassMark} else {})
    + (if line.fail.checked then {FailMark} else {})
    + (if line.skip.checked then {SkipMark} else {})
  }

  function CheckedCount(line: Line): nat
    requires line.ResultLine?
  {
    (if line.pass.checked then 1 else 0) + (if line.fail.checked then 1 else 0) + (if line.skip.checked then 1 else 0)
  }

  function AnnotationOf(line: Line): Option<string>
    requires line.ResultLine?
  {
    if CheckedCount(line) != 1 then None
    else if line.pass.checked then line.pass.annotation
    else if line.fail.checked then line.fail.annotation
    else line.skip.annotation
  }

  /** One checked box disposes a case; more than one is malformed. */
  function DispositionOf(line: Line): Disposition
    requires line.ResultLine?
  {
    if CheckedCount(line) > 1 then Malformed
    else if line.pass.checked then Pass
    else if line.fail.checked then Fail
    else if line.skip.checked then ClassifyAnnotation(line.skip.annotation)
    else Undispositioned
  }

  function WithResult(c: CaseRecord, line: Line, lineno: nat): CaseRecord
    requires line.ResultLine?
  {
    c.(resultAt := Some(lineno), boxes := Boxes(line), annotation := AnnotationOf(line), disposition := DispositionOf(line))
  }

  function WithNotes(c: CaseRecord, line: Line, lineno: nat): CaseRecord
    requires line.NotesLine?
  {
    c.(notesAt := Some(lineno), notesText := Some(line.text), notesGap := line.gap)
  }

  /** What a span says: its first result line, and the first notes line after that. */
  function RecordOf(s: Span): CaseRecord {
    match FirstResult(s.body)
    case None => Blank(s.id, s.at)
    case Some(r) =>
      var c := WithResult(Blank(s.id, s.at), s.body[r], s.at + r + 2);
      match FirstNotes(s.body, r + 1)
      case None => c
      case Some(n) => WithNotes(c, s.body[n], s.at + n + 2)
  }

  function Records(spans: seq<Span>): seq<CaseRecord> {
    seq(|spans|, i requires 0 <= i < |spans| => RecordOf(spans[i]))
  }

  function Cases(lines: seq<Line>): seq<CaseRecord> {
    Records(Spans(lines, |lines|))
  }

  // ---------------------------------------------------------------- the scanner

  method CollectBoxes(line: Line) returns (boxes: set<Mark>)
    requires line.ResultLine?
    ensures boxes == Boxes(line)
  {
    boxes := {};
    if line.pass.checked {
      boxes := boxes + {PassMark};
    }
    if line.fail.checked {
      boxes := boxes + {FailMark};
    }
    if line.skip.checked {
      boxes := boxes + {SkipMark};
    }
  }

  lemma OneMore(boxes: set<Mark>, more: bool, m: Mark)
    requires m !in boxes
    ensures |boxes + if more then {m} else {}| == |boxes| + if more then 1 else 0
  {
    assert boxes + {} == boxes;
  }

  lemma BoxesCounted(line: Line)
    requires line.ResultLine?
    ensures |Boxes(line)| == CheckedCount(line)
  {
    var pass := if line.pass.checked then {PassMark} else {};
    var fail := pass + if line.fail.checked then {FailMark} else {};
    OneMore(pass, line.fail.checked, FailMark);
    OneMore(fail, line.skip.checked, SkipMark);
  }

  /** What a result line says, from the boxes found checked. */
  method ReadResult(line: Line, boxes: set<Mark>) returns (annotation: Option<string>, disposition: Disposition)
    requires line.ResultLine? && boxes == Boxes(line)
    ensures annotation == AnnotationOf(line) && disposition == DispositionOf(line)
  {
    annotation := None;
    BoxesCounted(line);
    if |boxes| > 1 {
      return None, Malformed;
    }
    if SkipMark in boxes && line.skip.annotation.Some? {
      annotation := line.skip.annotation;
    } else if PassMark in boxes && line.pass.annotation.Some? {
      annotation := line.pass.annotation;
    } else if FailMark in boxes && line.fail.annotation.Some? {
      annotation := line.fail.annotation;
    }
    if boxes == {} {
      disposition := Undispositioned;
    } else if PassMark in boxes {
      disposition := Pass;
    } else if FailMark in boxes {
      disposition := Fail;
    } else {
      disposition := ClassifyAnnotation(annotation);
    }
  }

  /** Look at one more line of the current case. */
  method Inspect(current: CaseRecord, line: Line, lineno: nat) returns (c: CaseRecord)
    requires !line.Heading?
    ensures c == Inspected(current, line, lineno)
  {
    c := current;
    if c.resultAt.None? {
      if line.ResultLine? {
        var boxes := CollectBoxes(line);
        var annotation, disposition := ReadResult(line, boxes);
        c := c.(resultAt := Some(lineno), boxes := boxes, annotation := annotation, disposition := disposition);
      }
    } else if c.notesAt.None? {
      if line.NotesLine? {
        c := c.(notesAt := Some(lineno), notesText := Some(line.text), notesGap := line.gap);
      }
    }
  }

  function Inspected(c: CaseRecord, line: Line, lineno: nat): CaseRecord
    requires !line.Heading?
  {
    if c.resultAt.None? && line.ResultLine? then WithResult(c, line, lineno)
    else if c.resultAt.Some? && c.notesAt.None? && line.NotesLine? then WithNotes(c, line, lineno)
    else c
  }

  /** Every line once, one record in hand. */
  method IterCases(lines: seq<Line>) returns (cases: seq<CaseRecord>)
    ensures cases == Cases(lines)
  {
    cases := [];
    var current: Option<CaseRecord> := None;
    for i := 0 to |lines|
      invariant InHand(cases, current, Spans(lines, i))
    {
      HandedOn(cases, current, lines, i);
      if lines[i].Heading? {
        if current.Some? {
          cases := cases + [current.value];
        }
        current := Some(Blank(lines[i].id, i));
      } else if current.Some? {
        var c := Inspect(current.value, lines[i], i + 1);
        current := Some(c);
      }
    }
    if current.Some? {
      InHandDone(cases, current.value, Spans(lines, |lines|));
      cases := cases + [current.value];
    }
  }

  /** What the next line makes of the records yielded so far and the one in hand. */
  lemma HandedOn(cases: seq<CaseRecord>, current: Option<CaseRecord>, lines: seq<Line>, i: nat)
    requires i < |lines| && InHand(cases, current, Spans(lines, i))
    ensures if lines[i].Heading? then
              InHand(if current.Some? then cases + [current.value] else cases, Some(Blank(lines[i].id, i)), Spans(lines, i + 1))
            else
              InHand(cases, if current.Some? then Some(Inspected(current.value, lines[i], i + 1)) else None, Spans(lines, i + 1))
  {
    var spans := Spans(lines, i);
    SpansGrow(lines, i + 1);
    if lines[i].Heading? {
      if current.Some? {
        InHandDone(cases, current.value, spans);
      }
      HeadingOpens(if current.Some? then cases + [current.value] else cases, spans, lines[i], i);
    } else if current.Some? {
      SpanReaches(lines, i);
      LineExtends(cases, current.value, spans, lines[i], i);
    }
  }

  lemma InHandDone(cases: seq<CaseRecord>, current: CaseRecord, spans: seq<Span>)
    requires InHand(cases, Some(current), spans)
    ensures cases + [current] == Records(spans)
  {
  }

  /** The records yielded so far and the one in hand are those of the spans. */
  ghost predicate InHand(cases: seq<CaseRecord>, current: Option<CaseRecord>, spans: seq<Span>) {
    if current.None? then |spans| == 0 && |cases| == 0
    else |spans| > 0 && cases == Records(spans[..|spans| - 1]) && current.value == RecordOf(spans[|spans| - 1])
  }

  lemma HeadingOpens(cases: seq<CaseRecord>, spans: seq<Span>, line: Line, at: nat)
    requires line.Heading? && cases == Records(spans)
    ensures InHand(cases, Some(Blank(line.id, at)), Extended(spans, line, at))
  {
    assert (spans + [Span(line.id, at, [])])[..|spans|] == spans;
  }

  lemma LineExtends(cases: seq<CaseRecord>, current: CaseRecord, spans: seq<Span>, line: Line, at: nat)
    requires !line.Heading? && InHand(cases, Some(current), spans)
    requires var last := spans[|spans| - 1]; last.at + |last.body| + 1 == at
    ensures InHand(cases, Some(Inspected(current, line, at + 1)), Extended(spans, line, at))
  {
    var last := spans[|spans| - 1];
    RecordGrows(last, line);
    var more := Extended(spans, line, at);
    assert more[..|more| - 1] == spans[..|spans| - 1];
  }

  lemma FirstResultSnoc(body: seq<Line>, line: Line)
    ensures FirstResult(body + [line]) ==
            if FirstResult(body).Some? then FirstResult(body) else if line.ResultLine? then Some(|body|) else None
  {
    assert (body + [line])[..|body|] == body;
  }

  lemma FirstNotesSnoc(body: seq<Line>, start: nat, line: Line)
    requires start <= |body|
    ensures FirstNotes(body + [line], start) ==
            if FirstNotes(body, start).Some? then FirstNotes(body, start) else if line.NotesLine? then Some(|body|) else None
  {
    assert (body + [line])[..|body|] == body;
  }

  lemma NoNotesYet(body: seq<Line>)
    ensures FirstNotes(body, |body|) == None
  {
  }

  lemma RecordGrows(s: Span, line: Line)
    requires !line.Heading?
    ensures RecordOf(s.(body := s.body + [line])) == Inspected(RecordOf(s), line, s.at + |s.body| + 2)
  {
    FirstResultSnoc(s.body, line);
    if FirstResult(s.body).Some? {
      FirstNotesSnoc(s.body, FirstResult(s.body).value + 1, line);
    } else {
      NoNotesYet(s.body + [line]);
    }
  }

  /** The open span runs up to the end of what has been read. */
  lemma {:induction false} SpanReaches(lines: seq<Line>, n: nat)
    requires n <= |lines| && |Spans(lines, n)| > 0
    ensures var last := Spans(lines, n)[|Spans(lines, n)| - 1]; last.at + |last.body| + 1 == n
    decreases n
  {
    if !lines[n - 1].Heading? {
      SpanReaches(lines, n - 1);
    }
  }

  // ---------------------------------------------------------------- the meaning, declaratively

  /** A heading, the lines after it, and then another heading or the end of what has been read. */
  ghost predicate IsSpan(lines: seq<Line>, n: nat, s: Span)
    requires n <= |lines|
  {
    && s.at + 1 + |s.body| <= n
    && lines[s.at] == Heading(s.id)
    && (forall i :: 0 <= i < |s.body| ==> s.body[i] == lines[s.at + 1 + i] && !s.body[i].Heading?)
    && (s.at + 1 + |s.body| < n ==> lines[s.at + 1 + |s.body|].Heading?)
  }

  ghost predicate Ascending(spans: seq<Span>) {
    forall j, k :: 0 <= j < k < |spans| ==> spans[j].at < spans[k].at
  }

  ghost predicate HasSpan(spans: seq<Span>, h: nat) {
    exists j :: 0 <= j < |spans| && spans[j].at == h
  }

  /** Spans in order, each ending where the next heading stands. */
  lemma {:induction false} SpansAreSpans(lines: seq<Line>, n: nat)
    requires n <= |lines|
    ensures forall j :: 0 <= j < |Spans(lines, n)| ==> IsSpan(lines, n, Spans(lines, n)[j])
    ensures Ascending(Spans(lines, n))
    decreases n
  {
    if n > 0 {
      var before := Spans(lines, n - 1);
      SpansAreSpans(lines, n - 1);
      if |before| > 0 {
        SpanReaches(lines, n - 1);
      }
      ExtendedSpans(lines, n - 1, before);
    }
  }

  /** Every heading has its span, and no other line has one. */
  lemma {:induction false} HeadingHasSpan(lines: seq<Line>, n: nat, h: nat)
    requires h < n <= |lines|
    ensures lines[h].Heading? <==> HasSpan(Spans(lines, n), h)
    decreases n
  {
    var before := Spans(lines, n - 1);
    ExtendedHas(before, lines[n - 1], n - 1, h);
    if h < n - 1 {
      HeadingHasSpan(lines, n - 1, h);
    } else {
      SpansAreSpans(lines, n - 1);
      assert forall j :: 0 <= j < |before| ==> IsSpan(lines, n - 1, before[j]);
    }
  }

  /** One span per heading, in document order: the heading's id, and exactly the lines up to the
      next heading or the end. */
  lemma SpansAreTheHeadings(lines: seq<Line>)
    ensures var spans := Spans(lines, |lines|);
            && |Cases(lines)| == |spans|
            && Ascending(spans)
            && (forall j :: 0 <= j < |spans| ==> IsSpan(lines, |lines|, spans[j]))
            && (forall h :: 0 <= h < |lines| ==> (lines[h].Heading? <==> HasSpan(spans, h)))
  {
    SpansAreSpans(lines, |lines|);
    forall h | 0 <= h < |lines| ensures lines[h].Heading? <==> HasSpan(Spans(lines, |lines|), h) {
      HeadingHasSpan(lines, |lines|, h);
    }
  }

  lemma ExtendedSpans(lines: seq<Line>, n: nat, before: seq<Span>)
    requires n < |lines|
    requires forall j :: 0 <= j < |before| ==> IsSpan(lines, n, before[j])
    requires Ascending(before)
    requires |before| > 0 ==> before[|before| - 1].at + |before[|before| - 1].body| + 1 == n
    ensures var spans := Extended(before, lines[n], n);
            && (forall j :: 0 <= j < |spans| ==> IsSpan(lines, n + 1, spans[j]))
            && Ascending(spans)
  {
    var spans := Extended(before, lines[n], n);
    forall j | 0 <= j < |spans| ensures IsSpan(lines, n + 1, spans[j]) {
      if j < |before| {
        assert IsSpan(lines, n, before[j]);
        if j < |before| - 1 {
          SpanCloses(lines, n, before[j], before[j + 1]);
        }
      }
    }
  }

  /** A span with another one behind it has ended. */
  lemma SpanCloses(lines: seq<Line>, n: nat, s: Span, next: Span)
    requires n <= |lines| && IsSpan(lines, n, s) && IsSpan(lines, n, next) && s.at < next.at
    ensures s.at + 1 + |s.body| < n
  {
    forall h | s.at < h <= s.at + |s.body| ensures !lines[h].Heading? {
      var k := h - s.at - 1;
      assert s.body[k] == lines[s.at + 1 + k] && !s.body[k].Heading?;
    }
  }

  lemma ExtendedHas(before: seq<Span>, line: Line, at: nat, h: nat)
    ensures HasSpan(Extended(before, line, at), h) <==> HasSpan(before, h) || (line.Heading? && h == at)
  {
    var spans := Extended(before, line, at);
    if HasSpan(before, h) {
      var j :| 0 <= j < |before| && before[j].at == h;
      assert spans[j].at == h;
    }
    if line.Heading? && h == at {
      assert spans[|before|].at == h;
    }
    if HasSpan(spans, h) {
      var j :| 0 <= j < |spans| && spans[j].at == h;
      assert j < |before| ==> before[j].at == h;
    }
  }

  lemma {:induction false} FirstResultIsFirst(body: seq<Line>)
    ensures var r := FirstResult(body);
            if r.Some? then forall i :: 0 <= i < r.value ==> !body[i].ResultLine?
            else forall i :: 0 <= i < |body| ==> !body[i].ResultLine?
    decreases |body|
  {
    if |body| > 0 {
      FirstResultIsFirst(body[..|body| - 1]);
    }
  }

  lemma {:induction false} FirstNotesIsFirst(body: seq<Line>, start: nat)
    ensures var r := FirstNotes(body, start);
            if r.Some? then forall i :: start <= i < r.value ==> !body[i].NotesLine?
            else forall i :: start <= i < |body| ==> !body[i].NotesLine?
    decreases |body|
  {
    if |body| > start {
      FirstNotesIsFirst(body[..|body| - 1], start);
    }
  }

  /** The lines a record depends on: headings, each span's first result, and the first notes after it. */
  ghost predicate Matters(lines: seq<Line>, i: nat)
    requires i < |lines|
  {
    || lines[i].Heading?
    || (exists j :: 0 <= j < |Spans(lines, |lines|)| && Uses(Spans(lines, |lines|)[j], i))
  }

  ghost predicate Uses(s: Span, i: nat) {
    FirstResult(s.body).Some?
    && var r := FirstResult(s.body).value;
       (i == s.at + 1 + r || (FirstNotes(s.body, r + 1).Some? && i == s.at + 1 + FirstNotes(s.body, r + 1).value))
  }

  function Replaced(s: Span, i: nat, text: string): Span {
    if s.at < i <= s.at + |s.body| then s.(body := s.body[i - s.at - 1 := Other(text)]) else s
  }

  lemma SpansEnd(lines: seq<Line>, n: nat)
    requires n <= |lines|
    ensures forall j :: 0 <= j < |Spans(lines, n)| ==> Spans(lines, n)[j].at + |Spans(lines, n)[j].body| < n
    ensures Ascending(Spans(lines, n))
  {
    SpansAreSpans(lines, n);
    var spans := Spans(lines, n);
    forall j | 0 <= j < |spans| ensures spans[j].at + |spans[j].body| < n {
      assert IsSpan(lines, n, spans[j]);
    }
  }

  ghost predicate SpansMatch(a: seq<Span>, b: seq<Span>, i: nat, text: string) {
    |a| == |b| && forall j :: 0 <= j < |a| ==> b[j] == Replaced(a[j], i, text)
  }

  /** Spans in order, the last of which ends right before `at`. */
  ghost predicate Behind(spans: seq<Span>, at: nat) {
    && Ascending(spans)
    && (forall j :: 0 <= j < |spans| ==> spans[j].at + |spans[j].body| < at)
    && (|spans| > 0 ==> spans[|spans| - 1].at + |spans[|spans| - 1].body| + 1 == at)
  }

  lemma SpansBehind(lines: seq<Line>, n: nat)
    requires n <= |lines|
    ensures Behind(Spans(lines, n), n)
  {
    SpansEnd(lines, n);
    if |Spans(lines, n)| > 0 {
      SpanReaches(lines, n);
    }
  }

  lemma SpansGrow(lines: seq<Line>, n: nat)
    requires 0 < n <= |lines|
    ensures Spans(lines, n) == Extended(Spans(lines, n - 1), lines[n - 1], n - 1)
  {
  }

  lemma SpansReplacedNext(lines: seq<Line>, changed: seq<Line>, n: nat, i: nat, text: string)
    requires i < |lines| && !lines[i].Heading? && changed == lines[i := Other(text)] && 0 < n <= |lines|
    requires SpansMatch(Spans(lines, n - 1), Spans(changed, n - 1), i, text)
    ensures SpansMatch(Spans(lines, n), Spans(changed, n), i, text)
  {
    SpansBehind(lines, n - 1);
    ExtendedMatch(Spans(lines, n - 1), Spans(changed, n - 1), lines[n - 1], n - 1, i, text);
    SpansGrow(lines, n);
    SpansGrow(changed, n);
  }

  lemma {:induction false} SpansReplaced(lines: seq<Line>, changed: seq<Line>, n: nat, i: nat, text: string)
    requires i < |lines| && !lines[i].Heading? && changed == lines[i := Other(text)] && n <= |lines|
    ensures SpansMatch(Spans(lines, n), Spans(changed, n), i, text)
    decreases n
  {
    if n > 0 {
      SpansReplaced(lines, changed, n - 1, i, text);
      SpansReplacedNext(lines, changed, n, i, text);
    }
  }

  lemma ExtendedMatch(a: seq<Span>, b: seq<Span>, line: Line, at: nat, i: nat, text: string)
    requires SpansMatch(a, b, i, text) && Behind(a, at)
    requires i == at ==> !line.Heading?
    ensures SpansMatch(Extended(a, line, at), Extended(b, if i == at then Other(text) else line, at), i, text)
  {
    if !line.Heading? && |a| > 0 {
      var last := a[|a| - 1];
      var line' := if i == at then Other(text) else line;
      if i == at {
        assert Replaced(last, i, text) == last;
        assert (last.body + [line])[|last.body| := Other(text)] == last.body + [line'];
      } else if last.at < i <= last.at + |last.body| {
        var k := i - last.at - 1;
        assert (last.body + [line])[k := Other(text)] == last.body[k := Other(text)] + [line];
      }
    }
  }

  /** Replacing any other line by one that matches nothing changes no record. */
  lemma IrrelevantLinesDoNotMatter(lines: seq<Line>, i: nat, text: string)
    requires i < |lines| && !Matters(lines, i)
    ensures Cases(lines[i := Other(text)]) == Cases(lines)
  {
    var spans, changed := Spans(lines, |lines|), Spans(lines[i := Other(text)], |lines|);
    SpansReplaced(lines, lines[i := Other(text)], |lines|, i, text);
    forall j | 0 <= j < |spans| ensures RecordOf(changed[j]) == RecordOf(spans[j]) {
      assert !Uses(spans[j], i);
      SameRecord(spans[j], i, text);
    }
  }

  lemma SameRecord(s: Span, i: nat, text: string)
    requires !Uses(s, i)
    ensures RecordOf(Replaced(s, i, text)) == RecordOf(s)
  {
    if s.at < i <= s.at + |s.body| {
      SameReading(s, i - s.at - 1, text);
    }
  }

  lemma SameReading(s: Span, k: nat, text: string)
    requires k < |s.body| && FirstResult(s.body) != Some(k)
    requires FirstResult(s.body).Some? ==> FirstNotes(s.body, FirstResult(s.body).value + 1) != Some(k)
    ensures RecordOf(s.(body := s.body[k := Other(text)])) == RecordOf(s)
  {
    var body := s.body[k := Other(text)];
    SameFirstResult(s.body, k, text);
    if FirstResult(s.body).Some? {
      var r := FirstResult(s.body).value;
      SameFirstNotes(s.body, r + 1, k, text);
      assert body[r] == s.body[r];
    }
    RecordDependsOn(s, body);
  }

  /** A record reads nothing of a span's body but its first result and the first notes after it. */
  lemma RecordDependsOn(s: Span, body: seq<Line>)
    requires |body| == |s.body| && FirstResult(body) == FirstResult(s.body)
    requires FirstResult(body).Some? ==>
               var r := FirstResult(body).value;
               && body[r] == s.body[r]
               && FirstNotes(body, r + 1) == FirstNotes(s.body, r + 1)
               && (FirstNotes(body, r + 1).Some? ==>
                     body[FirstNotes(body, r + 1).value] == s.body[FirstNotes(body, r + 1).value])
    ensures RecordOf(s.(body := body)) == RecordOf(s)
  {
  }

  lemma {:induction false} SameFirstResult(body: seq<Line>, k: nat, text: string)
    requires k < |body| && FirstResult(body) != Some(k)
    ensures FirstResult(body[k := Other(text)]) == FirstResult(body)
    decreases |body|
  {
    var n := |body| - 1;
    if k < n {
      if FirstResult(body[..n]) != Some(k) {
        SameFirstResult(body[..n], k, text);
      }
      assert body[k := Other(text)][..n] == body[..n][k := Other(text)];
    } else {
      assert body[k := Other(text)][..n] == body[..n];
    }
  }

  lemma {:induction false} SameFirstNotes(body: seq<Line>, start: nat, k: nat, text: string)
    requires k < |body| && FirstNotes(body, start) != Some(k)
    ensures FirstNotes(body[k := Other(text)], start) == FirstNotes(body, start)
    decreases |body|
  {
    var n := |body| - 1;
    if start < |body| {
      if k < n {
        SameFirstNotes(body[..n], start, k, text);
        assert body[k := Other(text)][..n] == body[..n][k := Other(text)];
      } else {
        assert body[k := Other(text)][..n] == body[..n];
      }
    }
  }
}
