/** What a case record says, read off the lines of the document without scanning. */
module UatMeaning {
  import opened Text
  import opened UatCorpus
  import opened Wrappers

  // ---------------------------------------------------------------- annotations

  ghost predicate Stars(text: string) {
    forall i :: 0 <= i < |text| ==> text[i] == '*'
  }

  /** The text without white space at its ends, then without the stars it begins with, and then again
      without white space at its ends. */
  ghost predicate Bare(text: string, plain: string) {
    exists inner, stars, rest ::
      && Stripped(text, inner) && inner == stars + rest
      && Stars(stars) && (|rest| > 0 ==> rest[0] != '*')
      && Stripped(rest, plain)
  }

  /** A skip says that it is a gap, deferred or obsolete by how its annotation begins. */
  ghost function Announced(plain: string): Disposition {
    if Begins(plain, "GAP \U{2014} ") || Begins(plain, "GAP - ") then Gap
    else if Begins(plain, "DEFERRED \U{2014} ") || Begins(plain, "DEFERRED - ") then Deferred
    else if Begins(plain, "OBSOLETE \U{2014} ") || Begins(plain, "OBSOLETE - ") then Obsolete
    else SkipOther
  }

  ghost predicate Classified(annotation: Option<string>, d: Disposition) {
    if annotation.None? then d == SkipOther
    else exists plain :: Bare(annotation.value, plain) && d == Announced(plain)
  }

  lemma {:induction false} StarsRemoved(text: string) returns (stars: string)
    ensures text == stars + StripStars(text) && Stars(stars)
    ensures |StripStars(text)| > 0 ==> StripStars(text)[0] != '*'
    decreases |text|
  {
    if |text| > 0 && text[0] == '*' {
      var more := StarsRemoved(text[1..]);
      stars := ['*'] + more;
      assert text == ['*'] + text[1..];
    } else {
      stars := [];
    }
  }

  lemma AnnouncesIs(plain: string)
    ensures Announces(plain, "GAP") <==> Begins(plain, "GAP \U{2014} ") || Begins(plain, "GAP - ")
    ensures Announces(plain, "DEFERRED") <==> Begins(plain, "DEFERRED \U{2014} ") || Begins(plain, "DEFERRED - ")
    ensures Announces(plain, "OBSOLETE") <==> Begins(plain, "OBSOLETE \U{2014} ") || Begins(plain, "OBSOLETE - ")
  {
    BeginsIs(plain, "GAP" + " \U{2014} ");
    BeginsIs(plain, "GAP" + " - ");
    BeginsIs(plain, "DEFERRED" + " \U{2014} ");
    BeginsIs(plain, "DEFERRED" + " - ");
    BeginsIs(plain, "OBSOLETE" + " \U{2014} ");
    BeginsIs(plain, "OBSOLETE" + " - ");
    assert "GAP" + " \U{2014} " == "GAP \U{2014} " && "GAP" + " - " == "GAP - ";
    assert "DEFERRED" + " \U{2014} " == "DEFERRED \U{2014} " && "DEFERRED" + " - " == "DEFERRED - ";
    assert "OBSOLETE" + " \U{2014} " == "OBSOLETE \U{2014} " && "OBSOLETE" + " - " == "OBSOLETE - ";
  }

  /** A skip's annotation decides its disposition by what it begins with, once white space and stars
      are taken off. */
  lemma AnnotationMeans(annotation: Option<string>)
    ensures Classified(annotation, ClassifyAnnotation(annotation))
  {
    if annotation.Some? {
      var text := annotation.value;
      var inner := Strip(text);
      var stars := StarsRemoved(inner);
      var plain := Strip(StripStars(inner));
      StripMeans(text);
      StripMeans(StripStars(inner));
      AnnouncesIs(plain);
      assert Bare(text, plain);
    }
  }

  // ---------------------------------------------------------------- result lines

  /** What the boxes of a result line say: one checked box decides and gives its annotation; several
      are malformed, and none leaves the case open. */
  ghost predicate Judged(line: Line, c: CaseRecord)
    requires line.ResultLine?
  {
    var (p, f, s) := (line.pass.checked, line.fail.checked, line.skip.checked);
    && (PassMark in c.boxes <==> p) && (FailMark in c.boxes <==> f) && (SkipMark in c.boxes <==> s)
    && if (p && f) || (p && s) || (f && s) then c.disposition == Malformed && c.annotation == None
       else if p then c.disposition == Pass && c.annotation == line.pass.annotation
       else if f then c.disposition == Fail && c.annotation == line.fail.annotation
       else if s then Classified(line.skip.annotation, c.disposition) && c.annotation == line.skip.annotation
       else c.disposition == Undispositioned && c.annotation == None
  }

  /** The first result line after the heading at `h` and before `e`. */
  ghost predicate ResultAt(lines: seq<Line>, h: nat, e: nat, r: nat)
    requires e <= |lines|
  {
    h < r < e && lines[r].ResultLine? && forall i :: h < i < r ==> !lines[i].ResultLine?
  }

  /** The first notes line after that. */
  ghost predicate NotesAt(lines: seq<Line>, r: nat, e: nat, n: nat)
    requires e <= |lines|
  {
    r < n < e && lines[n].NotesLine? && forall i :: r < i < n ==> !lines[i].NotesLine?
  }

  ghost predicate Unnoted(c: CaseRecord) {
    c.notesAt == None && c.notesText == None && !c.notesGap
  }

  ghost predicate Noted(line: Line, n: nat, c: CaseRecord)
    requires line.NotesLine?
  {
    c.notesAt == Some(n + 1) && c.notesText == Some(line.text) && c.notesGap == line.gap
  }

  ghost predicate NotesMean(lines: seq<Line>, r: nat, e: nat, c: CaseRecord)
    requires e <= |lines|
  {
    || (Unnoted(c) && forall i :: r < i < e ==> !lines[i].NotesLine?)
    || (exists n: nat :: NotesAt(lines, r, e, n) && Noted(lines[n], n, c))
  }

  /** Nothing was said about the case. */
  ghost predicate Open(c: CaseRecord) {
    c.resultAt == None && c.boxes == {} && c.annotation == None && c.disposition == Undispositioned && Unnoted(c)
  }

  ghost predicate Reported(lines: seq<Line>, r: nat, e: nat, c: CaseRecord)
    requires r < e <= |lines| && lines[r].ResultLine?
  {
    c.resultAt == Some(r + 1) && Judged(lines[r], c) && NotesMean(lines, r, e, c)
  }

  /** The lines from the heading at `h` up to `e`, where the next one stands. */
  ghost predicate Framed(lines: seq<Line>, h: nat, e: nat, id: string)
    requires h < e <= |lines|
  {
    lines[h] == Heading(id) && (forall i :: h < i < e ==> !lines[i].Heading?) && (e < |lines| ==> lines[e].Heading?)
  }

  ghost predicate ResultsMean(lines: seq<Line>, h: nat, e: nat, c: CaseRecord)
    requires h < e <= |lines|
  {
    || (Open(c) && forall i :: h < i < e ==> !lines[i].ResultLine?)
    || (exists r: nat :: ResultAt(lines, h, e, r) && Reported(lines, r, e, c))
  }

  /** The record of the heading at `h`, whose lines end before `e`. Line numbers start at 1. */
  ghost predicate RecordMeans(lines: seq<Line>, h: nat, e: nat, c: CaseRecord)
    requires h < e <= |lines|
  {
    Framed(lines, h, e, c.id) && c.headingAt == h + 1 && ResultsMean(lines, h, e, c)
  }

  ghost predicate IsRecordAt(lines: seq<Line>, h: nat, c: CaseRecord) {
    exists e: nat :: h < e <= |lines| && RecordMeans(lines, h, e, c)
  }

  /** One record for each heading, in order. */
  ghost predicate CasesMean(lines: seq<Line>, cases: seq<CaseRecord>, at: seq<nat>) {
    && |at| == |cases|
    && (forall j, k :: 0 <= j < k < |at| ==> at[j] < at[k])
    && (forall h :: h in at <==> 0 <= h < |lines| && lines[h].Heading?)
    && (forall j :: 0 <= j < |cases| ==> IsRecordAt(lines, at[j], cases[j]))
  }

  // ---------------------------------------------------------------- the records of the spans

  lemma ResultMeans(line: Line, id: string, at: nat, lineno: nat)
    requires line.ResultLine?
    ensures Judged(line, WithResult(UatCorpus.Blank(id, at), line, lineno))
  {
    AnnotationMeans(line.skip.annotation);
  }

  lemma LineOf(lines: seq<Line>, s: Span, i: nat)
    requires IsSpan(lines, |lines|, s) && s.at < i <= s.at + |s.body|
    ensures lines[i] == s.body[i - s.at - 1] && !lines[i].Heading?
  {
    var k := i - s.at - 1;
    assert s.body[k] == lines[s.at + 1 + k] && !s.body[k].Heading?;
  }

  lemma SpanNotesAt(lines: seq<Line>, s: Span, r: nat)
    requires IsSpan(lines, |lines|, s) && r < |s.body|
    ensures var e := s.at + 1 + |s.body|;
            if FirstNotes(s.body, r + 1).None? then forall i :: s.at + 1 + r < i < e ==> !lines[i].NotesLine?
            else NotesAt(lines, s.at + 1 + r, e, s.at + 1 + FirstNotes(s.body, r + 1).value)
  {
    FirstNotesIsFirst(s.body, r + 1);
    forall i | s.at + 1 + r < i < s.at + 1 + |s.body| ensures lines[i] == s.body[i - s.at - 1] {
      LineOf(lines, s, i);
    }
  }

  lemma SpanNotes(lines: seq<Line>, s: Span, r: nat, c: CaseRecord)
    requires IsSpan(lines, |lines|, s) && r < |s.body| && Unnoted(c)
    ensures var d := match FirstNotes(s.body, r + 1)
                     case None => c
                     case Some(n) => WithNotes(c, s.body[n], s.at + n + 2);
            NotesMean(lines, s.at + 1 + r, s.at + 1 + |s.body|, d)
  {
    SpanNotesAt(lines, s, r);
    if FirstNotes(s.body, r + 1).Some? {
      var n := FirstNotes(s.body, r + 1).value;
      LineOf(lines, s, s.at + 1 + n);
      assert Noted(lines[s.at + 1 + n], s.at + 1 + n, WithNotes(c, s.body[n], s.at + n + 2));
    }
  }

  lemma SpanResult(lines: seq<Line>, s: Span)
    requires IsSpan(lines, |lines|, s)
    ensures var e := s.at + 1 + |s.body|;
            if FirstResult(s.body).None? then forall i :: s.at < i < e ==> !lines[i].ResultLine?
            else ResultAt(lines, s.at, e, s.at + 1 + FirstResult(s.body).value)
  {
    FirstResultIsFirst(s.body);
    forall i | s.at < i < s.at + 1 + |s.body| ensures lines[i] == s.body[i - s.at - 1] {
      LineOf(lines, s, i);
    }
  }

  lemma SpanReported(lines: seq<Line>, s: Span, r: nat)
    requires IsSpan(lines, |lines|, s) && FirstResult(s.body) == Some(r)
    requires lines[s.at + 1 + r].ResultLine?
    ensures Reported(lines, s.at + 1 + r, s.at + 1 + |s.body|, RecordOf(s))
  {
    var c := WithResult(UatCorpus.Blank(s.id, s.at), s.body[r], s.at + r + 2);
    LineOf(lines, s, s.at + 1 + r);
    ResultMeans(s.body[r], s.id, s.at, s.at + r + 2);
    SpanNotes(lines, s, r, c);
    NotesLeaveTheRest(s, r, c);
  }

  lemma NotesLeaveTheRest(s: Span, r: nat, c: CaseRecord)
    requires FirstResult(s.body) == Some(r) && c == WithResult(UatCorpus.Blank(s.id, s.at), s.body[r], s.at + r + 2)
    ensures var d := RecordOf(s);
            && d == (match FirstNotes(s.body, r + 1)
                     case None => c
                     case Some(n) => WithNotes(c, s.body[n], s.at + n + 2))
            && d.boxes == c.boxes && d.disposition == c.disposition && d.annotation == c.annotation
            && d.resultAt == Some(s.at + r + 2)
  {
  }

  lemma SpanFramed(lines: seq<Line>, s: Span)
    requires IsSpan(lines, |lines|, s)
    ensures Framed(lines, s.at, s.at + 1 + |s.body|, s.id)
  {
    forall i | s.at < i < s.at + 1 + |s.body| ensures !lines[i].Heading? {
      LineOf(lines, s, i);
    }
  }

  lemma SpanMeans(lines: seq<Line>, s: Span)
    requires IsSpan(lines, |lines|, s)
    ensures RecordMeans(lines, s.at, s.at + 1 + |s.body|, RecordOf(s))
  {
    SpanFramed(lines, s);
    SpanResult(lines, s);
    RecordIsHeaded(s);
    if FirstResult(s.body).Some? {
      SpanReported(lines, s, FirstResult(s.body).value);
    }
  }

  lemma RecordIsHeaded(s: Span)
    ensures RecordOf(s).id == s.id && RecordOf(s).headingAt == s.at + 1
    ensures FirstResult(s.body).None? ==> Open(RecordOf(s))
  {
  }

  lemma OneCaseMeans(lines: seq<Line>, j: nat)
    requires j < |Spans(lines, |lines|)|
    ensures IsRecordAt(lines, Spans(lines, |lines|)[j].at, Cases(lines)[j])
  {
    var s := Spans(lines, |lines|)[j];
    SpansAreTheHeadings(lines);
    assert IsSpan(lines, |lines|, s);
    SpanMeans(lines, s);
    assert Cases(lines)[j] == RecordOf(s);
    IsRecordFrom(lines, s.at, s.at + 1 + |s.body|, RecordOf(s));
  }

  lemma IsRecordFrom(lines: seq<Line>, h: nat, e: nat, c: CaseRecord)
    requires h < e <= |lines| && RecordMeans(lines, h, e, c)
    ensures IsRecordAt(lines, h, c)
  {
  }

  /** The scanner's records are those of the headings: each with its first result line, judged by its
      boxes, and the first notes line after that, before the next heading. */
  lemma ScannedCasesMean(lines: seq<Line>)
    ensures exists at :: CasesMean(lines, Cases(lines), at)
  {
    var spans := Spans(lines, |lines|);
    var at: seq<nat> := seq(|spans|, j requires 0 <= j < |spans| => spans[j].at);
    SpansAreTheHeadings(lines);
    PlacesAreHeadings(lines, at);
    forall j | 0 <= j < |spans| ensures IsRecordAt(lines, at[j], Cases(lines)[j]) {
      OneCaseMeans(lines, j);
    }
    assert CasesMean(lines, Cases(lines), at);
  }

  lemma PlacesAreHeadings(lines: seq<Line>, at: seq<nat>)
    requires at == seq(|Spans(lines, |lines|)|, j requires 0 <= j < |Spans(lines, |lines|)| => Spans(lines, |lines|)[j].at)
    ensures forall h :: h in at <==> 0 <= h < |lines| && lines[h].Heading?
  {
    var spans := Spans(lines, |lines|);
    SpansAreTheHeadings(lines);
    forall h ensures h in at <==> 0 <= h < |lines| && lines[h].Heading? {
      if h in at {
        var j :| 0 <= j < |at| && at[j] == h;
        assert IsSpan(lines, |lines|, spans[j]);
      }
      if 0 <= h < |lines| && lines[h].Heading? {
        assert HasSpan(spans, h);
        var j :| 0 <= j < |spans| && spans[j].at == h;
        assert at[j] == h;
      }
    }
  }
}
