/** What the reconciliation's lists hold, said about the cases and the ledger's rows. */
module LedgerMeaning {
  import opened UatLedger
  import opened UatCorpus
  import opened Sequences
  import opened Wrappers

  // ---------------------------------------------------------------- the two sides

  /** What the document says of an id: its last case with it. */
  ghost predicate Says(cases: seq<CaseRecord>, id: string, c: CaseRecord) {
    exists i :: 0 <= i < |cases| && cases[i] == c && c.id == id && forall j :: i < j < |cases| ==> cases[j].id != id
  }

  /** The ledger has a row with the id. */
  ghost predicate Listed(rows: seq<Row>, id: string) {
    exists k :: 0 <= k < |rows| && rows[k].id == Some(id)
  }

  /** The ledger's first row with the id calls it a gap. */
  ghost predicate CalledGap(rows: seq<Row>, id: string) {
    exists k :: 0 <= k < |rows| && rows[k] == Row(Some(id), "GAP") && forall j :: 0 <= j < k ==> rows[j].id != Some(id)
  }

  lemma {:induction false} ByIdSays(cases: seq<CaseRecord>, id: string)
    ensures ById(cases, id).Some? ==> Says(cases, id, ById(cases, id).value)
    ensures ById(cases, id).None? ==> forall i :: 0 <= i < |cases| ==> cases[i].id != id
    decreases |cases|
  {
    if |cases| > 0 {
      var last := |cases| - 1;
      ByIdSays(cases[..last], id);
      if cases[last].id == id {
        assert cases[last] == ById(cases, id).value;
      } else if ById(cases[..last], id).Some? {
        SaysStill(cases, id, ById(cases[..last], id).value);
      } else {
        assert forall i :: 0 <= i < last ==> cases[i] == cases[..last][i];
      }
    }
  }

  lemma SaysStill(cases: seq<CaseRecord>, id: string, c: CaseRecord)
    requires |cases| > 0 && Says(cases[..|cases| - 1], id, c) && cases[|cases| - 1].id != id
    ensures Says(cases, id, c)
  {
    var init := cases[..|cases| - 1];
    var i :| 0 <= i < |init| && init[i] == c && c.id == id && forall j :: i < j < |init| ==> init[j].id != id;
    assert cases[i] == c;
    forall j | i < j < |cases| ensures cases[j].id != id {
      assert j < |init| ==> init[j] == cases[j];
    }
  }

  lemma ByIdIs(cases: seq<CaseRecord>, id: string, c: CaseRecord)
    ensures ById(cases, id) == Some(c) <==> Says(cases, id, c)
  {
    ByIdSays(cases, id);
    if Says(cases, id, c) {
      var i :| 0 <= i < |cases| && cases[i] == c && c.id == id && forall j :: i < j < |cases| ==> cases[j].id != id;
      var d := ById(cases, id).value;
      var k :| 0 <= k < |cases| && cases[k] == d && d.id == id && forall j :: k < j < |cases| ==> cases[j].id != id;
      assert i == k;
    }
  }

  lemma RowsAre(rows: seq<Row>, id: string)
    ensures id in Ledger(rows, |rows|) <==> Listed(rows, id)
    ensures id in LedgerGaps(Ledger(rows, |rows|)) <==> CalledGap(rows, id)
  {
    LedgerHasFirst(rows, |rows|, id);
    FirstRowDecides(rows, id);
    if k :| 0 <= k < |rows| && rows[k] == Row(Some(id), "GAP") && !Seen(rows, k, id) {
      assert CalledGap(rows, id);
    }
    if CalledGap(rows, id) {
      var k :| 0 <= k < |rows| && rows[k] == Row(Some(id), "GAP") && forall j :: 0 <= j < k ==> rows[j].id != Some(id);
      assert !Seen(rows, k, id);
    }
  }

  // ---------------------------------------------------------------- the document's lists

  ghost function OpenGap(): CaseRecord -> bool {
    (c: CaseRecord) => c.disposition == Gap || (c.disposition == SkipOther && c.notesGap)
  }

  ghost function InResultLine(): CaseRecord -> bool {
    (c: CaseRecord) => c.disposition == Gap
  }

  ghost function InNotesOnly(): CaseRecord -> bool {
    (c: CaseRecord) => c.disposition == SkipOther && c.notesGap
  }

  ghost function SeveralBoxes(): CaseRecord -> bool {
    (c: CaseRecord) => c.disposition == Malformed
  }

  ghost function OfDisposition(d: Disposition): CaseRecord -> bool {
    (c: CaseRecord) => c.disposition == d
  }

  ghost function Id(): CaseRecord -> string {
    (c: CaseRecord) => c.id
  }

  lemma {:induction false} IdsAre(cases: seq<CaseRecord>, so: CaseRecord -> bool, keep: CaseRecord -> bool)
    requires forall c :: so(c) <==> keep(c)
    ensures Filtered(cases, keep, Id(), Ids(cases, so))
    decreases |cases|
  {
    if |cases| == 0 {
      FilteredNone(keep, Id());
    } else {
      var init := cases[..|cases| - 1];
      IdsAre(init, so, keep);
      assert Ids(init, so) + [] == Ids(init, so);
      FilteredLast(cases, keep, Id(), Ids(init, so), Ids(cases, so));
    }
  }

  /** The ids of the cases that are gaps, by the result line or by the notes alone, or malformed,
      in document order. */
  lemma CaseListsMean(cases: seq<CaseRecord>)
    ensures Filtered(cases, OpenGap(), Id(), Ids(cases, IsGap))
    ensures Filtered(cases, InResultLine(), Id(), Ids(cases, ResultLineGap))
    ensures Filtered(cases, InNotesOnly(), Id(), Ids(cases, NotesOnlyGap))
    ensures Filtered(cases, SeveralBoxes(), Id(), Ids(cases, IsMalformed))
  {
    IdsAre(cases, IsGap, OpenGap());
    IdsAre(cases, ResultLineGap, InResultLine());
    IdsAre(cases, NotesOnlyGap, InNotesOnly());
    IdsAre(cases, IsMalformed, SeveralBoxes());
  }

  lemma {:induction false} CountIsLength(cases: seq<CaseRecord>, d: Disposition)
    ensures CountOf(cases, d) == |Ids(cases, OfDisposition(d))|
    decreases |cases|
  {
    if |cases| > 0 {
      CountIsLength(cases[..|cases| - 1], d);
    }
  }

  /** The count of a disposition is that of its cases. */
  lemma CountMeans(cases: seq<CaseRecord>, d: Disposition)
    ensures exists ids :: Filtered(cases, OfDisposition(d), Id(), ids) && |ids| == CountOf(cases, d)
  {
    CountIsLength(cases, d);
    IdsAre(cases, OfDisposition(d), OfDisposition(d));
  }

  ghost function InLedger(rows: seq<Row>, yes: bool): string -> bool {
    (id: string) => Listed(rows, id) == yes
  }

  lemma {:induction false} ChosenAre(ids: seq<string>, so: string -> bool, keep: string -> bool)
    requires forall id :: so(id) <==> keep(id)
    ensures Filtered(ids, keep, Itself(), Chosen(ids, so))
    decreases |ids|
  {
    if |ids| == 0 {
      FilteredNone(keep, Itself());
    } else {
      var init := ids[..|ids| - 1];
      ChosenAre(init, so, keep);
      assert Chosen(init, so) + [] == Chosen(init, so);
      FilteredLast(ids, keep, Itself(), Chosen(init, so), Chosen(ids, so));
    }
  }

  /** The gaps that the ledger lists, and those it does not. */
  lemma RowListsMean(ids: seq<string>, rows: seq<Row>)
    ensures var ledger := Ledger(rows, |rows|);
            && Filtered(ids, InLedger(rows, true), Itself(), Chosen(ids, id => id in ledger))
            && Filtered(ids, InLedger(rows, false), Itself(), Chosen(ids, id => id !in ledger))
  {
    var ledger := Ledger(rows, |rows|);
    forall id ensures id in ledger <==> Listed(rows, id) {
      RowsAre(rows, id);
    }
    ChosenAre(ids, id => id in ledger, InLedger(rows, true));
    ChosenAre(ids, id => id !in ledger, InLedger(rows, false));
  }

  // ---------------------------------------------------------------- the conflicts

  /** An id is in a conflict list if and only if the ledger calls it a gap and the document defers
      it, leaves it without an annotation, or has retired it; it is absent if and only if the
      ledger lists it and no case has it, and a duplicate if and only if two rows list it. */
  lemma ConflictsMean(cases: seq<CaseRecord>, rows: seq<Row>, id: string)
    ensures var ledger := Ledger(rows, |rows|);
            && (id in GapsThat(cases, ledger, Deferring) <==>
                  CalledGap(rows, id) && exists c :: Says(cases, id, c) && c.disposition == Deferred)
            && (id in GapsThat(cases, ledger, Unannotated) <==>
                  CalledGap(rows, id) && exists c :: Says(cases, id, c) && c.disposition == SkipOther && !c.notesGap)
            && (id in GapsThat(cases, ledger, Retired) <==>
                  CalledGap(rows, id) && exists c :: Says(cases, id, c) && c.disposition == Obsolete)
    ensures Seen(rows, |rows|, id) && ById(cases, id).None? <==>
              Listed(rows, id) && forall i :: 0 <= i < |cases| ==> cases[i].id != id
    ensures SeenTwice(rows, |rows|, id) <==> exists i, j :: 0 <= i < j < |rows| && rows[i].id == rows[j].id == Some(id)
  {
    RowsAre(rows, id);
    ByIdSays(cases, id);
    if ById(cases, id).Some? {
      var c := ById(cases, id).value;
      forall d ensures Says(cases, id, d) <==> d == c {
        ByIdIs(cases, id, d);
      }
    }
    if i, j :| 0 <= i < j < |rows| && rows[i].id == rows[j].id == Some(id) {
      assert Seen(rows, j, id);
    }
  }
}
