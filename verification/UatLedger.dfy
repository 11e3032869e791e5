/** Reconciling the corpus with the disposition ledger. */
module UatLedger {
  import opened UatCorpus
  import opened Wrappers

  /** A ledger row; its id may be missing. */
  datatype Row = Row(id: Option<string>, outcome: string)

  /** The part of the report whose arithmetic is checked; lists are in document order. */
  datatype Reconciliation = Reconciliation(
    totalHeadings: nat,
    counts: map<Disposition, nat>,
    gapIds: seq<string>, resultLineIds: seq<string>, notesOnlyIds: seq<string>,
    withRow: seq<string>, withoutRow: seq<string>,
    deferredGap: set<string>, unannotatedGap: set<string>, obsoleteGap: set<string>,
    absentFromDoc: set<string>, duplicates: set<string>,
    malformed: seq<string>,
    arithmeticOk: bool)

  /** The last record with an id. */
  function ById(cases: seq<CaseRecord>, id: string): (r: Option<CaseRecord>)
    ensures r.Some? ==> r.value in cases && r.value.id == id
    decreases |cases|
  {
    if |cases| == 0 then None
    else if cases[|cases| - 1].id == id then Some(cases[|cases| - 1])
    else ById(cases[..|cases| - 1], id)
  }

  /** The first row of each id, over the first `n` rows. */
  function Ledger(rows: seq<Row>, n: nat): map<string, Row>
    requires n <= |rows|
    decreases n
  {
    if n == 0 then map[]
    else
      var before, row := Ledger(rows, n - 1), rows[n - 1];
      if row.id.None? || row.id.value in before then before else before[row.id.value := row]
  }

  function Perhaps(yes: bool, id: string): seq<string> {
    if yes then [id] else []
  }

  /** The ids of the cases that are so. */
  function Ids(cases: seq<CaseRecord>, so: CaseRecord -> bool): seq<string>
    decreases |cases|
  {
    if |cases| == 0 then []
    else Ids(cases[..|cases| - 1], so) + Perhaps(so(cases[|cases| - 1]), cases[|cases| - 1].id)
  }

  function Chosen(ids: seq<string>, so: string -> bool): seq<string>
    decreases |ids|
  {
    if |ids| == 0 then []
    else Chosen(ids[..|ids| - 1], so) + Perhaps(so(ids[|ids| - 1]), ids[|ids| - 1])
  }

  function LedgerGaps(ledger: map<string, Row>): set<string> {
    set id | id in ledger && ledger[id].outcome == "GAP" :: id
  }

  /** Ledger gaps whose case in the document is so. */
  function GapsThat(cases: seq<CaseRecord>, ledger: map<string, Row>, so: CaseRecord -> bool): set<string> {
    set id | id in LedgerGaps(ledger) && ById(cases, id).Some? && so(ById(cases, id).value) :: id
  }

  function CountOf(cases: seq<CaseRecord>, d: Disposition): nat
    decreases |cases|
  {
    if |cases| == 0 then 0
    else CountOf(cases[..|cases| - 1], d) + if cases[|cases| - 1].disposition == d then 1 else 0
  }

  ghost predicate Counted(counts: map<Disposition, nat>, cases: seq<CaseRecord>) {
    forall d :: if d in counts then counts[d] == CountOf(cases, d) > 0 else CountOf(cases, d) == 0
  }

  ghost predicate Seen(rows: seq<Row>, n: nat, id: string)
    requires n <= |rows|
  {
    exists i :: 0 <= i < n && rows[i].id == Some(id)
  }

  ghost predicate SeenTwice(rows: seq<Row>, n: nat, id: string)
    requires n <= |rows|
  {
    exists j :: 0 <= j < n && rows[j].id == Some(id) && Seen(rows, j, id)
  }

  method CountDispositions(cases: seq<CaseRecord>) returns (counts: map<Disposition, nat>)
    ensures Counted(counts, cases)
  {
    counts := map[];
    for i := 0 to |cases|
      invariant Counted(counts, cases[..i])
    {
      assert cases[..i + 1][..i] == cases[..i];
      var d := cases[i].disposition;
      counts := counts[d := (if d in counts then counts[d] else 0) + 1];
    }
    assert cases[..|cases|] == cases;
  }

  /** The first row of each id is kept, and an id seen again is reported. */
  method ReadLedger(rows: seq<Row>) returns (ledger: map<string, Row>, duplicates: set<string>)
    ensures ledger == Ledger(rows, |rows|)
    ensures forall id :: id in duplicates <==> SeenTwice(rows, |rows|, id)
  {
    ledger, duplicates := map[], {};
    for k := 0 to |rows|
      invariant ledger == Ledger(rows, k)
      invariant forall id :: id in duplicates <==> SeenTwice(rows, k, id)
    {
      var id := rows[k].id;
      forall x ensures SeenTwice(rows, k + 1, x) <==> SeenTwice(rows, k, x) || (id == Some(x) && Seen(rows, k, x)) {
        TwiceGrows(rows, k, x);
      }
      if id.Some? {
        LedgerHasFirst(rows, k, id.value);
        if id.value in ledger {
          duplicates := duplicates + {id.value};
        } else {
          ledger := ledger[id.value := rows[k]];
        }
      }
    }
  }

  lemma TwiceGrows(rows: seq<Row>, k: nat, id: string)
    requires k < |rows|
    ensures SeenTwice(rows, k + 1, id) <==> SeenTwice(rows, k, id) || (rows[k].id == Some(id) && Seen(rows, k, id))
  {
  }

  /** A ledger entry is the first row with its id. */
  lemma {:induction false} LedgerHasFirst(rows: seq<Row>, n: nat, id: string)
    requires n <= |rows|
    ensures id in Ledger(rows, n) <==> Seen(rows, n, id)
    ensures id in Ledger(rows, n) ==>
              exists i :: 0 <= i < n && rows[i] == Ledger(rows, n)[id] && rows[i].id == Some(id) && !Seen(rows, i, id)
    decreases n
  {
    if n > 0 {
      LedgerHasFirst(rows, n - 1, id);
      if rows[n - 1].id == Some(id) {
        assert Seen(rows, n, id);
      }
    }
  }

  predicate Deferring(c: CaseRecord) {
    c.disposition == Deferred
  }

  predicate Retired(c: CaseRecord) {
    c.disposition == Obsolete
  }

  predicate Unannotated(c: CaseRecord) {
    c.disposition == SkipOther && !c.notesGap
  }

  predicate ResultLineGap(c: CaseRecord) {
    c.disposition == Gap
  }

  predicate NotesOnlyGap(c: CaseRecord) {
    c.disposition == SkipOther && c.notesGap
  }

  predicate IsMalformed(c: CaseRecord) {
    c.disposition == Malformed
  }

  function Elements(ids: seq<string>): set<string> {
    set id | id in ids :: id
  }

  /** Ledger gaps that are explained: an open gap of the document, or one of the three conflicts. */
  function Accounted(cases: seq<CaseRecord>, ledger: map<string, Row>): set<string> {
    Elements(Chosen(Ids(cases, IsGap), id => id in ledger))
    + GapsThat(cases, ledger, Deferring) + GapsThat(cases, ledger, Unannotated) + GapsThat(cases, ledger, Retired)
  }

  lemma Covered<T>(part: set<T>, whole: set<T>)
    requires part <= whole
    ensures part * whole == part
  {
  }

  /** The ledger's gaps against what explains them. */
  method CheckLedger(cases: seq<CaseRecord>, ledger: map<string, Row>, withRow: seq<string>)
    returns (deferred: set<string>, unannotated: set<string>, obsolete: set<string>, ok: bool)
    requires withRow == Chosen(Ids(cases, IsGap), id => id in ledger)
    ensures deferred == GapsThat(cases, ledger, Deferring)
    ensures unannotated == GapsThat(cases, ledger, Unannotated)
    ensures obsolete == GapsThat(cases, ledger, Retired)
    ensures ok <==> forall id :: id in LedgerGaps(ledger) && ById(cases, id).Some? ==> id in Accounted(cases, ledger)
  {
    deferred := GapsThat(cases, ledger, Deferring);
    unannotated := GapsThat(cases, ledger, Unannotated);
    obsolete := GapsThat(cases, ledger, Retired);
    var inDoc := set id | id in LedgerGaps(ledger) && ById(cases, id).Some? :: id;
    var accounted := Elements(withRow) + deferred + unannotated + obsolete;
    if inDoc <= accounted {
      Covered(inDoc, accounted);
    }
    ok := inDoc <= accounted && |inDoc| == |inDoc * accounted|;
  }

  method Reconcile(cases: seq<CaseRecord>, rows: seq<Row>) returns (r: Reconciliation)
    ensures r.totalHeadings == |cases| && Counted(r.counts, cases)
    ensures r.gapIds == Ids(cases, IsGap) && r.resultLineIds == Ids(cases, ResultLineGap)
    ensures r.notesOnlyIds == Ids(cases, NotesOnlyGap) && r.malformed == Ids(cases, IsMalformed)
    ensures var ledger := Ledger(rows, |rows|);
            && r.withRow == Chosen(r.gapIds, id => id in ledger)
            && r.withoutRow == Chosen(r.gapIds, id => id !in ledger)
            && r.deferredGap == GapsThat(cases, ledger, Deferring)
            && r.unannotatedGap == GapsThat(cases, ledger, Unannotated)
            && r.obsoleteGap == GapsThat(cases, ledger, Retired)
            && (r.arithmeticOk <==> ArithmeticOk(cases, ledger))
    ensures forall id :: id in r.absentFromDoc <==> Seen(rows, |rows|, id) && ById(cases, id).None?
    ensures forall id :: id in r.duplicates <==> SeenTwice(rows, |rows|, id)
  {
    var counts := CountDispositions(cases);
    var ledger, duplicates := ReadLedger(rows);
    var gapIds := Ids(cases, IsGap);
    var withRow, withoutRow := Chosen(gapIds, id => id in ledger), Chosen(gapIds, id => id !in ledger);
    ChosenSplits(gapIds, id => id in ledger, id => id !in ledger);
    var deferred, unannotated, obsolete, ledgerOk := CheckLedger(cases, ledger, withRow);
    var absent := set id | id in ledger && ById(cases, id).None? :: id;
    forall id ensures id in ledger <==> Seen(rows, |rows|, id) {
      LedgerHasFirst(rows, |rows|, id);
    }
    var malformed := Ids(cases, IsMalformed);
    var docOk := |gapIds| == |withRow| + |withoutRow|;
    r := Reconciliation(|cases|, counts, gapIds, Ids(cases, ResultLineGap), Ids(cases, NotesOnlyGap),
                        withRow, withoutRow, deferred, unannotated, obsolete, absent, duplicates, malformed,
                        docOk && ledgerOk && malformed == []);
  }

  predicate ArithmeticOk(cases: seq<CaseRecord>, ledger: map<string, Row>) {
    && (forall id :: id in LedgerGaps(ledger) && ById(cases, id).Some? ==> id in Accounted(cases, ledger))
    && Ids(cases, IsMalformed) == []
  }

  lemma PerhapsAdds(ids: seq<string>, yes: bool, id: string)
    ensures multiset(ids + Perhaps(yes, id)) == multiset(ids) + if yes then multiset{id} else multiset{}
  {
  }

  lemma ChosenGrows(ids: seq<string>, so: string -> bool)
    requires |ids| > 0
    ensures var init, last := ids[..|ids| - 1], ids[|ids| - 1];
            multiset(Chosen(ids, so)) == multiset(Chosen(init, so)) + if so(last) then multiset{last} else multiset{}
  {
    PerhapsAdds(Chosen(ids[..|ids| - 1], so), so(ids[|ids| - 1]), ids[|ids| - 1]);
  }

  lemma LastAdds<T>(s: seq<T>)
    requires |s| > 0
    ensures multiset(s) == multiset(s[..|s| - 1]) + multiset{s[|s| - 1]}
  {
    assert s == s[..|s| - 1] + [s[|s| - 1]];
  }

  lemma OneShare<T>(whole: multiset<T>, a: multiset<T>, b: multiset<T>, x: T, first: bool)
    requires whole == a + b
    ensures whole + multiset{x} ==
            (a + if first then multiset{x} else multiset{}) + (b + if !first then multiset{x} else multiset{})
  {
  }

  lemma {:induction false} ChosenShares(ids: seq<string>, yes: string -> bool, no: string -> bool)
    requires forall id :: yes(id) == !no(id)
    ensures multiset(ids) == multiset(Chosen(ids, yes)) + multiset(Chosen(ids, no))
    decreases |ids|
  {
    if |ids| > 0 {
      var init, last := ids[..|ids| - 1], ids[|ids| - 1];
      ChosenShares(init, yes, no);
      ChosenGrows(ids, yes);
      ChosenGrows(ids, no);
      LastAdds(ids);
      OneShare(multiset(init), multiset(Chosen(init, yes)), multiset(Chosen(init, no)), last, yes(last));
    }
  }

  /** Each id goes into one of the two lists. */
  lemma ChosenSplits(ids: seq<string>, yes: string -> bool, no: string -> bool)
    requires forall id :: yes(id) == !no(id)
    ensures |ids| == |Chosen(ids, yes)| + |Chosen(ids, no)|
    ensures multiset(ids) == multiset(Chosen(ids, yes)) + multiset(Chosen(ids, no))
  {
    ChosenShares(ids, yes, no);
    assert |multiset(ids)| == |multiset(Chosen(ids, yes))| + |multiset(Chosen(ids, no))|;
  }

  // ---------------------------------------------------------------- what the arithmetic says

  lemma {:induction false} InIds(cases: seq<CaseRecord>, so: CaseRecord -> bool, id: string)
    ensures id in Ids(cases, so) <==> exists i :: 0 <= i < |cases| && cases[i].id == id && so(cases[i])
    decreases |cases|
  {
    if |cases| > 0 {
      InIds(cases[..|cases| - 1], so, id);
      assert forall i :: 0 <= i < |cases| - 1 ==> cases[..|cases| - 1][i] == cases[i];
    }
  }

  lemma {:induction false} InChosen(ids: seq<string>, so: string -> bool, id: string)
    ensures id in Chosen(ids, so) <==> id in ids && so(id)
    decreases |ids|
  {
    if |ids| > 0 {
      InChosen(ids[..|ids| - 1], so, id);
      assert ids == ids[..|ids| - 1] + [ids[|ids| - 1]];
    }
  }

  lemma {:induction false} ByIdFinds(cases: seq<CaseRecord>, i: nat)
    requires i < |cases| && UniqueIds(cases)
    ensures ById(cases, cases[i].id) == Some(cases[i])
    decreases |cases|
  {
    if i < |cases| - 1 {
      assert cases[i].id != cases[|cases| - 1].id;
      ByIdFinds(cases[..|cases| - 1], i);
    }
  }

  ghost predicate UniqueIds(cases: seq<CaseRecord>) {
    forall i, j :: 0 <= i < j < |cases| ==> cases[i].id != cases[j].id
  }

  lemma InAccounted(cases: seq<CaseRecord>, ledger: map<string, Row>, id: string)
    requires id in LedgerGaps(ledger) && ById(cases, id).Some?
    ensures var c := ById(cases, id).value;
            id in Accounted(cases, ledger) <==> id in Ids(cases, IsGap) || Deferring(c) || Unannotated(c) || Retired(c)
  {
    var withRow := Chosen(Ids(cases, IsGap), id => id in ledger);
    InChosen(Ids(cases, IsGap), id => id in ledger, id);
    assert id in Elements(withRow) <==> id in withRow;
  }

  lemma IsInIds(cases: seq<CaseRecord>, so: CaseRecord -> bool, i: nat)
    requires UniqueIds(cases) && i < |cases|
    ensures cases[i].id in Ids(cases, so) <==> so(cases[i])
  {
    InIds(cases, so, cases[i].id);
  }

  lemma AccountedFor(cases: seq<CaseRecord>, ledger: map<string, Row>, i: nat)
    requires UniqueIds(cases) && i < |cases| && cases[i].id in LedgerGaps(ledger)
    ensures cases[i].id in Accounted(cases, ledger) <==> cases[i].disposition !in {Pass, Fail, Undispositioned, Malformed}
  {
    ByIdFinds(cases, i);
    InAccounted(cases, ledger, cases[i].id);
    IsInIds(cases, IsGap, i);
  }

  /** With unique ids the arithmetic closes exactly when no case is malformed and no ledger row,
      the first of its id, calls a case a gap that the document passes, fails or leaves open. */
  lemma ArithmeticClosesExactlyWhen(cases: seq<CaseRecord>, rows: seq<Row>)
    requires UniqueIds(cases)
    ensures ArithmeticOk(cases, Ledger(rows, |rows|)) <==>
              && (forall i :: 0 <= i < |cases| ==> cases[i].disposition != Malformed)
              && (forall i, k :: 0 <= i < |cases| && 0 <= k < |rows| && rows[k] == Row(Some(cases[i].id), "GAP")
                                 && !Seen(rows, k, cases[i].id) ==>
                    cases[i].disposition !in {Pass, Fail, Undispositioned})
  {
    var ledger := Ledger(rows, |rows|);
    forall i | 0 <= i < |cases|
      ensures cases[i].id in LedgerGaps(ledger) <==>
                exists k :: 0 <= k < |rows| && rows[k] == Row(Some(cases[i].id), "GAP") && !Seen(rows, k, cases[i].id)
    {
      FirstRowDecides(rows, cases[i].id);
    }
    forall i | 0 <= i < |cases| && cases[i].id in LedgerGaps(ledger)
      ensures cases[i].id in Accounted(cases, ledger) <==> cases[i].disposition !in {Pass, Fail, Undispositioned, Malformed}
      ensures ById(cases, cases[i].id).Some?
    {
      AccountedFor(cases, ledger, i);
      ByIdFinds(cases, i);
    }
    NoneMalformed(cases);
    forall id | id in LedgerGaps(ledger) && ById(cases, id).Some?
      ensures exists i :: 0 <= i < |cases| && cases[i].id == id
    {
      assert ById(cases, id).value in cases;
    }
  }

  lemma NoneMalformed(cases: seq<CaseRecord>)
    ensures Ids(cases, IsMalformed) == [] <==> forall i :: 0 <= i < |cases| ==> cases[i].disposition != Malformed
  {
    var ids := Ids(cases, IsMalformed);
    forall i | 0 <= i < |cases| && cases[i].disposition == Malformed ensures |ids| > 0 {
      InIds(cases, IsMalformed, cases[i].id);
    }
    if |ids| > 0 {
      InIds(cases, IsMalformed, ids[0]);
    }
  }

  lemma OneFirst(rows: seq<Row>, i: nat, k: nat, id: string)
    requires i < |rows| && k < |rows| && rows[i].id == rows[k].id == Some(id)
    requires !Seen(rows, i, id) && !Seen(rows, k, id)
    ensures i == k
  {
  }

  lemma FirstRowDecides(rows: seq<Row>, id: string)
    ensures id in LedgerGaps(Ledger(rows, |rows|)) <==>
              exists k :: 0 <= k < |rows| && rows[k] == Row(Some(id), "GAP") && !Seen(rows, k, id)
  {
    LedgerHasFirst(rows, |rows|, id);
    var ledger := Ledger(rows, |rows|);
    if id in ledger {
      var i :| 0 <= i < |rows| && rows[i] == ledger[id] && rows[i].id == Some(id) && !Seen(rows, i, id);
      forall k | 0 <= k < |rows| && rows[k].id == Some(id) && !Seen(rows, k, id) ensures k == i {
        OneFirst(rows, i, k, id);
      }
    } else {
      forall k | 0 <= k < |rows| ensures rows[k].id != Some(id) {
        assert !Seen(rows, |rows|, id);
      }
    }
  }

  /** The two gap lists together are the gap list. */
  lemma {:induction false} GapListsAddUp(cases: seq<CaseRecord>)
    ensures multiset(Ids(cases, IsGap)) == multiset(Ids(cases, ResultLineGap)) + multiset(Ids(cases, NotesOnlyGap))
    decreases |cases|
  {
    if |cases| > 0 {
      var init, last := cases[..|cases| - 1], cases[|cases| - 1];
      GapListsAddUp(init);
      PerhapsAdds(Ids(init, IsGap), IsGap(last), last.id);
      PerhapsAdds(Ids(init, ResultLineGap), ResultLineGap(last), last.id);
      PerhapsAdds(Ids(init, NotesOnlyGap), NotesOnlyGap(last), last.id);
    }
  }

  /** With unique ids they share no case. */
  lemma GapListsDisjoint(cases: seq<CaseRecord>)
    requires UniqueIds(cases)
    ensures forall id :: !(id in Ids(cases, ResultLineGap) && id in Ids(cases, NotesOnlyGap))
  {
    forall id ensures !(id in Ids(cases, ResultLineGap) && id in Ids(cases, NotesOnlyGap)) {
      InIds(cases, ResultLineGap, id);
      InIds(cases, NotesOnlyGap, id);
    }
  }

  /** Every heading is counted under exactly one disposition. */
  lemma {:induction false} CountsSumToHeadings(cases: seq<CaseRecord>)
    ensures CountOf(cases, Gap) + CountOf(cases, Deferred) + CountOf(cases, Obsolete) + CountOf(cases, SkipOther)
          + CountOf(cases, Pass) + CountOf(cases, Fail) + CountOf(cases, Undispositioned) + CountOf(cases, Malformed)
         == |cases|
    decreases |cases|
  {
    if |cases| > 0 {
      CountsSumToHeadings(cases[..|cases| - 1]);
    }
  }
}
