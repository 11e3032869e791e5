/** What a migration reports and where the columns end up, said about the registry itself. */
module MigrationMeaning {
  import opened Migration
  import opened Sequences

  /** One entry's part of the report: a line for each of its columns, in order, telling whether the
      table had the column when the run started. */
  ghost predicate Tells(tables: map<string, seq<string>>, e: Entry, lines: seq<ColumnResult>) {
    && |lines| == |e.columns|
    && forall k :: 0 <= k < |lines| ==>
         && lines[k].table == e.table && lines[k].column == e.columns[k]
         && (lines[k].status.Added? <==> e.table in tables && e.columns[k] !in tables[e.table])
  }

  ghost function Told(tables: map<string, seq<string>>, registry: seq<Entry>): (nat, seq<ColumnResult>) -> bool {
    (i: nat, lines: seq<ColumnResult>) => i < |registry| && Tells(tables, registry[i], lines)
  }

  lemma {:induction false} ReportTells(tables: map<string, seq<string>>, registry: seq<Entry>, n: nat)
    requires n <= |registry| && HasTables(tables, registry)
    ensures Pieced(FullReport(tables, registry, n), n, Told(tables, registry))
    decreases n
  {
    if n == 0 {
      PiecedNone(Told(tables, registry));
    } else {
      ReportTells(tables, registry, n - 1);
      var e := registry[n - 1];
      PiecedSnoc(FullReport(tables, registry, n - 1), n - 1, Told(tables, registry), Report(tables[e.table], e.table, e.columns));
    }
  }

  /** The report falls into one part for each entry of the registry, in order. */
  lemma ReportMeans(tables: map<string, seq<string>>, registry: seq<Entry>)
    requires HasTables(tables, registry)
    ensures Pieced(FullReport(tables, registry, |registry|), |registry|, Told(tables, registry))
  {
    ReportTells(tables, registry, |registry|);
  }

  /** The columns an entry registers for the table. */
  ghost function Given(registry: seq<Entry>, table: string): (nat, seq<string>) -> bool {
    (i: nat, columns: seq<string>) =>
      i < |registry| && columns == if registry[i].table == table then registry[i].columns else []
  }

  lemma {:induction false} RegisteredIs(registry: seq<Entry>, n: nat, table: string)
    requires n <= |registry|
    ensures Pieced(Registered(registry, n, table), n, Given(registry, table))
    decreases n
  {
    if n == 0 {
      PiecedNone(Given(registry, table));
    } else {
      RegisteredIs(registry, n - 1, table);
      PiecedSnoc(Registered(registry, n - 1, table), n - 1, Given(registry, table),
                 if registry[n - 1].table == table then registry[n - 1].columns else []);
    }
  }

  /** The place at which a column not there yet is listed first. */
  ghost predicate NewAt(existing: seq<string>, columns: seq<string>, i: nat) {
    i < |columns| && columns[i] !in existing && forall j :: 0 <= j < i ==> columns[j] != columns[i]
  }

  /** `added` are the columns not there yet, in the order in which they are listed first. */
  ghost predicate FirstListed(existing: seq<string>, columns: seq<string>, added: seq<string>) {
    exists at: seq<nat> :: Places(existing, columns, added, at)
  }

  ghost predicate Places(existing: seq<string>, columns: seq<string>, added: seq<string>, at: seq<nat>) {
    && |at| == |added|
    && (forall k :: 0 <= k < |at| ==> NewAt(existing, columns, at[k]) && added[k] == columns[at[k]])
    && (forall k, l :: 0 <= k < l < |at| ==> at[k] < at[l])
    && (forall i: nat :: NewAt(existing, columns, i) ==> i in at)
  }

  lemma NewUpTo(existing: seq<string>, columns: seq<string>)
    requires |columns| > 0
    ensures forall i: nat :: i < |columns| - 1 ==>
              (NewAt(existing, columns[..|columns| - 1], i) <==> NewAt(existing, columns, i))
  {
    var init := columns[..|columns| - 1];
    assert forall j :: 0 <= j < |init| ==> init[j] == columns[j];
  }

  lemma {:induction false} MissingIs(existing: seq<string>, columns: seq<string>)
    ensures FirstListed(existing, columns, Missing(existing, columns))
    decreases |columns|
  {
    if |columns| == 0 {
      assert Places(existing, columns, [], []);
    } else {
      var init, c := columns[..|columns| - 1], columns[|columns| - 1];
      MissingIs(existing, init);
      InMissing(existing, init, c);
      LastPlace(existing, columns, Missing(existing, init));
    }
  }

  lemma LastPlace(existing: seq<string>, columns: seq<string>, before: seq<string>)
    requires |columns| > 0 && FirstListed(existing, columns[..|columns| - 1], before)
    ensures var c := columns[|columns| - 1];
            FirstListed(existing, columns, if c in existing || c in columns[..|columns| - 1] then before else before + [c])
  {
    var at: seq<nat> :| Places(existing, columns[..|columns| - 1], before, at);
    NewUpTo(existing, columns);
    LastIsNew(existing, columns);
    if NewAt(existing, columns, |columns| - 1) {
      OneMorePlace(existing, columns, before, at);
    } else {
      NoMorePlace(existing, columns, before, at);
    }
  }

  lemma LastIsNew(existing: seq<string>, columns: seq<string>)
    requires |columns| > 0
    ensures var last := |columns| - 1;
            NewAt(existing, columns, last) <==> columns[last] !in existing && columns[last] !in columns[..last]
  {
    var last := |columns| - 1;
    if columns[last] in columns[..last] {
      var j :| 0 <= j < last && columns[..last][j] == columns[last];
      assert columns[j] == columns[last];
    }
    if j :| 0 <= j < last && columns[j] == columns[last] {
      assert columns[..last][j] == columns[last];
    }
  }

  lemma NoMorePlace(existing: seq<string>, columns: seq<string>, before: seq<string>, at: seq<nat>)
    requires |columns| > 0 && !NewAt(existing, columns, |columns| - 1)
    requires Places(existing, columns[..|columns| - 1], before, at)
    requires forall i: nat :: i < |columns| - 1 ==>
               (NewAt(existing, columns[..|columns| - 1], i) <==> NewAt(existing, columns, i))
    ensures Places(existing, columns, before, at)
  {
    forall i: nat | NewAt(existing, columns, i) ensures i in at {
      assert NewAt(existing, columns[..|columns| - 1], i);
    }
  }

  lemma OneMorePlace(existing: seq<string>, columns: seq<string>, before: seq<string>, at: seq<nat>)
    requires |columns| > 0 && NewAt(existing, columns, |columns| - 1)
    requires Places(existing, columns[..|columns| - 1], before, at)
    requires forall i: nat :: i < |columns| - 1 ==>
               (NewAt(existing, columns[..|columns| - 1], i) <==> NewAt(existing, columns, i))
    ensures Places(existing, columns, before + [columns[|columns| - 1]], at + [|columns| - 1])
  {
    var last := |columns| - 1;
    var at' := at + [last];
    forall i: nat | NewAt(existing, columns, i) ensures i in at' {
      if i < last {
        assert i in at;
      } else {
        assert at'[|at|] == i;
      }
    }
  }

  /** What a migration adds to a table, in which order: what `Missing` lists, of the columns of the
      table's entries laid end to end. */
  lemma MigratedInOrder(tables: map<string, seq<string>>, migrated: map<string, seq<string>>, registry: seq<Entry>, t: string)
    requires t in tables && Migrated(tables, migrated, registry, |registry|)
    ensures t in migrated
    ensures exists all, added ::
              && Pieced(all, |registry|, Given(registry, t))
              && FirstListed(tables[t], all, added)
              && migrated[t] == tables[t] + added
  {
    var all := Registered(registry, |registry|, t);
    RegisteredIs(registry, |registry|, t);
    MissingIs(tables[t], all);
    assert migrated[t] == tables[t] + Missing(tables[t], all);
  }

  /** Additions stop at the first column that is missing and listed before, if there is one. */
  lemma {:induction false} StopsWhere(existing: seq<string>, columns: seq<string>, i: nat)
    requires i < |columns|
    ensures Accepted(existing, columns) == i <==>
            && Again(existing, columns, i)
            && forall j :: 0 <= j < i ==> !Again(existing, columns, j)
    decreases |columns|
  {
    var last := |columns| - 1;
    var init := columns[..last];
    AgainUpTo(existing, columns);
    if i < last {
      StopsWhere(existing, init, i);
      assert forall j :: 0 <= j < i ==> init[j] == columns[j];
    } else {
      AcceptedExactlyWhen(existing, init);
      NoneAgain(existing, init);
    }
  }

  ghost predicate Again(existing: seq<string>, columns: seq<string>, i: nat) {
    i < |columns| && columns[i] !in existing && exists j :: 0 <= j < i && columns[j] == columns[i]
  }

  lemma AgainUpTo(existing: seq<string>, columns: seq<string>)
    requires |columns| > 0
    ensures var last := |columns| - 1;
            && (forall i: nat :: i < last ==> (Again(existing, columns[..last], i) <==> Again(existing, columns, i)))
            && (Again(existing, columns, last) <==> columns[last] !in existing && columns[last] in columns[..last])
  {
    var last := |columns| - 1;
    forall i: nat | i < last ensures Again(existing, columns[..last], i) <==> Again(existing, columns, i) {
      assert forall j :: 0 <= j <= i ==> columns[..last][j] == columns[j];
    }
    LastIsNew(existing, columns);
  }

  lemma NoneAgain(existing: seq<string>, columns: seq<string>)
    ensures (forall i, j :: 0 <= i < j < |columns| && columns[i] == columns[j] ==> columns[i] in existing)
            <==> forall j: nat :: j < |columns| ==> !Again(existing, columns, j)
  {
    if i, j :| 0 <= i < j < |columns| && columns[i] == columns[j] && columns[i] !in existing {
      assert Again(existing, columns, j);
    }
  }
}
