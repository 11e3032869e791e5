/** Additive schema migration: columns that a registry names are added where a table lacks them. */
module Migration {
  /** A registry entry: columns of one table; a table may have several entries. */
  datatype Entry = Entry(table: string, columns: seq<string>)

  datatype Status = Added | AlreadyPresent

  datatype ColumnResult = ColumnResult(table: string, column: string, status: Status)

  // ---------------------------------------------------------------- what the columns become

  /** The columns not there yet, each once, in order. */
  function Missing(existing: seq<string>, columns: seq<string>): seq<string>
    decreases |columns|
  {
    if |columns| == 0 then []
    else
      var before, c := Missing(existing, columns[..|columns| - 1]), columns[|columns| - 1];
      if c in existing || c in before then before else before + [c]
  }

  /** How many columns are dealt with before a missing one comes up a second time. */
  function Accepted(existing: seq<string>, columns: seq<string>): (n: nat)
    ensures n <= |columns|
    decreases |columns|
  {
    if |columns| == 0 then 0
    else
      var last := |columns| - 1;
      var n := Accepted(existing, columns[..last]);
      if n < last then n
      else if columns[last] !in existing && columns[last] in columns[..last] then last
      else |columns|
  }

  /** All columns the first `n` entries register for a table. */
  function Registered(registry: seq<Entry>, n: nat, table: string): seq<string>
    requires n <= |registry|
    decreases n
  {
    if n == 0 then []
    else Registered(registry, n - 1, table) + if registry[n - 1].table == table then registry[n - 1].columns else []
  }

  function Report(existing: seq<string>, table: string, columns: seq<string>): seq<ColumnResult> {
    seq(|columns|, i requires 0 <= i < |columns| =>
      ColumnResult(table, columns[i], if columns[i] in existing then AlreadyPresent else Added))
  }

  /** The report depends on the columns the run started with only. */
  function FullReport(tables: map<string, seq<string>>, registry: seq<Entry>, n: nat): seq<ColumnResult>
    requires n <= |registry| && forall i :: 0 <= i < |registry| ==> registry[i].table in tables
    decreases n
  {
    if n == 0 then []
    else FullReport(tables, registry, n - 1) + Report(tables[registry[n - 1].table], registry[n - 1].table, registry[n - 1].columns)
  }

  /** The same tables, each with its old columns followed by the missing ones that the first `n` entries register. */
  ghost predicate Migrated(tables: map<string, seq<string>>, after: map<string, seq<string>>, registry: seq<Entry>, n: nat)
    requires n <= |registry|
  {
    && after.Keys == tables.Keys
    && forall t :: t in tables ==> after[t] == tables[t] + Missing(tables[t], Registered(registry, n, t))
  }

  ghost predicate Distinct(columns: seq<string>) {
    forall i, j :: 0 <= i < j < |columns| ==> columns[i] != columns[j]
  }

  ghost predicate WellFormed(registry: seq<Entry>) {
    forall i :: 0 <= i < |registry| ==> Distinct(registry[i].columns)
  }

  ghost predicate HasTables(tables: map<string, seq<string>>, registry: seq<Entry>) {
    forall i :: 0 <= i < |registry| ==> registry[i].table in tables
  }

  // ---------------------------------------------------------------- the database

  class Database {
    var tables: map<string, seq<string>>

    constructor (tables: map<string, seq<string>>)
      ensures this.tables == tables
    {
      this.tables := tables;
    }

    /** Add what is missing. The present columns are read once, before the first addition, so a
        missing column that is listed twice is added twice, which the database refuses. */
    method EnsureColumns(table: string, expected: seq<string>) returns (ok: bool)
      requires table in tables
      modifies this
      ensures ok <==> Accepted(old(tables)[table], expected) == |expected|
      ensures tables.Keys == old(tables).Keys
      ensures tables[table] == old(tables)[table] + Missing(old(tables)[table], expected[..Accepted(old(tables)[table], expected)])
      ensures ok ==> tables[table] == old(tables)[table] + Missing(old(tables)[table], expected)
      ensures forall t :: t in tables && t != table ==> tables[t] == old(tables)[t]
    {
      var existing := tables[table];
      for i := 0 to |expected|
        invariant tables.Keys == old(tables).Keys
        invariant tables[table] == existing + Missing(existing, expected[..i])
        invariant Accepted(existing, expected[..i]) == i
        invariant forall t :: t in tables && t != table ==> tables[t] == old(tables)[t]
      {
        assert expected[..i + 1][..i] == expected[..i];
        InMissing(existing, expected[..i], expected[i]);
        AcceptedOnward(existing, expected, i);
        if expected[i] !in existing {
          if expected[i] in tables[table] {
            return false;
          }
          tables := tables[table := tables[table] + [expected[i]]];
        }
      }
      assert expected[..|expected|] == expected;
      return true;
    }

    /** Report every registered column and, unless it is a dry run, add the missing ones. The
        inspector remembers each table as it first saw it. */
    method RunAdditiveMigration(registry: seq<Entry>, dryRun: bool) returns (results: seq<ColumnResult>)
      requires WellFormed(registry) && HasTables(tables, registry)
      modifies this
      ensures results == FullReport(old(tables), registry, |registry|)
      ensures if dryRun then tables == old(tables) else Migrated(old(tables), tables, registry, |registry|)
    {
      results := [];
      var seen := tables;
      for i := 0 to |registry|
        invariant results == FullReport(seen, registry, i)
        invariant if dryRun then tables == seen else Migrated(seen, tables, registry, i)
      {
        var report := MigrateEntry(registry, i, seen, dryRun);
        results := results + report;
      }
    }

    /** One entry: its results, and unless it is a dry run the columns it lacked at the start. */
    method MigrateEntry(registry: seq<Entry>, i: nat, seen: map<string, seq<string>>, dryRun: bool)
      returns (report: seq<ColumnResult>)
      requires i < |registry| && registry[i].table in seen && Distinct(registry[i].columns)
      requires if dryRun then tables == seen else Migrated(seen, tables, registry, i)
      modifies this
      ensures report == Report(seen[registry[i].table], registry[i].table, registry[i].columns)
      ensures if dryRun then tables == seen else Migrated(seen, tables, registry, i + 1)
    {
      var e := registry[i];
      var missing;
      report, missing := Classify(seen[e.table], e);
      if !dryRun {
        ghost var before := tables;
        if |missing| > 0 {
          NoneTwice(before[e.table], missing);
          var _ := EnsureColumns(e.table, missing);
        }
        StepForOthers(seen, before, tables, registry, i, missing);
      }
    }

    /** The column half of database creation: the entries of one table wait until it has been created. */
    method InitColumns(registry: seq<Entry>, late: string, lateColumns: seq<string>)
      requires WellFormed(registry) && HasTables(tables, registry) && late in tables && Distinct(lateColumns)
      requires lateColumns == Registered(registry, |registry|, late)
      modifies this
      ensures Migrated(old(tables), tables, registry, |registry|)
    {
      for i := 0 to |registry|
        invariant MigratedBut(old(tables), tables, registry, i, late)
      {
        var e := registry[i];
        if e.table != late {
          ghost var before := tables;
          NoneTwice(before[e.table], e.columns);
          var _ := EnsureColumns(e.table, e.columns);
          StepBut(old(tables), before, tables, registry, i, late);
        } else {
          StepLate(old(tables), tables, registry, i, late);
        }
      }
      NoneTwice(tables[late], lateColumns);
      var _ := EnsureColumns(late, lateColumns);
    }
  }

  /** All tables but one have got the columns of the first `n` entries. */
  ghost predicate MigratedBut(tables: map<string, seq<string>>, after: map<string, seq<string>>, registry: seq<Entry>, n: nat, late: string)
    requires n <= |registry|
  {
    && after.Keys == tables.Keys
    && (late in tables ==> after[late] == tables[late])
    && forall t :: t in tables && t != late ==> after[t] == tables[t] + Missing(tables[t], Registered(registry, n, t))
  }

  lemma StepBut(tables: map<string, seq<string>>, before: map<string, seq<string>>, after: map<string, seq<string>>,
                registry: seq<Entry>, i: nat, late: string)
    requires i < |registry| && registry[i].table != late && registry[i].table in tables
    requires MigratedBut(tables, before, registry, i, late)
    requires after.Keys == before.Keys
    requires var t := registry[i].table; after[t] == before[t] + Missing(before[t], registry[i].columns)
    requires forall t :: t in after && t != registry[i].table ==> after[t] == before[t]
    ensures MigratedBut(tables, after, registry, i + 1, late)
  {
    var e := registry[i];
    EnsuredTwice(tables[e.table], Registered(registry, i, e.table), e.columns);
    forall t | t in tables && t != e.table ensures Registered(registry, i + 1, t) == Registered(registry, i, t) {
      RegisteredElsewhere(registry, i, t);
    }
  }

  lemma StepLate(tables: map<string, seq<string>>, after: map<string, seq<string>>, registry: seq<Entry>, i: nat, late: string)
    requires i < |registry| && registry[i].table == late
    requires MigratedBut(tables, after, registry, i, late)
    ensures MigratedBut(tables, after, registry, i + 1, late)
  {
    forall t | t in tables && t != late ensures Registered(registry, i + 1, t) == Registered(registry, i, t) {
      RegisteredElsewhere(registry, i, t);
    }
  }

  lemma RegisteredElsewhere(registry: seq<Entry>, i: nat, t: string)
    requires i < |registry| && t != registry[i].table
    ensures Registered(registry, i + 1, t) == Registered(registry, i, t)
  {
  }

  /** The results for one entry, and the columns to add. */
  method Classify(existing: seq<string>, e: Entry) returns (report: seq<ColumnResult>, missing: seq<string>)
    requires Distinct(e.columns)
    ensures report == Report(existing, e.table, e.columns)
    ensures missing == Missing(existing, e.columns) && Distinct(missing)
  {
    report, missing := [], [];
    for i := 0 to |e.columns|
      invariant report == Report(existing, e.table, e.columns[..i])
      invariant missing == Missing(existing, e.columns[..i]) && Distinct(missing)
    {
      assert e.columns[..i + 1][..i] == e.columns[..i];
      InMissing(existing, e.columns[..i], e.columns[i]);
      if e.columns[i] in existing {
        report := report + [ColumnResult(e.table, e.columns[i], AlreadyPresent)];
      } else {
        report := report + [ColumnResult(e.table, e.columns[i], Added)];
        missing := missing + [e.columns[i]];
      }
    }
    assert e.columns[..|e.columns|] == e.columns;
  }

  // ---------------------------------------------------------------- how additions compose

  /** A column list is accepted as a whole if and only if no missing column is in it twice. */
  lemma {:induction false} AcceptedExactlyWhen(existing: seq<string>, columns: seq<string>)
    ensures Accepted(existing, columns) == |columns| <==>
              forall i, j :: 0 <= i < j < |columns| && columns[i] == columns[j] ==> columns[i] in existing
    decreases |columns|
  {
    if |columns| > 0 {
      var last := |columns| - 1;
      AcceptedExactlyWhen(existing, columns[..last]);
      if columns[last] !in existing && columns[last] in columns[..last] {
        var i :| 0 <= i < last && columns[..last][i] == columns[last];
        assert columns[i] == columns[last];
      }
      assert forall i :: 0 <= i < last ==> columns[..last][i] == columns[i];
    }
  }

  lemma NoneTwice(existing: seq<string>, columns: seq<string>)
    requires Distinct(columns)
    ensures Accepted(existing, columns) == |columns| && columns[..|columns|] == columns
  {
    AcceptedExactlyWhen(existing, columns);
  }

  /** Where the next column stops the additions, they stop for good. */
  lemma {:induction false} AcceptedOnward(existing: seq<string>, columns: seq<string>, i: nat)
    requires i < |columns| && Accepted(existing, columns[..i]) == i
    ensures Accepted(existing, columns[..i + 1]) == if columns[i] !in existing && columns[i] in columns[..i] then i else i + 1
    ensures columns[i] !in existing && columns[i] in columns[..i] ==> Accepted(existing, columns) == i
    decreases |columns|
  {
    assert columns[..i + 1][..i] == columns[..i];
    if columns[i] !in existing && columns[i] in columns[..i] {
      if i == |columns| - 1 {
        assert columns[..i + 1] == columns;
      } else {
        var init := columns[..|columns| - 1];
        assert init[..i] == columns[..i] && init[i] == columns[i];
        AcceptedOnward(existing, init, i);
      }
    }
  }

  lemma {:induction false} InMissing(existing: seq<string>, columns: seq<string>, c: string)
    ensures c in Missing(existing, columns) <==> c in columns && c !in existing
    decreases |columns|
  {
    if |columns| > 0 {
      InMissing(existing, columns[..|columns| - 1], c);
      assert columns == columns[..|columns| - 1] + [columns[|columns| - 1]];
    }
  }

  /** Adding two lists one after the other adds their concatenation. */
  lemma {:induction false} EnsuredTwice(existing: seq<string>, a: seq<string>, b: seq<string>)
    ensures var once := existing + Missing(existing, a);
            once + Missing(once, b) == existing + Missing(existing, a + b)
    decreases |b|
  {
    var once := existing + Missing(existing, a);
    if |b| == 0 {
      assert a + b == a;
      assert once + [] == once;
    } else {
      var init, c := b[..|b| - 1], b[|b| - 1];
      EnsuredTwice(existing, a, init);
      assert (a + b)[..|a + b| - 1] == a + init;
      InMissing(once, init, c);
      InMissing(existing, a, c);
      InMissing(existing, a + init, c);
      assert c in a + init <==> c in a || c in init;
      assert c in once <==> c in existing || c in Missing(existing, a);
      if c in existing || c in a + init {
        assert Missing(once, b) == Missing(once, init);
        assert Missing(existing, a + b) == Missing(existing, a + init);
      } else {
        assert Missing(once, b) == Missing(once, init) + [c];
        assert Missing(existing, a + b) == Missing(existing, a + init) + [c];
        var x, y := Missing(once, init), Missing(existing, a + init);
        assert once + (x + [c]) == (once + x) + [c] == (existing + y) + [c] == existing + (y + [c]);
      }
    }
  }

  /** Adding only what an earlier look found missing adds the same columns. */
  lemma {:induction false} MissingOfMissing(existing: seq<string>, more: seq<string>, columns: seq<string>)
    ensures Missing(existing + more, Missing(existing, columns)) == Missing(existing + more, columns)
    decreases |columns|
  {
    if |columns| > 0 {
      var init, c := columns[..|columns| - 1], columns[|columns| - 1];
      MissingOfMissing(existing, more, init);
      InMissing(existing, init, c);
      InMissing(existing + more, init, c);
      if c !in existing && c !in Missing(existing, init) {
        assert (Missing(existing, init) + [c])[..|Missing(existing, init)|] == Missing(existing, init);
      }
    }
  }

  /** One more entry, of which only the part missing at the start is added. */
  lemma StepForTable(existing: seq<string>, registry: seq<Entry>, i: nat, missing: seq<string>)
    requires i < |registry| && missing == Missing(existing, registry[i].columns)
    ensures var t := registry[i].table;
            var before := existing + Missing(existing, Registered(registry, i, t));
            before + Missing(before, missing) == existing + Missing(existing, Registered(registry, i + 1, t))
  {
    var e := registry[i];
    MissingOfMissing(existing, Missing(existing, Registered(registry, i, e.table)), e.columns);
    EnsuredTwice(existing, Registered(registry, i, e.table), e.columns);
  }

  lemma StepForOthers(tables: map<string, seq<string>>, before: map<string, seq<string>>, after: map<string, seq<string>>,
                      registry: seq<Entry>, i: nat, missing: seq<string>)
    requires i < |registry| && registry[i].table in tables
    requires missing == Missing(tables[registry[i].table], registry[i].columns)
    requires Migrated(tables, before, registry, i)
    requires after.Keys == before.Keys
    requires var t := registry[i].table; after[t] == before[t] + Missing(before[t], missing)
    requires forall t :: t in after && t != registry[i].table ==> after[t] == before[t]
    ensures Migrated(tables, after, registry, i + 1)
  {
    StepForTable(tables[registry[i].table], registry, i, missing);
    forall t | t in tables && t != registry[i].table ensures Registered(registry, i + 1, t) == Registered(registry, i, t) {
      RegisteredElsewhere(registry, i, t);
    }
  }

  // ---------------------------------------------------------------- what a run achieves

  /** Each table ends with its old columns followed by exactly the registered ones it lacked, each
      once; tables without an entry stay. */
  lemma MigratedColumns(tables: map<string, seq<string>>, migrated: map<string, seq<string>>, registry: seq<Entry>, t: string)
    requires t in tables && Migrated(tables, migrated, registry, |registry|)
    ensures var after := migrated[t];
            && |tables[t]| <= |after| && after[..|tables[t]|] == tables[t]
            && (forall c :: c in after[|tables[t]|..] <==> c in Registered(registry, |registry|, t) && c !in tables[t])
            && Distinct(after[|tables[t]|..])
    ensures forall c :: c in Registered(registry, |registry|, t) <==>
              exists i :: 0 <= i < |registry| && registry[i].table == t && c in registry[i].columns
  {
    var all := Registered(registry, |registry|, t);
    var added := Missing(tables[t], all);
    assert migrated[t][|tables[t]|..] == added;
    forall c ensures c in added <==> c in all && c !in tables[t] {
      InMissing(tables[t], all, c);
    }
    MissingDistinct(tables[t], all);
    forall c ensures c in all <==> exists i :: 0 <= i < |registry| && registry[i].table == t && c in registry[i].columns {
      InRegistered(registry, |registry|, t, c);
    }
  }

  lemma {:induction false} MissingDistinct(existing: seq<string>, columns: seq<string>)
    ensures Distinct(Missing(existing, columns))
    decreases |columns|
  {
    if |columns| > 0 {
      MissingDistinct(existing, columns[..|columns| - 1]);
    }
  }

  lemma {:induction false} InRegistered(registry: seq<Entry>, n: nat, t: string, c: string)
    requires n <= |registry|
    ensures c in Registered(registry, n, t) <==> exists i :: 0 <= i < n && registry[i].table == t && c in registry[i].columns
    decreases n
  {
    if n > 0 {
      InRegistered(registry, n - 1, t, c);
    }
  }

  lemma {:induction false} AllPresent(tables: map<string, seq<string>>, registry: seq<Entry>, n: nat)
    requires n <= |registry| && HasTables(tables, registry)
    requires forall i, c :: 0 <= i < |registry| && c in registry[i].columns ==> c in tables[registry[i].table]
    ensures forall k :: 0 <= k < |FullReport(tables, registry, n)| ==> FullReport(tables, registry, n)[k].status.AlreadyPresent?
    decreases n
  {
    if n > 0 {
      AllPresent(tables, registry, n - 1);
    }
  }

  lemma {:induction false} NothingMissing(existing: seq<string>, columns: seq<string>)
    requires forall c :: c in columns ==> c in existing
    ensures Missing(existing, columns) == []
    decreases |columns|
  {
    if |columns| > 0 {
      NothingMissing(existing, columns[..|columns| - 1]);
    }
  }

  /** A further run, after a migration or after database creation, finds every column present
      and changes nothing. */
  lemma SecondRunChangesNothing(tables: map<string, seq<string>>, after: map<string, seq<string>>,
                                again: map<string, seq<string>>, registry: seq<Entry>)
    requires HasTables(tables, registry)
    requires Migrated(tables, after, registry, |registry|) && Migrated(after, again, registry, |registry|)
    ensures HasTables(after, registry)
    ensures again == after
    ensures forall k :: 0 <= k < |FullReport(after, registry, |registry|)| ==>
              FullReport(after, registry, |registry|)[k].status.AlreadyPresent?
  {
    forall t, c | t in tables && c in Registered(registry, |registry|, t) ensures c in after[t] {
      InMissing(tables[t], Registered(registry, |registry|, t), c);
    }
    forall i, c | 0 <= i < |registry| && c in registry[i].columns ensures c in after[registry[i].table] {
      InRegistered(registry, |registry|, registry[i].table, c);
    }
    forall t | t in tables ensures again[t] == after[t] {
      NothingMissing(after[t], Registered(registry, |registry|, t));
    }
    AllPresent(after, registry, |registry|);
  }
}
