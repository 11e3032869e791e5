/** Latest hardware rows: a join on each key's newest successful timestamp, deduplicated by id. */
module LatestRows {
  import opened Wrappers

  datatype Device = Device(id: nat, host: string, port: int, vendor: string, success: bool, at: int) {
    function Key(): (string, int) {
      (host, port)
    }
  }

  ghost predicate UniqueIds(table: seq<Device>) {
    forall i, j :: 0 <= i < j < |table| ==> table[i].id != table[j].id
  }

  /** Newest first, the higher id first among equals. */
  predicate Before(a: Device, b: Device) {
    a.at > b.at || (a.at == b.at && a.id > b.id)
  }

  predicate Successful(d: Device) {
    d.success
  }

  function OfVendor(vendor: string): Device -> bool {
    (d: Device) => d.success && d.vendor == vendor
  }

  // ---------------------------------------------------------------- the queries

  /** `max(scanned_at)` over the kept rows of a key. */
  function Newest(table: seq<Device>, keep: Device -> bool, key: (string, int)): Option<int>
    decreases |table|
  {
    if |table| == 0 then None
    else
      var before, d := Newest(table[..|table| - 1], keep, key), table[|table| - 1];
      if !keep(d) || d.Key() != key then before
      else if before.None? || before.value < d.at then Some(d.at)
      else before
  }

  /** The outer join: on key and timestamp only, the filter is not repeated. */
  function Joined(table: seq<Device>, keep: Device -> bool): seq<Device> {
    Chosen(table, (d: Device) => Newest(table, keep, d.Key()) == Some(d.at))
  }

  function Chosen(rows: seq<Device>, so: Device -> bool): seq<Device>
    decreases |rows|
  {
    if |rows| == 0 then []
    else Chosen(rows[..|rows| - 1], so) + if so(rows[|rows| - 1]) then [rows[|rows| - 1]] else []
  }

  function Insert(d: Device, rows: seq<Device>): seq<Device>
    decreases |rows|
  {
    if |rows| == 0 || Before(d, rows[0]) then [d] + rows else [rows[0]] + Insert(d, rows[1..])
  }

  function Sort(rows: seq<Device>): seq<Device>
    decreases |rows|
  {
    if |rows| == 0 then [] else Insert(rows[|rows| - 1], Sort(rows[..|rows| - 1]))
  }

  function Limited(rows: seq<Device>, limit: nat): seq<Device> {
    if limit < |rows| then rows[..limit] else rows
  }

  function Recent(table: seq<Device>, key: (string, int), limit: nat): seq<Device> {
    Limited(Sort(Chosen(table, (d: Device) => d.Key() == key && d.success)), limit)
  }

  // ---------------------------------------------------------------- what is asked for

  /** A successful row, of the vendor if one is given. */
  ghost predicate Wanted(vendor: Option<string>, d: Device) {
    d.success && (vendor.Some? ==> d.vendor == vendor.value)
  }

  ghost predicate SameDevice(a: Device, b: Device) {
    a.host == b.host && a.port == b.port
  }

  /** What the queries return for a device: of the rows at the time of its newest wanted one, wanted or
      not, the one with the highest id. */
  ghost predicate IsLatest(table: seq<Device>, vendor: Option<string>, d: Device) {
    && d in table
    && (exists e :: e in table && Wanted(vendor, e) && SameDevice(e, d) && e.at == d.at)
    && (forall e :: e in table && Wanted(vendor, e) && SameDevice(e, d) ==> e.at <= d.at)
    && (forall e :: e in table && SameDevice(e, d) && e.at == d.at ==> e.id <= d.id)
  }

  /** Newest first, and the higher id first among equals. */
  ghost predicate Newer(a: Device, b: Device) {
    a.at > b.at || (a.at == b.at && a.id > b.id)
  }

  /** At most `limit` of the rows asked for, newest first; those left out are older than all of them. */
  ghost predicate Top(result: seq<Device>, asked: Device -> bool, limit: nat) {
    && |result| <= limit
    && (forall i :: 0 <= i < |result| ==> asked(result[i]))
    && (forall i, j :: 0 <= i < j < |result| ==> Newer(result[i], result[j]))
    && (forall d :: asked(d) ==> d in result || (|result| == limit && forall e :: e in result ==> Newer(e, d)))
  }

  // ---------------------------------------------------------------- the dedupe loops

  /** One row per key of `rows`, the one with the highest id. */
  ghost predicate Deduped(rows: seq<Device>, result: seq<Device>) {
    && (forall i, j :: 0 <= i < j < |result| ==> result[i].Key() != result[j].Key())
    && (forall d :: d in result ==> d in rows)
    && (forall d :: d in rows ==> Covered(result, d))
  }

  ghost predicate Covered(result: seq<Device>, d: Device) {
    exists i :: 0 <= i < |result| && result[i].Key() == d.Key() && d.id <= result[i].id
  }

  function Index(rows: seq<Device>, key: (string, int)): (r: Option<nat>)
    ensures r.Some? ==> r.value < |rows| && rows[r.value].Key() == key
    ensures r.None? ==> forall i :: 0 <= i < |rows| ==> rows[i].Key() != key
    decreases |rows|
  {
    if |rows| == 0 then None
    else if rows[|rows| - 1].Key() == key then Some(|rows| - 1)
    else Index(rows[..|rows| - 1], key)
  }

  /** What one more row does to the dictionary; a replaced value keeps its place. */
  function Entered(result: seq<Device>, d: Device): seq<Device> {
    var at := Index(result, d.Key());
    if at.None? then result + [d] else if d.id > result[at.value].id then result[at.value := d] else result
  }

  method Dedupe(rows: seq<Device>) returns (result: seq<Device>)
    ensures Deduped(rows, result)
  {
    result := [];
    for k := 0 to |rows|
      invariant Deduped(rows[..k], result)
    {
      var d := rows[k];
      EnteredDeduped(rows[..k], d, result);
      assert rows[..k + 1] == rows[..k] + [d];
      var at := Index(result, d.Key());
      if at.None? {
        result := result + [d];
      } else if d.id > result[at.value].id {
        result := result[at.value := d];
      }
    }
    assert rows[..|rows|] == rows;
  }

  lemma EnteredCovers(result: seq<Device>, d: Device, e: Device)
    requires Covered(result, e)
    ensures Covered(Entered(result, d), e)
  {
    var i :| 0 <= i < |result| && result[i].Key() == e.Key() && e.id <= result[i].id;
    var after := Entered(result, d);
    assert after[i].Key() == e.Key() && e.id <= after[i].id;
  }

  lemma EnteredDeduped(rows: seq<Device>, d: Device, result: seq<Device>)
    requires Deduped(rows, result)
    ensures Deduped(rows + [d], Entered(result, d))
  {
    var after, at := Entered(result, d), Index(result, d.Key());
    var place := if at.None? then |result| else at.value;
    assert after[place].Key() == d.Key() && d.id <= after[place].id;
    forall e | e in rows + [d] ensures Covered(after, e) {
      if e in rows {
        EnteredCovers(result, d, e);
      }
    }
    forall e | e in after ensures e in rows + [d] {
      if e != d {
        assert e in result;
      }
    }
  }

  method LatestSuccessful(table: seq<Device>) returns (result: seq<Device>)
    ensures Deduped(Joined(table, Successful), result)
    ensures UniqueIds(table) ==> forall d :: d in result <==> IsLatest(table, None, d)
    ensures forall i, j :: 0 <= i < j < |result| ==> !SameDevice(result[i], result[j])
  {
    result := Dedupe(Joined(table, Successful));
    forall i, j | 0 <= i < j < |result| ensures !SameDevice(result[i], result[j]) {
      KeysTell(result[i], result[j]);
    }
    if UniqueIds(table) {
      ReturnedAreLatest(table, Successful, None, result);
    }
  }

  method VendorSnapshot(table: seq<Device>, vendor: string, limit: nat) returns (result: seq<Device>)
    ensures exists full :: Deduped(Joined(table, OfVendor(vendor)), full) && result == Limited(Sort(full), limit)
    ensures UniqueIds(table) ==> Top(result, d => IsLatest(table, Some(vendor), d), limit)
  {
    var rows := Sort(Joined(table, OfVendor(vendor)));
    var full := Dedupe(rows);
    SortKeeps(Joined(table, OfVendor(vendor)));
    assert Deduped(Joined(table, OfVendor(vendor)), full);
    result := Limited(Sort(full), limit);
    if UniqueIds(table) {
      ReturnedAreLatest(table, OfVendor(vendor), Some(vendor), full);
      DedupedUnique(table, OfVendor(vendor), full);
      FirstAreTop(full, limit, d => IsLatest(table, Some(vendor), d));
    }
  }

  // ---------------------------------------------------------------- what the queries mean

  /** The greatest kept row of a key: newest, then highest id. */
  ghost predicate Greatest(table: seq<Device>, keep: Device -> bool, key: (string, int), d: Device) {
    && d in table && keep(d) && d.Key() == key
    && forall e :: e in table && keep(e) && e.Key() == key && e != d ==> Before(d, e)
  }

  lemma {:induction false} NewestIs(table: seq<Device>, keep: Device -> bool, key: (string, int))
    ensures Newest(table, keep, key).None? <==> forall d :: d in table && keep(d) ==> d.Key() != key
    ensures Newest(table, keep, key).Some? ==>
              && (exists d :: d in table && keep(d) && d.Key() == key && d.at == Newest(table, keep, key).value)
              && (forall d :: d in table && keep(d) && d.Key() == key ==> d.at <= Newest(table, keep, key).value)
    decreases |table|
  {
    if |table| > 0 {
      NewestIs(table[..|table| - 1], keep, key);
      assert table == table[..|table| - 1] + [table[|table| - 1]];
    }
  }

  lemma {:induction false} InChosen(rows: seq<Device>, so: Device -> bool, d: Device)
    ensures d in Chosen(rows, so) <==> d in rows && so(d)
    decreases |rows|
  {
    if |rows| > 0 {
      InChosen(rows[..|rows| - 1], so, d);
      assert rows == rows[..|rows| - 1] + [rows[|rows| - 1]];
    }
  }

  lemma InJoined(table: seq<Device>, keep: Device -> bool, d: Device)
    ensures d in Joined(table, keep) <==> d in table && Newest(table, keep, d.Key()) == Some(d.at)
  {
    InChosen(table, (e: Device) => Newest(table, keep, e.Key()) == Some(e.at), d);
  }

  lemma SameIdSameRow(table: seq<Device>, a: Device, b: Device)
    requires UniqueIds(table) && a in table && b in table && a.id == b.id
    ensures a == b
  {
  }

  /** A row returned for a key has the newest kept timestamp and the highest id of all rows,
      kept or not, of that key and time. */
  lemma ReturnedRow(table: seq<Device>, keep: Device -> bool, result: seq<Device>, d: Device)
    requires UniqueIds(table) && Deduped(Joined(table, keep), result) && d in result
    ensures d in table && Newest(table, keep, d.Key()) == Some(d.at)
    ensures forall e :: e in table && e.Key() == d.Key() && e.at == d.at ==> e.id <= d.id
  {
    InJoined(table, keep, d);
    forall e | e in table && e.Key() == d.Key() && e.at == d.at ensures e.id <= d.id {
      InJoined(table, keep, e);
      assert Covered(result, e);
      var i :| 0 <= i < |result| && result[i].Key() == e.Key() && e.id <= result[i].id;
      var k :| 0 <= k < |result| && result[k] == d;
      assert i == k;
    }
  }

  lemma KeysTell(a: Device, b: Device)
    ensures a.Key() == b.Key() <==> SameDevice(a, b)
  {
  }

  /** A row is returned if and only if it is the latest of its device. */
  lemma ReturnedAreLatest(table: seq<Device>, keep: Device -> bool, vendor: Option<string>, result: seq<Device>)
    requires UniqueIds(table) && Deduped(Joined(table, keep), result)
    requires forall d :: keep(d) <==> Wanted(vendor, d)
    ensures forall d :: d in result <==> IsLatest(table, vendor, d)
  {
    forall d ensures d in result <==> IsLatest(table, vendor, d) {
      if d in result {
        ReturnedIsLatest(table, keep, vendor, result, d);
      }
      if IsLatest(table, vendor, d) {
        LatestIsReturned(table, keep, vendor, result, d);
      }
    }
  }

  lemma ReturnedIsLatest(table: seq<Device>, keep: Device -> bool, vendor: Option<string>, result: seq<Device>, d: Device)
    requires UniqueIds(table) && Deduped(Joined(table, keep), result) && d in result
    requires forall e :: keep(e) <==> Wanted(vendor, e)
    ensures IsLatest(table, vendor, d)
  {
    ReturnedRow(table, keep, result, d);
    NewestIs(table, keep, d.Key());
    var e :| e in table && keep(e) && e.Key() == d.Key() && e.at == d.at;
    KeysTell(e, d);
    assert Wanted(vendor, e) && SameDevice(e, d);
    forall f | f in table && SameDevice(f, d) ensures f.Key() == d.Key() {
      KeysTell(f, d);
    }
  }

  lemma LatestIsReturned(table: seq<Device>, keep: Device -> bool, vendor: Option<string>, result: seq<Device>, d: Device)
    requires UniqueIds(table) && Deduped(Joined(table, keep), result) && IsLatest(table, vendor, d)
    requires forall e :: keep(e) <==> Wanted(vendor, e)
    ensures d in result
  {
    NewestIs(table, keep, d.Key());
    var e :| e in table && Wanted(vendor, e) && SameDevice(e, d) && e.at == d.at;
    KeysTell(e, d);
    var f :| f in table && keep(f) && f.Key() == d.Key() && f.at == Newest(table, keep, d.Key()).value;
    KeysTell(f, d);
    InJoined(table, keep, d);
    assert Covered(result, d);
    var i :| 0 <= i < |result| && result[i].Key() == d.Key() && d.id <= result[i].id;
    InJoined(table, keep, result[i]);
    KeysTell(result[i], d);
    SameIdSameRow(table, d, result[i]);
  }

  lemma FirstAreTop(full: seq<Device>, limit: nat, asked: Device -> bool)
    requires UniqueIds(full) && forall d :: d in full <==> asked(d)
    ensures Top(Limited(Sort(full), limit), asked, limit)
  {
    var sorted, result := Sort(full), Limited(Sort(full), limit);
    SortDescending(full);
    SortKeeps(full);
    forall d | asked(d) ensures d in result || (|result| == limit && forall e :: e in result ==> Newer(e, d)) {
      var k :| 0 <= k < |sorted| && sorted[k] == d;
      if k < |result| {
        assert result[k] == d;
      } else {
        forall e | e in result ensures Newer(e, d) {
          var i :| 0 <= i < |result| && result[i] == e;
          assert Before(sorted[i], sorted[k]);
        }
      }
    }
    forall i | 0 <= i < |result| ensures asked(result[i]) {
      assert sorted[i] in full;
    }
    forall i, j | 0 <= i < j < |result| ensures Newer(result[i], result[j]) {
      assert Before(sorted[i], sorted[j]);
    }
  }

  ghost predicate InHistory(table: seq<Device>, host: string, port: int, d: Device) {
    d in table && d.host == host && d.port == port && d.success
  }

  /** The history of a device is its newest successful rows. */
  lemma HistoryMeans(table: seq<Device>, host: string, port: int, limit: nat)
    requires UniqueIds(table)
    ensures Top(Recent(table, (host, port), limit), d => InHistory(table, host, port, d), limit)
  {
    var so := (d: Device) => d.Key() == (host, port) && d.success;
    var rows := Chosen(table, so);
    ChosenUnique(table, so);
    forall d ensures d in rows <==> InHistory(table, host, port, d) {
      InChosen(table, so, d);
      KeyIs(d);
    }
    FirstAreTop(rows, limit, d => InHistory(table, host, port, d));
  }

  lemma KeyIs(d: Device)
    ensures d.Key() == (d.host, d.port)
  {
  }

  /** Each key with a kept row gets one row, and it is the greatest kept row if and only if the row
      with the highest id at the key's newest kept time is a kept one. */
  lemma ReturnsGreatestExactlyWhen(table: seq<Device>, keep: Device -> bool, result: seq<Device>, d: Device)
    requires UniqueIds(table) && Deduped(Joined(table, keep), result) && d in result
    ensures Greatest(table, keep, d.Key(), d) <==>
              exists e :: && e in table && keep(e) && e.Key() == d.Key()
                          && Newest(table, keep, e.Key()) == Some(e.at)
                          && forall f :: f in table && f.Key() == e.Key() && f.at == e.at ==> f.id <= e.id
  {
    ReturnedRow(table, keep, result, d);
    NewestIs(table, keep, d.Key());
    if e :| && e in table && keep(e) && e.Key() == d.Key()
            && Newest(table, keep, e.Key()) == Some(e.at)
            && forall f :: f in table && f.Key() == e.Key() && f.at == e.at ==> f.id <= e.id {
      SameIdSameRow(table, d, e);
      forall f | f in table && keep(f) && f.Key() == d.Key() && f != d ensures Before(d, f) {
        if f.id == d.id {
          SameIdSameRow(table, d, f);
        }
      }
    }
  }

  lemma EveryKeyReturned(table: seq<Device>, keep: Device -> bool, result: seq<Device>, key: (string, int))
    requires Deduped(Joined(table, keep), result)
    ensures (exists i :: 0 <= i < |result| && result[i].Key() == key) <==> exists d :: d in table && keep(d) && d.Key() == key
  {
    NewestIs(table, keep, key);
    if Newest(table, keep, key).Some? {
      var d :| d in table && keep(d) && d.Key() == key && d.at == Newest(table, keep, key).value;
      InJoined(table, keep, d);
      assert Covered(result, d);
    } else {
      forall i | 0 <= i < |result| ensures result[i].Key() != key {
        InJoined(table, keep, result[i]);
      }
    }
  }

  /** Rows of one key and time are all kept or all not: what the join relies on. */
  ghost predicate Agree(table: seq<Device>, keep: Device -> bool) {
    forall a, b :: a in table && b in table && a.Key() == b.Key() && a.at == b.at && keep(a) ==> keep(b)
  }

  lemma AgreementSuffices(table: seq<Device>, keep: Device -> bool, result: seq<Device>, d: Device)
    requires UniqueIds(table) && Agree(table, keep) && Deduped(Joined(table, keep), result) && d in result
    ensures Greatest(table, keep, d.Key(), d)
  {
    ReturnedRow(table, keep, result, d);
    NewestIs(table, keep, d.Key());
    var e :| e in table && keep(e) && e.Key() == d.Key() && e.at == d.at;
    assert keep(d);
    ReturnsGreatestExactlyWhen(table, keep, result, d);
  }

  /** Without agreement it fails: a failed probe in the same second hides the successful row. */
  lemma FailedProbeInTheSameSecond()
    ensures var ok, failed := Device(1, "h", 22, "v", true, 7), Device(2, "h", 22, "v", false, 7);
            Deduped(Joined([ok, failed], Successful), [failed]) && !failed.success
  {
    var ok, failed := Device(1, "h", 22, "v", true, 7), Device(2, "h", 22, "v", false, 7);
    var table := [ok, failed];
    assert table[..1] == [ok];
    assert Newest([ok], Successful, ("h", 22)) == Some(7);
    assert Newest(table, Successful, ("h", 22)) == Some(7);
    forall d ensures d in Joined(table, Successful) <==> d in table {
      InJoined(table, Successful, d);
    }
    assert [failed][0] == failed;
    assert Covered([failed], ok) && Covered([failed], failed);
  }

  // ---------------------------------------------------------------- against the history query

  ghost predicate Descending(rows: seq<Device>) {
    forall i, j :: 0 <= i < j < |rows| ==> Before(rows[i], rows[j])
  }

  lemma {:induction false} InsertKeeps(d: Device, rows: seq<Device>)
    ensures multiset(Insert(d, rows)) == multiset{d} + multiset(rows)
    decreases |rows|
  {
    if |rows| == 0 || Before(d, rows[0]) {
    } else {
      InsertKeeps(d, rows[1..]);
      assert rows == [rows[0]] + rows[1..];
    }
  }

  lemma {:induction false} SortKeeps(rows: seq<Device>)
    ensures multiset(Sort(rows)) == multiset(rows)
    ensures forall d :: d in Sort(rows) <==> d in rows
    decreases |rows|
  {
    if |rows| > 0 {
      SortKeeps(rows[..|rows| - 1]);
      InsertKeeps(rows[|rows| - 1], Sort(rows[..|rows| - 1]));
      assert rows == rows[..|rows| - 1] + [rows[|rows| - 1]];
    }
    SameElements(Sort(rows), rows);
  }

  lemma SameElements(a: seq<Device>, b: seq<Device>)
    requires multiset(a) == multiset(b)
    ensures forall d :: d in a <==> d in b
  {
    forall d ensures d in a <==> d in b {
      assert d in multiset(a) <==> d in multiset(b);
    }
  }

  lemma {:induction false} InsertDescending(d: Device, rows: seq<Device>)
    requires Descending(rows) && forall e :: e in rows ==> e.id != d.id
    ensures Descending(Insert(d, rows))
    decreases |rows|
  {
    if |rows| > 0 && !Before(d, rows[0]) {
      InsertDescending(d, rows[1..]);
      InsertKeeps(d, rows[1..]);
      var rest := Insert(d, rows[1..]);
      SameElements(rest, [d] + rows[1..]);
      forall j | 0 <= j < |rest| ensures Before(rows[0], rest[j]) {
        assert rest[j] in [d] + rows[1..];
      }
    }
  }

  lemma {:induction false} SortDescending(rows: seq<Device>)
    requires UniqueIds(rows)
    ensures Descending(Sort(rows))
    decreases |rows|
  {
    if |rows| > 0 {
      SortDescending(rows[..|rows| - 1]);
      SortKeeps(rows[..|rows| - 1]);
      InsertDescending(rows[|rows| - 1], Sort(rows[..|rows| - 1]));
    }
  }

  lemma {:induction false} ChosenUnique(rows: seq<Device>, so: Device -> bool)
    requires UniqueIds(rows)
    ensures UniqueIds(Chosen(rows, so))
    decreases |rows|
  {
    if |rows| > 0 {
      ChosenUnique(rows[..|rows| - 1], so);
      forall d | d in Chosen(rows[..|rows| - 1], so) ensures d.id != rows[|rows| - 1].id {
        InChosen(rows[..|rows| - 1], so, d);
      }
    }
  }

  /** The head of a key's history is its greatest successful row, and so what the latest-row query
      returns for it whenever rows sharing a time agree. */
  lemma LatestAgreesWithHistory(table: seq<Device>, result: seq<Device>, d: Device, limit: nat)
    requires UniqueIds(table) && Agree(table, Successful) && Deduped(Joined(table, Successful), result)
    requires d in result && limit > 0
    ensures |Recent(table, d.Key(), limit)| > 0 && Recent(table, d.Key(), limit)[0] == d
    ensures Descending(Recent(table, d.Key(), limit)) && |Recent(table, d.Key(), limit)| <= limit
  {
    var so := (e: Device) => e.Key() == d.Key() && e.success;
    var rows := Chosen(table, so);
    AgreementSuffices(table, Successful, result, d);
    ChosenUnique(table, so);
    SortDescending(rows);
    SortKeeps(rows);
    InChosen(table, so, d);
    var sorted := Sort(rows);
    assert d in sorted;
    InChosen(table, so, sorted[0]);
    assert sorted[0] in rows;
    var k :| 0 <= k < |sorted| && sorted[k] == d;
    NotBoth(sorted[0], d);
  }

  // ---------------------------------------------------------------- the vendor snapshot

  lemma DedupedUnique(table: seq<Device>, keep: Device -> bool, full: seq<Device>)
    requires UniqueIds(table) && Deduped(Joined(table, keep), full)
    ensures UniqueIds(full)
  {
    forall i, j | 0 <= i < j < |full| ensures full[i].id != full[j].id {
      InJoined(table, keep, full[i]);
      InJoined(table, keep, full[j]);
    }
  }

  /** The snapshot is the first `limit`, newest first, of the vendor's greatest rows, one per key. */
  lemma SnapshotHoldsMaxima(table: seq<Device>, vendor: string, limit: nat, full: seq<Device>, result: seq<Device>)
    requires UniqueIds(table) && Agree(table, OfVendor(vendor))
    requires Deduped(Joined(table, OfVendor(vendor)), full) && result == Limited(Sort(full), limit)
    ensures Descending(result) && |result| <= limit
    ensures forall i :: 0 <= i < |result| ==> Greatest(table, OfVendor(vendor), result[i].Key(), result[i])
    ensures forall i, j :: 0 <= i < j < |result| ==> result[i].Key() != result[j].Key()
  {
    var keep, sorted := OfVendor(vendor), Sort(full);
    DedupedUnique(table, keep, full);
    SortDescending(full);
    SortKeeps(full);
    forall i | 0 <= i < |result| ensures Greatest(table, keep, result[i].Key(), result[i]) {
      assert sorted[i] in full;
      AgreementSuffices(table, keep, full, result[i]);
    }
    forall i, j | 0 <= i < j < |result| ensures result[i].Key() != result[j].Key() {
      assert sorted[i] in full && sorted[j] in full;
      assert Before(sorted[i], sorted[j]);
    }
  }

  /** A key of the vendor is missing from the snapshot only if it is full of newer rows. */
  lemma SnapshotLeavesOutOlderOnly(table: seq<Device>, vendor: string, limit: nat, full: seq<Device>, result: seq<Device>, d: Device)
    requires UniqueIds(table) && Agree(table, OfVendor(vendor))
    requires Deduped(Joined(table, OfVendor(vendor)), full) && result == Limited(Sort(full), limit)
    requires Greatest(table, OfVendor(vendor), d.Key(), d)
    ensures d in result || (|result| == limit && forall e :: e in result ==> Before(e, d))
  {
    var keep, sorted := OfVendor(vendor), Sort(full);
    DedupedUnique(table, keep, full);
    SortDescending(full);
    SortKeeps(full);
    GreatestIsReturned(table, keep, full, d);
    assert d in sorted;
    var k :| 0 <= k < |sorted| && sorted[k] == d;
    if k < |result| {
      assert result[k] == d;
    }
  }

  lemma NotBoth(a: Device, b: Device)
    ensures !(Before(a, b) && Before(b, a))
  {
  }

  lemma GreatestIsReturned(table: seq<Device>, keep: Device -> bool, full: seq<Device>, d: Device)
    requires UniqueIds(table) && Agree(table, keep) && Deduped(Joined(table, keep), full)
    requires Greatest(table, keep, d.Key(), d)
    ensures d in full
  {
    EveryKeyReturned(table, keep, full, d.Key());
    var i :| 0 <= i < |full| && full[i].Key() == d.Key();
    AgreementSuffices(table, keep, full, full[i]);
    NotBoth(full[i], d);
  }

  /** A row older than what its key already has changes no query result: the joined rows are the same. */
  lemma OlderRescanChangesNothing(table: seq<Device>, keep: Device -> bool, d: Device)
    requires Newest(table, keep, d.Key()).Some? && d.at < Newest(table, keep, d.Key()).value
    ensures Joined(table + [d], keep) == Joined(table, keep)
  {
    var more := table + [d];
    assert more[..|table|] == table;
    forall key ensures Newest(more, keep, key) == Newest(table, keep, key) {
    }
    ChosenSame(table, (e: Device) => Newest(more, keep, e.Key()) == Some(e.at), (e: Device) => Newest(table, keep, e.Key()) == Some(e.at));
  }

  lemma {:induction false} ChosenSame(rows: seq<Device>, a: Device -> bool, b: Device -> bool)
    requires forall d :: a(d) == b(d)
    ensures Chosen(rows, a) == Chosen(rows, b)
    decreases |rows|
  {
    if |rows| > 0 {
      ChosenSame(rows[..|rows| - 1], a, b);
    }
  }

  // ---------------------------------------------------------------- the snapshot is determined

  lemma {:induction false} DescendingIsDetermined(a: seq<Device>, b: seq<Device>)
    requires Descending(a) && Descending(b)
    requires forall d :: d in a <==> d in b
    ensures a == b
    decreases |a|
  {
    assert |b| > 0 ==> b[0] in a;
    if |a| > 0 {
      assert a[0] in b;
      NotBoth(a[0], b[0]);
      assert a[0] == b[0];
      forall d ensures d in a[1..] <==> d in b[1..] {
        NotBoth(a[0], a[0]);
        assert d in a <==> d == a[0] || d in a[1..];
        assert d in b <==> d == b[0] || d in b[1..];
      }
      DescendingIsDetermined(a[1..], b[1..]);
    }
  }

  lemma DedupedSame(table: seq<Device>, keep: Device -> bool, a: seq<Device>, b: seq<Device>, d: Device)
    requires UniqueIds(table) && Deduped(Joined(table, keep), a) && Deduped(Joined(table, keep), b) && d in a
    ensures d in b
  {
    assert Covered(b, d);
    var i :| 0 <= i < |b| && b[i].Key() == d.Key() && d.id <= b[i].id;
    assert Covered(a, b[i]);
    var j :| 0 <= j < |a| && a[j].Key() == b[i].Key() && b[i].id <= a[j].id;
    var k :| 0 <= k < |a| && a[k] == d;
    assert j == k;
    InJoined(table, keep, d);
    InJoined(table, keep, b[i]);
    SameIdSameRow(table, d, b[i]);
  }

  lemma SnapshotIsDetermined(table: seq<Device>, keep: Device -> bool, a: seq<Device>, b: seq<Device>)
    requires UniqueIds(table) && Deduped(Joined(table, keep), a) && Deduped(Joined(table, keep), b)
    ensures Sort(a) == Sort(b)
  {
    DedupedUnique(table, keep, a);
    DedupedUnique(table, keep, b);
    SortDescending(a);
    SortDescending(b);
    SortKeeps(a);
    SortKeeps(b);
    forall d ensures d in a <==> d in b {
      if d in a { DedupedSame(table, keep, a, b, d); }
      if d in b { DedupedSame(table, keep, b, a, d); }
    }
    DescendingIsDetermined(Sort(a), Sort(b));
  }

  /** Recording one more row of a key, older than what the key already has, and of the vendor,
      leaves that vendor's snapshot exactly as it was. */
  lemma OlderRescanKeepsSnapshot(table: seq<Device>, vendor: string, d: Device, limit: nat,
                                 before: seq<Device>, after: seq<Device>)
    requires UniqueIds(table)
    requires Newest(table, OfVendor(vendor), d.Key()).Some? && d.at < Newest(table, OfVendor(vendor), d.Key()).value
    requires Deduped(Joined(table, OfVendor(vendor)), before) && Deduped(Joined(table + [d], OfVendor(vendor)), after)
    ensures Limited(Sort(after), limit) == Limited(Sort(before), limit)
  {
    OlderRescanChangesNothing(table, OfVendor(vendor), d);
    SnapshotIsDetermined(table, OfVendor(vendor), before, after);
  }
}
