/** Endpoint rows: flushed after each stage, where a failed flush rolls back, and merged once more
    at the end. A flush writes each new row's key back onto the caller's object. */
module EndpointRows {
  import opened Traces
  import opened Wrappers

  /** An endpoint in memory: its row key, session key and timestamp, each perhaps unset, the finding
      it stands for (host, port, protocol and the like), and the rest. */
  datatype Obj = Obj(id: Option<nat>, run: Option<string>, at: Option<int>, finding: nat, data: string)

  datatype Record = Record(run: Option<string>, at: Option<int>, finding: nat, data: string)

  /** The table; `next` is above every key in use. */
  datatype Db = Db(rows: map<nat, Record>, next: nat)

  datatype Store = Store(objs: seq<Obj>, db: Db)

  /** What happens between start and final persist. `picked` are positions of the objects in a flushed list. */
  datatype Event =
    | Found(o: Obj)
    | Touched(i: nat, data: string)
    | Flushed(picked: seq<nat>, run: Option<string>, now: int, works: bool)

  function RecordOf(o: Obj): Record {
    Record(o.run, o.at, o.finding, o.data)
  }

  /** Fill in what is unset, never change what is set. */
  function Stamp(o: Obj, run: Option<string>, now: int): Obj {
    o.(run := if run.Some? && o.run.None? then run else o.run,
       at := if o.at.None? then Some(now) else o.at)
  }

  function StampPicked(objs: seq<Obj>, picked: seq<nat>, run: Option<string>, now: int): seq<Obj> {
    seq(|objs|, i requires 0 <= i < |objs| => if i in picked then Stamp(objs[i], run, now) else objs[i])
  }

  /** The key a merge of this object writes to. */
  function KeyFor(db: Db, o: Obj): nat {
    if o.id.Some? then o.id.value else db.next
  }

  function MergeRow(db: Db, o: Obj): Db {
    var key := KeyFor(db, o);
    Db(db.rows[key := RecordOf(o)], if key < db.next then db.next else key + 1)
  }

  predicate Picks(objs: seq<Obj>, picked: seq<nat>) {
    && (forall k :: 0 <= k < |picked| ==> picked[k] < |objs|)
    && (forall k, l :: 0 <= k < l < |picked| ==> picked[k] != picked[l])
  }

  /** Merge the picked objects in order, each taking the key of its row. */
  function Merged(s: Store, picked: seq<nat>): (t: Store)
    requires forall k :: 0 <= k < |picked| ==> picked[k] < |s.objs|
    ensures |t.objs| == |s.objs|
    decreases |picked|
  {
    if |picked| == 0 then s
    else
      var before := Merged(s, picked[..|picked| - 1]);
      var i := picked[|picked| - 1];
      var o := before.objs[i];
      Store(before.objs[i := o.(id := Some(KeyFor(before.db, o)))], MergeRow(before.db, o))
  }

  function Apply(s: Store, e: Event): Store {
    match e
    case Found(o) => s.(objs := s.objs + [o])
    case Touched(i, data) => if i < |s.objs| then s.(objs := s.objs[i := s.objs[i].(data := data)]) else s
    case Flushed(picked, run, now, works) =>
      if !Picks(s.objs, picked) then s
      else
        var stamped := s.(objs := StampPicked(s.objs, picked, run, now));
        if works then Merged(stamped, picked) else stamped
  }

  function Transition(): (Store, Event) -> Store {
    (s, e) => Apply(s, e)
  }

  /** The final persist: stamp and merge the objects at the listed positions. The keys in the result
      are those of the rows; the objects themselves do not learn them. */
  function Persisted(s: Store, listed: seq<nat>, run: Option<string>, now: int): Store
    requires Picks(s.objs, listed)
  {
    Merged(s.(objs := StampPicked(s.objs, listed, run, now)), listed)
  }

  // ---------------------------------------------------------------- what is written

  /** The row holds the object, with the session key and time it lacks filled in. */
  ghost predicate Filled(r: Record, o: Obj, run: Option<string>, now: int) {
    && r.run == (if o.run.Some? then o.run else run)
    && r.at == (if o.at.Some? then o.at else Some(now))
    && r.finding == o.finding
    && r.data == o.data
  }

  /** The row holds the object as it is. */
  ghost predicate AsIs(r: Record, o: Obj) {
    r.run == o.run && r.at == o.at && r.finding == o.finding && r.data == o.data
  }

  /** The picked objects have been stamped, the others left alone. */
  ghost predicate Stamped(objs: seq<Obj>, after: seq<Obj>, picked: seq<nat>, run: Option<string>, now: int) {
    && |after| == |objs|
    && forall i :: 0 <= i < |objs| ==>
         && after[i].run == (if i in picked && objs[i].run.None? then run else objs[i].run)
         && after[i].at == (if i in picked && objs[i].at.None? then Some(now) else objs[i].at)
         && after[i].finding == objs[i].finding
         && after[i].data == objs[i].data
  }

  /** Each picked object has a row of its own with its values, the old one if it had a key and a new
      one if not; all other rows are the old ones, unchanged. */
  ghost predicate Written(s: Store, t: Store, picked: seq<nat>, run: Option<string>, now: int) {
    && |t.objs| == |s.objs|
    && (forall i :: i in picked ==>
          && i < |s.objs|
          && t.objs[i].id.Some?
          && t.objs[i].id.value in t.db.rows
          && Filled(t.db.rows[t.objs[i].id.value], s.objs[i], run, now)
          && if s.objs[i].id.Some? then t.objs[i].id == s.objs[i].id else t.objs[i].id.value !in s.db.rows)
    && (forall i, j :: i in picked && j in picked && i < j ==> t.objs[i].id != t.objs[j].id)
    && (forall k :: k in t.db.rows ==> k in s.db.rows || exists i :: i in picked && t.objs[i].id == Some(k))
    && (forall k :: k in s.db.rows ==>
          k in t.db.rows && ((forall i :: i in picked ==> t.objs[i].id != Some(k)) ==> t.db.rows[k] == s.db.rows[k]))
  }

  // ---------------------------------------------------------------- on the heap

  class Endpoint {
    var id: Option<nat>
    var run: Option<string>
    var at: Option<int>
    const finding: nat
    var data: string

    constructor (finding: nat, data: string)
      ensures Value() == Obj(None, None, None, finding, data)
    {
      id, run, at := None, None, None;
      this.finding := finding;
      this.data := data;
    }

    function Value(): Obj
      reads this
    {
      Obj(id, run, at, finding, data)
    }
  }

  class Database {
    var value: Db

    constructor ()
      ensures value == Db(map[], 1)
    {
      value := Db(map[], 1);
    }
  }

  function Values(all: seq<Endpoint>): seq<Obj>
    reads all
  {
    seq(|all|, i requires 0 <= i < |all| reads all => all[i].Value())
  }

  ghost predicate Distinct(all: seq<Endpoint>) {
    forall i, j :: 0 <= i < j < |all| ==> all[i] != all[j]
  }

  /** `endpoints` lists the objects at the picked positions of `all`. */
  ghost predicate Lists(endpoints: seq<Endpoint>, all: seq<Endpoint>, picked: seq<nat>) {
    && |endpoints| == |picked|
    && (forall k :: 0 <= k < |picked| ==> picked[k] < |all| && endpoints[k] == all[picked[k]])
    && (forall k, l :: 0 <= k < l < |picked| ==> picked[k] != picked[l])
  }

  /** Stamp the run's session key and a fallback time on every endpoint that lacks one. */
  method StampScanSession(endpoints: seq<Endpoint>, run: Option<string>, now: int,
                          ghost all: seq<Endpoint>, ghost picked: seq<nat>)
    requires Distinct(all) && Lists(endpoints, all, picked)
    modifies endpoints
    ensures Values(all) == StampPicked(old(Values(all)), picked, run, now)
    ensures Stamped(old(Values(all)), Values(all), picked, run, now)
    ensures forall i :: 0 <= i < |all| ==> all[i].id == old(all[i].id)
  {
    for k := 0 to |endpoints|
      invariant forall i :: 0 <= i < |all| ==>
                  all[i].Value() == if i in picked[..k] then Stamp(old(all[i].Value()), run, now) else old(all[i].Value())
    {
      var e := endpoints[k];
      assert picked[..k + 1] == picked[..k] + [picked[k]];
      assert e == all[picked[k]] && picked[k] !in picked[..k];
      if run.Some? && e.run.None? {
        e.run := run;
      }
      if e.at.None? {
        e.at := Some(now);
      }
    }
    assert picked[..|picked|] == picked;
  }

  /** The picked objects have been given these keys; nothing else about any object changed. */
  ghost predicate Keyed(objs: seq<Obj>, merged: seq<Obj>, picked: seq<nat>, keys: seq<nat>) {
    && Picks(objs, picked)
    && |keys| == |picked|
    && |merged| == |objs|
    && (forall k :: 0 <= k < |picked| ==> merged[picked[k]] == objs[picked[k]].(id := Some(keys[k])))
    && (forall i :: 0 <= i < |objs| && (forall k :: 0 <= k < |picked| ==> picked[k] != i) ==> merged[i] == objs[i])
  }

  lemma KeyedSnoc(objs: seq<Obj>, merged: seq<Obj>, picked: seq<nat>, keys: seq<nat>, i: nat, key: nat)
    requires Keyed(objs, merged, picked, keys) && i < |objs|
    requires forall k :: 0 <= k < |picked| ==> picked[k] != i
    ensures merged[i] == objs[i]
    ensures Keyed(objs, merged[i := objs[i].(id := Some(key))], picked + [i], keys + [key])
  {
    forall j | 0 <= j < |objs| && (forall k :: 0 <= k < |picked + [i]| ==> (picked + [i])[k] != j)
      ensures merged[j] == objs[j] && j != i
    {
      assert (picked + [i])[|picked|] == i;
      forall k | 0 <= k < |picked| ensures picked[k] != j {
        assert (picked + [i])[k] == picked[k];
      }
    }
  }

  lemma MergedSnoc(s: Store, picked: seq<nat>, n: nat)
    requires n < |picked|
    requires forall k :: 0 <= k < |picked| ==> picked[k] < |s.objs|
    ensures var before := Merged(s, picked[..n]);
            var o := before.objs[picked[n]];
            Merged(s, picked[..n + 1]) == Store(before.objs[picked[n] := o.(id := Some(KeyFor(before.db, o)))], MergeRow(before.db, o))
  {
    assert picked[..n + 1][..n] == picked[..n];
  }

  /** Merge every endpoint inside one session. Nothing is visible until the commit. */
  method MergeAll(db: Db, endpoints: seq<Endpoint>, ghost objs: seq<Obj>, ghost picked: seq<nat>)
    returns (staged: Db, keys: seq<nat>)
    requires Picks(objs, picked) && |endpoints| == |picked|
    requires forall k :: 0 <= k < |picked| ==> endpoints[k].Value() == objs[picked[k]]
    ensures Keyed(objs, Merged(Store(objs, db), picked).objs, picked, keys)
    ensures staged == Merged(Store(objs, db), picked).db
  {
    staged, keys := db, [];
    ghost var s := Store(objs, db);
    for k := 0 to |endpoints|
      invariant Keyed(objs, Merged(s, picked[..k]).objs, picked[..k], keys)
      invariant staged == Merged(s, picked[..k]).db
    {
      var o := endpoints[k].Value();
      MergedSnoc(s, picked, k);
      assert picked[..k + 1] == picked[..k] + [picked[k]];
      KeyedSnoc(objs, Merged(s, picked[..k]).objs, picked[..k], keys, picked[k], KeyFor(staged, o));
      keys := keys + [KeyFor(staged, o)];
      staged := MergeRow(staged, o);
    }
    assert picked[..|picked|] == picked;
  }

  /** Flush one stage. A failing flush rolls back and is silent; the stamps stay. */
  method FlushStageEndpoints(db: Database, endpoints: seq<Endpoint>, run: Option<string>, now: int, works: bool,
                             ghost all: seq<Endpoint>, ghost picked: seq<nat>)
    requires Distinct(all) && Lists(endpoints, all, picked)
    modifies db, endpoints
    ensures Store(Values(all), db.value)
         == Apply(old(Store(Values(all), db.value)), Flushed(picked, run, now, works))
    ensures Stamped(old(Values(all)), Values(all), picked, run, now)
    ensures works && Loaded(old(Store(Values(all), db.value))) ==>
              Written(old(Store(Values(all), db.value)), Store(Values(all), db.value), picked, run, now)
    ensures !works ==> db.value == old(db.value) && forall i :: 0 <= i < |all| ==> all[i].id == old(all[i].id)
  {
    ghost var before := Store(Values(all), db.value);
    StampScanSession(endpoints, run, now, all, picked);
    if !works {
      return;
    }
    FlushWrites(before, picked, run, now);
    ghost var stamped := Store(Values(all), db.value);
    var staged, keys := MergeAll(db.value, endpoints, stamped.objs, picked);
    db.value := staged;
    WriteKeysBack(endpoints, keys, all, picked, stamped);
  }

  lemma NextPicked(objs: seq<Obj>, picked: seq<nat>, k: nat)
    requires Picks(objs, picked) && k < |picked|
    ensures picked[k] !in picked[..k]
    ensures forall i :: i in picked[..k + 1] <==> i in picked[..k] || i == picked[k]
  {
    assert picked[..k + 1] == picked[..k] + [picked[k]];
  }

  /** After the commit, hand each new row's key to the caller's object. */
  method WriteKeysBack(endpoints: seq<Endpoint>, keys: seq<nat>,
                       ghost all: seq<Endpoint>, ghost picked: seq<nat>, ghost s: Store)
    requires Distinct(all) && Lists(endpoints, all, picked) && s.objs == Values(all)
    requires Picks(s.objs, picked) && Keyed(s.objs, Merged(s, picked).objs, picked, keys)
    modifies endpoints
    ensures Values(all) == Merged(s, picked).objs
  {
    ghost var merged := Merged(s, picked).objs;
    for k := 0 to |endpoints|
      invariant forall i :: 0 <= i < |all| ==>
                  all[i].Value() == if i in picked[..k] then merged[i] else s.objs[i]
    {
      var e := endpoints[k];
      NextPicked(s.objs, picked, k);
      MergedKeepsKeys(s, picked, picked[k]);
      if e.id.None? {
        e.id := Some(keys[k]);
      }
    }
    assert picked[..|picked|] == picked;
  }

  /** The final persist of the list of endpoints put together for it, which need not hold all that
      were found. Its failure would end the run, so it is not a case here. */
  method PersistAll(db: Database, endpoints: seq<Endpoint>, run: Option<string>, now: int,
                    ghost all: seq<Endpoint>, ghost listed: seq<nat>)
    requires Distinct(all) && Lists(endpoints, all, listed)
    modifies db, endpoints
    ensures Picks(old(Values(all)), listed)
    ensures db.value == Persisted(old(Store(Values(all), db.value)), listed, run, now).db
    ensures Values(all) == StampPicked(old(Values(all)), listed, run, now)
    ensures Stamped(old(Values(all)), Values(all), listed, run, now)
    ensures forall i :: 0 <= i < |all| ==> all[i].id == old(all[i].id)
    ensures Loaded(old(Store(Values(all), db.value))) ==>
              exists t: Store :: t.db == db.value && Written(old(Store(Values(all), db.value)), t, listed, run, now)
  {
    ghost var before := Store(Values(all), db.value);
    StampScanSession(endpoints, run, now, all, listed);
    FlushWrites(before, listed, run, now);
    var staged, _ := MergeAll(db.value, endpoints, Values(all), listed);
    db.value := staged;
  }

  // ---------------------------------------------------------------- what is kept

  /** Merging never changes a key an object already has, nor anything else about it. */
  lemma {:induction false} MergedKeepsKeys(s: Store, picked: seq<nat>, i: nat)
    requires forall k :: 0 <= k < |picked| ==> picked[k] < |s.objs|
    requires i < |s.objs|
    ensures var o := Merged(s, picked).objs[i];
            && o == s.objs[i].(id := o.id)
            && (s.objs[i].id.Some? ==> o.id == s.objs[i].id)
            && (i in picked ==> o.id.Some?)
    decreases |picked|
  {
    if |picked| > 0 {
      MergedKeepsKeys(s, picked[..|picked| - 1], i);
      assert picked == picked[..|picked| - 1] + [picked[|picked| - 1]];
    }
  }

  /** Each keyed object owns its row alone; every other row is one that was there at the start, unchanged. */
  ghost predicate Owned(start: Db, s: Store) {
    && (forall i :: 0 <= i < |s.objs| && s.objs[i].id.Some? ==> s.objs[i].id.value in s.db.rows)
    && (forall i, j :: 0 <= i < j < |s.objs| && s.objs[i].id.Some? ==> s.objs[i].id != s.objs[j].id)
    && (forall k :: k in s.db.rows ==> k < s.db.next)
    && start.next <= s.db.next
    && (forall k :: k in start.rows ==> k in s.db.rows && k < start.next)
    && (forall k :: k in s.db.rows && !Holds(s, k) ==> k in start.rows && s.db.rows[k] == start.rows[k])
  }

  ghost predicate Holds(s: Store, k: nat) {
    exists i :: 0 <= i < |s.objs| && s.objs[i].id == Some(k)
  }

  /** What an object has, it keeps: row key, session key and time. */
  ghost predicate Grown(o: Obj, o': Obj) {
    && (o.id.Some? ==> o'.id == o.id)
    && (o.run.Some? ==> o'.run == o.run)
    && (o.at.Some? ==> o'.at == o.at)
  }

  /** A key taken since the start is a new one. */
  ghost predicate Since(start: Store, s: Store) {
    && |start.objs| <= |s.objs|
    && (forall i :: 0 <= i < |start.objs| ==> Grown(start.objs[i], s.objs[i]))
    && (forall i :: 0 <= i < |s.objs| && s.objs[i].id.Some? && (i < |start.objs| ==> start.objs[i].id.None?) ==>
          start.db.next <= s.objs[i].id.value)
  }

  ghost predicate Kept(start: Store, s: Store) {
    Owned(start.db, s) && Since(start, s)
  }

  lemma HoldsGrows(s: Store, t: Store, k: nat)
    requires |s.objs| <= |t.objs|
    requires forall i :: 0 <= i < |s.objs| && s.objs[i].id.Some? ==> t.objs[i].id == s.objs[i].id
    ensures Holds(s, k) ==> Holds(t, k)
  {
    if Holds(s, k) {
      var j :| 0 <= j < |s.objs| && s.objs[j].id == Some(k);
      assert t.objs[j].id == Some(k);
    }
  }

  lemma MergeOneKeeps(start: Store, s: Store, i: nat)
    requires Kept(start, s) && i < |s.objs|
    ensures var o := s.objs[i];
            Kept(start, Store(s.objs[i := o.(id := Some(KeyFor(s.db, o)))], MergeRow(s.db, o)))
  {
    var o := s.objs[i];
    var key := KeyFor(s.db, o);
    var t := Store(s.objs[i := o.(id := Some(key))], MergeRow(s.db, o));
    assert t.objs[i].id == Some(key);
    forall k | k in t.db.rows && !Holds(t, k) ensures k in start.db.rows && t.db.rows[k] == start.db.rows[k] {
      HoldsGrows(s, t, k);
    }
  }

  lemma {:induction false} MergedKeeps(start: Store, s: Store, picked: seq<nat>)
    requires Kept(start, s)
    requires forall k :: 0 <= k < |picked| ==> picked[k] < |s.objs|
    ensures Kept(start, Merged(s, picked))
    decreases |picked|
  {
    if |picked| > 0 {
      MergedKeeps(start, s, picked[..|picked| - 1]);
      MergeOneKeeps(start, Merged(s, picked[..|picked| - 1]), picked[|picked| - 1]);
    }
  }

  lemma ChangedElsewhereKeeps(start: Store, s: Store, t: Store)
    requires Kept(start, s) && t.db == s.db && |s.objs| <= |t.objs|
    requires forall i :: 0 <= i < |s.objs| ==> Grown(s.objs[i], t.objs[i]) && t.objs[i].id == s.objs[i].id
    requires forall i :: |s.objs| <= i < |t.objs| ==> t.objs[i].id.None?
    ensures Kept(start, t)
  {
    forall k | k in t.db.rows && !Holds(t, k) ensures !Holds(s, k) {
      HoldsGrows(s, t, k);
    }
  }

  /** Scanners create endpoints without a key. */
  ghost predicate Fresh(e: Event) {
    e.Found? ==> e.o.id.None?
  }

  lemma ApplyKeeps(start: Store, s: Store, e: Event)
    requires Kept(start, s) && Fresh(e)
    ensures Kept(start, Apply(s, e))
  {
    match e
    case Found(o) => ChangedElsewhereKeeps(start, s, Apply(s, e));
    case Touched(i, data) => ChangedElsewhereKeeps(start, s, Apply(s, e));
    case Flushed(picked, run, now, works) =>
      if Picks(s.objs, picked) {
        var stamped := s.(objs := StampPicked(s.objs, picked, run, now));
        ChangedElsewhereKeeps(start, s, stamped);
        if works {
          MergedKeeps(start, stamped, picked);
        }
      }
  }

  lemma HistoryKeeps(start: Store, trace: seq<Event>)
    requires Kept(start, start)
    requires forall e :: e in trace ==> Fresh(e)
    ensures Kept(start, Fold(Transition(), start, trace))
  {
    forall s, e | Kept(start, s) && Fresh(e) ensures Kept(start, Transition()(s, e)) {
      ApplyKeeps(start, s, e);
    }
    FoldInvariant(Transition(), s => Kept(start, s), e => Fresh(e), start, trace);
  }

  /** After merging, every merged object's row holds its values. */
  lemma {:induction false} MergedWrites(start: Store, s: Store, picked: seq<nat>, k: nat)
    requires Kept(start, s) && Picks(s.objs, picked) && k < |picked|
    ensures var t := Merged(s, picked);
            var o := t.objs[picked[k]];
            o.id.Some? && o.id.value in t.db.rows && t.db.rows[o.id.value] == RecordOf(s.objs[picked[k]])
    decreases |picked|
  {
    var n := |picked| - 1;
    var before, i := Merged(s, picked[..n]), picked[n];
    MergedKeepsKeys(s, picked[..n], i);
    if k < n {
      MergedWrites(start, s, picked[..n], k);
      MergedKeeps(start, s, picked[..n]);
      assert picked[..n][k] == picked[k] != i;
    }
  }

  /** A start that a first run or a resume may have: no object, or objects reloaded with their keys. */
  ghost predicate Loaded(s: Store) {
    && (forall i :: 0 <= i < |s.objs| && s.objs[i].id.Some? ==> s.objs[i].id.value in s.db.rows)
    && (forall i, j :: 0 <= i < j < |s.objs| && s.objs[i].id.Some? ==> s.objs[i].id != s.objs[j].id)
    && (forall k :: k in s.db.rows ==> k < s.db.next)
  }

  /** Merging leaves the row of an object that is not picked alone. */
  lemma {:induction false} MergedLeaves(start: Store, s: Store, picked: seq<nat>, i: nat)
    requires Kept(start, s) && Picks(s.objs, picked) && i < |s.objs| && i !in picked && s.objs[i].id.Some?
    ensures var t := Merged(s, picked);
            t.objs[i] == s.objs[i] && s.objs[i].id.value in t.db.rows
            && t.db.rows[s.objs[i].id.value] == s.db.rows[s.objs[i].id.value]
    decreases |picked|
  {
    if |picked| > 0 {
      var n := |picked| - 1;
      MergedLeaves(start, s, picked[..n], i);
      MergedKeeps(start, s, picked[..n]);
      MergedKeepsKeys(s, picked[..n], picked[n]);
      var before := Merged(s, picked[..n]);
      assert picked[n] != i && before.objs[picked[n]].id != before.objs[i].id;
    }
  }

  lemma {:induction false} MergedSkips(s: Store, picked: seq<nat>, i: nat)
    requires Picks(s.objs, picked) && i < |s.objs| && i !in picked
    ensures Merged(s, picked).objs[i] == s.objs[i]
    decreases |picked|
  {
    if |picked| > 0 {
      MergedSkips(s, picked[..|picked| - 1], i);
      assert picked[|picked| - 1] != i;
    }
  }

  lemma PersistKeeps(start: Store, s: Store, listed: seq<nat>, run: Option<string>, now: int)
    requires Kept(start, s) && Picks(s.objs, listed)
    ensures Kept(start, Persisted(s, listed, run, now))
  {
    var stamped := s.(objs := StampPicked(s.objs, listed, run, now));
    ChangedElsewhereKeeps(start, s, stamped);
    MergedKeeps(start, stamped, listed);
  }

  /** A listed object gets, or keeps, a row with its values. */
  lemma PersistRow(start: Store, s: Store, listed: seq<nat>, run: Option<string>, now: int, i: nat)
    requires Kept(start, s) && Picks(s.objs, listed) && i in listed
    ensures var t := Persisted(s, listed, run, now);
            && Grown(s.objs[i], t.objs[i])
            && t.objs[i].id.Some?
            && t.objs[i].id.value in t.db.rows
            && t.db.rows[t.objs[i].id.value] == RecordOf(Stamp(s.objs[i], run, now))
  {
    var stamped := s.(objs := StampPicked(s.objs, listed, run, now));
    ChangedElsewhereKeeps(start, s, stamped);
    var k :| 0 <= k < |listed| && listed[k] == i;
    MergedWrites(start, stamped, listed, k);
    MergedKeepsKeys(stamped, listed, i);
  }

  /** An object that is not listed is left as it is, and so is its row, if it has one. */
  lemma PersistLeaves(start: Store, s: Store, listed: seq<nat>, run: Option<string>, now: int, i: nat)
    requires Kept(start, s) && Picks(s.objs, listed) && i < |s.objs| && i !in listed
    ensures var t := Persisted(s, listed, run, now);
            && t.objs[i] == s.objs[i]
            && (s.objs[i].id.Some? ==>
                  && s.objs[i].id.value in s.db.rows && s.objs[i].id.value in t.db.rows
                  && t.db.rows[s.objs[i].id.value] == s.db.rows[s.objs[i].id.value])
  {
    var stamped := s.(objs := StampPicked(s.objs, listed, run, now));
    ChangedElsewhereKeeps(start, s, stamped);
    MergedSkips(stamped, listed, i);
    if s.objs[i].id.Some? {
      MergedLeaves(start, stamped, listed, i);
    }
  }

  lemma PersistEach(start: Store, s: Store, listed: seq<nat>, run: Option<string>, now: int)
    requires Kept(start, s) && Picks(s.objs, listed)
    ensures var t := Persisted(s, listed, run, now);
            && |t.objs| == |s.objs|
            && (forall i :: 0 <= i < |s.objs| ==> Grown(s.objs[i], t.objs[i]))
            && (forall i :: i in listed ==>
                  && t.objs[i].id.Some?
                  && t.objs[i].id.value in t.db.rows
                  && t.db.rows[t.objs[i].id.value] == RecordOf(Stamp(s.objs[i], run, now)))
  {
    forall i | 0 <= i < |s.objs|
      ensures var t := Persisted(s, listed, run, now);
              && Grown(s.objs[i], t.objs[i])
              && (i in listed ==>
                    && t.objs[i].id.Some?
                    && t.objs[i].id.value in t.db.rows
                    && t.db.rows[t.objs[i].id.value] == RecordOf(Stamp(s.objs[i], run, now)))
    {
      if i in listed {
        PersistRow(start, s, listed, run, now, i);
      } else {
        PersistLeaves(start, s, listed, run, now, i);
      }
    }
  }

  lemma FilledIs(o: Obj, run: Option<string>, now: int)
    ensures Filled(RecordOf(Stamp(o, run, now)), o, run, now)
  {
  }

  lemma StampedIs(objs: seq<Obj>, picked: seq<nat>, run: Option<string>, now: int)
    ensures Stamped(objs, StampPicked(objs, picked, run, now), picked, run, now)
  {
  }

  /** What a session that commits does, in the fields of objects and rows alone. */
  lemma PersistWrites(s: Store, picked: seq<nat>, run: Option<string>, now: int)
    requires Loaded(s) && Picks(s.objs, picked)
    ensures Written(s, Persisted(s, picked, run, now), picked, run, now)
  {
    var t := Persisted(s, picked, run, now);
    assert Kept(s, s);
    PersistKeeps(s, s, picked, run, now);
    PersistEach(s, s, picked, run, now);
    forall i | i in picked ensures Filled(t.db.rows[t.objs[i].id.value], s.objs[i], run, now) {
      FilledIs(s.objs[i], run, now);
    }
    forall i | 0 <= i < |s.objs| && i !in picked
      ensures t.objs[i] == s.objs[i]
      ensures t.objs[i].id.Some? ==>
                t.objs[i].id.value in s.db.rows && t.objs[i].id.value in t.db.rows
                && t.db.rows[t.objs[i].id.value] == s.db.rows[t.objs[i].id.value]
    {
      PersistLeaves(s, s, picked, run, now, i);
    }
    forall k | k in t.db.rows ensures k in s.db.rows || exists i :: i in picked && t.objs[i].id == Some(k) {
      if Holds(t, k) {
        var i :| 0 <= i < |t.objs| && t.objs[i].id == Some(k);
        assert i !in picked ==> k in s.db.rows;
      }
    }
    forall k | k in s.db.rows && forall i :: i in picked ==> t.objs[i].id != Some(k)
      ensures t.db.rows[k] == s.db.rows[k]
    {
      if Holds(t, k) {
        var i :| 0 <= i < |t.objs| && t.objs[i].id == Some(k);
        assert i !in picked;
      }
    }
  }

  lemma FlushWrites(s: Store, picked: seq<nat>, run: Option<string>, now: int)
    requires Picks(s.objs, picked)
    ensures Stamped(s.objs, Persisted(s, picked, run, now).objs, picked, run, now)
    ensures Loaded(s) ==> Written(s, Persisted(s, picked, run, now), picked, run, now)
  {
    var stamped := s.(objs := StampPicked(s.objs, picked, run, now));
    StampedIs(s.objs, picked, run, now);
    forall i | 0 <= i < |s.objs|
      ensures Persisted(s, picked, run, now).objs[i] == stamped.objs[i].(id := Persisted(s, picked, run, now).objs[i].id)
    {
      MergedKeepsKeys(stamped, picked, i);
    }
    if Loaded(s) {
      PersistWrites(s, picked, run, now);
    }
  }

  /** Exactly once: whatever endpoints were found, changed and flushed, whichever flushes failed,
      after the final persist each object listed for it has a row of its own with its final values,
      an object that carried a key still the same row, an object that did not a new one; all other
      rows are the old ones, unchanged; and no session key or time that was set has been changed. */
  lemma ExactlyOnce(start: Store, trace: seq<Event>, listed: seq<nat>, run: Option<string>, now: int)
    requires Loaded(start)
    requires forall e :: e in trace ==> Fresh(e)
    requires Picks(Fold(Transition(), start, trace).objs, listed)
    ensures var s := Fold(Transition(), start, trace);
            var t := Persisted(s, listed, run, now);
            && |start.objs| <= |s.objs| == |t.objs|
            && (forall i :: i in listed ==>
                  && t.objs[i].id.Some?
                  && t.objs[i].id.value in t.db.rows
                  && Filled(t.db.rows[t.objs[i].id.value], s.objs[i], run, now))
            && (forall i, j :: 0 <= i < j < |t.objs| && t.objs[i].id.Some? ==> t.objs[i].id != t.objs[j].id)
            && (forall i :: 0 <= i < |t.objs| && t.objs[i].id.Some? ==>
                  if i < |start.objs| && start.objs[i].id.Some? then t.objs[i].id == start.objs[i].id
                  else t.objs[i].id.value !in start.db.rows)
            && (forall i :: 0 <= i < |start.objs| ==> Grown(start.objs[i], s.objs[i]) && Grown(s.objs[i], t.objs[i]))
            && (forall k :: k in start.db.rows ==> k in t.db.rows)
            && (forall k :: k in t.db.rows && !Holds(t, k) ==> k in start.db.rows && t.db.rows[k] == start.db.rows[k])
  {
    HistoryKeeps(start, trace);
    var s := Fold(Transition(), start, trace);
    PersistKeeps(start, s, listed, run, now);
    PersistEach(start, s, listed, run, now);
    forall i | i in listed ensures Filled(RecordOf(Stamp(s.objs[i], run, now)), s.objs[i], run, now) {
      FilledIs(s.objs[i], run, now);
    }
  }

  // ---------------------------------------------------------------- who owns a row, and with what in it

  /** The event is a flush of the object that commits. */
  ghost predicate Saves(s: Store, e: Event, i: nat) {
    e.Flushed? && e.works && Picks(s.objs, e.picked) && i in e.picked
  }

  /** The object came with its key, reloaded from its row. */
  ghost predicate Reloaded(start: Store, i: nat) {
    i < |start.objs| && start.objs[i].id.Some?
  }

  /** The event at place `n` of the trace is such a flush. */
  ghost predicate SavesAt(start: Store, trace: seq<Event>, n: nat, i: nat)
    requires n < |trace|
  {
    Saves(Fold(Transition(), start, trace[..n]), trace[n], i)
  }

  ghost predicate FlushCommitted(start: Store, trace: seq<Event>, i: nat) {
    exists n :: 0 <= n < |trace| && SavesAt(start, trace, n, i)
  }

  /** What the last committed flush of the object wrote, or else the row it was reloaded from. */
  ghost function LastSaved(start: Store, trace: seq<Event>, i: nat): Option<Record>
    decreases |trace|
  {
    if |trace| == 0 then
      if Reloaded(start, i) && start.objs[i].id.value in start.db.rows then Some(start.db.rows[start.objs[i].id.value]) else None
    else
      var n := |trace| - 1;
      var before, after := Fold(Transition(), start, trace[..n]), Fold(Transition(), start, trace);
      if Saves(before, trace[n], i) && i < |after.objs| then Some(RecordOf(after.objs[i]))
      else LastSaved(start, trace[..n], i)
  }

  /** The object owns a row, holding what was saved. */
  ghost predicate RowHolds(s: Store, i: nat, saved: Option<Record>)
    requires i < |s.objs|
  {
    && (s.objs[i].id.Some? <==> saved.Some?)
    && (saved.Some? ==> s.objs[i].id.value in s.db.rows && s.db.rows[s.objs[i].id.value] == saved.value)
  }

  lemma ApplyRow(start: Store, s: Store, e: Event, i: nat, saved: Option<Record>)
    requires Kept(start, s) && Fresh(e) && i < |s.objs| && RowHolds(s, i, saved)
    ensures var t := Apply(s, e);
            i < |t.objs| && RowHolds(t, i, if Saves(s, e, i) then Some(RecordOf(t.objs[i])) else saved)
  {
    match e
    case Found(_) =>
    case Touched(_, _) =>
    case Flushed(picked, run, now, works) =>
      if Picks(s.objs, picked) && works {
        FlushedRow(start, s, picked, run, now, i, saved);
      }
  }

  lemma FlushedRow(start: Store, s: Store, picked: seq<nat>, run: Option<string>, now: int, i: nat, saved: Option<Record>)
    requires Kept(start, s) && Picks(s.objs, picked) && i < |s.objs| && RowHolds(s, i, saved)
    ensures var t := Merged(s.(objs := StampPicked(s.objs, picked, run, now)), picked);
            RowHolds(t, i, if i in picked then Some(RecordOf(t.objs[i])) else saved)
  {
    var stamped := s.(objs := StampPicked(s.objs, picked, run, now));
    ChangedElsewhereKeeps(start, s, stamped);
    if i in picked {
      var k :| 0 <= k < |picked| && picked[k] == i;
      MergedWrites(start, stamped, picked, k);
      MergedKeepsKeys(stamped, picked, i);
    } else {
      MergedSkips(stamped, picked, i);
      if s.objs[i].id.Some? {
        MergedLeaves(start, stamped, picked, i);
      }
    }
  }

  /** Objects are never dropped within a process; a new one has no row. */
  lemma NewHasNoRow(start: Store, s: Store, e: Event, i: nat)
    requires Fresh(e) && |s.objs| <= i < |Apply(s, e).objs|
    ensures Apply(s, e).objs[i].id.None? && !Saves(s, e, i)
  {
  }

  lemma {:induction false} NothingSavedYet(start: Store, trace: seq<Event>, i: nat)
    requires i >= |Fold(Transition(), start, trace).objs|
    ensures LastSaved(start, trace, i) == None && |start.objs| <= |Fold(Transition(), start, trace).objs|
    decreases |trace|
  {
    if |trace| > 0 {
      NothingSavedYet(start, trace[..|trace| - 1], i);
    }
  }

  lemma {:induction false} SavedRow(start: Store, trace: seq<Event>, i: nat)
    requires Loaded(start) && forall e :: e in trace ==> Fresh(e)
    requires i < |Fold(Transition(), start, trace).objs|
    ensures RowHolds(Fold(Transition(), start, trace), i, LastSaved(start, trace, i))
    decreases |trace|
  {
    if |trace| > 0 {
      var n := |trace| - 1;
      var before := Fold(Transition(), start, trace[..n]);
      HistoryKeeps(start, trace[..n]);
      if i < |before.objs| {
        SavedRow(start, trace[..n], i);
        ApplyRow(start, before, trace[n], i, LastSaved(start, trace[..n], i));
      } else {
        NothingSavedYet(start, trace[..n], i);
        NewHasNoRow(start, before, trace[n], i);
      }
    }
  }

  lemma {:induction false} SavedExactlyWhen(start: Store, trace: seq<Event>, i: nat)
    requires Loaded(start)
    requires i < |Fold(Transition(), start, trace).objs|
    ensures LastSaved(start, trace, i).Some? <==> Reloaded(start, i) || FlushCommitted(start, trace, i)
    decreases |trace|
  {
    if |trace| > 0 {
      var n := |trace| - 1;
      var before := Fold(Transition(), start, trace[..n]);
      assert FlushCommitted(start, trace, i) <==> FlushCommitted(start, trace[..n], i) || Saves(before, trace[n], i) by {
        CommittedSnoc(start, trace, i);
      }
      if i < |before.objs| {
        SavedExactlyWhen(start, trace[..n], i);
      } else {
        NothingSavedYet(start, trace[..n], i);
        NeverCommitted(start, trace[..n], i);
      }
    }
  }

  lemma SavesBefore(start: Store, trace: seq<Event>, last: nat, n: nat, i: nat)
    requires n < last <= |trace|
    ensures SavesAt(start, trace[..last], n, i) <==> SavesAt(start, trace, n, i)
  {
    assert trace[..last][..n] == trace[..n];
  }

  lemma CommittedSnoc(start: Store, trace: seq<Event>, i: nat)
    requires |trace| > 0
    ensures FlushCommitted(start, trace, i) <==>
              FlushCommitted(start, trace[..|trace| - 1], i) || SavesAt(start, trace, |trace| - 1, i)
  {
    var last := |trace| - 1;
    if n :| 0 <= n < last && SavesAt(start, trace[..last], n, i) {
      SavesBefore(start, trace, last, n, i);
    }
    if n :| 0 <= n < |trace| && SavesAt(start, trace, n, i) {
      if n < last {
        SavesBefore(start, trace, last, n, i);
      }
    }
  }

  lemma {:induction false} NeverCommitted(start: Store, trace: seq<Event>, i: nat)
    requires i >= |Fold(Transition(), start, trace).objs|
    ensures !FlushCommitted(start, trace, i)
    decreases |trace|
  {
    if |trace| > 0 {
      NeverCommitted(start, trace[..|trace| - 1], i);
      CommittedSnoc(start, trace, i);
    }
  }

  /** After the final persist an object owns a row if and only if it was listed, was reloaded, or was
      in a flush that committed. */
  lemma OwnsRowExactlyWhen(start: Store, trace: seq<Event>, listed: seq<nat>, run: Option<string>, now: int, i: nat)
    requires Loaded(start) && forall e :: e in trace ==> Fresh(e)
    requires Picks(Fold(Transition(), start, trace).objs, listed) && i < |Fold(Transition(), start, trace).objs|
    ensures var t := Persisted(Fold(Transition(), start, trace), listed, run, now);
            && (t.objs[i].id.Some? <==> i in listed || Reloaded(start, i) || FlushCommitted(start, trace, i))
            && (t.objs[i].id.Some? ==> t.objs[i].id.value in t.db.rows)
  {
    var s := Fold(Transition(), start, trace);
    HistoryKeeps(start, trace);
    if i in listed {
      PersistRow(start, s, listed, run, now, i);
    } else {
      PersistLeaves(start, s, listed, run, now, i);
      SavedRow(start, trace, i);
      SavedExactlyWhen(start, trace, i);
    }
  }

  /** That row holds the object's final values if and only if it was listed, or has not been changed
      since the last flush of it that committed, or since it was reloaded if none did. */
  lemma FinalValuesExactlyWhen(start: Store, trace: seq<Event>, listed: seq<nat>, run: Option<string>, now: int, i: nat)
    requires Loaded(start) && forall e :: e in trace ==> Fresh(e)
    requires Picks(Fold(Transition(), start, trace).objs, listed) && i < |Fold(Transition(), start, trace).objs|
    requires i in listed || Reloaded(start, i) || FlushCommitted(start, trace, i)
    ensures var s := Fold(Transition(), start, trace);
            var t := Persisted(s, listed, run, now);
            && t.objs[i].id.Some? && t.objs[i].id.value in t.db.rows
            && var row := t.db.rows[t.objs[i].id.value];
               (if i in listed then Filled(row, s.objs[i], run, now) else AsIs(row, s.objs[i])) <==>
                 i in listed || (LastSaved(start, trace, i).Some? && AsIs(LastSaved(start, trace, i).value, s.objs[i]))
  {
    var s := Fold(Transition(), start, trace);
    HistoryKeeps(start, trace);
    OwnsRowExactlyWhen(start, trace, listed, run, now, i);
    if i in listed {
      PersistRow(start, s, listed, run, now, i);
      FilledIs(s.objs[i], run, now);
    } else {
      PersistLeaves(start, s, listed, run, now, i);
      SavedRow(start, trace, i);
    }
  }

  /** The endpoints of the fuzz phase are flushed with their stage and not listed for the final
      persist: after a flush that rolled back they have no row at all. */
  lemma RolledBackFuzzIsLost(db: Db, fuzz: Obj, run: Option<string>, now: int)
    requires (forall k :: k in db.rows ==> k < db.next) && fuzz.id.None?
    ensures var s := Fold(Transition(), Store([], db), [Found(fuzz), Flushed([0], run, now, false)]);
            && s.objs == [Stamp(fuzz, run, now)]
            && Persisted(s, [], run, now).db == db
  {
    var start, found, flushed := Store([], db), Found(fuzz), Flushed([0], run, now, false);
    assert [found, flushed][..1] == [found] && [found][..0] == [];
    assert Fold(Transition(), start, [found]) == Store([fuzz], db);
    assert StampPicked([fuzz], [0], run, now) == [Stamp(fuzz, run, now)];
  }

  /** Nor is a later change of theirs: the row keeps what the flush wrote. */
  lemma LaterChangeIsLost(db: Db, fuzz: Obj, data: string, run: Option<string>, now: int)
    requires (forall k :: k in db.rows ==> k < db.next) && fuzz.id.None?
    ensures var s := Fold(Transition(), Store([], db), [Found(fuzz), Flushed([0], run, now, true), Touched(0, data)]);
            && |s.objs| == 1 && s.objs[0].data == data && s.objs[0].id == Some(db.next)
            && db.next in Persisted(s, [], run, now).db.rows
            && Persisted(s, [], run, now).db.rows[db.next].data == fuzz.data
  {
    var start, found, flushed := Store([], db), Found(fuzz), Flushed([0], run, now, true);
    var touched := Touched(0, data);
    assert [found, flushed, touched][..2] == [found, flushed];
    assert [found, flushed][..1] == [found] && [found][..0] == [];
    assert Fold(Transition(), start, [found]) == Store([fuzz], db);
    assert StampPicked([fuzz], [0], run, now) == [Stamp(fuzz, run, now)];
    assert [0][..0] == [];
    assert Merged(Store([Stamp(fuzz, run, now)], db), []) == Store([Stamp(fuzz, run, now)], db);
  }

  // ---------------------------------------------------------------- what the final persist adds

  lemma {:induction false} MergedRows(s: Store, picked: seq<nat>)
    requires Loaded(s) && Picks(s.objs, picked)
    requires forall k :: 0 <= k < |picked| ==> s.objs[picked[k]].id.Some?
    ensures Merged(s, picked).db.rows.Keys == s.db.rows.Keys
    decreases |picked|
  {
    if |picked| > 0 {
      MergedRows(s, picked[..|picked| - 1]);
      MergedKeepsKeys(s, picked[..|picked| - 1], picked[|picked| - 1]);
    }
  }

  /** The final persist adds no row exactly when every listed object already has its key: it does not
      write keys back, so it must not be repeated on objects that no flush has saved. */
  lemma PersistAddsNothingIffKeyed(s: Store, listed: seq<nat>, run: Option<string>, now: int)
    requires Loaded(s) && Picks(s.objs, listed)
    ensures Persisted(s, listed, run, now).db.rows.Keys == s.db.rows.Keys <==>
              forall k :: 0 <= k < |listed| ==> s.objs[listed[k]].id.Some?
  {
    var stamped := s.(objs := StampPicked(s.objs, listed, run, now));
    if forall k :: 0 <= k < |listed| ==> s.objs[listed[k]].id.Some? {
      MergedRows(stamped, listed);
    } else {
      var k :| 0 <= k < |listed| && s.objs[listed[k]].id.None?;
      assert Fold(Transition(), s, []) == s;
      ExactlyOnce(s, [], listed, run, now);
      assert listed[k] in listed;
      assert Persisted(s, listed, run, now).objs[listed[k]].id.value !in s.db.rows;
    }
  }
}
