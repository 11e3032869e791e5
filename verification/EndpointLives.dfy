/** Endpoint rows across processes that die: what survives, and exactly which saves give a finding a
    second row. */
module EndpointLives {
  import opened EndpointRows
  import opened Traces
  import opened Wrappers

  /** What happens in a process, its final persist, or its death and the start of another that
      reloads some rows. */
  datatype LifeEvent =
    | Within(e: Event)
    | Persists(listed: seq<nat>, run: Option<string>, now: int)
    | Restarted(keys: seq<nat>)

  predicate Reloadable(db: Db, keys: seq<nat>) {
    && (forall i :: 0 <= i < |keys| ==> keys[i] in db.rows)
    && (forall i, j :: 0 <= i < j < |keys| ==> keys[i] != keys[j])
  }

  function ObjOf(key: nat, r: Record): Obj {
    Obj(Some(key), r.run, r.at, r.finding, r.data)
  }

  /** A new process holds what it reloaded, nothing if that failed; the table is what it was. */
  function Restart(db: Db, keys: seq<nat>): Store {
    if Reloadable(db, keys) then
      Store(seq(|keys|, i requires 0 <= i < |keys| && Reloadable(db, keys) => ObjOf(keys[i], db.rows[keys[i]])), db)
    else Store([], db)
  }

  function Live(s: Store, e: LifeEvent): Store {
    match e
    case Within(w) => Apply(s, w)
    case Persists(listed, run, now) =>
      if Picks(s.objs, listed) then Store(StampPicked(s.objs, listed, run, now), Persisted(s, listed, run, now).db) else s
    case Restarted(keys) => Restart(s.db, keys)
  }

  function Living(): (Store, LifeEvent) -> Store {
    (s, e) => Live(s, e)
  }

  const EMPTY: Store := Store([], Db(map[], 1))

  function AfterLife(life: seq<LifeEvent>): Store {
    Fold(Living(), EMPTY, life)
  }

  ghost predicate Unkeyed(e: LifeEvent) {
    e.Within? ==> Fresh(e.e)
  }

  // ---------------------------------------------------------------- one save

  /** Keyed objects stand for the finding of their row. */
  ghost predicate Sound(s: Store) {
    && Loaded(s)
    && forall i :: 0 <= i < |s.objs| && s.objs[i].id.Some? && s.objs[i].id.value in s.db.rows ==>
         s.db.rows[s.objs[i].id.value].finding == s.objs[i].finding
  }

  ghost predicate OneRowEach(db: Db) {
    forall k, l :: k in db.rows && l in db.rows && k != l ==> db.rows[k].finding != db.rows[l].finding
  }

  ghost predicate HasFinding(db: Db, finding: nat) {
    exists k :: k in db.rows && db.rows[k].finding == finding
  }

  /** Merging this object gives no finding a second row: it has its own row, or its finding has none. */
  ghost predicate MergesAnew(s: Store, i: nat)
    requires i < |s.objs|
  {
    s.objs[i].id.Some? || !HasFinding(s.db, s.objs[i].finding)
  }

  function MergeOne(s: Store, i: nat): Store
    requires i < |s.objs|
  {
    var o := s.objs[i];
    Store(s.objs[i := o.(id := Some(KeyFor(s.db, o)))], MergeRow(s.db, o))
  }

  lemma MergeOneSound(s: Store, i: nat)
    requires Sound(s) && i < |s.objs|
    ensures Sound(MergeOne(s, i))
  {
    var key := KeyFor(s.db, s.objs[i]);
    var t := MergeOne(s, i);
    assert t.objs[i].id == Some(key);
  }

  lemma SameFindings(a: Db, b: Db)
    requires a.rows.Keys == b.rows.Keys && forall k :: k in a.rows ==> b.rows[k].finding == a.rows[k].finding
    ensures OneRowEach(b) <==> OneRowEach(a)
  {
  }

  lemma AddedOneEach(a: Db, b: Db, key: nat, r: Record)
    requires key !in a.rows && b.rows == a.rows[key := r]
    ensures OneRowEach(b) <==> OneRowEach(a) && !HasFinding(a, r.finding)
  {
    if OneRowEach(b) {
      forall k, l | k in a.rows && l in a.rows && k != l ensures a.rows[k].finding != a.rows[l].finding {
        assert b.rows[k] == a.rows[k] && b.rows[l] == a.rows[l];
      }
      forall k | k in a.rows ensures a.rows[k].finding != r.finding {
        assert b.rows[k] == a.rows[k] && b.rows[key] == r;
      }
    }
  }

  lemma MergeOneEach(s: Store, i: nat)
    requires Sound(s) && i < |s.objs|
    ensures OneRowEach(MergeOne(s, i).db) <==> OneRowEach(s.db) && MergesAnew(s, i)
  {
    var t, o := MergeOne(s, i), s.objs[i];
    if o.id.Some? {
      SameFindings(s.db, t.db);
    } else {
      AddedOneEach(s.db, t.db, s.db.next, RecordOf(o));
    }
  }

  // ---------------------------------------------------------------- one session

  /** Each of the objects, when its turn comes, gives no finding a second row. */
  ghost predicate SavesAnew(s: Store, picked: seq<nat>)
    requires forall k :: 0 <= k < |picked| ==> picked[k] < |s.objs|
    decreases |picked|
  {
    |picked| > 0 ==>
      && SavesAnew(s, picked[..|picked| - 1])
      && MergesAnew(Merged(s, picked[..|picked| - 1]), picked[|picked| - 1])
  }

  lemma {:induction false} MergedOneEach(s: Store, picked: seq<nat>)
    requires Sound(s) && forall k :: 0 <= k < |picked| ==> picked[k] < |s.objs|
    ensures Sound(Merged(s, picked))
    ensures OneRowEach(Merged(s, picked).db) <==> OneRowEach(s.db) && SavesAnew(s, picked)
    decreases |picked|
  {
    if |picked| > 0 {
      var before, i := Merged(s, picked[..|picked| - 1]), picked[|picked| - 1];
      MergedOneEach(s, picked[..|picked| - 1]);
      assert Merged(s, picked) == MergeOne(before, i);
      MergeOneSound(before, i);
      MergeOneEach(before, i);
    }
  }

  /** The same objects as far as keys and findings go. */
  lemma SameObjects(s: Store, t: Store)
    requires t.db == s.db && |t.objs| == |s.objs|
    requires forall i :: 0 <= i < |s.objs| ==> t.objs[i].id == s.objs[i].id && t.objs[i].finding == s.objs[i].finding
    ensures Sound(t) <==> Sound(s)
  {
    assert Loaded(t) <==> Loaded(s);
  }

  /** The objects as they were, over a table that has grown. */
  lemma SoundOverMore(s: Store, t: Store, picked: seq<nat>)
    requires Sound(s) && Sound(t) && forall k :: 0 <= k < |picked| ==> picked[k] < |s.objs|
    requires t == Merged(s, picked)
    ensures Sound(Store(s.objs, t.db))
  {
    forall i | 0 <= i < |s.objs| ensures s.objs[i].id.Some? ==> t.objs[i].id == s.objs[i].id && t.objs[i].finding == s.objs[i].finding {
      MergedKeepsKeys(s, picked, i);
    }
  }

  /** What a step saves, in a session that commits, gives no finding a second row. */
  ghost predicate Anew(s: Store, e: LifeEvent) {
    match e
    case Within(Flushed(picked, run, now, works)) =>
      works && Picks(s.objs, picked) ==> SavesAnew(s.(objs := StampPicked(s.objs, picked, run, now)), picked)
    case Persists(listed, run, now) =>
      Picks(s.objs, listed) ==> SavesAnew(s.(objs := StampPicked(s.objs, listed, run, now)), listed)
    case _ => true
  }

  lemma FoundSound(s: Store, o: Obj)
    requires Sound(s) && o.id.None?
    ensures Sound(s.(objs := s.objs + [o]))
  {
    var t := s.(objs := s.objs + [o]);
    assert forall i :: 0 <= i < |s.objs| ==> t.objs[i] == s.objs[i];
  }

  lemma FlushOneEach(s: Store, picked: seq<nat>, run: Option<string>, now: int)
    requires Sound(s) && Picks(s.objs, picked)
    ensures var stamped := s.(objs := StampPicked(s.objs, picked, run, now));
            var t := Merged(stamped, picked);
            && Sound(stamped) && Sound(t) && Sound(Store(stamped.objs, t.db))
            && (OneRowEach(t.db) <==> OneRowEach(s.db) && SavesAnew(stamped, picked))
  {
    var stamped := s.(objs := StampPicked(s.objs, picked, run, now));
    SameObjects(s, stamped);
    MergedOneEach(stamped, picked);
    SoundOverMore(stamped, Merged(stamped, picked), picked);
  }

  lemma RestartSound(db: Db, keys: seq<nat>)
    requires forall k :: k in db.rows ==> k < db.next
    ensures Sound(Restart(db, keys)) && Restart(db, keys).db == db
  {
  }

  /** One step of a life: findings stay single if and only if what it saves is new. */
  lemma LiveOneEach(s: Store, e: LifeEvent)
    requires Sound(s) && Unkeyed(e)
    ensures Sound(Live(s, e))
    ensures OneRowEach(Live(s, e).db) <==> OneRowEach(s.db) && Anew(s, e)
  {
    match e
    case Within(Found(o)) => FoundSound(s, o);
    case Within(Touched(i, data)) => SameObjects(s, Live(s, e));
    case Within(Flushed(picked, run, now, works)) =>
      if Picks(s.objs, picked) {
        FlushOneEach(s, picked, run, now);
      }
    case Persists(listed, run, now) =>
      if Picks(s.objs, listed) {
        FlushOneEach(s, listed, run, now);
      }
    case Restarted(keys) => RestartSound(s.db, keys);
  }

  // ---------------------------------------------------------------- whole lives

  /** What the life does at place `n` saves nothing again. */
  ghost predicate AnewAt(life: seq<LifeEvent>, n: nat)
    requires n < |life|
  {
    Anew(AfterLife(life[..n]), life[n])
  }

  /** Every committed session of the life, whichever process it was in, saved nothing again. */
  ghost predicate AllAnew(life: seq<LifeEvent>) {
    forall n :: 0 <= n < |life| ==> AnewAt(life, n)
  }

  lemma SameBefore(life: seq<LifeEvent>, last: nat, n: nat)
    requires n < last <= |life|
    ensures AnewAt(life[..last], n) <==> AnewAt(life, n)
  {
    assert life[..last][..n] == life[..n];
  }

  lemma AllAnewSnoc(life: seq<LifeEvent>)
    requires |life| > 0
    ensures AllAnew(life) <==> AllAnew(life[..|life| - 1]) && AnewAt(life, |life| - 1)
  {
    var last := |life| - 1;
    forall n | 0 <= n < last ensures AnewAt(life[..last], n) <==> AnewAt(life, n) {
      SameBefore(life, last, n);
    }
    if AllAnew(life) {
      forall n | 0 <= n < last ensures AnewAt(life[..last], n) {
        assert AnewAt(life, n);
      }
    }
  }

  lemma {:induction false} LifeOneEach(life: seq<LifeEvent>)
    requires forall e :: e in life ==> Unkeyed(e)
    ensures Sound(AfterLife(life))
    ensures OneRowEach(AfterLife(life).db) <==> AllAnew(life)
    decreases |life|
  {
    if |life| > 0 {
      var n := |life| - 1;
      LifeOneEach(life[..n]);
      LiveOneEach(AfterLife(life[..n]), life[n]);
      AllAnewSnoc(life);
    }
  }

  /** From the empty table on, through any number of processes, no finding has two rows if and only
      if no committed session, a flush or a final persist, merged an object without a key for a
      finding that had a row by then. */
  lemma NoFindingTwiceExactlyWhen(life: seq<LifeEvent>)
    requires forall e :: e in life ==> Unkeyed(e)
    ensures OneRowEach(AfterLife(life).db) <==>
              forall n :: 0 <= n < |life| ==> AnewAt(life, n)
  {
    LifeOneEach(life);
  }

  /** Exactly once across crashes: however often processes died, wherever flushes failed and whatever
      was reloaded, once the last process has persisted, each object listed for that has a row of
      its own with its final values, and every row there was at its start is still there, unchanged
      unless one of its objects owns it. */
  lemma ExactlyOnceAcrossCrashes(life: seq<LifeEvent>, keys: seq<nat>, trace: seq<Event>,
                                 listed: seq<nat>, run: Option<string>, now: int)
    requires forall e :: e in life ==> Unkeyed(e)
    requires forall e :: e in trace ==> Fresh(e)
    requires Picks(Fold(Transition(), Restart(AfterLife(life).db, keys), trace).objs, listed)
    ensures var start := Restart(AfterLife(life).db, keys);
            var s := Fold(Transition(), start, trace);
            var t := Persisted(s, listed, run, now);
            && |t.objs| == |s.objs|
            && (forall i :: i in listed ==>
                  && t.objs[i].id.Some?
                  && t.objs[i].id.value in t.db.rows
                  && Filled(t.db.rows[t.objs[i].id.value], s.objs[i], run, now))
            && (forall i, j :: 0 <= i < j < |t.objs| && t.objs[i].id.Some? ==> t.objs[i].id != t.objs[j].id)
            && (forall k :: k in start.db.rows ==> k in t.db.rows)
            && (forall k :: k in t.db.rows && !Holds(t, k) ==> k in start.db.rows && t.db.rows[k] == start.db.rows[k])
  {
    LifeOneEach(life);
    RestartSound(AfterLife(life).db, keys);
    ExactlyOnce(Restart(AfterLife(life).db, keys), trace, listed, run, now);
  }

  lemma SavesAlone(s: Store, i: nat)
    requires i < |s.objs|
    ensures SavesAnew(s, [i]) <==> MergesAnew(s, i)
  {
    assert [i][..0] == [] && Merged(s, []) == s && SavesAnew(s, []);
  }

  lemma SavedAgain(s: Store, i: nat, run: Option<string>, now: int)
    requires i < |s.objs| && s.objs[i].id.None? && HasFinding(s.db, s.objs[i].finding)
    ensures Picks(s.objs, [i]) && !Anew(s, Persists([i], run, now))
  {
    SavesAlone(s.(objs := StampPicked(s.objs, [i], run, now)), i);
  }

  /** A stage run again after its rows were committed: the finding it makes again gets a second row
      as soon as it is saved. */
  lemma RerunDuplicates(life: seq<LifeEvent>, keys: seq<nat>, finding: nat, data: string, run: Option<string>, now: int)
    requires (forall e :: e in life ==> Unkeyed(e)) && HasFinding(AfterLife(life).db, finding)
    ensures var again := Obj(None, None, None, finding, data);
            var s := Live(Restart(AfterLife(life).db, keys), Within(Found(again)));
            !OneRowEach(Live(s, Persists([|s.objs| - 1], run, now)).db)
  {
    LifeOneEach(life);
    var start := Restart(AfterLife(life).db, keys);
    RestartSound(AfterLife(life).db, keys);
    SecondRow(start, Obj(None, None, None, finding, data), run, now);
  }

  lemma SecondRow(start: Store, again: Obj, run: Option<string>, now: int)
    requires Sound(start) && again.id.None? && HasFinding(start.db, again.finding)
    ensures var s := Live(start, Within(Found(again)));
            !OneRowEach(Live(s, Persists([|s.objs| - 1], run, now)).db)
  {
    FoundSound(start, again);
    var s := start.(objs := start.objs + [again]);
    assert Live(start, Within(Found(again))) == s;
    SavedAgain(s, |s.objs| - 1, run, now);
    LiveOneEach(s, Persists([|s.objs| - 1], run, now));
  }
}
