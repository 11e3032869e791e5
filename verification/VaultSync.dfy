/** The pass over all mapped documents, and what a second pass finds. */
module VaultSync {
  import opened VaultNotes
  import opened Wrappers

  /** A mapped document: its path in the repository and its note's path in the vault. */
  datatype Pair = Pair(source: string, target: string)

  function Lookup(notes: map<string, string>, target: string): Option<string> {
    if target in notes then Some(notes[target]) else None
  }

  function Put(notes: map<string, string>, target: string, note: Option<string>): map<string, string> {
    if note.Some? then notes[target := note.value] else notes
  }

  /** The mapped documents the repository tracks. */
  function Tracked(mapping: seq<Pair>, tracked: set<string>): seq<Pair>
    decreases |mapping|
  {
    if |mapping| == 0 then []
    else
      var last := mapping[|mapping| - 1];
      Tracked(mapping[..|mapping| - 1], tracked) + if last.source in tracked then [last] else []
  }

  function Synced(c: Setting, notes: map<string, string>, pair: Pair, write: bool): map<string, string> {
    Put(notes, pair.target, SyncNote(c, pair.source, pair.target, write, Lookup(notes, pair.target)).0)
  }

  /** The vault and the results after syncing the pairs in order. */
  function Pass(c: Setting, notes: map<string, string>, pairs: seq<Pair>, write: bool): (map<string, string>, seq<PairResult>)
    decreases |pairs|
  {
    if |pairs| == 0 then (notes, [])
    else
      var before := Pass(c, notes, pairs[..|pairs| - 1], write);
      var pair := pairs[|pairs| - 1];
      (Synced(c, before.0, pair, write),
       before.1 + [SyncNote(c, pair.source, pair.target, write, Lookup(before.0, pair.target)).1])
  }

  class Vault {
    var notes: map<string, string>

    constructor (notes: map<string, string>)
      ensures this.notes == notes
    {
      this.notes := notes;
    }

    /** Sync one pair. Writes only when the body differs, and never over a note of another source. */
    method WritePair(c: Setting, source: string, target: string, write: bool) returns (r: PairResult)
      modifies this
      ensures r == SyncNote(c, source, target, write, Lookup(old(notes), target)).1
      ensures notes == Synced(c, old(notes), Pair(source, target), write)
    {
      var doc := c.docs(source);
      if target !in notes {
        if write {
          notes := notes[target := Render(NewFrontmatter(source, c.today), doc, c.today, LF)];
          return PairResult(source, target, Created, c.diff("", doc), None);
        }
        return PairResult(source, target, Missing, c.diff("", doc), None);
      }
      var text := notes[target];
      var parsed := ParseNote(text);
      var n := c.diff(parsed.body, doc);
      var problem := OwnershipProblem(parsed.frontmatter, source);
      assert notes[target := text] == notes;
      if problem.Some? {
        return PairResult(source, target, Refused, n, problem);
      }
      if n == 0 {
        return PairResult(source, target, InSync, 0, None);
      }
      if !write {
        return PairResult(source, target, Drift, n, None);
      }
      var nl := NoteNewline(text);
      notes := notes[target := Render(parsed.frontmatter, doc, c.today, if nl.Some? then nl.value else LF)];
      return PairResult(source, target, Written, n, None);
    }

    /** Sync every tracked pair of the mapping. */
    method PlanSync(c: Setting, mapping: seq<Pair>, tracked: set<string>, write: bool) returns (results: seq<PairResult>)
      modifies this
      ensures (notes, results) == Pass(c, old(notes), Tracked(mapping, tracked), write)
    {
      results := [];
      for i := 0 to |mapping|
        invariant (notes, results) == Pass(c, old(notes), Tracked(mapping[..i], tracked), write)
      {
        var pair := mapping[i];
        assert mapping[..i + 1][..i] == mapping[..i];
        if pair.source in tracked {
          PassSnoc(c, old(notes), Tracked(mapping[..i], tracked), pair, write);
          var r := WritePair(c, pair.source, pair.target, write);
          results := results + [r];
        } else {
          assert Tracked(mapping[..i], tracked) + [] == Tracked(mapping[..i], tracked);
        }
      }
      assert mapping[..|mapping|] == mapping;
    }
  }

  lemma PassSnoc(c: Setting, notes: map<string, string>, pairs: seq<Pair>, pair: Pair, write: bool)
    ensures var before := Pass(c, notes, pairs, write);
            Pass(c, notes, pairs + [pair], write) ==
            (Synced(c, before.0, pair, write),
             before.1 + [SyncNote(c, pair.source, pair.target, write, Lookup(before.0, pair.target)).1])
  {
    assert (pairs + [pair])[..|pairs|] == pairs;
  }

  // ---------------------------------------------------------------- what a pass does

  ghost predicate DistinctTargets(pairs: seq<Pair>) {
    forall i, j :: 0 <= i < j < |pairs| ==> pairs[i].target != pairs[j].target
  }

  ghost predicate Targets(pairs: seq<Pair>, target: string) {
    exists i :: 0 <= i < |pairs| && pairs[i].target == target
  }

  lemma {:induction false} TrackedFromMapping(mapping: seq<Pair>, tracked: set<string>)
    requires DistinctTargets(mapping)
    ensures DistinctTargets(Tracked(mapping, tracked))
    ensures forall t :: Targets(Tracked(mapping, tracked), t) ==> Targets(mapping, t)
    decreases |mapping|
  {
    if |mapping| > 0 {
      var init, last := mapping[..|mapping| - 1], mapping[|mapping| - 1];
      TrackedFromMapping(init, tracked);
      var kept := Tracked(init, tracked);
      assert !Targets(init, last.target);
      forall i | 0 <= i < |kept| ensures kept[i].target != last.target {
        assert Targets(kept, kept[i].target);
      }
      forall t | Targets(Tracked(mapping, tracked), t) ensures Targets(mapping, t) {
        var _ := TrackedTargets(mapping, tracked, t);
      }
    }
  }

  /** A target of the tracked pairs is that of a tracked document of the mapping. */
  lemma {:induction false} TrackedTargets(mapping: seq<Pair>, tracked: set<string>, t: string) returns (i: nat)
    requires Targets(Tracked(mapping, tracked), t)
    ensures i < |mapping| && mapping[i].target == t && mapping[i].source in tracked
    decreases |mapping|
  {
    var init, last := mapping[..|mapping| - 1], mapping[|mapping| - 1];
    if last.target == t && last.source in tracked {
      i := |mapping| - 1;
    } else {
      var k :| 0 <= k < |Tracked(mapping, tracked)| && Tracked(mapping, tracked)[k].target == t;
      assert Tracked(init, tracked)[k].target == t;
      i := TrackedTargets(init, tracked, t);
    }
  }

  /** With distinct targets the pairs do not affect each other. */
  lemma {:induction false} PassElsewhere(c: Setting, notes: map<string, string>, pairs: seq<Pair>, write: bool, target: string)
    requires !Targets(pairs, target)
    ensures Lookup(Pass(c, notes, pairs, write).0, target) == Lookup(notes, target)
    decreases |pairs|
  {
    if |pairs| > 0 {
      assert pairs[|pairs| - 1].target != target;
      assert !Targets(pairs[..|pairs| - 1], target);
      PassElsewhere(c, notes, pairs[..|pairs| - 1], write, target);
    }
  }

  lemma PassAtLast(c: Setting, notes: map<string, string>, init: seq<Pair>, pair: Pair, write: bool)
    requires !Targets(init, pair.target)
    ensures var (after, results) := Pass(c, notes, init + [pair], write);
            var (note, result) := SyncNote(c, pair.source, pair.target, write, Lookup(notes, pair.target));
            |results| == |init| + 1 && results[|init|] == result && Lookup(after, pair.target) == note
  {
    var before := Pass(c, notes, init, write).0;
    PassLength(c, notes, init, write);
    PassElsewhere(c, notes, init, write, pair.target);
    PassSnoc(c, notes, init, pair, write);
    SyncedAt(c, before, pair, write);
  }

  /** A later pair with another target changes neither the note nor the result. */
  lemma PassBeforeLast(c: Setting, notes: map<string, string>, init: seq<Pair>, pair: Pair, write: bool, i: nat)
    requires i < |init| && init[i].target != pair.target
    ensures var (before, after) := (Pass(c, notes, init, write), Pass(c, notes, init + [pair], write));
            && |before.1| == |init| && |after.1| == |init| + 1 && after.1[i] == before.1[i]
            && Lookup(after.0, init[i].target) == Lookup(before.0, init[i].target)
  {
    PassSnoc(c, notes, init, pair, write);
    PassLength(c, notes, init, write);
  }

  lemma {:induction false} PassAt(c: Setting, notes: map<string, string>, pairs: seq<Pair>, write: bool, i: nat)
    requires DistinctTargets(pairs) && i < |pairs|
    ensures var (after, results) := Pass(c, notes, pairs, write);
            var (note, result) := SyncNote(c, pairs[i].source, pairs[i].target, write, Lookup(notes, pairs[i].target));
            |results| == |pairs| && results[i] == result && Lookup(after, pairs[i].target) == note
    decreases |pairs|
  {
    var n := |pairs| - 1;
    assert pairs == pairs[..n] + [pairs[n]];
    if i < n {
      PassAt(c, notes, pairs[..n], write, i);
      PassBeforeLast(c, notes, pairs[..n], pairs[n], write, i);
    } else {
      PassAtLast(c, notes, pairs[..n], pairs[n], write);
    }
  }

  lemma SyncedAt(c: Setting, notes: map<string, string>, pair: Pair, write: bool)
    ensures Lookup(Synced(c, notes, pair, write), pair.target) ==
            SyncNote(c, pair.source, pair.target, write, Lookup(notes, pair.target)).0
  {
    LookupPut(notes, pair.target, SyncNote(c, pair.source, pair.target, write, Lookup(notes, pair.target)).0);
  }

  lemma LookupPut(notes: map<string, string>, target: string, note: Option<string>)
    requires Lookup(notes, target).Some? ==> note.Some?
    ensures Lookup(Put(notes, target, note), target) == note
  {
  }

  lemma {:induction false} PassLength(c: Setting, notes: map<string, string>, pairs: seq<Pair>, write: bool)
    ensures |Pass(c, notes, pairs, write).1| == |pairs|
    decreases |pairs|
  {
    if |pairs| > 0 {
      PassLength(c, notes, pairs[..|pairs| - 1], write);
    }
  }

  /** After a writing pass every pair reports in sync or refused, a refused note is byte for byte
      what it was, notes that are no target are untouched, and a second pass, on whatever day,
      changes nothing. */
  lemma WritePassSettles(c: Setting, later: string, notes: map<string, string>, pairs: seq<Pair>)
    requires Sound(c) && BreakFree(later) && DistinctTargets(pairs)
    ensures var (after, results) := Pass(c, notes, pairs, true);
            var again := Pass(c.(today := later), after, pairs, true);
            && again.0 == after
            && |again.1| == |results| == |pairs|
            && (forall i :: 0 <= i < |pairs| ==> again.1[i].status in {InSync, Refused})
            && (forall i :: 0 <= i < |pairs| && again.1[i].status.InSync? && !results[i].status.InSync? ==>
                  pairs[i].target in after && Parse(after[pairs[i].target]).body == c.docs(pairs[i].source))
            && (forall i :: 0 <= i < |pairs| && results[i].status.Refused? ==>
                  again.1[i].status.Refused? && Lookup(after, pairs[i].target) == Lookup(notes, pairs[i].target))
            && (forall t :: !Targets(pairs, t) ==> Lookup(after, t) == Lookup(notes, t))
  {
    var (after, results) := Pass(c, notes, pairs, true);
    var c' := c.(today := later);
    var again := Pass(c', after, pairs, true);
    PassLength(c, notes, pairs, true);
    PassLength(c', after, pairs, true);
    forall i | 0 <= i < |pairs|
      ensures again.1[i].status in {InSync, Refused}
      ensures Lookup(again.0, pairs[i].target) == Lookup(after, pairs[i].target)
      ensures again.1[i].status.InSync? && !results[i].status.InSync? ==>
                pairs[i].target in after && Parse(after[pairs[i].target]).body == c.docs(pairs[i].source)
      ensures results[i].status.Refused? ==>
                again.1[i].status.Refused? && Lookup(after, pairs[i].target) == Lookup(notes, pairs[i].target)
    {
      PairSettles(c, later, notes, pairs, i);
    }
    forall t | !Targets(pairs, t)
      ensures Lookup(after, t) == Lookup(notes, t) && Lookup(again.0, t) == Lookup(after, t)
    {
      PassElsewhere(c, notes, pairs, true, t);
      PassElsewhere(c', after, pairs, true, t);
    }
    assert again.0 == after by {
      forall t ensures Lookup(again.0, t) == Lookup(after, t) {
        if Targets(pairs, t) {
          var i :| 0 <= i < |pairs| && pairs[i].target == t;
        }
      }
      SameLookups(again.0, after);
    }
  }

  /** The same for the pass the program makes, over the tracked documents of a mapping with distinct
      targets: a second pass changes nothing, and no note is touched that is not a target of the
      mapping, nor that of an untracked document. */
  lemma TrackedPassSettles(c: Setting, later: string, notes: map<string, string>, mapping: seq<Pair>, tracked: set<string>)
    requires Sound(c) && BreakFree(later) && DistinctTargets(mapping)
    ensures var pairs := Tracked(mapping, tracked);
            var after := Pass(c, notes, pairs, true).0;
            var again := Pass(c.(today := later), after, pairs, true);
            && again.0 == after
            && |again.1| == |pairs|
            && (forall i :: 0 <= i < |pairs| ==> again.1[i].status in {InSync, Refused})
            && (forall t :: !Targets(mapping, t) ==> Lookup(after, t) == Lookup(notes, t))
            && (forall i :: 0 <= i < |mapping| && mapping[i].source !in tracked ==>
                  Lookup(after, mapping[i].target) == Lookup(notes, mapping[i].target))
  {
    TrackedFromMapping(mapping, tracked);
    var pairs := Tracked(mapping, tracked);
    WritePassSettles(c, later, notes, pairs);
    forall i | 0 <= i < |mapping| && Targets(pairs, mapping[i].target) ensures mapping[i].source in tracked {
      TargetIsTracked(mapping, tracked, i);
    }
  }

  lemma TargetIsTracked(mapping: seq<Pair>, tracked: set<string>, i: nat)
    requires DistinctTargets(mapping) && i < |mapping| && Targets(Tracked(mapping, tracked), mapping[i].target)
    ensures mapping[i].source in tracked
  {
    var j := TrackedTargets(mapping, tracked, mapping[i].target);
    assert j == i;
  }

  lemma SameLookups(a: map<string, string>, b: map<string, string>)
    requires forall t :: Lookup(a, t) == Lookup(b, t)
    ensures a == b
  {
    forall t ensures t in a <==> t in b {
      assert Lookup(a, t) == Lookup(b, t);
    }
    forall t | t in a ensures a[t] == b[t] {
      assert Lookup(a, t) == Lookup(b, t);
    }
  }

  lemma PairSettles(c: Setting, later: string, notes: map<string, string>, pairs: seq<Pair>, i: nat)
    requires Sound(c) && BreakFree(later) && DistinctTargets(pairs) && i < |pairs|
    ensures var (after, results) := Pass(c, notes, pairs, true);
            var again := Pass(c.(today := later), after, pairs, true);
            && |again.1| == |results| == |pairs|
            && again.1[i].status in {InSync, Refused}
            && Lookup(again.0, pairs[i].target) == Lookup(after, pairs[i].target)
            && (again.1[i].status.InSync? && !results[i].status.InSync? ==>
                  pairs[i].target in after && Parse(after[pairs[i].target]).body == c.docs(pairs[i].source))
            && (results[i].status.Refused? ==>
                  again.1[i].status.Refused? && Lookup(after, pairs[i].target) == Lookup(notes, pairs[i].target))
  {
    var after := Pass(c, notes, pairs, true).0;
    var source, target, note := pairs[i].source, pairs[i].target, Lookup(notes, pairs[i].target);
    PassAt(c, notes, pairs, true, i);
    PassAt(c.(today := later), after, pairs, true, i);
    WrittenSettles(c, later, source, target, note);
    if note.None? && BreakFree(source) {
      NewNoteParses(c, source);
    }
  }

  ghost function Promoted(s: Status): Status {
    match s
    case Missing => Created
    case Drift => Written
    case _ => s
  }

  /** A check run changes nothing and tells exactly what a writing pass would do. */
  lemma CheckPredictsWrite(c: Setting, notes: map<string, string>, pairs: seq<Pair>)
    requires DistinctTargets(pairs)
    ensures Pass(c, notes, pairs, false).0 == notes
    ensures var checked, written := Pass(c, notes, pairs, false).1, Pass(c, notes, pairs, true).1;
            && |checked| == |written| == |pairs|
            && forall i :: 0 <= i < |pairs| ==> written[i] == checked[i].(status := Promoted(checked[i].status))
  {
    PassLength(c, notes, pairs, false);
    PassLength(c, notes, pairs, true);
    var checked, written := Pass(c, notes, pairs, false).1, Pass(c, notes, pairs, true).1;
    forall i | 0 <= i < |pairs| ensures written[i] == checked[i].(status := Promoted(checked[i].status)) {
      PairPredicts(c, notes, pairs, i);
    }
    CheckChangesNothing(c, notes, pairs);
  }

  lemma PairPredicts(c: Setting, notes: map<string, string>, pairs: seq<Pair>, i: nat)
    requires DistinctTargets(pairs) && i < |pairs|
    ensures var checked, written := Pass(c, notes, pairs, false).1, Pass(c, notes, pairs, true).1;
            && |checked| == |written| == |pairs|
            && written[i] == checked[i].(status := Promoted(checked[i].status))
  {
    PassAt(c, notes, pairs, false, i);
    PassAt(c, notes, pairs, true, i);
    CheckPredictsNote(c, pairs[i].source, pairs[i].target, Lookup(notes, pairs[i].target));
  }

  lemma CheckPredictsNote(c: Setting, source: string, target: string, note: Option<string>)
    ensures var checked, written := SyncNote(c, source, target, false, note).1, SyncNote(c, source, target, true, note).1;
            written == checked.(status := Promoted(checked.status))
  {
  }

  lemma {:induction false} CheckChangesNothing(c: Setting, notes: map<string, string>, pairs: seq<Pair>)
    ensures Pass(c, notes, pairs, false).0 == notes
    decreases |pairs|
  {
    if |pairs| > 0 {
      CheckChangesNothing(c, notes, pairs[..|pairs| - 1]);
      var target := pairs[|pairs| - 1].target;
      assert target in notes ==> notes[target := notes[target]] == notes;
    }
  }
}
