/** What it is to filter a list and to cut one up, said without recursion. */
module Sequences {

  /** `ys` are the images of the elements of `xs` at the places `at`, which are in order and are
      exactly the places of the elements to keep. */
  ghost predicate Selects<A, B>(xs: seq<A>, keep: A -> bool, make: A -> B, ys: seq<B>, at: seq<nat>) {
    && |at| == |ys|
    && (forall k :: 0 <= k < |at| ==> at[k] < |xs| && keep(xs[at[k]]) && ys[k] == make(xs[at[k]]))
    && (forall k, l :: 0 <= k < l < |at| ==> at[k] < at[l])
    && (forall i :: 0 <= i < |xs| && keep(xs[i]) ==> i in at)
  }

  /** `ys` is `xs` without the elements that are not to be kept, in order, each of the others once
      for every time it occurs. */
  ghost predicate Filtered<A, B>(xs: seq<A>, keep: A -> bool, make: A -> B, ys: seq<B>) {
    exists at :: Selects(xs, keep, make, ys, at)
  }

  ghost function Itself<T>(): T -> T {
    (x: T) => x
  }

  lemma FilteredNone<A, B>(keep: A -> bool, make: A -> B)
    ensures Filtered([], keep, make, [])
  {
    assert Selects([], keep, make, [], []);
  }

  lemma FilteredSnoc<A, B>(xs: seq<A>, keep: A -> bool, make: A -> B, ys: seq<B>, x: A)
    requires Filtered(xs, keep, make, ys)
    ensures Filtered(xs + [x], keep, make, if keep(x) then ys + [make(x)] else ys)
  {
    var at :| Selects(xs, keep, make, ys, at);
    if keep(x) {
      SelectsOneMore(xs, keep, make, ys, at, x);
    } else {
      assert Selects(xs + [x], keep, make, ys, at);
    }
  }

  lemma FilteredLast<A, B>(xs: seq<A>, keep: A -> bool, make: A -> B, ys: seq<B>, zs: seq<B>)
    requires |xs| > 0 && Filtered(xs[..|xs| - 1], keep, make, ys)
    requires var x := xs[|xs| - 1]; zs == if keep(x) then ys + [make(x)] else ys
    ensures Filtered(xs, keep, make, zs)
  {
    assert xs == xs[..|xs| - 1] + [xs[|xs| - 1]];
    FilteredSnoc(xs[..|xs| - 1], keep, make, ys, xs[|xs| - 1]);
  }

  lemma SelectsOneMore<A, B>(xs: seq<A>, keep: A -> bool, make: A -> B, ys: seq<B>, at: seq<nat>, x: A)
    requires Selects(xs, keep, make, ys, at) && keep(x)
    ensures Selects(xs + [x], keep, make, ys + [make(x)], at + [|xs|])
  {
    var more, at' := xs + [x], at + [|xs|];
    forall i | 0 <= i < |more| && keep(more[i]) ensures i in at' {
      if i < |xs| {
        assert i in at;
      } else {
        assert at'[|at|] == i;
      }
    }
  }

  /** Everything is kept as it is. */
  lemma FilteredAll<A>(xs: seq<A>, keep: A -> bool, make: A -> A)
    requires forall i :: 0 <= i < |xs| ==> keep(xs[i]) && make(xs[i]) == xs[i]
    ensures Filtered(xs, keep, make, xs)
  {
    var at := seq(|xs|, i => i);
    forall i | 0 <= i < |xs| ensures i in at {
      assert at[i] == i;
    }
    assert Selects(xs, keep, make, xs, at);
  }

  lemma FilteredEmpty<A, B>(xs: seq<A>, keep: A -> bool, make: A -> B, ys: seq<B>)
    requires Filtered(xs, keep, make, ys)
    ensures ys == [] <==> forall i :: 0 <= i < |xs| ==> !keep(xs[i])
  {
    var at: seq<nat> :| Selects(xs, keep, make, ys, at);
    if |ys| > 0 {
      assert keep(xs[at[0]]);
    }
    if i :| 0 <= i < |xs| && keep(xs[i]) {
      assert i in at;
    }
  }

  /** There is only one such list. */
  lemma FilteredUnique<A, B>(xs: seq<A>, keep: A -> bool, make: A -> B, ys: seq<B>, zs: seq<B>)
    requires Filtered(xs, keep, make, ys) && Filtered(xs, keep, make, zs)
    ensures ys == zs
  {
    var at: seq<nat> :| Selects(xs, keep, make, ys, at);
    var bt: seq<nat> :| Selects(xs, keep, make, zs, bt);
    forall i: nat ensures i in at <==> i in bt {
      SelectsPlace(xs, keep, make, ys, at, i);
      SelectsPlace(xs, keep, make, zs, bt, i);
    }
    SamePlaces(at, bt);
    SelectsSame(xs, keep, make, ys, zs, at);
  }

  lemma SelectsPlace<A, B>(xs: seq<A>, keep: A -> bool, make: A -> B, ys: seq<B>, at: seq<nat>, i: nat)
    requires Selects(xs, keep, make, ys, at)
    ensures i in at <==> i < |xs| && keep(xs[i])
  {
    if i in at {
      var k :| 0 <= k < |at| && at[k] == i;
    }
  }

  lemma SelectsSame<A, B>(xs: seq<A>, keep: A -> bool, make: A -> B, ys: seq<B>, zs: seq<B>, at: seq<nat>)
    requires Selects(xs, keep, make, ys, at) && Selects(xs, keep, make, zs, at)
    ensures ys == zs
  {
  }

  lemma InAllButLast(at: seq<nat>, i: nat)
    requires |at| > 0 && forall k, l :: 0 <= k < l < |at| ==> at[k] < at[l]
    ensures i in at[..|at| - 1] <==> i in at && i != at[|at| - 1]
  {
    assert at == at[..|at| - 1] + [at[|at| - 1]];
  }

  lemma {:induction false} SamePlaces(at: seq<nat>, bt: seq<nat>)
    requires forall k, l :: 0 <= k < l < |at| ==> at[k] < at[l]
    requires forall k, l :: 0 <= k < l < |bt| ==> bt[k] < bt[l]
    requires forall i: nat :: i in at <==> i in bt
    ensures at == bt
    decreases |at|
  {
    assert |at| > 0 ==> at[0] in at;
    assert |bt| > 0 ==> bt[0] in bt;
    if |at| > 0 {
      var m, n := |at| - 1, |bt| - 1;
      assert at[m] in bt;
      assert bt[n] in at;
      assert at[m] == bt[n];
      forall i: nat ensures i in at[..m] <==> i in bt[..n] {
        InAllButLast(at, i);
        InAllButLast(bt, i);
      }
      SamePlaces(at[..m], bt[..n]);
    }
  }

  // ---------------------------------------------------------------- cutting up

  /** The list falls into `n` pieces, one behind the other. */
  ghost predicate Cuts<T>(whole: seq<T>, at: seq<nat>, n: nat) {
    && |at| == n + 1
    && at[0] == 0 && at[n] == |whole|
    && (forall i, j :: 0 <= i <= j <= n ==> at[i] <= at[j])
  }

  ghost function Piece<T>(whole: seq<T>, at: seq<nat>, i: nat): seq<T> {
    if i + 1 < |at| && at[i] <= at[i + 1] <= |whole| then whole[at[i]..at[i + 1]] else []
  }

  /** The list falls into `n` pieces that are as they should be. */
  ghost predicate Pieced<T>(whole: seq<T>, n: nat, fine: (nat, seq<T>) -> bool) {
    exists at :: Cuts(whole, at, n) && forall i :: 0 <= i < n ==> fine(i, Piece(whole, at, i))
  }

  lemma PiecedNone<T>(fine: (nat, seq<T>) -> bool)
    ensures Pieced([], 0, fine)
  {
    assert Cuts<T>([], [0], 0);
  }

  lemma PiecedSnoc<T>(whole: seq<T>, n: nat, fine: (nat, seq<T>) -> bool, piece: seq<T>)
    requires Pieced(whole, n, fine) && fine(n, piece)
    ensures Pieced(whole + piece, n + 1, fine)
  {
    var at: seq<nat> :| Cuts(whole, at, n) && forall i :: 0 <= i < n ==> fine(i, Piece(whole, at, i));
    var more := whole + piece;
    var at': seq<nat> := at + [|more|];
    assert Cuts(more, at', n + 1);
    forall i | 0 <= i < n + 1 ensures fine(i, Piece(more, at', i)) {
      if i < n {
        assert at[i + 1] <= |whole|;
        assert Piece(more, at', i) == Piece(whole, at, i);
      } else {
        assert Piece(more, at', i) == piece;
      }
    }
  }

  /** The first `n` pieces, one behind the other. */
  ghost function Joined<T>(piece: nat -> seq<T>, n: nat): seq<T>
    decreases n
  {
    if n == 0 then [] else Joined(piece, n - 1) + piece(n - 1)
  }

  lemma {:induction false} JoinedPieced<T>(piece: nat -> seq<T>, n: nat, fine: (nat, seq<T>) -> bool)
    requires forall i :: 0 <= i < n ==> fine(i, piece(i))
    ensures Pieced(Joined(piece, n), n, fine)
    decreases n
  {
    if n == 0 {
      PiecedNone(fine);
    } else {
      JoinedPieced(piece, n - 1, fine);
      PiecedSnoc(Joined(piece, n - 1), n - 1, fine, piece(n - 1));
    }
  }

  lemma {:induction false} JoinedEmpty<T>(piece: nat -> seq<T>, n: nat)
    ensures Joined(piece, n) == [] <==> forall i :: 0 <= i < n ==> piece(i) == []
    decreases n
  {
    if n > 0 {
      JoinedEmpty(piece, n - 1);
    }
  }
}
