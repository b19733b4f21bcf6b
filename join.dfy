/** The inner equi-join of two tables, as `DataFrame.merge(right, left_on=..., right_on=...)`
    computes it with its default `how='inner'`: every pair of a left row and a
    right row whose keys are equal, left rows in order and, for each of them,
    the matching right rows in order. */
module Join {

  /** The rows of `right` whose key equals the key of `l`, each paired with `l`. */
  function Matches<L, R>(l: L, right: seq<R>, lk: L -> int, rk: R -> int): seq<(L, R)>
    decreases |right|
  {
    if |right| == 0 then []
    else
      var last := right[|right| - 1];
      Matches(l, right[..|right| - 1], lk, rk) + (if rk(last) == lk(l) then [(l, last)] else [])
  }

  function InnerJoin<L, R>(left: seq<L>, right: seq<R>, lk: L -> int, rk: R -> int): seq<(L, R)>
    decreases |left|
  {
    if |left| == 0 then []
    else InnerJoin(left[..|left| - 1], right, lk, rk) + Matches(left[|left| - 1], right, lk, rk)
  }

  /** The key of the row at position `i` is `i`: the keys are exactly 0 .. |s| - 1, in order. */
  predicate KeysArePositions<T>(s: seq<T>, key: T -> int) {
    forall i :: 0 <= i < |s| ==> key(s[i]) == i
  }

  /** Row-aligned pairing of two tables of equal length. */
  function Zip<L, R>(left: seq<L>, right: seq<R>): seq<(L, R)>
    requires |left| == |right|
  {
    seq(|left|, i requires 0 <= i < |left| => (left[i], right[i]))
  }

  lemma {:induction false} MatchesMembership<L, R>(l: L, right: seq<R>, lk: L -> int, rk: R -> int)
    ensures forall p :: p in Matches(l, right, lk, rk) <==> p.0 == l && p.1 in right && rk(p.1) == lk(l)
    decreases |right|
  {
    if |right| > 0 {
      var init := right[..|right| - 1];
      MatchesMembership(l, init, lk, rk);
      assert right == init + [right[|right| - 1]];
    }
  }

  /** A pair is in the join exactly when its left row is in `left`, its right
      row is in `right`, and their keys are equal. */
  lemma {:induction false} InnerJoinMembership<L, R>(left: seq<L>, right: seq<R>, lk: L -> int, rk: R -> int)
    ensures forall p :: p in InnerJoin(left, right, lk, rk) <==> p.0 in left && p.1 in right && lk(p.0) == rk(p.1)
    decreases |left|
  {
    if |left| > 0 {
      var init := left[..|left| - 1];
      InnerJoinMembership(init, right, lk, rk);
      MatchesMembership(left[|left| - 1], right, lk, rk);
      assert left == init + [left[|left| - 1]];
    }
  }

  lemma {:induction false} MatchesNone<L, R>(l: L, right: seq<R>, lk: L -> int, rk: R -> int)
    requires forall i :: 0 <= i < |right| ==> rk(right[i]) != lk(l)
    ensures Matches(l, right, lk, rk) == []
    decreases |right|
  {
    if |right| > 0 {
      MatchesNone(l, right[..|right| - 1], lk, rk);
    }
  }

  /** Against a table whose keys are its positions, a key in range matches
      exactly one row: the one at that position. */
  lemma {:induction false} MatchesAtPosition<L, R>(l: L, right: seq<R>, lk: L -> int, rk: R -> int)
    requires KeysArePositions(right, rk)
    requires 0 <= lk(l) < |right|
    ensures Matches(l, right, lk, rk) == [(l, right[lk(l)])]
    decreases |right|
  {
    var init := right[..|right| - 1];
    if lk(l) < |right| - 1 {
      MatchesAtPosition(l, init, lk, rk);
    } else {
      MatchesNone(l, init, lk, rk);
    }
  }

  /** Joining onto a table whose keys are its positions, with every left key in
      range, is a lookup: one output row per left row, in left order. */
  lemma {:induction false} InnerJoinLookup<L, R>(left: seq<L>, right: seq<R>, lk: L -> int, rk: R -> int)
    requires KeysArePositions(right, rk)
    requires forall i :: 0 <= i < |left| ==> 0 <= lk(left[i]) < |right|
    ensures |InnerJoin(left, right, lk, rk)| == |left|
    ensures forall i :: 0 <= i < |left| ==> InnerJoin(left, right, lk, rk)[i] == (left[i], right[lk(left[i])])
    decreases |left|
  {
    if |left| > 0 {
      InnerJoinLookup(left[..|left| - 1], right, lk, rk);
      MatchesAtPosition(left[|left| - 1], right, lk, rk);
    }
  }

  /** When both key columns are exactly 0 .. N - 1 in order, the inner join is
      the row-aligned pairing: it neither drops nor duplicates rows. */
  lemma InnerJoinPositional<L, R>(left: seq<L>, right: seq<R>, lk: L -> int, rk: R -> int)
    requires |left| == |right|
    requires KeysArePositions(left, lk) && KeysArePositions(right, rk)
    ensures InnerJoin(left, right, lk, rk) == Zip(left, right)
  {
    InnerJoinLookup(left, right, lk, rk);
  }

  /** A left row whose key exactly one right row has is paired with that row alone. */
  lemma {:induction false} MatchesOne<L, R>(l: L, right: seq<R>, lk: L -> int, rk: R -> int, j: int)
    requires 0 <= j < |right|
    requires forall i :: 0 <= i < |right| ==> (rk(right[i]) == lk(l) <==> i == j)
    ensures Matches(l, right, lk, rk) == [(l, right[j])]
    decreases |right|
  {
    var init := right[..|right| - 1];
    if j < |right| - 1 {
      MatchesOne(l, init, lk, rk, j);
    } else {
      MatchesNone(l, init, lk, rk);
    }
  }

  /** A left row whose key exactly two right rows have is paired with both,
      in right order. */
  lemma {:induction false} MatchesTwo<L, R>(l: L, right: seq<R>, lk: L -> int, rk: R -> int, j: int, k: int)
    requires 0 <= j < k < |right|
    requires forall i :: 0 <= i < |right| ==> (rk(right[i]) == lk(l) <==> i == j || i == k)
    ensures Matches(l, right, lk, rk) == [(l, right[j]), (l, right[k])]
    decreases |right|
  {
    var init := right[..|right| - 1];
    if k < |right| - 1 {
      MatchesTwo(l, init, lk, rk, j, k);
    } else {
      MatchesOne(l, init, lk, rk, j);
    }
  }

  /** Without unique keys the join is no positional merge: a left row whose
      key occurs twice on the right comes out twice. */
  lemma InnerJoinRepeatedKeyDoubles<L, R>(l: L, right: seq<R>, lk: L -> int, rk: R -> int, j: int, k: int)
    requires 0 <= j < k < |right|
    requires forall i :: 0 <= i < |right| ==> (rk(right[i]) == lk(l) <==> i == j || i == k)
    ensures InnerJoin([l], right, lk, rk) == [(l, right[j]), (l, right[k])]
  {
    MatchesTwo(l, right, lk, rk, j, k);
    assert [l][..0] == [];
  }

  /** An instance of InnerJoinRepeatedKeyDoubles: joining [0] with [0, 0] on
      the identity key gives two rows. */
  lemma InnerJoinRepeatedKey()
    ensures InnerJoin([0], [0, 0], (k: int) => k, (k: int) => k) == [(0, 0), (0, 0)]
  {
    var id := (k: int) => k;
    assert Matches(0, [0], id, id) == [(0, 0)] by {
      assert Matches(0, [0][..0], id, id) == [];
    }
    assert [0, 0][..1] == [0];
    assert [0][..0] == [];
  }
}
