/** Removal of exact duplicate rows, keeping the first occurrence of each. */
module Dedup {

  /** The elements of `s` without repeats, each at the place of its first
      occurrence. Defined from the last element back, as a loop that scans `s`
      from the front builds it. */
  function Distinct<T(==)>(s: seq<T>): seq<T>
    decreases |s|
  {
    if |s| == 0 then []
    else
      var kept := Distinct(s[..|s| - 1]);
      if s[|s| - 1] in kept then kept else kept + [s[|s| - 1]]
  }

  /** The position of the first occurrence of `x` in `s`. */
  function FirstIndex<T(==)>(s: seq<T>, x: T): (i: nat)
    requires x in s
    ensures i < |s| && s[i] == x && x !in s[..i]
    decreases |s|
  {
    if x in s[..|s| - 1] then FirstIndex(s[..|s| - 1], x) else |s| - 1
  }

  predicate NoRepeats<T(==)>(s: seq<T>) {
    forall j, k :: 0 <= j < k < |s| ==> s[j] != s[k]
  }

  /** Deduplication loses no row and invents none. */
  lemma {:induction false} DistinctSameElements<T>(s: seq<T>)
    ensures forall x :: x in Distinct(s) <==> x in s
    decreases |s|
  {
    if |s| > 0 {
      var p := s[..|s| - 1];
      DistinctSameElements(p);
      assert s == p + [s[|s| - 1]];
    }
  }

  /** After deduplication no two rows are equal. */
  lemma {:induction false} DistinctNoRepeats<T>(s: seq<T>)
    ensures NoRepeats(Distinct(s))
    decreases |s|
  {
    if |s| > 0 {
      DistinctNoRepeats(s[..|s| - 1]);
    }
  }

  /** The survivors come in the order of their first occurrences in `s`. */
  lemma {:induction false} DistinctFirstOccurrenceOrder<T>(s: seq<T>)
    ensures forall x :: x in Distinct(s) ==> x in s
    ensures forall j, k :: 0 <= j < k < |Distinct(s)| ==>
              FirstIndex(s, Distinct(s)[j]) < FirstIndex(s, Distinct(s)[k])
    decreases |s|
  {
    DistinctSameElements(s);
    if |s| > 0 {
      var p := s[..|s| - 1];
      var last := s[|s| - 1];
      DistinctFirstOccurrenceOrder(p);
      DistinctSameElements(p);
      var d := Distinct(s);
      forall j, k | 0 <= j < k < |d|
        ensures FirstIndex(s, d[j]) < FirstIndex(s, d[k])
      {
        assert d[j] in p;
        assert FirstIndex(s, d[j]) == FirstIndex(p, d[j]);
        if k < |Distinct(p)| {
          assert FirstIndex(s, d[k]) == FirstIndex(p, d[k]);
        } else {
          assert d[k] == last && last !in p;
          assert FirstIndex(s, d[k]) == |s| - 1;
        }
      }
    }
  }

  /** A table without repeats is left as it is; in particular deduplicating
      twice is the same as deduplicating once. */
  lemma {:induction false} DistinctOfNoRepeats<T>(s: seq<T>)
    requires NoRepeats(s)
    ensures Distinct(s) == s
    decreases |s|
  {
    if |s| > 0 {
      var p := s[..|s| - 1];
      DistinctOfNoRepeats(p);
      assert s[|s| - 1] !in p;
      assert s == p + [s[|s| - 1]];
    }
  }

  lemma DistinctIdempotent<T>(s: seq<T>)
    ensures Distinct(Distinct(s)) == Distinct(s)
  {
    DistinctNoRepeats(s);
    DistinctOfNoRepeats(Distinct(s));
  }

  /** `drop_duplicates()` followed by `reset_index(drop=True)`: scan the rows in
      order and keep a row when no equal row was kept before it. */
  method DropDuplicates<T(==)>(s: seq<T>) returns (kept: seq<T>)
    ensures kept == Distinct(s)
    ensures NoRepeats(kept)
    ensures forall x :: x in kept <==> x in s
    ensures forall j, k :: 0 <= j < k < |kept| ==> FirstIndex(s, kept[j]) < FirstIndex(s, kept[k])
  {
    kept := [];
    for i := 0 to |s|
      invariant kept == Distinct(s[..i])
    {
      assert s[..i + 1][..i] == s[..i];
      if s[i] !in kept {
        kept := kept + [s[i]];
      }
    }
    assert s[..|s|] == s;
    DistinctNoRepeats(s);
    DistinctSameElements(s);
    DistinctFirstOccurrenceOrder(s);
  }
}
