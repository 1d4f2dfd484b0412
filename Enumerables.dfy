/**
 * The LINQ operator `Enumerable.Distinct` that DataPool applies to its lines,
 * on eagerly materialised sequences.
 */
module Enumerables {

  /** The values occurring in `s`. */
  function Elements<T>(s: seq<T>): set<T>
  {
    set x | x in s
  }

  predicate NoDuplicates<T(==)>(s: seq<T>)
  {
    forall i, j :: 0 <= i < j < |s| ==> s[i] != s[j]
  }

  /** The position of the first occurrence of `x` in `s`. */
  function FirstIndex<T(==)>(s: seq<T>, x: T): (k: nat)
    requires x in s
    ensures k < |s| && s[k] == x
    ensures x !in s[..k]
  {
    if s[0] == x then 0
    else
      var k' := FirstIndex(s[1..], x);
      assert s[..k' + 1] == [s[0]] + s[1..][..k'];
      k' + 1
  }

  /**
   * Every element of `r` occurs in `s`, and the elements of `r` come in the
   * order of their first occurrences in `s`.
   */
  predicate KeepsFirstOccurrenceOrder<T(==)>(r: seq<T>, s: seq<T>)
  {
    (forall x :: x in r ==> x in s) &&
    forall i, j :: 0 <= i < j < |r| ==> FirstIndex(s, r[i]) < FirstIndex(s, r[j])
  }

  /**
   * What `Distinct` yields from `s` once the values in `seen` have already
   * been yielded: it walks `s` front to back and yields each value the first
   * time it meets one that is not yet in its set.
   */
  function DistinctAfter<T(==)>(s: seq<T>, seen: set<T>): (r: seq<T>)
    ensures Elements(r) == Elements(s) - seen
    ensures NoDuplicates(r)
    ensures |r| <= |s|
  {
    if s == [] then []
    else
      assert Elements(s) == {s[0]} + Elements(s[1..]);
      if s[0] in seen then DistinctAfter(s[1..], seen)
      else
        var rest := DistinctAfter(s[1..], seen + {s[0]});
        assert Elements([s[0]] + rest) == {s[0]} + Elements(rest);
        [s[0]] + rest
  }

  /** `s.Distinct()`: the first occurrence of every value, later repeats dropped. */
  function Distinct<T(==)>(s: seq<T>): (r: seq<T>)
    ensures Elements(r) == Elements(s)
    ensures NoDuplicates(r)
    ensures |r| <= |s|
  {
    DistinctAfter(s, {})
  }

  lemma {:induction false} DistinctAfterKeepsOrder<T>(s: seq<T>, seen: set<T>)
    ensures KeepsFirstOccurrenceOrder(DistinctAfter(s, seen), s)
  {
    if s != [] {
      var r := DistinctAfter(s, seen);
      var t := s[1..];
      var seen' := if s[0] in seen then seen else seen + {s[0]};
      var r' := DistinctAfter(t, seen');
      DistinctAfterKeepsOrder(t, seen');
      forall y | y in r'
        ensures y != s[0] && FirstIndex(s, y) == FirstIndex(t, y) + 1
      {
      }
      forall x | x in r ensures x in s {
        assert x in Elements(r);
      }
      if s[0] !in seen {
        assert r == [s[0]] + r';
        assert FirstIndex(s, s[0]) == 0;
        forall i, j | 0 <= i < j < |r|
          ensures FirstIndex(s, r[i]) < FirstIndex(s, r[j])
        {
          assert r[j] == r'[j - 1];
          if 0 < i {
            assert r[i] == r'[i - 1];
          }
        }
      }
    }
  }

  /** Distinct keeps the first occurrences in their original order. */
  lemma DistinctKeepsOrder<T>(s: seq<T>)
    ensures KeepsFirstOccurrenceOrder(Distinct(s), s)
  {
    DistinctAfterKeepsOrder(s, {});
  }

  lemma {:induction false} DistinctAfterOfUnique<T>(s: seq<T>, seen: set<T>)
    requires NoDuplicates(s)
    requires forall x :: x in s ==> x !in seen
    ensures DistinctAfter(s, seen) == s
  {
    if s != [] {
      forall j | 0 <= j < |s| - 1 ensures s[1..][j] != s[0] {
        assert s[1..][j] == s[j + 1];
      }
      DistinctAfterOfUnique(s[1..], seen + {s[0]});
    }
  }

  /** Distinct leaves a sequence unchanged exactly when it has no repeats. */
  lemma DistinctIsIdentityIff<T>(s: seq<T>)
    ensures Distinct(s) == s <==> NoDuplicates(s)
  {
    if NoDuplicates(s) {
      DistinctAfterOfUnique(s, {});
    }
  }

  /** Applying Distinct a second time changes nothing. */
  lemma DistinctIdempotent<T>(s: seq<T>)
    ensures Distinct(Distinct(s)) == Distinct(s)
  {
    DistinctIsIdentityIff(Distinct(s));
  }

  lemma {:induction false} UniqueCardinality<T>(s: seq<T>)
    requires NoDuplicates(s)
    ensures |Elements(s)| == |s|
  {
    if s != [] {
      var t := s[1..];
      assert NoDuplicates(t) by {
        forall i, j | 0 <= i < j < |t| ensures t[i] != t[j] {
          assert t[i] == s[i + 1] && t[j] == s[j + 1];
        }
      }
      UniqueCardinality(t);
      assert Elements(s) == Elements(t) + {s[0]};
      forall j | 0 <= j < |t| ensures t[j] != s[0] {
        assert t[j] == s[j + 1];
      }
    }
  }

  /** Distinct yields as many lines as the input has different values, never more than its length. */
  lemma DistinctCount<T>(s: seq<T>)
    ensures |Distinct(s)| == |Elements(s)| <= |s|
  {
    UniqueCardinality(Distinct(s));
  }
}
