/**
 * RuriLib.Models.DataPool: the pool where data lines are taken from. A pool is
 * built from a sequence of lines, from the lines of a file or from every
 * combination over a character set. Within the class, only RemoveDuplicate
 * changes List after construction; the three properties have public setters.
 */
module Models {
  import opened Wrappers
  import opened Enumerables
  import opened CharsetExpansion

  /** int.MaxValue: `Enumerable.Count()` counts in a checked 32-bit int. */
  const MaxCount: int := 0x7fff_ffff

  /**
   * What `RemoveDuplicate` leaves in `List`: the distinct lines when there is
   * at least one line, and the list untouched when it is null or empty. A list
   * of more than MaxCount lines makes `Count()` throw, which the method
   * swallows, so such a list is left untouched too.
   */
  function Deduplicated(list: Option<seq<string>>): (r: Option<seq<string>>)
    ensures r.Some? <==> list.Some?
    ensures list.Some? && |list.value| > MaxCount ==> r == list
    ensures list.Some? && |list.value| <= MaxCount ==>
              NoDuplicates(r.value) && Elements(r.value) == Elements(list.value) &&
              KeepsFirstOccurrenceOrder(r.value, list.value)
  {
    if list.Some? && 0 < |list.value| <= MaxCount then
      DistinctKeepsOrder(list.value);
      Some(Distinct(list.value))
    else
      list
  }

  /** A second RemoveDuplicate leaves the list as the first one left it. */
  lemma DeduplicatedIdempotent(list: Option<seq<string>>)
    ensures Deduplicated(Deduplicated(list)) == Deduplicated(list)
  {
    if list.Some? && 0 < |list.value| <= MaxCount {
      DistinctIdempotent(list.value);
    }
  }

  /**
   * `(int)Math.Pow(n, length)` for the arguments where the double result is
   * exact: a whole power when `length` is not negative; for a negative
   * `length`, 1 when n is 1 and a fraction below one, truncated to 0, when
   * n is 2 or more.
   */
  function PowerCast(n: nat, length: int): (size: int)
    requires length >= 0 || n > 0
    ensures size >= 0
    ensures length < 0 ==> (size == 1 <==> n == 1) && (size == 0 <==> n != 1)
  {
    if length >= 0 then Power(n, length)
    else if n == 1 then 1
    else 0
  }

  lemma {:induction false} PowerIsZero(n: nat, e: nat)
    ensures Power(n, e) == 0 <==> n == 0 && e > 0
  {
    if e > 0 {
      PowerIsZero(n, e - 1);
    }
  }

  /**
   * For length >= 0, the charset constructor's size is |charSet|^length while
   * the list holds |charSet|^(length+1) strings: the two agree only for a
   * one-character set, or for an empty set and a positive length, where both
   * are zero.
   */
  lemma CharsetSizeVersusList(charSet: string, length: nat)
    ensures |Expand(charSet, length)| == PowerCast(|charSet|, length) * |charSet|
    ensures PowerCast(|charSet|, length) == |Expand(charSet, length)| <==>
              |charSet| == 1 || (|charSet| == 0 && length > 0)
  {
    var n, p := |charSet|, Power(|charSet|, length);
    ExpandLength(charSet, length);
    PowerIsZero(n, length);
    assert |Expand(charSet, length)| == n * p == p * n;
    ScalingFixedPoint(n, p);
  }

  lemma ScalingFixedPoint(n: nat, p: nat)
    ensures p == n * p <==> n == 1 || p == 0
  {
  }

  /**
   * Charset "ab": length 0 gives "a", "b" with Size 1; length 1 gives
   * "aa", "ab", "ba", "bb" with Size 2; length -1 runs no round, so it gives
   * "a", "b" with Size 0, and Size * 2 no longer matches the list.
   */
  lemma CharsetExamples()
    ensures Expand("ab", 0) == ["a", "b"] && PowerCast(2, 0) == 1
    ensures Expand("ab", 1) == ["aa", "ab", "ba", "bb"] && PowerCast(2, 1) == 2
    ensures PowerCast(2, -1) == 0 && PowerCast(2, -1) * 2 != |Expand("ab", 0)|
  {
    assert Expand("ab", 0) == ["a", "b"];
    var e := Expand("ab", 1);
    ExpandLength("ab", 1);
    forall i | 0 <= i < 4
      ensures e[i] == ["aa", "ab", "ba", "bb"][i]
    {
      ExpandAt("ab", 1, i);
    }
  }

  class DataPool {
    /** All available data lines; None stands for null. */
    var List: Option<seq<string>>
    /** The groups of strings handed over by the caller, stored untouched. */
    var Sublists: Option<seq<seq<string>>>
    /** The total number of lines, as counted or computed at construction. */
    var Size: int

    /**
     * Pool over the given lines. If either flag is set, the lines are stored
     * with later repeats dropped. Size is the number of stored lines.
     * A caller relying on the C# defaults passes None, false, false.
     */
    constructor FromSequence(list: seq<string>, subLists: Option<seq<seq<string>>>,
                             globalRemoveDup: bool, wordlistRemoveDup: bool)
      ensures List == Some(if globalRemoveDup || wordlistRemoveDup then Distinct(list) else list)
      ensures Sublists == subLists
      ensures Size == |List.value|
      ensures !(globalRemoveDup || wordlistRemoveDup) ==> Size == |list|
      ensures globalRemoveDup || wordlistRemoveDup ==>
                NoDuplicates(List.value) && Elements(List.value) == Elements(list) &&
                KeepsFirstOccurrenceOrder(List.value, list) &&
                Size == |Elements(list)| <= |list|
    {
      var stored := if globalRemoveDup || wordlistRemoveDup then Distinct(list) else list;
      List := Some(stored);
      Size := |stored|;
      Sublists := subLists;
      DistinctKeepsOrder(list);
      DistinctCount(list);
    }

    /** Pool over the lines of a file, given here as the sequence of those lines. */
    constructor FromFile(fileLines: seq<string>)
      ensures List == Some(fileLines)
      ensures Size == |fileLines|
      ensures Sublists == None
    {
      List := Some(fileLines);
      Size := |fileLines|;
      Sublists := None;
    }

    /**
     * For length >= 0: pool of every string of length+1 characters over
     * charSet, in base-|charSet| counting order, with Size |charSet|^length,
     * which under-counts the list by a factor of |charSet|.
     * For a negative length the loop runs no round: the pool holds the
     * single-character strings, and Size is 1 for a one-character set and 0
     * otherwise.
     */
    constructor FromCharset(charSet: string, length: int)
      requires length >= 0 || |charSet| > 0
      ensures List == Some(Expand(charSet, if length >= 0 then length else 0))
      ensures Sublists == None
      ensures Size == PowerCast(|charSet|, length)
      ensures length >= 0 ==> Size * |charSet| == |List.value|
      ensures length >= 0 ==> (Size == |List.value| <==> |charSet| == 1 || (|charSet| == 0 && length > 0))
      ensures length < 0 ==> List == Some(Singles(charSet)) && Size == (if |charSet| == 1 then 1 else 0)
    {
      List := Some(Singles(charSet));
      Sublists := None;
      Size := 0;
      new;
      var i := 0;
      while i < length
        invariant 0 <= i && (i <= length || i == 0)
        invariant List == Some(Expand(charSet, i))
        invariant Sublists == None
      {
        List := Some(AppendEach(List.value, charSet));
        i := i + 1;
      }
      Size := PowerCast(|charSet|, length);
      if length >= 0 {
        CharsetSizeVersusList(charSet, length);
      }
    }

    /**
     * Drops the repeated lines when the list holds at least one line; never
     * touches Size or Sublists. When `Count()` overflows on more than
     * MaxCount lines, the exception is swallowed and nothing changes.
     */
    method RemoveDuplicate()
      modifies this
      ensures List == Deduplicated(old(List))
      ensures old(List).Some? && |old(List).value| <= MaxCount ==> NoDuplicates(List.value)
      ensures Size == old(Size) && Sublists == old(Sublists)
    {
      // Above MaxCount, Count() throws OverflowException and the catch-all
      // leaves List as it is.
      if List.Some? && 0 < |List.value| <= MaxCount {
        List := Some(Distinct(List.value));
      }
    }
  }
}
