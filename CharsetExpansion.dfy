/**
 * The LINQ pipeline behind DataPool's charset constructor:
 * `charSet.Select(x => x.ToString())` followed by `length` rounds of
 * `list.SelectMany(x => charSet, (x, y) => x + y)`, on materialised sequences.
 */
module CharsetExpansion {

  /** `b` raised to the power `e`, as an exact integer. */
  function Power(b: nat, e: nat): nat
  {
    if e == 0 then 1 else b * Power(b, e - 1)
  }

  /** `charSet.Select(x => x.ToString())`: one single-character string per character. */
  function Singles(charSet: string): seq<string>
  {
    seq(|charSet|, j requires 0 <= j < |charSet| => [charSet[j]])
  }

  /**
   * `list.SelectMany(x => charSet, (x, y) => x + y)`: for each string of
   * `list` in turn, that string followed by each character of `charSet` in turn.
   */
  function AppendEach(list: seq<string>, charSet: string): seq<string>
  {
    if list == [] then []
    else seq(|charSet|, j requires 0 <= j < |charSet| => list[0] + [charSet[j]]) + AppendEach(list[1..], charSet)
  }

  /** The list after `k` rounds of AppendEach, starting from Singles. */
  function Expand(charSet: string, k: nat): seq<string>
  {
    if k == 0 then Singles(charSet) else AppendEach(Expand(charSet, k - 1), charSet)
  }

  /** Every character of `w` belongs to `charSet`. */
  predicate Over(w: string, charSet: string)
  {
    forall c :: c in w ==> c in charSet
  }

  /**
   * The `width`-digit numeral of `i` in base |charSet|, most significant digit
   * first, with the digit d written as the character `charSet[d]`.
   */
  function Numeral(charSet: string, i: nat, width: nat): (w: string)
    requires |charSet| > 0
    ensures |w| == width
    ensures Over(w, charSet)
    decreases width
  {
    if width == 0 then []
    else
      var n := |charSet|;
      var digit := i % n;
      var higher := Numeral(charSet, i / n, width - 1);
      assert charSet[digit] in charSet;
      higher + [charSet[digit]]
  }

  lemma {:induction false} AppendEachLength(list: seq<string>, charSet: string)
    ensures |AppendEach(list, charSet)| == |list| * |charSet|
  {
    if list != [] {
      AppendEachLength(list[1..], charSet);
      assert |list| * |charSet| == |charSet| + (|list| - 1) * |charSet|;
    }
  }

  /** Multiplying by one more copy of n adds n. */
  lemma MulSucc(i: nat, n: nat)
    ensures (i + 1) * n == i * n + n
  {
  }

  /** The string at position i * |charSet| + j is the i-th input followed by the j-th character. */
  lemma {:induction false} AppendEachAt(list: seq<string>, charSet: string, i: nat, j: nat)
    requires i < |list| && j < |charSet|
    ensures i * |charSet| + j < |AppendEach(list, charSet)|
    ensures AppendEach(list, charSet)[i * |charSet| + j] == list[i] + [charSet[j]]
  {
    var n := |charSet|;
    var head := seq(n, j requires 0 <= j < n => list[0] + [charSet[j]]);
    var tail := AppendEach(list[1..], charSet);
    assert AppendEach(list, charSet) == head + tail;
    if i > 0 {
      AppendEachAt(list[1..], charSet, i - 1, j);
      MulSucc(i - 1, n);
      assert (head + tail)[i * n + j] == tail[(i - 1) * n + j];
    }
  }

  /** The charset pipeline yields |charSet|^(k+1) strings. */
  lemma {:induction false} ExpandLength(charSet: string, k: nat)
    ensures |Expand(charSet, k)| == Power(|charSet|, k + 1)
  {
    if k > 0 {
      ExpandLength(charSet, k - 1);
      AppendEachLength(Expand(charSet, k - 1), charSet);
    }
  }

  /** An empty character set gives an empty list, however many rounds are run. */
  lemma {:induction false} ExpandEmptyCharset(k: nat)
    ensures Expand([], k) == []
  {
    ExpandLength([], k);
  }

  /** A number below p * n has a quotient by n below p. */
  lemma QuotientBound(i: nat, n: nat, p: nat)
    requires n > 0 && i < p * n
    ensures i / n < p
  {
  }

  /** Splitting i into quotient and remainder by n. */
  lemma DivMod(i: nat, n: nat)
    requires n > 0
    ensures (i / n) * n + i % n == i
    ensures i < n ==> i / n == 0 && i % n == i
  {
  }

  /** The string at position i spells the k+1 base-|charSet| digits of i, most significant first. */
  lemma {:induction false} ExpandAt(charSet: string, k: nat, i: nat)
    requires i < |Expand(charSet, k)|
    ensures |charSet| > 0
    ensures Expand(charSet, k)[i] == Numeral(charSet, i, k + 1)
  {
    var n := |charSet|;
    if k == 0 {
      assert n > 0;
      DivMod(i, n);
    } else {
      var prev := Expand(charSet, k - 1);
      AppendEachLength(prev, charSet);
      assert i < |prev| * n;
      assert n > 0;
      DivMod(i, n);
      var q, d := i / n, i % n;
      QuotientBound(i, n, |prev|);
      ExpandAt(charSet, k - 1, q);
      AppendEachAt(prev, charSet, q, d);
      assert Numeral(charSet, i, k + 1) == Numeral(charSet, q, k) + [charSet[d]];
    }
  }

  /** Every string of k+1 characters drawn from charSet is generated. */
  lemma {:induction false} ExpandComplete(charSet: string, k: nat, w: string)
    requires |w| == k + 1 && Over(w, charSet)
    ensures w in Expand(charSet, k)
  {
    assert w[k] in w;
    var d :| 0 <= d < |charSet| && charSet[d] == w[k];
    if k == 0 {
      assert w == [charSet[d]];
      assert Expand(charSet, 0)[d] == w;
    } else {
      var prev := Expand(charSet, k - 1);
      var u := w[..k];
      assert Over(u, charSet) by {
        forall c | c in u ensures c in charSet {
          assert c in w;
        }
      }
      ExpandComplete(charSet, k - 1, u);
      var q :| 0 <= q < |prev| && prev[q] == u;
      AppendEachAt(prev, charSet, q, d);
      assert u + [charSet[d]] == w;
    }
  }

  /**
   * The charset pipeline yields exactly the strings of k+1 characters drawn
   * from charSet.
   */
  lemma ExpandSpellsExactlyTheWords(charSet: string, k: nat, w: string)
    ensures w in Expand(charSet, k) <==> |w| == k + 1 && Over(w, charSet)
  {
    if w in Expand(charSet, k) {
      var i :| 0 <= i < |Expand(charSet, k)| && Expand(charSet, k)[i] == w;
      ExpandAt(charSet, k, i);
    }
    if |w| == k + 1 && Over(w, charSet) {
      ExpandComplete(charSet, k, w);
    }
  }
}
