# DataPool, modelled in Dafny

RuriLib's `DataPool` is the pool that data lines are taken from. It holds three
fields: `List`, the lines; `Size`, their count; and `Sublists`, a list of string
groups that the pool stores but never reads. A pool is built in one of three ways:

- from a sequence of lines, with optional removal of repeated lines;
- from the lines of a file;
- from every combination over a character set.

Within the class, only `RemoveDuplicate` changes `List` after construction.
The three properties have public setters (lines 15, 17 and 20), so any caller may
also reassign them.

The model has four modules:

- `Wrappers` (`Wrappers.dfy`): `Option`, which stands for the source's nullable
  references. `None` is `null`.
- `Enumerables` (`Enumerables.dfy`): LINQ's `Distinct` on a materialised sequence.
  `DistinctAfter` walks the input front to back with the set of values already
  yielded, as .NET's iterator does. `Distinct` is that walk started from the
  empty set. It is proved to keep exactly the input's values, without repeats,
  in first-occurrence order, and to be idempotent.
- `CharsetExpansion` (`CharsetExpansion.dfy`): the charset pipeline.
  - `Singles` is `charSet.Select(x => x.ToString())`.
  - `AppendEach` is `SelectMany(x => charSet, (x, y) => x + y)`.
  - `Expand(charSet, k)` is `k` rounds of `AppendEach` applied to `Singles`.
  - `Numeral(charSet, i, w)` is an independent reference: the `w`-digit
    base-|charSet| numeral of `i`, written with the characters of `charSet`.
  - The lemmas prove that position `i` of `Expand(charSet, k)` is
    `Numeral(charSet, i, k + 1)`, and that the list holds exactly the strings of
    `k + 1` characters over `charSet`, |charSet|^(k+1) of them.
- `Models` (`DataPool.dfy`): the class `DataPool`.
  - Its fields are `List: Option<seq<string>>`,
    `Sublists: Option<seq<seq<string>>>` and `Size: int`.
  - Its three named constructors stand for the three C# constructors.
  - `RemoveDuplicate` is a method with `modifies this`.
  - The charset constructor keeps the source's `for` loop. Its invariant is that
    after `i` rounds, `List` is `Expand(charSet, i)`.

For a `length` of 0 or more, the charset constructor sets `Size` to
|charSet|^`length`, as line 56 of the source does. The list it builds holds
|charSet|^(`length`+1) strings, so `Size` under-counts it by a factor of
|charSet|. The model keeps this as written. For a negative `length`, the loop at
line 54 runs no round, so the list holds the single-character strings, and the
cast at line 56 gives `Size` 1 for a one-character set and 0 otherwise.
For a `length` of 0 or more, `CharsetSizeVersusList` proves that the two numbers agree only in two cases: a
one-character set, or an empty set with a positive `length`. The doc comment at
line 50 calls `length` "the length of the output combinations". That matches
`Size` at line 56, but the loop at lines 53-55 builds strings of `length`+1
characters.

## Model

| member | source | states |
|---|---|---|
| `Enumerables.DistinctAfter` | RuriLib/Models/DataPool.cs:30 | The distinct walk from a set of already-yielded values yields exactly the input's values outside that set, with no repeats and no more lines than the input |
| `Enumerables.Distinct` | RuriLib/Models/DataPool.cs:30 | `Distinct()` yields exactly the set of input values, each once, and never more lines than the input |
| `Enumerables.DistinctKeepsOrder` | RuriLib/Models/DataPool.cs:30 | The lines of `Distinct()` come in the order of their first occurrences in the input |
| `Enumerables.DistinctIsIdentityIff` | RuriLib/Models/DataPool.cs:65 | `Distinct()` leaves a sequence unchanged if and only if it has no repeated line |
| `Enumerables.DistinctIdempotent` | RuriLib/Models/DataPool.cs:63-65 | Applying `Distinct()` to its own result changes nothing |
| `Enumerables.DistinctCount` | RuriLib/Models/DataPool.cs:30-32 | The number of lines `Distinct()` yields is the number of distinct input values, which is at most the input length |
| `CharsetExpansion.AppendEachAt` | RuriLib/Models/DataPool.cs:55 | In the `SelectMany` output, position i*n+j holds the i-th input string followed by the j-th charset character |
| `CharsetExpansion.AppendEachLength` | RuriLib/Models/DataPool.cs:55 | One `SelectMany` round multiplies the number of strings by n, the charset length |
| `CharsetExpansion.ExpandLength` | RuriLib/Models/DataPool.cs:53-55 | After k rounds the list holds n^(k+1) strings |
| `CharsetExpansion.ExpandAt` | RuriLib/Models/DataPool.cs:53-55 | After k rounds, the string at position i spells the k+1 base-n digits of i, most significant first |
| `CharsetExpansion.ExpandComplete` | RuriLib/Models/DataPool.cs:53-55 | Every string of k+1 characters drawn from the charset appears in the list |
| `CharsetExpansion.ExpandSpellsExactlyTheWords` | RuriLib/Models/DataPool.cs:53-55 | A string is in the list if and only if it has k+1 characters, all from the charset |
| `CharsetExpansion.ExpandEmptyCharset` | RuriLib/Models/DataPool.cs:53-55 | An empty charset gives an empty list for every number of rounds |
| `Models.Deduplicated` | RuriLib/Models/DataPool.cs:59-69 | What `RemoveDuplicate` leaves is null exactly when the list was null. A list of more than int.MaxValue lines is left as it was. Otherwise the result has no repeats, the same values as before, in first-occurrence order |
| `Models.DeduplicatedIdempotent` | RuriLib/Models/DataPool.cs:59-69 | A second `RemoveDuplicate` leaves the list as the first one left it |
| `Models.PowerCast` | RuriLib/Models/DataPool.cs:56 | `PowerCast` is never negative. For a negative length it is 1 exactly when n is 1, and 0 otherwise, as the truncating cast of `Math.Pow` gives |
| `Models.CharsetSizeVersusList` | RuriLib/Models/DataPool.cs:53-56 | For a length of 0 or more: the charset list length is `Size * n`, and `Size` equals the list length if and only if the charset has one character, or is empty with a positive length |
| `Models.CharsetExamples` | RuriLib/Models/DataPool.cs:51-57 | Charset "ab", length 0: lines "a", "b" and Size 1. Length 1: lines "aa", "ab", "ba", "bb" and Size 2. Length -1: Size 0, which times 2 is not the list length |
| `Models.DataPool.FromSequence` | RuriLib/Models/DataPool.cs:27-34 | Without a flag, `List` is the input and `Size` its length. With either flag, `List` is the input de-duplicated (no repeats, same values, first-occurrence order) and `Size` is the number of distinct values. `Sublists` is stored as passed |
| `Models.DataPool.FromFile` | RuriLib/Models/DataPool.cs:40-44 | `List` is the file's lines, `Size` their count, `Sublists` null |
| `Models.DataPool.FromCharset` | RuriLib/Models/DataPool.cs:51-57 | `Sublists` is null. For a length of 0 or more, `List` is the loop's `Expand(charSet, length)`, every string of length+1 characters over the charset, and `Size` is n^length, so `Size * n` is the list length. For a negative length the loop runs no round: `List` is the single-character strings, and `Size` is 1 for a one-character set and 0 otherwise |
| `Models.DataPool.RemoveDuplicate` | RuriLib/Models/DataPool.cs:59-69 | A null or empty list is left alone, and so is a list of more than int.MaxValue lines, whose `Count()` overflows into the swallowed exception. Otherwise `List` becomes its de-duplicated form. `Size` and `Sublists` never change |

## Left out

- Reading the file (`File.ReadLines`, line 42) and its IO errors. `FromFile` takes the file's lines as a sequence.
- The change notification of the `ViewModelBase` base class (line 12). That class is not part of this model.
- Laziness and deferred execution of `IEnumerable` and LINQ. Every sequence is an eagerly materialised `seq<string>`.
- Models.DataPool.RemoveDuplicate: the `catch { }` at line 68 also swallows failures other than `Count()`'s overflow, such as an IO error while re-reading a file-backed list. A finite `seq` has no such failure, so the model has none. The overflow itself is modelled: above int.MaxValue lines, `List` is left unchanged.
- Models.DataPool.FromSequence: does not model the `OverflowException` that `Count()` throws at line 32 when the stored list has more than int.MaxValue lines. The source's constructor fails there. The model builds the pool with `Size` equal to the exact length.
- Models.DataPool.FromFile: the same for `Count()` at line 43, on a file of more than int.MaxValue lines.
- A null `charSet` passed to the charset constructor. `charSet.Select` at line 53 throws `ArgumentNullException`. The model's `string` parameter cannot be null.
- A null `list` passed to the sequence constructor. `Distinct` and `Count` throw on it. The model's `seq` parameter cannot be null.
- Aliasing with the caller. Without a flag, line 31 stores the caller's own `list` object, so a later change by the caller changes `List` and leaves `Size` stale. Line 33 stores the caller's `List<string[]>` and its `string[]` arrays by reference too. The model stores `List` and `Sublists` as values, so none of this sharing is captured.
- Models.DataPool.FromCharset: does not model overflow of the `(int)` cast. `Size` is the exact power, because a double to int conversion out of range has no defined result.
- Models.DataPool.FromCharset: excludes an empty charset with a negative `length`. `Math.Pow(0, negative)` is infinity, and its cast to `int` depends on the platform.
- Models.PowerCast: returns the exact power. It does not model the rounding of large powers by `Math.Pow`, nor the overflow of the `(int)` cast. Above `int.MaxValue` (n = 2 with length 31, say) that unchecked cast gives a platform-dependent value, int.MinValue on x86/x64 runtimes before .NET 9.
- Strings are sequences of Unicode scalar values, not of UTF-16 code units. In C#, `charSet.Length` and `charSet.Select` count and split code units, so a character outside the Basic Multilingual Plane counts as two lone surrogates there and as one character here.
- `null` elements in the input of the sequence constructor. `Distinct()` and `Count()` accept them, but the model's `seq<string>` cannot hold them.
