# KRandom integer generation, modelled in Dafny

KRandom is a static Java utility class that fills primitives, arrays, matrices
and strings with pseudo-random values taken from one shared `java.util.Random`
(or `SecureRandom`) instance `r`. This project models its integer logic:

- the scalar draws `nextPositiveInt`, `nextInt(start, end)`, `nextEvenInt()`,
  `nextOddInt()`, `nextEvenInt(start, end)` and `nextOddInt(start, end)`, each
  as a function of the one raw 32-bit value `r.nextInt()` returns
  (module `BoundedInts`);
- the builders `nextIntArray`, `nextLongArray`, `next2DIntArray`,
  `next2DLongArray`, `nextString`, `nextAlphabeticString` and
  `nextNumericString` as methods with loops, over an `Entropy` object that
  stands for the shared generator: it hands out the draws of a fixed stream
  and counts how many it has handed out (module `Collections`);
- Java `int` arithmetic as the code relies on it: 32-bit wrapping `+` and `-`,
  the truncating `%` whose sign follows the dividend, `Math.abs` leaving
  `Integer.MIN_VALUE` negative, and the `(char)` cast (module `JavaInt`).
  Java exceptions become the `Err` case of a `Result` (module `Exceptions`).

The model follows the code as written, including its edge cases:

- `nextInt(start, end)` is documented as drawing from `[start, end]`, but
  `(abs(raw) % (end - start)) + start` never returns `end`.
- `end == start` passes the guard and then divides by zero.
- The draw `Integer.MIN_VALUE` has a negative absolute value. Its result is at
  most `start`, or wraps round above `end`.
- A range wider than `Integer.MAX_VALUE` makes `end - start` wrap negative.
  For draws other than `MIN_VALUE` the result still stays in `[start, end)`,
  but only its first `2^32 - (end - start)` values can be drawn. `nextInt(MIN_VALUE, MAX_VALUE)` always returns `MIN_VALUE`.
- `nextOddInt(start, end)` uses the guard of the even version unchanged, message
  included. So `[3, 3]` is rejected, and `[4, 4]` reaches the division by zero.
- The step-down branch of `nextEvenInt(start, end)` and `nextOddInt(start,
  end)` is reached only through the draw `MIN_VALUE`.
- `nextString` picks `(char) nextInt(32, 126)`, so `'~'` (126) never appears.
  The two table builders index with `nextInt(0, length)`, which covers every
  index: all 52 letters and all 10 digits can appear. With the draw `MIN_VALUE` the index is negative (-24 for letters, -8
  for digits). The builder then throws `ArrayIndexOutOfBoundsException`.
  `nextString` instead appends U+FFDC.
- A negative size or length throws `NegativeArraySizeException` from
  `new int[size]`, `new int[rows][cols]` or `new StringBuilder(len)`, before
  any draw. For a matrix, that happens when either count is negative.

## Model

| member | source | states |
|---|---|---|
| `JavaInt.Add` | src/org/kedos/random/KRandom.java:94 | `int` addition: exact when the sum fits, otherwise off by exactly 2^32 |
| `JavaInt.Sub` | src/org/kedos/random/KRandom.java:94 | `int` subtraction: exact when the difference fits, otherwise off by exactly 2^32 |
| `JavaInt.Abs` | src/org/kedos/random/KRandom.java:79 | `Math.abs`: the magnitude for every value except `MIN_VALUE`, which comes back unchanged |
| `JavaInt.Quot` | src/org/kedos/random/KRandom.java:94 | the truncating quotient in the identity that defines Java's `%` (unbounded, so `MIN_VALUE / -1` is not wrapped; the code never uses `/`): the magnitude is the quotient of the magnitudes, and the sign is positive only for operands of equal sign |
| `JavaInt.Rem` | src/org/kedos/random/KRandom.java:94 | Java `%`: `(a / b) * b + a % b == a` with truncating `/`; magnitude below the divisor's, sign of the dividend; `x % 2 != 0` exactly when `x` is odd |
| `JavaInt.CharCast` | src/org/kedos/random/KRandom.java:427 | `(char) v` keeps the low 16 bits: congruent to `v` mod 2^16, and equal to `v` in [0, 0xffff] |
| `BoundedInts.NextPositiveInt` | src/org/kedos/random/KRandom.java:78-80 | non-negative exactly when the draw is not `MIN_VALUE`, and then the draw's magnitude; `MIN_VALUE` stays `MIN_VALUE` |
| `BoundedInts.NextIntBetween` | src/org/kedos/random/KRandom.java:89-95 | `end < start` throws IllegalArgument with the source's message, bounds never swapped; `end == start` throws Arithmetic; otherwise a value; for any draw but `MIN_VALUE` it lies in [start, end), so `end` is never returned |
| `BoundedInts.NextIntBetweenReaches` | src/org/kedos/random/KRandom.java:89-95 | when `end - start` fits in an `int`, every value of [start, end) is returned for the draw `v - start`, so [start, end) is exactly the image of the draws other than `MIN_VALUE` |
| `BoundedInts.WideRangeUnderCovers` | src/org/kedos/random/KRandom.java:94 | when `end - start` overflows, results for draws other than `MIN_VALUE` stay in [start, end) but below `start + 2^32 - (end - start)` |
| `BoundedInts.FullRangeAlwaysStart` | src/org/kedos/random/KRandom.java:94 | `nextInt(MIN_VALUE, MAX_VALUE)` returns `MIN_VALUE` for every draw |
| `BoundedInts.MinDrawOutsideRange` | src/org/kedos/random/KRandom.java:78-94 | for the draw `MIN_VALUE` and any range the guard accepts, however wide, the result is at most `start` or above `end`, never strictly inside the range |
| `BoundedInts.MinDrawExamples` | src/org/kedos/random/KRandom.java:78-94 | concrete cases: `nextInt(0, 10)` gives -8 and `nextInt(MIN+1, MIN+10)` gives `MAX_VALUE` for the draw `MIN_VALUE` |
| `BoundedInts.NextEvenInt` | src/org/kedos/random/KRandom.java:101-108 | always even; an even draw is returned unchanged, an odd one plus one, and `MAX_VALUE` wraps to `MIN_VALUE` |
| `BoundedInts.NextOddInt` | src/org/kedos/random/KRandom.java:114-116 | always odd and exactly one more than `nextEvenInt()` of the same draw, with no overflow |
| `BoundedInts.FixParity` | src/org/kedos/random/KRandom.java:134-140 | the parity correction: unchanged when the parity is right, else up by one below `end`, else down by one above `start`; in a non-degenerate range the parity comes out right and stays within [start, end] |
| `BoundedInts.NextEvenIntBetween` | src/org/kedos/random/KRandom.java:125-143 | rejects `end < start` and odd `[s, s]`; even `[s, s]` divides by zero; succeeds exactly when `start < end`, always even; for draws other than `MIN_VALUE` within [start, end], and the step down is never taken |
| `BoundedInts.NextOddIntBetween` | src/org/kedos/random/KRandom.java:152-170 | same error cases as the even version, with the even message for odd `[s, s]`; succeeds exactly when `start < end`, always odd, within [start, end] for draws other than `MIN_VALUE`, never stepping down |
| `BoundedInts.EvenStepDownNeedsMinDraw` | src/org/kedos/random/KRandom.java:133-139 | the draw `MIN_VALUE` on [MIN+1, MIN+10] wraps to `MAX_VALUE`, and the step down gives `MAX_VALUE - 1` |
| `BoundedInts.NextEvenIntBetweenReaches` | src/org/kedos/random/KRandom.java:125-143 | when `end - start` fits in an `int`, every even value of [start, end], `end` included, is returned for some draw other than `MIN_VALUE` |
| `BoundedInts.NextOddIntBetweenReaches` | src/org/kedos/random/KRandom.java:152-170 | when `end - start` fits in an `int`, every odd value of [start, end], `end` included, is returned for some draw other than `MIN_VALUE` |
| `BoundedInts.NextIntInclusive` | src/org/kedos/random/KRandom.java:83-87 | corrected draw: fails exactly when `end < start`; otherwise always in [start, end] |
| `BoundedInts.NextIntInclusiveOnto` | src/org/kedos/random/KRandom.java:83-87 | the corrected draw reaches every value of [start, end], both bounds included, even for the widest range |
| `BoundedInts.NextParityIntInclusive` | src/org/kedos/random/KRandom.java:145-151 | the corrected parity draw rejects `end < start` and a single value of the wrong parity, with the matching message; results lie in [start, end] and have the requested parity |
| `BoundedInts.ParityIntInclusiveOkIff` | src/org/kedos/random/KRandom.java:152-158 | the corrected parity draw succeeds exactly when [start, end] holds a value of the requested parity |
| `BoundedInts.OddGuardExamples` | src/org/kedos/random/KRandom.java:156-157 | `nextOddInt(3, 3)` is rejected with the even message and `nextOddInt(4, 4)` divides by zero; the corrected draw returns 3 and rejects [4, 4] |
| `Collections.Entropy.constructor` | src/org/kedos/random/KRandom.java:34 | a generator over the given streams, with no draws taken |
| `Collections.Entropy.NextInt` | src/org/kedos/random/KRandom.java:70-72 | `r.nextInt()` returns the stream's value at the current position and advances it by one |
| `Collections.Entropy.NextLong` | src/org/kedos/random/KRandom.java:201 | `r.nextLong()` returns the long stream's value at the current position and advances it by one |
| `Collections.NextIntArray` | src/org/kedos/random/KRandom.java:181-189 | a negative size throws before any draw; otherwise a new array of `size` elements, element i being the i-th draw, using exactly `size` draws |
| `Collections.NextLongArray` | src/org/kedos/random/KRandom.java:197-205 | the same as `NextIntArray`, over `nextLong()` draws |
| `Collections.Next2DIntArray` | src/org/kedos/random/KRandom.java:287-295 | a negative count throws before any draw; otherwise `rows` distinct new rows of length `cols`, row i being the draws `i*cols .. i*cols+cols-1`, using `rows*cols` draws |
| `Collections.Next2DLongArray` | src/org/kedos/random/KRandom.java:311-319 | the same as `Next2DIntArray`, over `nextLongArray` |
| `Collections.Alphabet` | src/org/kedos/random/KRandom.java:38 | the table `alphabet`: 52 characters, `A`..`Z` at 0..25 and `a`..`z` at 26..51 |
| `Collections.Numeric` | src/org/kedos/random/KRandom.java:40 | the table `numeric`: 10 characters, `0`..`9` at 0..9 |
| `Collections.TablesHoldExactly` | src/org/kedos/random/KRandom.java:38-40 | a character is in `alphabet` exactly when it is an ASCII letter, and in `numeric` exactly when it is an ASCII digit |
| `Collections.Lookup` | src/org/kedos/random/KRandom.java:444 | a table read: the element for an index inside the table, ArrayIndexOutOfBounds otherwise |
| `Collections.PickCharInCharset` | src/org/kedos/random/KRandom.java:427-460 | for any draw but `MIN_VALUE`, each builder's character is in its set: [32, 126] for nextString, the letters, the digits; nextString never produces `'~'` |
| `Collections.PickCharMinDraw` | src/org/kedos/random/KRandom.java:427-460 | the draw `MIN_VALUE` gives U+FFDC in nextString and ArrayIndexOutOfBounds in the two table builders |
| `Collections.PickChar` | src/org/kedos/random/KRandom.java:427-460 | the character one loop iteration appends for a draw; only a table lookup can fail, and then with ArrayIndexOutOfBounds |
| `Collections.PickCharReaches` | src/org/kedos/random/KRandom.java:427-460 | every letter and digit, and every visible character but `'~'`, is produced by some draw |
| `Collections.PickCharFails` | src/org/kedos/random/KRandom.java:444-460 | one character fails exactly for a `MIN_VALUE` draw into a table, and then with ArrayIndexOutOfBounds |
| `Collections.StringOfChars` | src/org/kedos/random/KRandom.java:426-428 | the built string exists exactly when every draw's character does; it then has one character per draw, in order |
| `Collections.StringOfFirstFailure` | src/org/kedos/random/KRandom.java:443-445 | when draw k is the first to fail, the prefixes of at most k draws build and every longer one fails |
| `Collections.ErrorIsIndexOutOfBounds` | src/org/kedos/random/KRandom.java:444-460 | every failure of the string loop is ArrayIndexOutOfBounds |
| `Collections.Joined` | src/org/kedos/random/KRandom.java:424-430 | the `StringBuilder` after the appends of the picks in order: on success one character per pick; an exception needs at least one pick |
| `Collections.JoinedChars` | src/org/kedos/random/KRandom.java:426-428 | appending the picked characters succeeds exactly when every pick does, and then yields one character per pick, in order |
| `Collections.JoinedError` | src/org/kedos/random/KRandom.java:443-445 | the exception the append loop ends with is that of one of its picks |
| `Collections.JoinedNextDraw` | src/org/kedos/random/KRandom.java:426-427 | one more iteration appends the next draw's character to the string so far, or ends with that character's exception |
| `Collections.BuildString` | src/org/kedos/random/KRandom.java:423-431 | the loop the builders share, for any character function: a negative length throws before any draw; otherwise the result is the string of the draws taken, all `len` of them on success, and the loop stops right after the failing draw |
| `Collections.NextString` | src/org/kedos/random/KRandom.java:423-431 | `BuildString` over `(char) nextInt(32, 126)` |
| `Collections.NextAlphabeticString` | src/org/kedos/random/KRandom.java:440-448 | `BuildString` over `alphabet[nextInt(0, 52)]` |
| `Collections.NextNumericString` | src/org/kedos/random/KRandom.java:456-464 | `BuildString` over `numeric[nextInt(0, 10)]` |
| `Collections.BuiltStopsAtFirstFailure` | src/org/kedos/random/KRandom.java:443-445 | a builder whose first failing character comes from the draw at stream position k leaves the generator at position k + 1 and throws that character's exception |
| `Collections.NextStringFullLength` | src/org/kedos/random/KRandom.java:416-431 | for every `len >= 0`, `nextString(len)` returns a string of length `len` for every stream, `MIN_VALUE` draws included, using exactly `len` draws; character i is the pick of draw i |
| `Collections.BuiltStringInCharset` | src/org/kedos/random/KRandom.java:416-464 | without a `MIN_VALUE` draw a builder returns exactly `len` characters, character i from draw i and in its set, never `'~'` for nextString |
| `Collections.BuiltStringFailsAtMinDraw` | src/org/kedos/random/KRandom.java:433-464 | a `MIN_VALUE` draw makes the letter or digit builder throw ArrayIndexOutOfBounds, and the generator stops right after the first such draw |

## Findings

| source | as written | input that shows it | evidently intended | confidence | as-written member | corrected member |
|---|---|---|---|---|---|---|
| src/org/kedos/random/KRandom.java:83-94 | `(abs % (end - start)) + start` never returns `end` | `nextInt(0, 1)` is 0 for every draw | a draw from [start, end] as documented | high (not executed) | `BoundedInts.NextIntBetween` | `BoundedInts.NextIntInclusiveOnto` |
| src/org/kedos/random/KRandom.java:90-94 | `end == start` passes the guard and divides by zero | `nextInt(5, 5)` throws ArithmeticException | return `start` | high (not executed) | `BoundedInts.NextIntBetween` | `BoundedInts.NextIntInclusive` |
| src/org/kedos/random/KRandom.java:79 | `Math.abs(MIN_VALUE)` is negative, so the result leaves the range | draw `MIN_VALUE`: `nextInt(0, 10)` is -8 | a result inside the range for every draw | high (not executed) | `BoundedInts.MinDrawExamples` | `BoundedInts.NextIntInclusive` |
| src/org/kedos/random/KRandom.java:94 | `end - start` wraps for wide ranges | `nextInt(MIN_VALUE, MAX_VALUE)` is always `MIN_VALUE` | every value of the range reachable | medium (not executed) | `BoundedInts.FullRangeAlwaysStart` | `BoundedInts.NextIntInclusiveOnto` |
| src/org/kedos/random/KRandom.java:156-157 | the odd draw's degenerate guard tests for an odd start, with the even message | `nextOddInt(3, 3)` is rejected; `nextOddInt(4, 4)` divides by zero | reject only a single even value | high (not executed) | `BoundedInts.OddGuardExamples` | `BoundedInts.ParityIntInclusiveOkIff` |

The corrected definitions are separate from the as-written ones. The builders
in `Collections` keep the as-written draws, because they model what the
library returns.

## Left out

- `PrintUtils` prints matrices to standard output. That is I/O with no returned value.
- `nextFloatArray`, `nextDoubleArray`, `next2DFloatArray`, `next2DDoubleArray`: floating-point values.
- `nextBooleanArray` and `next2DBooleanArray`: their probability check and their comparison against `nextDouble()` are floating point.
- `setUseSecure` and `setUseNotSecure`, and the internals of `Random` and `SecureRandom`. They replace a library object, and the flag they set is never read. The `Entropy` streams stand for any generator.
- The plain `nextInt()` is `Entropy.NextInt` itself. The scalar draws in `BoundedInts` take the raw draw as a parameter. They do not record whether a draw is consumed on an error path: in the code, `end < start` throws before drawing, and `end == start` throws after one draw.
- `Entropy.NextLong` counts a `nextLong()` as one draw of the shared generator. `java.util.Random` actually builds it from two 32-bit outputs. Within one builder only the order of the draws matters.
- Statistical uniformity of the draws and thread safety of the shared static `r` are not modelled.
- `OutOfMemoryError` for very large sizes is not modelled.
