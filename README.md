# SpamSum, LCS and string-distance helpers in Dafny

A Dafny model of three components of the `webd\language` PHP package:

- **SpamSum** (`src/webd/language/SpamSum.php`), the ssdeep-style
  context-triggered piecewise hash. A rolling hash over a 7-byte window
  marks reset points in the input. Two FNV-style accumulators digest each
  piece into one Base64 letter. The letters form a "left" signature at
  block size B and a "right" signature at block size 2B. In automatic mode
  the block size is guessed from the input length and halved, with a
  complete restart, while the block size is above the minimum and the
  left index `j` is below half the capacity.
- **LCS** (`src/webd/language/LCS.php`): the dynamic-programming table of
  longest-common-subsequence lengths, the backtrack that reads one longest
  common subsequence off it, and the insertion/deletion edit distance.
- **StringDistance** (`src/webd/language/StringDistance.php`): the common
  prefix used by Jaro-Winkler, the windowed matching of common characters,
  and the integer parts of Jaro: the window, the early returns of 0 and
  the transposition count.

The hasher is a class, as in the PHP code:
- `class SpamSum` holds the configuration, the block size and both
  signatures.
- The rolling hash keeps its seven slots in an `array<int>` field and its
  three components and counter in fields.
- `RollingHash`, `RollingHashReset`, `HashString` and the scan loop are
  methods that update those fields.
- Each method is proved against specification functions:
  - `RollingValue` over the bytes fed since the last reset;
  - `ScanUpTo` and `Attempt` for one scan at a block size;
  - `AutoSearch` and `Digest` for the whole hash, including the `goto`
    restart.
- Lemmas state what those functions promise: the index bounds, the
  saturation rule, the alphabet, the block-size search and the
  text-form round trip.

The LCS table is an `array2<int>` filled by nested loops. It is proved
equal, entry by entry, to the recurrence `Table`, and `Table` is proved
optimal over all common subsequences. `getCommonCharacters` keeps its
nested loops: the outer one in `GetCommonCharacters`, the inner walk over
the window in `ScanWindow`. The consumed positions of the copy of `string2` are a
`seq<bool>`, and the loops are proved equal to the recursive `MatchUpTo`.

Integers are unbounded, as PHP's 64-bit integers are on these values:
- `sum_hash` reduces modulo 2^32 explicitly.
- The shift of `rolling_h3` is masked to 32 bits.
- Both xors combine a value below 2^32 with a byte. `XorByte` xors the
  low eight bits bit by bit (`XorBits`) and keeps the bits above them.
  `XorByteIsXor32` proves this equal to the full 32-bit xor `Xor32`.
- The value `rolling_hash` returns is the plain sum `h1 + h2 + h3`, not
  reduced modulo 2^32. Some descriptions of the algorithm reduce it; the
  model follows `SpamSum.php:213`, so reset points are decided on the
  unreduced sum.

The configuration the code assumes but never checks is a precondition
(`Config.Valid`):
- the capacity is even and at least 2;
- between 1 and 64 letters are used;
- the minimum block size is at least 1.

## Model

| member | source | states |
|---|---|---|
| `SpamSumHash.SumHash` | src/webd/language/SpamSum.php:179-183 | for an accumulator below 2^32, the result is `((h * 0x01000193) mod 2^32) xor c` and stays below 2^32 |
| `SpamSumHash.SumHashUndo` | src/webd/language/SpamSum.php:179-183 | xoring the byte back out of the result gives the multiplied accumulator, so every bit of the byte reaches the hash |
| `SpamSumHash.MulPrime32` | src/webd/language/SpamSum.php:180 | the accumulator times the FNV prime, reduced modulo 2^32, is below 2^32 |
| `SpamSumHash.XorByte` | src/webd/language/SpamSum.php:181 | xoring a byte into a value below 2^32 stays below 2^32 and leaves every bit above the low eight unchanged |
| `SpamSumHash.XorByteIsXor32` | src/webd/language/SpamSum.php:181 | the byte xor equals the bitwise xor of the two values over all 32 bits |
| `SpamSumHash.XorBitsCancel` | src/webd/language/SpamSum.php:181 | xor with the same value twice is the identity on values of the given width |
| `SpamSumHash.XorBitsHalves` | src/webd/language/SpamSum.php:181 | the lowest bit of the bitwise xor is the xor of the lowest bits, and the remaining bits are the xor of the halves |
| `SpamSumHash.Letter` | src/webd/language/SpamSum.php:28 | the `x`-th character of the Base64 alphabet, recognised by `LetterIndex` as `x` |
| `SpamSumHash.Emit` | src/webd/language/SpamSum.php:113 | the letter written for an accumulator is the one at index `acc mod letters` |
| `SpamSumHash.Put` | src/webd/language/SpamSum.php:113 | writing at index `i` of a signature with keys `0..n-1` overwrites slot `i` or appends when `i == n`, and leaves every other slot unchanged |
| `SpamSumHash.ShiftXor` | src/webd/language/SpamSum.php:210-211 | the shift/xor component is always below 2^32 |
| `SpamSumHash.WindowSum` | src/webd/language/SpamSum.php:201-205 | what `rolling_h1` holds: the sum of the last seven bytes, between 0 and 7 * 255 |
| `SpamSumHash.WeightedSum` | src/webd/language/SpamSum.php:201-205 | what `rolling_h2` holds: the last seven bytes weighted 7 for the newest down to 1 for the oldest, between 0 and 28 * 255 |
| `SpamSumHash.RollingValue` | src/webd/language/SpamSum.php:213 | the returned value is the unreduced sum of the three components and is below 2^32 + 35 * 255 |
| `SpamSumHash.RollingStep` | src/webd/language/SpamSum.php:201-205 | the incremental updates keep `h1` the sum of the last seven bytes and `h2` their sum weighted 7..1 from the newest |
| `SpamSumHash.ShiftXorAgree` | src/webd/language/SpamSum.php:210-211 | the shift/xor value of any history ending in `s` agrees with that of `s` alone in its low bits, five per byte of `s` (all 32 bits once `s` has seven bytes) |
| `SpamSumHash.ShiftXorResync` | src/webd/language/SpamSum.php:210-211 | once seven bytes have been fed, the shift/xor component no longer depends on anything fed before them |
| `SpamSumHash.RollingResync` | src/webd/language/SpamSum.php:185-214 | the rolling value depends only on the last seven bytes: any history ending in the same seven bytes gives the same value |
| `SpamSumHash.WindowOldest` | src/webd/language/SpamSum.php:205 | the slot `n mod 7` about to be overwritten holds the byte that leaves the window |
| `SpamSumHash.WindowWrite` | src/webd/language/SpamSum.php:207-208 | writing the byte at slot `n mod 7` and incrementing `n` keeps every slot holding the byte of its age |
| `SpamSumHash.SpamSum.RollingHash` | src/webd/language/SpamSum.php:200-214 | keeps `h1`, `h2` and `h3` equal to the window sum, the weighted sum and the shift/xor value of the bytes since the reset; overwrites exactly slot `n mod 7`; increments `n`; returns `h1 + h2 + h3` |
| `SpamSumHash.SpamSum.RollingHashReset` | src/webd/language/SpamSum.php:216-227 | zeroes all seven slots and `h1`, `h2`, `h3`, `n`, empties the history and returns 0 |
| `SpamSumHash.Start` | src/webd/language/SpamSum.php:89-94 | the state every attempt starts from (empty signatures, both indices 0, both accumulators `HASH_INIT`, rolling value 0) satisfies the scan invariant for every valid configuration |
| `SpamSumHash.LeftTrigger` | src/webd/language/SpamSum.php:107-124 | a left reset point keeps `j <= L - 1`, `k <= L/2 - 1` and every signature length consistent with its index |
| `SpamSumHash.RightTrigger` | src/webd/language/SpamSum.php:130-136 | a right reset point keeps the same invariant |
| `SpamSumHash.RightTriggerImpliesLeft` | src/webd/language/SpamSum.php:107-130 | a value that is `2B - 1` modulo `2B` is `B - 1` modulo `B`, so every right reset point is also a left one |
| `SpamSumHash.SaturatedTriggers` | src/webd/language/SpamSum.php:113-135 | at `j == L - 1` a left reset point overwrites `left[j]`, neither restarts `h2` nor moves `j`, and leaves `L` letters; the same for `right`, `h3` and `k` at `L/2 - 1` |
| `SpamSumHash.UnsaturatedTriggers` | src/webd/language/SpamSum.php:113-135 | below the last slot a reset point appends the letter, restarts the accumulator at `HASH_INIT` and moves the index on by one |
| `SpamSumHash.ResetPoints` | src/webd/language/SpamSum.php:107-136 | both reset checks at one rolling value keep the scan invariant |
| `SpamSumHash.ResetPointsMonotone` | src/webd/language/SpamSum.php:107-136 | the reset checks never move an index back or shorten a signature |
| `SpamSumHash.ResetPointsAlphabet` | src/webd/language/SpamSum.php:107-136 | the reset checks write only letters among the first `letters` |
| `SpamSumHash.Step` | src/webd/language/SpamSum.php:103-136 | one byte of the scan keeps the scan invariant |
| `SpamSumHash.ScanUpTo` | src/webd/language/SpamSum.php:96-137 | after any number of bytes, `j <= L - 1`, `k <= L/2 - 1`, `k <= j` and the accumulators are below 2^32 |
| `SpamSumHash.ScanUpToNext` | src/webd/language/SpamSum.php:103-136 | the state after byte `i` is the reset checks applied to the state before it with the new rolling value and both accumulators updated |
| `SpamSumHash.ScanMonotone` | src/webd/language/SpamSum.php:96-137 | along the scan the indices and the signature lengths never decrease |
| `SpamSumHash.ScanAlphabet` | src/webd/language/SpamSum.php:96-137 | every letter the scan writes is among the first `letters` of the alphabet |
| `SpamSumHash.Flush` | src/webd/language/SpamSum.php:142-145 | only the signatures change; with last rolling value 0 nothing changes; otherwise the unfinished pieces land at `j` and `k`, so `left` has exactly `j + 1` letters and `right` `k + 1`; the lengths stay within `L` and `L/2` and `left` has at least `j` letters |
| `SpamSumHash.Attempt` | src/webd/language/SpamSum.php:89-145 | one scan plus the flush at a block size: `left` has at most `L` letters and at least `j`, `right` at most `L/2` |
| `SpamSumHash.AttemptAlphabet` | src/webd/language/SpamSum.php:89-145 | every letter of both signatures of an attempt is among the first `letters` of the alphabet |
| `SpamSumHash.Scaled` | src/webd/language/SpamSum.php:80-83 | a block size reached by doubling from the minimum is at least the minimum |
| `SpamSumHash.ScaledPow2` | src/webd/language/SpamSum.php:79-85 | the block size after `e` doublings is `MIN_BLOCKSIZE * 2^e` |
| `SpamSumHash.ScaledDouble` | src/webd/language/SpamSum.php:83 | one more doubling doubles the block size and its product with the capacity |
| `SpamSumHash.ScaledMonotone` | src/webd/language/SpamSum.php:82-84 | more doublings never give a smaller block size |
| `SpamSumHash.InitialExponent` | src/webd/language/SpamSum.php:79-85 | the guess is the least number of doublings whose block size times the capacity reaches the input length |
| `SpamSumHash.AutoSearch` | src/webd/language/SpamSum.php:87-155 | the `goto again` restart loop from exponent `e` ends at a block size between the minimum and the block size it started from |
| `SpamSumHash.AutoSearchRetries` | src/webd/language/SpamSum.php:149-155 | when the block size is above the minimum and `j < L/2`, the search continues at exactly half the block size |
| `SpamSumHash.AutoSearchStops` | src/webd/language/SpamSum.php:149-157 | otherwise the attempt at the current block size is the result |
| `SpamSumHash.AutoSearchResult` | src/webd/language/SpamSum.php:87-157 | the restart loop ends at a block size `MIN_BLOCKSIZE * 2^e'` for some `e'` no larger than the starting exponent; the result holds the signatures of the attempt at that block size, and that block size is the minimum or its attempt has `j >= L/2` |
| `SpamSumHash.Digest` | src/webd/language/SpamSum.php:66-158 | the hash of the input: in automatic mode its block size lies between the minimum and the initial guess; set by hand, it is exactly that block size |
| `SpamSumHash.DigestResult` | src/webd/language/SpamSum.php:66-158 | the hash is one attempt at its block size, which is at least the minimum in automatic mode and exactly the one set by hand otherwise; the signatures are within capacity and the alphabet; in automatic mode the block size is the minimum or the left signature is at least half full |
| `SpamSumHash.DigestShortInput` | src/webd/language/SpamSum.php:79-145 | an input of at most `MIN_BLOCKSIZE * L` bytes is hashed at the minimum block size, and the empty input gives empty signatures because the last rolling value is 0 |
| `SpamSumHash.SpamSum.Auto` | src/webd/language/SpamSum.php:30-34 | a hasher with the given configuration, automatic block size, block size 0 and empty signatures |
| `SpamSumHash.SpamSum.Fixed` | src/webd/language/SpamSum.php:56-59 | a hasher whose block size is set by hand, with automatic mode off |
| `SpamSumHash.SpamSum.Hash` | src/webd/language/SpamSum.php:20-24 | a fresh hasher with length 64, 64 letters and minimum block size 3 that holds the automatic hash of the input |
| `SpamSumHash.SpamSum.HashString` | src/webd/language/SpamSum.php:66-158 | block size and signatures become exactly `Digest` of the input; a block size set by hand is kept |
| `SpamSumHash.SpamSum.GuessBlockSize` | src/webd/language/SpamSum.php:79-85 | the block size becomes `Scaled` of the least sufficient number of doublings |
| `SpamSumHash.SpamSum.Scan` | src/webd/language/SpamSum.php:87-145 | from reset signatures, accumulators and rolling state, one pass plus the flush leaves the signatures and `j` of `Attempt` at the current block size |
| `SpamSumHash.SpamSum.ScanByte` | src/webd/language/SpamSum.php:103-136 | feeding byte `i` takes the state from `ScanUpTo(i)` to `ScanUpTo(i + 1)` and the rolling history from `data[..i]` to `data[..i+1]` |
| `SpamSumHash.SpamSum.CheckResetPoints` | src/webd/language/SpamSum.php:107-136 | the two reset checks update the signatures, accumulators and indices exactly as `ResetPoints` |
| `SpamSumHash.SpamSum.Retry` | src/webd/language/SpamSum.php:149-155 | halving and rescanning leaves the result of the search unchanged and strictly lowers the block size |
| `SpamSumHash.SpamSum.HalveBlockSize` | src/webd/language/SpamSum.php:153 | the block size becomes half of what it was |
| `SpamSumHash.SpamSum.BlockSize` | src/webd/language/SpamSum.php:165-167 | the block size is at least 1 when set by hand and never negative |
| `SpamSumHash.SpamSum.Left` | src/webd/language/SpamSum.php:169-171 | the left signature has at most `SPAMSUM_LENGTH` letters, all among the first `LETTERS` |
| `SpamSumHash.SpamSum.Right` | src/webd/language/SpamSum.php:173-175 | the right signature has at most `SPAMSUM_LENGTH / 2` letters, all among the first `LETTERS` |
| `SpamSumHash.SpamSum.ToString` | src/webd/language/SpamSum.php:160-163 | `blocksize:left:right`, from which the block size and both signatures are read back |
| `SpamSumHash.Decimal` | src/webd/language/SpamSum.php:162 | the decimal form of the block size is a non-empty string of digits with no leading zero: one digit below 10, and a first digit other than `0` for any positive number |
| `SpamSumHash.DecimalValue` | src/webd/language/SpamSum.php:162 | the decimal form reads back as the same number |
| `SpamSumHash.Render` | src/webd/language/SpamSum.php:160-163 | `blocksize:left:right`, which `Parse` reads back as the same fingerprint whenever the left signature holds no colon |
| `SpamSumHash.ParsePieces` | src/webd/language/SpamSum.php:160-163 | the block size's digits, a colon, a colon-free left signature, a colon and any right signature are read back as those three parts |
| `SpamSumHash.RenderParse` | src/webd/language/SpamSum.php:160-163 | a signature drawn from the alphabet has no colon, so splitting the text form at its first two colons gives back the block size and both signatures |
| `LongestCommonSubsequence.Table` | src/webd/language/LCS.php:37-46 | the recurrence's entry at `i`, `j` is at most `min(i, j)` |
| `LongestCommonSubsequence.TableSteps` | src/webd/language/LCS.php:37-46 | one step along a row or a column raises an entry by 0 or 1 |
| `LongestCommonSubsequence.TableMonotone` | src/webd/language/LCS.php:37-46 | the table is nondecreasing in each index |
| `LongestCommonSubsequence.TableIsOptimal` | src/webd/language/LCS.php:5-11 | no common subsequence of `X[..i]` and `Y[..j]` is longer than the entry at `i`, `j` |
| `LongestCommonSubsequence.TableSelf` | src/webd/language/LCS.php:37-41 | the entry for a string against itself at `i`, `i` is `i` |
| `LongestCommonSubsequence.FillTable` | src/webd/language/LCS.php:29-46 | the nested loops leave an `(m+1) x (n+1)` table whose every entry is the recurrence's value, with row 0 and column 0 all 0 |
| `LongestCommonSubsequence.LCS.constructor` | src/webd/language/LCS.php:19-46 | stores both strings and a table satisfying the recurrence |
| `LongestCommonSubsequence.LCS.Length` | src/webd/language/LCS.php:56-58 | `C[m][n]` is at most `min(m, n)` and no common subsequence of `X` and `Y` is longer |
| `LongestCommonSubsequence.LCS.Backtrack` | src/webd/language/LCS.php:80-93 | returns a string of length `C[i][j]` that is a subsequence of both `X[..i]` and `Y[..j]`; terminates as `i + j` decreases |
| `LongestCommonSubsequence.LCS.Value` | src/webd/language/LCS.php:64-66 | a common subsequence of `X` and `Y` as long as `length()`, hence a longest one |
| `LongestCommonSubsequence.LCS.Distance` | src/webd/language/LCS.php:75-77 | `m + n - 2 * length()` is never negative, at least `abs(m - n)`, and 0 when `X == Y` |
| `StringDistance.CommonPrefix` | src/webd/language/StringDistance.php:91-99 | the longest common prefix: its characters agree and the next ones differ |
| `StringDistance.GetPrefixLength` | src/webd/language/StringDistance.php:87-100 | returns the least of `minPrefixLength` and both lengths, capped at the common prefix: the first `r` characters agree and, below that minimum, `s1[r] != s2[r]` |
| `StringDistance.FirstFree` | src/webd/language/StringDistance.php:73-76 | the first unconsumed position of the window holding the character, or none when every position there is consumed or different |
| `StringDistance.ConsumeOne` | src/webd/language/StringDistance.php:79 | consuming a free position raises the consumed count by exactly one |
| `StringDistance.MatchUpTo` | src/webd/language/StringDistance.php:67-82 | the common characters so far are a subsequence of the prefix of `s1` and as many as the consumed positions of `s2` |
| `StringDistance.MatchStep` | src/webd/language/StringDistance.php:73-81 | character `i` takes the first free equal position from `max(0, i - d)` up to `i + d` and below the length of `s2`, or nothing |
| `StringDistance.Unused` | src/webd/language/StringDistance.php:63 | the fresh copy of `s2`: as many positions as `s2` has, none consumed |
| `StringDistance.CommonCharacters` | src/webd/language/StringDistance.php:59-85 | the common characters are a subsequence of `s1`, and since no position of `s2` serves twice there are at most as many as either input has |
| `StringDistance.GetCommonCharacters` | src/webd/language/StringDistance.php:59-85 | the outer loop computes `CommonCharacters`: a subsequence of `s1` no longer than either input |
| `StringDistance.ScanWindow` | src/webd/language/StringDistance.php:73-81 | the inner loop appends `c` and consumes exactly the first free position of the window holding it, or changes nothing when there is none |
| `StringDistance.FirstEqual` | src/webd/language/StringDistance.php:73-74 | the first position of the window whose character equals `c`, consumed or not |
| `StringDistance.MatchUpToWithNul` | src/webd/language/StringDistance.php:67-82 | the matching when consumed slots hold NUL: at most one common character per character of `s1` |
| `StringDistance.NulSentinelOvercounts` | src/webd/language/StringDistance.php:79 | with NUL as the consumed mark, four NULs against two give three common characters, more than `s2` has |
| `StringDistance.NulInputMatchedOnce` | src/webd/language/StringDistance.php:59-85 | on the same input, with positions consumed as intended, there are two common characters |
| `StringDistance.MatchWindow` | src/webd/language/StringDistance.php:23 | the window is half the shorter length, rounded down |
| `StringDistance.Mismatches` | src/webd/language/StringDistance.php:38-44 | the number of differing positions below `n`, which is 0 exactly when both prefixes are equal |
| `StringDistance.CountTranspositions` | src/webd/language/StringDistance.php:38-44 | the counter loop counts the differing positions below the shorter common-character length, and is at most that length |
| `StringDistance.Jaro` | src/webd/language/StringDistance.php:17-45 | returns 0 exactly when either common-character string is empty, which includes an empty input; otherwise both lengths, both common counts (between 1 and the lengths) and the transposition count before halving |

## Left out

- The floating-point part of `Jaro` (StringDistance.php:45-49) and
  `JaroWinkler` (StringDistance.php:52-57): `Jaro` returns the integers
  the score is computed from instead.
- `Levenshtein`/`EditDistance` (StringDistance.php:110 onwards): they wrap
  PHP's built-in `levenshtein`, whose code is not part of this model.
- The re-keying of `unpack('C*')` (SpamSum.php:70-76): the model takes the
  input as a sequence of bytes 0..255. The reindex writes keys
  `0..length-1` and keeps the original key `length`, which holds the last
  byte again; the `unset` at SpamSum.php:76 removes key `length + 1`,
  which does not exist. The scan never reads key `length`.
- The setters `SetHashLength`, `SetLetters`, `SetMinBlocksize` and
  `SetBlockSize` (SpamSum.php:39-59): they become the parameters of the
  constructors `Auto` and `Fixed`. Setting the configuration between two
  hashes is not modelled.
- SpamSumHash.SpamSum.Fixed: requires a block size of at least 1; the
  code accepts any value, and a block size of 0 makes `%` fail in PHP.
- The signatures before the first hash: PHP leaves `left` and `right`
  unset (null), and the model starts them empty.
- `HashString` returns `$this` for chaining. The method returns nothing,
  and `Hash` returns the object.
- `LCS::__toString` (LCS.php:60-62) only returns `value()`, which is
  modelled.
- The strings of LCS and StringDistance are sequences of characters
  compared for equality only, as PHP's byte strings are.
- The rolling window's slots: PHP's array grows as slots are written. The
  model uses a seven-slot array that `RollingHashReset` zeroes, which is
  the state PHP has after the reset.

## Findings

| source | as written | input that shows it | evidently intended | confidence | as-written member | corrected member |
|---|---|---|---|---|---|---|
| src/webd/language/StringDistance.php:79 | a consumed slot of the copy of `string2` is overwritten with `''`, which PHP before 7.1 stores as a NUL character (PHP 7.1 and later raise an error on this assignment); a NUL in `string1` then matches the consumed slot again | `string1` = four NULs, `string2` = two NULs, allowed distance 1: three common characters, more than `string2` has | each position of `string2` is consumed at most once, so there are never more common characters than either string has | not executed; medium, depends on the PHP version | `StringDistance.MatchUpToWithNul`, `StringDistance.NulSentinelOvercounts` | `StringDistance.CommonCharacters`, `StringDistance.GetCommonCharacters`, `StringDistance.NulInputMatchedOnce` |
