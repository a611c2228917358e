# Repeating-key XOR cracker, modelled in Dafny

This project models `runme.py`, a cracker for repeating-key XOR ciphertexts, as in the
Vigenère-style XOR challenge.

The cracker works in two stages:

1. **Key length.** `keylength_finder` estimates the key length. It cuts the data into
   `sample_max` blocks of `keysize` bytes, sums the Hamming distances of every pair of blocks
   and normalises the sum by the number of pairs and the key size. It returns the key size
   with the lowest score; among equal scores it returns the first one tried.
2. **Key characters.** `crack_repeating_key_xor` splits the data into `key_length` columns
   (`data[i::key_length]`). It solves each column as a single-byte XOR: every character of
   `string.printable` is tried, the decoded text is scored against an English letter-frequency
   table, and the first best-scoring character wins. The key guess is then tiled over the
   data (`generate_xor_key`) and XORed with it (`xor_byte`) to decrypt.

`xor_cracker` chains the two stages with the default parameters: 20 samples and key sizes
2 to 39.

Modules:

- `Failures` — the Python exceptions the working path can raise (`ZeroDivisionError`,
  `IndexError`), and a `Result` type.
- `ByteOps` — bytes and the byte primitives:
  - bytes are integers 0..255;
  - `^` is a recursion on binary digits;
  - key tiling;
  - pairwise XOR;
  - Hamming distance.
- `Frequency` — `frequency_dict` in hundredths, and the scoring loop.
- `ColumnSolver` — `string.printable`, candidate scores, and the choice of the first best
  candidate for a column.
- `KeyLength` — samples, the pair sum over `combinations(samples, 2)`, the exact normalised
  score, and the estimator.
- `Cracker` — columns, decryption, `crack_repeating_key_xor` and `xor_cracker`.

Each loop of the source is a method. Every method is proved against a specification function
or predicate, and the properties of those are proved as lemmas:

- `IsBestKeySize`: the first minimum over the key-size range;
- `IsColumnChoice`: the first maximum over `string.printable`;
- `IsKeyGuess`: one column choice per column;
- `Decrypt`: the element-wise XOR with the tiled key.

## Model

| member | source | states |
|---|---|---|
| ByteOps.GenerateXorKey | runme.py:7-14 | An empty key fails with ZeroDivisionError (`length // len(key)`). Otherwise the result has `max(length, 0)` elements and element `i` is `key[i % len(key)]`. |
| ByteOps.RepeatAt | runme.py:14 | Element `i` of `key * count` is `key[i % len(key)]`. |
| ByteOps.Repeat | runme.py:14 | `key * count`: `count` copies end to end, of length `count * len(key)`, and empty when `count <= 0`. |
| ByteOps.Prefix | runme.py:14 | `s[:stop]`: a prefix of `s`. Its length is `stop` when `0 <= stop <= len(s)`, it is all of `s` beyond that, and it is `len(s) + stop` for a negative `stop`, or empty below `-len(s)`. |
| ByteOps.XorBytes | runme.py:17-25 | Like `zip`, the result is as long as the shorter input, and element `i` is `a[i] ^ b[i]`. |
| ByteOps.Xor | runme.py:25 | Python's `^` on non-negative integers, digit by binary digit. 0 is its identity on both sides. |
| ByteOps.XorCommutes | runme.py:25 | `a ^ b == b ^ a` for all non-negative integers. |
| ByteOps.XorSelf | runme.py:25 | `a ^ a == 0`. |
| ByteOps.XorCancels | runme.py:25 | `a ^ (a ^ d) == d`: XOR with the same value is self-inverse. |
| ByteOps.XorBelow | runme.py:25 | XOR of two values below `2^w` is below `2^w`: bytes stay bytes, and ASCII stays ASCII. |
| ByteOps.XorBytesCommutes | runme.py:17-25 | `xor_byte(a, b) == xor_byte(b, a)`. |
| ByteOps.XorBytesCancels | runme.py:17-25 | `xor_byte(a, xor_byte(a, d)) == d` whenever `d` is no longer than `a`. |
| ByteOps.XorBytesAscii | runme.py:25 | XOR of two ASCII byte strings is ASCII, so decoding it as UTF-8 cannot fail. |
| ByteOps.Encode | runme.py:110 | `bytes(s, 'utf-8')` of an ASCII string: same length, and byte `i` is the code of character `i`. |
| ByteOps.Decode | runme.py:114 | `b.decode('utf-8')` of ASCII bytes: same length, and character `i` has code `b[i]`. |
| ByteOps.DecodeEncode | runme.py:110-114 | Decoding an encoded ASCII string gives it back. |
| ByteOps.EncodeDecode | runme.py:110-114 | Encoding decoded ASCII bytes gives them back. |
| ByteOps.BitCount | runme.py:33 | `sum([1 for bit in bin(n) if bit == '1'])`: at most `n`, and zero exactly for `n == 0`. |
| ByteOps.BitCountBound | runme.py:33 | A value below `2^w` has at most `w` '1' digits in `bin()`. |
| ByteOps.PopCount | runme.py:32-33 | A byte has at most 8 set bits. |
| ByteOps.CalculateHammingDistance | runme.py:28-34 | The loop over `zip(data1, data2)` returns `Hamming(data1, data2)`: the set bits of `bit1 ^ bit2`, summed over the pairs. |
| ByteOps.HammingOfXorBytes | runme.py:17-34 | The distance is the total set-bit count of `xor_byte(data1, data2)`. |
| ByteOps.HammingSymmetric | runme.py:28-34 | The distance is symmetric. |
| ByteOps.HammingSelf | runme.py:28-34 | The distance from a byte string to itself is 0. |
| ByteOps.HammingBound | runme.py:28-34 | The distance is at most 8 times the length of the shorter input. |
| Frequency.ToUpper | runme.py:118-120 | `.upper()` on one ASCII character: the result is never a lower-case letter, and exactly the characters other than 'a'..'z' are unchanged. It keeps ASCII ASCII. |
| Frequency.Upper | runme.py:118 | `answer_string.upper()` on ASCII text: same length, element `i` upper-cased, no lower-case letter left, and ASCII kept. |
| Frequency.ScoreText | runme.py:117-121 | The scoring loop returns `TextScore(answer_string)`: the sum of the table weights of the upper-cased characters. |
| Frequency.TableWeights | runme.py:164-192 | Every table weight is positive and at most that of 'E'. Every table key is already upper case, so `character.upper()` is the identity on it. |
| Frequency.TextScoreAppend | runme.py:117-121 | The score is additive over concatenation. |
| Frequency.TextScoreIgnoresCase | runme.py:118-120 | Upper-casing the text first does not change its score. |
| Frequency.TextScoreBound | runme.py:117-121 | A text scores at most 56.88 per character. |
| Frequency.TextScoreZero | runme.py:117-121 | A text scores 0 if and only if none of its upper-cased characters is in the table. |
| ColumnSolver.PrintableFacts | runme.py:105 | `string.printable` has 100 characters, starts with '0', and is ASCII. |
| ColumnSolver.CandidateScoreIsTextScore | runme.py:108-121 | Take any text whose characters are `c ^ b`, one per byte `b` of the column; such a text is what tiling, encoding, XOR and decoding produce. Its score is the candidate's score. |
| ColumnSolver.ScoreCandidate | runme.py:107-121 | One pass of the candidate loop: tiling, encoding, XOR, decoding and scoring. It returns the candidate's score for the block. |
| ColumnSolver.ScoreCandidates | runme.py:103-122 | `block_answer_dict` has one entry per candidate, in `string.printable` order. Each entry pairs the candidate with its score. |
| ColumnSolver.HighestScore | runme.py:124 | `sorted(..., reverse=True)[0]` is an entry of maximal score, and every earlier entry scores strictly less, because the sort is stable. |
| ColumnSolver.SolveColumn | runme.py:102-125 | The answer for a block is printable and ASCII. It is the first highest-scoring candidate of `string.printable` (`IsColumnChoice`). |
| ColumnSolver.ColumnChoiceUnique | runme.py:124 | A column has exactly one such choice. |
| ColumnSolver.EmptyColumnChoosesZero | runme.py:105-124 | An empty column (key length longer than the data) always gets '0', the first printable character. |
| KeyLength.Slice | runme.py:54 | `data[lo:hi]` with clamped bounds: element `i` is `data[lo + i]`, and the length is `min(hi, len(data)) - lo`, or 0 when that is not positive. |
| KeyLength.SampleShape | runme.py:52-55 | Sample `s` has at most `keysize` bytes. It is the full block at `s*keysize` when that block fits, the suffix when the data ends inside it, and empty beyond the data. |
| KeyLength.TakeSamples | runme.py:52-55 | The `for segment` loop builds exactly `Samples(data, sample_max, keysize)`. |
| KeyLength.SumRowDistances | runme.py:57 | Sums the distances from one sample to each later sample. |
| KeyLength.SumPairDistances | runme.py:57 | Sums the Hamming distance over every pair of `combinations(samples, 2)`. |
| KeyLength.Normalize | runme.py:59 | `keysize_difference / (((sample_max-1)*(sample_max/2)) * keysize)`, computed exactly: a non-negative score that, multiplied back by the divisor, gives the pair sum. |
| KeyLength.KeySizeScore | runme.py:52-61 | The value stored as `keysize_differences[keysize]` lies between 0 and 8. |
| KeyLength.PairSumUpToBound | runme.py:57 | The pair sum is at most `8*keysize` per pair of samples. |
| KeyLength.PairsClosed | runme.py:59 | There are `n*(n-1)/2` pairs in `combinations` of `n` samples. This is the divisor `(sample_max-1)*(sample_max/2)`. |
| KeyLength.NormalizeBound | runme.py:59 | Normalising a pair sum within that bound gives a score between 0 and 8. |
| KeyLength.ScoreBound | runme.py:52-59 | The normalised pair sum of the samples lies between 0 and 8 differing bits per byte. |
| KeyLength.LowestScore | runme.py:81 | `sorted(...)[0]` is an entry of minimal score, and every earlier entry scores strictly more, because the sort is stable. |
| KeyLength.KeylengthFinder | runme.py:37-83 | Fails with IndexError exactly when `range(minkey, maxkey)` is empty. Otherwise it returns a key size in the range with the lowest score, and the smallest such key size on ties (`IsBestKeySize`). |
| KeyLength.BestKeySizeUnique | runme.py:81 | The returned key size is determined by the data. |
| Cracker.Column | runme.py:98 | `input_data[i::key_length]`: an ASCII input gives an ASCII column. Its elements and length are given by `Cracker.ColumnAt`. |
| Cracker.ColumnAt | runme.py:98 | Element `j` of `data[i::k]` exists exactly when `i + j*k < len(data)`, and then it is `data[i + j*k]`. |
| Cracker.ColumnsCoverInput | runme.py:95-98 | Byte `p` of the input is element `p // k` of column `p % k`. |
| Cracker.ColumnPositionInverse | runme.py:95-98 | Element `j` of column `i` comes from position `i + j*k`, whose column and index are `i` and `j` again. So the columns partition the input. |
| Cracker.SplitColumns | runme.py:95-98 | `blocks` has `max(key_length, 0)` entries, and block `i` is `data[i::key_length]`. |
| Cracker.GuessKey | runme.py:100-125 | `total_answer_guess` has one printable ASCII character per block. Character `i` is the column choice for block `i`. |
| Cracker.ChoicesExtend | runme.py:125 | Appending the next block's answer keeps every earlier answer a column choice. |
| Cracker.RepeatingKeyXor | runme.py:129-131 | The tiled key XORed with the data: byte `p` is `key[p % len(key)] ^ data[p]`. |
| Cracker.RepeatingKeyXorInvolution | runme.py:129-131 | Applying the same repeating key twice gives the data back. |
| Cracker.Decrypt | runme.py:129-133 | The returned plaintext: character `p` has code `guess[p % len(guess)] ^ data[p]`. |
| Cracker.DecryptRecoversPlaintext | runme.py:129-133 | Take a ciphertext made by encrypting a plaintext under `key`. When the guess is `key`, the decryption is that plaintext. |
| Cracker.CrackRepeatingKeyXor | runme.py:86-133 | Fails with ZeroDivisionError exactly when `key_length <= 0`: the guess is then empty and tiling it divides by zero. Otherwise it returns a key guess meeting `IsKeyGuess`, and the decryption of the input under that guess. |
| Cracker.XorCracker | runme.py:136-146 | The key length is `IsBestKeySize` for 20 samples and key sizes 2..39. The guess meets `IsKeyGuess` for it, and the plaintext is its decryption. |
| Cracker.CrackerDeterministic | runme.py:136-146 | Any two results meeting `xor_cracker`'s postconditions have the same key guess and the same plaintext. |

## Left out

- The gradio interface and `__main__`: user interface only.
- `xor_cracker_from_b64`: Base64 decoding followed by the same pipeline. The decoder is not part of this model.
- The `except` branch of `keylength_finder` (runme.py:62-67), which retries with a halved `sample_max` or `maxkey`. Without it, `KeylengthFinder` requires `sampleMax >= 2` and `minkey >= 1`. Under these inputs the `try` body cannot raise: slicing clamps, and the divisor is positive. The branch passes the float `sample_max/2` or `maxkey/2` back into `range()`, which raises `TypeError`. This is not modelled.
- KeyLength.KeylengthFinder: scores are exact rationals, where Python uses floating point. Two key sizes whose exact scores differ can round to the same float. The source then ties them and returns the smaller one, while the model orders them by their exact values.
- Frequency.ScoreText: weights are integer hundredths, so `round(score, 3)` is the identity. Float addition error, which could break or create ties between candidates in the source, is not modelled.
- Non-ASCII data: the members that encode, decode or upper-case text require ASCII (`IsAscii` / `IsAsciiText`). These are `ByteOps.Encode`, `ByteOps.Decode`, `Frequency.ScoreText`, the `ColumnSolver` members and the `Cracker` members. `ByteOps.XorBytes`, `ByteOps.CalculateHammingDistance` and `KeyLength.KeylengthFinder` accept any bytes, since `keylength_finder` never decodes. With ASCII, `.decode('utf-8')` and `bytes(..., 'utf-8')` map bytes to characters one to one, and `.upper()` changes only 'a'..'z'. A UnicodeDecodeError, multi-byte UTF-8 and Unicode case mapping are not modelled.
- Python dictionaries are modelled as sequences of (key, score) pairs in insertion order. `sorted(...)[0]` is modelled as the first extreme entry, which is what Python's stable sort yields.
- Some single source functions are split into several methods, without changing their order of evaluation:
  - `keylength_finder` into `TakeSamples`, `SumRowDistances` and `SumPairDistances`;
  - `crack_repeating_key_xor` into `SplitColumns`, `GuessKey`, `ScoreCandidates`, `ScoreCandidate`, `HighestScore` and `SolveColumn`.
- The statistical claim that the lowest normalised distance is the true key length, and that the highest frequency score is the true key character, is not modelled. The model proves which answer the program selects, not that it is right.
- Commented-out and debug prints, and the unused `os` import.
