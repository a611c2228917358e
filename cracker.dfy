/** The repeating-key XOR cracker: columns, per-column key characters, decryption
    (`crack_repeating_key_xor`), and the pipeline that first estimates the key length
    (`xor_cracker`). */
module Cracker {
  import opened Failures
  import opened ByteOps
  import opened ColumnSolver
  import opened KeyLength

  /** `data[start::step]`: the bytes at `start`, `start + step`, `start + 2*step`, ... */
  function Column(data: seq<byte>, start: nat, step: nat): (col: seq<byte>)
    requires step >= 1
    ensures IsAscii(data) ==> IsAscii(col)
    decreases |data| - start
  {
    if start >= |data| then [] else [data[start]] + Column(data, start + step, step)
  }

  /** Element `j` of column `start` is the input byte at `start + j * step`, and the column
      stops at the first such position past the end of the input. */
  lemma {:induction false} ColumnAt(data: seq<byte>, start: nat, step: nat, j: nat)
    requires step >= 1
    ensures j < |Column(data, start, step)| <==> start + j * step < |data|
    ensures j < |Column(data, start, step)| ==> Column(data, start, step)[j] == data[start + j * step]
    decreases |data| - start
  {
    if start >= |data| {
      NatProduct(j, step);
    } else if j > 0 {
      ColumnAt(data, start + step, step, j - 1);
      StepProduct(j, step);
    }
  }

  lemma NatProduct(j: nat, step: nat)
    ensures j * step >= 0
  {
  }

  lemma StepProduct(j: nat, step: nat)
    requires j >= 1
    ensures step + (j - 1) * step == j * step
  {
  }

  /** Every byte of the input lands in column `p % keyLength`, at index `p / keyLength`. */
  lemma ColumnsCoverInput(data: seq<byte>, keyLength: nat, p: nat)
    requires keyLength >= 1 && p < |data|
    ensures var col := Column(data, p % keyLength, keyLength);
      p / keyLength < |col| && col[p / keyLength] == data[p]
  {
    var i, j := p % keyLength, p / keyLength;
    assert p == i + j * keyLength;
    ColumnAt(data, i, keyLength, j);
  }

  /** The converse: element `j` of column `i` comes from position `i + j * keyLength`, whose
      column and index are `i` and `j` again, so each input byte is in exactly one column. */
  lemma ColumnPositionInverse(data: seq<byte>, keyLength: nat, i: nat, j: nat)
    requires i < keyLength && j < |Column(data, i, keyLength)|
    ensures var p := i + j * keyLength;
      p < |data| && p % keyLength == i && p / keyLength == j && Column(data, i, keyLength)[j] == data[p]
  {
    ColumnAt(data, i, keyLength, j);
    DivModUnique(i + j * keyLength, keyLength, j, i);
  }

  /** `guess` is the key guess `crack_repeating_key_xor(data, keyLength)` returns: one
      printable character per column, each the first best-scoring candidate for its column. */
  ghost predicate IsKeyGuess(data: seq<byte>, keyLength: int, guess: string)
    requires IsAscii(data)
  {
    && keyLength >= 1
    && |guess| == keyLength
    && (forall i :: 0 <= i < keyLength ==> guess[i] in Printable)
    && (forall i :: 0 <= i < keyLength ==> IsColumnChoice(Column(data, i, keyLength), guess[i]))
  }

  /** The final XOR of `crack_repeating_key_xor`: `data` XORed with `key` tiled to its length. */
  function RepeatingKeyXor(data: seq<byte>, key: string): (r: seq<byte>)
    requires |key| > 0 && IsAsciiText(key)
    ensures |r| == |data|
    ensures forall p :: 0 <= p < |data| ==> r[p] == Xor(key[p % |key|] as int, data[p])
  {
    var tiled := GenerateXorKey(key, |data|).value;
    assert IsAsciiText(tiled);
    XorBytes(Encode(tiled), data)
  }

  lemma RepeatingKeyXorAscii(data: seq<byte>, key: string)
    requires |key| > 0 && IsAsciiText(key) && IsAscii(data)
    ensures IsAscii(RepeatingKeyXor(data, key))
  {
    var tiled := GenerateXorKey(key, |data|).value;
    XorBytesAscii(Encode(tiled), data);
  }

  /** The plaintext `crack_repeating_key_xor` returns for key guess `guess`: the final XOR, decoded. */
  function Decrypt(data: seq<byte>, guess: string): (text: string)
    requires IsAscii(data) && |guess| > 0 && IsAsciiText(guess)
    ensures |text| == |data|
    ensures forall p :: 0 <= p < |data| ==> text[p] as int == Xor(guess[p % |guess|] as int, data[p])
  {
    RepeatingKeyXorAscii(data, guess);
    Decode(RepeatingKeyXor(data, guess))
  }

  /** The first loop of `crack_repeating_key_xor`: `blocks`, the `key_length` columns of the input (none when `key_length <= 0`). */
  method SplitColumns(inputData: seq<byte>, keyLength: int) returns (blocks: seq<seq<byte>>)
    requires IsAscii(inputData)
    ensures |blocks| == if keyLength < 0 then 0 else keyLength
    ensures forall t :: 0 <= t < |blocks| ==> blocks[t] == Column(inputData, t, keyLength)
    ensures forall t :: 0 <= t < |blocks| ==> IsAscii(blocks[t])
  {
    blocks := [];
    var i := 0;
    while i < keyLength
      invariant 0 <= i <= (if keyLength < 0 then 0 else keyLength)
      invariant |blocks| == i
      invariant forall t :: 0 <= t < i ==> blocks[t] == Column(inputData, t, keyLength)
      invariant forall t :: 0 <= t < i ==> IsAscii(blocks[t])
    {
      blocks := blocks + [Column(inputData, i, keyLength)];
      i := i + 1;
    }
  }

  /** The per-block loop of `crack_repeating_key_xor`: `total_answer_guess`, one solved
      character per block, in block order. */
  method GuessKey(blocks: seq<seq<byte>>) returns (totalAnswerGuess: string)
    requires forall t :: 0 <= t < |blocks| ==> IsAscii(blocks[t])
    ensures |totalAnswerGuess| == |blocks| && IsAsciiText(totalAnswerGuess)
    ensures forall t :: 0 <= t < |blocks| ==> totalAnswerGuess[t] in Printable
    ensures forall t :: 0 <= t < |blocks| ==> IsColumnChoice(blocks[t], totalAnswerGuess[t])
  {
    totalAnswerGuess := "";
    for b := 0 to |blocks|
      invariant |totalAnswerGuess| == b && IsAsciiText(totalAnswerGuess)
      invariant forall t :: 0 <= t < b ==> totalAnswerGuess[t] in Printable
      invariant forall t :: 0 <= t < b ==> IsColumnChoice(blocks[t], totalAnswerGuess[t])
    {
      var answer := SolveColumn(blocks[b]);
      ChoicesExtend(blocks, totalAnswerGuess, answer);
      totalAnswerGuess := totalAnswerGuess + [answer];
    }
  }

  /** Appending the choice for the next column keeps every earlier column's choice. */
  lemma ChoicesExtend(blocks: seq<seq<byte>>, guess: string, answer: char)
    requires |guess| < |blocks| && forall t :: 0 <= t < |blocks| ==> IsAscii(blocks[t])
    requires forall t :: 0 <= t < |guess| ==> IsColumnChoice(blocks[t], guess[t])
    requires IsColumnChoice(blocks[|guess|], answer)
    ensures forall t :: 0 <= t <= |guess| ==> IsColumnChoice(blocks[t], (guess + [answer])[t])
  {
    forall t | 0 <= t <= |guess|
      ensures IsColumnChoice(blocks[t], (guess + [answer])[t])
    {
      if t < |guess| {
        assert (guess + [answer])[t] == guess[t];
      }
    }
  }

  /** `crack_repeating_key_xor(input_data, key_length)`. With no columns the key guess is
      empty, and tiling an empty key raises `ZeroDivisionError`. */
  method CrackRepeatingKeyXor(inputData: seq<byte>, keyLength: int) returns (r: Result<(string, string)>)
    requires IsAscii(inputData)
    ensures r.Failure? <==> keyLength <= 0
    ensures r.Failure? ==> r.error == ZeroDivisionError
    ensures r.Success? ==> IsKeyGuess(inputData, keyLength, r.value.0) && IsAsciiText(r.value.0)
    ensures r.Success? ==> r.value.1 == Decrypt(inputData, r.value.0)
  {
    var blocks := SplitColumns(inputData, keyLength);
    var totalAnswerGuess := GuessKey(blocks);
    var key := GenerateXorKey(totalAnswerGuess, |inputData|);
    if key.Failure? {
      return Failure(key.error);
    }
    assert IsAsciiText(key.value);
    var keyBytes := Encode(key.value);
    var answer := XorBytes(keyBytes, inputData);
    XorBytesAscii(keyBytes, inputData);
    r := Success((totalAnswerGuess, Decode(answer)));
  }

  /** `xor_cracker(input_data)`: estimate the key length with the default parameters
      (20 samples, key sizes 2 to 39), then crack with it. */
  method XorCracker(inputData: seq<byte>) returns (guess: string, plaintext: string)
    requires IsAscii(inputData)
    ensures IsBestKeySize(inputData, 20, 2, 40, |guess|)
    ensures IsKeyGuess(inputData, |guess|, guess) && IsAsciiText(guess)
    ensures plaintext == Decrypt(inputData, guess)
  {
    var keyLength := KeylengthFinder(inputData, 20, 2, 40);
    var cracked := CrackRepeatingKeyXor(inputData, keyLength.value);
    guess, plaintext := cracked.value.0, cracked.value.1;
  }

  // ---------------------------------------------------------------------------
  // Properties of the pipeline

  /** Applying the same repeating key twice gives back the data. */
  lemma RepeatingKeyXorInvolution(data: seq<byte>, key: string)
    requires |key| > 0 && IsAsciiText(key)
    ensures RepeatingKeyXor(RepeatingKeyXor(data, key), key) == data
  {
    var once := RepeatingKeyXor(data, key);
    forall p | 0 <= p < |data|
      ensures RepeatingKeyXor(once, key)[p] == data[p]
    {
      XorCancels(key[p % |key|] as int, data[p]);
    }
  }

  /** If the ciphertext is a plaintext encrypted under key `key` and the guess is `key`,
      the cracker's plaintext is that plaintext. */
  lemma DecryptRecoversPlaintext(plain: seq<byte>, key: string)
    requires IsAscii(plain) && |key| > 0 && IsAsciiText(key)
    ensures IsAscii(RepeatingKeyXor(plain, key))
    ensures Decrypt(RepeatingKeyXor(plain, key), key) == Decode(plain)
  {
    RepeatingKeyXorAscii(plain, key);
    RepeatingKeyXorInvolution(plain, key);
  }

  /** The pipeline is deterministic: any two results that meet `XorCracker`'s
      postconditions are the same key and the same plaintext. */
  lemma CrackerDeterministic(data: seq<byte>, guess1: string, guess2: string)
    requires IsAscii(data)
    requires IsBestKeySize(data, 20, 2, 40, |guess1|) && IsKeyGuess(data, |guess1|, guess1) && IsAsciiText(guess1)
    requires IsBestKeySize(data, 20, 2, 40, |guess2|) && IsKeyGuess(data, |guess2|, guess2) && IsAsciiText(guess2)
    ensures guess1 == guess2
    ensures Decrypt(data, guess1) == Decrypt(data, guess2)
  {
    BestKeySizeUnique(data, 20, 2, 40, |guess1|, |guess2|);
    var k := |guess1|;
    forall i | 0 <= i < k ensures guess1[i] == guess2[i] {
      ColumnChoiceUnique(Column(data, i, k), guess1[i], guess2[i]);
    }
  }
}
