/** Scoring a candidate plaintext against English letter frequencies
    (`frequency_dict` and the scoring loop of `crack_repeating_key_xor`). */
module Frequency {
  import opened ByteOps

  /** `frequency_dict`: relative frequency of the upper-case letters and space
      in English text, in hundredths (56.88 becomes 5688). */
  const FrequencyTable: map<char, nat> := map[
    'E' := 5688, 'A' := 4331, 'R' := 3864, 'I' := 3845, 'O' := 3651,
    'T' := 3543, 'N' := 3392, 'S' := 2923, 'L' := 2798, 'C' := 2313,
    'U' := 1851, 'D' := 1725, 'P' := 1614, 'M' := 1536, 'H' := 1531,
    'G' := 1259, 'B' := 1056, 'F' := 924, 'Y' := 906, 'W' := 657,
    'K' := 561, 'V' := 513, 'X' := 148, 'Z' := 139, 'J' := 100,
    'Q' := 98, ' ' := 2000]

  /** The heaviest weight in the table (that of 'E'). */
  const MaxWeight: nat := 5688

  /** `str.upper()` on one ASCII character: only 'a'..'z' change. */
  function ToUpper(c: char): (u: char)
    ensures !('a' <= u <= 'z')
    ensures u == c <==> !('a' <= c <= 'z')
    ensures c < 0x80 as char ==> u < 0x80 as char
  {
    if 'a' <= c <= 'z' then (c as int - 32) as char else c
  }

  /** `str.upper()` on an ASCII string. */
  function Upper(s: string): (u: string)
    ensures |u| == |s|
    ensures forall i :: 0 <= i < |s| ==> u[i] == ToUpper(s[i]) && !('a' <= u[i] <= 'z')
    ensures IsAsciiText(s) ==> IsAsciiText(u)
  {
    seq(|s|, i requires 0 <= i < |s| => ToUpper(s[i]))
  }

  /** What one character adds to a score: its table weight, or nothing. */
  function Weight(c: char): nat {
    if c in FrequencyTable then FrequencyTable[c] else 0
  }

  /** The score the cracker gives a decoded candidate: the weights of its upper-cased
      characters, accumulated from the left. */
  function TextScore(s: string): nat {
    if s == [] then 0 else TextScore(s[..|s| - 1]) + Weight(ToUpper(s[|s| - 1]))
  }

  /** The scoring loop of `crack_repeating_key_xor` (before `round`, which is exact on hundredths). */
  method ScoreText(answerString: string) returns (score: nat)
    requires IsAsciiText(answerString)
    ensures score == TextScore(answerString)
  {
    var upper := Upper(answerString);
    score := 0;
    for i := 0 to |upper|
      invariant score == TextScore(answerString[..i])
    {
      var character := upper[i];
      assert answerString[..i + 1][..i] == answerString[..i];
      if character in FrequencyTable {
        var charU := ToUpper(character);
        assert charU == character;
        score := score + FrequencyTable[charU];
      }
    }
    assert answerString[..|answerString|] == answerString;
  }

  // ---------------------------------------------------------------------------
  // Properties of the score

  lemma TableWeights(c: char)
    ensures c in FrequencyTable ==> 0 < FrequencyTable[c] <= MaxWeight
    ensures c in FrequencyTable ==> ToUpper(c) == c
  {
  }

  /** The score is additive over concatenation. */
  lemma {:induction false} TextScoreAppend(s: string, t: string)
    ensures TextScore(s + t) == TextScore(s) + TextScore(t)
    decreases |t|
  {
    if t != [] {
      var t' := t[..|t| - 1];
      assert (s + t)[..|s + t| - 1] == s + t';
      assert (s + t)[|s + t| - 1] == t[|t| - 1];
      TextScoreAppend(s, t');
    } else {
      assert s + t == s;
    }
  }

  /** Upper-casing first changes nothing: the score already ignores case. */
  lemma {:induction false} TextScoreIgnoresCase(s: string)
    ensures TextScore(Upper(s)) == TextScore(s)
  {
    if s != [] {
      var n := |s|;
      TextScoreIgnoresCase(s[..n - 1]);
      assert Upper(s)[..n - 1] == Upper(s[..n - 1]);
      assert ToUpper(Upper(s)[n - 1]) == ToUpper(s[n - 1]);
    }
  }

  lemma {:induction false} TextScoreBound(s: string)
    ensures TextScore(s) <= MaxWeight * |s|
  {
    if s != [] {
      TextScoreBound(s[..|s| - 1]);
      TableWeights(ToUpper(s[|s| - 1]));
    }
  }

  /** A text scores zero exactly when none of its upper-cased characters is in the table. */
  lemma {:induction false} TextScoreZero(s: string)
    ensures TextScore(s) == 0 <==> forall i :: 0 <= i < |s| ==> ToUpper(s[i]) !in FrequencyTable
  {
    if s != [] {
      var s' := s[..|s| - 1];
      TextScoreZero(s');
      TableWeights(ToUpper(s[|s| - 1]));
      assert forall i :: 0 <= i < |s'| ==> s'[i] == s[i];
    }
  }
}
