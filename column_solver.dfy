/** Solving one column of a repeating-key XOR ciphertext as a single-byte XOR
    (the per-block loop of `crack_repeating_key_xor`). */
module ColumnSolver {
  import opened ByteOps
  import opened Frequency

  /** The characters from `lo` to `hi` inclusive, in code order. */
  function CharRange(lo: char, hi: char): (r: string)
    requires lo <= hi < 0x80 as char
    ensures |r| == hi as int - lo as int + 1
    ensures forall i :: 0 <= i < |r| ==> r[i] as int == lo as int + i
  {
    seq(hi as int - lo as int + 1, i requires 0 <= i < hi as int - lo as int + 1 => (lo as int + i) as char)
  }

  const Digits: string := CharRange('0', '9')
  const AsciiLowercase: string := CharRange('a', 'z')
  const AsciiUppercase: string := CharRange('A', 'Z')
  const Punctuation: string :=
    CharRange('!', '/') + CharRange(':', '@') + CharRange('[', '`') + CharRange('{', '~')
  const Whitespace: string := " \t\n\r\U{000B}\U{000C}"

  /** Python's `string.printable`, in its own order: the candidate key characters. */
  const Printable: string := Digits + AsciiLowercase + AsciiUppercase + Punctuation + Whitespace

  lemma PrintableFacts()
    ensures |Printable| == 100
    ensures Printable[0] == '0'
    ensures IsAsciiText(Printable)
  {
    assert IsAsciiText(Whitespace) by {
      forall i | 0 <= i < |Whitespace| ensures Whitespace[i] < 0x80 as char {
        assert i < 6;
        assert Whitespace[i] in {' ', '\t', '\n', '\r', '\U{000B}', '\U{000C}'};
      }
    }
  }

  /** The score of candidate key character `c` for `column`: the frequency weights of the
      upper-cased characters `c ^ b`, one per byte `b` of the column. */
  function CandidateScore(column: seq<byte>, c: char): nat
    requires IsAscii(column) && c < 0x80 as char
    decreases |column|
  {
    if column == [] then 0
    else
      var b := column[|column| - 1];
      XorBelow(c as int, b, 7);
      CandidateScore(column[..|column| - 1], c) + Weight(ToUpper(Xor(c as int, b) as char))
  }

  /** Any text whose characters are `c ^ b`, one per byte `b` of the column (what tiling `c`,
      encoding, XORing and decoding produce), scores `CandidateScore(column, c)`. */
  lemma {:induction false} CandidateScoreIsTextScore(column: seq<byte>, c: char, text: string)
    requires IsAscii(column) && c < 0x80 as char
    requires |text| == |column|
    requires forall i :: 0 <= i < |column| ==> text[i] as int == Xor(c as int, column[i])
    ensures CandidateScore(column, c) == TextScore(text)
    decreases |column|
  {
    if column != [] {
      var n := |column|;
      CandidateScoreIsTextScore(column[..n - 1], c, text[..n - 1]);
      XorBelow(c as int, column[n - 1], 7);
      assert text[n - 1] == Xor(c as int, column[n - 1]) as char;
    }
  }

  /** Candidate number `p` of `Printable` scores highest, and every earlier candidate scores less. */
  ghost predicate IsFirstBest(column: seq<byte>, p: int)
    requires IsAscii(column)
  {
    PrintableFacts();
    && 0 <= p < |Printable|
    && (forall q :: 0 <= q < |Printable| ==>
          CandidateScore(column, Printable[q]) <= CandidateScore(column, Printable[p]))
    && (forall q :: 0 <= q < p ==>
          CandidateScore(column, Printable[q]) < CandidateScore(column, Printable[p]))
  }

  /** `answer` is what the solver must pick for `column`: the first highest-scoring candidate. */
  ghost predicate IsColumnChoice(column: seq<byte>, answer: char)
    requires IsAscii(column)
  {
    exists p :: IsFirstBest(column, p) && Printable[p] == answer
  }

  /** `sorted(block_answer_dict.items(), key=score, reverse=True)[0]`: a stable sort keeps
      equal scores in insertion order, so the first entry of the highest score comes first. */
  method HighestScore(entries: seq<(char, nat)>) returns (best: nat)
    requires |entries| > 0
    ensures best < |entries|
    ensures forall j :: 0 <= j < |entries| ==> entries[j].1 <= entries[best].1
    ensures forall j :: 0 <= j < best ==> entries[j].1 < entries[best].1
  {
    best := 0;
    var j := 1;
    while j < |entries|
      invariant best < j <= |entries|
      invariant forall k :: 0 <= k < j ==> entries[k].1 <= entries[best].1
      invariant forall k :: 0 <= k < best ==> entries[k].1 < entries[best].1
    {
      if entries[j].1 > entries[best].1 {
        best := j;
      }
      j := j + 1;
    }
  }

  /** The body of the candidate loop: tile the candidate to the block, XOR, decode and score. */
  method ScoreCandidate(block: seq<byte>, candidate: char) returns (score: nat)
    requires IsAscii(block) && candidate < 0x80 as char
    ensures score == CandidateScore(block, candidate)
  {
    var key := GenerateXorKey([candidate], |block|).value;
    assert IsAsciiText(key);
    var keyBytes := Encode(key);
    var answer := XorBytes(keyBytes, block);
    XorBytesAscii(keyBytes, block);
    var answerString := Decode(answer);
    score := ScoreText(answerString);
    CandidateScoreIsTextScore(block, candidate, answerString);
  }

  /** The candidate loop: `block_answer_dict`, one (candidate, score) entry per candidate,
      in the order of `possibleKeys`. */
  method ScoreCandidates(block: seq<byte>, possibleKeys: string) returns (blockAnswers: seq<(char, nat)>)
    requires IsAscii(block) && IsAsciiText(possibleKeys)
    ensures |blockAnswers| == |possibleKeys|
    ensures forall q :: 0 <= q < |possibleKeys| ==>
      blockAnswers[q] == (possibleKeys[q], CandidateScore(block, possibleKeys[q]))
  {
    blockAnswers := [];
    for p := 0 to |possibleKeys|
      invariant |blockAnswers| == p
      invariant forall q :: 0 <= q < p ==>
        blockAnswers[q] == (possibleKeys[q], CandidateScore(block, possibleKeys[q]))
    {
      var candidate := possibleKeys[p];
      var score := ScoreCandidate(block, candidate);
      blockAnswers := blockAnswers + [(candidate, score)];
    }
  }

  /** One pass of the per-block loop: score every printable candidate and keep the first best. */
  method SolveColumn(block: seq<byte>) returns (answer: char)
    requires IsAscii(block)
    ensures answer in Printable && answer < 0x80 as char
    ensures IsColumnChoice(block, answer)
  {
    PrintableFacts();
    var blockAnswers := ScoreCandidates(block, Printable);
    var best := HighestScore(blockAnswers);
    answer := blockAnswers[best].0;
    assert IsFirstBest(block, best);
  }

  // ---------------------------------------------------------------------------
  // Properties of the choice

  /** The choice is determined by the column: running the solver twice gives the same key character. */
  lemma ColumnChoiceUnique(column: seq<byte>, a: char, b: char)
    requires IsAscii(column)
    requires IsColumnChoice(column, a) && IsColumnChoice(column, b)
    ensures a == b
  {
    var pa :| IsFirstBest(column, pa) && Printable[pa] == a;
    var pb :| IsFirstBest(column, pb) && Printable[pb] == b;
    if pa < pb {
      assert false;
    } else if pb < pa {
      assert false;
    }
  }

  /** Every candidate scores zero on an empty column, so the first candidate, '0', wins. */
  lemma EmptyColumnChoosesZero(answer: char)
    requires IsColumnChoice([], answer)
    ensures answer == '0'
  {
    var p :| IsFirstBest([], p) && Printable[p] == answer;
    PrintableFacts();
  }
}
