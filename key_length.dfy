/** Key-length estimation by normalised Hamming distance between consecutive
    blocks (`keylength_finder`, the path where no exception is raised). */
module KeyLength {
  import opened Failures
  import opened ByteOps

  /** Python's `data[lo:hi]` for non-negative bounds: both ends clamp to the length,
      and the slice is empty when `lo >= hi`. */
  function Slice(data: seq<byte>, lo: nat, hi: nat): (r: seq<byte>)
    ensures var end := if hi <= |data| then hi else |data|;
      |r| == (if lo < end then end - lo else 0)
    ensures forall i :: 0 <= i < |r| ==> lo + i < |data| && r[i] == data[lo + i]
  {
    var n := |data|;
    var a := if lo <= n then lo else n;
    var b := if hi <= n then hi else n;
    if a <= b then data[a..b] else []
  }

  /** The list `samples` for one key size: sample `s` is `data[s*keysize:(s+1)*keysize]`. */
  function Samples(data: seq<byte>, sampleMax: nat, keysize: nat): seq<seq<byte>> {
    seq(sampleMax, s requires 0 <= s < sampleMax => Slice(data, s * keysize, (s + 1) * keysize))
  }

  /** Sample `s` is the block of `keysize` bytes at offset `s * keysize`, cut short at the end
      of the data and empty beyond it. */
  lemma SampleShape(data: seq<byte>, sampleMax: nat, keysize: nat, s: nat)
    requires s < sampleMax
    ensures var lo := s * keysize; var hi := lo + keysize;
      && |Samples(data, sampleMax, keysize)[s]| <= keysize
      && (hi <= |data| ==> Samples(data, sampleMax, keysize)[s] == data[lo..hi])
      && (lo < |data| < hi ==> Samples(data, sampleMax, keysize)[s] == data[lo..])
      && (|data| <= lo ==> Samples(data, sampleMax, keysize)[s] == [])
  {
    assert (s + 1) * keysize == s * keysize + keysize;
  }

  /** The inner `for segment` loop that builds `samples`. */
  method TakeSamples(inputData: seq<byte>, sampleMax: nat, keysize: nat) returns (samples: seq<seq<byte>>)
    ensures samples == Samples(inputData, sampleMax, keysize)
  {
    samples := [];
    for segment := 0 to sampleMax
      invariant |samples| == segment
      invariant forall t :: 0 <= t < segment ==>
        samples[t] == Slice(inputData, t * keysize, (t + 1) * keysize)
    {
      var sample := Slice(inputData, segment * keysize, (segment + 1) * keysize);
      samples := samples + [sample];
    }
  }

  // ---------------------------------------------------------------------------
  // Sum over `combinations(samples, 2)`

  /** Distances from sample `i` to the samples `i+1 .. hi-1`. */
  function RowSum(samples: seq<seq<byte>>, i: nat, hi: nat): nat
    requires i < |samples| && hi <= |samples|
    decreases hi
  {
    if hi <= i + 1 then 0 else RowSum(samples, i, hi - 1) + Hamming(samples[i], samples[hi - 1])
  }

  /** Distances of all pairs `(i, j)`, `i < j`, whose first sample is one of the first `rows`. */
  function PairSumUpTo(samples: seq<seq<byte>>, rows: nat): nat
    requires rows <= |samples|
  {
    if rows == 0 then 0 else PairSumUpTo(samples, rows - 1) + RowSum(samples, rows - 1, |samples|)
  }

  /** The sum of the Hamming distances of all pairs of samples, in the order `combinations` yields them. */
  function PairSum(samples: seq<seq<byte>>): nat {
    PairSumUpTo(samples, |samples|)
  }

  /** `sum([calculate_hamming_distance(s1, s2) for s1, s2 in combinations(samples, 2)])`,
      one first sample at a time. */
  method SumPairDistances(samples: seq<seq<byte>>) returns (total: nat)
    ensures total == PairSum(samples)
  {
    total := 0;
    var i := 0;
    while i < |samples|
      invariant 0 <= i <= |samples|
      invariant total == PairSumUpTo(samples, i)
    {
      var row := SumRowDistances(samples, i);
      total := total + row;
      i := i + 1;
    }
  }

  /** The pairs of `combinations(samples, 2)` whose first sample is `samples[i]`. */
  method SumRowDistances(samples: seq<seq<byte>>, i: nat) returns (row: nat)
    requires i < |samples|
    ensures row == RowSum(samples, i, |samples|)
  {
    row := 0;
    var j := i + 1;
    while j < |samples|
      invariant i + 1 <= j <= |samples|
      invariant row == RowSum(samples, i, j)
    {
      var d := CalculateHammingDistance(samples[i], samples[j]);
      row := row + d;
      j := j + 1;
    }
  }

  // ---------------------------------------------------------------------------
  // Normalised score

  /** `keysize_difference / (((sample_max-1)*(sample_max/2)) * keysize)`, computed exactly. */
  function Normalize(total: nat, sampleMax: nat, keysize: nat): (score: real)
    requires sampleMax >= 2 && keysize >= 1
    ensures 0.0 <= score && score * Divisor(sampleMax, keysize) == total as real
  {
    DivisorValue(sampleMax, keysize);
    DivideExactly(total as real, Divisor(sampleMax, keysize));
    total as real / Divisor(sampleMax, keysize)
  }

  lemma DivideExactly(x: real, d: real)
    requires 0.0 <= x && d > 0.0
    ensures 0.0 <= x / d && (x / d) * d == x
  {
  }

  /** `((sample_max-1)*(sample_max/2)) * keysize`: the number of sample pairs times the key size. */
  function Divisor(sampleMax: nat, keysize: nat): real {
    (sampleMax - 1) as real * (sampleMax as real / 2.0) * keysize as real
  }

  /** The value `keysize_differences[keysize]`. */
  function KeySizeScore(data: seq<byte>, sampleMax: nat, keysize: nat): (score: real)
    requires sampleMax >= 2 && keysize >= 1
    ensures 0.0 <= score <= 8.0
  {
    ScoreBound(data, sampleMax, keysize);
    Normalize(PairSum(Samples(data, sampleMax, keysize)), sampleMax, keysize)
  }

  /** `k` is the key size `keylength_finder` returns: a candidate of lowest score, and the
      first one in ascending order among those of equal score. */
  ghost predicate IsBestKeySize(data: seq<byte>, sampleMax: nat, minkey: nat, maxkey: int, k: int)
    requires sampleMax >= 2 && minkey >= 1
  {
    && minkey <= k < maxkey
    && (forall k' :: minkey <= k' < maxkey ==>
          KeySizeScore(data, sampleMax, k) <= KeySizeScore(data, sampleMax, k'))
    && (forall k' :: minkey <= k' < k ==>
          KeySizeScore(data, sampleMax, k') > KeySizeScore(data, sampleMax, k))
  }

  /** `sorted(keysize_differences.items(), key=score)[0]`: a stable sort keeps equal scores
      in insertion order, so the first entry of the lowest score comes first. */
  method LowestScore(entries: seq<(int, real)>) returns (best: nat)
    requires |entries| > 0
    ensures best < |entries|
    ensures forall j :: 0 <= j < |entries| ==> entries[best].1 <= entries[j].1
    ensures forall j :: 0 <= j < best ==> entries[j].1 > entries[best].1
  {
    best := 0;
    var j := 1;
    while j < |entries|
      invariant best < j <= |entries|
      invariant forall k :: 0 <= k < j ==> entries[best].1 <= entries[k].1
      invariant forall k :: 0 <= k < best ==> entries[k].1 > entries[best].1
    {
      if entries[j].1 < entries[best].1 {
        best := j;
      }
      j := j + 1;
    }
  }

  /** `keylength_finder(input_data, sample_max, minkey, maxkey)`. An empty range of key sizes
      leaves the dictionary empty, and taking the first sorted entry raises `IndexError`. */
  method KeylengthFinder(inputData: seq<byte>, sampleMax: nat, minkey: nat, maxkey: int) returns (r: Result<int>)
    requires sampleMax >= 2 && minkey >= 1
    ensures r.Failure? <==> maxkey <= minkey
    ensures r.Failure? ==> r.error == IndexError
    ensures r.Success? ==> IsBestKeySize(inputData, sampleMax, minkey, maxkey, r.value)
  {
    var keysizeDifferences: seq<(int, real)> := [];
    var keysize := minkey;
    while keysize < maxkey
      invariant minkey <= keysize
      invariant minkey < maxkey ==> keysize <= maxkey
      invariant maxkey <= minkey ==> keysize == minkey
      invariant |keysizeDifferences| == keysize - minkey
      invariant forall j :: 0 <= j < |keysizeDifferences| ==>
        keysizeDifferences[j] == (minkey + j, KeySizeScore(inputData, sampleMax, minkey + j))
    {
      var samples := TakeSamples(inputData, sampleMax, keysize);
      var keysizeDifference := SumPairDistances(samples);
      var normalized := Normalize(keysizeDifference, sampleMax, keysize);
      keysizeDifferences := keysizeDifferences + [(keysize, normalized)];
      keysize := keysize + 1;
    }
    if |keysizeDifferences| == 0 {
      return Failure(IndexError);
    }
    var best := LowestScore(keysizeDifferences);
    var finalKeyLength := keysizeDifferences[best].0;
    forall k' | minkey <= k' < maxkey
      ensures KeySizeScore(inputData, sampleMax, finalKeyLength) <= KeySizeScore(inputData, sampleMax, k')
    {
      assert keysizeDifferences[k' - minkey].1 == KeySizeScore(inputData, sampleMax, k');
    }
    forall k' | minkey <= k' < finalKeyLength
      ensures KeySizeScore(inputData, sampleMax, k') > KeySizeScore(inputData, sampleMax, finalKeyLength)
    {
      assert keysizeDifferences[k' - minkey].1 == KeySizeScore(inputData, sampleMax, k');
    }
    r := Success(finalKeyLength);
  }

  // ---------------------------------------------------------------------------
  // The score is a number of differing bits per byte

  lemma MulAdd(w: int, a: int, b: int)
    ensures w * (a + b) == w * a + w * b
  {
  }

  /** `w * c` written as repeated addition, so that the bounds below stay linear. */
  function Times(w: nat, c: nat): nat {
    if c == 0 then 0 else Times(w, c - 1) + w
  }

  lemma {:induction false} TimesIsProduct(w: nat, c: nat)
    ensures Times(w, c) == w * c
  {
    if c > 0 {
      TimesIsProduct(w, c - 1);
      MulAdd(w, c - 1, 1);
    }
  }

  lemma {:induction false} TimesAdd(w: nat, a: nat, b: nat)
    ensures Times(w, a + b) == Times(w, a) + Times(w, b)
  {
    if b > 0 {
      TimesAdd(w, a, b - 1);
    }
  }

  /** The number of pairs `(i, j)` with `i < rows` and `i < j < n`. */
  function Pairs(n: nat, rows: nat): nat
    requires rows <= n
  {
    if rows == 0 then 0 else Pairs(n, rows - 1) + (n - rows)
  }

  lemma {:induction false} PairsClosed(n: nat, rows: nat)
    requires rows <= n
    ensures 2 * Pairs(n, rows) == rows * (2 * n - rows - 1)
  {
    if rows > 0 {
      PairsClosed(n, rows - 1);
    }
  }

  lemma {:induction false} RowSumBound(samples: seq<seq<byte>>, i: nat, hi: nat, w: nat)
    requires i < hi <= |samples|
    requires forall t :: 0 <= t < |samples| ==> 8 * |samples[t]| <= w
    ensures RowSum(samples, i, hi) <= Times(w, hi - i - 1)
    decreases hi
  {
    if hi > i + 1 {
      RowSumBound(samples, i, hi - 1, w);
      PairBound(samples, w, i, hi - 1);
      assert Times(w, hi - i - 1) == Times(w, hi - i - 2) + w;
    }
  }

  /** One pair of samples differs in at most `w` bits. */
  lemma PairBound(samples: seq<seq<byte>>, w: nat, t: nat, u: nat)
    requires t < |samples| && u < |samples|
    requires forall t :: 0 <= t < |samples| ==> 8 * |samples[t]| <= w
    ensures Hamming(samples[t], samples[u]) <= w
  {
    HammingBound(samples[t], samples[u]);
    assert 8 * |samples[t]| <= w;
  }

  lemma {:induction false} PairSumUpToBound(samples: seq<seq<byte>>, rows: nat, w: nat)
    requires rows <= |samples|
    requires forall t :: 0 <= t < |samples| ==> 8 * |samples[t]| <= w
    ensures PairSumUpTo(samples, rows) <= Times(w, Pairs(|samples|, rows))
  {
    var n, r := |samples|, rows;
    if r > 0 {
      var earlier, row := PairSumUpTo(samples, r - 1), RowSum(samples, r - 1, n);
      assert PairSumUpTo(samples, r) == earlier + row;
      PairSumUpToBound(samples, r - 1, w);
      RowSumBound(samples, r - 1, n, w);
      TimesAdd(w, Pairs(n, r - 1), n - r);
    }
  }

  /** The normalised pair sum lies between 0 and 8: a count of differing bits per byte compared. */
  lemma ScoreBound(data: seq<byte>, sampleMax: nat, keysize: nat)
    requires sampleMax >= 2 && keysize >= 1
    ensures 0.0 <= Normalize(PairSum(Samples(data, sampleMax, keysize)), sampleMax, keysize) <= 8.0
  {
    var samples := Samples(data, sampleMax, keysize);
    var w := 8 * keysize;
    forall t | 0 <= t < |samples| ensures 8 * |samples[t]| <= w {
      SampleShape(data, sampleMax, keysize, t);
    }
    var p := Pairs(sampleMax, sampleMax);
    PairSumUpToBound(samples, sampleMax, w);
    TimesIsProduct(w, p);
    PairsClosed(sampleMax, sampleMax);
    ScaleStep(keysize, p, sampleMax * (sampleMax - 1));
    NormalizeBound(PairSum(samples), sampleMax, keysize);
  }

  lemma ScaleStep(k: int, p: int, q: int)
    requires 2 * p == q
    ensures (8 * k) * p == 4 * (k * q)
  {
  }

  lemma CastMul(a: int, b: int)
    ensures (a * b) as real == a as real * b as real
  {
  }

  lemma NormalizeBound(total: nat, sampleMax: nat, keysize: nat)
    requires sampleMax >= 2 && keysize >= 1
    requires total <= 4 * (keysize * (sampleMax * (sampleMax - 1)))
    ensures 0.0 <= Normalize(total, sampleMax, keysize) <= 8.0
  {
    DivisorValue(sampleMax, keysize);
    DivideAtMost(total as real, Divisor(sampleMax, keysize), 8.0);
  }

  /** Twice the divisor is the integer `keysize * sampleMax * (sampleMax - 1)`, which is positive. */
  lemma DivisorValue(sampleMax: nat, keysize: nat)
    requires sampleMax >= 2 && keysize >= 1
    ensures 2.0 * Divisor(sampleMax, keysize) == (keysize * (sampleMax * (sampleMax - 1))) as real
    ensures Divisor(sampleMax, keysize) > 0.0
  {
    var n, k := sampleMax, keysize;
    CastMul(n, n - 1);
    CastMul(k, n * (n - 1));
    PositiveProduct((n - 1) as real * (n as real / 2.0), k as real);
  }

  lemma PositiveProduct(a: real, b: real)
    requires a > 0.0 && b > 0.0
    ensures a * b > 0.0
  {
  }

  lemma DivideAtMost(x: real, d: real, c: real)
    requires d > 0.0 && 0.0 <= x <= c * d
    ensures 0.0 <= x / d <= c
  {
  }

  /** The returned key size is determined by the data: two runs agree. */
  lemma BestKeySizeUnique(data: seq<byte>, sampleMax: nat, minkey: nat, maxkey: int, k1: int, k2: int)
    requires sampleMax >= 2 && minkey >= 1
    requires IsBestKeySize(data, sampleMax, minkey, maxkey, k1)
    requires IsBestKeySize(data, sampleMax, minkey, maxkey, k2)
    ensures k1 == k2
  {
    var s1 := KeySizeScore(data, sampleMax, k1);
    var s2 := KeySizeScore(data, sampleMax, k2);
    assert s1 <= s2 && s2 <= s1;
  }
}
