/** In-place conversion between one and two channels. */
module PcmMixer {

  type Sample = x: int | -0x8000 <= x <= 0x7fff

  /** Division by two as in C, toward zero. */
  function Halve(x: int): int {
    if x >= 0 then x / 2 else -(-x / 2)
  }

  /** The average of a pair, which is a sample again. */
  function Average(a: Sample, b: Sample): Sample {
    Halve(a + b)
  }

  /** The first n samples, each twice, over the first 2 * n places. */
  function Expanded(s: seq<Sample>, n: nat): (r: seq<Sample>)
    requires 2 * n <= |s|
  {
    seq(|s|, k requires 0 <= k < |s| => if k < 2 * n then s[k / 2] else s[k])
  }

  /** The averages of the first n pairs over the first n places. */
  function Mixed(s: seq<Sample>, n: nat): (r: seq<Sample>)
    requires 2 * n <= |s|
  {
    seq(|s|, k requires 0 <= k < |s| => if k < n then Average(s[2 * k], s[2 * k + 1]) else s[k])
  }

  /** _pcm_mixer: from the end, so that no sample is overwritten before both copies are made. */
  method Expand(buffer: array<Sample>, samples: nat)
    requires 2 * samples <= buffer.Length
    modifies buffer
    ensures buffer[..] == Expanded(old(buffer[..]), samples)
  {
    ghost var was := buffer[..];
    var i, size := samples, samples * 2;
    while i > 0
      invariant 0 <= i <= samples && size == 2 * i
      invariant forall k :: 0 <= k < size ==> buffer[k] == was[k]
      invariant forall k :: size <= k < buffer.Length ==> buffer[k] == Expanded(was, samples)[k]
    {
      i := i - 1;
      size := size - 1;
      buffer[size] := buffer[i];
      size := size - 1;
      buffer[size] := buffer[i];
    }
  }

  /** pcm_mixer: from the start, so that no pair is overwritten before it is averaged. */
  method Mix(buffer: array<Sample>, samples: nat)
    requires samples <= buffer.Length
    modifies buffer
    ensures buffer[..] == Mixed(old(buffer[..]), samples / 2)
  {
    ghost var was := buffer[..];
    var i := 0;
    while i < samples / 2
      invariant 0 <= i <= samples / 2
      invariant forall k :: 0 <= k < i ==> buffer[k] == Average(was[2 * k], was[2 * k + 1])
      invariant forall k :: i <= k < buffer.Length ==> buffer[k] == was[k]
    {
      buffer[i] := Average(buffer[2 * i], buffer[2 * i + 1]);
      i := i + 1;
    }
  }

  /** Duplicating and averaging gives the samples back; only the second half of the places stays changed. */
  lemma MixUndoesExpand(s: seq<Sample>, n: nat)
    requires 2 * n <= |s|
    ensures Mixed(Expanded(s, n), n) == s[..n] + Expanded(s, n)[n..]
  {
    forall k | 0 <= k < n
      ensures Mixed(Expanded(s, n), n)[k] == s[k]
    {
      assert Expanded(s, n)[2 * k] == s[k] && Expanded(s, n)[2 * k + 1] == s[k];
    }
  }

  /** The other way round it is the identity exactly on buffers whose channels are equal. */
  lemma ExpandUndoesMix(s: seq<Sample>, n: nat)
    requires 2 * n <= |s|
    ensures Expanded(Mixed(s, n), n) == s <==> forall k :: 0 <= k < n ==> s[2 * k] == s[2 * k + 1]
  {
    var r := Expanded(Mixed(s, n), n);
    forall k | 0 <= k < n
      ensures r[2 * k] == r[2 * k + 1] == Average(s[2 * k], s[2 * k + 1])
    {
      assert (2 * k + 1) / 2 == k;
    }
    if forall k :: 0 <= k < n ==> s[2 * k] == s[2 * k + 1] {
      forall k | 0 <= k < 2 * n
        ensures r[k] == s[k]
      {
        assert s[2 * (k / 2)] == s[2 * (k / 2) + 1];
        assert k == 2 * (k / 2) || k == 2 * (k / 2) + 1;
      }
    }
  }

  /** An average lies between its two samples and is off by half a unit at most, toward zero. */
  lemma AverageIsBetween(a: Sample, b: Sample)
    ensures (if a < b then a else b) <= Average(a, b) <= (if a < b then b else a)
    ensures a + b >= 0 ==> 0 <= a + b - 2 * Average(a, b) <= 1
    ensures a + b <= 0 ==> -1 <= a + b - 2 * Average(a, b) <= 0
  {
  }
}
