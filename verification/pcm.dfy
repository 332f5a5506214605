/** 16-bit little-endian PCM as the speech services read it
    (`np.frombuffer(audio, dtype=np.int16)`), and the peak amplitude they gate
    on (`np.max(np.abs(samples))`, 0 for no samples).

    `np.frombuffer` raises on a buffer of odd length; the services check that
    themselves, so the functions here read the whole samples only.

    The peak as written takes `np.abs` on `int16`, where the absolute value of
    -32768 wraps back to -32768; `PeakAsWritten` models that, and `Peak` is the
    intended true peak that the services in this model use. */
module Pcm {
  import opened Common

  /** The signed 16-bit sample with low byte `lo` and high byte `hi`. */
  function Int16(lo: byte, hi: byte): (x: int)
    ensures -32768 <= x < 32768
  {
    var v := lo + 256 * hi;
    if v >= 32768 then v - 65536 else v
  }

  function SampleCount(b: seq<byte>): nat {
    |b| / 2
  }

  /** Sample `k` of the buffer. */
  function SampleAt(b: seq<byte>, k: nat): int
    requires k < SampleCount(b)
  {
    Int16(b[2 * k], b[2 * k + 1])
  }

  function Abs(x: int): nat {
    if x < 0 then -x else x
  }

  /** `np.abs` on an `int16`: the absolute value, except that -32768 has none in
      16 bits and stays -32768. */
  function Int16Abs(x: int): int
    requires -32768 <= x < 32768
  {
    if x == -32768 then -32768 else Abs(x)
  }

  /** The largest absolute sample value, or 0 when there is no whole sample. */
  function Peak(b: seq<byte>): (r: nat)
    ensures forall k :: 0 <= k < SampleCount(b) ==> Abs(SampleAt(b, k)) <= r
    ensures SampleCount(b) > 0 ==> exists k :: 0 <= k < SampleCount(b) && Abs(SampleAt(b, k)) == r
    ensures SampleCount(b) == 0 ==> r == 0
    decreases |b|
  {
    if |b| < 2 then 0
    else
      var x := Abs(Int16(b[0], b[1]));
      var rest := Peak(b[2..]);
      assert forall k :: 0 <= k < SampleCount(b[2..]) ==> SampleAt(b[2..], k) == SampleAt(b, k + 1) by {
        forall k | 0 <= k < SampleCount(b[2..]) ensures SampleAt(b[2..], k) == SampleAt(b, k + 1) {
          assert b[2..][2 * k] == b[2 * k + 2] && b[2..][2 * k + 1] == b[2 * k + 3];
        }
      }
      assert SampleAt(b, 0) == Int16(b[0], b[1]);
      var r := Max(x, rest);
      assert forall k :: 1 <= k < SampleCount(b) ==> Abs(SampleAt(b, k)) <= rest by {
        forall k | 1 <= k < SampleCount(b) ensures Abs(SampleAt(b, k)) <= rest {
          assert SampleAt(b, k) == SampleAt(b[2..], k - 1);
        }
      }
      assert SampleCount(b[2..]) > 0 && r == rest ==> exists k :: 0 <= k < SampleCount(b) && Abs(SampleAt(b, k)) == r by {
        if SampleCount(b[2..]) > 0 && r == rest {
          var k :| 0 <= k < SampleCount(b[2..]) && Abs(SampleAt(b[2..], k)) == rest;
          assert Abs(SampleAt(b, k + 1)) == r;
        }
      }
      r
  }

  /** The peak as the source computes it: the maximum of `np.abs` over the
      samples, with the 16-bit wrap-around of `np.abs(-32768)`. */
  function PeakAsWritten(b: seq<byte>): int
    decreases |b|
  {
    if |b| < 2 then 0
    else if |b| < 4 then Int16Abs(Int16(b[0], b[1]))
    else Max(Int16Abs(Int16(b[0], b[1])), PeakAsWritten(b[2..]))
  }

  /** Whether every whole sample of the buffer is -32768 (bytes `00 80`), the
      loudest negative value. */
  predicate AllMostNegative(b: seq<byte>) {
    forall k :: 0 <= k < SampleCount(b) ==> SampleAt(b, k) == -32768
  }

  /** The discrepancy: a buffer of full-scale negative samples has true peak
      32768, but the peak as written is -32768, below every threshold the
      services use (1000 and 16384). */
  lemma {:induction false} FullScaleNegativeLooksQuiet(b: seq<byte>)
    requires |b| >= 2 && AllMostNegative(b)
    ensures PeakAsWritten(b) == -32768
    ensures Peak(b) == 32768
    decreases |b|
  {
    assert SampleAt(b, 0) == Int16(b[0], b[1]);
    if |b| >= 4 {
      forall k | 0 <= k < SampleCount(b[2..]) ensures SampleAt(b[2..], k) == -32768 {
        assert b[2..][2 * k] == b[2 * k + 2] && b[2..][2 * k + 1] == b[2 * k + 3];
        assert SampleAt(b[2..], k) == SampleAt(b, k + 1);
      }
      FullScaleNegativeLooksQuiet(b[2..]);
    }
  }

  /** Away from -32768 the two peaks agree, so the wrap-around is the only
      difference. */
  lemma {:induction false} PeakAsWrittenAgrees(b: seq<byte>)
    requires forall k :: 0 <= k < SampleCount(b) ==> SampleAt(b, k) != -32768
    ensures PeakAsWritten(b) == Peak(b)
    decreases |b|
  {
    if |b| >= 2 {
      assert SampleAt(b, 0) == Int16(b[0], b[1]);
      if |b| >= 4 {
        forall k | 0 <= k < SampleCount(b[2..]) ensures SampleAt(b[2..], k) != -32768 {
          assert b[2..][2 * k] == b[2 * k + 2] && b[2..][2 * k + 1] == b[2 * k + 3];
          assert SampleAt(b[2..], k) == SampleAt(b, k + 1);
        }
        PeakAsWrittenAgrees(b[2..]);
      } else {
        assert Peak(b[2..]) == 0;
      }
    }
  }
}
