/** The canonical PCM WAVE file the whisper.cpp service writes around a chunk of
    audio (`_write_wav`): a RIFF header with the `WAVE` form type, a 16-byte PCM
    `fmt ` chunk for 16-bit mono at the service's sample rate, and a `data` chunk
    holding the audio bytes unchanged, following the WAVE form section of the
    Microsoft/IBM Multimedia Programming Interface and Data Specifications 1.0.

    Every numeric field is packed little-endian (`struct.pack('<I')` and `'<H'`),
    which raises when the value does not fit; the writer's result is `None` then. */
module Wav {
  import opened Common

  const U16Limit: int := 0x1_0000
  const U32Limit: int := 0x1_0000_0000

  const HeaderSize: nat := 44
  const FmtChunkSize: nat := 16
  const PcmFormat: nat := 1
  const Channels: nat := 1
  const BitsPerSample: nat := 16
  const BlockAlign: nat := 2

  /** The bytes of an ASCII tag. */
  function Ascii(s: string): (r: seq<byte>)
    requires forall i :: 0 <= i < |s| ==> s[i] as int < 256
    ensures |r| == |s|
    ensures forall i :: 0 <= i < |s| ==> r[i] == s[i] as int
  {
    seq(|s|, i requires 0 <= i < |s| => s[i] as int)
  }

  /** `struct.pack('<H', x)`. */
  function LeU16(x: nat): (r: seq<byte>)
    requires x < U16Limit
    ensures |r| == 2
  {
    [x % 256, x / 256]
  }

  /** `struct.pack('<I', x)`. */
  function LeU32(x: nat): (r: seq<byte>)
    requires x < U32Limit
    ensures |r| == 4
  {
    [x % 256, x / 256 % 256, x / 0x1_0000 % 256, x / 0x100_0000]
  }

  function U16At(b: seq<byte>, i: nat): nat
    requires i + 2 <= |b|
  {
    b[i] as int + 256 * b[i + 1] as int
  }

  function U32At(b: seq<byte>, i: nat): nat
    requires i + 4 <= |b|
  {
    b[i] as int + 256 * b[i + 1] as int + 0x1_0000 * b[i + 2] as int + 0x100_0000 * b[i + 3] as int
  }

  lemma LeU16Decodes(x: nat)
    requires x < U16Limit
    ensures U16At(LeU16(x), 0) == x
  {
  }

  lemma LeU32Decodes(x: nat)
    requires x < U32Limit
    ensures U32At(LeU32(x), 0) == x
  {
    var b := LeU32(x);
    assert x / 256 == x / 256 % 256 + 256 * (x / 0x1_0000);
    assert x / 0x1_0000 == x / 0x1_0000 % 256 + 256 * (x / 0x100_0000);
  }

  /** Splitting off the low byte of `lo + 256 * hi`. */
  lemma LowByte(lo: int, hi: nat)
    requires 0 <= lo < 256
    ensures (lo + 256 * hi) % 256 == lo && (lo + 256 * hi) / 256 == hi
  {
  }

  /** A four-byte window decodes below 2^32 and encodes back to itself. */
  lemma U32AtEncodes(b: seq<byte>, i: nat)
    requires i + 4 <= |b|
    ensures U32At(b, i) < U32Limit && LeU32(U32At(b, i)) == b[i..i + 4]
  {
    var x := U32At(b, i);
    var y2: nat := b[i + 2] as int + 256 * b[i + 3] as int;
    var y1: nat := b[i + 1] as int + 256 * y2;
    assert x == b[i] as int + 256 * y1;
    LowByte(b[i], y1);
    LowByte(b[i + 1], y2);
    LowByte(b[i + 2], b[i + 3]);
    assert x / 0x1_0000 == y2 by {
      assert x / 0x1_0000 == x / 256 / 256;
    }
    assert x / 0x100_0000 == b[i + 3] by {
      assert x / 0x100_0000 == x / 0x1_0000 / 256;
    }
  }

  lemma U16AtEncodes(b: seq<byte>, i: nat)
    requires i + 2 <= |b|
    ensures U16At(b, i) < U16Limit && LeU16(U16At(b, i)) == b[i..i + 2]
  {
  }

  /** Whether every field of the header fits its packed width. */
  predicate Packable(sampleRate: int, n: nat) {
    0 <= sampleRate && 2 * sampleRate < U32Limit && 36 + n < U32Limit
  }

  /** `_write_wav(file, audio_data)` at the service's sample rate: the bytes
      written, or `None` when packing a field raises. */
  function WriteWav(sampleRate: int, audio: seq<byte>): (r: Option<seq<byte>>)
    ensures r.Some? <==> Packable(sampleRate, |audio|)
    ensures r.Some? ==>
              && |r.value| == HeaderSize + |audio|
              && r.value[HeaderSize..] == audio
              && r.value[0..4] == Ascii("RIFF")
              && r.value[4..8] == LeU32(36 + |audio|)
              && r.value[8..12] == Ascii("WAVE")
              && r.value[12..16] == Ascii("fmt ")
              && r.value[16..20] == LeU32(FmtChunkSize)
              && r.value[20..22] == LeU16(PcmFormat)
              && r.value[22..24] == LeU16(Channels)
              && r.value[24..28] == LeU32(sampleRate)
              && r.value[28..32] == LeU32(2 * sampleRate)
              && r.value[32..34] == LeU16(BlockAlign)
              && r.value[34..36] == LeU16(BitsPerSample)
              && r.value[36..40] == Ascii("data")
              && r.value[40..44] == LeU32(|audio|)
  {
    if !Packable(sampleRate, |audio|) then None
    else
      var h := Header(sampleRate, |audio|);
      HeaderSlices(h, audio);
      Some(h + audio)
  }

  /** The 44 header bytes `_write_wav` packs before the audio: the RIFF
      descriptor, the format chunk and the data chunk's head. */
  function Header(sampleRate: int, n: nat): (h: seq<byte>)
    requires Packable(sampleRate, n)
    ensures |h| == HeaderSize
    ensures && h[0..4] == Ascii("RIFF")
            && h[4..8] == LeU32(36 + n)
            && h[8..12] == Ascii("WAVE")
            && h[12..16] == Ascii("fmt ")
            && h[16..20] == LeU32(FmtChunkSize)
            && h[20..22] == LeU16(PcmFormat)
            && h[22..24] == LeU16(Channels)
            && h[24..28] == LeU32(sampleRate)
            && h[28..32] == LeU32(2 * sampleRate)
            && h[32..34] == LeU16(BlockAlign)
            && h[34..36] == LeU16(BitsPerSample)
            && h[36..40] == Ascii("data")
            && h[40..44] == LeU32(n)
  {
    var riff := Ascii("RIFF") + LeU32(36 + n) + Ascii("WAVE");
    var kind := Ascii("fmt ") + LeU32(FmtChunkSize) + LeU16(PcmFormat) + LeU16(Channels);
    var rates := FmtRates(sampleRate);
    var data := Ascii("data") + LeU32(n);
    assert riff[0..4] == Ascii("RIFF") && riff[4..8] == LeU32(36 + n) && riff[8..12] == Ascii("WAVE");
    assert && kind[0..4] == Ascii("fmt ") && kind[4..8] == LeU32(FmtChunkSize)
           && kind[8..10] == LeU16(PcmFormat) && kind[10..12] == LeU16(Channels);
    assert data[0..4] == Ascii("data") && data[4..8] == LeU32(n);
    Quarters(riff, kind, rates, data);
    riff + kind + rates + data
  }

  /** The format chunk's second half: sample rate, byte rate, block alignment
      and sample width, computed as `_write_wav` computes them. */
  function FmtRates(sampleRate: int): (r: seq<byte>)
    requires Packable(sampleRate, 0)
    ensures |r| == 12
    ensures && r[0..4] == LeU32(sampleRate)
            && r[4..8] == LeU32(2 * sampleRate)
            && r[8..10] == LeU16(BlockAlign)
            && r[10..12] == LeU16(BitsPerSample)
  {
    var byteRate := sampleRate * Channels * BitsPerSample / 8;
    var blockAlign := Channels * BitsPerSample / 8;
    assert byteRate == 2 * sampleRate && blockAlign == BlockAlign;
    LeU32(sampleRate) + LeU32(byteRate) + LeU16(blockAlign) + LeU16(BitsPerSample)
  }

  /** Slicing four 12-, 12-, 12- and 8-byte parts laid end to end. */
  lemma Quarters(a: seq<byte>, b: seq<byte>, c: seq<byte>, d: seq<byte>)
    requires |a| == 12 && |b| == 12 && |c| == 12 && |d| == 8
    ensures var h := a + b + c + d;
            && (forall lo, hi :: 0 <= lo <= hi <= 12 ==> h[lo..hi] == a[lo..hi])
            && (forall lo, hi :: 0 <= lo <= hi <= 12 ==> h[12 + lo..12 + hi] == b[lo..hi])
            && (forall lo, hi :: 0 <= lo <= hi <= 12 ==> h[24 + lo..24 + hi] == c[lo..hi])
            && (forall lo, hi :: 0 <= lo <= hi <= 8 ==> h[36 + lo..36 + hi] == d[lo..hi])
  {
    var h := a + b + c + d;
    assert forall i :: 0 <= i < 12 ==> h[i] == a[i] && h[12 + i] == b[i] && h[24 + i] == c[i];
    assert forall i :: 0 <= i < 8 ==> h[36 + i] == d[i];
  }

  /** Slices inside the header are unchanged by appending the audio. */
  lemma HeaderSlices(h: seq<byte>, audio: seq<byte>)
    requires |h| == HeaderSize
    ensures (h + audio)[HeaderSize..] == audio
    ensures forall a, b :: 0 <= a <= b <= HeaderSize ==> (h + audio)[a..b] == h[a..b]
  {
    forall a, b | 0 <= a <= b <= HeaderSize
      ensures (h + audio)[a..b] == h[a..b]
    {
      assert forall i :: 0 <= i < b - a ==> (h + audio)[a..b][i] == h[a + i];
    }
  }

  /** Reads a file of the writer's shape back: the sample rate and the audio, or
      `None` when some tag or field differs from what the writer produces. The
      source has no reader; this one is the reference the writer is checked
      against. */
  function ParseWav(b: seq<byte>): Option<(int, seq<byte>)> {
    if |b| < HeaderSize then None
    else if b[0..4] != Ascii("RIFF") || b[8..12] != Ascii("WAVE") || b[12..16] != Ascii("fmt ") || b[36..40] != Ascii("data") then None
    else if U32At(b, 4) != |b| - 8 || U32At(b, 40) != |b| - HeaderSize then None
    else if U32At(b, 16) != FmtChunkSize || U16At(b, 20) != PcmFormat || U16At(b, 22) != Channels then None
    else if U32At(b, 28) != 2 * U32At(b, 24) || U16At(b, 32) != BlockAlign || U16At(b, 34) != BitsPerSample then None
    else Some((U32At(b, 24), b[HeaderSize..]))
  }

  /** The written header describes the audio it carries: reading it back gives
      the sample rate and the audio. */
  lemma {:induction false} WriteThenParse(sampleRate: int, audio: seq<byte>)
    requires Packable(sampleRate, |audio|)
    ensures ParseWav(WriteWav(sampleRate, audio).value) == Some((sampleRate, audio))
  {
    var b := WriteWav(sampleRate, audio).value;
    var n := |audio|;
    LeU32Decodes(36 + n);
    LeU32Decodes(FmtChunkSize);
    LeU16Decodes(PcmFormat);
    LeU16Decodes(Channels);
    LeU32Decodes(sampleRate);
    LeU32Decodes(2 * sampleRate);
    LeU16Decodes(BlockAlign);
    LeU16Decodes(BitsPerSample);
    LeU32Decodes(n);
    assert U32At(b, 4) == U32At(b[4..8], 0);
    assert U32At(b, 16) == U32At(b[16..20], 0);
    assert U16At(b, 20) == U16At(b[20..22], 0);
    assert U16At(b, 22) == U16At(b[22..24], 0);
    assert U32At(b, 24) == U32At(b[24..28], 0);
    assert U32At(b, 28) == U32At(b[28..32], 0);
    assert U16At(b, 32) == U16At(b[32..34], 0);
    assert U16At(b, 34) == U16At(b[34..36], 0);
    assert U32At(b, 40) == U32At(b[40..44], 0);
  }

  /** Conversely, every file the reader accepts is exactly what the writer
      produces for its sample rate and audio: the layout is canonical. */
  lemma {:induction false} ParseThenWrite(b: seq<byte>)
    requires ParseWav(b).Some?
    ensures var (sr, audio) := ParseWav(b).value;
            WriteWav(sr, audio) == Some(b)
  {
    var (sr, audio) := ParseWav(b).value;
    U32AtEncodes(b, 4);
    U32AtEncodes(b, 16);
    U16AtEncodes(b, 20);
    U16AtEncodes(b, 22);
    U32AtEncodes(b, 24);
    U32AtEncodes(b, 28);
    U16AtEncodes(b, 32);
    U16AtEncodes(b, 34);
    U32AtEncodes(b, 40);
    assert Packable(sr, |audio|);
    var w := WriteWav(sr, audio).value;
    assert |w| == |b|;
    assert w[0..4] == b[0..4] && w[4..8] == b[4..8] && w[8..12] == b[8..12] && w[12..16] == b[12..16];
    assert w[16..20] == b[16..20] && w[20..22] == b[20..22] && w[22..24] == b[22..24] && w[24..28] == b[24..28];
    assert w[28..32] == b[28..32] && w[32..34] == b[32..34] && w[34..36] == b[34..36] && w[36..40] == b[36..40];
    assert w[40..44] == b[40..44] && w[44..] == b[44..];
    forall i | 0 <= i < |b| ensures w[i] == b[i] {
      if i < 4 { assert w[i] == w[0..4][i]; }
      else if i < 8 { assert w[i] == w[4..8][i - 4]; }
      else if i < 12 { assert w[i] == w[8..12][i - 8]; }
      else if i < 16 { assert w[i] == w[12..16][i - 12]; }
      else if i < 20 { assert w[i] == w[16..20][i - 16]; }
      else if i < 22 { assert w[i] == w[20..22][i - 20]; }
      else if i < 24 { assert w[i] == w[22..24][i - 22]; }
      else if i < 28 { assert w[i] == w[24..28][i - 24]; }
      else if i < 32 { assert w[i] == w[28..32][i - 28]; }
      else if i < 34 { assert w[i] == w[32..34][i - 32]; }
      else if i < 36 { assert w[i] == w[34..36][i - 34]; }
      else if i < 40 { assert w[i] == w[36..40][i - 36]; }
      else if i < 44 { assert w[i] == w[40..44][i - 40]; }
      else { assert w[i] == w[44..][i - 44]; }
    }
    assert w == b;
  }
}
