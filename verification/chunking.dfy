/** The two ways the audio services cut bytes into pieces.

    The speech-to-text services keep a byte buffer and, after each frame, cut
    full pieces of a fixed size off its front while it holds at least that many
    (`while len(buffer) >= chunk_size`), keeping the remainder for later frames.

    The text-to-speech services stream a finished buffer in pieces of a fixed
    size from offset 0 (`audio[offset:offset + chunk_size]`), the last piece
    possibly shorter. */
module Chunking {
  import opened Common

  /** The full pieces cut off the front of `s` and what remains. */
  function Cut<T>(s: seq<T>, size: nat): (r: (seq<seq<T>>, seq<T>))
    requires size > 0
    ensures Flatten(r.0) + r.1 == s
    ensures |r.1| < size
    ensures forall i :: 0 <= i < |r.0| ==> |r.0[i]| == size
    decreases |s|
  {
    if |s| < size then ([], s)
    else
      var rest := Cut(s[size..], size);
      assert Flatten([s[..size]] + rest.0) == s[..size] + Flatten(rest.0) by {
        assert ([s[..size]] + rest.0)[1..] == rest.0;
      }
      ([s[..size]] + rest.0, rest.1)
  }

  /** The pieces depend only on the bytes, not on how they arrived: cutting a
      buffer, then cutting what remains together with more bytes, gives the
      pieces of cutting everything at once. */
  lemma {:induction false} CutConcat<T>(x: seq<T>, y: seq<T>, size: nat)
    requires size > 0
    ensures var c1 := Cut(x, size);
            var c2 := Cut(c1.1 + y, size);
            Cut(x + y, size) == (c1.0 + c2.0, c2.1)
    decreases |x|
  {
    if |x| >= size {
      assert (x + y)[..size] == x[..size];
      assert (x + y)[size..] == x[size..] + y;
      CutConcat(x[size..], y, size);
      var r := Cut(x[size..], size);
      var c2 := Cut(r.1 + y, size);
      assert [x[..size]] + (r.0 + c2.0) == ([x[..size]] + r.0) + c2.0;
    } else {
      assert Cut(x, size).0 + Cut(x + y, size).0 == Cut(x + y, size).0;
    }
  }

  /** The cutting loop of the speech-to-text services, on the buffer after the
      new audio was appended. */
  method CutFull<T>(buffer: seq<T>, size: nat) returns (chunks: seq<seq<T>>, rest: seq<T>)
    requires size > 0
    ensures (chunks, rest) == Cut(buffer, size)
    ensures Flatten(chunks) + rest == buffer && |rest| < size
  {
    chunks := [];
    rest := buffer;
    assert [] + Cut(buffer, size).0 == Cut(buffer, size).0;
    while |rest| >= size
      invariant Cut(buffer, size) == (chunks + Cut(rest, size).0, Cut(rest, size).1)
      decreases |rest|
    {
      var chunk := rest[..size];
      assert Cut(rest, size).0 == [chunk] + Cut(rest[size..], size).0;
      assert chunks + ([chunk] + Cut(rest[size..], size).0) == (chunks + [chunk]) + Cut(rest[size..], size).0;
      chunks := chunks + [chunk];
      rest := rest[size..];
    }
    assert Cut(rest, size) == ([], rest);
    assert chunks + [] == chunks;
  }

  /** The streamed pieces of `s`: consecutive, non-empty, `size` long except
      possibly the last. */
  function Pieces<T>(s: seq<T>, size: nat): (r: seq<seq<T>>)
    requires size > 0
    ensures Flatten(r) == s
    ensures forall i :: 0 <= i < |r| ==> 0 < |r[i]| <= size
    ensures forall i :: 0 <= i < |r| - 1 ==> |r[i]| == size
    decreases |s|
  {
    if s == [] then []
    else
      var n := Min(size, |s|);
      var rest := Pieces(s[n..], size);
      assert Flatten([s[..n]] + rest) == s[..n] + Flatten(rest) by {
        assert ([s[..n]] + rest)[1..] == rest;
      }
      assert n < size ==> rest == [];
      [s[..n]] + rest
  }

  /** One step of the streaming loop: the piece at `offset` and the pieces after it. */
  lemma PiecesStep<T>(s: seq<T>, offset: nat, size: nat)
    requires size > 0 && offset < |s|
    ensures Pieces(s[offset..], size) == [s[offset..Min(offset + size, |s|)]] + Pieces(s[Min(offset + size, |s|)..], size)
  {
    var t := s[offset..];
    var n := Min(size, |t|);
    assert t[..n] == s[offset..Min(offset + size, |s|)];
    assert t[n..] == s[Min(offset + size, |s|)..];
  }

  /** One turn of the streaming loop: the slice at `offset` moves from the
      pieces still to come onto those already sent. */
  lemma AdvanceChunks<T>(s: seq<T>, chunks: seq<seq<T>>, offset: nat, size: nat)
    requires size > 0 && offset < |s|
    requires Pieces(s, size) == chunks + Pieces(s[offset..], size)
    ensures Pieces(s, size) == (chunks + [s[offset..Min(offset + size, |s|)]]) + Pieces(s[Min(offset + size, |s|)..], size)
  {
    var chunk := s[offset..Min(offset + size, |s|)];
    var later := Pieces(s[Min(offset + size, |s|)..], size);
    assert chunks + ([chunk] + later) == (chunks + [chunk]) + later;
    PiecesStep(s, offset, size);
  }

  /** The streaming loop of the text-to-speech services: every non-empty slice
      from offsets 0, `size`, `2 * size`, … while the offset is inside the
      audio. */
  method StreamPieces<T>(audio: seq<T>, size: nat) returns (chunks: seq<seq<T>>)
    requires size > 0
    ensures chunks == Pieces(audio, size)
  {
    chunks := [];
    var offset := 0;
    ghost var pos := 0;
    assert [] + Pieces(audio[0..], size) == Pieces(audio, size) by {
      assert audio[0..] == audio;
    }
    while offset < |audio|
      invariant pos == Min(offset, |audio|)
      invariant Pieces(audio, size) == chunks + Pieces(audio[pos..], size)
      decreases |audio| - offset
    {
      var end := Min(offset + size, |audio|);
      var chunk := audio[offset..end];
      assert |chunk| == end - offset > 0;
      AdvanceChunks(audio, chunks, offset, size);
      if chunk != [] {
        chunks := chunks + [chunk];
      }
      offset := offset + size;
      pos := end;
    }
    assert audio[pos..] == [];
    assert chunks + [] == chunks;
  }
}
