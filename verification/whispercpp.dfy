/** The whisper.cpp speech-to-text service (`WhisperCppSTTService`): audio frames
    fill a byte buffer that is cut into one-second pieces (`2 * sample_rate`
    bytes of 16-bit mono); pieces loud enough to hold speech are queued for
    transcription; a queued piece is wrapped in a WAVE file, transcribed by the
    external whisper.cpp program and its output cleaned of the program's
    bracketed artifacts.

    The external program is the parameter `run`, from the file's bytes to its
    exit status and standard output. The worker thread, the queue and the base
    class's frame handling are outside the model. */
module WhisperCpp {
  import opened Common
  import opened Frames
  import Chunking
  import Pcm
  import Wav

  /** Peak amplitude a piece must exceed to be queued. */
  const SpeechThreshold: int := 1000

  /** The markers whisper.cpp prints for non-speech, removed in this order. */
  const Artifacts: seq<string> := ["[BLANK_AUDIO]", "[MUSIC]", "[APPLAUSE]", "[LAUGHTER]"]

  /** `int(1.0 * sample_rate * 2)`: one second of 16-bit mono audio. */
  function ChunkSize(sampleRate: int): (r: int)
    ensures r % 2 == 0 && r / 2 == sampleRate
    ensures r > 0 <==> sampleRate > 0
  {
    2 * sampleRate
  }

  /** Every artifact, in order, replaced by nothing. */
  function RemoveArtifacts(t: string, arts: seq<string>): (r: string)
    requires forall i :: 0 <= i < |arts| ==> |arts[i]| > 0
    ensures |r| <= |t|
    ensures (forall i :: 0 <= i < |arts| ==> !Contains(t, arts[i])) ==> r == t
    decreases |arts|
  {
    if arts == [] then t else RemoveArtifacts(ReplaceAll(t, arts[0], ""), arts[1..])
  }

  /** The cleanup of whisper.cpp's output (`_process_audio_chunk`): a failed run
      or an output of at most one character after stripping gives nothing;
      otherwise the artifacts are removed and the rest stripped, and an empty
      result gives nothing. */
  function CleanOutput(returnCode: int, stdout: string): (r: Option<string>)
    ensures returnCode != 0 ==> r.None?
    ensures |Strip(stdout)| <= 1 ==> r.None?
    ensures r.Some? ==> r.value != [] && !IsSpace(r.value[0]) && !IsSpace(r.value[|r.value| - 1])
    ensures r.Some? ==> |r.value| <= |Strip(stdout)|
  {
    if returnCode != 0 then None
    else
      var t := Strip(stdout);
      if !(t != [] && |t| > 1) then None
      else
        var u := Strip(RemoveArtifacts(t, Artifacts));
        if u != [] then Some(u) else None
  }

  lemma ArtifactsNonEmpty()
    ensures forall i :: 0 <= i < |Artifacts| ==> |Artifacts[i]| > 0
  {
  }

  /** Output without artifacts is kept, only stripped. */
  lemma CleanKeepsSpeech(stdout: string)
    requires |Strip(stdout)| > 1
    requires forall i :: 0 <= i < |Artifacts| ==> !Contains(Strip(stdout), Artifacts[i])
    ensures CleanOutput(0, stdout) == Some(Strip(stdout))
  {
    var t := Strip(stdout);
    ArtifactsNonEmpty();
    assert RemoveArtifacts(t, Artifacts) == t;
    StripIdempotent(stdout);
    assert Strip(t) == t;
  }

  /** A text that is exactly the first artifact is removed entirely. */
  lemma {:induction false} RemoveOnlyArtifact(a: string, arts: seq<string>)
    requires |arts| >= 1 && arts[0] == a
    requires forall i :: 0 <= i < |arts| ==> |arts[i]| > 0
    ensures RemoveArtifacts(a, arts) == []
  {
    RemoveTrailingOccurrence("", a);
    assert "" + a == a;
    assert ReplaceAll(a, a, "") == [];
    assert RemoveArtifacts(a, arts) == RemoveArtifacts([], arts[1..]);
  }

  /** An output holding only the blank-audio marker, whatever whitespace
      surrounds it, gives nothing. */
  lemma BlankAudioDropped(stdout: string)
    requires Strip(stdout) == Artifacts[0]
    ensures CleanOutput(0, stdout) == None
  {
    var t := Strip(stdout);
    assert |t| > 1;
    ArtifactsNonEmpty();
    RemoveOnlyArtifact(t, Artifacts);
    assert Strip([]) == [];
  }

  /** Each marker opens with `[`, has no other `[` and no blank, and the markers
      differ in their second character. */
  lemma ArtifactShapes()
    ensures forall i :: 0 <= i < |Artifacts| ==> |Artifacts[i]| > 1 && Artifacts[i][0] == '[' && NoSpace(Artifacts[i])
    ensures forall i, k :: 0 <= i < |Artifacts| && 0 < k < |Artifacts[i]| ==> Artifacts[i][k] != '['
    ensures forall i, j :: 0 <= i < |Artifacts| && 0 <= j < |Artifacts| && i != j ==> Artifacts[i][1] != Artifacts[j][1]
  {
  }

  /** No marker occurs in a text without `[`. */
  lemma NoBracketNoArtifact(t: string, n: nat)
    requires n < |Artifacts| && forall k :: 0 <= k < |t| ==> t[k] != '['
    ensures !Contains(t, Artifacts[n])
  {
    ArtifactShapes();
  }

  /** Another marker does not occur in a text that opens with marker `i` and has
      no further `[`. */
  lemma OtherArtifactAbsent(i: nat, n: nat, tail: string)
    requires i < |Artifacts| && n < |Artifacts| && i != n
    requires forall k :: 0 <= k < |tail| ==> tail[k] != '['
    ensures !Contains(Artifacts[i] + tail, Artifacts[n])
  {
    ArtifactShapes();
  }

  /** Removing the markers from `n` on from a text that opens with marker `i`
      (`n <= i`) and has no further `[` leaves the rest of the text. */
  lemma {:induction false} RemoveArtifactsOfLeading(i: nat, n: nat, tail: string)
    requires n <= i < |Artifacts|
    requires forall k :: 0 <= k < |tail| ==> tail[k] != '['
    ensures RemoveArtifacts(Artifacts[i] + tail, Artifacts[n..]) == tail
    decreases i - n
  {
    ArtifactsNonEmpty();
    var arts := Artifacts[n..];
    assert arts[0] == Artifacts[n] && arts[1..] == Artifacts[n + 1..];
    if n < i {
      OtherArtifactAbsent(i, n, tail);
      RemoveArtifactsOfLeading(i, n + 1, tail);
    } else {
      ReplaceAllFirst([], Artifacts[i], "", tail);
      assert [] + Artifacts[i] + tail == Artifacts[i] + tail;
      NoBracketNoArtifact(tail, i);
      assert ReplaceAll(Artifacts[i] + tail, Artifacts[i], "") == tail;
      forall j | 0 <= j < |arts[1..]| ensures !Contains(tail, arts[1..][j]) {
        NoBracketNoArtifact(tail, n + 1 + j);
      }
    }
  }

  /** An output that opens with a marker followed by speech without markers
      gives that speech, stripped; a marker with only blanks after it gives
      nothing. */
  lemma LeadingArtifactRemoved(i: nat, speech: string)
    requires i < |Artifacts|
    requires forall k :: 0 <= k < |speech| ==> speech[k] != '['
    requires speech == [] || !IsSpace(speech[|speech| - 1])
    ensures CleanOutput(0, Artifacts[i] + speech) == if AllSpace(speech) then None else Some(Strip(speech))
  {
    ArtifactShapes();
    ArtifactsNonEmpty();
    StripAroundWord([], Artifacts[i], speech);
    assert [] + Artifacts[i] + speech == Artifacts[i] + speech;
    assert StripRight(speech) == speech;
    RemoveArtifactsOfLeading(i, 0, speech);
    assert Artifacts[0..] == Artifacts;
  }

  /** `_process_audio_chunk(audio_data)`: the WAVE file is written (a packing
      error is caught and gives nothing) and handed to the program; its output is
      cleaned. */
  function ProcessAudioChunk(sampleRate: int, chunk: seq<byte>, run: seq<byte> -> (int, string)): (r: Option<string>)
    ensures !Wav.Packable(sampleRate, |chunk|) ==> r.None?
    ensures Wav.Packable(sampleRate, |chunk|) ==>
              r == CleanOutput(run(Wav.WriteWav(sampleRate, chunk).value).0, run(Wav.WriteWav(sampleRate, chunk).value).1)
  {
    match Wav.WriteWav(sampleRate, chunk)
    case None => None
    case Some(file) =>
      var (code, out) := run(file);
      CleanOutput(code, out)
  }

  /** `_handle_transcription(text)`: a non-empty text becomes one transcription
      frame from `"user"`, pushed downstream. */
  function HandleTranscription(text: string, now: real): (r: seq<Push>)
    ensures text == [] ==> r == []
    ensures text != [] ==> r == [Push(TranscriptionFrame(text, "user", now), Downstream)]
  {
    if text == [] then [] else [Push(TranscriptionFrame(text, "user", now), Downstream)]
  }

  /** What a frame did: the buffer afterwards, the pieces cut off it, the pieces
      queued, the frames pushed, and whether `np.frombuffer` raised. */
  datatype Outcome = Outcome(buffer: seq<byte>, cut: seq<seq<byte>>, queued: seq<seq<byte>>, pushed: seq<Push>, raised: bool)

  predicate Loud(chunk: seq<byte>) {
    Pcm.Peak(chunk) > SpeechThreshold
  }

  /** `process_frame(frame, direction)` after the base class has seen the frame.
      An audio frame's bytes are appended first; a frame with an odd number of
      bytes then makes `np.frombuffer` raise, so nothing is cut or pushed. */
  function ProcessFrame(buffer: seq<byte>, f: Frame, dir: Direction, sampleRate: int): (r: Outcome)
    requires sampleRate > 0
    ensures !IsAudioFrame(f) ==> r == Outcome(buffer, [], [], [Push(f, dir)], false)
    ensures IsAudioFrame(f) && |f.audio| % 2 == 1 ==> r == Outcome(buffer + f.audio, [], [], [], true)
    ensures IsAudioFrame(f) && |f.audio| % 2 == 0 ==>
              && !r.raised && r.pushed == [Push(f, dir)]
              && Flatten(r.cut) + r.buffer == buffer + f.audio
              && |r.buffer| < ChunkSize(sampleRate)
              && (forall i :: 0 <= i < |r.cut| ==> |r.cut[i]| == ChunkSize(sampleRate))
              && r.queued == Filter(r.cut, Loud)
  {
    if !IsAudioFrame(f) then Outcome(buffer, [], [], [Push(f, dir)], false)
    else
      var extended := buffer + f.audio;
      if |f.audio| % 2 == 1 then Outcome(extended, [], [], [], true)
      else
        var (cut, rest) := Chunking.Cut(extended, ChunkSize(sampleRate));
        Outcome(rest, cut, Filter(cut, Loud), [Push(f, dir)], false)
  }

  /** Every queued piece is a full second and loud, and a loud piece that was
      cut is queued. */
  lemma QueuedIffLoud(buffer: seq<byte>, f: Frame, dir: Direction, sampleRate: int, c: seq<byte>)
    requires sampleRate > 0 && IsAudioFrame(f) && |f.audio| % 2 == 0
    requires c in ProcessFrame(buffer, f, dir, sampleRate).cut
    ensures c in ProcessFrame(buffer, f, dir, sampleRate).queued <==> Loud(c)
  {
    var r := ProcessFrame(buffer, f, dir, sampleRate);
    var i :| 0 <= i < |r.cut| && r.cut[i] == c;
    if c in r.queued {
      var j :| 0 <= j < |r.queued| && r.queued[j] == c;
    }
  }

  lemma EvenSum(x: nat, y: nat)
    requires x % 2 == 0 && y % 2 == 0
    ensures (x + y) % 2 == 0
  {
  }

  /** How the audio is split into frames does not matter: two frames in a row
      leave the buffer and queue the pieces that one frame with both frames'
      audio would. */
  lemma {:induction false} TwoFramesAsOne(buffer: seq<byte>, a: seq<byte>, b: seq<byte>, dir: Direction, sampleRate: int)
    requires sampleRate > 0 && |a| % 2 == 0 && |b| % 2 == 0
    ensures var r1 := ProcessFrame(buffer, AudioRawFrame(a, sampleRate, 1), dir, sampleRate);
            var r2 := ProcessFrame(r1.buffer, AudioRawFrame(b, sampleRate, 1), dir, sampleRate);
            var r := ProcessFrame(buffer, AudioRawFrame(a + b, sampleRate, 1), dir, sampleRate);
            r.buffer == r2.buffer && r.cut == r1.cut + r2.cut && r.queued == r1.queued + r2.queued
  {
    var size := ChunkSize(sampleRate);
    var c1 := Chunking.Cut(buffer + a, size);
    var c2 := Chunking.Cut(c1.1 + b, size);
    Chunking.CutConcat(buffer + a, b, size);
    assert buffer + (a + b) == (buffer + a) + b;
    AudioFrameCuts(buffer, a, dir, sampleRate);
    AudioFrameCuts(c1.1, b, dir, sampleRate);
    EvenSum(|a|, |b|);
    AudioFrameCuts(buffer, a + b, dir, sampleRate);
    FilterConcat(c1.0, c2.0, Loud);
  }

  /** An even-length audio frame cuts the buffer with its audio appended. */
  lemma AudioFrameCuts(buffer: seq<byte>, a: seq<byte>, dir: Direction, sampleRate: int)
    requires sampleRate > 0 && |a| % 2 == 0
    ensures var c := Chunking.Cut(buffer + a, ChunkSize(sampleRate));
            ProcessFrame(buffer, AudioRawFrame(a, sampleRate, 1), dir, sampleRate)
            == Outcome(c.1, c.0, Filter(c.0, Loud), [Push(AudioRawFrame(a, sampleRate, 1), dir)], false)
  {
  }

  /** The buffer always stays shorter than one piece. */
  lemma BufferStaysShort(buffer: seq<byte>, f: Frame, dir: Direction, sampleRate: int)
    requires sampleRate > 0 && |buffer| < ChunkSize(sampleRate)
    requires !IsAudioFrame(f) || |f.audio| % 2 == 0
    ensures |ProcessFrame(buffer, f, dir, sampleRate).buffer| < ChunkSize(sampleRate)
  {
  }
}
