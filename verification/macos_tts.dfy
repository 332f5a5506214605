/** The macOS text-to-speech services: `MacOSTTSService`, which lists the system
    voices with `say -v ?`, falls back to a fixed voice list and to "Samantha",
    and streams the synthesised audio in 100 ms pieces; and
    `MacOSPyTTSx3Service`, which streams in 4096-byte pieces.

    The `say`, `ffmpeg` and pyttsx3 programs are reduced to their results: the
    exit status and output of the voice listing, whether synthesis succeeded,
    and the audio bytes loaded. The volume scaling of numpy is the parameter
    `scale`. */
module MacTts {
  import opened Common
  import opened Frames
  import Chunking

  const DefaultVoice: string := "Samantha"

  /** The voices assumed when the system cannot be asked. */
  const FallbackVoices: seq<string> := ["Samantha", "Alex", "Victoria", "Daniel", "Karen", "Moira", "Tessa"]

  const PyttsxChunkSize: nat := 4096

  // ---------------------------------------------------------------------------
  // Voices
  // ---------------------------------------------------------------------------

  /** The outcome of running `say -v ?`: its exit status and output, or an
      exception (the program is missing). */
  datatype Listing = Exited(code: int, stdout: string) | Failed

  /** Whether a line has some non-whitespace character. */
  predicate NonBlank(line: string) {
    !AllSpace(line)
  }

  /** The first whitespace-separated token of each non-blank line, in order. */
  function FirstWords(lines: seq<string>): (r: seq<string>)
    ensures |r| == |Filter(lines, NonBlank)|
    ensures forall i :: 0 <= i < |r| ==> r[i] != [] && NoSpace(r[i])
    ensures forall i :: 0 <= i < |r| ==> r[i] == Words(Filter(lines, NonBlank)[i])[0]
    decreases |lines|
  {
    if lines == [] then []
    else if AllSpace(lines[0]) then FirstWords(lines[1..])
    else
      var rest := FirstWords(lines[1..]);
      assert Filter(lines, NonBlank) == [lines[0]] + Filter(lines[1..], NonBlank);
      [Words(lines[0])[0]] + rest
  }

  /** `_get_available_voices()`: the parsed listing when `say` exits with 0 (one
      space-free name per non-blank line of the stripped output), the fallback
      list otherwise. */
  function AvailableVoices(l: Listing): (r: seq<string>)
    ensures l.Exited? && l.code == 0 ==>
              var lines := SplitOn(Strip(l.stdout), '\n');
              && |r| == |Filter(lines, NonBlank)|
              && forall i :: 0 <= i < |r| ==> r[i] != [] && NoSpace(r[i]) && r[i] == Words(Filter(lines, NonBlank)[i])[0]
    ensures !(l.Exited? && l.code == 0) ==> r == FallbackVoices
  {
    if l.Exited? && l.code == 0 then FirstWords(SplitOn(Strip(l.stdout), '\n')) else FallbackVoices
  }

  /** The voice `__init__` settles on: the requested one when it is available,
      "Samantha" otherwise. */
  function ChooseVoice(requested: string, available: seq<string>): (r: string)
    ensures r == requested <==> requested in available || requested == DefaultVoice
    ensures r != requested ==> r == DefaultVoice
  {
    if requested in available then requested else DefaultVoice
  }

  /** When the listing cannot be had, exactly the seven fallback voices are
      accepted as requested. */
  lemma FallbackAcceptsItsVoices(requested: string)
    ensures ChooseVoice(requested, AvailableVoices(Failed)) == requested <==> requested in FallbackVoices
  {
  }

  /** Splitting text joined from newline-free pieces gives the pieces back. */
  lemma {:induction false} SplitOnJoin(parts: seq<string>, sep: char)
    requires |parts| >= 1
    requires forall i :: 0 <= i < |parts| ==> sep !in parts[i]
    ensures SplitOn(Join(parts, sep), sep) == parts
    decreases |parts|
  {
    if |parts| > 1 {
      var rest := parts[1..];
      assert forall i :: 0 <= i < |rest| ==> sep !in rest[i] by {
        forall i | 0 <= i < |rest| ensures sep !in rest[i] {
          assert rest[i] == parts[i + 1];
        }
      }
      SplitOnJoin(rest, sep);
      var tail := Join(rest, sep);
      assert Join(parts, sep) == parts[0] + [sep] + tail;
      SplitFirst(parts[0], sep, tail);
      assert SplitOn(Join(parts, sep), sep) == [parts[0]] + rest;
      assert [parts[0]] + rest == parts;
    } else {
      assert Join(parts, sep) == parts[0];
    }
  }

  /** Splitting stops at the first separator. */
  lemma SplitFirst(a: string, sep: char, b: string)
    requires sep !in a
    ensures SplitOn(a + [sep] + b, sep) == [a] + SplitOn(b, sep)
  {
    var s := a + [sep] + b;
    assert s[|a|] == sep;
    var k := IndexOfChar(s, sep);
    assert k == |a|;
    assert s[..k] == a;
    assert s[k + 1..] == b;
  }

  /** The name column of each listing line, for lines that start with the name
      and whose rest is empty or starts with whitespace. */
  predicate ListingLine(name: string, line: string) {
    && name != [] && NoSpace(name)
    && |name| <= |line| && line[..|name|] == name
    && (|line| == |name| || IsSpace(line[|name|]))
    && '\n' !in line
  }

  lemma {:induction false} FirstWordsOfListing(names: seq<string>, lines: seq<string>)
    requires |names| == |lines|
    requires forall i :: 0 <= i < |lines| ==> ListingLine(names[i], lines[i])
    ensures FirstWords(lines) == names
    decreases |lines|
  {
    if lines != [] {
      var line := lines[0];
      assert ListingLine(names[0], line);
      var name := names[0];
      assert line == name + line[|name|..];
      FirstWordOf(name, line[|name|..]);
      FirstWordsOfListing(names[1..], lines[1..]);
    }
  }

  /** A listing whose lines each begin with a voice name parses to those names,
      in order; the last line must not end in whitespace, which the strip would
      remove. */
  lemma ListingParses(names: seq<string>, lines: seq<string>)
    requires |names| == |lines| >= 1
    requires forall i :: 0 <= i < |lines| ==> ListingLine(names[i], lines[i])
    requires EndsTrimmed(lines[|lines| - 1])
    ensures AvailableVoices(Exited(0, Join(lines, '\n'))) == names
  {
    assert ListingLine(names[0], lines[0]);
    assert forall i :: 0 <= i < |lines| ==> '\n' !in lines[i] by {
      forall i | 0 <= i < |lines| ensures '\n' !in lines[i] {
        assert ListingLine(names[i], lines[i]);
      }
    }
    assert lines[0][0] == names[0][0];
    var s := Join(lines, '\n');
    assert SplitOn(Strip(s), '\n') == lines by {
      ListingLines(lines);
    }
    assert FirstWords(lines) == names by {
      FirstWordsOfListing(names, lines);
    }
    SuccessfulListing(s);
  }

  lemma SuccessfulListing(s: string)
    ensures AvailableVoices(Exited(0, s)) == FirstWords(SplitOn(Strip(s), '\n'))
  {
  }

  /** The lines of a listing without outer whitespace are the lines joined. */
  lemma ListingLines(lines: seq<string>)
    requires |lines| >= 1 && lines[0] != [] && !IsSpace(lines[0][0])
    requires EndsTrimmed(lines[|lines| - 1])
    requires forall i :: 0 <= i < |lines| ==> '\n' !in lines[i]
    ensures SplitOn(Strip(Join(lines, '\n')), '\n') == lines
  {
    var s := Join(lines, '\n');
    JoinFirst(lines, '\n');
    JoinLast(lines, '\n');
    TrimmedStrip(s);
    SplitOnJoin(lines, '\n');
  }

  /** The text is not empty and does not end in whitespace. */
  predicate EndsTrimmed(line: string) {
    line != [] && !IsSpace(line[|line| - 1])
  }

  /** A joined text starts with the first piece. */
  lemma JoinFirst(parts: seq<string>, sep: char)
    requires |parts| >= 1 && parts[0] != []
    ensures Join(parts, sep) != [] && Join(parts, sep)[0] == parts[0][0]
  {
  }

  /** A joined text ends with the last piece's last character. */
  lemma {:induction false} JoinLast(parts: seq<string>, sep: char)
    requires |parts| >= 1 && parts[|parts| - 1] != []
    ensures var s := Join(parts, sep);
            s != [] && s[|s| - 1] == parts[|parts| - 1][|parts[|parts| - 1]| - 1]
    decreases |parts|
  {
    if |parts| > 1 {
      assert parts[1..][|parts[1..]| - 1] == parts[|parts| - 1];
      JoinLast(parts[1..], sep);
    }
  }

  /** A line `first second  language` starts with the name column `first`. */
  lemma TwoWordLine(first: string, second: string, language: string)
    requires first != [] && second != [] && language != []
    requires NoSpace(first) && NoSpace(second) && NoSpace(language)
    ensures var line := first + " " + second + "  " + language;
            ListingLine(first, line) && EndsTrimmed(line)
  {
    var line := first + " " + second + "  " + language;
    assert line[..|first|] == first;
    assert line[|first|] == ' ';
    forall i | 0 <= i < |line| ensures line[i] != '\n' {
      if i < |first| {
        assert line[i] == first[i];
      } else if i == |first| {
      } else if i < |first| + 1 + |second| {
        assert line[i] == second[i - |first| - 1];
      } else if i < |first| + 3 + |second| {
      } else {
        assert line[i] == language[i - |first| - 3 - |second|];
      }
    }
    assert line[|line| - 1] == language[|language| - 1];
  }

  /** A voice whose name has two words, listed as `first second  language`,
      is recorded under its first word only, so asking for it by its full name
      falls back to "Samantha". */
  lemma MultiWordNameTruncated(first: string, second: string, language: string)
    requires first != [] && second != [] && language != []
    requires NoSpace(first) && NoSpace(second) && NoSpace(language)
    ensures var listing := first + " " + second + "  " + language;
            && AvailableVoices(Exited(0, listing)) == [first]
            && ChooseVoice(first + " " + second, AvailableVoices(Exited(0, listing))) == DefaultVoice
  {
    var line := first + " " + second + "  " + language;
    TwoWordLine(first, second, language);
    ListingParses([first], [line]);
    assert Join([line], '\n') == line;
    var full := first + " " + second;
    assert full != first by {
      assert |full| != |first|;
    }
  }

  // ---------------------------------------------------------------------------
  // Speech
  // ---------------------------------------------------------------------------

  /** `_apply_volume(audio_data)`: the audio itself at volume exactly 1.0;
      otherwise scaled by numpy. */
  function ApplyVolume(audio: seq<byte>, volume: real, scale: (seq<byte>, real) -> seq<byte>): (r: seq<byte>)
    ensures volume == 1.0 ==> r == audio
  {
    if volume == 1.0 then audio else scale(audio, volume)
  }

  /** `int(sample_rate * 0.1 * 2)`: 100 ms of 16-bit mono audio. */
  function ChunkSizeFor(sampleRate: nat): (r: nat)
    ensures r * 5 <= sampleRate < (r + 1) * 5
    ensures r > 0 <==> sampleRate >= 5
  {
    sampleRate / 5
  }

  /** The frames streamed for some audio: one output audio frame per piece. */
  function AudioFrames(audio: seq<byte>, size: nat, sampleRate: int): (r: seq<Frame>)
    requires size > 0
    ensures var pieces := Chunking.Pieces(audio, size);
            |r| == |pieces| && forall i :: 0 <= i < |r| ==> r[i] == TtsAudioRawFrame(pieces[i], sampleRate, 1)
  {
    var pieces := Chunking.Pieces(audio, size);
    seq(|pieces|, i requires 0 <= i < |pieces| => TtsAudioRawFrame(pieces[i], sampleRate, 1))
  }

  /** The audio of a list of audio frames, end to end. */
  function FramesAudio(fs: seq<Frame>): seq<byte>
    requires forall i :: 0 <= i < |fs| ==> fs[i].TtsAudioRawFrame?
  {
    if fs == [] then [] else fs[0].audio + FramesAudio(fs[1..])
  }

  /** The first frame streamed carries the first piece; the rest stream the
      remainder. */
  lemma AudioFramesCons(audio: seq<byte>, size: nat, sampleRate: int)
    requires size > 0 && audio != []
    ensures var n := Min(size, |audio|);
            AudioFrames(audio, size, sampleRate)
            == [TtsAudioRawFrame(audio[..n], sampleRate, 1)] + AudioFrames(audio[n..], size, sampleRate)
  {
    var n := Min(size, |audio|);
    var p := Chunking.Pieces(audio, size);
    var q := Chunking.Pieces(audio[n..], size);
    assert p == [audio[..n]] + q;
    var whole := AudioFrames(audio, size, sampleRate);
    var split := [TtsAudioRawFrame(audio[..n], sampleRate, 1)] + AudioFrames(audio[n..], size, sampleRate);
    assert |whole| == |split|;
    forall k | 0 <= k < |whole|
      ensures whole[k] == split[k]
    {
      if k > 0 {
        assert p[k] == q[k - 1];
      }
    }
  }

  /** The streamed frames carry the audio, piece by piece and in order. */
  lemma {:induction false} FramesCarryAudio(audio: seq<byte>, size: nat, sampleRate: int)
    requires size > 0
    ensures var fs := AudioFrames(audio, size, sampleRate);
            (forall i :: 0 <= i < |fs| ==> fs[i].TtsAudioRawFrame? && 0 < |fs[i].audio| <= size)
            && FramesAudio(fs) == audio
    decreases |audio|
  {
    var fs := AudioFrames(audio, size, sampleRate);
    if audio != [] {
      var n := Min(size, |audio|);
      FramesCarryAudio(audio[n..], size, sampleRate);
      AudioFramesCons(audio, size, sampleRate);
      var rest := AudioFrames(audio[n..], size, sampleRate);
      assert fs[1..] == rest;
      assert FramesAudio(fs) == audio[..n] + FramesAudio(rest);
      assert audio == audio[..n] + audio[n..];
    }
  }

  /** The result of synthesising to a file and loading it back. */
  datatype Synthesis = Synthesis(success: bool, loaded: Option<seq<byte>>)

  /** `MacOSTTSService.run_tts(text)`: nothing for blank text, a failed synthesis
      or no audio; otherwise the audio at the set volume in 100 ms pieces. */
  function RunTts(text: string, synth: Synthesis, volume: real, sampleRate: nat,
                  scale: (seq<byte>, real) -> seq<byte>): (r: seq<Frame>)
    requires ChunkSizeFor(sampleRate) > 0
    ensures AllSpace(text) || !synth.success || synth.loaded.None? || synth.loaded.value == [] ==> r == []
    ensures !AllSpace(text) && synth.success && synth.loaded.Some? && synth.loaded.value != [] ==>
              r == AudioFrames(ApplyVolume(synth.loaded.value, volume, scale), ChunkSizeFor(sampleRate), sampleRate)
  {
    if Strip(text) == [] then []
    else if !synth.success then []
    else if synth.loaded.None? || synth.loaded.value == [] then []
    else AudioFrames(ApplyVolume(synth.loaded.value, volume, scale), ChunkSizeFor(sampleRate), sampleRate)
  }

  /** At full volume the speech streamed is the synthesised audio itself. */
  lemma FullVolumeStreamsAudio(text: string, audio: seq<byte>, sampleRate: nat, scale: (seq<byte>, real) -> seq<byte>)
    requires ChunkSizeFor(sampleRate) > 0 && !AllSpace(text) && audio != []
    ensures var fs := RunTts(text, Synthesis(true, Some(audio)), 1.0, sampleRate, scale);
            (forall i :: 0 <= i < |fs| ==> fs[i].TtsAudioRawFrame?) && FramesAudio(fs) == audio
  {
    FramesCarryAudio(audio, ChunkSizeFor(sampleRate), sampleRate);
  }

  /** `MacOSPyTTSx3Service.run_tts(text)`: nothing for blank text, a missing
      file or empty audio; otherwise the file's bytes in 4096-byte pieces. */
  function RunPyttsx(text: string, file: Option<seq<byte>>, sampleRate: int): (r: seq<Frame>)
    ensures AllSpace(text) || file.None? || file.value == [] ==> r == []
    ensures !AllSpace(text) && file.Some? && file.value != [] ==> r == AudioFrames(file.value, PyttsxChunkSize, sampleRate)
  {
    if Strip(text) == [] then []
    else if file.None? || file.value == [] then []
    else AudioFrames(file.value, PyttsxChunkSize, sampleRate)
  }
}
