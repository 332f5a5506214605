/** The WhisperLive speech-to-text service (`WhisperLiveSTTService`): audio frames
    are streamed to the server in 8192-byte pieces (a quarter second of 16 kHz
    16-bit mono), loud pieces scaled down first; JSON messages from the server
    are dispatched by their keys into transcription frames.

    The socket is reduced to whether it is open; the scaling of a loud piece
    (numpy arithmetic) is the parameter `normalize`; the wall clock is `now`.
    A message is a decoded JSON object. */
module WhisperLive {
  import opened Common
  import opened Frames
  import Chunking
  import Pcm

  const ChunkSize: nat := 8192

  /** Peak amplitude above which a piece is scaled before sending. */
  const NormalizeAbove: int := 16384

  const CompleteMarker: string := "transcription_complete"

  // ---------------------------------------------------------------------------
  // Server messages
  // ---------------------------------------------------------------------------

  /** `_handle_transcription(text, is_final)`: nothing for an empty text;
      otherwise a transcription frame from `"user"`, followed by the
      `transcription_complete` marker when final. */
  function HandleTranscription(text: string, isFinal: bool, now: real): (r: seq<Push>)
    ensures text == [] ==> r == []
    ensures text != [] ==> |r| == (if isFinal then 2 else 1)
    ensures text != [] ==> r[0] == Push(TranscriptionFrame(text, "user", now), Downstream)
    ensures text != [] && isFinal ==> r[1] == Push(SystemFrame(CompleteMarker, None), Downstream)
  {
    if text == [] then []
    else [Push(TranscriptionFrame(text, "user", now), Downstream)]
         + (if isFinal then [Push(SystemFrame(CompleteMarker, None), Downstream)] else [])
  }

  /** What a message did: the frames pushed, and whether handling raised
      part-way (the frames pushed before the error stay pushed). */
  datatype Outcome = Outcome(pushed: seq<Push>, raised: bool)

  /** `dict.get(key, default)`. */
  function GetOr(d: map<string, Value>, key: string, default: Value): Value {
    if key in d then d[key] else default
  }

  /** The client uid as the value a message's `"uid"` is compared with;
      `None` before connecting. */
  function UidValue(clientUid: Option<string>): Value {
    if clientUid.Some? then Str(clientUid.value) else Null
  }

  /** The items a `for` loop visits in a `"segments"` value, or `None` when the
      loop (or the `len` before it) raises at once: lists give their items;
      an empty dict or string has nothing to visit; other values either are not
      iterable or yield keys and characters, which have no `.get`. */
  function SegmentItems(v: Value): Option<seq<Value>> {
    match v
    case List(items) => Some(items)
    case Dict(entries) => if entries == map[] then Some([]) else None
    case Str(s) => if s == [] then Some([]) else None
    case _ => None
  }

  /** The text of one segment, `segment.get("text", "").strip()`, or `None` when
      the segment is not a dict or its text not a string. */
  function SegmentText(seg: Value): Option<string> {
    if !seg.Dict? then None
    else
      var t := GetOr(seg.entries, "text", Str(""));
      if t.Str? then Some(Strip(t.s)) else None
  }

  /** The segment loop: one final transcription per segment with some text, in
      order, stopping at the first segment that raises. */
  function SegmentFrames(segs: seq<Value>, now: real): (r: Outcome)
    decreases |segs|
  {
    if segs == [] then Outcome([], false)
    else
      match SegmentText(segs[0])
      case None => Outcome([], true)
      case Some(t) =>
        var rest := SegmentFrames(segs[1..], now);
        Outcome(HandleTranscription(t, true, now) + rest.pushed, rest.raised)
  }

  /** The texts the segments carry, for well-formed segments. */
  function SegmentTexts(segs: seq<Value>): seq<string>
    requires forall i :: 0 <= i < |segs| ==> SegmentText(segs[i]).Some?
  {
    if segs == [] then [] else
      var t := SegmentText(segs[0]).value;
      (if t == [] then [] else [t]) + SegmentTexts(segs[1..])
  }

  /** The frames a final transcription of each text produces, in order. */
  function FinalFrames(texts: seq<string>, now: real): seq<Push> {
    if texts == [] then []
    else [Push(TranscriptionFrame(texts[0], "user", now), Downstream), Push(SystemFrame(CompleteMarker, None), Downstream)]
         + FinalFrames(texts[1..], now)
  }

  /** Well-formed segments produce, for each segment whose stripped text is not
      empty and in segment order, a transcription followed by the completion
      marker, and nothing raises. */
  lemma {:induction false} SegmentsInOrder(segs: seq<Value>, now: real)
    requires forall i :: 0 <= i < |segs| ==> SegmentText(segs[i]).Some?
    ensures SegmentFrames(segs, now) == Outcome(FinalFrames(SegmentTexts(segs), now), false)
    decreases |segs|
  {
    if segs != [] {
      assert forall i :: 0 <= i < |segs[1..]| ==> SegmentText(segs[1..][i]).Some? by {
        forall i | 0 <= i < |segs[1..]| ensures SegmentText(segs[1..][i]).Some? {
          assert segs[1..][i] == segs[i + 1];
        }
      }
      SegmentsInOrder(segs[1..], now);
      var t := SegmentText(segs[0]).value;
      var later := SegmentTexts(segs[1..]);
      var rest := SegmentFrames(segs[1..], now);
      assert rest == Outcome(FinalFrames(later, now), false);
      assert SegmentFrames(segs, now) == Outcome(HandleTranscription(t, true, now) + rest.pushed, false);
      if t != [] {
        assert SegmentTexts(segs) == [t] + later;
        FinalFramesCons(t, later, now);
      } else {
        assert SegmentTexts(segs) == [] + later;
        assert [] + later == later;
      }
    }
  }

  lemma FinalFramesCons(t: string, later: seq<string>, now: real)
    requires t != []
    ensures FinalFrames([t] + later, now) == HandleTranscription(t, true, now) + FinalFrames(later, now)
  {
    assert ([t] + later)[1..] == later;
  }

  /** A `"type"` message's text: a non-empty string is transcribed, a falsy value
      is ignored; any other value cannot be the text of a frame here. */
  function TypedText(text: Value, isFinal: bool, now: real): (r: Outcome)
    ensures !Truthy(text) ==> r == Outcome([], false)
    ensures text.Str? && text.s != [] ==> r == Outcome(HandleTranscription(text.s, isFinal, now), false)
  {
    if !Truthy(text) then Outcome([], false)
    else if text.Str? then Outcome(HandleTranscription(text.s, isFinal, now), false)
    else Outcome([], true)
  }

  /** `_handle_message(data)`. */
  function HandleMessage(data: map<string, Value>, clientUid: Option<string>, now: real): (r: Outcome)
    ensures "uid" in data && data["uid"] != UidValue(clientUid) ==> r == Outcome([], false)
    ensures !("uid" in data && data["uid"] != UidValue(clientUid)) && "segments" in data ==>
              r == (match SegmentItems(data["segments"])
                    case None => Outcome([], true)
                    case Some(items) => SegmentFrames(items, now))
    ensures !("uid" in data && data["uid"] != UidValue(clientUid)) && "segments" !in data && "type" in data ==>
              && (data["type"] == Str("transcript") ==> r == TypedText(GetOr(data, "text", Str("")), true, now))
              && (data["type"] == Str("partial") ==> r == TypedText(GetOr(data, "text", Str("")), false, now))
              && (data["type"] != Str("transcript") && data["type"] != Str("partial") ==> r == Outcome([], false))
    ensures "segments" !in data && "type" !in data ==> r == Outcome([], false)
  {
    if "uid" in data && data["uid"] != UidValue(clientUid) then Outcome([], false)
    else if "segments" in data then
      match SegmentItems(data["segments"])
      case None => Outcome([], true)
      case Some(items) => SegmentFrames(items, now)
    else if "type" in data then
      var msgType := GetOr(data, "type", Str(""));
      if msgType == Str("transcript") then TypedText(GetOr(data, "text", Str("")), true, now)
      else if msgType == Str("partial") then TypedText(GetOr(data, "text", Str("")), false, now)
      else Outcome([], false)
    else Outcome([], false)
  }

  /** A partial transcription for this client is pushed alone, without the
      completion marker. */
  lemma PartialIsNotFinal(text: string, now: real, clientUid: Option<string>)
    requires text != []
    ensures var r := HandleMessage(map["uid" := UidValue(clientUid), "type" := Str("partial"), "text" := Str(text)], clientUid, now);
            r == Outcome([Push(TranscriptionFrame(text, "user", now), Downstream)], false)
  {
  }

  /** A message for another client produces nothing, whatever else it holds. */
  lemma ForeignMessageIgnored(data: map<string, Value>, other: string, clientUid: Option<string>, now: real)
    requires Str(other) != UidValue(clientUid)
    ensures HandleMessage(data["uid" := Str(other)], clientUid, now) == Outcome([], false)
  {
  }

  // ---------------------------------------------------------------------------
  // Audio streaming
  // ---------------------------------------------------------------------------

  /** The bytes sent for a piece: scaled down when some sample's magnitude is
      above 16384, the piece itself otherwise. This gates on the true peak. */
  function Prepare(chunk: seq<byte>, normalize: seq<byte> -> seq<byte>): (r: seq<byte>)
    ensures (exists k :: 0 <= k < Pcm.SampleCount(chunk) && Pcm.Abs(Pcm.SampleAt(chunk, k)) > NormalizeAbove) ==>
              r == normalize(chunk)
    ensures (forall k :: 0 <= k < Pcm.SampleCount(chunk) ==> Pcm.Abs(Pcm.SampleAt(chunk, k)) <= NormalizeAbove) ==>
              r == chunk
  {
    if Pcm.Peak(chunk) > NormalizeAbove then normalize(chunk) else chunk
  }

  /** The piece preparation as written, gating on the peak with the 16-bit
      wrap-around of `np.abs(-32768)`. */
  function PrepareAsWritten(chunk: seq<byte>, normalize: seq<byte> -> seq<byte>): seq<byte> {
    if Pcm.PeakAsWritten(chunk) > NormalizeAbove then normalize(chunk) else chunk
  }

  /** The discrepancy: a piece of full-scale negative samples is sent unscaled
      as written, although its true peak is 32768. */
  lemma FullScaleNegativeSentUnscaled(chunk: seq<byte>, normalize: seq<byte> -> seq<byte>)
    requires |chunk| >= 2 && Pcm.AllMostNegative(chunk)
    ensures PrepareAsWritten(chunk, normalize) == chunk
    ensures Prepare(chunk, normalize) == normalize(chunk)
  {
    Pcm.FullScaleNegativeLooksQuiet(chunk);
  }

  /** Pieces without a -32768 sample are prepared alike either way. */
  lemma PrepareAgreesAwayFromMostNegative(chunk: seq<byte>, normalize: seq<byte> -> seq<byte>)
    requires forall k :: 0 <= k < Pcm.SampleCount(chunk) ==> Pcm.SampleAt(chunk, k) != -32768
    ensures PrepareAsWritten(chunk, normalize) == Prepare(chunk, normalize)
  {
    Pcm.PeakAsWrittenAgrees(chunk);
  }

  /** What an audio frame did: the buffer afterwards, the pieces cut, the bytes
      sent for them, the frames pushed, and whether `np.frombuffer` raised. */
  datatype FrameOutcome = FrameOutcome(buffer: seq<byte>, cut: seq<seq<byte>>, sent: seq<seq<byte>>, pushed: seq<Push>, raised: bool)

  /** `process_frame(frame, direction)` after the base class has seen the frame.
      An audio frame with an odd number of bytes makes `np.frombuffer` raise
      before anything is buffered. Pieces are sent only while the socket is open;
      every frame otherwise goes on downstream. */
  function ProcessFrame(buffer: seq<byte>, f: Frame, dir: Direction, open: bool,
                        normalize: seq<byte> -> seq<byte>): (r: FrameOutcome)
    ensures !IsAudioFrame(f) ==> r == FrameOutcome(buffer, [], [], [Push(f, dir)], false)
    ensures IsAudioFrame(f) && |f.audio| % 2 == 1 ==> r == FrameOutcome(buffer, [], [], [], true)
    ensures IsAudioFrame(f) && |f.audio| % 2 == 0 ==>
              && !r.raised && r.pushed == [Push(f, dir)]
              && Flatten(r.cut) + r.buffer == buffer + f.audio
              && |r.buffer| < ChunkSize
              && (forall i :: 0 <= i < |r.cut| ==> |r.cut[i]| == ChunkSize)
              && (open ==> |r.sent| == |r.cut|)
              && (!open ==> r.sent == [])
              && (open ==> forall i :: 0 <= i < |r.cut| ==> r.sent[i] == Prepare(r.cut[i], normalize))
  {
    if !IsAudioFrame(f) then FrameOutcome(buffer, [], [], [Push(f, dir)], false)
    else if |f.audio| % 2 == 1 then FrameOutcome(buffer, [], [], [], true)
    else
      var (cut, rest) := Chunking.Cut(buffer + f.audio, ChunkSize);
      var sent := if open then seq(|cut|, i requires 0 <= i < |cut| => Prepare(cut[i], normalize)) else [];
      FrameOutcome(rest, cut, sent, [Push(f, dir)], false)
  }

  /** Quiet audio reaches the server byte for byte: when no cut piece peaks
      above 16384 and the socket is open, the bytes sent are exactly the bytes
      buffered, whatever `normalize` does. */
  lemma QuietAudioUnchanged(buffer: seq<byte>, f: Frame, dir: Direction, normalize: seq<byte> -> seq<byte>)
    requires IsAudioFrame(f) && |f.audio| % 2 == 0
    requires var r := ProcessFrame(buffer, f, dir, true, normalize);
             forall i :: 0 <= i < |r.cut| ==> Pcm.Peak(r.cut[i]) <= NormalizeAbove
    ensures var r := ProcessFrame(buffer, f, dir, true, normalize);
            Flatten(r.sent) + r.buffer == buffer + f.audio
  {
    var r := ProcessFrame(buffer, f, dir, true, normalize);
    assert r.sent == r.cut;
  }
}
