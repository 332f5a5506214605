/** The voice recognition example module (`VoiceRecognitionModule`): a mock
    speaker tracker that tags transcriptions with the current speaker, and a
    registry of known voices by sample count. */
module VoiceRecognition {
  import opened Common

  /** The only speaker the mock identifier ever reports. */
  const MockSpeaker: string := "user_1"

  datatype Tracker = Tracker(knownVoices: map<string, map<string, Value>>, currentSpeaker: Option<string>)

  function Init(): (t: Tracker)
    ensures t.knownVoices == map[] && t.currentSpeaker.None?
  {
    Tracker(map[], None)
  }

  /** `_mock_identify_speaker(audio)`: the same identifier for any audio. */
  function IdentifySpeaker(audio: Value): (id: string)
    ensures id == MockSpeaker
  {
    MockSpeaker
  }

  /** What an event did: the tracker, the event data as the handler left it
      (transcriptions are tagged in place), or the error it raised. */
  datatype EventOutcome = EventOutcome(tracker: Tracker, data: Result<Value, string>)

  /** `on_event(event_type, data)`. */
  function OnEvent(t: Tracker, eventType: string, data: Value): (r: EventOutcome)
    ensures eventType == "audio_processed" ==>
              r.tracker == t.(currentSpeaker := Some(MockSpeaker)) && r.data == Ok(data)
    ensures eventType != "audio_processed" ==> r.tracker == t
    ensures eventType == "transcription_complete" && t.currentSpeaker.Some? && t.currentSpeaker.value != "" && data.Dict? ==>
              r.data == Ok(Dict(data.entries["speaker_id" := Str(t.currentSpeaker.value)]))
    ensures eventType == "transcription_complete" && t.currentSpeaker.Some? && t.currentSpeaker.value != "" ==>
              (r.data.Err? <==> !data.Dict?)
    ensures eventType != "transcription_complete" || t.currentSpeaker.None? || t.currentSpeaker.value == "" ==>
              r.data == Ok(data)
  {
    if eventType == "audio_processed" then
      var id := IdentifySpeaker(data);
      EventOutcome(if Some(id) != t.currentSpeaker then t.(currentSpeaker := Some(id)) else t, Ok(data))
    else if eventType == "transcription_complete" && t.currentSpeaker.Some? && t.currentSpeaker.value != "" then
      EventOutcome(t, TagSpeaker(data, t.currentSpeaker.value))
    else EventOutcome(t, Ok(data))
  }

  /** `data["speaker_id"] = speaker`: a dictionary gains the key; a list cannot be
      indexed by a string and other values do not support item assignment, so
      both raise `TypeError`. */
  function TagSpeaker(data: Value, speaker: string): (r: Result<Value, string>)
    ensures data.Dict? ==> r == Ok(Dict(data.entries["speaker_id" := Str(speaker)]))
    ensures !data.Dict? ==> r.Err?
  {
    if data.Dict? then Ok(Dict(data.entries["speaker_id" := Str(speaker)])) else Err("TypeError")
  }

  /** After any audio the transcriptions that follow carry the mock speaker. */
  lemma AudioThenTranscriptionTagged(t: Tracker, audio: Value, data: map<string, Value>)
    ensures var t1 := OnEvent(t, "audio_processed", audio).tracker;
            var r := OnEvent(t1, "transcription_complete", Dict(data));
            r.data == Ok(Dict(data["speaker_id" := Str(MockSpeaker)])) && r.tracker == t1
  {
  }

  /** Before any audio nothing is tagged. */
  lemma NoSpeakerNoTag(data: Value)
    ensures OnEvent(Init(), "transcription_complete", data) == EventOutcome(Init(), Ok(data))
  {
  }

  /** `register_voice(name, samples)`: the sample count under the name, replacing
      any earlier entry; other voices stay. */
  function RegisterVoice<S>(t: Tracker, name: string, samples: seq<S>): (r: Tracker)
    ensures name in r.knownVoices && r.knownVoices[name] == map["samples" := Int(|samples|)]
    ensures forall n :: n != name ==>
              (n in r.knownVoices <==> n in t.knownVoices) && (n in t.knownVoices ==> r.knownVoices[n] == t.knownVoices[n])
    ensures r.currentSpeaker == t.currentSpeaker
  {
    t.(knownVoices := t.knownVoices[name := map["samples" := Int(|samples|)]])
  }

  /** `on_event` as written: the file never binds `logger`, so announcing a new
      speaker raises `NameError` after the speaker was stored. The state change
      is that of `OnEvent`; the second component is the error. */
  function OnEventAsWritten(t: Tracker, eventType: string, data: Value): (r: (EventOutcome, Option<string>))
    ensures r.0 == OnEvent(t, eventType, data)
    ensures r.1.Some? <==> eventType == "audio_processed" && t.currentSpeaker != Some(MockSpeaker)
    ensures r.1.Some? ==> r.1.value == "NameError"
  {
    var o := OnEvent(t, eventType, data);
    if eventType == "audio_processed" && Some(IdentifySpeaker(data)) != t.currentSpeaker then (o, Some("NameError"))
    else (o, None)
  }

  /** `register_voice` as written: the voice is stored, then the unbound
      `logger` raises `NameError`, on every call. */
  function RegisterVoiceAsWritten<S>(t: Tracker, name: string, samples: seq<S>): (r: (Tracker, string))
    ensures r.0 == RegisterVoice(t, name, samples) && r.1 == "NameError"
  {
    (RegisterVoice(t, name, samples), "NameError")
  }

  /** The first audio event of a fresh module raises, though the speaker is
      already set; the corrected `OnEvent` completes with the same state. */
  lemma FirstAudioRaisesNameError(audio: Value)
    ensures var r := OnEventAsWritten(Init(), "audio_processed", audio);
            && r.1 == Some("NameError")
            && r.0.tracker.currentSpeaker == Some(MockSpeaker)
            && r.0.data == Ok(audio)
  {
  }
}
