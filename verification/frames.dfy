/** The frames of the external pipeline runtime, as far as the components read them.

    The runtime's class hierarchy is outside the model; what matters here is which
    frames count as system frames (the named markers, and the start frame), which
    carry text (plain text, JSON text, transcriptions) and which carry audio. */
module Frames {
  import opened Common

  datatype Direction = Downstream | Upstream

  /** One entry of an LLM chat context: the `role` and `content` keys, when
      present. The content is usually text, but may be any JSON value (a list of
      content parts, say). */
  datatype ChatMessage = ChatMessage(role: Option<string>, content: Option<Value>)

  datatype Frame =
    | StartFrame
    | EndFrame
      /** A named system marker; `data` is `None` when the frame has no `data` attribute. */
    | SystemFrame(name: string, data: Option<map<string, Value>>)
    | TextFrame(text: string)
      /** A text frame whose text is the JSON rendering of `payload`. */
    | JsonTextFrame(payload: Value)
    | TranscriptionFrame(text: string, userId: string, timestamp: real)
      /** Raw input audio (`AudioRawFrame`, `InputAudioRawFrame`, `UserAudioRawFrame`). */
    | AudioRawFrame(audio: seq<byte>, sampleRate: int, numChannels: int)
    | TtsAudioRawFrame(audio: seq<byte>, sampleRate: int, numChannels: int)
    | LlmContextFrame(messages: seq<ChatMessage>)
    | LlmFullResponseStartFrame
    | LlmFullResponseEndFrame
    | OtherFrame(kind: string)

  predicate IsSystemFrame(f: Frame) {
    f.StartFrame? || f.SystemFrame?
  }

  /** Audio frames in the runtime's sense: the TTS output frame is an output audio
      frame and so an `AudioRawFrame` as well. */
  predicate IsAudioFrame(f: Frame) {
    f.AudioRawFrame? || f.TtsAudioRawFrame?
  }

  /** Transcription frames are text frames too. */
  predicate IsTextFrame(f: Frame) {
    f.TextFrame? || f.JsonTextFrame? || f.TranscriptionFrame?
  }

  /** The text a text frame carries; `dumps` is the JSON encoder (`json.dumps`). */
  function FrameText(f: Frame, dumps: Value -> string): string
    requires IsTextFrame(f)
  {
    match f
    case TextFrame(t) => t
    case JsonTextFrame(v) => dumps(v)
    case TranscriptionFrame(t, _, _) => t
  }

  /** The name a system frame reports; the start frame's name never matches a marker. */
  function SystemName(f: Frame): string
    requires IsSystemFrame(f)
  {
    if f.SystemFrame? then f.name else "StartFrame"
  }

  /** A frame handed to the next processor, with its direction. */
  datatype Push = Push(frame: Frame, dir: Direction)

  /** A `TextFrame` carrying `json.dumps({"type": t, "data": d})`. */
  function TypedJsonFrame(t: string, d: Value): Frame {
    JsonTextFrame(Dict(map["type" := Str(t), "data" := d]))
  }
}
