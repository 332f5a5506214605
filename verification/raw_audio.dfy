/** The raw audio serializer (`RawAudioSerializer`) of the live transcription
    transport: binary messages are 16 kHz mono PCM input audio; text messages,
    control JSON or not, and anything else yield no frame; no frame is ever
    serialised for output. */
module RawAudio {
  import opened Common
  import opened Frames

  datatype SerializerType = Binary | Text

  /** A transport message: bytes, a string, or any other object. */
  datatype Message = Bytes(data: seq<byte>) | TextMessage(text: string) | OtherMessage

  const SampleRate: int := 16000
  const Channels: int := 1

  /** The serialisation type. */
  function Type(): (t: SerializerType)
    ensures t == Binary
  {
    Binary
  }

  /** `serialize(frame)`: nothing is sent for any frame. */
  function Serialize(f: Frame): (r: Option<seq<byte>>)
    ensures r.None?
  {
    None
  }

  /** `deserialize(data)`. */
  function Deserialize(m: Message): (r: Option<Frame>)
    ensures r.Some? <==> m.Bytes?
    ensures m.Bytes? ==> r.value == AudioRawFrame(m.data, SampleRate, Channels)
  {
    match m
    case Bytes(data) => Some(AudioRawFrame(data, SampleRate, Channels))
    case TextMessage(_) => None
    case OtherMessage => None
  }

  /** The audio a frame carries, as the bytes a peer would send for it. */
  function Encode(f: Frame): Option<Message> {
    if f.AudioRawFrame? && f.sampleRate == SampleRate && f.numChannels == Channels then Some(Bytes(f.audio)) else None
  }

  /** Every 16 kHz mono input frame is recovered exactly from its bytes, and the
      deserialised frames are exactly those. */
  lemma DeserializeRoundTrip(f: Frame, m: Message)
    ensures Encode(f).Some? ==> Deserialize(Encode(f).value) == Some(f)
    ensures Deserialize(m).Some? ==> Encode(Deserialize(m).value) == Some(m)
  {
  }
}
