/** The transcription event processor (`TranscriptionEventProcessor`): every
    non-empty transcription is announced on the event bus as a final
    transcription, and every frame other than the start and end frames is
    forwarded unchanged.

    The optional bus is `None` when the processor has no emitter. The wall clock
    (`time.time()`) is the parameter `now`; whether a subscriber raises is the
    parameter `raises`. */
module TranscriptionEvents {
  import opened Common
  import opened Frames
  import EventBus

  const FinalEvent: string := "transcription_final"

  /** The user id an event reports: the frame's, or `"user"` when it is empty. */
  function UserIdOf(userId: string): (r: string)
    ensures r != ""
    ensures userId != "" ==> r == userId
  {
    if userId != "" then userId else "user"
  }

  /** The data of the event announcing a transcription heard at `now`. */
  function FinalData(text: string, userId: string, now: real): Value {
    Dict(map["text" := Str(text), "confidence" := Real(1.0), "timestamp" := Real(now), "user_id" := Str(UserIdOf(userId))])
  }

  /** Whether a frame is announced: a transcription with some text, seen by a
      processor that has a bus. */
  predicate Announces(hasBus: bool, f: Frame) {
    hasBus && f.TranscriptionFrame? && f.text != ""
  }

  /** What a frame did: the bus afterwards, the events it announced, whether the
      frame went to the base class's lifecycle handling, and what was pushed. */
  datatype Outcome = Outcome(bus: Option<EventBus.Bus>, events: seq<EventBus.Event>, toBase: bool, pushed: seq<Push>)

  predicate BusBounded(bus: Option<EventBus.Bus>) {
    bus.Some? ==> |bus.value.buffer| <= bus.value.bufferSize
  }

  /** `process_frame(frame, direction)`. */
  function ProcessFrame(bus: Option<EventBus.Bus>, f: Frame, dir: Direction, now: real,
                        raises: (EventBus.CallbackId, EventBus.Event) -> bool): (r: Outcome)
    requires BusBounded(bus)
    ensures BusBounded(r.bus) && r.bus.Some? == bus.Some?
    ensures r.toBase <==> f.StartFrame? || f.EndFrame?
    ensures r.toBase ==> r.pushed == [] && r.bus == bus && r.events == []
    ensures !r.toBase ==> r.pushed == [Push(f, dir)]
    ensures |r.events| == (if Announces(bus.Some?, f) then 1 else 0)
    ensures !Announces(bus.Some?, f) ==> r.bus == bus
    ensures Announces(bus.Some?, f) ==>
              && r.events[0].eventType == FinalEvent
              && r.events[0].data == FinalData(f.text, f.userId, now)
              && r.events[0].id == bus.value.count
              && r.bus.value.count == bus.value.count + 1
              && r.bus.value.subscribers == bus.value.subscribers
  {
    if f.StartFrame? || f.EndFrame? then Outcome(bus, [], true, [])
    else if Announces(bus.Some?, f) then
      var e := EventBus.Emit(bus.value, FinalEvent, FinalData(f.text, f.userId, now), now, raises);
      Outcome(Some(e.bus), [e.event], false, [Push(f, dir)])
    else Outcome(bus, [], false, [Push(f, dir)])
  }

  /** Runs a stream of frames through the processor, all at time `now`; returns
      the bus, the announced events in order and the pushed frames in order. */
  function ProcessAll(bus: Option<EventBus.Bus>, fs: seq<Frame>, dir: Direction, now: real,
                      raises: (EventBus.CallbackId, EventBus.Event) -> bool): (r: (Option<EventBus.Bus>, seq<EventBus.Event>, seq<Push>))
    requires BusBounded(bus)
    ensures BusBounded(r.0) && r.0.Some? == bus.Some?
    decreases |fs|
  {
    if fs == [] then (bus, [], [])
    else
      var o := ProcessFrame(bus, fs[0], dir, now, raises);
      var rest := ProcessAll(o.bus, fs[1..], dir, now, raises);
      (rest.0, o.events + rest.1, o.pushed + rest.2)
  }

  /** The frames that are forwarded: all but the start and end frames. */
  function Forwarded(fs: seq<Frame>, dir: Direction): seq<Push> {
    if fs == [] then []
    else (if fs[0].StartFrame? || fs[0].EndFrame? then [] else [Push(fs[0], dir)]) + Forwarded(fs[1..], dir)
  }

  /** The announced texts, in order. */
  function AnnouncedTexts(hasBus: bool, fs: seq<Frame>): seq<string> {
    if fs == [] then []
    else (if Announces(hasBus, fs[0]) then [fs[0].text] else []) + AnnouncedTexts(hasBus, fs[1..])
  }

  function EventTexts(es: seq<EventBus.Event>): seq<string> {
    if es == [] then []
    else (if es[0].data.Dict? && "text" in es[0].data.entries && es[0].data.entries["text"].Str?
          then [es[0].data.entries["text"].s] else []) + EventTexts(es[1..])
  }

  lemma {:induction false} EventTextsConcat(a: seq<EventBus.Event>, b: seq<EventBus.Event>)
    ensures EventTexts(a + b) == EventTexts(a) + EventTexts(b)
    decreases |a|
  {
    if a == [] {
      assert a + b == b;
    } else {
      assert (a + b)[1..] == a[1..] + b;
      EventTextsConcat(a[1..], b);
    }
  }

  /** Over a stream, the processor forwards every frame but the start and end
      frames in order, announces exactly the non-empty transcriptions in order,
      and numbers the announcements consecutively on the bus. */
  lemma {:induction false} ProcessAllAnnouncesTranscriptions(bus: Option<EventBus.Bus>, fs: seq<Frame>, dir: Direction, now: real,
                                                             raises: (EventBus.CallbackId, EventBus.Event) -> bool)
    requires BusBounded(bus)
    ensures var r := ProcessAll(bus, fs, dir, now, raises);
            && r.2 == Forwarded(fs, dir)
            && EventTexts(r.1) == AnnouncedTexts(bus.Some?, fs)
            && (bus.Some? ==> r.0.value.count == bus.value.count + |r.1|)
            && (bus.None? ==> r.1 == [])
    decreases |fs|
  {
    if fs != [] {
      var o := ProcessFrame(bus, fs[0], dir, now, raises);
      ProcessAllAnnouncesTranscriptions(o.bus, fs[1..], dir, now, raises);
      var rest := ProcessAll(o.bus, fs[1..], dir, now, raises);
      EventTextsConcat(o.events, rest.1);
      if Announces(bus.Some?, fs[0]) {
        assert o.events[1..] == [];
        assert EventTexts(o.events) == [fs[0].text];
      } else {
        assert EventTexts(o.events) == [];
      }
    }
  }
}
