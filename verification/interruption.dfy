/** The interruption handler (`InterruptionHandler`): it follows TTS playback
    through the `tts_started` / `tts_stopped` markers and, when the user starts
    speaking during playback, decides from the completion ratio whether the partial
    response is kept, asks TTS to stop, reports the interruption and leaves a marker
    in the stream.

    The clock is the parameter `now`; the acknowledgment sleep is left out. */
module Interruption {
  import opened Common
  import opened Numbers
  import opened Frames

  datatype Handler = Handler(
    threshold: real,
    /** Whether an event callback was given to the constructor. */
    hasCallback: bool,
    ttsActive: bool,
    /** `None` until the first `tts_started`. */
    ttsStart: Option<real>,
    /** The `duration` value of the last `tts_started` (Python `0` before any). */
    ttsDuration: Value,
    currentResponse: string,
    responseTokens: nat)

  function Init(threshold: real, hasCallback: bool): (h: Handler)
    ensures !h.ttsActive && h.ttsStart == None && !Truthy(h.ttsDuration)
    ensures h.currentResponse == "" && h.responseTokens == 0
  {
    Handler(threshold, hasCallback, false, None, Int(0), "", 0)
  }

  /** Every state the handler reaches: playback is only marked active after a
      start time was recorded. */
  predicate Inv(h: Handler) {
    h.ttsActive ==> h.ttsStart.Some?
  }

  /** The numeric reading of a Python value in arithmetic (`bool` is an `int`). */
  function NumberOf(v: Value): Option<real> {
    match v
    case Int(i) => Some(i as real)
    case Real(r) => Some(r)
    case Bool(b) => Some(if b then 1.0 else 0.0)
    case _ => None
  }

  /** `frame.data.get("duration", 0)`, or `0` when the frame has no data. */
  function DurationOf(data: Option<map<string, Value>>): Value {
    if data.Some? && "duration" in data.value then data.value["duration"] else Int(0)
  }

  /** The fraction of the expected playback elapsed at `now`: zero when no start
      time or no duration is known (falsy), or when the duration is not positive;
      comparing a non-numeric duration with zero raises `TypeError`. */
  function CompletionRatio(start: Option<real>, duration: Value, now: real): (r: Result<real, string>)
    ensures (start.None? || start.value == 0.0 || !Truthy(duration)) ==> r == Ok(0.0)
    ensures start.Some? && start.value != 0.0 && NumberOf(duration).Some? && NumberOf(duration).value > 0.0
            ==> r == Ok((now - start.value) / NumberOf(duration).value)
    ensures IntRatio(start, duration) ==> r == Ok(0.0)
    ensures start.Some? && start.value != 0.0 && NumberOf(duration).Some? && NumberOf(duration).value <= 0.0
            ==> r == Ok(0.0)
    ensures r.Err? <==> start.Some? && start.value != 0.0 && Truthy(duration) && NumberOf(duration).None?
  {
    if start.None? || start.value == 0.0 || !Truthy(duration) then Ok(0.0)
    else match NumberOf(duration)
      case None => Err("TypeError")
      case Some(d) => Ok(if d > 0.0 then (now - start.value) / d else 0.0)
  }

  /** A call of the event callback with its event name and payload. */
  datatype CallbackCall = CallbackCall(name: string, data: Value)

  /** The `{"type": "interrupt_tts"}` control frame. */
  const InterruptTtsFrame: Frame := JsonTextFrame(Dict(map["type" := Str("interrupt_tts")]))

  /** The marker left in the stream: with the rounded percentage when the context
      is preserved, bare otherwise. */
  function Marker(ratio: real, preserve: bool): (m: string)
    ensures m == "[INTERRUPTED]" <==> !preserve
    ensures preserve ==>
              && |m| >= 19 && m[..16] == "[INTERRUPTED at " && m[|m| - 2..] == "%]"
              && IntText(m[16..|m| - 2]) && ParseInt(m[16..|m| - 2]) == RoundHalfEven(ratio * 100.0)
    ensures preserve ==> (m[16] == '-' <==> ratio < 0.0)
  {
    if preserve then
      var p := PercentText(ratio);
      MarkerParts(p);
      "[INTERRUPTED at " + p + "]"
    else "[INTERRUPTED]"
  }

  lemma MarkerParts(p: string)
    requires |p| >= 2
    ensures var m := "[INTERRUPTED at " + p + "]";
            && |m| == |p| + 17 && m[..16] == "[INTERRUPTED at "
            && m[16..|m| - 2] == p[..|p| - 1] && m[|m| - 2..] == [p[|p| - 1], ']'] && m[16] == p[0]
  {
  }

  /** A clock that steps back during playback gives a small negative ratio: the
      context is kept and the marker reads `-0%`. */
  lemma ClockStepBackMarksMinusZero()
    ensures Marker(-0.001, true) == "[INTERRUPTED at -0%]"
  {
    assert RoundHalfEven(-0.001 * 100.0) == 0;
  }

  /** What one interruption does, or as far as it got before raising. */
  datatype Outcome = Outcome(
    ratio: real,
    preserve: bool,
    pushed: seq<Push>,
    calls: seq<CallbackCall>,
    error: Option<string>)

  /** Whether the ratio is the integer `0` of the guard branches rather than a
      quotient: no start time, a falsy duration, or a duration not above zero. */
  predicate IntRatio(start: Option<real>, duration: Value) {
    || start.None? || start.value == 0.0 || !Truthy(duration)
    || (NumberOf(duration).Some? && NumberOf(duration).value <= 0.0)
  }

  /** The event the callback receives; `intRatio` says whether the ratio is the
      integer `0`, and `later` is the second clock reading. */
  function InterruptionEvent(ratio: real, intRatio: bool, preserve: bool, start: real, later: real): CallbackCall {
    CallbackCall("interruption", Dict(map[
      "completion_ratio" := if intRatio then Int(0) else Real(ratio),
      "preserve_context" := Bool(preserve),
      "elapsed_ms" := Real((later - start) * 1000.0)]))
  }

  /** `_handle_interruption`: the ratio is taken at clock reading `now`, the
      elapsed time for the event at a second reading `later`; `callbackRaises`
      is whether the event callback raises. */
  function HandleInterruption(h: Handler, now: real, later: real, callbackRaises: bool): (o: Outcome)
    ensures o.error.None? ==> CompletionRatio(h.ttsStart, h.ttsDuration, now) == Ok(o.ratio)
    ensures o.error.None? ==> (o.preserve <==> o.ratio < h.threshold)
    ensures o.error.None? ==> o.pushed == [Push(InterruptTtsFrame, Downstream),
                                           Push(TextFrame(Marker(o.ratio, o.preserve)), Downstream)]
    ensures o.error.None? ==> (o.calls != [] <==> h.hasCallback)
    ensures o.calls != [] ==>
              && h.ttsStart.Some?
              && o.calls == [InterruptionEvent(o.ratio, IntRatio(h.ttsStart, h.ttsDuration), o.preserve,
                                               h.ttsStart.value, later)]
    ensures CompletionRatio(h.ttsStart, h.ttsDuration, now).Err? ==> o.error.Some? && o.pushed == [] && o.calls == []
    ensures CompletionRatio(h.ttsStart, h.ttsDuration, now).Ok? ==>
              (o.error.Some? <==> h.hasCallback && (h.ttsStart.None? || callbackRaises))
    ensures o.error.Some? && CompletionRatio(h.ttsStart, h.ttsDuration, now).Ok? ==>
              o.pushed == [Push(InterruptTtsFrame, Downstream)] && (o.calls != [] <==> h.ttsStart.Some?)
  {
    match CompletionRatio(h.ttsStart, h.ttsDuration, now)
    case Err(e) => Outcome(0.0, false, [], [], Some(e))
    case Ok(ratio) =>
      var preserve := ratio < h.threshold;
      var stop := [Push(InterruptTtsFrame, Downstream)];
      var marked := stop + [Push(TextFrame(Marker(ratio, preserve)), Downstream)];
      if !h.hasCallback then
        Outcome(ratio, preserve, marked, [], None)
      else if h.ttsStart.None? then
        // `time.time() - None` raises before the callback runs
        Outcome(ratio, preserve, stop, [], Some("TypeError"))
      else
        var call := InterruptionEvent(ratio, IntRatio(h.ttsStart, h.ttsDuration), preserve, h.ttsStart.value, later);
        if callbackRaises then Outcome(ratio, preserve, stop, [call], Some("callback"))
        else Outcome(ratio, preserve, marked, [call], None)
  }

  datatype StepResult = StepResult(handler: Handler, pushed: seq<Push>, calls: seq<CallbackCall>, error: Option<string>)

  /** Whether a frame is the user speaking up while playback is active. */
  predicate IsBargeIn(h: Handler, f: Frame) {
    f.SystemFrame? && f.name == "user_started_speaking" && h.ttsActive
  }

  /** `process_frame`: updates the playback state, handles a barge-in, records the
      downstream response text, and forwards the frame after anything it pushed.
      `now` and `later` are the clock readings, `callbackRaises` whether the event
      callback raises, and `dumps` renders a JSON text frame's payload. */
  function ProcessFrame(h: Handler, f: Frame, dir: Direction, now: real, later: real, callbackRaises: bool,
                        dumps: Value -> string): (r: StepResult)
    ensures r.error.None? ==> |r.pushed| >= 1 && r.pushed[|r.pushed| - 1] == Push(f, dir)
    ensures r.handler.threshold == h.threshold && r.handler.hasCallback == h.hasCallback
    ensures f.SystemFrame? && f.name == "tts_started" ==>
              r.handler.ttsActive && r.handler.ttsStart == Some(now) && r.handler.ttsDuration == DurationOf(f.data)
              && r.pushed == [Push(f, dir)]
    ensures f.SystemFrame? && f.name == "tts_stopped" ==>
              r.handler == h.(ttsActive := false) && r.pushed == [Push(f, dir)]
    ensures IsBargeIn(h, f) ==>
              var o := HandleInterruption(h, now, later, callbackRaises);
              && r.handler == h && r.calls == o.calls && r.error == o.error
              && r.pushed == (if o.error.None? then o.pushed + [Push(f, dir)] else o.pushed)
    ensures !IsBargeIn(h, f) ==> r.error.None? && r.calls == []
    ensures IsTextFrame(f) && dir == Downstream ==>
              r.handler == h.(currentResponse := FrameText(f, dumps),
                              responseTokens := |Words(FrameText(f, dumps))|)
    ensures !f.SystemFrame? && !(IsTextFrame(f) && dir == Downstream) ==> r == StepResult(h, [Push(f, dir)], [], None)
  {
    if f.SystemFrame? then
      if f.name == "tts_started" then
        StepResult(h.(ttsActive := true, ttsStart := Some(now), ttsDuration := DurationOf(f.data)),
                   [Push(f, dir)], [], None)
      else if f.name == "tts_stopped" then
        StepResult(h.(ttsActive := false), [Push(f, dir)], [], None)
      else if f.name == "user_started_speaking" && h.ttsActive then
        var o := HandleInterruption(h, now, later, callbackRaises);
        StepResult(h, if o.error.None? then o.pushed + [Push(f, dir)] else o.pushed, o.calls, o.error)
      else
        StepResult(h, [Push(f, dir)], [], None)
    else if IsTextFrame(f) && dir == Downstream then
      var text := FrameText(f, dumps);
      StepResult(h.(currentResponse := text, responseTokens := |Words(text)|), [Push(f, dir)], [], None)
    else
      StepResult(h, [Push(f, dir)], [], None)
  }

  /** Every reachable state satisfies the invariant. */
  lemma ProcessFrameKeepsInv(h: Handler, f: Frame, dir: Direction, now: real, later: real, callbackRaises: bool,
                             dumps: Value -> string)
    requires Inv(h)
    ensures Inv(ProcessFrame(h, f, dir, now, later, callbackRaises, dumps).handler)
  {
  }

  /** In a reachable state with a numeric (or falsy) duration an interruption
      always pushes the stop request first; it goes on to push the marker and
      forward the frame exactly when no callback raises, and a raising callback
      has received its event. */
  lemma BargeInSucceeds(h: Handler, f: Frame, dir: Direction, now: real, later: real, callbackRaises: bool,
                        dumps: Value -> string)
    requires Inv(h) && IsBargeIn(h, f)
    requires NumberOf(h.ttsDuration).Some? || !Truthy(h.ttsDuration)
    ensures var r := ProcessFrame(h, f, dir, now, later, callbackRaises, dumps);
            && |r.pushed| >= 1 && r.pushed[0] == Push(InterruptTtsFrame, Downstream)
            && (r.error.None? <==> !(h.hasCallback && callbackRaises))
            && (r.error.None? ==> |r.pushed| == 3 && r.pushed[2] == Push(f, dir))
            && (r.error.Some? ==> |r.pushed| == 1 && |r.calls| == 1)
  {
  }

  /** An interruption does not end playback: a second `user_started_speaking`
      before `tts_stopped` is handled again. */
  lemma InterruptionKeepsPlayback(h: Handler, f: Frame, dir: Direction, now: real, later: real, callbackRaises: bool,
                                  dumps: Value -> string)
    requires IsBargeIn(h, f)
    ensures IsBargeIn(ProcessFrame(h, f, dir, now, later, callbackRaises, dumps).handler, f)
  {
  }

  /** Without active playback the user speaking is forwarded untouched. */
  lemma NoBargeInWhenIdle(h: Handler, dir: Direction, now: real, later: real, callbackRaises: bool,
                          dumps: Value -> string, data: Option<map<string, Value>>)
    requires !h.ttsActive
    ensures ProcessFrame(h, SystemFrame("user_started_speaking", data), dir, now, later, callbackRaises, dumps)
            == StepResult(h, [Push(SystemFrame("user_started_speaking", data), dir)], [], None)
  {
  }

  /** The later the interruption, the larger the ratio: when an interruption at
      `t2` still preserves the context, so does any earlier one in the same
      playback. */
  lemma PreserveIsMonotone(h: Handler, t1: real, l1: real, r1: bool, t2: real, l2: real, r2: bool)
    requires h.ttsStart.Some? && h.ttsStart.value != 0.0
    requires NumberOf(h.ttsDuration).Some? && NumberOf(h.ttsDuration).value > 0.0
    requires t1 <= t2
    requires HandleInterruption(h, t2, l2, r2).preserve
    ensures HandleInterruption(h, t1, l1, r1).preserve
  {
    var s := h.ttsStart.value;
    var d := NumberOf(h.ttsDuration).value;
    PreserveAt(h, t1, l1, r1);
    PreserveAt(h, t2, l2, r2);
    assert (t1 - s) / d <= (t2 - s) / d by {
      assert (t1 - s) <= (t2 - s);
      DivMonotone(t1 - s, t2 - s, d);
    }
  }

  /** Whether the context is kept depends on the ratio alone, whatever the
      callback does. */
  lemma PreserveAt(h: Handler, now: real, later: real, callbackRaises: bool)
    requires CompletionRatio(h.ttsStart, h.ttsDuration, now).Ok?
    ensures HandleInterruption(h, now, later, callbackRaises).preserve
            <==> CompletionRatio(h.ttsStart, h.ttsDuration, now).value < h.threshold
  {
  }

  lemma DivMonotone(a: real, b: real, d: real)
    requires a <= b && d > 0.0
    ensures a / d <= b / d
  {
    assert b / d - a / d == (b - a) / d;
  }

  /** Playback that started at 100 with a 10 s duration and the default 0.2
      threshold. */
  function Playing(hasCallback: bool): Handler {
    Handler(0.2, hasCallback, true, Some(100.0), Int(10), "", 0)
  }

  /** One second in (ratio 0.1): the context is preserved and the marker shows 10%. */
  lemma EarlyInterruptionPreserves()
    ensures HandleInterruption(Playing(true), 101.0, 101.0, false).ratio == 0.1
    ensures HandleInterruption(Playing(true), 101.0, 101.0, false).preserve
    ensures HandleInterruption(Playing(true), 101.0, 101.0, false).pushed[1].frame == TextFrame("[INTERRUPTED at 10%]")
    ensures HandleInterruption(Playing(true), 101.0, 101.0, false).calls[0].data.entries["elapsed_ms"] == Real(1000.0)
  {
    assert RoundHalfEven(0.1 * 100.0) == 10;
    assert NatToString(10) == "10";
  }

  /** Exactly at the threshold (ratio 0.2) the context is not preserved. */
  lemma ThresholdIsExclusive()
    ensures HandleInterruption(Playing(true), 102.0, 102.0, false).ratio == 0.2
    ensures !HandleInterruption(Playing(true), 102.0, 102.0, false).preserve
    ensures HandleInterruption(Playing(true), 102.0, 102.0, false).pushed[1].frame == TextFrame("[INTERRUPTED]")
  {
  }

  /** Half-way through (ratio 0.5) the context is not preserved. */
  lemma LateInterruptionBreaks()
    ensures HandleInterruption(Playing(false), 105.0, 105.0, false).ratio == 0.5
    ensures !HandleInterruption(Playing(false), 105.0, 105.0, false).preserve
    ensures HandleInterruption(Playing(false), 105.0, 105.0, false).calls == []
  {
  }

  /** A 4 s playback interrupted half a second in: one interruption event with
      ratio 0.125 that preserves the context, and a single stop request pushed first. */
  lemma EndToEndBargeIn(dumps: Value -> string)
    ensures
      var h0 := Init(0.2, true);
      var started := ProcessFrame(h0, SystemFrame("tts_started", Some(map["duration" := Int(4)])), Downstream, 50.0, 50.0, false, dumps);
      var speech := SystemFrame("user_started_speaking", None);
      var r := ProcessFrame(started.handler, speech, Downstream, 50.5, 50.5, false, dumps);
      && r.error.None?
      && r.calls == [CallbackCall("interruption", Dict(map[
           "completion_ratio" := Real(0.125),
           "preserve_context" := Bool(true),
           "elapsed_ms" := Real(500.0)]))]
      && |r.pushed| == 3 && r.pushed[0] == Push(InterruptTtsFrame, Downstream)
      && r.pushed[2] == Push(speech, Downstream)
  {
    var h0 := Init(0.2, true);
    var started := ProcessFrame(h0, SystemFrame("tts_started", Some(map["duration" := Int(4)])), Downstream, 50.0, 50.0, false, dumps);
    var h1 := started.handler;
    assert h1 == Handler(0.2, true, true, Some(50.0), Int(4), "", 0);
    assert CompletionRatio(Some(50.0), Int(4), 50.5) == Ok(0.125);
    var o := HandleInterruption(h1, 50.5, 50.5, false);
    assert o.error.None? && o.ratio == 0.125 && o.preserve;
    assert (50.5 - 50.0) * 1000.0 == 500.0;
  }

  /** A playback whose start was recorded at clock value zero counts as not started
      (a falsy start time), so the ratio is zero whenever the user speaks. */
  lemma StartAtZeroGivesZeroRatio(dumps: Value -> string)
    ensures
      var started := ProcessFrame(Init(0.2, false), SystemFrame("tts_started", Some(map["duration" := Int(4)])), Downstream, 0.0, 0.0, false, dumps);
      HandleInterruption(started.handler, 0.5, 0.5, false).ratio == 0.0
  {
  }
}
