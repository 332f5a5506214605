/** The metrics collector (`MetricsCollector`): it counts frames and `error`
    markers, times components between their `<c>_start` and `<c>_end` markers,
    keeps the STT, LLM and TTS latencies with their sum, and publishes a snapshot
    whenever the emit interval has elapsed since the last one.

    The clock is the parameter `now`. */
module Metrics {
  import opened Common
  import opened Frames

  datatype PipelineMetrics = PipelineMetrics(
    sttLatency: real,
    llmLatency: real,
    ttsLatency: real,
    totalLatency: real,
    framesProcessed: nat,
    errors: nat,
    componentTimings: map<string, real>)

  datatype Collector = Collector(
    emitInterval: real,
    hasCallback: bool,
    metrics: PipelineMetrics,
    componentStarts: map<string, real>,
    lastEmit: real)

  /** The total is always the sum of the three named latencies. */
  predicate Inv(c: Collector) {
    c.metrics.totalLatency == c.metrics.sttLatency + c.metrics.llmLatency + c.metrics.ttsLatency
  }

  /** A collector built at time `now`: everything zero, the interval counted from `now`. */
  function Init(emitInterval: real, hasCallback: bool, now: real): (c: Collector)
    ensures Inv(c)
    ensures c.metrics.framesProcessed == 0 && c.metrics.errors == 0
    ensures c.metrics.componentTimings == map[] && c.componentStarts == map[]
    ensures c.lastEmit == now
  {
    Collector(emitInterval, hasCallback, PipelineMetrics(0.0, 0.0, 0.0, 0.0, 0, 0, map[]), map[], now)
  }

  /** `name.replace(suffix, "")`: the component a marker names. */
  function ComponentOf(name: string, suffix: string): (c: string)
    requires |suffix| > 0
    ensures |c| <= |name|
    ensures !Contains(name, suffix) ==> c == name
  {
    ReplaceAll(name, suffix, "")
  }

  /** A component name whose markers name it back: the marker suffix first occurs
      where it was appended. */
  lemma ComponentOfMarker(comp: string, suffix: string)
    requires |suffix| > 0
    requires forall j: nat :: j < |comp| ==> !OccursAt(comp + suffix, suffix, j)
    ensures ComponentOf(comp + suffix, suffix) == comp
  {
    RemoveTrailingOccurrence(comp, suffix);
  }

  /** The snapshot `_emit_metrics` publishes. */
  function Snapshot(m: PipelineMetrics): (v: Value)
    ensures v.Dict? && v.entries.Keys == {"stt_latency_ms", "llm_latency_ms", "tts_latency_ms", "total_latency_ms",
                                          "frames_processed", "errors", "component_timings"}
    ensures v.entries["stt_latency_ms"] == Real(m.sttLatency)
    ensures v.entries["llm_latency_ms"] == Real(m.llmLatency)
    ensures v.entries["tts_latency_ms"] == Real(m.ttsLatency)
    ensures v.entries["total_latency_ms"] == Real(m.totalLatency)
    ensures v.entries["frames_processed"] == Int(m.framesProcessed)
    ensures v.entries["errors"] == Int(m.errors)
    ensures v.entries["component_timings"] == Dict(map k | k in m.componentTimings :: Real(m.componentTimings[k]))
  {
    var v := Dict(map[
      "stt_latency_ms" := Real(m.sttLatency),
      "llm_latency_ms" := Real(m.llmLatency),
      "tts_latency_ms" := Real(m.ttsLatency),
      "total_latency_ms" := Real(m.totalLatency),
      "frames_processed" := Int(m.framesProcessed),
      "errors" := Int(m.errors),
      "component_timings" := Dict(map k | k in m.componentTimings :: Real(m.componentTimings[k]))]);
    v
  }

  /** A call of the event callback with its event name and payload. */
  datatype CallbackCall = CallbackCall(name: string, data: Value)

  /** An `error` marker. */
  predicate IsErrorMarker(f: Frame) {
    IsSystemFrame(f) && SystemName(f) == "error"
  }

  /** An `<c>_start` marker. */
  predicate IsStartMarker(f: Frame) {
    IsSystemFrame(f) && EndsWith(SystemName(f), "_start")
  }

  /** An `<c>_end` marker closing a component that was opened. */
  predicate ClosesComponent(starts: map<string, real>, f: Frame) {
    IsSystemFrame(f) && !EndsWith(SystemName(f), "_start") && EndsWith(SystemName(f), "_end")
    && ComponentOf(SystemName(f), "_end") in starts
  }

  /** The metric updates a frame causes, before any emission. */
  function Record(m: PipelineMetrics, starts: map<string, real>, f: Frame, now: real): (r: (PipelineMetrics, map<string, real>))
    ensures r.0 == RecordMetrics(m, starts, f, now) && r.1 == RecordStarts(starts, f, now)
  {
    (RecordMetrics(m, starts, f, now), RecordStarts(starts, f, now))
  }

  /** The start times after a frame: a start marker records its component's. */
  function RecordStarts(starts: map<string, real>, f: Frame, now: real): (r: map<string, real>)
    ensures IsStartMarker(f) ==> r == starts[ComponentOf(SystemName(f), "_start") := now]
    ensures !IsStartMarker(f) ==> r == starts
  {
    if IsStartMarker(f) then starts[ComponentOf(SystemName(f), "_start") := now] else starts
  }

  /** The counters and timings after a frame. */
  function RecordMetrics(m: PipelineMetrics, starts: map<string, real>, f: Frame, now: real): (r: PipelineMetrics)
    ensures r.framesProcessed == m.framesProcessed + 1
    ensures r.errors == m.errors + (if IsErrorMarker(f) then 1 else 0)
    ensures ClosesComponent(starts, f) ==>
              var comp := ComponentOf(SystemName(f), "_end");
              var latency := (now - starts[comp]) * 1000.0;
              && r.componentTimings == m.componentTimings[comp := latency]
              && r.sttLatency == (if comp == "stt" then latency else m.sttLatency)
              && r.llmLatency == (if comp == "llm" then latency else m.llmLatency)
              && r.ttsLatency == (if comp == "tts" then latency else m.ttsLatency)
              && r.totalLatency == r.sttLatency + r.llmLatency + r.ttsLatency
    ensures !ClosesComponent(starts, f) ==>
              && r.componentTimings == m.componentTimings
              && r.sttLatency == m.sttLatency && r.llmLatency == m.llmLatency && r.ttsLatency == m.ttsLatency
              && r.totalLatency == m.totalLatency
  {
    var m1 := m.(framesProcessed := m.framesProcessed + 1);
    if ClosesComponent(starts, f) then
      ClosingIsNoError(starts, f);
      CloseMarked(m1, starts, f, now)
    else if IsErrorMarker(f) then m1.(errors := m1.errors + 1)
    else m1
  }

  /** The timing an end marker closes: its component's time since the start. */
  function CloseMarked(m: PipelineMetrics, starts: map<string, real>, f: Frame, now: real): (r: PipelineMetrics)
    requires ClosesComponent(starts, f)
    ensures r.framesProcessed == m.framesProcessed && r.errors == m.errors
    ensures
      var comp := ComponentOf(SystemName(f), "_end");
      var latency := (now - starts[comp]) * 1000.0;
      && r.componentTimings == m.componentTimings[comp := latency]
      && r.sttLatency == (if comp == "stt" then latency else m.sttLatency)
      && r.llmLatency == (if comp == "llm" then latency else m.llmLatency)
      && r.ttsLatency == (if comp == "tts" then latency else m.ttsLatency)
      && r.totalLatency == r.sttLatency + r.llmLatency + r.ttsLatency
  {
    var comp := ComponentOf(SystemName(f), "_end");
    Close(m, comp, (now - starts[comp]) * 1000.0)
  }

  lemma ClosingIsNoError(starts: map<string, real>, f: Frame)
    requires ClosesComponent(starts, f)
    ensures !IsErrorMarker(f)
  {
    ErrorIsNoMarker();
  }

  /** The `error` marker is neither a start nor an end marker. */
  lemma ErrorIsNoMarker()
    ensures !EndsWith("error", "_start") && !EndsWith("error", "_end")
  {
    assert "error"[1..] != "_end";
  }

  /** A component's timing recorded: under its name and, for the three pipeline
      components, in its own latency, with the total kept as their sum. */
  function Close(m: PipelineMetrics, comp: string, latency: real): (r: PipelineMetrics)
    ensures r.framesProcessed == m.framesProcessed && r.errors == m.errors
    ensures r.componentTimings == m.componentTimings[comp := latency]
    ensures r.sttLatency == (if comp == "stt" then latency else m.sttLatency)
    ensures r.llmLatency == (if comp == "llm" then latency else m.llmLatency)
    ensures r.ttsLatency == (if comp == "tts" then latency else m.ttsLatency)
    ensures r.totalLatency == r.sttLatency + r.llmLatency + r.ttsLatency
  {
    var m2 := m.(componentTimings := m.componentTimings[comp := latency]);
    var m3 :=
      if comp == "stt" then m2.(sttLatency := latency)
      else if comp == "llm" then m2.(llmLatency := latency)
      else if comp == "tts" then m2.(ttsLatency := latency)
      else m2;
    m3.(totalLatency := m3.sttLatency + m3.llmLatency + m3.ttsLatency)
  }

  /** What a frame did; `error` is set when the event callback raised. */
  datatype StepResult = StepResult(collector: Collector, pushed: seq<Push>, calls: seq<CallbackCall>, error: Option<string>)

  /** `process_frame` at time `now`: record, emit a snapshot when the interval has
      elapsed, then forward the frame. `callbackRaises` is whether the event
      callback raises; it does so after the snapshot frame was pushed, so the
      emission time is not moved on and the frame is not forwarded. */
  function ProcessFrame(c: Collector, f: Frame, dir: Direction, now: real, callbackRaises: bool): (r: StepResult)
    ensures r.collector.metrics.framesProcessed == c.metrics.framesProcessed + 1
    ensures r.collector.emitInterval == c.emitInterval && r.collector.hasCallback == c.hasCallback
    ensures (r.collector.metrics, r.collector.componentStarts) == Record(c.metrics, c.componentStarts, f, now)
    ensures r.error.Some? <==> now - c.lastEmit >= c.emitInterval && c.hasCallback && callbackRaises
    ensures r.error.None? ==> |r.pushed| >= 1 && r.pushed[|r.pushed| - 1] == Push(f, dir)
    ensures now - c.lastEmit >= c.emitInterval ==>
              && |r.pushed| >= 1 && r.pushed[0] == Push(TypedJsonFrame("metrics_update", Snapshot(r.collector.metrics)), Downstream)
              && r.calls == (if c.hasCallback then [CallbackCall("metrics", Snapshot(r.collector.metrics))] else [])
    ensures now - c.lastEmit >= c.emitInterval && r.error.None? ==>
              r.collector.lastEmit == now && |r.pushed| == 2
    ensures r.error.Some? ==> r.collector.lastEmit == c.lastEmit && |r.pushed| == 1
    ensures now - c.lastEmit < c.emitInterval ==>
              r.collector.lastEmit == c.lastEmit && r.pushed == [Push(f, dir)] && r.calls == []
  {
    var (m, starts) := Record(c.metrics, c.componentStarts, f, now);
    var c1 := c.(metrics := m, componentStarts := starts);
    if now - c.lastEmit >= c.emitInterval then
      var snap := Snapshot(m);
      var update := Push(TypedJsonFrame("metrics_update", snap), Downstream);
      if c.hasCallback && callbackRaises then
        StepResult(c1, [update], [CallbackCall("metrics", snap)], Some("callback"))
      else
        StepResult(c1.(lastEmit := now), [update, Push(f, dir)],
                   if c.hasCallback then [CallbackCall("metrics", snap)] else [], None)
    else
      StepResult(c1, [Push(f, dir)], [], None)
  }

  /** The total stays the sum of the named latencies. */
  lemma ProcessFrameKeepsInv(c: Collector, f: Frame, dir: Direction, now: real, callbackRaises: bool)
    requires Inv(c)
    ensures Inv(ProcessFrame(c, f, dir, now, callbackRaises).collector)
  {
  }

  /** A raising callback delays the next emission: the following frame, at a
      time no earlier, finds the interval still elapsed and emits again. */
  lemma RaisingCallbackEmitsAgain(c: Collector, f: Frame, g: Frame, dir: Direction, now: real, next: real, raises: bool)
    requires now - c.lastEmit >= c.emitInterval && c.hasCallback
    requires next >= now
    ensures var c1 := ProcessFrame(c, f, dir, now, true).collector;
            && c1.lastEmit == c.lastEmit
            && var r := ProcessFrame(c1, g, dir, next, raises);
               && r.pushed[0] == Push(TypedJsonFrame("metrics_update", Snapshot(r.collector.metrics)), Downstream)
               && r.calls == [CallbackCall("metrics", Snapshot(r.collector.metrics))]
  {
  }

  /** A run over a sequence of timestamped frames. */
  function Run(c: Collector, frames: seq<(Frame, real, bool)>): (r: Collector)
    decreases |frames|
  {
    if frames == [] then c else Run(ProcessFrame(c, frames[0].0, Downstream, frames[0].1, frames[0].2).collector, frames[1..])
  }

  /** Every frame is counted once, whatever its kind. */
  lemma {:induction false} RunCountsFrames(c: Collector, frames: seq<(Frame, real, bool)>)
    ensures Run(c, frames).metrics.framesProcessed == c.metrics.framesProcessed + |frames|
    ensures Inv(c) ==> Inv(Run(c, frames))
    decreases |frames|
  {
    if frames != [] {
      var c1 := ProcessFrame(c, frames[0].0, Downstream, frames[0].1, frames[0].2).collector;
      if Inv(c) { ProcessFrameKeepsInv(c, frames[0].0, Downstream, frames[0].1, frames[0].2); }
      RunCountsFrames(c1, frames[1..]);
    }
  }

  /** Error markers are counted; no other frame changes the error count. */
  lemma {:induction false} RunCountsErrors(c: Collector, frames: seq<(Frame, real, bool)>)
    ensures Run(c, frames).metrics.errors == c.metrics.errors + |Filter(frames, (p: (Frame, real, bool)) => IsErrorMarker(p.0))|
    decreases |frames|
  {
    if frames != [] {
      var c1 := ProcessFrame(c, frames[0].0, Downstream, frames[0].1, frames[0].2).collector;
      RunCountsErrors(c1, frames[1..]);
    }
  }

  function Marker(name: string): Frame {
    SystemFrame(name, None)
  }

  /** A start marker records its component's start time and counts the frame;
      nothing else changes. */
  lemma StartMarkerStep(m: PipelineMetrics, starts: map<string, real>, comp: string, t0: real)
    requires forall j: nat :: j < |comp| ==> !OccursAt(comp + "_start", "_start", j)
    ensures Record(m, starts, Marker(comp + "_start"), t0)
            == (m.(framesProcessed := m.framesProcessed + 1), starts[comp := t0])
  {
    var name := comp + "_start";
    ComponentOfMarker(comp, "_start");
    assert name[|name| - 6..] == "_start";
    assert IsStartMarker(Marker(name));
    ErrorIsNoMarker();
    assert !IsErrorMarker(Marker(name));
    assert !ClosesComponent(starts, Marker(name));
  }

  /** An end marker of a started component records its timing and counts the
      frame. */
  lemma EndMarkerStep(m: PipelineMetrics, starts: map<string, real>, comp: string, t1: real)
    requires forall j: nat :: j < |comp| ==> !OccursAt(comp + "_end", "_end", j)
    requires comp in starts
    ensures Record(m, starts, Marker(comp + "_end"), t1)
            == (Close(m.(framesProcessed := m.framesProcessed + 1), comp, (t1 - starts[comp]) * 1000.0), starts)
  {
    var e := comp + "_end";
    ComponentOfMarker(comp, "_end");
    assert !EndsWith(e, "_start") by {
      assert e[|e| - 1] == 'd';
    }
    assert e[|e| - 4..] == "_end";
    assert ClosesComponent(starts, Marker(e));
  }

  /** A component's start marker at `t0` followed by its end marker at `t1`
      records `(t1 - t0) * 1000` milliseconds under its name, in its latency
      when it is one of the three pipeline components, with the total their sum. */
  lemma TimeComponent(c: Collector, comp: string, t0: real, t1: real, c1: Collector, c2: Collector)
    requires forall j: nat :: j < |comp| ==> !OccursAt(comp + "_start", "_start", j)
    requires forall j: nat :: j < |comp| ==> !OccursAt(comp + "_end", "_end", j)
    requires c1 == ProcessFrame(c, Marker(comp + "_start"), Downstream, t0, false).collector
    requires c2 == ProcessFrame(c1, Marker(comp + "_end"), Downstream, t1, false).collector
    ensures c2.metrics == Close(c.metrics.(framesProcessed := c.metrics.framesProcessed + 2), comp, (t1 - t0) * 1000.0)
  {
    StartStep(c, comp, t0);
    TimeEnd(c, c1, comp, t0, t1);
  }

  lemma TimeEnd(c: Collector, c1: Collector, comp: string, t0: real, t1: real)
    requires forall j: nat :: j < |comp| ==> !OccursAt(comp + "_end", "_end", j)
    requires c1.metrics == c.metrics.(framesProcessed := c.metrics.framesProcessed + 1)
    requires comp in c1.componentStarts && c1.componentStarts[comp] == t0
    ensures ProcessFrame(c1, Marker(comp + "_end"), Downstream, t1, false).collector.metrics
            == Close(c.metrics.(framesProcessed := c.metrics.framesProcessed + 2), comp, (t1 - t0) * 1000.0)
  {
    var m := c.metrics.(framesProcessed := c.metrics.framesProcessed + 2);
    assert m == c1.metrics.(framesProcessed := c1.metrics.framesProcessed + 1);
    EndStep(c1, comp, t0, t1, m);
  }

  lemma StartStep(c: Collector, comp: string, t0: real)
    requires forall j: nat :: j < |comp| ==> !OccursAt(comp + "_start", "_start", j)
    ensures var c1 := ProcessFrame(c, Marker(comp + "_start"), Downstream, t0, false).collector;
            c1.metrics == c.metrics.(framesProcessed := c.metrics.framesProcessed + 1)
            && c1.componentStarts == c.componentStarts[comp := t0]
  {
    StartMarkerStep(c.metrics, c.componentStarts, comp, t0);
  }

  lemma EndStep(c: Collector, comp: string, t0: real, t1: real, m: PipelineMetrics)
    requires forall j: nat :: j < |comp| ==> !OccursAt(comp + "_end", "_end", j)
    requires comp in c.componentStarts && c.componentStarts[comp] == t0
    requires m == c.metrics.(framesProcessed := c.metrics.framesProcessed + 1)
    ensures ProcessFrame(c, Marker(comp + "_end"), Downstream, t1, false).collector.metrics
            == Close(m, comp, (t1 - t0) * 1000.0)
  {
    EndMarkerStep(c.metrics, c.componentStarts, comp, t1);
  }

  /** A component name without an underscore meets its markers' suffixes only
      where they were appended. */
  lemma MarkersOfPlainName(comp: string)
    requires '_' !in comp
    ensures forall j: nat :: j < |comp| ==> !OccursAt(comp + "_start", "_start", j)
    ensures forall j: nat :: j < |comp| ==> !OccursAt(comp + "_end", "_end", j)
  {
    forall j: nat | j < |comp|
      ensures !OccursAt(comp + "_start", "_start", j) && !OccursAt(comp + "_end", "_end", j)
    {
      var s := comp + "_start";
      var e := comp + "_end";
      assert s[j] == comp[j] && e[j] == comp[j];
      if j + 6 <= |s| {
        assert s[j..j + 6][0] == s[j];
      }
      if j + 4 <= |e| {
        assert e[j..j + 4][0] == e[j];
      }
    }
  }

  /** A speech-to-text, a language-model and a text-to-speech span, timed one
      after the other from a collector with nothing recorded, add up to the
      total, each timing recorded under its component's name. */
  lemma LatenciesAddUp(c0: Collector, c1: Collector, c2: Collector, c3: Collector, c4: Collector, c5: Collector, c6: Collector,
                       s0: real, s1: real, l0: real, l1: real, t0: real, t1: real)
    requires c0.metrics == Init(c0.emitInterval, c0.hasCallback, c0.lastEmit).metrics
    requires c1 == ProcessFrame(c0, Marker("stt" + "_start"), Downstream, s0, false).collector
    requires c2 == ProcessFrame(c1, Marker("stt" + "_end"), Downstream, s1, false).collector
    requires c3 == ProcessFrame(c2, Marker("llm" + "_start"), Downstream, l0, false).collector
    requires c4 == ProcessFrame(c3, Marker("llm" + "_end"), Downstream, l1, false).collector
    requires c5 == ProcessFrame(c4, Marker("tts" + "_start"), Downstream, t0, false).collector
    requires c6 == ProcessFrame(c5, Marker("tts" + "_end"), Downstream, t1, false).collector
    ensures && c6.metrics.sttLatency == (s1 - s0) * 1000.0
            && c6.metrics.llmLatency == (l1 - l0) * 1000.0
            && c6.metrics.ttsLatency == (t1 - t0) * 1000.0
            && c6.metrics.totalLatency == ((s1 - s0) + (l1 - l0) + (t1 - t0)) * 1000.0
            && c6.metrics.componentTimings == map["stt" := (s1 - s0) * 1000.0, "llm" := (l1 - l0) * 1000.0, "tts" := (t1 - t0) * 1000.0]
            && c6.metrics.framesProcessed == 6
  {
    TimedChain(c0, c1, c2, c3, c4, c5, c6, s0, s1, l0, l1, t0, t1);
    ThreeCloses(c0.metrics, (s1 - s0) * 1000.0, (l1 - l0) * 1000.0, (t1 - t0) * 1000.0);
  }

  /** Each of the three spans closes its component on the metrics before it. */
  lemma TimedChain(c0: Collector, c1: Collector, c2: Collector, c3: Collector, c4: Collector, c5: Collector, c6: Collector,
                   s0: real, s1: real, l0: real, l1: real, t0: real, t1: real)
    requires c1 == ProcessFrame(c0, Marker("stt" + "_start"), Downstream, s0, false).collector
    requires c2 == ProcessFrame(c1, Marker("stt" + "_end"), Downstream, s1, false).collector
    requires c3 == ProcessFrame(c2, Marker("llm" + "_start"), Downstream, l0, false).collector
    requires c4 == ProcessFrame(c3, Marker("llm" + "_end"), Downstream, l1, false).collector
    requires c5 == ProcessFrame(c4, Marker("tts" + "_start"), Downstream, t0, false).collector
    requires c6 == ProcessFrame(c5, Marker("tts" + "_end"), Downstream, t1, false).collector
    ensures c2.metrics == Close(c0.metrics.(framesProcessed := c0.metrics.framesProcessed + 2), "stt", (s1 - s0) * 1000.0)
    ensures c4.metrics == Close(c2.metrics.(framesProcessed := c2.metrics.framesProcessed + 2), "llm", (l1 - l0) * 1000.0)
    ensures c6.metrics == Close(c4.metrics.(framesProcessed := c4.metrics.framesProcessed + 2), "tts", (t1 - t0) * 1000.0)
  {
    MarkersOfPlainName("stt");
    MarkersOfPlainName("llm");
    MarkersOfPlainName("tts");
    TimeComponent(c0, "stt", s0, s1, c1, c2);
    TimeComponent(c2, "llm", l0, l1, c3, c4);
    TimeComponent(c4, "tts", t0, t1, c5, c6);
  }

  /** The three components closed in turn on empty metrics. */
  lemma ThreeCloses(m0: PipelineMetrics, a: real, b: real, c: real)
    requires m0 == PipelineMetrics(0.0, 0.0, 0.0, 0.0, 0, 0, map[])
    ensures var m2 := Close(m0.(framesProcessed := m0.framesProcessed + 2), "stt", a);
            var m4 := Close(m2.(framesProcessed := m2.framesProcessed + 2), "llm", b);
            var m6 := Close(m4.(framesProcessed := m4.framesProcessed + 2), "tts", c);
            && m6.sttLatency == a && m6.llmLatency == b && m6.ttsLatency == c
            && m6.totalLatency == a + b + c
            && m6.componentTimings == map["stt" := a, "llm" := b, "tts" := c]
            && m6.framesProcessed == 6
  {
  }

  /** An `_end` marker without a matching `_start` records nothing. */
  lemma UnmatchedEndIgnored(c: Collector, comp: string, dir: Direction, now: real)
    requires forall j: nat :: j < |comp| ==> !OccursAt(comp + "_end", "_end", j)
    requires comp !in c.componentStarts
    ensures ProcessFrame(c, Marker(comp + "_end"), dir, now, false).collector.metrics.componentTimings
            == c.metrics.componentTimings
  {
    ComponentOfMarker(comp, "_end");
  }
}
