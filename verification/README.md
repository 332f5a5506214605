# maestrocat core, modelled in Dafny

maestrocat is a voice-agent framework built on a frame pipeline: audio frames
flow from the microphone through speech-to-text, a language model and
text-to-speech, and processors along the way tap the stream. Its core is the
set of small, deterministic state machines and data operations that sit
between the external services. This project models them as immutable Dafny
datatypes with pure step functions and proves the properties the code
promises about them.

The model covers:

- **Event bus** (`EventBus`, event_emitter.dfy): exact-type publish and
  subscribe, a bounded FIFO history with consecutive event ids, history
  queries with AND-combined filters, and the conversion of system frames into
  events.
- **Interruption handling and metrics** (`Interruption`, `Metrics`,
  `Numbers`): barge-in during playback, the completion ratio and the
  keep-or-drop decision with its `[INTERRUPTED at X%]` marker, and the metrics
  collector's component timings, latency slots and periodic snapshots.
- **Module registry and load order** (`Registry`, `LoadOrder`): the capability
  index, dependency validation, and the depth-first topological load order
  with cycle detection on the current path.
- **Extension points** (`ExtensionPoints`): the fixed stages, priority-sorted
  handler lists that are stable among equal priorities, and hook execution as
  a fail-open fold of the context.
- **Module containers** (`ModuleLoader`, `ModuleService`): load, unload,
  wildcard subscriptions, the running flag, and capability lookups.
- **Context records** (`PipelineContext`, `ConversationState`): histories with
  "last n" queries, nested module data, metadata, metrics and the interruption
  state, and their dictionary forms with the merging `from_dict`.
- **Modules** (`Memory`, `VoiceRecognition`): the bounded short-term memory
  with fact extraction and search, and the mock speaker tracker.
- **Stream taps and codecs** (`TranscriptionEvents`, `RawAudio`, `Wav`,
  `Pcm`, `Chunking`): the transcription event tap, the raw-audio serializer,
  the canonical PCM WAVE writer with a reader to check it against, the 16-bit
  peak amplitude, and the two ways audio is cut into pieces.
- **Service logic** (`WhisperCpp`, `WhisperLive`, `Ollama`, `MacTts`):
  - whisper.cpp: buffering and queueing, and the cleanup of its output;
  - WhisperLive: the message dispatcher and audio streaming;
  - Ollama: the NDJSON token-stream consumer and the framing of responses;
  - macOS: the `say -v ?` voice parser, the voice fallback, and audio
    streaming.

`Common` holds the Python built-ins the components use: slicing,
`str.strip`, `str.split`, `str.lower`, `str.replace`, `in` on strings, and
insertion-ordered dictionaries. `Frames` holds the frames of the external
pipeline runtime, as far as the components read them.

What the model takes as parameters instead of computing:

- **Clock:** the wall clock `time.time()` is the parameter `now`.
- **Foreign code:** callbacks, handlers and module classes are identities,
  with parameters that say whether they raise or what they return.
- **External programs and the network:** these are reduced to their results:
  - the whisper.cpp exit status and output;
  - whether the WebSocket is open;
  - the HTTP error status and the classified NDJSON lines;
  - the `say` listing and synthesis;
  - the file the pyttsx3 engine writes.
- **Floating-point numerics:** clock differences, the completion ratio,
  `elapsed_ms` and the component latencies are binary floats in Python and
  exact reals here (see "Left out"); the numpy volume scaling and
  WhisperLive's normalisation are function parameters.
- **Timestamps:** ISO timestamp rendering and parsing are the parameters `iso`
  and `parseIso`.

## Model

| member | source | states |
|---|---|---|
| ConversationState.Init | core/utils/state.py:17-24 | a new state has an empty session id, no turns, no current speaker and empty profile and context |
| ConversationState.AddTurn | core/utils/state.py:26-34 | exactly one turn is appended, carrying the speaker, the text, the current time and the metadata (`{}` when falsy); earlier turns and every other field are unchanged |
| ConversationState.GetHistory | core/utils/state.py:36-40 | a positive limit gives the last `min(limit, n)` turns, a negative one drops the first `-limit` (Python's `[-limit:]`), and a missing or zero limit gives every turn |
| ConversationState.HistoryAfterAddTurn | core/utils/state.py:26-40 | after adding a turn, the last `n + 1` turns are the last `n` from before followed by the new turn |
| ConversationState.ToDict | core/utils/state.py:42-58 | the dictionary has exactly the five documented keys and one entry per turn |
| ConversationState.ToDictRoundTrip | core/utils/state.py:42-58 | the dictionary form loses nothing: reading it back gives the same state, turns in order |
| RawAudio.Type | core/serializers/raw_audio_serializer.py:13-16 | the serializer is binary |
| RawAudio.Serialize | core/serializers/raw_audio_serializer.py:18-22 | no frame is ever serialised |
| RawAudio.Deserialize | core/serializers/raw_audio_serializer.py:24-47 | a frame comes back exactly for a bytes message, and it is a 16 kHz mono input audio frame holding those bytes; text, JSON or not, and any other object give nothing |
| RawAudio.DeserializeRoundTrip | core/serializers/raw_audio_serializer.py:24-34 | every 16 kHz mono input frame is recovered exactly from its bytes, and every deserialised frame re-encodes to the message it came from |
| VoiceRecognition.Init | core/modules/voice_recognition.py:14-17 | a new module knows no voices and has no current speaker |
| VoiceRecognition.IdentifySpeaker | core/modules/voice_recognition.py:35-38 | the mock identifier reports `user_1` for any audio |
| VoiceRecognition.OnEvent | core/modules/voice_recognition.py:19-33 | `audio_processed` makes `user_1` the current speaker; `transcription_complete` with a current speaker tags a dictionary payload with `speaker_id` and raises for any other payload; every other event changes nothing |
| VoiceRecognition.TagSpeaker | core/modules/voice_recognition.py:33 | item assignment adds `speaker_id` to a dictionary and raises for any other value |
| VoiceRecognition.AudioThenTranscriptionTagged | core/modules/voice_recognition.py:19-33 | after any audio event, a following transcription is tagged with the mock speaker |
| VoiceRecognition.NoSpeakerNoTag | core/modules/voice_recognition.py:30-33 | before any audio, a transcription passes through untagged |
| VoiceRecognition.RegisterVoice | core/modules/voice_recognition.py:40-44 | the voice is stored with its sample count, replacing an earlier entry of that name; other voices and the current speaker are unchanged |
| VoiceRecognition.OnEventAsWritten | core/modules/voice_recognition.py:19-33 | as written, the state change is that of `on_event`, and a `NameError` follows exactly when an audio event changes the speaker |
| VoiceRecognition.RegisterVoiceAsWritten | core/modules/voice_recognition.py:40-44 | as written, the voice is stored and every call then raises `NameError` |
| VoiceRecognition.FirstAudioRaisesNameError | core/modules/voice_recognition.py:24-28 | the first audio event of a fresh module sets the speaker and then raises `NameError` |
| TranscriptionEvents.UserIdOf | core/processors/transcription_events.py:41 | the reported user id is never empty and is the frame's own id when that is set |
| TranscriptionEvents.ProcessFrame | core/processors/transcription_events.py:22-46 | start and end frames go to the base class only; every other frame is forwarded; a transcription with text announces exactly one `transcription_final` event with its text, confidence 1.0, the time and the user id, and only when there is a bus |
| TranscriptionEvents.ProcessAllAnnouncesTranscriptions | core/processors/transcription_events.py:22-46 | over a stream, every frame but the start and end frames is forwarded in order, exactly the non-empty transcriptions are announced in order, and the bus count grows by the number announced |
| EventBus.Init | core/processors/event_emitter.py:21-33 | a new bus has an empty history, count 0 and no subscribers, and satisfies the bus invariant |
| EventBus.Subscribe | core/processors/event_emitter.py:35-37 | the callback is appended to its type's list; every other type's list and the history are unchanged |
| EventBus.RemoveFirst | core/processors/event_emitter.py:42 | `list.remove` drops exactly the first occurrence: one element fewer, the same multiset minus that callback |
| EventBus.Unsubscribe | core/processors/event_emitter.py:39-42 | an absent callback changes nothing; otherwise its first registration under that type is removed, and nothing else changes |
| EventBus.UnsubscribeUndoesSubscribe | core/processors/event_emitter.py:35-42 | subscribing a callback that was not there and then unsubscribing it restores the list |
| EventBus.Deliver | core/processors/event_emitter.py:56-64 | every subscriber is invoked once in order, whether or not earlier ones raised |
| EventBus.Emit | core/processors/event_emitter.py:44-71 | the event gets the current count as id and the time as timestamp; the count grows by one; the history is the newest `min(n + 1, buffer_size)` events ending with it; only the callbacks registered under exactly that type are invoked; a JSON text frame is pushed when emitting as frames |
| EventBus.EmitKeepsInv | core/processors/event_emitter.py:32-54 | emitting keeps the history bounded by the buffer size, newest last and consecutively numbered up to the count |
| EventBus.EmitKeepsTimesOrdered | core/processors/event_emitter.py:46-54 | when the clock does not run backwards, the stored timestamps stay in order |
| EventBus.CallbackFailureIsolated | core/processors/event_emitter.py:57-64 | what the callbacks do (raise or not) changes neither the bus state nor how many callbacks run |
| EventBus.ProcessFrame | core/processors/event_emitter.py:73-85 | a start frame emits `pipeline_started`, an end frame `pipeline_ended`, a system frame an event named after it; any other frame leaves the bus unchanged; the frame itself is always forwarded last |
| EventBus.GetEventHistory | core/processors/event_emitter.py:87-108 | the result is the last `limit` stored events that match both the type and the strictly-later-than filters; an empty type, a zero timestamp or a zero limit disables its filter |
| EventBus.HistoryFiltersCombine | core/processors/event_emitter.py:96-102 | filtering by type and then by time equals filtering once by their conjunction |
| EventBus.HistoryUnfiltered | core/processors/event_emitter.py:87-108 | with no filter and no limit the whole history comes back, oldest first |
| EventBus.NoWildcardDelivery | core/processors/event_emitter.py:57 | emit never fans out to `"*"`: a callback registered only under another type is not invoked |
| Numbers.RoundHalfEven | core/processors/interruption.py:90 | the `:.0%` rounding lands within one half of the value, and on a tie it picks the even neighbour |
| Numbers.IntToString | core/processors/interruption.py:90 | the text reads back as the integer, starts with a minus sign exactly when the integer is negative, and is canonical: no leading zero and no `-0` |
| Numbers.ParseNatToString | core/processors/interruption.py:90 | reading the rendered digits back gives the number, so the percentage text is exact |
| Numbers.PercentText | core/processors/interruption.py:90 | the text is an integer text followed by `%` that reads back as the ratio times one hundred rounded half to even; it starts with a minus sign exactly when the ratio is negative, so a negative ratio that rounds to zero gives `-0%`; every other result is a canonical integer text |
| Interruption.Init | core/processors/interruption.py:21-37 | a new handler is idle, with no start time, a falsy duration, and no response text or tokens |
| Interruption.CompletionRatio | core/processors/interruption.py:65-69 | the ratio is 0 when no start time or no duration is known (falsy) or the duration is not positive (the integer-zero branches), otherwise elapsed time over duration; it raises exactly when a truthy duration is not numeric |
| Interruption.Marker | core/processors/interruption.py:90 | the marker is the bare `[INTERRUPTED]` exactly when the context is not kept; a kept context gets `[INTERRUPTED at ` and `%]` around an integer text that reads back as the rounded percentage and carries a minus sign exactly when the ratio is negative |
| Interruption.ClockStepBackMarksMinusZero | core/processors/interruption.py:68-90 | a clock that stepped back a little since playback started gives ratio -0.001, and the kept context is marked `[INTERRUPTED at -0%]` |
| Interruption.HandleInterruption | core/processors/interruption.py:63-94 | the context is preserved exactly when the ratio is below the threshold; the stop request is pushed first; the callback, when there is one, gets one `interruption` event with the ratio (the integer 0 when no start time or duration is known or the duration is not positive), the decision and the milliseconds up to a second clock reading; the marker follows only when nothing raised; a missing start time with a callback, or a raising callback, stops after the stop request |
| Interruption.ProcessFrame | core/processors/interruption.py:39-61 | `tts_started` starts playback with the time and the frame's duration; `tts_stopped` ends it; `user_started_speaking` during playback runs the interruption, and the frame is forwarded after its pushes only when it did not raise; a downstream text frame becomes the current response with its word count; every other frame is forwarded unchanged |
| Interruption.ProcessFrameKeepsInv | core/processors/interruption.py:43-50 | playback is only ever active after a start time was recorded |
| Interruption.BargeInSucceeds | core/processors/interruption.py:53-94 | in a reachable state with a numeric or falsy duration, an interruption pushes the stop request first; it goes on to push the marker and the frame exactly when the callback does not raise, and a raising callback has received its one event |
| Interruption.InterruptionKeepsPlayback | core/processors/interruption.py:53-54 | an interruption does not end playback, so a second barge-in before `tts_stopped` is handled again |
| Interruption.NoBargeInWhenIdle | core/processors/interruption.py:53 | without active playback the user speaking is forwarded untouched |
| Interruption.PreserveIsMonotone | core/processors/interruption.py:68-72 | within one playback, if an interruption at some time preserves the context, so does any earlier one |
| Interruption.EarlyInterruptionPreserves | core/processors/interruption.py:63-91 | one second into a ten-second playback the ratio is 0.1, the context is preserved, the marker reads `[INTERRUPTED at 10%]` and 1000 ms are reported |
| Interruption.ThresholdIsExclusive | core/processors/interruption.py:72 | exactly at the 0.2 threshold the context is not preserved |
| Interruption.LateInterruptionBreaks | core/processors/interruption.py:72-87 | half-way through the context is not preserved, and without a callback nothing is reported |
| Interruption.EndToEndBargeIn | core/processors/interruption.py:39-91 | a four-second playback interrupted half a second in reports ratio 0.125, preserves the context, elapsed 500 ms, and pushes the stop request first and the frame last |
| Interruption.StartAtZeroGivesZeroRatio | core/processors/interruption.py:65-66 | a playback whose start was recorded at clock value zero counts as not started, so the ratio is 0 |
| Metrics.Init | core/processors/interruption.py:110-141 | a new collector has every metric zero, no timings or starts, and counts its interval from the construction time |
| Metrics.ComponentOf | core/processors/interruption.py:150-154 | removing the suffix never lengthens the name, and a name without the suffix is its own component |
| Metrics.ComponentOfMarker | core/processors/interruption.py:150-154 | a marker built from a component name whose suffix occurs only where it was appended names that component back |
| Metrics.Snapshot | core/processors/interruption.py:185-195 | the snapshot has exactly the seven documented keys, holding the three named latencies, the total, the frame and error counters and a copy of the component timings |
| Metrics.RecordMetrics | core/processors/interruption.py:145-175 | every frame is counted; an `error` marker adds one error; an end marker of a started component records its latency in milliseconds under its name and in its named latency, with the total their sum; nothing else changes |
| Metrics.Close | core/processors/interruption.py:156-172 | a closed component's timing is stored under its name, in the matching named latency when it is `stt`, `llm` or `tts`, and the total becomes the sum of the three |
| Metrics.ProcessFrame | core/processors/interruption.py:143-204 | the frame is counted and recorded; once the interval has elapsed a `metrics_update` frame with the snapshot is pushed first and the callback gets the snapshot; then the emission time moves on and the frame is forwarded, unless the callback raised, which leaves the emission time and forwards nothing; before the interval only the frame is pushed |
| Metrics.RaisingCallbackEmitsAgain | core/processors/interruption.py:177-204 | a raising metrics callback leaves the emission time where it was, so the next frame, at a time no earlier, emits a snapshot again |
| Metrics.ProcessFrameKeepsInv | core/processors/interruption.py:168-172 | the total stays the sum of the three named latencies |
| Metrics.RunCountsFrames | core/processors/interruption.py:145 | over any run every frame is counted exactly once, and the total stays the sum |
| Metrics.RunCountsErrors | core/processors/interruption.py:174-175 | over any run the error count grows by exactly the number of `error` markers |
| Metrics.StartMarkerStep | core/processors/interruption.py:145-151 | a start marker counts the frame and records the start time; nothing else changes |
| Metrics.EndMarkerStep | core/processors/interruption.py:153-172 | an end marker of a started component counts the frame and records its elapsed milliseconds |
| Metrics.TimeComponent | core/processors/interruption.py:149-172 | a start marker at `t0` followed by the end marker at `t1` records `(t1 - t0) * 1000` milliseconds for the component |
| Metrics.MarkersOfPlainName | core/processors/interruption.py:150-154 | a component name without an underscore meets its marker suffixes only where they were appended |
| Metrics.LatenciesAddUp | core/processors/interruption.py:143-172 | timing speech-to-text, language model and text-to-speech one after the other records each latency under its name, with the total their sum, over six counted frames |
| Metrics.UnmatchedEndIgnored | core/processors/interruption.py:155 | an end marker without a matching start records no timing |
| ModuleLoader.Init | core/processors/module_loader.py:42-45 | a new loader has no modules and keeps the given bus |
| ModuleLoader.ModuleName | core/processors/module_loader.py:53 | a module is named by the configuration's `name`, and by its class name when the configuration has none |
| ModuleLoader.GetModule | core/processors/module_loader.py:112-114 | a module is found exactly when its name is loaded, and it is the stored instance |
| ModuleLoader.ListModules | core/processors/module_loader.py:116-118 | the listed names have no duplicates and are exactly the names `get_module` finds |
| ModuleLoader.LoadModule | core/processors/module_loader.py:47-79 | loading fails exactly when constructing or initialising raises, and then changes nothing; otherwise the new enabled instance is stored under its name (replacing one of that name, keeping its place, or appended), other modules are unchanged, its `on_event` is subscribed under `"*"` when there is a bus, and `module_loaded` is pushed |
| ModuleLoader.UnloadModule | core/processors/module_loader.py:81-101 | an unknown name changes nothing and pushes nothing; a raising cleanup propagates; otherwise the name is gone, other modules are unchanged and in order, the module's `on_event` is unsubscribed from `"*"`, and `module_unloaded` is pushed |
| ModuleLoader.UnloadUndoesLoad | core/processors/module_loader.py:47-101 | loading a module under a new name and unloading it restores the loaded modules, their order and the wildcard subscriptions |
| ModuleLoader.ReloadLeavesOldSubscription | core/processors/module_loader.py:63-67 | loading a second module under a taken name keeps the first one's subscription, and unloading removes only the newer one |
| ModuleLoader.RunModules | core/processors/module_loader.py:106-108 | the modules run in order; all of them run exactly when none raises, and otherwise the run stops at the first that raises |
| ModuleLoader.ProcessFrame | core/processors/module_loader.py:103-110 | the modules that ran are a prefix, in loading order, of the enabled modules with a `process_frame`; the frame is forwarded unchanged exactly when none of those raises, and then all of them ran; otherwise the run ends at the first that raises and nothing is forwarded |
| Registry.Empty | core/modules/registry.py:34-36 | a new registry has no modules and a consistent, empty capability index |
| Registry.AddToIndex | core/modules/registry.py:71-74 | the name joins the set of every declared capability (created if absent); every other capability's entry is unchanged |
| Registry.RemoveFromIndex | core/modules/registry.py:91-95 | the name leaves the set of every listed capability, a set that becomes empty is dropped, and every other capability's entry is unchanged |
| Registry.Register | core/modules/registry.py:38-76 | a class without `get_capabilities` or `get_hooks` is refused with the matching `ValueError` text, and only then; otherwise its entry replaces any earlier one under its name and it joins exactly its declared capabilities' lookups |
| Registry.Info | core/modules/registry.py:62-68 | the stored entry keeps the class's capabilities, hooks and dependencies, and its description is the docstring when there is one and otherwise a fixed non-empty text |
| Registry.RegisterKeepsInv | core/modules/registry.py:62-74 | registering under a new name keeps the index in agreement with the declared capabilities |
| Registry.ReRegisterKeepsStaleEntry | core/modules/registry.py:62-74 | registering a name again with fewer capabilities leaves it listed under the capability it no longer declares |
| Registry.Unregister | core/modules/registry.py:78-99 | an unknown name changes nothing; otherwise the entry is deleted and the name leaves exactly its declared capabilities' lookups |
| Registry.UnregisterKeepsInv | core/modules/registry.py:85-98 | unregistering keeps the index consistent and the name is then listed under no capability |
| Registry.UnregisterUndoesRegister | core/modules/registry.py:38-99 | registering a new name and unregistering it gives back the same modules and the same capability lookups |
| Registry.GetModulesByCapability | core/modules/registry.py:113-123 | with a consistent index, the result is exactly the registered modules that declare the capability, and empty for an unknown one |
| Registry.ValidateDependencies | core/modules/registry.py:133-154 | an unknown module is invalid with one `not found` message; otherwise the missing dependencies are listed in declaration order, and the module is valid exactly when none is missing |
| LoadOrder.Visit | core/modules/registry.py:180-196 | a successful visit finishes the node after everything it requires, extends the finished list without reordering it, and keeps every finished node after its requested dependencies |
| LoadOrder.VisitDeps | core/modules/registry.py:191-193 | visiting the node's dependencies in order finishes every requested one and ignores those outside the request |
| LoadOrder.StartKeepsValid | core/modules/registry.py:187-189 | entering an unvisited node puts it on the path and keeps the traversal state valid |
| LoadOrder.FinishKeepsValid | core/modules/registry.py:195-196 | finishing a node whose requested dependencies are all finished keeps every finished node after its dependencies |
| LoadOrder.VisitAll | core/modules/registry.py:198-202 | visiting every requested name finishes each of them exactly once, dependencies first |
| LoadOrder.GetLoadOrder | core/modules/registry.py:156-202 | a successful order lists every requested name exactly once, each after its requested dependencies |
| LoadOrder.VisitErrIsCycle | core/modules/registry.py:184-185 | a failing visit names a node that lies on a dependency cycle |
| LoadOrder.PathCycle | core/modules/registry.py:184-185 | meeting a node of the current path again closes a cycle through it |
| LoadOrder.VisitDepsErrIsCycle | core/modules/registry.py:191-193 | a failure while visiting the dependencies names a node on a cycle |
| LoadOrder.VisitAllErrIsCycle | core/modules/registry.py:198-200 | a failure of the outer loop names a node on a cycle |
| LoadOrder.WalkDescends | core/modules/registry.py:156-202 | along a walk of dependency edges, positions in a dependency-first order strictly decrease |
| LoadOrder.OrderedHasNoCycle | core/modules/registry.py:156-202 | a dependency-first order of all the requested names rules out a cycle among them |
| LoadOrder.LoadOrderFailsIffCycle | core/modules/registry.py:156-202 | the load order is refused exactly when the requested modules' dependencies form a cycle, and the error names a node on one |
| LoadOrder.ChainLoadsDependenciesFirst | core/modules/registry.py:156-202 | the chain C needs B needs A, requested as [C, A, B], loads as [A, B, C] |
| LoadOrder.MutualDependencyFails | core/modules/registry.py:184-185 | two modules that depend on each other are refused |
| LoadOrder.UnrequestedDependencyIgnored | core/modules/registry.py:170-192 | a dependency outside the request is ignored, and a requested name that is not registered still loads |
| ModuleService.Init | core/services/module_service.py:27-32 | a new service has no instances, an empty registry and is not running |
| ModuleService.Start | core/services/module_service.py:34-50 | a running service is left alone; otherwise it runs and tries to initialise exactly the enabled instances, with the instances and the registry unchanged |
| ModuleService.Stop | core/services/module_service.py:52-70 | a stopped service is left alone; otherwise it stops and cleans up every instance, enabled or not, and keeps them all |
| ModuleService.StartStopIdempotent | core/services/module_service.py:34-58 | starting twice is starting once, and stopping twice is stopping once |
| ModuleService.RegisterModuleClass | core/services/module_service.py:72-75 | registration fails exactly when the registry refuses the class; otherwise only the registry changes |
| ModuleService.InstanceName | core/services/module_service.py:99 | the instance name is the class name, an underscore, then the identity's digits |
| ModuleService.LoadModule | core/services/module_service.py:77-111 | an unregistered name or a raising constructor gives `False` and changes nothing; otherwise the new enabled instance is stored under its instance name with the others unchanged, and the result is `False` exactly when the service runs and `initialize` raises, the instance staying stored |
| ModuleService.UnloadModule | core/services/module_service.py:113-136 | the result is `True` exactly when the instance exists and its cleanup does not raise, and then only that instance is removed; otherwise nothing changes |
| ModuleService.UnloadUndoesLoad | core/services/module_service.py:77-136 | loading an instance under a fresh name and unloading it restores the service exactly |
| ModuleService.GetActiveModules | core/services/module_service.py:138-140 | the result holds exactly the enabled instances |
| ModuleService.GetModulesByCapability | core/services/module_service.py:146-153 | the result holds exactly the instances whose class's registry entry lists the capability |
| ModuleService.CapabilityLookupAgrees | core/services/module_service.py:146-153 | with a consistent registry, the service's capability lookup agrees with the registry's own index |
| ModuleService.CapabilityAfterLoad | core/services/module_service.py:77-153 | the lookup keeps loading order: an instance loaded under a fresh name comes after every earlier result, and only when its class provides the capability |
| ExtensionPoints.PointOf | core/pipeline/extension_points.py:15-41 | looking a point up by its value finds the point carrying that value |
| ExtensionPoints.PointValueRoundTrip | core/pipeline/extension_points.py:15-41 | every point's value leads back to the point |
| ExtensionPoints.PointValueInjective | core/pipeline/extension_points.py:15-41 | distinct points have distinct values |
| ExtensionPoints.AllPointsComplete | core/pipeline/extension_points.py:15-41 | iterating over the enumeration visits every point exactly once |
| ExtensionPoints.PipelineOrder | core/pipeline/extension_points.py:43-59 | the pipeline order has twelve distinct points, from pipeline start to pipeline end, without the interruption and error points |
| ExtensionPoints.PipelineOrderComplete | core/pipeline/extension_points.py:43-59 | a point is in the pipeline order exactly when it is neither interruption nor error |
| ExtensionPoints.NewHandler | core/pipeline/extension_points.py:65-74 | a new wrapper carries its handler, module, priority and timeout, and starts enabled |
| ExtensionPoints.Execute | core/pipeline/extension_points.py:76-94 | a disabled handler passes its context through unrun; an enabled one returns what the handler returns, and after a raise or a timeout the context as the handler left it, which is the input when the handler did not change it |
| ExtensionPoints.Init | core/pipeline/extension_points.py:108-112 | a new manager has an empty handler list for every point and no metrics |
| ExtensionPoints.InsertByPriority | core/pipeline/extension_points.py:131-134 | inserting keeps every handler and adds the new one, nothing else |
| ExtensionPoints.InsertKeepsSorted | core/pipeline/extension_points.py:131-134 | inserting into a priority-sorted list keeps it sorted |
| ExtensionPoints.InsertIsStable | core/pipeline/extension_points.py:131-134 | as the stable sort does, among handlers of equal priority the newly registered one comes last and the others keep their order |
| ExtensionPoints.RegisterHook | core/pipeline/extension_points.py:114-136 | the point's list gains exactly the new enabled wrapper, stays sorted by priority with registration order among equals, and every other point's list and the metrics are unchanged |
| ExtensionPoints.FilterKeepsSorted | core/pipeline/extension_points.py:140-143 | dropping handlers keeps a sorted list sorted |
| ExtensionPoints.UnregisterHook | core/pipeline/extension_points.py:138-144 | exactly the module's handlers at that point are dropped, the rest keep their order, and other points are unchanged |
| ExtensionPoints.UnregisterAt | core/pipeline/extension_points.py:146-149 | unregistering at each listed point drops the module's handlers there and leaves the other points unchanged |
| ExtensionPoints.UnregisterModule | core/pipeline/extension_points.py:146-149 | the module has no handler left at any point, and every other handler stays in order |
| ExtensionPoints.SetEnabled | core/pipeline/extension_points.py:211-220 | exactly the module's handlers get the new flag; order and members stay |
| ExtensionPoints.SetEnabledAt | core/pipeline/extension_points.py:210-213 | the flag changes at the listed points only |
| ExtensionPoints.SetHandlerEnabled | core/pipeline/extension_points.py:208-220 | enabling or disabling acts at the given point, or at every point when none is given, and touches nothing else |
| ExtensionPoints.SetEnabledKeepsSorted | core/pipeline/extension_points.py:208-220 | changing the enabled flag changes no priority, so a sorted list stays sorted |
| ExtensionPoints.SetHandlerEnabledKeepsInv | core/pipeline/extension_points.py:208-220 | enabling or disabling keeps every list sorted |
| ExtensionPoints.RecordTimes | core/pipeline/extension_points.py:176-179 | every run handler's module gets a timing under the point's value, and no module or timing key recorded earlier is lost |
| ExtensionPoints.RecordedTimeIsLast | core/pipeline/extension_points.py:171-179 | a module keeps at the point the time of its last handler in the list |
| ExtensionPoints.RecordTimesKeepsOthers | core/pipeline/extension_points.py:176-179 | a module none of whose handlers ran keeps its timings |
| ExtensionPoints.RecordTimesKeepsOtherPoints | core/pipeline/extension_points.py:176-179 | a module's timings at other points are kept |
| ExtensionPoints.ExecuteHooks | core/pipeline/extension_points.py:151-181 | with no handlers the context and the manager are unchanged; otherwise the context is folded through the handlers in list order, a timing is recorded for each, and the lists are unchanged |
| ExtensionPoints.FoldConcat | core/pipeline/extension_points.py:171-173 | running one list and then another is running them joined |
| ExtensionPoints.DisabledAreSkipped | core/pipeline/extension_points.py:78-173 | disabled handlers are skipped without disturbing the others: the result is that of the enabled handlers alone |
| ExtensionPoints.AllFailingLeavesContext | core/pipeline/extension_points.py:89-173 | fail-open: when every handler raises or times out without changing the context it was given, the input context comes out unchanged |
| ExtensionPoints.TwoHandlersCompose | core/pipeline/extension_points.py:171-173 | each handler receives the previous handler's result |
| PipelineContext.Init | core/context/pipeline_context.py:32-55 | a new context has no history, no transcription or response, is not interrupted, has empty metadata and module data, and exactly the four latency metrics at 0.0 |
| PipelineContext.OrEmpty | core/context/pipeline_context.py:65-76 | `metadata or {}` keeps truthy metadata and replaces a falsy one by an empty dictionary |
| PipelineContext.AddUserMessage | core/context/pipeline_context.py:59-68 | exactly one user message is appended with the content, the time and the metadata, the content becomes the current transcription, and nothing else changes |
| PipelineContext.AddAssistantMessage | core/context/pipeline_context.py:70-79 | exactly one assistant message is appended, the content becomes the language-model response, and nothing else changes |
| PipelineContext.GetConversationHistory | core/context/pipeline_context.py:81-86 | a positive limit gives the last `min(limit, n)` messages, a negative one drops the first `-limit`, and no limit gives all of them |
| PipelineContext.LastMessageFirstInTail | core/context/pipeline_context.py:59-86 | after adding a user message, the history with limit 1 is that message alone |
| PipelineContext.ClearConversationHistory | core/context/pipeline_context.py:88-93 | the history, the transcription and the response are cleared, and nothing else changes |
| PipelineContext.GetModuleData | core/context/pipeline_context.py:97-112 | without a key the module's whole entry (an empty dictionary for an unknown module) comes back; with a key, that key's value or `None`; it raises exactly when a key is asked of a stored entry that is not a dictionary |
| PipelineContext.SetModuleData | core/context/pipeline_context.py:114-126 | the module's map is created if missing and the key then reads back the value; other modules and every other field are unchanged; a non-dictionary entry raises |
| PipelineContext.UpdateModuleData | core/context/pipeline_context.py:128-139 | every key of the update reads back its new value, every other key of the module keeps its old one, and other modules are unchanged |
| PipelineContext.SetIsSingleUpdate | core/context/pipeline_context.py:114-139 | setting one key is updating with a one-key dictionary |
| PipelineContext.GetMetadata | core/context/pipeline_context.py:143-146 | a stored key gives its value and a missing one the default |
| PipelineContext.SetMetadata | core/context/pipeline_context.py:148-151 | the key reads back the value afterwards and every other key reads as before |
| PipelineContext.UpdateMetadata | core/context/pipeline_context.py:153-156 | every updated key reads its new value and every other key reads as before |
| PipelineContext.UpdateMetric | core/context/pipeline_context.py:160-163 | only the named metric changes |
| PipelineContext.UpdateMetricKeepsSlots | core/context/pipeline_context.py:47-163 | the four latency metrics are never lost |
| PipelineContext.SetInterrupted | core/context/pipeline_context.py:172-181 | the interruption state reads back the flag and the context given, and nothing else changes |
| PipelineContext.ToDict | core/context/pipeline_context.py:185-205 | the history is listed in order, one dictionary per message, with its timestamp rendered as ISO text |
| PipelineContext.MessageOf | core/context/pipeline_context.py:216-222 | a message is rebuilt only from a dictionary with role, content and timestamp, and keeps the stored role and content |
| PipelineContext.LoadMessages | core/context/pipeline_context.py:216-223 | messages are appended in order up to the first one that raises, and all are appended exactly when none raises |
| PipelineContext.FromDict | core/context/pipeline_context.py:207-232 | history, transcription, response, metadata and module data are cleared first, and the history is reloaded up to the first message that raises; a raise there leaves the rest cleared and the interruption fields as they were; otherwise the scalar fields are loaded, then metadata and module data, each what `update` makes of the given value, module data staying empty when the metadata raises; the metrics are merged into the existing ones and stay untouched when an earlier step raised; the load completes exactly when the data is loadable |
| PipelineContext.Merge | core/context/pipeline_context.py:230-232 | `dict.update` completes exactly for a dictionary, a list of key/value pairs or the empty string; a dictionary's entries win over the existing ones, an empty list or string adds nothing, any other scalar changes nothing, and no existing key is lost |
| PipelineContext.MergePairs | core/context/pipeline_context.py:230-232 | the pairs of a list are stored in order up to the first item that is not a pair; it completes exactly when every item is a pair, and then the last pair's value is stored under its key |
| PipelineContext.MergeOnePair | core/context/pipeline_context.py:230 | a list holding one pair sets that key |
| PipelineContext.MetadataAsPairs | core/context/pipeline_context.py:207-230 | metadata given as a list of pairs loads like the same entries given as a dictionary |
| PipelineContext.LoadMessagesOfToDict | core/context/pipeline_context.py:185-223 | the dictionary form's history loads back to the same messages when `fromisoformat` inverts `isoformat` |
| PipelineContext.ToDictFields | core/context/pipeline_context.py:185-205 | the dictionary form holds the context's scalar fields and its metadata, module-data and metrics maps themselves (shared, not copied) |
| PipelineContext.FromDictToDict | core/context/pipeline_context.py:185-232 | loading one context's dictionary form into another context restores every field, with the metrics merged into the receiver's |
| PipelineContext.FromDictRestoresExactly | core/context/pipeline_context.py:185-232 | when the receiving context is another one with no extra metrics, the round trip restores the context exactly |
| PipelineContext.FromDictKeepsExtraMetrics | core/context/pipeline_context.py:232 | metrics are merged, not replaced: one present only in the receiver survives a load |
| PipelineContext.ReloadOwnDictEmpties | core/context/pipeline_context.py:185-232 | reloading a context from its own live dictionary, as written, restores everything except the metadata and module data, which come back empty |
| PipelineContext.ReloadOwnDictLosesMetadata | core/context/pipeline_context.py:202-231 | a context with metadata is not restored by reloading its own live dictionary |
| PipelineContext.ReloadCopyRestores | core/context/pipeline_context.py:185-232 | reloading a context from a copy of its dictionary gives the context back unchanged |
| Memory.Init | core/modules/memory.py:17-27 | a fresh module keeps the invariant with an empty history and no facts |
| Memory.NameOf | core/modules/memory.py:64-69 | the name taken is one word with no whitespace in it, and there is none exactly when the text after the last `my name is` is blank |
| Memory.LikeOf | core/modules/memory.py:72-73 | without the exact phrase `i like`, the whole stripped text is taken |
| Memory.NameFollowsLastPhrase | core/modules/memory.py:64-69 | the name is the first word after the last `my name is`: blanks, then a word, then text that does not glue onto it and has no further phrase, yield exactly that word |
| Memory.LikeFollowsLastPhrase | core/modules/memory.py:71-73 | the liking is the stripped text after the last `i like` |
| Memory.ApplyName | core/modules/memory.py:66-69 | the name rule raises exactly when the lower-cased text mentions a name but nothing follows it; otherwise it sets the `name` fact to that name, or leaves the facts alone when no name is mentioned |
| Memory.ApplyLike | core/modules/memory.py:71-76 | the like rule raises exactly when it fires and the stored `likes` is not a list; otherwise it appends the liked thing to the list, creating it if absent, or leaves the facts alone |
| Memory.ExtractFacts | core/modules/memory.py:59-76 | extraction raises exactly when the name rule finds a blank remainder or the like rule meets a `likes` that is not a list; a raising name rule leaves the facts alone; a name that was found is stored even when the like rule then raises; the liking is appended only when nothing raised; every other fact is unchanged |
| Memory.ExtractsFollowingName | core/modules/memory.py:64-69 | a text with `my name is` followed by a word stores that word as the name fact, whatever else extraction does |
| Memory.CapitalisedPhraseTakesFirstWord | core/modules/memory.py:64-69 | a phrase found only after lower-casing (`My name is Ann`) makes the split miss, so the first word of the whole text becomes the name |
| Memory.NamePhraseIsLower | core/modules/memory.py:67 | the name phrase is already lower case |
| Memory.SplitLastOfPhrase | core/modules/memory.py:68 | the text after the phrase in the phrase alone is empty |
| Memory.PhraseAloneRaises | core/modules/memory.py:68 | `my name is` with nothing after it raises `IndexError` |
| Memory.OnEvent | core/modules/memory.py:33-57 | a user transcription appends a user entry with the event data as metadata and then leaves the facts as extraction leaves them, raise or not; a language-model response appends an assistant entry; other events change nothing; the deque keeps its bound; a save is due exactly when nothing raised, saving is on and the length is a multiple of ten |
| Memory.FullDequeDropsOldest | core/modules/memory.py:47-53 | once the deque is full, a new entry drops exactly the oldest and the length stays the same |
| Memory.UnrelatedEventSavesEmptyMemory | core/modules/memory.py:55-57 | an unrelated event on an empty memory still triggers a save, since 0 is a multiple of ten |
| Memory.GetContext | core/modules/memory.py:78-86 | a positive count gives the last entries, 0 gives the whole history (`[-0:]`), a negative count drops the first entries; the facts and the history length come along |
| Memory.SearchMemory | core/modules/memory.py:88-97 | the result holds exactly the entries whose text contains the query ignoring case; an entry whose text is not a string raises |
| Memory.SearchAfterAppend | core/modules/memory.py:88-97 | results come in stored order: with one more entry whose text is a string, the search gives the earlier results followed by that entry exactly when it matches |
| Memory.SearchIgnoresQueryCase | core/modules/memory.py:88-97 | searching for the lower-cased query gives the same result as the query itself |
| WhisperCpp.RemoveArtifacts | core/services/whispercpp_stt.py:255-257 | removing artifacts never lengthens the text, and a text that contains none of them is unchanged |
| WhisperCpp.CleanOutput | core/services/whispercpp_stt.py:248-269 | a failed run, or output of at most one character after stripping, gives nothing; a text that is kept is non-empty, has no surrounding whitespace and is no longer than the stripped output |
| WhisperCpp.ArtifactsNonEmpty | core/services/whispercpp_stt.py:255 | every artifact marker is non-empty |
| WhisperCpp.CleanKeepsSpeech | core/services/whispercpp_stt.py:248-261 | output with no artifacts is kept exactly as the stripped output |
| WhisperCpp.RemoveOnlyArtifact | core/services/whispercpp_stt.py:256-257 | a text that is exactly the first artifact is removed entirely |
| WhisperCpp.BlankAudioDropped | core/services/whispercpp_stt.py:253-261 | output holding only `[BLANK_AUDIO]`, with any whitespace around it, gives no transcription |
| WhisperCpp.RemoveArtifactsOfLeading | core/services/whispercpp_stt.py:255-257 | removing the markers from a text that opens with one marker and has no further `[` leaves the rest of the text |
| WhisperCpp.LeadingArtifactRemoved | core/services/whispercpp_stt.py:248-261 | output opening with a marker followed by speech without markers gives that speech stripped, and nothing when only blanks follow the marker |
| WhisperCpp.ProcessAudioChunk | core/services/whispercpp_stt.py:204-269 | a chunk too long for a WAVE header gives nothing; otherwise the result is the cleaned output of running the program on the WAVE file of the chunk |
| WhisperCpp.HandleTranscription | core/services/whispercpp_stt.py:303-317 | an empty text pushes nothing, and any other text pushes one transcription frame from `user` downstream |
| WhisperCpp.ProcessFrame | core/services/whispercpp_stt.py:319-358 | a non-audio frame is passed on unchanged; audio with an odd byte count is buffered and then raises; otherwise the cut pieces and the new buffer together are the old buffer plus the audio, each piece is one second long, the buffer stays shorter than that, and exactly the pieces whose true peak (`Pcm.Peak`, not the wrapped `int16` one) is loud are queued, in order |
| WhisperCpp.ChunkSize | core/services/whispercpp_stt.py:334 | a piece is a whole number of two-byte samples, one second of them at the sample rate, and it is positive exactly when the rate is |
| WhisperCpp.QueuedIffLoud | core/services/whispercpp_stt.py:340-352 | a cut piece is queued if and only if its true peak, with -32768 counting as 32768, is above 1000 |
| WhisperCpp.EvenSum | core/services/whispercpp_stt.py:329 | two even byte counts add up to an even count, so a merged frame never raises |
| WhisperCpp.TwoFramesAsOne | core/services/whispercpp_stt.py:326-352 | two audio frames in a row cut and queue the same pieces, and leave the same buffer, as one frame carrying both frames' audio |
| WhisperCpp.BufferStaysShort | core/services/whispercpp_stt.py:336-338 | the buffer stays shorter than one piece from frame to frame |
| WhisperLive.HandleTranscription | core/services/whisperlive_stt.py:158-175 | an empty text pushes nothing; any other text pushes a transcription frame from `user`, followed by the `transcription_complete` marker exactly when the text is final |
| WhisperLive.SegmentsInOrder | core/services/whisperlive_stt.py:126-134 | well-formed segments yield, for each segment with text and in segment order, a transcription and then the completion marker, and nothing raises |
| WhisperLive.FinalFramesCons | core/services/whisperlive_stt.py:130-134 | the frames for a list of final texts are the first text's frames followed by the rest's |
| WhisperLive.TypedText | core/services/whisperlive_stt.py:140-148 | a falsy text pushes nothing, and a non-empty string text is handled with the message's finality |
| WhisperLive.HandleMessage | core/services/whisperlive_stt.py:118-156 | a message for another client does nothing; otherwise `segments` takes precedence over `type`, `transcript` is final and `partial` is not, and any other message pushes nothing |
| WhisperLive.PartialIsNotFinal | core/services/whisperlive_stt.py:145-175 | a partial transcription for this client pushes one transcription frame without the completion marker |
| WhisperLive.ForeignMessageIgnored | core/services/whisperlive_stt.py:121-123 | a message carrying another client's uid does nothing, whatever else it holds |
| WhisperLive.ProcessFrame | core/services/whisperlive_stt.py:201-264 | a non-audio frame is passed on; audio with an odd byte count raises before it is buffered; otherwise the cut pieces and the new buffer are the old buffer plus the audio, every piece is 8192 bytes and the buffer stays shorter, and while the socket is open each piece is sent, scaled down exactly when its true peak (`Pcm.Peak`, not the wrapped `int16` one) is above 16384 |
| WhisperLive.QuietAudioUnchanged | core/services/whisperlive_stt.py:228-252 | with the socket open and no piece peaking above 16384, the bytes sent followed by the buffer are exactly the buffered audio |
| WhisperLive.Prepare | core/services/whisperlive_stt.py:236-247 | a piece with a sample whose magnitude is above 16384 is sent normalised, and any other piece is sent as it is |
| WhisperLive.FullScaleNegativeSentUnscaled | core/services/whisperlive_stt.py:240-241 | a piece of samples all -32768 is sent unscaled as written, while its true peak calls for scaling |
| WhisperLive.PrepareAgreesAwayFromMostNegative | core/services/whisperlive_stt.py:236-247 | without a -32768 sample the piece is prepared the same as written and corrected |
| Ollama.StepOf | core/services/ollama_llm.py:161-192 | an empty or unparsable line is skipped; a JSON line that is not an object stops the stream exactly when `"error" in data` holds for it (a list item or a substring) and raises otherwise; objects are read by `Ollama.ObjectStep`; a token that is yielded is never empty |
| Ollama.ObjectStep | core/services/ollama_llm.py:166-189 | an object stops the stream exactly when it has an `error` key; otherwise a yielded token is never empty |
| Ollama.ContentOf | core/services/ollama_llm.py:173-174 | a token value is found exactly when the message is a dictionary with a `content` key, and it is that entry; a message that is not a dictionary raises exactly when the `in` test cannot be made or finds `content` in a string or list; no message means no token |
| Ollama.Continue | core/services/ollama_llm.py:161-189 | continuing the stream with one step keeps every yielded token non-empty |
| Ollama.Consume | core/services/ollama_llm.py:161-192 | every token the stream yields is non-empty |
| Ollama.ConsumeCons | core/services/ollama_llm.py:161-192 | the stream of a line followed by more lines is that line's step continued by the stream of the rest |
| Ollama.ConsumeLines | core/services/ollama_llm.py:159-192 | the loop as written yields exactly the tokens of the stream and raises exactly when it does, and `full_response` is all the tokens joined |
| Ollama.ConcatSnoc | core/services/ollama_llm.py:176 | appending a token to the reply extends it by that token |
| Ollama.ReplyNonEmptyIffTokens | core/services/ollama_llm.py:175-195 | the reply is non-empty if and only if some token was yielded |
| Ollama.SkippedLinesIgnored | core/services/ollama_llm.py:162-192 | removing empty and unparsable lines does not change the stream |
| Ollama.NothingReadAfterEnd | core/services/ollama_llm.py:168-189 | no line after an error object, a raise or a `done` object is read |
| Ollama.DoneYieldsItsToken | core/services/ollama_llm.py:173-189 | a `done` object yields its own token before the stream ends |
| Ollama.TextFrames | core/services/ollama_llm.py:185 | one text frame per token, in order |
| Ollama.Chunks | core/services/ollama_llm.py:179-183 | one `llm_response_chunk` notice per token, in order |
| Ollama.Generate | core/services/ollama_llm.py:114-214 | an error status raises before any token and leaves the context alone; otherwise every token becomes a text frame, and the reply joined from the tokens is appended as the assistant's message exactly when it is non-empty and the stream did not raise; without a bus no notices are sent |
| Ollama.AssistantAppendedIffTokens | core/services/ollama_llm.py:195-199 | the context grows by one message if and only if the stream did not raise and yielded some token, and that message is the assistant's with all the tokens joined |
| Ollama.ProcessFrame | core/services/ollama_llm.py:221-250 | a non-context frame is forwarded; for a context frame whose announcement raises, nothing is pushed, the context is unchanged and the error leaves `process_frame`; otherwise the last user message is announced as `transcription_final` when there is a bus and that text is not blank, then the response frames are pushed in order between exactly one start frame and one end frame, and the context and the raise are those of the generation |
| Ollama.LastUserContent | core/services/ollama_llm.py:231-234 | there is a user content exactly when some message has the `user` role, and it is the `content` value of the last such message, `""` when it has none |
| Ollama.UserAnnouncement | core/services/ollama_llm.py:229-241 | with a bus, a last user content that is truthy but not a string raises `AttributeError` at `strip`, and only then; otherwise at most one `transcription_final` notice, made exactly when there is a bus, some user message, and the last user content is a non-blank string, which it carries |
| Ollama.ContentPartsRaiseBeforeStart | core/services/ollama_llm.py:229-243 | with a bus, a last user message whose content is a list of content parts raises before the `try`, so no start or end frame is pushed and the context is unchanged |
| Ollama.BracketedEvenOnError | core/services/ollama_llm.py:243-248 | when the request fails, the frame raises; once the announcement has not raised, the start and the end frames are still both pushed, and nothing between them |
| Pcm.Int16 | core/services/whispercpp_stt.py:341 | a two-byte little-endian sample is a signed 16-bit value |
| Pcm.Peak | core/services/whispercpp_stt.py:341-342 | the peak is at least the magnitude of every sample, is the magnitude of some sample, and is 0 for a buffer without samples |
| Pcm.FullScaleNegativeLooksQuiet | core/services/whispercpp_stt.py:342 | for a buffer of samples all -32768 the peak as computed is -32768 while the true peak is 32768 |
| Pcm.PeakAsWrittenAgrees | core/services/whisperlive_stt.py:237-241 | without a -32768 sample, the peak as computed equals the true peak |
| Wav.Ascii | core/services/whispercpp_stt.py:284-299 | a tag's bytes are its characters, one byte each |
| Wav.LeU16 | core/services/whispercpp_stt.py:291-296 | `struct.pack('<H')` gives two bytes |
| Wav.LeU32 | core/services/whispercpp_stt.py:285-300 | `struct.pack('<I')` gives four bytes |
| Wav.LeU16Decodes | core/services/whispercpp_stt.py:291 | a packed 16-bit field reads back as the value packed |
| Wav.LeU32Decodes | core/services/whispercpp_stt.py:285 | a packed 32-bit field reads back as the value packed |
| Wav.U32AtEncodes | core/services/whispercpp_stt.py:285 | any four bytes are the packing of the value they read as |
| Wav.U16AtEncodes | core/services/whispercpp_stt.py:291 | any two bytes are the packing of the value they read as |
| Wav.WriteWav | core/services/whispercpp_stt.py:271-301 | the file is written exactly when every field fits its width; it is the 44-byte header, with its tags, sizes, format, channel count, rate, byte rate, block alignment and sample width, followed by the audio unchanged |
| Wav.WriteThenParse | core/services/whispercpp_stt.py:271-301 | reading a written file back gives the sample rate and the audio |
| Wav.ParseThenWrite | core/services/whispercpp_stt.py:271-301 | any file of the writer's shape is what the writer produces for its sample rate and audio |
| Chunking.Cut | core/services/whispercpp_stt.py:336-338 | the pieces cut and the remainder together are the buffer, every piece is full size, and the remainder is shorter |
| Chunking.CutConcat | core/services/whisperlive_stt.py:228-234 | cutting a buffer, then cutting the remainder together with more bytes, gives the pieces of cutting all the bytes at once |
| Chunking.CutFull | core/services/whispercpp_stt.py:336-338 | the cutting loop computes exactly the pieces and the remainder of the cut |
| Chunking.Pieces | core/services/macos_tts.py:205-220 | the streamed pieces are non-empty, at most the piece size, full size except possibly the last, and together they are the audio |
| Chunking.PiecesStep | core/services/macos_tts.py:207-220 | the pieces from an offset are the slice at that offset followed by the pieces from the next offset |
| Chunking.StreamPieces | core/services/macos_tts.py:205-220 | the streaming loop produces exactly the pieces of the audio |
| MacTts.FirstWords | core/services/macos_tts.py:56-60 | one name per non-blank line, in order: the first whitespace-separated word of that line, non-empty and without whitespace |
| MacTts.AvailableVoices | core/services/macos_tts.py:50-66 | a listing that exits with 0 gives, for each non-blank line of the stripped output in order, that line's first word; any other outcome gives the seven fallback voices |
| MacTts.ChooseVoice | core/services/macos_tts.py:43-46 | the requested voice is kept if and only if it is available or is `Samantha` itself; otherwise `Samantha` is chosen |
| MacTts.FallbackAcceptsItsVoices | core/services/macos_tts.py:43-66 | when the listing fails, a requested voice is kept if and only if it is one of the seven fallback voices |
| MacTts.SplitOnJoin | core/services/macos_tts.py:56 | splitting newline-joined lines that contain no newline gives the lines back |
| MacTts.SplitFirst | core/services/macos_tts.py:56 | splitting stops at the first separator |
| MacTts.FirstWordsOfListing | core/services/macos_tts.py:56-60 | listing lines that each start with a voice name give exactly those names |
| MacTts.ListingParses | core/services/macos_tts.py:50-61 | a successful listing whose lines begin with the voice names gives the names, in order |
| MacTts.ListingLines | core/services/macos_tts.py:56 | the lines of a listing with no surrounding whitespace are the lines that were joined |
| MacTts.JoinFirst | core/services/macos_tts.py:56 | joined text starts with the first piece |
| MacTts.JoinLast | core/services/macos_tts.py:56 | joined text ends with the last piece |
| MacTts.TwoWordLine | core/services/macos_tts.py:58-59 | a line `first second  language` is a listing line for the name `first` |
| MacTts.MultiWordNameTruncated | core/services/macos_tts.py:43-59 | a two-word voice name is recorded under its first word only, so asking for it by its full name falls back to `Samantha` |
| MacTts.ApplyVolume | core/services/macos_tts.py:142-145 | at volume exactly 1.0 the audio is returned unchanged |
| MacTts.AudioFrames | core/services/macos_tts.py:205-220 | one output audio frame per streamed piece, mono and at the service's rate |
| MacTts.AudioFramesCons | core/services/macos_tts.py:206-220 | the first frame carries the first piece, and the rest stream the remainder |
| MacTts.FramesCarryAudio | core/services/macos_tts.py:205-220 | every streamed frame holds between one byte and one piece of audio, and the frames together carry the audio in order |
| MacTts.RunTts | core/services/macos_tts.py:164-224 | blank text, a failed synthesis or empty audio streams nothing; otherwise the audio, at the set volume, is streamed in 100 ms pieces |
| MacTts.ChunkSizeFor | core/services/macos_tts.py:203 | a piece is the largest whole number of bytes not above 100 ms of 16-bit audio (one fifth of the rate, rounded down), and it is positive exactly when the rate is at least 5 |
| MacTts.FullVolumeStreamsAudio | core/services/macos_tts.py:144-220 | at full volume the frames streamed carry exactly the synthesised audio |
| MacTts.RunPyttsx | core/services/macos_tts.py:281-333 | blank text, a missing file or an empty file streams nothing; otherwise the file's bytes are streamed in 4096-byte pieces |
| Common.PyTail | core/modules/memory.py:80 | `s[-k:]` keeps the last `min(k, n)` items for a positive `k` and drops the first `-k` for a negative one |
| Common.BoundedAppend | core/modules/memory.py:25-53 | appending to a bounded deque keeps at most `cap` items: the newest ones, ending with the item appended |
| Common.Filter | core/modules/memory.py:93-95 | the kept items are exactly those that satisfy the test, taken from the input |
| Common.FilterConcat | core/services/whispercpp_stt.py:336-352 | filtering a concatenation is concatenating the filtered parts |
| Common.FilterSnoc | core/modules/memory.py:93-95 | filtering a list with one more item keeps the earlier result and adds the item exactly when it passes |
| Common.Strip | core/services/whispercpp_stt.py:250 | `str.strip()`, with Python's whitespace set, leaves no whitespace at either end and is empty exactly for blank text |
| Common.StripLeftUnique | core/services/whispercpp_stt.py:250 | any suffix that starts with a non-blank after only blanks is the left-stripped text |
| Common.StripRightUnique | core/services/whispercpp_stt.py:250 | any prefix that ends with a non-blank before only blanks is the right-stripped text |
| Common.StripIdempotent | core/services/whispercpp_stt.py:250-259 | stripping twice is stripping once |
| Common.Words | core/modules/memory.py:68 | `str.split()` gives non-empty words without whitespace, and none exactly for blank text |
| Common.WordsCons | core/modules/memory.py:68 | blanks, then a word, then text that starts with whitespace or is empty split into that word followed by the words of the rest |
| Common.FirstWordOf | core/services/macos_tts.py:59 | a word followed by whitespace or nothing is the first word of the split |
| Common.StripAroundWord | core/modules/memory.py:68 | stripping blanks, a word and a rest gives the word followed by the right-stripped rest |
| Common.Lower | core/modules/memory.py:64 | `str.lower()` maps each character through the ASCII and Latin-1 case table, keeping the length |
| Common.LowerIdempotent | core/modules/memory.py:91-94 | lower-casing twice is lower-casing once |
| Common.Find | core/modules/memory.py:67 | an occurrence is found exactly when the text contains the phrase, and it is the first one |
| Common.SplitLast | core/modules/memory.py:68-73 | the last piece of `t.split(sep)` is a suffix of `t`, and `t` itself when the separator is absent |
| Common.SplitLastFollowsSeparator | core/modules/memory.py:68-73 | the last piece holds no separator and, when there is one, directly follows its last occurrence |
| Common.SplitLastAfter | core/modules/memory.py:68-73 | with a separator that cannot overlap itself, the last piece of text ending in the separator and a rest without it is that rest |
| Common.ReplaceAll | core/services/whispercpp_stt.py:257 | `str.replace` leaves text without the pattern unchanged and, replacing by nothing, never lengthens it |
| Common.ReplaceAllFirst | core/services/whispercpp_stt.py:257 | the first occurrence is replaced and the replacing goes on after it |
| Common.RemoveTrailingOccurrence | core/services/whispercpp_stt.py:257 | removing a pattern that follows text without it leaves that text |
| Common.SplitOn | core/services/macos_tts.py:56 | `str.split('\n')` gives at least one piece, and no piece holds the separator |
| Common.JoinSplitOn | core/services/macos_tts.py:56 | joining the pieces of a split with the separator gives the text back |
| Common.Put | core/processors/module_loader.py:63 | storing a key in an insertion-ordered dict sets its value and keeps an existing key's place, or appends a new key at the end |
| Common.Remove | core/processors/module_loader.py:94 | `del d[k]` removes the key and its place and keeps the others in order |
| Common.RemoveUndoesPut | core/processors/module_loader.py:63-94 | deleting a newly stored key gives back the dict as it was |
| Common.Values | core/processors/module_loader.py:106 | the values of an insertion-ordered dict, in key order |

A playback start time of 0 counts as absent in `_handle_interruption`, so an
interruption of playback that started at clock 0 has ratio 0 and always keeps
the partial response (`Interruption.StartAtZeroGivesZeroRatio`).

## Left out

- Base classes: the frame handling that `process_frame` delegates to the pipeline runtime's base classes, and core/modules/base.py, are not part of this model; each modelled `process_frame` starts after the base class has seen the frame.
- Threads and queues: the whisper.cpp worker thread and its queue are concurrency. The model reports which pieces are queued and gives the transcription of one piece (`WhisperCpp.ProcessAudioChunk`).
- whisper.cpp binary discovery and model download are file system and network plumbing. The whisper.cpp `_min_audio_length` is set but never read.
- WhisperLive: the WebSocket connection and receive loop are network I/O, so plain-text and non-object JSON messages are not modelled. `_send_remaining_audio` is never called.
- Ollama: model preloading, the HTTP request itself and the context aggregators are network plumbing. The timestamps and model name in event payloads are clock and configuration values.
- macOS TTS: running `say`, `ffmpeg` and the pyttsx3 engine, and its voice selection, are foreign programs whose results are parameters.
- MacTts.ApplyVolume: states only the full-volume identity; the scaling, clipping and `int16` conversion of other volumes are numpy floating point and a parameter.
- MacTts.ChunkSizeFor: `int(sample_rate * 0.1 * 2)` is computed in binary floating point; the model uses the exact integer `sample_rate / 5` and leaves the rounding of the float product out.
- WhisperLive.ProcessFrame: the scaled bytes of a loud piece are the parameter `normalize`, because the source computes them in floating point.
- WhisperLive.TypedText: a truthy `text` that is not a string is treated as raising, where the pipeline runtime's frame constructor would decide; this does not arise from the JSON the server sends.
- ModuleLoader.ModuleName: a configured `name` that is not a string falls back to the class name; the source would key the module by that non-string value.
- Memory: saving to and loading from disk are file I/O; the model reports when a save is due. The `logger` used on a failed load is unbound in the source, and that path is part of the left-out load.
- VoiceRecognition.OnEvent: models the intended behaviour, in which logging a new speaker succeeds. As written the name `logger` is unbound and the call raises `NameError` after the speaker is stored (see "Findings").
- VoiceRecognition.RegisterVoice: models the intended behaviour; as written every call raises `NameError` after the voice is stored (see "Findings").
- Frames: the class hierarchy assumed is the one the components were written against. `SystemFrame` carries a name and optional data, and raw input audio frames (`InputAudioRawFrame`) are not system frames. In pipecat releases where `InputAudioRawFrame` is a `SystemFrame`, the `isinstance(frame, SystemFrame)` branches at event_emitter.py:80 and interruption.py:43 and :147 would also take input audio; the model does not follow that.
- ModuleService: `broadcast_event` fans out with `asyncio.gather` (concurrency), and `get_context`/`update_context` are plain dictionary access.
- PipelineContext: `get_metrics` returns a copy of the metrics map, and the lock only matters for threads.
- ExtensionPoints: `get_registered_handlers`, `get_metrics` and the `extension_point` decorator are read-only views or a Python decorator.
- Registry: `get_module_info`, `get_all_capabilities`, `get_all_modules` and `to_dict` are reads of the stored state and are not modelled. `get_all_capabilities` builds a new list of the index keys. `get_module_info` returns the live entry itself. `get_all_modules` copies only the outer map and shares the entries. `to_dict` shares each entry's `capabilities` and `dependencies` lists. The model has no aliasing, so a caller that mutates what these return is outside it.
- Interruption: the acknowledgment `asyncio.sleep` and all logging are timing and output only.
- Interruption.CompletionRatio: the ratio is exact real division, where Python divides binary floats. With start 1.0, clock 1.2 and duration 1, Python gets 0.19999999999999996 and keeps the context, while the model gets 0.2 and does not. Monotonicity (`PreserveIsMonotone`) holds either way.
- Interruption.HandleInterruption: `elapsed_ms` is `(later - start) * 1000` in exact reals; the float product can differ in its last bits.
- Interruption.Marker: the percentage is rounded from the exact ratio, so it inherits the float gap of CompletionRatio.
- Numbers.PercentText: `:.0%` is applied to an exact real. Python formats the binary double, which can round a value that sits just below a half differently.
- Metrics.ProcessFrame: one clock reading `now` stands for the separate `time.time()` calls at interruption.py:151, :156 and :178, and latencies are exact reals rather than floats.
- Common.Strip: the whitespace set is Python's `str.isspace` set, written out as ranges; it is not derived from a Unicode database.
- Common.Words: `str.split()` uses the same whitespace set as Common.Strip.
- Common.Lower: only ASCII and Latin-1 capitals are folded. Python's `str.lower()` folds every Unicode capital and can change the length: `'İ'.lower()` has two code points. `Memory.SearchMemory` and the phrase tests in `Memory.ExtractFacts` inherit this.
- PipelineContext.Merge: keys are strings, as every other map in the model; a pair whose key is not a string, and an iterable that is neither a list nor a string, are treated as raising.
- PipelineContext.ToDict: the dictionary shares the context's live metadata, module-data and metrics maps. The model has no aliasing; the one place it matters, reloading a context from its own dictionary, is modelled by `ReloadOwnDict` (see "Findings").
- ExtensionPoints.AllFailingLeavesContext: it holds only for handlers that fail without changing the context they were given; `Execute` passes on whatever a failing handler left.
- WhisperCpp.CleanOutput: the contract bounds the kept text; the text itself is pinned for artifact-free output (`CleanKeepsSpeech`) and for output opening with one marker (`LeadingArtifactRemoved`).
- WhisperLive.Prepare: the `int16` product `audio_samples * 16384` in the scaling can overflow in numpy; that arithmetic is inside the `normalize` parameter.
- MacTts.RunTts: requires a chunk size above zero. For `sample_rate < 5` the source computes a chunk size of 0 and its streaming loop at macos_tts.py:203-220 never ends.
- WhisperCpp.ProcessFrame: requires a positive sample rate. With a sample rate of 0 the chunk size is 0 and the source's cutting loop never ends.
- Kokoro speech services, the audio device transports, the debug UI, configuration loading, scripts and packaging are I/O, foreign libraries or tooling around the core.

## Findings

| source | as written | input that shows it | evidently intended | confidence | as-written member | corrected member |
|---|---|---|---|---|---|---|
| core/context/pipeline_context.py:185-232 | `to_dict` puts the live `metadata` and `module_data` objects into the dictionary, and `from_dict` clears those objects before updating from the dictionary | `ctx.from_dict(ctx.to_dict())` on a context with metadata `{"k": 1}` ends with empty metadata | reloading a context from its own dictionary gives the context back | not executed | PipelineContext.ReloadOwnDictLosesMetadata | PipelineContext.ReloadCopyRestores |
| core/services/whisperlive_stt.py:240-241 | the scaling test takes `np.max(np.abs(samples))` on `int16`, where `np.abs(-32768)` is -32768 | an 8192-byte piece of samples all -32768 has peak -32768, so it is sent unscaled at full scale | the piece's true peak is 32768, above 16384, so it is scaled down | not executed | WhisperLive.FullScaleNegativeSentUnscaled | WhisperLive.Prepare |
| core/services/whispercpp_stt.py:341-347 | the peak is `np.max(np.abs(samples))` on `int16`, where `np.abs(-32768)` wraps back to -32768 | a one-second chunk whose samples are all -32768 (bytes `00 80` repeated) has peak -32768, below the 1000 threshold, so it is never queued although it is at full scale | the peak is the largest true magnitude, 32768 for that chunk, so the chunk is queued | not executed | Pcm.FullScaleNegativeLooksQuiet | Pcm.Peak |
| core/modules/voice_recognition.py:28 | the module logs with `logger`, a name the file never imports or defines | a fresh module given an `audio_processed` event stores `user_1` as the speaker and then raises `NameError`; `register_voice` raises on every call | logging succeeds and the handlers complete | not executed | VoiceRecognition.FirstAudioRaisesNameError | VoiceRecognition.OnEvent |
