/** The shared pipeline context (`PipelineContext`): the conversation history,
    per-module data, metadata, latency metrics, the interruption state, and the
    dictionary form `to_dict` / `from_dict`.

    Fields the source fills from an arbitrary dictionary hold `Value`s (`Null` for
    `None`). A message's timestamp is an abstract `Stamp`; its ISO text comes from
    the parameters `iso` and `parseIso` (`isoformat` and `fromisoformat`, the
    latter `None` on malformed text). The lock exists for threads only. */
module PipelineContext {
  import opened Common

  /** A `datetime`, down to the microsecond. */
  datatype Stamp = Stamp(micros: int)

  /** `Message`: role and content are whatever was stored (strings when added
      through the `add_*_message` methods). */
  datatype Message = Message(role: Value, content: Value, timestamp: Stamp, metadata: Value)

  datatype Context = Context(
    history: seq<Message>,
    currentTranscription: Value,
    llmResponse: Value,
    isInterrupted: Value,
    interruptionContext: Value,
    metadata: map<string, Value>,
    moduleData: map<string, Value>,
    metrics: map<string, Value>)

  /** The four latency slots every context starts with. */
  const LatencyKeys: seq<string> := ["stt_latency", "llm_latency", "tts_latency", "total_latency"]

  function Init(): (c: Context)
    ensures c.history == [] && c.metadata == map[] && c.moduleData == map[]
    ensures c.currentTranscription == Null && c.llmResponse == Null && c.isInterrupted == Bool(false)
    ensures forall k :: k in c.metrics <==> k in LatencyKeys
    ensures forall k :: k in c.metrics ==> c.metrics[k] == Real(0.0)
  {
    Context([], Null, Null, Bool(false), Null, map[], map[],
            map["stt_latency" := Real(0.0), "llm_latency" := Real(0.0),
                "tts_latency" := Real(0.0), "total_latency" := Real(0.0)])
  }

  /** `metadata or {}`. */
  function OrEmpty(metadata: Value): (r: Value)
    ensures Truthy(metadata) ==> r == metadata
    ensures !Truthy(metadata) ==> r == Dict(map[])
  {
    if Truthy(metadata) then metadata else Dict(map[])
  }

  /** `add_user_message(content, metadata)`: one user message at the end, and the
      content becomes the current transcription. */
  function AddUserMessage(c: Context, content: string, metadata: Value, now: Stamp): (r: Context)
    ensures |r.history| == |c.history| + 1 && r.history[..|c.history|] == c.history
    ensures r.history[|c.history|] == Message(Str("user"), Str(content), now, OrEmpty(metadata))
    ensures r.currentTranscription == Str(content)
    ensures r.(history := c.history, currentTranscription := c.currentTranscription) == c
  {
    c.(history := c.history + [Message(Str("user"), Str(content), now, OrEmpty(metadata))],
       currentTranscription := Str(content))
  }

  /** `add_assistant_message(content, metadata)`: one assistant message at the end,
      and the content becomes the LLM response. */
  function AddAssistantMessage(c: Context, content: string, metadata: Value, now: Stamp): (r: Context)
    ensures |r.history| == |c.history| + 1 && r.history[..|c.history|] == c.history
    ensures r.history[|c.history|] == Message(Str("assistant"), Str(content), now, OrEmpty(metadata))
    ensures r.llmResponse == Str(content)
    ensures r.(history := c.history, llmResponse := c.llmResponse) == c
  {
    c.(history := c.history + [Message(Str("assistant"), Str(content), now, OrEmpty(metadata))],
       llmResponse := Str(content))
  }

  /** `get_conversation_history(limit)`: with a non-zero limit, `history[-limit:]`;
      with none (or 0) a copy of all of it. */
  function GetConversationHistory(c: Context, limit: int): (r: seq<Message>)
    ensures limit > 0 ==> |r| == Min(limit, |c.history|) && r == c.history[|c.history| - |r|..]
    ensures limit == 0 ==> r == c.history
    ensures limit < 0 ==> r == c.history[Min(-limit, |c.history|)..]
  {
    if limit != 0 then PyTail(c.history, limit) else c.history
  }

  /** The last message added is the last one the history query returns. */
  lemma LastMessageFirstInTail(c: Context, content: string, metadata: Value, now: Stamp)
    ensures GetConversationHistory(AddUserMessage(c, content, metadata, now), 1)
            == [Message(Str("user"), Str(content), now, OrEmpty(metadata))]
  {
  }

  /** `clear_conversation_history()`. */
  function ClearConversationHistory(c: Context): (r: Context)
    ensures r.history == [] && r.currentTranscription == Null && r.llmResponse == Null
    ensures r.(history := c.history, currentTranscription := c.currentTranscription, llmResponse := c.llmResponse) == c
  {
    c.(history := [], currentTranscription := Null, llmResponse := Null)
  }

  /** `module_data.get(name, {})`. */
  function ModuleEntry(c: Context, moduleName: string): Value {
    if moduleName in c.moduleData then c.moduleData[moduleName] else Dict(map[])
  }

  /** `get_module_data(module_name, key)`: the module's whole entry when no key (or
      an empty one) is given, else the key's value or `None`. An entry that is not a
      dictionary has no `get` and raises. */
  function GetModuleData(c: Context, moduleName: string, key: string): (r: Result<Value, string>)
    ensures key == "" ==> r == Ok(ModuleEntry(c, moduleName))
    ensures moduleName !in c.moduleData ==> r == Ok(if key == "" then Dict(map[]) else Null)
    ensures key != "" && ModuleEntry(c, moduleName).Dict? ==>
              r == Ok(if key in ModuleEntry(c, moduleName).entries then ModuleEntry(c, moduleName).entries[key] else Null)
    ensures r.Err? <==> key != "" && !ModuleEntry(c, moduleName).Dict?
  {
    var entry := ModuleEntry(c, moduleName);
    if key == "" then Ok(entry)
    else if !entry.Dict? then Err("AttributeError")
    else Ok(if key in entry.entries then entry.entries[key] else Null)
  }

  /** `set_module_data(module_name, key, value)`: creates the module's map if
      missing; only that module's entry changes. */
  function SetModuleData(c: Context, moduleName: string, key: string, value: Value): (r: Result<Context, string>)
    ensures r.Err? <==> !ModuleEntry(c, moduleName).Dict?
    ensures r.Ok? ==> GetModuleData(r.value, moduleName, key) == Ok(value) || key == ""
    ensures r.Ok? ==> moduleName in r.value.moduleData
    ensures r.Ok? ==> r.value.moduleData[moduleName] == Dict(ModuleEntry(c, moduleName).entries[key := value])
    ensures r.Ok? ==> forall n :: n != moduleName ==> ModuleEntry(r.value, n) == ModuleEntry(c, n)
    ensures r.Ok? ==> r.value.(moduleData := c.moduleData) == c
  {
    var entry := ModuleEntry(c, moduleName);
    if !entry.Dict? then Err("TypeError")
    else Ok(c.(moduleData := c.moduleData[moduleName := Dict(entry.entries[key := value])]))
  }

  /** `update_module_data(module_name, data)`: like `set_module_data` for every key
      of `data`; keys not in `data` keep their values. */
  function UpdateModuleData(c: Context, moduleName: string, data: map<string, Value>): (r: Result<Context, string>)
    ensures r.Err? <==> !ModuleEntry(c, moduleName).Dict?
    ensures r.Ok? ==> ModuleEntry(r.value, moduleName).Dict?
    ensures r.Ok? ==> forall k :: k in data ==> GetModuleData(r.value, moduleName, k) == Ok(data[k]) || k == ""
    ensures r.Ok? ==> forall k :: k !in data && k != "" ==> GetModuleData(r.value, moduleName, k) == GetModuleData(c, moduleName, k)
    ensures r.Ok? ==> forall n :: n != moduleName ==> ModuleEntry(r.value, n) == ModuleEntry(c, n)
    ensures r.Ok? ==> r.value.(moduleData := c.moduleData) == c
  {
    var entry := ModuleEntry(c, moduleName);
    if !entry.Dict? then Err("TypeError")
    else Ok(c.(moduleData := c.moduleData[moduleName := Dict(entry.entries + data)]))
  }

  /** Setting one key is updating with a one-key map. */
  lemma SetIsSingleUpdate(c: Context, moduleName: string, key: string, value: Value)
    ensures SetModuleData(c, moduleName, key, value) == UpdateModuleData(c, moduleName, map[key := value])
  {
    var entry := ModuleEntry(c, moduleName);
    if entry.Dict? {
      assert entry.entries[key := value] == entry.entries + map[key := value];
    }
  }

  /** `get_metadata(key, default)`. */
  function GetMetadata(c: Context, key: string, default: Value): (r: Value)
    ensures key in c.metadata ==> r == c.metadata[key]
    ensures key !in c.metadata ==> r == default
  {
    if key in c.metadata then c.metadata[key] else default
  }

  /** `set_metadata(key, value)`. */
  function SetMetadata(c: Context, key: string, value: Value): (r: Context)
    ensures forall k, d :: GetMetadata(r, k, d) == if k == key then value else GetMetadata(c, k, d)
    ensures r.(metadata := c.metadata) == c
  {
    c.(metadata := c.metadata[key := value])
  }

  /** `update_metadata(data)`. */
  function UpdateMetadata(c: Context, data: map<string, Value>): (r: Context)
    ensures forall k, d :: GetMetadata(r, k, d) == if k in data then data[k] else GetMetadata(c, k, d)
    ensures r.(metadata := c.metadata) == c
  {
    c.(metadata := c.metadata + data)
  }

  /** `update_metric(name, value)`: only the named metric changes. */
  function UpdateMetric(c: Context, name: string, value: real): (r: Context)
    ensures name in r.metrics && r.metrics[name] == Real(value)
    ensures forall k :: k != name ==> (k in r.metrics <==> k in c.metrics) && (k in c.metrics ==> r.metrics[k] == c.metrics[k])
    ensures r.(metrics := c.metrics) == c
  {
    c.(metrics := c.metrics[name := Real(value)])
  }

  /** The latency slots never go away: every update keeps them. */
  predicate HasLatencySlots(c: Context) {
    forall k :: k in LatencyKeys ==> k in c.metrics
  }

  lemma UpdateMetricKeepsSlots(c: Context, name: string, value: real)
    requires HasLatencySlots(c)
    ensures HasLatencySlots(UpdateMetric(c, name, value))
  {
  }

  /** `set_interrupted(interrupted, context)`. */
  function SetInterrupted(c: Context, interrupted: bool, context: Option<string>): (r: Context)
    ensures GetInterruptionState(r) == (Bool(interrupted), if context.Some? then Str(context.value) else Null)
    ensures r.(isInterrupted := c.isInterrupted, interruptionContext := c.interruptionContext) == c
  {
    c.(isInterrupted := Bool(interrupted), interruptionContext := if context.Some? then Str(context.value) else Null)
  }

  /** `get_interruption_state()`. */
  function GetInterruptionState(c: Context): (Value, Value) {
    (c.isInterrupted, c.interruptionContext)
  }

  /** One history entry of `to_dict`. */
  function MessageDict(m: Message, iso: Stamp -> string): Value {
    Dict(map["role" := m.role, "content" := m.content, "timestamp" := Str(iso(m.timestamp)), "metadata" := m.metadata])
  }

  /** `to_dict()`. */
  function ToDict(c: Context, iso: Stamp -> string): (d: Value)
    ensures d.Dict? && "conversation_history" in d.entries && d.entries["conversation_history"].List?
    ensures |d.entries["conversation_history"].items| == |c.history|
    ensures forall i :: 0 <= i < |c.history| ==> d.entries["conversation_history"].items[i] == MessageDict(c.history[i], iso)
  {
    Dict(map[
      "conversation_history" := List(seq(|c.history|, i requires 0 <= i < |c.history| => MessageDict(c.history[i], iso))),
      "current_transcription" := c.currentTranscription,
      "llm_response" := c.llmResponse,
      "is_interrupted" := c.isInterrupted,
      "interruption_context" := c.interruptionContext,
      "metadata" := Dict(c.metadata),
      "module_data" := Dict(c.moduleData),
      "metrics" := Dict(c.metrics)])
  }

  /** `d.get(key, default)` on a dictionary. */
  function Get(d: map<string, Value>, key: string, default: Value): Value {
    if key in d then d[key] else default
  }

  /** Rebuilds one message; a missing key, a non-string timestamp or a malformed
      one raises. */
  function MessageOf(v: Value, parseIso: string -> Option<Stamp>): (r: Option<Message>)
    ensures r.Some? ==> v.Dict? && "role" in v.entries && "content" in v.entries && "timestamp" in v.entries
    ensures r.Some? ==> r.value.role == v.entries["role"] && r.value.content == v.entries["content"]
  {
    if !v.Dict? || "role" !in v.entries || "content" !in v.entries || "timestamp" !in v.entries then None
    else
      var ts := v.entries["timestamp"];
      if !ts.Str? then None
      else match parseIso(ts.s)
        case None => None
        case Some(t) => Some(Message(v.entries["role"], v.entries["content"], t, Get(v.entries, "metadata", Dict(map[]))))
  }

  /** Appends the messages of `items` in order, stopping at the first that raises.
      Returns the messages appended and whether all of them were. */
  function LoadMessages(items: seq<Value>, parseIso: string -> Option<Stamp>): (r: (seq<Message>, bool))
    ensures |r.0| <= |items|
    ensures r.1 <==> forall i :: 0 <= i < |items| ==> MessageOf(items[i], parseIso).Some?
    ensures r.1 ==> |r.0| == |items|
    ensures forall i :: 0 <= i < |r.0| ==> MessageOf(items[i], parseIso) == Some(r.0[i])
    decreases |items|
  {
    if items == [] then ([], true)
    else match MessageOf(items[0], parseIso)
      case None => ([], false)
      case Some(m) =>
        var rest := LoadMessages(items[1..], parseIso);
        assert forall i :: 0 <= i < |items| - 1 ==> items[1..][i] == items[i + 1];
        ([m] + rest.0, rest.1)
  }

  /** The messages `for msg_data in data.get('conversation_history', [])` walks:
      a list's items; an empty dictionary or string walks nothing; anything else
      raises when walked or when its first element is subscripted. */
  function HistoryItems(v: Value): Option<seq<Value>> {
    match v
    case List(items) => Some(items)
    case Dict(m) => if m == map[] then Some([]) else None
    case Str(s) => if s == "" then Some([]) else None
    case _ => None
  }

  /** One item of the iterable handed to `dict.update`, read as a key/value pair:
      a two-item list with a string key, or a two-character string. */
  function PairOf(v: Value): Option<(string, Value)> {
    match v
    case List(items) => if |items| == 2 && items[0].Str? then Some((items[0].s, items[1])) else None
    case Str(s) => if |s| == 2 then Some(([s[0]], Str([s[1]]))) else None
    case _ => None
  }

  /** The result of `dict.update`: the entries afterwards and whether it
      completed (`false` where it raised). */
  datatype Merged = Merged(entries: map<string, Value>, complete: bool)

  /** The pairs of `items` put into `d` one after the other, stopping at the
      first item that is not a pair; the pairs before it stay in. */
  function MergePairs(d: map<string, Value>, items: seq<Value>): (r: Merged)
    ensures r.complete <==> forall i :: 0 <= i < |items| ==> PairOf(items[i]).Some?
    ensures d.Keys <= r.entries.Keys
    ensures r.complete && items != [] ==>
              var last := PairOf(items[|items| - 1]).value;
              last.0 in r.entries && r.entries[last.0] == last.1
    decreases |items|
  {
    if items == [] then Merged(d, true)
    else match PairOf(items[0])
      case None => Merged(d, false)
      case Some(p) =>
        var rest := MergePairs(d[p.0 := p.1], items[1..]);
        assert forall i :: 1 <= i < |items| ==> items[i] == items[1..][i - 1];
        rest
  }

  /** Whether `dict.update(v)` completes: a dictionary, a list of pairs, or the
      empty string. */
  predicate Mergeable(v: Value) {
    || v.Dict?
    || (v.List? && forall i :: 0 <= i < |v.items| ==> PairOf(v.items[i]).Some?)
    || v == Str("")
  }

  /** `d.update(v)`: a dictionary's entries win over the existing ones; a list is
      read as key/value pairs in order, the later pair winning; an empty string
      adds nothing; any other string or scalar raises. */
  function Merge(d: map<string, Value>, v: Value): (r: Merged)
    ensures r.complete <==> Mergeable(v)
    ensures v.Dict? ==> r == Merged(d + v.entries, true)
    ensures v == List([]) || v == Str("") ==> r == Merged(d, true)
    ensures !v.Dict? && !v.List? ==> r.entries == d
    ensures d.Keys <= r.entries.Keys
  {
    match v
    case Dict(m) => Merged(d + m, true)
    case List(items) => MergePairs(d, items)
    case Str(t) => Merged(d, t == "")
    case _ => Merged(d, false)
  }

  /** A list of one pair sets that key. */
  lemma MergeOnePair(d: map<string, Value>, k: string, x: Value)
    ensures Merge(d, List([List([Str(k), x])])) == Merged(d[k := x], true)
  {
    var items := [List([Str(k), x])];
    assert PairOf(items[0]) == Some((k, x));
    assert items[1..] == [];
    assert MergePairs(d, items) == MergePairs(d[k := x], []);
  }

  /** Whether `from_dict` loads the whole history, and so reaches the scalar fields. */
  predicate HistoryLoads(data: map<string, Value>, parseIso: string -> Option<Stamp>) {
    && HistoryItems(Get(data, "conversation_history", List([]))).Some?
    && LoadMessages(HistoryItems(Get(data, "conversation_history", List([]))).value, parseIso).1
  }

  /** Whether `from_dict` gets as far as merging the metrics. */
  predicate ReachesMetrics(data: map<string, Value>, parseIso: string -> Option<Stamp>) {
    && HistoryLoads(data, parseIso)
    && Mergeable(Get(data, "metadata", Dict(map[])))
    && Mergeable(Get(data, "module_data", Dict(map[])))
  }

  /** Whether `from_dict` completes without raising. */
  predicate Loadable(data: map<string, Value>, parseIso: string -> Option<Stamp>) {
    ReachesMetrics(data, parseIso) && Mergeable(Get(data, "metrics", Dict(map[])))
  }

  /** `from_dict(data)`: clears history, metadata and module data, then loads the
      history, the scalar fields, metadata and module data, and merges the metrics
      into the existing ones. An exception leaves the context as far as it got;
      the flag says whether the whole load completed. */
  function FromDict(c: Context, data: map<string, Value>, parseIso: string -> Option<Stamp>): (r: (Context, bool))
    ensures r.1 <==> Loadable(data, parseIso)
    ensures r.0.history == [] || (HistoryItems(Get(data, "conversation_history", List([]))).Some?
              && r.0.history == LoadMessages(HistoryItems(Get(data, "conversation_history", List([]))).value, parseIso).0)
    ensures HistoryItems(Get(data, "conversation_history", List([]))).Some? ==>
              r.0.history == LoadMessages(HistoryItems(Get(data, "conversation_history", List([]))).value, parseIso).0
    ensures ReachesMetrics(data, parseIso) ==>
              && r.0.currentTranscription == Get(data, "current_transcription", Null)
              && r.0.llmResponse == Get(data, "llm_response", Null)
              && r.0.isInterrupted == Get(data, "is_interrupted", Bool(false))
              && r.0.interruptionContext == Get(data, "interruption_context", Null)
              && r.0.metadata == Merge(map[], Get(data, "metadata", Dict(map[]))).entries
              && r.0.moduleData == Merge(map[], Get(data, "module_data", Dict(map[]))).entries
              && r.0.metrics == Merge(c.metrics, Get(data, "metrics", Dict(map[]))).entries
    ensures !ReachesMetrics(data, parseIso) ==> r.0.metrics == c.metrics
    ensures !HistoryLoads(data, parseIso) ==>
              && r.0.currentTranscription == Null && r.0.llmResponse == Null
              && r.0.metadata == map[] && r.0.moduleData == map[]
              && r.0.isInterrupted == c.isInterrupted && r.0.interruptionContext == c.interruptionContext
    ensures HistoryLoads(data, parseIso) ==>
              && r.0.currentTranscription == Get(data, "current_transcription", Null)
              && r.0.llmResponse == Get(data, "llm_response", Null)
              && r.0.isInterrupted == Get(data, "is_interrupted", Bool(false))
              && r.0.interruptionContext == Get(data, "interruption_context", Null)
              && r.0.metadata == Merge(map[], Get(data, "metadata", Dict(map[]))).entries
    ensures HistoryLoads(data, parseIso) && !Mergeable(Get(data, "metadata", Dict(map[]))) ==> r.0.moduleData == map[]
    ensures HistoryLoads(data, parseIso) && Mergeable(Get(data, "metadata", Dict(map[]))) ==>
              r.0.moduleData == Merge(map[], Get(data, "module_data", Dict(map[]))).entries
  {
    var cleared := c.(history := [], currentTranscription := Null, llmResponse := Null, metadata := map[], moduleData := map[]);
    match HistoryItems(Get(data, "conversation_history", List([])))
    case None => (cleared, false)
    case Some(items) =>
      var loaded := LoadMessages(items, parseIso);
      var c1 := cleared.(history := loaded.0);
      if !loaded.1 then (c1, false)
      else
        var c2 := c1.(currentTranscription := Get(data, "current_transcription", Null),
                      llmResponse := Get(data, "llm_response", Null),
                      isInterrupted := Get(data, "is_interrupted", Bool(false)),
                      interruptionContext := Get(data, "interruption_context", Null));
        var md := Merge(map[], Get(data, "metadata", Dict(map[])));
        var c3 := c2.(metadata := md.entries);
        if !md.complete then (c3, false)
        else
          var mod := Merge(map[], Get(data, "module_data", Dict(map[])));
          var c4 := c3.(moduleData := mod.entries);
          if !mod.complete then (c4, false)
          else
            var mt := Merge(c.metrics, Get(data, "metrics", Dict(map[])));
            (c4.(metrics := mt.entries), mt.complete)
  }

  /** Metadata given as a list of pairs is loaded like the same entries given
      as a dictionary. */
  lemma MetadataAsPairs(c: Context, k: string, x: Value, parseIso: string -> Option<Stamp>)
    ensures FromDict(c, map["metadata" := List([List([Str(k), x])])], parseIso).0.metadata == map[k := x]
  {
    var data := map["metadata" := List([List([Str(k), x])])];
    MergeOnePair(map[], k, x);
    assert Get(data, "conversation_history", List([])) == List([]);
    assert Mergeable(Get(data, "metadata", Dict(map[])));
    assert ReachesMetrics(data, parseIso);
  }

  /** The history of the dictionary form loads back to the same messages. */
  lemma LoadMessagesOfToDict(c: Context, iso: Stamp -> string, parseIso: string -> Option<Stamp>)
    requires forall t :: parseIso(iso(t)) == Some(t)
    ensures var items := ToDict(c, iso).entries["conversation_history"].items;
            LoadMessages(items, parseIso) == (c.history, true)
  {
    var items := ToDict(c, iso).entries["conversation_history"].items;
    forall i | 0 <= i < |items| ensures MessageOf(items[i], parseIso) == Some(c.history[i]) {
      var m := c.history[i];
      var v := MessageDict(m, iso);
      assert items[i] == v;
      assert parseIso(iso(m.timestamp)) == Some(m.timestamp);
      assert v.entries["timestamp"] == Str(iso(m.timestamp));
      assert Get(v.entries, "metadata", Dict(map[])) == m.metadata;
    }
    var loaded := LoadMessages(items, parseIso);
    assert |loaded.0| == |c.history|;
    assert forall i :: 0 <= i < |c.history| ==> Some(loaded.0[i]) == Some(c.history[i]);
    assert loaded.0 == c.history;
  }

  /** The scalar and map fields of the dictionary form. */
  lemma ToDictFields(c: Context, iso: Stamp -> string)
    ensures var d := ToDict(c, iso).entries;
            && Get(d, "current_transcription", Null) == c.currentTranscription
            && Get(d, "llm_response", Null) == c.llmResponse
            && Get(d, "is_interrupted", Bool(false)) == c.isInterrupted
            && Get(d, "interruption_context", Null) == c.interruptionContext
            && Get(d, "metadata", Dict(map[])) == Dict(c.metadata)
            && Get(d, "module_data", Dict(map[])) == Dict(c.moduleData)
            && Get(d, "metrics", Dict(map[])) == Dict(c.metrics)
            && Get(d, "conversation_history", List([])) == d["conversation_history"]
  {
  }

  /** Round trip: loading the dictionary form of `c` into any context `c0` gives
      back `c`, except that the metrics are merged into those of `c0`. Needs
      `fromisoformat` to invert `isoformat`. */
  lemma FromDictToDict(c0: Context, c: Context, iso: Stamp -> string, parseIso: string -> Option<Stamp>)
    requires forall t :: parseIso(iso(t)) == Some(t)
    ensures FromDict(c0, ToDict(c, iso).entries, parseIso) == (c.(metrics := c0.metrics + c.metrics), true)
  {
    var d := ToDict(c, iso).entries;
    ToDictFields(c, iso);
    LoadMessagesOfToDict(c, iso, parseIso);
    assert HistoryItems(Get(d, "conversation_history", List([]))) == Some(d["conversation_history"].items);
    LoadsFields(c0, c, d, parseIso);
  }

  /** Loading a dictionary whose fields are those of `c`, with a history that
      loads back to `c`'s, gives `c` with the metrics merged. */
  lemma LoadsFields(c0: Context, c: Context, d: map<string, Value>, parseIso: string -> Option<Stamp>)
    requires && Get(d, "current_transcription", Null) == c.currentTranscription
             && Get(d, "llm_response", Null) == c.llmResponse
             && Get(d, "is_interrupted", Bool(false)) == c.isInterrupted
             && Get(d, "interruption_context", Null) == c.interruptionContext
             && Get(d, "metadata", Dict(map[])) == Dict(c.metadata)
             && Get(d, "module_data", Dict(map[])) == Dict(c.moduleData)
             && Get(d, "metrics", Dict(map[])) == Dict(c.metrics)
    requires HistoryItems(Get(d, "conversation_history", List([]))).Some?
    requires LoadMessages(HistoryItems(Get(d, "conversation_history", List([]))).value, parseIso) == (c.history, true)
    ensures FromDict(c0, d, parseIso) == (c.(metrics := c0.metrics + c.metrics), true)
  {
    assert ReachesMetrics(d, parseIso);
    var r := FromDict(c0, d, parseIso);
    assert r.1;
    assert r.0.history == c.history;
    assert r.0.metadata == c.metadata by {
      assert map[] + c.metadata == c.metadata;
    }
    assert r.0.moduleData == c.moduleData by {
      assert map[] + c.moduleData == c.moduleData;
    }
    assert r.0.metrics == c0.metrics + c.metrics;
  }

  /** A context whose metrics hold only keys `c` has is restored exactly. */
  lemma FromDictRestoresExactly(c0: Context, c: Context, iso: Stamp -> string, parseIso: string -> Option<Stamp>)
    requires forall t :: parseIso(iso(t)) == Some(t)
    requires c0.metrics.Keys <= c.metrics.Keys
    ensures FromDict(c0, ToDict(c, iso).entries, parseIso) == (c, true)
  {
    FromDictToDict(c0, c, iso, parseIso);
    assert c0.metrics + c.metrics == c.metrics;
  }

  /** The metrics are merged, not replaced: a metric present only in the receiving
      context survives a load. */
  lemma FromDictKeepsExtraMetrics(c0: Context, c: Context, iso: Stamp -> string, parseIso: string -> Option<Stamp>, k: string)
    requires forall t :: parseIso(iso(t)) == Some(t)
    requires k in c0.metrics && k !in c.metrics
    ensures var r := FromDict(c0, ToDict(c, iso).entries, parseIso).0;
            k in r.metrics && r.metrics[k] == c0.metrics[k] && r != c
  {
    FromDictToDict(c0, c, iso, parseIso);
  }

  /** `c.from_dict(c.to_dict())` on one and the same context, as written: the
      dictionary holds the context's own metadata and module-data maps rather
      than copies, and `from_dict` clears those maps before reading them back,
      so the load sees them empty. The metrics map is shared too, and merging it
      into itself changes nothing. */
  function ReloadOwnDict(c: Context, iso: Stamp -> string, parseIso: string -> Option<Stamp>): (Context, bool) {
    FromDict(c, ToDict(c.(metadata := map[], moduleData := map[]), iso).entries, parseIso)
  }

  /** Reloading a context from its own live dictionary loses its metadata and
      module data, and everything else comes back. */
  lemma ReloadOwnDictEmpties(c: Context, iso: Stamp -> string, parseIso: string -> Option<Stamp>)
    requires forall t :: parseIso(iso(t)) == Some(t)
    ensures ReloadOwnDict(c, iso, parseIso) == (c.(metadata := map[], moduleData := map[]), true)
  {
    FromDictRestoresExactly(c, c.(metadata := map[], moduleData := map[]), iso, parseIso);
  }

  /** The discrepancy: a context with metadata is not restored by reloading its
      own dictionary. */
  lemma ReloadOwnDictLosesMetadata(c: Context, iso: Stamp -> string, parseIso: string -> Option<Stamp>)
    requires forall t :: parseIso(iso(t)) == Some(t)
    requires c.metadata != map[]
    ensures ReloadOwnDict(c, iso, parseIso).0 != c
  {
    ReloadOwnDictEmpties(c, iso, parseIso);
  }

  /** The intended behaviour, reloading from a copy of the dictionary (or from
      one taken by another context): the context comes back unchanged. */
  lemma ReloadCopyRestores(c: Context, iso: Stamp -> string, parseIso: string -> Option<Stamp>)
    requires forall t :: parseIso(iso(t)) == Some(t)
    ensures FromDict(c, ToDict(c, iso).entries, parseIso) == (c, true)
  {
    FromDictRestoresExactly(c, c, iso, parseIso);
  }
}
