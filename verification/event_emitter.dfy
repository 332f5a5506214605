/** The event bus (`EventEmitter`): exact-type publish/subscribe, a bounded FIFO
    history of emitted events with consecutive ids, history queries with
    AND-combined filters, and the conversion of lifecycle and system frames into
    events.

    Callbacks are identities; whether a callback raises when handed an event is a
    parameter. A raising callback is logged and skipped, so it never changes what
    the bus stores or which other callbacks run. */
module EventBus {
  import opened Common
  import opened Frames

  /** Identity of a subscribed callable (the source compares callbacks with `==`). */
  type CallbackId = nat

  datatype Event = Event(eventType: string, data: Value, timestamp: real, id: nat)

  datatype Bus = Bus(
    bufferSize: nat,
    emitAsFrames: bool,
    subscribers: map<string, seq<CallbackId>>,
    buffer: seq<Event>,
    count: nat)

  /** What the bus keeps true: the history holds the newest `min(count, bufferSize)`
      events, and their ids are consecutive, the last being `count - 1`. */
  predicate Inv(b: Bus) {
    && |b.buffer| == Min(b.count, b.bufferSize)
    && forall i :: 0 <= i < |b.buffer| ==> b.buffer[i].id == b.count - |b.buffer| + i
  }

  /** Timestamps never decrease along `s`. */
  predicate Ascending(s: seq<Event>) {
    forall i, j :: 0 <= i < j < |s| ==> s[i].timestamp <= s[j].timestamp
  }

  /** Stored timestamps never decrease. */
  predicate TimesOrdered(b: Bus) {
    Ascending(b.buffer)
  }

  function Init(bufferSize: nat, emitAsFrames: bool): (b: Bus)
    ensures Inv(b) && TimesOrdered(b)
    ensures b.buffer == [] && b.count == 0
    ensures forall t :: Subscribers(b, t) == []
  {
    Bus(bufferSize, emitAsFrames, map[], [], 0)
  }

  /** The callbacks registered under exactly `t`, in registration order. */
  function Subscribers(b: Bus, t: string): seq<CallbackId> {
    if t in b.subscribers then b.subscribers[t] else []
  }

  function Subscribe(b: Bus, t: string, cb: CallbackId): (r: Bus)
    ensures Subscribers(r, t) == Subscribers(b, t) + [cb]
    ensures forall u :: u != t ==> Subscribers(r, u) == Subscribers(b, u)
    ensures r.buffer == b.buffer && r.count == b.count
    ensures r.bufferSize == b.bufferSize && r.emitAsFrames == b.emitAsFrames
  {
    b.(subscribers := b.subscribers[t := Subscribers(b, t) + [cb]])
  }

  /** Position of the first occurrence of `x` in `s`. */
  function FirstIndex(s: seq<CallbackId>, x: CallbackId): (k: nat)
    requires x in s
    ensures k < |s| && s[k] == x && x !in s[..k]
  {
    if s[0] == x then 0
    else
      var k := FirstIndex(s[1..], x);
      assert s[..k + 1] == [s[0]] + s[1..][..k];
      k + 1
  }

  /** `list.remove(x)`: drops the first occurrence of `x` only. */
  function RemoveFirst(s: seq<CallbackId>, x: CallbackId): (r: seq<CallbackId>)
    requires x in s
    ensures |r| == |s| - 1
    ensures multiset(r) == multiset(s) - multiset{x}
    ensures exists k :: 0 <= k < |s| && s[k] == x && x !in s[..k] && r == s[..k] + s[k + 1..]
  {
    var k := FirstIndex(s, x);
    assert s == s[..k] + [x] + s[k + 1..];
    s[..k] + s[k + 1..]
  }

  /** Removes the first registration of `cb` under `t`; an absent callback is a no-op. */
  function Unsubscribe(b: Bus, t: string, cb: CallbackId): (r: Bus)
    ensures cb !in Subscribers(b, t) ==> r == b
    ensures cb in Subscribers(b, t) ==> Subscribers(r, t) == RemoveFirst(Subscribers(b, t), cb)
    ensures forall u :: u != t ==> Subscribers(r, u) == Subscribers(b, u)
    ensures r.buffer == b.buffer && r.count == b.count
    ensures r.bufferSize == b.bufferSize && r.emitAsFrames == b.emitAsFrames
  {
    var subs := Subscribers(b, t);
    if cb in subs then b.(subscribers := b.subscribers[t := RemoveFirst(subs, cb)]) else b
  }

  /** Subscribing a new callback and then unsubscribing it restores the list. */
  lemma UnsubscribeUndoesSubscribe(b: Bus, t: string, cb: CallbackId)
    requires cb !in Subscribers(b, t)
    ensures Subscribers(Unsubscribe(Subscribe(b, t, cb), t, cb), t) == Subscribers(b, t)
  {
    var s := Subscribers(b, t);
    var s' := s + [cb];
    assert s'[..|s|] == s;
  }

  /** One invocation of a callback, and whether it raised (and was logged). */
  datatype Delivery = Delivery(callback: CallbackId, raised: bool)

  /** Invokes every callback of `subs` in order; a raising one does not stop the rest. */
  function Deliver(subs: seq<CallbackId>, e: Event, raises: (CallbackId, Event) -> bool): (ds: seq<Delivery>)
    ensures |ds| == |subs|
    ensures forall i :: 0 <= i < |ds| ==> ds[i] == Delivery(subs[i], raises(subs[i], e))
  {
    if subs == [] then [] else [Delivery(subs[0], raises(subs[0], e))] + Deliver(subs[1..], e, raises)
  }

  datatype EmitResult = EmitResult(bus: Bus, event: Event, deliveries: seq<Delivery>, pushed: seq<Push>)

  /** `emit(event_type, data)` at time `now`. */
  function Emit(b: Bus, t: string, data: Value, now: real, raises: (CallbackId, Event) -> bool): (r: EmitResult)
    requires |b.buffer| <= b.bufferSize
    ensures r.event == Event(t, data, now, b.count)
    ensures r.bus.count == b.count + 1
    ensures |r.bus.buffer| == Min(|b.buffer| + 1, b.bufferSize)
    ensures r.bus.buffer == (b.buffer + [r.event])[|b.buffer| + 1 - |r.bus.buffer|..]
    ensures r.bus.subscribers == b.subscribers
    ensures r.bus.bufferSize == b.bufferSize && r.bus.emitAsFrames == b.emitAsFrames
    ensures |r.deliveries| == |Subscribers(b, t)|
    ensures forall i :: 0 <= i < |r.deliveries| ==> r.deliveries[i].callback == Subscribers(b, t)[i]
    ensures r.pushed == if b.emitAsFrames then [Push(TypedJsonFrame(t, data), Downstream)] else []
  {
    var e := Event(t, data, now, b.count);
    var b' := b.(count := b.count + 1, buffer := BoundedAppend(b.buffer, e, b.bufferSize));
    var ds := Deliver(Subscribers(b, t), e, raises);
    var pushed := if b.emitAsFrames then [Push(TypedJsonFrame(t, data), Downstream)] else [];
    EmitResult(b', e, ds, pushed)
  }

  /** Emitting keeps the history bounded, newest-last and consecutively numbered. */
  lemma EmitKeepsInv(b: Bus, t: string, data: Value, now: real, raises: (CallbackId, Event) -> bool)
    requires Inv(b)
    ensures Inv(Emit(b, t, data, now, raises).bus)
  {
    var r := Emit(b, t, data, now, raises);
    var n := |r.bus.buffer|;
    assert n == Min(b.count + 1, b.bufferSize);
    NumberedAppend(b.buffer, r.event, b.count, n);
  }

  /** Keeping the last `n` of a consecutively numbered history extended by the
      next-numbered event leaves it consecutively numbered. */
  lemma NumberedAppend(s: seq<Event>, e: Event, count: int, n: nat)
    requires forall i :: 0 <= i < |s| ==> s[i].id == count - |s| + i
    requires e.id == count && n <= |s| + 1
    ensures var buf := (s + [e])[|s| + 1 - n..];
            forall i :: 0 <= i < |buf| ==> buf[i].id == count + 1 - |buf| + i
  {
    var ext := s + [e];
    var off := |s| + 1 - n;
    var buf := ext[off..];
    forall i | 0 <= i < |buf|
      ensures buf[i].id == count + 1 - |buf| + i
    {
      assert buf[i] == ext[off + i];
      if off + i < |s| {
        assert ext[off + i] == s[off + i];
      }
    }
  }

  /** An event no earlier than the last of an ascending history extends it. */
  lemma AppendAscending(s: seq<Event>, e: Event)
    requires Ascending(s)
    requires s != [] ==> s[|s| - 1].timestamp <= e.timestamp
    ensures Ascending(s + [e])
  {
    var ext := s + [e];
    forall i, j | 0 <= i < j < |ext|
      ensures ext[i].timestamp <= ext[j].timestamp
    {
      if j == |s| {
        assert ext[i].timestamp <= s[|s| - 1].timestamp;
      }
    }
  }

  /** A suffix of an ascending history is ascending. */
  lemma SuffixAscending(s: seq<Event>, k: nat)
    requires Ascending(s) && k <= |s|
    ensures Ascending(s[k..])
  {
    var t := s[k..];
    forall i, j | 0 <= i < j < |t|
      ensures t[i].timestamp <= t[j].timestamp
    {
      assert t[i] == s[k + i] && t[j] == s[k + j];
    }
  }

  /** Emitting keeps stored timestamps ordered when the clock does not run backwards. */
  lemma EmitKeepsTimesOrdered(b: Bus, t: string, data: Value, now: real, raises: (CallbackId, Event) -> bool)
    requires |b.buffer| <= b.bufferSize
    requires TimesOrdered(b)
    requires b.buffer != [] ==> b.buffer[|b.buffer| - 1].timestamp <= now
    ensures TimesOrdered(Emit(b, t, data, now, raises).bus)
  {
    var r := Emit(b, t, data, now, raises);
    AppendAscending(b.buffer, r.event);
    SuffixAscending(b.buffer + [r.event], |b.buffer| + 1 - |r.bus.buffer|);
    assert Ascending(r.bus.buffer);
  }

  /** A raising callback changes nothing observable: the bus state after an emit is
      the same whatever the callbacks do, and every registration is still invoked. */
  lemma CallbackFailureIsolated(b: Bus, t: string, data: Value, now: real,
                                raises1: (CallbackId, Event) -> bool, raises2: (CallbackId, Event) -> bool)
    requires |b.buffer| <= b.bufferSize
    ensures Emit(b, t, data, now, raises1).bus == Emit(b, t, data, now, raises2).bus
    ensures |Emit(b, t, data, now, raises1).deliveries| == |Emit(b, t, data, now, raises2).deliveries|
  {
  }

  /** The event type and data a frame is converted into, if any. */
  function FrameEvent(f: Frame): Option<(string, Value)> {
    match f
    case StartFrame => Some(("pipeline_started", Dict(map[])))
    case EndFrame => Some(("pipeline_ended", Dict(map[])))
    case SystemFrame(name, data) => Some((name, Dict(if data.Some? then data.value else map[])))
    case _ => None
  }

  datatype FrameResult = FrameResult(bus: Bus, events: seq<Event>, deliveries: seq<Delivery>, pushed: seq<Push>)

  /** `process_frame`: start, end and other system frames become events, and the
      frame itself is always forwarded, after any frame the emit produced. */
  function ProcessFrame(b: Bus, f: Frame, dir: Direction, now: real, raises: (CallbackId, Event) -> bool): (r: FrameResult)
    requires |b.buffer| <= b.bufferSize
    ensures |r.pushed| >= 1 && r.pushed[|r.pushed| - 1] == Push(f, dir)
    ensures f.StartFrame? ==> |r.events| == 1 && r.events[0].eventType == "pipeline_started"
    ensures f.EndFrame? ==> |r.events| == 1 && r.events[0].eventType == "pipeline_ended"
    ensures f.SystemFrame? ==> |r.events| == 1 && r.events[0].eventType == f.name
    ensures !f.StartFrame? && !f.EndFrame? && !f.SystemFrame? ==> r.events == [] && r.bus == b && r.pushed == [Push(f, dir)]
    ensures |r.events| == 1 ==> r.bus.count == b.count + 1 && r.events[0].id == b.count
  {
    match FrameEvent(f)
    case None => FrameResult(b, [], [], [Push(f, dir)])
    case Some((t, data)) =>
      var e := Emit(b, t, data, now, raises);
      FrameResult(e.bus, [e.event], e.deliveries, e.pushed + [Push(f, dir)])
  }

  /** The AND of the three history filters; an empty type or a zero timestamp
      (Python's falsy `None`, `""` and `0`) disables its filter. */
  predicate HistoryMatch(e: Event, t: string, since: real) {
    (t == "" || e.eventType == t) && (since == 0.0 || e.timestamp > since)
  }

  /** The type filter of `get_event_history`; an empty type disables it. */
  function ByType(s: seq<Event>, t: string): seq<Event> {
    if t != "" then Filter(s, (e: Event) => e.eventType == t) else s
  }

  /** The timestamp filter of `get_event_history` (strictly newer); zero disables it. */
  function BySince(s: seq<Event>, since: real): seq<Event> {
    if since != 0.0 then Filter(s, (e: Event) => e.timestamp > since) else s
  }

  /** `get_event_history(event_type, since_timestamp, limit)`: the filters are applied
      one after the other, then the last `limit` survivors are kept (all of them when
      `limit` is zero). */
  function GetEventHistory(b: Bus, t: string, since: real, limit: int): (r: seq<Event>)
    ensures r == PyTail(Filter(b.buffer, (e: Event) => HistoryMatch(e, t, since)), limit)
    ensures forall i :: 0 <= i < |r| ==> r[i] in b.buffer && HistoryMatch(r[i], t, since)
  {
    var filtered := BySince(ByType(b.buffer, t), since);
    HistoryFiltersCombine(b.buffer, t, since);
    if limit != 0 then PyTail(filtered, limit) else filtered
  }

  /** Filtering by type and then by time is filtering by their conjunction. */
  lemma HistoryFiltersCombine(s: seq<Event>, t: string, since: real)
    ensures BySince(ByType(s, t), since) == Filter(s, (e: Event) => HistoryMatch(e, t, since))
  {
    var m := (e: Event) => HistoryMatch(e, t, since);
    var p := (e: Event) => e.eventType == t;
    var q := (e: Event) => e.timestamp > since;
    if t != "" && since != 0.0 {
      FilterAnd(s, p, q, m);
    } else if t != "" {
      FilterExt(s, p, m);
    } else if since != 0.0 {
      FilterExt(s, q, m);
    } else {
      FilterAll(s, m);
    }
  }

  /** With no filter at all the whole history comes back, oldest first. */
  lemma HistoryUnfiltered(b: Bus)
    ensures GetEventHistory(b, "", 0.0, 0) == b.buffer
  {
    FilterAll(b.buffer, e => HistoryMatch(e, "", 0.0));
  }

  /** Emit never fans out to the wildcard: a callback registered only under `"*"`
      is not invoked for an event of any other type. */
  lemma NoWildcardDelivery(b: Bus, t: string, data: Value, now: real,
                           raises: (CallbackId, Event) -> bool, cb: CallbackId)
    requires |b.buffer| <= b.bufferSize
    requires t != "*" && cb !in Subscribers(b, t)
    ensures forall d :: d in Emit(b, t, data, now, raises).deliveries ==> d.callback != cb
  {
  }
}
