/** Pipeline extension points (`ExtensionPoint`, `ExtensionHandler`,
    `ExtensionManager`): the fixed stages handlers attach to, per-stage handler
    lists kept sorted by priority with registration order among equals, and hook
    execution as a fail-open fold of the context through the enabled handlers.

    A handler's callable is an identity; what it does with a context (returns a new
    one, raises, or runs past its timeout) is the parameter `run`. Elapsed times
    come from the parameter `elapsed`. */
module ExtensionPoints {
  import opened Common

  datatype Point =
    | PreVad | PostVad | PreStt | PostStt
    | PreLlm | LlmStreaming | PostLlm
    | PreTts | TtsStreaming | PostTts
    | Interruption | Error | PipelineStart | PipelineEnd

  /** Every point, in declaration order (iteration over the enum). */
  const AllPoints: seq<Point> := [
    PreVad, PostVad, PreStt, PostStt, PreLlm, LlmStreaming, PostLlm,
    PreTts, TtsStreaming, PostTts, Interruption, Error, PipelineStart, PipelineEnd]

  /** The enum member's value. */
  function PointValue(p: Point): string {
    match p
    case PreVad => "pre_vad"
    case PostVad => "post_vad"
    case PreStt => "pre_stt"
    case PostStt => "post_stt"
    case PreLlm => "pre_llm"
    case LlmStreaming => "llm_streaming"
    case PostLlm => "post_llm"
    case PreTts => "pre_tts"
    case TtsStreaming => "tts_streaming"
    case PostTts => "post_tts"
    case Interruption => "interruption"
    case Error => "error"
    case PipelineStart => "pipeline_start"
    case PipelineEnd => "pipeline_end"
  }

  /** `ExtensionPoint(value)`: the member with a given value, if any. */
  function PointOf(s: string): (r: Option<Point>)
    ensures r.Some? ==> PointValue(r.value) == s
  {
    if s == "pre_vad" then Some(PreVad)
    else if s == "post_vad" then Some(PostVad)
    else if s == "pre_stt" then Some(PreStt)
    else if s == "post_stt" then Some(PostStt)
    else if s == "pre_llm" then Some(PreLlm)
    else if s == "llm_streaming" then Some(LlmStreaming)
    else if s == "post_llm" then Some(PostLlm)
    else if s == "pre_tts" then Some(PreTts)
    else if s == "tts_streaming" then Some(TtsStreaming)
    else if s == "post_tts" then Some(PostTts)
    else if s == "interruption" then Some(Interruption)
    else if s == "error" then Some(Error)
    else if s == "pipeline_start" then Some(PipelineStart)
    else if s == "pipeline_end" then Some(PipelineEnd)
    else None
  }

  /** Every member's value leads back to the member. */
  lemma PointValueRoundTrip(p: Point)
    ensures PointOf(PointValue(p)) == Some(p)
  {
    match p
    case PreVad =>
    case PostVad =>
    case PreStt =>
    case PostStt =>
    case PreLlm =>
    case LlmStreaming =>
    case PostLlm =>
    case PreTts =>
    case TtsStreaming =>
    case PostTts =>
    case Interruption =>
    case Error =>
    case PipelineStart =>
    case PipelineEnd =>
  }

  /** Distinct points have distinct values. */
  lemma PointValueInjective(p: Point, q: Point)
    requires PointValue(p) == PointValue(q)
    ensures p == q
  {
    PointValueRoundTrip(p);
    PointValueRoundTrip(q);
  }

  /** The enum lists every point once. */
  lemma AllPointsComplete()
    ensures Distinct(AllPoints) && forall p :: p in AllPoints
  {
    forall p ensures p in AllPoints {
      match p
      case PreVad => assert AllPoints[0] == p;
      case PostVad => assert AllPoints[1] == p;
      case PreStt => assert AllPoints[2] == p;
      case PostStt => assert AllPoints[3] == p;
      case PreLlm => assert AllPoints[4] == p;
      case LlmStreaming => assert AllPoints[5] == p;
      case PostLlm => assert AllPoints[6] == p;
      case PreTts => assert AllPoints[7] == p;
      case TtsStreaming => assert AllPoints[8] == p;
      case PostTts => assert AllPoints[9] == p;
      case Interruption => assert AllPoints[10] == p;
      case Error => assert AllPoints[11] == p;
      case PipelineStart => assert AllPoints[12] == p;
      case PipelineEnd => assert AllPoints[13] == p;
    }
  }

  /** `get_pipeline_order()`: the stages in the order a turn passes them. */
  function PipelineOrder(): (r: seq<Point>)
    ensures |r| == 12 && Distinct(r)
    ensures r[0] == PipelineStart && r[11] == PipelineEnd
    ensures Interruption !in r && Error !in r
  {
    [PipelineStart, PreVad, PostVad, PreStt, PostStt, PreLlm, LlmStreaming, PostLlm,
     PreTts, TtsStreaming, PostTts, PipelineEnd]
  }

  /** The pipeline order holds every point but the two event-driven ones. */
  lemma PipelineOrderComplete(p: Point)
    ensures p in PipelineOrder() <==> p != Interruption && p != Error
  {
    var o := PipelineOrder();
    match p
    case PipelineStart => assert o[0] == p;
    case PreVad => assert o[1] == p;
    case PostVad => assert o[2] == p;
    case PreStt => assert o[3] == p;
    case PostStt => assert o[4] == p;
    case PreLlm => assert o[5] == p;
    case LlmStreaming => assert o[6] == p;
    case PostLlm => assert o[7] == p;
    case PreTts => assert o[8] == p;
    case TtsStreaming => assert o[9] == p;
    case PostTts => assert o[10] == p;
    case PipelineEnd => assert o[11] == p;
    case Interruption =>
    case Error =>
  }

  /** `ExtensionHandler`; a zero timeout is falsy and means none. */
  datatype Handler = Handler(id: nat, owner: string, priority: int, timeout: real, enabled: bool)

  /** A new wrapper starts enabled. */
  function NewHandler(id: nat, owner: string, priority: int, timeout: real): (h: Handler)
    ensures h.enabled && h.id == id && h.owner == owner && h.priority == priority && h.timeout == timeout
  {
    Handler(id, owner, priority, timeout, true)
  }

  /** What awaiting a handler on a context produced: its result, or a raise or
      a timeout together with the context as the handler left it (a handler may
      change the context object in place before it fails). */
  datatype Outcome<C> = Returned(result: C) | Raised(left: C) | TimedOut(left: C)

  /** `ExtensionHandler.execute`: a disabled handler passes its input through
      without running; a raise or a timeout is logged and the context object
      passed on as the handler left it, so no exception leaves the handler. */
  function Execute<C>(h: Handler, ctx: C, run: (nat, C) -> Outcome<C>): (r: C)
    ensures !h.enabled ==> r == ctx
    ensures h.enabled && run(h.id, ctx).Returned? ==> r == run(h.id, ctx).result
    ensures h.enabled && !run(h.id, ctx).Returned? ==> r == run(h.id, ctx).left
    ensures run(h.id, ctx) == Raised(ctx) || run(h.id, ctx) == TimedOut(ctx) ==> r == ctx
  {
    if !h.enabled then ctx
    else match run(h.id, ctx)
      case Returned(c) => c
      case Raised(c) => c
      case TimedOut(c) => c
  }

  datatype Manager = Manager(hooks: map<Point, seq<Handler>>, metrics: map<string, map<string, real>>)

  /** A new manager: an empty list for every point, no metrics. */
  function Init(): (m: Manager)
    ensures forall p :: p in m.hooks && m.hooks[p] == []
    ensures m.metrics == map[]
  {
    AllPointsComplete();
    Manager(map p: Point | p in AllPoints :: [], map[])
  }

  function Handlers(m: Manager, p: Point): seq<Handler> {
    if p in m.hooks then m.hooks[p] else []
  }

  predicate SortedByPriority(l: seq<Handler>) {
    forall i, j :: 0 <= i < j < |l| ==> l[i].priority <= l[j].priority
  }

  /** A handler no later than every handler of a sorted list can go in front. */
  lemma SortedCons(x: Handler, l: seq<Handler>)
    requires SortedByPriority(l)
    requires forall k :: 0 <= k < |l| ==> x.priority <= l[k].priority
    ensures SortedByPriority([x] + l)
  {
    var r := [x] + l;
    forall i, j | 0 <= i < j < |r| ensures r[i].priority <= r[j].priority {
      assert r[j] == l[j - 1];
      if i > 0 { assert r[i] == l[i - 1]; }
    }
  }

  /** The handlers of `l` with priority `v`, in their order in `l`. */
  function WithPriority(l: seq<Handler>, v: int): (r: seq<Handler>)
    ensures forall i :: 0 <= i < |r| ==> r[i].priority == v && r[i] in l
  {
    if l == [] then []
    else (if l[0].priority == v then [l[0]] else []) + WithPriority(l[1..], v)
  }

  lemma {:induction false} WithPriorityConcat(a: seq<Handler>, b: seq<Handler>, v: int)
    ensures WithPriority(a + b, v) == WithPriority(a, v) + WithPriority(b, v)
    decreases |a|
  {
    if a != [] {
      WithPriorityConcat(a[1..], b, v);
      var hd := if a[0].priority == v then [a[0]] else [];
      assert (a + b)[0] == a[0];
      assert (a + b)[1..] == a[1..] + b;
      assert WithPriority(a + b, v) == hd + WithPriority(a[1..] + b, v);
      assert WithPriority(a, v) == hd + WithPriority(a[1..], v);
    } else {
      assert a + b == b;
    }
  }

  lemma {:induction false} WithPriorityAbove(l: seq<Handler>, v: int)
    requires forall i :: 0 <= i < |l| ==> l[i].priority > v
    ensures WithPriority(l, v) == []
    decreases |l|
  {
    if l != [] { WithPriorityAbove(l[1..], v); }
  }

  /** Inserting `h` after every handler whose priority is not greater than its own:
      on a sorted list this is the stable sort of `l + [h]`. */
  function InsertByPriority(l: seq<Handler>, h: Handler): (r: seq<Handler>)
    ensures |r| == |l| + 1 && multiset(r) == multiset(l + [h])
    decreases |l|
  {
    if l == [] then [h]
    else if l[0].priority > h.priority then
      assert l + [h] == [l[0]] + (l[1..] + [h]);
      [h] + l
    else
      var rest := InsertByPriority(l[1..], h);
      assert l + [h] == [l[0]] + (l[1..] + [h]);
      [l[0]] + rest
  }

  lemma {:induction false} InsertKeepsSorted(l: seq<Handler>, h: Handler)
    requires SortedByPriority(l)
    ensures SortedByPriority(InsertByPriority(l, h))
    decreases |l|
  {
    if l != [] && l[0].priority <= h.priority {
      var rest := InsertByPriority(l[1..], h);
      InsertKeepsSorted(l[1..], h);
      forall k | 0 <= k < |rest| ensures l[0].priority <= rest[k].priority {
        assert rest[k] in multiset(l[1..] + [h]);
        assert rest[k] in l[1..] + [h];
      }
      SortedCons(l[0], rest);
    }
  }

  /** Stability: among handlers of equal priority the inserted one comes last and
      the others keep their order. Together with sortedness and the permutation
      this pins the result down to the stable sort of `l + [h]`. */
  lemma {:induction false} InsertIsStable(l: seq<Handler>, h: Handler, v: int)
    requires SortedByPriority(l)
    ensures WithPriority(InsertByPriority(l, h), v) == WithPriority(l + [h], v)
    decreases |l|
  {
    if l == [] {
      assert l + [h] == [h];
    } else if l[0].priority > h.priority {
      InsertInFrontStable(l, h, v);
    } else {
      assert SortedByPriority(l[1..]);
      InsertIsStable(l[1..], h, v);
      InsertLaterStable(l, h, v);
    }
  }

  /** The stability step when the handler goes in front of a sorted list. */
  lemma InsertInFrontStable(l: seq<Handler>, h: Handler, v: int)
    requires SortedByPriority(l) && l != [] && l[0].priority > h.priority
    ensures WithPriority([h] + l, v) == WithPriority(l + [h], v)
  {
    WithPriorityConcat(l, [h], v);
    WithPriorityConcat([h], l, v);
    if h.priority == v {
      assert forall i :: 0 <= i < |l| ==> l[i].priority > v by {
        forall i | 0 <= i < |l| ensures l[i].priority > v {
          assert l[0].priority <= l[i].priority;
        }
      }
      WithPriorityAbove(l, v);
    } else {
      assert WithPriority([h], v) == [] + WithPriority([h][1..], v);
    }
  }

  /** The stability step when the handler goes after the first handler. */
  lemma InsertLaterStable(l: seq<Handler>, h: Handler, v: int)
    requires l != [] && l[0].priority <= h.priority
    requires WithPriority(InsertByPriority(l[1..], h), v) == WithPriority(l[1..] + [h], v)
    ensures WithPriority(InsertByPriority(l, h), v) == WithPriority(l + [h], v)
  {
    var rest := l[1..];
    var ins := InsertByPriority(rest, h);
    assert InsertByPriority(l, h) == [l[0]] + ins;
    WithPriorityConcat([l[0]], ins, v);
    WithPriorityConcat(rest, [h], v);
    assert l + [h] == [l[0]] + (rest + [h]);
    WithPriorityConcat([l[0]], rest + [h], v);
  }

  /** Every list kept by the manager is sorted by priority. */
  predicate Inv(m: Manager) {
    forall p :: p in m.hooks ==> SortedByPriority(m.hooks[p])
  }

  /** `register_hook(point, handler, module_name, priority, timeout)`. */
  function RegisterHook(m: Manager, p: Point, id: nat, owner: string, priority: int, timeout: real): (r: Manager)
    ensures multiset(Handlers(r, p)) == multiset(Handlers(m, p) + [NewHandler(id, owner, priority, timeout)])
    ensures forall q :: q != p ==> Handlers(r, q) == Handlers(m, q)
    ensures Inv(m) ==> Inv(r)
    ensures Inv(m) ==> forall v :: WithPriority(Handlers(r, p), v) == WithPriority(Handlers(m, p) + [NewHandler(id, owner, priority, timeout)], v)
    ensures r.metrics == m.metrics
  {
    var h := NewHandler(id, owner, priority, timeout);
    var l := Handlers(m, p);
    var r := m.(hooks := m.hooks[p := InsertByPriority(l, h)]);
    assert Inv(m) ==> Inv(r) && forall v :: WithPriority(Handlers(r, p), v) == WithPriority(l + [h], v) by {
      if Inv(m) {
        InsertKeepsSorted(l, h);
        forall v { InsertIsStable(l, h, v); }
      }
    }
    r
  }

  /** Dropping handlers keeps a sorted list sorted. */
  lemma {:induction false} FilterKeepsSorted(l: seq<Handler>, p: Handler -> bool)
    requires SortedByPriority(l)
    ensures SortedByPriority(Filter(l, p))
    decreases |l|
  {
    if l != [] {
      FilterKeepsSorted(l[1..], p);
      var rest := Filter(l[1..], p);
      if p(l[0]) {
        assert Filter(l, p) == [l[0]] + rest;
        forall k | 0 <= k < |rest| ensures l[0].priority <= rest[k].priority {
          assert rest[k] in l[1..];
        }
        SortedCons(l[0], rest);
      } else {
        assert Filter(l, p) == [] + rest;
      }
    }
  }

  /** `unregister_hook(point, module_name)`: drops that module's handlers at the point. */
  function UnregisterHook(m: Manager, p: Point, owner: string): (r: Manager)
    ensures p in r.hooks
    ensures forall i :: 0 <= i < |Handlers(r, p)| ==> Handlers(r, p)[i].owner != owner && Handlers(r, p)[i] in Handlers(m, p)
    ensures forall i :: 0 <= i < |Handlers(m, p)| && Handlers(m, p)[i].owner != owner ==> Handlers(m, p)[i] in Handlers(r, p)
    ensures Handlers(r, p) == Filter(Handlers(m, p), (h: Handler) => h.owner != owner)
    ensures forall q :: q != p ==> Handlers(r, q) == Handlers(m, q)
    ensures Inv(m) ==> Inv(r)
  {
    var keep := Filter(Handlers(m, p), (h: Handler) => h.owner != owner);
    var r := m.(hooks := m.hooks[p := keep]);
    assert Inv(m) ==> Inv(r) by {
      if Inv(m) { FilterKeepsSorted(Handlers(m, p), (h: Handler) => h.owner != owner); }
    }
    r
  }

  /** Unregistering at the points of `ps`, one after the other. */
  function UnregisterAt(m: Manager, ps: seq<Point>, owner: string): (r: Manager)
    ensures forall q :: q in ps ==> Handlers(r, q) == Filter(Handlers(m, q), (h: Handler) => h.owner != owner)
    ensures forall q :: q !in ps ==> Handlers(r, q) == Handlers(m, q)
    ensures Inv(m) ==> Inv(r)
    decreases |ps|
  {
    if ps == [] then m
    else
      var r := UnregisterAt(UnregisterHook(m, ps[0], owner), ps[1..], owner);
      assert forall q :: q == ps[0] && q !in ps[1..] ==> Handlers(r, q) == Filter(Handlers(m, q), (h: Handler) => h.owner != owner);
      assert forall q :: q == ps[0] && q in ps[1..] ==> Handlers(r, q) == Filter(Handlers(m, q), (h: Handler) => h.owner != owner) by {
        forall q | q == ps[0] && q in ps[1..]
          ensures Handlers(r, q) == Filter(Handlers(m, q), (h: Handler) => h.owner != owner)
        {
          FilterIdempotent(Handlers(m, q), (h: Handler) => h.owner != owner);
        }
      }
      r
  }

  /** `unregister_module(module_name)`: drops the module's handlers everywhere. */
  function UnregisterModule(m: Manager, owner: string): (r: Manager)
    ensures forall q :: Handlers(r, q) == Filter(Handlers(m, q), (h: Handler) => h.owner != owner)
    ensures forall q, i :: 0 <= i < |Handlers(r, q)| ==> Handlers(r, q)[i].owner != owner
    ensures Inv(m) ==> Inv(r)
  {
    AllPointsComplete();
    UnregisterAt(m, AllPoints, owner)
  }

  /** Sets the enabled flag of `module`'s handlers in `l`; order and members stay. */
  function SetEnabled(l: seq<Handler>, owner: string, on: bool): (r: seq<Handler>)
    ensures |r| == |l|
    ensures forall i :: 0 <= i < |l| ==> r[i] == if l[i].owner == owner then l[i].(enabled := on) else l[i]
  {
    seq(|l|, i requires 0 <= i < |l| => if l[i].owner == owner then l[i].(enabled := on) else l[i])
  }

  function SetEnabledAt(m: Manager, ps: seq<Point>, owner: string, on: bool): (r: Manager)
    ensures forall q :: q in ps ==> Handlers(r, q) == SetEnabled(Handlers(m, q), owner, on)
    ensures forall q :: q !in ps ==> Handlers(r, q) == Handlers(m, q)
    ensures r.metrics == m.metrics
    decreases |ps|
  {
    if ps == [] then m
    else
      var m1 := m.(hooks := m.hooks[ps[0] := SetEnabled(Handlers(m, ps[0]), owner, on)]);
      var r := SetEnabledAt(m1, ps[1..], owner, on);
      assert forall q :: q != ps[0] ==> Handlers(m1, q) == Handlers(m, q);
      assert Handlers(m1, ps[0]) == SetEnabled(Handlers(m, ps[0]), owner, on);
      SetEnabledTwice(Handlers(m, ps[0]), owner, on);
      r
  }

  /** Setting the flag twice is setting it once. */
  lemma SetEnabledTwice(l: seq<Handler>, owner: string, on: bool)
    ensures SetEnabled(SetEnabled(l, owner, on), owner, on) == SetEnabled(l, owner, on)
  {
  }

  /** `enable_handler` / `disable_handler(module_name, point)`: at the given point,
      or at every point when none is given. */
  function SetHandlerEnabled(m: Manager, owner: string, point: Option<Point>, on: bool): (r: Manager)
    ensures forall q :: (point.None? || point.value == q) ==> Handlers(r, q) == SetEnabled(Handlers(m, q), owner, on)
    ensures forall q :: point.Some? && point.value != q ==> Handlers(r, q) == Handlers(m, q)
    ensures r.metrics == m.metrics
  {
    AllPointsComplete();
    SetEnabledAt(m, if point.Some? then [point.value] else AllPoints, owner, on)
  }

  /** Enabling or disabling changes no priority, so a sorted list stays sorted. */
  lemma SetEnabledKeepsSorted(l: seq<Handler>, owner: string, on: bool)
    requires SortedByPriority(l)
    ensures SortedByPriority(SetEnabled(l, owner, on))
  {
    var r := SetEnabled(l, owner, on);
    forall i, j | 0 <= i < j < |r| ensures r[i].priority <= r[j].priority {
      assert r[i].priority == l[i].priority && r[j].priority == l[j].priority;
    }
  }

  /** Enabling or disabling keeps every list sorted. */
  lemma SetHandlerEnabledKeepsInv(m: Manager, owner: string, point: Option<Point>, on: bool)
    requires Inv(m)
    ensures Inv(SetHandlerEnabled(m, owner, point, on))
  {
    var r := SetHandlerEnabled(m, owner, point, on);
    forall p | p in r.hooks
      ensures SortedByPriority(r.hooks[p])
    {
      var l := Handlers(m, p);
      assert SortedByPriority(l) by {
        if p in m.hooks { assert l == m.hooks[p]; }
      }
      assert r.hooks[p] == Handlers(r, p);
      if point.None? || point.value == p {
        SetEnabledKeepsSorted(l, owner, on);
      }
    }
  }

  /** The context after running the handlers of `l` one after the other. */
  function Fold<C>(l: seq<Handler>, ctx: C, run: (nat, C) -> Outcome<C>): C
    decreases |l|
  {
    if l == [] then ctx else Fold(l[1..], Execute(l[0], ctx, run), run)
  }

  /** Records the elapsed time of every handler of `l` under its module and the point. */
  function RecordTimes(metrics: map<string, map<string, real>>, l: seq<Handler>, p: Point, elapsed: nat -> real, k: nat): (r: map<string, map<string, real>>)
    ensures forall i :: 0 <= i < |l| ==> l[i].owner in r && PointValue(p) in r[l[i].owner]
    ensures forall mod :: mod in metrics ==> mod in r && metrics[mod].Keys <= r[mod].Keys
    decreases |l|
  {
    if l == [] then metrics
    else
      var mod := l[0].owner;
      var inner := if mod in metrics then metrics[mod] else map[];
      RecordTimes(metrics[mod := inner[PointValue(p) := elapsed(k)]], l[1..], p, elapsed, k + 1)
  }

  /** A module none of whose handlers ran keeps its timings. */
  lemma {:induction false} RecordTimesKeepsOthers(metrics: map<string, map<string, real>>, l: seq<Handler>, p: Point,
                                                  elapsed: nat -> real, k: nat, mod: string)
    requires mod in metrics && forall i :: 0 <= i < |l| ==> l[i].owner != mod
    ensures RecordTimes(metrics, l, p, elapsed, k)[mod] == metrics[mod]
    decreases |l|
  {
    if l != [] {
      var o := l[0].owner;
      var inner := if o in metrics then metrics[o] else map[];
      assert forall i :: 0 <= i < |l[1..]| ==> l[1..][i].owner != mod by {
        forall i | 0 <= i < |l[1..]| ensures l[1..][i].owner != mod {
          assert l[1..][i] == l[i + 1];
        }
      }
      RecordTimesKeepsOthers(metrics[o := inner[PointValue(p) := elapsed(k)]], l[1..], p, elapsed, k + 1, mod);
    }
  }

  /** Timings at other points are kept. */
  lemma {:induction false} RecordTimesKeepsOtherPoints(metrics: map<string, map<string, real>>, l: seq<Handler>, p: Point,
                                                       elapsed: nat -> real, k: nat, mod: string, key: string)
    requires mod in metrics && key in metrics[mod] && key != PointValue(p)
    ensures var r := RecordTimes(metrics, l, p, elapsed, k);
            key in r[mod] && r[mod][key] == metrics[mod][key]
    decreases |l|
  {
    if l != [] {
      var o := l[0].owner;
      var inner := if o in metrics then metrics[o] else map[];
      RecordTimesKeepsOtherPoints(metrics[o := inner[PointValue(p) := elapsed(k)]], l[1..], p, elapsed, k + 1, mod, key);
    }
  }

  /** The timing a module keeps at the point is that of its last handler in the
      list, the `i`-th handler's being `elapsed(k + i)`. */
  lemma {:induction false} RecordedTimeIsLast(metrics: map<string, map<string, real>>, l: seq<Handler>, p: Point,
                                              elapsed: nat -> real, k: nat, i: nat)
    requires i < |l| && forall j :: i < j < |l| ==> l[j].owner != l[i].owner
    ensures RecordTimes(metrics, l, p, elapsed, k)[l[i].owner][PointValue(p)] == elapsed(k + i)
    decreases |l|
  {
    var o := l[0].owner;
    var inner := if o in metrics then metrics[o] else map[];
    var m1 := metrics[o := inner[PointValue(p) := elapsed(k)]];
    if i == 0 {
      assert forall j :: 0 <= j < |l[1..]| ==> l[1..][j].owner != o by {
        forall j | 0 <= j < |l[1..]| ensures l[1..][j].owner != o {
          assert l[1..][j] == l[j + 1];
        }
      }
      RecordTimesKeepsOthers(m1, l[1..], p, elapsed, k + 1, o);
    } else {
      assert l[i] == l[1..][i - 1];
      assert forall j :: i - 1 < j < |l[1..]| ==> l[1..][j].owner != l[1..][i - 1].owner by {
        forall j | i - 1 < j < |l[1..]| ensures l[1..][j].owner != l[1..][i - 1].owner {
          assert l[1..][j] == l[j + 1];
        }
      }
      RecordedTimeIsLast(m1, l[1..], p, elapsed, k + 1, i - 1);
    }
  }

  /** `execute_hooks(point, context)`: the context folded through the point's
      handlers in list order, with a timing recorded for each. */
  function ExecuteHooks<C>(m: Manager, p: Point, ctx: C, run: (nat, C) -> Outcome<C>, elapsed: nat -> real): (r: (C, Manager))
    ensures Handlers(m, p) == [] ==> r == (ctx, m)
    ensures r.0 == Fold(Handlers(m, p), ctx, run)
    ensures r.1.hooks == m.hooks
    ensures forall i :: 0 <= i < |Handlers(m, p)| ==>
              Handlers(m, p)[i].owner in r.1.metrics && PointValue(p) in r.1.metrics[Handlers(m, p)[i].owner]
  {
    var l := Handlers(m, p);
    if l == [] then (ctx, m)
    else (Fold(l, ctx, run), m.(metrics := RecordTimes(m.metrics, l, p, elapsed, 0)))
  }

  /** Running `a` and then `b` is running `a + b`. */
  lemma {:induction false} FoldConcat<C>(a: seq<Handler>, b: seq<Handler>, ctx: C, run: (nat, C) -> Outcome<C>)
    ensures Fold(a + b, ctx, run) == Fold(b, Fold(a, ctx, run), run)
    decreases |a|
  {
    if a != [] {
      assert a + b != [] && (a + b)[0] == a[0];
      assert (a + b)[1..] == a[1..] + b;
      assert Fold(a + b, ctx, run) == Fold(a[1..] + b, Execute(a[0], ctx, run), run);
      assert Fold(a, ctx, run) == Fold(a[1..], Execute(a[0], ctx, run), run);
      FoldConcat(a[1..], b, Execute(a[0], ctx, run), run);
    } else {
      assert a + b == b;
    }
  }

  /** Disabled handlers are skipped without disturbing the others: the fold equals
      the fold over the enabled handlers alone. */
  lemma {:induction false} DisabledAreSkipped<C>(l: seq<Handler>, ctx: C, run: (nat, C) -> Outcome<C>)
    ensures Fold(l, ctx, run) == Fold(Filter(l, (h: Handler) => h.enabled), ctx, run)
    decreases |l|
  {
    if l != [] {
      var en := (h: Handler) => h.enabled;
      var rest := Filter(l[1..], en);
      DisabledAreSkipped(l[1..], Execute(l[0], ctx, run), run);
      if l[0].enabled {
        var f := [l[0]] + rest;
        assert Filter(l, en) == f;
        assert f[0] == l[0] && f[1..] == rest;
      } else {
        assert Filter(l, en) == rest by { assert [] + rest == rest; }
        assert Execute(l[0], ctx, run) == ctx;
      }
    }
  }

  /** A handler that fails without having touched the context it was given. */
  ghost predicate FailsUntouched<C>(o: Outcome<C>, c: C) {
    o == Raised(c) || o == TimedOut(c)
  }

  /** Fail-open: when every handler raises or times out on whatever it is given,
      without changing it first, the input context comes out unchanged. */
  lemma {:induction false} AllFailingLeavesContext<C>(l: seq<Handler>, ctx: C, run: (nat, C) -> Outcome<C>)
    requires forall i, c :: 0 <= i < |l| ==> FailsUntouched(run(l[i].id, c), c)
    ensures Fold(l, ctx, run) == ctx
    decreases |l|
  {
    if l != [] {
      assert FailsUntouched(run(l[0].id, ctx), ctx);
      assert forall i, c :: 0 <= i < |l[1..]| ==> FailsUntouched(run(l[1..][i].id, c), c) by {
        forall i, c | 0 <= i < |l[1..]| ensures FailsUntouched(run(l[1..][i].id, c), c) {
          assert l[1..][i] == l[i + 1];
        }
      }
      AllFailingLeavesContext(l[1..], ctx, run);
    }
  }

  /** Each handler receives the previous handler's result: two succeeding handlers
      compose. */
  lemma TwoHandlersCompose<C>(h1: Handler, h2: Handler, ctx: C, run: (nat, C) -> Outcome<C>)
    requires h1.enabled && h2.enabled && run(h1.id, ctx).Returned?
    requires run(h2.id, run(h1.id, ctx).result).Returned?
    ensures Fold([h1, h2], ctx, run) == run(h2.id, run(h1.id, ctx).result).result
  {
    var c1 := run(h1.id, ctx).result;
    assert Execute(h1, ctx, run) == c1;
    assert Execute(h2, c1, run) == run(h2.id, c1).result;
    assert [h1, h2][1..] == [h2];
    assert [h2][1..] == [];
    assert Fold([h2], c1, run) == Fold([], Execute(h2, c1, run), run);
  }
}
