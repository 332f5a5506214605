/** The Ollama language-model service (`OLLamaLLMService`): a chat request is
    answered by a stream of newline-delimited JSON objects whose message
    contents are the tokens of the reply; the tokens are pushed as text frames
    between a response-start and a response-end frame, and the whole reply is
    appended to the conversation context.

    The HTTP exchange is reduced to whether the response status is an error and
    the lines of the body, each already classified as empty, not JSON, or a
    decoded JSON value. Notifications to the event bus are recorded as notices,
    without their wall-clock timestamps and model name. */
module Ollama {
  import opened Common
  import opened Frames

  /** One line of the response body: empty, not JSON, a JSON object, or a JSON
      value that is not an object (a list, string, number, boolean or null). */
  datatype Line = Blank | Unparsable | Parsed(data: map<string, Value>) | ParsedOther(v: Value)

  /** `"content" in m` on a string or list message: a substring or an item. */
  predicate ContentIn(m: Value) {
    (m.Str? && Contains(m.s, "content")) || (m.List? && Str("content") in m.items)
  }

  /** What reading `data["message"]["content"]` finds: no token, a token value,
      or a `TypeError` from testing or indexing a message that is not a dict. */
  datatype Content = NoContent | ContentValue(v: Value) | ContentRaises

  /** `"message" in data and "content" in data["message"]`, then the index: a
      string message is searched for the substring and a list for the item,
      and either is then indexed by a string, which raises; any other value
      does not support `in`. */
  function ContentOf(data: map<string, Value>): (r: Content)
    ensures "message" !in data ==> r == NoContent
    ensures r.ContentValue? <==> "message" in data && data["message"].Dict? && "content" in data["message"].entries
    ensures r.ContentValue? ==> r.v == data["message"].entries["content"]
    ensures r == ContentRaises <==>
              && "message" in data && !data["message"].Dict?
              && ((!data["message"].Str? && !data["message"].List?) || ContentIn(data["message"]))
  {
    if "message" !in data then NoContent
    else match data["message"]
      case Dict(m) => if "content" in m then ContentValue(m["content"]) else NoContent
      case Str(s) => if Contains(s, "content") then ContentRaises else NoContent
      case List(items) => if Str("content") in items then ContentRaises else NoContent
      case _ => ContentRaises
  }

  /** What one line does to the stream. */
  datatype Step =
    | Skip                                 // empty or not JSON: read on
    | Stop                                 // an `"error"` object: stop, yielding nothing
    | Raise                                // an exception leaves the generator
    | Yield(token: Option<string>, done: bool)

  /** The step of a line holding a JSON object. */
  function ObjectStep(data: map<string, Value>): (s: Step)
    ensures s.Yield? && s.token.Some? ==> s.token.value != []
    ensures s.Stop? <==> "error" in data
  {
    if "error" in data then Stop
    else
      var done := Truthy(if "done" in data then data["done"] else Bool(false));
      match ContentOf(data)
      case NoContent => Yield(None, done)
      case ContentRaises => Raise
      case ContentValue(v) =>
        if !Truthy(v) then Yield(None, done)
        else if v.Str? then Yield(Some(v.s), done)
        else Raise   // `full_response += token` on a non-string
  }

  /** What `"error" in data` finds on a value that is not an object: a list
      holding the string, or a string containing it. */
  predicate ErrorIn(v: Value) {
    (v.List? && Str("error") in v.items) || (v.Str? && Contains(v.s, "error"))
  }

  /** A line that is not a JSON object stops the stream when `"error" in data`
      holds for it; otherwise the `in` test, the `"message"` index or `data.get`
      raises. */
  function StepOf(line: Line): (s: Step)
    ensures s.Yield? && s.token.Some? ==> s.token.value != []
    ensures line.Blank? || line.Unparsable? ==> s == Skip
    ensures line.ParsedOther? && !line.v.Dict? ==> (s == Stop <==> ErrorIn(line.v)) && (s.Stop? || s.Raise?)
  {
    match line
    case Blank => Skip
    case Unparsable => Skip
    case Parsed(data) => ObjectStep(data)
    case ParsedOther(v) =>
      if v.Dict? then ObjectStep(v.entries)
      else if ErrorIn(v) then Stop
      else Raise
  }

  /** Whether a line ends the stream. */
  predicate Ends(line: Line) {
    var s := StepOf(line);
    s.Stop? || s.Raise? || (s.Yield? && s.done)
  }

  /** The tokens a stream yields, in order, and whether it raised. */
  datatype Stream = Stream(tokens: seq<string>, raised: bool)

  /** A step that yields a token yields a non-empty one. */
  predicate ValidStep(step: Step) {
    step.Yield? && step.token.Some? ==> step.token.value != []
  }

  /** The stream from a line on, given the step the line takes and the stream
      of the lines after it. */
  function Continue(step: Step, later: Stream): (r: Stream)
    requires ValidStep(step)
    requires forall i :: 0 <= i < |later.tokens| ==> later.tokens[i] != []
    ensures forall i :: 0 <= i < |r.tokens| ==> r.tokens[i] != []
  {
    match step
    case Skip => later
    case Stop => Stream([], false)
    case Raise => Stream([], true)
    case Yield(token, done) =>
      var mine := if token.Some? then [token.value] else [];
      if done then Stream(mine, false) else Stream(mine + later.tokens, later.raised)
  }

  /** The line-consumption loop of `_generate_chat_completion`. */
  function Consume(lines: seq<Line>): (r: Stream)
    ensures forall i :: 0 <= i < |r.tokens| ==> r.tokens[i] != []
    decreases |lines|
  {
    if lines == [] then Stream([], false) else Continue(StepOf(lines[0]), Consume(lines[1..]))
  }

  /** The stream of a line followed by more lines. */
  lemma ConsumeCons(line: Line, rest: seq<Line>)
    ensures Consume([line] + rest) == Continue(StepOf(line), Consume(rest))
  {
    assert ([line] + rest)[0] == line;
    assert ([line] + rest)[1..] == rest;
  }

  /** The loop as written, accumulating `full_response`; a stop, an error or a
      done line leaves the loop at once. */
  method ConsumeLines(lines: seq<Line>) returns (tokens: seq<string>, full: string, raised: bool)
    ensures Stream(tokens, raised) == Consume(lines)
    ensures full == Concat(tokens)
  {
    tokens := [];
    full := "";
    raised := false;
    var i := 0;
    while i < |lines|
      invariant 0 <= i <= |lines|
      invariant full == Concat(tokens) && !raised
      invariant Consume(lines) == Stream(tokens + Consume(lines[i..]).tokens, Consume(lines[i..]).raised)
      decreases |lines| - i
    {
      assert lines[i..] == [lines[i]] + lines[i + 1..];
      ConsumeCons(lines[i], lines[i + 1..]);
      TurnStep(tokens, StepOf(lines[i]), Consume(lines[i + 1..]));
      match StepOf(lines[i])
      case Skip =>
        i := i + 1;
      case Stop =>
        return;
      case Raise =>
        raised := true;
        return;
      case Yield(token, done) =>
        if token.Some? {
          ConcatSnoc(tokens, token.value);
          full := full + token.value;
          tokens := tokens + [token.value];
        }
        if done {
          return;
        }
        i := i + 1;
    }
    assert lines[i..] == [];
    assert tokens + [] == tokens;
  }

  /** The stream after `tokens`, once one more step is taken. */
  lemma TurnStep(tokens: seq<string>, step: Step, later: Stream)
    requires ValidStep(step)
    requires forall i :: 0 <= i < |later.tokens| ==> later.tokens[i] != []
    ensures var now := Continue(step, later);
            var whole := Stream(tokens + now.tokens, now.raised);
            match step
            case Skip => whole == Stream(tokens + later.tokens, later.raised)
            case Stop => whole == Stream(tokens, false)
            case Raise => whole == Stream(tokens, true)
            case Yield(token, done) =>
              var more := if token.Some? then tokens + [token.value] else tokens;
              whole == (if done then Stream(more, false) else Stream(more + later.tokens, later.raised))
  {
    match step
    case Skip =>
    case Stop =>
      assert tokens + [] == tokens;
    case Raise =>
      assert tokens + [] == tokens;
    case Yield(token, done) =>
      if token.Some? {
        assert tokens + ([token.value] + later.tokens) == (tokens + [token.value]) + later.tokens;
      } else {
        assert tokens + ([] + later.tokens) == tokens + later.tokens;
        assert tokens + [] == tokens;
      }
  }

  lemma {:induction false} ConcatSnoc(parts: seq<string>, t: string)
    ensures Concat(parts + [t]) == Concat(parts) + t
    decreases |parts|
  {
    if parts == [] {
      assert [] + [t] == [t];
    } else {
      assert (parts + [t])[1..] == parts[1..] + [t];
      ConcatSnoc(parts[1..], t);
    }
  }

  /** The reply is non-empty exactly when some token was yielded. */
  lemma {:induction false} ReplyNonEmptyIffTokens(tokens: seq<string>)
    requires forall i :: 0 <= i < |tokens| ==> tokens[i] != []
    ensures Concat(tokens) != [] <==> tokens != []
    decreases |tokens|
  {
    if tokens != [] {
      assert Concat(tokens) == tokens[0] + Concat(tokens[1..]);
      assert |Concat(tokens)| >= |tokens[0]| > 0;
    }
  }

  predicate IsParsed(line: Line) {
    line.Parsed? || line.ParsedOther?
  }

  /** Empty and unparsable lines are skipped without stopping: removing them
      changes nothing. */
  lemma {:induction false} SkippedLinesIgnored(lines: seq<Line>)
    ensures Consume(Filter(lines, IsParsed)) == Consume(lines)
    decreases |lines|
  {
    if lines != [] {
      SkippedLinesIgnored(lines[1..]);
      var rest := Filter(lines[1..], IsParsed);
      var l0 := lines[0];
      assert Filter(lines, IsParsed) == (if IsParsed(l0) then [l0] else []) + rest;
      assert [l0] + lines[1..] == lines;
      ConsumeCons(l0, lines[1..]);
      if IsParsed(l0) {
        ConsumeCons(l0, rest);
      } else {
        assert [] + rest == rest;
        assert StepOf(l0) == Skip;
      }
    }
  }

  /** Nothing after a line that ends the stream is read: an error object, a
      raising line, or a `done` object. */
  lemma {:induction false} NothingReadAfterEnd(pre: seq<Line>, line: Line, post: seq<Line>)
    requires Ends(line)
    ensures Consume(pre + [line] + post) == Consume(pre + [line])
    decreases |pre|
  {
    if pre == [] {
      assert [] + [line] + post == [line] + post;
      assert [] + [line] == [line] + [];
      ConsumeCons(line, post);
      ConsumeCons(line, []);
    } else {
      NothingReadAfterEnd(pre[1..], line, post);
      assert pre + [line] + post == [pre[0]] + (pre[1..] + [line] + post);
      assert pre + [line] == [pre[0]] + (pre[1..] + [line]);
      ConsumeCons(pre[0], pre[1..] + [line] + post);
      ConsumeCons(pre[0], pre[1..] + [line]);
    }
  }

  /** A `done` object still yields its own token. */
  lemma DoneYieldsItsToken(content: string, post: seq<Line>)
    requires content != []
    ensures Consume([Parsed(map["message" := Dict(map["content" := Str(content)]), "done" := Bool(true)])] + post)
            == Stream([content], false)
  {
    var line := Parsed(map["message" := Dict(map["content" := Str(content)]), "done" := Bool(true)]);
    assert StepOf(line) == Yield(Some(content), true);
    ConsumeCons(line, post);
  }

  // ---------------------------------------------------------------------------
  // Generation and frame handling
  // ---------------------------------------------------------------------------

  /** Notifications sent to the event bus. */
  datatype Notice = ResponseStart | ResponseChunk(token: string) | ResponseComplete(text: string) | TranscriptionFinal(text: string)

  /** What a generation did: the frames it yielded, the context's messages
      afterwards, the notices, and whether it raised. */
  datatype Generation = Generation(frames: seq<Frame>, messages: seq<ChatMessage>, notices: seq<Notice>, raised: bool)

  function TextFrames(tokens: seq<string>): (r: seq<Frame>)
    ensures |r| == |tokens| && forall i :: 0 <= i < |r| ==> r[i] == TextFrame(tokens[i])
  {
    seq(|tokens|, i requires 0 <= i < |tokens| => TextFrame(tokens[i]))
  }

  function Chunks(tokens: seq<string>): (r: seq<Notice>)
    ensures |r| == |tokens| && forall i :: 0 <= i < |r| ==> r[i] == ResponseChunk(tokens[i])
  {
    seq(|tokens|, i requires 0 <= i < |tokens| => ResponseChunk(tokens[i]))
  }

  /** `_generate_chat_completion(context)`: an error status raises before any
      token; otherwise every token becomes a text frame, and a non-empty reply
      is appended to the context as the assistant's message unless the stream
      raised. */
  function Generate(messages: seq<ChatMessage>, httpError: bool, lines: seq<Line>, hasEmitter: bool): (r: Generation)
    ensures httpError ==> r.raised && r.frames == [] && r.messages == messages
    ensures !httpError ==> r.frames == TextFrames(Consume(lines).tokens) && r.raised == Consume(lines).raised
    ensures r.raised ==> r.messages == messages
    ensures !r.raised ==>
              var reply := Concat(Consume(lines).tokens);
              r.messages == messages + (if reply != [] then [ChatMessage(Some("assistant"), Some(Str(reply)))] else [])
    ensures !hasEmitter ==> r.notices == []
  {
    var start := if hasEmitter then [ResponseStart] else [];
    if httpError then Generation([], messages, start, true)
    else
      var s := Consume(lines);
      var reply := Concat(s.tokens);
      var chunks := if hasEmitter then Chunks(s.tokens) else [];
      if s.raised then Generation(TextFrames(s.tokens), messages, start + chunks, true)
      else if reply == [] then Generation(TextFrames(s.tokens), messages, start + chunks, false)
      else
        var complete := if hasEmitter then [ResponseComplete(reply)] else [];
        Generation(TextFrames(s.tokens), messages + [ChatMessage(Some("assistant"), Some(Str(reply)))], start + chunks + complete, false)
  }

  /** The assistant's message is appended exactly when a stream that did not
      raise yielded some token, and it is all the tokens joined. */
  lemma AssistantAppendedIffTokens(messages: seq<ChatMessage>, lines: seq<Line>, hasEmitter: bool)
    ensures var r := Generate(messages, false, lines, hasEmitter);
            var s := Consume(lines);
            && (|r.messages| == |messages| + 1 <==> !s.raised && s.tokens != [])
            && (|r.messages| == |messages| + 1 ==> r.messages[|messages|] == ChatMessage(Some("assistant"), Some(Str(Concat(s.tokens)))))
  {
    ReplyNonEmptyIffTokens(Consume(lines).tokens);
  }

  /** `msg.get("content", "")`. */
  function ContentText(m: ChatMessage): Value {
    if m.content.Some? then m.content.value else Str("")
  }

  /** The content of the last message whose role is `"user"`, if any. */
  function LastUserContent(messages: seq<ChatMessage>): (r: Option<Value>)
    ensures r.None? <==> forall i :: 0 <= i < |messages| ==> messages[i].role != Some("user")
    ensures r.Some? ==> exists i :: 0 <= i < |messages| && messages[i].role == Some("user")
                          && ContentText(messages[i]) == r.value
                          && forall j :: i < j < |messages| ==> messages[j].role != Some("user")
    decreases |messages|
  {
    if messages == [] then None
    else
      var n := |messages| - 1;
      var last := messages[n];
      if last.role == Some("user") then Some(ContentText(last))
      else
        var r := LastUserContent(messages[..n]);
        assert forall i :: 0 <= i < n ==> messages[..n][i] == messages[i];
        r
  }

  /** The `transcription_final` notice `process_frame` sends first: the last
      user message, when there is a bus and that message has some non-blank
      text. `user_text and user_text.strip()` raises `AttributeError` when the
      content is truthy but not a string. */
  function UserAnnouncement(messages: seq<ChatMessage>, hasEmitter: bool): (r: Result<seq<Notice>, string>)
    ensures r.Err? <==> hasEmitter && LastUserContent(messages).Some?
                        && Truthy(LastUserContent(messages).value) && !LastUserContent(messages).value.Str?
    ensures r.Ok? ==> |r.value| <= 1
    ensures r.Ok? && r.value != [] <==>
              hasEmitter && (exists i :: 0 <= i < |messages| && messages[i].role == Some("user"))
              && LastUserContent(messages).value.Str? && !AllSpace(LastUserContent(messages).value.s)
    ensures r.Ok? && r.value != [] ==> r.value[0] == TranscriptionFinal(LastUserContent(messages).value.s)
  {
    var user := LastUserContent(messages);
    if !hasEmitter || messages == [] || user.None? || !Truthy(user.value) then Ok([])
    else if !user.value.Str? then Err("AttributeError")
    else if AllSpace(user.value.s) then Ok([])
    else Ok([TranscriptionFinal(user.value.s)])
  }

  /** What a frame did: the frames pushed, the context afterwards, the notices,
      and whether an exception left `process_frame` (after the end frame, or
      before anything when the announcement raised). */
  datatype Outcome = Outcome(pushed: seq<Push>, messages: Option<seq<ChatMessage>>, notices: seq<Notice>, raised: bool)

  /** `process_frame(frame, direction)` after the base class has seen the frame.
      A context frame announces the user's last message when there is a bus,
      then is answered between a start and an end frame, the end frame being
      pushed even when generation raises; any other frame is forwarded. An
      announcement that raises comes before the `try`, so nothing is pushed. */
  function ProcessFrame(f: Frame, dir: Direction, httpError: bool, lines: seq<Line>, hasEmitter: bool): (r: Outcome)
    ensures !f.LlmContextFrame? ==> r == Outcome([Push(f, dir)], None, [], false)
    ensures f.LlmContextFrame? && UserAnnouncement(f.messages, hasEmitter).Err? ==>
              r == Outcome([], Some(f.messages), [], true)
    ensures f.LlmContextFrame? && UserAnnouncement(f.messages, hasEmitter).Ok? ==>
              var g := Generate(f.messages, httpError, lines, hasEmitter);
              && |r.pushed| == |g.frames| + 2
              && r.pushed[0] == Push(LlmFullResponseStartFrame, Downstream)
              && r.pushed[|r.pushed| - 1] == Push(LlmFullResponseEndFrame, Downstream)
              && (forall i :: 0 <= i < |g.frames| ==> r.pushed[i + 1] == Push(g.frames[i], dir))
              && r.messages == Some(g.messages)
              && r.raised == g.raised
              && r.notices == UserAnnouncement(f.messages, hasEmitter).value + g.notices
  {
    if !f.LlmContextFrame? then Outcome([Push(f, dir)], None, [], false)
    else match UserAnnouncement(f.messages, hasEmitter)
      case Err(_) => Outcome([], Some(f.messages), [], true)
      case Ok(announce) =>
        var g := Generate(f.messages, httpError, lines, hasEmitter);
        var body := seq(|g.frames|, i requires 0 <= i < |g.frames| => Push(g.frames[i], dir));
        var pushed := Bracket(Push(LlmFullResponseStartFrame, Downstream), body, Push(LlmFullResponseEndFrame, Downstream));
        Outcome(pushed, Some(g.messages), announce + g.notices, g.raised)
  }

  /** A last user message made of content parts, with a bus, raises before the
      response is bracketed: nothing is pushed and the context is untouched. */
  lemma ContentPartsRaiseBeforeStart(dir: Direction, httpError: bool, lines: seq<Line>)
    ensures var parts := List([Dict(map["type" := Str("text"), "text" := Str("hi")])]);
            var messages := [ChatMessage(Some("user"), Some(parts))];
            ProcessFrame(LlmContextFrame(messages), dir, httpError, lines, true)
            == Outcome([], Some(messages), [], true)
  {
  }

  /** `body` between a first and a last push. */
  function Bracket(first: Push, body: seq<Push>, last: Push): (r: seq<Push>)
    ensures |r| == |body| + 2 && r[0] == first && r[|r| - 1] == last
    ensures forall i :: 0 <= i < |body| ==> r[i + 1] == body[i]
  {
    [first] + body + [last]
  }

  /** Start and end frames bracket the response exactly once each, even when the
      request fails before any token, once the announcement has not raised. */
  lemma BracketedEvenOnError(messages: seq<ChatMessage>, dir: Direction, lines: seq<Line>, hasEmitter: bool)
    ensures UserAnnouncement(messages, hasEmitter).Ok? ==>
              ProcessFrame(LlmContextFrame(messages), dir, true, lines, hasEmitter).pushed
              == [Push(LlmFullResponseStartFrame, Downstream), Push(LlmFullResponseEndFrame, Downstream)]
    ensures ProcessFrame(LlmContextFrame(messages), dir, true, lines, hasEmitter).raised
  {
    if UserAnnouncement(messages, hasEmitter).Ok? {
      var r := ProcessFrame(LlmContextFrame(messages), dir, true, lines, hasEmitter);
      assert |r.pushed| == 2;
    }
  }
}
