/** The conversation state record (`ConversationState`): a session's turns, the
    current speaker, the user profile and free context, and its dictionary form.
    The turn time `time.time()` is the parameter `now`. */
module ConversationState {
  import opened Common

  datatype Turn = Turn(speaker: string, text: string, timestamp: real, metadata: Value)

  datatype State = State(
    sessionId: string,
    turns: seq<Turn>,
    currentSpeaker: Option<string>,
    userProfile: map<string, Value>,
    context: map<string, Value>)

  /** The dataclass defaults. */
  function Init(): (s: State)
    ensures s.sessionId == "" && s.turns == [] && s.currentSpeaker.None?
    ensures s.userProfile == map[] && s.context == map[]
  {
    State("", [], None, map[], map[])
  }

  /** `add_turn(speaker, text, metadata)`: exactly one turn at the end; `metadata`
      falls back to `{}` when falsy. Nothing else changes. */
  function AddTurn(s: State, speaker: string, text: string, metadata: Value, now: real): (r: State)
    ensures |r.turns| == |s.turns| + 1 && r.turns[..|s.turns|] == s.turns
    ensures r.turns[|s.turns|].speaker == speaker && r.turns[|s.turns|].text == text
    ensures r.turns[|s.turns|].timestamp == now
    ensures r.turns[|s.turns|].metadata == if Truthy(metadata) then metadata else Dict(map[])
    ensures r.(turns := s.turns) == s
  {
    s.(turns := s.turns + [Turn(speaker, text, now, if Truthy(metadata) then metadata else Dict(map[]))])
  }

  /** `get_history(limit)`: `turns[-limit:]` for a non-zero limit, else all turns. */
  function GetHistory(s: State, limit: int): (r: seq<Turn>)
    ensures limit > 0 ==> |r| == Min(limit, |s.turns|) && r == s.turns[|s.turns| - |r|..]
    ensures limit == 0 ==> r == s.turns
    ensures limit < 0 ==> r == s.turns[Min(-limit, |s.turns|)..]
  {
    if limit != 0 then PyTail(s.turns, limit) else s.turns
  }

  /** Adding a turn and asking for the last `n + 1` gives the last `n` before it
      followed by the new turn. */
  lemma {:induction false} HistoryAfterAddTurn(s: State, speaker: string, text: string, metadata: Value, now: real, n: nat)
    ensures var r := AddTurn(s, speaker, text, metadata, now);
            GetHistory(r, n + 1) == (if n == 0 then [] else GetHistory(s, n)) + [r.turns[|s.turns|]]
  {
    var r := AddTurn(s, speaker, text, metadata, now);
    var t := r.turns[|s.turns|];
    assert r.turns == s.turns + [t];
    var h := GetHistory(r, n + 1);
    var k := Min(n + 1, |r.turns|);
    assert h == r.turns[|r.turns| - k..];
    if n == 0 {
      assert h == [t];
    } else {
      var g := GetHistory(s, n);
      assert g == s.turns[|s.turns| - Min(n, |s.turns|)..];
      assert h == g + [t];
    }
  }

  function TurnDict(t: Turn): Value {
    Dict(map["speaker" := Str(t.speaker), "text" := Str(t.text), "timestamp" := Real(t.timestamp), "metadata" := t.metadata])
  }

  function OptionalStr(o: Option<string>): Value {
    if o.Some? then Str(o.value) else Null
  }

  /** `to_dict()`. */
  function ToDict(s: State): (d: map<string, Value>)
    ensures d.Keys == {"session_id", "turns", "current_speaker", "user_profile", "context"}
    ensures d["turns"].List? && |d["turns"].items| == |s.turns|
  {
    map[
      "session_id" := Str(s.sessionId),
      "turns" := List(seq(|s.turns|, i requires 0 <= i < |s.turns| => TurnDict(s.turns[i]))),
      "current_speaker" := OptionalStr(s.currentSpeaker),
      "user_profile" := Dict(s.userProfile),
      "context" := Dict(s.context)]
  }

  /** Reads a turn back from its dictionary form. */
  function TurnOf(v: Value): Option<Turn> {
    if v.Dict? && "speaker" in v.entries && "text" in v.entries && "timestamp" in v.entries && "metadata" in v.entries
       && v.entries["speaker"].Str? && v.entries["text"].Str? && v.entries["timestamp"].Real?
    then Some(Turn(v.entries["speaker"].s, v.entries["text"].s, v.entries["timestamp"].r, v.entries["metadata"]))
    else None
  }

  /** Reads a state back from its dictionary form; the source has no such method,
      it serves as the reference the dictionary form is checked against. */
  function StateOf(d: map<string, Value>): Option<State> {
    if "session_id" !in d || "turns" !in d || "current_speaker" !in d || "user_profile" !in d || "context" !in d then None
    else if !d["session_id"].Str? || !d["turns"].List? || !d["user_profile"].Dict? || !d["context"].Dict? then None
    else if !(d["current_speaker"].Null? || d["current_speaker"].Str?) then None
    else if exists i :: 0 <= i < |d["turns"].items| && TurnOf(d["turns"].items[i]).None? then None
    else
      var items := d["turns"].items;
      Some(State(d["session_id"].s,
                 seq(|items|, i requires 0 <= i < |items| && TurnOf(items[i]).Some? => TurnOf(items[i]).value),
                 if d["current_speaker"].Str? then Some(d["current_speaker"].s) else None,
                 d["user_profile"].entries,
                 d["context"].entries))
  }

  /** The dictionary form loses nothing: turns in order with speaker, text,
      timestamp and metadata, and the other fields copied unchanged. */
  lemma ToDictRoundTrip(s: State)
    ensures StateOf(ToDict(s)) == Some(s)
  {
    var d := ToDict(s);
    var items := d["turns"].items;
    forall i | 0 <= i < |items| ensures TurnOf(items[i]) == Some(s.turns[i]) {
      assert items[i] == TurnDict(s.turns[i]);
    }
    var r := StateOf(d);
    assert r.Some?;
    assert r.value.turns == s.turns;
  }
}
