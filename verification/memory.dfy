/** The memory module (`MemoryModule`): a bounded short-term history of user and
    assistant utterances, naive fact extraction from user text, recent-context
    queries and a case-insensitive search. Reading and writing the memory file is
    left out; the model reports when a save is due. */
module Memory {
  import opened Common

  const NamePhrase: string := "my name is"
  const LikePhrase: string := "i like"

  /** One short-term entry: `type`, `text`, `timestamp`, and for user entries the
      whole event data as `metadata`. */
  datatype Entry = Entry(kind: string, text: Value, timestamp: Value, metadata: Option<map<string, Value>>)

  datatype Memory = Memory(
    maxHistory: nat,
    saveToDisk: bool,
    shortTerm: seq<Entry>,
    userFacts: map<string, Value>)

  /** The deque never holds more than its bound. */
  predicate Inv(m: Memory) {
    |m.shortTerm| <= m.maxHistory
  }

  /** A fresh module; the bound defaults to 100 when the configuration has none. */
  function Init(maxHistory: nat, saveToDisk: bool): (m: Memory)
    ensures Inv(m) && m.shortTerm == [] && m.userFacts == map[]
  {
    Memory(maxHistory, saveToDisk, [], map[])
  }

  const DefaultMaxHistory: nat := 100

  /** `d.get(key, default)`. */
  function Get(d: map<string, Value>, key: string, default: Value): Value {
    if key in d then d[key] else default
  }

  /** The name fact of `text`, when the lower-cased text mentions a name: the first
      word after the last case-sensitive `my name is`, or of the whole text when
      that exact phrase is absent. `None` means the remainder has no word, where
      the source raises `IndexError`. */
  function NameOf(text: string): (r: Option<string>)
    ensures r.Some? ==> r.value != [] && NoSpace(r.value)
    ensures r.None? <==> AllSpace(SplitLast(text, NamePhrase))
  {
    var words := Words(Strip(SplitLast(text, NamePhrase)));
    if words == [] then None else Some(words[0])
  }

  /** The `likes` fact of `text`: the stripped piece after the last case-sensitive
      `i like`, or the whole stripped text when that exact phrase is absent. */
  function LikeOf(text: string): (r: string)
    ensures !Contains(text, LikePhrase) ==> r == Strip(text)
  {
    Strip(SplitLast(text, LikePhrase))
  }

  /** The name rule of `_extract_facts`: when the lower-cased text mentions a name,
      the name fact is replaced; an empty remainder raises. */
  function ApplyName(facts: map<string, Value>, text: string): (r: Result<map<string, Value>, string>)
    ensures r.Err? <==> Contains(Lower(text), NamePhrase) && NameOf(text).None?
    ensures r.Ok? && Contains(Lower(text), NamePhrase) ==> r.value == facts["name" := Str(NameOf(text).value)]
    ensures !Contains(Lower(text), NamePhrase) ==> r == Ok(facts)
    ensures r.Ok? ==> forall k :: k != "name" ==> (k in r.value <==> k in facts) && (k in facts ==> r.value[k] == facts[k])
  {
    if !Contains(Lower(text), NamePhrase) then Ok(facts)
    else match NameOf(text)
      case None => Err("IndexError")
      case Some(n) => Ok(facts["name" := Str(n)])
  }

  /** The like rule of `_extract_facts`: when the lower-cased text mentions a
      liking, the remainder is appended to the `likes` list, created when missing;
      a `likes` entry that is not a list has no `append` and raises. */
  function ApplyLike(facts: map<string, Value>, text: string): (r: Result<map<string, Value>, string>)
    ensures r.Err? <==> Contains(Lower(text), LikePhrase) && "likes" in facts && !facts["likes"].List?
    ensures r.Ok? && Contains(Lower(text), LikePhrase) ==>
              r.value == facts["likes" := List(Get(facts, "likes", List([])).items + [Str(LikeOf(text))])]
    ensures !Contains(Lower(text), LikePhrase) ==> r == Ok(facts)
    ensures r.Ok? ==> forall k :: k != "likes" ==> (k in r.value <==> k in facts) && (k in facts ==> r.value[k] == facts[k])
  {
    if !Contains(Lower(text), LikePhrase) then Ok(facts)
    else
      var likes := Get(facts, "likes", List([]));
      if !likes.List? then Err("AttributeError")
      else Ok(facts["likes" := List(likes.items + [Str(LikeOf(text))])])
  }

  /** What `_extract_facts` leaves behind: the facts as they stand when it returns
      or raises, and the error raised if any. */
  datatype FactsOutcome = FactsOutcome(facts: map<string, Value>, error: Option<string>)

  /** `_extract_facts(text)`: the name rule, then the like rule. A raise in the
      name rule skips the like rule; a raise in the like rule comes after the name
      fact was already stored, so the name stays. Only the `name` and `likes`
      facts are ever touched. */
  function ExtractFacts(facts: map<string, Value>, text: string): (r: FactsOutcome)
    ensures r.error.Some? <==>
              || (Contains(Lower(text), NamePhrase) && AllSpace(SplitLast(text, NamePhrase)))
              || (Contains(Lower(text), LikePhrase) && "likes" in facts && !facts["likes"].List?)
    ensures Contains(Lower(text), NamePhrase) && NameOf(text).None? ==> r.facts == facts
    ensures Contains(Lower(text), NamePhrase) && NameOf(text).Some? ==>
              "name" in r.facts && r.facts["name"] == Str(NameOf(text).value)
    ensures !Contains(Lower(text), NamePhrase) ==>
              ("name" in r.facts <==> "name" in facts) && ("name" in facts ==> r.facts["name"] == facts["name"])
    ensures r.error.None? && Contains(Lower(text), LikePhrase) ==>
              "likes" in r.facts && r.facts["likes"] == List(Get(facts, "likes", List([])).items + [Str(LikeOf(text))])
    ensures r.error.Some? || !Contains(Lower(text), LikePhrase) ==>
              ("likes" in r.facts <==> "likes" in facts) && ("likes" in facts ==> r.facts["likes"] == facts["likes"])
    ensures forall k :: k != "name" && k != "likes" ==>
              (k in r.facts <==> k in facts) && (k in facts ==> r.facts[k] == facts[k])
  {
    match ApplyName(facts, text)
    case Err(e) => FactsOutcome(facts, Some(e))
    case Ok(f) =>
      match ApplyLike(f, text)
      case Err(e) => FactsOutcome(f, Some(e))
      case Ok(g) => FactsOutcome(g, None)
  }

  /** A lower-case phrase found in a text is found in its lower-cased text too. */
  lemma LowerKeepsLowerPhrase(t: string, p: string, i: nat)
    requires OccursAt(t, p, i) && Lower(p) == p
    ensures OccursAt(Lower(t), p, i)
  {
    forall k | 0 <= k < |p| ensures Lower(t)[i + k] == p[k] {
      assert t[i + k] == t[i..i + |p|][k];
    }
  }

  lemma NamePhraseUnbordered()
    ensures Unbordered(NamePhrase)
  {
    forall d | 0 < d < |NamePhrase| ensures NamePhrase[d..] != NamePhrase[..|NamePhrase| - d] {
      assert NamePhrase[d..][|NamePhrase| - d - 1] != NamePhrase[..|NamePhrase| - d][|NamePhrase| - d - 1];
    }
  }

  lemma LikePhraseUnbordered()
    ensures Unbordered(LikePhrase)
  {
    forall d | 0 < d < |LikePhrase| ensures LikePhrase[d..] != LikePhrase[..|LikePhrase| - d] {
      assert LikePhrase[d..][|LikePhrase| - d - 1] != LikePhrase[..|LikePhrase| - d][|LikePhrase| - d - 1];
    }
  }

  lemma StripRightHead(s: string)
    ensures StripRight(s) == [] || StripRight(s)[0] == s[0]
  {
    var t := StripRight(s);
    if t != [] {
      assert t[0] == s[..|t|][0];
    }
  }

  /** A word followed by the right-stripped rest of a text that does not glue
      onto it splits into that word first. */
  lemma FirstWordOfStripped(name: string, post: string)
    requires name != [] && NoSpace(name) && (post == [] || IsSpace(post[0]))
    ensures Words(name + StripRight(post)) != [] && Words(name + StripRight(post))[0] == name
  {
    StripRightHead(post);
    FirstWordOf(name, StripRight(post));
  }

  /** The name is the first word after the last `my name is`: with blanks `gap`,
      a word `name` and a rest `post` that does not glue onto the word, the text
      yields exactly `name`. */
  lemma NameFollowsLastPhrase(pre: string, gap: string, name: string, post: string)
    requires AllSpace(gap) && name != [] && NoSpace(name) && (post == [] || IsSpace(post[0]))
    requires !Contains(gap + name + post, NamePhrase)
    ensures NameOf(pre + NamePhrase + gap + name + post) == Some(name)
  {
    var rest := gap + name + post;
    NamePhraseUnbordered();
    assert pre + NamePhrase + gap + name + post == pre + NamePhrase + rest;
    SplitLastAfter(pre, NamePhrase, rest);
    StripAroundWord(gap, name, post);
    FirstWordOfStripped(name, post);
  }

  /** The phrase written literally is found by the lower-cased test. */
  lemma PhraseFoundInLower(pre: string, rest: string)
    ensures Contains(Lower(pre + NamePhrase + rest), NamePhrase)
  {
    var text := pre + NamePhrase + rest;
    NamePhraseIsLower();
    assert text[|pre|..|pre| + |NamePhrase|] == NamePhrase;
    LowerKeepsLowerPhrase(text, NamePhrase, |pre|);
  }

  /** Such a text has extraction store that name. */
  lemma ExtractsFollowingName(facts: map<string, Value>, pre: string, gap: string, name: string, post: string)
    requires AllSpace(gap) && name != [] && NoSpace(name) && (post == [] || IsSpace(post[0]))
    requires !Contains(gap + name + post, NamePhrase)
    ensures var r := ExtractFacts(facts, pre + NamePhrase + gap + name + post);
            "name" in r.facts && r.facts["name"] == Str(name)
  {
    var rest := gap + name + post;
    var text := pre + NamePhrase + gap + name + post;
    assert text == pre + NamePhrase + rest;
    PhraseFoundInLower(pre, rest);
    NameFollowsLastPhrase(pre, gap, name, post);
    ExtractsName(facts, text);
  }

  lemma ExtractsName(facts: map<string, Value>, text: string)
    requires Contains(Lower(text), NamePhrase) && NameOf(text).Some?
    ensures var r := ExtractFacts(facts, text);
            "name" in r.facts && r.facts["name"] == Str(NameOf(text).value)
  {
  }

  /** The liking is the stripped rest after the last `i like`. */
  lemma LikeFollowsLastPhrase(pre: string, rest: string)
    requires !Contains(rest, LikePhrase)
    ensures LikeOf(pre + LikePhrase + rest) == Strip(rest)
  {
    LikePhraseUnbordered();
    SplitLastAfter(pre, LikePhrase, rest);
  }

  /** The rules look for the phrases case-insensitively but cut the text
      case-sensitively: with only a capitalised phrase the name is the first word
      of the whole text. */
  lemma CapitalisedPhraseTakesFirstWord(facts: map<string, Value>, text: string)
    requires Contains(Lower(text), NamePhrase) && !Contains(text, NamePhrase)
    requires !Contains(Lower(text), LikePhrase)
    requires !AllSpace(text)
    ensures ExtractFacts(facts, text) == FactsOutcome(facts["name" := Str(Words(Strip(text))[0])], None)
  {
    assert SplitLast(text, NamePhrase) == text;
    assert !AllSpace(Strip(text));
  }

  lemma NamePhraseIsLower()
    ensures Lower(NamePhrase) == NamePhrase
  {
  }

  lemma SplitLastOfPhrase()
    ensures SplitLast(NamePhrase, NamePhrase) == []
  {
    var t := NamePhrase;
    assert OccursAt(t, NamePhrase, 0);
    assert Find(t, NamePhrase) == Some(0);
    assert t[|NamePhrase|..] == [];
    assert Find([], NamePhrase) == None;
  }

  /** A text that is just the name phrase has nothing to take a name from. */
  lemma PhraseAloneRaises(facts: map<string, Value>)
    ensures ExtractFacts(facts, NamePhrase) == FactsOutcome(facts, Some("IndexError"))
  {
    NamePhraseIsLower();
    SplitLastOfPhrase();
    assert OccursAt(NamePhrase, NamePhrase, 0);
    assert Contains(Lower(NamePhrase), NamePhrase);
  }

  /** What one event did: the new state, the error it raised if any, and whether
      a save to disk was due. A raise after the entry was stored keeps the entry. */
  datatype EventOutcome = EventOutcome(memory: Memory, error: Option<string>, save: bool)

  /** `on_event(event_type, data)`. */
  function OnEvent(m: Memory, eventType: string, data: Value): (r: EventOutcome)
    requires Inv(m)
    ensures Inv(r.memory)
    ensures r.memory.maxHistory == m.maxHistory && r.memory.saveToDisk == m.saveToDisk
    ensures eventType != "transcription_complete" && eventType != "llm_response_complete" ==>
              r.memory == m && r.error.None?
    ensures (eventType == "transcription_complete" || eventType == "llm_response_complete") && !data.Dict? ==>
              r.memory == m && r.error.Some?
    ensures eventType == "transcription_complete" && data.Dict? ==>
              r.memory.shortTerm == BoundedAppend(m.shortTerm,
                Entry("user", Get(data.entries, "text", Str("")), Get(data.entries, "timestamp", Null), Some(data.entries)),
                m.maxHistory)
    ensures eventType == "llm_response_complete" && data.Dict? ==>
              r.memory.shortTerm == BoundedAppend(m.shortTerm,
                Entry("assistant", Get(data.entries, "text", Str("")), Get(data.entries, "timestamp", Null), None),
                m.maxHistory)
    ensures eventType != "transcription_complete" ==> r.memory.userFacts == m.userFacts
    ensures eventType == "transcription_complete" && data.Dict? ==>
              var text := Get(data.entries, "text", Str(""));
              && (!text.Str? ==> r.memory.userFacts == m.userFacts && r.error.Some?)
              && (text.Str? ==> r.memory.userFacts == ExtractFacts(m.userFacts, text.s).facts
                                && r.error == ExtractFacts(m.userFacts, text.s).error)
    ensures r.save <==> r.error.None? && m.saveToDisk && |r.memory.shortTerm| % 10 == 0
  {
    if eventType == "transcription_complete" || eventType == "llm_response_complete" then
      if !data.Dict? then EventOutcome(m, Some("AttributeError"), false)
      else
        var text := Get(data.entries, "text", Str(""));
        var ts := Get(data.entries, "timestamp", Null);
        if eventType == "transcription_complete" then
          var m1 := m.(shortTerm := BoundedAppend(m.shortTerm, Entry("user", text, ts, Some(data.entries)), m.maxHistory));
          if !text.Str? then EventOutcome(m1, Some("AttributeError"), false)
          else
            var x := ExtractFacts(m.userFacts, text.s);
            var m2 := m1.(userFacts := x.facts);
            EventOutcome(m2, x.error, x.error.None? && m.saveToDisk && |m2.shortTerm| % 10 == 0)
        else
          var m1 := m.(shortTerm := BoundedAppend(m.shortTerm, Entry("assistant", text, ts, None), m.maxHistory));
          EventOutcome(m1, None, m.saveToDisk && |m1.shortTerm| % 10 == 0)
    else EventOutcome(m, None, m.saveToDisk && |m.shortTerm| % 10 == 0)
  }

  /** Once the deque is full, every further utterance keeps its length and drops
      exactly the oldest entry. */
  lemma FullDequeDropsOldest(m: Memory, data: map<string, Value>)
    requires Inv(m) && |m.shortTerm| == m.maxHistory > 0
    ensures var r := OnEvent(m, "llm_response_complete", Dict(data)).memory;
            |r.shortTerm| == m.maxHistory && r.shortTerm[..|r.shortTerm| - 1] == m.shortTerm[1..]
  {
  }

  /** An unrelated event still saves whenever the length is a multiple of ten, an
      empty memory included. */
  lemma UnrelatedEventSavesEmptyMemory(maxHistory: nat)
    ensures OnEvent(Init(maxHistory, true), "audio_processed", Null).save
  {
  }

  datatype ContextView = ContextView(recentHistory: seq<Entry>, userFacts: map<string, Value>, conversationLength: nat)

  /** `get_context(num_turns)`: `list(short_term)[-num_turns:]`, so 0 gives the
      whole history (`-0` is 0), with the facts and the history length. */
  function GetContext(m: Memory, numTurns: int): (r: ContextView)
    ensures numTurns > 0 ==> r.recentHistory == m.shortTerm[|m.shortTerm| - Min(numTurns, |m.shortTerm|)..]
    ensures numTurns == 0 ==> r.recentHistory == m.shortTerm
    ensures numTurns < 0 ==> r.recentHistory == m.shortTerm[Min(-numTurns, |m.shortTerm|)..]
    ensures r.userFacts == m.userFacts && r.conversationLength == |m.shortTerm|
  {
    ContextView(PyTail(m.shortTerm, numTurns), m.userFacts, |m.shortTerm|)
  }

  /** Whether an entry's text contains the lower-cased query, ignoring case. */
  predicate Matches(e: Entry, queryLower: string)
    requires e.text.Str?
  {
    Contains(Lower(e.text.s), queryLower)
  }

  /** `search_memory(query)`: the entries, in stored order, whose text contains the
      query ignoring case. An entry whose text is not a string raises. */
  function SearchMemory(m: Memory, query: string): (r: Result<seq<Entry>, string>)
    ensures r.Err? <==> exists i :: 0 <= i < |m.shortTerm| && !m.shortTerm[i].text.Str?
    ensures r.Ok? ==> forall i :: 0 <= i < |r.value| ==>
                        (r.value[i] in m.shortTerm && r.value[i].text.Str? && Matches(r.value[i], Lower(query)))
    ensures r.Ok? ==> forall i :: 0 <= i < |m.shortTerm| && m.shortTerm[i].text.Str? && Matches(m.shortTerm[i], Lower(query)) ==>
                        m.shortTerm[i] in r.value
  {
    if exists i :: 0 <= i < |m.shortTerm| && !m.shortTerm[i].text.Str? then Err("AttributeError")
    else Ok(Filter(m.shortTerm, (e: Entry) => e.text.Str? && Matches(e, Lower(query))))
  }

  /** Results come in stored order: an entry stored after the others is found
      after all earlier results, and only when it matches. */
  lemma SearchAfterAppend(m: Memory, e: Entry, query: string)
    requires e.text.Str?
    ensures var before := SearchMemory(m, query);
            var after := SearchMemory(m.(shortTerm := m.shortTerm + [e]), query);
            && (after.Ok? <==> before.Ok?)
            && (before.Ok? ==> after.value == before.value + (if Matches(e, Lower(query)) then [e] else []))
  {
    var s := m.shortTerm + [e];
    assert forall i :: 0 <= i < |m.shortTerm| ==> s[i] == m.shortTerm[i];
    assert s[|m.shortTerm|] == e;
    FilterSnoc(m.shortTerm, e, (x: Entry) => x.text.Str? && Matches(x, Lower(query)));
  }

  /** Searching is insensitive to the case of the query. */
  lemma SearchIgnoresQueryCase(m: Memory, query: string)
    ensures SearchMemory(m, Lower(query)) == SearchMemory(m, query)
  {
    LowerIdempotent(query);
  }
}
