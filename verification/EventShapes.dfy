/** Which events of each protocol are deltas, stops and ends (internal/plugin/v2/stream.go), said
    of the payloads themselves. */
module EventShapes {
  import opened Wrappers
  import opened Json
  import opened StreamEvents

  // ----- Anthropic Messages -----

  /** A block delta of the given kind, whose block is `block` and whose inner delta is `d`. */
  predicate BlockDelta(ev: Event, kind: string, block: int, d: map<string, Json>) {
    && ev.name == "content_block_delta" && ev.data.Some? && ev.data.value.Obj?
    && IntIs(ev.data.value.fields, "index", block)
    && "delta" in ev.data.value.fields && ev.data.value.fields["delta"] == Obj(d)
    && StringIs(d, "type", kind) && StringOrNone(d, "text") && StringOrNone(d, "thinking")
  }

  predicate HasIndex(ev: Event, n: int) {
    ev.data.Some? && ev.data.value.Obj? && IntIs(ev.data.value.fields, "index", n)
  }

  /** Text, thinking and tool input are told apart by the kind of the inner delta; a stop names
      its block, or block 0 when its index cannot be read. Everything else is Other. */
  lemma MessagesClasses(ev: Event)
    ensures var c := Classify(Messages, ev);
      && (c.cls.Terminal? <==> ev.name == "message_stop")
      && (c.cls.ContentBlockStop? <==> ev.name == "content_block_stop")
      && (c.cls.ContentBlockStop? ==> HasIndex(ev, c.block) || (c.block == 0 && forall n :: !HasIndex(ev, n)))
      && (c.cls.ContentDelta? <==> exists b, d :: BlockDelta(ev, "text_delta", b, d))
      && (forall b, d :: BlockDelta(ev, "text_delta", b, d) ==> c.block == b && StringIs(d, "text", c.text))
      && (c.cls.ReasoningDelta? <==> exists b, d :: BlockDelta(ev, "thinking_delta", b, d))
      && (forall b, d :: BlockDelta(ev, "thinking_delta", b, d) ==> c.block == b && StringIs(d, "thinking", c.text))
      && (c.cls.ToolUseDelta? <==> exists b, d :: BlockDelta(ev, "input_json_delta", b, d))
      && (!c.cls.ContentDelta? && !c.cls.ReasoningDelta? ==> c.text == "")
  {
    forall kind, b, d | BlockDelta(ev, kind, b, d)
      ensures ClassifyMessages(ev) == ClassifyBlockDelta(ev, Some(b), Some(Some(d))) && StringField(d, "type") == Some(kind)
    {
    }
    if ev.name == "content_block_delta" && Classify(Messages, ev).cls != Other {
      var m := ev.data.value.fields;
      var b, d := IntField(m, "index").value, StructField(m, "delta").value.value;
      assert BlockDelta(ev, StringField(d, "type").value, b, d);
    }
  }

  // ----- OpenAI Responses -----

  /** The payload of a text event: an object with a readable `delta`, or null. */
  predicate DeltaIs(ev: Event, text: string) {
    || (ev.data == Some(Null) && text == "")
    || (ev.data.Some? && ev.data.value.Obj? && StringIs(ev.data.value.fields, "delta", text))
  }

  /** The event's name says what it is; only text and reasoning have their payloads read. */
  lemma ResponsesClasses(ev: Event)
    ensures var c := Classify(Responses, ev);
      && c.block == 0
      && (c.cls.Terminal? <==> ev.name == "response.completed")
      && (c.cls.ContentBlockStop? <==> ev.name == "response.output_text.done")
      && (c.cls.ToolUseDelta? <==> ev.name == "response.function_call_arguments.delta")
      && (forall t :: c.cls.ContentDelta? && c.text == t <==> ev.name == "response.output_text.delta" && DeltaIs(ev, t))
      && (forall t :: c.cls.ReasoningDelta? && c.text == t <==>
            (ev.name == "response.reasoning_summary_text.delta" || ev.name == "response.reasoning.delta") && DeltaIs(ev, t))
      && (!c.cls.ContentDelta? && !c.cls.ReasoningDelta? ==> c.text == "")
  {
  }

  // ----- OpenAI Chat -----

  /** A choice the decoder takes, as far as it is read. */
  predicate Readable(c: Json) {
    c.Null? || (c.Obj? && (Absent(c.fields, "delta") || (c.fields["delta"].Obj? && ReadableDelta(c.fields["delta"].fields))))
  }

  predicate ReadableDelta(d: map<string, Json>) {
    && StringOrNone(d, "content")
    && (Absent(d, "tool_calls") || d["tool_calls"].Arr?)
    && (Absent(d, "reasoning") || (d["reasoning"].Obj? && StringOrNone(d["reasoning"].fields, "content")))
  }

  predicate CallsTool(c: Json) {
    c.Obj? && "delta" in c.fields && c.fields["delta"].Obj?
    && var d := c.fields["delta"].fields; "tool_calls" in d && d["tool_calls"].Arr? && d["tool_calls"].items != []
  }

  predicate Says(c: Json, text: string) {
    c.Obj? && "delta" in c.fields && c.fields["delta"].Obj?
    && var d := c.fields["delta"].fields; "content" in d && d["content"] == Str(text) && text != ""
  }

  ghost predicate Silent(c: Json) {
    !CallsTool(c) && forall t :: !Says(c, t)
  }

  /** The frame's choices, all readable. */
  predicate ChoicesAre(ev: Event, cs: seq<Json>) {
    && ev.data.Some?
    && (if ev.data.value.Null? then cs == []
        else ev.data.value.Obj? && if Absent(ev.data.value.fields, "choices") then cs == []
                                   else ev.data.value.fields["choices"] == Arr(cs))
    && forall i :: 0 <= i < |cs| ==> Readable(cs[i])
  }

  /** Choice `k` is the first that is not silent. */
  ghost predicate FirstToSpeak(cs: seq<Json>, k: int) {
    0 <= k < |cs| && !Silent(cs[k]) && forall i :: 0 <= i < k ==> Silent(cs[i])
  }

  lemma ReadableIff(c: Json)
    ensures ReadChoice(c).Some? <==> Readable(c)
    ensures Readable(c) ==>
      && (CallsTool(c) <==> ReadChoice(c).value.Delta? && ReadChoice(c).value.toolCalls > 0)
      && (forall t :: Says(c, t) <==> ReadChoice(c).value.Delta? && ReadChoice(c).value.content == t && t != "")
  {
  }

  lemma {:induction false} ChoicesRead(cs: seq<Json>)
    ensures ReadChoices(cs).Some? <==> forall i :: 0 <= i < |cs| ==> Readable(cs[i])
    ensures ReadChoices(cs).Some? ==>
      |ReadChoices(cs).value| == |cs| && forall i :: 0 <= i < |cs| ==> ReadChoice(cs[i]) == Some(ReadChoices(cs).value[i])
  {
    hide ReadChoice, Readable;
    if cs != [] {
      ReadableIff(cs[0]);
      ChoicesRead(cs[1..]);
      assert forall i :: 0 < i < |cs| ==> cs[i] == cs[1..][i - 1];
      assert forall i :: 0 <= i < |cs| - 1 ==> cs[1..][i] == cs[i + 1];
    }
  }

  lemma {:induction false} FirstSpeakerDecides(ev: Event, cs: seq<Json>, choices: seq<Choice>)
    requires |choices| == |cs| && forall i :: 0 <= i < |cs| ==> Readable(cs[i]) && ReadChoice(cs[i]) == Some(choices[i])
    ensures var c := FirstSpeaking(ev, choices);
      && (forall k :: FirstToSpeak(cs, k) ==>
           if CallsTool(cs[k]) then c.cls.ToolUseDelta? && c.text == "" else c.cls.ContentDelta? && Says(cs[k], c.text))
      && ((forall i :: 0 <= i < |cs| ==> Silent(cs[i])) ==> c == As(ev, Other))
      && ((exists i :: 0 <= i < |cs| && !Silent(cs[i])) ==> exists k :: FirstToSpeak(cs, k))
  {
    hide Readable, ReadChoice;
    if cs != [] {
      ReadableIff(cs[0]);
      if Silent(cs[0]) {
        SilentPasses(ev, cs, choices);
        FirstSpeakerDecides(ev, cs[1..], choices[1..]);
        SpeakersShift(cs);
      } else {
        FirstChoiceSpeaks(ev, cs[0], choices);
        assert FirstToSpeak(cs, 0);
      }
    }
  }

  lemma SilentPasses(ev: Event, cs: seq<Json>, choices: seq<Choice>)
    requires cs != [] && choices != [] && Readable(cs[0]) && ReadChoice(cs[0]) == Some(choices[0]) && Silent(cs[0])
    ensures FirstSpeaking(ev, choices) == FirstSpeaking(ev, choices[1..])
  {
    hide Readable, ReadChoice;
    ReadableIff(cs[0]);
    if choices[0].Delta? { assert !Says(cs[0], choices[0].content); }
  }

  lemma FirstChoiceSpeaks(ev: Event, c: Json, choices: seq<Choice>)
    requires choices != [] && Readable(c) && ReadChoice(c) == Some(choices[0]) && !Silent(c)
    ensures var r := FirstSpeaking(ev, choices);
            if CallsTool(c) then r.cls.ToolUseDelta? && r.text == "" else r.cls.ContentDelta? && Says(c, r.text)
  {
    hide Readable, ReadChoice;
    ReadableIff(c);
    if !CallsTool(c) {
      var t :| Says(c, t);
      assert choices[0].content == t;
    }
  }

  /** With a silent first choice the first speaker is one place further on. */
  lemma SpeakersShift(cs: seq<Json>)
    requires cs != [] && Silent(cs[0])
    ensures forall k :: FirstToSpeak(cs, k) <==> k > 0 && FirstToSpeak(cs[1..], k - 1)
    ensures (exists i :: 0 <= i < |cs| && !Silent(cs[i])) ==> exists i :: 0 <= i < |cs[1..]| && !Silent(cs[1..][i])
    ensures (exists k :: FirstToSpeak(cs[1..], k)) ==> exists k :: FirstToSpeak(cs, k)
  {
    hide Silent;
    var rest := cs[1..];
    assert forall i :: 0 <= i < |rest| ==> rest[i] == cs[i + 1];
    forall k
      ensures FirstToSpeak(cs, k) <==> k > 0 && FirstToSpeak(rest, k - 1)
    {
      if k > 0 && FirstToSpeak(rest, k - 1) {
        assert forall i :: 0 < i < k ==> cs[i] == rest[i - 1];
      }
    }
    if exists k :: FirstToSpeak(rest, k) {
      var k :| FirstToSpeak(rest, k);
      assert FirstToSpeak(cs, k + 1);
    }
    if i :| 0 <= i < |cs| && !Silent(cs[i]) { assert rest[i - 1] == cs[i]; }
  }

  /** The first choice that is not silent decides: tool calls make it a tool-use delta, else its
      text makes it content. No chat frame ends a block or the stream. */
  lemma ChatClasses(ev: Event)
    ensures var c := Classify(Chat, ev);
      && c.block == 0 && (c.cls.Other? || c.cls.ContentDelta? || c.cls.ToolUseDelta?)
      && (c.cls.ToolUseDelta? <==> exists cs, k :: ChoicesAre(ev, cs) && FirstToSpeak(cs, k) && CallsTool(cs[k]))
      && (c.cls.ContentDelta? <==> exists cs, k :: ChoicesAre(ev, cs) && FirstToSpeak(cs, k) && !CallsTool(cs[k]))
      && (forall cs, k :: ChoicesAre(ev, cs) && FirstToSpeak(cs, k) && !CallsTool(cs[k]) ==> Says(cs[k], c.text))
      && (!c.cls.ContentDelta? ==> c.text == "")
  {
    hide Readable, ReadChoice, FirstSpeaking, Silent, CallsTool, Says;
    ChatFrameRead(ev);
    if cs :| ChoicesAre(ev, cs) {
      ChoicesRead(cs);
      FirstSpeakerDecides(ev, cs, ReadChoices(cs).value);
      assert forall other :: ChoicesAre(ev, other) ==> other == cs;
      assert ClassifyChat(ev) == FirstSpeaking(ev, ReadChoices(cs).value);
      assert forall k :: FirstToSpeak(cs, k) ==> !Silent(cs[k]);
    }
  }

  lemma ChatFrameRead(ev: Event)
    ensures ClassifyChat(ev) == As(ev, Other) || exists cs :: ChoicesAre(ev, cs)
  {
    hide Readable, ReadChoice, FirstSpeaking;
    if ClassifyChat(ev) != As(ev, Other) {
      var cs := SliceField(Payload(ev.data).value, "choices").value;
      ChoicesRead(cs);
      assert ChoicesAre(ev, cs);
    }
  }
}
