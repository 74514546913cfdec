/** Classifying stream events and rewriting their text (internal/plugin/v2/stream.go), for
    the Messages, Chat and Responses protocols. */
module StreamEvents {
  import opened Wrappers
  import opened Json

  datatype Protocol = Messages | Chat | Responses | Unknown

  /** One event; no payload is None. */
  datatype Event = Event(name: string, data: Option<Json>, tDeltaMs: Option<int>, offset: int)

  datatype Class = Other | ContentDelta | ReasoningDelta | ToolUseDelta | Terminal | ContentBlockStop

  datatype Classified = Classified(ev: Event, cls: Class, text: string, block: int)

  function As(ev: Event, cls: Class): Classified {
    Classified(ev, cls, "", 0)
  }

  function Classify(proto: Protocol, ev: Event): (c: Classified)
    ensures c.ev == ev
    ensures c.cls.ContentDelta? ==> ev.data.Some?
  {
    match proto
    case Messages => ClassifyMessages(ev)
    case Chat => ClassifyChat(ev)
    case Responses => ClassifyResponses(ev)
    case Unknown => As(ev, Other)
  }

  // ----- Anthropic Messages -----

  function ClassifyMessages(ev: Event): Classified {
    if ev.name == "message_stop" then As(ev, Terminal)
    else if ev.name == "content_block_stop" then
      // An unreadable index falls back to block 0.
      var index := if ev.data.Some? && ev.data.value.Obj? then IntField(ev.data.value.fields, "index") else None;
      Classified(ev, ContentBlockStop, "", if index.Some? then index.value else 0)
    else if ev.name == "content_block_delta" then
      match Payload(ev.data)
      case None => As(ev, Other)
      case Some(frame) => ClassifyBlockDelta(ev, IntField(frame, "index"), StructField(frame, "delta"))
    else As(ev, Other)
  }

  function ClassifyBlockDelta(ev: Event, index: Option<int>, delta: Option<Option<map<string, Json>>>): Classified {
    if index.None? || delta.None? || delta.value.None? then As(ev, Other)
    else
      var d := delta.value.value;
      var kind, text, thinking := StringField(d, "type"), StringField(d, "text"), StringField(d, "thinking");
      if kind.None? || text.None? || thinking.None? then As(ev, Other)
      else if kind.value == "text_delta" then Classified(ev, ContentDelta, text.value, index.value)
      else if kind.value == "thinking_delta" then Classified(ev, ReasoningDelta, thinking.value, index.value)
      else if kind.value == "input_json_delta" then Classified(ev, ToolUseDelta, "", index.value)
      else As(ev, Other)
  }

  // ----- OpenAI Chat -----

  /** One choice as the classifier's struct sees it; None is a type mismatch. */
  datatype Choice = NoDelta | Delta(content: string, toolCalls: nat)

  function ReadChoice(c: Json): Option<Choice> {
    match c
    case Null => Some(NoDelta)
    case Obj(fields) => ReadDelta(StructField(fields, "delta"))
    case _ => None
  }

  /** The inner `content` is an untagged Go field, which the decoder matches by its folded name. */
  function ReadDelta(delta: Option<Option<map<string, Json>>>): Option<Choice> {
    match delta
    case None => None
    case Some(None) => Some(NoDelta)
    case Some(Some(d)) =>
      var content, calls, reasoning := StringField(d, "content"), SliceField(d, "tool_calls"), StructField(d, "reasoning");
      if content.None? || calls.None? || reasoning.None? then None
      else if reasoning.value.Some? && StringField(reasoning.value.value, "content").None? then None
      else Some(Delta(content.value, |calls.value|))
  }

  function ReadChoices(cs: seq<Json>): Option<seq<Choice>> {
    if cs == [] then Some([])
    else
      match (ReadChoice(cs[0]), ReadChoices(cs[1..]))
      case (Some(c), Some(rest)) => Some([c] + rest)
      case _ => None
  }

  function ClassifyChat(ev: Event): Classified {
    match Payload(ev.data)
    case None => As(ev, Other)
    case Some(frame) =>
      match SliceField(frame, "choices")
      case None => As(ev, Other)
      case Some(cs) =>
        match ReadChoices(cs)
        case None => As(ev, Other)
        case Some(choices) => FirstSpeaking(ev, choices)
  }

  /** The first choice that says something decides. */
  function FirstSpeaking(ev: Event, choices: seq<Choice>): (c: Classified)
    ensures c.ev == ev && c.block == 0
  {
    if choices == [] then As(ev, Other)
    else if choices[0].Delta? && choices[0].toolCalls > 0 then As(ev, ToolUseDelta)
    else if choices[0].Delta? && choices[0].content != "" then Classified(ev, ContentDelta, choices[0].content, 0)
    else FirstSpeaking(ev, choices[1..])
  }

  // ----- OpenAI Responses -----

  function ClassifyResponses(ev: Event): Classified {
    if ev.name == "response.completed" then As(ev, Terminal)
    else if ev.name == "response.output_text.done" then As(ev, ContentBlockStop)
    else if ev.name == "response.output_text.delta" then ClassifyText(ev, ContentDelta)
    else if ev.name == "response.reasoning_summary_text.delta" || ev.name == "response.reasoning.delta" then
      ClassifyText(ev, ReasoningDelta)
    else if ev.name == "response.function_call_arguments.delta" then As(ev, ToolUseDelta)
    else As(ev, Other)
  }

  function ClassifyText(ev: Event, cls: Class): Classified {
    match Payload(ev.data)
    case None => As(ev, Other)
    case Some(frame) =>
      match StringField(frame, "delta")
      case None => As(ev, Other)
      case Some(text) => Classified(ev, cls, text, 0)
  }

  // ----- Rewriting -----

  /** Fails hands back an error; Panics is the assignment to a nil map. */
  datatype Rewrite = Done(ev: Event) | Fails | Panics

  function RewriteDeltaText(proto: Protocol, c: Classified, text: string): Rewrite {
    if !c.cls.ContentDelta? && !c.cls.ReasoningDelta? then Done(c.ev)
    else
      match proto
      case Messages => RewriteMessages(c.ev, c.cls, text)
      case Chat => RewriteChat(c.ev, text)
      case Responses => RewriteResponses(c.ev, text)
      case Unknown => Done(c.ev)
  }

  function WithData(ev: Event, fields: map<string, Json>): Rewrite {
    Done(ev.(data := Some(Obj(fields))))
  }

  function RewriteMessages(ev: Event, cls: Class, text: string): Rewrite {
    match ev.data
    case Some(Obj(raw)) =>
      if "delta" in raw && raw["delta"].Obj? then
        var key := if cls.ContentDelta? then "text" else "thinking";
        WithData(ev, raw["delta" := Obj(raw["delta"].fields[key := Str(text)])])
      else Fails
    case _ => Fails
  }

  /** The first choice whose delta has a `content` key gets the new text. */
  function PutContent(cs: seq<Json>, text: string): seq<Json> {
    if cs == [] then []
    else
      var c := cs[0];
      if c.Obj? && "delta" in c.fields && c.fields["delta"].Obj? && "content" in c.fields["delta"].fields then
        [Obj(c.fields["delta" := Obj(c.fields["delta"].fields["content" := Str(text)])])] + cs[1..]
      else [c] + PutContent(cs[1..], text)
  }

  function RewriteChat(ev: Event, text: string): Rewrite {
    match ev.data
    case Some(Obj(raw)) =>
      if "choices" in raw && raw["choices"].Arr? && raw["choices"].items != [] then
        WithData(ev, raw["choices" := Arr(PutContent(raw["choices"].items, text))])
      else Fails
    case _ => Fails
  }

  function RewriteResponses(ev: Event, text: string): Rewrite {
    match ev.data
    case Some(Obj(raw)) => WithData(ev, raw["delta" := Str(text)])
    case Some(Null) => Panics
    case _ => Fails
  }

  // ----- What rewriting keeps -----

  /** A delta the rewriter cannot write to without crashing: a null Responses payload, which
      the classifier takes for an empty delta. */
  predicate NullDelta(proto: Protocol, ev: Event) {
    proto.Responses? && ev.data == Some(Null)
  }

  lemma RewritePanicsIff(proto: Protocol, c: Classified, text: string)
    ensures RewriteDeltaText(proto, c, text).Panics?
       <==> NullDelta(proto, c.ev) && (c.cls.ContentDelta? || c.cls.ReasoningDelta?)
  {
  }

  /** At most one choice: the frames for which classifying and rewriting mean the same text. */
  predicate SingleChoice(proto: Protocol, ev: Event) {
    (proto.Chat? && ev.data.Some? && ev.data.value.Obj? && "choices" in ev.data.value.fields
     && ev.data.value.fields["choices"].Arr?)
    ==> |ev.data.value.fields["choices"].items| <= 1
  }

  predicate IsDelta(c: Classified) {
    c.cls.ContentDelta? || c.cls.ReasoningDelta?
  }

  /** A delta that is rewritten classifies as a delta of the same kind and block with the new
      text. An empty chat delta is no delta at all, so chat needs text. */
  lemma RewriteReclassifies(proto: Protocol, ev: Event, text: string)
    requires IsDelta(Classify(proto, ev)) && !NullDelta(proto, ev) && SingleChoice(proto, ev)
    requires proto.Chat? ==> text != ""
    ensures var r := RewriteDeltaText(proto, Classify(proto, ev), text);
      && r.Done?
      && Classify(proto, r.ev) == Classified(r.ev, Classify(proto, ev).cls, text, Classify(proto, ev).block)
      && SingleChoice(proto, r.ev) && !NullDelta(proto, r.ev)
      && r.ev.name == ev.name && r.ev.tDeltaMs == ev.tDeltaMs && r.ev.offset == ev.offset
  {
    match proto
    case Messages =>
    case Chat => NoChatReasoning(ev); ChatReclassifies(ev, text);
    case Responses =>
    case Unknown =>
  }

  lemma NoChatReasoning(ev: Event)
    ensures !Classify(Chat, ev).cls.ReasoningDelta?
  {
    if Payload(ev.data).Some? {
      var cs := SliceField(Payload(ev.data).value, "choices");
      if cs.Some? && ReadChoices(cs.value).Some? { NoReasoningSpeaks(ev, ReadChoices(cs.value).value); }
    }
  }

  lemma {:induction false} NoReasoningSpeaks(ev: Event, choices: seq<Choice>)
    ensures !FirstSpeaking(ev, choices).cls.ReasoningDelta?
  {
    if choices != [] { NoReasoningSpeaks(ev, choices[1..]); }
  }

  /** The same keys with the same values, but for `key`, which both have. */
  predicate SameBut(a: map<string, Json>, b: map<string, Json>, key: string) {
    a.Keys == b.Keys && key in a && forall k :: k in a && k != key ==> a[k] == b[k]
  }

  /** The two objects differ in one inner object's string only. */
  predicate SameButInner(a: map<string, Json>, b: map<string, Json>, key: string, inner: string, text: string) {
    && SameBut(a, b, key) && a[key].Obj? && b[key].Obj?
    && b[key].fields == a[key].fields[inner := Str(text)]
  }

  /** Everything around the text is kept: a rewrite changes one string in the payload and no other
      key or value. */
  lemma RewriteKeepsTheRest(proto: Protocol, c: Classified, text: string)
    requires IsDelta(c) && !proto.Unknown? && RewriteDeltaText(proto, c, text).Done?
    ensures var now := RewriteDeltaText(proto, c, text).ev;
      && c.ev.data.Some? && c.ev.data.value.Obj? && now.data.Some? && now.data.value.Obj?
      && var was, is_ := c.ev.data.value.fields, now.data.value.fields;
      match proto
      case Messages => SameButInner(was, is_, "delta", if c.cls.ContentDelta? then "text" else "thinking", text)
      case Responses => is_ == was["delta" := Str(text)]
      case Unknown => true
      case Chat =>
        && SameBut(was, is_, "choices") && was["choices"].Arr? && is_["choices"].Arr?
        && OneChoiceDiffers(was["choices"].items, is_["choices"].items, text)
  {
    if proto.Chat? { PutChangesOne(c.ev.data.value.fields["choices"].items, text); }
  }

  predicate HasContent(c: Json) {
    c.Obj? && "delta" in c.fields && c.fields["delta"].Obj? && "content" in c.fields["delta"].fields
  }

  predicate FirstWithContent(cs: seq<Json>, i: int) {
    0 <= i < |cs| && HasContent(cs[i]) && forall j :: 0 <= j < i ==> !HasContent(cs[j])
  }

  /** Only the first choice that has content differs, and in its content only. */
  predicate OneChoiceDiffers(was: seq<Json>, is_: seq<Json>, text: string) {
    && |was| == |is_|
    && forall i :: 0 <= i < |was| ==>
         if FirstWithContent(was, i) then
           is_[i].Obj? && SameButInner(was[i].fields, is_[i].fields, "delta", "content", text)
         else is_[i] == was[i]
  }

  lemma {:induction false} PutChangesOne(cs: seq<Json>, text: string)
    ensures OneChoiceDiffers(cs, PutContent(cs, text), text)
  {
    if cs != [] && !HasContent(cs[0]) {
      PutChangesOne(cs[1..], text);
      var rest := cs[1..];
      assert forall i :: 0 < i < |cs| ==> cs[i] == rest[i - 1];
      assert forall i :: 0 <= i < |rest| ==> rest[i] == cs[i + 1];
      assert forall i :: 0 < i < |cs| ==> (FirstWithContent(cs, i) <==> FirstWithContent(rest, i - 1));
    }
  }

  /** Rewriting again is rewriting once. */
  lemma RewriteTwice(proto: Protocol, c: Classified, first: string, second: string)
    requires c.cls.ContentDelta? && RewriteDeltaText(proto, c, first).Done?
    ensures RewriteDeltaText(proto, c.(ev := RewriteDeltaText(proto, c, first).ev), second)
         == RewriteDeltaText(proto, c, second)
  {
    match proto
    case Messages =>
      var raw := c.ev.data.value.fields;
      var d := raw["delta"].fields;
      assert d["text" := Str(first)]["text" := Str(second)] == d["text" := Str(second)];
      assert raw["delta" := Obj(d["text" := Str(first)])]["delta" := Obj(d["text" := Str(second)])]
          == raw["delta" := Obj(d["text" := Str(second)])];
    case Chat =>
      var raw := c.ev.data.value.fields;
      var cs := raw["choices"].items;
      PutTwice(cs, first, second);
      assert raw["choices" := Arr(PutContent(cs, first))]["choices" := Arr(PutContent(cs, second))]
          == raw["choices" := Arr(PutContent(cs, second))];
    case Responses =>
      var raw := c.ev.data.value.fields;
      assert raw["delta" := Str(first)]["delta" := Str(second)] == raw["delta" := Str(second)];
    case Unknown =>
  }

  lemma {:induction false} PutTwice(cs: seq<Json>, first: string, second: string)
    ensures PutContent(PutContent(cs, first), second) == PutContent(cs, second)
    ensures |PutContent(cs, first)| == |cs|
  {
    if cs != [] {
      var c := cs[0];
      if c.Obj? && "delta" in c.fields && c.fields["delta"].Obj? && "content" in c.fields["delta"].fields {
        var d := c.fields["delta"].fields;
        assert d["content" := Str(first)]["content" := Str(second)] == d["content" := Str(second)];
        assert c.fields["delta" := Obj(d["content" := Str(first)])]["delta" := Obj(d["content" := Str(second)])]
            == c.fields["delta" := Obj(d["content" := Str(second)])];
      } else {
        PutTwice(cs[1..], first, second);
      }
    }
  }

  lemma ChatReclassifies(ev: Event, text: string)
    requires ClassifyChat(ev).cls.ContentDelta? && SingleChoice(Chat, ev) && text != ""
    ensures var r := RewriteChat(ev, text);
      && r.Done? && ClassifyChat(r.ev) == Classified(r.ev, ContentDelta, text, 0)
      && SingleChoice(Chat, r.ev)
      && r.ev.name == ev.name && r.ev.tDeltaMs == ev.tDeltaMs && r.ev.offset == ev.offset
  {
    var raw := ev.data.value.fields;
    var cs := raw["choices"].items;
    assert ReadChoices([]) == Some([]) && FirstSpeaking(ev, []) == As(ev, Other);
    assert cs != [];
    var c := cs[0];
    assert cs == [c] && cs[1..] == [];
    assert ReadChoices(cs) == if ReadChoice(c).Some? then Some([ReadChoice(c).value] + []) else None;
    var choice := ReadChoice(c).value;
    var one := [choice] + [];
    assert one[1..] == [] && one[0] == choice;
    assert choice.Delta? && choice.content != "" && choice.toolCalls == 0;
    var d := c.fields["delta"].fields;
    assert "content" in d;
    OneChoice(ev, c, d, text);
  }

  lemma OneChoice(ev: Event, c: Json, d: map<string, Json>, text: string)
    requires ev.data.Some? && ev.data.value.Obj? && "choices" in ev.data.value.fields
    requires ev.data.value.fields["choices"] == Arr([c])
    requires c.Obj? && "delta" in c.fields && c.fields["delta"] == Obj(d) && "content" in d
    requires ReadChoice(c).Some? && ReadChoice(c).value.Delta? && ReadChoice(c).value.toolCalls == 0 && text != ""
    ensures var r := RewriteChat(ev, text);
      && r.Done? && ClassifyChat(r.ev) == Classified(r.ev, ContentDelta, text, 0)
      && SingleChoice(Chat, r.ev)
      && r.ev.name == ev.name && r.ev.tDeltaMs == ev.tDeltaMs && r.ev.offset == ev.offset
  {
    var d' := d["content" := Str(text)];
    var c' := Obj(c.fields["delta" := Obj(d')]);
    assert [c][1..] == [] && [c'][1..] == [];
    assert PutContent([c], text) == [c'] + [] == [c'];
    assert SliceField(d', "tool_calls") == SliceField(d, "tool_calls");
    assert StructField(d', "reasoning") == StructField(d, "reasoning");
    assert ReadChoice(c') == Some(Delta(text, 0));
    assert ReadChoices([]) == Some([]);
    assert ReadChoices([c']) == Some([Delta(text, 0)] + []);
    assert [Delta(text, 0)] + [] == [Delta(text, 0)];
    var r := RewriteChat(ev, text);
    assert FirstSpeaking(r.ev, [Delta(text, 0)]) == Classified(r.ev, ContentDelta, text, 0);
  }
}
