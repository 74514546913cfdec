/** Response bodies rebuilt after a plugin changed them (internal/plugin/v2/build.go), and the
    parsers that read them back (internal/plugin/v2/http.go, parsed.go). */
module Bodies {
  import opened Wrappers
  import opened Json
  import opened RawText

  datatype ToolCall = ToolCall(id: string, name: string, arguments: string)

  /** A parsed response; `rawBody` is None when there are no bytes or they are no JSON. */
  datatype Response = Response(
    content: string,
    reasoning: string,
    toolCalls: seq<ToolCall>,
    rawBody: Option<Json>,
    finishReason: Option<string>)

  /** What a body parser fills in. */
  datatype Parsed = Parsed(content: string, reasoning: string, toolCalls: seq<ToolCall>)

  const NOTHING := Parsed("", "", [])

  function PartOf(r: Response): Parsed {
    Parsed(r.content, r.reasoning, r.toolCalls)
  }

  function MapFromRaw(raw: Option<Json>): map<string, Json> {
    match raw
    case Some(Obj(fields)) => fields
    case _ => map[]
  }

  /** Every root key but the owned ones is as in the raw body, and no other key appears. */
  ghost predicate KeepsOtherKeys(raw: Option<Json>, root: map<string, Json>, owned: set<string>) {
    forall k :: k !in owned ==> (k in root <==> k in MapFromRaw(raw)) && (k in root ==> root[k] == MapFromRaw(raw)[k])
  }

  function Fold<A, B>(f: (A, B) -> A, init: A, items: seq<B>): A {
    if items == [] then init else f(Fold(f, init, items[..|items| - 1]), items[|items| - 1])
  }

  lemma FoldOne<A, B>(f: (A, B) -> A, init: A, items: seq<B>, item: B)
    ensures Fold(f, init, items + [item]) == f(Fold(f, init, items), item)
  {
    assert (items + [item])[..|items|] == items;
  }

  lemma {:induction false} FoldConcat<A, B>(f: (A, B) -> A, init: A, a: seq<B>, b: seq<B>)
    ensures Fold(f, init, a + b) == Fold(f, Fold(f, init, a), b)
  {
    if b == [] {
      assert a + b == a;
    } else {
      assert (a + b)[..|a + b| - 1] == a + b[..|b| - 1];
      FoldConcat(f, init, a, b[..|b| - 1]);
    }
  }

  /** What two stretches of a body say, one after the other. */
  function Both(p: Parsed, q: Parsed): Parsed {
    Parsed(p.content + q.content, p.reasoning + q.reasoning, p.toolCalls + q.toolCalls)
  }

  // ----- OpenAI Chat -----

  function ChatCall(tc: ToolCall): Json {
    Obj(map["id" := Str(tc.id), "type" := Str("function"),
            "function" := Obj(map["name" := Str(tc.name), "arguments" := Str(tc.arguments)])])
  }

  function ChatCallsOf(calls: seq<ToolCall>): seq<Json> {
    seq(|calls|, j requires 0 <= j < |calls| => ChatCall(calls[j]))
  }

  method ChatCalls(calls: seq<ToolCall>) returns (tcs: seq<Json>)
    ensures tcs == ChatCallsOf(calls)
  {
    tcs := [];
    for i := 0 to |calls|
      invariant |tcs| == i && forall j :: 0 <= j < i ==> tcs[j] == ChatCall(calls[j])
    {
      tcs := tcs + [ChatCall(calls[i])];
    }
  }

  function MessageOf(resp: Response): map<string, Json> {
    var msg := map["role" := Str("assistant"), "content" := Str(resp.content)];
    if resp.toolCalls == [] then msg
    else msg["tool_calls" := Arr(ChatCallsOf(resp.toolCalls))]
  }

  /** The assistant's message; every call in it says that it is a function. */
  lemma MessageIs(resp: Response)
    ensures var m := MessageOf(resp);
      && Lookup(m, "role") == Some(Str("assistant")) && Lookup(m, "content") == Some(Str(resp.content))
      && ("tool_calls" in m <==> resp.toolCalls != [])
      && ("tool_calls" in m ==> m["tool_calls"].Arr? && forall c :: c in m["tool_calls"].items ==>
            c.Obj? && Lookup(c.fields, "type") == Some(Str("function")))
  {
  }

  lemma DecodesMessage(resp: Response)
    ensures var calls := SliceField(MessageOf(resp), "tool_calls");
            calls.Some? && DecodeAll(DecodeCall, calls.value) == Some(resp.toolCalls)
  {
    if resp.toolCalls == [] {
      DecodesCalls([], []);
    } else {
      DecodesCalls(MessageOf(resp)["tool_calls"].items, resp.toolCalls);
    }
  }

  method BuildChatResponse(resp: Response) returns (root: map<string, Json>)
    ensures KeepsOtherKeys(resp.rawBody, root, {"choices"})
    ensures ParseChat(Obj(root)) == Parsed(resp.content, "", resp.toolCalls)
    ensures "choices" in root && root["choices"].Arr? && |root["choices"].items| == 1
    ensures var choice := root["choices"].items[0];
            && choice.Obj? && Lookup(choice.fields, "index") == Some(Num(0))
            && Lookup(choice.fields, "finish_reason")
               == (match resp.finishReason case None => None case Some(f) => Some(Str(f)))
            && Lookup(choice.fields, "message") == Some(Obj(MessageOf(resp)))
  {
    root := MapFromRaw(resp.rawBody);
    var msg := map["role" := Str("assistant"), "content" := Str(resp.content)];
    if |resp.toolCalls| > 0 {
      var tcs := ChatCalls(resp.toolCalls);
      msg := msg["tool_calls" := Arr(tcs)];
    }
    assert MessageOf(resp) == msg;
    var choice := map["index" := Num(0), "message" := Obj(msg)];
    if resp.finishReason.Some? {
      choice := choice["finish_reason" := Str(resp.finishReason.value)];
    }
    root := root["choices" := Arr([Obj(choice)])];
    DecodesMessage(resp);
    DecodesOne(Obj(choice), ChatMessage(Some(Str(resp.content)), resp.toolCalls));
  }

  /** A field of a slice type, item by item; None when one does not fit. */
  function DecodeAll<T>(decode: Json -> Option<T>, items: seq<Json>): Option<seq<T>> {
    if items == [] then Some([])
    else
      match (decode(items[0]), DecodeAll(decode, items[1..]))
      case (Some(first), Some(rest)) => Some([first] + rest)
      case _ => None
  }

  function DecodeCall(item: Json): Option<ToolCall> {
    match Payload(Some(item))
    case None => None
    case Some(m) =>
      var id, fn := StringField(m, "id"), StructField(m, "function");
      if id.None? || fn.None? then None
      else
        var f := if fn.value.None? then map[] else fn.value.value;
        var name, arguments := StringField(f, "name"), StringField(f, "arguments");
        if name.None? || arguments.None? then None else Some(ToolCall(id.value, name.value, arguments.value))
  }

  /** `content` is the raw field: absent is None. */
  datatype ChatMessage = ChatMessage(content: Option<Json>, toolCalls: seq<ToolCall>)

  /** One choice; the inner None is a missing message. */
  function DecodeChoice(item: Json): Option<Option<ChatMessage>> {
    match Payload(Some(item))
    case None => None
    case Some(m) =>
      var msg := StructField(m, "message");
      if StringField(m, "finish_reason").None? || msg.None? then None
      else if msg.value.None? then Some(None)
      else
        var fields := msg.value.value;
        var calls := SliceField(fields, "tool_calls");
        if StringField(fields, "role").None? || calls.None? then None
        else
          match DecodeAll(DecodeCall, calls.value)
          case None => None
          case Some(tcs) => Some(Some(ChatMessage(Lookup(fields, "content"), tcs)))
  }

  /** The text of one content part, if it is a text part. */
  function PartText(item: Json): Option<string> {
    match Payload(Some(item))
    case None => None
    case Some(m) =>
      var kind, text := StringField(m, "type"), StringField(m, "text");
      if kind.None? || text.None? || !StringsIn(m, "image_url", ["url"])
         || !StringsIn(m, "input_audio", ["data", "format"]) || kind.value != "text" then None
      else text
  }

  predicate StringsIn(m: map<string, Json>, key: string, names: seq<string>) {
    var inner := StructField(m, key);
    inner.Some? && (inner.value.Some? ==> forall n :: n in names ==> StringField(inner.value.value, n).Some?)
  }

  /** chatExtractText: a string, or the text parts of an array joined by newlines; a newline
      only goes in front of a part that is not the array's first and follows some text. */
  function ExtractText(content: Option<Json>): string {
    match content
    case Some(Str(s)) => s
    case Some(Arr(items)) => JoinParts(items)
    case _ => ""
  }

  function JoinParts(items: seq<Json>): string {
    if items == [] then ""
    else
      var before := JoinParts(items[..|items| - 1]);
      match PartText(items[|items| - 1])
      case None => before
      case Some(t) => before + (if |items| > 1 && before != "" then "\n" else "") + t
  }

  /** The texts of the text parts, in order. */
  function Texts(items: seq<Json>): seq<string> {
    if items == [] then []
    else
      var before := Texts(items[..|items| - 1]);
      match PartText(items[|items| - 1])
      case None => before
      case Some(t) => before + [t]
  }

  function AfterEmpty(ts: seq<string>): seq<string> {
    if ts == [] || ts[0] != "" then ts else AfterEmpty(ts[1..])
  }

  function OnLines(ts: seq<string>): string {
    if ts == [] then ""
    else if |ts| == 1 then ts[0]
    else OnLines(ts[..|ts| - 1]) + "\n" + ts[|ts| - 1]
  }

  lemma {:induction false} AfterEmptyAppend(ts: seq<string>, t: string)
    ensures AfterEmpty(ts + [t]) == if AfterEmpty(ts) == [] then (if t == "" then [] else [t]) else AfterEmpty(ts) + [t]
    ensures AfterEmpty(ts) != [] ==> AfterEmpty(ts)[0] != ""
  {
    if ts == [] {
      assert [] + [t] == [t] && [t][1..] == [];
    } else {
      assert (ts + [t])[1..] == ts[1..] + [t];
      AfterEmptyAppend(ts[1..], t);
    }
  }

  lemma {:induction false} OnLinesNonempty(ts: seq<string>)
    requires ts != [] && ts[0] != ""
    ensures OnLines(ts) != ""
  {
  }

  /** The text of an array of parts is its text parts, each on a line of its own, from the first
      that is not empty on. */
  lemma {:induction false} PartsOnLines(items: seq<Json>)
    ensures JoinParts(items) == OnLines(AfterEmpty(Texts(items)))
  {
    hide PartText;
    if items != [] {
      var init, last := items[..|items| - 1], items[|items| - 1];
      PartsOnLines(init);
      if PartText(last).Some? {
        var t, before := PartText(last).value, AfterEmpty(Texts(init));
        AfterEmptyAppend(Texts(init), t);
        if before == [] {
          assert JoinParts(items) == "" + "" + t == t;
        } else {
          OnLinesNonempty(before);
          assert init != [];
          assert (before + [t])[..|before|] == before;
        }
      }
    }
  }

  // ----- What the chat parser reads, said of the body -----

  predicate CallIs(item: Json, tc: ToolCall) {
    if item.Null? then tc == ToolCall("", "", "")
    else
      && item.Obj? && StringIs(item.fields, "id", tc.id)
      && if Absent(item.fields, "function") then tc.name == "" && tc.arguments == ""
         else
           && item.fields["function"].Obj?
           && StringIs(item.fields["function"].fields, "name", tc.name)
           && StringIs(item.fields["function"].fields, "arguments", tc.arguments)
  }

  predicate PartIs(item: Json, text: string) {
    && item.Obj? && StringIs(item.fields, "type", "text") && StringIs(item.fields, "text", text)
    && (Absent(item.fields, "image_url")
        || (item.fields["image_url"].Obj? && StringOrNone(item.fields["image_url"].fields, "url")))
    && (Absent(item.fields, "input_audio")
        || (item.fields["input_audio"].Obj? && StringOrNone(item.fields["input_audio"].fields, "data")
            && StringOrNone(item.fields["input_audio"].fields, "format")))
  }

  ghost predicate MessageReads(m: map<string, Json>, message: ChatMessage) {
    && StringOrNone(m, "role") && message.content == (if "content" in m then Some(m["content"]) else None)
    && if Absent(m, "tool_calls") then message.toolCalls == []
       else
         && m["tool_calls"].Arr? && |m["tool_calls"].items| == |message.toolCalls|
         && forall i :: 0 <= i < |message.toolCalls| ==> CallIs(m["tool_calls"].items[i], message.toolCalls[i])
  }

  /** A choice that fits, with the message it has, if any. */
  ghost predicate ChoiceIs(item: Json, message: Option<ChatMessage>) {
    if item.Null? then message.None?
    else
      && item.Obj? && StringOrNone(item.fields, "finish_reason")
      && if Absent(item.fields, "message") then message.None?
         else item.fields["message"].Obj? && message.Some? && MessageReads(item.fields["message"].fields, message.value)
  }

  ghost predicate Fits(item: Json) {
    exists message :: ChoiceIs(item, message)
  }

  lemma CallReads(item: Json)
    ensures forall tc :: DecodeCall(item) == Some(tc) <==> CallIs(item, tc)
  {
  }

  lemma PartReads(item: Json)
    ensures forall t :: PartText(item) == Some(t) <==> PartIs(item, t)
  {
    if item.Obj? {
      StringsInMeans(item.fields, "image_url", ["url"]);
      StringsInMeans(item.fields, "input_audio", ["data", "format"]);
    }
  }

  lemma StringsInMeans(m: map<string, Json>, key: string, names: seq<string>)
    ensures StringsIn(m, key, names) <==>
            Absent(m, key) || (m[key].Obj? && forall n :: n in names ==> StringOrNone(m[key].fields, n))
  {
    forall n | n in names && !Absent(m, key) && m[key].Obj?
      ensures StringField(m[key].fields, n).Some? <==> StringOrNone(m[key].fields, n)
    {
      FieldsAre(m[key].fields, n);
    }
  }

  lemma {:induction false} DecodeAllMeans<T>(decode: Json -> Option<T>, items: seq<Json>)
    ensures DecodeAll(decode, items).Some? <==> forall i :: 0 <= i < |items| ==> decode(items[i]).Some?
    ensures DecodeAll(decode, items).Some? ==>
      |DecodeAll(decode, items).value| == |items|
      && forall i :: 0 <= i < |items| ==> decode(items[i]) == Some(DecodeAll(decode, items).value[i])
  {
    if items != [] {
      DecodeAllMeans(decode, items[1..]);
      assert forall i :: 0 < i < |items| ==> items[i] == items[1..][i - 1];
    }
  }

  lemma ChoiceReads(item: Json)
    ensures forall m :: DecodeChoice(item) == Some(m) <==> ChoiceIs(item, m)
  {
    hide DecodeAll, DecodeCall, CallIs;
    if item.Obj? && !Absent(item.fields, "message") && item.fields["message"].Obj? {
      var fields := item.fields["message"].fields;
      if !Absent(fields, "tool_calls") && fields["tool_calls"].Arr? {
        CallsRead(fields["tool_calls"].items);
      } else {
        assert DecodeAll(DecodeCall, []) == Some([]) by { CallsRead([]); }
      }
    }
  }

  lemma CallsRead(items: seq<Json>)
    ensures forall tcs :: DecodeAll(DecodeCall, items) == Some(tcs) <==>
              |tcs| == |items| && forall i :: 0 <= i < |tcs| ==> CallIs(items[i], tcs[i])
  {
    hide DecodeCall, CallIs, DecodeAll;
    DecodeAllMeans(DecodeCall, items);
    forall i | 0 <= i < |items|
      ensures forall tc :: DecodeCall(items[i]) == Some(tc) <==> CallIs(items[i], tc)
    {
      CallReads(items[i]);
    }
    forall tcs: seq<ToolCall> | |tcs| == |items| && forall i :: 0 <= i < |tcs| ==> CallIs(items[i], tcs[i])
      ensures DecodeAll(DecodeCall, items) == Some(tcs)
    {
      var read := DecodeAll(DecodeCall, items).value;
      forall i | 0 <= i < |tcs|
        ensures read[i] == tcs[i]
      {
        assert DecodeCall(items[i]) == Some(tcs[i]);
      }
      assert read == tcs;
    }
  }

  lemma ParsesChoices(body: Json, cs: seq<Json>)
    requires body.Obj? && "choices" in body.fields && body.fields["choices"] == Arr(cs)
    ensures var read := DecodeAll(DecodeChoice, cs);
      ParseChat(body) == if read.None? || read.value == [] || read.value[0].None? then NOTHING
                         else Parsed(ExtractText(read.value[0].value.content), "", read.value[0].value.toolCalls)
  {
    hide DecodeAll, DecodeChoice, ExtractText;
  }

  /** A body whose choices all fit is read for the first one's message, if it has one; any other
      body is read as nothing. */
  lemma ChatBodyReads(body: Json, cs: seq<Json>, m: Option<ChatMessage>)
    requires body.Obj? && "choices" in body.fields && body.fields["choices"] == Arr(cs)
    ensures cs != [] && (forall i :: 0 <= i < |cs| ==> Fits(cs[i])) && ChoiceIs(cs[0], m) ==>
      ParseChat(body) == match m case None => NOTHING case Some(msg) => Parsed(ExtractText(msg.content), "", msg.toolCalls)
    ensures cs == [] || (exists i :: 0 <= i < |cs| && !Fits(cs[i])) ==> ParseChat(body) == NOTHING
  {
    hide DecodeAll, DecodeChoice, ChoiceIs;
    DecodeAllMeans(DecodeChoice, cs);
    forall i | 0 <= i < |cs|
      ensures forall n :: DecodeChoice(cs[i]) == Some(n) <==> ChoiceIs(cs[i], n)
    {
      ChoiceReads(cs[i]);
    }
    assert SliceField(body.fields, "choices") == Some(cs);
    var read := DecodeAll(DecodeChoice, cs);
    ParsesChoices(body, cs);
    assert cs == [] ==> read.Some? && |read.value| == 0;
    forall i | 0 <= i < |cs|
      ensures DecodeChoice(cs[i]).Some? <==> Fits(cs[i])
    {
      if DecodeChoice(cs[i]).Some? { assert ChoiceIs(cs[i], DecodeChoice(cs[i]).value); }
    }
  }

  /** Only the first choice is read; the others must but fit. */
  lemma FirstChoiceIsRead(first: Json, others: seq<Json>)
    requires DecodeAll(DecodeChoice, others).Some?
    ensures ParseChat(Obj(map["choices" := Arr([first] + others)])) == ParseChat(Obj(map["choices" := Arr([first])]))
  {
    hide DecodeChoice;
    assert ([first] + others)[1..] == others && [first][1..] == [];
    assert DecodeAll(DecodeChoice, []) == Some([]);
  }

  function ParseChat(body: Json): Parsed {
    match Payload(Some(body))
    case None => NOTHING
    case Some(m) =>
      var choices := SliceField(m, "choices");
      if choices.None? then NOTHING
      else
        match DecodeAll(DecodeChoice, choices.value)
        case Some(cs) =>
          if cs == [] || cs[0].None? then NOTHING
          else Parsed(ExtractText(cs[0].value.content), "", cs[0].value.toolCalls)
        case None => NOTHING
  }

  lemma {:induction false} DecodesCalls(items: seq<Json>, calls: seq<ToolCall>)
    requires |items| == |calls| && forall j :: 0 <= j < |items| ==> items[j] == ChatCall(calls[j])
    ensures DecodeAll(DecodeCall, items) == Some(calls)
  {
    if items != [] {
      DecodesCalls(items[1..], calls[1..]);
      assert DecodeCall(ChatCall(calls[0])) == Some(calls[0]);
      assert calls == [calls[0]] + calls[1..];
    }
  }

  lemma DecodesOne(choice: Json, message: ChatMessage)
    requires DecodeChoice(choice) == Some(Some(message))
    ensures DecodeAll(DecodeChoice, [choice]) == Some([Some(message)])
  {
    assert [choice][1..] == [];
    assert DecodeAll(DecodeChoice, []) == Some([]);
    assert [Some(message)] + [] == [Some(message)];
  }

  // ----- Anthropic Messages -----

  /** A content block: the fields read as strings, and the text of its input, which builder and
      parser both carry as raw bytes. */
  datatype Block = NotAnObject | Block(fields: map<string, Json>, input: Option<string>)

  datatype MessagesBody = MessagesBody(root: map<string, Json>, content: seq<Block>)

  /** json.Valid, of which nothing is used but that marshalling fails where it does. */
  type Valid = string -> bool

  function CallBlock(tc: ToolCall): Block {
    Block(map["type" := Str("tool_use"), "id" := Str(tc.id), "name" := Str(tc.name)], Some(tc.arguments))
  }

  /** The thinking block and the text block, each only if there is something in it. */
  method TextBlocks(resp: Response) returns (blocks: seq<Block>)
    ensures ParseMessages(blocks) == Parsed(resp.content, resp.reasoning, [])
  {
    ParsesText(resp.content, resp.reasoning);
    blocks := [];
    if resp.reasoning != "" {
      blocks := blocks + [Block(map["type" := Str("thinking"), "thinking" := Str(resp.reasoning)], None)];
    }
    if resp.content != "" {
      blocks := blocks + [Block(map["type" := Str("text"), "text" := Str(resp.content)], None)];
    }
  }

  lemma ParsesCall(blocks: seq<Block>, tc: ToolCall)
    ensures var p := ParseMessages(blocks);
            ParseMessages(blocks + [CallBlock(tc)]) == p.(toolCalls := p.toolCalls + [tc])
  {
    FoldOne(AddBlock, NOTHING, blocks, CallBlock(tc));
  }

  /** Builds, then marshals: marshalling fails on the first input that is not JSON. */
  method BuildMessagesResponse(valid: Valid, resp: Response) returns (body: Option<MessagesBody>)
    ensures body.None? <==> exists i :: 0 <= i < |resp.toolCalls| && !valid(resp.toolCalls[i].arguments)
    ensures body.Some? ==>
      && ParseMessages(body.value.content) == PartOf(resp).(toolCalls := Compacted(resp.toolCalls))
      && KeepsOtherKeys(resp.rawBody, body.value.root, {"content", "stop_reason"})
      && Lookup(body.value.root, "stop_reason") == (match resp.finishReason
                                                    case None => Lookup(MapFromRaw(resp.rawBody), "stop_reason")
                                                    case Some(f) => Some(Str(f)))
  {
    hide ParseMessages, CallBlock, Compact;
    var root := MapFromRaw(resp.rawBody) - {"content"};
    var blocks := TextBlocks(resp);
    assert resp.toolCalls[..0] == [];
    for i := 0 to |resp.toolCalls|
      invariant forall j :: 0 <= j < i ==> valid(resp.toolCalls[j].arguments)
      invariant ParseMessages(blocks) == Parsed(resp.content, resp.reasoning, Compacted(resp.toolCalls[..i]))
    {
      var tc := resp.toolCalls[i];
      if !valid(tc.arguments) { return None; }
      var text := Compact(Outside, tc.arguments);
      ParsesCall(blocks, tc.(arguments := text));
      blocks := blocks + [CallBlock(tc.(arguments := text))];
      CompactedOne(resp.toolCalls[..i], tc);
      assert resp.toolCalls[..i + 1] == resp.toolCalls[..i] + [tc];
    }
    assert resp.toolCalls[..|resp.toolCalls|] == resp.toolCalls;
    if resp.finishReason.Some? {
      root := root["stop_reason" := Str(resp.finishReason.value)];
    }
    body := Some(MessagesBody(root, blocks));
  }

  /** The calls with their arguments as marshalling embeds them. */
  function Compacted(calls: seq<ToolCall>): seq<ToolCall> {
    if calls == [] then []
    else [calls[0].(arguments := Compact(Outside, calls[0].arguments))] + Compacted(calls[1..])
  }

  lemma {:induction false} CompactedOne(calls: seq<ToolCall>, tc: ToolCall)
    ensures Compacted(calls + [tc]) == Compacted(calls) + [tc.(arguments := Compact(Outside, tc.arguments))]
  {
    if calls != [] {
      assert (calls + [tc])[1..] == calls[1..] + [tc];
      CompactedOne(calls[1..], tc);
    } else {
      assert [] + [tc] == [tc];
    }
  }

  /** Tool calls come back as they went in exactly when no arguments text has whitespace between
      tokens or one of the characters that are spelled as escapes. */
  lemma {:induction false} SameCallsIff(calls: seq<ToolCall>)
    ensures Compacted(calls) == calls <==> forall i :: 0 <= i < |calls| ==> Untouched(Outside, calls[i].arguments)
  {
    hide Compact, Untouched;
    if calls != [] {
      SameCallsIff(calls[1..]);
      CompactIff(calls[0].arguments);
      var first := calls[0].(arguments := Compact(Outside, calls[0].arguments));
      assert Compacted(calls)[0] == first && Compacted(calls)[1..] == Compacted(calls[1..]);
      assert calls == [calls[0]] + calls[1..];
      assert forall i :: 0 < i < |calls| ==> calls[i] == calls[1..][i - 1];
    }
  }

  /** Arguments on which a rebuilt body differs: one with a space, and one for each of the
      characters that are spelled. */
  lemma CallsThatChange(id: string, name: string, c: char)
    requires Marked(c)
    ensures Compacted([ToolCall(id, name, "[ ]")]) == [ToolCall(id, name, "[]")]
    ensures Compacted([ToolCall(id, name, ['"', c, '"'])]) == [ToolCall(id, name, ['"'] + Spelled(c) + ['"'])]
            != [ToolCall(id, name, ['"', c, '"'])]
  {
    hide Compact;
    SpaceIsLost();
    MarkIsSpelled(c);
    assert forall tc: ToolCall :: [tc][1..] == [];
    var spelled := ToolCall(id, name, ['"'] + Spelled(c) + ['"']);
    assert [spelled][0].arguments != ['"', c, '"'];
    assert Compacted([]) == [] && [spelled] + [] == [spelled];
  }

  function AddBlock(p: Parsed, b: Block): Parsed {
    if b.NotAnObject? then p
    else
      var kind, text := StringField(b.fields, "type"), StringField(b.fields, "text");
      var thinking, id, name := StringField(b.fields, "thinking"), StringField(b.fields, "id"), StringField(b.fields, "name");
      if kind.None? || text.None? || thinking.None? || id.None? || name.None? then p
      else if kind.value == "text" then p.(content := p.content + text.value)
      else if kind.value == "thinking" then p.(reasoning := p.reasoning + thinking.value)
      else if kind.value == "tool_use" then
        p.(toolCalls := p.toolCalls + [ToolCall(id.value, name.value, if b.input.None? then "" else b.input.value)])
      else p
  }

  /** collectMessagesBlocks: texts are joined, thinking is joined, tool calls are listed. */
  function ParseMessages(blocks: seq<Block>): Parsed {
    Fold(AddBlock, NOTHING, blocks)
  }

  /** A body says what its blocks say, one after the other. */
  lemma {:induction false} BlocksAddUp(a: seq<Block>, b: seq<Block>)
    ensures ParseMessages(a + b) == Both(ParseMessages(a), ParseMessages(b))
  {
    hide AddBlock;
    NoBlocks();
    if b == [] {
      assert a + b == a;
      assert Both(ParseMessages(a), NOTHING) == ParseMessages(a);
    } else {
      var init, last := b[..|b| - 1], b[|b| - 1];
      BlocksAddUp(a, init);
      assert b == init + [last] && a + b == a + init + [last];
      FoldOne(AddBlock, NOTHING, a + init, last);
      FoldOne(AddBlock, NOTHING, init, last);
      BlockAdds(ParseMessages(a), ParseMessages(init), last);
    }
  }

  lemma BlockAdds(p: Parsed, q: Parsed, b: Block)
    ensures AddBlock(Both(p, q), b) == Both(p, AddBlock(q, b))
  {
  }

  predicate BlockFits(b: Block) {
    && b.Block? && StringOrNone(b.fields, "type") && StringOrNone(b.fields, "text") && StringOrNone(b.fields, "thinking")
    && StringOrNone(b.fields, "id") && StringOrNone(b.fields, "name")
  }

  /** One block: its text, its thinking or its tool call, as its type says. */
  lemma OneBlock(b: Block)
    ensures !BlockFits(b) ==> ParseMessages([b]) == NOTHING
    ensures BlockFits(b) ==>
      var p := ParseMessages([b]);
      && (StringIs(b.fields, "type", "text") ==> p.reasoning == "" && p.toolCalls == [] && StringIs(b.fields, "text", p.content))
      && (StringIs(b.fields, "type", "thinking") ==> p.content == "" && p.toolCalls == [] && StringIs(b.fields, "thinking", p.reasoning))
      && (StringIs(b.fields, "type", "tool_use") ==>
           && p.content == "" && p.reasoning == "" && |p.toolCalls| == 1
           && StringIs(b.fields, "id", p.toolCalls[0].id) && StringIs(b.fields, "name", p.toolCalls[0].name)
           && p.toolCalls[0].arguments == (if b.input.None? then "" else b.input.value))
      && (!StringIs(b.fields, "type", "text") && !StringIs(b.fields, "type", "thinking") && !StringIs(b.fields, "type", "tool_use")
          ==> p == NOTHING)
  {
    BlockAlone(b);
    hide ParseMessages, Fold;
    if b.Block? {
      FieldsAre(b.fields, "type");
      FieldsAre(b.fields, "text");
      FieldsAre(b.fields, "thinking");
      FieldsAre(b.fields, "id");
      FieldsAre(b.fields, "name");
    }
  }

  lemma BlockAlone(b: Block)
    ensures ParseMessages([b]) == AddBlock(NOTHING, b)
  {
    hide AddBlock;
    NoBlocks();
    FoldOne(AddBlock, NOTHING, [], b);
    assert [] + [b] == [b];
  }

  method CollectMessagesBlocks(blocks: seq<Block>) returns (resp: Parsed)
    ensures resp == ParseMessages(blocks)
  {
    var content, reasoning, toolCalls: seq<ToolCall> := "", "", [];
    for i := 0 to |blocks|
      invariant Parsed(content, reasoning, toolCalls) == ParseMessages(blocks[..i])
    {
      FoldOne(AddBlock, NOTHING, blocks[..i], blocks[i]);
      assert blocks[..i + 1] == blocks[..i] + [blocks[i]];
      var b := blocks[i];
      if b.NotAnObject? { continue; }
      var kind, text := StringField(b.fields, "type"), StringField(b.fields, "text");
      var thinking, id, name := StringField(b.fields, "thinking"), StringField(b.fields, "id"), StringField(b.fields, "name");
      if kind.None? || text.None? || thinking.None? || id.None? || name.None? { continue; }
      if kind.value == "text" {
        content := content + text.value;
      } else if kind.value == "thinking" {
        reasoning := reasoning + thinking.value;
      } else if kind.value == "tool_use" {
        toolCalls := toolCalls + [ToolCall(id.value, name.value, if b.input.None? then "" else b.input.value)];
      }
    }
    assert blocks[..|blocks|] == blocks;
    resp := Parsed(content, reasoning, toolCalls);
  }

  lemma NoBlocks()
    ensures Fold(AddBlock, NOTHING, []) == NOTHING
  {
  }

  lemma AddsText(p: Parsed, content: string, reasoning: string)
    ensures AddBlock(p, Block(map["type" := Str("thinking"), "thinking" := Str(reasoning)], None))
         == p.(reasoning := p.reasoning + reasoning)
    ensures AddBlock(p, Block(map["type" := Str("text"), "text" := Str(content)], None))
         == p.(content := p.content + content)
  {
  }

  lemma ParsesText(content: string, reasoning: string)
    ensures var thinking := Block(map["type" := Str("thinking"), "thinking" := Str(reasoning)], None);
            var text := Block(map["type" := Str("text"), "text" := Str(content)], None);
            && ParseMessages([]) == NOTHING
            && ParseMessages([] + [thinking]) == Parsed("", reasoning, [])
            && ParseMessages([] + [text]) == Parsed(content, "", [])
            && ParseMessages([] + [thinking] + [text]) == Parsed(content, reasoning, [])
  {
    hide AddBlock, Fold;
    var thinking := Block(map["type" := Str("thinking"), "thinking" := Str(reasoning)], None);
    var text := Block(map["type" := Str("text"), "text" := Str(content)], None);
    NoBlocks();
    AddsText(NOTHING, content, reasoning);
    AddsText(Parsed("", reasoning, []), content, reasoning);
    FoldOne(AddBlock, NOTHING, [], thinking);
    FoldOne(AddBlock, NOTHING, [], text);
    FoldOne(AddBlock, NOTHING, [] + [thinking], text);
  }

  // ----- OpenAI Responses -----

  function CallItem(tc: ToolCall): Json {
    Obj(map["type" := Str("function_call"), "id" := Str(tc.id), "name" := Str(tc.name), "arguments" := Str(tc.arguments)])
  }

  function ReasoningItem(text: string): Json {
    Obj(map["type" := Str("reasoning"),
            "summary" := Arr([Obj(map["type" := Str("summary_text"), "text" := Str(text)])])])
  }

  function MessageItem(text: string): Json {
    Obj(map["type" := Str("message"), "role" := Str("assistant"),
            "content" := Arr([Obj(map["type" := Str("output_text"), "text" := Str(text)])])])
  }

  predicate FromAssistant(item: Json) {
    item.Obj? && (Lookup(item.fields, "type") == Some(Str("message")) ==> Lookup(item.fields, "role") == Some(Str("assistant")))
  }

  lemma TextFromAssistant(content: string, reasoning: string)
    ensures FromAssistant(MessageItem(content)) && FromAssistant(ReasoningItem(reasoning))
  {
  }

  lemma CallFromAssistant(tc: ToolCall)
    ensures FromAssistant(CallItem(tc))
  {
  }

  method TextItems(encode: Json -> string, resp: Response) returns (output: seq<Json>)
    ensures forall item :: item in output ==> FromAssistant(item)
    ensures ReadItems(encode, output) == Parsed(resp.content, resp.reasoning, [])
  {
    hide ReadItems, ReasoningItem, MessageItem, FromAssistant;
    ReadsItems(encode, resp.content, resp.reasoning);
    TextFromAssistant(resp.content, resp.reasoning);
    output := [];
    if resp.reasoning != "" { output := output + [ReasoningItem(resp.reasoning)]; }
    if resp.content != "" { output := output + [MessageItem(resp.content)]; }
  }

  lemma ReadsCall(encode: Json -> string, output: seq<Json>, tc: ToolCall)
    ensures var p := ReadItems(encode, output);
            ReadItems(encode, output + [CallItem(tc)]) == p.(toolCalls := p.toolCalls + [tc])
  {
    FoldOne((p, item) => AddItem(encode, p, item), NOTHING, output, CallItem(tc));
  }

  method BuildResponsesResponse(encode: Json -> string, resp: Response) returns (root: map<string, Json>)
    ensures KeepsOtherKeys(resp.rawBody, root, {"output", "status"})
    ensures ParseResponses(encode, Obj(root)) == PartOf(resp)
    ensures "output" in root && root["output"].Arr? && forall item :: item in root["output"].items ==> FromAssistant(item)
    ensures Lookup(root, "status") == match resp.finishReason
                                      case None => Lookup(MapFromRaw(resp.rawBody), "status")
                                      case Some(f) => Some(Str(f))
  {
    hide ReadItems, CallItem;
    root := MapFromRaw(resp.rawBody);
    var output := TextItems(encode, resp);
    assert resp.toolCalls[..0] == [];
    for i := 0 to |resp.toolCalls|
      invariant ReadItems(encode, output) == Parsed(resp.content, resp.reasoning, resp.toolCalls[..i])
      invariant forall item :: item in output ==> FromAssistant(item)
    {
      ReadsCall(encode, output, resp.toolCalls[i]);
      CallFromAssistant(resp.toolCalls[i]);
      output := output + [CallItem(resp.toolCalls[i])];
      assert resp.toolCalls[..i + 1] == resp.toolCalls[..i] + [resp.toolCalls[i]];
    }
    assert resp.toolCalls[..|resp.toolCalls|] == resp.toolCalls;
    root := root["output" := Arr(output)];
    if resp.finishReason.Some? {
      root := root["status" := Str(resp.finishReason.value)];
    }
  }

  /** The `text` of the inner parts of the wanted kinds, joined. */
  function InnerText(parts: seq<Json>, kinds: set<string>): string {
    if parts == [] then ""
    else
      var before := InnerText(parts[..|parts| - 1], kinds);
      match Payload(Some(parts[|parts| - 1]))
      case None => before
      case Some(m) =>
        var kind, text := StringField(m, "type"), StringField(m, "text");
        if kind.None? || text.None? || kind.value !in kinds then before else before + text.value
  }

  /** One output item. Arguments may be a JSON string or any other value, kept as its text. */
  function AddItem(encode: Json -> string, p: Parsed, item: Json): Parsed {
    match Payload(Some(item))
    case None => p
    case Some(m) =>
      var kind, id, name := StringField(m, "type"), StringField(m, "id"), StringField(m, "name");
      var content, summary := SliceField(m, "content"), SliceField(m, "summary");
      if kind.None? || id.None? || name.None? || content.None? || summary.None? then p
      else if kind.value == "message" then
        p.(content := p.content + InnerText(content.value, {"output_text", "text"}))
      else if kind.value == "reasoning" then
        p.(reasoning := p.reasoning + InnerText(summary.value, {"summary_text"}))
      else if kind.value == "function_call" then
        p.(toolCalls := p.toolCalls + [ToolCall(id.value, name.value, ArgumentsText(encode, m))])
      else p
  }

  function ArgumentsText(encode: Json -> string, m: map<string, Json>): string {
    var arguments: Option<Json> := Lookup(m, "arguments");
    match arguments
    case None => ""
    case Some(Null) => ""  // null decodes into a string as the empty string
    case Some(Str(s)) => s
    case Some(other) => encode(other)
  }

  /** collectResponsesOutput. */
  function ReadItems(encode: Json -> string, items: seq<Json>): Parsed {
    Fold((p, item) => AddItem(encode, p, item), NOTHING, items)
  }

  /** A function call's arguments: a string as it is, null or nothing as the empty string, any
      other value as its text. */
  lemma OneCallItem(encode: Json -> string, m: map<string, Json>, id: string, name: string)
    requires StringIs(m, "type", "function_call") && StringIs(m, "id", id) && StringIs(m, "name", name)
    requires Absent(m, "content") && Absent(m, "summary")
    ensures var p := ReadItems(encode, [Obj(m)]);
      && p.content == "" && p.reasoning == "" && |p.toolCalls| == 1 && p.toolCalls[0].id == id && p.toolCalls[0].name == name
      && (forall s :: StringIs(m, "arguments", s) ==> p.toolCalls[0].arguments == s)
      && (!StringOrNone(m, "arguments") ==> p.toolCalls[0].arguments == encode(m["arguments"]))
  {
    ReadsOne(encode, Obj(m));
    FieldsAre(m, "type");
    FieldsAre(m, "id");
    FieldsAre(m, "name");
    FieldsAre(m, "content");
    FieldsAre(m, "summary");
  }

  lemma ResponsesBodyReads(encode: Json -> string, m: map<string, Json>, items: seq<Json>)
    requires "output" in m && m["output"] == Arr(items)
    ensures ParseResponses(encode, Obj(m)) == ReadItems(encode, items)
  {
  }

  lemma {:induction false} InnerAddsUp(a: seq<Json>, b: seq<Json>, kinds: set<string>)
    ensures InnerText(a + b, kinds) == InnerText(a, kinds) + InnerText(b, kinds)
  {
    if b == [] {
      assert a + b == a;
      assert InnerText(a, kinds) + "" == InnerText(a, kinds);
    } else {
      assert (a + b)[..|a + b| - 1] == a + b[..|b| - 1];
      InnerAddsUp(a, b[..|b| - 1], kinds);
    }
  }

  /** An output says what its items say, one after the other. */
  lemma {:induction false} ItemsAddUp(encode: Json -> string, a: seq<Json>, b: seq<Json>)
    ensures ReadItems(encode, a + b) == Both(ReadItems(encode, a), ReadItems(encode, b))
  {
    hide AddItem;
    ReadsNothing(encode);
    var add := (p, item) => AddItem(encode, p, item);
    if b == [] {
      assert a + b == a;
      assert Both(ReadItems(encode, a), NOTHING) == ReadItems(encode, a);
    } else {
      var init, last := b[..|b| - 1], b[|b| - 1];
      ItemsAddUp(encode, a, init);
      assert b == init + [last] && a + b == a + init + [last];
      FoldOne(add, NOTHING, a + init, last);
      FoldOne(add, NOTHING, init, last);
      ItemAdds(encode, ReadItems(encode, a), ReadItems(encode, init), last);
    }
  }

  lemma ItemAdds(encode: Json -> string, p: Parsed, q: Parsed, item: Json)
    ensures AddItem(encode, Both(p, q), item) == Both(p, AddItem(encode, q, item))
  {
  }

  function InnerPart(part: (string, string)): Json {
    Obj(map["type" := Str(part.0), "text" := Str(part.1)])
  }

  function InnerParts(parts: seq<(string, string)>): seq<Json> {
    if parts == [] then [] else [InnerPart(parts[0])] + InnerParts(parts[1..])
  }

  function TextOfKinds(parts: seq<(string, string)>, kinds: set<string>): string {
    if parts == [] then ""
    else (if parts[0].0 in kinds then parts[0].1 else "") + TextOfKinds(parts[1..], kinds)
  }

  lemma {:induction false} PartsRead(parts: seq<(string, string)>, kinds: set<string>)
    ensures InnerText(InnerParts(parts), kinds) == TextOfKinds(parts, kinds)
  {
    if parts != [] {
      PartsRead(parts[1..], kinds);
      InnerAddsUp([InnerPart(parts[0])], InnerParts(parts[1..]), kinds);
      OnePart(parts[0], kinds);
    }
  }

  lemma OnePart(part: (string, string), kinds: set<string>)
    ensures InnerText([InnerPart(part)], kinds) == if part.0 in kinds then part.1 else ""
  {
    assert [InnerPart(part)][..0] == [] && InnerText([], kinds) == "";
  }

  /** A message or a reasoning item says what its inner parts of the right kinds say, in order. */
  lemma ItemOfParts(encode: Json -> string, parts: seq<(string, string)>)
    ensures ReadItems(encode, [Obj(map["type" := Str("message"), "content" := Arr(InnerParts(parts))])])
         == Parsed(TextOfKinds(parts, {"output_text", "text"}), "", [])
    ensures ReadItems(encode, [Obj(map["type" := Str("reasoning"), "summary" := Arr(InnerParts(parts))])])
         == Parsed("", TextOfKinds(parts, {"summary_text"}), [])
  {
    PartsRead(parts, {"output_text", "text"});
    PartsRead(parts, {"summary_text"});
    hide InnerText, InnerParts, TextOfKinds;
    ReadsOne(encode, Obj(map["type" := Str("message"), "content" := Arr(InnerParts(parts))]));
    ReadsOne(encode, Obj(map["type" := Str("reasoning"), "summary" := Arr(InnerParts(parts))]));
  }

  lemma ReadsOne(encode: Json -> string, item: Json)
    ensures ReadItems(encode, [item]) == AddItem(encode, NOTHING, item)
  {
    var add := (p, item) => AddItem(encode, p, item);
    ReadsNothing(encode);
    FoldOne(add, NOTHING, [], item);
    assert [] + [item] == [item];
  }

  function ParseResponses(encode: Json -> string, body: Json): Parsed {
    match Payload(Some(body))
    case None => NOTHING
    case Some(m) =>
      var output := SliceField(m, "output");
      if output.None? then NOTHING else ReadItems(encode, output.value)
  }

  lemma OneInner(text: string, kind: string, kinds: set<string>)
    requires kind in kinds
    ensures InnerText([Obj(map["type" := Str(kind), "text" := Str(text)])], kinds) == text
  {
    var part := Obj(map["type" := Str(kind), "text" := Str(text)]);
    assert [part][..0] == [];
    assert InnerText([], kinds) == "";
  }

  lemma ReadsItems(encode: Json -> string, content: string, reasoning: string)
    ensures ReadItems(encode, []) == NOTHING
    ensures ReadItems(encode, [] + [ReasoningItem(reasoning)]) == Parsed("", reasoning, [])
    ensures ReadItems(encode, [] + [MessageItem(content)]) == Parsed(content, "", [])
    ensures ReadItems(encode, [] + [ReasoningItem(reasoning)] + [MessageItem(content)]) == Parsed(content, reasoning, [])
  {
    hide InnerText, Fold;
    var add := (p, item) => AddItem(encode, p, item);
    OneInner(content, "output_text", {"output_text", "text"});
    OneInner(reasoning, "summary_text", {"summary_text"});
    ReadsNothing(encode);
    FoldOne(add, NOTHING, [], ReasoningItem(reasoning));
    FoldOne(add, NOTHING, [], MessageItem(content));
    FoldOne(add, NOTHING, [] + [ReasoningItem(reasoning)], MessageItem(content));
  }

  lemma ReadsNothing(encode: Json -> string)
    ensures ReadItems(encode, []) == NOTHING
  {
  }
}
