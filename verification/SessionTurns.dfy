/** Turn sequences (internal/session/build.go) and the hashes of their prefixes
    (internal/session/prefix.go). A request body is a JSON value; a turn is one too, and the
    canonical text of a turn sequence stands for the sequence itself. */
module SessionTurns {
  import opened Wrappers
  import opened Json

  type Turns = seq<Json>

  const VIRTUAL_SYSTEM_ROLE := "__apilog_system__"

  datatype Protocol = Chat | Messages | Responses | Unknown

  function ProtocolForPath(path: string): Protocol {
    var p := BeforeQuery(path);
    if p == "/v1/chat/completions" then Chat
    else if p == "/v1/messages" then Messages
    else if p == "/v1/responses" then Responses
    else Unknown
  }

  function BeforeQuery(path: string): string {
    if path == "" || path[0] == '?' then "" else [path[0]] + BeforeQuery(path[1..])
  }

  /** The path is `name`, with or without a query behind it. */
  predicate IsPath(path: string, name: string) {
    path == name || (|name| < |path| && path[..|name|] == name && path[|name|] == '?')
  }

  lemma {:induction false} UpToQuery(path: string)
    ensures '?' !in BeforeQuery(path) && IsPath(path, BeforeQuery(path))
    ensures forall name :: '?' !in name && IsPath(path, name) ==> name == BeforeQuery(path)
  {
    if path != "" && path[0] != '?' {
      UpToQuery(path[1..]);
      var rest := BeforeQuery(path[1..]);
      assert path == [path[0]] + path[1..];
      assert path[..|rest| + 1] == [path[0]] + path[1..][..|rest|];
      forall name | '?' !in name && IsPath(path, name)
        ensures name == BeforeQuery(path)
      {
        assert name != "" && name[0] == path[0] && IsPath(path[1..], name[1..]);
        assert name == [name[0]] + name[1..];
      }
    }
  }

  /** The path alone decides, whatever query follows it. */
  lemma PathsAre(path: string)
    ensures ProtocolForPath(path).Chat? <==> IsPath(path, "/v1/chat/completions")
    ensures ProtocolForPath(path).Messages? <==> IsPath(path, "/v1/messages")
    ensures ProtocolForPath(path).Responses? <==> IsPath(path, "/v1/responses")
  {
    UpToQuery(path);
    hide IsPath, BeforeQuery;
  }

  /** A raw field that is there and not null. */
  function Present(m: map<string, Json>, key: string): (field: Option<Json>)
    ensures field.None? <==> Absent(m, key)
    ensures field.Some? ==> field.value == m[key]
  {
    if key in m && !m[key].Null? then Some(m[key]) else None
  }

  function VirtualSystem(content: Json): Json {
    Obj(map["role" := Str(VIRTUAL_SYSTEM_ROLE), "content" := content])
  }

  /** The body is an object whose messages are `ms`, at least one. */
  predicate Carries(body: Json, ms: Turns) {
    body.Obj? && "messages" in body.fields && body.fields["messages"] == Arr(ms) && ms != []
  }

  lemma MessagesAre(body: Json)
    ensures forall ms :: FromChat(body) == Some(ms) <==> Carries(body, ms)
  {
  }

  /** Only the three paths with a body have sessions. A chat session is the body's messages, one
      and all; a Messages session is those behind the virtual turn of the system prompt, if there
      is one; a Responses session is what the input adds behind the instructions. */
  method Build(path: string, body: Option<Json>) returns (turns: Option<Turns>)
    ensures turns.Some? ==> turns.value != [] && body.Some? && !ProtocolForPath(path).Unknown?
    ensures body.Some? && ProtocolForPath(path).Chat? ==>
      forall ms :: turns == Some(ms) <==> Carries(body.value, ms)
    ensures body.Some? && ProtocolForPath(path).Messages? ==>
      && (turns.Some? ==> exists ms :: Carries(body.value, ms))
      && forall ms :: Carries(body.value, ms) ==> turns.Some? && IsSession(turns.value, System(body.value), ms)
    ensures body.Some? && ProtocolForPath(path).Responses? && body.value.Obj? ==>
      var m := body.value.fields;
      && (turns.None? <==> Present(m, "instructions").None? && Present(m, "input").None?)
      && (turns.Some? ==> IsSession(turns.value, Present(m, "instructions"),
                                    if Present(m, "input").None? then [] else InputTurns(Present(m, "input").value)))
  {
    if body.None? { return None; }
    MessagesAre(body.value);
    match ProtocolForPath(path)
    case Chat => turns := FromChat(body.value);
    case Messages => turns := FromAnthropic(body.value);
    case Responses => turns := BuildResponses(body.value);
    case Unknown => turns := None;
  }

  /** The client's turns, behind the virtual system turn if there is a system content. */
  predicate IsSession(turns: Turns, sys: Option<Json>, client: Turns) {
    match sys
    case None => turns == client
    case Some(content) => turns != [] && turns[0] == VirtualSystem(content) && turns[1..] == client
  }

  function FromChat(body: Json): Option<Turns> {
    match Payload(Some(body))
    case None => None
    case Some(m) =>
      match SliceField(m, "messages")
      case None => None
      case Some(ms) => if ms == [] then None else Some(ms)
  }

  function FromAnthropic(body: Json): Option<Turns> {
    match FromChat(body)
    case None => None
    case Some(ms) =>
      match System(body)
      case None => Some(ms)
      case Some(sys) => Some([VirtualSystem(sys)] + ms)
  }

  /** The system prompt that counts: absent and null are the same. */
  function System(body: Json): Option<Json> {
    if body.Obj? then Present(body.fields, "system") else None
  }

  predicate MessageItem(item: Json) {
    && item.Obj?
    && StringField(item.fields, "type") == Some("message")
    && StringField(item.fields, "role").Some? && StringField(item.fields, "role").value != ""
  }

  /** What `input` adds to the turns. */
  function InputTurns(input: Json): Turns {
    match input
    case Str(s) => [UserTurn(s)]
    case Arr(items) =>
      if items != [] && forall i :: 0 <= i < |items| ==> MessageItem(items[i]) then items else [Opaque(input)]
    case _ => [Opaque(input)]
  }

  function UserTurn(s: string): Json {
    Obj(map["role" := Str("user"), "content" := Str(s)])
  }

  function Opaque(input: Json): Json {
    Obj(map["role" := Str("user"), "input" := input])
  }

  function FromResponses(body: Json): Option<Turns> {
    match Payload(Some(body))
    case None => None
    case Some(m) =>
      var sys := match Present(m, "instructions") case None => [] case Some(i) => [VirtualSystem(i)];
      match Present(m, "input")
      case None => if sys == [] then None else Some(sys)
      case Some(input) => Some(sys + InputTurns(input))
  }

  method BuildResponses(body: Json) returns (turns: Option<Turns>)
    ensures turns == FromResponses(body)
  {
    var m := Payload(Some(body));
    if m.None? { return None; }
    var ts: Turns := [];
    var instructions := Present(m.value, "instructions");
    if instructions.Some? { ts := ts + [VirtualSystem(instructions.value)]; }
    assert ts == match instructions case None => [] case Some(i) => [VirtualSystem(i)];
    var input := Present(m.value, "input");
    if input.None? {
      if |ts| == 0 { return None; }
      return Some(ts);
    }
    var value := input.value;
    match value {
      case Str(s) =>
        return Some(ts + [UserTurn(s)]);
      case Arr(items) =>
        var homog := true;
        var i := 0;
        while i < |items| && homog
          invariant 0 <= i <= |items|
          invariant homog ==> forall k :: 0 <= k < i ==> MessageItem(items[k])
          invariant !homog ==> exists k :: 0 <= k < |items| && !MessageItem(items[k])
        {
          if !MessageItem(items[i]) { homog := false; }
          i := i + 1;
        }
        if homog && |items| > 0 { return Some(ts + items); }
        assert InputTurns(value) == [Opaque(value)];
        return Some(ts + [Opaque(value)]);
      case _ =>
        return Some(ts + [Opaque(value)]);
    }
  }

  // ----- What an input adds -----

  /** A message item has type "message" and a role, said of the item itself. */
  lemma MessageItemsAre(item: Json)
    ensures MessageItem(item) <==>
      && item.Obj? && "type" in item.fields && item.fields["type"] == Str("message")
      && "role" in item.fields && item.fields["role"].Str? && item.fields["role"].s != ""
  {
  }

  /** Different inputs never add the same turns. */
  lemma InputsTellApart(a: Json, b: Json)
    requires InputTurns(a) == InputTurns(b)
    ensures a == b
  {
    InputShape(a);
    InputShape(b);
    hide InputTurns, MessageItem;
    var first := InputTurns(a)[0];
    assert first == InputTurns(b)[0];
    if a.Str? && b.Str? { assert UserTurn(a.s).fields["content"] == UserTurn(b.s).fields["content"]; }
  }

  /** A string is one user turn; an array of message items is those items; anything else is one
      turn that holds it under "input", which no message item turn does. */
  lemma InputShape(input: Json)
    ensures var ts := InputTurns(input);
      if input.Str? then ts == [UserTurn(input.s)]
      else if input.Arr? && input.items != [] && forall i :: 0 <= i < |input.items| ==> MessageItem(input.items[i]) then
        ts == input.items && ts[0].Obj? && "type" in ts[0].fields
      else ts == [Opaque(input)]
    ensures forall s :: var m := UserTurn(s).fields;
      "type" !in m && "input" !in m && "content" in m && m["content"] == Str(s) && "role" in m && m["role"] == Str("user")
    ensures var m := Opaque(input).fields;
      "type" !in m && "input" in m && m["input"] == input && "role" in m && m["role"] == Str("user")
  {
    if input.Arr? && input.items != [] && MessageItem(input.items[0]) { MessageItemsAre(input.items[0]); }
  }

  // ----- A follow-up request continues the first -----

  /** A request that repeats another's messages and adds some, under the same system prompt, has
      the other's turns as a strict prefix. */
  lemma FollowUpContinues(a: Json, b: Json, ms: Turns, more: Turns)
    requires Carries(a, ms) && Carries(b, ms + more) && more != []
    ensures FromChat(a).Some? && FromChat(b).Some? && FromChat(a).value < FromChat(b).value
    ensures FromAnthropic(a).Some? && FromAnthropic(b).Some?
    ensures System(a) == System(b) ==> FromAnthropic(a).value < FromAnthropic(b).value
  {
    if System(a) == System(b) && System(a).Some? {
      var v := VirtualSystem(System(a).value);
      assert [v] + (ms + more) == [v] + ms + more;
    }
  }

  /** The same for Responses inputs that are arrays of message items. */
  lemma ResponsesFollowUpContinues(a: map<string, Json>, b: map<string, Json>, items: seq<Json>, more: seq<Json>)
    requires "input" in a && a["input"] == Arr(items) && "input" in b && b["input"] == Arr(items + more)
    requires items != [] && more != [] && Present(a, "instructions") == Present(b, "instructions")
    requires forall i :: 0 <= i < |items + more| ==> MessageItem((items + more)[i])
    ensures FromResponses(Obj(a)).Some? && FromResponses(Obj(b)).Some?
    ensures FromResponses(Obj(a)).value < FromResponses(Obj(b)).value
  {
    hide MessageItem;
    assert forall i :: 0 <= i < |items| ==> items[i] == (items + more)[i];
    assert InputTurns(Arr(items)) == items && InputTurns(Arr(items + more)) == items + more;
    var sys := match Present(a, "instructions") case None => [] case Some(i) => [VirtualSystem(i)];
    assert sys + (items + more) == sys + items + more;
  }

  // ----- Hashes of prefixes -----

  type Hash = Turns -> string

  ghost predicate Injective(h: Hash) {
    forall a, b :: h(a) == h(b) ==> a == b
  }

  /** The hashes of the strict nonempty prefixes, longest first. */
  function StrictHashes(h: Hash, turns: Turns): seq<string> {
    if |turns| <= 1 then []
    else seq(|turns| - 1, i requires 0 <= i < |turns| - 1 => h(turns[..|turns| - 1 - i]))
  }

  method StrictPrefixHashes(h: Hash, turns: Turns) returns (out: seq<string>)
    ensures out == StrictHashes(h, turns)
  {
    out := [];
    if |turns| <= 1 { return; }
    var k := |turns| - 1;
    while k >= 1
      invariant 0 <= k <= |turns| - 1 && |out| == |turns| - 1 - k
      invariant forall i :: 0 <= i < |out| ==> out[i] == h(turns[..|turns| - 1 - i])
    {
      out := out + [h(turns[..k])];
      k := k - 1;
    }
  }

  /** With an injective hash, a turn sequence's hash is in the list exactly when the sequence
      is a strict nonempty prefix. */
  lemma HashListed(h: Hash, turns: Turns, t: Turns)
    requires Injective(h)
    ensures h(t) in StrictHashes(h, turns) <==> t != [] && t < turns
  {
    var out := StrictHashes(h, turns);
    if h(t) in out {
      var i :| 0 <= i < |out| && out[i] == h(t);
      assert t == turns[..|turns| - 1 - i];
    }
    if t != [] && t < turns {
      var i := |turns| - 1 - |t|;
      assert turns[..|t|] == t;
      assert out[i] == h(turns[..|turns| - 1 - i]);
    }
  }

  // ----- Different system prompts, different turn 0 -----

  predicate UsesReservedRole(turn: Json) {
    turn.Obj? && "role" in turn.fields && turn.fields["role"] == Str(VIRTUAL_SYSTEM_ROLE)
  }

  /** Two Messages bodies whose clients keep off the reserved role have the same first turn
      only if they have the same system prompt. */
  lemma SameFirstTurnSameSystem(a: Json, b: Json)
    requires FromAnthropic(a).Some? && FromAnthropic(b).Some?
    requires !UsesReservedRole(FromChat(a).value[0]) && !UsesReservedRole(FromChat(b).value[0])
    requires FromAnthropic(a).value[0] == FromAnthropic(b).value[0]
    ensures System(a) == System(b)
  {
    if System(a).Some? && System(b).Some? {
      assert VirtualSystem(System(a).value).fields["content"] == VirtualSystem(System(b).value).fields["content"];
    }
  }
}
