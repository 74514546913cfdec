/** The text-append plugin (internal/plugin/v2/builtin/textappend): what it adds to a stream
    is what it adds to a buffered response. */
module TextAppend {
  import opened Wrappers
  import opened StreamEvents
  import opened Dispatcher
  import opened DispatcherTheorems

  datatype Target = Content | Reasoning

  /** One instance's AFTER side; `routed` says whether its routes match the request, `drawn`
      whether its probability draw for this response fires. */
  datatype Plugin = Plugin(suffix: string, target: Target, routed: bool, drawn: bool)

  datatype Response = Response(content: string, reasoning: string)

  /** The callback a streaming instance registers. */
  function Appender(suffix: string): (int, string) -> string {
    (block: int, text: string) => text + suffix
  }

  class AfterContext {
    var response: Option<Response>   // None in the streaming branch
    var onLastTextDelta: seq<(int, string) -> string>

    constructor (response: Option<Response>)
      ensures this.response == response && onLastTextDelta == []
    {
      this.response, onLastTextDelta := response, [];
    }
  }

  /** Whether an instance has anything to add to a stream's or response's content. */
  predicate Adds(p: Plugin) {
    p.routed && p.suffix != "" && p.drawn && p.target.Content?
  }

  method OnAfter(p: Plugin, ac: AfterContext)
    modifies ac
    ensures !p.routed || !p.drawn ==> ac.response == old(ac.response) && ac.onLastTextDelta == old(ac.onLastTextDelta)
    ensures old(ac.response).None? ==>
      ac.response == None && ac.onLastTextDelta == old(ac.onLastTextDelta) + if Adds(p) then [Appender(p.suffix)] else []
    ensures old(ac.response).Some? ==>
      ac.onLastTextDelta == old(ac.onLastTextDelta) && ac.response == Some(Buffer(p, old(ac.response).value))
  {
    if !p.routed || p.suffix == "" || !p.drawn { return; }
    match ac.response
    case None =>
      if p.target.Reasoning? { return; }
      ac.onLastTextDelta := ac.onLastTextDelta + [Appender(p.suffix)];
    case Some(r) =>
      match p.target
      case Reasoning => ac.response := Some(r.(reasoning := r.reasoning + p.suffix));
      case Content => ac.response := Some(r.(content := r.content + p.suffix));
  }

  function Buffer(p: Plugin, r: Response): Response {
    if !p.routed || p.suffix == "" || !p.drawn then r
    else if p.target.Reasoning? then r.(reasoning := r.reasoning + p.suffix)
    else r.(content := r.content + p.suffix)
  }

  /** Everything a chain of instances adds to content, in registration order. */
  function Suffixes(ps: seq<Plugin>): string {
    if ps == [] then ""
    else Suffixes(ps[..|ps| - 1]) + if Adds(ps[|ps| - 1]) then ps[|ps| - 1].suffix else ""
  }

  /** Everything the chain adds to a buffered response's reasoning. */
  function ReasoningSuffixes(ps: seq<Plugin>): string {
    if ps == [] then ""
    else
      var p := ps[|ps| - 1];
      ReasoningSuffixes(ps[..|ps| - 1]) + if p.routed && p.drawn && p.target.Reasoning? then p.suffix else ""
  }

  function Appenders(ps: seq<Plugin>): seq<(int, string) -> string> {
    if ps == [] then []
    else Appenders(ps[..|ps| - 1]) + if Adds(ps[|ps| - 1]) then [Appender(ps[|ps| - 1].suffix)] else []
  }

  /** IterateAfter over the chain: callbacks for a stream, suffixes on a buffered response. */
  method IterateAfter(ps: seq<Plugin>, ac: AfterContext)
    requires ac.onLastTextDelta == []
    modifies ac
    ensures old(ac.response).None? ==> ac.response == None && ac.onLastTextDelta == Appenders(ps)
    ensures old(ac.response).Some? ==>
      ac.response.Some? && ac.onLastTextDelta == [] && ac.response.value.content == old(ac.response).value.content + Suffixes(ps)
      && ac.response.value.reasoning == old(ac.response).value.reasoning + ReasoningSuffixes(ps)
  {
    for i := 0 to |ps|
      invariant old(ac.response).None? ==> ac.response == None && ac.onLastTextDelta == Appenders(ps[..i])
      invariant old(ac.response).Some? ==>
        ac.response.Some? && ac.onLastTextDelta == [] && ac.response.value.content == old(ac.response).value.content + Suffixes(ps[..i])
        && ac.response.value.reasoning == old(ac.response).value.reasoning + ReasoningSuffixes(ps[..i])
    {
      assert ps[..i + 1][..i] == ps[..i];
      OnAfter(ps[i], ac);
    }
    assert ps[..|ps|] == ps;
  }

  lemma {:induction false} AppendersAppend(ps: seq<Plugin>, block: int, text: string)
    ensures ApplyLast(Appenders(ps), block, text) == text + Suffixes(ps)
  {
    if ps != [] {
      var init, p := ps[..|ps| - 1], ps[|ps| - 1];
      AppendersAppend(init, block, text);
      if Adds(p) {
        var fns := Appenders(init) + [Appender(p.suffix)];
        assert fns[..|fns| - 1] == Appenders(init);
        assert text + Suffixes(init) + p.suffix == text + (Suffixes(init) + p.suffix);
      } else {
        assert Appenders(init) + [] == Appenders(init) && Suffixes(init) + "" == Suffixes(init);
      }
    }
  }

  // ----- Content text of a stream -----

  /** What a client that classifies the events reads as content. */
  function ContentText(proto: Protocol, evs: seq<Event>): string {
    if evs == [] then ""
    else
      var c := Classify(proto, evs[0]);
      (if c.cls.ContentDelta? then c.text else "") + ContentText(proto, evs[1..])
  }

  lemma {:induction false} ContentTextConcat(proto: Protocol, a: seq<Event>, b: seq<Event>)
    ensures ContentText(proto, a + b) == ContentText(proto, a) + ContentText(proto, b)
  {
    hide Classify;
    if a == [] {
      assert a + b == b;
      assert "" + ContentText(proto, b) == ContentText(proto, b);
    } else {
      assert (a + b)[0] == a[0] && (a + b)[1..] == a[1..] + b;
      ContentTextConcat(proto, a[1..], b);
      var c := Classify(proto, a[0]);
      TextAssoc(if c.cls.ContentDelta? then c.text else "", ContentText(proto, a[1..]), ContentText(proto, b));
    }
  }

  lemma TextAssoc(x: string, y: string, z: string)
    ensures x + (y + z) == x + y + z
    ensures "" + x == x == x + ""
  {
  }

  /** The text of input `i`, with the suffixes if the last-delta chain fires on it. */
  function DeltaText(proto: Protocol, evs: seq<Event>, i: nat, s: string): string
    requires i < |evs|
  {
    var c := Classify(proto, evs[i]);
    if !c.cls.ContentDelta? then "" else if Fires(proto, evs, i) then c.text + s else c.text
  }

  function TextsFrom(proto: Protocol, evs: seq<Event>, i: nat, s: string): string
    requires i <= |evs|
    decreases |evs| - i
  {
    if i == |evs| then "" else DeltaText(proto, evs, i, s) + TextsFrom(proto, evs, i + 1, s)
  }

  function Chain(ps: seq<Plugin>): Callbacks {
    Callbacks([], [], Appenders(ps))
  }

  /** The streams covered: one choice per chat frame, and the chain does not make the code panic. */
  ghost predicate Plain(proto: Protocol, ps: seq<Plugin>, evs: seq<Event>) {
    forall i :: 0 <= i < |evs| ==> SingleChoice(proto, evs[i]) && !FillsNull(proto, Chain(ps), evs, i)
  }

  /** An output event reads as its input, with the suffixes where the chain fired. */
  lemma OutReads(proto: Protocol, ps: seq<Plugin>, evs: seq<Event>, i: nat)
    requires Plain(proto, ps, evs) && i < |evs|
    ensures ContentText(proto, [Out(proto, Chain(ps), evs, i)]) == DeltaText(proto, evs, i, Suffixes(ps))
  {
    var c := Classify(proto, evs[i]);
    var out := Out(proto, Chain(ps), evs, i);
    assert [out][1..] == [] && ContentText(proto, []) == "";
    if c.cls.ContentDelta? {
      assert Buffered(proto, Chain(ps), c) == c;
      AppendersAppend(ps, c.block, c.text);
      if NullDelta(proto, evs[i]) { NullHasNoText(proto, evs[i]); }
      if Suffixes(ps) == "" { assert c.text + "" == c.text; }
      if Fires(proto, evs, i) && c.text + Suffixes(ps) != c.text {
        if proto.Chat? { ChatDeltaHasText(evs[i]); }
        RewriteReclassifies(proto, evs[i], c.text + Suffixes(ps));
      }
    } else {
      assert out == evs[i];
    }
  }

  lemma ChatDeltaHasText(ev: Event)
    requires Classify(Chat, ev).cls.ContentDelta?
    ensures Classify(Chat, ev).text != ""
  {
    var choices := ReadChoices(Json.SliceField(Json.Payload(ev.data).value, "choices").value).value;
    FirstSpeaks(ev, choices);
  }

  lemma {:induction false} FirstSpeaks(ev: Event, choices: seq<Choice>)
    ensures FirstSpeaking(ev, choices).cls.ContentDelta? ==> FirstSpeaking(ev, choices).text != ""
  {
    if choices != [] { FirstSpeaks(ev, choices[1..]); }
  }

  lemma {:induction false} RunReads(proto: Protocol, ps: seq<Plugin>, evs: seq<Event>, i: nat, held: Option<nat>)
    requires Plain(proto, ps, evs) && Pending(proto, evs, i, held)
    ensures ContentText(proto, RunFrom(proto, Chain(ps), evs, i, HeldEvent(proto, Chain(ps), evs, held)))
         == HeldText(proto, evs, held, Suffixes(ps)) + TextsFrom(proto, evs, i, Suffixes(ps))
    decreases |evs| - i
  {
    hide Step, Out, Fires, NextTrigger, Classify, ContentText, DeltaText, Outputs, Leaves, Plain;
    var S := Suffixes(ps);
    if i == |evs| {
      OutputsOfHeld(proto, Chain(ps), evs, held);
      LeavesRead(proto, ps, evs, HeldList(held));
      TextAssoc(HeldText(proto, evs, held, S), "", "");
    } else {
      var cls := ClassOf(proto, evs, i);
      var next := Waits(cls, i, held);
      StepOutputs(proto, Chain(ps), evs, i, held);
      RunReads(proto, ps, evs, i + 1, next);
      LeavesInRange(proto, evs, i, held);
      LeavesRead(proto, ps, evs, Leaves(cls, i, held));
      ContentTextConcat(proto, Outputs(proto, Chain(ps), evs, Leaves(cls, i, held)),
                        RunFrom(proto, Chain(ps), evs, i + 1, HeldEvent(proto, Chain(ps), evs, next)));
      TextStep(proto, evs, i, held, S);
    }
  }

  function HeldText(proto: Protocol, evs: seq<Event>, held: Option<nat>, s: string): string
    requires held.Some? ==> held.value < |evs|
  {
    if held.Some? then DeltaText(proto, evs, held.value, s) else ""
  }

  /** Text is neither lost nor reordered at a step: what leaves and what waits add up. */
  lemma TextStep(proto: Protocol, evs: seq<Event>, i: nat, held: Option<nat>, s: string)
    requires i < |evs| && (held.Some? ==> held.value < i)
    ensures var cls := ClassOf(proto, evs, i);
            (forall k :: 0 <= k < |Leaves(cls, i, held)| ==> Leaves(cls, i, held)[k] < |evs|)
            && TextOf(proto, evs, Leaves(cls, i, held), s)
               + (HeldText(proto, evs, Waits(cls, i, held), s) + TextsFrom(proto, evs, i + 1, s))
               == HeldText(proto, evs, held, s) + TextsFrom(proto, evs, i, s)
  {
    hide DeltaText, Classify;
    var cls := ClassOf(proto, evs, i);
    LeavesText(proto, evs, cls, i, held, s);
    OnlyDeltasHaveText(proto, evs, i, s);
    var h, d, t := HeldText(proto, evs, held, s), DeltaText(proto, evs, i, s), TextsFrom(proto, evs, i + 1, s);
    TextAssoc(h, d, t);
    TextAssoc(t, "", "");
    TextAssoc(d + t, "", "");
    TextAssoc(h + t, "", "");
  }

  /** The texts of some inputs, one after the other. */
  function TextOf(proto: Protocol, evs: seq<Event>, order: seq<nat>, s: string): string
    requires forall k :: 0 <= k < |order| ==> order[k] < |evs|
  {
    if order == [] then "" else DeltaText(proto, evs, order[0], s) + TextOf(proto, evs, order[1..], s)
  }

  lemma {:induction false} LeavesRead(proto: Protocol, ps: seq<Plugin>, evs: seq<Event>, order: seq<nat>)
    requires Plain(proto, ps, evs) && forall k :: 0 <= k < |order| ==> order[k] < |evs|
    ensures ContentText(proto, Outputs(proto, Chain(ps), evs, order)) == TextOf(proto, evs, order, Suffixes(ps))
  {
    hide Out, ContentText, DeltaText, Classify, Plain;
    if order == [] {
      OutputsNone(proto, Chain(ps), evs);
      NoText(proto);
    } else {
      assert order == [order[0]] + order[1..];
      OutputsConcat(proto, Chain(ps), evs, [order[0]], order[1..]);
      OutputsOne(proto, Chain(ps), evs, order[0]);
      OutReads(proto, ps, evs, order[0]);
      LeavesRead(proto, ps, evs, order[1..]);
      ContentTextConcat(proto, [Out(proto, Chain(ps), evs, order[0])], Outputs(proto, Chain(ps), evs, order[1..]));
    }
  }

  lemma NoText(proto: Protocol)
    ensures ContentText(proto, []) == ""
  {
  }

  lemma OutputsOfHeld(proto: Protocol, cb: Callbacks, evs: seq<Event>, held: Option<nat>)
    requires Pending(proto, evs, |evs|, held)
    ensures RunFrom(proto, cb, evs, |evs|, HeldEvent(proto, cb, evs, held)) == Outputs(proto, cb, evs, HeldList(held))
    ensures forall s :: TextOf(proto, evs, HeldList(held), s) == if held.Some? then DeltaText(proto, evs, held.value, s) else ""
  {
    OutputsNone(proto, cb, evs);
    if held.Some? {
      ReleaseIsOut(proto, cb, evs, |evs|, held);
      OutputsOne(proto, cb, evs, held.value);
      forall s { TextAssoc(DeltaText(proto, evs, held.value, s), "", ""); }
    }
  }

  lemma OnlyDeltasHaveText(proto: Protocol, evs: seq<Event>, i: nat, s: string)
    requires i < |evs|
    ensures !ClassOf(proto, evs, i).ContentDelta? ==> DeltaText(proto, evs, i, s) == ""
  {
  }

  /** What leaves at input `i` reads as the held text if `i` is a trigger, and as nothing otherwise. */
  lemma LeavesText(proto: Protocol, evs: seq<Event>, cls: Class, i: nat, held: Option<nat>, s: string)
    requires i < |evs| && cls == ClassOf(proto, evs, i) && (held.Some? ==> held.value < i)
    ensures forall k :: 0 <= k < |Leaves(cls, i, held)| ==> Leaves(cls, i, held)[k] < |evs|
    ensures TextOf(proto, evs, Leaves(cls, i, held), s)
         == if held.Some? && Triggers(cls) then DeltaText(proto, evs, held.value, s) else ""
  {
    hide DeltaText, Classify;
    OnlyDeltasHaveText(proto, evs, i, s);
    TextOfOne(proto, evs, i, s);
    if held.Some? {
      TextOfOne(proto, evs, held.value, s);
      TextAssoc(DeltaText(proto, evs, held.value, s), "", "");
    } else {
      assert HeldList(held) + [i] == [i];
    }
    TextOfTwo(proto, evs, HeldList(held), i, s);
  }

  lemma TextOfOne(proto: Protocol, evs: seq<Event>, i: nat, s: string)
    requires i < |evs|
    ensures TextOf(proto, evs, [i], s) == DeltaText(proto, evs, i, s)
  {
    assert [i][1..] == [];
    TextAssoc(DeltaText(proto, evs, i, s), "", "");
  }

  lemma TextOfTwo(proto: Protocol, evs: seq<Event>, h: seq<nat>, i: nat, s: string)
    requires i < |evs| && |h| <= 1 && (forall k :: 0 <= k < |h| ==> h[k] < |evs|)
    ensures forall k :: 0 <= k < |h + [i]| ==> (h + [i])[k] < |evs|
    ensures TextOf(proto, evs, h + [i], s) == TextOf(proto, evs, h, s) + DeltaText(proto, evs, i, s)
  {
    TextOfOne(proto, evs, i, s);
    if h == [] {
      assert h + [i] == [i];
    } else {
      assert (h + [i])[1..] == [i] && h == [h[0]];
      TextOfOne(proto, evs, h[0], s);
    }
    TextAssoc(DeltaText(proto, evs, i, s), "", "");
  }

  // ----- Agreement -----

  lemma {:induction false} TextsAreContent(proto: Protocol, evs: seq<Event>, i: nat)
    requires i <= |evs|
    ensures TextsFrom(proto, evs, i, "") == ContentText(proto, evs[i..])
    decreases |evs| - i
  {
    hide Classify, Fires, NextTrigger;
    if i < |evs| {
      assert evs[i..][0] == evs[i] && evs[i..][1..] == evs[i + 1..];
      TextsAreContent(proto, evs, i + 1);
      TextAssoc(Classify(proto, evs[i]).text, "", "");
    }
  }

  /** Where the chain adds its suffixes, and nowhere else; what comes after has no text. */
  predicate FiresLast(proto: Protocol, evs: seq<Event>, f: nat)
    requires f < |evs|
  {
    && ClassOf(proto, evs, f).ContentDelta? && Fires(proto, evs, f)
    && (forall i :: 0 <= i < |evs| && i != f && ClassOf(proto, evs, i).ContentDelta? ==> !Fires(proto, evs, i))
    && (forall i :: f < i < |evs| && ClassOf(proto, evs, i).ContentDelta? ==> Classify(proto, evs[i]).text == "")
  }

  /** One text block: between two deltas comes no stop and no terminal, and what follows the
      last delta is a stop of its own block, a terminal, or the end of the stream. */
  ghost predicate OneTextBlock(proto: Protocol, evs: seq<Event>, last: nat) {
    && last < |evs| && ClassOf(proto, evs, last).ContentDelta? && Fires(proto, evs, last)
    && (forall i :: last < i < |evs| ==> !ClassOf(proto, evs, i).ContentDelta?)
    && (forall i :: 0 <= i < last && ClassOf(proto, evs, i).ContentDelta? ==>
          var n := NextTrigger(proto, evs, i + 1); n < |evs| && ClassOf(proto, evs, n).ContentDelta?)
  }

  lemma OneBlockFiresLast(proto: Protocol, evs: seq<Event>, last: nat)
    requires OneTextBlock(proto, evs, last)
    ensures last < |evs| && FiresLast(proto, evs, last)
  {
  }

  lemma DeltaTextWithout(proto: Protocol, evs: seq<Event>, i: nat, s: string)
    requires i < |evs|
    ensures DeltaText(proto, evs, i, s) ==
      DeltaText(proto, evs, i, "") + if ClassOf(proto, evs, i).ContentDelta? && Fires(proto, evs, i) then s else ""
  {
    TextAssoc(Classify(proto, evs[i]).text, "", "");
  }

  lemma OnlyFiring(proto: Protocol, evs: seq<Event>, f: nat, i: nat)
    requires f < |evs| && FiresLast(proto, evs, f) && i < |evs|
    ensures ClassOf(proto, evs, i).ContentDelta? && Fires(proto, evs, i) <==> i == f
    ensures i > f ==> DeltaText(proto, evs, i, "") == ""
  {
  }

  lemma {:induction false} LastFiringTexts(proto: Protocol, evs: seq<Event>, f: nat, i: nat, s: string)
    requires f < |evs| && FiresLast(proto, evs, f) && i <= |evs|
    ensures TextsFrom(proto, evs, i, s) == TextsFrom(proto, evs, i, "") + if i <= f then s else ""
    ensures i > f ==> TextsFrom(proto, evs, i, "") == ""
    decreases |evs| - i
  {
    hide DeltaText, Classify, Fires, NextTrigger, FiresLast;
    if i < |evs| {
      LastFiringTexts(proto, evs, f, i + 1, s);
      OnlyFiring(proto, evs, f, i);
      DeltaTextWithout(proto, evs, i, s);
      var d, t := DeltaText(proto, evs, i, ""), TextsFrom(proto, evs, i + 1, "");
      TextAssoc(d, "", "");
      TextAssoc(d + s, "", "");
      TextAssoc(d, t, if i + 1 <= f then s else "");
      TextAssoc(d + t, "", "");
    }
  }

  lemma TextsWithSuffix(proto: Protocol, evs: seq<Event>, f: nat, s: string)
    requires f < |evs| && FiresLast(proto, evs, f)
    ensures TextsFrom(proto, evs, 0, s) == ContentText(proto, evs) + s
  {
    hide FiresLast;
    LastFiringTexts(proto, evs, f, 0, s);
    TextsAreContent(proto, evs, 0);
    assert evs[0..] == evs;
  }

  /** For a stream with one text block, what the client reads from the dispatcher's output is
      the stream's own content followed by the suffixes the buffered branch would append. */
  lemma StreamAgreesWithBuffer(proto: Protocol, ps: seq<Plugin>, evs: seq<Event>, last: nat)
    requires Plain(proto, ps, evs) && OneTextBlock(proto, evs, last)
    ensures ContentText(proto, RunFrom(proto, Chain(ps), evs, 0, None)) == ContentText(proto, evs) + Suffixes(ps)
  {
    hide OneTextBlock, FiresLast;
    RunReads(proto, ps, evs, 0, None);
    OneBlockFiresLast(proto, evs, last);
    TextsWithSuffix(proto, evs, last, Suffixes(ps));
    TextAssoc(TextsFrom(proto, evs, 0, Suffixes(ps)), "", "");
  }

  /** How many deltas the last-delta chain fires on, from input `i` on. */
  function Firings(proto: Protocol, evs: seq<Event>, i: nat): nat
    requires i <= |evs|
    decreases |evs| - i
  {
    if i == |evs| then 0
    else (if ClassOf(proto, evs, i).ContentDelta? && Fires(proto, evs, i) then 1 else 0) + Firings(proto, evs, i + 1)
  }

  lemma {:induction false} TextsLength(proto: Protocol, evs: seq<Event>, i: nat, s: string)
    requires i <= |evs|
    ensures |TextsFrom(proto, evs, i, s)| == |TextsFrom(proto, evs, i, "")| + Firings(proto, evs, i) * |s|
    decreases |evs| - i
  {
    hide Classify, Fires, NextTrigger, DeltaText;
    if i < |evs| {
      TextsLength(proto, evs, i + 1, s);
      DeltaTextWithout(proto, evs, i, s);
      OneMore(Firings(proto, evs, i + 1), |s|);
    }
  }

  lemma OneMore(n: nat, len: nat)
    ensures (n + 1) * len == n * len + len
  {
  }

  /** On any stream the suffixes are added once for each delta the chain fires on. So stream
      and buffer can agree only if it fires exactly once: not at all, say when another
      block's stop comes first, loses them, and twice repeats them. */
  lemma SuffixesPerFiring(proto: Protocol, ps: seq<Plugin>, evs: seq<Event>)
    requires Plain(proto, ps, evs)
    ensures var out := ContentText(proto, RunFrom(proto, Chain(ps), evs, 0, None));
      && |out| == |ContentText(proto, evs)| + Firings(proto, evs, 0) * |Suffixes(ps)|
      && (Suffixes(ps) != "" && out == ContentText(proto, evs) + Suffixes(ps) ==> Firings(proto, evs, 0) == 1)
  {
    RunReads(proto, ps, evs, 0, None);
    TextsLength(proto, evs, 0, Suffixes(ps));
    TextsAreContent(proto, evs, 0);
    assert evs[0..] == evs;
    TextAssoc(TextsFrom(proto, evs, 0, Suffixes(ps)), "", "");
    OnceOnly(Firings(proto, evs, 0), |Suffixes(ps)|);
  }

  lemma OnceOnly(n: nat, len: nat)
    ensures len > 0 && n * len == len ==> n == 1
  {
    if n > 1 && len > 0 { assert n * len == len + (n - 1) * len; }
  }

  // ----- Exactly when the branches agree -----

  /** The stream goes through without a panic and reads as the buffered branch's content. */
  ghost predicate Agrees(proto: Protocol, ps: seq<Plugin>, evs: seq<Event>) {
    && !RunPanics(proto, Chain(ps), evs, 0, None)
    && ContentText(proto, RunFrom(proto, Chain(ps), evs, 0, None)) == ContentText(proto, evs) + Suffixes(ps)
  }

  lemma PlainIff(proto: Protocol, ps: seq<Plugin>, evs: seq<Event>)
    requires forall i :: 0 <= i < |evs| ==> SingleChoice(proto, evs[i])
    ensures Plain(proto, ps, evs) <==> !RunPanics(proto, Chain(ps), evs, 0, None)
  {
    hide RunPanics, FillsNull, SingleChoice;
    PanicsIff(proto, Chain(ps), evs);
  }

  /** A chain that only appends fills a null delta where it fires, and with anything at all. */
  lemma FillsNullIff(proto: Protocol, ps: seq<Plugin>, evs: seq<Event>, i: nat)
    requires i < |evs|
    ensures FillsNull(proto, Chain(ps), evs, i) <==>
            NullDelta(proto, evs[i]) && ClassOf(proto, evs, i).ContentDelta? && Fires(proto, evs, i) && Suffixes(ps) != ""
  {
    hide Fires, Classify;
    AppendersAppend(ps, Classify(proto, evs[i]).block, "");
    TextAssoc(Suffixes(ps), "", "");
  }

  lemma FiresLastAgrees(proto: Protocol, ps: seq<Plugin>, evs: seq<Event>, f: nat)
    requires forall i :: 0 <= i < |evs| ==> SingleChoice(proto, evs[i])
    requires f < |evs| && FiresLast(proto, evs, f) && !NullDelta(proto, evs[f])
    ensures Agrees(proto, ps, evs)
  {
    hide RunPanics, FillsNull, SingleChoice, FiresLast, Fires, NextTrigger, Classify;
    forall i | 0 <= i < |evs|
      ensures !FillsNull(proto, Chain(ps), evs, i)
    {
      FillsNullIff(proto, ps, evs, i);
      OnlyFiring(proto, evs, f, i);
    }
    PlainIff(proto, ps, evs);
    RunReads(proto, ps, evs, 0, None);
    TextsWithSuffix(proto, evs, f, Suffixes(ps));
    TextAssoc(TextsFrom(proto, evs, 0, Suffixes(ps)), "", "");
  }

  function One(suffix: string): seq<Plugin> {
    [Plugin(suffix, Content, true, true)]
  }

  lemma OneAdds(suffix: string)
    ensures Suffixes(One(suffix)) == suffix
  {
    assert One(suffix)[..0] == [] && Suffixes([]) == "";
    TextAssoc(suffix, "", "");
  }

  lemma {:induction false} NoFirings(proto: Protocol, evs: seq<Event>, i: nat)
    requires i <= |evs| && Firings(proto, evs, i) == 0
    ensures forall k :: i <= k < |evs| && ClassOf(proto, evs, k).ContentDelta? ==> !Fires(proto, evs, k)
    decreases |evs| - i
  {
    hide Classify, Fires, NextTrigger;
    if i < |evs| { NoFirings(proto, evs, i + 1); }
  }

  lemma {:induction false} FindFiring(proto: Protocol, evs: seq<Event>, i: nat) returns (f: nat)
    requires i <= |evs| && Firings(proto, evs, i) == 1
    ensures i <= f < |evs| && ClassOf(proto, evs, f).ContentDelta? && Fires(proto, evs, f)
    ensures forall k :: i <= k < |evs| && k != f && ClassOf(proto, evs, k).ContentDelta? ==> !Fires(proto, evs, k)
    decreases |evs| - i
  {
    hide Classify, Fires, NextTrigger;
    if ClassOf(proto, evs, i).ContentDelta? && Fires(proto, evs, i) {
      f := i;
      NoFirings(proto, evs, i + 1);
    } else {
      f := FindFiring(proto, evs, i + 1);
    }
  }

  /** The plain texts of the inputs from `i` up to `n`. */
  function TextsTo(proto: Protocol, evs: seq<Event>, i: nat, n: nat): string
    requires i <= n <= |evs|
    decreases n - i
  {
    if i == n then "" else DeltaText(proto, evs, i, "") + TextsTo(proto, evs, i + 1, n)
  }

  lemma {:induction false} SplitAtFiring(proto: Protocol, evs: seq<Event>, i: nat, f: nat, s: string)
    requires i <= f < |evs| && ClassOf(proto, evs, f).ContentDelta? && Fires(proto, evs, f)
    requires forall k :: i <= k < |evs| && k != f && ClassOf(proto, evs, k).ContentDelta? ==> !Fires(proto, evs, k)
    ensures TextsFrom(proto, evs, i, s) == TextsTo(proto, evs, i, f + 1) + s + TextsFrom(proto, evs, f + 1, "")
    decreases f - i
  {
    hide Classify, Fires, NextTrigger, DeltaText;
    DeltaTextWithout(proto, evs, i, s);
    var d, b := DeltaText(proto, evs, i, ""), TextsFrom(proto, evs, f + 1, "");
    TextAssoc(d, "", "");
    if i == f {
      SameTexts(proto, evs, f + 1, s);
      assert TextsTo(proto, evs, f + 1, f + 1) == "";
    } else {
      SplitAtFiring(proto, evs, i + 1, f, s);
      var a := TextsTo(proto, evs, i + 1, f + 1);
      TextAssoc(d, a, s);
      TextAssoc(d, a + s, b);
    }
  }

  lemma {:induction false} SameTexts(proto: Protocol, evs: seq<Event>, i: nat, s: string)
    requires i <= |evs|
    requires forall k :: i <= k < |evs| && ClassOf(proto, evs, k).ContentDelta? ==> !Fires(proto, evs, k)
    ensures TextsFrom(proto, evs, i, s) == TextsFrom(proto, evs, i, "")
    decreases |evs| - i
  {
    hide Classify, Fires, NextTrigger, DeltaText;
    if i < |evs| {
      DeltaTextWithout(proto, evs, i, s);
      TextAssoc(DeltaText(proto, evs, i, ""), "", "");
      SameTexts(proto, evs, i + 1, s);
    }
  }

  lemma {:induction false} NoTextsLeft(proto: Protocol, evs: seq<Event>, i: nat)
    requires i <= |evs| && TextsFrom(proto, evs, i, "") == ""
    ensures forall k :: i <= k < |evs| && ClassOf(proto, evs, k).ContentDelta? ==> Classify(proto, evs[k]).text == ""
    decreases |evs| - i
  {
    hide Classify, Fires, NextTrigger;
    if i < |evs| {
      TextAssoc(Classify(proto, evs[i]).text, "", "");
      assert |DeltaText(proto, evs, i, "")| + |TextsFrom(proto, evs, i + 1, "")| == 0;
      NoTextsLeft(proto, evs, i + 1);
    }
  }

  /** Moving a letter past a text leaves it as it was only if the text begins with the letter. */
  lemma LetterFirst(a: string, s: string, b: string)
    requires a + s + b == a + b + s && |s| == 1 && b != ""
    ensures b[0] == s[0]
  {
    assert (a + s + b)[|a|] == s[0] && (a + b + s)[|a|] == b[0];
  }

  lemma AgreesOnce(proto: Protocol, evs: seq<Event>, s: string) returns (f: nat)
    requires (forall i :: 0 <= i < |evs| ==> SingleChoice(proto, evs[i])) && |s| == 1 && Agrees(proto, One(s), evs)
    ensures Firings(proto, evs, 0) == 1
    ensures f < |evs| && ClassOf(proto, evs, f).ContentDelta? && Fires(proto, evs, f) && !NullDelta(proto, evs[f])
    ensures forall k :: 0 <= k < |evs| && k != f && ClassOf(proto, evs, k).ContentDelta? ==> !Fires(proto, evs, k)
    ensures TextsFrom(proto, evs, f + 1, "") != "" ==> TextsFrom(proto, evs, f + 1, "")[0] == s[0]
  {
    hide RunPanics, FillsNull, SingleChoice, Fires, NextTrigger, Classify, DeltaText, RunFrom, ContentText;
    PlainIff(proto, One(s), evs);
    OneAdds(s);
    SuffixesPerFiring(proto, One(s), evs);
    f := FindFiring(proto, evs, 0);
    FillsNullIff(proto, One(s), evs, f);
    RunReads(proto, One(s), evs, 0, None);
    TextAssoc(TextsFrom(proto, evs, 0, s), "", "");
    SplitAtFiring(proto, evs, 0, f, s);
    SplitAtFiring(proto, evs, 0, f, "");
    TextsAreContent(proto, evs, 0);
    assert evs[0..] == evs;
    var a, b := TextsTo(proto, evs, 0, f + 1), TextsFrom(proto, evs, f + 1, "");
    TextAssoc(a, "", "");
    if b != "" { LetterFirst(a, s, b); }
  }

  /** Every chain reads alike in both branches exactly when the last-delta chain fires on one
      delta only, on one that can be written, and nothing after it has text. */
  lemma EveryChainAgreesIff(proto: Protocol, evs: seq<Event>)
    requires forall i :: 0 <= i < |evs| ==> SingleChoice(proto, evs[i])
    ensures (forall ps :: Agrees(proto, ps, evs))
       <==> exists f: nat :: f < |evs| && FiresLast(proto, evs, f) && !NullDelta(proto, evs[f])
  {
    hide Agrees, SingleChoice, Fires, NextTrigger, Classify;
    if f: nat :| f < |evs| && FiresLast(proto, evs, f) && !NullDelta(proto, evs[f]) {
      forall ps
        ensures Agrees(proto, ps, evs)
      {
        FiresLastAgrees(proto, ps, evs, f);
      }
    }
    if forall ps :: Agrees(proto, ps, evs) {
      var f := AgreesOnce(proto, evs, "x");
      var g := AgreesOnce(proto, evs, "y");
      assert f == g && "x"[0] != "y"[0];
      NoTextsLeft(proto, evs, f + 1);
      assert FiresLast(proto, evs, f);
    }
  }

  // ----- Streams on which they disagree -----

  function TextDelta(block: int, text: string): Event {
    Event("content_block_delta",
          Some(Json.Obj(map["index" := Json.Num(block),
                            "delta" := Json.Obj(map["type" := Json.Str("text_delta"), "text" := Json.Str(text)])])),
          None, 0)
  }

  function BlockStop(block: int): Event {
    Event("content_block_stop", Some(Json.Obj(map["index" := Json.Num(block)])), None, 0)
  }

  lemma TextDeltaIs(block: int, text: string)
    ensures Classify(Messages, TextDelta(block, text)) == Classified(TextDelta(block, text), ContentDelta, text, block)
    ensures Classify(Messages, BlockStop(block)) == Classified(BlockStop(block), ContentBlockStop, "", block)
  {
  }

  /** The stop of block 1 comes before that of block 0: the suffix is lost. */
  const LOSING := [TextDelta(0, "a"), BlockStop(1), BlockStop(0)]

  lemma LosingStream()
    ensures (forall i :: 0 <= i < |LOSING| ==> SingleChoice(Messages, LOSING[i]))
    ensures ContentText(Messages, RunFrom(Messages, Chain(One("x")), LOSING, 0, None)) == ContentText(Messages, LOSING) == "a"
  {
    TextDeltaIs(0, "a");
    TextDeltaIs(1, "");
    hide Classify, FillsNull;
    Reading(LOSING, "x");
    assert NextTrigger(Messages, LOSING, 1) == 1;
    assert !Fires(Messages, LOSING, 0);
    Read3(LOSING, "x");
    Read3(LOSING, "");
  }

  /** Two text blocks, each with its own stop: the suffix comes twice. */
  const REPEATING := [TextDelta(0, "a"), BlockStop(0), TextDelta(1, "b")]

  lemma RepeatingStream()
    ensures (forall i :: 0 <= i < |REPEATING| ==> SingleChoice(Messages, REPEATING[i]))
    ensures ContentText(Messages, RunFrom(Messages, Chain(One("x")), REPEATING, 0, None)) == "axbx"
    ensures ContentText(Messages, REPEATING) == "ab"
  {
    TextDeltaIs(0, "a");
    TextDeltaIs(1, "b");
    hide Classify, FillsNull;
    Reading(REPEATING, "x");
    assert NextTrigger(Messages, REPEATING, 1) == 1 && NextTrigger(Messages, REPEATING, 3) == 3;
    assert Fires(Messages, REPEATING, 0) && Fires(Messages, REPEATING, 2);
    Read3(REPEATING, "x");
    Read3(REPEATING, "");
  }

  lemma Reading(evs: seq<Event>, suffix: string)
    ensures ContentText(Messages, RunFrom(Messages, Chain(One(suffix)), evs, 0, None)) == TextsFrom(Messages, evs, 0, suffix)
    ensures ContentText(Messages, evs) == TextsFrom(Messages, evs, 0, "")
  {
    hide RunFrom, ContentText, TextsFrom, Classify;
    OneAdds(suffix);
    RunReads(Messages, One(suffix), evs, 0, None);
    TextAssoc(TextsFrom(Messages, evs, 0, suffix), "", "");
    TextsAreContent(Messages, evs, 0);
    assert evs[0..] == evs;
  }

  lemma Read3(evs: seq<Event>, s: string)
    requires |evs| == 3
    ensures TextsFrom(Messages, evs, 0, s)
         == DeltaText(Messages, evs, 0, s) + (DeltaText(Messages, evs, 1, s) + DeltaText(Messages, evs, 2, s))
  {
    hide DeltaText;
    assert TextsFrom(Messages, evs, 3, s) == "";
    assert TextsFrom(Messages, evs, 2, s) == DeltaText(Messages, evs, 2, s) + "";
    assert TextsFrom(Messages, evs, 1, s) == DeltaText(Messages, evs, 1, s) + TextsFrom(Messages, evs, 2, s);
    TextAssoc(DeltaText(Messages, evs, 2, s), "", "");
  }

  // ----- Whole streams, event by event -----

  function TextEvent(name: string, text: string): Event {
    Event(name, Some(Json.Obj(map["delta" := Json.Str(text)])), None, 0)
  }

  function ChatFrame(text: string): Event {
    Event("", Some(Json.Obj(map["choices" := Json.Arr([Json.Obj(map["delta" := Json.Obj(map["content" := Json.Str(text)])])])])), None, 0)
  }

  const TEXT_DONE := Event("response.output_text.done", None, None, 0)
  const COMPLETED := Event("response.completed", None, None, 0)

  lemma ResponsesEvents(text: string)
    ensures var ev := TextEvent("response.output_text.delta", text);
            Classify(Responses, ev) == Classified(ev, ContentDelta, text, 0)
    ensures var ev := TextEvent("response.reasoning_summary_text.delta", text);
            Classify(Responses, ev) == Classified(ev, ReasoningDelta, text, 0)
    ensures Classify(Responses, TEXT_DONE) == Classified(TEXT_DONE, ContentBlockStop, "", 0)
    ensures Classify(Responses, COMPLETED) == Classified(COMPLETED, Terminal, "", 0)
  {
  }

  lemma OneApplies(suffix: string, block: int, text: string)
    ensures ApplyLast(Appenders(One(suffix)), block, text) == text + suffix
    ensures ApplyAll([], text) == text
  {
    AppendersAppend(One(suffix), block, text);
    OneAdds(suffix);
  }

  lemma ReplacesText(text: string, more: string)
    ensures var ev := TextEvent("response.output_text.delta", text);
            Replace(Responses, Classified(ev, ContentDelta, text, 0), more) == TextEvent("response.output_text.delta", more)
  {
    assert map["delta" := Json.Str(text)]["delta" := Json.Str(more)] == map["delta" := Json.Str(more)];
  }

  lemma OneStep(proto: Protocol, cb: Callbacks, evs: seq<Event>, i: nat, held: Option<Classified>)
    requires i < |evs|
    ensures var (next, out) := Step(proto, cb, held, evs[i]);
            RunFrom(proto, cb, evs, i, held) == out + RunFrom(proto, cb, evs, i + 1, next)
  {
    hide Step;
  }

  /** A Responses stream: the suffix goes on the answer's last delta, which the reasoning after
      it overtakes; reasoning, stop and end go out as they came. */
  lemma ResponsesStream(answer: string, thought: string, suffix: string)
    ensures var delta, reasoning := "response.output_text.delta", "response.reasoning_summary_text.delta";
            RunFrom(Responses, Chain(One(suffix)),
                    [TextEvent(delta, answer), TextEvent(reasoning, thought), TEXT_DONE, COMPLETED], 0, None)
            == [TextEvent(reasoning, thought), TextEvent(delta, answer + suffix), TEXT_DONE, COMPLETED]
  {
    ResponsesEvents(answer);
    ResponsesEvents(thought);
    OneApplies(suffix, 0, answer);
    OneApplies(suffix, 0, thought);
    ReplacesText(answer, answer + suffix);
    hide Classify, RewriteDeltaText;
    var cb := Chain(One(suffix));
    var first, second := TextEvent("response.output_text.delta", answer), TextEvent("response.reasoning_summary_text.delta", thought);
    var evs := [first, second, TEXT_DONE, COMPLETED];
    var held := Some(Classified(first, ContentDelta, answer, 0));
    assert Step(Responses, cb, None, first) == (held, []);
    assert Step(Responses, cb, held, second) == (held, [second]);
    var last := TextEvent("response.output_text.delta", answer + suffix);
    assert Released(Responses, cb, held, Classify(Responses, TEXT_DONE)) == [last];
    assert [last] + [TEXT_DONE] == [last, TEXT_DONE] && [] + [COMPLETED] == [COMPLETED];
    assert Step(Responses, cb, held, TEXT_DONE) == (None, [last, TEXT_DONE]);
    assert Step(Responses, cb, None, COMPLETED) == (None, [COMPLETED]);
    OneStep(Responses, cb, evs, 0, None);
    OneStep(Responses, cb, evs, 1, held);
    OneStep(Responses, cb, evs, 2, held);
    OneStep(Responses, cb, evs, 3, None);
    assert RunFrom(Responses, cb, evs, 4, None) == [];
  }

  lemma ChatEvents(text: string, more: string)
    requires text != "" && more != ""
    ensures Classify(Chat, ChatFrame(text)) == Classified(ChatFrame(text), ContentDelta, text, 0)
    ensures Replace(Chat, Classified(ChatFrame(text), ContentDelta, text, 0), more) == ChatFrame(more)
  {
    var c := Json.Obj(map["delta" := Json.Obj(map["content" := Json.Str(text)])]);
    assert [c][1..] == [];
    assert ReadChoices([]) == Some([]);
    assert ReadChoice(c) == Some(Delta(text, 0));
    assert ReadChoices([c]) == Some([Delta(text, 0)] + []);
    assert [Delta(text, 0)] + [] == [Delta(text, 0)];
    assert c.fields["delta" := Json.Obj(map["content" := Json.Str(more)])] == map["delta" := Json.Obj(map["content" := Json.Str(more)])];
    assert map["content" := Json.Str(text)]["content" := Json.Str(more)] == map["content" := Json.Str(more)];
    var put := Json.Obj(map["delta" := Json.Obj(map["content" := Json.Str(more)])]);
    assert PutContent([c], more) == [put] + [] == [put];
    assert map["choices" := Json.Arr([c])]["choices" := Json.Arr([put])] == map["choices" := Json.Arr([put])];
    assert RewriteChat(ChatFrame(text), more) == Done(ChatFrame(more));
  }

  /** A Chat stream has no stops: its end puts the suffix on the last frame. */
  lemma ChatStream(a: string, b: string, suffix: string)
    requires a != "" && b != ""
    ensures RunFrom(Chat, Chain(One(suffix)), [ChatFrame(a), ChatFrame(b)], 0, None) == [ChatFrame(a), ChatFrame(b + suffix)]
  {
    ChatEvents(a, a);
    ChatEvents(b, b + suffix);
    OneApplies(suffix, 0, a);
    OneApplies(suffix, 0, b);
    hide Classify, RewriteDeltaText;
    var cb, evs := Chain(One(suffix)), [ChatFrame(a), ChatFrame(b)];
    var first, second := Classified(ChatFrame(a), ContentDelta, a, 0), Classified(ChatFrame(b), ContentDelta, b, 0);
    assert Step(Chat, cb, None, evs[0]) == (Some(first), []);
    assert Step(Chat, cb, Some(first), evs[1]) == (Some(second), [ChatFrame(a)]);
    assert RunFrom(Chat, cb, evs, 2, Some(second)) == [ChatFrame(b + suffix)];
    assert RunFrom(Chat, cb, evs, 1, Some(first)) == [ChatFrame(a)] + [ChatFrame(b + suffix)];
  }
}
