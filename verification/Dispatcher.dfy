/** The stream dispatcher (internal/plugin/v2/stream.go): one event of lookahead per content
    block, with text callbacks, against a specification of the whole stream. */
module Dispatcher {
  import opened Wrappers
  import opened StreamEvents

  /** The callbacks the plugins registered, in order (AfterContext). */
  datatype Callbacks = Callbacks(
    content: seq<string -> string>, reasoning: seq<string -> string>, last: seq<(int, string) -> string>)

  function ApplyAll(fns: seq<string -> string>, text: string): string {
    if fns == [] then text else fns[|fns| - 1](ApplyAll(fns[..|fns| - 1], text))
  }

  function ApplyLast(fns: seq<(int, string) -> string>, block: int, text: string): string {
    if fns == [] then text else fns[|fns| - 1](block, ApplyLast(fns[..|fns| - 1], block, text))
  }

  /** An event with its text replaced, or as it was when the text is the same or cannot be written. */
  function Replace(proto: Protocol, c: Classified, text: string): Event {
    if text == c.text then c.ev
    else match RewriteDeltaText(proto, c, text)
         case Done(ev) => ev
         case _ => c.ev
  }

  /** A content delta after the OnContentDelta chain: what the dispatcher buffers. */
  function Buffered(proto: Protocol, cb: Callbacks, c: Classified): Classified {
    var text := ApplyAll(cb.content, c.text);
    c.(ev := Replace(proto, c, text), text := text)
  }

  /** A buffered delta after the OnLastTextDelta chain. */
  function WithLast(proto: Protocol, cb: Callbacks, held: Classified): Event {
    Replace(proto, held.(cls := ContentDelta), ApplyLast(cb.last, held.block, held.text))
  }

  function Passed(proto: Protocol, cb: Callbacks, c: Classified): Event {
    if c.cls.ReasoningDelta? then Replace(proto, c, ApplyAll(cb.reasoning, c.text)) else c.ev
  }

  // ----- Where the code panics -----

  /** The text changed, and the rewriter cannot take the change without crashing. */
  predicate RewritePanics(proto: Protocol, c: Classified, text: string) {
    text != c.text && RewriteDeltaText(proto, c, text).Panics?
  }

  predicate LastPanics(proto: Protocol, cb: Callbacks, held: Classified) {
    RewritePanics(proto, held.(cls := ContentDelta), ApplyLast(cb.last, held.block, held.text))
  }

  /** Processing `ev` with `held` pending panics. */
  predicate StepPanics(proto: Protocol, cb: Callbacks, held: Option<Classified>, ev: Event) {
    var c := Classify(proto, ev);
    match c.cls
    case ContentDelta => RewritePanics(proto, c, ApplyAll(cb.content, c.text))
    case ReasoningDelta => RewritePanics(proto, c, ApplyAll(cb.reasoning, c.text))
    case ContentBlockStop => held.Some? && held.value.block == c.block && LastPanics(proto, cb, held.value)
    case Terminal => held.Some? && LastPanics(proto, cb, held.value)
    case _ => false
  }

  // ----- One event -----

  /** A buffered delta leaves with the last-delta chain applied when `c` ends its block or the stream. */
  function Released(proto: Protocol, cb: Callbacks, held: Option<Classified>, c: Classified): seq<Event> {
    match held
    case None => []
    case Some(h) =>
      if c.cls.Terminal? || (c.cls.ContentBlockStop? && c.block == h.block) then [WithLast(proto, cb, h)] else [h.ev]
  }

  function Step(proto: Protocol, cb: Callbacks, held: Option<Classified>, ev: Event): (Option<Classified>, seq<Event>) {
    var c := Classify(proto, ev);
    match c.cls
    case ContentDelta => (Some(Buffered(proto, cb, c)), Released(proto, cb, held, c))
    case ContentBlockStop => (None, Released(proto, cb, held, c) + [ev])
    case Terminal => (None, Released(proto, cb, held, c) + [ev])
    case _ => (held, [Passed(proto, cb, c)])
  }

  class StreamDispatcher {
    const proto: Protocol
    const cb: Callbacks
    var pending: map<int, Classified>

    constructor (proto: Protocol, cb: Callbacks)
      ensures this.proto == proto && this.cb == cb && Valid() && Held() == None
    {
      this.proto, this.cb, this.pending := proto, cb, map[];
    }

    /** However many blocks the stream has, at most one delta is ever pending. */
    ghost predicate Valid()
      reads this
    {
      && (forall i, j :: i in pending && j in pending ==> i == j)
      && (forall i :: i in pending ==> pending[i].block == i)
    }

    ghost function Held(): Option<Classified>
      reads this
    {
      if i :| i in pending then Some(pending[i]) else None
    }

    method Process(ev: Event) returns (out: seq<Event>)
      requires Valid() && !StepPanics(proto, cb, Held(), ev)
      modifies this
      ensures Valid() && (Held(), out) == Step(proto, cb, old(Held()), ev)
    {
      var c := Classify(proto, ev);
      match c.cls {
        case ContentDelta => out := HandleContentDelta(c);
        case ReasoningDelta =>
          var text := ApplyEach(cb.reasoning, c.text);
          var replaced := ReplaceText(c, text);
          out := [replaced];
        case ToolUseDelta => out := [ev];
        case ContentBlockStop => out := HandleContentBlockStop(c);
        case Terminal =>
          out := FlushAll();
          out := out + [ev];
        case Other => out := [ev];
      }
    }

    /** An unchanged text leaves the event alone; so does a rewrite that hands back an error. */
    method ReplaceText(c: Classified, text: string) returns (ev: Event)
      requires !RewritePanics(proto, c, text)
      ensures ev == Replace(proto, c, text)
    {
      if text == c.text { return c.ev; }
      match RewriteDeltaText(proto, c, text)
      case Done(out) => ev := out;
      case Fails => ev := c.ev;
    }

    method ApplyEach(fns: seq<string -> string>, start: string) returns (text: string)
      ensures text == ApplyAll(fns, start)
    {
      text := start;
      for i := 0 to |fns|
        invariant text == ApplyAll(fns[..i], start)
      {
        assert fns[..i + 1][..i] == fns[..i];
        text := fns[i](text);
      }
      assert fns[..|fns|] == fns;
    }

    /** Flushes the pending deltas of blocks other than `block`, in whatever order the map has them. */
    method FlushOthers(block: int) returns (out: seq<Event>)
      requires Valid()
      modifies this
      ensures Valid() && (forall i :: i in pending ==> i == block)
      ensures old(Held()).Some? && old(Held()).value.block != block ==> out == [old(Held()).value.ev] && pending == map[]
      ensures old(Held()).None? || old(Held()).value.block == block ==> out == [] && pending == old(pending)
    {
      out := [];
      var others := set i | i in pending && i != block;
      ghost var held := Held();
      if held.Some? && held.value.block != block { assert held.value.block in others; }
      while others != {}
        invariant Valid() && others == set i | i in pending && i != block
        invariant old(Held()).None? || old(Held()).value.block == block ==> out == [] && pending == old(pending)
        invariant old(Held()).Some? && old(Held()).value.block != block && others == {} ==>
                    out == [old(Held()).value.ev] && pending == map[]
        invariant others != {} ==> out == [] && pending == old(pending)
        decreases others
      {
        var i :| i in others;
        out := out + [pending[i].ev];
        pending := pending - {i};
        others := others - {i};
      }
    }

    method HandleContentDelta(c: Classified) returns (out: seq<Event>)
      requires Valid() && c.cls.ContentDelta? && !RewritePanics(proto, c, ApplyAll(cb.content, c.text))
      modifies this
      ensures Valid() && Held() == Some(Buffered(proto, cb, c)) && out == Released(proto, cb, old(Held()), c)
    {
      var text := ApplyEach(cb.content, c.text);
      var replaced := ReplaceText(c, text);
      var stored := c.(ev := replaced, text := text);
      out := FlushOthers(c.block);
      if c.block in pending { out := out + [pending[c.block].ev]; }
      pending := pending[c.block := stored];
      assert c.block in pending;
    }

    method HandleContentBlockStop(c: Classified) returns (out: seq<Event>)
      requires Valid() && c.cls.ContentBlockStop?
      requires Held().Some? && Held().value.block == c.block ==> !LastPanics(proto, cb, Held().value)
      modifies this
      ensures Valid() && Held() == None && out == Released(proto, cb, old(Held()), c) + [c.ev]
    {
      out := FlushOthers(c.block);
      if c.block in pending {
        var last := ApplyLastTextDelta(pending[c.block]);
        out := out + [last];
        pending := pending - {c.block};
      }
      out := out + [c.ev];
    }

    method ApplyLastTextDelta(held: Classified) returns (ev: Event)
      requires !LastPanics(proto, cb, held)
      ensures ev == WithLast(proto, cb, held)
    {
      if |cb.last| == 0 { return held.ev; }
      var text := held.text;
      for i := 0 to |cb.last|
        invariant text == ApplyLast(cb.last[..i], held.block, held.text)
      {
        assert cb.last[..i + 1][..i] == cb.last[..i];
        text := cb.last[i](held.block, text);
      }
      assert cb.last[..|cb.last|] == cb.last;
      ev := ReplaceText(held.(cls := ContentDelta), text);
    }

    /** flushAll(true), which FlushBeforeFinish is. A second call yields nothing. */
    method FlushAll() returns (out: seq<Event>)
      requires Valid() && (Held().Some? ==> !LastPanics(proto, cb, Held().value))
      modifies this
      ensures Valid() && Held() == None && pending == map[]
      ensures out == if old(Held()).Some? then [WithLast(proto, cb, old(Held()).value)] else []
    {
      out := [];
      ghost var held := Held();
      while pending != map[]
        invariant Valid() && (pending == map[] || pending == old(pending))
        invariant pending == old(pending) ==> out == [] && Held() == held
        invariant pending != old(pending) ==> held.Some? && out == [WithLast(proto, cb, held.value)]
        decreases pending.Keys
      {
        // The least key goes first; with one key it is the only one.
        assert pending == map[] <== forall i :: i !in pending;
        ghost var any :| any in pending;
        assert forall i :: i in pending ==> any <= i;
        var k :| k in pending && forall i :: i in pending ==> k <= i;
        var last := ApplyLastTextDelta(pending[k]);
        out := out + [last];
        pending := pending - {k};
      }
    }
  }
}
