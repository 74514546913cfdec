/** What the dispatcher makes of a whole stream. */
module DispatcherTheorems {
  import opened Wrappers
  import opened StreamEvents
  import opened Dispatcher

  // ----- The specification: one output per input, and where it goes -----

  function ClassOf(proto: Protocol, evs: seq<Event>, i: nat): Class
    requires i < |evs|
  {
    Classify(proto, evs[i]).cls
  }

  predicate Triggers(cls: Class) {
    cls.ContentDelta? || cls.ContentBlockStop? || cls.Terminal?
  }

  /** The next content delta, block stop or terminal at or after `i`; the end if there is none. */
  function NextTrigger(proto: Protocol, evs: seq<Event>, i: nat): (n: nat)
    requires i <= |evs|
    ensures i <= n <= |evs|
    ensures n < |evs| ==> Triggers(ClassOf(proto, evs, n))
    ensures forall k :: i <= k < n ==> !Triggers(ClassOf(proto, evs, k))
    decreases |evs| - i
  {
    if i == |evs| || Triggers(ClassOf(proto, evs, i)) then i else NextTrigger(proto, evs, i + 1)
  }

  /** The last-delta chain fires on a delta exactly when what releases it is a stop of its
      own block, a terminal, or the end of the stream. */
  predicate Fires(proto: Protocol, evs: seq<Event>, i: nat)
    requires i < |evs|
  {
    var n := NextTrigger(proto, evs, i + 1);
    || n == |evs|
    || ClassOf(proto, evs, n).Terminal?
    || (ClassOf(proto, evs, n).ContentBlockStop? && Classify(proto, evs[n]).block == Classify(proto, evs[i]).block)
  }

  /** The one output event for input `i`. */
  function Out(proto: Protocol, cb: Callbacks, evs: seq<Event>, i: nat): Event
    requires i < |evs|
  {
    var c := Classify(proto, evs[i]);
    if !c.cls.ContentDelta? then Passed(proto, cb, c)
    else if Fires(proto, evs, i) then WithLast(proto, cb, Buffered(proto, cb, c))
    else Buffered(proto, cb, c).ev
  }

  function HeldList(held: Option<nat>): seq<nat> {
    if held.Some? then [held.value] else []
  }

  /** What goes out when input `i` comes with `held` pending: a trigger lets the held delta
      go first, and a delta waits for the next trigger itself. */
  function Leaves(cls: Class, i: nat, held: Option<nat>): seq<nat> {
    if cls.ContentDelta? then HeldList(held)
    else if Triggers(cls) then HeldList(held) + [i]
    else [i]
  }

  function Waits(cls: Class, i: nat, held: Option<nat>): Option<nat> {
    if cls.ContentDelta? then Some(i) else if Triggers(cls) then None else held
  }

  /** The input positions in output order, from input `i` on with `held` pending. */
  function Order(proto: Protocol, evs: seq<Event>, i: nat, held: Option<nat>): (o: seq<nat>)
    requires i <= |evs| && (held.Some? ==> held.value < |evs|)
    ensures forall k :: 0 <= k < |o| ==> o[k] < |evs|
    decreases |evs| - i
  {
    if i == |evs| then HeldList(held)
    else
      var cls := ClassOf(proto, evs, i);
      Leaves(cls, i, held) + Order(proto, evs, i + 1, Waits(cls, i, held))
  }

  function Outputs(proto: Protocol, cb: Callbacks, evs: seq<Event>, order: seq<nat>): seq<Event>
    requires forall k :: 0 <= k < |order| ==> order[k] < |evs|
  {
    seq(|order|, k requires 0 <= k < |order| => Out(proto, cb, evs, order[k]))
  }

  // ----- The dispatcher meets it -----

  /** WrapStream: process every event, then flush. */
  function RunFrom(proto: Protocol, cb: Callbacks, evs: seq<Event>, i: nat, held: Option<Classified>): seq<Event>
    requires i <= |evs|
    decreases |evs| - i
  {
    if i == |evs| then (if held.Some? then [WithLast(proto, cb, held.value)] else [])
    else
      var (held', out) := Step(proto, cb, held, evs[i]);
      out + RunFrom(proto, cb, evs, i + 1, held')
  }

  /** Somewhere in that run the code panics. */
  predicate RunPanics(proto: Protocol, cb: Callbacks, evs: seq<Event>, i: nat, held: Option<Classified>)
    requires i <= |evs|
    decreases |evs| - i
  {
    if i == |evs| then held.Some? && LastPanics(proto, cb, held.value)
    else StepPanics(proto, cb, held, evs[i]) || RunPanics(proto, cb, evs, i + 1, Step(proto, cb, held, evs[i]).0)
  }

  method WrapStream(proto: Protocol, cb: Callbacks, upstream: seq<Event>) returns (out: seq<Event>)
    requires !RunPanics(proto, cb, upstream, 0, None)
    ensures out == RunFrom(proto, cb, upstream, 0, None)
  {
    hide Step, StepPanics;
    var d := new StreamDispatcher(proto, cb);
    out := [];
    for i := 0 to |upstream|
      invariant fresh(d) && d.Valid() && d.proto == proto && d.cb == cb
      invariant out + RunFrom(proto, cb, upstream, i, d.Held()) == RunFrom(proto, cb, upstream, 0, None)
      invariant !RunPanics(proto, cb, upstream, i, d.Held())
    {
      ghost var was := d.Held();
      var evs := d.Process(upstream[i]);
      Assoc(out, evs, RunFrom(proto, cb, upstream, i + 1, d.Held()));
      out := out + evs;
    }
    var rest := d.FlushAll();
    out := out + rest;
  }

  lemma Assoc(a: seq<Event>, b: seq<Event>, c: seq<Event>)
    ensures a + (b + c) == a + b + c
  {
  }

  /** `held` is pending when event `i` comes, and only non-triggers came since. */
  ghost predicate Pending(proto: Protocol, evs: seq<Event>, i: nat, held: Option<nat>) {
    && i <= |evs|
    && (held.Some? ==>
          && held.value < i && ClassOf(proto, evs, held.value).ContentDelta?
          && forall k :: held.value < k < i ==> !Triggers(ClassOf(proto, evs, k)))
  }

  function HeldEvent(proto: Protocol, cb: Callbacks, evs: seq<Event>, held: Option<nat>): Option<Classified>
    requires held.Some? ==> held.value < |evs|
  {
    if held.Some? then Some(Buffered(proto, cb, Classify(proto, evs[held.value]))) else None
  }

  lemma NextTriggerIs(proto: Protocol, evs: seq<Event>, p: nat, i: nat)
    requires p < i <= |evs| && (forall k :: p < k < i ==> !Triggers(ClassOf(proto, evs, k)))
    requires i < |evs| ==> Triggers(ClassOf(proto, evs, i))
    ensures NextTrigger(proto, evs, p + 1) == i
  {
  }

  /** A held delta leaves as the specification says, whatever trigger it meets. */
  lemma ReleaseIsOut(proto: Protocol, cb: Callbacks, evs: seq<Event>, i: nat, held: Option<nat>)
    requires Pending(proto, evs, i, held) && held.Some?
    requires i < |evs| ==> Triggers(ClassOf(proto, evs, i))
    ensures i < |evs| ==> Released(proto, cb, HeldEvent(proto, cb, evs, held), Classify(proto, evs[i]))
                          == [Out(proto, cb, evs, held.value)]
    ensures i == |evs| ==> WithLast(proto, cb, HeldEvent(proto, cb, evs, held).value) == Out(proto, cb, evs, held.value)
  {
    hide Classify, NextTrigger, Replace, ApplyAll, ApplyLast;
    NextTriggerIs(proto, evs, held.value, i);
  }

  lemma OutputsConcat(proto: Protocol, cb: Callbacks, evs: seq<Event>, a: seq<nat>, b: seq<nat>)
    requires forall k :: 0 <= k < |a| ==> a[k] < |evs|
    requires forall k :: 0 <= k < |b| ==> b[k] < |evs|
    ensures forall k :: 0 <= k < |a + b| ==> (a + b)[k] < |evs|
    ensures Outputs(proto, cb, evs, a + b) == Outputs(proto, cb, evs, a) + Outputs(proto, cb, evs, b)
  {
  }

  lemma OutputsOne(proto: Protocol, cb: Callbacks, evs: seq<Event>, i: nat)
    requires i < |evs|
    ensures Outputs(proto, cb, evs, [i]) == [Out(proto, cb, evs, i)]
  {
  }

  /** One step puts out what the specification says leaves now, and holds what waits. */
  lemma StepOutputs(proto: Protocol, cb: Callbacks, evs: seq<Event>, i: nat, held: Option<nat>)
    requires i < |evs| && Pending(proto, evs, i, held)
    ensures var cls := ClassOf(proto, evs, i);
            Pending(proto, evs, i + 1, Waits(cls, i, held))
            && Step(proto, cb, HeldEvent(proto, cb, evs, held), evs[i])
               == (HeldEvent(proto, cb, evs, Waits(cls, i, held)), Outputs(proto, cb, evs, Leaves(cls, i, held)))
  {
    hide Classify, NextTrigger, Replace, ApplyAll, ApplyLast;
    OutputsOne(proto, cb, evs, i);
    if held.Some? {
      OutputsOne(proto, cb, evs, held.value);
      if Triggers(ClassOf(proto, evs, i)) { ReleaseIsOut(proto, cb, evs, i, held); }
    }
    OutputsConcat(proto, cb, evs, HeldList(held), [i]);
  }

  lemma {:induction false} RunMeetsSpec(proto: Protocol, cb: Callbacks, evs: seq<Event>, i: nat, held: Option<nat>)
    requires Pending(proto, evs, i, held)
    ensures RunFrom(proto, cb, evs, i, HeldEvent(proto, cb, evs, held))
         == Outputs(proto, cb, evs, Order(proto, evs, i, held))
    decreases |evs| - i
  {
    hide Step, Outputs, Fires, NextTrigger, Leaves, Waits;
    OutputsNone(proto, cb, evs);
    if i == |evs| {
      if held.Some? {
        ReleaseIsOut(proto, cb, evs, i, held);
        OutputsOne(proto, cb, evs, held.value);
      }
    } else {
      var cls := ClassOf(proto, evs, i);
      StepOutputs(proto, cb, evs, i, held);
      RunMeetsSpec(proto, cb, evs, i + 1, Waits(cls, i, held));
      LeavesInRange(proto, evs, i, held);
      OutputsConcat(proto, cb, evs, Leaves(cls, i, held), Order(proto, evs, i + 1, Waits(cls, i, held)));
    }
  }

  lemma LeavesInRange(proto: Protocol, evs: seq<Event>, i: nat, held: Option<nat>)
    requires i < |evs| && (held.Some? ==> held.value < |evs|)
    ensures forall k :: 0 <= k < |Leaves(ClassOf(proto, evs, i), i, held)| ==> Leaves(ClassOf(proto, evs, i), i, held)[k] < |evs|
  {
  }

  lemma OutputsNone(proto: Protocol, cb: Callbacks, evs: seq<Event>)
    ensures Outputs(proto, cb, evs, []) == []
  {
  }

  /** For every stream, what the dispatcher emits up to and including the final flush is the
      specified output of every input, in the specified order. */
  lemma DispatcherMeetsSpec(proto: Protocol, cb: Callbacks, evs: seq<Event>)
    ensures RunFrom(proto, cb, evs, 0, None) == Outputs(proto, cb, evs, Order(proto, evs, 0, None))
  {
    RunMeetsSpec(proto, cb, evs, 0, None);
  }

  // ----- The order -----

  /** The list has the held position and everything from `i` on, each once. */
  ghost predicate Lists(order: seq<nat>, n: nat, i: nat, held: Option<nat>) {
    && (forall x: nat :: x in order <==> i <= x < n || held == Some(x))
    && (forall p, q :: 0 <= p < q < |order| ==> order[p] != order[q])
  }

  lemma ListsFront(order: seq<nat>, n: nat, i: nat, held: Option<nat>, cls: Class)
    requires i < n && (held.Some? ==> held.value < i) && Lists(order, n, i + 1, Waits(cls, i, held))
    ensures Lists(Leaves(cls, i, held) + order, n, i, held)
  {
    var front := Leaves(cls, i, held);
    forall x: nat ensures x in front + order <==> i <= x < n || held == Some(x) {
      assert x in front + order <==> x in front || x in order;
    }
    forall p, q | 0 <= p < q < |front + order| ensures (front + order)[p] != (front + order)[q] {
      if p < |front| <= q { assert order[q - |front|] in order; }
    }
  }

  lemma {:induction false} OrderLists(proto: Protocol, evs: seq<Event>, i: nat, held: Option<nat>)
    requires Pending(proto, evs, i, held)
    ensures Lists(Order(proto, evs, i, held), |evs|, i, held)
    decreases |evs| - i
  {
    if i < |evs| {
      var cls := ClassOf(proto, evs, i);
      OrderLists(proto, evs, i + 1, Waits(cls, i, held));
      ListsFront(Order(proto, evs, i + 1, Waits(cls, i, held)), |evs|, i, held, cls);
    }
  }

  /** Input `x` comes before input `y` but leaves after it: `x` is a delta, and `y` and all
      between them are reasoning, tool-use and other events. */
  ghost predicate MayOvertake(proto: Protocol, evs: seq<Event>, x: nat, y: nat) {
    && x < y < |evs| && ClassOf(proto, evs, x).ContentDelta?
    && forall k :: x < k <= y ==> !Triggers(ClassOf(proto, evs, k))
  }

  ghost predicate Orderly(proto: Protocol, evs: seq<Event>, order: seq<nat>) {
    forall p, q :: 0 <= p < q < |order| && order[q] < order[p] ==> MayOvertake(proto, evs, order[q], order[p])
  }

  lemma {:induction false} OrderIsOrderly(proto: Protocol, evs: seq<Event>, i: nat, held: Option<nat>)
    requires i <= |evs| && Pending(proto, evs, i, held)
    ensures Orderly(proto, evs, Order(proto, evs, i, held))
    decreases |evs| - i
  {
    hide Classify, Orderly, Lists, Pending, Leaves, Waits;
    if i == |evs| {
      WaitingIsOrderly(proto, evs, held);
    } else {
      var cls := ClassOf(proto, evs, i);
      PendingStep(proto, evs, i, held);
      var rest := Order(proto, evs, i + 1, Waits(cls, i, held));
      OrderIsOrderly(proto, evs, i + 1, Waits(cls, i, held));
      OrderLists(proto, evs, i + 1, Waits(cls, i, held));
      OrderlyFront(proto, evs, i, held, rest);
    }
  }

  lemma PendingStep(proto: Protocol, evs: seq<Event>, i: nat, held: Option<nat>)
    requires i < |evs| && Pending(proto, evs, i, held)
    ensures var w := Waits(ClassOf(proto, evs, i), i, held);
            Pending(proto, evs, i + 1, w) && (w.Some? ==> w.value < |evs|)
  {
    hide Classify;
  }

  lemma WaitingIsOrderly(proto: Protocol, evs: seq<Event>, held: Option<nat>)
    ensures Orderly(proto, evs, HeldList(held))
  {
  }

  lemma OrderlyFront(proto: Protocol, evs: seq<Event>, i: nat, held: Option<nat>, rest: seq<nat>)
    requires i < |evs| && Pending(proto, evs, i, held) && Orderly(proto, evs, rest)
    requires Lists(rest, |evs|, i + 1, Waits(ClassOf(proto, evs, i), i, held))
    ensures Orderly(proto, evs, Leaves(ClassOf(proto, evs, i), i, held) + rest)
  {
    hide Classify;
    var cls := ClassOf(proto, evs, i);
    var front := Leaves(cls, i, held);
    var order := front + rest;
    forall p, q | 0 <= p < q < |order| && order[q] < order[p] ensures MayOvertake(proto, evs, order[q], order[p]) {
      if q >= |front| { assert rest[q - |front|] in rest; }
      if p < |front| <= q {
        assert order[q] == rest[q - |front|];
        assert order[q] > i || Waits(cls, i, held) == Some(order[q]);
      } else if p >= |front| {
        assert order[p] == rest[p - |front|] && order[q] == rest[q - |front|];
      }
    }
  }

  /** The output order of a stream is a permutation of it in which an event is overtaken only
      by being a waiting delta, and only by reasoning, tool-use and other events. So deltas
      keep their order among themselves, and so do all other events. */
  lemma OutputOrder(proto: Protocol, evs: seq<Event>)
    ensures var order := Order(proto, evs, 0, None);
      && (forall x: nat :: x in order <==> x < |evs|)
      && (forall p, q :: 0 <= p < q < |order| ==> order[p] != order[q])
      && Orderly(proto, evs, order)
      && (forall p, q :: 0 <= p < q < |order|
            && ClassOf(proto, evs, order[p]).ContentDelta? == ClassOf(proto, evs, order[q]).ContentDelta?
            ==> order[p] < order[q])
  {
    OrderLists(proto, evs, 0, None);
    OrderIsOrderly(proto, evs, 0, None);
  }

  // ----- Which streams make the code panic -----

  /** A callback result for input `i` cannot be written: the content chain's or, when the
      last-delta chain fires, that chain's; for a reasoning delta the reasoning chain's. */
  predicate PanicsAt(proto: Protocol, cb: Callbacks, evs: seq<Event>, i: nat)
    requires i < |evs|
  {
    var c := Classify(proto, evs[i]);
    if c.cls.ContentDelta? then
      RewritePanics(proto, c, ApplyAll(cb.content, c.text))
      || (Fires(proto, evs, i) && LastPanics(proto, cb, Buffered(proto, cb, c)))
    else c.cls.ReasoningDelta? && RewritePanics(proto, c, ApplyAll(cb.reasoning, c.text))
  }

  /** What is pending from input `held` panics when it is released. */
  predicate HeldPanics(proto: Protocol, cb: Callbacks, evs: seq<Event>, held: Option<nat>)
    requires held.Some? ==> held.value < |evs| && ClassOf(proto, evs, held.value).ContentDelta?
  {
    held.Some? && Fires(proto, evs, held.value)
    && LastPanics(proto, cb, Buffered(proto, cb, Classify(proto, evs[held.value])))
  }

  lemma FiresAt(proto: Protocol, evs: seq<Event>, i: nat, held: Option<nat>)
    requires Pending(proto, evs, i, held) && held.Some? && (i < |evs| ==> Triggers(ClassOf(proto, evs, i)))
    ensures Fires(proto, evs, held.value) <==>
            i == |evs| || ClassOf(proto, evs, i).Terminal?
            || (ClassOf(proto, evs, i).ContentBlockStop?
                && Classify(proto, evs[i]).block == Classify(proto, evs[held.value]).block)
  {
    hide Classify;
    NextTriggerIs(proto, evs, held.value, i);
  }

  /** One step panics for what is released now or for its own callbacks; what waits can panic
      later. */
  lemma StepPanicsIff(proto: Protocol, cb: Callbacks, evs: seq<Event>, i: nat, held: Option<nat>)
    requires i < |evs| && Pending(proto, evs, i, held)
    ensures var cls := ClassOf(proto, evs, i);
            var next := Waits(cls, i, held);
            (next.Some? ==> next.value < |evs| && ClassOf(proto, evs, next.value).ContentDelta?)
            && (StepPanics(proto, cb, HeldEvent(proto, cb, evs, held), evs[i]) || HeldPanics(proto, cb, evs, next)
                <==> HeldPanics(proto, cb, evs, held) || PanicsAt(proto, cb, evs, i))
  {
    hide Classify, RewritePanics, Replace, ApplyAll, ApplyLast, Fires, NextTrigger;
    if held.Some? && Triggers(ClassOf(proto, evs, i)) { FiresAt(proto, evs, i, held); }
  }

  lemma {:induction false} RunPanicsFrom(proto: Protocol, cb: Callbacks, evs: seq<Event>, i: nat, held: Option<nat>)
    requires Pending(proto, evs, i, held)
    ensures RunPanics(proto, cb, evs, i, HeldEvent(proto, cb, evs, held))
       <==> HeldPanics(proto, cb, evs, held) || exists k: nat :: i <= k < |evs| && PanicsAt(proto, cb, evs, k)
    decreases |evs| - i
  {
    hide Step, StepPanics, PanicsAt, LastPanics, Fires, Buffered, Classify;
    if i == |evs| {
      if held.Some? { FiresAt(proto, evs, i, held); }
    } else {
      var next := Waits(ClassOf(proto, evs, i), i, held);
      StepOutputs(proto, cb, evs, i, held);
      StepPanicsIff(proto, cb, evs, i, held);
      RunPanicsFrom(proto, cb, evs, i + 1, next);
      assert (exists k: nat :: i <= k < |evs| && PanicsAt(proto, cb, evs, k))
        <==> PanicsAt(proto, cb, evs, i) || exists k: nat :: i + 1 <= k < |evs| && PanicsAt(proto, cb, evs, k);
    }
  }

  /** A callback gives a null delta a text: the content or reasoning chain does, or the
      last-delta chain where it fires. */
  predicate FillsNull(proto: Protocol, cb: Callbacks, evs: seq<Event>, i: nat)
    requires i < |evs|
  {
    var c := Classify(proto, evs[i]);
    && NullDelta(proto, evs[i])
    && if c.cls.ContentDelta? then
         ApplyAll(cb.content, "") != "" || (Fires(proto, evs, i) && ApplyLast(cb.last, c.block, "") != "")
       else c.cls.ReasoningDelta? && ApplyAll(cb.reasoning, "") != ""
  }

  lemma PanicsAtFilledNull(proto: Protocol, cb: Callbacks, evs: seq<Event>, i: nat)
    requires i < |evs|
    ensures PanicsAt(proto, cb, evs, i) <==> FillsNull(proto, cb, evs, i)
  {
    hide Fires;
    if NullDelta(proto, evs[i]) {
      NullHasNoText(proto, evs[i]);
    } else {
      NothingPanics(proto, cb, evs[i]);
    }
  }

  lemma NullHasNoText(proto: Protocol, ev: Event)
    requires NullDelta(proto, ev)
    ensures Classify(proto, ev).text == ""
  {
  }

  lemma NothingPanics(proto: Protocol, cb: Callbacks, ev: Event)
    requires !NullDelta(proto, ev)
    ensures var c := Classify(proto, ev);
            && !RewritePanics(proto, c, ApplyAll(cb.content, c.text)) && !RewritePanics(proto, c, ApplyAll(cb.reasoning, c.text))
            && !LastPanics(proto, cb, Buffered(proto, cb, c))
  {
    hide Classify, ApplyAll, ApplyLast;
    var c := Classify(proto, ev);
    RewritePanicsIff(proto, c, ApplyAll(cb.content, c.text));
    RewritePanicsIff(proto, c, ApplyAll(cb.reasoning, c.text));
    KeepsPayload(proto, c, ApplyAll(cb.content, c.text));
    var held := Buffered(proto, cb, c).(cls := ContentDelta);
    RewritePanicsIff(proto, held, ApplyLast(cb.last, held.block, held.text));
  }

  lemma KeepsPayload(proto: Protocol, c: Classified, text: string)
    requires !NullDelta(proto, c.ev)
    ensures !NullDelta(proto, Replace(proto, c, text))
  {
  }

  /** A stream makes the dispatcher panic exactly when some callback gives a null delta a text. */
  lemma PanicsIff(proto: Protocol, cb: Callbacks, evs: seq<Event>)
    ensures RunPanics(proto, cb, evs, 0, None) <==> exists i: nat :: i < |evs| && FillsNull(proto, cb, evs, i)
  {
    hide FillsNull, PanicsAt, RunPanics;
    RunPanicsFrom(proto, cb, evs, 0, None);
    forall i: nat | i < |evs|
      ensures PanicsAt(proto, cb, evs, i) <==> FillsNull(proto, cb, evs, i)
    {
      PanicsAtFilledNull(proto, cb, evs, i);
    }
  }

  // ----- What the outputs read as -----

  /** The text a client should read for input `i`: a content delta goes through the content chain
      and, where it fires, the last-delta chain; a reasoning delta through the reasoning chain. */
  function ShouldRead(proto: Protocol, cb: Callbacks, evs: seq<Event>, i: nat): string
    requires i < |evs|
  {
    var c := Classify(proto, evs[i]);
    var text := ApplyAll(cb.content, c.text);
    match c.cls
    case ContentDelta => if Fires(proto, evs, i) then ApplyLast(cb.last, c.block, text) else text
    case ReasoningDelta => ApplyAll(cb.reasoning, c.text)
    case _ => c.text
  }

  /** Every output is its input with the chains' text: same name, place and time, read by a
      client as the same kind of event of the same block. Whatever is no text or reasoning, tool
      use above all, goes out untouched. An empty chat delta reads as nothing, so chat needs text. */
  lemma OutputReads(proto: Protocol, cb: Callbacks, evs: seq<Event>, i: nat)
    requires i < |evs| && SingleChoice(proto, evs[i]) && !FillsNull(proto, cb, evs, i)
    requires proto.Chat? && Classify(proto, evs[i]).cls.ContentDelta? ==> ShouldRead(proto, cb, evs, i) != ""
    ensures var c, out := Classify(proto, evs[i]), Out(proto, cb, evs, i);
      && Classify(proto, out) == Classified(out, c.cls, ShouldRead(proto, cb, evs, i), c.block)
      && out.name == evs[i].name && out.tDeltaMs == evs[i].tDeltaMs && out.offset == evs[i].offset
      && (!IsDelta(c) ==> out == evs[i])
  {
    hide Classify, ApplyAll, ApplyLast, Fires, RewriteDeltaText, SingleChoice;
    var c := Classify(proto, evs[i]);
    if c.cls.ContentDelta? {
      var text := ApplyAll(cb.content, c.text);
      if NullDelta(proto, evs[i]) {
        NullHasNoText(proto, evs[i]);
      } else if Fires(proto, evs, i) {
        ReplacedTwice(proto, evs[i], text, ApplyLast(cb.last, c.block, text));
      } else {
        ReplacedOnce(proto, evs[i], text);
      }
    } else if c.cls.ReasoningDelta? {
      if NullDelta(proto, evs[i]) { NullHasNoText(proto, evs[i]); } else {
        if proto.Chat? { NoChatReasoning(evs[i]); }
        ReplacedOnce(proto, evs[i], ApplyAll(cb.reasoning, c.text));
      }
    }
  }

  lemma ReplacedOnce(proto: Protocol, ev: Event, text: string)
    requires IsDelta(Classify(proto, ev)) && !NullDelta(proto, ev) && SingleChoice(proto, ev)
    requires proto.Chat? ==> text != ""
    ensures var c := Classify(proto, ev);
            var out := Replace(proto, c, text);
            && Classify(proto, out) == Classified(out, c.cls, text, c.block)
            && out.name == ev.name && out.tDeltaMs == ev.tDeltaMs && out.offset == ev.offset
  {
    hide Classify, RewriteDeltaText;
    RewriteReclassifies(proto, ev, text);
  }

  lemma ReplacedTwice(proto: Protocol, ev: Event, first: string, second: string)
    requires Classify(proto, ev).cls.ContentDelta? && !NullDelta(proto, ev) && SingleChoice(proto, ev)
    requires proto.Chat? ==> second != ""
    ensures var c := Classify(proto, ev);
            var out := Replace(proto, c.(ev := Replace(proto, c, first), text := first), second);
            && Classify(proto, out) == Classified(out, c.cls, second, c.block)
            && out.name == ev.name && out.tDeltaMs == ev.tDeltaMs && out.offset == ev.offset
  {
    hide Classify, RewriteDeltaText;
    var c := Classify(proto, ev);
    RewriteReclassifies(proto, ev, second);
    RewriteTextIrrelevant(proto, c, first, second);
    if first != c.text {
      RewriteDone(proto, ev, first, second);
      RewriteTwice(proto, c, first, second);
    }
  }

  lemma RewriteTextIrrelevant(proto: Protocol, c: Classified, first: string, second: string)
    ensures RewriteDeltaText(proto, c.(text := first), second) == RewriteDeltaText(proto, c, second)
    ensures forall ev :: RewriteDeltaText(proto, c.(ev := ev, text := first), second) == RewriteDeltaText(proto, c.(ev := ev), second)
  {
  }

  /** Whether a rewrite goes through does not depend on the text. */
  lemma RewriteDone(proto: Protocol, ev: Event, first: string, second: string)
    requires RewriteDeltaText(proto, Classify(proto, ev), second).Done?
    ensures RewriteDeltaText(proto, Classify(proto, ev), first).Done?
  {
    hide Classify;
  }

  /** A chain passes the text from one callback to the next, first registered first. */
  lemma {:induction false} ChainInOrder(fns: seq<string -> string>, more: seq<string -> string>, text: string)
    ensures ApplyAll([], text) == text && (forall f: string -> string :: ApplyAll([f], text) == f(text))
    ensures ApplyAll(fns + more, text) == ApplyAll(more, ApplyAll(fns, text))
    decreases |more|
  {
    assert forall f: string -> string :: [f][..0] == [];
    if more == [] {
      assert fns + more == fns;
    } else {
      assert (fns + more)[..|fns + more| - 1] == fns + more[..|more| - 1];
      ChainInOrder(fns, more[..|more| - 1], text);
    }
  }

  lemma {:induction false} LastChainInOrder(fns: seq<(int, string) -> string>, more: seq<(int, string) -> string>,
                                            block: int, text: string)
    ensures ApplyLast([], block, text) == text
    ensures forall f: (int, string) -> string :: ApplyLast([f], block, text) == f(block, text)
    ensures ApplyLast(fns + more, block, text) == ApplyLast(more, block, ApplyLast(fns, block, text))
    decreases |more|
  {
    assert forall f: (int, string) -> string :: [f][..0] == [];
    if more == [] {
      assert fns + more == fns;
    } else {
      assert (fns + more)[..|fns + more| - 1] == fns + more[..|more| - 1];
      LastChainInOrder(fns, more[..|more| - 1], block, text);
    }
  }
}
