/** Server-sent events as internal/sse reads and writes them: the batch parser, the
    incremental scanner that must agree with it, and the printer. */
module Sse {
  import opened Wrappers
  import opened Lines

  const CR: byte := 13
  const COLON: byte := 58
  const SPACE: byte := 32
  const EVENT: Bytes := [101, 118, 101, 110, 116]
  const DATA: Bytes := [100, 97, 116, 97]
  const DONE: Bytes := [91, 68, 79, 78, 69, 93]
  const RESPONSE_COMPLETED: Bytes :=
    [114, 101, 115, 112, 111, 110, 115, 101, 46, 99, 111, 109, 112, 108, 101, 116, 101, 100]
  const MESSAGE_STOP: Bytes := [109, 101, 115, 115, 97, 103, 101, 95, 115, 116, 111, 112]

  /** encoding/json, as far as this package uses it. */
  datatype Codec = Codec(valid: Bytes -> bool, quote: Bytes -> Bytes)

  ghost predicate Lawful(c: Codec) {
    && !c.valid(DONE)
    && forall d :: c.valid(c.quote(d)) && LF !in c.quote(d) && CR !in c.quote(d)
  }

  /** One event; empty `data` is the nil payload. */
  datatype Event = Event(name: Bytes, data: Bytes, offset: int)

  // ----- Lines as items -----

  datatype Item = Blank | Ignored | Field(field: Bytes, value: Bytes, start: nat)

  function TrimLF(line: Bytes): Bytes {
    if line != [] && line[|line| - 1] == LF then line[..|line| - 1] else line
  }

  function TrimCR(line: Bytes): Bytes {
    if line != [] && line[|line| - 1] == CR then line[..|line| - 1] else line
  }

  function Trim(line: Bytes): Bytes {
    TrimCR(TrimLF(line))
  }

  /** The position of the first colon, or the length when there is none. */
  function Colon(line: Bytes): (i: nat)
    ensures i <= |line| && (i < |line| ==> line[i] == COLON)
    ensures forall k :: 0 <= k < i ==> line[k] != COLON
  {
    if line == [] || line[0] == COLON then 0 else 1 + Colon(line[1..])
  }

  /** splitField: nothing for a line with no colon; one leading space of the value goes. */
  function SplitField(line: Bytes): Option<(Bytes, Bytes)> {
    var i := Colon(line);
    if i == |line| then None
    else
      var v := line[i + 1..];
      Some((line[..i], if v != [] && v[0] == SPACE then v[1..] else v))
  }

  function ItemOf(line: Bytes, start: nat): Item {
    var t := Trim(line);
    if t == [] then Blank
    else if t[0] == COLON then Ignored
    else match SplitField(t)
         case None => Ignored
         case Some((f, v)) => Field(f, v, start)
  }

  /** The lines of the input from `pos` on. */
  function Items(b: Bytes, pos: nat): seq<Item>
    requires pos <= |b|
    decreases |b| - pos
  {
    if pos == |b| then []
    else [ItemOf(b[pos..LineEnd(b, pos)], pos)] + Items(b, LineEnd(b, pos))
  }

  // ----- The accumulator both readers share -----

  datatype Acc = Acc(name: Bytes, data: Bytes, hasData: bool, start: int, done: bool)

  const EMPTY := Acc([], [], false, -1, false)

  function FeedField(a: Acc, field: Bytes, value: Bytes, start: nat): Acc {
    var s := if a.start == -1 then start else a.start;
    if field == EVENT then a.(start := s, name := value)
    else if field == DATA then a.(start := s, data := (if a.hasData then a.data + [LF] else a.data) + value, hasData := true)
    else a.(start := s)
  }

  predicate Terminates(name: Bytes) {
    name == RESPONSE_COMPLETED || name == MESSAGE_STOP
  }

  function Payload(c: Codec, data: Bytes): Bytes {
    if data == [] || c.valid(data) then data else c.quote(data)
  }

  function Reset(a: Acc, done: bool): Acc {
    Acc([], [], false, -1, done)
  }

  /** What a frame boundary makes of the accumulator. A frame with neither name nor data
      leaves it untouched, its start offset included. */
  function Flush(c: Codec, a: Acc): (Acc, seq<Event>) {
    if !a.hasData && a.name == [] then (a, [])
    else if a.name == [] && a.data == DONE then (Reset(a, true), [])
    else (Reset(a, a.done || Terminates(a.name)), [Event(a.name, Payload(c, a.data), a.start)])
  }

  datatype Outcome = Outcome(events: seq<Event>, acc: Acc)

  /** Reading all the items, without the flush at the end of the input. */
  function Run(c: Codec, items: seq<Item>, a: Acc): Outcome {
    if items == [] then Outcome([], a)
    else
      match items[0]
      case Ignored => Run(c, items[1..], a)
      case Field(f, v, start) => Run(c, items[1..], FeedField(a, f, v, start))
      case Blank =>
        var (a', evs) := Flush(c, a);
        var o := Run(c, items[1..], a');
        Outcome(evs + o.events, o.acc)
  }

  /** What one line does to the accumulator, and the events it completes. */
  function LineStep(c: Codec, line: Bytes, start: nat, a: Acc): (Acc, seq<Event>) {
    match ItemOf(line, start)
    case Ignored => (a, [])
    case Field(f, v, s) => (FeedField(a, f, v, s), [])
    case Blank => Flush(c, a)
  }

  lemma RunLine(c: Codec, b: Bytes, pos: nat, a: Acc)
    requires pos < |b|
    ensures var e := LineEnd(b, pos);
            var (a', evs) := LineStep(c, b[pos..e], pos, a);
            var o := Run(c, Items(b, e), a');
            Run(c, Items(b, pos), a) == Outcome(evs + o.events, o.acc)
  {
    var e := LineEnd(b, pos);
    var items := Items(b, pos);
    assert items[0] == ItemOf(b[pos..e], pos) && items[1..] == Items(b, e);
    var o := Run(c, Items(b, e), LineStep(c, b[pos..e], pos, a).0);
    assert [] + o.events == o.events;
  }

  lemma RunAtEnd(c: Codec, b: Bytes, a: Acc)
    ensures Run(c, Items(b, |b|), a) == Outcome([], a)
    ensures !a.hasData && a.name == [] ==> Flush(c, a) == (a, [])
  {
  }

  /** Reading a whole input: the events, and whether the stream was seen to end. */
  function ReadAll(c: Codec, b: Bytes): Outcome {
    var o := Run(c, Items(b, 0), EMPTY);
    var (a, evs) := Flush(c, o.acc);
    Outcome(o.events + evs, a)
  }

  lemma Associative(a: seq<Event>, b: seq<Event>, c: seq<Event>)
    ensures a + (b + c) == a + b + c
  {
  }

  // ----- Parse -----

  datatype ParseError = NoError | ReadFailed | NoFrames
  datatype ParseResult = ParseResult(events: seq<Event>, streamDone: bool, error: ParseError)

  /** `failed` says whether the reader ends in an error instead of EOF. Either way the
      pending frame is flushed. */
  method Parse(c: Codec, b: Bytes, failed: bool) returns (r: ParseResult)
    ensures r.events == ReadAll(c, b).events && r.streamDone == ReadAll(c, b).acc.done
    ensures r.error == if failed then ReadFailed
                       else if b != [] && r.events == [] && !r.streamDone then NoFrames
                       else NoError
  {
    hide Run, Items, Flush;
    var events: seq<Event> := [];
    var streamDone, curEvent, curData, hasData, start := false, [], [], false, -1;
    var offset, sawAnyLine, atEnd := 0, false, false;
    while !atEnd
      invariant 0 <= offset <= |b|
      invariant var o := Run(c, Items(b, offset), Acc(curEvent, curData, hasData, start, streamDone));
                Run(c, Items(b, 0), EMPTY) == Outcome(events + o.events, o.acc)
      invariant atEnd ==> offset == |b|
      invariant sawAnyLine <==> offset > 0
      decreases |b| - offset, if atEnd then 0 else 1
    {
      var lineStart := offset;
      var line := b[offset..LineEnd(b, offset)];
      if |line| > 0 {
        ghost var was := Acc(curEvent, curData, hasData, start, streamDone);
        RunLine(c, b, offset, was);
        sawAnyLine := true;
        offset := offset + |line|;
        ghost var o := Run(c, Items(b, offset), LineStep(c, line, lineStart, was).0);
        Associative(events, LineStep(c, line, lineStart, was).1, o.events);
        var trimmed := Trim(line);
        if |trimmed| == 0 {
          var (a, evs) := Flush(c, Acc(curEvent, curData, hasData, start, streamDone));
          events := events + evs;
          curEvent, curData, hasData, start, streamDone := a.name, a.data, a.hasData, a.start, a.done;
        } else {
          if trimmed[0] != COLON && SplitField(trimmed).Some? {
            var (field, value) := SplitField(trimmed).value;
            if start == -1 { start := lineStart; }
            if field == EVENT {
              curEvent := value;
            } else if field == DATA {
              if hasData { curData := curData + [LF]; }
              curData, hasData := curData + value, true;
            }
          }
          assert events + [] == events;
        }
      }
      atEnd := |line| == 0 || line[|line| - 1] != LF;
    }
    RunAtEnd(c, b, Acc(curEvent, curData, hasData, start, streamDone));
    assert events + [] == events;
    if hasData || curEvent != [] {
      var (a, evs) := Flush(c, Acc(curEvent, curData, hasData, start, streamDone));
      events, streamDone := events + evs, a.done;
    }
    r := ParseResult(events, streamDone,
      if failed then ReadFailed else if sawAnyLine && events == [] && !streamDone then NoFrames else NoError);
  }

  // ----- Scanner -----

  datatype NextResult = Got(ev: Event) | EndOfStream | ReadError

  class Scanner {
    const c: Codec
    const b: Bytes       // everything the reader will deliver
    const failed: bool   // and whether it then fails instead of ending
    var offset: nat
    var eventStart: int
    var curEvent: Bytes
    var curData: Bytes
    var hasData: bool
    var streamDone: bool

    constructor (c: Codec, b: Bytes, failed: bool)
      ensures Valid() && this.c == c && this.b == b && this.failed == failed
      ensures offset == 0 && Accumulated() == EMPTY
      ensures !failed ==> Remaining() == ReadAll(c, b).events && FinallyDone() == ReadAll(c, b).acc.done
      ensures failed ==> Remaining() + Flush(c, Run(c, Items(b, 0), EMPTY).acc).1 == ReadAll(c, b).events
    {
      this.c, this.b, this.failed := c, b, failed;
      offset, eventStart, curEvent, curData, hasData, streamDone := 0, -1, [], [], false, false;
    }

    ghost predicate Valid()
      reads this
    {
      offset <= |b|
    }

    ghost function Accumulated(): Acc
      reads this
    {
      Acc(curEvent, curData, hasData, eventStart, streamDone)
    }

    /** The events still to come. A read error, unlike EOF, drops the pending frame. */
    ghost function Remaining(): seq<Event>
      requires Valid()
      reads this
    {
      var o := Run(c, Items(b, offset), Accumulated());
      if failed then o.events else o.events + Flush(c, o.acc).1
    }

    /** What StreamDone will say when nothing remains. */
    ghost function FinallyDone(): bool
      requires Valid()
      reads this
    {
      var o := Run(c, Items(b, offset), Accumulated());
      if failed then o.acc.done else Flush(c, o.acc).0.done
    }

    /** flushFrame and resetFrame. */
    method FlushFrame() returns (evs: seq<Event>)
      modifies this
      ensures offset == old(offset) && (Accumulated(), evs) == Flush(c, old(Accumulated()))
    {
      var (a, out) := Flush(c, Acc(curEvent, curData, hasData, eventStart, streamDone));
      curEvent, curData, hasData, eventStart, streamDone := a.name, a.data, a.hasData, a.start, a.done;
      evs := out;
    }

    /** One line read and processed: the loop body of Next up to its exits. */
    method ReadLine() returns (evs: seq<Event>)
      requires Valid() && offset < |b|
      modifies this
      ensures Valid() && offset == LineEnd(b, old(offset))
      ensures (Accumulated(), evs) == LineStep(c, b[old(offset)..offset], old(offset), old(Accumulated()))
    {
      var lineStart := offset;
      var line := b[offset..LineEnd(b, offset)];
      offset := offset + |line|;
      evs := [];
      var trimmed := Trim(line);
      if |trimmed| == 0 {
        evs := FlushFrame();
      } else if trimmed[0] != COLON && SplitField(trimmed).Some? {
        var (field, value) := SplitField(trimmed).value;
        if eventStart == -1 { eventStart := lineStart; }
        if field == EVENT {
          curEvent := value;
        } else if field == DATA {
          if hasData { curData := curData + [LF]; }
          curData, hasData := curData + value, true;
        }
      }
    }

    method Next() returns (r: NextResult)
      requires Valid()
      modifies this
      ensures Valid() && FinallyDone() == old(FinallyDone())
      ensures old(Remaining()) != [] ==> r == Got(old(Remaining())[0]) && Remaining() == old(Remaining())[1..]
      ensures old(Remaining()) == [] ==>
                r == (if failed then ReadError else EndOfStream) && Remaining() == [] && streamDone == FinallyDone()
    {
      hide Run, Items, Flush, LineStep, LineEnd;
      while offset < |b|
        invariant Valid() && Remaining() == old(Remaining()) && FinallyDone() == old(FinallyDone())
        decreases |b| - offset
      {
        ghost var pos, was := offset, Accumulated();
        RunLine(c, b, pos, was);
        var evs := ReadLine();
        ghost var o := Run(c, Items(b, offset), Accumulated());
        assert failed || (evs + o.events) + Flush(c, o.acc).1 == evs + (o.events + Flush(c, o.acc).1);
        LineStepEvents(c, b[pos..offset], pos, was);
        if |evs| > 0 { return Got(evs[0]); }
        assert evs == [];
      }
      RunAtEnd(c, b, Accumulated());
      if failed { return ReadError; }
      if hasData || curEvent != [] {
        ghost var was := Accumulated();
        FlushTwice(c, was);
        var evs := FlushFrame();
        RunAtEnd(c, b, Accumulated());
        if |evs| > 0 { return Got(evs[0]); }
      }
      return EndOfStream;
    }
  }

  /** A line completes at most one event. */
  lemma LineStepEvents(c: Codec, line: Bytes, start: nat, a: Acc)
    ensures |LineStep(c, line, start, a).1| <= 1
  {
  }

  /** A flushed accumulator has nothing left to flush. */
  lemma FlushTwice(c: Codec, a: Acc)
    ensures |Flush(c, a).1| <= 1
    ensures Flush(c, Flush(c, a).0) == (Flush(c, a).0, [])
  {
  }
}
