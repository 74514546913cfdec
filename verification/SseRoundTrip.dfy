/** Printing and then reading: exactly which events survive, and where they are found. */
module SseRoundTrip {
  import opened Wrappers
  import opened Lines
  import opened Sse
  import opened SseFrames
  import opened SsePrinter

  predicate EndsInCR(d: Bytes) {
    d != [] && d[|d| - 1] == CR
  }

  /** An event the wire format can carry. */
  predicate Printable(c: Codec, ev: Event) {
    && (ev.name != [] || ev.data != [])
    && LF !in ev.name && !EndsInCR(ev.name)
    && (ev.data != [] ==> c.valid(ev.data) && forall i :: 0 <= i < |Split(ev.data)| ==> !EndsInCR(Split(ev.data)[i]))
  }

  /** The accumulator when the blank line of a printed frame is reached. */
  function Gathered(ev: Event, pos: nat, done: bool): Acc {
    Acc(TrimCR(ev.name), if ev.data == [] then [] else Join(Trimmed(Split(ev.data))), ev.data != [],
        if ev.name == [] && ev.data == [] then -1 else pos, done)
  }

  // ----- One frame -----

  lemma {:induction false} RunFields(c: Codec, f: seq<Item>, rest: seq<Item>, a: Acc)
    requires AllFields(f)
    ensures Run(c, f + rest, a) == Run(c, rest, Feed(a, f))
  {
    if f == [] {
      assert [] + rest == rest;
    } else {
      var x := f[0];
      assert f == [x] + f[1..];
      FeedFront(a, x, f[1..]);
      assert (f + rest)[0] == x && (f + rest)[1..] == f[1..] + rest;
      RunFields(c, f[1..], rest, FeedField(a, x.field, x.value, x.start));
    }
  }

  lemma FrameFieldsHold(ev: Event, pos: nat)
    ensures var f := FrameFields(ev, pos);
      && AllFields(f) && FrameName(f) == TrimCR(ev.name)
      && DataLines(f) == (if ev.data == [] then [] else Trimmed(Split(ev.data)))
      && FirstField(f) == if ev.name == [] && ev.data == [] then -1 else pos
  {
    hide Split, DataFields;
    var at := if ev.name == [] then pos else pos + |EVENT_PREFIX| + |ev.name| + 1;
    var data := if ev.data == [] then [] else DataFields(Split(ev.data), at);
    if ev.data != [] {
      DataFieldsHold(Split(ev.data), at);
      DataFieldsAreData(Split(ev.data), at);
    }
    if ev.name != [] { FrontField(Field(EVENT, TrimCR(ev.name), pos), data); } else { assert [] + data == data; }
    assert |EVENT| != |DATA|;
  }

  lemma {:induction false} DataFieldsAreData(ps: seq<Bytes>, pos: nat)
    ensures forall i :: 0 <= i < |DataFields(ps, pos)| ==> DataFields(ps, pos)[i].Field? && DataFields(ps, pos)[i].field == DATA
    ensures ps != [] ==> FirstField(DataFields(ps, pos)) == pos
  {
    if ps != [] { DataFieldsAreData(ps[1..], pos + |DATA_PREFIX| + |ps[0]| + 1); }
  }

  /** Reading one printed frame at `pos` gathers its fields and flushes them. */
  lemma RunFrame(c: Codec, b: Bytes, pos: nat, ev: Event, done: bool)
    requires LF !in ev.name && LineAt(b, pos, FrameBytes(ev))
    ensures var (a, evs) := Flush(c, Gathered(ev, pos, done));
            var o := Run(c, Items(b, pos + |FrameBytes(ev)|), a);
            Run(c, Items(b, pos), EMPTY.(done := done)) == Outcome(evs + o.events, o.acc)
  {
    hide Items, LineItems, FrameFields, Concat, FrameLines, Feed, Gathered, Split, Join, Flush;
    FrameLinesAreLines(ev);
    ItemsOfLines(b, pos, FrameLines(ev));
    FrameItems(ev, pos);
    FrameFieldsHold(ev, pos);
    var f, rest := FrameFields(ev, pos), Items(b, pos + |FrameBytes(ev)|);
    FeedHolds(EMPTY.(done := done), f);
    assert f + [Blank] + rest == f + ([Blank] + rest);
    RunFields(c, f, [Blank] + rest, EMPTY.(done := done));
    assert ([Blank] + rest)[1..] == rest;
    FedIsGathered(ev, pos, done);
  }

  lemma FedIsGathered(ev: Event, pos: nat, done: bool)
    ensures Feed(EMPTY.(done := done), FrameFields(ev, pos)) == Gathered(ev, pos, done)
  {
    hide FrameFields, Feed, Split;
    FrameFieldsHold(ev, pos);
    FeedHolds(EMPTY.(done := done), FrameFields(ev, pos));
    NoPieces();
  }

  lemma TrimmedSame(c: Codec, ev: Event)
    requires Printable(c, ev)
    ensures TrimCR(ev.name) == ev.name && Trimmed(Split(ev.data)) == Split(ev.data) && Join(Split(ev.data)) == ev.data
  {
    hide Split, Join;
    JoinSplit(ev.data);
    NoPieces();
    var ps := Split(ev.data);
    assert forall i :: 0 <= i < |ps| ==> TrimCR(ps[i]) == ps[i];
  }

  lemma NoPieces()
    ensures Split([]) == [[]] && TrimCR([]) == []
  {
  }

  lemma FlushPrintable(c: Codec, ev: Event, pos: nat, done: bool)
    requires Lawful(c) && Printable(c, ev)
    ensures Flush(c, Gathered(ev, pos, done)) ==
            (EMPTY.(done := done || Terminates(ev.name)), [ev.(offset := pos)])
  {
    TrimmedSame(c, ev);
  }

  // ----- Sequences -----

  function PrintAll(evs: seq<Event>): Bytes {
    if evs == [] then [] else FrameBytes(evs[0]) + PrintAll(evs[1..])
  }

  /** The events, each at the total length of the frames printed before it. */
  function Placed(evs: seq<Event>, pos: nat): seq<Event> {
    if evs == [] then []
    else [evs[0].(offset := pos)] + Placed(evs[1..], pos + |FrameBytes(evs[0])|)
  }

  predicate AnyTerminates(evs: seq<Event>) {
    exists i :: 0 <= i < |evs| && Terminates(evs[i].name)
  }

  lemma {:induction false} RunPrinted(c: Codec, b: Bytes, pos: nat, evs: seq<Event>, done: bool)
    requires Lawful(c) && forall i :: 0 <= i < |evs| ==> Printable(c, evs[i])
    requires LineAt(b, pos, PrintAll(evs)) && pos + |PrintAll(evs)| == |b|
    ensures Run(c, Items(b, pos), EMPTY.(done := done))
         == Outcome(Placed(evs, pos), EMPTY.(done := done || AnyTerminates(evs)))
    decreases |evs|
  {
    hide FrameBytes, Items, Printable, Terminates, Run, Flush, Gathered, AnyTerminates;
    if evs == [] {
      RunAtEnd(c, b, EMPTY.(done := done));
      NoneTerminates();
    } else {
      var ev, next := evs[0], pos + |FrameBytes(evs[0])|;
      var d := done || Terminates(ev.name);
      SplitLine(b, pos, FrameBytes(ev), PrintAll(evs[1..]));
      NoLFInPrintable(c, ev);
      RunFrame(c, b, pos, ev, done);
      FlushPrintable(c, ev, pos, done);
      RunPrinted(c, b, next, evs[1..], d);
      AnyFront(evs);
    }
  }

  lemma NoLFInPrintable(c: Codec, ev: Event)
    requires Printable(c, ev)
    ensures LF !in ev.name
  {
  }

  lemma NoneTerminates()
    ensures !AnyTerminates([])
  {
  }

  lemma AnyFront(evs: seq<Event>)
    requires evs != []
    ensures AnyTerminates(evs) <==> Terminates(evs[0].name) || AnyTerminates(evs[1..])
  {
    if i :| 0 <= i < |evs[1..]| && Terminates(evs[1..][i].name) { assert evs[i + 1] == evs[1..][i]; }
    if i :| 0 <= i < |evs| && Terminates(evs[i].name) { assert i > 0 ==> evs[1..][i - 1] == evs[i]; }
  }

  /** Reading back any sequence of printable events gives the same names and data in the
      same order, each at the total length of the earlier frames. */
  lemma PrintThenRead(c: Codec, evs: seq<Event>)
    requires Lawful(c) && forall i :: 0 <= i < |evs| ==> Printable(c, evs[i])
    ensures ReadAll(c, PrintAll(evs)) == Outcome(Placed(evs, 0), EMPTY.(done := AnyTerminates(evs)))
  {
    var b := PrintAll(evs);
    assert b[0..0 + |b|] == b;
    RunPrinted(c, b, 0, evs, false);
    var o := Run(c, Items(b, 0), EMPTY);
    assert EMPTY == EMPTY.(done := false);
    assert Flush(c, o.acc) == (o.acc, []);
    assert o.events + [] == o.events;
  }

  // ----- The words of the wire -----

  /** ASCII text as bytes. */
  function Ascii(s: string): Bytes {
    seq(|s|, i requires 0 <= i < |s| => (s[i] as int % 128) as byte)
  }

  lemma Words()
    ensures EVENT == Ascii("event") && DATA == Ascii("data") && DONE == Ascii("[DONE]")
    ensures EVENT_PREFIX == Ascii("event: ") && DATA_PREFIX == Ascii("data: ") && [LF] == Ascii("\n") && [CR] == Ascii("\r")
  {
  }

  lemma EndWords()
    ensures RESPONSE_COMPLETED == Ascii("response.completed") && MESSAGE_STOP == Ascii("message_stop")
  {
  }

  /** A printed stream is seen to end exactly when one of its events has a terminator's name. */
  lemma EndsByName(c: Codec, evs: seq<Event>)
    requires Lawful(c) && forall i :: 0 <= i < |evs| ==> Printable(c, evs[i])
    ensures ReadAll(c, PrintAll(evs)).acc.done <==>
      exists i :: 0 <= i < |evs| && (evs[i].name == Ascii("response.completed") || evs[i].name == Ascii("message_stop"))
  {
    hide Printable, ReadAll, PrintAll, Terminates, Ascii;
    PrintThenRead(c, evs);
    forall i | 0 <= i < |evs|
      ensures Terminates(evs[i].name) <==>
              evs[i].name == Ascii("response.completed") || evs[i].name == Ascii("message_stop")
    {
      TerminatorWords(evs[i].name);
    }
  }

  lemma TerminatorWords(name: Bytes)
    ensures Terminates(name) <==> name == Ascii("response.completed") || name == Ascii("message_stop")
  {
    EndWords();
    hide Ascii;
  }

  lemma AsciiConcat(a: string, b: string)
    ensures Ascii(a + b) == Ascii(a) + Ascii(b)
  {
  }

  lemma {:induction false} OnePiece(d: Bytes)
    requires LF !in d
    ensures Split(d) == [d]
  {
    if d != [] {
      OnePiece(d[..|d| - 1]);
      assert d == d[..|d| - 1] + [d[|d| - 1]];
      assert Split(d)[..0] == [];
    }
  }

  /** The chat sentinel is no event, and ends the stream. */
  lemma SentinelEnds(c: Codec)
    ensures ReadAll(c, Ascii("data: [DONE]\n\n")) == Outcome([], EMPTY.(done := true))
  {
    Words();
    var ev := Event([], DONE, 0);
    OnePiece(DONE);
    SentinelBytes();
    hide FrameBytes, Items, Split;
    var b := FrameBytes(ev);
    assert b[0..0 + |b|] == b;
    RunFrame(c, b, 0, ev, false);
    SentinelGathered();
    assert Flush(c, Gathered(ev, 0, false)) == (EMPTY.(done := true), []);
    RunAtEnd(c, b, EMPTY.(done := true));
    assert EMPTY == EMPTY.(done := false);
  }

  lemma SentinelGathered()
    requires Split(DONE) == [DONE]
    ensures Gathered(Event([], DONE, 0), 0, false) == Acc([], DONE, true, 0, false)
  {
    assert TrimCR(DONE) == DONE && Trimmed([DONE]) == [DONE];
  }

  lemma SentinelBytes()
    requires Split(DONE) == [DONE]
    ensures FrameBytes(Event([], DONE, 0)) == Ascii("data: [DONE]\n\n")
  {
    hide Ascii, FrameBytes;
    OneDataFrame(DONE);
    SentinelText();
  }

  lemma OneDataFrame(piece: Bytes)
    requires piece != [] && Split(piece) == [piece]
    ensures FrameBytes(Event([], piece, 0)) == DATA_PREFIX + piece + [LF] + [LF]
  {
    hide Split;
    var line := DATA_PREFIX + piece + [LF];
    assert [piece][1..] == [] && DataOut([]) == [];
    assert DataOut([piece]) == [line] + [] == [line];
    var lines := [line, [LF]];
    assert [] + [line] + [[LF]] == lines;
    assert FrameLines(Event([], piece, 0)) == lines;
    assert lines[1..] == [[LF]] && [[LF]][1..] == [];
    assert Concat([[LF]]) == [LF] + [] == [LF];
  }

  lemma SentinelText()
    ensures DATA_PREFIX + DONE + [LF] + [LF] == Ascii("data: [DONE]\n\n")
  {
    Words();
    hide Ascii;
    AsciiConcat("data: ", "[DONE]");
    AsciiConcat("data: " + "[DONE]", "\n");
    AsciiConcat("data: " + "[DONE]" + "\n", "\n");
    assert "data: " + "[DONE]" + "\n" + "\n" == "data: [DONE]\n\n";
  }

  // ----- Exactly the printable events survive -----

  lemma OneFrame(c: Codec, ev: Event)
    requires LF !in ev.name
    ensures ReadAll(c, FrameBytes(ev)).events == Flush(c, Gathered(ev, 0, false)).1
  {
    hide FrameBytes, Items, Gathered;
    var b := FrameBytes(ev);
    assert b[0..0 + |b|] == b;
    RunFrame(c, b, 0, ev, false);
    var (a, evs) := Flush(c, Gathered(ev, 0, false));
    RunAtEnd(c, b, a);
    FlushTwice(c, Gathered(ev, 0, false));
    assert EMPTY == EMPTY.(done := false);
    assert evs + [] + [] == evs;
  }

  /** Nothing the readers return has an LF in its name, or data that is not JSON. */
  ghost predicate Readable(c: Codec, ev: Event) {
    LF !in ev.name && (ev.data == [] || c.valid(ev.data))
  }

  ghost predicate CleanItem(x: Item) {
    x.Field? ==> LF !in x.value
  }

  lemma ItemIsClean(b: Bytes, pos: nat)
    requires pos < |b|
    ensures CleanItem(ItemOf(b[pos..LineEnd(b, pos)], pos))
  {
    var line := b[pos..LineEnd(b, pos)];
    assert forall i :: 0 <= i < |line| - 1 ==> line[i] == b[pos + i] != LF;
    var t := TrimLF(line);
    assert LF !in t;
    assert forall x :: x in Trim(line) ==> x in t;
  }

  lemma {:induction false} ItemsAreClean(b: Bytes, pos: nat)
    requires pos <= |b|
    ensures forall i :: 0 <= i < |Items(b, pos)| ==> CleanItem(Items(b, pos)[i])
    decreases |b| - pos
  {
    if pos < |b| {
      ItemIsClean(b, pos);
      ItemsAreClean(b, LineEnd(b, pos));
    }
  }

  lemma {:induction false} RunIsReadable(c: Codec, items: seq<Item>, a: Acc)
    requires Lawful(c) && LF !in a.name && forall i :: 0 <= i < |items| ==> CleanItem(items[i])
    ensures var o := Run(c, items, a);
            LF !in o.acc.name && forall i :: 0 <= i < |o.events| ==> Readable(c, o.events[i])
  {
    if items != [] {
      match items[0]
      case Ignored => RunIsReadable(c, items[1..], a);
      case Field(f, v, s) => RunIsReadable(c, items[1..], FeedField(a, f, v, s));
      case Blank => RunIsReadable(c, items[1..], Flush(c, a).0);
    }
  }

  lemma ReadAllIsReadable(c: Codec, b: Bytes, i: nat)
    requires Lawful(c) && i < |ReadAll(c, b).events|
    ensures Readable(c, ReadAll(c, b).events[i])
  {
    ItemsAreClean(b, 0);
    RunIsReadable(c, Items(b, 0), EMPTY);
  }

  lemma {:induction false} JoinLength(ps: seq<Bytes>)
    ensures |Join(Trimmed(ps))| <= |Join(ps)|
    ensures (exists i :: 0 <= i < |ps| && EndsInCR(ps[i])) ==> |Join(Trimmed(ps))| < |Join(ps)| && CR in Join(ps)
  {
    if ps != [] {
      var init, last := ps[..|ps| - 1], ps[|ps| - 1];
      JoinLength(init);
      assert ps == init + [last];
      assert Trimmed(ps) == Trimmed(init) + [TrimCR(last)];
      JoinAppend(init, last);
      JoinAppend(Trimmed(init), TrimCR(last));
      if i :| 0 <= i < |ps| && EndsInCR(ps[i]) {
        if i < |init| { assert EndsInCR(init[i]); } else { assert last[|last| - 1] == CR; }
      }
    }
  }

  /** An event read back from its own frame is unchanged exactly when it is printable: it has
      a name or data, the name has no LF and does not end in CR, and the data is JSON no
      line of which ends in CR. */
  lemma ReadsBackIff(c: Codec, ev: Event)
    requires Lawful(c)
    ensures ReadAll(c, FrameBytes(ev)).events == [ev.(offset := 0)] <==> Printable(c, ev)
  {
    var evs := ReadAll(c, FrameBytes(ev)).events;
    if LF in ev.name {
      if |evs| > 0 { ReadAllIsReadable(c, FrameBytes(ev), 0); }
    } else {
      OneFrame(c, ev);
      if Printable(c, ev) {
        FlushPrintable(c, ev, 0, false);
      } else {
        UnprintableChanges(c, ev);
      }
    }
  }

  lemma UnprintableChanges(c: Codec, ev: Event)
    requires Lawful(c) && LF !in ev.name && !Printable(c, ev)
    ensures Flush(c, Gathered(ev, 0, false)).1 != [ev.(offset := 0)]
  {
    hide Split, Join;
    if ev.data != [] && !EndsInCR(ev.name) {
      var ps := Split(ev.data);
      JoinLength(ps);
      JoinSplit(ev.data);
      if forall i :: 0 <= i < |ps| ==> !EndsInCR(ps[i]) { NothingTrimmed(ps); }
    }
  }

  lemma NothingTrimmed(ps: seq<Bytes>)
    requires forall i :: 0 <= i < |ps| ==> !EndsInCR(ps[i])
    ensures Trimmed(ps) == ps
  {
  }

  // ----- A misdated event -----

  const ID: Bytes := [105, 100]
  const ONE: Bytes := [49]
  const ID_LINE := ID + [COLON, SPACE] + ONE + [LF]
  const DATA_LINE := DATA + [COLON, SPACE] + ONE + [LF]

  /** An `id:` frame before a data frame, both with their blank line. */
  const ID_THEN_DATA := [ID_LINE, [LF], DATA_LINE, [LF]]

  lemma TwoFrames()
    ensures var b := Concat(ID_THEN_DATA);
            Items(b, 0) == [Field(ID, ONE, 0), Blank, Field(DATA, ONE, 7), Blank]
  {
    hide Items, ItemOf, LineItems;
    var lines := ID_THEN_DATA;
    var b := Concat(lines);
    assert AllLines(lines);
    assert b[0..|b|] == b;
    ItemsOfLines(b, 0, lines);
    AtTheEnd(b);
    FieldLine(ID, ONE, 0);
    FieldLine(DATA, ONE, 7);
    BlankItem(6);
    BlankItem(15);
    LineItemsCons(ID_LINE, [[LF], DATA_LINE, [LF]], 0);
    LineItemsCons([LF], [DATA_LINE, [LF]], 6);
    LineItemsCons(DATA_LINE, [[LF]], 7);
    LineItemsCons([LF], [], 15);
    NoLines(16);
    assert [ID_LINE] + [[LF], DATA_LINE, [LF]] == lines;
    assert [[LF]] + [DATA_LINE, [LF]] == [[LF], DATA_LINE, [LF]];
    assert [DATA_LINE] + [[LF]] == [DATA_LINE, [LF]];
    assert TrimCR(ONE) == ONE && |ID_LINE| == 6 && |DATA_LINE| == 8;
    assert 0 + |Concat(lines)| == |b| && Items(b, 0) == LineItems(lines, 0) + [];
    assert LineItems([[LF]], 15) == [Blank] + [] by { assert [[LF]] + [] == [[LF]]; }
    assert LineItems([DATA_LINE, [LF]], 7) == [Field(DATA, ONE, 7)] + [Blank];
    assert LineItems([[LF], DATA_LINE, [LF]], 6) == [Blank] + [Field(DATA, ONE, 7), Blank];
    assert LineItems(lines, 0) == [Field(ID, ONE, 0)] + [Blank, Field(DATA, ONE, 7), Blank];
  }

  lemma AtTheEnd(b: Bytes)
    ensures Items(b, |b|) == []
  {
  }

  lemma FrameCons(x: Item, items: seq<Item>)
    ensures var rest := Frames(items);
            Frames([x] + items) == match x
                                   case Blank => [[]] + rest
                                   case Ignored => rest
                                   case Field(_, _, _) => [[x] + rest[0]] + rest[1..]
  {
    assert ([x] + items)[1..] == items;
  }

  /** The offset of the data event is the position of the `id:` line, seven bytes before its
      own first field line, where the documentation puts it. */
  lemma SilentFrameMisdates(c: Codec)
    ensures var b := Concat(ID_THEN_DATA);
            && Misdates(c, Frames(Items(b, 0)), 0, 1)
            && ReadAll(c, b).events != DecodeDocumented(c, Frames(Items(b, 0)))
  {
    hide Items, Frames;
    TwoFrames();
    var id, data := Field(ID, ONE, 0), Field(DATA, ONE, 7);
    var b := Concat(ID_THEN_DATA);
    FrameCons(Blank, []);
    FrameCons(data, [Blank]);
    FrameCons(Blank, [data, Blank]);
    FrameCons(id, [Blank, data, Blank]);
    NoFrames();
    assert [Blank] + [] == [Blank] && [data] + [Blank] == [data, Blank];
    assert [Blank] + [data, Blank] == [Blank, data, Blank];
    assert [id] + [Blank, data, Blank] == Items(b, 0);
    assert [data] + [] == [data] && [id] + [] == [id];
    assert Frames([Blank]) == [[], []];
    assert Frames([data, Blank]) == [[data], []];
    assert Frames([Blank, data, Blank]) == [[], [data], []];
    assert Frames([id, Blank, data, Blank]) == [[id], [data], []];
    FrameVerdicts(c, id, data);
    assert Misdates(c, Frames(Items(b, 0)), 0, 1);
    OffsetsAsDocumented(c, b);
  }

  lemma NoFrames()
    ensures Frames([]) == [[]]
  {
  }

  lemma FrameVerdicts(c: Codec, id: Item, data: Item)
    requires id == Field(ID, ONE, 0) && data == Field(DATA, ONE, 7)
    ensures Meaning(c, [id]).Silent? && Meaning(c, [data]).Emits?
  {
    assert [id][..0] == [] && [data][..0] == [];
    assert |ID| != |EVENT| && |ID| != |DATA| && |DATA| != |EVENT| && |ONE| != |DONE|;
    assert FrameName([]) == [] && DataLines([]) == [];
    assert DataLines([data]) == [] + [ONE] == [ONE];
  }
}
