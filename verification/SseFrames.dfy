/** What an event stream means, frame by frame, and that both readers return exactly that. */
module SseFrames {
  import opened Wrappers
  import opened Lines
  import opened Sse

  // ----- Scanner against Parse -----

  /** Draining a scanner. Without a read error it returns what Parse returns; with one it
      misses just the pending frame that Parse still flushes. */
  method ScanAll(c: Codec, b: Bytes, failed: bool) returns (events: seq<Event>, streamDone: bool)
    ensures !failed ==> events == ReadAll(c, b).events && streamDone == ReadAll(c, b).acc.done
    ensures failed ==> events + Flush(c, Run(c, Items(b, 0), EMPTY).acc).1 == ReadAll(c, b).events
  {
    hide Run, Items, Flush, Scanner.Remaining, Scanner.FinallyDone;
    var s := new Scanner(c, b, failed);
    ghost var all, done := s.Remaining(), s.FinallyDone();
    events := [];
    var more := true;
    while more
      invariant fresh(s) && s.Valid() && s.FinallyDone() == done
      invariant events + s.Remaining() == all
      invariant !more ==> s.Remaining() == [] && s.streamDone == done
      decreases |s.Remaining()|, more
    {
      ghost var rest := s.Remaining();
      var r := s.Next();
      if r.Got? {
        assert rest == [r.ev] + s.Remaining();
        Associative(events, [r.ev], s.Remaining());
        events := events + [r.ev];
      } else {
        more := false;
      }
    }
    streamDone := s.streamDone;
  }

  // ----- Frames -----

  /** The fields between blank lines. The last frame is what the input ends with. */
  function Frames(items: seq<Item>): (fs: seq<seq<Item>>)
    ensures |fs| > 0
  {
    if items == [] then [[]]
    else
      var rest := Frames(items[1..]);
      match items[0]
      case Blank => [[]] + rest
      case Ignored => rest
      case Field(_, _, _) => [[items[0]] + rest[0]] + rest[1..]
  }

  predicate AllFields(f: seq<Item>) {
    forall i :: 0 <= i < |f| ==> f[i].Field?
  }

  /** The value of the last `event` field. */
  function FrameName(f: seq<Item>): Bytes {
    if f == [] then []
    else if f[|f| - 1].Field? && f[|f| - 1].field == EVENT then f[|f| - 1].value
    else FrameName(f[..|f| - 1])
  }

  /** The values of the `data` fields, in order. */
  function DataLines(f: seq<Item>): seq<Bytes> {
    if f == [] then []
    else DataLines(f[..|f| - 1]) + if f[|f| - 1].Field? && f[|f| - 1].field == DATA then [f[|f| - 1].value] else []
  }

  function Join(parts: seq<Bytes>): Bytes {
    if parts == [] then []
    else if |parts| == 1 then parts[0]
    else Join(parts[..|parts| - 1]) + [LF] + parts[|parts| - 1]
  }

  datatype Verdict = Silent | Sentinel | Emits(name: Bytes, data: Bytes)

  /** What a frame stands for: nothing at all, the chat sentinel, or an event. */
  function Meaning(c: Codec, f: seq<Item>): Verdict {
    var name, data := FrameName(f), Join(DataLines(f));
    if DataLines(f) == [] && name == [] then Silent
    else if name == [] && data == DONE then Sentinel
    else Emits(name, Payload(c, data))
  }

  /** The documented offset of a frame's event: where its first field line starts. */
  function FirstField(f: seq<Item>): int {
    if f != [] && f[0].Field? then f[0].start else -1
  }

  /** The events of a list of frames. `carry` is the start of the first field since the last
      event or sentinel: a silent frame hands its own on to the next. */
  function Decode(c: Codec, fs: seq<seq<Item>>, carry: int): seq<Event> {
    if fs == [] then []
    else
      var start := if carry == -1 then FirstField(fs[0]) else carry;
      match Meaning(c, fs[0])
      case Silent => Decode(c, fs[1..], start)
      case Sentinel => Decode(c, fs[1..], -1)
      case Emits(name, data) => [Event(name, data, start)] + Decode(c, fs[1..], -1)
  }

  /** As documented: every event carries its own frame's first field line. */
  function DecodeDocumented(c: Codec, fs: seq<seq<Item>>): seq<Event> {
    if fs == [] then []
    else
      match Meaning(c, fs[0])
      case Emits(name, data) => [Event(name, data, FirstField(fs[0]))] + DecodeDocumented(c, fs[1..])
      case _ => DecodeDocumented(c, fs[1..])
  }

  predicate StreamEnds(c: Codec, fs: seq<seq<Item>>) {
    exists i :: 0 <= i < |fs| && var m := Meaning(c, fs[i]); m.Sentinel? || (m.Emits? && Terminates(m.name))
  }

  // ----- The accumulator holds the frame so far -----

  function Feed(a: Acc, f: seq<Item>): Acc {
    if f == [] then a
    else
      var a' := Feed(a, f[..|f| - 1]);
      match f[|f| - 1]
      case Field(field, value, start) => FeedField(a', field, value, start)
      case _ => a'
  }

  /** Between frames: nothing accumulated but, after a silent frame, a start offset. */
  predicate Fresh(a: Acc) {
    a.name == [] && a.data == [] && !a.hasData
  }

  lemma JoinAppend(parts: seq<Bytes>, v: Bytes)
    ensures Join(parts + [v]) == (if parts == [] then [] else Join(parts) + [LF]) + v
  {
    assert (parts + [v])[..|parts|] == parts;
    assert [] + v == v;
  }

  lemma {:induction false} FeedHolds(a: Acc, f: seq<Item>)
    requires Fresh(a) && AllFields(f)
    ensures var r := Feed(a, f);
      && r.name == FrameName(f) && r.data == Join(DataLines(f)) && (r.hasData <==> DataLines(f) != [])
      && r.start == (if a.start == -1 then FirstField(f) else a.start) && r.done == a.done
  {
    if f != [] {
      var init, last := f[..|f| - 1], f[|f| - 1];
      FeedHolds(a, init);
      assert |EVENT| != |DATA|;
      if last.field == DATA {
        JoinAppend(DataLines(init), last.value);
      } else {
        assert DataLines(init) + [] == DataLines(init);
      }
    }
  }

  lemma {:induction false} FeedFront(a: Acc, x: Item, f: seq<Item>)
    requires x.Field?
    ensures Feed(a, [x] + f) == Feed(FeedField(a, x.field, x.value, x.start), f)
  {
    if f == [] {
      assert ([x] + f)[..0] == [];
      assert Feed(a, []) == a;
    } else {
      FeedFront(a, x, f[..|f| - 1]);
      assert ([x] + f)[..|f|] == [x] + f[..|f| - 1];
    }
  }

  /** Reading items is feeding and flushing frame by frame, the last one flushed at EOF. */
  function RunFrames(c: Codec, fs: seq<seq<Item>>, a: Acc): Outcome {
    if fs == [] then Outcome([], a)
    else
      var (a', evs) := Flush(c, Feed(a, fs[0]));
      var o := RunFrames(c, fs[1..], a');
      Outcome(evs + o.events, o.acc)
  }

  lemma {:induction false} RunIsRunFrames(c: Codec, items: seq<Item>, a: Acc)
    ensures var o := Run(c, items, a);
            var (a', evs) := Flush(c, o.acc);
            Outcome(o.events + evs, a') == RunFrames(c, Frames(items), a)
  {
    if items == [] {
      assert Frames(items)[1..] == [];
      var (a', evs) := Flush(c, a);
      assert evs + [] == evs;
    } else {
      var rest := Frames(items[1..]);
      match items[0]
      case Ignored => RunIsRunFrames(c, items[1..], a);
      case Blank =>
        var (a', evs) := Flush(c, a);
        RunIsRunFrames(c, items[1..], a');
        assert ([[]] + rest)[1..] == rest;
        var o := Run(c, items[1..], a');
        Associative(evs, o.events, Flush(c, o.acc).1);
      case Field(f, v, s) =>
        RunIsRunFrames(c, items[1..], FeedField(a, f, v, s));
        FeedFront(a, items[0], rest[0]);
        var fs := [[items[0]] + rest[0]] + rest[1..];
        assert fs[0] == [items[0]] + rest[0] && fs[1..] == rest[1..];
    }
  }

  lemma {:induction false} FramesHoldFields(items: seq<Item>)
    ensures forall i :: 0 <= i < |Frames(items)| ==> AllFields(Frames(items)[i])
  {
    if items != [] { FramesHoldFields(items[1..]); }
  }

  lemma {:induction false} RunFramesDecodes(c: Codec, fs: seq<seq<Item>>, a: Acc)
    requires Fresh(a) && forall i :: 0 <= i < |fs| ==> AllFields(fs[i])
    ensures RunFrames(c, fs, a).events == Decode(c, fs, a.start)
    ensures RunFrames(c, fs, a).acc.done <==> a.done || StreamEnds(c, fs)
  {
    if fs != [] {
      FeedHolds(a, fs[0]);
      var fed := Feed(a, fs[0]);
      var (a', evs) := Flush(c, fed);
      if DataLines(fs[0]) == [] { assert fed.data == []; }
      RunFramesDecodes(c, fs[1..], a');
      EndsFront(c, fs);
    }
  }

  lemma EndsFront(c: Codec, fs: seq<seq<Item>>)
    requires fs != []
    ensures StreamEnds(c, fs) <==>
      StreamEnds(c, fs[1..]) || Meaning(c, fs[0]).Sentinel?
      || (Meaning(c, fs[0]).Emits? && Terminates(Meaning(c, fs[0]).name))
  {
    if StreamEnds(c, fs[1..]) {
      var i :| 0 <= i < |fs[1..]| && var m := Meaning(c, fs[1..][i]); m.Sentinel? || (m.Emits? && Terminates(m.name));
      assert fs[i + 1] == fs[1..][i];
    }
    if StreamEnds(c, fs) {
      var i :| 0 <= i < |fs| && var m := Meaning(c, fs[i]); m.Sentinel? || (m.Emits? && Terminates(m.name));
      if i > 0 { assert fs[1..][i - 1] == fs[i]; }
    }
  }

  /** What Parse and Scanner return is what the frames of the input mean: one event per
      frame with a name or data, in order; done exactly when a sentinel or a terminator
      name was seen. */
  lemma ReadAllDecodesFrames(c: Codec, b: Bytes)
    ensures ReadAll(c, b).events == Decode(c, Frames(Items(b, 0)), -1)
    ensures ReadAll(c, b).acc.done <==> StreamEnds(c, Frames(Items(b, 0)))
  {
    RunIsRunFrames(c, Items(b, 0), EMPTY);
    FramesHoldFields(Items(b, 0));
    RunFramesDecodes(c, Frames(Items(b, 0)), EMPTY);
  }

  // ----- Offsets -----

  /** First field lines of the frames rise from `lo` on and stay below `hi`. */
  ghost predicate Rising(fs: seq<seq<Item>>, lo: int, hi: int) {
    fs == []
    || (FirstField(fs[0]) == -1 && Rising(fs[1..], lo, hi))
    || (lo <= FirstField(fs[0]) < hi && Rising(fs[1..], FirstField(fs[0]) + 1, hi))
  }

  lemma {:induction false} RisingFrom(fs: seq<seq<Item>>, lo: int, less: int, hi: int)
    requires less <= lo && Rising(fs, lo, hi)
    ensures Rising(fs, less, hi)
  {
    if fs != [] && FirstField(fs[0]) == -1 && Rising(fs[1..], lo, hi) { RisingFrom(fs[1..], lo, less, hi); }
  }

  lemma RisingField(x: Item, rest: seq<seq<Item>>, lo: nat, hi: int)
    requires x.Field? && lo <= x.start < hi && rest != [] && Rising(rest, x.start + 1, hi)
    ensures Rising([[x] + rest[0]] + rest[1..], lo, hi)
  {
    var fs := [[x] + rest[0]] + rest[1..];
    assert fs[0] == [x] + rest[0] && fs[1..] == rest[1..];
    if FirstField(rest[0]) != -1 { RisingFrom(rest[1..], FirstField(rest[0]) + 1, x.start + 1, hi); }
  }

  lemma {:induction false} FramesRise(b: Bytes, pos: nat)
    requires pos <= |b|
    ensures Rising(Frames(Items(b, pos)), pos, |b|)
    decreases |b| - pos
  {
    hide Rising, LineEnd, ItemOf;
    if pos < |b| {
      var e := LineEnd(b, pos);
      var items, x := Items(b, pos), ItemOf(b[pos..e], pos);
      assert items[0] == x && items[1..] == Items(b, e);
      FramesRise(b, e);
      var rest := Frames(Items(b, e));
      match x
      case Ignored => RisingFrom(rest, e, pos, |b|);
      case Blank => RisingFrom(rest, e, pos, |b|); RisingBlank(rest, pos, |b|);
      case Field(_, _, _) => ItemStart(b[pos..e], pos); RisingFrom(rest, e, pos + 1, |b|); RisingField(x, rest, pos, |b|);
    } else {
      RisingNone(pos, |b|);
    }
  }

  lemma ItemStart(line: Bytes, start: nat)
    ensures ItemOf(line, start).Field? ==> ItemOf(line, start).start == start
  {
  }

  lemma RisingBlank(rest: seq<seq<Item>>, lo: int, hi: int)
    requires Rising(rest, lo, hi)
    ensures Rising([[]] + rest, lo, hi)
  {
    assert ([[]] + rest)[1..] == rest;
  }

  lemma RisingNone(lo: int, hi: int)
    ensures Rising([[]], lo, hi)
  {
  }

  predicate Ascending(evs: seq<Event>, lo: int, hi: int) {
    && (forall i :: 0 <= i < |evs| ==> lo <= evs[i].offset < hi)
    && (forall i, j :: 0 <= i < j < |evs| ==> evs[i].offset < evs[j].offset)
  }

  /** The first field of a frame that means something is there. */
  lemma {:induction false} MeaningNeedsField(c: Codec, f: seq<Item>)
    requires AllFields(f) && !Meaning(c, f).Silent?
    ensures FirstField(f) != -1
  {
  }

  lemma {:induction false} DecodeAscends(c: Codec, fs: seq<seq<Item>>, carry: int, lo: int, hi: int)
    requires Rising(fs, lo, hi) && (forall i :: 0 <= i < |fs| ==> AllFields(fs[i]))
    requires carry == -1 || 0 <= carry < lo
    requires 0 <= lo && carry < hi
    ensures Ascending(Decode(c, fs, carry), if carry == -1 then lo else carry, hi)
  {
    hide Meaning, FirstField;
    if fs != [] {
      var first := FirstField(fs[0]);
      var next := if first == -1 then lo else first + 1;
      var start := if carry == -1 then first else carry;
      if Meaning(c, fs[0]).Silent? {
        DecodeAscends(c, fs[1..], start, next, hi);
      } else {
        MeaningNeedsField(c, fs[0]);
        DecodeAscends(c, fs[1..], -1, next, hi);
      }
    }
  }

  /** Event offsets rise strictly and stay inside the input. */
  lemma OffsetsAscend(c: Codec, b: Bytes)
    ensures Ascending(ReadAll(c, b).events, 0, |b|)
  {
    ReadAllDecodesFrames(c, b);
    FramesHoldFields(Items(b, 0));
    FramesRise(b, 0);
    if b != [] { DecodeAscends(c, Frames(Items(b, 0)), -1, 0, |b|); }
  }

  /** Frame `i` has field lines but neither name nor data, and the next frame that is not
      like it is the event frame `j`. */
  predicate Misdates(c: Codec, fs: seq<seq<Item>>, i: int, j: int) {
    && 0 <= i < j < |fs|
    && fs[i] != [] && Meaning(c, fs[i]).Silent? && Meaning(c, fs[j]).Emits?
    && forall k :: i < k < j ==> Meaning(c, fs[k]).Silent?
  }

  /** Event frame `j` comes after silent frames only. */
  predicate FirstEmit(c: Codec, fs: seq<seq<Item>>, j: int) {
    0 <= j < |fs| && Meaning(c, fs[j]).Emits? && forall k :: 0 <= k < j ==> Meaning(c, fs[k]).Silent?
  }

  /** No frame is misdated, and no silent frame before `fs` misdates one of them. */
  ghost predicate WellDated(c: Codec, fs: seq<seq<Item>>, carry: int) {
    (forall i, j :: !Misdates(c, fs, i, j)) && (carry != -1 ==> forall j :: !FirstEmit(c, fs, j))
  }

  lemma WellDatedFront(c: Codec, fs: seq<seq<Item>>, carry: int)
    requires fs != [] && AllFields(fs[0])
    ensures Meaning(c, fs[0]).Silent? ==>
      (WellDated(c, fs, carry) <==> WellDated(c, fs[1..], if carry == -1 then FirstField(fs[0]) else carry))
    ensures Meaning(c, fs[0]).Sentinel? ==> (WellDated(c, fs, carry) <==> WellDated(c, fs[1..], -1))
    ensures Meaning(c, fs[0]).Emits? ==> (WellDated(c, fs, carry) <==> carry == -1 && WellDated(c, fs[1..], -1))
  {
    hide Meaning, Misdates, FirstEmit;
    MisdatesFront(c, fs);
    assert fs[0] != [] <==> FirstField(fs[0]) != -1;
  }

  lemma {:induction false} DecodeAsDocumented(c: Codec, fs: seq<seq<Item>>, carry: int, lo: int, hi: int)
    requires Rising(fs, lo, hi) && (forall i :: 0 <= i < |fs| ==> AllFields(fs[i]))
    requires carry == -1 || 0 <= carry < lo
    requires 0 <= lo && carry < hi
    ensures Decode(c, fs, carry) == DecodeDocumented(c, fs) <==> WellDated(c, fs, carry)
  {
    hide Meaning, WellDated;
    if fs == [] {
      NoFramesWellDated(c, carry);
    } else {
      var first := FirstField(fs[0]);
      var next := if first == -1 then lo else first + 1;
      WellDatedFront(c, fs, carry);
      match Meaning(c, fs[0])
      case Silent => DecodeAsDocumented(c, fs[1..], if carry == -1 then first else carry, next, hi);
      case Sentinel =>
        MeaningNeedsField(c, fs[0]);
        DecodeAsDocumented(c, fs[1..], -1, next, hi);
      case Emits(name, data) =>
        MeaningNeedsField(c, fs[0]);
        DecodeAsDocumented(c, fs[1..], -1, next, hi);
        HeadAndTail(Event(name, data, if carry == -1 then first else carry), Event(name, data, first),
                    Decode(c, fs[1..], -1), DecodeDocumented(c, fs[1..]));
    }
  }

  lemma NoFramesWellDated(c: Codec, carry: int)
    ensures WellDated(c, [], carry)
  {
  }

  lemma HeadAndTail(x: Event, y: Event, xs: seq<Event>, ys: seq<Event>)
    ensures [x] + xs == [y] + ys <==> x == y && xs == ys
  {
    if [x] + xs == [y] + ys {
      assert ([x] + xs)[0] == ([y] + ys)[0];
      assert ([x] + xs)[1..] == ([y] + ys)[1..];
    }
  }

  lemma MisdatesFront(c: Codec, fs: seq<seq<Item>>)
    requires fs != []
    ensures (exists i, j :: Misdates(c, fs, i, j))
       <==> (exists i, j :: Misdates(c, fs[1..], i, j))
            || (fs[0] != [] && Meaning(c, fs[0]).Silent? && exists j :: FirstEmit(c, fs[1..], j))
    ensures (exists j :: FirstEmit(c, fs, j))
       <==> Meaning(c, fs[0]).Emits? || (Meaning(c, fs[0]).Silent? && exists j :: FirstEmit(c, fs[1..], j))
  {
    hide Meaning;
    var r := fs[1..];
    assert forall k :: 0 <= k < |r| ==> r[k] == fs[k + 1];
    if i, j :| Misdates(c, fs, i, j) {
      assert forall k :: 0 < k < |fs| ==> fs[k] == r[k - 1];
      if i > 0 { assert Misdates(c, r, i - 1, j - 1); } else { assert FirstEmit(c, r, j - 1); }
    }
    if i, j :| Misdates(c, r, i, j) {
      forall k | i + 1 < k < j + 1 ensures Meaning(c, fs[k]).Silent? { assert r[k - 1] == fs[k]; }
      assert Misdates(c, fs, i + 1, j + 1);
    }
    if j :| FirstEmit(c, r, j) {
      forall k | 0 < k < j + 1 ensures Meaning(c, fs[k]).Silent? { assert r[k - 1] == fs[k]; }
      if Meaning(c, fs[0]).Silent? {
        if fs[0] != [] { assert Misdates(c, fs, 0, j + 1); }
        assert FirstEmit(c, fs, j + 1);
      }
    }
    if j :| FirstEmit(c, fs, j) {
      if j == 0 { } else {
        forall k | 0 <= k < j - 1 ensures Meaning(c, r[k]).Silent? { assert r[k] == fs[k + 1]; }
        assert FirstEmit(c, r, j - 1);
      }
    }
    if Meaning(c, fs[0]).Emits? { assert FirstEmit(c, fs, 0); }
  }

  /** The documented offset, the position of the event's own first field line, is what the
      readers record for every event exactly when no silent frame with field lines (an
      `id:` or `retry:` frame, say) comes next before an event frame. */
  lemma OffsetsAsDocumented(c: Codec, b: Bytes)
    ensures var fs := Frames(Items(b, 0));
            ReadAll(c, b).events == DecodeDocumented(c, fs) <==> forall i, j :: !Misdates(c, fs, i, j)
  {
    ReadAllDecodesFrames(c, b);
    FramesHoldFields(Items(b, 0));
    FramesRise(b, 0);
    if b == [] {
      assert Frames(Items(b, 0)) == [[]];
    } else {
      DecodeAsDocumented(c, Frames(Items(b, 0)), -1, 0, |b|);
    }
  }
}
