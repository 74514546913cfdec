/** WriteEvent, and that it and the readers undo each other. */
module SsePrinter {
  import opened Wrappers
  import opened Lines
  import opened Sse
  import opened SseFrames

  const EVENT_PREFIX: Bytes := EVENT + [COLON, SPACE]
  const DATA_PREFIX: Bytes := DATA + [COLON, SPACE]

  /** The pieces of `d` between LFs. */
  function Split(d: Bytes): (ps: seq<Bytes>)
    ensures |ps| > 0
    ensures forall i :: 0 <= i < |ps| ==> LF !in ps[i]
  {
    if d == [] then [[]]
    else
      var init, last := Split(d[..|d| - 1]), d[|d| - 1];
      if last == LF then init + [[]]
      else init[..|init| - 1] + [init[|init| - 1] + [last]]
  }

  function Concat(lines: seq<Bytes>): Bytes {
    if lines == [] then [] else lines[0] + Concat(lines[1..])
  }

  function DataOut(pieces: seq<Bytes>): seq<Bytes> {
    if pieces == [] then [] else [DATA_PREFIX + pieces[0] + [LF]] + DataOut(pieces[1..])
  }

  /** The lines of one frame, its closing blank line included. */
  function FrameLines(ev: Event): seq<Bytes> {
    (if ev.name == [] then [] else [EVENT_PREFIX + ev.name + [LF]])
    + (if ev.data == [] then [] else DataOut(Split(ev.data)))
    + [[LF]]
  }

  function FrameBytes(ev: Event): Bytes {
    Concat(FrameLines(ev))
  }

  method WriteEvent(ev: Event) returns (out: Bytes)
    ensures out == FrameBytes(ev)
  {
    out := [];
    if ev.name != [] {
      out := out + EVENT_PREFIX + ev.name + [LF];
    }
    ghost var head := if ev.name == [] then [] else [EVENT_PREFIX + ev.name + [LF]];
    assert out == Concat(head);
    ghost var tail: seq<Bytes> := [];
    if |ev.data| > 0 {
      var pieces := Split(ev.data);
      for i := 0 to |pieces|
        invariant tail == DataOut(pieces[..i])
        invariant out == Concat(head + tail)
      {
        DataOutAppend(pieces[..i], pieces[i]);
        assert pieces[..i + 1] == pieces[..i] + [pieces[i]];
        ConcatAppend(head + tail, DATA_PREFIX + pieces[i] + [LF]);
        assert head + (tail + [DATA_PREFIX + pieces[i] + [LF]]) == head + tail + [DATA_PREFIX + pieces[i] + [LF]];
        tail := tail + [DATA_PREFIX + pieces[i] + [LF]];
        out := out + (DATA_PREFIX + pieces[i] + [LF]);
      }
      assert pieces[..|pieces|] == pieces;
    } else {
      assert head + tail == head;
    }
    ConcatAppend(head + tail, [LF]);
    out := out + [LF];
  }

  lemma {:induction false} ConcatAppend(ls: seq<Bytes>, l: Bytes)
    ensures Concat(ls + [l]) == Concat(ls) + l
  {
    if ls != [] {
      assert (ls + [l])[1..] == ls[1..] + [l];
      ConcatAppend(ls[1..], l);
    }
  }

  lemma {:induction false} DataOutAppend(ps: seq<Bytes>, p: Bytes)
    ensures DataOut(ps + [p]) == DataOut(ps) + [DATA_PREFIX + p + [LF]]
  {
    if ps != [] {
      assert (ps + [p])[1..] == ps[1..] + [p];
      DataOutAppend(ps[1..], p);
    } else {
      assert ([p])[1..] == [];
    }
  }

  // ----- Reading printed lines back -----

  /** The items of a run of lines that starts at `pos`. */
  function LineItems(lines: seq<Bytes>, pos: nat): seq<Item> {
    if lines == [] then [] else [ItemOf(lines[0], pos)] + LineItems(lines[1..], pos + |lines[0]|)
  }

  predicate AllLines(lines: seq<Bytes>) {
    forall i :: 0 <= i < |lines| ==> IsLine(lines[i])
  }

  lemma {:induction false} ItemsOfLines(b: Bytes, pos: nat, lines: seq<Bytes>)
    requires AllLines(lines) && LineAt(b, pos, Concat(lines))
    ensures Items(b, pos) == LineItems(lines, pos) + Items(b, pos + |Concat(lines)|)
    decreases |lines|
  {
    hide ItemOf, LineEnd, Items, LineItems, IsLine;
    if lines == [] {
      NoLines(pos);
      assert [] + Items(b, pos) == Items(b, pos);
    } else {
      var l, rest := lines[0], lines[1..];
      var e := pos + |l|;
      SplitLine(b, pos, l, Concat(rest));
      LineEndOfLine(b, pos, l);
      ItemsOfLines(b, e, rest);
      ItemsStep(b, pos, l);
      assert lines == [l] + rest;
      LineItemsCons(l, rest, pos);
      ConsAssociative(ItemOf(l, pos), LineItems(rest, e), Items(b, e + |Concat(rest)|));
    }
  }

  lemma NoLines(pos: nat)
    ensures LineItems([], pos) == []
  {
  }

  lemma ItemsStep(b: Bytes, pos: nat, l: Bytes)
    requires l != [] && LineAt(b, pos, l) && LineEnd(b, pos) == pos + |l|
    ensures Items(b, pos) == [ItemOf(l, pos)] + Items(b, pos + |l|)
  {
    hide ItemOf, LineEnd;
  }

  lemma ConsAssociative(x: Item, xs: seq<Item>, ys: seq<Item>)
    ensures [x] + (xs + ys) == [x] + xs + ys
  {
  }

  lemma SplitLine(b: Bytes, pos: nat, l: Bytes, rest: Bytes)
    requires LineAt(b, pos, l + rest)
    ensures LineAt(b, pos, l) && LineAt(b, pos + |l|, rest)
  {
    var c := b[pos..pos + |l + rest|];
    assert c[..|l|] == b[pos..pos + |l|] == l;
    assert c[|l|..] == b[pos + |l|..pos + |l| + |rest|] == rest;
  }

  lemma LineItemsCons(l: Bytes, rest: seq<Bytes>, pos: nat)
    ensures LineItems([l] + rest, pos) == [ItemOf(l, pos)] + LineItems(rest, pos + |l|)
  {
    assert ([l] + rest)[1..] == rest;
  }

  lemma LineEndOfLine(b: Bytes, pos: nat, l: Bytes)
    requires IsLine(l) && LineAt(b, pos, l)
    ensures LineEnd(b, pos) == pos + |l| && l != []
  {
    assert forall i :: 0 <= i < |l| ==> l[i] == b[pos + i];
    LineEndIs(b, pos, pos + |l|);
  }

  /** A printed field line reads back as the field, less a CR at the very end of its value. */
  lemma FieldLine(field: Bytes, value: Bytes, start: nat)
    requires field != [] && COLON !in field
    ensures ItemOf(field + [COLON, SPACE] + value + [LF], start) == Field(field, TrimCR(value), start)
  {
    var line := field + [COLON, SPACE] + value + [LF];
    var body := field + [COLON, SPACE] + value;
    assert TrimLF(line) == body;
    var v := TrimCR(value);
    assert TrimCR(body) == field + [COLON, SPACE] + v;
    var t := field + [COLON, SPACE] + v;
    ColonIs(t, |field|);
    assert t[|field| + 1..] == [SPACE] + v;
    assert t[..|field|] == field;
    assert ([SPACE] + v)[1..] == v;
  }

  lemma {:induction false} ColonIs(t: Bytes, i: nat)
    requires i < |t| && t[i] == COLON && forall k :: 0 <= k < i ==> t[k] != COLON
    ensures Colon(t) == i
  {
    if i > 0 { ColonIs(t[1..], i - 1); }
  }

  function Trimmed(ps: seq<Bytes>): seq<Bytes> {
    seq(|ps|, i requires 0 <= i < |ps| => TrimCR(ps[i]))
  }

  /** One more byte on the last piece is one more byte at the end. */
  lemma JoinLonger(init: seq<Bytes>, last: byte)
    requires init != []
    ensures var k := |init| - 1; Join(init[..k] + [init[k] + [last]]) == Join(init) + [last]
  {
    hide Join;
    var k := |init| - 1;
    var before, piece := init[..k], init[k];
    assert init == before + [piece];
    JoinAppend(before, piece);
    JoinAppend(before, piece + [last]);
    BytesAssociative(if before == [] then [] else Join(before) + [LF], piece, [last]);
  }

  lemma BytesAssociative(x: Bytes, y: Bytes, z: Bytes)
    ensures x + y + z == x + (y + z)
  {
  }

  lemma {:induction false} JoinSplit(d: Bytes)
    ensures Join(Split(d)) == d
  {
    if d == [] {
      assert Split(d) == [[]] && Join([[]]) == [];
    } else {
      hide Join;
      var init, last := Split(d[..|d| - 1]), d[|d| - 1];
      JoinSplit(d[..|d| - 1]);
      assert d == d[..|d| - 1] + [last];
      if last == LF {
        JoinAppend(init, []);
        assert d[..|d| - 1] + [LF] + [] == d;
      } else {
        JoinLonger(init, last);
      }
    }
  }

  // ----- One frame -----

  /** The fields a printed frame reads back as, without its closing blank line. */
  function FrameFields(ev: Event, pos: nat): seq<Item> {
    var n := if ev.name == [] then [] else [Field(EVENT, TrimCR(ev.name), pos)];
    var at := if ev.name == [] then pos else pos + |EVENT_PREFIX| + |ev.name| + 1;
    n + if ev.data == [] then [] else DataFields(Split(ev.data), at)
  }

  function DataFields(ps: seq<Bytes>, pos: nat): seq<Item> {
    if ps == [] then []
    else [Field(DATA, TrimCR(ps[0]), pos)] + DataFields(ps[1..], pos + |DATA_PREFIX| + |ps[0]| + 1)
  }

  function DataLine(piece: Bytes): Bytes {
    DATA_PREFIX + piece + [LF]
  }

  lemma DataOutCons(ps: seq<Bytes>)
    requires ps != []
    ensures DataOut(ps) + [[LF]] == [DataLine(ps[0])] + (DataOut(ps[1..]) + [[LF]])
    ensures |DataLine(ps[0])| == |DATA_PREFIX| + |ps[0]| + 1
  {
  }

  lemma DataLineItem(piece: Bytes, pos: nat)
    ensures ItemOf(DataLine(piece), pos) == Field(DATA, TrimCR(piece), pos)
  {
    hide ItemOf;
    FieldLine(DATA, piece, pos);
    assert DATA + [COLON, SPACE] + piece + [LF] == DataLine(piece);
  }

  lemma NoDataItems(pos: nat)
    ensures LineItems(DataOut([]) + [[LF]], pos) == DataFields([], pos) + [Blank]
  {
    hide ItemOf;
    BlankItem(pos);
    LineItemsCons([LF], [], pos);
    assert DataOut([]) + [[LF]] == [[LF]] + [];
    assert LineItems([], pos + 1) == [];
  }

  lemma DataFieldsCons(ps: seq<Bytes>, pos: nat)
    requires ps != []
    ensures DataFields(ps, pos)
         == [Field(DATA, TrimCR(ps[0]), pos)] + DataFields(ps[1..], pos + |DATA_PREFIX| + |ps[0]| + 1)
  {
  }

  lemma {:induction false} DataOutItems(ps: seq<Bytes>, pos: nat)
    ensures LineItems(DataOut(ps) + [[LF]], pos) == DataFields(ps, pos) + [Blank]
  {
    hide ItemOf, DataLine, LineItems, DataOut, DataFields;
    if ps == [] {
      NoDataItems(pos);
    } else {
      var l := DataLine(ps[0]);
      DataOutCons(ps);
      DataFieldsCons(ps, pos);
      LineItemsCons(l, DataOut(ps[1..]) + [[LF]], pos);
      DataLineItem(ps[0], pos);
      DataOutItems(ps[1..], pos + |l|);
      FieldsAssociative(Field(DATA, TrimCR(ps[0]), pos), DataFields(ps[1..], pos + |l|));
    }
  }

  lemma FieldsAssociative(x: Item, xs: seq<Item>)
    ensures [x] + (xs + [Blank]) == [x] + xs + [Blank]
  {
  }

  lemma BlankItem(pos: nat)
    ensures ItemOf([LF], pos) == Blank
  {
  }

  lemma FrameItems(ev: Event, pos: nat)
    ensures LineItems(FrameLines(ev), pos) == FrameFields(ev, pos) + [Blank]
  {
    hide ItemOf, Split, DataOut, LineItems, DataFields;
    var ps := if ev.data == [] then [] else Split(ev.data);
    NoDataOut(pos + |EVENT_PREFIX| + |ev.name| + 1);
    NoDataOut(pos);
    var rest := DataOut(ps) + [[LF]];
    if ev.name == [] {
      assert FrameLines(ev) == rest;
      DataOutItems(ps, pos);
    } else {
      var l := EVENT_PREFIX + ev.name + [LF];
      assert FrameLines(ev) == [l] + rest;
      LineItemsCons(l, rest, pos);
      FieldLine(EVENT, ev.name, pos);
      DataOutItems(ps, pos + |l|);
    }
  }

  lemma NoDataOut(pos: nat)
    ensures DataOut([]) == [] && DataFields([], pos) == []
  {
  }

  lemma {:induction false} DataOutLines(ps: seq<Bytes>)
    requires forall i :: 0 <= i < |ps| ==> LF !in ps[i]
    ensures AllLines(DataOut(ps))
  {
    if ps != [] {
      var l := DATA_PREFIX + ps[0] + [LF];
      assert forall i :: 0 <= i < |ps[0]| ==> ps[0][i] != LF;
      DataOutLines(ps[1..]);
    }
  }

  lemma FrameLinesAreLines(ev: Event)
    requires LF !in ev.name
    ensures AllLines(FrameLines(ev))
  {
    DataOutLines(Split(ev.data));
    assert forall i :: 0 <= i < |ev.name| ==> ev.name[i] != LF;
  }

  lemma {:induction false} DataFieldsHold(ps: seq<Bytes>, pos: nat)
    ensures AllFields(DataFields(ps, pos)) && FrameName(DataFields(ps, pos)) == []
    ensures DataLines(DataFields(ps, pos)) == Trimmed(ps)
  {
    if ps != [] {
      var x, f := Field(DATA, TrimCR(ps[0]), pos), DataFields(ps[1..], pos + |DATA_PREFIX| + |ps[0]| + 1);
      DataFieldsHold(ps[1..], pos + |DATA_PREFIX| + |ps[0]| + 1);
      FrontField(x, f);
      assert Trimmed(ps) == [TrimCR(ps[0])] + Trimmed(ps[1..]);
      assert |EVENT| != |DATA|;
    }
  }

  lemma {:induction false} FrontField(x: Item, f: seq<Item>)
    requires x.Field?
    ensures DataLines([x] + f) == (if x.field == DATA then [x.value] else []) + DataLines(f)
    ensures FrameName(f) == [] && (forall i :: 0 <= i < |f| ==> f[i].Field? && f[i].field != EVENT)
            ==> FrameName([x] + f) == if x.field == EVENT then x.value else []
    ensures FrameName(f) == [] && x.field != EVENT ==> FrameName([x] + f) == []
  {
    if f == [] {
      assert [x] + f == [x] && [x][..0] == [];
    } else {
      FrontField(x, f[..|f| - 1]);
      assert ([x] + f)[..|f|] == [x] + f[..|f| - 1];
      var last := if f[|f| - 1].Field? && f[|f| - 1].field == DATA then [f[|f| - 1].value] else [];
      var first := if x.field == DATA then [x.value] else [];
      assert first + DataLines(f[..|f| - 1]) + last == first + (DataLines(f[..|f| - 1]) + last);
    }
  }
}
