/** Different ways to write the same stream: CRLF for LF, no space after the colon, and lines the
    readers ignore in between. The readers return the same events, moved along. */
module SseSpelling {
  import opened Wrappers
  import opened Lines
  import opened Sse
  import opened SseFrames
  import opened SsePrinter

  /** What happens to the next line; Insert puts another one in front of it. */
  datatype Edit = AsIs | WithCR | NoSpace(field: Bytes, value: Bytes) | Insert(line: Bytes)

  /** A comment, or a line with something on it but no colon. */
  predicate Unread(l: Bytes) {
    IsLine(l) && (l[0] == COLON || (COLON !in l && l != [LF] && l != [CR, LF]))
  }

  predicate EndsInCRLF(l: Bytes) {
    |l| >= 2 && l[|l| - 2] == CR && l[|l| - 1] == LF
  }

  /** A line can be given a CR unless it has one, and can lose the first space after its colon
      unless another one follows. */
  predicate CanEdit(l: Bytes, e: Edit) {
    match e
    case AsIs => true
    case WithCR => IsLine(l) && !EndsInCRLF(l)
    case NoSpace(f, v) =>
      l == f + [COLON, SPACE] + v + [LF] && f != [] && COLON !in f && LF !in f && LF !in v && (v == [] || v[0] != SPACE)
    case Insert(_) => false
  }

  function Edited(l: Bytes, e: Edit): Bytes {
    match e
    case WithCR => (if l == [] then [] else l[..|l| - 1]) + [CR, LF]
    case NoSpace(f, v) => f + [COLON] + v + [LF]
    case _ => l
  }

  predicate Fits(ls: seq<Bytes>, edits: seq<Edit>)
    decreases |edits|
  {
    edits == []
    || (match edits[0]
        case Insert(l) => Unread(l) && Fits(ls, edits[1..])
        case e => ls != [] && CanEdit(ls[0], e) && Fits(ls[1..], edits[1..]))
  }

  function Apply(ls: seq<Bytes>, edits: seq<Edit>): seq<Bytes>
    requires Fits(ls, edits)
    decreases |edits|
  {
    if edits == [] then ls
    else match edits[0]
         case Insert(l) => [l] + Apply(ls, edits[1..])
         case e => [Edited(ls[0], e)] + Apply(ls[1..], edits[1..])
  }

  /** Where the line that began at `off` begins now. */
  function NewPlace(ls: seq<Bytes>, edits: seq<Edit>, off: nat): nat
    requires Fits(ls, edits)
    decreases |edits|
  {
    if edits == [] then off
    else match edits[0]
         case Insert(l) => |l| + NewPlace(ls, edits[1..], off)
         case e =>
           if off < |ls[0]| then off else |Edited(ls[0], e)| + NewPlace(ls[1..], edits[1..], off - |ls[0]|)
  }

  // ----- One line -----

  /** The item somewhere else. */
  function Move(x: Item, start: nat): Item {
    if x.Field? then x.(start := start) else x
  }

  lemma EditedItem(l: Bytes, e: Edit, start: nat, now: nat)
    requires IsLine(l) && CanEdit(l, e)
    ensures IsLine(Edited(l, e)) && ItemOf(Edited(l, e), now) == Move(ItemOf(l, start), now)
  {
    match e
    case AsIs =>
    case WithCR =>
      var body := l[..|l| - 1];
      assert TrimLF(l) == body && TrimLF(body + [CR, LF]) == body + [CR];
      assert TrimCR(body + [CR]) == body && TrimCR(body) == body;
    case NoSpace(f, v) =>
      FieldLine(f, v, start);
      UnspacedLine(f, v, now);
      UnspacedIsLine(f, v);
  }

  lemma UnspacedLine(f: Bytes, v: Bytes, start: nat)
    requires f != [] && COLON !in f && (v == [] || v[0] != SPACE)
    ensures ItemOf(f + [COLON] + v + [LF], start) == Field(f, TrimCR(v), start)
  {
    var line, body := f + [COLON] + v + [LF], f + [COLON] + v;
    assert TrimLF(line) == body;
    var w := TrimCR(v);
    var t := f + [COLON] + w;
    assert TrimCR(body) == t;
    ColonIs(t, |f|);
    assert t[|f| + 1..] == w && t[..|f|] == f;
    assert w != [] ==> w[0] == v[0];
  }

  lemma UnspacedIsLine(f: Bytes, v: Bytes)
    requires LF !in f && LF !in v
    ensures IsLine(f + [COLON] + v + [LF])
  {
    var line := f + [COLON] + v + [LF];
    forall i | 0 <= i < |line| - 1
      ensures line[i] != LF
    {
      assert line[i] == if i < |f| then f[i] else if i == |f| then COLON else v[i - |f| - 1];
    }
  }

  lemma UnreadItem(l: Bytes, start: nat)
    requires Unread(l)
    ensures ItemOf(l, start) == Ignored
  {
    var t := Trim(l);
    assert forall i :: 0 <= i < |t| ==> t[i] == l[i];
    if l[0] != COLON {
      assert t == [] ==> l == [LF] || l == [CR, LF];
      assert COLON !in t;
      assert Colon(t) == |t|;
    } else {
      assert t != [];
    }
  }

  // ----- All lines -----

  function Read(items: seq<Item>): seq<Item> {
    if items == [] then []
    else (if items[0].Ignored? then [] else [items[0]]) + Read(items[1..])
  }

  function MoveAll(place: int -> int, items: seq<Item>): seq<Item>
    requires forall n: nat :: place(n) >= 0
  {
    if items == [] then []
    else [if items[0].Field? then Move(items[0], place(items[0].start)) else items[0]] + MoveAll(place, items[1..])
  }

  lemma {:induction false} RunReadItems(c: Codec, items: seq<Item>, a: Acc)
    ensures Run(c, items, a) == Run(c, Read(items), a)
  {
    if items != [] {
      var rest := Read(items[1..]);
      match items[0]
      case Ignored => RunReadItems(c, items[1..], a); assert Read(items) == rest;
      case Field(f, v, s) =>
        RunReadItems(c, items[1..], FeedField(a, f, v, s));
        assert Read(items)[1..] == rest;
      case Blank =>
        RunReadItems(c, items[1..], Flush(c, a).0);
        assert Read(items)[1..] == rest;
    }
  }

  lemma {:induction false} ReadConcat(x: seq<Item>, y: seq<Item>)
    ensures Read(x + y) == Read(x) + Read(y)
  {
    if x == [] {
      assert x + y == y;
    } else {
      assert (x + y)[1..] == x[1..] + y;
      ReadConcat(x[1..], y);
    }
  }

  lemma {:induction false} MoveConcat(place: int -> int, x: seq<Item>, y: seq<Item>)
    requires forall n: nat :: place(n) >= 0
    ensures MoveAll(place, x + y) == MoveAll(place, x) + MoveAll(place, y)
  {
    if x == [] {
      assert x + y == y;
    } else {
      assert (x + y)[1..] == x[1..] + y;
      MoveConcat(place, x[1..], y);
    }
  }

  ghost predicate Follows(place: int -> int, ls: seq<Bytes>, edits: seq<Edit>, pos: nat, now: nat)
    requires Fits(ls, edits)
  {
    forall off: nat :: place(pos + off) == now + NewPlace(ls, edits, off)
  }

  /** What is read of the edited lines is what is read of the lines, moved. */
  lemma {:induction false} EditedLines(place: int -> int, ls: seq<Bytes>, edits: seq<Edit>, pos: nat, now: nat)
    requires AllLines(ls) && Fits(ls, edits) && Follows(place, ls, edits, pos, now)
    requires forall n: nat :: place(n) >= 0
    ensures AllLines(Apply(ls, edits))
    ensures Read(LineItems(Apply(ls, edits), now)) == MoveAll(place, Read(LineItems(ls, pos)))
    ensures place(pos + |Concat(ls)|) == now + |Concat(Apply(ls, edits))|
    decreases |edits|
  {
    hide ItemOf, IsLine, CanEdit, Edited, Unread, LineItems, Read, MoveAll, NewPlace;
    if edits == [] {
      NotEdited(place, ls, pos, now);
    } else {
      var e := edits[0];
      if e.Insert? {
        InsertMoves(place, ls, edits, pos, now);
        EditedLines(place, ls, edits[1..], pos, now + |e.line|);
        InsertOne(place, ls, edits, pos, now);
      } else {
        EditMoves(place, ls, edits, pos, now);
        EditedLines(place, ls[1..], edits[1..], pos + |ls[0]|, now + |Edited(ls[0], e)|);
        EditOne(place, ls, edits, pos, now);
      }
    }
  }

  lemma {:induction false} NotEdited(place: int -> int, ls: seq<Bytes>, pos: nat, now: nat)
    requires AllLines(ls) && Follows(place, ls, [], pos, now) && forall n: nat :: place(n) >= 0
    ensures Read(LineItems(ls, now)) == MoveAll(place, Read(LineItems(ls, pos)))
    ensures place(pos + |Concat(ls)|) == now + |Concat(ls)|
    decreases |ls|
  {
    hide ItemOf, IsLine, LineItems, Read, MoveAll;
    assert place(pos + 0) == now + NewPlace(ls, [], 0);
    if ls == [] {
      NoLines(pos);
      NoLines(now);
      NothingMoves(place);
    } else {
      var l, rest := ls[0], ls[1..];
      assert ls == [l] + rest;
      forall off: nat
        ensures place(pos + |l| + off) == now + |l| + NewPlace(rest, [], off)
      {
        assert place(pos + (|l| + off)) == now + NewPlace(ls, [], |l| + off);
      }
      NotEdited(place, rest, pos + |l|, now + |l|);
      EditedItem(l, AsIs, pos, now);
      LineItemsCons(l, rest, pos);
      LineItemsCons(l, rest, now);
      ReadLine(place, l, l, pos, now, LineItems(rest, pos + |l|), LineItems(rest, now + |l|));
    }
  }

  lemma NothingMoves(place: int -> int)
    requires forall n: nat :: place(n) >= 0
    ensures Read([]) == [] && MoveAll(place, []) == []
  {
  }

  /** One line in front of both. */
  lemma ReadLine(place: int -> int, l: Bytes, edited: Bytes, pos: nat, now: nat, rest: seq<Item>, after: seq<Item>)
    requires (forall n: nat :: place(n) >= 0) && place(pos) == now
    requires ItemOf(edited, now) == Move(ItemOf(l, pos), now) && Read(after) == MoveAll(place, Read(rest))
    ensures Read([ItemOf(edited, now)] + after) == MoveAll(place, Read([ItemOf(l, pos)] + rest))
  {
    hide ItemOf, Read, MoveAll;
    ItemStart(l, pos);
    ReadCons(ItemOf(l, pos), rest);
    ReadCons(ItemOf(edited, now), after);
    MoveCons(place, ItemOf(l, pos), Read(rest));
  }

  lemma ReadCons(x: Item, rest: seq<Item>)
    ensures Read([x] + rest) == if x.Ignored? then Read(rest) else [x] + Read(rest)
  {
    assert ([x] + rest)[1..] == rest;
    assert [] + Read(rest) == Read(rest);
  }

  lemma MoveCons(place: int -> int, x: Item, rest: seq<Item>)
    requires forall n: nat :: place(n) >= 0
    ensures MoveAll(place, [x] + rest) == [if x.Field? then Move(x, place(x.start)) else x] + MoveAll(place, rest)
  {
    assert ([x] + rest)[1..] == rest;
  }

  lemma InsertMoves(place: int -> int, ls: seq<Bytes>, edits: seq<Edit>, pos: nat, now: nat)
    requires edits != [] && edits[0].Insert? && Fits(ls, edits) && Follows(place, ls, edits, pos, now)
    ensures Follows(place, ls, edits[1..], pos, now + |edits[0].line|)
  {
    assert forall off: nat :: NewPlace(ls, edits, off) == |edits[0].line| + NewPlace(ls, edits[1..], off);
  }

  lemma InsertOne(place: int -> int, ls: seq<Bytes>, edits: seq<Edit>, pos: nat, now: nat)
    requires AllLines(ls) && edits != [] && edits[0].Insert? && Fits(ls, edits) && forall n: nat :: place(n) >= 0
    requires var l, rest := edits[0].line, edits[1..];
             AllLines(Apply(ls, rest))
             && Read(LineItems(Apply(ls, rest), now + |l|)) == MoveAll(place, Read(LineItems(ls, pos)))
    ensures Apply(ls, edits) == [edits[0].line] + Apply(ls, edits[1..]) && AllLines(Apply(ls, edits))
    ensures Read(LineItems(Apply(ls, edits), now)) == MoveAll(place, Read(LineItems(ls, pos)))
    ensures |Concat(Apply(ls, edits))| == |edits[0].line| + |Concat(Apply(ls, edits[1..]))|
  {
    hide ItemOf, IsLine;
    var l, rest := edits[0].line, Apply(ls, edits[1..]);
    UnreadItem(l, now);
    LineItemsCons(l, rest, now);
    assert ([l] + rest)[1..] == rest;
    var items := LineItems(rest, now + |l|);
    assert ([Ignored] + items)[1..] == items;
  }

  lemma EditMoves(place: int -> int, ls: seq<Bytes>, edits: seq<Edit>, pos: nat, now: nat)
    requires edits != [] && !edits[0].Insert? && Fits(ls, edits) && AllLines(ls) && Follows(place, ls, edits, pos, now)
    ensures place(pos) == now
    ensures Follows(place, ls[1..], edits[1..], pos + |ls[0]|, now + |Edited(ls[0], edits[0])|)
  {
    hide Edited, CanEdit;
    assert place(pos + 0) == now + NewPlace(ls, edits, 0);
    var l, e := ls[0], edits[0];
    forall off: nat
      ensures place(pos + |l| + off) == now + |Edited(l, e)| + NewPlace(ls[1..], edits[1..], off)
    {
      assert place(pos + (|l| + off)) == now + NewPlace(ls, edits, |l| + off);
    }
  }

  lemma EditOne(place: int -> int, ls: seq<Bytes>, edits: seq<Edit>, pos: nat, now: nat)
    requires AllLines(ls) && edits != [] && !edits[0].Insert? && Fits(ls, edits) && forall n: nat :: place(n) >= 0
    requires place(pos) == now
    requires var l, e, after := ls[0], Edited(ls[0], edits[0]), Apply(ls[1..], edits[1..]);
             AllLines(after)
             && Read(LineItems(after, now + |e|)) == MoveAll(place, Read(LineItems(ls[1..], pos + |l|)))
    ensures Apply(ls, edits) == [Edited(ls[0], edits[0])] + Apply(ls[1..], edits[1..]) && AllLines(Apply(ls, edits))
    ensures Read(LineItems(Apply(ls, edits), now)) == MoveAll(place, Read(LineItems(ls, pos)))
    ensures |Concat(ls)| == |ls[0]| + |Concat(ls[1..])|
    ensures |Concat(Apply(ls, edits))| == |Edited(ls[0], edits[0])| + |Concat(Apply(ls[1..], edits[1..]))|
  {
    hide ItemOf, IsLine, Edited, CanEdit;
    var l, e, after := ls[0], Edited(ls[0], edits[0]), Apply(ls[1..], edits[1..]);
    EditedItem(l, edits[0], pos, now);
    LineItemsCons(e, after, now);
    assert ([e] + after)[1..] == after;
    ReadLine(place, l, e, pos, now, LineItems(ls[1..], pos + |l|), LineItems(after, now + |e|));
  }

  // ----- Reading moved items -----

  function Moved(place: int -> int, evs: seq<Event>): seq<Event> {
    seq(|evs|, i requires 0 <= i < |evs| => evs[i].(offset := place(evs[i].offset)))
  }

  lemma MovedConcat(place: int -> int, x: seq<Event>, y: seq<Event>)
    ensures Moved(place, x + y) == Moved(place, x) + Moved(place, y)
  {
  }

  ghost predicate KeepsSign(place: int -> int) {
    place(-1) == -1 && forall n: nat :: place(n) >= 0
  }

  function MoveAcc(place: int -> int, a: Acc): Acc {
    a.(start := place(a.start))
  }

  lemma FlushMoves(c: Codec, place: int -> int, a: Acc)
    requires KeepsSign(place)
    ensures var (after, evs) := Flush(c, a);
            Flush(c, MoveAcc(place, a)) == (MoveAcc(place, after), Moved(place, evs))
  {
    assert Moved(place, []) == [];
    var ev := Event(a.name, Payload(c, a.data), a.start);
    assert Moved(place, [ev]) == [ev.(offset := place(a.start))];
  }

  lemma {:induction false} RunMoves(c: Codec, place: int -> int, items: seq<Item>, a: Acc)
    requires KeepsSign(place) && a.start >= -1
    ensures var o := Run(c, items, a);
            && Run(c, MoveAll(place, items), MoveAcc(place, a)) == Outcome(Moved(place, o.events), MoveAcc(place, o.acc))
            && o.acc.start >= -1
  {
    hide Flush;
    if items != [] {
      var rest := items[1..];
      match items[0]
      case Ignored => RunMoves(c, place, rest, a);
      case Field(f, v, s) => RunMoves(c, place, rest, FeedField(a, f, v, s));
      case Blank =>
        FlushMoves(c, place, a);
        FlushKeepsStart(c, a);
        var (after, evs) := Flush(c, a);
        RunMoves(c, place, rest, after);
        MovedConcat(place, evs, Run(c, rest, after).events);
    }
  }

  lemma FlushKeepsStart(c: Codec, a: Acc)
    requires a.start >= -1
    ensures Flush(c, a).0.start >= -1
  {
  }

  /** The rest after the last LF, if there is any. */
  function TailItem(tail: Bytes, pos: nat): seq<Item> {
    if tail == [] then [] else [ItemOf(tail, pos)]
  }

  lemma ItemsWithTail(ls: seq<Bytes>, tail: Bytes)
    requires AllLines(ls) && LF !in tail
    ensures Items(Concat(ls) + tail, 0) == LineItems(ls, 0) + TailItem(tail, |Concat(ls)|)
  {
    hide ItemOf, LineItems, Items, Concat, LineEnd;
    var b, n := Concat(ls) + tail, |Concat(ls)|;
    assert b[0..0 + n] == Concat(ls);
    ItemsOfLines(b, 0, ls);
    RestIsTail(Concat(ls), tail);
  }

  lemma RestIsTail(lines: Bytes, tail: Bytes)
    requires LF !in tail
    ensures Items(lines + tail, |lines|) == TailItem(tail, |lines|)
  {
    hide ItemOf;
    var b, n := lines + tail, |lines|;
    if tail != [] {
      forall i | n <= i < |b|
        ensures b[i] != LF
      {
        assert b[i] == tail[i - n];
      }
      assert LineEnd(b, n) == |b| && b[n..|b|] == tail;
      assert Items(b, |b|) == [];
      assert [ItemOf(tail, n)] + [] == [ItemOf(tail, n)];
    }
  }

  /** Writing a stream's lines with CRLF instead of LF, without the space after a colon, or with
      unread lines in between, here or there or everywhere: the readers return the same names
      and data in the same order and see the same end, each offset moved as its line has moved. */
  lemma SpellingDoesNotMatter(c: Codec, ls: seq<Bytes>, tail: Bytes, edits: seq<Edit>)
    requires AllLines(ls) && LF !in tail && Fits(ls, edits)
    ensures var was, now := ReadAll(c, Concat(ls) + tail), ReadAll(c, Concat(Apply(ls, edits)) + tail);
      && now.acc.done == was.acc.done && |now.events| == |was.events|
      && forall i :: 0 <= i < |was.events| ==>
           was.events[i].offset >= 0
           && now.events[i] == was.events[i].(offset := NewPlace(ls, edits, was.events[i].offset))
  {
    hide Items, LineItems, ItemOf, Run, NewPlace, Apply, Fits, Flush, Concat;
    var place: int -> int := off => if off < 0 then off else NewPlace(ls, edits, off);
    EditedLines(place, ls, edits, 0, 0);
    var b, d := Concat(ls) + tail, Concat(Apply(ls, edits)) + tail;
    ItemsWithTail(ls, tail);
    ItemsWithTail(Apply(ls, edits), tail);
    TailMoves(place, tail, |Concat(ls)|, |Concat(Apply(ls, edits))|);
    ReadConcat(LineItems(ls, 0), TailItem(tail, |Concat(ls)|));
    ReadConcat(LineItems(Apply(ls, edits), 0), TailItem(tail, |Concat(Apply(ls, edits))|));
    MoveConcat(place, Read(LineItems(ls, 0)), Read(TailItem(tail, |Concat(ls)|)));
    assert Read(Items(d, 0)) == MoveAll(place, Read(Items(b, 0)));
    RunReadItems(c, Items(b, 0), EMPTY);
    RunReadItems(c, Items(d, 0), EMPTY);
    RunMoves(c, place, Read(Items(b, 0)), EMPTY);
    var o := Run(c, Items(b, 0), EMPTY);
    FlushMoves(c, place, o.acc);
    MovedConcat(place, o.events, Flush(c, o.acc).1);
    OffsetsAscend(c, b);
  }

  lemma TailMoves(place: int -> int, tail: Bytes, pos: nat, now: nat)
    requires (forall n: nat :: place(n) >= 0) && place(pos) == now
    ensures Read(TailItem(tail, now)) == MoveAll(place, Read(TailItem(tail, pos)))
  {
    if tail != [] {
      ReadLine(place, tail, tail, pos, now, [], []);
      assert [ItemOf(tail, now)] + [] == [ItemOf(tail, now)] && [ItemOf(tail, pos)] + [] == [ItemOf(tail, pos)];
    }
  }

  /** Every stream is lines and a rest, so the law speaks of every stream. */
  lemma {:induction false} EveryStream(b: Bytes) returns (ls: seq<Bytes>, tail: Bytes)
    ensures AllLines(ls) && LF !in tail && Concat(ls) + tail == b
  {
    if b == [] || LF !in b {
      ls, tail := [], b;
    } else {
      var e := LineEnd(b, 0);
      assert b[e - 1] == LF by {
        if e == |b| && b[e - 1] != LF { assert forall i :: 0 <= i < |b| ==> b[i] != LF; }
      }
      ls, tail := EveryStream(b[e..]);
      ls := [b[..e]] + ls;
      assert b == b[..e] + b[e..];
    }
  }
}
