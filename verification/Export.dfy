/** Reading lines back out of the files: one row at a time (internal/api/jsonlread.go) and a
    whole bucket at a time for an export (internal/exporter/exporter.go). */
module Export {
  import opened Wrappers
  import opened Lines

  /** What reading an open file yields: some bytes, then the end or a read error. */
  datatype Stream = Stream(data: Bytes, broken: bool)

  /** The files by path, and what gzip makes of bytes: None when there is no gzip header. */
  type Files = map<string, Bytes>
  type Gunzip = Bytes -> Option<Stream>

  predicate HasGzSuffix(path: string) {
    |path| >= 3 && path[|path| - 3..] == ".gz"
  }

  function FromGz(files: Files, gunzip: Gunzip, path: string): Option<Stream> {
    if path in files then gunzip(files[path]) else None
  }

  /** ReadBytes('\n') at `pos`. */
  datatype Read = Read(line: Bytes, ended: bool)

  function ReadBytes(s: Stream, pos: nat): Read
    requires pos <= |s.data|
  {
    var e := LineEnd(s.data, pos);
    Read(s.data[pos..e], e == pos || s.data[e - 1] != LF)
  }

  // ----- One row -----

  function ReadOneLine(s: Stream, pos: nat): Option<Bytes>
    requires pos <= |s.data|
  {
    var r := ReadBytes(s, pos);
    if r.ended && s.broken then None
    else
      var line := if r.line != [] && r.line[|r.line| - 1] == LF then r.line[..|r.line| - 1] else r.line;
      if line == [] then None else Some(line)
  }

  /** Seek: past the end there is nothing to read, before the start it fails. */
  function ReadFromPlain(data: Bytes, offset: int): Option<Bytes> {
    if offset < 0 || offset > |data| then None else ReadOneLine(Stream(data, false), offset)
  }

  /** Skipping forward fails when the stream is shorter; there is no skip to a negative offset. */
  function ReadFromGz(files: Files, gunzip: Gunzip, path: string, offset: int): Option<Bytes> {
    match FromGz(files, gunzip, path)
    case None => None
    case Some(s) =>
      if offset > |s.data| then None else ReadOneLine(s, if offset > 0 then offset else 0)
  }

  function ReadJSONLLine(files: Files, gunzip: Gunzip, path: string, offset: int): Option<Bytes> {
    if HasGzSuffix(path) then ReadFromGz(files, gunzip, path, offset)
    else if path in files then ReadFromPlain(files[path], offset)
    else ReadFromGz(files, gunzip, path + ".gz", offset)
  }

  // ----- A whole bucket -----

  /** openJSONL and the reader on top of it. */
  function OpenJSONL(files: Files, gunzip: Gunzip, path: string): Option<Stream> {
    if HasGzSuffix(path) then FromGz(files, gunzip, path)
    else if path in files then Some(Stream(files[path], false))
    else FromGz(files, gunzip, path + ".gz")
  }

  /** A zip entry: what it holds, and whether its name says the whole file is there. */
  datatype ZipEntry = ZipEntry(content: Bytes, complete: bool)

  /** The offsets at which the lines from `pos` on begin. */
  function Starts(b: Bytes, pos: nat): seq<nat>
    requires pos <= |b|
    decreases |b| - pos
  {
    if pos == |b| then [] else [pos] + Starts(b, LineEnd(b, pos))
  }

  function Kept(starts: seq<nat>, offsets: set<int>): seq<nat> {
    if starts == [] then []
    else (if starts[0] in offsets then [starts[0]] else []) + Kept(starts[1..], offsets)
  }

  function LineFrom(b: Bytes, start: nat): Bytes {
    if start <= |b| then b[start..LineEnd(b, start)] else []
  }

  function JoinLines(b: Bytes, starts: seq<nat>): Bytes {
    if starts == [] then [] else LineFrom(b, starts[0]) + JoinLines(b, starts[1..])
  }

  /** The lines that begin at a recorded offset, in file order; complete when no line was left
      out and no recorded offset was left over. */
  function EntryOf(b: Bytes, offsets: set<int>): ZipEntry {
    var starts := Starts(b, 0);
    var kept := Kept(starts, offsets);
    ZipEntry(JoinLines(b, kept), |kept| >= |starts| && |kept| >= |offsets|)
  }

  method WriteGroupEntry(files: Files, gunzip: Gunzip, path: string, offsets: map<int, string>)
    returns (entry: Option<ZipEntry>)
    ensures var src := OpenJSONL(files, gunzip, path);
            entry == if src.None? || src.value.broken then None else Some(EntryOf(src.value.data, offsets.Keys))
  {
    hide JoinLines, Kept, Starts, LineEnd, OpenJSONL;
    var src := OpenJSONL(files, gunzip, path);
    if src.None? { return None; }
    var b := src.value.data;
    var matched: Bytes, offset: nat, total: nat, matchHits: nat := [], 0, 0, 0;
    ghost var starts := Starts(b, 0);
    ghost var kept := Kept(starts, offsets.Keys);
    var ended := false;
    while !ended
      invariant offset <= |b| && (ended ==> offset == |b|)
      invariant matched + JoinLines(b, Kept(Starts(b, offset), offsets.Keys)) == JoinLines(b, kept)
      invariant total + |Starts(b, offset)| == |starts|
      invariant matchHits + |Kept(Starts(b, offset), offsets.Keys)| == |kept|
      decreases |b| - offset, !ended
    {
      var r := ReadBytes(src.value, offset);
      if |r.line| > 0 {
        KeepOne(b, offset, offsets.Keys, matched);
        total := total + 1;
        if offset in offsets {
          matched := matched + r.line;
          matchHits := matchHits + 1;
        }
        offset := offset + |r.line|;
      }
      ended := r.ended;
    }
    NothingLeft(b, offsets.Keys);
    if src.value.broken { return None; }
    var complete := true;
    if matchHits < total { complete := false; }
    if matchHits < |offsets| { complete := false; }
    assert matched + [] == matched && |offsets| == |offsets.Keys|;
    return Some(ZipEntry(matched, complete));
  }

  lemma NothingLeft(b: Bytes, offsets: set<int>)
    ensures Starts(b, |b|) == [] && Kept([], offsets) == [] && JoinLines(b, []) == []
  {
  }

  lemma KeptCons(pos: nat, starts: seq<nat>, offsets: set<int>)
    ensures Kept([pos] + starts, offsets) == (if pos in offsets then [pos] else []) + Kept(starts, offsets)
  {
    assert ([pos] + starts)[1..] == starts;
  }

  lemma JoinCons(b: Bytes, pos: nat, starts: seq<nat>)
    ensures JoinLines(b, [pos] + starts) == LineFrom(b, pos) + JoinLines(b, starts)
  {
    assert ([pos] + starts)[1..] == starts;
  }

  lemma KeepOne(b: Bytes, pos: nat, offsets: set<int>, before: Bytes)
    requires pos < |b|
    ensures |Starts(b, pos)| == 1 + |Starts(b, LineEnd(b, pos))|
    ensures var rest := Kept(Starts(b, LineEnd(b, pos)), offsets);
            && Kept(Starts(b, pos), offsets) == (if pos in offsets then [pos] else []) + rest
            && before + JoinLines(b, Kept(Starts(b, pos), offsets))
               == before + (if pos in offsets then b[pos..LineEnd(b, pos)] else []) + JoinLines(b, rest)
  {
    hide JoinLines, Kept, LineEnd;
    var rest := Kept(Starts(b, LineEnd(b, pos)), offsets);
    KeptCons(pos, Starts(b, LineEnd(b, pos)), offsets);
    JoinCons(b, pos, rest);
    if pos !in offsets { assert [] + rest == rest; }
  }

  /** A line that ends at an LF, or at the end of data that is all there is, and is not empty:
      exactly that is what reading at a position returns. */
  lemma ReadsOneLineIff(s: Stream, pos: nat, line: Bytes)
    requires pos <= |s.data|
    ensures ReadOneLine(s, pos) == Some(line) <==>
      && line != [] && LF !in line && pos + |line| <= |s.data| && s.data[pos..pos + |line|] == line
      && if pos + |line| < |s.data| then s.data[pos + |line|] == LF else !s.broken
  {
    hide LineEnd;
    var e := LineEnd(s.data, pos);
    var r := ReadBytes(s, pos);
    if pos < |s.data| {
      assert forall i :: pos <= i < e - 1 ==> r.line[i - pos] == s.data[i];
      assert r.line[|r.line| - 1] == s.data[e - 1];
    }
    var n := pos + |line|;
    if line != [] && LF !in line && n <= |s.data| && s.data[pos..n] == line {
      forall i | pos <= i < n
        ensures s.data[i] != LF
      {
        assert s.data[i] == line[i - pos];
      }
      assert e >= n;
      if n < |s.data| && s.data[n] == LF {
        LineEndIs(s.data, pos, n + 1);
        assert r.line[..|r.line| - 1] == line;
      } else if n == |s.data| {
        assert e == n && r.line == line;
      }
    }
    if ReadOneLine(s, pos) == Some(line) {
      var cut := if r.line != [] && r.line[|r.line| - 1] == LF then r.line[..|r.line| - 1] else r.line;
      assert line == cut;
      assert forall i :: 0 <= i < |line| ==> line[i] == s.data[pos + i];
    }
  }

  // ----- Compressed or not -----

  lemma SuffixIs(path: string)
    ensures HasGzSuffix(path) <==> exists name :: path == name + ".gz"
  {
    if HasGzSuffix(path) { assert path == path[..|path| - 3] + ".gz"; }
    if name :| path == name + ".gz" { assert path[|path| - 3..] == ".gz"; }
  }

  /** A file read under its name, and compressed under that name with the suffix: readers of a
      row and of a whole bucket find the same in both. */
  lemma CompressedReadsTheSame(before: Files, after: Files, gunzip: Gunzip, path: string, b: Bytes, offset: nat)
    requires !HasGzSuffix(path) && path in before && before[path] == b
    requires path !in after && path + ".gz" in after && gunzip(after[path + ".gz"]) == Some(Stream(b, false))
    ensures OpenJSONL(before, gunzip, path) == OpenJSONL(after, gunzip, path) == Some(Stream(b, false))
    ensures ReadJSONLLine(before, gunzip, path, offset) == ReadJSONLLine(after, gunzip, path, offset)
  {
  }

  /** While both are there the plain file is read, whatever the compressed one holds; with neither,
      or a compressed one that cannot be opened, nothing is. */
  lemma PlainFirst(files: Files, gunzip: Gunzip, path: string)
    requires !HasGzSuffix(path)
    ensures path in files ==> OpenJSONL(files, gunzip, path) == Some(Stream(files[path], false))
    ensures OpenJSONL(files, gunzip, path).None? <==>
            path !in files && (path + ".gz" in files ==> gunzip(files[path + ".gz"]) == None)
  {
  }

  // ----- What an entry holds -----

  lemma {:induction false} StartsAreLineStarts(b: Bytes, pos: nat)
    requires pos <= |b| && (pos == 0 || pos == |b| || b[pos - 1] == LF)
    ensures forall i, j :: 0 <= i < j < |Starts(b, pos)| ==> Starts(b, pos)[i] < Starts(b, pos)[j]
    ensures forall o: nat :: o in Starts(b, pos) <==> pos <= o && IsLineStart(b, o)
    decreases |b| - pos
  {
    if pos < |b| {
      var e := LineEnd(b, pos);
      StartsAreLineStarts(b, e);
      forall o: nat
        ensures o in Starts(b, pos) <==> pos <= o && IsLineStart(b, o)
      {
        if pos < o < e { assert b[o - 1] != LF; }
        assert o in Starts(b, pos) <==> o == pos || o in Starts(b, e);
      }
      assert forall i :: 0 < i < |Starts(b, pos)| ==> Starts(b, pos)[i] == Starts(b, e)[i - 1];
      assert forall i :: 0 <= i < |Starts(b, e)| ==> Starts(b, e)[i] in Starts(b, e);
    }
  }

  lemma {:induction false} KeptInOrder(starts: seq<nat>, offsets: set<int>)
    requires forall i, j :: 0 <= i < j < |starts| ==> starts[i] < starts[j]
    ensures var kept := Kept(starts, offsets);
            && |kept| <= |starts|
            && (forall i, j :: 0 <= i < j < |kept| ==> kept[i] < kept[j])
            && (forall o: nat :: o in kept <==> o in starts && o in offsets)
  {
    if starts != [] {
      KeptInOrder(starts[1..], offsets);
      var rest := Kept(starts[1..], offsets);
      assert forall o: nat :: o in starts <==> o == starts[0] || o in starts[1..];
      assert forall i :: 0 <= i < |rest| ==> rest[i] in rest;
      assert forall o: nat :: o in Kept(starts, offsets) <==> (o == starts[0] && o in offsets) || o in rest;
    }
  }

  /** The recorded offsets that are line starts, ascending. */
  function RecordedStarts(b: Bytes, offsets: set<int>): seq<nat> {
    Kept(Starts(b, 0), offsets)
  }

  lemma RecordedStartsMeans(b: Bytes, offsets: set<int>)
    ensures var r := RecordedStarts(b, offsets);
            && (forall i, j :: 0 <= i < j < |r| ==> r[i] < r[j])
            && (forall o: nat :: o in r <==> o in offsets && IsLineStart(b, o))
  {
    StartsAreLineStarts(b, 0);
    KeptInOrder(Starts(b, 0), offsets);
  }

  /** Whole newline-terminated nonempty lines, as the writer appends them. */
  predicate WholeLines(b: Bytes) {
    b == [] || (b[0] != LF && b[|b| - 1] == LF && forall i :: 0 < i < |b| && b[i - 1] == LF ==> b[i] != LF)
  }

  /** What reading each offset on its own returns, each with its newline back. */
  function RowReads(files: Files, gunzip: Gunzip, path: string, offsets: seq<nat>): Bytes {
    if offsets == [] then []
    else
      (match ReadJSONLLine(files, gunzip, path, offsets[0]) case None => [] case Some(line) => line + [LF])
      + RowReads(files, gunzip, path, offsets[1..])
  }

  lemma ReadsItsLine(files: Files, gunzip: Gunzip, path: string, o: nat)
    requires OpenJSONL(files, gunzip, path).Some?
    requires var b := OpenJSONL(files, gunzip, path).value.data; WholeLines(b) && IsLineStart(b, o)
    ensures var b := OpenJSONL(files, gunzip, path).value.data;
            && ReadJSONLLine(files, gunzip, path, o).Some?
            && ReadJSONLLine(files, gunzip, path, o).value + [LF] == LineFrom(b, o)
  {
    hide LineEnd;
    LineIsWhole(OpenJSONL(files, gunzip, path).value, o);
  }

  lemma LineIsWhole(s: Stream, o: nat)
    requires WholeLines(s.data) && IsLineStart(s.data, o)
    ensures ReadOneLine(s, o).Some? && ReadOneLine(s, o).value + [LF] == LineFrom(s.data, o)
  {
    hide LineEnd;
    var e := LineEnd(s.data, o);
    assert e == |s.data| ==> s.data[e - 1] == LF;
    assert e > o + 1;
    var line := s.data[o..e];
    assert line[|line| - 1] == LF && line[..|line| - 1] + [LF] == line;
  }

  lemma {:induction false} JoinIsRowReads(files: Files, gunzip: Gunzip, path: string, starts: seq<nat>)
    requires OpenJSONL(files, gunzip, path).Some?
    requires var b := OpenJSONL(files, gunzip, path).value.data;
             WholeLines(b) && forall o :: o in starts ==> IsLineStart(b, o)
    ensures JoinLines(OpenJSONL(files, gunzip, path).value.data, starts) == RowReads(files, gunzip, path, starts)
  {
    if starts != [] {
      ReadsItsLine(files, gunzip, path, starts[0]);
      JoinIsRowReads(files, gunzip, path, starts[1..]);
    }
  }

  /** An export holds what reading the recorded rows one by one returns, in file order. */
  lemma ExportIsRowReads(files: Files, gunzip: Gunzip, path: string, offsets: set<int>)
    requires OpenJSONL(files, gunzip, path).Some? && WholeLines(OpenJSONL(files, gunzip, path).value.data)
    ensures var b := OpenJSONL(files, gunzip, path).value.data;
            EntryOf(b, offsets).content == RowReads(files, gunzip, path, RecordedStarts(b, offsets))
  {
    var b := OpenJSONL(files, gunzip, path).value.data;
    RecordedStartsMeans(b, offsets);
    JoinIsRowReads(files, gunzip, path, RecordedStarts(b, offsets));
  }

  // ----- What the name says -----

  function Elements(s: seq<nat>): set<nat> {
    set o | o in s
  }

  lemma {:induction false} DistinctElements(s: seq<nat>)
    requires forall i, j :: 0 <= i < j < |s| ==> s[i] < s[j]
    ensures |Elements(s)| == |s|
  {
    if s != [] {
      DistinctElements(s[1..]);
      assert Elements(s) == {s[0]} + Elements(s[1..]);
      assert forall i :: 0 <= i < |s| - 1 ==> s[1..][i] == s[i + 1] > s[0];
    } else {
      assert Elements(s) == {};
    }
  }

  /** No recorded offset is left over exactly when every one is a line start. */
  lemma NoneLeftOver(b: Bytes, offsets: set<int>)
    ensures |RecordedStarts(b, offsets)| <= |offsets|
    ensures |RecordedStarts(b, offsets)| == |offsets| <==> forall o :: o in offsets ==> IsLineStart(b, o)
  {
    RecordedStartsMeans(b, offsets);
    var found: set<int> := Elements(RecordedStarts(b, offsets));
    DistinctElements(RecordedStarts(b, offsets));
    assert found <= offsets;
    assert |offsets - found| == |offsets| - |found|;
    if |found| == |offsets| {
      assert offsets - found == {};
      assert forall o :: o in offsets ==> o in found;
    }
    if forall o :: o in offsets ==> IsLineStart(b, o) {
      assert forall o :: o in offsets ==> (o as nat) in RecordedStarts(b, offsets);
      assert found == offsets;
    }
  }

  /** Dropping lines makes the output shorter; keeping them all makes it the file. */
  lemma {:induction false} JoinLength(b: Bytes, pos: nat, offsets: set<int>)
    requires pos <= |b|
    ensures var starts, kept := Starts(b, pos), Kept(Starts(b, pos), offsets);
            && |kept| <= |starts|
            && |JoinLines(b, kept)| <= |b| - pos
            && (|kept| == |starts| ==> JoinLines(b, kept) == b[pos..])
            && (|kept| < |starts| ==> |JoinLines(b, kept)| < |b| - pos)
    decreases |b| - pos
  {
    if pos < |b| {
      var e := LineEnd(b, pos);
      JoinLength(b, e, offsets);
      KeepOne(b, pos, offsets, []);
      assert b[pos..] == b[pos..e] + b[e..];
    }
  }

  /** The entry is named complete exactly when it is the whole file and every recorded offset
      is the start of a line in it. */
  lemma CompleteIff(b: Bytes, offsets: set<int>)
    ensures EntryOf(b, offsets).complete
       <==> EntryOf(b, offsets).content == b && forall o :: o in offsets ==> IsLineStart(b, o)
  {
    JoinLength(b, 0, offsets);
    NoneLeftOver(b, offsets);
    assert b[0..] == b;
  }

  // ----- Grouping the matched rows by file -----

  datatype Located = Located(id: string, tsStart: int, path: string, offset: int)
  datatype Group = Group(offsets: map<int, string>, earliest: int)

  predicate HasRow(rows: seq<Located>, path: string, offset: int, id: string) {
    exists i :: 0 <= i < |rows| && rows[i].path == path && rows[i].offset == offset && rows[i].id == id
  }

  predicate HasStart(rows: seq<Located>, path: string, tsStart: int) {
    exists i :: 0 <= i < |rows| && rows[i].path == path && rows[i].tsStart == tsStart
  }

  /** Every matched row is in the group of its path, under its offset; nothing else is; a group
      is stamped with the earliest start among its rows. */
  predicate Grouped(rows: seq<Located>, groups: map<string, Group>) {
    && (forall i :: 0 <= i < |rows| ==>
         && rows[i].path in groups
         && rows[i].offset in groups[rows[i].path].offsets
         && groups[rows[i].path].earliest <= rows[i].tsStart)
    && (forall p :: p in groups ==> HasStart(rows, p, groups[p].earliest))
    && (forall p, o :: p in groups && o in groups[p].offsets ==> HasRow(rows, p, o, groups[p].offsets[o]))
  }

  method GroupRows(rows: seq<Located>) returns (groups: map<string, Group>)
    ensures Grouped(rows, groups)
  {
    hide Grouped;
    groups := map[];
    NoGroups();
    for n := 0 to |rows|
      invariant Grouped(rows[..n], groups)
    {
      var r := rows[n];
      var g := if r.path in groups then groups[r.path] else Group(map[], r.tsStart);
      g := g.(offsets := g.offsets[r.offset := r.id]);
      if r.tsStart < g.earliest { g := g.(earliest := r.tsStart); }
      ghost var before := groups;
      groups := groups[r.path := g];
      GroupOne(rows[..n], before, r, groups);
      assert rows[..n + 1] == rows[..n] + [r];
    }
    assert rows[..|rows|] == rows;
  }

  lemma NoGroups()
    ensures Grouped([], map[])
  {
  }

  function AddRow(groups: map<string, Group>, r: Located): map<string, Group> {
    var g := if r.path in groups then groups[r.path] else Group(map[], r.tsStart);
    groups[r.path := Group(g.offsets[r.offset := r.id], if r.tsStart < g.earliest then r.tsStart else g.earliest)]
  }

  lemma GroupOne(rows: seq<Located>, groups: map<string, Group>, r: Located, after: map<string, Group>)
    requires Grouped(rows, groups) && after == AddRow(groups, r)
    ensures Grouped(rows + [r], after)
  {
    hide HasRow, HasStart;
    var all := rows + [r];
    LastIsThere(rows, r);
    forall p | p in after
      ensures HasStart(all, p, after[p].earliest)
    {
      if p in groups { StartStays(rows, r, p, groups[p].earliest); }
    }
    forall p, o | p in after && o in after[p].offsets
      ensures HasRow(all, p, o, after[p].offsets[o])
    {
      if p in groups && o in groups[p].offsets { RowStays(rows, r, p, o, groups[p].offsets[o]); }
    }
  }

  lemma LastIsThere(rows: seq<Located>, r: Located)
    ensures HasStart(rows + [r], r.path, r.tsStart) && HasRow(rows + [r], r.path, r.offset, r.id)
  {
    assert (rows + [r])[|rows|] == r;
  }

  lemma StartStays(rows: seq<Located>, r: Located, path: string, tsStart: int)
    requires HasStart(rows, path, tsStart)
    ensures HasStart(rows + [r], path, tsStart)
  {
    var i :| 0 <= i < |rows| && rows[i].path == path && rows[i].tsStart == tsStart;
    assert (rows + [r])[i] == rows[i];
  }

  lemma RowStays(rows: seq<Located>, r: Located, path: string, offset: int, id: string)
    requires HasRow(rows, path, offset, id)
    ensures HasRow(rows + [r], path, offset, id)
  {
    var i :| 0 <= i < |rows| && rows[i].path == path && rows[i].offset == offset && rows[i].id == id;
    assert (rows + [r])[i] == rows[i];
  }
}
