/** Capturing a body with a cap and stamping its events (internal/capture/drain.go and
    attachTimings of internal/parser/parse.go). Times are integers in nanoseconds. */
module Capture {
  import opened Wrappers
  import opened Lines
  import opened Numbers
  import opened Sse
  import opened SseFrames

  datatype Chunk = Chunk(data: Bytes, at: int)
  datatype ChunkTiming = ChunkTiming(offset: int, at: int)

  /** What the k-th Write to the tmp file does; a short write fails, perhaps because the file is closed. */
  datatype Io = Full | Short(n: nat, closed: bool)

  datatype DrainResult = DrainResult(
    bytesWritten: int, truncated: bool, firstByteAt: int, failed: bool, timings: seq<ChunkTiming>)

  function All(chunks: seq<Chunk>): Bytes {
    if chunks == [] then [] else All(chunks[..|chunks| - 1]) + chunks[|chunks| - 1].data
  }

  function Quota(cap: int): nat {
    if cap < 0 then 0 else cap
  }

  /** The bytes a faultless capture keeps. */
  function Kept(chunks: seq<Chunk>, cap: int): Bytes {
    All(chunks)[..Min(|All(chunks)|, Quota(cap))]
  }

  /** One stamp per nonempty chunk that starts below the quota. */
  function Stamps(chunks: seq<Chunk>, quota: nat): seq<ChunkTiming> {
    if chunks == [] then []
    else
      var before, last := chunks[..|chunks| - 1], chunks[|chunks| - 1];
      Stamps(before, quota)
      + if last.data != [] && |All(before)| < quota then [ChunkTiming(|All(before)|, last.at)] else []
  }

  function FirstByteAt(chunks: seq<Chunk>): int {
    if chunks == [] then 0
    else
      var first, last := FirstByteAt(chunks[..|chunks| - 1]), chunks[|chunks| - 1];
      if first == 0 && last.data != [] then last.at else first
  }

  /** What one more chunk adds to each of the four. */
  lemma OneMoreChunk(chunks: seq<Chunk>, c: Chunk, cap: int)
    ensures All(chunks + [c]) == All(chunks) + c.data
    ensures Kept(chunks + [c], cap) == if |All(chunks)| >= Quota(cap) then Kept(chunks, cap)
                                       else if |All(chunks)| + |c.data| <= Quota(cap) then All(chunks) + c.data
                                       else All(chunks) + c.data[..Quota(cap) - |All(chunks)|]
    ensures Stamps(chunks + [c], Quota(cap)) == Stamps(chunks, Quota(cap))
      + if c.data != [] && |All(chunks)| < Quota(cap) then [ChunkTiming(|All(chunks)|, c.at)] else []
    ensures FirstByteAt(chunks + [c])
         == if FirstByteAt(chunks) == 0 && c.data != [] then c.at else FirstByteAt(chunks)
  {
    assert (chunks + [c])[..|chunks|] == chunks;
  }

  /** The first byte came with the first nonempty chunk, unless that chunk's time is zero: then, as
      if nothing had come yet, with the next one. */
  lemma {:induction false} FirstByteMeans(chunks: seq<Chunk>)
    ensures FirstByteAt(chunks) == 0 <==> forall i :: 0 <= i < |chunks| && chunks[i].data != [] ==> chunks[i].at == 0
    ensures FirstByteAt(chunks) != 0 ==>
      exists i :: (0 <= i < |chunks| && chunks[i].data != [] && chunks[i].at == FirstByteAt(chunks)
                   && forall j :: 0 <= j < i && chunks[j].data != [] ==> chunks[j].at == 0)
  {
    if chunks != [] {
      var init := chunks[..|chunks| - 1];
      FirstByteMeans(init);
      assert forall i :: 0 <= i < |init| ==> init[i] == chunks[i];
      if FirstByteAt(init) != 0 {
        var i :| 0 <= i < |init| && init[i].data != [] && init[i].at == FirstByteAt(init)
                 && forall j :: 0 <= j < i && init[j].data != [] ==> init[j].at == 0;
        assert chunks[i].data != [] && chunks[i].at == FirstByteAt(chunks);
      } else if FirstByteAt(chunks) != 0 {
        assert chunks[|chunks| - 1].at == FirstByteAt(chunks);
      }
    }
  }

  /** Offsets never fall; they repeat when a write put nothing into the file. */
  predicate NonDecreasing(ts: seq<ChunkTiming>) {
    forall i, j :: 0 <= i < j < |ts| ==> ts[i].offset <= ts[j].offset
  }

  /** The write for chunk `j` was the first to fail, with at most `n` bytes in the file: everything
      before it is there, and nothing after it. */
  ghost predicate FailsAt(chunks: seq<Chunk>, cap: int, j: nat, n: nat, file: Bytes, timings: seq<ChunkTiming>) {
    && j < |chunks| && chunks[j].data != [] && |All(chunks[..j])| < Quota(cap)
    && (var room := Min(|chunks[j].data|, Quota(cap) - |All(chunks[..j])|);
        file == All(chunks[..j]) + chunks[j].data[..Min(n, room)])
    && timings == Stamps(chunks[..j + 1], Quota(cap))
  }

  ghost predicate FailedOnce(chunks: seq<Chunk>, cap: int, n: nat, file: Bytes, timings: seq<ChunkTiming>) {
    exists j :: FailsAt(chunks, cap, j, n, file, timings)
  }

  ghost predicate AllFull(io: nat -> Io, n: nat) {
    forall k :: 0 <= k < n ==> io(k).Full?
  }

  lemma OneMoreCall(io: nat -> Io, n: nat)
    ensures AllFull(io, n + 1) <==> AllFull(io, n) && io(n).Full?
    ensures AllFull(io, 0)
  {
  }

  /** Stamps in order, none past the end of the file. */
  ghost predicate Below(ts: seq<ChunkTiming>, written: int) {
    NonDecreasing(ts) && forall k :: 0 <= k < |ts| ==> ts[k].offset <= written
  }

  lemma StampAfter(ts: seq<ChunkTiming>, t: ChunkTiming, written: int)
    requires Below(ts, t.offset) && t.offset <= written
    ensures Below(ts + [t], written)
  {
  }

  /** The k-th write is the k-th stamp's. */
  method Drain(chunks: seq<Chunk>, cap: int, io: nat -> Io) returns (file: Bytes, r: DrainResult)
    ensures r.bytesWritten == |file| && |file| <= Quota(cap) && r.firstByteAt == FirstByteAt(chunks)
    ensures NonDecreasing(r.timings)
    ensures AllFull(io, |r.timings|) ==>
      && file == Kept(chunks, cap) && !r.failed
      && file <= All(chunks) && |file| == (if cap <= 0 then 0 else Min(cap, |All(chunks)|))
      && (r.truncated <==> |All(chunks)| > Quota(cap))
      && r.timings == Stamps(chunks, Quota(cap))
    ensures (forall k :: io(k).Short? ==> !io(k).closed) ==> file <= All(chunks)
    ensures var last := |r.timings| - 1;
      last >= 0 && AllFull(io, last) && io(last).Short? && !io(last).closed ==>
        r.failed && FailedOnce(chunks, cap, io(last).n, file, r.timings)
  {
    hide All, Stamps, FirstByteAt, Kept, Below, AllFull, FailedOnce;
    NoChunks(cap);
    var written, truncated, firstByteAt, failed, stopped := 0, false, 0, false, false;
    var timings: seq<ChunkTiming> := [];
    ghost var open := forall k :: io(k).Short? ==> !io(k).closed;
    file := [];
    var calls := 0;
    OneMoreCall(io, 0);
    for i := 0 to |chunks|
      invariant Below(timings, written)
      invariant written == |file| <= Quota(cap) && firstByteAt == FirstByteAt(chunks[..i])
      invariant open ==> file <= All(chunks[..i])
      invariant open && !stopped ==> file == All(chunks[..i])
      invariant calls == |timings|
      invariant AllFull(io, calls) ==>
        !failed && file == Kept(chunks[..i], cap) && timings == Stamps(chunks[..i], Quota(cap))
      invariant AllFull(io, calls) ==> (truncated <==> |All(chunks[..i])| > Quota(cap)) && (stopped <==> truncated)
      invariant AllFull(io, calls) && !stopped ==> file == All(chunks[..i])
      invariant calls > 0 && AllFull(io, calls - 1) && io(calls - 1).Short? && !io(calls - 1).closed ==>
        failed && stopped && FailedOnce(chunks, cap, io(calls - 1).n, file, timings)
    {
      var c := chunks[i];
      ghost var before := All(chunks[..i]);
      assert chunks[..i + 1] == chunks[..i] + [c];
      OneMoreChunk(chunks[..i], c, cap);
      if |c.data| == 0 {
        assert before + c.data == before;
        continue;
      }
      if firstByteAt == 0 { firstByteAt := c.at; }
      if stopped { continue; }
      var remaining := cap - written;
      if remaining <= 0 {
        truncated, stopped := true, true;
        continue;
      }
      var toWrite := c.data;
      if |toWrite| > remaining {
        toWrite, truncated, stopped := toWrite[..remaining], true, true;
      }
      ghost var stamps := timings;
      timings := timings + [ChunkTiming(written, c.at)];
      var result := io(calls);
      calls := calls + 1;
      var n := if result.Full? then |toWrite| else Min(result.n, |toWrite|);
      assert open ==> file + toWrite[..n] <= before + c.data;
      file, written := file + toWrite[..n], written + n;
      if result.Short? && !result.closed {
        failed, stopped := true, true;
      }
      StampAfter(stamps, ChunkTiming(|file| - n, c.at), written);
      OneMoreCall(io, calls - 1);
      assert AllFull(io, calls) ==> toWrite[..n] == toWrite && file == Kept(chunks[..i + 1], cap);
      if AllFull(io, calls - 1) && result.Short? && !result.closed {
        FailsNow(chunks, i, cap, result.n, file, timings);
      }
    }
    assert chunks[..|chunks|] == chunks;
    KeptIs(chunks, cap);
    BelowIsOrdered(timings, written);
    r := DrainResult(written, truncated, firstByteAt, failed, timings);
  }

  lemma KeptIs(chunks: seq<Chunk>, cap: int)
    ensures Kept(chunks, cap) <= All(chunks)
    ensures |Kept(chunks, cap)| == if cap <= 0 then 0 else Min(cap, |All(chunks)|)
  {
  }

  lemma BelowIsOrdered(ts: seq<ChunkTiming>, written: int)
    requires Below(ts, written)
    ensures NonDecreasing(ts)
  {
  }

  lemma FailsNow(chunks: seq<Chunk>, i: nat, cap: int, n: nat, file: Bytes, timings: seq<ChunkTiming>)
    requires i < |chunks| && chunks[i].data != [] && |All(chunks[..i])| < Quota(cap)
    requires var room := Min(|chunks[i].data|, Quota(cap) - |All(chunks[..i])|);
             file == All(chunks[..i]) + chunks[i].data[..room][..Min(n, room)]
    requires timings == Stamps(chunks[..i + 1], Quota(cap))
    ensures FailedOnce(chunks, cap, n, file, timings)
  {
    var room := Min(|chunks[i].data|, Quota(cap) - |All(chunks[..i])|);
    assert chunks[i].data[..room][..Min(n, room)] == chunks[i].data[..Min(n, room)];
    assert FailsAt(chunks, cap, i, n, file, timings);
  }

  lemma NoChunks(cap: int)
    ensures Below([], 0)
    ensures All([]) == [] && Kept([], cap) == [] && Stamps([], Quota(cap)) == [] && FirstByteAt([]) == 0
  {
  }

  // ----- LookupChunkTime -----

  predicate Rising(ts: seq<ChunkTiming>) {
    forall i, j :: 0 <= i < j < |ts| ==> ts[i].offset < ts[j].offset
  }

  /** Chunk `i` is the one whose stretch of the file contains `offset`. */
  predicate Covers(ts: seq<ChunkTiming>, i: int, offset: int) {
    0 <= i < |ts| && ts[i].offset <= offset && (i + 1 < |ts| ==> offset < ts[i + 1].offset)
  }

  method LookupChunkTime(ts: seq<ChunkTiming>, offset: int) returns (r: Option<int>)
    requires NonDecreasing(ts)
    ensures r.None? <==> ts == [] || offset < ts[0].offset
    ensures r.Some? ==> exists i :: Covers(ts, i, offset) && r.value == ts[i].at
  {
    if |ts| == 0 || offset < ts[0].offset { return None; }
    var lo, hi := 0, |ts|;
    while lo + 1 < hi
      invariant 0 <= lo < hi <= |ts| && ts[lo].offset <= offset && (hi < |ts| ==> offset < ts[hi].offset)
    {
      var mid := (lo + hi) / 2;
      if ts[mid].offset <= offset { lo := mid; } else { hi := mid; }
    }
    assert Covers(ts, lo, offset);
    return Some(ts[lo].at);
  }

  lemma CoversOnce(ts: seq<ChunkTiming>, i: int, j: int, offset: int)
    requires NonDecreasing(ts) && Covers(ts, i, offset) && Covers(ts, j, offset)
    ensures i == j
  {
  }

  // ----- The stamp found is the chunk that supplied the byte -----

  /** The chunk that supplied byte `p` of the capture. */
  function Supplier(chunks: seq<Chunk>, p: nat): (k: nat)
    requires p < |All(chunks)|
    ensures k < |chunks| && |All(chunks[..k])| <= p < |All(chunks[..k])| + |chunks[k].data|
  {
    var n := |chunks| - 1;
    if p < |All(chunks[..n])| then
      var k := Supplier(chunks[..n], p);
      assert chunks[..n][..k] == chunks[..k];
      k
    else n
  }

  lemma {:induction false} StampsRise(chunks: seq<Chunk>, quota: nat)
    ensures var ts := Stamps(chunks, quota);
            Rising(ts) && forall i :: 0 <= i < |ts| ==> 0 <= ts[i].offset < Min(|All(chunks)|, quota)
    ensures Stamps(chunks, quota) != [] <==> |All(chunks)| > 0 && quota > 0
    ensures Stamps(chunks, quota) != [] ==> Stamps(chunks, quota)[0].offset == 0
  {
    if chunks != [] {
      var init, last := chunks[..|chunks| - 1], chunks[|chunks| - 1];
      StampsRise(init, quota);
      assert |All(chunks)| == |All(init)| + |last.data|;
    }
  }

  lemma {:induction false} StampOfByte(chunks: seq<Chunk>, quota: nat, p: nat) returns (i: nat)
    requires p < |All(chunks)| && p < quota
    ensures Covers(Stamps(chunks, quota), i, p) && Stamps(chunks, quota)[i].at == chunks[Supplier(chunks, p)].at
  {
    var n := |chunks| - 1;
    var before := Stamps(chunks[..n], quota);
    StampsRise(chunks[..n], quota);
    if p < |All(chunks[..n])| {
      i := StampOfByte(chunks[..n], quota, p);
    } else {
      i := |before|;
    }
  }

  // ----- attachTimings -----

  datatype TimedEvent = TimedEvent(ev: Event, tDeltaMs: Option<int>)

  /** Whole milliseconds from the trace's start, never negative. */
  function DeltaMs(at: int, tsStart: int): (ms: nat)
    ensures at <= tsStart ==> ms == 0
    ensures at >= tsStart ==> ms * 1_000_000 <= at - tsStart < (ms + 1) * 1_000_000
  {
    if at < tsStart then 0 else (at - tsStart) / 1_000_000
  }

  ghost predicate Stamped(ts: seq<ChunkTiming>, tsStart: int, was: TimedEvent, now: TimedEvent) {
    && now.ev == was.ev
    && (ts == [] || was.ev.offset < ts[0].offset ==> now == was)
    && (ts != [] && ts[0].offset <= was.ev.offset ==>
          exists i :: Covers(ts, i, was.ev.offset) && now.tDeltaMs == Some(DeltaMs(ts[i].at, tsStart)))
  }

  method Delta(at: int, tsStart: int) returns (delta: nat)
    ensures delta == DeltaMs(at, tsStart)
  {
    if at < tsStart { return 0; }
    delta := (at - tsStart) / 1_000_000;
  }

  method AttachTimings(events: array<TimedEvent>, ts: seq<ChunkTiming>, tsStart: int)
    requires NonDecreasing(ts)
    modifies events
    ensures forall k :: 0 <= k < events.Length ==> Stamped(ts, tsStart, old(events[k]), events[k])
  {
    hide DeltaMs;
    for i := 0 to events.Length
      invariant forall k :: 0 <= k < i ==> Stamped(ts, tsStart, old(events[k]), events[k])
      invariant forall k :: i <= k < events.Length ==> events[k] == old(events[k])
    {
      var at := LookupChunkTime(ts, events[i].ev.offset);
      if at.Some? {
        var delta := Delta(at.value, tsStart);
        events[i] := events[i].(tDeltaMs := Some(delta));
      }
    }
  }

  // ----- End to end -----

  /** With no write failure, every event of the captured stream gets the arrival time of the
      chunk that supplied the first byte the parser assigns to it. */
  lemma EventGetsItsChunk(c: Codec, chunks: seq<Chunk>, cap: int, tsStart: int, k: nat, was: TimedEvent, now: TimedEvent)
    requires var evs := ReadAll(c, Kept(chunks, cap)).events; k < |evs| && was.ev == evs[k]
    requires Stamped(Stamps(chunks, Quota(cap)), tsStart, was, now)
    ensures 0 <= was.ev.offset < |All(chunks)|
    ensures now.tDeltaMs == Some(DeltaMs(chunks[Supplier(chunks, was.ev.offset)].at, tsStart))
  {
    var ts := Stamps(chunks, Quota(cap));
    OffsetsAscend(c, Kept(chunks, cap));
    StampsRise(chunks, Quota(cap));
    var j := StampOfByte(chunks, Quota(cap), was.ev.offset);
    var i :| Covers(ts, i, was.ev.offset) && now.tDeltaMs == Some(DeltaMs(ts[i].at, tsStart));
    CoversOnce(ts, i, j, was.ev.offset);
  }

  predicate InOrder(chunks: seq<Chunk>) {
    forall i, j :: 0 <= i < j < |chunks| ==> chunks[i].at <= chunks[j].at
  }

  lemma SupplierMonotone(chunks: seq<Chunk>, p: nat, q: nat)
    requires p <= q < |All(chunks)|
    ensures Supplier(chunks, p) <= Supplier(chunks, q)
  {
    var n := |chunks| - 1;
    if q < |All(chunks[..n])| { SupplierMonotone(chunks[..n], p, q); }
  }

  lemma DeltaMonotone(a: int, b: int, tsStart: int)
    requires a <= b
    ensures DeltaMs(a, tsStart) <= DeltaMs(b, tsStart)
  {
  }

  /** When chunks arrive in time order, t_delta_ms never decreases along the events. */
  lemma DeltasNeverDecrease(c: Codec, chunks: seq<Chunk>, cap: int, tsStart: int, i: nat, j: nat,
                            was: seq<TimedEvent>, now: seq<TimedEvent>)
    requires InOrder(chunks) && |was| == |now| == |ReadAll(c, Kept(chunks, cap)).events| && i <= j < |was|
    requires forall k :: 0 <= k < |was| ==> was[k].ev == ReadAll(c, Kept(chunks, cap)).events[k]
    requires forall k :: 0 <= k < |was| ==> Stamped(Stamps(chunks, Quota(cap)), tsStart, was[k], now[k])
    ensures now[i].tDeltaMs.Some? && now[j].tDeltaMs.Some? && now[i].tDeltaMs.value <= now[j].tDeltaMs.value
  {
    hide All, Stamps, Kept, ReadAll, Supplier;
    EventGetsItsChunk(c, chunks, cap, tsStart, i, was[i], now[i]);
    EventGetsItsChunk(c, chunks, cap, tsStart, j, was[j], now[j]);
    OffsetsAscend(c, Kept(chunks, cap));
    SupplierMonotone(chunks, was[i].ev.offset, was[j].ev.offset);
    var p, q := Supplier(chunks, was[i].ev.offset), Supplier(chunks, was[j].ev.offset);
    DeltaMonotone(chunks[p].at, chunks[q].at, tsStart);
  }
}
