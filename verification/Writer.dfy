/** The writer goroutine as a program (internal/writer/writer.go): every call into the file
    system, the index or the coordinator is one step on the shared world, and the other
    goroutines run between any two of them. `*` stands for a call that may fail. */
module Writer {
  import opened Wrappers
  import opened Lines
  import opened Leases
  import opened StorageProtocol
  import opened StorageInvariant
  import opened StorageSafety
  import opened World

  datatype Stats = Stats(dropWriterFull: nat, dropJSONLFail: nat, dropSQLiteFail: nat, appended: nat, indexed: nat)

  /** A reading of the writer's clock, and the UTC date it falls on. */
  datatype Instant = Instant(ms: int, date: int)

  datatype Outcome = NotWritten | NotIndexed | Indexed

  /** What the calls of one appendOne return, each if it is made: the open, the marshalling, the
      size, the write (a failing one leaves up to `torn` bytes behind) and the insert. */
  datatype Calls = Calls(opens: bool, marshals: bool, sizes: bool, writes: bool, torn: nat, inserts: bool)

  predicate AllSucceed(c: Calls) {
    c.opens && c.marshals && c.sizes && c.writes && c.inserts
  }

  // ----- What the world's log tells of the writer -----

  /** A record begun, or the answer to a request for a lease. */
  datatype Deed = Began(rec: Rec, date: int) | Asked(granted: bool)

  function Tell(before: seq<Deed>, a: Act): seq<Deed> {
    match a
    case W(Begin(rec, date)) => before + [Began(rec, date)]
    case W(AcqOk) => before + [Asked(true)]
    case W(AcqRefused) => before + [Asked(false)]
    case _ => before
  }

  function Told(log: seq<Act>): seq<Deed> {
    if log == [] then [] else Tell(Told(log[..|log| - 1]), log[|log| - 1])
  }

  lemma TellOne(log: seq<Act>, a: Act)
    ensures Told(log + [a]) == Tell(Told(log), a)
  {
    assert (log + [a])[..|log|] == log;
  }

  lemma {:induction false} OthersTellNothing(log: seq<Act>, acts: seq<Act>)
    requires Apart(acts, TheWriter)
    ensures Told(log + acts) == Told(log)
  {
    if acts == [] {
      assert log + acts == log;
    } else {
      var init, last := acts[..|acts| - 1], acts[|acts| - 1];
      assert log + acts == log + init + [last];
      TellOne(log + init, last);
      OthersTellNothing(log, init);
      assert !By(acts[|acts| - 1], TheWriter);
    }
  }

  /** A request in the log was made for the record's bucket, and the mark on it gave the answer. */
  lemma AskedMeans(s: State, log: seq<Act>, i: nat)
    requires CanRun(s, log) && i < |log| && (log[i] == W(AcqOk) || log[i] == W(AcqRefused))
    ensures CanRun(s, log[..i])
    ensures var t := Run(s, log[..i]); t.pc.WAcquire? && (log[i] == W(AcqOk) <==> t.pc.target !in t.tab.deleting)
  {
    StepAt(s, log, i);
  }

  /** The records begun, in order, and how many requests were refused. */
  function Records(told: seq<Deed>): seq<Rec> {
    if told == [] then []
    else
      var before, last := Records(told[..|told| - 1]), told[|told| - 1];
      if last.Began? then before + [last.rec] else before
  }

  function Refusals(told: seq<Deed>): nat {
    if told == [] then 0
    else Refusals(told[..|told| - 1]) + if told[|told| - 1] == Asked(false) then 1 else 0
  }

  /** What one appendOne tells. */
  function Story(rec: Rec, date: int, open: bool, granted: bool): seq<Deed> {
    [Began(rec, date)] + if open then [] else [Asked(granted)]
  }

  lemma StoryAdds(told: seq<Deed>, rec: Rec, date: int, open: bool, granted: bool)
    ensures var after := told + Story(rec, date, open, granted);
            && Records(after) == Records(told) + [rec]
            && Refusals(after) == Refusals(told) + if open || granted then 0 else 1
  {
    var began := told + [Began(rec, date)];
    assert began[..|told|] == told;
    if open {
      assert told + Story(rec, date, open, granted) == began;
    } else {
      var after := began + [Asked(granted)];
      assert told + Story(rec, date, open, granted) == after && after[..|began|] == began;
    }
  }

  // ----- What the writer may rely on while others run -----

  /** The others leave the writer's own state alone and add no row. */
  ghost predicate WriterUndisturbed(s: State, t: State) {
    && t.pc == s.pc && t.handles == s.handles && t.lastDate == s.lastDate
    && forall id :: id in t.rows ==> id in s.rows && t.rows[id] == s.rows[id]
  }

  lemma UndisturbedByWorker(s: State, b: Bucket, g: GAct)
    requires GEnabled(s, b, g)
    ensures WriterUndisturbed(s, GStep(s, b, g))
  {
  }

  lemma UndisturbedByExporter(s: State, i: nat, e: EAct)
    requires EEnabled(s, i, e)
    ensures WriterUndisturbed(s, EStep(s, i, e))
  {
  }

  lemma UndisturbedByMonitor(s: State, m: MAct)
    requires MEnabled(s, m)
    ensures WriterUndisturbed(s, MStep(s, m))
  {
  }

  lemma OthersStep(s: State, a: Act)
    requires Enabled(s, a) && !By(a, TheWriter)
    ensures WriterUndisturbed(s, Step(s, a))
  {
    hide WriterUndisturbed;
    match a
    case G(b, g) => UndisturbedByWorker(s, b, g);
    case E(i, e) => UndisturbedByExporter(s, i, e);
    case M(m) => UndisturbedByMonitor(s, m);
  }

  lemma {:induction false} OthersRun(s: State, acts: seq<Act>)
    requires CanRun(s, acts) && Apart(acts, TheWriter)
    ensures WriterUndisturbed(s, Run(s, acts))
    decreases |acts|
  {
    hide Step, Enabled;
    if acts != [] {
      OthersStep(s, acts[0]);
      OthersRun(Step(s, acts[0]), acts[1..]);
    }
  }

  /** An open file is on disk; before the write its size is the noted offset, and after it the
      record's line stands there. */
  lemma WriterFiles(s: State)
    requires Inv(s)
    ensures forall b :: b in s.handles ==> b in s.disk.plain
    ensures s.pc.WHave? || s.pc.WSized? || s.pc.WWrote? ==> s.pc.target in s.handles
    ensures s.pc.WSized? ==> s.pc.off == |s.disk.plain[s.pc.target]|
    ensures s.pc.WWrote? ==> LineAt(s.disk.plain[s.pc.target], s.pc.off, s.pc.rec.line)
  {
  }

  /** Each open file holds its lease, and so does the writer between acquire and open. */
  lemma WriterLeases(s: State)
    requires Inv(s)
    ensures forall b :: b in s.handles ==> Lookup(s.leases, Handle(b)) == Some(Hold(b, false))
    ensures Lookup(s.leases, InHand) == InHandLease(s.pc)
  {
  }

  /** The file ends with the part of the line that a failing write of it put there. */
  ghost predicate EndsWith(s: State, b: Bucket, line: Line, torn: nat) {
    var k := if torn > |line| then |line| else torn;
    b in s.disk.plain && exists content :: s.disk.plain[b] == content + line[..k]
  }

  ghost predicate LineIsIn(s: State, b: Bucket, line: Line) {
    b in s.disk.plain && exists off: nat :: LineAt(s.disk.plain[b], off, line)
  }

  class Writer {
    const world: World
    const idleTimeout: int
    const capacity: nat
    var files: map<Bucket, int>  // the open files, each with the time of its last write
    var stats: Stats
    var queue: seq<Rec>          // the channel
    ghost var offered: nat       // records given to TrySend so far
    ghost var taken: nat         // records received from the channel so far

    constructor (world: World, capacity: nat, idleTimeout: int)
      requires world.Valid() && world.s.pc.WIdle? && world.s.handles == {}
      ensures Valid() && AtRest() && this.world == world && queue == []
      ensures this.capacity == capacity && this.idleTimeout == idleTimeout
    {
      this.world, this.capacity, this.idleTimeout := world, capacity, idleTimeout;
      files, stats, queue, offered, taken := map[], Stats(0, 0, 0, 0, 0), [], 0, 0;
    }

    /** The map of open files is the set of handles, and every record is accounted for. */
    ghost predicate Valid()
      reads this, world
    {
      && world.Valid() && files.Keys == world.s.handles
      && Conserved(taken)
    }

    ghost predicate Conserved(processed: int)
      reads this
    {
      && stats.appended + stats.dropJSONLFail == processed
      && stats.indexed + stats.dropSQLiteFail == stats.appended
      && offered == taken + |queue| + stats.dropWriterFull
      && |queue| <= capacity
    }

    ghost predicate AtRest()
      reads this, world
    {
      world.s.pc.WIdle?
    }

    /** Never blocks: the record is queued if there is room, else counted as dropped. */
    method TrySend(rec: Rec) returns (ok: bool)
      requires Valid()
      modifies this`stats, this`queue, this`offered
      ensures Valid() && offered == old(offered) + 1
      ensures ok <==> old(|queue|) < capacity
      ensures queue == if ok then old(queue) + [rec] else old(queue)
      ensures stats == if ok then old(stats) else old(stats).(dropWriterFull := old(stats).dropWriterFull + 1)
    {
      offered := offered + 1;
      ok := |queue| < capacity;
      if ok {
        queue := queue + [rec];
      } else {
        stats := stats.(dropWriterFull := stats.dropWriterFull + 1);
      }
    }

    /** Others run; the writer finds its own things as it left them. */
    method Wait()
      requires world.Valid() && files.Keys == world.s.handles
      modifies world
      ensures world.Valid() && files.Keys == world.s.handles
      ensures WriterUndisturbed(old(world.s), world.s) && Told(world.log) == old(Told(world.log))
    {
      hide Inv;
      ghost var before, log := world.s, world.log;
      world.Others(TheWriter);
      ghost var acts :| Apart(acts, TheWriter) && CanRun(before, acts) && world.s == Run(before, acts)
                        && world.log == log + acts;
      OthersRun(before, acts);
      OthersTellNothing(log, acts);
    }

    /** One step of the writer on the world. */
    method Do(a: WAct)
      requires world.Valid() && WEnabled(world.s, a)
      modifies world
      ensures world.Valid() && world.s == WStep(old(world.s), a)
      ensures Told(world.log) == Tell(old(Told(world.log)), W(a))
    {
      hide Inv;
      TellOne(world.log, W(a));
      world.Do(W(a));
    }

    method RotateOne(b: Bucket)
      requires world.Valid() && files.Keys == world.s.handles && world.s.pc.WRotate?
      requires b in files && b.date < world.s.pc.target.date
      modifies world, this`files
      ensures world.Valid() && files.Keys == world.s.handles && files == old(files) - {b}
      ensures world.s.pc == old(world.s).pc && world.s.lastDate == old(world.s).lastDate
      ensures RowsOnlyGo(old(world.s), world.s) && Told(world.log) == old(Told(world.log))
    {
      hide Inv;
      Do(RotSwap(b));
      files := files - {b};
      Wait();
      Do(RotDec);
      Wait();
    }

    /** Closes every open file of an earlier date and hands it to a compression. */
    method Rotate()
      requires world.Valid() && files.Keys == world.s.handles && world.s.pc.WRotate?
      modifies world, this`files
      ensures world.Valid() && files.Keys == world.s.handles
      ensures world.s.pc == WAcquire(old(world.s).pc.target, old(world.s).pc.rec)
      ensures files == map b | b in old(files) && b.date >= old(world.s).pc.target.date :: old(files)[b]
      ensures world.s.lastDate == old(world.s).lastDate && RowsOnlyGo(old(world.s), world.s)
      ensures Told(world.log) == old(Told(world.log))
    {
      hide WStep, Inv;
      ghost var before, was := world.s, files;
      var date := world.s.pc.target.date;
      var todo := files.Keys;
      while todo != {}
        invariant world.Valid() && files.Keys == world.s.handles
        invariant world.s.pc == before.pc && world.s.lastDate == before.lastDate && RowsOnlyGo(before, world.s)
        invariant todo <= files.Keys && Told(world.log) == old(Told(world.log))
        invariant files == map b | b in was && (b in todo || b.date >= date) :: was[b]
        decreases todo
      {
        var b :| b in todo;
        todo := todo - {b};
        if b.date < date { RotateOne(b); }
      }
      FinishRotation();
    }

    method FinishRotation()
      requires world.Valid() && world.s.pc.WRotate? && forall b :: b in world.s.handles ==> b.date >= world.s.pc.target.date
      modifies world
      ensures world.Valid() && world.s == old(world.s).(pc := WAcquire(old(world.s).pc.target, old(world.s).pc.rec))
      ensures Told(world.log) == old(Told(world.log))
    {
      hide Inv;
      Do(RotDone);
    }

    /** The file for the record the world's step machine is at: already open, or, after rotation,
        a lease and then an open. */
    method FileFor(date: int, opens: bool) returns (ok: bool, ghost granted: bool)
      requires world.Valid() && files.Keys == world.s.handles
      requires world.s.pc.WHave? || world.s.pc.WRotate?
      requires world.s.pc.target.date == date
      modifies world, this`files
      ensures world.Valid() && files.Keys == world.s.handles
      ensures var pc := old(world.s).pc; world.s.pc == if ok then WHave(pc.target, pc.rec) else WIdle
      ensures ok ==> world.s.pc.target in files
      ensures old(world.s).pc.WHave? ==> ok && Told(world.log) == old(Told(world.log))
      ensures old(world.s).pc.WRotate? ==>
        (ok <==> granted && opens) && Told(world.log) == old(Told(world.log)) + [Asked(granted)]
      ensures old(world.s).pc.WRotate? ==> forall b :: b in files ==> b.date >= date
      ensures world.s.lastDate == old(world.s).lastDate && RowsOnlyGo(old(world.s), world.s)
    {
      hide Inv;
      if world.s.pc.WHave? {
        WriterFiles(world.s);
        return true, true;
      }
      var target := world.s.pc.target;
      Rotate();
      Wait();
      ok, granted := LeaseAndOpen(opens);
      if ok {
        var now := *;
        files := files[target := now];
        Wait();
      }
    }

    /** A granted lease is in hand before anything is opened. */
    method TakeLease() returns (ok: bool)
      requires world.Valid() && files.Keys == world.s.handles && world.s.pc.WAcquire?
      modifies world
      ensures world.Valid() && files.Keys == world.s.handles
      ensures world.s.lastDate == old(world.s).lastDate && RowsOnlyGo(old(world.s), world.s)
      ensures ok <==> old(world.s).tab.CanAcquire(old(world.s).pc.target)
      ensures Told(world.log) == old(Told(world.log)) + [Asked(ok)]
      ensures var pc := old(world.s).pc; world.s.pc == if ok then WOpen(pc.target, pc.rec) else WIdle
      ensures ok ==> Lookup(world.s.leases, InHand) == Some(Hold(old(world.s).pc.target, false))
    {
      hide Inv;
      ok := world.s.tab.CanAcquire(world.s.pc.target);
      if ok {
        Do(AcqOk);
        Wait();
      } else {
        Do(AcqRefused);
      }
      WriterLeases(world.s);
    }

    /** An open that fails gives the lease back; one that succeeds keeps it with the file. */
    method OpenFile(opens: bool) returns (ok: bool)
      requires world.Valid() && files.Keys == world.s.handles && world.s.pc.WOpen?
      modifies world
      ensures ok == opens && Told(world.log) == old(Told(world.log))
      ensures world.Valid() && world.s.lastDate == old(world.s).lastDate && RowsOnlyGo(old(world.s), world.s)
      ensures var pc := old(world.s).pc;
              && world.s.handles == old(world.s).handles + (if ok then {pc.target} else {})
              && world.s.pc == if ok then WHave(pc.target, pc.rec) else WIdle
      ensures ok ==> Lookup(world.s.leases, Handle(old(world.s).pc.target)) == Some(Hold(old(world.s).pc.target, false))
      ensures Lookup(world.s.leases, InHand) == None
    {
      hide Inv;
      ok := opens;
      if ok {
        Do(OpenOk);
      } else {
        Do(OpenFail);
        Wait();
        Do(RelDec);
      }
      WriterLeases(world.s);
    }

    /** The lease comes before the open, stays with the open file and goes back when the open
        fails. */
    method LeaseAndOpen(opens: bool) returns (ok: bool, ghost granted: bool)
      requires world.Valid() && files.Keys == world.s.handles && world.s.pc.WAcquire?
      modifies world
      ensures (ok <==> granted && opens) && Told(world.log) == old(Told(world.log)) + [Asked(granted)]
      ensures world.Valid() && world.s.lastDate == old(world.s).lastDate && RowsOnlyGo(old(world.s), world.s)
      ensures var target := old(world.s).pc.target;
              && world.s.handles == old(world.s).handles + (if ok then {target} else {})
              && world.s.pc == if ok then WHave(target, old(world.s).pc.rec) else WIdle
      ensures ok ==> Lookup(world.s.leases, Handle(old(world.s).pc.target)) == Some(Hold(old(world.s).pc.target, false))
      ensures Lookup(world.s.leases, InHand) == None
    {
      hide Inv, WStep;
      ok := TakeLease();
      granted := ok;
      if ok {
        ok := OpenFile(opens);
      } else {
        WriterLeases(world.s);
      }
    }

    /** The size is noted just before the write. */
    method NoteSize()
      requires world.Valid() && files.Keys == world.s.handles && world.s.pc.WHave?
      modifies world
      ensures world.Valid() && files.Keys == world.s.handles && RowsOnlyGo(old(world.s), world.s)
      ensures world.s.lastDate == old(world.s).lastDate && Told(world.log) == old(Told(world.log))
      ensures world.s.pc.WSized? && world.s.pc.rec == old(world.s).pc.rec && world.s.pc.target == old(world.s).pc.target
    {
      hide Inv;
      WriterFiles(world.s);
      Do(Size);
      Wait();
    }

    /** A write that fails may leave any part of the line behind. */
    method WriteBytes(writes: bool, torn: nat) returns (ok: bool)
      requires world.Valid() && files.Keys == world.s.handles && world.s.pc.WSized?
      modifies world
      ensures world.Valid() && files.Keys == world.s.handles && RowsOnlyGo(old(world.s), world.s)
      ensures world.s.lastDate == old(world.s).lastDate && ok == writes && Told(world.log) == old(Told(world.log))
      ensures var pc := old(world.s).pc; world.s.pc == if ok then WWrote(pc.target, pc.rec, pc.off) else WIdle
      ensures !ok ==> var pc := old(world.s).pc; EndsWith(world.s, pc.target, pc.rec.line, torn)
    {
      hide Inv;
      WriterFiles(world.s);
      ok := writes;
      if ok {
        Do(WriteOk);
      } else {
        var line := world.s.pc.rec.line;
        ghost var content := world.s.disk.plain[world.s.pc.target];
        Do(WriteTorn(if torn > |line| then |line| else torn));
        assert content + line[..if torn > |line| then |line| else torn] == world.s.disk.plain[old(world.s).pc.target];
      }
    }

    method Abandon()
      requires world.Valid() && files.Keys == world.s.handles && world.s.pc.WHave?
      modifies world
      ensures world.Valid() && world.s == old(world.s).(pc := WIdle) && Told(world.log) == old(Told(world.log))
    {
      hide Inv;
      Do(GiveUp);
    }

    /** The middle of appendOne: marshal, note the size, write. */
    method WriteLine(rec: Rec, now: Instant, calls: Calls) returns (ok: bool)
      requires world.Valid() && files.Keys == world.s.handles
      requires world.s.pc.WHave? && world.s.pc.rec == rec
      modifies world, this`files, this`stats
      ensures world.Valid() && files.Keys == world.s.handles
      ensures RowsOnlyGo(old(world.s), world.s) && world.s.lastDate == old(world.s).lastDate
      ensures (ok <==> calls.marshals && calls.sizes && calls.writes) && Told(world.log) == old(Told(world.log))
      ensures !ok ==> AtRest() && stats == Counted(old(stats), NotWritten)
      ensures !ok && calls.marshals && calls.sizes ==> EndsWith(world.s, old(world.s).pc.target, rec.line, calls.torn)
      ensures ok ==> world.s.pc.WWrote? && world.s.pc.rec == rec && world.s.pc.target == old(world.s).pc.target
      ensures ok ==> world.s.pc.target in world.s.disk.plain
      ensures ok ==> LineAt(world.s.disk.plain[world.s.pc.target], world.s.pc.off, rec.line)
      ensures ok ==> files == old(files)[world.s.pc.target := now.ms]
      ensures ok ==> stats == old(stats).(appended := old(stats).appended + 1)
    {
      hide Inv;
      WriterFiles(world.s);
      hide WStep, Inv;
      var target := world.s.pc.target;
      if !calls.marshals || !calls.sizes {
        Abandon();
        CountJSONLFail();
        return false;
      }
      NoteSize();
      ok := WriteBytes(calls.writes, calls.torn);
      if !ok {
        CountJSONLFail();
        return;
      }
      files := files[target := now.ms];
      stats := stats.(appended := stats.appended + 1);
      Wait();
      WriterFiles(world.s);
    }

    /** The end of appendOne: the row, naming the offset noted before the write. */
    method IndexRow(rec: Rec, inserts: bool) returns (ok: bool)
      requires world.Valid() && files.Keys == world.s.handles
      requires world.s.pc.WWrote? && world.s.pc.rec == rec
      modifies world, this`stats
      ensures world.Valid() && files.Keys == world.s.handles && AtRest() && world.s.lastDate == old(world.s).lastDate
      ensures ok == inserts && Told(world.log) == old(Told(world.log))
      ensures ok ==> rec.id in world.s.rows && RowAgrees(world.s.disk, world.s.rows[rec.id])
      ensures ok ==> world.s.rows[rec.id].bucket == old(world.s).pc.target && world.s.rows[rec.id].line == rec.line
      ensures !ok ==> LineIsIn(world.s, old(world.s).pc.target, rec.line)
      ensures forall id :: id in world.s.rows && (id != rec.id || !ok) ==>
        id in old(world.s).rows && world.s.rows[id] == old(world.s).rows[id]
      ensures stats == if ok then old(stats).(indexed := old(stats).indexed + 1)
                       else old(stats).(dropSQLiteFail := old(stats).dropSQLiteFail + 1)
    {
      hide Inv;
      WriterFiles(world.s);
      ok := inserts;
      if ok {
        Do(RowOk);
        stats := stats.(indexed := stats.indexed + 1);
      } else {
        Do(RowFail);
        stats := stats.(dropSQLiteFail := stats.dropSQLiteFail + 1);
      }
    }

    method BeginRecord(rec: Rec, now: Instant)
      requires world.Valid() && files.Keys == world.s.handles && AtRest() && now.date >= world.s.lastDate
      modifies world
      ensures world.Valid() && files.Keys == world.s.handles && (world.s.pc.WHave? || world.s.pc.WRotate?)
      ensures world.s.pc.rec == rec && world.s.pc.target == Bucket(now.date, rec.hash)
      ensures RowsOnlyGo(old(world.s), world.s) && world.s.lastDate == now.date
      ensures world.s.pc.WHave? <==> Bucket(now.date, rec.hash) in old(files)
      ensures Told(world.log) == old(Told(world.log)) + [Began(rec, now.date)]
    {
      hide Inv;
      Do(Begin(rec, now.date));
      Wait();
    }

    /** appendOne, on the record just received. The line goes unwritten exactly when a bucket not
        yet open is refused or a call before the end of the write fails, and a written one goes
        unindexed exactly when the insert fails. The row goes in only after the line is on disk at
        the offset the row names; whatever fails, one counter says so. */
    method AppendOne(rec: Rec, now: Instant, calls: Calls) returns (outcome: Outcome, ghost granted: bool)
      requires world.Valid() && files.Keys == world.s.handles && AtRest() && Conserved(taken - 1)
      requires now.date >= world.s.lastDate
      modifies world, this`files, this`stats
      ensures Valid() && AtRest() && world.s.lastDate == now.date
      ensures var open := Bucket(now.date, rec.hash) in old(files);
              && Told(world.log) == old(Told(world.log)) + Story(rec, now.date, open, granted)
              && (outcome.NotWritten? <==>
                    (!open && (!granted || !calls.opens)) || !calls.marshals || !calls.sizes || !calls.writes)
              && (!outcome.NotWritten? ==> (outcome.Indexed? <==> calls.inserts))
      ensures outcome.Indexed? ==>
        && rec.id in world.s.rows && RowAgrees(world.s.disk, world.s.rows[rec.id])
        && world.s.rows[rec.id].bucket == Bucket(now.date, rec.hash) && world.s.rows[rec.id].line == rec.line
      ensures outcome.NotIndexed? ==> LineIsIn(world.s, Bucket(now.date, rec.hash), rec.line)
      ensures forall id :: id in world.s.rows && (id != rec.id || !outcome.Indexed?) ==>
        id in old(world.s).rows && world.s.rows[id] == old(world.s).rows[id]
      ensures stats == Counted(old(stats), outcome)
      ensures !outcome.NotWritten? ==>
        Bucket(now.date, rec.hash) in files && files[Bucket(now.date, rec.hash)] == now.ms
    {
      hide WStep, RowAgrees, LineIsIn, Inv, Told, Run, CanRun;
      BeginRecord(rec, now);
      var found;
      found, granted := FileFor(now.date, calls.opens);
      if !found {
        CountJSONLFail();
        return NotWritten, granted;
      }
      var written := WriteLine(rec, now, calls);
      if !written { return NotWritten, granted; }
      WriterFiles(world.s);
      var indexed := IndexRow(rec, calls.inserts);
      outcome := if indexed then Indexed else NotIndexed;
    }

    method CountJSONLFail()
      modifies this`stats
      ensures stats == Counted(old(stats), NotWritten)
    {
      stats := stats.(dropJSONLFail := stats.dropJSONLFail + 1);
    }

    method CloseOne(b: Bucket)
      requires world.Valid() && files.Keys == world.s.handles && AtRest() && b in files
      modifies world, this`files
      ensures world.Valid() && files.Keys == world.s.handles && AtRest()
      ensures files == old(files) - {b} && Told(world.log) == old(Told(world.log))
      ensures RowsOnlyGo(old(world.s), world.s) && world.s.lastDate == old(world.s).lastDate
    {
      hide Inv;
      Do(IdleSwap(b));
      files := files - {b};
      Wait();
      Do(RelDec);
      Wait();
    }

    /** idleSweep: files quiet for the timeout are closed and their leases given back. */
    method IdleSweep(now: int)
      requires Valid() && AtRest()
      modifies world, this`files
      ensures Valid() && AtRest() && RowsOnlyGo(old(world.s), world.s) && world.s.lastDate == old(world.s).lastDate
      ensures Told(world.log) == old(Told(world.log))
      ensures files == if idleTimeout <= 0 then old(files)
                       else map b | b in old(files) && now - old(files)[b] < idleTimeout :: old(files)[b]
    {
      hide WStep, Inv;
      if idleTimeout <= 0 { return; }
      ghost var before, was := world.s, files;
      var todo := files.Keys;
      while todo != {}
        invariant Valid() && AtRest() && RowsOnlyGo(before, world.s) && world.s.lastDate == before.lastDate
        invariant todo <= files.Keys && Told(world.log) == old(Told(world.log))
        invariant files == map b | b in was && (b in todo || now - was[b] < idleTimeout) :: was[b]
        decreases todo
      {
        var b :| b in todo;
        todo := todo - {b};
        if now - files[b] >= idleTimeout { CloseOne(b); }
      }
    }

    method SweepSometimes(ticks: nat)
      requires Valid() && AtRest()
      modifies world, this`files
      ensures Valid() && AtRest() && Told(world.log) == old(Told(world.log))
    {
      hide Inv;
      for i := 0 to ticks
        invariant Valid() && AtRest() && Told(world.log) == old(Told(world.log))
      {
        var now: int := *;
        IdleSweep(now);
        Wait();
      }
    }

    /** runLoop once the channel is closed, with the results of each record's calls: what is
        queued is received and appended, in order, with any number of idle sweeps in between. With
        no failing call every record is indexed but those whose lease was refused. */
    method RunLoop(calls: seq<Calls>)
      requires Valid() && AtRest() && |calls| == |queue|
      modifies world, this`files, this`stats, this`queue, this`taken
      ensures Valid() && AtRest() && queue == []
      ensures stats.appended + stats.dropJSONLFail + stats.dropWriterFull == offered
      ensures stats.indexed + stats.dropSQLiteFail == stats.appended
      ensures offered == old(offered)
      ensures Records(Told(world.log)) == old(Records(Told(world.log))) + old(queue)
      ensures (forall c :: c in calls ==> AllSucceed(c)) ==>
        stats.indexed + Refusals(Told(world.log)) == old(stats.indexed + Refusals(Told(world.log))) + |calls|
    {
      hide Inv, Told, Records, Refusals;
      ghost var good := forall c :: c in calls ==> AllSucceed(c);
      var i := 0;
      while queue != []
        invariant Valid() && AtRest() && offered == old(offered)
        invariant i <= |calls| && queue == old(queue)[i..]
        invariant Records(Told(world.log)) == old(Records(Told(world.log))) + old(queue)[..i]
        invariant good ==> stats.indexed + Refusals(Told(world.log)) == old(stats.indexed + Refusals(Told(world.log))) + i
        decreases |queue|
      {
        var ticks: nat := *;
        SweepSometimes(ticks);
        var rec := queue[0];
        queue, taken := queue[1..], taken + 1;
        var ms: int, days: nat := *, *;
        ghost var told, open := Told(world.log), Bucket(world.s.lastDate + days, rec.hash) in files;
        var date := world.s.lastDate + days;
        assert calls[i] in calls;
        var _, granted := AppendOne(rec, Instant(ms, date), calls[i]);
        StoryAdds(told, rec, date, open, granted);
        i := i + 1;
        assert old(queue)[..i] == old(queue)[..i - 1] + [rec];
        Wait();
      }
      assert old(queue)[..i] == old(queue);
    }

    method StopOne(b: Bucket)
      requires world.Valid() && files.Keys == world.s.handles && b in files
      requires world.s.pc.WStopped? && world.s.workers == map[]
      modifies world, this`files
      ensures world.Valid() && files.Keys == world.s.handles && files == old(files) - {b}
      ensures world.s.pc.WStopped? && world.s.workers == map[] && Told(world.log) == old(Told(world.log))
    {
      hide Inv;
      Do(StopSwap(b));
      files := files - {b};
      WaitQuietly();
      Do(RelDec);
    }

    method EndAppends()
      requires world.Valid() && AtRest() && files.Keys == world.s.handles && world.s.workers == map[]
      modifies world
      ensures world.Valid() && world.s == old(world.s).(pc := WStopped) && Told(world.log) == old(Told(world.log))
    {
      hide Inv;
      Do(WAct.Stop);
    }

    /** The stop function: the channel is drained, the compressions end, and the files that are
        still open are closed with their leases given back. */
    method Stop(calls: seq<Calls>)
      requires Valid() && AtRest() && |calls| == |queue|
      modifies world, this`files, this`stats, this`queue, this`taken
      ensures Valid() && queue == [] && files == map[]
      ensures world.s.pc.WStopped? && world.s.handles == {} && world.s.workers == map[]
      ensures stats.appended + stats.dropJSONLFail + stats.dropWriterFull == offered
      ensures world.s.exporters == map[] ==> world.s.tab.refs == map[]
      ensures Records(Told(world.log)) == old(Records(Told(world.log))) + old(queue)
      ensures (forall c :: c in calls ==> AllSucceed(c)) ==>
        stats.indexed + Refusals(Told(world.log)) == old(stats.indexed + Refusals(Told(world.log))) + |calls|
    {
      hide WStep, Inv, Told, Records, Refusals;
      RunLoop(calls);
      ghost var before, log := world.s, world.log;
      world.WaitForWorkers();
      ghost var acts :| Apart(acts, TheWriter) && CanRun(before, acts) && world.s == Run(before, acts)
                        && world.log == log + acts;
      OthersRun(before, acts);
      OthersTellNothing(log, acts);
      EndAppends();
      ghost var ended := stats;
      while files.Keys != {}
        invariant Told(world.log) == Told(log) && stats == ended
        invariant Valid() && queue == [] && world.s.pc.WStopped? && world.s.workers == map[]
        decreases files.Keys
      {
        var b :| b in files.Keys;
        StopOne(b);
      }
      if world.s.exporters == map[] { StopLeavesNoLease(world.s); }
    }

    /** As Wait; with no compression left, none starts while the writer only closes files. */
    method WaitQuietly()
      requires world.Valid() && files.Keys == world.s.handles && world.s.workers == map[]
      modifies world
      ensures world.Valid() && files.Keys == world.s.handles && world.s.workers == map[]
      ensures WriterUndisturbed(old(world.s), world.s) && Told(world.log) == old(Told(world.log))
    {
      hide Inv;
      ghost var before, log := world.s, world.log;
      world.Others(TheWriter);
      ghost var acts :| Apart(acts, TheWriter) && CanRun(before, acts) && world.s == Run(before, acts)
                        && world.log == log + acts;
      OthersRun(before, acts);
      OthersTellNothing(log, acts);
      NoNewWorkers(before, acts);
    }
  }

  function Counted(stats: Stats, outcome: Outcome): Stats {
    match outcome
    case NotWritten => stats.(dropJSONLFail := stats.dropJSONLFail + 1)
    case NotIndexed => stats.(appended := stats.appended + 1, dropSQLiteFail := stats.dropSQLiteFail + 1)
    case Indexed => stats.(appended := stats.appended + 1, indexed := stats.indexed + 1)
  }

  /** Every row of `t` is a row of `s` unchanged. */
  ghost predicate RowsOnlyGo(s: State, t: State) {
    forall id :: id in t.rows ==> id in s.rows && t.rows[id] == s.rows[id]
  }

  lemma NoNewWorkersStep(s: State, a: Act)
    requires Enabled(s, a) && !By(a, TheWriter) && s.workers == map[]
    ensures Step(s, a).workers == map[]
  {
  }

  lemma {:induction false} NoNewWorkers(s: State, acts: seq<Act>)
    requires CanRun(s, acts) && Apart(acts, TheWriter) && s.workers == map[]
    ensures Run(s, acts).workers == map[]
    decreases |acts|
  {
    hide Step, Enabled;
    if acts != [] {
      NoNewWorkersStep(s, acts[0]);
      NoNewWorkers(Step(s, acts[0]), acts[1..]);
    }
  }
}
