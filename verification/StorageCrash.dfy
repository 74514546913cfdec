/** Crashes inside deleteIfIdle, and what one reconcileOrphans pass repairs. */
module StorageCrash {
  import opened Wrappers
  import opened Lines
  import opened Leases
  import opened StorageProtocol
  import opened StorageInvariant
  import opened StorageSafety

  /** The crash fell between the two removes, and an earlier failed compression had left a
      broken gz file behind. */
  predicate LoneTornGz(s: State) {
    s.mon.MPlainGone? && s.mon.b in s.disk.gz && s.disk.gz[s.mon.b].Torn?
  }

  /** After a crash at any point and one repair pass, the protocol's invariant holds again,
      so the index agrees with the files and goes on agreeing, exactly unless the crash left
      a lone torn gz file. */
  lemma RepairRestores(s: State)
    requires Inv(s)
    ensures Inv(Repair(Crash(s))) <==> !LoneTornGz(s)
  {
    var c := Repair(Crash(s));
    assert forall k :: Holders(c.leases, k) == {};
    forall b ensures BucketDisk(c, b) <==> !(LoneTornGz(s) && s.mon.b == b) {
      assert BucketDisk(s, b);
    }
    if LoneTornGz(s) {
      assert !BucketDisk(c, s.mon.b);
    } else {
      forall id | id in c.rows ensures RowAgrees(c.disk, c.rows[id]) { SurvivorAgrees(s, id); }
      assert InvTable(c) && InvOwn(c) && InvMon(c) && InvDates(c);
      assert InvDisk(c) && InvRows(c) && InvExport(c);
    }
  }

  lemma SurvivorAgrees(s: State, id: string)
    requires Inv(s) && id in Repair(Crash(s)).rows
    requires LoneTornGz(s) ==> s.rows[id].bucket != s.mon.b
    ensures RowAgrees(s.disk, s.rows[id])
  {
    assert BucketDisk(s, s.rows[id].bucket);
  }

  /** The rows themselves: after repair every row can be read back, exactly unless the
      bucket with the lone torn gz file has rows. */
  lemma RepairedRowsAgree(s: State)
    requires Inv(s)
    ensures (forall id :: id in Repair(Crash(s)).rows ==> RowAgrees(s.disk, Repair(Crash(s)).rows[id]))
       <==> !(LoneTornGz(s) && exists id :: id in s.rows && s.rows[id].bucket == s.mon.b)
  {
    var c := Repair(Crash(s));
    if LoneTornGz(s) && exists id :: id in s.rows && s.rows[id].bucket == s.mon.b {
      var id :| id in s.rows && s.rows[id].bucket == s.mon.b;
      assert id in c.rows && !RowAgrees(s.disk, c.rows[id]);
    } else {
      forall id | id in c.rows ensures RowAgrees(s.disk, c.rows[id]) {
        SurvivorAgrees(s, id);
      }
    }
  }

  /** Any number of lives, each ended by a crash and begun by a repair. */
  ghost predicate CanLive(s: State, lives: seq<seq<Act>>)
    decreases |lives|
  {
    lives == [] || (CanRun(s, lives[0])
                    && !LoneTornGz(Run(s, lives[0]))
                    && CanLive(Repair(Crash(Run(s, lives[0]))), lives[1..]))
  }

  ghost function Live(s: State, lives: seq<seq<Act>>): State
    requires CanLive(s, lives)
    decreases |lives|
  {
    if lives == [] then s else Live(Repair(Crash(Run(s, lives[0]))), lives[1..])
  }

  lemma {:induction false} InvariantSurvivesCrashes(s: State, lives: seq<seq<Act>>)
    requires Inv(s) && CanLive(s, lives)
    ensures Inv(Live(s, lives))
    decreases |lives|
  {
    if lives != [] {
      RunInv(s, lives[0]);
      RepairRestores(Run(s, lives[0]));
      InvariantSurvivesCrashes(Repair(Crash(Run(s, lives[0]))), lives[1..]);
    }
  }

  // ----- Runs that show the conditions are needed -----

  /** The writer at rest, with no file open and nothing marked. */
  predicate Quiet(s: State) {
    s.pc.WIdle? && s.handles == {} && s.tab == Table(map[], {}) && s.leases == map[]
  }

  function AfterVisit(s: State, rec: Rec, date: int): State {
    var b := Bucket(date, rec.hash);
    var was := if b in s.disk.plain then s.disk.plain[b] else [];
    Put(s, b, was + rec.line).(rows := s.rows[rec.id := Row(b, |was|, rec.line)], lastDate := date)
  }

  /** The writer opens a bucket, appends one record and indexes it, then idle-closes the file. */
  lemma Visit(s: State, rec: Rec, date: int) returns (acts: seq<Act>)
    requires Quiet(s) && date >= s.lastDate
    ensures CanRun(s, acts) && Run(s, acts) == AfterVisit(s, rec, date)
  {
    var b := Bucket(date, rec.hash);
    var first := Append(s, rec, date);
    var s1, last := CloseAfter(s, rec, date);
    RunConcat(s, first, last);
    acts := first + last;
  }

  function Existing(s: State, b: Bucket): Bytes {
    if b in s.disk.plain then s.disk.plain[b] else []
  }

  function AfterOpen(s: State, rec: Rec, date: int): State {
    var b := Bucket(date, rec.hash);
    Grant(Put(s, b, Existing(s, b)), Handle(b), b).(handles := {b}, lastDate := date, pc := WHave(b, rec))
  }

  function AfterAppend(s: State, rec: Rec, date: int): State {
    var b := Bucket(date, rec.hash);
    Grant(AfterVisit(s, rec, date), Handle(b), b).(handles := {b})
  }

  lemma OpenBucket(s: State, rec: Rec, date: int) returns (acts: seq<Act>)
    requires Quiet(s) && date >= s.lastDate
    ensures CanRun(s, acts) && Run(s, acts) == AfterOpen(s, rec, date)
  {
    var b := Bucket(date, rec.hash);
    var s1 := s.(lastDate := date, pc := WRotate(b, rec));
    assert Enabled(s, W(Begin(rec, date))) && Step(s, W(Begin(rec, date))) == s1;
    var s2 := s1.(pc := WAcquire(b, rec));
    assert Enabled(s1, W(RotDone)) && Step(s1, W(RotDone)) == s2;
    var s3 := Grant(s2, InHand, b).(pc := WOpen(b, rec));
    assert Enabled(s2, W(AcqOk)) && Step(s2, W(AcqOk)) == s3;
    var s4 := AfterOpen(s, rec, date);
    OpenGives(s, rec, date, s3);
    acts := Before(s3, W(OpenOk), []);
    acts := Before(s2, W(AcqOk), acts);
    acts := Before(s1, W(RotDone), acts);
    acts := Before(s, W(Begin(rec, date)), acts);
  }

  lemma OpenGives(s: State, rec: Rec, date: int, s3: State)
    requires Quiet(s)
    requires var b := Bucket(date, rec.hash);
             s3 == Grant(s.(lastDate := date), InHand, b).(pc := WOpen(b, rec))
    ensures Enabled(s3, W(OpenOk)) && Step(s3, W(OpenOk)) == AfterOpen(s, rec, date)
  {
    var b := Bucket(date, rec.hash);
    var s4, t := Step(s3, W(OpenOk)), AfterOpen(s, rec, date);
    assert s4.leases == t.leases;
    assert s4.disk.plain == t.disk.plain;
  }

  lemma Append(s: State, rec: Rec, date: int) returns (acts: seq<Act>)
    requires Quiet(s) && date >= s.lastDate
    ensures CanRun(s, acts) && Run(s, acts) == AfterAppend(s, rec, date)
  {
    var open := OpenBucket(s, rec, date);
    var write := WriteRecord(s, rec, date);
    RunConcat(s, open, write);
    acts := open + write;
  }

  lemma WriteRecord(s: State, rec: Rec, date: int) returns (acts: seq<Act>)
    requires Quiet(s)
    ensures CanRun(AfterOpen(s, rec, date), acts) && Run(AfterOpen(s, rec, date), acts) == AfterAppend(s, rec, date)
  {
    var b := Bucket(date, rec.hash);
    var s0 := AfterOpen(s, rec, date);
    var s1 := s0.(pc := WSized(b, rec, |Existing(s, b)|));
    assert Enabled(s0, W(Size)) && Step(s0, W(Size)) == s1;
    var s2 := Put(s1, b, Existing(s, b) + rec.line).(pc := WWrote(b, rec, |Existing(s, b)|));
    assert Enabled(s1, W(WriteOk)) && Step(s1, W(WriteOk)) == s2;
    RowGives(s, rec, date, s2);
    acts := Before(s2, W(RowOk), []);
    acts := Before(s1, W(WriteOk), acts);
    acts := Before(s0, W(Size), acts);
  }

  lemma RowGives(s: State, rec: Rec, date: int, s2: State)
    requires Quiet(s)
    requires var b := Bucket(date, rec.hash);
             s2 == Put(AfterOpen(s, rec, date), b, Existing(s, b) + rec.line).(pc := WWrote(b, rec, |Existing(s, b)|))
    ensures Enabled(s2, W(RowOk)) && Step(s2, W(RowOk)) == AfterAppend(s, rec, date)
  {
    assert Step(s2, W(RowOk)).disk.plain == AfterAppend(s, rec, date).disk.plain;
  }

  lemma CloseAfter(s: State, rec: Rec, date: int) returns (open: State, acts: seq<Act>)
    requires Quiet(s) && date >= s.lastDate
    ensures open == AfterAppend(s, rec, date)
    ensures CanRun(open, acts) && Run(open, acts) == AfterVisit(s, rec, date)
  {
    var b := Bucket(date, rec.hash);
    open := AfterAppend(s, rec, date);
    var s1 := Step(open, W(IdleSwap(b)));
    var s2 := Step(s1, W(RelDec));
    assert s2.tab.refs == map[];
    assert s2.leases == map[];
    acts := Before(s1, W(RelDec), []);
    acts := Before(open, W(IdleSwap(b)), acts);
  }

  lemma Before(s: State, a: Act, rest: seq<Act>) returns (acts: seq<Act>)
    requires Enabled(s, a) && CanRun(Step(s, a), rest)
    ensures acts == [a] + rest && CanRun(s, acts) && Run(s, acts) == Run(Step(s, a), rest)
  {
    acts := [a] + rest;
    assert acts[1..] == rest;
  }

  const B1 := Bucket(1, "k")
  const REC1 := Rec("r1", "k", [1, LF])
  const REC2 := Rec("r2", "k", [2, LF])

  /** A bucket written, closed and then caught by a crash just before its rows go. */
  lemma OrphanedBucket() returns (s: State)
    ensures Reachable(s) && Quiet(Crash(s)) && Crash(s).lastDate == 1 && Crash(s).disk == Disk(map[], map[])
    ensures Crash(s).rows == map["r1" := Row(B1, 0, REC1.line)] && Crash(s).mon.MIdle?
  {
    var first := Visit(INIT, REC1, 1);
    var v := AfterVisit(INIT, REC1, 1);
    var s1 := Step(v, M(Mark(B1)));
    var s2 := Step(s1, M(RmPlain));
    s := Step(s2, M(RmGz));
    var second := Before(s2, M(RmGz), []);
    second := Before(s1, M(RmPlain), second);
    second := Before(v, M(Mark(B1)), second);
    RunConcat(INIT, first, second);
  }

  /** Writing to the bucket again before a repair pass makes the surviving row point at
      another trace's line. */
  lemma UnrepairedAppendMisleads() returns (s: State, acts: seq<Act>)
    ensures Reachable(s) && CanRun(Crash(s), acts)
    ensures var t := Run(Crash(s), acts);
      "r1" in t.rows && t.rows["r1"].bucket !in t.tab.deleting && Content(t.disk, B1).Some? && !RowAgrees(t.disk, t.rows["r1"])
  {
    s := OrphanedBucket();
    acts := Visit(Crash(s), REC2, 1);
    var t := AfterVisit(Crash(s), REC2, 1);
    assert t.disk.plain[B1] == [2, LF];
    assert t.disk.plain[B1][0..2][0] == 2;
  }

  /** When a writer step does come between the stats and the DELETE of one loop body,
      reconcileOrphans deletes the row of a line that is in the file. */
  lemma InterleavedReconcileLosesRow() returns (s: State, before: seq<Act>, after: seq<Act>)
    ensures Reachable(s) && CanRun(Crash(s), before) && CanRun(Run(Crash(s), before), after)
    ensures var t := Run(Crash(s), before); "r2" in t.rows && RowAgrees(t.disk, t.rows["r2"])
    ensures var t := Run(Run(Crash(s), before), after);
      "r2" !in t.rows && Content(t.disk, B1) == Some(REC2.line)
  {
    s := OrphanedBucket();
    var c := Crash(s);
    var s1 := Step(c, M(StatPlain(B1)));
    var s2 := Step(s1, M(StatGz));
    var looked := Before(s1, M(StatGz), []);
    looked := Before(c, M(StatPlain(B1)), looked);
    var visit := Visit(s2, REC2, 1);
    RunConcat(c, looked, visit);
    before := looked + visit;
    var t := AfterVisit(s2, REC2, 1);
    assert t.disk.plain[B1] == REC2.line;
    assert t.disk.plain[B1][0..2] == REC2.line;
    var t1 := Step(t, M(CheckLease));
    after := Before(t1, M(DelOrphans), []);
    after := Before(t, M(CheckLease), after);
  }

  /** The lone torn gz file can happen, and then a row stays that nothing can read. */
  lemma LoneTornGzReachable() returns (s: State)
    ensures Reachable(s) && LoneTornGz(s)
    ensures "r1" in Repair(Crash(s)).rows && !RowAgrees(s.disk, Repair(Crash(s)).rows["r1"])
  {
    var first := Append(INIT, REC1, 1);
    var s0 := AfterAppend(INIT, REC1, 1);
    var handed, rotate := HandOver(s0);
    RunConcat(INIT, first, rotate);
    s, rotate := TornThenDeleted(handed), first + rotate;
    var last := TornRun(handed);
    RunConcat(INIT, rotate, last);
  }

  lemma HandOver(s0: State) returns (t: State, acts: seq<Act>)
    requires s0 == AfterAppend(INIT, REC1, 1)
    ensures CanRun(s0, acts) && Run(s0, acts) == t
    ensures t.workers == map[B1 := GStart] && t.tab == Table(map[], {}) && t.mon.MIdle?
    ensures t.disk == s0.disk && t.rows == s0.rows
  {
    var s1 := Step(s0, W(Begin(REC2, 2)));
    var s2 := Step(s1, W(RotSwap(B1)));
    t := Step(s2, W(RotDec));
    acts := Before(s2, W(RotDec), []);
    acts := Before(s1, W(RotSwap(B1)), acts);
    acts := Before(s0, W(Begin(REC2, 2)), acts);
  }

  /** What a compression that fails leaving a torn file makes of `s`, and then a deletion cut short. */
  function TornThenDeleted(s: State): State {
    DropPlain(AfterTorn(s), B1).(tab := Table(map[], {B1}), mon := MPlainGone(B1))
  }

  function AfterTorn(s: State): State {
    PutGz(s, B1, Torn).(workers := map[], leases := s.leases - {Worker(B1)})
  }

  lemma TornRun(s: State) returns (acts: seq<Act>)
    requires s.workers == map[B1 := GStart] && s.tab == Table(map[], {}) && s.mon.MIdle? && B1 in s.disk.plain
    ensures CanRun(s, acts) && Run(s, acts) == TornThenDeleted(s)
  {
    var first := TornCompression(s);
    var t := AfterTorn(s);
    var t1 := Step(t, M(Mark(B1)));
    assert Step(t1, M(RmPlain)) == TornThenDeleted(s);
    var last := Before(t1, M(RmPlain), []);
    last := Before(t, M(Mark(B1)), last);
    RunConcat(s, first, last);
    acts := first + last;
  }

  lemma TornCompression(s: State) returns (acts: seq<Act>)
    requires s.workers == map[B1 := GStart] && s.tab == Table(map[], {}) && s.mon.MIdle? && B1 in s.disk.plain
    ensures CanRun(s, acts) && Run(s, acts) == AfterTorn(s)
  {
    var leased := GAt(Grant(s, Worker(B1), B1), B1, GLeased);
    assert Enabled(s, G(B1, GAcqOk)) && Step(s, G(B1, GAcqOk)) == leased;
    var created := GAt(PutGz(leased, B1, Torn), B1, GCreated);
    var reading := GAt(leased, B1, GOpened);
    assert Step(reading, G(B1, GCreateOk)) == created;
    var done := GAt(created, B1, GDone);
    assert Step(created, G(B1, GCopyFail(LeftTorn))) == done;
    acts := TornRelease(s, done);
    acts := Before(created, G(B1, GCopyFail(LeftTorn)), acts);
    acts := Before(reading, G(B1, GCreateOk), acts);
    acts := Before(leased, G(B1, GOpenOk), acts);
    acts := Before(s, G(B1, GAcqOk), acts);
  }

  lemma TornRelease(s: State, done: State) returns (acts: seq<Act>)
    requires s.tab == Table(map[], {})
    requires s.workers == map[B1 := GStart]
    requires done == GAt(PutGz(Grant(s, Worker(B1), B1), B1, Torn), B1, GDone)
    ensures CanRun(done, acts) && Run(done, acts) == AfterTorn(s)
  {
    var swapped := Step(done, G(B1, GSwap));
    var t := Step(swapped, G(B1, GDec));
    assert t.tab.refs == map[] && t.workers == map[];
    assert t.leases == AfterTorn(s).leases;
    acts := Before(swapped, G(B1, GDec), []);
    acts := Before(done, G(B1, GSwap), acts);
  }
}
