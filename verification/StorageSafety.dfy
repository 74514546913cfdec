/** What the storage protocol guarantees over every run, and what a crash can break. */
module StorageSafety {
  import opened Wrappers
  import opened Lines
  import opened Leases
  import opened StorageProtocol
  import opened StorageInvariant

  ghost predicate Reachable(s: State) {
    exists acts :: CanRun(INIT, acts) && Run(INIT, acts) == s
  }

  lemma ReachableInv(s: State)
    requires Reachable(s)
    ensures Inv(s)
  {
    var acts :| CanRun(INIT, acts) && Run(INIT, acts) == s;
    InitInv();
    RunInv(INIT, acts);
  }

  // ----- The index agrees with the files -----

  /** Wherever the invariant holds, so in every reachable state of every life, seeking to a row's offset and reading one line gives
      exactly the line appended for the row's trace, unless its bucket is being deleted. */
  lemma IndexAgreesWithFiles(s: State, id: string)
    requires Inv(s) && id in s.rows && s.rows[id].bucket !in s.tab.deleting
    ensures var r := s.rows[id]; var c := Content(s.disk, r.bucket);
            c.Some? && r.offset + |r.line| <= |c.value|
            && c.value[r.offset..LineEnd(c.value, r.offset)] == r.line
  {
    var r := s.rows[id];
    assert !BytesGone(s, r.bucket);
    LineEndOfLineAt(Content(s.disk, r.bucket).value, r.offset, r.line);
  }

  /** Only deleteIfIdle takes bytes away: any other step leaves each bucket's content a
      prefix of what it becomes. */
  lemma ContentOnlyGrows(s: State, a: Act, b: Bucket)
    requires Base(s) && Enabled(s, a)
    requires (a == M(RmPlain) || a == M(RmGz)) ==> s.mon.b != b
    ensures Covers(Content(s.disk, b), Content(Step(s, a).disk, b))
  {
    hide Content, WStep, GStep, EStep, MStep;
    match a
    case W(w) => WContent(s, w, b);
    case G(c, g) => CompressionInvisible(s, c, g, b);
    case E(i, e) => EKeepsDisk(s, i, e);
    case M(m) => MOtherContent(s, m, b);
  }

  lemma EKeepsDisk(s: State, i: nat, e: EAct)
    requires EEnabled(s, i, e)
    ensures EStep(s, i, e).disk == s.disk
  {
  }

  lemma MOtherContent(s: State, m: MAct, b: Bucket)
    requires MEnabled(s, m) && (m.RmPlain? || m.RmGz? ==> s.mon.b != b)
    ensures Content(MStep(s, m).disk, b) == Content(s.disk, b)
  {
  }

  /** Compression never changes what a reader finds, at any step or failure exit. */
  lemma CompressionKeepsContent(s: State, b: Bucket, g: GAct, c: Bucket)
    requires Inv(s) && GEnabled(s, b, g)
    ensures Content(GStep(s, b, g).disk, c) == Content(s.disk, c)
  {
    CompressionInvisible(s, b, g, c);
  }

  // ----- Leases -----

  /** refs[k] is the number of leases granted on k and not yet decremented, and a bucket
      with any lease out is not marked deleting. */
  lemma LeaseSafety(s: State, k: Bucket)
    requires Inv(s)
    ensures s.tab.Count(k) == |Holders(s.leases, k)|
    ensures k in s.tab.deleting ==> Holders(s.leases, k) == {}
  {
    assert s.tab.Count(k) == |Holders(s.leases, k)|;
    if k in s.tab.deleting { assert |Holders(s.leases, k)| == 0; }
  }

  /** Every byte that reaches a file and every row that reaches the index does so while
      the writer holds that bucket's lease and no deletion is under way. */
  lemma WritesHappenUnderLease(s: State, a: Act, b: Bucket)
    requires Inv(s) && Enabled(s, a) && Writes(s, Step(s, a), b)
    ensures b in s.handles && Lookup(s.leases, Handle(b)) == Some(Hold(b, false))
    ensures s.tab.Count(b) > 0 && b !in s.tab.deleting
  {
    match a
    case W(w) =>
      WWritesItsFile(s, w, b);
      assert Lookup(s.leases, Handle(b)) == Some(Hold(b, false));
      HeldIsNotDeleting(s, Handle(b));
    case G(c, g) => GWritesNothing(s, c, g, b);
    case E(i, e) => EWritesNothing(s, i, e, b);
    case M(m) => MWritesNothing(s, m, b);
  }

  /** The step put bytes into the bucket's plain file or a row of the bucket into the index. */
  ghost predicate Writes(s: State, t: State, b: Bucket) {
    || (b in t.disk.plain && Lookup(s.disk.plain, b) != Some(t.disk.plain[b]) && t.disk.plain[b] != [])
    || (exists id :: id in t.rows && t.rows[id].bucket == b && Lookup(s.rows, id) != Some(t.rows[id]))
  }

  lemma WWritesItsFile(s: State, w: WAct, b: Bucket)
    requires InvDates(s) && WEnabled(s, w) && Writes(s, WStep(s, w), b)
    ensures b in s.handles
  {
  }

  lemma GWritesNothing(s: State, c: Bucket, g: GAct, b: Bucket)
    requires GEnabled(s, c, g)
    ensures !Writes(s, GStep(s, c, g), b)
  {
  }

  lemma EWritesNothing(s: State, i: nat, e: EAct, b: Bucket)
    requires EEnabled(s, i, e)
    ensures !Writes(s, EStep(s, i, e), b)
  {
  }

  lemma MWritesNothing(s: State, m: MAct, b: Bucket)
    requires MEnabled(s, m)
    ensures !Writes(s, MStep(s, m), b)
  {
  }

  /** Once stop() has closed the last handle and no export runs, no count is left,
      whichever error paths fileFor and compressInPlace took on the way. */
  lemma StopLeavesNoLease(s: State)
    requires Inv(s)
    requires s.pc.WStopped? && s.handles == {} && s.workers == map[] && s.exporters == map[]
    ensures s.leases == map[] && s.tab.refs == map[]
  {
    forall o ensures Lookup(s.leases, o) == None {
      match o
      case Handle(b) => assert Lookup(s.leases, Handle(b)) == None;
      case InHand => assert Lookup(s.leases, InHand) == InHandLease(s.pc);
      case Worker(b) => assert Lookup(s.leases, Worker(b)) == WorkerLease(s.workers, b);
      case Exporter(i) => assert Lookup(s.leases, Exporter(i)) == ExporterLease(s.exporters, i);
    }
    assert forall o :: o in s.leases ==> Lookup(s.leases, o).Some?;
    forall k ensures s.tab.Count(k) == 0 {
      assert Holders(s.leases, k) == {};
      assert s.tab.Count(k) == |Holders(s.leases, k)|;
    }
    assert forall k :: k in s.tab.refs ==> s.tab.Count(k) > 0;
  }

  predicate Stopping(s: State) {
    s.pc.WStopped? || (s.pc.WRel? && s.pc.stopping)
  }

  lemma StoppingStep(s: State, a: Act)
    requires Enabled(s, a) && Stopping(s) && s.workers == map[]
    ensures Stopping(Step(s, a)) && Step(s, a).workers == map[]
  {
    match a
    case W(w) => StoppingW(s, w);
    case G(b, g) =>
    case E(i, e) =>
    case M(m) =>
  }

  lemma StoppingW(s: State, w: WAct)
    requires WEnabled(s, w) && Stopping(s) && s.workers == map[]
    ensures Stopping(WStep(s, w)) && WStep(s, w).workers == map[]
  {
  }

  lemma {:induction false} StoppingRun(s: State, acts: seq<Act>)
    requires CanRun(s, acts) && Stopping(s) && s.workers == map[]
    ensures Stopping(Run(s, acts)) && Run(s, acts).workers == map[]
    decreases |acts|
  {
    hide Step, Enabled, Stopping;
    if acts != [] {
      StoppingStep(s, acts[0]);
      StoppingRun(Step(s, acts[0]), acts[1..]);
    }
  }

  /** The writer stops only once no compression is left, and from then on none begins and no
      record does. */
  lemma NothingStartsAfterStop(s: State, acts: seq<Act>)
    requires Enabled(s, W(Stop)) && CanRun(Step(s, W(Stop)), acts)
    ensures var t := Run(Step(s, W(Stop)), acts); Stopping(t) && t.workers == map[]
  {
    StoppingRun(Step(s, W(Stop)), acts);
  }

  /** A rotation hands every file it closes to a compression of its own. */
  lemma ClosedIsHandedOver(s: State)
    requires WEnabled(s, RotDec)
    ensures var b := s.pc.old_; b in WStep(s, RotDec).workers && WStep(s, RotDec).workers[b].GStart?
  {
  }

  /** The background compression of a bucket is never started twice: when the writer
      hands a bucket over, no worker has it. */
  lemma OneWorkerPerBucket(s: State, b: Bucket)
    requires Inv(s) && (b in s.workers || b in s.disk.gz)
    ensures b !in s.handles
    ensures s.pc.WRotRel? ==> s.pc.old_ != b || b !in s.workers
    ensures s.pc.WOpen? ==> s.pc.target != b
  {
  }

  /** A bucket the writer's clock has passed, which every bucket handed to a compression is, is
      never opened again, whatever became of the compression. */
  lemma {:induction false} PastIsClosed(s: State, acts: seq<Act>, b: Bucket)
    requires Base(s) && CanRun(s, acts) && b.date < s.lastDate && b !in s.handles
    ensures b !in Run(s, acts).handles && b.date < Run(s, acts).lastDate
    decreases |acts|
  {
    if acts != [] {
      StepBase(s, acts[0]);
      PastStaysClosed(s, acts[0], b);
      PastIsClosed(Step(s, acts[0]), acts[1..], b);
    }
  }

  lemma PastStaysClosed(s: State, a: Act, b: Bucket)
    requires InvDates(s) && Enabled(s, a) && b.date < s.lastDate && b !in s.handles
    ensures b !in Step(s, a).handles && b.date < Step(s, a).lastDate
  {
    match a
    case W(w) => WKeepsPastClosed(s, w, b);
    case G(c, g) => GKeeps(s, c, g);
    case E(i, e) =>
    case M(m) =>
  }

  lemma WKeepsPastClosed(s: State, w: WAct, b: Bucket)
    requires InvDates(s) && WEnabled(s, w) && b.date < s.lastDate && b !in s.handles
    ensures b !in WStep(s, w).handles && b.date < WStep(s, w).lastDate
  {
  }

  /** What the writer hands over is such a bucket, from the moment it leaves the open files. */
  lemma HandedOverIsPast(s: State, b: Bucket)
    requires Inv(s) && (b in s.workers || (s.pc.WRotRel? && s.pc.old_ == b))
    ensures b.date < s.lastDate && b !in s.handles
  {
  }

  // ----- Exporters -----

  /** A lease-holding exporter reads at least what was there when its lease was granted,
      even when its two lookups straddle the removal of the plain file. */
  lemma ExporterReadsWhole(s: State, i: nat)
    requires Inv(s) && i in s.exporters && s.exporters[i].EGot? && s.exporters[i].base.Some?
    ensures s.exporters[i].got.Some? && s.exporters[i].base.value <= s.exporters[i].got.value
  {
  }

  predicate KeepsExporter(acts: seq<Act>, i: nat) {
    forall k :: 0 <= k < |acts| ==> acts[k] != E(i, EDec) && acts[k] != E(i, ESwap)
  }

  lemma {:induction false} ExporterKeepsBase(s: State, acts: seq<Act>, i: nat)
    requires CanRun(s, acts) && KeepsExporter(acts, i)
    requires i in s.exporters && !s.exporters[i].ERel?
    ensures var t := Run(s, acts);
            i in t.exporters && !t.exporters[i].ERel?
            && t.exporters[i].b == s.exporters[i].b && t.exporters[i].base == s.exporters[i].base
    decreases |acts|
  {
    if acts != [] {
      ExporterStepKeepsBase(s, acts[0], i);
      ExporterKeepsBase(Step(s, acts[0]), acts[1..], i);
    }
  }

  lemma ExporterStepKeepsBase(s: State, a: Act, i: nat)
    requires Enabled(s, a) && a != E(i, EDec) && a != E(i, ESwap)
    requires i in s.exporters && !s.exporters[i].ERel?
    ensures var t := Step(s, a);
            i in t.exporters && !t.exporters[i].ERel?
            && t.exporters[i].b == s.exporters[i].b && t.exporters[i].base == s.exporters[i].base
  {
    if a.W? { WOthers(s, a.w); }
  }

  /** Every row of the bucket that existed when the exporter took its lease can be read
      from what the exporter got, whatever ran in between. */
  lemma ExporterSeesEveryRow(s: State, i: nat, b: Bucket, acts: seq<Act>, id: string)
    requires Inv(s) && EEnabled(s, i, EAcq(b)) && id in s.rows && s.rows[id].bucket == b
    requires var s' := EStep(s, i, EAcq(b));
             CanRun(s', acts) && KeepsExporter(acts, i)
             && i in Run(s', acts).exporters && Run(s', acts).exporters[i].EGot?
    ensures var got := Run(EStep(s, i, EAcq(b)), acts).exporters[i].got;
            got.Some? && LineAt(got.value, s.rows[id].offset, s.rows[id].line)
  {
    StepInv(s, E(i, EAcq(b)));
    var s' := EStep(s, i, EAcq(b));
    RunInv(s', acts);
    ExporterKeepsBase(s', acts, i);
    var pc := Run(s', acts).exporters[i];
    LineAtExtends(pc.base.value, pc.got.value, s.rows[id].offset, s.rows[id].line);
  }
}
