/** The inductive invariant of the storage protocol, kept by every step of every actor. */
module StorageInvariant {
  import opened Wrappers
  import opened Lines
  import opened Leases
  import opened StorageProtocol

  ghost function Holders(leases: map<Owner, Hold>, k: Bucket): set<Owner> {
    set o | o in leases && leases[o].bucket == k
  }

  /** The table counts exactly the leases out, and no leased bucket is marked. */
  ghost predicate InvTable(s: State) {
    Sound(s.tab) && forall k :: s.tab.Count(k) == |Holders(s.leases, k)|
  }

  /** The lease the writer has in hand, outside its open files. */
  function InHandLease(pc: WPc): Option<Hold> {
    match pc
    case WRotRel(_, _, b) => Some(Hold(b, true))
    case WOpen(target, _) => Some(Hold(target, false))
    case WRel(b, _) => Some(Hold(b, true))
    case _ => None
  }

  function WorkerLease(workers: map<Bucket, GPc>, b: Bucket): Option<Hold> {
    if b in workers && !workers[b].GStart? then Some(Hold(b, workers[b].GRel?)) else None
  }

  function ExporterLease(exporters: map<nat, EPc>, i: nat): Option<Hold> {
    if i in exporters then Some(Hold(exporters[i].b, exporters[i].ERel?)) else None
  }

  /** Every lease out is held by exactly the actor whose code holds it there. */
  ghost predicate InvOwn(s: State) {
    && (forall b :: Lookup(s.leases, Handle(b)) == if b in s.handles then Some(Hold(b, false)) else None)
    && Lookup(s.leases, InHand) == InHandLease(s.pc)
    && (forall b :: Lookup(s.leases, Worker(b)) == WorkerLease(s.workers, b))
    && (forall i :: Lookup(s.leases, Exporter(i)) == ExporterLease(s.exporters, i))
  }

  ghost predicate InvMon(s: State) {
    && s.tab.deleting == (if s.mon.MMarked? || s.mon.MPlainGone? || s.mon.MFilesGone? || s.mon.MRowsGone? then {s.mon.b} else {})
    && (s.mon.MPlainGone? || s.mon.MFilesGone? || s.mon.MRowsGone? ==> s.mon.b !in s.disk.plain)
    && (s.mon.MFilesGone? || s.mon.MRowsGone? ==> s.mon.b !in s.disk.gz)
    && (s.mon.MRowsGone? ==> forall id :: id in s.rows ==> s.rows[id].bucket != s.mon.b)
  }

  /** Compression only ever touches buckets whose date the writer has left behind. */
  ghost predicate InvDates(s: State) {
    && (s.pc.WRotate? || s.pc.WRotRel? || s.pc.WAcquire? || s.pc.WOpen? ==>
          s.pc.target.date == s.lastDate && s.pc.target !in s.handles)
    && (s.pc.WHave? || s.pc.WSized? || s.pc.WWrote? ==> s.pc.target.date == s.lastDate && s.pc.target in s.handles)
    && (s.pc.WRotRel? ==> s.pc.old_.date < s.lastDate && s.pc.old_ !in s.handles && s.pc.old_ !in s.workers)
    && (forall b :: b in s.handles ==> b.date <= s.lastDate && b !in s.workers && b !in s.disk.gz)
    && (forall b :: b in s.workers || b in s.disk.gz ==> b.date < s.lastDate)
  }

  /** The writer's open files exist, and the file in use has the size and line its pc says. */
  ghost predicate WriterDisk(s: State) {
    && (forall b :: b in s.handles ==> b in s.disk.plain)
    && (s.pc.WSized? ==> s.pc.target in s.disk.plain && s.pc.off == |s.disk.plain[s.pc.target]|)
    && (s.pc.WWrote? ==> s.pc.target in s.disk.plain && LineAt(s.disk.plain[s.pc.target], s.pc.off, s.pc.rec.line))
  }

  /** A lone gz file is whole, and a worker at work still has its plain file. */
  ghost predicate BucketDisk(s: State, c: Bucket) {
    && (c in s.disk.gz && c !in s.disk.plain && s.disk.gz[c].Torn? ==> s.mon == MPlainGone(c))
    && (c in s.workers && (s.workers[c].GOpened? || s.workers[c].GCreated? || s.workers[c].GWritten?) ==> c in s.disk.plain)
    && (c in s.workers && s.workers[c].GWritten? ==> c in s.disk.gz && s.disk.gz[c] == Whole(s.disk.plain[c]))
    && (c in s.disk.gz && c in s.disk.plain && s.disk.gz[c].Whole? ==> s.disk.gz[c].content == s.disk.plain[c])
  }

  ghost predicate InvDisk(s: State) {
    WriterDisk(s) && forall c :: BucketDisk(s, c)
  }

  /** A row's line stands at its offset in the content a reader finds. */
  predicate RowAgrees(d: Disk, r: Row) {
    Content(d, r.bucket).Some? && LineAt(Content(d, r.bucket).value, r.offset, r.line)
  }

  /** deleteIfIdle has taken away the bytes this bucket's rows point into. */
  predicate BytesGone(s: State, b: Bucket) {
    (s.mon == MPlainGone(b) && Content(s.disk, b).None?) || s.mon == MFilesGone(b)
  }

  /** The index agrees with the files, except for rows whose files deleteIfIdle has removed. */
  ghost predicate InvRows(s: State) {
    forall id :: id in s.rows && !BytesGone(s, s.rows[id].bucket) ==> RowAgrees(s.disk, s.rows[id])
  }

  predicate Covers(base: Option<Bytes>, now: Option<Bytes>) {
    base.Some? ==> now.Some? && base.value <= now.value
  }

  ghost predicate InvExport(s: State) {
    forall i :: i in s.exporters ==>
      var pc := s.exporters[i];
      && (pc.EHeld? ==> Covers(pc.base, Content(s.disk, pc.b)))
      && (pc.ESecond? && pc.base.Some? ==>
            && pc.b !in s.disk.plain && pc.b in s.disk.gz && s.disk.gz[pc.b].Whole?
            && Covers(pc.base, Content(s.disk, pc.b)))
      && (pc.EGot? ==> Covers(pc.base, pc.got))
  }

  /** Everything but the rows. It holds at the start of a life also when a crash has left rows
      without their files. */
  ghost predicate Base(s: State) {
    InvTable(s) && InvOwn(s) && InvMon(s) && InvDates(s) && InvDisk(s) && InvExport(s)
  }

  ghost predicate Inv(s: State) {
    Base(s) && InvRows(s)
  }

  // ----- Counting holders -----

  lemma HoldersGrant(leases: map<Owner, Hold>, o: Owner, h: Hold, k: Bucket)
    requires o !in leases
    ensures |Holders(leases[o := h], k)| == |Holders(leases, k)| + if k == h.bucket then 1 else 0
  {
    assert Holders(leases[o := h], k) == if k == h.bucket then Holders(leases, k) + {o} else Holders(leases, k);
  }

  lemma HoldersDrop(leases: map<Owner, Hold>, o: Owner, k: Bucket)
    requires o in leases
    ensures |Holders(leases - {o}, k)| == |Holders(leases, k)| - if k == leases[o].bucket then 1 else 0
  {
    assert leases == (leases - {o})[o := leases[o]];
    HoldersGrant(leases - {o}, o, leases[o], k);
  }

  /** A holder keeps its bucket counted, hence unmarked. */
  lemma HeldIsNotDeleting(s: State, o: Owner)
    requires InvTable(s) && o in s.leases
    ensures s.tab.Count(s.leases[o].bucket) > 0 && s.leases[o].bucket !in s.tab.deleting
  {
    assert o in Holders(s.leases, s.leases[o].bucket);
  }

  // ----- The table is kept -----

  lemma GrantKeeps(s: State, o: Owner, b: Bucket)
    requires InvTable(s) && o !in s.leases && s.tab.CanAcquire(b)
    ensures InvTable(Grant(s, o, b))
  {
    var t := Grant(s, o, b);
    forall k ensures t.tab.Count(k) == |Holders(t.leases, k)| {
      HoldersGrant(s.leases, o, Hold(b, false), k);
      assert s.tab.Count(k) == |Holders(s.leases, k)|;
    }
    assert s.tab.Count(b) == |Holders(s.leases, b)|;
  }

  lemma PassKeeps(s: State, from: Owner, to: Owner, b: Bucket, swapped: bool)
    requires InvTable(s)
    requires from in s.leases && s.leases[from].bucket == b && (to == from || to !in s.leases)
    ensures InvTable(Pass(s, from, to, b, swapped))
  {
    var t := Pass(s, from, to, b, swapped);
    forall k ensures t.tab.Count(k) == |Holders(t.leases, k)| {
      HoldersDrop(s.leases, from, k);
      HoldersGrant(s.leases - {from}, to, Hold(b, swapped), k);
      assert s.tab.Count(k) == |Holders(s.leases, k)|;
    }
  }

  lemma DecrementKeeps(s: State, o: Owner, b: Bucket)
    requires InvTable(s) && o in s.leases && s.leases[o].bucket == b
    ensures InvTable(Decrement(s, o, b))
  {
    HeldIsNotDeleting(s, o);
    var t := Decrement(s, o, b);
    forall k ensures t.tab.Count(k) == |Holders(t.leases, k)| {
      HoldersDrop(s.leases, o, k);
      assert s.tab.Count(k) == |Holders(s.leases, k)|;
    }
  }

  lemma TableKeptW(s: State, w: WAct)
    requires InvTable(s) && InvOwn(s) && InvDates(s) && WEnabled(s, w)
    ensures InvTable(WStep(s, w))
  {
    assert Lookup(s.leases, InHand) == InHandLease(s.pc);
    match w
    case RotSwap(b) =>
      assert Lookup(s.leases, Handle(b)) == Some(Hold(b, false));
      PassKeeps(s, Handle(b), InHand, b, true);
    case RotDec => DecrementKeeps(s, InHand, s.pc.old_);
    case AcqOk => GrantKeeps(s, InHand, s.pc.target);
    case OpenFail => PassKeeps(s, InHand, InHand, s.pc.target, true);
    case OpenOk =>
      assert Lookup(s.leases, Handle(s.pc.target)) == None;
      PassKeeps(s, InHand, Handle(s.pc.target), s.pc.target, false);
    case IdleSwap(b) =>
      assert Lookup(s.leases, Handle(b)) == Some(Hold(b, false));
      PassKeeps(s, Handle(b), InHand, b, true);
    case RelDec => DecrementKeeps(s, InHand, s.pc.released);
    case StopSwap(b) =>
      assert Lookup(s.leases, Handle(b)) == Some(Hold(b, false));
      PassKeeps(s, Handle(b), InHand, b, true);
    case _ =>
  }

  lemma TableKeptG(s: State, b: Bucket, g: GAct)
    requires InvTable(s) && InvOwn(s) && GEnabled(s, b, g)
    ensures InvTable(GStep(s, b, g))
  {
    assert Lookup(s.leases, Worker(b)) == WorkerLease(s.workers, b);
    match g
    case GAcqOk => GrantKeeps(s, Worker(b), b);
    case GSwap => PassKeeps(s, Worker(b), Worker(b), b, true);
    case GDec => DecrementKeeps(s, Worker(b), b);
    case _ =>
  }

  lemma TableKeptE(s: State, i: nat, e: EAct)
    requires InvTable(s) && InvOwn(s) && EEnabled(s, i, e)
    ensures InvTable(EStep(s, i, e))
  {
    assert Lookup(s.leases, Exporter(i)) == ExporterLease(s.exporters, i);
    match e
    case EAcq(b) => GrantKeeps(s, Exporter(i), b);
    case ESwap => PassKeeps(s, Exporter(i), Exporter(i), s.exporters[i].b, true);
    case EDec => DecrementKeeps(s, Exporter(i), s.exporters[i].b);
    case _ =>
  }

  // ----- Ownership is kept -----

  lemma OwnKeptW(s: State, w: WAct)
    requires InvOwn(s) && InvDates(s) && WEnabled(s, w)
    ensures InvOwn(WStep(s, w))
  {
    var t := WStep(s, w);
    WOthers(s, w);
    WInHand(s, w);
    forall b ensures Lookup(t.leases, Handle(b)) == if b in t.handles then Some(Hold(b, false)) else None {
      WHandle(s, w, b);
    }
    forall b ensures Lookup(t.leases, Worker(b)) == WorkerLease(t.workers, b) {
      WWorker(s, w, b);
    }
  }

  lemma WOthers(s: State, w: WAct)
    requires WEnabled(s, w)
    ensures WStep(s, w).exporters == s.exporters && WStep(s, w).mon == s.mon
    ensures WStep(s, w).tab.deleting == s.tab.deleting && WStep(s, w).disk.gz == s.disk.gz
    ensures forall i :: Lookup(WStep(s, w).leases, Exporter(i)) == Lookup(s.leases, Exporter(i))
  {
  }

  lemma WRows(s: State, w: WAct)
    requires WEnabled(s, w)
    ensures WStep(s, w).rows
         == if w.RowOk? then s.rows[s.pc.rec.id := Row(s.pc.target, s.pc.off, s.pc.rec.line)] else s.rows
  {
  }

  lemma WInHand(s: State, w: WAct)
    requires InvOwn(s) && WEnabled(s, w)
    ensures Lookup(WStep(s, w).leases, InHand) == InHandLease(WStep(s, w).pc)
  {
  }

  lemma WHandle(s: State, w: WAct, b: Bucket)
    requires InvOwn(s) && InvDates(s) && WEnabled(s, w)
    ensures Lookup(WStep(s, w).leases, Handle(b)) == if b in WStep(s, w).handles then Some(Hold(b, false)) else None
  {
    assert Lookup(s.leases, Handle(b)) == if b in s.handles then Some(Hold(b, false)) else None;
  }

  lemma WWorker(s: State, w: WAct, b: Bucket)
    requires InvOwn(s) && InvDates(s) && WEnabled(s, w)
    ensures Lookup(WStep(s, w).leases, Worker(b)) == WorkerLease(WStep(s, w).workers, b)
  {
    assert Lookup(s.leases, Worker(b)) == WorkerLease(s.workers, b);
  }

  lemma GOthers(s: State, b: Bucket, g: GAct)
    requires GEnabled(s, b, g)
    ensures var t := GStep(s, b, g); t.handles == s.handles && t.pc == s.pc && t.exporters == s.exporters
    ensures forall o :: o != Worker(b) ==> Lookup(GStep(s, b, g).leases, o) == Lookup(s.leases, o)
  {
  }

  lemma GOtherWorkers(s: State, b: Bucket, g: GAct)
    requires GEnabled(s, b, g)
    ensures forall c :: c != b ==> WorkerLease(GStep(s, b, g).workers, c) == WorkerLease(s.workers, c)
  {
  }

  lemma GWorker(s: State, b: Bucket, g: GAct)
    requires Lookup(s.leases, Worker(b)) == WorkerLease(s.workers, b) && GEnabled(s, b, g)
    ensures Lookup(GStep(s, b, g).leases, Worker(b)) == WorkerLease(GStep(s, b, g).workers, b)
  {
  }

  lemma OwnKeptG(s: State, b: Bucket, g: GAct)
    requires InvOwn(s) && GEnabled(s, b, g)
    ensures InvOwn(GStep(s, b, g))
  {
    hide GStep, GEnabled, Lookup, WorkerLease, ExporterLease;
    GOthers(s, b, g);
    GOtherWorkers(s, b, g);
    assert Lookup(s.leases, Worker(b)) == WorkerLease(s.workers, b);
    GWorker(s, b, g);
  }

  lemma OwnKeptE(s: State, i: nat, e: EAct)
    requires InvOwn(s) && EEnabled(s, i, e)
    ensures InvOwn(EStep(s, i, e))
  {
    var t := EStep(s, i, e);
    assert t.handles == s.handles && t.pc == s.pc && t.workers == s.workers;
    assert forall o :: o != Exporter(i) ==> Lookup(t.leases, o) == Lookup(s.leases, o);
    assert forall j :: j != i ==> ExporterLease(t.exporters, j) == ExporterLease(s.exporters, j);
    assert Lookup(s.leases, Exporter(i)) == ExporterLease(s.exporters, i);
    assert Lookup(t.leases, Exporter(i)) == ExporterLease(t.exporters, i);
  }

  // ----- Dates, disk and rows are kept by the writer -----

  lemma OpenHandleNotDeleting(s: State, b: Bucket)
    requires InvTable(s) && InvOwn(s) && b in s.handles
    ensures b !in s.tab.deleting
  {
    assert Lookup(s.leases, Handle(b)) == Some(Hold(b, false));
    HeldIsNotDeleting(s, Handle(b));
  }

  lemma InHandNotDeleting(s: State)
    requires InvTable(s) && InvOwn(s) && InHandLease(s.pc).Some?
    ensures InHandLease(s.pc).value.bucket !in s.tab.deleting
  {
    assert Lookup(s.leases, InHand) == InHandLease(s.pc);
    HeldIsNotDeleting(s, InHand);
  }

  lemma DatesKeptW(s: State, w: WAct)
    requires InvDates(s) && WEnabled(s, w)
    ensures InvDates(WStep(s, w))
  {
    WOthers(s, w);
  }

  lemma MonKeptW(s: State, w: WAct)
    requires Base(s) && WEnabled(s, w)
    ensures InvMon(WStep(s, w))
  {
    WOthers(s, w);
    if s.pc.WOpen? { InHandNotDeleting(s); }
    if s.pc.WSized? || s.pc.WWrote? { OpenHandleNotDeleting(s, s.pc.target); }
  }

  /** The writer only ever makes a bucket's content longer. */
  lemma WContent(s: State, w: WAct, b: Bucket)
    requires InvDates(s) && InvDisk(s) && WEnabled(s, w)
    ensures Covers(Content(s.disk, b), Content(WStep(s, w).disk, b))
    ensures b in s.disk.plain ==> b in WStep(s, w).disk.plain
    ensures b in s.disk.gz ==> (b in WStep(s, w).disk.plain <==> b in s.disk.plain)
  {
  }

  lemma WriterDiskKeptW(s: State, w: WAct)
    requires Base(s) && WEnabled(s, w)
    ensures WriterDisk(WStep(s, w))
  {
    var t := WStep(s, w);
    forall b ensures b in s.disk.plain ==> b in t.disk.plain { WContent(s, w, b); }
    if w.WriteOk? {
      var old_ := s.disk.plain[s.pc.target];
      assert (old_ + s.pc.rec.line)[|old_|..|old_| + |s.pc.rec.line|] == s.pc.rec.line;
    }
  }

  /** The writer leaves a compressed bucket's plain file alone. */
  lemma WOldFile(s: State, w: WAct, b: Bucket)
    requires InvDates(s) && WEnabled(s, w) && b in s.disk.gz
    ensures Lookup(WStep(s, w).disk.plain, b) == Lookup(s.disk.plain, b)
  {
  }

  lemma BucketDiskKeptW(s: State, w: WAct, b: Bucket)
    requires Base(s) && WEnabled(s, w)
    ensures BucketDisk(WStep(s, w), b)
  {
    WOthers(s, w);
    WContent(s, w, b);
    assert BucketDisk(s, b);
    if b in s.disk.gz { WOldFile(s, w, b); }
  }

  lemma DiskKeptW(s: State, w: WAct)
    requires Base(s) && WEnabled(s, w)
    ensures InvDisk(WStep(s, w))
  {
    WriterDiskKeptW(s, w);
    forall b ensures BucketDisk(WStep(s, w), b) { BucketDiskKeptW(s, w, b); }
  }

  /** The writer leaves a marked bucket's files alone. */
  lemma WMarked(s: State, w: WAct, b: Bucket)
    requires Base(s) && WEnabled(s, w) && b in s.tab.deleting
    ensures Content(WStep(s, w).disk, b) == Content(s.disk, b)
  {
    MarkedIsUnused(s, b);
  }

  lemma RowsKeptW(s: State, w: WAct)
    requires Inv(s) && WEnabled(s, w)
    ensures InvRows(WStep(s, w))
  {
    WOthers(s, w);
    var t := WStep(s, w);
    forall id | id in t.rows && !BytesGone(t, t.rows[id].bucket)
      ensures RowAgrees(t.disk, t.rows[id])
    {
      var r := t.rows[id];
      if id in s.rows && s.rows[id] == r {
        if BytesGone(s, r.bucket) { MarkedIsUnused(s, r.bucket); WMarked(s, w, r.bucket); }
        WContent(s, w, r.bucket);
        LineAtExtends(Content(s.disk, r.bucket).value, Content(t.disk, r.bucket).value, r.offset, r.line);
      }
    }
  }

  lemma ExportKeptW(s: State, w: WAct)
    requires Base(s) && WEnabled(s, w)
    ensures InvExport(WStep(s, w))
  {
    WOthers(s, w);
    var t := WStep(s, w);
    forall b ensures Covers(Content(s.disk, b), Content(t.disk, b)) { WContent(s, w, b); }
  }

  // ----- Dates, disk and rows are kept by the gzip workers -----

  /** No step of compressInPlace, and no failure exit, changes what a reader finds. */
  lemma CompressionInvisible(s: State, b: Bucket, g: GAct, c: Bucket)
    requires InvDisk(s) && GEnabled(s, b, g)
    ensures Content(GStep(s, b, g).disk, c) == Content(s.disk, c)
  {
    assert BucketDisk(s, b);
  }

  lemma GFrame(s: State, b: Bucket, g: GAct)
    requires GEnabled(s, b, g)
    ensures var t := GStep(s, b, g);
      && t.handles == s.handles && t.pc == s.pc && t.exporters == s.exporters && t.rows == s.rows
      && t.lastDate == s.lastDate && t.mon == s.mon && t.tab.deleting == s.tab.deleting
    ensures var t := GStep(s, b, g);
      forall c :: c != b ==> (c in t.disk.plain <==> c in s.disk.plain) && (c in t.disk.gz <==> c in s.disk.gz)
                             && (c in t.workers <==> c in s.workers)
  {
    GKeeps(s, b, g);
    forall c | c != b
      ensures var t := GStep(s, b, g);
              (c in t.disk.plain <==> c in s.disk.plain) && (c in t.disk.gz <==> c in s.disk.gz)
              && (c in t.workers <==> c in s.workers)
    {
      hide GStep, GEnabled;
      GFrameAt(s, b, g, c);
    }
  }

  lemma GKeeps(s: State, b: Bucket, g: GAct)
    requires GEnabled(s, b, g)
    ensures var t := GStep(s, b, g);
      && t.handles == s.handles && t.pc == s.pc && t.exporters == s.exporters && t.rows == s.rows
      && t.lastDate == s.lastDate && t.mon == s.mon && t.tab.deleting == s.tab.deleting
  {
  }

  lemma RestKeptG(s: State, b: Bucket, g: GAct)
    requires Base(s) && GEnabled(s, b, g)
    ensures var t := GStep(s, b, g); InvMon(t) && InvDates(t) && InvDisk(t) && InvExport(t)
  {
    GFrame(s, b, g);
    MonKeptG(s, b, g);
    DiskKeptG(s, b, g);
    ExportKeptG(s, b, g);
  }

  lemma RowsKeptG(s: State, b: Bucket, g: GAct)
    requires Inv(s) && GEnabled(s, b, g)
    ensures InvRows(GStep(s, b, g))
  {
    GFrame(s, b, g);
    var t := GStep(s, b, g);
    forall c ensures Content(t.disk, c) == Content(s.disk, c) { CompressionInvisible(s, b, g, c); }
  }

  lemma MonKeptG(s: State, b: Bucket, g: GAct)
    requires Base(s) && GEnabled(s, b, g)
    ensures InvMon(GStep(s, b, g))
  {
    GFrame(s, b, g);
    assert Lookup(s.leases, Worker(b)) == WorkerLease(s.workers, b);
    if !s.workers[b].GStart? { HeldIsNotDeleting(s, Worker(b)); }
  }

  /** What one worker's step leaves of another bucket: everything. */
  lemma GFrameAt(s: State, b: Bucket, g: GAct, c: Bucket)
    requires GEnabled(s, b, g) && c != b
    ensures Lookup(GStep(s, b, g).disk.gz, c) == Lookup(s.disk.gz, c)
    ensures Lookup(GStep(s, b, g).disk.plain, c) == Lookup(s.disk.plain, c)
    ensures Lookup(GStep(s, b, g).workers, c) == Lookup(s.workers, c)
  {
  }

  lemma BucketDiskKeptG(s: State, b: Bucket, g: GAct, c: Bucket)
    requires GEnabled(s, b, g) && BucketDisk(s, c) && BucketDisk(s, b)
    ensures BucketDisk(GStep(s, b, g), c)
  {
    if c != b { GFrameAt(s, b, g, c); }
  }

  lemma WriterDiskKeptG(s: State, b: Bucket, g: GAct)
    requires Base(s) && GEnabled(s, b, g)
    ensures WriterDisk(GStep(s, b, g))
  {
    GFrame(s, b, g);
    if s.pc.WSized? || s.pc.WWrote? { GFrameAt(s, b, g, s.pc.target); }
  }

  lemma DiskKeptG(s: State, b: Bucket, g: GAct)
    requires Base(s) && GEnabled(s, b, g)
    ensures InvDisk(GStep(s, b, g))
  {
    WriterDiskKeptG(s, b, g);
    forall c ensures BucketDisk(GStep(s, b, g), c) {
      assert BucketDisk(s, c) && BucketDisk(s, b);
      BucketDiskKeptG(s, b, g, c);
    }
  }

  lemma ExportKeptG(s: State, b: Bucket, g: GAct)
    requires Base(s) && GEnabled(s, b, g)
    ensures InvExport(GStep(s, b, g))
  {
    GFrame(s, b, g);
    var t := GStep(s, b, g);
    forall c ensures Content(t.disk, c) == Content(s.disk, c) { CompressionInvisible(s, b, g, c); }
  }

  // ----- ... by the exporters -----

  lemma RestKeptE(s: State, i: nat, e: EAct)
    requires Base(s) && EEnabled(s, i, e)
    ensures var t := EStep(s, i, e); InvMon(t) && InvDates(t) && InvDisk(t) && InvExport(t)
    ensures InvRows(s) ==> InvRows(EStep(s, i, e))
  {
    var t := EStep(s, i, e);
    forall c ensures BucketDisk(t, c) { assert BucketDisk(s, c); }
  }

  // ----- ... and by the monitor -----

  lemma TableAndOwnKeptM(s: State, m: MAct)
    requires Base(s) && MEnabled(s, m)
    ensures InvTable(MStep(s, m)) && InvOwn(MStep(s, m))
  {
    var t := MStep(s, m);
    assert t.leases == s.leases && t.tab.refs == s.tab.refs;
    assert forall k :: t.tab.Count(k) == s.tab.Count(k);
  }

  /** While a bucket is marked, nobody has it open, compresses it or exports it. */
  lemma MarkedIsUnused(s: State, b: Bucket)
    requires InvTable(s) && InvOwn(s) && b in s.tab.deleting
    ensures b !in s.handles && (b in s.workers ==> s.workers[b].GStart?)
    ensures InHandLease(s.pc) != Some(Hold(b, true)) && InHandLease(s.pc) != Some(Hold(b, false))
    ensures forall i :: i in s.exporters ==> s.exporters[i].b != b
  {
    if b in s.handles { OpenHandleNotDeleting(s, b); }
    assert Lookup(s.leases, Worker(b)) == WorkerLease(s.workers, b);
    if b in s.workers && !s.workers[b].GStart? { HeldIsNotDeleting(s, Worker(b)); }
    if InHandLease(s.pc).Some? { InHandNotDeleting(s); }
    forall i | i in s.exporters ensures s.exporters[i].b != b {
      assert Lookup(s.leases, Exporter(i)) == ExporterLease(s.exporters, i);
      HeldIsNotDeleting(s, Exporter(i));
    }
  }

  lemma MonKeptM(s: State, m: MAct)
    requires Base(s) && MEnabled(s, m)
    ensures InvMon(MStep(s, m)) && InvDates(MStep(s, m))
  {
  }

  lemma BucketDiskKeptM(s: State, m: MAct, c: Bucket)
    requires Base(s) && MEnabled(s, m)
    ensures BucketDisk(MStep(s, m), c)
  {
    assert BucketDisk(s, c);
    if m.RmPlain? || m.RmGz? { MarkedIsUnused(s, s.mon.b); }
  }

  lemma DiskKeptM(s: State, m: MAct)
    requires Base(s) && MEnabled(s, m)
    ensures InvDisk(MStep(s, m))
  {
    var t := MStep(s, m);
    if m.RmPlain? { MarkedIsUnused(s, s.mon.b); }
    forall c ensures BucketDisk(t, c) { BucketDiskKeptM(s, m, c); }
    if s.pc.WSized? || s.pc.WWrote? { assert s.pc.target in s.handles; }
  }

  lemma ExportKeptM(s: State, m: MAct)
    requires Base(s) && MEnabled(s, m)
    ensures InvExport(MStep(s, m))
  {
    var t := MStep(s, m);
    if m.RmPlain? || m.RmGz? { MarkedIsUnused(s, s.mon.b); }
    forall i | i in s.exporters
      ensures Lookup(t.disk.plain, s.exporters[i].b) == Lookup(s.disk.plain, s.exporters[i].b)
      ensures Lookup(t.disk.gz, s.exporters[i].b) == Lookup(s.disk.gz, s.exporters[i].b) { }
  }

  lemma RowsKeptM(s: State, m: MAct)
    requires Inv(s) && MEnabled(s, m)
    ensures InvRows(MStep(s, m))
  {
    var t := MStep(s, m);
    forall id | id in t.rows && !BytesGone(t, t.rows[id].bucket) ensures RowAgrees(t.disk, t.rows[id]) {
      assert BucketDisk(s, s.rows[id].bucket);
    }
  }

  // ----- Every step, every run -----

  lemma InitInv()
    ensures Inv(INIT)
  {
    assert forall k :: Holders(INIT.leases, k) == {};
  }

  lemma StepBase(s: State, a: Act)
    requires Base(s) && Enabled(s, a)
    ensures Base(Step(s, a))
  {
    match a
    case W(w) =>
      TableKeptW(s, w); OwnKeptW(s, w); MonKeptW(s, w); DatesKeptW(s, w); DiskKeptW(s, w); ExportKeptW(s, w);
    case G(b, g) => TableKeptG(s, b, g); OwnKeptG(s, b, g); RestKeptG(s, b, g);
    case E(i, e) => TableKeptE(s, i, e); OwnKeptE(s, i, e); RestKeptE(s, i, e);
    case M(m) => TableAndOwnKeptM(s, m); MonKeptM(s, m); DiskKeptM(s, m); ExportKeptM(s, m);
  }

  lemma StepInv(s: State, a: Act)
    requires Inv(s) && Enabled(s, a)
    ensures Inv(Step(s, a))
  {
    StepBase(s, a);
    hide Base;
    match a
    case W(w) => RowsKeptW(s, w);
    case G(b, g) => RowsKeptG(s, b, g);
    case E(i, e) => RestKeptE(s, i, e);
    case M(m) => RowsKeptM(s, m);
  }

  lemma {:induction false} RunBase(s: State, acts: seq<Act>)
    requires Base(s) && CanRun(s, acts)
    ensures Base(Run(s, acts))
    decreases |acts|
  {
    if acts != [] {
      StepBase(s, acts[0]);
      RunBase(Step(s, acts[0]), acts[1..]);
    }
  }

  lemma {:induction false} RunInv(s: State, acts: seq<Act>)
    requires Inv(s) && CanRun(s, acts)
    ensures Inv(Run(s, acts))
    decreases |acts|
  {
    if acts != [] {
      StepInv(s, acts[0]);
      RunInv(Step(s, acts[0]), acts[1..]);
    }
  }

  lemma {:induction false} RunConcat(s: State, first: seq<Act>, second: seq<Act>)
    requires CanRun(s, first) && CanRun(Run(s, first), second)
    ensures CanRun(s, first + second) && Run(s, first + second) == Run(Run(s, first), second)
    decreases |first|
  {
    if first == [] {
      assert first + second == second;
    } else {
      assert (first + second)[1..] == first[1..] + second;
      RunConcat(Step(s, first[0]), first[1..], second);
    }
  }

  /** The step at position `i` of a run, and the state it is taken from. */
  lemma {:induction false} StepAt(s: State, acts: seq<Act>, i: nat)
    requires CanRun(s, acts) && i < |acts|
    ensures CanRun(s, acts[..i]) && Enabled(Run(s, acts[..i]), acts[i])
    ensures CanRun(Step(Run(s, acts[..i]), acts[i]), acts[i + 1..])
    ensures Run(s, acts) == Run(Step(Run(s, acts[..i]), acts[i]), acts[i + 1..])
    decreases i
  {
    hide Step, Enabled;
    if i == 0 {
      assert acts[..0] == [];
    } else {
      StepAt(Step(s, acts[0]), acts[1..], i - 1);
      assert acts[..i][1..] == acts[1..][..i - 1] && acts[1..][i..] == acts[i + 1..];
    }
  }
}
