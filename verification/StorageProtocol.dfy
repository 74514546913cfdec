/** The storage protocol as an interleaved step system: one writer goroutine, one
    gzip worker per rotated bucket, exporters, and the retention monitor share
    per-bucket files, the row index and the lease table. One step is one system
    call, one locked section or one database transaction. */
module StorageProtocol {
  import opened Wrappers
  import opened Lines
  import opened Leases

  // ----- State -----

  type Line = l: Bytes | IsLine(l) witness [LF]

  /** A `.jsonl.gz` file: a complete compression of `content`, or anything less. */
  datatype Gz = Torn | Whole(content: Bytes)

  datatype Disk = Disk(plain: map<Bucket, Bytes>, gz: map<Bucket, Gz>)

  /** The uncompressed bytes a reader finds: the plain file first, else the gz file. */
  function Content(d: Disk, b: Bucket): Option<Bytes> {
    if b in d.plain then Some(d.plain[b])
    else if b in d.gz && d.gz[b].Whole? then Some(d.gz[b].content)
    else None
  }

  /** One record on the writer channel: its trace id, key hash and marshalled line. */
  datatype Rec = Rec(id: string, hash: string, line: Line)

  /** One index row. `line` is history: the line appended for the row's trace. */
  datatype Row = Row(bucket: Bucket, offset: nat, line: Line)

  /** Who holds a lease, and whether its Release has swapped the flag but not yet decremented. */
  datatype Owner = Handle(b: Bucket) | InHand | Worker(b: Bucket) | Exporter(i: nat)
  datatype Hold = Hold(bucket: Bucket, swapped: bool)

  datatype WPc =
    | WIdle
    | WRotate(target: Bucket, rec: Rec)
    | WRotRel(target: Bucket, rec: Rec, old_: Bucket)
    | WAcquire(target: Bucket, rec: Rec)
    | WOpen(target: Bucket, rec: Rec)
    | WHave(target: Bucket, rec: Rec)
    | WSized(target: Bucket, rec: Rec, off: nat)
    | WWrote(target: Bucket, rec: Rec, off: nat)
    | WRel(released: Bucket, stopping: bool)
    | WStopped

  datatype GPc = GStart | GLeased | GOpened | GCreated | GWritten | GDone | GRel

  /** `base` is history: what a reader would have found when the lease was granted. */
  datatype EPc =
    | EHeld(b: Bucket, base: Option<Bytes>)
    | ESecond(b: Bucket, base: Option<Bytes>)
    | EGot(b: Bucket, base: Option<Bytes>, got: Option<Bytes>)
    | ERel(b: Bucket)

  datatype MPc =
    | MIdle
    | MMarked(b: Bucket) | MPlainGone(b: Bucket) | MFilesGone(b: Bucket) | MRowsGone(b: Bucket)
    | RPlainMissing(b: Bucket) | RMissing(b: Bucket) | RUnleased(b: Bucket)

  datatype State = State(
    disk: Disk,
    rows: map<string, Row>,
    tab: Table,
    leases: map<Owner, Hold>,  // granted and not yet decremented
    pc: WPc,
    handles: set<Bucket>,      // the writer's open files
    lastDate: int,             // latest date the writer's clock has shown
    workers: map<Bucket, GPc>,
    exporters: map<nat, EPc>,
    mon: MPc)

  const INIT := State(Disk(map[], map[]), map[], Table(map[], {}), map[], WIdle, {}, 0, map[], map[], MIdle)

  function Put(s: State, b: Bucket, content: Bytes): State {
    s.(disk := s.disk.(plain := s.disk.plain[b := content]))
  }

  function PutGz(s: State, b: Bucket, g: Gz): State {
    s.(disk := s.disk.(gz := s.disk.gz[b := g]))
  }

  function DropPlain(s: State, b: Bucket): State {
    s.(disk := s.disk.(plain := s.disk.plain - {b}))
  }

  function DropGz(s: State, b: Bucket): State {
    s.(disk := s.disk.(gz := s.disk.gz - {b}))
  }

  function DropRows(s: State, b: Bucket): State {
    s.(rows := map id | id in s.rows && s.rows[id].bucket != b :: s.rows[id])
  }

  function Grant(s: State, o: Owner, b: Bucket): State {
    s.(tab := s.tab.Acquire(b), leases := s.leases[o := Hold(b, false)])
  }

  /** A lease passes from one holder to another, or has its flag swapped. */
  function Pass(s: State, from: Owner, to: Owner, b: Bucket, swapped: bool): State {
    s.(leases := (s.leases - {from})[to := Hold(b, swapped)])
  }

  function Decrement(s: State, o: Owner, b: Bucket): State {
    s.(tab := s.tab.Decrement(b), leases := s.leases - {o})
  }

  // ----- The writer goroutine -----

  datatype WAct =
    | Begin(rec: Rec, date: int)
    | RotSwap(b: Bucket) | RotDec | RotDone
    | AcqOk | AcqRefused | OpenFail | OpenOk
    | GiveUp | Size | WriteOk | WriteTorn(k: nat) | RowOk | RowFail
    | IdleSwap(b: Bucket) | RelDec
    | Stop | StopSwap(b: Bucket)

  predicate WEnabled(s: State, a: WAct) {
    match a
    case Begin(rec, date) => s.pc.WIdle? && date >= s.lastDate
    case RotSwap(b) => s.pc.WRotate? && b in s.handles && b.date < s.pc.target.date
    case RotDec => s.pc.WRotRel?
    case RotDone => s.pc.WRotate? && forall b :: b in s.handles ==> b.date >= s.pc.target.date
    case AcqOk => s.pc.WAcquire? && s.tab.CanAcquire(s.pc.target)
    case AcqRefused => s.pc.WAcquire? && !s.tab.CanAcquire(s.pc.target)
    case OpenFail => s.pc.WOpen?
    case OpenOk => s.pc.WOpen?
    case GiveUp => s.pc.WHave?
    case Size => s.pc.WHave? && s.pc.target in s.disk.plain
    case WriteOk => s.pc.WSized? && s.pc.target in s.disk.plain
    case WriteTorn(k) => s.pc.WSized? && s.pc.target in s.disk.plain && k <= |s.pc.rec.line|
    case RowOk => s.pc.WWrote?
    case RowFail => s.pc.WWrote?
    case IdleSwap(b) => s.pc.WIdle? && b in s.handles
    case RelDec => s.pc.WRel?
    case Stop => s.pc.WIdle? && s.workers == map[]
    case StopSwap(b) => s.pc.WStopped? && b in s.handles
  }

  function WStep(s: State, a: WAct): State
    requires WEnabled(s, a)
  {
    match a
    case Begin(rec, date) =>
      var target := Bucket(date, rec.hash);
      s.(lastDate := date, pc := if target in s.handles then WHave(target, rec) else WRotate(target, rec))
    case RotSwap(b) =>
      Pass(s, Handle(b), InHand, b, true).(handles := s.handles - {b}, pc := WRotRel(s.pc.target, s.pc.rec, b))
    case RotDec =>
      Decrement(s, InHand, s.pc.old_).(workers := s.workers[s.pc.old_ := GStart], pc := WRotate(s.pc.target, s.pc.rec))
    case RotDone => s.(pc := WAcquire(s.pc.target, s.pc.rec))
    case AcqOk => Grant(s, InHand, s.pc.target).(pc := WOpen(s.pc.target, s.pc.rec))
    case AcqRefused => s.(pc := WIdle)
    case OpenFail => Pass(s, InHand, InHand, s.pc.target, true).(pc := WRel(s.pc.target, false))
    case OpenOk =>
      var b := s.pc.target;
      var t := if b in s.disk.plain then s else Put(s, b, []);
      Pass(t, InHand, Handle(b), b, false).(handles := s.handles + {b}, pc := WHave(b, s.pc.rec))
    case GiveUp => s.(pc := WIdle)
    case Size => s.(pc := WSized(s.pc.target, s.pc.rec, |s.disk.plain[s.pc.target]|))
    case WriteOk =>
      Put(s, s.pc.target, s.disk.plain[s.pc.target] + s.pc.rec.line).(pc := WWrote(s.pc.target, s.pc.rec, s.pc.off))
    case WriteTorn(k) => Put(s, s.pc.target, s.disk.plain[s.pc.target] + s.pc.rec.line[..k]).(pc := WIdle)
    case RowOk => s.(rows := s.rows[s.pc.rec.id := Row(s.pc.target, s.pc.off, s.pc.rec.line)], pc := WIdle)
    case RowFail => s.(pc := WIdle)
    case IdleSwap(b) => Pass(s, Handle(b), InHand, b, true).(handles := s.handles - {b}, pc := WRel(b, false))
    case RelDec => Decrement(s, InHand, s.pc.released).(pc := if s.pc.stopping then WStopped else WIdle)
    case Stop => s.(pc := WStopped)
    case StopSwap(b) => Pass(s, Handle(b), InHand, b, true).(handles := s.handles - {b}, pc := WRel(b, true))
  }

  // ----- A gzip worker (compressInPlace) -----

  /** What a failed compression leaves: its removal of the gz file may itself fail. */
  datatype Leftover = Removed | LeftTorn | LeftWhole

  datatype GAct =
    | GAcqOk | GAcqRefused | GOpenOk | GOpenFail | GCreateOk | GCreateFail
    | GCopyOk | GCopyFail(left: Leftover) | GRemoveOk | GRemoveFail | GSwap | GDec

  predicate GEnabled(s: State, b: Bucket, a: GAct) {
    && b in s.workers
    && var pc := s.workers[b];
       match a
       case GAcqOk => pc.GStart? && s.tab.CanAcquire(b)
       case GAcqRefused => pc.GStart? && !s.tab.CanAcquire(b)
       case GOpenOk => pc.GLeased? && b in s.disk.plain
       case GOpenFail => pc.GLeased?
       case GCreateOk => pc.GOpened?
       case GCreateFail => pc.GOpened?
       case GCopyOk => pc.GCreated? && b in s.disk.plain
       case GCopyFail(left) => pc.GCreated? && (left.LeftWhole? ==> b in s.disk.plain)
       case GRemoveOk => pc.GWritten?
       case GRemoveFail => pc.GWritten?
       case GSwap => pc.GDone?
       case GDec => pc.GRel?
  }

  function GAt(s: State, b: Bucket, pc: GPc): State {
    s.(workers := s.workers[b := pc])
  }

  function GStep(s: State, b: Bucket, a: GAct): State
    requires GEnabled(s, b, a)
  {
    match a
    case GAcqOk => GAt(Grant(s, Worker(b), b), b, GLeased)
    case GAcqRefused => s.(workers := s.workers - {b})
    case GOpenOk => GAt(s, b, GOpened)
    case GOpenFail => GAt(s, b, GDone)
    case GCreateOk => GAt(PutGz(s, b, Torn), b, GCreated)
    case GCreateFail => GAt(s, b, GDone)
    case GCopyOk => GAt(PutGz(s, b, Whole(s.disk.plain[b])), b, GWritten)
    case GCopyFail(left) =>
      GAt(match left
          case Removed => DropGz(s, b)
          case LeftTorn => s
          case LeftWhole => PutGz(s, b, Whole(s.disk.plain[b])), b, GDone)
    case GRemoveOk => GAt(DropPlain(s, b), b, GDone)
    case GRemoveFail => GAt(s, b, GDone)
    case GSwap => GAt(Pass(s, Worker(b), Worker(b), b, true), b, GRel)
    case GDec => Decrement(s, Worker(b), b).(workers := s.workers - {b})
  }

  // ----- An exporter reading one group -----

  datatype EAct = EAcq(b: Bucket) | ELookPlain | ELookGz | ESwap | EDec

  predicate EEnabled(s: State, i: nat, a: EAct) {
    match a
    case EAcq(b) => i !in s.exporters && s.tab.CanAcquire(b)
    case ELookPlain => i in s.exporters && s.exporters[i].EHeld?
    case ELookGz => i in s.exporters && s.exporters[i].ESecond?
    case ESwap => i in s.exporters && s.exporters[i].EGot?
    case EDec => i in s.exporters && s.exporters[i].ERel?
  }

  function EAt(s: State, i: nat, pc: EPc): State {
    s.(exporters := s.exporters[i := pc])
  }

  function EStep(s: State, i: nat, a: EAct): State
    requires EEnabled(s, i, a)
  {
    match a
    case EAcq(b) => EAt(Grant(s, Exporter(i), b), i, EHeld(b, Content(s.disk, b)))
    case ELookPlain =>
      var pc := s.exporters[i];
      EAt(s, i, if pc.b in s.disk.plain then EGot(pc.b, pc.base, Some(s.disk.plain[pc.b])) else ESecond(pc.b, pc.base))
    case ELookGz =>
      var pc := s.exporters[i];
      EAt(s, i, EGot(pc.b, pc.base,
        if pc.b in s.disk.gz && s.disk.gz[pc.b].Whole? then Some(s.disk.gz[pc.b].content) else None))
    case ESwap =>
      var b := s.exporters[i].b;
      EAt(Pass(s, Exporter(i), Exporter(i), b, true), i, ERel(b))
    case EDec => Decrement(s, Exporter(i), s.exporters[i].b).(exporters := s.exporters - {i})
  }

  // ----- The monitor goroutine: deleteIfIdle and one loop body of reconcileOrphans -----

  datatype MAct =
    | Mark(b: Bucket) | Abort | RmPlain | RmGz | DelRows | Unmark
    | StatPlain(b: Bucket) | StatGz | CheckLease | DelOrphans

  predicate MEnabled(s: State, a: MAct) {
    match a
    case Mark(b) => s.mon.MIdle? && s.tab.CanMark(b)
    case Abort => s.mon.MMarked?  // the stat, or the first remove, failed: nothing was touched
    case RmPlain => s.mon.MMarked?
    case RmGz => s.mon.MPlainGone?
    case DelRows => s.mon.MFilesGone?
    case Unmark => s.mon.MRowsGone?
    case StatPlain(b) => s.mon.MIdle?  // the list of paths may be stale by now
    case StatGz => s.mon.RPlainMissing?
    case CheckLease => s.mon.RMissing?
    case DelOrphans => s.mon.RUnleased?
  }

  function MStep(s: State, a: MAct): State
    requires MEnabled(s, a)
  {
    match a
    case Mark(b) => s.(tab := s.tab.Mark(b), mon := MMarked(b))
    case Abort => s.(tab := s.tab.Unmark(s.mon.b), mon := MIdle)
    case RmPlain => DropPlain(s, s.mon.b).(mon := MPlainGone(s.mon.b))
    case RmGz => DropGz(s, s.mon.b).(mon := MFilesGone(s.mon.b))
    case DelRows => DropRows(s, s.mon.b).(mon := MRowsGone(s.mon.b))
    case Unmark => s.(tab := s.tab.Unmark(s.mon.b), mon := MIdle)
    case StatPlain(b) => s.(mon := if b in s.disk.plain then MIdle else RPlainMissing(b))
    case StatGz => s.(mon := if s.mon.b in s.disk.gz then MIdle else RMissing(s.mon.b))
    case CheckLease => s.(mon := if s.tab.Count(s.mon.b) > 0 then MIdle else RUnleased(s.mon.b))
    case DelOrphans => DropRows(s, s.mon.b).(mon := MIdle)
  }

  // ----- Crash and restart -----

  /** What survives a crash: the files, the index, and that the clock goes on from where it was. */
  function Crash(s: State): State {
    INIT.(disk := s.disk, rows := s.rows, lastDate := s.lastDate)
  }

  /** One uninterrupted reconcileOrphans pass below its cap: rows of buckets with no file go. */
  function Repair(s: State): State {
    s.(rows := map id | id in s.rows && (s.rows[id].bucket in s.disk.plain || s.rows[id].bucket in s.disk.gz) :: s.rows[id])
  }

  // ----- Runs -----

  datatype Act = W(w: WAct) | G(b: Bucket, g: GAct) | E(i: nat, e: EAct) | M(m: MAct)

  predicate Enabled(s: State, a: Act) {
    match a
    case W(w) => WEnabled(s, w)
    case G(b, g) => GEnabled(s, b, g)
    case E(i, e) => EEnabled(s, i, e)
    case M(m) => MEnabled(s, m)
  }

  function Step(s: State, a: Act): State
    requires Enabled(s, a)
  {
    match a
    case W(w) => WStep(s, w)
    case G(b, g) => GStep(s, b, g)
    case E(i, e) => EStep(s, i, e)
    case M(m) => MStep(s, m)
  }

  /** The steps can be taken one after the other from `s`. */
  predicate CanRun(s: State, acts: seq<Act>)
    decreases |acts|
  {
    acts == [] || (Enabled(s, acts[0]) && CanRun(Step(s, acts[0]), acts[1..]))
  }

  function Run(s: State, acts: seq<Act>): State
    requires CanRun(s, acts)
    decreases |acts|
  {
    if acts == [] then s else Run(Step(s, acts[0]), acts[1..])
  }
}
