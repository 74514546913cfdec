/** Background compression as a program (compressInPlace in internal/writer/writer.go), with
    the other goroutines running between any two of its calls. */
module Compression {
  import opened Wrappers
  import opened Lines
  import opened Leases
  import opened StorageProtocol
  import opened StorageInvariant
  import opened StorageSafety
  import opened World

  /** What the others may do to a bucket that waits for compression: nothing at all once its
      lease is held, and until then no more than delete it. */
  ghost predicate Shielded(s: State, t: State, b: Bucket)
    requires b in s.workers
  {
    && b in t.workers && t.workers[b] == s.workers[b]
    && (b in t.disk.plain ==> Lookup(t.disk.plain, b) == Lookup(s.disk.plain, b))
    && (!s.workers[b].GStart? ==>
          Lookup(t.disk.plain, b) == Lookup(s.disk.plain, b) && Lookup(t.disk.gz, b) == Lookup(s.disk.gz, b))
  }

  lemma ShieldedFromWriter(s: State, w: WAct, b: Bucket)
    requires InvDates(s) && WEnabled(s, w) && b in s.workers
    ensures Shielded(s, WStep(s, w), b)
  {
  }

  lemma ShieldedFromWorker(s: State, c: Bucket, g: GAct, b: Bucket)
    requires GEnabled(s, c, g) && b in s.workers && c != b
    ensures Shielded(s, GStep(s, c, g), b)
  {
  }

  lemma ShieldedFromMonitor(s: State, m: MAct, b: Bucket)
    requires InvTable(s) && InvOwn(s) && InvMon(s) && MEnabled(s, m) && b in s.workers
    ensures Shielded(s, MStep(s, m), b)
  {
    if b in s.tab.deleting { MarkedIsUnused(s, b); }
  }

  lemma ShieldedStep(s: State, a: Act, b: Bucket)
    requires Inv(s) && Enabled(s, a) && !By(a, TheWorker(b)) && b in s.workers
    ensures Shielded(s, Step(s, a), b)
  {
    match a
    case W(w) => ShieldedFromWriter(s, w, b);
    case G(c, g) => ShieldedFromWorker(s, c, g, b);
    case E(i, e) =>
    case M(m) => ShieldedFromMonitor(s, m, b);
  }

  lemma {:induction false} ShieldedRun(s: State, acts: seq<Act>, b: Bucket)
    requires Inv(s) && CanRun(s, acts) && Apart(acts, TheWorker(b)) && b in s.workers
    ensures Shielded(s, Run(s, acts), b)
    decreases |acts|
  {
    hide Step, Enabled, Inv;
    if acts != [] {
      ShieldedStep(s, acts[0], b);
      StepInv(s, acts[0]);
      ShieldedRun(Step(s, acts[0]), acts[1..], b);
    }
  }

  method Wait(world: World, b: Bucket)
    requires world.Valid() && b in world.s.workers
    modifies world
    ensures world.Valid() && Shielded(old(world.s), world.s, b) && old(world.log) <= world.log
  {
    hide Inv;
    ghost var before, log := world.s, world.log;
    world.Others(TheWorker(b));
    ghost var acts :| Apart(acts, TheWorker(b)) && CanRun(before, acts) && world.s == Run(before, acts)
                      && world.log == log + acts;
    ShieldedRun(before, acts, b);
  }

  method Do(world: World, b: Bucket, g: GAct)
    requires world.Valid() && GEnabled(world.s, b, g)
    modifies world
    ensures world.Valid() && world.s == GStep(old(world.s), b, g) && world.log == old(world.log) + [G(b, g)]
  {
    hide Inv;
    world.Do(G(b, g));
  }

  /** The worker's two steps at its end: the deferred Release. */
  method Release(world: World, b: Bucket)
    requires world.Valid() && b in world.s.workers && world.s.workers[b].GDone?
    modifies world
    ensures world.Valid() && b !in world.s.workers && Worker(b) !in world.s.leases
    ensures old(world.log) <= world.log
    ensures Lookup(world.s.disk.plain, b) == Lookup(old(world.s).disk.plain, b)
    ensures Lookup(world.s.disk.gz, b) == Lookup(old(world.s).disk.gz, b)
  {
    hide Inv;
    Do(world, b, GSwap);
    Wait(world, b);
    Do(world, b, GDec);
  }

  /** On success the bytes of the plain file are in the gz file and the plain file is gone; on
      any failure a plain file that is there is as it was. */
  ghost predicate Compressed(s: State, t: State, b: Bucket, ok: bool) {
    if ok then b in s.disk.plain && b !in t.disk.plain && Lookup(t.disk.gz, b) == Some(Whole(s.disk.plain[b]))
    else b in t.disk.plain ==> Lookup(t.disk.plain, b) == Lookup(s.disk.plain, b)
  }

  /** What the calls of one compression return, each if it is made: the open of the source, the
      create, the copy with its closes, of which a failing one leaves `left`, and the remove. */
  datatype Calls = Calls(opens: bool, creates: bool, copies: bool, left: Leftover, removes: bool)

  /** What a compression that has opened its source leaves in the gz file, the plain file and the
      gz file having been `plain` and `gz`. */
  function GzAfter(plain: Bytes, gz: Option<Gz>, calls: Calls): Option<Gz> {
    if !calls.creates then gz
    else if calls.copies then Some(Whole(plain))
    else
      match calls.left
      case Removed => None
      case LeftTorn => Some(Torn)
      case LeftWhole => Some(Whole(plain))
  }

  /** Create and copy; a copy that fails may or may not leave its gz file behind. */
  method Copy(world: World, b: Bucket, calls: Calls) returns (ok: bool)
    requires world.Valid() && b in world.s.workers && world.s.workers[b].GOpened?
    modifies world
    ensures world.Valid() && b in world.s.workers && old(world.log) <= world.log
    ensures ok <==> calls.creates && calls.copies
    ensures world.s.workers[b] == if ok then GWritten else GDone
    ensures Lookup(world.s.disk.plain, b) == Lookup(old(world.s).disk.plain, b)
    ensures b in old(world.s).disk.plain
    ensures Lookup(world.s.disk.gz, b) == GzAfter(old(world.s).disk.plain[b], Lookup(old(world.s).disk.gz, b), calls)
  {
    hide Inv, Run, CanRun, GStep;
    WorkerHasPlain(world.s, b);
    if calls.creates {
      Create(world, b);
      WorkerHasPlain(world.s, b);
      ok := CopyOut(world, b, calls);
    } else {
      CreateFails(world, b);
      ok := false;
    }
  }

  method Create(world: World, b: Bucket)
    requires world.Valid() && b in world.s.workers && world.s.workers[b].GOpened?
    modifies world
    ensures world.Valid() && b in world.s.workers && world.s.workers[b].GCreated? && old(world.log) <= world.log
    ensures Lookup(world.s.disk.plain, b) == Lookup(old(world.s).disk.plain, b) && Lookup(world.s.disk.gz, b) == Some(Torn)
  {
    hide Inv, Run, CanRun;
    Do(world, b, GCreateOk);
    Wait(world, b);
  }

  method CreateFails(world: World, b: Bucket)
    requires world.Valid() && b in world.s.workers && world.s.workers[b].GOpened?
    modifies world
    ensures world.Valid() && b in world.s.workers && world.s.workers[b].GDone? && old(world.log) <= world.log
    ensures world.s.disk == old(world.s).disk
  {
    hide Inv, Run, CanRun;
    Do(world, b, GCreateFail);
  }

  method CopyOut(world: World, b: Bucket, calls: Calls) returns (ok: bool)
    requires world.Valid() && b in world.s.workers && world.s.workers[b].GCreated?
    requires b in world.s.disk.plain && Lookup(world.s.disk.gz, b) == Some(Torn) && calls.creates
    modifies world
    ensures world.Valid() && b in world.s.workers && old(world.log) <= world.log && ok == calls.copies
    ensures world.s.workers[b] == if ok then GWritten else GDone
    ensures Lookup(world.s.disk.plain, b) == Lookup(old(world.s).disk.plain, b)
    ensures Lookup(world.s.disk.gz, b) == GzAfter(old(world.s).disk.plain[b], None, calls)
  {
    hide Inv, Run, CanRun;
    ok := calls.copies;
    if ok {
      Do(world, b, GCopyOk);
      Wait(world, b);
    } else {
      Do(world, b, GCopyFail(calls.left));
    }
  }

  /** Once the source is open: create, copy and close, then remove the source. */
  method CopyAndRemove(world: World, b: Bucket, calls: Calls) returns (ok: bool)
    requires world.Valid() && b in world.s.workers && world.s.workers[b].GOpened?
    modifies world
    ensures world.Valid() && b in world.s.workers && world.s.workers[b].GDone? && old(world.log) <= world.log
    ensures ok <==> calls.creates && calls.copies && calls.removes
    ensures b in old(world.s).disk.plain && Lookup(world.s.disk.plain, b) == if ok then None else Lookup(old(world.s).disk.plain, b)
    ensures Lookup(world.s.disk.gz, b) == GzAfter(old(world.s).disk.plain[b], Lookup(old(world.s).disk.gz, b), calls)
  {
    hide Inv;
    ok := Copy(world, b, calls);
    if !ok { return; }
    if !calls.removes {
      Do(world, b, GRemoveFail);
      return false;
    }
    Do(world, b, GRemoveOk);
  }

  /** Under the lease: open the source if it is there, then the rest. */
  method OpenAndCopy(world: World, b: Bucket, calls: Calls) returns (ok: bool)
    requires world.Valid() && b in world.s.workers && world.s.workers[b].GLeased?
    modifies world
    ensures world.Valid() && b in world.s.workers && world.s.workers[b].GDone? && old(world.log) <= world.log
    ensures ok <==> b in old(world.s).disk.plain && calls.opens && calls.creates && calls.copies && calls.removes
    ensures Lookup(world.s.disk.plain, b) == if ok then None else Lookup(old(world.s).disk.plain, b)
    ensures Lookup(world.s.disk.gz, b)
         == if b in old(world.s).disk.plain && calls.opens
            then GzAfter(old(world.s).disk.plain[b], Lookup(old(world.s).disk.gz, b), calls) else Lookup(old(world.s).disk.gz, b)
  {
    hide Inv, Run, CanRun;
    if calls.opens && b in world.s.disk.plain {
      Do(world, b, GOpenOk);
      Wait(world, b);
      ok := CopyAndRemove(world, b, calls);
    } else {
      Do(world, b, GOpenFail);
      ok := false;
    }
  }

  /** Entry `at` of the log is where the compression asked for its lease; `asked` is the state it
      was answered from. */
  ghost predicate AskedAt(world: World, b: Bucket, at: nat, asked: State)
    reads world
  {
    && at < |world.log| && CanRun(world.start, world.log[..at]) && Run(world.start, world.log[..at]) == asked
    && world.log[at] == G(b, if asked.tab.CanAcquire(b) then GAcqOk else GAcqRefused)
  }

  /** The lease is taken before the source is opened, and is back whatever happens. The bucket is
      compressed exactly when it was not marked at the request, its plain file was still there
      and no call failed. Otherwise the plain file is as it was then, and the gz file what the
      failing call left. */
  method CompressInPlace(world: World, b: Bucket, calls: Calls) returns (ok: bool, ghost at: nat, ghost asked: State)
    requires world.Valid() && b in world.s.workers && world.s.workers[b].GStart?
    modifies world
    ensures world.Valid() && b !in world.s.workers && Worker(b) !in world.s.leases
    ensures |old(world.log)| <= at && AskedAt(world, b, at, asked)
    ensures ok <==> asked.tab.CanAcquire(b) && b in asked.disk.plain
                    && calls.opens && calls.creates && calls.copies && calls.removes
    ensures Lookup(world.s.disk.plain, b) == if ok then None else Lookup(asked.disk.plain, b)
    ensures Lookup(world.s.disk.gz, b)
         == if asked.tab.CanAcquire(b) && b in asked.disk.plain && calls.opens
            then GzAfter(asked.disk.plain[b], Lookup(asked.disk.gz, b), calls) else Lookup(asked.disk.gz, b)
    ensures Compressed(old(world.s), world.s, b, ok)
  {
    hide Inv, CanRun, Run;
    Wait(world, b);
    ghost var log := world.log;
    at, asked := |log|, world.s;
    assert log[..at] == log;
    if !world.s.tab.CanAcquire(b) {
      Do(world, b, GAcqRefused);
      NoWorkerNoLease(world.s, b);
      assert world.log[..at] == log;
      return false, at, asked;
    }
    Do(world, b, GAcqOk);
    Wait(world, b);
    ok := OpenAndCopy(world, b, calls);
    Release(world, b);
    NoWorkerNoLease(world.s, b);
    assert world.log[..at] == log && world.log[at] == G(b, GAcqOk);
  }

  lemma NoWorkerNoLease(s: State, b: Bucket)
    requires Inv(s) && b !in s.workers
    ensures Worker(b) !in s.leases
  {
    assert Lookup(s.leases, Worker(b)) == WorkerLease(s.workers, b);
  }

  lemma WorkerHasPlain(s: State, b: Bucket)
    requires Inv(s) && b in s.workers && (s.workers[b].GOpened? || s.workers[b].GCreated?)
    ensures b in s.disk.plain
  {
    assert BucketDisk(s, b);
  }
}
