/** The shared world the goroutines of the storage protocol act on. A method takes its steps
    with Do and lets the other goroutines run in between with Others, so it only ever moves the
    world along a run of the protocol. */
module World {
  import opened Wrappers
  import opened Lines
  import opened Leases
  import opened StorageProtocol
  import opened StorageInvariant
  import opened StorageSafety
  import opened StorageCrash

  datatype Actor = TheWriter | TheWorker(b: Bucket) | TheMonitor

  predicate By(a: Act, who: Actor) {
    match who
    case TheWriter => a.W?
    case TheWorker(b) => a.G? && a.b == b
    case TheMonitor => a.M?
  }

  predicate Apart(acts: seq<Act>, who: Actor) {
    forall i :: 0 <= i < |acts| ==> !By(acts[i], who)
  }

  class World {
    var s: State
    ghost const start: State
    ghost var log: seq<Act>  // every step taken since the start, by whomever

    /** The start of a life: the very first, or one after a crash or a stop. */
    constructor (s: State)
      requires Inv(s)
      ensures Valid() && this.s == s && start == s && log == []
    {
      this.s, this.start, this.log := s, s, [];
    }

    /** The world is where its recorded steps led. */
    ghost predicate Valid()
      reads this
    {
      Inv(s) && CanRun(start, log) && s == Run(start, log)
    }

    /** One step of the goroutine at work. */
    method Do(a: Act)
      requires Valid() && Enabled(s, a)
      modifies this
      ensures Valid() && s == Step(old(s), a) && log == old(log) + [a]
    {
      StepInv(s, a);
      OneStep(s, a);
      RunConcat(start, log, [a]);
      hide Inv, Step, Enabled;
      s, log := Step(s, a), log + [a];
    }

    /** Any steps of any other goroutines. */
    method Others(who: Actor)
      requires Valid()
      modifies this
      ensures Valid()
      ensures exists acts :: Apart(acts, who) && CanRun(old(s), acts) && s == Run(old(s), acts) && log == old(log) + acts
    {
      hide Inv, Step, Enabled;
      assert Apart([], who) && CanRun(s, []);
      var acts :| Apart(acts, who) && CanRun(s, acts);
      Take(acts);
    }

    /** A whole run of steps. */
    method Take(acts: seq<Act>)
      requires Valid() && CanRun(s, acts)
      modifies this
      ensures Valid() && s == Run(old(s), acts) && log == old(log) + acts
    {
      hide Inv, Step, Enabled;
      RunInv(s, acts);
      RunConcat(start, log, acts);
      s, log := Run(s, acts), log + acts;
    }

    /** Other goroutines run until no compression is left, as the wait group waits for. */
    method WaitForWorkers()
      requires Valid()
      modifies this
      ensures Valid() && s.workers == map[]
      ensures exists acts :: Apart(acts, TheWriter) && CanRun(old(s), acts) && s == Run(old(s), acts)
                          && log == old(log) + acts
    {
      hide Inv, Step, Enabled;
      WorkersCanFinish(s);
      var acts :| Apart(acts, TheWriter) && CanRun(s, acts) && Run(s, acts).workers == map[];
      Take(acts);
    }
  }

  lemma OneStep(s: State, a: Act)
    requires Enabled(s, a)
    ensures CanRun(s, [a]) && Run(s, [a]) == Step(s, a)
  {
    hide Step, Enabled;
    assert [a][1..] == [];
  }

  // ----- A compression can always run to its end -----

  /** How far a worker is from its end. */
  function StepsLeft(pc: GPc): nat {
    match pc
    case GStart => 7 case GLeased => 6 case GOpened => 5 case GCreated => 4
    case GWritten => 3 case GDone => 2 case GRel => 1
  }

  /** Every worker has a next step, whatever the others do, and it is one step nearer its end. */
  lemma WorkerNext(s: State, b: Bucket) returns (g: GAct)
    requires Inv(s) && b in s.workers
    ensures GEnabled(s, b, g)
    ensures var t := GStep(s, b, g);
            && (forall c :: c != b ==> (c in t.workers <==> c in s.workers))
            && (b in t.workers ==> StepsLeft(t.workers[b]) < StepsLeft(s.workers[b]))
  {
    assert BucketDisk(s, b);
    match s.workers[b]
    case GStart => g := if s.tab.CanAcquire(b) then GAcqOk else GAcqRefused;
    case GLeased => g := GOpenFail;
    case GOpened => g := GCreateOk;
    case GCreated => g := GCopyOk;
    case GWritten => g := GRemoveOk;
    case GDone => g := GSwap;
    case GRel => g := GDec;
  }

  function ReadsLeft(pc: EPc): nat {
    match pc
    case EHeld(_, _) => 4 case ESecond(_, _) => 3 case EGot(_, _, _) => 2 case ERel(_) => 1
  }

  /** So has every exporter, and its lease is gone at its end. */
  lemma ExporterNext(s: State, i: nat) returns (e: EAct)
    requires Inv(s) && i in s.exporters
    ensures EEnabled(s, i, e) && !e.EAcq?
    ensures var t := EStep(s, i, e);
            && (i in t.exporters ==> ReadsLeft(t.exporters[i]) < ReadsLeft(s.exporters[i]))
            && (i !in t.exporters ==> Exporter(i) !in t.leases)
  {
    match s.exporters[i]
    case EHeld(_, _) => e := ELookPlain;
    case ESecond(_, _) => e := ELookGz;
    case EGot(_, _, _) => e := ESwap;
    case ERel(_) => e := EDec;
  }

  lemma {:induction false} WorkerCanFinish(s: State, b: Bucket)
    requires Inv(s) && b in s.workers
    ensures exists acts :: Apart(acts, TheWriter) && CanRun(s, acts) && Run(s, acts).workers.Keys == s.workers.Keys - {b}
    decreases StepsLeft(s.workers[b])
  {
    hide Inv;
    var g := WorkerNext(s, b);
    var a := G(b, g);
    assert Enabled(s, a) && Step(s, a) == GStep(s, b, g);
    StepInv(s, a);
    var t := Step(s, a);
    if b in t.workers {
      WorkerCanFinish(t, b);
      var rest :| Apart(rest, TheWriter) && CanRun(t, rest) && Run(t, rest).workers.Keys == t.workers.Keys - {b};
      var acts := Before(s, a, rest);
      assert t.workers.Keys == s.workers.Keys;
      assert Apart(acts, TheWriter);
    } else {
      assert CanRun(t, []) && Run(t, []) == t;
      var acts := Before(s, a, []);
      assert t.workers.Keys == s.workers.Keys - {b};
      assert Apart(acts, TheWriter);
    }
  }

  lemma {:induction false} AllWorkersCanFinish(s: State, n: nat)
    requires Inv(s) && |s.workers.Keys| == n
    ensures exists acts :: Apart(acts, TheWriter) && CanRun(s, acts) && Run(s, acts).workers == map[]
    decreases n
  {
    hide Inv, Enabled, Step;
    if s.workers == map[] {
      assert Apart([], TheWriter) && CanRun(s, []) && Run(s, []) == s;
    } else {
      var b :| b in s.workers;
      WorkerCanFinish(s, b);
      var first :| Apart(first, TheWriter) && CanRun(s, first) && Run(s, first).workers.Keys == s.workers.Keys - {b};
      RunInv(s, first);
      var t := Run(s, first);
      AllWorkersCanFinish(t, n - 1);
      var rest :| Apart(rest, TheWriter) && CanRun(t, rest) && Run(t, rest).workers == map[];
      RunConcat(s, first, rest);
      assert Apart(first + rest, TheWriter);
    }
  }

  lemma WorkersCanFinish(s: State)
    requires Inv(s)
    ensures exists acts :: Apart(acts, TheWriter) && CanRun(s, acts) && Run(s, acts).workers == map[]
  {
    AllWorkersCanFinish(s, |s.workers.Keys|);
  }
}
