/** One loop body of reconcileOrphans (internal/storage/monitor.go): a stat of the plain file, a
    stat of the gz file, the lease check and the DELETE, with steps of the other goroutines in
    between. Exactly which rows such a body takes. */
module Reconcile {
  import opened Wrappers
  import opened Lines
  import opened Leases
  import opened StorageProtocol
  import opened StorageInvariant
  import opened StorageSafety

  /** A step inside the body: the monitor goes on with it, anyone else does as they like. */
  predicate Inside(a: Act) {
    a.M? ==> a.m.StatGz? || a.m.CheckLease?
  }

  predicate AllInside(acts: seq<Act>) {
    forall i :: 0 <= i < |acts| ==> Inside(acts[i])
  }

  /** From the first stat of bucket `b` to where only the DELETE is left. */
  predicate IsBody(s: State, b: Bucket, acts: seq<Act>) {
    && Enabled(s, M(StatPlain(b))) && AllInside(acts)
    && CanRun(Step(s, M(StatPlain(b))), acts)
    && Run(Step(s, M(StatPlain(b))), acts).mon == RUnleased(b)
  }

  /** The state the DELETE meets. */
  function BeforeDelete(s: State, b: Bucket, acts: seq<Act>): State
    requires IsBody(s, b, acts)
  {
    Run(Step(s, M(StatPlain(b))), acts)
  }

  /** The DELETE takes this row. */
  predicate Takes(t: State, id: string)
    requires t.mon.RUnleased?
  {
    id in t.rows && id !in Step(t, M(DelOrphans)).rows
  }

  // ----- When it takes no live row -----

  predicate Opens(s: State, a: Act, b: Bucket) {
    a == W(OpenOk) && s.pc.WOpen? && s.pc.target == b
  }

  ghost predicate NeverOpens(s: State, acts: seq<Act>, b: Bucket)
    requires CanRun(s, acts)
    decreases |acts|
  {
    acts == [] || (!Opens(s, acts[0], b) && NeverOpens(Step(s, acts[0]), acts[1..], b))
  }

  /** What the body has seen so far is still so. */
  predicate StillMissing(s: State, b: Bucket) {
    && (s.mon.RPlainMissing? || s.mon.RMissing? || s.mon.RUnleased? ==> s.mon.b == b && b !in s.disk.plain)
    && (s.mon.RMissing? || s.mon.RUnleased? ==> b in s.disk.gz ==> s.disk.gz[b].Torn?)
  }

  lemma StaysMissingW(s: State, w: WAct, b: Bucket)
    requires StillMissing(s, b) && WEnabled(s, w) && !Opens(s, W(w), b)
    ensures StillMissing(WStep(s, w), b)
  {
    WOthers(s, w);
  }

  lemma StaysMissingG(s: State, c: Bucket, g: GAct, b: Bucket)
    requires StillMissing(s, b) && GEnabled(s, c, g)
    ensures StillMissing(GStep(s, c, g), b)
  {
  }

  lemma StaysMissing(s: State, a: Act, b: Bucket)
    requires StillMissing(s, b) && Enabled(s, a) && Inside(a) && !Opens(s, a, b)
    ensures StillMissing(Step(s, a), b)
  {
    hide WStep, GStep;
    match a
    case W(w) => StaysMissingW(s, w, b);
    case G(c, g) => StaysMissingG(s, c, g, b);
    case E(i, e) =>
    case M(m) =>
  }

  lemma {:induction false} RunStaysMissing(s: State, acts: seq<Act>, b: Bucket)
    requires StillMissing(s, b) && CanRun(s, acts) && AllInside(acts) && NeverOpens(s, acts, b)
    ensures StillMissing(Run(s, acts), b)
    decreases |acts|
  {
    hide Step, Enabled, StillMissing;
    if acts != [] {
      StaysMissing(s, acts[0], b);
      RunStaysMissing(Step(s, acts[0]), acts[1..], b);
    }
  }

  /** From any state, after a crash or not: if the writer does not open the bucket inside the
      body, every row the DELETE takes is one that nothing can read. */
  lemma TakesOnlyDeadRows(s: State, b: Bucket, acts: seq<Act>, id: string)
    requires IsBody(s, b, acts) && NeverOpens(Step(s, M(StatPlain(b))), acts, b)
    requires Takes(BeforeDelete(s, b, acts), id)
    ensures var t := BeforeDelete(s, b, acts); !RowAgrees(t.disk, t.rows[id])
  {
    RunStaysMissing(Step(s, M(StatPlain(b))), acts, b);
  }

  // ----- When it does -----

  /** The writer puts a row of the bucket into the index. */
  predicate InsertsInto(s: State, a: Act, b: Bucket) {
    a == W(RowOk) && s.pc.WWrote? && s.pc.target == b
  }

  ghost predicate SomeInsert(s: State, acts: seq<Act>, b: Bucket)
    requires CanRun(s, acts)
    decreases |acts|
  {
    acts != [] && (InsertsInto(s, acts[0], b) || SomeInsert(Step(s, acts[0]), acts[1..], b))
  }

  /** Trace ids are fresh: no insert replaces a row. */
  ghost predicate FreshIds(s: State, acts: seq<Act>)
    requires CanRun(s, acts)
    decreases |acts|
  {
    acts == []
    || ((acts[0] == W(RowOk) && s.pc.WWrote? ==> s.pc.rec.id !in s.rows)
        && FreshIds(Step(s, acts[0]), acts[1..]))
  }

  /** Rows of `b` that were not among `old` are in the file. */
  predicate NewRowsAgree(s: State, old_: set<string>, b: Bucket) {
    forall id :: id in s.rows && id !in old_ && s.rows[id].bucket == b ==> RowAgrees(s.disk, s.rows[id])
  }

  /** What one step inside a body does to the rows: they stay, and one more may come. */
  lemma RowsStay(s: State, a: Act)
    requires Enabled(s, a) && Inside(a) && (a == W(RowOk) && s.pc.WWrote? ==> s.pc.rec.id !in s.rows)
    ensures var t := Step(s, a);
            t.rows == if a == W(RowOk) then s.rows[s.pc.rec.id := Row(s.pc.target, s.pc.off, s.pc.rec.line)] else s.rows
  {
    match a
    case W(w) => WRows(s, w);
    case G(b, g) => GKeeps(s, b, g);
    case E(i, e) =>
    case M(m) =>
  }

  /** The row inserted has its line in the file. */
  lemma InsertedAgrees(s: State)
    requires Base(s) && s.pc.WWrote?
    ensures RowAgrees(s.disk, Row(s.pc.target, s.pc.off, s.pc.rec.line))
  {
  }

  lemma NewRowsStayTrue(s: State, a: Act, old_: set<string>, b: Bucket)
    requires Base(s) && Enabled(s, a) && Inside(a) && NewRowsAgree(s, old_, b)
    requires a == W(RowOk) && s.pc.WWrote? ==> s.pc.rec.id !in s.rows
    ensures NewRowsAgree(Step(s, a), old_, b)
  {
    hide Base, Step, Enabled;
    RowsStay(s, a);
    ContentOnlyGrows(s, a, b);
    var t := Step(s, a);
    forall id | id in t.rows && id !in old_ && t.rows[id].bucket == b
      ensures RowAgrees(t.disk, t.rows[id])
    {
      var r := t.rows[id];
      if id !in s.rows || s.rows[id] != r { NewOne(s, a, id); }
      LineAtExtends(Content(s.disk, b).value, Content(t.disk, b).value, r.offset, r.line);
    }
  }

  lemma NewOne(s: State, a: Act, id: string)
    requires Base(s) && Enabled(s, a) && Inside(a)
    requires a == W(RowOk) && s.pc.WWrote? ==> s.pc.rec.id !in s.rows
    requires id in Step(s, a).rows && (id !in s.rows || s.rows[id] != Step(s, a).rows[id])
    ensures RowAgrees(s.disk, Step(s, a).rows[id])
  {
    RowsStay(s, a);
    InsertedAgrees(s);
  }

  lemma {:induction false} BodyRun(s: State, acts: seq<Act>, old_: set<string>, b: Bucket)
    requires Base(s) && CanRun(s, acts) && AllInside(acts) && FreshIds(s, acts)
    requires old_ <= s.rows.Keys && NewRowsAgree(s, old_, b)
    ensures var t := Run(s, acts);
            && NewRowsAgree(t, old_, b)
            && (forall id :: id in s.rows ==> id in t.rows && t.rows[id] == s.rows[id])
            && ((exists id :: id in t.rows && id !in s.rows && t.rows[id].bucket == b) <==> SomeInsert(s, acts, b))
    decreases |acts|
  {
    hide Base, Step, Enabled, NewRowsAgree;
    if acts != [] {
      var next := Step(s, acts[0]);
      StepBase(s, acts[0]);
      RowsStayHere(s, acts[0]);
      NewRowsStayTrue(s, acts[0], old_, b);
      BodyRun(next, acts[1..], old_, b);
      NewHereOrLater(s, acts[0], Run(next, acts[1..]), b);
    }
  }

  lemma RowsStayHere(s: State, a: Act)
    requires Enabled(s, a) && Inside(a) && (a == W(RowOk) && s.pc.WWrote? ==> s.pc.rec.id !in s.rows)
    ensures s.rows.Keys <= Step(s, a).rows.Keys
  {
    hide Step;
    RowsStay(s, a);
  }

  lemma NewHereOrLater(s: State, a: Act, t: State, b: Bucket)
    requires Enabled(s, a) && Inside(a) && (a == W(RowOk) && s.pc.WWrote? ==> s.pc.rec.id !in s.rows)
    requires forall id :: id in Step(s, a).rows ==> id in t.rows && t.rows[id] == Step(s, a).rows[id]
    ensures (exists id :: id in t.rows && id !in s.rows && t.rows[id].bucket == b)
       <==> InsertsInto(s, a, b) || exists id :: id in t.rows && id !in Step(s, a).rows && t.rows[id].bucket == b
    ensures forall id :: id in s.rows ==> id in t.rows && t.rows[id] == s.rows[id]
  {
    hide Step;
    RowsStay(s, a);
    if InsertsInto(s, a, b) {
      var id := s.pc.rec.id;
      assert id in Step(s, a).rows && t.rows[id].bucket == b;
    }
  }

  /** From any life's states: a body takes a row that was not there when it began, and that is
      in the file, exactly when the writer inserted a row of the bucket inside the body. Every
      row it takes that was there when it began had no content to be read from then. */
  lemma TakesLiveRowIff(s: State, b: Bucket, acts: seq<Act>)
    requires Base(s) && IsBody(s, b, acts) && FreshIds(Step(s, M(StatPlain(b))), acts)
    ensures var t := BeforeDelete(s, b, acts);
            && ((exists id :: Takes(t, id) && id !in s.rows && RowAgrees(t.disk, t.rows[id]))
                <==> SomeInsert(Step(s, M(StatPlain(b))), acts, b))
            && (forall id :: Takes(t, id) && id !in s.rows ==> RowAgrees(t.disk, t.rows[id]))
            && (forall id :: Takes(t, id) && id in s.rows ==>
                  t.rows[id] == s.rows[id] && Content(s.disk, s.rows[id].bucket) == None)
  {
    hide Base, Step, Enabled, Takes;
    var s1, t := Step(s, M(StatPlain(b))), BeforeDelete(s, b, acts);
    StartOfBody(s, b, acts);
    BodyRun(s1, acts, s.rows.Keys, b);
    TakesTheBucket(t, b);
  }

  lemma TakesTheBucket(t: State, b: Bucket)
    requires t.mon == RUnleased(b)
    ensures forall id :: Takes(t, id) <==> id in t.rows && t.rows[id].bucket == b
  {
  }

  /** A body that gets to its DELETE began with nothing to read in the bucket. */
  lemma StartOfBody(s: State, b: Bucket, acts: seq<Act>)
    requires Base(s) && IsBody(s, b, acts)
    ensures var s1 := Step(s, M(StatPlain(b)));
            Base(s1) && s1.rows == s.rows && NewRowsAgree(s1, s.rows.Keys, b)
    ensures Content(s.disk, b) == None
  {
    StepBase(s, M(StatPlain(b)));
    hide Base;
    var s1 := Step(s, M(StatPlain(b)));
    if Content(s.disk, b).Some? {
      if s1.mon.MIdle? { MonStaysIdle(s1, acts); }
      GzStays(s1, acts, b);
      assert false;
    }
  }

  /** Once a body has ended early nothing inside it takes the monitor up again. */
  lemma {:induction false} MonStaysIdle(s: State, acts: seq<Act>)
    requires CanRun(s, acts) && AllInside(acts) && s.mon.MIdle?
    ensures Run(s, acts).mon.MIdle?
    decreases |acts|
  {
    hide Step, Enabled;
    if acts != [] {
      IdleStep(s, acts[0]);
      MonStaysIdle(Step(s, acts[0]), acts[1..]);
    }
  }

  lemma IdleStep(s: State, a: Act)
    requires Enabled(s, a) && Inside(a) && s.mon.MIdle?
    ensures Step(s, a).mon.MIdle?
  {
    match a
    case W(w) => WOthers(s, w);
    case G(c, g) => GKeeps(s, c, g);
    case E(i, e) =>
    case M(m) =>
  }

  // ----- The lease check -----

  /** Position `i` of the run is the lease check, and `u` the state it looks at. */
  ghost predicate ChecksAt(s: State, acts: seq<Act>, i: nat, u: State)
    requires CanRun(s, acts)
  {
    i < |acts| && acts[i] == M(CheckLease) && CanRun(s, acts[..i]) && Run(s, acts[..i]) == u
  }

  predicate BeforeCheck(s: State) {
    s.mon.MIdle? || s.mon.RPlainMissing? || s.mon.RMissing?
  }

  lemma OnlyCheckPasses(s: State, a: Act)
    requires Enabled(s, a) && Inside(a) && BeforeCheck(s) && !BeforeCheck(Step(s, a))
    ensures a == M(CheckLease)
  {
    match a
    case W(w) => WOthers(s, w);
    case G(c, g) => GKeeps(s, c, g);
    case E(i, e) =>
    case M(m) =>
  }

  lemma {:induction false} SomeCheck(s: State, acts: seq<Act>) returns (i: nat, u: State)
    requires CanRun(s, acts) && AllInside(acts) && BeforeCheck(s) && !BeforeCheck(Run(s, acts))
    ensures ChecksAt(s, acts, i, u)
    decreases |acts|
  {
    hide Step, Enabled, BeforeCheck;
    if !BeforeCheck(Step(s, acts[0])) {
      OnlyCheckPasses(s, acts[0]);
      i, u := 0, s;
      assert acts[..0] == [];
    } else {
      i, u := SomeCheck(Step(s, acts[0]), acts[1..]);
      assert acts[..i + 1][1..] == acts[1..][..i];
      i := i + 1;
    }
  }

  /** Once past its check, a body keeps its bucket. */
  lemma {:induction false} PastCheckStays(s: State, acts: seq<Act>)
    requires CanRun(s, acts) && AllInside(acts) && s.mon.RUnleased?
    ensures Run(s, acts).mon == s.mon
    decreases |acts|
  {
    hide Step, Enabled;
    if acts != [] {
      PastCheckStep(s, acts[0]);
      PastCheckStays(Step(s, acts[0]), acts[1..]);
    }
  }

  lemma PastCheckStep(s: State, a: Act)
    requires Enabled(s, a) && Inside(a) && s.mon.RUnleased?
    ensures Step(s, a).mon == s.mon
  {
    match a
    case W(w) => WOthers(s, w);
    case G(c, g) => GKeeps(s, c, g);
    case E(i, e) =>
    case M(m) =>
  }

  lemma PassedUncounted(s: State, acts: seq<Act>, i: nat, u: State)
    requires CanRun(s, acts) && AllInside(acts) && ChecksAt(s, acts, i, u) && Run(s, acts).mon.RUnleased?
    ensures u.mon.RMissing? && u.mon.b == Run(s, acts).mon.b && u.tab.Count(u.mon.b) <= 0
  {
    StepAt(s, acts, i);
    var next, rest := Step(u, acts[i]), acts[i + 1..];
    if next.mon.MIdle? { MonStaysIdle(next, rest); } else { PastCheckStays(next, rest); }
  }

  /** A body that gets to its DELETE has looked at the leases, and at that moment nobody, the
      writer included, held the bucket: no row inserted earlier under a lease still out is taken. */
  lemma TakesNothingLeased(s: State, b: Bucket, acts: seq<Act>)
    requires Base(s) && IsBody(s, b, acts)
    ensures exists i: nat, u :: ChecksAt(Step(s, M(StatPlain(b))), acts, i, u)
    ensures forall i: nat, u, id :: ChecksAt(Step(s, M(StatPlain(b))), acts, i, u) && Takes(BeforeDelete(s, b, acts), id) ==>
      var c := BeforeDelete(s, b, acts).rows[id].bucket;
      Holders(u.leases, c) == {} && c !in u.handles
  {
    var s1, t := Step(s, M(StatPlain(b))), BeforeDelete(s, b, acts);
    assert BeforeCheck(s1) && !BeforeCheck(t);
    StepBase(s, M(StatPlain(b)));
    hide Base, Step, Enabled, Takes, ChecksAt, BeforeCheck;
    var k, v := SomeCheck(s1, acts);
    TakesTheBucket(t, b);
    forall i: nat, u | ChecksAt(s1, acts, i, u)
      ensures Holders(u.leases, b) == {} && b !in u.handles
    {
      PassedUncounted(s1, acts, i, u);
      AtCheck(s1, acts, i, u);
      UncountedUnheld(u, b);
    }
  }

  // ----- The two stats -----

  /** Position `i` of the run is the stat of the gz file, and `u` the state it looks at. */
  ghost predicate StatsGzAt(s: State, acts: seq<Act>, i: nat, u: State)
    requires CanRun(s, acts)
  {
    i < |acts| && acts[i] == M(StatGz) && CanRun(s, acts[..i]) && Run(s, acts[..i]) == u
  }

  predicate BeforeGz(s: State) {
    s.mon.MIdle? || s.mon.RPlainMissing?
  }

  lemma OnlyStatGzPasses(s: State, a: Act)
    requires Enabled(s, a) && Inside(a) && BeforeGz(s) && !BeforeGz(Step(s, a))
    ensures a == M(StatGz)
  {
    match a
    case W(w) => WOthers(s, w);
    case G(c, g) => GKeeps(s, c, g);
    case E(i, e) =>
    case M(m) =>
  }

  lemma {:induction false} SomeStatGz(s: State, acts: seq<Act>) returns (i: nat, u: State)
    requires CanRun(s, acts) && AllInside(acts) && BeforeGz(s) && !BeforeGz(Run(s, acts))
    ensures StatsGzAt(s, acts, i, u)
    decreases |acts|
  {
    hide Step, Enabled, BeforeGz;
    if !BeforeGz(Step(s, acts[0])) {
      OnlyStatGzPasses(s, acts[0]);
      i, u := 0, s;
      assert acts[..0] == [];
    } else {
      i, u := SomeStatGz(Step(s, acts[0]), acts[1..]);
      assert acts[..i + 1][1..] == acts[1..][..i];
      i := i + 1;
    }
  }

  /** The bucket the body is at stays the same until it ends. */
  predicate At(s: State, b: Bucket) {
    s.mon.RPlainMissing? || s.mon.RMissing? || s.mon.RUnleased? ==> s.mon.b == b
  }

  lemma AtStays(s: State, a: Act, b: Bucket)
    requires At(s, b) && Enabled(s, a) && Inside(a)
    ensures At(Step(s, a), b)
  {
    match a
    case W(w) => WOthers(s, w);
    case G(c, g) => GKeeps(s, c, g);
    case E(i, e) =>
    case M(m) =>
  }

  lemma {:induction false} AtStaysAlong(s: State, acts: seq<Act>, b: Bucket)
    requires CanRun(s, acts) && AllInside(acts) && At(s, b)
    ensures At(Run(s, acts), b)
    decreases |acts|
  {
    hide Step, Enabled, At;
    if acts != [] {
      AtStays(s, acts[0], b);
      AtStaysAlong(Step(s, acts[0]), acts[1..], b);
    }
  }

  lemma StatGzFoundNone(s: State, acts: seq<Act>, i: nat, u: State, b: Bucket)
    requires CanRun(s, acts) && AllInside(acts) && At(s, b) && StatsGzAt(s, acts, i, u) && Run(s, acts).mon.RUnleased?
    ensures b !in u.disk.gz
  {
    StepAt(s, acts, i);
    AtStaysAlong(s, acts[..i], b);
    if b in u.disk.gz { MonStaysIdle(Step(u, acts[i]), acts[i + 1..]); }
  }

  /** A body that gets to its DELETE found no plain file at its first stat and no gz file, torn or
      whole, at its second. */
  lemma FindsNoFile(s: State, b: Bucket, acts: seq<Act>)
    requires IsBody(s, b, acts)
    ensures b !in s.disk.plain
    ensures exists i: nat, u :: StatsGzAt(Step(s, M(StatPlain(b))), acts, i, u)
    ensures forall i: nat, u :: StatsGzAt(Step(s, M(StatPlain(b))), acts, i, u) ==> b !in u.disk.gz
  {
    var s1 := Step(s, M(StatPlain(b)));
    if b in s.disk.plain { MonStaysIdle(s1, acts); }
    var k, v := SomeStatGz(s1, acts);
    forall i: nat, u | StatsGzAt(s1, acts, i, u)
      ensures b !in u.disk.gz
    {
      StatGzFoundNone(s1, acts, i, u, b);
    }
  }

  lemma AtCheck(s: State, acts: seq<Act>, i: nat, u: State)
    requires Base(s) && CanRun(s, acts) && ChecksAt(s, acts, i, u)
    ensures Base(u)
  {
    RunBase(s, acts[..i]);
  }

  lemma UncountedUnheld(u: State, b: Bucket)
    requires Base(u) && u.tab.Count(b) <= 0
    ensures Holders(u.leases, b) == {} && b !in u.handles
  {
    assert b in u.handles ==> Lookup(u.leases, Handle(b)) == Some(Hold(b, false));
    assert b in u.handles ==> Handle(b) in Holders(u.leases, b);
    assert u.tab.Count(b) == |Holders(u.leases, b)|;
  }

  /** In a life whose invariant holds, no row that is there when a body begins is ever taken by
      it; so a body inside which no row of the bucket is inserted takes nothing. */
  lemma ReconcileKeepsLiveRows(s: State, b: Bucket, acts: seq<Act>)
    requires Inv(s) && IsBody(s, b, acts) && FreshIds(Step(s, M(StatPlain(b))), acts)
    ensures var t := BeforeDelete(s, b, acts);
            && (forall id :: Takes(t, id) ==> id !in s.rows)
            && (!SomeInsert(Step(s, M(StatPlain(b))), acts, b) ==> Step(t, M(DelOrphans)).rows == t.rows)
  {
    TakesLiveRowIff(s, b, acts);
    EveryRowReads(s);
    hide Base, InvRows;
    var t := BeforeDelete(s, b, acts);
    if !SomeInsert(Step(s, M(StatPlain(b))), acts, b) {
      TakesTheBucket(t, b);
      assert forall id :: id in t.rows ==> !Takes(t, id);
    }
  }

  lemma EveryRowReads(s: State)
    requires Inv(s) && s.mon.MIdle?
    ensures forall id :: id in s.rows ==> Content(s.disk, s.rows[id].bucket).Some?
  {
    assert forall id :: id in s.rows ==> RowAgrees(s.disk, s.rows[id]);
  }

  // ----- A gz file with no plain file beside it stays -----

  predicate LoneGz(s: State, b: Bucket) {
    && b !in s.disk.plain && b in s.disk.gz && s.disk.gz[b].Whole?
    && !s.mon.RMissing? && !s.mon.RUnleased?
    && (s.mon.RPlainMissing? ==> s.mon.b == b)
  }

  lemma GzStaysStep(s: State, a: Act, b: Bucket)
    requires Base(s) && LoneGz(s, b) && Enabled(s, a) && Inside(a)
    ensures LoneGz(Step(s, a), b)
  {
    match a
    case W(w) => WOthers(s, w); WOldFile(s, w, b);
    case G(c, g) => GzStaysG(s, c, g, b);
    case E(i, e) =>
    case M(m) =>
  }

  lemma GzStaysG(s: State, c: Bucket, g: GAct, b: Bucket)
    requires InvDisk(s) && LoneGz(s, b) && GEnabled(s, c, g)
    ensures LoneGz(GStep(s, c, g), b)
  {
    assert BucketDisk(s, c);
  }

  lemma {:induction false} GzStays(s: State, acts: seq<Act>, b: Bucket)
    requires Base(s) && LoneGz(s, b) && CanRun(s, acts) && AllInside(acts)
    ensures LoneGz(Run(s, acts), b)
    decreases |acts|
  {
    hide Base, Step, Enabled, LoneGz;
    if acts != [] {
      GzStaysStep(s, acts[0], b);
      StepBase(s, acts[0]);
      GzStays(Step(s, acts[0]), acts[1..], b);
    }
  }
}
