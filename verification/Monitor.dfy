/** The monitor's two destructive operations as programs: deleteIfIdle
    (internal/storage/eviction.go) on the shared world, with the other goroutines running
    between its calls, and reconcileOrphans (internal/storage/monitor.go) as one pass that
    nothing interrupts. */
module Monitor {
  import opened Wrappers
  import opened Lines
  import opened Leases
  import opened StorageProtocol
  import opened StorageInvariant
  import opened StorageSafety
  import opened World

  // ----- deleteIfIdle -----

  /** No id leaves the index, and the bucket gains no row. */
  ghost predicate RowsOf(s: State, t: State, b: Bucket) {
    && (forall id :: id in s.rows ==> id in t.rows)
    && (forall id :: id in t.rows && t.rows[id].bucket == b ==> Lookup(s.rows, id) == Some(t.rows[id]))
  }

  /** Nobody else touches a bucket marked deleting, or its rows. */
  ghost predicate LeftAlone(s: State, t: State, b: Bucket) {
    && t.mon == s.mon
    && Lookup(t.disk.plain, b) == Lookup(s.disk.plain, b)
    && Lookup(t.disk.gz, b) == Lookup(s.disk.gz, b)
    && RowsOf(s, t, b)
  }

  lemma LeftAloneByWriter(s: State, w: WAct, b: Bucket)
    requires InvTable(s) && InvOwn(s) && InvDates(s) && WEnabled(s, w) && b in s.tab.deleting
    ensures LeftAlone(s, WStep(s, w), b) && b in WStep(s, w).tab.deleting
  {
    MarkedIsUnused(s, b);
    assert s.pc.WHave? || s.pc.WSized? || s.pc.WWrote? ==> s.pc.target != b;
    WRows(s, w);
    WFiles(s, w, b);
    WOthers(s, w);
    hide WStep;
  }

  lemma WFiles(s: State, w: WAct, b: Bucket)
    requires InvDates(s) && WEnabled(s, w) && b !in s.handles && (s.pc.WOpen? ==> s.pc.target != b)
    ensures Lookup(WStep(s, w).disk.plain, b) == Lookup(s.disk.plain, b)
  {
  }

  lemma LeftAloneByWorker(s: State, c: Bucket, g: GAct, b: Bucket)
    requires InvTable(s) && InvOwn(s) && GEnabled(s, c, g) && b in s.tab.deleting
    ensures LeftAlone(s, GStep(s, c, g), b) && b in GStep(s, c, g).tab.deleting
  {
    MarkedIsUnused(s, b);
  }

  lemma LeftAloneByExporter(s: State, i: nat, e: EAct, b: Bucket)
    requires EEnabled(s, i, e) && b in s.tab.deleting
    ensures LeftAlone(s, EStep(s, i, e), b) && b in EStep(s, i, e).tab.deleting
  {
  }

  lemma LeftAloneStep(s: State, a: Act, b: Bucket)
    requires Inv(s) && Enabled(s, a) && !By(a, TheMonitor) && b in s.tab.deleting
    ensures LeftAlone(s, Step(s, a), b) && b in Step(s, a).tab.deleting
  {
    hide LeftAlone;
    match a
    case W(w) => LeftAloneByWriter(s, w, b);
    case G(c, g) => LeftAloneByWorker(s, c, g, b);
    case E(i, e) => LeftAloneByExporter(s, i, e, b);
  }

  lemma {:induction false} LeftAloneRun(s: State, acts: seq<Act>, b: Bucket)
    requires Inv(s) && CanRun(s, acts) && Apart(acts, TheMonitor) && b in s.tab.deleting
    ensures LeftAlone(s, Run(s, acts), b) && b in Run(s, acts).tab.deleting
    decreases |acts|
  {
    hide Step, Enabled, Inv;
    if acts != [] {
      LeftAloneStep(s, acts[0], b);
      StepInv(s, acts[0]);
      LeftAloneRun(Step(s, acts[0]), acts[1..], b);
    }
  }

  method Wait(world: World, b: Bucket)
    requires world.Valid() && b in world.s.tab.deleting
    modifies world
    ensures world.Valid() && LeftAlone(old(world.s), world.s, b) && b in world.s.tab.deleting
  {
    hide Inv;
    ghost var before := world.s;
    world.Others(TheMonitor);
    ghost var acts :| Apart(acts, TheMonitor) && CanRun(before, acts) && world.s == Run(before, acts);
    LeftAloneRun(before, acts, b);
  }

  method Do(world: World, m: MAct)
    requires world.Valid() && MEnabled(world.s, m)
    modifies world
    ensures world.Valid() && world.s == MStep(old(world.s), m)
  {
    hide Inv;
    world.Do(M(m));
  }

  method DeleteMarked(world: World, b: Bucket)
    requires world.Valid() && world.s.mon == MMarked(b) && b in world.s.tab.deleting
    modifies world
    ensures world.Valid() && world.s.mon.MIdle? && b !in world.s.tab.deleting
    ensures b !in world.s.disk.plain && b !in world.s.disk.gz
    ensures forall id :: id in world.s.rows ==> world.s.rows[id].bucket != b
  {
    hide Inv;
    Do(world, RmPlain);
    Wait(world, b);
    Do(world, RmGz);
    Wait(world, b);
    Do(world, DelRows);
    Wait(world, b);
    Do(world, Unmark);
  }

  /** A bucket is deleted exactly when no lease on it is out and the first stat and remove
      succeed. Then both its files and all its rows are gone when the mark comes off; otherwise
      both files are as they were and no row is taken. */
  method DeleteIfIdle(world: World, b: Bucket, succeeds: bool) returns (deleted: bool)
    requires world.Valid() && world.s.mon.MIdle?
    modifies world
    ensures world.Valid() && world.s.mon.MIdle? && b !in world.s.tab.deleting
    ensures deleted ==> b !in world.s.disk.plain && b !in world.s.disk.gz
    ensures deleted ==> forall id :: id in world.s.rows ==> world.s.rows[id].bucket != b
    ensures deleted <==> Holders(old(world.s).leases, b) == {} && succeeds
    ensures !deleted ==>
      && Lookup(world.s.disk.plain, b) == Lookup(old(world.s).disk.plain, b)
      && Lookup(world.s.disk.gz, b) == Lookup(old(world.s).disk.gz, b)
      && RowsOf(old(world.s), world.s, b)
  {
    hide Inv;
    IdleMeansUnmarked(world.s);
    CanMarkIff(world.s, b);
    if !world.s.tab.CanMark(b) { return false; }
    Do(world, Mark(b));
    Wait(world, b);
    if !succeeds {
      Do(world, Abort);
      return false;
    }
    DeleteMarked(world, b);
    deleted := true;
  }

  /** The mark can be set exactly when no lease on the bucket is out. */
  lemma CanMarkIff(s: State, b: Bucket)
    requires Inv(s) && s.mon.MIdle?
    ensures s.tab.CanMark(b) <==> Holders(s.leases, b) == {}
  {
    assert s.tab.Count(b) == |Holders(s.leases, b)|;
  }

  lemma IdleMeansUnmarked(s: State)
    requires Inv(s) && s.mon.MIdle?
    ensures s.tab.deleting == {}
  {
  }

  // ----- reconcileOrphans -----

  /** The paths rows carry. `Parse` is FileIDFromPath; only the writer's own form of a path is
      what the lease table knows the bucket by. */
  type Path = string
  datatype Paths = Paths(canonical: Bucket -> Path, parse: Path -> Option<Bucket>)

  ghost predicate Consistent(p: Paths) {
    forall b :: p.parse(p.canonical(b)) == Some(b)
  }

  /** What one uninterrupted pass finds: the files, the leases by path, the paths whose stat or
      whose DELETE fails, and how many paths it gets to before its context is cancelled. */
  datatype Surroundings = Surroundings(
    disk: Disk, leased: set<Path>, statFails: set<Path>, deleteFails: set<Path>, cancelAfter: nat)

  predicate HasFile(d: Disk, b: Bucket) {
    b in d.plain || b in d.gz
  }

  /** A path the pass deletes: ours, nothing on disk, no lease, and neither call fails. */
  predicate Deletable(p: Paths, env: Surroundings, path: Path) {
    && p.parse(path).Some?
    && path !in env.statFails
    && !HasFile(env.disk, p.parse(path).value)
    && path !in env.leased
    && path !in env.deleteFails
  }

  /** The paths deleted out of `paths` when `room` more deletions are allowed. */
  function Doomed(p: Paths, env: Surroundings, paths: seq<Path>, room: nat): set<Path> {
    if paths == [] || room == 0 then {}
    else if Deletable(p, env, paths[0]) then {paths[0]} + Doomed(p, env, paths[1..], room - 1)
    else Doomed(p, env, paths[1..], room)
  }

  function Reached(env: Surroundings, paths: seq<Path>): seq<Path> {
    if |paths| <= env.cancelAfter then paths else paths[..env.cancelAfter]
  }

  function Cap(evictionCap: int): nat {
    if evictionCap <= 0 then 1000 else evictionCap
  }

  function WithoutPaths(rows: map<string, Path>, gone: set<Path>): map<string, Path> {
    map id | id in rows && rows[id] !in gone :: rows[id]
  }

  class Index {
    var rows: map<string, Path>  // id to jsonl_path

    constructor (rows: map<string, Path>)
      ensures this.rows == rows
    {
      this.rows := rows;
    }

    /** The distinct paths of the rows, in some order. */
    method ListDistinctJSONLPaths() returns (paths: seq<Path>)
      ensures forall p :: p in paths <==> p in rows.Values
      ensures forall i, j :: 0 <= i < j < |paths| ==> paths[i] != paths[j]
    {
      var left := rows.Values;
      paths := [];
      while left != {}
        invariant left <= rows.Values && forall p :: p in paths <==> p in rows.Values - left
        invariant forall i, j :: 0 <= i < j < |paths| ==> paths[i] != paths[j]
        decreases left
      {
        var p :| p in left;
        assert forall i :: 0 <= i < |paths| ==> paths[i] in paths && paths[i] !in left;
        paths, left := paths + [p], left - {p};
      }
    }

    method DeleteByJSONLPath(path: Path)
      modifies this
      ensures rows == WithoutPaths(old(rows), {path})
    {
      rows := map id | id in rows && rows[id] != path :: rows[id];
    }

    /** One pass over `paths`: the rows of the first deletable paths go, up to the cap. */
    method ReconcileOrphans(p: Paths, env: Surroundings, evictionCap: int, paths: seq<Path>)
      modifies this
      ensures rows == WithoutPaths(old(rows), Doomed(p, env, Reached(env, paths), Cap(evictionCap)))
    {
      var cap := evictionCap;
      if cap <= 0 { cap := 1000; }
      var deleted := 0;
      var i := 0;
      ghost var was, todo := rows, Reached(env, paths);
      ghost var gone: set<Path> := {};
      ghost var doomed := Doomed(p, env, todo, cap);
      while i < |paths|
        invariant i <= |todo| <= |paths| && deleted <= cap
        invariant rows == WithoutPaths(was, gone)
        invariant gone + Doomed(p, env, todo[i..], cap - deleted) == doomed
        decreases |paths| - i
      {
        if i >= env.cancelAfter { assert todo[i..] == []; return; }
        if deleted >= cap { return; }
        var path := paths[i];
        i := i + 1;
        assert todo[i - 1..][0] == path && todo[i - 1..][1..] == todo[i..];
        var fid := p.parse(path);
        if fid.None? { continue; }
        if path in env.statFails { continue; }
        if HasFile(env.disk, fid.value) { continue; }
        if path in env.leased { continue; }
        if path in env.deleteFails { continue; }
        DeleteByJSONLPath(path);
        gone := gone + {path};
        deleted := deleted + 1;
      }
      assert todo[i..] == [];
    }
  }

  function DeletableIn(p: Paths, env: Surroundings, paths: seq<Path>): set<Path> {
    set q | q in paths && Deletable(p, env, q)
  }

  lemma {:induction false} CountDoomed(p: Paths, env: Surroundings, paths: seq<Path>, room: nat)
    requires forall i, j :: 0 <= i < j < |paths| ==> paths[i] != paths[j]
    ensures var all, doomed := DeletableIn(p, env, paths), Doomed(p, env, paths, room);
            doomed <= all && |doomed| == if |all| <= room then |all| else room
  {
    hide Deletable;
    if paths == [] {
      assert DeletableIn(p, env, paths) == {};
    } else {
      CountDoomed(p, env, paths[1..], if Deletable(p, env, paths[0]) && room > 0 then room - 1 else room);
      DeletableFront(p, env, paths);
    }
  }

  lemma DeletableFront(p: Paths, env: Surroundings, paths: seq<Path>)
    requires paths != [] && forall i, j :: 0 <= i < j < |paths| ==> paths[i] != paths[j]
    ensures var first, later := paths[0], DeletableIn(p, env, paths[1..]);
            && first !in later
            && DeletableIn(p, env, paths) == if Deletable(p, env, first) then {first} + later else later
  {
    hide Deletable;
    assert forall q :: q in paths <==> q == paths[0] || q in paths[1..];
    assert forall i :: 0 <= i < |paths| - 1 ==> paths[1..][i] == paths[i + 1];
  }

  /** A pass deletes only deletable paths, no more than its cap, and all of them exactly when
      the cap has room for all. */
  lemma PassIsCompleteIff(p: Paths, env: Surroundings, paths: seq<Path>, room: nat)
    requires forall i, j :: 0 <= i < j < |paths| ==> paths[i] != paths[j]
    ensures Doomed(p, env, paths, room) <= DeletableIn(p, env, paths) && |Doomed(p, env, paths, room)| <= room
    ensures Doomed(p, env, paths, room) == DeletableIn(p, env, paths) <==> |DeletableIn(p, env, paths)| <= room
  {
    CountDoomed(p, env, paths, room);
    var all, doomed := DeletableIn(p, env, paths), Doomed(p, env, paths, room);
    assert |all - doomed| == |all| - |doomed|;
    if |all| <= room { assert all - doomed == {}; }
  }

  /** Of the paths a pass gets to before it is cancelled it deletes as many deletable ones as its
      cap allows, a thousand unless set otherwise; and what it deletes is ours, has nothing on disk
      and no lease, and neither its stat nor its DELETE failed. */
  lemma WhatAPassDeletes(p: Paths, env: Surroundings, evictionCap: int, paths: seq<Path>)
    requires forall i, j :: 0 <= i < j < |paths| ==> paths[i] != paths[j]
    ensures var reached := if env.cancelAfter < |paths| then paths[..env.cancelAfter] else paths;
      var doomed := Doomed(p, env, Reached(env, paths), Cap(evictionCap));
      var cap, all := if evictionCap > 0 then evictionCap else 1000, |DeletableIn(p, env, reached)|;
      && |doomed| == (if all <= cap then all else cap)
      && forall q :: q in doomed ==>
           && q in reached && q !in env.leased && q !in env.statFails && q !in env.deleteFails
           && exists b :: p.parse(q) == Some(b) && b !in env.disk.plain && b !in env.disk.gz
  {
    var reached := Reached(env, paths);
    assert forall i, j :: 0 <= i < j < |reached| ==> reached[i] != reached[j];
    CountDoomed(p, env, reached, Cap(evictionCap));
  }

  // ----- The pass as the crash theorems see it -----

  /** The path column of an index whose rows the writer wrote. */
  function PathColumn(p: Paths, rows: map<string, Row>): map<string, Path> {
    map id | id in rows :: p.canonical(rows[id].bucket)
  }

  lemma PathNamesBucket(p: Paths, rows: map<string, Row>, id: string)
    requires Consistent(p) && id in rows
    ensures var q := PathColumn(p, rows)[id];
            q in PathColumn(p, rows).Values && p.parse(q) == Some(rows[id].bucket)
  {
    assert PathColumn(p, rows)[id] in PathColumn(p, rows).Values;
  }

  /** With no lease out, taking the rows of deletable paths takes none that Repair keeps, and
      taking them all, when no call fails, leaves exactly those. */
  lemma TakenRows(p: Paths, s: State, env: Surroundings, gone: set<Path>)
    requires Consistent(p) && env.disk == s.disk && env.leased == {}
    requires forall q :: q in gone ==> Deletable(p, env, q)
    ensures var left := WithoutPaths(PathColumn(p, s.rows), gone);
            && Repair(s).rows.Keys <= left.Keys
            && (env.statFails == {} && env.deleteFails == {}
                && (forall q :: q in PathColumn(p, s.rows).Values && Deletable(p, env, q) ==> q in gone) ==>
                  left.Keys == Repair(s).rows.Keys)
  {
    forall id | id in s.rows
      ensures var q := PathColumn(p, s.rows)[id];
              q in PathColumn(p, s.rows).Values && p.parse(q) == Some(s.rows[id].bucket)
    {
      PathNamesBucket(p, s.rows, id);
    }
  }

  /** After a crash no lease is out. A pass that is not cancelled, fails nowhere and has room
      for every orphan leaves exactly the rows that Repair leaves: those whose bucket has a
      file. Whatever stops it early, it deletes no row that Repair keeps. */
  lemma PassIsRepair(p: Paths, s: State, env: Surroundings, paths: seq<Path>, cap: nat)
    requires Consistent(p) && env.disk == s.disk && env.leased == {}
    requires forall i, j :: 0 <= i < j < |paths| ==> paths[i] != paths[j]
    requires forall q :: q in paths <==> q in PathColumn(p, s.rows).Values
    ensures var left := WithoutPaths(PathColumn(p, s.rows), Doomed(p, env, Reached(env, paths), cap));
            && Repair(s).rows.Keys <= left.Keys
            && (env.statFails == {} && env.deleteFails == {} && |paths| <= env.cancelAfter
                && |DeletableIn(p, env, paths)| <= cap ==>
                  left.Keys == Repair(s).rows.Keys)
  {
    hide Doomed, Deletable, PathColumn, WithoutPaths, Repair;
    var reached := Reached(env, paths);
    assert forall i, j :: 0 <= i < j < |reached| ==> reached[i] != reached[j];
    PassIsCompleteIff(p, env, reached, cap);
    TakenRows(p, s, env, Doomed(p, env, reached, cap));
    if |paths| <= env.cancelAfter { assert reached == paths; }
  }
}
