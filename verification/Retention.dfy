/** The rules of retention (internal/storage/eviction.go): which files one pass picks and in
    which order. Times are integers in nanoseconds; a lease or a failed delete is an outcome
    the environment picks. */
module Retention {
  import Order

  // ----- Data -----

  /** A modification time, or Go's zero time for a bucket with no JSONL file. */
  datatype MTime = Zero | At(t: int)

  /** One bucket. `path` is its canonical path and identifies it. */
  datatype FileInfo = FileInfo(path: string, size: nat, mtime: MTime, media: nat) {
    function Bytes(): nat { size + media }
  }

  datatype Config = Config(maxBytes: int, maxAgeDays: int)

  /** The Coordinator's static settings; zero or less means the default. */
  datatype Settings = Settings(lag: int, evictionCap: int) {
    function Lag(): (l: int) ensures l > 0 { if lag <= 0 then DEFAULT_LAG else lag }
    function Cap(): (c: int) ensures c > 0 { if evictionCap <= 0 then 1000 else evictionCap }
  }

  const DEFAULT_LAG := 300_000_000_000
  const DAY := 86_400_000_000_000

  /** Everything a pass decides from, apart from the files. `cutoff` is Zero with no age rule. */
  datatype Policy = Policy(maxBytes: int, cutoff: MTime, now: int, lag: int)

  function PolicyOf(cfg: Config, now: int, lag: int): Policy {
    Policy(cfg.maxBytes, if cfg.maxAgeDays > 0 then At(now - cfg.maxAgeDays * DAY) else Zero, now, lag)
  }

  datatype Outcome = Deleted | Leased | Failed

  /** How the pass's surroundings behave: the result of deleteIfIdle for each file, and
      whether the context is still live at the n-th candidate of the second loop. */
  datatype Conditions = Conditions(outcome: string -> Outcome, live: nat -> bool)

  datatype EvictResult = EvictResult(ran: bool, bytes: int, capHit: bool)

  function Total(fs: seq<FileInfo>): nat {
    if fs == [] then 0 else Total(fs[..|fs| - 1]) + fs[|fs| - 1].Bytes()
  }

  function Paths(fs: seq<FileInfo>): set<string> {
    if fs == [] then {} else Paths(fs[..|fs| - 1]) + {fs[|fs| - 1].path}
  }

  predicate Distinct(fs: seq<FileInfo>) {
    forall i, j :: 0 <= i < j < |fs| ==> fs[i].path != fs[j].path
  }

  /** The files whose paths are not in `gone`, in order. */
  function Without(fs: seq<FileInfo>, gone: set<string>): seq<FileInfo> {
    if fs == [] then []
    else Without(fs[..|fs| - 1], gone) + if fs[|fs| - 1].path in gone then [] else [fs[|fs| - 1]]
  }

  // ----- Order: oldest first, then by path -----

  predicate Before(a: MTime, b: MTime) {
    match b
    case Zero => false
    case At(u) => a.Zero? || a.t < u
  }

  predicate Earlier(a: FileInfo, b: FileInfo) {
    Before(a.mtime, b.mtime) || (a.mtime == b.mtime && Order.Less(a.path, b.path))
  }

  predicate Sorted(fs: seq<FileInfo>) {
    forall i, j :: 0 <= i < j < |fs| ==> !Earlier(fs[j], fs[i])
  }

  function Insert(f: FileInfo, fs: seq<FileInfo>): seq<FileInfo> {
    if fs == [] || !Earlier(fs[0], f) then [f] + fs else [fs[0]] + Insert(f, fs[1..])
  }

  /** The stable sort of the candidates. */
  function Sort(fs: seq<FileInfo>): seq<FileInfo> {
    if fs == [] then [] else Insert(fs[0], Sort(fs[1..]))
  }

  // ----- The rules -----

  predicate InGrace(p: Policy, f: FileInfo) {
    f.mtime.At? && p.now - f.mtime.t < p.lag
  }

  predicate AgeHit(p: Policy, f: FileInfo) {
    p.cutoff.At? && f.mtime.At? && f.mtime.t < p.cutoff.t
  }

  predicate MediaOrphan(f: FileInfo) {
    f.mtime.Zero? && f.size == 0 && f.media > 0
  }

  predicate ByteHit(p: Policy, current: int) {
    p.maxBytes > 0 && current > p.maxBytes
  }

  predicate Hit(p: Policy, f: FileInfo, current: int) {
    !InGrace(p, f) && (AgeHit(p, f) || ByteHit(p, current) || MediaOrphan(f))
  }

  /** The candidates the first pass marks, in order, starting from `total` bytes. */
  function Chosen(p: Policy, cands: seq<FileInfo>, total: int): seq<FileInfo> {
    if cands == [] then []
    else
      var before := Chosen(p, cands[..|cands| - 1], total);
      var f := cands[|cands| - 1];
      if Hit(p, f, total - Total(before)) then before + [f] else before
  }

  /** The second loop: what gets deleted among the first `n` candidates, and whether the
      loop has ended (Some of capHit) before reaching the next one. */
  datatype Swept = Swept(gone: seq<FileInfo>, ended: bool, capHit: bool)

  function Sweep(cands: seq<FileInfo>, eligible: set<string>, cap: int, w: Conditions): Swept {
    if cands == [] then Swept([], false, false)
    else
      var n := |cands| - 1;
      var s := Sweep(cands[..n], eligible, cap, w);
      if s.ended then s
      else if !w.live(n) then s.(ended := true)
      else if cands[n].path !in eligible then s
      else if |s.gone| >= cap then s.(ended := true, capHit := true)
      else if w.outcome(cands[n].path).Deleted? then s.(gone := s.gone + [cands[n]])
      else s
  }

  // ----- Basic facts -----

  lemma {:induction false} PathsHas(fs: seq<FileInfo>, path: string)
    ensures path in Paths(fs) <==> exists f :: f in fs && f.path == path
  {
    if fs != [] {
      PathsHas(fs[..|fs| - 1], path);
      assert fs == fs[..|fs| - 1] + [fs[|fs| - 1]];
    }
  }

  lemma PathsAppend(fs: seq<FileInfo>, f: FileInfo)
    ensures Paths(fs + [f]) == Paths(fs) + {f.path}
  {
    assert (fs + [f])[..|fs|] == fs;
  }

  lemma {:induction false} TotalConcat(a: seq<FileInfo>, b: seq<FileInfo>)
    ensures Total(a + b) == Total(a) + Total(b)
  {
    if b == [] {
      assert a + b == a;
    } else {
      assert (a + b)[..|a + b| - 1] == a + b[..|b| - 1];
      TotalConcat(a, b[..|b| - 1]);
    }
  }

  lemma {:induction false} TotalOfMultiset(a: seq<FileInfo>, b: seq<FileInfo>)
    requires multiset(a) == multiset(b)
    ensures Total(a) == Total(b)
    decreases |a|
  {
    if a == [] {
      assert |multiset(b)| == 0;
    } else {
      var f := a[|a| - 1];
      assert f in multiset(b);
      var i :| 0 <= i < |b| && b[i] == f;
      assert a == a[..|a| - 1] + [f];
      assert b == b[..i] + [f] + b[i + 1..];
      assert multiset(b[..i] + b[i + 1..]) == multiset(b) - multiset{f};
      TotalOfMultiset(a[..|a| - 1], b[..i] + b[i + 1..]);
      TotalConcat(b[..i], b[i + 1..]);
      TotalConcat(b[..i] + [f], b[i + 1..]);
    }
  }

  lemma {:induction false} WithoutNone(fs: seq<FileInfo>)
    ensures Without(fs, {}) == fs
  {
    if fs != [] { WithoutNone(fs[..|fs| - 1]); }
  }

  lemma {:induction false} WithoutCounts(fs: seq<FileInfo>, gone: set<string>, f: FileInfo)
    ensures multiset(Without(fs, gone))[f] == if f.path in gone then 0 else multiset(fs)[f]
  {
    if fs != [] {
      assert fs == fs[..|fs| - 1] + [fs[|fs| - 1]];
      WithoutCounts(fs[..|fs| - 1], gone, f);
    }
  }

  lemma DistinctCount(fs: seq<FileInfo>, x: FileInfo, y: FileInfo)
    requires Distinct(fs) && x in fs && y in fs && x.path == y.path
    ensures x == y && multiset(fs)[x] == 1
  {
    var i :| 0 <= i < |fs| && fs[i] == x;
    var j :| 0 <= j < |fs| && fs[j] == y;
    var rest := fs[..i] + fs[i + 1..];
    assert fs == fs[..i] + [x] + fs[i + 1..];
    assert x !in rest;
  }

  /** Deleting some of the files takes exactly their bytes off the total. */
  lemma WithoutTotal(fs: seq<FileInfo>, gone: seq<FileInfo>)
    requires Distinct(fs) && multiset(gone) <= multiset(fs)
    ensures Total(Without(fs, Paths(gone))) == Total(fs) - Total(gone)
  {
    var kept := Without(fs, Paths(gone));
    forall f ensures multiset(kept)[f] + multiset(gone)[f] == multiset(fs)[f] {
      KeptAndGone(fs, gone, f);
    }
    assert multiset(kept + gone) == multiset(fs);
    TotalOfMultiset(kept + gone, fs);
    TotalConcat(kept, gone);
  }

  lemma KeptAndGone(fs: seq<FileInfo>, gone: seq<FileInfo>, f: FileInfo)
    requires Distinct(fs) && multiset(gone) <= multiset(fs)
    ensures multiset(Without(fs, Paths(gone)))[f] + multiset(gone)[f] == multiset(fs)[f]
  {
    WithoutCounts(fs, Paths(gone), f);
    PathsHas(gone, f.path);
    if f in fs && f.path in Paths(gone) {
      var g :| g in gone && g.path == f.path;
      assert g in multiset(gone) && g in multiset(fs);
      DistinctCount(fs, f, g);
    }
    assert f in gone ==> f in multiset(gone);
  }

  lemma {:induction false} InsertPermutes(f: FileInfo, fs: seq<FileInfo>)
    ensures multiset(Insert(f, fs)) == multiset(fs) + multiset{f}
  {
    if !(fs == [] || !Earlier(fs[0], f)) {
      InsertPermutes(f, fs[1..]);
      assert fs == [fs[0]] + fs[1..];
    }
  }

  lemma {:induction false} SortPermutes(fs: seq<FileInfo>)
    ensures multiset(Sort(fs)) == multiset(fs) && |Sort(fs)| == |fs|
  {
    if fs != [] {
      SortPermutes(fs[1..]);
      InsertPermutes(fs[0], Sort(fs[1..]));
      assert fs == [fs[0]] + fs[1..];
    }
    assert |multiset(Sort(fs))| == |multiset(fs)|;
  }

  lemma {:induction false} ChosenWithin(p: Policy, cands: seq<FileInfo>, total: int)
    ensures multiset(Chosen(p, cands, total)) <= multiset(cands)
  {
    if cands != [] {
      assert cands == cands[..|cands| - 1] + [cands[|cands| - 1]];
      ChosenWithin(p, cands[..|cands| - 1], total);
    }
  }

  lemma {:induction false} SweepWithin(cands: seq<FileInfo>, eligible: set<string>, cap: int, w: Conditions)
    ensures multiset(Sweep(cands, eligible, cap, w).gone) <= multiset(cands)
    ensures Paths(Sweep(cands, eligible, cap, w).gone) <= eligible
    ensures cap >= 0 ==> |Sweep(cands, eligible, cap, w).gone| <= cap
  {
    if cands != [] {
      var n := |cands| - 1;
      assert cands == cands[..n] + [cands[n]];
      SweepWithin(cands[..n], eligible, cap, w);
      PathsAppend(Sweep(cands[..n], eligible, cap, w).gone, cands[n]);
    }
  }
}
