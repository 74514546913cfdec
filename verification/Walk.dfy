/** The walk over the data directory (internal/storage/inventory.go) that every retention pass
    starts from. */
module Walk {
  import opened Retention
  import opened Eviction

  /** One file the walk meets, by the bucket its path names; `Skipped` is anything else, and
      any file whose stat fails. */
  datatype Entry =
    | Jsonl(path: string, size: nat, mtime: int)
    | Media(path: string, size: nat)
    | Skipped

  predicate Counts(e: Entry, path: string) {
    !e.Skipped? && e.path == path
  }

  /** The sizes of a bucket's JSONL files (plain, gz or both), of its media, and the latest
      modification time among the JSONL files. */
  function JsonlBytes(es: seq<Entry>, path: string): nat {
    if es == [] then 0
    else
      var e := es[|es| - 1];
      JsonlBytes(es[..|es| - 1], path) + if e.Jsonl? && e.path == path then e.size else 0
  }

  function MediaBytes(es: seq<Entry>, path: string): nat {
    if es == [] then 0
    else
      var e := es[|es| - 1];
      MediaBytes(es[..|es| - 1], path) + if e.Media? && e.path == path then e.size else 0
  }

  function Latest(es: seq<Entry>, path: string): MTime {
    if es == [] then Zero
    else
      var e, before := es[|es| - 1], Latest(es[..|es| - 1], path);
      if e.Jsonl? && e.path == path && Before(before, At(e.mtime)) then At(e.mtime) else before
  }

  function BucketOf(es: seq<Entry>, path: string): FileInfo {
    FileInfo(path, JsonlBytes(es, path), Latest(es, path), MediaBytes(es, path))
  }

  function GetOrInit(m: map<string, FileInfo>, path: string): FileInfo {
    if path in m then m[path] else FileInfo(path, 0, Zero, 0)
  }

  /** The accumulated map: a bucket per path that occurs, with what its entries add up to. */
  predicate Accumulated(es: seq<Entry>, m: map<string, FileInfo>) {
    && (forall p :: p in m ==> m[p] == BucketOf(es, p))
    && (forall p :: p in m ==> exists i :: 0 <= i < |es| && Counts(es[i], p))
    && (forall i :: 0 <= i < |es| && !es[i].Skipped? ==> es[i].path in m)
  }

  lemma AccumulateOne(es: seq<Entry>, m: map<string, FileInfo>, e: Entry, after: map<string, FileInfo>)
    requires Accumulated(es, m)
    requires after == match e
                      case Skipped => m
                      case Media(p, n) => m[p := GetOrInit(m, p).(media := GetOrInit(m, p).media + n)]
                      case Jsonl(p, n, t) =>
                        var f := GetOrInit(m, p);
                        m[p := f.(size := f.size + n, mtime := if Before(f.mtime, At(t)) then At(t) else f.mtime)]
    ensures Accumulated(es + [e], after)
  {
    var all := es + [e];
    assert all[..|es|] == es && all[|es|] == e;
    assert forall i :: 0 <= i < |es| ==> all[i] == es[i];
    forall p | p in after
      ensures after[p] == BucketOf(all, p)
    {
      if p !in m { NothingYet(es, p); }
    }
    forall p | p in after
      ensures exists i :: 0 <= i < |all| && Counts(all[i], p)
    {
      if p in m {
        var i :| 0 <= i < |es| && Counts(es[i], p);
        assert Counts(all[i], p);
      } else {
        assert Counts(all[|es|], p);
      }
    }
  }

  lemma {:induction false} NothingYet(es: seq<Entry>, path: string)
    requires forall i :: 0 <= i < |es| ==> !Counts(es[i], path)
    ensures BucketOf(es, path) == FileInfo(path, 0, Zero, 0)
  {
    if es != [] {
      assert !Counts(es[|es| - 1], path);
      NothingYet(es[..|es| - 1], path);
    }
  }

  lemma NothingAccumulated()
    ensures Accumulated([], map[])
  {
  }

  /** What the accumulated map says of the buckets. */
  lemma AccumulatedMeans(es: seq<Entry>, m: map<string, FileInfo>)
    requires Accumulated(es, m)
    ensures forall p :: p in m <==> exists i :: 0 <= i < |es| && Counts(es[i], p)
  {
    forall i | 0 <= i < |es| && !es[i].Skipped?
      ensures Counts(es[i], es[i].path) && es[i].path in m
    {
    }
  }

  /** A bucket with no JSONL time has no JSONL bytes. */
  lemma {:induction false} NoTimeNoBytes(es: seq<Entry>, path: string)
    requires Latest(es, path).Zero?
    ensures JsonlBytes(es, path) == 0
  {
    if es != [] { NoTimeNoBytes(es[..|es| - 1], path); }
  }

  /** A bucket's time is the latest of its JSONL files'. */
  lemma {:induction false} LatestMeans(es: seq<Entry>, path: string)
    ensures var t := Latest(es, path);
      && (t.Zero? <==> forall i :: 0 <= i < |es| ==> !(es[i].Jsonl? && es[i].path == path))
      && (t.At? ==> exists i :: 0 <= i < |es| && es[i].Jsonl? && es[i].path == path && es[i].mtime == t.t)
      && (t.At? ==> forall i :: 0 <= i < |es| && es[i].Jsonl? && es[i].path == path ==> es[i].mtime <= t.t)
  {
    if es != [] {
      var init, e := es[..|es| - 1], es[|es| - 1];
      LatestMeans(init, path);
      assert forall i :: 0 <= i < |init| ==> init[i] == es[i];
      if Latest(init, path).At? {
        var i :| 0 <= i < |init| && init[i].Jsonl? && init[i].path == path && init[i].mtime == Latest(init, path).t;
        assert es[i].Jsonl? && es[i].path == path && es[i].mtime == Latest(init, path).t;
      }
    }
  }

  // ----- Nothing is counted twice or left out -----

  function SizeOf(e: Entry): nat {
    if e.Skipped? then 0 else e.size
  }

  /** The bytes of every file the walk counts. */
  function AllBytes(es: seq<Entry>): nat {
    if es == [] then 0 else AllBytes(es[..|es| - 1]) + SizeOf(es[|es| - 1])
  }

  lemma EntryAdds(es: seq<Entry>, e: Entry, path: string)
    ensures BucketOf(es + [e], path).Bytes() == BucketOf(es, path).Bytes() + if Counts(e, path) then SizeOf(e) else 0
  {
    assert (es + [e])[..|es|] == es;
  }

  /** Files that are the buckets of `es` with these paths. */
  ghost predicate BucketsOf(es: seq<Entry>, files: seq<FileInfo>) {
    forall i :: 0 <= i < |files| ==> files[i] == BucketOf(es, files[i].path)
  }

  /** The same buckets before the last entry. */
  function BucketsIn(es: seq<Entry>, files: seq<FileInfo>): seq<FileInfo> {
    seq(|files|, i requires 0 <= i < |files| => BucketOf(es, files[i].path))
  }

  lemma {:induction false} EntryAddsOnce(es: seq<Entry>, e: Entry, files: seq<FileInfo>)
    requires BucketsOf(es + [e], files) && Distinct(files)
    ensures Total(files) == Total(BucketsIn(es, files))
                          + if exists i :: 0 <= i < |files| && Counts(e, files[i].path) then SizeOf(e) else 0
  {
    hide BucketOf;
    if files != [] {
      var init, f := files[..|files| - 1], files[|files| - 1];
      EntryAddsOnce(es, e, init);
      EntryAdds(es, e, f.path);
      assert BucketsIn(es, files)[..|files| - 1] == BucketsIn(es, init);
      assert forall i :: 0 <= i < |init| ==> init[i] == files[i];
      if Counts(e, f.path) {
        assert forall i :: 0 <= i < |init| ==> !Counts(e, init[i].path);
      }
    }
  }

  lemma {:induction false} BucketsHoldAll(es: seq<Entry>, files: seq<FileInfo>)
    requires BucketsOf(es, files) && Distinct(files)
    requires forall i :: 0 <= i < |es| && !es[i].Skipped? ==> exists k :: 0 <= k < |files| && Counts(es[i], files[k].path)
    ensures Total(files) == AllBytes(es)
  {
    hide BucketOf;
    if es == [] {
      EmptyBuckets(files);
    } else {
      var init, e := es[..|es| - 1], es[|es| - 1];
      assert es == init + [e];
      EntryAddsOnce(init, e, files);
      assert forall i :: 0 <= i < |init| ==> init[i] == es[i];
      forall i | 0 <= i < |init| && !init[i].Skipped?
        ensures exists k :: 0 <= k < |files| && Counts(init[i], BucketsIn(init, files)[k].path)
      {
        var k :| 0 <= k < |files| && Counts(es[i], files[k].path);
        PathKept(init, files, k);
        assert Counts(init[i], BucketsIn(init, files)[k].path);
      }
      forall k | 0 <= k < |files| { PathKept(init, files, k); }
      BucketsHoldAll(init, BucketsIn(init, files));
    }
  }

  lemma PathKept(es: seq<Entry>, files: seq<FileInfo>, k: nat)
    requires k < |files|
    ensures BucketsIn(es, files)[k].path == files[k].path
  {
  }

  lemma {:induction false} EmptyBuckets(files: seq<FileInfo>)
    requires BucketsOf([], files)
    ensures Total(files) == 0
  {
    if files != [] {
      assert files[|files| - 1].Bytes() == 0;
      EmptyBuckets(files[..|files| - 1]);
    }
  }

  /** walkAndStat; `live` says whether the context still is at each entry, and a cancelled walk
      yields nothing. Each bucket that occurs is listed once with what its files add up to, and the
      total is the sum over the listed buckets, which is what runEviction relies on. */
  method WalkAndStat(es: seq<Entry>, live: nat -> bool) returns (inv: Inventory?)
    ensures inv == null <==> exists i :: 0 <= i < |es| && !live(i)
    ensures inv != null ==> fresh(inv) && Distinct(inv.files) && inv.totalBytes == Total(inv.files) == AllBytes(es)
    ensures inv != null ==> forall i :: 0 <= i < |inv.files| ==>
      inv.files[i] == BucketOf(es, inv.files[i].path) && (inv.files[i].mtime.Zero? ==> inv.files[i].size == 0)
    ensures inv != null ==> forall p :: p in Paths(inv.files) <==> exists i :: 0 <= i < |es| && Counts(es[i], p)
  {
    hide Accumulated, Before;
    var m: map<string, FileInfo> := map[];
    NothingAccumulated();
    for i := 0 to |es|
      invariant Accumulated(es[..i], m)
      invariant forall k :: 0 <= k < i ==> live(k)
    {
      if !live(i) { return null; }
      ghost var before := m;
      match es[i] {
        case Skipped =>
        case Media(p, n) =>
          var f := GetOrInit(m, p);
          m := m[p := f.(media := f.media + n)];
        case Jsonl(p, n, t) =>
          var f := GetOrInit(m, p);
          f := f.(size := f.size + n);
          if Before(f.mtime, At(t)) { f := f.(mtime := At(t)); }
          m := m[p := f];
      }
      AccumulateOne(es[..i], before, es[i], m);
      assert es[..i + 1] == es[..i] + [es[i]];
    }
    assert es[..|es|] == es;
    AccumulatedMeans(es, m);
    var files, total := ListAll(es, m);
    forall i | 0 <= i < |files| && files[i].mtime.Zero?
      ensures files[i].size == 0
    {
      NoTimeNoBytes(es, files[i].path);
    }
    AllThere(es, files);
    BucketsHoldAll(es, files);
    inv := new Inventory(files, total);
  }

  lemma AllThere(es: seq<Entry>, files: seq<FileInfo>)
    requires forall p :: p in Paths(files) <==> exists i :: 0 <= i < |es| && Counts(es[i], p)
    ensures forall i :: 0 <= i < |es| && !es[i].Skipped? ==> exists k :: 0 <= k < |files| && Counts(es[i], files[k].path)
  {
    forall i | 0 <= i < |es| && !es[i].Skipped?
      ensures exists k :: 0 <= k < |files| && Counts(es[i], files[k].path)
    {
      assert Counts(es[i], es[i].path);
      PathsHas(files, es[i].path);
      var f :| f in files && f.path == es[i].path;
      var k :| 0 <= k < |files| && files[k] == f;
      assert Counts(es[i], files[k].path);
    }
  }

  method ListAll(es: seq<Entry>, m: map<string, FileInfo>) returns (files: seq<FileInfo>, total: int)
    requires Accumulated(es, m)
    ensures Distinct(files) && total == Total(files) && Paths(files) == m.Keys
    ensures forall i :: 0 <= i < |files| ==> files[i] == BucketOf(es, files[i].path)
  {
    hide Total, Paths, JsonlBytes, MediaBytes, Latest;
    files, total := [], 0;
    NoFiles();
    var left := m.Keys;
    while left != {}
      invariant left <= m.Keys && Paths(files) == m.Keys - left
      invariant Distinct(files) && total == Total(files)
      invariant forall i :: 0 <= i < |files| ==> files[i].path in m.Keys - left
      invariant forall i :: 0 <= i < |files| ==> files[i] == BucketOf(es, files[i].path)
      decreases left
    {
      var p :| p in left;
      assert m[p] == BucketOf(es, p);
      OneFile(files, m[p]);
      left, files, total := left - {p}, files + [m[p]], total + m[p].Bytes();
    }
  }
}
