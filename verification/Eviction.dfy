/** runEviction (internal/storage/eviction.go) against the rules of Retention. */
module Eviction {
  import opened Retention

  // ----- runEviction -----

  class Inventory {
    var files: seq<FileInfo>
    var totalBytes: int

    constructor (files: seq<FileInfo>, totalBytes: int)
      ensures this.files == files && this.totalBytes == totalBytes
    {
      this.files, this.totalBytes := files, totalBytes;
    }
  }

  /** What one pass deletes from an inventory, in order, and whether it hit its cap. */
  function PassOver(p: Policy, files: seq<FileInfo>, total: int, cap: int, w: Conditions): Swept {
    Sweep(Sort(files), Paths(Chosen(p, Sort(files), total)), cap, w)
  }

  method RunEviction(inv: Inventory, cfg: Config, now: int, set_: Settings, w: Conditions) returns (r: EvictResult)
    modifies inv
    ensures var s := PassOver(PolicyOf(cfg, now, set_.Lag()), old(inv.files), old(inv.totalBytes), set_.Cap(), w);
            && inv.files == Without(old(inv.files), Paths(s.gone))
            && inv.totalBytes == old(inv.totalBytes) - Total(s.gone)
            && r == EvictResult(s.gone != [], Total(s.gone), s.capHit)
    ensures Distinct(old(inv.files)) && old(inv.totalBytes) == Total(old(inv.files)) ==> inv.totalBytes == Total(inv.files)
  {
    if |inv.files| == 0 {
      return EvictResult(false, 0, false);
    }
    var p := PolicyOf(cfg, now, set_.Lag());
    var cands := Sort(inv.files);
    var eligible := MarkEligible(p, cands, inv.totalBytes);
    WithoutNone(inv.files);
    if eligible == {} {
      NothingSwept(cands, set_.Cap(), w);
      assert Paths([]) == {};
      return EvictResult(false, 0, false);
    }
    var gone, deleted, bytes, capHit := DeleteEligible(cands, eligible, set_.Cap(), w);
    if Distinct(inv.files) { PassTotal(p, inv.files, inv.totalBytes, set_.Cap(), w); }
    if deleted > 0 {
      var kept := FilterOut(inv.files, gone);
      inv.files := kept;
      inv.totalBytes := inv.totalBytes - bytes;
    } else {
      assert gone == {};
    }
    r := EvictResult(deleted > 0, bytes, capHit);
  }

  lemma PassTotal(p: Policy, files: seq<FileInfo>, total: int, cap: int, w: Conditions)
    requires Distinct(files)
    ensures var gone := PassOver(p, files, total, cap, w).gone;
            Total(Without(files, Paths(gone))) == Total(files) - Total(gone)
  {
    SortPermutes(files);
    SweepWithin(Sort(files), Paths(Chosen(p, Sort(files), total)), cap, w);
    WithoutTotal(files, PassOver(p, files, total, cap, w).gone);
  }

  /** The first loop: walk the sorted candidates with a running byte count. */
  method MarkEligible(p: Policy, cands: seq<FileInfo>, total: int) returns (eligible: set<string>)
    ensures eligible == Paths(Chosen(p, cands, total))
  {
    eligible := {};
    var current := total;
    for i := 0 to |cands|
      invariant eligible == Paths(Chosen(p, cands[..i], total))
      invariant current == total - Total(Chosen(p, cands[..i], total))
    {
      assert cands[..i + 1][..i] == cands[..i];
      var f := cands[i];
      if !InGrace(p, f) && (AgeHit(p, f) || ByteHit(p, current) || MediaOrphan(f)) {
        PathsAppend(Chosen(p, cands[..i], total), f);
        eligible := eligible + {f.path};
        current := current - f.Bytes();
      }
    }
    assert cands[..|cands|] == cands;
  }

  lemma NoFiles()
    ensures Total([]) == 0 && Paths([]) == {}
  {
  }

  lemma OneFile(fs: seq<FileInfo>, f: FileInfo)
    ensures Total(fs + [f]) == Total(fs) + f.Bytes() && Paths(fs + [f]) == Paths(fs) + {f.path}
  {
    assert (fs + [f])[..|fs|] == fs;
  }

  /** The second loop: delete the marked candidates oldest first, up to the cap. */
  method DeleteEligible(cands: seq<FileInfo>, eligible: set<string>, cap: int, w: Conditions)
    returns (gone: set<string>, deleted: nat, bytes: int, capHit: bool)
    ensures var s := Sweep(cands, eligible, cap, w);
            gone == Paths(s.gone) && deleted == |s.gone| && bytes == Total(s.gone) && capHit == s.capHit
  {
    hide Total, Paths;
    NoFiles();
    gone, deleted, bytes, capHit := {}, 0, 0, false;
    var i := 0;
    while i < |cands|
      invariant 0 <= i <= |cands|
      invariant var s := Sweep(cands[..i], eligible, cap, w);
                gone == Paths(s.gone) && deleted == |s.gone| && bytes == Total(s.gone)
                && !s.ended && !s.capHit && !capHit
    {
      ghost var s := Sweep(cands[..i], eligible, cap, w);
      assert cands[..i + 1][..i] == cands[..i];
      if !w.live(i) {
        SweepEnded(cands, eligible, cap, w, i + 1);
        return;
      }
      if cands[i].path in eligible {
        if deleted >= cap {
          SweepEnded(cands, eligible, cap, w, i + 1);
          capHit := true;
          return;
        }
        if w.outcome(cands[i].path).Deleted? {
          OneFile(s.gone, cands[i]);
          gone, deleted, bytes := gone + {cands[i].path}, deleted + 1, bytes + cands[i].Bytes();
        }
      }
      i := i + 1;
    }
    assert cands[..i] == cands;
  }

  /** The in-place filter of the inventory. */
  method FilterOut(files: seq<FileInfo>, gone: set<string>) returns (kept: seq<FileInfo>)
    ensures kept == Without(files, gone)
  {
    kept := [];
    for i := 0 to |files|
      invariant kept == Without(files[..i], gone)
    {
      assert files[..i + 1][..i] == files[..i];
      if files[i].path !in gone { kept := kept + [files[i]]; }
    }
    assert files[..|files|] == files;
  }

  lemma {:induction false} NothingSwept(cands: seq<FileInfo>, cap: int, w: Conditions)
    ensures Sweep(cands, {}, cap, w).gone == [] && !Sweep(cands, {}, cap, w).capHit
  {
    if cands != [] { NothingSwept(cands[..|cands| - 1], cap, w); }
  }

  lemma {:induction false} SweepEnded(cands: seq<FileInfo>, eligible: set<string>, cap: int, w: Conditions, n: nat)
    requires n <= |cands| && Sweep(cands[..n], eligible, cap, w).ended
    ensures Sweep(cands, eligible, cap, w) == Sweep(cands[..n], eligible, cap, w)
    decreases |cands|
  {
    if n == |cands| {
      assert cands[..n] == cands;
    } else {
      assert cands[..|cands| - 1][..n] == cands[..n];
      SweepEnded(cands[..|cands| - 1], eligible, cap, w, n);
    }
  }
}
