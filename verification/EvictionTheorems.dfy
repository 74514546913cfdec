/** What a retention pass, and a series of capped passes, achieve. */
module EvictionTheorems {
  import opened Numbers
  import Order
  import opened Retention
  import opened Eviction

  // ----- The sort is the one ascending arrangement -----

  lemma EarlierTotal(a: FileInfo, b: FileInfo)
    ensures !(Earlier(a, b) && Earlier(b, a)) && !Earlier(a, a)
    ensures a.path != b.path ==> Earlier(a, b) || Earlier(b, a)
  {
    Order.Trichotomy(a.path, b.path);
    Order.Irreflexive(a.path);
  }

  lemma EarlierTransitive(a: FileInfo, b: FileInfo, c: FileInfo)
    requires Earlier(a, b) && Earlier(b, c)
    ensures Earlier(a, c)
  {
    if a.mtime == b.mtime && b.mtime == c.mtime { Order.Transitive(a.path, b.path, c.path); }
  }

  /** Strictly ascending: what sorting files with distinct paths gives. */
  predicate Ascending(fs: seq<FileInfo>) {
    forall i, j :: 0 <= i < j < |fs| ==> Earlier(fs[i], fs[j])
  }

  lemma {:induction false} InsertAscends(f: FileInfo, fs: seq<FileInfo>)
    requires Ascending(fs) && forall i :: 0 <= i < |fs| ==> fs[i].path != f.path
    ensures Ascending(Insert(f, fs))
  {
    InsertPermutes(f, fs);
    if fs == [] {
    } else if !Earlier(fs[0], f) {
      EarlierTotal(fs[0], f);
      forall i | 0 <= i < |fs| ensures Earlier(f, fs[i]) {
        if i > 0 { EarlierTransitive(f, fs[0], fs[i]); }
      }
    } else {
      InsertAscends(f, fs[1..]);
      InsertPermutes(f, fs[1..]);
      var r := Insert(f, fs[1..]);
      forall i | 0 <= i < |r| ensures Earlier(fs[0], r[i]) {
        assert r[i] in multiset(r);
        assert r[i] == f || r[i] in fs[1..];
      }
    }
  }

  lemma {:induction false} SortAscends(fs: seq<FileInfo>)
    requires Distinct(fs)
    ensures Ascending(Sort(fs))
  {
    if fs != [] {
      SortAscends(fs[1..]);
      SortPermutes(fs[1..]);
      var r := Sort(fs[1..]);
      forall i | 0 <= i < |r| ensures r[i].path != fs[0].path {
        assert r[i] in multiset(r);
        assert r[i] in fs[1..];
      }
      InsertAscends(fs[0], r);
    }
  }

  lemma SameTails(a: seq<FileInfo>, b: seq<FileInfo>)
    requires a != [] && b != [] && a[0] == b[0] && multiset(a) == multiset(b)
    ensures multiset(a[1..]) == multiset(b[1..])
  {
    assert a == [a[0]] + a[1..] && b == [b[0]] + b[1..];
    assert multiset(a[1..]) == multiset(a) - multiset{a[0]};
    assert multiset(b[1..]) == multiset(b) - multiset{b[0]};
  }

  lemma SameHeads(a: seq<FileInfo>, b: seq<FileInfo>)
    requires Ascending(a) && Ascending(b) && multiset(a) == multiset(b) && a != [] && b != []
    ensures a[0] == b[0]
  {
    hide Earlier;
    assert a[0] in multiset(b) && b[0] in multiset(a);
    var i :| 0 <= i < |b| && b[i] == a[0];
    var j :| 0 <= j < |a| && a[j] == b[0];
    EarlierTotal(a[0], b[0]);
  }

  lemma {:induction false} AscendingUnique(a: seq<FileInfo>, b: seq<FileInfo>)
    requires Ascending(a) && Ascending(b) && multiset(a) == multiset(b)
    ensures a == b
  {
    hide Earlier;
    assert |a| == |multiset(a)| == |b|;
    if a != [] {
      SameHeads(a, b);
      SameTails(a, b);
      AscendingUnique(a[1..], b[1..]);
      assert a == [a[0]] + a[1..] && b == [b[0]] + b[1..];
    }
  }

  lemma {:induction false} WithoutAscends(fs: seq<FileInfo>, gone: set<string>)
    requires Ascending(fs)
    ensures Ascending(Without(fs, gone))
    ensures forall f :: f in Without(fs, gone) ==> f in fs
  {
    if fs != [] {
      var n := |fs| - 1;
      WithoutAscends(fs[..n], gone);
      forall f | f in Without(fs[..n], gone) ensures Earlier(f, fs[n]) {
        var i :| 0 <= i < n && fs[..n][i] == f;
        assert fs[i] == f;
      }
    }
  }

  lemma {:induction false} DistinctKept(fs: seq<FileInfo>, gone: set<string>)
    requires Distinct(fs)
    ensures Distinct(Without(fs, gone))
    ensures forall f :: f in Without(fs, gone) ==> f in fs && f.path !in gone
  {
    if fs != [] {
      var n := |fs| - 1;
      DistinctKept(fs[..n], gone);
      forall f | f in Without(fs[..n], gone) ensures f.path != fs[n].path {
        var i :| 0 <= i < n && fs[..n][i] == f;
        assert fs[i] == f;
      }
    }
  }

  lemma TwiceIn(b: seq<FileInfo>, i: nat, j: nat)
    requires i < j < |b| && b[i] == b[j]
    ensures multiset(b)[b[i]] >= 2
  {
    assert b == b[..i] + [b[i]] + b[i + 1..j] + [b[j]] + b[j + 1..];
  }

  lemma DistinctPermuted(a: seq<FileInfo>, b: seq<FileInfo>)
    requires Distinct(a) && multiset(a) == multiset(b)
    ensures Distinct(b)
  {
    forall i, j | 0 <= i < j < |b| ensures b[i].path != b[j].path {
      assert b[i] in multiset(a) && b[j] in multiset(a);
      if b[i] == b[j] { TwiceIn(b, i, j); }
      if b[i].path == b[j].path { DistinctCount(a, b[i], b[j]); }
    }
  }

  /** Deleting and then sorting is sorting and then deleting, in whatever order the walk lists the rest. */
  lemma SortOfRest(fs: seq<FileInfo>, gone: set<string>, rest: seq<FileInfo>)
    requires Distinct(fs) && multiset(rest) == multiset(Without(fs, gone))
    ensures Sort(rest) == Without(Sort(fs), gone) && Distinct(rest)
  {
    DistinctKept(fs, gone);
    DistinctPermuted(Without(fs, gone), rest);
    SortAscends(fs);
    SortAscends(rest);
    SortPermutes(fs);
    SortPermutes(rest);
    WithoutAscends(Sort(fs), gone);
    forall f ensures multiset(Sort(rest))[f] == multiset(Without(Sort(fs), gone))[f] {
      WithoutCounts(fs, gone, f);
      WithoutCounts(Sort(fs), gone, f);
    }
    AscendingUnique(Sort(rest), Without(Sort(fs), gone));
  }

  // ----- A fault-free pass deletes the chosen files, oldest first, up to its cap -----

  ghost predicate FaultFree(w: Conditions) {
    (forall path :: w.outcome(path) == Deleted) && forall n :: w.live(n)
  }

  lemma NotChosenBefore(p: Policy, cands: seq<FileInfo>, total: int)
    requires Distinct(cands) && cands != []
    ensures cands[|cands| - 1].path !in Paths(Chosen(p, cands[..|cands| - 1], total))
  {
    var n := |cands| - 1;
    var before, path := Chosen(p, cands[..n], total), cands[n].path;
    ChosenWithin(p, cands[..n], total);
    PathsHas(before, path);
    assert forall f :: f in before ==> f in multiset(before);
    assert forall f :: f in before ==> f in multiset(cands[..n]);
    assert forall f :: f in cands[..n] ==> f.path != path;
  }

  /** A rule hits the n-th candidate at the running total it meets. */
  predicate HitAt(p: Policy, cands: seq<FileInfo>, total: int, n: nat)
    requires n < |cands|
  {
    Hit(p, cands[n], total - Total(Chosen(p, cands[..n], total)))
  }

  lemma HitAtPrefix(p: Policy, cands: seq<FileInfo>, total: int, n: nat)
    requires n < |cands| - 1
    ensures HitAt(p, cands[..|cands| - 1], total, n) == HitAt(p, cands, total, n)
  {
    assert cands[..|cands| - 1][..n] == cands[..n];
  }

  lemma ChosenPaths(p: Policy, cands: seq<FileInfo>, total: int)
    requires cands != []
    ensures var m := |cands| - 1;
            Paths(Chosen(p, cands, total)) ==
              Paths(Chosen(p, cands[..m], total)) + if HitAt(p, cands, total, m) then {cands[m].path} else {}
  {
    PathsAppend(Chosen(p, cands[..|cands| - 1], total), cands[|cands| - 1]);
  }

  /** A candidate is chosen exactly when a rule hits it. */
  lemma {:induction false} ChosenAt(p: Policy, cands: seq<FileInfo>, total: int, n: nat)
    requires Distinct(cands) && n < |cands|
    ensures cands[n].path in Paths(Chosen(p, cands, total)) <==> HitAt(p, cands, total, n)
  {
    ChosenPaths(p, cands, total);
    if n == |cands| - 1 {
      NotChosenBefore(p, cands, total);
    } else {
      HitAtPrefix(p, cands, total, n);
      ChosenAt(p, cands[..|cands| - 1], total, n);
    }
  }

  lemma {:induction false} FaultFreeSweep(p: Policy, cands: seq<FileInfo>, total: int, cap: nat, w: Conditions, n: nat)
    requires Distinct(cands) && n <= |cands| && FaultFree(w)
    ensures var e := Chosen(p, cands[..n], total);
            Sweep(cands[..n], Paths(Chosen(p, cands, total)), cap, w)
            == if |e| <= cap then Swept(e, false, false) else Swept(e[..cap], true, true)
  {
    if n > 0 {
      assert cands[..n][..n - 1] == cands[..n - 1];
      FaultFreeSweep(p, cands, total, cap, w, n - 1);
      ChosenAt(p, cands, total, n - 1);
    }
  }

  /** The pass deletes exactly the first `cap` chosen files and reports capHit exactly
      when more were chosen. */
  lemma FaultFreePass(p: Policy, files: seq<FileInfo>, total: int, cap: nat, w: Conditions)
    requires Distinct(files) && FaultFree(w)
    ensures var e := Chosen(p, Sort(files), total);
            var s := PassOver(p, files, total, cap, w);
            s.gone == e[..Min(cap, |e|)] && (s.capHit <==> |e| > cap)
  {
    SortPermutes(files);
    DistinctPermuted(files, Sort(files));
    FaultFreeSweep(p, Sort(files), total, cap, w, |files|);
    assert Sort(files)[..|files|] == Sort(files);
  }

  /** So a pass deletes as many chosen files as its cap allows, a thousand unless set otherwise. */
  lemma PassFillsItsCap(p: Policy, set_: Settings, files: seq<FileInfo>, total: int, w: Conditions)
    requires Distinct(files) && FaultFree(w)
    ensures |PassOver(p, files, total, set_.Cap(), w).gone|
         == Min(if set_.evictionCap > 0 then set_.evictionCap else 1000, |Chosen(p, Sort(files), total)|)
  {
    hide Chosen, Sort, PassOver;
    FaultFreePass(p, files, total, set_.Cap(), w);
  }

  /** A cancelled pass deletes nothing from the candidate it was cancelled at on, and claims no cap. */
  lemma {:induction false} CancelledSweep(cands: seq<FileInfo>, eligible: set<string>, cap: int, w: Conditions, n: nat)
    requires n < |cands| && !w.live(n)
    ensures Sweep(cands, eligible, cap, w).gone == Sweep(cands[..n], eligible, cap, w).gone
    ensures Sweep(cands, eligible, cap, w).capHit == Sweep(cands[..n], eligible, cap, w).capHit
  {
    assert cands[..n + 1][..n] == cands[..n];
    SweepEnded(cands, eligible, cap, w, n + 1);
  }

  // ----- Sufficient, minimal, oldest first -----

  lemma {:induction false} ChosenGrows(p: Policy, cands: seq<FileInfo>, total: int, n: nat)
    requires n <= |cands|
    ensures Total(Chosen(p, cands[..n], total)) <= Total(Chosen(p, cands, total))
  {
    if n < |cands| {
      assert cands[..|cands| - 1][..n] == cands[..n];
      ChosenGrows(p, cands[..|cands| - 1], total, n);
    } else {
      assert cands[..n] == cands;
    }
  }

  lemma SparedAboveLimit(p: Policy, cands: seq<FileInfo>, total: int, n: nat)
    requires Distinct(cands) && n < |cands| && cands[n].path !in Paths(Chosen(p, cands, total))
    requires p.maxBytes > 0 && total - Total(Chosen(p, cands, total)) > p.maxBytes
    ensures InGrace(p, cands[n])
  {
    ChosenAt(p, cands, total, n);
    ChosenGrows(p, cands, total, n);
  }

  /** An uncapped, fault-free pass with a byte limit leaves the total within the limit,
      or nothing outside the grace window. */
  lemma PassIsSufficient(p: Policy, files: seq<FileInfo>, cap: nat, w: Conditions)
    requires Distinct(files) && FaultFree(w) && p.maxBytes > 0
    requires cap >= |Chosen(p, Sort(files), Total(files))|
    ensures var rest := Without(files, Paths(PassOver(p, files, Total(files), cap, w).gone));
            Total(rest) <= p.maxBytes || forall f :: f in rest ==> InGrace(p, f)
  {
    var cands := Sort(files);
    var e := Chosen(p, cands, Total(files));
    FaultFreePass(p, files, Total(files), cap, w);
    assert e[..|e|] == e;
    PassTotal(p, files, Total(files), cap, w);
    var rest := Without(files, Paths(e));
    if Total(rest) > p.maxBytes {
      forall f | f in rest ensures InGrace(p, f) { RestIsSpared(p, files, f); }
    }
  }

  // ----- With leases and failures in the way -----

  ghost predicate Live(w: Conditions) {
    forall n :: w.live(n)
  }

  /** The files among `fs` whose deletion goes through. */
  function DeletedOf(w: Conditions, fs: seq<FileInfo>): seq<FileInfo> {
    if fs == [] then []
    else DeletedOf(w, fs[..|fs| - 1]) + if w.outcome(fs[|fs| - 1].path).Deleted? then [fs[|fs| - 1]] else []
  }

  lemma {:induction false} DeletedOfMeans(w: Conditions, fs: seq<FileInfo>)
    ensures forall f :: f in DeletedOf(w, fs) <==> f in fs && w.outcome(f.path).Deleted?
    ensures |DeletedOf(w, fs)| <= |fs|
    ensures (forall f :: f in fs ==> w.outcome(f.path).Deleted?) ==> DeletedOf(w, fs) == fs
    ensures (forall f :: f in fs ==> !w.outcome(f.path).Deleted?) ==> DeletedOf(w, fs) == []
  {
    if fs != [] {
      var init := fs[..|fs| - 1];
      DeletedOfMeans(w, init);
      assert fs == init + [fs[|fs| - 1]];
      assert forall f :: f in fs <==> f in init || f == fs[|fs| - 1];
    }
  }

  lemma {:induction false} ChosenLonger(p: Policy, cands: seq<FileInfo>, total: int, n: nat)
    requires n <= |cands|
    ensures |Chosen(p, cands[..n], total)| <= |Chosen(p, cands, total)|
  {
    if n < |cands| {
      assert cands[..|cands| - 1][..n] == cands[..n];
      ChosenLonger(p, cands[..|cands| - 1], total, n);
    } else {
      assert cands[..n] == cands;
    }
  }

  lemma {:induction false} LiveSweep(p: Policy, cands: seq<FileInfo>, total: int, cap: nat, w: Conditions, n: nat)
    requires Distinct(cands) && n <= |cands| && Live(w) && cap >= |Chosen(p, cands, total)|
    ensures Sweep(cands[..n], Paths(Chosen(p, cands, total)), cap, w)
         == Swept(DeletedOf(w, Chosen(p, cands[..n], total)), false, false)
  {
    hide Hit, HitAt, Distinct, Chosen, Sweep, Paths, DeletedOf, Live;
    if n == 0 {
      assert cands[..0] == [];
      NothingYet(p, total, Paths(Chosen(p, cands, total)), cap, w);
    } else {
      LiveSweep(p, cands, total, cap, w, n - 1);
      ChosenAt(p, cands, total, n - 1);
      HitAtIs(p, cands, total, n - 1);
      ChosenLonger(p, cands, total, n);
      var before := Chosen(p, cands[..n - 1], total);
      DeletedOfMeans(w, before);
      LiveSweepStep(cands, n, Paths(Chosen(p, cands, total)), cap, w);
      DeletedOne(w, before, cands[n - 1]);
      assert before + [] == before && DeletedOf(w, before) + [] == DeletedOf(w, before);
    }
  }

  lemma NothingYet(p: Policy, total: int, eligible: set<string>, cap: int, w: Conditions)
    ensures Chosen(p, [], total) == [] && DeletedOf(w, []) == [] && Sweep([], eligible, cap, w) == Swept([], false, false)
  {
  }

  lemma LiveSweepStep(cands: seq<FileInfo>, n: nat, eligible: set<string>, cap: int, w: Conditions)
    requires 0 < n <= |cands| && Live(w) && !Sweep(cands[..n - 1], eligible, cap, w).ended
    requires cands[n - 1].path in eligible ==> |Sweep(cands[..n - 1], eligible, cap, w).gone| < cap
    ensures var s, f := Sweep(cands[..n - 1], eligible, cap, w), cands[n - 1];
            Sweep(cands[..n], eligible, cap, w)
            == s.(gone := s.gone + if f.path in eligible && w.outcome(f.path).Deleted? then [f] else [])
  {
    assert cands[..n][..n - 1] == cands[..n - 1];
  }

  lemma DeletedOne(w: Conditions, before: seq<FileInfo>, f: FileInfo)
    ensures DeletedOf(w, before + [f]) == DeletedOf(w, before) + if w.outcome(f.path).Deleted? then [f] else []
  {
    assert (before + [f])[..|before|] == before;
  }

  lemma HitAtIs(p: Policy, cands: seq<FileInfo>, total: int, n: nat)
    requires n < |cands|
    ensures HitAt(p, cands, total, n) <==> Hit(p, cands[n], total - Total(Chosen(p, cands[..n], total)))
    ensures Chosen(p, cands[..n + 1], total)
         == Chosen(p, cands[..n], total) + if HitAt(p, cands, total, n) then [cands[n]] else []
  {
    assert cands[..n + 1][..n] == cands[..n];
  }

  /** A pass that is not cancelled and has room deletes exactly the chosen files whose deletion
      goes through; leases and failures on other files make no difference. */
  lemma LivePass(p: Policy, files: seq<FileInfo>, total: int, cap: nat, w: Conditions)
    requires Distinct(files) && Live(w) && cap >= |Chosen(p, Sort(files), total)|
    ensures PassOver(p, files, total, cap, w).gone == DeletedOf(w, Chosen(p, Sort(files), total))
  {
    SortPermutes(files);
    DistinctPermuted(files, Sort(files));
    LiveSweep(p, Sort(files), total, cap, w, |files|);
    assert Sort(files)[..|files|] == Sort(files);
  }

  lemma {:induction false} ChosenOutsideGrace(p: Policy, cands: seq<FileInfo>, total: int)
    ensures forall f :: f in Chosen(p, cands, total) ==> f in cands && !InGrace(p, f)
  {
    if cands != [] {
      ChosenOutsideGrace(p, cands[..|cands| - 1], total);
      assert cands == cands[..|cands| - 1] + [cands[|cands| - 1]];
    }
  }

  /** A chosen file whose deletion does not go through stays, outside the grace window. */
  lemma SurvivorStays(p: Policy, files: seq<FileInfo>, total: int, w: Conditions, f: FileInfo)
    requires f in Chosen(p, Sort(files), total) && !w.outcome(f.path).Deleted?
    ensures f in Without(files, Paths(DeletedOf(w, Chosen(p, Sort(files), total)))) && !InGrace(p, f)
  {
    hide Chosen, Sort, Without, Paths, DeletedOf, InGrace;
    var e := Chosen(p, Sort(files), total);
    ChosenOutsideGrace(p, Sort(files), total);
    SortPermutes(files);
    assert f in multiset(Sort(files));
    DeletedOfMeans(w, e);
    PathsHas(DeletedOf(w, e), f.path);
    WithoutCounts(files, Paths(DeletedOf(w, e)), f);
    assert f in multiset(Without(files, Paths(DeletedOf(w, e))));
  }

  /** Any pass that is not cancelled and has room, whatever is leased or fails: it ends within
      the limit or with only grace-window files exactly when the chosen files that do go bring
      the total within the limit, or every chosen file goes. */
  lemma EndsWellIff(p: Policy, files: seq<FileInfo>, cap: nat, w: Conditions)
    requires Distinct(files) && Live(w) && p.maxBytes > 0
    requires cap >= |Chosen(p, Sort(files), Total(files))|
    ensures var e := Chosen(p, Sort(files), Total(files));
            var rest := Without(files, Paths(PassOver(p, files, Total(files), cap, w).gone));
            (Total(rest) <= p.maxBytes || forall f :: f in rest ==> InGrace(p, f))
            <==> Total(files) - Total(DeletedOf(w, e)) <= p.maxBytes || forall f :: f in e ==> w.outcome(f.path).Deleted?
  {
    hide Chosen, Sort, Without, Paths, DeletedOf, Total, InGrace, PassOver, Distinct;
    var e := Chosen(p, Sort(files), Total(files));
    LivePass(p, files, Total(files), cap, w);
    PassTotal(p, files, Total(files), cap, w);
    var rest := Without(files, Paths(DeletedOf(w, e)));
    if f :| f in e && !w.outcome(f.path).Deleted? {
      SurvivorStays(p, files, Total(files), w, f);
    } else {
      DeletedOfMeans(w, e);
      if Total(rest) > p.maxBytes {
        forall f | f in rest
          ensures InGrace(p, f)
        {
          RestIsSpared(p, files, f);
        }
      }
    }
  }

  lemma RestIsSpared(p: Policy, files: seq<FileInfo>, f: FileInfo)
    requires Distinct(files) && p.maxBytes > 0
    requires Total(files) - Total(Chosen(p, Sort(files), Total(files))) > p.maxBytes
    requires f in Without(files, Paths(Chosen(p, Sort(files), Total(files))))
    ensures InGrace(p, f)
  {
    DistinctKept(files, Paths(Chosen(p, Sort(files), Total(files))));
    SortPermutes(files);
    DistinctPermuted(files, Sort(files));
    assert f in multiset(Sort(files));
    var n :| 0 <= n < |Sort(files)| && Sort(files)[n] == f;
    SparedAboveLimit(p, Sort(files), Total(files), n);
  }

  /** A file that only the byte rule condemns was needed: had the pass stopped just before
      it, the total would still be above the limit. */
  lemma PassIsMinimal(p: Policy, files: seq<FileInfo>, n: nat)
    requires Distinct(files) && n < |files|
    requires var cands := Sort(files);
      && |cands| == |files| && cands[n].path in Paths(Chosen(p, cands, Total(files)))
      && !AgeHit(p, cands[n]) && !MediaOrphan(cands[n])
    ensures Total(Without(files, Paths(Chosen(p, Sort(files)[..n], Total(files))))) > p.maxBytes
  {
    var cands := Sort(files);
    SortPermutes(files);
    DistinctPermuted(files, cands);
    ChosenAt(p, cands, Total(files), n);
    var e := Chosen(p, cands[..n], Total(files));
    ChosenWithin(p, cands[..n], Total(files));
    assert cands == cands[..n] + cands[n..];
    WithoutTotal(files, e);
  }

  /** Whatever is chosen, everything older is chosen too, except a media-only entry of no
      bytes, which no rule but the byte rule can reach. */
  lemma ChosenOldestFirst(p: Policy, files: seq<FileInfo>, i: nat, j: nat)
    requires Distinct(files) && i < j < |Sort(files)|
    requires forall f :: f in files && f.mtime.Zero? ==> f.size == 0
    requires var cands := Sort(files);
      && cands[j].path in Paths(Chosen(p, cands, Total(files)))
      && !(cands[i].mtime.Zero? && cands[i].Bytes() == 0)
    ensures Sort(files)[i].path in Paths(Chosen(p, Sort(files), Total(files)))
  {
    hide Chosen, Sort, Paths, Total;
    var cands := Sort(files);
    SortPermutes(files);
    SortAscends(files);
    DistinctPermuted(files, cands);
    assert cands[i] in multiset(files);
    assert Earlier(cands[i], cands[j]);
    ChosenAt(p, cands, Total(files), i);
    ChosenAt(p, cands, Total(files), j);
    assert cands[..j][..i] == cands[..i];
    ChosenGrows(p, cands[..j], Total(files), i);
  }

  /** The sort puts media-only entries first, then older before younger, and equal times by path. */
  lemma OldestComeFirst(files: seq<FileInfo>, i: nat, j: nat)
    requires Distinct(files) && i < j < |Sort(files)|
    ensures var a, b := Sort(files)[i], Sort(files)[j];
      && (b.mtime.Zero? ==> a.mtime.Zero?)
      && (a.mtime.At? && b.mtime.At? ==> a.mtime.t <= b.mtime.t)
      && (a.mtime == b.mtime ==> Order.Less(a.path, b.path))
  {
    SortAscends(files);
  }

  /** The rules in the caller's terms. The n-th oldest file is condemned exactly when it is out of
      the grace window (five minutes unless set otherwise) and is older than maxAgeDays, or is
      nothing but media, or the files not yet condemned exceed maxBytes. */
  lemma ChosenIff(cfg: Config, set_: Settings, now: int, files: seq<FileInfo>, n: nat)
    requires Distinct(files) && n < |files|
    ensures |Sort(files)| == |files|
    ensures var p, cands := PolicyOf(cfg, now, set_.Lag()), Sort(files);
      var f := cands[n];
      var grace := if set_.lag > 0 then set_.lag else 5 * 60 * 1_000_000_000;
      f.path in Paths(Chosen(p, cands, Total(files))) <==>
        && (f.mtime.At? ==> now - f.mtime.t >= grace)
        && (|| (cfg.maxAgeDays > 0 && f.mtime.At? && now - f.mtime.t > cfg.maxAgeDays * 24 * 60 * 60 * 1_000_000_000)
            || (f.mtime.Zero? && f.size == 0 && f.media > 0)
            || (cfg.maxBytes > 0 && Total(files) - Total(Chosen(p, cands[..n], Total(files))) > cfg.maxBytes))
  {
    hide Chosen, Sort, Paths, Total, Distinct;
    var cands := Sort(files);
    SortPermutes(files);
    DistinctPermuted(files, cands);
    ChosenAt(PolicyOf(cfg, now, set_.Lag()), cands, Total(files), n);
  }

  /** So a pass with no fault and room for all deletes every file past its age. */
  lemma AgedFilesGo(cfg: Config, set_: Settings, now: int, files: seq<FileInfo>, cap: nat, w: Conditions, f: FileInfo)
    requires Distinct(files) && FaultFree(w) && f in files && f.mtime.At? && cfg.maxAgeDays > 0
    requires now - f.mtime.t > cfg.maxAgeDays * DAY && now - f.mtime.t >= set_.Lag()
    requires var p := PolicyOf(cfg, now, set_.Lag()); cap >= |Chosen(p, Sort(files), Total(files))|
    ensures f !in Without(files, Paths(PassOver(PolicyOf(cfg, now, set_.Lag()), files, Total(files), cap, w).gone))
  {
    hide Chosen, Sort, Paths, Total, Distinct, PassOver, Without;
    var p, cands := PolicyOf(cfg, now, set_.Lag()), Sort(files);
    SortPermutes(files);
    assert f in multiset(cands);
    var n :| 0 <= n < |cands| && cands[n] == f;
    ChosenIff(cfg, set_, now, files, n);
    FaultFreePass(p, files, Total(files), cap, w);
    var e := Chosen(p, cands, Total(files));
    assert e[..|e|] == e;
    WithoutCounts(files, Paths(e), f);
    assert f !in multiset(Without(files, Paths(e)));
  }

  // ----- Capped passes -----

  /** A smaller running total chooses nothing new. */
  lemma {:induction false} NothingNew(p: Policy, cands: seq<FileInfo>, total: int, less: int)
    requires less <= total && Chosen(p, cands, total) == []
    ensures Chosen(p, cands, less) == []
  {
    if cands != [] { NothingNew(p, cands[..|cands| - 1], total, less); }
  }

  /** Once the files `a` are gone, a new pass over the rest chooses exactly `c`. */
  predicate Leaves(p: Policy, cands: seq<FileInfo>, total: int, a: seq<FileInfo>, c: seq<FileInfo>) {
    Chosen(p, Without(cands, Paths(a)), total - Total(a)) == c
  }

  function Opt(f: FileInfo, b: bool): seq<FileInfo> { if b then [f] else [] }

  lemma ChosenStep(p: Policy, cands: seq<FileInfo>, f: FileInfo, total: int, before: seq<FileInfo>)
    requires before == Chosen(p, cands, total)
    ensures Chosen(p, cands + [f], total) == before + Opt(f, Hit(p, f, total - Total(before)))
  {
    hide Total, Hit;
    assert (cands + [f])[..|cands|] == cands;
  }

  /** Once the first `m` chosen files are gone, a new pass chooses exactly the others:
      the running total each surviving candidate meets is the one it met before. */
  lemma {:induction false} ChosenAfter(p: Policy, cands: seq<FileInfo>, total: int, m: nat)
    requires Distinct(cands) && m <= |Chosen(p, cands, total)|
    ensures Leaves(p, cands, total, Chosen(p, cands, total)[..m], Chosen(p, cands, total)[m..])
  {
    hide Chosen, Without, Paths, Total, Hit, Leaves;
    if cands == [] {
      NothingChosen(p, total);
    } else {
      var init, f := cands[..|cands| - 1], cands[|cands| - 1];
      var before := Chosen(p, init, total);
      assert cands == init + [f];
      ChosenStep(p, init, f, total, before);
      NotChosenBefore(p, cands, total);
      var h := Hit(p, f, total - Total(before));
      if m <= |before| {
        ChosenAfter(p, init, total, m);
        OneMoreSurvives(p, init, f, total, before, m);
      } else {
        ChosenAfter(p, init, total, |before|);
        OneMoreGoes(p, init, f, total, before);
        assert h && m == |before| + 1;
      }
    }
  }

  lemma NothingChosen(p: Policy, total: int)
    ensures Chosen(p, [], total) == [] && Leaves(p, [], total, [], [])
  {
  }

  lemma OneMoreSurvives(p: Policy, init: seq<FileInfo>, f: FileInfo, total: int, before: seq<FileInfo>, m: nat)
    requires m <= |before| && Leaves(p, init, total, before[..m], before[m..]) && f.path !in Paths(before)
    ensures var e := before + Opt(f, Hit(p, f, total - Total(before)));
            Leaves(p, init + [f], total, e[..m], e[m..])
  {
    hide Chosen, Without, Paths, Total, Hit, Leaves;
    PathsPrefix(before, m);
    LastSurvives(p, init, f, total, before[..m], before[m..]);
    assert before[..m] + before[m..] == before;
    SplitBefore(before, Opt(f, Hit(p, f, total - Total(before))), m);
  }

  lemma OneMoreGoes(p: Policy, init: seq<FileInfo>, f: FileInfo, total: int, before: seq<FileInfo>)
    requires Leaves(p, init, total, before[..|before|], before[|before|..])
    requires forall i :: 0 <= i < |init| ==> init[i].path != f.path
    ensures Leaves(p, init + [f], total, (before + [f])[..|before| + 1], (before + [f])[|before| + 1..])
  {
    hide Chosen, Without, Paths, Total, Hit, Leaves;
    var e := before + [f];
    assert before[..|before|] == before && before[|before|..] == [];
    LastGoes(p, init, f, total, before);
    assert e[..|e|] == e && e[|e|..] == [];
  }

  lemma SplitBefore(before: seq<FileInfo>, last: seq<FileInfo>, m: nat)
    requires m <= |before|
    ensures (before + last)[..m] == before[..m] && (before + last)[m..] == before[m..] + last
  {
  }

  lemma LastSurvives(p: Policy, init: seq<FileInfo>, f: FileInfo, total: int, a: seq<FileInfo>, c: seq<FileInfo>)
    requires Leaves(p, init, total, a, c) && f.path !in Paths(a)
    ensures Leaves(p, init + [f], total, a, c + Opt(f, Hit(p, f, total - Total(a + c))))
  {
    hide Chosen, Without, Paths, Total, Hit;
    WithoutSurvivor(init, Paths(a), f);
    TotalConcat(a, c);
    ChosenStep(p, Without(init, Paths(a)), f, total - Total(a), c);
  }

  lemma WithoutSurvivor(init: seq<FileInfo>, gone: set<string>, f: FileInfo)
    ensures Without(init + [f], gone) == Without(init, gone) + if f.path in gone then [] else [f]
  {
    assert (init + [f])[..|init|] == init;
  }

  lemma LastGoes(p: Policy, init: seq<FileInfo>, f: FileInfo, total: int, before: seq<FileInfo>)
    requires Leaves(p, init, total, before, [])
    requires forall i :: 0 <= i < |init| ==> init[i].path != f.path
    ensures Leaves(p, init + [f], total, before + [f], [])
  {
    hide Chosen, Without, Paths, Total, Hit;
    var e := before + [f];
    PathsAppend(before, f);
    OneTotal(before, f);
    WithoutIrrelevant(init, Paths(before), f.path);
    WithoutSurvivor(init, Paths(e), f);
    assert Without(init + [f], Paths(e)) == Without(init, Paths(before));
    NothingNew(p, Without(init, Paths(before)), total - Total(before), total - Total(e));
  }

  lemma OneTotal(before: seq<FileInfo>, f: FileInfo)
    ensures Total(before + [f]) == Total(before) + f.Bytes()
  {
    assert (before + [f])[..|before|] == before;
  }

  lemma {:induction false} PathsPrefix(fs: seq<FileInfo>, m: nat)
    requires m <= |fs|
    ensures Paths(fs[..m]) <= Paths(fs)
  {
    if m < |fs| {
      assert fs[..|fs| - 1][..m] == fs[..m];
      PathsPrefix(fs[..|fs| - 1], m);
    } else {
      assert fs[..m] == fs;
    }
  }

  lemma {:induction false} WithoutIrrelevant(fs: seq<FileInfo>, gone: set<string>, path: string)
    requires forall i :: 0 <= i < |fs| ==> fs[i].path != path
    ensures Without(fs, gone + {path}) == Without(fs, gone)
  {
    if fs != [] { WithoutIrrelevant(fs[..|fs| - 1], gone, path); }
  }

  const NO_FAULTS := Conditions((path: string) => Deleted, (n: nat) => true)

  /** One tick at a fixed clock: a capped pass over the inventory, which the next walk may
      list in any order. */
  ghost predicate Tick(p: Policy, cap: nat, a: seq<FileInfo>, b: seq<FileInfo>) {
    multiset(b) == multiset(Without(a, Paths(PassOver(p, a, Total(a), cap, NO_FAULTS).gone)))
  }

  ghost predicate Ticks(p: Policy, cap: nat, tr: seq<seq<FileInfo>>) {
    |tr| > 0 && forall i :: 0 <= i < |tr| - 1 ==> Tick(p, cap, tr[i], tr[i + 1])
  }

  /** After a tick, the files still to choose are the ones the tick's cap left over. */
  lemma TickChooses(p: Policy, cap: nat, a: seq<FileInfo>, b: seq<FileInfo>)
    requires Distinct(a) && Tick(p, cap, a, b)
    ensures var e := Chosen(p, Sort(a), Total(a));
            var m := Min(cap, |e|);
            && Distinct(b) && multiset(b) == multiset(Without(a, Paths(e[..m])))
            && Chosen(p, Sort(b), Total(b)) == e[m..]
  {
    hide Chosen, Without, Paths, Total, Sort, PassOver, Distinct;
    var e := Chosen(p, Sort(a), Total(a));
    var m := Min(cap, |e|);
    FaultFreePass(p, a, Total(a), cap, NO_FAULTS);
    SortOfRest(a, Paths(e[..m]), b);
    PassTotal(p, a, Total(a), cap, NO_FAULTS);
    TotalOfMultiset(b, Without(a, Paths(e[..m])));
    SortPermutes(a);
    DistinctPermuted(a, Sort(a));
    ChosenAfter(p, Sort(a), Total(a), m);
  }

  lemma {:induction false} WithoutTwice(fs: seq<FileInfo>, x: set<string>, y: set<string>)
    ensures Without(Without(fs, x), y) == Without(fs, x + y)
  {
    hide Without;
    if fs == [] {
      WithoutEmpty(x); WithoutEmpty(y); WithoutEmpty(x + y);
    } else {
      var init, f := fs[..|fs| - 1], fs[|fs| - 1];
      assert fs == init + [f];
      WithoutTwice(init, x, y);
      WithoutSurvivor(init, x, f);
      WithoutSurvivor(init, x + y, f);
      WithoutSurvivor(Without(init, x), y, f);
      assert Without(init, x) + [] == Without(init, x);
    }
  }

  lemma WithoutEmpty(gone: set<string>)
    ensures Without([], gone) == []
  {
  }

  lemma {:induction false} PathsConcat(a: seq<FileInfo>, b: seq<FileInfo>)
    ensures Paths(a + b) == Paths(a) + Paths(b)
  {
    if b == [] {
      assert a + b == a;
    } else {
      assert (a + b)[..|a + b| - 1] == a + b[..|b| - 1];
      PathsConcat(a, b[..|b| - 1]);
    }
  }

  lemma WithoutPermuted(a: seq<FileInfo>, b: seq<FileInfo>, gone: set<string>)
    requires multiset(a) == multiset(b)
    ensures multiset(Without(a, gone)) == multiset(Without(b, gone))
  {
    forall f ensures multiset(Without(a, gone))[f] == multiset(Without(b, gone))[f] {
      WithoutCounts(a, gone, f);
      WithoutCounts(b, gone, f);
    }
  }

  /** Capped passes are confluent and terminate: n ticks delete exactly the first n*cap files
      one uncapped pass would delete. So ceil(|e|/cap) ticks leave exactly what that pass
      leaves, with nothing more to do, and fewer do not. */
  lemma {:induction false} CappedTicksConfluent(p: Policy, cap: nat, tr: seq<seq<FileInfo>>)
    requires Ticks(p, cap, tr) && Distinct(tr[0])
    ensures var e := Chosen(p, Sort(tr[0]), Total(tr[0]));
            var m := Min(Room(|tr| - 1, cap), |e|);
            && multiset(tr[|tr| - 1]) == multiset(Without(tr[0], Paths(e[..m])))
            && Chosen(p, Sort(tr[|tr| - 1]), Total(tr[|tr| - 1])) == e[m..]
    decreases |tr|
  {
    hide Chosen, Without, Paths, Total, Sort, Tick, Room;
    var e := Chosen(p, Sort(tr[0]), Total(tr[0]));
    OneMoreTick(|tr| - 1, cap);
    if |tr| == 1 {
      assert e[..0] == [] && e[0..] == e;
      NoPaths();
      WithoutNone(tr[0]);
    } else {
      assert Tick(p, cap, tr[0], tr[0 + 1]);
      TickChooses(p, cap, tr[0], tr[1]);
      CappedTicksConfluent(p, cap, tr[1..]);
      var done := Room(|tr| - 2, cap);
      TicksAddUp(p, cap, done, tr[0], tr[1], tr[|tr| - 1], e);
    }
  }

  /** How many files some ticks may delete together. */
  function Room(ticks: nat, cap: nat): nat {
    ticks * cap
  }

  lemma OneMoreTick(ticks: nat, cap: nat)
    ensures if ticks == 0 then Room(ticks, cap) == 0 else Room(ticks, cap) == cap + Room(ticks - 1, cap)
  {
  }

  lemma NoPaths()
    ensures Paths([]) == {}
  {
  }

  lemma TicksAddUp(p: Policy, cap: nat, done: nat, a: seq<FileInfo>, b: seq<FileInfo>, c: seq<FileInfo>, e: seq<FileInfo>)
    requires var m := Min(cap, |e|); multiset(b) == multiset(Without(a, Paths(e[..m])))
    requires var r := e[Min(cap, |e|)..]; var k := Min(done, |r|);
             multiset(c) == multiset(Without(b, Paths(r[..k]))) && Chosen(p, Sort(c), Total(c)) == r[k..]
    ensures var m := Min(cap + done, |e|);
            multiset(c) == multiset(Without(a, Paths(e[..m]))) && Chosen(p, Sort(c), Total(c)) == e[m..]
  {
    hide Without, Paths, Chosen, Sort, Total;
    var m := Min(cap, |e|);
    var r := e[m..];
    var k := Min(done, |r|);
    Slices(e, m, k);
    PathsConcat(e[..m], r[..k]);
    WithoutPermuted(b, Without(a, Paths(e[..m])), Paths(r[..k]));
    WithoutTwice(a, Paths(e[..m]), Paths(r[..k]));
  }

  lemma Slices(e: seq<FileInfo>, m: nat, k: nat)
    requires m + k <= |e|
    ensures e[..m + k] == e[..m] + e[m..][..k] && e[m + k..] == e[m..][k..]
  {
  }

  const OLD_LEASED := FileInfo("a", 10, At(0), 0)
  const YOUNG := FileInfo("b", 10, At(1), 0)
  const TEN_BYTES := Policy(10, Zero, 1_000_000_000_000, DEFAULT_LAG)

  lemma StarvedChoice()
    ensures Chosen(TEN_BYTES, [OLD_LEASED, YOUNG], 20) == [OLD_LEASED]
  {
    hide Chosen;
    NothingChosen(TEN_BYTES, 20);
    ChosenStep(TEN_BYTES, [], OLD_LEASED, 20, []);
    assert [] + [OLD_LEASED] == [OLD_LEASED] && [OLD_LEASED][..0] == [];
    ChosenStep(TEN_BYTES, [OLD_LEASED], YOUNG, 20, [OLD_LEASED]);
    assert [OLD_LEASED] + [YOUNG] == [OLD_LEASED, YOUNG];
  }

  lemma StarvedOrder()
    ensures Sort([OLD_LEASED, YOUNG]) == [OLD_LEASED, YOUNG] && Paths([OLD_LEASED]) == {"a"}
  {
    var fs := [OLD_LEASED, YOUNG];
    assert fs[1..] == [YOUNG] && [YOUNG][1..] == [];
    assert Sort([]) == [] && Sort([YOUNG]) == [YOUNG] && [OLD_LEASED] + [YOUNG] == fs;
    assert [OLD_LEASED][..0] == [] && Paths([]) == {};
  }

  lemma StarvedSizes()
    ensures Total([OLD_LEASED, YOUNG]) > TEN_BYTES.maxBytes && !InGrace(TEN_BYTES, YOUNG)
  {
  }

  /** With a lease in the way the byte rule can starve: the running total counts the leased
      oldest file as gone, so the pass deletes nothing and leaves the total above the limit
      although an unleased file outside the grace window remains. */
  lemma LeaseStarvesByteRule()
    ensures var w := Conditions((path: string) => if path == "a" then Leased else Deleted, (n: nat) => true);
            && PassOver(TEN_BYTES, [OLD_LEASED, YOUNG], 20, 1000, w).gone == []
            && Total([OLD_LEASED, YOUNG]) > TEN_BYTES.maxBytes
            && !InGrace(TEN_BYTES, YOUNG) && w.outcome(YOUNG.path) == Deleted
  {
    hide Chosen, Sort, DeletedOf, PassOver, Total, InGrace;
    StarvedSizes();
    var w := Conditions((path: string) => if path == "a" then Leased else Deleted, (n: nat) => true);
    var fs := [OLD_LEASED, YOUNG];
    StarvedOrder();
    StarvedChoice();
    assert Distinct(fs) && Live(w) && fs[..1] == [OLD_LEASED];
    LivePass(TEN_BYTES, fs, 20, 1000, w);
    DeletedOfMeans(w, [OLD_LEASED]);
  }
}
