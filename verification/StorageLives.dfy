/** One process life after another. A life starts with whatever files and rows the last one
    left, and the writer may start before any repair pass. */
module StorageLives {
  import opened Wrappers
  import opened Lines
  import opened Leases
  import opened StorageProtocol
  import opened StorageInvariant
  import opened StorageSafety
  import opened StorageCrash

  /** Every row whose bucket has content can be read back from it. */
  predicate ContentAgrees(s: State) {
    forall id :: id in s.rows && Content(s.disk, s.rows[id].bucket).Some? ==> RowAgrees(s.disk, s.rows[id])
  }

  /** What every life keeps: rows may have lost their files, but none is misled. */
  ghost predicate Steady(s: State) {
    Base(s) && ContentAgrees(s)
  }

  lemma InvIsSteady(s: State)
    requires Inv(s)
    ensures Steady(s)
  {
    forall id | id in s.rows && Content(s.disk, s.rows[id].bucket).Some?
      ensures RowAgrees(s.disk, s.rows[id])
    {
      assert !BytesGone(s, s.rows[id].bucket);
    }
  }

  /** Where it is steady, reading a row gives its own line or finds no content at all. */
  lemma SteadyRowReadsItself(s: State, id: string)
    requires Steady(s) && id in s.rows && Content(s.disk, s.rows[id].bucket).Some?
    ensures var r := s.rows[id]; var c := Content(s.disk, r.bucket).value;
            r.offset + |r.line| <= |c| && c[r.offset..LineEnd(c, r.offset)] == r.line
  {
    var r := s.rows[id];
    LineEndOfLineAt(Content(s.disk, r.bucket).value, r.offset, r.line);
  }

  // ----- Within a life -----

  /** The writer opens a bucket that has rows and no file: their file was deleted, they were not. */
  predicate OpensOverRows(s: State, a: Act) {
    && a == W(OpenOk) && s.pc.WOpen?
    && s.pc.target !in s.disk.plain && s.pc.target !in s.disk.gz
    && exists id :: id in s.rows && s.rows[id].bucket == s.pc.target
  }

  ghost predicate AgreesThroughout(s: State, acts: seq<Act>)
    requires CanRun(s, acts)
    decreases |acts|
  {
    ContentAgrees(s) && (acts == [] || AgreesThroughout(Step(s, acts[0]), acts[1..]))
  }

  ghost predicate NeverOpensOverRows(s: State, acts: seq<Act>)
    requires CanRun(s, acts)
    decreases |acts|
  {
    acts == [] || (!OpensOverRows(s, acts[0]) && NeverOpensOverRows(Step(s, acts[0]), acts[1..]))
  }

  /** The file just opened is empty, so no row of the bucket agrees with it. */
  lemma OpenMisleads(s: State, a: Act)
    requires Enabled(s, a) && OpensOverRows(s, a)
    ensures !ContentAgrees(Step(s, a))
  {
    var id :| id in s.rows && s.rows[id].bucket == s.pc.target;
    var t := Step(s, a);
    assert Content(t.disk, s.pc.target) == Some([]) && t.rows[id] == s.rows[id];
    assert !RowAgrees(t.disk, t.rows[id]);
  }

  lemma WriterStaysSteady(s: State, w: WAct)
    requires Steady(s) && WEnabled(s, w) && !OpensOverRows(s, W(w))
    ensures ContentAgrees(WStep(s, w))
  {
    var t := WStep(s, w);
    WOthers(s, w);
    forall id | id in t.rows && Content(t.disk, t.rows[id].bucket).Some?
      ensures RowAgrees(t.disk, t.rows[id])
    {
      var r := t.rows[id];
      if id in s.rows && s.rows[id] == r {
        ContentBefore(s, w, r.bucket);
        WContent(s, w, r.bucket);
        LineAtExtends(Content(s.disk, r.bucket).value, Content(t.disk, r.bucket).value, r.offset, r.line);
      }
    }
  }

  /** Only an open gives a bucket content it did not have. */
  lemma ContentBefore(s: State, w: WAct, b: Bucket)
    requires InvDates(s) && InvDisk(s) && WEnabled(s, w) && !OpensOverRows(s, W(w))
    requires (exists id :: id in s.rows && s.rows[id].bucket == b) && Content(WStep(s, w).disk, b).Some?
    ensures Content(s.disk, b).Some?
  {
  }

  lemma MonitorStaysSteady(s: State, m: MAct)
    requires Steady(s) && MEnabled(s, m)
    ensures ContentAgrees(MStep(s, m))
  {
    var t := MStep(s, m);
    forall id | id in t.rows && Content(t.disk, t.rows[id].bucket).Some?
      ensures RowAgrees(t.disk, t.rows[id])
    {
      assert BucketDisk(s, s.rows[id].bucket);
    }
  }

  lemma WorkerStaysSteady(s: State, b: Bucket, g: GAct)
    requires Steady(s) && GEnabled(s, b, g)
    ensures ContentAgrees(GStep(s, b, g))
  {
    GKeeps(s, b, g);
    forall c
      ensures Content(GStep(s, b, g).disk, c) == Content(s.disk, c)
    {
      CompressionInvisible(s, b, g, c);
    }
  }

  lemma SafeStepStaysSteady(s: State, a: Act)
    requires Steady(s) && Enabled(s, a) && !OpensOverRows(s, a)
    ensures Steady(Step(s, a))
  {
    StepBase(s, a);
    match a
    case W(w) => WriterStaysSteady(s, w);
    case G(b, g) => WorkerStaysSteady(s, b, g);
    case E(i, e) => EKeepsDisk(s, i, e);
    case M(m) => MonitorStaysSteady(s, m);
  }

  /** Along any run, the rows with content agree with it all the way exactly when the writer
      never opens a bucket that has rows and no file. */
  lemma {:induction false} AgreementIff(s: State, acts: seq<Act>)
    requires Steady(s) && CanRun(s, acts)
    ensures AgreesThroughout(s, acts) <==> NeverOpensOverRows(s, acts)
    ensures NeverOpensOverRows(s, acts) ==> Steady(Run(s, acts))
    decreases |acts|
  {
    hide Base, Step, Enabled, ContentAgrees, OpensOverRows;
    if acts != [] {
      var next := Step(s, acts[0]);
      if OpensOverRows(s, acts[0]) {
        OpenMisleads(s, acts[0]);
        assert !AgreesThroughout(next, acts[1..]);
      } else {
        SafeStepStaysSteady(s, acts[0]);
        AgreementIff(next, acts[1..]);
      }
    }
  }

  // ----- From life to life -----

  lemma CrashStaysSteadyIff(s: State)
    requires Steady(s)
    ensures Steady(Crash(s)) <==> !LoneTornGz(s)
  {
    var c := Crash(s);
    assert forall k :: Holders(c.leases, k) == {};
    forall b
      ensures BucketDisk(c, b) <==> !(LoneTornGz(s) && s.mon.b == b)
    {
      assert BucketDisk(s, b);
    }
    if LoneTornGz(s) { assert !BucketDisk(c, s.mon.b); }
  }

  /** After a crash anywhere, with the writer running before any repair: the rows with content
      agree throughout the new life exactly when no bucket with rows and no file is opened. */
  lemma AgreementAfterCrashIff(s: State, acts: seq<Act>)
    requires Inv(s) && !LoneTornGz(s) && CanRun(Crash(s), acts)
    ensures AgreesThroughout(Crash(s), acts) <==> NeverOpensOverRows(Crash(s), acts)
  {
    InvIsSteady(s);
    CrashStaysSteadyIff(s);
    AgreementIff(Crash(s), acts);
  }

  /** The whole invariant survives a stop or a crash exactly when no lone torn gz file is left
      and no row has lost its bytes. */
  lemma RestartKeepsInvIff(s: State)
    requires Inv(s)
    ensures Inv(Crash(s)) <==> !LoneTornGz(s) && forall id :: id in s.rows ==> !BytesGone(s, s.rows[id].bucket)
  {
    InvIsSteady(s);
    CrashStaysSteadyIff(s);
    var c := Crash(s);
    if Inv(c) {
      InvIsSteady(c);
      forall id | id in s.rows
        ensures !BytesGone(s, s.rows[id].bucket)
      {
        assert RowAgrees(c.disk, c.rows[id]);
      }
    }
  }

  /** A repair pass that nothing interrupts brings the whole invariant back at any time in a
      life. */
  lemma RepairBringsBack(s: State)
    requires Steady(s) && s.mon.MIdle?
    ensures Inv(Repair(s))
  {
    var t := Repair(s);
    forall id | id in t.rows
      ensures RowAgrees(t.disk, t.rows[id])
    {
      assert BucketDisk(s, s.rows[id].bucket);
    }
    forall b
      ensures BucketDisk(t, b)
    {
      assert BucketDisk(s, b);
    }
  }

  /** Lives one after the other, each begun without a repair. */
  ghost predicate CanGoOn(s: State, lives: seq<seq<Act>>)
    decreases |lives|
  {
    lives == [] || (CanRun(s, lives[0]) && NeverOpensOverRows(s, lives[0])
                    && !LoneTornGz(Run(s, lives[0]))
                    && CanGoOn(Crash(Run(s, lives[0])), lives[1..]))
  }

  ghost function GoOn(s: State, lives: seq<seq<Act>>): State
    requires CanGoOn(s, lives)
    decreases |lives|
  {
    if lives == [] then s else GoOn(Crash(Run(s, lives[0])), lives[1..])
  }

  lemma {:induction false} LivesStaySteady(s: State, lives: seq<seq<Act>>)
    requires Steady(s) && CanGoOn(s, lives)
    ensures Steady(GoOn(s, lives))
    decreases |lives|
  {
    if lives != [] {
      AgreementIff(s, lives[0]);
      CrashStaysSteadyIff(Run(s, lives[0]));
      LivesStaySteady(Crash(Run(s, lives[0])), lives[1..]);
    }
  }
}
