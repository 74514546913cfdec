/** The trace index as session inference sees it (internal/store/sqlite/insert.go): each new
    row looks up, by an IN clause over the hashes of its strict prefixes, the row whose turns
    it continues. */
module Sessions {
  import opened Wrappers
  import opened SessionTurns

  datatype Row = Row(
    tsStart: int,
    keyHash: string,
    prefixLen: Option<nat>,
    prefixHash: Option<string>,
    parent: Option<string>,
    root: string)

  type Rows = map<string, Row>

  /** prefix_len as ORDER BY ranks it: SQLite sorts a NULL below every number. */
  function Rank(row: Row): int {
    match row.prefixLen case None => -1 case Some(n) => n
  }

  predicate Candidate(rows: Rows, keyHash: string, strict: seq<string>, id: string) {
    id in rows && rows[id].keyHash == keyHash && rows[id].prefixHash.Some? && rows[id].prefixHash.value in strict
  }

  /** ORDER BY prefix_len DESC, ts_start DESC may put `a` before `b`. */
  predicate NotAfter(a: Row, b: Row) {
    Rank(b) < Rank(a) || (Rank(a) == Rank(b) && b.tsStart <= a.tsStart)
  }

  /** What the query may answer: nothing when no row matches, else any row that no match beats.
      Which one of several full ties SQLite picks is left open. */
  predicate Answers(rows: Rows, keyHash: string, strict: seq<string>, answer: Option<string>) {
    match answer
    case None => forall q :: q in rows ==> !Candidate(rows, keyHash, strict, q)
    case Some(p) =>
      && Candidate(rows, keyHash, strict, p)
      && forall q :: q in rows && Candidate(rows, keyHash, strict, q) ==> NotAfter(rows[p], rows[q])
  }

  lemma {:induction false} SomeRowComesFirst(rows: Rows, ids: set<string>) returns (p: string)
    requires ids != {} && forall q :: q in ids ==> q in rows
    ensures p in ids && forall q :: q in ids ==> NotAfter(rows[p], rows[q])
    decreases ids
  {
    var one :| one in ids;
    p := one;
    if ids != {one} {
      var best := SomeRowComesFirst(rows, ids - {one});
      if !NotAfter(rows[one], rows[best]) { p := best; }
      assert forall q :: q in ids ==> q == one || q in ids - {one};
    }
  }

  lemma QueryAnswers(rows: Rows, keyHash: string, strict: seq<string>)
    ensures exists answer :: Answers(rows, keyHash, strict, answer)
  {
    var ids := set q | q in rows && Candidate(rows, keyHash, strict, q);
    if ids == {} {
      forall q | q in rows
        ensures !Candidate(rows, keyHash, strict, q)
      {
        assert q !in ids;
      }
      assert Answers(rows, keyHash, strict, None);
    } else {
      var p := SomeRowComesFirst(rows, ids);
      assert Answers(rows, keyHash, strict, Some(p));
    }
  }

  /** findParentTx, with the query itself left to SQLite. */
  method FindParentTx(rows: Rows, keyHash: string, strict: seq<string>) returns (answer: Option<string>)
    ensures Answers(rows, keyHash, strict, answer)
  {
    if |strict| == 0 { return None; }
    QueryAnswers(rows, keyHash, strict);
    answer :| Answers(rows, keyHash, strict, answer);
  }

  datatype Trace = Trace(id: string, tsStart: int, keyHash: string, turns: Turns)

  /** The row a trace gets when the query gave `answer`. */
  function RowFor(h: Hash, rows: Rows, t: Trace, answer: Option<string>): Row
    requires answer.Some? ==> answer.value in rows
  {
    Row(t.tsStart, t.keyHash,
        if t.turns == [] then None else Some(|t.turns|),
        if t.turns == [] then None else Some(h(t.turns)),
        answer,
        match answer case None => t.id case Some(p) => rows[p].root)
  }

  /** Which statement of the transaction fails, if any does. */
  datatype Faults = Faults(begin: bool, find: bool, exec: bool, commit: bool)

  class Store {
    const h: Hash
    var rows: Rows

    constructor (h: Hash)
      ensures this.h == h && rows == map[]
    {
      this.h := h;
      rows := map[];
    }

    /** One transaction: the row goes in whole, linked as the query answered, or nothing does. */
    method AppendTrace(t: Trace, faults: Faults) returns (ok: bool)
      modifies this`rows
      ensures ok <==> !faults.begin && !(faults.find && |t.turns| >= 2) && !faults.exec && !faults.commit
      ensures !ok ==> rows == old(rows)
      ensures ok ==> exists answer :: Answers(old(rows), t.keyHash, StrictHashes(h, t.turns), answer)
                                  && rows == old(rows)[t.id := RowFor(h, old(rows), t, answer)]
    {
      if faults.begin { return false; }
      var prefixLen: Option<nat>, prefixHash: Option<string> := None, None;
      var parent: Option<string>, root := None, t.id;
      if |t.turns| > 0 {
        prefixLen, prefixHash := Some(|t.turns|), Some(h(t.turns));
        var strict := StrictPrefixHashes(h, t.turns);
        if |strict| > 0 {
          if faults.find { return false; }
          parent := FindParentTx(rows, t.keyHash, strict);
          if parent.Some? { root := rows[parent.value].root; }
        }
      }
      if faults.exec || faults.commit { return false; }
      var row := Row(t.tsStart, t.keyHash, prefixLen, prefixHash, parent, root);
      assert Answers(rows, t.keyHash, StrictHashes(h, t.turns), parent);
      assert row == RowFor(h, rows, t, parent);
      rows := rows[t.id := row];
      ok := true;
    }
  }

  // ----- Histories -----

  /** The table, with everything ever inserted beside it: the row as inserted and its turns. */
  datatype Entry = Entry(row: Row, turns: Turns)
  datatype Index = Index(rows: Rows, log: map<string, Entry>)

  datatype Op =
    | Append(trace: Trace, answer: Option<string>)
    | Delete(ids: set<string>)

  const EMPTY := Index(map[], map[])

  /** An append has a new id and carries an answer the query may give. */
  predicate Enabled(h: Hash, s: Index, op: Op) {
    match op
    case Append(t, answer) =>
      t.id !in s.log && Answers(s.rows, t.keyHash, StrictHashes(h, t.turns), answer)
    case Delete(_) => true
  }

  function Apply(h: Hash, s: Index, op: Op): Index
    requires Enabled(h, s, op)
  {
    match op
    case Append(t, answer) =>
      var row := RowFor(h, s.rows, t, answer);
      Index(s.rows[t.id := row], s.log[t.id := Entry(row, t.turns)])
    case Delete(ids) => s.(rows := s.rows - ids)
  }

  predicate CanRun(h: Hash, s: Index, ops: seq<Op>)
    decreases |ops|
  {
    ops == [] || (Enabled(h, s, ops[0]) && CanRun(h, Apply(h, s, ops[0]), ops[1..]))
  }

  function Run(h: Hash, s: Index, ops: seq<Op>): Index
    requires CanRun(h, s, ops)
    decreases |ops|
  {
    if ops == [] then s else Run(h, Apply(h, s, ops[0]), ops[1..])
  }

  ghost predicate Reachable(h: Hash, s: Index) {
    exists ops :: CanRun(h, EMPTY, ops) && Run(h, EMPTY, ops) == s
  }

  // ----- What every run keeps -----

  /** The session columns say what the turns are. */
  ghost predicate Coherent(h: Hash, s: Index) {
    && (forall id :: id in s.rows ==> id in s.log && s.log[id].row == s.rows[id])
    && forall id :: id in s.log ==>
         var e := s.log[id];
         if e.turns == [] then e.row.prefixLen == None && e.row.prefixHash == None
         else e.row.prefixLen == Some(|e.turns|) && e.row.prefixHash == Some(h(e.turns))
  }

  predicate Links(log: map<string, Entry>, id: string)
    requires id in log
  {
    var e := log[id];
    match e.row.parent
    case None => e.row.root == id
    case Some(p) =>
      && p in log
      && log[p].row.keyHash == e.row.keyHash
      && log[p].turns != [] && log[p].turns < e.turns
      && e.row.root == log[p].row.root
  }

  /** Every row is its own root or continues an earlier one and inherits its root. */
  predicate Forest(log: map<string, Entry>) {
    forall id :: id in log ==> Links(log, id)
  }

  ghost predicate Inv(h: Hash, s: Index) {
    Coherent(h, s) && Forest(s.log)
  }

  // ----- The naive scan -----

  /** `id` is a row under the key whose turns begin `turns` and stop short of it. */
  predicate Begins(s: Index, keyHash: string, turns: Turns, id: string) {
    id in s.rows && id in s.log && s.rows[id].keyHash == keyHash && s.log[id].turns != [] && s.log[id].turns < turns
  }

  /** The answer of a scan over all rows that compares turns: the longest match, the latest
      start among equally long ones. */
  predicate ScanAnswers(s: Index, keyHash: string, turns: Turns, answer: Option<string>) {
    match answer
    case None => forall q :: q in s.rows ==> !Begins(s, keyHash, turns, q)
    case Some(p) =>
      && Begins(s, keyHash, turns, p)
      && forall q :: q in s.rows && Begins(s, keyHash, turns, q) ==>
        |s.log[q].turns| < |s.log[p].turns|
        || (|s.log[q].turns| == |s.log[p].turns| && s.rows[q].tsStart <= s.rows[p].tsStart)
  }

  lemma CandidateBegins(h: Hash, s: Index, keyHash: string, turns: Turns, id: string)
    requires Injective(h) && Coherent(h, s)
    ensures Candidate(s.rows, keyHash, StrictHashes(h, turns), id) <==> Begins(s, keyHash, turns, id)
  {
    hide StrictHashes;
    if id in s.rows && s.log[id].turns != [] { HashListed(h, turns, s.log[id].turns); }
  }

  /** The hash lookup is the naive scan over all rows. */
  lemma LookupIsScan(h: Hash, s: Index, keyHash: string, turns: Turns, answer: Option<string>)
    requires Injective(h) && Coherent(h, s)
    ensures Answers(s.rows, keyHash, StrictHashes(h, turns), answer) <==>
            ScanAnswers(s, keyHash, turns, answer)
  {
    hide StrictHashes;
    forall id
      ensures Candidate(s.rows, keyHash, StrictHashes(h, turns), id) <==> Begins(s, keyHash, turns, id)
    {
      CandidateBegins(h, s, keyHash, turns, id);
    }
  }

  // ----- The reference script -----

  /** A row the script's scan stops at: under the key, started earlier, with fewer messages, all
      of them at the front of the trace's. A row without messages matches every trace that has
      some. */
  predicate ScriptMatches(s: Index, t: Trace, id: string) {
    && id in s.rows && id in s.log
    && s.rows[id].keyHash == t.keyHash && s.rows[id].tsStart < t.tsStart && s.log[id].turns < t.turns
  }

  /** What the script answers: the match with the most messages, the latest start on ties. */
  predicate ScriptAnswers(s: Index, t: Trace, answer: Option<string>) {
    match answer
    case None => forall q :: q in s.rows ==> !ScriptMatches(s, t, q)
    case Some(p) =>
      && ScriptMatches(s, t, p)
      && forall q :: q in s.rows && ScriptMatches(s, t, q) ==>
        |s.log[q].turns| < |s.log[p].turns|
        || (|s.log[q].turns| == |s.log[p].turns| && s.rows[q].tsStart <= s.rows[p].tsStart)
  }

  /** No row the trace continues is longer. */
  predicate Longest(s: Index, t: Trace, id: string) {
    Begins(s, t.keyHash, t.turns, id)
    && forall q :: q in s.rows && Begins(s, t.keyHash, t.turns, q) ==> |s.log[q].turns| <= |s.log[id].turns|
  }

  /** Of the rows under the trace's key: the longest it continues all started before it; and if
      it continues none and has turns, no row without turns started before it. */
  predicate ScriptSafe(s: Index, t: Trace) {
    && (forall p :: p in s.rows && Longest(s, t, p) ==> s.rows[p].tsStart < t.tsStart)
    && ((forall p :: p in s.rows ==> !Begins(s, t.keyHash, t.turns, p)) && t.turns != [] ==>
          forall q :: q in s.rows && q in s.log && s.rows[q].keyHash == t.keyHash && s.rows[q].tsStart < t.tsStart ==>
            s.log[q].turns != [])
  }

  lemma SafeAnswersAgree(s: Index, t: Trace, answer: Option<string>)
    requires ScriptSafe(s, t) && forall id :: id in s.rows ==> id in s.log
    requires ScanAnswers(s, t.keyHash, t.turns, answer)
    ensures ScriptAnswers(s, t, answer)
  {
    if answer.Some? { assert Longest(s, t, answer.value); }
  }

  lemma ScriptAnswerIsScan(s: Index, t: Trace, answer: Option<string>, scan: Option<string>)
    requires ScriptSafe(s, t) && forall id :: id in s.rows ==> id in s.log
    requires ScanAnswers(s, t.keyHash, t.turns, scan) && ScriptAnswers(s, t, answer)
    ensures ScanAnswers(s, t.keyHash, t.turns, answer)
  {
    SafeAnswersAgree(s, t, scan);
    if answer.Some? && scan.Some? {
      assert Longest(s, t, scan.value);
      assert Begins(s, t.keyHash, t.turns, answer.value);
    }
  }

  lemma UnsafeAnswerDiffers(s: Index, t: Trace, answer: Option<string>)
    requires !ScriptSafe(s, t) && forall id :: id in s.rows ==> id in s.log
    requires ScanAnswers(s, t.keyHash, t.turns, answer)
    ensures !ScriptAnswers(s, t, answer)
  {
    if p :| p in s.rows && Longest(s, t, p) && s.rows[p].tsStart >= t.tsStart {
      assert answer.Some? && |s.log[p].turns| == |s.log[answer.value].turns|;
    } else {
      var q :| q in s.rows && q in s.log && s.rows[q].keyHash == t.keyHash && s.rows[q].tsStart < t.tsStart
               && s.log[q].turns == [];
      assert answer.None? && ScriptMatches(s, t, q);
    }
  }

  /** The reference script scans only earlier rows, and all of them; the lookup has no start
      clause and skips rows without turns. Both answer alike exactly when the rows under the key
      give the difference no chance. */
  lemma LookupIsReferenceScanIff(h: Hash, s: Index, t: Trace)
    requires Injective(h) && Coherent(h, s)
    ensures (forall answer :: Answers(s.rows, t.keyHash, StrictHashes(h, t.turns), answer) <==> ScriptAnswers(s, t, answer))
       <==> ScriptSafe(s, t)
  {
    hide StrictHashes, Answers, ScriptAnswers, ScriptSafe, ScanAnswers;
    var strict := StrictHashes(h, t.turns);
    forall answer
      ensures Answers(s.rows, t.keyHash, strict, answer) <==> ScanAnswers(s, t.keyHash, t.turns, answer)
    {
      LookupIsScan(h, s, t.keyHash, t.turns, answer);
    }
    QueryAnswers(s.rows, t.keyHash, strict);
    var scan :| Answers(s.rows, t.keyHash, strict, scan);
    if ScriptSafe(s, t) {
      forall answer
        ensures Answers(s.rows, t.keyHash, strict, answer) <==> ScriptAnswers(s, t, answer)
      {
        if Answers(s.rows, t.keyHash, strict, answer) { SafeAnswersAgree(s, t, answer); }
        if ScriptAnswers(s, t, answer) { ScriptAnswerIsScan(s, t, answer, scan); }
      }
    } else {
      UnsafeAnswerDiffers(s, t, scan);
    }
  }

  // ----- The invariant is kept -----

  /** A new row under a new id, linked as `Links` wants it, leaves the older rows as they are. */
  lemma OneMoreRow(log: map<string, Entry>, id: string, e: Entry)
    requires Forest(log) && id !in log && Links(log[id := e], id)
    ensures Forest(log[id := e])
  {
    forall k | k in log
      ensures Links(log[id := e], k)
    {
      assert Links(log, k);
    }
  }

  lemma NewRowLinks(h: Hash, s: Index, t: Trace, answer: Option<string>)
    requires Injective(h) && Inv(h, s) && Enabled(h, s, Append(t, answer))
    ensures Links(s.log[t.id := Entry(RowFor(h, s.rows, t, answer), t.turns)], t.id)
  {
    hide StrictHashes;
    if answer.Some? { CandidateBegins(h, s, t.keyHash, t.turns, answer.value); }
  }

  lemma ApplyInv(h: Hash, s: Index, op: Op)
    requires Injective(h) && Inv(h, s) && Enabled(h, s, op)
    ensures Inv(h, Apply(h, s, op))
  {
    hide StrictHashes, Links, Forest, NotAfter;
    if op.Append? {
      NewRowLinks(h, s, op.trace, op.answer);
      OneMoreRow(s.log, op.trace.id, Entry(RowFor(h, s.rows, op.trace, op.answer), op.trace.turns));
    }
  }

  lemma {:induction false} RunInv(h: Hash, s: Index, ops: seq<Op>)
    requires Injective(h) && Inv(h, s) && CanRun(h, s, ops)
    ensures Inv(h, Run(h, s, ops))
    decreases |ops|
  {
    if ops != [] {
      ApplyInv(h, s, ops[0]);
      RunInv(h, Apply(h, s, ops[0]), ops[1..]);
    }
  }

  /** In every reachable index a new row's parent is the longest earlier row it continues, and
      it joins that row's session. */
  lemma NewRowContinuesLongest(h: Hash, s: Index, t: Trace, answer: Option<string>)
    requires Injective(h) && Reachable(h, s) && Enabled(h, s, Append(t, answer))
    ensures ScanAnswers(s, t.keyHash, t.turns, answer)
    ensures var row := Apply(h, s, Append(t, answer)).rows[t.id];
            row.parent == answer && row.root == if answer.None? then t.id else s.rows[answer.value].root
  {
    var ops :| CanRun(h, EMPTY, ops) && Run(h, EMPTY, ops) == s;
    RunInv(h, EMPTY, ops);
    LookupIsScan(h, s, t.keyHash, t.turns, answer);
  }

  /** A row the new trace continues is found, or a longer one that the trace also continues: a
      follow-up request is never left without its parent. */
  lemma ContinuedRowIsFound(h: Hash, s: Index, t: Trace, answer: Option<string>, p: string)
    requires Injective(h) && Reachable(h, s) && Enabled(h, s, Append(t, answer))
    requires Begins(s, t.keyHash, t.turns, p)
    ensures answer.Some? && answer.value in s.log && s.log[p].turns <= s.log[answer.value].turns < t.turns
    ensures Apply(h, s, Append(t, answer)).rows[t.id].parent == answer
  {
    hide StrictHashes, Answers, Apply;
    NewRowContinuesLongest(h, s, t, answer);
    var q := answer.value;
    assert s.log[p].turns == t.turns[..|s.log[p].turns|] && s.log[q].turns == t.turns[..|s.log[q].turns|];
    assert s.log[q].turns[..|s.log[p].turns|] == t.turns[..|s.log[p].turns|];
  }
}
