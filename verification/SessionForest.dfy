/** What the parent and root columns of a reachable index mean. */
module SessionForest {
  import opened Wrappers
  import opened Json
  import opened SessionTurns
  import opened Sessions

  /** The ids from a row up to the row without a parent. */
  function Chain(log: map<string, Entry>, id: string): seq<string>
    requires Forest(log) && id in log
    decreases |log[id].turns|
  {
    assert Links(log, id);
    match log[id].row.parent
    case None => [id]
    case Some(p) => [id] + Chain(log, p)
  }

  /** `a` continues `b`: same key, and strictly more turns than b's, which it starts with. */
  predicate Continues(log: map<string, Entry>, a: string, b: string)
    requires a in log && b in log
  {
    log[b].row.keyHash == log[a].row.keyHash && log[b].turns != [] && log[b].turns < log[a].turns
  }

  /** A chain climbs by strictly shorter prefixes to the one root its rows name. */
  lemma {:induction false} ChainClimbs(log: map<string, Entry>, id: string)
    requires Forest(log) && id in log
    ensures var c := Chain(log, id);
            && c != [] && c[0] == id
            && (forall i :: 0 <= i < |c| ==> c[i] in log && log[c[i]].row.root == c[|c| - 1])
            && (forall i, j :: 0 <= i < j < |c| ==> Continues(log, c[i], c[j]))
            && (forall i, j :: 0 <= i < j < |c| && j == i + 1 ==> log[c[i]].row.parent == Some(c[j]))
            && log[c[|c| - 1]].row.parent == None
    decreases |log[id].turns|
  {
    hide Forest;
    ChainStep(log, id);
    if log[id].row.parent.Some? {
      var p := log[id].row.parent.value;
      ChainClimbs(log, p);
      ClimbOne(log, id, Chain(log, p));
    }
  }

  lemma ChainStep(log: map<string, Entry>, id: string)
    requires Forest(log) && id in log
    ensures Links(log, id)
    ensures match log[id].row.parent
            case None => Chain(log, id) == [id]
            case Some(p) => Chain(log, id) == [id] + Chain(log, p)
  {
    assert Links(log, id);
  }

  lemma ClimbOne(log: map<string, Entry>, id: string, up: seq<string>)
    requires id in log && Links(log, id) && log[id].row.parent.Some?
    requires up != [] && up[0] == log[id].row.parent.value
    requires forall i :: 0 <= i < |up| ==> up[i] in log
    requires forall i, j :: 0 <= i < j < |up| ==> Continues(log, up[i], up[j])
    ensures Continues(log, id, up[0]) && forall j :: 0 <= j < |up| ==> Continues(log, id, up[j])
  {
    forall j | 0 < j < |up|
      ensures Continues(log, id, up[j])
    {
      assert Continues(log, up[0], up[j]);
    }
  }

  lemma {:induction false} AppendsKeepRows(h: Hash, s: Index, ops: seq<Op>)
    requires CanRun(h, s, ops) && forall i :: 0 <= i < |ops| ==> ops[i].Append?
    requires s.log.Keys == s.rows.Keys
    ensures Run(h, s, ops).log.Keys == Run(h, s, ops).rows.Keys
    decreases |ops|
  {
    if ops != [] {
      var next := Apply(h, s, ops[0]);
      assert next.log.Keys == s.log.Keys + {ops[0].trace.id} && next.rows.Keys == s.rows.Keys + {ops[0].trace.id};
      AppendsKeepRows(h, next, ops[1..]);
    }
  }

  /** Without deletes the table is a forest by itself: every parent chain stays in the table,
      its prefix_len strictly falls, and it ends at the self-root that every row on it names. */
  lemma ParentChains(h: Hash, ops: seq<Op>, id: string)
    requires Injective(h) && CanRun(h, EMPTY, ops) && forall i :: 0 <= i < |ops| ==> ops[i].Append?
    requires id in Run(h, EMPTY, ops).rows
    ensures var s := Run(h, EMPTY, ops);
            && Inv(h, s)
            && var c := Chain(s.log, id);
            && c != [] && c[0] == id
            && (forall i :: 0 <= i < |c| ==> c[i] in s.rows && s.rows[c[i]].root == c[|c| - 1])
            && (forall i, j :: 0 <= i < j < |c| ==>
              && (j == i + 1 ==> s.rows[c[i]].parent == Some(c[j]))
              && s.rows[c[i]].prefixLen.Some? && s.rows[c[j]].prefixLen.Some?
              && s.rows[c[j]].prefixLen.value < s.rows[c[i]].prefixLen.value)
            && s.rows[c[|c| - 1]].parent == None
  {
    hide Answers, StrictHashes;
    RunInv(h, EMPTY, ops);
    AppendsKeepRows(h, EMPTY, ops);
    var s := Run(h, EMPTY, ops);
    ChainClimbs(s.log, id);
    var c := Chain(s.log, id);
    forall i | 0 <= i < |c|
      ensures c[i] in s.rows && s.log[c[i]].row == s.rows[c[i]]
    {
      assert c[i] in s.log.Keys;
    }
    forall i, j | 0 <= i < j < |c|
      ensures s.rows[c[i]].prefixLen.Some? && s.rows[c[j]].prefixLen.Some?
      ensures s.rows[c[j]].prefixLen.value < s.rows[c[i]].prefixLen.value
    {
      assert Continues(s.log, c[i], c[j]);
    }
  }

  // ----- What a session shares -----

  /** Deletes or not: two different rows with one root have one key and share every turn of the
      root, turn 0 among them. */
  lemma SessionSharesRootTurns(h: Hash, s: Index, a: string, b: string)
    requires Injective(h) && Reachable(h, s)
    requires a in s.log && b in s.log && a != b && s.log[a].row.root == s.log[b].row.root
    ensures s.log[a].row.root in s.log
    ensures var root := s.log[s.log[a].row.root];
            && root.turns != [] && root.turns <= s.log[a].turns && root.turns <= s.log[b].turns
            && root.row.keyHash == s.log[a].row.keyHash == s.log[b].row.keyHash
    ensures s.log[a].turns[0] == s.log[b].turns[0]
  {
    var ops :| CanRun(h, EMPTY, ops) && Run(h, EMPTY, ops) == s;
    RunInv(h, EMPTY, ops);
    ChainClimbs(s.log, a);
    ChainClimbs(s.log, b);
    var ca, cb := Chain(s.log, a), Chain(s.log, b);
    assert s.log[ca[0]].row.root == ca[|ca| - 1] && s.log[cb[0]].row.root == cb[|cb| - 1];
    assert |ca| > 1 ==> Continues(s.log, ca[0], ca[|ca| - 1]);
    assert |cb| > 1 ==> Continues(s.log, cb[0], cb[|cb| - 1]);
  }

  /** So two Messages conversations with different system prompts are never one session, as
      long as no client opens with the reserved role. */
  lemma DifferentSystemsDifferentSessions(h: Hash, s: Index, a: string, b: string, bodyA: Json, bodyB: Json)
    requires Injective(h) && Reachable(h, s) && a in s.log && b in s.log
    requires FromAnthropic(bodyA) == Some(s.log[a].turns) && FromAnthropic(bodyB) == Some(s.log[b].turns)
    requires !UsesReservedRole(FromChat(bodyA).value[0]) && !UsesReservedRole(FromChat(bodyB).value[0])
    requires System(bodyA) != System(bodyB)
    ensures s.log[a].row.root != s.log[b].row.root
  {
    if s.log[a].row.root == s.log[b].row.root {
      if a != b { SessionSharesRootTurns(h, s, a, b); }
      SameFirstTurnSameSystem(bodyA, bodyB);
      assert false;
    }
  }

  /** A Messages request that repeats the messages of one already in the index and adds some, under
      the same key and system prompt, gets a parent: that row, or a longer one between the two. */
  lemma FollowUpIsLinked(h: Hash, s: Index, p: string, t: Trace, answer: Option<string>,
                         bodyA: Json, bodyB: Json, ms: Turns, more: Turns)
    requires Injective(h) && Reachable(h, s) && Enabled(h, s, Append(t, answer))
    requires p in s.rows && p in s.log && s.rows[p].keyHash == t.keyHash
    requires FromAnthropic(bodyA) == Some(s.log[p].turns) && FromAnthropic(bodyB) == Some(t.turns)
    requires Carries(bodyA, ms) && Carries(bodyB, ms + more) && more != [] && System(bodyA) == System(bodyB)
    ensures answer.Some? && answer.value in s.log && s.log[p].turns <= s.log[answer.value].turns < t.turns
    ensures Apply(h, s, Append(t, answer)).rows[t.id].parent == answer
  {
    hide Answers, StrictHashes, Apply;
    FollowUpContinues(bodyA, bodyB, ms, more);
    ContinuedRowIsFound(h, s, t, answer, p);
  }

  lemma RunOne(h: Hash, s: Index, op: Op)
    requires Enabled(h, s, op)
    ensures CanRun(h, s, [op]) && Run(h, s, [op]) == Apply(h, s, op)
  {
    var next := Apply(h, s, op);
    var rest := [op][1..];
    assert rest == [] && CanRun(h, next, rest) && Run(h, next, rest) == next;
  }

  /** The proviso is needed: a client that writes the virtual system turn itself is joined by a
      later conversation that has that system prompt. */
  lemma ReservedRoleJoinsSessions(h: Hash) returns (s: Index, bodyA: Json, bodyB: Json)
    requires Injective(h)
    ensures Reachable(h, s) && "a" in s.log && "b" in s.log
    ensures FromAnthropic(bodyA) == Some(s.log["a"].turns) && FromAnthropic(bodyB) == Some(s.log["b"].turns)
    ensures System(bodyA) == None && System(bodyB) == Some(Str("x"))
    ensures s.log["a"].row.root == s.log["b"].row.root
  {
    hide StrictHashes;
    var sys, hello := VirtualSystem(Str("x")), Obj(map["role" := Str("user")]);
    bodyA := Obj(map["messages" := Arr([sys])]);
    bodyB := Obj(map["system" := Str("x"), "messages" := Arr([hello])]);
    assert FromAnthropic(bodyA) == Some([sys]);
    assert FromChat(bodyB) == Some([hello]) && System(bodyB) == Some(Str("x"));
    assert [sys] + [hello] == [sys, hello];
    var first := Append(Trace("a", 0, "k", [sys]), None);
    var mid := Apply(h, EMPTY, first);
    var second := Append(Trace("b", 1, "k", [sys, hello]), Some("a"));
    assert [sys] < [sys, hello];
    HashListed(h, [sys, hello], [sys]);
    assert Enabled(h, mid, second);
    s := Apply(h, mid, second);
    var ops := [first, second];
    assert ops[1..] == [second];
    RunOne(h, mid, second);
    assert CanRun(h, EMPTY, ops) && Run(h, EMPTY, ops) == s;
  }

  /** Fresh ids are needed too: INSERT OR REPLACE under an id already there can make a row its
      own parent. */
  lemma ReplacedRowCanBeItsOwnParent(h: Hash, t: Trace, more: Turns)
    requires Injective(h) && t.turns != [] && t.turns < more
    ensures var rows := map[t.id := RowFor(h, map[], t, None)];
            var again := t.(turns := more);
            && Answers(rows, t.keyHash, StrictHashes(h, more), Some(t.id))
            && RowFor(h, rows, again, Some(t.id)).parent == Some(t.id)
  {
    hide StrictHashes;
    HashListed(h, more, t.turns);
  }

  // ----- Where the lookup and the reference script part -----

  /** A trace without turns comes first: the script takes it for the parent of any later trace
      under its key, the lookup does not. */
  lemma TurnlessRowParts(h: Hash, x: Json) returns (s: Index, t: Trace)
    requires Injective(h)
    ensures Reachable(h, s) && t.turns == [x]
    ensures Answers(s.rows, t.keyHash, StrictHashes(h, t.turns), None) && ScriptAnswers(s, t, Some("a"))
    ensures !ScriptAnswers(s, t, None)
  {
    hide StrictHashes;
    var first := Append(Trace("a", 0, "k", []), None);
    RunOne(h, EMPTY, first);
    s := Apply(h, EMPTY, first);
    t := Trace("b", 1, "k", [x]);
    assert ScriptMatches(s, t, "a");
  }

  /** The row a trace continues started after it: the lookup takes it, the script does not. */
  lemma LaterRowParts(h: Hash, x: Json, y: Json) returns (s: Index, t: Trace)
    requires Injective(h)
    ensures Reachable(h, s) && t.turns == [x, y]
    ensures Answers(s.rows, t.keyHash, StrictHashes(h, t.turns), Some("a")) && ScriptAnswers(s, t, None)
    ensures !ScriptAnswers(s, t, Some("a"))
  {
    hide StrictHashes;
    var first := Append(Trace("a", 2, "k", [x]), None);
    RunOne(h, EMPTY, first);
    s := Apply(h, EMPTY, first);
    t := Trace("b", 1, "k", [x, y]);
    assert [x] < [x, y];
    HashListed(h, [x, y], [x]);
  }
}
