/** The text-replace plugin on a request (internal/plugin/v2/builtin/textreplace/textreplace.go):
    literal rules applied to every text part, copying only the turns that need it. */
module TextReplace {

  datatype Rule = Rule(find: string, replace: string)

  /** decodeConfig rejects a rule with an empty match. */
  predicate ValidRules(rules: seq<Rule>) {
    forall i :: 0 <= i < |rules| ==> rules[i].find != ""
  }

  /** `kind` is the part's type; `rest` is everything else it carries. */
  datatype Part = Part(kind: string, text: string, rest: string)
  datatype Message = Message(role: string, content: array<Part>)

  // ----- strings -----

  predicate StartsWith(s: string, prefix: string) {
    |prefix| <= |s| && s[..|prefix|] == prefix
  }

  function Contains(s: string, find: string): bool {
    StartsWith(s, find) || (s != "" && Contains(s[1..], find))
  }

  /** strings.ReplaceAll for a nonempty needle: leftmost matches, not overlapping. */
  function ReplaceAll(s: string, r: Rule): string
    requires r.find != ""
    decreases |s|
  {
    if s == "" then ""
    else if StartsWith(s, r.find) then r.replace + ReplaceAll(s[|r.find|..], r)
    else [s[0]] + ReplaceAll(s[1..], r)
  }

  predicate OccursAt(s: string, i: int, find: string) {
    0 <= i <= |s| - |find| && s[i..i + |find|] == find
  }

  lemma OneFurther(s: string, i: int, find: string)
    requires s != "" && i > 0
    ensures OccursAt(s, i, find) <==> OccursAt(s[1..], i - 1, find)
  {
    if i <= |s| - |find| {
      var here, there := s[i..i + |find|], s[1..][i - 1..i - 1 + |find|];
      assert forall k :: 0 <= k < |find| ==> here[k] == s[i + k] && there[k] == s[1 + (i - 1 + k)];
      assert here == there;
    }
  }

  lemma {:induction false} ContainsMeans(s: string, find: string)
    ensures Contains(s, find) <==> exists i :: OccursAt(s, i, find)
  {
    assert StartsWith(s, find) <==> OccursAt(s, 0, find);
    if s != "" {
      ContainsMeans(s[1..], find);
      forall i | i > 0
        ensures OccursAt(s, i, find) <==> OccursAt(s[1..], i - 1, find)
      {
        OneFurther(s, i, find);
      }
      if i :| OccursAt(s[1..], i, find) { assert OccursAt(s, i + 1, find); }
    }
  }

  /** The pieces with `sep` between them. */
  function Glue(pieces: seq<string>, sep: string): string {
    if pieces == [] then ""
    else if |pieces| == 1 then pieces[0]
    else pieces[0] + sep + Glue(pieces[1..], sep)
  }

  /** The first place where `find` occurs in the piece and itself behind it is behind the piece. */
  predicate EndsAtMatch(piece: string, find: string) {
    forall i :: 0 <= i < |piece| ==> !OccursAt(piece + find, i, find)
  }

  /** Every match goes, the leftmost first and none inside another: the text is pieces glued by
      the match, none of which holds one, and the result the same pieces glued by the replacement. */
  lemma {:induction false} ReplacesEveryMatch(s: string, r: Rule) returns (pieces: seq<string>)
    requires r.find != ""
    ensures pieces != [] && s == Glue(pieces, r.find) && ReplaceAll(s, r) == Glue(pieces, r.replace)
    ensures forall k :: 0 <= k < |pieces| - 1 ==> EndsAtMatch(pieces[k], r.find)
    ensures !Contains(pieces[|pieces| - 1], r.find)
    decreases |s|
  {
    if s == "" {
      pieces := [""];
    } else if StartsWith(s, r.find) {
      var rest := ReplacesEveryMatch(s[|r.find|..], r);
      pieces := [""] + rest;
      assert pieces[1..] == rest;
      assert s == "" + r.find + s[|r.find|..];
    } else {
      var rest := ReplacesEveryMatch(s[1..], r);
      pieces := LongerFirst(s, r, rest);
    }
  }

  lemma LongerFirst(s: string, r: Rule, rest: seq<string>) returns (pieces: seq<string>)
    requires r.find != "" && s != "" && !StartsWith(s, r.find) && rest != []
    requires s[1..] == Glue(rest, r.find)
    requires forall k :: 0 <= k < |rest| - 1 ==> EndsAtMatch(rest[k], r.find)
    requires !Contains(rest[|rest| - 1], r.find)
    ensures |pieces| == |rest| && s == Glue(pieces, r.find) && [s[0]] + Glue(rest, r.replace) == Glue(pieces, r.replace)
    ensures forall k :: 0 <= k < |pieces| - 1 ==> EndsAtMatch(pieces[k], r.find)
    ensures !Contains(pieces[|pieces| - 1], r.find)
  {
    var first := [s[0]] + rest[0];
    pieces := [first] + rest[1..];
    assert s == [s[0]] + s[1..];
    assert pieces[1..] == rest[1..];
    if |rest| == 1 {
      assert first[1..] == rest[0] && first == s;
    } else {
      assert first + r.find + Glue(rest[1..], r.find) == s;
      assert first + r.replace + Glue(rest[1..], r.replace) == [s[0]] + Glue(rest, r.replace);
      LongerEndsAtMatch(s, r.find, rest[0], Glue(rest[1..], r.find));
    }
  }

  /** A piece with one more character in front still ends at its match, if none starts there. */
  lemma LongerEndsAtMatch(s: string, find: string, piece: string, after: string)
    requires s != "" && s[1..] == piece + find + after && !StartsWith(s, find) && EndsAtMatch(piece, find)
    ensures EndsAtMatch([s[0]] + piece, find)
  {
    var first := [s[0]] + piece;
    assert s == first + find + after;
    forall i | 0 <= i < |first|
      ensures !OccursAt(first + find, i, find)
    {
      assert !OccursAt(piece + find, i - 1, find);
      if i == 0 {
        assert s[..|find|] == (first + find)[0..0 + |find|];
      } else {
        assert (first + find)[i..i + |find|] == (piece + find)[i - 1..i - 1 + |find|];
      }
    }
  }

  lemma {:induction false} NoMatchNoChange(s: string, r: Rule)
    requires r.find != "" && !Contains(s, r.find)
    ensures ReplaceAll(s, r) == s
  {
    if s != "" {
      NoMatchNoChange(s[1..], r);
      assert [s[0]] + s[1..] == s;
    }
  }

  /** Every rule in order, each on what the one before it left. */
  function Applied(text: string, rules: seq<Rule>): string
    requires ValidRules(rules)
    decreases |rules|
  {
    if rules == [] then text else Applied(ReplaceAll(text, rules[0]), rules[1..])
  }

  method ApplyRules(text: string, rules: seq<Rule>) returns (out: string)
    requires ValidRules(rules)
    ensures out == Applied(text, rules)
  {
    out := text;
    for i := 0 to |rules|
      invariant Applied(out, rules[i..]) == Applied(text, rules)
    {
      assert rules[i..][0] == rules[i] && rules[i..][1..] == rules[i + 1..];
      if !Contains(out, rules[i].find) {
        NoMatchNoChange(out, rules[i]);
        continue;
      }
      out := ReplaceAll(out, rules[i]);
    }
    assert rules[|rules|..] == [];
  }

  predicate Matches(text: string, rules: seq<Rule>) {
    exists i :: 0 <= i < |rules| && Contains(text, rules[i].find)
  }

  method AnyMatches(text: string, rules: seq<Rule>) returns (found: bool)
    ensures found <==> Matches(text, rules)
  {
    for i := 0 to |rules|
      invariant forall j :: 0 <= j < i ==> !Contains(text, rules[j].find)
    {
      if Contains(text, rules[i].find) { return true; }
    }
    found := false;
  }

  /** The pre-scan is safe: a text no rule matches at first is one no rule ever changes. */
  lemma {:induction false} UnmatchedUnchanged(text: string, rules: seq<Rule>)
    requires ValidRules(rules) && !Matches(text, rules)
    ensures Applied(text, rules) == text
    decreases |rules|
  {
    if rules != [] {
      assert !Contains(text, rules[0].find);
      NoMatchNoChange(text, rules[0]);
      assert forall i :: 0 <= i < |rules| - 1 ==> rules[1..][i] == rules[i + 1];
      UnmatchedUnchanged(text, rules[1..]);
    }
  }

  // ----- messages -----

  function Rewritten(p: Part, rules: seq<Rule>): Part
    requires ValidRules(rules)
  {
    if p.kind == "text" then p.(text := Applied(p.text, rules)) else p
  }

  /** Only text parts are rewritten, and of them only the text. */
  lemma OnlyTextIsRewritten(p: Part, rules: seq<Rule>)
    requires ValidRules(rules)
    ensures Rewritten(p, rules) == if p.kind == "text" then Part("text", Applied(p.text, rules), p.rest) else p
    ensures PartMatches(p, rules) <==> p.kind == "text" && exists r :: r in rules && Contains(p.text, r.find)
  {
    if r :| r in rules && Contains(p.text, r.find) {
      var i :| 0 <= i < |rules| && rules[i] == r;
      assert Contains(p.text, rules[i].find);
    }
  }

  predicate PartMatches(p: Part, rules: seq<Rule>) {
    p.kind == "text" && Matches(p.text, rules)
  }

  predicate Dirty(m: Message, rules: seq<Rule>)
    reads m.content
  {
    exists j :: 0 <= j < m.content.Length && PartMatches(m.content[j], rules)
  }

  /** The turn is as the plain map over its parts makes it. */
  predicate IsRewritten(m: Message, was: Message, rules: seq<Rule>)
    requires ValidRules(rules)
    reads m.content, was.content
  {
    && m.role == was.role && m.content.Length == was.content.Length
    && forall j :: 0 <= j < m.content.Length ==> m.content[j] == Rewritten(was.content[j], rules)
  }

  method RewriteParts(content: array<Part>, rules: seq<Rule>) returns (parts: array<Part>)
    requires ValidRules(rules)
    ensures fresh(parts) && parts.Length == content.Length
    ensures forall j :: 0 <= j < parts.Length ==> parts[j] == Rewritten(content[j], rules)
  {
    parts := new Part[content.Length](i requires 0 <= i < content.Length reads content => content[i]);
    for j := 0 to parts.Length
      invariant forall k :: 0 <= k < j ==> parts[k] == Rewritten(content[k], rules)
      invariant forall k :: j <= k < parts.Length ==> parts[k] == content[k]
      modifies parts
    {
      if parts[j].kind != "text" { continue; }
      var text := ApplyRules(parts[j].text, rules);
      parts[j] := parts[j].(text := text);
    }
  }

  method IsDirty(m: Message, rules: seq<Rule>) returns (dirty: bool)
    ensures dirty <==> Dirty(m, rules)
  {
    for j := 0 to m.content.Length
      invariant forall k :: 0 <= k < j ==> !PartMatches(m.content[k], rules)
    {
      if m.content[j].kind == "text" {
        var found := AnyMatches(m.content[j].text, rules);
        if found { return true; }
      }
    }
    dirty := false;
  }

  /** One turn: rewritten in a copy of its parts, or left as it is. */
  method RewriteTurn(m: Message, rules: seq<Rule>) returns (r: Message, dirty: bool)
    requires ValidRules(rules)
    ensures dirty <==> Dirty(m, rules)
    ensures IsRewritten(r, m, rules)
    ensures if dirty then fresh(r.content) else r == m
  {
    dirty := IsDirty(m, rules);
    if !dirty {
      CleanTurn(m, rules);
      return m, false;
    }
    var parts := RewriteParts(m.content, rules);
    r := m.(content := parts);
  }

  /** Nothing of the input is written to. Each turn comes out as the plain map makes it; turns
      nothing matched in share their parts with the input, and with no match anywhere the input
      itself comes back. `changed` says that some rule matched some text, whether or not the
      text then came out different. */
  method RewriteMessages(msgs: array<Message>, rules: seq<Rule>) returns (out: array<Message>, changed: bool)
    requires ValidRules(rules)
    ensures out.Length == msgs.Length
    ensures forall i :: 0 <= i < msgs.Length ==> IsRewritten(out[i], msgs[i], rules)
    ensures changed <==> exists i :: 0 <= i < msgs.Length && Dirty(msgs[i], rules)
    ensures if changed then fresh(out) else out == msgs
    ensures forall i :: 0 <= i < msgs.Length ==>
      if Dirty(msgs[i], rules) then fresh(out[i].content) else out[i] == msgs[i]
  {
    hide Rewritten, PartMatches, IsRewritten, Dirty;
    out, changed := msgs, false;
    for i := 0 to msgs.Length
      invariant out.Length == msgs.Length && if changed then fresh(out) else out == msgs
      invariant changed <==> exists k :: 0 <= k < i && Dirty(msgs[k], rules)
      invariant forall k :: 0 <= k < i ==> IsRewritten(out[k], msgs[k], rules)
      invariant forall k :: 0 <= k < i ==> if Dirty(msgs[k], rules) then fresh(out[k].content) else out[k] == msgs[k]
      invariant forall k :: i <= k < msgs.Length ==> out[k] == msgs[k]
    {
      var turn, dirty := RewriteTurn(msgs[i], rules);
      if !dirty { continue; }
      if !changed {
        out := new Message[msgs.Length](k requires 0 <= k < msgs.Length reads msgs => msgs[k]);
        changed := true;
      }
      out[i] := turn;
    }
  }

  lemma CleanTurn(m: Message, rules: seq<Rule>)
    requires ValidRules(rules) && !Dirty(m, rules)
    ensures IsRewritten(m, m, rules)
  {
    forall j | 0 <= j < m.content.Length
      ensures m.content[j] == Rewritten(m.content[j], rules)
    {
      assert !PartMatches(m.content[j], rules);
      if m.content[j].kind == "text" { UnmatchedUnchanged(m.content[j].text, rules); }
    }
  }

  // ----- Matched and modified -----

  /** A replacement longer than what it replaces makes a matching text longer. */
  lemma {:induction false} Grows(s: string, r: Rule)
    requires r.find != "" && |r.replace| > |r.find|
    ensures |ReplaceAll(s, r)| >= |s| && (Contains(s, r.find) ==> |ReplaceAll(s, r)| > |s|)
    decreases |s|
  {
    if s != "" {
      if StartsWith(s, r.find) { Grows(s[|r.find|..], r); } else { Grows(s[1..], r); }
    }
  }

  lemma {:induction false} Shrinks(s: string, r: Rule)
    requires r.find != "" && |r.replace| < |r.find|
    ensures |ReplaceAll(s, r)| <= |s| && (Contains(s, r.find) ==> |ReplaceAll(s, r)| < |s|)
    decreases |s|
  {
    if s != "" {
      if StartsWith(s, r.find) { Shrinks(s[|r.find|..], r); } else { Shrinks(s[1..], r); }
    }
  }

  /** One of the same length differs at the first match. */
  lemma {:induction false} DiffersAtMatch(s: string, r: Rule)
    requires r.find != "" && |r.replace| == |r.find| && r.replace != r.find && Contains(s, r.find)
    ensures ReplaceAll(s, r) != s
    decreases |s|
  {
    if StartsWith(s, r.find) {
      assert ReplaceAll(s, r)[..|r.find|] == r.replace;
    } else {
      DiffersAtMatch(s[1..], r);
      assert ReplaceAll(s, r)[1..] == ReplaceAll(s[1..], r);
    }
  }

  lemma {:induction false} SelfReplacement(s: string, r: Rule)
    requires r.find != "" && r.replace == r.find
    ensures ReplaceAll(s, r) == s
    decreases |s|
  {
    if s != "" {
      if StartsWith(s, r.find) {
        SelfReplacement(s[|r.find|..], r);
        assert s == r.find + s[|r.find|..];
      } else {
        SelfReplacement(s[1..], r);
        assert s == [s[0]] + s[1..];
      }
    }
  }

  /** One rule changes a text exactly when it matches and does not replace its match by itself. */
  lemma RuleModifiesIff(s: string, r: Rule)
    requires r.find != ""
    ensures ReplaceAll(s, r) != s <==> Contains(s, r.find) && r.find != r.replace
  {
    if !Contains(s, r.find) {
      NoMatchNoChange(s, r);
    } else if r.find == r.replace {
      SelfReplacement(s, r);
    } else if |r.replace| > |r.find| {
      Grows(s, r);
    } else if |r.replace| < |r.find| {
      Shrinks(s, r);
    } else {
      DiffersAtMatch(s, r);
    }
  }

  /** The source's comment has `changed` true exactly when some text was modified. With one rule
      it is right about a text exactly when the rule does not replace its match by itself or
      does not match. */
  lemma OneRuleChangedIff(text: string, r: Rule)
    requires r.find != ""
    ensures (Matches(text, [r]) <==> Applied(text, [r]) != text) <==> !(r.find == r.replace && Contains(text, r.find))
  {
    assert [r][0] == r && [r][1..] == [];
    assert Applied(text, [r]) == ReplaceAll(text, r);
    assert Matches(text, [r]) <==> Contains(text, r.find);
    RuleModifiesIff(text, r);
  }

  /** With any rules a modified text is one some rule matched. */
  lemma ModifiedWasMatched(text: string, rules: seq<Rule>)
    requires ValidRules(rules) && Applied(text, rules) != text
    ensures Matches(text, rules)
  {
    if !Matches(text, rules) { UnmatchedUnchanged(text, rules); }
  }

  /** The converse also fails when one rule undoes another. */
  lemma RulesThatUndo()
    ensures var rules := [Rule("a", "b"), Rule("b", "a")];
            ValidRules(rules) && Matches("a", rules) && Applied("a", rules) == "a"
  {
    var there, back := Rule("a", "b"), Rule("b", "a");
    var rules := [there, back];
    assert rules[1..] == [back] && [back][1..] == [];
    assert "a"[1..] == "" && "b"[1..] == "";
    assert StartsWith("a", "a") && StartsWith("b", "b");
    assert Contains("a", rules[0].find);
    assert ReplaceAll("a", there) == "b" + "" == "b";
    assert ReplaceAll("b", back) == "a" + "" == "a";
    assert Applied("b", [back]) == Applied("a", []) == "a";
  }
}
