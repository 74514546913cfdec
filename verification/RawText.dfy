/** What encoding/json does to raw JSON text it embeds: whitespace between tokens goes, and the
    characters that could end a script or a line are spelled as escapes. */
module RawText {

  /** Where a scan stands with respect to string literals. */
  datatype Place = Outside | Within | AfterBackslash

  function Next(p: Place, c: char): Place {
    match p
    case Outside => if c == '"' then Within else Outside
    case Within => if c == '\\' then AfterBackslash else if c == '"' then Outside else Within
    case AfterBackslash => Within
  }

  function PlaceAfter(p: Place, s: string): Place {
    if s == "" then p else Next(PlaceAfter(p, s[..|s| - 1]), s[|s| - 1])
  }

  predicate Space(c: char) {
    c == ' ' || c == '\t' || c == '\n' || c == '\r'
  }

  predicate Marked(c: char) {
    c == '<' || c == '>' || c == '&' || c == '\U{2028}' || c == '\U{2029}'
  }

  function Spelled(c: char): (s: string)
    ensures |s| == if Marked(c) then 6 else 1
  {
    if c == '<' then "\\u003c"
    else if c == '>' then "\\u003e"
    else if c == '&' then "\\u0026"
    else if c == '\U{2028}' then "\\u2028"
    else if c == '\U{2029}' then "\\u2029"
    else [c]
  }

  /** The text as it is embedded, from a scan that stands at `p`. */
  function Compact(p: Place, s: string): string
    decreases |s|
  {
    if s == "" then ""
    else (if p.Outside? && Space(s[0]) then "" else Spelled(s[0])) + Compact(Next(p, s[0]), s[1..])
  }

  /** No marked character anywhere, and whitespace inside string literals only. */
  predicate Untouched(p: Place, s: string) {
    forall i :: 0 <= i < |s| ==> !Marked(s[i]) && (Space(s[i]) ==> !PlaceAfter(p, s[..i]).Outside?)
  }

  lemma {:induction false} PlaceFront(p: Place, s: string)
    requires s != ""
    ensures PlaceAfter(p, s) == PlaceAfter(Next(p, s[0]), s[1..])
  {
    if |s| > 1 {
      assert s[..|s| - 1][1..] == s[1..][..|s| - 2];
      PlaceFront(p, s[..|s| - 1]);
    } else {
      assert s[..0] == "" && s[1..] == "";
    }
  }

  lemma UntouchedFront(p: Place, s: string)
    requires s != ""
    ensures Untouched(p, s) <==>
            !Marked(s[0]) && (Space(s[0]) ==> !p.Outside?) && Untouched(Next(p, s[0]), s[1..])
  {
    hide Marked, Space, Next;
    forall i | 0 < i < |s|
      ensures s[i] == s[1..][i - 1] && PlaceAfter(p, s[..i]) == PlaceAfter(Next(p, s[0]), s[1..][..i - 1])
    {
      PlaceFront(p, s[..i]);
      assert s[..i][1..] == s[1..][..i - 1];
    }
    assert s[..0] == "" && PlaceAfter(p, "") == p;
    if Untouched(p, s) {
      forall j | 0 <= j < |s| - 1
        ensures !Marked(s[1..][j]) && (Space(s[1..][j]) ==> !PlaceAfter(Next(p, s[0]), s[1..][..j]).Outside?)
      {
        assert s[1..][j] == s[j + 1];
      }
    }
  }

  lemma {:induction false} NoMarksOut(p: Place, s: string)
    ensures forall i :: 0 <= i < |Compact(p, s)| ==> !Marked(Compact(p, s)[i])
    decreases |s|
  {
    if s != "" {
      NoMarksOut(Next(p, s[0]), s[1..]);
      SpelledHasNoMarks(s[0]);
    }
  }

  lemma SpelledHasNoMarks(c: char)
    ensures forall i :: 0 <= i < |Spelled(c)| ==> !Marked(Spelled(c)[i])
  {
  }

  /** Without marked characters the text can only get shorter, and keeps its length only whole. */
  lemma {:induction false} OnlyDrops(p: Place, s: string)
    requires forall i :: 0 <= i < |s| ==> !Marked(s[i])
    ensures |Compact(p, s)| <= |s|
    ensures if Untouched(p, s) then Compact(p, s) == s else |Compact(p, s)| < |s|
    decreases |s|
  {
    hide Marked, Untouched, Next;
    if s == "" {
      NothingToTouch(p);
    } else {
      OnlyDrops(Next(p, s[0]), s[1..]);
      UntouchedFront(p, s);
      assert [s[0]] + s[1..] == s;
      PlainSpelling(s[0]);
    }
  }

  lemma NothingToTouch(p: Place)
    ensures Untouched(p, "")
  {
  }

  lemma PlainSpelling(c: char)
    requires !Marked(c)
    ensures Spelled(c) == [c]
  {
  }

  /** The text comes through as it is exactly when there is nothing in it to drop or to spell. */
  lemma CompactIff(s: string)
    ensures Compact(Outside, s) == s <==> Untouched(Outside, s)
  {
    if forall i :: 0 <= i < |s| ==> !Marked(s[i]) {
      OnlyDrops(Outside, s);
    } else {
      NoMarksOut(Outside, s);
    }
  }

  // ----- Literals and escapes -----

  const HEX := "0123456789abcdef"

  /** Four hexadecimal digits. */
  function Hex4(n: nat): string
    requires n < 0x10000
  {
    [HEX[n / 0x1000], HEX[n / 0x100 % 0x10], HEX[n / 0x10 % 0x10], HEX[n % 0x10]]
  }

  /** A marked character is spelled by its code, any other by itself. */
  lemma SpelledByCode(c: char)
    ensures Marked(c) ==> c as int < 0x10000 && Spelled(c) == "\\u" + Hex4(c as int)
    ensures !Marked(c) ==> Spelled(c) == [c]
  {
    if c == '<' || c == '>' {
      assert Hex4('<' as int) == "003c" && Hex4('>' as int) == "003e";
    } else if c == '&' {
      assert Hex4('&' as int) == "0026";
    } else if Marked(c) {
      assert Hex4(0x2028) == "2028" && Hex4(0x2029) == "2029";
    }
  }

  function SpelledAll(s: string): string {
    if s == "" then "" else Spelled(s[0]) + SpelledAll(s[1..])
  }

  /** The inside of a JSON string literal: quotes and backslashes have a backslash before them. */
  function Escaped(s: string): string {
    if s == "" then ""
    else (if s[0] == '"' || s[0] == '\\' then ['\\', s[0]] else [s[0]]) + Escaped(s[1..])
  }

  lemma {:induction false} InsideKept(s: string, rest: string)
    ensures Compact(Within, Escaped(s) + rest) == SpelledAll(Escaped(s)) + Compact(Within, rest)
    decreases |s|
  {
    hide Compact, Spelled, SpelledAll;
    if s == "" {
      assert Escaped(s) + rest == rest;
      NothingSpelled(Compact(Within, rest));
    } else {
      var c, tail := s[0], Escaped(s[1..]);
      InsideKept(s[1..], rest);
      if c == '"' || c == '\\' {
        EscapeKept(c, tail, rest);
      } else {
        PlainKept(c, tail, rest);
      }
    }
  }

  lemma NothingSpelled(after: string)
    ensures SpelledAll("") + after == after
  {
  }

  lemma PlainKept(c: char, tail: string, rest: string)
    requires c != '"' && c != '\\'
    requires Compact(Within, tail + rest) == SpelledAll(tail) + Compact(Within, rest)
    ensures Compact(Within, [c] + tail + rest) == SpelledAll([c] + tail) + Compact(Within, rest)
  {
    hide Compact, Spelled, SpelledAll;
    assert [c] + tail + rest == [c] + (tail + rest);
    CompactFront(Within, c, tail + rest);
    SpelledFront(c, tail);
    Assoc(Spelled(c), SpelledAll(tail), Compact(Within, rest));
  }

  lemma EscapeKept(c: char, tail: string, rest: string)
    requires c == '"' || c == '\\'
    requires Compact(Within, tail + rest) == SpelledAll(tail) + Compact(Within, rest)
    ensures Compact(Within, ['\\', c] + tail + rest) == SpelledAll(['\\', c] + tail) + Compact(Within, rest)
  {
    hide Compact, Spelled, SpelledAll;
    assert ['\\', c] + tail + rest == ['\\'] + ([c] + (tail + rest));
    assert ['\\', c] + tail == ['\\'] + ([c] + tail);
    CompactFront(Within, '\\', [c] + (tail + rest));
    CompactFront(AfterBackslash, c, tail + rest);
    SpelledFront('\\', [c] + tail);
    SpelledFront(c, tail);
    var u, v, x, y := Spelled('\\'), Spelled(c), SpelledAll(tail), Compact(Within, rest);
    Assoc(v, x, y);
    Assoc(u, v + x, y);
  }

  lemma Assoc(x: string, y: string, z: string)
    ensures x + (y + z) == x + y + z
  {
  }

  lemma CompactFront(p: Place, c: char, rest: string)
    ensures Compact(p, [c] + rest) == (if p.Outside? && Space(c) then "" else Spelled(c)) + Compact(Next(p, c), rest)
  {
    assert ([c] + rest)[1..] == rest;
  }

  lemma SpelledFront(c: char, rest: string)
    ensures SpelledAll([c] + rest) == Spelled(c) + SpelledAll(rest)
  {
    assert ([c] + rest)[1..] == rest;
  }

  /** A string literal keeps everything in it, whitespace and escapes included, but for the
      spelling of marked characters, and what follows it is outside again. */
  lemma LiteralKept(s: string, rest: string)
    ensures Compact(Outside, ['"'] + Escaped(s) + ['"'] + rest)
         == ['"'] + SpelledAll(Escaped(s)) + ['"'] + Compact(Outside, rest)
  {
    hide Compact, Spelled, SpelledAll, Escaped;
    PlainSpelling('"');
    assert ['"'] + Escaped(s) + ['"'] + rest == ['"'] + (Escaped(s) + (['"'] + rest));
    CompactFront(Outside, '"', Escaped(s) + (['"'] + rest));
    InsideKept(s, ['"'] + rest);
    CompactFront(Within, '"', rest);
    assert ['"'] + (SpelledAll(Escaped(s)) + (['"'] + Compact(Outside, rest)))
        == ['"'] + SpelledAll(Escaped(s)) + ['"'] + Compact(Outside, rest);
  }

  /** A space between tokens is lost. */
  lemma SpaceIsLost()
    ensures Compact(Outside, "[ ]") == "[]"
  {
    var s := "[ ]";
    assert s[1..] == " ]" && s[1..][1..] == "]" && "]"[1..] == "";
    assert Compact(Outside, "]") == "]";
    assert Compact(Outside, " ]") == "" + "]";
  }

  /** A string literal of one marked character comes out spelled, and is no longer the same. */
  lemma MarkIsSpelled(c: char)
    requires Marked(c)
    ensures var s := ['"', c, '"']; Compact(Outside, s) == ['"'] + Spelled(c) + ['"'] != s
  {
    var s := ['"', c, '"'];
    assert s[1..] == [c, '"'] && s[1..][1..] == ['"'] && ['"'][1..] == "";
    assert Compact(Within, ['"']) == ['"'] + "";
    assert Compact(Within, [c, '"']) == Spelled(c) + ['"'];
  }
}
