/** Byte-wise string order, as SQLite and Go compare text. */
module Order {
  predicate Less(a: string, b: string) {
    b != [] && (a == [] || a[0] < b[0] || (a[0] == b[0] && Less(a[1..], b[1..])))
  }

  /** The shorter of two texts of which one begins the other is less, and otherwise the one with the
      lesser character at the first difference. */
  lemma {:induction false} LessMeans(a: string, b: string)
    ensures Less(a, b) <==> a < b || exists i :: 0 <= i < |a| && i < |b| && a[..i] == b[..i] && a[i] < b[i]
  {
    if a != [] && b != [] {
      LessMeans(a[1..], b[1..]);
      if a[0] == b[0] {
        assert a == [a[0]] + a[1..] && b == [b[0]] + b[1..];
        forall i | 0 < i < |a| && i < |b|
          ensures a[..i] == b[..i] <==> a[1..][..i - 1] == b[1..][..i - 1]
        {
          assert a[..i] == [a[0]] + a[1..][..i - 1] && b[..i] == [b[0]] + b[1..][..i - 1];
          assert a[1..][..i - 1] == a[..i][1..] && b[1..][..i - 1] == b[..i][1..];
        }
        if i :| 0 <= i < |a[1..]| && i < |b[1..]| && a[1..][..i] == b[1..][..i] && a[1..][i] < b[1..][i] {
          assert a[..i + 1] == b[..i + 1] && a[i + 1] < b[i + 1];
        }
        if i :| 0 <= i < |a| && i < |b| && a[..i] == b[..i] && a[i] < b[i] {
          assert i > 0 && a[1..][i - 1] < b[1..][i - 1];
        }
      } else {
        forall i | 0 < i < |a| && i < |b|
          ensures a[..i] != b[..i]
        {
          assert a[..i][0] != b[..i][0];
        }
        if Less(a, b) { assert a[..0] == b[..0] && a[0] < b[0]; }
      }
    }
  }

  lemma {:induction false} Irreflexive(a: string)
    ensures !Less(a, a)
  {
    if a != [] { Irreflexive(a[1..]); }
  }

  lemma {:induction false} Trichotomy(a: string, b: string)
    ensures Less(a, b) || a == b || Less(b, a)
    ensures !(Less(a, b) && Less(b, a))
  {
    if a != [] && b != [] {
      Trichotomy(a[1..], b[1..]);
      if a[0] == b[0] && a[1..] == b[1..] { assert a == [a[0]] + a[1..] == b; }
    }
  }

  lemma {:induction false} Transitive(a: string, b: string, c: string)
    requires Less(a, b) && Less(b, c)
    ensures Less(a, c)
  {
    if a != [] && a[0] == b[0] && b[0] == c[0] {
      Transitive(a[1..], b[1..], c[1..]);
    }
  }
}
