/** Lexicographic order on strings. */
module Strings {

  predicate StringLess(a: string, b: string) {
    b != [] && (a == [] || a[0] < b[0] || (a[0] == b[0] && StringLess(a[1..], b[1..])))
  }

  lemma {:induction false} StringIrreflexive(a: string)
    ensures !StringLess(a, a)
  {
    if a != [] {
      StringIrreflexive(a[1..]);
    }
  }

  lemma {:induction false} StringTrichotomy(a: string, b: string)
    requires a != b
    ensures StringLess(a, b) <==> !StringLess(b, a)
  {
    if a != [] && b != [] && a[0] == b[0] {
      assert a == [a[0]] + a[1..] && b == [b[0]] + b[1..];
      StringTrichotomy(a[1..], b[1..]);
    }
  }

  lemma {:induction false} StringTransitive(a: string, b: string, c: string)
    requires StringLess(a, b) && StringLess(b, c)
    ensures StringLess(a, c)
  {
    if a != [] && a[0] == b[0] && b[0] == c[0] {
      StringTransitive(a[1..], b[1..], c[1..]);
    }
  }

  /** `a` and `b` agree before position `i`, where `a` ends or has the smaller character. */
  ghost predicate FirstDiffers(a: string, b: string, i: nat) {
    i <= |a| && i < |b| && a[..i] == b[..i] && (i == |a| || a[i] < b[i])
  }

  lemma DiffersLater(a: string, b: string, i: nat)
    requires a != [] && b != [] && a[0] == b[0]
    ensures FirstDiffers(a[1..], b[1..], i) <==> FirstDiffers(a, b, i + 1)
  {
    if i + 1 <= |a| && i + 1 < |b| {
      assert a[..i + 1] == [a[0]] + a[1..][..i] && b[..i + 1] == [b[0]] + b[1..][..i];
    }
  }

  lemma DiffersFirst(a: string, b: string, i: nat)
    requires FirstDiffers(a, b, i) && i > 0
    ensures a != [] && b != [] && a[0] == b[0]
  {
    assert a[..i][0] == b[..i][0];
  }

  /** The order of strings is told by the first character that differs; a proper prefix comes first. */
  lemma {:induction false} StringLessIs(a: string, b: string)
    ensures StringLess(a, b) <==> exists i: nat :: FirstDiffers(a, b, i)
  {
    if StringLess(a, b) {
      StringLessDiffers(a, b);
    }
    if i: nat :| FirstDiffers(a, b, i) {
      DiffersLess(a, b, i);
    }
  }

  lemma {:induction false} StringLessDiffers(a: string, b: string)
    requires StringLess(a, b)
    ensures exists i: nat :: FirstDiffers(a, b, i)
  {
    if a == [] || a[0] < b[0] {
      assert a[..0] == b[..0];
      assert FirstDiffers(a, b, 0);
    } else {
      StringLessDiffers(a[1..], b[1..]);
      var i: nat :| FirstDiffers(a[1..], b[1..], i);
      DiffersLater(a, b, i);
    }
  }

  lemma {:induction false} DiffersLess(a: string, b: string, i: nat)
    requires FirstDiffers(a, b, i)
    ensures StringLess(a, b)
    decreases i
  {
    if i > 0 {
      DiffersFirst(a, b, i);
      DiffersLater(a, b, i - 1);
      DiffersLess(a[1..], b[1..], i - 1);
    }
  }
}
