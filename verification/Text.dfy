/** Facts about strings cut at a separator: what makes a composed key unambiguous. */
module Text {
  /** No occurrence of the separator. */
  predicate Free(s: string, sep: char) {
    sep !in s
  }

  /** A separator-free head is determined by the whole string. */
  lemma HeadDetermined(a: string, x: string, b: string, y: string, sep: char)
    requires Free(a, sep) && Free(b, sep)
    requires a + [sep] + x == b + [sep] + y
    ensures a == b && x == y
  {
    var s := a + [sep] + x;
    assert s[|a|] == sep && s[|b|] == sep;
    assert forall i | 0 <= i < |a| :: s[i] == a[i];
    assert forall i | 0 <= i < |b| :: s[i] == b[i];
    assert a == s[..|a|] && x == s[|a| + 1..];
  }

  /** A separator-free tail is determined by the whole string. */
  lemma TailDetermined(x: string, a: string, y: string, b: string, sep: char)
    requires Free(a, sep) && Free(b, sep)
    requires x + [sep] + a == y + [sep] + b
    ensures x == y && a == b
  {
    var s := x + [sep] + a;
    assert s[|x|] == sep && s[|y|] == sep;
    assert forall i | |x| < i < |s| :: s[i] == a[i - |x| - 1];
    assert forall i | |y| < i < |s| :: s[i] == b[i - |y| - 1];
    assert x == s[..|x|] && a == s[|x| + 1..];
  }
}
