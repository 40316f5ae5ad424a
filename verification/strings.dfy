/** The two .NET string services the controller relies on:
    `string.IsNullOrWhiteSpace` and equality under
    `StringComparison.OrdinalIgnoreCase`. A `null` string is `None`. */
module Strings {

  import opened Wrappers

  /** `char.IsWhiteSpace`: the Unicode space, line and paragraph separators
      plus the control characters U+0009..U+000D and U+0085. */
  predicate IsWhiteSpace(c: char) {
    var n := c as int;
    (0x09 <= n <= 0x0D) || n == 0x20 || n == 0x85 || n == 0xA0 || n == 0x1680
    || (0x2000 <= n <= 0x200A) || n == 0x2028 || n == 0x2029 || n == 0x202F
    || n == 0x205F || n == 0x3000
  }

  /** `string.IsNullOrWhiteSpace`: null, empty, or nothing but white space. */
  predicate IsNullOrWhiteSpace(s: Option<string>) {
    match s
    case None => true
    case Some(t) => forall i :: 0 <= i < |t| ==> IsWhiteSpace(t[i])
  }

  /** Ordinal upper-casing of one character, restricted to ASCII letters. */
  function UpperChar(c: char): (u: char)
    ensures 'a' <= c <= 'z' ==> u as int == c as int - 32
    ensures !('a' <= c <= 'z') ==> u == c
    ensures IsWhiteSpace(u) <==> IsWhiteSpace(c)
    ensures !('a' <= u <= 'z')
  {
    if 'a' <= c <= 'z' then (c as int - 32) as char else c
  }

  /** The string with every character upper-cased: no ASCII lower-case
      letter is left. */
  function Upper(s: string): (u: string)
    ensures |u| == |s|
    ensures forall i :: 0 <= i < |s| ==> u[i] == UpperChar(s[i])
    ensures forall i :: 0 <= i < |u| ==> !('a' <= u[i] <= 'z')
  {
    seq(|s|, i requires 0 <= i < |s| => UpperChar(s[i]))
  }

  /** `a.Equals(b, StringComparison.OrdinalIgnoreCase)`. */
  predicate EqualsIgnoreCase(a: string, b: string) {
    Upper(a) == Upper(b)
  }

  /** Upper-casing twice is upper-casing once. */
  lemma {:induction false} UpperIdempotent(s: string)
    ensures Upper(Upper(s)) == Upper(s)
  {
    var u := Upper(s);
    assert forall i :: 0 <= i < |u| ==> Upper(u)[i] == u[i];
  }

  /** Every string equals its own upper-cased form ignoring case. */
  lemma EqualsIgnoreCaseUpper(s: string)
    ensures EqualsIgnoreCase(s, Upper(s))
  {
    UpperIdempotent(s);
  }

  /** Equality ignoring case is an equivalence: reflexive, symmetric and
      transitive. */
  lemma EqualsIgnoreCaseEquivalence(a: string, b: string, c: string)
    ensures EqualsIgnoreCase(a, a)
    ensures EqualsIgnoreCase(a, b) ==> EqualsIgnoreCase(b, a)
    ensures EqualsIgnoreCase(a, b) && EqualsIgnoreCase(b, c) ==> EqualsIgnoreCase(a, c)
  {
  }

  /** Two strings equal ignoring case are both blank or both not. */
  lemma {:induction false} IgnoreCaseKeepsBlankness(a: string, b: string)
    requires EqualsIgnoreCase(a, b)
    ensures IsNullOrWhiteSpace(Some(a)) <==> IsNullOrWhiteSpace(Some(b))
  {
    assert |a| == |Upper(a)| == |Upper(b)| == |b|;
    forall i | 0 <= i < |a|
      ensures IsWhiteSpace(a[i]) <==> IsWhiteSpace(b[i])
    {
      assert Upper(a)[i] == Upper(b)[i];
      assert IsWhiteSpace(UpperChar(a[i])) <==> IsWhiteSpace(a[i]);
      assert IsWhiteSpace(UpperChar(b[i])) <==> IsWhiteSpace(b[i]);
    }
  }

  /** Ordinal case-insensitive equality ignores ASCII case and nothing else:
      it holds exactly when the lengths agree and each pair of characters is
      equal once upper-cased. */
  lemma {:induction false} EqualsIgnoreCaseCharwise(a: string, b: string)
    ensures EqualsIgnoreCase(a, b) <==>
            |a| == |b| && forall i :: 0 <= i < |a| ==> UpperChar(a[i]) == UpperChar(b[i])
  {
    if |a| == |b| && forall i :: 0 <= i < |a| ==> UpperChar(a[i]) == UpperChar(b[i]) {
      assert forall i :: 0 <= i < |a| ==> Upper(a)[i] == Upper(b)[i];
    }
    if EqualsIgnoreCase(a, b) {
      assert |a| == |Upper(a)|;
      forall i | 0 <= i < |a| ensures UpperChar(a[i]) == UpperChar(b[i]) {
        assert Upper(a)[i] == Upper(b)[i];
      }
    }
  }
}
