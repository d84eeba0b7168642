/** NUL-terminated byte strings, as the key/value engines store and compare them. */
module CStrings {

  /** A byte of a C string before its terminator. */
  type Byte = b: int | 1 <= b < 256 witness 1

  type CString = seq<Byte>

  /** The byte `strcmp` reads at the start of `s`: the terminator when `s` is exhausted. */
  function Lead(s: CString): int {
    if s == [] then 0 else s[0]
  }

  /** The sign convention of `strcmp`: the difference of the first two bytes that differ. */
  function Strcmp(a: CString, b: CString): int
    decreases |a|
  {
    if Lead(a) != Lead(b) then Lead(a) - Lead(b)
    else if a == [] then 0
    else Strcmp(a[1..], b[1..])
  }

  predicate Less(a: CString, b: CString) {
    Strcmp(a, b) < 0
  }

  lemma {:induction false} StrcmpZeroIsEquality(a: CString, b: CString)
    ensures Strcmp(a, b) == 0 <==> a == b
    decreases |a|
  {
    if Lead(a) == Lead(b) && a != [] {
      StrcmpZeroIsEquality(a[1..], b[1..]);
      assert a == [a[0]] + a[1..] && b == [b[0]] + b[1..];
    }
  }

  lemma {:induction false} StrcmpAntisymmetric(a: CString, b: CString)
    ensures Strcmp(a, b) == -Strcmp(b, a)
    decreases |a|
  {
    if Lead(a) == Lead(b) && a != [] {
      StrcmpAntisymmetric(a[1..], b[1..]);
    }
  }

  lemma {:induction false} LessTransitive(a: CString, b: CString, c: CString)
    requires Less(a, b) && Less(b, c)
    ensures Less(a, c)
    decreases |a|
  {
    if Lead(a) == Lead(b) == Lead(c) && a != [] {
      LessTransitive(a[1..], b[1..], c[1..]);
    }
  }

  /** `strcmp` orders C strings totally: exactly one of less, equal and greater holds. */
  lemma Trichotomy(a: CString, b: CString)
    ensures Less(a, b) <==> Strcmp(b, a) > 0
    ensures Less(b, a) <==> Strcmp(a, b) > 0
    ensures a == b <==> !Less(a, b) && !Less(b, a)
    ensures !(Less(a, b) && Less(b, a))
  {
    StrcmpAntisymmetric(a, b);
    StrcmpZeroIsEquality(a, b);
  }
}
