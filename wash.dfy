/**
 * Line-break washing (afsmtp_wash_string in modules/afsmtp/afsmtp.c).
 *
 * A C string lives in a character buffer and ends at the first NUL character;
 * here a buffer is an `array<char>` (or its contents, a `string`) and the string
 * it holds is the part before the first NUL, or all of it when it has none.
 */
module Wash {

  /** A C string as a caller hands it over: its characters, with no NUL among them. */
  type CString = s: string | '\0' !in s witness ""

  /** No line feed and no carriage return anywhere in `s`. */
  predicate LineBreakFree(s: string)
  {
    forall k :: 0 <= k < |s| ==> s[k] != '\n' && s[k] != '\r'
  }

  /** strlen: the number of characters before the first NUL of the buffer `s`. */
  function StrLen(s: string): (n: nat)
    ensures n <= |s|
    ensures forall k :: 0 <= k < n ==> s[k] != '\0'
    ensures n < |s| ==> s[n] == '\0'
  {
    if |s| == 0 || s[0] == '\0' then 0 else 1 + StrLen(s[1..])
  }

  /** A buffer with no NUL in it holds a C string that fills the whole buffer. */
  lemma StrLenOfCString(s: CString)
    ensures StrLen(s) == |s|
  {
  }

  /** Two buffers of one length with their NULs at the same places have the same strlen. */
  lemma StrLenSameNuls(s: string, t: string)
    requires |s| == |t|
    requires forall k :: 0 <= k < |s| ==> (s[k] == '\0' <==> t[k] == '\0')
    ensures StrLen(s) == StrLen(t)
  {
  }

  /** What the wash does to one character. */
  function WashChar(c: char): char
  {
    if c == '\n' || c == '\r' then ' ' else c
  }

  /**
   * The buffer `s` after washing: every line feed and carriage return before the
   * terminating NUL has become a space, and nothing else differs.
   */
  function Washed(s: string): (r: string)
    ensures |r| == |s|
    ensures StrLen(r) == StrLen(s)
    ensures forall k :: 0 <= k < StrLen(s) ==> r[k] != '\n' && r[k] != '\r'
    ensures forall k :: 0 <= k < StrLen(s) && (s[k] == '\n' || s[k] == '\r') ==> r[k] == ' '
    ensures forall k :: 0 <= k < |s| && s[k] != '\n' && s[k] != '\r' ==> r[k] == s[k]
    ensures forall k :: StrLen(s) <= k < |s| ==> r[k] == s[k]
  {
    var r := seq(|s|, k requires 0 <= k < |s| => if k < StrLen(s) then WashChar(s[k]) else s[k]);
    StrLenSameNuls(s, r);
    r
  }

  /** Washing twice is washing once. */
  lemma {:induction false} WashedIdempotent(s: string)
    ensures Washed(Washed(s)) == Washed(s)
  {
    var w := Washed(s);
    forall k | 0 <= k < |s|
      ensures Washed(w)[k] == w[k]
    {
      if k < StrLen(s) {
        assert w[k] != '\n' && w[k] != '\r';
      }
    }
  }

  /** Washing a C string leaves a C string of the same length with no line break in it. */
  lemma WashedCString(s: CString)
    ensures |Washed(s)| == |s|
    ensures '\0' !in Washed(s)
    ensures LineBreakFree(Washed(s))
  {
    StrLenOfCString(s);
    StrLenOfCString(Washed(s));
  }

  /**
   * afsmtp_wash_string: overwrite, in place, every '\n' and '\r' of the C string
   * held in `a` with ' '. As in the source, the loop bound is the string's
   * current strlen, taken again before every step.
   */
  method WashString(a: array<char>)
    modifies a
    ensures a[..] == Washed(old(a[..]))
  {
    var i := 0;
    while i < StrLen(a[..])
      invariant StrLen(a[..]) == StrLen(old(a[..]))
      invariant 0 <= i <= StrLen(a[..])
      invariant forall k :: 0 <= k < i ==> a[k] == WashChar(old(a[k]))
      invariant forall k :: i <= k < a.Length ==> a[k] == old(a[k])
    {
      if a[i] == '\n' || a[i] == '\r' {
        a[i] := ' ';
      }
      i := i + 1;
      StrLenSameNuls(old(a[..]), a[..]);
    }
  }
}
