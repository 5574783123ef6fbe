/** String length as the browser's string type measures it.

    A Dafny `char` is a Unicode scalar value, while a JavaScript string's
    `length` counts UTF-16 code units: a character outside the Basic
    Multilingual Plane is stored as a surrogate pair and counts twice. The
    length rules of the order form are stated over this count.
 */
module Utf16 {

  /** First scalar value that needs a surrogate pair. */
  const SupplementaryStart: int := 0x1_0000

  /** Number of UTF-16 code units that encode `c`. */
  function Units(c: char): (n: nat)
    ensures n == 1 || n == 2
    ensures n == 2 <==> c as int >= SupplementaryStart
  {
    if c as int >= SupplementaryStart then 2 else 1
  }

  /** True if every character of `s` lies in the Basic Multilingual Plane. */
  predicate InBmp(s: string) {
    forall i :: 0 <= i < |s| ==> s[i] as int < SupplementaryStart
  }

  /** The value of `s.length` in JavaScript. */
  function Length(s: string): (n: nat)
    ensures |s| <= n <= 2 * |s|
    ensures n == |s| <==> InBmp(s)
    ensures n == 0 <==> s == []
  {
    if |s| == 0 then 0
    else
      var init := s[..|s| - 1];
      assert InBmp(s) <==> InBmp(init) && s[|s| - 1] as int < SupplementaryStart by {
        if InBmp(init) && s[|s| - 1] as int < SupplementaryStart {
          forall i | 0 <= i < |s| ensures s[i] as int < SupplementaryStart {
            if i < |s| - 1 { assert s[i] == init[i]; }
          }
        }
        if InBmp(s) {
          forall i | 0 <= i < |init| ensures init[i] as int < SupplementaryStart {
            assert init[i] == s[i];
          }
        }
      }
      Length(init) + Units(s[|s| - 1])
  }

  /** The length of a concatenation is the sum of the lengths. */
  lemma {:induction false} LengthAppend(a: string, b: string)
    ensures Length(a + b) == Length(a) + Length(b)
    decreases |b|
  {
    if |b| == 0 {
      assert a + b == a;
    } else {
      var b' := b[..|b| - 1];
      assert (a + b)[..|a + b| - 1] == a + b';
      assert (a + b)[|a + b| - 1] == b[|b| - 1];
      LengthAppend(a, b');
    }
  }
}
