/** The .NET string and character primitives the core relies on, restricted to
    what it uses: `string.Replace(c, "")`, `char.IsWhiteSpace`,
    `string.IsNullOrWhiteSpace` and lower-casing of ASCII letters. */
module Text {

  /** `s.Replace(c.ToString(), "")`: the characters of `s` other than `c`, in order. */
  function Without(s: string, c: char): (r: string)
    ensures |r| <= |s|
    ensures c !in r
  {
    if s == [] then [] else (if s[0] == c then [] else [s[0]]) + Without(s[1..], c)
  }

  /** Removing a character commutes with concatenation, so it keeps the order of what is kept. */
  lemma {:induction false} WithoutAppend(a: string, b: string, c: char)
    ensures Without(a + b, c) == Without(a, c) + Without(b, c)
  {
    if a == [] {
      assert a + b == b;
    } else {
      assert (a + b)[1..] == a[1..] + b;
      WithoutAppend(a[1..], b, c);
    }
  }

  /** A string without `c` is left unchanged. */
  lemma {:induction false} WithoutAbsent(s: string, c: char)
    requires c !in s
    ensures Without(s, c) == s
  {
    if s != [] {
      assert s[0] in s;
      assert forall d :: d in s[1..] ==> d in s;
      WithoutAbsent(s[1..], c);
    }
  }

  /** `char.IsWhiteSpace`: the Unicode White_Space characters, by code point. */
  predicate IsWhiteSpace(c: char)
    ensures c == ' ' || c == '\t' ==> IsWhiteSpace(c)
    ensures IsWhiteSpace(c) ==> !IsAsciiLower(c) && !IsAsciiUpper(c) && !('0' <= c <= '9')
  {
    var n := c as int;
    (0x09 <= n <= 0x0D) || n == 0x20 || n == 0x85 || n == 0xA0 || n == 0x1680
    || (0x2000 <= n <= 0x200A) || n == 0x2028 || n == 0x2029 || n == 0x202F
    || n == 0x205F || n == 0x3000
  }

  /** `string.IsNullOrWhiteSpace` on a non-null string: empty or made only of white space. */
  predicate IsNullOrWhiteSpace(s: string)
    ensures s == [] ==> IsNullOrWhiteSpace(s)
    ensures IsNullOrWhiteSpace(s) ==>
      forall i :: 0 <= i < |s| ==> !IsAsciiLower(s[i]) && !IsAsciiUpper(s[i]) && !('0' <= s[i] <= '9')
  {
    forall i :: 0 <= i < |s| ==> IsWhiteSpace(s[i])
  }

  predicate IsAsciiLower(c: char) { 'a' <= c <= 'z' }

  predicate IsAsciiUpper(c: char) { 'A' <= c <= 'Z' }

  /** Lower-casing of one character, on ASCII letters. */
  function LowerChar(c: char): (r: char)
    ensures !IsAsciiUpper(r)
    ensures IsAsciiUpper(c) ==> IsAsciiLower(r) && r as int == c as int + 32
    ensures !IsAsciiUpper(c) ==> r == c
  {
    if IsAsciiUpper(c) then (c as int + 32) as char else c
  }

  /** `ToLower()` / `ToLowerInvariant()` on a string, on ASCII letters. */
  function Lower(s: string): (r: string)
    ensures |r| == |s|
    ensures forall i :: 0 <= i < |r| ==> r[i] == LowerChar(s[i]) && !IsAsciiUpper(r[i])
  {
    seq(|s|, i requires 0 <= i < |s| => LowerChar(s[i]))
  }

  /** Lower-casing is idempotent. */
  lemma LowerIdempotent(s: string)
    ensures Lower(Lower(s)) == Lower(s)
  {
  }

  /** `string.Equals(a, b, StringComparison.OrdinalIgnoreCase)`, on ASCII letters. */
  predicate EqualsIgnoreCase(a: string, b: string)
    ensures EqualsIgnoreCase(a, b) <==>
      |a| == |b| && forall i :: 0 <= i < |a| ==> LowerChar(a[i]) == LowerChar(b[i])
  {
    Lower(a) == Lower(b)
  }
}
