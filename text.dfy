/**
 * The java.lang.String operations the services rely on: trim, blank tests,
 * case-insensitive comparison, prefix and substring search.
 * Case mapping is modelled for the ASCII letters only.
 */
module Text {

  /** `String.trim` removes every leading and trailing character whose code is at most U+0020. */
  predicate IsTrimmable(c: char) { c <= ' ' }

  /** The first index at or after `i` whose character is kept, or `|s|`. */
  function KeptFrom(s: string, i: nat): (j: nat)
    requires i <= |s|
    ensures i <= j <= |s| && (j == |s| || !IsTrimmable(s[j]))
    ensures forall k :: i <= k < j ==> IsTrimmable(s[k])
    decreases |s| - i
  {
    if i < |s| && IsTrimmable(s[i]) then KeptFrom(s, i + 1) else i
  }

  /** The end of the last kept character between `lo` and `hi`, or `lo`. */
  function KeptUntil(s: string, lo: nat, hi: nat): (j: nat)
    requires lo <= hi <= |s|
    ensures lo <= j <= hi && (j == lo || !IsTrimmable(s[j - 1]))
    ensures forall k :: j <= k < hi ==> IsTrimmable(s[k])
    decreases hi - lo
  {
    if lo < hi && IsTrimmable(s[hi - 1]) then KeptUntil(s, lo, hi - 1) else hi
  }

  /**
   * `r` is `s` with the `i` characters before it and everything after it cut away,
   * all of them trimmable, and a non-empty `r` starts and ends with a kept character.
   */
  predicate TrimmedAt(s: string, r: string, i: int) {
    0 <= i && i + |r| <= |s| && r == s[i..i + |r|]
    && (forall k :: 0 <= k < i ==> IsTrimmable(s[k]))
    && (forall k :: i + |r| <= k < |s| ==> IsTrimmable(s[k]))
    && (r == [] || (!IsTrimmable(r[0]) && !IsTrimmable(r[|r| - 1])))
  }

  /** `r` is `s` with its trimmable ends removed. */
  ghost predicate IsTrimOf(s: string, r: string) {
    exists i :: TrimmedAt(s, r, i)
  }

  /** `String.trim`: the characters from the first kept one to the last kept one. */
  function Trim(s: string): (r: string)
    ensures IsTrimOf(s, r)
  {
    var start := KeptFrom(s, 0);
    var end := KeptUntil(s, start, |s|);
    var r := s[start..end];
    assert r != [] ==> r[0] == s[start] && r[|r| - 1] == s[end - 1];
    assert TrimmedAt(s, r, start);
    r
  }

  /** `s.trim().isEmpty()`: the string holds only trimmable characters. */
  predicate IsBlank(s: string) {
    Trim(s) == []
  }

  lemma BlankIffAllTrimmable(s: string)
    ensures IsBlank(s) <==> forall k :: 0 <= k < |s| ==> IsTrimmable(s[k])
  {
    var r := Trim(s);
    if r != [] {
      var i :| TrimmedAt(s, r, i);
      assert s[i] == r[0];
    }
  }

  /** Trimming twice cuts nothing more than trimming once. */
  lemma TrimIdempotent(s: string)
    ensures Trim(Trim(s)) == Trim(s)
  {
    var r := Trim(s);
    var i :| TrimmedAt(s, r, i);
    if r != [] {
      assert KeptFrom(r, 0) == 0;
      assert KeptUntil(r, 0, |r|) == |r|;
    }
    assert r[0..|r|] == r;
  }

  /** `Character.toLowerCase` on the ASCII letters. */
  function LowerChar(c: char): (r: char)
    ensures 'A' <= c <= 'Z' ==> 'a' <= r <= 'z'
    ensures !('A' <= c <= 'Z') ==> r == c
  {
    if 'A' <= c <= 'Z' then (c as int - 'A' as int + 'a' as int) as char else c
  }

  /** `String.toLowerCase`: maps each character, keeps the length. */
  function Lower(s: string): (r: string)
    ensures |r| == |s|
    ensures forall k :: 0 <= k < |s| ==> r[k] == LowerChar(s[k])
  {
    if s == [] then [] else [LowerChar(s[0])] + Lower(s[1..])
  }

  /** `a.equalsIgnoreCase(b)` */
  predicate EqualsIgnoreCase(a: string, b: string) {
    Lower(a) == Lower(b)
  }

  /** `s.startsWith(p)` */
  predicate StartsWith(s: string, p: string) {
    |p| <= |s| && s[..|p|] == p
  }

  /** `pat` occurs in `s` at position `i`. */
  predicate OccursAt(s: string, pat: string, i: int) {
    0 <= i && i + |pat| <= |s| && s[i..i + |pat|] == pat
  }

  /** `s.contains(pat)` */
  predicate Contains(s: string, pat: string) {
    exists i :: 0 <= i <= |s| && OccursAt(s, pat, i)
  }

  /** `s.indexOf(c)`: the first position of `c`, or -1. */
  function IndexOfChar(s: string, c: char): (r: int)
    ensures -1 <= r < |s|
    ensures r == -1 <==> c !in s
    ensures r >= 0 ==> s[r] == c && c !in s[..r]
  {
    if s == [] then -1
    else if s[0] == c then 0
    else
      var k := IndexOfChar(s[1..], c);
      if k == -1 then -1 else k + 1
  }

  /** `s.substring(0, s.indexOf(c))` when `c` occurs, else `s`: the part before the first `c`. */
  function BeforeFirst(s: string, c: char): (r: string)
    ensures c !in r
    ensures StartsWith(s, r)
    ensures |r| < |s| ==> s[|r|] == c
  {
    var k := IndexOfChar(s, c);
    if k == -1 then s else s[..k]
  }

  /**
   * `a.compareTo(b) <= 0`: the first differing character decides, and a proper prefix
   * comes first.
   */
  predicate LessEq(a: string, b: string) {
    a == [] || (b != [] && (a[0] < b[0] || (a[0] == b[0] && LessEq(a[1..], b[1..]))))
  }

  /** Any two strings are ordered one way or the other. */
  lemma {:induction false} LessEqTotal(a: string, b: string)
    ensures LessEq(a, b) || LessEq(b, a)
  {
    if a != [] && b != [] && a[0] == b[0] {
      LessEqTotal(a[1..], b[1..]);
    }
  }

  /** The decimal digit for `d`. */
  function Digit(d: int): (c: char)
    requires 0 <= d < 10
    ensures '0' <= c <= '9' && c as int - '0' as int == d
  {
    ('0' as int + d) as char
  }

  /** The decimal digits of a natural number, most significant first, without leading zeros. */
  function Digits(n: nat): (r: string)
    ensures |r| >= 1 && forall k :: 0 <= k < |r| ==> '0' <= r[k] <= '9'
    ensures |r| > 1 ==> r[0] != '0'
    ensures DigitsValue(r) == n
  {
    if n < 10 then [Digit(n)]
    else
      var r := Digits(n / 10) + [Digit(n % 10)];
      DigitsValueAppend(Digits(n / 10), Digit(n % 10));
      r
  }

  /** The number a string of decimal digits stands for. */
  function DigitsValue(s: string): int {
    if s == [] then 0 else DigitsValue(s[..|s| - 1]) * 10 + (s[|s| - 1] as int - '0' as int)
  }

  lemma DigitsValueAppend(s: string, c: char)
    ensures DigitsValue(s + [c]) == DigitsValue(s) * 10 + (c as int - '0' as int)
  {
    assert (s + [c])[..|s + [c]| - 1] == s;
  }

  /** `Integer.toString` / string concatenation of an `int`: an optional minus sign, then the digits. */
  function IntToString(n: int): (r: string)
    ensures n >= 0 ==> |r| >= 1 && '0' <= r[0] <= '9' && DigitsValue(r) == n
    ensures n < 0 ==> |r| >= 2 && r[0] == '-' && DigitsValue(r[1..]) == -n
  {
    if n >= 0 then Digits(n) else "-" + Digits(-n)
  }

  /** Different numbers print differently. */
  lemma IntToStringInjective(a: int, b: int)
    requires IntToString(a) == IntToString(b)
    ensures a == b
  {
  }
}
