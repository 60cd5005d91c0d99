/**
 * String helpers shared by the components: JavaScript's notion of white space,
 * `trim`, ASCII upper/lower casing, `includes`, `startsWith` and the `x || d`
 * fallback applied to an optional string.
 */
module Text {
  import opened Wrappers

  /** The characters JavaScript counts as white space (WhiteSpace and
      LineTerminator): the set that both `String.prototype.trim` and the
      regular-expression class `\s` use. */
  predicate IsSpace(c: char) {
    || c == '\t' || c == '\n' || c == '\U{000B}' || c == '\U{000C}' || c == '\r'
    || c == ' ' || c == '\U{00A0}' || c == '\U{1680}'
    || ('\U{2000}' <= c <= '\U{200A}')
    || c == '\U{2028}' || c == '\U{2029}' || c == '\U{202F}' || c == '\U{205F}'
    || c == '\U{3000}' || c == '\U{FEFF}'
  }

  predicate AllSpace(s: string) {
    forall i :: 0 <= i < |s| ==> IsSpace(s[i])
  }

  /** Neither end of `s` is white space. */
  predicate IsTrimmed(s: string) {
    s == [] || (!IsSpace(s[0]) && !IsSpace(s[|s| - 1]))
  }

  /** The first index at or after `i` whose character is not white space, or `|s|`. */
  function SkipSpace(s: string, i: nat): (k: nat)
    requires i <= |s|
    ensures i <= k <= |s|
    ensures forall j :: i <= j < k ==> IsSpace(s[j])
    ensures k < |s| ==> !IsSpace(s[k])
    decreases |s| - i
  {
    if i < |s| && IsSpace(s[i]) then SkipSpace(s, i + 1) else i
  }

  /** The index just past the last character before `j` that is not white space, or 0. */
  function SkipSpaceBack(s: string, j: nat): (k: nat)
    requires j <= |s|
    ensures k <= j
    ensures forall i :: k <= i < j ==> IsSpace(s[i])
    ensures 0 < k ==> !IsSpace(s[k - 1])
  {
    if 0 < j && IsSpace(s[j - 1]) then SkipSpaceBack(s, j - 1) else j
  }

  /** The leading run of white space is determined by where it stops. */
  lemma SkipSpaceUnique(s: string, k: nat)
    requires k <= |s|
    requires forall j :: 0 <= j < k ==> IsSpace(s[j])
    requires k < |s| ==> !IsSpace(s[k])
    ensures SkipSpace(s, 0) == k
  {
  }

  /** The trailing run of white space is determined by where it starts. */
  lemma SkipSpaceBackUnique(s: string, k: nat)
    requires k <= |s|
    requires forall i :: k <= i < |s| ==> IsSpace(s[i])
    requires 0 < k ==> !IsSpace(s[k - 1])
    ensures SkipSpaceBack(s, |s|) == k
  {
  }

  /** `s` without its leading white space. */
  function TrimStart(s: string): (r: string)
    ensures |r| <= |s| && r == s[|s| - |r|..]
    ensures AllSpace(s[..|s| - |r|])
    ensures r == [] || !IsSpace(r[0])
  {
    s[SkipSpace(s, 0)..]
  }

  /** `s` without its trailing white space. */
  function TrimEnd(s: string): (r: string)
    ensures |r| <= |s| && r == s[..|r|]
    ensures AllSpace(s[|r|..])
    ensures r == [] || !IsSpace(r[|r| - 1])
  {
    s[..SkipSpaceBack(s, |s|)]
  }

  /** `String.prototype.trim`: the infix of `s` left once the white space at
      both ends is removed. */
  function Trim(s: string): (r: string)
    ensures |r| <= |s|
    ensures IsTrimmed(r)
    ensures r == [] <==> AllSpace(s)
    ensures exists i, j :: 0 <= i <= j <= |s| && r == s[i..j] && AllSpace(s[..i]) && AllSpace(s[j..])
  {
    var t := TrimStart(s);
    assert t == [] ==> AllSpace(s) by {
      if t == [] { assert s[..|s|] == s; }
    }
    var r := TrimEnd(t);
    var i := |s| - |t|;
    var j := i + |r|;
    assert r == s[i..j];
    assert s[j..] == t[|r|..];
    r
  }

  lemma TrimStartOfTrimmed(s: string)
    requires IsTrimmed(s)
    ensures TrimStart(s) == s
  {
    SkipSpaceUnique(s, 0);
  }

  lemma TrimEndOfTrimmed(s: string)
    requires IsTrimmed(s)
    ensures TrimEnd(s) == s
  {
    SkipSpaceBackUnique(s, |s|);
  }

  /** Trimming twice is trimming once. */
  lemma TrimIdempotent(s: string)
    ensures Trim(Trim(s)) == Trim(s)
  {
    var r := Trim(s);
    TrimStartOfTrimmed(r);
    TrimEndOfTrimmed(r);
  }

  /** Leading white space never reaches what `TrimStart` returns. */
  lemma TrimStartSkipsSpace(a: string, s: string)
    requires AllSpace(a)
    ensures TrimStart(a + s) == TrimStart(s)
  {
    var k := SkipSpace(s, 0);
    forall j | 0 <= j < |a| + k
      ensures IsSpace((a + s)[j])
    {
      if j >= |a| { assert (a + s)[j] == s[j - |a|]; }
    }
    if |a| + k < |a + s| {
      assert (a + s)[|a| + k] == s[k];
    }
    SkipSpaceUnique(a + s, |a| + k);
    assert (a + s)[|a| + k..] == s[k..];
  }

  /** Once `s` holds a character that is not white space, what follows it is kept whole. */
  lemma TrimStartKeepsTail(s: string, b: string)
    requires !AllSpace(s)
    ensures TrimStart(s + b) == TrimStart(s) + b
  {
    var k := SkipSpace(s, 0);
    assert k < |s|;
    forall j | 0 <= j < k
      ensures IsSpace((s + b)[j])
    {
      assert (s + b)[j] == s[j];
    }
    assert (s + b)[k] == s[k];
    SkipSpaceUnique(s + b, k);
    assert (s + b)[k..] == s[k..] + b;
  }

  /** Trailing white space never reaches what `TrimEnd` returns. */
  lemma TrimEndSkipsSpace(s: string, b: string)
    requires AllSpace(b)
    ensures TrimEnd(s + b) == TrimEnd(s)
  {
    var k := SkipSpaceBack(s, |s|);
    forall i | k <= i < |s + b|
      ensures IsSpace((s + b)[i])
    {
      if i < |s| { assert (s + b)[i] == s[i]; } else { assert (s + b)[i] == b[i - |s|]; }
    }
    if 0 < k {
      assert (s + b)[k - 1] == s[k - 1];
    }
    SkipSpaceBackUnique(s + b, k);
    assert (s + b)[..k] == s[..k];
  }

  /** White space added at either end never changes what `trim` returns. */
  lemma TrimIgnoresPadding(a: string, s: string, b: string)
    requires AllSpace(a) && AllSpace(b)
    ensures Trim(a + s + b) == Trim(s)
  {
    assert a + s + b == a + (s + b);
    TrimStartSkipsSpace(a, s + b);
    if AllSpace(s) {
      assert AllSpace(s + b);
      assert Trim(s + b) == [];
    } else {
      TrimStartKeepsTail(s, b);
      TrimEndSkipsSpace(TrimStart(s), b);
    }
  }

  /** ASCII upper-casing of one character; every other character is kept. */
  function Upper(c: char): (u: char)
    ensures 'a' <= c <= 'z' ==> 'A' <= u <= 'Z'
    ensures !('a' <= c <= 'z') ==> u == c
  {
    if 'a' <= c <= 'z' then (c as int - 32) as char else c
  }

  /** ASCII lower-casing of one character; every other character is kept. */
  function Lower(c: char): (l: char)
    ensures 'A' <= c <= 'Z' ==> 'a' <= l <= 'z'
    ensures !('A' <= c <= 'Z') ==> l == c
  {
    if 'A' <= c <= 'Z' then (c as int + 32) as char else c
  }

  /** `toUpperCase` with ASCII case mapping: same length, character by character. */
  function UpperStr(s: string): (r: string)
    ensures |r| == |s|
    ensures forall i :: 0 <= i < |s| ==> r[i] == Upper(s[i])
  {
    seq(|s|, i requires 0 <= i < |s| => Upper(s[i]))
  }

  /** `toLowerCase` with ASCII case mapping: same length, character by character. */
  function LowerStr(s: string): (r: string)
    ensures |r| == |s|
    ensures forall i :: 0 <= i < |s| ==> r[i] == Lower(s[i])
  {
    seq(|s|, i requires 0 <= i < |s| => Lower(s[i]))
  }

  /** `s.startsWith(prefix)`. */
  predicate StartsWith(s: string, prefix: string) {
    |prefix| <= |s| && s[..|prefix|] == prefix
  }

  /** `sub` occurs in `s` starting at offset `k`. */
  predicate OccursAt(s: string, sub: string, k: int) {
    0 <= k && k + |sub| <= |s| && s[k..k + |sub|] == sub
  }

  /** `s.includes(sub)`: `sub` occurs in `s` at some offset. */
  predicate Contains(s: string, sub: string) {
    exists k :: 0 <= k <= |s| - |sub| && OccursAt(s, sub, k)
  }

  /** JavaScript truthiness of an optional string: present and non-empty. */
  predicate Truthy(o: Option<string>) {
    o.Some? && o.value != ""
  }

  /** `o || d` on an optional string: `d` stands in for a missing or empty `o`. */
  function Or(o: Option<string>, d: string): (r: string)
    ensures Truthy(o) ==> r == o.value
    ensures !Truthy(o) ==> r == d
  {
    if Truthy(o) then o.value else d
  }

  /** The first `n` characters of `s`, or all of them when `s` is shorter
      (`slice(0, n)` and `substring(0, n)` for a non-negative `n`). */
  function Take(s: string, n: nat): (r: string)
    ensures |r| == if |s| < n then |s| else n
    ensures r == s[..|r|]
  {
    if |s| < n then s else s[..n]
  }

  /** `s.charAt(0)`: the first character as a string, or "" for "". */
  function FirstChar(s: string): (r: string)
    ensures |r| <= 1
    ensures s != [] ==> r == [s[0]]
    ensures s == [] ==> r == []
  {
    if s == [] then "" else [s[0]]
  }

  function Min(a: nat, b: nat): nat { if a <= b then a else b }

  /** `s.slice(from, to)` for non-negative bounds: both are clamped to the length,
      and a range that ends before it starts is empty. */
  function Slice(s: string, from: nat, to: nat): (r: string)
    ensures Min(from, |s|) <= Min(to, |s|) ==> r == s[Min(from, |s|)..Min(to, |s|)]
    ensures Min(from, |s|) > Min(to, |s|) ==> r == []
  {
    var a := Min(from, |s|);
    var b := Min(to, |s|);
    if a <= b then s[a..b] else []
  }

  lemma ContainsSelf(s: string)
    ensures Contains(s, s)
  {
    assert OccursAt(s, s, 0);
  }

  lemma LongerNotContained(s: string, sub: string)
    requires |sub| > |s|
    ensures !Contains(s, sub)
  {
  }

  /** A trailing space never changes what `trim` returns. */
  lemma TrimIgnoresTrailingSpace(s: string)
    ensures Trim(s + " ") == Trim(s)
  {
    assert AllSpace(" ") && AllSpace("");
    TrimIgnoresPadding("", s, " ");
    assert "" + s + " " == s + " ";
  }
}
