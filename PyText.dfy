/**
 * The few Python string operations the installer relies on, written out so that
 * their behaviour is visible to the verifier: `str.lower()` (ASCII letters only),
 * the substring test `a in b`, `str.startswith`, `str.endswith`, `str.split()`
 * with no argument, `str.split("-")[0]` and `str.replace(".", "")`, plus the
 * decimal rendering of a natural number used by an f-string.
 */
module PyText {

  // ---------------------------------------------------------------- case

  function LowerChar(c: char): (r: char)
    ensures 'A' <= c <= 'Z' ==> r as int == c as int + 32
    ensures !('A' <= c <= 'Z') ==> r == c
  {
    if 'A' <= c <= 'Z' then (c as int + 32) as char else c
  }

  predicate IsLower(s: string) {
    forall i :: 0 <= i < |s| ==> !('A' <= s[i] <= 'Z')
  }

  /** `s.lower()`, restricted to the ASCII letters. */
  function Lower(s: string): (r: string)
    ensures |r| == |s|
    ensures forall i :: 0 <= i < |s| ==> r[i] == LowerChar(s[i])
    ensures IsLower(r)
  {
    if s == [] then [] else [LowerChar(s[0])] + Lower(s[1..])
  }

  /** Lower-casing twice is lower-casing once. */
  lemma LowerIdempotent(s: string)
    ensures Lower(Lower(s)) == Lower(s)
  {
    var l := Lower(s);
    assert forall i :: 0 <= i < |l| ==> LowerChar(l[i]) == l[i];
  }

  /** Text without upper-case letters is its own lower-case form. */
  lemma LowerOfLower(s: string)
    requires IsLower(s)
    ensures Lower(s) == s
  {
    assert forall i :: 0 <= i < |s| ==> Lower(s)[i] == s[i];
  }

  // ---------------------------------------------------------- substrings

  /** `needle` occurs in `hay` starting at index `i`. */
  predicate OccursAt(hay: string, needle: string, i: int) {
    0 <= i <= |hay| - |needle| && hay[i..i + |needle|] == needle
  }

  /** Python's `needle in hay` on strings; the empty needle occurs everywhere. */
  predicate Contains(hay: string, needle: string) {
    exists i :: 0 <= i <= |hay| && OccursAt(hay, needle, i)
  }

  /** Occurrence is transitive: a substring of a substring is a substring. */
  lemma ContainsTransitive(a: string, b: string, c: string)
    requires Contains(b, a) && Contains(c, b)
    ensures Contains(c, a)
  {
    var i :| 0 <= i <= |b| && OccursAt(b, a, i);
    var j :| 0 <= j <= |c| && OccursAt(c, b, j);
    assert c[j + i..j + i + |a|] == a by {
      forall k | 0 <= k < |a|
        ensures c[j + i..j + i + |a|][k] == a[k]
      {
        assert c[j + i + k] == b[i + k];
      }
    }
    assert OccursAt(c, a, j + i);
  }

  /** An occurrence at a known position, for concrete proofs. */
  lemma ContainsAt(hay: string, needle: string, i: nat)
    requires i + |needle| <= |hay| && hay[i..i + |needle|] == needle
    ensures Contains(hay, needle)
  {
    assert OccursAt(hay, needle, i);
  }

  /** `*first*second*` as a glob: `first` occurs, and `second` occurs after it ends. */
  predicate ContainsThen(s: string, first: string, second: string) {
    exists k :: 0 <= k <= |s| && Contains(s[..k], first) && Contains(s[k..], second)
  }

  lemma ContainsThenBoth(s: string, first: string, second: string)
    requires ContainsThen(s, first, second)
    ensures Contains(s, first) && Contains(s, second)
  {
    var k :| 0 <= k <= |s| && Contains(s[..k], first) && Contains(s[k..], second);
    var i :| 0 <= i <= k && OccursAt(s[..k], first, i);
    assert s[i..i + |first|] == s[..k][i..i + |first|];
    assert OccursAt(s, first, i);
    var j :| 0 <= j <= |s| - k && OccursAt(s[k..], second, j);
    assert s[k + j..k + j + |second|] == s[k..][j..j + |second|];
    assert OccursAt(s, second, k + j);
  }

  predicate StartsWith(s: string, prefix: string) {
    |prefix| <= |s| && s[..|prefix|] == prefix
  }

  predicate EndsWith(s: string, suffix: string) {
    |suffix| <= |s| && s[|s| - |suffix|..] == suffix
  }

  // ------------------------------------------------------------ splitting

  /** The characters Python's `str.isspace()` accepts, which `str.split()` splits on. */
  predicate IsSpace(c: char) {
    || '\t' <= c <= '\r'
    || '\U{1C}' <= c <= ' '
    || c == '\U{85}' || c == '\U{A0}' || c == '\U{1680}'
    || '\U{2000}' <= c <= '\U{200A}'
    || c == '\U{2028}' || c == '\U{2029}' || c == '\U{202F}' || c == '\U{205F}' || c == '\U{3000}'
  }

  predicate NoSpace(s: string) {
    forall i :: 0 <= i < |s| ==> !IsSpace(s[i])
  }

  /** The longest prefix of `s` that holds no whitespace. */
  function Word(s: string): (w: string)
    ensures |w| <= |s| && w == s[..|w|]
    ensures NoSpace(w)
    ensures |w| < |s| ==> IsSpace(s[|w|])
  {
    if s == [] || IsSpace(s[0]) then [] else [s[0]] + Word(s[1..])
  }

  /** `s.split()`: the maximal runs of non-whitespace characters, in order. */
  function Tokens(s: string): (ts: seq<string>)
    ensures forall k :: 0 <= k < |ts| ==> ts[k] != [] && NoSpace(ts[k])
    decreases |s|
  {
    if s == [] then []
    else if IsSpace(s[0]) then Tokens(s[1..])
    else
      var w := Word(s);
      [w] + Tokens(s[|w|..])
  }

  /** A word followed by whitespace or by the end of the text is read whole. */
  lemma WordOfWordThen(w: string, rest: string)
    requires NoSpace(w)
    requires rest == [] || IsSpace(rest[0])
    ensures Word(w + rest) == w
    decreases |w|
  {
    if w == [] {
    } else {
      assert (w + rest)[1..] == w[1..] + rest;
      WordOfWordThen(w[1..], rest);
    }
  }

  /** A non-empty word followed by whitespace or the end is the first token. */
  lemma {:induction false} TokensOfWordThen(w: string, rest: string)
    requires w != [] && NoSpace(w)
    requires rest == [] || IsSpace(rest[0])
    ensures Tokens(w + rest) == [w] + Tokens(rest)
  {
    WordOfWordThen(w, rest);
    assert (w + rest)[|w|..] == rest;
  }

  /** Leading whitespace is skipped. */
  lemma TokensSkipSpace(c: char, t: string)
    requires IsSpace(c)
    ensures Tokens([c] + t) == Tokens(t)
  {
    assert ([c] + t)[1..] == t;
  }

  /** Only whitespace: what `str.strip()` turns into the empty string. */
  predicate IsBlank(s: string) {
    forall i :: 0 <= i < |s| ==> IsSpace(s[i])
  }

  /** `s.split()` is empty exactly when `s` is blank. */
  lemma {:induction false} TokensEmptyIffBlank(s: string)
    ensures Tokens(s) == [] <==> IsBlank(s)
    decreases |s|
  {
    if s != [] && IsSpace(s[0]) {
      TokensEmptyIffBlank(s[1..]);
      assert IsBlank(s) <==> IsBlank(s[1..]) by {
        if IsBlank(s[1..]) {
          forall i | 0 <= i < |s| ensures IsSpace(s[i]) {
            if i > 0 { assert s[i] == s[1..][i - 1]; }
          }
        }
      }
    }
  }

  /** Any run of leading whitespace is skipped. */
  lemma {:induction false} TokensSkipBlank(lead: string, t: string)
    requires IsBlank(lead)
    ensures Tokens(lead + t) == Tokens(t)
    decreases |lead|
  {
    if lead != [] {
      calc {
        Tokens(lead + t);
        { assert lead + t == [lead[0]] + (lead[1..] + t); }
        Tokens([lead[0]] + (lead[1..] + t));
        { TokensSkipSpace(lead[0], lead[1..] + t); }
        Tokens(lead[1..] + t);
        { TokensSkipBlank(lead[1..], t); }
        Tokens(t);
      }
    } else {
      assert lead + t == t;
    }
  }

  /**
   * How `split()` takes a text apart: after optional leading whitespace, a
   * maximal non-whitespace run is the first token, and splitting goes on
   * after it. With TokensEmptyIffBlank this determines `split()` on every text.
   */
  lemma {:induction false} TokensOfLeadWord(lead: string, w: string, rest: string)
    requires IsBlank(lead)
    requires w != [] && NoSpace(w)
    requires rest == [] || IsSpace(rest[0])
    ensures Tokens(lead + w + rest) == [w] + Tokens(rest)
  {
    assert lead + w + rest == lead + (w + rest);
    TokensSkipBlank(lead, w + rest);
    TokensOfWordThen(w, rest);
  }

  // ------------------------------------------------------------ replacing

  /** `s.replace(c, "")`: every occurrence of `c` dropped. */
  function Without(s: string, c: char): (r: string)
    ensures |r| <= |s|
    ensures forall i :: 0 <= i < |r| ==> r[i] != c
    ensures (forall i :: 0 <= i < |s| ==> s[i] != c) ==> r == s
  {
    if s == [] then [] else (if s[0] == c then [] else [s[0]]) + Without(s[1..], c)
  }

  /** `replace` works piecewise: with WithoutSingle this fixes the result on every text. */
  lemma {:induction false} WithoutAppend(a: string, b: string, c: char)
    ensures Without(a + b, c) == Without(a, c) + Without(b, c)
    decreases |a|
  {
    if a == [] {
      assert a + b == b;
    } else {
      assert (a + b)[1..] == a[1..] + b;
      WithoutAppend(a[1..], b, c);
    }
  }

  /** One character is dropped when it is `c` and kept otherwise. */
  lemma WithoutSingle(x: char, c: char)
    ensures Without([x], c) == (if x == c then [] else [x])
  {
  }

  /** `s.split(sep)[0]`: the text before the first `sep`, or all of it. */
  function Before(s: string, sep: char): (r: string)
    ensures |r| <= |s| && r == s[..|r|]
    ensures sep !in r
    ensures |r| < |s| ==> s[|r|] == sep
  {
    if s == [] || s[0] == sep then [] else [s[0]] + Before(s[1..], sep)
  }

  // ------------------------------------------------------------- numbers

  predicate IsDigits(s: string) {
    forall i :: 0 <= i < |s| ==> '0' <= s[i] <= '9'
  }

  /** `str(n)` for a natural number. */
  function Decimal(n: nat): (r: string)
    ensures r != [] && IsDigits(r)
  {
    if n < 10 then [(n + '0' as int) as char]
    else Decimal(n / 10) + [(n % 10 + '0' as int) as char]
  }
}
