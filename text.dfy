/** The one optional-value type the model uses, for Python's `None`. */
module Common {
  datatype Option<T> = None | Some(value: T)

  /** The last element of a list, as `xs[-1] if xs else None`. */
  function LastOf<T>(xs: seq<T>): (r: Option<T>)
    ensures r.None? <==> xs == []
    ensures r.Some? ==> r.value == xs[|xs| - 1]
  {
    if xs == [] then None else Some(xs[|xs| - 1])
  }
}

/**
 * The few Python `str` operations the tunnel-session code relies on:
 * `strip`, `lower`, `startswith`, `in`, `split(sep, 1)`, `os.path.basename`
 * and decimal formatting of integers.
 */
module Text {
  import opened Common

  /** The characters Python's `str.isspace()` accepts; `strip()` and `split()` cut on these. */
  predicate IsSpace(c: char) {
    || ('\t' <= c <= '\r')
    || ('\U{1C}' <= c <= '\U{1F}')
    || c == ' '
    || c == '\U{85}'
    || c == '\U{A0}'
    || c == '\U{1680}'
    || ('\U{2000}' <= c <= '\U{200A}')
    || c == '\U{2028}'
    || c == '\U{2029}'
    || c == '\U{202F}'
    || c == '\U{205F}'
    || c == '\U{3000}'
  }

  /** `s.lstrip()`: drop the leading whitespace. */
  function StripLeft(s: string): string {
    if |s| > 0 && IsSpace(s[0]) then StripLeft(s[1..]) else s
  }

  /** `s.rstrip()`: drop the trailing whitespace. */
  function StripRight(s: string): string {
    if |s| > 0 && IsSpace(s[|s| - 1]) then StripRight(s[..|s| - 1]) else s
  }

  /** `s.strip()`. */
  function Strip(s: string): string {
    StripRight(StripLeft(s))
  }

  /** `lstrip` keeps the suffix of `s` after its maximal run of leading whitespace. */
  lemma {:induction false} StripLeftShape(s: string)
    ensures |StripLeft(s)| <= |s| && StripLeft(s) == s[|s| - |StripLeft(s)|..]
    ensures |StripLeft(s)| > 0 ==> !IsSpace(StripLeft(s)[0])
    ensures forall i :: 0 <= i < |s| - |StripLeft(s)| ==> IsSpace(s[i])
  {
    if |s| > 0 && IsSpace(s[0]) {
      StripLeftShape(s[1..]);
    }
  }

  /** `rstrip` keeps the prefix of `s` before its maximal run of trailing whitespace. */
  lemma {:induction false} StripRightShape(s: string)
    ensures |StripRight(s)| <= |s| && StripRight(s) == s[..|StripRight(s)|]
    ensures |StripRight(s)| > 0 ==> !IsSpace(StripRight(s)[|StripRight(s)| - 1])
    ensures forall i :: |StripRight(s)| <= i < |s| ==> IsSpace(s[i])
  {
    if |s| > 0 && IsSpace(s[|s| - 1]) {
      StripRightShape(s[..|s| - 1]);
    }
  }

  /** `strip` leaves no whitespace at either end. */
  lemma StripShape(s: string)
    ensures |Strip(s)| <= |s|
    ensures |Strip(s)| > 0 ==> !IsSpace(Strip(s)[0]) && !IsSpace(Strip(s)[|Strip(s)| - 1])
  {
    StripLeftShape(s);
    StripRightShape(StripLeft(s));
    var l := StripLeft(s);
    var r := StripRight(l);
    if |r| > 0 {
      assert r[0] == l[0];
    }
  }

  /** Stripping never drops a character that is not whitespace. */
  lemma StripKeeps(s: string, i: nat)
    requires i < |s| && !IsSpace(s[i])
    ensures s[i] in Strip(s)
  {
    StripLeftShape(s);
    var l := StripLeft(s);
    StripRightShape(l);
    var k := i - (|s| - |l|);
    assert 0 <= k < |l| && l[k] == s[i];
    var r := StripRight(l);
    assert k < |r| && r[k] == l[k];
  }

  predicate AllSpace(s: string) {
    forall i :: 0 <= i < |s| ==> IsSpace(s[i])
  }

  lemma {:induction false} StripLeftAllSpace(w: string)
    requires AllSpace(w)
    ensures StripLeft(w) == ""
  {
    if |w| > 0 {
      StripLeftAllSpace(w[1..]);
    }
  }

  /** Leading whitespace makes no difference to `lstrip`. */
  lemma {:induction false} StripLeftSpaces(w: string, x: string)
    requires AllSpace(w)
    ensures StripLeft(w + x) == StripLeft(x)
  {
    if |w| > 0 {
      assert (w + x)[0] == w[0] && IsSpace(w[0]);
      assert (w + x)[1..] == w[1..] + x;
      StripLeftSpaces(w[1..], x);
    } else {
      assert w + x == x;
    }
  }

  /** Trailing whitespace makes no difference to `rstrip`. */
  lemma {:induction false} StripRightSpaces(x: string, w: string)
    requires AllSpace(w)
    ensures StripRight(x + w) == StripRight(x)
  {
    if |w| > 0 {
      var n := |w| - 1;
      assert (x + w)[|x + w| - 1] == w[n] && IsSpace(w[n]);
      assert (x + w)[..|x + w| - 1] == x + w[..n];
      StripRightSpaces(x, w[..n]);
    } else {
      assert x + w == x;
    }
  }

  lemma {:induction false} StripTrailingSpaces(x: string, w: string)
    requires AllSpace(w)
    ensures Strip(x + w) == Strip(x)
  {
    if |x| == 0 {
      assert x + w == w;
      StripLeftAllSpace(w);
    } else if IsSpace(x[0]) {
      assert (x + w)[1..] == x[1..] + w;
      StripTrailingSpaces(x[1..], w);
    } else {
      StripRightSpaces(x, w);
    }
  }

  /** Whitespace around a string makes no difference to `strip`. */
  lemma StripAround(w1: string, x: string, w2: string)
    requires AllSpace(w1) && AllSpace(w2)
    ensures Strip(w1 + x + w2) == Strip(x)
  {
    assert w1 + x + w2 == w1 + (x + w2);
    StripLeftSpaces(w1, x + w2);
    StripTrailingSpaces(x, w2);
  }

  /** `strip` cuts a run of whitespace from each end and keeps the middle. */
  lemma StripSplit(s: string) returns (p: nat)
    ensures p + |Strip(s)| <= |s| && s == s[..p] + Strip(s) + s[p + |Strip(s)|..]
    ensures AllSpace(s[..p]) && AllSpace(s[p + |Strip(s)|..])
  {
    var l := StripLeft(s);
    StripLeftShape(s);
    p := |s| - |l|;
    var r := StripRight(l);
    StripRightShape(l);
    var q := p + |r|;
    assert s[p..] == l;
    assert s[p..q] == r by { assert l[..|r|] == r; }
    assert s[q..] == l[|r|..];
    assert s == s[..p] + s[p..q] + s[q..];
    assert AllSpace(s[..p]) by {
      forall i | 0 <= i < p ensures IsSpace(s[..p][i]) { assert s[..p][i] == s[i]; }
    }
    assert AllSpace(s[q..]) by {
      forall i | 0 <= i < |s| - q ensures IsSpace(s[q..][i]) { assert s[q..][i] == l[|r| + i]; }
    }
  }

  /** A character that is not whitespace occurs in a string exactly when it occurs in its strip. */
  lemma NonSpaceInStrip(s: string, c: char)
    requires !IsSpace(c)
    ensures c in s <==> c in Strip(s)
  {
    var p := StripSplit(s);
    var t := Strip(s);
    if c in s {
      var i :| 0 <= i < |s| && s[i] == c;
      StripKeeps(s, i);
    }
    if c in t {
      var j :| 0 <= j < |t| && t[j] == c;
      assert s[p + j] == c;
    }
  }

  /** A string free of whitespace is its own strip. */
  lemma StripNoSpace(s: string)
    requires forall i :: 0 <= i < |s| ==> !IsSpace(s[i])
    ensures Strip(s) == s
  {
  }

  /** Python's `lower()` on one character, for the ASCII letters. */
  function LowerChar(c: char): (r: char)
    ensures 'A' <= c <= 'Z' ==> 'a' <= r <= 'z'
    ensures !('A' <= c <= 'Z') ==> r == c
  {
    if 'A' <= c <= 'Z' then (c as int - 'A' as int + 'a' as int) as char else c
  }

  /** `s.lower()`, character by character. */
  function Lower(s: string): (r: string)
    ensures |r| == |s|
    ensures forall i :: 0 <= i < |s| ==> r[i] == LowerChar(s[i])
  {
    seq(|s|, i requires 0 <= i < |s| => LowerChar(s[i]))
  }

  /** `s.startswith(p)`. */
  predicate StartsWith(s: string, p: string) {
    |p| <= |s| && s[..|p|] == p
  }

  /** `s.endswith(p)`. */
  predicate EndsWith(s: string, p: string) {
    |p| <= |s| && s[|s| - |p|..] == p
  }

  predicate OccursAt(text: string, pat: string, i: nat) {
    i + |pat| <= |text| && text[i..i + |pat|] == pat
  }

  /** `pat in text` for strings: `pat` is a substring of `text`. */
  predicate Contains(text: string, pat: string) {
    exists i: nat :: i <= |text| && OccursAt(text, pat, i)
  }

  /** `s.find(c)`: the first position of `c` in `s`, if any. */
  function FirstIndex(s: string, c: char): (r: Option<nat>)
    ensures r.None? <==> c !in s
    ensures r.Some? ==> r.value < |s| && s[r.value] == c && c !in s[..r.value]
  {
    if |s| == 0 then None
    else if s[0] == c then Some(0)
    else match FirstIndex(s[1..], c)
      case None => None
      case Some(k) => assert s[..k + 1] == [s[0]] + s[1..][..k]; Some(k + 1)
  }

  /** `s.rfind(c)`: the last position of `c` in `s`, if any. */
  function LastIndex(s: string, c: char): (r: Option<nat>)
    ensures r.None? <==> c !in s
    ensures r.Some? ==> r.value < |s| && s[r.value] == c && c !in s[r.value + 1..]
  {
    if |s| == 0 then None
    else if s[|s| - 1] == c then Some(|s| - 1)
    else
      var pre := s[..|s| - 1];
      match LastIndex(pre, c)
      case None => assert s == pre + [s[|s| - 1]]; None
      case Some(k) => assert s[k + 1..] == pre[k + 1..] + [s[|s| - 1]]; Some(k)
  }

  /** `s.split(sep, 1)` when `sep` occurs in `s`: the text before and after its first occurrence. */
  function SplitOnce(s: string, sep: char): (r: Option<(string, string)>)
    ensures r.None? <==> sep !in s
    ensures r.Some? ==> s == r.value.0 + [sep] + r.value.1 && sep !in r.value.0
  {
    match FirstIndex(s, sep)
    case None => None
    case Some(i) => assert s == s[..i] + [sep] + s[i + 1..]; Some((s[..i], s[i + 1..]))
  }

  /** Splitting at the first separator takes apart a string built around one. */
  lemma SplitOnceAt(a: string, sep: char, b: string)
    requires sep !in a
    ensures SplitOnce(a + [sep] + b, sep) == Some((a, b))
  {
    var s := a + [sep] + b;
    assert s[|a|] == sep;
    assert s[..|a|] == a && s[|a| + 1..] == b;
  }

  /** A character missing from `text` rules out every pattern holding it. */
  lemma MissingCharNotContained(text: string, pat: string, c: char)
    requires c in pat && c !in text
    ensures !Contains(text, pat)
  {
    var k :| 0 <= k < |pat| && pat[k] == c;
    forall i: nat | i <= |text|
      ensures !OccursAt(text, pat, i)
    {
      if i + |pat| <= |text| {
        assert text[i..i + |pat|][k] == text[i + k];
      }
    }
  }

  /** `os.path.basename(path)` on POSIX: what follows the last `/`. */
  function Basename(path: string): string {
    match LastIndex(path, '/')
    case None => path
    case Some(i) => path[i + 1..]
  }

  /** The basename is the part of the path after its last `/`, and holds no `/`. */
  lemma BasenameShape(path: string)
    ensures '/' !in Basename(path)
    ensures EndsWith(path, Basename(path))
    ensures |Basename(path)| < |path| ==> path[|path| - |Basename(path)| - 1] == '/'
  {
  }

  /** The basename of `dir/n` is `n` when `n` holds no `/`. */
  lemma BasenameAfterSlash(dir: string, n: string)
    requires '/' !in n
    ensures Basename(dir + "/" + n) == n
  {
    var path := dir + "/" + n;
    assert path[|dir|] == '/';
    var i := LastIndex(path, '/').value;
    assert path[|dir| + 1..] == n;
  }

  /** A suffix without `/` survives `basename`. */
  lemma BasenameKeepsSuffix(path: string, suffix: string)
    requires EndsWith(path, suffix) && '/' !in suffix
    ensures EndsWith(Basename(path), suffix)
  {
    BasenameShape(path);
    var b := Basename(path);
    assert b[|b| - |suffix|..] == path[|path| - |suffix|..];
  }

  predicate IsDigit(c: char) {
    '0' <= c <= '9'
  }

  function DigitValue(c: char): nat
    requires IsDigit(c)
  {
    c as int - '0' as int
  }

  predicate AllDigits(s: string) {
    forall i :: 0 <= i < |s| ==> IsDigit(s[i])
  }

  /** The value of a decimal numeral, with Python's `_` digit separators skipped. */
  function DecimalValue(s: string): nat
    requires forall i :: 0 <= i < |s| ==> IsDigit(s[i]) || s[i] == '_'
  {
    if |s| == 0 then 0
    else if s[|s| - 1] == '_' then DecimalValue(s[..|s| - 1])
    else 10 * DecimalValue(s[..|s| - 1]) + DigitValue(s[|s| - 1])
  }

  function DigitChar(d: nat): (c: char)
    requires d < 10
    ensures IsDigit(c) && DigitValue(c) == d
  {
    ('0' as int + d) as char
  }

  /** `str(n)` for a natural number: its decimal numeral without leading zeros. */
  function NatToString(n: nat): (r: string)
    ensures |r| > 0 && AllDigits(r)
    ensures |r| > 1 ==> r[0] != '0'
    ensures DecimalValue(r) == n
  {
    if n < 10 then [DigitChar(n)]
    else
      var r := NatToString(n / 10) + [DigitChar(n % 10)];
      assert r[..|r| - 1] == NatToString(n / 10);
      r
  }

  /** `sep.join(parts)`. */
  function Join(sep: string, parts: seq<string>): string {
    if |parts| == 0 then ""
    else if |parts| == 1 then parts[0]
    else parts[0] + sep + Join(sep, parts[1..])
  }
}
