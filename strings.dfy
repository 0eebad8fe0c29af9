/** The JavaScript string operations the service relies on, over `seq<char>`:
    `trim`, `indexOf`/`lastIndexOf` of one character, `includes`, `startsWith`,
    `join`, `split` on one character, and the decimal rendering of a count. */
module Strings {

  import opened Wrappers

  /** The characters `String.prototype.trim` removes: ECMAScript WhiteSpace
      and LineTerminator code points. */
  predicate IsJsWhitespace(c: char) {
    c == ' ' || c == '\t' || c == '\n' || c == '\r' || c == '\U{000B}' || c == '\U{000C}'
    || c == '\U{00A0}' || c == '\U{1680}' || ('\U{2000}' <= c <= '\U{200A}')
    || c == '\U{2028}' || c == '\U{2029}' || c == '\U{202F}' || c == '\U{205F}'
    || c == '\U{3000}' || c == '\U{FEFF}'
  }

  function TrimStart(s: string): (r: string)
    ensures |r| <= |s| && r == s[|s| - |r|..]
    ensures |r| > 0 ==> !IsJsWhitespace(r[0])
    ensures forall i | 0 <= i < |s| - |r| :: IsJsWhitespace(s[i])
  {
    if |s| > 0 && IsJsWhitespace(s[0]) then TrimStart(s[1..]) else s
  }

  function TrimEnd(s: string): (r: string)
    ensures |r| <= |s| && r == s[..|r|]
    ensures |r| > 0 ==> !IsJsWhitespace(r[|r| - 1])
    ensures forall i | |r| <= i < |s| :: IsJsWhitespace(s[i])
  {
    if |s| > 0 && IsJsWhitespace(s[|s| - 1]) then TrimEnd(s[..|s| - 1]) else s
  }

  /** `s.trim()`: `s` without its leading and trailing white space; what is
      left neither starts nor ends with white space. */
  function Trim(s: string): (r: string)
    ensures r <= s[|s| - |TrimStart(s)|..]
    ensures |r| > 0 ==> !IsJsWhitespace(r[0]) && !IsJsWhitespace(r[|r| - 1])
  {
    var t := TrimStart(s);
    var r := TrimEnd(t);
    assert r <= s[|s| - |t|..];
    r
  }

  /** `trim` keeps a slice of `s` (a prefix of what follows the leading
      white space), and everything cut off at either end is white space. */
  lemma TrimCutsWhitespace(s: string)
    ensures var i := |s| - |TrimStart(s)|; var r := Trim(s);
      && r <= s[i..]
      && (forall k | 0 <= k < i :: IsJsWhitespace(s[k]))
      && (forall k | i + |r| <= k < |s| :: IsJsWhitespace(s[k]))
  {
    TrimDropsTrailing(s);
  }

  lemma TrimDropsTrailing(s: string)
    ensures forall k | |s| - |TrimStart(s)| + |Trim(s)| <= k < |s| :: IsJsWhitespace(s[k])
  {
    var t := TrimStart(s);
    assert |Trim(s)| == |TrimEnd(t)|;
    TrimEndInside(s, t);
  }

  /** What `TrimEnd` removes from a suffix `t` of `s` is white space of `s`. */
  lemma TrimEndInside(s: string, t: string)
    requires |t| <= |s| && t == s[|s| - |t|..]
    ensures forall k | |s| - |t| + |TrimEnd(t)| <= k < |s| :: IsJsWhitespace(s[k])
  {
    var i := |s| - |t|;
    forall k | i + |TrimEnd(t)| <= k < |s| ensures IsJsWhitespace(s[k]) {
      assert s[k] == t[k - i];
    }
  }

  /** `s.indexOf(c)`: the first position of `c`, or -1. */
  function IndexOf(s: string, c: char): (r: int)
    ensures -1 <= r < |s|
    ensures r == -1 <==> forall j | 0 <= j < |s| :: s[j] != c
    ensures r >= 0 ==> s[r] == c && forall j | 0 <= j < r :: s[j] != c
  {
    if |s| == 0 then -1
    else if s[0] == c then 0
    else
      var k := IndexOf(s[1..], c);
      if k == -1 then -1 else k + 1
  }

  /** `s.lastIndexOf(c)`: the last position of `c`, or -1. */
  function LastIndexOf(s: string, c: char): (r: int)
    ensures -1 <= r < |s|
    ensures r == -1 <==> forall j | 0 <= j < |s| :: s[j] != c
    ensures r >= 0 ==> s[r] == c && forall j | r < j < |s| :: s[j] != c
  {
    if |s| == 0 then -1
    else if s[|s| - 1] == c then |s| - 1
    else LastIndexOf(s[..|s| - 1], c)
  }

  /** `s.startsWith(p)` */
  predicate StartsWith(s: string, p: string) {
    p <= s
  }

  /** `s.endsWith(p)` */
  predicate EndsWith(s: string, p: string) {
    |p| <= |s| && s[|s| - |p|..] == p
  }

  /** `s.includes(sub)`: some position of `s` starts an occurrence of `sub`. */
  predicate Contains(s: string, sub: string)
    decreases |s|
  {
    sub <= s || (|s| > 0 && Contains(s[1..], sub))
  }

  /** An occurrence of `sub` at position `i` makes `s.includes(sub)` true. */
  lemma {:induction false} ContainsAt(s: string, sub: string, i: nat)
    requires i + |sub| <= |s| && s[i..i + |sub|] == sub
    ensures Contains(s, sub)
  {
    if i > 0 {
      assert s[1..][i - 1..i - 1 + |sub|] == s[i..i + |sub|];
      ContainsAt(s[1..], sub, i - 1);
    }
  }

  /** An occurrence in `b` is an occurrence in `a + b`. */
  lemma {:induction false} ContainsShift(a: string, b: string, sub: string)
    requires Contains(b, sub)
    ensures Contains(a + b, sub)
    decreases |a|
  {
    if |a| > 0 {
      assert (a + b)[1..] == a[1..] + b;
      ContainsShift(a[1..], b, sub);
    } else {
      assert a + b == b;
    }
  }

  /** A character of `sub` that `s` lacks rules out `s.includes(sub)`. */
  lemma {:induction false} NotContainsByChar(s: string, sub: string, c: char)
    requires c in sub && c !in s
    ensures !Contains(s, sub)
    decreases |s|
  {
    var k := IndexOf(sub, c);
    if k < |s| {
      assert s[k] != sub[k];
    }
    assert !(sub <= s);
    if |s| > 0 {
      NotContainsByChar(s[1..], sub, c);
    }
  }

  /** `xs.join(sep)` */
  function Join(xs: seq<string>, sep: string): (r: string)
    ensures |xs| == 0 ==> r == ""
    ensures |xs| >= 1 ==> StartsWith(r, xs[0])
    ensures |xs| == 1 ==> r == xs[0]
  {
    if |xs| == 0 then ""
    else if |xs| == 1 then xs[0]
    else xs[0] + sep + Join(xs[1..], sep)
  }

  /** Joining two non-empty lists puts one separator between their joins:
      together with the one-piece case, this fixes the joined text
      completely. */
  lemma {:induction false} JoinAppend(xs: seq<string>, ys: seq<string>, sep: string)
    requires |xs| >= 1 && |ys| >= 1
    ensures Join(xs + ys, sep) == Join(xs, sep) + sep + Join(ys, sep)
    decreases |xs|
  {
    var all := xs + ys;
    if |xs| == 1 {
      assert all[1..] == ys;
    } else {
      assert all[1..] == xs[1..] + ys;
      JoinAppend(xs[1..], ys, sep);
      var a, b := Join(xs[1..], sep), Join(ys, sep);
      calc {
        Join(all, sep);
        xs[0] + sep + Join(xs[1..] + ys, sep);
        xs[0] + sep + (a + sep + b);
        (xs[0] + sep + a) + sep + b;
        Join(xs, sep) + sep + b;
      }
    }
  }

  /** An occurrence in `a` is an occurrence in `a + b`. */
  lemma {:induction false} ContainsExtend(a: string, b: string, sub: string)
    requires Contains(a, sub)
    ensures Contains(a + b, sub)
    decreases |a|
  {
    if sub <= a {
      assert (a + b)[..|sub|] == a[..|sub|];
    } else {
      assert (a + b)[1..] == a[1..] + b;
      ContainsExtend(a[1..], b, sub);
    }
  }

  /** Every piece occurs in the joined text. */
  lemma {:induction false} JoinContains(xs: seq<string>, sep: string, k: nat)
    requires k < |xs|
    ensures Contains(Join(xs, sep), xs[k])
  {
    if |xs| > 1 {
      var rest := Join(xs[1..], sep);
      assert Join(xs, sep) == xs[0] + sep + rest;
      if k == 0 {
        assert xs[0] + sep + rest == xs[0] + (sep + rest);
        ContainsExtend(xs[0], sep + rest, xs[0]);
      } else {
        JoinContains(xs[1..], sep, k - 1);
        ContainsShift(xs[0] + sep, rest, xs[k]);
      }
    }
  }

  /** `s.split(c)` for a one-character separator: the pieces between the
      occurrences of `c`, always at least one. */
  function Split(s: string, c: char): (r: seq<string>)
    ensures |r| >= 1
    ensures forall k | 0 <= k < |r| :: c !in r[k]
    decreases |s|
  {
    var i := IndexOf(s, c);
    if i < 0 then [s]
    else
      var rest := Split(s[i + 1..], c);
      assert forall j | 0 <= j < i :: s[..i][j] != c;
      [s[..i]] + rest
  }

  /** Splitting undoes joining, when no piece contains the separator. */
  lemma {:induction false} SplitJoin(xs: seq<string>, c: char)
    requires |xs| >= 1
    requires forall k | 0 <= k < |xs| :: c !in xs[k]
    ensures Split(Join(xs, [c]), c) == xs
  {
    if |xs| > 1 {
      var rest := Join(xs[1..], [c]);
      var s := xs[0] + [c] + rest;
      assert s[|xs[0]|] == c;
      assert s[..|xs[0]|] == xs[0];
      var i := IndexOf(s, c);
      assert i == |xs[0]|;
      assert s[i + 1..] == rest;
      SplitJoin(xs[1..], c);
    }
  }

  /** The piece at `k` of `s.split(c)`, or None past the last one (in
      JavaScript, `undefined`). */
  function SplitPart(s: string, c: char, k: nat): Option<string> {
    var parts := Split(s, c);
    if k < |parts| then Some(parts[k]) else None
  }

  function DigitChar(d: nat): char
    requires d < 10
  {
    ('0' as int + d) as char
  }

  predicate IsDigit(c: char) {
    '0' <= c <= '9'
  }

  /** The number a run of decimal digits denotes, most significant first. */
  function DigitsValue(s: string): nat
    requires forall k | 0 <= k < |s| :: IsDigit(s[k])
  {
    if |s| == 0 then 0
    else
      assert IsDigit(s[|s| - 1]);
      DigitsValue(s[..|s| - 1]) * 10 + (s[|s| - 1] as int - '0' as int)
  }

  /** The decimal rendering of a count (`${n}` in a template literal): the
      digits of `n`, with no leading zero unless `n` is zero. */
  function NatToString(n: nat): (r: string)
    ensures |r| >= 1
    ensures forall k | 0 <= k < |r| :: IsDigit(r[k])
    ensures DigitsValue(r) == n
    ensures r[0] == '0' ==> n == 0 && |r| == 1
  {
    if n < 10 then [DigitChar(n)]
    else
      var r := NatToString(n / 10) + [DigitChar(n % 10)];
      assert r[..|r| - 1] == NatToString(n / 10);
      r
  }

  /** `\w` of a JavaScript regular expression without the `u` flag. */
  predicate IsWordChar(c: char) {
    ('a' <= c <= 'z') || ('A' <= c <= 'Z') || ('0' <= c <= '9') || c == '_'
  }

  /** The class `[\w.-]` used for GitHub owner and repository names. */
  predicate IsNameChar(c: char) {
    IsWordChar(c) || c == '.' || c == '-'
  }

  /** A lower-case hexadecimal digit, `[a-f0-9]`. */
  predicate IsLowerHex(c: char) {
    ('0' <= c <= '9') || ('a' <= c <= 'f')
  }

  /** Every character of `s` is a lower-case hexadecimal digit. */
  function AllLowerHex(s: string): (b: bool)
    ensures b <==> forall i | 0 <= i < |s| :: IsLowerHex(s[i])
  {
    |s| == 0 || (IsLowerHex(s[0]) && AllLowerHex(s[1..]))
  }

  /** Every character of `s` is in `[\w.-]`. */
  predicate AllNameChars(s: string) {
    forall i | 0 <= i < |s| :: IsNameChar(s[i])
  }

  /** The length of the longest prefix of `s` made of `[\w.-]` characters. */
  function NameRun(s: string): (n: nat)
    ensures n <= |s| && AllNameChars(s[..n])
    ensures n < |s| ==> !IsNameChar(s[n])
  {
    if |s| == 0 || !IsNameChar(s[0]) then 0
    else
      var k := NameRun(s[1..]);
      assert s[..k + 1] == [s[0]] + s[1..][..k];
      k + 1
  }
}
