/** Python string and list semantics that the ChatRaw backend relies on:
    `str.isspace`, `str.strip`, `str.find`, `str.split(sep)`, `str.startswith`,
    `str(int)` and slicing with possibly negative bounds. Strings are sequences
    of Unicode code points, as Python's `str` is. */
module PyStr {

  /** `c.isspace()` in Python 3: the code points whose bidirectional class is
      WS, B or S, or whose category is Zs. */
  predicate IsSpace(c: char) {
    ('\t' <= c <= '\r') || ('\U{1c}' <= c <= '\U{1f}') || c == ' '
    || c == '\U{85}' || c == '\U{a0}' || c == '\U{1680}'
    || ('\U{2000}' <= c <= '\U{200a}') || c == '\U{2028}' || c == '\U{2029}'
    || c == '\U{202f}' || c == '\U{205f}' || c == '\U{3000}'
  }

  /** Every character is white space (so `s.strip() == ""`). */
  predicate Blank(s: string) {
    forall i :: 0 <= i < |s| ==> IsSpace(s[i])
  }

  /** Neither end of `s` is white space: what `strip()` returns. */
  predicate IsStripped(s: string) {
    s == [] || (!IsSpace(s[0]) && !IsSpace(s[|s| - 1]))
  }

  /** Where `lstrip()` stops, scanning from `i`: the first non-blank
      position at or after `i`, or the end. */
  function LeftEdge(s: string, i: nat): (r: nat)
    requires i <= |s|
    ensures i <= r <= |s|
    ensures forall k :: i <= k < r ==> IsSpace(s[k])
    ensures r < |s| ==> !IsSpace(s[r])
    decreases |s| - i
  {
    if i < |s| && IsSpace(s[i]) then LeftEdge(s, i + 1) else i
  }

  /** Where `rstrip()` stops, scanning back from `j` but not below `lo`: the
      position after the last non-blank character, or `lo`. */
  function RightEdge(s: string, j: nat, lo: nat): (r: nat)
    requires lo <= j <= |s|
    ensures lo <= r <= j
    ensures forall k :: r <= k < j ==> IsSpace(s[k])
    ensures r > lo ==> !IsSpace(s[r - 1])
    decreases j
  {
    if j > lo && IsSpace(s[j - 1]) then RightEdge(s, j - 1, lo) else j
  }

  /** `s.strip()`: the text between the first and the last non-blank characters. */
  function Strip(s: string): (r: string)
    ensures IsStripped(r)
    ensures r == [] <==> Blank(s)
  {
    var a := LeftEdge(s, 0);
    var b := RightEdge(s, |s|, a);
    assert b > a ==> s[a..b][0] == s[a] && s[a..b][b - a - 1] == s[b - 1];
    s[a..b]
  }

  /** `strip()` removes white space at both ends and nothing else. */
  lemma StripTrims(s: string)
    ensures exists i :: (0 <= i <= |s| - |Strip(s)| && Strip(s) == s[i..i + |Strip(s)|]
                         && Blank(s[..i]) && Blank(s[i + |Strip(s)|..]))
  {
    var a := LeftEdge(s, 0);
    var b := RightEdge(s, |s|, a);
    assert Strip(s) == s[a..b];
    assert forall k :: 0 <= k < a ==> s[..a][k] == s[k];
    assert forall k :: 0 <= k < |s| - b ==> s[b..][k] == s[b + k];
  }

  /** The text a stripped, non-blank piece `p` sits in keeps `p` at its end
      when only white space follows it. */
  lemma StripEndsWith(x: string, p: string, w: string)
    requires p != [] && IsStripped(p) && Blank(w)
    ensures var r := Strip(x + p + w); |p| <= |r| <= |x| + |p| && r[|r| - |p|..] == p
  {
    var s := x + p + w;
    var e := |x| + |p|;
    assert s[|x|] == p[0];
    assert s[e - 1] == p[|p| - 1];
    assert forall k :: e <= k < |s| ==> IsSpace(s[k]) by {
      forall k | e <= k < |s| ensures IsSpace(s[k]) { assert s[k] == w[k - e]; }
    }
    var a := LeftEdge(s, 0);
    var b := RightEdge(s, |s|, a);
    assert a <= |x|;
    assert b == e;
    assert s[a..b][b - a - |p|..] == s[|x|..e] == p;
  }

  /** Text ending in a stripped, non-blank piece and then white space strips
      to text ending in that piece. */
  lemma StripEndsWithPiece(s: string, p: string, w: string)
    requires p != [] && IsStripped(p) && Blank(w) && EndsWith(s, p + w)
    ensures EndsWith(Strip(s), p) && |Strip(s)| <= |s| - |w|
  {
    var x := s[..|s| - |p| - |w|];
    assert s == x + p + w;
    StripEndsWith(x, p, w);
  }

  /** Stripped text followed by white space strips back to itself. */
  lemma StripTrailing(p: string, w: string)
    requires p != [] && IsStripped(p) && Blank(w)
    ensures Strip(p + w) == p
  {
    assert [] + p + w == p + w;
    StripEndsWith([], p, w);
  }

  /** Stripping is idempotent. */
  lemma StripStripped(s: string)
    requires IsStripped(s)
    ensures Strip(s) == s
  {
    var a := LeftEdge(s, 0);
    assert a == 0;
    assert RightEdge(s, |s|, a) == |s|;
  }

  /** Text that has a non-blank character somewhere strips to non-empty text,
      whatever follows it. */
  lemma StripNonBlankAppend(a: string, b: string)
    requires !Blank(a)
    ensures Strip(a + b) != []
  {
    var k :| 0 <= k < |a| && !IsSpace(a[k]);
    assert (a + b)[k] == a[k];
  }

  /** `sep` occurs in `s` at position `k`. */
  predicate OccursAt(s: string, sep: string, k: int) {
    0 <= k && k + |sep| <= |s| && s[k..k + |sep|] == sep
  }

  /** `s.find(sep, i)`: the first occurrence of `sep` at or after `i`, or -1. */
  function FindFrom(s: string, sep: string, i: nat): (r: int)
    requires sep != [] && i <= |s|
    ensures r == -1 || (i <= r && OccursAt(s, sep, r))
    ensures forall k :: i <= k && (r == -1 || k < r) ==> !OccursAt(s, sep, k)
    decreases |s| - i
  {
    if i + |sep| > |s| then -1
    else if s[i..i + |sep|] == sep then i
    else FindFrom(s, sep, i + 1)
  }

  /** `s.find(sep)` */
  function Find(s: string, sep: string): (r: int)
    requires sep != []
    ensures r == -1 || OccursAt(s, sep, r)
    ensures forall k :: 0 <= k && (r == -1 || k < r) ==> !OccursAt(s, sep, k)
  {
    FindFrom(s, sep, 0)
  }

  /** `s.split(sep)` for a non-empty separator: cut at every occurrence found
      scanning left to right, occurrences not overlapping. */
  function Split(s: string, sep: string): (parts: seq<string>)
    requires sep != []
    ensures |parts| >= 1
    decreases |s|
  {
    var i := Find(s, sep);
    if i < 0 then [s] else [s[..i]] + Split(s[i + |sep|..], sep)
  }

  /** `sep.join(parts)` */
  function Join(parts: seq<string>, sep: string): string {
    if |parts| == 0 then ""
    else if |parts| == 1 then parts[0]
    else parts[0] + sep + Join(parts[1..], sep)
  }

  /** Splitting loses nothing: joining the parts back gives the text. */
  lemma {:induction false} SplitJoin(s: string, sep: string)
    requires sep != []
    ensures Join(Split(s, sep), sep) == s
    decreases |s|
  {
    var i := Find(s, sep);
    if i >= 0 {
      var rest := s[i + |sep|..];
      SplitJoin(rest, sep);
      SplitAt(s, sep, i);
      JoinCons(s[..i], Split(rest, sep), sep);
    }
  }

  /** One step of `Split`: the text before the first separator, then the rest. */
  lemma SplitAt(s: string, sep: string, i: int)
    requires sep != [] && i == Find(s, sep)
    ensures i < 0 ==> Split(s, sep) == [s]
    ensures i >= 0 ==> Split(s, sep) == [s[..i]] + Split(s[i + |sep|..], sep)
    ensures i >= 0 ==> s == s[..i] + sep + s[i + |sep|..]
  {
    if i >= 0 {
      Around(s, i, |sep|);
    }
  }

  /** A text is what comes before, at and after a window of it. */
  lemma Around(s: string, i: nat, n: nat)
    requires i + n <= |s|
    ensures s == s[..i] + s[i..i + n] + s[i + n..]
  {
  }

  lemma JoinCons(head: string, parts: seq<string>, sep: string)
    requires |parts| >= 1
    ensures Join([head] + parts, sep) == head + sep + Join(parts, sep)
  {
    assert ([head] + parts)[1..] == parts;
  }

  /** No part of a split contains the separator. */
  lemma {:induction false} SplitPartsFree(s: string, sep: string)
    requires sep != []
    ensures forall j, k :: 0 <= j < |Split(s, sep)| ==> !OccursAt(Split(s, sep)[j], sep, k)
    decreases |s|
  {
    var i := Find(s, sep);
    var parts := Split(s, sep);
    if i >= 0 {
      var rest := s[i + |sep|..];
      SplitPartsFree(rest, sep);
      var head := s[..i];
      assert parts == [head] + Split(rest, sep);
      forall j, k | 0 <= j < |parts| ensures !OccursAt(parts[j], sep, k) {
        if j == 0 {
          if 0 <= k && k + |sep| <= |head| {
            assert head[k..k + |sep|] == s[k..k + |sep|];
            assert !OccursAt(s, sep, k);
          }
        } else {
          assert parts[j] == Split(rest, sep)[j - 1];
        }
      }
    } else {
      forall j, k | 0 <= j < |parts| ensures !OccursAt(parts[j], sep, k) {
        assert parts[j] == s;
      }
    }
  }

  /** A joined text made of blank pieces and a blank separator is blank, and
      conversely every piece of a blank text is blank. */
  lemma {:induction false} JoinBlank(parts: seq<string>, sep: string)
    requires Blank(sep)
    ensures Blank(Join(parts, sep)) <==> forall j :: 0 <= j < |parts| ==> Blank(parts[j])
  {
    if |parts| > 1 {
      JoinBlank(parts[1..], sep);
      var t := Join(parts[1..], sep);
      var all := parts[0] + sep + t;
      if Blank(all) {
        forall k | 0 <= k < |parts[0]| ensures IsSpace(parts[0][k]) { assert all[k] == parts[0][k]; }
        forall k | 0 <= k < |t| ensures IsSpace(t[k]) { assert all[|parts[0]| + |sep| + k] == t[k]; }
        forall j | 0 <= j < |parts| ensures Blank(parts[j]) { if j > 0 { assert parts[j] == parts[1..][j - 1]; } }
      }
      if forall j :: 0 <= j < |parts| ==> Blank(parts[j]) {
        assert forall j :: 0 <= j < |parts| - 1 ==> parts[1..][j] == parts[j + 1];
      }
    }
  }

  /** `s.startswith(prefix)` */
  predicate StartsWith(s: string, prefix: string) {
    prefix <= s
  }

  /** `s.endswith(suffix)` */
  predicate EndsWith(s: string, suffix: string) {
    |suffix| <= |s| && s[|s| - |suffix|..] == suffix
  }

  /** `sub in s` */
  predicate Contains(s: string, sub: string) {
    exists k :: 0 <= k <= |s| && OccursAt(s, sub, k)
  }

  /** `sub in s` is what `s.find(sub) >= 0` tests. */
  lemma FindContains(s: string, sub: string)
    requires sub != []
    ensures Find(s, sub) >= 0 <==> Contains(s, sub)
  {
    if Contains(s, sub) {
      var k :| 0 <= k <= |s| && OccursAt(s, sub, k);
    }
  }

  /** Text that occurs in `s` still occurs in `s` with more text around it. */
  lemma ContainsWithin(a: string, s: string, b: string, sub: string)
    requires Contains(s, sub)
    ensures Contains(a + s + b, sub)
  {
    var k :| 0 <= k <= |s| && OccursAt(s, sub, k);
    assert (a + s + b)[|a| + k..|a| + k + |sub|] == s[k..k + |sub|];
    assert OccursAt(a + s + b, sub, |a| + k);
  }

  /** Stripping never eats into a stripped, non-blank piece of the text. */
  lemma StripKeepsContained(s: string, p: string)
    requires p != [] && IsStripped(p) && Contains(s, p)
    ensures Contains(Strip(s), p)
  {
    var k :| 0 <= k <= |s| && OccursAt(s, p, k);
    assert s[k] == p[0] && !IsSpace(s[k]);
    assert s[k + |p| - 1] == p[|p| - 1] && !IsSpace(s[k + |p| - 1]);
    var a := LeftEdge(s, 0);
    var b := RightEdge(s, |s|, a);
    assert a <= k;
    assert k + |p| <= b;
    Window(s, a, b, k, |p|);
    assert OccursAt(s[a..b], p, k - a);
  }

  /** A window of a slice is the same window of the whole text. */
  lemma Window(s: string, a: nat, b: nat, i: nat, n: nat)
    requires a <= i && i + n <= b <= |s|
    ensures s[a..b][i - a..i - a + n] == s[i..i + n]
  {
    var r := s[a..b];
    var u := r[i - a..i - a + n];
    var v := s[i..i + n];
    forall j | 0 <= j < n ensures u[j] == v[j] {
      assert u[j] == r[i - a + j] == s[i + j];
    }
  }

  /** `s[:n]` for a list or string, with Python's meaning of a negative `n`
      (count from the end) and of an `n` past the end (the whole sequence). */
  function SliceTo<T>(s: seq<T>, n: int): (r: seq<T>)
    ensures r <= s
    ensures 0 <= n ==> |r| == if n < |s| then n else |s|
    ensures n < 0 ==> |r| == if -n < |s| then |s| + n else 0
  {
    if 0 <= n then (if n < |s| then s[..n] else s)
    else if -n < |s| then s[..|s| + n] else []
  }

  /** `s[n:]` with Python's meaning of a negative `n`; note that `s[-0:]` is
      `s[0:]`, the whole sequence. */
  function SliceFrom<T>(s: seq<T>, n: int): (r: seq<T>)
    ensures |r| <= |s| && r == s[|s| - |r|..]
    ensures 0 <= n ==> |r| == if n < |s| then |s| - n else 0
    ensures n < 0 ==> |r| == if -n < |s| then -n else |s|
  {
    if 0 <= n then (if n < |s| then s[n..] else [])
    else if -n < |s| then s[|s| + n..] else s
  }

  /** A decimal digit. */
  function Digit(d: nat): char
    requires d < 10
  {
    "0123456789"[d]
  }

  /** `str(n)` for a natural number. */
  function Decimal(n: nat): (r: string)
    ensures r != []
    ensures forall k :: 0 <= k < |r| ==> '0' <= r[k] <= '9'
  {
    if n < 10 then [Digit(n)] else Decimal(n / 10) + [Digit(n % 10)]
  }

  /** `str(n)` for any integer: a minus sign before the digits of a negative number. */
  function IntString(n: int): (r: string)
    ensures r != []
    ensures n >= 0 ==> r == Decimal(n)
    ensures n < 0 ==> r[0] == '-' && r[1..] == Decimal(-n)
  {
    if n < 0 then "-" + Decimal(-n) else Decimal(n)
  }

  /** `int(s)` for a non-empty string of decimal digits. */
  function ParseDecimal(s: string): nat
    requires forall k :: 0 <= k < |s| ==> '0' <= s[k] <= '9'
  {
    if s == [] then 0
    else 10 * ParseDecimal(s[..|s| - 1]) + (s[|s| - 1] as int - '0' as int)
  }

  /** `int(str(n)) == n`: the decimal rendering is read back unchanged, so
      distinct numbers render differently. */
  lemma {:induction false} DecimalRoundTrip(n: nat)
    ensures ParseDecimal(Decimal(n)) == n
  {
    var r := Decimal(n);
    if n >= 10 {
      DecimalRoundTrip(n / 10);
      assert r[..|r| - 1] == Decimal(n / 10);
    }
  }

  /** A leading zero never appears, except in "0" itself. */
  lemma {:induction false} DecimalNoLeadingZero(n: nat)
    ensures Decimal(n)[0] == '0' <==> n == 0
  {
    if n >= 10 {
      DecimalNoLeadingZero(n / 10);
      assert Decimal(n)[0] == Decimal(n / 10)[0];
    }
  }
}
