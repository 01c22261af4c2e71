/** String helpers behind the agent's text handling: ASCII approximations of
    Python's str.strip / str.lower, substring search (`in`), non-overlapping
    left-to-right replacement (str.replace and Go's strings.ReplaceAll) and
    separator joining (str.join). */
module Text {

  /** The ASCII characters for which Python's str.isspace holds; they are also
      what the regex class \s matches in that range. */
  predicate IsSpace(c: char) {
    c == ' ' || ('\t' <= c <= '\r') || ('\U{1C}' <= c <= '\U{1F}')
  }

  predicate AllSpace(s: string) {
    forall i :: 0 <= i < |s| ==> IsSpace(s[i])
  }

  predicate StartsWith(s: string, prefix: string) {
    |prefix| <= |s| && s[..|prefix|] == prefix
  }

  predicate EndsWith(s: string, suffix: string) {
    |suffix| <= |s| && s[|s| - |suffix|..] == suffix
  }

  /** `sub in s` of Python: some position of `s` starts with `sub`. */
  predicate Contains(s: string, sub: string)
    decreases |s|
  {
    StartsWith(s, sub) || (|s| > 0 && Contains(s[1..], sub))
  }

  /** Every text contains itself. */
  lemma ContainsSelf(s: string)
    ensures Contains(s, s)
  {
    assert s[..|s|] == s;
  }

  /** The number of whitespace characters `s` starts with. */
  function LeadingSpaces(s: string): (k: nat)
    ensures k <= |s| && (k == |s| || !IsSpace(s[k]))
    ensures forall i :: 0 <= i < k ==> IsSpace(s[i])
    decreases |s|
  {
    if |s| > 0 && IsSpace(s[0]) then
      var k := 1 + LeadingSpaces(s[1..]);
      assert forall i :: 1 <= i < k ==> s[i] == s[1..][i - 1];
      k
    else 0
  }

  /** The length of `s` without the whitespace it ends with. */
  function TrailingStart(s: string): (k: nat)
    ensures k <= |s| && (k == 0 || !IsSpace(s[k - 1]))
    ensures forall i :: k <= i < |s| ==> IsSpace(s[i])
    decreases |s|
  {
    if |s| > 0 && IsSpace(s[|s| - 1]) then
      var k := TrailingStart(s[..|s| - 1]);
      assert forall i :: k <= i < |s| - 1 ==> s[i] == s[..|s| - 1][i];
      k
    else |s|
  }

  /** Drops leading whitespace: the result is a suffix of `s`, what was cut is
      all whitespace, and the result does not start with whitespace. */
  function TrimLeft(s: string): (r: string)
    ensures |r| <= |s| && r == s[|s| - |r|..]
    ensures AllSpace(s[..|s| - |r|])
    ensures r == [] || !IsSpace(r[0])
  {
    s[LeadingSpaces(s)..]
  }

  /** Drops trailing whitespace: the result is a prefix of `s`, what was cut is
      all whitespace, and the result does not end with whitespace. */
  function TrimRight(s: string): (r: string)
    ensures |r| <= |s| && r == s[..|r|]
    ensures AllSpace(s[|r|..])
    ensures r == [] || !IsSpace(r[|r| - 1])
  {
    s[..TrailingStart(s)]
  }

  /** str.strip(): `s` is whitespace, then the result, then whitespace. */
  function Strip(s: string): (r: string)
    ensures var k := |s| - |TrimLeft(s)|;
      k + |r| <= |s| && r == s[k..k + |r|] && AllSpace(s[..k]) && AllSpace(s[k + |r|..])
    ensures r == [] || (!IsSpace(r[0]) && !IsSpace(r[|r| - 1]))
  {
    var k := LeadingSpaces(s);
    var t := s[k..];
    var r := t[..TrailingStart(t)];
    assert r == s[k..k + |r|];
    assert t[|r|..] == s[k + |r|..];
    TrimRight(t)
  }

  function LowerChar(c: char): char {
    if 'A' <= c <= 'Z' then (c as int + 32) as char else c
  }

  /** str.lower() on ASCII letters; every other character is kept. */
  function Lower(s: string): (r: string)
    ensures |r| == |s|
  {
    seq(|s|, i requires 0 <= i < |s| => LowerChar(s[i]))
  }

  /** Python's str.replace / Go's strings.ReplaceAll for a non-empty pattern:
      occurrences are found left to right and do not overlap. */
  function ReplaceAll(s: string, pattern: string, replacement: string): string
    requires |pattern| > 0
    decreases |s|
  {
    if |s| < |pattern| then s
    else if s[..|pattern|] == pattern then replacement + ReplaceAll(s[|pattern|..], pattern, replacement)
    else [s[0]] + ReplaceAll(s[1..], pattern, replacement)
  }

  /** sep.join(parts) */
  function Join(parts: seq<string>, sep: string): string
    decreases |parts|
  {
    if parts == [] then ""
    else if |parts| == 1 then parts[0]
    else Join(parts[..|parts| - 1], sep) + sep + parts[|parts| - 1]
  }

  lemma {:induction false} ContainsSuffix(s: string, suffix: string)
    requires EndsWith(s, suffix)
    ensures Contains(s, suffix)
    decreases |s|
  {
    if |s| > |suffix| {
      assert s[1..][|s| - 1 - |suffix|..] == s[|s| - |suffix|..];
      ContainsSuffix(s[1..], suffix);
    } else {
      assert s[..|suffix|] == s;
    }
  }

  /** The last part of a join is what the joined text ends with. */
  lemma JoinEndsWithLast(parts: seq<string>, sep: string)
    requires parts != []
    ensures EndsWith(Join(parts, sep), parts[|parts| - 1])
  {
    var j := Join(parts, sep);
    var last := parts[|parts| - 1];
    if |parts| > 1 {
      assert j == (Join(parts[..|parts| - 1], sep) + sep) + last;
    }
    assert j[|j| - |last|..] == last;
  }

  /** A text without the pattern is left as it is by ReplaceAll. */
  lemma {:induction false} ReplaceAllAbsent(s: string, pattern: string, replacement: string)
    requires |pattern| > 0
    requires !Contains(s, pattern)
    ensures ReplaceAll(s, pattern, replacement) == s
    decreases |s|
  {
    if |s| >= |pattern| {
      assert s[..|pattern|] != pattern;
      ReplaceAllAbsent(s[1..], pattern, replacement);
      assert [s[0]] + s[1..] == s;
    }
  }

  /** Lowering is idempotent. */
  lemma LowerLower(s: string)
    ensures Lower(Lower(s)) == Lower(s)
  {
  }

  /** Lowering commutes with taking a slice. */
  lemma LowerSlice(s: string, i: nat, j: nat)
    requires i <= j <= |s|
    ensures Lower(s[i..j]) == Lower(s)[i..j]
  {
  }

  /** Trailing whitespace after a text that ends in a non-space character
      belongs to the part that is trimmed. */
  lemma {:induction false} TrimRightAfter(a: string, b: string)
    requires a != [] && !IsSpace(a[|a| - 1])
    ensures TrimRight(a + b) == a + TrimRight(b)
    decreases |b|
  {
    if b == [] {
      assert a + b == a;
    } else if IsSpace(b[|b| - 1]) {
      assert (a + b)[..|a + b| - 1] == a + b[..|b| - 1];
      TrimRightAfter(a, b[..|b| - 1]);
    }
  }

  /** A text that starts and ends with non-space characters is stripped only of
      what trails it. */
  lemma StripAfter(a: string, b: string)
    requires a != [] && !IsSpace(a[0]) && !IsSpace(a[|a| - 1])
    ensures Strip(a + b) == a + TrimRight(b)
  {
    assert TrimLeft(a + b) == a + b;
    TrimRightAfter(a, b);
  }

  /** Leading whitespace in front of a text that starts with a non-space
      character is exactly what TrimLeft removes. */
  lemma {:induction false} TrimLeftSpaces(ws: string, a: string)
    requires AllSpace(ws)
    requires a == [] || !IsSpace(a[0])
    ensures TrimLeft(ws + a) == a
    decreases |ws|
  {
    if ws == [] {
      assert ws + a == a;
    } else {
      assert (ws + a)[1..] == ws[1..] + a;
      TrimLeftSpaces(ws[1..], a);
    }
  }

  /** A text that is all whitespace trims to nothing. */
  lemma TrimRightSpaces(ws: string)
    requires AllSpace(ws)
    ensures TrimRight(ws) == []
  {
  }

  /** ReplaceAll passes over a leading part in which no occurrence of the
      pattern starts. */
  lemma {:induction false} ReplaceAllSkips(x: string, y: string, pattern: string, replacement: string)
    requires |pattern| > 0
    requires forall i :: 0 <= i < |x| ==> !StartsWith((x + y)[i..], pattern)
    ensures ReplaceAll(x + y, pattern, replacement) == x + ReplaceAll(y, pattern, replacement)
    decreases |x|
  {
    var s := x + y;
    if x == [] {
      assert s == y;
    } else if |s| < |pattern| {
      assert ReplaceAll(y, pattern, replacement) == y;
    } else {
      assert !StartsWith(s[0..], pattern) && s[0..] == s;
      assert s[1..] == x[1..] + y;
      forall i | 0 <= i < |x[1..]|
        ensures !StartsWith((x[1..] + y)[i..], pattern)
      {
        assert (x[1..] + y)[i..] == s[i + 1..];
      }
      ReplaceAllSkips(x[1..], y, pattern, replacement);
      assert [s[0]] + x[1..] == x;
    }
  }

  /** ReplaceAll passes over a leading part in which the pattern's first
      character does not occur. */
  lemma ReplaceAllSkipsChars(x: string, y: string, pattern: string, replacement: string)
    requires |pattern| > 0
    requires forall i :: 0 <= i < |x| ==> x[i] != pattern[0]
    ensures ReplaceAll(x + y, pattern, replacement) == x + ReplaceAll(y, pattern, replacement)
  {
    forall i | 0 <= i < |x|
      ensures !StartsWith((x + y)[i..], pattern)
    {
      assert (x + y)[i..][0] == x[i];
    }
    ReplaceAllSkips(x, y, pattern, replacement);
  }
}
