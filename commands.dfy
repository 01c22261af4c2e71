/** The command recogniser of the Python agent's try_tools: the pattern
    ^/(calc|remember|recall)\s*(.*)$ matched case-insensitively against the
    stripped message. `.` does not match a line feed, so the argument is the
    rest of the text after the whitespace that follows the name, and the match
    fails when that rest spans several lines. There is no word boundary after
    the name. */
module Commands {
  import opened Wrappers
  import opened Text

  /** The text the two groups of the pattern capture: the command name as
      written and the argument. */
  datatype Invocation = Invocation(name: string, arg: string)

  predicate IsName(s: string) {
    s == "calc" || s == "remember" || s == "recall"
  }

  /** `t` is "/", the captured name, whitespace and the captured argument. */
  predicate Reassembles(t: string, inv: Invocation) {
    var k := 1 + |inv.name|;
    k + |inv.arg| <= |t| && t[0] == '/' && t[1..k] == inv.name
    && AllSpace(t[k..|t| - |inv.arg|]) && t[|t| - |inv.arg|..] == inv.arg
  }

  /** One alternative of the pattern: the stripped text `t` is "/", then
      `name` in any case, then whitespace, then an argument without a line feed. */
  function MatchName(t: string, name: string): (r: Option<Invocation>)
    ensures r.Some? ==> Lower(r.value.name) == name
    ensures r.Some? ==> '\n' !in r.value.arg && (r.value.arg == [] || !IsSpace(r.value.arg[0]))
    ensures r.Some? ==> Reassembles(t, r.value)
  {
    if 1 + |name| <= |t| && t[0] == '/' && Lower(t[1..1 + |name|]) == name then
      var k := 1 + |name|;
      var rest := t[k..];
      var arg := TrimLeft(rest);
      if '\n' in arg then None
      else
        assert t[k..|t| - |arg|] == rest[..|rest| - |arg|];
        Some(Invocation(t[1..k], arg))
    else None
  }

  /** The match of the pattern against the stripped message, the alternatives
      tried in their order. On a match the stripped message is "/", the
      captured name, whitespace and the captured argument. */
  function Parse(message: string): (r: Option<Invocation>)
    ensures r.Some? ==> IsName(Lower(r.value.name))
    ensures r.Some? ==> '\n' !in r.value.arg && (r.value.arg == [] || !IsSpace(r.value.arg[0]))
    ensures r.Some? ==> Reassembles(Strip(message), r.value)
  {
    var t := Strip(message);
    var c := MatchName(t, "calc");
    if c.Some? then c
    else
      var m := MatchName(t, "remember");
      if m.Some? then m else MatchName(t, "recall")
  }

  /** What try_tools reads off a match: the lower-cased name and the argument. */
  function Command(message: string): (r: Option<(string, string)>)
    ensures r.None? <==> Parse(message).None?
    ensures r.Some? ==> IsName(r.value.0)
  {
    match Parse(message)
    case None => None
    case Some(inv) =>
      LowerLower(inv.name);
      Some((Lower(inv.name), inv.arg))
  }

  /** No command name is a prefix of another. */
  lemma NamesPrefixFree(m: string, n: string)
    requires IsName(m) && IsName(n) && m != n && |m| <= |n|
    ensures n[..|m|] != m
  {
    if m == "calc" {
      assert n[0] == 'r';
    } else {
      assert m == "recall" && n == "remember";
      assert n[2] != m[2];
    }
  }

  /** A text that starts with "/" and a command name, in any case, matches no
      other alternative. */
  lemma OnlyOwnName(t: string, w: string, m: string)
    requires 1 + |w| <= |t| && t[1..1 + |w|] == w
    requires IsName(Lower(w)) && IsName(m) && m != Lower(w)
    ensures MatchName(t, m).None?
  {
    if 1 + |m| <= |t| && Lower(t[1..1 + |m|]) == m {
      if |m| <= |w| {
        assert t[1..1 + |m|] == w[..|m|];
        LowerSlice(w, 0, |m|);
        NamesPrefixFree(m, Lower(w));
      } else {
        assert t[1..1 + |m|][..|w|] == w;
        LowerSlice(t[1..1 + |m|], 0, |w|);
        NamesPrefixFree(Lower(w), m);
      }
      assert false;
    }
  }

  /** A command word ends in a letter, so the whitespace after it is where
      strip and the pattern's \s* part. */
  lemma NameEndsInLetter(w: string)
    requires IsName(Lower(w))
    ensures w != [] && !IsSpace(w[|w| - 1])
  {
    var n := Lower(w);
    assert n[|n| - 1] in "crl";
  }

  /** The alternative of a command word's own name matches "/", the word and
      a rest whose argument part is on one line. */
  lemma MatchOwnName(t: string, w: string, rest: string)
    requires t == "/" + w + rest
    requires IsName(Lower(w)) && '\n' !in TrimLeft(rest)
    ensures MatchName(t, Lower(w)) == Some(Invocation(w, TrimLeft(rest)))
  {
    assert t[0] == '/';
    assert t[1..1 + |w|] == w;
    assert t[1 + |w|..] == rest;
  }

  /** The message "/", word, whitespace, argument strips to "/", word and the
      rest that follows the word. */
  lemma StripInvocation(w: string, ws: string, a: string)
    requires IsName(Lower(w)) && AllSpace(ws)
    requires a == [] || !IsSpace(a[|a| - 1])
    ensures Strip("/" + w + ws + a) == "/" + w + (if a == [] then [] else ws + a)
  {
    NameEndsInLetter(w);
    var head := "/" + w;
    assert "/" + w + ws + a == head + (ws + a);
    StripAfter(head, ws + a);
    if a == [] {
      assert ws + a == ws;
      TrimRightSpaces(ws);
    } else {
      assert TrimRight(ws + a) == ws + a;
    }
  }

  /** Parse is decided by the alternative of the command word's own name. */
  lemma ParseByOwnName(t: string, w: string, message: string)
    requires t == Strip(message)
    requires 1 + |w| <= |t| && t[1..1 + |w|] == w && IsName(Lower(w))
    ensures Parse(message) == MatchName(t, Lower(w))
  {
    var n := Lower(w);
    if n != "calc" { OnlyOwnName(t, w, "calc"); }
    if n != "remember" { OnlyOwnName(t, w, "remember"); }
    if n != "recall" { OnlyOwnName(t, w, "recall"); }
  }

  /** The converse of Parse: "/", a command name in any case, whitespace, and
      a one-line argument without surrounding whitespace is matched, and the
      groups are the name as written and the argument. */
  lemma ParseInvocation(w: string, ws: string, a: string)
    requires IsName(Lower(w)) && AllSpace(ws)
    requires '\n' !in a
    requires a == [] || (!IsSpace(a[0]) && !IsSpace(a[|a| - 1]))
    ensures Parse("/" + w + ws + a) == Some(Invocation(w, a))
  {
    var message := "/" + w + ws + a;
    StripInvocation(w, ws, a);
    var rest := if a == [] then [] else ws + a;
    var t := Strip(message);
    TrimLeftSpaces(ws, a);
    assert TrimLeft(rest) == a;
    MatchOwnName(t, w, rest);
    assert t[1..1 + |w|] == w;
    ParseByOwnName(t, w, message);
  }

  /** The case of the command word does not matter: "/RECALL foo" is read as
      "/recall foo". */
  lemma CommandIgnoresCase(w: string, rest: string)
    requires IsName(Lower(w))
    ensures Command("/" + w + rest) == Command("/" + Lower(w) + rest)
  {
    var n := Lower(w);
    LowerLower(w);
    NameEndsInLetter(w);
    NameEndsInLetter(n);
    StripAfter("/" + w, rest);
    StripAfter("/" + n, rest);
    var t1 := Strip("/" + w + rest);
    var t2 := Strip("/" + n + rest);
    assert t1 == "/" + w + TrimRight(rest);
    assert t2 == "/" + n + TrimRight(rest);
    assert t1[1..1 + |w|] == w && t2[1..1 + |n|] == n;
    ParseByOwnName(t1, w, "/" + w + rest);
    ParseByOwnName(t2, n, "/" + n + rest);
    var arg := TrimLeft(TrimRight(rest));
    if '\n' !in arg {
      MatchOwnName(t1, w, TrimRight(rest));
      MatchOwnName(t2, n, TrimRight(rest));
    } else {
      assert t1[1 + |w|..] == t2[1 + |n|..] == TrimRight(rest);
    }
  }

  /** There is no word boundary after the name: any one-line text that follows
      it directly is the argument, so "/recalled" is recall with "ed". */
  lemma NoWordBoundary(w: string, a: string)
    requires IsName(Lower(w))
    requires a != [] && !IsSpace(a[0]) && !IsSpace(a[|a| - 1]) && '\n' !in a
    ensures Command("/" + w + a) == Some((Lower(w), a))
  {
    assert "/" + w + "" + a == "/" + w + a;
    ParseInvocation(w, "", a);
  }

  /** An argument that runs over several lines makes the message no command. */
  lemma MultiLineIsNoCommand(w: string, rest: string)
    requires IsName(Lower(w))
    requires '\n' in TrimLeft(TrimRight(rest))
    ensures Command("/" + w + rest) == None
  {
    NameEndsInLetter(w);
    StripAfter("/" + w, rest);
    var t := Strip("/" + w + rest);
    assert t[1..1 + |w|] == w;
    assert t[1 + |w|..] == TrimRight(rest);
    ParseByOwnName(t, w, "/" + w + rest);
  }

  /** A slash followed by any other word is no command at all: the pattern
      captures only the three names, so such a message falls through to the
      fallback reply instead of being reported as an unknown command. */
  lemma OtherWordIsNoCommand(message: string)
    requires var t := Strip(message);
      t == [] || t[0] != '/'
      || (!StartsWith(Lower(t[1..]), "calc") && !StartsWith(Lower(t[1..]), "remember")
          && !StartsWith(Lower(t[1..]), "recall"))
    ensures Command(message).None?
  {
    var t := Strip(message);
    if t != [] && t[0] == '/' {
      NotThisName(t, "calc");
      NotThisName(t, "remember");
      NotThisName(t, "recall");
    }
  }

  lemma NotThisName(t: string, name: string)
    requires t != [] && !StartsWith(Lower(t[1..]), name)
    ensures MatchName(t, name).None?
  {
    if 1 + |name| <= |t| {
      assert t[1..1 + |name|] == t[1..][..|name|];
      LowerSlice(t[1..], 0, |name|);
    }
  }
}
