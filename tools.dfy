/** The three slash-command tools of the Python agent: the calculator, the
    note-taking `remember` and the note search `recall`. The state they touch
    (the notes) is passed in; the class in module Agent owns it. */
module Tools {
  import opened Text
  import opened Memory
  import opened Numbers

  const CALC_ERROR := "Calc error: "
  const RECALL_MAX := 5
  const NO_MEMORY := "No memory found."
  const RECALL_HEADER := "Recent memory:\n"

  // ---------------------------------------------------------------- calc

  /** The characters the calculator lets through to the evaluator: digits,
      the operators + - * /, parentheses, the dot and the space character. */
  predicate CalcChar(c: char) {
    ('0' <= c <= '9') || c in "+-*/(). "
  }

  predicate CalcSafe(s: string) {
    forall i :: 0 <= i < |s| ==> CalcChar(s[i])
  }

  /** Deletes every character that is not a calculator character. */
  function Sanitize(expr: string): (r: string)
    ensures CalcSafe(r)
    ensures |r| <= |expr|
    decreases |expr|
  {
    if expr == [] then []
    else (if CalcChar(expr[0]) then [expr[0]] else []) + Sanitize(expr[1..])
  }

  /** A text made of calculator characters only is not changed. */
  lemma {:induction false} SanitizeKeepsSafe(s: string)
    requires CalcSafe(s)
    ensures Sanitize(s) == s
    decreases |s|
  {
    if s != [] {
      assert CalcSafe(s[1..]);
      SanitizeKeepsSafe(s[1..]);
      assert [s[0]] + s[1..] == s;
    }
  }

  /** Sanitizing twice is sanitizing once. */
  lemma SanitizeIdempotent(expr: string)
    ensures Sanitize(Sanitize(expr)) == Sanitize(expr)
  {
    SanitizeKeepsSafe(Sanitize(expr));
  }

  /** Sanitizing works character by character and keeps the order of what it
      keeps. */
  lemma {:induction false} SanitizeAppend(a: string, b: string)
    ensures Sanitize(a + b) == Sanitize(a) + Sanitize(b)
    decreases |a|
  {
    if a == [] {
      assert a + b == b;
    } else {
      var x := if CalcChar(a[0]) then [a[0]] else [];
      assert (a + b)[0] == a[0];
      assert (a + b)[1..] == a[1..] + b;
      SanitizeAppend(a[1..], b);
      assert Sanitize(a + b) == x + (Sanitize(a[1..]) + Sanitize(b));
    }
  }

  /** Exactly the other characters are deleted: removing one of them from
      the input does not change the result. */
  lemma SanitizeDropsOthers(a: string, c: char, b: string)
    requires !CalcChar(c)
    ensures Sanitize(a + [c] + b) == Sanitize(a + b)
  {
    SanitizeAppend(a + [c], b);
    SanitizeAppend(a, [c]);
    SanitizeAppend(a, b);
    assert Sanitize([c]) == [];
    assert Sanitize(a + [c]) == Sanitize(a);
  }

  /** What the host language's evaluator does with an expression: a value,
      given by its printed form, or an exception, given by its message. */
  datatype EvalOutcome = Value(repr: string) | Raised(message: string)

  type Evaluator = string -> EvalOutcome

  /** The calculator tool. Its reply starts with CALC_ERROR exactly when the
      evaluator raised; otherwise it is the sanitized expression, " = " and
      the value. */
  function Calc(expr: string, evaluate: Evaluator): (r: string)
    ensures StartsWith(r, CALC_ERROR) <==> evaluate(Sanitize(expr)).Raised?
    ensures evaluate(Sanitize(expr)).Value? ==>
      StartsWith(r, Sanitize(expr) + " = ") && r[|Sanitize(expr)| + 3..] == evaluate(Sanitize(expr)).repr
    ensures evaluate(Sanitize(expr)).Raised? ==> r[|CALC_ERROR|..] == evaluate(Sanitize(expr)).message
  {
    var e := Sanitize(expr);
    match evaluate(e)
    case Value(v) =>
      var r := e + " = " + v;
      assert r[0] != 'C' by { if e != [] { assert CalcChar(e[0]); } }
      assert r[..|e + " = "|] == e + " = ";
      r
    case Raised(m) => CALC_ERROR + m
  }

  /** The evaluator is only ever asked about calculator characters: two
      evaluators that agree on such texts give the same reply. */
  lemma CalcSeesOnlySafeText(expr: string, e1: Evaluator, e2: Evaluator)
    requires forall s :: CalcSafe(s) ==> e1(s) == e2(s)
    ensures Calc(expr, e1) == Calc(expr, e2)
  {
  }

  // ------------------------------------------------------------ remember

  /** The note `remember` stores: the trimmed text and the UTC time with a
      trailing "Z". */
  function MakeNote(text: string, utcIso: string): Note {
    Note(Strip(text), utcIso + "Z")
  }

  function SavedReply(text: string): string {
    "Saved: \U{201C}" + Strip(text) + "\U{201D}"
  }

  // -------------------------------------------------------------- recall

  /** The query as recall uses it: trimmed and lower-cased. */
  function Query(query: string): string {
    Lower(Strip(query))
  }

  predicate Matches(n: Note, q: string) {
    Contains(Lower(n.text), q)
  }

  /** The notes whose lower-cased text contains `q`, in stored order. */
  function Hits(notes: seq<Note>, q: string): (r: seq<Note>)
    ensures |r| <= |notes|
    ensures forall n :: n in r ==> n in notes && Matches(n, q)
    ensures forall n :: n in notes && Matches(n, q) ==> n in r
    decreases |notes|
  {
    if notes == [] then []
    else
      var last := notes[|notes| - 1];
      Hits(notes[..|notes| - 1], q) + (if Matches(last, q) then [last] else [])
  }

  /** Filtering keeps the stored order: the hits of two consecutive runs of
      notes are the hits of the first followed by those of the second. */
  lemma {:induction false} HitsAppend(a: seq<Note>, b: seq<Note>, q: string)
    ensures Hits(a + b, q) == Hits(a, q) + Hits(b, q)
    decreases |b|
  {
    if b == [] {
      assert a + b == a;
    } else {
      assert (a + b)[..|a + b| - 1] == a + b[..|b| - 1];
      HitsAppend(a, b[..|b| - 1], q);
    }
  }

  /** `s[-k:]` of Python. */
  function Last<T>(s: seq<T>, k: nat): (r: seq<T>)
    requires k > 0
    ensures |r| == Min(k, |s|) && r == s[|s| - |r|..]
  {
    s[|s| - Min(k, |s|)..]
  }

  /** The notes recall lists: with a query, the last RECALL_MAX notes that
      match it, in stored order; without one, the last RECALL_MAX notes. */
  function Selection(notes: seq<Note>, query: string): (sel: seq<Note>)
    ensures |sel| <= RECALL_MAX
    ensures Query(query) != "" ==>
      forall n :: n in sel ==> n in notes && Matches(n, Query(query))
    ensures Query(query) != "" ==>
      var hits := Hits(notes, Query(query));
      |sel| == Min(RECALL_MAX, |hits|) && sel == hits[|hits| - |sel|..]
    ensures Query(query) == "" ==>
      |sel| == Min(RECALL_MAX, |notes|) && sel == notes[|notes| - |sel|..]
  {
    var q := Query(query);
    var hits := if q != "" then Hits(notes, q) else Last(notes, RECALL_MAX);
    Last(hits, RECALL_MAX)
  }

  function Line(n: Note): string {
    "- " + n.text + " (@" + n.ts + ")"
  }

  function Lines(sel: seq<Note>): (lines: seq<string>)
    ensures |lines| == |sel|
  {
    seq(|sel|, i requires 0 <= i < |sel| => Line(sel[i]))
  }

  /** The recall tool. It answers NO_MEMORY exactly when nothing is selected
      and otherwise a header line followed by one line per selected note. */
  function Recall(notes: seq<Note>, query: string): (r: string)
    ensures r == NO_MEMORY <==> Selection(notes, query) == []
    ensures Selection(notes, query) != [] ==> StartsWith(r, RECALL_HEADER)
  {
    var sel := Selection(notes, query);
    if sel == [] then NO_MEMORY
    else
      var r := RECALL_HEADER + Join(Lines(sel), "\n");
      assert r[0] == 'R';
      assert r[..|RECALL_HEADER|] == RECALL_HEADER;
      r
  }

  /** A note just remembered is found again by any recall whose query it
      contains: its own text, a word of it, or a blank query. Its line is the
      last line of the reply. */
  lemma RememberThenRecall(notes: seq<Note>, text: string, utcIso: string, query: string)
    requires Contains(Lower(Strip(text)), Query(query))
    ensures var n := MakeNote(text, utcIso);
      var r := Recall(notes + [n], query);
      r != NO_MEMORY && EndsWith(r, Line(n)) && Contains(r, Line(n))
  {
    var n := MakeNote(text, utcIso);
    NewNoteSelectedLast(notes, text, utcIso, query);
    RecallEndsWithLastLine(notes + [n], query);
    ContainsSuffix(Recall(notes + [n], query), Line(n));
  }

  /** A recall whose query the note just added contains (a blank query
      included) selects that note last. */
  lemma NewNoteSelectedLast(notes: seq<Note>, text: string, utcIso: string, query: string)
    requires Contains(Lower(Strip(text)), Query(query))
    ensures var n := MakeNote(text, utcIso);
      var sel := Selection(notes + [n], query);
      sel != [] && sel[|sel| - 1] == n
  {
    var n := MakeNote(text, utcIso);
    var all := notes + [n];
    var q := Query(query);
    assert all[..|all| - 1] == notes;
    if q != "" {
      assert Matches(n, q);
      assert Hits(all, q) == Hits(notes, q) + [n];
    }
  }

  /** A reply that lists notes ends with the line of the last one listed. */
  lemma RecallEndsWithLastLine(notes: seq<Note>, query: string)
    requires Selection(notes, query) != []
    ensures var sel := Selection(notes, query);
      EndsWith(Recall(notes, query), Line(sel[|sel| - 1]))
  {
    var sel := Selection(notes, query);
    var last := Line(sel[|sel| - 1]);
    var lines := Lines(sel);
    JoinEndsWithLast(lines, "\n");
    var r := Recall(notes, query);
    var j := Join(lines, "\n");
    assert r == RECALL_HEADER + j;
    assert r[|r| - |last|..] == j[|j| - |last|..];
  }
}
