/** The Python agent: one state object holding the memory document (notes and
    the message counter) and the rate limiter's bucket and counter, and the
    per-message handler the chat framework calls. The wall clock, the UTC time
    and the expression evaluator are parameters; saving the document is not
    modelled. */
module Agent {
  import opened Wrappers
  import opened Text
  import opened Memory
  import opened FixedWindow
  import opened Tools
  import opened Commands
  import opened Compose

  const RATE_LIMIT_PER_MIN: nat := 60
  const RATE_LIMITED := "Rate limit exceeded. Try again in a minute."
  const UNKNOWN_COMMAND := "Unknown command: /"

  /** The minute a time in epoch seconds falls in: floor(nowSec / 60). */
  function Bucket(nowSec: int): (b: int)
    ensures b * 60 <= nowSec < b * 60 + 60
  {
    nowSec / 60
  }

  /** What the command dispatcher produces: a reply, or none when the message
      is no command, and the notes afterwards. */
  datatype Dispatch = Dispatch(reply: Option<string>, notes: seq<Note>)

  /** try_tools on the notes `notes`. Only `remember` changes the notes, and it
      appends exactly one note at the end. */
  function Dispatched(notes: seq<Note>, message: string, utcIso: string, evaluate: Evaluator): (d: Dispatch)
    ensures d.reply.None? <==> Command(message).None?
    ensures d.reply.None? ==> d.notes == notes
    ensures d.notes == notes || (|d.notes| == |notes| + 1 && d.notes[..|notes|] == notes)
  {
    match Command(message)
    case None => Dispatch(None, notes)
    case Some((cmd, arg)) => Run(notes, cmd, arg, utcIso, evaluate)
  }

  /** The tool a recognised command names, run on its argument. */
  function Run(notes: seq<Note>, cmd: string, arg: string, utcIso: string, evaluate: Evaluator): (d: Dispatch)
    ensures d.reply.Some?
    ensures d.notes == notes || (|d.notes| == |notes| + 1 && d.notes[..|notes|] == notes)
  {
    if cmd == "calc" then Dispatch(Some(Calc(arg, evaluate)), notes)
    else if cmd == "remember" then Dispatch(Some(SavedReply(arg)), notes + [MakeNote(arg, utcIso)])
    else if cmd == "recall" then Dispatch(Some(Recall(notes, arg)), notes)
    else Dispatch(Some(UNKNOWN_COMMAND + cmd), notes)
  }

  /** The "Unknown command" reply never occurs: the pattern captures only the
      three known names, and none of the tools' replies starts that way. */
  lemma UnknownCommandUnreachable(notes: seq<Note>, message: string, utcIso: string, evaluate: Evaluator)
    ensures var d := Dispatched(notes, message, utcIso, evaluate);
      d.reply.Some? ==> !StartsWith(d.reply.value, UNKNOWN_COMMAND)
  {
    if Command(message).Some? {
      var (cmd, arg) := Command(message).value;
      KnownToolReply(notes, cmd, arg, utcIso, evaluate);
    }
  }

  /** A known command's reply never starts like the unknown-command reply. */
  lemma KnownToolReply(notes: seq<Note>, cmd: string, arg: string, utcIso: string, evaluate: Evaluator)
    requires IsName(cmd)
    ensures var r := Run(notes, cmd, arg, utcIso, evaluate).reply.value;
      r != [] && r[0] != UNKNOWN_COMMAND[0]
  {
    if cmd == "calc" {
      CalcReplyInitial(arg, evaluate);
    } else if cmd == "remember" {
      SavedReplyInitial(arg);
    } else {
      RecallReplyInitial(notes, arg);
    }
  }

  /** The reply to a message the rate limiter admits: the tool's reply when
      the message is a command, the fallback reply otherwise. */
  function Answer(notes: seq<Note>, message: string, utcIso: string, evaluate: Evaluator): string {
    var d := Dispatched(notes, message, utcIso, evaluate);
    if d.reply.Some? then d.reply.value else Respond(notes, message)
  }

  /** A calculator reply starts with a calculator character, a space or the
      "C" of CALC_ERROR. */
  lemma CalcReplyInitial(expr: string, evaluate: Evaluator)
    ensures var r := Calc(expr, evaluate); r != [] && (CalcChar(r[0]) || r[0] == 'C')
  {
    var e := Sanitize(expr);
    var r := Calc(expr, evaluate);
    if evaluate(e).Value? {
      assert r == e + " = " + evaluate(e).repr;
      assert e != [] ==> r[0] == e[0];
    }
  }

  lemma SavedReplyInitial(text: string)
    ensures var r := SavedReply(text); r != [] && r[0] == 'S'
  {
  }

  lemma RecallReplyInitial(notes: seq<Note>, query: string)
    ensures var r := Recall(notes, query); r != [] && (r[0] == 'N' || r[0] == 'R')
  {
    if Selection(notes, query) != [] {
      assert StartsWith(Recall(notes, query), RECALL_HEADER);
    }
  }

  /** "/RECALL foo" is dispatched like "/recall foo", and so for every command. */
  lemma DispatchIgnoresCase(notes: seq<Note>, w: string, rest: string, utcIso: string, evaluate: Evaluator)
    requires IsName(Lower(w))
    ensures Dispatched(notes, "/" + w + rest, utcIso, evaluate)
         == Dispatched(notes, "/" + Lower(w) + rest, utcIso, evaluate)
  {
    CommandIgnoresCase(w, rest);
  }

  /** "/remember x" followed by "/recall x" lists the note just taken, as the
      last line of the reply; with an empty x this is "/remember" followed by
      "/recall", which lists the last notes. */
  lemma RememberThenRecallCommands(notes: seq<Note>, x: string, utcIso: string, later: string, evaluate: Evaluator)
    requires x == [] || (!IsSpace(x[0]) && !IsSpace(x[|x| - 1]))
    requires '\n' !in x
    ensures var d1 := Dispatched(notes, "/remember " + x, utcIso, evaluate);
      var d2 := Dispatched(d1.notes, "/recall " + x, later, evaluate);
      var n := MakeNote(x, utcIso);
      d1.notes == notes + [n] && d2.notes == d1.notes
      && d2.reply.Some? && EndsWith(d2.reply.value, Line(n)) && Contains(d2.reply.value, Line(n))
  {
    var n := MakeNote(x, utcIso);
    RememberCommand(notes, x, utcIso, evaluate);
    RecallCommand(notes + [n], x, later, evaluate);
    if x != [] {
      StripAfter(x, "");
      assert x + "" == x;
    }
    assert Strip(x) == x;
    ContainsSelf(Lower(x));
    RememberThenRecall(notes, x, utcIso, x);
  }

  /** "/remember x" stores x and confirms it. */
  lemma RememberCommand(notes: seq<Note>, x: string, utcIso: string, evaluate: Evaluator)
    requires x == [] || (!IsSpace(x[0]) && !IsSpace(x[|x| - 1]))
    requires '\n' !in x
    ensures Dispatched(notes, "/remember " + x, utcIso, evaluate)
         == Dispatch(Some(SavedReply(x)), notes + [MakeNote(x, utcIso)])
  {
    LowerIsIdentityOnNames();
    assert "/remember " + x == "/" + "remember" + " " + x;
    ParseInvocation("remember", " ", x);
  }

  /** "/recall x" answers with the recall of x and keeps the notes. */
  lemma RecallCommand(notes: seq<Note>, x: string, utcIso: string, evaluate: Evaluator)
    requires x == [] || (!IsSpace(x[0]) && !IsSpace(x[|x| - 1]))
    requires '\n' !in x
    ensures Dispatched(notes, "/recall " + x, utcIso, evaluate) == Dispatch(Some(Recall(notes, x)), notes)
  {
    LowerIsIdentityOnNames();
    assert "/recall " + x == "/" + "recall" + " " + x;
    ParseInvocation("recall", " ", x);
  }

  lemma LowerIsIdentityOnNames()
    ensures Lower("remember") == "remember" && Lower("recall") == "recall"
  {
    assert forall i :: 0 <= i < |"remember"| ==> !('A' <= "remember"[i] <= 'Z');
    assert forall i :: 0 <= i < |"recall"| ==> !('A' <= "recall"[i] <= 'Z');
  }

  class Agent {
    var notes: seq<Note>
    var messages: int
    var startTs: int
    var lastBucket: int
    var msgsInBucket: nat

    /** At most RATE_LIMIT_PER_MIN messages are counted in the current bucket. */
    ghost predicate Valid()
      reads this
    {
      msgsInBucket <= RATE_LIMIT_PER_MIN
    }

    function RateState(): Window
      reads this
    {
      Window(lastBucket, msgsInBucket)
    }

    /** Process start: the stored document, or a fresh one when there is none
        (or it cannot be read); the limiter starts in the current minute. */
    constructor (stored: Option<Document>, nowSec: int)
      ensures Valid()
      ensures var d := if stored.Some? then stored.value else Fresh(nowSec);
        notes == d.notes && messages == d.messages && startTs == d.startTs
      ensures lastBucket == Bucket(nowSec) && msgsInBucket == 0
    {
      var d := if stored.Some? then stored.value else Fresh(nowSec);
      notes := d.notes;
      messages := d.messages;
      startTs := d.startTs;
      lastBucket := Bucket(nowSec);
      msgsInBucket := 0;
    }

    /** ratelimit_ok: admits at most RATE_LIMIT_PER_MIN calls per minute. */
    method RatelimitOk(nowSec: int) returns (ok: bool)
      requires Valid()
      modifies this`lastBucket, this`msgsInBucket
      ensures Valid()
      ensures (RateState(), ok) == Step(old(RateState()), Bucket(nowSec), RATE_LIMIT_PER_MIN)
    {
      var nowBucket := Bucket(nowSec);
      if nowBucket != lastBucket {
        lastBucket := nowBucket;
        msgsInBucket := 0;
      }
      if msgsInBucket >= RATE_LIMIT_PER_MIN {
        return false;
      }
      msgsInBucket := msgsInBucket + 1;
      return true;
    }

    /** tool_remember: appends one note at the end; the earlier notes stay as
        they were, in their order. */
    method Remember(text: string, utcIso: string) returns (reply: string)
      modifies this`notes
      ensures notes == old(notes) + [MakeNote(text, utcIso)]
      ensures reply == SavedReply(text)
    {
      notes := notes + [MakeNote(text, utcIso)];
      reply := SavedReply(text);
    }

    /** try_tools: runs the tool the message names, if any. */
    method TryTools(message: string, utcIso: string, evaluate: Evaluator) returns (reply: Option<string>)
      modifies this`notes
      ensures Dispatch(reply, notes) == Dispatched(old(notes), message, utcIso, evaluate)
    {
      var m := Command(message);
      if m.None? {
        return None;
      }
      var (cmd, arg) := m.value;
      if cmd == "calc" {
        return Some(Calc(arg, evaluate));
      }
      if cmd == "remember" {
        var saved := Remember(arg, utcIso);
        return Some(saved);
      }
      if cmd == "recall" {
        return Some(Recall(notes, arg));
      }
      assert false;
      return Some(UNKNOWN_COMMAND + cmd);
    }

    /** The per-message handler: rate check, then a tool, then the fallback
        reply. A denied message changes nothing but the limiter; every other
        message is counted exactly once. */
    method Improve(message: string, nowSec: int, utcIso: string, evaluate: Evaluator) returns (out: string)
      requires Valid()
      modifies this
      ensures Valid()
      ensures startTs == old(startTs)
      ensures RateState() == Step(old(RateState()), Bucket(nowSec), RATE_LIMIT_PER_MIN).0
      ensures !Step(old(RateState()), Bucket(nowSec), RATE_LIMIT_PER_MIN).1 ==>
        out == RATE_LIMITED && notes == old(notes) && messages == old(messages)
      ensures Step(old(RateState()), Bucket(nowSec), RATE_LIMIT_PER_MIN).1 ==>
        messages == old(messages) + 1
        && notes == Dispatched(old(notes), message, utcIso, evaluate).notes
        && out == Answer(old(notes), message, utcIso, evaluate)
    {
      var before := notes;
      var ok := RatelimitOk(nowSec);
      if !ok {
        return RATE_LIMITED;
      }
      out := HandleAdmitted(before, message, utcIso, evaluate);
    }

    /** The part of the handler after the rate check: the message is counted,
        a tool answers it if it is a command, the fallback reply otherwise. */
    method HandleAdmitted(before: seq<Note>, message: string, utcIso: string, evaluate: Evaluator) returns (out: string)
      requires notes == before
      modifies this`notes, this`messages
      ensures messages == old(messages) + 1
      ensures notes == Dispatched(before, message, utcIso, evaluate).notes
      ensures out == Answer(before, message, utcIso, evaluate)
    {
      var toolOut := TryTools(message, utcIso, evaluate);
      messages := messages + 1;
      if toolOut.Some? {
        return toolOut.value;
      }
      out := Respond(before, message);
    }
  }
}
