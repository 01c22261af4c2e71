/** The Python agent's fallback reply when a message is no command: the
    prompt-injection guard, the fixed word replacements, the memory hint and
    the "[nanda] " tag. */
module Compose {
  import opened Text
  import opened Memory
  import opened Tools

  const TAG := "[nanda] "
  const INJECTION := "ignore previous"
  const REFUSAL := "I can\U{2019}t ignore my instructions, but happy to help."

  /** The three literal replacements, applied one after the other in this
      order: "hello", then "Hello", then "goodbye". */
  function Rewrite(s: string): string {
    ReplaceAll(ReplaceAll(ReplaceAll(s, "hello", "greetings"), "Hello", "Greetings"), "goodbye", "farewell")
  }

  /** A text that contains none of the three words is not changed. */
  lemma RewriteUnchanged(s: string)
    requires !Contains(s, "hello") && !Contains(s, "Hello") && !Contains(s, "goodbye")
    ensures Rewrite(s) == s
  {
    ReplaceAllAbsent(s, "hello", "greetings");
    ReplaceAllAbsent(s, "Hello", "Greetings");
    ReplaceAllAbsent(s, "goodbye", "farewell");
  }

  /** A leading "Hello" becomes "Greetings" and the rest of the sentence is
      kept as it is. */
  lemma RewriteLeadingHello(rest: string)
    requires !Contains(rest, "hello") && !Contains(rest, "Hello") && !Contains(rest, "goodbye")
    ensures Rewrite("Hello" + rest) == "Greetings" + rest
  {
    ReplaceAllSkipsChars("Hello", rest, "hello", "greetings");
    ReplaceAllAbsent(rest, "hello", "greetings");
    LeadingHelloReplaced(rest);
    GreetingsHasNoGoodbye(rest);
  }

  lemma LeadingHelloReplaced(rest: string)
    requires !Contains(rest, "Hello")
    ensures ReplaceAll("Hello" + rest, "Hello", "Greetings") == "Greetings" + rest
  {
    var s := "Hello" + rest;
    assert s[..5] == "Hello" && s[5..] == rest;
    ReplaceAllAbsent(rest, "Hello", "Greetings");
  }

  lemma GreetingsHasNoGoodbye(rest: string)
    requires !Contains(rest, "goodbye")
    ensures ReplaceAll("Greetings" + rest, "goodbye", "farewell") == "Greetings" + rest
  {
    assert "Greetings" + rest == "Greetin" + ("gs" + rest);
    ReplaceAllSkipsChars("Greetin", "gs" + rest, "goodbye", "farewell");
    forall i | 0 <= i < 2
      ensures !StartsWith(("gs" + rest)[i..], "goodbye")
    {
      var t := ("gs" + rest)[i..];
      if i == 0 {
        assert |t| >= 7 ==> t[..7][1] == 's';
      } else {
        assert t[0] == 's';
      }
    }
    ReplaceAllSkips("gs", rest, "goodbye", "farewell");
    ReplaceAllAbsent(rest, "goodbye", "farewell");
  }

  function Texts(notes: seq<Note>): (texts: seq<string>)
    ensures |texts| == |notes|
  {
    seq(|notes|, i requires 0 <= i < |notes| => notes[i].text)
  }

  /** The hint appended to every fallback reply: the texts of the last two
      notes, comma-separated, in stored order; nothing when there are no notes. */
  function MemoryHint(notes: seq<Note>): (r: string)
    ensures notes == [] <==> r == ""
    ensures |notes| == 1 ==> r == " (FYI I remember: " + notes[0].text + ")"
    ensures |notes| >= 2 ==>
      r == " (FYI I remember: " + notes[|notes| - 2].text + ", " + notes[|notes| - 1].text + ")"
  {
    if notes == [] then ""
    else
      var texts := Texts(Last(notes, 2));
      assert |notes| >= 2 ==> texts == [notes[|notes| - 2].text, notes[|notes| - 1].text];
      assert |notes| >= 2 ==> Join(texts, ", ") == Join(texts[..1], ", ") + ", " + texts[1];
      assert |notes| >= 2 ==> Join(texts[..1], ", ") == notes[|notes| - 2].text;
      " (FYI I remember: " + Join(texts, ", ") + ")"
  }

  /** The fallback reply: the tag, then the refusal when the lower-cased
      message contains INJECTION and the rewritten message otherwise, then the
      memory hint. */
  function Respond(notes: seq<Note>, message: string): (r: string)
    ensures StartsWith(r, TAG)
    ensures EndsWith(r, MemoryHint(notes))
  {
    var resp := if Contains(Lower(message), INJECTION) then REFUSAL else Rewrite(message);
    var r := TAG + resp + MemoryHint(notes);
    assert r[..|TAG|] == TAG;
    assert r[|r| - |MemoryHint(notes)|..] == MemoryHint(notes);
    r
  }

  /** Once the guard fires, the rest of the message makes no difference. */
  lemma RefusalIgnoresContent(notes: seq<Note>, m1: string, m2: string)
    requires Contains(Lower(m1), INJECTION) && Contains(Lower(m2), INJECTION)
    ensures Respond(notes, m1) == Respond(notes, m2) == TAG + REFUSAL + MemoryHint(notes)
  {
  }

  /** A message without the guard phrase and without the three words is
      echoed after the tag, followed by the hint. */
  lemma PlainMessageEchoed(notes: seq<Note>, message: string)
    requires !Contains(Lower(message), INJECTION)
    requires !Contains(message, "hello") && !Contains(message, "Hello") && !Contains(message, "goodbye")
    ensures Respond(notes, message) == TAG + message + MemoryHint(notes)
  {
    RewriteUnchanged(message);
  }
}
