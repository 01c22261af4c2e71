/** The Go agent: the same fixed-window limiter and greeting replacements as
    the Python agent, behind a POST handler that counts messages, remembers
    the last reply and rewrites the metrics of the memory document. The clock,
    the request decoding and the memory file are inputs; the mutex that
    serialises handlers is not modelled, each handler call is one step. */
module GoAgent {
  import opened Wrappers
  import opened Text
  import opened Memory
  import opened FixedWindow
  import Compose

  const RATE_PER_MIN: nat := 60
  const GO_TAG := "[nanda-go] "

  /** time.Now().Unix() / 60: Go's integer division truncates toward zero, so
      before the epoch the minute is rounded up, not down. */
  function UnixMinute(t: int): (m: int)
    ensures t >= 0 ==> 0 <= m && m * 60 <= t < m * 60 + 60
    ensures t < 0 ==> m <= 0 && m * 60 - 60 < t <= m * 60
  {
    if t >= 0 then t / 60 else -((-t) / 60)
  }

  /** Go's minute agrees with the floored minute of the Python agent exactly
      on times from the epoch on and on whole minutes before it. */
  lemma UnixMinuteVersusFloor(t: int)
    ensures UnixMinute(t) == t / 60 <==> t >= 0 || t % 60 == 0
  {
    if t < 0 && t % 60 != 0 {
      assert t / 60 * 60 < t;
    }
  }

  /** The whole reply transform: the three replacements and the tag. The
      reply always carries the tag, and a message without "hello", "Hello" or
      "goodbye" comes back after the tag as it was sent. */
  function Improve(s: string): (r: string)
    ensures StartsWith(r, GO_TAG)
    ensures !Contains(s, "hello") && !Contains(s, "Hello") && !Contains(s, "goodbye") ==> r == GO_TAG + s
  {
    var r := GO_TAG + Compose.Rewrite(s);
    assert r[..|GO_TAG|] == GO_TAG;
    if !Contains(s, "hello") && !Contains(s, "Hello") && !Contains(s, "goodbye") then
      Compose.RewriteUnchanged(s);
      r
    else r
  }

  /** "Hello ..." is answered "[nanda-go] Greetings ...". */
  lemma ImproveGreets(rest: string)
    requires !Contains(rest, "hello") && !Contains(rest, "Hello") && !Contains(rest, "goodbye")
    ensures Improve("Hello" + rest) == GO_TAG + "Greetings" + rest
  {
    Compose.RewriteLeadingHello(rest);
  }

  /** The two agents transform a plain message alike: without the guard
      phrase the Python fallback reply is the Go reply with the other tag and
      the memory hint appended. */
  lemma SameTransformAsPython(notes: seq<Note>, s: string)
    requires !Contains(Lower(s), Compose.INJECTION)
    ensures Compose.Respond(notes, s)
         == Compose.TAG + Improve(s)[|GO_TAG|..] + Compose.MemoryHint(notes)
  {
  }

  /** loadMem: the decoded memory file, or an empty document started now when
      the file cannot be read. */
  function LoadMem(file: Option<Document>, nowUnix: int): (m: Document)
    ensures file.None? ==> m == Fresh(nowUnix)
    ensures file.Some? ==> m == file.value
  {
    if file.Some? then file.value else Fresh(nowUnix)
  }

  /** The metrics sendHandler writes back: the message counter, and the
      process start only where no start time was recorded. Notes are kept. */
  function WithMetrics(m: Document, msgCount: int, startUnix: int): (r: Document)
    ensures r.notes == m.notes && r.messages == msgCount
    ensures m.startTs != 0 ==> r.startTs == m.startTs
    ensures m.startTs == 0 ==> r.startTs == startUnix
  {
    Document(m.notes, msgCount, if m.startTs == 0 then startUnix else m.startTs)
  }

  /** Writing the metrics twice is writing the latter: the recorded start
      time, once set, stays. */
  lemma WithMetricsTwice(m: Document, c1: int, c2: int, startUnix: int)
    ensures WithMetrics(WithMetrics(m, c1, startUnix), c2, startUnix) == WithMetrics(m, c2, startUnix)
  {
  }

  /** Without a memory file the recorded start time is the time of the first
      message, not the process start. */
  lemma MissingFileStartsAtMessage(nowUnix: int, msgCount: int, startUnix: int)
    requires nowUnix != 0
    ensures WithMetrics(LoadMem(None, nowUnix), msgCount, startUnix).startTs == nowUnix
  {
  }

  /** What a handler call writes back: an error status with its body (with
      the line feed http.Error adds), or the JSON pair of input and output. */
  datatype Reply = HttpError(status: int, body: string) | Sent(input: string, output: string)

  const METHOD_NOT_ALLOWED := HttpError(405, "method not allowed\n")
  const TOO_MANY_REQUESTS := HttpError(429, "rate limit exceeded\n")
  const BAD_REQUEST := HttpError(400, "bad request\n")

  /** The package variables of the Go agent and the memory file they persist
      to. */
  class Server {
    const start: int
    var msgCount: int
    var lastMsg: string
    var bucketMin: int
    var bucketCount: nat
    var file: Option<Document>

    /** At most RATE_PER_MIN requests are counted in the current minute. */
    ghost predicate Valid()
      reads this
    {
      bucketCount <= RATE_PER_MIN
    }

    function RateState(): Window
      reads this
    {
      Window(bucketMin, bucketCount)
    }

    /** Process start: every counter is Go's zero value, including the
        limiter's minute, which is the epoch's. */
    constructor (startUnix: int, stored: Option<Document>)
      ensures Valid()
      ensures start == startUnix && msgCount == 0 && lastMsg == ""
      ensures bucketMin == 0 && bucketCount == 0 && file == stored
    {
      start := startUnix;
      msgCount := 0;
      lastMsg := "";
      bucketMin := 0;
      bucketCount := 0;
      file := stored;
    }

    /** rateOK: admits at most RATE_PER_MIN calls per minute. */
    method RateOK(nowUnix: int) returns (ok: bool)
      requires Valid()
      modifies this`bucketMin, this`bucketCount
      ensures Valid()
      ensures (RateState(), ok) == Step(old(RateState()), UnixMinute(nowUnix), RATE_PER_MIN)
    {
      var nowBucket := UnixMinute(nowUnix);
      if nowBucket != bucketMin {
        bucketMin := nowBucket;
        bucketCount := 0;
      }
      if bucketCount >= RATE_PER_MIN {
        return false;
      }
      bucketCount := bucketCount + 1;
      return true;
    }

    /** sendHandler for one request: `isPost` is the request method, `body`
        the decoded message or None when decoding fails, `writeOk` whether the
        memory file could be written. Only a POST reaches the limiter, the
        limiter runs before decoding, and only a decoded, admitted message is
        counted, becomes lastMsg and is recorded in the memory file. */
    method SendHandler(isPost: bool, nowUnix: int, body: Option<string>, writeOk: bool) returns (reply: Reply)
      requires Valid()
      modifies this`bucketMin, this`bucketCount, this`msgCount, this`lastMsg, this`file
      ensures Valid()
      ensures !isPost ==> reply == METHOD_NOT_ALLOWED && RateState() == old(RateState())
      ensures isPost ==> RateState() == Step(old(RateState()), UnixMinute(nowUnix), RATE_PER_MIN).0
      ensures isPost && !Step(old(RateState()), UnixMinute(nowUnix), RATE_PER_MIN).1 ==>
        reply == TOO_MANY_REQUESTS
      ensures isPost && Step(old(RateState()), UnixMinute(nowUnix), RATE_PER_MIN).1 && body.None? ==>
        reply == BAD_REQUEST
      ensures isPost && Step(old(RateState()), UnixMinute(nowUnix), RATE_PER_MIN).1 && body.Some? ==>
        reply == Sent(body.value, Improve(body.value))
        && msgCount == old(msgCount) + 1 && lastMsg == Improve(body.value)
        && file == if writeOk then Some(WithMetrics(LoadMem(old(file), nowUnix), msgCount, start)) else old(file)
      ensures !(isPost && Step(old(RateState()), UnixMinute(nowUnix), RATE_PER_MIN).1 && body.Some?) ==>
        msgCount == old(msgCount) && lastMsg == old(lastMsg) && file == old(file)
    {
      if !isPost {
        return METHOD_NOT_ALLOWED;
      }
      var ok := RateOK(nowUnix);
      if !ok {
        return TOO_MANY_REQUESTS;
      }
      if body.None? {
        return BAD_REQUEST;
      }
      var message := body.value;
      var out := Improve(message);
      lastMsg := out;
      msgCount := msgCount + 1;
      reply := Sent(message, out);
      var m := LoadMem(file, nowUnix);
      m := WithMetrics(m, msgCount, start);
      if writeOk {
        file := Some(m);
      }
    }
  }
}
