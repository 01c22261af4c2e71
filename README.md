# nanda agent: message-handling core

This project models the message handling of a small chat agent in Dafny.
Two implementations are covered:

- The Python agent (`agent.py`) handles one message as follows:
  - A fixed-window rate limiter admits at most 60 messages per wall-clock minute.
  - If the message is a slash command (`/calc`, `/remember`, `/recall`, matched case-insensitively), the command runs against the notes in memory.
  - Otherwise the fallback reply is composed: a refusal when the message tries "ignore previous", else the message with "hello"/"Hello"/"goodbye" replaced. Either way the reply is tagged `[nanda] ` and a hint naming the last two notes is appended.
  - Every admitted message is counted.
- The Go agent (`nanda-agent-sdk-go/main.go`) repeats the limiter and the greeting replacement. Its POST handler counts messages, remembers the last reply and writes the message metrics back to the memory document.

Modules:

| file | module | contents |
|---|---|---|
| `numbers.dfy` | `Numbers` | `Min` |
| `memory.dfy` | `Memory` | the memory document (notes, message counter, start time) |
| `text.dfy` | `Text` | ASCII `strip`/`lower`, substring search, left-to-right replacement, `join` |
| `fixed_window.dfy` | `FixedWindow` | one limiter decision as a function, and lemmas about runs of calls |
| `tools.dfy` | `Tools` | the calculator's sanitising and reply format, the note `remember` stores, `recall`'s selection and reply |
| `commands.dfy` | `Commands` | the command pattern of `try_tools` |
| `compose.dfy` | `Compose` | the fallback reply |
| `agent.dfy` | `Agent` | the Python agent's state as class `Agent`, whose methods mirror `ratelimit_ok`, `tool_remember`, `try_tools` and `improve` |
| `go_agent.dfy` | `GoAgent` | the Go agent's package variables as class `Server`, with `rateOK` and `sendHandler` |

Each state-changing method is proved against a pure function (`Step`, `Dispatched`, `Answer`, `Improve`). The lemmas are stated about those functions.

Behaviour as written, which the model follows:

- **No "Unknown command" reply.** The command pattern `^/(calc|remember|recall)\s*(.*)$` captures only the three names. So the `Unknown command` branch (agent.py:83) cannot be reached (`Agent.UnknownCommandUnreachable`). A slash followed by any other word gets the ordinary fallback reply (`Commands.OtherWordIsNoCommand`). An "unknown command" reply for other slash words would be a plausible design, but the code does not do it.
- **No word boundary after the name.** `/recalled` runs `recall` with the argument `ed` (`Commands.NoWordBoundary`).
- **Multi-line arguments are not commands.** `.` does not match a line feed, so an argument that spans several lines makes the message no command (`Commands.MultiLineIsNoCommand`).
- **Write failures are not reported to the user.**
  - The Python agent lets a failed save raise an exception out of the handler; the note is already appended in memory.
  - The Go agent ignores both read and write errors.
  - Neither reports a failed write as a reply.
- **Go limiter.**
  - Go's minute is `Unix() / 60`, which truncates toward zero. It differs from Python's floored minute before the epoch (`GoAgent.UnixMinuteVersusFloor`).
  - The Go limiter's minute starts at 0, not at the current minute.
  - The Go limiter runs before request decoding. A request that fails to decode still uses up a slot.
- **Go start time.** Without a memory file, Go's `loadMem` records the time of the current request as the start time. So the persisted start time is the first message's time, not the process start (`GoAgent.MissingFileStartsAtMessage`).

## Model

| member | source | states |
|---|---|---|
| Text.TrimLeft | agent.py:73 | the result is a suffix of the input, everything cut is whitespace, and the result does not start with whitespace (the pattern's `\s*`) |
| Text.Strip | agent.py:61 | `str.strip`: the input is whitespace, then the result, then whitespace; the result neither starts nor ends with whitespace |
| Text.ReplaceAllAbsent | agent.py:109-113 | a text that does not contain the pattern is left unchanged by `str.replace` |
| Text.ReplaceAllSkipsChars | nanda-agent-sdk-go/main.go:79-81 | `strings.ReplaceAll` passes over a leading part that does not contain the pattern's first character |
| FixedWindow.Step | agent.py:32-41 | the call is stamped with the current bucket. In an unchanged bucket it is admitted exactly when fewer than the limit were counted. A changed bucket resets the count and admits the call with count 1. A denial changes nothing. The count never exceeds the limit |
| FixedWindow.AdmittedInOneBucket | agent.py:35-41 | of n calls in one bucket, exactly min(n, limit - count) are admitted, or min(n, limit) if the bucket is new; never more than the limit |
| FixedWindow.AfterOneBucket | agent.py:35-40 | after n calls in one bucket the count is min(count + n, limit), or min(n, limit) if the bucket is new |
| FixedWindow.AfterWithinLimit | nanda-agent-sdk-go/main.go:91-95 | the count stays within the limit over every run of calls |
| FixedWindow.NthCallInBucket | nanda-agent-sdk-go/main.go:87-95 | the k-th call in a bucket is admitted exactly when count + k is below the limit (k below the limit if the bucket is new) |
| Tools.Sanitize | agent.py:47 | the sanitised expression holds only digits, `+ - * / ( ) .` and the space character, and is no longer than the input |
| Tools.SanitizeKeepsSafe | agent.py:47 | a text made only of those characters is kept as it is |
| Tools.SanitizeIdempotent | agent.py:47 | sanitising twice equals sanitising once |
| Tools.SanitizeAppend | agent.py:47 | sanitising works piecewise and keeps the order of what it keeps |
| Tools.SanitizeDropsOthers | agent.py:47 | removing any other character (a tab, a letter) from the input does not change the result |
| Tools.Calc | agent.py:45-52 | the reply starts with `Calc error: ` exactly when evaluation raised, followed by the exception text; otherwise it is the sanitised expression, ` = ` and the value; the tool never raises |
| Tools.CalcSeesOnlySafeText | agent.py:47-49 | the evaluator sees only sanitised text: two evaluators that agree on such texts give the same reply |
| Tools.Hits | agent.py:64 | the hits are exactly the notes whose lower-cased text contains the query |
| Tools.HitsAppend | agent.py:64 | filtering keeps the stored order |
| Tools.Selection | agent.py:60-69 | at most 5 notes. With a query: every selected note matches it, and the selection is the last min(5, hits) hits in order. Without a query: the last min(5, notes) notes |
| Tools.Recall | agent.py:60-70 | `No memory found.` exactly when nothing is selected; otherwise the reply starts `Recent memory:\n` |
| Tools.RecallEndsWithLastLine | agent.py:69-70 | the reply ends with the line of the last selected note |
| Tools.NewNoteSelectedLast | agent.py:54-69 | a recall whose query the note just added contains (its own text, a word of it, or a blank query) selects that note last |
| Tools.RememberThenRecall | agent.py:54-70 | remembering x, then recalling any query that x contains after stripping and lower-casing (x itself, a substring such as one word, or a blank query), gives a reply that contains, and ends with, the line of the new note |
| Commands.MatchName | agent.py:73 | one alternative of the pattern: the name matches case-insensitively, the argument has no line feed and no leading whitespace, and the text reassembles from "/", name, whitespace and argument |
| Commands.Parse | agent.py:73 | on a match, the captured name is one of the three names in some case. The argument is on one line without leading whitespace. The stripped message is "/", the name, whitespace and the argument |
| Commands.Command | agent.py:73-76 | no command exactly when the pattern does not match; the lower-cased name is one of the three |
| Commands.ParseInvocation | agent.py:73 | conversely, "/", a name in any case, whitespace and a one-line trimmed argument is matched with exactly those groups |
| Commands.CommandIgnoresCase | agent.py:73-76 | `/RECALL foo` is read as `/recall foo` |
| Commands.NoWordBoundary | agent.py:73 | text that follows the name directly is the argument (`/recalled` is recall with `ed`) |
| Commands.MultiLineIsNoCommand | agent.py:73-75 | an argument spanning several lines makes the message no command |
| Commands.OtherWordIsNoCommand | agent.py:73-75 | a slash followed by no command name is no command |
| Compose.RewriteUnchanged | agent.py:109-113 | a message with none of the three words is unchanged |
| Compose.RewriteLeadingHello | agent.py:109-113 | `Hello ...` becomes `Greetings ...`, the rest unchanged |
| Compose.MemoryHint | agent.py:115-118 | empty exactly when there are no notes; otherwise ` (FYI I remember: ...)` with the last one or two note texts, comma-joined in stored order |
| Compose.Respond | agent.py:105-122 | the reply starts with `[nanda] ` and ends with the memory hint |
| Compose.RefusalIgnoresContent | agent.py:106-107 | when the lower-cased message contains `ignore previous`, the reply is the tag, the fixed refusal and the hint, whatever else the message says |
| Compose.PlainMessageEchoed | agent.py:105-122 | a message without the guard phrase and the three words is echoed between the tag and the hint |
| Agent.Bucket | agent.py:34 | the bucket is the floored minute: bucket * 60 <= now < bucket * 60 + 60 |
| Agent.Dispatched | agent.py:72-83 | no reply exactly when the message is no command, and then the notes are unchanged; otherwise the notes are unchanged or have exactly one note appended at the end |
| Agent.Run | agent.py:77-83 | every recognised command gets a reply; only one note can be appended |
| Agent.KnownToolReply | agent.py:77-82 | each tool's reply is non-empty and does not start with the letter the unknown-command reply starts with |
| Agent.CalcReplyInitial | agent.py:50-52 | a calculator reply starts with a calculator character or the `C` of `Calc error: ` |
| Agent.RecallReplyInitial | agent.py:67-70 | a recall reply starts with `N` or `R` |
| Agent.UnknownCommandUnreachable | agent.py:83 | no reply of `try_tools` starts with `Unknown command: /` |
| Agent.DispatchIgnoresCase | agent.py:73-76 | commands are dispatched the same whatever the case of the name |
| Agent.RememberCommand | agent.py:79-80 | `/remember x` appends the note for x and replies `Saved: “x”` |
| Agent.RecallCommand | agent.py:81-82 | `/recall x` replies with the recall of x and keeps the notes |
| Agent.RememberThenRecallCommands | agent.py:54-82 | `/remember x`, then `/recall x`, for every one-line trimmed x including the empty one (`/remember` then `/recall`), appends one note, and the recall reply contains and ends with that note's line |
| Agent.Agent.constructor | agent.py:13-30 | starts from the stored document or the default one, in the current bucket with no messages counted |
| Agent.Agent.RatelimitOk | agent.py:32-41 | the limiter state and the answer are those of `FixedWindow.Step` for the current bucket and limit 60; the count stays within 60 |
| Agent.Agent.Remember | agent.py:54-58 | exactly one note, the stripped text with a `Z`-suffixed timestamp, is appended at the end; earlier notes are unchanged; the reply is `Saved: “...”` |
| Agent.Agent.TryTools | agent.py:72-83 | the reply and the new notes are those of `Agent.Dispatched` |
| Agent.Agent.Improve | agent.py:92-122 | a denied message gets the fixed text and leaves notes and counter untouched. An admitted message increments the counter by exactly one and gets the tool's reply or the fallback reply. Only `remember` changes the notes |
| Agent.Agent.HandleAdmitted | agent.py:97-122 | after the rate check: one message is counted; the reply is the tool's or the fallback's |
| GoAgent.UnixMinute | nanda-agent-sdk-go/main.go:86 | truncating division: from the epoch on the minute is floored, before it rounded toward zero |
| GoAgent.UnixMinuteVersusFloor | nanda-agent-sdk-go/main.go:86 | Go's minute equals the floored minute exactly for times from the epoch on and for whole minutes before it |
| GoAgent.Improve | nanda-agent-sdk-go/main.go:78-83 | the reply always starts with `[nanda-go] `, and a message with none of the three words comes back as `[nanda-go] ` + message |
| GoAgent.ImproveGreets | nanda-agent-sdk-go/main.go:80 | `Hello ...` comes back as `[nanda-go] Greetings ...` |
| GoAgent.SameTransformAsPython | nanda-agent-sdk-go/main.go:78-83 | without the guard phrase, the Python fallback reply is the Go reply with the other tag and the memory hint |
| GoAgent.WithMetricsTwice | nanda-agent-sdk-go/main.go:142-146 | writing the metrics again only updates the count; a start time once set stays |
| GoAgent.MissingFileStartsAtMessage | nanda-agent-sdk-go/main.go:62-71 | without a memory file the persisted start time is the request's time |
| GoAgent.Server.constructor | nanda-agent-sdk-go/main.go:40-49 | every counter starts at its zero value, the limiter's minute included |
| GoAgent.Server.RateOK | nanda-agent-sdk-go/main.go:85-96 | the limiter state and the answer are those of `FixedWindow.Step` for Go's minute and limit 60; the count stays within 60 |
| GoAgent.Server.SendHandler | nanda-agent-sdk-go/main.go:113-148 | A non-POST gets 405 and changes nothing. Otherwise the limiter always steps, even when decoding then fails. A denial gets 429, a decode failure 400. Only a decoded, admitted message counts, becomes `lastMsg` and is written to the file with the new metrics. Otherwise counter, `lastMsg` and file are unchanged |

## Left out

- File persistence (`load_mem`/`save_mem`, `loadMem`'s file read, `saveMem`). The Python document is in-memory state and saving is a no-op. In Go the memory file is an input (`Option<Document>`, already decoded), and whether the write succeeds is a boolean input.
- A memory file that is present but fails to decode (JSON errors): its contents are not modelled.
- A Python memory file holding valid JSON of the wrong shape: `json.load` accepts it and every later access to the notes raises. The model assumes a stored document has the expected shape.
- GoAgent.Server.SendHandler: a failed write keeps the previous file, but `os.WriteFile` truncates before writing, so a failed write can leave an empty or partial file in Go.
- A failing save in Python raises out of the handler after the note was appended. It is not modelled; the model treats every save as successful.
- The arithmetic of Python's `eval`. The evaluator is a parameter returning a value's printed form or an exception's message.
- Tools.Calc: the evaluator is a total function, so it is assumed to terminate. `*` passes the sanitiser, so an input such as `9**9**9**9` reaches `eval` unchanged and does not finish in practice; there is no timeout.
- The wall clock and `datetime.utcnow()`. The time is a parameter in whole seconds. Python's bucket is `int(t // 60)` for a float `t`, which equals the floored minute of the whole seconds `floor(t)`, so nothing is lost for the bucket. The start time is recorded in whole seconds, not as a float.
- GoAgent.Server.SendHandler: the rate check and `loadMem` read the clock separately in Go; the model uses one time for both.
- Unicode whitespace and case. `strip`, `lower` and the pattern's `\s` are modelled on ASCII: whitespace is space, `\t` to `\r` and `\x1c` to `\x1f`, and case is the letters A to Z.
- Go's 64-bit `msgCount`, the Unix time and Python's integers are unbounded here; wrap-around after 2^63 messages is not modelled.
- Concurrency in the Python agent: `improve` takes no lock, so concurrent calls can interleave on the limiter counter and the memory document. The model runs one call at a time.
- The `sync.Mutex` and HTTP serving. Each handler call is one atomic step. The response's JSON encoding and headers are not modelled; the reply is the status with its body, or the input/output pair.
- The Go `healthHandler`, `renderHandler`, `agentsListHandler` and `main`.
- The agent framework adapter and server start-up of the Python agent.
- The separate `spx-today` service is not part of this model: it is network fetches, a foreign model client and floating-point rounding.
