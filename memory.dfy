/** The persisted memory document shared by both agents: the notes the user
    asked to remember and the message metrics. */
module Memory {

  /** One remembered snippet and its UTC ISO-8601 timestamp. */
  datatype Note = Note(text: string, ts: string)

  /** The whole document: notes in insertion order, the processed-message
      counter and the start time in epoch seconds. */
  datatype Document = Document(notes: seq<Note>, messages: int, startTs: int)

  /** The document both agents start from when there is no memory file. */
  function Fresh(nowSec: int): (d: Document)
    ensures d.notes == [] && d.messages == 0 && d.startTs == nowSec
  {
    Document([], 0, nowSec)
  }
}
