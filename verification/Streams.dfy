/** In-memory files: contents with a cursor. */
module Streams {
  import opened Wrappers
  import opened Documents

  /** What a raw read gets from a cursor: everything, or only a tail that is no PDF any more. */
  function ReadFrom(content: Blob, pos: nat): Blob {
    if pos == 0 then content else Tail(content, pos)
  }

  function Size(b: Blob): nat {
    match b
    case Tail(whole, _) => 1 + Size(whole)
    case _ => 0
  }

  /** A raw read gets the whole contents exactly when the cursor is at the beginning. */
  lemma ReadsAllIff(content: Blob, pos: nat)
    ensures ReadFrom(content, pos) == content <==> pos == 0
  {
    assert Size(Tail(content, pos)) != Size(content);
  }

  class BytesIO {
    var content: Blob
    var pos: nat

    constructor (content: Blob)
      ensures this.content == content && pos == 0
    {
      this.content, pos := content, 0;
    }

    /** seek(0) */
    method Rewind()
      modifies this`pos
      ensures pos == 0
    {
      pos := 0;
    }

    /** read(): from the cursor on, which is left somewhere else. */
    method Read() returns (data: Blob)
      modifies this`pos
      ensures data == ReadFrom(content, old(pos))
    {
      data := ReadFrom(content, pos);
      pos := *;
    }

    /** A PDF library opening the file: it sees all of it wherever the cursor is, and leaves the cursor anywhere. */
    method Open() returns (document: Option<Document>)
      modifies this`pos
      ensures document == if content.Pdf? then Some(content.document) else None
    {
      document := if content.Pdf? then Some(content.document) else None;
      pos := *;
    }
  }
}
