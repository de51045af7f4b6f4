/**
 A member's message directory: one file for each message, named after the printed id. The directory
 is shown to behave as a map from ids to the texts last written.
 */
module Storage {
  import opened Decimal

  /** What may go wrong in a write: it is refused, or it breaks off with the first `kept` characters written. */
  datatype Fault = NoFault | MkdirFails | CreateFails | BreaksOff(kept: nat)

  datatype WriteResult = Written | WriteError

  datatype ReadResult = Text(text: string) | NotFound | ReadError

  function FileName(id: int): string {
    Itoa(id) + ".msg"
  }

  lemma FileNameInjective(a: int, b: int)
    requires FileName(a) == FileName(b)
    ensures a == b
  {
    var s, t := FileName(a), FileName(b);
    assert s[..|s| - 4] == Itoa(a);
    assert t[..|t| - 4] == Itoa(b);
    ItoaInjective(a, b);
  }

  /** The files stand for `messages`: the named file exists, with the text, exactly for the ids in the map. */
  ghost predicate Represents(files: map<string, string>, messages: map<int, string>) {
    forall id ::
      && (FileName(id) in files <==> id in messages)
      && (id in messages ==> files[FileName(id)] == messages[id])
  }

  lemma WriteRepresents(files: map<string, string>, messages: map<int, string>, id: int, text: string)
    requires Represents(files, messages)
    ensures Represents(files[FileName(id) := text], messages[id := text])
  {
    forall other | FileName(other) == FileName(id) ensures other == id {
      FileNameInjective(other, id);
    }
  }

  /** The part of the text that reaches the file, if the file is opened at all. */
  function Surviving(text: string, fault: Fault): (part: Option<string>)
    ensures part.Some? ==> part.value <= text
    ensures fault.NoFault? ==> part == Some(text)
  {
    match fault
    case NoFault => Some(text)
    case BreaksOff(kept) => Some(if kept < |text| then text[..kept] else text)
    case _ => None
  }

  /** The messages after a write under this fault: only that of `id` can change. */
  function AfterWrite(messages: map<int, string>, id: int, text: string, fault: Fault): map<int, string> {
    var part := Surviving(text, fault);
    if part.Some? then messages[id := part.value] else messages
  }

  datatype Write = Write(id: int, text: string)

  /** The directory after a sequence of writes into an empty one. */
  function FilesAfter(writes: seq<Write>): map<string, string> {
    if writes == [] then map[]
    else
      var w := writes[|writes| - 1];
      FilesAfter(writes[..|writes| - 1])[FileName(w.id) := w.text]
  }

  /** The same writes into a map from ids to texts. */
  function MessagesAfter(writes: seq<Write>): map<int, string> {
    if writes == [] then map[]
    else
      var w := writes[|writes| - 1];
      MessagesAfter(writes[..|writes| - 1])[w.id := w.text]
  }

  /** After any writes the directory stands for the map: each id's file holds that id's last text. */
  lemma {:induction false} DirectoryIsAMap(writes: seq<Write>)
    ensures Represents(FilesAfter(writes), MessagesAfter(writes))
  {
    if writes != [] {
      var w := writes[|writes| - 1];
      var before := writes[..|writes| - 1];
      DirectoryIsAMap(before);
      WriteRepresents(FilesAfter(before), MessagesAfter(before), w.id, w.text);
    }
  }

  class MessageDir {
    var files: map<string, string>
    ghost var messages: map<int, string>

    ghost predicate Valid()
      reads this
    {
      Represents(files, messages)
    }

    constructor ()
      ensures Valid() && messages == map[]
    {
      files := map[];
      messages := map[];
    }

    method WriteMessage(id: int, text: string, mode: string, fault: Fault) returns (r: WriteResult)
      requires Valid()
      modifies this
      ensures Valid()
      ensures r.Written? <==> fault.NoFault?
      ensures messages == AfterWrite(old(messages), id, text, fault)
    {
      if fault.MkdirFails? {
        return WriteError;
      }
      if mode == "unbuffered" {
        r := WriteUnbuffered(id, text, fault);
      } else {
        r := WriteBuffered(id, text, fault);
      }
    }

    /** Truncates or creates the file, then flushes the buffered text into it. */
    method WriteBuffered(id: int, text: string, fault: Fault) returns (r: WriteResult)
      requires Valid() && !fault.MkdirFails?
      modifies this
      ensures Valid()
      ensures r.Written? <==> fault.NoFault?
      ensures messages == AfterWrite(old(messages), id, text, fault)
    {
      var filename := FileName(id);
      if fault.CreateFails? {
        return WriteError;
      }
      WriteRepresents(files, messages, id, Surviving(text, fault).value);
      files := files[filename := ""];
      var flushed := if fault.BreaksOff? && fault.kept < |text| then text[..fault.kept] else text;
      files := files[filename := files[filename] + flushed];
      assert "" + flushed == flushed;
      messages := AfterWrite(messages, id, text, fault);
      assert files == old(files)[filename := flushed];
      return if fault.BreaksOff? then WriteError else Written;
    }

    method WriteUnbuffered(id: int, text: string, fault: Fault) returns (r: WriteResult)
      requires Valid() && !fault.MkdirFails?
      modifies this
      ensures Valid()
      ensures r.Written? <==> fault.NoFault?
      ensures messages == AfterWrite(old(messages), id, text, fault)
    {
      if fault.CreateFails? {
        return WriteError;
      }
      WriteRepresents(files, messages, id, Surviving(text, fault).value);
      files := files[FileName(id) := if fault.BreaksOff? && fault.kept < |text| then text[..fault.kept] else text];
      messages := AfterWrite(messages, id, text, fault);
      return if fault.BreaksOff? then WriteError else Written;
    }

    /** A missing file is reported as not found; any other failure is passed on. */
    method ReadMessage(id: int, readFails: bool) returns (r: ReadResult)
      requires Valid()
      ensures r == if id !in messages then NotFound else if readFails then ReadError else Text(messages[id])
    {
      var filename := FileName(id);
      if filename !in files {
        return NotFound;
      }
      if readFails {
        return ReadError;
      }
      return Text(files[filename]);
    }
  }
}
