/** A member's storage service: it acknowledges a store only after the write, and may fail after it too. */
module Member {
  import opened Storage

  datatype StoreReply = Ok | Failed | Canceled

  datatype RetrieveReply = Found(text: string) | Missing | RetrieveCanceled

  class MemberServer {
    const disk: MessageDir
    const ioMode: string

    constructor (disk: MessageDir, ioMode: string)
      ensures this.disk == disk && this.ioMode == ioMode
    {
      this.disk := disk;
      this.ioMode := ioMode;
    }

    /**
     `cancelledBefore` and `cancelledAfter` say whether the caller's context is done before and after the
     write. An acknowledgement means the text is on disk; a cancellation may leave it there as well, and a
     failed write a part of it.
     */
    method Store(id: int, text: string, cancelledBefore: bool, fault: Fault, cancelledAfter: bool)
      returns (reply: StoreReply)
      requires disk.Valid()
      requires cancelledBefore ==> cancelledAfter
      modifies disk
      ensures disk.Valid()
      ensures disk.messages == if cancelledBefore then old(disk.messages)
                               else AfterWrite(old(disk.messages), id, text, fault)
      ensures reply.Ok? ==> disk.messages == old(disk.messages)[id := text]
      ensures reply.Ok? <==> !cancelledAfter && fault.NoFault?
      ensures reply.Canceled? <==> cancelledBefore || (cancelledAfter && fault.NoFault?)
    {
      if cancelledBefore {
        return Canceled;
      }
      var r := disk.WriteMessage(id, text, ioMode, fault);
      if r.WriteError? {
        return Failed;
      }
      if cancelledAfter {
        return Canceled;
      }
      return Ok;
    }

    /** A missing file and a failed read both come back as not found. */
    method Retrieve(id: int, cancelledBefore: bool, readFails: bool, cancelledAfter: bool)
      returns (reply: RetrieveReply)
      requires disk.Valid()
      requires cancelledBefore ==> cancelledAfter
      ensures reply.Found? ==> id in disk.messages && reply.text == disk.messages[id]
      ensures reply.Missing? <==> !cancelledBefore && (id !in disk.messages || readFails)
      ensures !cancelledAfter && !readFails && id in disk.messages ==> reply.Found?
      ensures reply.Found? ==> !cancelledAfter && !readFails
    {
      if cancelledBefore {
        return RetrieveCanceled;
      }
      var r := disk.ReadMessage(id, readFails);
      if !r.Text? {
        return Missing;
      }
      if cancelledAfter {
        return RetrieveCanceled;
      }
      return Found(r.text);
    }
  }
}
