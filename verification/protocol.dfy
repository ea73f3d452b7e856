/** Requests received from Kakoune, and the commands the IO thread queues for the handler thread. */
module Protocol {
  import opened Options

  /** A buffer is identified by its session and its name. */
  datatype BufferId = BufferId(session: string, buffer: string)

  datatype Metadata = Metadata(session: string, client: Option<string>, buffer: Option<string>) {
    /** Fails (`None`) when the request carries no buffer name. */
    function ToBufferId(): Option<BufferId> {
      match buffer
      case Some(name) => Some(BufferId(session, name))
      case None => None
    }
  }

  /** `Query` stands for text objects, navigation and version: they read the trees and change nothing. */
  datatype Payload =
    | SessionBegin
    | SessionEnd
    | Reload
    | Shutdown
    | BufferMetadata(lang: string)
    | BufferClose
    | Query

  datatype Request = Request(metadata: Metadata, payload: Payload)

  /**
    A FIFO and the triple buffer created with it share one serial number. It stands for the fresh
    path of the FIFO and for the identity of the shared memory the reader points to.
   */
  type Serial = nat

  datatype Command =
    | SessionInit(metadata: Metadata)
    | SessionEnd(metadata: Metadata)
    | Shutdown
    | BufferMetadata(metadata: Metadata, lang: string, fifo: Serial, sentinel: string)
    | BufferClose(metadata: Metadata)
    | BufferUpdate(metadata: Metadata, reader: Serial)
    | Query(metadata: Metadata)
}
