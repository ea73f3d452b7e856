/** The IO thread in the form the server has it: one object that owns the FIFOs and updates its maps. */
module IoHandlers {
  import opened Options
  import opened Protocol
  import opened Allocation
  import opened Framing
  import opened Mailboxes
  import opened Sessions
  import opened IoServer

  /** The sending end of the channel to one handler thread. */
  class CommandSender {
    var queue: seq<Command>
    var closed: bool

    constructor ()
      ensures queue == [] && !closed
    {
      queue, closed := [], false;
    }

    method Send(cmd: Command)
      modifies this`queue
      ensures queue == old(queue) + [cmd]
    {
      queue := queue + [cmd];
    }

    /** The handler sees the closed channel once it has received everything. */
    method Drop()
      modifies this`closed
      ensures closed
    {
      closed := true;
    }
  }

  datatype Slot = Slot(metadata: Metadata, fifo: Fifo, mailbox: TripleBuffer)

  class IOHandler {
    const standalone: bool
    const tokens: Tokens
    var fifos: map<Token, Slot>
    var tknBufferIds: map<BufferId, Token>
    var connections: set<Token>
    var sender: CommandSender
    var created: Serial
    ghost var leaked: set<Token>

    ghost var Repr: set<Fifo>
    ghost var Entries: map<Token, Entry>

    /** Every entry owns its FIFO and its mailbox, and both know whom they belong to. */
    ghost predicate Valid()
      reads this, Repr
    {
      && Entries.Keys == fifos.Keys
      && forall t :: t in fifos ==>
        && fifos[t].fifo in Repr
        && fifos[t].fifo.tkn == t
        && fifos[t].fifo.serial == fifos[t].mailbox.serial
        && Entries[t] == Entry(fifos[t].metadata, fifos[t].fifo.serial, fifos[t].fifo.sentinel, fifos[t].fifo.buf)
    }

    ghost function State(tracker: SessionTracker): IoState
      reads this, tokens, tracker
    {
      IoState(standalone, tokens.State(), Entries, tknBufferIds, connections, tracker.sessions,
              created, leaked)
    }

    constructor (standalone: bool, tracker: SessionTracker)
      requires tracker.sessions == {}
      ensures Valid() && State(tracker) == InitialIo(standalone)
      ensures fresh(tokens) && fresh(sender) && sender.queue == []
    {
      this.standalone := standalone;
      tokens := new Tokens();
      fifos := map[];
      tknBufferIds := map[];
      connections := {};
      sender := new CommandSender();
      created := 0;
      leaked := {};
      Repr, Entries := {}, map[];
    }

    /** Accepts connections until there is none left or something fails. */
    method UnixListenerAccept(tracker: SessionTracker, script: seq<Accepted>) returns (r: Result<(), Error>)
      requires Valid()
      modifies this, tokens
      ensures Valid() && (State(tracker), r) == AcceptAll(old(State(tracker)), script)
      ensures sender == old(sender)
    {
      ghost var outcome := AcceptAll(State(tracker), script);
      var i := 0;
      assert script[0..] == script;
      while i < |script|
        invariant 0 <= i <= |script|
        invariant Valid() && sender == old(sender)
        invariant AcceptAll(State(tracker), script[i..]) == outcome
      {
        assert script[i..][1..] == script[i + 1..];
        match script[i] {
          case WouldBlock =>
            break;
          case Interrupted =>
          case Failed =>
            return Err(UnixSocketConnectionError);
          case Connection(registered) =>
            AcceptOne(tracker, registered);
            if !registered {
              return Err(PollError);
            }
        }
        i := i + 1;
      }
      return Ok(());
    }

    method AcceptOne(tracker: SessionTracker, registered: bool)
      requires Valid()
      modifies this`connections, tokens
      ensures Valid() && State(tracker) == Accept(old(State(tracker)), registered)
    {
      var t := tokens.Create();
      if !registered {
        tokens.Recycle(t);
        return;
      }
      connections := connections + {t};
    }

    /** Creates a FIFO and its triple buffer, and enters them in both maps. */
    method OpenFifo(metadata: Metadata, id: BufferId, sentinel: string)
      requires Valid()
      modifies this`fifos, this`tknBufferIds, this`created, this`Repr, this`Entries, tokens
      ensures Valid()
      ensures var (made, t) := CreateToken(old(tokens.State()));
              && tokens.State() == made
              && tknBufferIds == old(tknBufferIds)[id := t]
              && Entries == old(Entries)[t := Entry(metadata, old(created), sentinel, "")]
      ensures created == old(created) + 1
    {
      var t := tokens.Create();
      var fifo := new Fifo(created, t, sentinel);
      var mailbox := new TripleBuffer(created);
      tknBufferIds := tknBufferIds[id := t];
      fifos := fifos[t := Slot(metadata, fifo, mailbox)];
      created := created + 1;
      Repr := Repr + {fifo};
      Entries := Entries[t := Entry(metadata, fifo.serial, sentinel, "")];
    }

    /** Removes a buffer from both maps; dropping its FIFO gives the token back. */
    method ForgetBuffer(tracker: SessionTracker, id: BufferId)
      requires Valid() && id in tknBufferIds
      modifies this`fifos, this`tknBufferIds, this`Entries, tokens
      ensures Valid()
      ensures State(tracker) == Forget(old(State(tracker)), id)
    {
      var t := tknBufferIds[id];
      tknBufferIds := tknBufferIds - {id};
      if t in fifos {
        RemoveFifo(t);
      }
    }

    method RemoveFifo(t: Token)
      requires Valid() && t in fifos
      modifies this`fifos, this`Entries, tokens
      ensures Valid()
      ensures Entries == old(Entries) - {t} && tokens.State() == RecycleToken(old(tokens.State()), t)
    {
      var tkn := fifos[t].fifo.tkn;
      fifos := fifos - {t};
      Entries := Entries - {t};
      tokens.Recycle(tkn);
    }

    method HandleSetBuffer(tracker: SessionTracker, metadata: Metadata, lang: string, creation: Creation)
      returns (result: Result<Feedback, Error>)
      requires Valid()
      modifies this`fifos, this`tknBufferIds, this`created, this`leaked, this`Repr, this`Entries, tokens, sender
      ensures Valid()
      ensures var out := SetBuffer(old(State(tracker)), metadata, lang, creation);
              && State(tracker) == out.io && result == out.result
              && sender.queue == old(sender.queue) + out.sent
    {
      match metadata.ToBufferId() {
        case None =>
          return Err(UnknownBuffer);
        case Some(id) =>
          if id in tknBufferIds {
            var t := tknBufferIds[id];
            if t !in fifos {
              return Err(UnknownToken);
            }
            sender.Send(Command.BufferMetadata(metadata, lang, fifos[t].fifo.serial, fifos[t].fifo.sentinel));
            return Ok(Proceed);
          }
          match creation {
            case MkfifoFails =>
              return Err(CannotCreateFifo);
            case RegistrationFails =>
              var t := tokens.Create();
              leaked := leaked + {t};
              return Err(PollError);
            case Created(sentinel) =>
              var serial := created;
              OpenFifo(metadata, id, sentinel);
              sender.Send(Command.BufferMetadata(metadata, lang, serial, sentinel));
              return Ok(Proceed);
          }
      }
    }

    method HandleCloseBuffer(tracker: SessionTracker, metadata: Metadata)
      returns (result: Result<Feedback, Error>)
      requires Valid()
      modifies this`fifos, this`tknBufferIds, this`Entries, tokens, sender
      ensures Valid()
      ensures var out := CloseBuffer(old(State(tracker)), metadata);
              && State(tracker) == out.io && result == out.result
              && sender.queue == old(sender.queue) + out.sent
    {
      match metadata.ToBufferId() {
        case None =>
          return Err(UnknownBuffer);
        case Some(id) =>
          if id in tknBufferIds {
            ForgetBuffer(tracker, id);
          }
          sender.Send(Command.BufferClose(metadata));
          return Ok(Proceed);
      }
    }

    method HandleSession(tracker: SessionTracker, req: Request)
      returns (result: Result<Feedback, Error>)
      requires Valid() && (req.payload.SessionBegin? || req.payload.SessionEnd?)
      modifies sender, tracker
      ensures Valid()
      ensures var out := ProcessReq(old(State(tracker)), req, MkfifoFails);
              && State(tracker) == out.io && result == out.result
              && sender.queue == old(sender.queue) + out.sent
    {
      if req.payload.SessionBegin? {
        var tracked := tracker.Tracks(req.metadata.session);
        if !tracked {
          tracker.Track(req.metadata.session);
          sender.Send(Command.SessionInit(req.metadata));
        }
        return Ok(Proceed);
      }
      sender.Send(Command.SessionEnd(req.metadata));
      tracker.Untrack(req.metadata.session);
      var empty := tracker.IsEmpty();
      return Ok(if !standalone && empty then ShouldExit else Proceed);
    }

    /** Everything but `Reload`, which replaces the handler. */
    method HandleRequest(tracker: SessionTracker, req: Request, creation: Creation)
      returns (result: Result<Feedback, Error>)
      requires Valid() && !req.payload.Reload?
      modifies this`fifos, this`tknBufferIds, this`created, this`leaked, this`Repr, this`Entries
      modifies tokens, sender, tracker
      ensures Valid()
      ensures var out := ProcessReq(old(State(tracker)), req, creation);
              && State(tracker) == out.io && result == out.result
              && sender.queue == old(sender.queue) + out.sent
    {
      match req.payload {
        case SessionBegin =>
          result := HandleSession(tracker, req);
        case SessionEnd =>
          result := HandleSession(tracker, req);
        case Shutdown =>
          sender.Send(Command.Shutdown);
          result := Ok(ShouldExit);
        case BufferMetadata(lang) =>
          result := HandleSetBuffer(tracker, req.metadata, lang, creation);
        case BufferClose =>
          result := HandleCloseBuffer(tracker, req.metadata);
        case Query =>
          sender.Send(Command.Query(req.metadata));
          result := Ok(Proceed);
      }
    }

    /** A new handler gets a new channel, and the old channel is closed. */
    method HandleReload(tracker: SessionTracker, configLoads: bool)
      requires Valid()
      modifies this`sender, sender`closed
      ensures Valid() && State(tracker) == old(State(tracker)) && old(sender).queue == old(sender.queue)
      ensures if configLoads then fresh(sender) && sender.queue == [] && !sender.closed && old(sender).closed
              else sender == old(sender) && sender.closed == old(sender.closed)
    {
      if configLoads {
        var dropped := sender;
        sender := new CommandSender();
        dropped.Drop();
      }
    }

    /** A complete frame goes to the mailbox, the FIFO is cleared, then the handler is told. */
    method Deliver(t: Token, text: string)
      requires Valid() && t in fifos
      modifies this`Entries, fifos[t].fifo, fifos[t].mailbox, sender
      ensures Valid()
      ensures Entries == old(Entries)[t := old(Entries)[t].(buf := "")]
      ensures fifos[t].mailbox.State() == Mailboxes.Write(old(fifos[t].mailbox.State()), text)
      ensures sender.queue
              == old(sender.queue) + [Command.BufferUpdate(fifos[t].metadata, fifos[t].fifo.serial)]
    {
      var slot := fifos[t];
      slot.mailbox.WriteText(text);
      slot.fifo.Clear();
      Entries := Entries[t := Entries[t].(buf := "")];
      sender.Send(Command.BufferUpdate(slot.metadata, slot.mailbox.serial));
    }

    method ReadFifo(t: Token, script: seq<ReadOutcome>)
      returns (read: Result<FifoResult, FifoError>)
      requires Valid() && t in fifos
      modifies this`Entries, fifos[t].fifo
      ensures Valid()
      ensures var e := old(Entries)[t];
              match Collect(script)
              case None => Entries == old(Entries)[t := e.(buf := "")] && read.Err?
              case Some(data) =>
                var (buf, r) := Cut(e.buf + data, e.sentinel);
                Entries == old(Entries)[t := e.(buf := buf)] && read == Ok(r)
    {
      read := fifos[t].fifo.Read(script);
      Entries := Entries[t := Entries[t].(buf := fifos[t].fifo.buf)];
    }

    /** What a read without error came to. */
    method HandleRead(tracker: SessionTracker, t: Token, read: FifoResult)
      requires Valid() && t in fifos
      modifies this`Entries, fifos[t].fifo, fifos[t].mailbox, sender
      ensures Valid()
      ensures var (out, written) := AfterRead(old(State(tracker)), t, old(Entries)[t].buf, read);
              && State(tracker) == out.io
              && sender.queue == old(sender.queue) + out.sent
              && fifos[t].mailbox.State()
                 == if written.Some? then Mailboxes.Write(old(fifos[t].mailbox.State()), written.value)
                    else old(fifos[t].mailbox.State())
    {
      match read {
        case Unready =>
          assert Entries == Entries[t := Entries[t].(buf := Entries[t].buf)];
        case Ready(text) =>
          Deliver(t, text);
      }
    }

    method HandleReadable(tracker: SessionTracker, t: Token, script: seq<ReadOutcome>)
      returns (result: Result<Feedback, Error>)
      requires Valid()
      modifies this`Entries, if t in fifos then {fifos[t].fifo, fifos[t].mailbox} else {}, sender
      ensures Valid()
      ensures var (out, written) := ReadBuffer(old(State(tracker)), t, Collect(script));
              && State(tracker) == out.io && result == out.result
              && sender.queue == old(sender.queue) + out.sent
              && (t in fifos ==>
                    fifos[t].mailbox.State()
                    == if written.Some? then Mailboxes.Write(old(fifos[t].mailbox.State()), written.value)
                       else old(fifos[t].mailbox.State()))
    {
      if t !in fifos {
        return Err(UnknownToken);
      }
      ghost var before := State(tracker);
      var read := ReadFifo(t, script);
      if read.Err? {
        return Err(Error.CannotReadFifo);
      }
      ghost var buf := Entries[t].buf;
      assert State(tracker) == WithBuf(before, t, buf);
      AfterReadTwice(before, t, buf, read.value);
      HandleRead(tracker, t, read.value);
      return Ok(Proceed);
    }
  }

  lemma AfterReadTwice(io: IoState, t: Token, buf: string, read: FifoResult)
    requires t in io.fifos
    ensures AfterRead(WithBuf(io, t, buf), t, buf, read) == AfterRead(io, t, buf, read)
  {
    assert WithBuf(WithBuf(io, t, buf), t, buf) == WithBuf(io, t, buf);
    assert WithBuf(WithBuf(io, t, buf), t, "") == WithBuf(io, t, "");
  }
}
