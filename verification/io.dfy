/**
  The IO thread: it accepts clients, turns requests into commands, and owns the FIFOs with their
  two lookup maps.
 */
module IoServer {
  import opened Options
  import opened Protocol
  import opened Allocation
  import Framing

  // ---------------------------------------------------------------- state

  datatype Entry = Entry(metadata: Metadata, serial: Serial, sentinel: string, buf: string)

  /**
    `created` counts the FIFOs made so far and gives the next serial number. `leaked` are the tokens
    of FIFOs whose registration failed: nobody uses them and nobody recycles them.
   */
  datatype IoState = IoState(
    standalone: bool,
    tokens: TokenState,
    fifos: map<Token, Entry>,
    tknBufferIds: map<BufferId, Token>,
    connections: set<Token>,
    sessions: set<string>,
    created: Serial,
    leaked: set<Token>)

  function InitialIo(standalone: bool): IoState {
    IoState(standalone, NO_TOKENS, map[], map[], {}, {}, 0, {})
  }

  datatype Error =
    | UnknownBuffer
    | UnknownToken
    | CannotCreateFifo
    | PollError
    | CannotReadFifo
    | UnixSocketConnectionError

  datatype Feedback = Proceed | ShouldExit

  /** What the operating system does when a FIFO is created. */
  datatype Creation = MkfifoFails | RegistrationFails | Created(sentinel: string)

  datatype Outcome = Outcome(io: IoState, sent: seq<Command>, result: Result<Feedback, Error>)

  // ---------------------------------------------------------------- operations

  function Accept(io: IoState, registered: bool): IoState {
    var (tokens, t) := CreateToken(io.tokens);
    if registered then io.(tokens := tokens, connections := io.connections + {t})
    else io.(tokens := RecycleToken(tokens, t))
  }

  /** What one call to the listener gives; an accepted connection can still fail to register. */
  datatype Accepted = Connection(registered: bool) | WouldBlock | Interrupted | Failed

  /** Connections are accepted until there is none left or something fails. */
  function AcceptAll(io: IoState, script: seq<Accepted>): (IoState, Result<(), Error>)
    decreases |script|
  {
    if script == [] then (io, Ok(()))
    else match script[0]
      case WouldBlock => (io, Ok(()))
      case Interrupted => AcceptAll(io, script[1..])
      case Failed => (io, Err(UnixSocketConnectionError))
      case Connection(registered) =>
        if registered then AcceptAll(Accept(io, true), script[1..]) else (Accept(io, false), Err(PollError))
  }

  function SetBuffer(io: IoState, metadata: Metadata, lang: string, creation: Creation): Outcome {
    match metadata.ToBufferId()
    case None => Outcome(io, [], Err(UnknownBuffer))
    case Some(id) =>
      if id in io.tknBufferIds then
        var t := io.tknBufferIds[id];
        if t in io.fifos then
          var e := io.fifos[t];
          Outcome(io, [Command.BufferMetadata(metadata, lang, e.serial, e.sentinel)], Ok(Proceed))
        else
          Outcome(io, [], Err(UnknownToken))
      else
        match creation
        case MkfifoFails => Outcome(io, [], Err(CannotCreateFifo))
        case RegistrationFails =>
          var (tokens, t) := CreateToken(io.tokens);
          Outcome(io.(tokens := tokens, leaked := io.leaked + {t}), [], Err(PollError))
        case Created(sentinel) =>
          var (tokens, t) := CreateToken(io.tokens);
          Outcome(
            io.(tokens := tokens,
                fifos := io.fifos[t := Entry(metadata, io.created, sentinel, "")],
                tknBufferIds := io.tknBufferIds[id := t],
                created := io.created + 1),
            [Command.BufferMetadata(metadata, lang, io.created, sentinel)],
            Ok(Proceed))
  }

  /** The buffer loses its FIFO, and the token of that FIFO is recycled. */
  function Forget(io: IoState, id: BufferId): IoState
    requires id in io.tknBufferIds
  {
    var t := io.tknBufferIds[id];
    var io := io.(tknBufferIds := io.tknBufferIds - {id});
    if t in io.fifos then io.(fifos := io.fifos - {t}, tokens := RecycleToken(io.tokens, t)) else io
  }

  function CloseBuffer(io: IoState, metadata: Metadata): Outcome {
    match metadata.ToBufferId()
    case None => Outcome(io, [], Err(UnknownBuffer))
    case Some(id) =>
      Outcome(if id in io.tknBufferIds then Forget(io, id) else io,
              [Command.BufferClose(metadata)], Ok(Proceed))
  }

  /** `Reload` only replaces the handler, which is not part of this state. */
  function ProcessReq(io: IoState, req: Request, creation: Creation): Outcome {
    match req.payload
    case SessionBegin =>
      if req.metadata.session in io.sessions then Outcome(io, [], Ok(Proceed))
      else Outcome(io.(sessions := io.sessions + {req.metadata.session}),
                   [Command.SessionInit(req.metadata)], Ok(Proceed))
    case SessionEnd =>
      var io := io.(sessions := io.sessions - {req.metadata.session});
      Outcome(io, [Command.SessionEnd(req.metadata)],
              Ok(if !io.standalone && io.sessions == {} then ShouldExit else Proceed))
    case Reload => Outcome(io, [], Ok(Proceed))
    case Shutdown => Outcome(io, [Command.Shutdown], Ok(ShouldExit))
    case BufferMetadata(lang) => SetBuffer(io, req.metadata, lang, creation)
    case BufferClose => CloseBuffer(io, req.metadata)
    case Query => Outcome(io, [Command.Query(req.metadata)], Ok(Proceed))
  }

  function WithBuf(io: IoState, t: Token, buf: string): IoState
    requires t in io.fifos
  {
    io.(fifos := io.fifos[t := io.fifos[t].(buf := buf)])
  }

  /** A FIFO read without interference: the new state, the text written to the mailbox, the command. */
  function ReadBuffer(io: IoState, t: Token, data: Option<string>): (r: (Outcome, Option<string>)) {
    if t !in io.fifos then (Outcome(io, [], Err(UnknownToken)), None)
    else match data
      case None => (Outcome(WithBuf(io, t, ""), [], Err(CannotReadFifo)), None)
      case Some(text) =>
        var (buf, result) := Framing.Cut(io.fifos[t].buf + text, io.fifos[t].sentinel);
        AfterRead(io, t, buf, result)
  }

  function AfterRead(io: IoState, t: Token, buf: string, result: Framing.FifoResult): (Outcome, Option<string>)
    requires t in io.fifos
  {
    match result
    case Unready => (Outcome(WithBuf(io, t, buf), [], Ok(Proceed)), None)
    case Ready(frame) =>
      var e := io.fifos[t];
      (Outcome(WithBuf(io, t, ""), [Command.BufferUpdate(e.metadata, e.serial)], Ok(Proceed)), Some(frame))
  }

  // ---------------------------------------------------------------- invariant

  /** Each token given out has exactly one user. */
  ghost predicate TokensOwned(tokens: TokenState, clients: set<Token>, fifos: set<Token>, leaked: set<Token>) {
    && WellFormed(tokens)
    && clients !! fifos !! leaked
    && forall t :: InUse(tokens, t) <==> t in clients || t in fifos || t in leaked
  }

  ghost predicate RegisteredAs(fifos: map<Token, Entry>, t: Token, id: BufferId) {
    t in fifos && fifos[t].metadata.ToBufferId() == Some(id)
  }

  /** `tknBufferIds` and the buffer ids recorded in `fifos` are inverse to each other. */
  ghost predicate MapsInverse(fifos: map<Token, Entry>, tknBufferIds: map<BufferId, Token>) {
    && (forall id :: id in tknBufferIds ==> RegisteredAs(fifos, tknBufferIds[id], id))
    && (forall t, id :: RegisteredAs(fifos, t, id) ==> id in tknBufferIds && tknBufferIds[id] == t)
    && (forall t :: t in fifos ==> fifos[t].metadata.buffer.Some?)
  }

  ghost predicate SerialsUnique(fifos: map<Token, Entry>, created: Serial) {
    && (forall t :: t in fifos ==> fifos[t].serial < created)
    && (forall t, u :: t in fifos && u in fifos && t != u ==> fifos[t].serial != fifos[u].serial)
  }

  ghost predicate IoInv(io: IoState) {
    && TokensOwned(io.tokens, io.connections, io.fifos.Keys, io.leaked)
    && MapsInverse(io.fifos, io.tknBufferIds)
    && SerialsUnique(io.fifos, io.created)
  }

  lemma InitialIoInv(standalone: bool)
    ensures IoInv(InitialIo(standalone))
  {
  }

  lemma AcceptKeepsInv(io: IoState, registered: bool)
    requires IoInv(io)
    ensures IoInv(Accept(io, registered))
  {
    CreateTakesAnUnusedToken(io.tokens);
    var (tokens, t) := CreateToken(io.tokens);
    if !registered {
      RecycleReturnsTheToken(tokens, t);
    }
  }

  lemma AddKeepsMapsInverse(fifos: map<Token, Entry>, ids: map<BufferId, Token>, t: Token, id: BufferId, e: Entry)
    requires MapsInverse(fifos, ids) && t !in fifos && id !in ids
    requires e.metadata.ToBufferId() == Some(id)
    ensures MapsInverse(fifos[t := e], ids[id := t])
  {
    var fifos', ids' := fifos[t := e], ids[id := t];
    forall id' | id' in ids'
      ensures RegisteredAs(fifos', ids'[id'], id')
    {
      if id' != id {
        assert RegisteredAs(fifos, ids[id'], id');
      }
    }
    forall u, id' | RegisteredAs(fifos', u, id')
      ensures id' in ids' && ids'[id'] == u
    {
      if u != t {
        assert RegisteredAs(fifos, u, id');
      }
    }
  }

  lemma RemoveKeepsMapsInverse(fifos: map<Token, Entry>, ids: map<BufferId, Token>, id: BufferId)
    requires MapsInverse(fifos, ids) && id in ids
    ensures ids[id] in fifos && MapsInverse(fifos - {ids[id]}, ids - {id})
  {
    assert RegisteredAs(fifos, ids[id], id);
    var fifos', ids' := fifos - {ids[id]}, ids - {id};
    forall id' | id' in ids'
      ensures RegisteredAs(fifos', ids'[id'], id')
    {
      assert RegisteredAs(fifos, ids[id'], id');
    }
    forall u, id' | RegisteredAs(fifos', u, id')
      ensures id' in ids' && ids'[id'] == u
    {
      assert RegisteredAs(fifos, u, id');
    }
  }

  lemma SetBufferKeepsInv(io: IoState, metadata: Metadata, lang: string, creation: Creation)
    requires IoInv(io)
    ensures IoInv(SetBuffer(io, metadata, lang, creation).io)
  {
    var io' := SetBuffer(io, metadata, lang, creation).io;
    if io' != io {
      CreateTakesAnUnusedToken(io.tokens);
      var t := CreateToken(io.tokens).1;
      if creation.Created? {
        var id := metadata.ToBufferId().value;
        assert io'.fifos.Keys == io.fifos.Keys + {t};
        AddKeepsMapsInverse(io.fifos, io.tknBufferIds, t, id, io'.fifos[t]);
      }
    }
  }

  lemma CloseBufferKeepsInv(io: IoState, metadata: Metadata)
    requires IoInv(io)
    ensures IoInv(CloseBuffer(io, metadata).io)
  {
    if metadata.ToBufferId().Some? && metadata.ToBufferId().value in io.tknBufferIds {
      var id := metadata.ToBufferId().value;
      var t := io.tknBufferIds[id];
      RemoveKeepsMapsInverse(io.fifos, io.tknBufferIds, id);
      RecycleReturnsTheToken(io.tokens, t);
      var io' := CloseBuffer(io, metadata).io;
      assert io'.fifos.Keys == io.fifos.Keys - {t};
    }
  }

  lemma ProcessReqKeepsInv(io: IoState, req: Request, creation: Creation)
    requires IoInv(io)
    ensures IoInv(ProcessReq(io, req, creation).io)
  {
    match req.payload {
      case BufferMetadata(lang) => SetBufferKeepsInv(io, req.metadata, lang, creation);
      case BufferClose => CloseBufferKeepsInv(io, req.metadata);
      case _ =>
    }
  }

  lemma WithBufKeepsInv(io: IoState, t: Token, buf: string)
    requires IoInv(io) && t in io.fifos
    ensures IoInv(WithBuf(io, t, buf))
  {
    var fifos := WithBuf(io, t, buf).fifos;
    assert fifos.Keys == io.fifos.Keys;
    assert forall u, id :: RegisteredAs(fifos, u, id) <==> RegisteredAs(io.fifos, u, id);
  }

  /** The lookup of the FIFO of a known buffer never fails. */
  lemma UnknownTokenUnreachable(io: IoState, req: Request, creation: Creation)
    requires IoInv(io)
    ensures ProcessReq(io, req, creation).result != Err(UnknownToken)
  {
    if req.metadata.ToBufferId().Some? {
      var id := req.metadata.ToBufferId().value;
      assert id in io.tknBufferIds ==> RegisteredAs(io.fifos, io.tknBufferIds[id], id);
    }
  }

  // ---------------------------------------------------------------- what becomes of a request

  /** The command is about the same thing as the request. */
  predicate Forwards(c: Command, req: Request) {
    && (!c.Shutdown? ==> c.metadata == req.metadata)
    && match req.payload
       case SessionBegin => c.SessionInit?
       case SessionEnd => c.SessionEnd?
       case Reload => false
       case Shutdown => c.Shutdown?
       case BufferMetadata(lang) => c.BufferMetadata? && c.lang == lang
       case BufferClose => c.BufferClose?
       case Query => c.Query?
  }

  /** Which requests fail, and how. */
  function Failure(io: IoState, req: Request, creation: Creation): Option<Error> {
    var id := req.metadata.ToBufferId();
    if !req.payload.BufferMetadata? && !req.payload.BufferClose? then None
    else if id.None? then Some(UnknownBuffer)
    else if req.payload.BufferClose? || id.value in io.tknBufferIds || creation.Created? then None
    else Some(if creation.MkfifoFails? then CannotCreateFifo else PollError)
  }

  /** Every request that does not fail is forwarded, once and as it is, except a reload and a session begun twice. */
  lemma RequestIsForwarded(io: IoState, req: Request, creation: Creation)
    requires IoInv(io)
    ensures var out := ProcessReq(io, req, creation);
            && (out.result.Err? <==> Failure(io, req, creation).Some?)
            && (out.result.Err? ==> out.result.error == Failure(io, req, creation).value)
            && (if out.result.Err? || req.payload.Reload?
                   || (req.payload.SessionBegin? && req.metadata.session in io.sessions)
                then out.sent == []
                else |out.sent| == 1 && Forwards(out.sent[0], req))
  {
    if req.metadata.ToBufferId().Some? {
      var id := req.metadata.ToBufferId().value;
      assert id in io.tknBufferIds ==> RegisteredAs(io.fifos, io.tknBufferIds[id], id);
    }
  }

  /** For a buffer that is open, the command tells of the FIFO it has; for a new one, of the FIFO just made. */
  lemma MetadataNamesTheFifo(io: IoState, metadata: Metadata, lang: string, creation: Creation)
    requires IoInv(io) && metadata.ToBufferId().Some?
    ensures var id := metadata.ToBufferId().value;
            var out := SetBuffer(io, metadata, lang, creation);
            && (id in io.tknBufferIds ==>
                  && io.tknBufferIds[id] in io.fifos && out.io == io
                  && var e := io.fifos[io.tknBufferIds[id]];
                     out.sent == [Command.BufferMetadata(metadata, lang, e.serial, e.sentinel)])
            && (id !in io.tknBufferIds && creation.Created? ==>
                  && id in out.io.tknBufferIds && out.io.tknBufferIds[id] in out.io.fifos
                  && out.io.fifos[out.io.tknBufferIds[id]] == Entry(metadata, io.created, creation.sentinel, "")
                  && out.sent == [Command.BufferMetadata(metadata, lang, io.created, creation.sentinel)])
            && (id !in io.tknBufferIds && !creation.Created? ==>
                  && out.sent == [] && out.io.tknBufferIds == io.tknBufferIds && out.io.fifos == io.fifos
                  && |out.io.leaked| == |io.leaked| + if creation.MkfifoFails? then 0 else 1)
  {
    var id := metadata.ToBufferId().value;
    assert id in io.tknBufferIds ==> RegisteredAs(io.fifos, io.tknBufferIds[id], id);
    CreateTakesAnUnusedToken(io.tokens);
    var t := CreateToken(io.tokens).1;
    assert InUse(io.tokens, t) <==> t in io.connections || t in io.fifos.Keys || t in io.leaked;
  }

  /** A read that fails loses what was buffered; one that hands out a frame announces it and leaves nothing behind. */
  lemma ReadLeaves(io: IoState, t: Token, data: Option<string>)
    ensures var (out, frame) := ReadBuffer(io, t, data);
            && (out.result == Err(UnknownToken) <==> t !in io.fifos)
            && (out.result == Err(CannotReadFifo) <==> t in io.fifos && data.None?)
            && (out.result.Err? ==> frame.None?)
            && (frame.None? ==> out.sent == [])
            && (t in io.fifos ==>
                  && t in out.io.fifos
                  && (data.None? || frame.Some? ==> out.io.fifos[t].buf == "")
                  && (frame.Some? ==>
                        && out.sent == [Command.BufferUpdate(io.fifos[t].metadata, io.fifos[t].serial)]
                        && io.fifos[t].buf + data.value == frame.value + io.fifos[t].sentinel)
                  && (frame.None? && data.Some? ==>
                        exists lost :: io.fifos[t].buf + data.value == lost + out.io.fifos[t].buf))
  {
    if t in io.fifos && data.Some? {
      Framing.CutSplits(io.fifos[t].buf + data.value, io.fifos[t].sentinel);
    }
  }

  /** The request that ends a server: a shutdown, or the end of the last session of one that is not standalone. */
  predicate EndsServer(io: IoState, req: Request) {
    || req.payload.Shutdown?
    || (req.payload.SessionEnd? && !io.standalone && io.sessions <= {req.metadata.session})
  }

  lemma ExitsIffServerEnds(io: IoState, req: Request, creation: Creation)
    ensures ProcessReq(io, req, creation).result == Ok(ShouldExit) <==> EndsServer(io, req)
  {
    if req.payload.SessionEnd? {
      assert io.sessions - {req.metadata.session} == {} <==> io.sessions <= {req.metadata.session};
    }
  }

  /** A session is tracked from its first begin to its end, whatever else is asked. */
  lemma SessionTrackedIff(io: IoState, req: Request, creation: Creation, session: string)
    ensures session in ProcessReq(io, req, creation).io.sessions
            <==> if req.metadata.session == session && req.payload.SessionBegin? then true
                 else if req.metadata.session == session && req.payload.SessionEnd? then false
                 else session in io.sessions
  {
  }

  // ---------------------------------------------------------------- runs of the IO thread alone

  /** `Connect` is one connection accepted. */
  datatype IoEvent =
    | Connect(registered: bool)
    | Receive(req: Request, creation: Creation)
    | FifoReadable(tkn: Token, data: Option<string>)

  function HandleEvent(io: IoState, ev: IoEvent): IoState {
    match ev
    case Connect(registered) => Accept(io, registered)
    case Receive(req, creation) => ProcessReq(io, req, creation).io
    case FifoReadable(t, data) => ReadBuffer(io, t, data).0.io
  }

  function HandleEvents(io: IoState, events: seq<IoEvent>): IoState {
    if events == [] then io
    else HandleEvent(HandleEvents(io, events[..|events| - 1]), events[|events| - 1])
  }

  /** The invariant holds after any sequence of events. */
  lemma {:induction false} TokenAndMapInvariant(standalone: bool, events: seq<IoEvent>)
    ensures IoInv(HandleEvents(InitialIo(standalone), events))
  {
    if events == [] {
      InitialIoInv(standalone);
    } else {
      var io := HandleEvents(InitialIo(standalone), events[..|events| - 1]);
      TokenAndMapInvariant(standalone, events[..|events| - 1]);
      match events[|events| - 1] {
        case Connect(registered) => AcceptKeepsInv(io, registered);
        case Receive(req, creation) => ProcessReqKeepsInv(io, req, creation);
        case FifoReadable(t, data) =>
          if t in io.fifos {
            WithBufKeepsInv(io, t, ReadBuffer(io, t, data).0.io.fifos[t].buf);
          }
      }
    }
  }

  /** What ends the accept loop. */
  predicate Stops(a: Accepted) {
    a.WouldBlock? || a.Failed? || a == Connection(false)
  }

  /** The connections among what the listener gave, in order. */
  function Connections(script: seq<Accepted>): seq<IoEvent> {
    if script == [] then []
    else (if script[0].Connection? then [Connect(script[0].registered)] else []) + Connections(script[1..])
  }

  /**
    The accept loop accepts every connection there is, one after the other, up to and including the first
    thing that stops it, and that thing decides what it reports.
   */
  lemma {:induction false} AcceptAllIs(io: IoState, script: seq<Accepted>, stop: nat)
    requires stop <= |script| && forall i :: 0 <= i < stop ==> !Stops(script[i])
    requires stop < |script| ==> Stops(script[stop])
    ensures var taken := if stop < |script| then script[..stop + 1] else script;
            AcceptAll(io, script).0 == HandleEvents(io, Connections(taken))
    ensures AcceptAll(io, script).1
            == if stop == |script| || script[stop].WouldBlock? then Ok(())
               else if script[stop].Failed? then Err(UnixSocketConnectionError)
               else Err(PollError)
    decreases |script|
  {
    var taken := if stop < |script| then script[..stop + 1] else script;
    if script != [] {
      var rest := script[1..];
      assert taken != [] && taken[0] == script[0];
      var after := if script[0] == Connection(true) then Accept(io, true) else io;
      OneConnection(io, script[0]);
      if stop == 0 {
        assert taken[1..] == [];
        assert Connections(taken) == Connections([script[0]]);
      } else {
        AcceptAllIs(after, rest, stop - 1);
        assert taken[1..] == if stop - 1 < |rest| then rest[..stop] else rest;
        EventsInTwoParts(io, Connections([script[0]]), Connections(taken[1..]));
      }
    }
  }

  lemma OneConnection(io: IoState, a: Accepted)
    ensures Connections([a]) == if a.Connection? then [Connect(a.registered)] else []
    ensures HandleEvents(io, Connections([a])) == if a.Connection? then Accept(io, a.registered) else io
  {
    assert [a][1..] == [];
    if a.Connection? {
      assert [Connect(a.registered)][..0] == [];
    }
  }

  lemma {:induction false} EventsInTwoParts(io: IoState, first: seq<IoEvent>, second: seq<IoEvent>)
    ensures HandleEvents(io, first + second) == HandleEvents(HandleEvents(io, first), second)
  {
    if second == [] {
      assert first + second == first;
    } else {
      var n := |second| - 1;
      EventsInTwoParts(io, first, second[..n]);
      assert (first + second)[..|first + second| - 1] == first + second[..n];
    }
  }

  ghost function TokensBelow(next: Token): (s: set<Token>)
    requires FIRST_TOKEN <= next
    ensures |s| == next - FIRST_TOKEN
    ensures forall t :: t in s <==> FIRST_TOKEN <= t < next
  {
    if next == FIRST_TOKEN then {} else TokensBelow(next - 1) + {next - 1}
  }

  ghost function Members(free: seq<Token>): (s: set<Token>)
    requires forall i, j :: 0 <= i < j < |free| ==> free[i] != free[j]
    ensures |s| == |free|
    ensures forall t :: t in s <==> t in free
  {
    if free == [] then {}
    else
      var n := |free| - 1;
      assert free == free[..n] + [free[n]];
      Members(free[..n]) + {free[n]}
  }

  /**
    Conservation: the free tokens, the clients, the FIFOs and the failed FIFO registrations add up to
    all tokens ever made.
   */
  lemma TokensConserved(standalone: bool, events: seq<IoEvent>)
    ensures var io := HandleEvents(InitialIo(standalone), events);
            io.tokens.next - FIRST_TOKEN
            == |io.tokens.free| + |io.connections| + |io.fifos.Keys| + |io.leaked|
  {
    TokenAndMapInvariant(standalone, events);
    var io := HandleEvents(InitialIo(standalone), events);
    PartitionCounts(io.tokens, io.connections, io.fifos.Keys, io.leaked);
  }

  lemma PartitionCounts(tokens: TokenState, clients: set<Token>, fifos: set<Token>, leaked: set<Token>)
    requires TokensOwned(tokens, clients, fifos, leaked)
    ensures tokens.next - FIRST_TOKEN == |tokens.free| + |clients| + |fifos| + |leaked|
  {
    var free := Members(tokens.free);
    var made := TokensBelow(tokens.next);
    forall t
      ensures t in made <==> t in free + clients + fifos + leaked
      ensures t in free ==> t !in clients + fifos + leaked
    {
      assert InUse(tokens, t) <==> t in clients || t in fifos || t in leaked;
    }
    assert made == free + clients + fifos + leaked;
    assert free !! clients && (free + clients) !! fifos && (free + clients + fifos) !! leaked;
  }

  /** An open buffer is the one its FIFO was asked for: the same session and the same name. */
  lemma OpenBufferIsNamed(standalone: bool, events: seq<IoEvent>, id: BufferId)
    ensures var io := HandleEvents(InitialIo(standalone), events);
            id in io.tknBufferIds ==>
              && io.tknBufferIds[id] in io.fifos
              && io.fifos[io.tknBufferIds[id]].metadata.session == id.session
              && io.fifos[io.tknBufferIds[id]].metadata.buffer == Some(id.buffer)
  {
    TokenAndMapInvariant(standalone, events);
    var io := HandleEvents(InitialIo(standalone), events);
    if id in io.tknBufferIds {
      assert RegisteredAs(io.fifos, io.tknBufferIds[id], id);
    }
  }

  /** A token never stands for a client and a FIFO at once, so an event reaches one of them only. */
  lemma TokenNamesOneThing(standalone: bool, events: seq<IoEvent>, t: Token)
    ensures var io := HandleEvents(InitialIo(standalone), events);
            && !(t in io.connections && t in io.fifos)
            && (t in io.connections || t in io.fifos ==>
                  t != WAKE_TOKEN && t != UNIX_LISTENER_TOKEN && t !in io.tokens.free)
  {
    TokenAndMapInvariant(standalone, events);
    var io := HandleEvents(InitialIo(standalone), events);
    assert InUse(io.tokens, t) <==> t in io.connections || t in io.fifos || t in io.leaked;
  }

  /** Opening a buffer and closing it again gives every map back, and its token is the next one given out. */
  lemma CloseUndoesOpen(io: IoState, metadata: Metadata, lang: string, sentinel: string)
    requires IoInv(io) && metadata.ToBufferId().Some?
    requires metadata.ToBufferId().value !in io.tknBufferIds
    ensures var during := SetBuffer(io, metadata, lang, Created(sentinel)).io;
            var closed := CloseBuffer(during, metadata).io;
            && closed.fifos == io.fifos && closed.tknBufferIds == io.tknBufferIds
            && closed.connections == io.connections && closed.sessions == io.sessions
            && CreateToken(closed.tokens).1 == CreateToken(io.tokens).1
            && (forall u :: InUse(closed.tokens, u) <==> InUse(io.tokens, u))
  {
    CreateTakesAnUnusedToken(io.tokens);
    var (tokens, t) := CreateToken(io.tokens);
    RecycleReturnsTheToken(tokens, t);
    assert t !in io.fifos;
  }
}
