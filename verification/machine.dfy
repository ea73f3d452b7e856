/**
  The whole server as a step machine: the IO thread, the handler thread and the clients take turns in
  any order. A step is one atomic action, so the handler can look at the read flag of a mailbox
  between the two stores of a write.
 */
module Machines {
  import opened Options
  import opened Protocol
  import opened Allocation
  import opened Mailboxes
  import opened IoServer
  import opened TreeStore
  import Framing

  // ---------------------------------------------------------------- state

  /** Where the IO thread stands. `t` is the token of the FIFO it is reading. */
  datatype IoPc =
    | Idle
    | Writing(t: Token, text: string)
    | Flagging(t: Token)
    | Clearing(t: Token)
    | Sending(t: Token)
    | Closing
    | Joining
    | Stopped

  // `Closing` and `Joining` are the two halves of dropping the old sender on a reload.

  /** Where a handler thread stands; everything after `Checking` is about the mailbox `m`. */
  datatype HandlerPc =
    | Receiving
    | Checking(id: BufferId, m: Serial)
    | Swapping(id: BufferId, m: Serial)
    | Marking(id: BufferId, m: Serial)
    | Parsing(id: BufferId)
    | Exited

  /** `closed` says that the sending end of its channel is gone. */
  datatype Worker = Worker(queue: seq<Command>, closed: bool, trees: TreeMap, pc: HandlerPc)

  const NEW_WORKER := Worker([], false, map[], Receiving)

  /**
    What happened so far; no step looks at it. `written` are the texts put in each mailbox, `owner`
    the buffer each mailbox was made for, `wires` the byte streams of the FIFOs, and `log` every
    command ever sent. `fed[id] == m` records that since the tree of `id` was made, it was swapped
    with mailbox `m`, and `m` was the last one. `disturbed` are the mailboxes whose buffer met a
    failed first `BufferMetadata`, a `SessionEnd` of its session, or a `Reload`. `stale` are the buffers
    whose last text failed to parse.
   */
  datatype History = History(
    log: seq<Command>,
    written: map<Serial, seq<string>>,
    owner: map<Serial, BufferId>,
    wires: map<Serial, Framing.Wire>,
    fed: map<BufferId, Serial>,
    disturbed: set<Serial>,
    stale: set<BufferId>)

  /** `incoming` is the new handler while the old one is being waited for. */
  datatype Machine = Machine(
    io: IoState,
    pc: IoPc,
    boxes: map<Serial, Mailbox>,
    worker: Worker,
    incoming: Option<Worker>,
    hist: History)

  function Init(standalone: bool): Machine {
    Machine(InitialIo(standalone), Idle, map[], NEW_WORKER, None,
            History([], map[], map[], map[], map[], {}, {}))
  }

  // ---------------------------------------------------------------- steps of a handler thread

  /** `Hangup` is a receive that finds the channel closed and empty. */
  datatype HandlerStep = Recv(langOk: bool, parses: bool) | Hangup | Check | Swap | Mark | Parse(parses: bool)

  ghost predicate WorkerCan(w: Worker, boxes: map<Serial, Mailbox>, step: HandlerStep) {
    match step
    case Recv(_, _) => w.pc.Receiving? && w.queue != []
    case Hangup => w.pc.Receiving? && w.queue == [] && w.closed
    case Check => w.pc.Checking? && w.pc.m in boxes
    case Swap => w.pc.Swapping? && w.pc.m in boxes && boxes[w.pc.m].lock.Free? && w.pc.id in w.trees
    case Mark => w.pc.Marking? && w.pc.m in boxes && boxes[w.pc.m].lock.HeldByReader?
    case Parse(_) => w.pc.Parsing? && w.pc.id in w.trees
  }

  function Receive(w: Worker, langOk: bool, parses: bool): Worker
    requires w.queue != []
  {
    var rest := w.(queue := w.queue[1..]);
    match w.queue[0]
    case SessionInit(_) => rest
    case Query(_) => rest
    case Shutdown => rest.(pc := Exited)
    case SessionEnd(metadata) => rest.(trees := CleanSession(w.trees, metadata.session))
    case BufferMetadata(metadata, lang, _, _) =>
      if langOk && metadata.ToBufferId().Some?
      then rest.(trees := Compute(w.trees, metadata.ToBufferId().value, lang, parses))
      else rest
    case BufferClose(metadata) =>
      if metadata.ToBufferId().Some? then rest.(trees := w.trees - {metadata.ToBufferId().value}) else rest
    case BufferUpdate(metadata, m) =>
      if metadata.ToBufferId().Some? && metadata.ToBufferId().value in w.trees
      then rest.(pc := Checking(metadata.ToBufferId().value, m))
      else rest
  }

  function WorkerStep(w: Worker, boxes: map<Serial, Mailbox>, step: HandlerStep): (Worker, map<Serial, Mailbox>)
    requires WorkerCan(w, boxes, step)
  {
    match step
    case Recv(langOk, parses) => (Receive(w, langOk, parses), boxes)
    case Hangup => (w.(pc := Exited), boxes)
    case Check =>
      (w.(pc := if boxes[w.pc.m].wasRead then Receiving else Swapping(w.pc.id, w.pc.m)), boxes)
    case Swap =>
      var (box, buf) := SwapText(boxes[w.pc.m], w.trees[w.pc.id].buf);
      (w.(trees := w.trees[w.pc.id := w.trees[w.pc.id].(buf := buf)], pc := Marking(w.pc.id, w.pc.m)),
       boxes[w.pc.m := box])
    case Mark =>
      (w.(pc := Parsing(w.pc.id)), boxes[w.pc.m := MarkRead(boxes[w.pc.m])])
    case Parse(parses) =>
      (w.(trees := w.trees[w.pc.id := Recompute(w.trees[w.pc.id], parses)], pc := Receiving), boxes)
  }

  /** Alone, the small steps of one update do what the handler's update function does. */
  lemma UninterruptedUpdate(w: Worker, boxes: map<Serial, Mailbox>, inc: Incoming, highlighting: bool)
    requires w.pc.Receiving? && w.queue != [] && w.queue[0].BufferUpdate?
    requires inc.cmd == w.queue[0] && Readable(boxes, [inc])
    requires w.queue[0].metadata.ToBufferId().Some?
    requires w.queue[0].metadata.ToBufferId().value in w.trees
    ensures var (trees, boxes', _) := HandleCommand(w.trees, boxes, inc, highlighting);
            var w1 := WorkerStep(w, boxes, Recv(inc.langOk, inc.parses)).0;
            w1.pc.Checking? && w1.pc.m in boxes &&
            var w2 := WorkerStep(w1, boxes, Check).0;
            if w2.pc.Receiving? then (w2.trees, boxes) == (trees, boxes')
            else
              WorkerCan(w2, boxes, Swap) &&
              var (w3, b3) := WorkerStep(w2, boxes, Swap);
              WorkerCan(w3, b3, Mark) &&
              var (w4, b4) := WorkerStep(w3, b3, Mark);
              WorkerCan(w4, b4, Parse(inc.parses)) &&
              var (w5, b5) := WorkerStep(w4, b4, Parse(inc.parses));
              w5.pc.Receiving? && (w5.trees, b5) == (trees, boxes')
  {
    assert inc == [inc][0];
    var id, m := w.queue[0].metadata.ToBufferId().value, w.queue[0].reader;
    if boxes[m].wasRead {
      assert w.trees[id := w.trees[id]] == w.trees && boxes[m := boxes[m]] == boxes;
    } else {
      var (t, box, _) := UpdateBuf(w.trees[id], boxes[m], inc.parses);
      var (swapped, buf) := SwapText(boxes[m], w.trees[id].buf);
      assert w.trees[id := w.trees[id].(buf := buf)][id := t] == w.trees[id := t];
      assert boxes[m := swapped][m := box] == boxes[m := box];
    }
  }

  /** The other commands take one step each, which does what the handler's functions for them do. */
  lemma UninterruptedCommand(w: Worker, boxes: map<Serial, Mailbox>, inc: Incoming, highlighting: bool)
    requires w.queue != [] && inc.cmd == w.queue[0] && Readable(boxes, [inc])
    requires inc.cmd.BufferUpdate? ==>
               inc.cmd.metadata.ToBufferId().None? || inc.cmd.metadata.ToBufferId().value !in w.trees
    ensures var (trees, boxes', _) := HandleCommand(w.trees, boxes, inc, highlighting);
            var w' := Receive(w, inc.langOk, inc.parses);
            && w'.trees == trees && boxes' == boxes && w'.queue == w.queue[1..]
            && w'.pc == if inc.cmd.Shutdown? then Exited else w.pc
  {
    assert inc == [inc][0];
  }

  // ---------------------------------------------------------------- steps of the IO thread

  datatype IoStep =
    | Connect(registered: bool)
    | Serve(req: Request, creation: Creation)
    | ReloadConfig(configLoads: bool)
    | ReadFifo(tkn: Token, n: nat)
    | WriteText
    | StoreFlag
    | ClearFifo
    | SendUpdate
    | CloseChannel
    | Join

  function SerialOf(s: Machine, t: Token): Serial
    requires t in s.io.fifos
  {
    s.io.fifos[t].serial
  }

  ghost predicate Busy(s: Machine) {
    && (s.pc.Writing? || s.pc.Flagging? || s.pc.Clearing? || s.pc.Sending?)
    && s.pc.t in s.io.fifos
    && SerialOf(s, s.pc.t) in s.boxes
    && SerialOf(s, s.pc.t) in s.hist.wires
    && SerialOf(s, s.pc.t) in s.hist.written
  }

  ghost predicate IoCan(s: Machine, step: IoStep) {
    match step
    case Connect(_) => s.pc.Idle?
    case Serve(req, _) => s.pc.Idle? && !req.payload.Reload?
    case ReloadConfig(_) => s.pc.Idle?
    case ReadFifo(t, n) =>
      && s.pc.Idle? && t in s.io.fifos && SerialOf(s, t) in s.hist.wires
      && n <= |s.hist.wires[SerialOf(s, t)].rest|
    case WriteText => s.pc.Writing? && Busy(s) && s.boxes[SerialOf(s, s.pc.t)].lock.Free?
    case StoreFlag => s.pc.Flagging? && Busy(s) && s.boxes[SerialOf(s, s.pc.t)].lock.HeldByWriter?
    case ClearFifo => s.pc.Clearing? && Busy(s)
    case SendUpdate => s.pc.Sending? && Busy(s)
    case CloseChannel => (s.pc.Closing? || s.pc.Stopped?) && !s.worker.closed
    case Join => s.pc.Joining? && s.incoming.Some? && s.worker.pc.Exited?
  }

  /** The mailboxes of the open buffers that satisfy `p`. */
  ghost function OpenSerials(io: IoState, p: BufferId -> bool): set<Serial> {
    set id | id in io.tknBufferIds && p(id) && io.tknBufferIds[id] in io.fifos
      :: io.fifos[io.tknBufferIds[id]].serial
  }

  /** The request makes a FIFO and a triple buffer. */
  ghost predicate Opens(io: IoState, req: Request, creation: Creation) {
    && req.payload.BufferMetadata? && creation.Created?
    && req.metadata.ToBufferId().Some? && req.metadata.ToBufferId().value !in io.tknBufferIds
  }

  ghost predicate Closes(io: IoState, req: Request) {
    && req.payload.BufferClose?
    && req.metadata.ToBufferId().Some? && req.metadata.ToBufferId().value in io.tknBufferIds
  }

  ghost function DoRequest(s: Machine, req: Request, creation: Creation): Machine {
    var out := ProcessReq(s.io, req, creation);
    var queued := s.(
      io := out.io,
      pc := if out.result == Ok(ShouldExit) then Stopped else Idle,
      worker := s.worker.(queue := s.worker.queue + out.sent),
      hist := s.hist.(log := s.hist.log + out.sent));
    if Opens(s.io, req, creation) then
      var m := s.io.created;
      queued.(
        boxes := s.boxes[m := NEW_MAILBOX],
        hist := queued.hist.(
          written := s.hist.written[m := []],
          owner := s.hist.owner[m := req.metadata.ToBufferId().value],
          wires := s.hist.wires[m := Framing.NewWire(creation.sentinel)]))
    else if req.payload.SessionEnd? then
      queued.(hist := queued.hist.(
        disturbed := s.hist.disturbed
                     + OpenSerials(s.io, (id: BufferId) => id.session == req.metadata.session)))
    else
      queued
  }

  ghost function IoNext(s: Machine, step: IoStep): Machine
    requires IoCan(s, step)
  {
    match step
    case Connect(registered) => s.(io := Accept(s.io, registered))
    case Serve(req, creation) => DoRequest(s, req, creation)
    case ReloadConfig(configLoads) =>
      if configLoads
      then s.(pc := Closing, incoming := Some(NEW_WORKER),
              hist := s.hist.(disturbed := s.hist.disturbed + OpenSerials(s.io, (id: BufferId) => true)))
      else s
    case ReadFifo(t, n) =>
      var m := SerialOf(s, t);
      var (wire, buf, result) := Framing.Receive(s.hist.wires[m], s.io.fifos[t].buf, n);
      s.(io := WithBuf(s.io, t, buf),
         pc := if result.Ready? then Writing(t, result.text) else Idle,
         hist := s.hist.(wires := s.hist.wires[m := wire]))
    case WriteText =>
      var m := SerialOf(s, s.pc.t);
      s.(pc := Flagging(s.pc.t),
         boxes := s.boxes[m := PutText(s.boxes[m], s.pc.text)],
         hist := s.hist.(written := s.hist.written[m := s.hist.written[m] + [s.pc.text]]))
    case StoreFlag =>
      var m := SerialOf(s, s.pc.t);
      s.(pc := Clearing(s.pc.t), boxes := s.boxes[m := MarkUnread(s.boxes[m])])
    case ClearFifo =>
      var m := SerialOf(s, s.pc.t);
      s.(pc := Sending(s.pc.t),
         io := WithBuf(s.io, s.pc.t, ""),
         hist := s.hist.(wires := s.hist.wires[m := Framing.Settle(s.hist.wires[m])]))
    case SendUpdate =>
      var e := s.io.fifos[s.pc.t];
      var cmd := BufferUpdate(e.metadata, e.serial);
      s.(pc := Idle,
         worker := s.worker.(queue := s.worker.queue + [cmd]),
         hist := s.hist.(log := s.hist.log + [cmd]))
    case CloseChannel =>
      s.(pc := if s.pc.Closing? then Joining else s.pc, worker := s.worker.(closed := true))
    case Join =>
      s.(pc := Idle, worker := s.incoming.value, incoming := None, hist := s.hist.(fed := map[]))
  }

  // ---------------------------------------------------------------- the machine

  /** `ByIncoming` would be a step of the new handler while the old one still runs. */
  datatype Action =
    | ByIo(io: IoStep)
    | ByWorker(step: HandlerStep)
    | ByIncoming(step: HandlerStep)
    | ByClient(tkn: Token, payload: string)

  ghost predicate Can(s: Machine, a: Action) {
    match a
    case ByIo(step) => IoCan(s, step)
    case ByWorker(step) => WorkerCan(s.worker, s.boxes, step)
    case ByIncoming(step) => s.incoming.Some? && WorkerCan(s.incoming.value, s.boxes, step)
    case ByClient(t, _) => t in s.io.fifos && SerialOf(s, t) in s.hist.wires
  }

  /** Which buffer a command takes the tree of away. */
  predicate Kills(c: Command, id: BufferId) {
    || (c.BufferClose? && c.metadata.ToBufferId() == Some(id))
    || (c.SessionEnd? && c.metadata.session == id.session)
  }

  /** One command and one tree: it goes if the command takes it away, else it keeps its text; a new one is empty. */
  lemma ReceiveActsOnTree(w: Worker, langOk: bool, parses: bool, id: BufferId)
    requires w.queue != []
    ensures var trees := Receive(w, langOk, parses).trees;
            && (id in w.trees && !Kills(w.queue[0], id) ==> id in trees)
            && (id in trees ==>
                  if id in w.trees then !Kills(w.queue[0], id) && trees[id].buf == w.trees[id].buf
                  else trees[id].buf == "")
  {
  }

  ghost function FedAfter(s: Machine, step: HandlerStep): map<BufferId, Serial>
    requires WorkerCan(s.worker, s.boxes, step)
  {
    match step
    case Recv(_, _) => map id | id in s.hist.fed && !Kills(s.worker.queue[0], id) :: s.hist.fed[id]
    case Swap => s.hist.fed[s.worker.pc.id := s.worker.pc.m]
    case _ => s.hist.fed
  }

  ghost function DisturbedAfter(s: Machine, step: HandlerStep): set<Serial>
    requires WorkerCan(s.worker, s.boxes, step)
  {
    if step.Recv? && s.worker.queue[0].BufferMetadata? then
      var c := s.worker.queue[0];
      var w := Receive(s.worker, step.langOk, step.parses);
      if c.metadata.ToBufferId().Some? && c.metadata.ToBufferId().value !in w.trees
      then s.hist.disturbed + {c.fifo}
      else s.hist.disturbed
    else s.hist.disturbed
  }

  ghost function StaleAfter(s: Machine, step: HandlerStep): set<BufferId>
    requires WorkerCan(s.worker, s.boxes, step)
  {
    match step
    case Parse(parses) => if parses then s.hist.stale - {s.worker.pc.id} else s.hist.stale + {s.worker.pc.id}
    case Recv(langOk, parses) =>
      var c := s.worker.queue[0];
      if c.BufferMetadata? && langOk && parses && c.metadata.ToBufferId().Some?
      then s.hist.stale - {c.metadata.ToBufferId().value}
      else s.hist.stale
    case _ => s.hist.stale
  }

  ghost function Next(s: Machine, a: Action): Machine
    requires Can(s, a)
  {
    match a
    case ByIo(step) => IoNext(s, step)
    case ByWorker(step) =>
      var (w, boxes) := WorkerStep(s.worker, s.boxes, step);
      s.(worker := w, boxes := boxes,
         hist := s.hist.(fed := FedAfter(s, step), disturbed := DisturbedAfter(s, step),
                         stale := StaleAfter(s, step)))
    case ByIncoming(step) =>
      var (w, boxes) := WorkerStep(s.incoming.value, s.boxes, step);
      s.(incoming := Some(w), boxes := boxes)
    case ByClient(t, payload) =>
      var m := SerialOf(s, t);
      s.(hist := s.hist.(wires := s.hist.wires[m := Framing.Post(s.hist.wires[m], payload)]))
  }

  ghost predicate IsRun(standalone: bool, trace: seq<Machine>, actions: seq<Action>) {
    && |trace| == |actions| + 1
    && trace[0] == Init(standalone)
    && forall i {:trigger actions[i]} :: 0 <= i < |actions| ==>
         Can(trace[i], actions[i]) && trace[i + 1] == Next(trace[i], actions[i])
  }

  // ---------------------------------------------------------------- the three kinds of requests

  /** The FIFO `e` was made for `id`, and the handler will be told about it. */
  ghost predicate OpenedBy(s: Machine, s': Machine, id: BufferId, t: Token, e: Entry, lang: string) {
    && e.metadata.ToBufferId() == Some(id) && e.serial == s.io.created && e.buf == ""
    && id !in s.io.tknBufferIds && t == CreateToken(s.io.tokens).1
    && s'.io.fifos == s.io.fifos[t := e]
    && s'.io.tknBufferIds == s.io.tknBufferIds[id := t]
    && s'.io.created == s.io.created + 1
    && s'.io.sessions == s.io.sessions
    && s'.pc.Idle? && s'.incoming == s.incoming
    && s'.boxes == s.boxes[e.serial := NEW_MAILBOX]
    && var cmd := Command.BufferMetadata(e.metadata, lang, e.serial, e.sentinel);
       && s'.worker == s.worker.(queue := s.worker.queue + [cmd])
       && s'.hist == s.hist.(
            log := s.hist.log + [cmd],
            written := s.hist.written[e.serial := []],
            owner := s.hist.owner[e.serial := id],
            wires := s.hist.wires[e.serial := Framing.NewWire(e.sentinel)])
  }

  /** The buffer `id` lost its FIFO. */
  ghost predicate ClosedBy(s: Machine, s': Machine, id: BufferId, metadata: Metadata) {
    && metadata.ToBufferId() == Some(id) && id in s.io.tknBufferIds
    && s'.io.tknBufferIds == s.io.tknBufferIds - {id}
    && s'.io.fifos == s.io.fifos - {s.io.tknBufferIds[id]}
    && s'.io.created == s.io.created
    && s'.io.sessions == s.io.sessions
    && s'.pc.Idle? && s'.incoming == s.incoming && s'.boxes == s.boxes
    && s'.worker == s.worker.(queue := s.worker.queue + [Command.BufferClose(metadata)])
    && s'.hist == s.hist.(log := s.hist.log + [Command.BufferClose(metadata)])
  }

  /** A command that says nothing about mailboxes, or only about the one of an open buffer. */
  ghost predicate Unobtrusive(io: IoState, c: Command) {
    && !c.BufferUpdate?
    && (c.BufferMetadata? ==>
          c.metadata.ToBufferId().Some? && Open(io, c.metadata.ToBufferId().value, c.fifo))
    && (c.BufferClose? ==>
          c.metadata.ToBufferId().Some? && c.metadata.ToBufferId().value !in io.tknBufferIds)
  }

  /** How a command tells about the sessions being tracked. */
  ghost predicate SessionsFollow(before: set<string>, after: set<string>, cmds: seq<Command>) {
    if cmds == [] then after == before
    else match cmds[0]
      case SessionInit(metadata) => metadata.session !in before && after == before + {metadata.session}
      case SessionEnd(metadata) => after == before - {metadata.session}
      case _ => after == before
  }

  /** No FIFO came or went. */
  ghost predicate OnlySent(s: Machine, s': Machine, cmds: seq<Command>, disturbed: set<Serial>) {
    && |cmds| <= 1
    && (cmds != [] ==> Unobtrusive(s.io, cmds[0]))
    && SessionsFollow(s.io.sessions, s'.io.sessions, cmds)
    && (cmds != [] && cmds[0].SessionEnd? ==>
          forall id, m :: Open(s.io, id, m) && id.session == cmds[0].metadata.session ==> m in disturbed)
    && s'.io.fifos == s.io.fifos && s'.io.tknBufferIds == s.io.tknBufferIds
    && s'.io.created == s.io.created
    && (s'.pc.Idle? || s'.pc.Stopped?) && s'.incoming == s.incoming && s'.boxes == s.boxes
    && s'.worker == s.worker.(queue := s.worker.queue + cmds)
    && s'.hist == s.hist.(log := s.hist.log + cmds, disturbed := s.hist.disturbed + disturbed)
  }

  lemma RequestOpens(s: Machine, req: Request, creation: Creation)
    requires IoCan(s, Serve(req, creation)) && Opens(s.io, req, creation)
    ensures OpenedBy(s, DoRequest(s, req, creation), req.metadata.ToBufferId().value,
                     CreateToken(s.io.tokens).1,
                     Entry(req.metadata, s.io.created, creation.sentinel, ""), req.payload.lang)
  {
  }

  lemma RequestCloses(s: Machine, req: Request, creation: Creation)
    requires IoCan(s, Serve(req, creation)) && Closes(s.io, req)
    requires MapsInverse(s.io.fifos, s.io.tknBufferIds)
    ensures ClosedBy(s, DoRequest(s, req, creation), req.metadata.ToBufferId().value, req.metadata)
  {
    var id := req.metadata.ToBufferId().value;
    assert RegisteredAs(s.io.fifos, s.io.tknBufferIds[id], id);
  }

  lemma RequestOnlySends(s: Machine, req: Request, creation: Creation)
    requires IoCan(s, Serve(req, creation)) && !Opens(s.io, req, creation) && !Closes(s.io, req)
    requires MapsInverse(s.io.fifos, s.io.tknBufferIds)
    ensures var s' := DoRequest(s, req, creation);
            exists cmds, disturbed :: OnlySent(s, s', cmds, disturbed)
  {
    if req.payload.SessionEnd? {
      SessionEndOnlySends(s, req, creation);
    } else if req.payload.BufferMetadata? || req.payload.BufferClose? {
      BufferOnlySends(s, req, creation);
    } else {
      OtherOnlySends(s, req, creation);
    }
  }

  lemma SessionEndOnlySends(s: Machine, req: Request, creation: Creation)
    requires IoCan(s, Serve(req, creation)) && req.payload.SessionEnd?
    ensures OnlySent(s, DoRequest(s, req, creation), [Command.SessionEnd(req.metadata)],
                     OpenSerials(s.io, (id: BufferId) => id.session == req.metadata.session))
  {
  }

  lemma OtherOnlySends(s: Machine, req: Request, creation: Creation)
    requires IoCan(s, Serve(req, creation))
    requires !req.payload.SessionEnd? && !req.payload.BufferMetadata? && !req.payload.BufferClose?
    ensures OnlySent(s, DoRequest(s, req, creation), ProcessReq(s.io, req, creation).sent, {})
  {
    assert s.hist.disturbed + {} == s.hist.disturbed;
  }

  lemma BufferOnlySends(s: Machine, req: Request, creation: Creation)
    requires IoCan(s, Serve(req, creation)) && !Opens(s.io, req, creation) && !Closes(s.io, req)
    requires MapsInverse(s.io.fifos, s.io.tknBufferIds)
    requires req.payload.BufferMetadata? || req.payload.BufferClose?
    ensures OnlySent(s, DoRequest(s, req, creation), ProcessReq(s.io, req, creation).sent, {})
  {
    assert s.hist.disturbed + {} == s.hist.disturbed;
    if req.metadata.ToBufferId().Some? && req.metadata.ToBufferId().value in s.io.tknBufferIds {
      var id := req.metadata.ToBufferId().value;
      assert RegisteredAs(s.io.fifos, s.io.tknBufferIds[id], id);
    }
  }

  /** Nobody is in the middle of anything and no command is waiting. */
  ghost predicate Quiet(s: Machine) {
    && (s.pc.Idle? || s.pc.Stopped?)
    && s.worker.queue == []
    && (s.worker.pc.Receiving? || s.worker.pc.Exited?)
  }

  /** The buffer `id` is open, with FIFO and mailbox `m`. */
  ghost predicate Open(io: IoState, id: BufferId, m: Serial) {
    && id in io.tknBufferIds
    && io.tknBufferIds[id] in io.fifos
    && io.fifos[io.tknBufferIds[id]].serial == m
  }

  function Latest(texts: seq<string>): string {
    if texts == [] then "" else texts[|texts| - 1]
  }

  /** Alone, the small steps of one read do what the IO thread's read function does. */
  lemma UninterruptedRead(s: Machine, t: Token, n: nat)
    requires IoCan(s, ReadFifo(t, n)) && SerialOf(s, t) in s.boxes && SerialOf(s, t) in s.hist.written
    requires s.boxes[SerialOf(s, t)].lock.Free?
    requires s.io.fifos[t].sentinel == s.hist.wires[SerialOf(s, t)].sentinel
    ensures var m := SerialOf(s, t);
            var (out, written) := ReadBuffer(s.io, t, Some(s.hist.wires[m].rest[..n]));
            var s1 := IoNext(s, ReadFifo(t, n));
            if s1.pc.Idle? then (s1.io, written) == (out.io, None) && out.sent == []
            else
              IoCan(s1, WriteText) && var s2 := IoNext(s1, WriteText);
              IoCan(s2, StoreFlag) && var s3 := IoNext(s2, StoreFlag);
              IoCan(s3, ClearFifo) && var s4 := IoNext(s3, ClearFifo);
              IoCan(s4, SendUpdate) && var s5 := IoNext(s4, SendUpdate);
              && s5.pc.Idle? && s5.io == out.io && written.Some?
              && s5.boxes == s.boxes[m := Mailboxes.Write(s.boxes[m], written.value)]
              && s5.worker.queue == s.worker.queue + out.sent
  {
  }
}
