/** No lost update: what the tree of a buffer holds once the server has come to rest. */
module LostUpdates {
  import opened Options
  import opened Protocol
  import opened Allocation
  import opened Mailboxes
  import opened IoServer
  import opened Machines
  import Framing

  // ---------------------------------------------------------------- structure

  /** Every serial number given out has a mailbox and a history, and every FIFO belongs to its buffer. */
  ghost predicate Domains(s: Machine) {
    && (forall m: Serial :: m in s.boxes <==> m < s.io.created)
    && (forall m: Serial :: m in s.hist.written <==> m < s.io.created)
    && (forall m: Serial :: m in s.hist.owner <==> m < s.io.created)
    && (forall m: Serial :: m in s.hist.wires <==> m < s.io.created)
    && (forall t :: t in s.io.fifos ==>
          && SerialOf(s, t) < s.io.created
          && s.io.fifos[t].metadata.ToBufferId() == Some(s.hist.owner[SerialOf(s, t)]))
  }

  ghost predicate WorkerOn(w: Worker, m: Serial) {
    (w.pc.Checking? || w.pc.Swapping? || w.pc.Marking?) && w.pc.m == m
  }

  ghost predicate IoOn(s: Machine, m: Serial) {
    && (s.pc.Writing? || s.pc.Flagging? || s.pc.Clearing? || s.pc.Sending?)
    && s.pc.t in s.io.fifos && SerialOf(s, s.pc.t) == m
  }

  /** What a thread that is in the middle of something relies on. */
  ghost predicate Counters(s: Machine) {
    && (s.pc.Writing? || s.pc.Flagging? || s.pc.Clearing? || s.pc.Sending? ==> s.pc.t in s.io.fifos)
    && (s.incoming.Some? <==> s.pc.Closing? || s.pc.Joining?)
    && (s.incoming.Some? ==> s.incoming.value == NEW_WORKER)
    && (s.incoming.Some? ==> forall id, m :: Open(s.io, id, m) ==> m in s.hist.disturbed)
    && (s.worker.pc.Checking? || s.worker.pc.Swapping? || s.worker.pc.Marking? ==>
          && s.worker.pc.m < s.io.created
          && s.worker.pc.m in s.hist.owner && s.hist.owner[s.worker.pc.m] == s.worker.pc.id
          && s.worker.pc.id in s.worker.trees)
    && (s.worker.pc.Parsing? ==> s.worker.pc.id in s.worker.trees)
  }

  /** A command about a mailbox carries the buffer that mailbox was made for. */
  ghost predicate Tagged(owner: map<Serial, BufferId>, c: Command) {
    && (c.BufferUpdate? ==> c.reader in owner && c.metadata.ToBufferId() == Some(owner[c.reader]))
    && (c.BufferMetadata? ==> c.fifo in owner && c.metadata.ToBufferId() == Some(owner[c.fifo]))
  }

  ghost predicate QueueTagged(s: Machine) {
    forall i :: 0 <= i < |s.worker.queue| ==> Tagged(s.hist.owner, s.worker.queue[i])
  }

  /** A tree that no mailbox was swapped into yet is empty. */
  ghost predicate FedTrees(s: Machine) {
    && (forall id :: id in s.hist.fed ==>
          && id in s.worker.trees
          && s.hist.fed[id] in s.hist.owner && s.hist.owner[s.hist.fed[id]] == id)
    && (forall id :: id in s.worker.trees && id !in s.hist.fed ==> s.worker.trees[id].buf == "")
  }

  /** A handler exits only when there is nothing left to receive, and nothing is sent on a closed channel. */
  ghost predicate Exits(s: Machine) {
    && (s.worker.pc.Exited? ==> s.worker.queue == [] && (s.worker.closed || s.pc.Stopped?))
    && (s.worker.closed ==> s.pc.Joining? || s.pc.Stopped?)
    && (s.pc.Joining? ==> s.worker.closed)
    && (forall i :: 0 <= i < |s.worker.queue| && s.worker.queue[i].Shutdown? ==>
          i == |s.worker.queue| - 1 && s.pc.Stopped?)
  }

  ghost predicate Structure(s: Machine) {
    IoInv(s.io) && Domains(s) && Counters(s) && QueueTagged(s) && FedTrees(s) && Exits(s)
  }

  // ---------------------------------------------------------------- one mailbox

  /** The tree of the buffer of `m` was last swapped with `m`. */
  ghost predicate Fed(s: Machine, m: Serial) {
    m in s.hist.owner && s.hist.owner[m] in s.hist.fed && s.hist.fed[s.hist.owner[m]] == m
  }

  ghost predicate TreeHolds(s: Machine, id: BufferId, text: string) {
    id in s.worker.trees && s.worker.trees[id].buf == text
  }

  /** An unread mailbox holds the last text written to it; a read one has passed it on. */
  ghost predicate BoxInv(s: Machine, m: Serial)
    requires Domains(s)
  {
    m < s.io.created ==>
      var box, last, id := s.boxes[m], Latest(s.hist.written[m]), s.hist.owner[m];
      (s.worker.pc.Marking? && s.worker.pc.m == m ==> box.lock.HeldByReader?) &&
      match box.lock
      case Free =>
        && (!box.wasRead ==> box.text == last)
        && (box.wasRead && Fed(s, m) ==> TreeHolds(s, id, last))
        && (s.worker.pc.Swapping? && s.worker.pc.m == m ==> !box.wasRead)
      case HeldByWriter =>
        && box.text == last
        && s.pc.Flagging? && IoOn(s, m)
        && (s.worker.pc.Swapping? && s.worker.pc.m == m ==> !box.wasRead)
      case HeldByReader =>
        && s.worker.pc == Marking(id, m)
        && Fed(s, m) && TreeHolds(s, id, last)
  }

  ghost predicate UpdateFor(c: Command, m: Serial) {
    c.BufferUpdate? && c.reader == m
  }

  ghost predicate UpdateIn(q: seq<Command>, m: Serial) {
    exists i {:trigger UpdateFor(q[i], m)} :: 0 <= i < |q| && UpdateFor(q[i], m)
  }

  /** Some thread is still going to look at the mailbox. */
  ghost predicate Pending(s: Machine, m: Serial) {
    || UpdateIn(s.worker.queue, m)
    || (IoOn(s, m) && !s.pc.Writing?)
    || ((s.worker.pc.Checking? || s.worker.pc.Swapping?) && s.worker.pc.m == m)
  }

  ghost predicate KillIn(q: seq<Command>, id: BufferId) {
    exists i {:trigger Kills(q[i], id)} :: 0 <= i < |q| && Kills(q[i], id)
  }

  /** Every update from the mailbox is followed by the deletion of the tree. */
  ghost predicate UpdatesDoomed(q: seq<Command>, id: BufferId, m: Serial) {
    forall i {:trigger UpdateFor(q[i], m)} :: 0 <= i < |q| && UpdateFor(q[i], m) ==> KillIn(q[i + 1..], id)
  }

  /** The command at position `i` makes the tree, before any update from the mailbox and for good. */
  ghost predicate MakesTree(q: seq<Command>, id: BufferId, m: Serial, i: nat) {
    && i < |q|
    && q[i].BufferMetadata? && q[i].fifo == m
    && !KillIn(q[i..], id)
    && forall j {:trigger UpdateFor(q[j], m)} :: 0 <= j < i ==> !UpdateFor(q[j], m)
  }

  lemma KillPushed(q: seq<Command>, c: Command, id: BufferId)
    ensures KillIn(q + [c], id) <==> KillIn(q, id) || Kills(c, id)
  {
    var q' := q + [c];
    assert q'[|q|] == c;
    assert forall i :: 0 <= i < |q| ==> q'[i] == q[i];
  }

  lemma KillPopped(q: seq<Command>, id: BufferId)
    requires q != []
    ensures KillIn(q, id) <==> Kills(q[0], id) || KillIn(q[1..], id)
  {
    assert forall i :: 0 <= i < |q| - 1 ==> q[1..][i] == q[i + 1];
    if i :| 0 <= i < |q| && Kills(q[i], id) {
      assert i > 0 ==> Kills(q[1..][i - 1], id);
    }
  }

  lemma DoomedPushed(q: seq<Command>, c: Command, id: BufferId, m: Serial)
    requires !UpdateFor(c, m)
    requires UpdatesDoomed(q, id, m) || Kills(c, id)
    ensures UpdatesDoomed(q + [c], id, m)
  {
    forall i | 0 <= i < |q + [c]| && UpdateFor((q + [c])[i], m)
      ensures KillIn((q + [c])[i + 1..], id)
    {
      assert (q + [c])[i + 1..] == q[i + 1..] + [c];
      KillPushed(q[i + 1..], c, id);
    }
  }

  lemma DoomedPopped(q: seq<Command>, id: BufferId, m: Serial)
    requires q != [] && UpdatesDoomed(q, id, m)
    ensures UpdatesDoomed(q[1..], id, m)
    ensures UpdateFor(q[0], m) ==> KillIn(q[1..], id)
  {
    forall i | 0 <= i < |q[1..]| && UpdateFor(q[1..][i], m)
      ensures KillIn(q[1..][i + 1..], id)
    {
      assert q[1..][i + 1..] == q[i + 2..];
      assert UpdateFor(q[i + 1], m);
    }
  }

  lemma PlanPushed(q: seq<Command>, c: Command, id: BufferId, m: Serial, i: nat)
    requires MakesTree(q, id, m, i) && !Kills(c, id)
    ensures MakesTree(q + [c], id, m, i)
  {
    assert (q + [c])[i..] == q[i..] + [c];
    KillPushed(q[i..], c, id);
  }

  lemma PlanPopped(q: seq<Command>, id: BufferId, m: Serial, i: nat)
    requires MakesTree(q, id, m, i)
    ensures if i == 0 then !KillIn(q[1..], id) else MakesTree(q[1..], id, m, i - 1)
  {
    if i == 0 {
      assert q[0..] == q;
      KillPopped(q, id);
    } else {
      assert q[1..][i - 1..] == q[i..];
    }
  }

  /** A pending update stays pending when another command is queued behind it. */
  lemma UpdatePushed(q: seq<Command>, c: Command, m: Serial)
    ensures UpdateIn(q + [c], m) <==> UpdateFor(c, m) || UpdateIn(q, m)
  {
    assert (q + [c])[|q|] == c;
    assert forall i :: 0 <= i < |q| ==> (q + [c])[i] == q[i];
  }

  /** A text that the tree has not seen yet is on its way. */
  ghost predicate PendingInv(s: Machine, m: Serial)
    requires Domains(s)
  {
    m < s.io.created && Open(s.io, s.hist.owner[m], m) && Fed(s, m)
    && s.boxes[m].lock.Free? && !s.boxes[m].wasRead
    ==> Pending(s, m)
  }

  /** The mailbox of a closed FIFO can still be used, but then the tree it goes to is about to be deleted. */
  ghost predicate OrphanInv(s: Machine, m: Serial)
    requires Domains(s)
  {
    m < s.io.created && !Open(s.io, s.hist.owner[m], m) ==>
      && (Fed(s, m) || WorkerOn(s.worker, m) ==> KillIn(s.worker.queue, s.hist.owner[m]))
      && UpdatesDoomed(s.worker.queue, s.hist.owner[m], m)
  }

  /** The tree of an open buffer is there to stay, and it has seen the mailbox or is going to. */
  ghost predicate Rooted(s: Machine, m: Serial)
    requires Domains(s) && m < s.io.created
  {
    && s.hist.owner[m] in s.worker.trees
    && !KillIn(s.worker.queue, s.hist.owner[m])
    && (s.boxes[m].wasRead || s.boxes[m].lock.HeldByReader? ==> Fed(s, m))
    && (s.hist.written[m] != [] ==> Fed(s, m) || Pending(s, m))
  }

  /** The command at position `i` is going to make the tree before any update asks for it. */
  ghost predicate PlannedAt(s: Machine, m: Serial, i: nat)
    requires Domains(s) && m < s.io.created
  {
    && MakesTree(s.worker.queue, s.hist.owner[m], m, i)
    && !WorkerOn(s.worker, m) && !Fed(s, m)
    && !s.boxes[m].wasRead && !s.boxes[m].lock.HeldByReader?
    && (s.hist.written[m] != [] ==> Pending(s, m))
  }

  ghost predicate UndisturbedInv(s: Machine, m: Serial)
    requires Domains(s)
  {
    m < s.io.created && Open(s.io, s.hist.owner[m], m) && m !in s.hist.disturbed ==>
      Rooted(s, m) || exists i: nat :: PlannedAt(s, m, i)
  }

  ghost predicate MailboxInv(s: Machine, m: Serial)
    requires Domains(s)
  {
    BoxInv(s, m) && PendingInv(s, m) && OrphanInv(s, m) && UndisturbedInv(s, m)
  }

  ghost predicate Inv(s: Machine) {
    Structure(s) && forall m :: MailboxInv(s, m)
  }

  // ---------------------------------------------------------------- preservation: structure

  lemma InitInv(standalone: bool)
    ensures Inv(Init(standalone))
  {
    InitialIoInv(standalone);
  }

  /** Only a shutdown is sent as the last thing ever. */
  lemma IoStepKeepsExits(s: Machine, step: IoStep)
    requires Counters(s) && Exits(s) && Can(s, ByIo(step))
    ensures Exits(Next(s, ByIo(step)))
  {
    if step.Serve? {
      ServeKeepsExits(s, step.req, step.creation);
    }
  }

  lemma ServeKeepsExits(s: Machine, req: Request, creation: Creation)
    requires Exits(s) && Can(s, ByIo(Serve(req, creation)))
    ensures Exits(DoRequest(s, req, creation))
  {
    var sent := ProcessReq(s.io, req, creation).sent;
    assert |sent| <= 1 && (sent != [] && sent[0].Shutdown? ==> req.payload.Shutdown?);
    assert DoRequest(s, req, creation).worker.queue == s.worker.queue + sent;
  }

  lemma WorkerStepKeepsExits(s: Machine, step: HandlerStep)
    requires Exits(s) && Can(s, ByWorker(step))
    ensures Exits(Next(s, ByWorker(step)))
  {
  }

  /** The new handler has nothing to do while the old one is being waited for. */
  lemma IncomingIsIdle(s: Machine, step: HandlerStep)
    requires Counters(s)
    ensures !Can(s, ByIncoming(step))
  {
  }

  lemma IoStepKeepsIoInv(s: Machine, step: IoStep)
    requires IoInv(s.io) && Can(s, ByIo(step))
    ensures IoInv(Next(s, ByIo(step)).io)
  {
    match step {
      case Connect(registered) => AcceptKeepsInv(s.io, registered);
      case Serve(req, creation) => ProcessReqKeepsInv(s.io, req, creation);
      case ReadFifo(t, n) => WithBufKeepsInv(s.io, t, Next(s, ByIo(step)).io.fifos[t].buf);
      case ClearFifo => WithBufKeepsInv(s.io, s.pc.t, "");
      case _ =>
    }
  }

  lemma OpenKeepsDomains(s: Machine, s': Machine, id: BufferId, t: Token, e: Entry, lang: string)
    requires Domains(s) && OpenedBy(s, s', id, t, e, lang)
    ensures Domains(s')
  {
  }

  lemma OpenKeepsStructure(s: Machine, s': Machine, id: BufferId, t: Token, e: Entry, lang: string)
    requires s.pc.Idle? && Domains(s) && Counters(s) && QueueTagged(s) && FedTrees(s)
    requires OpenedBy(s, s', id, t, e, lang)
    ensures Counters(s') && QueueTagged(s') && FedTrees(s')
  {
  }

  lemma CloseKeepsStructure(s: Machine, s': Machine, id: BufferId, metadata: Metadata)
    requires s.pc.Idle? && Domains(s) && Counters(s) && QueueTagged(s) && FedTrees(s)
    requires ClosedBy(s, s', id, metadata)
    ensures Domains(s') && Counters(s') && QueueTagged(s') && FedTrees(s')
  {
  }

  lemma SendKeepsStructure(s: Machine, s': Machine, cmds: seq<Command>, disturbed: set<Serial>)
    requires s.pc.Idle? && Domains(s) && Counters(s) && QueueTagged(s) && FedTrees(s)
    requires MapsInverse(s.io.fifos, s.io.tknBufferIds)
    requires OnlySent(s, s', cmds, disturbed)
    ensures Domains(s') && Counters(s') && QueueTagged(s') && FedTrees(s')
  {
    forall id | id in s.io.tknBufferIds
      ensures s.hist.owner[SerialOf(s, s.io.tknBufferIds[id])] == id
    {
      assert RegisteredAs(s.io.fifos, s.io.tknBufferIds[id], id);
    }
  }

  lemma FifoStepKeepsDomains(s: Machine, step: IoStep)
    requires Domains(s) && Can(s, ByIo(step)) && (step.ReadFifo? || step.ClearFifo?)
    ensures Domains(Next(s, ByIo(step)))
  {
    var s' := Next(s, ByIo(step));
    assert forall t :: t in s'.io.fifos ==> t in s.io.fifos && SerialOf(s', t) == SerialOf(s, t);
  }

  lemma IoStepKeepsDomains(s: Machine, step: IoStep)
    requires Domains(s) && Can(s, ByIo(step)) && !step.Serve?
    ensures Domains(Next(s, ByIo(step)))
  {
    if step.ReadFifo? || step.ClearFifo? {
      FifoStepKeepsDomains(s, step);
    } else {
      OtherStepKeepsDomains(s, step);
    }
  }

  lemma OtherStepKeepsDomains(s: Machine, step: IoStep)
    requires Domains(s) && Can(s, ByIo(step)) && !step.Serve? && !step.ReadFifo? && !step.ClearFifo?
    ensures Domains(Next(s, ByIo(step)))
  {
    var s' := Next(s, ByIo(step));
    assert s'.io.fifos == s.io.fifos && s'.io.created == s.io.created && s'.hist.owner == s.hist.owner;
  }

  lemma IoStepKeepsCounters(s: Machine, step: IoStep)
    requires Domains(s) && Counters(s) && Can(s, ByIo(step)) && !step.Serve?
    ensures Counters(Next(s, ByIo(step)))
  {
  }

  lemma IoStepKeepsQueueTagged(s: Machine, step: IoStep)
    requires Domains(s) && Counters(s) && QueueTagged(s) && Can(s, ByIo(step)) && !step.Serve?
    ensures QueueTagged(Next(s, ByIo(step)))
  {
  }

  lemma IoStepKeepsFedTrees(s: Machine, step: IoStep)
    requires Counters(s) && FedTrees(s) && Can(s, ByIo(step)) && !step.Serve?
    ensures FedTrees(Next(s, ByIo(step)))
  {
  }

  lemma WorkerStepKeepsDomains(s: Machine, step: HandlerStep)
    requires Domains(s) && Can(s, ByWorker(step))
    ensures Domains(Next(s, ByWorker(step)))
  {
  }

  lemma WorkerStepKeepsCounters(s: Machine, step: HandlerStep)
    requires Counters(s) && QueueTagged(s) && Domains(s) && Can(s, ByWorker(step))
    ensures Counters(Next(s, ByWorker(step)))
  {
  }

  lemma WorkerStepKeepsQueueTagged(s: Machine, step: HandlerStep)
    requires QueueTagged(s) && Can(s, ByWorker(step))
    ensures QueueTagged(Next(s, ByWorker(step)))
  {
  }

  lemma WorkerStepKeepsFedTrees(s: Machine, step: HandlerStep)
    requires Counters(s) && FedTrees(s) && Can(s, ByWorker(step))
    ensures FedTrees(Next(s, ByWorker(step)))
  {
    if step.Recv? {
      RecvKeepsFedTrees(s, step.langOk, step.parses);
    }
  }

  lemma RecvKeepsFedTrees(s: Machine, langOk: bool, parses: bool)
    requires FedTrees(s) && Can(s, ByWorker(Recv(langOk, parses)))
    ensures FedTrees(Next(s, ByWorker(Recv(langOk, parses))))
  {
    var s' := Next(s, ByWorker(Recv(langOk, parses)));
    forall id | id in s'.worker.trees || id in s'.hist.fed
      ensures id in s'.hist.fed ==> id in s.hist.fed && id in s'.worker.trees
      ensures id in s'.worker.trees && id !in s'.hist.fed ==> s'.worker.trees[id].buf == ""
    {
      ReceiveActsOnTree(s.worker, langOk, parses, id);
    }
  }

  // ---------------------------------------------------------------- preservation: one mailbox

  /** The facts a request step starts from. */
  ghost predicate Steady(s: Machine) {
    && Domains(s) && Counters(s) && QueueTagged(s) && FedTrees(s)
    && MapsInverse(s.io.fifos, s.io.tknBufferIds)
  }

  lemma QueuePushed(s: Machine, c: Command, m: Serial)
    requires Steady(s) && m < s.io.created && MailboxInv(s, m) && !UpdateFor(c, m)
    ensures var q, q', id := s.worker.queue, s.worker.queue + [c], s.hist.owner[m];
            && (KillIn(q', id) <==> KillIn(q, id) || Kills(c, id))
            && (UpdatesDoomed(q, id, m) || Kills(c, id) ==> UpdatesDoomed(q', id, m))
            && (!Kills(c, id) ==> forall i: nat :: MakesTree(q, id, m, i) ==> MakesTree(q', id, m, i))
            && (UpdateIn(q', m) <==> UpdateIn(q, m))
  {
    var q, id := s.worker.queue, s.hist.owner[m];
    KillPushed(q, c, id);
    UpdatePushed(q, c, m);
    if UpdatesDoomed(q, id, m) || Kills(c, id) {
      DoomedPushed(q, c, id, m);
    }
    if !Kills(c, id) {
      forall i: nat | MakesTree(q, id, m, i)
        ensures MakesTree(q + [c], id, m, i)
      {
        PlanPushed(q, c, id, m, i);
      }
    }
  }

  lemma OpenKeepsMailbox(s: Machine, s': Machine, id: BufferId, t: Token, e: Entry, lang: string, m: Serial)
    requires s.pc.Idle? && Steady(s) && Domains(s')
    requires OpenedBy(s, s', id, t, e, lang) && t !in s.io.fifos
    requires MailboxInv(s, m)
    ensures MailboxInv(s', m)
  {
    if m < s.io.created {
      OpenKeepsOldMailbox(s, s', id, t, e, lang, m);
    } else if m == s.io.created {
      NewMailboxInv(s, s', id, t, e, lang);
    }
  }

  lemma OpenKeepsOldMailbox(s: Machine, s': Machine, id: BufferId, t: Token, e: Entry, lang: string, m: Serial)
    requires s.pc.Idle? && Steady(s) && Domains(s')
    requires OpenedBy(s, s', id, t, e, lang) && t !in s.io.fifos
    requires m < s.io.created && MailboxInv(s, m)
    ensures MailboxInv(s', m)
  {
    OpenKeepsBox(s, s', id, t, e, lang, m);
    OpenKeepsPending(s, s', id, t, e, lang, m);
    OpenKeepsOrphan(s, s', id, t, e, lang, m);
    OpenKeepsUndisturbed(s, s', id, t, e, lang, m);
  }

  lemma OpenKeepsBox(s: Machine, s': Machine, id: BufferId, t: Token, e: Entry, lang: string, m: Serial)
    requires s.pc.Idle? && Steady(s) && Domains(s')
    requires OpenedBy(s, s', id, t, e, lang) && t !in s.io.fifos
    requires m < s.io.created && BoxInv(s, m)
    ensures BoxInv(s', m)
  {
    assert s'.boxes[m] == s.boxes[m];
    assert Fed(s', m) <==> Fed(s, m);
  }

  lemma OpenKeepsPending(s: Machine, s': Machine, id: BufferId, t: Token, e: Entry, lang: string, m: Serial)
    requires s.pc.Idle? && Domains(s) && Domains(s')
    requires OpenedBy(s, s', id, t, e, lang) && t !in s.io.fifos
    requires m < s.io.created && PendingInv(s, m)
    ensures PendingInv(s', m)
  {
    assert s'.boxes[m] == s.boxes[m];
    assert Open(s'.io, s.hist.owner[m], m) ==> Open(s.io, s.hist.owner[m], m);
    UpdatePushed(s.worker.queue, Command.BufferMetadata(e.metadata, lang, e.serial, e.sentinel), m);
  }

  lemma OpenKeepsOrphan(s: Machine, s': Machine, id: BufferId, t: Token, e: Entry, lang: string, m: Serial)
    requires s.pc.Idle? && Steady(s) && Domains(s')
    requires OpenedBy(s, s', id, t, e, lang) && t !in s.io.fifos
    requires m < s.io.created && OrphanInv(s, m)
    ensures OrphanInv(s', m)
  {
    var cmd := Command.BufferMetadata(e.metadata, lang, e.serial, e.sentinel);
    assert Open(s'.io, s.hist.owner[m], m) <==> Open(s.io, s.hist.owner[m], m);
    KillPushed(s.worker.queue, cmd, s.hist.owner[m]);
    if UpdatesDoomed(s.worker.queue, s.hist.owner[m], m) {
      DoomedPushed(s.worker.queue, cmd, s.hist.owner[m], m);
    }
  }

  lemma OpenKeepsUndisturbed(s: Machine, s': Machine, id: BufferId, t: Token, e: Entry, lang: string, m: Serial)
    requires s.pc.Idle? && Steady(s) && Domains(s')
    requires OpenedBy(s, s', id, t, e, lang) && t !in s.io.fifos
    requires m < s.io.created && MailboxInv(s, m)
    ensures UndisturbedInv(s', m)
  {
    var cmd := Command.BufferMetadata(e.metadata, lang, e.serial, e.sentinel);
    if Open(s'.io, s.hist.owner[m], m) && m !in s.hist.disturbed {
      assert Open(s.io, s.hist.owner[m], m);
      UpdatePushed(s.worker.queue, cmd, m);
      if Rooted(s, m) {
        KillPushed(s.worker.queue, cmd, s.hist.owner[m]);
        assert Rooted(s', m);
      } else {
        var i: nat :| PlannedAt(s, m, i);
        PlanPushed(s.worker.queue, cmd, s.hist.owner[m], m, i);
        assert PlannedAt(s', m, i);
      }
    }
  }

  lemma NewMailboxInv(s: Machine, s': Machine, id: BufferId, t: Token, e: Entry, lang: string)
    requires s.pc.Idle? && Steady(s) && Domains(s')
    requires OpenedBy(s, s', id, t, e, lang) && t !in s.io.fifos
    ensures MailboxInv(s', s.io.created)
  {
    var m, n := s.io.created, |s.worker.queue|;
    var cmd := Command.BufferMetadata(e.metadata, lang, e.serial, e.sentinel);
    assert s'.worker.queue[n..] == [cmd];
    assert forall j :: 0 <= j < n ==> Tagged(s.hist.owner, s.worker.queue[j]) && !UpdateFor(s.worker.queue[j], m);
    assert MakesTree(s'.worker.queue, id, m, n);
    assert PlannedAt(s', m, n);
  }

  /** Closing `id` leaves the other buffers open as they were. */
  lemma CloseKeepsOthersOpen(s: Machine, s': Machine, id: BufferId, metadata: Metadata, other: BufferId, m: Serial)
    requires MapsInverse(s.io.fifos, s.io.tknBufferIds)
    requires ClosedBy(s, s', id, metadata)
    ensures Open(s'.io, other, m) <==> Open(s.io, other, m) && other != id
  {
    assert RegisteredAs(s.io.fifos, s.io.tknBufferIds[id], id);
    if other in s.io.tknBufferIds && other != id {
      assert RegisteredAs(s.io.fifos, s.io.tknBufferIds[other], other);
    }
  }

  lemma CloseKeepsMailbox(s: Machine, s': Machine, id: BufferId, metadata: Metadata, m: Serial)
    requires s.pc.Idle? && Steady(s) && Domains(s')
    requires ClosedBy(s, s', id, metadata)
    requires MailboxInv(s, m)
    ensures MailboxInv(s', m)
  {
    if m < s.io.created {
      QueuePushed(s, Command.BufferClose(metadata), m);
      CloseKeepsOthersOpen(s, s', id, metadata, s.hist.owner[m], m);
      assert Pending(s, m) ==> Pending(s', m);
      if s.hist.owner[m] != id {
        assert Rooted(s, m) ==> Rooted(s', m);
        assert forall i: nat :: PlannedAt(s, m, i) ==> PlannedAt(s', m, i);
      }
    }
  }

  lemma SendKeepsMailbox(s: Machine, s': Machine, cmds: seq<Command>, disturbed: set<Serial>, m: Serial)
    requires s.pc.Idle? && Steady(s) && Domains(s')
    requires OnlySent(s, s', cmds, disturbed)
    requires MailboxInv(s, m)
    ensures MailboxInv(s', m)
  {
    if m < s.io.created {
      if cmds == [] {
        assert s'.worker.queue == s.worker.queue;
      } else {
        assert s'.worker.queue == s.worker.queue + [cmds[0]];
        QueuePushed(s, cmds[0], m);
      }
      assert Open(s'.io, s.hist.owner[m], m) <==> Open(s.io, s.hist.owner[m], m);
      assert Fed(s', m) <==> Fed(s, m);
      assert Pending(s, m) ==> Pending(s', m);
      if Open(s.io, s.hist.owner[m], m) && m !in s'.hist.disturbed {
        SentDoesNotKill(s, s', cmds, disturbed, m);
      }
    }
  }

  /** An undisturbed open buffer is not the one whose tree the command deletes. */
  lemma SentDoesNotKill(s: Machine, s': Machine, cmds: seq<Command>, disturbed: set<Serial>, m: Serial)
    requires s.pc.Idle? && Steady(s) && Domains(s') && m < s.io.created
    requires OnlySent(s, s', cmds, disturbed)
    requires MailboxInv(s, m) && Open(s.io, s.hist.owner[m], m) && m !in s'.hist.disturbed
    requires Pending(s, m) ==> Pending(s', m)
    ensures UndisturbedInv(s', m)
  {
    if cmds == [] {
      assert s'.worker.queue == s.worker.queue;
    } else {
      assert s'.worker.queue == s.worker.queue + [cmds[0]];
      assert !Kills(cmds[0], s.hist.owner[m]);
      QueuePushed(s, cmds[0], m);
    }
    KeptRoot(s, s', m);
  }

  /** What keeps a mailbox rooted or planned, whatever the step did elsewhere. */
  lemma KeptRoot(s: Machine, s': Machine, m: Serial)
    requires Domains(s) && Domains(s') && m < s.io.created && m < s'.io.created
    requires s'.hist.owner[m] == s.hist.owner[m] && s'.hist.written[m] == s.hist.written[m]
    requires s'.boxes[m] == s.boxes[m] && s'.worker.trees == s.worker.trees && s'.worker.pc == s.worker.pc
    requires Fed(s', m) <==> Fed(s, m)
    requires Pending(s, m) ==> Pending(s', m)
    requires var q, q', id := s.worker.queue, s'.worker.queue, s.hist.owner[m];
             && (KillIn(q', id) ==> KillIn(q, id))
             && forall i: nat {:trigger MakesTree(q, id, m, i)} :: MakesTree(q, id, m, i) ==> MakesTree(q', id, m, i)
    requires Rooted(s, m) || exists i: nat :: PlannedAt(s, m, i)
    ensures Rooted(s', m) || exists i: nat :: PlannedAt(s', m, i)
  {
    if !Rooted(s, m) {
      var i: nat :| PlannedAt(s, m, i);
      assert PlannedAt(s', m, i);
    }
  }

  /** A FIFO in the map belongs to an open buffer, so a mailbox the IO thread is busy with is open. */
  lemma BusyIsOpen(s: Machine, m: Serial)
    requires Steady(s) && IoOn(s, m)
    ensures m < s.io.created && Open(s.io, s.hist.owner[m], m)
  {
    assert RegisteredAs(s.io.fifos, s.pc.t, s.hist.owner[m]);
  }

  /** Steps that leave the queue, the mailbox, its tree and the open buffers alone. */
  ghost predicate SameView(s: Machine, s': Machine, m: Serial)
    requires Domains(s) && Domains(s')
  {
    && s'.io.created == s.io.created
    && s'.hist.owner == s.hist.owner && s'.hist.fed == s.hist.fed && s'.hist.disturbed == s.hist.disturbed
    && s'.worker.queue == s.worker.queue
    && (m < s.io.created ==>
          && s'.boxes[m] == s.boxes[m]
          && s'.hist.written[m] == s.hist.written[m]
          && (s'.worker.pc == s.worker.pc || (!WorkerOn(s.worker, m) && !WorkerOn(s'.worker, m)))
          && SameTree(s, s', s.hist.owner[m])
          && (Open(s'.io, s.hist.owner[m], m) <==> Open(s.io, s.hist.owner[m], m)))
    && (IoOn(s, m) && !s.pc.Writing? ==> IoOn(s', m) && !s'.pc.Writing?)
    && (s.pc.Flagging? ==> s'.pc.Flagging?)
  }

  ghost predicate SameTree(s: Machine, s': Machine, id: BufferId) {
    && (id in s'.worker.trees <==> id in s.worker.trees)
    && (id in s.worker.trees ==> s'.worker.trees[id].buf == s.worker.trees[id].buf)
  }

  lemma SameViewKeepsMailbox(s: Machine, s': Machine, m: Serial)
    requires Domains(s) && Domains(s') && SameView(s, s', m)
    requires MailboxInv(s, m)
    ensures MailboxInv(s', m)
  {
    if m < s.io.created {
      assert Pending(s, m) ==> Pending(s', m);
      assert Fed(s', m) <==> Fed(s, m);
      if Open(s.io, s.hist.owner[m], m) && m !in s.hist.disturbed {
        assert Rooted(s, m) ==> Rooted(s', m);
        assert forall i: nat :: PlannedAt(s, m, i) ==> PlannedAt(s', m, i);
      }
    }
  }

  lemma LocalStepSameView(s: Machine, step: IoStep, m: Serial)
    requires Domains(s) && Can(s, ByIo(step)) && Domains(Next(s, ByIo(step)))
    requires step.Connect? || step.ReadFifo? || step.ClearFifo? || step.CloseChannel?
    ensures SameView(s, Next(s, ByIo(step)), m)
  {
  }

  /** Parsing and exiting never show; the steps about one mailbox do not show to another one. */
  lemma WorkerStepSameView(s: Machine, step: HandlerStep, m: Serial)
    requires Domains(s) && Can(s, ByWorker(step)) && Domains(Next(s, ByWorker(step)))
    requires step.Parse? || step.Hangup? || ((step.Check? || step.Mark?) && s.worker.pc.m != m)
    ensures SameView(s, Next(s, ByWorker(step)), m)
  {
  }

  lemma ClientSameView(s: Machine, t: Token, payload: string, m: Serial)
    requires Domains(s) && Can(s, ByClient(t, payload)) && Domains(Next(s, ByClient(t, payload)))
    ensures SameView(s, Next(s, ByClient(t, payload)), m)
  {
  }

  lemma WriteTextKeepsMailbox(s: Machine, m: Serial)
    requires Steady(s) && Can(s, ByIo(WriteText)) && Domains(Next(s, ByIo(WriteText)))
    requires MailboxInv(s, m)
    ensures MailboxInv(Next(s, ByIo(WriteText)), m)
  {
    if m < s.io.created {
      var s' := Next(s, ByIo(WriteText));
      assert Open(s'.io, s.hist.owner[m], m) <==> Open(s.io, s.hist.owner[m], m);
      assert Pending(s, m) || IoOn(s, m) ==> Pending(s', m);
      assert Rooted(s, m) ==> Rooted(s', m);
      assert forall i: nat :: PlannedAt(s, m, i) ==> PlannedAt(s', m, i);
    }
  }

  lemma StoreFlagKeepsMailbox(s: Machine, m: Serial)
    requires Steady(s) && Can(s, ByIo(StoreFlag)) && Domains(Next(s, ByIo(StoreFlag)))
    requires MailboxInv(s, m)
    ensures MailboxInv(Next(s, ByIo(StoreFlag)), m)
  {
    if m < s.io.created {
      var s' := Next(s, ByIo(StoreFlag));
      assert Open(s'.io, s.hist.owner[m], m) <==> Open(s.io, s.hist.owner[m], m);
      assert Pending(s, m) ==> Pending(s', m);
      assert Rooted(s, m) ==> Rooted(s', m);
      assert forall i: nat :: PlannedAt(s, m, i) ==> PlannedAt(s', m, i);
    }
  }

  /** The mailbox the update is about: it stays open, and now the queue has the update. */
  lemma SendUpdateKeepsOwnMailbox(s: Machine, m: Serial)
    requires Steady(s) && Can(s, ByIo(SendUpdate)) && Domains(Next(s, ByIo(SendUpdate)))
    requires MailboxInv(s, m) && IoOn(s, m)
    ensures MailboxInv(Next(s, ByIo(SendUpdate)), m)
  {
    BusyIsOpen(s, m);
    var s' := Next(s, ByIo(SendUpdate));
    var q, cmd := s.worker.queue, BufferUpdate(s.io.fifos[s.pc.t].metadata, m);
    assert s'.worker.queue == q + [cmd];
    KillPushed(q, cmd, s.hist.owner[m]);
    UpdatePushed(q, cmd, m);
    assert Pending(s', m);
    if Rooted(s, m) {
      assert Rooted(s', m);
    } else if i: nat :| PlannedAt(s, m, i) {
      PlanPushed(q, cmd, s.hist.owner[m], m, i);
      assert PlannedAt(s', m, i);
    }
  }

  lemma SendUpdateKeepsOtherMailbox(s: Machine, m: Serial)
    requires Steady(s) && Can(s, ByIo(SendUpdate)) && Domains(Next(s, ByIo(SendUpdate)))
    requires MailboxInv(s, m) && !IoOn(s, m)
    ensures MailboxInv(Next(s, ByIo(SendUpdate)), m)
  {
    if m < s.io.created {
      var s' := Next(s, ByIo(SendUpdate));
      QueuePushed(s, BufferUpdate(s.io.fifos[s.pc.t].metadata, SerialOf(s, s.pc.t)), m);
      assert Fed(s', m) <==> Fed(s, m);
      assert Pending(s, m) ==> Pending(s', m);
      assert Rooted(s, m) ==> Rooted(s', m);
      assert forall i: nat :: PlannedAt(s, m, i) ==> PlannedAt(s', m, i);
    }
  }

  lemma ReloadKeepsMailbox(s: Machine, configLoads: bool, m: Serial)
    requires Steady(s) && Can(s, ByIo(ReloadConfig(configLoads)))
    requires Domains(Next(s, ByIo(ReloadConfig(configLoads))))
    requires MailboxInv(s, m)
    ensures MailboxInv(Next(s, ByIo(ReloadConfig(configLoads))), m)
  {
  }

  /** The new handler starts with no tree, and nothing is left of the old queue. */
  lemma JoinKeepsMailbox(s: Machine, m: Serial)
    requires Steady(s) && Can(s, ByIo(Join)) && Domains(Next(s, ByIo(Join)))
    requires m < s.io.created && Open(s.io, s.hist.owner[m], m) ==> m in s.hist.disturbed
    requires MailboxInv(s, m)
    ensures MailboxInv(Next(s, ByIo(Join)), m)
  {
  }

  lemma CheckKeepsMailbox(s: Machine, m: Serial)
    requires Steady(s) && Can(s, ByWorker(Check)) && Domains(Next(s, ByWorker(Check)))
    requires MailboxInv(s, m)
    ensures MailboxInv(Next(s, ByWorker(Check)), m)
  {
    if s.worker.pc.m != m {
      WorkerStepSameView(s, Check, m);
      SameViewKeepsMailbox(s, Next(s, ByWorker(Check)), m);
    } else {
      CheckKeepsOwnMailbox(s, m);
    }
  }

  lemma CheckKeepsOwnMailbox(s: Machine, m: Serial)
    requires Domains(s) && Can(s, ByWorker(Check)) && Domains(Next(s, ByWorker(Check))) && s.worker.pc.m == m
    requires MailboxInv(s, m)
    ensures MailboxInv(Next(s, ByWorker(Check)), m)
  {
    var s' := Next(s, ByWorker(Check));
    assert BoxInv(s', m) && PendingInv(s', m) && OrphanInv(s', m);
    assert Rooted(s, m) ==> Rooted(s', m);
  }

  lemma SwapKeepsMailbox(s: Machine, m: Serial)
    requires Steady(s) && Can(s, ByWorker(Swap)) && Domains(Next(s, ByWorker(Swap)))
    requires MailboxInv(s, m) && OrphanInv(s, s.worker.pc.m)
    ensures MailboxInv(Next(s, ByWorker(Swap)), m)
  {
    if m < s.io.created {
      SwapKeepsBox(s, m);
      SwapKeepsPending(s, m);
      SwapKeepsUndisturbed(s, m);
    }
  }

  lemma SwapKeepsBox(s: Machine, m: Serial)
    requires Steady(s) && Can(s, ByWorker(Swap)) && Domains(Next(s, ByWorker(Swap)))
    requires m < s.io.created && BoxInv(s, m)
    ensures BoxInv(Next(s, ByWorker(Swap)), m)
  {
    var s' := Next(s, ByWorker(Swap));
    if m == s.worker.pc.m {
      assert Fed(s', m) && s'.boxes[m].lock.HeldByReader?;
    } else {
      assert Fed(s', m) ==> Fed(s, m) && s.hist.owner[m] != s.worker.pc.id;
      assert s'.boxes[m] == s.boxes[m];
    }
  }

  lemma SwapKeepsPending(s: Machine, m: Serial)
    requires Steady(s) && Can(s, ByWorker(Swap)) && Domains(Next(s, ByWorker(Swap)))
    requires m < s.io.created && BoxInv(s, m) && PendingInv(s, m) && OrphanInv(s, m)
    ensures PendingInv(Next(s, ByWorker(Swap)), m) && OrphanInv(Next(s, ByWorker(Swap)), m)
  {
    var s' := Next(s, ByWorker(Swap));
    if m != s.worker.pc.m {
      assert s'.boxes[m] == s.boxes[m];
      assert Pending(s, m) ==> Pending(s', m);
    }
  }

  /** Another mailbox cannot be swapped into the tree of `m`: that tree would be about to be deleted. */
  lemma SwapKeepsUndisturbed(s: Machine, m: Serial)
    requires Steady(s) && Can(s, ByWorker(Swap)) && Domains(Next(s, ByWorker(Swap)))
    requires m < s.io.created && BoxInv(s, m) && UndisturbedInv(s, m)
    requires OrphanInv(s, s.worker.pc.m)
    ensures UndisturbedInv(Next(s, ByWorker(Swap)), m)
  {
    var s' := Next(s, ByWorker(Swap));
    if Open(s.io, s.hist.owner[m], m) && m !in s.hist.disturbed {
      if Rooted(s, m) {
        assert s.worker.pc.m != m ==> s.worker.pc.id != s.hist.owner[m];
        assert Rooted(s', m);
      } else {
        var i: nat :| PlannedAt(s, m, i);
        assert PlannedAt(s', m, i);
      }
    }
  }

  lemma MarkKeepsMailbox(s: Machine, m: Serial)
    requires Steady(s) && Can(s, ByWorker(Mark)) && Domains(Next(s, ByWorker(Mark)))
    requires MailboxInv(s, m)
    ensures MailboxInv(Next(s, ByWorker(Mark)), m)
  {
    if s.worker.pc.m != m {
      WorkerStepSameView(s, Mark, m);
      SameViewKeepsMailbox(s, Next(s, ByWorker(Mark)), m);
    } else {
      MarkKeepsOwnMailbox(s, m);
    }
  }

  lemma MarkKeepsOwnMailbox(s: Machine, m: Serial)
    requires Domains(s) && Can(s, ByWorker(Mark)) && Domains(Next(s, ByWorker(Mark))) && s.worker.pc.m == m
    requires MailboxInv(s, m)
    ensures MailboxInv(Next(s, ByWorker(Mark)), m)
  {
    var s' := Next(s, ByWorker(Mark));
    assert BoxInv(s', m) && PendingInv(s', m) && OrphanInv(s', m);
    assert Rooted(s, m) ==> Rooted(s', m);
  }

  // One command taken from the queue, one invariant at a time.

  /** Taking a command either forgets that a tree was fed, or leaves its text alone. */
  lemma RecvKeepsFedText(s: Machine, langOk: bool, parses: bool, m: Serial)
    requires Steady(s) && Can(s, ByWorker(Recv(langOk, parses)))
    ensures var s' := Next(s, ByWorker(Recv(langOk, parses)));
            && (Fed(s', m) ==> Fed(s, m))
            && (Fed(s', m) ==>
                  forall text :: TreeHolds(s, s.hist.owner[m], text) ==> TreeHolds(s', s.hist.owner[m], text))
  {
  }

  lemma RecvKeepsBox(s: Machine, langOk: bool, parses: bool, m: Serial)
    requires Steady(s) && Can(s, ByWorker(Recv(langOk, parses)))
    requires Domains(Next(s, ByWorker(Recv(langOk, parses))))
    requires BoxInv(s, m)
    ensures BoxInv(Next(s, ByWorker(Recv(langOk, parses))), m)
  {
    var s' := Next(s, ByWorker(Recv(langOk, parses)));
    assert s'.boxes == s.boxes && s'.pc == s.pc && s'.hist.written == s.hist.written;
    assert !s'.worker.pc.Swapping? && !s'.worker.pc.Marking?;
    RecvKeepsFedText(s, langOk, parses, m);
  }

  lemma RecvKeepsPending(s: Machine, langOk: bool, parses: bool, m: Serial)
    requires Domains(s) && QueueTagged(s) && Can(s, ByWorker(Recv(langOk, parses)))
    requires m < s.io.created && Pending(s, m)
    requires s.hist.owner[m] in s.worker.trees
    ensures Pending(Next(s, ByWorker(Recv(langOk, parses))), m)
  {
    var s' := Next(s, ByWorker(Recv(langOk, parses)));
    if i :| 0 <= i < |s.worker.queue| && UpdateFor(s.worker.queue[i], m) {
      if i > 0 {
        assert UpdateFor(s'.worker.queue[i - 1], m);
      }
    }
  }

  lemma RecvKeepsOrphan(s: Machine, langOk: bool, parses: bool, m: Serial)
    requires Domains(s) && QueueTagged(s) && FedTrees(s) && Can(s, ByWorker(Recv(langOk, parses)))
    requires Domains(Next(s, ByWorker(Recv(langOk, parses))))
    requires OrphanInv(s, m)
    ensures OrphanInv(Next(s, ByWorker(Recv(langOk, parses))), m)
  {
    if m < s.io.created && !Open(s.io, s.hist.owner[m], m) {
      KillPopped(s.worker.queue, s.hist.owner[m]);
      DoomedPopped(s.worker.queue, s.hist.owner[m], m);
    }
  }

  lemma RecvKeepsUndisturbed(s: Machine, langOk: bool, parses: bool, m: Serial)
    requires Steady(s) && Can(s, ByWorker(Recv(langOk, parses)))
    requires Domains(Next(s, ByWorker(Recv(langOk, parses))))
    requires UndisturbedInv(s, m)
    ensures UndisturbedInv(Next(s, ByWorker(Recv(langOk, parses))), m)
  {
    var s' := Next(s, ByWorker(Recv(langOk, parses)));
    if m < s'.io.created && Open(s'.io, s'.hist.owner[m], m) && m !in s'.hist.disturbed {
      if Rooted(s, m) {
        RecvKeepsRooted(s, langOk, parses, m);
      } else {
        var i: nat :| PlannedAt(s, m, i);
        RecvRealisesPlan(s, langOk, parses, m, i);
      }
    }
  }

  /** A tree that nothing in the queue takes away stays, and so does what it has seen or is going to see. */
  lemma RecvKeepsRooted(s: Machine, langOk: bool, parses: bool, m: Serial)
    requires Domains(s) && QueueTagged(s) && Can(s, ByWorker(Recv(langOk, parses)))
    requires Domains(Next(s, ByWorker(Recv(langOk, parses))))
    requires m < s.io.created && Rooted(s, m)
    ensures Rooted(Next(s, ByWorker(Recv(langOk, parses))), m)
  {
    var s' := Next(s, ByWorker(Recv(langOk, parses)));
    KillPopped(s.worker.queue, s.hist.owner[m]);
    if Pending(s, m) {
      RecvKeepsPending(s, langOk, parses, m);
    }
    assert Fed(s, m) ==> Fed(s', m);
  }

  lemma RecvRealisesPlan(s: Machine, langOk: bool, parses: bool, m: Serial, i: nat)
    requires Domains(s) && QueueTagged(s) && Can(s, ByWorker(Recv(langOk, parses)))
    requires Domains(Next(s, ByWorker(Recv(langOk, parses))))
    requires m < s.io.created && PlannedAt(s, m, i)
    requires m !in Next(s, ByWorker(Recv(langOk, parses))).hist.disturbed
    ensures var s' := Next(s, ByWorker(Recv(langOk, parses)));
            if i == 0 then Rooted(s', m) else PlannedAt(s', m, i - 1)
  {
    var s' := Next(s, ByWorker(Recv(langOk, parses)));
    var q := s.worker.queue;
    PlanPopped(q, s.hist.owner[m], m, i);
    assert !UpdateFor(q[0], m);
    if s.hist.written[m] != [] {
      if j :| 0 <= j < |q| && UpdateFor(q[j], m) {
        assert UpdateFor(s'.worker.queue[j - 1], m);
      }
      assert Pending(s', m);
    }
  }

  lemma RecvKeepsMailbox(s: Machine, langOk: bool, parses: bool, m: Serial)
    requires Steady(s) && Can(s, ByWorker(Recv(langOk, parses)))
    requires Domains(Next(s, ByWorker(Recv(langOk, parses))))
    requires MailboxInv(s, m)
    ensures MailboxInv(Next(s, ByWorker(Recv(langOk, parses))), m)
  {
    var s' := Next(s, ByWorker(Recv(langOk, parses)));
    RecvKeepsBox(s, langOk, parses, m);
    RecvKeepsOrphan(s, langOk, parses, m);
    RecvKeepsUndisturbed(s, langOk, parses, m);
    if m < s.io.created && Fed(s', m) && Pending(s, m) {
      RecvKeepsPending(s, langOk, parses, m);
    }
  }

  // ---------------------------------------------------------------- every run

  lemma ServeKeepsInv(s: Machine, req: Request, creation: Creation)
    requires Inv(s) && Can(s, ByIo(Serve(req, creation)))
    ensures var s' := Next(s, ByIo(Serve(req, creation)));
            && Domains(s') && Counters(s') && QueueTagged(s') && FedTrees(s')
            && forall m :: MailboxInv(s', m)
  {
    var s' := Next(s, ByIo(Serve(req, creation)));
    if Opens(s.io, req, creation) {
      RequestOpens(s, req, creation);
      UnusedTokenHasNoFifo(s.io);
      var id, t, lang := req.metadata.ToBufferId().value, CreateToken(s.io.tokens).1, req.payload.lang;
      var e := Entry(req.metadata, s.io.created, creation.sentinel, "");
      OpenKeepsDomains(s, s', id, t, e, lang);
      OpenKeepsStructure(s, s', id, t, e, lang);
      forall m ensures MailboxInv(s', m) {
        OpenKeepsMailbox(s, s', id, t, e, lang, m);
      }
    } else if Closes(s.io, req) {
      RequestCloses(s, req, creation);
      var id := req.metadata.ToBufferId().value;
      CloseKeepsStructure(s, s', id, req.metadata);
      forall m ensures MailboxInv(s', m) {
        CloseKeepsMailbox(s, s', id, req.metadata, m);
      }
    } else {
      RequestOnlySends(s, req, creation);
      var cmds, disturbed :| OnlySent(s, s', cmds, disturbed);
      SendKeepsStructure(s, s', cmds, disturbed);
      forall m ensures MailboxInv(s', m) {
        SendKeepsMailbox(s, s', cmds, disturbed, m);
      }
    }
  }

  lemma UnusedTokenHasNoFifo(io: IoState)
    requires IoInv(io)
    ensures CreateToken(io.tokens).1 !in io.fifos
  {
    CreateTakesAnUnusedToken(io.tokens);
    var t := CreateToken(io.tokens).1;
    assert InUse(io.tokens, t) <==> t in io.connections || t in io.fifos.Keys || t in io.leaked;
  }

  lemma IoStepKeepsMailbox(s: Machine, step: IoStep, m: Serial)
    requires Steady(s) && Can(s, ByIo(step)) && Domains(Next(s, ByIo(step))) && !step.Serve?
    requires MailboxInv(s, m)
    ensures MailboxInv(Next(s, ByIo(step)), m)
  {
    if step.ReloadConfig? {
      ReloadKeepsMailbox(s, step.configLoads, m);
    } else if step.WriteText? {
      WriteTextKeepsMailbox(s, m);
    } else if step.StoreFlag? {
      StoreFlagKeepsMailbox(s, m);
    } else if step.SendUpdate? {
      if IoOn(s, m) {
        SendUpdateKeepsOwnMailbox(s, m);
      } else {
        SendUpdateKeepsOtherMailbox(s, m);
      }
    } else if step.Join? {
      JoinKeepsMailbox(s, m);
    } else {
      LocalStepSameView(s, step, m);
      SameViewKeepsMailbox(s, Next(s, ByIo(step)), m);
    }
  }

  lemma IoStepKeepsInv(s: Machine, step: IoStep)
    requires Inv(s) && Can(s, ByIo(step))
    ensures Inv(Next(s, ByIo(step)))
  {
    IoStepKeepsIoInv(s, step);
    IoStepKeepsExits(s, step);
    if step.Serve? {
      ServeKeepsInv(s, step.req, step.creation);
    } else {
      IoStepKeepsDomains(s, step);
      IoStepKeepsCounters(s, step);
      IoStepKeepsQueueTagged(s, step);
      IoStepKeepsFedTrees(s, step);
      forall m ensures MailboxInv(Next(s, ByIo(step)), m) {
        IoStepKeepsMailbox(s, step, m);
      }
    }
  }

  lemma WorkerStepKeepsMailbox(s: Machine, step: HandlerStep, m: Serial)
    requires Steady(s) && Can(s, ByWorker(step)) && Domains(Next(s, ByWorker(step)))
    requires MailboxInv(s, m) && (step.Swap? ==> OrphanInv(s, s.worker.pc.m))
    ensures MailboxInv(Next(s, ByWorker(step)), m)
  {
    match step {
      case Recv(langOk, parses) => RecvKeepsMailbox(s, langOk, parses, m);
      case Check => CheckKeepsMailbox(s, m);
      case Swap => SwapKeepsMailbox(s, m);
      case Mark => MarkKeepsMailbox(s, m);
      case Hangup =>
        WorkerStepSameView(s, step, m);
        SameViewKeepsMailbox(s, Next(s, ByWorker(step)), m);
      case Parse(_) =>
        WorkerStepSameView(s, step, m);
        SameViewKeepsMailbox(s, Next(s, ByWorker(step)), m);
    }
  }

  lemma WorkerStepKeepsInv(s: Machine, step: HandlerStep)
    requires Inv(s) && Can(s, ByWorker(step))
    ensures Inv(Next(s, ByWorker(step)))
  {
    WorkerStepKeepsDomains(s, step);
    WorkerStepKeepsCounters(s, step);
    WorkerStepKeepsQueueTagged(s, step);
    WorkerStepKeepsFedTrees(s, step);
    WorkerStepKeepsExits(s, step);
    assert step.Swap? ==> MailboxInv(s, s.worker.pc.m);
    forall m ensures MailboxInv(Next(s, ByWorker(step)), m) {
      WorkerStepKeepsMailbox(s, step, m);
    }
  }

  lemma ClientKeepsInv(s: Machine, t: Token, payload: string)
    requires Inv(s) && Can(s, ByClient(t, payload))
    ensures Inv(Next(s, ByClient(t, payload)))
  {
    var s' := Next(s, ByClient(t, payload));
    assert Domains(s');
    forall m ensures MailboxInv(s', m) {
      ClientSameView(s, t, payload, m);
      SameViewKeepsMailbox(s, s', m);
    }
  }

  lemma StepKeepsInv(s: Machine, a: Action)
    requires Inv(s) && Can(s, a)
    ensures Inv(Next(s, a))
  {
    match a {
      case ByIo(step) => IoStepKeepsInv(s, step);
      case ByWorker(step) => WorkerStepKeepsInv(s, step);
      case ByIncoming(step) => IncomingIsIdle(s, step);
      case ByClient(t, payload) => ClientKeepsInv(s, t, payload);
    }
  }

  lemma {:induction false} RunInv(standalone: bool, trace: seq<Machine>, actions: seq<Action>, k: nat)
    requires IsRun(standalone, trace, actions) && k < |trace|
    ensures Inv(trace[k])
  {
    if k == 0 {
      InitInv(standalone);
    } else {
      RunInv(standalone, trace, actions, k - 1);
      StepKeepsInv(trace[k - 1], actions[k - 1]);
    }
  }

  // ---------------------------------------------------------------- theorems

  /** At rest, no lock is held and nobody is going to look at a mailbox any more. */
  lemma QuietMailbox(s: Machine, m: Serial)
    requires Inv(s) && Quiet(s) && m < s.io.created
    ensures s.boxes[m].lock.Free? && !Pending(s, m)
  {
    assert MailboxInv(s, m);
  }

  /** At rest, a tree that was swapped with the mailbox of its open FIFO holds the last text written to it. */
  lemma FedTreeIsUpToDate(s: Machine, id: BufferId, m: Serial)
    requires Inv(s) && Quiet(s) && Open(s.io, id, m)
    ensures m < s.io.created && s.hist.owner[m] == id
    ensures Fed(s, m) ==> TreeHolds(s, id, Latest(s.hist.written[m]))
    ensures !Fed(s, m) ==> id !in s.worker.trees || s.worker.trees[id].buf == ""
  {
    assert RegisteredAs(s.io.fifos, s.io.tknBufferIds[id], id);
    QuietMailbox(s, m);
    assert MailboxInv(s, m);
    if id in s.hist.fed {
      assert MailboxInv(s, s.hist.fed[id]);
    }
  }

  /**
    The exact condition. Whenever the server is at rest, the tree of an open buffer holds the last frame
    if and only if some update from this FIFO reached this tree since the tree was made, or there is
    nothing to hold: the tree is new and the last frame is empty.
   */
  lemma UpToDateIffFed(standalone: bool, trace: seq<Machine>, actions: seq<Action>, k: nat,
                       id: BufferId, m: Serial)
    requires IsRun(standalone, trace, actions) && k < |trace|
    requires Quiet(trace[k]) && Open(trace[k].io, id, m)
    ensures m in trace[k].hist.written
    ensures var last := Latest(trace[k].hist.written[m]);
            TreeHolds(trace[k], id, last)
            <==> Fed(trace[k], m) || (last == "" && id in trace[k].worker.trees)
  {
    RunInv(standalone, trace, actions, k);
    FedTreeIsUpToDate(trace[k], id, m);
  }

  /**
    No lost update. Unless the first `BufferMetadata` failed in the handler, or the session ended, or
    the server reloaded, the tree holds the last frame written whenever the server is at rest.
   */
  lemma NoLostUpdate(standalone: bool, trace: seq<Machine>, actions: seq<Action>, k: nat,
                     id: BufferId, m: Serial)
    requires IsRun(standalone, trace, actions) && k < |trace|
    requires Quiet(trace[k]) && Open(trace[k].io, id, m) && m !in trace[k].hist.disturbed
    ensures m in trace[k].hist.written
    ensures trace[k].hist.written[m] != [] ==>
              TreeHolds(trace[k], id, Latest(trace[k].hist.written[m]))
  {
    var s := trace[k];
    RunInv(standalone, trace, actions, k);
    FedTreeIsUpToDate(s, id, m);
    QuietMailbox(s, m);
    assert MailboxInv(s, m);
    assert forall i: nat :: !PlannedAt(s, m, i);
  }

  /** Nothing in this step can separate the buffer `id` from its tree. */
  ghost predicate Harmless(s: Machine, a: Action, id: BufferId) {
    match a
    case ByIo(ReloadConfig(configLoads)) => !configLoads
    case ByIo(Serve(req, _)) => req.payload.SessionEnd? ==> req.metadata.session != id.session
    case ByWorker(Recv(langOk, parses)) =>
      s.worker.queue != [] && s.worker.queue[0].BufferMetadata?
      && s.worker.queue[0].metadata.ToBufferId() == Some(id)
      ==> id in s.worker.trees || (langOk && parses)
    case _ => true
  }

  /** The mailboxes of the buffer `id` are all undisturbed. */
  ghost predicate Calm(s: Machine, id: BufferId) {
    forall m :: m in s.hist.disturbed ==> m in s.hist.owner && s.hist.owner[m] != id
  }

  lemma HarmlessServe(s: Machine, req: Request, creation: Creation, id: BufferId)
    requires Domains(s) && MapsInverse(s.io.fifos, s.io.tknBufferIds) && Calm(s, id)
    requires Can(s, ByIo(Serve(req, creation))) && Harmless(s, ByIo(Serve(req, creation)), id)
    ensures Calm(Next(s, ByIo(Serve(req, creation))), id)
  {
    forall other | other in s.io.tknBufferIds
      ensures s.hist.owner[SerialOf(s, s.io.tknBufferIds[other])] == other
    {
      assert RegisteredAs(s.io.fifos, s.io.tknBufferIds[other], other);
    }
  }

  lemma HarmlessStep(s: Machine, a: Action, id: BufferId)
    requires Steady(s) && Calm(s, id) && Can(s, a) && Harmless(s, a, id)
    ensures Calm(Next(s, a), id)
  {
    if a.ByIo? && a.io.Serve? {
      HarmlessServe(s, a.io.req, a.io.creation, id);
    }
  }

  /** In a run that is harmless for a buffer, its mailboxes stay undisturbed. */
  lemma {:induction false} HarmlessRun(standalone: bool, trace: seq<Machine>, actions: seq<Action>, k: nat,
                                       id: BufferId)
    requires IsRun(standalone, trace, actions) && k < |trace|
    requires forall i {:trigger actions[i]} :: 0 <= i < k ==> Harmless(trace[i], actions[i], id)
    ensures Calm(trace[k], id)
  {
    if k > 0 {
      HarmlessRun(standalone, trace, actions, k - 1, id);
      RunInv(standalone, trace, actions, k - 1);
      HarmlessStep(trace[k - 1], actions[k - 1], id);
    }
  }

  /** The same in terms of what happened: no reload, no end of the session, no failed first metadata. */
  lemma NoLostUpdateInHarmlessRuns(standalone: bool, trace: seq<Machine>, actions: seq<Action>, k: nat,
                                   id: BufferId, m: Serial)
    requires IsRun(standalone, trace, actions) && k < |trace|
    requires forall i {:trigger actions[i]} :: 0 <= i < k ==> Harmless(trace[i], actions[i], id)
    requires Quiet(trace[k]) && Open(trace[k].io, id, m)
    ensures m in trace[k].hist.written
    ensures trace[k].hist.written[m] != [] ==>
              TreeHolds(trace[k], id, Latest(trace[k].hist.written[m]))
  {
    HarmlessRun(standalone, trace, actions, k, id);
    RunInv(standalone, trace, actions, k);
    FedTreeIsUpToDate(trace[k], id, m);
    NoLostUpdate(standalone, trace, actions, k, id, m);
  }

  // ---------------------------------------------------------------- coming to rest

  /** How many steps the handler still has before it exits, at most, if nothing more is sent. */
  function Work(w: Worker): nat {
    5 * |w.queue| +
    match w.pc
    case Exited => 0
    case Receiving => 1
    case Parsing(_) => 2
    case Marking(_, _) => 3
    case Swapping(_, _) => 4
    case Checking(_, _) => 5
  }

  /** It is in the middle of something, or has something to receive, or its channel is closed. */
  predicate HasWork(w: Worker) {
    !w.pc.Exited? && (!w.pc.Receiving? || w.queue != [] || w.closed)
  }

  lemma StepLowersWork(w: Worker, boxes: map<Serial, Mailbox>, step: HandlerStep)
    requires WorkerCan(w, boxes, step)
    ensures Work(WorkerStep(w, boxes, step).0) < Work(w)
  {
  }

  /**
    The handler never gets stuck: as long as it has work and the writer is not inside the lock, it has a
    step; and each of its steps brings it closer to rest.
   */
  lemma HandlerCatchesUp(s: Machine)
    requires Inv(s)
    ensures forall step :: Can(s, ByWorker(step)) ==> Work(Next(s, ByWorker(step)).worker) < Work(s.worker)
    ensures HasWork(s.worker) && !s.pc.Flagging? ==> exists step :: Can(s, ByWorker(step))
  {
    forall step | Can(s, ByWorker(step))
      ensures Work(Next(s, ByWorker(step)).worker) < Work(s.worker)
    {
      StepLowersWork(s.worker, s.boxes, step);
    }
    if HasWork(s.worker) && !s.pc.Flagging? {
      match s.worker.pc {
        case Receiving =>
          assert if s.worker.queue != [] then Can(s, ByWorker(Recv(true, true))) else Can(s, ByWorker(Hangup));
        case Checking(_, m) => assert Can(s, ByWorker(Check));
        case Swapping(_, m) =>
          assert MailboxInv(s, m);
          assert Can(s, ByWorker(Swap));
        case Marking(id, m) =>
          assert MailboxInv(s, m);
          assert Can(s, ByWorker(Mark));
        case Parsing(_) => assert Can(s, ByWorker(Parse(true)));
      }
    }
  }

  /** Old text in the shared slot never comes back: every swap hands over the text written last. */
  lemma SwapTakesTheLatest(standalone: bool, trace: seq<Machine>, actions: seq<Action>, k: nat)
    requires IsRun(standalone, trace, actions) && k < |actions| && actions[k] == ByWorker(Swap)
    ensures trace[k].worker.pc.Swapping? && trace[k].worker.pc.m in trace[k].hist.written
    ensures TreeHolds(trace[k + 1], trace[k].worker.pc.id,
                      Latest(trace[k].hist.written[trace[k].worker.pc.m]))
  {
    RunInv(standalone, trace, actions, k);
    assert MailboxInv(trace[k], trace[k].worker.pc.m);
  }
}
