/** What can be said about the commands themselves: the order they are sent in, and the trees they leave. */
module CommandLog {
  import opened Options
  import opened Protocol
  import opened Allocation
  import opened IoServer
  import opened Machines
  import opened LostUpdates

  predicate About(c: Command, id: BufferId) {
    !c.Shutdown? && c.metadata.ToBufferId() == Some(id)
  }

  /** The last `BufferMetadata` or `BufferClose` for `id` in the log is a `BufferMetadata`. */
  ghost predicate IdOpen(log: seq<Command>, id: BufferId) {
    log != [] &&
    var c := log[|log| - 1];
    if c.BufferMetadata? && About(c, id) then true
    else if c.BufferClose? && About(c, id) then false
    else IdOpen(log[..|log| - 1], id)
  }

  /** The last `SessionInit` or `SessionEnd` for the session in the log is a `SessionInit`. */
  ghost predicate SessionOpen(log: seq<Command>, session: string) {
    log != [] &&
    var c := log[|log| - 1];
    if c.SessionInit? && c.metadata.session == session then true
    else if c.SessionEnd? && c.metadata.session == session then false
    else SessionOpen(log[..|log| - 1], session)
  }

  /** Whether the command may come after the commands in `log`. */
  ghost predicate Orderly(log: seq<Command>, c: Command) {
    && (c.BufferUpdate? ==> c.metadata.ToBufferId().Some? && IdOpen(log, c.metadata.ToBufferId().value))
    && (c.SessionInit? ==> !SessionOpen(log, c.metadata.session))
  }

  ghost predicate OrderlyLog(log: seq<Command>) {
    forall i :: 0 <= i < |log| ==> Orderly(log[..i], log[i])
  }

  /** The log says which buffers and sessions are open, and it is orderly from beginning to end. */
  ghost predicate LogInv(io: IoState, log: seq<Command>) {
    && (forall id :: id in io.tknBufferIds <==> IdOpen(log, id))
    && (forall session :: session in io.sessions <==> SessionOpen(log, session))
    && OrderlyLog(log)
  }

  /** What one more command does to the buffers and sessions that are open. */
  ghost predicate Follows(io: IoState, io': IoState, c: Command) {
    && (forall id ::
          id in io'.tknBufferIds
          <==> if c.BufferMetadata? && About(c, id) then true
               else if c.BufferClose? && About(c, id) then false
               else id in io.tknBufferIds)
    && (forall session ::
          session in io'.sessions
          <==> if c.SessionInit? && c.metadata.session == session then true
               else if c.SessionEnd? && c.metadata.session == session then false
               else session in io.sessions)
  }

  lemma LogPushed(io: IoState, io': IoState, log: seq<Command>, c: Command)
    requires LogInv(io, log) && Orderly(log, c) && Follows(io, io', c)
    ensures LogInv(io', log + [c])
  {
    var log' := log + [c];
    assert log'[..|log'| - 1] == log;
    assert forall i :: 0 <= i < |log| ==> log'[..i] == log[..i] && log'[i] == log[i];
  }

  lemma OpeningKeepsLog(s: Machine, s': Machine, id: BufferId, t: Token, e: Entry, lang: string)
    requires LogInv(s.io, s.hist.log) && OpenedBy(s, s', id, t, e, lang)
    ensures LogInv(s'.io, s'.hist.log)
  {
    LogPushed(s.io, s'.io, s.hist.log, Command.BufferMetadata(e.metadata, lang, e.serial, e.sentinel));
  }

  lemma ClosingKeepsLog(s: Machine, s': Machine, id: BufferId, metadata: Metadata)
    requires LogInv(s.io, s.hist.log) && ClosedBy(s, s', id, metadata)
    ensures LogInv(s'.io, s'.hist.log)
  {
    LogPushed(s.io, s'.io, s.hist.log, Command.BufferClose(metadata));
  }

  lemma SendingKeepsLog(s: Machine, s': Machine, cmds: seq<Command>, disturbed: set<Serial>)
    requires LogInv(s.io, s.hist.log) && OnlySent(s, s', cmds, disturbed)
    ensures LogInv(s'.io, s'.hist.log)
  {
    if cmds == [] {
      assert s'.hist.log == s.hist.log;
    } else {
      assert cmds == [cmds[0]];
      LogPushed(s.io, s'.io, s.hist.log, cmds[0]);
    }
  }

  lemma ServeKeepsLog(s: Machine, req: Request, creation: Creation)
    requires MapsInverse(s.io.fifos, s.io.tknBufferIds) && LogInv(s.io, s.hist.log)
    requires Can(s, ByIo(Serve(req, creation)))
    ensures var s' := Next(s, ByIo(Serve(req, creation))); LogInv(s'.io, s'.hist.log)
  {
    var s' := DoRequest(s, req, creation);
    if Opens(s.io, req, creation) {
      RequestOpens(s, req, creation);
      OpeningKeepsLog(s, s', req.metadata.ToBufferId().value, CreateToken(s.io.tokens).1,
                      Entry(req.metadata, s.io.created, creation.sentinel, ""), req.payload.lang);
    } else if Closes(s.io, req) {
      RequestCloses(s, req, creation);
      ClosingKeepsLog(s, s', req.metadata.ToBufferId().value, req.metadata);
    } else {
      RequestOnlySends(s, req, creation);
      var cmds, disturbed :| OnlySent(s, s', cmds, disturbed);
      SendingKeepsLog(s, s', cmds, disturbed);
    }
  }

  lemma SendUpdateKeepsLog(s: Machine)
    requires MapsInverse(s.io.fifos, s.io.tknBufferIds) && LogInv(s.io, s.hist.log)
    requires Can(s, ByIo(SendUpdate))
    ensures var s' := Next(s, ByIo(SendUpdate)); LogInv(s'.io, s'.hist.log)
  {
    var e := s.io.fifos[s.pc.t];
    assert RegisteredAs(s.io.fifos, s.pc.t, e.metadata.ToBufferId().value);
    LogPushed(s.io, s.io, s.hist.log, BufferUpdate(e.metadata, e.serial));
  }

  /** Every other step leaves the log and what it is about alone. */
  lemma OtherStepKeepsLog(s: Machine, a: Action)
    requires Can(s, a) && !(a.ByIo? && a.io.Serve?) && a != ByIo(SendUpdate)
    ensures var s' := Next(s, a);
            && s'.hist.log == s.hist.log
            && s'.io.tknBufferIds == s.io.tknBufferIds && s'.io.sessions == s.io.sessions
  {
    if a.ByIo? {
      OtherIoStepKeepsLog(s, a.io);
    }
  }

  lemma OtherIoStepKeepsLog(s: Machine, step: IoStep)
    requires IoCan(s, step) && !step.Serve? && !step.SendUpdate?
    ensures var s' := IoNext(s, step);
            && s'.hist.log == s.hist.log
            && s'.io.tknBufferIds == s.io.tknBufferIds && s'.io.sessions == s.io.sessions
  {
  }

  lemma StepKeepsLog(s: Machine, a: Action)
    requires MapsInverse(s.io.fifos, s.io.tknBufferIds) && LogInv(s.io, s.hist.log) && Can(s, a)
    ensures var s' := Next(s, a); LogInv(s'.io, s'.hist.log)
  {
    if a.ByIo? && a.io.Serve? {
      ServeKeepsLog(s, a.io.req, a.io.creation);
    } else if a == ByIo(SendUpdate) {
      SendUpdateKeepsLog(s);
    } else {
      OtherStepKeepsLog(s, a);
    }
  }

  lemma {:induction false} RunLog(standalone: bool, trace: seq<Machine>, actions: seq<Action>, k: nat)
    requires IsRun(standalone, trace, actions) && k < |trace|
    ensures LogInv(trace[k].io, trace[k].hist.log)
  {
    if k > 0 {
      RunLog(standalone, trace, actions, k - 1);
      RunInv(standalone, trace, actions, k - 1);
      StepKeepsLog(trace[k - 1], actions[k - 1]);
    }
  }

  // ---------------------------------------------------------------- sent, queued, received

  /** What a step sends. */
  ghost function SentBy(s: Machine, a: Action): seq<Command> {
    if a.ByIo? && a.io.Serve? then ProcessReq(s.io, a.io.req, a.io.creation).sent
    else if a == ByIo(SendUpdate) && s.pc.Sending? && s.pc.t in s.io.fifos
    then [BufferUpdate(s.io.fifos[s.pc.t].metadata, SerialOf(s, s.pc.t))]
    else []
  }

  /** What a step receives. */
  ghost function ReceivedBy(s: Machine, a: Action): seq<Command> {
    if a.ByWorker? && a.step.Recv? && s.worker.queue != [] then [s.worker.queue[0]] else []
  }

  /** Everything any handler received in the first `k` steps. */
  ghost function Received(trace: seq<Machine>, actions: seq<Action>, k: nat): seq<Command>
    requires k <= |trace| && k <= |actions|
  {
    if k == 0 then [] else Received(trace, actions, k - 1) + ReceivedBy(trace[k - 1], actions[k - 1])
  }

  lemma StepMovesCommands(s: Machine, a: Action)
    requires Counters(s) && Exits(s) && Can(s, a)
    ensures Next(s, a).hist.log == s.hist.log + SentBy(s, a)
    ensures ReceivedBy(s, a) + Next(s, a).worker.queue == s.worker.queue + SentBy(s, a)
  {
    if a.ByIo? && (a.io.Serve? || a.io.SendUpdate?) {
      assert Next(s, a).worker.queue == s.worker.queue + SentBy(s, a);
    } else {
      StepWithoutSending(s, a);
    }
  }

  lemma StepWithoutSending(s: Machine, a: Action)
    requires Counters(s) && Exits(s) && Can(s, a) && !(a.ByIo? && (a.io.Serve? || a.io.SendUpdate?))
    ensures SentBy(s, a) == [] && Next(s, a).hist.log == s.hist.log
    ensures ReceivedBy(s, a) + Next(s, a).worker.queue == s.worker.queue
  {
    match a {
      case ByIo(step) => IoStepWithoutSending(s, step);
      case ByWorker(step) =>
      case ByIncoming(step) => IncomingIsIdle(s, step);
      case ByClient(_, _) =>
    }
  }

  lemma IoStepWithoutSending(s: Machine, step: IoStep)
    requires Counters(s) && Exits(s) && IoCan(s, step) && !step.Serve? && !step.SendUpdate?
    ensures IoNext(s, step).hist.log == s.hist.log && IoNext(s, step).worker.queue == s.worker.queue
  {
  }

  /** In every run, what was sent is what was received followed by what is queued: in order, each once. */
  lemma {:induction false} SentIsReceivedThenQueued(standalone: bool, trace: seq<Machine>, actions: seq<Action>, k: nat)
    requires IsRun(standalone, trace, actions) && k < |trace|
    ensures trace[k].hist.log == Received(trace, actions, k) + trace[k].worker.queue
  {
    if k > 0 {
      SentIsReceivedThenQueued(standalone, trace, actions, k - 1);
      var s, a := trace[k - 1], actions[k - 1];
      RunMovesCommands(standalone, trace, actions, k - 1);
      var received, got := Received(trace, actions, k - 1), ReceivedBy(s, a);
      assert Received(trace, actions, k) == received + got;
      Regroup(received, s.worker.queue, SentBy(s, a), got, trace[k].worker.queue);
    }
  }

  lemma RunMovesCommands(standalone: bool, trace: seq<Machine>, actions: seq<Action>, k: nat)
    requires IsRun(standalone, trace, actions) && k < |actions|
    ensures trace[k + 1].hist.log == trace[k].hist.log + SentBy(trace[k], actions[k])
    ensures ReceivedBy(trace[k], actions[k]) + trace[k + 1].worker.queue
            == trace[k].worker.queue + SentBy(trace[k], actions[k])
  {
    RunInv(standalone, trace, actions, k);
    StepMovesCommands(trace[k], actions[k]);
  }

  lemma Regroup(received: seq<Command>, queue: seq<Command>, sent: seq<Command>, got: seq<Command>, rest: seq<Command>)
    requires got + rest == queue + sent
    ensures (received + queue) + sent == (received + got) + rest
  {
    assert (received + queue) + sent == received + (queue + sent);
    assert (received + got) + rest == received + (got + rest);
  }

  /** The end of the log is what the handler has still to do, so it executes commands in sending order. */
  ghost predicate QueueIsTail(s: Machine) {
    && |s.worker.queue| <= |s.hist.log|
    && s.hist.log[|s.hist.log| - |s.worker.queue|..] == s.worker.queue
  }

  lemma RunTail(standalone: bool, trace: seq<Machine>, actions: seq<Action>, k: nat)
    requires IsRun(standalone, trace, actions) && k < |trace|
    ensures QueueIsTail(trace[k])
  {
    SentIsReceivedThenQueued(standalone, trace, actions, k);
  }

  /** The command at `i` opened the buffer, and none after it closed it. */
  ghost predicate OpenedAt(log: seq<Command>, id: BufferId, i: nat) {
    && i < |log| && log[i].BufferMetadata? && About(log[i], id)
    && forall j :: i < j < |log| ==> !(log[j].BufferClose? && About(log[j], id))
  }

  /** What the recursive predicate means in terms of positions. */
  lemma {:induction false} OpenMeansNoCloseSince(log: seq<Command>, id: BufferId)
    requires IdOpen(log, id)
    ensures exists i: nat :: OpenedAt(log, id, i)
  {
    var n := |log| - 1;
    if log[n].BufferMetadata? && About(log[n], id) {
      assert OpenedAt(log, id, n);
    } else {
      OpenMeansNoCloseSince(log[..n], id);
      var i: nat :| OpenedAt(log[..n], id, i);
      assert forall j :: i <= j < n ==> log[j] == log[..n][j];
      assert OpenedAt(log, id, i);
    }
  }

  lemma {:induction false} InitOpensSession(log: seq<Command>, session: string, i: nat)
    requires i < |log| && log[i].SessionInit? && log[i].metadata.session == session
    requires forall j :: i < j < |log| ==> !(log[j].SessionEnd? && log[j].metadata.session == session)
    ensures SessionOpen(log, session)
  {
    var n := |log| - 1;
    if i < n {
      assert log[..n][i] == log[i];
      InitOpensSession(log[..n], session, i);
    }
  }

  /**
    In the sequence of all commands ever sent, every update of a buffer follows a `BufferMetadata` for it
    with no `BufferClose` for it between them.
   */
  lemma UpdatesComeWhileOpen(standalone: bool, trace: seq<Machine>, actions: seq<Action>, k: nat, i: nat)
    requires IsRun(standalone, trace, actions) && k < |trace| && i < |trace[k].hist.log|
    requires trace[k].hist.log[i].BufferUpdate?
    ensures var log := trace[k].hist.log;
            && log[i].metadata.ToBufferId().Some?
            && var id := log[i].metadata.ToBufferId().value;
               exists j: nat :: && j < i && log[j].BufferMetadata? && About(log[j], id)
                                && forall h :: j < h < i ==> !(log[h].BufferClose? && About(log[h], id))
  {
    var log := trace[k].hist.log;
    RunLog(standalone, trace, actions, k);
    assert Orderly(log[..i], log[i]);
    var id := log[i].metadata.ToBufferId().value;
    OpenMeansNoCloseSince(log[..i], id);
    var j: nat :| OpenedAt(log[..i], id, j);
    assert log[j] == log[..i][j];
    assert forall h :: j < h < i ==> log[h] == log[..i][h];
  }

  /** Two initialisations of one session are separated by its end. */
  lemma SessionEndsBetweenInits(standalone: bool, trace: seq<Machine>, actions: seq<Action>, k: nat,
                                i: nat, j: nat)
    requires IsRun(standalone, trace, actions) && k < |trace| && i < j < |trace[k].hist.log|
    requires trace[k].hist.log[i].SessionInit? && trace[k].hist.log[j].SessionInit?
    requires trace[k].hist.log[i].metadata.session == trace[k].hist.log[j].metadata.session
    ensures var log := trace[k].hist.log;
            exists h :: i < h < j && log[h].SessionEnd? && log[h].metadata.session == log[i].metadata.session
  {
    var log := trace[k].hist.log;
    var session := log[i].metadata.session;
    RunLog(standalone, trace, actions, k);
    assert Orderly(log[..j], log[j]);
    if forall h :: i < h < j ==> !(log[h].SessionEnd? && log[h].metadata.session == session) {
      assert log[..j][i] == log[i];
      InitOpensSession(log[..j], session, i);
    }
  }

  // ---------------------------------------------------------------- which buffers have a tree

  ghost function Effect(c: Command, keys: set<BufferId>): set<BufferId> {
    match c
    case SessionEnd(metadata) => set id | id in keys && id.session != metadata.session
    case BufferMetadata(metadata, _, _, _) =>
      if metadata.ToBufferId().Some? then keys + {metadata.ToBufferId().value} else keys
    case BufferClose(metadata) =>
      if metadata.ToBufferId().Some? then keys - {metadata.ToBufferId().value} else keys
    case _ => keys
  }

  /** The buffers that have a tree once the handler has executed the whole queue, if it all succeeds. */
  ghost function KeysAfter(queue: seq<Command>, keys: set<BufferId>): set<BufferId> {
    if queue == [] then keys else KeysAfter(queue[1..], Effect(queue[0], keys))
  }

  lemma {:induction false} KeysAfterPush(queue: seq<Command>, c: Command, keys: set<BufferId>)
    ensures KeysAfter(queue + [c], keys) == Effect(c, KeysAfter(queue, keys))
  {
    if queue == [] {
      assert [c][1..] == [];
    } else {
      assert (queue + [c])[1..] == queue[1..] + [c];
      KeysAfterPush(queue[1..], c, Effect(queue[0], keys));
    }
  }

  lemma {:induction false} KeysAfterMonotone(queue: seq<Command>, fewer: set<BufferId>, more: set<BufferId>)
    requires fewer <= more
    ensures KeysAfter(queue, fewer) <= KeysAfter(queue, more)
  {
    if queue != [] {
      assert Effect(queue[0], fewer) <= Effect(queue[0], more);
      KeysAfterMonotone(queue[1..], Effect(queue[0], fewer), Effect(queue[0], more));
    }
  }

  ghost predicate TreesBounded(s: Machine) {
    KeysAfter(s.worker.queue, s.worker.trees.Keys) <= s.io.tknBufferIds.Keys
  }

  lemma ServeKeepsTreesBounded(s: Machine, req: Request, creation: Creation)
    requires MapsInverse(s.io.fifos, s.io.tknBufferIds) && TreesBounded(s)
    requires Can(s, ByIo(Serve(req, creation)))
    ensures TreesBounded(Next(s, ByIo(Serve(req, creation))))
  {
    var s' := Next(s, ByIo(Serve(req, creation)));
    var q, keys := s.worker.queue, s.worker.trees.Keys;
    if Opens(s.io, req, creation) {
      RequestOpens(s, req, creation);
      KeysAfterPush(q, Command.BufferMetadata(req.metadata, req.payload.lang, s.io.created, creation.sentinel), keys);
    } else if Closes(s.io, req) {
      RequestCloses(s, req, creation);
      KeysAfterPush(q, Command.BufferClose(req.metadata), keys);
    } else {
      RequestOnlySends(s, req, creation);
      var cmds, disturbed :| OnlySent(s, s', cmds, disturbed);
      if cmds == [] {
        assert s'.worker.queue == q;
      } else {
        assert s'.worker.queue == q + [cmds[0]];
        KeysAfterPush(q, cmds[0], keys);
      }
    }
  }

  lemma RecvKeepsTreesBounded(s: Machine, langOk: bool, parses: bool)
    requires TreesBounded(s) && Can(s, ByWorker(Recv(langOk, parses)))
    ensures TreesBounded(Next(s, ByWorker(Recv(langOk, parses))))
  {
    var s' := Next(s, ByWorker(Recv(langOk, parses)));
    var q, keys := s.worker.queue, s.worker.trees.Keys;
    assert s'.worker.trees.Keys <= Effect(q[0], keys);
    KeysAfterMonotone(q[1..], s'.worker.trees.Keys, Effect(q[0], keys));
  }

  lemma StepKeepsTreesBounded(s: Machine, a: Action)
    requires MapsInverse(s.io.fifos, s.io.tknBufferIds) && Counters(s) && TreesBounded(s) && Can(s, a)
    ensures TreesBounded(Next(s, a))
  {
    var s' := Next(s, a);
    if a.ByIo? && a.io.Serve? {
      ServeKeepsTreesBounded(s, a.io.req, a.io.creation);
    } else if a == ByIo(SendUpdate) {
      var e := s.io.fifos[s.pc.t];
      KeysAfterPush(s.worker.queue, BufferUpdate(e.metadata, e.serial), s.worker.trees.Keys);
    } else if a.ByWorker? && a.step.Recv? {
      RecvKeepsTreesBounded(s, a.step.langOk, a.step.parses);
    } else if a.ByWorker? {
      assert s'.worker.trees.Keys == s.worker.trees.Keys;
    }
  }

  lemma {:induction false} RunTreesBounded(standalone: bool, trace: seq<Machine>, actions: seq<Action>, k: nat)
    requires IsRun(standalone, trace, actions) && k < |trace|
    ensures TreesBounded(trace[k])
  {
    if k > 0 {
      RunTreesBounded(standalone, trace, actions, k - 1);
      RunInv(standalone, trace, actions, k - 1);
      StepKeepsTreesBounded(trace[k - 1], actions[k - 1]);
    }
  }

  /**
    No tree is leaked: whenever the queue is empty, only open buffers have a tree. When the server is at
    rest and nothing was disturbed, the buffers with a tree are exactly the open ones.
   */
  lemma TreesAreTheOpenBuffers(standalone: bool, trace: seq<Machine>, actions: seq<Action>, k: nat)
    requires IsRun(standalone, trace, actions) && k < |trace|
    ensures trace[k].worker.queue == [] ==> trace[k].worker.trees.Keys <= trace[k].io.tknBufferIds.Keys
    ensures Quiet(trace[k]) && trace[k].hist.disturbed == {} ==>
              trace[k].worker.trees.Keys == trace[k].io.tknBufferIds.Keys
  {
    var s := trace[k];
    RunTreesBounded(standalone, trace, actions, k);
    RunInv(standalone, trace, actions, k);
    if Quiet(s) && s.hist.disturbed == {} {
      forall id | id in s.io.tknBufferIds
        ensures id in s.worker.trees
      {
        OpenBufferHasTree(s, id);
      }
    }
  }

  lemma OpenBufferHasTree(s: Machine, id: BufferId)
    requires Inv(s) && Quiet(s) && s.hist.disturbed == {} && id in s.io.tknBufferIds
    ensures id in s.worker.trees
  {
    assert RegisteredAs(s.io.fifos, s.io.tknBufferIds[id], id);
    var m := SerialOf(s, s.io.tknBufferIds[id]);
    assert Open(s.io, id, m) && s.hist.owner[m] == id;
    assert MailboxInv(s, m);
    assert forall i: nat :: !PlannedAt(s, m, i);
  }
}
