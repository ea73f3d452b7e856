/** How a buffer that was separated from its tree gets back to being up to date. */
module Recovery {
  import opened Protocol
  import opened IoServer
  import opened Machines
  import opened LostUpdates
  import opened CommandLog

  /** Of the texts written to the mailbox, those after the first `n` have been seen by the tree or are going to be. */
  ghost predicate Recovering(s: Machine, m: Serial, n: nat)
    requires Domains(s) && m < s.io.created
  {
    |s.hist.written[m]| > n ==>
      && (Fed(s, m) || Pending(s, m))
      && (s.boxes[m].wasRead && !s.boxes[m].lock.HeldByWriter? ==> Fed(s, m))
  }

  /** The buffer is open and has a tree, and nothing that is queued takes the tree away. */
  ghost predicate Settled(s: Machine, id: BufferId, m: Serial) {
    && Open(s.io, id, m) && m < s.io.created && m in s.hist.owner && s.hist.owner[m] == id
    && id in s.worker.trees && !KillIn(s.worker.queue, id)
  }

  /** From step `j` to step `k` the buffer stays open, and it has a tree. */
  ghost predicate Stays(trace: seq<Machine>, j: nat, k: nat, id: BufferId, m: Serial)
    requires k < |trace|
  {
    forall h {:trigger HasTree(trace[h], id, m)} :: j <= h <= k ==> HasTree(trace[h], id, m)
  }

  ghost predicate HasTree(s: Machine, id: BufferId, m: Serial) {
    id in s.worker.trees && Open(s.io, id, m)
  }

  // ---------------------------------------------------------------- nothing takes the tree away

  lemma StepKeepsKill(s: Machine, a: Action, id: BufferId)
    requires Counters(s) && Exits(s) && Can(s, a) && KillIn(s.worker.queue, id)
    requires id in Next(s, a).worker.trees
    ensures KillIn(Next(s, a).worker.queue, id)
  {
    var q, q' := s.worker.queue, Next(s, a).worker.queue;
    var got, sent := ReceivedBy(s, a), SentBy(s, a);
    StepMovesCommands(s, a);
    var i :| 0 <= i < |q| && Kills(q[i], id);
    assert (got + q')[i] == (q + sent)[i] == q[i];
    if i < |got| {
      KillTakesTree(s, a.step, id);
    } else {
      assert q'[i - |got|] == q[i];
    }
  }

  lemma KillTakesTree(s: Machine, step: HandlerStep, id: BufferId)
    requires Can(s, ByWorker(step)) && step.Recv? && Kills(s.worker.queue[0], id)
    ensures id !in Next(s, ByWorker(step)).worker.trees
  {
  }

  /** A tree that is there until the server comes to rest was never about to be taken away. */
  lemma {:induction false} TreeThatStaysIsSafe(standalone: bool, trace: seq<Machine>, actions: seq<Action>,
                                               j: nat, i: nat, k: nat, id: BufferId, m: Serial)
    requires IsRun(standalone, trace, actions) && j <= i <= k < |trace| && Quiet(trace[k])
    requires Stays(trace, j, k, id, m)
    ensures !KillIn(trace[i].worker.queue, id)
    decreases k - i
  {
    if i < k && KillIn(trace[i].worker.queue, id) {
      TreeThatStaysIsSafe(standalone, trace, actions, j, i + 1, k, id, m);
      RunInv(standalone, trace, actions, i);
      assert HasTree(trace[i + 1], id, m);
      StepKeepsKill(trace[i], actions[i], id);
    }
  }

  // ---------------------------------------------------------------- one step

  lemma SameViewKeepsRecovering(s: Machine, s': Machine, m: Serial, n: nat)
    requires Domains(s) && Domains(s') && m < s.io.created && SameView(s, s', m) && Recovering(s, m, n)
    ensures m < s'.io.created && Recovering(s', m, n)
  {
    assert Fed(s', m) <==> Fed(s, m);
    assert Pending(s, m) ==> Pending(s', m);
  }

  /** A step of the IO thread that adds to the queue and does nothing to the mailbox. */
  ghost predicate OnlyQueues(s: Machine, s': Machine, m: Serial) {
    && s.worker.queue <= s'.worker.queue && s'.worker.pc == s.worker.pc
    && s'.hist.fed == s.hist.fed
    && m in s.hist.owner && m in s'.hist.owner && s'.hist.owner[m] == s.hist.owner[m]
    && m in s.hist.written && m in s'.hist.written && s'.hist.written[m] == s.hist.written[m]
    && m in s.boxes && m in s'.boxes && s'.boxes[m] == s.boxes[m]
    && !IoOn(s, m)
  }

  lemma QueueingKeepsRecovering(s: Machine, s': Machine, m: Serial, n: nat)
    requires Domains(s) && Domains(s') && m < s.io.created
    requires OnlyQueues(s, s', m) && Recovering(s, m, n)
    ensures m < s'.io.created && Recovering(s', m, n)
  {
    var q := s.worker.queue;
    assert forall i :: 0 <= i < |q| ==> s'.worker.queue[i] == q[i];
    assert Pending(s, m) ==> Pending(s', m);
    assert Fed(s', m) <==> Fed(s, m);
  }

  lemma ServeOnlyQueues(s: Machine, req: Request, creation: Creation, m: Serial)
    requires Can(s, ByIo(Serve(req, creation))) && m < s.io.created
    requires m in s.hist.owner && m in s.hist.written && m in s.boxes
    ensures OnlyQueues(s, DoRequest(s, req, creation), m)
  {
    var s' := DoRequest(s, req, creation);
    assert s'.worker.queue == s.worker.queue + ProcessReq(s.io, req, creation).sent;
  }

  lemma WriteKeepsRecovering(s: Machine, step: IoStep, m: Serial, n: nat)
    requires Inv(s) && (step.WriteText? || step.StoreFlag? || step.SendUpdate?)
    requires Can(s, ByIo(step)) && Domains(Next(s, ByIo(step)))
    requires m < s.io.created && Recovering(s, m, n)
    ensures Recovering(Next(s, ByIo(step)), m, n)
  {
    var s' := Next(s, ByIo(step));
    assert Fed(s', m) <==> Fed(s, m);
    if step.SendUpdate? {
      var q := s.worker.queue;
      assert forall i :: 0 <= i < |q| ==> s'.worker.queue[i] == q[i];
      if IoOn(s, m) {
        assert UpdateFor(s'.worker.queue[|q|], m);
      }
    } else {
      assert IoOn(s', m) <==> IoOn(s, m);
    }
  }

  lemma RecvKeepsRecovering(s: Machine, step: HandlerStep, id: BufferId, m: Serial, n: nat)
    requires Inv(s) && step.Recv? && Can(s, ByWorker(step)) && Domains(Next(s, ByWorker(step)))
    requires Settled(s, id, m) && Recovering(s, m, n)
    ensures Recovering(Next(s, ByWorker(step)), m, n)
  {
    var s' := Next(s, ByWorker(step));
    assert !Kills(s.worker.queue[0], id);
    assert Fed(s, m) ==> Fed(s', m);
    if Pending(s, m) {
      RecvKeepsPending(s, step.langOk, step.parses, m);
    }
  }

  lemma CheckKeepsRecovering(s: Machine, m: Serial, n: nat)
    requires Inv(s) && Can(s, ByWorker(Check)) && Domains(Next(s, ByWorker(Check)))
    requires m < s.io.created && Recovering(s, m, n)
    ensures Recovering(Next(s, ByWorker(Check)), m, n)
  {
    assert MailboxInv(s, m);
    assert Fed(Next(s, ByWorker(Check)), m) <==> Fed(s, m);
  }

  /** Another mailbox is never swapped into a tree that is going to stay. */
  lemma SwapKeepsRecovering(s: Machine, id: BufferId, m: Serial, n: nat)
    requires Inv(s) && Can(s, ByWorker(Swap)) && Domains(Next(s, ByWorker(Swap)))
    requires Settled(s, id, m) && Recovering(s, m, n)
    ensures Recovering(Next(s, ByWorker(Swap)), m, n)
  {
    var s' := Next(s, ByWorker(Swap));
    assert MailboxInv(s, s.worker.pc.m);
    assert s.worker.pc.m != m ==> s.worker.pc.id != id;
    assert s.worker.pc.m != m ==> (Fed(s', m) <==> Fed(s, m));
  }

  lemma MarkKeepsRecovering(s: Machine, m: Serial, n: nat)
    requires Inv(s) && Can(s, ByWorker(Mark)) && Domains(Next(s, ByWorker(Mark)))
    requires m < s.io.created && Recovering(s, m, n)
    ensures Recovering(Next(s, ByWorker(Mark)), m, n)
  {
    assert MailboxInv(s, m);
    assert Fed(Next(s, ByWorker(Mark)), m) <==> Fed(s, m);
  }

  ghost predicate OnTheWay(s: Machine, id: BufferId, m: Serial, n: nat) {
    Inv(s) && Settled(s, id, m) && Recovering(s, m, n)
  }

  lemma StepKeepsRecovering(s: Machine, a: Action, s': Machine, id: BufferId, m: Serial, n: nat)
    requires OnTheWay(s, id, m, n) && Can(s, a) && s' == Next(s, a)
    requires HasTree(s', id, m) && !KillIn(s'.worker.queue, id)
    ensures OnTheWay(s', id, m, n)
  {
    StepKeepsInv(s, a);
    OpenIsOwned(s', id, m);
    match a {
      case ByIncoming(step) => IncomingIsIdle(s, step);
      case ByClient(t, payload) =>
        ClientSameView(s, t, payload, m);
        SameViewKeepsRecovering(s, s', m, n);
      case ByWorker(step) => WorkerKeepsRecovering(s, step, id, m, n);
      case ByIo(step) => IoKeepsRecovering(s, step, m, n);
    }
  }

  lemma WorkerKeepsRecovering(s: Machine, step: HandlerStep, id: BufferId, m: Serial, n: nat)
    requires Inv(s) && Can(s, ByWorker(step)) && Domains(Next(s, ByWorker(step)))
    requires Settled(s, id, m) && Recovering(s, m, n)
    ensures m < Next(s, ByWorker(step)).io.created && Recovering(Next(s, ByWorker(step)), m, n)
  {
    match step {
      case Recv(_, _) => RecvKeepsRecovering(s, step, id, m, n);
      case Check => CheckKeepsRecovering(s, m, n);
      case Swap => SwapKeepsRecovering(s, id, m, n);
      case Mark => MarkKeepsRecovering(s, m, n);
      case Hangup =>
        WorkerStepSameView(s, step, m);
        SameViewKeepsRecovering(s, Next(s, ByWorker(step)), m, n);
      case Parse(_) =>
        WorkerStepSameView(s, step, m);
        SameViewKeepsRecovering(s, Next(s, ByWorker(step)), m, n);
    }
  }

  lemma IoKeepsRecovering(s: Machine, step: IoStep, m: Serial, n: nat)
    requires Inv(s) && Can(s, ByIo(step)) && Domains(Next(s, ByIo(step))) && step != Join
    requires m < s.io.created && Recovering(s, m, n)
    ensures m < Next(s, ByIo(step)).io.created && Recovering(Next(s, ByIo(step)), m, n)
  {
    var s' := Next(s, ByIo(step));
    match step {
      case Serve(req, creation) =>
        ServeOnlyQueues(s, req, creation, m);
        QueueingKeepsRecovering(s, s', m, n);
      case WriteText => WriteKeepsRecovering(s, step, m, n);
      case StoreFlag => WriteKeepsRecovering(s, step, m, n);
      case SendUpdate => WriteKeepsRecovering(s, step, m, n);
      case ReloadConfig(_) => QueueingKeepsRecovering(s, s', m, n);
      case _ =>
        LocalStepSameView(s, step, m);
        SameViewKeepsRecovering(s, s', m, n);
    }
  }

  // ---------------------------------------------------------------- the theorem

  lemma {:induction false} RunRecovers(standalone: bool, trace: seq<Machine>, actions: seq<Action>,
                                       j: nat, i: nat, k: nat, id: BufferId, m: Serial, n: nat)
    requires IsRun(standalone, trace, actions) && j <= i <= k < |trace| && Quiet(trace[k])
    requires Stays(trace, j, k, id, m)
    requires m in trace[j].hist.written && n == |trace[j].hist.written[m]|
    ensures OnTheWay(trace[i], id, m, n)
  {
    assert HasTree(trace[i], id, m);
    TreeThatStaysIsSafe(standalone, trace, actions, j, i, k, id, m);
    if i == j {
      RunInv(standalone, trace, actions, j);
      OpenIsOwned(trace[i], id, m);
    } else {
      RunRecovers(standalone, trace, actions, j, i - 1, k, id, m, n);
      StepKeepsRecovering(trace[i - 1], actions[i - 1], trace[i], id, m, n);
    }
  }

  lemma OpenIsOwned(s: Machine, id: BufferId, m: Serial)
    requires Inv(s) && Open(s.io, id, m)
    ensures m < s.io.created && s.hist.owner[m] == id
  {
    assert RegisteredAs(s.io.fifos, s.io.tknBufferIds[id], id);
  }

  /**
    Whatever happened before, session ends, reloads and failures included: once a buffer has a tree again,
    the next text written to its mailbox makes the tree hold the last one whenever the server is at rest,
    as long as the buffer stays open and keeps that tree.
   */
  lemma RecoveredTreeIsUpToDate(standalone: bool, trace: seq<Machine>, actions: seq<Action>, j: nat, k: nat,
                                id: BufferId, m: Serial)
    requires IsRun(standalone, trace, actions) && j <= k < |trace| && Quiet(trace[k])
    requires Stays(trace, j, k, id, m)
    ensures m in trace[j].hist.written && m in trace[k].hist.written
    ensures |trace[j].hist.written[m]| < |trace[k].hist.written[m]| ==>
              TreeHolds(trace[k], id, Latest(trace[k].hist.written[m]))
  {
    RunInv(standalone, trace, actions, j);
    assert HasTree(trace[j], id, m);
    OpenIsOwned(trace[j], id, m);
    RunRecovers(standalone, trace, actions, j, k, k, id, m, |trace[j].hist.written[m]|);
    QuietMailbox(trace[k], m);
    FedTreeIsUpToDate(trace[k], id, m);
  }
}
