/** The server comes to rest: what it has in hand is finished, whatever the order of its steps. */
module Progress {
  import opened Protocol
  import opened Allocation
  import opened IoServer
  import opened Machines
  import opened LostUpdates

  /** A step that needs nothing from outside: no client, no request, no data, no reload. */
  predicate Internal(a: Action) {
    match a
    case ByIo(step) =>
      step.WriteText? || step.StoreFlag? || step.ClearFifo? || step.SendUpdate? || step.CloseChannel? || step.Join?
    case ByWorker(_) => true
    case ByIncoming(_) => false
    case ByClient(_, _) => false
  }

  ghost predicate AtRest(s: Machine) {
    forall a :: Internal(a) ==> !Can(s, a)
  }

  // ---------------------------------------------------------------- nobody waits for ever

  /** Between the two stores of a write, the writer has the lock. */
  ghost predicate WriterLocks(s: Machine)
    requires Domains(s) && Counters(s)
  {
    s.pc.Flagging? ==> s.boxes[SerialOf(s, s.pc.t)].lock.HeldByWriter?
  }

  lemma IoKeepsWriterLocks(s: Machine, step: IoStep)
    requires Domains(s) && Counters(s) && WriterLocks(s) && IoCan(s, step)
    requires Domains(IoNext(s, step)) && Counters(IoNext(s, step))
    ensures WriterLocks(IoNext(s, step))
  {
  }

  lemma WorkerKeepsWriterLocks(s: Machine, step: HandlerStep)
    requires Domains(s) && Counters(s) && WriterLocks(s) && Can(s, ByWorker(step))
    requires Domains(Next(s, ByWorker(step))) && Counters(Next(s, ByWorker(step)))
    ensures WriterLocks(Next(s, ByWorker(step)))
  {
  }

  lemma StepKeepsWriterLocks(s: Machine, a: Action)
    requires Inv(s) && WriterLocks(s) && Can(s, a) && Inv(Next(s, a))
    ensures WriterLocks(Next(s, a))
  {
    match a
    case ByIo(step) => IoKeepsWriterLocks(s, step);
    case ByWorker(step) => WorkerKeepsWriterLocks(s, step);
    case ByIncoming(step) => IncomingIsIdle(s, step);
    case ByClient(_, _) =>
  }

  lemma {:induction false} RunWriterLocks(standalone: bool, trace: seq<Machine>, actions: seq<Action>, k: nat)
    requires IsRun(standalone, trace, actions) && k < |trace|
    ensures Inv(trace[k]) && WriterLocks(trace[k])
  {
    if k == 0 {
      InitInv(standalone);
    } else {
      RunWriterLocks(standalone, trace, actions, k - 1);
      assert trace[k] == Next(trace[k - 1], actions[k - 1]);
      RunInv(standalone, trace, actions, k);
      StepKeepsWriterLocks(trace[k - 1], actions[k - 1]);
    }
  }

  /** While it reads or reloads, the IO thread has a step, or the handler has one that it waits for. */
  lemma IoNeverStuck(s: Machine)
    requires Inv(s) && WriterLocks(s) && !s.pc.Idle? && !s.pc.Stopped?
    ensures exists a :: Internal(a) && Can(s, a)
  {
    match s.pc
    case Writing(t, _) =>
      WritingGoesOn(s);
    case Flagging(t) => assert Can(s, ByIo(StoreFlag));
    case Clearing(t) => assert Can(s, ByIo(ClearFifo));
    case Sending(t) => assert Can(s, ByIo(SendUpdate));
    case Closing => assert Can(s, ByIo(CloseChannel));
    case Joining =>
      JoiningGoesOn(s);
  }

  lemma WritingGoesOn(s: Machine)
    requires Inv(s) && s.pc.Writing?
    ensures Can(s, ByIo(WriteText)) || Can(s, ByWorker(Mark))
  {
    assert MailboxInv(s, SerialOf(s, s.pc.t));
  }

  lemma JoiningGoesOn(s: Machine)
    requires Inv(s) && s.pc.Joining?
    ensures exists a :: Internal(a) && Can(s, a)
  {
    HandlerCatchesUp(s);
    if s.worker.pc.Exited? {
      assert Can(s, ByIo(Join));
    } else {
      var step :| Can(s, ByWorker(step));
      assert Internal(ByWorker(step));
    }
  }

  /** An idle IO thread takes whatever comes next. */
  lemma IdleTakesAnything(s: Machine, registered: bool, req: Request, creation: Creation, configLoads: bool,
                          t: Token, n: nat)
    requires Inv(s) && s.pc.Idle?
    ensures IoCan(s, IoStep.Connect(registered)) && IoCan(s, ReloadConfig(configLoads))
    ensures !req.payload.Reload? ==> IoCan(s, Serve(req, creation))
    ensures t in s.io.fifos ==>
              SerialOf(s, t) in s.hist.wires
              && (n <= |s.hist.wires[SerialOf(s, t)].rest| ==> IoCan(s, ReadFifo(t, n)))
  {
  }

  /** When nothing internal can happen any more, all is done; and the handler of a stopped server has exited. */
  lemma AtRestIsQuiet(s: Machine)
    requires Inv(s) && WriterLocks(s) && AtRest(s)
    ensures Quiet(s) && (s.pc.Stopped? ==> s.worker.pc.Exited?)
  {
    if s.pc.Stopped? && !s.worker.closed {
      assert Can(s, ByIo(CloseChannel));
    }
    if !s.pc.Idle? && !s.pc.Stopped? {
      IoNeverStuck(s);
    }
    HandlerCatchesUp(s);
    forall step
      ensures !Can(s, ByWorker(step))
    {
      assert Internal(ByWorker(step));
    }
  }

  // ---------------------------------------------------------------- nobody goes on for ever

  function IoWork(pc: IoPc): nat {
    match pc
    case Idle => 0
    case Stopped => 0
    case Sending(_) => 6
    case Clearing(_) => 7
    case Flagging(_) => 8
    case Writing(_, _) => 9
    case Joining => 3
    case Closing => 4
  }

  /** How many internal steps there still are, at most. */
  function TotalWork(s: Machine): nat {
    Work(s.worker) + IoWork(s.pc) + if s.worker.closed then 0 else 1
  }

  lemma InternalLowersWork(s: Machine, a: Action)
    requires Inv(s) && Can(s, a) && Internal(a)
    ensures TotalWork(Next(s, a)) < TotalWork(s)
  {
    if a.ByWorker? {
      StepLowersWork(s.worker, s.boxes, a.step);
    }
  }

  /** However the threads take turns, they are done after at most that many steps. */
  lemma {:induction false} InternalRunsAreShort(standalone: bool, trace: seq<Machine>, actions: seq<Action>, k: nat)
    requires IsRun(standalone, trace, actions) && k <= |actions|
    requires forall i {:trigger actions[i]} :: k <= i < |actions| ==> Internal(actions[i])
    ensures |actions| - k + TotalWork(trace[|actions|]) <= TotalWork(trace[k])
    decreases |actions| - k
  {
    if k < |actions| {
      RunInv(standalone, trace, actions, k);
      assert trace[k + 1] == Next(trace[k], actions[k]);
      InternalLowersWork(trace[k], actions[k]);
      InternalRunsAreShort(standalone, trace, actions, k + 1);
    }
  }

  /** Every run can be continued to rest without anything from outside. */
  lemma {:induction false} RestIsReached(standalone: bool, trace: seq<Machine>, actions: seq<Action>)
    returns (trace': seq<Machine>, actions': seq<Action>)
    requires IsRun(standalone, trace, actions)
    ensures IsRun(standalone, trace', actions') && trace <= trace' && actions <= actions'
    ensures forall i {:trigger actions'[i]} :: |actions| <= i < |actions'| ==> Internal(actions'[i])
    ensures AtRest(trace'[|actions'|])
    decreases TotalWork(trace[|actions|])
  {
    var s := trace[|actions|];
    if AtRest(s) {
      trace', actions' := trace, actions;
    } else {
      var a :| Internal(a) && Can(s, a);
      RunInv(standalone, trace, actions, |actions|);
      InternalLowersWork(s, a);
      trace', actions' := RestIsReached(standalone, trace + [Next(s, a)], actions + [a]);
    }
  }

  lemma InternalKeepsOpen(s: Machine, a: Action, id: BufferId, m: Serial)
    requires Counters(s) && Can(s, a) && Internal(a)
    ensures Open(Next(s, a).io, id, m) <==> Open(s.io, id, m)
  {
  }

  lemma {:induction false} InternalRunKeepsOpen(standalone: bool, trace: seq<Machine>, actions: seq<Action>, k: nat,
                                                id: BufferId, m: Serial)
    requires IsRun(standalone, trace, actions) && k <= |actions|
    requires forall i {:trigger actions[i]} :: k <= i < |actions| ==> Internal(actions[i])
    ensures Open(trace[|actions|].io, id, m) <==> Open(trace[k].io, id, m)
    decreases |actions| - k
  {
    if k < |actions| {
      RunInv(standalone, trace, actions, k);
      assert trace[k + 1] == Next(trace[k], actions[k]);
      InternalKeepsOpen(trace[k], actions[k], id, m);
      InternalRunKeepsOpen(standalone, trace, actions, k + 1, id, m);
    }
  }

  /**
    From any point of any run on: once the threads have finished what they had in hand, in any order, the tree
    of each buffer that was open and is undisturbed holds the last text handed out.
   */
  lemma TextsReachTheTree(standalone: bool, trace: seq<Machine>, actions: seq<Action>, k: nat,
                          id: BufferId, m: Serial)
    requires IsRun(standalone, trace, actions) && k <= |actions|
    requires forall i {:trigger actions[i]} :: k <= i < |actions| ==> Internal(actions[i])
    requires AtRest(trace[|actions|])
    requires Open(trace[k].io, id, m) && m !in trace[|actions|].hist.disturbed
    ensures var s := trace[|actions|];
            && Quiet(s) && m in s.hist.written
            && (s.hist.written[m] != [] ==> TreeHolds(s, id, Latest(s.hist.written[m])))
  {
    RunWriterLocks(standalone, trace, actions, |actions|);
    AtRestIsQuiet(trace[|actions|]);
    InternalRunKeepsOpen(standalone, trace, actions, k, id, m);
    NoLostUpdate(standalone, trace, actions, |actions|, id, m);
  }
}
