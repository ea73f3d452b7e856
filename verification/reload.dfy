/** What dropping the old sender on a reload comes to: the old handler finishes, then the new one starts. */
module Reloads {
  import opened IoServer
  import opened Machines
  import opened LostUpdates
  import opened CommandLog

  /**
    During a reload only the old handler does anything, so a mailbox never has two active readers; and it
    is only left alone once it has received every command that was ever sent.
   */
  lemma OneReader(standalone: bool, trace: seq<Machine>, actions: seq<Action>, k: nat)
    requires IsRun(standalone, trace, actions) && k < |trace|
    ensures trace[k].incoming.Some? ==> trace[k].incoming.value == NEW_WORKER
    ensures forall step :: !Can(trace[k], ByIncoming(step))
    ensures k < |actions| && actions[k] == ByIo(Join) ==>
              trace[k].worker.queue == [] && trace[k + 1].worker == NEW_WORKER
  {
    RunInv(standalone, trace, actions, k);
  }

  /** However a handler comes to exit, no command is left in its channel. */
  lemma ExitLeavesNothing(standalone: bool, trace: seq<Machine>, actions: seq<Action>, k: nat)
    requires IsRun(standalone, trace, actions) && k < |trace| && trace[k].worker.pc.Exited?
    ensures trace[k].worker.queue == []
    ensures trace[k].worker.closed || trace[k].pc.Stopped?
  {
    RunInv(standalone, trace, actions, k);
  }

  /** On a reload the old handler receives all that was ever sent before the new one receives anything. */
  lemma OldHandlerReceivesAll(standalone: bool, trace: seq<Machine>, actions: seq<Action>, k: nat)
    requires IsRun(standalone, trace, actions) && k < |actions| && actions[k] == ByIo(Join)
    ensures Received(trace, actions, k) == trace[k].hist.log
  {
    ExitLeavesNothing(standalone, trace, actions, k);
    SentIsReceivedThenQueued(standalone, trace, actions, k);
    assert Received(trace, actions, k) + [] == Received(trace, actions, k);
  }

  /** The server has been told to stop by one of the first `k` steps. */
  ghost predicate ToldToStop(trace: seq<Machine>, actions: seq<Action>, k: nat)
    requires k <= |trace| && k <= |actions|
  {
    exists i {:trigger actions[i]} :: 0 <= i < k && actions[i].ByIo? && actions[i].io.Serve?
      && EndsServer(trace[i].io, actions[i].io.req)
  }

  /** The server stops exactly when it is told to: by a shutdown, or by the end of its last session. */
  lemma {:induction false} StopsIffTold(standalone: bool, trace: seq<Machine>, actions: seq<Action>, k: nat)
    requires IsRun(standalone, trace, actions) && k < |trace|
    ensures trace[k].io.standalone == standalone
    ensures trace[k].pc.Stopped? <==> ToldToStop(trace, actions, k)
  {
    if k > 0 {
      StopsIffTold(standalone, trace, actions, k - 1);
      RunInv(standalone, trace, actions, k - 1);
      var s, a := trace[k - 1], actions[k - 1];
      StepStopsIff(s, a);
      assert trace[k] == Next(s, a);
      if ToldToStop(trace, actions, k - 1) {
        var i :| 0 <= i < k - 1 && actions[i].ByIo? && actions[i].io.Serve?
          && EndsServer(trace[i].io, actions[i].io.req);
        assert ToldToStop(trace, actions, k);
      }
    }
  }

  lemma StepStopsIff(s: Machine, a: Action)
    requires Counters(s) && Can(s, a)
    ensures Next(s, a).io.standalone == s.io.standalone
    ensures Next(s, a).pc.Stopped?
            <==> s.pc.Stopped? || (a.ByIo? && a.io.Serve? && EndsServer(s.io, a.io.req))
  {
    if a.ByIo? && a.io.Serve? {
      ExitsIffServerEnds(s.io, a.io.req, a.io.creation);
    } else if a.ByIncoming? {
      IncomingIsIdle(s, a.step);
    }
  }

  /**
    A reload does not hang: until the old handler has exited it has a step; nothing but its own steps
    changes how much it has left to do; and once it has exited, the new handler can take over.
   */
  lemma ReloadFinishes(s: Machine, a: Action)
    requires Inv(s) && s.pc.Joining?
    ensures if s.worker.pc.Exited? then Can(s, ByIo(Join)) else exists step :: Can(s, ByWorker(step))
    ensures Can(s, a) && a != ByIo(Join) ==> Next(s, a).pc.Joining?
    ensures Can(s, a) && a != ByIo(Join) ==>
              if a.ByWorker? then Work(Next(s, a).worker) < Work(s.worker) else Next(s, a).worker == s.worker
  {
    HandlerCatchesUp(s);
    if a.ByIncoming? {
      IncomingIsIdle(s, a.step);
    }
  }
}
