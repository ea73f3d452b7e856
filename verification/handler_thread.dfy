/** The handler object is the handler thread with nobody in its way. */
module HandlerThread {
  import opened Options
  import opened Protocol
  import opened Mailboxes
  import opened TreeStore
  import opened Machines

  /** These steps lead from one state of the handler and the mailboxes to the other. */
  ghost predicate Runs(w: Worker, boxes: map<Serial, Mailbox>, steps: seq<HandlerStep>,
                       w': Worker, boxes': map<Serial, Mailbox>)
    decreases |steps|
  {
    if steps == [] then w' == w && boxes' == boxes
    else
      && WorkerCan(w, boxes, steps[0])
      && var (w1, b1) := WorkerStep(w, boxes, steps[0]);
         Runs(w1, b1, steps[1..], w', boxes')
  }

  lemma {:induction false} RunsOn(w: Worker, boxes: map<Serial, Mailbox>, steps: seq<HandlerStep>,
                                  w1: Worker, b1: map<Serial, Mailbox>, more: seq<HandlerStep>,
                                  w2: Worker, b2: map<Serial, Mailbox>)
    requires Runs(w, boxes, steps, w1, b1) && Runs(w1, b1, more, w2, b2)
    ensures Runs(w, boxes, steps + more, w2, b2)
    decreases |steps|
  {
    if steps == [] {
      assert steps + more == more;
    } else {
      var (w', boxes') := WorkerStep(w, boxes, steps[0]);
      RunsOn(w', boxes', steps[1..], w1, b1, more, w2, b2);
      assert (steps + more)[1..] == steps[1..] + more;
    }
  }

  lemma OneStep(w: Worker, boxes: map<Serial, Mailbox>, step: HandlerStep)
    requires WorkerCan(w, boxes, step)
    ensures Runs(w, boxes, [step], WorkerStep(w, boxes, step).0, WorkerStep(w, boxes, step).1)
  {
    assert [step][1..] == [];
  }

  /** One command, from receiving it to waiting for the next one. */
  lemma CommandIsSteps(w: Worker, boxes: map<Serial, Mailbox>, inc: Incoming, highlighting: bool)
    returns (steps: seq<HandlerStep>)
    requires w.pc.Receiving? && w.queue != [] && inc.cmd == w.queue[0] && Readable(boxes, [inc])
    ensures var (trees, boxes', _) := HandleCommand(w.trees, boxes, inc, highlighting);
            Runs(w, boxes, steps,
                 Worker(w.queue[1..], w.closed, trees, if inc.cmd.Shutdown? then Exited else Receiving), boxes')
  {
    var recv := Recv(inc.langOk, inc.parses);
    OneStep(w, boxes, recv);
    if inc.cmd.BufferUpdate? && inc.cmd.metadata.ToBufferId().Some?
       && inc.cmd.metadata.ToBufferId().value in w.trees {
      steps := UpdateIsSteps(w, boxes, inc, highlighting);
    } else {
      UninterruptedCommand(w, boxes, inc, highlighting);
      steps := [recv];
    }
  }

  lemma UpdateIsSteps(w: Worker, boxes: map<Serial, Mailbox>, inc: Incoming, highlighting: bool)
    returns (steps: seq<HandlerStep>)
    requires w.pc.Receiving? && w.queue != [] && inc.cmd == w.queue[0] && Readable(boxes, [inc])
    requires inc.cmd.BufferUpdate? && inc.cmd.metadata.ToBufferId().Some?
    requires inc.cmd.metadata.ToBufferId().value in w.trees
    ensures var (trees, boxes', _) := HandleCommand(w.trees, boxes, inc, highlighting);
            Runs(w, boxes, steps, Worker(w.queue[1..], w.closed, trees, Receiving), boxes')
  {
    UninterruptedUpdate(w, boxes, inc, highlighting);
    var recv := Recv(inc.langOk, inc.parses);
    var w1 := WorkerStep(w, boxes, recv).0;
    var w2 := WorkerStep(w1, boxes, Check).0;
    OneStep(w, boxes, recv);
    OneStep(w1, boxes, Check);
    RunsOn(w, boxes, [recv], w1, boxes, [Check], w2, boxes);
    steps := [recv] + [Check];
    if !w2.pc.Receiving? {
      var (w3, b3) := WorkerStep(w2, boxes, Swap);
      var (w4, b4) := WorkerStep(w3, b3, Mark);
      var (w5, b5) := WorkerStep(w4, b4, Parse(inc.parses));
      OneStep(w2, boxes, Swap);
      OneStep(w3, b3, Mark);
      OneStep(w4, b4, Parse(inc.parses));
      RunsOn(w2, boxes, [Swap], w3, b3, [Mark], w4, b4);
      RunsOn(w2, boxes, [Swap] + [Mark], w4, b4, [Parse(inc.parses)], w5, b5);
      RunsOn(w, boxes, steps, w2, boxes, [Swap] + [Mark] + [Parse(inc.parses)], w5, b5);
      steps := steps + ([Swap] + [Mark] + [Parse(inc.parses)]);
    }
  }

  /**
    The whole receive loop: the handler thread, with these commands queued and the foreign code reacting in
    the same way, comes to the trees and mailboxes that the loop of the object leaves, and then has exited
    or has nothing left to receive.
   */
  lemma {:induction false} LoopIsSteps(w: Worker, boxes: map<Serial, Mailbox>, incs: seq<Incoming>, highlighting: bool)
    returns (steps: seq<HandlerStep>, end: Worker)
    requires w.pc.Receiving? && |w.queue| == |incs| && Readable(boxes, incs)
    requires forall i :: 0 <= i < |incs| ==> incs[i].cmd == w.queue[i]
    ensures var (trees, boxes', _) := HandleAll(w.trees, boxes, incs, highlighting);
            Runs(w, boxes, steps, end, boxes') && end.trees == trees
    ensures end.pc.Exited? || (end.pc.Receiving? && end.queue == [])
    ensures end.pc.Exited? <==> exists i :: 0 <= i < |incs| && incs[i].cmd.Shutdown?
    decreases |incs|
  {
    if incs == [] {
      steps, end := [], w;
    } else {
      assert incs[0] == [incs[0]][0];
      steps := CommandIsSteps(w, boxes, incs[0], highlighting);
      var (trees, boxes', _) := HandleCommand(w.trees, boxes, incs[0], highlighting);
      if incs[0].cmd.Shutdown? {
        end := Worker(w.queue[1..], w.closed, trees, Exited);
      } else {
        var next := Worker(w.queue[1..], w.closed, trees, Receiving);
        var more;
        more, end := LoopIsSteps(next, boxes', incs[1..], highlighting);
        RunsOn(w, boxes, steps, next, boxes', more, end, HandleAll(trees, boxes', incs[1..], highlighting).1);
        steps := steps + more;
        assert forall i :: 0 < i < |incs| ==> incs[1..][i - 1] == incs[i];
      }
    }
  }
}
