/** What the syntax of a tree was computed from. */
module Parses {
  import opened Protocol
  import opened Mailboxes
  import opened TreeStore
  import opened Machines
  import opened LostUpdates

  /** Between swapping a new text in and the end of the parse. */
  ghost predicate Reparsing(w: Worker, id: BufferId) {
    (w.pc.Marking? || w.pc.Parsing?) && w.pc.id == id
  }

  ghost predicate Current(t: TreeState) {
    t.syntax == Syntax(t.buf, t.lang)
  }

  ghost predicate AllCurrent(s: Machine) {
    forall id :: id in s.worker.trees && id !in s.hist.stale && !Reparsing(s.worker, id) ==>
      Current(s.worker.trees[id])
  }

  lemma WorkerStepKeepsCurrent(s: Machine, step: HandlerStep)
    requires AllCurrent(s) && Can(s, ByWorker(step))
    ensures AllCurrent(Next(s, ByWorker(step)))
  {
  }

  lemma IoStepKeepsCurrent(s: Machine, step: IoStep)
    requires AllCurrent(s) && Counters(s) && IoCan(s, step)
    ensures AllCurrent(IoNext(s, step))
  {
    var s' := IoNext(s, step);
    assert step.Join? || (s'.worker.trees == s.worker.trees && s'.worker.pc == s.worker.pc
                          && s'.hist.stale == s.hist.stale);
  }

  lemma StepKeepsCurrent(s: Machine, a: Action)
    requires AllCurrent(s) && Counters(s) && Can(s, a)
    ensures AllCurrent(Next(s, a))
  {
    match a {
      case ByIo(step) => IoStepKeepsCurrent(s, step);
      case ByWorker(step) => WorkerStepKeepsCurrent(s, step);
      case ByIncoming(step) => IncomingIsIdle(s, step);
      case ByClient(_, _) =>
    }
  }

  /** In every run, a tree whose last parse did not fail has the syntax of the text it holds. */
  lemma {:induction false} RunCurrent(standalone: bool, trace: seq<Machine>, actions: seq<Action>, k: nat)
    requires IsRun(standalone, trace, actions) && k < |trace|
    ensures AllCurrent(trace[k])
  {
    if k > 0 {
      RunCurrent(standalone, trace, actions, k - 1);
      RunInv(standalone, trace, actions, k - 1);
      StepKeepsCurrent(trace[k - 1], actions[k - 1]);
    }
  }

  /**
    At rest, the syntax of an undisturbed buffer is that of the last text written to its mailbox, unless
    the last parse failed.
   */
  lemma SyntaxIsOfLastText(standalone: bool, trace: seq<Machine>, actions: seq<Action>, k: nat,
                           id: BufferId, m: Serial)
    requires IsRun(standalone, trace, actions) && k < |trace|
    requires Quiet(trace[k]) && Open(trace[k].io, id, m) && m !in trace[k].hist.disturbed
    requires id !in trace[k].hist.stale
    ensures m in trace[k].hist.written
    ensures trace[k].hist.written[m] != [] ==>
              && id in trace[k].worker.trees
              && trace[k].worker.trees[id].syntax.text == Latest(trace[k].hist.written[m])
  {
    NoLostUpdate(standalone, trace, actions, k, id, m);
    RunCurrent(standalone, trace, actions, k);
  }

  /** One update, exactly: after it the syntax is that of the text if the parse succeeds, or if it was before. */
  lemma UpdateLeavesCurrentIff(t: TreeState, m: Mailbox, parses: bool)
    requires m.lock.Free? && !m.wasRead
    ensures var t' := UpdateBuf(t, m, parses).0;
            t'.syntax.text == t'.buf <==> parses || t.syntax.text == m.text
  {
  }

  /** A buffer is stale only because a parse of it failed. */
  lemma {:induction false} StaleHasFailed(standalone: bool, trace: seq<Machine>, actions: seq<Action>, k: nat,
                                          id: BufferId)
    requires IsRun(standalone, trace, actions) && k < |trace| && id in trace[k].hist.stale
    ensures exists i :: 0 <= i < k && actions[i] == ByWorker(Parse(false)) && trace[i].worker.pc == Parsing(id)
  {
    var s, a := trace[k - 1], actions[k - 1];
    assert trace[k] == Next(s, a);
    if id in s.hist.stale {
      StaleHasFailed(standalone, trace, actions, k - 1, id);
    } else {
      StepMakesStale(s, a, id);
    }
  }

  lemma StepMakesStale(s: Machine, a: Action, id: BufferId)
    requires Can(s, a) && id !in s.hist.stale && id in Next(s, a).hist.stale
    ensures a == ByWorker(Parse(false)) && s.worker.pc == Parsing(id)
  {
    match a
    case ByIo(step) =>
      IoKeepsStale(s, step);
    case ByWorker(step) =>
      WorkerMakesStale(s, step, id);
    case ByIncoming(step) =>
    case ByClient(tkn, payload) =>
  }

  lemma WorkerMakesStale(s: Machine, step: HandlerStep, id: BufferId)
    requires WorkerCan(s.worker, s.boxes, step) && id !in s.hist.stale && id in StaleAfter(s, step)
    ensures step == Parse(false) && s.worker.pc == Parsing(id)
  {
  }

  lemma IoKeepsStale(s: Machine, step: IoStep)
    requires IoCan(s, step)
    ensures IoNext(s, step).hist.stale == s.hist.stale
  {
  }
}
