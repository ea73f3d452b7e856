/** From the client's frames to the handler's trees: the FIFOs of the server read whole frames. */
module EndToEnd {
  import opened Options
  import opened Protocol
  import opened Allocation
  import opened IoServer
  import opened Machines
  import opened LostUpdates
  import opened CommandLog
  import Framing

  /** Between reading a complete frame and clearing the buffer. */
  ghost predicate HoldsFrame(pc: IoPc, t: Token) {
    (pc.Writing? || pc.Flagging? || pc.Clearing?) && pc.t == t
  }

  /** The byte stream of a FIFO agrees with its buffer, and what it handed out is what was written. */
  ghost predicate WireInv(s: Machine, t: Token)
    requires Domains(s) && t in s.io.fifos
  {
    var w, e := s.hist.wires[SerialOf(s, t)], s.io.fifos[t];
    && w.sentinel == e.sentinel
    && (w.ready <==> HoldsFrame(s.pc, t))
    && (w.out == s.hist.written[e.serial] + if s.pc.Writing? && s.pc.t == t then [s.pc.text] else [])
    && (w.sentinel != "" && Framing.AllGood(w.frames, w.sentinel) ==> Framing.Aligned(w, e.buf))
  }

  ghost predicate WiresInv(s: Machine)
    requires Domains(s)
  {
    forall t :: t in s.io.fifos ==> WireInv(s, t)
  }

  lemma OpenKeepsWires(s: Machine, s': Machine, id: BufferId, t: Token, e: Entry, lang: string)
    requires s.pc.Idle? && Domains(s) && WiresInv(s) && Domains(s')
    requires OpenedBy(s, s', id, t, e, lang)
    ensures WiresInv(s')
  {
    forall u | u in s'.io.fifos
      ensures WireInv(s', u)
    {
      if u == t {
        if e.sentinel != "" {
          Framing.NewWireAligned(e.sentinel);
        }
      } else {
        assert WireInv(s, u) && SerialOf(s', u) == SerialOf(s, u) < s.io.created;
      }
    }
  }

  /** Whatever happens to one FIFO, the streams of the others stay as they were. */
  lemma ReadKeepsWires(s: Machine, t: Token, n: nat)
    requires Domains(s) && SerialsUnique(s.io.fifos, s.io.created) && WiresInv(s)
    requires Can(s, ByIo(ReadFifo(t, n))) && Domains(Next(s, ByIo(ReadFifo(t, n))))
    ensures WiresInv(Next(s, ByIo(ReadFifo(t, n))))
  {
    var s' := Next(s, ByIo(ReadFifo(t, n)));
    forall u | u in s'.io.fifos
      ensures WireInv(s', u)
    {
      assert WireInv(s, u);
      if u == t {
        ReadKeepsOwnWire(s, t, n);
      } else {
        assert SerialOf(s', u) == SerialOf(s, u) != SerialOf(s, t);
      }
    }
  }

  lemma ReadKeepsOwnWire(s: Machine, t: Token, n: nat)
    requires Domains(s) && t in s.io.fifos && WireInv(s, t)
    requires Can(s, ByIo(ReadFifo(t, n))) && Domains(Next(s, ByIo(ReadFifo(t, n))))
    ensures WireInv(Next(s, ByIo(ReadFifo(t, n))), t)
  {
    var w, e := s.hist.wires[SerialOf(s, t)], s.io.fifos[t];
    if w.sentinel != "" && Framing.AllGood(w.frames, w.sentinel) {
      Framing.ReceiveKeepsAligned(w, e.buf, n);
    }
  }

  lemma ClearKeepsWires(s: Machine)
    requires Domains(s) && SerialsUnique(s.io.fifos, s.io.created) && WiresInv(s)
    requires Can(s, ByIo(ClearFifo)) && Domains(Next(s, ByIo(ClearFifo)))
    ensures WiresInv(Next(s, ByIo(ClearFifo)))
  {
    var s' := Next(s, ByIo(ClearFifo));
    forall u | u in s'.io.fifos
      ensures WireInv(s', u)
    {
      assert WireInv(s, u);
      if u == s.pc.t {
        var w, e := s.hist.wires[SerialOf(s, u)], s.io.fifos[u];
        if w.sentinel != "" && Framing.AllGood(w.frames, w.sentinel) {
          Framing.SettleKeepsAligned(w, e.buf);
        }
      } else {
        assert SerialOf(s', u) == SerialOf(s, u) != SerialOf(s, s.pc.t);
      }
    }
  }

  lemma WriteKeepsWires(s: Machine)
    requires Domains(s) && SerialsUnique(s.io.fifos, s.io.created) && WiresInv(s)
    requires Can(s, ByIo(WriteText)) && Domains(Next(s, ByIo(WriteText)))
    ensures WiresInv(Next(s, ByIo(WriteText)))
  {
    var s' := Next(s, ByIo(WriteText));
    forall u | u in s'.io.fifos
      ensures WireInv(s', u)
    {
      assert WireInv(s, u);
      if u != s.pc.t {
        assert SerialOf(s, u) != SerialOf(s, s.pc.t);
      }
    }
  }

  /** Steps that leave the streams, their buffers and the written texts alone. */
  ghost predicate SameStreams(s: Machine, s': Machine) {
    && (forall u :: u in s'.io.fifos ==> u in s.io.fifos && s'.io.fifos[u] == s.io.fifos[u])
    && s'.hist.wires == s.hist.wires && s'.hist.written == s.hist.written
    && (forall t :: HoldsFrame(s'.pc, t) <==> HoldsFrame(s.pc, t))
    && !s.pc.Writing? && !s'.pc.Writing?
  }

  lemma SameStreamsKeepsWires(s: Machine, s': Machine)
    requires Domains(s) && Domains(s') && WiresInv(s) && SameStreams(s, s')
    ensures WiresInv(s')
  {
    forall u | u in s'.io.fifos
      ensures WireInv(s', u)
    {
      assert WireInv(s, u);
    }
  }

  lemma OtherIoStepSameStreams(s: Machine, step: IoStep)
    requires Can(s, ByIo(step))
    requires || step.Connect? || step.ReloadConfig? || step.StoreFlag? || step.SendUpdate?
             || step.CloseChannel? || step.Join?
    ensures SameStreams(s, Next(s, ByIo(step)))
  {
  }

  lemma OtherIoStepKeepsWires(s: Machine, step: IoStep)
    requires Domains(s) && WiresInv(s)
    requires Can(s, ByIo(step)) && Domains(Next(s, ByIo(step)))
    requires || step.Connect? || step.ReloadConfig? || step.StoreFlag? || step.SendUpdate?
             || step.CloseChannel? || step.Join?
    ensures WiresInv(Next(s, ByIo(step)))
  {
    OtherIoStepSameStreams(s, step);
    SameStreamsKeepsWires(s, Next(s, ByIo(step)));
  }

  lemma ClientKeepsWires(s: Machine, t: Token, payload: string)
    requires Domains(s) && SerialsUnique(s.io.fifos, s.io.created) && WiresInv(s)
    requires Can(s, ByClient(t, payload)) && Domains(Next(s, ByClient(t, payload)))
    ensures WiresInv(Next(s, ByClient(t, payload)))
  {
    var s' := Next(s, ByClient(t, payload));
    forall u | u in s'.io.fifos
      ensures WireInv(s', u)
    {
      assert WireInv(s, u);
      if u == t {
        var w, e := s.hist.wires[SerialOf(s, t)], s.io.fifos[t];
        var frames := w.frames + [payload];
        if w.sentinel != "" && Framing.AllGood(frames, w.sentinel) {
          assert forall i :: 0 <= i < |w.frames| ==> frames[i] == w.frames[i];
          assert frames[|w.frames|] == payload;
          Framing.PostKeepsAligned(w, e.buf, payload);
        }
      } else {
        assert SerialOf(s, u) != SerialOf(s, t);
      }
    }
  }

  lemma WorkerKeepsWires(s: Machine, step: HandlerStep)
    requires Domains(s) && WiresInv(s) && Can(s, ByWorker(step)) && Domains(Next(s, ByWorker(step)))
    ensures WiresInv(Next(s, ByWorker(step)))
  {
    var s' := Next(s, ByWorker(step));
    assert s'.io == s.io && s'.pc == s.pc && s'.hist.wires == s.hist.wires && s'.hist.written == s.hist.written;
    assert forall u :: u in s'.io.fifos ==> WireInv(s, u);
  }

  lemma ServeKeepsWires(s: Machine, req: Request, creation: Creation)
    requires Domains(s) && MapsInverse(s.io.fifos, s.io.tknBufferIds) && WiresInv(s)
    requires Can(s, ByIo(Serve(req, creation))) && Domains(Next(s, ByIo(Serve(req, creation))))
    ensures WiresInv(Next(s, ByIo(Serve(req, creation))))
  {
    var s' := Next(s, ByIo(Serve(req, creation)));
    if Opens(s.io, req, creation) {
      RequestOpens(s, req, creation);
      OpenKeepsWires(s, s', req.metadata.ToBufferId().value, CreateToken(s.io.tokens).1,
                     Entry(req.metadata, s.io.created, creation.sentinel, ""), req.payload.lang);
    } else if Closes(s.io, req) {
      RequestCloses(s, req, creation);
      ClosedSameStreams(s, s', req.metadata.ToBufferId().value, req.metadata);
      SameStreamsKeepsWires(s, s');
    } else {
      RequestOnlySends(s, req, creation);
      var cmds, disturbed :| OnlySent(s, s', cmds, disturbed);
      SentSameStreams(s, s', cmds, disturbed);
      SameStreamsKeepsWires(s, s');
    }
  }

  lemma ClosedSameStreams(s: Machine, s': Machine, id: BufferId, metadata: Metadata)
    requires s.pc.Idle? && ClosedBy(s, s', id, metadata)
    ensures SameStreams(s, s')
  {
  }

  lemma SentSameStreams(s: Machine, s': Machine, cmds: seq<Command>, disturbed: set<Serial>)
    requires s.pc.Idle? && OnlySent(s, s', cmds, disturbed)
    ensures SameStreams(s, s')
  {
  }

  lemma StepKeepsWires(s: Machine, a: Action)
    requires Inv(s) && WiresInv(s) && Can(s, a) && Inv(Next(s, a))
    ensures WiresInv(Next(s, a))
  {
    match a {
      case ByWorker(step) => WorkerKeepsWires(s, step);
      case ByIncoming(step) => IncomingIsIdle(s, step);
      case ByClient(t, payload) => ClientKeepsWires(s, t, payload);
      case ByIo(step) =>
        match step {
          case Serve(req, creation) => ServeKeepsWires(s, req, creation);
          case ReadFifo(t, n) => ReadKeepsWires(s, t, n);
          case WriteText => WriteKeepsWires(s);
          case ClearFifo => ClearKeepsWires(s);
          case Connect(_) => OtherIoStepKeepsWires(s, step);
          case ReloadConfig(_) => OtherIoStepKeepsWires(s, step);
          case StoreFlag => OtherIoStepKeepsWires(s, step);
          case SendUpdate => OtherIoStepKeepsWires(s, step);
          case CloseChannel => OtherIoStepKeepsWires(s, step);
          case Join => OtherIoStepKeepsWires(s, step);
        }
    }
  }

  lemma {:induction false} RunWires(standalone: bool, trace: seq<Machine>, actions: seq<Action>, k: nat)
    requires IsRun(standalone, trace, actions) && k < |trace|
    ensures Inv(trace[k]) && WiresInv(trace[k])
  {
    RunInv(standalone, trace, actions, k);
    if k > 0 {
      RunWires(standalone, trace, actions, k - 1);
      StepKeepsWires(trace[k - 1], actions[k - 1]);
    }
  }

  // ---------------------------------------------------------------- what clients are told

  /** What a `BufferMetadata` says of its FIFO is true: whose it is, and at which sentinel it is cut. */
  ghost predicate Truthful(s: Machine, c: Command) {
    c.BufferMetadata? ==>
      && c.fifo in s.hist.owner && c.metadata.ToBufferId() == Some(s.hist.owner[c.fifo])
      && c.fifo in s.hist.wires && s.hist.wires[c.fifo].sentinel == c.sentinel
  }

  ghost predicate LogTruthful(s: Machine) {
    forall c :: c in s.hist.log ==> Truthful(s, c)
  }

  /** Sentinels and owners are given once and for all. */
  ghost predicate SameFifo(s: Machine, s': Machine, m: Serial) {
    && m in s.hist.wires && m in s'.hist.wires && s'.hist.wires[m].sentinel == s.hist.wires[m].sentinel
    && m in s.hist.owner && m in s'.hist.owner && s'.hist.owner[m] == s.hist.owner[m]
  }

  lemma StepKeepsTruth(s: Machine, a: Action, m: Serial)
    requires Can(s, a) && m < s.io.created && m in s.hist.wires && m in s.hist.owner
    ensures SameFifo(s, Next(s, a), m)
  {
    match a {
      case ByIo(step) => IoStepKeepsTruth(s, step, m);
      case _ =>
    }
  }

  lemma IoStepKeepsTruth(s: Machine, step: IoStep, m: Serial)
    requires IoCan(s, step) && m < s.io.created && m in s.hist.wires && m in s.hist.owner
    ensures SameFifo(s, IoNext(s, step), m)
  {
    if step.ReadFifo? {
      ReceiveKeepsSentinel(s.hist.wires[SerialOf(s, step.tkn)], s.io.fifos[step.tkn].buf, step.n);
    }
  }

  lemma ReceiveKeepsSentinel(w: Framing.Wire, buf: string, n: nat)
    requires n <= |w.rest|
    ensures Framing.Receive(w, buf, n).0.sentinel == w.sentinel
  {
  }

  lemma SentIsTruthful(s: Machine, req: Request, creation: Creation, c: Command)
    requires Inv(s) && WiresInv(s) && Can(s, ByIo(Serve(req, creation)))
    requires c in ProcessReq(s.io, req, creation).sent
    ensures Truthful(DoRequest(s, req, creation), c)
  {
    if c.BufferMetadata? {
      var id := req.metadata.ToBufferId().value;
      MetadataNamesTheFifo(s.io, req.metadata, req.payload.lang, creation);
      if id in s.io.tknBufferIds {
        assert RegisteredAs(s.io.fifos, s.io.tknBufferIds[id], id);
        assert WireInv(s, s.io.tknBufferIds[id]);
        StepKeepsTruth(s, ByIo(Serve(req, creation)), c.fifo);
      }
    }
  }

  lemma StepKeepsLogTruthful(s: Machine, a: Action)
    requires Inv(s) && WiresInv(s) && LogTruthful(s) && Can(s, a)
    ensures LogTruthful(Next(s, a))
  {
    StepMovesCommands(s, a);
    forall c | c in Next(s, a).hist.log
      ensures Truthful(Next(s, a), c)
    {
      if c in s.hist.log {
        if c.BufferMetadata? {
          StepKeepsTruth(s, a, c.fifo);
        }
      } else if a.ByIo? && a.io.Serve? {
        SentIsTruthful(s, a.io.req, a.io.creation, c);
      }
    }
  }

  /** In every run, every `BufferMetadata` ever sent names the FIFO of its buffer and the sentinel it is cut at. */
  lemma {:induction false} ClientsAreToldTheTruth(standalone: bool, trace: seq<Machine>, actions: seq<Action>, k: nat)
    requires IsRun(standalone, trace, actions) && k < |trace|
    ensures LogTruthful(trace[k])
  {
    if k > 0 {
      ClientsAreToldTheTruth(standalone, trace, actions, k - 1);
      RunWires(standalone, trace, actions, k - 1);
      StepKeepsLogTruthful(trace[k - 1], actions[k - 1]);
    }
  }

  /**
    End to end. For a buffer whose client sends good frames and whose tree was not separated from it,
    whenever the server is at rest the tree holds, complete and alone, a frame the client sent for this
    very buffer: the last one the FIFO handed out. Every frame before it was handed out or dropped.
   */
  lemma TreeHoldsLastDeliveredFrame(standalone: bool, trace: seq<Machine>, actions: seq<Action>, k: nat,
                                    id: BufferId, m: Serial)
    requires IsRun(standalone, trace, actions) && k < |trace|
    requires Quiet(trace[k]) && Open(trace[k].io, id, m) && m !in trace[k].hist.disturbed
    ensures m in trace[k].hist.wires
    ensures var w := trace[k].hist.wires[m];
            w.sentinel != "" && Framing.AllGood(w.frames, w.sentinel) && w.delivered != [] ==>
              var last := w.delivered[|w.delivered| - 1];
              && last < |w.frames|
              && TreeHolds(trace[k], id, w.frames[last])
              && |w.delivered| + w.dropped == w.taken
              && last < w.taken
  {
    RunWires(standalone, trace, actions, k);
    NoLostUpdate(standalone, trace, actions, k, id, m);
    assert WireInv(trace[k], trace[k].io.tknBufferIds[id]);
  }

  /**
    Which frame that is. Once the client has fallen silent and everything it wrote is read, the frame in
    the tree is the last one it sent exactly when nothing is left in the buffer of the FIFO; what is left
    waits for the client's next write.
   */
  lemma TreeHoldsLastSentFrameIff(standalone: bool, trace: seq<Machine>, actions: seq<Action>, k: nat,
                                  id: BufferId, m: Serial)
    requires IsRun(standalone, trace, actions) && k < |trace|
    requires Quiet(trace[k]) && Open(trace[k].io, id, m) && m !in trace[k].hist.disturbed
    ensures m in trace[k].hist.wires
    ensures var w := trace[k].hist.wires[m];
            var buf := trace[k].io.fifos[trace[k].io.tknBufferIds[id]].buf;
            w.sentinel != "" && Framing.AllGood(w.frames, w.sentinel) && w.rest == "" && w.frames != [] ==>
              && ((w.delivered != [] && w.delivered[|w.delivered| - 1] == |w.frames| - 1) <==> buf == "")
              && (buf == "" ==> TreeHolds(trace[k], id, w.frames[|w.frames| - 1]))
  {
    RunWires(standalone, trace, actions, k);
    TreeHoldsLastDeliveredFrame(standalone, trace, actions, k, id, m);
    var t := trace[k].io.tknBufferIds[id];
    var w, buf := trace[k].hist.wires[m], trace[k].io.fifos[t].buf;
    assert WireInv(trace[k], t);
    if w.sentinel != "" && Framing.AllGood(w.frames, w.sentinel) && w.rest == "" && w.frames != [] {
      Framing.NewestDeliveredIffBufferEmpty(w, buf);
    }
  }
}
