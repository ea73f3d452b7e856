/** Runs in which an open buffer loses its tree, and with it the frames its client goes on to send. */
module LostTrees {
  import opened Options
  import opened Protocol
  import opened Allocation
  import opened IoServer
  import opened Machines
  import opened LostUpdates
  import opened EndToEnd
  import opened Substrings
  import Framing

  /** The run with these actions leads there. */
  ghost predicate Leads(standalone: bool, actions: seq<Action>, s: Machine) {
    exists trace :: IsRun(standalone, trace, actions) && trace[|actions|] == s
  }

  lemma NoActionLeadsToStart(standalone: bool)
    ensures Leads(standalone, [], Init(standalone))
  {
    assert IsRun(standalone, [Init(standalone)], []);
  }

  lemma OneMore(standalone: bool, actions: seq<Action>, s: Machine, a: Action)
    requires Leads(standalone, actions, s) && Can(s, a)
    ensures Leads(standalone, actions + [a], Next(s, a))
  {
    var trace :| IsRun(standalone, trace, actions) && trace[|actions|] == s;
    assert IsRun(standalone, trace + [Next(s, a)], actions + [a]);
  }

  lemma LeadsToInv(standalone: bool, actions: seq<Action>, s: Machine)
    requires Leads(standalone, actions, s)
    ensures Inv(s) && WiresInv(s)
  {
    var trace :| IsRun(standalone, trace, actions) && trace[|actions|] == s;
    RunWires(standalone, trace, actions, |actions|);
  }

  /** The server is at rest, the buffer is open with nothing on its FIFO, and it has no tree. */
  ghost predicate Orphaned(s: Machine, id: BufferId, m: Serial) {
    && s.pc.Idle? && s.worker.pc.Receiving? && s.worker.queue == []
    && Open(s.io, id, m) && id !in s.worker.trees
    && s.io.fifos[s.io.tknBufferIds[id]].buf == ""
    && m in s.hist.wires && s.hist.wires[m].rest == ""
  }

  /** At rest, with a frame written to the mailbox of an open buffer whose tree does not hold it. */
  ghost predicate Lost(s: Machine, id: BufferId, m: Serial, payload: string) {
    && Quiet(s) && Open(s.io, id, m)
    && m in s.hist.written && s.hist.written[m] != [] && Latest(s.hist.written[m]) == payload
    && !TreeHolds(s, id, payload)
  }

  /** The client sends a frame, the IO thread reads and delivers it, and the handler receives the update. */
  function SendFrame(t: Token, payload: string, n: nat): seq<Action> {
    [ByClient(t, payload), ByIo(ReadFifo(t, n)), ByIo(WriteText), ByIo(StoreFlag), ByIo(ClearFifo),
     ByIo(SendUpdate), ByWorker(Recv(true, true))]
  }

  /** A FIFO of an open buffer without a tree, and a handler that waits for commands. */
  ghost predicate Untreed(s: Machine, t: Token, m: Serial, id: BufferId) {
    && t in s.io.fifos && SerialOf(s, t) == m && s.io.fifos[t].metadata.ToBufferId() == Some(id)
    && m in s.boxes && m in s.hist.wires && m in s.hist.written
    && Open(s.io, id, m)
    && id !in s.worker.trees && s.worker.pc.Receiving? && s.worker.queue == []
  }

  lemma OrphanReceives(standalone: bool, actions: seq<Action>, s: Machine, t: Token, m: Serial, id: BufferId,
                       payload: string)
    returns (s': Machine)
    requires Leads(standalone, actions, s) && Orphaned(s, id, m) && t == s.io.tknBufferIds[id]
    requires Framing.Good(payload, s.hist.wires[m].sentinel)
    ensures Leads(standalone, actions + [ByClient(t, payload)], s')
    ensures s'.pc.Idle? && Untreed(s', t, m, id) && s'.boxes[m].lock.Free?
    ensures var n := |payload| + |s.hist.wires[m].sentinel|;
            && n <= |s'.hist.wires[m].rest|
            && Framing.Receive(s'.hist.wires[m], s'.io.fifos[t].buf, n).2 == Framing.Ready(payload)
  {
    assert Untreed(s, t, m, id) && s.boxes[m].lock.Free? by {
      LeadsToInv(standalone, actions, s);
      OrphanIsUntreed(s, t, m, id);
    }
    s' := Next(s, ByClient(t, payload));
    OneMore(standalone, actions, s, ByClient(t, payload));
    LoneFrameIsReady(s.hist.wires[m], s'.hist.wires[m], s'.io.fifos[t].buf, payload);
  }

  lemma OrphanIsUntreed(s: Machine, t: Token, m: Serial, id: BufferId)
    requires Inv(s) && Orphaned(s, id, m) && t == s.io.tknBufferIds[id]
    ensures Untreed(s, t, m, id) && s.boxes[m].lock.Free?
  {
    assert RegisteredAs(s.io.fifos, t, id);
    assert MailboxInv(s, m);
  }

  lemma Alone(buf: string, rest: string, frame: string, n: nat)
    requires buf == "" && rest == "" && n == |frame|
    ensures buf + (rest + frame)[..n] == frame
  {
  }

  lemma LoneFrameIsReady(w: Framing.Wire, w': Framing.Wire, buf: string, payload: string)
    requires w' == Framing.Post(w, payload) && w.rest == "" && buf == "" && Framing.Good(payload, w.sentinel)
    ensures var n := |payload| + |w.sentinel|;
            n == |w'.rest| && Framing.Receive(w', buf, n).2 == Framing.Ready(payload)
  {
    Alone(buf, w.rest, Framing.Frame(payload, w.sentinel), |payload| + |w.sentinel|);
    Framing.DeliveredIntactIffGood(payload, w.sentinel);
  }

  lemma ReadStarts(standalone: bool, actions: seq<Action>, s: Machine, t: Token, m: Serial, id: BufferId, n: nat,
                   payload: string)
    returns (s': Machine)
    requires Leads(standalone, actions, s)
    requires s.pc.Idle? && Untreed(s, t, m, id) && s.boxes[m].lock.Free? && n <= |s.hist.wires[m].rest|
    requires Framing.Receive(s.hist.wires[m], s.io.fifos[t].buf, n).2 == Framing.Ready(payload)
    ensures Leads(standalone, actions + [ByIo(ReadFifo(t, n))], s')
    ensures s'.pc == Writing(t, payload) && Untreed(s', t, m, id) && s'.boxes[m].lock.Free?
  {
    s' := Next(s, ByIo(ReadFifo(t, n)));
    OneMore(standalone, actions, s, ByIo(ReadFifo(t, n)));
  }

  lemma WriteFollows(standalone: bool, actions: seq<Action>, s: Machine, t: Token, m: Serial, id: BufferId,
                     payload: string)
    returns (s': Machine)
    requires Leads(standalone, actions, s)
    requires s.pc == Writing(t, payload) && Untreed(s, t, m, id) && s.boxes[m].lock.Free?
    ensures Leads(standalone, actions + [ByIo(WriteText)], s')
    ensures s'.pc == Flagging(t) && Untreed(s', t, m, id) && s'.boxes[m].lock.HeldByWriter?
    ensures s'.hist.written[m] == s.hist.written[m] + [payload]
  {
    s' := Next(s, ByIo(WriteText));
    OneMore(standalone, actions, s, ByIo(WriteText));
  }

  lemma FlagFollows(standalone: bool, actions: seq<Action>, s: Machine, t: Token, m: Serial, id: BufferId)
    returns (s': Machine)
    requires Leads(standalone, actions, s)
    requires s.pc == Flagging(t) && Untreed(s, t, m, id) && s.boxes[m].lock.HeldByWriter?
    ensures Leads(standalone, actions + [ByIo(StoreFlag)], s')
    ensures s'.pc == Clearing(t) && Untreed(s', t, m, id) && s'.hist.written == s.hist.written
  {
    s' := Next(s, ByIo(StoreFlag));
    OneMore(standalone, actions, s, ByIo(StoreFlag));
  }

  lemma ClearFollows(standalone: bool, actions: seq<Action>, s: Machine, t: Token, m: Serial, id: BufferId)
    returns (s': Machine)
    requires Leads(standalone, actions, s)
    requires s.pc == Clearing(t) && Untreed(s, t, m, id)
    ensures Leads(standalone, actions + [ByIo(ClearFifo)], s')
    ensures s'.pc == Sending(t) && Untreed(s', t, m, id) && s'.hist.written == s.hist.written
  {
    s' := Next(s, ByIo(ClearFifo));
    OneMore(standalone, actions, s, ByIo(ClearFifo));
  }

  lemma SendIsIgnored(standalone: bool, actions: seq<Action>, s: Machine, t: Token, m: Serial, id: BufferId)
    returns (s': Machine)
    requires Leads(standalone, actions, s)
    requires s.pc == Sending(t) && Untreed(s, t, m, id)
    ensures Leads(standalone, actions + [ByIo(SendUpdate)] + [ByWorker(Recv(true, true))], s')
    ensures s'.pc.Idle? && Untreed(s', t, m, id) && s'.hist.written == s.hist.written
  {
    var sent := Next(s, ByIo(SendUpdate));
    OneMore(standalone, actions, s, ByIo(SendUpdate));
    assert sent.worker.queue == [BufferUpdate(s.io.fifos[t].metadata, m)];
    s' := Next(sent, ByWorker(Recv(true, true)));
    OneMore(standalone, actions + [ByIo(SendUpdate)], sent, ByWorker(Recv(true, true)));
  }

  /** Whatever led there: an orphaned buffer loses the next frame, delivered without any interference. */
  lemma OrphanedBufferLosesFrame(standalone: bool, actions: seq<Action>, s: Machine, id: BufferId, m: Serial,
                                 payload: string)
    returns (end: Machine)
    requires Leads(standalone, actions, s) && Orphaned(s, id, m)
    requires Framing.Good(payload, s.hist.wires[m].sentinel)
    ensures Lost(end, id, m, payload)
    ensures var n := |payload| + |s.hist.wires[m].sentinel|;
            Leads(standalone, actions + SendFrame(s.io.tknBufferIds[id], payload, n), end)
  {
    var t, n := s.io.tknBufferIds[id], |payload| + |s.hist.wires[m].sentinel|;
    var a1 := actions + [ByClient(t, payload)];
    var s1 := OrphanReceives(standalone, actions, s, t, m, id, payload);
    var a2 := a1 + [ByIo(ReadFifo(t, n))];
    var s2 := ReadStarts(standalone, a1, s1, t, m, id, n, payload);
    var a3 := a2 + [ByIo(WriteText)];
    var s3 := WriteFollows(standalone, a2, s2, t, m, id, payload);
    var a4 := a3 + [ByIo(StoreFlag)];
    var s4 := FlagFollows(standalone, a3, s3, t, m, id);
    var a5 := a4 + [ByIo(ClearFifo)];
    var s5 := ClearFollows(standalone, a4, s4, t, m, id);
    end := SendIsIgnored(standalone, a5, s5, t, m, id);
    OneByOne(actions, t, payload, n);
  }

  lemma OneByOne(actions: seq<Action>, t: Token, payload: string, n: nat)
    ensures actions + [ByClient(t, payload)] + [ByIo(ReadFifo(t, n))] + [ByIo(WriteText)] + [ByIo(StoreFlag)]
            + [ByIo(ClearFifo)] + [ByIo(SendUpdate)] + [ByWorker(Recv(true, true))]
            == actions + SendFrame(t, payload, n)
  {
  }

  // ---------------------------------------------------------------- two ways to be orphaned

  const SOME_BUFFER := Metadata("session", None, Some("buffer"))

  const SOME_ID := BufferId("session", "buffer")

  const SOME_SENTINEL := "a0000000-0000-4000-8000-00000000000b"

  const OPEN := Serve(Request(SOME_BUFFER, Payload.BufferMetadata("rust")), Created(SOME_SENTINEL))

  const END := Serve(Request(SOME_BUFFER, Payload.SessionEnd), MkfifoFails)

  /** A buffer is opened, and the handler makes its tree. */
  lemma OpenedIsReachable(standalone: bool) returns (s: Machine)
    ensures Leads(standalone, [ByIo(OPEN), ByWorker(Recv(true, true))], s)
    ensures s.pc.Idle? && s.worker.pc.Receiving? && s.worker.queue == [] && !s.worker.closed && s.incoming.None?
    ensures s.io.standalone == standalone
    ensures s.io.tknBufferIds == map[SOME_ID := FIRST_TOKEN] && Open(s.io, SOME_ID, 0)
    ensures SOME_ID in s.worker.trees
    ensures s.io.fifos[FIRST_TOKEN].buf == ""
    ensures 0 in s.hist.wires && s.hist.wires[0] == Framing.NewWire(SOME_SENTINEL)
  {
    NoActionLeadsToStart(standalone);
    var s0 := Init(standalone);
    OneMore(standalone, [], s0, ByIo(OPEN));
    var s1 := Next(s0, ByIo(OPEN));
    assert s1.worker.queue == [Command.BufferMetadata(SOME_BUFFER, "rust", 0, SOME_SENTINEL)];
    OneMore(standalone, [] + [ByIo(OPEN)], s1, ByWorker(Recv(true, true)));
    s := Next(s1, ByWorker(Recv(true, true)));
    assert [] + [ByIo(OPEN)] + [ByWorker(Recv(true, true))] == [ByIo(OPEN), ByWorker(Recv(true, true))];
  }

  const ENDED := [ByIo(OPEN), ByWorker(Recv(true, true))] + [ByIo(END)] + [ByWorker(Recv(true, true))]

  /** The end of its session takes the tree of an open buffer away. */
  lemma SessionEndOrphans() returns (s: Machine)
    ensures Leads(true, ENDED, s) && Orphaned(s, SOME_ID, 0)
    ensures s.io.tknBufferIds[SOME_ID] == FIRST_TOKEN && s.hist.wires[0].sentinel == SOME_SENTINEL
  {
    var s0 := OpenedIsReachable(true);
    var before := [ByIo(OPEN), ByWorker(Recv(true, true))];
    OneMore(true, before, s0, ByIo(END));
    var s1 := Next(s0, ByIo(END));
    assert s1.worker.queue == [Command.SessionEnd(SOME_BUFFER)];
    OneMore(true, before + [ByIo(END)], s1, ByWorker(Recv(true, true)));
    s := Next(s1, ByWorker(Recv(true, true)));
  }

  const RELOADED :=
    [ByIo(OPEN), ByWorker(Recv(true, true))]
    + [ByIo(ReloadConfig(true))] + [ByIo(CloseChannel)] + [ByWorker(Hangup)] + [ByIo(Join)]

  /** So does a reload. */
  lemma ReloadOrphans(standalone: bool) returns (s: Machine)
    ensures Leads(standalone, RELOADED, s) && Orphaned(s, SOME_ID, 0)
    ensures s.io.tknBufferIds[SOME_ID] == FIRST_TOKEN && s.hist.wires[0].sentinel == SOME_SENTINEL
  {
    var s0 := OpenedIsReachable(standalone);
    var before := [ByIo(OPEN), ByWorker(Recv(true, true))];
    var reloading := before + [ByIo(ReloadConfig(true))];
    OneMore(standalone, before, s0, ByIo(ReloadConfig(true)));
    var s1 := Next(s0, ByIo(ReloadConfig(true)));
    OneMore(standalone, reloading, s1, ByIo(CloseChannel));
    var s2 := Next(s1, ByIo(CloseChannel));
    OneMore(standalone, reloading + [ByIo(CloseChannel)], s2, ByWorker(Hangup));
    var s3 := Next(s2, ByWorker(Hangup));
    OneMore(standalone, reloading + [ByIo(CloseChannel)] + [ByWorker(Hangup)], s3, ByIo(Join));
    s := Next(s3, ByIo(Join));
  }

  lemma SomePayloadIsGood()
    ensures Framing.Good("text", SOME_SENTINEL)
  {
    var frame := Framing.Frame("text", SOME_SENTINEL);
    assert frame[4..4 + |SOME_SENTINEL|] == SOME_SENTINEL;
    forall j: nat | j < 4
      ensures !OccursAt(frame, SOME_SENTINEL, j)
    {
      assert frame[j..j + |SOME_SENTINEL|][0] == frame[j] == "text"[j] != 'a' == SOME_SENTINEL[0];
    }
  }

  /** One run with a session end and one with a reload, after which an open buffer does not get its text. */
  lemma UpdatesAreLost()
    ensures exists s :: Leads(true, ENDED + SendFrame(FIRST_TOKEN, "text", 40), s) && Lost(s, SOME_ID, 0, "text")
    ensures exists s :: Leads(true, RELOADED + SendFrame(FIRST_TOKEN, "text", 40), s) && Lost(s, SOME_ID, 0, "text")
  {
    SomePayloadIsGood();
    var ended := SessionEndOrphans();
    var afterEnd := OrphanedBufferLosesFrame(true, ENDED, ended, SOME_ID, 0, "text");
    var reloaded := ReloadOrphans(true);
    var afterReload := OrphanedBufferLosesFrame(true, RELOADED, reloaded, SOME_ID, 0, "text");
  }
}
