/**
  Reading a FIFO: the byte stream of a buffer is cut into frames at a sentinel, and a frame that
  already has data behind it is dropped in favour of the newer one.
 */
module Framing {
  import opened Options
  import opened Allocation
  import opened Substrings

  // ---------------------------------------------------------------- one read

  datatype FifoResult = Unready | Ready(text: string)

  datatype FifoError = CannotReadFifo

  /** What one `read_to_string` call on the non-blocking file gives. */
  datatype ReadOutcome = Data(text: string) | WouldBlock(text: string) | Failed

  /** The data a whole read loop collects, or `None` if one of its calls fails. */
  function Collect(script: seq<ReadOutcome>): Option<string> {
    if script == [] then Some("")
    else match script[0]
      case Failed => None
      case WouldBlock(text) => Some(text)
      case Data(text) =>
        if text == "" then Some("")
        else match Collect(script[1..])
          case None => None
          case Some(rest) => Some(text + rest)
  }

  /** What ends the read loop. */
  predicate EndsRead(o: ReadOutcome) {
    o.Failed? || o.WouldBlock? || o == Data("")
  }

  function TextOf(script: seq<ReadOutcome>): string {
    if script == [] then ""
    else (if script[0].Failed? then "" else script[0].text) + TextOf(script[1..])
  }

  /** The loop collects everything up to the first thing that ends it; only a failure loses it. */
  lemma {:induction false} CollectIs(script: seq<ReadOutcome>, end: nat)
    requires end <= |script| && forall i :: 0 <= i < end ==> !EndsRead(script[i])
    requires end < |script| ==> EndsRead(script[end])
    ensures Collect(script)
            == if end == |script| then Some(TextOf(script))
               else if script[end].Failed? then None
               else Some(TextOf(script[..end + 1]))
  {
    if script != [] {
      if end == 0 {
        assert script[..1][1..] == [];
        assert !script[0].Failed? ==> TextOf(script[..1]) == script[0].text + "" == script[0].text;
      } else {
        CollectIs(script[1..], end - 1);
        assert end < |script| ==> script[..end + 1][1..] == script[1..][..end];
      }
    }
  }

  /** The decision taken once the data is in: the new buffer, and what the caller gets. */
  function Cut(buf: string, sentinel: string): (string, FifoResult) {
    match Find(buf, sentinel)
    case None => (buf, Unready)
    case Some(index) =>
      var end := index + |sentinel|;
      if end != |buf| then (buf[end..], Unready) else (buf, Ready(buf[..index]))
  }

  /** A cut hands out all there is but the sentinel, or keeps an end of it. */
  lemma CutSplits(all: string, sentinel: string)
    ensures var (buf, result) := Cut(all, sentinel);
            if result.Ready? then all == result.text + sentinel else exists lost :: all == lost + buf
  {
    FindsFirst(all, sentinel);
    var found := Find(all, sentinel);
    if found.None? {
      assert all == "" + all;
    } else {
      var end := found.value + |sentinel|;
      assert all == all[..end] + all[end..];
      assert all[..end] == all[..found.value] + sentinel;
    }
  }

  class Fifo {
    const serial: nat
    const tkn: Token
    const sentinel: string
    var buf: string

    constructor (serial: nat, tkn: Token, sentinel: string)
      ensures this.serial == serial && this.tkn == tkn && this.sentinel == sentinel && buf == ""
    {
      this.serial := serial;
      this.tkn := tkn;
      this.sentinel := sentinel;
      buf := "";
    }

    /** Reads until the file would block, then looks for a complete frame. */
    method Read(script: seq<ReadOutcome>) returns (r: Result<FifoResult, FifoError>)
      modifies this
      ensures match Collect(script)
              case None => buf == "" && r == Err(CannotReadFifo)
              case Some(data) => r.Ok? && (buf, r.value) == Cut(old(buf) + data, sentinel)
    {
      var i := 0;
      label start:
      while i < |script|
        invariant 0 <= i <= |script|
        invariant match Collect(script[i..])
                  case None => Collect(script).None?
                  case Some(rest) =>
                    Collect(script).Some? && old(buf) + Collect(script).value == buf + rest
      {
        match script[i] {
          case Failed =>
            buf := "";
            return Err(CannotReadFifo);
          case WouldBlock(text) =>
            buf := buf + text;
            break;
          case Data(text) =>
            if text == "" {
              break;
            }
            assert script[i..][1..] == script[i + 1..];
            buf := buf + text;
        }
        i := i + 1;
      }
      assert Collect(script).Some? && old(buf) + Collect(script).value == buf;

      var found := Find(buf, sentinel);
      match found {
        case None =>
          return Ok(Unready);
        case Some(index) =>
          var end := index + |sentinel|;
          if end != |buf| {
            buf := buf[end..];
            return Ok(Unready);
          }
          return Ok(Ready(buf[..index]));
      }
    }

    method Clear()
      modifies this
      ensures buf == ""
    {
      buf := "";
    }
  }

  // ---------------------------------------------------------------- frames

  /** The bytes a client writes for one buffer update. */
  function Frame(payload: string, sentinel: string): string {
    payload + sentinel
  }

  function Encode(frames: seq<string>, sentinel: string): string {
    if frames == [] then "" else Frame(frames[0], sentinel) + Encode(frames[1..], sentinel)
  }

  /** The sentinel shows up in the frame at its very end and nowhere before. */
  ghost predicate Good(payload: string, sentinel: string) {
    sentinel != "" && FirstAt(Frame(payload, sentinel), sentinel, |payload|)
  }

  /**
    A payload is delivered intact, alone in the buffer, exactly when its frame is good. That the
    payload does not contain the sentinel is necessary but does not suffice, because the sentinel
    can overlap itself.
   */
  lemma DeliveredIntactIffGood(payload: string, sentinel: string)
    requires sentinel != ""
    ensures Cut(Frame(payload, sentinel), sentinel).1 == Ready(payload) <==> Good(payload, sentinel)
  {
    var buf := Frame(payload, sentinel);
    assert OccursAt(buf, sentinel, |payload|);
    FindsFirst(buf, sentinel);
    if Good(payload, sentinel) {
      var i := Find(buf, sentinel);
      assert i == Some(|payload|);
      assert buf[..|payload|] == payload;
    }
  }

  /** With a sentinel of the form the server makes: it ends as it begins. */
  lemma SentinelFreePayloadIsNotEnough()
    ensures var sentinel := "a0000000-0000-4000-8000-00000000000a";
            var payload := sentinel[..35];
            && (forall i: nat :: !OccursAt(payload, sentinel, i))
            && Cut(Frame(payload, sentinel), sentinel) == (sentinel[1..], Unready)
  {
    var sentinel := "a0000000-0000-4000-8000-00000000000a";
    var payload := sentinel[..35];
    var buf := Frame(payload, sentinel);
    assert sentinel == payload + "a";
    assert buf[..36] == payload + sentinel[..1];
    assert sentinel[0] == 'a' == "a"[0];
    assert OccursAt(buf, sentinel, 0);
    FindIs(buf, sentinel, 0);
    assert buf[36..] == sentinel[1..];
  }

  // ---------------------------------------------------------------- the stream of one FIFO

  /**
    Everything that ever happens on one FIFO. `rest` is written by the client but not read yet;
    `taken` frames have left the buffer; `delivered` are the indices of those that were handed out,
    `out` the texts that were handed out; `ready` says that one is handed out but not cleared yet.
   */
  datatype Wire = Wire(
    sentinel: string,
    frames: seq<string>,
    rest: string,
    taken: nat,
    dropped: nat,
    ready: bool,
    delivered: seq<nat>,
    out: seq<string>)

  function NewWire(sentinel: string): Wire {
    Wire(sentinel, [], "", 0, 0, false, [], [])
  }

  /** The client writes one more frame. */
  function Post(w: Wire, payload: string): Wire {
    w.(frames := w.frames + [payload], rest := w.rest + Frame(payload, w.sentinel))
  }

  /** The server reads the next `n` bytes, whatever the frame boundaries. */
  function Receive(w: Wire, buf: string, n: nat): (Wire, string, FifoResult)
    requires n <= |w.rest|
  {
    var filled := buf + w.rest[..n];
    var (buf', result) := Cut(filled, w.sentinel);
    var w := w.(rest := w.rest[n..]);
    match result
    case Ready(text) =>
      (w.(ready := true, delivered := w.delivered + [w.taken], out := w.out + [text]), buf', result)
    case Unready =>
      if |buf'| < |filled| then (w.(taken := w.taken + 1, dropped := w.dropped + 1), buf', result)
      else (w, buf', result)
  }

  /** The server clears the buffer after having used what it was handed out. */
  function Settle(w: Wire): Wire {
    w.(ready := false, taken := w.taken + 1)
  }

  ghost predicate AllGood(frames: seq<string>, sentinel: string) {
    forall i :: 0 <= i < |frames| ==> Good(frames[i], sentinel)
  }

  ghost predicate Increasing(s: seq<nat>) {
    forall i, j :: 0 <= i < j < |s| ==> s[i] < s[j]
  }

  /** The buffer and the unread stream start at a frame boundary, and every frame before it is accounted for. */
  ghost predicate AtBoundary(w: Wire, buf: string) {
    && w.taken <= |w.frames|
    && buf + w.rest == Encode(w.frames[w.taken..], w.sentinel)
    && |w.delivered| + w.dropped == w.taken + (if w.ready then 1 else 0)
  }

  /** What was handed out are whole frames, in order, each at most once. */
  ghost predicate HandedOut(w: Wire) {
    && Increasing(w.delivered)
    && |w.out| == |w.delivered|
    && (forall i :: 0 <= i < |w.out| ==>
          w.delivered[i] < |w.frames| && w.out[i] == w.frames[w.delivered[i]])
    && (forall i :: 0 <= i < |w.delivered| - (if w.ready then 1 else 0) ==> w.delivered[i] < w.taken)
    && (w.ready ==> w.delivered != [] && w.delivered[|w.delivered| - 1] == w.taken)
  }

  /** A frame is dropped only in favour of a newer one, so the newest of all is not. */
  ghost predicate NewestKept(w: Wire) {
    w.taken == |w.frames| > 0 && !w.ready ==> w.delivered != [] && w.delivered[|w.delivered| - 1] == w.taken - 1
  }

  ghost predicate Aligned(w: Wire, buf: string) {
    && w.sentinel != ""
    && AllGood(w.frames, w.sentinel)
    && AtBoundary(w, buf)
    && HandedOut(w)
    && NewestKept(w)
    && (w.ready ==> w.taken < |w.frames| && buf == Frame(w.frames[w.taken], w.sentinel))
  }

  lemma NewWireAligned(sentinel: string)
    requires sentinel != ""
    ensures Aligned(NewWire(sentinel), "")
  {
  }

  lemma {:induction false} EncodeAppend(fs: seq<string>, payload: string, s: string)
    ensures Encode(fs + [payload], s) == Encode(fs, s) + Frame(payload, s)
  {
    if fs == [] {
      assert [payload][1..] == [];
    } else {
      assert (fs + [payload])[1..] == fs[1..] + [payload];
      EncodeAppend(fs[1..], payload, s);
      assert Encode(fs + [payload], s) == Frame(fs[0], s) + (Encode(fs[1..], s) + Frame(payload, s));
    }
  }

  lemma PostKeepsBoundary(w: Wire, buf: string, payload: string)
    requires AtBoundary(w, buf)
    ensures AtBoundary(Post(w, payload), buf)
  {
    var fs := w.frames + [payload];
    assert fs[w.taken..] == w.frames[w.taken..] + [payload];
    EncodeAppend(w.frames[w.taken..], payload, w.sentinel);
    assert buf + (w.rest + Frame(payload, w.sentinel)) == (buf + w.rest) + Frame(payload, w.sentinel);
  }

  lemma PostKeepsAligned(w: Wire, buf: string, payload: string)
    requires Aligned(w, buf) && Good(payload, w.sentinel)
    ensures Aligned(Post(w, payload), buf)
  {
    PostKeepsBoundary(w, buf, payload);
    assert HandedOut(Post(w, payload));
  }

  /** The only places where a prefix of the stream can be cut: never inside the first frame. */
  lemma FindInStream(buf: string, rest: string, fs: seq<string>, s: string)
    requires AllGood(fs, s) && s != ""
    requires buf + rest == Encode(fs, s)
    ensures fs == [] || |buf| < |Frame(fs[0], s)| ==> Find(buf, s).None?
    ensures fs != [] && |buf| >= |Frame(fs[0], s)| ==>
              && Find(buf, s) == Some(|fs[0]|)
              && buf[..|fs[0]|] == fs[0] && buf[..|Frame(fs[0], s)|] == Frame(fs[0], s)
              && buf[|Frame(fs[0], s)|..] + rest == Encode(fs[1..], s)
  {
    FindsFirst(buf, s);
    if fs == [] {
      assert buf == "";
    } else {
      var frame, tail := Frame(fs[0], s), Encode(fs[1..], s);
      assert Good(fs[0], s);
      forall j: nat | OccursAt(buf, s, j) && j + |s| <= |frame|
        ensures OccursAt(frame, s, j)
      {
        OccursInFrame(buf, rest, frame, tail, s, j);
      }
      if |buf| >= |frame| {
        StreamBegins(buf, rest, frame, tail);
        FrameIsFound(buf, fs[0], s);
      }
    }
  }

  lemma OccursInFrame(buf: string, rest: string, frame: string, tail: string, s: string, j: nat)
    requires buf + rest == frame + tail && OccursAt(buf, s, j) && j + |s| <= |frame|
    ensures OccursAt(frame, s, j)
  {
    var stream := buf + rest;
    assert buf[j..j + |s|] == stream[j..j + |s|] == (frame + tail)[j..j + |s|] == frame[j..j + |s|];
  }

  lemma StreamBegins(buf: string, rest: string, frame: string, tail: string)
    requires buf + rest == frame + tail && |frame| <= |buf|
    ensures buf[..|frame|] == frame && buf[|frame|..] + rest == tail
  {
    assert buf[..|frame|] == (buf + rest)[..|frame|] == frame;
    assert buf[|frame|..] + rest == (buf + rest)[|frame|..] == tail;
  }

  lemma FrameIsFound(buf: string, payload: string, s: string)
    requires Good(payload, s) && |Frame(payload, s)| <= |buf| && buf[..|Frame(payload, s)|] == Frame(payload, s)
    ensures Find(buf, s) == Some(|payload|) && buf[..|payload|] == payload
  {
    var frame := Frame(payload, s);
    assert buf[|payload|..|frame|] == frame[|payload|..] == s;
    assert buf[..|payload|] == frame[..|payload|] == payload;
    assert OccursAt(buf, s, |payload|);
    assert buf + "" == frame + buf[|frame|..];
    forall j: nat | j < |payload|
      ensures !OccursAt(buf, s, j)
    {
      assert !OccursAt(frame, s, j);
      if OccursAt(buf, s, j) {
        OccursInFrame(buf, "", frame, buf[|frame|..], s, j);
      }
    }
    FindIs(buf, s, |payload|);
  }

  lemma SplitStream(buf: string, rest: string, n: nat)
    requires n <= |rest|
    ensures (buf + rest[..n]) + rest[n..] == buf + rest
  {
  }

  lemma TailOf(fs: seq<string>, k: nat)
    requires k <= |fs|
    ensures fs[k..] == [] <==> k == |fs|
    ensures k < |fs| ==> fs[k..][0] == fs[k] && fs[k..][1..] == fs[k + 1..]
  {
  }

  lemma CutCases(buf: string, rest: string, fs: seq<string>, s: string)
    requires AllGood(fs, s) && s != "" && buf + rest == Encode(fs, s)
    ensures var (cut, result) := Cut(buf, s);
            if fs == [] || |buf| < |Frame(fs[0], s)| then (cut, result) == (buf, Unready)
            else if buf == Frame(fs[0], s) then (cut, result) == (buf, Ready(fs[0]))
            else result == Unready && 0 < |cut| < |buf| && cut + rest == Encode(fs[1..], s)
  {
    FindInStream(buf, rest, fs, s);
    if fs != [] && |buf| == |Frame(fs[0], s)| {
      assert buf == buf[..|buf|];
    }
  }

  /** What the buffer holds after new data came in decides everything. */
  lemma ReceiveCases(w: Wire, buf: string, n: nat)
    requires w.sentinel != "" && AllGood(w.frames, w.sentinel) && AtBoundary(w, buf) && n <= |w.rest|
    ensures var filled := buf + w.rest[..n];
            var (cut, result) := Cut(filled, w.sentinel);
            if w.taken == |w.frames| || |filled| < |Frame(w.frames[w.taken], w.sentinel)|
            then (cut, result) == (filled, Unready)
            else if filled == Frame(w.frames[w.taken], w.sentinel)
            then (cut, result) == (filled, Ready(w.frames[w.taken]))
            else
              && result == Unready && 0 < |cut| < |filled|
              && cut + w.rest[n..] == Encode(w.frames[w.taken + 1..], w.sentinel)
  {
    SplitStream(buf, w.rest, n);
    TailOf(w.frames, w.taken);
    CutCases(buf + w.rest[..n], w.rest[n..], w.frames[w.taken..], w.sentinel);
  }

  /** A read hands out the first buffered frame if it is alone, drops it if it is not, and never splits one. */
  lemma ReceiveKeepsBoundary(w: Wire, buf: string, n: nat)
    requires w.sentinel != "" && AllGood(w.frames, w.sentinel) && AtBoundary(w, buf) && n <= |w.rest|
    requires !w.ready
    ensures var (w', buf', result) := Receive(w, buf, n);
            && AtBoundary(w', buf')
            && (result.Ready? <==>
                  w.taken < |w.frames| && buf + w.rest[..n] == Frame(w.frames[w.taken], w.sentinel))
            && (result.Ready? ==> result.text == w.frames[w.taken] && buf' == Frame(result.text, w.sentinel))
            && w.taken <= w'.taken <= w.taken + 1
            && (w'.taken > w.taken ==> w'.taken < |w.frames|)
            && w'.ready == result.Ready?
  {
    ReceiveCases(w, buf, n);
    SplitStream(buf, w.rest, n);
    assert w.taken + 1 == |w.frames| ==> w.frames[w.taken + 1..] == [];
  }

  lemma ReceiveKeepsAligned(w: Wire, buf: string, n: nat)
    requires Aligned(w, buf) && !w.ready && n <= |w.rest|
    ensures Aligned(Receive(w, buf, n).0, Receive(w, buf, n).1)
  {
    ReceiveKeepsBoundary(w, buf, n);
    assert HandedOut(Receive(w, buf, n).0);
  }

  lemma SettleKeepsAligned(w: Wire, buf: string)
    requires Aligned(w, buf) && w.ready
    ensures Aligned(Settle(w), "")
  {
    var fs := w.frames[w.taken..];
    assert fs[0] == w.frames[w.taken] && fs[1..] == w.frames[w.taken + 1..];
    assert w.rest == (buf + w.rest)[|buf|..];
    assert Encode(fs, w.sentinel)[|buf|..] == Encode(fs[1..], w.sentinel);
    assert "" + w.rest == w.rest;
  }

  /**
    Once the client has fallen silent and everything it wrote is read, the last frame it sent is the last
    one handed out exactly when nothing is left in the buffer.
   */
  lemma NewestDeliveredIffBufferEmpty(w: Wire, buf: string)
    requires Aligned(w, buf) && !w.ready && w.rest == "" && w.frames != []
    ensures (w.delivered != [] && w.delivered[|w.delivered| - 1] == |w.frames| - 1) <==> buf == ""
  {
    assert buf + w.rest == buf;
    if w.taken == |w.frames| {
      assert w.frames[w.taken..] == [];
    } else {
      assert |Encode(w.frames[w.taken..], w.sentinel)| >= |w.sentinel| > 0;
    }
  }

  // ---------------------------------------------------------------- whole runs

  datatype FifoAction = Write(payload: string) | ReadSome(n: nat) | ClearBuffer

  ghost predicate Allowed(w: Wire, a: FifoAction) {
    match a
    case Write(payload) => Good(payload, w.sentinel)
    case ReadSome(n) => !w.ready && n <= |w.rest|
    case ClearBuffer => w.ready
  }

  ghost function Act(w: Wire, buf: string, a: FifoAction): (Wire, string)
    requires Allowed(w, a)
  {
    match a
    case Write(payload) => (Post(w, payload), buf)
    case ReadSome(n) => var (w', buf', _) := Receive(w, buf, n); (w', buf')
    case ClearBuffer => (Settle(w), "")
  }

  /** `trace` is a run of one FIFO, from its creation, under any interleaving and any chunking. */
  ghost predicate IsRun(sentinel: string, trace: seq<(Wire, string)>, actions: seq<FifoAction>) {
    && |trace| == |actions| + 1
    && trace[0] == (NewWire(sentinel), "")
    && forall i :: 0 <= i < |actions| ==>
         Allowed(trace[i].0, actions[i]) && trace[i + 1] == Act(trace[i].0, trace[i].1, actions[i])
  }

  /** Framing safety: at every point of every run, what was delivered are whole sent frames in order. */
  lemma {:induction false} FramingSafety(sentinel: string, trace: seq<(Wire, string)>,
                                         actions: seq<FifoAction>, k: nat)
    requires sentinel != "" && IsRun(sentinel, trace, actions) && k < |trace|
    ensures Aligned(trace[k].0, trace[k].1)
  {
    if k == 0 {
      NewWireAligned(sentinel);
    } else {
      FramingSafety(sentinel, trace, actions, k - 1);
      var (w, buf) := trace[k - 1];
      match actions[k - 1] {
        case Write(payload) => PostKeepsAligned(w, buf, payload);
        case ReadSome(n) => ReceiveKeepsAligned(w, buf, n);
        case ClearBuffer => SettleKeepsAligned(w, buf);
      }
    }
  }

  // ---------------------------------------------------------------- accounting and catching up

  /** How many leading frames lie completely within the first `n` bytes of the stream. */
  function Complete(fs: seq<string>, s: string, n: int): nat {
    if fs == [] || n < |Frame(fs[0], s)| then 0
    else 1 + Complete(fs[1..], s, n - |Frame(fs[0], s)|)
  }

  lemma {:induction false} CompleteSplits(fs: seq<string>, s: string, k: nat, n: int)
    requires k <= |fs| && n >= |Encode(fs[..k], s)|
    ensures Complete(fs, s, n) == k + Complete(fs[k..], s, n - |Encode(fs[..k], s)|)
  {
    if k == 0 {
      assert fs[0..] == fs && fs[..0] == [];
    } else {
      assert fs[..k][1..] == fs[1..][..k - 1] && fs[..k][0] == fs[0];
      assert fs[1..][k - 1..] == fs[k..];
      CompleteSplits(fs[1..], s, k - 1, n - |Frame(fs[0], s)|);
    }
  }

  lemma {:induction false} EncodeSplits(fs: seq<string>, s: string, k: nat)
    requires k <= |fs|
    ensures |Encode(fs, s)| == |Encode(fs[..k], s)| + |Encode(fs[k..], s)|
  {
    if k == 0 {
      assert fs[0..] == fs;
    } else {
      assert fs[..k][1..] == fs[1..][..k - 1] && fs[..k][0] == fs[0];
      assert fs[1..][k - 1..] == fs[k..];
      EncodeSplits(fs[1..], s, k - 1);
    }
  }

  /** Skipping the first `k` frames of a stream skips `k` complete ones, if they have arrived. */
  lemma CompleteAfter(fs: seq<string>, s: string, k: nat, buffered: nat, unread: nat)
    requires k <= |fs| && buffered + unread == |Encode(fs[k..], s)|
    ensures Complete(fs, s, |Encode(fs, s)| - unread) == k + Complete(fs[k..], s, buffered)
  {
    EncodeSplits(fs, s, k);
    CompleteSplits(fs, s, k, |Encode(fs[..k], s)| + buffered);
  }

  /** The frames whose last byte has reached the server. */
  function Arrived(w: Wire): nat {
    Complete(w.frames, w.sentinel, |Encode(w.frames, w.sentinel)| - |w.rest|)
  }

  /** The complete frames in the buffer. */
  function Buffered(w: Wire, buf: string): nat
    requires w.taken <= |w.frames|
  {
    Complete(w.frames[w.taken..], w.sentinel, |buf|)
  }

  lemma ArrivedSplits(w: Wire, buf: string)
    requires w.taken <= |w.frames| && buf + w.rest == Encode(w.frames[w.taken..], w.sentinel)
    ensures Arrived(w) == w.taken + Buffered(w, buf)
  {
    assert |buf + w.rest| == |buf| + |w.rest|;
    CompleteAfter(w.frames, w.sentinel, w.taken, |buf|, |w.rest|);
  }

  /**
    Every frame that has arrived is accounted for exactly once: handed out, dropped, or still in the
    buffer. A frame that is handed out but not cleared yet is in the buffer as well.
   */
  lemma FrameAccounting(w: Wire, buf: string)
    requires AtBoundary(w, buf)
    ensures Arrived(w) == |w.delivered| + w.dropped + Buffered(w, buf) - (if w.ready then 1 else 0)
  {
    ArrivedSplits(w, buf);
  }

  /** `k` reads in a row that bring no new data: the buffer left behind and what each one returned. */
  function IdleReads(buf: string, sentinel: string, k: nat): (string, seq<FifoResult>) {
    if k == 0 then (buf, [])
    else
      var (buf', r) := Cut(buf, sentinel);
      var (last, rs) := IdleReads(buf', sentinel, k - 1);
      (last, [r] + rs)
  }

  lemma CutFirst(fs: seq<string>, s: string)
    requires fs != [] && s != "" && AllGood(fs, s)
    ensures if |fs| == 1 then Cut(Encode(fs, s), s) == (Frame(fs[0], s), Ready(fs[0]))
            else Cut(Encode(fs, s), s) == (Encode(fs[1..], s), Unready)
  {
    var buf, frame := Encode(fs, s), Frame(fs[0], s);
    assert buf + "" == buf;
    FindInStream(buf, "", fs, s);
    assert buf[|frame|..] == Encode(fs[1..], s);
    if |fs| == 1 {
      assert buf == frame;
    } else {
      assert |Encode(fs[1..], s)| >= |Frame(fs[1], s)| > 0;
    }
  }

  /**
    With `n` complete frames buffered and nothing behind them, the first `n - 1` reads drop one frame
    each and the `n`-th hands out the last one. In particular a single read leaves frames waiting.
   */
  lemma {:induction false} CatchUp(fs: seq<string>, s: string)
    requires fs != [] && s != "" && AllGood(fs, s)
    ensures var (buf, results) := IdleReads(Encode(fs, s), s, |fs|);
            && buf == Frame(fs[|fs| - 1], s)
            && |results| == |fs|
            && (forall i :: 0 <= i < |fs| - 1 ==> results[i] == Unready)
            && results[|fs| - 1] == Ready(fs[|fs| - 1])
  {
    CutFirst(fs, s);
    if |fs| == 1 {
      assert IdleReads(Encode(fs, s), s, 1) == (Frame(fs[0], s), [Ready(fs[0])] + []);
    } else {
      CatchUp(fs[1..], s);
      var (last, rs) := IdleReads(Encode(fs[1..], s), s, |fs| - 1);
      assert IdleReads(Encode(fs, s), s, |fs|) == (last, [Unready] + rs);
      assert fs[1..][|fs| - 2] == fs[|fs| - 1];
    }
  }

  /** So two frames that arrive in one read leave the second one waiting, with nothing unread to wake the server. */
  lemma TwoFramesAtOnceStrand(w: Wire, first: string, second: string)
    requires Aligned(w, "") && !w.ready && w.rest == ""
    requires Good(first, w.sentinel) && Good(second, w.sentinel)
    ensures var sent := Post(Post(w, first), second);
            var (after, buf, result) := Receive(sent, "", |sent.rest|);
            && Aligned(after, buf) && after.rest == ""
            && result == Unready && buf == Frame(second, w.sentinel) != ""
  {
    var s := w.sentinel;
    var sent := Post(Post(w, first), second);
    PostKeepsAligned(w, "", first);
    PostKeepsAligned(Post(w, first), "", second);
    ReceiveKeepsAligned(sent, "", |sent.rest|);
    assert [first, second][1..] == [second] && [second][1..] == [];
    assert Encode([second], s) == Frame(second, s) + "" == Frame(second, s);
    assert sent.rest == Encode([first, second], s);
    assert "" + sent.rest[..|sent.rest|] == sent.rest;
    CutFirst([first, second], s);
  }
}
