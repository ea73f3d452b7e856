/** The handler thread: it executes commands one at a time on the trees it owns. */
module TreeStore {
  import opened Options
  import opened Protocol
  import opened Mailboxes

  /** What the last successful parse was computed from. */
  datatype Syntax = Syntax(text: string, lang: string)

  datatype TreeState = TreeState(buf: string, langName: string, lang: string, syntax: Syntax)

  type TreeMap = map<BufferId, TreeState>

  function Recompute(t: TreeState, parses: bool): TreeState {
    if parses then t.(syntax := Syntax(t.buf, t.lang)) else t
  }

  /** A language change renames the language and parses again, with the language of the first time. */
  function Compute(trees: TreeMap, id: BufferId, lang: string, parses: bool): TreeMap {
    if id in trees then trees[id := Recompute(trees[id].(langName := lang), parses)]
    else if parses then trees[id := TreeState("", lang, lang, Syntax("", lang))]
    else trees
  }

  function CleanSession(trees: TreeMap, session: string): TreeMap {
    map id | id in trees && id.session != session :: trees[id]
  }

  /** What a handler function reports when it fails. */
  datatype HandlerError = CannotLoadLanguage | UnknownBuffer | ParseFailed | QueryFailed

  /** The last component is what the update reports: whether the buffer changed. */
  function UpdateBuf(t: TreeState, m: Mailbox, parses: bool): (TreeState, Mailbox, Result<bool, HandlerError>)
    requires m.lock.Free?
  {
    var (m', buf, changed) := ReadTo(m, t.buf);
    var t' := t.(buf := buf);
    if !changed then (t', m', Ok(false))
    else (Recompute(t', parses), m', if parses then Ok(true) else Err(ParseFailed))
  }

  /** Responses to Kakoune; highlights are computed from a syntax tree. */
  datatype Response =
    | Welcome(metadata: Metadata)
    | BufferSetup(metadata: Metadata, fifo: Serial, sentinel: string)
    | Highlights(id: BufferId, syntax: Syntax)
    | Answer(metadata: Metadata)

  type Reply = Result<Option<Response>, HandlerError>

  /**
    How the foreign code reacts to one command: whether the language loads, whether parsing succeeds,
    whether there is anything to highlight, and whether a query has an answer.
   */
  datatype Incoming = Incoming(cmd: Command, langOk: bool, parses: bool, ranges: bool, answers: bool)

  /** The shared memory of every update exists, and nobody else holds a lock. */
  ghost predicate Readable(boxes: map<Serial, Mailbox>, cmds: seq<Incoming>) {
    && (forall r :: r in boxes ==> boxes[r].lock.Free?)
    && (forall i :: 0 <= i < |cmds| && cmds[i].cmd.BufferUpdate? ==> cmds[i].cmd.reader in boxes)
  }

  function MetadataReply(metadata: Metadata, fifo: Serial, sentinel: string, langOk: bool, parses: bool): Reply {
    if !langOk then Err(CannotLoadLanguage)
    else if metadata.ToBufferId().None? then Err(UnknownBuffer)
    else if !parses then Err(ParseFailed)
    else Ok(Some(BufferSetup(metadata, fifo, sentinel)))
  }

  function UpdateReply(id: BufferId, t: TreeState, changed: Result<bool, HandlerError>,
                       highlighting: bool, ranges: bool): Reply
  {
    match changed
    case Err(e) => Err(e)
    case Ok(changed) => Ok(if changed && highlighting && ranges then Some(Highlights(id, t.syntax)) else None)
  }

  /** One turn of the receive loop that no writer interferes with. */
  ghost function HandleCommand(trees: TreeMap, boxes: map<Serial, Mailbox>, inc: Incoming, highlighting: bool)
    : (TreeMap, map<Serial, Mailbox>, Reply)
    requires Readable(boxes, [inc])
  {
    assert inc == [inc][0];
    match inc.cmd
    case SessionInit(metadata) => (trees, boxes, Ok(Some(Welcome(metadata))))
    case SessionEnd(metadata) => (CleanSession(trees, metadata.session), boxes, Ok(None))
    case Shutdown => (trees, boxes, Ok(None))
    case BufferMetadata(metadata, lang, fifo, sentinel) =>
      (if inc.langOk && metadata.ToBufferId().Some?
       then Compute(trees, metadata.ToBufferId().value, lang, inc.parses)
       else trees,
       boxes,
       MetadataReply(metadata, fifo, sentinel, inc.langOk, inc.parses))
    case BufferClose(metadata) =>
      if metadata.ToBufferId().Some? then (trees - {metadata.ToBufferId().value}, boxes, Ok(None))
      else (trees, boxes, Err(UnknownBuffer))
    case BufferUpdate(metadata, r) =>
      if metadata.ToBufferId().Some? && metadata.ToBufferId().value in trees then
        var id := metadata.ToBufferId().value;
        var (t, m, changed) := UpdateBuf(trees[id], boxes[r], inc.parses);
        (trees[id := t], boxes[r := m], UpdateReply(id, t, changed, highlighting, inc.ranges))
      else (trees, boxes, Err(UnknownBuffer))
    case Query(metadata) => (trees, boxes, if inc.answers then Ok(Some(Answer(metadata))) else Err(QueryFailed))
  }

  function Sent(reply: Reply): seq<Response> {
    if reply.Ok? && reply.value.Some? then [reply.value.value] else []
  }

  /** The whole life of the handler: it stops at a shutdown or when the channel is exhausted. */
  ghost function HandleAll(trees: TreeMap, boxes: map<Serial, Mailbox>, cmds: seq<Incoming>, highlighting: bool)
    : (TreeMap, map<Serial, Mailbox>, seq<Response>)
    requires Readable(boxes, cmds)
    decreases |cmds|
  {
    if cmds == [] || cmds[0].cmd.Shutdown? then (trees, boxes, [])
    else
      var (trees', boxes', reply) := HandleCommand(trees, boxes, cmds[0], highlighting);
      var (trees'', boxes'', rest) := HandleAll(trees', boxes', cmds[1..], highlighting);
      (trees'', boxes'', Sent(reply) + rest)
  }

  /**
    Highlights are sent only for a text that was not seen before, and they are those of that text. A
    setup is sent only for a buffer that has a tree, with the FIFO the command named.
   */
  lemma RepliesDescribeTheTree(trees: TreeMap, boxes: map<Serial, Mailbox>, inc: Incoming, highlighting: bool)
    requires Readable(boxes, [inc])
    ensures var (trees', boxes', reply) := HandleCommand(trees, boxes, inc, highlighting);
            reply.Ok? && reply.value.Some? ==>
              match reply.value.value
              case Highlights(id, syntax) =>
                && inc.cmd.BufferUpdate? && inc.cmd.metadata.ToBufferId() == Some(id)
                && inc.cmd.reader in boxes && !boxes[inc.cmd.reader].wasRead
                && id in trees' && trees'[id].buf == boxes[inc.cmd.reader].text
                && syntax == trees'[id].syntax == Syntax(boxes[inc.cmd.reader].text, trees'[id].lang)
              case BufferSetup(metadata, fifo, sentinel) =>
                && inc.cmd.BufferMetadata? && (inc.cmd.fifo, inc.cmd.sentinel) == (fifo, sentinel)
                && metadata.ToBufferId().Some? && metadata.ToBufferId().value in trees'
              case _ => trees' == trees && boxes' == boxes
  {
    assert inc == [inc][0];
  }

  predicate Answers(reply: Reply) {
    reply.Ok? && reply.value.Some?
  }

  /** Exactly when each response is sent. */
  lemma ResponseIsSentIff(trees: TreeMap, boxes: map<Serial, Mailbox>, inc: Incoming, highlighting: bool)
    requires Readable(boxes, [inc])
    ensures var reply := HandleCommand(trees, boxes, inc, highlighting).2;
            var id := if inc.cmd.Shutdown? then None else inc.cmd.metadata.ToBufferId();
            match inc.cmd
            case SessionInit(metadata) => reply == Ok(Some(Welcome(metadata)))
            case BufferMetadata(metadata, _, fifo, sentinel) =>
              && (Answers(reply) <==> inc.langOk && id.Some? && inc.parses)
              && (Answers(reply) ==> reply.value.value == BufferSetup(metadata, fifo, sentinel))
            case BufferUpdate(_, r) =>
              && inc.cmd.reader in boxes
              && (Answers(reply) <==>
                    id.Some? && id.value in trees && !boxes[r].wasRead && inc.parses && highlighting && inc.ranges)
              && (Answers(reply) ==>
                    reply.value.value == Highlights(id.value, Syntax(boxes[r].text, trees[id.value].lang)))
            case Query(metadata) =>
              && (Answers(reply) <==> inc.answers)
              && (Answers(reply) ==> reply.value.value == Answer(metadata))
            case _ => !Answers(reply)
  {
    assert inc == [inc][0];
  }

  /** Exactly when a command fails, and with which error; the first thing that is wrong decides. */
  lemma CommandFailsIff(trees: TreeMap, boxes: map<Serial, Mailbox>, inc: Incoming, highlighting: bool)
    requires Readable(boxes, [inc])
    ensures var reply := HandleCommand(trees, boxes, inc, highlighting).2;
            && (reply == Err(CannotLoadLanguage) <==> inc.cmd.BufferMetadata? && !inc.langOk)
            && (reply == Err(QueryFailed) <==> inc.cmd.Query? && !inc.answers)
            && (reply == Err(UnknownBuffer) <==>
                  || ((inc.cmd.BufferClose? || (inc.cmd.BufferMetadata? && inc.langOk))
                      && inc.cmd.metadata.ToBufferId().None?)
                  || (inc.cmd.BufferUpdate?
                      && (inc.cmd.metadata.ToBufferId().None? || inc.cmd.metadata.ToBufferId().value !in trees)))
            && (reply == Err(ParseFailed) <==>
                  && !inc.parses && !inc.cmd.Shutdown? && inc.cmd.metadata.ToBufferId().Some?
                  && (|| (inc.cmd.BufferMetadata? && inc.langOk)
                      || (&& inc.cmd.BufferUpdate? && inc.cmd.metadata.ToBufferId().value in trees
                          && inc.cmd.reader in boxes && !boxes[inc.cmd.reader].wasRead)))
  {
    assert inc == [inc][0];
  }

  /** A buffer gets a tree only by a successful first parse, of the empty text and with the language asked for. */
  lemma FirstComputeMakesTree(trees: TreeMap, id: BufferId, lang: string, parses: bool, other: BufferId)
    requires id !in trees
    ensures var trees' := Compute(trees, id, lang, parses);
            && (id in trees' <==> parses)
            && (parses ==> trees'[id] == TreeState("", lang, lang, Syntax("", lang)))
            && (other != id ==> (other in trees' <==> other in trees)
                                && (other in trees ==> trees'[other] == trees[other]))
  {
  }

  /** An existing tree keeps the language it was made with, so its name is right exactly for that language. */
  lemma LanguageChangeRenamesOnly(trees: TreeMap, id: BufferId, lang: string, parses: bool)
    requires id in trees
    ensures var t := Compute(trees, id, lang, parses)[id];
            && t.langName == lang
            && t.lang == trees[id].lang && t.buf == trees[id].buf
            && (t.langName == t.lang <==> lang == trees[id].lang)
            && (parses ==> t.syntax == Syntax(t.buf, trees[id].lang))
            && (parses ==> (t.syntax.lang == lang <==> lang == trees[id].lang))
  {
  }

  lemma FirstCommand(trees: TreeMap, boxes: map<Serial, Mailbox>, cmds: seq<Incoming>, highlighting: bool)
    requires Readable(boxes, cmds) && cmds != [] && !cmds[0].cmd.Shutdown?
    ensures Readable(boxes, [cmds[0]])
    ensures var (trees', boxes', reply) := HandleCommand(trees, boxes, cmds[0], highlighting);
            Readable(boxes', cmds[1..]) &&
            var (trees'', boxes'', rest) := HandleAll(trees', boxes', cmds[1..], highlighting);
            HandleAll(trees, boxes, cmds, highlighting) == (trees'', boxes'', Sent(reply) + rest)
  {
    assert [cmds[0]][0] == cmds[0];
  }

  /** Nothing but a shutdown ends the loop, and nothing queued behind one is looked at. */
  lemma OneTurn(trees: TreeMap, boxes: map<Serial, Mailbox>, inc: Incoming, behind: seq<Incoming>, highlighting: bool)
    requires Readable(boxes, [inc]) && Readable(boxes, [inc] + behind)
    ensures inc.cmd.Shutdown? ==> HandleAll(trees, boxes, [inc] + behind, highlighting) == (trees, boxes, [])
    ensures !inc.cmd.Shutdown? ==>
              var (trees', boxes', reply) := HandleCommand(trees, boxes, inc, highlighting);
              HandleAll(trees, boxes, [inc], highlighting)
              == (trees', boxes', if Answers(reply) then [reply.value.value] else [])
  {
    assert [inc][0] == inc && [inc][1..] == [];
    var reply := HandleCommand(trees, boxes, inc, highlighting).2;
    assert Sent(reply) + [] == Sent(reply);
  }

  /** What is handled later starts from what was left, and its responses are sent behind the earlier ones. */
  lemma {:induction false} LoopInTwoParts(trees: TreeMap, boxes: map<Serial, Mailbox>,
                                          first: seq<Incoming>, second: seq<Incoming>, highlighting: bool)
    requires Readable(boxes, first + second)
    requires forall i :: 0 <= i < |first| ==> !first[i].cmd.Shutdown?
    ensures Readable(boxes, first)
    ensures var (trees', boxes', sent) := HandleAll(trees, boxes, first, highlighting);
            Readable(boxes', second) &&
            var (trees'', boxes'', more) := HandleAll(trees', boxes', second, highlighting);
            HandleAll(trees, boxes, first + second, highlighting) == (trees'', boxes'', sent + more)
    decreases |first|
  {
    var all := first + second;
    assert forall i :: 0 <= i < |first| ==> first[i] == all[i];
    if first == [] {
      assert all == second;
      var more := HandleAll(trees, boxes, second, highlighting).2;
      assert [] + more == more;
    } else {
      assert [all[0]][0] == first[0] && all[1..] == first[1..] + second;
      var (trees', boxes', reply) := HandleCommand(trees, boxes, first[0], highlighting);
      LoopInTwoParts(trees', boxes', first[1..], second, highlighting);
      var (t1, b1, early) := HandleAll(trees', boxes', first[1..], highlighting);
      var late := HandleAll(t1, b1, second, highlighting).2;
      assert (Sent(reply) + early) + late == Sent(reply) + (early + late);
    }
  }

  class Trees {
    var trees: TreeMap

    constructor ()
      ensures trees == map[]
    {
      trees := map[];
    }

    method ComputeTree(id: BufferId, lang: string, parses: bool) returns (r: Result<(), HandlerError>)
      modifies this
      ensures trees == Compute(old(trees), id, lang, parses)
      ensures r == if parses then Ok(()) else Err(ParseFailed)
    {
      if id in trees {
        var t := trees[id].(langName := lang);
        if parses {
          t := t.(syntax := Syntax(t.buf, t.lang));
        }
        trees := trees[id := t];
      } else if parses {
        trees := trees[id := TreeState("", lang, lang, Syntax("", lang))];
      }
      return if parses then Ok(()) else Err(ParseFailed);
    }

    method DeleteTree(id: BufferId)
      modifies this
      ensures trees == old(trees) - {id}
    {
      trees := trees - {id};
    }

    method CleanSessionTrees(session: string)
      modifies this
      ensures trees == CleanSession(old(trees), session)
    {
      trees := map id | id in trees && id.session != session :: trees[id];
    }

    /** Fails when the buffer has no tree; the mailbox is then left alone. */
    method UpdateTree(id: BufferId, reader: TripleBuffer, parses: bool) returns (r: Result<bool, HandlerError>)
      modifies this, reader
      ensures if id in old(trees) then
                var (t, m, changed) := UpdateBuf(old(trees)[id], old(reader.State()), parses);
                trees == old(trees)[id := t] && reader.State() == m && r == changed
              else
                trees == old(trees) && reader.State() == old(reader.State()) && r == Err(UnknownBuffer)
    {
      if id !in trees {
        return Err(UnknownBuffer);
      }
      var t := trees[id];
      var buf, changed := reader.ReadText(t.buf);
      t := t.(buf := buf);
      if changed && parses {
        t := t.(syntax := Syntax(t.buf, t.lang));
      }
      trees := trees[id := t];
      return if changed && !parses then Err(ParseFailed) else Ok(changed);
    }
  }

  ghost function Boxes(readers: map<Serial, TripleBuffer>): map<Serial, Mailbox>
    reads readers.Values
  {
    map r | r in readers :: readers[r].State()
  }

  ghost predicate Distinct(readers: map<Serial, TripleBuffer>) {
    forall r, q :: r in readers && q in readers && r != q ==> readers[r] != readers[q]
  }

  class Handler {
    const trees: Trees
    const withHighlighting: bool

    constructor (withHighlighting: bool)
      ensures fresh(trees) && trees.trees == map[] && this.withHighlighting == withHighlighting
    {
      trees := new Trees();
      this.withHighlighting := withHighlighting;
    }

    method HandleBufferMetadata(metadata: Metadata, lang: string, fifo: Serial, sentinel: string,
                                langOk: bool, parses: bool)
      returns (reply: Reply)
      modifies trees
      ensures trees.trees ==
                if langOk && metadata.ToBufferId().Some?
                then Compute(old(trees.trees), metadata.ToBufferId().value, lang, parses)
                else old(trees.trees)
      ensures reply == MetadataReply(metadata, fifo, sentinel, langOk, parses)
    {
      if !langOk {
        return Err(CannotLoadLanguage);
      }
      match metadata.ToBufferId() {
        case None =>
          return Err(UnknownBuffer);
        case Some(id) =>
          var computed := trees.ComputeTree(id, lang, parses);
          return if computed.Err? then Err(computed.error) else Ok(Some(BufferSetup(metadata, fifo, sentinel)));
      }
    }

    method HandleBufferClose(metadata: Metadata) returns (r: Result<(), HandlerError>)
      modifies trees
      ensures trees.trees ==
                if metadata.ToBufferId().Some? then old(trees.trees) - {metadata.ToBufferId().value}
                else old(trees.trees)
      ensures r == if metadata.ToBufferId().Some? then Ok(()) else Err(UnknownBuffer)
    {
      match metadata.ToBufferId() {
        case None =>
          return Err(UnknownBuffer);
        case Some(id) =>
          trees.DeleteTree(id);
          return Ok(());
      }
    }

    method HandleFullBufferUpdate(metadata: Metadata, reader: TripleBuffer, parses: bool, ranges: bool)
      returns (reply: Reply)
      modifies trees, reader
      ensures if metadata.ToBufferId().Some? && metadata.ToBufferId().value in old(trees.trees) then
                var id := metadata.ToBufferId().value;
                var (t, m, changed) := UpdateBuf(old(trees.trees)[id], old(reader.State()), parses);
                && trees.trees == old(trees.trees)[id := t] && reader.State() == m
                && reply == UpdateReply(id, t, changed, withHighlighting, ranges)
              else
                && trees.trees == old(trees.trees) && reader.State() == old(reader.State())
                && reply == Err(UnknownBuffer)
    {
      match metadata.ToBufferId() {
        case None =>
          return Err(UnknownBuffer);
        case Some(id) =>
          var changed := trees.UpdateTree(id, reader, parses);
          if changed.Err? {
            return Err(changed.error);
          }
          if !changed.value || !withHighlighting || !ranges {
            return Ok(None);
          }
          return Ok(Some(Highlights(id, trees.trees[id].syntax)));
      }
    }

    method HandleOne(inc: Incoming, readers: map<Serial, TripleBuffer>) returns (reply: Reply)
      requires Distinct(readers) && Readable(Boxes(readers), [inc])
      modifies trees, readers.Values
      ensures (trees.trees, Boxes(readers), reply)
              == HandleCommand(old(trees.trees), old(Boxes(readers)), inc, withHighlighting)
    {
      ghost var boxes := Boxes(readers);
      reply := Ok(None);
      match inc.cmd {
        case SessionInit(metadata) =>
          reply := Ok(Some(Welcome(metadata)));
        case SessionEnd(metadata) =>
          trees.CleanSessionTrees(metadata.session);
        case Shutdown =>
        case BufferMetadata(metadata, lang, fifo, sentinel) =>
          reply := HandleBufferMetadata(metadata, lang, fifo, sentinel, inc.langOk, inc.parses);
        case BufferClose(metadata) =>
          var closed := HandleBufferClose(metadata);
          reply := if closed.Err? then Err(closed.error) else Ok(None);
        case BufferUpdate(metadata, r) =>
          assert [inc][0] == inc;
          reply := HandleFullBufferUpdate(metadata, readers[r], inc.parses, inc.ranges);
          assert Boxes(readers) == boxes[r := readers[r].State()];
          assert boxes[r := boxes[r]] == boxes;
        case Query(metadata) =>
          reply := if inc.answers then Ok(Some(Answer(metadata))) else Err(QueryFailed);
      }
    }

    /** The receive loop, on the commands the channel delivers until it is closed; errors are only logged. */
    method Start(cmds: seq<Incoming>, readers: map<Serial, TripleBuffer>) returns (sent: seq<Response>)
      requires Distinct(readers) && Readable(Boxes(readers), cmds)
      modifies trees, readers.Values
      ensures (trees.trees, Boxes(readers), sent)
              == HandleAll(old(trees.trees), old(Boxes(readers)), cmds, withHighlighting)
    {
      var i := 0;
      sent := [];
      ghost var all := HandleAll(trees.trees, Boxes(readers), cmds, withHighlighting);
      assert cmds[0..] == cmds;
      assert [] + all.2 == all.2;
      while i < |cmds|
        invariant 0 <= i <= |cmds|
        invariant Readable(Boxes(readers), cmds[i..])
        invariant var (trees', boxes', rest) := HandleAll(trees.trees, Boxes(readers), cmds[i..], withHighlighting);
                  (trees', boxes', sent + rest) == all
      {
        assert cmds[i..][0] == cmds[i] && cmds[i..][1..] == cmds[i + 1..];
        if cmds[i].cmd.Shutdown? {
          assert sent + [] == sent;
          return;
        }
        ghost var before := sent;
        FirstCommand(trees.trees, Boxes(readers), cmds[i..], withHighlighting);
        var reply := HandleOne(cmds[i], readers);
        ghost var rest := HandleAll(trees.trees, Boxes(readers), cmds[i + 1..], withHighlighting).2;
        sent := sent + Sent(reply);
        assert sent + rest == before + (Sent(reply) + rest);
        i := i + 1;
      }
      assert cmds[i..] == [] && sent + [] == sent;
    }
  }
}
