/** From the highlighter's events to the ranges Kakoune displays. */
module HighlightSweep {
  import opened Options
  import opened Positions

  const U32_MAX: nat := 0xFFFF_FFFF

  /** One step of the foreign highlighter: at `offset`, highlights are pushed or all replaced. */
  datatype Event = Push(offset: nat, highlights: seq<nat>) | Refresh(offset: nat, highlights: seq<nat>)

  /** Lines and columns are 0-based, except that the end column is the 1-based column of the last byte. */
  datatype KakHighlightRange = KakHighlightRange(
    lineStart: nat,
    colByteStart: nat,
    lineEnd: nat,
    colByteEnd: nat,
    face: nat)

  /** The events come at strictly increasing offsets within the text. */
  ghost predicate WellFormed(source: Text, events: seq<Event>) {
    && |source| < U32_MAX
    && (forall i :: 0 <= i < |events| ==> events[i].offset <= |source|)
    && (forall i, j :: 0 <= i < j < |events| ==> events[i].offset < events[j].offset)
  }

  // ---------------------------------------------------------------- the meaning of the events

  /** The active highlights after the first `k` events, the topmost last. */
  function StackAfter(events: seq<Event>, k: nat): seq<nat>
    requires k <= |events|
  {
    if k == 0 then []
    else match events[k - 1]
      case Push(_, highlights) => StackAfter(events, k - 1) + highlights
      case Refresh(_, highlights) => highlights
  }

  /** How many events happen at or before a byte. */
  function EventsUpTo(events: seq<Event>, byte: nat): (k: nat)
    ensures k <= |events|
    ensures k > 0 ==> events[k - 1].offset <= byte
  {
    if events == [] then 0
    else
      var n := |events| - 1;
      if events[n].offset <= byte then |events| else EventsUpTo(events[..n], byte)
  }

  function Top(stack: seq<nat>): Option<nat> {
    if stack == [] then None else Some(stack[|stack| - 1])
  }

  /** The highlight of a byte: the top of the stack after all events at or before it. */
  function HighlightOf(events: seq<Event>, byte: nat): Option<nat> {
    Top(StackAfter(events, EventsUpTo(events, byte)))
  }

  /** Of the first `k` events, the `e`-th is the last one to bring highlights, and nothing was refreshed since. */
  ghost predicate Topmost(events: seq<Event>, k: nat, e: nat, highlight: nat) {
    && e < k <= |events| && events[e].highlights != []
    && highlight == events[e].highlights[|events[e].highlights| - 1]
    && forall j :: e < j < k ==> events[j].highlights == [] && events[j].Push?
  }

  lemma {:induction false} TopIs(events: seq<Event>, k: nat, highlight: nat)
    requires k <= |events|
    ensures Top(StackAfter(events, k)) == Some(highlight) <==> exists e: nat :: Topmost(events, k, e, highlight)
  {
    if k > 0 {
      var before := k - 1;
      var last := events[before];
      if last.highlights == [] && last.Push? {
        TopIs(events, before, highlight);
        assert StackAfter(events, k) == StackAfter(events, before);
        assert forall e: nat :: Topmost(events, k, e, highlight) <==> Topmost(events, before, e, highlight);
      } else {
        assert forall e: nat :: Topmost(events, k, e, highlight) ==> e == before;
        if last.highlights != [] {
          assert Top(StackAfter(events, k)) == Some(last.highlights[|last.highlights| - 1]);
          assert Top(StackAfter(events, k)) == Some(highlight) ==> Topmost(events, k, before, highlight);
        } else {
          assert StackAfter(events, k) == [];
        }
      }
    }
  }

  /** Of the events at or before a byte, the `e`-th is the last to bring highlights; nothing was refreshed since. */
  ghost predicate LastToShow(events: seq<Event>, byte: nat, e: nat, highlight: nat) {
    && e < |events| && events[e].offset <= byte && events[e].highlights != []
    && highlight == events[e].highlights[|events[e].highlights| - 1]
    && forall j :: e < j < |events| && events[j].offset <= byte ==>
         events[j].highlights == [] && events[j].Push?
  }

  /**
    The highlight of a byte without a stack: the last entry of the latest event at or before it that brings
    any highlights, provided that no event between that one and the byte replaces all highlights by none.
   */
  lemma HighlightIs(events: seq<Event>, byte: nat, highlight: nat)
    requires forall i, j :: 0 <= i < j < |events| ==> events[i].offset < events[j].offset
    ensures HighlightOf(events, byte) == Some(highlight)
            <==> exists e: nat :: LastToShow(events, byte, e, highlight)
  {
    var k := EventsUpTo(events, byte);
    TopIs(events, k, highlight);
    forall e: nat
      ensures LastToShow(events, byte, e, highlight) <==> Topmost(events, k, e, highlight)
    {
      EventsUpToSplits(events, byte);
    }
  }

  lemma {:induction false} EventsUpToSplits(events: seq<Event>, byte: nat)
    requires forall i, j :: 0 <= i < j < |events| ==> events[i].offset < events[j].offset
    ensures forall i :: 0 <= i < |events| ==> (events[i].offset <= byte <==> i < EventsUpTo(events, byte))
  {
    if events != [] {
      var n := |events| - 1;
      if events[n].offset > byte {
        EventsUpToSplits(events[..n], byte);
        assert forall i :: 0 <= i < n ==> events[..n][i] == events[i];
      }
    }
  }

  // ---------------------------------------------------------------- the meaning of the ranges

  function StartPos(r: KakHighlightRange): Pos {
    Pos(r.lineStart + 1, r.colByteStart + 1)
  }

  /** Inclusive, as it is printed. */
  function EndPos(r: KakHighlightRange): Pos {
    Pos(r.lineEnd + 1, r.colByteEnd)
  }

  /** The range stands for the bytes from `s` up to and excluding `e`. */
  ghost predicate Spans(source: Text, r: KakHighlightRange, s: nat, e: nat) {
    && s < e <= |source|
    && StartPos(r) == FromTreeSitter(source, s)
    && EndPos(r) == FromTreeSitter(source, e - 1)
  }

  /** Decoding what is printed gives back the bytes, and the end column is never 0. */
  lemma SpansDecode(source: Text, r: KakHighlightRange, s: nat, e: nat)
    requires Spans(source, r, s, e)
    ensures 0 < StartPos(r).line <= ByteToLine(source, |source|) + 1
    ensures 0 < EndPos(r).line <= ByteToLine(source, |source|) + 1
    ensures ByteAt(source, StartPos(r)) == s && ByteAt(source, EndPos(r)) + 1 == e
    ensures r.colByteEnd >= 1
  {
    PositionsDecode(source, s);
    PositionsDecode(source, e - 1);
  }

  ghost predicate Covers(source: Text, r: KakHighlightRange, byte: nat) {
    exists s: nat, e: nat :: Spans(source, r, s, e) && s <= byte < e
  }

  /** The range between event `k - 1` and event `k`. */
  ghost predicate RangeOf(source: Text, events: seq<Event>, r: KakHighlightRange, k: nat) {
    && 0 < k < |events|
    && Spans(source, r, events[k - 1].offset, events[k].offset)
    && Top(StackAfter(events, k)) == Some(r.face)
  }

  /** Of the first `n` events, those that close a stretch with a highlight. */
  function Closing(events: seq<Event>, n: nat): seq<nat>
    requires n <= |events|
  {
    if n == 0 then []
    else if StackAfter(events, n - 1) == [] then Closing(events, n - 1)
    else Closing(events, n - 1) + [n - 1]
  }

  lemma {:induction false} ClosingIs(events: seq<Event>, n: nat)
    requires n <= |events|
    ensures forall k: nat :: k in Closing(events, n) <==> k < n && StackAfter(events, k) != []
    ensures forall i, j :: 0 <= i < j < |Closing(events, n)| ==> Closing(events, n)[i] < Closing(events, n)[j]
  {
    if n > 0 {
      ClosingIs(events, n - 1);
      var before := Closing(events, n - 1);
      assert forall i :: 0 <= i < |before| ==> before[i] in before;
    }
  }

  /** The ranges are those of the closing events, in order and without exception. */
  ghost predicate Swept(source: Text, events: seq<Event>, n: nat, ranges: seq<KakHighlightRange>)
    requires n <= |events|
  {
    && |ranges| == |Closing(events, n)|
    && forall i :: 0 <= i < |ranges| ==> RangeOf(source, events, ranges[i], Closing(events, n)[i])
  }

  /** Where a range ends that stops before `offset`: a column 0 is replaced by the end of the line before. */
  lemma EndOfRange(source: Text, offset: nat)
    requires 0 < offset <= |source|
    ensures var line := ByteToLine(source, offset);
            && line <= ByteToLine(source, |source|)
            && var col := offset - LineToByte(source, line);
               if col != 0 then col > 0 && Pos(line + 1, col) == FromTreeSitter(source, offset - 1)
               else
                 var before := ByteToLine(source, offset - 1);
                 && before <= ByteToLine(source, |source|)
                 && offset - LineToByte(source, before) > 0
                 && Pos(before + 1, offset - LineToByte(source, before)) == FromTreeSitter(source, offset - 1)
  {
    LineStartOf(source, offset);
    LineStartOf(source, offset - 1);
    PositionBefore(source, offset);
  }

  lemma SweptMore(source: Text, events: seq<Event>, n: nat, ranges: seq<KakHighlightRange>, r: KakHighlightRange)
    requires n < |events| && Swept(source, events, n, ranges)
    ensures StackAfter(events, n) == [] ==> Swept(source, events, n + 1, ranges)
    ensures StackAfter(events, n) != [] && RangeOf(source, events, r, n) ==> Swept(source, events, n + 1, ranges + [r])
  {
  }

  /** The range from the last position up to, and excluding, the byte at `offset`. */
  method CloseRange(source: Text, start: nat, startLine: nat, startCol: nat,
                    offset: nat, line: nat, col: nat, face: nat)
    returns (r: KakHighlightRange)
    requires start < offset <= |source|
    requires Pos(startLine + 1, startCol + 1) == FromTreeSitter(source, start)
    requires Pos(line + 1, col + 1) == FromTreeSitter(source, offset)
    ensures Spans(source, r, start, offset) && r.face == face
  {
    var endLine, endCol := line, col;
    EndOfRange(source, offset);
    // Kakoune has no column 0: look up the last column of the line before
    if endCol == 0 {
      endLine := ByteToLine(source, offset - 1);
      endCol := offset - LineToByte(source, endLine);
    }
    return KakHighlightRange(startLine, startCol, endLine, endCol, face);
  }

  /** The sweep over the events. */
  method FromTreeHouse(source: Text, events: seq<Event>) returns (hls: seq<KakHighlightRange>)
    requires WellFormed(source, events)
    ensures Swept(source, events, |events|, hls)
  {
    hls := [];
    var stack: seq<nat> := [];
    var lastPosition: (nat, nat, nat) := (0, 0, 0);
    var i := 0;
    while true
      invariant 0 <= i <= |events|
      invariant stack == StackAfter(events, i)
      invariant i > 0 ==>
                  lastPosition.0 == events[i - 1].offset
                  && Pos(lastPosition.1 + 1, lastPosition.2 + 1) == FromTreeSitter(source, lastPosition.0)
      invariant Swept(source, events, i, hls)
      decreases |events| - i
    {
      var offset := if i < |events| then events[i].offset else U32_MAX;
      if offset == U32_MAX {
        break;
      }

      LineStartOf(source, offset);
      var line := ByteToLine(source, offset);
      var col := offset - LineToByte(source, line);

      if stack != [] {
        var r := CloseRange(source, lastPosition.0, lastPosition.1, lastPosition.2, offset, line, col,
                            stack[|stack| - 1]);
        assert RangeOf(source, events, r, i);
        SweptMore(source, events, i, hls, r);
        hls := hls + [r];
      } else {
        SweptMore(source, events, i, hls, KakHighlightRange(0, 0, 0, 0, 0));
      }

      if events[i].Refresh? {
        stack := [];
      }
      stack := stack + events[i].highlights;
      lastPosition := (offset, line, col);
      i := i + 1;
    }
  }

  // ---------------------------------------------------------------- refinement

  lemma {:induction false} EventsUpToIs(events: seq<Event>, byte: nat, k: nat)
    requires forall i, j :: 0 <= i < j < |events| ==> events[i].offset < events[j].offset
    requires 0 < k <= |events| && events[k - 1].offset <= byte
    requires k < |events| ==> byte < events[k].offset
    ensures EventsUpTo(events, byte) == k
  {
    var n := |events| - 1;
    if k < |events| {
      assert events[n].offset > byte by {
        assert k == n || events[k].offset < events[n].offset;
      }
      EventsUpToIs(events[..n], byte, k);
    }
  }

  /** A byte lies between two neighbouring events, the ones that bound `EventsUpTo`. */
  lemma {:induction false} StretchOf(events: seq<Event>, byte: nat)
    requires forall i, j :: 0 <= i < j < |events| ==> events[i].offset < events[j].offset
    requires events != [] && events[0].offset <= byte < events[|events| - 1].offset
    ensures var k := EventsUpTo(events, byte);
            0 < k < |events| && events[k - 1].offset <= byte < events[k].offset
  {
    var n := |events| - 1;
    if events[n - 1].offset <= byte {
      EventsUpToIs(events, byte, n);
    } else {
      StretchOf(events[..n], byte);
    }
  }

  lemma SpansUnique(source: Text, r: KakHighlightRange, s: nat, e: nat, s': nat, e': nat)
    requires Spans(source, r, s, e) && Spans(source, r, s', e')
    ensures s == s' && e == e'
  {
    PositionsAreOrdered(source, s, s');
    PositionsAreOrdered(source, e - 1, e' - 1);
  }

  /** A range covers exactly the bytes of its stretch. */
  lemma CoversItsStretch(source: Text, events: seq<Event>, r: KakHighlightRange, k: nat, byte: nat)
    requires WellFormed(source, events) && RangeOf(source, events, r, k)
    ensures Covers(source, r, byte) <==> events[k - 1].offset <= byte < events[k].offset
  {
    if Covers(source, r, byte) {
      var s: nat, e: nat :| Spans(source, r, s, e) && s <= byte < e;
      SpansUnique(source, r, s, e, events[k - 1].offset, events[k].offset);
    }
  }

  /**
    The ranges of a sweep show the highlights: a byte between the first and the last event is covered if
    and only if it has a highlight, and whatever range covers it has that highlight's face.
   */
  lemma SweepShowsHighlights(source: Text, events: seq<Event>, ranges: seq<KakHighlightRange>, byte: nat)
    requires WellFormed(source, events) && Swept(source, events, |events|, ranges)
    requires events != [] && events[0].offset <= byte < events[|events| - 1].offset
    ensures HighlightOf(events, byte).Some? <==> exists i :: 0 <= i < |ranges| && Covers(source, ranges[i], byte)
    ensures forall i :: 0 <= i < |ranges| && Covers(source, ranges[i], byte) ==>
              HighlightOf(events, byte) == Some(ranges[i].face)
  {
    var closing := Closing(events, |events|);
    ClosingIs(events, |events|);
    StretchOf(events, byte);
    var k := EventsUpTo(events, byte);
    forall i | 0 <= i < |ranges| && Covers(source, ranges[i], byte)
      ensures HighlightOf(events, byte) == Some(ranges[i].face)
    {
      CoversItsStretch(source, events, ranges[i], closing[i], byte);
      EventsUpToIs(events, byte, closing[i]);
    }
    if HighlightOf(events, byte).Some? {
      assert StackAfter(events, k) != [];
      var i :| 0 <= i < |closing| && closing[i] == k;
      CoversItsStretch(source, events, ranges[i], k, byte);
    }
  }

  /** The ranges are disjoint and in the order of the text, and none covers a byte outside the events. */
  lemma SweepIsOrdered(source: Text, events: seq<Event>, ranges: seq<KakHighlightRange>,
                       i: nat, j: nat, b: nat, c: nat)
    requires WellFormed(source, events) && Swept(source, events, |events|, ranges)
    requires i < j < |ranges| && Covers(source, ranges[i], b) && Covers(source, ranges[j], c)
    ensures b < c
    ensures events[0].offset <= b && c < events[|events| - 1].offset
  {
    var closing := Closing(events, |events|);
    ClosingIs(events, |events|);
    CoversItsStretch(source, events, ranges[i], closing[i], b);
    CoversItsStretch(source, events, ranges[j], closing[j], c);
    OffsetsGrow(source, events, 0, closing[i] - 1);
    OffsetsGrow(source, events, closing[i], closing[j] - 1);
    OffsetsGrow(source, events, closing[j], |events| - 1);
  }

  lemma OffsetsGrow(source: Text, events: seq<Event>, k: nat, l: nat)
    requires WellFormed(source, events) && k <= l < |events|
    ensures events[k].offset <= events[l].offset
  {
  }
}
