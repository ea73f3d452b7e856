/** Highlight ranges as text: what the server prints is what Kakoune reads. */
module HighlightText {
  import opened Options
  import opened Positions
  import opened Selections
  import opened SelectionText
  import opened HighlightSweep
  import Substrings
  import opened CaptureNames

  /** Both ends 1-based and inclusive; the end column needs no correction, the sweep has made it. */
  function PrintRange(faces: seq<Face>, r: KakHighlightRange): string
    requires r.face < |faces|
  {
    PrintNat(r.lineStart + 1) + "." + PrintNat(r.colByteStart + 1) + ","
    + PrintNat(r.lineEnd + 1) + "." + PrintNat(r.colByteEnd) + "|" + faces[r.face].name
  }

  /** Kakoune's side: a selection before the first bar, a face after it. */
  ghost function ReadRange(s: string): Option<(Sel, string)> {
    match Substrings.Find(s, "|")
    case None => None
    case Some(i) =>
      match ParseSel(s[..i])
      case None => None
      case Some(sel) => Some((sel, s[i + 1..]))
  }

  lemma {:induction false} LinesWithinBytes(text: Text, byte: nat)
    requires byte <= |text|
    ensures ByteToLine(text, byte) <= byte
  {
    if byte > 0 {
      LinesWithinBytes(text, byte - 1);
    }
  }

  lemma PositionFits(source: Text, byte: nat)
    requires byte <= |source| < U32_MAX
    ensures FitsPos(FromTreeSitter(source, byte))
  {
    LinesWithinBytes(source, byte);
    LineStartOf(source, byte);
  }

  lemma PrintedSelHasNoBar(sel: Sel)
    ensures forall i :: 0 <= i < |PrintSel(sel)| ==> PrintSel(sel)[i] != '|'
  {
    PrintedPosHasNoBar(sel.anchor);
    PrintedPosHasNoBar(sel.cursor);
  }

  lemma PrintedPosHasNoBar(p: Pos)
    ensures forall i :: 0 <= i < |PrintPos(p)| ==> PrintPos(p)[i] != '|'
  {
    var a, b := PrintNat(p.line), PrintNat(p.col);
    assert forall i :: 0 <= i < |a| ==> IsDigit(a[i]);
    assert forall i :: 0 <= i < |b| ==> IsDigit(b[i]);
  }

  lemma PrintedIsSelBarFace(faces: seq<Face>, r: KakHighlightRange)
    requires r.face < |faces|
    ensures PrintRange(faces, r) == PrintSel(Sel(StartPos(r), EndPos(r))) + "|" + faces[r.face].name
  {
    var a, b := PrintNat(r.lineStart + 1), PrintNat(r.colByteStart + 1);
    var c, d := PrintNat(r.lineEnd + 1), PrintNat(r.colByteEnd);
    assert a + "." + b + "," + c + "." + d == (a + "." + b) + "," + (c + "." + d);
  }

  lemma FirstBar(head: string, tail: string)
    requires forall i :: 0 <= i < |head| ==> head[i] != '|'
    ensures Substrings.Find(head + "|" + tail, "|") == Some(|head|)
  {
    var s := head + "|" + tail;
    assert Substrings.OccursAt(s, "|", |head|);
    forall j | 0 <= j < |head|
      ensures !Substrings.OccursAt(s, "|", j)
    {
      assert s[j..j + 1][0] == head[j] != "|"[0];
    }
    Substrings.FindIs(s, "|", |head|);
  }

  /** Reading a printed range gives the positions of its first and its last byte, and its face. */
  lemma RangeRoundTrip(source: Text, faces: seq<Face>, r: KakHighlightRange, s: nat, e: nat)
    requires |source| < U32_MAX && Spans(source, r, s, e) && r.face < |faces|
    ensures ReadRange(PrintRange(faces, r))
            == Some((Sel(FromTreeSitter(source, s), FromTreeSitter(source, e - 1)), faces[r.face].name))
  {
    var sel := Sel(StartPos(r), EndPos(r));
    var head, face := PrintSel(sel), faces[r.face].name;
    PrintedIsSelBarFace(faces, r);
    PrintedSelHasNoBar(sel);
    FirstBar(head, face);
    var text := head + "|" + face;
    assert text[..|head|] == head && text[|head| + 1..] == face;
    PositionFits(source, s);
    PositionFits(source, e - 1);
    SelRoundTrip(sel);
  }

  // ---------------------------------------------------------------- the highlight response

  function PrintedRanges(faces: seq<Face>, ranges: seq<KakHighlightRange>): (words: seq<string>)
    requires forall i :: 0 <= i < |ranges| ==> ranges[i].face < |faces|
    ensures |words| == |ranges| && forall i :: 0 <= i < |ranges| ==> words[i] == PrintRange(faces, ranges[i])
  {
    seq(|ranges|, i requires 0 <= i < |ranges| => PrintRange(faces, ranges[i]))
  }

  method SerializeHighlights(faces: seq<Face>, ranges: seq<KakHighlightRange>) returns (resp: string)
    requires forall i :: 0 <= i < |ranges| ==> ranges[i].face < |faces|
    ensures resp == "set buffer tree_sitter_hl_ranges %val{timestamp} " + Spaced(PrintedRanges(faces, ranges)) + "\n"
  {
    var head := "set buffer tree_sitter_hl_ranges %val{timestamp} ";
    ghost var words := PrintedRanges(faces, ranges);
    resp := head;
    for i := 0 to |ranges|
      invariant resp == head + Spaced(words[..i])
    {
      SpacedStep(head, words, i);
      resp := resp + " ";
      resp := resp + PrintRange(faces, ranges[i]);
    }
    assert words[..|ranges|] == words;
    resp := resp + "\n";
  }

  ghost predicate SpansSome(source: Text, r: KakHighlightRange) {
    exists s: nat, e: nat :: Spans(source, r, s, e)
  }

  /**
   * The words of a highlight response are the printed ranges, in order, and each is read back as the
   * range it was, provided that no face has whitespace in its name.
   */
  lemma HighlightsRoundTrip(source: Text, faces: seq<Face>, ranges: seq<KakHighlightRange>)
    requires |source| < U32_MAX
    requires forall i :: 0 <= i < |faces| ==> NoSpace(faces[i].name)
    requires forall i :: 0 <= i < |ranges| ==> ranges[i].face < |faces| && SpansSome(source, ranges[i])
    ensures var words := Words(Spaced(PrintedRanges(faces, ranges)) + "\n");
            && |words| == |ranges|
            && forall i :: 0 <= i < |ranges| ==>
                 ReadRange(words[i])
                 == Some((Sel(StartPos(ranges[i]), EndPos(ranges[i])), faces[ranges[i].face].name))
  {
    var words := PrintedRanges(faces, ranges);
    forall i | 0 <= i < |ranges|
      ensures words[i] != "" && NoSpace(words[i])
      ensures ReadRange(words[i])
              == Some((Sel(StartPos(ranges[i]), EndPos(ranges[i])), faces[ranges[i].face].name))
    {
      PrintedRangeIsAWord(faces, ranges[i]);
      var s: nat, e: nat :| Spans(source, ranges[i], s, e);
      RangeRoundTrip(source, faces, ranges[i], s, e);
    }
    WordsOfSpaced(words);
  }

  lemma PrintedRangeIsAWord(faces: seq<Face>, r: KakHighlightRange)
    requires r.face < |faces| && NoSpace(faces[r.face].name)
    ensures PrintRange(faces, r) != "" && NoSpace(PrintRange(faces, r))
  {
    PrintedIsSelBarFace(faces, r);
    PrintedPosChars(StartPos(r));
    PrintedPosChars(EndPos(r));
    assert NoSpace(PrintSel(Sel(StartPos(r), EndPos(r))));
  }
}
