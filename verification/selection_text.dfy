/** Selections as text: how the server prints them and reads them back. */
module SelectionText {
  import opened Options
  import opened Positions
  import opened Selections

  const USIZE_MAX: nat := 0xFFFF_FFFF_FFFF_FFFF

  // ---------------------------------------------------------------- numbers

  predicate IsDigit(c: char) {
    '0' <= c <= '9'
  }

  ghost predicate AllDigits(s: string) {
    forall i :: 0 <= i < |s| ==> IsDigit(s[i])
  }

  function Digit(d: nat): char
    requires d < 10
  {
    '0' + d as char
  }

  function PrintNat(n: nat): (s: string)
    ensures s != "" && AllDigits(s)
  {
    if n < 10 then [Digit(n)] else PrintNat(n / 10) + [Digit(n % 10)]
  }

  function Value(s: string): nat
    requires AllDigits(s)
  {
    if s == "" then 0 else Value(s[..|s| - 1]) * 10 + (s[|s| - 1] - '0') as nat
  }

  /** Accepts a leading plus sign; rejects signs alone, anything that is no digit, and overflow. */
  ghost function ParseUsize(s: string): Option<nat> {
    var digits := if s != "" && s[0] == '+' then s[1..] else s;
    if digits != "" && AllDigits(digits) && Value(digits) <= USIZE_MAX then Some(Value(digits)) else None
  }

  lemma {:induction false} PrintedValue(n: nat)
    ensures Value(PrintNat(n)) == n
  {
    if n >= 10 {
      PrintedValue(n / 10);
      var s := PrintNat(n);
      assert s[..|s| - 1] == PrintNat(n / 10);
    }
  }

  lemma NumberRoundTrip(n: nat)
    ensures ParseUsize(PrintNat(n)) == if n <= USIZE_MAX then Some(n) else None
  {
    PrintedValue(n);
    assert IsDigit(PrintNat(n)[0]);
  }

  /** A plus sign and leading zeros do not matter; nothing at all is no number. */
  lemma NumbersMayBePadded(n: nat)
    requires n <= USIZE_MAX
    ensures ParseUsize("+" + PrintNat(n)) == Some(n) && ParseUsize("0" + PrintNat(n)) == Some(n)
    ensures ParseUsize("") == None && ParseUsize("+") == None && ParseUsize("-" + PrintNat(n)) == None
  {
    PrintedValue(n);
    assert ("+" + PrintNat(n))[1..] == PrintNat(n);
    ZeroInFront(PrintNat(n));
    assert ("-" + PrintNat(n))[0] == '-' && !IsDigit('-');
  }

  lemma {:induction false} ZeroInFront(s: string)
    requires AllDigits(s)
    ensures AllDigits("0" + s) && Value("0" + s) == Value(s)
  {
    if s == "" {
      assert "0"[..0] == "";
    } else {
      var n := |s| - 1;
      assert ("0" + s)[..n + 1] == "0" + s[..n];
      ZeroInFront(s[..n]);
    }
  }

  // ---------------------------------------------------------------- splitting

  ghost predicate Free(s: string, c: char) {
    forall i :: 0 <= i < |s| ==> s[i] != c
  }

  /** The pieces between the separators; always at least one. */
  function Split(s: string, c: char): (pieces: seq<string>)
    ensures pieces != []
  {
    if s == "" then [""]
    else
      var rest := Split(s[1..], c);
      if s[0] == c then [""] + rest else [[s[0]] + rest[0]] + rest[1..]
  }

  function Rejoin(pieces: seq<string>, c: char): string {
    if pieces == [] then ""
    else if |pieces| == 1 then pieces[0]
    else pieces[0] + [c] + Rejoin(pieces[1..], c)
  }

  /** The pieces have no separator in them, and put together again they are the string. */
  lemma {:induction false} SplitRejoins(s: string, c: char)
    ensures Rejoin(Split(s, c), c) == s
    ensures forall i :: 0 <= i < |Split(s, c)| ==> Free(Split(s, c)[i], c)
  {
    if s != "" {
      SplitRejoins(s[1..], c);
      assert s == [s[0]] + s[1..];
      RejoinMore(Split(s[1..], c), s[0], c);
    }
  }

  lemma RejoinMore(rest: seq<string>, x: char, c: char)
    requires rest != [] && forall i :: 0 <= i < |rest| ==> Free(rest[i], c)
    ensures var all := if x == c then [""] + rest else [[x] + rest[0]] + rest[1..];
            && Rejoin(all, c) == [x] + Rejoin(rest, c)
            && forall i :: 0 <= i < |all| ==> Free(all[i], c)
  {
    if x == c {
      assert ([""] + rest)[1..] == rest;
    } else {
      var all := [[x] + rest[0]] + rest[1..];
      assert all[1..] == rest[1..];
      if |rest| > 1 {
        assert [x] + rest[0] + [c] + Rejoin(rest[1..], c) == [x] + (rest[0] + [c] + Rejoin(rest[1..], c));
      }
    }
  }

  lemma {:induction false} SplitOne(s: string, c: char)
    requires Free(s, c)
    ensures Split(s, c) == [s]
  {
    if s != "" {
      SplitOne(s[1..], c);
      assert s == [s[0]] + s[1..];
    }
  }

  lemma {:induction false} SplitTwo(a: string, c: char, b: string)
    requires Free(a, c) && Free(b, c)
    ensures Split(a + [c] + b, c) == [a, b]
  {
    var s := a + [c] + b;
    if a == "" {
      assert s[1..] == b;
      SplitOne(b, c);
    } else {
      assert s[1..] == a[1..] + [c] + b;
      SplitTwo(a[1..], c, b);
      assert a == [a[0]] + a[1..];
    }
  }

  /** Whitespace as far as it can occur between selections. */
  predicate IsSpace(c: char) {
    c == ' ' || '\t' <= c <= '\r'
  }

  ghost predicate NoSpace(s: string) {
    forall i :: 0 <= i < |s| ==> !IsSpace(s[i])
  }

  function WordLength(s: string): (n: nat)
    ensures n <= |s|
  {
    if s == "" || IsSpace(s[0]) then 0 else 1 + WordLength(s[1..])
  }

  /** The maximal runs without whitespace. */
  function Words(s: string): seq<string>
    decreases |s|
  {
    if s == "" then []
    else if IsSpace(s[0]) then Words(s[1..])
    else [s[..WordLength(s)]] + Words(s[WordLength(s)..])
  }

  lemma {:induction false} WordLengthOf(word: string, rest: string)
    requires NoSpace(word) && (rest == "" || IsSpace(rest[0]))
    ensures WordLength(word + rest) == |word|
  {
    if word == "" {
      assert word + rest == rest;
    } else {
      assert (word + rest)[1..] == word[1..] + rest;
      WordLengthOf(word[1..], rest);
    }
  }

  lemma FirstWord(word: string, rest: string)
    requires word != "" && NoSpace(word) && (rest == "" || IsSpace(rest[0]))
    ensures Words(word + rest) == [word] + Words(rest)
  {
    var s := word + rest;
    WordLengthOf(word, rest);
    assert !IsSpace(s[0]);
    assert s[..|word|] == word && s[|word|..] == rest;
  }

  lemma {:induction false} WordStops(a: string, c: char, b: string)
    requires IsSpace(c)
    ensures WordLength(a + [c] + b) == WordLength(a)
  {
    var s := a + [c] + b;
    if a == "" {
      assert s[0] == c;
    } else {
      assert s[0] == a[0] && s[1..] == a[1..] + [c] + b;
      WordStops(a[1..], c, b);
    }
  }

  /** Each of these characters separates words, and nothing else about it matters. */
  lemma {:induction false} SpaceSeparates(a: string, c: char, b: string)
    requires c in [' ', '\t', '\n', '\U{000B}', '\U{000C}', '\r']
    ensures Words(a + [c] + b) == Words(a) + Words(b)
    decreases |a|
  {
    var s := a + [c] + b;
    if a == "" {
      assert s[0] == c && s[1..] == b;
    } else if IsSpace(a[0]) {
      assert s[0] == a[0] && s[1..] == a[1..] + [c] + b;
      SpaceSeparates(a[1..], c, b);
    } else {
      var n := WordLength(a);
      WordStops(a, c, b);
      assert s[0] == a[0] && s[..n] == a[..n] && s[n..] == a[n..] + [c] + b;
      SpaceSeparates(a[n..], c, b);
      assert Words(a) == [a[..n]] + Words(a[n..]);
    }
  }

  // ---------------------------------------------------------------- positions and selections

  // Pieces that do not parse are skipped.

  ghost function ParsedNumbers(pieces: seq<string>): seq<nat> {
    if pieces == [] then []
    else match ParseUsize(pieces[0])
      case Some(n) => [n] + ParsedNumbers(pieces[1..])
      case None => ParsedNumbers(pieces[1..])
  }

  ghost function ParsePos(s: string): Option<Pos> {
    var parts := ParsedNumbers(Split(s, '.'));
    if |parts| >= 2 then Some(Pos(parts[0], parts[1])) else None
  }

  ghost function ParsedPositions(pieces: seq<string>): seq<Pos> {
    if pieces == [] then []
    else match ParsePos(pieces[0])
      case Some(p) => [p] + ParsedPositions(pieces[1..])
      case None => ParsedPositions(pieces[1..])
  }

  ghost function ParseSel(s: string): Option<Sel> {
    var parts := ParsedPositions(Split(s, ','));
    if |parts| >= 2 then Some(Sel(parts[0], parts[1])) else None
  }

  ghost function ParsedSels(words: seq<string>): seq<Sel> {
    if words == [] then []
    else match ParseSel(words[0])
      case Some(sel) => [sel] + ParsedSels(words[1..])
      case None => ParsedSels(words[1..])
  }

  ghost function ParseMany(s: string): seq<Sel> {
    ParsedSels(Words(s))
  }

  /** A word that is no selection is skipped, wherever it stands, and the others are read as if it were not there. */
  lemma {:induction false} OtherWordsAreSkipped(before: seq<string>, word: string, behind: seq<string>)
    ensures ParsedSels(before + [word] + behind)
            == ParsedSels(before) + (if ParseSel(word).Some? then [ParseSel(word).value] else []) + ParsedSels(behind)
  {
    var words := before + [word] + behind;
    if before == [] {
      assert words[1..] == behind;
    } else {
      assert words[1..] == before[1..] + [word] + behind;
      OtherWordsAreSkipped(before[1..], word, behind);
    }
  }

  function PrintPos(p: Pos): string {
    PrintNat(p.line) + "." + PrintNat(p.col)
  }

  function PrintSel(sel: Sel): string {
    PrintPos(sel.anchor) + "," + PrintPos(sel.cursor)
  }

  /** Line and column fit in the machine's unsigned integers. */
  predicate FitsPos(p: Pos) {
    p.line <= USIZE_MAX && p.col <= USIZE_MAX
  }

  predicate FitsSel(sel: Sel) {
    FitsPos(sel.anchor) && FitsPos(sel.cursor)
  }

  lemma TwoNumbers(a: string, b: string)
    ensures ParsedNumbers([a, b]) ==
              (if ParseUsize(a).Some? then [ParseUsize(a).value] else [])
              + (if ParseUsize(b).Some? then [ParseUsize(b).value] else [])
  {
    assert [a, b][1..] == [b] && [b][1..] == [];
    assert ParsedNumbers([b]) == if ParseUsize(b).Some? then [ParseUsize(b).value] else [];
  }

  /** A position is read back exactly when both numbers fit in a `usize`. */
  lemma PosRoundTrip(p: Pos)
    ensures ParsePos(PrintPos(p)) == Some(p) <==> FitsPos(p)
  {
    var a, b := PrintNat(p.line), PrintNat(p.col);
    assert Free(a, '.') && Free(b, '.');
    SplitTwo(a, '.', b);
    assert PrintPos(p) == a + ['.'] + b;
    TwoNumbers(a, b);
    NumberRoundTrip(p.line);
    NumberRoundTrip(p.col);
  }

  lemma PrintedPosChars(p: Pos)
    ensures Free(PrintPos(p), ',') && NoSpace(PrintPos(p)) && PrintPos(p) != ""
  {
    var a, b := PrintNat(p.line), PrintNat(p.col);
    forall i | 0 <= i < |PrintPos(p)|
      ensures PrintPos(p)[i] == '.' || IsDigit(PrintPos(p)[i])
    {
      if i < |a| {
        assert IsDigit(a[i]);
      } else if i > |a| {
        assert IsDigit(b[i - |a| - 1]);
      }
    }
  }

  lemma SelRoundTrip(sel: Sel)
    requires FitsSel(sel)
    ensures ParseSel(PrintSel(sel)) == Some(sel)
    ensures NoSpace(PrintSel(sel)) && PrintSel(sel) != ""
  {
    var a, b := PrintPos(sel.anchor), PrintPos(sel.cursor);
    PrintedPosChars(sel.anchor);
    PrintedPosChars(sel.cursor);
    SplitTwo(a, ',', b);
    assert PrintSel(sel) == a + [','] + b;
    PosRoundTrip(sel.anchor);
    PosRoundTrip(sel.cursor);
    TwoPositions(a, b);
  }

  /** Line before column, and anchor before cursor. */
  lemma PrintedForm()
    ensures PrintSel(Sel(Pos(1, 2), Pos(30, 4))) == "1.2,30.4"
  {
    assert PrintNat(3) == "3" && PrintNat(30 % 10) == "0";
    assert PrintNat(30) == PrintNat(3) + [Digit(0)];
  }

  lemma TwoPositions(a: string, b: string)
    requires ParsePos(a).Some? && ParsePos(b).Some?
    ensures ParsedPositions([a, b]) == [ParsePos(a).value, ParsePos(b).value]
  {
    assert [a, b][1..] == [b] && [b][1..] == [];
    assert ParsedPositions([b]) == [ParsePos(b).value];
  }

  // ---------------------------------------------------------------- the selection response

  /** Each word behind a space. */
  function Spaced(words: seq<string>): string {
    if words == [] then "" else " " + words[0] + Spaced(words[1..])
  }

  function Printed(sels: seq<Sel>): (words: seq<string>)
    ensures |words| == |sels| && forall i :: 0 <= i < |sels| ==> words[i] == PrintSel(sels[i])
  {
    seq(|sels|, i requires 0 <= i < |sels| => PrintSel(sels[i]))
  }

  lemma {:induction false} SpacedAppend(words: seq<string>, word: string)
    ensures Spaced(words + [word]) == Spaced(words) + " " + word
  {
    if words == [] {
      assert ([] + [word])[1..] == [];
      assert Spaced([word]) == " " + word + "";
    } else {
      assert (words + [word])[1..] == words[1..] + [word];
      SpacedAppend(words[1..], word);
    }
  }

  /** Pushing a space and then the next word, behind any head. */
  lemma SpacedStep(head: string, words: seq<string>, i: nat)
    requires i < |words|
    ensures head + Spaced(words[..i + 1]) == head + Spaced(words[..i]) + " " + words[i]
  {
    SpacedAppend(words[..i], words[i]);
    assert words[..i + 1] == words[..i] + [words[i]];
  }

  const SELECT := "select "

  /** The command that makes Kakoune select. */
  method SerializeSelections(sels: seq<Sel>) returns (resp: string)
    ensures resp == Response(sels)
  {
    if sels == [] {
      return "info -title tree-sitter 'no selection'\n";
    }
    resp := "select ";
    for i := 0 to |sels|
      invariant resp == "select " + Spaced(Printed(sels)[..i])
    {
      SpacedStep("select ", Printed(sels), i);
      resp := resp + " ";
      resp := resp + PrintSel(sels[i]);
    }
    assert Printed(sels)[..|sels|] == Printed(sels);
    resp := resp + "\n";
  }

  function Response(sels: seq<Sel>): string {
    if sels == [] then "info -title tree-sitter 'no selection'\n" else SELECT + Spaced(Printed(sels)) + "\n"
  }

  ghost predicate AreWords(words: seq<string>) {
    forall i :: 0 <= i < |words| ==> words[i] != "" && NoSpace(words[i])
  }

  lemma {:induction false} WordsOfSpaced(words: seq<string>)
    requires AreWords(words)
    ensures var s := Spaced(words) + "\n"; IsSpace(s[0]) && Words(s) == words
  {
    var s := Spaced(words) + "\n";
    if words == [] {
      assert s == "\n" && s[1..] == "";
    } else {
      WordsOfSpaced(words[1..]);
      var rest := Spaced(words[1..]) + "\n";
      assert s[1..] == words[0] + rest;
      FirstWord(words[0], rest);
    }
  }

  lemma {:induction false} ParsedSelsOfPrinted(sels: seq<Sel>)
    requires forall i :: 0 <= i < |sels| ==> FitsSel(sels[i])
    ensures ParsedSels(Printed(sels)) == sels
  {
    if sels != [] {
      assert Printed(sels)[1..] == Printed(sels[1..]);
      SelRoundTrip(sels[0]);
      ParsedSelsOfPrinted(sels[1..]);
    }
  }

  /** Every list of selections is read back from its printed form, in order. */
  lemma SelectionListRoundTrip(sels: seq<Sel>)
    requires forall i :: 0 <= i < |sels| ==> FitsSel(sels[i])
    ensures ParseMany(Spaced(Printed(sels)) + "\n") == sels
  {
    forall i | 0 <= i < |sels|
      ensures Printed(sels)[i] != "" && NoSpace(Printed(sels)[i])
    {
      SelRoundTrip(sels[i]);
    }
    WordsOfSpaced(Printed(sels));
    ParsedSelsOfPrinted(sels);
  }

  /** Reading what the response says behind the name of the command gives the selections it was made from. */
  lemma ResponseRoundTrip(sels: seq<Sel>)
    requires sels != [] && forall i :: 0 <= i < |sels| ==> FitsSel(sels[i])
    ensures SELECT <= Response(sels) && ParseMany(Response(sels)[|SELECT|..]) == sels
  {
    var body := Spaced(Printed(sels)) + "\n";
    assert Response(sels) == SELECT + body;
    SelectionListRoundTrip(sels);
  }
}
