/** Strings in lexicographic order, and sorting without repetition. */
module StringOrder {

  predicate Less(a: string, b: string) {
    if b == "" then false
    else if a == "" then true
    else if a[0] != b[0] then a[0] < b[0]
    else Less(a[1..], b[1..])
  }

  lemma {:induction false} LessIsTotal(a: string, b: string)
    ensures (if Less(a, b) then 1 else 0) + (if Less(b, a) then 1 else 0) + (if a == b then 1 else 0) == 1
  {
    if a != "" && b != "" && a[0] == b[0] {
      LessIsTotal(a[1..], b[1..]);
      assert a == [a[0]] + a[1..] && b == [b[0]] + b[1..];
    }
  }

  lemma {:induction false} LessIsTransitive(a: string, b: string, c: string)
    requires Less(a, b) && Less(b, c)
    ensures Less(a, c)
  {
    if a != "" && a[0] == b[0] && b[0] == c[0] {
      LessIsTransitive(a[1..], b[1..], c[1..]);
    }
  }

  /** A proper prefix comes first. */
  lemma {:induction false} PrefixIsLess(a: string, b: string)
    requires a < b
    ensures Less(a, b)
  {
    if a != "" {
      assert a[1..] < b[1..];
      PrefixIsLess(a[1..], b[1..]);
    }
  }

  // ---------------------------------------------------------------- sorting

  datatype Direction = Ascending | Descending

  predicate Precedes(direction: Direction, a: string, b: string) {
    match direction
    case Ascending => Less(a, b)
    case Descending => Less(b, a)
  }

  ghost predicate Sorted(direction: Direction, s: seq<string>) {
    forall i, j :: 0 <= i < j < |s| ==> Precedes(direction, s[i], s[j])
  }

  ghost predicate Distinct(s: seq<string>) {
    forall i, j :: 0 <= i < j < |s| ==> s[i] != s[j]
  }

  function Insert(direction: Direction, x: string, s: seq<string>): seq<string> {
    if s == [] || Precedes(direction, x, s[0]) then [x] + s
    else [s[0]] + Insert(direction, x, s[1..])
  }

  function Sort(direction: Direction, s: seq<string>): seq<string> {
    if s == [] then [] else Insert(direction, s[0], Sort(direction, s[1..]))
  }

  lemma {:induction false} InsertHolds(direction: Direction, x: string, s: seq<string>, y: string)
    ensures y in Insert(direction, x, s) <==> y == x || y in s
  {
    if s == [] || Precedes(direction, x, s[0]) {
    } else {
      InsertHolds(direction, x, s[1..], y);
      assert s == [s[0]] + s[1..];
    }
  }

  lemma {:induction false} InsertKeepsSorted(direction: Direction, x: string, s: seq<string>)
    requires Sorted(direction, s) && x !in s
    ensures Sorted(direction, Insert(direction, x, s))
  {
    if s == [] {
    } else if Precedes(direction, x, s[0]) {
      forall j | 0 < j < |s|
        ensures Precedes(direction, x, s[j])
      {
        PrecedesIsTransitive(direction, x, s[0], s[j]);
      }
    } else {
      LessIsTotal(x, s[0]);
      InsertKeepsSorted(direction, x, s[1..]);
      var rest := Insert(direction, x, s[1..]);
      forall j | 0 <= j < |rest|
        ensures Precedes(direction, s[0], rest[j])
      {
        InsertHolds(direction, x, s[1..], rest[j]);
      }
    }
  }

  lemma PrecedesIsTransitive(direction: Direction, a: string, b: string, c: string)
    requires Precedes(direction, a, b) && Precedes(direction, b, c)
    ensures Precedes(direction, a, c)
  {
    match direction
    case Ascending => LessIsTransitive(a, b, c);
    case Descending => LessIsTransitive(c, b, a);
  }

  lemma {:induction false} SortHolds(direction: Direction, s: seq<string>, y: string)
    ensures y in Sort(direction, s) <==> y in s
  {
    if s != [] {
      SortHolds(direction, s[1..], y);
      InsertHolds(direction, s[0], Sort(direction, s[1..]), y);
      assert s == [s[0]] + s[1..];
    }
  }

  lemma {:induction false} SortSorts(direction: Direction, s: seq<string>)
    requires Distinct(s)
    ensures Sorted(direction, Sort(direction, s))
  {
    if s != [] {
      SortSorts(direction, s[1..]);
      SortHolds(direction, s[1..], s[0]);
      InsertKeepsSorted(direction, s[0], Sort(direction, s[1..]));
    }
  }

  /** A sorted sequence is determined by its elements, so nothing of the order before sorting is left. */
  lemma {:induction false} SortedIsUnique(direction: Direction, s: seq<string>, t: seq<string>)
    requires Sorted(direction, s) && Sorted(direction, t)
    requires forall x :: x in s <==> x in t
    ensures s == t
  {
    assert |t| > 0 ==> t[0] in s;
    assert |s| > 0 ==> s[0] in t;
    if s != [] {
      HeadIsLeast(direction, s, t[0]);
      HeadIsLeast(direction, t, s[0]);
      forall x
        ensures x in s[1..] <==> x in t[1..]
      {
        TailHolds(direction, s, x);
        TailHolds(direction, t, x);
      }
      SortedIsUnique(direction, s[1..], t[1..]);
    }
  }

  lemma HeadIsLeast(direction: Direction, s: seq<string>, x: string)
    requires Sorted(direction, s) && x in s
    ensures x == s[0] || (Precedes(direction, s[0], x) && !Precedes(direction, x, s[0]))
  {
    LessIsTotal(x, s[0]);
  }

  lemma TailHolds(direction: Direction, s: seq<string>, x: string)
    requires Sorted(direction, s) && s != []
    ensures x in s[1..] <==> x in s && x != s[0]
  {
    LessIsTotal(s[0], s[0]);
    assert s == [s[0]] + s[1..];
  }

  lemma SortedIsDistinct(direction: Direction, s: seq<string>)
    requires Sorted(direction, s)
    ensures Distinct(s)
  {
    forall i, j | 0 <= i < j < |s|
      ensures s[i] != s[j]
    {
      LessIsTotal(s[i], s[j]);
    }
  }
}
