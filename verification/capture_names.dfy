/** From a capture name to the face that paints it: the longest configured group that is a prefix. */
module CaptureNames {
  import opened Options
  import opened StringOrder

  function Replace(s: string, from: set<char>, to: char): (r: string)
    ensures |r| == |s|
    ensures forall i :: 0 <= i < |s| ==> r[i] == if s[i] in from then to else s[i]
  {
    if s == [] then [] else [if s[0] in from then to else s[0]] + Replace(s[1..], from, to)
  }

  datatype Face = Face(name: string)

  function FromCaptureGroup(group: string): Face {
    Face(Replace(group, {'.'}, '_'))
  }

  /** The index of the first group that is a prefix of the name. */
  function Position(groups: seq<string>, name: string): Option<nat> {
    if groups == [] then None
    else if groups[0] <= name then Some(0)
    else match Position(groups[1..], name)
      case None => None
      case Some(i) => Some(i + 1)
  }

  /** The configured groups, in the order some iteration of the set gave them, made ready for lookup. */
  function HighlightNames(listing: seq<string>): seq<string> {
    Sort(Descending, listing)
  }

  function Faces(names: seq<string>): (faces: seq<Face>)
    ensures |faces| == |names|
    ensures forall i :: 0 <= i < |names| ==> faces[i] == FromCaptureGroup(names[i])
  {
    seq(|names|, i requires 0 <= i < |names| => FromCaptureGroup(names[i]))
  }

  lemma {:induction false} PositionIsFirst(groups: seq<string>, name: string)
    ensures match Position(groups, name)
            case None => forall i :: 0 <= i < |groups| ==> !(groups[i] <= name)
            case Some(i) => i < |groups| && groups[i] <= name && forall j :: 0 <= j < i ==> !(groups[j] <= name)
  {
    if groups != [] && !(groups[0] <= name) {
      PositionIsFirst(groups[1..], name);
      forall j | 0 <= j < |groups|
        ensures groups[j] == if j == 0 then groups[0] else groups[1..][j - 1]
      {
      }
    }
  }

  lemma PrefixesNest(a: string, b: string, name: string)
    requires a <= name && b <= name && |a| <= |b|
    ensures a <= b
  {
    assert a == name[..|a|] && b == name[..|b|];
    assert b[..|a|] == a;
  }

  /** A longer prefix of the same name stands earlier in descending order. */
  lemma LongerStandsEarlier(names: seq<string>, i: nat, j: nat, name: string)
    requires Sorted(Descending, names)
    requires i < |names| && j < |names| && names[i] <= name && names[j] <= name
    requires i <= j
    ensures names[j] <= names[i]
  {
    if |names[i]| < |names[j]| {
      PrefixesNest(names[i], names[j], name);
      PrefixIsLess(names[i], names[j]);
      LessIsTotal(names[i], names[j]);
      assert false;
    }
    PrefixesNest(names[j], names[i], name);
  }

  /**
   * A capture is painted with the face of the longest configured group that is a prefix of its name,
   * and left unpainted exactly when no configured group is one.
   */
  lemma FirstMatchIsLongest(listing: seq<string>, name: string)
    requires Distinct(listing)
    ensures var names := HighlightNames(listing);
            match Position(names, name)
            case None => forall g :: g in listing ==> !(g <= name)
            case Some(i) =>
              && i < |Faces(names)| && names[i] in listing && names[i] <= name
              && (forall g :: g in listing && g <= name ==> g <= names[i])
              && Faces(names)[i] == FromCaptureGroup(names[i])
  {
    var names := HighlightNames(listing);
    PositionIsFirst(names, name);
    SortSorts(Descending, listing);
    forall g | g in listing && g <= name
      ensures Position(names, name).Some? && g <= names[Position(names, name).value]
    {
      SortHolds(Descending, listing, g);
      var j :| 0 <= j < |names| && names[j] == g;
      LongerStandsEarlier(names, Position(names, name).value, j, name);
    }
    if Position(names, name).Some? {
      SortHolds(Descending, listing, names[Position(names, name).value]);
    }
  }

  /** The order in which the set of groups is iterated decides neither the names nor the faces. */
  lemma IterationOrderIsLost(listing: seq<string>, other: seq<string>)
    requires Distinct(listing) && Distinct(other)
    requires forall g :: g in listing <==> g in other
    ensures HighlightNames(listing) == HighlightNames(other)
  {
    SortSorts(Descending, listing);
    SortSorts(Descending, other);
    forall g
      ensures g in HighlightNames(listing) <==> g in HighlightNames(other)
    {
      SortHolds(Descending, listing, g);
      SortHolds(Descending, other, g);
    }
    SortedIsUnique(Descending, HighlightNames(listing), HighlightNames(other));
  }

  /** A face is named after its group, with underscores for the dots and everything else as it is. */
  lemma FaceNames(group: string, i: nat)
    requires i < |group|
    ensures var name := FromCaptureGroup(group).name;
            && |name| == |group| && name[i] != '.'
            && (group[i] != '.' ==> name[i] == group[i])
            && (group[i] == '.' ==> name[i] == '_')
  {
  }
}
