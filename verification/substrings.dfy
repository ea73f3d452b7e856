/** Searching a string for another one. */
module Substrings {
  import opened Options

  predicate OccursAt(hay: string, needle: string, i: nat) {
    i + |needle| <= |hay| && hay[i..i + |needle|] == needle
  }

  ghost predicate FirstAt(hay: string, needle: string, i: nat) {
    && OccursAt(hay, needle, i)
    && forall j: nat :: j < i ==> !OccursAt(hay, needle, j)
  }

  function FindFrom(hay: string, needle: string, i: nat): (r: Option<nat>)
    ensures r.Some? ==> r.value + |needle| <= |hay|
    decreases |hay| - i
  {
    if i + |needle| > |hay| then None
    else if OccursAt(hay, needle, i) then Some(i)
    else FindFrom(hay, needle, i + 1)
  }

  /** Byte index of the leftmost occurrence. */
  function Find(hay: string, needle: string): (r: Option<nat>)
    ensures r.Some? ==> r.value + |needle| <= |hay|
  {
    FindFrom(hay, needle, 0)
  }

  lemma {:induction false} FindsFrom(hay: string, needle: string, i: nat)
    requires forall j: nat :: j < i ==> !OccursAt(hay, needle, j)
    ensures match FindFrom(hay, needle, i)
            case Some(k) => FirstAt(hay, needle, k)
            case None => forall j: nat :: !OccursAt(hay, needle, j)
    decreases |hay| - i
  {
    if i + |needle| <= |hay| && !OccursAt(hay, needle, i) {
      FindsFrom(hay, needle, i + 1);
    }
  }

  lemma FindsFirst(hay: string, needle: string)
    ensures match Find(hay, needle)
            case Some(k) => FirstAt(hay, needle, k)
            case None => forall j: nat :: !OccursAt(hay, needle, j)
  {
    FindsFrom(hay, needle, 0);
  }

  lemma FindIs(hay: string, needle: string, i: nat)
    requires FirstAt(hay, needle, i)
    ensures Find(hay, needle) == Some(i)
  {
    FindsFirst(hay, needle);
  }
}
