/** Poll tokens: recycled ones are given out first, last recycled first. */
module Allocation {
  type Token = nat

  /** Wakes the poll loop. */
  const WAKE_TOKEN: Token := 0

  const UNIX_LISTENER_TOKEN: Token := 1

  const FIRST_TOKEN: Token := 2

  datatype TokenState = TokenState(next: Token, free: seq<Token>)

  const NO_TOKENS := TokenState(FIRST_TOKEN, [])

  function CreateToken(s: TokenState): (r: (TokenState, Token)) {
    if s.free == [] then (s.(next := s.next + 1), s.next)
    else (s.(free := s.free[..|s.free| - 1]), s.free[|s.free| - 1])
  }

  function RecycleToken(s: TokenState, t: Token): TokenState {
    s.(free := s.free + [t])
  }

  /** No token is free twice, and every free token has been given out before. */
  ghost predicate WellFormed(s: TokenState) {
    && FIRST_TOKEN <= s.next
    && (forall i :: 0 <= i < |s.free| ==> FIRST_TOKEN <= s.free[i] < s.next)
    && (forall i, j :: 0 <= i < j < |s.free| ==> s.free[i] != s.free[j])
  }

  /** Tokens in use by somebody: given out, and not free. */
  ghost predicate InUse(s: TokenState, t: Token) {
    FIRST_TOKEN <= t < s.next && t !in s.free
  }

  /** Creating a token puts exactly one more token in use, one that nobody was using. */
  lemma CreateTakesAnUnusedToken(s: TokenState)
    requires WellFormed(s)
    ensures var (s', t) := CreateToken(s);
            && WellFormed(s')
            && !InUse(s, t)
            && (forall u :: InUse(s', u) <==> InUse(s, u) || u == t)
            && s'.next - |s'.free| == s.next - |s.free| + 1
  {
    var (s', t) := CreateToken(s);
    if s.free != [] {
      var last := |s.free| - 1;
      assert s.free == s'.free + [s.free[last]];
      assert forall u :: u in s.free <==> u in s'.free || u == t;
    }
  }

  /** Recycling is the inverse: exactly that token leaves use, and it is the next one given out. */
  lemma RecycleReturnsTheToken(s: TokenState, t: Token)
    requires WellFormed(s) && InUse(s, t)
    ensures var s' := RecycleToken(s, t);
            && WellFormed(s')
            && (forall u :: InUse(s', u) <==> InUse(s, u) && u != t)
            && CreateToken(s') == (s, t)
  {
    var s' := RecycleToken(s, t);
    assert forall u :: u in s'.free <==> u in s.free || u == t;
    assert s'.free[..|s'.free| - 1] == s.free;
  }

  class Tokens {
    var next: Token
    var freeList: seq<Token>

    function State(): TokenState
      reads this
    {
      TokenState(next, freeList)
    }

    constructor ()
      ensures State() == NO_TOKENS
    {
      next := FIRST_TOKEN;
      freeList := [];
    }

    method Create() returns (t: Token)
      modifies this
      ensures (State(), t) == CreateToken(old(State()))
    {
      if freeList == [] {
        t := next;
        next := next + 1;
      } else {
        t := freeList[|freeList| - 1];
        freeList := freeList[..|freeList| - 1];
      }
    }

    method Recycle(t: Token)
      modifies this
      ensures State() == RecycleToken(old(State()), t)
    {
      freeList := freeList + [t];
    }
  }
}
