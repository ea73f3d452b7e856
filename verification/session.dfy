/** The Kakoune sessions the server knows about. */
module Sessions {
  class SessionTracker {
    var sessions: set<string>

    constructor ()
      ensures sessions == {}
    {
      sessions := {};
    }

    method IsEmpty() returns (r: bool)
      ensures r == (sessions == {})
    {
      r := sessions == {};
    }

    method Tracks(session: string) returns (r: bool)
      ensures r == (session in sessions)
    {
      r := session in sessions;
    }

    method Track(session: string)
      modifies this
      ensures sessions == old(sessions) + {session}
    {
      sessions := sessions + {session};
    }

    method Untrack(session: string)
      modifies this
      ensures sessions == old(sessions) - {session}
    {
      sessions := sessions - {session};
    }
  }
}
