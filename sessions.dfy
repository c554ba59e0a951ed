/**
  The local sessions store of src/stores/sessions.js: the sessions the user has created, each
  given a fresh id from a counter, and the id of the current one.
 */
module Sessions {
  import opened Common
  import opened Json

  /** A stored session: its id and the other fields of the object it was made from. */
  datatype Session = Session(id: int, fields: map<string, Json>)

  /** The object `{ ...session, id }`: every field of `session`, with `id` overridden. */
  function SessionObject(s: Session): (j: Json)
    ensures j.JObj? && "id" in j.fields && j.fields["id"] == JNum(s.id as real)
    ensures forall k :: k in s.fields && k != "id" ==> k in j.fields && j.fields[k] == s.fields[k]
    ensures forall k :: k in j.fields ==> k == "id" || k in s.fields
  {
    JObj(s.fields["id" := JNum(s.id as real)])
  }

  /** The session line 22 builds from the argument and the counter; an `id` passed in is dropped. */
  function NewSession(session: map<string, Json>, id: int): (s: Session)
    ensures s.id == id && "id" !in s.fields
    ensures forall k :: k in session && k != "id" ==> k in s.fields && s.fields[k] == session[k]
    ensures forall k :: k in s.fields ==> k in session
  {
    Session(id, session - {"id"})
  }

  /** `sessions.find(session => session.id === id)`; a null id matches no stored session. */
  function Find(sessions: seq<Session>, id: Option<int>): (r: Option<Session>)
    ensures r.Some? ==> id.Some? && r.value in sessions && r.value.id == id.value
    ensures r.None? <==> id.None? || forall i :: 0 <= i < |sessions| ==> sessions[i].id != id.value
  {
    if sessions == [] || id.None? then None
    else if sessions[0].id == id.value then Some(sessions[0])
    else Find(sessions[1..], id)
  }

  /** `find` returns the first match: no earlier session carries the same id. */
  lemma {:induction false} FindFirst(sessions: seq<Session>, id: int, i: nat)
    requires i < |sessions| && sessions[i].id == id
    requires forall j :: 0 <= j < i ==> sessions[j].id != id
    ensures Find(sessions, Some(id)) == Some(sessions[i])
  {
    if i > 0 {
      assert forall j :: 0 <= j < i - 1 ==> sessions[1..][j] == sessions[j + 1];
      FindFirst(sessions[1..], id, i - 1);
    }
  }

  /** The ids are distinct and all below the next id the store will give out. */
  predicate IdsValid(sessions: seq<Session>, nextSessionId: int)
  {
    && (forall i, j :: 0 <= i < j < |sessions| ==> sessions[i].id != sessions[j].id)
    && (forall i :: 0 <= i < |sessions| ==> sessions[i].id < nextSessionId)
  }

  /**
    Adding a session keeps the ids distinct and below the counter, and the session just added is
    the one found under its id.
   */
  lemma AddKeepsIdsValid(sessions: seq<Session>, nextSessionId: int, session: map<string, Json>)
    requires IdsValid(sessions, nextSessionId)
    ensures IdsValid(sessions + [NewSession(session, nextSessionId)], nextSessionId + 1)
    ensures Find(sessions + [NewSession(session, nextSessionId)], Some(nextSessionId)) == Some(NewSession(session, nextSessionId))
  {
    var ss := sessions + [NewSession(session, nextSessionId)];
    FindFirst(ss, nextSessionId, |sessions|);
  }

  /** `currentSession`: the object of the first session with the current id, or `{}`. */
  function CurrentSessionObject(sessions: seq<Session>, currentSessionId: Option<int>): (j: Json)
    ensures j == JObj(map[]) <==> Find(sessions, currentSessionId).None?
    ensures Find(sessions, currentSessionId).Some? ==> j == SessionObject(Find(sessions, currentSessionId).value)
  {
    match Find(sessions, currentSessionId)
    case Some(s) => SessionObject(s)
    case None => JObj(map[])
  }

  class SessionsStore {
    var sessions: seq<Session>
    var currentSessionId: Option<int>
    var nextSessionId: int

    /** The initial state (lines 4-10). */
    constructor ()
      ensures sessions == [] && currentSessionId == None && nextSessionId == 0
      ensures Valid()
    {
      sessions := [];
      currentSessionId := None;
      nextSessionId := 0;
    }

    predicate Valid()
      reads this
    {
      IdsValid(sessions, nextSessionId)
    }

    /** The `currentSession` getter. */
    function CurrentSession(): (j: Json)
      reads this
    {
      CurrentSessionObject(sessions, currentSessionId)
    }

    /**
      `addSession(session)`: the session, with the counter as its id, is appended; the counter
      goes up by one and the new session becomes the current one.
     */
    method AddSession(session: map<string, Json>)
      modifies this
      ensures sessions == old(sessions) + [NewSession(session, old(nextSessionId))]
      ensures nextSessionId == old(nextSessionId) + 1
      ensures currentSessionId == Some(old(nextSessionId))
      ensures old(Valid()) ==> Valid()
      ensures old(Valid()) ==> CurrentSession() == SessionObject(NewSession(session, old(nextSessionId)))
    {
      ghost var before := sessions;
      var newSession := NewSession(session, nextSessionId);
      sessions := sessions + [newSession];
      nextSessionId := nextSessionId + 1;
      currentSessionId := Some(newSession.id);
      if IdsValid(before, nextSessionId - 1) {
        AddKeepsIdsValid(before, nextSessionId - 1, session);
      }
    }
  }
}
