/**
  The real-time session store of src/stores/realTimeSessions.js: the id of the session being
  observed, its status as last reported by the telescope bridge, and two dictionaries keyed by
  session id, the login tokens and the image-capture flags.

  A JavaScript object key is a string, so the null id is the key "null"; the model keys the
  dictionaries by the id as an option, None standing for null.
 */
module RealTimeSessions {
  import opened Common
  import opened Json
  import ObsPortalData
  import FormatTime

  type SessionId = Option<int>

  /** `if (this.currentSessionId)`: null and 0 are falsy. */
  predicate IsTruthyId(id: SessionId)
  {
    id.Some? && id.value != 0
  }

  /** `sessionTokens[id] || ''`: the stored token, or the empty string when there is none. */
  function TokenFor(tokens: map<SessionId, string>, id: SessionId): (t: string)
    ensures id in tokens ==> t == tokens[id]
    ensures id !in tokens ==> t == ""
  {
    if id in tokens then tokens[id] else ""
  }

  /** `isCapturingImagesMap[id] || false`: the stored flag, or false. */
  function CapturingFor(flags: map<SessionId, bool>, id: SessionId): (b: bool)
    ensures b <==> id in flags && flags[id]
  {
    id in flags && flags[id]
  }

  /**
    Lines 53-55: a token is stored only when the session has none (an empty token counts as
    none), so a token once stored is never replaced.
   */
  function StoreTokenOnce(tokens: map<SessionId, string>, id: SessionId, token: string): (r: map<SessionId, string>)
    ensures TokenFor(tokens, id) != "" ==> r == tokens
    ensures TokenFor(tokens, id) == "" ==> r == tokens[id := token]
  {
    if TokenFor(tokens, id) == "" then tokens[id := token] else tokens
  }

  /** The token read back after storing is the old one if there was one, otherwise the new one. */
  lemma TokenAfterStore(tokens: map<SessionId, string>, id: SessionId, token: string)
    ensures TokenFor(StoreTokenOnce(tokens, id, token), id) == if TokenFor(tokens, id) != "" then TokenFor(tokens, id) else token
    ensures forall other :: other != id ==> TokenFor(StoreTokenOnce(tokens, id, token), other) == TokenFor(tokens, other)
  {
  }

  /** A second login response never changes the token the first one stored. */
  lemma SecondTokenIgnored(tokens: map<SessionId, string>, id: SessionId, first: string, second: string)
    requires first != ""
    ensures StoreTokenOnce(StoreTokenOnce(tokens, id, first), id, second) == StoreTokenOnce(tokens, id, first)
  {
    TokenAfterStore(tokens, id, first);
  }

  /** Lines 41-43 and 99-101: the current id's flag is written, and only when that id is truthy. */
  function SetFlagIfTruthy(flags: map<SessionId, bool>, id: SessionId, value: bool): (r: map<SessionId, bool>)
    ensures IsTruthyId(id) ==> id in r && r[id] == value
    ensures !IsTruthyId(id) ==> r == flags
    ensures forall k :: k != id ==> (k in r <==> k in flags) && (k in r ==> r[k] == flags[k])
  {
    if IsTruthyId(id) then flags[id := value] else flags
  }

  /** After an update the flag read for the current session is the value written, if the id is truthy. */
  lemma CaptureFlagReadBack(flags: map<SessionId, bool>, id: SessionId, value: bool)
    ensures IsTruthyId(id) ==> CapturingFor(SetFlagIfTruthy(flags, id, value), id) == value
    ensures !IsTruthyId(id) ==> CapturingFor(SetFlagIfTruthy(flags, id, value), id) == CapturingFor(flags, id)
  {
  }

  const DefaultInterval := 60000
  const ApproachingInterval := 10000
  const ActiveInterval := 1000

  /** `time <= 600 && time > 0`: a countdown within the last ten minutes; false for NaN. */
  predicate Approaching(time: Option<int>)
  {
    time.Some? && 0 < time.value <= 600
  }

  /**
    Lines 79-86: the delay before the next status poll, from the seconds left until the session
    starts (or ends), None for NaN, and the status the bridge last reported.
   */
  function NextInterval(time: Option<int>, status: string): (r: int)
    ensures r == ApproachingInterval <==> Approaching(time) && status == "INACTIVE"
    ensures r == ActiveInterval <==> status == "ACTIVE"
    ensures r == DefaultInterval <==> status != "ACTIVE" && !(Approaching(time) && status == "INACTIVE")
  {
    if time.Some? && time.value <= 600 && time.value > 0 && status == "INACTIVE" then ApproachingInterval
    else if status == "ACTIVE" then ActiveInterval
    else DefaultInterval
  }

  /**
    With the countdown of line 78: an inactive session starting between 1 and 601 seconds from now
    (the countdown is rounded down to whole seconds) is polled every ten seconds; an inactive one
    that has already started and ended, or whose countdown is NaN, at the default rate.
   */
  lemma PollingAroundStart(session: FormatTime.Session, now: int)
    ensures session.start.Some? && now + 1000 <= session.start.value < now + 601000 ==>
              NextInterval(FormatTime.CalculateSessionCountdown(session, now), "INACTIVE") == ApproachingInterval
    ensures !FormatTime.StartsLater(session, now) && (session.end.None? || session.end.value <= now) ==>
              NextInterval(FormatTime.CalculateSessionCountdown(session, now), "INACTIVE") == DefaultInterval
  {
    if FormatTime.StartsLater(session, now) {
      FormatTime.CountdownBeforeStart(session, now);
    }
  }

  /** The `currentSession` getter: the upcoming real-time session stored under the current id. */
  function CurrentSessionIn(upcoming: map<int, ObsPortalData.Observation>, id: SessionId): (r: Option<ObsPortalData.Observation>)
    ensures r.Some? <==> id.Some? && id.value in upcoming
    ensures r.Some? ==> r.value == upcoming[id.value]
  {
    if id.Some? && id.value in upcoming then Some(upcoming[id.value]) else None
  }

  /**
    After sorting a response, the getter finds, under the id of an upcoming real-time result, the
    first upcoming result with that id, when no earlier sort had filed one.
   */
  lemma CurrentSessionOfSorted(s: ObsPortalData.Sorted, results: seq<ObsPortalData.Observation>, now: int, i: nat)
    requires i < |results| && ObsPortalData.IsUpcoming(results[i], now) && results[i].id !in s.upcoming
    requires forall j :: 0 <= j < i ==> !(results[j].id == results[i].id && ObsPortalData.IsUpcoming(results[j], now))
    ensures CurrentSessionIn(ObsPortalData.SortAll(s, results, now).upcoming, Some(results[i].id)) == Some(results[i])
  {
    ObsPortalData.FirstUpcomingKept(s, results, now, i);
  }

  /**
    An id that no upcoming result of the response carries, and that was not filed before, finds
    no session; neither does the null id.
   */
  lemma NoCurrentSession(s: ObsPortalData.Sorted, results: seq<ObsPortalData.Observation>, now: int, id: SessionId)
    requires id.Some? ==> id.value !in s.upcoming
    requires id.Some? ==> forall j :: 0 <= j < |results| ==> !(results[j].id == id.value && ObsPortalData.IsUpcoming(results[j], now))
    ensures CurrentSessionIn(ObsPortalData.SortAll(s, results, now).upcoming, id) == None
  {
    if id.Some? {
      ObsPortalData.EntriesFromResults(s, results, now, id.value);
    }
  }

  class RealTimeSessionsStore {
    var currentSessionId: SessionId
    var currentStatus: string
    var sessionTokens: map<SessionId, string>
    var isCapturingImagesMap: map<SessionId, bool>
    var telescopeState: Json

    /** The initial state (lines 10-18); the poll timer is not part of this model. */
    constructor ()
      ensures currentSessionId == None && currentStatus == ""
      ensures sessionTokens == map[] && isCapturingImagesMap == map[] && telescopeState == JObj(map[])
    {
      currentSessionId := None;
      currentStatus := "";
      sessionTokens := map[];
      isCapturingImagesMap := map[];
      telescopeState := JObj(map[]);
    }

    /** `getTokenForCurrentSession` */
    function TokenForCurrentSession(): (t: string)
      reads this
    {
      TokenFor(sessionTokens, currentSessionId)
    }

    /** `isCapturingImagesForCurrentSession` */
    function IsCapturingImagesForCurrentSession(): (b: bool)
      reads this
    {
      CapturingFor(isCapturingImagesMap, currentSessionId)
    }

    /** `resetSessionState()`: the current session is no longer capturing; nothing else changes. */
    method ResetSessionState()
      modifies this
      ensures isCapturingImagesMap == SetFlagIfTruthy(old(isCapturingImagesMap), currentSessionId, false)
      ensures currentSessionId == old(currentSessionId) && currentStatus == old(currentStatus)
      ensures sessionTokens == old(sessionTokens) && telescopeState == old(telescopeState)
    {
      if currentSessionId.Some? && currentSessionId.value != 0 {
        isCapturingImagesMap := isCapturingImagesMap[currentSessionId := false];
      }
    }

    /** `updateImageCaptureState(isCapturing)` */
    method UpdateImageCaptureState(isCapturing: bool)
      modifies this
      ensures isCapturingImagesMap == SetFlagIfTruthy(old(isCapturingImagesMap), currentSessionId, isCapturing)
      ensures currentSessionId == old(currentSessionId) && currentStatus == old(currentStatus)
      ensures sessionTokens == old(sessionTokens) && telescopeState == old(telescopeState)
    {
      if currentSessionId.Some? && currentSessionId.value != 0 {
        isCapturingImagesMap := isCapturingImagesMap[currentSessionId := isCapturing];
      }
    }

    /** What `fetchSessionToken` does with the token of the login response (lines 53-55). */
    method StoreSessionToken(token: string)
      modifies this
      ensures sessionTokens == StoreTokenOnce(old(sessionTokens), currentSessionId, token)
      ensures currentSessionId == old(currentSessionId) && currentStatus == old(currentStatus)
      ensures isCapturingImagesMap == old(isCapturingImagesMap) && telescopeState == old(telescopeState)
    {
      if TokenForCurrentSession() == "" {
        sessionTokens := sessionTokens[currentSessionId := token];
      }
    }

    /** The interval `poll` chooses, given the countdown of the current session. */
    method ChooseNextInterval(time: Option<int>) returns (nextInterval: int)
      ensures nextInterval == NextInterval(time, currentStatus)
    {
      nextInterval := DefaultInterval;
      if time.Some? && time.value <= 600 && time.value > 0 && currentStatus == "INACTIVE" {
        nextInterval := ApproachingInterval;
      } else if currentStatus == "ACTIVE" {
        nextInterval := ActiveInterval;
      }
    }
  }
}
