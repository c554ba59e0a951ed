/**
  The observation-portal store of src/stores/obsPortalData.js: the observations of the user's
  last query, sorted into the completed ones and the upcoming real-time sessions, each
  dictionary keyed by observation id.

  Times are milliseconds since the epoch; `sortResponseData` compares ISO strings of
  `new Date(result.end)` and of the current time, which orders them as the instants for
  four-digit years (0000 to 9999); the model compares the instants.
 */
module ObsPortalData {
  import opened Json

  /** One result of the observations query; `record` is the whole object the store keeps. */
  datatype Observation = Observation(id: int, state: string, observationType: string, end: int, record: Json)

  /** Line 24: completed, or a real-time session that has ended. */
  predicate IsCompleted(r: Observation, now: int)
  {
    r.state == "COMPLETED" || (r.observationType == "REAL_TIME" && r.end < now)
  }

  /** Line 28: a real-time session that is not completed and has not ended yet. */
  predicate IsUpcoming(r: Observation, now: int)
  {
    !IsCompleted(r, now) && r.observationType == "REAL_TIME" && r.end > now
  }

  /** The two dictionaries `sortResponseData` fills. */
  datatype Sorted = Sorted(completed: map<int, Observation>, upcoming: map<int, Observation>)

  /** `m` holds everything `m0` held, under the same ids. */
  predicate Extends(m: map<int, Observation>, m0: map<int, Observation>)
  {
    forall id :: id in m0 ==> id in m && m[id] == m0[id]
  }

  /**
    `if (!m[id]) m[id] = r`: a stored observation is an object, so truthy, and is never
    replaced; the id gains an entry, which is r when it had none.
   */
  function KeepFirst(m: map<int, Observation>, r: Observation): (m': map<int, Observation>)
    ensures Extends(m', m) && m'.Keys == m.Keys + {r.id}
    ensures r.id !in m ==> m'[r.id] == r
  {
    if r.id in m then m else m[r.id := r]
  }

  /**
    What one result does to the dictionaries (lines 23-32): neither loses or changes an entry,
    and the result's id is added to the dictionary of its class, if it has one.
   */
  function Step(s: Sorted, r: Observation, now: int): (s': Sorted)
    ensures Extends(s'.completed, s.completed) && Extends(s'.upcoming, s.upcoming)
    ensures s'.completed.Keys == s.completed.Keys + (if IsCompleted(r, now) then {r.id} else {})
    ensures s'.upcoming.Keys == s.upcoming.Keys + (if IsUpcoming(r, now) then {r.id} else {})
  {
    if IsCompleted(r, now) then s.(completed := KeepFirst(s.completed, r))
    else if IsUpcoming(r, now) then s.(upcoming := KeepFirst(s.upcoming, r))
    else s
  }

  /**
    The dictionaries after the results, in order, starting from s. Both only grow: an entry,
    once made, is never overwritten.
   */
  function SortAll(s: Sorted, results: seq<Observation>, now: int): (s': Sorted)
    ensures Extends(s'.completed, s.completed) && Extends(s'.upcoming, s.upcoming)
  {
    if results == [] then s else Step(SortAll(s, results[..|results| - 1], now), results[|results| - 1], now)
  }

  /** A result is never both completed and upcoming. */
  lemma AtMostOneDictionary(r: Observation, now: int)
    ensures !(IsCompleted(r, now) && IsUpcoming(r, now))
    ensures r.state == "COMPLETED" ==> IsCompleted(r, now)
  {
  }

  /** A non-completed normal observation, and a real-time one ending exactly now, go nowhere. */
  lemma NeitherDictionary(s: Sorted, r: Observation, now: int)
    requires r.state != "COMPLETED"
    requires r.observationType != "REAL_TIME" || r.end == now
    ensures Step(s, r, now) == s
  {
  }

  /** Every completed result has an entry under its id, and every upcoming one likewise. */
  lemma {:induction false} EveryResultFiled(s: Sorted, results: seq<Observation>, now: int, i: nat)
    requires i < |results|
    ensures IsCompleted(results[i], now) ==> results[i].id in SortAll(s, results, now).completed
    ensures IsUpcoming(results[i], now) ==> results[i].id in SortAll(s, results, now).upcoming
  {
    var n := |results| - 1;
    if i < n {
      EveryResultFiled(s, results[..n], now, i);
    }
  }

  /**
    A new completed entry is the first completed result with that id: later results with the
    same id do not replace it.
   */
  lemma {:induction false} FirstCompletedKept(s: Sorted, results: seq<Observation>, now: int, i: nat)
    requires i < |results| && IsCompleted(results[i], now) && results[i].id !in s.completed
    requires forall j :: 0 <= j < i ==> !(results[j].id == results[i].id && IsCompleted(results[j], now))
    ensures results[i].id in SortAll(s, results, now).completed
    ensures SortAll(s, results, now).completed[results[i].id] == results[i]
  {
    var n := |results| - 1;
    var prefix := results[..n];
    if i < n {
      assert prefix[i] == results[i];
      assert forall j :: 0 <= j < i ==> prefix[j] == results[j];
      FirstCompletedKept(s, prefix, now, i);
    } else {
      assert forall j :: 0 <= j < n ==> prefix[j] == results[j];
      NotYetFiled(s, prefix, now, results[i]);
    }
  }

  /** An id no completed result of the prefix carries is still missing from the completed entries. */
  lemma {:induction false} NotYetFiled(s: Sorted, results: seq<Observation>, now: int, r: Observation)
    requires r.id !in s.completed
    requires forall j :: 0 <= j < |results| ==> !(results[j].id == r.id && IsCompleted(results[j], now))
    ensures r.id !in SortAll(s, results, now).completed
  {
    if results != [] {
      NotYetFiled(s, results[..|results| - 1], now, r);
    }
  }

  /** Likewise a new upcoming entry is the first upcoming result with that id. */
  lemma {:induction false} FirstUpcomingKept(s: Sorted, results: seq<Observation>, now: int, i: nat)
    requires i < |results| && IsUpcoming(results[i], now) && results[i].id !in s.upcoming
    requires forall j :: 0 <= j < i ==> !(results[j].id == results[i].id && IsUpcoming(results[j], now))
    ensures results[i].id in SortAll(s, results, now).upcoming
    ensures SortAll(s, results, now).upcoming[results[i].id] == results[i]
  {
    var n := |results| - 1;
    var prefix := results[..n];
    if i < n {
      assert prefix[i] == results[i];
      assert forall j :: 0 <= j < i ==> prefix[j] == results[j];
      FirstUpcomingKept(s, prefix, now, i);
    } else {
      assert forall j :: 0 <= j < n ==> prefix[j] == results[j];
      NotYetUpcoming(s, prefix, now, results[i]);
    }
  }

  lemma {:induction false} NotYetUpcoming(s: Sorted, results: seq<Observation>, now: int, r: Observation)
    requires r.id !in s.upcoming
    requires forall j :: 0 <= j < |results| ==> !(results[j].id == r.id && IsUpcoming(results[j], now))
    ensures r.id !in SortAll(s, results, now).upcoming
  {
    if results != [] {
      NotYetUpcoming(s, results[..|results| - 1], now, r);
    }
  }

  /** Every entry either was there before or comes from a result of this response, filed in its class. */
  lemma {:induction false} EntriesFromResults(s: Sorted, results: seq<Observation>, now: int, id: int)
    ensures id in SortAll(s, results, now).completed ==>
              id in s.completed || exists j :: 0 <= j < |results| && results[j].id == id && IsCompleted(results[j], now)
    ensures id in SortAll(s, results, now).upcoming ==>
              id in s.upcoming || exists j :: 0 <= j < |results| && results[j].id == id && IsUpcoming(results[j], now)
  {
    if results != [] {
      var n := |results| - 1;
      EntriesFromResults(s, results[..n], now, id);
      if id in SortAll(s, results[..n], now).completed {
        assert forall j :: 0 <= j < n ==> results[..n][j] == results[j];
      }
      if id in SortAll(s, results[..n], now).upcoming {
        assert forall j :: 0 <= j < n ==> results[..n][j] == results[j];
      }
    }
  }

  /** Once every result has been filed, filing it again changes nothing. */
  lemma {:induction false} SortedAlready(s: Sorted, results: seq<Observation>, now: int)
    requires forall j :: 0 <= j < |results| && IsCompleted(results[j], now) ==> results[j].id in s.completed
    requires forall j :: 0 <= j < |results| && IsUpcoming(results[j], now) ==> results[j].id in s.upcoming
    ensures SortAll(s, results, now) == s
  {
    if results != [] {
      SortedAlready(s, results[..|results| - 1], now);
    }
  }

  /** Sorting the same response twice leaves the dictionaries as sorting it once. */
  lemma Idempotent(s: Sorted, results: seq<Observation>, now: int)
    ensures SortAll(SortAll(s, results, now), results, now) == SortAll(s, results, now)
  {
    forall i | 0 <= i < |results| ensures
      && (IsCompleted(results[i], now) ==> results[i].id in SortAll(s, results, now).completed)
      && (IsUpcoming(results[i], now) ==> results[i].id in SortAll(s, results, now).upcoming)
    {
      EveryResultFiled(s, results, now, i);
    }
    SortedAlready(SortAll(s, results, now), results, now);
  }

  class ObsPortalDataStore {
    var completedObservations: map<int, Observation>
    var upcomingRealTimeSessions: map<int, Observation>
    var pendingRequestGroups: seq<Json>
    var observationDetails: Json
    var selectedConfiguration: Json

    /** The initial state (lines 9-17). */
    constructor ()
      ensures completedObservations == map[] && upcomingRealTimeSessions == map[]
      ensures pendingRequestGroups == [] && observationDetails == JObj(map[]) && selectedConfiguration == JNull
    {
      completedObservations := map[];
      upcomingRealTimeSessions := map[];
      pendingRequestGroups := [];
      observationDetails := JObj(map[]);
      selectedConfiguration := JNull;
    }

    /** `sortResponseData(response)` with `response.results` as `results` and the clock as `now`. */
    method SortResponseData(results: seq<Observation>, now: int)
      modifies this
      ensures Sorted(completedObservations, upcomingRealTimeSessions)
              == SortAll(Sorted(old(completedObservations), old(upcomingRealTimeSessions)), results, now)
      ensures pendingRequestGroups == old(pendingRequestGroups)
      ensures observationDetails == old(observationDetails)
      ensures selectedConfiguration == old(selectedConfiguration)
    {
      ghost var start := Sorted(completedObservations, upcomingRealTimeSessions);
      var i := 0;
      while i < |results|
        invariant 0 <= i <= |results|
        invariant Sorted(completedObservations, upcomingRealTimeSessions) == SortAll(start, results[..i], now)
        invariant pendingRequestGroups == old(pendingRequestGroups)
        invariant observationDetails == old(observationDetails)
        invariant selectedConfiguration == old(selectedConfiguration)
      {
        var result := results[i];
        if result.state == "COMPLETED" || (result.observationType == "REAL_TIME" && result.end < now) {
          if result.id !in completedObservations {
            completedObservations := completedObservations[result.id := result];
          }
        } else if result.observationType == "REAL_TIME" && result.end > now {
          if result.id !in upcomingRealTimeSessions {
            upcomingRealTimeSessions := upcomingRealTimeSessions[result.id := result];
          }
        }
        assert results[..i + 1][..i] == results[..i];
        i := i + 1;
      }
      assert results[..i] == results;
    }

    /** `setSelectedConfiguration(configuration)` changes that field alone. */
    method SetSelectedConfiguration(configuration: Json)
      modifies this
      ensures selectedConfiguration == configuration
      ensures completedObservations == old(completedObservations)
      ensures upcomingRealTimeSessions == old(upcomingRealTimeSessions)
      ensures pendingRequestGroups == old(pendingRequestGroups)
      ensures observationDetails == old(observationDetails)
    {
      selectedConfiguration := configuration;
    }
  }
}
