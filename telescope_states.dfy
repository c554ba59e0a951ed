/**
  The telescope-state lookup of src/utils/telescopeStates.js, without the request itself: the
  URL it asks for, the key it reads the response under, and the value it resolves with.
 */
module TelescopeStates {
  import opened Common
  import opened Strings
  import opened Json

  /** Line 9: the query names site, telescope and enclosure, in that order. */
  function TelescopeStatesUrl(observationPortalUrl: string, site: string, telescope: string, enclosure: string): (url: string)
    ensures url == observationPortalUrl + "telescope_states/?" + Query(site, telescope, enclosure)
  {
    observationPortalUrl + "telescope_states/?site=" + site + "&telescope=" + telescope + "&enclosure=" + enclosure
  }

  function Query(site: string, telescope: string, enclosure: string): string
  {
    "site=" + site + "&telescope=" + telescope + "&enclosure=" + enclosure
  }

  /** Line 13: the response key puts the enclosure before the telescope. */
  function StateKey(site: string, telescope: string, enclosure: string): string
  {
    site + "." + enclosure + "." + telescope
  }

  /** Splitting the key at its dots gives site, enclosure and telescope back when none holds a dot. */
  lemma StateKeyFields(site: string, telescope: string, enclosure: string)
    requires '.' !in site && '.' !in telescope && '.' !in enclosure
    ensures Split(StateKey(site, telescope, enclosure), '.') == [site, enclosure, telescope]
  {
    calc {
      Split(StateKey(site, telescope, enclosure), '.');
      { assert StateKey(site, telescope, enclosure) == site + ['.'] + (enclosure + ['.'] + telescope); }
      Split(site + ['.'] + (enclosure + ['.'] + telescope), '.');
      { SplitAfterField(site, '.', enclosure + ['.'] + telescope); }
      [site] + Split(enclosure + ['.'] + telescope, '.');
      { SplitAfterField(enclosure, '.', telescope); SplitWithoutSeparator(telescope, '.'); }
      [site, enclosure, telescope];
    }
  }

  /** The query splits at '&' into the three parameters in order when no value holds an '&'. */
  lemma QueryParameters(site: string, telescope: string, enclosure: string)
    requires '&' !in site && '&' !in telescope && '&' !in enclosure
    ensures Split(Query(site, telescope, enclosure), '&') == ["site=" + site, "telescope=" + telescope, "enclosure=" + enclosure]
  {
    var a, b, c := "site=" + site, "telescope=" + telescope, "enclosure=" + enclosure;
    assert '&' !in a && '&' !in b && '&' !in c;
    assert Query(site, telescope, enclosure) == a + ['&'] + (b + ['&'] + c);
    SplitAfterField(a, '&', b + ['&'] + c);
    SplitAfterField(b, '&', c);
    SplitWithoutSeparator(c, '&');
  }

  /**
    The URL is the portal's telescope_states endpoint followed by a query whose '&'-separated
    parameters are site, telescope and enclosure, in that order.
   */
  lemma UrlParameters(observationPortalUrl: string, site: string, telescope: string, enclosure: string)
    requires '&' !in site && '&' !in telescope && '&' !in enclosure
    ensures var url := TelescopeStatesUrl(observationPortalUrl, site, telescope, enclosure);
            var prefix := observationPortalUrl + "telescope_states/?";
            && |prefix| <= |url| && url[..|prefix|] == prefix
            && Split(url[|prefix|..], '&') == ["site=" + site, "telescope=" + telescope, "enclosure=" + enclosure]
  {
    var url := TelescopeStatesUrl(observationPortalUrl, site, telescope, enclosure);
    var prefix := observationPortalUrl + "telescope_states/?";
    assert url == prefix + Query(site, telescope, enclosure);
    assert url[..|prefix|] == prefix && url[|prefix|..] == Query(site, telescope, enclosure);
    QueryParameters(site, telescope, enclosure);
  }

  const ReasonUnavailable := "Reason unavailable"

  /** `entry[0]`: the first element of an array, the first character of a string, property "0" of an object. */
  function FirstOf(entry: Json): (r: Option<Json>)
    ensures entry.JArr? ==> (r.Some? <==> |entry.items| > 0)
    ensures entry.JArr? && |entry.items| > 0 ==> r == Some(entry.items[0])
    ensures entry.JNum? || entry.JBool? || entry.JNull? ==> r == None
  {
    match entry
    case JArr(items) => if |items| > 0 then Some(items[0]) else None
    case JStr(s) => if |s| > 0 then Some(JStr([s[0]])) else None
    case JObj(_) => Get(entry, "0")
    case _ => None
  }

  /**
    Lines 12-18 (the success callback): the first state stored under the key, or the string
    "Reason unavailable" when there is no response or no truthy entry for the key. None is
    `undefined`, what an empty entry gives.
   */
  function TelescopeState(response: Json, site: string, telescope: string, enclosure: string): (data: Option<Json>)
    ensures !Truthy(response) ==> data == Some(JStr(ReasonUnavailable))
    ensures var entry := Get(response, StateKey(site, telescope, enclosure));
            Truthy(response) && (entry.None? || !Truthy(entry.value)) ==> data == Some(JStr(ReasonUnavailable))
    ensures var entry := Get(response, StateKey(site, telescope, enclosure));
            Truthy(response) && entry.Some? && Truthy(entry.value) ==> data == FirstOf(entry.value)
  {
    var key := StateKey(site, telescope, enclosure);
    if !Truthy(response) || Get(response, key).None? || !Truthy(Get(response, key).value) then
      Some(JStr(ReasonUnavailable))
    else
      FirstOf(Get(response, key).value)
  }

  /** For an object response with a non-empty list of states under the key, the first state. */
  lemma FirstStateReturned(states: map<string, Json>, site: string, telescope: string, enclosure: string, first: Json, rest: seq<Json>)
    requires StateKey(site, telescope, enclosure) in states
    requires states[StateKey(site, telescope, enclosure)] == JArr([first] + rest)
    ensures TelescopeState(JObj(states), site, telescope, enclosure) == Some(first)
  {
  }

  /**
    Only the entry under site.enclosure.telescope is read: a response holding states under any
    other key alone gives the fallback string.
   */
  lemma OtherKeysIgnored(states: map<string, Json>, site: string, telescope: string, enclosure: string)
    requires StateKey(site, telescope, enclosure) !in states
    ensures TelescopeState(JObj(states), site, telescope, enclosure) == Some(JStr(ReasonUnavailable))
  {
  }

  /** A state list that is present but empty resolves to undefined, not to the fallback string. */
  lemma EmptyStatesUndefined(states: map<string, Json>, site: string, telescope: string, enclosure: string)
    requires StateKey(site, telescope, enclosure) in states
    requires states[StateKey(site, telescope, enclosure)] == JArr([])
    ensures TelescopeState(JObj(states), site, telescope, enclosure) == None
  {
  }
}
