/**
  The scheduling request of src/utils/payloadForRequestedObservations.js: the JSON body sent to
  the observation portal for a sidereal target (ICRS coordinates) or a non-sidereal one
  (orbital elements), with its instrument configurations, windows or cadence and constraints.

  Payloads are JSON values as they are serialised: a property whose value is `undefined` is
  absent, and the number NaN is written as null.
 */
module Payload {
  import opened Common
  import opened Strings
  import opened Json
  import ConvertRaDec

  /**
    JavaScript's `Number(v)` on a property value; None is `undefined`. An array is read through
    its `toString()`, the elements joined by commas with null written as nothing; an object reads
    as "[object Object]", which is NaN.
   */
  function JsNumber(v: Option<Json>): ConvertRaDec.Num
  {
    match v
    case None => ConvertRaDec.NaN
    case Some(j) =>
      match j
      case JNull => ConvertRaDec.Num(0.0)
      case JBool(b) => ConvertRaDec.Num(if b then 1.0 else 0.0)
      case JNum(n) => ConvertRaDec.Num(n)
      case JStr(s) => ConvertRaDec.ParseNumber(Trim(s))
      case JArr(items) => ArrayNumber(items)
      case JObj(_) => ConvertRaDec.NaN
  }

  /**
    `Number` of an array's text: the empty array is "" and so 0; two or more elements put a comma
    in the text, which is NaN; a single element contributes its own text: nothing for null,
    "true" or "false" for a boolean (NaN), the numeral of a number, the string itself, the text
    of a nested array, and "[object Object]" for an object.
   */
  function ArrayNumber(items: seq<Json>): ConvertRaDec.Num
    decreases JArr(items)
  {
    if items == [] then ConvertRaDec.Num(0.0)
    else if |items| >= 2 then ConvertRaDec.NaN
    else
      match items[0]
      case JNull => ConvertRaDec.Num(0.0)
      case JBool(_) => ConvertRaDec.NaN
      case JNum(n) => ConvertRaDec.Num(n)
      case JStr(s) => ConvertRaDec.ParseNumber(Trim(s))
      case JArr(inner) => ArrayNumber(inner)
      case JObj(_) => ConvertRaDec.NaN
  }

  /** The empty array reads as the empty string, and so as 0, the same as null. */
  lemma EmptyArrayIsZero()
    ensures JsNumber(Some(JArr([]))) == JsNumber(Some(JStr(""))) == JsNumber(Some(JNull)) == ConvertRaDec.Num(0.0)
  {
  }

  /** An array of one element that is not a boolean reads as that element does. */
  lemma SingletonArrayIsItsElement(x: Json)
    requires !x.JBool?
    ensures JsNumber(Some(JArr([x]))) == JsNumber(Some(x))
  {
  }

  /** A boolean in an array is read from its text "true" or "false", which is NaN, unlike the boolean itself. */
  lemma BooleanInArrayIsNaN(b: bool)
    ensures JsNumber(Some(JArr([JBool(b)]))) == ConvertRaDec.NaN
    ensures JsNumber(Some(JBool(b))) == ConvertRaDec.Num(if b then 1.0 else 0.0)
  {
  }

  /** Two or more elements are joined with a comma, which no numeral holds: NaN. */
  lemma LongerArraysAreNaN(items: seq<Json>)
    requires |items| >= 2
    ensures JsNumber(Some(JArr(items))) == ConvertRaDec.NaN
  {
  }

  /** Wrapping a value in one-element arrays any number of times does not change what it reads as. */
  lemma {:induction false} NestedSingletons(x: Json, depth: nat)
    requires !x.JBool?
    ensures JsNumber(Some(Wrapped(x, depth))) == JsNumber(Some(x))
  {
    if depth > 0 {
      NestedSingletons(x, depth - 1);
      SingletonArrayIsItsElement(Wrapped(x, depth - 1));
    }
  }

  /** x inside `depth` one-element arrays. */
  function Wrapped(x: Json, depth: nat): (w: Json)
    ensures depth > 0 ==> w.JArr? && |w.items| == 1
  {
    if depth == 0 then x else JArr([Wrapped(x, depth - 1)])
  }

  /** A number as it is serialised: NaN becomes null. */
  function NumberJson(x: ConvertRaDec.Num): (j: Json)
    ensures j == JNull || j.JNum?
  {
    match x
    case Num(v) => JNum(v)
    case NaN => JNull
  }

  /**
    Reading a serialised number back with `Number` gives the number, except NaN: it was
    written as null, which reads as 0.
   */
  lemma NumberJsonReadBack(x: ConvertRaDec.Num)
    ensures x.Num? ==> JsNumber(Some(NumberJson(x))) == x
    ensures x.NaN? ==> JsNumber(Some(NumberJson(x))) == ConvertRaDec.Num(0.0)
  {
  }

  /** Distinct numbers are serialised distinctly, and only NaN as null. */
  lemma NumberJsonInjective(x: ConvertRaDec.Num, y: ConvertRaDec.Num)
    ensures NumberJson(x) == NumberJson(y) <==> x == y
    ensures NumberJson(x) == JNull <==> x.NaN?
  {
  }

  // ---------------------------------------------------------------------------------------
  // Instrument configurations (createInstrumentConfigs, lines 4-20)

  /** `Array.isArray(exposures) ? exposures : [exposures]` */
  function ExposureList(exposures: Json): (xs: seq<Json>)
    ensures exposures.JArr? ==> xs == exposures.items
    ensures !exposures.JArr? ==> xs == [exposures]
  {
    if exposures.JArr? then exposures.items else [exposures]
  }

  /** `exposure.count || 1`: always a truthy count, the exposure's own when it has a truthy one. */
  function ExposureCount(exposure: Json): (count: Json)
    ensures Truthy(count)
    ensures count == JNum(1.0) || Get(exposure, "count") == Some(count)
    ensures (Get(exposure, "count").Some? && Truthy(Get(exposure, "count").value)) <==> Get(exposure, "count") == Some(count)
  {
    var count := Get(exposure, "count");
    if count.Some? && Truthy(count.value) then count.value else JNum(1.0)
  }

  /** One instrument configuration: five fixed keys, and `exposure_time` when the exposure has one. */
  function InstrumentConfig(exposure: Json): (c: Json)
    ensures c.JObj?
    ensures Keys(c) == {"exposure_count", "mode", "rotator_mode", "extra_params", "optical_elements"}
                       + (if Get(exposure, "exposureTime").Some? then {"exposure_time"} else {})
  {
    JObj(Put(map[
      "exposure_count" := ExposureCount(exposure),
      "mode" := JStr("central30x30"),
      "rotator_mode" := JStr(""),
      "extra_params" := JObj(map["offset_ra" := JNum(0.0), "offset_dec" := JNum(0.0), "defocus" := JNum(0.0)]),
      "optical_elements" := JObj(Put(map[], "filter", Get(exposure, "filter")))
    ], "exposure_time", Get(exposure, "exposureTime")))
  }

  /** `exposuresArray.map(...)`: one configuration per exposure, in order. */
  function InstrumentConfigs(xs: seq<Json>): (configs: seq<Json>)
    ensures |configs| == |xs|
    ensures forall i :: 0 <= i < |xs| ==> configs[i] == InstrumentConfig(xs[i])
  {
    if xs == [] then [] else [InstrumentConfig(xs[0])] + InstrumentConfigs(xs[1..])
  }

  /**
    `createInstrumentConfigs(exposures)`. Reading `count` of a null exposure throws in the
    source, so every exposure must be a value that properties can be read from.
   */
  function CreateInstrumentConfigs(exposures: Json): (configs: seq<Json>)
    requires forall x :: x in ExposureList(exposures) ==> x != JNull
    ensures |configs| == (if exposures.JArr? then |exposures.items| else 1)
    ensures forall i :: 0 <= i < |configs| ==> configs[i] == InstrumentConfig(ExposureList(exposures)[i])
  {
    InstrumentConfigs(ExposureList(exposures))
  }

  /** A single exposure that is not an array is wrapped: exactly one configuration, for it. */
  lemma SingleExposureWrapped(exposure: Json)
    requires !exposure.JArr? && exposure != JNull
    ensures CreateInstrumentConfigs(exposure) == [InstrumentConfig(exposure)]
  {
  }

  /** The configurations follow the exposures one to one and in order. */
  lemma ConfigsFollowExposures(exposures: seq<Json>, i: nat)
    requires forall x :: x in exposures ==> x != JNull
    requires i < |exposures|
    ensures |CreateInstrumentConfigs(JArr(exposures))| == |exposures|
    ensures CreateInstrumentConfigs(JArr(exposures))[i] == InstrumentConfig(exposures[i])
  {
  }

  /** Appending an exposure appends its configuration and leaves the earlier ones alone. */
  lemma {:induction false} ConfigsOfAppend(xs: seq<Json>, x: Json)
    ensures InstrumentConfigs(xs + [x]) == InstrumentConfigs(xs) + [InstrumentConfig(x)]
  {
    if xs != [] {
      ConfigsOfAppend(xs[1..], x);
      assert (xs + [x])[1..] == xs[1..] + [x];
    }
  }

  /** The fields of one instrument configuration and where each comes from. */
  lemma InstrumentConfigFields(exposure: Json)
    ensures var c := InstrumentConfig(exposure);
      && c.fields["mode"] == JStr("central30x30")
      && c.fields["rotator_mode"] == JStr("")
      && (Get(exposure, "exposureTime").Some? ==> c.fields["exposure_time"] == Get(exposure, "exposureTime").value)
      && Keys(c.fields["optical_elements"]) == (if Get(exposure, "filter").Some? then {"filter"} else {})
      && Get(c.fields["optical_elements"], "filter") == Get(exposure, "filter")
  {
  }

  /** `exposure_count` is the exposure's count when that is truthy, and 1 otherwise. */
  lemma ExposureCountDefault(exposure: Json)
    ensures var count := InstrumentConfig(exposure).fields["exposure_count"];
      && Truthy(count)
      && (Get(exposure, "count").Some? && Truthy(Get(exposure, "count").value) ==> count == Get(exposure, "count").value)
      && (Get(exposure, "count").None? || !Truthy(Get(exposure, "count").value) ==> count == JNum(1.0))
  {
  }

  // ---------------------------------------------------------------------------------------
  // The base payload (createBasePayload, lines 22-62)

  const MaxAirmass: real := 1.6
  const MinLunarDistance: real := 30.0
  const MaxLunarPhase: real := 1.0

  const Constraints: Json :=
    JObj(map["max_airmass" := JNum(MaxAirmass), "min_lunar_distance" := JNum(MinLunarDistance),
             "max_lunar_phase" := JNum(MaxLunarPhase)])

  /** The single configuration of every request, still without its target. */
  function Configuration(exposures: Json): (c: Json)
    requires forall x :: x in ExposureList(exposures) ==> x != JNull
    ensures c.JObj?
  {
    JObj(map[
      "type" := JStr("EXPOSE"),
      "instrument_type" := JStr("0M4-SCICAM-QHY600"),
      "instrument_configs" := JArr(CreateInstrumentConfigs(exposures)),
      "acquisition_config" := JObj(map["mode" := JStr("OFF"), "extra_params" := JObj(map[])]),
      "guiding_config" := JObj(map["mode" := JStr("ON"), "optional" := JBool(true), "extra_params" := JObj(map[])]),
      "constraints" := Constraints
    ])
  }

  /**
    The own enumerable properties `{ ...value }` copies: an object's fields, an array's or a
    string's elements under their index, and nothing for any other value.
   */
  function Spread(cadence: Json): (r: map<string, Json>)
    ensures cadence.JObj? ==> r == cadence.fields
    ensures cadence.JArr? ==> forall i :: 0 <= i < |cadence.items| ==> NatToString(i) in r && r[NatToString(i)] == cadence.items[i]
    ensures cadence.JArr? ==> forall k :: k in r ==> exists i :: 0 <= i < |cadence.items| && k == NatToString(i)
    ensures cadence.JStr? ==> forall i :: 0 <= i < |cadence.s| ==> NatToString(i) in r && r[NatToString(i)] == JStr([cadence.s[i]])
    ensures cadence.JNull? || cadence.JBool? || cadence.JNum? ==> r == map[]
  {
    IndexMapAll(if cadence.JArr? then cadence.items else []);
    IndexMapAll(if cadence.JStr? then seq(|cadence.s|, i requires 0 <= i < |cadence.s| => JStr([cadence.s[i]])) else []);
    match cadence
    case JObj(fields) => fields
    case JArr(items) => IndexMap(items)
    case JStr(s) => IndexMap(seq(|s|, i requires 0 <= i < |s| => JStr([s[i]])))
    case _ => map[]
  }

  /** The elements of xs keyed by their index written in decimal. */
  function IndexMap(xs: seq<Json>): map<string, Json>
  {
    if xs == [] then map[] else IndexMap(xs[..|xs| - 1])[NatToString(|xs| - 1) := xs[|xs| - 1]]
  }

  /** Element i of xs sits under the key `String(i)`. */
  lemma {:induction false} IndexMapLookup(xs: seq<Json>, i: nat)
    requires i < |xs|
    ensures NatToString(i) in IndexMap(xs) && IndexMap(xs)[NatToString(i)] == xs[i]
  {
    var n := |xs| - 1;
    if i < n {
      IndexMapLookup(xs[..n], i);
      assert DigitsValue(NatToString(i)) != DigitsValue(NatToString(n));
    }
  }

  /** The index keys are the only keys. */
  lemma {:induction false} IndexMapKeys(xs: seq<Json>, k: string)
    requires k in IndexMap(xs)
    ensures exists i :: 0 <= i < |xs| && k == NatToString(i)
  {
    var n := |xs| - 1;
    if k != NatToString(n) {
      IndexMapKeys(xs[..n], k);
    }
  }

  /** Every element sits under its index, and there is nothing else. */
  lemma IndexMapAll(xs: seq<Json>)
    ensures forall i :: 0 <= i < |xs| ==> NatToString(i) in IndexMap(xs) && IndexMap(xs)[NatToString(i)] == xs[i]
    ensures forall k :: k in IndexMap(xs) ==> exists i :: 0 <= i < |xs| && k == NatToString(i)
  {
    forall i | 0 <= i < |xs| ensures NatToString(i) in IndexMap(xs) && IndexMap(xs)[NatToString(i)] == xs[i] {
      IndexMapLookup(xs, i);
    }
    forall k | k in IndexMap(xs) ensures exists i :: 0 <= i < |xs| && k == NatToString(i) {
      IndexMapKeys(xs, k);
    }
  }

  /** An array or string cadence is spread into its elements, keyed by index. */
  lemma SpreadOfArray(items: seq<Json>, i: nat)
    requires i < |items|
    ensures Get(JObj(Spread(JArr(items))), NatToString(i)) == Some(items[i])
  {
    IndexMapLookup(items, i);
  }

  /** A formatted date as a property value: `formatToUTC` gives `undefined` for an invalid date. */
  function Formatted<D>(date: D, formatToUTC: D -> Option<string>): (v: Option<Json>)
    ensures v.Some? <==> formatToUTC(date).Some?
    ensures v.Some? ==> v.value == JStr(formatToUTC(date).value)
  {
    match formatToUTC(date)
    case Some(text) => Some(JStr(text))
    case None => None
  }

  /**
    `{ start: formatToUTC(startDate), end: formatToUTC(endDate) }`, as it is serialised: a bound
    whose date is invalid is left out.
   */
  function Window<D>(startDate: D, endDate: D, formatToUTC: D -> Option<string>): (w: Json)
    ensures w.JObj?
    ensures Keys(w) == (if formatToUTC(startDate).Some? then {"start"} else {})
                       + (if formatToUTC(endDate).Some? then {"end"} else {})
    ensures Get(w, "start") == Formatted(startDate, formatToUTC)
    ensures Get(w, "end") == Formatted(endDate, formatToUTC)
  {
    JObj(Put(Put(map[], "start", Formatted(startDate, formatToUTC)), "end", Formatted(endDate, formatToUTC)))
  }

  /**
    `createBasePayload(exposures, startDate, endDate, cadenceObj)`; an omitted cadence is null.
    `formatToUTC` is the date formatter of src/utils/formatTime.js, taken as a parameter.
   */
  function CreateBasePayload<D>(exposures: Json, startDate: D, endDate: D, cadenceObj: Json,
                                formatToUTC: D -> Option<string>): (p: Json)
    requires forall x :: x in ExposureList(exposures) ==> x != JNull
    ensures p.JObj?
    ensures Get(p, "configurations") == Some(JArr([Configuration(exposures)]))
  {
    var payload := JObj(map[
      "acceptability_threshold" := JNum(90.0),
      "configuration_repeats" := JNum(1.0),
      "optimization_type" := JStr("TIME"),
      "configurations" := JArr([Configuration(exposures)]),
      "windows" := JArr(if Truthy(cadenceObj) then [] else [Window(startDate, endDate, formatToUTC)]),
      "location" := JObj(map["telescope_class" := JStr("0m4")])
    ]);
    if Truthy(cadenceObj) then SetKey(payload, "cadence", JObj(Spread(cadenceObj))) else payload
  }

  /** The one configuration of every base payload. */
  lemma BaseConfigurations<D>(exposures: Json, startDate: D, endDate: D, cadenceObj: Json, formatToUTC: D -> Option<string>)
    requires forall x :: x in ExposureList(exposures) ==> x != JNull
    ensures Get(CreateBasePayload(exposures, startDate, endDate, cadenceObj, formatToUTC), "configurations")
            == Some(JArr([Configuration(exposures)]))
  {
  }

  /** The keys every payload carries, whatever the cadence. */
  const BaseKeys: set<string> :=
    {"acceptability_threshold", "configuration_repeats", "optimization_type", "configurations",
     "windows", "location"}

  /** Every payload has the six base keys, and `cadence` exactly when a cadence is given. */
  lemma PayloadKeys<D>(exposures: Json, startDate: D, endDate: D, cadenceObj: Json, formatToUTC: D -> Option<string>)
    requires forall x :: x in ExposureList(exposures) ==> x != JNull
    ensures Keys(CreateBasePayload(exposures, startDate, endDate, cadenceObj, formatToUTC))
            == BaseKeys + (if Truthy(cadenceObj) then {"cadence"} else {})
  {
  }

  /** With a cadence there are no windows and the `cadence` key holds a copy of it. */
  lemma WindowsWithCadence<D>(exposures: Json, startDate: D, endDate: D, cadenceObj: Json, formatToUTC: D -> Option<string>)
    requires forall x :: x in ExposureList(exposures) ==> x != JNull
    requires Truthy(cadenceObj)
    ensures Get(CreateBasePayload(exposures, startDate, endDate, cadenceObj, formatToUTC), "windows") == Some(JArr([]))
    ensures Get(CreateBasePayload(exposures, startDate, endDate, cadenceObj, formatToUTC), "cadence")
            == Some(JObj(Spread(cadenceObj)))
  {
  }

  /** Without a cadence there is exactly the one window, and no `cadence`. */
  lemma WindowsWithoutCadence<D>(exposures: Json, startDate: D, endDate: D, cadenceObj: Json, formatToUTC: D -> Option<string>)
    requires forall x :: x in ExposureList(exposures) ==> x != JNull
    requires !Truthy(cadenceObj)
    ensures Get(CreateBasePayload(exposures, startDate, endDate, cadenceObj, formatToUTC), "windows")
            == Some(JArr([Window(startDate, endDate, formatToUTC)]))
    ensures Get(CreateBasePayload(exposures, startDate, endDate, cadenceObj, formatToUTC), "cadence") == None
  {
  }

  /** With both dates valid, the window runs between the two formatted dates. */
  lemma WindowOfValidDates<D>(startDate: D, endDate: D, formatToUTC: D -> Option<string>, start: string, end: string)
    requires formatToUTC(startDate) == Some(start) && formatToUTC(endDate) == Some(end)
    ensures Window(startDate, endDate, formatToUTC) == JObj(map["start" := JStr(start), "end" := JStr(end)])
  {
  }

  /** An invalid date leaves its bound out of the window; the other bound is kept. */
  lemma InvalidDateLeftOut<D>(startDate: D, endDate: D, formatToUTC: D -> Option<string>)
    requires formatToUTC(startDate).None? || formatToUTC(endDate).None?
    ensures "start" in Keys(Window(startDate, endDate, formatToUTC)) <==> formatToUTC(startDate).Some?
    ensures "end" in Keys(Window(startDate, endDate, formatToUTC)) <==> formatToUTC(endDate).Some?
    ensures Keys(Window(startDate, endDate, formatToUTC)) != {"start", "end"}
  {
  }

  /** An object cadence is copied field for field: a shallow copy. */
  lemma CadenceIsShallowCopy(fields: map<string, Json>)
    ensures Spread(JObj(fields)) == fields
  {
  }

  /** The constraints and the telescope class are the same fixed values in every request. */
  lemma FixedConstraints<D>(exposures: Json, startDate: D, endDate: D, cadenceObj: Json,
                            formatToUTC: D -> Option<string>)
    requires forall x :: x in ExposureList(exposures) ==> x != JNull
    ensures var p := CreateBasePayload(exposures, startDate, endDate, cadenceObj, formatToUTC);
      && p.fields["configurations"] == JArr([Configuration(exposures)])
      && Get(Configuration(exposures), "constraints") ==
           Some(JObj(map["max_airmass" := JNum(1.6), "min_lunar_distance" := JNum(30.0), "max_lunar_phase" := JNum(1.0)]))
      && p.fields["location"] == JObj(map["telescope_class" := JStr("0m4")])
  {
  }

  // ---------------------------------------------------------------------------------------
  // Targets (createSiderealTarget, lines 64-76; createNonSiderealTarget, lines 78-111)

  /** `createSiderealTarget(target)`; reading `name` of a null target throws in the source. */
  function CreateSiderealTarget(target: Json): (t: JsObject)
    requires target != JNull
    ensures t.Keys == {"name", "type", "ra", "dec", "proper_motion_ra", "proper_motion_dec", "epoch", "parallax", "extra_params"}
    ensures forall k :: k in t && k != "name" ==> t[k].Some?
  {
    map[
      "name" := Get(target, "name"),
      "type" := Some(JStr("ICRS")),
      "ra" := Some(NumberJson(JsNumber(Get(target, "ra")))),
      "dec" := Some(NumberJson(JsNumber(Get(target, "dec")))),
      "proper_motion_ra" := Some(JNull),
      "proper_motion_dec" := Some(JNull),
      "epoch" := Some(JNum(2000.0)),
      "parallax" := Some(JNull),
      "extra_params" := Some(JObj(map[]))
    ]
  }

  /** A sidereal target is ICRS at epoch 2000 with null proper motions and parallax. */
  lemma SiderealTargetShape(target: Json)
    requires target != JNull
    ensures Prop(CreateSiderealTarget(target), "name") == Get(target, "name")
    ensures Prop(CreateSiderealTarget(target), "type") == Some(JStr("ICRS"))
    ensures Prop(CreateSiderealTarget(target), "epoch") == Some(JNum(2000.0))
  {
  }

  lemma SiderealTargetNulls(target: Json)
    requires target != JNull
    ensures Prop(CreateSiderealTarget(target), "proper_motion_ra") == Some(JNull)
    ensures Prop(CreateSiderealTarget(target), "proper_motion_dec") == Some(JNull)
    ensures Prop(CreateSiderealTarget(target), "parallax") == Some(JNull)
  {
  }

  /** ra and dec go through `Number` each on its own. */
  lemma SiderealNumbers(target: Json)
    requires target != JNull
    ensures Prop(CreateSiderealTarget(target), "ra") == Some(NumberJson(JsNumber(Get(target, "ra"))))
    ensures Prop(CreateSiderealTarget(target), "dec") == Some(NumberJson(JsNumber(Get(target, "dec"))))
  {
  }

  /**
    ra is a number: a number is kept, a numeral string becomes its value, and what `Number`
    cannot read, a missing ra included, becomes NaN (null in the request).
   */
  lemma SiderealRa(target: Json)
    requires target != JNull
    ensures forall v :: Get(target, "ra") == Some(JNum(v)) ==> Prop(CreateSiderealTarget(target), "ra") == Some(JNum(v))
    ensures forall s :: Get(target, "ra") == Some(JStr(s)) ==>
              Prop(CreateSiderealTarget(target), "ra") == Some(NumberJson(ConvertRaDec.ParseNumber(Trim(s))))
    ensures Get(target, "ra") == None ==> Prop(CreateSiderealTarget(target), "ra") == Some(JNull)
  {
    SiderealNumbers(target);
  }

  /** dec is converted the same way, independently of ra. */
  lemma SiderealDec(target: Json)
    requires target != JNull
    ensures forall v :: Get(target, "dec") == Some(JNum(v)) ==> Prop(CreateSiderealTarget(target), "dec") == Some(JNum(v))
    ensures forall s :: Get(target, "dec") == Some(JStr(s)) ==>
              Prop(CreateSiderealTarget(target), "dec") == Some(NumberJson(ConvertRaDec.ParseNumber(Trim(s))))
    ensures Get(target, "dec") == None ==> Prop(CreateSiderealTarget(target), "dec") == Some(JNull)
  {
    SiderealNumbers(target);
  }

  /** A decimal numeral for ra, as the scheduling form sends it, arrives as its value. */
  lemma SiderealRaFromNumeral(target: Json, whole: nat, f: string, v: real)
    requires target.JObj? && AllDigits(f)
    requires Get(target, "ra") == Some(JStr(ConvertRaDec.DecimalText(whole, f)))
    requires v == whole as real + ConvertRaDec.FractionValue(f)
    ensures Prop(CreateSiderealTarget(target), "ra") == Some(JNum(v))
  {
    SiderealNumbers(target);
    NumeralNumber(ConvertRaDec.DecimalText(whole, f), whole, f, v);
  }

  /** `Number` reads a decimal numeral as the value it was written from. */
  lemma NumeralNumber(text: string, whole: nat, f: string, v: real)
    requires AllDigits(f) && text == ConvertRaDec.DecimalText(whole, f)
    requires v == whole as real + ConvertRaDec.FractionValue(f)
    ensures JsNumber(Some(JStr(text))) == ConvertRaDec.Num(v)
  {
    ConvertRaDec.DecimalField(whole, f);
    TrimOfUnpadded(text);
  }

  /** The Julian date of 1858-11-17T00:00, day 0 of the Modified Julian Date. */
  const JulianDateMJDOffset: real := 2400000.5

  /** `Number(epoch_jd) - 2400000.5`, the epoch as a Modified Julian Date; NaN stays NaN. */
  function EpochOfElements(simbadResponse: Json): (e: Json)
    ensures e == JNull || e.JNum?
    ensures e.JNum? <==> JsNumber(Get(simbadResponse, "epoch_jd")).Num?
    ensures e.JNum? ==> e.n + JulianDateMJDOffset == JsNumber(Get(simbadResponse, "epoch_jd")).value
  {
    match JsNumber(Get(simbadResponse, "epoch_jd"))
    case Num(jd) => JNum(jd - JulianDateMJDOffset)
    case NaN => JNull
  }

  /** The target literal of lines 83-101, the copied orbital elements undefined where the response lacks them. */
  function BaseTarget(simbadResponse: Json, schemeRequest: Json): JsObject
  {
    map[
      "name" := Get(simbadResponse, "name"),
      "type" := Some(JStr("ORBITAL_ELEMENTS")),
      "ra" := Some(JNull),
      "dec" := Some(JNull),
      "proper_motion_ra" := Some(JNull),
      "proper_motion_dec" := Some(JNull),
      "parallax" := Some(JNull),
      "extra_params" := Some(JObj(map[])),
      "scheme" := Some(schemeRequest),
      "orbinc" := Get(simbadResponse, "inclination"),
      "longascnode" := Get(simbadResponse, "ascending_node"),
      "argofperih" := Get(simbadResponse, "argument_of_perihelion"),
      "eccentricity" := Get(simbadResponse, "eccentricity"),
      "meandist" := Get(simbadResponse, "semimajor_axis"),
      "meananom" := Get(simbadResponse, "mean_anomaly"),
      "perihdist" := Some(JNull),
      "epochofel" := Some(EpochOfElements(simbadResponse))
    ]
  }

  /** The properties lines 103-108 add to the target for the two known schemes. */
  function WithSchemeProperties(baseTarget: JsObject, simbadResponse: Json, schemeRequest: Json): (t: JsObject)
    ensures forall k :: k != "dailymot" && k != "epochofperih" ==>
              (k in t <==> k in baseTarget) && (k in baseTarget ==> t[k] == baseTarget[k])
  {
    if schemeRequest == JStr("JPL_MAJOR_PLANET") then
      baseTarget["dailymot" := Get(simbadResponse, "mean_daily_motion")]
    else if schemeRequest == JStr("MPC_MINOR_PLANET") then
      baseTarget["epochofperih" := Some(JNull)]["dailymot" := Some(JNull)]
    else baseTarget
  }

  /** `createNonSiderealTarget(simbadResponse, schemeRequest)`; reading `epoch_jd` of a null response throws in the source. */
  function CreateNonSiderealTarget(simbadResponse: Json, schemeRequest: Json): JsObject
    requires simbadResponse != JNull
  {
    WithSchemeProperties(BaseTarget(simbadResponse, schemeRequest), simbadResponse, schemeRequest)
  }

  /** A non-sidereal target has orbital elements and null coordinates. */
  lemma NonSiderealTargetShape(simbadResponse: Json, schemeRequest: Json)
    requires simbadResponse != JNull
    ensures Prop(CreateNonSiderealTarget(simbadResponse, schemeRequest), "type") == Some(JStr("ORBITAL_ELEMENTS"))
    ensures Prop(CreateNonSiderealTarget(simbadResponse, schemeRequest), "ra") == Some(JNull)
    ensures Prop(CreateNonSiderealTarget(simbadResponse, schemeRequest), "dec") == Some(JNull)
  {
    var base := BaseTarget(simbadResponse, schemeRequest);
    assert Prop(base, "type") == Some(JStr("ORBITAL_ELEMENTS"));
    assert Prop(base, "ra") == Some(JNull);
    assert Prop(base, "dec") == Some(JNull);
  }

  /** The target names the requested scheme, carries the epoch of the elements and no perihelion distance. */
  lemma NonSiderealSchemeAndEpoch(simbadResponse: Json, schemeRequest: Json)
    requires simbadResponse != JNull
    ensures Prop(CreateNonSiderealTarget(simbadResponse, schemeRequest), "scheme") == Some(schemeRequest)
    ensures Prop(CreateNonSiderealTarget(simbadResponse, schemeRequest), "epochofel") == Some(EpochOfElements(simbadResponse))
    ensures Prop(CreateNonSiderealTarget(simbadResponse, schemeRequest), "perihdist") == Some(JNull)
  {
    var base := BaseTarget(simbadResponse, schemeRequest);
    assert Prop(base, "scheme") == Some(schemeRequest);
    assert Prop(base, "epochofel") == Some(EpochOfElements(simbadResponse));
    assert Prop(base, "perihdist") == Some(JNull);
  }

  /** The orbit's orientation is copied from the response under the portal's names. */
  lemma OrbitalElementsCopied(simbadResponse: Json, schemeRequest: Json)
    requires simbadResponse != JNull
    ensures Prop(CreateNonSiderealTarget(simbadResponse, schemeRequest), "name") == Get(simbadResponse, "name")
    ensures Prop(CreateNonSiderealTarget(simbadResponse, schemeRequest), "orbinc") == Get(simbadResponse, "inclination")
    ensures Prop(CreateNonSiderealTarget(simbadResponse, schemeRequest), "longascnode") == Get(simbadResponse, "ascending_node")
    ensures Prop(CreateNonSiderealTarget(simbadResponse, schemeRequest), "argofperih") == Get(simbadResponse, "argument_of_perihelion")
  {
    var base := BaseTarget(simbadResponse, schemeRequest);
    assert Prop(base, "name") == Get(simbadResponse, "name");
    assert Prop(base, "orbinc") == Get(simbadResponse, "inclination");
    assert Prop(base, "longascnode") == Get(simbadResponse, "ascending_node");
    assert Prop(base, "argofperih") == Get(simbadResponse, "argument_of_perihelion");
  }

  /** The orbit's shape is copied as well: eccentricity, semi-major axis and mean anomaly. */
  lemma OrbitShapeCopied(simbadResponse: Json, schemeRequest: Json)
    requires simbadResponse != JNull
    ensures Prop(CreateNonSiderealTarget(simbadResponse, schemeRequest), "eccentricity") == Get(simbadResponse, "eccentricity")
    ensures Prop(CreateNonSiderealTarget(simbadResponse, schemeRequest), "meandist") == Get(simbadResponse, "semimajor_axis")
    ensures Prop(CreateNonSiderealTarget(simbadResponse, schemeRequest), "meananom") == Get(simbadResponse, "mean_anomaly")
  {
    var base := BaseTarget(simbadResponse, schemeRequest);
    assert Prop(base, "eccentricity") == Get(simbadResponse, "eccentricity");
    assert Prop(base, "meandist") == Get(simbadResponse, "semimajor_axis");
    assert Prop(base, "meananom") == Get(simbadResponse, "mean_anomaly");
  }

  /** A numeric `epoch_jd` arrives shifted by the MJD offset, and adding the offset back recovers it. */
  lemma EpochIsModifiedJulianDate(simbadResponse: Json, jd: real)
    requires Get(simbadResponse, "epoch_jd") == Some(JNum(jd))
    ensures EpochOfElements(simbadResponse) == JNum(jd - 2400000.5)
    ensures EpochOfElements(simbadResponse).n + JulianDateMJDOffset == jd
  {
  }

  /** Without an `epoch_jd` the epoch is NaN, written as null. */
  lemma MissingEpochIsNull(simbadResponse: Json)
    requires Get(simbadResponse, "epoch_jd") == None
    ensures EpochOfElements(simbadResponse) == JNull
  {
  }

  /**
    `dailymot` is set exactly for the two known schemes: to the response's daily motion for
    JPL_MAJOR_PLANET, to null for MPC_MINOR_PLANET.
   */
  lemma DailyMotionByScheme(simbadResponse: Json, schemeRequest: Json)
    requires simbadResponse != JNull
    ensures "dailymot" in CreateNonSiderealTarget(simbadResponse, schemeRequest) <==>
              schemeRequest == JStr("JPL_MAJOR_PLANET") || schemeRequest == JStr("MPC_MINOR_PLANET")
    ensures schemeRequest == JStr("JPL_MAJOR_PLANET") ==>
              Prop(CreateNonSiderealTarget(simbadResponse, schemeRequest), "dailymot") == Get(simbadResponse, "mean_daily_motion")
    ensures schemeRequest == JStr("MPC_MINOR_PLANET") ==>
              Prop(CreateNonSiderealTarget(simbadResponse, schemeRequest), "dailymot") == Some(JNull)
   {
    assert "dailymot" !in BaseTarget(simbadResponse, schemeRequest);
  }

  /** `epochofperih` is set, to null, exactly for MPC_MINOR_PLANET. */
  lemma PerihelionEpochByScheme(simbadResponse: Json, schemeRequest: Json)
    requires simbadResponse != JNull
    ensures "epochofperih" in CreateNonSiderealTarget(simbadResponse, schemeRequest) <==>
              schemeRequest == JStr("MPC_MINOR_PLANET")
    ensures schemeRequest == JStr("MPC_MINOR_PLANET") ==>
              Prop(CreateNonSiderealTarget(simbadResponse, schemeRequest), "epochofperih") == Some(JNull)
  {
    assert "epochofperih" !in BaseTarget(simbadResponse, schemeRequest);
  }

  /**
    In the request a JPL_MAJOR_PLANET target carries `dailymot` only when the response has a
    daily motion: an undefined one is not serialised.
   */
  lemma DailyMotionSerialised(simbadResponse: Json, schemeRequest: Json)
    requires simbadResponse != JNull
    ensures "dailymot" in Keys(Serialise(CreateNonSiderealTarget(simbadResponse, schemeRequest))) <==>
              (schemeRequest == JStr("JPL_MAJOR_PLANET") && Get(simbadResponse, "mean_daily_motion").Some?)
              || schemeRequest == JStr("MPC_MINOR_PLANET")
  {
    DailyMotionByScheme(simbadResponse, schemeRequest);
  }

  // ---------------------------------------------------------------------------------------
  // The exported builders (lines 113-123)

  /** `payload.configurations[0].target = target` on a payload whose first configuration is an object. */
  function AttachTarget(payload: Json, target: Json): (r: Json)
    requires Get(payload, "configurations").Some?
    requires var cs := Get(payload, "configurations").value; cs.JArr? && |cs.items| >= 1 && cs.items[0].JObj?
    ensures Keys(r) == Keys(payload)
    ensures forall k :: k in Keys(payload) && k != "configurations" ==> r.fields[k] == payload.fields[k]
  {
    var cs := payload.fields["configurations"].items;
    SetKey(payload, "configurations", JArr([SetKey(cs[0], "target", target)] + cs[1..]))
  }

  function CreatePayloadForSiderealRequests<D>(target: Json, exposures: Json, startDate: D, endDate: D,
                                               cadenceObj: Json, formatToUTC: D -> Option<string>): (p: Json)
    requires target != JNull
    requires forall x :: x in ExposureList(exposures) ==> x != JNull
    ensures Keys(p) == BaseKeys + (if Truthy(cadenceObj) then {"cadence"} else {})
  {
    BaseConfigurations(exposures, startDate, endDate, cadenceObj, formatToUTC);
    var payload := CreateBasePayload(exposures, startDate, endDate, cadenceObj, formatToUTC);
    AttachTarget(payload, Serialise(CreateSiderealTarget(target)))
  }

  function CreateTargetPayloadForNonSiderealRequest<D>(simbadResponse: Json, schemeRequest: Json,
                                                       exposures: Json, startDate: D, endDate: D,
                                                       cadenceObj: Json, formatToUTC: D -> Option<string>): (p: Json)
    requires simbadResponse != JNull
    requires forall x :: x in ExposureList(exposures) ==> x != JNull
    ensures Keys(p) == BaseKeys + (if Truthy(cadenceObj) then {"cadence"} else {})
  {
    BaseConfigurations(exposures, startDate, endDate, cadenceObj, formatToUTC);
    var payload := CreateBasePayload(exposures, startDate, endDate, cadenceObj, formatToUTC);
    AttachTarget(payload, Serialise(CreateNonSiderealTarget(simbadResponse, schemeRequest)))
  }

  /**
    Attaching a target keeps every key of the base payload; the one configuration gains the
    target and nothing else changes.
   */
  lemma TargetAttached<D>(exposures: Json, startDate: D, endDate: D, cadenceObj: Json,
                          formatToUTC: D -> Option<string>, target: Json)
    requires forall x :: x in ExposureList(exposures) ==> x != JNull
    ensures var base := CreateBasePayload(exposures, startDate, endDate, cadenceObj, formatToUTC);
      var p := AttachTarget(base, target);
      && Keys(p) == Keys(base)
      && (forall k :: k in Keys(base) && k != "configurations" ==> p.fields[k] == base.fields[k])
      && p.fields["configurations"] == JArr([SetKey(Configuration(exposures), "target", target)])
      && Keys(SetKey(Configuration(exposures), "target", target)) == Keys(Configuration(exposures)) + {"target"}
  {
  }

  /** A sidereal request: one configuration, carrying the sidereal target. */
  lemma SiderealRequest<D>(target: Json, exposures: Json, startDate: D, endDate: D,
                           cadenceObj: Json, formatToUTC: D -> Option<string>)
    requires target != JNull
    requires forall x :: x in ExposureList(exposures) ==> x != JNull
    ensures var p := CreatePayloadForSiderealRequests(target, exposures, startDate, endDate, cadenceObj, formatToUTC);
      && p.fields["configurations"] == JArr([SetKey(Configuration(exposures), "target", Serialise(CreateSiderealTarget(target)))])
  {
    TargetAttached(exposures, startDate, endDate, cadenceObj, formatToUTC, Serialise(CreateSiderealTarget(target)));
  }

  /** A non-sidereal request: one configuration, carrying the orbital-elements target. */
  lemma NonSiderealRequest<D>(simbadResponse: Json, schemeRequest: Json, exposures: Json,
                              startDate: D, endDate: D, cadenceObj: Json, formatToUTC: D -> Option<string>)
    requires simbadResponse != JNull
    requires forall x :: x in ExposureList(exposures) ==> x != JNull
    ensures var p := CreateTargetPayloadForNonSiderealRequest(simbadResponse, schemeRequest, exposures,
                                                               startDate, endDate, cadenceObj, formatToUTC);
      && p.fields["configurations"] ==
           JArr([SetKey(Configuration(exposures), "target", Serialise(CreateNonSiderealTarget(simbadResponse, schemeRequest)))])
  {
    TargetAttached(exposures, startDate, endDate, cadenceObj, formatToUTC,
                   Serialise(CreateNonSiderealTarget(simbadResponse, schemeRequest)));
  }
}
