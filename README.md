# LCO education platform: a Dafny model of its client-side logic

The LCO education platform is a Vue client. Students use it to book time on the Las Cumbres
Observatory 0.4 m telescopes, to follow a real-time observing session and to browse their
observations. Most of the client is wiring between components and the observation-portal REST
API. This project models the deterministic logic inside it and proves what that logic promises:

- **Visibility** (`visibility.dfy`, module `Visibility`): the Julian date of today's date, as in
  chapter 7 of Meeus's *Astronomical Algorithms*; Greenwich and local sidereal time with their
  reductions and wraps; and the sorting of the targets that stand more than 30 degrees above the
  horizon into nebulae, galaxies, supernovae, clusters and other.
- **Coordinate parsing** (`convert_radec.dfy`, `ConvertRaDec`): sexagesimal right ascension and
  declination text to decimal degrees, with JavaScript's `Number` on each field.
- **Countdown texts** (`format_time.dfy`, `FormatTime`): days / hours and minutes / minutes and
  seconds, and the seconds until a session starts or ends.
- **Scheduling request** (`payload.dfy`, `Payload`): the JSON request for a sidereal or a
  non-sidereal (orbital elements) target, including instrument configurations, windows or
  cadence, and constraints.
- **Stores**:
  - `obs_portal_data.dfy`, `ObsPortalData`: completed observations and upcoming real-time
    sessions, first write wins.
  - `proposal_management.dfy`, `ProposalManagement`: active proposals and those with real-time
    credit.
  - `sessions.dfy`, `Sessions`: locally created sessions and their ids.
  - `real_time_sessions.dfy`, `RealTimeSessions`: login tokens, image-capture flags and the
    poll interval.
- **Utilities**:
  - `calendar_utils.dfy`, `CalendarUtils`: the current semester.
  - `populate_instruments.dfy`, `PopulateInstruments`: the schedulable filters of the 0.4 m
    instruments.
  - `telescope_states.dfy`, `TelescopeStates`: the telescope-state URL, key and fallback.

Shared modules:

- `Common`: `Option`, plus two sequence lemmas.
- `Json`: JSON values, JavaScript truthiness, property access, and serialisation that leaves out
  `undefined`.
- `Strings`: `trim`, `split`, splitting on runs of whitespace and colons, `String(n)`, `padStart`.

Stores whose actions update state in place are classes with those fields and `modifies`
clauses. Every action is proved against a function of the old state, and the lemmas are proved
about those functions. Each loop of the source is a Dafny loop with invariants: the `for` loop
of the visibility code is a `for` loop; the proposal loop, the `for…of` over the observations
and the `forEach` over the instruments are `while` loops. The clock is always a parameter: an `Instant` for `visibility.js`, and
millisecond timestamps elsewhere.

## Model

| member | source | states |
|---|---|---|
| Visibility.Sign | src/utils/visibility.js:17 | -1, 0 or 1 exactly when the argument is negative, zero or positive |
| Visibility.DecimalHours | src/utils/visibility.js:19-21 | the time of day in hours (3600·h = seconds since midnight), in [0, 24) for a valid clock |
| Visibility.JulianDate | src/utils/visibility.js:23-36 | the result is Meeus's Julian day at 0h UT of the instant's calendar date; the time of day plays no part |
| Visibility.JanuaryFebruaryAreMonthsOfPreviousYear | src/utils/visibility.js:27-30 | January and February give the Julian day of months 13 and 14 of the previous year |
| Visibility.YearPartStep | src/utils/visibility.js:31-33 | the year terms A, B and INT(365.25·y) grow by 366 days exactly across Gregorian leap years, and by 365 otherwise |
| Visibility.NextDateIsOneDayLater | src/utils/visibility.js:31-35 | consecutive Gregorian dates have Julian days exactly 1 apart, across month ends, year ends and leap days |
| Visibility.ReduceToDay | src/utils/visibility.js:42-46 | the reduced T0 lies in [0, 24) and differs from T0 by whole days, for either sign |
| Visibility.Gst | src/utils/visibility.js:38-55 | the result is the polynomial plus sidereal-scaled hours, up to whole days; it is ≥ 0 for hours ≥ 0; below 24·1.002737909 for hours in [0, 24); exactly 24 when the sum is 24 (no wrap) |
| Visibility.Lst | src/utils/visibility.js:57-68 | the result is gst + lon/15 up to whole days; it lies in [0, 24] when that sum is in [-24, 48]; with lon = 0 and gst in [0, 24] it returns gst unchanged |
| Visibility.CalculateLst | src/utils/visibility.js:70-75 | the local sidereal time of the injected clock, up to whole days; in [0, 24] for a valid clock and lon in [-180, 180] |
| Visibility.Classify | src/utils/visibility.js:104-114 | galaxies iff the code starts with '5'; supernovae iff it starts with "4.1.4"; nebulae iff it starts with '4' but not "4.1.4"; clusters iff it starts with "3.6" |
| Visibility.Kept | src/utils/visibility.js:86-92 | never more records than targets scanned (what each record holds is KeptRecords) |
| Visibility.VisibleTargetsOf | src/utils/visibility.js:80-123 | the five lists together hold exactly the kept records' number, never more than there are targets |
| Visibility.CalculateVisibleTargets | src/utils/visibility.js:77-125 | the loop's five buckets equal the reference definition VisibleTargetsOf |
| Visibility.SupernovaeBeforeNebulae | src/utils/visibility.js:104-114 | every code starting "4.1.4" is classified as a supernova, never as a nebula |
| Visibility.ClassifyExamples | src/utils/visibility.js:104-114 | first-match order: "4.1.4B" supernovae, "5A" galaxies, "4.2" nebulae, "3.6C" clusters, others and "" other |
| Visibility.KeptRecords | src/utils/visibility.js:86-103 | a record is kept iff its altitude is strictly above 30; a kept record has id = input index, copies the target's fields, and takes alt from index 1 and az from index 0 of calcAltAz |
| Visibility.KeptOrdered | src/utils/visibility.js:86-115 | kept records are in strictly increasing input index |
| Visibility.KeptCount | src/utils/visibility.js:86-92 | as many records are kept as there are indices with altitude above 30 |
| Visibility.InCategoryContents | src/utils/visibility.js:104-114 | a category's list holds exactly the kept records of that category |
| Visibility.InCategoryOrdered | src/utils/visibility.js:104-114 | selecting one category keeps increasing index order |
| Visibility.CategoryLengthsAddUp | src/utils/visibility.js:104-114 | the five category lengths add up to the number of records |
| Visibility.BucketIsCategory | src/utils/visibility.js:104-123 | each result key holds the kept records of its category |
| Visibility.VisibleTargetsBuckets | src/utils/visibility.js:86-115 | a target is in bucket c iff its altitude is above 30 and its code selects c: each kept target is in exactly one bucket |
| Visibility.VisibleTargetsTotal | src/utils/visibility.js:86-115 | the bucket sizes add up to the number of targets strictly above 30 degrees |
| Visibility.VisibleTargetsOrdered | src/utils/visibility.js:86-115 | every bucket is in increasing input order |
| Visibility.NoTargetsNoneVisible | src/utils/visibility.js:80-123 | no targets gives five empty lists |
| ConvertRaDec.ParseDigits | src/utils/convertRaDec.js:2 | `Number` reads a digit run as the integer it spells |
| ConvertRaDec.SignedDigits | src/utils/convertRaDec.js:2 | a leading '-' negates a digit run's value, a leading '+' keeps it, and an empty field is 0 |
| ConvertRaDec.ParseDigitsPointDigits | src/utils/convertRaDec.js:2 | `Number` reads digits, a point and digits as the decimal value they spell |
| ConvertRaDec.DecimalTextValue | src/utils/convertRaDec.js:2 | seconds text such as "44.330" is read back as the value it was written from |
| ConvertRaDec.RemoveFirstSign | src/utils/convertRaDec.js:6 | text without a sign is unchanged; otherwise exactly one character is removed |
| ConvertRaDec.RemoveFirstSignAt | src/utils/convertRaDec.js:6 | the removed character is the first '+' or '-'; everything before and after it stays |
| ConvertRaDec.SecondSignSurvives | src/utils/convertRaDec.js:6 | the replace is not global: "--5" becomes "-5" |
| ConvertRaDec.InnerSignRemoved | src/utils/convertRaDec.js:6 | a sign inside the text is removed when there is no earlier one: "12+30-00" becomes "1230-00" |
| ConvertRaDec.RaRoundTrip | src/utils/convertRaDec.js:2-3 | three unsigned numerals worth x, y, z, separated by any non-empty runs of blanks and colons and with any whitespace before and after, read back as 15·(x + y/60 + z/3600) |
| ConvertRaDec.RaDecimalRoundTrip | src/utils/convertRaDec.js:2-3 | the same with decimal seconds such as "00:42:44.330" |
| ConvertRaDec.RaSeparatorsInterchangeable | src/utils/convertRaDec.js:2 | two texts that neither begin nor end with whitespace, and differ only where both hold a blank or colon, give the same right ascension |
| ConvertRaDec.MissingFieldIsNaN | src/utils/convertRaDec.js:2-3 | fewer than three fields make the right ascension NaN |
| ConvertRaDec.NoLeadingSign | src/utils/convertRaDec.js:5-6 | unsigned text is left as it is and counts as positive |
| ConvertRaDec.LeadingSign | src/utils/convertRaDec.js:5-6 | a leading sign is removed, and the factor is -1 exactly for '-' |
| ConvertRaDec.SignOfUnpadded | src/utils/convertRaDec.js:5 | text that does not begin with whitespace is negative exactly when its first character is '-' |
| ConvertRaDec.DecFieldsRoundTrip | src/utils/convertRaDec.js:5-7 | whitespace, an optional sign, blanks, three unsigned numerals worth x, y, z separated by runs of blanks and colons, and whitespace give x + y/60 + z/3600, negated exactly for '-' |
| ConvertRaDec.DecRoundTrip | src/utils/convertRaDec.js:5-7 | padded `[sign]dd<run>mm<run>ss` reads back as sign·(d + m/60 + s/3600), also for d = 0 ("-00 30 00" is -0.5) |
| ConvertRaDec.DecSeparatorsInterchangeable | src/utils/convertRaDec.js:5-6 | the same interchange for declinations, when the text left after the sign is removed does not begin or end with whitespace either |
| ConvertRaDec.RaDecRoundTrip | src/utils/convertRaDec.js:1-8 | `raDecToDegrees` of colon-separated texts gives 15·(h + m/60 + s/3600) and ±(d + m/60 + s/3600), each from its own text |
| FormatTime.JsRemainder60 | src/utils/formatTime.js:34 | JavaScript's `% 60`: the remainder has the sign of the dividend, magnitude below 60, and differs from it by a multiple of 60 |
| FormatTime.DescribesUnique | src/utils/formatTime.js:21-37 | at most one reading (days / hours and minutes / minutes and seconds) truthfully describes a number of seconds |
| FormatTime.DaysReadBack | src/utils/formatTime.js:25-27 | the days text reads back as its number of days, singular exactly for 1 |
| FormatTime.HoursMinutesReadBack | src/utils/formatTime.js:28-31 | the hours text reads back as its hours and minutes, zero-padded, singular exactly for 1 |
| FormatTime.MinutesSecondsReadBack | src/utils/formatTime.js:32-35 | the minutes text reads back as its minutes and seconds, zero-padded, singular exactly for 1 |
| FormatTime.DaysBranch | src/utils/formatTime.js:25-27 | from 86400 seconds on, the text says floor(s / 86400) days, which describes s |
| FormatTime.HoursBranch | src/utils/formatTime.js:28-31 | from 3600 to 86399, the text says floor(s / 3600) hours and floor((s mod 3600) / 60) minutes, which describes s |
| FormatTime.MinutesBranch | src/utils/formatTime.js:32-35 | from 0 to 3599 seconds, the text says floor(s / 60) minutes and s % 60 seconds, which describes s |
| FormatTime.FormatCountdownReadsBack | src/utils/formatTime.js:21-37 | for every s ≥ 0 the text reads back as a truthful account of s: days iff s ≥ 86400, minutes and seconds iff s < 3600 |
| FormatTime.OneDayExample | src/utils/formatTime.js:25-27 | the lower bound is inclusive: 86400 is "1 day" |
| FormatTime.TwoDaysExample | src/utils/formatTime.js:25-27 | 172800 is "2 days" |
| FormatTime.HoursFields | src/utils/formatTime.js:28-31 | in the hours branch, 1 ≤ hours < 24 and 0 ≤ minutes < 60, and they bound s to within one minute |
| FormatTime.MinutesFields | src/utils/formatTime.js:32-35 | from 0 to 3599 seconds, minutes and seconds are below 60 and minutes·60 + seconds = s |
| FormatTime.NegativeCountdownFields | src/utils/formatTime.js:32-35 | below zero and not a multiple of 60, floored minutes and a truncated remainder come out one minute short of s |
| FormatTime.NegativeWholeMinutesFields | src/utils/formatTime.js:32-35 | below zero and a multiple of 60, the minutes are s / 60 and the seconds 0, which add up to s exactly |
| FormatTime.CalculateSessionCountdown | src/utils/formatTime.js:40-47 | counts to the start if it parses and is still ahead, otherwise to the end; NaN exactly when that date cannot be parsed, else its distance in whole seconds rounded down |
| FormatTime.CountdownBeforeStart | src/utils/formatTime.js:45-46 | before the start the result is in [0, (start − now)/1000], and positive iff the start is at least a second away |
| FormatTime.CountdownAfterStart | src/utils/formatTime.js:45-46 | once started, the seconds left to the end, negative iff the end has passed |
| FormatTime.InvalidStartCountsToEnd | src/utils/formatTime.js:42-45 | an unparsable start counts as passed: the countdown is the one to the end, as for a session starting now |
| FormatTime.NaNCountdown | src/utils/formatTime.js:42-46 | NaN iff the start is not ahead and the end cannot be parsed; so always when neither parses |
| FormatTime.NaNCountdownUnreadable | src/utils/formatTime.js:32-35 | a NaN countdown splits into the words "NaN minutes and NaN seconds", and that text reads as no countdown at all |
| Payload.EmptyArrayIsZero | src/utils/payloadForRequestedObservations.js:68-69 | `Number([])` is 0, the same as `Number('')` and `Number(null)` |
| Payload.SingletonArrayIsItsElement | src/utils/payloadForRequestedObservations.js:68-69 | a one-element array reads as its element, unless that is a boolean |
| Payload.BooleanInArrayIsNaN | src/utils/payloadForRequestedObservations.js:68-69 | `[true]` and `[false]` are NaN, while `true` and `false` are 1 and 0 |
| Payload.LongerArraysAreNaN | src/utils/payloadForRequestedObservations.js:68-69 | arrays of two or more elements are NaN |
| Payload.NestedSingletons | src/utils/payloadForRequestedObservations.js:68-69 | a value inside any number of one-element arrays reads as the value itself |
| Payload.NumberJsonReadBack | src/utils/payloadForRequestedObservations.js:68-69 | a serialised number reads back as itself; NaN is written as null, which reads back as 0 |
| Payload.NumberJsonInjective | src/utils/payloadForRequestedObservations.js:68-69 | distinct numbers serialise distinctly, and only NaN as null |
| Payload.ExposureCount | src/utils/payloadForRequestedObservations.js:7 | always truthy; the exposure's own count exactly when that is truthy, otherwise 1 |
| Payload.InstrumentConfig | src/utils/payloadForRequestedObservations.js:6-19 | an object with the five fixed keys, plus exposure_time exactly when the exposure has one |
| Payload.InstrumentConfigs | src/utils/payloadForRequestedObservations.js:6-19 | one configuration per exposure, in order |
| Payload.CreateInstrumentConfigs | src/utils/payloadForRequestedObservations.js:4-20 | as many configurations as the array has exposures (one for a single exposure), configuration i made from exposure i |
| Payload.SingleExposureWrapped | src/utils/payloadForRequestedObservations.js:5 | a single non-array exposure gives exactly one configuration, for it |
| Payload.ConfigsFollowExposures | src/utils/payloadForRequestedObservations.js:5-6 | configuration i is made from exposure i |
| Payload.ConfigsOfAppend | src/utils/payloadForRequestedObservations.js:6-19 | appending an exposure appends its configuration and leaves the earlier ones alone |
| Payload.InstrumentConfigFields | src/utils/payloadForRequestedObservations.js:7-18 | the configuration's fields: mode 'central30x30' and rotator_mode ''; exposure_time and filter copied, absent when undefined |
| Payload.ExposureCountDefault | src/utils/payloadForRequestedObservations.js:7 | exposure_count is `count` when truthy, otherwise 1 |
| Payload.Spread | src/utils/payloadForRequestedObservations.js:58 | `{ ...cadence }`: an object's own fields; an array's elements under String(i) and no other key; a string's characters under their indices; nothing for null, booleans and numbers |
| Payload.IndexMapLookup | src/utils/payloadForRequestedObservations.js:58 | spreading an array puts element i under the key String(i) |
| Payload.IndexMapKeys | src/utils/payloadForRequestedObservations.js:58 | the index keys are the only keys of a spread array |
| Payload.IndexMapAll | src/utils/payloadForRequestedObservations.js:58 | every element sits under its index, and there is no other key |
| Payload.SpreadOfArray | src/utils/payloadForRequestedObservations.js:58 | an array cadence is copied element by element under its indices |
| Payload.CadenceIsShallowCopy | src/utils/payloadForRequestedObservations.js:58 | an object cadence is copied field for field |
| Payload.Window | src/utils/payloadForRequestedObservations.js:48-51 | the window's start and end are each present exactly when their date is valid, holding the formatted date |
| Payload.WindowOfValidDates | src/utils/payloadForRequestedObservations.js:48-51 | with both dates valid the window is exactly { start, end } of the two formatted dates |
| Payload.InvalidDateLeftOut | src/utils/payloadForRequestedObservations.js:48-51 | an invalid date's bound is left out when serialised and the other is kept, so the window lacks a key |
| Payload.CreateBasePayload | src/utils/payloadForRequestedObservations.js:22-62 | an object whose configurations are exactly the one base configuration |
| Payload.BaseConfigurations | src/utils/payloadForRequestedObservations.js:27-45 | every payload has exactly one configuration |
| Payload.PayloadKeys | src/utils/payloadForRequestedObservations.js:22-62 | the six base keys always, plus `cadence` exactly when the cadence is truthy |
| Payload.WindowsWithCadence | src/utils/payloadForRequestedObservations.js:46-59 | with a cadence, windows is empty and `cadence` is a copy of it |
| Payload.WindowsWithoutCadence | src/utils/payloadForRequestedObservations.js:46-59 | without a cadence, exactly one window, the Window of the two dates (each bound present iff its date is valid), and no `cadence` key |
| Payload.FixedConstraints | src/utils/payloadForRequestedObservations.js:40-54 | max_airmass 1.6, min_lunar_distance 30, max_lunar_phase 1 and telescope_class '0m4' in every request |
| Payload.CreateSiderealTarget | src/utils/payloadForRequestedObservations.js:64-76 | exactly the nine keys, every one defined except possibly name |
| Payload.SiderealTargetShape | src/utils/payloadForRequestedObservations.js:64-76 | the name copied, type 'ICRS', epoch 2000 |
| Payload.SiderealTargetNulls | src/utils/payloadForRequestedObservations.js:70-73 | proper motions and parallax are null |
| Payload.SiderealNumbers | src/utils/payloadForRequestedObservations.js:68-69 | ra and dec are each `Number` of the target's own field, arrays read through their text, NaN written as null |
| Payload.SiderealRa | src/utils/payloadForRequestedObservations.js:68 | a numeric ra is kept; a string ra is parsed; a missing ra becomes NaN, written as null |
| Payload.SiderealDec | src/utils/payloadForRequestedObservations.js:69 | the same for dec, independently of ra |
| Payload.NumeralNumber | src/utils/payloadForRequestedObservations.js:68 | `Number` of a decimal numeral is the value it was written from |
| Payload.SiderealRaFromNumeral | src/utils/payloadForRequestedObservations.js:68 | an ra sent as a decimal numeral arrives as its value |
| Payload.EpochOfElements | src/utils/payloadForRequestedObservations.js:79-81 | a number exactly when `Number(epoch_jd)` is one, and then adding 2400000.5 gives it back; otherwise null |
| Payload.EpochIsModifiedJulianDate | src/utils/payloadForRequestedObservations.js:79-81 | a numeric epoch_jd arrives as epoch_jd − 2400000.5, and adding the offset back recovers it |
| Payload.MissingEpochIsNull | src/utils/payloadForRequestedObservations.js:79-81 | a missing epoch_jd gives NaN, serialised as null |
| Payload.WithSchemeProperties | src/utils/payloadForRequestedObservations.js:103-108 | the scheme step touches no key other than dailymot and epochofperih |
| Payload.NonSiderealTargetShape | src/utils/payloadForRequestedObservations.js:83-101 | type 'ORBITAL_ELEMENTS', with null ra and dec |
| Payload.NonSiderealSchemeAndEpoch | src/utils/payloadForRequestedObservations.js:92-100 | the scheme is the one requested; epochofel is the MJD epoch; perihdist is null |
| Payload.OrbitalElementsCopied | src/utils/payloadForRequestedObservations.js:93-95 | name, inclination, ascending node and argument of perihelion are copied under the portal's names |
| Payload.OrbitShapeCopied | src/utils/payloadForRequestedObservations.js:96-98 | eccentricity, semi-major axis and mean anomaly are copied |
| Payload.DailyMotionByScheme | src/utils/payloadForRequestedObservations.js:103-108 | dailymot is set iff the scheme is JPL_MAJOR_PLANET (mean_daily_motion) or MPC_MINOR_PLANET (null) |
| Payload.PerihelionEpochByScheme | src/utils/payloadForRequestedObservations.js:105-107 | epochofperih is set, to null, iff the scheme is MPC_MINOR_PLANET |
| Payload.DailyMotionSerialised | src/utils/payloadForRequestedObservations.js:103-108 | dailymot appears in the request iff MPC_MINOR_PLANET, or JPL_MAJOR_PLANET with a mean_daily_motion |
| Payload.AttachTarget | src/utils/payloadForRequestedObservations.js:115 | attaching the target keeps the payload's keys, and changes nothing outside `configurations` |
| Payload.TargetAttached | src/utils/payloadForRequestedObservations.js:114-116 | after attaching, the only configuration is the base one plus a `target` key holding the target |
| Payload.CreatePayloadForSiderealRequests | src/utils/payloadForRequestedObservations.js:113-117 | the request has the six base keys, plus `cadence` exactly when a cadence is given |
| Payload.CreateTargetPayloadForNonSiderealRequest | src/utils/payloadForRequestedObservations.js:119-123 | the request has the six base keys, plus `cadence` exactly when a cadence is given |
| Payload.SiderealRequest | src/utils/payloadForRequestedObservations.js:113-117 | the sidereal request's one configuration carries the sidereal target |
| Payload.NonSiderealRequest | src/utils/payloadForRequestedObservations.js:119-123 | the non-sidereal request's one configuration carries the orbital-elements target |
| ObsPortalData.KeepFirst | src/stores/obsPortalData.js:25-30 | the dictionary only grows: every entry stays unchanged, the id gains an entry, and that entry is the result when the id had none |
| ObsPortalData.Step | src/stores/obsPortalData.js:23-32 | no entry is lost or changed, and the result's id is added to exactly the dictionary of its class |
| ObsPortalData.SortAll | src/stores/obsPortalData.js:22-33 | across a whole response both dictionaries only grow, and no entry changes |
| ObsPortalData.AtMostOneDictionary | src/stores/obsPortalData.js:24-28 | no result is both completed and upcoming; COMPLETED is always completed, whatever its type or end |
| ObsPortalData.NeitherDictionary | src/stores/obsPortalData.js:24-28 | a non-completed normal result, or a real-time one ending exactly now, changes neither dictionary |
| ObsPortalData.EveryResultFiled | src/stores/obsPortalData.js:22-33 | every completed result has an entry in the completed dictionary, and every upcoming one in the upcoming dictionary |
| ObsPortalData.FirstCompletedKept | src/stores/obsPortalData.js:24-27 | a new completed entry is the first completed result with that id |
| ObsPortalData.NotYetFiled | src/stores/obsPortalData.js:22-33 | an id with no completed result stays out of the completed dictionary |
| ObsPortalData.FirstUpcomingKept | src/stores/obsPortalData.js:28-31 | a new upcoming entry is the first upcoming result with that id |
| ObsPortalData.NotYetUpcoming | src/stores/obsPortalData.js:28-31 | an id with no upcoming result stays out of the upcoming dictionary |
| ObsPortalData.EntriesFromResults | src/stores/obsPortalData.js:22-33 | every entry was there before, or comes from a result of this response filed in its class |
| ObsPortalData.SortedAlready | src/stores/obsPortalData.js:22-33 | once every result is filed, filing them again changes nothing |
| ObsPortalData.Idempotent | src/stores/obsPortalData.js:20-34 | sorting the same response twice equals sorting it once |
| ObsPortalData.ObsPortalDataStore.constructor | src/stores/obsPortalData.js:9-17 | empty dictionaries and list, an empty details object, a null selected configuration |
| ObsPortalData.ObsPortalDataStore.SortResponseData | src/stores/obsPortalData.js:20-34 | the loop leaves the dictionaries as SortAll of the old ones, and the other fields unchanged |
| ObsPortalData.ObsPortalDataStore.SetSelectedConfiguration | src/stores/obsPortalData.js:59-61 | only selectedConfiguration changes |
| ProposalManagement.AnyCredit | src/stores/proposalManagement.js:30-34 | true iff some allocation has realtime_allocation − realtime_time_used > 0 |
| ProposalManagement.ActiveProposals | src/stores/proposalManagement.js:26 | no longer than the input, and every element is current and from the input |
| ProposalManagement.RealTimeProposals | src/stores/proposalManagement.js:28-37 | no longer than the input, and every element has credit left and is from the input |
| ProposalManagement.ActiveMembers | src/stores/proposalManagement.js:26 | a proposal is active iff it is in the input with `current === true` |
| ProposalManagement.ActiveInOrder | src/stores/proposalManagement.js:26 | the active list keeps input order (it is a subsequence) |
| ProposalManagement.RealTimeMembers | src/stores/proposalManagement.js:28-37 | a proposal is pushed iff it is in the list and some allocation has credit |
| ProposalManagement.RealTimeInOrder | src/stores/proposalManagement.js:28-37 | the pushed proposals keep their order |
| ProposalManagement.RealTimeOfActive | src/stores/proposalManagement.js:26-37 | the real-time list holds exactly the current proposals with credit, as an ordered subsequence of the active list; non-current ones are in neither list |
| ProposalManagement.ActiveIdempotent | src/stores/proposalManagement.js:23-27 | filtering the active list again removes nothing |
| ProposalManagement.ActiveOfAppend | src/stores/proposalManagement.js:26 | filtering distributes over concatenation |
| ProposalManagement.NoAllocationsNoRealTime | src/stores/proposalManagement.js:30 | a proposal without allocations is never real-time |
| ProposalManagement.ProposalStore.constructor | src/stores/proposalManagement.js:6-11 | both lists start empty |
| ProposalManagement.ProposalStore.SortProposals | src/stores/proposalManagement.js:22-39 | both lists depend only on the argument: the active proposals, and the real-time ones among them |
| Sessions.SessionObject | src/stores/sessions.js:22 | `{ ...session, id }`: every field of the session, with `id` set to its id |
| Sessions.NewSession | src/stores/sessions.js:22 | the new session has the counter as its id; any id passed in is dropped; the other fields are kept |
| Sessions.Find | src/stores/sessions.js:14 | a found session is stored under the id; nothing is found iff the id is null or no session carries it |
| Sessions.FindFirst | src/stores/sessions.js:14 | find returns the first session with the id |
| Sessions.AddKeepsIdsValid | src/stores/sessions.js:22-25 | adding keeps ids distinct and below the counter, and the new session is found under its id |
| Sessions.CurrentSessionObject | src/stores/sessions.js:13-15 | `{}` iff no session has the current id, otherwise the first such session |
| Sessions.SessionsStore.constructor | src/stores/sessions.js:4-10 | no sessions, a null current id, counter 0; the id invariant holds |
| Sessions.SessionsStore.AddSession | src/stores/sessions.js:21-26 | appends the session with the old counter as id, increments the counter by 1, makes it current; keeps the id invariant and the getter returns it |
| RealTimeSessions.TokenAfterStore | src/stores/realTimeSessions.js:53-55 | the token read back is the old one if there was one (an empty token counts as none), otherwise the new one; other sessions' tokens are unchanged |
| RealTimeSessions.SecondTokenIgnored | src/stores/realTimeSessions.js:53-55 | a second login response never changes the first stored token |
| RealTimeSessions.SetFlagIfTruthy | src/stores/realTimeSessions.js:98-102 | only the current id's entry is written, and only when that id is truthy (0 and null leave the map unchanged) |
| RealTimeSessions.CaptureFlagReadBack | src/stores/realTimeSessions.js:98-102 | after an update the current flag reads back as the value written when the id is truthy, otherwise as before |
| RealTimeSessions.NextInterval | src/stores/realTimeSessions.js:79-86 | 10000 iff 0 < time ≤ 600 and INACTIVE; 1000 iff ACTIVE; 60000 otherwise |
| RealTimeSessions.PollingAroundStart | src/stores/realTimeSessions.js:78-86 | combined with the countdown: an inactive session starting 1 to 601 seconds from now is polled every 10 s, an ended one every 60 s |
| RealTimeSessions.CurrentSessionOfSorted | src/stores/realTimeSessions.js:22-28 | after sorting a response, the getter finds under an upcoming real-time result's id the first upcoming result with that id, when none was filed before |
| RealTimeSessions.NoCurrentSession | src/stores/realTimeSessions.js:22-28 | the null id, or an id that no upcoming result carries and that was not filed before, finds no session |
| RealTimeSessions.RealTimeSessionsStore.constructor | src/stores/realTimeSessions.js:10-18 | null id, empty status, empty maps and telescope state |
| RealTimeSessions.RealTimeSessionsStore.ResetSessionState | src/stores/realTimeSessions.js:40-44 | the current session's flag becomes false if the id is truthy; nothing else changes |
| RealTimeSessions.RealTimeSessionsStore.UpdateImageCaptureState | src/stores/realTimeSessions.js:98-102 | the current session's flag becomes the value if the id is truthy; nothing else changes |
| RealTimeSessions.RealTimeSessionsStore.StoreSessionToken | src/stores/realTimeSessions.js:53-55 | the token write-once rule for the current id; nothing else changes |
| RealTimeSessions.RealTimeSessionsStore.ChooseNextInterval | src/stores/realTimeSessions.js:79-86 | the interval for the store's current status |
| CalendarUtils.FindCurrent | src/utils/calendarUtils.js:9-13 | a found semester contains today, both ends inclusive; none is found iff no semester contains today |
| CalendarUtils.FindCurrentIsFirst | src/utils/calendarUtils.js:9-13 | the semester found is the first in list order that contains today |
| CalendarUtils.UpdateFromOneSemester | src/utils/calendarUtils.js:14-17 | after an update the two variables are the previous pair, or the start and end of one semester that contains today: they never mix semesters |
| CalendarUtils.SetDatesStaySet | src/utils/calendarUtils.js:14-17 | once set, neither variable goes back to null |
| CalendarUtils.SemesterState.constructor | src/utils/calendarUtils.js:4-5 | both variables start as null |
| CalendarUtils.SemesterState.GetStartAndEndDatesOfCurrentSemester | src/utils/calendarUtils.js:7-18 | the new variables are UpdateDates of the old ones |
| PopulateInstruments.Project | src/utils/populateInstrumentsUtils.js:18 | exactly the keys name and code, copied from the filter |
| PopulateInstruments.SchedulableFilters | src/utils/populateInstrumentsUtils.js:16-18 | no more entries than filters, each with exactly the keys name and code |
| PopulateInstruments.Contribution | src/utils/populateInstrumentsUtils.js:15-19 | nothing unless the instrument is '0m4' with truthy filters; then at most one entry per filter, each with exactly the keys name and code |
| PopulateInstruments.SchedulableMembers | src/utils/populateInstrumentsUtils.js:16-18 | an entry is present iff it is the {name, code} of a schedulable filter |
| PopulateInstruments.SchedulableOfAppend | src/utils/populateInstrumentsUtils.js:16-18 | filter order is kept |
| PopulateInstruments.ContributionsOfAppend | src/utils/populateInstrumentsUtils.js:14-21 | instrument order is kept: the list for a concatenation is the two lists in turn |
| PopulateInstruments.FilterListMembers | src/utils/populateInstrumentsUtils.js:14-21 | an entry is present iff it is a schedulable filter of a '0m4' instrument that has filters |
| PopulateInstruments.OtherInstrumentsIgnored | src/utils/populateInstrumentsUtils.js:15 | an instrument of another class, or without filters, adds nothing |
| PopulateInstruments.NothingSchedulable | src/utils/populateInstrumentsUtils.js:14-21 | with no schedulable filter anywhere the list is empty |
| PopulateInstruments.GetFilterList | src/utils/populateInstrumentsUtils.js:10-22 | the forEach loop's result equals FilterList: [] for a falsy response, otherwise the instruments' contributions in order |
| TelescopeStates.UrlParameters | src/utils/telescopeStates.js:9 | the URL is the portal's telescope_states/? endpoint followed by a query that splits at '&' into site, telescope and enclosure, in that order |
| TelescopeStates.QueryParameters | src/utils/telescopeStates.js:9 | the query splits at '&' into the three parameters in order |
| TelescopeStates.StateKeyFields | src/utils/telescopeStates.js:13 | the key splits at '.' into site, enclosure, telescope: enclosure before telescope |
| TelescopeStates.FirstOf | src/utils/telescopeStates.js:17 | `entry[0]`: the first element of a non-empty array, undefined for an empty one or for a number, boolean or null |
| TelescopeStates.FirstStateReturned | src/utils/telescopeStates.js:12-17 | a non-empty state list under the key gives its first state |
| TelescopeStates.OtherKeysIgnored | src/utils/telescopeStates.js:13-15 | states under other keys only give 'Reason unavailable' |
| TelescopeStates.EmptyStatesUndefined | src/utils/telescopeStates.js:17 | an empty list under the key is truthy and gives undefined, not the fallback |

## Left out

- Network I/O is not modelled: `fetchApiCall`, every `fetch*` action of the stores (login, session status, observations, request groups, proposals, semesters, instruments) and the `Promise` of `getTelescopeState`. Only what the code does with a response is modelled.
- `startPolling` / `stopPolling`, the timers and the `fetchInterval` field are left out as concurrency. Only the interval choice is modelled (`ChooseNextInterval`).
- `calcAltAz` is floating-point spherical trigonometry. It is a function-typed parameter returning `(az, alt)`.
- Floating point is not modelled: all arithmetic is on exact reals.
  - The `gst` polynomial constants are exact reals.
  - `Math.floor(365.25 * y)` and `Math.floor(30.6001 * (m + 1))` are written as integer divisions.
  - The unused locals `h`, `m1`, `m` and `s` of `gst` (lines 50-53) are not modelled.
- Visibility.Gst: the result is stated up to whole days, with its bounds. The number of days subtracted is not pinned. A single strict `>` wrap follows the addition, so the result can be exactly 24 or a little above it.
- Visibility.Lst: likewise stated up to whole days, with bounds for sums in [-24, 48]. Sums outside that range are wrapped only once, as in the source.
- The clock and date parsing are parameters. `new Date()` is an `Instant` (visibility) or a millisecond timestamp (other files); `new Date(text)` in `calendarUtils.js` is a parsing function. ISO-string comparison in `sortResponseData` is integer comparison, which agrees with it for four-digit years (0000 to 9999); outside them `toISOString` writes a signed six-digit year, whose order as text is not modelled. The RangeError of `toISOString` on an invalid date is not modelled.
- Visibility.DecimalHours: takes the seconds from the same UTC instant. The source reads local `getSeconds()`, which agrees for time zones with whole-minute offsets.
- `formatToUTC` and `formatDateTime` are locale and `Date` formatting. `formatToUTC` is a parameter of the payload builders. It gives no text for an invalid date, which stands for the `undefined` that serialisation drops from the window.
- FormatTime.FormatCountdownReadsBack: covers whole, non-negative seconds only, which is what `calculateSessionCountdown` returns. Fractional seconds are not modelled. Negative seconds are described by `NegativeCountdownFields` (not a multiple of 60: one minute short) and `NegativeWholeMinutesFields` (a multiple of 60: exact).
- ConvertRaDec.ParseNumber: JavaScript's `Number` on a field covers "", an optional sign, digits, and an optional point with digits. Exponents, hexadecimal, "Infinity" and the sign of zero are not modelled. The same reading serves `Number` on the strings of a payload target (`Payload.JsNumber`) and on the single element of an array there.
- Some inputs that would throw a TypeError in the source are excluded by a `requires` instead:
  - a null exposure (`CreateInstrumentConfigs`);
  - a null target (`CreateSiderealTarget`);
  - a null SIMBAD response (`CreateNonSiderealTarget`);
  - a malformed instrument (`WellFormedInstrument` in `FilterList` and `GetFilterList`).

  Where the model gives an input a Dafny type, inputs of another JavaScript type are ruled out by it: a non-string text for `raDecToDegrees`, a non-string `avmcode`, missing `time_allocations`, and a `realtime_allocation` or `realtime_time_used` that is neither a number nor missing (a `null` there, which `5 - null` reads as 0, cannot be written). The payload's `ra`, `dec` and `epoch_jd` are JSON values, and `Number` is modelled on every JSON value, arrays included.
- `Object.values(response)` is given as the sequence of instruments, in the order `Object.values` enumerates them (integer-like keys first, in ascending order, then the other keys in insertion order).
- Session ids are a number or null (`Option<int>`). JavaScript's conversion of keys to strings (`1` and `"1"` name the same key) is not modelled.
- A login response without a token is modelled as the empty token, which reads back the same (`''`).
- `toRaw` in the `currentSession` getter of `realTimeSessions.js` is the identity on values.
- Trivial getters are not modelled separately: `telescopeAvailability`, `getAllSessions`, `getProposalsWithRealTimeAllocation` and `getAllActiveProposals` return a field as it is. `getTokenForCurrentSession` and `isCapturingImagesForCurrentSession` are `TokenFor` and `CapturingFor` of the current id.
- `prepareStore` of `sessions.js` only converts dates, and `persist: true` (local storage) is a framework feature. Both are left out.
- ObsPortalData.ObsPortalDataStore: `pendingRequestGroups` and `observationDetails` are carried unchanged. They are written only by fetch callbacks.
- Unit tests that expect behaviour the code does not have follow the code, not the tests:
  - countdown texts such as "3 hours" or "01:30";
  - a normal-time proposal list;
  - store actions that do not exist.
