/**
  The current-semester lookup of src/utils/calendarUtils.js. The module keeps the start and end
  of the current semester in two module-level variables; the model holds them as the fields of
  one object, null being None.

  `new Date(text)` is the parameter `parse`, which gives the instant a date string denotes in
  milliseconds or None for an invalid date (every comparison with an invalid date is false);
  `today` is the clock reading.
 */
module CalendarUtils {
  import opened Common

  /** A semester of the `semesters/` response: its start and end as the strings it was sent with. */
  datatype Semester = Semester(start: string, end: string)

  /** Line 12: today lies in the semester, both ends included. */
  predicate Contains(s: Semester, today: int, parse: string -> Option<int>)
  {
    parse(s.start).Some? && parse(s.end).Some?
    && today >= parse(s.start).value && today <= parse(s.end).value
  }

  /** `semesters.find(...)` (lines 9-13): the first semester in list order that contains today. */
  function FindCurrent(semesters: seq<Semester>, today: int, parse: string -> Option<int>): (r: Option<Semester>)
    ensures r.Some? ==> r.value in semesters && Contains(r.value, today, parse)
    ensures r.None? <==> forall i :: 0 <= i < |semesters| ==> !Contains(semesters[i], today, parse)
  {
    if semesters == [] then None
    else if Contains(semesters[0], today, parse) then Some(semesters[0])
    else FindCurrent(semesters[1..], today, parse)
  }

  /** The semester found is the first one containing today: no earlier one does. */
  lemma {:induction false} FindCurrentIsFirst(semesters: seq<Semester>, today: int, parse: string -> Option<int>, i: nat)
    requires i < |semesters| && Contains(semesters[i], today, parse)
    requires forall j :: 0 <= j < i ==> !Contains(semesters[j], today, parse)
    ensures FindCurrent(semesters, today, parse) == Some(semesters[i])
  {
    if i > 0 {
      assert forall j :: 0 <= j < i - 1 ==> semesters[1..][j] == semesters[j + 1];
      FindCurrentIsFirst(semesters[1..], today, parse, i - 1);
    }
  }

  /** The two module variables. */
  datatype SemesterDates = SemesterDates(start: Option<string>, end: Option<string>)

  /** Lines 14-17: both variables from the semester found, or both as they were. */
  function UpdateDates(d: SemesterDates, semesters: seq<Semester>, today: int, parse: string -> Option<int>): (r: SemesterDates)
    ensures FindCurrent(semesters, today, parse).None? ==> r == d
    ensures FindCurrent(semesters, today, parse).Some? ==>
              r == SemesterDates(Some(FindCurrent(semesters, today, parse).value.start), Some(FindCurrent(semesters, today, parse).value.end))
  {
    match FindCurrent(semesters, today, parse)
    case Some(s) => SemesterDates(Some(s.start), Some(s.end))
    case None => d
  }

  /**
    The two variables never mix semesters: after an update they are the previous pair or the
    start and end of one semester that contains today.
   */
  lemma UpdateFromOneSemester(d: SemesterDates, semesters: seq<Semester>, today: int, parse: string -> Option<int>)
    ensures var r := UpdateDates(d, semesters, today, parse);
            r == d || exists i :: 0 <= i < |semesters| && Contains(semesters[i], today, parse)
                                   && r == SemesterDates(Some(semesters[i].start), Some(semesters[i].end))
  {
    var f := FindCurrent(semesters, today, parse);
    if f.Some? {
      var i :| 0 <= i < |semesters| && semesters[i] == f.value;
      assert UpdateDates(d, semesters, today, parse) == SemesterDates(Some(semesters[i].start), Some(semesters[i].end));
    }
  }

  /** A finished update leaves no variable null: once set, both stay set. */
  lemma SetDatesStaySet(d: SemesterDates, semesters: seq<Semester>, today: int, parse: string -> Option<int>)
    requires d.start.Some? && d.end.Some?
    ensures UpdateDates(d, semesters, today, parse).start.Some? && UpdateDates(d, semesters, today, parse).end.Some?
  {
  }

  class SemesterState {
    var currentSemesterStart: Option<string>
    var currentSemesterEnd: Option<string>

    /** Lines 4-5: both start as null. */
    constructor ()
      ensures currentSemesterStart == None && currentSemesterEnd == None
    {
      currentSemesterStart := None;
      currentSemesterEnd := None;
    }

    /** `getStartAndEndDatesOfCurrentSemester(semesters)` */
    method GetStartAndEndDatesOfCurrentSemester(semesters: seq<Semester>, today: int, parse: string -> Option<int>)
      modifies this
      ensures SemesterDates(currentSemesterStart, currentSemesterEnd)
              == UpdateDates(SemesterDates(old(currentSemesterStart), old(currentSemesterEnd)), semesters, today, parse)
    {
      var currentSemester := FindCurrent(semesters, today, parse);
      if currentSemester.Some? {
        currentSemesterStart := Some(currentSemester.value.start);
        currentSemesterEnd := Some(currentSemester.value.end);
      }
    }
  }
}
