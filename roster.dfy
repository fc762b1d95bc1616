/** `generateRoster`: the month's dates, the employee groups, and the three
    passes run one after another on one list of assignments. The theorems at
    the end say what the finished roster holds for every employee and day. */
module Roster {
  import opened RosterTypes
  import opened Calendar
  import opened RosterQueries
  import opened RosterGeneration
  import opened FemalePass
  import opened MalePass
  import opened L2Pass

  /** The list after the first pass, which runs only when there is a
      morning-only female L1. */
  function FirstPassList(employees: seq<Employee>, dates: seq<Day>, leaves: seq<LeaveRequest>): seq<ShiftAssignment>
  {
    match SelectedFemaleL1(employees)
    case None => []
    case Some(f) => FemalePassList(f, MaleL1s(employees), dates, leaves)
  }

  /** The list after all three passes over `dates`. */
  function PassesList(employees: seq<Employee>, dates: seq<Day>, leaves: seq<LeaveRequest>): seq<ShiftAssignment>
  {
    var afterMales := MalePassList(FirstPassList(employees, dates, leaves), MaleL1s(employees), dates, leaves);
    L2PassList(afterMales, L2Employees(employees), dates, leaves)
  }

  /** The assignments of the generated roster. */
  function RosterAssignments(year: int, month: int, employees: seq<Employee>, leaves: seq<LeaveRequest>): seq<ShiftAssignment>
  {
    PassesList(employees, MonthDates(year, month), leaves)
  }

  /** `generateRoster`: builds the roster of the month and returns it with
      the year, the month and the leave requests it was given. */
  method GenerateRoster(year: int, month: int, employees: seq<Employee>, leaves: seq<LeaveRequest>)
    returns (roster: RosterMonth)
    ensures roster == RosterMonth(year, month, RosterAssignments(year, month, employees, leaves), leaves)
  {
    var dates := GetDatesInMonth(year, month);
    var l1Employees := Filter(employees, IsL1);
    var l2Employees := Filter(employees, IsL2);
    var femaleL1 := FindMorningOnlyFemale(l1Employees);
    var maleL1s := Filter(l1Employees, IsMale);
    var assignments: seq<ShiftAssignment> := [];
    if femaleL1.Some? {
      assignments := AssignFemaleL1(femaleL1.value, maleL1s, dates, leaves);
    }
    assignments := AssignMaleL1s(assignments, maleL1s, dates, leaves);
    assignments := AssignL2s(assignments, l2Employees, dates, leaves);
    roster := RosterMonth(year, month, assignments, leaves);
  }

  // ---------------------------------------------------------------------
  // The three passes together, over any run of consecutive dates
  // ---------------------------------------------------------------------

  /** The first pass has nothing for an employee who is neither the selected
      female L1 nor a male L1, nor for a day outside the dates. */
  lemma NoEntryInFirstPass(employees: seq<Employee>, dates: seq<Day>, leaves: seq<LeaveRequest>, first: Day, id: string, d: Day)
    requires ConsecutiveFrom(dates, first)
    requires (!(SelectedFemaleL1(employees).Some? && id == SelectedFemaleL1(employees).value.id) && !HasId(MaleL1s(employees), id))
             || !(first <= d < first + |dates|)
    ensures Obs(FirstPassList(employees, dates, leaves), id, d) == (0, None)
  {
    match SelectedFemaleL1(employees)
    case None =>
      NoEntryObservation([], id, d);
    case Some(f) =>
      var ms := MaleL1s(employees);
      FemalePassShape(f, ms, dates, leaves, first);
      NoEntryObservation(FemalePassList(f, ms, dates, leaves), id, d);
  }

  /** What the first pass leaves for male L1 `p` on one of the dates: a
      single Morning when he substitutes for the female L1, nothing otherwise. */
  lemma FirstPassForMaleL1(employees: seq<Employee>, dates: seq<Day>, leaves: seq<LeaveRequest>, first: Day, p: nat, d: Day)
    requires UniqueIds(employees)
    requires ConsecutiveFrom(dates, first) && first <= d < first + |dates|
    requires p < |MaleL1s(employees)|
    ensures var ms := MaleL1s(employees);
      Obs(FirstPassList(employees, dates, leaves), ms[p].id, d)
      == if SubstituteOn(SelectedFemaleL1(employees), ms, d, leaves) == Some(p) then (1, Some(Morning)) else (0, None)
  {
    var ms := MaleL1s(employees);
    GroupsAreDisjoint(employees);
    match SelectedFemaleL1(employees)
    case None =>
      NoEntryObservation([], ms[p].id, d);
    case Some(f) =>
      assert ms[p].id != f.id;
      FemalePassObservation(f, ms, dates, leaves, first, ms[p].id, d);
      forall q | 0 <= q < |ms| && q != p
        ensures ms[q].id != ms[p].id
      {
      }
  }

  /** The selected female L1 after the three passes. */
  lemma FemaleL1AfterPasses(employees: seq<Employee>, dates: seq<Day>, leaves: seq<LeaveRequest>, first: Day, d: Day)
    requires UniqueIds(employees) && SelectedFemaleL1(employees).Some?
    requires ConsecutiveFrom(dates, first) && first <= d < first + |dates|
    ensures var f := SelectedFemaleL1(employees).value;
      SingleEntry(PassesList(employees, dates, leaves), f.id, d,
                  FemaleL1Shift(d - first, Weekday(d), IsEmployeeOnLeave(f.id, d, leaves)))
  {
    var f := SelectedFemaleL1(employees).value;
    var ms := MaleL1s(employees);
    GroupsAreDisjoint(employees);
    FemalePassCoversFemale(f, ms, dates, leaves, first, d);
    var afterFemale := FirstPassList(employees, dates, leaves);
    MalePassOthers(afterFemale, ms, dates, leaves, first, f.id, d);
    var afterMales := MalePassList(afterFemale, ms, dates, leaves);
    L2PassOthers(afterMales, L2Employees(employees), dates, leaves, first, f.id, d);
  }

  /** Male L1 `p` after the three passes. */
  lemma MaleL1AfterPasses(employees: seq<Employee>, dates: seq<Day>, leaves: seq<LeaveRequest>, first: Day, p: nat, d: Day)
    requires UniqueIds(employees) && p < |MaleL1s(employees)|
    requires ConsecutiveFrom(dates, first) && first <= d < first + |dates|
    ensures var ms := MaleL1s(employees);
      SingleEntry(PassesList(employees, dates, leaves), ms[p].id, d,
                  MaleL1Shift(SubstituteOn(SelectedFemaleL1(employees), ms, d, leaves) == Some(p),
                              p, Weekday(d), IsEmployeeOnLeave(ms[p].id, d, leaves), d - first))
  {
    var ms := MaleL1s(employees);
    GroupsAreDisjoint(employees);
    FirstPassForMaleL1(employees, dates, leaves, first, p, d);
    var afterFemale := FirstPassList(employees, dates, leaves);
    MalePassObservation(afterFemale, ms, dates, leaves, first, p, d);
    var afterMales := MalePassList(afterFemale, ms, dates, leaves);
    L2PassOthers(afterMales, L2Employees(employees), dates, leaves, first, ms[p].id, d);
  }

  /** L2 `p` after the three passes. */
  lemma L2AfterPasses(employees: seq<Employee>, dates: seq<Day>, leaves: seq<LeaveRequest>, first: Day, p: nat, d: Day)
    requires UniqueIds(employees) && p < |L2Employees(employees)|
    requires ConsecutiveFrom(dates, first) && first <= d < first + |dates|
    ensures var l2s := L2Employees(employees);
      SingleEntry(PassesList(employees, dates, leaves), l2s[p].id, d,
                  L2Shift(p, IsEmployeeOnLeave(l2s[p].id, d, leaves), d - first))
  {
    var l2s, ms := L2Employees(employees), MaleL1s(employees);
    var id := l2s[p].id;
    GroupsAreDisjoint(employees);
    assert !HasId(ms, id);
    NoEntryInFirstPass(employees, dates, leaves, first, id, d);
    var afterFemale := FirstPassList(employees, dates, leaves);
    MalePassOthers(afterFemale, ms, dates, leaves, first, id, d);
    var afterMales := MalePassList(afterFemale, ms, dates, leaves);
    L2PassObservation(afterMales, l2s, dates, leaves, first, p, d);
  }

  /** Nobody outside the three groups, and no day outside the dates, has an
      entry after the three passes. */
  lemma NothingElseAfterPasses(employees: seq<Employee>, dates: seq<Day>, leaves: seq<LeaveRequest>, first: Day, id: string, d: Day)
    requires ConsecutiveFrom(dates, first)
    requires (!(SelectedFemaleL1(employees).Some? && id == SelectedFemaleL1(employees).value.id)
              && !HasId(MaleL1s(employees), id) && !HasId(L2Employees(employees), id))
             || !(first <= d < first + |dates|)
    ensures Obs(PassesList(employees, dates, leaves), id, d) == (0, None)
  {
    var ms := MaleL1s(employees);
    NoEntryInFirstPass(employees, dates, leaves, first, id, d);
    var afterFemale := FirstPassList(employees, dates, leaves);
    MalePassOthers(afterFemale, ms, dates, leaves, first, id, d);
    var afterMales := MalePassList(afterFemale, ms, dates, leaves);
    L2PassOthers(afterMales, L2Employees(employees), dates, leaves, first, id, d);
  }

  // ---------------------------------------------------------------------
  // The generated roster of a month
  // ---------------------------------------------------------------------

  /** With distinct employee ids, the morning-only female L1 has exactly one
      entry on each date `d` of the month: Leave on her leave days, Off on the
      Saturdays of every second seven-day block, Morning otherwise. */
  lemma FemaleL1Roster(year: int, month: int, employees: seq<Employee>, leaves: seq<LeaveRequest>, d: Day)
    requires UniqueIds(employees)
    requires SelectedFemaleL1(employees).Some?
    requires DayNumber(year, month, 1) <= d < DayNumber(year, month, 1) + DaysInMonth(year, month)
    ensures var f := SelectedFemaleL1(employees).value;
      SingleEntry(RosterAssignments(year, month, employees, leaves), f.id, d,
                  FemaleL1Shift(d - DayNumber(year, month, 1), Weekday(d), IsEmployeeOnLeave(f.id, d, leaves)))
  {
    FemaleL1AfterPasses(employees, MonthDates(year, month), leaves, DayNumber(year, month, 1), d);
  }

  /** With distinct employee ids, male L1 `p` has exactly one entry on each
      date `d` of the month: Morning on the days he substitutes for the female
      L1, else Off at position 3 on Sundays, else Leave on his leave days, else
      the rotation shift of the day. */
  lemma MaleL1Roster(year: int, month: int, employees: seq<Employee>, leaves: seq<LeaveRequest>, p: nat, d: Day)
    requires UniqueIds(employees)
    requires p < |MaleL1s(employees)|
    requires DayNumber(year, month, 1) <= d < DayNumber(year, month, 1) + DaysInMonth(year, month)
    ensures var ms := MaleL1s(employees);
      SingleEntry(RosterAssignments(year, month, employees, leaves), ms[p].id, d,
                  MaleL1Shift(SubstituteOn(SelectedFemaleL1(employees), ms, d, leaves) == Some(p),
                              p, Weekday(d), IsEmployeeOnLeave(ms[p].id, d, leaves), d - DayNumber(year, month, 1)))
  {
    MaleL1AfterPasses(employees, MonthDates(year, month), leaves, DayNumber(year, month, 1), p, d);
  }

  /** With distinct employee ids, L2 `p` has exactly one entry on each date `d`
      of the month: Leave on its leave days, else the Morning, Afternoon
      rotation. */
  lemma L2Roster(year: int, month: int, employees: seq<Employee>, leaves: seq<LeaveRequest>, p: nat, d: Day)
    requires UniqueIds(employees)
    requires p < |L2Employees(employees)|
    requires DayNumber(year, month, 1) <= d < DayNumber(year, month, 1) + DaysInMonth(year, month)
    ensures var l2s := L2Employees(employees);
      SingleEntry(RosterAssignments(year, month, employees, leaves), l2s[p].id, d,
                  L2Shift(p, IsEmployeeOnLeave(l2s[p].id, d, leaves), d - DayNumber(year, month, 1)))
  {
    L2AfterPasses(employees, MonthDates(year, month), leaves, DayNumber(year, month, 1), p, d);
  }

  /** The roster has no entry on a day outside the month, and none at all for
      an employee outside the three groups. */
  lemma NothingElseInRoster(year: int, month: int, employees: seq<Employee>, leaves: seq<LeaveRequest>, id: string, d: Day)
    requires (!(SelectedFemaleL1(employees).Some? && id == SelectedFemaleL1(employees).value.id)
              && !HasId(MaleL1s(employees), id) && !HasId(L2Employees(employees), id))
             || !(DayNumber(year, month, 1) <= d < DayNumber(year, month, 1) + DaysInMonth(year, month))
    ensures CountEntries(RosterAssignments(year, month, employees, leaves), id, d) == 0
  {
    NothingElseAfterPasses(employees, MonthDates(year, month), leaves, DayNumber(year, month, 1), id, d);
  }

  /** With distinct employee ids, an L1 woman other than the one selected as
      morning-only gets no entries: the roster handles one female L1 only. */
  lemma OtherFemaleL1sGetNothing(year: int, month: int, employees: seq<Employee>, leaves: seq<LeaveRequest>, e: Employee, d: Day)
    requires UniqueIds(employees)
    requires e in employees && e.role == L1 && e.gender == Female
    requires SelectedFemaleL1(employees) != Some(e)
    ensures CountEntries(RosterAssignments(year, month, employees, leaves), e.id, d) == 0
  {
    var ms, l2s := MaleL1s(employees), L2Employees(employees);
    GroupsAreDisjoint(employees);
    var f := SelectedFemaleL1(employees);
    if f.Some? {
      SameIdSameEmployee(employees, e, f.value);
    }
    forall q | 0 <= q < |ms|
      ensures ms[q].id != e.id
    {
      assert ms[q] in ms;
      SameIdSameEmployee(employees, e, ms[q]);
    }
    forall q | 0 <= q < |l2s|
      ensures l2s[q].id != e.id
    {
      assert l2s[q] in l2s;
      SameIdSameEmployee(employees, e, l2s[q]);
    }
    NothingElseInRoster(year, month, employees, leaves, e.id, d);
  }

  /** April 2024 starts on a Monday: without leave, the morning-only female
      L1 works Saturday the 6th (first seven-day block) and is Off on
      Saturday the 13th (second block). */
  lemma April2024Saturdays(employees: seq<Employee>, leaves: seq<LeaveRequest>)
    requires UniqueIds(employees) && SelectedFemaleL1(employees).Some?
    requires !IsEmployeeOnLeave(SelectedFemaleL1(employees).value.id, DayNumber(2024, 3, 6), leaves)
    requires !IsEmployeeOnLeave(SelectedFemaleL1(employees).value.id, DayNumber(2024, 3, 13), leaves)
    ensures var a, id := RosterAssignments(2024, 3, employees, leaves), SelectedFemaleL1(employees).value.id;
      SingleEntry(a, id, DayNumber(2024, 3, 6), Morning) && SingleEntry(a, id, DayNumber(2024, 3, 13), Off)
  {
    AprilFirst2024IsMonday();
    AprilSaturdays2024();
    MonthLengthExamples();
    assert FemaleL1Shift(5, 6, false) == Morning && FemaleL1Shift(12, 6, false) == Off;
    FemaleL1Roster(2024, 3, employees, leaves, 19819);
    FemaleL1Roster(2024, 3, employees, leaves, 19826);
  }
}
