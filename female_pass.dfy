/** The first pass of `generateRoster`: the morning-only female L1 gets one
    entry per date (Leave, Off on the Saturday of a short week, Morning
    otherwise), and on her leave days the first male L1 available takes the
    Morning. `FemalePassList` is the list the pass builds; `AssignFemaleL1` is
    the loop that builds it, `AssignFemaleL1OnDate` the loop's body. */
module FemalePass {
  import opened RosterTypes
  import opened Calendar
  import opened RosterQueries
  import opened RosterGeneration

  /** The entries one date of the pass pushes, given the list built so far. */
  function FemaleDayEntries(assignments: seq<ShiftAssignment>, female: Employee, maleL1s: seq<Employee>,
                            date: Day, shouldWork: bool, leaves: seq<LeaveRequest>): seq<ShiftAssignment>
  {
    if IsEmployeeOnLeave(female.id, date, leaves) then
      var leave := ShiftAssignment(date, female.id, Leave);
      match FindAvailableL1(maleL1s, date, leaves, assignments + [leave])
      case None => [leave]
      case Some(e) => [leave, ShiftAssignment(date, e.id, Morning)]
    else if !(Weekday(date) == 6 && !shouldWork) then [ShiftAssignment(date, female.id, Morning)]
    else [ShiftAssignment(date, female.id, Off)]
  }

  /** One date's entries: first the female L1's own entry (Leave on leave,
      Off on the Saturday of a short week, Morning otherwise); a second entry
      only on her leave days, a Morning for a male L1 who is not on leave; and
      none exactly when every male L1 is on leave or worked a night
      yesterday. */
  lemma FemaleDayEntriesShape(assignments: seq<ShiftAssignment>, female: Employee, maleL1s: seq<Employee>,
                              date: Day, shouldWork: bool, leaves: seq<LeaveRequest>)
    ensures var r := FemaleDayEntries(assignments, female, maleL1s, date, shouldWork, leaves);
      && 1 <= |r| <= 2
      && r[0].date == date && r[0].employeeId == female.id
      && (r[0].shiftType == Leave <==> IsEmployeeOnLeave(female.id, date, leaves))
      && (r[0].shiftType == Off <==> !IsEmployeeOnLeave(female.id, date, leaves) && Weekday(date) == 6 && !shouldWork)
      && (r[0].shiftType == Morning <==> !IsEmployeeOnLeave(female.id, date, leaves) && !(Weekday(date) == 6 && !shouldWork))
      && (|r| == 2 ==> IsEmployeeOnLeave(female.id, date, leaves) && r[1].date == date && r[1].shiftType == Morning
                       && exists q :: 0 <= q < |maleL1s| && maleL1s[q].id == r[1].employeeId
                                      && !IsEmployeeOnLeave(maleL1s[q].id, date, leaves))
      && (IsEmployeeOnLeave(female.id, date, leaves) && |r| == 1 <==>
            IsEmployeeOnLeave(female.id, date, leaves)
            && forall q :: 0 <= q < |maleL1s| ==>
                 (IsEmployeeOnLeave(maleL1s[q].id, date, leaves)
                  || WorkedNightShiftYesterday(maleL1s[q].id, date, assignments + [ShiftAssignment(date, female.id, Leave)])))
  {
    var leave := ShiftAssignment(date, female.id, Leave);
    var found := FindAvailableL1(maleL1s, date, leaves, assignments + [leave]);
    if IsEmployeeOnLeave(female.id, date, leaves) && found.Some? {
      var q :| 0 <= q < |maleL1s| && maleL1s[q] == found.value;
    }
  }

  /** The list after the pass has handled `dates`, in order. */
  function FemalePassList(female: Employee, maleL1s: seq<Employee>, dates: seq<Day>, leaves: seq<LeaveRequest>): seq<ShiftAssignment>
    decreases |dates|
  {
    if |dates| == 0 then []
    else
      var i := |dates| - 1;
      var before := FemalePassList(female, maleL1s, dates[..i], leaves);
      before + FemaleDayEntries(before, female, maleL1s, dates[i], ShouldWork(i), leaves)
  }

  /** The body of `dates.forEach` for one date, given the current
      `shouldWork`: push Leave and the first available male L1's Morning, or
      Morning, or Off on the Saturday of a short week. */
  method AssignFemaleL1OnDate(assignments: seq<ShiftAssignment>, female: Employee, maleL1s: seq<Employee>,
                              date: Day, shouldWork: bool, leaves: seq<LeaveRequest>) returns (r: seq<ShiftAssignment>)
    ensures r == assignments + FemaleDayEntries(assignments, female, maleL1s, date, shouldWork, leaves)
  {
    r := assignments;
    var isSaturdayInShortWeek := Weekday(date) == 6 && !shouldWork;
    var isOnLeave := IsEmployeeOnLeave(female.id, date, leaves);
    if isOnLeave {
      r := r + [ShiftAssignment(date, female.id, Leave)];
      var availableL1 := FindAvailableL1(maleL1s, date, leaves, r);
      if availableL1.Some? {
        r := r + [ShiftAssignment(date, availableL1.value.id, Morning)];
      }
    } else if !isSaturdayInShortWeek {
      r := r + [ShiftAssignment(date, female.id, Morning)];
    } else {
      r := r + [ShiftAssignment(date, female.id, Off)];
    }
  }

  /** The first pass: `dates.forEach`, toggling `shouldWork` on every nonzero
      multiple of seven and pushing the day's entries. */
  method AssignFemaleL1(female: Employee, maleL1s: seq<Employee>, dates: seq<Day>, leaves: seq<LeaveRequest>)
    returns (assignments: seq<ShiftAssignment>)
    ensures assignments == FemalePassList(female, maleL1s, dates, leaves)
  {
    assignments := [];
    var shouldWork := true;
    var index := 0;
    while index < |dates|
      invariant 0 <= index <= |dates|
      invariant shouldWork == (index == 0 || ShouldWork(index - 1))
      invariant assignments == FemalePassList(female, maleL1s, dates[..index], leaves)
    {
      if index > 0 {
        ShouldWorkToggles(index);
      }
      if index % 7 == 0 && index > 0 {
        shouldWork := !shouldWork;
      }
      assignments := AssignFemaleL1OnDate(assignments, female, maleL1s, dates[index], shouldWork, leaves);
      assert dates[..index + 1][..index] == dates[..index];
      index := index + 1;
    }
    assert dates[..index] == dates;
  }

  /** Every entry is dated within [first, last), is not a Night, and is for
      the female L1 or for a male L1. */
  ghost predicate FemalePassEntries(assignments: seq<ShiftAssignment>, female: Employee, maleL1s: seq<Employee>,
                                    first: Day, last: Day)
  {
    forall k :: 0 <= k < |assignments| ==>
      first <= assignments[k].date < last && assignments[k].shiftType != Night
      && (assignments[k].employeeId == female.id || HasId(maleL1s, assignments[k].employeeId))
  }

  /** The entries of one date are all dated that day. */
  lemma FemaleDayShape(assignments: seq<ShiftAssignment>, female: Employee, maleL1s: seq<Employee>,
                       date: Day, shouldWork: bool, leaves: seq<LeaveRequest>)
    ensures FemalePassEntries(FemaleDayEntries(assignments, female, maleL1s, date, shouldWork, leaves),
                              female, maleL1s, date, date + 1)
  {
    if IsEmployeeOnLeave(female.id, date, leaves) {
      var leave := ShiftAssignment(date, female.id, Leave);
      var found := FindAvailableL1(maleL1s, date, leaves, assignments + [leave]);
      if found.Some? {
        var p :| 0 <= p < |maleL1s| && maleL1s[p] == found.value;
        assert maleL1s[p].id == found.value.id;
      }
    }
  }

  /** The pass's entries are all dated within the dates it handled, and none
      is a Night. */
  lemma {:induction false} FemalePassShape(female: Employee, maleL1s: seq<Employee>, dates: seq<Day>,
                                           leaves: seq<LeaveRequest>, first: Day)
    requires ConsecutiveFrom(dates, first)
    ensures FemalePassEntries(FemalePassList(female, maleL1s, dates, leaves), female, maleL1s, first, first + |dates|)
  {
    if |dates| > 0 {
      var i := |dates| - 1;
      assert ConsecutiveFrom(dates[..i], first);
      FemalePassShape(female, maleL1s, dates[..i], leaves, first);
      var before := FemalePassList(female, maleL1s, dates[..i], leaves);
      var b := FemaleDayEntries(before, female, maleL1s, dates[i], ShouldWork(i), leaves);
      FemaleDayShape(before, female, maleL1s, dates[i], ShouldWork(i), leaves);
      assert forall k :: |before| <= k < |before + b| ==> (before + b)[k] == b[k - |before|];
    }
  }

  /** What the pass leaves for one employee on one day: the female L1 has her
      single entry, the male L1 who substitutes that day has a single Morning,
      anyone else has nothing. */
  ghost function FemalePassExpected(female: Employee, maleL1s: seq<Employee>, first: Day, count: nat,
                                    leaves: seq<LeaveRequest>, id: string, d: Day): (nat, Option<ShiftType>)
  {
    if first <= d < first + count then FemaleDayExpected(female, maleL1s, first, leaves, id, d) else (0, None)
  }

  /** The same, for a day the pass has handled. */
  ghost function FemaleDayExpected(female: Employee, maleL1s: seq<Employee>, first: Day,
                                   leaves: seq<LeaveRequest>, id: string, d: Day): (nat, Option<ShiftType>)
  {
    if id == female.id then (1, Some(FemaleL1Shift(d - first, Weekday(d), IsEmployeeOnLeave(female.id, d, leaves))))
    else match SubstituteOn(Some(female), maleL1s, d, leaves)
      case Some(p) => if maleL1s[p].id == id then (1, Some(Morning)) else (0, None)
      case None => (0, None)
  }

  /** One date, seen from one employee, on a list that has nothing for that
      day yet and no Night shift anywhere. */
  lemma FemaleDayObservation(assignments: seq<ShiftAssignment>, female: Employee, maleL1s: seq<Employee>,
                             first: Day, index: nat, date: Day, leaves: seq<LeaveRequest>, id: string)
    requires date == first + index
    requires Obs(assignments, id, date) == (0, None)
    requires forall k :: 0 <= k < |assignments| ==> assignments[k].shiftType != Night
    requires !HasId(maleL1s, female.id)
    ensures Obs(assignments + FemaleDayEntries(assignments, female, maleL1s, date, ShouldWork(index), leaves), id, date)
         == FemaleDayExpected(female, maleL1s, first, leaves, id, date)
  {
    var leave := ShiftAssignment(date, female.id, Leave);
    if IsEmployeeOnLeave(female.id, date, leaves) {
      PushObservation(assignments, leave, id, date);
      var middle := assignments + [leave];
      AvailableL1IsFirstNotOnLeave(maleL1s, date, leaves, middle);
      match FirstNotOnLeave(maleL1s, date, leaves)
      case None =>
      case Some(p) =>
        var sub := ShiftAssignment(date, maleL1s[p].id, Morning);
        assert maleL1s[p].id != female.id;
        PushObservation(middle, sub, id, date);
        assert assignments + [leave, sub] == middle + [sub];
    } else {
      var x := ShiftAssignment(date, female.id, if !(Weekday(date) == 6 && !ShouldWork(index)) then Morning else Off);
      PushObservation(assignments, x, id, date);
    }
  }

  /** One date's entries leave every other day as it was. */
  lemma FemaleDayLeavesOtherDays(assignments: seq<ShiftAssignment>, female: Employee, maleL1s: seq<Employee>,
                                 date: Day, shouldWork: bool, leaves: seq<LeaveRequest>, id: string, d: Day)
    requires d != date
    ensures Obs(assignments + FemaleDayEntries(assignments, female, maleL1s, date, shouldWork, leaves), id, d)
         == Obs(assignments, id, d)
  {
    var b := FemaleDayEntries(assignments, female, maleL1s, date, shouldWork, leaves);
    FemaleDayShape(assignments, female, maleL1s, date, shouldWork, leaves);
    assert forall k :: 0 <= k < |b| ==> b[k].date == date;
    AppendOtherEntries(assignments, b, id, d);
  }

  /** The last date of the pass, on a list that has nothing for it yet. */
  lemma FemalePassNewDay(female: Employee, maleL1s: seq<Employee>, dates: seq<Day>,
                         leaves: seq<LeaveRequest>, first: Day, id: string)
    requires ConsecutiveFrom(dates, first) && |dates| > 0
    requires !HasId(maleL1s, female.id)
    requires Obs(FemalePassList(female, maleL1s, dates[..|dates| - 1], leaves), id, dates[|dates| - 1]) == (0, None)
    ensures Obs(FemalePassList(female, maleL1s, dates, leaves), id, dates[|dates| - 1])
         == FemaleDayExpected(female, maleL1s, first, leaves, id, dates[|dates| - 1])
  {
    var i := |dates| - 1;
    assert ConsecutiveFrom(dates[..i], first);
    FemalePassShape(female, maleL1s, dates[..i], leaves, first);
    FemaleDayObservation(FemalePassList(female, maleL1s, dates[..i], leaves), female, maleL1s, first, i, dates[i], leaves, id);
  }

  /** What the whole pass leaves for each employee and day. */
  lemma {:induction false} FemalePassObservation(female: Employee, maleL1s: seq<Employee>, dates: seq<Day>,
                                                 leaves: seq<LeaveRequest>, first: Day, id: string, d: Day)
    requires ConsecutiveFrom(dates, first)
    requires !HasId(maleL1s, female.id)
    ensures Obs(FemalePassList(female, maleL1s, dates, leaves), id, d)
         == FemalePassExpected(female, maleL1s, first, |dates|, leaves, id, d)
  {
    if |dates| == 0 {
      NoEntryObservation([], id, d);
    } else {
      var i := |dates| - 1;
      assert ConsecutiveFrom(dates[..i], first);
      FemalePassObservation(female, maleL1s, dates[..i], leaves, first, id, d);
      var before := FemalePassList(female, maleL1s, dates[..i], leaves);
      var b := FemaleDayEntries(before, female, maleL1s, dates[i], ShouldWork(i), leaves);
      if d != dates[i] {
        FemaleDayLeavesOtherDays(before, female, maleL1s, dates[i], ShouldWork(i), leaves, id, d);
        assert FemalePassExpected(female, maleL1s, first, |dates|, leaves, id, d)
            == FemalePassExpected(female, maleL1s, first, i, leaves, id, d);
      } else {
        FemalePassNewDay(female, maleL1s, dates, leaves, first, id);
      }
    }
  }

  /** With no male L1 sharing her id, the female L1 ends the pass with exactly
      one entry on each date, carrying `FemaleL1Shift` for that day. */
  lemma FemalePassCoversFemale(female: Employee, maleL1s: seq<Employee>, dates: seq<Day>,
                               leaves: seq<LeaveRequest>, first: Day, d: Day)
    requires ConsecutiveFrom(dates, first) && first <= d < first + |dates|
    requires !HasId(maleL1s, female.id)
    ensures SingleEntry(FemalePassList(female, maleL1s, dates, leaves), female.id, d,
                        FemaleL1Shift(d - first, Weekday(d), IsEmployeeOnLeave(female.id, d, leaves)))
  {
    FemalePassObservation(female, maleL1s, dates, leaves, first, female.id, d);
  }
}
