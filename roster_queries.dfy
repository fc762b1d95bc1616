/** The lookups the roster engine runs over the leave list and over the list
    of assignments built so far. Each is a scan of a list (`some`, `find`,
    `filter`) and is written here as a recursion over the sequence. */
module RosterQueries {
  import opened RosterTypes

  /** `isEmployeeOnLeave`: some leave request is for this employee and day. */
  function IsEmployeeOnLeave(id: string, date: Day, leaves: seq<LeaveRequest>): (r: bool)
    ensures r <==> exists k :: 0 <= k < |leaves| && leaves[k].employeeId == id && leaves[k].date == date
  {
    if |leaves| == 0 then false
    else (leaves[0].employeeId == id && leaves[0].date == date) || IsEmployeeOnLeave(id, date, leaves[1..])
  }

  /** `workedNightShiftYesterday`: some assignment gives this employee a Night
      shift on the day before `date`. */
  function WorkedNightShiftYesterday(id: string, date: Day, assignments: seq<ShiftAssignment>): (r: bool)
    ensures r <==> exists k :: 0 <= k < |assignments| && assignments[k].IsFor(id, date - 1) && assignments[k].shiftType == Night
  {
    if |assignments| == 0 then false
    else ((assignments[0].IsFor(id, date - 1) && assignments[0].shiftType == Night)
          || WorkedNightShiftYesterday(id, date, assignments[1..]))
  }

  /** A shift that counts as a working day: anything but Off and Leave. */
  predicate IsWorkingShift(s: ShiftType)
  {
    s != Off && s != Leave
  }

  /** The test inside `getConsecutiveWorkingDays`' loop: some assignment gives
      this employee a working shift on `date`. */
  function HasWorkingShift(id: string, date: Day, assignments: seq<ShiftAssignment>): (r: bool)
    ensures r <==> exists k :: 0 <= k < |assignments| && assignments[k].IsFor(id, date) && IsWorkingShift(assignments[k].shiftType)
  {
    if |assignments| == 0 then false
    else ((assignments[0].IsFor(id, date) && IsWorkingShift(assignments[0].shiftType))
          || HasWorkingShift(id, date, assignments[1..]))
  }

  /** The `find` of an employee's assignment on a day, scanning from the front. */
  function FindAssignment(id: string, date: Day, assignments: seq<ShiftAssignment>): (r: Option<ShiftAssignment>)
  {
    if |assignments| == 0 then None
    else if assignments[0].IsFor(id, date) then Some(assignments[0])
    else FindAssignment(id, date, assignments[1..])
  }

  /** The `find` answers an assignment of the list for this employee and
      day, and answers none exactly when the list holds no such assignment. */
  lemma {:induction false} FindAssignmentMatches(id: string, date: Day, assignments: seq<ShiftAssignment>)
    ensures FindAssignment(id, date, assignments).Some? ==>
      FindAssignment(id, date, assignments).value in assignments && FindAssignment(id, date, assignments).value.IsFor(id, date)
    ensures FindAssignment(id, date, assignments).None? <==>
      forall k :: 0 <= k < |assignments| ==> !assignments[k].IsFor(id, date)
  {
    if |assignments| > 0 && !assignments[0].IsFor(id, date) {
      FindAssignmentMatches(id, date, assignments[1..]);
      assert forall k :: 1 <= k < |assignments| ==> assignments[k] == assignments[1..][k - 1];
    }
  }

  /** `getEmployeeShift`: the shift of the assignment `find` returns, or none
      (`null`) when there is no assignment for this employee and day. */
  function GetEmployeeShift(id: string, date: Day, assignments: seq<ShiftAssignment>): (r: Option<ShiftType>)
    ensures r.None? <==> forall k :: 0 <= k < |assignments| ==> !assignments[k].IsFor(id, date)
    ensures r.Some? ==> exists a :: a in assignments && a.IsFor(id, date) && a.shiftType == r.value
  {
    FindAssignmentMatches(id, date, assignments);
    match FindAssignment(id, date, assignments)
    case None => None
    case Some(a) => Some(a.shiftType)
  }

  /** `getEmployeeShift` answers with the first assignment for this employee
      and day in list order, and answers none exactly when there is none. */
  lemma {:induction false} GetEmployeeShiftIsFirstMatch(id: string, date: Day, assignments: seq<ShiftAssignment>)
    ensures GetEmployeeShift(id, date, assignments).None? <==>
      forall k :: 0 <= k < |assignments| ==> !assignments[k].IsFor(id, date)
    ensures GetEmployeeShift(id, date, assignments).Some? ==>
      exists k :: 0 <= k < |assignments| && assignments[k].IsFor(id, date)
        && assignments[k].shiftType == GetEmployeeShift(id, date, assignments).value
        && forall j :: 0 <= j < k ==> !assignments[j].IsFor(id, date)
  {
    if |assignments| > 0 && !assignments[0].IsFor(id, date) {
      var rest := assignments[1..];
      GetEmployeeShiftIsFirstMatch(id, date, rest);
      if GetEmployeeShift(id, date, rest).Some? {
        var k :| 0 <= k < |rest| && rest[k].IsFor(id, date)
          && rest[k].shiftType == GetEmployeeShift(id, date, rest).value
          && forall j :: 0 <= j < k ==> !rest[j].IsFor(id, date);
        assert assignments[k + 1] == rest[k];
        assert forall j :: 1 <= j < k + 1 ==> assignments[j] == rest[j - 1];
      }
    }
  }

  /** One assignment counted by `countShiftsByType`. */
  predicate CountedBy(a: ShiftAssignment, id: string, startDate: Day, endDate: Day, shiftType: ShiftType)
  {
    a.employeeId == id && a.shiftType == shiftType && a.date >= startDate && a.date <= endDate
  }

  /** `countShiftsByType`: the number of this employee's assignments of the
      given type dated within [startDate, endDate]. */
  function CountShiftsByType(id: string, startDate: Day, endDate: Day, shiftType: ShiftType,
                             assignments: seq<ShiftAssignment>): (r: nat)
    ensures r <= |assignments|
    ensures r == 0 <==> forall k :: 0 <= k < |assignments| ==> !CountedBy(assignments[k], id, startDate, endDate, shiftType)
    ensures r == |assignments| <==> forall k :: 0 <= k < |assignments| ==> CountedBy(assignments[k], id, startDate, endDate, shiftType)
  {
    if |assignments| == 0 then 0
    else ((if CountedBy(assignments[0], id, startDate, endDate, shiftType) then 1 else 0)
          + CountShiftsByType(id, startDate, endDate, shiftType, assignments[1..]))
  }

  /** Counting over two lists joined is the sum of the two counts. */
  lemma {:induction false} CountShiftsByTypeSplits(id: string, startDate: Day, endDate: Day, shiftType: ShiftType,
                                                   a: seq<ShiftAssignment>, b: seq<ShiftAssignment>)
    ensures CountShiftsByType(id, startDate, endDate, shiftType, a + b)
         == CountShiftsByType(id, startDate, endDate, shiftType, a) + CountShiftsByType(id, startDate, endDate, shiftType, b)
  {
    if |a| > 0 {
      assert (a + b)[1..] == a[1..] + b;
      CountShiftsByTypeSplits(id, startDate, endDate, shiftType, a[1..], b);
    } else {
      assert a + b == b;
    }
  }

  /** Widening the date range never lowers the count. */
  lemma {:induction false} CountShiftsByTypeMonotone(id: string, startDate: Day, endDate: Day, startDate': Day, endDate': Day,
                                                     shiftType: ShiftType, assignments: seq<ShiftAssignment>)
    requires startDate' <= startDate && endDate <= endDate'
    ensures CountShiftsByType(id, startDate, endDate, shiftType, assignments)
         <= CountShiftsByType(id, startDate', endDate', shiftType, assignments)
  {
    if |assignments| > 0 {
      CountShiftsByTypeMonotone(id, startDate, endDate, startDate', endDate', shiftType, assignments[1..]);
    }
  }

  /** The number of assignments for this employee and day, whatever their
      type; the roster's coverage is stated with it. */
  ghost function CountEntries(assignments: seq<ShiftAssignment>, id: string, date: Day): nat
  {
    if |assignments| == 0 then 0
    else (if assignments[0].IsFor(id, date) then 1 else 0) + CountEntries(assignments[1..], id, date)
  }

  /** With no assignment for this employee and day, the count is zero and the
      lookup finds nothing; with some, the lookup finds one. */
  lemma {:induction false} CountZeroIffNotFound(assignments: seq<ShiftAssignment>, id: string, date: Day)
    ensures CountEntries(assignments, id, date) == 0 <==> GetEmployeeShift(id, date, assignments).None?
    ensures CountEntries(assignments, id, date) == 0 <==> forall k :: 0 <= k < |assignments| ==> !assignments[k].IsFor(id, date)
  {
    if |assignments| > 0 {
      CountZeroIffNotFound(assignments[1..], id, date);
      assert forall k :: 1 <= k < |assignments| ==> assignments[k] == assignments[1..][k - 1];
    }
  }

  /** Appending to the list: counts add up, and the first match stays the
      first match, the new element is found only when nothing before matched. */
  lemma {:induction false} AppendFacts(a: seq<ShiftAssignment>, b: seq<ShiftAssignment>, id: string, date: Day)
    ensures CountEntries(a + b, id, date) == CountEntries(a, id, date) + CountEntries(b, id, date)
    ensures FindAssignment(id, date, a + b)
         == if FindAssignment(id, date, a).Some? then FindAssignment(id, date, a) else FindAssignment(id, date, b)
  {
    if |a| > 0 {
      assert (a + b)[1..] == a[1..] + b;
      AppendFacts(a[1..], b, id, date);
    } else {
      assert a + b == b;
    }
  }

  /** What the roster shows for one employee and day: how many entries there
      are, and the shift `getEmployeeShift` reads (the first entry's). */
  ghost function Obs(assignments: seq<ShiftAssignment>, id: string, date: Day): (nat, Option<ShiftType>)
  {
    (CountEntries(assignments, id, date), GetEmployeeShift(id, date, assignments))
  }

  /** The observation after one more entry of shift `s` for the same employee
      and day: one entry more, and the first entry's shift wins. */
  function Pushed(o: (nat, Option<ShiftType>), s: ShiftType): (nat, Option<ShiftType>)
  {
    (o.0 + 1, if o.1.Some? then o.1 else Some(s))
  }

  /** A `push` changes the observation of its own employee and day only. */
  lemma PushObservation(a: seq<ShiftAssignment>, x: ShiftAssignment, id: string, date: Day)
    ensures Obs(a + [x], id, date) == if x.IsFor(id, date) then Pushed(Obs(a, id, date), x.shiftType) else Obs(a, id, date)
  {
    AppendFacts(a, [x], id, date);
    assert [x][1..] == [];
  }

  /** Appending entries that are all for other employees or days changes nothing. */
  lemma AppendOtherEntries(a: seq<ShiftAssignment>, b: seq<ShiftAssignment>, id: string, date: Day)
    requires forall k :: 0 <= k < |b| ==> !b[k].IsFor(id, date)
    ensures Obs(a + b, id, date) == Obs(a, id, date)
  {
    AppendFacts(a, b, id, date);
    CountZeroIffNotFound(b, id, date);
  }

  /** A list with no entry for this employee and day observes nothing there. */
  lemma NoEntryObservation(a: seq<ShiftAssignment>, id: string, date: Day)
    requires forall k :: 0 <= k < |a| ==> !a[k].IsFor(id, date)
    ensures Obs(a, id, date) == (0, None)
  {
    CountZeroIffNotFound(a, id, date);
  }

  /** Exactly one entry exists for this employee and day, and its shift is `s`. */
  ghost predicate SingleEntry(assignments: seq<ShiftAssignment>, id: string, date: Day, s: ShiftType)
  {
    Obs(assignments, id, date) == (1, Some(s))
  }

  /** `getConsecutiveWorkingDays` returns `n` exactly when this holds: working
      shifts on `endDate` and the n - 1 days before it, none on the day before those. */
  ghost predicate IsWorkingRun(id: string, endDate: Day, assignments: seq<ShiftAssignment>, n: nat)
  {
    (forall d :: endDate - n < d <= endDate ==> HasWorkingShift(id, d, assignments))
    && !HasWorkingShift(id, endDate - n, assignments)
  }

  /** The length of the working run ending on a day is unique. */
  lemma WorkingRunIsUnique(id: string, endDate: Day, assignments: seq<ShiftAssignment>, n: nat, m: nat)
    requires IsWorkingRun(id, endDate, assignments, n) && IsWorkingRun(id, endDate, assignments, m)
    ensures n == m
  {
  }

  /** A day number no later than any assignment's date (and than `bound`). */
  ghost function EarliestDate(assignments: seq<ShiftAssignment>, bound: Day): (r: Day)
    ensures r <= bound
    ensures forall k :: 0 <= k < |assignments| ==> r <= assignments[k].date
  {
    if |assignments| == 0 then bound
    else
      var rest := EarliestDate(assignments[1..], bound);
      if assignments[0].date < rest then assignments[0].date else rest
  }
}
