/** The third pass of `generateRoster`: every L2 gets one entry per date,
    Leave when on leave and otherwise the Morning, Afternoon rotation, which
    moves on by one every date. The source's Saturday-off branch is guarded
    by the constant `isFiveDayWeek`, which is false, so it never fires.
    `L2PassList` is the list the pass builds; `AssignL2s` and `AssignL2sOnDate` are the pair of
    loops that build it. */
module L2Pass {
  import opened RosterTypes
  import opened Calendar
  import opened RosterQueries
  import opened RosterGeneration

  /** The shift the L2 pass pushes for one employee on one date. Since
      `isFiveDayWeek` is false, it is always `L2Shift`: Leave or the rotation. */
  function L2StepShift(employee: Employee, position: nat, date: Day, rotationIndex: int,
                       leaves: seq<LeaveRequest>): (s: ShiftType)
    ensures s == L2Shift(position, IsEmployeeOnLeave(employee.id, date, leaves), rotationIndex)
  {
    if IsEmployeeOnLeave(employee.id, date, leaves) then Leave
    else if Weekday(date) == 6 && IsFiveDayWeek then Off
    else L2Rotation[(rotationIndex + position) % 2]
  }

  /** The list after the first `count` L2s have been handled on `date`. */
  function L2Day(assignments: seq<ShiftAssignment>, l2Employees: seq<Employee>, count: nat, date: Day,
                 rotationIndex: int, leaves: seq<LeaveRequest>): seq<ShiftAssignment>
    requires count <= |l2Employees|
  {
    if count == 0 then assignments
    else
      var e := l2Employees[count - 1];
      L2Day(assignments, l2Employees, count - 1, date, rotationIndex, leaves)
        + [ShiftAssignment(date, e.id, L2StepShift(e, count - 1, date, rotationIndex, leaves))]
  }

  /** The list after the pass has handled `dates`, in order; date `i` uses
      rotation index `i % 2`. */
  function L2PassList(assignments: seq<ShiftAssignment>, l2Employees: seq<Employee>, dates: seq<Day>,
                      leaves: seq<LeaveRequest>): seq<ShiftAssignment>
    decreases |dates|
  {
    if |dates| == 0 then assignments
    else
      var i := |dates| - 1;
      L2Day(L2PassList(assignments, l2Employees, dates[..i], leaves), l2Employees, |l2Employees|, dates[i], i % 2, leaves)
  }

  /** The inner `l2Employees.forEach` for one date: push Leave, or Off on a
      five-day week's Saturday, or the rotation shift. */
  method AssignL2sOnDate(assignments: seq<ShiftAssignment>, l2Employees: seq<Employee>, date: Day,
                         l2ShiftIndex: int, leaves: seq<LeaveRequest>) returns (r: seq<ShiftAssignment>)
    ensures r == L2Day(assignments, l2Employees, |l2Employees|, date, l2ShiftIndex, leaves)
  {
    r := assignments;
    var empIndex := 0;
    while empIndex < |l2Employees|
      invariant 0 <= empIndex <= |l2Employees|
      invariant r == L2Day(assignments, l2Employees, empIndex, date, l2ShiftIndex, leaves)
    {
      var employee := l2Employees[empIndex];
      var shiftType;
      if IsEmployeeOnLeave(employee.id, date, leaves) {
        shiftType := Leave;
      } else {
        var isSaturday := Weekday(date) == 6;
        var isFiveDayWeek := IsFiveDayWeek;
        if isSaturday && isFiveDayWeek {
          shiftType := Off;
        } else {
          var shiftIndex := (l2ShiftIndex + empIndex) % |L2Rotation|;
          shiftType := L2Rotation[shiftIndex];
        }
      }
      r := r + [ShiftAssignment(date, employee.id, shiftType)];
      empIndex := empIndex + 1;
    }
  }

  /** The third pass: for each date, handle every L2 in order, then advance
      `l2ShiftIndex` modulo 2. */
  method AssignL2s(assignments: seq<ShiftAssignment>, l2Employees: seq<Employee>, dates: seq<Day>,
                   leaves: seq<LeaveRequest>) returns (r: seq<ShiftAssignment>)
    ensures r == L2PassList(assignments, l2Employees, dates, leaves)
  {
    r := assignments;
    var l2ShiftIndex := 0;
    var index := 0;
    while index < |dates|
      invariant 0 <= index <= |dates|
      invariant l2ShiftIndex == index % 2
      invariant r == L2PassList(assignments, l2Employees, dates[..index], leaves)
    {
      r := AssignL2sOnDate(r, l2Employees, dates[index], l2ShiftIndex, leaves);
      l2ShiftIndex := (l2ShiftIndex + 1) % |L2Rotation|;
      assert dates[..index + 1][..index] == dates[..index];
      index := index + 1;
    }
    assert dates[..index] == dates;
  }

  /** A date of the pass leaves other days, and employees it does not reach,
      as they were. */
  lemma {:induction false} L2DayOthers(assignments: seq<ShiftAssignment>, l2Employees: seq<Employee>, count: nat, date: Day,
                                       rotationIndex: int, leaves: seq<LeaveRequest>, id: string, d: Day)
    requires count <= |l2Employees|
    requires d != date || forall q :: 0 <= q < count ==> l2Employees[q].id != id
    ensures Obs(L2Day(assignments, l2Employees, count, date, rotationIndex, leaves), id, d) == Obs(assignments, id, d)
  {
    if count > 0 {
      L2DayOthers(assignments, l2Employees, count - 1, date, rotationIndex, leaves, id, d);
      var e := l2Employees[count - 1];
      var prev := L2Day(assignments, l2Employees, count - 1, date, rotationIndex, leaves);
      PushObservation(prev, ShiftAssignment(date, e.id, L2StepShift(e, count - 1, date, rotationIndex, leaves)), id, d);
    }
  }

  /** With distinct ids, L2 `p` gets exactly one more entry on the date, and
      when it had none before, the one it gets carries `L2Shift`. */
  lemma {:induction false} L2DayObservation(assignments: seq<ShiftAssignment>, l2Employees: seq<Employee>, count: nat,
                                            date: Day, rotationIndex: int, leaves: seq<LeaveRequest>, p: nat)
    requires p < count <= |l2Employees|
    requires UniqueIds(l2Employees)
    ensures var id := l2Employees[p].id;
      Obs(L2Day(assignments, l2Employees, count, date, rotationIndex, leaves), id, date)
      == Pushed(Obs(assignments, id, date), L2Shift(p, IsEmployeeOnLeave(id, date, leaves), rotationIndex))
  {
    var id := l2Employees[p].id;
    var e := l2Employees[count - 1];
    var prev := L2Day(assignments, l2Employees, count - 1, date, rotationIndex, leaves);
    if p < count - 1 {
      L2DayObservation(assignments, l2Employees, count - 1, date, rotationIndex, leaves, p);
      assert e.id != id;
    } else {
      L2DayOthers(assignments, l2Employees, count - 1, date, rotationIndex, leaves, id, date);
    }
    PushObservation(prev, ShiftAssignment(date, e.id, L2StepShift(e, count - 1, date, rotationIndex, leaves)), id, date);
  }

  /** The pass leaves employees who are not L2s, and days outside the dates it
      handled, as they were. */
  lemma {:induction false} L2PassOthers(assignments: seq<ShiftAssignment>, l2Employees: seq<Employee>, dates: seq<Day>,
                                        leaves: seq<LeaveRequest>, first: Day, id: string, d: Day)
    requires ConsecutiveFrom(dates, first)
    requires !HasId(l2Employees, id) || !(first <= d < first + |dates|)
    ensures Obs(L2PassList(assignments, l2Employees, dates, leaves), id, d) == Obs(assignments, id, d)
  {
    if |dates| > 0 {
      var i := |dates| - 1;
      assert ConsecutiveFrom(dates[..i], first);
      L2PassOthers(assignments, l2Employees, dates[..i], leaves, first, id, d);
      var prev := L2PassList(assignments, l2Employees, dates[..i], leaves);
      L2DayOthers(prev, l2Employees, |l2Employees|, dates[i], i % 2, leaves, id, d);
    }
  }

  /** The pass keeps its rotation index modulo 2, which gives the same shift. */
  lemma RotationIndexModTwo(position: nat, onLeave: bool, i: nat)
    ensures L2Shift(position, onLeave, i % 2) == L2Shift(position, onLeave, i)
  {
    assert (i % 2 + position) % 2 == (i + position) % 2;
  }

  /** With distinct ids, L2 `p` gets exactly one more entry on each date of
      the pass, and when it had none before, the one it gets carries `L2Shift`
      for that day of the month. */
  lemma {:induction false} L2PassObservation(assignments: seq<ShiftAssignment>, l2Employees: seq<Employee>, dates: seq<Day>,
                                             leaves: seq<LeaveRequest>, first: Day, p: nat, d: Day)
    requires ConsecutiveFrom(dates, first)
    requires p < |l2Employees| && UniqueIds(l2Employees)
    requires first <= d < first + |dates|
    ensures var id := l2Employees[p].id;
      Obs(L2PassList(assignments, l2Employees, dates, leaves), id, d)
      == Pushed(Obs(assignments, id, d), L2Shift(p, IsEmployeeOnLeave(id, d, leaves), d - first))
  {
    var id := l2Employees[p].id;
    var i := |dates| - 1;
    assert ConsecutiveFrom(dates[..i], first);
    var prev := L2PassList(assignments, l2Employees, dates[..i], leaves);
    if d == dates[i] {
      L2PassOthers(assignments, l2Employees, dates[..i], leaves, first, id, d);
      L2DayObservation(prev, l2Employees, |l2Employees|, d, i % 2, leaves, p);
      RotationIndexModTwo(p, IsEmployeeOnLeave(id, d, leaves), i);
      assert d - first == i;
    } else {
      L2PassObservation(assignments, l2Employees, dates[..i], leaves, first, p, d);
      L2DayOthers(prev, l2Employees, |l2Employees|, dates[i], i % 2, leaves, id, d);
    }
  }
}
