/** The second pass of `generateRoster`: every male L1 who has no entry yet
    for a date gets one. Position 3 is Off on Sundays, anyone on leave gets
    Leave, and the rest follow the Morning, Afternoon, Night rotation, which
    moves on by one every date. `MalePassList` is the list the pass builds;
    `AssignMaleL1s` and `AssignMaleL1sOnDate` are the pair of loops that
    build it. */
module MalePass {
  import opened RosterTypes
  import opened Calendar
  import opened RosterQueries
  import opened RosterGeneration

  /** One male L1 on one date (the body of the inner `maleL1s.forEach`). */
  function MaleStep(assignments: seq<ShiftAssignment>, employee: Employee, position: nat, date: Day,
                    rotationIndex: int, leaves: seq<LeaveRequest>): seq<ShiftAssignment>
  {
    if FindAssignment(employee.id, date, assignments).Some? then assignments
    else if Weekday(date) == 0 && position == 3 then assignments + [ShiftAssignment(date, employee.id, Off)]
    else if IsEmployeeOnLeave(employee.id, date, leaves) then assignments + [ShiftAssignment(date, employee.id, Leave)]
    else assignments + [ShiftAssignment(date, employee.id, L1Rotation[(rotationIndex + position) % 3])]
  }

  /** One male L1 on one date keeps the list as it is when it already has an
      entry for him that day, and otherwise pushes exactly one entry for him
      on that date, carrying the reference shift `MaleRotationShift`. */
  lemma MaleStepPushesRotationShift(assignments: seq<ShiftAssignment>, employee: Employee, position: nat, date: Day,
                                    rotationIndex: int, leaves: seq<LeaveRequest>)
    ensures GetEmployeeShift(employee.id, date, assignments).Some? ==>
      MaleStep(assignments, employee, position, date, rotationIndex, leaves) == assignments
    ensures GetEmployeeShift(employee.id, date, assignments).None? ==>
      MaleStep(assignments, employee, position, date, rotationIndex, leaves)
        == assignments + [ShiftAssignment(date, employee.id,
             MaleRotationShift(position, Weekday(date), IsEmployeeOnLeave(employee.id, date, leaves), rotationIndex))]
  {
  }

  /** The list after the first `count` male L1s have been handled on `date`. */
  function MaleDay(assignments: seq<ShiftAssignment>, maleL1s: seq<Employee>, count: nat, date: Day,
                   rotationIndex: int, leaves: seq<LeaveRequest>): seq<ShiftAssignment>
    requires count <= |maleL1s|
  {
    if count == 0 then assignments
    else MaleStep(MaleDay(assignments, maleL1s, count - 1, date, rotationIndex, leaves),
                  maleL1s[count - 1], count - 1, date, rotationIndex, leaves)
  }

  /** The list after the pass has handled `dates`, in order; date `i` uses
      rotation index `i % 3`. */
  function MalePassList(assignments: seq<ShiftAssignment>, maleL1s: seq<Employee>, dates: seq<Day>,
                        leaves: seq<LeaveRequest>): seq<ShiftAssignment>
    decreases |dates|
  {
    if |dates| == 0 then assignments
    else
      var i := |dates| - 1;
      MaleDay(MalePassList(assignments, maleL1s, dates[..i], leaves), maleL1s, |maleL1s|, dates[i], i % 3, leaves)
  }

  /** The inner `maleL1s.forEach` for one date: skip a male L1 who already
      has an entry that day, else push Off (position 3 on a Sunday), Leave, or
      his rotation shift. */
  method AssignMaleL1sOnDate(assignments: seq<ShiftAssignment>, maleL1s: seq<Employee>, date: Day,
                             l1ShiftIndex: int, leaves: seq<LeaveRequest>) returns (r: seq<ShiftAssignment>)
    ensures r == MaleDay(assignments, maleL1s, |maleL1s|, date, l1ShiftIndex, leaves)
  {
    r := assignments;
    var isSunday := Weekday(date) == 0;
    var isJustThreeEngineers := isSunday;
    var empIndex := 0;
    while empIndex < |maleL1s|
      invariant 0 <= empIndex <= |maleL1s|
      invariant r == MaleDay(assignments, maleL1s, empIndex, date, l1ShiftIndex, leaves)
    {
      var employee := maleL1s[empIndex];
      var existingAssignment := FindAssignment(employee.id, date, r);
      if existingAssignment.None? {
        if isJustThreeEngineers && empIndex == 3 {
          r := r + [ShiftAssignment(date, employee.id, Off)];
        } else if IsEmployeeOnLeave(employee.id, date, leaves) {
          r := r + [ShiftAssignment(date, employee.id, Leave)];
        } else {
          var shiftIndex := (l1ShiftIndex + empIndex) % |L1Rotation|;
          r := r + [ShiftAssignment(date, employee.id, L1Rotation[shiftIndex])];
        }
      }
      empIndex := empIndex + 1;
    }
  }

  /** The second pass: for each date, handle every male L1 in order, then
      advance `l1ShiftIndex` modulo 3. */
  method AssignMaleL1s(assignments: seq<ShiftAssignment>, maleL1s: seq<Employee>, dates: seq<Day>,
                       leaves: seq<LeaveRequest>) returns (r: seq<ShiftAssignment>)
    ensures r == MalePassList(assignments, maleL1s, dates, leaves)
  {
    r := assignments;
    var l1ShiftIndex := 0;
    var index := 0;
    while index < |dates|
      invariant 0 <= index <= |dates|
      invariant l1ShiftIndex == index % 3
      invariant r == MalePassList(assignments, maleL1s, dates[..index], leaves)
    {
      r := AssignMaleL1sOnDate(r, maleL1s, dates[index], l1ShiftIndex, leaves);
      l1ShiftIndex := (l1ShiftIndex + 1) % |L1Rotation|;
      assert dates[..index + 1][..index] == dates[..index];
      index := index + 1;
    }
    assert dates[..index] == dates;
  }

  /** One male L1 on one date changes only his own entry for that date, and
      only when he had none: then he has exactly one, with his rotation shift. */
  lemma MaleStepObservation(assignments: seq<ShiftAssignment>, employee: Employee, position: nat, date: Day,
                            rotationIndex: int, leaves: seq<LeaveRequest>, id: string, d: Day)
    ensures Obs(MaleStep(assignments, employee, position, date, rotationIndex, leaves), id, d)
         == if employee.id == id && date == d && GetEmployeeShift(id, d, assignments).None?
            then (1, Some(MaleRotationShift(position, Weekday(date), IsEmployeeOnLeave(id, date, leaves), rotationIndex)))
            else Obs(assignments, id, d)
  {
    CountZeroIffNotFound(assignments, id, d);
    if FindAssignment(employee.id, date, assignments).None? {
      var s := if Weekday(date) == 0 && position == 3 then Off
               else if IsEmployeeOnLeave(employee.id, date, leaves) then Leave
               else L1Rotation[(rotationIndex + position) % 3];
      PushObservation(assignments, ShiftAssignment(date, employee.id, s), id, d);
    }
  }

  /** A date of the pass leaves other days, and employees it does not reach,
      as they were. */
  lemma {:induction false} MaleDayOthers(assignments: seq<ShiftAssignment>, maleL1s: seq<Employee>, count: nat, date: Day,
                                         rotationIndex: int, leaves: seq<LeaveRequest>, id: string, d: Day)
    requires count <= |maleL1s|
    requires d != date || forall q :: 0 <= q < count ==> maleL1s[q].id != id
    ensures Obs(MaleDay(assignments, maleL1s, count, date, rotationIndex, leaves), id, d) == Obs(assignments, id, d)
  {
    if count > 0 {
      MaleDayOthers(assignments, maleL1s, count - 1, date, rotationIndex, leaves, id, d);
      var prev := MaleDay(assignments, maleL1s, count - 1, date, rotationIndex, leaves);
      MaleStepObservation(prev, maleL1s[count - 1], count - 1, date, rotationIndex, leaves, id, d);
    }
  }

  /** With distinct ids, male L1 `p` ends a date with the entry he already
      had, or else with exactly one entry carrying his rotation shift. */
  lemma {:induction false} MaleDayObservation(assignments: seq<ShiftAssignment>, maleL1s: seq<Employee>, count: nat,
                                              date: Day, rotationIndex: int, leaves: seq<LeaveRequest>, p: nat)
    requires p < count <= |maleL1s|
    requires UniqueIds(maleL1s)
    ensures var id := maleL1s[p].id;
      Obs(MaleDay(assignments, maleL1s, count, date, rotationIndex, leaves), id, date)
      == if GetEmployeeShift(id, date, assignments).None?
         then (1, Some(MaleRotationShift(p, Weekday(date), IsEmployeeOnLeave(id, date, leaves), rotationIndex)))
         else Obs(assignments, id, date)
  {
    var id := maleL1s[p].id;
    var prev := MaleDay(assignments, maleL1s, count - 1, date, rotationIndex, leaves);
    if p < count - 1 {
      MaleDayObservation(assignments, maleL1s, count - 1, date, rotationIndex, leaves, p);
      assert maleL1s[count - 1].id != id;
    } else {
      MaleDayOthers(assignments, maleL1s, count - 1, date, rotationIndex, leaves, id, date);
    }
    MaleStepObservation(prev, maleL1s[count - 1], count - 1, date, rotationIndex, leaves, id, date);
  }

  /** The pass leaves employees who are not male L1s, and days outside the
      dates it handled, as they were. */
  lemma {:induction false} MalePassOthers(assignments: seq<ShiftAssignment>, maleL1s: seq<Employee>, dates: seq<Day>,
                                          leaves: seq<LeaveRequest>, first: Day, id: string, d: Day)
    requires ConsecutiveFrom(dates, first)
    requires !HasId(maleL1s, id) || !(first <= d < first + |dates|)
    ensures Obs(MalePassList(assignments, maleL1s, dates, leaves), id, d) == Obs(assignments, id, d)
  {
    if |dates| > 0 {
      var i := |dates| - 1;
      assert ConsecutiveFrom(dates[..i], first);
      MalePassOthers(assignments, maleL1s, dates[..i], leaves, first, id, d);
      var prev := MalePassList(assignments, maleL1s, dates[..i], leaves);
      MaleDayOthers(prev, maleL1s, |maleL1s|, dates[i], i % 3, leaves, id, d);
    }
  }

  /** The pass keeps its rotation index modulo 3, which gives the same shift. */
  lemma RotationIndexModThree(position: nat, weekday: int, onLeave: bool, i: nat)
    ensures MaleRotationShift(position, weekday, onLeave, i % 3) == MaleRotationShift(position, weekday, onLeave, i)
  {
    assert (i % 3 + position) % 3 == (i + position) % 3;
  }

  /** With distinct ids, male L1 `p` ends each date of the pass with the entry
      he had before the pass, or else with exactly one entry carrying
      `MaleRotationShift` for that day of the month. */
  lemma {:induction false} MalePassObservation(assignments: seq<ShiftAssignment>, maleL1s: seq<Employee>, dates: seq<Day>,
                                               leaves: seq<LeaveRequest>, first: Day, p: nat, d: Day)
    requires ConsecutiveFrom(dates, first)
    requires p < |maleL1s| && UniqueIds(maleL1s)
    requires first <= d < first + |dates|
    ensures var id := maleL1s[p].id;
      Obs(MalePassList(assignments, maleL1s, dates, leaves), id, d)
      == if GetEmployeeShift(id, d, assignments).None?
         then (1, Some(MaleRotationShift(p, Weekday(d), IsEmployeeOnLeave(id, d, leaves), d - first)))
         else Obs(assignments, id, d)
  {
    var id := maleL1s[p].id;
    var i := |dates| - 1;
    assert ConsecutiveFrom(dates[..i], first);
    var prev := MalePassList(assignments, maleL1s, dates[..i], leaves);
    if d == dates[i] {
      MalePassOthers(assignments, maleL1s, dates[..i], leaves, first, id, d);
      MaleDayObservation(prev, maleL1s, |maleL1s|, d, i % 3, leaves, p);
      RotationIndexModThree(p, Weekday(d), IsEmployeeOnLeave(id, d, leaves), i);
      assert d - first == i;
    } else {
      MalePassObservation(assignments, maleL1s, dates[..i], leaves, first, p, d);
      MaleDayOthers(prev, maleL1s, |maleL1s|, dates[i], i % 3, leaves, id, d);
    }
  }
}
