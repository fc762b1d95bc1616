/** The roster generator of roster-utils: the dates of a month, the
    consecutive-working-days count, and `generateRoster` with its three
    passes (the morning-only female L1, the male L1 rotation, the L2
    rotation). The assignment list the source grows with `push` is a local
    sequence here, extended by `+ [x]`. */
module RosterGeneration {
  import opened RosterTypes
  import opened Calendar
  import opened RosterQueries

  // ---------------------------------------------------------------------
  // Dates and the consecutive-working-days count
  // ---------------------------------------------------------------------

  /** The dates `getDatesInMonth` lists: day 1, 2, ... of the month. */
  function MonthDates(year: int, month: int): (dates: seq<Day>)
    ensures |dates| == DaysInMonth(year, month)
    ensures ConsecutiveFrom(dates, DayNumber(year, month, 1))
  {
    seq(DaysInMonth(year, month), i => DayNumber(year, month, i + 1))
  }

  /** `getDatesInMonth`: the loop pushes `new Date(year, month, day)` for
      day 1 to the month's length. */
  method GetDatesInMonth(year: int, month: int) returns (dates: seq<Day>)
    ensures dates == MonthDates(year, month)
  {
    var daysInMonth := DaysInMonth(year, month);
    dates := [];
    var day := 1;
    while day <= daysInMonth
      invariant 1 <= day <= daysInMonth + 1
      invariant dates == MonthDates(year, month)[..day - 1]
    {
      dates := dates + [DayNumber(year, month, day)];
      day := day + 1;
    }
  }

  /** `getConsecutiveWorkingDays`: walks back from `endDate` one day at a time
      while the employee has a working (not Off, not Leave) shift that day. */
  method GetConsecutiveWorkingDays(id: string, endDate: Day, assignments: seq<ShiftAssignment>) returns (count: nat)
    ensures IsWorkingRun(id, endDate, assignments, count)
    ensures count == 0 <==> !HasWorkingShift(id, endDate, assignments)
  {
    count := 0;
    var currentDate := endDate;
    ghost var earliest := EarliestDate(assignments, endDate);
    while true
      invariant currentDate == endDate - count
      invariant forall d :: currentDate < d <= endDate ==> HasWorkingShift(id, d, assignments)
      decreases currentDate - earliest
    {
      var hasAssignment := HasWorkingShift(id, currentDate, assignments);
      if !hasAssignment {
        break;
      }
      count := count + 1;
      currentDate := currentDate - 1;
    }
  }

  // ---------------------------------------------------------------------
  // Employee groups
  // ---------------------------------------------------------------------

  /** No two employees of the list share an id. */
  ghost predicate UniqueIds(employees: seq<Employee>)
  {
    forall i, j :: 0 <= i < j < |employees| ==> employees[i].id != employees[j].id
  }

  /** Some employee of the list has this id. */
  ghost predicate HasId(employees: seq<Employee>, id: string)
  {
    exists p :: 0 <= p < |employees| && employees[p].id == id
  }

  /** `Array.prototype.filter`: the employees that `keep` accepts, in order. */
  function Filter(employees: seq<Employee>, keep: Employee -> bool): (r: seq<Employee>)
    ensures forall e :: e in r <==> e in employees && keep(e)
  {
    if |employees| == 0 then []
    else
      var rest := Filter(employees[1..], keep);
      assert forall e :: e in employees[1..] ==> e in employees;
      if keep(employees[0]) then [employees[0]] + rest else rest
  }

  /** `filter` keeps the input's order: filtering a concatenation is the
      concatenation of the filtered parts. */
  lemma {:induction false} FilterAppend(a: seq<Employee>, b: seq<Employee>, keep: Employee -> bool)
    ensures Filter(a + b, keep) == Filter(a, keep) + Filter(b, keep)
  {
    if |a| > 0 {
      assert (a + b)[1..] == a[1..] + b;
      FilterAppend(a[1..], b, keep);
    } else {
      assert a + b == b;
    }
  }

  /** A one-element list keeps its employee exactly when `keep` accepts it. */
  lemma FilterSingleton(e: Employee, keep: Employee -> bool)
    ensures Filter([e], keep) == if keep(e) then [e] else []
  {
    assert [e][1..] == [];
  }

  /** Dropping the head keeps ids distinct. */
  lemma TailKeepsUniqueIds(employees: seq<Employee>)
    requires UniqueIds(employees) && |employees| > 0
    ensures UniqueIds(employees[1..])
  {
    var tail := employees[1..];
    forall i, j | 0 <= i < j < |tail|
      ensures tail[i].id != tail[j].id
    {
      assert tail[i] == employees[i + 1] && tail[j] == employees[j + 1];
    }
  }

  /** Putting back an employee whose id the rest lacks keeps ids distinct. */
  lemma ConsKeepsUniqueIds(e: Employee, rest: seq<Employee>)
    requires UniqueIds(rest) && !HasId(rest, e.id)
    ensures UniqueIds([e] + rest)
  {
    var r := [e] + rest;
    forall i, j | 0 <= i < j < |r|
      ensures r[i].id != r[j].id
    {
      assert r[j] == rest[j - 1];
      if i > 0 {
        assert r[i] == rest[i - 1];
      }
    }
  }

  /** An employee kept by a filter of the tail is not the head, by id. */
  lemma HeadIdNotInTail(employees: seq<Employee>, kept: seq<Employee>)
    requires UniqueIds(employees) && |employees| > 0
    requires forall e :: e in kept ==> e in employees[1..]
    ensures !HasId(kept, employees[0].id)
  {
    forall q | 0 <= q < |kept|
      ensures kept[q].id != employees[0].id
    {
      assert kept[q] in kept;
      var k :| 0 <= k < |employees[1..]| && employees[1..][k] == kept[q];
      assert kept[q] == employees[k + 1];
    }
  }

  /** Filtering keeps ids distinct. */
  lemma {:induction false} FilterKeepsUniqueIds(employees: seq<Employee>, keep: Employee -> bool)
    requires UniqueIds(employees)
    ensures UniqueIds(Filter(employees, keep))
  {
    if |employees| > 0 {
      TailKeepsUniqueIds(employees);
      FilterKeepsUniqueIds(employees[1..], keep);
      var rest := Filter(employees[1..], keep);
      if keep(employees[0]) {
        HeadIdNotInTail(employees, rest);
        ConsKeepsUniqueIds(employees[0], rest);
      }
    }
  }

  /** The employee `generateRoster` treats as the morning-only female L1. */
  predicate IsMorningOnlyFemale(e: Employee)
  {
    e.gender == Female && e.OnlyMorningShift()
  }

  /** `l1Employees.find(e => e.gender === Female && e.constraints?.onlyMorningShift)`:
      the first such employee in list order, if any. */
  function FindMorningOnlyFemale(l1Employees: seq<Employee>): (r: Option<Employee>)
    ensures r.None? <==> forall k :: 0 <= k < |l1Employees| ==> !IsMorningOnlyFemale(l1Employees[k])
    ensures r.Some? ==> (exists k :: 0 <= k < |l1Employees| && l1Employees[k] == r.value
                                     && IsMorningOnlyFemale(r.value)
                                     && forall j :: 0 <= j < k ==> !IsMorningOnlyFemale(l1Employees[j]))
  {
    if |l1Employees| == 0 then None
    else if IsMorningOnlyFemale(l1Employees[0]) then Some(l1Employees[0])
    else
      var r := FindMorningOnlyFemale(l1Employees[1..]);
      assert r.Some? ==> (exists k :: 1 <= k < |l1Employees| && l1Employees[k] == r.value
                                       && forall j :: 0 <= j < k ==> !IsMorningOnlyFemale(l1Employees[j]));
      r
  }

  /** The groups `generateRoster` works on, computed as it computes them. */
  function L1Employees(employees: seq<Employee>): seq<Employee> { Filter(employees, IsL1) }
  function L2Employees(employees: seq<Employee>): seq<Employee> { Filter(employees, IsL2) }
  function SelectedFemaleL1(employees: seq<Employee>): Option<Employee> { FindMorningOnlyFemale(L1Employees(employees)) }
  function MaleL1s(employees: seq<Employee>): seq<Employee> { Filter(L1Employees(employees), IsMale) }

  /** The three tests `generateRoster` filters with. */
  predicate IsL1(e: Employee) { e.role == L1 }
  predicate IsL2(e: Employee) { e.role == L2 }
  predicate IsMale(e: Employee) { e.gender == Male }

  /** With distinct ids in the input, an id names one employee. */
  lemma SameIdSameEmployee(employees: seq<Employee>, a: Employee, b: Employee)
    requires UniqueIds(employees)
    requires a in employees && b in employees
    ensures a.id == b.id ==> a == b
  {
    var i :| 0 <= i < |employees| && employees[i] == a;
    var j :| 0 <= j < |employees| && employees[j] == b;
    if a.id == b.id {
      assert i == j;
    }
  }

  /** With distinct ids in the input, each group has distinct ids, and no id
      is in two groups: the selected female L1 is no male L1 and no L2, and
      no male L1 is an L2. */
  lemma GroupsAreDisjoint(employees: seq<Employee>)
    requires UniqueIds(employees)
    ensures UniqueIds(MaleL1s(employees)) && UniqueIds(L2Employees(employees))
    ensures SelectedFemaleL1(employees).Some? ==>
      var f := SelectedFemaleL1(employees).value;
      f in employees && f.role == L1 && f.gender == Female
      && !HasId(MaleL1s(employees), f.id) && !HasId(L2Employees(employees), f.id)
    ensures forall p :: 0 <= p < |MaleL1s(employees)| ==> !HasId(L2Employees(employees), MaleL1s(employees)[p].id)
  {
    var ms, l2s := MaleL1s(employees), L2Employees(employees);
    FilterKeepsUniqueIds(employees, IsL1);
    FilterKeepsUniqueIds(employees, IsL2);
    FilterKeepsUniqueIds(L1Employees(employees), IsMale);
    var f := SelectedFemaleL1(employees);
    if f.Some? {
      var k :| 0 <= k < |L1Employees(employees)| && L1Employees(employees)[k] == f.value;
      assert f.value in L1Employees(employees);
      forall q | 0 <= q < |ms|
        ensures ms[q].id != f.value.id
      {
        assert ms[q] in ms;
        SameIdSameEmployee(employees, ms[q], f.value);
      }
      forall q | 0 <= q < |l2s|
        ensures l2s[q].id != f.value.id
      {
        assert l2s[q] in l2s;
        SameIdSameEmployee(employees, l2s[q], f.value);
      }
    }
    forall p, q | 0 <= p < |ms| && 0 <= q < |l2s|
      ensures l2s[q].id != ms[p].id
    {
      assert ms[p] in ms && l2s[q] in l2s;
      SameIdSameEmployee(employees, l2s[q], ms[p]);
    }
  }

  // ---------------------------------------------------------------------
  // What each employee gets: the reference definitions
  // ---------------------------------------------------------------------

  /** `shiftRotation` of the male L1s and `l2ShiftRotation` of the L2s. */
  const L1Rotation: seq<ShiftType> := [Morning, Afternoon, Night]
  const L2Rotation: seq<ShiftType> := [Morning, Afternoon]

  /** `isFiveDayWeek` of the L2 pass, a constant in the source. */
  const IsFiveDayWeek: bool := false

  /** The morning-only female L1's shift on day `dayIndex` of the month: Leave
      when on leave; Off on a Saturday of an odd seven-day block (the source's
      `shouldWork` flips every seventh day index); Morning otherwise. */
  function FemaleL1Shift(dayIndex: int, weekday: int, onLeave: bool): (s: ShiftType)
    ensures s != Afternoon && s != Night
    ensures s == Leave <==> onLeave
    ensures s == Off <==> !onLeave && weekday == 6 && !ShouldWork(dayIndex)
  {
    if onLeave then Leave
    else if weekday == 6 && (dayIndex / 7) % 2 == 1 then Off
    else Morning
  }

  /** The value of the first pass's `shouldWork` on day `index`: it starts
      true and flips on every nonzero multiple of seven. */
  function ShouldWork(index: int): bool
  {
    (index / 7) % 2 == 0
  }

  /** `shouldWork` flips exactly when the index reaches a nonzero multiple of
      seven, which is how the first pass updates it. */
  lemma ShouldWorkToggles(index: nat)
    requires index > 0
    ensures ShouldWork(index) == if index % 7 == 0 then !ShouldWork(index - 1) else ShouldWork(index - 1)
  {
    var q := index / 7;
    if index % 7 == 0 {
      assert index - 1 == 7 * (q - 1) + 6;
      assert (index - 1) / 7 == q - 1;
    } else {
      assert index - 1 == 7 * q + (index % 7 - 1);
      assert (index - 1) / 7 == q;
    }
  }

  /** Position in `maleL1s` of the first male L1 not on leave on `date`. */
  function FirstNotOnLeave(maleL1s: seq<Employee>, date: Day, leaves: seq<LeaveRequest>): (r: Option<nat>)
    ensures r.None? <==> forall q :: 0 <= q < |maleL1s| ==> IsEmployeeOnLeave(maleL1s[q].id, date, leaves)
    ensures r.Some? ==> r.value < |maleL1s| && !IsEmployeeOnLeave(maleL1s[r.value].id, date, leaves)
                        && forall q :: 0 <= q < r.value ==> IsEmployeeOnLeave(maleL1s[q].id, date, leaves)
  {
    if |maleL1s| == 0 then None
    else if !IsEmployeeOnLeave(maleL1s[0].id, date, leaves) then Some(0)
    else
      match FirstNotOnLeave(maleL1s[1..], date, leaves)
      case None => None
      case Some(k) => Some(k + 1)
  }

  /** The position of the male L1 who covers the morning for the female L1 on
      `date`: only when she is on leave, and then the first male L1 not on leave. */
  function SubstituteOn(female: Option<Employee>, maleL1s: seq<Employee>, date: Day, leaves: seq<LeaveRequest>): (r: Option<nat>)
    ensures r.Some? ==> female.Some? && IsEmployeeOnLeave(female.value.id, date, leaves)
    ensures r.Some? ==> r.value < |maleL1s| && !IsEmployeeOnLeave(maleL1s[r.value].id, date, leaves)
  {
    if female.Some? && IsEmployeeOnLeave(female.value.id, date, leaves) then FirstNotOnLeave(maleL1s, date, leaves)
    else None
  }

  /** A male L1's own shift when no entry exists for him yet: position 3 is
      Off on Sundays (before the leave check), then Leave, then the daily
      rotation by day index plus position. */
  function MaleRotationShift(position: nat, weekday: int, onLeave: bool, dayIndex: int): (s: ShiftType)
    ensures s == Off <==> weekday == 0 && position == 3
    ensures s == Leave <==> onLeave && !(weekday == 0 && position == 3)
  {
    if weekday == 0 && position == 3 then Off
    else if onLeave then Leave
    else L1Rotation[(dayIndex + position) % 3]
  }

  /** A male L1's shift in the finished roster: Morning where he substitutes
      for the female L1, his own shift otherwise. */
  function MaleL1Shift(substitute: bool, position: nat, weekday: int, onLeave: bool, dayIndex: int): (s: ShiftType)
    ensures substitute ==> s == Morning
    ensures s == Off <==> !substitute && weekday == 0 && position == 3
    ensures s == Leave <==> !substitute && onLeave && !(weekday == 0 && position == 3)
    ensures s == Night ==> !substitute && !onLeave
  {
    if substitute then Morning else MaleRotationShift(position, weekday, onLeave, dayIndex)
  }

  /** An L2's shift: Leave, or the two-shift rotation by day index plus position. */
  function L2Shift(position: nat, onLeave: bool, dayIndex: int): (s: ShiftType)
    ensures s != Night && s != Off
    ensures s == Leave <==> onLeave
  {
    if onLeave then Leave else L2Rotation[(dayIndex + position) % 2]
  }

  /** The dates are `first`, `first + 1`, ... in order. */
  predicate ConsecutiveFrom(dates: seq<Day>, first: Day)
  {
    forall i :: 0 <= i < |dates| ==> dates[i] == first + i
  }

  /** The female L1's short weeks are the second seven days of every
      fourteen: on a Saturday she is Off exactly when the day index modulo 14
      is 7 or more. */
  lemma {:induction false} ShortWeeksAlternate(dayIndex: nat)
    ensures FemaleL1Shift(dayIndex, 6, false) == Off <==> dayIndex % 14 >= 7
  {
    var q, r := dayIndex / 14, dayIndex % 14;
    assert dayIndex == 14 * q + r;
    assert dayIndex / 7 == 2 * q + r / 7;
  }

  /** On any day, positions 0, 1 and 2, when not on leave, are given Morning,
      Afternoon and Night, one each: the male rotation staffs every shift. */
  lemma RotationStaffsEveryShift(weekday: int, dayIndex: int)
    ensures {MaleRotationShift(0, weekday, false, dayIndex), MaleRotationShift(1, weekday, false, dayIndex),
             MaleRotationShift(2, weekday, false, dayIndex)} == {Morning, Afternoon, Night}
  {
    var r := dayIndex % 3;
    assert (dayIndex + 1) % 3 == (r + 1) % 3 && (dayIndex + 2) % 3 == (r + 2) % 3;
  }

  /** The male rotation moves every position one shift on per day, so a male
      L1 who works a Night works the Morning of the next day (when not on
      leave and not the Sunday position 3). */
  lemma NightIsFollowedByMorning(position: nat, weekday: int, nextWeekday: int, dayIndex: int)
    requires !(weekday == 0 && position == 3) && !(nextWeekday == 0 && position == 3)
    requires MaleRotationShift(position, weekday, false, dayIndex) == Night
    ensures MaleRotationShift(position, nextWeekday, false, dayIndex + 1) == Morning
  {
    assert (dayIndex + position) % 3 == 2;
    assert (dayIndex + 1 + position) % 3 == 0;
  }

  /** The L2 rotation alternates: neighbours in the list get different shifts
      on a day, and each L2 changes shift from one day to the next (when not
      on leave). */
  lemma L2RotationAlternates(position: nat, dayIndex: int)
    ensures L2Shift(position, false, dayIndex) != L2Shift(position + 1, false, dayIndex)
    ensures L2Shift(position, false, dayIndex) != L2Shift(position, false, dayIndex + 1)
  {
    assert (dayIndex + position + 1) % 2 != (dayIndex + position) % 2;
  }

  // ---------------------------------------------------------------------
  // The substitute search
  // ---------------------------------------------------------------------

  /** `maleL1s.find(e => !isEmployeeOnLeave(...) && !workedNightShiftYesterday(...))`. */
  function FindAvailableL1(maleL1s: seq<Employee>, date: Day, leaves: seq<LeaveRequest>,
                           assignments: seq<ShiftAssignment>): (r: Option<Employee>)
    ensures r.Some? ==> r.value in maleL1s && !IsEmployeeOnLeave(r.value.id, date, leaves)
                        && !WorkedNightShiftYesterday(r.value.id, date, assignments)
    ensures r.None? <==> forall q :: 0 <= q < |maleL1s| ==>
      IsEmployeeOnLeave(maleL1s[q].id, date, leaves) || WorkedNightShiftYesterday(maleL1s[q].id, date, assignments)
  {
    if |maleL1s| == 0 then None
    else if !IsEmployeeOnLeave(maleL1s[0].id, date, leaves) && !WorkedNightShiftYesterday(maleL1s[0].id, date, assignments)
    then Some(maleL1s[0])
    else FindAvailableL1(maleL1s[1..], date, leaves, assignments)
  }

  /** `find` returns the FIRST male L1 who passes both tests: everyone before
      it in the list is on leave or worked a night yesterday. */
  lemma {:induction false} FindAvailableL1IsFirst(maleL1s: seq<Employee>, date: Day, leaves: seq<LeaveRequest>,
                                                  assignments: seq<ShiftAssignment>)
    ensures FindAvailableL1(maleL1s, date, leaves, assignments).Some? ==>
      exists k :: 0 <= k < |maleL1s| && maleL1s[k] == FindAvailableL1(maleL1s, date, leaves, assignments).value
        && forall j :: 0 <= j < k ==>
             IsEmployeeOnLeave(maleL1s[j].id, date, leaves) || WorkedNightShiftYesterday(maleL1s[j].id, date, assignments)
  {
    var r := FindAvailableL1(maleL1s, date, leaves, assignments);
    if |maleL1s| > 0 && r.Some? && r != Some(maleL1s[0]) {
      var rest := maleL1s[1..];
      FindAvailableL1IsFirst(rest, date, leaves, assignments);
      var k :| 0 <= k < |rest| && rest[k] == r.value
        && forall j :: 0 <= j < k ==>
             IsEmployeeOnLeave(rest[j].id, date, leaves) || WorkedNightShiftYesterday(rest[j].id, date, assignments);
      assert maleL1s[k + 1] == rest[k];
      assert forall j :: 1 <= j < k + 1 ==> maleL1s[j] == rest[j - 1];
    }
  }

  /** While the list holds no Night shift, nobody "worked a night yesterday",
      so the substitute is just the first male L1 not on leave. */
  lemma {:induction false} AvailableL1IsFirstNotOnLeave(maleL1s: seq<Employee>, date: Day, leaves: seq<LeaveRequest>,
                                                        assignments: seq<ShiftAssignment>)
    requires forall k :: 0 <= k < |assignments| ==> assignments[k].shiftType != Night
    ensures FindAvailableL1(maleL1s, date, leaves, assignments)
         == match FirstNotOnLeave(maleL1s, date, leaves)
            case None => None
            case Some(p) => Some(maleL1s[p])
  {
    if |maleL1s| > 0 {
      assert !WorkedNightShiftYesterday(maleL1s[0].id, date, assignments);
      AvailableL1IsFirstNotOnLeave(maleL1s[1..], date, leaves, assignments);
    }
  }
}
