/** The roster's data model: shift, role and gender enumerations and the
    employee, assignment, leave and roster records. Calendar dates are
    integer day numbers (see module Calendar). */
module RosterTypes {

  datatype Option<+T> = None | Some(value: T)

  /** A calendar day, counted from 1 January 1970 (day 0). */
  type Day = int

  /** The five kinds of shift. The source declares them as a string enum whose
      values are the one-letter codes. */
  datatype ShiftType = Morning | Afternoon | Night | Off | Leave
  {
    /** The enum's string value. */
    function Code(): char
    {
      match this
      case Morning => 'M'
      case Afternoon => 'A'
      case Night => 'N'
      case Off => 'O'
      case Leave => 'L'
    }
  }

  /** The shift whose enum value is `c`, if any. */
  function ParseShiftType(c: char): (r: Option<ShiftType>)
    ensures r.Some? <==> c in {'M', 'A', 'N', 'O', 'L'}
    ensures r.Some? ==> r.value.Code() == c
  {
    match c
    case 'M' => Some(Morning)
    case 'A' => Some(Afternoon)
    case 'N' => Some(Night)
    case 'O' => Some(Off)
    case 'L' => Some(Leave)
    case _ => None
  }

  /** Every shift type is recovered from its code, so the five codes are distinct. */
  lemma ShiftCodeRoundTrip(s: ShiftType)
    ensures ParseShiftType(s.Code()) == Some(s)
  {
  }

  /** The shift types, one entry per enum member. */
  const AllShiftTypes: seq<ShiftType> := [Morning, Afternoon, Night, Off, Leave]

  /** The enumeration has exactly five members, with pairwise distinct codes. */
  lemma ShiftTypesAreFiveWithDistinctCodes()
    ensures |AllShiftTypes| == 5
    ensures forall s: ShiftType :: s in AllShiftTypes
    ensures forall i, j :: 0 <= i < j < |AllShiftTypes| ==> AllShiftTypes[i].Code() != AllShiftTypes[j].Code()
  {
    forall s: ShiftType ensures s in AllShiftTypes {
      match s
      case Morning => assert AllShiftTypes[0] == s;
      case Afternoon => assert AllShiftTypes[1] == s;
      case Night => assert AllShiftTypes[2] == s;
      case Off => assert AllShiftTypes[3] == s;
      case Leave => assert AllShiftTypes[4] == s;
    }
  }

  datatype EmployeeRole = L1 | L2
  {
    function Label(): string
    {
      match this
      case L1 => "L1"
      case L2 => "L2"
    }
  }

  datatype Gender = Male | Female
  {
    function Label(): string
    {
      match this
      case Male => "Male"
      case Female => "Female"
    }
  }

  /** The role whose enum value is `s`, if any. */
  function ParseRole(s: string): (r: Option<EmployeeRole>)
    ensures r.Some? <==> s in {"L1", "L2"}
    ensures r.Some? ==> r.value.Label() == s
  {
    if s == "L1" then Some(L1) else if s == "L2" then Some(L2) else None
  }

  /** The gender whose enum value is `s`, if any. */
  function ParseGender(s: string): (r: Option<Gender>)
    ensures r.Some? <==> s in {"Male", "Female"}
    ensures r.Some? ==> r.value.Label() == s
  {
    if s == "Male" then Some(Male) else if s == "Female" then Some(Female) else None
  }

  /** Both enumerations have exactly two members, told apart by their values. */
  lemma RolesAndGendersRoundTrip(role: EmployeeRole, gender: Gender)
    ensures ParseRole(role.Label()) == Some(role)
    ensures ParseGender(gender.Label()) == Some(gender)
  {
  }

  /** The optional constraint record; each flag may itself be absent. */
  datatype Constraints = Constraints(onlyMorningShift: Option<bool>, noNightShift: Option<bool>)

  datatype Employee = Employee(
    id: string,
    name: string,
    role: EmployeeRole,
    gender: Gender,
    constraints: Option<Constraints>)
  {
    /** `constraints?.onlyMorningShift` read as a condition: absent means false. */
    predicate OnlyMorningShift()
    {
      constraints.Some? && constraints.value.onlyMorningShift == Some(true)
    }
  }

  /** The engine treats a missing constraint record, or a missing flag, as false. */
  lemma MissingMorningFlagReadsFalse(e: Employee)
    requires e.constraints.None? || e.constraints.value.onlyMorningShift != Some(true)
    ensures !e.OnlyMorningShift()
  {
  }

  datatype ShiftAssignment = ShiftAssignment(date: Day, employeeId: string, shiftType: ShiftType)
  {
    /** This assignment is for employee `id` on day `d`. */
    predicate IsFor(id: string, d: Day)
    {
      employeeId == id && date == d
    }
  }

  datatype LeaveRequest = LeaveRequest(employeeId: string, date: Day)

  /** A generated roster; `month` is zero-based (0 = January). */
  datatype RosterMonth = RosterMonth(
    year: int,
    month: int,
    assignments: seq<ShiftAssignment>,
    leaves: seq<LeaveRequest>)

  /** A zero-based month index in range. */
  predicate ValidMonth(month: int)
  {
    0 <= month <= 11
  }
}
