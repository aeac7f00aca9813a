/**
 * The frozen domain records of the scheduler (`api/models`). Each record's `__post_init__` runs a
 * fixed sequence of guards and raises `ValueError` at the first one that fails; here each
 * record has a constructor function `New…` that returns the record or the `Reason` of the first
 * failing guard, and a `Valid` predicate that holds for exactly the records the guards let
 * through.
 */
module Models {
  import opened Wrappers
  import Patterns
  import TimeUtils
  import Dicts

  /** The foreign-key fields of the link records and data transfer objects. */
  datatype IdField =
    | CourseId | SemesterId | EventId | DayId | TimeSlotId | EmployeeId | DateId | PriorityId
    | TermId | ParticipantSizeId | RoomTypeId | EmployeeTypeId

  /** What each guard's `ValueError` reports. */
  datatype Reason =
    | NegativeId(id: int)
    | InvalidForeignKey(field: IdField, value: int)
    | EmptyName
    | EmptyFirstName
    | EmptyLastName
    | NegativeOrdinal(ordinal: int)
    | UnknownAbbreviation(abbreviation: string)
    | UnknownName(name: string)
    | ValueOutOfRange(value: int)
    | StartNotBeforeEnd(start: TimeUtils.Time, end: TimeUtils.Time)
    | InvalidAbbreviation(abbreviation: string)
    | NegativeWeeklyBlocks(weeklyBlocks: int)

  // ---------------------------------------------------------------------------------------------
  // Day

  const DAY_ABBREVIATIONS: seq<string> := ["MO", "DI", "MI", "DO", "FR", "SA", "SO"]
  const DAY_NAMES: seq<string> :=
    ["Montag", "Dienstag", "Mittwoch", "Donnerstag", "Freitag", "Samstag", "Sonntag"]

  /** Seven days, no abbreviation or name twice, and no abbreviation is empty. */
  lemma DayTables()
    ensures |DAY_ABBREVIATIONS| == 7 && |DAY_NAMES| == 7
    ensures forall i, j :: 0 <= i < j < 7 ==> DAY_ABBREVIATIONS[i] != DAY_ABBREVIATIONS[j]
    ensures forall i, j :: 0 <= i < j < 7 ==> DAY_NAMES[i] != DAY_NAMES[j]
    ensures "" !in DAY_ABBREVIATIONS
  {
  }

  datatype Day = Day(abbreviation: string, name: string)
  {
    /** The two memberships are checked independently of each other. */
    predicate Valid()
    {
      abbreviation in DAY_ABBREVIATIONS && name in DAY_NAMES
    }
  }

  function NewDay(abbreviation: string, name: string): (r: Result<Day, Reason>)
    ensures r.Ok? <==> Day(abbreviation, name).Valid()
    ensures r.Ok? ==> r.value == Day(abbreviation, name)
    ensures abbreviation !in DAY_ABBREVIATIONS ==> r == Err(UnknownAbbreviation(abbreviation))
    ensures abbreviation in DAY_ABBREVIATIONS && name !in DAY_NAMES ==> r == Err(UnknownName(name))
  {
    if abbreviation !in DAY_ABBREVIATIONS then Err(UnknownAbbreviation(abbreviation))
    else if name !in DAY_NAMES then Err(UnknownName(name))
    else Ok(Day(abbreviation, name))
  }

  /** Abbreviation and name need not belong to the same day. */
  lemma MismatchedDayAccepted()
    ensures NewDay("MO", "Dienstag") == Ok(Day("MO", "Dienstag"))
  {
  }

  // ---------------------------------------------------------------------------------------------
  // Term

  const TERM_NAMES: seq<string> := ["Sommer", "Winter"]

  datatype Term = Term(name: string)
  {
    predicate Valid()
    {
      name in TERM_NAMES
    }
  }

  function NewTerm(name: string): (r: Result<Term, Reason>)
    ensures r.Ok? <==> name == "Sommer" || name == "Winter"
    ensures r.Ok? ==> r.value == Term(name) && r.value.Valid()
    ensures r.Err? ==> r.error == UnknownName(name)
  {
    if name !in TERM_NAMES then Err(UnknownName(name)) else Ok(Term(name))
  }

  // ---------------------------------------------------------------------------------------------
  // Priority and Semester

  const PRIORITY_MIN_VALUE: int := 1
  const PRIORITY_MAX_VALUE: int := 100
  const SEMESTER_MIN_VALUE: int := 1
  const SEMESTER_MAX_VALUE: int := 7

  datatype Priority = Priority(value: int)
  {
    predicate Valid()
    {
      PRIORITY_MIN_VALUE <= value <= PRIORITY_MAX_VALUE
    }
  }

  function NewPriority(value: int): (r: Result<Priority, Reason>)
    ensures r.Ok? <==> 1 <= value <= 100
    ensures r.Ok? ==> r.value == Priority(value) && r.value.Valid()
    ensures r.Err? ==> r.error == ValueOutOfRange(value)
  {
    if value < PRIORITY_MIN_VALUE || value > PRIORITY_MAX_VALUE then Err(ValueOutOfRange(value))
    else Ok(Priority(value))
  }

  datatype Semester = Semester(value: int)
  {
    predicate Valid()
    {
      SEMESTER_MIN_VALUE <= value <= SEMESTER_MAX_VALUE
    }
  }

  function NewSemester(value: int): (r: Result<Semester, Reason>)
    ensures r.Ok? <==> 1 <= value <= 7
    ensures r.Ok? ==> r.value == Semester(value) && r.value.Valid()
    ensures r.Err? ==> r.error == ValueOutOfRange(value)
  {
    if value < SEMESTER_MIN_VALUE || value > SEMESTER_MAX_VALUE then Err(ValueOutOfRange(value))
    else Ok(Semester(value))
  }

  // ---------------------------------------------------------------------------------------------
  // TimeSlot

  datatype TimeSlot = TimeSlot(startTime: TimeUtils.Time, endTime: TimeUtils.Time)
  {
    predicate Valid()
    {
      TimeUtils.TimeLess(startTime, endTime)
    }
  }

  /** `start_time >= end_time` on `time` objects raises; equal times are rejected too. */
  function NewTimeSlot(startTime: TimeUtils.Time, endTime: TimeUtils.Time): (r: Result<TimeSlot, Reason>)
    ensures r.Ok? <==> TimeUtils.TimeLess(startTime, endTime)
    ensures r.Ok? ==> r.value == TimeSlot(startTime, endTime) && r.value.Valid()
    ensures r.Err? ==> r.error == StartNotBeforeEnd(startTime, endTime)
    ensures startTime == endTime ==> r.Err?
  {
    if !TimeUtils.TimeLess(startTime, endTime) then Err(StartNotBeforeEnd(startTime, endTime))
    else Ok(TimeSlot(startTime, endTime))
  }

  /**
   * Time slots that come out of the database are whole minutes, so for them the check is
   * "the stored start minute is below the stored end minute".
   */
  lemma StoredTimeSlotByMinutes(startMinutes: int, endMinutes: int)
    requires 0 <= startMinutes <= TimeUtils.MAX_MINUTES_PER_DAY
    requires 0 <= endMinutes <= TimeUtils.MAX_MINUTES_PER_DAY
    ensures NewTimeSlot(TimeUtils.MinutesToTime(startMinutes).value,
                        TimeUtils.MinutesToTime(endMinutes).value).Ok?
            <==> startMinutes < endMinutes
  {
    TimeUtils.TimeLessMinutes(TimeUtils.MinutesToTime(startMinutes).value,
                              TimeUtils.MinutesToTime(endMinutes).value);
  }

  // ---------------------------------------------------------------------------------------------
  // RoomType, EmployeeType, ParticipantSize

  datatype RoomType = RoomType(name: string)
  {
    predicate Valid()
    {
      name != ""
    }
  }

  function NewRoomType(name: string): (r: Result<RoomType, Reason>)
    ensures r.Ok? <==> |name| > 0
    ensures r.Ok? ==> r.value == RoomType(name) && r.value.Valid()
    ensures r.Err? ==> r.error == EmptyName
  {
    if name == "" then Err(EmptyName) else Ok(RoomType(name))
  }

  datatype EmployeeType = EmployeeType(name: string)
  {
    predicate Valid()
    {
      name != ""
    }
  }

  function NewEmployeeType(name: string): (r: Result<EmployeeType, Reason>)
    ensures r.Ok? <==> |name| > 0
    ensures r.Ok? ==> r.value == EmployeeType(name) && r.value.Valid()
    ensures r.Err? ==> r.error == EmptyName
  {
    if name == "" then Err(EmptyName) else Ok(EmployeeType(name))
  }

  datatype ParticipantSize = ParticipantSize(name: string, ordinal: int)
  {
    predicate Valid()
    {
      name != "" && ordinal >= 0
    }
  }

  function NewParticipantSize(name: string, ordinal: int): (r: Result<ParticipantSize, Reason>)
    ensures r.Ok? <==> |name| > 0 && ordinal >= 0
    ensures r.Ok? ==> r.value == ParticipantSize(name, ordinal) && r.value.Valid()
    ensures name == "" ==> r == Err(EmptyName)
    ensures name != "" && ordinal < 0 ==> r == Err(NegativeOrdinal(ordinal))
  {
    if name == "" then Err(EmptyName)
    else if ordinal < 0 then Err(NegativeOrdinal(ordinal))
    else Ok(ParticipantSize(name, ordinal))
  }

  /** The right-hand side of a comparison: a participant size or an object of another type. */
  datatype Operand = Size(size: ParticipantSize) | Other(typeName: string)

  /** `TypeError("Cannot compare ParticipantSize with …")`. */
  datatype CompareError = CannotCompare(typeName: string)

  /** Each comparison compares ordinals and raises `TypeError` for anything but a size. */
  datatype Comparison = Eq | Ne | Lt | Le | Gt | Ge

  function Compare(op: Comparison, a: ParticipantSize, other: Operand): (r: Result<bool, CompareError>)
    ensures r.Err? <==> other.Other?
    ensures r.Err? ==> r.error == CannotCompare(other.typeName)
    ensures r.Ok? && op == Eq ==> (r.value <==> a.ordinal == other.size.ordinal)
    ensures r.Ok? && op == Lt ==> (r.value <==> a.ordinal < other.size.ordinal)
  {
    match other
    case Other(typeName) => Err(CannotCompare(typeName))
    case Size(b) =>
      Ok(match op
         case Eq => a.ordinal == b.ordinal
         case Ne => a.ordinal != b.ordinal
         case Lt => a.ordinal < b.ordinal
         case Le => a.ordinal <= b.ordinal
         case Gt => a.ordinal > b.ordinal
         case Ge => a.ordinal >= b.ordinal)
  }

  /** `!=` is the negation of `==`; `<=` is `<` or `==`; `>` and `>=` are the mirrored forms. */
  lemma ComparisonsAgree(a: ParticipantSize, b: ParticipantSize)
    ensures Compare(Ne, a, Size(b)).value == !Compare(Eq, a, Size(b)).value
    ensures Compare(Le, a, Size(b)).value == (Compare(Lt, a, Size(b)).value || Compare(Eq, a, Size(b)).value)
    ensures Compare(Gt, a, Size(b)).value == Compare(Lt, b, Size(a)).value
    ensures Compare(Ge, a, Size(b)).value == Compare(Le, b, Size(a)).value
  {
  }

  /** Exactly one of `a < b`, `a == b`, `a > b` holds. */
  lemma Trichotomy(a: ParticipantSize, b: ParticipantSize)
    ensures Compare(Lt, a, Size(b)).value || Compare(Eq, a, Size(b)).value || Compare(Gt, a, Size(b)).value
    ensures !(Compare(Lt, a, Size(b)).value && Compare(Eq, a, Size(b)).value)
    ensures !(Compare(Lt, a, Size(b)).value && Compare(Gt, a, Size(b)).value)
    ensures !(Compare(Eq, a, Size(b)).value && Compare(Gt, a, Size(b)).value)
  {
  }

  /** Names play no part: two sizes with the same ordinal are `==` whatever they are called. */
  lemma NamesIgnored(op: Comparison, a: ParticipantSize, b: ParticipantSize, name: string, name': string)
    ensures Compare(op, a.(name := name), Size(b.(name := name'))) == Compare(op, a, Size(b))
    ensures a.ordinal == b.ordinal ==> Compare(Eq, a, Size(b)) == Ok(true)
  {
  }

  /** `<` is transitive, so sizes are ordered by their ordinal like integers. */
  lemma LessTransitive(a: ParticipantSize, b: ParticipantSize, c: ParticipantSize)
    requires Compare(Lt, a, Size(b)) == Ok(true) && Compare(Lt, b, Size(c)) == Ok(true)
    ensures Compare(Lt, a, Size(c)) == Ok(true)
  {
  }

  // ---------------------------------------------------------------------------------------------
  // Event, Employee, Room, Course, Date

  datatype Event = Event(
    name: string,
    employeeIds: seq<int>,
    participants: Dicts.Dict<int, seq<int>>,
    weeklyBlocks: int,
    term: Term,
    participantSize: ParticipantSize,
    roomType: RoomType,
    disallowedDays: seq<Day>)
  {
    /** Only the name and the number of blocks are checked; 0 blocks is allowed. */
    predicate Valid()
    {
      name != "" && weeklyBlocks >= 0
    }
  }

  function NewEvent(
    name: string, employeeIds: seq<int>, participants: Dicts.Dict<int, seq<int>>,
    weeklyBlocks: int, term: Term, participantSize: ParticipantSize, roomType: RoomType,
    disallowedDays: seq<Day>): (r: Result<Event, Reason>)
    ensures r.Ok? <==> |name| > 0 && weeklyBlocks >= 0
    ensures r.Ok? ==> r.value.Valid()
    ensures r.Ok? ==> r.value ==
                      Event(name, employeeIds, participants, weeklyBlocks, term, participantSize, roomType, disallowedDays)
    ensures name == "" ==> r == Err(EmptyName)
    ensures name != "" && weeklyBlocks < 0 ==> r == Err(NegativeWeeklyBlocks(weeklyBlocks))
  {
    if name == "" then Err(EmptyName)
    else if weeklyBlocks < 0 then Err(NegativeWeeklyBlocks(weeklyBlocks))
    else Ok(Event(name, employeeIds, participants, weeklyBlocks, term, participantSize, roomType, disallowedDays))
  }

  datatype Employee = Employee(
    abbreviation: string,
    title: Option<string>,
    firstName: string,
    lastName: string,
    employeeType: EmployeeType)
  {
    /** The title is never checked. */
    predicate Valid()
    {
      Patterns.Matches(Patterns.EMPLOYEE_ABBREVIATION, abbreviation) && firstName != "" && lastName != ""
    }
  }

  function NewEmployee(
    abbreviation: string, title: Option<string>, firstName: string, lastName: string,
    employeeType: EmployeeType): (r: Result<Employee, Reason>)
    ensures r.Ok? <==> |abbreviation| > 0 && 'A' <= abbreviation[0] <= 'Z' && |firstName| > 0 && |lastName| > 0
    ensures r.Ok? ==> r.value.Valid() && r.value == Employee(abbreviation, title, firstName, lastName, employeeType)
    ensures !Patterns.Matches(Patterns.EMPLOYEE_ABBREVIATION, abbreviation) ==> r == Err(InvalidAbbreviation(abbreviation))
    ensures Patterns.Matches(Patterns.EMPLOYEE_ABBREVIATION, abbreviation) && firstName == "" ==> r == Err(EmptyFirstName)
    ensures Patterns.Matches(Patterns.EMPLOYEE_ABBREVIATION, abbreviation) && firstName != "" && lastName == "" ==>
      r == Err(EmptyLastName)
  {
    if !Patterns.Matches(Patterns.EMPLOYEE_ABBREVIATION, abbreviation) then Err(InvalidAbbreviation(abbreviation))
    else if firstName == "" then Err(EmptyFirstName)
    else if lastName == "" then Err(EmptyLastName)
    else Ok(Employee(abbreviation, title, firstName, lastName, employeeType))
  }

  datatype Room = Room(abbreviation: string, name: string, participantSize: ParticipantSize, roomType: RoomType)
  {
    predicate Valid()
    {
      Patterns.Matches(Patterns.ROOM_ABBREVIATION, abbreviation) && name != ""
    }
  }

  function NewRoom(abbreviation: string, name: string, participantSize: ParticipantSize, roomType: RoomType)
    : (r: Result<Room, Reason>)
    ensures r.Ok? <==> |abbreviation| > 0 && 'A' <= abbreviation[0] <= 'Z' && |name| > 0
    ensures r.Ok? ==> r.value.Valid() && r.value == Room(abbreviation, name, participantSize, roomType)
    ensures !Patterns.Matches(Patterns.ROOM_ABBREVIATION, abbreviation) ==> r == Err(InvalidAbbreviation(abbreviation))
    ensures Patterns.Matches(Patterns.ROOM_ABBREVIATION, abbreviation) && name == "" ==> r == Err(EmptyName)
  {
    if !Patterns.Matches(Patterns.ROOM_ABBREVIATION, abbreviation) then Err(InvalidAbbreviation(abbreviation))
    else if name == "" then Err(EmptyName)
    else Ok(Room(abbreviation, name, participantSize, roomType))
  }

  datatype Course = Course(abbreviation: string, name: string)
  {
    predicate Valid()
    {
      Patterns.Matches(Patterns.COURSE_ABBREVIATION, abbreviation) && name != ""
    }
  }

  function NewCourse(abbreviation: string, name: string): (r: Result<Course, Reason>)
    ensures r.Ok? <==> |abbreviation| > 0 && ('A' <= abbreviation[0] <= 'Z' || abbreviation[0] == '_') && |name| > 0
    ensures r.Ok? ==> r.value.Valid() && r.value == Course(abbreviation, name)
    ensures !Patterns.Matches(Patterns.COURSE_ABBREVIATION, abbreviation) ==> r == Err(InvalidAbbreviation(abbreviation))
    ensures Patterns.Matches(Patterns.COURSE_ABBREVIATION, abbreviation) && name == "" ==> r == Err(EmptyName)
  {
    if !Patterns.Matches(Patterns.COURSE_ABBREVIATION, abbreviation) then Err(InvalidAbbreviation(abbreviation))
    else if name == "" then Err(EmptyName)
    else Ok(Course(abbreviation, name))
  }

  /** A day and a time slot; the record has no checks of its own. */
  datatype Date = Date(day: Day, timeSlot: TimeSlot)
}
