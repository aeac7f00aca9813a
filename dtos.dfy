/**
 * The data transfer objects of the database layer (`db/dto`). An entity's own `id` may be 0,
 * a placeholder before the database assigns one, but every foreign key must be at least 1. Each
 * constructor returns the record or the `Reason` of the first guard that fails, in the order
 * the source checks them. The bounds and tables the guards use are the ones the domain records
 * use, so a record a DTO constructor accepts always converts to a domain record.
 */
module Dtos {
  import opened Wrappers
  import opened Models
  import Patterns
  import TimeUtils
  import Dicts

  /** An entity id: negative ids are rejected, 0 is accepted. */
  predicate ValidId(id: int)
  {
    id >= 0
  }

  /** A foreign key: it must point at a row, and rows are numbered from 1. */
  predicate ValidForeignKey(id: int)
  {
    id >= 1
  }

  datatype DayDto = DayDto(id: int, abbreviation: string, name: string)

  function NewDayDto(id: int, abbreviation: string, name: string): (r: Result<DayDto, Reason>)
    ensures r.Ok? <==> id >= 0 && abbreviation in DAY_ABBREVIATIONS && name in DAY_NAMES
    ensures r.Ok? ==> r.value == DayDto(id, abbreviation, name)
    ensures id < 0 ==> r == Err(NegativeId(id))
    ensures id >= 0 && abbreviation !in DAY_ABBREVIATIONS ==> r == Err(UnknownAbbreviation(abbreviation))
    ensures id >= 0 && abbreviation in DAY_ABBREVIATIONS && name !in DAY_NAMES ==> r == Err(UnknownName(name))
  {
    if !ValidId(id) then Err(NegativeId(id))
    else if abbreviation !in DAY_ABBREVIATIONS then Err(UnknownAbbreviation(abbreviation))
    else if name !in DAY_NAMES then Err(UnknownName(name))
    else Ok(DayDto(id, abbreviation, name))
  }

  datatype TermDto = TermDto(id: int, name: string)

  function NewTermDto(id: int, name: string): (r: Result<TermDto, Reason>)
    ensures r.Ok? <==> id >= 0 && (name == "Sommer" || name == "Winter")
    ensures r.Ok? ==> r.value == TermDto(id, name)
    ensures id < 0 ==> r == Err(NegativeId(id))
    ensures id >= 0 && name !in TERM_NAMES ==> r == Err(UnknownName(name))
  {
    if !ValidId(id) then Err(NegativeId(id))
    else if name !in TERM_NAMES then Err(UnknownName(name))
    else Ok(TermDto(id, name))
  }

  datatype PriorityDto = PriorityDto(id: int, value: int)

  function NewPriorityDto(id: int, value: int): (r: Result<PriorityDto, Reason>)
    ensures r.Ok? <==> id >= 0 && PRIORITY_MIN_VALUE <= value <= PRIORITY_MAX_VALUE
    ensures r.Ok? ==> r.value == PriorityDto(id, value)
    ensures id < 0 ==> r == Err(NegativeId(id))
    ensures id >= 0 && !(1 <= value <= 100) ==> r == Err(ValueOutOfRange(value))
  {
    if !ValidId(id) then Err(NegativeId(id))
    else if value < PRIORITY_MIN_VALUE || value > PRIORITY_MAX_VALUE then Err(ValueOutOfRange(value))
    else Ok(PriorityDto(id, value))
  }

  datatype SemesterDto = SemesterDto(id: int, value: int)

  function NewSemesterDto(id: int, value: int): (r: Result<SemesterDto, Reason>)
    ensures r.Ok? <==> id >= 0 && SEMESTER_MIN_VALUE <= value <= SEMESTER_MAX_VALUE
    ensures r.Ok? ==> r.value == SemesterDto(id, value)
    ensures id < 0 ==> r == Err(NegativeId(id))
    ensures id >= 0 && !(1 <= value <= 7) ==> r == Err(ValueOutOfRange(value))
  {
    if !ValidId(id) then Err(NegativeId(id))
    else if value < SEMESTER_MIN_VALUE || value > SEMESTER_MAX_VALUE then Err(ValueOutOfRange(value))
    else Ok(SemesterDto(id, value))
  }

  datatype TimeSlotDto = TimeSlotDto(id: int, startTime: TimeUtils.Time, endTime: TimeUtils.Time)

  function NewTimeSlotDto(id: int, startTime: TimeUtils.Time, endTime: TimeUtils.Time): (r: Result<TimeSlotDto, Reason>)
    ensures r.Ok? <==> id >= 0 && TimeUtils.TimeLess(startTime, endTime)
    ensures r.Ok? ==> r.value == TimeSlotDto(id, startTime, endTime)
    ensures id < 0 ==> r == Err(NegativeId(id))
    ensures id >= 0 && !TimeUtils.TimeLess(startTime, endTime) ==> r == Err(StartNotBeforeEnd(startTime, endTime))
  {
    if !ValidId(id) then Err(NegativeId(id))
    else if !TimeUtils.TimeLess(startTime, endTime) then Err(StartNotBeforeEnd(startTime, endTime))
    else Ok(TimeSlotDto(id, startTime, endTime))
  }

  datatype ParticipantSizeDto = ParticipantSizeDto(id: int, name: string, ordinal: int)

  function NewParticipantSizeDto(id: int, name: string, ordinal: int): (r: Result<ParticipantSizeDto, Reason>)
    ensures r.Ok? <==> id >= 0 && |name| > 0 && ordinal >= 0
    ensures r.Ok? ==> r.value == ParticipantSizeDto(id, name, ordinal)
    ensures id < 0 ==> r == Err(NegativeId(id))
    ensures id >= 0 && name == "" ==> r == Err(EmptyName)
    ensures id >= 0 && name != "" && ordinal < 0 ==> r == Err(NegativeOrdinal(ordinal))
  {
    if !ValidId(id) then Err(NegativeId(id))
    else if name == "" then Err(EmptyName)
    else if ordinal < 0 then Err(NegativeOrdinal(ordinal))
    else Ok(ParticipantSizeDto(id, name, ordinal))
  }

  datatype RoomTypeDto = RoomTypeDto(id: int, name: string)

  function NewRoomTypeDto(id: int, name: string): (r: Result<RoomTypeDto, Reason>)
    ensures r.Ok? <==> id >= 0 && |name| > 0
    ensures r.Ok? ==> r.value == RoomTypeDto(id, name)
    ensures id < 0 ==> r == Err(NegativeId(id))
    ensures id >= 0 && name == "" ==> r == Err(EmptyName)
  {
    if !ValidId(id) then Err(NegativeId(id))
    else if name == "" then Err(EmptyName)
    else Ok(RoomTypeDto(id, name))
  }

  datatype EmployeeTypeDto = EmployeeTypeDto(id: int, name: string)

  function NewEmployeeTypeDto(id: int, name: string): (r: Result<EmployeeTypeDto, Reason>)
    ensures r.Ok? <==> id >= 0 && |name| > 0
    ensures r.Ok? ==> r.value == EmployeeTypeDto(id, name)
    ensures id < 0 ==> r == Err(NegativeId(id))
    ensures id >= 0 && name == "" ==> r == Err(EmptyName)
  {
    if !ValidId(id) then Err(NegativeId(id))
    else if name == "" then Err(EmptyName)
    else Ok(EmployeeTypeDto(id, name))
  }

  datatype EventDto = EventDto(
    id: int, name: string, weeklyBlocks: int, termId: int, participantSizeId: int, roomTypeId: int)

  function NewEventDto(id: int, name: string, weeklyBlocks: int, termId: int, participantSizeId: int, roomTypeId: int)
    : (r: Result<EventDto, Reason>)
    ensures r.Ok? <==> id >= 0 && |name| > 0 && weeklyBlocks >= 0 &&
                       termId >= 1 && participantSizeId >= 1 && roomTypeId >= 1
    ensures r.Ok? ==> r.value == EventDto(id, name, weeklyBlocks, termId, participantSizeId, roomTypeId)
    ensures id < 0 ==> r == Err(NegativeId(id))
    ensures id >= 0 && name == "" ==> r == Err(EmptyName)
    ensures id >= 0 && name != "" && weeklyBlocks < 0 ==> r == Err(NegativeWeeklyBlocks(weeklyBlocks))
    ensures id >= 0 && name != "" && weeklyBlocks >= 0 && termId < 1 ==> r == Err(InvalidForeignKey(TermId, termId))
    ensures id >= 0 && name != "" && weeklyBlocks >= 0 && termId >= 1 && participantSizeId < 1 ==>
              r == Err(InvalidForeignKey(ParticipantSizeId, participantSizeId))
    ensures id >= 0 && name != "" && weeklyBlocks >= 0 && termId >= 1 && participantSizeId >= 1 && roomTypeId < 1 ==>
              r == Err(InvalidForeignKey(RoomTypeId, roomTypeId))
  {
    if !ValidId(id) then Err(NegativeId(id))
    else if name == "" then Err(EmptyName)
    else if weeklyBlocks < 0 then Err(NegativeWeeklyBlocks(weeklyBlocks))
    else if !ValidForeignKey(termId) then Err(InvalidForeignKey(TermId, termId))
    else if !ValidForeignKey(participantSizeId) then Err(InvalidForeignKey(ParticipantSizeId, participantSizeId))
    else if !ValidForeignKey(roomTypeId) then Err(InvalidForeignKey(RoomTypeId, roomTypeId))
    else Ok(EventDto(id, name, weeklyBlocks, termId, participantSizeId, roomTypeId))
  }

  datatype EmployeeDto = EmployeeDto(
    id: int, abbreviation: string, title: Option<string>, firstName: string, lastName: string, employeeTypeId: int)

  function NewEmployeeDto(
    id: int, abbreviation: string, title: Option<string>, firstName: string, lastName: string, employeeTypeId: int)
    : (r: Result<EmployeeDto, Reason>)
    ensures r.Ok? <==> id >= 0 && |abbreviation| > 0 && 'A' <= abbreviation[0] <= 'Z' &&
                       |firstName| > 0 && |lastName| > 0 && employeeTypeId >= 1
    ensures r.Ok? ==> r.value == EmployeeDto(id, abbreviation, title, firstName, lastName, employeeTypeId)
    ensures id < 0 ==> r == Err(NegativeId(id))
    ensures id >= 0 && !Patterns.Matches(Patterns.EMPLOYEE_ABBREVIATION, abbreviation) ==>
              r == Err(InvalidAbbreviation(abbreviation))
    ensures id >= 0 && Patterns.Matches(Patterns.EMPLOYEE_ABBREVIATION, abbreviation) && firstName == "" ==>
              r == Err(EmptyFirstName)
    ensures (id >= 0 && Patterns.Matches(Patterns.EMPLOYEE_ABBREVIATION, abbreviation) && firstName != "" &&
             lastName == "") ==> r == Err(EmptyLastName)
    ensures (id >= 0 && Patterns.Matches(Patterns.EMPLOYEE_ABBREVIATION, abbreviation) && firstName != "" &&
             lastName != "" && employeeTypeId < 1) ==> r == Err(InvalidForeignKey(EmployeeTypeId, employeeTypeId))
  {
    if !ValidId(id) then Err(NegativeId(id))
    else if !Patterns.Matches(Patterns.EMPLOYEE_ABBREVIATION, abbreviation) then Err(InvalidAbbreviation(abbreviation))
    else if firstName == "" then Err(EmptyFirstName)
    else if lastName == "" then Err(EmptyLastName)
    else if !ValidForeignKey(employeeTypeId) then Err(InvalidForeignKey(EmployeeTypeId, employeeTypeId))
    else Ok(EmployeeDto(id, abbreviation, title, firstName, lastName, employeeTypeId))
  }

  datatype RoomDto = RoomDto(id: int, abbreviation: string, name: string, participantSizeId: int, roomTypeId: int)

  function NewRoomDto(id: int, abbreviation: string, name: string, participantSizeId: int, roomTypeId: int)
    : (r: Result<RoomDto, Reason>)
    ensures r.Ok? <==> id >= 0 && |abbreviation| > 0 && 'A' <= abbreviation[0] <= 'Z' && |name| > 0 &&
                       participantSizeId >= 1 && roomTypeId >= 1
    ensures r.Ok? ==> r.value == RoomDto(id, abbreviation, name, participantSizeId, roomTypeId)
    ensures id < 0 ==> r == Err(NegativeId(id))
    ensures id >= 0 && !Patterns.Matches(Patterns.ROOM_ABBREVIATION, abbreviation) ==>
              r == Err(InvalidAbbreviation(abbreviation))
    ensures id >= 0 && Patterns.Matches(Patterns.ROOM_ABBREVIATION, abbreviation) && name == "" ==> r == Err(EmptyName)
    ensures (id >= 0 && Patterns.Matches(Patterns.ROOM_ABBREVIATION, abbreviation) && name != "" &&
             participantSizeId < 1) ==> r == Err(InvalidForeignKey(ParticipantSizeId, participantSizeId))
    ensures (id >= 0 && Patterns.Matches(Patterns.ROOM_ABBREVIATION, abbreviation) && name != "" &&
             participantSizeId >= 1 && roomTypeId < 1) ==> r == Err(InvalidForeignKey(RoomTypeId, roomTypeId))
  {
    if !ValidId(id) then Err(NegativeId(id))
    else if !Patterns.Matches(Patterns.ROOM_ABBREVIATION, abbreviation) then Err(InvalidAbbreviation(abbreviation))
    else if name == "" then Err(EmptyName)
    else if !ValidForeignKey(participantSizeId) then Err(InvalidForeignKey(ParticipantSizeId, participantSizeId))
    else if !ValidForeignKey(roomTypeId) then Err(InvalidForeignKey(RoomTypeId, roomTypeId))
    else Ok(RoomDto(id, abbreviation, name, participantSizeId, roomTypeId))
  }

  datatype CourseDto = CourseDto(id: int, abbreviation: string, name: string)

  function NewCourseDto(id: int, abbreviation: string, name: string): (r: Result<CourseDto, Reason>)
    ensures r.Ok? <==> id >= 0 && |abbreviation| > 0 && ('A' <= abbreviation[0] <= 'Z' || abbreviation[0] == '_') &&
                       |name| > 0
    ensures r.Ok? ==> r.value == CourseDto(id, abbreviation, name)
    ensures id < 0 ==> r == Err(NegativeId(id))
    ensures id >= 0 && !Patterns.Matches(Patterns.COURSE_ABBREVIATION, abbreviation) ==>
              r == Err(InvalidAbbreviation(abbreviation))
    ensures id >= 0 && Patterns.Matches(Patterns.COURSE_ABBREVIATION, abbreviation) && name == "" ==> r == Err(EmptyName)
  {
    if !ValidId(id) then Err(NegativeId(id))
    else if !Patterns.Matches(Patterns.COURSE_ABBREVIATION, abbreviation) then Err(InvalidAbbreviation(abbreviation))
    else if name == "" then Err(EmptyName)
    else Ok(CourseDto(id, abbreviation, name))
  }

  datatype DateDto = DateDto(id: int, dayId: int, timeSlotId: int)

  function NewDateDto(id: int, dayId: int, timeSlotId: int): (r: Result<DateDto, Reason>)
    ensures r.Ok? <==> id >= 0 && dayId >= 1 && timeSlotId >= 1
    ensures r.Ok? ==> r.value == DateDto(id, dayId, timeSlotId)
    ensures id < 0 ==> r == Err(NegativeId(id))
    ensures id >= 0 && dayId < 1 ==> r == Err(InvalidForeignKey(DayId, dayId))
    ensures id >= 0 && dayId >= 1 && timeSlotId < 1 ==> r == Err(InvalidForeignKey(TimeSlotId, timeSlotId))
  {
    if !ValidId(id) then Err(NegativeId(id))
    else if !ValidForeignKey(dayId) then Err(InvalidForeignKey(DayId, dayId))
    else if !ValidForeignKey(timeSlotId) then Err(InvalidForeignKey(TimeSlotId, timeSlotId))
    else Ok(DateDto(id, dayId, timeSlotId))
  }

  // ---------------------------------------------------------------------------------------------
  // link records: every field is a foreign key

  datatype CourseContainsEventDto = CourseContainsEventDto(courseId: int, semesterId: int, eventId: int)

  function NewCourseContainsEventDto(courseId: int, semesterId: int, eventId: int)
    : (r: Result<CourseContainsEventDto, Reason>)
    ensures r.Ok? <==> courseId >= 1 && semesterId >= 1 && eventId >= 1
    ensures r.Ok? ==> r.value == CourseContainsEventDto(courseId, semesterId, eventId)
    ensures courseId < 1 ==> r == Err(InvalidForeignKey(CourseId, courseId))
    ensures courseId >= 1 && semesterId < 1 ==> r == Err(InvalidForeignKey(SemesterId, semesterId))
    ensures courseId >= 1 && semesterId >= 1 && eventId < 1 ==> r == Err(InvalidForeignKey(EventId, eventId))
  {
    if !ValidForeignKey(courseId) then Err(InvalidForeignKey(CourseId, courseId))
    else if !ValidForeignKey(semesterId) then Err(InvalidForeignKey(SemesterId, semesterId))
    else if !ValidForeignKey(eventId) then Err(InvalidForeignKey(EventId, eventId))
    else Ok(CourseContainsEventDto(courseId, semesterId, eventId))
  }

  datatype EmployeeDislikesDateDto = EmployeeDislikesDateDto(employeeId: int, dateId: int, priorityId: int)

  function NewEmployeeDislikesDateDto(employeeId: int, dateId: int, priorityId: int)
    : (r: Result<EmployeeDislikesDateDto, Reason>)
    ensures r.Ok? <==> employeeId >= 1 && dateId >= 1 && priorityId >= 1
    ensures r.Ok? ==> r.value == EmployeeDislikesDateDto(employeeId, dateId, priorityId)
    ensures employeeId < 1 ==> r == Err(InvalidForeignKey(EmployeeId, employeeId))
    ensures employeeId >= 1 && dateId < 1 ==> r == Err(InvalidForeignKey(DateId, dateId))
    ensures employeeId >= 1 && dateId >= 1 && priorityId < 1 ==> r == Err(InvalidForeignKey(PriorityId, priorityId))
  {
    if !ValidForeignKey(employeeId) then Err(InvalidForeignKey(EmployeeId, employeeId))
    else if !ValidForeignKey(dateId) then Err(InvalidForeignKey(DateId, dateId))
    else if !ValidForeignKey(priorityId) then Err(InvalidForeignKey(PriorityId, priorityId))
    else Ok(EmployeeDislikesDateDto(employeeId, dateId, priorityId))
  }

  datatype EmployeeHoldsEventDto = EmployeeHoldsEventDto(employeeId: int, eventId: int)

  function NewEmployeeHoldsEventDto(employeeId: int, eventId: int): (r: Result<EmployeeHoldsEventDto, Reason>)
    ensures r.Ok? <==> employeeId >= 1 && eventId >= 1
    ensures r.Ok? ==> r.value == EmployeeHoldsEventDto(employeeId, eventId)
    ensures employeeId < 1 ==> r == Err(InvalidForeignKey(EmployeeId, employeeId))
    ensures employeeId >= 1 && eventId < 1 ==> r == Err(InvalidForeignKey(EventId, eventId))
  {
    if !ValidForeignKey(employeeId) then Err(InvalidForeignKey(EmployeeId, employeeId))
    else if !ValidForeignKey(eventId) then Err(InvalidForeignKey(EventId, eventId))
    else Ok(EmployeeHoldsEventDto(employeeId, eventId))
  }

  datatype EventDisallowsDayDto = EventDisallowsDayDto(eventId: int, dayId: int)

  function NewEventDisallowsDayDto(eventId: int, dayId: int): (r: Result<EventDisallowsDayDto, Reason>)
    ensures r.Ok? <==> eventId >= 1 && dayId >= 1
    ensures r.Ok? ==> r.value == EventDisallowsDayDto(eventId, dayId)
    ensures eventId < 1 ==> r == Err(InvalidForeignKey(EventId, eventId))
    ensures eventId >= 1 && dayId < 1 ==> r == Err(InvalidForeignKey(DayId, dayId))
  {
    if !ValidForeignKey(eventId) then Err(InvalidForeignKey(EventId, eventId))
    else if !ValidForeignKey(dayId) then Err(InvalidForeignKey(DayId, dayId))
    else Ok(EventDisallowsDayDto(eventId, dayId))
  }

  // ---------------------------------------------------------------------------------------------
  // what a DTO constructor accepts, the domain constructor accepts

  /** The bounds are shared, so an accepted DTO's fields pass the domain record's guards. */
  lemma AcceptedDtosConvert(
    d: DayDto, t: TermDto, p: PriorityDto, s: SemesterDto, ts: TimeSlotDto, ps: ParticipantSizeDto,
    rt: RoomTypeDto, et: EmployeeTypeDto, c: CourseDto)
    requires NewDayDto(d.id, d.abbreviation, d.name).Ok?
    requires NewTermDto(t.id, t.name).Ok?
    requires NewPriorityDto(p.id, p.value).Ok?
    requires NewSemesterDto(s.id, s.value).Ok?
    requires NewTimeSlotDto(ts.id, ts.startTime, ts.endTime).Ok?
    requires NewParticipantSizeDto(ps.id, ps.name, ps.ordinal).Ok?
    requires NewRoomTypeDto(rt.id, rt.name).Ok?
    requires NewEmployeeTypeDto(et.id, et.name).Ok?
    requires NewCourseDto(c.id, c.abbreviation, c.name).Ok?
    ensures NewDay(d.abbreviation, d.name) == Ok(Day(d.abbreviation, d.name))
    ensures NewTerm(t.name) == Ok(Term(t.name))
    ensures NewPriority(p.value) == Ok(Priority(p.value))
    ensures NewSemester(s.value) == Ok(Semester(s.value))
    ensures NewTimeSlot(ts.startTime, ts.endTime) == Ok(TimeSlot(ts.startTime, ts.endTime))
    ensures NewParticipantSize(ps.name, ps.ordinal) == Ok(ParticipantSize(ps.name, ps.ordinal))
    ensures NewRoomType(rt.name) == Ok(RoomType(rt.name))
    ensures NewEmployeeType(et.name) == Ok(EmployeeType(et.name))
    ensures NewCourse(c.abbreviation, c.name) == Ok(Course(c.abbreviation, c.name))
  {
  }

  /** The same for the records that refer to others, whatever the referenced records are. */
  lemma AcceptedReferringDtosConvert(
    e: EventDto, em: EmployeeDto, r: RoomDto, employeeIds: seq<int>, participants: Dicts.Dict<int, seq<int>>,
    term: Term, size: ParticipantSize, roomType: RoomType, disallowedDays: seq<Day>, employeeType: EmployeeType)
    requires NewEventDto(e.id, e.name, e.weeklyBlocks, e.termId, e.participantSizeId, e.roomTypeId).Ok?
    requires NewEmployeeDto(em.id, em.abbreviation, em.title, em.firstName, em.lastName, em.employeeTypeId).Ok?
    requires NewRoomDto(r.id, r.abbreviation, r.name, r.participantSizeId, r.roomTypeId).Ok?
    ensures NewEvent(e.name, employeeIds, participants, e.weeklyBlocks, term, size, roomType, disallowedDays).Ok?
    ensures NewEmployee(em.abbreviation, em.title, em.firstName, em.lastName, employeeType).Ok?
    ensures NewRoom(r.abbreviation, r.name, size, roomType).Ok?
  {
  }
}
