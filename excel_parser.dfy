/**
 * The row parsing of `excel_parser.py`. The sheets arrive as rows of cells, every empty cell
 * already replaced by `""`; the records already in the database arrive as sequences of DTOs,
 * from which the parser builds its name → id lookup tables. The parser returns the DTO lists it
 * would insert, or the first error it would raise: a `KeyError` of a lookup, a `ValueError` of
 * `int()` or of a two-target unpacking, or the `ValueError` of a DTO guard.
 */
module ExcelParser {
  import opened Wrappers
  import opened Models
  import opened Dtos
  import opened Dicts
  import Strings
  import Collections
  import Api

  /** The lookup tables the parser builds. */
  datatype Lookup = Courses | Terms | ParticipantSizes | RoomTypes | Employees | Semesters | Days | Priorities

  datatype ParseError =
    | MissingName(table: Lookup, key: string)       // `KeyError` on a table keyed by a name
    | MissingValue(table: Lookup, value: int)        // `KeyError` on a table keyed by a number
    | MissingDate(dayId: int, timeSlotId: int)       // `KeyError` on the (day, time slot) table
    | NotAnInteger(text: string)                     // `ValueError` of `int()`
    | NotAPair(piece: string)                        // `ValueError` of `a, b = piece.split(":")`
    | Rejected(reason: Reason)                       // `ValueError` of a DTO guard

  function Checked<T>(dto: Result<T, Reason>): (r: Result<T, ParseError>)
    ensures r.Ok? <==> dto.Ok?
    ensures r.Ok? ==> r.value == dto.value
  {
    match dto case Ok(v) => Ok(v) case Err(reason) => Err(Rejected(reason))
  }

  /** `int(text)`. */
  function Integer(text: string): (r: Result<int, ParseError>)
    ensures r.Ok? <==> Strings.ParseInt(text).Some?
    ensures r.Ok? ==> Some(r.value) == Strings.ParseInt(text)
    ensures r.Err? ==> r.error == NotAnInteger(text)
  {
    match Strings.ParseInt(text) case Some(i) => Ok(i) case None => Err(NotAnInteger(text))
  }

  /** `table[key].id`. */
  function IdOf(table: Lookup, ids: Dict<string, int>, key: string): (r: Result<int, ParseError>)
    ensures r.Ok? <==> key in Keys(ids)
    ensures r.Ok? ==> Some(r.value) == Get(ids, key)
    ensures r.Err? ==> r.error == MissingName(table, key)
  {
    match Get(ids, key) case Some(id) => Ok(id) case None => Err(MissingName(table, key))
  }

  /** `table[value].id`, for the tables keyed by a semester or a priority value. */
  function IdOfValue(table: Lookup, ids: Dict<int, int>, value: int): (r: Result<int, ParseError>)
    ensures r.Ok? <==> value in Keys(ids)
    ensures r.Ok? ==> Some(r.value) == Get(ids, value)
    ensures r.Err? ==> r.error == MissingValue(table, value)
  {
    match Get(ids, value) case Some(id) => Ok(id) case None => Err(MissingValue(table, value))
  }

  // ---------------------------------------------------------------------------------------------
  // `_insert_dates`

  /** `[DateDTO(id=0, day_id=d.id, time_slot_id=t.id) for d in days for t in time_slots]`. */
  function InsertDates(days: seq<DayDto>, timeSlots: seq<TimeSlotDto>): Result<seq<DateDto>, Reason>
  {
    Collections.MapResult(Collections.Product(days, timeSlots),
      (pair: (DayDto, TimeSlotDto)) => NewDateDto(0, pair.0.id, pair.1.id))
  }

  /**
   * The dates are accepted exactly when, unless one of the lists is empty (then there are no
   * dates to check), every day and every time slot has an id of at least 1.
   */
  lemma InsertDatesAccepted(days: seq<DayDto>, timeSlots: seq<TimeSlotDto>)
    ensures InsertDates(days, timeSlots).Ok? <==>
      (|days| > 0 && |timeSlots| > 0 ==>
        (forall i :: 0 <= i < |days| ==> days[i].id >= 1) && (forall j :: 0 <= j < |timeSlots| ==> timeSlots[j].id >= 1))
  {
    var product := Collections.Product(days, timeSlots);
    if InsertDates(days, timeSlots).Ok? && |days| > 0 && |timeSlots| > 0 {
      forall i | 0 <= i < |days| ensures days[i].id >= 1 {
        Collections.ProductAt(days, timeSlots, i, 0);
        assert product[i * |timeSlots|] == (days[i], timeSlots[0]);
      }
      forall j | 0 <= j < |timeSlots| ensures timeSlots[j].id >= 1 {
        Collections.ProductAt(days, timeSlots, 0, j);
        assert product[j] == (days[0], timeSlots[j]);
      }
    } else if InsertDates(days, timeSlots).Err? {
      var k :| 0 <= k < |product| && NewDateDto(0, product[k].0.id, product[k].1.id).Err?;
      Collections.ProductMember(days, timeSlots, k);
      var i, j :| 0 <= i < |days| && 0 <= j < |timeSlots| && product[k] == (days[i], timeSlots[j]);
      assert days[i].id < 1 || timeSlots[j].id < 1;
    }
  }

  /** One date per (day, time slot) pair, days outer and time slots inner. */
  lemma InsertDatesAt(days: seq<DayDto>, timeSlots: seq<TimeSlotDto>, i: nat, j: nat)
    requires InsertDates(days, timeSlots).Ok? && i < |days| && j < |timeSlots|
    ensures |InsertDates(days, timeSlots).value| == |days| * |timeSlots|
    ensures i * |timeSlots| + j < |days| * |timeSlots|
    ensures InsertDates(days, timeSlots).value[i * |timeSlots| + j] == DateDto(0, days[i].id, timeSlots[j].id)
  {
    var product := Collections.Product(days, timeSlots);
    Collections.ProductAt(days, timeSlots, i, j);
    var k := i * |timeSlots| + j;
    assert product[k] == (days[i], timeSlots[j]);
  }

  // ---------------------------------------------------------------------------------------------
  // `_parse_events`

  /** The tables `_parse_events` looks names up in, each mapping a name to an id. */
  datatype EventTables = EventTables(
    courses: Dict<string, int>, terms: Dict<string, int>, participantSizes: Dict<string, int>,
    roomTypes: Dict<string, int>, employees: Dict<string, int>, semesters: Dict<int, int>, days: Dict<string, int>)

  /** The dictionary comprehensions at the head of `_parse_events`: a later row wins a clash. */
  function EventTablesOf(
    courses: seq<CourseDto>, terms: seq<TermDto>, sizes: seq<ParticipantSizeDto>, roomTypes: seq<RoomTypeDto>,
    employees: seq<EmployeeDto>, semesters: seq<SemesterDto>, days: seq<DayDto>): EventTables
  {
    EventTables(
      Api.ById(courses, (c: CourseDto) => c.abbreviation, (c: CourseDto) => c.id),
      Api.ById(terms, (t: TermDto) => t.name, (t: TermDto) => t.id),
      Api.ById(sizes, (s: ParticipantSizeDto) => s.name, (s: ParticipantSizeDto) => s.id),
      Api.ById(roomTypes, (t: RoomTypeDto) => t.name, (t: RoomTypeDto) => t.id),
      Api.ById(employees, (e: EmployeeDto) => e.abbreviation, (e: EmployeeDto) => e.id),
      Api.ById(semesters, (s: SemesterDto) => s.value, (s: SemesterDto) => s.id),
      Api.ById(days, (d: DayDto) => d.abbreviation, (d: DayDto) => d.id))
  }

  /** One row of the Event sheet; `Weekly Blocks` is the number the spreadsheet cell holds. */
  datatype EventRow = EventRow(
    name: string, weeklyBlocks: int, term: string, participantSize: string, roomType: string,
    employees: string, participants: string, disallowedDays: string)

  /** What `_parse_events` would insert. */
  datatype EventRecords = EventRecords(
    events: seq<EventDto>, holds: seq<EmployeeHoldsEventDto>, contains: seq<CourseContainsEventDto>,
    disallows: seq<EventDisallowsDayDto>)

  /** `EventDTO(id=0, …)`: the term, size and room type are looked up in that order, then checked. */
  function EventOf(row: EventRow, tables: EventTables): Result<EventDto, ParseError>
  {
    var termId :- IdOf(Terms, tables.terms, row.term);
    var sizeId :- IdOf(ParticipantSizes, tables.participantSizes, row.participantSize);
    var roomTypeId :- IdOf(RoomTypes, tables.roomTypes, row.roomType);
    Checked(NewEventDto(0, row.name, row.weeklyBlocks, termId, sizeId, roomTypeId))
  }

  /** The record of one employee abbreviation. */
  function HoldOf(eventId: int, tables: EventTables): string -> Result<EmployeeHoldsEventDto, ParseError>
  {
    (abbreviation: string) =>
      var employeeId :- IdOf(Employees, tables.employees, abbreviation);
      Checked(NewEmployeeHoldsEventDto(employeeId, eventId))
  }

  /** The `Employees` cell: nothing when it is empty, else one record per ","-separated piece. */
  function HoldsOf(employees: string, eventId: int, tables: EventTables): Result<seq<EmployeeHoldsEventDto>, ParseError>
  {
    if employees == "" then Ok([])
    else Collections.MapResult(Strings.Split(employees, ','), HoldOf(eventId, tables))
  }

  /** `course, semesters = piece.split(":")` and `[int(s) for s in semesters.split(",")]`. */
  function ParticipantOf(piece: string): Result<(string, seq<int>), ParseError>
  {
    var halves := Strings.Split(piece, ':');
    if |halves| != 2 then Err(NotAPair(piece))
    else
      var semesters :- Collections.MapResult(Strings.Split(halves[1], ','), Integer);
      Ok((halves[0], semesters))
  }

  /** The (course, semesters) pairs of a non-empty `Participants` cell, in order. */
  function ParticipantPairs(participants: string): Result<seq<(string, seq<int>)>, ParseError>
  {
    Collections.MapResult(Strings.Split(participants, ';'), ParticipantOf)
  }

  /** The `participants` dictionary: a repeated course abbreviation replaces its semesters. */
  function ParticipantsOf(participants: string): Result<Dict<string, seq<int>>, ParseError>
  {
    if participants == "" then Ok([])
    else
      var pairs :- ParticipantPairs(participants);
      Ok(FromPairs(pairs))
  }

  /** Every (course, semester) pair of the dictionary, in its order. */
  function Expand(participants: Dict<string, seq<int>>): (r: seq<(string, int)>)
    ensures forall e :: e in r ==> exists i :: 0 <= i < |participants| && e.0 == participants[i].0 && e.1 in participants[i].1
  {
    if |participants| == 0 then []
    else
      var front, last := participants[..|participants| - 1], participants[|participants| - 1];
      var r := Expand(front) + Collections.Row(last.0, last.1);
      assert forall e :: e in Collections.Row(last.0, last.1) ==> e.0 == last.0 && e.1 in last.1;
      r
  }

  /** The record of one (course, semester) pair: the course is looked up before the semester. */
  function ContainOf(eventId: int, tables: EventTables): ((string, int)) -> Result<CourseContainsEventDto, ParseError>
  {
    (pair: (string, int)) =>
      var courseId :- IdOf(Courses, tables.courses, pair.0);
      var semesterId :- IdOfValue(Semesters, tables.semesters, pair.1);
      Checked(NewCourseContainsEventDto(courseId, semesterId, eventId))
  }

  function ContainsOf(participants: Dict<string, seq<int>>, eventId: int, tables: EventTables)
    : Result<seq<CourseContainsEventDto>, ParseError>
  {
    Collections.MapResult(Expand(participants), ContainOf(eventId, tables))
  }

  /** The record of one day abbreviation. */
  function DisallowOf(eventId: int, tables: EventTables): string -> Result<EventDisallowsDayDto, ParseError>
  {
    (abbreviation: string) =>
      var dayId :- IdOf(Days, tables.days, abbreviation);
      Checked(NewEventDisallowsDayDto(eventId, dayId))
  }

  /** The `Disallowed Days` cell: one record per ";"-separated piece, with no guard for "". */
  function DisallowsOf(disallowedDays: string, eventId: int, tables: EventTables)
    : Result<seq<EventDisallowsDayDto>, ParseError>
  {
    Collections.MapResult(Strings.Split(disallowedDays, ';'), DisallowOf(eventId, tables))
  }

  /** Everything one row adds, or the first error it raises. */
  function RowRecords(row: EventRow, eventId: int, tables: EventTables): Result<EventRecords, ParseError>
  {
    var event :- EventOf(row, tables);
    var holds :- HoldsOf(row.employees, eventId, tables);
    var participants :- ParticipantsOf(row.participants);
    var contains :- ContainsOf(participants, eventId, tables);
    var disallows :- DisallowsOf(row.disallowedDays, eventId, tables);
    Ok(EventRecords([event], holds, contains, disallows))
  }

  function Concat(a: EventRecords, b: EventRecords): EventRecords
  {
    EventRecords(a.events + b.events, a.holds + b.holds, a.contains + b.contains, a.disallows + b.disallows)
  }

  /** The records of all rows; row `i` (from 0) is event `i + 1`. */
  function EventsRecords(rows: seq<EventRow>, tables: EventTables): Result<EventRecords, ParseError>
  {
    if |rows| == 0 then Ok(EventRecords([], [], [], []))
    else
      var before :- EventsRecords(rows[..|rows| - 1], tables);
      var more :- RowRecords(rows[|rows| - 1], |rows|, tables);
      Ok(Concat(before, more))
  }

  // ---------------------------------------------------------------------------------------------
  // the loops of `_parse_events`

  /** `for event_row in rows`: one row after another, stopping at the first error. */
  method ParseEvents(rows: seq<EventRow>, tables: EventTables) returns (r: Result<EventRecords, ParseError>)
    ensures r == EventsRecords(rows, tables)
  {
    var records := EventRecords([], [], [], []);
    for index := 0 to |rows|
      invariant EventsRecords(rows[..index], tables) == Ok(records)
    {
      assert rows[..index + 1][..index] == rows[..index];
      var eventId := index + 1;
      var more := ParseEventRow(rows[index], eventId, tables);
      if more.Err? {
        EventsErrorPersists(rows, tables, index + 1);
        return Err(more.error);
      }
      records := Concat(records, more.value);
    }
    assert rows[..|rows|] == rows;
    r := Ok(records);
  }

  /** Once a row has raised, the later rows are never parsed. */
  lemma {:induction false} EventsErrorPersists(rows: seq<EventRow>, tables: EventTables, n: nat)
    requires n <= |rows| && EventsRecords(rows[..n], tables).Err?
    ensures EventsRecords(rows, tables) == EventsRecords(rows[..n], tables)
    decreases |rows| - n
  {
    if n < |rows| {
      assert rows[..n + 1][..n] == rows[..n];
      EventsErrorPersists(rows, tables, n + 1);
    } else {
      assert rows[..n] == rows;
    }
  }

  /** The body of the loop for one row. */
  method ParseEventRow(row: EventRow, eventId: int, tables: EventTables) returns (r: Result<EventRecords, ParseError>)
    ensures r == RowRecords(row, eventId, tables)
  {
    var event := EventOf(row, tables);
    if event.Err? {
      return Err(event.error);
    }
    // Events are allowed to have no employees.
    var holds: seq<EmployeeHoldsEventDto> := [];
    if row.employees != "" {
      var parsed := CollectAll(Strings.Split(row.employees, ','), HoldOf(eventId, tables));
      if parsed.Err? {
        return Err(parsed.error);
      }
      holds := parsed.value;
    }
    // Events are allowed to have no mandatory participants.
    var participants: Dict<string, seq<int>> := [];
    if row.participants != "" {
      var parsed := CollectParticipants(row.participants);
      if parsed.Err? {
        return Err(parsed.error);
      }
      participants := parsed.value;
    }
    var contains := CollectContains(participants, eventId, tables);
    if contains.Err? {
      return Err(contains.error);
    }
    var disallows := CollectAll(Strings.Split(row.disallowedDays, ';'), DisallowOf(eventId, tables));
    if disallows.Err? {
      return Err(disallows.error);
    }
    r := Ok(EventRecords([event.value], holds, contains.value, disallows.value));
  }

  /** `for piece in pieces: records.append(record_of(piece))`. */
  method CollectAll<T>(pieces: seq<string>, recordOf: string -> Result<T, ParseError>) returns (r: Result<seq<T>, ParseError>)
    ensures r == Collections.MapResult(pieces, recordOf)
  {
    var records: seq<T> := [];
    for i := 0 to |pieces|
      invariant Collections.MapResult(pieces[..i], recordOf) == Ok(records)
    {
      var record := recordOf(pieces[i]);
      if record.Err? {
        Collections.MapResultStopsAt(pieces, recordOf, i);
        return Err(record.error);
      }
      Collections.MapResultStep(pieces, recordOf, i);
      records := records + [record.value];
    }
    assert pieces[..|pieces|] == pieces;
    r := Ok(records);
  }

  /** The `participants` loop: `participants[course] = [int(s) for s in semesters.split(",")]`. */
  method CollectParticipants(field: string) returns (r: Result<Dict<string, seq<int>>, ParseError>)
    requires field != ""
    ensures r == ParticipantsOf(field)
  {
    var pieces := Strings.Split(field, ';');
    var participants: Dict<string, seq<int>> := [];
    ghost var pairs: seq<(string, seq<int>)> := [];
    for i := 0 to |pieces|
      invariant Collections.MapResult(pieces[..i], ParticipantOf) == Ok(pairs)
      invariant participants == FromPairs(pairs)
    {
      var halves := Strings.Split(pieces[i], ':');
      if |halves| != 2 {
        Collections.MapResultStopsAt(pieces, ParticipantOf, i);
        return Err(NotAPair(pieces[i]));
      }
      var semesters := CollectAll(Strings.Split(halves[1], ','), Integer);
      if semesters.Err? {
        Collections.MapResultStopsAt(pieces, ParticipantOf, i);
        return Err(semesters.error);
      }
      Collections.MapResultStep(pieces, ParticipantOf, i);
      assert (pairs + [(halves[0], semesters.value)])[..|pairs|] == pairs;
      participants := Set(participants, halves[0], semesters.value);
      pairs := pairs + [(halves[0], semesters.value)];
    }
    assert pieces[..|pieces|] == pieces;
    r := Ok(participants);
  }

  /** `for course, semesters in participants.items(): for semester in semesters: …`. */
  method CollectContains(participants: Dict<string, seq<int>>, eventId: int, tables: EventTables)
    returns (r: Result<seq<CourseContainsEventDto>, ParseError>)
    ensures r == ContainsOf(participants, eventId, tables)
  {
    var recordOf := ContainOf(eventId, tables);
    var records: seq<CourseContainsEventDto> := [];
    for i := 0 to |participants|
      invariant Collections.MapResult(Expand(participants[..i]), recordOf) == Ok(records)
    {
      var course, semesters := participants[i].0, participants[i].1;
      var more := CollectCourse(course, semesters, recordOf);
      assert participants[..i + 1][..i] == participants[..i];
      Collections.MapResultAppend(Expand(participants[..i]), Collections.Row(course, semesters), recordOf);
      if more.Err? {
        ExpandErrorPersists(participants, recordOf, i + 1);
        return Err(more.error);
      }
      records := records + more.value;
    }
    assert participants[..|participants|] == participants;
    r := Ok(records);
  }

  /** The inner loop: one record per semester of one course. */
  method CollectCourse(course: string, semesters: seq<int>, recordOf: ((string, int)) -> Result<CourseContainsEventDto, ParseError>)
    returns (r: Result<seq<CourseContainsEventDto>, ParseError>)
    ensures r == Collections.MapResult(Collections.Row(course, semesters), recordOf)
  {
    var pairs := Collections.Row(course, semesters);
    var records: seq<CourseContainsEventDto> := [];
    for j := 0 to |semesters|
      invariant Collections.MapResult(pairs[..j], recordOf) == Ok(records)
    {
      var record := recordOf((course, semesters[j]));
      if record.Err? {
        Collections.MapResultStopsAt(pairs, recordOf, j);
        return Err(record.error);
      }
      Collections.MapResultStep(pairs, recordOf, j);
      records := records + [record.value];
    }
    assert pairs[..|semesters|] == pairs;
    r := Ok(records);
  }

  /** Once a course has raised, the later courses are never looked at. */
  lemma {:induction false} ExpandErrorPersists(participants: Dict<string, seq<int>>,
                                               recordOf: ((string, int)) -> Result<CourseContainsEventDto, ParseError>, n: nat)
    requires n <= |participants| && Collections.MapResult(Expand(participants[..n]), recordOf).Err?
    ensures Collections.MapResult(Expand(participants), recordOf) == Collections.MapResult(Expand(participants[..n]), recordOf)
    decreases |participants| - n
  {
    if n < |participants| {
      var front := participants[..n + 1];
      assert front[..n] == participants[..n];
      Collections.MapResultAppend(Expand(participants[..n]), Collections.Row(front[n].0, front[n].1), recordOf);
      ExpandErrorPersists(participants, recordOf, n + 1);
    } else {
      assert participants[..n] == participants;
    }
  }
  // ---------------------------------------------------------------------------------------------
  // what `_parse_events` promises

  /** Every record a row adds carries that row's event id, and the row's name and block count. */
  lemma RowCarriesEventId(row: EventRow, eventId: int, tables: EventTables)
    requires RowRecords(row, eventId, tables).Ok?
    ensures var r := RowRecords(row, eventId, tables).value;
      |r.events| == 1 && r.events[0].name == row.name && r.events[0].weeklyBlocks == row.weeklyBlocks &&
      r.events[0].id == 0 &&
      (forall h :: h in r.holds ==> h.eventId == eventId) &&
      (forall c :: c in r.contains ==> c.eventId == eventId) &&
      (forall d :: d in r.disallows ==> d.eventId == eventId)
  {
    var event := EventOf(row, tables);
    var participants := ParticipantsOf(row.participants).value;
    HoldsCarry(row.employees, eventId, tables);
    ContainsCarry(participants, eventId, tables);
    DisallowsCarry(row.disallowedDays, eventId, tables);
  }

  lemma HoldsCarry(employees: string, eventId: int, tables: EventTables)
    requires HoldsOf(employees, eventId, tables).Ok?
    ensures forall h :: h in HoldsOf(employees, eventId, tables).value ==> h.eventId == eventId
  {
    var r := HoldsOf(employees, eventId, tables).value;
    forall h | h in r ensures h.eventId == eventId {
      var k :| 0 <= k < |r| && r[k] == h;
      assert HoldOf(eventId, tables)(Strings.Split(employees, ',')[k]) == Ok(h);
    }
  }

  lemma ContainsCarry(participants: Dict<string, seq<int>>, eventId: int, tables: EventTables)
    requires ContainsOf(participants, eventId, tables).Ok?
    ensures forall c :: c in ContainsOf(participants, eventId, tables).value ==> c.eventId == eventId
  {
    var r := ContainsOf(participants, eventId, tables).value;
    forall c | c in r ensures c.eventId == eventId {
      var k :| 0 <= k < |r| && r[k] == c;
      assert ContainOf(eventId, tables)(Expand(participants)[k]) == Ok(c);
    }
  }

  lemma DisallowsCarry(disallowedDays: string, eventId: int, tables: EventTables)
    requires DisallowsOf(disallowedDays, eventId, tables).Ok?
    ensures forall d :: d in DisallowsOf(disallowedDays, eventId, tables).value ==> d.eventId == eventId
  {
    var r := DisallowsOf(disallowedDays, eventId, tables).value;
    forall d | d in r ensures d.eventId == eventId {
      var k :| 0 <= k < |r| && r[k] == d;
      assert DisallowOf(eventId, tables)(Strings.Split(disallowedDays, ';')[k]) == Ok(d);
    }
  }

  /** Records that were collected were collected for the rows before the last and for the last row. */
  lemma EventsRecordsStep(rows: seq<EventRow>, tables: EventTables)
    requires |rows| > 0 && EventsRecords(rows, tables).Ok?
    ensures EventsRecords(rows[..|rows| - 1], tables).Ok?
    ensures RowRecords(rows[|rows| - 1], |rows|, tables).Ok?
    ensures EventsRecords(rows, tables).value ==
      Concat(EventsRecords(rows[..|rows| - 1], tables).value, RowRecords(rows[|rows| - 1], |rows|, tables).value)
  {
  }

  /** One event per row, with the row's name, and every event id of a link record names a row. */
  predicate NamesRows(r: EventRecords, rows: seq<EventRow>)
  {
    |r.events| == |rows| &&
    (forall i :: 0 <= i < |rows| ==> r.events[i].name == rows[i].name) &&
    (forall h :: h in r.holds ==> 1 <= h.eventId <= |rows|) &&
    (forall c :: c in r.contains ==> 1 <= c.eventId <= |rows|) &&
    (forall d :: d in r.disallows ==> 1 <= d.eventId <= |rows|)
  }

  /** Row `i` becomes event `i + 1`, so every event id of a link record names a row. */
  lemma {:induction false} EventIdsName(rows: seq<EventRow>, tables: EventTables)
    requires EventsRecords(rows, tables).Ok?
    ensures NamesRows(EventsRecords(rows, tables).value, rows)
  {
    if |rows| > 0 {
      var front := rows[..|rows| - 1];
      EventsRecordsStep(rows, tables);
      EventIdsName(front, tables);
      RowCarriesEventId(rows[|rows| - 1], |rows|, tables);
      assert front + [rows[|rows| - 1]] == rows;
      ConcatKeepsRows(EventsRecords(front, tables).value, RowRecords(rows[|rows| - 1], |rows|, tables).value,
                      front, rows[|rows| - 1]);
    }
  }

  /** The bookkeeping step of `EventIdsName`: appending the records of row `n` to those of the rows before. */
  lemma ConcatKeepsRows(before: EventRecords, more: EventRecords, front: seq<EventRow>, last: EventRow)
    requires NamesRows(before, front)
    requires |more.events| == 1 && more.events[0].name == last.name
    requires forall h :: h in more.holds ==> h.eventId == |front| + 1
    requires forall c :: c in more.contains ==> c.eventId == |front| + 1
    requires forall d :: d in more.disallows ==> d.eventId == |front| + 1
    ensures NamesRows(Concat(before, more), front + [last])
  {
    var r, rows := Concat(before, more), front + [last];
    forall i | 0 <= i < |rows| ensures r.events[i].name == rows[i].name {
      if i < |front| {
        assert r.events[i] == before.events[i] && rows[i] == front[i];
      }
    }
  }

  /** An empty `Employees` cell yields no record; otherwise one per ","-separated abbreviation. */
  lemma HoldsPerAbbreviation(employees: string, eventId: int, tables: EventTables)
    requires HoldsOf(employees, eventId, tables).Ok?
    ensures employees == "" ==> HoldsOf(employees, eventId, tables).value == []
    ensures employees != "" ==>
      var pieces, r := Strings.Split(employees, ','), HoldsOf(employees, eventId, tables).value;
      |r| == |pieces| &&
      forall i :: 0 <= i < |pieces| ==>
        Get(tables.employees, pieces[i]).Some? && r[i] == EmployeeHoldsEventDto(Get(tables.employees, pieces[i]).value, eventId)
  {
    if employees != "" {
      var pieces, r := Strings.Split(employees, ','), HoldsOf(employees, eventId, tables).value;
      forall i | 0 <= i < |pieces|
        ensures Get(tables.employees, pieces[i]).Some? && r[i] == EmployeeHoldsEventDto(Get(tables.employees, pieces[i]).value, eventId)
      {
        assert HoldOf(eventId, tables)(pieces[i]) == Ok(r[i]);
      }
    }
  }

  /** A participant piece is a pair exactly when it holds one ":"; otherwise the unpacking raises. */
  lemma ParticipantNeedsOneColon(piece: string)
    ensures Strings.Occurrences(piece, ':') != 1 ==> ParticipantOf(piece) == Err(NotAPair(piece))
    ensures ParticipantOf(piece).Ok? ==> Strings.Occurrences(piece, ':') == 1
  {
    Strings.SplitLength(piece, ':');
  }

  /** A course abbreviation keeps the semesters of its last piece in the cell; they sit once. */
  lemma LastParticipantWins(participants: string, k: nat)
    requires participants != "" && ParticipantPairs(participants).Ok?
    requires k < |Strings.Split(participants, ';')|
    requires var pairs := ParticipantPairs(participants).value;
      forall j :: k < j < |pairs| ==> pairs[j].0 != pairs[k].0
    ensures ParticipantsOf(participants).Ok? && DistinctKeys(ParticipantsOf(participants).value)
    ensures var pairs := ParticipantPairs(participants).value;
      Get(ParticipantsOf(participants).value, pairs[k].0) == Some(pairs[k].1)
  {
    var pairs := ParticipantPairs(participants).value;
    FromPairsDistinct(pairs);
    FromPairsLast(pairs, k);
  }

  /** One contains record per (course, semester) pair, each naming that course and semester. */
  lemma ContainsPerPair(participants: Dict<string, seq<int>>, eventId: int, tables: EventTables, k: nat)
    requires ContainsOf(participants, eventId, tables).Ok? && k < |Expand(participants)|
    ensures var pair, r := Expand(participants)[k], ContainsOf(participants, eventId, tables).value;
      |r| == |Expand(participants)| &&
      Some(r[k].courseId) == Get(tables.courses, pair.0) && Some(r[k].semesterId) == Get(tables.semesters, pair.1) &&
      r[k].eventId == eventId
  {
    var pair, r := Expand(participants)[k], ContainsOf(participants, eventId, tables).value;
    assert ContainOf(eventId, tables)(pair) == Ok(r[k]);
  }

  /** The pairs are exactly the semesters listed under each course. */
  lemma {:induction false} ExpandMembers(participants: Dict<string, seq<int>>, i: nat, j: nat)
    requires i < |participants| && j < |participants[i].1|
    ensures (participants[i].0, participants[i].1[j]) in Expand(participants)
  {
    var front, last := participants[..|participants| - 1], participants[|participants| - 1];
    if i < |participants| - 1 {
      assert front[i] == participants[i];
      ExpandMembers(front, i, j);
    } else {
      assert Collections.Row(last.0, last.1)[j] == (participants[i].0, participants[i].1[j]);
    }
  }

  /**
   * `Disallowed Days` has no guard for the empty cell: when the days come from accepted DTOs,
   * an empty cell always raises `KeyError` on `""`.
   */
  lemma EmptyDisallowedDaysRaises(days: seq<DayDto>, eventId: int, tables: EventTables)
    requires forall i :: 0 <= i < |days| ==> NewDayDto(days[i].id, days[i].abbreviation, days[i].name).Ok?
    requires tables.days == Api.ById(days, (d: DayDto) => d.abbreviation, (d: DayDto) => d.id)
    ensures DisallowsOf("", eventId, tables) == Err(MissingName(Days, ""))
  {
    DayTables();
    assert Strings.Split("", ';') == [""];
    assert DisallowOf(eventId, tables)("") == Err(MissingName(Days, ""));
  }

  // ---------------------------------------------------------------------------------------------
  // `_parse_employee_dislikes_date`

  /** The tables it looks up in; the dates are keyed by (day id, time slot id). */
  datatype DislikeTables = DislikeTables(
    employees: Dict<string, int>, days: Dict<string, int>, priorities: Dict<int, int>, dates: Dict<(int, int), int>)

  function DislikeTablesOf(employees: seq<EmployeeDto>, days: seq<DayDto>, priorities: seq<PriorityDto>, dates: seq<DateDto>)
    : DislikeTables
  {
    DislikeTables(
      Api.ById(employees, (e: EmployeeDto) => e.abbreviation, (e: EmployeeDto) => e.id),
      Api.ById(days, (d: DayDto) => d.abbreviation, (d: DayDto) => d.id),
      Api.ById(priorities, (p: PriorityDto) => p.value, (p: PriorityDto) => p.id),
      Api.ById(dates, (d: DateDto) => (d.dayId, d.timeSlotId), (d: DateDto) => d.id))
  }

  /** One row of the employee dislikes sheet; `Priority Value` is the number its cell holds. */
  datatype DislikeRow = DislikeRow(employee: string, day: string, priorityValue: int, timeSlotIds: string)

  /** The record of one time slot id: `int()` first, then the date lookup, then the guards. */
  function DislikeOf(employeeId: int, dayId: int, priorityId: int, tables: DislikeTables)
    : string -> Result<EmployeeDislikesDateDto, ParseError>
  {
    (piece: string) =>
      var timeSlotId :- Integer(piece);
      var dateId := Get(tables.dates, (dayId, timeSlotId));
      if dateId.None? then Err(MissingDate(dayId, timeSlotId))
      else Checked(NewEmployeeDislikesDateDto(employeeId, dateId.value, priorityId))
  }

  /** What one row adds: the employee, day and priority are looked up once, in that order. */
  function DislikeRowRecords(row: DislikeRow, tables: DislikeTables): Result<seq<EmployeeDislikesDateDto>, ParseError>
  {
    var employeeId :- IdOf(Employees, tables.employees, row.employee);
    var dayId :- IdOf(Days, tables.days, row.day);
    var priorityId :- IdOfValue(Priorities, tables.priorities, row.priorityValue);
    Collections.MapResult(Strings.Split(row.timeSlotIds, ';'), DislikeOf(employeeId, dayId, priorityId, tables))
  }

  function DislikesRecords(rows: seq<DislikeRow>, tables: DislikeTables): Result<seq<EmployeeDislikesDateDto>, ParseError>
  {
    if |rows| == 0 then Ok([])
    else
      var before :- DislikesRecords(rows[..|rows| - 1], tables);
      var more :- DislikeRowRecords(rows[|rows| - 1], tables);
      Ok(before + more)
  }

  /** The loop over the rows of the sheet. */
  method ParseEmployeeDislikesDate(rows: seq<DislikeRow>, tables: DislikeTables)
    returns (r: Result<seq<EmployeeDislikesDateDto>, ParseError>)
    ensures r == DislikesRecords(rows, tables)
  {
    var records: seq<EmployeeDislikesDateDto> := [];
    for index := 0 to |rows|
      invariant DislikesRecords(rows[..index], tables) == Ok(records)
    {
      assert rows[..index + 1][..index] == rows[..index];
      var row := rows[index];
      var more: Result<seq<EmployeeDislikesDateDto>, ParseError>;
      var employeeId := IdOf(Employees, tables.employees, row.employee);
      var dayId := IdOf(Days, tables.days, row.day);
      var priorityId := IdOfValue(Priorities, tables.priorities, row.priorityValue);
      if employeeId.Err? {
        more := Err(employeeId.error);
      } else if dayId.Err? {
        more := Err(dayId.error);
      } else if priorityId.Err? {
        more := Err(priorityId.error);
      } else {
        more := CollectAll(Strings.Split(row.timeSlotIds, ';'),
                           DislikeOf(employeeId.value, dayId.value, priorityId.value, tables));
      }
      if more.Err? {
        DislikesErrorPersists(rows, tables, index + 1);
        return Err(more.error);
      }
      records := records + more.value;
    }
    assert rows[..|rows|] == rows;
    r := Ok(records);
  }

  lemma {:induction false} DislikesErrorPersists(rows: seq<DislikeRow>, tables: DislikeTables, n: nat)
    requires n <= |rows| && DislikesRecords(rows[..n], tables).Err?
    ensures DislikesRecords(rows, tables) == DislikesRecords(rows[..n], tables)
    decreases |rows| - n
  {
    if n < |rows| {
      assert rows[..n + 1][..n] == rows[..n];
      DislikesErrorPersists(rows, tables, n + 1);
    } else {
      assert rows[..n] == rows;
    }
  }

  /** A row gives one record per ";"-separated time slot id, all with its employee and priority. */
  lemma DislikesShareRow(row: DislikeRow, tables: DislikeTables)
    requires DislikeRowRecords(row, tables).Ok?
    ensures var r, pieces := DislikeRowRecords(row, tables).value, Strings.Split(row.timeSlotIds, ';');
      |r| == |pieces| &&
      forall i :: 0 <= i < |r| ==>
        Some(r[i].employeeId) == Get(tables.employees, row.employee) &&
        Some(r[i].priorityId) == Get(tables.priorities, row.priorityValue) &&
        Strings.ParseInt(pieces[i]).Some? &&
        Some(r[i].dateId) == Get(tables.dates, (Get(tables.days, row.day).value, Strings.ParseInt(pieces[i]).value))
  {
    var r, pieces := DislikeRowRecords(row, tables).value, Strings.Split(row.timeSlotIds, ';');
    var employeeId, dayId := Get(tables.employees, row.employee).value, Get(tables.days, row.day).value;
    var priorityId := Get(tables.priorities, row.priorityValue).value;
    forall i | 0 <= i < |r|
      ensures Some(r[i].employeeId) == Get(tables.employees, row.employee)
      ensures Some(r[i].priorityId) == Get(tables.priorities, row.priorityValue)
      ensures Strings.ParseInt(pieces[i]).Some?
      ensures Some(r[i].dateId) == Get(tables.dates, (dayId, Strings.ParseInt(pieces[i]).value))
    {
      assert DislikeOf(employeeId, dayId, priorityId, tables)(pieces[i]) == Ok(r[i]);
    }
  }
}
