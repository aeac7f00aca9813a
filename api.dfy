/**
 * The read side of the database API (`api/api.py`): the rows a data access object selects are
 * given as sequences of DTO records, and each `get_…_by_id` turns them into an insertion-ordered
 * dictionary from id to domain record. Lookups of an id that is not in a dictionary raise
 * `KeyError`, which is `Err(MissingKey(…))` here. `get_events_by_id` joins the event rows with
 * the three link tables.
 */
module Api {
  import opened Wrappers
  import opened Models
  import opened Dtos
  import opened Dicts

  /** The `KeyError` of a failed id lookup: which kind of id, and its value. */
  datatype ApiError = MissingKey(field: IdField, id: int)

  // ---------------------------------------------------------------------------------------------
  // `{key(row): convert(row) for row in rows}`

  function Converted<D, K, T>(rows: seq<D>, key: D -> K, convert: D -> T): (r: seq<(K, T)>)
    ensures |r| == |rows|
    ensures forall i :: 0 <= i < |rows| ==> r[i] == (key(rows[i]), convert(rows[i]))
  {
    seq(|rows|, i requires 0 <= i < |rows| => (key(rows[i]), convert(rows[i])))
  }

  /**
   * A dictionary comprehension over rows: no key twice, a key for every row, and each key
   * carries the value converted from the last row with that key.
   */
  function ById<D, K(==,!new), T>(rows: seq<D>, key: D -> K, convert: D -> T): (r: Dict<K, T>)
    ensures DistinctKeys(r)
    ensures forall k :: k in Keys(r) <==> exists i :: 0 <= i < |rows| && key(rows[i]) == k
    ensures forall i :: 0 <= i < |rows| && (forall j :: i < j < |rows| ==> key(rows[j]) != key(rows[i])) ==>
              Get(r, key(rows[i])) == Some(convert(rows[i]))
    ensures forall e :: e in r ==> exists i :: 0 <= i < |rows| && e == (key(rows[i]), convert(rows[i]))
  {
    var pairs := Converted(rows, key, convert);
    ByIdFacts(rows, key, convert);
    FromPairs(pairs)
  }

  lemma ByIdFacts<D, K(!new), T>(rows: seq<D>, key: D -> K, convert: D -> T)
    ensures var r := FromPairs(Converted(rows, key, convert));
      DistinctKeys(r) &&
      (forall k :: k in Keys(r) <==> exists i :: 0 <= i < |rows| && key(rows[i]) == k) &&
      (forall i :: 0 <= i < |rows| && (forall j :: i < j < |rows| ==> key(rows[j]) != key(rows[i])) ==>
         Get(r, key(rows[i])) == Some(convert(rows[i]))) &&
      (forall e :: e in r ==> exists i :: 0 <= i < |rows| && e == (key(rows[i]), convert(rows[i])))
  {
    var pairs := Converted(rows, key, convert);
    var r := FromPairs(pairs);
    FromPairsDistinct(pairs);
    forall k ensures k in Keys(r) <==> exists i :: 0 <= i < |rows| && key(rows[i]) == k {
      FromPairsKeys(pairs, k);
      if k in Keys(pairs) {
        var i :| 0 <= i < |pairs| && Keys(pairs)[i] == k;
        assert key(rows[i]) == k;
      }
      if exists i :: 0 <= i < |rows| && key(rows[i]) == k {
        var i :| 0 <= i < |rows| && key(rows[i]) == k;
        assert Keys(pairs)[i] == k;
      }
    }
    forall i | 0 <= i < |rows| && (forall j :: i < j < |rows| ==> key(rows[j]) != key(rows[i]))
      ensures Get(r, key(rows[i])) == Some(convert(rows[i]))
    {
      FromPairsLast(pairs, i);
    }
    forall e | e in r ensures exists i :: 0 <= i < |rows| && e == (key(rows[i]), convert(rows[i])) {
      FromPairsEntries(pairs, e);
      var i :| 0 <= i < |pairs| && pairs[i] == e;
      assert e == (key(rows[i]), convert(rows[i]));
    }
  }

  /** With unique ids, as the primary keys guarantee, the dictionary lists the rows in order. */
  lemma ByIdUniqueKeys<D, K(!new), T>(rows: seq<D>, key: D -> K, convert: D -> T)
    requires forall i, j :: 0 <= i < j < |rows| ==> key(rows[i]) != key(rows[j])
    ensures ById(rows, key, convert) == Converted(rows, key, convert)
  {
    var pairs := Converted(rows, key, convert);
    assert DistinctKeys(pairs) by {
      forall i, j | 0 <= i < j < |pairs| ensures pairs[i].0 != pairs[j].0 {
        assert pairs[i].0 == key(rows[i]) && pairs[j].0 == key(rows[j]);
      }
    }
    FromPairsIdentity(pairs);
  }

  // the plain `get_…_by_id` comprehensions

  function DaysById(rows: seq<DayDto>): Dict<int, Day>
  {
    ById(rows, (d: DayDto) => d.id, (d: DayDto) => Day(d.abbreviation, d.name))
  }

  function TimeSlotsById(rows: seq<TimeSlotDto>): Dict<int, TimeSlot>
  {
    ById(rows, (t: TimeSlotDto) => t.id, (t: TimeSlotDto) => TimeSlot(t.startTime, t.endTime))
  }

  function PrioritiesById(rows: seq<PriorityDto>): Dict<int, Priority>
  {
    ById(rows, (p: PriorityDto) => p.id, (p: PriorityDto) => Priority(p.value))
  }

  function ParticipantSizesById(rows: seq<ParticipantSizeDto>): Dict<int, ParticipantSize>
  {
    ById(rows, (p: ParticipantSizeDto) => p.id, (p: ParticipantSizeDto) => ParticipantSize(p.name, p.ordinal))
  }

  function RoomTypesById(rows: seq<RoomTypeDto>): Dict<int, RoomType>
  {
    ById(rows, (t: RoomTypeDto) => t.id, (t: RoomTypeDto) => RoomType(t.name))
  }

  function TermsById(rows: seq<TermDto>): Dict<int, Term>
  {
    ById(rows, (t: TermDto) => t.id, (t: TermDto) => Term(t.name))
  }

  function CoursesById(rows: seq<CourseDto>): Dict<int, Course>
  {
    ById(rows, (c: CourseDto) => c.id, (c: CourseDto) => Course(c.abbreviation, c.name))
  }

  function SemestersById(rows: seq<SemesterDto>): Dict<int, Semester>
  {
    ById(rows, (s: SemesterDto) => s.id, (s: SemesterDto) => Semester(s.value))
  }

  /** `get_employee_dislikes_date`: `(employee_id, date_id)` to the `priority_id` of its last row. */
  function EmployeeDislikesDate(rows: seq<EmployeeDislikesDateDto>): (r: Dict<(int, int), int>)
    ensures DistinctKeys(r)
    ensures forall i :: 0 <= i < |rows| ==> (rows[i].employeeId, rows[i].dateId) in Keys(r)
    ensures forall e :: e in r ==> exists i :: 0 <= i < |rows| && e == ((rows[i].employeeId, rows[i].dateId), rows[i].priorityId)
  {
    ById(rows, (d: EmployeeDislikesDateDto) => (d.employeeId, d.dateId), (d: EmployeeDislikesDateDto) => d.priorityId)
  }

  /** A record the domain constructor builds from an accepted DTO passes the domain guards. */
  lemma ConvertedRecordsValid(days: seq<DayDto>, priorities: seq<PriorityDto>, slots: seq<TimeSlotDto>)
    requires forall i :: 0 <= i < |days| ==> NewDayDto(days[i].id, days[i].abbreviation, days[i].name).Ok?
    requires forall i :: 0 <= i < |priorities| ==> NewPriorityDto(priorities[i].id, priorities[i].value).Ok?
    requires forall i :: 0 <= i < |slots| ==> NewTimeSlotDto(slots[i].id, slots[i].startTime, slots[i].endTime).Ok?
    ensures forall e :: e in DaysById(days) ==> e.1.Valid()
    ensures forall e :: e in PrioritiesById(priorities) ==> e.1.Valid()
    ensures forall e :: e in TimeSlotsById(slots) ==> e.1.Valid()
  {
  }

  // ---------------------------------------------------------------------------------------------
  // comprehensions whose values look up other dictionaries

  /**
   * Row `i` is the first whose day or time slot is missing, and `error` names the day when the
   * day is missing, the slot otherwise.
   */
  predicate FirstMissingDate(rows: seq<DateDto>, daysById: Dict<int, Day>, slotsById: Dict<int, TimeSlot>, error: ApiError)
  {
    exists i :: 0 <= i < |rows| && MissingDateAt(rows, daysById, slotsById, error, i)
  }

  predicate MissingDateAt(rows: seq<DateDto>, daysById: Dict<int, Day>, slotsById: Dict<int, TimeSlot>, error: ApiError, i: int)
    requires 0 <= i < |rows|
  {
    (forall j :: 0 <= j < i ==> rows[j].dayId in Keys(daysById) && rows[j].timeSlotId in Keys(slotsById)) &&
    (rows[i].dayId !in Keys(daysById) || rows[i].timeSlotId !in Keys(slotsById)) &&
    error == (if rows[i].dayId !in Keys(daysById) then MissingKey(DayId, rows[i].dayId)
              else MissingKey(TimeSlotId, rows[i].timeSlotId))
  }

  /**
   * The pairs of `get_dates_by_id`, row by row: each row's day is looked up before its time slot,
   * and the first missing id raises.
   */
  function DatePairs(rows: seq<DateDto>, daysById: Dict<int, Day>, slotsById: Dict<int, TimeSlot>)
    : (r: Result<seq<(int, Date)>, ApiError>)
    ensures r.Ok? <==> forall i :: 0 <= i < |rows| ==>
                        rows[i].dayId in Keys(daysById) && rows[i].timeSlotId in Keys(slotsById)
    ensures r.Ok? ==> |r.value| == |rows| && forall i :: 0 <= i < |rows| ==>
              r.value[i] == (rows[i].id,
                             Date(Get(daysById, rows[i].dayId).value, Get(slotsById, rows[i].timeSlotId).value))
    ensures r.Err? ==> FirstMissingDate(rows, daysById, slotsById, r.error)
  {
    if |rows| == 0 then Ok([])
    else
      var row := rows[0];
      var day := Get(daysById, row.dayId);
      if day.None? then
        assert MissingDateAt(rows, daysById, slotsById, MissingKey(DayId, row.dayId), 0);
        Err(MissingKey(DayId, row.dayId))
      else
        var slot := Get(slotsById, row.timeSlotId);
        if slot.None? then
          assert MissingDateAt(rows, daysById, slotsById, MissingKey(TimeSlotId, row.timeSlotId), 0);
          Err(MissingKey(TimeSlotId, row.timeSlotId))
        else
          var rest := DatePairs(rows[1..], daysById, slotsById);
          if rest.Err? then
            assert FirstMissingDate(rows[1..], daysById, slotsById, rest.error);
            var i :| 0 <= i < |rows| - 1 && MissingDateAt(rows[1..], daysById, slotsById, rest.error, i);
            forall j | 0 <= j < i + 1 ensures rows[j].dayId in Keys(daysById) && rows[j].timeSlotId in Keys(slotsById) {
              if j > 0 {
                assert rows[j] == rows[1..][j - 1];
              }
            }
            assert rows[i + 1] == rows[1..][i];
            assert MissingDateAt(rows, daysById, slotsById, rest.error, i + 1);
            Err(rest.error)
          else
            assert forall i :: 1 <= i < |rows| ==> rows[i] == rows[1..][i - 1];
            Ok([(row.id, Date(day.value, slot.value))] + rest.value)
  }

  /** `get_dates_by_id`: date id to the day and time slot its row refers to. */
  function GetDatesById(dates: seq<DateDto>, days: seq<DayDto>, slots: seq<TimeSlotDto>)
    : Result<Dict<int, Date>, ApiError>
  {
    var pairs :- DatePairs(dates, DaysById(days), TimeSlotsById(slots));
    Ok(FromPairs(pairs))
  }

  /**
   * When every row's references resolve, each date id maps to the date built from the day and
   * time slot of its last row, and no other id is present.
   */
  lemma GetDatesByIdLookup(dates: seq<DateDto>, days: seq<DayDto>, slots: seq<TimeSlotDto>, i: nat)
    requires i < |dates|
    requires forall j :: i < j < |dates| ==> dates[j].id != dates[i].id
    requires GetDatesById(dates, days, slots).Ok?
    ensures Get(GetDatesById(dates, days, slots).value, dates[i].id) ==
      Some(Date(Get(DaysById(days), dates[i].dayId).value, Get(TimeSlotsById(slots), dates[i].timeSlotId).value))
  {
    var pairs := DatePairs(dates, DaysById(days), TimeSlotsById(slots)).value;
    forall j | i < j < |pairs| ensures pairs[j].0 != pairs[i].0 {
    }
    FromPairsLast(pairs, i);
  }

  /** `get_dates_by_id` raises `KeyError` exactly when some row refers to a missing day or slot. */
  lemma GetDatesByIdFails(dates: seq<DateDto>, days: seq<DayDto>, slots: seq<TimeSlotDto>)
    ensures GetDatesById(dates, days, slots).Err? <==>
      exists i :: 0 <= i < |dates| &&
        (dates[i].dayId !in Keys(DaysById(days)) || dates[i].timeSlotId !in Keys(TimeSlotsById(slots)))
  {
  }

  /**
   * `get_rooms_by_id` raises on the first room whose references do not resolve: its participant
   * size when that is missing, its room type otherwise.
   */
  predicate FirstMissingRoom(rows: seq<RoomDto>, sizesById: Dict<int, ParticipantSize>, typesById: Dict<int, RoomType>, error: ApiError)
  {
    exists i :: 0 <= i < |rows| && MissingRoomAt(rows, sizesById, typesById, error, i)
  }

  predicate MissingRoomAt(rows: seq<RoomDto>, sizesById: Dict<int, ParticipantSize>, typesById: Dict<int, RoomType>, error: ApiError, i: int)
    requires 0 <= i < |rows|
  {
    (forall j :: 0 <= j < i ==> rows[j].participantSizeId in Keys(sizesById) && rows[j].roomTypeId in Keys(typesById)) &&
    (rows[i].participantSizeId !in Keys(sizesById) || rows[i].roomTypeId !in Keys(typesById)) &&
    error == (if rows[i].participantSizeId !in Keys(sizesById) then MissingKey(ParticipantSizeId, rows[i].participantSizeId)
              else MissingKey(RoomTypeId, rows[i].roomTypeId))
  }

  /** The pairs of `get_rooms_by_id`: size looked up before room type, first missing id raises. */
  function RoomPairs(rows: seq<RoomDto>, sizesById: Dict<int, ParticipantSize>, typesById: Dict<int, RoomType>)
    : (r: Result<seq<(int, Room)>, ApiError>)
    ensures r.Ok? <==> forall i :: 0 <= i < |rows| ==>
                        rows[i].participantSizeId in Keys(sizesById) && rows[i].roomTypeId in Keys(typesById)
    ensures r.Ok? ==> |r.value| == |rows| && forall i :: 0 <= i < |rows| ==>
              r.value[i] == (rows[i].id, Room(rows[i].abbreviation, rows[i].name,
                                              Get(sizesById, rows[i].participantSizeId).value,
                                              Get(typesById, rows[i].roomTypeId).value))
    ensures r.Err? ==> FirstMissingRoom(rows, sizesById, typesById, r.error)
  {
    if |rows| == 0 then Ok([])
    else
      var row := rows[0];
      var size := Get(sizesById, row.participantSizeId);
      if size.None? then
        assert MissingRoomAt(rows, sizesById, typesById, MissingKey(ParticipantSizeId, row.participantSizeId), 0);
        Err(MissingKey(ParticipantSizeId, row.participantSizeId))
      else
        var roomType := Get(typesById, row.roomTypeId);
        if roomType.None? then
          assert MissingRoomAt(rows, sizesById, typesById, MissingKey(RoomTypeId, row.roomTypeId), 0);
          Err(MissingKey(RoomTypeId, row.roomTypeId))
        else
          var rest := RoomPairs(rows[1..], sizesById, typesById);
          if rest.Err? then
            assert FirstMissingRoom(rows[1..], sizesById, typesById, rest.error);
            var i :| 0 <= i < |rows| - 1 && MissingRoomAt(rows[1..], sizesById, typesById, rest.error, i);
            forall j | 0 <= j < i + 1
              ensures rows[j].participantSizeId in Keys(sizesById) && rows[j].roomTypeId in Keys(typesById)
            {
              if j > 0 {
                assert rows[j] == rows[1..][j - 1];
              }
            }
            assert rows[i + 1] == rows[1..][i];
            assert MissingRoomAt(rows, sizesById, typesById, rest.error, i + 1);
            Err(rest.error)
          else
            assert forall i :: 1 <= i < |rows| ==> rows[i] == rows[1..][i - 1];
            Ok([(row.id, Room(row.abbreviation, row.name, size.value, roomType.value))] + rest.value)
  }

  /** `get_rooms_by_id`: room id to the room built from its row, with its size and type resolved. */
  function GetRoomsById(rooms: seq<RoomDto>, sizes: seq<ParticipantSizeDto>, roomTypes: seq<RoomTypeDto>)
    : (r: Result<Dict<int, Room>, ApiError>)
    ensures r.Ok? <==> forall i :: 0 <= i < |rooms| ==>
      rooms[i].participantSizeId in Keys(ParticipantSizesById(sizes)) && rooms[i].roomTypeId in Keys(RoomTypesById(roomTypes))
    ensures r.Err? ==> FirstMissingRoom(rooms, ParticipantSizesById(sizes), RoomTypesById(roomTypes), r.error)
  {
    var pairs :- RoomPairs(rooms, ParticipantSizesById(sizes), RoomTypesById(roomTypes));
    Ok(FromPairs(pairs))
  }

  /**
   * When every room's references resolve, each room id maps to the room built from its last row:
   * its abbreviation and name, and the participant size and room type its ids name.
   */
  lemma GetRoomsByIdLookup(rooms: seq<RoomDto>, sizes: seq<ParticipantSizeDto>, roomTypes: seq<RoomTypeDto>, i: nat)
    requires i < |rooms|
    requires forall j :: i < j < |rooms| ==> rooms[j].id != rooms[i].id
    requires GetRoomsById(rooms, sizes, roomTypes).Ok?
    ensures Get(GetRoomsById(rooms, sizes, roomTypes).value, rooms[i].id) ==
      Some(Room(rooms[i].abbreviation, rooms[i].name,
                Get(ParticipantSizesById(sizes), rooms[i].participantSizeId).value,
                Get(RoomTypesById(roomTypes), rooms[i].roomTypeId).value))
  {
    var pairs := RoomPairs(rooms, ParticipantSizesById(sizes), RoomTypesById(roomTypes)).value;
    forall j | i < j < |pairs| ensures pairs[j].0 != pairs[i].0 {
    }
    FromPairsLast(pairs, i);
  }

  /** A room id is a key of `get_rooms_by_id`'s result exactly when some room row has it. */
  lemma GetRoomsByIdKeys(rooms: seq<RoomDto>, sizes: seq<ParticipantSizeDto>, roomTypes: seq<RoomTypeDto>, id: int)
    requires GetRoomsById(rooms, sizes, roomTypes).Ok?
    ensures id in Keys(GetRoomsById(rooms, sizes, roomTypes).value) <==> exists i :: 0 <= i < |rooms| && rooms[i].id == id
  {
    var pairs := RoomPairs(rooms, ParticipantSizesById(sizes), RoomTypesById(roomTypes)).value;
    FromPairsKeys(pairs, id);
    var keys := Keys(pairs);
    assert |keys| == |rooms| && forall i :: 0 <= i < |rooms| ==> keys[i] == rooms[i].id;
    if exists i :: 0 <= i < |rooms| && rooms[i].id == id {
      var i :| 0 <= i < |rooms| && rooms[i].id == id;
      assert keys[i] == id;
    } else {
      assert forall i :: 0 <= i < |keys| ==> keys[i] != id;
    }
  }

  // ---------------------------------------------------------------------------------------------
  // get_events_by_id

  /** `[h.employee_id for h in holds if h.event_id == eventId]`. */
  function EmployeeIdsFor(holds: seq<EmployeeHoldsEventDto>, eventId: int): (r: seq<int>)
    ensures |r| <= |holds|
    ensures forall x :: x in r <==> exists i :: 0 <= i < |holds| && holds[i].eventId == eventId && holds[i].employeeId == x
  {
    if |holds| == 0 then []
    else
      var front := holds[..|holds| - 1];
      var last := holds[|holds| - 1];
      var r := EmployeeIdsFor(front, eventId) + (if last.eventId == eventId then [last.employeeId] else []);
      assert forall i :: 0 <= i < |front| ==> front[i] == holds[i];
      r
  }

  /** Taking the rows in two parts and concatenating is the same as taking them at once: row order. */
  lemma {:induction false} EmployeeIdsForAppend(a: seq<EmployeeHoldsEventDto>, b: seq<EmployeeHoldsEventDto>, eventId: int)
    ensures EmployeeIdsFor(a + b, eventId) == EmployeeIdsFor(a, eventId) + EmployeeIdsFor(b, eventId)
  {
    if |b| > 0 {
      var b' := b[..|b| - 1];
      assert (a + b)[..|a + b| - 1] == a + b';
      EmployeeIdsForAppend(a, b', eventId);
    } else {
      assert a + b == a;
    }
  }

  /** The semester ids of the rows linking course `courseId` to the event, in row order. */
  function SemestersFor(contains: seq<CourseContainsEventDto>, eventId: int, courseId: int): seq<int>
  {
    if |contains| == 0 then []
    else
      var last := contains[|contains| - 1];
      SemestersFor(contains[..|contains| - 1], eventId, courseId) +
        (if last.eventId == eventId && last.courseId == courseId then [last.semesterId] else [])
  }

  /** `participants.setdefault(course, []).append(semester)`, as the loop body writes it. */
  function AddSemester(participants: Dict<int, seq<int>>, courseId: int, semesterId: int): Dict<int, seq<int>>
  {
    if courseId !in Keys(participants) then Set(participants, courseId, [semesterId])
    else Set(participants, courseId, Get(participants, courseId).value + [semesterId])
  }

  /** The `participants` dictionary after the loop over the first `|contains|` link rows. */
  function ParticipantsFor(contains: seq<CourseContainsEventDto>, eventId: int): Dict<int, seq<int>>
  {
    if |contains| == 0 then []
    else
      var last := contains[|contains| - 1];
      var d := ParticipantsFor(contains[..|contains| - 1], eventId);
      if last.eventId == eventId then AddSemester(d, last.courseId, last.semesterId) else d
  }

  /**
   * Each course maps to the semesters of its matching rows in row order, a course with no
   * matching row is absent, so no list is empty, and rows of other events play no part.
   */
  lemma {:induction false} ParticipantsLookup(contains: seq<CourseContainsEventDto>, eventId: int, courseId: int)
    ensures Get(ParticipantsFor(contains, eventId), courseId) ==
      if SemestersFor(contains, eventId, courseId) == [] then None else Some(SemestersFor(contains, eventId, courseId))
  {
    if |contains| > 0 {
      var front := contains[..|contains| - 1];
      var last := contains[|contains| - 1];
      var d := ParticipantsFor(front, eventId);
      ParticipantsLookup(front, eventId, courseId);
      if last.eventId == eventId {
        var s := if last.courseId !in Keys(d) then [last.semesterId]
                 else Get(d, last.courseId).value + [last.semesterId];
        assert ParticipantsFor(contains, eventId) == Set(d, last.courseId, s);
        SetLookup(d, last.courseId, s, courseId);
        if last.courseId == courseId {
          assert SemestersFor(contains, eventId, courseId) == SemestersFor(front, eventId, courseId) + [last.semesterId];
          if last.courseId !in Keys(d) {
            assert SemestersFor(front, eventId, courseId) == [];
            assert SemestersFor(contains, eventId, courseId) == [last.semesterId];
          }
        } else {
          assert SemestersFor(contains, eventId, courseId) == SemestersFor(front, eventId, courseId) + [];
          assert SemestersFor(front, eventId, courseId) + [] == SemestersFor(front, eventId, courseId);
        }
      } else {
        assert ParticipantsFor(contains, eventId) == d;
        assert SemestersFor(contains, eventId, courseId) == SemestersFor(front, eventId, courseId) + [];
        assert SemestersFor(front, eventId, courseId) + [] == SemestersFor(front, eventId, courseId);
      }
    }
  }

  /** The participants dictionary has no course twice. */
  lemma {:induction false} ParticipantsDistinct(contains: seq<CourseContainsEventDto>, eventId: int)
    ensures DistinctKeys(ParticipantsFor(contains, eventId))
  {
    if |contains| > 0 {
      var front := contains[..|contains| - 1];
      var last := contains[|contains| - 1];
      var d := ParticipantsFor(front, eventId);
      ParticipantsDistinct(front, eventId);
      if last.eventId == eventId {
        var s := if last.courseId !in Keys(d) then [last.semesterId]
                 else Get(d, last.courseId).value + [last.semesterId];
        SetDistinct(d, last.courseId, s);
      }
    }
  }

  /** Every semester list in the participants dictionary is non-empty. */
  lemma ParticipantsNonEmpty(contains: seq<CourseContainsEventDto>, eventId: int, e: (int, seq<int>))
    requires e in ParticipantsFor(contains, eventId)
    ensures |e.1| > 0
  {
    var d := ParticipantsFor(contains, eventId);
    var i :| 0 <= i < |d| && d[i] == e;
    ParticipantsDistinct(contains, eventId);
    GetAt(d, i);
    ParticipantsLookup(contains, eventId, e.0);
  }

  /** The day ids of the rows that disallow a day for the event, in row order. */
  function DayIdsFor(disallows: seq<EventDisallowsDayDto>, eventId: int): seq<int>
  {
    if |disallows| == 0 then []
    else
      var last := disallows[|disallows| - 1];
      DayIdsFor(disallows[..|disallows| - 1], eventId) + (if last.eventId == eventId then [last.dayId] else [])
  }

  /**
   * The `disallowed_days` list after the loop over the rows: the day of each matching row, in
   * row order, or the `KeyError` of the first matching row whose day is unknown.
   */
  function DisallowedDaysFor(disallows: seq<EventDisallowsDayDto>, eventId: int, daysById: Dict<int, Day>)
    : (r: Result<seq<Day>, ApiError>)
    ensures r.Ok? <==> forall k :: 0 <= k < |DayIdsFor(disallows, eventId)| ==> DayIdsFor(disallows, eventId)[k] in Keys(daysById)
    ensures r.Ok? ==> |r.value| == |DayIdsFor(disallows, eventId)|
    ensures r.Ok? ==> forall k :: 0 <= k < |r.value| ==> Some(r.value[k]) == Get(daysById, DayIdsFor(disallows, eventId)[k])
  {
    if |disallows| == 0 then Ok([])
    else
      var front := disallows[..|disallows| - 1];
      var last := disallows[|disallows| - 1];
      var ids := DayIdsFor(disallows, eventId);
      assert ids == DayIdsFor(front, eventId) + (if last.eventId == eventId then [last.dayId] else []);
      var days := DisallowedDaysFor(front, eventId, daysById);
      assert forall k :: 0 <= k < |DayIdsFor(front, eventId)| ==> ids[k] == DayIdsFor(front, eventId)[k];
      if days.Err? then
        var k :| 0 <= k < |DayIdsFor(front, eventId)| && DayIdsFor(front, eventId)[k] !in Keys(daysById);
        assert ids[k] !in Keys(daysById);
        Err(days.error)
      else if last.eventId != eventId then
        days
      else
        var day := Get(daysById, last.dayId);
        if day.None? then
          assert ids[|ids| - 1] == last.dayId;
          Err(MissingKey(DayId, last.dayId))
        else Ok(days.value + [day.value])
  }

  /** One entry of `events_by_id`: the event row joined with its links and id lookups. */
  function EventOf(
    e: EventDto, holds: seq<EmployeeHoldsEventDto>, contains: seq<CourseContainsEventDto>,
    disallows: seq<EventDisallowsDayDto>, termsById: Dict<int, Term>, sizesById: Dict<int, ParticipantSize>,
    typesById: Dict<int, RoomType>, daysById: Dict<int, Day>): (r: Result<Event, ApiError>)
    ensures r.Ok? <==> (DisallowedDaysFor(disallows, e.id, daysById).Ok? &&
      e.termId in Keys(termsById) && e.participantSizeId in Keys(sizesById) && e.roomTypeId in Keys(typesById))
    ensures r.Ok? ==> r.value.name == e.name && r.value.weeklyBlocks == e.weeklyBlocks
    ensures r.Ok? ==> Some(r.value.term) == Get(termsById, e.termId) &&
                      Some(r.value.participantSize) == Get(sizesById, e.participantSizeId) &&
                      Some(r.value.roomType) == Get(typesById, e.roomTypeId)
    ensures r.Ok? ==> r.value.employeeIds == EmployeeIdsFor(holds, e.id) &&
                      r.value.participants == ParticipantsFor(contains, e.id) &&
                      r.value.disallowedDays == DisallowedDaysFor(disallows, e.id, daysById).value
  {
    var days :- DisallowedDaysFor(disallows, e.id, daysById);
    var term := Get(termsById, e.termId);
    if term.None? then Err(MissingKey(TermId, e.termId))
    else
      var size := Get(sizesById, e.participantSizeId);
      if size.None? then Err(MissingKey(ParticipantSizeId, e.participantSizeId))
      else
        var roomType := Get(typesById, e.roomTypeId);
        if roomType.None? then Err(MissingKey(RoomTypeId, e.roomTypeId))
        else Ok(Event(e.name, EmployeeIdsFor(holds, e.id), ParticipantsFor(contains, e.id), e.weeklyBlocks,
                      term.value, size.value, roomType.value, days))
  }

  /** `events_by_id` after the loop over the event rows, or the first `KeyError`. */
  function EventsById(
    events: seq<EventDto>, holds: seq<EmployeeHoldsEventDto>, contains: seq<CourseContainsEventDto>,
    disallows: seq<EventDisallowsDayDto>, termsById: Dict<int, Term>, sizesById: Dict<int, ParticipantSize>,
    typesById: Dict<int, RoomType>, daysById: Dict<int, Day>): Result<Dict<int, Event>, ApiError>
  {
    if |events| == 0 then Ok([])
    else
      var last := events[|events| - 1];
      var front :- EventsById(events[..|events| - 1], holds, contains, disallows, termsById, sizesById, typesById, daysById);
      var event :- EventOf(last, holds, contains, disallows, termsById, sizesById, typesById, daysById);
      Ok(Set(front, last.id, event))
  }

  /** Once a row has raised, the rows after it do not change the outcome. */
  lemma {:induction false} EventsByIdErrorPersists(
    events: seq<EventDto>, n: nat, holds: seq<EmployeeHoldsEventDto>, contains: seq<CourseContainsEventDto>,
    disallows: seq<EventDisallowsDayDto>, termsById: Dict<int, Term>, sizesById: Dict<int, ParticipantSize>,
    typesById: Dict<int, RoomType>, daysById: Dict<int, Day>)
    requires n <= |events|
    requires EventsById(events[..n], holds, contains, disallows, termsById, sizesById, typesById, daysById).Err?
    ensures EventsById(events, holds, contains, disallows, termsById, sizesById, typesById, daysById) ==
            EventsById(events[..n], holds, contains, disallows, termsById, sizesById, typesById, daysById)
  {
    if n < |events| {
      var front := events[..|events| - 1];
      assert front[..n] == events[..n];
      EventsByIdErrorPersists(front, n, holds, contains, disallows, termsById, sizesById, typesById, daysById);
    } else {
      assert events[..n] == events;
    }
  }

  /** A join that succeeds succeeded on the rows before the last and on the last row. */
  lemma EventsByIdStep(
    events: seq<EventDto>, holds: seq<EmployeeHoldsEventDto>, contains: seq<CourseContainsEventDto>,
    disallows: seq<EventDisallowsDayDto>, termsById: Dict<int, Term>, sizesById: Dict<int, ParticipantSize>,
    typesById: Dict<int, RoomType>, daysById: Dict<int, Day>)
    requires |events| > 0
    requires EventsById(events, holds, contains, disallows, termsById, sizesById, typesById, daysById).Ok?
    ensures EventsById(events[..|events| - 1], holds, contains, disallows, termsById, sizesById, typesById, daysById).Ok?
    ensures EventOf(events[|events| - 1], holds, contains, disallows, termsById, sizesById, typesById, daysById).Ok?
    ensures EventsById(events, holds, contains, disallows, termsById, sizesById, typesById, daysById).value ==
      Set(EventsById(events[..|events| - 1], holds, contains, disallows, termsById, sizesById, typesById, daysById).value,
          events[|events| - 1].id, EventOf(events[|events| - 1], holds, contains, disallows, termsById, sizesById, typesById, daysById).value)
  {
  }

  /** The join files no id twice. */
  lemma {:induction false} EventsByIdDistinct(
    events: seq<EventDto>, holds: seq<EmployeeHoldsEventDto>, contains: seq<CourseContainsEventDto>,
    disallows: seq<EventDisallowsDayDto>, termsById: Dict<int, Term>, sizesById: Dict<int, ParticipantSize>,
    typesById: Dict<int, RoomType>, daysById: Dict<int, Day>)
    requires EventsById(events, holds, contains, disallows, termsById, sizesById, typesById, daysById).Ok?
    ensures DistinctKeys(EventsById(events, holds, contains, disallows, termsById, sizesById, typesById, daysById).value)
  {
    if |events| > 0 {
      EventsByIdStep(events, holds, contains, disallows, termsById, sizesById, typesById, daysById);
      EventsByIdDistinct(events[..|events| - 1], holds, contains, disallows, termsById, sizesById, typesById, daysById);
      SetDistinct(EventsById(events[..|events| - 1], holds, contains, disallows, termsById, sizesById, typesById, daysById).value,
                  events[|events| - 1].id, EventOf(events[|events| - 1], holds, contains, disallows, termsById, sizesById, typesById, daysById).value);
    }
  }

  /** The join has an entry for an id exactly when some event row has that id. */
  lemma {:induction false} EventsByIdKeys(
    events: seq<EventDto>, holds: seq<EmployeeHoldsEventDto>, contains: seq<CourseContainsEventDto>,
    disallows: seq<EventDisallowsDayDto>, termsById: Dict<int, Term>, sizesById: Dict<int, ParticipantSize>,
    typesById: Dict<int, RoomType>, daysById: Dict<int, Day>, id: int)
    requires EventsById(events, holds, contains, disallows, termsById, sizesById, typesById, daysById).Ok?
    ensures id in Keys(EventsById(events, holds, contains, disallows, termsById, sizesById, typesById, daysById).value) <==> exists i :: 0 <= i < |events| && events[i].id == id
  {
    if |events| > 0 {
      var front := events[..|events| - 1];
      var last := events[|events| - 1];
      EventsByIdStep(events, holds, contains, disallows, termsById, sizesById, typesById, daysById);
      var d := EventsById(front, holds, contains, disallows, termsById, sizesById, typesById, daysById).value;
      EventsByIdKeys(front, holds, contains, disallows, termsById, sizesById, typesById, daysById, id);
      SetKeys(d, last.id, EventOf(last, holds, contains, disallows, termsById, sizesById, typesById, daysById).value);
      assert id in Keys(EventsById(events, holds, contains, disallows, termsById, sizesById, typesById, daysById).value) <==> id in Keys(d) || id == last.id;
      if exists i :: 0 <= i < |events| && events[i].id == id {
        var i :| 0 <= i < |events| && events[i].id == id;
        if i < |events| - 1 {
          assert front[i].id == id;
        }
      }
      if exists i :: 0 <= i < |front| && front[i].id == id {
        var i :| 0 <= i < |front| && front[i].id == id;
        assert events[i].id == id;
      }
    }
  }

  /** The entry of an id is the event built from the last row with that id. */
  lemma {:induction false} EventsByIdLast(
    events: seq<EventDto>, holds: seq<EmployeeHoldsEventDto>, contains: seq<CourseContainsEventDto>,
    disallows: seq<EventDisallowsDayDto>, termsById: Dict<int, Term>, sizesById: Dict<int, ParticipantSize>,
    typesById: Dict<int, RoomType>, daysById: Dict<int, Day>, i: nat)
    requires EventsById(events, holds, contains, disallows, termsById, sizesById, typesById, daysById).Ok?
    requires i < |events| && forall j :: i < j < |events| ==> events[j].id != events[i].id
    ensures EventOf(events[i], holds, contains, disallows, termsById, sizesById, typesById, daysById).Ok?
    ensures Get(EventsById(events, holds, contains, disallows, termsById, sizesById, typesById, daysById).value, events[i].id) == Some(EventOf(events[i], holds, contains, disallows, termsById, sizesById, typesById, daysById).value)
  {
    var front := events[..|events| - 1];
    var last := events[|events| - 1];
    EventsByIdStep(events, holds, contains, disallows, termsById, sizesById, typesById, daysById);
    var d := EventsById(front, holds, contains, disallows, termsById, sizesById, typesById, daysById).value;
    var ev := EventOf(last, holds, contains, disallows, termsById, sizesById, typesById, daysById).value;
    SetLookup(d, last.id, ev, events[i].id);
    if i < |events| - 1 {
      assert front[i] == events[i];
      assert forall j :: i < j < |front| ==> front[j] == events[j];
      EventsByIdLast(front, holds, contains, disallows, termsById, sizesById, typesById, daysById, i);
    }
  }

  /**
   * The join yields one entry per event id, no id twice, and the entry of an id is the event
   * built from its last row.
   */
  lemma EventsByIdLookup(
    events: seq<EventDto>, holds: seq<EmployeeHoldsEventDto>, contains: seq<CourseContainsEventDto>,
    disallows: seq<EventDisallowsDayDto>, termsById: Dict<int, Term>, sizesById: Dict<int, ParticipantSize>,
    typesById: Dict<int, RoomType>, daysById: Dict<int, Day>, id: int)
    requires EventsById(events, holds, contains, disallows, termsById, sizesById, typesById, daysById).Ok?
    ensures var r := EventsById(events, holds, contains, disallows, termsById, sizesById, typesById, daysById).value;
      DistinctKeys(r) &&
      (id in Keys(r) <==> exists i :: 0 <= i < |events| && events[i].id == id) &&
      forall i :: 0 <= i < |events| && events[i].id == id && (forall j :: i < j < |events| ==> events[j].id != id) ==>
        EventOf(events[i], holds, contains, disallows, termsById, sizesById, typesById, daysById).Ok? &&
        Get(r, id) == Some(EventOf(events[i], holds, contains, disallows, termsById, sizesById, typesById, daysById).value)
  {
    EventsByIdDistinct(events, holds, contains, disallows, termsById, sizesById, typesById, daysById);
    EventsByIdKeys(events, holds, contains, disallows, termsById, sizesById, typesById, daysById, id);
    forall i | 0 <= i < |events| && events[i].id == id && (forall j :: i < j < |events| ==> events[j].id != id)
      ensures EventOf(events[i], holds, contains, disallows, termsById, sizesById, typesById, daysById).Ok? &&
              Get(EventsById(events, holds, contains, disallows, termsById, sizesById, typesById, daysById).value, id) == Some(EventOf(events[i], holds, contains, disallows, termsById, sizesById, typesById, daysById).value)
    {
      EventsByIdLast(events, holds, contains, disallows, termsById, sizesById, typesById, daysById, i);
    }
  }

  /** The `participants` loop of `get_events_by_id`. */
  method CollectParticipants(contains: seq<CourseContainsEventDto>, eventId: int)
    returns (participants: Dict<int, seq<int>>)
    ensures participants == ParticipantsFor(contains, eventId)
  {
    participants := [];
    var i := 0;
    while i < |contains|
      invariant 0 <= i <= |contains|
      invariant participants == ParticipantsFor(contains[..i], eventId)
    {
      var row := contains[i];
      assert contains[..i + 1][..i] == contains[..i];
      if row.eventId == eventId {
        ghost var before := participants;
        if row.courseId !in Keys(participants) {
          SetLookup(participants, row.courseId, [], row.courseId);
          participants := Set(participants, row.courseId, []);
        }
        participants := Set(participants, row.courseId, Get(participants, row.courseId).value + [row.semesterId]);
        if row.courseId !in Keys(before) {
          SetOverwrite(before, row.courseId, [], [row.semesterId]);
          assert [] + [row.semesterId] == [row.semesterId];
        }
      }
      i := i + 1;
    }
    assert contains[..i] == contains;
  }

  /** The `disallowed_days` loop of `get_events_by_id`. */
  method CollectDisallowedDays(disallows: seq<EventDisallowsDayDto>, eventId: int, daysById: Dict<int, Day>)
    returns (r: Result<seq<Day>, ApiError>)
    ensures r == DisallowedDaysFor(disallows, eventId, daysById)
  {
    var days: seq<Day> := [];
    var i := 0;
    while i < |disallows|
      invariant 0 <= i <= |disallows|
      invariant DisallowedDaysFor(disallows[..i], eventId, daysById) == Ok(days)
    {
      var row := disallows[i];
      assert disallows[..i + 1][..i] == disallows[..i];
      if row.eventId == eventId {
        var day := Get(daysById, row.dayId);
        if day.None? {
          DisallowedDaysErrorPersists(disallows, i + 1, eventId, daysById);
          return Err(MissingKey(DayId, row.dayId));
        }
        days := days + [day.value];
      }
      i := i + 1;
    }
    assert disallows[..i] == disallows;
    r := Ok(days);
  }

  lemma {:induction false} DisallowedDaysErrorPersists(disallows: seq<EventDisallowsDayDto>, n: nat, eventId: int, daysById: Dict<int, Day>)
    requires n <= |disallows|
    requires DisallowedDaysFor(disallows[..n], eventId, daysById).Err?
    ensures DisallowedDaysFor(disallows, eventId, daysById) == DisallowedDaysFor(disallows[..n], eventId, daysById)
  {
    if n < |disallows| {
      var front := disallows[..|disallows| - 1];
      assert front[..n] == disallows[..n];
      DisallowedDaysErrorPersists(front, n, eventId, daysById);
    } else {
      assert disallows[..n] == disallows;
    }
  }

  /** `get_events_by_id`, given what the data access objects select. */
  method GetEventsById(
    events: seq<EventDto>, holds: seq<EmployeeHoldsEventDto>, contains: seq<CourseContainsEventDto>,
    disallows: seq<EventDisallowsDayDto>, terms: seq<TermDto>, sizes: seq<ParticipantSizeDto>,
    roomTypes: seq<RoomTypeDto>, days: seq<DayDto>)
    returns (r: Result<Dict<int, Event>, ApiError>)
    ensures r == EventsById(events, holds, contains, disallows, TermsById(terms), ParticipantSizesById(sizes),
                            RoomTypesById(roomTypes), DaysById(days))
  {
    var termsById := TermsById(terms);
    var sizesById := ParticipantSizesById(sizes);
    var typesById := RoomTypesById(roomTypes);
    var eventsById: Dict<int, Event> := [];
    var daysById := DaysById(days);
    var i := 0;
    while i < |events|
      invariant 0 <= i <= |events|
      invariant EventsById(events[..i], holds, contains, disallows, termsById, sizesById, typesById, daysById) == Ok(eventsById)
    {
      var e := events[i];
      assert events[..i + 1][..i] == events[..i];
      var employeeIds := EmployeeIdsFor(holds, e.id);
      var participants := CollectParticipants(contains, e.id);
      var disallowed := CollectDisallowedDays(disallows, e.id, daysById);
      if disallowed.Err? {
        EventsByIdErrorPersists(events, i + 1, holds, contains, disallows, termsById, sizesById, typesById, daysById);
        return Err(disallowed.error);
      }
      var term := Get(termsById, e.termId);
      if term.None? {
        EventsByIdErrorPersists(events, i + 1, holds, contains, disallows, termsById, sizesById, typesById, daysById);
        return Err(MissingKey(TermId, e.termId));
      }
      var size := Get(sizesById, e.participantSizeId);
      if size.None? {
        EventsByIdErrorPersists(events, i + 1, holds, contains, disallows, termsById, sizesById, typesById, daysById);
        return Err(MissingKey(ParticipantSizeId, e.participantSizeId));
      }
      var roomType := Get(typesById, e.roomTypeId);
      if roomType.None? {
        EventsByIdErrorPersists(events, i + 1, holds, contains, disallows, termsById, sizesById, typesById, daysById);
        return Err(MissingKey(RoomTypeId, e.roomTypeId));
      }
      eventsById := Set(eventsById, e.id, Event(e.name, employeeIds, participants, e.weeklyBlocks,
                                                term.value, size.value, roomType.value, disallowed.value));
      i := i + 1;
    }
    assert events[..i] == events;
    r := Ok(eventsById);
  }
}
