/**
 * The scoring side of the genetic algorithm (`genetic_algorithm.py`). `prepare` turns the
 * database contents into a list of lessons (one per weekly block of each event of the term), the
 * table of all (date, room) pairs and the disliked dates with their priorities; a solution assigns
 * each lesson a gene, an index into that table; `fitness_function` adds up penalties for the
 * assignment and returns their negation, so 0 is the best score.
 */
module GeneticAlgorithm {
  import opened Wrappers
  import opened Models
  import opened Dicts
  import opened Collections
  import Api

  const HARD_CONSTRAINT: int := 100

  /** One entry of `date_x_room`: `((date id, date), (room id, room))`. */
  type Slot = ((int, Date), (int, Room))

  // ---------------------------------------------------------------------------------------------
  // prepare

  /**
   * `[event for event in events if event.term.name == term for _ in range(event.weekly_blocks)]`:
   * every lesson is an event of the term taken from the input.
   */
  function Lessons(events: seq<Event>, term: string): (r: seq<Event>)
    ensures forall i :: 0 <= i < |r| ==> r[i] in events && r[i].term.name == term
  {
    if |events| == 0 then []
    else
      var front := events[..|events| - 1];
      var last := events[|events| - 1];
      var r := Lessons(front, term) + (if last.term.name == term then Repeat(last, last.weeklyBlocks) else []);
      assert forall x :: x in front ==> x in events;
      r
  }

  /** Lessons keep the event order: the lessons of two runs of events are concatenated. */
  lemma {:induction false} LessonsAppend(a: seq<Event>, b: seq<Event>, term: string)
    ensures Lessons(a + b, term) == Lessons(a, term) + Lessons(b, term)
  {
    if |b| > 0 {
      var b' := b[..|b| - 1];
      assert (a + b)[..|a + b| - 1] == a + b';
      LessonsAppend(a, b', term);
    } else {
      assert a + b == a;
    }
  }

  /** An event of the term gives exactly `weekly_blocks` lessons, an event of the other term none. */
  lemma LessonsOfOne(e: Event, term: string)
    ensures Lessons([e], term) == if e.term.name == term then Repeat(e, e.weeklyBlocks) else []
    ensures e.term.name == term && e.weeklyBlocks >= 0 ==> |Lessons([e], term)| == e.weeklyBlocks
    ensures e.term.name != term ==> Lessons([e], term) == []
  {
    assert [e][..0] == [];
  }

  /** `date_x_room`: every (date, room) pair, dates outer, rooms inner. */
  function DateXRoom(datesById: Dict<int, Date>, roomsById: Dict<int, Room>): seq<Slot>
  {
    Product(datesById, roomsById)
  }

  /** The table has `|dates| * |rooms|` entries, and pair `(i, j)` sits at `i * |rooms| + j`. */
  lemma DateXRoomAt(datesById: Dict<int, Date>, roomsById: Dict<int, Room>, i: nat, j: nat)
    requires i < |datesById| && j < |roomsById|
    ensures |DateXRoom(datesById, roomsById)| == |datesById| * |roomsById|
    ensures i * |roomsById| + j < |DateXRoom(datesById, roomsById)|
    ensures DateXRoom(datesById, roomsById)[i * |roomsById| + j] == (datesById[i], roomsById[j])
  {
    var table := DateXRoom(datesById, roomsById);
    assert table == Product(datesById, roomsById);
    ProductAt(datesById, roomsById, i, j);
  }

  /** The pairs of `employee_dislikes_date`, each priority id replaced by its priority. */
  function DislikedPairs(dislikes: Dict<(int, int), int>, prioritiesById: Dict<int, Priority>)
    : (r: Result<seq<((int, int), Priority)>, Api.ApiError>)
    ensures r.Ok? <==> forall i :: 0 <= i < |dislikes| ==> dislikes[i].1 in Keys(prioritiesById)
    ensures r.Ok? ==> |r.value| == |dislikes| && forall i :: 0 <= i < |dislikes| ==>
                        r.value[i] == (dislikes[i].0, Get(prioritiesById, dislikes[i].1).value)
    ensures r.Err? ==> exists i :: 0 <= i < |dislikes| && MissingPriorityAt(dislikes, prioritiesById, r.error, i)
  {
    if |dislikes| == 0 then Ok([])
    else
      var priority := Get(prioritiesById, dislikes[0].1);
      if priority.None? then
        assert MissingPriorityAt(dislikes, prioritiesById, Api.MissingKey(PriorityId, dislikes[0].1), 0);
        Err(Api.MissingKey(PriorityId, dislikes[0].1))
      else
        var rest := DislikedPairs(dislikes[1..], prioritiesById);
        assert forall i :: 1 <= i < |dislikes| ==> dislikes[i] == dislikes[1..][i - 1];
        if rest.Err? then
          var i :| 0 <= i < |dislikes| - 1 && MissingPriorityAt(dislikes[1..], prioritiesById, rest.error, i);
          assert dislikes[1..][i] == dislikes[i + 1];
          assert MissingPriorityAt(dislikes, prioritiesById, rest.error, i + 1);
          Err(rest.error)
        else Ok([(dislikes[0].0, priority.value)] + rest.value)
  }

  /** Entry `i` is the first, in dictionary order, whose priority id is unknown, and the error names it. */
  predicate MissingPriorityAt(dislikes: Dict<(int, int), int>, prioritiesById: Dict<int, Priority>, error: Api.ApiError, i: int)
    requires 0 <= i < |dislikes|
  {
    (forall j :: 0 <= j < i ==> dislikes[j].1 in Keys(prioritiesById)) &&
    dislikes[i].1 !in Keys(prioritiesById) &&
    error == Api.MissingKey(PriorityId, dislikes[i].1)
  }

  /** `{(e, d): priorities_by_id[p] for (e, d), p in dislikes.items()}`. */
  function DislikedPriorities(dislikes: Dict<(int, int), int>, prioritiesById: Dict<int, Priority>)
    : Result<Dict<(int, int), Priority>, Api.ApiError>
  {
    var pairs :- DislikedPairs(dislikes, prioritiesById);
    Ok(FromPairs(pairs))
  }

  /**
   * Over a real dictionary, the result has the same keys in the same order, and each key maps
   * to the priority its priority id names.
   */
  lemma DislikedPrioritiesLookup(dislikes: Dict<(int, int), int>, prioritiesById: Dict<int, Priority>, k: (int, int))
    requires DistinctKeys(dislikes)
    requires DislikedPriorities(dislikes, prioritiesById).Ok?
    ensures Keys(DislikedPriorities(dislikes, prioritiesById).value) == Keys(dislikes)
    ensures Get(DislikedPriorities(dislikes, prioritiesById).value, k) ==
      if k in Keys(dislikes) then Get(prioritiesById, Get(dislikes, k).value) else None
  {
    var pairs := DislikedPairs(dislikes, prioritiesById).value;
    assert Keys(pairs) == Keys(dislikes);
    assert DistinctKeys(pairs) by {
      forall i, j | 0 <= i < j < |pairs| ensures pairs[i].0 != pairs[j].0 {
        assert pairs[i].0 == dislikes[i].0 && pairs[j].0 == dislikes[j].0;
      }
    }
    FromPairsIdentity(pairs);
    if k in Keys(dislikes) {
      var i :| 0 <= i < |dislikes| && Keys(dislikes)[i] == k;
      GetAt(dislikes, i);
      GetAt(pairs, i);
    }
  }

  /** `prepare`'s three results, the `instance.variables` of the scoring. */
  datatype Problem = Problem(lessons: seq<Event>, dateXRoom: seq<Slot>, dislikes: Dict<(int, int), Priority>)

  /** `prepare(term)`, given what the API returns. */
  function Prepare(
    term: string, eventsById: Dict<int, Event>, datesById: Dict<int, Date>, roomsById: Dict<int, Room>,
    prioritiesById: Dict<int, Priority>, dislikes: Dict<(int, int), int>): (r: Result<Problem, Api.ApiError>)
    ensures r.Ok? <==> DislikedPriorities(dislikes, prioritiesById).Ok?
    ensures r.Ok? ==> r.value.lessons == Lessons(Values(eventsById), term)
    ensures r.Ok? ==> |r.value.dateXRoom| == |datesById| * |roomsById|
    ensures r.Ok? ==> r.value.dateXRoom == DateXRoom(datesById, roomsById)
    ensures r.Ok? ==> r.value.dislikes == DislikedPriorities(dislikes, prioritiesById).value
    ensures r.Err? ==> exists i :: 0 <= i < |dislikes| && MissingPriorityAt(dislikes, prioritiesById, r.error, i)
  {
    var disliked :- DislikedPriorities(dislikes, prioritiesById);
    ProductLength(datesById, roomsById);
    Ok(Problem(Lessons(Values(eventsById), term), DateXRoom(datesById, roomsById), disliked))
  }

  // ---------------------------------------------------------------------------------------------
  // fitness_function

  /** The genes PyGAD draws lie in `[0, len(date_x_room))`. */
  predicate Fits(p: Problem, solution: seq<nat>)
  {
    forall i :: 0 <= i < |solution| ==> solution[i] < |p.dateXRoom|
  }

  /** `zip(lessons, solution)` stops at the shorter of the two. */
  function Scored(p: Problem, solution: seq<nat>): (n: nat)
    ensures n <= |p.lessons| && n <= |solution|
    ensures n == |p.lessons| || n == |solution|
  {
    if |p.lessons| <= |solution| then |p.lessons| else |solution|
  }

  /** The slot the `i`-th gene picks. */
  function SlotAt(p: Problem, solution: seq<nat>, i: nat): Slot
    requires Fits(p, solution) && i < |solution|
  {
    p.dateXRoom[solution[i]]
  }

  predicate DayDisallowed(e: Event, s: Slot)
  {
    s.0.1.day in e.disallowedDays
  }

  /** `room.participant_size < event.participant_size`. */
  predicate RoomTooSmall(e: Event, s: Slot)
  {
    Compare(Lt, s.1.1.participantSize, Size(e.participantSize)) == Ok(true)
  }

  predicate WrongRoomType(e: Event, s: Slot)
  {
    s.1.1.roomType != e.roomType
  }

  /** The loop state: the running penalty and the two sets of keys seen so far. */
  datatype Tally = Tally(penalty: int, planned: set<(int, int)>, students: set<(int, int, int)>)

  /** The loop over `event.employee_ids` at one date: the penalty and `employee_planned_at_date` after it. */
  function EmployeeStep(penalty: int, planned: set<(int, int)>, ids: seq<int>, dateId: int,
                        dislikes: Dict<(int, int), Priority>): (int, set<(int, int)>)
  {
    if |ids| == 0 then (penalty, planned)
    else
      var (before, seen) := EmployeeStep(penalty, planned, ids[..|ids| - 1], dateId, dislikes);
      var key := (ids[|ids| - 1], dateId);
      var booked := if key in seen then before + HARD_CONSTRAINT else before;
      var after := match Get(dislikes, key) case None => booked case Some(priority) => booked + priority.value;
      (after, seen + {key})
  }

  /** `[(course_id, semester_id) for course_id, semester_ids in participants.items() for semester_id in semester_ids]`. */
  function ParticipantPairs(participants: Dict<int, seq<int>>): (r: seq<(int, int)>)
    ensures forall c, s :: (c, s) in r <==> exists i :: 0 <= i < |participants| && participants[i].0 == c && s in participants[i].1
  {
    if |participants| == 0 then []
    else
      var front := participants[..|participants| - 1];
      var last := participants[|participants| - 1];
      var r := ParticipantPairs(front) + Row(last.0, last.1);
      assert forall i :: 0 <= i < |front| ==> front[i] == participants[i];
      assert forall c, s :: (c, s) in Row(last.0, last.1) <==> c == last.0 && s in last.1 by {
        forall c, s ensures (c, s) in Row(last.0, last.1) <==> c == last.0 && s in last.1 {
          if c == last.0 && s in last.1 {
            var j :| 0 <= j < |last.1| && last.1[j] == s;
            assert Row(last.0, last.1)[j] == (c, s);
          }
        }
      }
      r
  }

  /** The loop over the participant pairs at one date: the penalty and `date_x_students` after it. */
  function StudentStep(penalty: int, students: set<(int, int, int)>, pairs: seq<(int, int)>, dateId: int)
    : (int, set<(int, int, int)>)
  {
    if |pairs| == 0 then (penalty, students)
    else
      var (before, seen) := StudentStep(penalty, students, pairs[..|pairs| - 1], dateId);
      var key := (dateId, pairs[|pairs| - 1].0, pairs[|pairs| - 1].1);
      (if key in seen then before + HARD_CONSTRAINT else before, seen + {key})
  }

  /** How many of the three per-lesson rules the slot breaks. */
  function ViolationsAt(e: Event, s: Slot): nat
  {
    (if DayDisallowed(e, s) then 1 else 0) + (if RoomTooSmall(e, s) then 1 else 0) +
    (if WrongRoomType(e, s) then 1 else 0)
  }

  /** The body of the loop over `zip(lessons, solution)`, for one lesson and its slot. */
  function LessonStep(t: Tally, e: Event, s: Slot, dislikes: Dict<(int, int), Priority>): Tally
  {
    var dateId := s.0.0;
    var p1 := if DayDisallowed(e, s) then t.penalty + HARD_CONSTRAINT else t.penalty;
    var booked := EmployeeStep(p1, t.planned, e.employeeIds, dateId, dislikes);
    var p3 := if RoomTooSmall(e, s) then booked.0 + HARD_CONSTRAINT else booked.0;
    var p4 := if WrongRoomType(e, s) then p3 + HARD_CONSTRAINT else p3;
    var seated := StudentStep(p4, t.students, ParticipantPairs(e.participants), dateId);
    Tally(seated.0, booked.1, seated.1)
  }

  /** The loop state after the first `n` scored lessons. */
  function Run(p: Problem, solution: seq<nat>, n: nat): Tally
    requires Fits(p, solution) && n <= Scored(p, solution)
  {
    if n == 0 then Tally(0, {}, {})
    else LessonStep(Run(p, solution, n - 1), p.lessons[n - 1], SlotAt(p, solution, n - 1), p.dislikes)
  }

  /** The sum of the penalties of a solution; `fitness_function` returns its negation. */
  function TotalPenalty(p: Problem, solution: seq<nat>): int
    requires Fits(p, solution)
  {
    Run(p, solution, Scored(p, solution)).penalty
  }

  /** `fitness_function(instance, solution, _)`. */
  method Fitness(p: Problem, solution: seq<nat>) returns (r: int)
    requires Fits(p, solution)
    ensures r == -TotalPenalty(p, solution)
  {
    var fitness := 0;
    var employeePlannedAtDate: set<(int, int)> := {};
    var dateXStudents: set<(int, int, int)> := {};
    var n := if |p.lessons| <= |solution| then |p.lessons| else |solution|;
    var i := 0;
    while i < n
      invariant 0 <= i <= n
      invariant Tally(fitness, employeePlannedAtDate, dateXStudents) == Run(p, solution, i)
    {
      fitness, employeePlannedAtDate, dateXStudents :=
        ScoreLesson(fitness, employeePlannedAtDate, dateXStudents, p.lessons[i], p.dateXRoom[solution[i]], p.dislikes);
      i := i + 1;
    }
    r := -fitness;
  }

  /** The body of the loop over `zip(lessons, solution)`. */
  method ScoreLesson(
    fitness: int, employeePlannedAtDate: set<(int, int)>, dateXStudents: set<(int, int, int)>,
    event: Event, slot: Slot, dislikes: Dict<(int, int), Priority>)
    returns (fitness': int, employeePlannedAtDate': set<(int, int)>, dateXStudents': set<(int, int, int)>)
    ensures Tally(fitness', employeePlannedAtDate', dateXStudents') ==
            LessonStep(Tally(fitness, employeePlannedAtDate, dateXStudents), event, slot, dislikes)
  {
    var dateId, date, room := slot.0.0, slot.0.1, slot.1.1;
    fitness' := fitness;
    if date.day in event.disallowedDays {
      fitness' := fitness' + HARD_CONSTRAINT;
    }
    fitness', employeePlannedAtDate' := BookEmployees(fitness', employeePlannedAtDate, event.employeeIds, dateId, dislikes);
    if room.participantSize.ordinal < event.participantSize.ordinal {
      fitness' := fitness' + HARD_CONSTRAINT;
    }
    if room.roomType != event.roomType {
      fitness' := fitness' + HARD_CONSTRAINT;
    }
    fitness', dateXStudents' := SeatStudents(fitness', dateXStudents, ParticipantPairs(event.participants), dateId);
  }

  /** The loop over `event.employee_ids`. */
  method BookEmployees(fitness: int, employeePlannedAtDate: set<(int, int)>, ids: seq<int>, dateId: int,
                       dislikes: Dict<(int, int), Priority>)
    returns (fitness': int, employeePlannedAtDate': set<(int, int)>)
    ensures (fitness', employeePlannedAtDate') == EmployeeStep(fitness, employeePlannedAtDate, ids, dateId, dislikes)
  {
    fitness', employeePlannedAtDate' := fitness, employeePlannedAtDate;
    var j := 0;
    while j < |ids|
      invariant 0 <= j <= |ids|
      invariant (fitness', employeePlannedAtDate') == EmployeeStep(fitness, employeePlannedAtDate, ids[..j], dateId, dislikes)
    {
      assert ids[..j + 1][..j] == ids[..j];
      var employeeXDate := (ids[j], dateId);
      if employeeXDate in employeePlannedAtDate' {
        fitness' := fitness' + HARD_CONSTRAINT;
      }
      employeePlannedAtDate' := employeePlannedAtDate' + {employeeXDate};
      var priority := Get(dislikes, employeeXDate);
      if priority.Some? {
        fitness' := fitness' + priority.value.value;
      }
      j := j + 1;
    }
    assert ids[..j] == ids;
  }

  /** The loop over the participant pairs. */
  method SeatStudents(fitness: int, dateXStudents: set<(int, int, int)>, pairs: seq<(int, int)>, dateId: int)
    returns (fitness': int, dateXStudents': set<(int, int, int)>)
    ensures (fitness', dateXStudents') == StudentStep(fitness, dateXStudents, pairs, dateId)
  {
    fitness', dateXStudents' := fitness, dateXStudents;
    var k := 0;
    while k < |pairs|
      invariant 0 <= k <= |pairs|
      invariant (fitness', dateXStudents') == StudentStep(fitness, dateXStudents, pairs[..k], dateId)
    {
      assert pairs[..k + 1][..k] == pairs[..k];
      var dateXStudent := (dateId, pairs[k].0, pairs[k].1);
      if dateXStudent in dateXStudents' {
        fitness' := fitness' + HARD_CONSTRAINT;
      }
      dateXStudents' := dateXStudents' + {dateXStudent};
      k := k + 1;
    }
    assert pairs[..k] == pairs;
  }

  // ---------------------------------------------------------------------------------------------
  // what the penalty is made of

  /** The priority values of all employee occurrences at disliked dates. */
  function DislikeSum(keys: seq<(int, int)>, dislikes: Dict<(int, int), Priority>): int
  {
    if |keys| == 0 then 0
    else
      DislikeSum(keys[..|keys| - 1], dislikes) +
        (match Get(dislikes, keys[|keys| - 1]) case None => 0 case Some(priority) => priority.value)
  }

  /** Every priority of a dislike is at least 1, as `Priority` enforces. */
  predicate ValidPriorities(dislikes: Dict<(int, int), Priority>)
  {
    forall i :: 0 <= i < |dislikes| ==> dislikes[i].1.Valid()
  }

  lemma {:induction false} DislikeSumSign(keys: seq<(int, int)>, dislikes: Dict<(int, int), Priority>)
    requires ValidPriorities(dislikes)
    ensures DislikeSum(keys, dislikes) >= 0
    ensures DislikeSum(keys, dislikes) == 0 <==> forall i :: 0 <= i < |keys| ==> keys[i] !in Keys(dislikes)
  {
    if |keys| > 0 {
      var front := keys[..|keys| - 1];
      var last := keys[|keys| - 1];
      DislikeSumSign(front, dislikes);
      assert forall i :: 0 <= i < |front| ==> front[i] == keys[i];
      if last in Keys(dislikes) {
        var j := GetEntry(dislikes, last);
        assert dislikes[j].1.Valid();
      }
    }
  }

  /** The (employee id, date id) keys of one lesson, in the order the loop visits them. */
  function EmployeeKeysAt(ids: seq<int>, dateId: int): (r: seq<(int, int)>)
    ensures |r| == |ids| && forall k :: 0 <= k < |ids| ==> r[k] == (ids[k], dateId)
  {
    seq(|ids|, k requires 0 <= k < |ids| => (ids[k], dateId))
  }

  /** The (date id, course id, semester id) keys of one lesson. */
  function StudentKeysAt(pairs: seq<(int, int)>, dateId: int): (r: seq<(int, int, int)>)
    ensures |r| == |pairs| && forall k :: 0 <= k < |pairs| ==> r[k] == (dateId, pairs[k].0, pairs[k].1)
  {
    seq(|pairs|, k requires 0 <= k < |pairs| => (dateId, pairs[k].0, pairs[k].1))
  }

  /** All employee keys of the first `n` scored lessons. */
  function EmployeeKeys(p: Problem, solution: seq<nat>, n: nat): seq<(int, int)>
    requires Fits(p, solution) && n <= Scored(p, solution)
  {
    if n == 0 then []
    else EmployeeKeys(p, solution, n - 1) + EmployeeKeysAt(p.lessons[n - 1].employeeIds, SlotAt(p, solution, n - 1).0.0)
  }

  /** All student keys of the first `n` scored lessons. */
  function StudentKeys(p: Problem, solution: seq<nat>, n: nat): seq<(int, int, int)>
    requires Fits(p, solution) && n <= Scored(p, solution)
  {
    if n == 0 then []
    else StudentKeys(p, solution, n - 1) +
           StudentKeysAt(ParticipantPairs(p.lessons[n - 1].participants), SlotAt(p, solution, n - 1).0.0)
  }

  /** How many of the first `n` scored lessons break a per-lesson rule. */
  function LessonViolations(p: Problem, solution: seq<nat>, n: nat): nat
    requires Fits(p, solution) && n <= Scored(p, solution)
  {
    if n == 0 then 0
    else
      LessonViolations(p, solution, n - 1) + ViolationsAt(p.lessons[n - 1], SlotAt(p, solution, n - 1))
  }

  /**
   * The penalty, term by term: 100 per lesson on a disallowed day, in a too small room or in a
   * room of the wrong type; 100 for each repeat of an (employee, date) key and of a (date,
   * course, semester) key; and the priority of each employee occurrence at a disliked date.
   */
  function PenaltyTerms(p: Problem, solution: seq<nat>, n: nat): int
    requires Fits(p, solution) && n <= Scored(p, solution)
  {
    HARD_CONSTRAINT * (LessonViolations(p, solution, n) + Repeats(EmployeeKeys(p, solution, n)) +
                       Repeats(StudentKeys(p, solution, n))) +
    DislikeSum(EmployeeKeys(p, solution, n), p.dislikes)
  }

  lemma {:induction false} EmployeeStepTally(penalty: int, ids: seq<int>, dateId: int, dislikes: Dict<(int, int), Priority>,
                                             keys: seq<(int, int)>)
    ensures var r := EmployeeStep(penalty, ToSet(keys), ids, dateId, dislikes);
      var keys' := keys + EmployeeKeysAt(ids, dateId);
      r.1 == ToSet(keys') &&
      r.0 + HARD_CONSTRAINT * Repeats(keys) + DislikeSum(keys, dislikes) ==
        penalty + HARD_CONSTRAINT * Repeats(keys') + DislikeSum(keys', dislikes)
  {
    if |ids| > 0 {
      var front := ids[..|ids| - 1];
      EmployeeStepTally(penalty, front, dateId, dislikes, keys);
      var before := keys + EmployeeKeysAt(front, dateId);
      var key := (ids[|ids| - 1], dateId);
      assert keys + EmployeeKeysAt(ids, dateId) == before + [key];
      ToSetAppend(before, key);
      assert Repeats(before + [key]) == Repeats(before) + (if key in before then 1 else 0);
      assert DislikeSum(before + [key], dislikes) == DislikeSum(before, dislikes) +
        (match Get(dislikes, key) case None => 0 case Some(priority) => priority.value);
    } else {
      assert keys + EmployeeKeysAt(ids, dateId) == keys;
    }
  }

  lemma {:induction false} StudentStepTally(penalty: int, pairs: seq<(int, int)>, dateId: int, keys: seq<(int, int, int)>)
    ensures var r := StudentStep(penalty, ToSet(keys), pairs, dateId);
      var keys' := keys + StudentKeysAt(pairs, dateId);
      r.1 == ToSet(keys') &&
      r.0 + HARD_CONSTRAINT * Repeats(keys) == penalty + HARD_CONSTRAINT * Repeats(keys')
  {
    if |pairs| > 0 {
      var front := pairs[..|pairs| - 1];
      StudentStepTally(penalty, front, dateId, keys);
      var before := keys + StudentKeysAt(front, dateId);
      var key := (dateId, pairs[|pairs| - 1].0, pairs[|pairs| - 1].1);
      assert keys + StudentKeysAt(pairs, dateId) == before + [key];
      ToSetAppend(before, key);
      assert Repeats(before + [key]) == Repeats(before) + (if key in before then 1 else 0);
    } else {
      assert keys + StudentKeysAt(pairs, dateId) == keys;
    }
  }

  /** One lesson adds its rule violations, its new repeats and its disliked dates to the tally. */
  lemma LessonStepTally(penalty: int, e: Event, s: Slot, dislikes: Dict<(int, int), Priority>,
                        employeeKeys: seq<(int, int)>, studentKeys: seq<(int, int, int)>)
    ensures var u := LessonStep(Tally(penalty, ToSet(employeeKeys), ToSet(studentKeys)), e, s, dislikes);
      var employeeKeys' := employeeKeys + EmployeeKeysAt(e.employeeIds, s.0.0);
      var studentKeys' := studentKeys + StudentKeysAt(ParticipantPairs(e.participants), s.0.0);
      u.planned == ToSet(employeeKeys') && u.students == ToSet(studentKeys') &&
      u.penalty + HARD_CONSTRAINT * (Repeats(employeeKeys) + Repeats(studentKeys)) + DislikeSum(employeeKeys, dislikes) ==
        penalty + HARD_CONSTRAINT * (ViolationsAt(e, s) + Repeats(employeeKeys') + Repeats(studentKeys')) +
        DislikeSum(employeeKeys', dislikes)
  {
    var t := Tally(penalty, ToSet(employeeKeys), ToSet(studentKeys));
    var pairs := ParticipantPairs(e.participants);
    var employeeKeys' := employeeKeys + EmployeeKeysAt(e.employeeIds, s.0.0);
    var studentKeys' := studentKeys + StudentKeysAt(pairs, s.0.0);
    var day := if DayDisallowed(e, s) then 1 else 0;
    var size := if RoomTooSmall(e, s) then 1 else 0;
    var kind := if WrongRoomType(e, s) then 1 else 0;
    var p1 := penalty + HARD_CONSTRAINT * day;
    var r2 := EmployeeStep(p1, ToSet(employeeKeys), e.employeeIds, s.0.0, dislikes);
    var p4 := r2.0 + HARD_CONSTRAINT * (size + kind);
    var r5 := StudentStep(p4, ToSet(studentKeys), pairs, s.0.0);
    assert LessonStep(t, e, s, dislikes) == Tally(r5.0, r2.1, r5.1);
    assert r2.1 == ToSet(employeeKeys') &&
      r2.0 + HARD_CONSTRAINT * Repeats(employeeKeys) + DislikeSum(employeeKeys, dislikes) ==
      p1 + HARD_CONSTRAINT * Repeats(employeeKeys') + DislikeSum(employeeKeys', dislikes) by {
      EmployeeStepTally(p1, e.employeeIds, s.0.0, dislikes, employeeKeys);
    }
    assert r5.1 == ToSet(studentKeys') &&
      r5.0 + HARD_CONSTRAINT * Repeats(studentKeys) == p4 + HARD_CONSTRAINT * Repeats(studentKeys') by {
      StudentStepTally(p4, pairs, s.0.0, studentKeys);
    }
    assert ViolationsAt(e, s) == day + size + kind;
  }

  /** The loop computes exactly the penalty terms, and its sets hold exactly the keys seen. */
  lemma {:induction false} RunTally(p: Problem, solution: seq<nat>, n: nat)
    requires Fits(p, solution) && n <= Scored(p, solution)
    ensures Run(p, solution, n) ==
      Tally(PenaltyTerms(p, solution, n), ToSet(EmployeeKeys(p, solution, n)), ToSet(StudentKeys(p, solution, n)))
  {
    if n > 0 {
      RunTally(p, solution, n - 1);
      LessonStepTally(PenaltyTerms(p, solution, n - 1), p.lessons[n - 1], SlotAt(p, solution, n - 1), p.dislikes,
                      EmployeeKeys(p, solution, n - 1), StudentKeys(p, solution, n - 1));
    }
  }

  /** A key seen `k` times costs `100 * (k - 1)`: the repeats are entries minus distinct keys. */
  lemma RepeatedKeysCost(p: Problem, solution: seq<nat>)
    requires Fits(p, solution)
    ensures var n := Scored(p, solution);
      Repeats(EmployeeKeys(p, solution, n)) == |EmployeeKeys(p, solution, n)| - |ToSet(EmployeeKeys(p, solution, n))| &&
      Repeats(StudentKeys(p, solution, n)) == |StudentKeys(p, solution, n)| - |ToSet(StudentKeys(p, solution, n))|
  {
    var n := Scored(p, solution);
    RepeatsCount(EmployeeKeys(p, solution, n));
    RepeatsCount(StudentKeys(p, solution, n));
  }

  /** No penalty term fires: the lessons keep every rule, no key repeats, no disliked date is used. */
  predicate NoPenalty(p: Problem, solution: seq<nat>)
    requires Fits(p, solution)
  {
    var n := Scored(p, solution);
    (forall i :: 0 <= i < n ==>
       !DayDisallowed(p.lessons[i], SlotAt(p, solution, i)) &&
       !RoomTooSmall(p.lessons[i], SlotAt(p, solution, i)) &&
       !WrongRoomType(p.lessons[i], SlotAt(p, solution, i))) &&
    NoRepeats(EmployeeKeys(p, solution, n)) &&
    NoRepeats(StudentKeys(p, solution, n)) &&
    (forall k :: 0 <= k < |EmployeeKeys(p, solution, n)| ==> EmployeeKeys(p, solution, n)[k] !in Keys(p.dislikes))
  }

  lemma {:induction false} LessonViolationsZero(p: Problem, solution: seq<nat>, n: nat)
    requires Fits(p, solution) && n <= Scored(p, solution)
    ensures LessonViolations(p, solution, n) == 0 <==>
      forall i :: 0 <= i < n ==>
        !DayDisallowed(p.lessons[i], SlotAt(p, solution, i)) &&
        !RoomTooSmall(p.lessons[i], SlotAt(p, solution, i)) &&
        !WrongRoomType(p.lessons[i], SlotAt(p, solution, i))
  {
    if n > 0 {
      LessonViolationsZero(p, solution, n - 1);
    }
  }

  /**
   * The fitness is never positive, and it is 0 exactly when no penalty term fires (priorities
   * being at least 1, a used disliked date always costs something).
   */
  lemma FitnessZeroIff(p: Problem, solution: seq<nat>)
    requires Fits(p, solution) && ValidPriorities(p.dislikes)
    ensures TotalPenalty(p, solution) >= 0
    ensures TotalPenalty(p, solution) == 0 <==> NoPenalty(p, solution)
  {
    var n := Scored(p, solution);
    RunTally(p, solution, n);
    DislikeSumSign(EmployeeKeys(p, solution, n), p.dislikes);
    RepeatsZero(EmployeeKeys(p, solution, n));
    RepeatsZero(StudentKeys(p, solution, n));
    LessonViolationsZero(p, solution, n);
  }

  /** Genes past the last lesson are never looked at. */
  lemma {:induction false} ExtraGenesIgnored(p: Problem, solution: seq<nat>, extra: seq<nat>, n: nat)
    requires Fits(p, solution + extra) && |solution| >= |p.lessons| && n <= |p.lessons|
    ensures Fits(p, solution) && Run(p, solution, n) == Run(p, solution + extra, n)
  {
    assert forall i :: 0 <= i < |solution| ==> solution[i] == (solution + extra)[i];
    if n > 0 {
      ExtraGenesIgnored(p, solution, extra, n - 1);
    }
  }
}
