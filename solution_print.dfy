/**
 * `parse_pygad_solution_for_print` (`genetic_algorithm.py`): the best solution laid out as
 * day name → "HH:MM - HH:MM" → event name → room name → course abbreviation → semester values.
 * Two lessons of the same name at the same day and time must not overwrite each other, so a
 * clashing name takes the first free suffix " (1)", " (2)", ….
 */
module SolutionPrint {
  import opened Wrappers
  import opened Models
  import opened Dicts
  import Strings
  import TimeUtils
  import Collections
  import Api
  import GeneticAlgorithm

  // ---------------------------------------------------------------------------------------------
  // the time label

  /** `t.strftime("%H:%M")`. */
  function Clock(t: TimeUtils.Time): (r: string)
    requires t.Valid()
    ensures |r| == 5 && r[2] == ':'
  {
    Strings.PadTwo(t.hour) + ":" + Strings.PadTwo(t.minute)
  }

  /** The two fields of the clock label are the hour and the minute, as two-digit decimals. */
  lemma ClockFields(t: TimeUtils.Time)
    requires t.Valid()
    ensures Strings.AllDigits(Clock(t)[..2]) && Strings.DecimalValue(Clock(t)[..2]) == t.hour
    ensures Strings.AllDigits(Clock(t)[3..]) && Strings.DecimalValue(Clock(t)[3..]) == t.minute
  {
    assert Clock(t)[..2] == Strings.PadTwo(t.hour) && Clock(t)[3..] == Strings.PadTwo(t.minute);
  }

  /** The label determines the hour and the minute. */
  lemma ClockInjective(a: TimeUtils.Time, b: TimeUtils.Time)
    requires a.Valid() && b.Valid() && Clock(a) == Clock(b)
    ensures a.hour == b.hour && a.minute == b.minute
  {
    assert Clock(a)[..2] == Strings.PadTwo(a.hour) && Clock(b)[..2] == Strings.PadTwo(b.hour);
    assert Clock(a)[3..] == Strings.PadTwo(a.minute) && Clock(b)[3..] == Strings.PadTwo(b.minute);
  }

  /** `start.strftime("%H:%M") + " - " + end.strftime("%H:%M")`. */
  function TimeLabel(slot: TimeSlot): (r: string)
    requires slot.startTime.Valid() && slot.endTime.Valid()
    ensures |r| == 13
  {
    Clock(slot.startTime) + " - " + Clock(slot.endTime)
  }

  /** Two time slots share a label exactly when their start and end agree to the minute. */
  lemma TimeLabelInjective(a: TimeSlot, b: TimeSlot)
    requires a.startTime.Valid() && a.endTime.Valid() && b.startTime.Valid() && b.endTime.Valid()
    ensures TimeLabel(a) == TimeLabel(b) <==>
      a.startTime.hour == b.startTime.hour && a.startTime.minute == b.startTime.minute &&
      a.endTime.hour == b.endTime.hour && a.endTime.minute == b.endTime.minute
  {
    if TimeLabel(a) == TimeLabel(b) {
      assert TimeLabel(a)[..5] == Clock(a.startTime) && TimeLabel(b)[..5] == Clock(b.startTime);
      assert TimeLabel(a)[8..] == Clock(a.endTime) && TimeLabel(b)[8..] == Clock(b.endTime);
      ClockInjective(a.startTime, b.startTime);
      ClockInjective(a.endTime, b.endTime);
    }
  }

  // ---------------------------------------------------------------------------------------------
  // the suffix loop

  /** The `k`-th name the loop tries: the event's own name, then `f"{name} ({k})"`. */
  function Candidate(name: string, k: nat): string
  {
    if k == 0 then name else name + " (" + Strings.NatToString(k) + ")"
  }

  /** No name is tried twice. */
  lemma CandidateInjective(name: string, a: nat, b: nat)
    requires Candidate(name, a) == Candidate(name, b)
    ensures a == b
  {
    if a != 0 && b != 0 {
      var s, t := Candidate(name, a), Candidate(name, b);
      assert s[|name| + 2..|s| - 1] == Strings.NatToString(a);
      assert t[|name| + 2..|t| - 1] == Strings.NatToString(b);
      Strings.NatToStringInjective(a, b);
    }
  }

  /** The names tried before the `c`-th. */
  function Tried(name: string, c: nat): (r: set<string>)
    ensures forall k :: 0 <= k < c ==> Candidate(name, k) in r
  {
    if c == 0 then {} else Tried(name, c - 1) + {Candidate(name, c - 1)}
  }

  /** Only candidates are tried. */
  lemma {:induction false} TriedOnlyCandidates(name: string, c: nat, x: string)
    requires x in Tried(name, c)
    ensures exists k :: 0 <= k < c && Candidate(name, k) == x
  {
    if x != Candidate(name, c - 1) {
      TriedOnlyCandidates(name, c - 1, x);
    }
  }

  /** The first `c` candidates are `c` different names. */
  lemma {:induction false} TriedCard(name: string, c: nat)
    ensures |Tried(name, c)| == c
  {
    if c > 0 {
      TriedCard(name, c - 1);
      if Candidate(name, c - 1) in Tried(name, c - 1) {
        TriedOnlyCandidates(name, c - 1, Candidate(name, c - 1));
        var k :| 0 <= k < c - 1 && Candidate(name, k) == Candidate(name, c - 1);
        CandidateInjective(name, k, c - 1);
      }
    }
  }

  /** Taken names are keys. */
  lemma {:induction false} TriedTaken<V>(d: Dict<string, V>, name: string, c: nat)
    requires forall k :: 0 <= k < c ==> Candidate(name, k) in Keys(d)
    ensures Tried(name, c) <= Collections.ToSet(Keys(d))
  {
    if c > 0 {
      TriedTaken(d, name, c - 1);
    }
  }

  /** A dictionary of `|d|` entries holds at most `|d|` of the candidates, so one is always free. */
  lemma AllTakenBound<V>(d: Dict<string, V>, name: string, c: nat)
    requires forall k :: 0 <= k < c ==> Candidate(name, k) in Keys(d)
    ensures c <= |d|
  {
    var tried, keys := Tried(name, c), Collections.ToSet(Keys(d));
    TriedCard(name, c);
    TriedTaken(d, name, c);
    Collections.RepeatsCount(Keys(d));
    assert |keys| == |tried| + |keys - tried|;
  }

  /** The index of the first free candidate at or after `k`, all before `k` being taken. */
  function FirstFreeFrom<V>(d: Dict<string, V>, name: string, k: nat): (r: nat)
    requires forall j :: 0 <= j < k ==> Candidate(name, j) in Keys(d)
    ensures k <= r <= |d|
    ensures Candidate(name, r) !in Keys(d)
    ensures forall j :: 0 <= j < r ==> Candidate(name, j) in Keys(d)
    decreases |d| - k
  {
    AllTakenBound(d, name, k);
    if Candidate(name, k) !in Keys(d) then k
    else
      AllTakenBound(d, name, k + 1);
      FirstFreeFrom(d, name, k + 1)
  }

  /** The suffix the loop settles on: every earlier candidate is taken, this one is free. */
  function FirstFree<V>(d: Dict<string, V>, name: string): (r: nat)
    ensures Candidate(name, r) !in Keys(d)
    ensures forall j :: 0 <= j < r ==> Candidate(name, j) in Keys(d)
  {
    FirstFreeFrom(d, name, 0)
  }

  /** The first free candidate is the only name with these two properties. */
  lemma FirstFreeUnique<V>(d: Dict<string, V>, name: string, k: nat)
    requires Candidate(name, k) !in Keys(d)
    requires forall j :: 0 <= j < k ==> Candidate(name, j) in Keys(d)
    ensures k == FirstFree(d, name)
  {
  }

  /** The `while event_name in …` loop. */
  method UniqueName<V>(entries: Dict<string, V>, name: string) returns (eventName: string)
    ensures eventName == Candidate(name, FirstFree(entries, name))
    ensures eventName !in Keys(entries)
  {
    eventName := name;
    var countEventAtTime := 1;
    while eventName in Keys(entries)
      invariant countEventAtTime >= 1
      invariant eventName == Candidate(name, countEventAtTime - 1)
      invariant forall j :: 0 <= j < countEventAtTime - 1 ==> Candidate(name, j) in Keys(entries)
      decreases |entries| - countEventAtTime
    {
      AllTakenBound(entries, name, countEventAtTime);
      eventName := name + " (" + Strings.NatToString(countEventAtTime) + ")";
      countEventAtTime := countEventAtTime + 1;
    }
    FirstFreeUnique(entries, name, countEventAtTime - 1);
  }

  // ---------------------------------------------------------------------------------------------
  // the participants of one entry

  /** `[semesters_by_id[s].value for s in semester_ids]`, or the first `KeyError`. */
  function SemesterValues(semesterIds: seq<int>, semestersById: Dict<int, Semester>): (r: Result<seq<int>, Api.ApiError>)
    ensures r.Ok? <==> forall i :: 0 <= i < |semesterIds| ==> semesterIds[i] in Keys(semestersById)
    ensures r.Ok? ==> |r.value| == |semesterIds|
    ensures r.Ok? ==>
      forall i :: 0 <= i < |semesterIds| ==> Some(Semester(r.value[i])) == Get(semestersById, semesterIds[i])
  {
    if |semesterIds| == 0 then Ok([])
    else
      var semester := Get(semestersById, semesterIds[0]);
      if semester.None? then Err(Api.MissingKey(SemesterId, semesterIds[0]))
      else
        var rest := SemesterValues(semesterIds[1..], semestersById);
        assert forall i :: 1 <= i < |semesterIds| ==> semesterIds[i] == semesterIds[1..][i - 1];
        if rest.Err? then Err(rest.error) else Ok([semester.value.value] + rest.value)
  }

  /** The items of `{courses_by_id[c].abbreviation: [...] for c, semester_ids in participants.items()}`. */
  function ParticipantsPairs(participants: Dict<int, seq<int>>, coursesById: Dict<int, Course>,
                             semestersById: Dict<int, Semester>): (r: Result<seq<(string, seq<int>)>, Api.ApiError>)
    ensures r.Ok? <==> forall i :: 0 <= i < |participants| ==>
      participants[i].0 in Keys(coursesById) && SemesterValues(participants[i].1, semestersById).Ok?
    ensures r.Ok? ==> |r.value| == |participants|
    ensures r.Ok? ==> forall i :: 0 <= i < |participants| ==>
      participants[i].0 in Keys(coursesById) && r.value[i].0 == AbbreviationAt(participants, coursesById, i)
    ensures r.Ok? ==> forall i :: 0 <= i < |participants| ==>
      Ok(r.value[i].1) == SemesterValues(participants[i].1, semestersById)
  {
    if |participants| == 0 then Ok([])
    else
      var course := Get(coursesById, participants[0].0);
      if course.None? then Err(Api.MissingKey(CourseId, participants[0].0))
      else
        var values :- SemesterValues(participants[0].1, semestersById);
        var rest := ParticipantsPairs(participants[1..], coursesById, semestersById);
        assert forall i :: 1 <= i < |participants| ==> participants[i] == participants[1..][i - 1];
        if rest.Err? then Err(rest.error) else Ok([(course.value.abbreviation, values)] + rest.value)
  }

  /** The dictionary of one entry: a later course with the same abbreviation replaces an earlier one. */
  function ParticipantsLabel(participants: Dict<int, seq<int>>, coursesById: Dict<int, Course>,
                             semestersById: Dict<int, Semester>): Result<Dict<string, seq<int>>, Api.ApiError>
  {
    var pairs :- ParticipantsPairs(participants, coursesById, semestersById);
    Ok(FromPairs(pairs))
  }

  /** The abbreviation of the course of the `i`-th participant entry, when that course is known. */
  function AbbreviationAt(participants: Dict<int, seq<int>>, coursesById: Dict<int, Course>, i: nat): string
    requires i < |participants| && participants[i].0 in Keys(coursesById)
  {
    Get(coursesById, participants[i].0).value.abbreviation
  }

  /**
   * Each course abbreviation appears once and lists the semester values of the last participant
   * entry whose course has that abbreviation.
   */
  lemma ParticipantsLabelLookup(participants: Dict<int, seq<int>>, coursesById: Dict<int, Course>,
                                semestersById: Dict<int, Semester>, i: nat)
    requires ParticipantsLabel(participants, coursesById, semestersById).Ok? && i < |participants|
    requires forall j :: i < j < |participants| ==>
      AbbreviationAt(participants, coursesById, j) != AbbreviationAt(participants, coursesById, i)
    ensures DistinctKeys(ParticipantsLabel(participants, coursesById, semestersById).value)
    ensures SemesterValues(participants[i].1, semestersById).Ok?
    ensures Get(ParticipantsLabel(participants, coursesById, semestersById).value, AbbreviationAt(participants, coursesById, i))
      == Some(SemesterValues(participants[i].1, semestersById).value)
  {
    var pairs := ParticipantsPairs(participants, coursesById, semestersById).value;
    FromPairsDistinct(pairs);
    FromPairsLast(pairs, i);
  }

  // ---------------------------------------------------------------------------------------------
  // the result

  type TimeEntry = Dict<string, Dict<string, Dict<string, seq<int>>>>
  type Printout = Dict<string, Dict<string, TimeEntry>>

  /** What `result[day][time]` holds, `{}` when it is not there yet. */
  function SlotEntry(result: Printout, day: string, time: string): TimeEntry
  {
    var dayEntry := match Get(result, day) case None => [] case Some(e) => e;
    match Get(dayEntry, time) case None => [] case Some(e) => e
  }

  function DayEntry(result: Printout, day: string): Dict<string, TimeEntry>
  {
    match Get(result, day) case None => [] case Some(e) => e
  }

  /** One pass of the loop body: file the lesson under its day and time with a free name. */
  function AddLesson(result: Printout, day: string, time: string, eventName: string, roomName: string,
                     courses: Dict<string, seq<int>>): Printout
  {
    var dayEntry := DayEntry(result, day);
    var timeEntry := SlotEntry(result, day, time);
    var name := Candidate(eventName, FirstFree(timeEntry, eventName));
    Set(result, day, Set(dayEntry, time, Set(timeEntry, name, [(roomName, courses)])))
  }

  /**
   * Adding a lesson appends exactly one entry under its day and time, under the first free
   * candidate name, and leaves every entry already there, and every other day and time, alone.
   */
  lemma AddLessonAppends(result: Printout, day: string, time: string, eventName: string, roomName: string,
                         courses: Dict<string, seq<int>>, day': string, time': string)
    ensures var name := Candidate(eventName, FirstFree(SlotEntry(result, day, time), eventName));
      SlotEntry(AddLesson(result, day, time, eventName, roomName, courses), day, time) ==
        SlotEntry(result, day, time) + [(name, [(roomName, courses)])]
    ensures (day', time') != (day, time) ==>
      SlotEntry(AddLesson(result, day, time, eventName, roomName, courses), day', time') == SlotEntry(result, day', time')
  {
    var dayEntry := DayEntry(result, day);
    var timeEntry := SlotEntry(result, day, time);
    var name := Candidate(eventName, FirstFree(timeEntry, eventName));
    var timeEntry' := Set(timeEntry, name, [(roomName, courses)]);
    var dayEntry' := Set(dayEntry, time, timeEntry');
    SetAppends(timeEntry, name, [(roomName, courses)]);
    SetLookup(result, day, dayEntry', day);
    SetLookup(dayEntry, time, timeEntry', time);
    SetLookup(result, day, dayEntry', day');
    SetLookup(dayEntry, time, timeEntry', time');
  }

  /** Every gene refers to times that `datetime.time` could hold. */
  predicate ValidTimes(p: GeneticAlgorithm.Problem)
  {
    forall i :: 0 <= i < |p.dateXRoom| ==>
      p.dateXRoom[i].0.1.timeSlot.startTime.Valid() && p.dateXRoom[i].0.1.timeSlot.endTime.Valid()
  }

  /** `result` after the first `n` genes, or the first `KeyError`. */
  function PrintoutFor(p: GeneticAlgorithm.Problem, solution: seq<nat>, coursesById: Dict<int, Course>,
                       semestersById: Dict<int, Semester>, n: nat): Result<Printout, Api.ApiError>
    requires GeneticAlgorithm.Fits(p, solution) && ValidTimes(p) && n <= |solution| <= |p.lessons|
  {
    if n == 0 then Ok([])
    else
      var before :- PrintoutFor(p, solution, coursesById, semestersById, n - 1);
      var slot := p.dateXRoom[solution[n - 1]];
      var event := p.lessons[n - 1];
      var courses :- ParticipantsLabel(event.participants, coursesById, semestersById);
      Ok(AddLesson(before, slot.0.1.day.name, TimeLabel(slot.0.1.timeSlot), event.name, slot.1.1.name, courses))
  }

  /** How `PrintoutFor` takes one more gene. */
  lemma PrintoutForStep(p: GeneticAlgorithm.Problem, solution: seq<nat>, coursesById: Dict<int, Course>,
                        semestersById: Dict<int, Semester>, n: nat)
    requires GeneticAlgorithm.Fits(p, solution) && ValidTimes(p) && n < |solution| <= |p.lessons|
    requires PrintoutFor(p, solution, coursesById, semestersById, n).Ok?
    ensures var courses := ParticipantsLabel(p.lessons[n].participants, coursesById, semestersById);
      var slot := p.dateXRoom[solution[n]];
      PrintoutFor(p, solution, coursesById, semestersById, n + 1) ==
        if courses.Err? then Err(courses.error)
        else Ok(AddLesson(PrintoutFor(p, solution, coursesById, semestersById, n).value, slot.0.1.day.name,
                          TimeLabel(slot.0.1.timeSlot), p.lessons[n].name, slot.1.1.name, courses.value))
  {
  }

  /** `parse_pygad_solution_for_print(solution)`. */
  method ParseSolutionForPrint(p: GeneticAlgorithm.Problem, solution: seq<nat>, coursesById: Dict<int, Course>,
                               semestersById: Dict<int, Semester>)
    returns (r: Result<Printout, Api.ApiError>)
    requires GeneticAlgorithm.Fits(p, solution) && ValidTimes(p) && |solution| <= |p.lessons|
    ensures r == PrintoutFor(p, solution, coursesById, semestersById, |solution|)
  {
    var result: Printout := [];
    var i := 0;
    while i < |solution|
      invariant 0 <= i <= |solution|
      invariant PrintoutFor(p, solution, coursesById, semestersById, i) == Ok(result)
    {
      var slot := p.dateXRoom[solution[i]];
      var day, timeSlot, room := slot.0.1.day, slot.0.1.timeSlot, slot.1.1;
      var time := TimeLabel(timeSlot);
      var event := p.lessons[i];
      var courses := ParticipantsLabel(event.participants, coursesById, semestersById);
      PrintoutForStep(p, solution, coursesById, semestersById, i);
      if courses.Err? {
        PrintoutErrorPersists(p, solution, coursesById, semestersById, i + 1);
        return Err(courses.error);
      }
      result := FileLesson(result, day.name, time, event.name, room.name, courses.value);
      i := i + 1;
    }
    r := Ok(result);
  }

  /** The body of the loop: `result[day][time][event_name] = {room: courses}` under a free name. */
  method FileLesson(result: Printout, day: string, time: string, name: string, roomName: string,
                    courses: Dict<string, seq<int>>)
    returns (result': Printout)
    ensures result' == AddLesson(result, day, time, name, roomName, courses)
  {
    result' := result;
    if day !in Keys(result') {
      result' := Set(result', day, []);
    }
    SetLookup(result, day, [], day);
    var dayEntry := Get(result', day).value;
    assert dayEntry == DayEntry(result, day);
    ghost var prepared := result';
    if time !in Keys(dayEntry) {
      dayEntry := Set(dayEntry, time, []);
      result' := Set(result', day, dayEntry);
    }
    SetLookup(DayEntry(result, day), time, [], time);
    var timeEntry := Get(dayEntry, time).value;
    assert timeEntry == SlotEntry(result, day, time);
    var eventName := UniqueName(timeEntry, name);
    timeEntry := Set(timeEntry, eventName, [(roomName, courses)]);
    SetOverwrite(DayEntry(result, day), time, [], timeEntry);
    dayEntry := Set(dayEntry, time, timeEntry);
    ghost var filed := result';
    result' := Set(result', day, dayEntry);
    if filed != prepared {
      SetOverwrite(prepared, day, Set(DayEntry(result, day), time, []), dayEntry);
    }
    if prepared != result {
      SetOverwrite(result, day, [], dayEntry);
    }
  }

  /** Once a gene has raised, the later genes do not change the outcome. */
  lemma {:induction false} PrintoutErrorPersists(p: GeneticAlgorithm.Problem, solution: seq<nat>, coursesById: Dict<int, Course>,
                                                 semestersById: Dict<int, Semester>, n: nat)
    requires GeneticAlgorithm.Fits(p, solution) && ValidTimes(p) && n <= |solution| <= |p.lessons|
    requires PrintoutFor(p, solution, coursesById, semestersById, n).Err?
    ensures PrintoutFor(p, solution, coursesById, semestersById, |solution|) == PrintoutFor(p, solution, coursesById, semestersById, n)
    decreases |solution| - n
  {
    if n < |solution| {
      PrintoutForErrStep(p, solution, coursesById, semestersById, n);
      PrintoutErrorPersists(p, solution, coursesById, semestersById, n + 1);
    }
  }
  /** A raised error is carried over to the next gene unchanged. */
  lemma PrintoutForErrStep(p: GeneticAlgorithm.Problem, solution: seq<nat>, coursesById: Dict<int, Course>,
                           semestersById: Dict<int, Semester>, n: nat)
    requires GeneticAlgorithm.Fits(p, solution) && ValidTimes(p) && n < |solution| <= |p.lessons|
    requires PrintoutFor(p, solution, coursesById, semestersById, n).Err?
    ensures PrintoutFor(p, solution, coursesById, semestersById, n + 1) == PrintoutFor(p, solution, coursesById, semestersById, n)
  {
  }

  /** However many lessons share a day and time, the printout gives each its own name there. */
  lemma {:induction false} PrintoutNamesDistinct(p: GeneticAlgorithm.Problem, solution: seq<nat>, coursesById: Dict<int, Course>,
                                                 semestersById: Dict<int, Semester>, n: nat, day: string, time: string)
    requires GeneticAlgorithm.Fits(p, solution) && ValidTimes(p) && n <= |solution| <= |p.lessons|
    requires PrintoutFor(p, solution, coursesById, semestersById, n).Ok?
    ensures DistinctKeys(SlotEntry(PrintoutFor(p, solution, coursesById, semestersById, n).value, day, time))
  {
    if n > 0 {
      PrintoutForStep(p, solution, coursesById, semestersById, n - 1);
      PrintoutNamesDistinct(p, solution, coursesById, semestersById, n - 1, day, time);
      var before := PrintoutFor(p, solution, coursesById, semestersById, n - 1).value;
      var slot := p.dateXRoom[solution[n - 1]];
      var courses := ParticipantsLabel(p.lessons[n - 1].participants, coursesById, semestersById).value;
      var day', time' := slot.0.1.day.name, TimeLabel(slot.0.1.timeSlot);
      AddLessonAppends(before, day', time', p.lessons[n - 1].name, slot.1.1.name, courses, day, time);
      if (day, time) == (day', time') {
        var entry := SlotEntry(before, day, time);
        var name := Candidate(p.lessons[n - 1].name, FirstFree(entry, p.lessons[n - 1].name));
        SetDistinct(entry, name, [(slot.1.1.name, courses)]);
        SetAppends(entry, name, [(slot.1.1.name, courses)]);
      }
    }
  }
}
