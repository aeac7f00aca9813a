/**
 * The reshaping in `main.py` before the time tables are printed: `sort_time_table` orders the
 * printout by day (in the week's order), time and event name, and `separate_time_tables` pivots
 * it into one table per semester and course.
 */
module TimeTables {
  import opened Wrappers
  import opened Dicts
  import Strings
  import Collections
  import Models
  import SolutionPrint

  type TimeEntry = SolutionPrint.TimeEntry
  type Printout = SolutionPrint.Printout

  // ---------------------------------------------------------------------------------------------
  // sorting every value of a dictionary

  /** Every value is a dictionary without repeated keys. */
  predicate ValuesDistinct<V(==)>(d: Dict<string, Dict<string, V>>)
  {
    forall e :: e in d ==> DistinctKeys(e.1)
  }

  /** `for k in d: d[k] = OrderedDict(sorted(d[k].items()))`, as a value. */
  function SortValues<V(==)>(d: Dict<string, Dict<string, V>>): (r: Dict<string, Dict<string, V>>)
    requires ValuesDistinct(d)
    ensures |r| == |d|
  {
    seq(|d|, i requires 0 <= i < |d| => assert d[i] in d; (d[i].0, SortByKey(d[i].1)))
  }

  /** Sorting the values keeps the keys in place and sorts each value, keeping its associations. */
  lemma SortValuesFacts<V>(d: Dict<string, Dict<string, V>>, k: string, k': string)
    requires DistinctKeys(d) && ValuesDistinct(d)
    ensures Keys(SortValues(d)) == Keys(d) && DistinctKeys(SortValues(d))
    ensures forall e :: e in SortValues(d) ==> SortedByKey(e.1)
    ensures k !in Keys(d) ==> Get(SortValues(d), k) == None
    ensures k in Keys(d) ==> DistinctKeys(Get(d, k).value)
    ensures k in Keys(d) ==> Get(SortValues(d), k) == Some(SortByKey(Get(d, k).value))
    ensures k in Keys(d) ==> Get(Get(SortValues(d), k).value, k') == Get(Get(d, k).value, k')
  {
    var r := SortValues(d);
    assert Keys(r) == Keys(d);
    if k in Keys(d) {
      var i := GetEntry(d, k);
      GetAt(r, i);
      SortByKeyLookups(d[i].1, k');
    } else {
      assert k !in Keys(r);
    }
  }

  /** Sorting a dictionary keeps its values, so their keys stay distinct. */
  lemma SortByKeyValuesDistinct<V>(d: Dict<string, Dict<string, V>>)
    requires DistinctKeys(d) && ValuesDistinct(d)
    ensures ValuesDistinct(SortByKey(d))
  {
    forall e | e in SortByKey(d) ensures DistinctKeys(e.1) {
      assert e in multiset(SortByKey(d));
    }
  }

  /** Halfway through the loop: the first `i` values sorted, the rest as they were. */
  lemma MixedEntries<V>(d: Dict<string, Dict<string, V>>, i: nat)
    requires ValuesDistinct(d) && i <= |d|
    ensures var r := SortValues(d)[..i] + d[i..];
      |r| == |d| && forall j :: 0 <= j < |d| ==> r[j] == if j < i then SortValues(d)[j] else d[j]
  {
    var r := SortValues(d)[..i] + d[i..];
    forall j | 0 <= j < |d| ensures r[j] == if j < i then SortValues(d)[j] else d[j] {
      if j >= i {
        assert r[j] == d[i..][j - i];
      }
    }
  }

  /** Replacing the entry at `i` of the halfway state by its sorted form gives the next state. */
  lemma MixedStep<V>(d: Dict<string, Dict<string, V>>, i: nat)
    requires ValuesDistinct(d) && i < |d|
    ensures var r := SortValues(d)[..i] + d[i..];
      r[..i] + [(d[i].0, SortByKey(d[i].1))] + r[i + 1..] == SortValues(d)[..i + 1] + d[i + 1..]
  {
    var s := SortValues(d);
    var r := s[..i] + d[i..];
    var t := r[..i] + [(d[i].0, SortByKey(d[i].1))] + r[i + 1..];
    var u := s[..i + 1] + d[i + 1..];
    MixedEntries(d, i);
    MixedEntries(d, i + 1);
    assert |t| == |u|;
    forall j | 0 <= j < |t| ensures t[j] == u[j] {
      if j < i {
        assert t[j] == r[j] == s[j] == u[j];
      } else if j == i {
        assert t[j] == s[i] == u[j];
      } else {
        assert t[j] == r[j] == d[j] == u[j];
      }
    }
  }

  /** One turn of the loop below: sorting the value at `i` in place. */
  lemma SortValuesTurn<V>(d: Dict<string, Dict<string, V>>, i: nat)
    requires DistinctKeys(d) && ValuesDistinct(d) && i < |d|
    ensures DistinctKeys(SortValues(d)[..i] + d[i..])
    ensures (SortValues(d)[..i] + d[i..])[i] == d[i]
    ensures Set(SortValues(d)[..i] + d[i..], d[i].0, SortByKey(d[i].1)) == SortValues(d)[..i + 1] + d[i + 1..]
  {
    var r := SortValues(d)[..i] + d[i..];
    MixedEntries(d, i);
    assert forall j :: 0 <= j < |r| ==> r[j].0 == d[j].0;
    SetInPlace(r, i, SortByKey(d[i].1));
    MixedStep(d, i);
  }

  /** The loop that sorts the values one key after another. */
  method SortEachValue<V(==)>(d: Dict<string, Dict<string, V>>) returns (r: Dict<string, Dict<string, V>>)
    requires DistinctKeys(d) && ValuesDistinct(d)
    ensures r == SortValues(d)
  {
    r := d;
    for i := 0 to |d|
      invariant r == SortValues(d)[..i] + d[i..]
    {
      SortValuesTurn(d, i);
      var key, times := r[i].0, r[i].1;
      r := Set(r, key, SortByKey(times));
    }
  }

  // ---------------------------------------------------------------------------------------------
  // `sort_time_table`

  /** What `sort_time_table` needs of its input: the dictionaries it sorts are real dictionaries. */
  predicate Sortable(parsed: Printout)
  {
    forall e :: e in parsed ==> DistinctKeys(e.1) && ValuesDistinct(e.1)
  }

  lemma SortableGet(parsed: Printout, name: string)
    requires Sortable(parsed) && name in Keys(parsed)
    ensures DistinctKeys(Get(parsed, name).value) && ValuesDistinct(Get(parsed, name).value)
  {
    GetIn(parsed, name);
  }

  /** One day: its time slots in ascending order, and in each its events in ascending order. */
  function SortedDay(times: Dict<string, TimeEntry>): Dict<string, TimeEntry>
    requires DistinctKeys(times) && ValuesDistinct(times)
  {
    SortByKeyValuesDistinct(times);
    SortedDistinct(SortByKey(times));
    SortValues(SortByKey(times))
  }

  /** The result after the first names of the week: a day the printout lacks is skipped. */
  function SortTable(parsed: Printout, names: seq<string>): Printout
    requires Sortable(parsed)
  {
    if |names| == 0 then []
    else
      var before := SortTable(parsed, names[..|names| - 1]);
      var name := names[|names| - 1];
      if name in Keys(parsed) then
        SortableGet(parsed, name);
        Set(before, name, SortedDay(Get(parsed, name).value))
      else before
  }

  /** `sort_time_table(parsed_solution)`. */
  method SortTimeTable(parsed: Printout) returns (result: Printout)
    requires Sortable(parsed)
    ensures result == SortTable(parsed, Models.DAY_NAMES)
  {
    result := [];
    for k := 0 to |Models.DAY_NAMES|
      invariant result == SortTable(parsed, Models.DAY_NAMES[..k])
    {
      assert Models.DAY_NAMES[..k + 1][..k] == Models.DAY_NAMES[..k];
      var dayName := Models.DAY_NAMES[k];
      if dayName in Keys(parsed) {
        SortableGet(parsed, dayName);
        var times := Get(parsed, dayName).value;
        SortByKeyValuesDistinct(times);
        SortedDistinct(SortByKey(times));
        var sortedTimeslots := SortEachValue(SortByKey(times));
        result := Set(result, dayName, sortedTimeslots);
      }
    }
    assert Models.DAY_NAMES[..|Models.DAY_NAMES|] == Models.DAY_NAMES;
  }

  /**
   * The result holds exactly the days of `names` that the printout has, in the order of
   * `names`, when no name is listed twice.
   */
  lemma {:induction false} SortTableKeys(parsed: Printout, names: seq<string>)
    requires Sortable(parsed)
    requires forall i, j :: 0 <= i < j < |names| ==> names[i] != names[j]
    ensures Keys(SortTable(parsed, names)) == Collections.Filter(names, (n: string) => n in Keys(parsed))
  {
    if |names| > 0 {
      var front, name := names[..|names| - 1], names[|names| - 1];
      SortTableKeys(parsed, front);
      if name in Keys(parsed) {
        SortableGet(parsed, name);
        var before := SortTable(parsed, front);
        SetKeys(before, name, SortedDay(Get(parsed, name).value));
        assert name !in front;
      }
    }
  }

  /** `sort_time_table` keeps exactly the days of the week the printout has, Monday first. */
  lemma SortTimeTableDays(parsed: Printout)
    requires Sortable(parsed)
    ensures Keys(SortTable(parsed, Models.DAY_NAMES)) == Collections.Filter(Models.DAY_NAMES, (n: string) => n in Keys(parsed))
  {
    Models.DayTables();
    SortTableKeys(parsed, Models.DAY_NAMES);
  }

  /** A day of the week keeps its time table, sorted; anything else is dropped. */
  lemma {:induction false} SortTableLookup(parsed: Printout, names: seq<string>, name: string)
    requires Sortable(parsed)
    ensures name in names && name in Keys(parsed) ==>
      (DistinctKeys(Get(parsed, name).value) && ValuesDistinct(Get(parsed, name).value) &&
       Get(SortTable(parsed, names), name) == Some(SortedDay(Get(parsed, name).value)))
    ensures !(name in names && name in Keys(parsed)) ==> Get(SortTable(parsed, names), name) == None
  {
    if name in Keys(parsed) {
      SortableGet(parsed, name);
    }
    if |names| > 0 {
      var front, last := names[..|names| - 1], names[|names| - 1];
      SortTableLookup(parsed, front, name);
      assert names == front + [last];
      if last in Keys(parsed) {
        SortableGet(parsed, last);
        SetLookup(SortTable(parsed, front), last, SortedDay(Get(parsed, last).value), name);
      }
    }
  }

  /**
   * A sorted day lists its time slots in ascending order, each with its events in ascending
   * order, and every time slot and event keeps what it had.
   */
  lemma SortedDayFacts(times: Dict<string, TimeEntry>, time: string, event: string)
    requires DistinctKeys(times) && ValuesDistinct(times)
    ensures SortedByKey(SortedDay(times))
    ensures forall e :: e in SortedDay(times) ==> SortedByKey(e.1)
    ensures Keys(SortedDay(times)) == Keys(SortByKey(times))
    ensures time in Keys(SortedDay(times)) <==> time in Keys(times)
    ensures time in Keys(times) ==>
      Get(Get(SortedDay(times), time).value, event) == Get(Get(times, time).value, event)
  {
    var sorted := SortByKey(times);
    SortByKeyValuesDistinct(times);
    SortedDistinct(sorted);
    SortValuesFacts(sorted, time, event);
    SortByKeyLookups(times, time);
    var r := SortedDay(times);
    assert Keys(r) == Keys(sorted);
    forall i, j | 0 <= i < j < |r| ensures Strings.Less(r[i].0, r[j].0) {
      assert r[i].0 == Keys(r)[i] == sorted[i].0 && r[j].0 == Keys(r)[j] == sorted[j].0;
    }
  }

  // ---------------------------------------------------------------------------------------------
  // `separate_time_tables`

  /** Courses of one event in one room: abbreviation to the semesters taking part. */
  type Courses = Dict<string, seq<int>>

  /** One visit of the innermost loop: a semester of a course attending an event. */
  datatype Path = Path(day: string, time: string, lecture: string, room: string, course: string, semester: int)

  predicate InCourses(courses: Courses, p: Path)
  {
    exists i :: 0 <= i < |courses| && courses[i].0 == p.course && p.semester in courses[i].1
  }

  predicate InRooms(rooms: Dict<string, Courses>, p: Path)
  {
    exists i :: 0 <= i < |rooms| && rooms[i].0 == p.room && InCourses(rooms[i].1, p)
  }

  predicate InLectures(lectures: TimeEntry, p: Path)
  {
    exists i :: 0 <= i < |lectures| && lectures[i].0 == p.lecture && InRooms(lectures[i].1, p)
  }

  predicate InTimes(times: Dict<string, TimeEntry>, p: Path)
  {
    exists i :: 0 <= i < |times| && times[i].0 == p.time && InLectures(times[i].1, p)
  }

  /** The time table lists course `p.course` of semester `p.semester` at the event, room, time and day of `p`. */
  predicate Listed(table: Printout, p: Path)
  {
    exists i :: 0 <= i < |table| && table[i].0 == p.day && InTimes(table[i].1, p)
  }

  /** `for semester in semesters`. */
  function SemesterPaths(day: string, time: string, lecture: string, room: string, course: string, semesters: seq<int>): (r: seq<Path>)
    ensures forall p :: p in r <==>
      p.day == day && p.time == time && p.lecture == lecture && p.room == room && p.course == course &&
      p.semester in semesters
  {
    var r := seq(|semesters|, i requires 0 <= i < |semesters| => Path(day, time, lecture, room, course, semesters[i]));
    assert forall i :: 0 <= i < |semesters| ==> r[i] == Path(day, time, lecture, room, course, semesters[i]);
    r
  }

  /** `for course, semesters in courses.items()`. */
  function CoursePaths(day: string, time: string, lecture: string, room: string, courses: Courses): (r: seq<Path>)
    ensures forall p :: p in r <==>
      p.day == day && p.time == time && p.lecture == lecture && p.room == room && InCourses(courses, p)
  {
    Collections.FlatMap(courses, (e: (string, seq<int>)) => SemesterPaths(day, time, lecture, room, e.0, e.1))
  }

  /** `for room, courses in rooms.items()`. */
  function RoomPaths(day: string, time: string, lecture: string, rooms: Dict<string, Courses>): (r: seq<Path>)
    ensures forall p :: p in r <==> p.day == day && p.time == time && p.lecture == lecture && InRooms(rooms, p)
  {
    Collections.FlatMap(rooms, (e: (string, Courses)) => CoursePaths(day, time, lecture, e.0, e.1))
  }

  /** `for lecture, rooms in lectures.items()`. */
  function LecturePaths(day: string, time: string, lectures: TimeEntry): (r: seq<Path>)
    ensures forall p :: p in r <==> p.day == day && p.time == time && InLectures(lectures, p)
  {
    Collections.FlatMap(lectures, (e: (string, Dict<string, Courses>)) => RoomPaths(day, time, e.0, e.1))
  }

  /** `for time, lectures in times.items()`. */
  function TimePaths(day: string, times: Dict<string, TimeEntry>): (r: seq<Path>)
    ensures forall p :: p in r <==> p.day == day && InTimes(times, p)
  {
    Collections.FlatMap(times, (e: (string, TimeEntry)) => LecturePaths(day, e.0, e.1))
  }

  /** The visits of the six nested loops, in their order: exactly the listed paths. */
  function PathsOf(table: Printout): (r: seq<Path>)
    ensures forall p :: p in r <==> Listed(table, p)
  {
    Collections.FlatMap(table, (e: (string, Dict<string, TimeEntry>)) => TimePaths(e.0, e.1))
  }

  /** Semester, course, day, time and event name: where a path is filed (the semester as `str(semester)`). */
  type Key = (int, string, string, string, string)

  function KeyOf(p: Path): Key
  {
    (p.semester, p.course, p.day, p.time, p.lecture)
  }

  /** Per semester, per course, the day by day time table of events and their rooms. */
  type Separated = Dict<string, Dict<string, Dict<string, Dict<string, Dict<string, string>>>>>

  /** `separated[semester][course][day][time].get(lecture)`, `None` where a level is missing. */
  function Lookup(sep: Separated, key: Key): Option<string>
  {
    var courses := GetOrEmpty(sep, Strings.IntToString(key.0));
    var days := GetOrEmpty(courses, key.1);
    var times := GetOrEmpty(days, key.2);
    Get(GetOrEmpty(times, key.3), key.4)
  }

  /** The body of the innermost loop: each level is created when missing; a filed event keeps its room. */
  function FileLecture(sep: Separated, p: Path): Separated
  {
    var semester := Strings.IntToString(p.semester);
    var courses := GetOrEmpty(sep, semester);
    var days := GetOrEmpty(courses, p.course);
    var times := GetOrEmpty(days, p.day);
    var lectures := GetOrEmpty(times, p.time);
    var lectures' := if p.lecture in Keys(lectures) then lectures else Set(lectures, p.lecture, p.room);
    Set(sep, semester, Set(courses, p.course, Set(days, p.day, Set(times, p.time, lectures'))))
  }

  /** Filing a path sets its key when that key is still free, and changes no other key. */
  lemma FileLectureLookup(sep: Separated, p: Path, key: Key)
    ensures Lookup(FileLecture(sep, p), key) ==
      if key == KeyOf(p) && Lookup(sep, key).None? then Some(p.room) else Lookup(sep, key)
  {
    var semester := Strings.IntToString(p.semester);
    var courses := GetOrEmpty(sep, semester);
    var days := GetOrEmpty(courses, p.course);
    var times := GetOrEmpty(days, p.day);
    var lectures := GetOrEmpty(times, p.time);
    var lectures' := if p.lecture in Keys(lectures) then lectures else Set(lectures, p.lecture, p.room);
    var times' := Set(times, p.time, lectures');
    var days' := Set(days, p.day, times');
    var courses' := Set(courses, p.course, days');
    Strings.ParseIntToString(p.semester);
    Strings.ParseIntToString(key.0);
    GetOrEmptySet(sep, semester, courses', Strings.IntToString(key.0));
    GetOrEmptySet(courses, p.course, days', key.1);
    GetOrEmptySet(days, p.day, times', key.2);
    GetOrEmptySet(times, p.time, lectures', key.3);
    if p.lecture !in Keys(lectures) {
      SetLookup(lectures, p.lecture, p.room, key.4);
    }
  }

  /** The loop over the paths, from the end: the result after the first `|paths|` visits. */
  function SeparateFor(paths: seq<Path>): Separated
  {
    if |paths| == 0 then [] else FileLecture(SeparateFor(paths[..|paths| - 1]), paths[|paths| - 1])
  }

  /** Filing the last path leaves a key that is already filed alone. */
  lemma SeparateKeep(paths: seq<Path>, key: Key)
    requires |paths| > 0 && Lookup(SeparateFor(paths[..|paths| - 1]), key).Some?
    ensures Lookup(SeparateFor(paths), key) == Lookup(SeparateFor(paths[..|paths| - 1]), key)
  {
    FileLectureLookup(SeparateFor(paths[..|paths| - 1]), paths[|paths| - 1], key);
  }

  /** Filing the last path files its own key when that key is still free, and no other key. */
  lemma SeparateLast(paths: seq<Path>, key: Key)
    requires |paths| > 0 && Lookup(SeparateFor(paths[..|paths| - 1]), key).None?
    ensures Lookup(SeparateFor(paths), key) ==
      if key == KeyOf(paths[|paths| - 1]) then Some(paths[|paths| - 1].room) else None
  {
    FileLectureLookup(SeparateFor(paths[..|paths| - 1]), paths[|paths| - 1], key);
  }

  /** A key no path has is not filed. */
  lemma {:induction false} SeparateAbsent(paths: seq<Path>, key: Key)
    requires forall j :: 0 <= j < |paths| ==> KeyOf(paths[j]) != key
    ensures Lookup(SeparateFor(paths), key) == None
  {
    if |paths| > 0 {
      var front := paths[..|paths| - 1];
      assert forall j :: 0 <= j < |front| ==> front[j] == paths[j];
      SeparateAbsent(front, key);
      SeparateLast(paths, key);
    }
  }

  /** The last path files its key when no earlier path has it. */
  lemma SeparateFirstIsLast(paths: seq<Path>, key: Key)
    requires |paths| > 0 && KeyOf(paths[|paths| - 1]) == key
    requires forall j :: 0 <= j < |paths| - 1 ==> KeyOf(paths[j]) != key
    ensures Lookup(SeparateFor(paths), key) == Some(paths[|paths| - 1].room)
  {
    var front := paths[..|paths| - 1];
    assert forall j :: 0 <= j < |front| ==> front[j] == paths[j];
    SeparateAbsent(front, key);
    SeparateLast(paths, key);
  }

  /**
   * A filed key holds the room of the FIRST path that has it:
   * a later path of the same semester, course, day, time and event leaves it alone.
   */
  lemma {:induction false} SeparateFirst(paths: seq<Path>, key: Key, i: nat)
    requires i < |paths| && KeyOf(paths[i]) == key
    requires forall j :: 0 <= j < i ==> KeyOf(paths[j]) != key
    ensures Lookup(SeparateFor(paths), key) == Some(paths[i].room)
  {
    if i < |paths| - 1 {
      var front := paths[..|paths| - 1];
      assert front[i] == paths[i];
      assert forall j :: 0 <= j < i ==> front[j] == paths[j];
      SeparateFirst(front, key, i);
      SeparateKeep(paths, key);
    } else {
      SeparateFirstIsLast(paths, key);
    }
  }

  /** The first path that has `key`, when there is one. */
  lemma FirstWithKey(paths: seq<Path>, key: Key) returns (i: nat)
    requires exists j :: 0 <= j < |paths| && KeyOf(paths[j]) == key
    ensures i < |paths| && KeyOf(paths[i]) == key
    ensures forall j :: 0 <= j < i ==> KeyOf(paths[j]) != key
  {
    i := 0;
    while KeyOf(paths[i]) != key
      invariant i < |paths|
      invariant forall j :: 0 <= j < i ==> KeyOf(paths[j]) != key
      invariant exists j :: i <= j < |paths| && KeyOf(paths[j]) == key
      decreases |paths| - i
    {
      i := i + 1;
    }
  }

  /** A key is filed exactly when some path has it. */
  lemma SeparateFiled(paths: seq<Path>, key: Key)
    ensures Lookup(SeparateFor(paths), key).Some? <==> exists j :: 0 <= j < |paths| && KeyOf(paths[j]) == key
  {
    if exists j :: 0 <= j < |paths| && KeyOf(paths[j]) == key {
      var i := FirstWithKey(paths, key);
      SeparateFirst(paths, key, i);
    } else {
      SeparateAbsent(paths, key);
    }
  }

  /** The two levels that get sorted are real dictionaries. */
  predicate TwoLevelsDistinct(sep: Separated)
  {
    DistinctKeys(sep) && ValuesDistinct(sep)
  }

  lemma FileLectureDistinct(sep: Separated, p: Path)
    requires TwoLevelsDistinct(sep)
    ensures TwoLevelsDistinct(FileLecture(sep, p))
  {
    var semester := Strings.IntToString(p.semester);
    var courses := GetOrEmpty(sep, semester);
    if semester in Keys(sep) {
      GetIn(sep, semester);
    }
    assert DistinctKeys(courses);
    var days := GetOrEmpty(courses, p.course);
    var times := GetOrEmpty(days, p.day);
    var lectures := GetOrEmpty(times, p.time);
    var lectures' := if p.lecture in Keys(lectures) then lectures else Set(lectures, p.lecture, p.room);
    var courses' := Set(courses, p.course, Set(days, p.day, Set(times, p.time, lectures')));
    SetDistinct(courses, p.course, Set(days, p.day, Set(times, p.time, lectures')));
    SetDistinct(sep, semester, courses');
    forall e | e in Set(sep, semester, courses') ensures DistinctKeys(e.1) {
      SetEntries(sep, semester, courses', e);
    }
  }

  lemma {:induction false} SeparateDistinct(paths: seq<Path>)
    ensures TwoLevelsDistinct(SeparateFor(paths))
  {
    if |paths| > 0 {
      SeparateDistinct(paths[..|paths| - 1]);
      FileLectureDistinct(SeparateFor(paths[..|paths| - 1]), paths[|paths| - 1]);
    }
  }

  /** `separate_time_tables(sorted_time_table)`: semesters, and per semester courses, in ascending order. */
  function SeparatedTables(table: Printout): Separated
  {
    var sep := SeparateFor(PathsOf(table));
    SeparateDistinct(PathsOf(table));
    SortByKeyValuesDistinct(sep);
    SortedDistinct(SortByKey(sep));
    SortValues(SortByKey(sep))
  }

  /** One more visit files one more path. */
  lemma SeparateForStep(paths: seq<Path>, k: nat)
    requires k < |paths|
    ensures SeparateFor(paths[..k + 1]) == FileLecture(SeparateFor(paths[..k]), paths[k])
  {
    assert paths[..k + 1][..k] == paths[..k];
  }

  /** `separate_time_tables`: the six nested loops, as one loop over their visits, then the sorting. */
  method SeparateTimeTables(table: Printout) returns (result: Separated)
    ensures result == SeparatedTables(table)
  {
    var paths := PathsOf(table);
    var sep: Separated := [];
    for k := 0 to |paths|
      invariant sep == SeparateFor(paths[..k])
    {
      SeparateForStep(paths, k);
      ghost var before := sep;
      var p := paths[k];
      var semester := Strings.IntToString(p.semester);
      var courses := GetOrEmpty(sep, semester);
      var days := GetOrEmpty(courses, p.course);
      var times := GetOrEmpty(days, p.day);
      var lectures := GetOrEmpty(times, p.time);
      if p.lecture !in Keys(lectures) {
        lectures := Set(lectures, p.lecture, p.room);
      }
      times := Set(times, p.time, lectures);
      days := Set(days, p.day, times);
      courses := Set(courses, p.course, days);
      sep := Set(sep, semester, courses);
      assert sep == FileLecture(before, p);
    }
    assert paths[..|paths|] == paths;
    SeparateDistinct(paths);
    SortByKeyValuesDistinct(sep);
    SortedDistinct(SortByKey(sep));
    result := SortEachValue(SortByKey(sep));
  }

  /**
   * The separated tables list their semesters in ascending order and, per semester, their
   * courses in ascending order; an event is filed under a semester, course, day and time exactly
   * when the time table lists it there, and it keeps the room of its first listing.
   */
  lemma SeparatedTablesFacts(table: Printout, key: Key, i: nat)
    ensures SortedByKey(SeparatedTables(table))
    ensures forall e :: e in SeparatedTables(table) ==> SortedByKey(e.1)
    ensures Lookup(SeparatedTables(table), key).Some? <==> exists p :: Listed(table, p) && KeyOf(p) == key
    ensures var paths := PathsOf(table);
      i < |paths| && KeyOf(paths[i]) == key && (forall j :: 0 <= j < i ==> KeyOf(paths[j]) != key) ==>
      Lookup(SeparatedTables(table), key) == Some(paths[i].room)
  {
    var paths := PathsOf(table);
    var sep := SeparateFor(paths);
    SeparateDistinct(paths);
    var sorted := SortByKey(sep);
    SortByKeyValuesDistinct(sep);
    SortedDistinct(sorted);
    var r := SortValues(sorted);
    assert r == SeparatedTables(table);
    var semester := Strings.IntToString(key.0);
    SortValuesFacts(sorted, semester, key.1);
    SortByKeyLookups(sep, semester);
    if semester in Keys(sep) {
      GetIn(sep, semester);
    }
    assert GetOrEmpty(GetOrEmpty(r, semester), key.1) == GetOrEmpty(GetOrEmpty(sep, semester), key.1);
    assert Lookup(r, key) == Lookup(sep, key);
    forall i, j | 0 <= i < j < |r| ensures Strings.Less(r[i].0, r[j].0) {
      assert r[i].0 == Keys(r)[i] == sorted[i].0 && r[j].0 == Keys(r)[j] == sorted[j].0;
    }
    if i < |paths| && KeyOf(paths[i]) == key && (forall j :: 0 <= j < i ==> KeyOf(paths[j]) != key) {
      SeparateFirst(paths, key, i);
    }
    SeparateFiled(paths, key);
    if Lookup(sep, key).Some? {
      var j :| 0 <= j < |paths| && KeyOf(paths[j]) == key;
      assert paths[j] in paths;
    }
  }
}
