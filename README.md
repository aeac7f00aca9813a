# Stundenplan timetabling core in Dafny

This project models the core of the Stundenplan university timetabler. It reads events,
employees, rooms, courses and their links from an Excel workbook and stores them in a database.
Each lesson of a term is one gene, and a gene is an index into the table of every (date, room)
pair. A penalty-scoring fitness function grades a candidate timetable. The best timetable is then
turned into a nested day → time → event → room → course → semesters dictionary, sorted, and split
per semester and course.

The modules follow the program's structure:

| module | file | what it models |
|---|---|---|
| `Wrappers` | wrappers.dfy | `Option` / `Result`: an exception is an `Err` value |
| `Strings` | strings.dfy | `str.split`, `"sep".join`, `int()`, `str(int)`, `f"{n:02}"`, code-point string order |
| `Collections` | collections.dfy | list comprehensions: repetition, products, filters, flattening, and a loop that stops at its first error |
| `Dicts` | dicts.dfy | Python's insertion-ordered `dict` as an association list; `d[k] = v`, `d.get`, comprehensions, `sorted(d.items())` |
| `TimeUtils` | time_utils.dfy | `utils/time_utils.py` |
| `Patterns` | patterns.dfy | the three `re.match` abbreviation patterns of the validators |
| `Models` | models.dfy | `api/models/*`: day and term tables, value bounds, and the `__post_init__` guards |
| `Dtos` | dtos.dfy | `db/dto/*`: the DTO guards |
| `Api` | api.dfy | `api/api.py`: the id dictionaries, `get_dates_by_id`, `get_employee_dislikes_date` and the `get_events_by_id` join |
| `ExcelParser` | excel_parser.dfy | `excel_parser.py`: `_insert_dates`, `_parse_events`, `_parse_employee_dislikes_date` |
| `GeneticAlgorithm` | genetic_algorithm.dfy | `genetic_algorithm.py`: `prepare` and `fitness_function` |
| `SolutionPrint` | solution_print.dfy | `genetic_algorithm.py`: `parse_pygad_solution_for_print`, with its unique-name loop |
| `TimeTables` | time_tables.dfy | `main.py`: `sort_time_table` and `separate_time_tables` |

## How the model is written

**Validators.** Each `__post_init__` that raises `ValueError` is a constructor function.
- It returns `Result<T, Reason>`.
- The `Reason` names the guard that failed first.
- Its contract states both directions of "accepted exactly when", and which error each failing guard gives, in the order the source checks them.

**Dictionaries.** A Python `dict` is `Dict<K, V> = seq<(K, V)>`.
- `Set` replaces the value of a present key where it stands, and appends a new key.
- `FromPairs` is a dict comprehension: a key sits at its first position and holds its last value.
- A `KeyError` from `d[k]` is an `Err` naming the missing key.

**Loops.** The source's imperative parts are methods with loops, and each is proved equal to a specification function.
- The methods are `fitness_function`, the unique-name `while` loop, the printout loop, the `get_events_by_id` loops, the `_parse_events` and `_parse_employee_dislikes_date` loops, `sort_time_table` and `separate_time_tables`.
- Each specification function is defined from the end of its input. The properties are lemmas about those functions.
- A loop that can raise is specified by `Collections.MapResult`: either there is an `Ok` for every element, or the error of the first failing one.

**Nested dictionaries.** A nested dictionary the source changes in place (`result[day][time][name] = …`) is read level by level and written back level by level, as values.

**Where the docstrings and the code disagree, the model follows the code.**
- `Event` accepts `weekly_blocks == 0`, although its documentation says "positive".

**Modelled as written.** The `Disallowed Days` cell of `_parse_events` has no guard for an empty cell, unlike `Employees` and `Participants`. `""` is then looked up as a day abbreviation and raises `KeyError` (`ExcelParser.EmptyDisallowedDaysRaises`).

## Model

| member | source | states |
|---|---|---|
| TimeUtils.MaxMinutesPerDay | swp_stundenplan/src/python/utils/time_utils.py:15-18 | the last minute of a day is (24 - 1) · 60 + (60 - 1) = 23 · 60 + 59 = 1439 |
| TimeUtils.TimeToMinutes | swp_stundenplan/src/python/utils/time_utils.py:21-33 | a valid time gives a minute count in 0..1439 whose remainder mod 60 is the minute |
| TimeUtils.TimeToMinutesIgnoresSeconds | swp_stundenplan/src/python/utils/time_utils.py:24-25 | seconds and microseconds do not change the stored minute count |
| TimeUtils.MinutesToTime | swp_stundenplan/src/python/utils/time_utils.py:36-55 | `ValueError` exactly when m < 0 or m > 1439; otherwise a valid whole-minute time that converts back to m |
| TimeUtils.HourMinuteOfDay | swp_stundenplan/src/python/utils/time_utils.py:54-55 | `divmod(m, 60)` gives a valid time whose hour · 60 + minute is m |
| TimeUtils.MinutesRoundTrip | swp_stundenplan/src/python/utils/time_utils.py:33-55 | for 0 ≤ m ≤ 1439, `time_to_minutes(minutes_to_time(m)) == m` (the database's adapter/converter round trip) |
| TimeUtils.TimeRoundTrip | swp_stundenplan/src/python/db/database.py:157-158 | reading back a stored valid time gives the same hour and minute, with seconds and microseconds set to 0 |
| TimeUtils.TimeLessMinutes | swp_stundenplan/src/python/utils/time_utils.py:33 | for whole-minute valid times, the `time` order agrees with the order of the stored minute counts |
| TimeUtils.DurationOf | swp_stundenplan/src/python/utils/time_utils.py:67-68 | hours · 3600 + minutes · 60 + seconds = s, with minutes and seconds below 60 |
| TimeUtils.FormattedDurationFields | swp_stundenplan/src/python/utils/time_utils.py:69 | the output splits on ":" into exactly three all-digit fields of at least two digits; the last two have exactly two digits; their decimal values spell out s |
| Patterns.LeadingRun | swp_stundenplan/src/python/api/models/employee.py:35 | the longest prefix of characters of the class: all of them are in the class, and the next character is not |
| Patterns.Match | swp_stundenplan/src/python/api/models/room.py:34 | `re.match` succeeds exactly when the first character is in the pattern's first class, and the match has length 1..\|s\| |
| Patterns.MatchSpan | swp_stundenplan/src/python/api/models/room.py:34 | the match is a maximal run of the first class, followed for `[A-Z]+\d*` by a maximal run of ASCII digits |
| Patterns.MatchIgnoresSuffix | swp_stundenplan/src/python/api/models/course.py:29 | only the first character decides a match; appending anything keeps it |
| Patterns.EmployeeAbbreviationExamples | swp_stundenplan/src/python/api/models/employee.py:35-39 | "ABc" passes `[A-Z]+` with a 2-character match; "aB" and "" fail |
| Patterns.RoomAbbreviationExamples | swp_stundenplan/src/python/api/models/room.py:34-38 | "HS07x" passes `[A-Z]+\d*` with a 4-character match; "7A" fails |
| Patterns.CourseAbbreviationExamples | swp_stundenplan/src/python/api/models/course.py:29-33 | "_X" and "B_INF" pass `[A-Z_]+`; "b_INF" fails |
| Models.DayTables | swp_stundenplan/src/python/api/models/day.py:5-17 | `ABBREVIATIONS` and `NAMES` have 7 distinct entries each, and no abbreviation is empty |
| Models.NewDay | swp_stundenplan/src/python/api/models/day.py:33-46 | accepted exactly when the abbreviation is in `ABBREVIATIONS` and the name is in `NAMES`; the abbreviation is checked first |
| Models.MismatchedDayAccepted | swp_stundenplan/src/python/api/models/day.py:40-46 | ("MO", "Dienstag") is accepted: the two memberships are independent |
| Models.NewTerm | swp_stundenplan/src/python/api/models/term.py:4-26 | accepted exactly for "Sommer" and "Winter"; any other name, "" included, raises |
| Models.NewPriority | swp_stundenplan/src/python/api/models/priority.py:4-32 | accepted exactly for 1..100 inclusive |
| Models.NewSemester | swp_stundenplan/src/python/api/models/semester.py:4-32 | accepted exactly for 1..7 inclusive |
| Models.NewTimeSlot | swp_stundenplan/src/python/api/models/time_slot.py:21-31 | accepted exactly when start < end in `time` order; a zero-length slot is rejected |
| Models.StoredTimeSlotByMinutes | swp_stundenplan/src/python/api/models/time_slot.py:27 | for times read back from the database, the check is "start minute < end minute" |
| Models.NewRoomType | swp_stundenplan/src/python/api/models/room_type.py:17-24 | accepted exactly for a non-empty name; there is no other check |
| Models.NewEmployeeType | swp_stundenplan/src/python/api/models/employee_type.py:16-23 | accepted exactly for a non-empty name; there is no other check |
| Models.NewParticipantSize | swp_stundenplan/src/python/api/models/participant_size.py:19-31 | accepted exactly for a non-empty name and ordinal ≥ 0; the name is checked before the ordinal |
| Models.Compare | swp_stundenplan/src/python/api/models/participant_size.py:32-131 | every comparison raises `TypeError` exactly when the other operand is not a size; `==` and `<` compare ordinals |
| Models.ComparisonsAgree | swp_stundenplan/src/python/api/models/participant_size.py:49-131 | `!=` negates `==`; `<=` is `<` or `==`; `>` and `>=` are the mirrored `<` and `<=` |
| Models.Trichotomy | swp_stundenplan/src/python/api/models/participant_size.py:79-131 | exactly one of `<`, `==`, `>` holds for two sizes |
| Models.NamesIgnored | swp_stundenplan/src/python/api/models/participant_size.py:45-46 | names play no part in any comparison; equal ordinals compare equal |
| Models.LessTransitive | swp_stundenplan/src/python/api/models/participant_size.py:79-80 | `<` on sizes is transitive |
| Models.NewEvent | swp_stundenplan/src/python/api/models/event.py:37-49 | accepted exactly for a non-empty name and weekly_blocks ≥ 0 (0 included), the name checked first; the other fields are not checked |
| Models.NewEmployee | swp_stundenplan/src/python/api/models/employee.py:28-43 | accepted exactly when the abbreviation starts with A-Z and both names are non-empty, in that order; the title is not checked |
| Models.NewRoom | swp_stundenplan/src/python/api/models/room.py:28-40 | accepted exactly when the abbreviation starts with A-Z and the name is non-empty, abbreviation first |
| Models.NewCourse | swp_stundenplan/src/python/api/models/course.py:22-35 | accepted exactly when the abbreviation starts with A-Z or "_" and the name is non-empty, abbreviation first |
| Dtos.NewDayDto | swp_stundenplan/src/python/db/dto/day_dto.py:29-39 | accepted exactly for id ≥ 0, a known abbreviation and a known name, checked in that order |
| Dtos.NewTermDto | swp_stundenplan/src/python/db/dto/term_dto.py:26-31 | accepted exactly for id ≥ 0 and "Sommer" or "Winter", id first |
| Dtos.NewPriorityDto | swp_stundenplan/src/python/db/dto/priority_dto.py:26-32 | accepted exactly for id ≥ 0 and a value in 1..100, id first |
| Dtos.NewSemesterDto | swp_stundenplan/src/python/db/dto/semester_dto.py:26-32 | accepted exactly for id ≥ 0 and a value in 1..7, id first |
| Dtos.NewTimeSlotDto | swp_stundenplan/src/python/db/dto/time_slot_dto.py:29-35 | accepted exactly for id ≥ 0 and start < end, id first |
| Dtos.NewParticipantSizeDto | swp_stundenplan/src/python/db/dto/participant_size.py:26-33 | accepted exactly for id ≥ 0, a non-empty name and ordinal ≥ 0, in that order |
| Dtos.NewRoomTypeDto | swp_stundenplan/src/python/db/dto/room_type_dto.py:24-27 | accepted exactly for id ≥ 0 and a non-empty name, id first |
| Dtos.NewEmployeeTypeDto | swp_stundenplan/src/python/db/dto/employee_type_dto.py:24-27 | accepted exactly for id ≥ 0 and a non-empty name, id first |
| Dtos.NewEventDto | swp_stundenplan/src/python/db/dto/event_dto.py:34-50 | accepted exactly for id ≥ 0, a non-empty name, weekly_blocks ≥ 0, and term, size and room type ids ≥ 1; each failing guard gives its own error, in that order |
| Dtos.NewEmployeeDto | swp_stundenplan/src/python/db/dto/employee_dto.py:36-50 | accepted exactly for id ≥ 0, an A-Z first character, non-empty first and last names, and employee type id ≥ 1, in that order |
| Dtos.NewRoomDto | swp_stundenplan/src/python/db/dto/room_dto.py:34-48 | accepted exactly for id ≥ 0, an A-Z first character, a non-empty name, and size and room type ids ≥ 1 (size first) |
| Dtos.NewCourseDto | swp_stundenplan/src/python/db/dto/course_dto.py:31-39 | accepted exactly for id ≥ 0, an A-Z or "_" first character and a non-empty name, in that order |
| Dtos.NewDateDto | swp_stundenplan/src/python/db/dto/date_dto.py:27-32 | accepted exactly for id ≥ 0, day id ≥ 1 and time slot id ≥ 1, in that order |
| Dtos.NewCourseContainsEventDto | swp_stundenplan/src/python/db/dto/course_contains_event_dto.py:28-33 | accepted exactly when course, semester and event ids are all ≥ 1, checked in that order |
| Dtos.NewEmployeeDislikesDateDto | swp_stundenplan/src/python/db/dto/employee_dislikes_date_dto.py:27-32 | accepted exactly when employee, date and priority ids are all ≥ 1, checked in that order |
| Dtos.NewEmployeeHoldsEventDto | swp_stundenplan/src/python/db/dto/employee_holds_event_dto.py:25-28 | accepted exactly when both ids are ≥ 1, employee first |
| Dtos.NewEventDisallowsDayDto | swp_stundenplan/src/python/db/dto/event_disallows_day_dto.py:25-28 | accepted exactly when both ids are ≥ 1, event first |
| Dtos.AcceptedDtosConvert | swp_stundenplan/src/python/db/dto/priority_dto.py:28 | the bounds and tables are shared, so the fields of any accepted DTO pass the domain record's guards |
| Dtos.AcceptedReferringDtosConvert | swp_stundenplan/src/python/db/dto/event_dto.py:36-42 | an accepted event, employee or room DTO always gives an accepted domain record |
| Api.Converted | swp_stundenplan/src/python/api/api.py:45-48 | one (key, converted value) pair per row, in row order |
| Api.ById | swp_stundenplan/src/python/api/api.py:45-48 | a `{id: record for row in rows}` comprehension: no key twice; a key exactly for each row's id; a key holds the value of its last row; every entry comes from a row |
| Api.ByIdFacts | swp_stundenplan/src/python/api/api.py:97-100 | the comprehension is `FromPairs` of the converted rows, with the properties of `ById` |
| Api.ByIdUniqueKeys | swp_stundenplan/src/python/api/api.py:252-255 | with unique ids, the dictionary lists the rows in their order |
| Api.EmployeeDislikesDate | swp_stundenplan/src/python/api/api.py:149-155 | every dislikes row's (employee id, date id) is a key, no key twice, and each entry is (key, priority id) of some row |
| Api.ConvertedRecordsValid | swp_stundenplan/src/python/api/api.py:45-100 | the days, priorities and time slots built from accepted DTOs are valid domain records |
| Api.DatePairs | swp_stundenplan/src/python/api/api.py:79-85 | `Ok` exactly when every row's day and time slot ids are known, with one pair (id, Date(day, slot)) per row; otherwise the error names the first missing id (day before slot) |
| Api.GetDatesByIdLookup | swp_stundenplan/src/python/api/api.py:77-85 | each date id maps to the Date built from the day and time slot that its last row references |
| Api.GetDatesByIdFails | swp_stundenplan/src/python/api/api.py:81-82 | `get_dates_by_id` raises exactly when some row refers to a missing day or time slot |
| Api.RoomPairs | swp_stundenplan/src/python/api/api.py:201-209 | `Ok` exactly when every room's size and type ids are known, with one pair per row built from them; otherwise the error names the first room's missing id (size before type) |
| Api.GetRoomsById | swp_stundenplan/src/python/api/api.py:190-209 | `get_rooms_by_id` raises exactly when some room refers to a missing size or type, and then with the first room's missing id (size before type) |
| Api.GetRoomsByIdLookup | swp_stundenplan/src/python/api/api.py:201-209 | each room id maps to the Room built from its last row: abbreviation, name, and the size and type its ids name |
| Api.GetRoomsByIdKeys | swp_stundenplan/src/python/api/api.py:201-209 | a room id is a key of the result exactly when some room row has it |
| Api.EmployeeIdsFor | swp_stundenplan/src/python/api/api.py:282-286 | exactly the employee ids of the holds rows whose event id matches |
| Api.EmployeeIdsForAppend | swp_stundenplan/src/python/api/api.py:282-286 | the ids follow row order: the rows split in two give the two lists concatenated |
| Api.ParticipantsLookup | swp_stundenplan/src/python/api/api.py:287-294 | each course maps to the semester ids of its matching rows in row order; a course without a matching row is absent; other events' rows are ignored |
| Api.ParticipantsDistinct | swp_stundenplan/src/python/api/api.py:290-291 | the participants dictionary has no course twice |
| Api.ParticipantsNonEmpty | swp_stundenplan/src/python/api/api.py:290-294 | every semester list in the participants dictionary is non-empty |
| Api.DisallowedDaysFor | swp_stundenplan/src/python/api/api.py:295-298 | `Ok` exactly when every matching row's day id is known; then it gives the day of each matching row in row order |
| Api.EventOf | swp_stundenplan/src/python/api/api.py:299-308 | the joined event copies name and weekly_blocks, resolves term, size and room type through their id maps, and carries the employee ids, participants and days of its links |
| Api.EventsByIdErrorPersists | swp_stundenplan/src/python/api/api.py:281 | once an event row raises, the later rows do not change the outcome |
| Api.EventsByIdLookup | swp_stundenplan/src/python/api/api.py:279-309 | one entry per event id, no id twice, and each id holds the event joined from its last row |
| Api.CollectParticipants | swp_stundenplan/src/python/api/api.py:287-294 | the loop builds exactly `ParticipantsFor`, the dictionary whose lookups `ParticipantsLookup` describes |
| Api.CollectDisallowedDays | swp_stundenplan/src/python/api/api.py:295-298 | the loop gives exactly `DisallowedDaysFor`: the days of the matching rows, or the first `KeyError` |
| Api.DisallowedDaysErrorPersists | swp_stundenplan/src/python/api/api.py:298 | once a disallowed day is missing, later rows do not change the outcome |
| Api.GetEventsById | swp_stundenplan/src/python/api/api.py:258-309 | `get_events_by_id` computes exactly `EventsById` over the id dictionaries, whose entries `EventsByIdLookup` describes |
| GeneticAlgorithm.Lessons | swp_stundenplan/src/python/genetic_algorithm.py:46-51 | every lesson is an input event of the requested term |
| GeneticAlgorithm.LessonsAppend | swp_stundenplan/src/python/genetic_algorithm.py:46-51 | lessons keep event order: two runs of events give their lessons concatenated |
| GeneticAlgorithm.LessonsOfOne | swp_stundenplan/src/python/genetic_algorithm.py:49-50 | an event of the term is listed exactly `weekly_blocks` times; an event of the other term not at all |
| GeneticAlgorithm.DateXRoomAt | swp_stundenplan/src/python/genetic_algorithm.py:52-56 | `date_x_room` has \|dates\| · \|rooms\| entries, and pair (i, j) sits at i · \|rooms\| + j |
| GeneticAlgorithm.DislikedPairs | swp_stundenplan/src/python/genetic_algorithm.py:58-64 | `Ok` exactly when every priority id is known, with the same keys in order and each priority id replaced by its priority; otherwise the error names the first entry, in dictionary order, whose priority id is unknown |
| GeneticAlgorithm.DislikedPrioritiesLookup | swp_stundenplan/src/python/genetic_algorithm.py:58-64 | the dislikes dictionary keeps its keys, and each key maps to the priority its id names |
| GeneticAlgorithm.Prepare | swp_stundenplan/src/python/genetic_algorithm.py:46-65 | `prepare` fails exactly when a priority id is missing, naming the first; otherwise it returns the lessons of the term, the full date × room product (`DateXRoom`, laid out as `DateXRoomAt` states) and the resolved priorities (`DislikedPriorities`, looked up as `DislikedPrioritiesLookup` states) |
| GeneticAlgorithm.Scored | swp_stundenplan/src/python/genetic_algorithm.py:95 | `zip` stops at the shorter of lessons and solution |
| GeneticAlgorithm.Fitness | swp_stundenplan/src/python/genetic_algorithm.py:89-126 | `fitness_function` returns exactly the negated `TotalPenalty`, the sum `RunTally` and `FitnessZeroIff` describe |
| GeneticAlgorithm.ScoreLesson | swp_stundenplan/src/python/genetic_algorithm.py:96-125 | the loop body computes exactly `LessonStep`, the step `LessonStepTally` accounts for |
| GeneticAlgorithm.BookEmployees | swp_stundenplan/src/python/genetic_algorithm.py:100-109 | the employee loop computes exactly `EmployeeStep`, the step `EmployeeStepTally` accounts for |
| GeneticAlgorithm.SeatStudents | swp_stundenplan/src/python/genetic_algorithm.py:116-125 | the student loop computes exactly `StudentStep`, the step `StudentStepTally` accounts for |
| GeneticAlgorithm.ParticipantPairs | swp_stundenplan/src/python/genetic_algorithm.py:117-121 | (c, s) is a pair exactly when s is among the semesters of some entry of course c |
| GeneticAlgorithm.DislikeSumSign | swp_stundenplan/src/python/genetic_algorithm.py:106-109 | with priorities ≥ 1, the dislike penalties sum to ≥ 0, and to 0 exactly when no key is disliked |
| GeneticAlgorithm.EmployeeStepTally | swp_stundenplan/src/python/genetic_algorithm.py:100-109 | the employee loop adds 100 per new repeat of an (employee, date) key plus the priorities of the disliked keys it books; the set becomes the keys seen |
| GeneticAlgorithm.StudentStepTally | swp_stundenplan/src/python/genetic_algorithm.py:116-125 | the student loop adds 100 per new repeat of a (date, course, semester) key; the set becomes the keys seen |
| GeneticAlgorithm.LessonStepTally | swp_stundenplan/src/python/genetic_algorithm.py:96-125 | a lesson adds 100 for each rule it breaks (a disallowed day, a too small room, a wrong room type: independent), plus its new repeats and its dislikes |
| GeneticAlgorithm.RunTally | swp_stundenplan/src/python/genetic_algorithm.py:92-125 | after n lessons the running penalty is the sum of the penalty terms, and the two sets hold exactly the keys seen |
| GeneticAlgorithm.RepeatedKeysCost | swp_stundenplan/src/python/genetic_algorithm.py:103-105 | the repeats of a key list are entries minus distinct keys, so a key seen k times costs 100 · (k − 1) |
| GeneticAlgorithm.LessonViolationsZero | swp_stundenplan/src/python/genetic_algorithm.py:98-115 | no lesson breaks a per-lesson rule exactly when the count of violations is 0 |
| GeneticAlgorithm.FitnessZeroIff | swp_stundenplan/src/python/genetic_algorithm.py:71-72 | the fitness is ≤ 0, and it is 0 exactly when no penalty term fires |
| GeneticAlgorithm.ExtraGenesIgnored | swp_stundenplan/src/python/genetic_algorithm.py:95 | genes past the last lesson are never looked at |
| SolutionPrint.Clock | swp_stundenplan/src/python/genetic_algorithm.py:199 | `strftime("%H:%M")` of a valid time has 5 characters, with ":" in the middle |
| SolutionPrint.ClockFields | swp_stundenplan/src/python/genetic_algorithm.py:199 | the two fields around the ":" are all digits, and their decimal values are the hour and the minute |
| SolutionPrint.ClockInjective | swp_stundenplan/src/python/genetic_algorithm.py:199 | the clock label determines the hour and the minute |
| SolutionPrint.TimeLabel | swp_stundenplan/src/python/genetic_algorithm.py:198-202 | the time label "HH:MM - HH:MM" has 13 characters |
| SolutionPrint.TimeLabelInjective | swp_stundenplan/src/python/genetic_algorithm.py:198-202 | two time slots share a label exactly when start and end agree in hour and minute |
| SolutionPrint.CandidateInjective | swp_stundenplan/src/python/genetic_algorithm.py:208-212 | the suffix loop never tries a name twice |
| SolutionPrint.Tried | swp_stundenplan/src/python/genetic_algorithm.py:210-212 | the names tried before the c-th include every earlier candidate |
| SolutionPrint.TriedOnlyCandidates | swp_stundenplan/src/python/genetic_algorithm.py:210-212 | only candidates are tried |
| SolutionPrint.TriedCard | swp_stundenplan/src/python/genetic_algorithm.py:210-212 | the first c candidates are c distinct names |
| SolutionPrint.TriedTaken | swp_stundenplan/src/python/genetic_algorithm.py:210 | candidates found taken are keys of the entry |
| SolutionPrint.AllTakenBound | swp_stundenplan/src/python/genetic_algorithm.py:210 | at most \|entry\| candidates can be taken, so the loop ends |
| SolutionPrint.FirstFreeFrom | swp_stundenplan/src/python/genetic_algorithm.py:210-212 | searching from k finds a free candidate within \|entry\| steps, and every one before it is taken |
| SolutionPrint.FirstFree | swp_stundenplan/src/python/genetic_algorithm.py:208-212 | the suffix chosen is free and every earlier candidate is taken |
| SolutionPrint.FirstFreeUnique | swp_stundenplan/src/python/genetic_algorithm.py:208-212 | that suffix is the only one with those two properties |
| SolutionPrint.UniqueName | swp_stundenplan/src/python/genetic_algorithm.py:208-212 | the `while` loop ends on the first free candidate, " (1)", " (2)", …, which is not a key |
| SolutionPrint.SemesterValues | swp_stundenplan/src/python/genetic_algorithm.py:216 | `Ok` exactly when every semester id is known, giving their values in order |
| SolutionPrint.ParticipantsPairs | swp_stundenplan/src/python/genetic_algorithm.py:214-219 | `Ok` exactly when every course and semester id is known, one pair per participant entry: its course abbreviation and semester values |
| SolutionPrint.ParticipantsLabelLookup | swp_stundenplan/src/python/genetic_algorithm.py:214-219 | each abbreviation appears once and lists the semester values of the last entry whose course has it |
| SolutionPrint.AddLessonAppends | swp_stundenplan/src/python/genetic_algorithm.py:204-214 | adding a lesson appends exactly one entry under its day and time, under the first free name; no existing entry and no other day or time changes |
| SolutionPrint.PrintoutForStep | swp_stundenplan/src/python/genetic_algorithm.py:194-219 | one more gene adds its lesson under its day name and time label, or raises the participants' `KeyError` |
| SolutionPrint.ParseSolutionForPrint | swp_stundenplan/src/python/genetic_algorithm.py:191-220 | the loop computes exactly `PrintoutFor` of all genes, the printout `PrintoutForStep` and `PrintoutNamesDistinct` describe |
| SolutionPrint.FileLesson | swp_stundenplan/src/python/genetic_algorithm.py:204-214 | the setdefaults, the suffix loop and the two assignments give exactly `AddLesson` |
| SolutionPrint.PrintoutErrorPersists | swp_stundenplan/src/python/genetic_algorithm.py:215-216 | once a gene raises, later genes do not change the outcome |
| SolutionPrint.PrintoutNamesDistinct | swp_stundenplan/src/python/genetic_algorithm.py:208-213 | however many lessons share a day and time, each gets its own name there |
| ExcelParser.Checked | swp_stundenplan/src/python/excel_parser.py:352-363 | a DTO's `ValueError` passes through unchanged; an accepted DTO is kept |
| ExcelParser.Integer | swp_stundenplan/src/python/excel_parser.py:381 | `int(text)` succeeds exactly on a signed decimal, with its value; otherwise the error names the text |
| ExcelParser.IdOf | swp_stundenplan/src/python/excel_parser.py:357 | `table[key].id` succeeds exactly for a known key; otherwise the error names the table and key |
| ExcelParser.IdOfValue | swp_stundenplan/src/python/excel_parser.py:388 | the same for the tables keyed by a semester or priority value |
| ExcelParser.InsertDatesAccepted | swp_stundenplan/src/python/excel_parser.py:103-107 | the dates are accepted exactly when either list is empty (nothing to check) or every day id and every time-slot id is ≥ 1 |
| ExcelParser.InsertDatesAt | swp_stundenplan/src/python/excel_parser.py:103-107 | one date per (day, time slot), days outer and slots inner: \|days\| · \|slots\| entries, pair (i, j) at i · \|slots\| + j |
| ExcelParser.ParseEvents | swp_stundenplan/src/python/excel_parser.py:349-397 | the loop gives exactly `EventsRecords`: the records of every row in row order, or the first error |
| ExcelParser.EventsErrorPersists | swp_stundenplan/src/python/excel_parser.py:349 | once a row raises, later rows are never parsed |
| ExcelParser.ParseEventRow | swp_stundenplan/src/python/excel_parser.py:351-397 | the loop body gives exactly one row's records |
| ExcelParser.CollectAll | swp_stundenplan/src/python/excel_parser.py:367-373 | a `for piece in pieces: append(…)` loop gives one record per piece, or the first error |
| ExcelParser.CollectParticipants | swp_stundenplan/src/python/excel_parser.py:377-382 | for a non-empty cell, the participants loop builds exactly `ParticipantsOf`, the dictionary in which the last piece of a course wins |
| ExcelParser.CollectContains | swp_stundenplan/src/python/excel_parser.py:383-391 | the nested contains loops give exactly `ContainsOf`: one record per (course, semester) pair, or the first `KeyError` |
| ExcelParser.CollectCourse | swp_stundenplan/src/python/excel_parser.py:384-391 | the inner loop gives one record per semester of one course |
| ExcelParser.ExpandErrorPersists | swp_stundenplan/src/python/excel_parser.py:383 | once a course raises, later courses are never looked at |
| ExcelParser.Expand | swp_stundenplan/src/python/excel_parser.py:383-384 | every (course, semester) pair comes from the dictionary |
| ExcelParser.ExpandMembers | swp_stundenplan/src/python/excel_parser.py:383-384 | every semester listed under a course gives a pair |
| ExcelParser.RowCarriesEventId | swp_stundenplan/src/python/excel_parser.py:351-397 | every record a row adds carries that row's event id, and its event keeps the row's name and block count |
| ExcelParser.HoldsCarry | swp_stundenplan/src/python/excel_parser.py:369-372 | every holds record carries the row's event id |
| ExcelParser.ContainsCarry | swp_stundenplan/src/python/excel_parser.py:386-390 | every contains record carries the row's event id |
| ExcelParser.DisallowsCarry | swp_stundenplan/src/python/excel_parser.py:394-396 | every disallows record carries the row's event id |
| ExcelParser.EventIdsName | swp_stundenplan/src/python/excel_parser.py:349-351 | row i becomes event i + 1: one event per row with its name, and every link record's event id lies in 1..\|rows\| |
| ExcelParser.ConcatKeepsRows | swp_stundenplan/src/python/excel_parser.py:349-351 | appending one row's records keeps the event ids within the rows seen |
| ExcelParser.HoldsPerAbbreviation | swp_stundenplan/src/python/excel_parser.py:366-373 | an empty `Employees` cell yields no record; otherwise one record per ","-separated abbreviation, with that employee's id |
| ExcelParser.ParticipantNeedsOneColon | swp_stundenplan/src/python/excel_parser.py:379 | a participant piece without exactly one ":" fails its two-target unpacking |
| ExcelParser.LastParticipantWins | swp_stundenplan/src/python/excel_parser.py:380-382 | a course abbreviation keeps the semesters of its last piece, and no abbreviation appears twice |
| ExcelParser.ContainsPerPair | swp_stundenplan/src/python/excel_parser.py:383-391 | one contains record per (course, semester) pair, with that course's and that semester's ids |
| ExcelParser.EmptyDisallowedDaysRaises | swp_stundenplan/src/python/excel_parser.py:392-397 | with accepted day DTOs, an empty `Disallowed Days` cell raises `KeyError` on "" |
| ExcelParser.ParseEmployeeDislikesDate | swp_stundenplan/src/python/excel_parser.py:462-476 | the loop gives exactly `DislikesRecords`: the records of every row in row order, or the first error |
| ExcelParser.DislikesErrorPersists | swp_stundenplan/src/python/excel_parser.py:463 | once a row raises, later rows are never parsed |
| ExcelParser.DislikesShareRow | swp_stundenplan/src/python/excel_parser.py:463-476 | a row gives one record per ";"-separated time slot id, all with the row's employee and priority, each with the date of (day, int(slot)) |
| TimeTables.SortValuesFacts | swp_stundenplan/src/python/main.py:129-133 | sorting each value keeps the keys in place, sorts every value by key, and keeps every association |
| TimeTables.SortByKeyValuesDistinct | swp_stundenplan/src/python/main.py:126-128 | sorting a dictionary keeps its values |
| TimeTables.SortEachValue | swp_stundenplan/src/python/main.py:129-133 | the loop replaces each value by its sorted form, in place |
| TimeTables.SortTimeTable | swp_stundenplan/src/python/main.py:113-135 | `sort_time_table` computes exactly `SortTable` over `day.NAMES`, whose keys and lookups `SortTimeTableDays` and `SortTableLookup` describe |
| TimeTables.SortTableKeys | swp_stundenplan/src/python/main.py:124-125 | the result holds exactly the names that the input has, in the order of the names |
| TimeTables.SortTimeTableDays | swp_stundenplan/src/python/main.py:123-134 | `sort_time_table` keeps exactly the input days that appear in `day.NAMES`, in `NAMES` order |
| TimeTables.SortTableLookup | swp_stundenplan/src/python/main.py:124-134 | a day of the week keeps its time table, sorted; any other key is dropped |
| TimeTables.SortedDayFacts | swp_stundenplan/src/python/main.py:126-133 | within a kept day, time slots are in ascending order and so are the events within each slot; every event keeps its rooms |
| TimeTables.PathsOf | swp_stundenplan/src/python/main.py:151-157 | the six nested loops visit exactly the (day, time, lecture, room, course, semester) paths the table lists |
| TimeTables.FileLectureLookup | swp_stundenplan/src/python/main.py:158-187 | the loop body sets a path's key only while that key is still free; no other key changes |
| TimeTables.SeparateFirst | swp_stundenplan/src/python/main.py:179-187 | a repeated (semester, course, day, time, lecture) key keeps the room of its first path |
| TimeTables.SeparateFiled | swp_stundenplan/src/python/main.py:151-187 | a key is filed exactly when some path has it: nothing is lost and nothing is invented |
| TimeTables.SeparateDistinct | swp_stundenplan/src/python/main.py:159-163 | semesters appear once, and courses appear once per semester |
| TimeTables.SeparateTimeTables | swp_stundenplan/src/python/main.py:137-195 | `separate_time_tables` computes exactly `SeparatedTables`, whose order and lookups `SeparatedTablesFacts` describes |
| TimeTables.SeparatedTablesFacts | swp_stundenplan/src/python/main.py:158-195 | semester keys (stringified) are sorted as strings, courses are sorted within each semester, and a key is filed exactly when the table lists it, with the room of its first listing |
| Strings.SplitLength | swp_stundenplan/src/python/excel_parser.py:367 | `s.split(sep)` gives one more piece than sep occurs in s |
| Strings.ParseIntToString | swp_stundenplan/src/python/main.py:158 | `int(str(i)) == i`: a stringified semester key loses nothing |
| Strings.NatToStringInjective | swp_stundenplan/src/python/genetic_algorithm.py:211 | different suffix numbers give different digit strings |
| Strings.LessTotal | swp_stundenplan/src/python/main.py:188-190 | the string order of `sorted` is total on different strings |
| Dicts.SetLookup | swp_stundenplan/src/python/excel_parser.py:380 | after `d[k] = v`, k maps to v and every other key keeps its value |
| Dicts.SetKeys | swp_stundenplan/src/python/excel_parser.py:380 | `d[k] = v` keeps the key order and appends k when it is new |
| Dicts.FromPairsLast | swp_stundenplan/src/python/api/api.py:45-48 | in a dict comprehension a key holds the value of its last pair |
| Dicts.SortByKey | swp_stundenplan/src/python/main.py:126-128 | `OrderedDict(sorted(d.items()))` is sorted by key and has the same entries |
| Dicts.SortByKeyLookups | swp_stundenplan/src/python/main.py:126-128 | sorting keeps every lookup |
| Collections.MapResult | swp_stundenplan/src/python/excel_parser.py:367-373 | a loop that appends one record per piece: `Ok` exactly when every piece succeeds, with one record per piece, else the error of the first failing piece |
| Collections.ProductAt | swp_stundenplan/src/python/excel_parser.py:103-107 | a two-level comprehension has \|xs\| · \|ys\| entries, with pair (i, j) at i · \|ys\| + j |
| Collections.RepeatsCount | swp_stundenplan/src/python/genetic_algorithm.py:103-105 | repeats plus distinct keys is the number of entries |
| Collections.RepeatsZero | swp_stundenplan/src/python/genetic_algorithm.py:103-105 | no repeats exactly when no key occurs twice |

## Left out

- The PyGAD run (genetic_algorithm.py:222-261) is not modelled: it is a foreign library with randomness, mutation, selection and `time.perf_counter`. What it guarantees the fitness function is a precondition: `Fits` (every gene is below `len(date_x_room)`). `ParseSolutionForPrint` also requires at most one gene per lesson (`num_genes=len(lessons)`). Gene distinctness is not needed by any property and is not assumed.
- The database (sqlite, the connection pool and every DAO) is not modelled. `select_all` results are input sequences, and the inserts are the returned record lists. UNIQUE and PRIMARY KEY constraints are not assumed: the id dictionaries are stated for arbitrary rows (last row wins), and a lemma covers the case of unique ids.
- pandas I/O (`read_excel`, `fillna("")`, `to_dict`) is not modelled. A row is a record of cells, with text cells as strings. The numeric cells `Weekly Blocks` and `Priority Value` are given as the integer the cell holds.
- The `fast_and_least_verbose` switch is left out: it only changes insert granularity.
- Logging, `utils/path_utils.py`, argparse, the tabulate printing, saving to files and the runtime estimate are left out: they are I/O and presentation.
- ExcelParser.Integer: Python's `int()` also accepts surrounding whitespace, digit-separating underscores, and every Unicode decimal digit (for example the Arabic-Indic "٣" and the full-width "３"). This `int()` takes an optional sign and the ASCII digits '0'..'9' only.
- Patterns.MatchSpan: for `str` patterns, `\d` in `[A-Z]+\d*` matches every Unicode decimal digit, not only '0'..'9'. The model's digit run is ASCII only, so for such an abbreviation it states a shorter match span. Whether a match exists is unaffected, because that depends only on the first character.
- TimeUtils.FormattedDurationFields: `seconds_to_formatted_duration` takes a float. This model takes whole non-negative seconds.
- SolutionPrint.Clock: `strftime("%H:%M")` is modelled as two zero-padded integers.
- The `ParticipantSize` hash is left out: the dataclass hash disagrees with the ordinal-only `__eq__`, and nothing hashes sizes.
- The `get_*_by_id` helpers the core does not use (`get_employees_by_id`, `get_employee_types_by_id`) are not modelled.
- Object identity and aliasing are not modelled. Python changes the nested dictionaries of the printout and of `separate_time_tables` in place, through aliases. The model reads each level and writes it back as a value, which gives the same final dictionary.
- SolutionPrint.ParseSolutionForPrint: the participants label is computed before the `setdefault` steps, not after them. A `KeyError` discards the whole result, so the outcome is the same.
- TimeTables.SeparateTimeTables: the six nested loops are one loop over their visits (`PathsOf`), in the same order.
- TimeTables.SortTimeTable: the innermost dictionaries of a printout must have no repeated keys (`Sortable`). Every real Python dictionary meets this.
- Models.Compare states only `==` and `<` directly. The other four comparisons are related to these two by `ComparisonsAgree`.
- Dataclass immutability (`frozen=True`) is a property of Python objects. Dafny datatypes are immutable values, so there is nothing to state.
