# timetable — a Dafny model of the timetable bot's core

The timetable bot is a Telegram bot for one student group. It keeps the group's recurring lectures in
a MongoDB collection. A lecture has:

- a rotation week: 1..4, or 0 for every week;
- a subject from a fixed catalog;
- a type;
- a weekday;
- a room;
- a time slot;
- a sub-group: 1, 2, or 0 for both.

Any user can ask for:

- today's lectures (`/today`);
- tomorrow's lectures (`/tomorrow`);
- the current week (`/thisweek`);
- the next week (`/nextweek`).

Two flags change the answer: `-l` shows full subject names and lecturers, and `-1`/`-2` picks a
sub-group. Admins add, edit and delete lectures through step-by-step dialogs. Each dialog keeps the
user's session in one of three maps kept between messages.

The model has these modules:

- `Wrappers`: `Option` and `Result`.
- `GoLib`: the standard-library behaviour the bot relies on:
  - `strings.TrimSpace`, `ToLower`, `Split` on a single space, `CutPrefix`;
  - `strconv.Atoi` and `FormatInt` with 64-bit clamping;
  - Go's byte-wise `<` on strings;
  - `primitive.ObjectIDFromHex`.
- `Model`: the `Lecture` record and the catalogs of `mdb/type.go`.
- `Sorting`: `slices.SortStableFunc` as an in-place insertion sort on an array, specified by a
  functional stable sort. It proves:
  - the sort gives a sorted permutation;
  - it is stable;
  - a stable sort's result is unique;
  - the two passes of `GetLectures` equal one sort by (time, week).
- `Store`: the `mdb.Db` methods on a collection modelled as a map from id to document. They are
  pure outcome functions, plus a `Db` class whose methods update the map and log every call.
- `Query`: the query commands:
  - the academic-week computation, with Go's truncating `%`;
  - flag parsing;
  - the day and week filters;
  - message formatting;
  - `sendToday`;
  - `SendWeek` and its per-day grouping loop.
- `Dialogs`: the three admin dialogs. Each step is a pure function from the session and the message
  to the next session, the database request and the replies. The `Sessions` class holds the three
  maps, and its methods apply a step and make the database call.
- `Bot`: one turn of the update loop of `main.go`. This covers the admin check and the command
  switch, with every other message fanned out to the three dialogs.

Quirks of the code that the model keeps as written:

- "cancel" in the edit and delete dialogs removes the session, but the step still runs. After
  "cancel", the delete dialog deletes by the text "cancel". The edit dialog at the room step stores
  "cancel" as the room.
- The edit dialog lowercases its input. The catalog's capitalised subject names and day names can
  then never match, so only "skip" gets past those steps. Among the types, only "-" survives
  lowercasing.
- Skipping the subject during an edit copies the subject key but not the lecturer. An edit that
  skips every field therefore erases the stored lecturer.
- "added", "updated" and "deleted" are reported even after the write has failed.
- `/tomorrow` on a Saturday asks for day 7, which no lecture has.
- `/thisweek` cuts the prefix "/week", which never matches, so the command word stays in the flag
  string. It is no flag, so the result is the same.

## Model

| member | source | states |
|---|---|---|
| GoLib.TrimSpace | tghelp.go:142 | the result is one slice of the input with only white space cut before and after it, and it neither starts nor ends with white space; text without white space at its edges is unchanged |
| GoLib.ToLower | main.go:67 | the length is kept, and each character is lowercased on its own |
| GoLib.ToLowerIdempotent | tghelp.go:263 | lowercasing twice is lowercasing once |
| GoLib.LoweredNeverCapitalised | tghelp.go:321 | a lowercased text never equals a name that holds a capital letter |
| GoLib.Split | tghelp.go:42 | there is at least one piece, and no piece holds a space |
| GoLib.JoinSplit | tghelp.go:42 | joining the pieces with single spaces gives the input back |
| GoLib.SplitSpaceFreePrefix | main.go:97 | a space-free prefix is glued to the first piece and leaves the other pieces alone |
| GoLib.CutPrefix | main.go:89 | with the prefix, the input is the prefix followed by the result; without it, the result is the input |
| GoLib.Atoi | mdb/lecture.go:16 | the result is an int64; text that is not decimal reads as 0 |
| GoLib.AtoiItoa | main.go:70 | reading back a formatted int64 gives the number again |
| GoLib.StrLessTotal | mdb/lecture.go:68-72 | the week comparison of the sort is total |
| GoLib.StrLessTransitive | mdb/lecture.go:68-72 | the week comparison of the sort is transitive |
| GoLib.StrLessAsymmetric | mdb/lecture.go:68-72 | a week never compares below and above another at once |
| GoLib.ParseObjectId | mdb/lecture.go:41 | a text parses exactly when it is 24 hexadecimal digits of either case, and the id is their lower-case form |
| GoLib.ParseObjectIdIgnoresCase | tghelp.go:273 | lowercasing the text does not change the id it parses to |
| GoLib.ParseObjectIdRoundTrip | mdb/lecture.go:41 | the hex form of a parsed id parses back to the same id |
| Model.PeriodStringInjective | mdb/type.go:36-38 | two periods whose start holds no dash print differently |
| Model.PeriodString | mdb/type.go:36-38 | the slot prints as its start, one dash, then its end |
| Model.SubjectsWellFormed | mdb/type.go:40-52 | every subject is filed under its own key and has a lecturer, and no two subjects share a name |
| Model.PeriodsWellFormed | mdb/type.go:54-61 | the time slots are 1..6, and no two print alike |
| Model.DaysWellFormed | mdb/type.go:63-70 | the days are 1..6, all named differently |
| Model.SmallCatalogKeys | mdb/type.go:71-100 | the keys of the type, week, sub-group and flag catalogs |
| Model.WeeksAreSmallNumbers | mdb/lecture.go:16-19 | every catalog week reads as a number in 0..4, so the insert guard lets it through |
| Model.NoEmptySubjectKey | mdb/type.go:40-52 | no subject is filed under the empty key, so an unset subject is never a catalog entry |
| Model.SubjectNamesCapitalised | mdb/type.go:40-52 | every subject name holds a capital letter |
| Model.DayNamesCapitalised | mdb/type.go:63-70 | every day name starts with a capital letter |
| Model.TypesCapitalised | mdb/type.go:71-76 | every type but "-" starts with a capital letter |
| Model.SubjectByName | tghelp.go:320-332 | finds the subject with exactly that name, or reports that none has it |
| Model.DayByName | tghelp.go:359-383 | finds the day with exactly that name, or reports that none has it |
| Model.PeriodByString | tghelp.go:398-423 | finds the slot that prints as the text, or reports that none does |
| Model.LookupFindsOwnEntry | mdb/type.go:40-70 | looking up an entry's own display text finds that entry, whatever order the map scan takes |
| Sorting.CmpFlip | mdb/lecture.go:67-83 | swapping the arguments of a comparator flips the sign |
| Sorting.StableSort | mdb/lecture.go:67-83 | the reference stable sort keeps exactly the same lectures, with the same multiplicities |
| Sorting.LeTrans | mdb/lecture.go:67-83 | the comparators order consistently |
| Sorting.StableSortPermutes | mdb/lecture.go:67-83 | a stable sort keeps the same lectures and sorts them |
| Sorting.StableSortStable | mdb/lecture.go:67-83 | a stable sort keeps the lectures that compare equal in their original order |
| Sorting.SortedUnique | mdb/lecture.go:67-83 | two sorted orders with the same equal-key groups are the same order |
| Sorting.TimeSortOfWeekSorted | mdb/lecture.go:76-83 | sorting a week-sorted list by time leaves it sorted by (time, week) |
| Sorting.TwoPassSort | mdb/lecture.go:67-83 | sorting by week, then stably by time, is one stable sort by (time, week) |
| Sorting.SortedAround | mdb/lecture.go:67-83 | a lecture placed after all smaller-or-equal ones and before all greater-or-equal ones keeps a sorted list sorted |
| Sorting.InsertRefined | mdb/lecture.go:76-83 | inserting by time a lecture whose week is not below any other's keeps the (time, week) order |
| Sorting.SortStableFunc | mdb/lecture.go:67-83 | sorts the array in place into the stable sort of its old contents |
| Sorting.InsertInto | mdb/lecture.go:67-83 | one insertion step puts the next element behind its equals in the sorted prefix |
| Store.InsertOutcome | mdb/lecture.go:15-26 | a successful insert adds the lecture, carrying the chosen id, under an id that was free and leaves every other document as it was; a failed one changes nothing |
| Store.InsertWeekGuard | mdb/lecture.go:16-19 | the insert is refused exactly when the week reads as a number outside 0..4; non-numbers pass |
| Store.InsertThenGet | mdb/lecture.go:15-53 | an inserted lecture reads back under its new id |
| Store.UpdateOutcome | mdb/lecture.go:28-38 | a successful update replaces the document and keeps its id; a failed one changes nothing |
| Store.UpdateNotFound | mdb/lecture.go:33-35 | "not found" means that the call went through and no document has the id |
| Store.UpdateThenGet | mdb/lecture.go:28-53 | an updated lecture reads back with the new fields and its old id |
| Store.GetOutcome | mdb/lecture.go:40-53 | a read succeeds exactly for a well-formed id of a stored document when the driver does not fail, and returns that document |
| Store.DeleteOutcome | mdb/lecture.go:88-102 | a delete succeeds exactly for a well-formed id of a stored document when the driver does not fail, and removes exactly that document; a failed one changes nothing |
| Store.IdGuards | mdb/lecture.go:41-44 | text that is not 24 hexadecimal digits is refused before the collection is asked |
| Store.DeleteNotFound | mdb/lecture.go:98-100 | "not found" means that the id parses, the call went through and no document has it |
| Store.WritesKeepWellKeyed | mdb/lecture.go:15-102 | every write keeps each document filed under its own id |
| Store.InsertKeepsWellKeyed | mdb/lecture.go:15-26 | an insert under a well-formed id keeps each document filed under its own id |
| Store.UpdateKeepsWellKeyed | mdb/lecture.go:28-38 | an update keeps each document filed under its own id |
| Store.DeleteKeepsWellKeyed | mdb/lecture.go:88-102 | a delete keeps each document filed under its own id |
| Store.GetLectures | mdb/lecture.go:55-86 | on success, the same lectures ordered by time and then week, with equal ones in the server's order; fails exactly when the query fails |
| Store.SortedByTimeThenWeek | mdb/lecture.go:67-83 | the (time, week) sort is a permutation, ordered by time and then week, and stable |
| Store.Db.InsertLecture | mdb/lecture.go:15-26 | the collection and error are the insert outcome, and the call is logged |
| Store.Db.UpdateLecture | mdb/lecture.go:28-38 | the collection and error are the update outcome, and the call is logged |
| Store.Db.GetLecture | mdb/lecture.go:40-53 | the result is the read outcome, and the call is logged |
| Store.Db.DeleteLecture | mdb/lecture.go:88-102 | the collection and error are the delete outcome, and the call is logged |
| Query.GoRem4 | tghelp.go:30 | Go's `%` by 4: the remainder has the sign of the dividend and differs from it by a multiple of 4 |
| Query.GetCurrentWeek | tghelp.go:18-38 | a week found is 1..4; an unreadable start date is the date error |
| Query.CurrentWeekMeaning | tghelp.go:28-34 | "not started" exactly for negative weeks that are not a multiple of 4; otherwise the week repeats every 4 weeks |
| Query.WeekOrZero | tghelp.go:523 | the week is 0 exactly when the computation failed, and 1..4 otherwise |
| Query.NextWeek | tghelp.go:571-576 | the week after 4 is 1; otherwise the next one |
| Query.TomorrowTarget | tghelp.go:525-534 | Sunday gives Monday of the next week, Monday..Friday the next day, Saturday day 7, which is no day |
| Query.DayTarget | tghelp.go:524-534 | today is the clock's week and weekday; tomorrow is the next weekday number, and the week moves, to the next in the rotation, only from Sunday |
| Query.DayFilter | tghelp.go:536-553 | a lecture matches exactly when its week is the target week or "0", its day is the target day, and, when a group flag was given, its sub-group is that group or "0" |
| Query.WeekFilter | tghelp.go:579-591 | a lecture matches exactly when its week is the target week or "0" and its sub-group is the flag's group, or "1" without one, or "0"; the day is not filtered |
| Query.GroupDefaults | tghelp.go:536-591 | without a flag the day view keeps both sub-groups, and the week view keeps sub-group 1 and shared lectures |
| Query.SharedLectureAlwaysMatches | tghelp.go:536-591 | a lecture for every week and both sub-groups matches every filter |
| Query.ApplyFlag | tghelp.go:44-55 | `-l` sets the long view, `-1`/`-2` set the group, and other tokens change nothing |
| Query.ArgsLong | tghelp.go:40-59 | the long view is on exactly when some token is `-l` |
| Query.ArgsGroupKept | tghelp.go:40-59 | without a group flag the group is unchanged |
| Query.ArgsGroupLast | tghelp.go:40-59 | the last group flag decides the group |
| Query.ArgsFromSnoc | tghelp.go:43-57 | one more token folds one more flag onto the flags read so far |
| Query.ParseArgs | tghelp.go:40-59 | the loop folds the flags of the pieces of the text, in order |
| Query.CommandTokenIsNoFlag | tghelp.go:44-45 | a command word is no flag |
| Query.CommandWordIgnored | main.go:96-98 | a command word left in front of the flags does not change them |
| Query.FormatShowsCatalog | tghelp.go:497-508 | the row shows the slot's times and the subject's key, or its name with `-l`; an unknown slot prints "-" and an unknown subject prints empty |
| Query.FormatLecture | tghelp.go:497-508 | the row is, in backquotes between two rule lines, the cells slot, subject, type and room joined by vertical bars; the subject cell is `SubjectCell` (full name under `-l`, catalog key without); `-l` only appends the lecturer as a fifth cell after the room |
| Query.Dashes | tghelp.go:499 | the rule above and below a row is that many dashes and nothing else |
| Query.RowsAppend | tghelp.go:513-515 | the rows of two runs of lectures are the rows of the first followed by those of the second |
| Query.RowsSnoc | tghelp.go:513-515 | one more turn of the loop appends exactly that lecture's row |
| Query.SendLectures | tghelp.go:510-519 | the loop builds the header followed by each lecture's row |
| Query.DayReplies | tghelp.go:555-566 | a failed query reports the error and then "no lectures"; an empty answer gives "no lectures"; otherwise one schedule of the sorted lectures under the day's name |
| Query.SendToday | tghelp.go:521-567 | the filter is for the target week and day; the replies give the error, "no lectures", or the day's schedule |
| Query.OnDayMembers | tghelp.go:597-603 | a day's lectures are exactly the found lectures on that day |
| Query.CollectDay | tghelp.go:598-603 | the inner loop collects the day's lectures in order |
| Query.DayReply | tghelp.go:598-609 | one day of the week: the day's schedule, or the "free" note when the day has no lecture |
| Query.WeekSections | tghelp.go:597-611 | six replies, one per day, each that day's schedule or "free" |
| Query.SendWeek | tghelp.go:569-612 | the filter is for the week and its sub-group (1 by default); six day replies follow |
| Query.WeekViewPartition | tghelp.go:597-603 | each found lecture is shown under its own day and no other |
| Dialogs.Following | tghelp.go:139-258 | the dialogs ask for the fields in a fixed order |
| Dialogs.NextField | tghelp.go:151-236 | the step works on the first unset field |
| Dialogs.Fill | tghelp.go:151-254 | a text is accepted exactly when the field's catalog has it; only that field changes and it is then valid |
| Dialogs.FillSubject | tghelp.go:163-182 | the subject is set from the catalog entry with that name |
| Dialogs.FillDay | tghelp.go:195-211 | the day is set to the number of the day with that name |
| Dialogs.FillTime | tghelp.go:218-235 | the slot is set to the one that prints as the text |
| Dialogs.CommitReplies | tghelp.go:244-254 | the success reply always comes last, after the error when there is one |
| Dialogs.CreateInput | tghelp.go:139-258 | "cancel" or a completed lecture ends the session; an accepted answer fills the first unset field from its catalog and keeps the session, except at the sub-group, where the filled lecture is inserted and the session ends; the insert happens only that way; a refused text leaves the session as it was |
| Dialogs.Place | tghelp.go:145-150 | a session is stored back or removed, and no other user's session changes |
| Dialogs.CreateCancel | tghelp.go:145-150 | "cancel" ends the add dialog with nothing inserted |
| Dialogs.CreateChangesOneField | tghelp.go:151-254 | a step sets only the field it asks for, or nothing when the text is refused |
| Dialogs.CreateKeepsPartial | tghelp.go:151-254 | the fields of an add session stay filled in order and valid |
| Dialogs.FillKeepsPartial | tghelp.go:151-236 | an accepted answer to the next question keeps the add session filled in order and valid |
| Dialogs.FillCompletes | tghelp.go:236-254 | an accepted sub-group completes the lecture, still without an id |
| Dialogs.EmptyLectureIsPartial | main.go:71 | a new add session starts at the week |
| Dialogs.CreatedLectureReadBack | tghelp.go:236-254 | a completed add dialog inserts a lecture that reads back under its new id |
| Dialogs.Skip | tghelp.go:292-338 | "skip" copies the old value of the field, but for the subject only the key and not the lecturer |
| Dialogs.EditInput | tghelp.go:260-460 | nothing is written before the old lecture is loaded; the update ends the session and comes at the sub-group step; the old lecture changes only by a successful read at the id step |
| Dialogs.EditIdStep | tghelp.go:265-290 | the id step never writes; it keeps the session unless the text is "cancel", and loads the old lecture exactly when the text is an id and the read succeeds |
| Dialogs.EditFieldStep | tghelp.go:291-457 | a skipped or accepted answer fills the first unset field and moves the session on, except at the sub-group step, where it commits the update and ends the session; an update happens only there, with the skipped or given sub-group; a refused text changes nothing; "cancel" is reported and never leaves the session as it was |
| Dialogs.LoweredNoSubjectName | tghelp.go:263 | a lowercased text never names a subject |
| Dialogs.LoweredNoDayName | tghelp.go:263 | a lowercased text never names a day |
| Dialogs.LoweredTypes | tghelp.go:263 | the only type a lowercased text can name is "-" |
| Dialogs.EditRejects | tghelp.go:291-457 | a refused text keeps the session unless it is "cancel", and asks again |
| Dialogs.EditSubjectOnlySkip | tghelp.go:311-338 | at the subject step only "skip" gets through |
| Dialogs.EditDayOnlySkip | tghelp.go:359-383 | at the day step only "skip" gets through |
| Dialogs.EditTypeOnlyDash | tghelp.go:339-358 | at the type step only "skip" and "-" get through |
| Dialogs.TypeStepMoves | tghelp.go:339-358 | the type step moves on only for "skip" or a catalog type |
| Dialogs.EditCancelAtRoom | tghelp.go:266-270 | "cancel" at the room step is stored as the room, and the dialog goes on |
| Dialogs.NoSubjectCalledCancel | tghelp.go:320-332 | no subject is named "cancel" |
| Dialogs.CancelIsNoAnswer | tghelp.go:266-290 | "cancel" is no answer to any question but the room |
| Dialogs.EditCancelElsewhere | tghelp.go:266-290 | "cancel" elsewhere ends the dialog, which a refused text leaves ended |
| Dialogs.SkipAllDropsLecturer | tghelp.go:291-457 | an edit that skips every field writes the old lecture without its lecturer |
| Dialogs.SkipMoves | tghelp.go:291-338 | past the id, "skip" at any field but the sub-group copies the old value and moves to the next field |
| Dialogs.SkipAllErasesStoredLecturer | tghelp.go:424-437 | after that write, the stored lecture has lost its lecturer |
| Dialogs.DeleteAlwaysDeletes | tghelp.go:466-484 | the first message always ends the dialog and deletes by its text, "cancel" included |
| Dialogs.DeleteInput | tghelp.go:462-486 | while the id is pending the text is deleted by and the session ends; a set id is never deleted by, and only "cancel" drops it; "cancel" alone is reported |
| Dialogs.DeleteIgnoresCase | tghelp.go:465 | lowercasing the id does not change which lecture it names |
| Dialogs.Sessions.constructor | main.go:55-57 | all three session maps start empty |
| Dialogs.Sessions.StartCreate | main.go:71 | the user's add session starts empty, and the other maps are unchanged |
| Dialogs.Sessions.StartEdit | main.go:78 | the user's edit session starts empty, and the other maps are unchanged |
| Dialogs.Sessions.StartDelete | main.go:84 | the user's delete session starts with no id, and the other maps are unchanged |
| Dialogs.Sessions.HandleLectureInput | tghelp.go:139-258 | one add step: the session map, the insert when complete, the call log and the replies, and nothing for a user without a session |
| Dialogs.Sessions.HandleLectureUpdate | tghelp.go:260-460 | one edit step: the read when the id is given, the update at the end, the session map and the replies |
| Dialogs.Sessions.HandleLectureDelete | tghelp.go:462-486 | one delete step: the session map, the delete, the call log and the replies |
| Bot.Auth | tghelp.go:488-495 | true exactly when the user id is listed among the admins |
| Bot.ArgsAfterPrefix | main.go:89-103 | the flags are read from what follows the command's prefix |
| Bot.ThisWeekArgs | main.go:96-98 | `/thisweek` reads the same flags as if its prefix had been cut |
| Bot.OpenDialog | main.go:69-87 | an admin command opens a fresh session in its own map for admins only, leaving the other maps alone |
| Bot.AnswerQuery | main.go:88-103 | each query command reads the flags after its prefix, builds the day or week filter for the current or next target, and sends the day view's or the week view's replies for the server's answer |
| Bot.HandleUpdate | main.go:59-118 | an update without a message is ignored; admin commands open a session for admins only; query commands parse the flags, pick the filter and send that view's replies; other text steps the dialogs |

## Left out

- msgmanager.go (the message cleanup worker) is not part of this model. It is concurrent code around the Telegram API.
- The Telegram API is not modelled: sending messages, text formatting beyond `FormatLecture`, parse modes, and reply keyboards (`GenMenu`, `genSubjectMenu`). Replies are a datatype naming what is reported.
- The MongoDB driver is not modelled. What the server answers is an input: the documents a query finds, in the server's order. So are the id of a new document and whether each call fails.
- The clock and `time.Parse` are not modelled. `GetCurrentWeek` takes the whole weeks since the semester start as an input (`None` when the date does not parse), and the weekday is another input. The float division before the truncation is not modelled.
- Query.GetCurrentWeek: does not model the truncation of fractional weeks toward zero, because the clock is an input. For the same reason, the first days before the start count as week 1.
- The bootstrap is not modelled: environment variables, the bot token, the database connection and the admin list read from the environment. The `/help` text and all logging are left out too.
- GoLib.ToLower: lowercases Basic Latin and the Cyrillic block U+0400..U+042F only, not the whole Unicode case table. These are the letters the catalogs and commands use.
- Sorting.SortStableFunc: is an insertion sort, not Go's algorithm. Every stable sort gives the same result (`Sorting.SortedUnique`).
- Model.SubjectByName: finds the unique entry instead of scanning a Go map in random order. The catalogs' names are distinct, so the order does not matter (`Model.LookupFindsOwnEntry`).
- Bot.HandleUpdate: for other text, it states the add and delete session maps and the edit map for a user without an edit session. It does not restate the three dialog steps' combined effect on the database. That effect is in the contracts of the three `Sessions` methods.
- The BSON encoding is not modelled. `omitempty` on the id is modelled only as the update keeping the document's id.
