/**
 * The read side of the bot (tghelp.go): which rotation week it is, what the query flags say,
 * which lectures the day and week views ask the database for, and how they are laid out.
 * The clock is an input: the whole weeks elapsed since the semester start (or none when the
 * configured start date does not parse) and Go's weekday number (Sunday is 0).
 */
module Query {
  import opened Wrappers
  import opened GoLib
  import opened Model
  import opened Sorting
  import opened Store

  // ---------------------------------------------------------------------------------------------
  // GetCurrentWeek

  /** Go's `x % 4` on int: the remainder of truncating division, with the sign of `x`. */
  function GoRem4(x: int): (r: int)
    ensures -4 < r < 4
    ensures x >= 0 ==> 0 <= r
    ensures x < 0 ==> r <= 0
    ensures (x - r) % 4 == 0
  {
    if x >= 0 then x % 4 else -((-x) % 4)
  }

  datatype WeekError = BadStartDate | NotStarted

  /**
   * GetCurrentWeek. `weeksSinceStart` is `int(hours / 168)` for the elapsed time, or None when
   * the start date does not parse.
   */
  function GetCurrentWeek(weeksSinceStart: Option<int>): (r: Result<int, WeekError>)
    ensures r.Success? ==> 1 <= r.value <= 4
    ensures weeksSinceStart.None? <==> r == Failure(BadStartDate)
  {
    match weeksSinceStart
    case None => Failure(BadStartDate)
    case Some(w) =>
      var current := GoRem4(w) + 1;
      if current < 1 then Failure(NotStarted) else Success(current)
  }

  /** The week rotates through 1..4; "not started" is reported exactly for the negative counts
      that are not multiples of 4, while the multiples of 4, negative ones included, give 1. */
  lemma CurrentWeekMeaning(w: int)
    ensures GetCurrentWeek(Some(w)) == Failure(NotStarted) <==> w < 0 && w % 4 != 0
    ensures w % 4 == 0 ==> GetCurrentWeek(Some(w)) == Success(1)
    ensures w >= 0 ==> GetCurrentWeek(Some(w)) == Success(w % 4 + 1)
    ensures w >= 0 ==> GetCurrentWeek(Some(w + 4)) == GetCurrentWeek(Some(w))
  {
    if w < 0 {
      NegatedMultipleOf4(w);
    } else {
      assert (w + 4) % 4 == w % 4 by { AddFourRem(w); }
    }
  }

  /** A number and its negation are multiples of 4 together. */
  lemma NegatedMultipleOf4(w: int)
    ensures (-w) % 4 == 0 <==> w % 4 == 0
  {
    if w % 4 == 0 {
      var q := w / 4;
      assert w == 4 * q;
      assert -w == 4 * -q;
    }
    if (-w) % 4 == 0 {
      var q := (-w) / 4;
      assert -w == 4 * q;
      assert w == 4 * -q;
    }
  }

  lemma AddFourRem(w: int)
    ensures (w + 4) % 4 == w % 4
  {
    var q, r := w / 4, w % 4;
    assert w + 4 == 4 * (q + 1) + r;
  }

  /** `week, _ := GetCurrentWeek(..)`: an error leaves week 0. */
  function WeekOrZero(weeksSinceStart: Option<int>): (week: int)
    ensures 0 <= week <= 4
    ensures week == 0 <==> GetCurrentWeek(weeksSinceStart).Failure?
  {
    var r := GetCurrentWeek(weeksSinceStart);
    if r.Success? then r.value else 0
  }

  /** The week after `week` in the rotation: 4 wraps to 1, and so does the week of an error. */
  function NextWeek(week: int): (next: int)
    ensures 0 <= week <= 4 ==> 1 <= next <= 4
    ensures 0 <= week < 4 ==> next == week + 1
    ensures week == 4 ==> next == 1
  {
    if week + 1 > 4 then 1 else week + 1
  }

  /** The week and day the day view asks for: today's, or tomorrow's, where only the step from
      Sunday (0) to Monday (1) moves to the next week. */
  function DayTarget(week: int, weekday: int, tomorrow: bool): (wd: (int, int))
    requires 0 <= weekday <= 6
    ensures 1 <= wd.1 <= 7 || wd.1 == 0
    ensures !tomorrow ==> wd == (week, weekday)
    ensures tomorrow ==> wd.1 == weekday + 1
    ensures wd.0 != week ==> tomorrow && weekday == 0 && wd.0 == NextWeek(week)
  {
    if !tomorrow then (week, weekday)
    else if weekday + 1 == 1 then (NextWeek(week), 1)
    else (week, weekday + 1)
  }

  /** "Tomorrow" on a Saturday asks for day 7, which no lecture has; on Sunday it asks for Monday
      of the next week; on the other days for the next day of the same week. */
  lemma TomorrowTarget(week: int, weekday: int)
    requires 0 <= week <= 4 && 0 <= weekday <= 6
    ensures weekday == 6 ==> DayTarget(week, weekday, true) == (week, 7) && 7 !in Days
    ensures weekday == 0 ==> DayTarget(week, weekday, true) == (NextWeek(week), 1)
    ensures 0 < weekday < 6 ==> (DayTarget(week, weekday, true) == (week, weekday + 1) && weekday + 1 in Days)
  {
    DaysWellFormed();
  }

  // ---------------------------------------------------------------------------------------------
  // The filters

  /** A bson filter of the query commands: week in {week, "0"}, and optionally day = day and
      sub_group in {group, "0"}. */
  datatype Filter = Filter(week: int, day: Option<int>, group: Option<string>)

  predicate Matches(f: Filter, l: Lecture) {
    (l.week == Itoa(f.week) || l.week == "0")
    && (f.day.Some? ==> l.day == f.day.value)
    && (f.group.Some? ==> l.subGroup == f.group.value || l.subGroup == "0")
  }

  /** sendToday's filter: the sub-group clause only when a group flag was given. */
  function DayFilter(week: int, day: int, opt: Args): (f: Filter)
    ensures f.day == Some(day)
    ensures f.group.None? <==> opt.group == ""
    ensures forall l: Lecture :: Matches(f, l) <==>
      (l.week == Itoa(week) || l.week == "0") && l.day == day
      && (opt.group != "" ==> l.subGroup == opt.group || l.subGroup == "0")
  {
    Filter(week, Some(day), if opt.group != "" then Some(opt.group) else None)
  }

  /** SendWeek's filter: no day clause; without a group flag it asks for group "1". */
  function WeekFilter(week: int, opt: Args): (f: Filter)
    ensures f.day.None? && f.group.Some?
    ensures forall l: Lecture :: Matches(f, l) <==>
      (l.week == Itoa(week) || l.week == "0")
      && (l.subGroup == (if opt.group == "" then "1" else opt.group) || l.subGroup == "0")
  {
    Filter(week, None, Some(if opt.group == "" then "1" else opt.group))
  }

  /** Without a group flag the two views disagree: the day view shows every sub-group, the week
      view only groups "0" and "1". */
  lemma GroupDefaults(week: int, l: Lecture)
    requires l.week == "0" || l.week == Itoa(week)
    ensures Matches(DayFilter(week, l.day, Args(false, "")), l)
    ensures Matches(WeekFilter(week, Args(false, "")), l) <==> l.subGroup in {"0", "1"}
  {
  }

  /** A lecture for every week ("0") and both sub-groups ("0") matches every filter with its day. */
  lemma SharedLectureAlwaysMatches(week: int, opt: Args, l: Lecture)
    requires l.week == "0" && l.subGroup == "0"
    ensures Matches(DayFilter(week, l.day, opt), l) && Matches(WeekFilter(week, opt), l)
  {
  }

  // ---------------------------------------------------------------------------------------------
  // ParseArgs

  /** One token of ParseArgs: trimmed, looked up in CmdOpts, "-all" and anything else ignored. */
  function ApplyFlag(a: Args, token: string): (r: Args)
    ensures r.long == (a.long || TrimSpace(token) == "-l")
    ensures r.group == (if TrimSpace(token) in {"-1", "-2"} then TrimSpace(token)[1..] else a.group)
  {
    var key := TrimSpace(token);
    if key in CmdOpts then
      if key == "-l" then a.(long := true)
      else if key == "-1" then a.(group := "1")
      else if key == "-2" then a.(group := "2")
      else a
    else a
  }

  /** The flags after the tokens, applied from left to right. */
  function ArgsFrom(a: Args, tokens: seq<string>): Args
    decreases |tokens|
  {
    if tokens == [] then a else ApplyFlag(ArgsFrom(a, tokens[..|tokens| - 1]), tokens[|tokens| - 1])
  }

  predicate IsLongFlag(token: string) {
    TrimSpace(token) == "-l"
  }

  predicate IsGroupFlag(token: string) {
    TrimSpace(token) in {"-1", "-2"}
  }

  /** `long` is set iff some token is "-l". */
  lemma {:induction false} ArgsLong(a: Args, tokens: seq<string>)
    ensures ArgsFrom(a, tokens).long <==> a.long || exists i :: 0 <= i < |tokens| && IsLongFlag(tokens[i])
    decreases |tokens|
  {
    if tokens != [] {
      var front, last := tokens[..|tokens| - 1], tokens[|tokens| - 1];
      ArgsLong(a, front);
      assert ArgsFrom(a, tokens).long == (ArgsFrom(a, front).long || IsLongFlag(last));
      SomeTokenSnoc(tokens, front, IsLongFlag);
    }
  }

  /** Some token has `p` iff one before the last has it or the last has it. */
  lemma SomeTokenSnoc(tokens: seq<string>, front: seq<string>, p: string -> bool)
    requires tokens != [] && front == tokens[..|tokens| - 1]
    ensures (exists i :: 0 <= i < |tokens| && p(tokens[i]))
      <==> (exists i :: 0 <= i < |front| && p(front[i])) || p(tokens[|tokens| - 1])
  {
    if exists i :: 0 <= i < |front| && p(front[i]) {
      var i :| 0 <= i < |front| && p(front[i]);
      assert tokens[i] == front[i];
    }
    if exists i :: 0 <= i < |tokens| && p(tokens[i]) {
      var i :| 0 <= i < |tokens| && p(tokens[i]);
      if i < |front| {
        assert front[i] == tokens[i];
      }
    }
  }

  /** Without a group flag the group stays as it was. */
  lemma {:induction false} ArgsGroupKept(a: Args, tokens: seq<string>)
    requires forall i :: 0 <= i < |tokens| ==> !IsGroupFlag(tokens[i])
    ensures ArgsFrom(a, tokens).group == a.group
    decreases |tokens|
  {
    if tokens != [] {
      ArgsGroupKept(a, tokens[..|tokens| - 1]);
    }
  }

  /** The last group flag decides the group. */
  lemma {:induction false} ArgsGroupLast(a: Args, tokens: seq<string>, i: int)
    requires 0 <= i < |tokens| && IsGroupFlag(tokens[i])
    requires forall j :: i < j < |tokens| ==> !IsGroupFlag(tokens[j])
    ensures ArgsFrom(a, tokens).group == TrimSpace(tokens[i])[1..]
    decreases |tokens|
  {
    if i < |tokens| - 1 {
      ArgsGroupLast(a, tokens[..|tokens| - 1], i);
    }
  }

  /** Reading a token first is the same as starting from the flags it sets. */
  lemma {:induction false} ArgsFromCons(a: Args, t: string, tokens: seq<string>)
    ensures ArgsFrom(a, [t] + tokens) == ArgsFrom(ApplyFlag(a, t), tokens)
    decreases |tokens|
  {
    if tokens != [] {
      assert ([t] + tokens)[..|[t] + tokens| - 1] == [t] + tokens[..|tokens| - 1];
      ArgsFromCons(a, t, tokens[..|tokens| - 1]);
    } else {
      assert [t] + tokens == [t] && [t][..0] == [];
    }
  }

  /** ParseArgs: every space-separated token in turn. */
  method ParseArgs(str: string) returns (arg: Args)
    ensures arg == ArgsFrom(Args(false, ""), Split(str))
  {
    arg := Args(false, "");
    var tokens := Split(str);
    var i := 0;
    while i < |tokens|
      invariant 0 <= i <= |tokens|
      invariant arg == ArgsFrom(Args(false, ""), tokens[..i])
    {
      ArgsFromSnoc(Args(false, ""), tokens, i);
      arg := ApplyFlag(arg, tokens[i]);
      i := i + 1;
    }
    assert tokens[..i] == tokens;
  }

  /** Reading one more token applies it to the flags so far. */
  lemma ArgsFromSnoc(a: Args, tokens: seq<string>, i: int)
    requires 0 <= i < |tokens|
    ensures ArgsFrom(a, tokens[..i + 1]) == ApplyFlag(ArgsFrom(a, tokens[..i]), tokens[i])
  {
    assert tokens[..i + 1][..i] == tokens[..i];
  }

  /** A token beginning with '/' (the command itself) is never a flag. */
  lemma CommandTokenIsNoFlag(a: Args, t: string)
    requires t != [] && t[0] == '/'
    ensures ApplyFlag(a, t) == a
  {
    var key := TrimSpace(t);
    assert !IsSpace(t[0]);
    assert key[0] == '/';
    assert key != "-l" && key != "-1" && key != "-2" && key != "-all" by {
      assert "-l"[0] == '-' && "-1"[0] == '-' && "-2"[0] == '-' && "-all"[0] == '-';
    }
    SmallCatalogKeys();
  }

  /** A command word glued to the front of the argument text (as when a prefix to strip does not
      match) changes no flag, provided a space or nothing follows it. */
  lemma CommandWordIgnored(p: string, s: string)
    requires p != [] && p[0] == '/' && ' ' !in p
    requires s == [] || s[0] == ' '
    ensures ArgsFrom(Args(false, ""), Split(p + s)) == ArgsFrom(Args(false, ""), Split(s))
  {
    SplitSpaceFreePrefix(p, s);
    var rest := Split(s)[1..];
    assert Split(s)[0] == "";
    assert Split(s) == [""] + rest;
    assert p + "" == p;
    ArgsFromCons(Args(false, ""), p, rest);
    ArgsFromCons(Args(false, ""), "", rest);
    CommandTokenIsNoFlag(Args(false, ""), p);
  }

  // ---------------------------------------------------------------------------------------------
  // FormatLecture and SendLectures

  /** The rule line around each lecture: forty dashes. */
  const Rule: string := Dashes(40)

  function Dashes(n: nat): (r: string)
    ensures |r| == n && forall i :: 0 <= i < n ==> r[i] == '-'
  {
    if n == 0 then "" else Dashes(n - 1) + "-"
  }

  /** The subject as a row shows it: the full name with `-l`, the catalog key without. */
  function SubjectCell(l: Lecture, opt: Args): string {
    if opt.long then SubjectOf(l.subject).name else SubjectOf(l.subject).key
  }

  /** FormatLecture: "period | subject | type | room", with `-l` also "| lecturer", in
      backquotes between two rule lines. */
  function FormatLecture(l: Lecture, opt: Args): (row: string)
    ensures row == Rule + "\n`" + PeriodString(PeriodOf(l.time)) + " | " + SubjectCell(l, opt) + " | "
      + l.lectureType + " | " + l.room + (if opt.long then " | " + l.lecturer else "") + "`\n" + Rule + "\n"
  {
    var slot := PeriodString(PeriodOf(l.time));
    if opt.long then
      var cells := Rule + "\n`" + slot + " | " + SubjectOf(l.subject).name + " | " + l.lectureType + " | " + l.room;
      assert cells + " | " + l.lecturer == cells + (" | " + l.lecturer);
      cells + " | " + l.lecturer + "`\n" + Rule + "\n"
    else
      var cells := Rule + "\n`" + slot + " | " + SubjectOf(l.subject).key + " | " + l.lectureType + " | " + l.room;
      assert cells + "" == cells;
      cells + "`\n" + Rule + "\n"
  }

  /** For a lecture of the catalog the row shows the slot as "start-end" and the subject by its
      full name (with `-l`) or by its own key; an unknown subject shows as empty text and an
      unknown slot as "-", the zero Period printed. */
  lemma FormatShowsCatalog(l: Lecture, opt: Args)
    ensures l.time in Periods ==> PeriodString(PeriodOf(l.time)) == Periods[l.time].start + "-" + Periods[l.time].end
    ensures l.time !in Periods ==> PeriodString(PeriodOf(l.time)) == "-"
    ensures l.subject in Subjects && !opt.long ==> SubjectCell(l, opt) == l.subject
    ensures l.subject in Subjects && opt.long ==> SubjectCell(l, opt) == Subjects[l.subject].name != ""
    ensures l.subject !in Subjects ==> SubjectCell(l, opt) == ""
  {
    SubjectsWellFormed();
    if l.subject in Subjects && opt.long {
      var i := SubjectNamesCapitalised(l.subject);
    }
  }

  /** The rows of the lectures, in order. */
  function Rows(lectures: seq<Lecture>, opt: Args): string
    decreases |lectures|
  {
    if lectures == [] then ""
    else Rows(lectures[..|lectures| - 1], opt) + FormatLecture(lectures[|lectures| - 1], opt)
  }

  /** The text of one day's schedule: the day in bold, then every lecture's row. */
  function ScheduleText(day: string, lectures: seq<Lecture>, opt: Args): string {
    "*" + day + "*\n" + Rows(lectures, opt)
  }

  /** The rows of two lists of lectures one after the other are the rows of the first, then those
      of the second. */
  lemma {:induction false} RowsAppend(a: seq<Lecture>, b: seq<Lecture>, opt: Args)
    ensures Rows(a + b, opt) == Rows(a, opt) + Rows(b, opt)
    decreases |b|
  {
    if b == [] {
      assert a + b == a;
    } else {
      var front := b[..|b| - 1];
      assert (a + b)[..|a + b| - 1] == a + front;
      assert (a + b)[|a + b| - 1] == b[|b| - 1];
      RowsAppend(a, front, opt);
    }
  }

  /** One more lecture adds its row at the end. */
  lemma RowsSnoc(lectures: seq<Lecture>, i: int, opt: Args)
    requires 0 <= i < |lectures|
    ensures Rows(lectures[..i + 1], opt) == Rows(lectures[..i], opt) + FormatLecture(lectures[i], opt)
  {
    assert lectures[..i + 1][..i] == lectures[..i];
  }

  /** SendLectures: the header, and `content += FormatLecture(lecture, opt)` for each lecture. */
  method SendLectures(lectures: seq<Lecture>, day: string, opt: Args) returns (text: string)
    ensures text == ScheduleText(day, lectures, opt)
  {
    var header := "*" + day + "*\n";
    var content := "";
    var i := 0;
    while i < |lectures|
      invariant 0 <= i <= |lectures|
      invariant content == Rows(lectures[..i], opt)
    {
      RowsSnoc(lectures, i, opt);
      content := content + FormatLecture(lectures[i], opt);
      i := i + 1;
    }
    assert lectures[..i] == lectures;
    text := header + content;
  }

  // ---------------------------------------------------------------------------------------------
  // The two views

  /** What a query sends back, message by message. */
  datatype Reply =
    | QueryFailed                                 // "error : .."
    | Schedule(day: string, text: string)         // SendLectures
    | NoLectures(tomorrow: bool)                  // "No Lectures Today/Tomorrow"
    | FreeDay(day: string)                        // " <day> свободен"

  /** What the day view sends for the server's answer: on a failed query the error and then "no
      lectures" (the answer is then empty); "no lectures" for an empty answer; otherwise one
      message, the day's schedule of the answer sorted by (time, week). */
  predicate DayView(answer: seq<Lecture>, fails: bool, day: int, opt: Args, tomorrow: bool, replies: seq<Reply>) {
    (fails ==> replies == [QueryFailed, NoLectures(tomorrow)])
    && (!fails && answer == [] ==> replies == [NoLectures(tomorrow)])
    && (!fails && answer != [] ==>
          replies == [Schedule(DayName(day), ScheduleText(DayName(day), StableSort(answer, ByTimeWeek), opt))])
  }

  /** What the week view sends: the error on a failed query, then one section for each day 1..6,
      in order, of the sorted answer (nothing on a failure), under the group asked for or "1". */
  predicate WeekView(answer: seq<Lecture>, fails: bool, opt: Args, replies: seq<Reply>) {
    var opt' := opt.(group := if opt.group == "" then "1" else opt.group);
    var sorted := if fails then [] else StableSort(answer, ByTimeWeek);
    |replies| == (if fails then 7 else 6)
    && (fails ==> replies[0] == QueryFailed)
    && forall j :: |replies| - 6 <= j < |replies| ==> replies[j] == DaySection(sorted, j - |replies| + 7, opt')
  }

  /** sendToday. The server's answer to the filter is `answer` (in the server's order), or a
      failure; the clock gives `weeksSinceStart` and `weekday`. */
  method SendToday(answer: seq<Lecture>, fails: bool, weeksSinceStart: Option<int>, weekday: int,
                   opt: Args, tomorrow: bool)
    returns (f: Filter, replies: seq<Reply>)
    requires 0 <= weekday <= 6
    ensures var wd := DayTarget(WeekOrZero(weeksSinceStart), weekday, tomorrow);
      f == DayFilter(wd.0, wd.1, opt) && DayView(answer, fails, wd.1, opt, tomorrow, replies)
  {
    var week := WeekOrZero(weeksSinceStart);
    var day := weekday;
    if tomorrow {
      day := day + 1;
      if day == 1 {
        day := 1;
        week := week + 1;
        if week > 4 {
          week := 1;
        }
      }
    }
    assert (week, day) == DayTarget(WeekOrZero(weeksSinceStart), weekday, tomorrow);
    f := DayFilter(week, day, opt);
    replies := DayReplies(answer, fails, day, opt, tomorrow);
  }

  /** The replies of sendToday once the filter is built: the error, if any, and then the day's
      schedule or "no lectures". */
  method DayReplies(answer: seq<Lecture>, fails: bool, day: int, opt: Args, tomorrow: bool)
    returns (replies: seq<Reply>)
    ensures DayView(answer, fails, day, opt, tomorrow, replies)
  {
    var r := GetLectures(answer, fails);
    replies := [];
    var lectures := [];
    if r.Failure? {
      replies := replies + [QueryFailed];
    } else {
      lectures := r.value;
    }
    if |lectures| > 0 {
      var text := SendLectures(lectures, DayName(day), opt);
      replies := replies + [Schedule(DayName(day), text)];
    } else {
      replies := replies + [NoLectures(tomorrow)];
    }
  }

  /** The lectures of one day, in their order. */
  function OnDay(lectures: seq<Lecture>, day: int): seq<Lecture>
    decreases |lectures|
  {
    if lectures == [] then []
    else OnDay(lectures[..|lectures| - 1], day)
         + (if lectures[|lectures| - 1].day == day then [lectures[|lectures| - 1]] else [])
  }

  /** OnDay keeps exactly the lectures of that day. */
  lemma {:induction false} OnDayMembers(lectures: seq<Lecture>, day: int)
    ensures forall l :: l in OnDay(lectures, day) <==> l in lectures && l.day == day
    ensures multiset(OnDay(lectures, day)) <= multiset(lectures)
    decreases |lectures|
  {
    if lectures != [] {
      var front := lectures[..|lectures| - 1];
      OnDayMembers(front, day);
      assert lectures == front + [lectures[|lectures| - 1]];
    }
  }

  lemma {:induction false} OnDayAppend(a: seq<Lecture>, b: seq<Lecture>, day: int)
    ensures OnDay(a + b, day) == OnDay(a, day) + OnDay(b, day)
    decreases |b|
  {
    if b != [] {
      assert (a + b)[..|a + b| - 1] == a + b[..|b| - 1];
      OnDayAppend(a, b[..|b| - 1], day);
    } else {
      assert a + b == a;
    }
  }

  /** The part of the week view for day `v`. */
  function DaySection(lectures: seq<Lecture>, v: int, opt: Args): Reply {
    var day := OnDay(lectures, v);
    if |day| > 0 then Schedule(DayName(v), ScheduleText(DayName(v), day, opt)) else FreeDay(DayName(v))
  }

  /** The inner loop of SendWeek: the lectures of day `v`, in their order. */
  method CollectDay(lectures: seq<Lecture>, v: int) returns (day: seq<Lecture>)
    ensures day == OnDay(lectures, v)
  {
    day := [];
    var i := 0;
    while i < |lectures|
      invariant 0 <= i <= |lectures|
      invariant day == OnDay(lectures[..i], v)
    {
      assert lectures[..i + 1][..i] == lectures[..i];
      if lectures[i].day == v {
        day := day + [lectures[i]];
      }
      i := i + 1;
    }
    assert lectures[..i] == lectures;
  }

  /** The loop of SendWeek over days 1..6 and, inside, over the lectures. */
  method WeekSections(lectures: seq<Lecture>, opt: Args) returns (replies: seq<Reply>)
    ensures |replies| == 6
    ensures forall v :: 0 <= v < 6 ==> replies[v] == DaySection(lectures, v + 1, opt)
  {
    var daysKeys := [1, 2, 3, 4, 5, 6];
    replies := [];
    var k := 0;
    while k < |daysKeys|
      invariant 0 <= k <= |daysKeys|
      invariant |replies| == k
      invariant forall v :: 0 <= v < k ==> replies[v] == DaySection(lectures, v + 1, opt)
    {
      assert daysKeys[k] == k + 1;
      var r := DayReply(lectures, daysKeys[k], opt);
      replies := replies + [r];
      k := k + 1;
    }
  }

  /** One turn of SendWeek's loop: the day's schedule, or " <day> свободен" when it is empty. */
  method DayReply(lectures: seq<Lecture>, v: int, opt: Args) returns (r: Reply)
    ensures r == DaySection(lectures, v, opt)
  {
    var day := CollectDay(lectures, v);
    if |day| > 0 {
      var text := SendLectures(day, DayName(v), opt);
      r := Schedule(DayName(v), text);
    } else {
      r := FreeDay(DayName(v));
    }
  }

  /** SendWeek: the current (or next) week for the requested group, day by day. */
  method SendWeek(answer: seq<Lecture>, fails: bool, weeksSinceStart: Option<int>, opt: Args,
                  nextWeek: bool)
    returns (f: Filter, replies: seq<Reply>)
    ensures var week := WeekOrZero(weeksSinceStart);
      f == WeekFilter(if nextWeek then NextWeek(week) else week, opt)
    ensures WeekView(answer, fails, opt, replies)
  {
    var week := WeekOrZero(weeksSinceStart);
    if nextWeek {
      week := week + 1;
      if week > 4 {
        week := 1;
      }
    }
    var opt' := opt;
    if opt'.group == "" {
      opt' := opt'.(group := "1");
    }
    f := WeekFilter(week, opt);
    var r := GetLectures(answer, fails);
    var pre: seq<Reply> := [];
    var lectures := [];
    if r.Failure? {
      pre := [QueryFailed];
    } else {
      lectures := r.value;
    }
    var sections := WeekSections(lectures, opt');
    replies := pre + sections;
    assert lectures == (if fails then [] else StableSort(answer, ByTimeWeek));
    assert opt' == opt.(group := if opt.group == "" then "1" else opt.group);
    assert |replies| == |pre| + 6;
    forall j | |replies| - 6 <= j < |replies|
      ensures replies[j] == DaySection(lectures, j - |replies| + 7, opt')
    {
      assert replies[j] == sections[j - |pre|];
    }
  }

  /** The week view is a partition: each lecture of a day 1..6 is shown under its own day and
      under no other, so a lecture for day 7 or 0 is never shown. */
  lemma WeekViewPartition(lectures: seq<Lecture>, l: Lecture, v: int)
    requires l in lectures
    ensures l in OnDay(lectures, v) <==> l.day == v
  {
    OnDayMembers(lectures, v);
  }
}
