/**
 * The timetable's data model and its constant catalogs: the `Lecture` record, subjects, class
 * periods, weekdays, lecture types, rotation weeks, sub-groups and the command flags. Every
 * dialog step checks its input against one of these tables.
 */
module Model {
  import opened Wrappers
  import opened GoLib

  /** One recurring timetable entry. `week` "0" means every week; `subGroup` "0" both groups. */
  datatype Lecture = Lecture(
    id: ObjectId,
    week: string,
    subject: string,
    time: int,
    lectureType: string,
    day: int,
    room: string,
    lecturer: string,
    subGroup: string)

  /** The zero `Lecture{}`: every field empty, the id unset. */
  const EmptyLecture: Lecture := Lecture(ZeroId, "", "", 0, "", 0, "", "", "")

  datatype Subject = Subject(name: string, key: string, lecturer: string)

  datatype Period = Period(start: string, end: string)

  /** The flags of a query command: `-l` asks for full names, `-1`/`-2` picks a sub-group. */
  datatype Args = Args(long: bool, group: string)

  /** Period.String: "start-end". */
  function PeriodString(p: Period): (r: string)
    ensures |r| == |p.start| + 1 + |p.end|
    ensures r[..|p.start|] == p.start && r[|p.start|] == '-' && r[|p.start| + 1..] == p.end
  {
    p.start + "-" + p.end
  }

  /** The position of the first dash, or the length when there is none. */
  function DashIndex(s: string): (i: nat)
    ensures i <= |s|
    decreases |s|
  {
    if s == [] || s[0] == '-' then 0 else 1 + DashIndex(s[1..])
  }

  lemma {:induction false} DashIndexAfter(a: string, x: string)
    requires '-' !in a
    ensures DashIndex(a + "-" + x) == |a|
    decreases |a|
  {
    if a != [] {
      assert (a + "-" + x)[1..] == a[1..] + "-" + x;
      DashIndexAfter(a[1..], x);
    }
  }

  /** Two periods whose start times contain no dash print differently. */
  lemma PeriodStringInjective(p: Period, q: Period)
    requires '-' !in p.start && '-' !in q.start
    requires PeriodString(p) == PeriodString(q)
    ensures p == q
  {
    var s := PeriodString(p);
    DashIndexAfter(p.start, p.end);
    DashIndexAfter(q.start, q.end);
    assert p.start == s[..|p.start|] == q.start;
    assert p.end == s[|p.start| + 1..] == q.end;
  }

  // ---------------------------------------------------------------------------------------------
  // The catalogs

  const Subjects: map<string, Subject> := map[
    "ТЭ" := Subject("Техническая Электроника", "ТЭ", "Половеня С.И"),
    "ОИкТ" := Subject("Основы Инфокоммуникационных Технологий", "ОИкТ", "Дулькевич А.И"),
    "ФК" := Subject("Физическая Культура", "ФК", "Байко О.М"),
    "ТПИкС" := Subject("Технологии Программирования Инфокоммуникационных Систем", "ТПИкС", "Рябычина О.П"),
    "ТЭЦ" := Subject("Теория Электрических Цепей", "ТЭЦ", "Кочергина О.В"),
    "АЯ" := Subject("Английский Язык", "АЯ", "Мышелова Н.И"),
    "ПУвИО" := Subject("Психология Управления в Информационном Обществе", "ПУвИО", "Христина Л.Ф"),
    "ОТФ" := Subject("Основы Теории Фильтрации", "ОТФ", "Киевец Н.Г"),
    "БЯ" := Subject("Белорусский Язык", "БЯ", "Чуприна Е.А"),
    "ОЦС" := Subject("Основы Цифровой Схемотехники", "ОЦС", "Постельняк  А.А"),
    "ОМО" := Subject("Основы Машинного Обучения", "ОМО", "Колодный В.Б")
  ]

  const Periods: map<int, Period> := map[
    1 := Period("8:00", "9:40"),
    2 := Period("9:55", "11:35"),
    3 := Period("12:15", "13:55"),
    4 := Period("14:10", "15:50"),
    5 := Period("16:20", "18:00"),
    6 := Period("18:15", "19:55")
  ]

  const Days: map<int, string> := map[
    1 := "Понедельник",
    2 := "Вторник",
    3 := "Среда",
    4 := "Четверг",
    5 := "Пятница",
    6 := "Суббота"
  ]

  const Types: map<string, int> := map["ЛР" := 1, "ПЗ" := 2, "ЛК" := 4, "-" := 5]

  const Weeks: map<string, int> := map["0" := 1, "1" := 2, "2" := 3, "3" := 4, "4" := 5]

  const SubGroup: map<string, int> := map["0" := 1, "1" := 2, "2" := 3]

  const CmdOpts: map<string, int> := map["-l" := 1, "-1" := 2, "-2" := 3, "-all" := 4]

  // Go's `m[k]` on a missing key yields the zero value.

  function SubjectOf(key: string): Subject {
    if key in Subjects then Subjects[key] else Subject("", "", "")
  }

  function PeriodOf(time: int): Period {
    if time in Periods then Periods[time] else Period("", "")
  }

  function DayName(day: int): string {
    if day in Days then Days[day] else ""
  }

  // ---------------------------------------------------------------------------------------------
  // What the catalogs guarantee

  /** Every subject is filed under its own key, and no two subjects share a display name. */
  lemma SubjectsWellFormed()
    ensures forall k :: k in Subjects ==> Subjects[k].key == k && Subjects[k].lecturer != ""
    ensures forall a, b :: a in Subjects && b in Subjects && Subjects[a].name == Subjects[b].name ==> a == b
  {
  }

  /** No subject is filed under the empty key. */
  lemma NoEmptySubjectKey()
    ensures "" !in Subjects
  {
  }

  /** The periods are slots 1..6, and no two of them print alike. */
  lemma PeriodsWellFormed()
    ensures Periods.Keys == {1, 2, 3, 4, 5, 6}
    ensures forall a, b :: a in Periods && b in Periods && PeriodString(Periods[a]) == PeriodString(Periods[b]) ==> a == b
  {
    PeriodStartsDashFree();
    forall a, b | a in Periods && b in Periods && PeriodString(Periods[a]) == PeriodString(Periods[b])
      ensures a == b
    {
      PeriodStringInjective(Periods[a], Periods[b]);
    }
  }

  /** No start time of a period holds a dash. */
  lemma PeriodStartsDashFree()
    ensures forall t :: t in Periods ==> '-' !in Periods[t].start
  {
  }

  /** The days are Monday (1) to Saturday (6), all named differently. */
  lemma DaysWellFormed()
    ensures Days.Keys == {1, 2, 3, 4, 5, 6}
    ensures forall a, b :: a in Days && b in Days && Days[a] == Days[b] ==> a == b
  {
  }

  /** The keys of the small catalogs. */
  lemma SmallCatalogKeys()
    ensures Weeks.Keys == {"0", "1", "2", "3", "4"}
    ensures SubGroup.Keys == {"0", "1", "2"}
    ensures Types.Keys == {"ЛР", "ПЗ", "ЛК", "-"}
    ensures CmdOpts.Keys == {"-l", "-1", "-2", "-all"}
  {
  }

  /** Every rotation week in the catalog reads as an integer in 0..4. */
  lemma WeeksAreSmallNumbers(w: string)
    requires w in Weeks
    ensures 0 <= Atoi(w) <= 4
  {
  }

  /** Every subject name holds a capital letter (the start of its last capitalised word). */
  lemma SubjectNamesCapitalised(k: string) returns (i: int)
    requires k in Subjects
    ensures 0 <= i < |Subjects[k].name| && IsUpper(Subjects[k].name[i])
  {
    if k in {"ТЭ", "ОИкТ", "ФК", "ТПИкС", "ТЭЦ", "АЯ"} {
      i := CapitalInFirstSubjects(k);
    } else {
      i := CapitalInLastSubjects(k);
    }
  }

  /** The same, for the first six entries of the catalog (split to keep each proof small). */
  lemma CapitalInFirstSubjects(k: string) returns (i: int)
    requires k in {"ТЭ", "ОИкТ", "ФК", "ТПИкС", "ТЭЦ", "АЯ"}
    ensures k in Subjects && 0 <= i < |Subjects[k].name| && IsUpper(Subjects[k].name[i])
  {
    if k == "ТЭ" {
      i := 12;
    } else if k == "ОИкТ" {
      i := 28;
    } else if k == "ФК" {
      i := 11;
    } else if k == "ТПИкС" {
      i := 49;
    } else if k == "ТЭЦ" {
      i := 21;
    } else {
      i := 11;
    }
  }

  /** The same, for the last five entries. */
  lemma CapitalInLastSubjects(k: string) returns (i: int)
    requires k in Subjects && k !in {"ТЭ", "ОИкТ", "ФК", "ТПИкС", "ТЭЦ", "АЯ"}
    ensures 0 <= i < |Subjects[k].name| && IsUpper(Subjects[k].name[i])
  {
    if k == "ПУвИО" {
      i := 39;
    } else if k == "ОТФ" {
      i := 14;
    } else if k == "БЯ" {
      i := 12;
    } else if k == "ОЦС" {
      i := 16;
    } else {
      i := 17;
    }
  }

  /** Day names begin with a capital letter. */
  lemma DayNamesCapitalised(d: int)
    requires d in Days
    ensures |Days[d]| > 0 && IsUpper(Days[d][0])
  {
  }

  /** Every lecture type but "-" begins with a capital letter. */
  lemma TypesCapitalised(t: string)
    requires t in Types && t != "-"
    ensures |t| > 0 && IsUpper(t[0])
  {
  }

  // ---------------------------------------------------------------------------------------------
  // Lookup by display text. The source scans a Go map, whose iteration order is random; the
  // names being distinct is what makes the key found independent of that order.

  function SubjectByName(text: string): (r: Option<string>)
    ensures r.Some? ==> r.value in Subjects && Subjects[r.value].name == text
    ensures r.None? ==> forall k :: k in Subjects ==> Subjects[k].name != text
  {
    SubjectsWellFormed();
    if exists k :: k in Subjects && Subjects[k].name == text then
      var k :| k in Subjects && Subjects[k].name == text; Some(k)
    else None
  }

  function DayByName(text: string): (r: Option<int>)
    ensures r.Some? ==> r.value in Days && Days[r.value] == text
    ensures r.None? ==> forall d :: d in Days ==> Days[d] != text
  {
    DaysWellFormed();
    if exists d :: d in Days && Days[d] == text then
      var d :| d in Days && Days[d] == text; Some(d)
    else None
  }

  function PeriodByString(text: string): (r: Option<int>)
    ensures r.Some? ==> r.value in Periods && PeriodString(Periods[r.value]) == text
    ensures r.None? ==> forall t :: t in Periods ==> PeriodString(Periods[t]) != text
  {
    PeriodsWellFormed();
    if exists t :: t in Periods && PeriodString(Periods[t]) == text then
      var t :| t in Periods && PeriodString(Periods[t]) == text; Some(t)
    else None
  }

  /** Looking up an entry's own display text finds that entry, whatever order a scan takes. */
  lemma LookupFindsOwnEntry(k: string, d: int, t: int)
    ensures k in Subjects ==> SubjectByName(Subjects[k].name) == Some(k)
    ensures d in Days ==> DayByName(Days[d]) == Some(d)
    ensures t in Periods ==> PeriodByString(PeriodString(Periods[t])) == Some(t)
  {
    SubjectsWellFormed();
    DaysWellFormed();
    PeriodsWellFormed();
  }
}
