/**
 * The three admin dialogs of tghelp.go: adding a lecture field by field (HandleLectureInput),
 * editing one (HandleLectureUpdate) and deleting one (HandleLectureDelete). Each dialog keeps one
 * session per user in a map; every message of the user advances that session by one step.
 *
 * A step is first described as a value (CreateInput, EditInput, DeleteInput), then the handler
 * methods of `Sessions` apply it to the session maps and to the database. The replies are the
 * kinds of message the bot sends; their wording and keyboards are left out.
 */
module Dialogs {
  import opened Wrappers
  import opened GoLib
  import opened Model
  import opened Store

  /** The fields of a lecture, in the order the dialogs ask for them. */
  datatype Field = WeekField | SubjectField | TypeField | DayField | RoomField | TimeField | SubGroupField

  function Rank(f: Field): nat {
    match f
    case WeekField => 0
    case SubjectField => 1
    case TypeField => 2
    case DayField => 3
    case RoomField => 4
    case TimeField => 5
    case SubGroupField => 6
  }

  /** The field prompted for after `f`. */
  function Following(f: Field): (g: Field)
    requires f != SubGroupField
    ensures Rank(g) == Rank(f) + 1
  {
    match f
    case WeekField => SubjectField
    case SubjectField => TypeField
    case TypeField => DayField
    case DayField => RoomField
    case RoomField => TimeField
    case TimeField => SubGroupField
  }

  /** What a dialog answers to one message. */
  datatype DialogReply =
    | Cancelled              // "Lecture insert/update/delete cancelled"
    | Ask(field: Field)      // the prompt for the next field
    | Invalid(field: Field)  // "Invalid ...", the same field asked again
    | InvalidId              // "invalid lectureID"
    | Failed(err: DbError)   // "error: .."
    | Added                  // "Added successfully"
    | Updated(id: ObjectId)  // "updated [ id ] successfully"
    | Deleted(hex: string)   // "Deleted lecture [ text ] successfully"

  // ---------------------------------------------------------------------------------------------
  // Fields

  /** A field still holds its zero value, so the dialog has not got past it. */
  predicate Unset(l: Lecture, f: Field) {
    match f
    case WeekField => l.week == ""
    case SubjectField => l.subject == ""
    case TypeField => l.lectureType == ""
    case DayField => l.day == 0
    case RoomField => l.room == ""
    case TimeField => l.time == 0
    case SubGroupField => l.subGroup == ""
  }

  /** The value of a field is one the catalogs offer (any room is). */
  predicate FieldValid(l: Lecture, f: Field) {
    match f
    case WeekField => l.week in Weeks
    case SubjectField => l.subject in Subjects && l.lecturer == Subjects[l.subject].lecturer
    case TypeField => l.lectureType in Types
    case DayField => l.day in Days
    case RoomField => true
    case TimeField => l.time in Periods
    case SubGroupField => l.subGroup in SubGroup
  }

  /** Two lectures agree on a field (the subject's field includes the lecturer, which is set with it). */
  predicate Agree(a: Lecture, b: Lecture, f: Field) {
    match f
    case WeekField => a.week == b.week
    case SubjectField => a.subject == b.subject && a.lecturer == b.lecturer
    case TypeField => a.lectureType == b.lectureType
    case DayField => a.day == b.day
    case RoomField => a.room == b.room
    case TimeField => a.time == b.time
    case SubGroupField => a.subGroup == b.subGroup
  }

  predicate SameExcept(a: Lecture, b: Lecture, f: Field) {
    a.id == b.id && forall g :: g != f ==> Agree(a, b, g)
  }

  /** The first field still unset: the one the if-chain of a dialog handles next. */
  function NextField(l: Lecture): (f: Option<Field>)
    ensures f.Some? ==> Unset(l, f.value) && forall g :: Rank(g) < Rank(f.value) ==> !Unset(l, g)
    ensures f.None? ==> forall g :: !Unset(l, g)
  {
    if l.week == "" then Some(WeekField)
    else if l.subject == "" then Some(SubjectField)
    else if l.lectureType == "" then Some(TypeField)
    else if l.day == 0 then Some(DayField)
    else if l.room == "" then Some(RoomField)
    else if l.time == 0 then Some(TimeField)
    else if l.subGroup == "" then Some(SubGroupField)
    else None
  }

  /** The text is one the catalog of the field offers, compared exactly: a week, subject name, type,
      day name, period "start-end" or sub-group; any text is a room. The lookups by name find an
      entry exactly when one has that name. */
  predicate Accepts(f: Field, text: string) {
    match f
    case WeekField => text in Weeks
    case SubjectField => SubjectByName(text).Some?
    case TypeField => text in Types
    case DayField => DayByName(text).Some?
    case RoomField => true
    case TimeField => PeriodByString(text).Some?
    case SubGroupField => text in SubGroup
  }

  // One function per field: the text looked up in the field's catalog.

  function FillWeek(l: Lecture, text: string): (r: Option<Lecture>)
    ensures r.None? <==> text !in Weeks
    ensures r.Some? ==> r.value == l.(week := text)
  {
    if text in Weeks then Some(l.(week := text)) else None
  }

  function FillSubject(l: Lecture, text: string): (r: Option<Lecture>)
    ensures r.None? <==> !Accepts(SubjectField, text)
    ensures r.Some? ==> r.value.subject in Subjects && Subjects[r.value.subject].name == text
                        && r.value == l.(subject := r.value.subject, lecturer := Subjects[r.value.subject].lecturer)
    ensures r.Some? ==> r.value.subject != ""
  {
    SubjectsWellFormed();
    NoEmptySubjectKey();
    match SubjectByName(text)
    case Some(k) => Some(l.(subject := Subjects[k].key, lecturer := Subjects[k].lecturer))
    case None => None
  }

  function FillType(l: Lecture, text: string): (r: Option<Lecture>)
    ensures r.None? <==> text !in Types
    ensures r.Some? ==> r.value == l.(lectureType := text)
  {
    if text in Types then Some(l.(lectureType := text)) else None
  }

  function FillDay(l: Lecture, text: string): (r: Option<Lecture>)
    ensures r.None? <==> !Accepts(DayField, text)
    ensures r.Some? ==> r.value.day in Days && Days[r.value.day] == text && r.value == l.(day := r.value.day)
    ensures r.Some? ==> r.value.day != 0
  {
    match DayByName(text)
    case Some(d) => Some(l.(day := d))
    case None => None
  }

  function FillTime(l: Lecture, text: string): (r: Option<Lecture>)
    ensures r.None? <==> !Accepts(TimeField, text)
    ensures r.Some? ==> r.value.time in Periods && PeriodString(Periods[r.value.time]) == text
                        && r.value == l.(time := r.value.time)
    ensures r.Some? ==> r.value.time != 0
  {
    match PeriodByString(text)
    case Some(t) => Some(l.(time := t))
    case None => None
  }

  function FillSubGroup(l: Lecture, text: string): (r: Option<Lecture>)
    ensures r.None? <==> text !in SubGroup
    ensures r.Some? ==> r.value == l.(subGroup := text)
  {
    if text in SubGroup then Some(l.(subGroup := text)) else None
  }

  /** The answer `text` for field `f`: the lecture with that field set, or None when the catalog
      does not offer it. Choosing a subject also sets its lecturer. */
  function Fill(l: Lecture, f: Field, text: string): (r: Option<Lecture>)
    ensures r.None? <==> !Accepts(f, text)
    ensures r.Some? ==> FieldValid(r.value, f) && SameExcept(l, r.value, f)
    ensures r.Some? && f != RoomField ==> !Unset(r.value, f)
    ensures r.Some? && f == RoomField ==> r.value.room == text
  {
    match f
    case WeekField => FillWeek(l, text)
    case SubjectField => FillSubject(l, text)
    case TypeField => FillType(l, text)
    case DayField => FillDay(l, text)
    case RoomField => Some(l.(room := text))
    case TimeField => FillTime(l, text)
    case SubGroupField => FillSubGroup(l, text)
  }

  /** The replies after a write: an error message when it failed, then the success message all the
      same. */
  function CommitReplies(err: Option<DbError>, done: DialogReply): (rs: seq<DialogReply>)
    ensures |rs| > 0 && rs[|rs| - 1] == done
    ensures err.None? <==> |rs| == 1
    ensures err.Some? ==> rs[0] == Failed(err.value)
  {
    (if err.Some? then [Failed(err.value)] else []) + [done]
  }

  /** The session after a step: kept (possibly changed) or removed from the map. */
  function Place<V>(m: map<int, V>, user: int, session: Option<V>): (m': map<int, V>)
    ensures session.Some? ==> m' == m[user := session.value]
    ensures session.None? ==> user !in m' && forall u :: u != user ==> (u in m' <==> u in m)
  {
    if session.Some? then m[user := session.value] else m - {user}
  }

  // ---------------------------------------------------------------------------------------------
  // Adding a lecture

  /** One step of HandleLectureInput: the session left afterwards, the lecture to insert, and the
      replies sent before the insert. */
  datatype CreateStep = CreateStep(session: Option<Lecture>, insert: Option<Lecture>, replies: seq<DialogReply>)

  /** HandleLectureInput for a user with session `l`; `text` is the message trimmed (not
      lowercased). */
  function CreateInput(l: Lecture, text: string): (st: CreateStep)
    ensures st.session.None? <==> text == "cancel" || st.insert.Some?
    ensures st.insert.Some? ==>
      text != "cancel" && NextField(l) == Some(SubGroupField) && text in SubGroup
      && st.insert.value == l.(subGroup := text)
    ensures st.session.Some? ==>
      st.session.value == l || (NextField(l).Some? && Fill(l, NextField(l).value, text) == st.session)
    ensures text != "cancel" && NextField(l).Some? && !Accepts(NextField(l).value, text) ==>
      st.session == Some(l) && st.insert.None?
    ensures text != "cancel" && NextField(l).Some? && Accepts(NextField(l).value, text) ==>
      if NextField(l).value == SubGroupField then st.insert == Fill(l, SubGroupField, text) && st.session.None?
      else st.session == Fill(l, NextField(l).value, text) && st.insert.None?
  {
    if text == "cancel" then CreateStep(None, None, [Cancelled])
    else match NextField(l)
      case None => CreateStep(Some(l), None, [])
      case Some(f) =>
        match Fill(l, f, text)
        case None => CreateStep(Some(l), None, [Invalid(f)])
        case Some(l') =>
          if f == SubGroupField then CreateStep(None, Some(l'), [])
          else CreateStep(Some(l'), None, [Ask(Following(f))])
  }

  /** A session of the add dialog: no id yet, fields filled in order, each from its catalog. */
  predicate Partial(l: Lecture) {
    IsZero(l.id)
    && (l.subject == "" ==> l.lecturer == "")
    && (forall f :: !Unset(l, f) ==> FieldValid(l, f))
    && (forall f, g :: Rank(f) < Rank(g) && Unset(l, f) ==> Unset(l, g))
  }

  /** A lecture with every field set from its catalog. */
  predicate Complete(l: Lecture) {
    forall f :: !Unset(l, f) && FieldValid(l, f)
  }

  /** "cancel" (after trimming) ends the add dialog at every step without writing anything. */
  lemma CreateCancel(l: Lecture, text: string)
    requires text == "cancel"
    ensures CreateInput(l, text) == CreateStep(None, None, [Cancelled])
  {
  }

  /** A step changes at most the first unset field; an answer the catalog does not offer changes
      nothing, and the same field is asked again. */
  lemma CreateChangesOneField(l: Lecture, text: string)
    requires NextField(l).Some?
    ensures var st := CreateInput(l, text); var f := NextField(l).value;
      (st.session.Some? ==> SameExcept(l, st.session.value, f))
      && (st.insert.Some? ==> SameExcept(l, st.insert.value, f) && f == SubGroupField)
      && (text != "cancel" && !Accepts(f, text) ==> st == CreateStep(Some(l), None, [Invalid(f)]))
  {
    var f := NextField(l).value;
    forall g ensures Agree(l, l, g) {
    }
  }

  /** The add dialog keeps its session well formed, and it inserts only complete lectures without
      an id, exactly when the sub-group, the last field, is answered. */
  lemma CreateKeepsPartial(l: Lecture, text: string)
    requires Partial(l)
    ensures var st := CreateInput(l, text);
      (st.session.Some? ==> Partial(st.session.value))
      && (st.insert.Some? ==> Complete(st.insert.value) && IsZero(st.insert.value.id))
      && (st.insert.Some? <==> text != "cancel" && NextField(l) == Some(SubGroupField) && text in SubGroup)
  {
    if text != "cancel" && NextField(l).Some? {
      var f := NextField(l).value;
      if Fill(l, f, text).Some? {
        FillKeepsPartial(l, f, text);
        if f == SubGroupField {
          FillCompletes(l, text);
        }
      }
    }
  }

  /** Filling the first unset field from its catalog keeps the session well formed. */
  lemma FillKeepsPartial(l: Lecture, f: Field, text: string)
    requires Partial(l) && NextField(l) == Some(f) && Fill(l, f, text).Some?
    ensures Partial(Fill(l, f, text).value)
  {
    var l' := Fill(l, f, text).value;
    if Unset(l', f) {
      assert l' == l;
    }
    SetFieldKeepsPartial(l, l', f);
  }

  /** Setting the first unset field to a valid value, and nothing else, keeps the session well
      formed; a field left unset must leave the lecture as it was. */
  lemma SetFieldKeepsPartial(l: Lecture, l': Lecture, f: Field)
    requires Partial(l) && NextField(l) == Some(f)
    requires SameExcept(l, l', f) && FieldValid(l', f) && (Unset(l', f) ==> l' == l)
    ensures Partial(l')
  {
    forall g | g != f
      ensures Unset(l, g) <==> Unset(l', g)
      ensures FieldValid(l, g) <==> FieldValid(l', g)
    {
      AgreeValid(l, l', g);
    }
    assert l'.subject == "" ==> l'.lecturer == "" by {
      if f != SubjectField {
        assert Agree(l, l', SubjectField);
      }
    }
    SetFieldKeepsValid(l, l', f, FieldValid);
    SetFieldKeepsOrder(l, l', f);
  }

  /** Whether a field is set, and whether it is valid, depends on that field alone. */
  lemma AgreeValid(a: Lecture, b: Lecture, g: Field)
    requires Agree(a, b, g)
    ensures Unset(a, g) <==> Unset(b, g)
    ensures FieldValid(a, g) <==> FieldValid(b, g)
  {
  }

  /** The set fields stay valid when only the first unset field changes, to a valid value. */
  lemma SetFieldKeepsValid(l: Lecture, l': Lecture, f: Field, valid: (Lecture, Field) -> bool)
    requires forall g :: !Unset(l, g) ==> valid(l, g)
    requires valid(l', f)
    requires forall g :: g != f ==> (Unset(l, g) <==> Unset(l', g)) && (valid(l, g) <==> valid(l', g))
    ensures forall g :: !Unset(l', g) ==> valid(l', g)
  {
  }

  /** The fields stay set in order: only the first unset field may change. */
  lemma SetFieldKeepsOrder(l: Lecture, l': Lecture, f: Field)
    requires NextField(l) == Some(f)
    requires Unset(l', f) ==> l' == l
    requires forall g, h :: Rank(g) < Rank(h) && Unset(l, g) ==> Unset(l, h)
    requires forall g :: g != f ==> (Unset(l, g) <==> Unset(l', g))
    ensures forall g, h :: Rank(g) < Rank(h) && Unset(l', g) ==> Unset(l', h)
  {
    forall g, h | Rank(g) < Rank(h) && Unset(l', g)
      ensures Unset(l', h)
    {
      if g != f {
        assert Rank(f) < Rank(g);
      }
    }
  }

  /** Filling the sub-group, the last field, completes the lecture. */
  lemma FillCompletes(l: Lecture, text: string)
    requires Partial(l) && NextField(l) == Some(SubGroupField) && Fill(l, SubGroupField, text).Some?
    ensures Complete(Fill(l, SubGroupField, text).value) && IsZero(Fill(l, SubGroupField, text).value.id)
  {
    var l' := Fill(l, SubGroupField, text).value;
    forall g | g != SubGroupField
      ensures !Unset(l', g) && FieldValid(l', g)
    {
      assert Rank(g) < Rank(SubGroupField);
      assert !Unset(l, g) && FieldValid(l, g);
      assert Agree(l, l', g);
    }
  }

  /** The dialog starts from the zero lecture, which is a well-formed session. */
  lemma EmptyLectureIsPartial()
    ensures Partial(EmptyLecture) && NextField(EmptyLecture) == Some(WeekField)
  {
  }

  /** What the add dialog inserts is stored under the fresh id and reads back as entered: its week
      always passes the store's week check. */
  lemma CreatedLectureReadBack(c: Collection, l: Lecture, newId: ObjectId)
    requires Complete(l) && IsZero(l.id)
    requires WellKeyed(c) && Canonical(newId) && newId !in c
    ensures InsertOutcome(c, l, newId, false).err.None?
    ensures GetOutcome(InsertOutcome(c, l, newId, false).lectures, newId.hex, false) == Success(l.(id := newId))
  {
    assert FieldValid(l, WeekField);
    WeeksAreSmallNumbers(l.week);
    InsertThenGet(c, l, newId);
  }

  // ---------------------------------------------------------------------------------------------
  // Editing a lecture

  /** UpdateLecture: the lecture as it is stored, and the new values collected so far. */
  datatype EditSession = EditSession(oldLecture: Lecture, newLecture: Lecture)

  const NewEdit: EditSession := EditSession(EmptyLecture, EmptyLecture)

  /** One step of HandleLectureUpdate: the session left afterwards, the new lecture to write over
      the old one, and the replies sent before the write. */
  datatype EditStep = EditStep(session: Option<EditSession>, update: Option<Lecture>, replies: seq<DialogReply>)

  /** The normalised text of the edit and delete dialogs: trimmed, then lowercased. */
  function Lowered(raw: string): string {
    ToLower(TrimSpace(raw))
  }

  /** While the old lecture is not loaded, a step reads the lecture the text names. */
  predicate EditNeedsGet(e: EditSession, text: string) {
    IsZero(e.oldLecture.id) && ParseObjectId(text).Some?
  }

  /** "skip": the field of the old lecture. Skipping the subject does not copy the lecturer. */
  function Skip(e: EditSession, f: Field): (n: Lecture)
    ensures f != SubjectField ==> SameExcept(e.newLecture, n, f) && Agree(n, e.oldLecture, f)
    ensures f == SubjectField ==> n == e.newLecture.(subject := e.oldLecture.subject)
  {
    var n := e.newLecture;
    match f
    case WeekField => n.(week := e.oldLecture.week)
    case SubjectField => n.(subject := e.oldLecture.subject)
    case TypeField => n.(lectureType := e.oldLecture.lectureType)
    case DayField => n.(day := e.oldLecture.day)
    case RoomField => n.(room := e.oldLecture.room)
    case TimeField => n.(time := e.oldLecture.time)
    case SubGroupField => n.(subGroup := e.oldLecture.subGroup)
  }

  function EditFill(e: EditSession, f: Field, text: string): Option<Lecture> {
    if text == "skip" then Some(Skip(e, f)) else Fill(e.newLecture, f, text)
  }

  /**
   * HandleLectureUpdate for a user with session `e`; `text` is the message trimmed and
   * lowercased, and `got` is what reading the named lecture
   * returns, consulted only when EditNeedsGet. "cancel" removes the session and replies, but the
   * step then goes on with its own copy of the session, so a branch that stores the session
   * brings it back.
   */
  function EditInput(e: EditSession, text: string, got: Result<Lecture, DbError>): (st: EditStep)
    ensures IsZero(e.oldLecture.id) ==> st.update.None?
    ensures st.update.Some? ==> st.session.None? && NextField(e.newLecture) == Some(SubGroupField)
    ensures st.session.Some? && st.session.value.oldLecture != e.oldLecture ==>
      IsZero(e.oldLecture.id) && got.Success? && st.session.value == e.(oldLecture := got.value)
  {
    if IsZero(e.oldLecture.id) then EditIdStep(e, text, got) else EditFieldStep(e, text)
  }

  /** The replies "cancel" adds in front of those of the step. */
  function CancelNote(text: string): seq<DialogReply> {
    if text == "cancel" then [Cancelled] else []
  }

  /** The session left by a step that does not store it: "cancel" has removed it. */
  function Kept(e: EditSession, text: string): Option<EditSession> {
    if text == "cancel" then None else Some(e)
  }

  /** The first step: the text must be an id, and the lecture it names is loaded. */
  function EditIdStep(e: EditSession, text: string, got: Result<Lecture, DbError>): (st: EditStep)
    ensures st.update.None?
    ensures st.session.None? <==> text == "cancel"
    ensures st.session.Some? ==>
      st.session.value == (if ParseObjectId(text).Some? && got.Success? then e.(oldLecture := got.value) else e)
  {
    assert !IsHex24("cancel");
    if ParseObjectId(text).None? then EditStep(Kept(e, text), None, CancelNote(text) + [InvalidId])
    else if got.Failure? then EditStep(Kept(e, text), None, CancelNote(text) + [Failed(got.error)])
    else EditStep(Some(e.(oldLecture := got.value)), None, CancelNote(text) + [Ask(WeekField)])
  }

  /** The later steps: the first unset field of the new values, "skip" keeping the old one. */
  function EditFieldStep(e: EditSession, text: string): (st: EditStep)
    ensures st.update.Some? ==>
      st.session.None? && NextField(e.newLecture) == Some(SubGroupField)
      && st.update.value == e.newLecture.(subGroup := if text == "skip" then e.oldLecture.subGroup else text)
    ensures st.session.Some? ==>
      st.session.value.oldLecture == e.oldLecture
      && (st.session.value == e
          || (NextField(e.newLecture).Some? && EditFill(e, NextField(e.newLecture).value, text) == Some(st.session.value.newLecture)))
    ensures text == "cancel" ==> |st.replies| > 0 && st.replies[0] == Cancelled && (st.session.Some? ==> st.session.value != e)
    ensures text != "cancel" && NextField(e.newLecture).Some? && EditFill(e, NextField(e.newLecture).value, text).Some? ==>
      if NextField(e.newLecture).value == SubGroupField then st.update == EditFill(e, SubGroupField, text) && st.session.None?
      else st.session == Some(e.(newLecture := EditFill(e, NextField(e.newLecture).value, text).value)) && st.update.None?
  {
    match NextField(e.newLecture)
    case None => EditStep(Kept(e, text), None, CancelNote(text))
    case Some(f) =>
      match EditFill(e, f, text)
      case None => EditStep(Kept(e, text), None, CancelNote(text) + [Invalid(f)])
      case Some(n) =>
        if f == SubGroupField then EditStep(None, Some(n), CancelNote(text))
        else EditStep(Some(e.(newLecture := n)), None, CancelNote(text) + [Ask(Following(f))])
  }

  /** A step of the edit dialog past the id, at field `f`: EditInput is then EditFieldStep. */
  predicate EditAt(e: EditSession, f: Field) {
    !IsZero(e.oldLecture.id) && NextField(e.newLecture) == Some(f)
  }

  /** The text is lowercased before it is compared with the catalogs, and every subject name
      holds a capital letter: no message matches one. */
  lemma LoweredNoSubjectName(raw: string)
    ensures !Accepts(SubjectField, Lowered(raw))
  {
    var s := TrimSpace(raw);
    NoSubjectNameLowered(s);
    assert Lowered(raw) == ToLower(s);
  }

  /** The same, for a text already trimmed. */
  lemma NoSubjectNameLowered(s: string)
    ensures !Accepts(SubjectField, ToLower(s))
  {
    var r := SubjectByName(ToLower(s));
    if r.Some? {
      var i := SubjectNamesCapitalised(r.value);
      LoweredNeverCapitalised(s, Subjects[r.value].name, i);
    }
  }

  /** Nor does any message match a day name. */
  lemma LoweredNoDayName(raw: string)
    ensures !Accepts(DayField, Lowered(raw))
  {
    var s := TrimSpace(raw);
    NoDayNameLowered(s);
    assert Lowered(raw) == ToLower(s);
  }

  /** The same, for a text already trimmed. */
  lemma NoDayNameLowered(s: string)
    ensures !Accepts(DayField, ToLower(s))
  {
    var r := DayByName(ToLower(s));
    if r.Some? {
      DayNamesCapitalised(r.value);
      LoweredNeverCapitalised(s, Days[r.value], 0);
    }
  }

  /** Of the lecture types only "-" is lowercase. */
  lemma LoweredTypes(raw: string)
    ensures Lowered(raw) in Types ==> Lowered(raw) == "-"
  {
    var s := TrimSpace(raw);
    var text := ToLower(s);
    if text in Types && text != "-" {
      TypesCapitalised(text);
      LoweredNeverCapitalised(s, text, 0);
    }
    assert Lowered(raw) == text;
  }

  /** An answer the catalog does not offer, other than "skip", changes nothing in the edit
      dialog and is answered as invalid. */
  lemma EditRejects(e: EditSession, text: string)
    requires NextField(e.newLecture).Some?
    requires text != "skip" && !Accepts(NextField(e.newLecture).value, text)
    ensures EditFieldStep(e, text) == EditStep(Kept(e, text), None, CancelNote(text) + [Invalid(NextField(e.newLecture).value)])
  {
  }

  /** So at the subject step of the edit dialog only "skip" gets further: any other message is
      answered as invalid and changes nothing. */
  lemma EditSubjectOnlySkip(e: EditSession, raw: string)
    requires EditAt(e, SubjectField) && Lowered(raw) != "skip"
    ensures EditFieldStep(e, Lowered(raw)) == EditStep(Kept(e, Lowered(raw)), None, CancelNote(Lowered(raw)) + [Invalid(SubjectField)])
  {
    LoweredNoSubjectName(raw);
    EditRejects(e, Lowered(raw));
  }

  /** The same holds at the day step. */
  lemma EditDayOnlySkip(e: EditSession, raw: string)
    requires EditAt(e, DayField) && Lowered(raw) != "skip"
    ensures EditFieldStep(e, Lowered(raw)) == EditStep(Kept(e, Lowered(raw)), None, CancelNote(Lowered(raw)) + [Invalid(DayField)])
  {
    LoweredNoDayName(raw);
    EditRejects(e, Lowered(raw));
  }

  /** And the only type the edit dialog accepts besides "skip" is "-". */
  lemma EditTypeOnlyDash(e: EditSession, raw: string)
    requires EditAt(e, TypeField)
    ensures var st := EditFieldStep(e, Lowered(raw));
      st.session.Some? && st.session.value != e ==> Lowered(raw) in {"skip", "-"}
  {
    LoweredTypes(raw);
    TypeStepMoves(e, Lowered(raw));
  }

  /** At the type step the session changes only on "skip" or a type of the catalog. */
  lemma TypeStepMoves(e: EditSession, text: string)
    requires EditAt(e, TypeField)
    ensures var st := EditFieldStep(e, text);
      st.session.Some? && st.session.value != e ==> text == "skip" || text in Types
  {
  }

  /** "cancel" at the room step: the dialog says it is cancelled, yet stores "cancel" as the room
      and carries on with the period. */
  lemma EditCancelAtRoom(e: EditSession, got: Result<Lecture, DbError>)
    requires EditAt(e, RoomField)
    ensures EditInput(e, "cancel", got)
            == EditStep(Some(e.(newLecture := e.newLecture.(room := "cancel"))), None, [Cancelled, Ask(TimeField)])
  {
  }

  /** No subject is called "cancel": every subject name holds a capital letter. */
  lemma NoSubjectCalledCancel()
    ensures forall k :: k in Subjects ==> Subjects[k].name != "cancel"
  {
    forall k | k in Subjects ensures Subjects[k].name != "cancel" {
      var i := SubjectNamesCapitalised(k);
    }
  }

  /** "cancel" is in no catalog: no subject, day or period is called that, and no week, type or
      sub-group. */
  lemma CancelIsNoAnswer(f: Field)
    requires f != RoomField
    ensures !Accepts(f, "cancel")
  {
    if f == SubjectField {
      NoSubjectCalledCancel();
    } else if f == DayField {
      forall d | d in Days ensures Days[d] != "cancel" {
        DayNamesCapitalised(d);
      }
    } else if f == TimeField {
      NoPeriodCalledCancel();
    }
  }

  /** No period prints as "cancel": each starts with a digit. */
  lemma NoPeriodCalledCancel()
    ensures forall t :: t in Periods ==> PeriodString(Periods[t]) != "cancel"
  {
    forall t | t in Periods ensures PeriodString(Periods[t]) != "cancel" {
      assert PeriodString(Periods[t])[0] != 'c';
    }
  }

  /** At every other step "cancel" does end the edit dialog, without writing anything. */
  lemma EditCancelElsewhere(e: EditSession, got: Result<Lecture, DbError>)
    requires !EditAt(e, RoomField)
    ensures var st := EditInput(e, "cancel", got);
      st.session.None? && st.update.None? && st.replies[0] == Cancelled
  {
    assert !IsHex24("cancel");
    if !IsZero(e.oldLecture.id) && NextField(e.newLecture).Some? {
      CancelIsNoAnswer(NextField(e.newLecture).value);
    }
  }

  /** Answering "skip" `n` times; the last step taken is returned. */
  function Skips(e: EditSession, n: nat): EditStep
    decreases n
  {
    var st := EditInput(e, "skip", Success(e.oldLecture));
    if n <= 1 || st.session.None? then st else Skips(st.session.value, n - 1)
  }

  /** Skipping every field writes back the old lecture, but not its lecturer: the new values never
      received the lecturer, so it is written as "". */
  lemma SkipAllDropsLecturer(l: Lecture)
    requires !IsZero(l.id)
    requires forall f :: !Unset(l, f)
    ensures Skips(EditSession(l, EmptyLecture), 7) == EditStep(None, Some(l.(id := ZeroId, lecturer := "")), [])
  {
    assert !Unset(l, WeekField) && !Unset(l, SubjectField) && !Unset(l, TypeField) && !Unset(l, DayField);
    assert !Unset(l, RoomField) && !Unset(l, TimeField) && !Unset(l, SubGroupField);
    var n0 := EmptyLecture;
    var n1 := n0.(week := l.week);
    var n2 := n1.(subject := l.subject);
    var n3 := n2.(lectureType := l.lectureType);
    var n4 := n3.(day := l.day);
    var n5 := n4.(room := l.room);
    var n6 := n5.(time := l.time);
    assert Skips(EditSession(l, n6), 1) == EditStep(None, Some(l.(id := ZeroId, lecturer := "")), []);
    SkipMoves(EditSession(l, n5), TimeField, 2);
    SkipMoves(EditSession(l, n4), RoomField, 3);
    SkipMoves(EditSession(l, n3), DayField, 4);
    SkipMoves(EditSession(l, n2), TypeField, 5);
    SkipMoves(EditSession(l, n1), SubjectField, 6);
    SkipMoves(EditSession(l, n0), WeekField, 7);
  }

  /** Past the id, "skip" at any field but the sub-group copies the old value and moves on. */
  lemma SkipMoves(e: EditSession, f: Field, n: nat)
    requires !IsZero(e.oldLecture.id) && NextField(e.newLecture) == Some(f) && f != SubGroupField && n >= 2
    ensures Skips(e, n) == Skips(e.(newLecture := Skip(e, f)), n - 1)
  {
    var st := EditInput(e, "skip", Success(e.oldLecture));
    assert st == EditFieldStep(e, "skip");
    assert EditFill(e, f, "skip") == Some(Skip(e, f));
  }

  /** And the store then holds the old lecture with its lecturer erased. */
  lemma SkipAllErasesStoredLecturer(c: Collection, l: Lecture)
    requires Canonical(l.id) && l.id in c && c[l.id] == l
    ensures UpdateOutcome(c, l.id, l.(id := ZeroId, lecturer := ""), false).err.None?
    ensures GetOutcome(UpdateOutcome(c, l.id, l.(id := ZeroId, lecturer := ""), false).lectures, l.id.hex, false)
            == Success(l.(lecturer := ""))
  {
    UpdateThenGet(c, l.id, l.(id := ZeroId, lecturer := ""));
  }

  // ---------------------------------------------------------------------------------------------
  // Deleting a lecture

  /** One step of HandleLectureDelete: the session left, the text to delete by, and the replies sent
      before the delete. */
  datatype DeleteStep = DeleteStep(session: Option<string>, delete: Option<string>, replies: seq<DialogReply>)

  /** HandleLectureDelete for a user with session `id` ("" until the id is given). As in the edit
      dialog, "cancel" does not stop the step. */
  function DeleteInput(id: string, text: string): (st: DeleteStep)
    ensures id == "" ==> st.session.None? && st.delete == Some(text)
    ensures id != "" ==> st.delete.None? && st.session == (if text == "cancel" then None else Some(id))
    ensures st.replies == (if text == "cancel" then [Cancelled] else [])
  {
    var cancelled := text == "cancel";
    var pre := if cancelled then [Cancelled] else [];
    if id == "" then DeleteStep(None, Some(text), pre)
    else DeleteStep(if cancelled then None else Some(id), None, pre)
  }

  /** The first message after /deletelecture always ends the dialog and always deletes by its text;
      "cancel" too, which the store refuses as a malformed id, before "deleted" is reported. */
  lemma DeleteAlwaysDeletes(c: Collection, text: string, fails: bool)
    ensures DeleteInput("", text).session.None? && DeleteInput("", text).delete == Some(text)
    ensures text == "cancel" ==>
      DeleteInput("", text).replies + CommitReplies(DeleteOutcome(c, "cancel", fails).err, Deleted("cancel"))
      == [Cancelled, Failed(BadObjectId), Deleted("cancel")]
  {
    IdGuards(c, "cancel", fails);
  }

  /** Lowercasing the id does not change which lecture it names. */
  lemma DeleteIgnoresCase(c: Collection, raw: string, fails: bool)
    ensures DeleteOutcome(c, Lowered(raw), fails) == DeleteOutcome(c, TrimSpace(raw), fails)
    ensures GetOutcome(c, Lowered(raw), fails) == GetOutcome(c, TrimSpace(raw), fails)
  {
    ParseObjectIdIgnoresCase(TrimSpace(raw));
  }

  // ---------------------------------------------------------------------------------------------
  // The session maps

  /** The three session maps of the bot, keyed by user id. */
  class Sessions {
    var lectureInput: map<int, Lecture>
    var lectureUpdate: map<int, EditSession>
    var lectureDelete: map<int, string>

    constructor ()
      ensures lectureInput == map[] && lectureUpdate == map[] && lectureDelete == map[]
    {
      lectureInput := map[];
      lectureUpdate := map[];
      lectureDelete := map[];
    }

    /** /addlecture: a fresh add session. */
    method StartCreate(user: int)
      modifies this
      ensures lectureInput == old(lectureInput)[user := EmptyLecture]
      ensures lectureUpdate == old(lectureUpdate) && lectureDelete == old(lectureDelete)
    {
      lectureInput := lectureInput[user := EmptyLecture];
    }

    /** /editlecture: a fresh edit session. */
    method StartEdit(user: int)
      modifies this
      ensures lectureUpdate == old(lectureUpdate)[user := NewEdit]
      ensures lectureInput == old(lectureInput) && lectureDelete == old(lectureDelete)
    {
      lectureUpdate := lectureUpdate[user := NewEdit];
    }

    /** /deletelecture: a fresh delete session. */
    method StartDelete(user: int)
      modifies this
      ensures lectureDelete == old(lectureDelete)[user := ""]
      ensures lectureInput == old(lectureInput) && lectureUpdate == old(lectureUpdate)
    {
      lectureDelete := lectureDelete[user := ""];
    }

    /** HandleLectureInput. `newId` is the id the database would give a new lecture and `fails`
        whether its write fails. */
    method HandleLectureInput(db: Db, user: int, raw: string, newId: ObjectId, fails: bool)
      returns (replies: seq<DialogReply>)
      modifies this, db
      ensures lectureUpdate == old(lectureUpdate) && lectureDelete == old(lectureDelete)
      ensures user !in old(lectureInput) ==>
        lectureInput == old(lectureInput) && db.lectures == old(db.lectures) && db.calls == old(db.calls)
        && replies == []
      ensures user in old(lectureInput) ==>
        var st := CreateInput(old(lectureInput)[user], TrimSpace(raw));
        lectureInput == Place(old(lectureInput), user, st.session)
        && (st.insert.None? ==>
              db.lectures == old(db.lectures) && db.calls == old(db.calls) && replies == st.replies)
        && (st.insert.Some? ==>
              var w := InsertOutcome(old(db.lectures), st.insert.value, newId, fails);
              db.lectures == w.lectures && db.calls == old(db.calls) + [InsertCall(st.insert.value)]
              && replies == st.replies + CommitReplies(w.err, Added))
    {
      replies := [];
      if user in lectureInput {
        var st := CreateInput(lectureInput[user], TrimSpace(raw));
        replies := st.replies;
        if st.insert.Some? {
          var err := db.InsertLecture(st.insert.value, newId, fails);
          replies := replies + CommitReplies(err, Added);
        }
        lectureInput := Place(lectureInput, user, st.session);
      }
    }

    /** HandleLectureUpdate: the text trimmed and lowercased, then one step, which makes one
        database call at most: a read while the old lecture is not loaded, or the write at the
        last field. */
    method HandleLectureUpdate(db: Db, user: int, raw: string, fails: bool)
      returns (replies: seq<DialogReply>)
      modifies this, db
      ensures lectureInput == old(lectureInput) && lectureDelete == old(lectureDelete)
      ensures user !in old(lectureUpdate) ==>
        lectureUpdate == old(lectureUpdate) && db.lectures == old(db.lectures) && db.calls == old(db.calls)
        && replies == []
      ensures user in old(lectureUpdate) ==>
        var e := old(lectureUpdate)[user];
        var needsGet := EditNeedsGet(e, Lowered(raw));
        var st := EditInput(e, Lowered(raw), GetOutcome(old(db.lectures), Lowered(raw), fails));
        var gets := if needsGet then [GetCall(Lowered(raw))] else [];
        lectureUpdate == Place(old(lectureUpdate), user, st.session)
        && (st.update.None? ==>
              db.lectures == old(db.lectures) && db.calls == old(db.calls) + gets && replies == st.replies)
        && (st.update.Some? ==>
              var w := UpdateOutcome(old(db.lectures), e.oldLecture.id, st.update.value, fails);
              !needsGet
              && db.lectures == w.lectures
              && db.calls == old(db.calls) + [UpdateCall(e.oldLecture.id, st.update.value)]
              && replies == st.replies + CommitReplies(w.err, Updated(e.oldLecture.id)))
    {
      replies := EditStepOn(db, user, Lowered(raw), fails);
    }

    /** One step of the edit dialog on the normalised text. */
    method EditStepOn(db: Db, user: int, text: string, fails: bool)
      returns (replies: seq<DialogReply>)
      modifies this, db
      ensures lectureInput == old(lectureInput) && lectureDelete == old(lectureDelete)
      ensures user !in old(lectureUpdate) ==>
        lectureUpdate == old(lectureUpdate) && db.lectures == old(db.lectures) && db.calls == old(db.calls)
        && replies == []
      ensures user in old(lectureUpdate) ==>
        var e := old(lectureUpdate)[user];
        var needsGet := EditNeedsGet(e, text);
        var st := EditInput(e, text, GetOutcome(old(db.lectures), text, fails));
        var gets := if needsGet then [GetCall(text)] else [];
        lectureUpdate == Place(old(lectureUpdate), user, st.session)
        && (st.update.None? ==>
              db.lectures == old(db.lectures) && db.calls == old(db.calls) + gets && replies == st.replies)
        && (st.update.Some? ==>
              var w := UpdateOutcome(old(db.lectures), e.oldLecture.id, st.update.value, fails);
              !needsGet
              && db.lectures == w.lectures
              && db.calls == old(db.calls) + [UpdateCall(e.oldLecture.id, st.update.value)]
              && replies == st.replies + CommitReplies(w.err, Updated(e.oldLecture.id)))
    {
      replies := [];
      if user in lectureUpdate {
        var e := lectureUpdate[user];
        var got: Result<Lecture, DbError> := GetOutcome(db.lectures, text, fails);
        if EditNeedsGet(e, text) {
          got := db.GetLecture(text, fails);
        }
        var st := EditInput(e, text, got);
        replies := st.replies;
        if st.update.Some? {
          var err := db.UpdateLecture(e.oldLecture.id, st.update.value, fails);
          replies := replies + CommitReplies(err, Updated(e.oldLecture.id));
        }
        lectureUpdate := Place(lectureUpdate, user, st.session);
      }
    }

    /** HandleLectureDelete: the text trimmed and lowercased, then one step. */
    method HandleLectureDelete(db: Db, user: int, raw: string, fails: bool)
      returns (replies: seq<DialogReply>)
      modifies this, db
      ensures lectureInput == old(lectureInput) && lectureUpdate == old(lectureUpdate)
      ensures user !in old(lectureDelete) ==>
        lectureDelete == old(lectureDelete) && db.lectures == old(db.lectures) && db.calls == old(db.calls)
        && replies == []
      ensures user in old(lectureDelete) ==>
        var st := DeleteInput(old(lectureDelete)[user], Lowered(raw));
        lectureDelete == Place(old(lectureDelete), user, st.session)
        && (st.delete.None? ==>
              db.lectures == old(db.lectures) && db.calls == old(db.calls) && replies == st.replies)
        && (st.delete.Some? ==>
              var w := DeleteOutcome(old(db.lectures), st.delete.value, fails);
              db.lectures == w.lectures && db.calls == old(db.calls) + [DeleteCall(st.delete.value)]
              && replies == st.replies + CommitReplies(w.err, Deleted(st.delete.value)))
    {
      replies := DeleteStepOn(db, user, Lowered(raw), fails);
    }

    /** One step of the delete dialog on the normalised text. */
    method DeleteStepOn(db: Db, user: int, text: string, fails: bool)
      returns (replies: seq<DialogReply>)
      modifies this, db
      ensures lectureInput == old(lectureInput) && lectureUpdate == old(lectureUpdate)
      ensures user !in old(lectureDelete) ==>
        lectureDelete == old(lectureDelete) && db.lectures == old(db.lectures) && db.calls == old(db.calls)
        && replies == []
      ensures user in old(lectureDelete) ==>
        var st := DeleteInput(old(lectureDelete)[user], text);
        lectureDelete == Place(old(lectureDelete), user, st.session)
        && (st.delete.None? ==>
              db.lectures == old(db.lectures) && db.calls == old(db.calls) && replies == st.replies)
        && (st.delete.Some? ==>
              var w := DeleteOutcome(old(db.lectures), st.delete.value, fails);
              db.lectures == w.lectures && db.calls == old(db.calls) + [DeleteCall(st.delete.value)]
              && replies == st.replies + CommitReplies(w.err, Deleted(st.delete.value)))
    {
      replies := [];
      if user in lectureDelete {
        var st := DeleteInput(lectureDelete[user], text);
        replies := st.replies;
        if st.delete.Some? {
          var err := db.DeleteLecture(st.delete.value, fails);
          replies := replies + CommitReplies(err, Deleted(st.delete.value));
        }
        lectureDelete := Place(lectureDelete, user, st.session);
      }
    }
  }
}
