/**
 * The update loop of main.go: one incoming update at a time, dispatched on its command. Admins
 * open the dialogs with /addlecture, /editlecture and /deletelecture; anybody may ask for the
 * timetable with /today, /tomorrow, /thisweek and /nextweek; every other message is a step of
 * whichever dialogs its sender has open.
 */
module Bot {
  import opened Wrappers
  import opened GoLib
  import opened Model
  import opened Store
  import opened Query
  import opened Dialogs

  /** The part of a Telegram message the loop reads. `command` is what Message.Command() returns:
      the bot command the message opens with, without the slash and the bot name, or "". */
  datatype Message = Message(fromId: int, text: string, command: string)

  /** What the world answers during one update: the id and the outcome of the database writes
      the dialogs make, the documents a query's filter finds (in the server's order) and whether
      that query fails, and the clock. */
  datatype World = World(
    newId: ObjectId,
    insertFails: bool,
    editFails: bool,
    deleteFails: bool,
    answer: seq<Lecture>,
    queryFails: bool,
    weeksSinceStart: Option<int>,
    weekday: int)

  /** What one update leads to. */
  datatype Outcome =
    | Ignored
    | Opened
    | Answered(args: Args, filter: Filter, replies: seq<Reply>)
    | HelpShown
    | Stepped(create: seq<DialogReply>, edit: seq<DialogReply>, delete: seq<DialogReply>)

  /** Auth: the user id is listed among the admins. */
  method Auth(admins: seq<string>, userID: string) returns (r: bool)
    ensures r <==> userID in admins
  {
    var i := 0;
    while i < |admins|
      invariant 0 <= i <= |admins|
      invariant userID !in admins[..i]
    {
      if admins[i] == userID {
        return true;
      }
      assert admins[..i + 1] == admins[..i] + [admins[i]];
      i := i + 1;
    }
    assert admins[..i] == admins;
    return false;
  }

  /** The flags of a query command: `text` is the message lowercased and trimmed, from which the
      command's prefix is cut when it starts with it. */
  function ArgsOf(text: string, prefix: string): Args {
    ArgsFrom(Args(false, ""), Split(CutPrefix(text, prefix)))
  }

  /** When the message starts with the prefix, the flags are read from what follows it. */
  lemma ArgsAfterPrefix(prefix: string, s: string)
    ensures ArgsOf(prefix + s, prefix) == ArgsFrom(Args(false, ""), Split(s))
  {
    assert prefix <= prefix + s;
    assert (prefix + s)[|prefix|..] == s;
  }

  /** /thisweek cuts the prefix "/week", which the message never starts with; the command word is
      then read as a token of its own, which is no flag, so the flags still come out as those
      after the command. */
  lemma ThisWeekArgs(s: string)
    requires s == [] || s[0] == ' '
    ensures ArgsOf("/thisweek" + s, "/week") == ArgsFrom(Args(false, ""), Split(s))
  {
    var p := "/thisweek";
    assert p[1] == 't';
    assert !("/week" <= p + s) by {
      assert (p + s)[1] == 't' && "/week"[1] == 'w';
    }
    assert p[0] == '/';
    assert ' ' !in p;
    CommandWordIgnored(p, s);
  }

  /** The admin commands: the admin check, then a fresh session in the command's map. */
  method OpenDialog(sessions: Sessions, admins: seq<string>, m: Message) returns (out: Outcome)
    requires m.command in {"addlecture", "editlecture", "deletelecture"}
    modifies sessions
    ensures var admin := Itoa(m.fromId) in admins;
      (m.command == "addlecture" ==>
         sessions.lectureInput == (if admin then old(sessions.lectureInput)[m.fromId := EmptyLecture]
                                   else old(sessions.lectureInput))
         && sessions.lectureUpdate == old(sessions.lectureUpdate) && sessions.lectureDelete == old(sessions.lectureDelete))
      && (m.command == "editlecture" ==>
         sessions.lectureUpdate == (if admin then old(sessions.lectureUpdate)[m.fromId := NewEdit]
                                    else old(sessions.lectureUpdate))
         && sessions.lectureInput == old(sessions.lectureInput) && sessions.lectureDelete == old(sessions.lectureDelete))
      && (m.command == "deletelecture" ==>
         sessions.lectureDelete == (if admin then old(sessions.lectureDelete)[m.fromId := ""]
                                    else old(sessions.lectureDelete))
         && sessions.lectureInput == old(sessions.lectureInput) && sessions.lectureUpdate == old(sessions.lectureUpdate))
      && out == (if admin then Opened else Ignored)
  {
    var admin := Auth(admins, Itoa(m.fromId));
    out := Ignored;
    if admin {
      if m.command == "addlecture" {
        sessions.StartCreate(m.fromId);
      } else if m.command == "editlecture" {
        sessions.StartEdit(m.fromId);
      } else {
        sessions.StartDelete(m.fromId);
      }
      out := Opened;
    }
  }

  /** The query commands: the flags after the command's prefix, then the day or the week view.
      `text` is the message lowercased and trimmed. */
  method AnswerQuery(command: string, text: string, world: World) returns (out: Outcome)
    requires command in {"today", "tomorrow", "thisweek", "nextweek"}
    requires 0 <= world.weekday <= 6
    ensures out.Answered?
    ensures command == "today" ==>
      var wd := DayTarget(WeekOrZero(world.weeksSinceStart), world.weekday, false);
      out.args == ArgsOf(text, "/today") && out.filter == DayFilter(wd.0, wd.1, out.args)
      && DayView(world.answer, world.queryFails, wd.1, out.args, false, out.replies)
    ensures command == "tomorrow" ==>
      var wd := DayTarget(WeekOrZero(world.weeksSinceStart), world.weekday, true);
      out.args == ArgsOf(text, "/tomorrow") && out.filter == DayFilter(wd.0, wd.1, out.args)
      && DayView(world.answer, world.queryFails, wd.1, out.args, true, out.replies)
    ensures command == "thisweek" ==>
      out.args == ArgsOf(text, "/week") && out.filter == WeekFilter(WeekOrZero(world.weeksSinceStart), out.args)
      && WeekView(world.answer, world.queryFails, out.args, out.replies)
    ensures command == "nextweek" ==>
      out.args == ArgsOf(text, "/nextweek")
      && out.filter == WeekFilter(NextWeek(WeekOrZero(world.weeksSinceStart)), out.args)
      && WeekView(world.answer, world.queryFails, out.args, out.replies)
  {
    var arg, filter, replies;
    if command == "today" {
      arg := ParseArgs(CutPrefix(text, "/today"));
      filter, replies := SendToday(world.answer, world.queryFails, world.weeksSinceStart, world.weekday, arg, false);
    } else if command == "tomorrow" {
      arg := ParseArgs(CutPrefix(text, "/tomorrow"));
      filter, replies := SendToday(world.answer, world.queryFails, world.weeksSinceStart, world.weekday, arg, true);
    } else if command == "thisweek" {
      arg := ParseArgs(CutPrefix(text, "/week"));
      filter, replies := SendWeek(world.answer, world.queryFails, world.weeksSinceStart, arg, false);
    } else {
      arg := ParseArgs(CutPrefix(text, "/nextweek"));
      filter, replies := SendWeek(world.answer, world.queryFails, world.weeksSinceStart, arg, true);
    }
    out := Answered(arg, filter, replies);
  }

  /** One turn of the update loop. */
  method HandleUpdate(sessions: Sessions, db: Db, admins: seq<string>, update: Option<Message>, world: World)
    returns (out: Outcome)
    requires 0 <= world.weekday <= 6
    modifies sessions, db
    ensures update.None? ==> out == Ignored
    ensures update.None? || update.value.command in {"today", "tomorrow", "thisweek", "nextweek", "help"} ==>
      sessions.lectureInput == old(sessions.lectureInput) && sessions.lectureUpdate == old(sessions.lectureUpdate)
      && sessions.lectureDelete == old(sessions.lectureDelete)
      && db.lectures == old(db.lectures) && db.calls == old(db.calls)
    ensures update.Some? ==>
      var m := update.value;
      var admin := Itoa(m.fromId) in admins;
      var text := TrimSpace(ToLower(m.text));
      (m.command == "addlecture" ==>
         sessions.lectureInput == (if admin then old(sessions.lectureInput)[m.fromId := EmptyLecture]
                                   else old(sessions.lectureInput))
         && sessions.lectureUpdate == old(sessions.lectureUpdate) && sessions.lectureDelete == old(sessions.lectureDelete)
         && out == (if admin then Opened else Ignored))
      && (m.command == "editlecture" ==>
         sessions.lectureUpdate == (if admin then old(sessions.lectureUpdate)[m.fromId := NewEdit]
                                    else old(sessions.lectureUpdate))
         && sessions.lectureInput == old(sessions.lectureInput) && sessions.lectureDelete == old(sessions.lectureDelete)
         && out == (if admin then Opened else Ignored))
      && (m.command == "deletelecture" ==>
         sessions.lectureDelete == (if admin then old(sessions.lectureDelete)[m.fromId := ""]
                                    else old(sessions.lectureDelete))
         && sessions.lectureInput == old(sessions.lectureInput) && sessions.lectureUpdate == old(sessions.lectureUpdate)
         && out == (if admin then Opened else Ignored))
      && (m.command in {"addlecture", "editlecture", "deletelecture"} ==>
         db.lectures == old(db.lectures) && db.calls == old(db.calls))
      && (m.command == "today" ==>
         var wd := DayTarget(WeekOrZero(world.weeksSinceStart), world.weekday, false);
         out.Answered? && out.args == ArgsOf(text, "/today") && out.filter == DayFilter(wd.0, wd.1, out.args)
         && DayView(world.answer, world.queryFails, wd.1, out.args, false, out.replies))
      && (m.command == "tomorrow" ==>
         var wd := DayTarget(WeekOrZero(world.weeksSinceStart), world.weekday, true);
         out.Answered? && out.args == ArgsOf(text, "/tomorrow") && out.filter == DayFilter(wd.0, wd.1, out.args)
         && DayView(world.answer, world.queryFails, wd.1, out.args, true, out.replies))
      && (m.command == "thisweek" ==>
         out.Answered? && out.args == ArgsOf(text, "/week")
         && out.filter == WeekFilter(WeekOrZero(world.weeksSinceStart), out.args)
         && WeekView(world.answer, world.queryFails, out.args, out.replies))
      && (m.command == "nextweek" ==>
         out.Answered? && out.args == ArgsOf(text, "/nextweek")
         && out.filter == WeekFilter(NextWeek(WeekOrZero(world.weeksSinceStart)), out.args)
         && WeekView(world.answer, world.queryFails, out.args, out.replies))
      && (m.command == "help" ==> out == HelpShown)
      && (m.command !in {"addlecture", "editlecture", "deletelecture", "today", "tomorrow", "thisweek", "nextweek", "help"} ==>
         out.Stepped?
         && sessions.lectureInput
            == (if m.fromId in old(sessions.lectureInput)
                then Place(old(sessions.lectureInput), m.fromId,
                           CreateInput(old(sessions.lectureInput)[m.fromId], TrimSpace(m.text)).session)
                else old(sessions.lectureInput))
         && sessions.lectureDelete
            == (if m.fromId in old(sessions.lectureDelete)
                then Place(old(sessions.lectureDelete), m.fromId,
                           DeleteInput(old(sessions.lectureDelete)[m.fromId], Lowered(m.text)).session)
                else old(sessions.lectureDelete))
         && (m.fromId !in old(sessions.lectureUpdate) ==> sessions.lectureUpdate == old(sessions.lectureUpdate)))
  {
    if update.None? {
      return Ignored;
    }
    var m := update.value;
    if m.command in {"addlecture", "editlecture", "deletelecture"} {
      out := OpenDialog(sessions, admins, m);
    } else if m.command in {"today", "tomorrow", "thisweek", "nextweek"} {
      out := AnswerQuery(m.command, TrimSpace(ToLower(m.text)), world);
    } else if m.command == "help" {
      out := HelpShown;
    } else {
      var created := sessions.HandleLectureInput(db, m.fromId, m.text, world.newId, world.insertFails);
      var edited := sessions.HandleLectureUpdate(db, m.fromId, m.text, world.editFails);
      var deleted := sessions.HandleLectureDelete(db, m.fromId, m.text, world.deleteFails);
      out := Stepped(created, edited, deleted);
    }
  }
}
