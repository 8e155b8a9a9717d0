/**
 * handlers.py: the program builder (day choice, exercise lines, edit and undo)
 * and the session player (start, done, back) of the newer bot. Its store is
 * an interface: the calls that change something are returned, in order, as
 * a log of writes, and what the store answers is passed in.
 */
module Handlers {
  import opened Wrappers
  import opened Text
  import opened Numbers
  import opened ExerciseLine
  import opened Callbacks
  import opened Conversation

  /** An exercise as the store hands it back to handlers.py. */
  datatype ExerciseRecord = ExerciseRecord(id: int, name: string, reps: int, sets: int, weight: Decimal, media: Option<string>)

  /** The store calls of handlers.py that change something. */
  datatype Write =
    | CreateProgram(userId: int, dayName: string)
    | DeleteExercises(target: Option<int>)
    | DeleteProgram(programId: int)
    | DeleteLastExercise(programId: int)
    | DeleteExerciseById(exerciseId: int)
    | AddExercise(programId: int, name: string, reps: int, sets: int, weight: Decimal, media: Option<string>, position: int)
    | UpdateExercise(exerciseId: int, name: string, reps: int, sets: int, weight: Decimal, media: Option<string>)
    | SetRestSeconds(userId: int, seconds: int)
    | CreateSession(userId: int, programId: int)
    | UpdateSessionIndex(sessionId: int, index: int)
    | CloseSession(sessionId: int)

  type Data = UserData<ExerciseRecord>

  type State = Scratch<ExerciseRecord>

  // ---------------------------------------------------------------------------
  // The builder

  /** An incoming message: text, or an animation whose caption carries the line. */
  datatype Message = TextMessage(text: Option<string>) | AnimationMessage(fileId: string, caption: Option<string>)

  /** `(message.text or "").strip()`, or the same of the caption. */
  function MessageText(m: Message): string {
    match m
    case TextMessage(t) => Strip(t.GetOr(""))
    case AnimationMessage(_, c) => Strip(c.GetOr(""))
  }

  predicate IsTerminator(t: string) {
    t == "تمام" || t == "تمام."
  }

  predicate IsUndo(t: string) {
    t == "بازگشت" || t == "/back" || t == "undo"
  }

  /** Which branch of add_exercise a message takes. */
  datatype LineKind = EmptyCaption | Finish | Undo | Entry(result: LineResult)

  function Classify(m: Message): LineKind {
    var text := MessageText(m);
    if m.AnimationMessage? && text == "" then EmptyCaption
    else if IsTerminator(text) then Finish
    else if IsUndo(text) then Undo
    else Entry(ParseLine(text))
  }

  /** The file id of an attached animation, when it is a non-empty (truthy) one. */
  function Attached(m: Message): Option<string> {
    if m.AnimationMessage? && m.fileId != "" then Some(m.fileId) else None
  }

  /** gif_to_store: the attached animation when there is one, else the line's media token. */
  function MediaToStore(attached: Option<string>, spec: ExerciseSpec): Option<string> {
    if attached.Some? then attached else spec.mediaUrl
  }

  /**
   * What add_exercise does with a message of kind `kind` on state `s`. An
   * empty caption, a rejected line and an undo or append without a current
   * program change nothing and write nothing; the terminator ends the
   * conversation and forgets the program and the edit target; an undo asks
   * the store to delete the last exercise and, if it reports one `removed`,
   * lowers the count (not below 0); an accepted line updates the edit target
   * if there is one, and otherwise is appended at position `exercise_count`.
   */
  predicate LineHandled(kind: LineKind, attached: Option<string>, removed: bool, s: State, next: Next, writes: seq<Write>, after: State) {
    match kind
    case EmptyCaption => next == AddingExercises && writes == [] && after == s
    case Finish => next == End && writes == [] && after == s.(editingExerciseId := None, currentProgramId := None)
    case Undo =>
      && next == AddingExercises
      && (!Truthy(s.currentProgramId) ==> writes == [] && after == s)
      && (Truthy(s.currentProgramId) ==>
           && writes == [DeleteLastExercise(s.currentProgramId.value)]
           && after == if removed then s.(exerciseCount := Some(Max0(s.exerciseCount.GetOr(1) - 1))) else s)
    case Entry(Rejected(_)) => next == AddingExercises && writes == [] && after == s
    case Entry(Parsed(spec)) =>
      var media := MediaToStore(attached, spec);
      && next == AddingExercises
      && (Truthy(s.editingExerciseId) ==>
           && writes == [UpdateExercise(s.editingExerciseId.value, spec.name, spec.reps, spec.sets, spec.weight, media)]
           && after == s.(editingExerciseId := None))
      && (!Truthy(s.editingExerciseId) && !Truthy(s.currentProgramId) ==> writes == [] && after == s)
      && (!Truthy(s.editingExerciseId) && Truthy(s.currentProgramId) ==>
           var position := s.exerciseCount.GetOr(0);
           && writes == [AddExercise(s.currentProgramId.value, spec.name, spec.reps, spec.sets, spec.weight, media, position)]
           && after == s.(exerciseCount := Some(position + 1)))
  }

  /** add_exercise, for one message. */
  method AddExerciseLine(ud: Data, m: Message, removed: bool) returns (next: Next, writes: seq<Write>)
    modifies ud
    ensures LineHandled(Classify(m), Attached(m), removed, old(ud.State()), next, writes, ud.State())
  {
    next, writes := HandleLine(ud, Classify(m), Attached(m), removed);
  }

  /** add_exercise once the message is classified; `attached` is the animation's file id, if any. */
  method HandleLine(ud: Data, kind: LineKind, attached: Option<string>, removed: bool) returns (next: Next, writes: seq<Write>)
    modifies ud
    ensures LineHandled(kind, attached, removed, old(ud.State()), next, writes, ud.State())
  {
    next, writes := AddingExercises, [];
    match kind
    case EmptyCaption =>
    case Finish =>
      ud.editingExerciseId, ud.currentProgramId := None, None;
      next := End;
    case Undo =>
      writes := UndoLast(ud, removed);
    case Entry(Rejected(_)) =>
    case Entry(Parsed(spec)) =>
      writes := StoreEntry(ud, spec, MediaToStore(attached, spec));
  }

  /** The undo branch of add_exercise. */
  method UndoLast(ud: Data, removed: bool) returns (writes: seq<Write>)
    modifies ud
    ensures var s := old(ud.State());
      && (!Truthy(s.currentProgramId) ==> writes == [] && ud.State() == s)
      && (Truthy(s.currentProgramId) ==>
           && writes == [DeleteLastExercise(s.currentProgramId.value)]
           && ud.State() == if removed then s.(exerciseCount := Some(Max0(s.exerciseCount.GetOr(1) - 1))) else s)
  {
    writes := [];
    if Truthy(ud.currentProgramId) {
      writes := [DeleteLastExercise(ud.currentProgramId.value)];
      if removed {
        ud.exerciseCount := Some(Max0(ud.exerciseCount.GetOr(1) - 1));
      }
    }
  }

  /** The accepted-line branch of add_exercise: update the edit target, or append at `exercise_count`. */
  method StoreEntry(ud: Data, spec: ExerciseSpec, media: Option<string>) returns (writes: seq<Write>)
    modifies ud
    ensures var s := old(ud.State());
      && (Truthy(s.editingExerciseId) ==>
           && writes == [UpdateExercise(s.editingExerciseId.value, spec.name, spec.reps, spec.sets, spec.weight, media)]
           && ud.State() == s.(editingExerciseId := None))
      && (!Truthy(s.editingExerciseId) && !Truthy(s.currentProgramId) ==> writes == [] && ud.State() == s)
      && (!Truthy(s.editingExerciseId) && Truthy(s.currentProgramId) ==>
           var position := s.exerciseCount.GetOr(0);
           && writes == [AddExercise(s.currentProgramId.value, spec.name, spec.reps, spec.sets, spec.weight, media, position)]
           && ud.State() == s.(exerciseCount := Some(position + 1)))
  {
    writes := [];
    if Truthy(ud.editingExerciseId) {
      writes := [UpdateExercise(ud.editingExerciseId.value, spec.name, spec.reps, spec.sets, spec.weight, media)];
      ud.editingExerciseId := None;
    } else if Truthy(ud.currentProgramId) {
      var position := ud.exerciseCount.GetOr(0);
      writes := [AddExercise(ud.currentProgramId.value, spec.name, spec.reps, spec.sets, spec.weight, media, position)];
      ud.exerciseCount := Some(position + 1);
    }
  }

  /** `max(0, n)` */
  function Max0(n: int): (r: nat)
    ensures r >= n && (n >= 0 ==> r == n)
    ensures r == 0 || r == n
  {
    if n < 0 then 0 else n
  }

  /**
   * day_selected: a day that already has a program (as the store reports it)
   * ends the conversation with nothing created; otherwise a program is
   * created, its exercises cleared, and the builder starts at count 0.
   */
  method DaySelected(ud: Data, user: int, day: string, existing: Option<int>, created: Option<int>) returns (next: Next, writes: seq<Write>)
    modifies ud
    ensures existing.Some? ==> next == End && writes == [] && ud.State() == old(ud.State())
    ensures existing.None? ==>
      && next == AddingExercises
      && writes == [CreateProgram(user, day), DeleteExercises(created)]
      && ud.State() == old(ud.State()).(currentProgramId := created, currentDay := Some(day), exerciseCount := Some(0))
  {
    if existing.Some? {
      next, writes := End, [];
    } else {
      writes := [CreateProgram(user, day), DeleteExercises(created)];
      ud.StartBuilder(created, day);
      next := AddingExercises;
    }
  }

  /**
   * program_action on `program_<action>_<id>`: "delete" removes the program's
   * exercises and the program; "overwrite" clears the exercises and, when the
   * program's row is found, creates the day's program again and starts the
   * builder on it; "view", "edit" and anything else only read.
   */
  method ProgramAction(ud: Data, data: string, row: Option<(string, int)>, created: Option<int>) returns (next: Next, writes: seq<Write>)
    modifies ud
    ensures match ParseProgramCommand(data)
      case None => next == NoState && writes == [] && ud.State() == old(ud.State())
      case Some(None) => next == Raised && writes == [] && ud.State() == old(ud.State())
      case Some(Some(cmd)) =>
        if cmd.action == "delete" then
          next == NoState && writes == [DeleteExercises(Some(cmd.pid)), DeleteProgram(cmd.pid)] && ud.State() == old(ud.State())
        else if cmd.action == "overwrite" && row.Some? then
          && next == AddingExercises
          && writes == [DeleteExercises(Some(cmd.pid)), CreateProgram(row.value.1, row.value.0), DeleteExercises(created)]
          && ud.State() == old(ud.State()).(currentProgramId := created, currentDay := Some(row.value.0), exerciseCount := Some(0))
        else if cmd.action == "overwrite" then
          next == NoState && writes == [DeleteExercises(Some(cmd.pid))] && ud.State() == old(ud.State())
        else
          next == NoState && writes == [] && ud.State() == old(ud.State())
  {
    next, writes := NoState, [];
    match ParseProgramCommand(data)
    case None =>
    case Some(None) =>
      next := Raised;
    case Some(Some(cmd)) =>
      if cmd.action == "delete" {
        writes := [DeleteExercises(Some(cmd.pid)), DeleteProgram(cmd.pid)];
      } else if cmd.action == "overwrite" {
        writes := [DeleteExercises(Some(cmd.pid))];
        if row.Some? {
          var (day, user) := row.value;
          writes := writes + [CreateProgram(user, day), DeleteExercises(created)];
          ud.StartBuilder(created, day);
          next := AddingExercises;
        }
      }
  }

  /**
   * exercise_action on `ex_edit_<id>`, `ex_delete_<id>` and `ex_add_<program id>`:
   * set the edit target, delete the exercise, or start adding to the program
   * at the end of its `stored` exercises. An id that does not read raises.
   */
  method ExerciseAction(ud: Data, data: string, stored: seq<ExerciseRecord>) returns (next: Next, writes: seq<Write>)
    modifies ud
    ensures var s, id := old(ud.State()), TrailingId(data);
      if StartsWith(data, "ex_edit_") || StartsWith(data, "ex_delete_") || StartsWith(data, "ex_add_") then
        if id.None? then next == Raised && writes == [] && ud.State() == s
        else if StartsWith(data, "ex_edit_") then
          next == AddingExercises && writes == [] && ud.State() == s.(editingExerciseId := id)
        else if StartsWith(data, "ex_delete_") then
          next == NoState && writes == [DeleteExerciseById(id.value)] && ud.State() == s
        else
          && next == AddingExercises && writes == []
          && ud.State() == s.(currentProgramId := id, currentDay := None, exerciseCount := Some(|stored|))
      else next == NoState && writes == [] && ud.State() == s
  {
    next, writes := NoState, [];
    var id := TrailingId(data);
    if StartsWith(data, "ex_edit_") || StartsWith(data, "ex_delete_") || StartsWith(data, "ex_add_") {
      if id.None? {
        next := Raised;
      } else if StartsWith(data, "ex_edit_") {
        ud.editingExerciseId := id;
        next := AddingExercises;
      } else if StartsWith(data, "ex_delete_") {
        writes := [DeleteExerciseById(id.value)];
      } else {
        ud.currentProgramId, ud.currentDay, ud.exerciseCount := id, None, Some(|stored|);
        next := AddingExercises;
      }
    }
  }

  /** start_add_from_menu: with a current program, the count restarts at the number of `stored` exercises. */
  method StartAddFromMenu(ud: Data, stored: seq<ExerciseRecord>) returns (next: Next)
    modifies ud
    ensures !Truthy(old(ud.currentProgramId)) ==> next == End && ud.State() == old(ud.State())
    ensures Truthy(old(ud.currentProgramId)) ==> next == AddingExercises && ud.State() == old(ud.State()).(exerciseCount := Some(|stored|))
  {
    if !Truthy(ud.currentProgramId) {
      next := End;
    } else {
      ud.exerciseCount := Some(|stored|);
      next := AddingExercises;
    }
  }

  /** The menu_back branch of menu_callback: the builder's four keys go, the session's stay. */
  method MenuBack(ud: Data)
    modifies ud
    ensures ud.State() == WithoutBuilder(old(ud.State()))
  {
    ud.currentProgramId, ud.exerciseCount, ud.editingExerciseId, ud.currentDay := None, None, None, None;
  }

  /** set_rest_callback: the integer after the last underscore is stored, 60 when it does not read. */
  method SetRest(user: int, data: string) returns (writes: seq<Write>)
    ensures |writes| == 1 && writes[0].SetRestSeconds? && writes[0].userId == user
    ensures TrailingId(data).Some? ==> writes[0].seconds == TrailingId(data).value
    ensures forall n :: data == "set_rest_" + IntToString(n) ==> writes[0].seconds == n
    ensures TrailingId(data).None? ==> writes[0].seconds == 60
  {
    forall n | data == "set_rest_" + IntToString(n) ensures RestSeconds(data) == n {
      RestSecondsOfButton(n);
    }
    writes := [SetRestSeconds(user, RestSeconds(data))];
  }

  // ---------------------------------------------------------------------------
  // The player

  /** The store calls for the player's screen: the session to close, if any. */
  function CloseWrites(close: Option<int>): seq<Write> {
    if close.Some? then [CloseSession(close.value)] else []
  }

  /**
   * workout_selected on `start_<id>`: an id that does not read, or a program
   * with no `stored` exercises, changes nothing; otherwise a session is
   * opened and the cursor set to 0, and the first exercise is shown.
   */
  method WorkoutSelected(ud: Data, user: int, data: string, stored: seq<ExerciseRecord>, session: int)
    returns (writes: seq<Write>, screen: Screen<ExerciseRecord>)
    modifies ud
    ensures StartProgramId(data).None? || stored == [] ==> writes == [] && screen == Unchanged && ud.State() == old(ud.State())
    ensures StartProgramId(data).Some? && stored != [] ==>
      var pid := StartProgramId(data).value;
      && writes == [CreateSession(user, pid)]
      && screen == Showing(0, |stored|, stored[0])
      && ud.State() == old(ud.State()).(sessionId := Some(session), programId := Some(pid), exercises := Some(stored), currentIndex := Some(0))
  {
    writes, screen := [], Unchanged;
    var pid := StartProgramId(data);
    if pid.Some? && stored != [] {
      writes := [CreateSession(user, pid.value)];
      ud.StartPlayer(Some(session), pid, stored);
      var close;
      screen, close := ShowCurrent(ud);
    }
  }

  /**
   * exercise_done: the cursor moves to i+1 and, when there is a session id,
   * i+1 is persisted. At or past the end the session completes; otherwise a
   * rest of the user's setting (`stored_rest`, or 60 when it is unset or 0)
   * comes before the next exercise.
   */
  method ExerciseDone(ud: Data, storedRest: Option<int>) returns (writes: seq<Write>, rest: Option<int>, screen: Screen<ExerciseRecord>)
    modifies ud
    ensures var s := old(ud.State()); var i := IndexOf(s);
      var o := ShowOutcome(s.(currentIndex := Some(i + 1)));
      && writes == (if s.sessionId.Some? then [UpdateSessionIndex(s.sessionId.value, i + 1)] else []) + CloseWrites(o.close)
      && (rest.Some? <==> i + 1 < |ExercisesOf(s)|)
      && (rest.Some? ==> rest.value == OrElse(storedRest, 60))
      && screen == o.screen
      && ud.State() == o.after
  {
    var i := IndexOf(ud.State());
    ud.MoveTo(i + 1);
    writes := if ud.sessionId.Some? then [UpdateSessionIndex(ud.sessionId.value, i + 1)] else [];
    rest := if i + 1 >= |ExercisesOf(ud.State())| then None else Some(OrElse(storedRest, 60));
    var close;
    screen, close := ShowCurrent(ud);
    writes := writes + CloseWrites(close);
  }

  /** session_back: at index 0 or below nothing happens; otherwise the cursor moves to i-1, which is persisted. */
  method SessionBack(ud: Data) returns (writes: seq<Write>, screen: Screen<ExerciseRecord>)
    modifies ud
    ensures var s := old(ud.State()); var i := IndexOf(s);
      if i <= 0 then writes == [] && screen == Unchanged && ud.State() == s
      else
        var o := ShowOutcome(s.(currentIndex := Some(i - 1)));
        && writes == (if s.sessionId.Some? then [UpdateSessionIndex(s.sessionId.value, i - 1)] else []) + CloseWrites(o.close)
        && screen == o.screen
        && ud.State() == o.after
  {
    var i := IndexOf(ud.State());
    if i <= 0 {
      writes, screen := [], Unchanged;
    } else {
      ud.MoveTo(i - 1);
      writes := if ud.sessionId.Some? then [UpdateSessionIndex(ud.sessionId.value, i - 1)] else [];
      var close;
      screen, close := ShowCurrent(ud);
      writes := writes + CloseWrites(close);
    }
  }
}
