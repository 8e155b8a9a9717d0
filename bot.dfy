/**
 * bot.py: the older bot, which talks to the store of database.py directly.
 * Its builder reads lines in the Arabic-comma format and always (re)creates
 * the day's program; its player has no "back" and rests a fixed minute.
 */
module Bot {
  import opened Wrappers
  import opened Text
  import opened Numbers
  import opened Seqs
  import opened ExerciseLine
  import opened Callbacks
  import opened Conversation
  import opened Store

  type Data = UserData<ExerciseRow>

  const Finished: string := "تمام"

  /** The fixed rest between exercises, in seconds. */
  const RestSeconds: int := 60

  /**
   * day_selected: the day's program is created or replaced (REPLACE gives it
   * a fresh id), the exercises under the new id are deleted, and the builder
   * starts on it at count 0.
   */
  method DaySelected(ud: Data, db: Database, user: int, day: string) returns (next: Next)
    requires db.Valid()
    modifies ud, db`programs, db`nextProgramId, db`exercises
    ensures db.Valid()
    ensures next == AddingExercises
    ensures db.programs == Replaced(old(db.programs), user, day, old(db.nextProgramId))
    ensures db.nextProgramId == old(db.nextProgramId) + 1
    ensures db.exercises == Filter(old(db.exercises), NotOfProgram(old(db.nextProgramId)))
    ensures ud.State() == old(ud.State()).(currentProgramId := Some(old(db.nextProgramId)), currentDay := Some(day), exerciseCount := Some(0))
  {
    var pid := db.CreateWorkoutProgram(user, day);
    db.DeleteExercises(pid.value);
    ud.StartBuilder(pid, day);
    next := AddingExercises;
  }

  /**
   * add_exercise: "تمام" clears everything and ends; a line that does not
   * parse changes nothing; an accepted line is appended under the current
   * program at `exercise_count`, which then grows by one. With no current
   * program an accepted line raises KeyError.
   */
  method AddExerciseLine(ud: Data, db: Database, text: string) returns (next: Next)
    requires db.Valid()
    modifies ud, db`exercises, db`nextExerciseId
    ensures db.Valid()
    ensures var t := Strip(text); var s := old(ud.State());
      if t == Finished then
        next == End && ud.State() == EmptyScratch() && db.exercises == old(db.exercises) && db.nextExerciseId == old(db.nextExerciseId)
      else match ParseCommaLine(t)
        case CommaRejected(_) => next == AddingExercises && ud.State() == s && db.exercises == old(db.exercises) && db.nextExerciseId == old(db.nextExerciseId)
        case CommaParsed(spec) =>
          if s.currentProgramId.None? then
            next == Raised && ud.State() == s && db.exercises == old(db.exercises) && db.nextExerciseId == old(db.nextExerciseId)
          else
            var count := s.exerciseCount.GetOr(0);
            && next == AddingExercises
            && db.exercises == old(db.exercises) + [ExerciseRow(old(db.nextExerciseId), s.currentProgramId.value, spec.name, spec.sets, spec.weight, count)]
            && db.nextExerciseId == old(db.nextExerciseId) + 1
            && ud.State() == s.(exerciseCount := Some(count + 1))
  {
    var t := Strip(text);
    if t == Finished {
      ud.Clear();
      return End;
    }
    match ParseCommaLine(t)
    case CommaRejected(_) =>
      next := AddingExercises;
    case CommaParsed(spec) =>
      next := StoreCommaEntry(ud, db, spec);
  }

  /** The line a user types for an expressible exercise is accepted as that exercise and is not the terminator. */
  lemma TypedCommaLine(spec: CommaSpec)
    requires CommaExpressible(spec)
    ensures var t := FormatCommaLine(spec);
      Strip(t) == t && t != Finished && ParseCommaLine(t) == CommaParsed(spec)
  {
    FormattedCommaStripped(spec);
    CommaRoundTrip(spec);
    assert ArabicComma !in Finished;
  }

  /** The accepted-line branch of add_exercise. */
  method StoreCommaEntry(ud: Data, db: Database, spec: CommaSpec) returns (next: Next)
    requires db.Valid()
    modifies ud, db`exercises, db`nextExerciseId
    ensures db.Valid()
    ensures var s := old(ud.State());
      if s.currentProgramId.None? then
        next == Raised && ud.State() == s && db.exercises == old(db.exercises) && db.nextExerciseId == old(db.nextExerciseId)
      else
        var count := s.exerciseCount.GetOr(0);
        && next == AddingExercises
        && db.exercises == old(db.exercises) + [ExerciseRow(old(db.nextExerciseId), s.currentProgramId.value, spec.name, spec.sets, spec.weight, count)]
        && db.nextExerciseId == old(db.nextExerciseId) + 1
        && ud.State() == s.(exerciseCount := Some(count + 1))
  {
    if ud.currentProgramId.None? {
      next := Raised;
    } else {
      var count := ud.exerciseCount.GetOr(0);
      db.AddExercise(ud.currentProgramId.value, spec.name, spec.sets, spec.weight, count);
      ud.exerciseCount := Some(count + 1);
      next := AddingExercises;
    }
  }

  /**
   * workout_selected on `start_<id>`: an id that does not read raises; a
   * program without exercises changes nothing; otherwise a session is opened
   * at index 0 with the program's exercises in order, and the first one is shown.
   */
  method WorkoutSelected(ud: Data, db: Database, user: int, data: string) returns (next: Next, screen: Screen<ExerciseRow>)
    requires db.Valid()
    modifies ud, db`sessions, db`nextSessionId
    ensures db.Valid()
    ensures StartProgramId(data).None? ==>
      next == Raised && screen == Unchanged && ud.State() == old(ud.State()) && db.sessions == old(db.sessions) && db.nextSessionId == old(db.nextSessionId)
    ensures StartProgramId(data).Some? ==>
      var pid := StartProgramId(data).value;
      var exs := SortBy(Filter(db.exercises, OfProgram(pid)), ByOrderIndex());
      && next == NoState
      && (exs == [] ==> screen == Unchanged && ud.State() == old(ud.State()) && db.sessions == old(db.sessions) && db.nextSessionId == old(db.nextSessionId))
      && (exs != [] ==>
           && db.sessions == Opened(old(db.sessions), user, pid, old(db.nextSessionId))
           && db.nextSessionId == old(db.nextSessionId) + 1
           && screen == Showing(0, |exs|, exs[0])
           && ud.State() == old(ud.State()).(sessionId := Some(old(db.nextSessionId)), programId := Some(pid), exercises := Some(exs), currentIndex := Some(0)))
  {
    var pid := StartProgramId(data);
    if pid.None? {
      return Raised, Unchanged;
    }
    next := NoState;
    screen := StartSession(ud, db, user, pid.value);
  }

  /** The part of workout_selected after the id has been read. */
  method StartSession(ud: Data, db: Database, user: int, pid: int) returns (screen: Screen<ExerciseRow>)
    requires db.Valid()
    modifies ud, db`sessions, db`nextSessionId
    ensures db.Valid()
    ensures var exs := SortBy(Filter(db.exercises, OfProgram(pid)), ByOrderIndex());
      && (exs == [] ==> screen == Unchanged && ud.State() == old(ud.State()) && db.sessions == old(db.sessions) && db.nextSessionId == old(db.nextSessionId))
      && (exs != [] ==>
           && db.sessions == Opened(old(db.sessions), user, pid, old(db.nextSessionId))
           && db.nextSessionId == old(db.nextSessionId) + 1
           && screen == Showing(0, |exs|, exs[0])
           && ud.State() == old(ud.State()).(sessionId := Some(old(db.nextSessionId)), programId := Some(pid), exercises := Some(exs), currentIndex := Some(0)))
  {
    screen := Unchanged;
    var exs := db.GetExercises(pid);
    if exs != [] {
      screen := OpenSession(ud, db, user, pid, exs);
    }
  }

  /** A session opened on a non-empty list of exercises, showing the first. */
  method OpenSession(ud: Data, db: Database, user: int, pid: int, exs: seq<ExerciseRow>) returns (screen: Screen<ExerciseRow>)
    requires db.Valid() && exs != []
    modifies ud, db`sessions, db`nextSessionId
    ensures db.Valid()
    ensures db.sessions == Opened(old(db.sessions), user, pid, old(db.nextSessionId))
    ensures db.nextSessionId == old(db.nextSessionId) + 1
    ensures screen == Showing(0, |exs|, exs[0])
    ensures ud.State() == old(ud.State()).(sessionId := Some(old(db.nextSessionId)), programId := Some(pid), exercises := Some(exs), currentIndex := Some(0))
  {
    var sid := db.CreateWorkoutSession(user, pid);
    ud.StartPlayer(Some(sid), Some(pid), exs);
    var close;
    screen, close := ShowCurrent(ud);
  }

  /** The store's sessions after the index `idx` is persisted, when the session id is truthy. */
  function Persisted(sid: Option<int>, idx: int, sessions: seq<SessionRow>): seq<SessionRow> {
    if Truthy(sid) then Map(sessions, SetIndex(sid.value, idx)) else sessions
  }

  /** The store's sessions after the session reported as finished, if any, is closed. */
  function Closed(close: Option<int>, sessions: seq<SessionRow>): seq<SessionRow> {
    if close.Some? then Map(sessions, Close(close.value)) else sessions
  }

  /**
   * exercise_done: the cursor moves to i+1 and, when the session id is
   * truthy, i+1 is persisted. At or past the end the session is closed and
   * everything cleared; otherwise a rest of 60 seconds comes before the next exercise.
   */
  method ExerciseDone(ud: Data, db: Database) returns (rest: Option<int>, screen: Screen<ExerciseRow>)
    requires db.Valid()
    modifies ud, db`sessions
    ensures db.Valid()
    ensures var s := old(ud.State()); var i := IndexOf(s); var sid := s.sessionId;
      var o := ShowOutcome(s.(currentIndex := Some(i + 1)));
      && (i + 1 < |ExercisesOf(s)| ==> rest == Some(RestSeconds) && db.sessions == Persisted(sid, i + 1, old(db.sessions)))
      && (i + 1 >= |ExercisesOf(s)| ==> rest == None && db.sessions == Closed(if Truthy(sid) then sid else None, Persisted(sid, i + 1, old(db.sessions))))
      && screen == o.screen
      && ud.State() == o.after
  {
    var i := IndexOf(ud.State());
    rest := if i + 1 < |ExercisesOf(ud.State())| then Some(RestSeconds) else None;
    Advance(ud, db, i);
    screen := ShowAndClose(ud, db);
  }

  /** The cursor moves to `i + 1`, which is persisted when the session id is truthy. */
  method Advance(ud: Data, db: Database, i: int)
    requires db.Valid()
    modifies ud, db`sessions
    ensures db.Valid()
    ensures db.sessions == Persisted(old(ud.sessionId), i + 1, old(db.sessions))
    ensures ud.State() == old(ud.State()).(currentIndex := Some(i + 1))
  {
    ud.MoveTo(i + 1);
    if Truthy(ud.sessionId) {
      db.UpdateSessionExerciseIndex(ud.sessionId.value, i + 1);
    }
  }

  /** show_current_exercise, with the session it reports as finished closed in the store. */
  method ShowAndClose(ud: Data, db: Database) returns (screen: Screen<ExerciseRow>)
    requires db.Valid()
    modifies ud, db`sessions
    ensures db.Valid()
    ensures var o := ShowOutcome(old(ud.State()));
      db.sessions == Closed(o.close, old(db.sessions)) && screen == o.screen && ud.State() == o.after
  {
    var close;
    screen, close := ShowCurrent(ud);
    if close.Some? {
      db.CloseSession(close.value);
    }
  }
}
