/**
 * The per-user state both bot variants keep between Telegram updates
 * (`context.user_data`, a dictionary) and the player step they share:
 * showing the exercise at the cursor, or finishing the session once the
 * cursor has run past the last exercise.
 */
module Conversation {
  import opened Wrappers

  /** What a handler hands back to the conversation framework: a state, END, None, or an exception. */
  datatype Next = SelectingDay | AddingExercises | End | NoState | Raised

  /** The seven weekday buttons: their labels are the day names programs are stored under. */
  const WeekdayLabels: seq<string> := [
    "شنبه",
    "یکشنبه",
    "دوشنبه",
    "سه‌شنبه",
    "چهارشنبه",
    "پنجشنبه",
    "جمعه"
  ]

  /** Python truthiness of an optional integer: None and 0 are false. */
  predicate Truthy(v: Option<int>) {
    v.Some? && v.value != 0
  }

  /** Python's `v or d` on an optional integer. */
  function OrElse(v: Option<int>, d: int): (r: int)
    ensures Truthy(v) ==> r == v.value
    ensures !Truthy(v) ==> r == d
    ensures d != 0 ==> r != 0
  {
    if Truthy(v) then v.value else d
  }

  /**
   * The keys of `context.user_data`. A key that is absent and a key that holds
   * None read alike through `.get`, so both are `None` here.
   */
  datatype Scratch<E> = Scratch(
    currentProgramId: Option<int>,
    currentDay: Option<string>,
    exerciseCount: Option<int>,
    editingExerciseId: Option<int>,
    sessionId: Option<int>,
    programId: Option<int>,
    exercises: Option<seq<E>>,
    currentIndex: Option<int>)

  function EmptyScratch<E>(): Scratch<E> {
    Scratch(None, None, None, None, None, None, None, None)
  }

  /** The builder's keys cleared: what menu "back" pops. */
  function WithoutBuilder<E>(s: Scratch<E>): (r: Scratch<E>)
    ensures r.currentProgramId.None? && r.exerciseCount.None? && r.editingExerciseId.None? && r.currentDay.None?
    ensures r.sessionId == s.sessionId && r.programId == s.programId && r.exercises == s.exercises && r.currentIndex == s.currentIndex
  {
    s.(currentProgramId := None, exerciseCount := None, editingExerciseId := None, currentDay := None)
  }

  class UserData<E> {
    var currentProgramId: Option<int>
    var currentDay: Option<string>
    var exerciseCount: Option<int>
    var editingExerciseId: Option<int>
    var sessionId: Option<int>
    var programId: Option<int>
    var exercises: Option<seq<E>>
    var currentIndex: Option<int>

    function State(): Scratch<E>
      reads this
    {
      Scratch(currentProgramId, currentDay, exerciseCount, editingExerciseId, sessionId, programId, exercises, currentIndex)
    }

    /** A user the bot has not seen: nothing stored. */
    constructor ()
      ensures State() == EmptyScratch()
    {
      currentProgramId, currentDay, exerciseCount, editingExerciseId := None, None, None, None;
      sessionId, programId, exercises, currentIndex := None, None, None, None;
    }

    /** Overwrites every key with the given values. */
    method Set(s: Scratch<E>)
      modifies this
      ensures State() == s
    {
      currentProgramId, currentDay, exerciseCount, editingExerciseId := s.currentProgramId, s.currentDay, s.exerciseCount, s.editingExerciseId;
      sessionId, programId, exercises, currentIndex := s.sessionId, s.programId, s.exercises, s.currentIndex;
    }

    /** The builder's keys set for a fresh program `pid` on `day`, holding no exercises yet. */
    method StartBuilder(pid: Option<int>, day: string)
      modifies this
      ensures State() == old(State()).(currentProgramId := pid, currentDay := Some(day), exerciseCount := Some(0))
    {
      currentProgramId, currentDay, exerciseCount := pid, Some(day), Some(0);
    }

    /** The player's keys set for session `sid` on program `pid`, at the first of `exs`. */
    method StartPlayer(sid: Option<int>, pid: Option<int>, exs: seq<E>)
      modifies this
      ensures State() == old(State()).(sessionId := sid, programId := pid, exercises := Some(exs), currentIndex := Some(0))
    {
      sessionId, programId, exercises, currentIndex := sid, pid, Some(exs), Some(0);
    }

    /** The player's cursor set to `i`. */
    method MoveTo(i: int)
      modifies this
      ensures State() == old(State()).(currentIndex := Some(i))
    {
      currentIndex := Some(i);
    }

    /** `context.user_data.clear()`. */
    method Clear()
      modifies this
      ensures State() == EmptyScratch()
    {
      Set(EmptyScratch());
    }
  }

  /** `context.user_data.get('exercises', [])` */
  function ExercisesOf<E>(s: Scratch<E>): seq<E> {
    s.exercises.GetOr([])
  }

  /** `context.user_data.get('current_index', 0)` */
  function IndexOf<E>(s: Scratch<E>): int {
    s.currentIndex.GetOr(0)
  }

  /** cancel (the same in both variants): everything stored for the user is cleared and the conversation ends. */
  method Cancel<E>(ud: UserData<E>) returns (next: Next)
    modifies ud
    ensures next == End && ud.State() == EmptyScratch()
  {
    ud.Clear();
    next := End;
  }

  /** What the player puts on screen. */
  datatype Screen<E> =
    | Showing(position: int, total: nat, exercise: E)
    | Completed
    | IndexFailed   // `exercises[idx]` raised IndexError
    | Unchanged     // the handler showed nothing new

  /** Python's `xs[i]`: negative positions count from the end; out of range is None (IndexError). */
  function PyIndex<E>(xs: seq<E>, i: int): (r: Option<E>)
    ensures 0 <= i < |xs| ==> r == Some(xs[i])
    ensures -|xs| <= i < 0 ==> r == Some(xs[|xs| + i])
    ensures (i < -|xs| || i >= |xs|) <==> r.None?
    ensures r.Some? ==> r.value in xs
  {
    if 0 <= i < |xs| then Some(xs[i])
    else if -|xs| <= i < 0 then Some(xs[|xs| + i])
    else None
  }

  /** What showing the current exercise does: the screen, the session to close, the state afterwards. */
  datatype Shown<E> = Shown(screen: Screen<E>, close: Option<int>, after: Scratch<E>)

  /**
   * The index and completion logic of show_current_exercise. Past the last
   * exercise: the session id, if truthy, is the session to close, and all
   * per-user state is cleared. Otherwise the exercise at the cursor is shown
   * (Python indexing, so a negative cursor counts from the end) and nothing changes.
   */
  function ShowOutcome<E>(s: Scratch<E>): (r: Shown<E>)
    ensures var exs, idx := ExercisesOf(s), IndexOf(s);
      && (r.screen == Completed <==> idx >= |exs|)
      && (r.screen == Completed ==> r.after == EmptyScratch() && r.close == (if Truthy(s.sessionId) then s.sessionId else None))
      && (r.screen != Completed ==> r.after == s && r.close == None)
      && (0 <= idx < |exs| ==> r.screen == Showing(idx, |exs|, exs[idx]))
      && (-|exs| <= idx < 0 ==> r.screen == Showing(idx, |exs|, exs[|exs| + idx]))
      && (r.screen == IndexFailed <==> idx < -|exs|)
  {
    var exs, idx := ExercisesOf(s), IndexOf(s);
    if idx >= |exs| then
      Shown(Completed, if Truthy(s.sessionId) then s.sessionId else None, EmptyScratch())
    else
      match PyIndex(exs, idx)
      case Some(e) => Shown(Showing(idx, |exs|, e), None, s)
      case None => Shown(IndexFailed, None, s)
  }

  method ShowCurrent<E>(ud: UserData<E>) returns (screen: Screen<E>, close: Option<int>)
    modifies ud
    ensures Shown(screen, close, ud.State()) == ShowOutcome(old(ud.State()))
  {
    var s := ud.State();
    var exs, idx := ExercisesOf(s), IndexOf(s);
    if idx >= |exs| {
      close := if Truthy(ud.sessionId) then ud.sessionId else None;
      ud.Clear();
      screen := Completed;
    } else {
      close := None;
      var e := PyIndex(exs, idx);
      screen := match e case Some(x) => Showing(idx, |exs|, x) case None => IndexFailed;
    }
  }
}
