/**
 * Runs of several bot.py handlers against one fresh store of database.py.
 */
module BotRuns {
  import opened Wrappers
  import opened Seqs
  import opened Text
  import opened ExerciseLine
  import opened Conversation
  import opened Store
  import opened Bot

  /**
   * A day chosen, one line accepted, the same day chosen again. REPLACE gives
   * the day's program a fresh id, so the delete that follows finds nothing
   * under it: the first exercise stays in the table under an id no program
   * has, and the day's program lists no exercises.
   */
  method ReselectDay(user: int, day: string, spec: CommaSpec)
    returns (programs: seq<ProgramRow>, orphans: seq<ExerciseRow>, listed: seq<ExerciseRow>)
    requires CommaExpressible(spec)
    ensures programs == [ProgramRow(2, user, day)]
    ensures orphans == [ExerciseRow(1, 1, spec.name, spec.sets, spec.weight, 0)]
    ensures listed == []
  {
    var db, ud := FirstDay(user, day, spec);
    var row := ExerciseRow(1, 1, spec.name, spec.sets, spec.weight, 0);
    var next := DaySelected(ud, db, user, day);
    assert Filter([ProgramRow(1, user, day)], OtherDay(user, day)) == [] by {
      FilterNoneKept([ProgramRow(1, user, day)], OtherDay(user, day));
    }
    assert db.exercises == [row] by {
      DeleteNothing([row], 2);
    }
    listed := db.GetExercises(2);
    assert Filter([row], OfProgram(2)) == [] by {
      FilterNoneKept([row], OfProgram(2));
    }
    programs, orphans := db.programs, db.exercises;
  }

  /** A fresh store and user: a day chosen and one line accepted. */
  method FirstDay(user: int, day: string, spec: CommaSpec) returns (db: Database, ud: UserData<ExerciseRow>)
    requires CommaExpressible(spec)
    ensures fresh(db) && fresh(ud) && db.Valid()
    ensures db.programs == [ProgramRow(1, user, day)] && db.nextProgramId == 2
    ensures db.exercises == [ExerciseRow(1, 1, spec.name, spec.sets, spec.weight, 0)]
  {
    db := new Database();
    ud := new UserData<ExerciseRow>();
    var next := DaySelected(ud, db, user, day);
    assert db.programs == [ProgramRow(1, user, day)];
    TypeLine(ud, db, day, 0, spec);
  }

  /** The rows that accepted lines for `specs` add under program `pid` to an empty table: ids and positions count up. */
  function Rows(pid: int, specs: seq<CommaSpec>): (r: seq<ExerciseRow>)
    ensures |r| == |specs|
    ensures forall k :: 0 <= k < |specs| ==> r[k] == ExerciseRow(k + 1, pid, specs[k].name, specs[k].sets, specs[k].weight, k)
  {
    seq(|specs|, k requires 0 <= k < |specs| => ExerciseRow(k + 1, pid, specs[k].name, specs[k].sets, specs[k].weight, k))
  }

  lemma RowsSnoc(pid: int, specs: seq<CommaSpec>, x: CommaSpec)
    ensures Rows(pid, specs + [x]) == Rows(pid, specs) + [ExerciseRow(|specs| + 1, pid, x.name, x.sets, x.weight, |specs|)]
  {
    var a, b := Rows(pid, specs + [x]), Rows(pid, specs) + [ExerciseRow(|specs| + 1, pid, x.name, x.sets, x.weight, |specs|)];
    forall k | 0 <= k < |a| ensures a[k] == b[k] {
      if k < |specs| {
        assert (specs + [x])[k] == specs[k];
      }
    }
  }

  /** get_exercises on the program the rows were added to gives them back in the order they were typed. */
  lemma RowsListed(pid: int, specs: seq<CommaSpec>)
    ensures SortBy(Filter(Rows(pid, specs), OfProgram(pid)), ByOrderIndex()) == Rows(pid, specs)
  {
    var rows := Rows(pid, specs);
    FilterNone(rows, OfProgram(pid));
    assert Pairwise(rows, ByOrderIndex());
    SortBySorted(rows, ByOrderIndex());
  }

  /** What day_selected and a run of accepted lines leave for the user. */
  function Builder(day: string, count: int): Scratch<ExerciseRow> {
    EmptyScratch().(currentProgramId := Some(1), currentDay := Some(day), exerciseCount := Some(count))
  }

  /** The line for `spec` typed into the builder at `count`: the row is appended at that position under the next id. */
  method TypeLine(ud: UserData<ExerciseRow>, db: Database, day: string, count: int, spec: CommaSpec)
    requires db.Valid() && CommaExpressible(spec)
    requires ud.State() == Builder(day, count)
    modifies ud, db`exercises, db`nextExerciseId
    ensures db.Valid()
    ensures db.exercises == old(db.exercises) + [ExerciseRow(old(db.nextExerciseId), 1, spec.name, spec.sets, spec.weight, count)]
    ensures db.nextExerciseId == old(db.nextExerciseId) + 1
    ensures ud.State() == Builder(day, count + 1)
  {
    TypedCommaLine(spec);
    TypedLine(ud, db, day, count, FormatCommaLine(spec), spec);
  }

  /** TypeLine once the line is known to be accepted as `spec`. */
  method TypedLine(ud: UserData<ExerciseRow>, db: Database, day: string, count: int, line: string, spec: CommaSpec)
    requires db.Valid() && Strip(line) != Finished && ParseCommaLine(Strip(line)) == CommaParsed(spec)
    requires ud.State() == Builder(day, count)
    modifies ud, db`exercises, db`nextExerciseId
    ensures db.Valid()
    ensures db.exercises == old(db.exercises) + [ExerciseRow(old(db.nextExerciseId), 1, spec.name, spec.sets, spec.weight, count)]
    ensures db.nextExerciseId == old(db.nextExerciseId) + 1
    ensures ud.State() == Builder(day, count + 1)
  {
    ghost var s := ud.State();
    assert s.currentProgramId == Some(1) && s.exerciseCount.GetOr(0) == count;
    var next := AddExerciseLine(ud, db, line);
  }

  /** A fresh store and user: a day chosen, then the line for each element of `specs` typed. */
  method Build(user: int, day: string, specs: seq<CommaSpec>) returns (db: Database, ud: UserData<ExerciseRow>)
    requires forall spec <- specs :: CommaExpressible(spec)
    ensures fresh(db) && fresh(ud) && db.Valid()
    ensures db.exercises == Rows(1, specs) && db.sessions == [] && db.nextSessionId == 1
    ensures ud.State() == Builder(day, |specs|)
  {
    db := new Database();
    ud := new UserData<ExerciseRow>();
    var next := DaySelected(ud, db, user, day);
    var i := 0;
    while i < |specs|
      invariant 0 <= i <= |specs|
      invariant db.Valid() && db.exercises == Rows(1, specs[..i]) && db.nextExerciseId == i + 1
      invariant db.sessions == [] && db.nextSessionId == 1
      invariant ud.State() == Builder(day, i)
    {
      RowsSnoc(1, specs[..i], specs[i]);
      assert specs[..i + 1] == specs[..i] + [specs[i]];
      assert specs[i] in specs;
      TypeLine(ud, db, day, i, specs[i]);
      i := i + 1;
    }
    assert specs[..i] == specs;
  }

  /** The user's state while playing the program built from `specs`, at exercise `i`. */
  function Playing(day: string, specs: seq<CommaSpec>, i: int): Scratch<ExerciseRow> {
    Builder(day, |specs|).(sessionId := Some(1), programId := Some(1), exercises := Some(Rows(1, specs)), currentIndex := Some(i))
  }

  /** A program built from `specs` and started with `start_1`. */
  method Started(user: int, day: string, specs: seq<CommaSpec>) returns (db: Database, ud: UserData<ExerciseRow>, first: Screen<ExerciseRow>)
    requires specs != []
    requires forall spec <- specs :: CommaExpressible(spec)
    ensures fresh(db) && fresh(ud) && db.Valid()
    ensures db.sessions == [SessionRow(1, user, 1, 0, true)]
    ensures ud.State() == Playing(day, specs, 0)
    ensures first == Showing(0, |specs|, ExerciseRow(1, 1, specs[0].name, specs[0].sets, specs[0].weight, 0))
  {
    db, ud := Build(user, day, specs);
    RowsListed(1, specs);
    first := StartSession(ud, db, user, 1);
  }

  /** Done pressed at exercise `i`: the next one after a rest, or the end with the session closed. */
  method DoneAt(ud: UserData<ExerciseRow>, db: Database, user: int, day: string, specs: seq<CommaSpec>, i: int)
    returns (rest: Option<int>, screen: Screen<ExerciseRow>)
    requires 0 <= i < |specs|
    requires db.Valid() && db.sessions == [SessionRow(1, user, 1, i, true)]
    requires ud.State() == Playing(day, specs, i)
    modifies ud, db`sessions
    ensures db.Valid()
    ensures i + 1 < |specs| ==>
      rest == Some(RestSeconds) && db.sessions == [SessionRow(1, user, 1, i + 1, true)] && ud.State() == Playing(day, specs, i + 1)
    ensures i + 1 == |specs| ==>
      rest == None && screen == Completed && db.sessions == [SessionRow(1, user, 1, i + 1, false)] && ud.State() == EmptyScratch()
  {
    SingleMapped(SessionRow(1, user, 1, i, true), SetIndex(1, i + 1));
    SingleMapped(SessionRow(1, user, 1, i + 1, true), Close(1));
    rest, screen := ExerciseDone(ud, db);
  }

  /**
   * A program built from `specs`, started, and done pressed on every
   * exercise: the first exercise typed is shown first, every done but the
   * last rests a minute, the last completes, and the store is left with no
   * active session for the user.
   */
  method PlayThrough(user: int, day: string, specs: seq<CommaSpec>)
    returns (first: Screen<ExerciseRow>, rests: nat, last: Screen<ExerciseRow>, active: Option<ActiveSession>)
    requires specs != []
    requires forall spec <- specs :: CommaExpressible(spec)
    ensures first == Showing(0, |specs|, ExerciseRow(1, 1, specs[0].name, specs[0].sets, specs[0].weight, 0))
    ensures rests == |specs| - 1
    ensures last == Completed
    ensures active == None
  {
    var db, ud;
    db, ud, first := Started(user, day, specs);
    rests := 0;
    var i := 0;
    while i < |specs| - 1
      invariant 0 <= i <= |specs| - 1 && rests == i
      invariant db.Valid() && db.sessions == [SessionRow(1, user, 1, i, true)]
      invariant ud.State() == Playing(day, specs, i)
    {
      var rest, screen := DoneAt(ud, db, user, day, specs, i);
      rests, i := rests + 1, i + 1;
    }
    var rest;
    rest, last := DoneAt(ud, db, user, day, specs, i);
    active := db.GetActiveSession(user);
  }

  lemma SingleMapped(row: SessionRow, f: SessionRow -> SessionRow)
    ensures Map([row], f) == [f(row)]
  {
  }
}
