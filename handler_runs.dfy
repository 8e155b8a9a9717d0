/**
 * Runs of several handlers.py handlers on one user's state: what a whole
 * conversation writes to the store, and where the player's cursor ends up.
 */
module HandlerRuns {
  import opened Wrappers
  import opened ExerciseLine
  import opened Callbacks
  import opened Conversation
  import opened Handlers

  /** The exercises of the accepted lines, in order. */
  function AcceptedSpecs(results: seq<LineResult>): seq<ExerciseSpec> {
    if results == [] then [] else AcceptedSpecs(results[..|results| - 1]) + LineSpecs(results[|results| - 1])
  }

  function LineSpecs(result: LineResult): seq<ExerciseSpec> {
    match result
    case Parsed(spec) => [spec]
    case Rejected(_) => []
  }

  /** The builder's state after day_selected on `day` created `pid`, with `count` exercises added. */
  function Builder(pid: int, day: string, count: int): State {
    EmptyScratch().(currentProgramId := Some(pid), currentDay := Some(day), exerciseCount := Some(count))
  }

  /** The store appends for `specs` under program `pid`, at positions 0, 1, 2, ... */
  function Appends(pid: int, specs: seq<ExerciseSpec>): (r: seq<Write>)
    ensures |r| == |specs|
    ensures forall k :: 0 <= k < |specs| ==>
      r[k] == AddExercise(pid, specs[k].name, specs[k].reps, specs[k].sets, specs[k].weight, specs[k].mediaUrl, k)
  {
    seq(|specs|, k requires 0 <= k < |specs| =>
      AddExercise(pid, specs[k].name, specs[k].reps, specs[k].sets, specs[k].weight, specs[k].mediaUrl, k))
  }

  lemma AppendsSnoc(pid: int, specs: seq<ExerciseSpec>, x: ExerciseSpec)
    ensures Appends(pid, specs + [x]) == Appends(pid, specs) + [AddExercise(pid, x.name, x.reps, x.sets, x.weight, x.mediaUrl, |specs|)]
  {
    var a, b := Appends(pid, specs + [x]), Appends(pid, specs) + [AddExercise(pid, x.name, x.reps, x.sets, x.weight, x.mediaUrl, |specs|)];
    assert |a| == |b|;
    forall k | 0 <= k < |a| ensures a[k] == b[k] {
      if k < |specs| {
        assert (specs + [x])[k] == specs[k];
      }
    }
  }

  /**
   * A day chosen (no program for it yet, the store creating `pid`), then
   * text lines typed one by one, `results` being what the parse makes of
   * each: the lines that parse are appended at positions 0, 1, 2, ... with
   * no gap for a rejected line, and the count ends at the number of accepted lines.
   */
  method BuildProgram(user: int, day: string, pid: int, results: seq<LineResult>) returns (writes: seq<Write>, count: int)
    requires pid != 0
    ensures writes == [CreateProgram(user, day), DeleteExercises(Some(pid))] + Appends(pid, AcceptedSpecs(results))
    ensures count == |AcceptedSpecs(results)|
  {
    var ud := new UserData<ExerciseRecord>();
    var next;
    next, writes := DaySelected(ud, user, day, None, Some(pid));
    var start := writes;
    var i := 0;
    while i < |results|
      invariant 0 <= i <= |results|
      invariant ud.State() == Builder(pid, day, |AcceptedSpecs(results[..i])|)
      invariant writes == start + Appends(pid, AcceptedSpecs(results[..i]))
    {
      assert results[..i + 1][..i] == results[..i];
      var specs := AcceptedSpecs(results[..i]);
      var w := TypeLine(ud, pid, day, |specs|, results[i]);
      if results[i].Parsed? {
        AppendsSnoc(pid, specs, results[i].spec);
      } else {
        assert AcceptedSpecs(results[..i + 1]) == specs + [];
      }
      writes := writes + w;
      i := i + 1;
    }
    assert results[..|results|] == results;
    count := ud.exerciseCount.GetOr(0);
  }

  /** One text line, parsed to `result`, typed into the builder: an accepted line is appended at position `count`, a rejected one writes nothing. */
  method TypeLine(ud: Data, pid: int, day: string, count: int, result: LineResult) returns (writes: seq<Write>)
    requires pid != 0
    requires ud.State() == Builder(pid, day, count)
    modifies ud
    ensures result.Rejected? ==> writes == [] && ud.State() == Builder(pid, day, count)
    ensures result.Parsed? ==>
      var x := result.spec;
      && writes == [AddExercise(pid, x.name, x.reps, x.sets, x.weight, x.mediaUrl, count)]
      && ud.State() == Builder(pid, day, count + 1)
  {
    var next;
    next, writes := HandleLine(ud, Entry(result), None, false);
  }

  /** On a session at exercise `i > 0`: back, then done. The cursor returns to `i` and both moves are persisted. */
  method BackThenDone(exs: seq<ExerciseRecord>, i: int, sid: int, storedRest: Option<int>)
    returns (writes: seq<Write>, rest: Option<int>, screen: Screen<ExerciseRecord>, index: int)
    requires 0 < i < |exs|
    ensures writes == [UpdateSessionIndex(sid, i - 1), UpdateSessionIndex(sid, i)]
    ensures rest == Some(OrElse(storedRest, 60))
    ensures screen == Showing(i, |exs|, exs[i])
    ensures index == i
  {
    var ud := new UserData<ExerciseRecord>();
    ud.Set(EmptyScratch().(sessionId := Some(sid), exercises := Some(exs), currentIndex := Some(i)));
    var w1, s1 := SessionBack(ud);
    var w2;
    w2, rest, screen := ExerciseDone(ud, storedRest);
    writes := w1 + w2;
    index := IndexOf(ud.State());
  }

  /** The persisted cursor positions 1, 2, ..., n, one per done. */
  function Progress(sid: int, n: nat): (r: seq<Write>)
    ensures |r| == n && forall k :: 0 <= k < n ==> r[k] == UpdateSessionIndex(sid, k + 1)
  {
    seq(n, k => UpdateSessionIndex(sid, k + 1))
  }

  /**
   * `start_<id>` on a program with exercises, then done on every one: the
   * store sees the session opened, each index persisted, and the session
   * closed; every done but the last rests; the player ends on the completion
   * screen with the user's state cleared.
   */
  method PlayThrough(user: int, data: string, stored: seq<ExerciseRecord>, sid: int, storedRest: Option<int>)
    returns (writes: seq<Write>, rests: nat, screen: Screen<ExerciseRecord>, after: Scratch<ExerciseRecord>)
    requires StartProgramId(data).Some? && stored != [] && sid != 0
    ensures writes == [CreateSession(user, StartProgramId(data).value)] + Progress(sid, |stored|) + [CloseSession(sid)]
    ensures rests == |stored| - 1
    ensures screen == Completed
    ensures after == EmptyScratch()
  {
    var ud := new UserData<ExerciseRecord>();
    var pid := StartProgramId(data).value;
    writes, screen := WorkoutSelected(ud, user, data, stored, sid);
    rests := 0;
    var i := 0;
    while i < |stored| - 1
      invariant 0 <= i <= |stored| - 1
      invariant ud.State() == EmptyScratch().(sessionId := Some(sid), programId := Some(pid), exercises := Some(stored), currentIndex := Some(i))
      invariant writes == [CreateSession(user, pid)] + Progress(sid, i)
      invariant rests == i
    {
      var w, rest;
      w, rest, screen := ExerciseDone(ud, storedRest);
      assert Progress(sid, i + 1) == Progress(sid, i) + [UpdateSessionIndex(sid, i + 1)];
      writes := writes + w;
      rests := rests + 1;
      i := i + 1;
    }
    var w, rest;
    w, rest, screen := ExerciseDone(ud, storedRest);
    assert Progress(sid, i + 1) == Progress(sid, i) + [UpdateSessionIndex(sid, i + 1)];
    writes := writes + w;
    after := ud.State();
  }
}
