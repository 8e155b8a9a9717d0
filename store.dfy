/**
 * database.py: the bot's SQLite store, as four in-memory tables and the
 * AUTOINCREMENT counters that hand out fresh row ids. Rows are kept in rowid
 * order, which is the order in which a query without ORDER BY returns them.
 * Foreign keys are never switched on by database.py, so no delete cascades.
 */
module Store {
  import opened Wrappers
  import opened Seqs
  import Text
  import opened Numbers

  datatype ProgramRow = ProgramRow(id: int, userId: int, dayName: string)

  datatype ExerciseRow = ExerciseRow(id: int, programId: int, name: string, sets: int, weight: Decimal, orderIndex: int)

  datatype SessionRow = SessionRow(id: int, userId: int, programId: int, exerciseIndex: int, active: bool)

  /** The dictionary get_active_session returns. */
  datatype ActiveSession = ActiveSession(sessionId: int, programId: int, exerciseIndex: int)

  // ---------------------------------------------------------------------------
  // workout_programs: UNIQUE(user_id, day_name) and INSERT OR REPLACE

  predicate IsDay(p: ProgramRow, u: int, d: string) {
    p.userId == u && p.dayName == d
  }

  function OtherDay(u: int, d: string): ProgramRow -> bool {
    (p: ProgramRow) => !IsDay(p, u, d)
  }

  /**
   * INSERT OR REPLACE of (u, d): SQLite deletes the row that clashes on the
   * unique pair and inserts a new row, which gets the next AUTOINCREMENT id.
   */
  function Replaced(programs: seq<ProgramRow>, u: int, d: string, id: int): seq<ProgramRow> {
    Filter(programs, OtherDay(u, d)) + [ProgramRow(id, u, d)]
  }

  /** `SELECT id ... WHERE user_id = ? AND day_name = ?` and `fetchone()`: the first match. */
  function FindProgram(programs: seq<ProgramRow>, u: int, d: string): (r: Option<int>)
    ensures r.None? <==> forall p :: p in programs ==> !IsDay(p, u, d)
    ensures r.Some? ==> ProgramRow(r.value, u, d) in programs
  {
    if programs == [] then None
    else if IsDay(programs[0], u, d) then Some(programs[0].id)
    else FindProgram(programs[1..], u, d)
  }

  function SameDay(): (ProgramRow, ProgramRow) -> bool {
    (a: ProgramRow, b: ProgramRow) => !(a.userId == b.userId && a.dayName == b.dayName)
  }

  function ProgramIdLt(): (ProgramRow, ProgramRow) -> bool {
    (a: ProgramRow, b: ProgramRow) => a.id < b.id
  }

  /** After replacing (u, d) there is exactly one row for the pair, the new one, and the lookup finds it. */
  lemma ReplacedHasOneRow(programs: seq<ProgramRow>, u: int, d: string, id: int)
    ensures forall p :: p in Replaced(programs, u, d, id) && IsDay(p, u, d) ==> p == ProgramRow(id, u, d)
    ensures FindProgram(Replaced(programs, u, d, id), u, d) == Some(id)
  {
    var kept := Filter(programs, OtherDay(u, d));
    FindProgramConcat(kept, [ProgramRow(id, u, d)], u, d);
  }

  lemma {:induction false} FindProgramConcat(a: seq<ProgramRow>, b: seq<ProgramRow>, u: int, d: string)
    requires forall p :: p in a ==> !IsDay(p, u, d)
    ensures FindProgram(a + b, u, d) == FindProgram(b, u, d)
  {
    if a != [] {
      assert a[0] in a && (a + b)[0] == a[0];
      assert (a + b)[1..] == a[1..] + b;
      assert forall p :: p in a[1..] ==> p in a;
      FindProgramConcat(a[1..], b, u, d);
    } else {
      assert a + b == b;
    }
  }

  /** The other users' and other days' programs are kept as they were. */
  lemma ReplacedKeepsOthers(programs: seq<ProgramRow>, u: int, d: string, id: int)
    ensures forall p :: !IsDay(p, u, d) ==> (p in Replaced(programs, u, d, id) <==> p in programs)
  {
  }

  /** Replacing keeps the table's ids increasing and its (user, day) pairs unique. */
  lemma ReplacedKeepsInvariant(programs: seq<ProgramRow>, u: int, d: string, id: int)
    requires Pairwise(programs, ProgramIdLt()) && Pairwise(programs, SameDay())
    requires forall p :: p in programs ==> p.id < id
    ensures Pairwise(Replaced(programs, u, d, id), ProgramIdLt())
    ensures Pairwise(Replaced(programs, u, d, id), SameDay())
  {
    var kept := Filter(programs, OtherDay(u, d));
    var row := ProgramRow(id, u, d);
    FilterPairwise(programs, OtherDay(u, d), ProgramIdLt());
    FilterPairwise(programs, OtherDay(u, d), SameDay());
    PairwiseSnoc(kept, row, ProgramIdLt());
    PairwiseSnoc(kept, row, SameDay());
  }

  // ---------------------------------------------------------------------------
  // exercises: plain INSERT, DELETE by program, SELECT by program ORDER BY order_index

  function OfProgram(pid: int): ExerciseRow -> bool {
    (e: ExerciseRow) => e.programId == pid
  }

  function NotOfProgram(pid: int): ExerciseRow -> bool {
    (e: ExerciseRow) => e.programId != pid
  }

  function ByOrderIndex(): (ExerciseRow, ExerciseRow) -> bool {
    (a: ExerciseRow, b: ExerciseRow) => a.orderIndex <= b.orderIndex
  }

  lemma ByOrderIndexIsOrder()
    ensures Total(ByOrderIndex()) && Transitive(ByOrderIndex())
  {
  }

  function ExerciseIdLt(): (ExerciseRow, ExerciseRow) -> bool {
    (a: ExerciseRow, b: ExerciseRow) => a.id < b.id
  }

  /** After delete_exercises(p), get_exercises(p) finds nothing; the other programs' rows are all kept. */
  lemma DeletedProgramIsEmpty(exercises: seq<ExerciseRow>, pid: int)
    ensures Filter(Filter(exercises, NotOfProgram(pid)), OfProgram(pid)) == []
    ensures forall e: ExerciseRow :: e.programId != pid ==> (e in Filter(exercises, NotOfProgram(pid)) <==> e in exercises)
  {
    FilterNoneKept(Filter(exercises, NotOfProgram(pid)), OfProgram(pid));
  }

  /** Deleting the exercises of a program that has none leaves the table as it was. */
  lemma DeleteNothing(exercises: seq<ExerciseRow>, pid: int)
    requires forall e :: e in exercises ==> e.programId != pid
    ensures Filter(exercises, NotOfProgram(pid)) == exercises
  {
    FilterNone(exercises, NotOfProgram(pid));
  }

  // ---------------------------------------------------------------------------
  // Programs of a user, ORDER BY day_name

  function OfUser(u: int): ProgramRow -> bool {
    (p: ProgramRow) => p.userId == u
  }

  function ByDayName(): (ProgramRow, ProgramRow) -> bool {
    (a: ProgramRow, b: ProgramRow) => Text.LexLe(a.dayName, b.dayName)
  }

  lemma ByDayNameIsOrder()
    ensures Total(ByDayName()) && Transitive(ByDayName())
  {
    forall a: ProgramRow, b: ProgramRow ensures ByDayName()(a, b) || ByDayName()(b, a) {
      Text.LexTotal(a.dayName, b.dayName);
    }
    forall a: ProgramRow, b: ProgramRow, c: ProgramRow | ByDayName()(a, b) && ByDayName()(b, c)
      ensures ByDayName()(a, c)
    {
      Text.LexTransitive(a.dayName, b.dayName, c.dayName);
    }
  }

  // ---------------------------------------------------------------------------
  // workout_sessions: at most one active session per user

  function Deactivate(u: int): SessionRow -> SessionRow {
    (s: SessionRow) => if s.userId == u && s.active then s.(active := false) else s
  }

  function SetIndex(sid: int, idx: int): SessionRow -> SessionRow {
    (s: SessionRow) => if s.id == sid then s.(exerciseIndex := idx) else s
  }

  function Close(sid: int): SessionRow -> SessionRow {
    (s: SessionRow) => if s.id == sid then s.(active := false) else s
  }

  /** create_workout_session: deactivate the user's active sessions, then insert an active one at index 0. */
  function Opened(sessions: seq<SessionRow>, u: int, pid: int, id: int): seq<SessionRow> {
    Map(sessions, Deactivate(u)) + [SessionRow(id, u, pid, 0, true)]
  }

  predicate IsActiveOf(s: SessionRow, u: int) {
    s.userId == u && s.active
  }

  function View(s: SessionRow): ActiveSession {
    ActiveSession(s.id, s.programId, s.exerciseIndex)
  }

  /** `SELECT ... WHERE user_id = ? AND is_active = 1` and `fetchone()`: the first active session of `u`. */
  function FirstActive(sessions: seq<SessionRow>, u: int): (r: Option<ActiveSession>)
    ensures r.None? <==> forall s :: s in sessions ==> !IsActiveOf(s, u)
    ensures r.Some? ==> SessionRow(r.value.sessionId, u, r.value.programId, r.value.exerciseIndex, true) in sessions
  {
    if sessions == [] then None
    else if IsActiveOf(sessions[0], u) then Some(View(sessions[0]))
    else FirstActive(sessions[1..], u)
  }

  function OneActive(): (SessionRow, SessionRow) -> bool {
    (a: SessionRow, b: SessionRow) => !(a.active && b.active && a.userId == b.userId)
  }

  function SessionIdLt(): (SessionRow, SessionRow) -> bool {
    (a: SessionRow, b: SessionRow) => a.id < b.id
  }

  lemma {:induction false} FirstActiveConcat(a: seq<SessionRow>, b: seq<SessionRow>, u: int)
    ensures FirstActive(a + b, u) == if FirstActive(a, u).Some? then FirstActive(a, u) else FirstActive(b, u)
  {
    if a == [] {
      assert a + b == b;
    } else {
      assert (a + b)[0] == a[0];
      assert (a + b)[1..] == a[1..] + b;
      FirstActiveConcat(a[1..], b, u);
    }
  }

  /** A row-wise update that leaves every row's standing with `u` alone does not change what `u` sees. */
  lemma {:induction false} FirstActiveMapped(sessions: seq<SessionRow>, f: SessionRow -> SessionRow, u: int)
    requires forall s :: IsActiveOf(f(s), u) <==> IsActiveOf(s, u)
    requires forall s :: IsActiveOf(s, u) ==> View(f(s)) == View(s)
    ensures FirstActive(Map(sessions, f), u) == FirstActive(sessions, u)
  {
    if sessions != [] {
      FirstActiveMapped(sessions[1..], f, u);
      MapAt(sessions, f);
      assert Map(sessions, f)[1..] == Map(sessions[1..], f);
    }
  }

  /**
   * After create_workout_session(u, p): the new session is u's only active one,
   * at index 0; the rows of other users are untouched and what they see is unchanged.
   */
  lemma OpenedIsOnlyActive(sessions: seq<SessionRow>, u: int, pid: int, id: int)
    ensures forall s :: s in Opened(sessions, u, pid, id) && IsActiveOf(s, u) ==> s == SessionRow(id, u, pid, 0, true)
    ensures FirstActive(Opened(sessions, u, pid, id), u) == Some(ActiveSession(id, pid, 0))
    ensures forall i :: 0 <= i < |sessions| && sessions[i].userId != u ==> Opened(sessions, u, pid, id)[i] == sessions[i]
    ensures forall v :: v != u ==> FirstActive(Opened(sessions, u, pid, id), v) == FirstActive(sessions, v)
  {
    var kept := Map(sessions, Deactivate(u));
    var row := SessionRow(id, u, pid, 0, true);
    MapAt(sessions, Deactivate(u));
    assert forall s :: s in kept ==> !IsActiveOf(s, u) by {
      forall s | s in kept ensures !IsActiveOf(s, u) {
        var i :| 0 <= i < |kept| && kept[i] == s;
      }
    }
    FirstActiveConcat(kept, [row], u);
    forall v | v != u ensures FirstActive(Opened(sessions, u, pid, id), v) == FirstActive(sessions, v) {
      FirstActiveMapped(sessions, Deactivate(u), v);
      FirstActiveConcat(kept, [row], v);
    }
  }

  lemma OpenedKeepsInvariant(sessions: seq<SessionRow>, u: int, pid: int, id: int)
    requires SessionsValid(sessions, id)
    ensures SessionsValid(Opened(sessions, u, pid, id), id + 1)
  {
    var kept := Map(sessions, Deactivate(u));
    var row := SessionRow(id, u, pid, 0, true);
    MapAt(sessions, Deactivate(u));
    assert Pairwise(kept, SessionIdLt()) && Pairwise(kept, OneActive()) by {
      forall i, j | 0 <= i < j < |kept| ensures SessionIdLt()(kept[i], kept[j]) && OneActive()(kept[i], kept[j]) {
        assert SessionIdLt()(sessions[i], sessions[j]) && OneActive()(sessions[i], sessions[j]);
      }
    }
    forall s | s in kept ensures SessionIdLt()(s, row) && OneActive()(s, row) {
      var i :| 0 <= i < |kept| && kept[i] == s;
      assert sessions[i] in sessions;
    }
    PairwiseSnoc(kept, row, SessionIdLt());
    PairwiseSnoc(kept, row, OneActive());
    forall s | s in kept + [row] ensures 1 <= s.id < id + 1 {
      if s != row {
        var i :| 0 <= i < |kept| && kept[i] == s;
        assert sessions[i] in sessions;
      }
    }
  }

  /** update_session_exercise_index on u's active session is seen by get_active_session(u). */
  lemma {:induction false} UpdateIndexVisible(sessions: seq<SessionRow>, u: int, idx: int)
    requires FirstActive(sessions, u).Some?
    ensures var a := FirstActive(sessions, u).value;
      FirstActive(Map(sessions, SetIndex(a.sessionId, idx)), u) == Some(a.(exerciseIndex := idx))
  {
    var a := FirstActive(sessions, u).value;
    var t := Map(sessions, SetIndex(a.sessionId, idx));
    MapAt(sessions, SetIndex(a.sessionId, idx));
    assert t[1..] == Map(sessions[1..], SetIndex(a.sessionId, idx));
    if !IsActiveOf(sessions[0], u) {
      UpdateIndexVisible(sessions[1..], u, idx);
    }
  }

  /** Updating one session's index changes no other row, and no row's other columns. */
  lemma SetIndexChangesOnly(sessions: seq<SessionRow>, sid: int, idx: int)
    ensures forall i :: 0 <= i < |sessions| ==>
      var t := Map(sessions, SetIndex(sid, idx))[i];
      t == (if sessions[i].id == sid then sessions[i].(exerciseIndex := idx) else sessions[i])
  {
    MapAt(sessions, SetIndex(sid, idx));
  }

  /** Closing one session deactivates that row only, and changes nothing else in it. */
  lemma CloseChangesOnly(sessions: seq<SessionRow>, sid: int)
    ensures forall i :: 0 <= i < |sessions| ==>
      var t := Map(sessions, Close(sid))[i];
      t == (if sessions[i].id == sid then sessions[i].(active := false) else sessions[i])
  {
    MapAt(sessions, Close(sid));
  }

  /** Closing the active session of u leaves u with no active session. */
  lemma {:induction false} CloseActiveHidesSession(sessions: seq<SessionRow>, u: int)
    requires Pairwise(sessions, OneActive())
    requires FirstActive(sessions, u).Some?
    ensures FirstActive(Map(sessions, Close(FirstActive(sessions, u).value.sessionId)), u) == None
  {
    var sid := FirstActive(sessions, u).value.sessionId;
    var t := Map(sessions, Close(sid));
    MapAt(sessions, Close(sid));
    var a := FirstActive(sessions, u).value;
    var k :| 0 <= k < |sessions| && sessions[k] == SessionRow(sid, u, a.programId, a.exerciseIndex, true);
    forall i | 0 <= i < |t| ensures !IsActiveOf(t[i], u) {
      var r := sessions[i];
      assert t[i] == Close(sid)(r);
      if r.id != sid {
        assert i != k;
        PairwiseAt(sessions, OneActive(), i, k);
        assert OneActive()(r, sessions[k]) || OneActive()(sessions[k], r);
      }
    }
    assert forall s :: s in t ==> !IsActiveOf(s, u);
  }

  lemma MappedKeepsInvariant(sessions: seq<SessionRow>, f: SessionRow -> SessionRow, next: int)
    requires SessionsValid(sessions, next)
    requires forall s :: f(s).id == s.id && f(s).userId == s.userId && (f(s).active ==> s.active)
    ensures SessionsValid(Map(sessions, f), next)
  {
    var t := Map(sessions, f);
    MapAt(sessions, f);
    forall s | s in t ensures 1 <= s.id < next {
      var i :| 0 <= i < |t| && t[i] == s;
      assert sessions[i] in sessions;
    }
    forall i, j | 0 <= i < j < |t| ensures SessionIdLt()(t[i], t[j]) && OneActive()(t[i], t[j]) {
      assert SessionIdLt()(sessions[i], sessions[j]) && OneActive()(sessions[i], sessions[j]);
    }
  }

  // ---------------------------------------------------------------------------
  // The invariants of the tables

  ghost predicate ProgramsValid(programs: seq<ProgramRow>, next: int) {
    && 1 <= next
    && (forall p :: p in programs ==> 1 <= p.id < next)
    && Pairwise(programs, ProgramIdLt())
    && Pairwise(programs, SameDay())
  }

  ghost predicate ExercisesValid(exercises: seq<ExerciseRow>, next: int) {
    && 1 <= next
    && (forall e :: e in exercises ==> 1 <= e.id < next)
    && Pairwise(exercises, ExerciseIdLt())
  }

  ghost predicate SessionsValid(sessions: seq<SessionRow>, next: int) {
    && 1 <= next
    && (forall s :: s in sessions ==> 1 <= s.id < next)
    && Pairwise(sessions, SessionIdLt())
    && Pairwise(sessions, OneActive())
  }

  // ---------------------------------------------------------------------------
  // The store

  class Database {
    var users: map<int, Option<string>>
    var programs: seq<ProgramRow>
    var exercises: seq<ExerciseRow>
    var sessions: seq<SessionRow>
    var nextProgramId: int
    var nextExerciseId: int
    var nextSessionId: int

    /** Ids increase in rowid order and are below their counter; (user, day) pairs are unique; one active session per user. */
    ghost predicate Valid()
      reads this
    {
      && ProgramsValid(programs, nextProgramId)
      && ExercisesValid(exercises, nextExerciseId)
      && SessionsValid(sessions, nextSessionId)
    }

    /** init_db: the four tables, empty. */
    constructor ()
      ensures Valid()
      ensures users == map[] && programs == [] && exercises == [] && sessions == []
      ensures nextProgramId == 1 && nextExerciseId == 1 && nextSessionId == 1
    {
      users, programs, exercises, sessions := map[], [], [], [];
      nextProgramId, nextExerciseId, nextSessionId := 1, 1, 1;
    }

    /** INSERT OR REPLACE INTO users: one row per user id, holding the latest username. */
    method AddUser(u: int, username: Option<string>)
      requires Valid()
      modifies this`users
      ensures Valid()
      ensures users == old(users)[u := username]
    {
      users := users[u := username];
    }

    /** INSERT OR REPLACE INTO workout_programs, then the id of the row for (u, d). */
    method CreateWorkoutProgram(u: int, d: string) returns (id: Option<int>)
      requires Valid()
      modifies this`programs, this`nextProgramId
      ensures Valid()
      ensures programs == Replaced(old(programs), u, d, old(nextProgramId))
      ensures nextProgramId == old(nextProgramId) + 1
      ensures id == Some(old(nextProgramId)) && id == FindProgram(programs, u, d)
    {
      ReplacedKeepsInvariant(programs, u, d, nextProgramId);
      ReplacedHasOneRow(programs, u, d, nextProgramId);
      programs := Replaced(programs, u, d, nextProgramId);
      nextProgramId := nextProgramId + 1;
      id := FindProgram(programs, u, d);
    }

    /** INSERT INTO exercises. */
    method AddExercise(pid: int, name: string, sets: int, weight: Decimal, orderIndex: int)
      requires Valid()
      modifies this`exercises, this`nextExerciseId
      ensures Valid()
      ensures exercises == old(exercises) + [ExerciseRow(old(nextExerciseId), pid, name, sets, weight, orderIndex)]
      ensures nextExerciseId == old(nextExerciseId) + 1
    {
      var row := ExerciseRow(nextExerciseId, pid, name, sets, weight, orderIndex);
      PairwiseSnoc(exercises, row, ExerciseIdLt());
      exercises := exercises + [row];
      nextExerciseId := nextExerciseId + 1;
    }

    /** get_workout_program: the id of u's program for day d, if there is one. */
    function GetWorkoutProgram(u: int, d: string): (r: Option<int>)
      reads this
      requires Valid()
      ensures r.None? <==> forall p :: p in programs ==> !(p.userId == u && p.dayName == d)
      ensures r.Some? ==> forall p :: p in programs && p.userId == u && p.dayName == d ==> p.id == r.value
    {
      var r := FindProgram(programs, u, d);
      if r.Some? then UniqueDay(programs, ProgramRow(r.value, u, d)); r else r
    }

    /**
     * get_exercises: the rows of program p, ordered by order_index; rows with
     * equal order_index come in table order.
     */
    method GetExercises(pid: int) returns (r: seq<ExerciseRow>)
      ensures r == SortBy(Filter(exercises, OfProgram(pid)), ByOrderIndex())
      ensures multiset(r) == multiset(Filter(exercises, OfProgram(pid)))
      ensures forall e :: e in r <==> e in exercises && e.programId == pid
      ensures Pairwise(r, ByOrderIndex())
    {
      r := [];
      var i := 0;
      while i < |exercises|
        invariant 0 <= i <= |exercises|
        invariant r == SortBy(Filter(exercises[..i], OfProgram(pid)), ByOrderIndex())
      {
        ScanStep(exercises, i, OfProgram(pid), ByOrderIndex());
        if exercises[i].programId == pid {
          r := InsertBy(r, exercises[i], ByOrderIndex());
        }
        i := i + 1;
      }
      assert exercises[..i] == exercises;
      ByOrderIndexIsOrder();
      SortByIsSort(Filter(exercises, OfProgram(pid)), ByOrderIndex());
      MultisetMembers(r, Filter(exercises, OfProgram(pid)));
    }

    /** delete_exercises: every row of program p goes; the others stay, in order. */
    method DeleteExercises(pid: int)
      requires Valid()
      modifies this`exercises
      ensures Valid()
      ensures exercises == Filter(old(exercises), NotOfProgram(pid))
    {
      FilterPairwise(exercises, NotOfProgram(pid), ExerciseIdLt());
      exercises := Filter(exercises, NotOfProgram(pid));
    }

    /** get_user_programs: u's programs, ordered by day_name. */
    method GetUserPrograms(u: int) returns (r: seq<ProgramRow>)
      ensures r == SortBy(Filter(programs, OfUser(u)), ByDayName())
      ensures multiset(r) == multiset(Filter(programs, OfUser(u)))
      ensures forall p :: p in r <==> p in programs && p.userId == u
      ensures Pairwise(r, ByDayName())
    {
      r := [];
      var i := 0;
      while i < |programs|
        invariant 0 <= i <= |programs|
        invariant r == SortBy(Filter(programs[..i], OfUser(u)), ByDayName())
      {
        ScanStep(programs, i, OfUser(u), ByDayName());
        if programs[i].userId == u {
          r := InsertBy(r, programs[i], ByDayName());
        }
        i := i + 1;
      }
      assert programs[..i] == programs;
      ByDayNameIsOrder();
      SortByIsSort(Filter(programs, OfUser(u)), ByDayName());
      MultisetMembers(r, Filter(programs, OfUser(u)));
    }

    /** create_workout_session: close u's active sessions and open a new one at index 0; its id is returned. */
    method CreateWorkoutSession(u: int, pid: int) returns (sid: int)
      requires Valid()
      modifies this`sessions, this`nextSessionId
      ensures Valid()
      ensures sid == old(nextSessionId) && nextSessionId == sid + 1
      ensures sessions == Opened(old(sessions), u, pid, sid)
    {
      sid := nextSessionId;
      OpenedKeepsInvariant(sessions, u, pid, sid);
      sessions := Opened(sessions, u, pid, sid);
      nextSessionId := nextSessionId + 1;
    }

    /** get_active_session: u's active session, if any. */
    function GetActiveSession(u: int): (r: Option<ActiveSession>)
      reads this
      requires Valid()
      ensures r.None? <==> forall s :: s in sessions ==> !(s.userId == u && s.active)
      ensures r.Some? ==> forall s :: s in sessions && s.userId == u && s.active ==> View(s) == r.value
    {
      var r := FirstActive(sessions, u);
      if r.Some? then OneActiveSession(sessions, u, r.value); r else r
    }

    /** update_session_exercise_index: only the row with that id changes, and only its index. */
    method UpdateSessionExerciseIndex(sid: int, idx: int)
      requires Valid()
      modifies this`sessions
      ensures Valid()
      ensures sessions == Map(old(sessions), SetIndex(sid, idx))
    {
      MappedKeepsInvariant(sessions, SetIndex(sid, idx), nextSessionId);
      sessions := Map(sessions, SetIndex(sid, idx));
    }

    /** close_session: only the row with that id becomes inactive. */
    method CloseSession(sid: int)
      requires Valid()
      modifies this`sessions
      ensures Valid()
      ensures sessions == Map(old(sessions), Close(sid))
    {
      MappedKeepsInvariant(sessions, Close(sid), nextSessionId);
      sessions := Map(sessions, Close(sid));
    }
  }

  /** FilterSnoc followed by one more insertion step of the sort. */
  lemma ScanStep<T(!new)>(s: seq<T>, i: nat, keep: T -> bool, le: (T, T) -> bool)
    requires i < |s|
    ensures SortBy(Filter(s[..i + 1], keep), le) == if keep(s[i]) then InsertBy(SortBy(Filter(s[..i], keep), le), s[i], le) else SortBy(Filter(s[..i], keep), le)
  {
    FilterSnoc(s, i, keep);
    if keep(s[i]) {
      SortBySnoc(Filter(s[..i], keep), s[i], le);
    } else {
      assert Filter(s[..i], keep) + [] == Filter(s[..i], keep);
    }
  }

  /** With (user, day) pairs unique, a row found for the pair is the only one. */
  lemma UniqueDay(programs: seq<ProgramRow>, row: ProgramRow)
    requires Pairwise(programs, SameDay())
    requires row in programs
    ensures forall p :: p in programs && IsDay(p, row.userId, row.dayName) ==> p == row
  {
    forall p | p in programs && IsDay(p, row.userId, row.dayName) ensures p == row {
      var i :| 0 <= i < |programs| && programs[i] == p;
      var k :| 0 <= k < |programs| && programs[k] == row;
      PairwiseAt(programs, SameDay(), i, k);
    }
  }

  /** With one active session per user, the one found is the only one. */
  lemma OneActiveSession(sessions: seq<SessionRow>, u: int, a: ActiveSession)
    requires Pairwise(sessions, OneActive())
    requires SessionRow(a.sessionId, u, a.programId, a.exerciseIndex, true) in sessions
    ensures forall s :: s in sessions && IsActiveOf(s, u) ==> View(s) == a
  {
    var row := SessionRow(a.sessionId, u, a.programId, a.exerciseIndex, true);
    forall s | s in sessions && IsActiveOf(s, u) ensures View(s) == a {
      var i :| 0 <= i < |sessions| && sessions[i] == s;
      var k :| 0 <= k < |sessions| && sessions[k] == row;
      PairwiseAt(sessions, OneActive(), i, k);
    }
  }
}
