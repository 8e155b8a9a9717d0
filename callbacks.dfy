/**
 * The callback data of the inline buttons, read back into the ids and
 * settings they carry: `set_rest_<seconds>`, `ex_edit_<id>` and its siblings,
 * `start_<program id>` and `program_<action>_<program id>`.
 */
module Callbacks {
  import opened Wrappers
  import opened Text
  import opened Numbers

  /** `data.split(sep)[-1]` */
  function LastField(data: string, sep: char): (r: string)
    ensures sep !in r
    ensures EndsWith(data, r) && (r == data || data[|data| - |r| - 1] == sep)
  {
    var parts := SplitOn(data, sep);
    JoinSplitOn(data, sep);
    JoinWithLast(parts, sep);
    parts[|parts| - 1]
  }

  /** `int(data.split('_')[-1])`; None where Python raises ValueError. */
  function TrailingId(data: string): Option<int> {
    ParseInt(LastField(data, '_'))
  }

  /** set_rest_callback: the seconds after the last underscore, or 60 when they do not read as an integer. */
  function RestSeconds(data: string): int {
    match TrailingId(data)
    case Some(n) => n
    case None => 60
  }

  lemma NoUnderscoreInInt(n: int)
    ensures '_' !in IntToString(n) && 's' !in IntToString(n)
  {
    IntToStringChars(n);
    var s := IntToString(n);
    forall i | 0 <= i < |s| ensures s[i] != '_' && s[i] != 's' {
      assert IsDigit(s[i]) || s[i] == '-' || s[i] == '.';
    }
  }

  /** A button `<anything>_<n>` gives back `n`, whatever its prefix holds. */
  lemma TrailingIdOfButton(prefix: string, n: int)
    ensures TrailingId(prefix + "_" + IntToString(n)) == Some(n)
  {
    var t := IntToString(n);
    NoUnderscoreInInt(n);
    assert prefix + "_" + t == prefix + ['_'] + t;
    SplitOnAroundSep(prefix, '_', t);
    SplitOnNoSep(t, '_');
    IntRoundTrip(n);
  }

  /** The rest buttons set the seconds they show. */
  lemma RestSecondsOfButton(n: int)
    ensures RestSeconds("set_rest_" + IntToString(n)) == n
  {
    assert "set_rest_" + IntToString(n) == "set_rest" + "_" + IntToString(n);
    TrailingIdOfButton("set_rest", n);
  }

  /** A last field that does not read as an integer (an empty one included) falls back to 60 seconds. */
  lemma RestSecondsFallback(prefix: string, field: string)
    requires '_' !in field && ParseInt(field).None?
    ensures RestSeconds(prefix + "_" + field) == 60
  {
    assert prefix + "_" + field == prefix + ['_'] + field;
    SplitOnAroundSep(prefix, '_', field);
    SplitOnNoSep(field, '_');
  }

  const StartPrefix: string := "start_"

  /** workout_selected: `int(data.replace('start_', ''))`; None where Python raises. */
  function StartProgramId(data: string): Option<int> {
    ParseInt(RemoveAll(data, StartPrefix))
  }

  /** The start buttons `start_<id>` give back their program id. */
  lemma StartProgramIdOfButton(id: int)
    ensures StartProgramId(StartPrefix + IntToString(id)) == Some(id)
  {
    NoUnderscoreInInt(id);
    RemoveAllPrefix(StartPrefix, IntToString(id));
    IntRoundTrip(id);
  }

  // ---------------------------------------------------------------------------
  // `data.split('_', 2)`

  /** The text before the first separator and the text after it. */
  function SplitOnce(s: string, sep: char): (r: Option<(string, string)>)
    ensures r.None? <==> sep !in s
    ensures r.Some? ==> sep !in r.value.0 && s == r.value.0 + [sep] + r.value.1
  {
    if s == [] then None
    else if s[0] == sep then Some(([], s[1..]))
    else match SplitOnce(s[1..], sep)
      case None => None
      case Some(p) => Some(([s[0]] + p.0, p.1))
  }

  /** The first separator of `a + [sep] + b` is the one after `a` when `a` holds none. */
  lemma {:induction false} SplitOnceAround(a: string, sep: char, b: string)
    requires sep !in a
    ensures SplitOnce(a + [sep] + b, sep) == Some((a, b))
  {
    var s := a + [sep] + b;
    if a == [] {
      assert s[1..] == b;
    } else {
      assert s[0] == a[0] && s[1..] == a[1..] + [sep] + b;
      assert forall c :: c in a[1..] ==> c in a;
      SplitOnceAround(a[1..], sep, b);
      assert a == [a[0]] + a[1..];
    }
  }

  /** Python's `s.split(sep, 2)`: at most two cuts, the rest kept whole in the last part. */
  function SplitMax2(s: string, sep: char): (r: seq<string>)
    ensures 1 <= |r| <= 3
    ensures |r| == 1 <==> sep !in s
    ensures |r| == 1 ==> r == [s]
    ensures |r| >= 2 ==> sep !in r[0] && s == r[0] + [sep] + JoinWith(r[1..], sep)
    ensures |r| == 2 ==> sep !in r[1]
    ensures |r| == 3 ==> sep !in r[1]
  {
    match SplitOnce(s, sep)
    case None => [s]
    case Some(p) =>
      match SplitOnce(p.1, sep)
      case None => [p.0, p.1]
      case Some(q) =>
        assert [p.0, q.0, q.1][1..] == [q.0, q.1];
        [p.0, q.0, q.1]
  }

  /** program_action: the action and the program id, when the data has three parts and the id reads. */
  datatype ProgramCommand = ProgramCommand(action: string, pid: int)

  /**
   * None where program_action answers "invalid operation" (fewer than three
   * parts); Some(None) where `int(parts[2])` raises; otherwise the command.
   */
  function ParseProgramCommand(data: string): (r: Option<Option<ProgramCommand>>)
    ensures r.None? <==> |SplitMax2(data, '_')| < 3
    ensures r.Some? ==> (r.value.None? <==> ParseInt(SplitMax2(data, '_')[2]).None?)
    ensures r.Some? && r.value.Some? ==>
      r.value.value == ProgramCommand(SplitMax2(data, '_')[1], ParseInt(SplitMax2(data, '_')[2]).value)
  {
    var parts := SplitMax2(data, '_');
    if |parts| < 3 then None
    else match ParseInt(parts[2])
      case None => Some(None)
      case Some(pid) => Some(Some(ProgramCommand(parts[1], pid)))
  }

  /** The program buttons `program_<action>_<id>` give back their action and id. */
  lemma ProgramButtonRoundTrip(action: string, pid: int)
    requires '_' !in action
    ensures ParseProgramCommand("program_" + action + "_" + IntToString(pid)) == Some(Some(ProgramCommand(action, pid)))
  {
    var t := IntToString(pid);
    var s := "program_" + action + "_" + t;
    assert s == "program" + ['_'] + (action + ['_'] + t);
    assert '_' !in "program";
    SplitOnceAround("program", '_', action + ['_'] + t);
    SplitOnceAround(action, '_', t);
    IntRoundTrip(pid);
  }
}
