/**
 * The two textual formats in which a user types one exercise while building a
 * program: the whitespace format of handlers.py ("name reps sets weight [media]")
 * and the older Arabic-comma format of bot.py ("name، sets، weight").
 */
module ExerciseLine {
  import opened Wrappers
  import opened Text
  import opened Numbers
  import opened Seqs

  // ---------------------------------------------------------------------------
  // handlers.py: whitespace-separated tokens, read from the right

  /** One accepted line: the fields handlers.py stores for an exercise. */
  datatype ExerciseSpec = ExerciseSpec(name: string, reps: int, sets: int, weight: Decimal, mediaUrl: Option<string>)

  /** The two replies a rejected line gets: too few tokens, or values that do not read. */
  datatype LineError = TooFewTokens | BadValues

  datatype LineResult = Parsed(spec: ExerciseSpec) | Rejected(error: LineError)

  /** The media heuristic: a token that starts with "http" or ends with ".gif". */
  predicate IsMediaToken(t: string) {
    StartsWith(t, "http") || EndsWith(t, ".gif")
  }

  predicate EndsWithMedia(tokens: seq<string>) {
    |tokens| > 0 && IsMediaToken(tokens[|tokens| - 1])
  }

  /** The tokens that carry name, reps, sets and weight: a trailing media token is taken off. */
  function FieldTokens(tokens: seq<string>): seq<string> {
    if EndsWithMedia(tokens) then tokens[..|tokens| - 1] else tokens
  }

  /** The media reference of a line, if its last token is one. */
  function MediaToken(tokens: seq<string>): Option<string> {
    if EndsWithMedia(tokens) then Some(tokens[|tokens| - 1]) else None
  }

  /**
   * The parse of handlers.py's add_exercise: at least three tokens; a trailing
   * media token stripped; then weight, sets and reps are the last three tokens,
   * read right to left, and the name is what precedes them, joined by single spaces.
   */
  function ParseLine(text: string): (r: LineResult)
    ensures r == Rejected(TooFewTokens) <==> |Split(text)| < 3
    ensures |Split(text)| >= 3 && |FieldTokens(Split(text))| < 4 ==> r == Rejected(BadValues)
    ensures r.Parsed? ==> r.spec.name != [] && Join(Split(r.spec.name)) == r.spec.name
    ensures r.Parsed? ==> r.spec.mediaUrl == MediaToken(Split(text))
    ensures r.Parsed? ==>
      var f := FieldTokens(Split(text));
      && |f| >= 4
      && Split(r.spec.name) == f[..|f| - 3]
      && ParseInt(f[|f| - 3]) == Some(r.spec.reps)
      && ParseInt(f[|f| - 2]) == Some(r.spec.sets)
      && ParseFloat(f[|f| - 1]) == Some(r.spec.weight)
    ensures var f := FieldTokens(Split(text));
      |Split(text)| >= 3 && |f| >= 4 && ParseInt(f[|f| - 3]).Some? && ParseInt(f[|f| - 2]).Some? && ParseFloat(f[|f| - 1]).Some?
      ==> r.Parsed?
  {
    var tokens := Split(text);
    if |tokens| < 3 then Rejected(TooFewTokens)
    else
      var f := FieldTokens(tokens);
      var weight, sets, reps := ParseFloat(f[|f| - 1]), ParseInt(f[|f| - 2]), if |f| >= 3 then ParseInt(f[|f| - 3]) else None;
      if |f| < 4 || weight.None? || sets.None? || reps.None? then Rejected(BadValues)
      else
        var nameTokens := f[..|f| - 3];
        SplitJoin(nameTokens);
        Parsed(ExerciseSpec(Join(nameTokens), reps.value, sets.value, weight.value, MediaToken(tokens)))
  }

  /** The tokens of the line a user would type for `spec`. */
  function LineTokens(spec: ExerciseSpec): seq<string> {
    Split(spec.name) + [IntToString(spec.reps), IntToString(spec.sets), DecimalToString(spec.weight)]
    + (match spec.mediaUrl case Some(u) => [u] case None => [])
  }

  /** The line a user would type for `spec`: its tokens, one space apart. */
  function FormatLine(spec: ExerciseSpec): string {
    Join(LineTokens(spec))
  }

  /** A spec that a line can express: a whitespace-normal non-empty name, and a media token if any. */
  predicate Expressible(spec: ExerciseSpec) {
    && spec.name != []
    && Join(Split(spec.name)) == spec.name
    && (spec.mediaUrl.Some? ==> var u := spec.mediaUrl.value; u != [] && NoSpace(u) && IsMediaToken(u))
  }

  lemma NumberTokenIsToken(s: string)
    requires |s| > 0 && NumberChars(s)
    ensures NoSpace(s) && Split(s) == [s] && !IsMediaToken(s)
  {
    NumberHasNoSpace(s);
    SplitToken(s);
    NumberIsNotMedia(s);
  }

  lemma NumberHasNoSpace(s: string)
    requires NumberChars(s)
    ensures NoSpace(s)
  {
    forall i | 0 <= i < |s| ensures !IsSpace(s[i]) {
      assert IsDigit(s[i]) || s[i] == '-' || s[i] == '.';
    }
  }

  lemma NumberIsNotMedia(s: string)
    requires |s| > 0 && NumberChars(s)
    ensures !IsMediaToken(s)
  {
    if |s| >= 4 {
      assert s[..4][0] == s[0];
      assert s[|s| - 4..][3] == s[|s| - 1];
    }
  }

  /** Joining non-empty tokens gives a non-empty text. */
  lemma JoinNonEmpty(tokens: seq<string>)
    requires AreTokens(tokens) && tokens != []
    ensures Join(tokens) != []
  {
    SplitJoin(tokens);
  }

  lemma LineTokensAreTokens(spec: ExerciseSpec)
    requires Expressible(spec)
    ensures AreTokens(LineTokens(spec))
  {
    var rs, ss, ws := IntToString(spec.reps), IntToString(spec.sets), DecimalToString(spec.weight);
    IntToStringChars(spec.reps);
    IntToStringChars(spec.sets);
    DecimalRoundTrip(spec.weight);
    NumberTokenIsToken(rs);
    NumberTokenIsToken(ss);
    NumberTokenIsToken(ws);
    var words, t := Split(spec.name), LineTokens(spec);
    var n := |words|;
    forall k | 0 <= k < |t| ensures t[k] != [] && NoSpace(t[k]) {
      if k < n {
        assert t[k] == words[k];
      } else if k == n {
        assert t[k] == rs;
      } else if k == n + 1 {
        assert t[k] == ss;
      } else if k == n + 2 {
        assert t[k] == ws;
      } else {
        assert t[k] == spec.mediaUrl.value;
      }
    }
  }

  /** The tokens of a written line are the ones it was written from. */
  lemma FormatLineTokens(spec: ExerciseSpec)
    requires Expressible(spec)
    ensures Split(FormatLine(spec)) == LineTokens(spec)
  {
    LineTokensAreTokens(spec);
    SplitJoin(LineTokens(spec));
  }

  /** Every value the parser accepts is written back by FormatLine into a line it parses to that value. */
  lemma LineRoundTrip(spec: ExerciseSpec)
    requires Expressible(spec)
    ensures ParseLine(FormatLine(spec)) == Parsed(spec)
  {
    FormatLineTokens(spec);
    FieldsOfLine(spec);
    LineFromTokens(FormatLine(spec), spec);
  }

  /** The field tokens of a spec's line: its name's words and three written numbers, the media token taken off. */
  lemma FieldsOfLine(spec: ExerciseSpec)
    requires Expressible(spec)
    ensures var t := LineTokens(spec);
      && FieldTokens(t) == Split(spec.name) + [IntToString(spec.reps), IntToString(spec.sets), DecimalToString(spec.weight)]
      && MediaToken(t) == spec.mediaUrl
  {
    var rs, ss, ws := IntToString(spec.reps), IntToString(spec.sets), DecimalToString(spec.weight);
    DecimalRoundTrip(spec.weight);
    NumberIsNotMedia(ws);
    var f := Split(spec.name) + [rs, ss, ws];
    if spec.mediaUrl.Some? {
      assert LineTokens(spec) == f + [spec.mediaUrl.value];
      assert (f + [spec.mediaUrl.value])[..|f|] == f;
    } else {
      assert LineTokens(spec) == f + [];
    }
  }

  /** A line whose tokens are those of a spec reads as that spec. */
  lemma LineFromTokens(text: string, spec: ExerciseSpec)
    requires Expressible(spec)
    requires Split(text) == LineTokens(spec)
    requires FieldTokens(LineTokens(spec)) == Split(spec.name) + [IntToString(spec.reps), IntToString(spec.sets), DecimalToString(spec.weight)]
    requires MediaToken(LineTokens(spec)) == spec.mediaUrl
    ensures ParseLine(text) == Parsed(spec)
  {
    var words := Split(spec.name);
    var rs, ss, ws := IntToString(spec.reps), IntToString(spec.sets), DecimalToString(spec.weight);
    IntRoundTrip(spec.reps);
    IntRoundTrip(spec.sets);
    DecimalRoundTrip(spec.weight);
    var f := words + [rs, ss, ws];
    assert f[..|f| - 3] == words;
    assert f[|f| - 3] == rs && f[|f| - 2] == ss && f[|f| - 1] == ws;
  }

  /** Whatever line was accepted, its canonical rewriting is accepted with the same fields. */
  lemma ParseLineCanonical(text: string)
    requires ParseLine(text).Parsed?
    ensures ParseLine(FormatLine(ParseLine(text).spec)) == ParseLine(text)
  {
    var spec := ParseLine(text).spec;
    var f := FieldTokens(Split(text));
    match spec.mediaUrl {
      case None =>
      case Some(u) =>
        var tokens := Split(text);
        assert u == tokens[|tokens| - 1];
    }
    LineRoundTrip(spec);
  }

  // ---------------------------------------------------------------------------
  // bot.py: parts separated by the Arabic comma

  const ArabicComma: char := '\U{060C}'

  /** One accepted line of bot.py: name, sets and an optional weight. */
  datatype CommaSpec = CommaSpec(name: string, sets: int, weight: Decimal)

  datatype CommaError = TooFewParts | NotNumeric

  datatype CommaResult = CommaParsed(spec: CommaSpec) | CommaRejected(error: CommaError)

  /** `[p.strip() for p in text.split('،')]` */
  function CommaParts(text: string): seq<string> {
    StripAll(SplitOn(text, ArabicComma))
  }

  function StripAll(parts: seq<string>): (r: seq<string>)
    ensures |r| == |parts|
  {
    if parts == [] then [] else [Strip(parts[0])] + StripAll(parts[1..])
  }

  lemma {:induction false} StripAllAppend(a: seq<string>, b: seq<string>)
    ensures StripAll(a + b) == StripAll(a) + StripAll(b)
  {
    if a != [] {
      assert (a + b)[0] == a[0];
      assert (a + b)[1..] == a[1..] + b;
      StripAllAppend(a[1..], b);
    } else {
      assert a + b == b;
    }
  }

  lemma StripAllSingle(p: string)
    ensures StripAll([p]) == [Strip(p)]
  {
    assert [p][1..] == [];
  }

  /**
   * The parse of bot.py's add_exercise: at least two parts; `sets = int(parts[1])`;
   * `weight = float(parts[2])` when a third part exists and 0 otherwise; further parts ignored.
   */
  function ParseCommaLine(text: string): (r: CommaResult)
    ensures r == CommaRejected(TooFewParts) <==> ArabicComma !in text
    ensures r.CommaParsed? ==> Strip(r.spec.name) == r.spec.name && ArabicComma !in r.spec.name
    ensures r.CommaParsed? && |CommaParts(text)| == 2 ==> r.spec.weight == Zero
    ensures |CommaParts(text)| >= 2 ==>
      var parts := CommaParts(text);
      var weight := if |parts| > 2 then ParseFloat(parts[2]) else Some(Zero);
      && (r.CommaParsed? <==> ParseInt(parts[1]).Some? && weight.Some?)
      && (r.CommaParsed? ==> r.spec == CommaSpec(parts[0], ParseInt(parts[1]).value, weight.value))
      && (!r.CommaParsed? ==> r == CommaRejected(NotNumeric))
  {
    SplitOnSingle(text, ArabicComma);
    var parts := CommaParts(text);
    if |parts| < 2 then CommaRejected(TooFewParts)
    else
      var sets := ParseInt(parts[1]);
      var weight := if |parts| > 2 then ParseFloat(parts[2]) else Some(Zero);
      if sets.None? || weight.None? then CommaRejected(NotNumeric)
      else
        StripIdempotent(SplitOn(text, ArabicComma)[0]);
        StripKeepsOut(SplitOn(text, ArabicComma)[0], ArabicComma);
        CommaParsed(CommaSpec(parts[0], sets.value, weight.value))
  }

  /** There is more than one part exactly when the separator occurs. */
  lemma {:induction false} SplitOnSingle(s: string, sep: char)
    ensures |SplitOn(s, sep)| == 1 <==> sep !in s
  {
    if s != [] {
      SplitOnSingle(s[1..], sep);
      assert s == [s[0]] + s[1..];
    }
  }

  lemma StripIdempotent(s: string)
    ensures Strip(Strip(s)) == Strip(s)
  {
    var t := Strip(s);
    StripAround([], t, []);
    assert [] + t + [] == t;
  }

  lemma StripKeepsOut(s: string, c: char)
    requires c !in s
    ensures c !in Strip(s)
  {
    var l := TrimLeft(s);
    TrimLeftSuffix(s);
    assert forall x :: x in l ==> x in s;
    var r := TrimRight(l);
    assert forall x :: x in r ==> x in l;
  }

  /** The line a user would type for `spec` in bot.py's format. */
  function FormatCommaLine(spec: CommaSpec): string {
    spec.name + [ArabicComma] + " " + IntToString(spec.sets) + [ArabicComma] + " " + DecimalToString(spec.weight)
  }

  /** A number written after the ", " that follows a comma reads back as that number. */
  lemma NumberPartStrips(s: string)
    requires |s| > 0 && NumberChars(s)
    ensures Strip(" " + s) == s && ArabicComma !in " " + s
  {
    NumberHasNoSpace(s);
    assert !IsSpace(s[0]) && !IsSpace(s[|s| - 1]);
    assert AllSpace(" ");
    assert AllSpace([]);
    StripAround(" ", s, []);
    assert " " + s + [] == " " + s;
    NumberHasNoComma(s);
  }

  lemma NumberHasNoComma(s: string)
    requires NumberChars(s)
    ensures ArabicComma !in " " + s
  {
    var t := " " + s;
    forall i | 0 <= i < |t| ensures t[i] != ArabicComma {
      if i > 0 { assert t[i] == s[i - 1]; }
    }
  }

  // The lemmas below keep `SplitOn` and `CommaParts` apart: the first group speaks
  // of the raw parts only, the second unfolds `CommaParts` once and uses the first.

  lemma RawPartsAppend(text: string, extra: string)
    requires ArabicComma !in extra
    ensures StripAll(SplitOn(text + [ArabicComma] + extra, ArabicComma)) == StripAll(SplitOn(text, ArabicComma)) + [Strip(extra)]
  {
    var p := SplitOn(text, ArabicComma);
    SplitOnAroundSep(text, ArabicComma, extra);
    SplitOnNoSep(extra, ArabicComma);
    assert SplitOn(text + [ArabicComma] + extra, ArabicComma) == p + [extra];
    StripAllAppend(p, [extra]);
    StripAllSingle(extra);
  }

  lemma RawPartsSingle(text: string)
    requires ArabicComma !in text
    ensures StripAll(SplitOn(text, ArabicComma)) == [Strip(text)]
  {
    SplitOnNoSep(text, ArabicComma);
    StripAllSingle(text);
  }

  lemma RawPartsExtend(text: string, extra: string)
    ensures var a, b := StripAll(SplitOn(text + [ArabicComma] + extra, ArabicComma)), StripAll(SplitOn(text, ArabicComma));
      |a| > |b| && a[..|b|] == b
  {
    SplitOnAroundSep(text, ArabicComma, extra);
    StripAllAppend(SplitOn(text, ArabicComma), SplitOn(extra, ArabicComma));
  }

  /** One more comma-free part at the end is one more stripped part. */
  lemma CommaPartsAppend(text: string, extra: string)
    requires ArabicComma !in extra
    ensures CommaParts(text + [ArabicComma] + extra) == CommaParts(text) + [Strip(extra)]
  {
    RawPartsAppend(text, extra);
  }

  /** The parts of a name and one written number after it. */
  lemma NameNumberParts(name: string, ns: string)
    requires Strip(name) == name && ArabicComma !in name
    requires |ns| > 0 && NumberChars(ns)
    ensures CommaParts(name + [ArabicComma] + " " + ns) == [name, ns]
  {
    var tail := " " + ns;
    NumberPartStrips(ns);
    RawPartsSingle(name);
    assert CommaParts(name) == [name];
    CommaPartsAppend(name, tail);
    assert CommaParts(name + [ArabicComma] + tail) == [name] + [ns];
    Regroup(name, [ArabicComma], " ", ns);
    Pair(name, ns);
  }

  /** The exercises the comma format can express: a trimmed name without a comma. */
  predicate CommaExpressible(spec: CommaSpec) {
    Strip(spec.name) == spec.name && ArabicComma !in spec.name
  }

  /** A formatted line has nothing for `strip()` to remove, and it holds a comma. */
  lemma FormattedCommaStripped(spec: CommaSpec)
    requires CommaExpressible(spec)
    ensures Strip(FormatCommaLine(spec)) == FormatCommaLine(spec)
    ensures ArabicComma in FormatCommaLine(spec)
  {
    var t, ws := FormatCommaLine(spec), DecimalToString(spec.weight);
    DecimalRoundTrip(spec.weight);
    NumberHasNoSpace(ws);
    assert t[|t| - 1] == ws[|ws| - 1];
    assert t[|spec.name|] == ArabicComma;
    if spec.name != [] {
      assert t[0] == spec.name[0];
    }
    assert AllSpace([]);
    StripAround([], t, []);
    assert [] + t + [] == t;
  }

  /** The comma format reads back what it writes when the name is trimmed and comma-free. */
  lemma CommaRoundTrip(spec: CommaSpec)
    requires CommaExpressible(spec)
    ensures ParseCommaLine(FormatCommaLine(spec)) == CommaParsed(spec)
  {
    FormatCommaParts(spec);
    CommaFromParts(FormatCommaLine(spec), spec);
  }

  /**
   * How the parser reads a line once its stripped parts are known. It only
   * unfolds ParseCommaLine; it is a step kept for the solver, which otherwise
   * runs long in CommaWeightOptional and CommaExtraPartsIgnored.
   */
  lemma ParseCommaParts(text: string)
    requires |CommaParts(text)| >= 2
    ensures var parts := CommaParts(text);
      var weight := if |parts| > 2 then ParseFloat(parts[2]) else Some(Zero);
      ParseInt(parts[1]).Some? && weight.Some? ==>
        ParseCommaLine(text) == CommaParsed(CommaSpec(parts[0], ParseInt(parts[1]).value, weight.value))
  {
  }

  /** A line whose parts are a name and two written numbers reads as those values. */
  lemma CommaFromParts(text: string, spec: CommaSpec)
    requires CommaParts(text) == [spec.name, IntToString(spec.sets), DecimalToString(spec.weight)]
    ensures ParseCommaLine(text) == CommaParsed(spec)
  {
    IntRoundTrip(spec.sets);
    DecimalRoundTrip(spec.weight);
  }

  /** The parts of a formatted line are the name and the two written numbers. */
  lemma FormatCommaParts(spec: CommaSpec)
    requires Strip(spec.name) == spec.name && ArabicComma !in spec.name
    ensures CommaParts(FormatCommaLine(spec)) == [spec.name, IntToString(spec.sets), DecimalToString(spec.weight)]
  {
    var ss, ws := IntToString(spec.sets), DecimalToString(spec.weight);
    IntToStringChars(spec.sets);
    DecimalRoundTrip(spec.weight);
    var prefix := spec.name + [ArabicComma] + " " + ss;
    NameNumberParts(spec.name, ss);
    NumberPartStrips(ws);
    CommaPartsAppend(prefix, " " + ws);
    Regroup(prefix, [ArabicComma], " ", ws);
    Triple(spec.name, ss, ws);
  }

  /** The weight may be left out, and then it is 0. */
  lemma CommaWeightOptional(name: string, sets: int)
    requires Strip(name) == name && ArabicComma !in name
    ensures ParseCommaLine(name + [ArabicComma] + " " + IntToString(sets)) == CommaParsed(CommaSpec(name, sets, Zero))
  {
    var text := name + [ArabicComma] + " " + IntToString(sets);
    IntToStringChars(sets);
    IntRoundTrip(sets);
    NameNumberParts(name, IntToString(sets));
    ParseCommaParts(text);
  }

  /** Extending a line with one more comma part keeps its first parts. */
  lemma CommaPartsExtend(text: string, extra: string)
    ensures var a, b := CommaParts(text + [ArabicComma] + extra), CommaParts(text);
      |a| > |b| && a[..|b|] == b
  {
    RawPartsExtend(text, extra);
  }

  /** Parts after the third are never looked at. */
  lemma CommaExtraPartsIgnored(text: string, extra: string)
    requires |SplitOn(text, ArabicComma)| >= 3
    ensures ParseCommaLine(text + [ArabicComma] + extra) == ParseCommaLine(text)
  {
    var a, b := CommaParts(text + [ArabicComma] + extra), CommaParts(text);
    CommaPartsExtend(text, extra);
    assert a[0] == b[0] && a[1] == b[1] && a[2] == b[2];
    ParseCommaParts(text + [ArabicComma] + extra);
    ParseCommaParts(text);
  }
}
