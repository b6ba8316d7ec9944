/** The schedule configuration of the flux mode (`struct cf_config`): its
    defaults, the line-by-line reading of the configuration file, the folding
    of hours and minutes into `hhmm` times, and the validation `errorHandle`
    performs before the schedule starts. */
module Config {
  import opened Wrappers
  import opened Constants
  import opened CString

  /** The ten fields of `cf_config`. Before folding, `morningTime` and
      `nightTime` hold hours; after folding they hold `hour * 100 + minute`. */
  datatype CfConfig = CfConfig(
    userMin: int,
    userMax: int,
    userBright: real,
    morningTime: int,
    morningMinutes: int,
    nightTime: int,
    nightMinutes: int,
    timeSleep: int,
    stepSleep: int,
    stepDist: int)

  /** `getDefault`: the built-in schedule, with hours not yet folded. Once
      folded it passes every check of `errorHandle`, with the night
      temperature below the day temperature. */
  function Default(): (d: CfConfig)
    ensures Acceptable(Fold(d))
    ensures d.userMin < d.userMax
  {
    CfConfig(DefaultUserMin, DefaultUserMax, DefaultUserBright,
           DefaultMorningHour, DefaultMorningMinutes,
           DefaultNightHour, DefaultNightMinutes,
           DefaultTimeSleep, DefaultStepSleep, DefaultStepDist)
  }

  // ---------------------------------------------------------------------------
  // Keys and fields
  // ---------------------------------------------------------------------------

  datatype Key =
    | UserMin | UserMax | UserBright
    | MorningTime | MorningMinutes | NightTime | NightMinutes
    | TimeSleep | StepSleep | StepDist

  /** The spelling of each key in the configuration file. */
  function KeyName(k: Key): string {
    match k
    case UserMin => "USER_MIN"
    case UserMax => "USER_MAX"
    case UserBright => "USER_BRIGHT"
    case MorningTime => "MORNING_TIME"
    case MorningMinutes => "MORNING_TIME_MINUTES"
    case NightTime => "NIGHT_TIME"
    case NightMinutes => "NIGHT_TIME_MINUTES"
    case TimeSleep => "TIME_SLEEP"
    case StepSleep => "STEP_SLEEP"
    case StepDist => "STEP_DIST"
  }

  /** The chain of `strcmp` tests: which key, if any, a name spells. */
  function KeyOf(name: string): (k: Option<Key>)
    ensures k.Some? ==> KeyName(k.value) == name
    ensures k.None? ==> forall key :: KeyName(key) != name
  {
    if name == "USER_MIN" then Some(UserMin)
    else if name == "USER_MAX" then Some(UserMax)
    else if name == "USER_BRIGHT" then Some(UserBright)
    else if name == "MORNING_TIME" then Some(MorningTime)
    else if name == "MORNING_TIME_MINUTES" then Some(MorningMinutes)
    else if name == "NIGHT_TIME" then Some(NightTime)
    else if name == "NIGHT_TIME_MINUTES" then Some(NightMinutes)
    else if name == "TIME_SLEEP" then Some(TimeSleep)
    else if name == "STEP_SLEEP" then Some(StepSleep)
    else if name == "STEP_DIST" then Some(StepDist)
    else None
  }

  /** A field value: every field is an `int` except the brightness. */
  datatype Value = IntValue(i: int) | RealValue(r: real)

  function Field(c: CfConfig, k: Key): Value {
    match k
    case UserMin => IntValue(c.userMin)
    case UserMax => IntValue(c.userMax)
    case UserBright => RealValue(c.userBright)
    case MorningTime => IntValue(c.morningTime)
    case MorningMinutes => IntValue(c.morningMinutes)
    case NightTime => IntValue(c.nightTime)
    case NightMinutes => IntValue(c.nightMinutes)
    case TimeSleep => IntValue(c.timeSleep)
    case StepSleep => IntValue(c.stepSleep)
    case StepDist => IntValue(c.stepDist)
  }

  /** How the value text of a key is read: `atof` for the brightness, `atoi`
      for every other field. `atof` is a parameter standing for the C library. */
  function ParseValue(k: Key, text: string, atof: string -> real): Value {
    if k == UserBright then RealValue(atof(text)) else IntValue(Atoi(text))
  }

  /** Store the parsed value text in the field named by `k`. */
  function SetField(c: CfConfig, k: Key, text: string, atof: string -> real): (r: CfConfig)
    ensures Field(r, k) == ParseValue(k, text, atof)
    ensures forall other :: other != k ==> Field(r, other) == Field(c, other)
  {
    match k
    case UserMin => c.(userMin := Atoi(text))
    case UserMax => c.(userMax := Atoi(text))
    case UserBright => c.(userBright := atof(text))
    case MorningTime => c.(morningTime := Atoi(text))
    case MorningMinutes => c.(morningMinutes := Atoi(text))
    case NightTime => c.(nightTime := Atoi(text))
    case NightMinutes => c.(nightMinutes := Atoi(text))
    case TimeSleep => c.(timeSleep := Atoi(text))
    case StepSleep => c.(stepSleep := Atoi(text))
    case StepDist => c.(stepDist := Atoi(text))
  }

  /** `d` agrees with `c` on every field except possibly `k`. */
  ghost predicate OnlyChanged(c: CfConfig, d: CfConfig, k: Key) {
    forall other :: other != k ==> Field(d, other) == Field(c, other)
  }

  // ---------------------------------------------------------------------------
  // One line of the configuration file
  // ---------------------------------------------------------------------------

  /** `trim` was handed the NULL pointer that `strtok` returned. */
  datatype LoadError = NullToken

  const Delimiter: char := '='

  /** A line that is empty after trimming, or a `#` comment. */
  predicate Skipped(line: string) {
    var t := Trim(line);
    |t| == 0 || t[0] == '#'
  }

  /** A line that is neither skipped nor holds a key and a value field. */
  ghost predicate Crashes(line: string) {
    !Skipped(line) && !HasTwoFields(Trim(line), Delimiter)
  }

  /** One pass of the `fgets` loop of `loadConfig`. Both `strtok` results are
      trimmed before they are tested for NULL, so a line with fewer than two
      fields stops the load with `NullToken`. */
  function ApplyLine(c: CfConfig, line: string, atof: string -> real): (r: Result<CfConfig, LoadError>)
    ensures Skipped(line) ==> r == Success(c)
    ensures r.Failure? <==> Crashes(line)
    ensures r.Success? ==> exists k :: OnlyChanged(c, r.value, k)
  {
    var t := Trim(line);
    if |t| == 0 || t[0] == '#' then
      assert OnlyChanged(c, c, UserMin);
      Success(c)
    else
      TwoTokensIffTwoFields(t, Delimiter);
      match StrTok(t, Delimiter, 0)
      case None => Failure(NullToken)
      case Some(first) =>
        var param := Trim(first.text);
        match StrTok(t, Delimiter, first.next)
        case None => Failure(NullToken)
        case Some(second) =>
          var value := Trim(second.text);
          match KeyOf(Trim(param))
          case None =>
            assert OnlyChanged(c, c, UserMin);
            Success(c)
          case Some(k) =>
            assert OnlyChanged(c, SetField(c, k, value, atof), k);
            Success(SetField(c, k, value, atof))
  }

  /** Trimming a `name=value` line keeps the name from its first non-blank
      character and the value up to its last one. */
  lemma TrimAssignmentLine(name: string, value: string) returns (i: nat, j: nat)
    requires Trim(name) != [] && Trim(value) != []
    ensures i < |name| && 0 < j <= |value|
    ensures Trim(name[i..]) == Trim(name) && name[i] == Trim(name)[0] && !IsBlank(name[i])
    ensures Trim(value[..j]) == Trim(value) && !IsBlank(value[j - 1])
    ensures Trim(name + [Delimiter] + value) == name[i..] + [Delimiter] + value[..j]
  {
    i := LeadingBlanks(name);
    j := TrailingBlanks(value);
    var s := name + [Delimiter] + value;
    var e := |name| + 1 + j;
    var mid := name[i..] + [Delimiter] + value[..j];
    assert forall m :: 0 <= m < i ==> s[m] == name[..i][m];
    assert forall m :: e <= m < |s| ==> s[m] == value[j..][m - e];
    forall m | 0 <= m < |mid| ensures s[i + m] == mid[m] {
      if i + m < |name| {
        assert mid[m] == name[i..][m];
      } else if i + m > |name| {
        assert mid[m] == value[..j][i + m - |name| - 1];
      }
    }
    assert s[i..e] == mid;
    assert s[i] == name[i] && s[e - 1] == value[j - 1];
    assert TrimAt(s, mid, i, e);
    TrimOfUnique(s, mid, Trim(s));
  }

  /** The effect of a `name=value` line: the named field takes the trimmed
      value, and an unknown name changes nothing. Blanks around the name and
      the value are allowed. */
  lemma ApplyLineAssignment(c: CfConfig, name: string, value: string, atof: string -> real)
    requires Delimiter !in name && Delimiter !in value
    requires Trim(name) != [] && Trim(name)[0] != '#'
    requires Trim(value) != []
    ensures ApplyLine(c, name + [Delimiter] + value, atof)
            == Success(match KeyOf(Trim(name))
                       case None => c
                       case Some(k) => SetField(c, k, Trim(value), atof))
  {
    var i, j := TrimAssignmentLine(name, value);
    var a := name[i..];
    var b := value[..j];
    assert forall m :: 0 <= m < |a| ==> a[m] == name[i + m];
    assert Delimiter !in a;
    assert forall m :: 0 <= m < |b| ==> b[m] == value[m];
    assert Delimiter !in b;
    StrTokPair(a, Delimiter, b);
    TrimIdempotent(name);
  }

  /** A line that is not skipped and has no `=` stops the load. */
  lemma LineWithoutDelimiterCrashes(line: string)
    requires !Skipped(line) && Delimiter !in line
    ensures Crashes(line)
  {
    var t := Trim(line);
    var i, j :| TrimAt(line, t, i, j);
    assert forall m :: 0 <= m < |t| ==> t[m] == line[i + m];
  }

  /** A line ending in its only `=` stops the load. */
  lemma LineEndingInDelimiterCrashes(line: string)
    requires NoEdgeBlanks(line) && |line| > 0 && line[0] != '#'
    requires line[|line| - 1] == Delimiter && Delimiter !in line[..|line| - 1]
    ensures Crashes(line)
  {
    TrimOfSelf(line);
    TrimOfUnique(line, line, Trim(line));
    assert forall m :: 0 <= m < |line| - 1 ==> line[m] == line[..|line| - 1][m];
  }

  /** A line starting with its only `=` stops the load. */
  lemma LineStartingWithDelimiterCrashes(line: string)
    requires NoEdgeBlanks(line) && |line| > 0
    requires line[0] == Delimiter && Delimiter !in line[1..]
    ensures Crashes(line)
  {
    TrimOfSelf(line);
    TrimOfUnique(line, line, Trim(line));
    assert forall m :: 1 <= m < |line| ==> line[m] == line[1..][m - 1];
  }

  /** A bare key stops the load. */
  lemma BareKeyCrashes(c: CfConfig, atof: string -> real)
    ensures ApplyLine(c, "USER_MIN", atof) == Failure(NullToken)
  {
    TrimOfSelf("USER_MIN");
    TrimOfUnique("USER_MIN", "USER_MIN", Trim("USER_MIN"));
    LineWithoutDelimiterCrashes("USER_MIN");
  }

  /** A key with an empty value stops the load. */
  lemma EmptyValueCrashes(c: CfConfig, atof: string -> real)
    ensures ApplyLine(c, "USER_MIN=", atof) == Failure(NullToken)
  {
    assert "USER_MIN="[..8] == "USER_MIN";
    LineEndingInDelimiterCrashes("USER_MIN=");
  }

  /** A value without a key stops the load. */
  lemma MissingKeyCrashes(c: CfConfig, atof: string -> real)
    ensures ApplyLine(c, "=5", atof) == Failure(NullToken)
  {
    assert "=5"[1..] == "5";
    LineStartingWithDelimiterCrashes("=5");
  }

  /** The line handling with the NULL test moved before `trim`, as the
      `if (!(param && value)) continue;` evidently intends: a line with fewer
      than two fields is skipped instead of stopping the load. */
  function ApplyLineGuarded(c: CfConfig, line: string, atof: string -> real): (r: CfConfig)
    ensures ApplyLine(c, line, atof).Success? ==> r == ApplyLine(c, line, atof).value
    ensures Crashes(line) ==> r == c
    ensures exists k :: OnlyChanged(c, r, k)
  {
    match ApplyLine(c, line, atof)
    case Success(d) => d
    case Failure(_) =>
      assert OnlyChanged(c, c, UserMin);
      c
  }

  // ---------------------------------------------------------------------------
  // The whole file
  // ---------------------------------------------------------------------------

  /** Some line of `lines` crashes the load. */
  ghost predicate AnyCrash(lines: seq<string>)
    decreases |lines|
  {
    |lines| > 0 && (Crashes(lines[0]) || AnyCrash(lines[1..]))
  }

  lemma {:induction false} AnyCrashIffSome(lines: seq<string>)
    ensures AnyCrash(lines) <==> exists k :: 0 <= k < |lines| && Crashes(lines[k])
    decreases |lines|
  {
    if |lines| > 0 {
      var rest := lines[1..];
      AnyCrashIffSome(rest);
      assert forall k :: 1 <= k < |lines| ==> lines[k] == rest[k - 1];
      if exists k :: 0 <= k < |lines| && Crashes(lines[k]) {
        var k :| 0 <= k < |lines| && Crashes(lines[k]);
        if k > 0 {
          assert Crashes(rest[k - 1]);
        }
      }
    }
  }

  /** The `fgets` loop over the lines of the file, each line one `fgets`
      chunk; a crashing line ends the run. */
  function LoadLines(c: CfConfig, lines: seq<string>, atof: string -> real): (r: Result<CfConfig, LoadError>)
    ensures r.Failure? <==> AnyCrash(lines)
    ensures (forall k :: 0 <= k < |lines| ==> Skipped(lines[k])) ==> r == Success(c)
    decreases |lines|
  {
    if |lines| == 0 then Success(c)
    else
      match ApplyLine(c, lines[0], atof)
      case Failure(e) => Failure(e)
      case Success(d) =>
        var r := LoadLines(d, lines[1..], atof);
        assert forall k :: 1 <= k < |lines| ==> lines[k] == lines[1..][k - 1];
        r
  }

  /** Reading a file in two parts is reading the first part and then the
      second from the configuration that produced. */
  lemma {:induction false} LoadLinesAppend(c: CfConfig, xs: seq<string>, ys: seq<string>, atof: string -> real)
    ensures LoadLines(c, xs + ys, atof)
            == match LoadLines(c, xs, atof)
               case Failure(e) => Failure(e)
               case Success(d) => LoadLines(d, ys, atof)
    decreases |xs|
  {
    if |xs| == 0 {
      assert xs + ys == ys;
    } else {
      assert (xs + ys)[0] == xs[0];
      assert (xs + ys)[1..] == xs[1..] + ys;
      match ApplyLine(c, xs[0], atof)
      case Failure(e) =>
      case Success(d) =>
        LoadLinesAppend(d, xs[1..], ys, atof);
    }
  }

  /** The load with every line read by `ApplyLineGuarded`. */
  function LoadLinesGuarded(c: CfConfig, lines: seq<string>, atof: string -> real): (r: CfConfig)
    ensures LoadLines(c, lines, atof).Success? ==> r == LoadLines(c, lines, atof).value
    decreases |lines|
  {
    if |lines| == 0 then c
    else LoadLinesGuarded(ApplyLineGuarded(c, lines[0], atof), lines[1..], atof)
  }

  /** The folding of `loadConfig`: each time becomes `hour * 100 + minute`. */
  function Fold(c: CfConfig): (r: CfConfig)
    ensures r.(morningTime := c.morningTime, nightTime := c.nightTime) == c
    ensures 0 <= c.morningMinutes < 100 ==>
              r.morningTime / 100 == c.morningTime && r.morningTime % 100 == c.morningMinutes
    ensures 0 <= c.nightMinutes < 100 ==>
              r.nightTime / 100 == c.nightTime && r.nightTime % 100 == c.nightMinutes
  {
    c.(morningTime := c.morningTime * 100 + c.morningMinutes,
       nightTime := c.nightTime * 100 + c.nightMinutes)
  }

  /** With minutes below an hour, the folded boundaries compare as the clock
      times they stand for, so the `MORNING_TIME < NIGHT_TIME` test of
      `errorHandle` is the order of hour and minute. */
  lemma FoldKeepsClockOrder(c: CfConfig)
    requires 0 <= c.morningMinutes < 60 && 0 <= c.nightMinutes < 60
    ensures Fold(c).morningTime < Fold(c).nightTime
            <==> c.morningTime < c.nightTime
                 || (c.morningTime == c.nightTime && c.morningMinutes < c.nightMinutes)
    ensures Fold(c).morningTime == Fold(c).nightTime
            <==> c.morningTime == c.nightTime && c.morningMinutes == c.nightMinutes
  {
  }

  /** `loadConfig`: start from the defaults, apply the file's lines when the
      file exists (`None` when it does not), then fold the times. */
  function LoadConfig(file: Option<seq<string>>, atof: string -> real): (r: Result<CfConfig, LoadError>)
    ensures file.None? ==> r == Success(Fold(Default()))
    ensures file.Some? ==> (r.Failure? <==> AnyCrash(file.value))
    ensures file.Some? && r.Success? ==>
              && LoadLines(Default(), file.value, atof).Success?
              && r.value == Fold(LoadLines(Default(), file.value, atof).value)
    ensures file.Some? && (forall k :: 0 <= k < |file.value| ==> Skipped(file.value[k])) ==>
              r == Success(Fold(Default()))
  {
    match file
    case None => Success(Fold(Default()))
    case Some(lines) =>
      var loaded :- LoadLines(Default(), lines, atof);
      Success(Fold(loaded))
  }

  /** `loadConfig` with `ApplyLineGuarded` in place of the line handling. */
  function LoadConfigGuarded(file: Option<seq<string>>, atof: string -> real): (r: CfConfig)
    ensures LoadConfig(file, atof).Success? ==> r == LoadConfig(file, atof).value
  {
    match file
    case None => Fold(Default())
    case Some(lines) => Fold(LoadLinesGuarded(Default(), lines, atof))
  }

  // ---------------------------------------------------------------------------
  // errorHandle
  // ---------------------------------------------------------------------------

  /** One diagnostic of `errorHandle` per check, in the order they are made. */
  datatype ConfigError =
    | StepDistNotPositive
    | MorningAfterNight
    | MorningEqualsNight
    | BrightnessNotPositive
    | MaxTooLow
    | MinTooLow
    | MorningOutOfRange
    | NightOutOfRange
    | NegativeTimeSleep
    | NegativeStepSleep
    | NegativeMorningMinutes
    | NegativeNightMinutes
    | MorningMinutesTooLarge
    | NightMinutesTooLarge

  /** The condition under which each diagnostic is reported. */
  predicate Fails(c: CfConfig, e: ConfigError) {
    match e
    case StepDistNotPositive => c.stepDist <= 0
    case MorningAfterNight => c.morningTime > c.nightTime
    case MorningEqualsNight => c.morningTime == c.nightTime
    case BrightnessNotPositive => c.userBright <= 0.0
    case MaxTooLow => c.userMax <= 100
    case MinTooLow => c.userMin <= 100
    case MorningOutOfRange => c.morningTime < 0 || c.morningTime >= 2400
    case NightOutOfRange => c.nightTime < 0 || c.nightTime >= 2400
    case NegativeTimeSleep => c.timeSleep < 0
    case NegativeStepSleep => c.stepSleep < 0
    case NegativeMorningMinutes => c.morningMinutes < 0
    case NegativeNightMinutes => c.nightMinutes < 0
    case MorningMinutesTooLarge => c.morningMinutes >= 60
    case NightMinutesTooLarge => c.nightMinutes >= 60
  }

  /** A folded configuration the schedule may run with. Nothing requires
      the minimum temperature to lie below the maximum. */
  predicate Acceptable(c: CfConfig) {
    && c.stepDist > 0
    && c.morningTime < c.nightTime
    && c.userBright > 0.0
    && c.userMin > 100 && c.userMax > 100
    && 0 <= c.morningTime < 2400 && 0 <= c.nightTime < 2400
    && c.timeSleep >= 0 && c.stepSleep >= 0
    && 0 <= c.morningMinutes < 60 && 0 <= c.nightMinutes < 60
  }

  function Check(c: CfConfig, e: ConfigError): seq<ConfigError> {
    if Fails(c, e) then [e] else []
  }

  /** `errorHandle`: every check is made before the program exits, so the
      result lists every failing check; the program exits when it is not empty. */
  function ConfigErrors(c: CfConfig): (r: seq<ConfigError>)
    ensures forall e :: e in r <==> Fails(c, e)
    ensures r == [] <==> Acceptable(c)
  {
    var order := Check(c, StepDistNotPositive) + Check(c, MorningAfterNight) + Check(c, MorningEqualsNight);
    var limits := Check(c, BrightnessNotPositive) + Check(c, MaxTooLow) + Check(c, MinTooLow)
                  + Check(c, MorningOutOfRange) + Check(c, NightOutOfRange);
    var signs := Check(c, NegativeTimeSleep) + Check(c, NegativeStepSleep)
                 + Check(c, NegativeMorningMinutes) + Check(c, NegativeNightMinutes)
                 + Check(c, MorningMinutesTooLarge) + Check(c, NightMinutesTooLarge);
    order + limits + signs
  }

  /** With no configuration file the defaults are loaded and pass every check. */
  lemma DefaultsAccepted(atof: string -> real)
    ensures LoadConfig(None, atof) == Success(Fold(Default()))
    ensures Fold(Default()).morningTime == 1000 && Fold(Default()).nightTime == 2200
    ensures ConfigErrors(Fold(Default())) == []
  {
  }
}
