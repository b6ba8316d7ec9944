/** The command line of `main`: the argument scan, and what the one-shot
    path does with it (report the estimate, set an absolute temperature, or
    shift the current one) on which screens. The X calls themselves are
    parameters: `estimate(screen)` stands for reading a screen's ramps. */
module Cli {
  import opened Constants
  import opened CString

  /** What the argument scan collects. */
  datatype Args = Args(help: bool, verbose: bool, delta: bool, flux: bool,
                       screen: int, crtc: int, temp: int, brightness: real)

  /** Before the first argument: no flags, no screen or output chosen, the
      temperature at the `DELTA_MIN` sentinel and a negative brightness. */
  const Unset := Args(false, false, false, false, -1, -1, DeltaMin, -1.0)

  predicate IsHelp(s: string) { s == "-h" || s == "--help" }
  predicate IsVerbose(s: string) { s == "-v" || s == "--verbose" }
  predicate IsDelta(s: string) { s == "-d" || s == "--delta" }
  predicate IsFlux(s: string) { s == "-f" || s == "--chinese-flux" }
  predicate IsScreen(s: string) { s == "-s" || s == "--screen" }
  predicate IsCrtc(s: string) { s == "-c" || s == "--crtc" }

  /** A switch that takes no value. */
  predicate IsSwitch(s: string) { IsHelp(s) || IsVerbose(s) || IsDelta(s) || IsFlux(s) }

  predicate IsOption(s: string) { IsSwitch(s) || IsScreen(s) || IsCrtc(s) }

  /** Some argument satisfies `p`. */
  predicate Mentions(args: seq<string>, p: string -> bool)
    decreases |args|
  {
    |args| > 0 && (p(args[0]) || Mentions(args[1..], p))
  }

  lemma {:induction false} MentionsIffSome(args: seq<string>, p: string -> bool)
    ensures Mentions(args, p) <==> exists k :: 0 <= k < |args| && p(args[k])
    decreases |args|
  {
    if |args| > 0 {
      var rest := args[1..];
      MentionsIffSome(rest, p);
      assert forall k :: 1 <= k < |args| ==> args[k] == rest[k - 1];
      if exists k :: 0 <= k < |args| && p(args[k]) {
        var k :| 0 <= k < |args| && p(args[k]);
        if k > 0 {
          assert p(rest[k - 1]);
        }
      }
    }
  }

  /** The scan over the arguments after the program name. `--screen` and
      `--crtc` take the next argument whatever it is, and ask for the usage
      text when there is none; the first other argument is the temperature
      (as long as it still equals the sentinel), the second the brightness,
      and any further one asks for the usage text. */
  function Parse(args: seq<string>, a: Args, atof: string -> real): (r: Args)
    ensures a.help ==> r.help
    ensures a.verbose ==> r.verbose
    ensures a.delta ==> r.delta
    ensures a.flux ==> r.flux
    ensures a.temp != DeltaMin ==> r.temp == a.temp
    ensures a.brightness >= 0.0 ==> r.brightness == a.brightness
    ensures r.flux ==> a.flux || Mentions(args, IsFlux)
    ensures r.delta ==> a.delta || Mentions(args, IsDelta)
    ensures r.verbose ==> a.verbose || Mentions(args, IsVerbose)
    decreases |args|
  {
    if |args| == 0 then a
    else
      var arg := args[0];
      assert |args| > 1 ==> args[1..][1..] == args[2..];
      if IsHelp(arg) then Parse(args[1..], a.(help := true), atof)
      else if IsVerbose(arg) then Parse(args[1..], a.(verbose := true), atof)
      else if IsDelta(arg) then Parse(args[1..], a.(delta := true), atof)
      else if IsFlux(arg) then Parse(args[1..], a.(flux := true), atof)
      else if IsScreen(arg) then
        if |args| > 1 then Parse(args[2..], a.(screen := Atoi(args[1])), atof) else a.(help := true)
      else if IsCrtc(arg) then
        if |args| > 1 then Parse(args[2..], a.(crtc := Atoi(args[1])), atof) else a.(help := true)
      else if a.temp == DeltaMin then Parse(args[1..], a.(temp := Atoi(arg)), atof)
      else if a.brightness < 0.0 then Parse(args[1..], a.(brightness := atof(arg)), atof)
      else Parse(args[1..], a.(help := true), atof)
  }

  /** Over switches alone the scan sets exactly the switches that occur. */
  lemma {:induction false} SwitchesOnly(args: seq<string>, a: Args, atof: string -> real)
    requires forall k :: 0 <= k < |args| ==> IsSwitch(args[k])
    ensures Parse(args, a, atof)
            == a.(help := a.help || Mentions(args, IsHelp),
                  verbose := a.verbose || Mentions(args, IsVerbose),
                  delta := a.delta || Mentions(args, IsDelta),
                  flux := a.flux || Mentions(args, IsFlux))
    decreases |args|
  {
    if |args| > 0 {
      var arg, rest := args[0], args[1..];
      var b := if IsHelp(arg) then a.(help := true)
               else if IsVerbose(arg) then a.(verbose := true)
               else if IsDelta(arg) then a.(delta := true)
               else a.(flux := true);
      assert Parse(args, a, atof) == Parse(rest, b, atof);
      assert forall k :: 0 <= k < |rest| ==> rest[k] == args[k + 1];
      SwitchesOnly(rest, b, atof);
    }
  }

  /** `--screen` and `--crtc` take the next argument as their value, whatever
      it is, and the scan resumes after it. */
  lemma OptionTakesNext(opt: string, v: string, rest: seq<string>, a: Args, atof: string -> real)
    ensures IsScreen(opt) ==> Parse([opt, v] + rest, a, atof) == Parse(rest, a.(screen := Atoi(v)), atof)
    ensures IsCrtc(opt) ==> Parse([opt, v] + rest, a, atof) == Parse(rest, a.(crtc := Atoi(v)), atof)
  {
    assert ([opt, v] + rest)[2..] == rest;
  }

  /** How one argument that is not an option is classified: as the
      temperature while that is still the sentinel, else as the brightness
      while that is still negative, else as an unknown parameter that asks
      for the usage text. */
  lemma PositionalStep(x: string, rest: seq<string>, a: Args, atof: string -> real)
    requires !IsOption(x)
    ensures a.temp == DeltaMin ==> Parse([x] + rest, a, atof) == Parse(rest, a.(temp := Atoi(x)), atof)
    ensures a.temp != DeltaMin && a.brightness < 0.0 ==>
              Parse([x] + rest, a, atof) == Parse(rest, a.(brightness := atof(x)), atof)
    ensures a.temp != DeltaMin && a.brightness >= 0.0 ==>
              Parse([x] + rest, a, atof) == Parse(rest, a.(help := true), atof)
  {
    assert ([x] + rest)[0] == x && ([x] + rest)[1..] == rest;
  }

  /** Once the temperature and the brightness are taken, every further
      argument that is not an option only asks for the usage text. */
  lemma {:induction false} SurplusArguments(args: seq<string>, a: Args, atof: string -> real)
    requires forall k :: 0 <= k < |args| ==> !IsOption(args[k])
    requires a.temp != DeltaMin && a.brightness >= 0.0
    ensures Parse(args, a, atof) == a.(help := a.help || |args| > 0)
    decreases |args|
  {
    if |args| > 0 {
      PositionalStep(args[0], args[1..], a, atof);
      assert [args[0]] + args[1..] == args;
      SurplusArguments(args[1..], a.(help := true), atof);
    }
  }

  /** Over arguments that are not options, the first is the temperature, the
      second the brightness, and any third asks for the usage text (when the
      first does not read as the sentinel and the second not as a negative
      brightness; `PositionalStep` covers those cases). */
  lemma PositionalArguments(args: seq<string>, a: Args, atof: string -> real)
    requires forall k :: 0 <= k < |args| ==> !IsOption(args[k])
    requires a.temp == DeltaMin && a.brightness < 0.0
    requires |args| > 0 ==> Atoi(args[0]) != DeltaMin
    requires |args| > 1 ==> atof(args[1]) >= 0.0
    ensures Parse(args, a, atof)
            == a.(temp := if |args| > 0 then Atoi(args[0]) else a.temp,
                  brightness := if |args| > 1 then atof(args[1]) else a.brightness,
                  help := a.help || |args| > 2)
  {
    if |args| > 0 {
      var b := a.(temp := Atoi(args[0]));
      PositionalStep(args[0], args[1..], a, atof);
      assert [args[0]] + args[1..] == args;
      if |args| > 1 {
        var rest := args[1..];
        PositionalStep(rest[0], rest[1..], b, atof);
        assert [rest[0]] + rest[1..] == rest;
        assert forall k :: 0 <= k < |rest[1..]| ==> rest[1..][k] == args[k + 2];
        SurplusArguments(rest[1..], b.(brightness := atof(rest[0])), atof);
      }
    }
  }

  /** The decimal spelling of a number is never mistaken for an option. */
  lemma ShowIsNotOption(n: int)
    ensures !IsOption(Show(n))
  {
    var m := if n < 0 then -n else n;
    assert IsDigit(Decimal(m)[0]);
    if n < 0 {
      assert Show(n)[1] == Decimal(m)[0];
    } else {
      assert Show(n)[0] == Decimal(m)[0];
    }
  }

  /** A printed temperature followed by a brightness is read back as both. */
  lemma ParseTemperatureAndBrightness(n: int, b: string, atof: string -> real)
    requires n != DeltaMin && !IsOption(b)
    ensures Parse([Show(n)], Unset, atof).temp == n
    ensures Parse([Show(n), b], Unset, atof) == Unset.(temp := n, brightness := atof(b))
  {
    ShowIsNotOption(n);
    AtoiShow(n, []);
    assert Show(n) + [] == Show(n);
    var once := Unset.(temp := n);
    assert Parse([Show(n)], Unset, atof) == Parse([], once, atof);
    assert [Show(n), b][1..] == [b];
    assert Parse([Show(n), b], Unset, atof) == Parse([b], once, atof);
    assert [b][1..] == [];
    assert Parse([b], once, atof) == Parse([], once.(brightness := atof(b)), atof);
  }

  /** `--screen` with nothing after it asks for the usage text. */
  lemma MissingScreenValue(atof: string -> real)
    ensures Parse(["-s"], Unset, atof).help
    ensures Parse(["--crtc"], Unset, atof).help
  {
  }

  /** `--screen` takes the next argument even when it looks like a switch. */
  lemma ScreenSwallowsNext(atof: string -> real)
    ensures Parse(["-s", "-f"], Unset, atof) == Unset.(screen := 0)
  {
    assert ["-s", "-f"][2..] == [];
  }

  // ---------------------------------------------------------------------------
  // The one-shot path
  // ---------------------------------------------------------------------------

  /** An absolute request: 0 means the neutral 6500 K, anything below 700 K
      is raised to 700 K. */
  function Requested(t: nat): (r: int)
    ensures r >= TemperatureZero
    ensures t >= TemperatureZero ==> r == t
    ensures t == 0 ==> r == TemperatureNorm
    ensures 0 < t < TemperatureZero ==> r == TemperatureZero
  {
    if t == 0 then TemperatureNorm else if t < TemperatureZero then TemperatureZero else t
  }

  /** Requesting the outcome of a request again changes nothing. */
  lemma RequestedIdempotent(t: nat)
    ensures Requested(Requested(t)) == Requested(t)
  {
  }

  /** Delta mode: the estimate moved by `delta`, with its own brightness,
      raised to 700 K when it would fall below. */
  function Shifted(delta: int, estimate: TempStatus): (r: TempStatus)
    ensures r.brightness == estimate.brightness
    ensures r.temp >= TemperatureZero
    ensures estimate.temp + delta >= TemperatureZero ==> r.temp == estimate.temp + delta
    ensures estimate.temp + delta < TemperatureZero ==> r.temp == TemperatureZero
  {
    var t := estimate.temp + delta;
    TempStatus(if t < TemperatureZero then TemperatureZero else t, estimate.brightness)
  }

  /** Two shifts that do not hit the floor add up. */
  lemma ShiftsCompose(d1: int, d2: int, estimate: TempStatus)
    requires estimate.temp + d1 >= TemperatureZero
    ensures Shifted(d2, Shifted(d1, estimate)) == Shifted(d1 + d2, estimate)
  {
  }

  /** A shift that stays above the floor is undone by the opposite shift. */
  lemma ShiftUndone(delta: int, estimate: TempStatus)
    requires estimate.temp >= TemperatureZero && estimate.temp + delta >= TemperatureZero
    ensures Shifted(-delta, Shifted(delta, estimate)) == estimate
  {
  }

  /** What each selected screen gets. */
  datatype Mode = Report | SetTo(status: TempStatus, warned: bool) | ShiftBy(delta: int)

  /** What `main` does once the arguments are scanned. */
  datatype Plan = Flux | Usage | InvalidScreen(screen: int) | OneShot(first: int, last: int, mode: Mode)

  /** A negative temperature without `--delta` only reports; otherwise an
      absolute request or a shift, the brightness defaulting to 1.0. */
  function ModeOf(a: Args): (m: Mode)
    ensures m.Report? <==> a.temp < 0 && !a.delta
    ensures m.ShiftBy? <==> a.delta
    ensures m.ShiftBy? ==> m.delta == a.temp
    ensures m.SetTo? ==> (&& m.status.temp >= TemperatureZero
                          && m.status.temp == Requested(a.temp)
                          && m.warned == (0 < a.temp < TemperatureZero)
                          && m.status.brightness == (if a.brightness < 0.0 then 1.0 else a.brightness))
  {
    if a.temp < 0 && !a.delta then Report
    else if !a.delta then
      SetTo(TempStatus(Requested(a.temp), if a.brightness < 0.0 then 1.0 else a.brightness),
            0 < a.temp < TemperatureZero)
    else ShiftBy(a.temp)
  }

  /** The one-shot loop visits `screen`. */
  predicate Covers(p: Plan, screen: int)
    requires p.OneShot?
  {
    p.first <= screen <= p.last
  }

  /** The flux loop never returns, so it wins over everything else; then the
      usage text; then the screen check; then the one-shot action on the
      chosen screen or on all of them. */
  function PlanOf(a: Args, screens: nat): (p: Plan)
    ensures p.Flux? <==> a.flux
    ensures p.Usage? <==> !a.flux && a.help
    ensures p.InvalidScreen? <==> !a.flux && !a.help && a.screen >= screens
    ensures p.OneShot? ==> p.mode == ModeOf(a)
    ensures p.OneShot? ==> forall s :: Covers(p, s) <==> if a.screen >= 0 then s == a.screen else 0 <= s < screens
  {
    if a.flux then Flux
    else if a.help then Usage
    else if a.screen >= screens then InvalidScreen(a.screen)
    else if a.screen >= 0 then OneShot(a.screen, a.screen, ModeOf(a))
    else OneShot(0, screens - 1, ModeOf(a))
  }

  /** The sample requests: 0 sets 6500 K everywhere; 200 is raised to 700 K
      with a warning. */
  lemma SampleRequests(atof: string -> real)
    ensures PlanOf(Parse(["0"], Unset, atof), 2) == OneShot(0, 1, SetTo(TempStatus(6500, 1.0), false))
    ensures PlanOf(Parse(["200"], Unset, atof), 2) == OneShot(0, 1, SetTo(TempStatus(700, 1.0), true))
  {
    AtoiShow(0, []);
    AtoiShow(200, []);
    assert Show(0) + [] == "0";
    assert Show(200) + [] == "200";
  }

  /** Without arguments the temperature stays at the negative sentinel, so
      every screen is only reported. */
  lemma NoArgumentsReport(atof: string -> real, screens: nat)
    ensures PlanOf(Parse([], Unset, atof), screens) == OneShot(0, screens - 1, Report)
  {
  }

  /** `--delta` without a value shifts by the sentinel itself, which pins
      every screen whose estimate lies below 1,000,700 K to 700 K. */
  lemma BareDeltaPinsFloor(atof: string -> real, estimate: TempStatus)
    requires estimate.temp < TemperatureZero - DeltaMin
    ensures PlanOf(Parse(["-d"], Unset, atof), 1) == OneShot(0, 0, ShiftBy(DeltaMin))
    ensures Shifted(DeltaMin, estimate).temp == TemperatureZero
  {
  }

  /** One step of the one-shot loop, with `estimate(screen)` the current
      setting of that screen. */
  datatype Action = Print(screen: int, status: TempStatus) | Apply(screen: int, status: TempStatus, warned: bool)

  function ActionFor(screen: int, mode: Mode, estimate: int -> TempStatus): Action {
    match mode
    case Report => Print(screen, estimate(screen))
    case SetTo(status, warned) => Apply(screen, status, warned)
    case ShiftBy(delta) =>
      Apply(screen, Shifted(delta, estimate(screen)), estimate(screen).temp + delta < TemperatureZero)
  }

  /** In delta mode the brightness argument is ignored: each screen keeps the
      brightness read from it. */
  lemma DeltaKeepsScreenBrightness(a: Args, screen: int, estimate: int -> TempStatus)
    requires a.delta
    ensures ActionFor(screen, ModeOf(a), estimate).Apply?
    ensures ActionFor(screen, ModeOf(a), estimate).status.brightness == estimate(screen).brightness
  {
  }

  /** `for (screen = first; screen <= last; screen++)`. */
  method OneShotActions(first: int, last: int, mode: Mode, estimate: int -> TempStatus) returns (acts: seq<Action>)
    ensures |acts| == if last < first then 0 else last - first + 1
    ensures forall k :: 0 <= k < |acts| ==> acts[k].screen == first + k
    ensures forall k :: 0 <= k < |acts| ==> acts[k] == ActionFor(first + k, mode, estimate)
    ensures mode.ShiftBy? ==> forall k :: 0 <= k < |acts| ==> acts[k].status.temp >= TemperatureZero
  {
    acts := [];
    var screen := first;
    while screen <= last
      invariant first <= screen && (last < first ==> screen == first)
      invariant screen <= last + 1 || last < first
      invariant |acts| == screen - first
      invariant forall k :: 0 <= k < |acts| ==> acts[k] == ActionFor(first + k, mode, estimate)
      decreases last - screen + 1
    {
      acts := acts + [ActionFor(screen, mode, estimate)];
      screen := screen + 1;
    }
  }
}
