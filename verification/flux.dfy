/** The day/night schedule of the flux mode: the rounding of temperatures to
    the step distance, the choice of target from the time of day, the step
    direction, the inner stepping loop, and one pass of the endless outer
    loop. The clock is an input: `now` is a time of day `hour * 100 + minute`. */
module Flux {
  import opened Wrappers
  import opened Constants
  import opened Config

  function Abs(x: int): nat {
    if x < 0 then -x else x
  }

  // ---------------------------------------------------------------------------
  // Rounding to the step distance
  // ---------------------------------------------------------------------------

  /** C's `/` on `int` for a positive divisor: the quotient truncated toward zero. */
  function CDiv(x: int, d: int): (q: int)
    requires d > 0
    ensures x >= 0 ==> 0 <= x - q * d < d
    ensures x < 0 ==> -d < x - q * d <= 0
  {
    if x >= 0 then x / d else -((-x) / d)
  }

  /** `((x + d / 2) / d) * d`: `x` rounded to a multiple of `d`. */
  function RoundToStep(x: int, d: int): (r: int)
    requires d > 0
    ensures r % d == 0
    ensures x >= 0 ==> r - x <= d / 2 && x - r < d - d / 2
  {
    var q := CDiv(x + d / 2, d);
    MultipleMod(q, d);
    q * d
  }

  lemma Distribute(q: int, d: int)
    ensures (q + 1) * d == q * d + d
  {
  }

  lemma {:induction false} MulAtLeast(k: int, d: int)
    requires k >= 1 && d > 0
    ensures k * d >= d
    decreases k
  {
    if k > 1 {
      MulAtLeast(k - 1, d);
      Distribute(k - 1, d);
    }
  }

  /** The only multiple of `d` strictly between `-d` and `d` is 0. */
  lemma MulSmall(k: int, d: int)
    requires d > 0 && -d < k * d < d
    ensures k == 0
  {
    if k >= 1 {
      MulAtLeast(k, d);
    } else if k <= -1 {
      MulAtLeast(-k, d);
    }
  }

  /** Quotient and remainder are the unique pair with `0 <= r < d`. */
  lemma DivModUnique(x: int, d: int, q: int, r: int)
    requires d > 0 && x == q * d + r && 0 <= r < d
    ensures x % d == r && x / d == q
  {
    var q', r' := x / d, x % d;
    assert x == q' * d + r';
    assert (q - q') * d == q * d - q' * d;
    MulSmall(q - q', d);
  }

  /** A multiple of `d` leaves no remainder. */
  lemma MultipleMod(q: int, d: int)
    requires d > 0
    ensures (q * d) % d == 0
  {
    DivModUnique(q * d, d, q, 0);
  }

  /** Adding or removing `d` keeps a multiple of `d` a multiple. */
  lemma ShiftMultiple(x: int, d: int)
    requires d > 0 && x % d == 0
    ensures (x + d) % d == 0 && (x - d) % d == 0
  {
    var q := x / d;
    assert x == q * d;
    Distribute(q, d);
    Distribute(q - 1, d);
    DivModUnique(x + d, d, q + 1, 0);
    DivModUnique(x - d, d, q - 1, 0);
  }

  /** Two multiples of `d` less than `d` apart are equal. */
  lemma MultiplesApart(a: int, b: int, d: int)
    requires d > 0 && a % d == 0 && b % d == 0
    requires -d < a - b < d
    ensures a == b
  {
    var qa, qb := a / d, b / d;
    assert a == qa * d && b == qb * d;
    assert (qa - qb) * d == qa * d - qb * d;
    MulSmall(qa - qb, d);
  }

  /** Rounding leaves a non-negative multiple of the step unchanged. */
  lemma RoundKeepsMultiples(x: int, d: int)
    requires d > 0 && x >= 0 && x % d == 0
    ensures RoundToStep(x, d) == x
  {
    MultiplesApart(RoundToStep(x, d), x, d);
  }

  /** With the default step of 1 Kelvin rounding changes nothing. */
  lemma UnitStepRoundsToItself(x: int)
    ensures RoundToStep(x, 1) == x
  {
  }

  // ---------------------------------------------------------------------------
  // Schedule and target
  // ---------------------------------------------------------------------------

  /** The quantities the loop works with: the rounded bounds `feasibleMin` and
      `feasibleMax`, the folded boundaries, the step distance, and the
      configured brightness `USER_BRIGHT` every push carries. */
  datatype Schedule = Schedule(low: int, high: int, morning: int, night: int, stepDist: int, brightness: real)

  predicate WellFormed(s: Schedule) {
    s.stepDist > 0 && s.low % s.stepDist == 0 && s.high % s.stepDist == 0
  }

  /** The schedule `main` derives from a folded, validated configuration. */
  function ScheduleOf(c: CfConfig): (s: Schedule)
    requires c.stepDist > 0
    ensures WellFormed(s)
    ensures s.morning == c.morningTime && s.night == c.nightTime && s.stepDist == c.stepDist
    ensures s.brightness == c.userBright
    ensures c.userMin >= 0 ==> Abs(s.low - c.userMin) <= c.stepDist / 2
    ensures c.userMax >= 0 ==> Abs(s.high - c.userMax) <= c.stepDist / 2
  {
    Schedule(RoundToStep(c.userMin, c.stepDist), RoundToStep(c.userMax, c.stepDist),
             c.morningTime, c.nightTime, c.stepDist, c.userBright)
  }

  /** `errorHandle` followed by the derivation of the schedule: any failed
      check ends the program with every failure reported; otherwise the loop
      runs on the rounded bounds, with day a proper window of the clock. */
  function FluxSchedule(c: CfConfig): (r: Result<Schedule, seq<ConfigError>>)
    ensures r.Failure? <==> !Acceptable(c)
    ensures r.Failure? ==> forall e :: e in r.error <==> Fails(c, e)
    ensures r.Success? ==> WellFormed(r.value) && 0 <= r.value.morning < r.value.night < 2400
    ensures r.Success? ==> r.value.brightness > 0.0
    ensures r.Success? ==> r.value == ScheduleOf(c)
  {
    var errors := ConfigErrors(c);
    if errors != [] then Failure(errors) else Success(ScheduleOf(c))
  }

  /** With the built-in configuration the bounds are the configured ones and
      the night target lies below the day target. */
  lemma DefaultSchedule()
    ensures FluxSchedule(Fold(Default())) == Success(Schedule(3500, 6000, 1000, 2200, 1, 1.0))
  {
    DefaultsAccepted(_ => 0.0);
    UnitStepRoundsToItself(3500);
    UnitStepRoundsToItself(6000);
  }

  datatype Phase = Day | Night

  /** Night from the night boundary on and before the morning boundary: day
      is the half-open window from morning to night, empty when the night
      boundary does not come after the morning one. */
  function PhaseAt(now: int, morning: int, night: int): (p: Phase)
    ensures p == Day <==> morning <= now < night
  {
    if now >= night || now < morning then Night else Day
  }

  /** `newTemp`: the low target at night, the high one by day. */
  function TargetAt(s: Schedule, now: int): (t: int)
    ensures t == s.low || t == s.high
    ensures s.morning <= now < s.night ==> t == s.high
    ensures !(s.morning <= now < s.night) ==> t == s.low
  {
    match PhaseAt(now, s.morning, s.night)
    case Night => s.low
    case Day => s.high
  }

  /** With the boundaries in order, day is exactly the window from the morning
      boundary up to but excluding the night boundary. */
  lemma DayWindow(now: int, morning: int, night: int)
    requires morning < night
    ensures PhaseAt(now, morning, night) == Day <==> morning <= now < night
    ensures PhaseAt(morning, morning, night) == Day
    ensures PhaseAt(night, morning, night) == Night
  {
  }

  /** Without the ordering `errorHandle` enforces there would be no day at all. */
  lemma InvertedBoundsAlwaysNight(now: int, morning: int, night: int)
    requires night <= morning
    ensures PhaseAt(now, morning, night) == Night
  {
  }

  /** The sample schedule: 05:00 and 22:00 select the low target, 15:00 the high one. */
  lemma SampleTargets()
    ensures TargetAt(Schedule(3500, 6000, 1000, 2200, 500, 1.0), 500) == 3500
    ensures TargetAt(Schedule(3500, 6000, 1000, 2200, 500, 1.0), 1500) == 6000
    ensures TargetAt(Schedule(3500, 6000, 1000, 2200, 500, 1.0), 2200) == 3500
  {
  }

  /** `step`: one step distance toward the target, or 0 when already there. */
  function StepToward(target: int, temp: int, d: int): (step: int)
    requires d > 0
    ensures step == d || step == -d || step == 0
    ensures step == 0 <==> target == temp
    ensures step > 0 <==> target > temp
  {
    if target > temp then d else if target == temp then 0 else -d
  }

  // ---------------------------------------------------------------------------
  // The inner stepping loop
  // ---------------------------------------------------------------------------

  /** What holds on entry to the inner loop: a zero step only at the target,
      otherwise one step distance toward it. */
  predicate Heading(temp: int, step: int, target: int, d: int) {
    (step == 0 && temp == target) || (step == d && temp < target) || (step == -d && temp > target)
  }

  /** `p` lies strictly past `from` and not beyond `to`. */
  predicate Toward(from: int, p: int, to: int) {
    (from < p <= to) || (to <= p < from)
  }

  /** The outcome of the inner loop: final temperature and step, and the
      temperatures pushed to the screens in order. */
  datatype Run = Run(temp: int, step: int, pushes: seq<int>)

  /** `to` is reached from `from` by whole steps of `d`. */
  predicate Reaches(from: int, to: int, d: int)
    requires d > 0
    decreases Abs(to - from)
  {
    from == to
    || (from + d <= to && Reaches(from + d, to, d))
    || (to <= from - d && Reaches(from - d, to, d))
  }

  /** Between multiples of `d` the step distance `d` always lands exactly. */
  lemma {:induction false} MultiplesReach(a: int, b: int, d: int)
    requires d > 0 && a % d == 0 && b % d == 0
    ensures Reaches(a, b, d)
    decreases Abs(b - a)
  {
    if a < b {
      if b - a < d {
        MultiplesApart(a, b, d);
      }
      ShiftMultiple(a, d);
      MultiplesReach(a + d, b, d);
    } else if a > b {
      if a - b < d {
        MultiplesApart(a, b, d);
      }
      ShiftMultiple(a, d);
      MultiplesReach(a - d, b, d);
    }
  }

  /** `ps` is what stepping from `from` by `step` pushes: each element is
      the previous one (at first `from`) plus `step`. */
  predicate Walk(from: int, ps: seq<int>, step: int)
    decreases |ps|
  {
    |ps| == 0 || (ps[0] == from + step && Walk(ps[0], ps[1..], step))
  }

  /** The rounds of the inner loop with a non-zero step: each moves the
      temperature by `step` and pushes it, until the target is reached. */
  function Steps(temp: int, step: int, target: int, d: int): (ps: seq<int>)
    requires d > 0 && Reaches(temp, target, d)
    requires (step == d && temp <= target) || (step == -d && temp >= target)
    ensures |ps| == 0 <==> temp == target
    ensures |ps| > 0 ==> ps[0] == temp + step && ps[|ps| - 1] == target
    decreases Abs(target - temp)
  {
    if temp == target then [] else [temp + step] + Steps(temp + step, step, target, d)
  }

  /** The rounds walk from `temp` by `step` and never pass the target. */
  lemma {:induction false} StepsWalk(temp: int, step: int, target: int, d: int)
    requires d > 0 && Reaches(temp, target, d)
    requires (step == d && temp <= target) || (step == -d && temp >= target)
    ensures Walk(temp, Steps(temp, step, target, d), step)
    ensures forall k :: 0 <= k < |Steps(temp, step, target, d)| ==> Toward(temp, Steps(temp, step, target, d)[k], target)
    decreases Abs(target - temp)
  {
    if temp != target {
      var rest := Steps(temp + step, step, target, d);
      var ps := Steps(temp, step, target, d);
      StepsWalk(temp + step, step, target, d);
      assert ps == [temp + step] + rest;
      assert ps[1..] == rest;
      assert forall k | 1 <= k < |ps| :: ps[k] == rest[k - 1];
    }
  }

  /** `while (!step || newTemp != temp)`: a zero step becomes the step
      distance after one push of the unchanged temperature; otherwise the
      loop runs `Steps`. Either way it ends at the target having pushed it. */
  function InnerRun(temp: int, step: int, target: int, d: int): (r: Run)
    requires d > 0 && Reaches(temp, target, d) && Heading(temp, step, target, d)
    ensures r.temp == target && r.step != 0
    ensures |r.pushes| > 0 && r.pushes[|r.pushes| - 1] == target
    ensures step == 0 ==> r.step == d && r.pushes == [target]
    ensures step != 0 ==> r.step == step && r.pushes[0] == temp + step
    ensures step != 0 ==> forall k :: 0 <= k < |r.pushes| ==> Toward(temp, r.pushes[k], target)
    ensures step != 0 ==> Walk(temp, r.pushes, step)
  {
    if step == 0 then Run(temp, d, [temp])
    else
      StepsWalk(temp, step, target, d);
      Run(target, step, Steps(temp, step, target, d))
  }

  /** One round of `Steps`. */
  lemma StepsUnfold(temp: int, step: int, target: int, d: int)
    requires d > 0 && Reaches(temp, target, d) && temp != target
    requires (step == d && temp <= target) || (step == -d && temp >= target)
    ensures Reaches(temp + step, target, d)
    ensures (step == d && temp + step <= target) || (step == -d && temp + step >= target)
    ensures Steps(temp, step, target, d) == [temp + step] + Steps(temp + step, step, target, d)
  {
  }

  /** The inner loop as the program runs it. */
  method InnerLoop(temp0: int, step0: int, target: int, d: int) returns (temp: int, step: int, pushes: seq<int>)
    requires d > 0 && Reaches(temp0, target, d) && Heading(temp0, step0, target, d)
    ensures Run(temp, step, pushes) == InnerRun(temp0, step0, target, d)
  {
    temp, step, pushes := temp0, step0, [];
    while step == 0 || target != temp
      invariant Reaches(temp, target, d)
      invariant step0 == 0 ==> temp == temp0 == target && ((step == 0 && pushes == []) || (step == d && pushes == [temp0]))
      invariant step0 != 0 ==> step == step0 && ((step == d && temp <= target) || (step == -d && temp >= target))
      invariant step0 != 0 ==> Steps(temp0, step0, target, d) == pushes + Steps(temp, step, target, d)
      decreases Abs(target - temp) + (if step == 0 then 1 else 0)
    {
      if step != 0 {
        StepsUnfold(temp, step, target, d);
        assert pushes + ([temp + step] + Steps(temp + step, step, target, d))
            == (pushes + [temp + step]) + Steps(temp + step, step, target, d);
        temp := temp + step;
      } else {
        step := d;
      }
      pushes := pushes + [temp];
    }
    if step0 == 0 {
      assert InnerRun(temp0, step0, target, d) == Run(temp0, d, [temp0]);
    } else {
      assert pushes + [] == pushes;
      assert InnerRun(temp0, step0, target, d) == Run(target, step0, Steps(temp0, step0, target, d));
    }
  }

  /** Stepping 3500 K to 6000 K by 500 K pushes 4000, 4500, 5000, 5500, 6000. */
  lemma SampleStepping()
    ensures InnerRun(3500, 500, 6000, 500).pushes == [4000, 4500, 5000, 5500, 6000]
  {
    MultiplesReach(3500, 6000, 500);
    assert Steps(5500, 500, 6000, 500) == [6000];
    assert Steps(5000, 500, 6000, 500) == [5500, 6000];
    assert Steps(4500, 500, 6000, 500) == [5000, 5500, 6000];
    assert Steps(4000, 500, 6000, 500) == [4500, 5000, 5500, 6000];
  }

  // ---------------------------------------------------------------------------
  // The outer loop
  // ---------------------------------------------------------------------------

  /** The loop state: current temperature, step, and the target `newTemp`. */
  datatype FluxState = FluxState(temp: int, step: int, target: int)

  /** The state at the top of every pass: the temperature is a multiple of
      the step, the target is one of the two bounds, and the step heads to it. */
  predicate Ready(s: Schedule, st: FluxState) {
    && WellFormed(s)
    && st.temp % s.stepDist == 0
    && (st.target == s.low || st.target == s.high)
    && st.step == StepToward(st.target, st.temp, s.stepDist)
  }

  /** Entry to the loop: the estimated temperature rounded to the step, the
      target for the clock reading taken before the loop, and its step. */
  function FluxStart(s: Schedule, estimate: int, now: int): (st: FluxState)
    requires WellFormed(s)
    ensures Ready(s, st)
    ensures estimate >= 0 ==> Abs(st.temp - estimate) <= s.stepDist / 2
    ensures st.target == TargetAt(s, now)
  {
    var temp := RoundToStep(estimate, s.stepDist);
    var target := TargetAt(s, now);
    FluxState(temp, StepToward(target, temp, s.stepDist), target)
  }

  /** Why the flux branch never reaches its loop: `loadConfig` handed `trim`
      a NULL token, or `errorHandle` found failing checks. */
  datatype EntryError = Crashed(cause: LoadError) | Invalid(errors: seq<ConfigError>)

  /** The start of the flux branch: load the file, validate, derive the
      schedule, and set up the loop from the estimate of screen 0 and the
      clock reading taken before the loop. */
  function FluxEntry(file: Option<seq<string>>, atof: string -> real, estimate: int, now: int)
    : (r: Result<(Schedule, FluxState), EntryError>)
    ensures r.Failure? <==> LoadConfig(file, atof).Failure? || !Acceptable(LoadConfig(file, atof).value)
    ensures (r.Failure? && r.error.Crashed?) <==> LoadConfig(file, atof).Failure?
    ensures file.Some? ==> ((r.Failure? && r.error.Crashed?) <==> AnyCrash(file.value))
    ensures r.Failure? && r.error.Invalid? ==>
              forall e :: e in r.error.errors <==> Fails(LoadConfig(file, atof).value, e)
    ensures r.Success? ==> Ready(r.value.0, r.value.1) && r.value.1.target == TargetAt(r.value.0, now)
    ensures r.Success? ==> r.value.0.morning < r.value.0.night
    ensures r.Success? ==> r.value.0.brightness == LoadConfig(file, atof).value.userBright
    ensures r.Success? ==> r.value.0 == ScheduleOf(LoadConfig(file, atof).value)
    ensures r.Success? ==> r.value.1.temp == RoundToStep(estimate, LoadConfig(file, atof).value.stepDist)
  {
    match LoadConfig(file, atof)
    case Failure(cause) => Failure(Crashed(cause))
    case Success(c) =>
      match FluxSchedule(c)
      case Failure(errors) => Failure(Invalid(errors))
      case Success(s) => Success((s, FluxStart(s, estimate, now)))
  }

  /** The start of the flux branch with the corrected line handling of
      `LoadConfigGuarded`: only validation can stop it, and it agrees with
      `FluxEntry` whenever that reaches the loop. */
  function FluxEntryGuarded(file: Option<seq<string>>, atof: string -> real, estimate: int, now: int)
    : (r: Result<(Schedule, FluxState), seq<ConfigError>>)
    ensures r.Failure? <==> !Acceptable(LoadConfigGuarded(file, atof))
    ensures r.Success? ==> Ready(r.value.0, r.value.1) && r.value.1.target == TargetAt(r.value.0, now)
    ensures r.Success? ==> r.value.0.morning < r.value.0.night
    ensures r.Success? ==> r.value.0 == ScheduleOf(LoadConfigGuarded(file, atof))
    ensures r.Success? ==> r.value.0.brightness == LoadConfigGuarded(file, atof).userBright
    ensures r.Success? ==> r.value.1.temp == RoundToStep(estimate, LoadConfigGuarded(file, atof).stepDist)
    ensures FluxEntry(file, atof, estimate, now).Success? ==> r == Success(FluxEntry(file, atof, estimate, now).value)
  {
    var s :- FluxSchedule(LoadConfigGuarded(file, atof));
    Success((s, FluxStart(s, estimate, now)))
  }

  /** A configuration file holding the bare line `USER_MIN` stops the flux
      branch before its loop; with the corrected line handling it runs on
      the default schedule. */
  lemma BareKeyStopsFlux(atof: string -> real, estimate: int, now: int)
    ensures FluxEntry(Some(["USER_MIN"]), atof, estimate, now) == Failure(Crashed(NullToken))
    ensures FluxEntryGuarded(Some(["USER_MIN"]), atof, estimate, now).Success?
    ensures FluxEntryGuarded(Some(["USER_MIN"]), atof, estimate, now).value.0 == Schedule(3500, 6000, 1000, 2200, 1, 1.0)
  {
    BareKeyCrashes(Default(), atof);
    assert ["USER_MIN"][1..] == [];
    assert LoadConfigGuarded(Some(["USER_MIN"]), atof) == Fold(Default());
    DefaultSchedule();
  }

  /** A ready state meets the inner loop's precondition. */
  lemma ReadyResidue(s: Schedule, st: FluxState)
    requires Ready(s, st)
    ensures Reaches(st.temp, st.target, s.stepDist)
    ensures Heading(st.temp, st.step, st.target, s.stepDist)
  {
    MultiplesReach(st.temp, st.target, s.stepDist);
  }

  /** The records one pass hands to `sct_for_screen`, and the state after it. */
  datatype Pass = Pass(state: FluxState, pushes: seq<TempStatus>)

  /** `cFTemp` as each push sees it: the temperature of the moment with the
      brightness set once from `USER_BRIGHT`. */
  function AtBrightness(temps: seq<int>, b: real): (r: seq<TempStatus>)
    ensures |r| == |temps|
    ensures forall k :: 0 <= k < |r| ==> r[k] == TempStatus(temps[k], b)
  {
    seq(|temps|, k requires 0 <= k < |temps| => TempStatus(temps[k], b))
  }

  /** The temperatures of a sequence of pushes. */
  function Temps(ps: seq<TempStatus>): (r: seq<int>)
    ensures |r| == |ps|
    ensures forall k :: 0 <= k < |r| ==> r[k] == ps[k].temp
  {
    seq(|ps|, k requires 0 <= k < |ps| => ps[k].temp)
  }

  /** Attaching a brightness and reading the temperatures back gives the
      temperatures unchanged. */
  lemma TempsOfAtBrightness(temps: seq<int>, b: real)
    ensures Temps(AtBrightness(temps, b)) == temps
  {
  }

  /** One pass of `while(1)`: `now` is read at its top; the inner loop runs to
      the target chosen on the previous pass; only then is the target
      recomputed from `now`. */
  function FluxPass(s: Schedule, st: FluxState, now: int): (p: Pass)
    requires Ready(s, st)
    ensures Ready(s, p.state)
    ensures p.state.temp == st.target
    ensures p.state.target == TargetAt(s, now)
    ensures |p.pushes| > 0 && p.pushes[|p.pushes| - 1] == TempStatus(st.target, s.brightness)
    ensures forall k :: 0 <= k < |p.pushes| ==> Between(st.temp, p.pushes[k].temp, st.target)
    ensures forall k :: 0 <= k < |p.pushes| ==> p.pushes[k].brightness == s.brightness
    ensures st.temp == st.target ==> p.pushes == [TempStatus(st.temp, s.brightness)]
    ensures st.temp != st.target ==> Walk(st.temp, Temps(p.pushes), st.step)
  {
    ReadyResidue(s, st);
    var run := InnerRun(st.temp, st.step, st.target, s.stepDist);
    var target := TargetAt(s, now);
    TempsOfAtBrightness(run.pushes, s.brightness);
    Pass(FluxState(run.temp, StepToward(target, run.temp, s.stepDist), target),
         AtBrightness(run.pushes, s.brightness))
  }

  /** `p` lies between `a` and `b`, both included. */
  predicate Between(a: int, p: int, b: int) {
    (a <= p <= b) || (b <= p <= a)
  }

  /** The target reacts one pass late: the pass after the one that read `now1`
      ends at the target for `now1`, whatever the clock reads then. */
  lemma TargetOnePassLate(s: Schedule, st: FluxState, now1: int, now2: int)
    requires Ready(s, st)
    ensures var p2 := FluxPass(s, FluxPass(s, st, now1).state, now2);
            p2.state.temp == TargetAt(s, now1)
            && p2.pushes[|p2.pushes| - 1].temp == TargetAt(s, now1)
  {
  }

  /** Once the temperature sits at the target and the clock stays on the same
      side of the boundaries, every pass makes exactly one refreshing push. */
  lemma SteadyPassRefreshes(s: Schedule, st: FluxState, now: int)
    requires Ready(s, st) && st.temp == st.target && TargetAt(s, now) == st.target
    ensures FluxPass(s, st, now) == Pass(st, [TempStatus(st.temp, s.brightness)])
  {
  }

  /** Passes driven by successive clock readings, with all their pushes. */
  function FluxRun(s: Schedule, st: FluxState, clock: seq<int>): (p: Pass)
    requires Ready(s, st)
    ensures Ready(s, p.state)
    ensures |clock| > 0 ==> p.state.temp == s.low || p.state.temp == s.high
    ensures forall k :: 0 <= k < |p.pushes| ==> p.pushes[k].brightness == s.brightness
    decreases |clock|
  {
    if |clock| == 0 then Pass(st, [])
    else
      var first := FluxPass(s, st, clock[0]);
      var rest := FluxRun(s, first.state, clock[1..]);
      Pass(rest.state, first.pushes + rest.pushes)
  }

  /** No push ever leaves the span of the starting temperature and the two
      bounds: the schedule never overshoots. */
  lemma {:induction false} FluxRunNoOvershoot(s: Schedule, st: FluxState, clock: seq<int>)
    requires Ready(s, st)
    ensures forall k :: 0 <= k < |FluxRun(s, st, clock).pushes| ==>
              InSpan(FluxRun(s, st, clock).pushes[k].temp, st.temp, s)
    decreases |clock|
  {
    if |clock| > 0 {
      var first := FluxPass(s, st, clock[0]);
      var rest := FluxRun(s, first.state, clock[1..]);
      FluxRunNoOvershoot(s, first.state, clock[1..]);
      var all := FluxRun(s, st, clock).pushes;
      assert all == first.pushes + rest.pushes;
      forall k | 0 <= k < |all|
        ensures InSpan(all[k].temp, st.temp, s)
      {
        if k < |first.pushes| {
          assert all[k] == first.pushes[k];
          assert Between(st.temp, first.pushes[k].temp, st.target);
        } else {
          assert all[k] == rest.pushes[k - |first.pushes|];
        }
      }
    }
  }

  /** `t` lies within the smallest interval holding `start` and both bounds. */
  predicate InSpan(t: int, start: int, s: Schedule) {
    Min3(start, s.low, s.high) <= t <= Max3(start, s.low, s.high)
  }

  function Min3(a: int, b: int, c: int): int {
    if a <= b && a <= c then a else if b <= c then b else c
  }

  function Max3(a: int, b: int, c: int): int {
    if a >= b && a >= c then a else if b >= c then b else c
  }
}
