# xsctcf in Dafny

xsctcf sets the colour temperature of X11 screens. It can also run a
day/night schedule, the "chinese flux" mode. This project models the logic
the program wraps around its X calls and proves properties of that model:

- the three-way clamp `DoubleTrim`;
- the per-channel gamma scales and the ramp fill, as idealised real functions;
- the control flow of the temperature estimate and the CRTC-range rule;
- the configuration-file line handling: `trim`, `strtok` on `'='`, `atoi`,
  matching the key, updating one field, and folding hours and minutes;
- the `errorHandle` validation;
- the flux scheduler: rounding to the step, choosing the target from the
  time of day, the step direction, the inner stepping loop, and one pass of
  the outer loop;
- the argument scan and the one-shot path: report the estimate, set an
  absolute temperature, or shift the current one, on the selected screens.

Modules, one per file:

| file | module | models |
|---|---|---|
| wrappers.dfy | `Wrappers` | `Option` and `Result` |
| constants.dfy | `Constants` | the constants of `xsctcf.h` and `struct temp_status` |
| cstring.dfy | `CString` | the C string routines the loader uses: `trim`, `strtok`, `atoi` |
| config.dfy | `Config` | `cf_config`, `getDefault`, `loadConfig`, `errorHandle` |
| gamma.dfy | `Gamma` | `DoubleTrim`, `sct_for_screen`, `get_sct_for_screen` |
| flux.dfy | `Flux` | the `cflux` branch of `main` |
| cli.dfy | `Cli` | the argument scan and the one-shot branch of `main` |

The outside world enters only as parameters:

- `atof`, `log` and `exp` are function parameters.
- The configuration file is an `Option<seq<string>>` of lines. `None` means
  the file is absent.
- The clock is a time of day `hour * 100 + minute`.
- The X reads are an `estimate(screen)` function, or the top ramp entries of
  each CRTC.

`xsctcf.c` uses `struct cf_config`, which neither `xsctcf.c` nor
`xsctcf.h` defines; the model calls it `CfConfig`. Its field types are
inferred from use. `atoi` gives `int` fields. `atof` and the `%f` in the debug print give
a `double` `USER_BRIGHT`.

Points of the code's behaviour worth knowing:

- The zero-step refresh in the inner loop runs on every outer pass that
  finds the temperature at the target, not only at start-up:
  `Flux.SteadyPassRefreshes` proves one push per such pass.
- `main` prints an error for an invalid `--screen` index and returns
  `EXIT_SUCCESS`.
- The flux branch ignores `--screen`. It estimates from screen 0 and
  pushes to every screen.
- The flux branch loads the configuration with `loadConfig` as written, so
  a configuration line the loader crashes on stops it before its loop
  (`Flux.FluxEntry`, `Flux.BareKeyStopsFlux`).

## Model

| member | source | states |
|---|---|---|
| Gamma.DoubleTrim | src/xsctcf.c:39-42 | The result is one of `a`, `x` and `b`. With `a <= b` it always lies in `[a, b]`. |
| Gamma.DoubleTrimIsClamp | src/xsctcf.c:39-42 | With `a <= b` the index selection is the clamp `min(max(x, a), b)`. It gives `a` for `x <= a`, `x` inside `(a, b]` and `b` above `b`. |
| Gamma.ChannelScales | src/xsctcf.c:111-130 | Every channel scale lies in `[0, 1]`. Red is full below 6500 K and blue is full from 6500 K on. At or below 700 K green and blue are off. |
| Gamma.Ramp | src/xsctcf.c:146-151 | A ramp has `size` entries, each in `[0, 65535]`, and never decreases. |
| Gamma.ScreenRamps | src/xsctcf.c:111-151 | After clamping the brightness to `[0, 1]`, all three ramps stay in range and never decrease. At or below 700 K green and blue are zero throughout. |
| Gamma.CrtcRange | src/xsctcf.c:55-60 | A CRTC is chosen exactly when it is the requested index, if that index is valid, and otherwise when it is any CRTC of the screen. The range never runs past `ncrtc`. |
| Gamma.EstimateFromSums | src/xsctcf.c:74-100 | The estimated brightness lies in `[0, 1]`. With no CRTCs, or all top entries zero, the temperature is 0. Otherwise, for a positive `exp`, it is at least 700 K. |
| Gamma.Kelvin | src/xsctcf.c:76-95 | For any positive `exp`, the temperature before rounding is at least 700 K in each of the three branches of the inverse colour model. |
| Gamma.EstimateScreen | src/xsctcf.c:55-82 | The estimate over the chosen CRTCs has its brightness in `[0, 1]`. |
| Gamma.BlankScreenEstimate | src/xsctcf.c:74-100 | A screen whose ramps all end in zero reads as `(0, 0.0)`. |
| CString.Trim | src/xsctcf.c:160-173 | The result is the slice of the input between its first and last character that is not ' ', '\t' or '\n'. Everything outside the slice is blank, and the slice has no blank at either end. |
| CString.TrimOfUnique | src/xsctcf.c:160-173 | Only one slice meets that description, so the contract of `Trim` determines its result. |
| CString.TrimIdempotent | src/xsctcf.c:205-209 | Trimming a trimmed string changes nothing, which is why the second `trim(param)` is harmless. |
| CString.TrimEmptyIffBlank | src/xsctcf.c:161-166 | The result is empty exactly when every character is blank. |
| CString.TrimBlankPrefix | src/xsctcf.c:161-163 | Leading blanks do not affect the result. |
| CString.TrimBlankSuffix | src/xsctcf.c:167-171 | Trailing blanks do not affect the result. |
| CString.StrTok | src/xsctcf.c:205-206 | `strtok` with the one delimiter `'='` returns NULL exactly when only delimiters remain. Otherwise it returns the first maximal run of non-delimiters after skipping delimiters, and resumes one past the delimiter that ends the run. |
| CString.TwoTokensIffTwoFields | src/xsctcf.c:205-208 | Two successive `strtok` calls both return a token exactly when the text has a non-delimiter, then a delimiter, then a non-delimiter. |
| CString.StrTokPair | src/xsctcf.c:205-206 | For `a=b`, with neither part empty nor holding `'='`, the two calls return exactly `a` and `b`. |
| CString.Atoi | src/xsctcf.c:209-218 | A text without digits reads as 0, and a negative result needs a minus sign. |
| CString.AtoiShow | src/xsctcf.c:209-218 | `atoi` reads back the decimal spelling of any integer when no digit follows it. |
| Config.Default | src/xsctcf.c:175-188 | The built-in configuration, once folded, passes every check of `errorHandle`, and its minimum temperature lies below its maximum. |
| Config.KeyOf | src/xsctcf.c:209-218 | The key chain recognises a name exactly when it is the file spelling of one of the ten fields. |
| Config.SetField | src/xsctcf.c:209-218 | The named field takes the value read from the text. Every other field is unchanged. |
| Config.ApplyLine | src/xsctcf.c:201-218 | A blank or `#` line leaves the configuration unchanged. A line fails exactly when it is neither skipped nor has two `=`-separated fields. A successful line changes at most one field. |
| Config.ApplyLineAssignment | src/xsctcf.c:202-218 | For `name=value` the named field is set from the trimmed value. An unknown name changes nothing. |
| Config.LineWithoutDelimiterCrashes | src/xsctcf.c:205-208 | A non-comment line without `'='` dereferences NULL. |
| Config.LineEndingInDelimiterCrashes | src/xsctcf.c:205-208 | A line whose only `'='` is its last character dereferences NULL. |
| Config.LineStartingWithDelimiterCrashes | src/xsctcf.c:205-208 | A line whose only `'='` is its first character dereferences NULL. |
| Config.BareKeyCrashes | src/xsctcf.c:205-208 | The line `USER_MIN` stops the load. |
| Config.EmptyValueCrashes | src/xsctcf.c:205-208 | The line `USER_MIN=` stops the load. |
| Config.MissingKeyCrashes | src/xsctcf.c:205-208 | The line `=5` stops the load. |
| Config.ApplyLineGuarded | src/xsctcf.c:205-208 | With the NULL test before `trim`, a line the loader as written crashes on is skipped. Every other line is handled as before, and at most one field ever changes. |
| Config.LoadLines | src/xsctcf.c:201-219 | The load fails exactly when some line crashes. A file of blank and comment lines leaves the configuration unchanged. |
| Config.AnyCrashIffSome | src/xsctcf.c:201-219 | "Some line crashes", as the loader's contracts state it line by line, holds exactly when there is an index whose line crashes. |
| Config.LoadLinesAppend | src/xsctcf.c:201-219 | Loading `xs + ys` is loading `xs` and then loading `ys` from the result. |
| Config.LoadLinesGuarded | src/xsctcf.c:201-219 | The corrected load agrees with the loader as written whenever that succeeds. |
| Config.Fold | src/xsctcf.c:226-227 | Only the two times change. With minutes in `[0, 100)`, `/ 100` and `% 100` recover the hour and the minute. |
| Config.LoadConfig | src/xsctcf.c:190-228 | Without a file the result is the folded defaults. With a file, the load fails exactly when some line crashes; a successful load is the defaults overridden line by line and then folded, and a file of blank and comment lines gives the folded defaults. |
| Config.FoldKeepsClockOrder | src/xsctcf.c:226-227 | With minutes below 60, the folded morning time lies before (or equals) the folded night time exactly when the hour and minute do. |
| Config.LoadConfigGuarded | src/xsctcf.c:190-228 | The corrected load agrees with the loader as written whenever that succeeds. |
| Config.ConfigErrors | src/xsctcf.c:230-289 | All fourteen checks are made, and the list names exactly the failing ones. It is empty exactly when the configuration is acceptable. There is no check that `USER_MIN < USER_MAX`. |
| Config.DefaultsAccepted | src/xsctcf.h:39-48 | With no file, the folded defaults are 1000 and 2200 and pass every check. |
| Constants.ConstantsOrdered | src/xsctcf.h:14-40 | `DELTA_MIN` is negative, `0 < 700 < 6500`, and the default minimum lies below the default maximum. |
| Flux.CDiv | src/xsctcf.c:358-360 | C division truncates toward zero. The remainder has the sign of the dividend and is smaller than the divisor. |
| Flux.RoundToStep | src/xsctcf.c:358-360 | The result is a multiple of the step. For `x >= 0` it lies in the window `(x - ceil(d/2), x + floor(d/2)]`. |
| Flux.RoundKeepsMultiples | src/xsctcf.c:358-360 | A non-negative multiple of the step is left unchanged. |
| Flux.UnitStepRoundsToItself | src/xsctcf.h:48 | With the default step of 1, rounding is the identity. |
| Flux.FluxSchedule | src/xsctcf.c:343-345 | Validation fails exactly when the configuration is not acceptable, and then reports every failing check. On success the bounds are multiples of the step, and the morning boundary lies in `[0, 2400)` before the night boundary. |
| Flux.ScheduleOf | src/xsctcf.c:358-360 | The rounded bounds are multiples of the step, each within half a step of the configured bound. |
| Flux.DefaultSchedule | src/xsctcf.h:39-48 | The defaults give the schedule 3500 K / 6000 K, 10:00 / 22:00 with step 1, so the night target lies below the day target. |
| Flux.PhaseAt | src/xsctcf.c:362 | Day is exactly the half-open window `[morning, night)` of the clock; it is empty when the night boundary does not come after the morning one. |
| Flux.TargetAt | src/xsctcf.c:362 | The target is one of the two rounded bounds: the high one inside `[morning, night)`, the low one outside it (see also `Flux.DayWindow` and `Flux.SampleTargets`). |
| Flux.DayWindow | src/xsctcf.c:362 | With ordered boundaries, day (the high target) is exactly `[morning, night)`. The morning boundary is day and the night boundary is night. |
| Flux.InvertedBoundsAlwaysNight | src/xsctcf.c:362 | Without that ordering, there is no day at all. |
| Flux.SampleTargets | src/xsctcf.c:362 | With boundaries 1000 and 2200: 05:00 and 22:00 select the low target, and 15:00 the high one. |
| Flux.StepToward | src/xsctcf.c:363 | The step is `d`, `-d` or 0. It is 0 exactly at the target and positive exactly below it. |
| Flux.Steps | src/xsctcf.c:372-381 | The pushes are empty exactly when the loop starts at the target. Otherwise the first push is one step past the start and the last is the target. |
| Flux.StepsWalk | src/xsctcf.c:372-381 | Each push is the previous one plus the step, and every push lies strictly past the start and not beyond the target. |
| Flux.InnerRun | src/xsctcf.c:372-381 | The loop ends at the target with a non-zero step, having pushed the target last. Already at the target, it makes one push of the unchanged temperature and sets the step to the step distance. Otherwise it walks by the step without overshooting. |
| Flux.InnerLoop | src/xsctcf.c:372-381 | The loop as written terminates and computes `InnerRun`. |
| Flux.MultiplesReach | src/xsctcf.c:358-363 | Between two multiples of the step, stepping by the step lands exactly, so the loop's exit test is met. |
| Flux.SampleStepping | src/xsctcf.c:372-381 | From 3500 K to 6000 K by 500 K the pushes are 4000, 4500, 5000, 5500, 6000. |
| Flux.FluxStart | src/xsctcf.c:356-363 | The loop starts from the estimate rounded to within half a step, aimed at the target for the first clock reading. |
| Flux.FluxEntry | src/xsctcf.c:342-363 | The flux branch stops before its loop exactly when `loadConfig` crashes on a line, or when the loaded configuration fails validation, with every failing check reported. Otherwise the schedule is the one derived from the loaded configuration (rounded bounds, folded times, step, brightness), and the loop starts ready from the estimate rounded to the step, aimed at the target for the clock, with a proper day window. |
| Flux.FluxEntryGuarded | src/xsctcf.c:205-208 | With the corrected line handling only validation can stop the branch, and the result agrees with `Flux.FluxEntry` whenever that reaches the loop. On success the schedule is derived from the guarded configuration, brightness included, and the loop starts from the rounded estimate. |
| Flux.BareKeyStopsFlux | src/xsctcf.c:342-345 | A configuration file holding only `USER_MIN` stops the flux branch with the NULL-token crash; with the corrected handling it runs the default schedule. |
| Flux.FluxPass | src/xsctcf.c:356-386 | One pass ends at the target chosen on the previous pass, having pushed it last. Away from the target the pushes walk from the old temperature by `STEP_DIST` steps. Every push lies between the old temperature and that target and carries the configured brightness `USER_BRIGHT`. The next target comes from this pass's clock reading, and readiness is preserved. |
| Flux.TargetOnePassLate | src/xsctcf.c:366-368 | A clock reading takes effect one pass later, whatever the clock reads then. |
| Flux.SteadyPassRefreshes | src/xsctcf.c:372-384 | At the target, with the clock on the same side of the boundaries, a pass pushes the temperature once and leaves the state as it was. |
| Flux.FluxRun | src/xsctcf.c:356-386 | After any non-empty run of passes the temperature sits at one of the two bounds, and every push carries the configured brightness. |
| Flux.FluxRunNoOvershoot | src/xsctcf.c:365-386 | No push ever leaves the span of the starting temperature and the two bounds. |
| Cli.Parse | src/xsctcf.c:309-340 | Switches, once set, stay set. `--verbose`, `--delta` and `--chinese-flux` are set only when an argument spells them; `--help` is also set by a missing option value or a surplus argument (see `Cli.MissingScreenValue`, `Cli.PositionalArguments`). A temperature away from the sentinel and a non-negative brightness are never overwritten. |
| Cli.MentionsIffSome | src/xsctcf.c:311-340 | "Some argument spells the switch", as the scan's contracts state it, holds exactly when there is an index whose argument spells it. |
| Cli.SwitchesOnly | src/xsctcf.c:312-315 | Over switches alone, the scan sets exactly the switches that occur. |
| Cli.OptionTakesNext | src/xsctcf.c:316-333 | `--screen` and `--crtc` take the next argument, whatever it is, as their value, and the scan resumes after it. |
| Cli.PositionalStep | src/xsctcf.c:334-339 | An argument that is not an option becomes the temperature while that is the sentinel, else the brightness while that is negative, and otherwise asks for the usage text. |
| Cli.SurplusArguments | src/xsctcf.c:336-339 | Once temperature and brightness are taken, any further argument that is not an option asks for the usage text and changes nothing else. |
| Cli.PositionalArguments | src/xsctcf.c:334-339 | Over arguments that are not options, the first is read by `atoi` as the temperature, the second by `atof` as the brightness, and a third asks for the usage text. |
| Cli.ParseTemperatureAndBrightness | src/xsctcf.c:334-335 | A printed temperature followed by a brightness is read back as both. |
| Cli.MissingScreenValue | src/xsctcf.c:316-333 | `-s` or `--crtc` with nothing after it asks for the usage text. |
| Cli.ScreenSwallowsNext | src/xsctcf.c:316-324 | `-s` takes the next argument even when it looks like a switch. |
| Cli.Requested | src/xsctcf.c:412-419 | An absolute request of 0 means 6500 K. One in `(0, 700)` becomes 700 K, and one of at least 700 K is kept. |
| Cli.RequestedIdempotent | src/xsctcf.c:412-419 | Resolving an already resolved request changes nothing. |
| Cli.Shifted | src/xsctcf.c:427-432 | A shift gives `max(estimate + delta, 700)` and keeps the screen's brightness. |
| Cli.ShiftsCompose | src/xsctcf.c:427-432 | Two shifts that stay above the floor add up. |
| Cli.ShiftUndone | src/xsctcf.c:427-432 | A shift that stays above the floor is undone by the opposite shift. |
| Cli.ModeOf | src/xsctcf.c:401-436 | A negative temperature without `--delta` only reports. Otherwise the request is either absolute, at the temperature `Requested` resolves, with a warning exactly for `(0, 700)` and brightness 1.0 unless one was given, or a shift by the argument. |
| Cli.PlanOf | src/xsctcf.c:342-403 | Flux mode wins over everything, then the usage text, then the screen check. A one-shot run covers exactly the requested screen, or every screen when none was requested. |
| Cli.NoArgumentsReport | src/xsctcf.h:36 | With no arguments the temperature stays at the negative sentinel, so every screen is only reported. |
| Cli.SampleRequests | src/xsctcf.c:412-419 | `0` sets 6500 K on every screen, and `200` sets 700 K with a warning. |
| Cli.BareDeltaPinsFloor | src/xsctcf.c:425-432 | `-d` without a value shifts by `DELTA_MIN`, which pins every screen whose estimate lies below 1,000,700 K to 700 K. A higher estimate, which the formula of `get_sct_for_screen` can produce for a blue-only ramp, is only lowered by 1,000,000 K. |
| Cli.DeltaKeepsScreenBrightness | src/xsctcf.c:427-432 | In delta mode the brightness argument is ignored, and each screen keeps its own. |
| Cli.OneShotActions | src/xsctcf.c:404-436 | The loop visits the screens from `first` to `last` in order, once each, and gives each the action of its mode. In delta mode no applied temperature is below 700 K. |

## Left out

- Cli.PositionalArguments: requires that the first argument does not read
  as the sentinel `DELTA_MIN` and the second not as a negative brightness;
  in those cases the next argument is read again in the same role, which
  `Cli.PositionalStep` states argument by argument.
- X11 and XRandR calls (opening the display, screen resources, reading and
  writing gamma ramps): foreign I/O. Only the index rule they use and the
  arithmetic around them are modelled.
- `log`, `exp` and `atof`: floating-point library functions, taken as
  parameters. Doubles are modelled as exact reals.
- The file-system side of `loadConfig`: `HOME`, the 256-byte path buffer,
  `access`/`fopen`, and the 100-byte `fgets` chunks. These are I/O. A file
  is a sequence of lines, each one `fgets` chunk.
- `time`, `localtime`, `sleep`, `usleep` and the endless `while(1)`: the
  clock is an input, and the loop is modelled pass by pass (`FluxPass`,
  `FluxRun` over a finite sequence of clock readings).
- `usage`, the debug output and process exit codes. They produce output
  only.
- CString.Atoi: does not model overflow beyond the 32-bit `int` range,
  which is undefined behaviour in C. The contract states the no-digit and
  sign cases; the value is pinned down by the round trip `AtoiShow`.
- Config.Fold: does not model 32-bit overflow of `hour * 100 + minute`.
- Cli.Shifted: does not model 32-bit overflow of `tempd.temp += temp.temp`,
  which is undefined behaviour in C; the sum is an unbounded integer.
- Flux.RoundToStep: does not model 32-bit overflow of `x + STEP_DIST / 2`
  and of the product with `STEP_DIST`, which are undefined behaviour in C;
  the arithmetic is on unbounded integers.
- Flux.RoundToStep: the rounding window is stated for non-negative
  temperatures only. A negative estimate cannot occur, and the configured
  bounds are above 100 once validated.
- Flux.InnerRun: requires the start and the target to lie on the same step
  grid. The C loop would run forever, with wrap-around, otherwise. The
  rounding always establishes this (`Flux.MultiplesReach`).
- Gamma.EstimateScreen: states only the brightness range. The temperature
  formula is transcendental and goes through the `exp` parameter.
- Gamma.Ramp: the `(unsigned short)` cast is modelled as truncation of a
  non-negative real. No overflow is possible in range.

## Findings

| source | as written | input that shows it | evidently intended | confidence | as-written member | corrected member |
|---|---|---|---|---|---|---|
| src/xsctcf.c:205-208 | `trim(strtok(...))` runs before the test `if (!(param && value)) continue;`, so `trim` dereferences the NULL that `strtok` returns for a line with fewer than two `=`-separated fields | the configuration line `USER_MIN` (also `USER_MIN=` and `=5`) | a line without both a key and a value is skipped, as the NULL test intends | not executed | Config.BareKeyCrashes | Config.ApplyLineGuarded |
