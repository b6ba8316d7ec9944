/** The constants of the program header and its `temp_status` record. */
module Constants {

  /** Neutral temperature in Kelvin; the colour model switches regime here. */
  const TemperatureNorm: int := 6500
  /** Lowest temperature that can be displayed. */
  const TemperatureZero: int := 700
  /** Full scale of a 16-bit gamma ramp entry. */
  const GammaMult: real := 65535.0
  /** Calibration divisor turning a summed top ramp entry into a brightness. */
  const BrightnessDiv: real := 65470.988
  /** Sentinel meaning "no temperature argument was given". */
  const DeltaMin: int := -1000000

  // Built-in defaults of the day/night schedule.
  const DefaultUserMin: int := 3500
  const DefaultUserMax: int := 6000
  const DefaultUserBright: real := 1.0
  const DefaultMorningHour: int := 10
  const DefaultMorningMinutes: int := 0
  const DefaultNightHour: int := 22
  const DefaultNightMinutes: int := 0
  /** Seconds between two passes of the schedule. */
  const DefaultTimeSleep: int := 10
  /** Microseconds between two temperature steps. */
  const DefaultStepSleep: int := 50000
  /** Kelvin per temperature step. */
  const DefaultStepDist: int := 1

  /** A temperature together with a brightness, as read from or written to a screen. */
  datatype TempStatus = TempStatus(temp: int, brightness: real)

  /** The sentinel is negative, the reset and the clamp never meet, and the
      default night temperature lies strictly below the default day temperature. */
  lemma ConstantsOrdered()
    ensures DeltaMin < 0
    ensures 0 < TemperatureZero < TemperatureNorm
    ensures 100 < DefaultUserMin < DefaultUserMax
  {
  }
}
