/** The colour side of the program as far as it is not transcendental
    floating point: the three-way clamp `DoubleTrim`, the per-channel gamma
    scales (with `log` a parameter), the ramp fill as an idealised real
    function, the control flow of the temperature estimate (with `exp` a
    parameter), and the choice of CRTCs both directions use. */
module Gamma {
  import opened Constants

  // ---------------------------------------------------------------------------
  // DoubleTrim
  // ---------------------------------------------------------------------------

  /** `DoubleTrim`: pick entry `(x > a) + (x > b)` of `{a, x, b}`. */
  function DoubleTrim(x: real, a: real, b: real): (r: real)
    ensures r == a || r == x || r == b
    ensures a <= b ==> a <= r <= b
  {
    var buff := [a, x, b];
    buff[(if x > a then 1 else 0) + (if x > b then 1 else 0)]
  }

  function Min(x: real, y: real): real {
    if x <= y then x else y
  }

  function Max(x: real, y: real): real {
    if x >= y then x else y
  }

  /** With ordered bounds the index selection is the usual clamp. */
  lemma DoubleTrimIsClamp(x: real, a: real, b: real)
    requires a <= b
    ensures DoubleTrim(x, a, b) == Min(Max(x, a), b)
    ensures x <= a ==> DoubleTrim(x, a, b) == a
    ensures a < x <= b ==> DoubleTrim(x, a, b) == x
    ensures x > b ==> DoubleTrim(x, a, b) == b
  {
  }

  predicate InUnit(x: real) {
    0.0 <= x <= 1.0
  }

  // ---------------------------------------------------------------------------
  // Forward model: temperature to channel scales and ramps
  // ---------------------------------------------------------------------------

  // gamma = K0 + K1 * ln(T - T0); green and blue below the neutral point ...
  const K0GR: real := -1.47751309139817
  const K1GR: real := 0.28590164772055
  const K0BR: real := -4.38321650114872
  const K1BR: real := 0.6212158769447
  // ... red and green above it.
  const K0RB: real := 1.75390204039018
  const K1RB: real := -0.1150805671482
  const K0GB: real := 1.49221604915144
  const K1GB: real := -0.07513509588921

  datatype Scales = Scales(red: real, green: real, blue: real)

  /** The gamma scale of each channel for a temperature, as `sct_for_screen`
      computes it; `ln` stands for the C library's `log` and is only applied
      to positive arguments. */
  function ChannelScales(temp: int, ln: real -> real): (g: Scales)
    ensures InUnit(g.red) && InUnit(g.green) && InUnit(g.blue)
    ensures temp < TemperatureNorm ==> g.red == 1.0
    ensures temp >= TemperatureNorm ==> g.blue == 1.0
    ensures temp <= TemperatureZero ==> g.green == 0.0 && g.blue == 0.0
  {
    var t := temp as real;
    if temp < TemperatureNorm then
      if temp > TemperatureZero then
        var x := ln(t - TemperatureZero as real);
        Scales(1.0, DoubleTrim(K0GR + K1GR * x, 0.0, 1.0), DoubleTrim(K0BR + K1BR * x, 0.0, 1.0))
      else
        Scales(1.0, 0.0, 0.0)
    else
      var x := ln(t - (TemperatureNorm - TemperatureZero) as real);
      Scales(DoubleTrim(K0RB + K1RB * x, 0.0, 1.0), DoubleTrim(K0GB + K1GB * x, 0.0, 1.0), 1.0)
  }

  /** C's conversion of a `double` to an integer type: truncation toward zero. */
  function CTruncate(v: real): (n: int)
    ensures v >= 0.0 ==> n as real <= v < n as real + 1.0
  {
    if v >= 0.0 then v.Floor else -((-v).Floor)
  }

  /** Entry `i` of a ramp of `size` entries at brightness `b` and channel
      scale `scale`, computed over the reals. */
  function RampEntry(b: real, scale: real, i: nat, size: nat): int
    requires i < size
  {
    CTruncate(GammaMult * b * (i as real) / (size as real) * scale + 0.5)
  }

  /** A product of non-negative reals is non-negative. */
  lemma MulNonNegative(x: real, y: real)
    requires 0.0 <= x && 0.0 <= y
    ensures 0.0 <= x * y
  {
  }

  /** The level before scaling grows with the index and stays below full scale. */
  lemma RampLevelBounds(b: real, i: nat, j: nat, size: nat)
    requires InUnit(b) && i <= j < size
    ensures 0.0 <= GammaMult * b * (i as real) / (size as real)
    ensures GammaMult * b * (i as real) / (size as real) <= GammaMult * b * (j as real) / (size as real)
    ensures GammaMult * b * (j as real) / (size as real) < GammaMult
  {
    var n := size as real;
    var gb := GammaMult * b;
    MulNonNegative(GammaMult, b);
    MulNonNegative(GammaMult, 1.0 - b);
    assert 0.0 <= gb <= GammaMult;
    MulNonNegative(gb, i as real);
    MulNonNegative(gb, (j - i) as real);
    assert gb * (i as real) <= gb * (j as real);
    MulNonNegative(GammaMult - gb, j as real);
    assert gb * (j as real) <= GammaMult * (j as real);
    assert GammaMult * (j as real) < GammaMult * n;
    DivNonNegative(gb * (i as real), n);
    DivMonotone(gb * (i as real), gb * (j as real), n);
    DivBelow(gb * (j as real), GammaMult, n);
  }

  lemma DivNonNegative(x: real, n: real)
    requires 0.0 <= x && 0.0 < n
    ensures 0.0 <= x / n
  {
  }

  lemma DivMonotone(x: real, y: real, n: real)
    requires x <= y && 0.0 < n
    ensures x / n <= y / n
  {
  }

  lemma DivBelow(x: real, m: real, n: real)
    requires x < m * n && 0.0 < n
    ensures x / n < m
  {
  }

  /** Scaling by a factor in [0, 1] keeps order and the bound. */
  lemma ScaledLevelBounds(l1: real, l2: real, scale: real)
    requires 0.0 <= l1 <= l2 < GammaMult && InUnit(scale)
    ensures 0.0 <= l1 * scale <= l2 * scale < GammaMult
  {
    MulNonNegative(l1, scale);
    MulNonNegative(l2 - l1, scale);
    MulNonNegative(l2, 1.0 - scale);
  }

  /** Entries of one ramp are ordered like their indices and fit 16 bits. */
  lemma RampEntryBounds(b: real, scale: real, i: nat, j: nat, size: nat)
    requires InUnit(b) && InUnit(scale) && i <= j < size
    ensures 0 <= RampEntry(b, scale, i, size) <= RampEntry(b, scale, j, size) <= 65535
  {
    var li := GammaMult * b * (i as real) / (size as real);
    var lj := GammaMult * b * (j as real) / (size as real);
    RampLevelBounds(b, i, j, size);
    ScaledLevelBounds(li, lj, scale);
    assert 0.5 <= li * scale + 0.5 <= lj * scale + 0.5 < 65535.5;
  }

  /** The channel ramp of one CRTC. */
  function Ramp(b: real, scale: real, size: nat): (r: seq<int>)
    requires InUnit(b) && InUnit(scale)
    ensures |r| == size
    ensures forall i :: 0 <= i < size ==> 0 <= r[i] <= 65535
    ensures forall i, j :: 0 <= i <= j < size ==> r[i] <= r[j]
  {
    var r := seq(size, i requires 0 <= i < size => RampEntry(b, scale, i, size));
    assert forall i, j :: 0 <= i <= j < size ==> 0 <= r[i] <= r[j] <= 65535 by {
      forall i, j | 0 <= i <= j < size ensures 0 <= r[i] <= r[j] <= 65535 {
        RampEntryBounds(b, scale, i, j, size);
      }
    }
    assert forall i :: 0 <= i < size ==> 0 <= r[i] <= 65535 by {
      forall i | 0 <= i < size ensures 0 <= r[i] <= 65535 {
        RampEntryBounds(b, scale, i, i, size);
      }
    }
    r
  }

  /** The three channel ramps written for one temperature and brightness. */
  datatype Ramps = Ramps(red: seq<int>, green: seq<int>, blue: seq<int>)

  /** The ramps `sct_for_screen` writes to a CRTC whose ramp has `size` entries. */
  function ScreenRamps(status: TempStatus, size: nat, ln: real -> real): (r: Ramps)
    ensures |r.red| == |r.green| == |r.blue| == size
    ensures forall i :: 0 <= i < size ==> 0 <= r.red[i] <= 65535 && 0 <= r.green[i] <= 65535 && 0 <= r.blue[i] <= 65535
    ensures forall i, j :: 0 <= i <= j < size ==> r.red[i] <= r.red[j] && r.green[i] <= r.green[j] && r.blue[i] <= r.blue[j]
    ensures status.temp <= TemperatureZero ==> forall i :: 0 <= i < size ==> r.green[i] == 0 && r.blue[i] == 0
  {
    var b := DoubleTrim(status.brightness, 0.0, 1.0);
    var g := ChannelScales(status.temp, ln);
    Ramps(Ramp(b, g.red, size), Ramp(b, g.green, size), Ramp(b, g.blue, size))
  }

  // ---------------------------------------------------------------------------
  // CRTC selection
  // ---------------------------------------------------------------------------

  /** Whether CRTC `c` lies in the range `(first, count)`. */
  predicate Chosen(r: (nat, nat), c: int) {
    r.0 <= c < r.0 + r.1
  }

  /** The CRTCs a call works on, as `(first, count)`: the one asked for when it
      exists, otherwise all of them. */
  function CrtcRange(icrtc: int, ncrtc: nat): (r: (nat, nat))
    ensures r.0 + r.1 <= ncrtc
    ensures forall c :: Chosen(r, c) <==> if 0 <= icrtc < ncrtc then c == icrtc else 0 <= c < ncrtc
  {
    if 0 <= icrtc < ncrtc then (icrtc, 1) else (0, ncrtc)
  }

  // ---------------------------------------------------------------------------
  // Inverse model: estimate from the top ramp entries
  // ---------------------------------------------------------------------------

  /** The last (brightest) entry of each channel ramp of one CRTC. */
  datatype Endpoint = Endpoint(red: int, green: int, blue: int)

  function Sum(xs: seq<int>): (s: int)
    ensures (forall k :: 0 <= k < |xs| ==> xs[k] == 0) ==> s == 0
  {
    if |xs| == 0 then 0 else Sum(xs[..|xs| - 1]) + xs[|xs| - 1]
  }

  /** The estimate from the channel sums over `n` CRTCs: a blank ramp gives
      temperature 0; otherwise the channels are normalised by the largest, and
      `exp` (a parameter standing for the C library) inverts the forward model. */
  function EstimateFromSums(r: real, g: real, b: real, n: int, exp: real -> real): (t: TempStatus)
    ensures InUnit(t.brightness)
    ensures Max(Max(r, g), b) <= 0.0 || n <= 0 ==> t.temp == 0
    ensures Max(Max(r, g), b) > 0.0 && n > 0 && (forall x :: exp(x) > 0.0) ==> t.temp >= TemperatureZero
  {
    var bright := if b > (if r > g then r else g) then b else (if r > g then r else g);
    if bright > 0.0 && n > 0 then
      var k := Kelvin(r, g, b, bright, exp);
      var brightness := DoubleTrim(bright / (n as real) / BrightnessDiv, 0.0, 1.0);
      RoundedAtLeastZero(k);
      TempStatus(CTruncate(k + 0.5), brightness)
    else
      RoundedAtLeastZero(0.0);
      TempStatus(CTruncate(0.0 + 0.5), DoubleTrim(bright, 0.0, 1.0))
  }

  /** The inverse of the colour model on the channel sums normalised by the
      largest of them, `bright`: the temperature before rounding. */
  function Kelvin(r: real, g: real, b: real, bright: real, exp: real -> real): (t: real)
    requires bright > 0.0
    ensures (forall x :: exp(x) > 0.0) ==> t >= TemperatureZero as real
  {
    var gr := r / bright;
    var gg := g / bright;
    var gb := b / bright;
    var gd := gb - gr;
    var zero := TemperatureZero as real;
    if gd < 0.0 then
      if gb > 0.0 then exp((gg + 1.0 + gd - (K0GR + K0BR)) / (K1GR + K1BR)) + zero
      else if gg > 0.0 then exp((gg - K0GR) / K1GR) + zero
      else zero
    else exp((gg + 1.0 - gd - (K0GB + K0RB)) / (K1GB + K1RB)) + (TemperatureNorm - TemperatureZero) as real
  }

  /** Rounding half up keeps a temperature of at least 700 K at least 700 K. */
  lemma RoundedAtLeastZero(k: real)
    ensures k >= TemperatureZero as real ==> CTruncate(k + 0.5) >= TemperatureZero
    ensures k == 0.0 ==> CTruncate(k + 0.5) == 0
  {
  }

  /** `get_sct_for_screen`: sum the top entries over the selected CRTCs of a
      screen, `tops[c]` being CRTC `c`'s, and estimate from the sums. */
  function EstimateScreen(tops: seq<Endpoint>, icrtc: int, exp: real -> real): (t: TempStatus)
    ensures InUnit(t.brightness)
  {
    var (first, count) := CrtcRange(icrtc, |tops|);
    var sel := tops[first..first + count];
    EstimateFromSums(Sum(seq(count, k requires 0 <= k < count => sel[k].red)) as real,
                     Sum(seq(count, k requires 0 <= k < count => sel[k].green)) as real,
                     Sum(seq(count, k requires 0 <= k < count => sel[k].blue)) as real,
                     count, exp)
  }

  /** A screen whose ramps all end in zero reads as temperature 0 and brightness 0. */
  lemma BlankScreenEstimate(tops: seq<Endpoint>, icrtc: int, exp: real -> real)
    requires forall c :: 0 <= c < |tops| ==> tops[c] == Endpoint(0, 0, 0)
    ensures EstimateScreen(tops, icrtc, exp) == TempStatus(0, 0.0)
  {
    var (first, count) := CrtcRange(icrtc, |tops|);
    var sel := tops[first..first + count];
    assert forall k :: 0 <= k < count ==> sel[k] == tops[first + k];
  }
}
