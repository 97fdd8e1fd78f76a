/**
 The discrete brightness and colour temperature steps, their continuous values, and the
 device-native units. Floating point is modelled by `real`.
 */
module Canonical {

  datatype ZoneState = StateUnspecified | On | Off | OffTimer | Color | RandomColor

  datatype Brightness = BrightnessUnspecified | VeryLow | Low | LowPlus | Dim | DimPlus | Full

  datatype ColorTemp = ColorTempUnspecified | FirstLight | Morning | Day | LateAfternoon | Evening

  /** Rounds half away from zero, as math.Round does. */
  function Round(x: real): int {
    if x >= 0.0 then (x + 0.5).Floor else -((-x + 0.5).Floor)
  }

  lemma RoundMonotone(x: real, y: real)
    requires x <= y
    ensures Round(x) <= Round(y)
  {
  }

  lemma RoundOfInt(n: int)
    ensures Round(n as real) == n
  {
    assert (n as real + 0.5).Floor == n;
    assert ((-n) as real + 0.5).Floor == -n;
  }

  /** Rounding moves a value by at most a half. */
  lemma RoundNearest(x: real)
    ensures -0.5 <= Round(x) as real - x <= 0.5
  {
  }

  lemma ProductNonNegative(x: real, y: real)
    requires x >= 0.0 && y >= 0.0
    ensures x * y >= 0.0
  {
  }

  function AbsReal(x: real): real {
    if x < 0.0 then -x else x
  }

  function AbsInt(x: int): int {
    if x < 0 then -x else x
  }

  // The tables, in the order in which the searches walk them.

  const BRIGHTNESS_STEPS: seq<Brightness> := [VeryLow, Low, LowPlus, Dim, DimPlus, Full]

  const COLOR_TEMP_STEPS: seq<ColorTemp> := [FirstLight, Morning, Day, LateAfternoon, Evening]

  function BrightnessCanonical(b: Brightness): real {
    match b
    case BrightnessUnspecified => 0.0
    case VeryLow => 70.0 / 254.0
    case Low => 90.0 / 254.0
    case LowPlus => 95.0 / 254.0
    case Dim => 110.0 / 254.0
    case DimPlus => 125.0 / 254.0
    case Full => 1.0
  }

  function ColorTempCanonical(c: ColorTemp): int {
    match c
    case ColorTempUnspecified => 0
    case FirstLight => 10000
    case Morning => 5000
    case Day => 3333
    case LateAfternoon => 2500
    case Evening => 2000
  }

  /** `b` is the step nearest to `v`, the earlier one on a tie; nothing is near a value that is not positive. */
  ghost predicate IsNearestBrightness(v: real, b: Brightness) {
    if v <= 0.0 then b == BrightnessUnspecified
    else exists i ::
           && 0 <= i < |BRIGHTNESS_STEPS| && BRIGHTNESS_STEPS[i] == b
           && (forall j :: 0 <= j < |BRIGHTNESS_STEPS| ==> BrightnessDistance(v, i) <= BrightnessDistance(v, j))
           && (forall j :: 0 <= j < i ==> BrightnessDistance(v, i) < BrightnessDistance(v, j))
  }

  function BrightnessDistance(v: real, i: nat): real
    requires i < |BRIGHTNESS_STEPS|
  {
    AbsReal(v - BrightnessCanonical(BRIGHTNESS_STEPS[i]))
  }

  function NearestBrightnessFrom(v: real, best: nat, i: nat): Brightness
    requires best < |BRIGHTNESS_STEPS| && i <= |BRIGHTNESS_STEPS|
    decreases |BRIGHTNESS_STEPS| - i
  {
    if i == |BRIGHTNESS_STEPS| then BRIGHTNESS_STEPS[best]
    else if BrightnessDistance(v, i) < BrightnessDistance(v, best) then NearestBrightnessFrom(v, i, i + 1)
    else NearestBrightnessFrom(v, best, i + 1)
  }

  function BrightnessNearestEnum(v: real): Brightness {
    if v <= 0.0 then BrightnessUnspecified else NearestBrightnessFrom(v, 0, 1)
  }

  function ColorTempDistance(k: int, i: nat): int
    requires i < |COLOR_TEMP_STEPS|
  {
    AbsInt(k - ColorTempCanonical(COLOR_TEMP_STEPS[i]))
  }

  /** The same for colour temperatures. */
  ghost predicate IsNearestColorTemp(k: int, c: ColorTemp) {
    if k <= 0 then c == ColorTempUnspecified
    else exists i ::
           && 0 <= i < |COLOR_TEMP_STEPS| && COLOR_TEMP_STEPS[i] == c
           && (forall j :: 0 <= j < |COLOR_TEMP_STEPS| ==> ColorTempDistance(k, i) <= ColorTempDistance(k, j))
           && (forall j :: 0 <= j < i ==> ColorTempDistance(k, i) < ColorTempDistance(k, j))
  }

  function NearestColorTempFrom(k: int, best: nat, i: nat): ColorTemp
    requires best < |COLOR_TEMP_STEPS| && i <= |COLOR_TEMP_STEPS|
    decreases |COLOR_TEMP_STEPS| - i
  {
    if i == |COLOR_TEMP_STEPS| then COLOR_TEMP_STEPS[best]
    else if ColorTempDistance(k, i) < ColorTempDistance(k, best) then NearestColorTempFrom(k, i, i + 1)
    else NearestColorTempFrom(k, best, i + 1)
  }

  function ColorTempNearestEnum(k: int): ColorTemp {
    if k <= 0 then ColorTempUnspecified else NearestColorTempFrom(k, 0, 1)
  }

  /** The search loop over the brightness table finds the nearest step. */
  method NearestBrightness(v: real) returns (b: Brightness)
    ensures b == BrightnessNearestEnum(v)
    ensures IsNearestBrightness(v, b)
  {
    if v <= 0.0 {
      return BrightnessUnspecified;
    }
    var best, bestDist := 0, BrightnessDistance(v, 0);
    for i := 1 to |BRIGHTNESS_STEPS|
      invariant best < i && bestDist == BrightnessDistance(v, best)
      invariant forall j :: 0 <= j < i ==> bestDist <= BrightnessDistance(v, j)
      invariant forall j :: 0 <= j < best ==> bestDist < BrightnessDistance(v, j)
      invariant BrightnessNearestEnum(v) == NearestBrightnessFrom(v, best, i)
    {
      var d := BrightnessDistance(v, i);
      if d < bestDist {
        best, bestDist := i, d;
      }
    }
    return BRIGHTNESS_STEPS[best];
  }

  /** The search loop over the colour temperature table finds the nearest step. */
  method NearestColorTemp(k: int) returns (c: ColorTemp)
    ensures c == ColorTempNearestEnum(k)
    ensures IsNearestColorTemp(k, c)
  {
    if k <= 0 {
      return ColorTempUnspecified;
    }
    var best, bestDist := 0, ColorTempDistance(k, 0);
    for i := 1 to |COLOR_TEMP_STEPS|
      invariant best < i && bestDist == ColorTempDistance(k, best)
      invariant forall j :: 0 <= j < i ==> bestDist <= ColorTempDistance(k, j)
      invariant forall j :: 0 <= j < best ==> bestDist < ColorTempDistance(k, j)
      invariant ColorTempNearestEnum(k) == NearestColorTempFrom(k, best, i)
    {
      var d := ColorTempDistance(k, i);
      if d < bestDist {
        best, bestDist := i, d;
      }
    }
    return COLOR_TEMP_STEPS[best];
  }

  function KelvinToMireds(k: int): int {
    if k <= 0 then 0 else Round(1000000.0 / (k as real))
  }

  /** What the device gets for a continuous brightness: 0..254. */
  function BrightnessToDevice(v: real): int {
    Round((if v > 1.0 then 1.0 else v) * 254.0)
  }

  /** The older device tables, still used when no continuous value is set. */
  function LegacyBrightness(b: Brightness): int {
    match b
    case BrightnessUnspecified => 0
    case VeryLow => 70
    case Low => 90
    case LowPlus => 95
    case Dim => 110
    case DimPlus => 125
    case Full => 254
  }

  function LegacyColorTemp(c: ColorTemp): int {
    match c
    case ColorTempUnspecified => 0
    case FirstLight => 100
    case Morning => 200
    case Day => 300
    case LateAfternoon => 300
    case Evening => 500
  }

  /** Going through the continuous value sends the device what the older brightness table sends. */
  lemma BrightnessPathsAgree(b: Brightness)
    ensures BrightnessToDevice(BrightnessCanonical(b)) == LegacyBrightness(b)
  {
  }

  /**
   For the colour temperature the two paths agree except on one step: the older table gives
   LateAfternoon the mireds of Day, while its canonical Kelvin stands for 400.
   */
  lemma ColorTempPathsAgree(c: ColorTemp)
    ensures KelvinToMireds(ColorTempCanonical(c)) == LegacyColorTemp(c) <==> c != LateAfternoon
    ensures KelvinToMireds(ColorTempCanonical(LateAfternoon)) == 400 && LegacyColorTemp(LateAfternoon) == 300
  {
    assert 300.02 < 1000000.0 / 3333.0 < 300.05;
  }

  /** Naming the step of a canonical value gives the step back. */
  lemma {:induction false} NearestOfCanonical(b: Brightness, c: ColorTemp)
    ensures BrightnessNearestEnum(BrightnessCanonical(b)) == b
    ensures ColorTempNearestEnum(ColorTempCanonical(c)) == c
  {
    NearestIsUnique(BrightnessCanonical(b), b);
    ColorTempUnique(c);
  }

  lemma NearestIsUnique(v: real, b: Brightness)
    requires v == BrightnessCanonical(b)
    ensures BrightnessNearestEnum(v) == b
  {
    if b != BrightnessUnspecified {
      var i := match b case VeryLow => 0 case Low => 1 case LowPlus => 2 case Dim => 3 case DimPlus => 4 case Full => 5;
      assert forall j :: 0 <= j < |BRIGHTNESS_STEPS| && j != i ==> BrightnessDistance(v, j) > 0.0;
      SearchFinds(v, 0, 1, i);
    }
  }

  lemma {:induction false} SearchFinds(v: real, best: nat, k: nat, i: nat)
    requires i < |BRIGHTNESS_STEPS| && best < k <= |BRIGHTNESS_STEPS| && (best == i || k <= i)
    requires BrightnessDistance(v, i) == 0.0
    requires forall j :: 0 <= j < |BRIGHTNESS_STEPS| && j != i ==> BrightnessDistance(v, j) > 0.0
    ensures NearestBrightnessFrom(v, best, k) == BRIGHTNESS_STEPS[i]
    decreases |BRIGHTNESS_STEPS| - k
  {
    if k < |BRIGHTNESS_STEPS| {
      SearchFinds(v, if BrightnessDistance(v, k) < BrightnessDistance(v, best) then k else best, k + 1, i);
    }
  }

  lemma ColorTempUnique(c: ColorTemp)
    ensures ColorTempNearestEnum(ColorTempCanonical(c)) == c
  {
    var k := ColorTempCanonical(c);
    if c != ColorTempUnspecified {
      var i := match c case FirstLight => 0 case Morning => 1 case Day => 2 case LateAfternoon => 3 case Evening => 4;
      assert forall j :: 0 <= j < |COLOR_TEMP_STEPS| && j != i ==> ColorTempDistance(k, j) > 0;
      ColorTempSearchFinds(k, 0, 1, i);
    }
  }

  lemma {:induction false} ColorTempSearchFinds(k: int, best: nat, n: nat, i: nat)
    requires i < |COLOR_TEMP_STEPS| && best < n <= |COLOR_TEMP_STEPS| && (best == i || n <= i)
    requires ColorTempDistance(k, i) == 0
    requires forall j :: 0 <= j < |COLOR_TEMP_STEPS| && j != i ==> ColorTempDistance(k, j) > 0
    ensures NearestColorTempFrom(k, best, n) == COLOR_TEMP_STEPS[i]
    decreases |COLOR_TEMP_STEPS| - n
  {
    if n < |COLOR_TEMP_STEPS| {
      ColorTempSearchFinds(k, if ColorTempDistance(k, n) < ColorTempDistance(k, best) then n else best, n + 1, i);
    }
  }
}
