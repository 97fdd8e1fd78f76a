/**
 The values a zone holds, and how ApplyValues merges a computed target into them: a
 field group that the target leaves at zero keeps its current value.
 */
module ZoneRecord {
  import opened Canonical

  /** A composed target: what computers produce and ApplyValues accepts. */
  datatype Values = Values(
    state: ZoneState, brightness: Brightness, brightnessValue: real,
    colorTemp: ColorTemp, kelvin: int, color: string)

  const NO_VALUES := Values(StateUnspecified, BrightnessUnspecified, 0.0, ColorTempUnspecified, 0, "")

  datatype Zone = Zone(
    state: ZoneState, brightness: Brightness, brightnessValue: real,
    colorTemp: ColorTemp, kelvin: int, color: string)

  const FRESH_ZONE := Zone(StateUnspecified, BrightnessUnspecified, 0.0, ColorTempUnspecified, 0, "")

  // --------------------------------------------------------------- the setters

  function SetBrightness(z: Zone, b: Brightness): Zone {
    z.(brightness := b, brightnessValue := BrightnessCanonical(b))
  }

  function SetBrightnessValue(z: Zone, v: real): Zone {
    z.(brightness := BrightnessNearestEnum(v), brightnessValue := v)
  }

  function SetColorTemp(z: Zone, c: ColorTemp): Zone {
    z.(colorTemp := c, kelvin := ColorTempCanonical(c))
  }

  function SetKelvin(z: Zone, k: int): Zone {
    z.(colorTemp := ColorTempNearestEnum(k), kelvin := k)
  }

  // ------------------------------------------------------------------ ApplyValues

  predicate SetsState(v: Values) { v.state != StateUnspecified }

  predicate SetsBrightness(v: Values) { v.brightnessValue > 0.0 || v.brightness != BrightnessUnspecified }

  predicate SetsColorTemp(v: Values) { v.kelvin > 0 || v.colorTemp != ColorTempUnspecified }

  predicate SetsColor(v: Values) { v.color != "" }

  predicate SetsSomething(v: Values) {
    SetsState(v) || SetsBrightness(v) || SetsColorTemp(v) || SetsColor(v)
  }

  function MergeState(z: Zone, v: Values): Zone {
    if SetsState(v) then z.(state := v.state) else z
  }

  function MergeBrightness(z: Zone, v: Values): Zone {
    if v.brightnessValue > 0.0 then SetBrightnessValue(z, v.brightnessValue)
    else if v.brightness != BrightnessUnspecified then SetBrightness(z, v.brightness)
    else z
  }

  function MergeColorTemp(z: Zone, v: Values): Zone {
    if v.kelvin > 0 then SetKelvin(z, v.kelvin)
    else if v.colorTemp != ColorTempUnspecified then SetColorTemp(z, v.colorTemp)
    else z
  }

  function MergeColor(z: Zone, v: Values): Zone {
    if SetsColor(v) then z.(color := v.color) else z
  }

  function Merge(z: Zone, v: Values): Zone {
    MergeColor(MergeColorTemp(MergeBrightness(MergeState(z, v), v), v), v)
  }

  /** The flush raises a zone without a state to Off. */
  function Raise(z: Zone): Zone {
    if z.state == StateUnspecified then z.(state := Off) else z
  }

  /** The zone after a successful ApplyValues call; nothing set means nothing flushed. */
  function ApplyTo(z: Zone, v: Values): Zone {
    if SetsSomething(v) then Raise(Merge(z, v)) else z
  }

  /** Applying a target twice is applying it once. */
  lemma ApplyIdempotent(z: Zone, v: Values)
    ensures ApplyTo(ApplyTo(z, v), v) == ApplyTo(z, v)
  {
  }

  function BrightnessOf(v: Values): (Brightness, real) {
    if v.brightnessValue > 0.0 then (BrightnessNearestEnum(v.brightnessValue), v.brightnessValue)
    else (v.brightness, BrightnessCanonical(v.brightness))
  }

  function ColorTempOf(v: Values): (ColorTemp, int) {
    if v.kelvin > 0 then (ColorTempNearestEnum(v.kelvin), v.kelvin)
    else (v.colorTemp, ColorTempCanonical(v.colorTemp))
  }

  /** A zone whose field groups are those of `z`, except where `v` sets them. */
  predicate Overlaid(z: Zone, v: Values, z': Zone) {
    && (z'.brightness, z'.brightnessValue)
       == (if SetsBrightness(v) then BrightnessOf(v) else (z.brightness, z.brightnessValue))
    && (z'.colorTemp, z'.kelvin) == (if SetsColorTemp(v) then ColorTempOf(v) else (z.colorTemp, z.kelvin))
    && z'.color == (if SetsColor(v) then v.color else z.color)
    && z'.state == (if SetsState(v) then v.state
                    else if SetsSomething(v) && z.state == StateUnspecified then Off
                    else z.state)
  }

  lemma ApplyOverlays(z: Zone, v: Values)
    ensures Overlaid(z, v, ApplyTo(z, v))
  {
  }

  /** Where both targets set a field group, they set it to the same value. */
  predicate Agrees(v: Values, w: Values) {
    && (SetsState(v) && SetsState(w) ==> v.state == w.state)
    && (SetsBrightness(v) && SetsBrightness(w) ==> BrightnessOf(v) == BrightnessOf(w))
    && (SetsColorTemp(v) && SetsColorTemp(w) ==> ColorTempOf(v) == ColorTempOf(w))
    && (SetsColor(v) && SetsColor(w) ==> v.color == w.color)
  }

  lemma HoldsIffOverlaid(z: Zone, v: Values)
    ensures ApplyTo(z, v) == z <==> Overlaid(z, v, z)
  {
    ApplyOverlays(z, v);
  }

  lemma OverlaidAfter(z: Zone, last: Values, v: Values, z': Zone)
    requires Overlaid(z, last, z) && Overlaid(z, v, z')
    ensures Overlaid(z', last, z') <==> Agrees(v, last)
  {
  }

  /** A zone that holds `last` still holds it after `v` was applied iff the two targets agree. */
  lemma {:induction false} HoldsAfterIffAgrees(z: Zone, last: Values, v: Values)
    requires ApplyTo(z, last) == z
    ensures var z' := ApplyTo(z, v); ApplyTo(z', last) == z' <==> Agrees(v, last)
  {
    var z' := ApplyTo(z, v);
    HoldsIffOverlaid(z, last);
    HoldsIffOverlaid(z', last);
    ApplyOverlays(z, v);
    OverlaidAfter(z, last, v, z');
  }

  // ---------------------------------------------------------- override and undo

  /** Whatever the override sets and the base does not, the zone had already; and it need not be raised to Off. */
  predicate LeavesNoTrace(z: Zone, over: Values, base: Values) {
    && (SetsState(over) && !SetsState(base) ==> z.state == over.state)
    && (SetsBrightness(over) && !SetsBrightness(base) ==> (z.brightness, z.brightnessValue) == BrightnessOf(over))
    && (SetsColorTemp(over) && !SetsColorTemp(base) ==> (z.colorTemp, z.kelvin) == ColorTempOf(over))
    && (SetsColor(over) && !SetsColor(base) ==> z.color == over.color)
    && (SetsSomething(over) ==> z.state != StateUnspecified)
  }

  lemma OverlaidTwice(z: Zone, over: Values, base: Values, z1: Zone, z2: Zone)
    requires Overlaid(z, base, z) && Overlaid(z, over, z1) && Overlaid(z1, base, z2)
    ensures z2 == z <==> LeavesNoTrace(z, over, base)
  {
  }

  /**
   Applying the base again after an override gives the zone back iff the override leaves no trace: the merge
   keeps what an override set and the base leaves unset.
   */
  lemma {:induction false} OverrideUndoneExact(z: Zone, over: Values, base: Values)
    requires ApplyTo(z, base) == z
    ensures ApplyTo(ApplyTo(z, over), base) == z <==> LeavesNoTrace(z, over, base)
  {
    var z1 := ApplyTo(z, over);
    HoldsIffOverlaid(z, base);
    ApplyOverlays(z, over);
    ApplyOverlays(z1, base);
    OverlaidTwice(z, over, base, z1, ApplyTo(z1, base));
  }

  /** A zone that is merely on keeps the colour of an override that is over. */
  lemma OverrideLeavesColor(color: string)
    requires color != ""
    ensures var z, base := FRESH_ZONE.(state := On), NO_VALUES.(state := On);
            && ApplyTo(z, base) == z
            && ApplyTo(ApplyTo(z, NO_VALUES.(color := color)), base).color == color
  {
  }
}
