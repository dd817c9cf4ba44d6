/**
 * The Chirp soil-moisture sensor (src/sensor/chirp-sensor.class.js): the
 * label of a water level, and how long the soil stays wet, measured from the
 * last change to a wet level to the next change to dry.
 */
module Chirp {
  import opened Wrappers
  import opened Clocks
  import Sensors

  const STATUS_DRY := 0
  const WATERLEVELS := ["Dry", "Moist", "Wet"]
  const NO_VALID_LEVEL := "No valid waterlevel"

  /** translateToHuman: the level is rounded, and 1, 2, 3 (not 0, 1, 2) name the labels. */
  function TranslateToHuman(waterLevel: real): (name: string)
    ensures name == "Dry" <==> 0.5 <= waterLevel < 1.5
    ensures name == "Moist" <==> 1.5 <= waterLevel < 2.5
    ensures name == "Wet" <==> 2.5 <= waterLevel < 3.5
    ensures name == NO_VALID_LEVEL <==> waterLevel < 0.5 || 3.5 <= waterLevel
  {
    var w := Sensors.Round(waterLevel).Floor;
    if 1 <= w <= |WATERLEVELS| then WATERLEVELS[w - 1] else NO_VALID_LEVEL
  }

  /** A dry reading, 0, has no label. */
  lemma DryReadingHasNoLabel()
    ensures TranslateToHuman(0.0) == NO_VALID_LEVEL
    ensures TranslateToHuman(1.0) == "Dry"
  {
  }

  /** The three fields setWetTimeSpan maintains, as one value. */
  datatype WetState = WetState(lastWaterLevel: Option<int>, startWet: Option<int>, wetTimeSpan: Option<int>)

  /**
   * One call of setWetTimeSpan as a function of the state: nothing on an
   * unchanged level; a wet level restarts the clock; a dry one with the clock
   * started records the whole seconds since then; the level is remembered.
   */
  function WetStep(s: WetState, waterLevel: int, now: int): (r: WetState)
    ensures r.lastWaterLevel == Some(waterLevel)
    ensures s.lastWaterLevel == Some(waterLevel) ==> r == s
    ensures s.lastWaterLevel != Some(waterLevel) && waterLevel > STATUS_DRY ==> r.startWet == Some(now)
    ensures r.startWet != s.startWet ==> waterLevel > STATUS_DRY
    ensures r.wetTimeSpan != s.wetTimeSpan ==> waterLevel == STATUS_DRY && s.startWet.Some?
  {
    if s.lastWaterLevel == Some(waterLevel) then s
    else if waterLevel > STATUS_DRY then WetState(Some(waterLevel), Some(now), s.wetTimeSpan)
    else if waterLevel == STATUS_DRY && s.startWet.Some? then
      WetState(Some(waterLevel), s.startWet, Some(TruncDiv(now - s.startWet.value, 1000)))
    else WetState(Some(waterLevel), s.startWet, s.wetTimeSpan)
  }

  /** The same level twice is the same as once. */
  lemma {:induction false} WetStepIdempotent(s: WetState, waterLevel: int, now: int, later: int)
    ensures WetStep(WetStep(s, waterLevel, now), waterLevel, later) == WetStep(s, waterLevel, now)
  {
  }

  /**
   * Wet at `t0`, dry at `t1`: the span is the whole seconds between the
   * two, and the start is kept.
   */
  lemma WetThenDry(s: WetState, wet: int, t0: int, t1: int)
    requires wet > 0 && s.lastWaterLevel != Some(wet)
    ensures WetStep(WetStep(s, wet, t0), 0, t1) == WetState(Some(0), Some(t0), Some(TruncDiv(t1 - t0, 1000)))
  {
  }

  /** Moist to wet is a change to a wet level, so the clock restarts. */
  lemma MoistToWetRestarts(s: WetState, now: int)
    requires s.lastWaterLevel == Some(2)
    ensures WetStep(s, 3, now).startWet == Some(now)
  {
  }

  /** A dry reading before any wet one records no span. */
  lemma DryFirstRecordsNothing(now: int)
    ensures WetStep(WetState(None, None, None), 0, now) == WetState(Some(0), None, None)
  {
  }

  class ChirpSensor {
    var lastWaterLevel: Option<int>
    var startWet: Option<int>
    var wetTimeSpan: Option<int>

    function State(): WetState
      reads this
    {
      WetState(lastWaterLevel, startWet, wetTimeSpan)
    }

    constructor ()
      ensures State() == WetState(None, None, None)
    {
      lastWaterLevel := None;
      startWet := None;
      wetTimeSpan := None;
    }

    /** setWetTimeSpan, with the moment of the call as `now` (epoch ms). */
    method SetWetTimeSpan(waterLevel: int, now: int)
      modifies this
      ensures State() == WetStep(old(State()), waterLevel, now)
      ensures old(lastWaterLevel) == Some(waterLevel) ==> State() == old(State())
      ensures lastWaterLevel == Some(waterLevel)
    {
      if lastWaterLevel != Some(waterLevel) {
        if waterLevel > STATUS_DRY {
          startWet := Some(now);
        } else if waterLevel == STATUS_DRY && startWet.Some? {
          wetTimeSpan := Some(TruncDiv(now - startWet.value, 1000));
        }
        lastWaterLevel := Some(waterLevel);
      }
    }
  }
}
