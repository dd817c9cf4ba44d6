/**
 * The rule validator (src/rule/rule.validator.js): each trigger names the
 * fields it needs; every missing one appends its message to one string, and
 * the rule is valid exactly when that string stays empty.
 */
module RuleValidator {
  import opened Wrappers
  import opened Rules

  const NO_START_TIME := "No start time specified"
  const NO_DURATION := "No duration specified"
  const NO_CRONJOBS := "Couldn't create start/stop autmatic, please contact support"
  const NO_INTERVAL := "No interval specified"
  const NO_ON_VALUE := "No threshold 'on' specified"
  const NO_OFF_VALUE := "No threshold 'off' specified"
  const NO_SENSOR := "No sensor specified"
  const NO_DURATION_MS := "No duration (ms) specified"

  /** `msg` when the field is missing, nothing otherwise. */
  function Missing(present: bool, msg: string): string
  {
    if present then "" else msg
  }

  /** A threshold rule is bound to a sensor only with all three of sensor, detector type and detector id. */
  predicate SensorBound(rule: Rule)
  {
    rule.sensor.Some? && rule.forDetector.Some? && rule.detectorId.Some?
  }

  /** How a template literal renders the trigger: an absent one reads "undefined", a null one "null". */
  function Shown(t: Trigger): string
  {
    match t
    case NoTrigger => "undefined"
    case NullTrigger => "null"
    case Kind(name) => name
  }

  function UnknownTrigger(rule: Rule): string
  {
    "Rule trigger " + Shown(rule.trigger) + " not known"
  }

  /** `base`: the accumulated message, in the order the fields are checked. */
  function Base(rule: Rule): (err: string)
    ensures rule.trigger == Kind("alwaysOn") ==> err == ""
    ensures !KnownTrigger(rule.trigger) ==> err == UnknownTrigger(rule)
  {
    match rule.trigger
    case Kind("timeOnOff") =>
      Missing(rule.startTime.Some?, NO_START_TIME) + Missing(rule.durationHOn.Some?, NO_DURATION)
      + Missing(rule.cronjobs.Some?, NO_CRONJOBS)
    case Kind("interval") =>
      Missing(rule.onPattern.Some?, NO_INTERVAL) + Missing(rule.durationMSOn.Some?, NO_DURATION)
    case Kind("thresholdOnOff") =>
      Missing(rule.onValue.Number?, NO_ON_VALUE) + Missing(rule.offValue.Number?, NO_OFF_VALUE)
      + Missing(SensorBound(rule), NO_SENSOR)
    case Kind("thresholdTimer") =>
      Missing(rule.onValue.Number?, NO_ON_VALUE) + Missing(rule.durationMSOn.Some?, NO_DURATION_MS)
      + Missing(SensorBound(rule), NO_SENSOR)
    case Kind("thresholdOff") =>
      Missing(rule.offValue.Number?, NO_OFF_VALUE) + Missing(SensorBound(rule), NO_SENSOR)
    case Kind("alwaysOn") => ""
    case _ => UnknownTrigger(rule)
  }

  predicate KnownTrigger(t: Trigger)
  {
    t.Kind? && t.name in {"timeOnOff", "interval", "thresholdOnOff", "thresholdTimer", "thresholdOff", "alwaysOn"}
  }

  /**
   * The fields each trigger needs, as a table independent of the message
   * building: a rule is complete when its trigger is known and every field
   * that trigger names is present.
   */
  predicate Complete(rule: Rule)
  {
    match rule.trigger
    case Kind("timeOnOff") => rule.startTime.Some? && rule.durationHOn.Some? && rule.cronjobs.Some?
    case Kind("interval") => rule.onPattern.Some? && rule.durationMSOn.Some?
    case Kind("thresholdOnOff") => rule.onValue.Number? && rule.offValue.Number? && SensorBound(rule)
    case Kind("thresholdTimer") => rule.onValue.Number? && rule.durationMSOn.Some? && SensorBound(rule)
    case Kind("thresholdOff") => rule.offValue.Number? && SensorBound(rule)
    case Kind("alwaysOn") => true
    case _ => false
  }

  /** The pre-save hook: the rule passes iff `base` accumulated nothing, else it fails with that message. */
  function Validate(rule: Rule): (r: Outcome)
    ensures r.Pass? <==> Complete(rule)
    ensures r.Fail? ==> r.error == Base(rule) && r.error != ""
  {
    CompleteIffEmpty(rule);
    if Base(rule) == "" then Pass else Fail(Base(rule))
  }

  lemma MissingEmpty(present: bool, msg: string)
    requires msg != ""
    ensures Missing(present, msg) == "" <==> present
  {
  }

  lemma ConcatEmpty(a: string, b: string)
    ensures a + b == "" <==> a == "" && b == ""
  {
    if a + b == "" {
      assert |a + b| == |a| + |b|;
    }
  }

  /** The message is empty exactly when the rule is complete. */
  lemma CompleteIffEmpty(rule: Rule)
    ensures Base(rule) == "" <==> Complete(rule)
  {
    MissingEmpty(rule.startTime.Some?, NO_START_TIME);
    MissingEmpty(rule.durationHOn.Some?, NO_DURATION);
    MissingEmpty(rule.cronjobs.Some?, NO_CRONJOBS);
    MissingEmpty(rule.onPattern.Some?, NO_INTERVAL);
    MissingEmpty(rule.durationMSOn.Some?, NO_DURATION);
    MissingEmpty(rule.onValue.Number?, NO_ON_VALUE);
    MissingEmpty(rule.offValue.Number?, NO_OFF_VALUE);
    MissingEmpty(SensorBound(rule), NO_SENSOR);
    MissingEmpty(rule.durationMSOn.Some?, NO_DURATION_MS);
    var a := Missing(rule.onValue.Number?, NO_ON_VALUE);
    var c := Missing(SensorBound(rule), NO_SENSOR);
    match rule.trigger
    case Kind("timeOnOff") =>
      var x := Missing(rule.startTime.Some?, NO_START_TIME);
      var y := Missing(rule.durationHOn.Some?, NO_DURATION);
      ConcatEmpty(x, y);
      ConcatEmpty(x + y, Missing(rule.cronjobs.Some?, NO_CRONJOBS));
    case Kind("interval") =>
      ConcatEmpty(Missing(rule.onPattern.Some?, NO_INTERVAL), Missing(rule.durationMSOn.Some?, NO_DURATION));
    case Kind("thresholdOnOff") =>
      var b := Missing(rule.offValue.Number?, NO_OFF_VALUE);
      ConcatEmpty(a, b);
      ConcatEmpty(a + b, c);
    case Kind("thresholdTimer") =>
      var b := Missing(rule.durationMSOn.Some?, NO_DURATION_MS);
      ConcatEmpty(a, b);
      ConcatEmpty(a + b, c);
    case Kind("thresholdOff") =>
      ConcatEmpty(Missing(rule.offValue.Number?, NO_OFF_VALUE), c);
    case _ =>
  }

  /** A threshold rule without its sensor binding always ends its message with 'No sensor specified'. */
  lemma {:induction false} UnboundThresholdRule(rule: Rule)
    requires rule.trigger.Kind? && rule.trigger.name in {"thresholdOnOff", "thresholdTimer", "thresholdOff"}
    requires !SensorBound(rule)
    ensures |Base(rule)| >= |NO_SENSOR| && Base(rule)[|Base(rule)| - |NO_SENSOR|..] == NO_SENSOR
    ensures Validate(rule).Fail?
  {
    var e := Base(rule);
    var p := e[..|e| - |NO_SENSOR|];
    assert e == p + NO_SENSOR;
  }

  /** A rule without a trigger is refused naming it undefined, one whose trigger is stored as null naming it null. */
  lemma MissingTriggerMessage(rule: Rule)
    requires rule.trigger.NoTrigger? || rule.trigger.NullTrigger?
    ensures rule.trigger.NoTrigger? ==> Validate(rule) == Fail("Rule trigger undefined not known")
    ensures rule.trigger.NullTrigger? ==> Validate(rule) == Fail("Rule trigger null not known")
  {
  }

  /** A timeOnOff rule with nothing set collects all three of its messages, unseparated. */
  lemma EmptyTimeRule(rule: Rule)
    requires rule.trigger == Kind("timeOnOff") && rule.startTime.None? && rule.durationHOn.None? && rule.cronjobs.None?
    ensures Validate(rule) == Fail(NO_START_TIME + NO_DURATION + NO_CRONJOBS)
  {
  }
}
