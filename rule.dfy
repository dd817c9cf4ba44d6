/**
 * A rule document: what switches a relay, and when. Every field of the stored
 * document may be absent, hence the Options; the two thresholds and the
 * trigger also tell a stored null from an absent field, because JavaScript
 * compares and prints them apart.
 */
module Rules {
  import opened Wrappers

  type Id = string

  /** A local time of day, as moment reads it from a stored date (time zones are not modelled). */
  datatype Clock = Clock(hour: int, minute: int, second: int)

  predicate ValidClock(c: Clock)
  {
    0 <= c.hour < 24 && 0 <= c.minute < 60 && 0 <= c.second < 60
  }

  /** A Number path of a stored document: absent (undefined), stored as null, or a number. */
  datatype Num = Undefined | Null | Number(value: real)

  /**
   * The number a relational operator sees: undefined becomes NaN, so no
   * comparison with it holds (None), and null becomes 0.
   */
  function Numeric(n: Num): Option<real>
  {
    match n
    case Undefined => None
    case Null => Some(0.0)
    case Number(v) => Some(v)
  }

  /** The trigger path of a stored document: absent (undefined), stored as null, or a name. */
  datatype Trigger = NoTrigger | NullTrigger | Kind(name: string)

  datatype Rule = Rule(
    id: Option<Id>,
    /** timeOnOff, interval, thresholdOnOff, thresholdTimer, thresholdOff or alwaysOn. */
    trigger: Trigger,
    /** 'pump' gets special treatment by the threshold engine. */
    device: Option<string>,
    sensor: Option<Id>,
    forDetector: Option<string>,
    detectorId: Option<Id>,
    startTime: Option<Clock>,
    durationHOn: Option<int>,
    cronjobs: Option<seq<Id>>,
    onPattern: Option<string>,
    durationMSOn: Option<int>,
    durationMBlocked: Option<int>,
    onValue: Num,
    offValue: Num,
    nightOff: Option<bool>,
    relay: Option<Id>)

  /** The thresholds as the comparisons of the threshold engine see them. */
  function OnValue(rule: Rule): Option<real> { Numeric(rule.onValue) }
  function OffValue(rule: Rule): Option<real> { Numeric(rule.offValue) }

  predicate IsPump(rule: Rule)
  {
    rule.device == Some("pump")
  }
}
