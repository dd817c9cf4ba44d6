/**
 * The sensor framework (src/sensor/sensor.class.js): a sensor with its
 * detectors, each detector smoothing its readings, keeping a short history,
 * and applying its threshold rules; pushes to the front end and writes to the
 * database are rate limited per detector.
 */
module Sensors {
  import opened Wrappers
  import opened Seqs
  import opened SensorHistory
  import opened Rules
  import opened RuleEngine
  import RS = RelayService
  import opened Clocks

  const READ_INTERVAL := 1000
  const WRITE_INTERVAL := 5000
  const DEFAULT_PUSH_INTERVAL := 5000
  const DEFAULT_ADJUST_VALUES := 5

  /** `modes`: how many earlier values smooth a reading, or whether a Kalman filter does. */
  datatype Modes = Modes(adjustValues: Option<int>, kalman: bool)

  datatype DetectorOptions = DetectorOptions(id: Id, kind: string, round: bool)

  datatype SensorOptions = SensorOptions(
    id: Option<Id>, model: Option<string>, detectors: Option<seq<DetectorOptions>>,
    technology: Option<string>, address: Option<int>, modes: Option<Modes>)

  predicate Truthy(s: Option<string>) { s.Some? && s.value != "" }

  /** The constructor's checks, in order; each failure is thrown with its message. */
  function CheckSensorOptions(o: SensorOptions): (r: Outcome)
    ensures r.Pass? <==>
      Truthy(o.id) && Truthy(o.model) && o.detectors.Some? && |o.detectors.value| > 0
      && (o.technology == Some("i2c") ==> o.address.Some? && o.address.value != 0)
    ensures r.Fail? && o.detectors.Some? && |o.detectors.value| > 0 && Truthy(o.id) && Truthy(o.model) ==>
      r.error == "Address is required"
  {
    if !Truthy(o.id) then Fail("Id is required")
    else if !Truthy(o.model) then Fail("Model is required")
    else if o.detectors.None? || |o.detectors.value| == 0 then Fail("At least one detector is required")
    else if o.technology == Some("i2c") && (o.address.None? || o.address.value == 0) then Fail("Address is required")
    else Pass
  }

  /** Modes the options name, else five values of smoothing. */
  function ModesOf(o: SensorOptions): (m: Modes)
    ensures o.modes.None? ==> m.adjustValues == Some(DEFAULT_ADJUST_VALUES) && !m.kalman
  {
    if o.modes.Some? then o.modes.value else Modes(Some(DEFAULT_ADJUST_VALUES), false)
  }

  /** The smoothing windows the source can run with: `reduce` on an empty slice throws. */
  predicate ModesUsable(m: Modes)
  {
    m.adjustValues.Some? ==> m.adjustValues.value >= 1
  }

  // ------------------------------------------------------------ rate limits

  /** checkPush / checkWrite: there was none before, or at least `interval` ms have passed. */
  predicate Due(last: Option<int>, now: int, interval: int)
  {
    last.None? || now - last.value >= interval
  }

  /** The times at which a rate limit lets readings arriving at `times` through. */
  function Accepted(last: Option<int>, times: seq<int>, interval: int): seq<int>
    decreases |times|
  {
    if |times| == 0 then []
    else if Due(last, times[0], interval) then [times[0]] + Accepted(Some(times[0]), times[1..], interval)
    else Accepted(last, times[1..], interval)
  }

  /** Any two let-through times lie at least `interval` apart, and after the last stamp. */
  lemma {:induction false} AcceptedSpaced(last: Option<int>, times: seq<int>, interval: int)
    requires interval >= 0
    decreases |times|
    ensures forall i :: 0 < i < |Accepted(last, times, interval)| ==>
      Accepted(last, times, interval)[i] - Accepted(last, times, interval)[i - 1] >= interval
    ensures last.Some? ==> forall i :: 0 <= i < |Accepted(last, times, interval)| ==>
      Accepted(last, times, interval)[i] - last.value >= interval
  {
    if |times| > 0 {
      if Due(last, times[0], interval) {
        AcceptedSpaced(Some(times[0]), times[1..], interval);
        var t := Accepted(Some(times[0]), times[1..], interval);
        assert Accepted(last, times, interval) == [times[0]] + t;
      } else {
        AcceptedSpaced(last, times[1..], interval);
      }
    }
  }

  /** Push intervals by time unit: 5 s, a minute or an hour; any other unit has none. */
  function IntervalFor(unit: string): (r: Option<int>)
    ensures r.Some? <==> unit in {"seconds", "minutes", "hours"}
    ensures unit == "seconds" ==> r == Some(5 * ONE_SECOND_IN_MILLISECONDS)
    ensures unit == "minutes" ==> r == Some(ONE_MINUTE_IN_MILLISECONDS)
    ensures unit == "hours" ==> r == Some(ONE_HOUR_IN_MILLISECONDS)
  {
    match unit
    case "seconds" => Some(5 * ONE_SECOND_IN_MILLISECONDS)
    case "minutes" => Some(ONE_MINUTE_IN_MILLISECONDS)
    case "hours" => Some(ONE_HOUR_IN_MILLISECONDS)
    case _ => None
  }

  /** The length of one time unit, as moment's `add` and `diff` count it. */
  function UnitMs(unit: string): (ms: int)
    requires unit in {"seconds", "minutes", "hours"}
    ensures ms > 0
  {
    if unit == "seconds" then ONE_SECOND_IN_MILLISECONDS
    else if unit == "minutes" then ONE_MINUTE_IN_MILLISECONDS
    else ONE_HOUR_IN_MILLISECONDS
  }

  // ------------------------------------------------------------ smoothing

  /** adjustValue's result: once `n` values are buffered, the mean of the reading and the last `n`. */
  function Smoothed(buffer: seq<real>, v: real, n: int): real
    requires n >= 1
  {
    if |buffer| >= n then (v + Sum(buffer[|buffer| - n..])) / ((n + 1) as real) else v
  }

  /** adjustValue's buffer: the result pushed, and the oldest shifted off once more than `n` are held. */
  function SmoothedBuffer(buffer: seq<real>, v: real, n: int): seq<real>
    requires n >= 1
  {
    if |buffer| >= n then buffer[1..] + [Smoothed(buffer, v, n)] else buffer + [v]
  }

  /** The buffer fills up to `n` values and then keeps exactly `n`, the newest last. */
  lemma SmoothedBufferLength(buffer: seq<real>, v: real, n: int)
    requires n >= 1
    ensures |buffer| < n ==> |SmoothedBuffer(buffer, v, n)| == |buffer| + 1
    ensures |buffer| >= n ==> |SmoothedBuffer(buffer, v, n)| == |buffer|
    ensures |buffer| <= n ==> |SmoothedBuffer(buffer, v, n)| <= n
    ensures SmoothedBuffer(buffer, v, n)[|SmoothedBuffer(buffer, v, n)| - 1] == Smoothed(buffer, v, n)
  {
  }

  /** The sum of values that all lie in [lo, hi] lies in [k lo, k hi] for k values. */
  lemma {:induction false} SumWithin(s: seq<real>, lo: real, hi: real)
    requires forall i :: 0 <= i < |s| ==> lo <= s[i] <= hi
    ensures (|s| as real) * lo <= Sum(s) <= (|s| as real) * hi
  {
    if |s| > 0 {
      SumWithin(s[..|s| - 1], lo, hi);
    }
  }

  /** Smoothing never leaves the range of the values it averages. */
  lemma SmoothedWithin(buffer: seq<real>, v: real, n: int, lo: real, hi: real)
    requires n >= 1 && lo <= v <= hi
    requires forall i :: 0 <= i < |buffer| ==> lo <= buffer[i] <= hi
    ensures lo <= Smoothed(buffer, v, n) <= hi
  {
    if |buffer| >= n {
      var w := buffer[|buffer| - n..];
      SumWithin(w, lo, hi);
      var d := (n + 1) as real;
      var t := v + Sum(w);
      assert d * lo <= t <= d * hi;
      DivWithin(t, d, lo, hi);
    }
  }

  lemma DivWithin(t: real, d: real, lo: real, hi: real)
    requires d > 0.0 && d * lo <= t <= d * hi
    ensures lo <= t / d <= hi
  {
    assert t / d * d == t;
  }

  /** Five ones and a reading of 10 smooth to 2.5. */
  lemma SmoothedExample()
    ensures Smoothed([1.0, 1.0, 1.0, 1.0, 1.0], 10.0, 5) == 2.5
  {
    var b := [1.0, 1.0, 1.0, 1.0, 1.0];
    assert b[0..] == b;
    assert Sum([1.0]) == 1.0;
    assert Sum([1.0, 1.0]) == 2.0 by { assert [1.0, 1.0][..1] == [1.0]; }
    assert Sum([1.0, 1.0, 1.0]) == 3.0 by { assert [1.0, 1.0, 1.0][..2] == [1.0, 1.0]; }
    assert Sum([1.0, 1.0, 1.0, 1.0]) == 4.0 by { assert [1.0, 1.0, 1.0, 1.0][..3] == [1.0, 1.0, 1.0]; }
    assert Sum(b) == 5.0 by { assert b[..4] == [1.0, 1.0, 1.0, 1.0]; }
  }

  /** JavaScript's Math.round: halves round up. */
  function Round(x: real): (r: real)
    ensures x - 0.5 < r <= x + 0.5
    ensures r == (r.Floor as real)
  {
    (x + 0.5).Floor as real
  }

  /** The value a reading becomes before it is stored: smoothed or filtered, then rounded if asked. */
  function Processed(m: Modes, buffer: seq<real>, x: real, kalmanValue: real, round: bool): real
    requires ModesUsable(m)
  {
    var v := if m.adjustValues.Some? then Smoothed(buffer, x, m.adjustValues.value)
             else if m.kalman then kalmanValue else x;
    if round then Round(v) else v
  }

  // ------------------------------------------------------------ the classes

  /** One measured quantity of a sensor (temperature, humidity, water, co2, ...). */
  class Detector {
    const id: Id
    const kind: string
    const round: bool
    var history: seq<Sample>
    var shortBuffer: seq<real>
    var currentValue: Option<Sample>
    var rules: seq<Rule>
    var lastPush: Option<int>
    var lastWrite: Option<int>

    /** What the rest of the sensor relies on: a bounded history, and each rule names its relay. */
    predicate Valid()
      reads this
    {
      |history| <= HISTORY_LENGTH && forall k :: 0 <= k < |rules| ==> rules[k].relay.Some?
    }

    constructor (o: DetectorOptions)
      ensures id == o.id && kind == o.kind && round == o.round
      ensures history == [] && shortBuffer == [] && currentValue == None && rules == []
      ensures lastPush == None && lastWrite == None && Valid()
    {
      id := o.id;
      kind := o.kind;
      round := o.round;
      history := [];
      shortBuffer := [];
      currentValue := None;
      rules := [];
      lastPush := None;
      lastWrite := None;
    }
  }

  /** Which stored rules a detector applies: its sensor's, for its type, and threshold triggers only. */
  predicate RuleFor(sensorId: Id, kind: string, r: Rule)
  {
    r.sensor == Some(sensorId) && r.forDetector == Some(kind)
    && (r.trigger == Kind("thresholdOnOff") || r.trigger == Kind("thresholdTimer"))
  }

  /** The result of processSensorValue. */
  datatype Reading =
    | NotANumber
    | Stored(value: real, applied: seq<Applied>, pushed: bool, written: bool)

  class Sensor {
    const id: Id
    const model: string
    const technology: Option<string>
    const address: Option<int>
    const detectors: seq<Detector>
    const modes: Modes
    var timeUnit: string
    var pushInterval: int

    /** The time unit is a known one and the push interval is that unit's. */
    predicate Valid()
      reads this
    {
      ModesUsable(modes) && IntervalFor(timeUnit) == Some(pushInterval)
    }

    constructor (o: SensorOptions, ds: seq<Detector>)
      requires CheckSensorOptions(o).Pass? && ModesUsable(ModesOf(o))
      ensures id == o.id.value && model == o.model.value && technology == o.technology
      ensures address == (if o.technology == Some("i2c") then o.address else None)
      ensures detectors == ds && modes == ModesOf(o)
      ensures timeUnit == "seconds" && pushInterval == DEFAULT_PUSH_INTERVAL && Valid()
    {
      id := o.id.value;
      model := o.model.value;
      technology := o.technology;
      address := if o.technology == Some("i2c") then o.address else None;
      detectors := ds;
      modes := ModesOf(o);
      timeUnit := "seconds";
      pushInterval := DEFAULT_PUSH_INTERVAL;
    }

    /** checkWrite: true, and the stamp moves to now, iff a write is due. */
    method CheckWrite(d: Detector, now: int) returns (ok: bool)
      modifies d`lastWrite
      ensures ok == Due(old(d.lastWrite), now, WRITE_INTERVAL)
      ensures d.lastWrite == if ok then Some(now) else old(d.lastWrite)
    {
      ok := Due(d.lastWrite, now, WRITE_INTERVAL);
      if ok {
        d.lastWrite := Some(now);
      }
    }

    /** checkPush: the same against the push interval of the current time unit. */
    method CheckPush(d: Detector, now: int) returns (ok: bool)
      modifies d`lastPush
      ensures ok == Due(old(d.lastPush), now, pushInterval)
      ensures d.lastPush == if ok then Some(now) else old(d.lastPush)
    {
      ok := Due(d.lastPush, now, pushInterval);
      if ok {
        d.lastPush := Some(now);
      }
    }

    /**
     * changeSensorTimeUnit: a known unit sets it and its push interval; any
     * other unit is refused and changes nothing.
     */
    method ChangeSensorTimeUnit(unit: string) returns (r: Outcome)
      requires Valid()
      modifies this`timeUnit, this`pushInterval
      ensures Valid()
      ensures r.Pass? <==> IntervalFor(unit).Some?
      ensures r.Pass? ==> timeUnit == unit && pushInterval == IntervalFor(unit).value
      ensures r.Fail? ==> r.error == "Time unit is not valid" && timeUnit == old(timeUnit) && pushInterval == old(pushInterval)
    {
      var interval := IntervalFor(unit);
      if interval.None? {
        return Fail("Time unit is not valid");
      }
      pushInterval := interval.value;
      timeUnit := unit;
      r := Pass;
    }

    /** adjustValue: smooth `v` against the detector's buffer and update the buffer. */
    method AdjustValue(d: Detector, v: real) returns (r: real)
      requires modes.adjustValues.Some? && modes.adjustValues.value >= 1
      modifies d`shortBuffer
      ensures r == Smoothed(old(d.shortBuffer), v, modes.adjustValues.value)
      ensures d.shortBuffer == SmoothedBuffer(old(d.shortBuffer), v, modes.adjustValues.value)
    {
      var n := modes.adjustValues.value;
      if |d.shortBuffer| >= n {
        r := (v + Sum(d.shortBuffer[|d.shortBuffer| - n..])) / ((n + 1) as real);
        d.shortBuffer := d.shortBuffer + [r];
        if |d.shortBuffer| > n {
          d.shortBuffer := d.shortBuffer[1..];
        }
      } else {
        r := v;
        d.shortBuffer := d.shortBuffer + [v];
      }
    }

    /**
     * initRules: the detector applies the stored rules meant for it. On a
     * failed query the source sets the rules to undefined; the model gives
     * the detector no rules instead.
     */
    method InitRules(d: Detector, stored: Result<seq<Rule>>)
      requires stored.Ok? ==> forall k :: 0 <= k < |stored.value| ==> stored.value[k].relay.Some?
      requires d.Valid()
      modifies d`rules
      ensures d.Valid()
      ensures stored.Err? ==> d.rules == []
      ensures stored.Ok? ==> d.rules == Filter(stored.value, (r: Rule) => RuleFor(id, d.kind, r))
    {
      if stored.Err? {
        d.rules := [];
      } else {
        d.rules := Filter(stored.value, (r: Rule) => RuleFor(id, d.kind, r));
        assert forall k :: 0 <= k < |d.rules| ==> d.rules[k] in stored.value;
      }
    }

    /**
     * processSensorValue: a reading that is not a number changes nothing.
     * Otherwise the reading is smoothed (or filtered) and rounded, becomes
     * the detector's current value, the rules are applied to it, and then,
     * when due, it joins the history and is written.
     */
    method ProcessSensorValue(d: Detector, newValue: Option<real>, kalmanValue: real, svc: RS.RelayService,
                              now: int, hour: int, replies: seq<Replies>) returns (r: Reading)
      requires Valid() && d.Valid() && svc.Valid() && |replies| == |d.rules|
      modifies d`shortBuffer, d`currentValue, d`history, d`lastPush, d`lastWrite
      modifies svc.relays, RS.ControllersOf(svc.relays)
      ensures d.Valid() && svc.Valid() && svc.relays == old(svc.relays)
      ensures newValue.None? ==> r == NotANumber && RS.StatesOf(svc.relays) == old(RS.StatesOf(svc.relays))
      ensures newValue.None? ==> unchanged(svc.relays) && unchanged(RS.ControllersOf(svc.relays))
      ensures newValue.None? ==>
        d.shortBuffer == old(d.shortBuffer) && d.currentValue == old(d.currentValue) && d.history == old(d.history)
        && d.lastPush == old(d.lastPush) && d.lastWrite == old(d.lastWrite)
      ensures newValue.Some? ==>
        r.Stored? && r.value == Processed(modes, old(d.shortBuffer), newValue.value, kalmanValue, d.round)
        && d.currentValue == Some(Sample(now, r.value))
      ensures newValue.Some? ==>
        d.shortBuffer == if modes.adjustValues.Some?
          then SmoothedBuffer(old(d.shortBuffer), newValue.value, modes.adjustValues.value)
          else old(d.shortBuffer)
      ensures r.Stored? ==>
        |r.applied| == |d.rules|
        && (forall k {:trigger r.applied[k]} :: 0 <= k < |d.rules| ==> Entry(svc.relays, d.rules[k], r.value, now, r.applied[k]))
        && RS.StatesOf(svc.relays) == StatesAfter(svc.relays, d.rules, r.value, r.applied, old(RS.StatesOf(svc.relays)))
        && RS.OwnersOf(svc.relays) == OwnersAfter(svc.relays, d.rules, r.value, r.applied, old(RS.OwnersOf(svc.relays)), d.id)
      ensures r.Stored? ==>
        r.pushed == Due(old(d.lastPush), now, pushInterval)
        && d.lastPush == (if r.pushed then Some(now) else old(d.lastPush))
        && d.history == (if r.pushed then Pushed(old(d.history), Sample(now, r.value)) else old(d.history))
      ensures r.Stored? ==>
        r.written == Due(old(d.lastWrite), now, WRITE_INTERVAL)
        && d.lastWrite == (if r.written then Some(now) else old(d.lastWrite))
      ensures old(svc.MasksTrackRelays()) && !(r.Stored? && SomeWriteFailed(r.applied)) ==> svc.MasksTrackRelays()
    {
      if newValue.None? {
        return NotANumber;
      }
      var v, applied := Measure(d, newValue.value, kalmanValue, svc, now, hour, replies);
      var pushed, written := Log(d, now, svc);
      r := Stored(v, applied, pushed, written);
    }

    /** The first half of processSensorValue: the processed reading becomes the current value, and the rules see it. */
    method Measure(d: Detector, x: real, kalmanValue: real, svc: RS.RelayService, now: int, hour: int, replies: seq<Replies>)
      returns (v: real, applied: seq<Applied>)
      requires Valid() && d.Valid() && svc.Valid() && |replies| == |d.rules|
      modifies d`shortBuffer, d`currentValue
      modifies svc.relays, RS.ControllersOf(svc.relays)
      ensures d.Valid() && svc.Valid() && svc.relays == old(svc.relays)
      ensures unchanged(d`history, d`lastPush, d`lastWrite)
      ensures v == Processed(modes, old(d.shortBuffer), x, kalmanValue, d.round) && d.currentValue == Some(Sample(now, v))
      ensures d.shortBuffer == if modes.adjustValues.Some?
        then SmoothedBuffer(old(d.shortBuffer), x, modes.adjustValues.value)
        else old(d.shortBuffer)
      ensures |applied| == |d.rules|
      ensures forall k {:trigger applied[k]} :: 0 <= k < |d.rules| ==> Entry(svc.relays, d.rules[k], v, now, applied[k])
      ensures RS.StatesOf(svc.relays) == StatesAfter(svc.relays, d.rules, v, applied, old(RS.StatesOf(svc.relays)))
      ensures RS.OwnersOf(svc.relays) == OwnersAfter(svc.relays, d.rules, v, applied, old(RS.OwnersOf(svc.relays)), d.id)
      ensures old(svc.MasksTrackRelays()) && !SomeWriteFailed(applied) ==> svc.MasksTrackRelays()
    {
      ghost var st, ms, ow := RS.StatesOf(svc.relays), RS.MasksOf(svc.relays), RS.OwnersOf(svc.relays);
      v := Prepare(d, x, kalmanValue, now);
      assert RS.StatesOf(svc.relays) == st && RS.MasksOf(svc.relays) == ms && RS.OwnersOf(svc.relays) == ow;
      label Prepared:
      applied := ApplyRules(svc, d.rules, d.id, v, now, hour, replies);
      assert unchanged@Prepared(d);
    }

    /** The async.parallel of processSensorValue: the history push and the database write, each when due. */
    method Log(d: Detector, now: int, svc: RS.RelayService) returns (pushed: bool, written: bool)
      requires d.Valid() && d.currentValue.Some? && svc.Valid()
      modifies d`history, d`lastPush, d`lastWrite
      ensures d.Valid() && svc.Valid()
      ensures old(svc.MasksTrackRelays()) ==> svc.MasksTrackRelays()
      ensures RS.StatesOf(svc.relays) == old(RS.StatesOf(svc.relays))
      ensures RS.OwnersOf(svc.relays) == old(RS.OwnersOf(svc.relays))
      ensures pushed == Due(old(d.lastPush), now, pushInterval)
      ensures d.lastPush == (if pushed then Some(now) else old(d.lastPush))
      ensures d.history == (if pushed then Pushed(old(d.history), d.currentValue.value) else old(d.history))
      ensures written == Due(old(d.lastWrite), now, WRITE_INTERVAL)
      ensures d.lastWrite == (if written then Some(now) else old(d.lastWrite))
    {
      ghost var st, ms, ow := RS.StatesOf(svc.relays), RS.MasksOf(svc.relays), RS.OwnersOf(svc.relays);
      pushed := PushHistory(d, now);
      written := CheckWrite(d, now);
      assert RS.StatesOf(svc.relays) == st;
      assert RS.MasksOf(svc.relays) == ms;
      assert RS.OwnersOf(svc.relays) == ow;
    }

    /** The reading smoothed (or filtered) and rounded becomes the detector's current value. */
    method Prepare(d: Detector, x: real, kalmanValue: real, now: int) returns (v: real)
      requires Valid()
      modifies d`shortBuffer, d`currentValue
      ensures v == Processed(modes, old(d.shortBuffer), x, kalmanValue, d.round)
      ensures d.currentValue == Some(Sample(now, v))
      ensures d.shortBuffer == if modes.adjustValues.Some?
        then SmoothedBuffer(old(d.shortBuffer), x, modes.adjustValues.value)
        else old(d.shortBuffer)
    {
      v := x;
      if modes.adjustValues.Some? {
        v := AdjustValue(d, v);
      } else if modes.kalman {
        v := kalmanValue;
      }
      if d.round {
        v := Round(v);
      }
      d.currentValue := Some(Sample(now, v));
    }

    /** The push branch: when a push is due, the current value joins the history. */
    method PushHistory(d: Detector, now: int) returns (pushed: bool)
      requires d.Valid() && d.currentValue.Some?
      modifies d`history, d`lastPush
      ensures d.Valid()
      ensures pushed == Due(old(d.lastPush), now, pushInterval)
      ensures d.lastPush == (if pushed then Some(now) else old(d.lastPush))
      ensures d.history == (if pushed then Pushed(old(d.history), d.currentValue.value) else old(d.history))
    {
      pushed := CheckPush(d, now);
      if pushed {
        PushedFacts(d.history, d.currentValue.value);
        d.history := Pushed(d.history, d.currentValue.value);
      }
    }

    /**
     * filterSensorHistory on stored readings (at least one): newest first,
     * keep each reading more than one whole unit before the last one kept,
     * at most 30, returned oldest first.
     */
    method FilterSensorHistory(data: seq<DataItem>) returns (r: seq<Sample>)
      requires Valid() && |data| >= 1
      ensures r == FilteredHistory(data, UnitMs(timeUnit))
    {
      var unitMs := UnitMs(timeUnit);
      var sorted := NewestFirst(data);
      var kept := CoalesceLoop(sorted, sorted[0].timestamp + 5 * unitMs, unitMs);
      ghost var all := kept;
      assert all[..|all|] == all;
      if |kept| > HISTORY_LENGTH {
        kept := kept[..HISTORY_LENGTH];
      }
      assert kept == all[..if |all| < HISTORY_LENGTH then |all| else HISTORY_LENGTH];
      r := Reverse(Samples(kept));
    }
  }

  /** The forEach over the readings, newest first, with `lastEntry` as the cursor. */
  method CoalesceLoop(sorted: seq<DataItem>, start: int, unitMs: int) returns (kept: seq<DataItem>)
    requires unitMs > 0
    ensures kept == Coalesce(sorted, start, unitMs)
  {
    var lastEntry := start;
    kept := [];
    var i := 0;
    assert sorted[0..] == sorted;
    while i < |sorted|
      invariant 0 <= i <= |sorted|
      invariant kept + Coalesce(sorted[i..], lastEntry, unitMs) == Coalesce(sorted, start, unitMs)
    {
      CoalesceAt(sorted, i, lastEntry, unitMs);
      if TruncDiv(lastEntry - sorted[i].timestamp, unitMs) > 1 {
        assert kept + ([sorted[i]] + Coalesce(sorted[i + 1..], sorted[i].timestamp, unitMs))
          == (kept + [sorted[i]]) + Coalesce(sorted[i + 1..], sorted[i].timestamp, unitMs);
        kept := kept + [sorted[i]];
        lastEntry := sorted[i].timestamp;
      }
      i := i + 1;
    }
    assert sorted[i..] == [] && kept + [] == kept;
  }
}
