/**
 * The sensor registry (src/sensor/sensor.service.js): the sensors booted
 * from the stored documents, at most one per address, looked up by address
 * and by id.
 */
module SensorService {
  import opened Wrappers
  import opened Seqs
  import opened Text
  import opened Rules
  import opened Sensors

  const MODELS := {"chirp", "hdc1000", "mhz16"}
  const NOT_IDENTIFIED := "Could not identify sensor"
  const ID_REQUIRED := "SensorId is required for this operation"
  const UNIT_REQUIRED := "Time unit is required for this operation"

  /** A stored sensor is constructed only when it is an I2C one at an active address, of a known model. */
  predicate Constructed(o: SensorOptions, active: seq<int>)
  {
    o.technology == Some("i2c") && o.address.Some? && o.address.value in active
    && o.model.Some? && o.model.value in MODELS
  }

  /** What booting the stored sensors decides: which become sensors, and how the series ends. */
  datatype BootPlan = BootPlan(admitted: seq<SensorOptions>, outcome: Outcome)

  /**
   * The eachSeries over the stored sensors: one whose address is taken is
   * skipped, one that is not constructed is skipped, and a construction that
   * fails (the constructor's checks or the driver's boot, `booted`) ends the
   * series with its error.
   */
  function Plan(taken: seq<Option<int>>, found: seq<SensorOptions>, active: seq<int>, booted: seq<Outcome>): (p: BootPlan)
    requires |booted| == |found|
    decreases |found|
  {
    if |found| == 0 then BootPlan([], Pass)
    else
      var o := found[0];
      if o.address in taken || !Constructed(o, active) then Plan(taken, found[1..], active, booted[1..])
      else if CheckSensorOptions(o).Fail? then BootPlan([], CheckSensorOptions(o))
      else if booted[0].Fail? then BootPlan([], booted[0])
      else
        var rest := Plan(taken + [o.address], found[1..], active, booted[1..]);
        BootPlan([o] + rest.admitted, rest.outcome)
  }

  /** The plan of the documents before and after a point, joined. */
  function Joined(admitted: seq<SensorOptions>, rest: BootPlan): BootPlan
  {
    BootPlan(admitted + rest.admitted, rest.outcome)
  }

  /** One step of the series, at position `k`. */
  lemma PlanAt(taken: seq<Option<int>>, found: seq<SensorOptions>, active: seq<int>, booted: seq<Outcome>, k: nat)
    requires |booted| == |found| && k < |found|
    ensures var o := found[k];
      Plan(taken, found[k..], active, booted[k..]) ==
        if o.address in taken || !Constructed(o, active) then Plan(taken, found[k + 1..], active, booted[k + 1..])
        else if CheckSensorOptions(o).Fail? then BootPlan([], CheckSensorOptions(o))
        else if booted[k].Fail? then BootPlan([], booted[k])
        else Joined([o], Plan(taken + [o.address], found[k + 1..], active, booted[k + 1..]))
  {
    assert found[k..][0] == found[k] && found[k..][1..] == found[k + 1..];
    assert booted[k..][0] == booted[k] && booted[k..][1..] == booted[k + 1..];
  }

  function AddressesOf(os: seq<SensorOptions>): (r: seq<Option<int>>)
    ensures |r| == |os| && forall j :: 0 <= j < |os| ==> r[j] == os[j].address
  {
    seq(|os|, j requires 0 <= j < |os| => os[j].address)
  }

  /** An admitted document: stored, constructed, passing the checks, at an address not taken. */
  predicate Admissible(a: SensorOptions, found: seq<SensorOptions>, active: seq<int>, taken: seq<Option<int>>)
  {
    a in found && Constructed(a, active) && CheckSensorOptions(a).Pass? && a.address !in taken
  }

  lemma InTail(x: SensorOptions, s: seq<SensorOptions>)
    requires |s| > 0 && x in s[1..]
    ensures x in s
  {
    var i :| 0 <= i < |s[1..]| && s[1..][i] == x;
    assert s[i + 1] == x;
  }

  /** Admitting `o` at a free address ahead of documents admitted once its address is taken. */
  lemma ConsAdmitted(o: SensorOptions, rest: seq<SensorOptions>, found: seq<SensorOptions>, active: seq<int>,
                     taken: seq<Option<int>>)
    requires |found| > 0 && o == found[0] && Admissible(o, found, active, taken)
    requires forall j :: 0 <= j < |rest| ==> Admissible(rest[j], found[1..], active, taken + [o.address])
    requires Distinct(AddressesOf(rest))
    ensures forall j :: 0 <= j < |[o] + rest| ==> Admissible(([o] + rest)[j], found, active, taken)
    ensures Distinct(AddressesOf([o] + rest))
  {
    var all := [o] + rest;
    forall j | 0 <= j < |all| ensures Admissible(all[j], found, active, taken) {
      if j > 0 {
        assert all[j] == rest[j - 1];
        assert Admissible(rest[j - 1], found[1..], active, taken + [o.address]);
        InTail(rest[j - 1], found);
      }
    }
    var addrs := AddressesOf(all);
    forall i, j | 0 <= i < j < |all| ensures addrs[i] != addrs[j] {
      assert all[j] == rest[j - 1];
      assert Admissible(rest[j - 1], found[1..], active, taken + [o.address]);
      if i > 0 {
        assert all[i] == rest[i - 1];
        assert AddressesOf(rest)[i - 1] != AddressesOf(rest)[j - 1];
      }
    }
  }

  /**
   * Every admitted sensor is an I2C one at an active address, of a known
   * model, passing the constructor's checks; no two share an address and
   * none has an address already taken.
   */
  lemma {:induction false} PlanFacts(taken: seq<Option<int>>, found: seq<SensorOptions>, active: seq<int>, booted: seq<Outcome>)
    requires |booted| == |found|
    decreases |found|
    ensures var p := Plan(taken, found, active, booted);
      (forall j :: 0 <= j < |p.admitted| ==> Admissible(p.admitted[j], found, active, taken))
      && Distinct(AddressesOf(p.admitted))
  {
    if |found| > 0 {
      var o := found[0];
      if o.address in taken || !Constructed(o, active) {
        PlanFacts(taken, found[1..], active, booted[1..]);
        var rest := Plan(taken, found[1..], active, booted[1..]).admitted;
        forall j | 0 <= j < |rest| ensures Admissible(rest[j], found, active, taken) {
          assert Admissible(rest[j], found[1..], active, taken);
          InTail(rest[j], found);
        }
      } else if CheckSensorOptions(o).Pass? && booted[0].Pass? {
        PlanFacts(taken + [o.address], found[1..], active, booted[1..]);
        ConsAdmitted(o, Plan(taken + [o.address], found[1..], active, booted[1..]).admitted, found, active, taken);
      }
    }
  }

  /** The series ends well when no constructed sensor fails its checks or its boot. */
  lemma {:induction false} PlanFails(taken: seq<Option<int>>, found: seq<SensorOptions>, active: seq<int>, booted: seq<Outcome>)
    requires |booted| == |found|
    requires forall k :: 0 <= k < |found| ==> booted[k].Pass? && (Constructed(found[k], active) ==> CheckSensorOptions(found[k]).Pass?)
    decreases |found|
    ensures Plan(taken, found, active, booted).outcome == Pass
  {
    if |found| > 0 {
      if found[0].address in taken || !Constructed(found[0], active) {
        PlanFails(taken, found[1..], active, booted[1..]);
      } else {
        PlanFails(taken + [found[0].address], found[1..], active, booted[1..]);
      }
    }
  }

  /**
   * A series that ends badly ends with the error of one stored document:
   * one not skipped (constructed, at an address not taken before) whose
   * checks or boot failed.
   */
  lemma {:induction false} PlanFailure(taken: seq<Option<int>>, found: seq<SensorOptions>, active: seq<int>, booted: seq<Outcome>)
    requires |booted| == |found|
    decreases |found|
    ensures Plan(taken, found, active, booted).outcome.Fail? ==>
      exists k :: 0 <= k < |found| && Constructed(found[k], active) && found[k].address !in taken
        && Plan(taken, found, active, booted).outcome
           == (if CheckSensorOptions(found[k]).Fail? then CheckSensorOptions(found[k]) else booted[k])
        && (CheckSensorOptions(found[k]).Fail? || booted[k].Fail?)
  {
    var p := Plan(taken, found, active, booted);
    if |found| > 0 && p.outcome.Fail? {
      var o := found[0];
      if o.address in taken || !Constructed(o, active) {
        PlanFailure(taken, found[1..], active, booted[1..]);
        var k :| 0 <= k < |found[1..]| && Constructed(found[1..][k], active) && found[1..][k].address !in taken
          && p.outcome == (if CheckSensorOptions(found[1..][k]).Fail? then CheckSensorOptions(found[1..][k]) else booted[1..][k])
          && (CheckSensorOptions(found[1..][k]).Fail? || booted[1..][k].Fail?);
        assert found[k + 1] == found[1..][k] && booted[k + 1] == booted[1..][k];
      } else if CheckSensorOptions(o).Fail? || booted[0].Fail? {
        assert Constructed(found[0], active);
      } else {
        var taken' := taken + [o.address];
        PlanFailure(taken', found[1..], active, booted[1..]);
        var k :| 0 <= k < |found[1..]| && Constructed(found[1..][k], active) && found[1..][k].address !in taken'
          && p.outcome == (if CheckSensorOptions(found[1..][k]).Fail? then CheckSensorOptions(found[1..][k]) else booted[1..][k])
          && (CheckSensorOptions(found[1..][k]).Fail? || booted[1..][k].Fail?);
        assert found[k + 1] == found[1..][k] && booted[k + 1] == booted[1..][k];
      }
    }
  }

  /** A BLE sensor is never constructed, whatever else holds. */
  lemma BleSkipped(o: SensorOptions, active: seq<int>, booted: Outcome)
    requires o.technology == Some("ble")
    ensures Plan([], [o], active, [booted]) == BootPlan([], Pass)
  {
  }

  /** A detector built from a stored detector document. */
  predicate DetectorFrom(d: Detector, o: DetectorOptions)
  {
    d.id == o.id && d.kind == o.kind && d.round == o.round
  }

  /** The drivers that turn on the Kalman filter when the environment names one (KALMAN_FILTER). */
  const KALMAN_MODELS := {"hdc1000", "mhz16"}

  /**
   * The options a driver's constructor hands to the base constructor: the
   * Chirp driver replaces absent modes by `{}`, and the HDC1000 and MH-Z16
   * drivers add the Kalman filter to the document's modes (or to `{}`) when
   * the environment configures one.  Every other field is the document's.
   */
  function DriverOptions(o: SensorOptions, envKalman: bool): (r: SensorOptions)
    ensures r == o.(modes := r.modes) && CheckSensorOptions(r) == CheckSensorOptions(o)
    ensures ModesUsable(ModesOf(o)) ==> ModesUsable(ModesOf(r))
    ensures o.model == Some("chirp") && o.modes.None? ==> ModesOf(r) == Modes(None, false)
    ensures o.model.Some? && o.model.value in KALMAN_MODELS && envKalman ==>
      ModesOf(r).kalman && ModesOf(r).adjustValues == (if o.modes.Some? then o.modes.value.adjustValues else None)
    ensures !(o.model == Some("chirp") && o.modes.None?) && !(o.model.Some? && o.model.value in KALMAN_MODELS && envKalman) ==>
      r == o
  {
    if o.model == Some("chirp") && o.modes.None? then o.(modes := Some(Modes(None, false)))
    else if o.model.Some? && o.model.value in KALMAN_MODELS && envKalman then
      o.(modes := Some(if o.modes.Some? then o.modes.value.(kalman := true) else Modes(None, true)))
    else o
  }

  /** A stored Chirp sensor neither smooths nor filters: a reading is stored as read (rounded if asked). */
  lemma ChirpUnsmoothed(o: SensorOptions, envKalman: bool, buffer: seq<real>, x: real, kalmanValue: real, round: bool)
    requires o.model == Some("chirp") && o.modes.None?
    ensures Processed(ModesOf(DriverOptions(o, envKalman)), buffer, x, kalmanValue, round) == (if round then Round(x) else x)
  {
  }

  /** A stored HDC1000 or MH-Z16 sensor under a configured Kalman filter stores the filtered value. */
  lemma KalmanWhenConfigured(o: SensorOptions, buffer: seq<real>, x: real, kalmanValue: real, round: bool)
    requires o.model.Some? && o.model.value in KALMAN_MODELS && o.modes.None?
    ensures Processed(ModesOf(DriverOptions(o, true)), buffer, x, kalmanValue, round)
      == (if round then Round(kalmanValue) else kalmanValue)
  {
  }

  /** Without a Kalman filter configured, a stored HDC1000 or MH-Z16 sensor smooths over five values. */
  lemma DefaultSmoothing(o: SensorOptions, buffer: seq<real>, x: real, kalmanValue: real, round: bool)
    requires o.model.Some? && o.model.value in KALMAN_MODELS && o.modes.None?
    ensures Processed(ModesOf(DriverOptions(o, false)), buffer, x, kalmanValue, round)
      == (var v := Smoothed(buffer, x, DEFAULT_ADJUST_VALUES); if round then Round(v) else v)
  {
  }

  /** A sensor built from a stored document: its fields, its driver's modes and one detector per stored detector, in order. */
  predicate BuiltFrom(s: Sensor, o: SensorOptions, envKalman: bool)
  {
    Some(s.id) == o.id && Some(s.model) == o.model && s.technology == o.technology
    && s.address == (if o.technology == Some("i2c") then o.address else None)
    && s.modes == ModesOf(DriverOptions(o, envKalman)) && o.detectors.Some? && |s.detectors| == |o.detectors.value|
    && forall j :: 0 <= j < |s.detectors| ==> DetectorFrom(s.detectors[j], o.detectors.value[j])
  }

  /** `new <Driver>Sensor(options)`: a detector per stored detector, then the sensor with the driver's options. */
  method Build(o: SensorOptions, envKalman: bool) returns (s: Sensor)
    requires CheckSensorOptions(o).Pass? && ModesUsable(ModesOf(o))
    ensures fresh(s) && s.Valid() && BuiltFrom(s, o, envKalman)
  {
    var options := o.detectors.value;
    var ds: seq<Detector> := [];
    var i := 0;
    while i < |options|
      invariant 0 <= i <= |options| && |ds| == i
      invariant forall j :: 0 <= j < i ==> DetectorFrom(ds[j], options[j])
    {
      var d := new Detector(options[i]);
      ds := ds + [d];
      i := i + 1;
    }
    s := new Sensor(DriverOptions(o, envKalman), ds);
  }

  class SensorService {
    var registered: seq<Sensor>

    function Addresses(): (r: seq<Option<int>>)
      reads this
      ensures |r| == |registered| && forall i :: 0 <= i < |registered| ==> r[i] == registered[i].address
    {
      SeqOfAddresses(registered)
    }

    /** No two sensors share an address, and each is in a usable state. */
    ghost predicate Valid()
      reads this, registered
    {
      Distinct(Addresses()) && forall i :: 0 <= i < |registered| ==> registered[i].Valid()
    }

    constructor ()
      ensures registered == [] && Valid()
    {
      registered := [];
    }

    /** sensorRegistered: some registered sensor has the address. */
    function SensorRegistered(address: int): (r: bool)
      reads this
      ensures r <==> exists i :: 0 <= i < |registered| && registered[i].address == Some(address)
    {
      Some(address) in Addresses()
    }

    /**
     * bootSensors: a failed query changes nothing; otherwise a boot that is
     * not additive clears the registry, and the admitted sensors join it in
     * order, each built from its stored document.
     */
    method BootSensors(additive: bool, found: Result<seq<SensorOptions>>, active: seq<int>, booted: seq<Outcome>,
                       envKalman: bool)
      returns (r: Outcome)
      requires Valid()
      requires found.Ok? ==> |booted| == |found.value|
      requires found.Ok? ==> forall k :: 0 <= k < |found.value| ==> ModesUsable(ModesOf(found.value[k]))
      modifies this
      ensures Valid()
      ensures found.Err? ==> r == Fail(found.error) && registered == old(registered)
      ensures found.Ok? ==>
        var kept := if additive then old(registered) else [];
        var p := Plan(SeqOfAddresses(kept), found.value, active, booted);
        r == p.outcome && Tracks(kept, p.admitted, SeqOfAddresses(kept), envKalman)
    {
      if found.Err? {
        return Fail(found.error);
      }
      if !additive {
        registered := [];
      }
      r := BootDocuments(found.value, active, booted, envKalman);
    }

    /** The eachSeries over the stored documents, onto the registry as it stands. */
    method BootDocuments(docs: seq<SensorOptions>, active: seq<int>, booted: seq<Outcome>, envKalman: bool) returns (r: Outcome)
      requires Valid() && |booted| == |docs|
      requires forall k :: 0 <= k < |docs| ==> ModesUsable(ModesOf(docs[k]))
      modifies this
      ensures var p := Plan(SeqOfAddresses(old(registered)), docs, active, booted);
        r == p.outcome && Tracks(old(registered), p.admitted, SeqOfAddresses(old(registered)), envKalman)
    {
      var kept := registered;
      ghost var taken0 := Addresses();
      ghost var admitted: seq<SensorOptions> := [];
      assert taken0 == SeqOfAddresses(kept) && AddressesOf(admitted) == [] && taken0 + [] == taken0;
      assert registered[..|kept|] == kept;
      var k := 0;
      while k < |docs|
        invariant 0 <= k <= |docs| && Tracks(kept, admitted, taken0, envKalman)
        invariant Plan(taken0, docs, active, booted) ==
          Joined(admitted, Plan(Addresses(), docs[k..], active, booted[k..]))
      {
        var o := docs[k];
        var taken := Addresses();
        PlanAt(taken, docs, active, booted, k);
        if o.address in taken || !Constructed(o, active) {
          k := k + 1;
        } else if CheckSensorOptions(o).Fail? {
          assert admitted + [] == admitted;
          return CheckSensorOptions(o);
        } else if booted[k].Fail? {
          assert admitted + [] == admitted;
          return booted[k];
        } else {
          var s := Build(o, envKalman);
          ghost var rest := Plan(taken + [o.address], docs[k + 1..], active, booted[k + 1..]);
          assert Joined(admitted, Joined([o], rest)) == Joined(admitted + [o], rest) by {
            assert admitted + ([o] + rest.admitted) == (admitted + [o]) + rest.admitted;
          }
          Add(s, kept, admitted, o, taken0, envKalman);
          admitted := admitted + [o];
          k := k + 1;
        }
      }
      assert docs[k..] == [] && booted[k..] == [];
      assert admitted + [] == admitted;
      r := Pass;
    }

    /** The registry holds `kept`, then a sensor per admitted document, and the addresses taken so far. */
    ghost predicate Tracks(kept: seq<Sensor>, admitted: seq<SensorOptions>, taken0: seq<Option<int>>, envKalman: bool)
      reads this, registered
    {
      RegistryTracks(registered, kept, admitted, taken0, envKalman)
    }

    /** Appends a sensor built from `o`, whose address is free. */
    method Add(s: Sensor, ghost kept: seq<Sensor>, ghost admitted: seq<SensorOptions>, o: SensorOptions,
               ghost taken0: seq<Option<int>>, ghost envKalman: bool)
      requires Tracks(kept, admitted, taken0, envKalman) && s.Valid() && BuiltFrom(s, o, envKalman) && o.technology == Some("i2c")
      requires s.address !in Addresses()
      modifies this
      ensures Tracks(kept, admitted + [o], taken0, envKalman)
      ensures registered == old(registered) + [s] && Addresses() == old(Addresses()) + [s.address]
    {
      RegistryAppend(registered, s, kept, admitted, o, taken0, envKalman);
      registered := registered + [s];
    }

    /** The ids of the registered sensors, in order. */
    function Ids(): (r: seq<Id>)
      reads this
      ensures |r| == |registered| && forall i :: 0 <= i < |registered| ==> r[i] == registered[i].id
    {
      IdsOf(registered)
    }

    /**
     * updateSensorTimeUnit: both arguments are needed; then exactly one
     * registered sensor must carry the id, and that one changes its unit.
     */
    method UpdateSensorTimeUnit(sensorId: Option<Id>, newTimeUnit: Option<string>) returns (r: UnitChange)
      requires Valid()
      modifies registered
      ensures Valid() && registered == old(registered)
      ensures TimeUnitTarget(Ids(), sensorId, newTimeUnit).Err? ==>
        r == Refused(TimeUnitTarget(Ids(), sensorId, newTimeUnit).error)
        && forall i :: 0 <= i < |registered| ==>
          registered[i].timeUnit == old(registered[i].timeUnit) && registered[i].pushInterval == old(registered[i].pushInterval)
      ensures TimeUnitTarget(Ids(), sensorId, newTimeUnit).Ok? ==>
        var i := TimeUnitTarget(Ids(), sensorId, newTimeUnit).value;
        r.Changed? && (r.outcome.Pass? <==> IntervalFor(newTimeUnit.value).Some?)
        && (r.outcome.Pass? ==>
          registered[i].timeUnit == newTimeUnit.value && registered[i].pushInterval == IntervalFor(newTimeUnit.value).value)
        && (r.outcome.Fail? ==>
          r.outcome.error == "Time unit is not valid" && registered[i].timeUnit == old(registered[i].timeUnit) && registered[i].pushInterval == old(registered[i].pushInterval))
        && forall j :: 0 <= j < |registered| && j != i ==>
          registered[j].timeUnit == old(registered[j].timeUnit) && registered[j].pushInterval == old(registered[j].pushInterval)
    {
      var target := TimeUnitTarget(Ids(), sensorId, newTimeUnit);
      if target.Err? {
        return Refused(target.error);
      }
      var s := registered[target.value];
      var outcome := s.ChangeSensorTimeUnit(newTimeUnit.value);
      r := Changed(outcome);
    }
  }

  function IdsOf(ss: seq<Sensor>): (r: seq<Id>)
    ensures |r| == |ss| && forall i :: 0 <= i < |ss| ==> r[i] == ss[i].id
  {
    seq(|ss|, i requires 0 <= i < |ss| => ss[i].id)
  }

  /** A registry `reg` holding `kept`, then a sensor per admitted document, at distinct addresses. */
  ghost predicate RegistryTracks(reg: seq<Sensor>, kept: seq<Sensor>, admitted: seq<SensorOptions>, taken0: seq<Option<int>>,
                                envKalman: bool)
    reads reg
  {
    Distinct(SeqOfAddresses(reg)) && (forall i :: 0 <= i < |reg| ==> reg[i].Valid())
    && SeqOfAddresses(reg) == taken0 + AddressesOf(admitted)
    && |reg| == |kept| + |admitted| && reg[..|kept|] == kept
    && forall j :: 0 <= j < |admitted| ==> BuiltFrom(reg[|kept| + j], admitted[j], envKalman)
  }

  /** Appending a sensor built from `o` at a free address keeps the registry in step. */
  lemma RegistryAppend(reg: seq<Sensor>, s: Sensor, kept: seq<Sensor>, admitted: seq<SensorOptions>, o: SensorOptions,
                       taken0: seq<Option<int>>, envKalman: bool)
    requires RegistryTracks(reg, kept, admitted, taken0, envKalman) && s.Valid() && BuiltFrom(s, o, envKalman)
    requires o.technology == Some("i2c")
    requires s.address !in SeqOfAddresses(reg)
    ensures RegistryTracks(reg + [s], kept, admitted + [o], taken0, envKalman)
    ensures SeqOfAddresses(reg + [s]) == SeqOfAddresses(reg) + [s.address]
  {
    var reg' := reg + [s];
    assert SeqOfAddresses(reg') == SeqOfAddresses(reg) + [s.address];
    assert AddressesOf(admitted + [o]) == AddressesOf(admitted) + [o.address];
    assert reg'[..|kept|] == reg[..|kept|];
    forall i | 0 <= i < |reg'| ensures reg'[i].Valid() {
      if i < |reg| {
        assert reg'[i] == reg[i];
      }
    }
  }

  function SeqOfAddresses(ss: seq<Sensor>): (r: seq<Option<int>>)
    ensures |r| == |ss| && forall i :: 0 <= i < |ss| ==> r[i] == ss[i].address
  {
    seq(|ss|, i requires 0 <= i < |ss| => ss[i].address)
  }

  /** What updateSensorTimeUnit reports: the argument errors or the lookup error, or the unit change's outcome. */
  datatype UnitChange = Refused(error: string) | Changed(outcome: Outcome)

  /** The messages for missing arguments: a null id, a falsy unit. */
  function ArgumentErrors(sensorId: Option<Id>, newTimeUnit: Option<string>): (errs: seq<string>)
    ensures errs == [] <==> sensorId.Some? && Truthy(newTimeUnit)
  {
    (if sensorId.None? then [ID_REQUIRED] else []) + (if !Truthy(newTimeUnit) then [UNIT_REQUIRED] else [])
  }

  /** The positions holding the id. */
  function Matching(ids: seq<Id>, id: Id): (r: seq<nat>)
    ensures forall k :: 0 <= k < |r| ==> r[k] < |ids| && ids[r[k]] == id
    ensures forall i :: 0 <= i < |ids| && ids[i] == id ==> i in r
    ensures |r| <= |ids|
    ensures (forall i :: 0 <= i < |ids| ==> ids[i] != id) ==> r == []
  {
    if |ids| == 0 then []
    else
      var rest := Matching(ids[..|ids| - 1], id);
      if ids[|ids| - 1] == id then rest + [|ids| - 1] else rest
  }

  /**
   * The checks of updateSensorTimeUnit: the argument errors (joined by
   * newlines), else the one sensor with the id, else 'Could not identify sensor'.
   */
  function TimeUnitTarget(ids: seq<Id>, sensorId: Option<Id>, newTimeUnit: Option<string>): (r: Result<nat>)
    ensures r.Ok? ==> (r.value < |ids| && sensorId == Some(ids[r.value]) && Truthy(newTimeUnit)
      && forall j :: 0 <= j < |ids| && j != r.value ==> ids[j] != sensorId.value)
    ensures r.Err? && sensorId.Some? && Truthy(newTimeUnit) ==> r.error == NOT_IDENTIFIED
    ensures r.Err? && !(sensorId.Some? && Truthy(newTimeUnit)) ==> r.error == Join(ArgumentErrors(sensorId, newTimeUnit), '\n')
  {
    var errs := ArgumentErrors(sensorId, newTimeUnit);
    if errs != [] then Err(Join(errs, '\n'))
    else
      var m := Matching(ids, sensorId.value);
      if |m| == 1 then
        assert forall j :: 0 <= j < |ids| && ids[j] == sensorId.value ==> j == m[0];
        Ok(m[0])
      else
        Err(NOT_IDENTIFIED)
  }

  /** A sensor carrying an id no other sensor carries is the one found. */
  lemma TimeUnitTargetUnique(ids: seq<Id>, sensorId: Id, newTimeUnit: string, i: nat)
    requires newTimeUnit != "" && i < |ids| && ids[i] == sensorId
    requires forall j :: 0 <= j < |ids| && j != i ==> ids[j] != sensorId
    ensures TimeUnitTarget(ids, Some(sensorId), Some(newTimeUnit)) == Ok(i)
  {
    UniqueMatch(ids, sensorId, i);
  }

  /** Two sensors with the id, or none, and the lookup fails. */
  lemma TimeUnitTargetAmbiguous(ids: seq<Id>, sensorId: Id, newTimeUnit: string, i: nat, j: nat)
    requires newTimeUnit != "" && i < j < |ids| && ids[i] == sensorId && ids[j] == sensorId
    ensures TimeUnitTarget(ids, Some(sensorId), Some(newTimeUnit)) == Err(NOT_IDENTIFIED)
  {
    var m := Matching(ids, sensorId);
    assert i in m && j in m;
  }

  lemma {:induction false} UniqueMatch(ids: seq<Id>, id: Id, i: nat)
    requires i < |ids| && ids[i] == id
    requires forall j :: 0 <= j < |ids| && j != i ==> ids[j] != id
    ensures Matching(ids, id) == [i]
  {
    var prefix := ids[..|ids| - 1];
    if i == |ids| - 1 {
      assert forall k :: 0 <= k < |prefix| ==> prefix[k] != id;
    } else {
      assert prefix[i] == ids[i];
      UniqueMatch(prefix, id, i);
    }
  }
}
