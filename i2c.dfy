/**
 * The I2C device set (src/i2c/i2c.js): the sorted list of addresses the last
 * scan found, the lost and added addresses between two scans, the device
 * list the API shows, and the reprogramming of a water sensor's address.
 */
module I2C {
  import opened Wrappers
  import opened Seqs
  import opened Text
  import opened Bus

  const NOT_BOOTED := "I2C not booted (#1)"
  const NOT_ACTIVE := "I2C not active"
  const ONLY_WATER_SENSOR := "Only allowed for sensor type water sensor"
  const WATER_SENSOR := "waterSensor"
  const RELAY_CONTROLLER := 0x20
  const WATER_SENSOR_REGISTER := 0x01
  const COMMAND_RESET := 0x06

  // ------------------------------------------------------------ sorting

  /** `Array.prototype.sort` without a comparator compares the decimal strings. */
  predicate AddrLeq(a: nat, b: nat)
  {
    StrLeq(Dec(a), Dec(b))
  }

  /** `devices.sort()`. */
  function SortDevices(devices: seq<nat>): seq<nat>
  {
    InsertionSort(devices, AddrLeq)
  }

  /** The text order on addresses is a total order, and two addresses with the same text are equal. */
  lemma AddrLeqOrder()
    ensures TotalOrder(AddrLeq) && Antisymmetric(AddrLeq)
  {
    forall a: nat, b: nat
      ensures AddrLeq(a, b) || AddrLeq(b, a)
    {
      StrLeqTotal(Dec(a), Dec(b));
    }
    forall a: nat, b: nat, c: nat | AddrLeq(a, b) && AddrLeq(b, c)
      ensures AddrLeq(a, c)
    {
      StrLeqTransitive(Dec(a), Dec(b), Dec(c));
    }
    forall a: nat, b: nat | AddrLeq(a, b) && AddrLeq(b, a)
      ensures a == b
    {
      StrLeqAntisymmetric(Dec(a), Dec(b));
      ParseDec(a);
      ParseDec(b);
    }
  }

  /** The active list is ordered as text and holds exactly what the scan found. */
  lemma SortDevicesFacts(devices: seq<nat>)
    ensures SortedBy(SortDevices(devices), AddrLeq)
    ensures multiset(SortDevices(devices)) == multiset(devices)
    ensures forall a :: a in SortDevices(devices) <==> a in devices
  {
    AddrLeqOrder();
    SortSorted(devices, AddrLeq);
    assert forall a :: a in SortDevices(devices) <==> a in multiset(SortDevices(devices));
  }

  /** 9 is not at or before 32 in the text order. */
  lemma NineAfterThirtyTwo()
    ensures !AddrLeq(9, 32)
  {
    assert Dec(9) == "9";
    assert Dec(32) == Dec(3) + "2" == "32";
  }

  /** The order, not the number: 9 sorts after 32 because "9" comes after "3". */
  lemma TextOrderExample()
    ensures SortDevices([9, 32]) == [32, 9]
  {
    NineAfterThirtyTwo();
    var one: seq<nat> := [32];
    var two: seq<nat> := [9, 32];
    assert one[1..] == [] && two[1..] == one;
    assert InsertionSort(one, AddrLeq) == Insert<nat>(32, [], AddrLeq) == one;
    assert Insert(9, one, AddrLeq) == [32] + Insert<nat>(9, [], AddrLeq) == [32, 9];
    assert InsertionSort(two, AddrLeq) == Insert(9, InsertionSort(one, AddrLeq), AddrLeq);
  }

  /** Two scans that find the same addresses, in whatever order, leave the same active list. */
  lemma ScanOrderIrrelevant(d1: seq<nat>, d2: seq<nat>)
    requires multiset(d1) == multiset(d2)
    ensures SortDevices(d1) == SortDevices(d2)
  {
    AddrLeqOrder();
    SortPermutationInvariant(d1, d2, AddrLeq);
  }

  // ------------------------------------------------------------ differences

  /** What checkDifference reports: the addresses lost and the addresses added. */
  datatype Delta = Delta(lost: seq<nat>, added: seq<nat>)

  /**
   * checkDifference's comparison of the list before and after the scan: no
   * result when the lists are equal, otherwise the two lodash differences.
   */
  function Changes(previous: seq<nat>, current: seq<nat>): (r: Option<Delta>)
    ensures r.None? <==> previous == current
    ensures r.Some? ==> forall a :: a in r.value.lost <==> a in previous && a !in current
    ensures r.Some? ==> forall a :: a in r.value.added <==> a in current && a !in previous
  {
    if previous == current then None
    else Some(Delta(Difference(previous, current), Difference(current, previous)))
  }

  /**
   * Two consecutive scans report a change exactly when they found different
   * addresses (counted with multiplicity); the order of the bus's answer
   * does not matter.
   */
  lemma RescanReports(d1: seq<nat>, d2: seq<nat>)
    ensures Changes(SortDevices(d1), SortDevices(d2)).None? <==> multiset(d1) == multiset(d2)
  {
    SortDevicesFacts(d1);
    SortDevicesFacts(d2);
    if multiset(d1) == multiset(d2) {
      ScanOrderIrrelevant(d1, d2);
    }
  }

  // ------------------------------------------------------------ device list

  /** A sensor document as the database returns it. */
  datatype SensorRecord = SensorRecord(id: string, address: Option<int>)

  /** An entry of the device list: the relay controller, or a sensor document tagged 'sensor'. */
  datatype Device = RelayControllerDevice(address: int, name: string) | SensorDevice(record: SensorRecord)

  const RELAY_CONTROLLER_DEVICE := RelayControllerDevice(RELAY_CONTROLLER, "Relay Controller")

  function ActiveRecords(active: seq<nat>, records: seq<SensorRecord>): seq<Device>
  {
    if |records| == 0 then []
    else
      var rest := ActiveRecords(active, records[1..]);
      var r := records[0];
      if r.address.Some? && r.address.value in active then [SensorDevice(r)] + rest else rest
  }

  /**
   * getActiveDevices with `records` the answer to the query for sensors at
   * an active address: the relay controller first (its entry is pushed
   * synchronously), then the sensors.
   */
  function ActiveDevicesDetail(active: seq<nat>, records: Result<seq<SensorRecord>>): (r: Result<seq<Device>>)
    ensures |active| == 0 ==> r == Ok([])
    ensures |active| > 0 && records.Err? ==> r == Err(records.error)
    ensures r.Ok? ==> (RELAY_CONTROLLER_DEVICE in r.value <==> RELAY_CONTROLLER in active)
    ensures r.Ok? && |active| > 0 ==> forall rec :: SensorDevice(rec) in r.value <==>
                                                    rec in records.value && rec.address.Some? && rec.address.value in active
  {
    if |active| == 0 then Ok([])
    else if records.Err? then Err(records.error)
    else
      var rs := ActiveRecords(active, records.value);
      ActiveRecordsFacts(active, records.value);
      Ok((if RELAY_CONTROLLER in active then [RELAY_CONTROLLER_DEVICE] else []) + rs)
  }

  lemma {:induction false} ActiveRecordsFacts(active: seq<nat>, records: seq<SensorRecord>)
    ensures forall d :: d in ActiveRecords(active, records) ==> d.SensorDevice?
    ensures forall rec :: SensorDevice(rec) in ActiveRecords(active, records) <==>
                          rec in records && rec.address.Some? && rec.address.value in active
  {
    if |records| > 0 {
      ActiveRecordsFacts(active, records[1..]);
      assert records == [records[0]] + records[1..];
    }
  }

  // ------------------------------------------------------------ water sensor

  /** The transactions updateI2CAddress issues: the new address to register 0x01, then the reset. */
  function UpdateOps(hasBus: bool, sensorType: string, oldAddress: int, newAddress: int, write: BusResult): (ops: seq<BusOp>)
    ensures !hasBus || sensorType != WATER_SENSOR ==> ops == []
    ensures hasBus && sensorType == WATER_SENSOR ==>
              |ops| >= 1 && ops[0] == WriteByte(oldAddress, WATER_SENSOR_REGISTER, newAddress)
              && (|ops| == 2 <==> write.Done?) && (write.Done? ==> ops[1] == SendByte(oldAddress, COMMAND_RESET))
  {
    if !hasBus || sensorType != WATER_SENSOR then []
    else
      [WriteByte(oldAddress, WATER_SENSOR_REGISTER, newAddress)]
      + (if write.Done? then [SendByte(oldAddress, COMMAND_RESET)] else [])
  }

  /** The outcome of updateI2CAddress: a missing bus or another sensor type is an error; otherwise the first bus error, if any. */
  function UpdateI2CAddress(hasBus: bool, sensorType: string, write: BusResult, send: BusResult): (r: Outcome)
    ensures !hasBus ==> r == Fail(NOT_ACTIVE)
    ensures hasBus && sensorType != WATER_SENSOR ==> r == Fail(ONLY_WATER_SENSOR)
    ensures hasBus && sensorType == WATER_SENSOR ==> (r.Pass? <==> write.Done? && send.Done?)
    ensures hasBus && sensorType == WATER_SENSOR && write.Failed? ==> r == Fail(write.code)
  {
    if !hasBus then Fail(NOT_ACTIVE)
    else if sensorType != WATER_SENSOR then Fail(ONLY_WATER_SENSOR)
    else if write.Failed? then Fail(write.code)
    else if send.Failed? then Fail(send.code)
    else Pass
  }

  // ------------------------------------------------------------ the service

  /** What the bus's scan answered: an error, if any, and the addresses found. */
  datatype ScanReply = ScanReply(err: Option<string>, devices: seq<nat>)

  /** The module state of src/i2c/i2c.js: the open bus (`i2c1`) and `activeDevices`. */
  class I2CService {
    var busOpen: bool
    var activeDevices: seq<nat>

    constructor ()
      ensures !busOpen && activeDevices == []
    {
      busOpen := false;
      activeDevices := [];
    }

    /**
     * bootI2C: `i2c.open` hands back the bus object at once, so the bus is
     * set even when opening reports an error; the scan follows only on success.
     */
    method BootI2C(open: BusResult, reply: ScanReply) returns (r: Outcome)
      modifies this
      ensures busOpen
      ensures open.Failed? ==> r == Fail(open.code) && activeDevices == old(activeDevices)
      ensures open.Done? ==> activeDevices == SortDevices(reply.devices)
                             && r == (if reply.err.Some? then Fail(reply.err.value) else Pass)
    {
      busOpen := true;
      if open.Failed? {
        return Fail(open.code);
      }
      var devices;
      r, devices := Scan(reply);
    }

    /** scan: with a bus, the active list becomes the sorted answer and the bus's error is passed on. */
    method Scan(reply: ScanReply) returns (r: Outcome, devices: seq<nat>)
      modifies this`activeDevices
      ensures !busOpen ==> r == Fail(NOT_BOOTED) && devices == [] && activeDevices == old(activeDevices)
      ensures busOpen ==> activeDevices == SortDevices(reply.devices) && devices == activeDevices
                          && r == (if reply.err.Some? then Fail(reply.err.value) else Pass)
    {
      if !busOpen {
        return Fail(NOT_BOOTED), [];
      }
      activeDevices := SortDevices(reply.devices);
      devices := activeDevices;
      r := if reply.err.Some? then Fail(reply.err.value) else Pass;
    }

    /** checkDifference: rescan (whose error is only logged) and compare with the list before. */
    method CheckDifference(reply: ScanReply) returns (r: Option<Delta>)
      modifies this`activeDevices
      ensures activeDevices == (if busOpen then SortDevices(reply.devices) else old(activeDevices))
      ensures r == Changes(old(activeDevices), activeDevices)
    {
      var before := activeDevices;
      var err, devices := Scan(reply);
      r := Changes(before, activeDevices);
    }

    /** adressInActiveDevices. */
    function AddressInActiveDevices(address: int): (r: bool)
      reads this
      ensures r <==> exists i :: 0 <= i < |activeDevices| && activeDevices[i] == address
    {
      address in activeDevices
    }

    /** getActiveDevices, with `records` the database's answer. */
    function GetActiveDevices(records: Result<seq<SensorRecord>>): (r: Result<seq<Device>>)
      reads this
      ensures r == ActiveDevicesDetail(activeDevices, records)
    {
      ActiveDevicesDetail(activeDevices, records)
    }
  }

  /** After a scan, an address is active exactly when the bus reported it. */
  lemma ScannedMembership(devices: seq<nat>, address: nat)
    ensures address in SortDevices(devices) <==> address in devices
  {
    SortDevicesFacts(devices);
  }
}
