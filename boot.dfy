/**
 * Booting sensors, relays and cronjobs together, and the hot-plug watcher
 * (src/_helper/ouputAndSensorBoot.helper.js): which boot units an options
 * object runs, that the watcher is started once, and the options of the
 * incremental reboot a scan difference triggers.
 */
module Boot {
  import opened Wrappers
  import I2C
  import Seqs

  const RELAIS_CONTROLLER: nat := 32
  const SCAN_INTERVALL := 1000

  /** `filterRead` of the options: every stored device, or those at the listed addresses. */
  datatype AddressFilter = AnyAddress | AddressIn(addresses: seq<nat>)

  /**
   * The options the boot units read; a flag that is absent is not `true`,
   * so it is `false` here.
   */
  datatype BootOptions = BootOptions(noSensors: bool, noRelays: bool, noCrons: bool, additive: bool, filter: AddressFilter)

  /** What bootSensorsAndRelays starts, each unit with the options it is handed. */
  datatype Action = BootSensors(options: BootOptions) | BootRelays(options: BootOptions) | StopCronjobs | LaunchCronjobs

  /**
   * The units each run: sensors unless noSensors, relays unless noRelays,
   * and, unless noCrons or the NO_CRONS environment variable, the cronjobs,
   * stopped before they are launched again.
   */
  function Plan(options: BootOptions, envNoCrons: bool): (actions: seq<Action>)
    ensures BootSensors(options) in actions <==> !options.noSensors
    ensures BootRelays(options) in actions <==> !options.noRelays
    ensures LaunchCronjobs in actions <==> !options.noCrons && !envNoCrons
    ensures StopCronjobs in actions <==> LaunchCronjobs in actions
    ensures forall i :: 0 <= i < |actions| && actions[i] == LaunchCronjobs ==> i > 0 && actions[i - 1] == StopCronjobs
    ensures forall a :: a in actions && (a.BootSensors? || a.BootRelays?) ==> a.options == options
  {
    (if options.noSensors then [] else [BootSensors(options)])
    + (if options.noRelays then [] else [BootRelays(options)])
    + (if options.noCrons || envNoCrons then [] else [StopCronjobs, LaunchCronjobs])
  }

  /**
   * The options the watcher reboots with when a scan added addresses:
   * no cronjobs, additive, only the added addresses, and the relays only
   * when the relay controller (address 32) came or went.
   */
  function RebootOptions(d: I2C.Delta): (o: Option<BootOptions>)
    ensures o.Some? <==> |d.added| > 0
    ensures o.Some? ==> o.value.noCrons && o.value.additive && !o.value.noSensors
                        && o.value.filter == AddressIn(d.added)
    ensures o.Some? ==> (o.value.noRelays <==> RELAIS_CONTROLLER !in d.lost && RELAIS_CONTROLLER !in d.added)
  {
    if |d.added| == 0 then None
    else
      var o := BootOptions(false, false, true, true, AddressIn(d.added));
      if RELAIS_CONTROLLER !in d.lost && RELAIS_CONTROLLER !in d.added then Some(o.(noRelays := true)) else Some(o)
  }

  /** One tick of the watcher: the reboot a checkDifference result asks for, if any. */
  function WatchTick(result: Option<I2C.Delta>): Option<BootOptions>
  {
    if result.Some? then RebootOptions(result.value) else None
  }

  /**
   * A hot-plug reboot boots the sensors at the added addresses, boots the
   * relays exactly when the relay controller came or went, and never
   * touches the cronjobs.
   */
  lemma HotPlugReboot(previous: seq<nat>, current: seq<nat>, envNoCrons: bool)
    requires WatchTick(I2C.Changes(previous, current)).Some?
    ensures var d := I2C.Changes(previous, current).value;
            var o := WatchTick(I2C.Changes(previous, current)).value;
            var actions := Plan(o, envNoCrons);
            && (exists a :: a in current && a !in previous)
            && BootSensors(o) in actions && o.filter == AddressIn(d.added)
            && (BootRelays(o) in actions <==> (RELAIS_CONTROLLER in previous) != (RELAIS_CONTROLLER in current))
            && StopCronjobs !in actions && LaunchCronjobs !in actions
  {
    var d := I2C.Changes(previous, current).value;
    assert d.added[0] in d.added;
  }

  /** Equal scans ask for no reboot; a scan that only lost addresses asks for none either. */
  lemma NoRebootWithoutAdded(previous: seq<nat>, current: seq<nat>)
    requires forall a :: a in current ==> a in previous
    ensures WatchTick(I2C.Changes(previous, current)).None?
  {
    var r := I2C.Changes(previous, current);
    if r.Some? {
      Seqs.NoMemberEmpty(r.value.added);
    }
  }

  /** The module's `watchActive` flag and the intervals it has set. */
  class BootHelper {
    var watchActive: bool
    var intervals: nat

    /** The watcher is running exactly when the flag says so, and at most once. */
    ghost predicate Valid()
      reads this
    {
      intervals == (if watchActive then 1 else 0)
    }

    constructor ()
      ensures Valid() && !watchActive
    {
      watchActive := false;
      intervals := 0;
    }

    /** watch: set the flag and start the scan interval. */
    method Watch()
      modifies this
      ensures watchActive && intervals == old(intervals) + 1
    {
      watchActive := true;
      intervals := intervals + 1;
    }

    /**
     * bootSensorsAndRelays: the units the options ask for, then, unless a
     * unit reported `failure`, the watcher if it is not running yet.
     */
    method BootSensorsAndRelays(options: BootOptions, envNoCrons: bool, failure: Option<string>)
      returns (r: Outcome, actions: seq<Action>)
      requires Valid()
      modifies this
      ensures Valid()
      ensures actions == Plan(options, envNoCrons)
      ensures failure.Some? ==> r == Fail(failure.value) && watchActive == old(watchActive)
      ensures failure.None? ==> r == Pass && watchActive
      ensures intervals <= 1
    {
      actions := Plan(options, envNoCrons);
      if failure.Some? {
        return Fail(failure.value), actions;
      }
      if !watchActive {
        Watch();
      }
      r := Pass;
    }
  }
}
