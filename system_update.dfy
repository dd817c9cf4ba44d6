/**
 * The settings update (updateSystem in src/system/system.update.js): the
 * request data is stripped, in place, of every key but region, timeZone,
 * units and wifi; the rest is assigned onto the stored system document,
 * which is saved, and sensors and relays are rebooted without cronjobs.
 */
module SystemUpdate {
  import opened Wrappers
  import Boot

  const ALLOWED_UPDATES := ["region", "timeZone", "units", "wifi"]

  /** A setting's value; the update only moves values, it never looks inside them. */
  datatype Value = Value(json: string)

  /** The data once sanitised: the allowed keys it had, with their values. */
  function Sanitized(data: map<string, Value>): (r: map<string, Value>)
    ensures forall k :: k in r ==> k in ALLOWED_UPDATES
    ensures forall k :: k in data && k in ALLOWED_UPDATES ==> k in r && r[k] == data[k]
    ensures r.Keys <= data.Keys
  {
    map k | k in data && k in ALLOWED_UPDATES :: data[k]
  }

  /** Sanitising what is already sanitised changes nothing. */
  lemma SanitizedIdempotent(data: map<string, Value>)
    ensures Sanitized(Sanitized(data)) == Sanitized(data)
  {
  }

  /** Data holding only allowed keys passes unchanged. */
  lemma SanitizedKeepsAllowed(data: map<string, Value>)
    requires forall k :: k in data ==> k in ALLOWED_UPDATES
    ensures Sanitized(data) == data
  {
  }

  /** `Object.assign(system, data)`: the data's keys overwrite, the other keys of the document stay. */
  function Assigned(system: Option<map<string, Value>>, data: map<string, Value>): (r: map<string, Value>)
    ensures r.Keys == data.Keys + (if system.Some? then system.value.Keys else {})
    ensures forall k :: k in data ==> r[k] == data[k]
  {
    (if system.Some? then system.value else map[]) + data
  }

  /**
   * An update cannot touch a setting outside the four: such a key of the
   * saved document is there exactly when it was stored before, with the
   * stored value.
   */
  lemma UpdateKeepsOtherSettings(system: Option<map<string, Value>>, data: map<string, Value>, k: string)
    requires k !in ALLOWED_UPDATES
    ensures k in Assigned(system, Sanitized(data)) <==> system.Some? && k in system.value
    ensures k in Assigned(system, Sanitized(data)) ==> Assigned(system, Sanitized(data))[k] == system.value[k]
  {
  }

  /** The reboot after saving: `{noCrons: true}`, every other flag absent. */
  const REBOOT_OPTIONS := Boot.BootOptions(false, false, true, false, Boot.AnyAddress)

  /** The reboot boots sensors and relays and leaves the cronjobs running. */
  lemma RebootSkipsCronjobs(envNoCrons: bool)
    ensures Boot.Plan(REBOOT_OPTIONS, envNoCrons) == [Boot.BootSensors(REBOOT_OPTIONS), Boot.BootRelays(REBOOT_OPTIONS)]
  {
  }

  /** The request's `data` object, whose keys the update deletes in place. */
  class SystemData {
    var entries: map<string, Value>

    constructor (entries: map<string, Value>)
      ensures this.entries == entries
    {
      this.entries := entries;
    }

    /** The sanitising `for ... in` loop: each key is visited once and deleted unless it is allowed. */
    method Sanitize()
      modifies this
      ensures entries == Sanitized(old(entries))
    {
      ghost var original := entries;
      var keys := entries.Keys;
      while keys != {}
        invariant keys <= original.Keys
        invariant forall k :: k in entries <==> k in original && (k in keys || k in ALLOWED_UPDATES)
        invariant forall k :: k in entries ==> entries[k] == original[k]
        decreases |keys|
      {
        var key :| key in keys;
        if key !in ALLOWED_UPDATES {
          entries := entries - {key};
        }
        keys := keys - {key};
      }
      assert entries.Keys == Sanitized(original).Keys;
    }
  }

  /** What updateSystem calls back with: an error, and the saved document once the save succeeded. */
  datatype Reply = Reply(error: Option<string>, system: Option<map<string, Value>>)

  /**
   * updateSystem, with `found` the answer to the query for the stored
   * document (none yet: a new one), `saved` the save's outcome and `booted`
   * the outcome of the reboot that follows a successful save. A query or
   * save error is answered alone; after a save, the saved document is
   * answered together with the reboot's error, if any.
   */
  method UpdateSystem(data: SystemData, found: Result<Option<map<string, Value>>>, saved: Outcome, booted: Outcome)
    returns (r: Reply, reboot: Option<Boot.BootOptions>)
    modifies data
    ensures data.entries == Sanitized(old(data.entries))
    ensures found.Err? ==> r == Reply(Some(found.error), None) && reboot.None?
    ensures found.Ok? && saved.Fail? ==> r == Reply(Some(saved.error), None) && reboot.None?
    ensures found.Ok? && saved.Pass? ==>
      reboot == Some(REBOOT_OPTIONS) && r.system == Some(Assigned(found.value, data.entries))
      && r.error == (if booted.Fail? then Some(booted.error) else None)
    ensures r.error.None? <==> found.Ok? && saved.Pass? && booted.Pass?
  {
    data.Sanitize();
    if found.Err? {
      return Reply(Some(found.error), None), None;
    }
    var system := Assigned(found.value, data.entries);
    if saved.Fail? {
      return Reply(Some(saved.error), None), None;
    }
    var error := if booted.Fail? then Some(booted.error) else None;
    return Reply(error, Some(system)), Some(REBOOT_OPTIONS);
  }
}
