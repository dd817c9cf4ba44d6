/**
 * The sensor document's pre-save validation (the `validate` function of
 * src/sensor/sensor.model.js): a BLE sensor needs a uuid and loses its
 * address, an I2C sensor needs an address and loses its uuid.
 */
module SensorModel {
  import opened Wrappers
  import opened Text

  const UUID_REQUIRED := "uuid is required"
  const ADDRESS_REQUIRED := "I2C address is required"

  /** The fields of a sensor document the validation looks at or removes. */
  datatype SensorData = SensorData(technology: Option<string>, model: Option<string>,
                                   address: Option<int>, uuid: Option<string>)

  /** The messages collected for a document, in the order they are pushed. */
  function Errors(d: SensorData): (errs: seq<string>)
    ensures |errs| <= 1
    ensures errs == [UUID_REQUIRED] <==> d.technology == Some("ble") && d.uuid.None?
    ensures errs == [ADDRESS_REQUIRED] <==> d.technology == Some("i2c") && d.address.None?
  {
    if d.technology == Some("ble") && d.uuid.None? then [UUID_REQUIRED]
    else if d.technology == Some("i2c") && d.address.None? then [ADDRESS_REQUIRED]
    else []
  }

  /** The verdict: the messages joined by newlines, or success when there are none. */
  function Verdict(d: SensorData): (r: Outcome)
    ensures r.Pass? <==> !(d.technology == Some("ble") && d.uuid.None?) && !(d.technology == Some("i2c") && d.address.None?)
    ensures d.technology == Some("ble") && d.uuid.None? ==> r == Fail(UUID_REQUIRED)
    ensures d.technology == Some("i2c") && d.address.None? ==> r == Fail(ADDRESS_REQUIRED)
    ensures d.technology != Some("ble") && d.technology != Some("i2c") ==> r == Pass
  {
    var errs := Errors(d);
    if |errs| > 0 then Fail(Join(errs, '\n')) else Pass
  }

  /** The document after the `delete`s: the field the technology does not use is gone. */
  function Cleared(d: SensorData): (c: SensorData)
  {
    if d.technology == Some("ble") then d.(address := None)
    else if d.technology == Some("i2c") then d.(uuid := None)
    else d
  }

  /** Validating a second time changes nothing and gives the same verdict. */
  lemma ClearedIdempotent(d: SensorData)
    ensures Cleared(Cleared(d)) == Cleared(d)
    ensures Verdict(Cleared(d)) == Verdict(d)
  {
  }

  /** A cleared BLE document has no address, a cleared I2C one no uuid; nothing else moves. */
  lemma ClearedFields(d: SensorData)
    ensures Cleared(d).technology == d.technology && Cleared(d).model == d.model
    ensures d.technology == Some("ble") ==> Cleared(d).address.None? && Cleared(d).uuid == d.uuid
    ensures d.technology == Some("i2c") ==> Cleared(d).uuid.None? && Cleared(d).address == d.address
    ensures d.technology != Some("ble") && d.technology != Some("i2c") ==> Cleared(d) == d
  {
  }

  /** The document being saved, whose fields `validate` deletes in place. */
  class SensorDocument {
    var technology: Option<string>
    var model: Option<string>
    var address: Option<int>
    var uuid: Option<string>

    function Data(): SensorData
      reads this
    {
      SensorData(technology, model, address, uuid)
    }

    constructor (d: SensorData)
      ensures Data() == d
    {
      technology := d.technology;
      model := d.model;
      address := d.address;
      uuid := d.uuid;
    }

    /** validate: collect the messages, delete the unused field, report. */
    method Validate() returns (r: Outcome)
      modifies this
      ensures r == Verdict(old(Data()))
      ensures Data() == Cleared(old(Data()))
    {
      var err: seq<string> := [];
      if technology == Some("ble") {
        if uuid.None? {
          err := err + [UUID_REQUIRED];
        }
        address := None;
      } else if technology == Some("i2c") {
        if address.None? {
          err := err + [ADDRESS_REQUIRED];
        }
        uuid := None;
      }
      if |err| > 0 {
        return Fail(Join(err, '\n'));
      }
      return Pass;
    }
  }
}
