/**
 * The HDC1000 temperature and humidity sensor (src/sensor/hdc1000-sensor.class.js):
 * a boot write that enables both measurements, two-byte readings converted
 * to degrees and percent, and the unit the temperature is reported in.
 */
module HDC1000 {
  import opened Wrappers
  import opened Bus

  const CMD_READ_TEMPERATURE := 0x00
  const CMD_READ_HUMIDITY := 0x01
  const SENSOR_REGISTER := 0x02
  /** Temperature and humidity enabled, 14-bit resolution, heater on. */
  const BOOT_CMD := 0x30

  const NO_BUS := "I2c not started can't boot hdc1000 sensor"

  // ------------------------------------------------------------ conversions

  /** The 16-bit raw value of a reading, most significant byte first. */
  function Raw(byte1: Byte, byte2: Byte): (raw: int)
    ensures 0 <= raw < 65536
  {
    byte1 * 256 + byte2
  }

  /** convertHumidity: the raw value as a fraction of 2^16, in percent. */
  function ConvertHumidity(byte1: Byte, byte2: Byte): (h: real)
    ensures 0.0 <= h < 100.0
    ensures h == 0.0 <==> byte1 == 0 && byte2 == 0
  {
    (Raw(byte1, byte2) as real / 65536.0) * 100.0
  }

  /** A temperature in both units. */
  datatype Temperature = Temperature(cTemp: real, fTemp: real)

  /** convertTemp: the raw value spread over -40..125 degrees Celsius, and the Fahrenheit equivalent. */
  function ConvertTemp(byte1: Byte, byte2: Byte): (t: Temperature)
    ensures -40.0 <= t.cTemp < 125.0
    ensures t.cTemp == -40.0 <==> byte1 == 0 && byte2 == 0
  {
    var c := ((Raw(byte1, byte2) as real / 65536.0) * 165.0) - 40.0;
    Temperature(c, (c * 1.8) + 32.0)
  }

  /** The Fahrenheit value is the Celsius one converted, so it lies in -40..257. */
  lemma FahrenheitOfCelsius(byte1: Byte, byte2: Byte)
    ensures ConvertTemp(byte1, byte2).fTemp == ConvertTemp(byte1, byte2).cTemp * 9.0 / 5.0 + 32.0
    ensures -40.0 <= ConvertTemp(byte1, byte2).fTemp < 257.0
  {
  }

  /** Both conversions preserve the order of the raw values. */
  lemma ConversionsMonotone(a1: Byte, a2: Byte, b1: Byte, b2: Byte)
    requires Raw(a1, a2) < Raw(b1, b2)
    ensures ConvertHumidity(a1, a2) < ConvertHumidity(b1, b2)
    ensures ConvertTemp(a1, a2).cTemp < ConvertTemp(b1, b2).cTemp
  {
  }

  /** The raw value is recovered from the humidity: the conversion loses nothing. */
  lemma HumidityRecoversRaw(byte1: Byte, byte2: Byte)
    ensures ConvertHumidity(byte1, byte2) * 65536.0 / 100.0 == Raw(byte1, byte2) as real
  {
  }

  /** Half scale is 50 % and 42.5 degrees. */
  lemma HalfScale()
    ensures ConvertHumidity(0x80, 0x00) == 50.0
    ensures ConvertTemp(0x80, 0x00) == Temperature(42.5, 108.5)
  {
  }

  // ------------------------------------------------------------ the sensor

  /**
   * The unit chosen when the sensor is constructed: the system's
   * `units.temperature` when it is set, 'celsius' otherwise.
   */
  function ModeOf(units: Option<string>): (mode: string)
    ensures units.Some? && units.value != "" ==> mode == units.value
    ensures units.None? || units.value == "" ==> mode == "celsius"
  {
    if units.Some? && units.value != "" then units.value else "celsius"
  }

  /** The sensor as its readings see it: where it sits and the unit fixed at construction. */
  datatype Hdc1000 = Hdc1000(address: int, temperatureMode: string)

  /** The one boot write, when there is a bus. */
  function BootOps(hasBus: bool, address: int): seq<BusOp>
  {
    if hasBus then [WriteByte(address, SENSOR_REGISTER, BOOT_CMD)] else []
  }

  /** boot: the outcome of the boot write, or the error for a missing bus. */
  function Boot(hasBus: bool, write: BusResult): (r: Outcome)
    ensures !hasBus ==> r == Fail(NO_BUS)
    ensures hasBus ==> (r.Pass? <==> write.Done?)
    ensures hasBus && write.Failed? ==> r == Fail(write.code)
  {
    if !hasBus then Fail(NO_BUS)
    else if write.Failed? then Fail(write.code)
    else Pass
  }

  /**
   * What one of the two `receiveByte` calls gave: an error, or a value
   * that may be missing.
   */
  type Received = Result<Option<Byte>>

  /** A missing byte or the pair (0, 0) is no reading at all. */
  predicate NoReading(byte1: Option<Byte>, byte2: Option<Byte>)
  {
    byte1.None? || byte2.None? || (byte1.value == 0 && byte2.value == 0)
  }

  /** The waterfall of a reading: an error of either receive ends it; no reading is not an error. */
  function ReadWith(first: Received, second: Received, convert: (Byte, Byte) -> real): (r: Result<Option<real>>)
    ensures first.Err? ==> r == Err(first.error)
    ensures first.Ok? && second.Err? ==> r == Err(second.error)
    ensures first.Ok? && second.Ok? ==>
      (r.Ok? && (r.value.None? <==> NoReading(first.value, second.value)))
    ensures r.Ok? && r.value.Some? ==> r.value.value == convert(first.value.value, second.value.value)
  {
    if first.Err? then Err(first.error)
    else if second.Err? then Err(second.error)
    else if NoReading(first.value, second.value) then Ok(None)
    else Ok(Some(convert(first.value.value, second.value.value)))
  }

  /** The temperature in the sensor's unit: Fahrenheit only when the mode says so. */
  function InMode(s: Hdc1000, byte1: Byte, byte2: Byte): (t: real)
    ensures s.temperatureMode == "fahrenheit" ==> t == ConvertTemp(byte1, byte2).fTemp
    ensures s.temperatureMode != "fahrenheit" ==> t == ConvertTemp(byte1, byte2).cTemp
  {
    if s.temperatureMode == "fahrenheit" then ConvertTemp(byte1, byte2).fTemp else ConvertTemp(byte1, byte2).cTemp
  }

  /** readTemperature (the command write's error is ignored; only the receives count). */
  function ReadTemperature(s: Hdc1000, first: Received, second: Received): (r: Result<Option<real>>)
    ensures first.Ok? && second.Ok? && !NoReading(first.value, second.value) ==>
      r == Ok(Some(InMode(s, first.value.value, second.value.value)))
  {
    ReadWith(first, second, (b1: Byte, b2: Byte) => InMode(s, b1, b2))
  }

  /** readHumidity. */
  function ReadHumidity(first: Received, second: Received): (r: Result<Option<real>>)
    ensures r.Ok? && r.value.Some? ==> 0.0 < r.value.value < 100.0
  {
    var r := ReadWith(first, second, ConvertHumidity);
    if r.Ok? && r.value.Some? then
      assert first.Ok? && second.Ok? && !NoReading(first.value, second.value);
      assert r.value.value == ConvertHumidity(first.value.value, second.value.value);
      r
    else r
  }

  /** The bus transactions of one reading: the command, then two single-byte receives. */
  function ReadOps(address: int, command: int): seq<BusOp>
  {
    [SendByte(address, command), ReceiveByte(address), ReceiveByte(address)]
  }

  /** A sensor whose mode is unset reports the (0x80, 0x00) reading as 42.5 degrees Celsius. */
  lemma CelsiusByDefault(address: int)
    ensures ReadTemperature(Hdc1000(address, ModeOf(None)), Ok(Some(0x80)), Ok(Some(0))) == Ok(Some(42.5))
  {
    HalfScale();
  }

  /** The same reading in a Fahrenheit system. */
  lemma FahrenheitWhenConfigured(address: int)
    ensures ReadTemperature(Hdc1000(address, ModeOf(Some("fahrenheit"))), Ok(Some(0x80)), Ok(Some(0))) == Ok(Some(108.5))
  {
    HalfScale();
  }

  // ------------------------------------------------------------ readSensor

  /** What one detector's turn of readSensor does. */
  datatype Turn =
    | Process(value: real)  // processSensorValue, then the next detector
    | Stall                 // an error or no reading: `next` is never called
    | Stop(error: string)   // the series ends with this error

  function NotImplemented(kind: string): string
  {
    "Detector type " + kind + " not implemented"
  }

  /**
   * Temperature and humidity detectors are read; any value, zero included,
   * is processed. Any other detector type ends the pass.
   */
  function TurnFor(kind: string, reading: Result<Option<real>>): (t: Turn)
    ensures t.Process? <==> (kind == "temperature" || kind == "humidity") && reading.Ok? && reading.value.Some?
    ensures t.Process? ==> t.value == reading.value.value
    ensures t.Stop? <==> !(kind == "temperature" || kind == "humidity")
    ensures t.Stop? ==> t.error == NotImplemented(kind)
  {
    if !(kind == "temperature" || kind == "humidity") then Stop(NotImplemented(kind))
    else if reading.Ok? && reading.value.Some? then Process(reading.value.value)
    else Stall
  }
}
