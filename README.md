# Grow-chamber controller core, modelled in Dafny

This project models the control core of the grassberry grow-chamber backend.
Sensors on an I2C bus are read by per-model drivers: an MH-Z16 CO2 sensor behind
an I2C-UART bridge, an HDC1000 temperature and humidity sensor, and a Chirp
soil-moisture sensor. Each reading is smoothed and rounded. It then becomes the
detector's current value and enters a bounded history. It is applied to the
detector's threshold rules. A rule that fires switches a relay. The relay sets
or clears the bit of its outlet in the relay controller's 8-bit output
register. Around this loop sit:

- the relay and sensor registries;
- the validators for rule and sensor documents;
- the I2C device set, with hot-plug detection and the incremental reboot it triggers;
- the cron schedule a time rule becomes, and the state its relay is restored to at boot;
- the chamber list helpers;
- the settings update;
- the byte-copy helpers.

The system is written in JavaScript. Its I/O (bus transactions, database
queries, the clock, timers) is not computed by the model. The answers to that
I/O are parameters of the model's functions and methods. The drivers return
the list of bus transactions they issue, as `Bus.BusOp` values. Callbacks of
the form `(err, value)` become the `Result`, `Outcome` and `Option` types of
`Wrappers`.

The model has one module per source file, plus small shared modules:

- `Wrappers`;
- `Bus`;
- `Clocks`: moment's truncating differences;
- `Text`: decimal strings, splitting and joining, and the code-unit order of strings;
- `Seqs`: lodash-style filter, difference and uniqBy, and an insertion sort standing in for `Array.prototype.sort`.

Objects whose methods update their fields are classes: `Relay`,
`RelayController`, the relay and sensor registries, `Sensor` and `Detector`,
`ChirpSensor`, the I2C module state, the cron registry, the boot helper, and
the request data of the settings update. Pure computations are functions, with
lemmas about them.

Where the documentation and the code disagree, the model follows the code:

- `adjustValue` pushes the smoothed result into its buffer, not the raw reading.
- `scan` sorts the addresses with JavaScript's default sort. That sort compares decimal strings, so 32 sorts before 9.
- `translateToHuman` names levels 1, 2 and 3. Level 0 has no label.
- The wrapped schedule case (the off time not after the on time) ignores the off time, which switches an overnight rule off after midnight (see Findings).
- The relay controller's register is changed before the bus write and is never rolled back.

## Model

| member | source | states |
|---|---|---|
| Clocks.TruncDiv | src/cronjob/cronjob.service.js:37-45 | moment's whole-unit difference: positive exactly from one whole unit on, above one exactly from two units on, and the quotient truncated toward zero |
| Relays.CheckRelayOptions | src/relay/relay.class.js:22-48 | a relay document is accepted exactly when `_id` and label are truthy and the address is present and non-zero; otherwise the first failed check's message |
| Relays.Relay.constructor | src/relay/relay.class.js:22-48 | a new relay keeps the document's id, label, address, name and controller, and starts off, with no owner and no block |
| Relays.Relay.SwitchOn | src/relay/relay.class.js:68-83 | already on: success with no controller call and nothing changed. Otherwise the controller's register gains the bit of the relay's own address (command 1). On a write error the state and owner are unchanged. On success the state is 1, the owner is the detector, and one 'on' event is produced |
| Relays.Relay.SwitchTo | src/relay/relay.class.js:68-106 | switchOn or switchOff by a flag: already in the target state exactly when nothing happens; a switch sets the state (and the owner on switching on); otherwise state and owner stay; the register moves by the relay's bit unless the relay was already there |
| Relays.Relay.SwitchOff | src/relay/relay.class.js:92-106 | the mirror image: already off does nothing; on success the state is 0 and the owner cleared; a write error changes nothing |
| Bus.Pow2 | src/relay/relay-controller/relay-controller.class.js:79 | `2 ** (p - 1)` is at least 1 |
| RelayControllers.DefaultMappingIsPermutation | src/relay/relay-controller/relay-controller.class.js:34-41 | the default wiring [8,6,4,2,7,5,3,1] sends the addresses 1..8 one-to-one onto the positions 1..8 |
| RelayControllers.MaskBound | src/relay/relay-controller/relay-controller.class.js:79-88 | a register built from positions 1..n stays below 2^n, so below 256 for eight positions |
| RelayControllers.MaskAdd | src/relay/relay-controller/relay-controller.class.js:82-84 | switching on a position that is off adds exactly its power of two to the register |
| RelayControllers.MaskRemove | src/relay/relay-controller/relay-controller.class.js:85-88 | switching off a position that is on subtracts exactly its power of two |
| RelayControllers.MaskBit | src/relay/relay-controller/relay-controller.class.js:79-88 | bit k of the register is set exactly when position k+1 is on: the register is the OR of the on positions' bits |
| RelayControllers.BootRelayController | src/relay/relay-controller/relay-controller.class.js:54-65 | without a bus the boot fails with 'I2c not booted'; with one, it succeeds exactly when the IODIR write does |
| RelayControllers.RelayController.constructor | src/relay/relay-controller/relay-controller.class.js:32-47 | the register starts at 0; the mapping is the environment's, otherwise the default one |
| RelayControllers.RelayController.SwitchRelay | src/relay/relay-controller/relay-controller.class.js:74-102 | the register moves by 2^(p-1) for p = mapping[address-1], up for command 1 and down otherwise, before the write. The WriteByte of the whole register to GPIO 0x09 at 0x20 is issued, and a write failure is reported without rollback. Without a bus the error is 'I2C not booted' and no write is issued |
| RelayService.Admitted | src/relay/relay.service.js:35-53 | the stored relays a boot admits (the first per free address) all carry an address |
| RelayService.AdmittedStep | src/relay/relay.service.js:35-53 | one more stored relay is admitted exactly when its address is not yet taken |
| RelayService.AdmittedDistinct | src/relay/relay.service.js:35-53 | after a boot no two registered relays share an address |
| RelayService.AdmittedCovers | src/relay/relay.service.js:35-53 | every stored relay's address ends up registered, either already taken or newly admitted |
| RelayService.FirstWithId | src/relay/relay.service.js:66-73 | findIndex by id: the first relay carrying the id, or none when no relay does |
| RelayService.StateInFirst | src/relay/relay.service.js:88-94 | the (id, state) table lookup returns the state of the first relay with the id, or nothing |
| RelayService.PositionFree | src/relay/relay-controller/relay-controller.class.js:79-88 | with a one-to-one mapping and distinct addresses, an off relay's register position is not among the on positions of its controller |
| RelayService.PositionsOtherController | src/relay/relay.service.js:175-189 | switching a relay leaves the on positions of every other controller unchanged |
| RelayService.PositionsSwitchedOn | src/relay/relay-controller/relay-controller.class.js:82-84 | switching on an off relay adds exactly its position to its controller's on positions |
| RelayService.PositionsSwitchedOff | src/relay/relay-controller/relay-controller.class.js:85-88 | switching off an on relay removes exactly its position |
| RelayService.MaskStep | src/relay/relay-controller/relay-controller.class.js:79-88 | moving a tracking register by the relay's bit gives the register of the new on positions |
| RelayService.TracksAfterSwitch | src/relay/relay.class.js:69-82 | an invariant: every register is the OR of its relays' on bits. A switch gated by the relay's idempotence check, with a successful write, preserves it |
| RelayService.TracksBroken | src/relay/relay-controller/relay-controller.class.js:83-100 | a register that moved while its relay's state did not (a failed write) no longer tracks the relays |
| RelayService.BlockedTenMinutesReadsNine | src/relay/test/output.service.test.js:27-36 | blocked for 10 minutes and read within the next minute, the block has 9 whole minutes left |
| RelayService.RelayService.constructor | src/relay/relay.service.js:21 | the registry starts empty, so its registers trivially track the relays |
| RelayService.RelayService.GetRelayById | src/relay/relay.service.js:66-73 | found exactly when some relay has the id, and then a relay with that id; otherwise 'No ouptut with this ID' |
| RelayService.RelayService.GetRelayState | src/relay/relay.service.js:88-94 | null exactly when no relay has the id; otherwise the state of a relay with it |
| RelayService.RelayService.StateLookup | src/relay/relay.service.js:88-94 | getRelayState is the first-match lookup in the registry's (id, state) table |
| RelayService.RelayService.OperateRelay | src/relay/relay.service.js:175-189 | an operation other than switchOn and switchOff fails with 'Invalid operation' before any lookup. An unknown id gives the lookup's error. Otherwise the first relay with the id is switched. A switch that happens makes the detector the relay's owner on switchOn and clears the owner on switchOff. No other relay's state or owner changes, and a relay that is not switched (already in the state, or its write failed) keeps its owner. The register invariant survives unless the write fails |
| RelayService.RelayService.SwitchRecorded | src/relay/relay.class.js:69-82 | a switch of the relay at the index: only it may change state or owner, it is reported already in the state exactly when it was, and a switch on records the detector as its owner while a switch off clears it |
| RelayService.RelayService.BlockRelay | src/relay/relay.service.js:198-206 | the found relay's blockedTill becomes now plus the minutes. Nothing else of any relay changes, and an unknown id gives the lookup's error |
| RelayService.RelayService.RenameRelay | src/relay/relay.service.js:120-131 | a storage error is passed on and changes nothing; otherwise only the first relay with the id takes the new name |
| RelayService.RelayService.BootRelays | src/relay/relay.service.js:28-58 | a new controller is built each time and a non-additive boot clears the registry. A failed query returns its error, and no stored relays give 'No relays found'. Relays are added only when the controller's address is active: one new unblocked, off relay per admitted stored relay, after the kept ones, with that document's id, label, address and (when set) name. After a non-additive boot every register is the OR of its relays' on bits, and an additive boot keeps that invariant when it held before |
| RelayService.RelayService.Populate | src/relay/relay.service.js:35-57 | after the controller is built: a non-additive boot clears the registry, a failed query and an empty result give their errors, and an active controller gets the stored relays registered, each with its document's id, label, address and (when set) name, off and unowned; the register invariant holds after a non-additive boot and is kept by an additive one |
| RelayService.RelayService.RegisterTracked | src/relay/relay.service.js:47-53 | registering the stored relays on a new controller (register 0) adds them as Register does and keeps the register invariant of the relays already registered |
| RelayService.RelayService.BootedTracks | src/relay/relay.service.js:47-53 | kept relays whose registers track them, followed by new off relays on a new controller whose register is 0, still track |
| RelayService.TracksAppendedOff | src/relay/relay-controller/relay-controller.class.js:32-47 | appending off relays of a controller none of the kept relays uses, with register 0, preserves the register invariant |
| RelayService.RelayService.RegisterInByte | src/relay/relay-controller/relay-controller.class.js:79-100 | while the invariant holds and the mapping is one-to-one, every register written to GPIO fits in one byte (0..255) |
| RelayControllers.MaskOfEmpty | src/relay/relay-controller/relay-controller.class.js:32-47 | no relay on gives the register 0 a new controller starts with |
| RelayService.RelayService.RegisterOne | src/relay/relay.service.js:47-53 | one round of the forEach keeps the loop invariant: the registry is the kept relays followed by one relay per stored document admitted so far, and its addresses are the taken ones followed by theirs |
| RelayService.RelayService.KeepIfFree | src/relay/relay.service.js:50-52 | the findIndex test: the built relay is registered exactly when no registered relay has its address, and the invariant then covers one more document |
| RelayService.RelayService.Append | src/relay/relay.service.js:51 | the push: the registry grows by exactly the new relay at its end, and stays one of distinct, wired addresses |
| RelayService.RegistryAppend | src/relay/relay.service.js:50-52 | an off, wired relay at an address no registered relay has keeps the addresses distinct |
| RelayService.ExtendsAppend | src/relay/relay.service.js:47-53 | registering the relay built from one more admitted document extends the registry-by-documents correspondence and its address list by that document |
| RelayService.RelayService.Register | src/relay/relay.service.js:47-53 | the forEach over the stored relays: the registry becomes the earlier relays followed by one relay per admitted document, carrying that document's id, label, address and (when set) name, off, unowned and unblocked |
| RuleValidator.Base | src/rule/rule.validator.js:5-69 | alwaysOn accumulates nothing; an unknown, absent or null trigger gives the message naming it as a template literal prints it |
| RuleValidator.Validate | src/rule/rule.validator.js:64-68 | a rule passes exactly when it has every field its trigger requires (an independent table); a failure carries the accumulated, non-empty message |
| RuleValidator.CompleteIffEmpty | src/rule/rule.validator.js:9-61 | the accumulated message is empty exactly when every field the trigger requires is present |
| RuleValidator.UnboundThresholdRule | src/rule/rule.validator.js:28-57 | a threshold rule without all of sensor, detector type and detector id fails, with a message ending in 'No sensor specified' |
| RuleValidator.MissingTriggerMessage | src/rule/rule.validator.js:60-61 | a rule without a trigger is refused with 'Rule trigger undefined not known', one whose trigger is stored as null with 'Rule trigger null not known' |
| RuleValidator.EmptyTimeRule | src/rule/rule.validator.js:9-19 | a bare timeOnOff rule gets its three messages concatenated without separators |
| SensorModel.Errors | src/sensor/sensor.model.js:29-45 | at most one message: 'uuid is required' for BLE without uuid, 'I2C address is required' for I2C without address |
| SensorModel.Verdict | src/sensor/sensor.model.js:46-49 | success exactly when neither message applies; any other technology passes |
| SensorModel.ClearedIdempotent | src/sensor/sensor.model.js:31-45 | validating a validated document changes nothing and gives the same verdict |
| SensorModel.ClearedFields | src/sensor/sensor.model.js:31-45 | BLE loses the address, I2C the uuid, and any other document is unchanged |
| SensorModel.SensorDocument.constructor | src/sensor/sensor.model.js:29 | the document holds the given data |
| SensorModel.SensorDocument.Validate | src/sensor/sensor.model.js:29-50 | the verdict of the original data, with the field the technology does not use deleted in place |
| SensorHistory.PushedFacts | src/sensor/sensor.class.js:271-282 | after the push branch the history holds at most 30 samples, sorted by time. It holds the new sample and the old ones, less the oldest when the list was full |
| SensorHistory.PushedInOrder | src/sensor/sensor.class.js:271-282 | for readings arriving in time order, the sort is a no-op: append, then drop the oldest beyond 30 |
| SensorHistory.Coalesce | src/sensor/sensor.class.js:300-316 | the lastEntry filter keeps some of the readings, in order |
| SensorHistory.CoalesceSpaced | src/sensor/sensor.class.js:300-316 | every kept reading lies at least two whole units before the previous kept one and before the cursor |
| SensorHistory.NewestKept | src/sensor/sensor.class.js:300-316 | the newest reading is always kept, because the cursor starts five units ahead of it |
| SensorHistory.FilteredHistoryFacts | src/sensor/sensor.class.js:300-316 | the loaded history has between 1 and 30 samples, oldest first, at least two units apart, and ends with the newest stored reading |
| SensorHistory.FilterExampleSeconds | src/sensor/test/sensor.class.test.js:171-193 | readings half an hour, half a minute and half a second old give 3 samples at a step of seconds |
| SensorHistory.FilterExampleMinutes | src/sensor/test/sensor.class.test.js:171-193 | the same readings give 2 samples at a step of minutes |
| SensorHistory.FilterExampleHours | src/sensor/test/sensor.class.test.js:171-193 | the same readings give 1 sample at a step of hours |
| Sensors.CheckSensorOptions | src/sensor/sensor.class.js:49-70 | a sensor document is accepted exactly when it has an id, a model, a non-empty detector list and, for I2C, a non-zero address; a document failing only the address check gets 'Address is required' |
| Sensors.ModesOf | src/sensor/sensor.class.js:77-80 | without modes, smoothing over five values and no Kalman filter |
| Sensors.AcceptedSpaced | src/sensor/sensor.class.js:140-162 | of readings in time order, the ones a rate limit lets through lie at least the interval apart and at least the interval after the last stamp |
| Sensors.IntervalFor | src/sensor/sensor.class.js:170-186 | seconds, minutes and hours have push intervals of 5000, 60000 and 3600000 ms; no other unit has one |
| Sensors.SmoothedBufferLength | src/sensor/sensor.class.js:220-232 | the smoothing buffer grows by one until it holds N values, then keeps N; its newest value is the smoothed result |
| Sensors.SmoothedWithin | src/sensor/sensor.class.js:220-232 | the smoothed value lies within the range of the reading and the buffered values |
| Sensors.SmoothedExample | src/sensor/test/sensor.class.test.js:129-134 | five ones and a reading of 10 smooth to 2.5 |
| Sensors.Round | src/sensor/sensor.class.js:264-266 | Math.round: an integer within half of the value, halves rounding up |
| Sensors.Detector.constructor | src/sensor/sensor.class.js:83-95 | a new detector has an empty history, buffer and rule list, and no current value or stamps |
| Sensors.Sensor.constructor | src/sensor/sensor.class.js:49-103 | the document's id, model and technology. An address only for I2C. The document's modes or the default. The time unit is seconds and the push interval 5000 ms |
| Sensors.Sensor.CheckWrite | src/sensor/sensor.class.js:140-152 | true exactly when there was no write or 5000 ms have passed; on true the stamp becomes now, otherwise it stays |
| Sensors.Sensor.CheckPush | src/sensor/sensor.class.js:154-162 | the same against the push interval of the current time unit |
| Sensors.Sensor.ChangeSensorTimeUnit | src/sensor/sensor.class.js:170-186 | a known unit sets the unit and its interval; any other unit fails with 'Time unit is not valid' and changes neither |
| Sensors.Sensor.AdjustValue | src/sensor/sensor.class.js:220-232 | once N values are buffered, the result is the mean of the reading and the last N; the result is pushed and the oldest shifted off |
| Sensors.Sensor.InitRules | src/sensor/sensor.class.js:351-365 | after a successful query the detector gets exactly the stored threshold rules for its sensor and type, in order; after a failed one the model gives it no rules (see Left out) |
| Sensors.Sensor.ProcessSensorValue | src/sensor/sensor.class.js:241-291 | a reading that is not a number changes nothing: the detector's fields, every relay and every relay controller are unchanged. Otherwise the current value is the processed reading, and every rule is applied to it, each with the per-rule facts of ApplyRules, and the relay states and owners end as the StatesAfter and OwnersAfter folds of the switched applications. The history and write stamp follow checkPush and checkWrite. The register invariant survives unless a write failed |
| Sensors.Sensor.Measure | src/sensor/sensor.class.js:246-268 | the reading is processed into the current value before the rules see it; every rule is applied to that value with the per-rule facts of ApplyRules, the relay states and owners end as the StatesAfter and OwnersAfter folds, and the registers keep tracking the relays unless a write failed; the history and stamps are not touched |
| Sensors.Sensor.Log | src/sensor/sensor.class.js:270-290 | the two branches of async.parallel: the current value joins the history exactly when a push is due, the write stamp moves exactly when a write is due, and no relay state, owner or register changes |
| Sensors.Sensor.Prepare | src/sensor/sensor.class.js:246-267 | the reading smoothed (or filtered) and rounded becomes the current value with the time stamp |
| Sensors.Sensor.PushHistory | src/sensor/sensor.class.js:271-282 | when a push is due the current value joins the bounded, sorted history; otherwise nothing changes |
| Sensors.Sensor.FilterSensorHistory | src/sensor/sensor.class.js:300-316 | the loaded history is the coalesced readings for the current unit's length |
| RuleEngine.Decide | src/sensor/sensor.class.js:376-407 | a pump rule with on above the reading asks for on. Otherwise, with on above off, above on means on and below off means off. With on not above off, below on means on and above off means off. Comparisons are strict, so a threshold value asks for nothing. A threshold stored as null compares as 0, and an absent one makes every comparison with it false |
| RuleEngine.NullOffIsZero | src/sensor/sensor.class.js:379-385 | with on 2 and off stored as null, the rule is a rising one (2 > 0): 5 switches on and 1 asks nothing; with off absent it is a falling one: 5 asks nothing and 1 switches on |
| RuleEngine.NullOnIsZero | src/sensor/sensor.class.js:376-393 | an on-threshold stored as null is 0, so a negative reading switches on (unless off is negative); an absent on-threshold never switches on |
| RuleEngine.RisingRuleExample | src/sensor/test/sensor.class.test.js:220-266 | on 30, off 20: 32 switches on and 28 asks nothing |
| RuleEngine.FallingRuleExample | src/sensor/test/sensor.class.test.js:220-266 | on 10, off 20: 9 switches on and 11 asks nothing |
| RuleEngine.PumpFallsThrough | src/sensor/sensor.class.js:376-379 | a pump rule whose on value is not above the reading is decided like any other rule |
| RuleEngine.CheckGate | src/sensor/sensor.class.js:420-439 | the switch goes ahead exactly when: the relay is in the other state; it is not owned by another detector; it is not blocked for another whole second; a pump rule has both of its durations; and a night-off rule is not at night (hour >= 22 or <= 10) |
| RuleEngine.NightOffStrict | src/sensor/sensor.class.js:437 | only `nightOff === true` can hold a switch back at night |
| RuleEngine.BlockExpiresWithinASecond | src/sensor/sensor.class.js:429-431 | a block ending less than a second from now does not hold a switch |
| RuleEngine.Actuate | src/sensor/sensor.class.js:443-471 | the relay is operated, with its error only logged. When it switches, the detector becomes its owner on switchOn and stops being one on switchOff; no other relay's owner changes. With an on-time it is blocked for the blocking minutes, and the counter-switch is left to a timer at now + durationMSOn |
| RuleEngine.BlockFor | src/sensor/sensor.class.js:449-471 | with an on-time: block the relay and set the counter-switch; no relay's state or owner changes |
| RuleEngine.ApplyRule | src/sensor/sensor.class.js:371-476 | no decision, no transition. A missing relay is reported exactly when the lookup fails. A held switch carries the gate that held it. A relay is switched only when the decision asks for a change and the gate lets it through, and then only the first relay with the id changes, to the decided state, with the detector as its owner when switched on and no owner when switched off; otherwise no state or owner changes. With an on-time the relay is blocked for the blocking minutes and the counter-switch is pending at now + durationMSOn |
| RuleEngine.StatesAfter | src/sensor/sensor.class.js:371-476 | an independent account of the relay states after a list of rule applications: in rule order, each application that switched a relay sets it to the decided state |
| RuleEngine.OwnersAfter | src/sensor/sensor.class.js:371-476 | the owner (blockedBy) of each relay after a list of rule applications: in rule order, each switch on makes the detector the owner of the relay switched and each switch off clears it |
| RuleEngine.OperateFound | src/sensor/sensor.class.js:443-447 | operateRelay on a relay the registry knows: the first relay with the id switches, or is reported already in the state, and its owner follows the switch |
| RuleEngine.StatesAfterNoSwitch | src/sensor/sensor.class.js:371-476 | when no application switched a relay, every relay keeps its state |
| RuleEngine.StatesAfterAt | src/sensor/sensor.class.js:371-476 | a relay no application switched keeps its state; one that some application switched ends up on or off |
| RuleEngine.ApplyNext | src/sensor/sensor.class.js:371-476 | one turn of the loop keeps what the earlier rules' applications guaranteed |
| RuleEngine.ApplyRules | src/sensor/sensor.class.js:371-476 | every rule is applied in order. For each: no transition exactly where its decision is none, a missing relay exactly where the lookup fails, an operation carrying its switch's outcome and its pending counter-switch. The final relay states are the fold of the switched applications over the states before (StatesAfter), the final owners are the matching fold (OwnersAfter), and nothing changes when nothing was operated. The register invariant survives unless a write failed |
| RuleEngine.AppendApplied | src/sensor/sensor.class.js:371-476 | one more rule applied: every application keeps its own per-rule facts; some write failed exactly when one did before or in the new application; the state account grows by the new application's switch |
| MHZ16.SubAddress | src/sensor/mhz-16-sensor.class.js:6-15 | the bridge's register sub-address is the register index shifted left by 3 |
| MHZ16.ToInt32 | src/sensor/mhz-16-sensor.class.js:113 | JavaScript's ToInt32: a signed 32-bit value congruent to the input |
| MHZ16.Parse | src/sensor/mhz-16-sensor.class.js:103-114 | no value unless there are 9 bytes; for 9, a value exactly when the start byte, the command echo and the checksum are right; the value is the shift-and-add of bytes 2..5 |
| MHZ16.PpmIsBigEndian | src/sensor/mhz-16-sensor.class.js:113 | the shift-and-add is bytes 2..5 read big-endian when byte 2 is below 0x80, and that minus 2^32 (negative) otherwise |
| MHZ16.ParseFrame | src/sensor/mhz-16-sensor.class.js:103-114 | round trip: the answer frame for a concentration parses back to it |
| MHZ16.CommandIsNoAnswer | src/sensor/mhz-16-sensor.class.js:6-15 | the measure command frame itself does not parse |
| MHZ16.ParseExample | src/sensor/mhz-16-sensor.class.js:103-114 | ff9c0000023300002f reads 563 ppm |
| MHZ16.BootFrom | src/sensor/mhz-16-sensor.class.js:61-95 | the boot writes go in order from a given one, stopping at the first fatal reply |
| MHZ16.Boot | src/sensor/mhz-16-sensor.class.js:61-95 | no bus: nothing written and an error. Otherwise the six UART writes in order, succeeding exactly when no reply is fatal; EIO on the first write is tolerated |
| MHZ16.ResetEioTolerated | src/sensor/mhz-16-sensor.class.js:61-85 | EIO on the reset write still boots |
| MHZ16.LaterEioFails | src/sensor/mhz-16-sensor.class.js:61-95 | EIO on the second write stops the boot there |
| MHZ16.Fill | src/sensor/mhz-16-sensor.class.js:160-166 | the read buffer holds the delivered bytes, zeros after them |
| MHZ16.Collect | src/sensor/mhz-16-sensor.class.js:141-174 | a loop that completes has collected exactly what was missing |
| MHZ16.Received | src/sensor/mhz-16-sensor.class.js:132-184 | a normal end of the receive loop yields exactly 9 bytes |
| MHZ16.ReceiveFrame | src/sensor/mhz-16-sensor.class.js:132-184 | the while loop over `left`: min(level, left) bytes per round, collected + left = 9 throughout, a zero level waiting; it agrees with the round-by-round function |
| MHZ16.OneRound | src/sensor/mhz-16-sensor.class.js:141-174 | a FIFO holding the whole answer gives it in one round |
| MHZ16.EmptyFifoTimesOut | src/sensor/mhz-16-sensor.class.js:136-139 | an empty FIFO until the timer fires gives 'Operation timed out' |
| MHZ16.OverfullLevel | src/sensor/mhz-16-sensor.class.js:149-152 | a level above what is missing takes only what is missing |
| MHZ16.ReadCO2 | src/sensor/mhz-16-sensor.class.js:120-199 | a failed FIFO reset is returned. A TxLVL below 9 refuses the command, and the measure command is sent exactly when the level allows. A send error is returned; otherwise the parsed receive |
| MHZ16.TurnFor | src/sensor/mhz-16-sensor.class.js:204-234 | a co2 detector's non-zero reading is processed; any other detector type ends the pass with 'Detector type not implemented' |
| MHZ16.PassValues | src/sensor/mhz-16-sensor.class.js:207-221 | one pass processes the detectors' values in order and stops at the first detector that yields none |
| MHZ16.ZeroStalls | src/sensor/mhz-16-sensor.class.js:214-216 | a reading of 0 ppm is falsy and stalls the pass |
| HDC1000.Raw | src/sensor/hdc1000-sensor.class.js:83-100 | the 16-bit raw value lies in 0..65535 |
| HDC1000.ConvertHumidity | src/sensor/hdc1000-sensor.class.js:83-87 | humidity in [0, 100), zero exactly for the bytes (0, 0) |
| HDC1000.ConvertTemp | src/sensor/hdc1000-sensor.class.js:95-100 | Celsius in [-40, 125), -40 exactly for (0, 0) |
| HDC1000.FahrenheitOfCelsius | src/sensor/hdc1000-sensor.class.js:95-100 | Fahrenheit is Celsius times 9/5 plus 32, so it lies in [-40, 257) |
| HDC1000.ConversionsMonotone | src/sensor/hdc1000-sensor.class.js:83-100 | both conversions preserve the order of the raw values |
| HDC1000.HumidityRecoversRaw | src/sensor/hdc1000-sensor.class.js:83-87 | the raw value is recovered from the humidity |
| HDC1000.HalfScale | src/sensor/hdc1000-sensor.class.js:83-100 | 0x8000 reads 50 % and 42.5 degrees Celsius (108.5 Fahrenheit) |
| HDC1000.ModeOf | src/sensor/hdc1000-sensor.class.js:41-45 | the configured temperature unit, or 'celsius' when none is set |
| HDC1000.Boot | src/sensor/hdc1000-sensor.class.js:62-74 | without a bus the boot fails; with one, it succeeds exactly when the configuration write does, passing on its error |
| HDC1000.ReadWith | src/sensor/hdc1000-sensor.class.js:107-160 | a receive error ends the reading. A missing byte or the pair (0, 0) is no reading, not an error. Otherwise the conversion of the two bytes |
| HDC1000.InMode | src/sensor/hdc1000-sensor.class.js:123-127 | Fahrenheit exactly when the mode is 'fahrenheit', Celsius otherwise |
| HDC1000.ReadTemperature | src/sensor/hdc1000-sensor.class.js:107-134 | a real reading is the temperature in the sensor's unit |
| HDC1000.ReadHumidity | src/sensor/hdc1000-sensor.class.js:140-160 | a real reading is a humidity strictly between 0 and 100 |
| HDC1000.CelsiusByDefault | src/sensor/hdc1000-sensor.class.js:41-45 | with no unit configured, 0x8000 reads 42.5 |
| HDC1000.FahrenheitWhenConfigured | src/sensor/hdc1000-sensor.class.js:123-127 | in a Fahrenheit system the same reading is 108.5 |
| HDC1000.TurnFor | src/sensor/hdc1000-sensor.class.js:165-205 | temperature and humidity readings are processed; any other detector type ends the pass with its 'not implemented' message |
| Chirp.TranslateToHuman | src/sensor/chirp-sensor.class.js:59-65 | rounded levels 1, 2 and 3 are Dry, Moist and Wet; anything else, 0 included, is 'No valid waterlevel' |
| Chirp.DryReadingHasNoLabel | src/sensor/chirp-sensor.class.js:59-65 | 0 has no label and 1 is Dry |
| Chirp.WetStep | src/sensor/chirp-sensor.class.js:71-81 | the level is always remembered and an unchanged level changes nothing. A new wet level restarts the clock at now. Only a wet level moves the start, and a span is recorded only for a dry level after a wet start |
| Chirp.WetStepIdempotent | src/sensor/chirp-sensor.class.js:71-81 | the same level twice is the same as once |
| Chirp.WetThenDry | src/sensor/chirp-sensor.class.js:74-79 | a wet level, then 0: the span is the whole seconds in between, and the start is not cleared |
| Chirp.MoistToWetRestarts | src/sensor/chirp-sensor.class.js:74-75 | a change between two wet levels restarts the clock |
| Chirp.DryFirstRecordsNothing | src/sensor/chirp-sensor.class.js:76-79 | a dry reading before any wet one records no span |
| Chirp.ChirpSensor.constructor | src/sensor/chirp-sensor.class.js:29-48 | no level, start or span recorded yet |
| Chirp.ChirpSensor.SetWetTimeSpan | src/sensor/chirp-sensor.class.js:71-81 | the fields step as the state machine says; an unchanged level changes nothing; the last level becomes the new one |
| SensorService.PlanAt | src/sensor/sensor.service.js:65-118 | one step of the series: the document at position k is admitted, skipped or fails the series |
| SensorService.PlanFacts | src/sensor/sensor.service.js:65-117 | every admitted sensor is an I2C one at an active address, of model chirp, hdc1000 or mhz16, and at an address not already taken; no two admitted sensors share an address |
| SensorService.PlanFails | src/sensor/sensor.service.js:65-122 | if no constructed sensor fails its checks or its boot, the series ends well |
| SensorService.PlanFailure | src/sensor/sensor.service.js:65-122 | the converse: a series that ends badly ends with the error of one stored document that was not skipped (constructed, at an address not taken before) and whose checks, or else whose boot, failed |
| SensorService.BleSkipped | src/sensor/sensor.service.js:73-117 | a BLE sensor is never constructed |
| SensorService.DriverOptions | src/sensor/hdc1000-sensor.class.js:31-34 | the driver changes only the modes (the same rule at mhz-16-sensor.class.js:37-40 and chirp-sensor.class.js:31): a Chirp document without modes gets `{}` (no smoothing, no filter); an HDC1000 or MH-Z16 document gets the Kalman filter on top of its own smoothing setting when the environment configures one; every other document is passed on as stored |
| SensorService.ChirpUnsmoothed | src/sensor/chirp-sensor.class.js:31 | a stored Chirp sensor stores each reading as read, rounded if asked |
| SensorService.KalmanWhenConfigured | src/sensor/hdc1000-sensor.class.js:31-34 | an HDC1000 or MH-Z16 sensor under a configured Kalman filter stores the filtered value |
| SensorService.DefaultSmoothing | src/sensor/sensor.class.js:77-80 | without a configured filter, an HDC1000 or MH-Z16 sensor smooths over five values |
| SensorService.Build | src/sensor/sensor.service.js:75-99 | the built sensor carries the document's id, model, technology, address (I2C only) and its driver's modes (DriverOptions), and one detector per stored detector, in order, with that detector's id, type and rounding |
| SensorService.SensorService.constructor | src/sensor/sensor.service.js:27 | the registry starts empty |
| SensorService.SensorService.SensorRegistered | src/sensor/sensor.service.js:139-141 | true exactly when some registered sensor has the address |
| SensorService.SensorService.BootSensors | src/sensor/sensor.service.js:56-124 | a failed query changes nothing. Otherwise a non-additive boot clears the registry. The outcome is the series', and the admitted sensors join in order, each built from its document with its driver's modes |
| SensorService.SensorService.Add | src/sensor/sensor.service.js:35-40 | a sensor at a free address joins the end of the registry |
| SensorService.SensorService.UpdateSensorTimeUnit | src/sensor/sensor.service.js:161-178 | a null id or missing unit fails with its message. Exactly one sensor carrying the id gets the new unit and its push interval; a unit that is not known fails with 'Time unit is not valid' and leaves that sensor as it was; otherwise 'Could not identify sensor' and nothing changes |
| SensorService.ArgumentErrors | src/sensor/sensor.service.js:162-168 | one message per missing argument |
| SensorService.Matching | src/sensor/sensor.service.js:172 | exactly the positions holding the id |
| SensorService.TimeUnitTarget | src/sensor/sensor.service.js:161-178 | the checks of updateSensorTimeUnit: the argument errors, else the single matching position, else 'Could not identify sensor' |
| SensorService.TimeUnitTargetUnique | src/sensor/sensor.service.js:172-174 | a sensor carrying an id no other sensor carries is the one found |
| SensorService.TimeUnitTargetAmbiguous | src/sensor/sensor.service.js:172-177 | two sensors with the id make the lookup fail |
| Cronjobs.TimeFromCronjob | src/cronjob/cronjob.service.js:27-30 | fields 0, 1 and 2 of the pattern are the second, minute and hour of the time built |
| Cronjobs.DailyPatternTime | src/cronjob/cronjob.service.js:27-30 | a daily pattern "s m h * * *" gives back the time it was written for |
| Cronjobs.AfterCurrentTime | src/cronjob/cronjob.service.js:37-45 | a missing or invalid moment is never past; otherwise past exactly when now is at least one whole second after today's projection |
| Cronjobs.Decide | src/cronjob/cronjob.service.js:64-86 | with off later than on: on exactly between them, else off. With off not later: on exactly after the on time. Only an on pattern gives on; only an off pattern gives off |
| Cronjobs.WrappedIgnoresOff | src/cronjob/cronjob.service.js:74-81 | when off is not later than on, the off time plays no part in the decision |
| Cronjobs.IntendedDecide | src/cronjob/cronjob.service.js:73-81 | the corrected decision: across midnight, on exactly when today's on time has passed or today's off time has not; every other group as the code decides |
| Cronjobs.WrappedBootWindow | src/cronjob/cronjob.service.js:73-81 | across midnight the corrected decision is on exactly outside the window from one second past the off time to one second past the on time |
| Cronjobs.DecideDiffersFromIntended | src/cronjob/cronjob.service.js:73-81 | across midnight the code and the corrected decision differ exactly when neither the on time nor the off time has passed today |
| Cronjobs.GroupAll | src/cronjob/cronjob.service.js:53-59 | the grouping holds each relay once, in order of first appearance |
| Cronjobs.LastTime | src/cronjob/cronjob.service.js:53-59 | an independent reference: the time of the last entry for a relay and action |
| Cronjobs.GroupAllDistinct | src/cronjob/cronjob.service.js:53-59 | a relay enters the grouping's key order once, however many entries name it |
| Cronjobs.GroupAllKeys | src/cronjob/cronjob.service.js:53-59 | a relay is grouped exactly when some entry names it |
| Cronjobs.GroupAllTimes | src/cronjob/cronjob.service.js:53-59 | a grouped relay holds the times of its last on entry and its last off entry |
| Cronjobs.GroupAllFacts | src/cronjob/cronjob.service.js:53-59 | every relay with an entry is grouped exactly once, and each group's on and off times are those of its last entry, a later entry overwriting an earlier one |
| Cronjobs.Commands | src/cronjob/cronjob.service.js:87-95 | one operateRelay call per grouped relay with a decision, with detectorId null |
| Cronjobs.CommandsDistinct | src/cronjob/cronjob.service.js:87-95 | no relay gets two calls |
| Cronjobs.BootStatus | src/cronjob/cronjob.service.js:51-98 | the grouping loop, then the calls for the grouped relays |
| Cronjobs.GroupEntries | src/cronjob/cronjob.service.js:53-59 | the forEach fills exactly the grouping of all entries |
| Cronjobs.CollectCommands | src/cronjob/cronjob.service.js:61-96 | the for-in yields exactly the calls of the grouped relays that have a decision, in grouping order |
| Cronjobs.CalledIffEntry | src/cronjob/cronjob.service.js:51-98 | a relay is called at boot exactly when it has an on or an off entry |
| Cronjobs.BootStatusCommands | src/cronjob/cronjob.service.js:51-98 | at most one call per relay. A call is the decision for that relay's last on and off entries, and every grouped relay with a decision gets one |
| Cronjobs.LightScheduleAtBoot | src/cronjob/test/cronjob.service.test.js:35-51 | a light on at 07:30 and off at 19:30 is switched on at 12:12 and off at 02:12, one call each |
| Cronjobs.DayScheduleCommands | src/cronjob/test/cronjob.service.test.js:35-51 | the same for any grouping of one relay with those two times |
| Cronjobs.OnOffGroup | src/cronjob/cronjob.service.js:53-59 | an on entry and then an off entry for one relay give one group holding the on entry's time and the off entry's time |
| Cronjobs.LightScheduleGroups | src/cronjob/test/cronjob.service.test.js:35-51 | the two stored entries form one group holding both times |
| Cronjobs.CronJob.constructor | src/cronjob/cronjob.service.js:132-138 | a launched job runs its entry's pattern and call |
| Cronjobs.CronJob.Stop | src/cronjob/cronjob.service.js:149 | a stopped job no longer runs |
| Cronjobs.CronRegistry.constructor | src/cronjob/cronjob.service.js:19 | no jobs yet |
| Cronjobs.CronRegistry.LaunchCronjobs | src/cronjob/cronjob.service.js:123-142 | a failed query is returned. Otherwise the relays' states are restored as bootStatus decides, and one running job per entry follows the earlier ones |
| Cronjobs.CronRegistry.AddJobs | src/cronjob/cronjob.service.js:130-140 | one new running job per entry, in order, after the existing ones |
| Cronjobs.CronRegistry.StopCronjobs | src/cronjob/cronjob.service.js:147-152 | every job is stopped, and the active list (getActiveCronjobs) is empty |
| ChamberService.RuleSensors | src/chamber/chamber.service.js:34-38 | each rule's sensor, none for a missing rule |
| ChamberService.ActiveSensorsFacts | src/chamber/chamber.service.js:31-57 | the listed sensors have distinct ids. Each is a rule's sensor or a display, with a non-zero address at which a sensor is registered. Each such candidate's first occurrence is listed |
| ChamberService.Depopulated | src/chamber/chamber.service.js:63-75 | a rule is kept, with its relay reduced to its id, exactly when its relay was populated; otherwise undefined |
| ChamberService.EntriesFacts | src/chamber/chamber.service.js:59-83 | the relay entries are exactly those contributed by the rules with a populated relay |
| ChamberService.MapDepopulated | src/chamber/chamber.service.js:62-76 | the map applies the depopulating callback to every rule |
| ChamberService.AllRelaysFacts | src/chamber/chamber.service.js:59-83 | the chamber's relays have distinct ids. Each comes from a rule with that relay populated, named `name` or `label`, with its registered state. Every populated relay is listed |
| ChamberService.Chamber.constructor | src/chamber/chamber.service.js:31-33 | a chamber as loaded, with no lists yet |
| ChamberService.Chamber.ListActiveSensors | src/chamber/chamber.service.js:31-57 | the two forEach loops, uniqBy and the filter leave exactly the active sensors of the chamber |
| ChamberService.Chamber.ListRelays | src/chamber/chamber.service.js:59-83 | the rules are depopulated and the relays listed once each |
| ChamberService.AddListOfActiveSensors | src/chamber/chamber.service.js:31-57 | every chamber gets its list of active sensors |
| ChamberService.Depopulate | src/chamber/chamber.service.js:119-130 | a populated reference becomes its id; an absent one stays absent |
| ChamberService.Normalised | src/chamber/chamber.service.js:119-130 | relay and sensor are reduced to their ids, and the thresholds and all other fields are kept |
| ChamberService.NormalisedIdempotent | src/chamber/chamber.service.js:119-130 | normalising a normalised rule changes nothing |
| ChamberService.OffHour | src/chamber/chamber.service.js:166 | the off hour lies on the 24-hour clock |
| ChamberService.AddCronjobs | src/chamber/chamber.service.js:158-194 | a timeOnOff rule gets exactly two entries, switchOn then switchOff. An interval rule with a pattern gets one switchOn entry with it. Any other rule gets none. Each entry carries the rule's id and relay |
| ChamberService.TimeRuleFires | src/chamber/chamber.service.js:163-168 | the on entry fires at the start time; the off entry at the same minute and second, durationHOn hours later on the 24-hour clock |
| ChamberService.TimeRuleBootWindow | src/cronjob/cronjob.service.js:64-72 | between an on time and a later off time, the boot restores on |
| ChamberService.OvernightRuleAtTwo | src/cronjob/cronjob.service.js:74-81 | a rule on at 19:00 for 12 hours, restored at 02:00, is switched off by the code's wrapped case, although it is inside its on period |
| ChamberService.OvernightRuleIntended | src/cronjob/cronjob.service.js:73-81 | under the corrected decision the same rule restored at boot is on exactly from 19:00:01 through midnight until 07:00:01 |
| ChamberService.KeepNamedStrains | src/chamber/chamber.service.js:212-214 | the kept strains are exactly the named ones, in order |
| ChamberService.KeepNamedStrainsIdempotent | src/chamber/chamber.service.js:212-214 | saving twice drops nothing more |
| I2C.AddrLeqOrder | src/i2c/i2c.js:84 | the default sort's order on addresses (their decimal strings) is total, and antisymmetric on addresses |
| I2C.SortDevicesFacts | src/i2c/i2c.js:84 | the active list is sorted in that order and is a permutation of what the scan found |
| I2C.TextOrderExample | src/i2c/i2c.js:84 | the text sort puts 32 before 9 |
| I2C.ScanOrderIrrelevant | src/i2c/i2c.js:76-90 | two scans finding the same addresses, in any order, give the same active list |
| I2C.Changes | src/i2c/i2c.js:48-69 | no result exactly when the lists are equal; otherwise lost = previous \ current and added = current \ previous |
| I2C.RescanReports | src/i2c/i2c.js:48-69 | two scans report a change exactly when they found different addresses, counted with multiplicity |
| I2C.ActiveDevicesDetail | src/i2c/i2c.js:98-135 | an empty list gives []. A failed query gives its error. Otherwise a relay-controller entry exists exactly when 0x20 is active, and a sensor is listed exactly when its address is active |
| I2C.ActiveRecordsFacts | src/i2c/i2c.js:115-127 | the sensor entries are exactly the records at an active address |
| I2C.UpdateOps | src/i2c/i2c.js:140-161 | for a water sensor: the new address to register 0x01 at the old address, then, if that worked, reset 0x06; nothing otherwise |
| I2C.UpdateI2CAddress | src/i2c/i2c.js:140-161 | no bus and a sensor type other than waterSensor are errors; otherwise success exactly when both transactions succeed |
| I2C.I2CService.constructor | src/i2c/i2c.js:30 | no bus and no active devices |
| I2C.I2CService.BootI2C | src/i2c/i2c.js:36-42 | the bus is set even when opening fails; on success the scan follows |
| I2C.I2CService.Scan | src/i2c/i2c.js:76-90 | without a bus, 'I2C not booted (#1)' and nothing changes; otherwise the active list becomes the sorted scan and the scan's error is passed on |
| I2C.I2CService.CheckDifference | src/i2c/i2c.js:48-69 | the rescan replaces the list, and the result is the comparison of the list before with the list after |
| I2C.I2CService.AddressInActiveDevices | src/i2c/i2c.js:92-94 | exact list membership |
| I2C.I2CService.GetActiveDevices | src/i2c/i2c.js:98-135 | the device list of the current active addresses |
| I2C.ScannedMembership | src/i2c/i2c.js:76-90 | after a scan an address is active exactly when the bus reported it |
| Boot.Plan | src/_helper/ouputAndSensorBoot.helper.js:23-50 | each of noSensors, noRelays and noCrons (or the NO_CRONS environment) skips exactly its own unit. The cronjobs are stopped immediately before they are launched. The units get the options |
| Boot.RebootOptions | src/_helper/ouputAndSensorBoot.helper.js:59-74 | a reboot exactly when addresses were added: no cronjobs, additive, only the added addresses. The relays are skipped unless address 32 was lost or added |
| Boot.HotPlugReboot | src/_helper/ouputAndSensorBoot.helper.js:59-74 | a hot-plug reboot follows a new address. It boots the sensors at the added addresses, and the relays exactly when the controller came or went. It never touches the cronjobs |
| Boot.NoRebootWithoutAdded | src/_helper/ouputAndSensorBoot.helper.js:64-65 | a scan that found nothing new triggers no reboot |
| Boot.BootHelper.constructor | src/_helper/ouputAndSensorBoot.helper.js:15 | the watcher is not running |
| Boot.BootHelper.Watch | src/_helper/ouputAndSensorBoot.helper.js:59-61 | the flag is set and one interval more is running |
| Boot.BootHelper.BootSensorsAndRelays | src/_helper/ouputAndSensorBoot.helper.js:23-57 | the units the options ask for. A unit's error is returned with the watcher untouched. Otherwise the watcher is running, started at most once |
| SystemUpdate.Sanitized | src/system/system.update.js:86-93 | only region, timeZone, units and wifi remain, each with its original value |
| SystemUpdate.SanitizedIdempotent | src/system/system.update.js:86-93 | sanitising sanitised data changes nothing |
| SystemUpdate.SanitizedKeepsAllowed | src/system/system.update.js:86-93 | data with only allowed keys passes unchanged |
| SystemUpdate.Assigned | src/system/system.update.js:102 | Object.assign: the data's keys overwrite and the document's other keys stay |
| SystemUpdate.UpdateKeepsOtherSettings | src/system/system.update.js:86-102 | a setting outside the four is saved exactly as it was stored |
| SystemUpdate.RebootSkipsCronjobs | src/system/system.update.js:107-108 | the reboot after saving boots sensors and relays and no cronjobs |
| SystemUpdate.SystemData.constructor | src/system/system.update.js:85 | the request data |
| SystemUpdate.SystemData.Sanitize | src/system/system.update.js:86-93 | the for-in loop deletes in place exactly the keys that are not allowed |
| SystemUpdate.UpdateSystem | src/system/system.update.js:85-111 | the data is sanitised. A query or save error is returned alone, with no reboot. After a save, the reboot has noCrons, and the reply holds the saved (assigned) document together with the reboot's error; there is no error exactly when the query, the save and the reboot all succeed |
| TypeTransformer.ToUint8 | src/_helper/type-transformer.service.js:14-23 | a Uint8Array store: bytes unchanged, any integer congruent modulo 256 |
| TypeTransformer.ToUint8Idempotent | src/_helper/type-transformer.service.js:14-23 | storing a stored byte again changes nothing |
| TypeTransformer.Uint8Of | src/_helper/type-transformer.service.js:14-23 | each element reduced to a byte, same length |
| TypeTransformer.Uint8OfBytes | src/_helper/type-transformer.service.js:14-23 | bytes copy unchanged |
| TypeTransformer.ToArray | src/_helper/type-transformer.service.js:3-12 | a fresh array of the same length with element i = source[i]; the source is not written |
| TypeTransformer.ToUInt8Array | src/_helper/type-transformer.service.js:14-23 | a fresh array with element i = source[i] reduced to a byte |
| TypeTransformer.FrameToArray | src/_helper/test/type-transformer.service.test.js:13-18 | the test's buffer, the nine bytes 255,156,0,0,2,51,0,0,47, comes out of toArray as exactly those values |
| TypeTransformer.FrameExample | src/_helper/type-transformer.service.js:14-23 | the same nine bytes stored into a Uint8Array by toUInt8Array's element rule are unchanged; 256, 511 and -1 store as 0, 255 and 255 |

## Left out

- I/O: the I2C bus, the UART, the database, the socket broadcasts and the logger are not modelled. Their answers are parameters, and the bus transactions issued are returned as values.
- Timers and concurrency: setTimeout polling chains, the counter-switch timer, the cron library, the hot-plug setInterval and async.parallel are not modelled. A pending counter-switch is returned as a value. The watcher's tick is `Boot.WatchTick`. The first error of the boot units is the `failure` parameter of `Boot.BootHelper.BootSensorsAndRelays`. The time of the call (`now`, the hour) is a parameter throughout.
- The boot units themselves, as started by `Boot.BootHelper.BootSensorsAndRelays`, are named by `Boot.Action` values, since they are modelled in their own modules.
- Floating point: readings and conversions are `real`, so rounding errors of IEEE doubles are not modelled. parseFloat of the thresholds in addRules is the identity.
- The Kalman filter (a foreign library with floating-point state) is a parameter, the filtered value, and its R and Q settings are not modelled. Whether the KALMAN_FILTER environment variable is set is the `envKalman` parameter of `SensorService.Build`. The filter's CSV trace file is not modelled.
- Time zones, daylight-saving time and moment's calendar arithmetic are not modelled: times of day are integers, and a date is its local clock.
- Relays.Relay.SwitchOn and Relays.Relay.SwitchOff are atomic in the model. The source sets the state in the bus-write callback, so interleaved switches are not modelled.
- RuleEngine.Actuate: the source switches the relay back immediately when blocking fails. blockRelay on a relay the registry knows never fails, so that branch is unreachable and is not modelled.
- RelayService.RelayService.BlockRelay takes the minutes as an integer. An absent `durationMBlocked` adds no time (`RuleEngine.BlockMinutes`).
- RelayService.RelayService.BootRelays requires, only when the controller is active, that the stored relays pass the Relay constructor's checks and have addresses 1..8 that the mapping sends to a position. The source builds Relays only then, and throws, or computes with undefined, when these fail.
- getRelays is not modelled: it can call its callback twice.
- The IdOnly relay of an already depopulated rule counts as not populated in `ChamberService.EntryOf`. This assumes a mongoose version whose bare ObjectId has no `_id` field; versions that define an `ObjectId.prototype._id` getter would count it as populated.
- Sensors.Sensor.InitRules requires every stored rule to name its relay, which the rule engine assumes.
- Sensors.Sensor.InitRules: when the rule query fails, getRules calls back without a value (src/rule/rule.service.js:13-16). The source then sets the detector's rules to undefined, and the next applyRules throws a TypeError on `detector.rules.forEach` at every reading. The model substitutes the empty rule list, so it does not capture that crash.
- Sensors.Sensor.AdjustValue requires `adjustValues >= 1`: with 0 the source's reduce over an empty slice throws. SensorService.SensorService.BootSensors requires the same of every stored sensor.
- readSensorHistory and the reload of the history from the database on a time-unit change are not modelled (database I/O). `Sensors.Sensor.FilterSensorHistory` is the filter applied to the loaded readings.
- The Relay constructor's 'Relay controller is required' check cannot fail in the model: a controller object is always passed.
- A constructor that throws is modelled as a failed check (`Sensors.CheckSensorOptions`, `Relays.CheckRelayOptions`).
- The Chirp sensor's readSensor and boot are not modelled.
- SensorService.SensorService.BootSensors models the Chirp driver as its authors meant it: the boot succeeds and the sensor is registered. As written, the constructor's boot callback uses `that` (src/sensor/chirp-sensor.class.js:40-41), which is not declared in that strict-mode file. The callback runs from boot's setTimeout (line 55). The ReferenceError it throws is uncaught, so `next` is never called, bootSensors never calls back, and the process ends. The model does not capture this: a Chirp document at an active address boots with the outcome given in `booted` and is registered.
- MHZ16.Received: answers that run out before the loop completes are modelled as the timeout firing.
- Cronjobs.TimeFromCronjob: a malformed pattern gives an invalid moment. moment's lenient parsing of such patterns is not modelled.
- ChamberService.AddCronjobs: a fractional durationHOn is not modelled; the hours are integers.
- Database persistence is not modelled: upsertRule, upsertCronjob, removeCronjobs, the saving of chambers, the error path of addRules' eachSeries, and the sensor documents' address and uuid as stored.
- The `booted` outcomes of the sensors' boot calls and the active address list are parameters of `SensorService.SensorService.BootSensors`.
- broadcastSensors, seedSensors and getSensorsRaw are not modelled (I/O).
- getRelayState is stated through the registry's (id, state) table (`RelayService.RelayService.StateLookup`).
- A scan error that leaves `devices` undefined makes the source throw on the sort; the model's scan always carries a list.
- getActiveDevices' database query is a parameter, its answer (`records`).
- Node's `Buffer.from(hex)` decoding is not modelled. The unit test's frame is stated on the bytes it decodes to (`TypeTransformer.FrameToArray`).
- A new system document's schema defaults are not modelled; it starts as an empty map.
- The license cronjob, getLicenseInformation and reset in the settings module are left out (network and database).
- Setting values are opaque strings, and the key order of for-in does not matter to the result.
- The NO_CRONS environment variable is a parameter (`envNoCrons`).
- Cronjobs.BootStatus and Cronjobs.CronRegistry.LaunchCronjobs restore the states with the code's decision (`Cronjobs.Decide`), so the boot behaviour of the model stays the repository's; the corrected decision `Cronjobs.IntendedDecide` is stated and proved beside it.
- Cronjobs.BootStatus takes each cronjob's relay as an id. A cronjob whose relay document was deleted is populated with `relay: null`, and the source's `relay._id` then throws a TypeError, so launchCronjobs never calls back. That crash is not modelled.
- RuleEngine.ApplyRules does not restate each relay's blockedTill or a held rule's gate in terms of the state before the loop, because a later rule on the same relay can block it again or change its state; RuleEngine.ApplyRule states both per rule.
- ChamberService.ActiveSensors removes duplicates by id value. The source's `uniqBy(chamber.activeSensors, '_id')` compares the `_id` ObjectIds with SameValueZero, which is reference equality for objects. Displays and rule sensors are filled in by separate populate queries, so a sensor that is both a display and a rule's sensor is listed twice by the source and once by the model.
- ChamberService.ActiveSensorsFacts states distinct ids, which holds for the model's value-based dedup only; the source's list can hold the same sensor twice, as in the ChamberService.ActiveSensors line.
- ChamberService.Chamber.ListActiveSensors lists a sensor that is both a display and a rule's sensor once, where the source lists it twice, as in the ChamberService.ActiveSensors line.
- ChamberService.AddListOfActiveSensors inherits the same value-based dedup, as in the ChamberService.ActiveSensors line.
- RuleEngine.OwnedByAnother compares detector ids by value. The source compares the ObjectIds with `!==`, which is reference inequality, so two equal ids held in different objects count as different there.
- ChamberService.RuleSensors maps an undefined rule (the output of addListOfRelays for a rule without a populated relay) to no sensor; the source's `rule.sensor` throws a TypeError on it.
- SensorService.TimeUnitTarget joins its messages with a newline; the source passes an array of Error objects. The representation differs, the messages and their order are the same.
- RelayService.RelayService.BootRelays: an additive boot builds a new controller object for the same chip at 0x20, with the register 0. The kept relays keep their old controller, so each register tracks its own relays, but the chip's real output no longer equals the OR of all on relays after the next write; the model keeps the per-object registers.

## Findings

| source | as written | input that shows it | evidently intended | confidence | as-written member | corrected member |
|---|---|---|---|---|---|---|
| src/cronjob/cronjob.service.js:73-81 | when the off time is not after the on time, the relay is restored on only when today's on time has passed | a time rule on at 19:00 for 12 hours (off 07:00), restored at boot at 02:00, is switched off | as the comment says, on while the on time is reached and the off time is not: across midnight, on when the on time has passed or the off time has not | not executed | ChamberService.OvernightRuleAtTwo | Cronjobs.IntendedDecide |
