/**
 * A single relay of the relay controller (src/relay/relay.class.js). Switching
 * is idempotent: a relay already in the asked-for state reports success and
 * touches nothing.
 */
module Relays {
  import opened Wrappers
  import opened Bus
  import RC = RelayControllers

  const CMD_SWITCH_ON: int := 0x01
  const CMD_SWITCH_OFF: int := 0x00

  /** Database ids, compared through their string form. */
  type Id = string

  /**
   * Why a relay was switched, as logged with its event: free text, or a
   * reading that crossed a threshold (the source renders this one as
   * "Because <value> <detector> was higher/lower then <limit>").
   */
  datatype Info =
    | Text(text: string)
    | Reading(value: real, forDetector: Option<string>, higher: bool, limit: real)

  /** An entry handed to the data logger: the relay, its new state ('on'/'off') and why. */
  datatype Event = Event(relay: Id, state: string, info: Info)

  /** What switchOn/switchOff report. */
  datatype SwitchResult =
    | AlreadyInState                        // callback(null) without touching the controller
    | WriteFailed(error: string)            // callback(err) from the controller
    | Switched(event: Event, saved: Outcome) // state changed; callback gets the event save's outcome

  /** A stored relay document before it becomes a Relay. */
  datatype RelayOptions = RelayOptions(id: Option<Id>, labelText: Option<string>, name: Option<string>, address: Option<int>)

  predicate Truthy(s: Option<string>) { s.Some? && s.value != "" }

  /** The constructor's checks, in order: each missing (falsy) field throws its message. */
  function CheckRelayOptions(o: RelayOptions): (r: Outcome)
    ensures r.Pass? <==> Truthy(o.id) && Truthy(o.labelText) && o.address.Some? && o.address.value != 0
  {
    if !Truthy(o.id) then Fail("Id is required")
    else if !Truthy(o.labelText) then Fail("Label is required")
    else if o.address.None? || o.address.value == 0 then Fail("Address is required")
    else Pass
  }

  class Relay {
    const id: Id
    const labelText: string
    var name: Option<string>
    const address: int
    const controller: RC.RelayController
    /** 1 when on, 0 when off. */
    var state: int
    /** The detector whose rule switched the relay on; other detectors may not switch it. */
    var blockedBy: Option<Id>
    /** Until when (ms) rules may not switch the relay. */
    var blockedTill: Option<int>

    /** The relay's wiring: its address is one the controller's mapping knows. */
    predicate Wired()
    {
      1 <= address <= |controller.addressMapping| && controller.addressMapping[address - 1] >= 1
    }

    constructor (o: RelayOptions, c: RC.RelayController)
      requires CheckRelayOptions(o).Pass?
      ensures id == o.id.value && labelText == o.labelText.value && address == o.address.value
      ensures name == (if Truthy(o.name) then o.name else None)
      ensures controller == c && state == 0 && blockedBy == None && blockedTill == None
    {
      id := o.id.value;
      labelText := o.labelText.value;
      name := if Truthy(o.name) then o.name else None;
      address := o.address.value;
      controller := c;
      state := 0;
      blockedBy := None;
      blockedTill := None;
    }

    /**
     * switchOn: unless already on, asks the controller to set the relay's bit;
     * on a successful write the relay is on, blocked by `detectorId`, and an
     * 'on' event is logged (`saved` is what the data logger answers).
     */
    method SwitchOn(info: Info, detectorId: Option<Id>, write: BusResult, saved: Outcome) returns (r: SwitchResult)
      requires Wired()
      modifies this`state, this`blockedBy, controller`currentState
      ensures old(state) == 1 ==>
        r == AlreadyInState && state == 1 && blockedBy == old(blockedBy) && controller.currentState == old(controller.currentState)
      ensures old(state) != 1 ==>
        controller.currentState == old(controller.currentState) + Pow2(controller.Position(address) - 1)
      ensures old(state) != 1 && r.WriteFailed? ==> state == old(state) && blockedBy == old(blockedBy)
      ensures old(state) != 1 ==> !r.AlreadyInState? && (r.Switched? <==> controller.hasBus && write.Done?)
      ensures r.Switched? ==> state == 1 && blockedBy == detectorId && r == Switched(Event(id, "on", info), saved)
    {
      if state == 1 {
        return AlreadyInState;
      }
      var outcome, _ := controller.SwitchRelay(CMD_SWITCH_ON, address, write);
      if outcome.Fail? {
        return WriteFailed(outcome.error);
      }
      blockedBy := detectorId;
      state := 1;
      r := Switched(Event(id, "on", info), saved);
    }

    /** switchOn when `on`, switchOff otherwise, with one contract for both. */
    method SwitchTo(on: bool, info: Info, detectorId: Option<Id>, write: BusResult, saved: Outcome) returns (r: SwitchResult)
      requires Wired()
      modifies this`state, this`blockedBy, controller`currentState
      ensures var target := if on then 1 else 0;
        && (r.AlreadyInState? <==> old(state) == target)
        && (r.Switched? ==> state == target && blockedBy == (if on then detectorId else None))
        && (!r.Switched? ==> state == old(state) && blockedBy == old(blockedBy))
      ensures var bit: int := Pow2(controller.Position(address) - 1);
        controller.currentState == old(controller.currentState)
          + (if r.AlreadyInState? then 0 else if on then bit else -bit)
    {
      if on {
        r := SwitchOn(info, detectorId, write, saved);
      } else {
        r := SwitchOff(info, detectorId, write, saved);
      }
    }

    /** switchOff: the mirror image; a switched-off relay is no longer blocked by any detector. */
    method SwitchOff(info: Info, detectorId: Option<Id>, write: BusResult, saved: Outcome) returns (r: SwitchResult)
      requires Wired()
      modifies this`state, this`blockedBy, controller`currentState
      ensures old(state) == 0 ==>
        r == AlreadyInState && state == 0 && blockedBy == old(blockedBy) && controller.currentState == old(controller.currentState)
      ensures old(state) != 0 ==>
        controller.currentState == old(controller.currentState) - Pow2(controller.Position(address) - 1)
      ensures old(state) != 0 && r.WriteFailed? ==> state == old(state) && blockedBy == old(blockedBy)
      ensures old(state) != 0 ==> !r.AlreadyInState? && (r.Switched? <==> controller.hasBus && write.Done?)
      ensures r.Switched? ==> state == 0 && blockedBy == None && r == Switched(Event(id, "off", info), saved)
    {
      if state == 0 {
        return AlreadyInState;
      }
      var outcome, _ := controller.SwitchRelay(CMD_SWITCH_OFF, address, write);
      if outcome.Fail? {
        return WriteFailed(outcome.error);
      }
      blockedBy := None;
      state := 0;
      r := Switched(Event(id, "off", info), saved);
    }
  }
}
