/**
 * The threshold rule engine of a sensor's detector (applyRules in
 * src/sensor/sensor.class.js), in three steps: decide what a reading asks
 * for, check whether the rule's relay may be switched, and switch it (with
 * the optional block and counter-switch after a fixed time).
 */
module RuleEngine {
  import opened Wrappers
  import opened Bus
  import opened Rules
  import opened Relays
  import RS = RelayService
  import opened Clocks

  const SOIL_DRY := "Because soil was dry."
  const COUNTER_OPERATION := "counter operation"

  // ---------------------------------------------------------------- decide

  /** JavaScript's `a > b` once both sides are numbers: false when either is NaN (None). */
  predicate Gt(a: Option<real>, b: Option<real>)
  {
    a.Some? && b.Some? && a.value > b.value
  }

  /** What a reading asks of the rule's relay, and why. */
  datatype Desired = Desired(on: bool, info: Info)

  /** A pump rule whose on-threshold lies above the reading: the soil is dry. */
  predicate PumpDry(rule: Rule, y: real)
  {
    IsPump(rule) && Gt(OnValue(rule), Some(y))
  }

  predicate WantsOn(r: Option<Desired>) { r.Some? && r.value.on }
  predicate WantsOff(r: Option<Desired>) { r.Some? && !r.value.on }

  /**
   * The decide step. An on-threshold above the off-threshold means a rising
   * reading turns the relay on (a fan on heat); otherwise a falling one does
   * (a heater on cold). Both comparisons are strict, so a reading equal to
   * a threshold asks for nothing. A threshold stored as null compares as 0,
   * an absent one compares false with everything.
   */
  function Decide(rule: Rule, y: real): (r: Option<Desired>)
    ensures PumpDry(rule, y) ==> r == Some(Desired(true, Text(SOIL_DRY)))
    ensures !PumpDry(rule, y) && OnValue(rule).Some? && OffValue(rule).Some? && OnValue(rule).value > OffValue(rule).value ==>
      (WantsOn(r) <==> y > OnValue(rule).value) && (WantsOff(r) <==> y < OffValue(rule).value)
    ensures !PumpDry(rule, y) && OnValue(rule).Some? && OffValue(rule).Some? && OnValue(rule).value <= OffValue(rule).value ==>
      (WantsOn(r) <==> y < OnValue(rule).value) && (WantsOff(r) <==> y > OffValue(rule).value)
    ensures OnValue(rule).Some? && OffValue(rule).None? && !PumpDry(rule, y) ==> (WantsOn(r) <==> y < OnValue(rule).value) && !WantsOff(r)
    ensures OnValue(rule).None? && OffValue(rule).Some? ==> !WantsOn(r) && (WantsOff(r) <==> y > OffValue(rule).value)
    ensures OnValue(rule).None? && OffValue(rule).None? ==> r.None?
    ensures OnValue(rule) == Some(y) || (OffValue(rule) == Some(y) && !PumpDry(rule, y)) ==> r.None?
    ensures r.Some? && !PumpDry(rule, y) ==>
      r.value.info.Reading? && r.value.info.value == y && r.value.info.forDetector == rule.forDetector
      && (r.value.info.higher <==> y > r.value.info.limit) && y != r.value.info.limit
      && Some(r.value.info.limit) == (if r.value.on then OnValue(rule) else OffValue(rule))
  {
    var reading := (higher: bool, limit: real) => Reading(y, rule.forDetector, higher, limit);
    if PumpDry(rule, y) then Some(Desired(true, Text(SOIL_DRY)))
    else if Gt(OnValue(rule), OffValue(rule)) then
      if Gt(Some(y), OnValue(rule)) then Some(Desired(true, reading(true, OnValue(rule).value)))
      else if Gt(OffValue(rule), Some(y)) then Some(Desired(false, reading(false, OffValue(rule).value)))
      else None
    else
      if Gt(OnValue(rule), Some(y)) then Some(Desired(true, reading(false, OnValue(rule).value)))
      else if Gt(Some(y), OffValue(rule)) then Some(Desired(false, reading(true, OffValue(rule).value)))
      else None
  }

  /** The operation the decision asks for, and the one that undoes it. */
  function Operation(on: bool): string { if on then "switchOn" else "switchOff" }
  function CounterOperation(on: bool): string { if on then "switchOff" else "switchOn" }

  /** A rule with on 30 above off 20 switches on at 32 and asks nothing at 28. */
  lemma RisingRuleExample(rule: Rule)
    requires rule.onValue == Number(30.0) && rule.offValue == Number(20.0) && !IsPump(rule)
    ensures WantsOn(Decide(rule, 32.0))
    ensures Decide(rule, 28.0).None?
  {
  }

  /** A rule with on 10 below off 20 switches on at 9 and asks nothing at 11. */
  lemma FallingRuleExample(rule: Rule)
    requires rule.onValue == Number(10.0) && rule.offValue == Number(20.0) && !IsPump(rule)
    ensures WantsOn(Decide(rule, 9.0))
    ensures Decide(rule, 11.0).None?
  {
  }

  /**
   * A pump rule whose on-threshold is not above the reading is decided like
   * any other rule: the pump branch only ever switches on.
   */
  lemma PumpFallsThrough(rule: Rule, y: real)
    requires IsPump(rule) && !Gt(OnValue(rule), Some(y))
    ensures Decide(rule, y) == Decide(rule.(device := None), y)
  {
  }

  /**
   * An off-threshold stored as null is 0 to the comparisons: on 2 lies above
   * it, so the rule is a rising one and a reading of 5 switches on, while an
   * absent off-threshold makes the rule a falling one that asks nothing at 5.
   */
  lemma NullOffIsZero(rule: Rule)
    requires rule.onValue == Number(2.0) && rule.offValue == Null && !IsPump(rule)
    ensures WantsOn(Decide(rule, 5.0)) && Decide(rule, 1.0).None?
    ensures Decide(rule.(offValue := Undefined), 5.0).None? && WantsOn(Decide(rule.(offValue := Undefined), 1.0))
  {
  }

  /**
   * An on-threshold stored as null is 0: unless the off-threshold is negative,
   * a negative reading lies below it and switches on, pump or not; an absent
   * on-threshold never switches on.
   */
  lemma NullOnIsZero(rule: Rule, y: real)
    requires rule.onValue == Null && y < 0.0 && !(rule.offValue.Number? && rule.offValue.value < 0.0)
    ensures WantsOn(Decide(rule, y))
    ensures !WantsOn(Decide(rule.(onValue := Undefined), y))
  {
  }

  // ---------------------------------------------------------------- gate

  /** What a relay looks like to the gate. */
  datatype Snapshot = Snapshot(state: int, blockedBy: Option<Id>, blockedTill: Option<int>)

  /** Why a decided switch is not carried out, or Go. */
  datatype Gate = Go | SameState | OwnedByOther | BlockedTill | PumpUnbounded | NightOff

  /** Night time for rules with night-off: from 22:00 and until 10:59. */
  predicate Night(hour: int)
  {
    hour >= 22 || hour <= 10
  }

  /** `relay.blockedBy` is set (truthy) and names another detector. */
  predicate OwnedByAnother(s: Snapshot, detectorId: Id)
  {
    s.blockedBy.Some? && s.blockedBy.value != "" && s.blockedBy.value != detectorId
  }

  /**
   * The gate step, in the source's order: the relay must be in the other
   * state, not owned by another detector, not blocked for another whole
   * second, a pump rule must have both its on-time and blocking time, and
   * a night-off rule stays quiet at night.
   */
  function CheckGate(s: Snapshot, rule: Rule, target: int, detectorId: Id, now: int, hour: int): (g: Gate)
    ensures g == Go <==>
      s.state != target
      && (s.blockedBy.None? || s.blockedBy.value == "" || s.blockedBy.value == detectorId)
      && (s.blockedTill.None? || s.blockedTill.value < now + 1000)
      && (IsPump(rule) ==> rule.durationMSOn.Some? && rule.durationMBlocked.Some?)
      && !(rule.nightOff == Some(true) && Night(hour))
    ensures g == SameState <==> s.state == target
    ensures g == OwnedByOther ==> OwnedByAnother(s, detectorId)
    ensures g == BlockedTill ==> s.blockedTill.Some? && s.blockedTill.value >= now + 1000
  {
    if s.state == target then SameState
    else if OwnedByAnother(s, detectorId) then OwnedByOther
    else if s.blockedTill.Some? && TruncDiv(s.blockedTill.value - now, 1000) > 0 then BlockedTill
    else if IsPump(rule) && (rule.durationMSOn.None? || rule.durationMBlocked.None?) then PumpUnbounded
    else if rule.nightOff == Some(true) && Night(hour) then NightOff
    else Go
  }

  /** Only `nightOff === true` silences a rule: an absent or false flag never does. */
  lemma NightOffStrict(s: Snapshot, rule: Rule, target: int, detectorId: Id, now: int, hour: int)
    requires rule.nightOff != Some(true)
    ensures CheckGate(s, rule, target, detectorId, now, hour) != NightOff
  {
  }

  /** A relay blocked until less than a second from now counts as free. */
  lemma BlockExpiresWithinASecond(s: Snapshot, rule: Rule, target: int, detectorId: Id, now: int, hour: int)
    requires s.blockedTill == Some(now + 999)
    ensures CheckGate(s, rule, target, detectorId, now, hour) != BlockedTill
  {
  }

  // ---------------------------------------------------------------- actuate

  /** A counter-switch left to a timer: `operation` on `relay` at time `at` (ms). */
  datatype Pending = Pending(relay: Id, operation: string, at: int)

  /** What the bus and the data logger answer to the switch one rule may cause. */
  datatype Replies = Replies(write: BusResult, saved: Outcome)

  /** What one rule did. */
  datatype Applied =
    | NoTransition
    | RelayMissing(error: string)
    | Held(gate: Gate)
    | Operated(first: Outcome, switched: SwitchResult, pending: Option<Pending>)

  function SnapshotOf(x: Relay): Snapshot
    reads x
  {
    Snapshot(x.state, x.blockedBy, x.blockedTill)
  }

  /** `durationMBlocked` as moment adds it: an absent value adds no time. */
  function BlockMinutes(rule: Rule): int
  {
    if rule.durationMBlocked.Some? then rule.durationMBlocked.value else 0
  }

  /**
   * The actuate step for a relay the registry knows: operate it, and with an
   * on-time block it for its blocking time and leave the counter-switch to a
   * timer. The switch's error is only logged: blocking goes ahead regardless.
   */
  method Actuate(svc: RS.RelayService, relayId: Id, on: bool, info: Info, rule: Rule, detectorId: Id, now: int,
                 replies: Replies) returns (first: Outcome, switched: SwitchResult, pending: Option<Pending>)
    requires svc.Valid() && svc.GetRelayById(relayId).Ok?
    modifies svc.relays, RS.ControllersOf(svc.relays)
    ensures svc.Valid() && svc.relays == old(svc.relays)
    ensures (old(svc.GetRelayById(relayId).value.state) == (if on then 1 else 0)) <==> switched.AlreadyInState?
    ensures first == RS.SwitchOutcome(switched)
    ensures RS.StatesOf(svc.relays) == if switched.Switched?
      then old(RS.StatesOf(svc.relays))[RS.FirstWithId(svc.relays, relayId).value := if on then 1 else 0]
      else old(RS.StatesOf(svc.relays))
    ensures RS.OwnersOf(svc.relays) == if switched.Switched?
      then old(RS.OwnersOf(svc.relays))[RS.FirstWithId(svc.relays, relayId).value := if on then Some(detectorId) else None]
      else old(RS.OwnersOf(svc.relays))
    ensures pending == (if rule.durationMSOn.Some?
                        then Some(Pending(relayId, CounterOperation(on), now + rule.durationMSOn.value)) else None)
    ensures rule.durationMSOn.Some? ==> svc.GetRelayById(relayId).value.blockedTill == Some(now + BlockMinutes(rule) * 60000)
    ensures old(svc.MasksTrackRelays()) && !switched.WriteFailed? ==> svc.MasksTrackRelays()
  {
    first, switched := OperateFound(svc, relayId, on, info, detectorId, replies);
    ghost var st, ow := RS.StatesOf(svc.relays), RS.OwnersOf(svc.relays);
    ghost var tracking := svc.MasksTrackRelays();
    pending := BlockFor(svc, relayId, on, rule, now);
    assert RS.StatesOf(svc.relays) == st && RS.OwnersOf(svc.relays) == ow;
    assert tracking ==> svc.MasksTrackRelays();
  }

  /** operateRelay on a relay the registry knows, as the rule engine calls it: the first relay with the id is the one switched. */
  method OperateFound(svc: RS.RelayService, relayId: Id, on: bool, info: Info, detectorId: Id, replies: Replies)
    returns (first: Outcome, switched: SwitchResult)
    requires svc.Valid() && svc.GetRelayById(relayId).Ok?
    modifies svc.relays, RS.ControllersOf(svc.relays)
    ensures svc.Valid() && svc.relays == old(svc.relays)
    ensures (old(svc.GetRelayById(relayId).value.state) == (if on then 1 else 0)) <==> switched.AlreadyInState?
    ensures first == RS.SwitchOutcome(switched)
    ensures svc.GetRelayById(relayId).Ok?
    ensures RS.StatesOf(svc.relays) == if switched.Switched?
      then old(RS.StatesOf(svc.relays))[RS.FirstWithId(svc.relays, relayId).value := if on then 1 else 0]
      else old(RS.StatesOf(svc.relays))
    ensures RS.OwnersOf(svc.relays) == if switched.Switched?
      then old(RS.OwnersOf(svc.relays))[RS.FirstWithId(svc.relays, relayId).value := if on then Some(detectorId) else None]
      else old(RS.OwnersOf(svc.relays))
    ensures old(svc.MasksTrackRelays()) && !switched.WriteFailed? ==> svc.MasksTrackRelays()
  {
    var s;
    first, s := svc.OperateRelay(relayId, Operation(on), info, Some(detectorId), replies.write, replies.saved);
    switched := s.value;
  }

  /** With an on-time, block the relay for the rule's blocking time and set the timer for the counter-switch. */
  method BlockFor(svc: RS.RelayService, relayId: Id, on: bool, rule: Rule, now: int) returns (pending: Option<Pending>)
    requires svc.Valid() && svc.GetRelayById(relayId).Ok?
    modifies svc.relays
    ensures svc.Valid() && svc.relays == old(svc.relays)
    ensures RS.StatesOf(svc.relays) == old(RS.StatesOf(svc.relays))
    ensures RS.OwnersOf(svc.relays) == old(RS.OwnersOf(svc.relays))
    ensures pending == (if rule.durationMSOn.Some?
                        then Some(Pending(relayId, CounterOperation(on), now + rule.durationMSOn.value)) else None)
    ensures rule.durationMSOn.Some? ==> svc.GetRelayById(relayId).value.blockedTill == Some(now + BlockMinutes(rule) * 60000)
    ensures old(svc.MasksTrackRelays()) ==> svc.MasksTrackRelays()
  {
    pending := None;
    if rule.durationMSOn.Some? {
      var blocked := svc.BlockRelay(relayId, BlockMinutes(rule), now);
      // The relay was found a moment ago, so blocking it cannot fail here, and
      // the immediate counter-switch for a failed block is never taken.
      assert blocked == svc.GetRelayById(relayId) && blocked.Ok?;
      assert blocked.value.blockedTill == Some(now + BlockMinutes(rule) * 60000);
      pending := Some(Pending(relayId, CounterOperation(on), now + rule.durationMSOn.value));
    }
    assert RS.OwnersOf(svc.relays) == old(RS.OwnersOf(svc.relays));
  }

  /**
   * One rule of applyRules against the relay registry: a relay is only ever
   * switched when the decision asks for a change and the gate lets it through.
   */
  method ApplyRule(svc: RS.RelayService, rule: Rule, detectorId: Id, y: real, now: int, hour: int, replies: Replies)
    returns (a: Applied)
    requires svc.Valid() && rule.relay.Some?
    modifies svc.relays, RS.ControllersOf(svc.relays)
    ensures svc.Valid() && svc.relays == old(svc.relays)
    ensures a == NoTransition <==> Decide(rule, y).None?
    ensures a.RelayMissing? <==> Decide(rule, y).Some? && old(svc.GetRelayById(rule.relay.value)).Err?
    ensures a.Held? || a.Operated? ==> Decide(rule, y).Some? && old(svc.GetRelayById(rule.relay.value)).Ok?
    ensures a.Held? ==> a.gate != Go && a.gate == old(GateFor(svc, rule, detectorId, y, now, hour))
    ensures a.Operated? ==> old(GateFor(svc, rule, detectorId, y, now, hour)) == Go
    ensures !a.Operated? ==> RS.StatesOf(svc.relays) == old(RS.StatesOf(svc.relays))
    ensures a.Operated? ==> !a.switched.AlreadyInState? && a.first == RS.SwitchOutcome(a.switched)
    ensures a.Operated? ==>
      RS.StatesOf(svc.relays) == if a.switched.Switched?
        then old(RS.StatesOf(svc.relays))[RS.FirstWithId(svc.relays, rule.relay.value).value := if Decide(rule, y).value.on then 1 else 0]
        else old(RS.StatesOf(svc.relays))
    ensures !a.Operated? ==> RS.OwnersOf(svc.relays) == old(RS.OwnersOf(svc.relays))
    ensures a.Operated? ==>
      RS.OwnersOf(svc.relays) == if a.switched.Switched?
        then old(RS.OwnersOf(svc.relays))[RS.FirstWithId(svc.relays, rule.relay.value).value :=
               if Decide(rule, y).value.on then Some(detectorId) else None]
        else old(RS.OwnersOf(svc.relays))
    ensures a.Operated? ==> (a.pending == if rule.durationMSOn.Some?
       then Some(Pending(rule.relay.value, CounterOperation(Decide(rule, y).value.on), now + rule.durationMSOn.value))
       else None)
    ensures a.Operated? && rule.durationMSOn.Some? ==>
      svc.GetRelayById(rule.relay.value).value.blockedTill == Some(now + BlockMinutes(rule) * 60000)
    ensures old(svc.MasksTrackRelays()) && !(a.Operated? && a.switched.WriteFailed?) ==> svc.MasksTrackRelays()
    ensures Entry(svc.relays, rule, y, now, a)
  {
    var relayId := rule.relay.value;
    var desired := Decide(rule, y);
    if desired.None? {
      return NoTransition;
    }
    var found := svc.GetRelayById(relayId);
    if found.Err? {
      return RelayMissing(found.error);
    }
    var gate := GateFor(svc, rule, detectorId, y, now, hour);
    if gate != Go {
      return Held(gate);
    }
    var first, switched, pending := Actuate(svc, relayId, desired.value.on, desired.value.info, rule, detectorId, now, replies);
    a := Operated(first, switched, pending);
  }

  /** The gate applied to the rule's relay as the registry holds it now. */
  function GateFor(svc: RS.RelayService, rule: Rule, detectorId: Id, y: real, now: int, hour: int): (g: Gate)
    requires rule.relay.Some? && Decide(rule, y).Some? && svc.GetRelayById(rule.relay.value).Ok?
    reads svc, svc.relays
  {
    CheckGate(SnapshotOf(svc.GetRelayById(rule.relay.value).value), rule,
              if Decide(rule, y).value.on then 1 else 0, detectorId, now, hour)
  }

  /** Some application of a rule reported a failed controller write. */
  predicate SomeWriteFailed(applied: seq<Applied>)
  {
    exists k :: 0 <= k < |applied| && applied[k].Operated? && applied[k].switched.WriteFailed?
  }

  /**
   * What one application says about its rule, whatever the other rules did:
   * no transition exactly when the decision is none, a missing relay
   * exactly when the decision asks for something and the registry `rs` has
   * no relay with the rule's id, and an operation carries the switch's own
   * outcome and, with an on-time, the counter-switch at the on-time's end.
   */
  predicate Entry(rs: seq<Relay>, rule: Rule, y: real, now: int, a: Applied)
  {
    && rule.relay.Some?
    && (a == NoTransition <==> Decide(rule, y).None?)
    && (a.RelayMissing? <==> Decide(rule, y).Some? && RS.FirstWithId(rs, rule.relay.value).None?)
    && (a.Held? || a.Operated? ==> Decide(rule, y).Some? && RS.FirstWithId(rs, rule.relay.value).Some?)
    && (a.Held? ==> a.gate != Go)
    && (a.Operated? ==>
          !a.switched.AlreadyInState? && a.first == RS.SwitchOutcome(a.switched)
          && a.pending == if rule.durationMSOn.Some?
             then Some(Pending(rule.relay.value, CounterOperation(Decide(rule, y).value.on), now + rule.durationMSOn.value))
             else None)
  }

  /** The relay (its index in `rs`) and the state an application switched it to, when it switched one. */
  function SwitchOf(rs: seq<Relay>, rule: Rule, y: real, a: Applied): (r: Option<(nat, int)>)
    ensures r.Some? ==> r.value.0 < |rs| && (r.value.1 == 0 || r.value.1 == 1)
  {
    if a.Operated? && a.switched.Switched? && rule.relay.Some? && Decide(rule, y).Some?
       && RS.FirstWithId(rs, rule.relay.value).Some?
    then Some((RS.FirstWithId(rs, rule.relay.value).value, if Decide(rule, y).value.on then 1 else 0))
    else None
  }

  /**
   * An independent account of the relay states after the applications
   * `applied` of `rules`, starting from `st`: every application that
   * switched its relay sets that relay to the decided state, in order.
   */
  function StatesAfter(rs: seq<Relay>, rules: seq<Rule>, y: real, applied: seq<Applied>, st: seq<int>): (r: seq<int>)
    requires |applied| <= |rules| && |st| == |rs|
    ensures |r| == |st|
    decreases |applied|
  {
    if |applied| == 0 then st
    else
      var k := |applied| - 1;
      var prev := StatesAfter(rs, rules, y, applied[..k], st);
      var sw := SwitchOf(rs, rules[k], y, applied[k]);
      if sw.Some? then prev[sw.value.0 := sw.value.1] else prev
  }

  /**
   * The owners after the applications `applied` of `rules` by detector
   * `detectorId`, starting from `ow`: a relay switched on is owned by the
   * detector from then on, and one switched off by no detector.
   */
  function OwnersAfter(rs: seq<Relay>, rules: seq<Rule>, y: real, applied: seq<Applied>, ow: seq<Option<Id>>,
                       detectorId: Id): (r: seq<Option<Id>>)
    requires |applied| <= |rules| && |ow| == |rs|
    ensures |r| == |ow|
    decreases |applied|
  {
    if |applied| == 0 then ow
    else
      var k := |applied| - 1;
      var prev := OwnersAfter(rs, rules, y, applied[..k], ow, detectorId);
      var sw := SwitchOf(rs, rules[k], y, applied[k]);
      if sw.Some? then prev[sw.value.0 := if sw.value.1 == 1 then Some(detectorId) else None] else prev
  }

  /** When no application switched a relay, the states are those before. */
  lemma {:induction false} StatesAfterNoSwitch(rs: seq<Relay>, rules: seq<Rule>, y: real, applied: seq<Applied>, st: seq<int>)
    requires |applied| <= |rules| && |st| == |rs|
    requires forall k :: 0 <= k < |applied| ==> !applied[k].Operated?
    ensures StatesAfter(rs, rules, y, applied, st) == st
  {
    if |applied| > 0 {
      var k := |applied| - 1;
      StatesAfterNoSwitch(rs, rules, y, applied[..k], st);
    }
  }

  /** A relay no application switched keeps its state; one some application switched ends up on or off. */
  lemma {:induction false} StatesAfterAt(rs: seq<Relay>, rules: seq<Rule>, y: real, applied: seq<Applied>, st: seq<int>, i: nat)
    requires |applied| <= |rules| && |st| == |rs| && i < |rs|
    ensures (forall k :: 0 <= k < |applied| && SwitchOf(rs, rules[k], y, applied[k]).Some? ==>
               SwitchOf(rs, rules[k], y, applied[k]).value.0 != i)
            ==> StatesAfter(rs, rules, y, applied, st)[i] == st[i]
    ensures (exists k :: 0 <= k < |applied| && SwitchOf(rs, rules[k], y, applied[k]).Some? &&
               SwitchOf(rs, rules[k], y, applied[k]).value.0 == i)
            ==> StatesAfter(rs, rules, y, applied, st)[i] in {0, 1}
  {
    if |applied| > 0 {
      var k := |applied| - 1;
      var pre := applied[..k];
      StatesAfterAt(rs, rules, y, pre, st, i);
      assert forall j :: 0 <= j < k ==> pre[j] == applied[j];
    }
  }

  /** What applying the first |applied| rules has guaranteed, against the states `st0` and masks `tracked` before. */
  ghost predicate AppliedSoFar(svc: RS.RelayService, rules: seq<Rule>, detectorId: Id, y: real, now: int, applied: seq<Applied>,
                               st0: seq<int>, ow0: seq<Option<Id>>, tracked: bool)
    reads svc, svc.relays, RS.ControllersOf(svc.relays)
  {
    svc.Valid() && |applied| <= |rules| && |st0| == |svc.relays| && |ow0| == |svc.relays|
    && (forall i :: 0 <= i < |applied| ==> Entry(svc.relays, rules[i], y, now, applied[i]))
    && RS.StatesOf(svc.relays) == StatesAfter(svc.relays, rules, y, applied, st0)
    && RS.OwnersOf(svc.relays) == OwnersAfter(svc.relays, rules, y, applied, ow0, detectorId)
    && (tracked && !SomeWriteFailed(applied) ==> svc.MasksTrackRelays())
  }

  /** One turn of the loop of applyRules. */
  method ApplyNext(svc: RS.RelayService, rules: seq<Rule>, detectorId: Id, y: real, now: int, hour: int,
                   replies: seq<Replies>, applied: seq<Applied>, ghost st0: seq<int>, ghost ow0: seq<Option<Id>>,
                   ghost tracked: bool)
    returns (applied': seq<Applied>)
    requires AppliedSoFar(svc, rules, detectorId, y, now, applied, st0, ow0, tracked) && |applied| < |rules| == |replies|
    requires rules[|applied|].relay.Some?
    modifies svc.relays, RS.ControllersOf(svc.relays)
    ensures svc.relays == old(svc.relays) && |applied'| == |applied| + 1 && applied'[..|applied|] == applied
    ensures AppliedSoFar(svc, rules, detectorId, y, now, applied', st0, ow0, tracked)
  {
    ghost var before := RS.StatesOf(svc.relays);
    ghost var owners := RS.OwnersOf(svc.relays);
    ghost var rs := svc.relays;
    assert forall i :: 0 <= i < |applied| ==> Entry(rs, rules[i], y, now, applied[i]);
    assert before == StatesAfter(rs, rules, y, applied, st0);
    assert owners == OwnersAfter(rs, rules, y, applied, ow0, detectorId);
    var a := ApplyRule(svc, rules[|applied|], detectorId, y, now, hour, replies[|applied|]);
    ghost var sw := SwitchOf(rs, rules[|applied|], y, a);
    assert RS.StatesOf(svc.relays) == if sw.Some? then before[sw.value.0 := sw.value.1] else before;
    assert RS.OwnersOf(svc.relays) == if sw.Some?
      then owners[sw.value.0 := if sw.value.1 == 1 then Some(detectorId) else None] else owners;
    AppendApplied(rs, rules, detectorId, y, now, applied, a, st0, ow0);
    applied' := applied + [a];
    assert applied'[..|applied|] == applied;
  }

  /** The facts AppliedSoFar keeps about the list of applications, one application further. */
  lemma AppendApplied(rs: seq<Relay>, rules: seq<Rule>, detectorId: Id, y: real, now: int, applied: seq<Applied>, a: Applied,
                       st0: seq<int>, ow0: seq<Option<Id>>)
    requires |applied| < |rules| && |st0| == |rs| && |ow0| == |rs|
    requires forall i :: 0 <= i < |applied| ==> Entry(rs, rules[i], y, now, applied[i])
    requires Entry(rs, rules[|applied|], y, now, a)
    ensures var ap := applied + [a];
      && (forall i :: 0 <= i < |ap| ==> Entry(rs, rules[i], y, now, ap[i]))
      && (SomeWriteFailed(ap) <==> SomeWriteFailed(applied) || (a.Operated? && a.switched.WriteFailed?))
      && StatesAfter(rs, rules, y, ap, st0) ==
           (var prev := StatesAfter(rs, rules, y, applied, st0); var sw := SwitchOf(rs, rules[|applied|], y, a);
            if sw.Some? then prev[sw.value.0 := sw.value.1] else prev)
      && OwnersAfter(rs, rules, y, ap, ow0, detectorId) ==
           (var prev := OwnersAfter(rs, rules, y, applied, ow0, detectorId); var sw := SwitchOf(rs, rules[|applied|], y, a);
            if sw.Some? then prev[sw.value.0 := if sw.value.1 == 1 then Some(detectorId) else None] else prev)
  {
    var ap := applied + [a];
    assert forall i :: 0 <= i < |applied| ==> ap[i] == applied[i];
    assert ap[|applied|] == a;
    assert ap[..|applied|] == applied;
  }

  /**
   * applyRules: every rule of the detector, in order, against the same
   * reading; each gets what the bus and the data logger answer to its switch.
   */
  method ApplyRules(svc: RS.RelayService, rules: seq<Rule>, detectorId: Id, y: real, now: int, hour: int,
                    replies: seq<Replies>) returns (applied: seq<Applied>)
    requires svc.Valid() && |replies| == |rules|
    requires forall k :: 0 <= k < |rules| ==> rules[k].relay.Some?
    modifies svc.relays, RS.ControllersOf(svc.relays)
    ensures svc.Valid() && svc.relays == old(svc.relays)
    ensures |applied| == |rules|
    ensures forall k {:trigger applied[k]} :: 0 <= k < |rules| ==> Entry(svc.relays, rules[k], y, now, applied[k])
    ensures RS.StatesOf(svc.relays) == StatesAfter(svc.relays, rules, y, applied, old(RS.StatesOf(svc.relays)))
    ensures RS.OwnersOf(svc.relays) == OwnersAfter(svc.relays, rules, y, applied, old(RS.OwnersOf(svc.relays)), detectorId)
    ensures (forall k :: 0 <= k < |rules| ==> !applied[k].Operated?) ==> RS.StatesOf(svc.relays) == old(RS.StatesOf(svc.relays))
    ensures old(svc.MasksTrackRelays()) && !SomeWriteFailed(applied) ==> svc.MasksTrackRelays()
  {
    applied := [];
    ghost var tracked := svc.MasksTrackRelays();
    ghost var st0 := RS.StatesOf(svc.relays);
    ghost var ow0 := RS.OwnersOf(svc.relays);
    while |applied| < |rules|
      invariant svc.relays == old(svc.relays)
      invariant AppliedSoFar(svc, rules, detectorId, y, now, applied, st0, ow0, tracked)
      decreases |rules| - |applied|
    {
      applied := ApplyNext(svc, rules, detectorId, y, now, hour, replies, applied, st0, ow0, tracked);
    }
    if forall k :: 0 <= k < |rules| ==> !applied[k].Operated? {
      StatesAfterNoSwitch(svc.relays, rules, y, applied, st0);
    }
  }
}
