/**
 * The chamber service (src/chamber/chamber.service.js): the active sensors
 * and the relays of each chamber as the API lists them, the normalisation
 * of the rules a chamber is saved with, the cronjobs a time rule needs, and
 * the strains kept on save.
 */
module ChamberService {
  import opened Wrappers
  import opened Seqs
  import opened Rules
  import opened Cronjobs
  import SS = SensorService
  import RS = RelayService

  // ------------------------------------------------------------ documents

  /** A populated sensor reference. */
  datatype SensorDoc = SensorDoc(id: Id, address: Option<int>)

  /** A populated relay reference. */
  datatype RelayDoc = RelayDoc(id: Id, name: Option<string>, labelText: Option<string>)

  /** A rule's relay: populated, or reduced to its id. */
  datatype RelayRef = Doc(doc: RelayDoc) | IdOnly(id: Id)

  /** A rule of a chamber as the query returns it: sensor and relay populated (or missing). */
  datatype ChamberRule = ChamberRule(device: Option<string>, sensor: Option<SensorDoc>, relay: Option<RelayRef>)

  /** An entry of `allRelays`. */
  datatype RelayEntry = RelayEntry(id: Id, name: Option<string>, device: Option<string>, state: Option<int>)

  function SensorKey(x: Option<SensorDoc>): Option<Id>
  {
    if x.Some? then Some(x.value.id) else None
  }

  function EntryKey(e: RelayEntry): Id
  {
    e.id
  }

  /** The sensor is present, has a (non-zero) address, and a sensor at that address is registered. */
  predicate Active(x: Option<SensorDoc>, registered: seq<Option<int>>)
  {
    x.Some? && x.value.address.Some? && x.value.address.value != 0 && x.value.address in registered
  }

  function RuleSensors(rules: seq<Option<ChamberRule>>): (r: seq<Option<SensorDoc>>)
    ensures |r| == |rules| && forall i :: 0 <= i < |rules| ==> r[i] == (if rules[i].Some? then rules[i].value.sensor else None)
  {
    seq(|rules|, i requires 0 <= i < |rules| => if rules[i].Some? then rules[i].value.sensor else None)
  }

  /** What activeSensors collects: every rule's sensor, then every display. */
  function Candidates(rules: Option<seq<Option<ChamberRule>>>, displays: Option<seq<Option<SensorDoc>>>): seq<Option<SensorDoc>>
  {
    (if rules.Some? then RuleSensors(rules.value) else []) + (if displays.Some? then displays.value else [])
  }

  /** addListOfActiveSensors for one chamber: one entry per sensor id, the active ones only. */
  function ActiveSensors(rules: Option<seq<Option<ChamberRule>>>, displays: Option<seq<Option<SensorDoc>>>,
                         registered: seq<Option<int>>): seq<Option<SensorDoc>>
  {
    Filter(UniqBy(Candidates(rules, displays), SensorKey), x => Active(x, registered))
  }

  /** No earlier entry has the same sensor id. */
  predicate FirstOfKey(c: seq<Option<SensorDoc>>, k: nat)
    requires k < |c|
  {
    forall j :: 0 <= j < k ==> SensorKey(c[j]) != SensorKey(c[k])
  }

  /**
   * The active sensors: no sensor twice, each present among the rules and
   * displays and active, and every active sensor as first listed is there.
   */
  lemma ActiveSensorsFacts(rules: Option<seq<Option<ChamberRule>>>, displays: Option<seq<Option<SensorDoc>>>,
                           registered: seq<Option<int>>)
    ensures var a := ActiveSensors(rules, displays, registered);
      var c := Candidates(rules, displays);
      KeysDistinct(a, SensorKey)
      && (forall i :: 0 <= i < |a| ==> a[i] in c && Active(a[i], registered))
      && forall k :: 0 <= k < |c| && Active(c[k], registered) && FirstOfKey(c, k) ==> c[k] in a
  {
    var c := Candidates(rules, displays);
    UniqByFacts(c, SensorKey);
    FilterKeysDistinct(UniqBy(c, SensorKey), x => Active(x, registered), SensorKey);
    forall k | 0 <= k < |c| && Active(c[k], registered) && FirstOfKey(c, k)
      ensures c[k] in ActiveSensors(rules, displays, registered)
    {
      UniqByKeepsFirst(c, SensorKey, k);
    }
  }

  /** `name || label`. */
  function NameOf(d: RelayDoc): Option<string>
  {
    if d.name.Some? && d.name.value != "" then d.name else d.labelText
  }

  /** The entry one rule contributes to allRelays, if its relay is populated. */
  function EntryOf(rule: Option<ChamberRule>, states: seq<(Id, int)>): Option<RelayEntry>
  {
    if rule.Some? && rule.value.relay.Some? && rule.value.relay.value.Doc? then
      var d := rule.value.relay.value.doc;
      Some(RelayEntry(d.id, NameOf(d), rule.value.device, RS.StateIn(states, d.id)))
    else None
  }

  /** The rule after the map: the relay reduced to its id, or undefined when it was not populated. */
  function Depopulated(rule: Option<ChamberRule>): (r: Option<ChamberRule>)
    ensures r.Some? <==> rule.Some? && rule.value.relay.Some? && rule.value.relay.value.Doc?
    ensures r.Some? ==> r.value == rule.value.(relay := Some(IdOnly(rule.value.relay.value.doc.id)))
  {
    if rule.Some? && rule.value.relay.Some? && rule.value.relay.value.Doc? then
      Some(rule.value.(relay := Some(IdOnly(rule.value.relay.value.doc.id))))
    else None
  }

  function Entries(rules: seq<Option<ChamberRule>>, states: seq<(Id, int)>): (es: seq<RelayEntry>)
  {
    if |rules| == 0 then []
    else
      var e := EntryOf(rules[|rules| - 1], states);
      Entries(rules[..|rules| - 1], states) + (if e.Some? then [e.value] else [])
  }

  /** The entries come from the populated relays, one for each. */
  lemma {:induction false} EntriesFacts(rules: seq<Option<ChamberRule>>, states: seq<(Id, int)>)
    ensures forall k :: 0 <= k < |Entries(rules, states)| ==> exists i :: 0 <= i < |rules| && EntryOf(rules[i], states) == Some(Entries(rules, states)[k])
    ensures forall i :: 0 <= i < |rules| && EntryOf(rules[i], states).Some? ==> EntryOf(rules[i], states).value in Entries(rules, states)
  {
    if |rules| > 0 {
      var prefix := rules[..|rules| - 1];
      EntriesFacts(prefix, states);
      assert forall i :: 0 <= i < |prefix| ==> prefix[i] == rules[i];
      var es := Entries(rules, states);
      var rest := Entries(prefix, states);
      assert forall k :: 0 <= k < |rest| ==> es[k] == rest[k];
      forall k | 0 <= k < |es| ensures exists i :: 0 <= i < |rules| && EntryOf(rules[i], states) == Some(es[k]) {
        if k < |rest| {
          var i :| 0 <= i < |prefix| && EntryOf(prefix[i], states) == Some(rest[k]);
          assert EntryOf(rules[i], states) == Some(es[k]);
        } else {
          assert EntryOf(rules[|rules| - 1], states) == Some(es[k]);
        }
      }
      forall i | 0 <= i < |rules| && EntryOf(rules[i], states).Some? ensures EntryOf(rules[i], states).value in es {
        if i < |prefix| {
          assert EntryOf(prefix[i], states).value in rest;
        } else {
          assert es[|es| - 1] == EntryOf(rules[i], states).value;
        }
      }
    } else {
      assert Entries(rules, states) == [];
    }
  }

  // ------------------------------------------------------------ the chamber

  class Chamber {
    var rules: Option<seq<Option<ChamberRule>>>
    var displays: Option<seq<Option<SensorDoc>>>
    var activeSensors: seq<Option<SensorDoc>>
    var allRelays: seq<RelayEntry>

    constructor (rules: Option<seq<Option<ChamberRule>>>, displays: Option<seq<Option<SensorDoc>>>)
      ensures this.rules == rules && this.displays == displays && activeSensors == [] && allRelays == []
    {
      this.rules := rules;
      this.displays := displays;
      activeSensors := [];
      allRelays := [];
    }

    /** A rule that is undefined makes `rule.sensor` throw. */
    predicate RulesDefined()
      reads this
    {
      rules.Some? ==> forall i :: 0 <= i < |rules.value| ==> rules.value[i].Some?
    }

    /** The two forEach loops, uniqBy on `_id`, and the filter on a registered address. */
    method ListActiveSensors(svc: SS.SensorService)
      requires RulesDefined()
      modifies this`activeSensors
      ensures activeSensors == ActiveSensors(rules, displays, svc.Addresses())
    {
      var pushed: seq<Option<SensorDoc>> := [];
      if rules.Some? {
        var rs := rules.value;
        var i := 0;
        while i < |rs|
          invariant 0 <= i <= |rs| && pushed == RuleSensors(rs)[..i]
        {
          pushed := pushed + [rs[i].value.sensor];
          i := i + 1;
        }
        assert RuleSensors(rs)[..i] == RuleSensors(rs);
      }
      if displays.Some? {
        var ds := displays.value;
        var base := pushed;
        var i := 0;
        while i < |ds|
          invariant 0 <= i <= |ds| && pushed == base + ds[..i]
        {
          pushed := pushed + [ds[i]];
          i := i + 1;
        }
        assert ds[..i] == ds;
      }
      assert pushed == Candidates(rules, displays);
      var unique := UniqBy(pushed, SensorKey);
      var kept: seq<Option<SensorDoc>> := [];
      var registered := svc.Addresses();
      var j := |unique|;
      while j > 0
        invariant 0 <= j <= |unique| && kept == Filter(unique[j..], x => Active(x, registered))
      {
        j := j - 1;
        assert unique[j..][1..] == unique[j + 1..];
        var x := unique[j];
        if x.Some? && x.value.address.Some? && x.value.address.value != 0 && svc.SensorRegistered(x.value.address.value) {
          kept := [x] + kept;
        }
      }
      activeSensors := kept;
    }

    /** addListOfRelays for one chamber: the rules are mapped, their relays listed once each. */
    method ListRelays(rsvc: RS.RelayService)
      modifies this`rules, this`allRelays
      ensures rules == (if old(rules).Some? then Some(MapDepopulated(old(rules).value)) else None)
      ensures allRelays == AllRelays(if old(rules).Some? then old(rules).value else [], rsvc.IdsAndStates())
    {
      var listed: seq<RelayEntry> := [];
      if rules.Some? {
        var rs := rules.value;
        var mapped: seq<Option<ChamberRule>> := [];
        var i := 0;
        while i < |rs|
          invariant 0 <= i <= |rs| && mapped == MapDepopulated(rs[..i]) && listed == Entries(rs[..i], rsvc.IdsAndStates())
        {
          assert rs[..i + 1][..i] == rs[..i];
          var rule := rs[i];
          if rule.Some? && rule.value.relay.Some? && rule.value.relay.value.Doc? {
            var d := rule.value.relay.value.doc;
            var currentState := rsvc.GetRelayState(d.id);
            rsvc.StateLookup(d.id);
            listed := listed + [RelayEntry(d.id, NameOf(d), rule.value.device, currentState)];
            mapped := mapped + [Some(rule.value.(relay := Some(IdOnly(d.id))))];
          } else {
            mapped := mapped + [None];
          }
          i := i + 1;
        }
        assert rs[..i] == rs;
        rules := Some(mapped);
      }
      allRelays := UniqBy(listed, EntryKey);
    }
  }

  /** `rules.map(...)` with the depopulating callback. */
  function MapDepopulated(rules: seq<Option<ChamberRule>>): (r: seq<Option<ChamberRule>>)
    ensures |r| == |rules| && forall i :: 0 <= i < |rules| ==> r[i] == Depopulated(rules[i])
  {
    if |rules| == 0 then [] else MapDepopulated(rules[..|rules| - 1]) + [Depopulated(rules[|rules| - 1])]
  }

  /** allRelays: the entries of the rules, one per relay id. */
  function AllRelays(rules: seq<Option<ChamberRule>>, states: seq<(Id, int)>): seq<RelayEntry>
  {
    UniqBy(Entries(rules, states), EntryKey)
  }

  /** Entry `e` is listed for rule `i`: its relay is populated and gives the entry's id, name and state. */
  predicate ListedFrom(rules: seq<Option<ChamberRule>>, states: seq<(Id, int)>, e: RelayEntry, i: int)
  {
    0 <= i < |rules| && rules[i].Some? && rules[i].value.relay.Some? && rules[i].value.relay.value.Doc?
    && e.id == rules[i].value.relay.value.doc.id && e.name == NameOf(rules[i].value.relay.value.doc)
    && e.state == RS.StateIn(states, e.id)
  }

  /** Entry `e` is listed for some rule. */
  ghost predicate Listed(rules: seq<Option<ChamberRule>>, states: seq<(Id, int)>, e: RelayEntry)
  {
    exists i :: ListedFrom(rules, states, e, i)
  }

  /**
   * The relays listed for a chamber: one per id, each from a rule with a
   * populated relay, named by its name or else its label, with the state the
   * registry has for it; every populated relay is listed.
   */
  lemma AllRelaysFacts(rules: seq<Option<ChamberRule>>, states: seq<(Id, int)>)
    ensures KeysDistinct(AllRelays(rules, states), EntryKey)
    ensures forall k :: 0 <= k < |AllRelays(rules, states)| ==> Listed(rules, states, AllRelays(rules, states)[k])
    ensures forall i :: 0 <= i < |rules| && rules[i].Some? && rules[i].value.relay.Some? && rules[i].value.relay.value.Doc? ==>
      exists k :: 0 <= k < |AllRelays(rules, states)| && AllRelays(rules, states)[k].id == rules[i].value.relay.value.doc.id
  {
    UniqByFacts(Entries(rules, states), EntryKey);
    forall k | 0 <= k < |AllRelays(rules, states)|
      ensures Listed(rules, states, AllRelays(rules, states)[k])
    {
      ListedSound(rules, states, k);
    }
    forall i | 0 <= i < |rules| && rules[i].Some? && rules[i].value.relay.Some? && rules[i].value.relay.value.Doc?
      ensures exists k :: 0 <= k < |AllRelays(rules, states)| && AllRelays(rules, states)[k].id == rules[i].value.relay.value.doc.id
    {
      ListedComplete(rules, states, i);
    }
  }

  /** Each listed relay comes from a rule. */
  lemma ListedSound(rules: seq<Option<ChamberRule>>, states: seq<(Id, int)>, k: nat)
    requires k < |AllRelays(rules, states)|
    ensures Listed(rules, states, AllRelays(rules, states)[k])
  {
    var es := Entries(rules, states);
    var e := AllRelays(rules, states)[k];
    UniqByFacts(es, EntryKey);
    assert e in es;
    EntriesFacts(rules, states);
    var m :| 0 <= m < |es| && es[m] == e;
    var i :| 0 <= i < |rules| && EntryOf(rules[i], states) == Some(es[m]);
    assert ListedFrom(rules, states, e, i);
  }

  /** Each rule's populated relay is listed. */
  lemma ListedComplete(rules: seq<Option<ChamberRule>>, states: seq<(Id, int)>, i: nat)
    requires i < |rules| && rules[i].Some? && rules[i].value.relay.Some? && rules[i].value.relay.value.Doc?
    ensures exists k :: 0 <= k < |AllRelays(rules, states)| && AllRelays(rules, states)[k].id == rules[i].value.relay.value.doc.id
  {
    var es := Entries(rules, states);
    EntriesFacts(rules, states);
    var e := EntryOf(rules[i], states).value;
    assert e in es;
    var m :| 0 <= m < |es| && es[m] == e;
    UniqByCoversAt(es, EntryKey, m);
    var a := UniqBy(es, EntryKey);
    assert a == AllRelays(rules, states);
    var j :| 0 <= j < |a| && EntryKey(a[j]) == EntryKey(es[m]);
    assert a[j].id == rules[i].value.relay.value.doc.id;
  }

  /** addListOfActiveSensors: every chamber gets its list. */
  method AddListOfActiveSensors(chambers: seq<Chamber>, svc: SS.SensorService)
    requires forall k :: 0 <= k < |chambers| ==> chambers[k].RulesDefined()
    modifies chambers
    ensures forall k :: 0 <= k < |chambers| ==>
      chambers[k].activeSensors == ActiveSensors(chambers[k].rules, chambers[k].displays, svc.Addresses())
  {
    var registered := svc.Addresses();
    var i := 0;
    while i < |chambers|
      invariant 0 <= i <= |chambers|
      invariant forall k :: 0 <= k < i ==>
        chambers[k].activeSensors == ActiveSensors(chambers[k].rules, chambers[k].displays, registered)
      invariant forall k :: 0 <= k < |chambers| ==> chambers[k].rules == old(chambers[k].rules)
      invariant forall k :: 0 <= k < |chambers| ==> chambers[k].displays == old(chambers[k].displays)
    {
      chambers[i].ListActiveSensors(svc);
      i := i + 1;
    }
  }

  // ------------------------------------------------------------ saving rules

  /** A rule as the API sends it: relay and sensor may be populated documents. */
  datatype Ref = Populated(id: Id) | Reference(id: Id)
  datatype RuleInput = RuleInput(base: Rule, relay: Option<Ref>, sensor: Option<Ref>)

  function Depopulate(r: Option<Ref>): (id: Option<Id>)
    ensures r.Some? <==> id.Some?
    ensures r.Some? ==> id.value == r.value.id
  {
    if r.Some? then Some(r.value.id) else None
  }

  /**
   * The rule addRules upserts: relay and sensor reduced to their ids. The
   * thresholds are already numbers when the rule document is built, so
   * parseFloat returns them unchanged.
   */
  function Normalised(r: RuleInput): (rule: Rule)
    ensures rule.relay == Depopulate(r.relay) && rule.sensor == Depopulate(r.sensor)
    ensures rule.onValue == r.base.onValue && rule.offValue == r.base.offValue
    ensures rule.(relay := r.base.relay, sensor := r.base.sensor) == r.base
  {
    r.base.(relay := Depopulate(r.relay), sensor := Depopulate(r.sensor))
  }

  /** Normalising a normalised rule changes nothing. */
  lemma NormalisedIdempotent(r: RuleInput)
    ensures var n := Normalised(r);
      Normalised(RuleInput(n, if n.relay.Some? then Some(Reference(n.relay.value)) else None,
                              if n.sensor.Some? then Some(Reference(n.sensor.value)) else None)) == n
  {
  }

  /** A cronjob to upsert. */
  datatype CronEntry = CronEntry(ruleId: Option<Id>, relay: Option<Id>, action: string, cronPattern: string)

  /** The hour `durationHOn` whole hours after `hour`, on a 24-hour clock. */
  function OffHour(hour: int, durationHOn: Option<int>): (h: int)
    ensures 0 <= h < 24
  {
    (hour + (if durationHOn.Some? then durationHOn.value else 0)) % 24
  }

  /**
   * addCronjobs: a timeOnOff rule gets an on entry at its start time and an
   * off entry `durationHOn` hours later; an interval rule with a pattern gets
   * one on entry with that pattern; any other rule gets none. A missing start
   * time is read as `now`, as moment does.
   */
  function AddCronjobs(rule: Rule, now: Clock): (jobs: seq<CronEntry>)
    requires ValidClock(now) && (rule.startTime.Some? ==> ValidClock(rule.startTime.value))
    ensures rule.trigger == Kind("timeOnOff") ==> |jobs| == 2 && jobs[0].action == SWITCH_ON && jobs[1].action == SWITCH_OFF
    ensures rule.trigger != Kind("timeOnOff") && rule.trigger == Kind("interval") && Truthy(rule.onPattern) ==>
      jobs == [CronEntry(rule.id, rule.relay, SWITCH_ON, rule.onPattern.value)]
    ensures rule.trigger != Kind("timeOnOff") && !(rule.trigger == Kind("interval") && Truthy(rule.onPattern)) ==> jobs == []
    ensures forall k :: 0 <= k < |jobs| ==> jobs[k].ruleId == rule.id && jobs[k].relay == rule.relay
  {
    if rule.trigger == Kind("timeOnOff") then
      var start := if rule.startTime.Some? then rule.startTime.value else now;
      var onPattern := DailyPattern(start.hour, start.minute, start.second);
      var offPattern := DailyPattern(OffHour(start.hour, rule.durationHOn), start.minute, start.second);
      [CronEntry(rule.id, rule.relay, SWITCH_ON, onPattern), CronEntry(rule.id, rule.relay, SWITCH_OFF, offPattern)]
    else if rule.trigger == Kind("interval") && Truthy(rule.onPattern) then
      [CronEntry(rule.id, rule.relay, SWITCH_ON, rule.onPattern.value)]
    else []
  }

  predicate Truthy(s: Option<string>) { s.Some? && s.value != "" }

  /**
   * The two entries of a time rule fire at the start time and at the same
   * minute and second `durationHOn` hours later, wrapped into the day.
   */
  lemma TimeRuleFires(rule: Rule, now: Clock)
    requires ValidClock(now) && rule.startTime.Some? && ValidClock(rule.startTime.value)
    requires rule.trigger == Kind("timeOnOff")
    ensures var jobs := AddCronjobs(rule, now); var st := rule.startTime.value;
      TimeFromCronjob(jobs[0].cronPattern) == At(DayTime(st.hour, st.minute, st.second))
      && TimeFromCronjob(jobs[1].cronPattern) == At(DayTime(OffHour(st.hour, rule.durationHOn), st.minute, st.second))
  {
    var st := rule.startTime.value;
    DailyPatternTime(st.hour, st.minute, st.second);
    DailyPatternTime(OffHour(st.hour, rule.durationHOn), st.minute, st.second);
  }

  /**
   * Restored at boot from a time rule whose off time falls later the same
   * day: on exactly from one second past the on time until one second past
   * the off time.
   */
  lemma TimeRuleBootWindow(on: int, off: int, nowMs: int)
    requires 0 <= on < off
    ensures Decide(Group(Some(At(on)), Some(At(off))), nowMs) == Some(SWITCH_ON)
      <==> on * 1000 + 1000 <= nowMs < off * 1000 + 1000
  {
  }

  /**
   * A time rule on 19:00 for 12 hours is off again at 07:00 the next day;
   * booting at 02:00 switches it off, because the wrapped case only asks
   * whether the on time has passed today.
   */
  lemma OvernightRuleAtTwo()
    ensures Decide(Group(Some(At(DayTime(19, 0, 0))), Some(At(DayTime(OffHour(19, Some(12)), 0, 0)))), DayTime(2, 0, 0) * 1000)
      == Some(SWITCH_OFF)
  {
  }

  /**
   * Under the corrected decision the same rule restored at boot is on
   * exactly from 19:00:01 through midnight until 07:00:01.
   */
  lemma OvernightRuleIntended(nowMs: int)
    requires 0 <= nowMs < SECONDS_PER_DAY * 1000
    ensures IntendedDecide(Group(Some(At(DayTime(19, 0, 0))), Some(At(DayTime(OffHour(19, Some(12)), 0, 0)))), nowMs)
        == Some(SWITCH_ON)
      <==> nowMs >= DayTime(19, 0, 1) * 1000 || nowMs < DayTime(7, 0, 1) * 1000
  {
    assert OffHour(19, Some(12)) == 7;
    WrappedBootWindow(DayTime(19, 0, 0), DayTime(7, 0, 0), nowMs);
  }

  // ------------------------------------------------------------ strains

  datatype Strain = Strain(name: Option<string>, daysToHarvest: Option<int>)

  predicate Named(s: Option<Strain>)
  {
    s.Some? && Truthy(s.value.name)
  }

  /** upsertChamber keeps the strains that exist and have a name, in order. */
  function KeepNamedStrains(strains: Option<seq<Option<Strain>>>): (r: Option<seq<Option<Strain>>>)
    ensures strains.None? <==> r.None?
    ensures r.Some? ==> ((forall i :: 0 <= i < |r.value| ==> Named(r.value[i]) && r.value[i] in strains.value)
      && forall i :: 0 <= i < |strains.value| && Named(strains.value[i]) ==> strains.value[i] in r.value)
  {
    if strains.Some? then Some(Filter(strains.value, Named)) else None
  }

  lemma {:induction false} FilterAllKept<T>(s: seq<T>, keep: T -> bool)
    requires forall i :: 0 <= i < |s| ==> keep(s[i])
    ensures Filter(s, keep) == s
  {
    if |s| > 0 {
      FilterAllKept(s[1..], keep);
    }
  }

  /** Saving twice drops nothing more. */
  lemma KeepNamedStrainsIdempotent(strains: Option<seq<Option<Strain>>>)
    ensures KeepNamedStrains(KeepNamedStrains(strains)) == KeepNamedStrains(strains)
  {
    if strains.Some? {
      FilterAllKept(Filter(strains.value, Named), Named);
    }
  }
}
