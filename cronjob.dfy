/**
 * The time-rule cronjobs (src/cronjob/cronjob.service.js): the time of day a
 * pattern fires at, whether that time has passed today, the relay states to
 * restore at boot, and the list of running jobs.
 */
module Cronjobs {
  import opened Wrappers
  import opened Seqs
  import opened Text
  import opened Clocks
  import opened Rules

  const SECONDS_PER_DAY := 86400
  const SWITCH_ON := "switchOn"
  const SWITCH_OFF := "switchOff"

  /** A moment of today at a second of the day, or moment's 'Invalid date'. */
  datatype Moment = At(second: int) | InvalidDate

  /** A stored cronjob with its relay populated. */
  datatype Cronjob = Cronjob(relay: Id, action: string, cronPattern: string)

  /** The seconds of the day at `hour:minute:second`. */
  function DayTime(hour: nat, minute: nat, second: nat): int
  {
    hour * 3600 + minute * 60 + second
  }

  /**
   * getTimeFromCronjob: the first three fields are the second, the minute
   * and the hour; they are read back as a time of today.
   */
  function TimeFromCronjob(cronPattern: string): (t: Moment)
    ensures t.At? ==> 0 <= t.second < SECONDS_PER_DAY
  {
    var fields := Split(cronPattern, ' ');
    if |fields| < 3 then InvalidDate
    else
      var s, m, h := ParseNat(fields[0]), ParseNat(fields[1]), ParseNat(fields[2]);
      if s.Some? && m.Some? && h.Some? && s.value < 60 && m.value < 60 && h.value < 24
      then At(DayTime(h.value, m.value, s.value))
      else InvalidDate
  }

  /** The daily pattern "s m h * * *". */
  function DailyPattern(hour: nat, minute: nat, second: nat): string
  {
    Join([Dec(second), Dec(minute), Dec(hour), "*", "*", "*"], ' ')
  }

  /** A daily pattern fires at the time it was written for. */
  lemma DailyPatternTime(hour: nat, minute: nat, second: nat)
    requires hour < 24 && minute < 60 && second < 60
    ensures TimeFromCronjob(DailyPattern(hour, minute, second)) == At(DayTime(hour, minute, second))
  {
    var parts := [Dec(second), Dec(minute), Dec(hour), "*", "*", "*"];
    forall i | 0 <= i < |parts| ensures ' ' !in parts[i] {
      if i < 3 {
        assert AllDigits(parts[i]);
        assert forall k :: 0 <= k < |parts[i]| ==> parts[i][k] != ' ';
      }
    }
    SplitJoin(parts, ' ');
    ParseDec(second);
    ParseDec(minute);
    ParseDec(hour);
  }

  /**
   * afterCurrentTime: a missing moment or an invalid one is never past;
   * otherwise now (milliseconds into today) must be at least one whole
   * second beyond today's projection of the moment.
   */
  function AfterCurrentTime(isotime: Option<Moment>, nowMs: int): (after: bool)
    ensures after <==> isotime.Some? && isotime.value.At? && nowMs >= isotime.value.second * 1000 + 1000
  {
    if isotime.None? || isotime.value.InvalidDate? then false
    else TruncDiv(nowMs - isotime.value.second * 1000, 1000) > 0
  }

  /** `off.diff(on, 'seconds') > 0`: both valid and off strictly later. */
  predicate Later(off: Moment, on: Moment)
  {
    off.At? && on.At? && off.second > on.second
  }

  /** The latest on and off times grouped for one relay. */
  datatype Group = Group(switchOn: Option<Moment>, switchOff: Option<Moment>)

  /**
   * The state restored for one relay: with both times, on between them
   * (or, when off does not come after on, once on has passed); with one
   * time, that time's action; with neither, nothing.
   */
  function Decide(g: Group, nowMs: int): (action: Option<string>)
    ensures action.Some? <==> g.switchOn.Some? || g.switchOff.Some?
    ensures g.switchOn.Some? && g.switchOff.Some? && Later(g.switchOff.value, g.switchOn.value) ==>
      (action == Some(SWITCH_ON) <==>
        AfterCurrentTime(g.switchOn, nowMs) && !AfterCurrentTime(g.switchOff, nowMs))
    ensures g.switchOn.Some? && g.switchOff.Some? && !Later(g.switchOff.value, g.switchOn.value) ==>
      (action == Some(SWITCH_ON) <==> AfterCurrentTime(g.switchOn, nowMs))
    ensures action.Some? ==> action.value == SWITCH_ON || action.value == SWITCH_OFF
    ensures g.switchOn.Some? && g.switchOff.None? ==> action == Some(SWITCH_ON)
    ensures g.switchOn.None? && g.switchOff.Some? ==> action == Some(SWITCH_OFF)
  {
    if g.switchOff.Some? && g.switchOn.Some? then
      var offGreaterOn := Later(g.switchOff.value, g.switchOn.value);
      if offGreaterOn && AfterCurrentTime(g.switchOn, nowMs) && !AfterCurrentTime(g.switchOff, nowMs) then Some(SWITCH_ON)
      else if !offGreaterOn && AfterCurrentTime(g.switchOn, nowMs) then Some(SWITCH_ON)
      else Some(SWITCH_OFF)
    else if g.switchOn.Some? then Some(SWITCH_ON)
    else if g.switchOff.Some? then Some(SWITCH_OFF)
    else None
  }

  /** When off does not come after on, the off time plays no part in the decision. */
  lemma WrappedIgnoresOff(on: Moment, off1: Moment, off2: Moment, nowMs: int)
    requires !Later(off1, on) && !Later(off2, on)
    ensures Decide(Group(Some(on), Some(off1)), nowMs) == Decide(Group(Some(on), Some(off2)), nowMs)
  {
  }

  /** Both times are valid and off does not come after on: an on period across midnight. */
  predicate Wrapped(g: Group)
  {
    g.switchOn.Some? && g.switchOff.Some? && g.switchOn.value.At? && g.switchOff.value.At?
    && !Later(g.switchOff.value, g.switchOn.value)
  }

  /**
   * The decision the comment on the wrapped case describes ("on time is
   * reached, off not"): across midnight the relay is on once today's on time
   * has passed and also while today's off time has not, since yesterday's on
   * time came after yesterday's off time. Every other group is decided as
   * Decide does.
   */
  function IntendedDecide(g: Group, nowMs: int): (action: Option<string>)
    ensures !Wrapped(g) ==> action == Decide(g, nowMs)
    ensures Wrapped(g) ==>
      (action == Some(SWITCH_ON) <==> AfterCurrentTime(g.switchOn, nowMs) || !AfterCurrentTime(g.switchOff, nowMs))
    ensures action.Some? <==> g.switchOn.Some? || g.switchOff.Some?
    ensures action.Some? ==> action.value == SWITCH_ON || action.value == SWITCH_OFF
  {
    if Wrapped(g) then
      if AfterCurrentTime(g.switchOn, nowMs) || !AfterCurrentTime(g.switchOff, nowMs) then Some(SWITCH_ON)
      else Some(SWITCH_OFF)
    else Decide(g, nowMs)
  }

  /**
   * Across midnight the corrected decision keeps the relay on from one
   * second past the on time, through midnight, until one second past the
   * off time: the complement of the window a same-day rule is on for.
   */
  lemma WrappedBootWindow(on: int, off: int, nowMs: int)
    requires 0 <= off <= on
    ensures IntendedDecide(Group(Some(At(on)), Some(At(off))), nowMs) == Some(SWITCH_ON)
      <==> nowMs >= on * 1000 + 1000 || nowMs < off * 1000 + 1000
  {
  }

  /** Where the code and the corrected decision part: a wrapped group whose on time has not passed, before its off time. */
  lemma DecideDiffersFromIntended(g: Group, nowMs: int)
    requires Wrapped(g)
    ensures Decide(g, nowMs) != IntendedDecide(g, nowMs)
      <==> !AfterCurrentTime(g.switchOn, nowMs) && !AfterCurrentTime(g.switchOff, nowMs)
  {
  }

  // ------------------------------------------------------------ grouping

  /** `grouped`: the relays in the order their first entry came, and each relay's times. */
  datatype Grouping = Grouping(order: seq<Id>, groups: map<Id, Group>)

  /** One forEach step: the entry's time replaces any earlier one for the same relay and action. */
  function Put(g: Grouping, c: Cronjob): Grouping
  {
    var known := c.relay in g.groups;
    var grp := if known then g.groups[c.relay] else Group(None, None);
    var t := TimeFromCronjob(c.cronPattern);
    var grp' := if c.action == SWITCH_ON then grp.(switchOn := Some(t))
      else if c.action == SWITCH_OFF then grp.(switchOff := Some(t))
      else grp;
    Grouping(if known then g.order else g.order + [c.relay], g.groups[c.relay := grp'])
  }

  function GroupAll(cronjobs: seq<Cronjob>): (g: Grouping)
    ensures forall r :: r in g.order <==> r in g.groups
  {
    if |cronjobs| == 0 then Grouping([], map[])
    else Put(GroupAll(cronjobs[..|cronjobs| - 1]), cronjobs[|cronjobs| - 1])
  }

  /** The time of the last entry for the relay and action, if any (a reference for the grouping). */
  function LastTime(cronjobs: seq<Cronjob>, relay: Id, action: string): (t: Option<Moment>)
    ensures t.Some? <==> exists k :: 0 <= k < |cronjobs| && cronjobs[k].relay == relay && cronjobs[k].action == action
  {
    if |cronjobs| == 0 then None
    else
      var c := cronjobs[|cronjobs| - 1];
      if c.relay == relay && c.action == action then Some(TimeFromCronjob(c.cronPattern))
      else
        var t := LastTime(cronjobs[..|cronjobs| - 1], relay, action);
        assert forall k :: 0 <= k < |cronjobs| - 1 ==> cronjobs[..|cronjobs| - 1][k] == cronjobs[k];
        t
  }

  /**
   * Every relay with an entry is grouped exactly once, in a list without
   * repeats, and its group holds the last on and the last off time given for it.
   */
  lemma {:induction false} GroupAllFacts(cronjobs: seq<Cronjob>)
    ensures var g := GroupAll(cronjobs);
      Distinct(g.order)
      && (forall r :: r in g.order <==> r in g.groups)
      && (forall r :: r in g.groups <==> exists k :: 0 <= k < |cronjobs| && cronjobs[k].relay == r)
      && forall r :: r in g.groups ==>
        g.groups[r] == Group(LastTime(cronjobs, r, SWITCH_ON), LastTime(cronjobs, r, SWITCH_OFF))
  {
    var g := GroupAll(cronjobs);
    GroupAllDistinct(cronjobs);
    forall r ensures r in g.groups <==> exists k :: 0 <= k < |cronjobs| && cronjobs[k].relay == r {
      GroupAllKeys(cronjobs, r);
    }
    forall r | r in g.groups
      ensures g.groups[r] == Group(LastTime(cronjobs, r, SWITCH_ON), LastTime(cronjobs, r, SWITCH_OFF))
    {
      GroupAllTimes(cronjobs, r);
    }
  }

  /** A relay joins the grouping's order only the first time it is seen. */
  lemma {:induction false} GroupAllDistinct(cronjobs: seq<Cronjob>)
    ensures Distinct(GroupAll(cronjobs).order)
  {
    if |cronjobs| > 0 {
      GroupAllDistinct(cronjobs[..|cronjobs| - 1]);
    }
  }

  /** A relay is grouped exactly when some entry names it. */
  lemma {:induction false} GroupAllKeys(cronjobs: seq<Cronjob>, r: Id)
    ensures r in GroupAll(cronjobs).groups <==> exists k :: 0 <= k < |cronjobs| && cronjobs[k].relay == r
  {
    if |cronjobs| > 0 {
      var prefix := cronjobs[..|cronjobs| - 1];
      GroupAllKeys(prefix, r);
      assert forall k :: 0 <= k < |prefix| ==> prefix[k] == cronjobs[k];
      if cronjobs[|cronjobs| - 1].relay == r {
        assert r in GroupAll(cronjobs).groups;
      }
    }
  }

  /** A grouped relay's times are those of its last on and its last off entry. */
  lemma {:induction false} GroupAllTimes(cronjobs: seq<Cronjob>, r: Id)
    requires r in GroupAll(cronjobs).groups
    ensures GroupAll(cronjobs).groups[r] == Group(LastTime(cronjobs, r, SWITCH_ON), LastTime(cronjobs, r, SWITCH_OFF))
  {
    var prefix := cronjobs[..|cronjobs| - 1];
    var c := cronjobs[|cronjobs| - 1];
    if r in GroupAll(prefix).groups {
      GroupAllTimes(prefix, r);
    } else {
      GroupAllKeys(prefix, r);
      assert LastTime(prefix, r, SWITCH_ON).None? && LastTime(prefix, r, SWITCH_OFF).None?;
    }
  }


  // ------------------------------------------------------------ bootStatus

  /** One `operateRelay(relayId, action, info, null)` call. */
  datatype Command = Command(relayId: Id, action: string)

  /** The calls for the grouped relays, in their order; a relay with no decision gets none. */
  function Commands(order: seq<Id>, groups: map<Id, Group>, nowMs: int): (cs: seq<Command>)
    requires forall r :: r in order ==> r in groups
    ensures |cs| <= |order|
    ensures forall k :: 0 <= k < |cs| ==> cs[k].relayId in order && Decide(groups[cs[k].relayId], nowMs) == Some(cs[k].action)
    ensures forall r :: r in order && Decide(groups[r], nowMs).Some? ==> exists k :: 0 <= k < |cs| && cs[k].relayId == r
  {
    if |order| == 0 then []
    else
      var r := order[|order| - 1];
      var rest := Commands(order[..|order| - 1], groups, nowMs);
      assert forall x :: x in order[..|order| - 1] ==> x in order;
      match Decide(groups[r], nowMs)
      case Some(action) =>
        var cs := rest + [Command(r, action)];
        assert forall k :: 0 <= k < |rest| ==> cs[k] == rest[k];
        assert cs[|rest|].relayId == r;
        cs
      case None => rest
  }

  /** No relay gets two calls. */
  predicate OneCallPerRelay(cs: seq<Command>)
  {
    forall i, j :: 0 <= i < j < |cs| ==> cs[i].relayId != cs[j].relayId
  }

  lemma {:induction false} CommandsDistinct(order: seq<Id>, groups: map<Id, Group>, nowMs: int)
    requires forall r :: r in order ==> r in groups
    requires Distinct(order)
    ensures OneCallPerRelay(Commands(order, groups, nowMs))
  {
    if |order| > 0 {
      var prefix := order[..|order| - 1];
      assert Distinct(prefix);
      CommandsDistinct(prefix, groups, nowMs);
      assert order[|order| - 1] !in prefix;
      var last := order[|order| - 1];
      var rest := Commands(prefix, groups, nowMs);
      assert forall k :: 0 <= k < |rest| ==> rest[k].relayId != last;
      var cs := Commands(order, groups, nowMs);
      if Decide(groups[last], nowMs).Some? {
        assert cs == rest + [Command(last, Decide(groups[last], nowMs).value)];
        forall i, j | 0 <= i < j < |cs| ensures cs[i].relayId != cs[j].relayId {
          assert cs[i] == rest[i];
          if j < |rest| {
            assert cs[j] == rest[j];
            assert rest[i].relayId != rest[j].relayId;
          }
        }
      } else {
        assert cs == rest;
        forall i, j | 0 <= i < j < |cs| ensures cs[i].relayId != cs[j].relayId {
          assert cs[i] == rest[i] && cs[j] == rest[j];
          assert rest[i].relayId != rest[j].relayId;
        }
      }
    }
  }

  /**
   * bootStatus: group the entries by relay (the forEach), then issue one
   * call per grouped relay that has a decision (the for-in).
   */
  method BootStatus(cronjobs: seq<Cronjob>, nowMs: int) returns (commands: seq<Command>)
    ensures commands == Commands(GroupAll(cronjobs).order, GroupAll(cronjobs).groups, nowMs)
  {
    var g := GroupEntries(cronjobs);
    commands := CollectCommands(g.order, g.groups, nowMs);
  }

  /** The forEach over the stored cronjobs that fills the grouping. */
  method GroupEntries(cronjobs: seq<Cronjob>) returns (g: Grouping)
    ensures g == GroupAll(cronjobs)
  {
    var order: seq<Id> := [];
    var groups: map<Id, Group> := map[];
    var i := 0;
    while i < |cronjobs|
      invariant 0 <= i <= |cronjobs| && Grouping(order, groups) == GroupAll(cronjobs[..i])
    {
      assert cronjobs[..i + 1][..i] == cronjobs[..i];
      var next := Put(Grouping(order, groups), cronjobs[i]);
      order, groups := next.order, next.groups;
      i := i + 1;
    }
    assert cronjobs[..i] == cronjobs;
    g := Grouping(order, groups);
  }

  /** The for-in over the grouped relays: a call for each one with a decision, in grouping order. */
  method CollectCommands(order: seq<Id>, groups: map<Id, Group>, nowMs: int) returns (commands: seq<Command>)
    requires forall r :: r in order ==> r in groups
    ensures commands == Commands(order, groups, nowMs)
  {
    commands := [];
    var j := 0;
    while j < |order|
      invariant 0 <= j <= |order| && commands == Commands(order[..j], groups, nowMs)
    {
      assert order[..j + 1][..j] == order[..j];
      var action := Decide(groups[order[j]], nowMs);
      if action.Some? {
        commands := commands + [Command(order[j], action.value)];
      }
      j := j + 1;
    }
    assert order[..j] == order;
  }

  /**
   * What bootStatus sends: one call per relay at most; a call for a relay
   * exactly when it has an on or an off entry; and each call's action is the
   * decision on the relay's last on and off times.
   */
  lemma BootStatusCommands(cronjobs: seq<Cronjob>, nowMs: int)
    ensures var g := GroupAll(cronjobs);
      var cs := Commands(g.order, g.groups, nowMs);
      OneCallPerRelay(cs)
      && (forall k :: 0 <= k < |cs| ==>
        Some(cs[k].action) == Decide(Group(LastTime(cronjobs, cs[k].relayId, SWITCH_ON), LastTime(cronjobs, cs[k].relayId, SWITCH_OFF)), nowMs))
      && forall r :: (exists k :: 0 <= k < |cs| && cs[k].relayId == r) <==>
        LastTime(cronjobs, r, SWITCH_ON).Some? || LastTime(cronjobs, r, SWITCH_OFF).Some?
  {
    var g := GroupAll(cronjobs);
    GroupAllDistinct(cronjobs);
    CommandsDistinct(g.order, g.groups, nowMs);
    var cs := Commands(g.order, g.groups, nowMs);
    forall k | 0 <= k < |cs|
      ensures Some(cs[k].action) == Decide(Group(LastTime(cronjobs, cs[k].relayId, SWITCH_ON), LastTime(cronjobs, cs[k].relayId, SWITCH_OFF)), nowMs)
    {
      GroupAllTimes(cronjobs, cs[k].relayId);
    }
    forall r ensures (exists k :: 0 <= k < |cs| && cs[k].relayId == r) <==>
        LastTime(cronjobs, r, SWITCH_ON).Some? || LastTime(cronjobs, r, SWITCH_OFF).Some?
    {
      CalledIffEntry(cronjobs, nowMs, r);
    }
  }

  /** One relay: bootStatus calls it exactly when it has an on or an off entry. */
  lemma CalledIffEntry(cronjobs: seq<Cronjob>, nowMs: int, r: Id)
    ensures var g := GroupAll(cronjobs);
      var cs := Commands(g.order, g.groups, nowMs);
      (exists k :: 0 <= k < |cs| && cs[k].relayId == r) <==>
        LastTime(cronjobs, r, SWITCH_ON).Some? || LastTime(cronjobs, r, SWITCH_OFF).Some?
  {
    var g := GroupAll(cronjobs);
    var cs := Commands(g.order, g.groups, nowMs);
    GroupAllKeys(cronjobs, r);
    if r in g.groups {
      GroupAllTimes(cronjobs, r);
    }
  }


  /** The two stored light entries, 07:30 on and 19:30 off. */
  function LightSchedule(relay: Id): seq<Cronjob>
  {
    [Cronjob(relay, SWITCH_ON, DailyPattern(7, 30, 0)), Cronjob(relay, SWITCH_OFF, DailyPattern(19, 30, 0))]
  }

  /** At 12:12 the light is switched on, at 02:12 off; one call each time. */
  lemma LightScheduleAtBoot(relay: Id)
    ensures var g := GroupAll(LightSchedule(relay));
      Commands(g.order, g.groups, DayTime(12, 12, 0) * 1000) == [Command(relay, SWITCH_ON)]
      && Commands(g.order, g.groups, DayTime(2, 12, 0) * 1000) == [Command(relay, SWITCH_OFF)]
  {
    LightScheduleGroups(relay);
    DayScheduleCommands(relay, GroupAll(LightSchedule(relay)));
  }

  /** One relay, on at 07:30 and off at 19:30: on at 12:12, off at 02:12. */
  lemma DayScheduleCommands(relay: Id, g: Grouping)
    requires g == Grouping([relay], map[relay := Group(Some(At(DayTime(7, 30, 0))), Some(At(DayTime(19, 30, 0))))])
    ensures Commands(g.order, g.groups, DayTime(12, 12, 0) * 1000) == [Command(relay, SWITCH_ON)]
    ensures Commands(g.order, g.groups, DayTime(2, 12, 0) * 1000) == [Command(relay, SWITCH_OFF)]
  {
    var grp := g.groups[relay];
    assert [relay][..0] == [];
    assert Decide(grp, 43920000) == Some(SWITCH_ON);
    assert Decide(grp, 7920000) == Some(SWITCH_OFF);
  }

  /** An on entry and then an off entry for one relay form one group holding both times. */
  lemma OnOffGroup(relay: Id, onPattern: string, offPattern: string)
    ensures GroupAll([Cronjob(relay, SWITCH_ON, onPattern), Cronjob(relay, SWITCH_OFF, offPattern)])
      == Grouping([relay], map[relay := Group(Some(TimeFromCronjob(onPattern)), Some(TimeFromCronjob(offPattern)))])
  {
    var s := [Cronjob(relay, SWITCH_ON, onPattern), Cronjob(relay, SWITCH_OFF, offPattern)];
    assert s[..1][..0] == [];
    assert SWITCH_OFF != SWITCH_ON by { assert SWITCH_OFF[7] != SWITCH_ON[7]; }
    var g1 := Grouping([relay], map[relay := Group(Some(TimeFromCronjob(onPattern)), None)]);
    assert GroupAll(s[..1]) == Put(GroupAll([]), s[0]) == g1;
    assert GroupAll(s) == Put(g1, s[1]);
  }

  /** The two entries form one group with both times. */
  lemma LightScheduleGroups(relay: Id)
    ensures GroupAll(LightSchedule(relay))
      == Grouping([relay], map[relay := Group(Some(At(DayTime(7, 30, 0))), Some(At(DayTime(19, 30, 0))))])
  {
    DailyPatternTime(7, 30, 0);
    DailyPatternTime(19, 30, 0);
    OnOffGroup(relay, DailyPattern(7, 30, 0), DailyPattern(19, 30, 0));
  }

  // ------------------------------------------------------------ running jobs

  /** A launched `CronJob`: its pattern, the call it makes, and whether it still runs. */
  class CronJob {
    const entry: Cronjob
    var running: bool

    constructor (c: Cronjob)
      ensures entry == c && running
    {
      entry := c;
      running := true;
    }

    method Stop()
      modifies this
      ensures !running
    {
      running := false;
    }
  }

  /** The module's `cronjobs` array. */
  class CronRegistry {
    var jobs: seq<CronJob>

    constructor ()
      ensures jobs == []
    {
      jobs := [];
    }

    /**
     * launchCronjobs: a failed query is returned; otherwise the boot states
     * are restored first and then every entry gets a running job, in order.
     */
    method LaunchCronjobs(found: Result<seq<Cronjob>>, nowMs: int) returns (r: Outcome, commands: seq<Command>)
      modifies this
      ensures found.Err? ==> r == Fail(found.error) && commands == [] && jobs == old(jobs)
      ensures found.Ok? ==> (r == Pass
        && commands == Commands(GroupAll(found.value).order, GroupAll(found.value).groups, nowMs)
        && Launched(old(jobs), found.value))
    {
      if found.Err? {
        return Fail(found.error), [];
      }
      commands := BootStatus(found.value, nowMs);
      AddJobs(found.value);
      r := Pass;
    }

    /** The jobs are the earlier ones, then a fresh running job per entry. */
    ghost predicate Launched(before: seq<CronJob>, entries: seq<Cronjob>)
      reads this, jobs
    {
      |jobs| == |before| + |entries| && jobs[..|before|] == before
      && forall k :: 0 <= k < |entries| ==>
        jobs[|before| + k].entry == entries[k] && jobs[|before| + k].running
    }

    /** One `new CronJob(...)` and push per entry, in order. */
    method AddJobs(entries: seq<Cronjob>)
      modifies this
      ensures Launched(old(jobs), entries)
      ensures forall k :: |old(jobs)| <= k < |jobs| ==> fresh(jobs[k])
    {
      var i := 0;
      while i < |entries|
        invariant 0 <= i <= |entries| && Launched(old(jobs), entries[..i])
        invariant forall k :: |old(jobs)| <= k < |jobs| ==> fresh(jobs[k])
      {
        var job := new CronJob(entries[i]);
        jobs := jobs + [job];
        i := i + 1;
      }
      assert entries[..i] == entries;
    }

    /** getActiveCronjobs: the array itself. */
    function GetActiveCronjobs(): seq<CronJob>
      reads this
    {
      jobs
    }

    /** stopCronjobs: from the last to the first, each job is stopped and removed. */
    method StopCronjobs()
      modifies this, jobs
      ensures GetActiveCronjobs() == []
      ensures forall k :: 0 <= k < |old(jobs)| ==> !old(jobs)[k].running
    {
      var index := |jobs| - 1;
      while index >= 0
        invariant -1 <= index < |old(jobs)| && jobs == old(jobs)[..index + 1]
        invariant forall k :: index < k < |old(jobs)| ==> !old(jobs)[k].running
      {
        jobs[index].Stop();
        jobs := jobs[..index];
        index := index - 1;
      }
    }
  }
}
