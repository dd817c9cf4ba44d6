/**
 * The registry of booted relays (src/relay/relay.service.js): booting from
 * the stored relay documents, lookup by id, and the operations rules and
 * the API run on a relay.
 */
module RelayService {
  import opened Wrappers
  import opened Bus
  import RC = RelayControllers
  import opened Relays
  import Clocks

  /** The stored relays a boot adds: one per address, the first stored one winning. */
  function Admitted(taken: seq<int>, found: seq<RelayOptions>): (r: seq<RelayOptions>)
    requires forall k :: 0 <= k < |found| ==> found[k].address.Some?
    ensures forall j :: 0 <= j < |r| ==> r[j].address.Some?
  {
    if |found| == 0 then []
    else
      var prev := Admitted(taken, found[..|found| - 1]);
      var x := found[|found| - 1];
      if x.address.value in taken + AddressesOf(prev) then prev else prev + [x]
  }

  /** One more stored relay: it is admitted exactly when its address is still free. */
  lemma AdmittedStep(taken: seq<int>, found: seq<RelayOptions>, k: nat)
    requires forall j :: 0 <= j < |found| ==> found[j].address.Some?
    requires k < |found|
    ensures var prev := Admitted(taken, found[..k]);
      Admitted(taken, found[..k + 1]) ==
        if found[k].address.value in taken + AddressesOf(prev) then prev else prev + [found[k]]
  {
    assert found[..k + 1][..k] == found[..k];
  }

  function AddressesOf(os: seq<RelayOptions>): (r: seq<int>)
    requires forall k :: 0 <= k < |os| ==> os[k].address.Some?
    ensures |r| == |os| && forall k :: 0 <= k < |os| ==> r[k] == os[k].address.value
  {
    if |os| == 0 then [] else AddressesOf(os[..|os| - 1]) + [os[|os| - 1].address.value]
  }

  /** The addresses of one more document: one more address at the end. */
  lemma AddressesOfAppend(os: seq<RelayOptions>, x: RelayOptions)
    requires forall k :: 0 <= k < |os| ==> os[k].address.Some?
    requires x.address.Some?
    ensures AddressesOf(os + [x]) == AddressesOf(os) + [x.address.value]
  {
    assert (os + [x])[..|os|] == os;
  }

  predicate Distinct(s: seq<int>)
  {
    forall i, j :: 0 <= i < j < |s| ==> s[i] != s[j]
  }

  /** Booting never registers two relays at one address. */
  lemma {:induction false} AdmittedDistinct(taken: seq<int>, found: seq<RelayOptions>)
    requires forall k :: 0 <= k < |found| ==> found[k].address.Some?
    requires Distinct(taken)
    ensures Distinct(taken + AddressesOf(Admitted(taken, found)))
  {
    if |found| > 0 {
      var prev := Admitted(taken, found[..|found| - 1]);
      AdmittedDistinct(taken, found[..|found| - 1]);
      var x := found[|found| - 1];
      if x.address.value !in taken + AddressesOf(prev) {
        assert Admitted(taken, found) == prev + [x];
        AddressesOfAppend(prev, x);
        assert taken + AddressesOf(prev + [x]) == (taken + AddressesOf(prev)) + [x.address.value];
        DistinctAppend(taken + AddressesOf(prev), x.address.value);
      } else {
        assert Admitted(taken, found) == prev;
      }
    }
  }

  lemma DistinctAppend(s: seq<int>, x: int)
    requires Distinct(s) && x !in s
    ensures Distinct(s + [x])
  {
    forall i, j | 0 <= i < j < |s + [x]| ensures (s + [x])[i] != (s + [x])[j] {
      if j == |s| {
        assert s[i] in s;
      }
    }
  }

  /** Every stored address ends up registered, whether already taken or newly admitted. */
  lemma {:induction false} AdmittedCovers(taken: seq<int>, found: seq<RelayOptions>, k: nat)
    requires forall j :: 0 <= j < |found| ==> found[j].address.Some?
    requires k < |found|
    ensures found[k].address.value in taken + AddressesOf(Admitted(taken, found))
  {
    var prev := Admitted(taken, found[..|found| - 1]);
    var x := found[|found| - 1];
    if k < |found| - 1 {
      AdmittedCovers(taken, found[..|found| - 1], k);
      assert found[..|found| - 1][k] == found[k];
      if x.address.value !in taken + AddressesOf(prev) {
        AddressesOfAppend(prev, x);
      }
    } else if x.address.value !in taken + AddressesOf(prev) {
      AddressesOfAppend(prev, x);
    }
  }

  lemma PrefixOfAppend<T>(a: seq<T>, x: T)
    ensures (a + [x])[..|a|] == a
  {
  }

  lemma AppendAssoc(a: seq<int>, b: seq<int>, x: int)
    ensures a + (b + [x]) == (a + b) + [x]
  {
  }

  /** The registry invariant on a list of relays: wired, on or off, at distinct addresses. */
  ghost predicate Registry(rs: seq<Relay>)
    reads rs
  {
    (forall i :: 0 <= i < |rs| ==> rs[i].Wired() && (rs[i].state == 0 || rs[i].state == 1))
    && (forall i, j :: 0 <= i < j < |rs| ==> rs[i].address != rs[j].address)
  }

  /** A registry of wired relays at distinct addresses stays one when a wired relay at a free address joins it. */
  lemma RegistryAppend(rs: seq<Relay>, relay: Relay)
    requires Registry(rs) && relay.Wired() && relay.state == 0
    requires forall i :: 0 <= i < |rs| ==> rs[i].address != relay.address
    ensures Registry(rs + [relay])
  {
    var rs' := rs + [relay];
    assert forall i :: 0 <= i < |rs| ==> rs'[i] == rs[i];
  }

  /** An address missing from the registry's addresses is no relay's address. */
  lemma NotInAddresses(rs: seq<Relay>, a: int)
    requires a !in AddressesIn(rs)
    ensures forall i :: 0 <= i < |rs| ==> rs[i].address != a
  {
    forall i | 0 <= i < |rs| ensures rs[i].address != a {
      assert AddressesIn(rs)[i] == rs[i].address;
    }
  }

  /** `rs` is `kept` followed by one fresh relay per document of `adm`. */
  ghost predicate ExtendsSeq(rs: seq<Relay>, kept: seq<Relay>, adm: seq<RelayOptions>, controller: RC.RelayController)
    reads rs
  {
    |rs| == |kept| + |adm| && rs[..|kept|] == kept
    && forall j :: 0 <= j < |adm| ==> RelayService.NewRelayFrom(rs[|kept| + j], adm[j], controller)
  }

  /** Appending the relay built from `o` extends the registry by `o`, and its addresses by o's address. */
  lemma ExtendsAppend(rs: seq<Relay>, kept: seq<Relay>, adm: seq<RelayOptions>, relay: Relay, o: RelayOptions,
                      controller: RC.RelayController, taken: seq<int>)
    requires ExtendsSeq(rs, kept, adm, controller) && RelayService.NewRelayFrom(relay, o, controller)
    requires o.address.Some? && forall j :: 0 <= j < |adm| ==> adm[j].address.Some?
    requires AddressesIn(rs) == taken + AddressesOf(adm)
    ensures forall j :: 0 <= j < |adm + [o]| ==> (adm + [o])[j].address.Some?
    ensures ExtendsSeq(rs + [relay], kept, adm + [o], controller)
    ensures AddressesIn(rs + [relay]) == taken + AddressesOf(adm + [o])
  {
    var rs' := rs + [relay];
    var adm' := adm + [o];
    assert rs'[..|rs'| - 1] == rs;
    assert adm'[..|adm'| - 1] == adm;
    AddressesOfAppend(adm, o);
    AppendAssoc(taken, AddressesOf(adm), o.address.value);
    assert rs'[..|kept|] == kept by {
      assert rs'[..|kept|] == rs[..|kept|];
    }
    forall j | 0 <= j < |adm'| ensures RelayService.NewRelayFrom(rs'[|kept| + j], adm'[j], controller) {
      if j < |adm| {
        assert rs'[|kept| + j] == rs[|kept| + j] && adm'[j] == adm[j];
      } else {
        assert rs'[|kept| + j] == relay && adm'[j] == o;
      }
    }
  }

  /** The relay mapping a controller built from the RELAIS_MAPPING setting uses. */
  function MappingOf(envMapping: Option<seq<int>>): seq<int>
  {
    if envMapping.Some? then envMapping.value else RC.DEFAULT_MAPPING
  }

  /** findIndex over the registry by id: the first relay with that id. */
  function FirstWithId(rs: seq<Relay>, id: Id): (r: Option<nat>)
    ensures r.Some? ==> r.value < |rs| && rs[r.value].id == id && forall j :: 0 <= j < r.value ==> rs[j].id != id
    ensures r.None? ==> forall j :: 0 <= j < |rs| ==> rs[j].id != id
  {
    if |rs| == 0 then None
    else if rs[|rs| - 1].id == id && FirstWithId(rs[..|rs| - 1], id).None? then Some(|rs| - 1)
    else FirstWithId(rs[..|rs| - 1], id)
  }

  /** The first state listed for the id, searched like findIndex. */
  function StateIn(table: seq<(Id, int)>, id: Id): (r: Option<int>)
  {
    if |table| == 0 then None
    else if table[|table| - 1].0 == id && StateIn(table[..|table| - 1], id).None? then Some(table[|table| - 1].1)
    else StateIn(table[..|table| - 1], id)
  }

  lemma {:induction false} StateInFirst(rs: seq<Relay>, table: seq<(Id, int)>, id: Id)
    requires |table| == |rs| && forall i :: 0 <= i < |rs| ==> table[i] == (rs[i].id, rs[i].state)
    ensures StateIn(table, id) == match FirstWithId(rs, id) case Some(i) => Some(rs[i].state) case None => None
  {
    if |rs| > 0 {
      StateInFirst(rs[..|rs| - 1], table[..|table| - 1], id);
    }
  }

  /** The addresses of registered relays, in registry order. */
  function AddressesIn(rs: seq<Relay>): (r: seq<int>)
    ensures |r| == |rs| && forall k :: 0 <= k < |rs| ==> r[k] == rs[k].address
  {
    if |rs| == 0 then [] else AddressesIn(rs[..|rs| - 1]) + [rs[|rs| - 1].address]
  }

  /** What operateRelay's callback gets from a switch. */
  function SwitchOutcome(s: SwitchResult): Outcome
  {
    match s
    case AlreadyInState => Pass
    case WriteFailed(e) => Fail(e)
    case Switched(_, saved) => saved
  }

  /** The on/off state of each registered relay. */
  ghost function StatesOf(rs: seq<Relay>): (r: seq<int>)
    reads rs
    ensures |r| == |rs| && forall k :: 0 <= k < |rs| ==> r[k] == rs[k].state
  {
    seq(|rs|, k requires 0 <= k < |rs| reads rs => rs[k].state)
  }

  /** The detector that owns each registered relay (its blockedBy), if any. */
  ghost function OwnersOf(rs: seq<Relay>): (r: seq<Option<Id>>)
    reads rs
    ensures |r| == |rs| && forall k :: 0 <= k < |rs| ==> r[k] == rs[k].blockedBy
  {
    seq(|rs|, k requires 0 <= k < |rs| reads rs => rs[k].blockedBy)
  }

  /** The owners read off relay by relay make up OwnersOf. */
  lemma OwnersAre(rs: seq<Relay>, ow: seq<Option<Id>>)
    requires |ow| == |rs| && forall k :: 0 <= k < |rs| ==> rs[k].blockedBy == ow[k]
    ensures OwnersOf(rs) == ow
  {
  }

  /** The states read off relay by relay make up StatesOf. */
  lemma StatesAre(rs: seq<Relay>, st: seq<int>)
    requires |st| == |rs| && forall k :: 0 <= k < |rs| ==> rs[k].state == st[k]
    ensures StatesOf(rs) == st
  {
  }

  /** The registers read off relay by relay make up MasksOf. */
  lemma MasksAre(rs: seq<Relay>, ms: seq<int>)
    requires |ms| == |rs| && forall k :: 0 <= k < |rs| ==> rs[k].controller.currentState == ms[k]
    ensures MasksOf(rs) == ms
  {
  }

  /** The register positions of the relays of `c` whose state in `st` is on. */
  ghost function PositionsOn(rs: seq<Relay>, st: seq<int>, c: RC.RelayController): set<int>
    requires |st| == |rs|
  {
    set i | 0 <= i < |rs| && rs[i].controller == c && st[i] == 1 && 1 <= rs[i].address <= |c.addressMapping|
      :: c.addressMapping[rs[i].address - 1]
  }

  predicate AddressesDistinct(rs: seq<Relay>)
  {
    forall i, j :: 0 <= i < j < |rs| ==> rs[i].address != rs[j].address
  }

  /** Switching a relay of another controller leaves the positions of `c` as they were. */
  lemma PositionsOtherController(rs: seq<Relay>, st: seq<int>, idx: nat, v: int, c: RC.RelayController)
    requires |st| == |rs| && idx < |rs| && rs[idx].controller != c
    ensures PositionsOn(rs, st[idx := v], c) == PositionsOn(rs, st, c)
  {
    assert forall i :: 0 <= i < |rs| && rs[i].controller == c ==> st[idx := v][i] == st[i];
  }

  /**
   * With a one-to-one mapping and distinct addresses, the position of a relay
   * that is off is not among the positions of the relays that are on.
   */
  lemma {:induction false} PositionFree(rs: seq<Relay>, st: seq<int>, idx: nat)
    requires |st| == |rs| && idx < |rs| && st[idx] != 1 && AddressesDistinct(rs)
    requires RC.IsPermutation(rs[idx].controller.addressMapping) && 1 <= rs[idx].address <= 8
    ensures rs[idx].controller.addressMapping[rs[idx].address - 1] !in PositionsOn(rs, st, rs[idx].controller)
  {
    var c := rs[idx].controller;
    var b := rs[idx].address - 1;
    forall i | 0 <= i < |rs| && rs[i].controller == c && st[i] == 1 && 1 <= rs[i].address <= |c.addressMapping|
      ensures c.addressMapping[rs[i].address - 1] != c.addressMapping[b]
    {
      var a := rs[i].address - 1;
      if i < idx { assert a != b; } else { assert rs[idx].address != rs[i].address; }
      if a < b { assert c.addressMapping[a] != c.addressMapping[b]; } else { assert c.addressMapping[b] != c.addressMapping[a]; }
    }
  }

  /** Switching on an off relay of `c` adds exactly its position. */
  lemma PositionsSwitchedOn(rs: seq<Relay>, st: seq<int>, idx: nat)
    requires |st| == |rs| && idx < |rs| && st[idx] != 1
    requires 1 <= rs[idx].address <= |rs[idx].controller.addressMapping|
    ensures var c := rs[idx].controller;
      PositionsOn(rs, st[idx := 1], c) == PositionsOn(rs, st, c) + {c.addressMapping[rs[idx].address - 1]}
  {
    var c := rs[idx].controller;
    var st' := st[idx := 1];
    forall q | q in PositionsOn(rs, st', c) ensures q in PositionsOn(rs, st, c) + {c.addressMapping[rs[idx].address - 1]} {
      var i :| 0 <= i < |rs| && rs[i].controller == c && st'[i] == 1 && 1 <= rs[i].address <= |c.addressMapping|
        && c.addressMapping[rs[i].address - 1] == q;
      if i != idx {
        assert st[i] == 1;
      }
    }
  }

  /**
   * Switching off an on relay of `c` removes exactly its position, given a
   * one-to-one mapping and distinct addresses.
   */
  lemma PositionsSwitchedOff(rs: seq<Relay>, st: seq<int>, idx: nat)
    requires |st| == |rs| && idx < |rs| && st[idx] == 1 && AddressesDistinct(rs)
    requires RC.IsPermutation(rs[idx].controller.addressMapping) && 1 <= rs[idx].address <= 8
    ensures var c := rs[idx].controller;
      PositionsOn(rs, st[idx := 0], c) == PositionsOn(rs, st, c) - {c.addressMapping[rs[idx].address - 1]}
  {
    var c := rs[idx].controller;
    var st' := st[idx := 0];
    PositionFree(rs, st', idx);
    PositionsSwitchedOn(rs, st', idx);
    assert st'[idx := 1] == st;
  }

  /**
   * Switching one relay of a one-to-one controller moves that controller's
   * register by exactly the relay's bit: the bit is set when it goes on and
   * cleared when it goes off.
   */
  lemma MaskStep(rs: seq<Relay>, st: seq<int>, idx: nat, on: bool, m: int)
    requires |st| == |rs| && idx < |rs| && AddressesDistinct(rs)
    requires RC.IsPermutation(rs[idx].controller.addressMapping) && 1 <= rs[idx].address <= 8
    requires st[idx] == (if on then 0 else 1)
    requires m == RC.MaskOf(PositionsOn(rs, st, rs[idx].controller), 8)
    ensures var c := rs[idx].controller; var bit := Pow2(c.addressMapping[rs[idx].address - 1] - 1);
      RC.MaskOf(PositionsOn(rs, st[idx := if on then 1 else 0], c), 8) == (if on then m + bit else m - bit)
  {
    var c := rs[idx].controller;
    var p := c.addressMapping[rs[idx].address - 1];
    if on {
      PositionFree(rs, st, idx);
      PositionsSwitchedOn(rs, st, idx);
      RC.MaskAdd(PositionsOn(rs, st, c), p, 8);
    } else {
      PositionsSwitchedOff(rs, st, idx);
      RC.MaskRemove(PositionsOn(rs, st, c), p, 8);
    }
  }

  /** The controller of each registered relay. */
  function ControllersOf(rs: seq<Relay>): (r: seq<RC.RelayController>)
    ensures |r| == |rs| && forall k :: 0 <= k < |rs| ==> r[k] == rs[k].controller
  {
    seq(|rs|, k requires 0 <= k < |rs| => rs[k].controller)
  }

  /** The register value of each registered relay's controller. */
  ghost function MasksOf(rs: seq<Relay>): (r: seq<int>)
    reads ControllersOf(rs)
    ensures |r| == |rs| && forall k :: 0 <= k < |rs| ==> r[k] == rs[k].controller.currentState
  {
    var cs := ControllersOf(rs);
    seq(|rs|, k requires 0 <= k < |rs| reads cs => cs[k].currentState)
  }

  /** Every one-to-one controller's register `ms[i]` is the OR of the bits of its relays on in `st`. */
  ghost predicate Tracks(rs: seq<Relay>, st: seq<int>, ms: seq<int>)
    requires |st| == |rs| && |ms| == |rs|
  {
    forall i :: 0 <= i < |rs| && RC.IsPermutation(rs[i].controller.addressMapping) ==>
      ms[i] == RC.MaskOf(PositionsOn(rs, st, rs[i].controller), 8)
  }

  /** The registers after the controller of relay `idx` moved by `delta`. */
  ghost function Moved(rs: seq<Relay>, ms: seq<int>, idx: nat, delta: int): (r: seq<int>)
    requires |ms| == |rs| && idx < |rs|
    ensures |r| == |rs| && forall k :: 0 <= k < |rs| ==>
      r[k] == (if rs[k].controller == rs[idx].controller then ms[k] + delta else ms[k])
  {
    seq(|rs|, k requires 0 <= k < |rs| => if rs[k].controller == rs[idx].controller then ms[k] + delta else ms[k])
  }

  /**
   * The Relay's idempotence check and a successful write keep every register
   * in step: switching relay `idx` to the other state while its controller's
   * register moves by its bit preserves Tracks.
   */
  lemma {:induction false} TracksAfterSwitch(rs: seq<Relay>, st: seq<int>, ms: seq<int>, idx: nat, on: bool)
    requires |st| == |rs| && |ms| == |rs| && idx < |rs| && AddressesDistinct(rs)
    requires 1 <= rs[idx].address <= |rs[idx].controller.addressMapping|
    requires rs[idx].controller.addressMapping[rs[idx].address - 1] >= 1
    requires st[idx] == (if on then 0 else 1) && Tracks(rs, st, ms)
    ensures Tracks(rs, st[idx := if on then 1 else 0], Moved(rs, ms, idx, if on then Bit(rs[idx]) else -Bit(rs[idx])))
  {
    var c := rs[idx].controller;
    var bit := Bit(rs[idx]);
    var st' := st[idx := if on then 1 else 0];
    var ms' := Moved(rs, ms, idx, if on then bit else -bit);
    forall i | 0 <= i < |rs| && RC.IsPermutation(rs[i].controller.addressMapping)
      ensures ms'[i] == RC.MaskOf(PositionsOn(rs, st', rs[i].controller), 8)
    {
      var ci := rs[i].controller;
      if ci != c {
        PositionsOtherController(rs, st, idx, if on then 1 else 0, ci);
      } else {
        MaskStep(rs, st, idx, on, ms[i]);
      }
    }
  }

  /**
   * What a boot adds keeps the registers in step: relays appended off, all
   * on a controller none of the kept relays uses and whose register is 0.
   */
  lemma TracksAppendedOff(kept: seq<Relay>, st: seq<int>, ms: seq<int>,
                          rs: seq<Relay>, st': seq<int>, ms': seq<int>, c: RC.RelayController)
    requires |st| == |kept| && |ms| == |kept| && |st'| == |rs| && |ms'| == |rs| && |kept| <= |rs|
    requires rs[..|kept|] == kept && st'[..|kept|] == st && ms'[..|kept|] == ms
    requires Tracks(kept, st, ms)
    requires forall i :: 0 <= i < |kept| ==> kept[i].controller != c
    requires forall i :: |kept| <= i < |rs| ==> rs[i].controller == c && st'[i] == 0 && ms'[i] == 0
    ensures Tracks(rs, st', ms')
  {
    var n := |kept|;
    assert forall j :: 0 <= j < n ==> rs[j] == kept[j] && st'[j] == st[j] && ms'[j] == ms[j] by {
      forall j | 0 <= j < n ensures rs[j] == kept[j] && st'[j] == st[j] && ms'[j] == ms[j] {
        assert rs[..n][j] == rs[j] && st'[..n][j] == st'[j] && ms'[..n][j] == ms'[j];
      }
    }
    forall i | 0 <= i < |rs| && RC.IsPermutation(rs[i].controller.addressMapping)
      ensures ms'[i] == RC.MaskOf(PositionsOn(rs, st', rs[i].controller), 8)
    {
      var ci := rs[i].controller;
      if i < n {
        assert forall j :: n <= j < |rs| ==> rs[j].controller != ci;
        assert PositionsOn(rs, st', ci) == PositionsOn(kept, st, ci);
      } else {
        forall j | 0 <= j < |rs| ensures rs[j].controller == c ==> st'[j] != 1 {
          if j < n {
            assert rs[j] == kept[j];
          }
        }
        assert PositionsOn(rs, st', c) == {};
        RC.MaskOfEmpty(8);
      }
    }
  }

  /** A write that fails after the register moved leaves that register out of step. */
  lemma TracksBroken(rs: seq<Relay>, st: seq<int>, ms: seq<int>, idx: nat, delta: int)
    requires |st| == |rs| && |ms| == |rs| && idx < |rs| && delta != 0 && Tracks(rs, st, ms)
    requires RC.IsPermutation(rs[idx].controller.addressMapping)
    ensures !Tracks(rs, st, Moved(rs, ms, idx, delta))
  {
    assert Moved(rs, ms, idx, delta)[idx] == ms[idx] + delta;
  }

  /**
   * What a switch does to the registers: unless the write failed, they stay in
   * step with the relays; a failed write puts a one-to-one controller's
   * register out of step.
   */
  lemma SwitchTracks(rs: seq<Relay>, st: seq<int>, ms: seq<int>, st': seq<int>, ms': seq<int>, idx: nat, on: bool,
                     sr: SwitchResult)
    requires |st| == |rs| && |ms| == |rs| && idx < |rs| && AddressesDistinct(rs) && rs[idx].Wired()
    requires (sr.AlreadyInState? <==> st[idx] == (if on then 1 else 0)) && (st[idx] == 0 || st[idx] == 1)
    requires st' == (if sr.Switched? then st[idx := if on then 1 else 0] else st)
    requires ms' == Moved(rs, ms, idx, Delta(rs[idx], on, sr))
    ensures Tracks(rs, st, ms) && !sr.WriteFailed? ==> Tracks(rs, st', ms')
    ensures Tracks(rs, st, ms) && sr.WriteFailed? && RC.IsPermutation(rs[idx].controller.addressMapping) ==>
      !Tracks(rs, st', ms')
  {
    if Tracks(rs, st, ms) {
      if sr.AlreadyInState? {
        assert ms' == ms;
      } else if sr.Switched? {
        TracksAfterSwitch(rs, st, ms, idx, on);
      } else if RC.IsPermutation(rs[idx].controller.addressMapping) {
        TracksBroken(rs, st, ms, idx, Delta(rs[idx], on, sr));
      }
    }
  }

  /** The relay's bit in its controller's register. */
  function Bit(x: Relay): int
    requires x.Wired()
  {
    Pow2(x.controller.addressMapping[x.address - 1] - 1)
  }

  /** How far a switch moves the register of the relay's controller: its bit, unless already in state. */
  function Delta(x: Relay, on: bool, sr: SwitchResult): int
    requires x.Wired()
  {
    if sr.AlreadyInState? then 0 else if on then Bit(x) else -Bit(x)
  }

  /**
   * A relay blocked for 10 minutes at `blockedAt`, looked at any time within
   * the following minute, has 9 whole minutes of blocking left.
   */
  lemma BlockedTenMinutesReadsNine(blockedAt: int, later: int)
    requires blockedAt < later <= blockedAt + 60000
    ensures Clocks.TruncDiv(blockedAt + 10 * 60000 - later, 60000) == 9
  {
  }

  class RelayService {
    var relays: seq<Relay>

    ghost predicate Valid()
      reads this, relays
    {
      Registry(relays)
    }

    /** The register positions of the relays of `c` that are on. */
    ghost function OnPositions(c: RC.RelayController): set<int>
      reads this, relays
    {
      PositionsOn(relays, StatesOf(relays), c)
    }

    /**
     * The controller's register holds exactly the bits of its relays that are
     * on, for every controller whose mapping is one-to-one onto 1..8.
     */
    ghost predicate MasksTrackRelays()
      reads this, relays, ControllersOf(relays)
    {
      Tracks(relays, StatesOf(relays), MasksOf(relays))
    }

    constructor ()
      ensures Valid() && relays == [] && MasksTrackRelays()
    {
      relays := [];
    }

    /** While the registers track the relays, a one-to-one controller's register is an 8-bit value. */
    lemma RegisterInByte(i: nat)
      requires MasksTrackRelays() && i < |relays| && RC.IsPermutation(relays[i].controller.addressMapping)
      ensures 0 <= relays[i].controller.currentState < 256
    {
      RC.MaskBound(OnPositions(relays[i].controller), 8);
      assert Pow2(2) == 4 && Pow2(4) == 16;
      assert Pow2(8) == 256;
    }

    /** getRelayById: the first relay with the id, or the registry's error. */
    function GetRelayById(id: Id): (r: Result<Relay>)
      reads this
      ensures r.Ok? <==> exists i :: 0 <= i < |relays| && relays[i].id == id
      ensures r.Ok? ==> r.value in relays && r.value.id == id
      ensures r.Err? ==> r.error == "No ouptut with this ID"
    {
      match FirstWithId(relays, id)
      case Some(i) => Ok(relays[i])
      case None => Err("No ouptut with this ID")
    }

    /** getRelayState: null for an unknown id, otherwise the state of the first relay with it. */
    function GetRelayState(id: Id): (r: Option<int>)
      reads this, relays
      ensures r.None? <==> forall i :: 0 <= i < |relays| ==> relays[i].id != id
      ensures r.Some? ==> exists i :: 0 <= i < |relays| && relays[i].id == id && r.value == relays[i].state
    {
      match FirstWithId(relays, id)
      case Some(i) => Some(relays[i].state)
      case None => None
    }

    /** The registry as (id, state) pairs, in order. */
    function IdsAndStates(): (t: seq<(Id, int)>)
      reads this, relays
      ensures |t| == |relays| && forall i :: 0 <= i < |relays| ==> t[i] == (relays[i].id, relays[i].state)
    {
      seq(|relays|, i requires 0 <= i < |relays| reads this, relays => (relays[i].id, relays[i].state))
    }

    /** getRelayState is a lookup in that table. */
    lemma StateLookup(id: Id)
      ensures GetRelayState(id) == StateIn(IdsAndStates(), id)
    {
      StateInFirst(relays, IdsAndStates(), id);
    }

    /**
     * operateRelay: only 'switchOn' and 'switchOff' are operations; the relay
     * is looked up by id and the operation dispatched to it, whose answer
     * becomes the callback's. A switch whose bus write succeeds keeps every
     * register in step with its relays; a failed write leaves the relay's
     * register changed but the relay not, so the two disagree from then on.
     */
    method OperateRelay(relayId: Id, operation: string, info: Info, detectorId: Option<Id>,
                        write: BusResult, saved: Outcome) returns (r: Outcome, s: Option<SwitchResult>)
      requires Valid()
      modifies set i | 0 <= i < |relays| :: relays[i]
      modifies set i | 0 <= i < |relays| :: relays[i].controller
      ensures Valid() && relays == old(relays)
      ensures operation != "switchOn" && operation != "switchOff" ==> r == Fail("Invalid operation") && s == None
      ensures (operation == "switchOn" || operation == "switchOff") && GetRelayById(relayId).Err? ==>
        r == Fail("No ouptut with this ID") && s == None
      ensures s.Some? <==> (operation == "switchOn" || operation == "switchOff") && GetRelayById(relayId).Ok?
      ensures s.Some? ==> r == SwitchOutcome(s.value)
      ensures s.None? ==> StatesOf(relays) == old(StatesOf(relays))
      ensures s.Some? ==> var idx := FirstWithId(relays, relayId).value;
        var target := if operation == "switchOn" then 1 else 0;
        (s.value.AlreadyInState? <==> old(relays[idx].state) == target)
        && StatesOf(relays) == (if s.value.Switched? then old(StatesOf(relays))[idx := target] else old(StatesOf(relays)))
        && (s.value.Switched? ==> relays[idx].blockedBy == (if target == 1 then detectorId else None))
      ensures OwnersOf(relays) == if s.Some? && s.value.Switched?
        then old(OwnersOf(relays))[FirstWithId(relays, relayId).value := if operation == "switchOn" then detectorId else None]
        else old(OwnersOf(relays))
      ensures forall k :: 0 <= k < |relays| ==> relays[k].blockedTill == old(relays[k].blockedTill) && relays[k].name == old(relays[k].name)
      ensures old(MasksTrackRelays()) && !(s.Some? && s.value.WriteFailed?) ==> MasksTrackRelays()
      ensures old(MasksTrackRelays()) && s.Some? && s.value.WriteFailed? ==>
        RC.IsPermutation(GetRelayById(relayId).value.controller.addressMapping) ==> !MasksTrackRelays()
    {
      if operation != "switchOn" && operation != "switchOff" {
        return Fail("Invalid operation"), None;
      }
      var found := GetRelayById(relayId);
      if found.Err? {
        return Fail(found.error), None;
      }
      var idx := FirstWithId(relays, relayId).value;
      var sr := Switch(idx, operation == "switchOn", info, detectorId, write, saved);
      s := Some(sr);
      r := SwitchOutcome(sr);
    }

    /**
     * blockRelay: the relay with the id is blocked for rules until `minutes`
     * minutes from now; nothing else about any relay changes.
     */
    method BlockRelay(relayId: Id, minutes: int, now: int) returns (r: Result<Relay>)
      requires Valid()
      modifies relays
      ensures Valid() && relays == old(relays) && r == old(GetRelayById(relayId)) && r == GetRelayById(relayId)
      ensures r.Ok? ==> r.value.blockedTill == Some(now + minutes * 60000)
      ensures forall i :: 0 <= i < |relays| ==>
        relays[i].state == old(relays[i].state) && relays[i].blockedBy == old(relays[i].blockedBy)
        && relays[i].name == old(relays[i].name)
        && (relays[i].blockedTill == old(relays[i].blockedTill) || (r.Ok? && relays[i] == r.value))
      ensures StatesOf(relays) == old(StatesOf(relays))
      ensures old(MasksTrackRelays()) ==> MasksTrackRelays()
    {
      r := GetRelayById(relayId);
      if r.Ok? {
        r.value.blockedTill := Some(now + minutes * 60000);
      }
      assert StatesOf(relays) == old(StatesOf(relays));
    }

    /**
     * renameRelay, in-memory part: once the stored document is updated, the
     * first relay with the id (if any) takes the new name; a storage error is
     * passed on and nothing changes.
     */
    method RenameRelay(relayId: Id, newName: string, stored: Outcome) returns (r: Result<bool>)
      requires Valid()
      modifies relays
      ensures Valid() && relays == old(relays)
      ensures r == (if stored.Fail? then Err(stored.error) else Ok(true))
      ensures forall i :: 0 <= i < |relays| ==>
        relays[i].state == old(relays[i].state) && relays[i].blockedBy == old(relays[i].blockedBy)
        && relays[i].blockedTill == old(relays[i].blockedTill)
      ensures forall i :: 0 <= i < |relays| ==>
        relays[i].name == if stored.Pass? && old(GetRelayById(relayId)) == Ok(relays[i]) then Some(newName) else old(relays[i].name)
      ensures old(MasksTrackRelays()) ==> MasksTrackRelays()
    {
      if stored.Fail? {
        return Err(stored.error);
      }
      var found := GetRelayById(relayId);
      if found.Ok? {
        found.value.name := Some(newName);
      }
      assert StatesOf(relays) == old(StatesOf(relays)) && MasksOf(relays) == old(MasksOf(relays));
      r := Ok(true);
    }

    /** relay.switchOn / relay.switchOff on the registered relay at `idx`. */
    method Switch(idx: nat, on: bool, info: Info, detectorId: Option<Id>, write: BusResult, saved: Outcome)
      returns (sr: SwitchResult)
      requires Valid() && idx < |relays|
      modifies relays[idx], relays[idx].controller
      ensures Valid()
      ensures var target := if on then 1 else 0;
        (sr.AlreadyInState? <==> old(relays[idx].state) == target)
        && StatesOf(relays) == (if sr.Switched? then old(StatesOf(relays))[idx := target] else old(StatesOf(relays)))
        && (sr.Switched? ==> relays[idx].blockedBy == (if on then detectorId else None))
      ensures OwnersOf(relays) == if sr.Switched? then old(OwnersOf(relays))[idx := if on then detectorId else None]
        else old(OwnersOf(relays))
      ensures forall k :: 0 <= k < |relays| ==> relays[k].blockedTill == old(relays[k].blockedTill) && relays[k].name == old(relays[k].name)
      ensures old(MasksTrackRelays()) && !sr.WriteFailed? ==> MasksTrackRelays()
      ensures old(MasksTrackRelays()) && sr.WriteFailed? && RC.IsPermutation(relays[idx].controller.addressMapping) ==>
        !MasksTrackRelays()
    {
      ghost var st := StatesOf(relays);
      ghost var ms := MasksOf(relays);
      assert relays[idx].Wired() && AddressesDistinct(relays);
      sr := SwitchRecorded(idx, on, info, detectorId, write, saved);
      ghost var st' := if sr.Switched? then st[idx := if on then 1 else 0] else st;
      ghost var ms' := Moved(relays, ms, idx, Delta(relays[idx], on, sr));
      MasksAre(relays, ms');
      SwitchTracks(relays, st, ms, st', ms', idx, on, sr);
    }

    /** The switch itself: one relay's fields and its controller's register change. */
    method SwitchAt(idx: nat, on: bool, info: Info, detectorId: Option<Id>, write: BusResult, saved: Outcome)
      returns (sr: SwitchResult)
      requires Valid() && idx < |relays|
      modifies relays[idx], relays[idx].controller
      ensures Valid()
      ensures var target := if on then 1 else 0;
        (sr.AlreadyInState? <==> old(relays[idx].state) == target)
        && (sr.Switched? ==> relays[idx].blockedBy == (if on then detectorId else None))
      ensures forall k :: 0 <= k < |relays| ==>
        relays[k].state == (if k == idx && sr.Switched? then (if on then 1 else 0) else old(relays[k].state))
      ensures forall k :: 0 <= k < |relays| ==>
        relays[k].blockedBy == (if k == idx && sr.Switched? then (if on then detectorId else None) else old(relays[k].blockedBy))
      ensures forall k :: 0 <= k < |relays| ==> relays[k].blockedTill == old(relays[k].blockedTill) && relays[k].name == old(relays[k].name)
      ensures forall k :: 0 <= k < |relays| ==>
        relays[k].controller.currentState == old(relays[k].controller.currentState)
          + (if relays[k].controller == relays[idx].controller then Delta(relays[idx], on, sr) else 0)
    {
      var x := relays[idx];
      sr := x.SwitchTo(on, info, detectorId, write, saved);
      forall i | 0 <= i < |relays| && i != idx ensures relays[i] != x {
        if i < idx { assert relays[i].address != x.address; } else { assert x.address != relays[i].address; }
      }
    }

    /** SwitchAt, with the relays' states and owners read off as sequences. */
    method SwitchRecorded(idx: nat, on: bool, info: Info, detectorId: Option<Id>, write: BusResult, saved: Outcome)
      returns (sr: SwitchResult)
      requires Valid() && idx < |relays|
      modifies relays[idx], relays[idx].controller
      ensures Valid()
      ensures (sr.AlreadyInState? <==> old(relays[idx].state) == if on then 1 else 0)
      ensures forall k :: 0 <= k < |relays| ==> relays[k].blockedTill == old(relays[k].blockedTill) && relays[k].name == old(relays[k].name)
      ensures forall k :: 0 <= k < |relays| ==>
        relays[k].controller.currentState == old(relays[k].controller.currentState)
          + (if relays[k].controller == relays[idx].controller then Delta(relays[idx], on, sr) else 0)
      ensures StatesOf(relays) == if sr.Switched? then old(StatesOf(relays))[idx := if on then 1 else 0]
        else old(StatesOf(relays))
      ensures OwnersOf(relays) == if sr.Switched? then old(OwnersOf(relays))[idx := if on then detectorId else None]
        else old(OwnersOf(relays))
    {
      ghost var st, ow := StatesOf(relays), OwnersOf(relays);
      sr := SwitchAt(idx, on, info, detectorId, write, saved);
      StatesAre(relays, if sr.Switched? then st[idx := if on then 1 else 0] else st);
      OwnersAre(relays, if sr.Switched? then ow[idx := if on then detectorId else None] else ow);
    }

    /**
     * bootRelays: always builds a new controller; unless additive, empties the
     * registry; then, with relays stored and the controller's address among
     * the active devices, registers each stored relay whose address is free.
     */
    method BootRelays(additive: bool, found: Result<seq<RelayOptions>>, controllerActive: bool,
                      envMapping: Option<seq<int>>, hasBus: bool) returns (r: Outcome, controller: RC.RelayController)
      requires Valid()
      requires found.Ok? && controllerActive ==> forall k :: 0 <= k < |found.value| ==> CheckRelayOptions(found.value[k]).Pass?
      requires found.Ok? && controllerActive ==> forall k :: 0 <= k < |found.value| ==>
        var a := found.value[k].address;
        a.Some? && 1 <= a.value <= |MappingOf(envMapping)| && MappingOf(envMapping)[a.value - 1] >= 1
      modifies this
      ensures Valid() && fresh(controller)
      ensures controller.currentState == 0 && controller.addressMapping == MappingOf(envMapping)
      ensures r == (if found.Err? then Fail(found.error) else if |found.value| == 0 then Fail("No relays found") else Pass)
      ensures var kept := if additive then old(relays) else [];
        |relays| >= |kept| && relays[..|kept|] == kept
        && (r.Fail? || !controllerActive ==> relays == kept)
        && (r.Pass? && controllerActive ==> AddedFrom(kept, found.value, controller))
      ensures !additive ==> MasksTrackRelays()
      ensures old(MasksTrackRelays()) ==> MasksTrackRelays()
    {
      controller := new RC.RelayController(envMapping, hasBus);
      r := Populate(additive, found, controllerActive, controller);
    }

    /** bootRelays after the controller is built: the clearing, the query's outcome and the registration. */
    method Populate(additive: bool, found: Result<seq<RelayOptions>>, controllerActive: bool, controller: RC.RelayController)
      returns (r: Outcome)
      requires Valid()
      requires found.Ok? && controllerActive ==> forall k :: 0 <= k < |found.value| ==> CheckRelayOptions(found.value[k]).Pass?
      requires found.Ok? && controllerActive ==> forall k :: 0 <= k < |found.value| ==>
        var a := found.value[k].address;
        a.Some? && 1 <= a.value <= |controller.addressMapping| && controller.addressMapping[a.value - 1] >= 1
      requires forall i :: 0 <= i < |relays| ==> relays[i].controller != controller
      requires controller.currentState == 0
      modifies this
      ensures Valid()
      ensures r == (if found.Err? then Fail(found.error) else if |found.value| == 0 then Fail("No relays found") else Pass)
      ensures var kept := if additive then old(relays) else [];
        |relays| >= |kept| && relays[..|kept|] == kept
        && (r.Fail? || !controllerActive ==> relays == kept)
        && (r.Pass? && controllerActive ==> AddedFrom(kept, found.value, controller))
      ensures !additive ==> MasksTrackRelays()
      ensures old(MasksTrackRelays()) ==> MasksTrackRelays()
    {
      ghost var tracking := !additive || MasksTrackRelays();
      if !additive {
        relays := [];
      }
      if found.Err? {
        r := Fail(found.error);
      } else if |found.value| == 0 {
        r := Fail("No relays found");
      } else {
        r := Pass;
        if controllerActive {
          RegisterTracked(found.value, controller, tracking);
        }
      }
    }

    /** Register, together with what it does to the registers: the new relays are off on a controller at 0. */
    method RegisterTracked(found: seq<RelayOptions>, controller: RC.RelayController, ghost tracking: bool)
      requires Valid()
      requires forall k :: 0 <= k < |found| ==> found[k].address.Some? && CheckRelayOptions(found[k]).Pass?
      requires forall k :: 0 <= k < |found| ==>
        1 <= found[k].address.value <= |controller.addressMapping| && controller.addressMapping[found[k].address.value - 1] >= 1
      requires tracking ==> MasksTrackRelays()
      requires forall i :: 0 <= i < |relays| ==> relays[i].controller != controller
      requires controller.currentState == 0
      modifies this
      ensures Valid() && AddedFrom(old(relays), found, controller)
      ensures tracking ==> MasksTrackRelays()
    {
      ghost var kept := relays;
      ghost var st, ms := StatesOf(relays), MasksOf(relays);
      Register(found, controller);
      assert StatesOf(kept) == st;
      assert forall i :: 0 <= i < |kept| ==> kept[i].controller.currentState == ms[i];
      MasksAre(kept, ms);
      if tracking {
        BootedTracks(kept, st, ms, found, controller);
      }
    }

    /**
     * The registers after a boot that registered relays: the kept relays
     * still track their controllers, and the new relays are off on the new
     * controller, whose register is 0.
     */
    lemma BootedTracks(kept: seq<Relay>, st: seq<int>, ms: seq<int>, found: seq<RelayOptions>, controller: RC.RelayController)
      requires forall k :: 0 <= k < |found| ==> found[k].address.Some?
      requires |relays| >= |kept| && relays[..|kept|] == kept && AddedFrom(kept, found, controller)
      requires StatesOf(kept) == st && MasksOf(kept) == ms && Tracks(kept, st, ms)
      requires forall i :: 0 <= i < |kept| ==> kept[i].controller != controller
      requires controller.currentState == 0
      ensures MasksTrackRelays()
    {
      var n := |kept|;
      var adm := Admitted(AddressesIn(kept), found);
      forall j | n <= j < |relays| ensures relays[j].controller == controller && relays[j].state == 0 {
        assert NewRelayFrom(relays[n + (j - n)], adm[j - n], controller);
      }
      var st', ms' := StatesOf(relays), MasksOf(relays);
      assert st'[..n] == st;
      assert ms'[..n] == ms;
      TracksAppendedOff(kept, st, ms, relays, st', ms', controller);
    }

    /**
     * After a boot, the registry is `kept` followed by one new relay of
     * `controller` per admitted stored relay, each off and unblocked.
     */
    ghost predicate AddedFrom(kept: seq<Relay>, found: seq<RelayOptions>, controller: RC.RelayController)
      reads this, relays
      requires forall k :: 0 <= k < |found| ==> found[k].address.Some?
    {
      Extends(kept, Admitted(AddressesIn(kept), found), controller)
    }

    /** A relay just built from a stored document for `controller`: the document's id, label, name and address, off and unblocked. */
    static ghost predicate NewRelayFrom(x: Relay, o: RelayOptions, controller: RC.RelayController)
      reads x
    {
      x.controller == controller && x.state == 0 && x.blockedBy == None && x.blockedTill == None
      && Some(x.id) == o.id && Some(x.address) == o.address
      && Some(x.labelText) == o.labelText && x.name == (if Truthy(o.name) then o.name else None)
    }

    /** The registry is `kept` followed by the relays built from `adm`. */
    ghost predicate Extends(kept: seq<Relay>, adm: seq<RelayOptions>, controller: RC.RelayController)
      reads this, relays
    {
      ExtendsSeq(relays, kept, adm, controller)
    }

    /** Keeps a freshly built relay whose address is free: it joins the registry's end. */
    method Admit(relay: Relay, o: RelayOptions, controller: RC.RelayController,
                 ghost kept: seq<Relay>, ghost taken: seq<int>, ghost adm: seq<RelayOptions>)
      requires Valid() && relay.Wired() && NewRelayFrom(relay, o, controller)
      requires o.address.Some? && o.address.value !in AddressesIn(relays)
      requires forall j :: 0 <= j < |adm| ==> adm[j].address.Some?
      requires Extends(kept, adm, controller) && AddressesIn(relays) == taken + AddressesOf(adm)
      modifies this
      ensures Valid() && relays == old(relays) + [relay]
      ensures Extends(kept, adm + [o], controller) && AddressesIn(relays) == taken + AddressesOf(adm + [o])
    {
      ExtendsAppend(relays, kept, adm, relay, o, controller, taken);
      NotInAddresses(relays, relay.address);
      RegistryAppend(relays, relay);
      Append(relay, kept, adm + [o], controller);
    }

    /** The registry's push, of a relay the lemmas above have vetted on the list value. */
    method Append(relay: Relay, ghost kept: seq<Relay>, ghost adm: seq<RelayOptions>, controller: RC.RelayController)
      requires Registry(relays + [relay]) && ExtendsSeq(relays + [relay], kept, adm, controller)
      modifies this
      ensures Valid() && Extends(kept, adm, controller) && relays == old(relays) + [relay]
    {
      ghost var rs' := relays + [relay];
      assert forall i :: 0 <= i < |rs'| ==> rs'[i] as object != this;
      relays := relays + [relay];
      assert relays == rs';
    }

    /**
     * new Relay(...) on a stored document whose checks pass; the relays
     * already registered (`rs`, built from `adm` after `kept`) are untouched.
     */
    static method Build(o: RelayOptions, controller: RC.RelayController,
                        ghost rs: seq<Relay>, ghost kept: seq<Relay>, ghost adm: seq<RelayOptions>) returns (relay: Relay)
      requires CheckRelayOptions(o).Pass?
      requires 1 <= o.address.value <= |controller.addressMapping| && controller.addressMapping[o.address.value - 1] >= 1
      requires ExtendsSeq(rs, kept, adm, controller) && Registry(rs)
      ensures fresh(relay) && relay.Wired() && NewRelayFrom(relay, o, controller)
      ensures ExtendsSeq(rs, kept, adm, controller) && Registry(rs)
    {
      relay := new Relay(o, controller);
    }

    /** The loop invariant of Register after the first k stored relays. */
    ghost predicate RegisteredUpTo(found: seq<RelayOptions>, k: nat, controller: RC.RelayController,
                                   kept: seq<Relay>, taken: seq<int>, adm: seq<RelayOptions>)
      reads this, relays
      requires k <= |found| && forall j :: 0 <= j < |found| ==> found[j].address.Some?
    {
      adm == Admitted(taken, found[..k]) && Extends(kept, adm, controller)
      && AddressesIn(relays) == taken + AddressesOf(adm)
    }

    /** One round of the forEach: build the relay, keep it when its address is free. */
    method RegisterOne(found: seq<RelayOptions>, k: nat, controller: RC.RelayController,
                       ghost kept: seq<Relay>, ghost taken: seq<int>, ghost adm: seq<RelayOptions>)
      returns (ghost adm': seq<RelayOptions>)
      requires Valid() && k < |found|
      requires forall j :: 0 <= j < |found| ==> found[j].address.Some?
      requires CheckRelayOptions(found[k]).Pass?
      requires 1 <= found[k].address.value <= |controller.addressMapping|
      requires controller.addressMapping[found[k].address.value - 1] >= 1
      requires RegisteredUpTo(found, k, controller, kept, taken, adm)
      modifies this
      ensures Valid() && RegisteredUpTo(found, k + 1, controller, kept, taken, adm')
    {
      var relay := Build(found[k], controller, relays, kept, adm);
      adm' := KeepIfFree(relay, found, k, controller, kept, taken, adm);
    }

    /** The findIndex test of the forEach: the built relay joins the registry when no relay has its address. */
    method KeepIfFree(relay: Relay, found: seq<RelayOptions>, k: nat, controller: RC.RelayController,
                      ghost kept: seq<Relay>, ghost taken: seq<int>, ghost adm: seq<RelayOptions>)
      returns (ghost adm': seq<RelayOptions>)
      requires Valid() && k < |found|
      requires forall j :: 0 <= j < |found| ==> found[j].address.Some?
      requires relay.Wired() && NewRelayFrom(relay, found[k], controller)
      requires RegisteredUpTo(found, k, controller, kept, taken, adm)
      modifies this
      ensures Valid() && RegisteredUpTo(found, k + 1, controller, kept, taken, adm')
    {
      AdmittedStep(taken, found, k);
      if relay.address !in AddressesIn(relays) {
        Admit(relay, found[k], controller, kept, taken, adm);
        adm' := adm + [found[k]];
      } else {
        adm' := adm;
      }
    }

    /** The forEach of bootRelays: one new Relay per stored relay, kept when its address is free. */
    method Register(found: seq<RelayOptions>, controller: RC.RelayController)
      requires Valid()
      requires forall k :: 0 <= k < |found| ==> found[k].address.Some? && CheckRelayOptions(found[k]).Pass?
      requires forall k :: 0 <= k < |found| ==>
        1 <= found[k].address.value <= |controller.addressMapping| && controller.addressMapping[found[k].address.value - 1] >= 1
      modifies this
      ensures Valid()
      ensures AddedFrom(old(relays), found, controller)
    {
      var kept := relays;
      ghost var taken := AddressesIn(kept);
      ghost var adm: seq<RelayOptions> := [];
      var k := 0;
      while k < |found|
        invariant 0 <= k <= |found|
        invariant Valid()
        invariant RegisteredUpTo(found, k, controller, kept, taken, adm)
      {
        adm := RegisterOne(found, k, controller, kept, taken, adm);
        k := k + 1;
      }
      assert found[..k] == found;
    }
  }
}
