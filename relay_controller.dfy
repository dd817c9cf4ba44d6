/**
 * The relay controller (src/relay/relay-controller/relay-controller.class.js):
 * an I2C port expander at 0x20 whose GPIO register holds one bit per relay.
 * The controller keeps the register's value as `currentState` and adds or
 * subtracts one power of two per switch.
 */
module RelayControllers {
  import opened Wrappers
  import opened Bus

  const RELAIS_CONTROLLER_ADDRESS: int := 0x20
  const GPIO_REGISTER_ADDRESS: int := 0x09
  const IODIR_REGISTER_ADDRESS: int := 0x00
  const CMD_SWITCH_ON: int := 0x01

  /** Relay outlets are wired to positions that differ from their labels. */
  const DEFAULT_MAPPING: seq<int> := [8, 6, 4, 2, 7, 5, 3, 1]

  /** A mapping that sends the eight relay addresses to the eight register positions one-to-one. */
  predicate IsPermutation(mapping: seq<int>)
  {
    |mapping| == 8
    && (forall i :: 0 <= i < 8 ==> 1 <= mapping[i] <= 8)
    && (forall i, j :: 0 <= i < j < 8 ==> mapping[i] != mapping[j])
  }

  lemma DefaultMappingIsPermutation()
    ensures IsPermutation(DEFAULT_MAPPING)
  {
  }

  /**
   * The register value in which exactly the positions in `on` (among 1..n)
   * are set: the OR of their bits.
   */
  function MaskOf(on: set<int>, n: nat): nat
  {
    if n == 0 then 0 else MaskOf(on, n - 1) + (if n in on then Pow2(n - 1) else 0)
  }

  lemma {:induction false} MaskBound(on: set<int>, n: nat)
    ensures MaskOf(on, n) < Pow2(n)
  {
    if n > 0 {
      MaskBound(on, n - 1);
    }
  }

  /** A controller with no relay on has the register 0, as a new controller starts. */
  lemma {:induction false} MaskOfEmpty(n: nat)
    ensures MaskOf({}, n) == 0
  {
    if n > 0 {
      MaskOfEmpty(n - 1);
    }
  }

  /** Switching on a position that is off adds its power of two to the mask. */
  lemma {:induction false} MaskAdd(on: set<int>, p: int, n: nat)
    requires p !in on && 1 <= p
    ensures MaskOf(on + {p}, n) == MaskOf(on, n) + (if p <= n then Pow2(p - 1) else 0)
  {
    if n > 0 {
      MaskAdd(on, p, n - 1);
    }
  }

  /** Switching off a position that is on subtracts its power of two from the mask. */
  lemma MaskRemove(on: set<int>, p: int, n: nat)
    requires p in on && 1 <= p <= n
    ensures MaskOf(on - {p}, n) == MaskOf(on, n) - Pow2(p - 1)
  {
    MaskAdd(on - {p}, p, n);
    assert on - {p} + {p} == on;
  }

  lemma {:induction false} MulAtLeast(a: nat, d: nat)
    requires a >= 1
    ensures a * d >= d
  {
    if a > 1 {
      MulAtLeast(a - 1, d);
      assert a * d == (a - 1) * d + d;
    }
  }

  lemma MulSub(a: int, b: int, d: int)
    ensures (a - b) * d == a * d - b * d
  {
  }

  lemma DivUnique(x: int, d: int, q: int, r: int)
    requires d > 0 && 0 <= r < d && x == q * d + r
    ensures x / d == q && x % d == r
  {
    var q', r' := x / d, x % d;
    MulSub(q, q', d);
    MulSub(q', q, d);
    if q > q' {
      MulAtLeast(q - q', d);
    } else if q < q' {
      MulAtLeast(q' - q, d);
    }
  }

  /** Adding a multiple of d moves the quotient by that multiple. */
  lemma DivAddMultiple(m: nat, d: nat, e: nat)
    requires d > 0
    ensures (m + e * d) / d == m / d + e
  {
    var q, r := m / d, m % d;
    assert (q + e) * d == q * d + e * d;
    DivUnique(m + e * d, d, q + e, r);
  }

  lemma ParityAddEven(q: nat, f: nat)
    ensures (q + 2 * f) % 2 == q % 2
  {
  }

  lemma Pow2Add(a: nat, b: nat)
    ensures Pow2(a + b) == Pow2(a) * Pow2(b)
  {
    if a > 0 {
      Pow2Add(a - 1, b);
    }
  }

  /** A multiple of 2d added to m leaves bit k of m (d = 2^k) as it was. */
  lemma BitUnchanged(m: nat, d: nat, f: nat, x: nat)
    requires d > 0 && x == m + (2 * f) * d
    ensures (x / d) % 2 == (m / d) % 2
  {
    DivAddMultiple(m, d, 2 * f);
    ParityAddEven(m / d, f);
  }

  /** Below d, adding b * d makes the bit at d equal to b. */
  lemma TopBit(m: nat, d: nat, b: nat, x: nat)
    requires 0 <= m < d && b <= 1 && x == m + b * d
    ensures (x / d) % 2 == b
  {
    DivUnique(x, d, b, m);
  }

  /**
   * Bit k of the mask is set exactly when position k + 1 is on: the mask is
   * the OR of the bits of the positions that are on.
   */
  lemma {:induction false} MaskBit(on: set<int>, n: nat, k: nat)
    requires k < n
    ensures (MaskOf(on, n) / Pow2(k)) % 2 == (if k + 1 in on then 1 else 0)
  {
    var m := MaskOf(on, n - 1);
    var b := if n in on then 1 else 0;
    var x := MaskOf(on, n);
    assert x == m + b * Pow2(n - 1);
    if k == n - 1 {
      MaskBound(on, n - 1);
      TopBit(m, Pow2(k), b, x);
    } else {
      MaskBit(on, n - 1, k);
      var f := b * Pow2(n - 2 - k);
      Pow2Add(k, n - 1 - k);
      assert Pow2(n - 1 - k) == 2 * Pow2(n - 2 - k);
      assert b * Pow2(n - 1) == (2 * f) * Pow2(k);
      BitUnchanged(m, Pow2(k), f, x);
    }
  }

  /** The IODIR write that makes every pin an output. */
  function BootOps(hasBus: bool): seq<BusOp>
  {
    if hasBus then [WriteByte(RELAIS_CONTROLLER_ADDRESS, IODIR_REGISTER_ADDRESS, 0x00)] else []
  }

  /** bootRelayController: the outcome of the IODIR write, or the error for a missing bus. */
  function BootRelayController(hasBus: bool, write: BusResult): (r: Outcome)
    ensures !hasBus ==> r == Fail("I2c not booted")
    ensures hasBus ==> (r.Pass? <==> write.Done?)
  {
    if !hasBus then Fail("I2c not booted")
    else if write.Failed? then Fail(write.code)
    else Pass
  }

  class RelayController {
    /** The value last computed for the GPIO register. */
    var currentState: int
    const addressMapping: seq<int>
    /** Whether an I2C bus was open when the controller was constructed. */
    const hasBus: bool

    /**
     * A controller with every relay off. `envMapping` is the RELAIS_MAPPING
     * setting, already split and parsed; the constructor's IODIR write is
     * BootOps, whose error the constructor ignores.
     */
    constructor (envMapping: Option<seq<int>>, hasBus: bool)
      ensures currentState == 0 && this.hasBus == hasBus
      ensures addressMapping == (if envMapping.Some? then envMapping.value else DEFAULT_MAPPING)
    {
      currentState := 0;
      addressMapping := if envMapping.Some? then envMapping.value else DEFAULT_MAPPING;
      this.hasBus := hasBus;
    }

    /** The register position a relay address is wired to. */
    function Position(address: int): int
      requires 1 <= address <= |addressMapping|
    {
      addressMapping[address - 1]
    }

    /**
     * switchRelay: adds (switch on) or subtracts (anything else) the relay's
     * power of two, then writes the whole register. The new value is kept
     * whether or not the bus write succeeds.
     */
    method SwitchRelay(command: int, address: int, write: BusResult) returns (r: Outcome, op: Option<BusOp>)
      requires 1 <= address <= |addressMapping| && addressMapping[address - 1] >= 1
      modifies this`currentState
      ensures var amount := Pow2(Position(address) - 1);
        currentState == (if command == CMD_SWITCH_ON then old(currentState) + amount else old(currentState) - amount)
      ensures hasBus ==> op == Some(WriteByte(RELAIS_CONTROLLER_ADDRESS, GPIO_REGISTER_ADDRESS, currentState))
      ensures hasBus ==> (r == if write.Done? then Pass else Fail(write.code))
      ensures !hasBus ==> op == None && r == Fail("I2C not booted")
    {
      var amount := Pow2(addressMapping[address - 1] - 1);
      if command == CMD_SWITCH_ON {
        currentState := currentState + amount;
      } else {
        currentState := currentState - amount;
      }
      if hasBus {
        op := Some(WriteByte(RELAIS_CONTROLLER_ADDRESS, GPIO_REGISTER_ADDRESS, currentState));
        r := if write.Done? then Pass else Fail(write.code);
      } else {
        op := None;
        r := Fail("I2C not booted");
      }
    }
  }
}
