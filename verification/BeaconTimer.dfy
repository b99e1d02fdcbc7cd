/** The software beacon timer of core/rtw_ap.c: the 64-bit TSF folded to a position in the beacon
    interval with 32-bit arithmetic, and the delay until 20 time units before the next slot. */
module BeaconTimer {

  const TWO32 := 0x1_0000_0000
  const TU := 1024
  const BCN_INTERVAL := 100
  const INTERVAL := BCN_INTERVAL * TU
  const EARLY := 20 * TU

  type U32 = x: int | 0 <= x < 0x1_0000_0000

  function Wrap(x: int): U32 { x % TWO32 }

  // ---------------------------------------------------------------- folding the TSF

  function Tsf(hi: U32, lo: U32): nat { hi * TWO32 + lo }

  /** What is lost when the sum of the fold does not fit 32 bits. */
  function Overflow(hi: U32, lo: U32): nat { (4096 * hi + lo) / TWO32 }

  /** The fold loop.  The product and the sum are computed in 32 bits before they are stored in the
      64-bit variable, so one turn always ends it. */
  method FoldTsf(hi: U32, lo: U32) returns (tick: nat)
    ensures tick < INTERVAL
    ensures tick == (Tsf(hi, lo) - Overflow(hi, lo) * TWO32) % INTERVAL
  {
    var t1, t0 := hi, lo;
    while t1 != 0
      invariant (t1 == hi && t0 == lo)
             || (t1 == 0 && t0 % INTERVAL == (Tsf(hi, lo) - Overflow(hi, lo) * TWO32) % INTERVAL)
      decreases t1
    {
      FoldStep(hi, lo);
      var time := Wrap(Wrap((0xFFFF_FFFF % INTERVAL + 1) * t1) + t0);
      t0, t1 := time % TWO32, time / TWO32;
    }
    if hi == 0 {
      assert Overflow(hi, lo) == 0;
    }
    tick := t0 % INTERVAL;
  }

  lemma FoldStep(hi: U32, lo: U32)
    ensures 0xFFFF_FFFF % INTERVAL + 1 == 4096
    ensures Wrap(Wrap(4096 * hi) + lo) % INTERVAL == (Tsf(hi, lo) - Overflow(hi, lo) * TWO32) % INTERVAL
  {
    var sum := 4096 * hi + lo;
    WrapSum(4096 * hi, lo);
    assert TWO32 == 41943 * INTERVAL + 4096;
    assert Tsf(hi, lo) - Overflow(hi, lo) * TWO32 == (sum - Overflow(hi, lo) * TWO32) + hi * 41943 * INTERVAL;
    SkipIntervals(sum - Overflow(hi, lo) * TWO32, hi * 41943);
  }

  lemma WrapSum(x: nat, lo: U32)
    ensures Wrap(Wrap(x) + lo) == x + lo - (x + lo) / TWO32 * TWO32
  {
    assert x == x / TWO32 * TWO32 + Wrap(x);
    var q := (Wrap(x) + lo) / TWO32;
    assert (x + lo) / TWO32 == x / TWO32 + q;
  }

  lemma SkipIntervals(x: int, n: int)
    ensures (x + n * INTERVAL) % INTERVAL == x % INTERVAL
  {
    var q, r := x / INTERVAL, x % INTERVAL;
    assert x + n * INTERVAL == (q + n) * INTERVAL + r;
  }

  /** MAIN: the tick is the position of the 64-bit TSF in the interval exactly when the overflow of
      the 32-bit sum is a multiple of 25; in particular whenever the sum fits. */
  lemma FoldExact(hi: U32, lo: U32)
    ensures (Tsf(hi, lo) - Overflow(hi, lo) * TWO32) % INTERVAL == Tsf(hi, lo) % INTERVAL
            <==> Overflow(hi, lo) % 25 == 0
    ensures 4096 * hi + lo < TWO32 ==> Overflow(hi, lo) == 0
  {
    var q := Overflow(hi, lo);
    var t := Tsf(hi, lo);
    SkipIntervals(t - q * 4096, -(q * 41943));
    assert t - q * TWO32 == (t - q * 4096) + -(q * 41943) * INTERVAL;
    ShiftBy4096(t, q);
  }

  /** It is right for the first 2^33 - 4096 microseconds of the clock, some two hours and 23 minutes, and
      wrong then. */
  lemma FoldFirstWrong(hi: U32, lo: U32)
    ensures Tsf(hi, lo) < 0x1_FFFF_F000 ==> Overflow(hi, lo) == 0
    ensures var hi0, lo0 := 1, 0xFFFF_F000;
      && Tsf(hi0, lo0) == 0x1_FFFF_F000
      && (Tsf(hi0, lo0) - Overflow(hi0, lo0) * TWO32) % INTERVAL != Tsf(hi0, lo0) % INTERVAL
  {
    FoldExact(1, 0xFFFF_F000);
    assert Overflow(1, 0xFFFF_F000) == 1;
  }

  lemma ShiftBy4096(t: int, q: nat)
    ensures (t - q * 4096) % INTERVAL == t % INTERVAL <==> q % 25 == 0
  {
    var a, b := q / 25, q % 25;
    assert q * 4096 == a * INTERVAL + b * 4096;
    SkipIntervals(t - b * 4096, -a);
    assert t - q * 4096 == (t - b * 4096) + -a * INTERVAL;
    var k, r := t / INTERVAL, t % INTERVAL;
    SkipIntervals(r - b * 4096, k);
    assert t - b * 4096 == (r - b * 4096) + k * INTERVAL;
    assert 0 <= b * 4096 < INTERVAL;
  }

  // ---------------------------------------------------------------- arming the timer

  /** The most interfaces there can be. */
  const IFACE_MAX := 8

  /** Microseconds between the slots of nr interfaces (inter_bcn_space is in whole time units). */
  function Space(nr: nat): (r: nat)
    requires 0 < nr
    ensures nr <= IFACE_MAX ==> r > 0
  {
    BCN_INTERVAL / nr * TU
  }

  /** The branches of tx_beacon_handlder: which interface's beacon goes out now, and the delay.  With nr
      interfaces a slot lasts s microseconds.  Before the last slot but one the timer is to expire 20 time
      units before the next boundary but one; from there on as long before the end of the interval or, when
      that is nearer, before the end of the first slot of the next interval.  If that moment has passed,
      the 32-bit difference makes it more than an hour. */
  method Arm(nr: nat, tick: nat) returns (bcnIdx: nat, offset: U32)
    requires 1 <= nr <= IFACE_MAX && tick < INTERVAL
    ensures nr == 1 ==> bcnIdx == 0 && INTERVAL / 2 < offset <= 3 * INTERVAL / 2
    ensures nr == 1 ==> tick + offset + EARLY == INTERVAL || tick + offset + EARLY == 2 * INTERVAL
    ensures nr > 1 ==>
      var s := BCN_INTERVAL / nr * TU;
      var idx := tick / s;
      var aim := if idx + 2 < nr then (idx + 2) * s else if tick + EARLY <= INTERVAL then INTERVAL else INTERVAL + s;
      && bcnIdx == (if idx < nr - 1 then idx + 1 else 0)
      && (tick + EARLY <= aim ==> tick + offset + EARLY == aim && offset <= 2 * s)
      && (tick + EARLY > aim ==>
            && nr >= 6 && offset > 3600 * 1000 * 1000
            && tick + offset + EARLY == aim + TWO32 - if idx + 2 < nr then s else 0)
  {
    hide Space, Wrap, Aim;
    if nr > 1 {
      AimIs(nr, tick);
      bcnIdx, offset := ArmShared(nr, tick);
    } else {
      bcnIdx, offset := ArmAlone(tick);
    }
  }

  method ArmAlone(tick: nat) returns (bcnIdx: nat, offset: U32)
    requires tick < INTERVAL
    ensures bcnIdx == 0 && INTERVAL / 2 < offset <= 3 * INTERVAL / 2
    ensures tick + offset + EARLY == INTERVAL || tick + offset + EARLY == 2 * INTERVAL
  {
    bcnIdx := 0;
    offset := Wrap(2 * INTERVAL - tick - EARLY);
    if offset > INTERVAL + INTERVAL / 2 {
      offset := offset - INTERVAL;
    }
  }

  method ArmShared(nr: nat, tick: nat) returns (bcnIdx: nat, offset: U32)
    requires 2 <= nr <= IFACE_MAX && tick < INTERVAL
    ensures bcnIdx == if tick / Space(nr) < nr - 1 then tick / Space(nr) + 1 else 0
    ensures InTime(nr, tick) ==> tick + offset + EARLY == Aim(nr, tick) && offset <= 2 * Space(nr)
    ensures !InTime(nr, tick) ==>
      && nr >= 6 && offset > 3600 * 1000 * 1000
      && tick + offset + EARLY == Aim(nr, tick) + TWO32 - if tick / Space(nr) + 2 < nr then Space(nr) else 0
  {
    hide Space, Wrap, Aim;
    var nrVap := nr - 1;
    var space := Space(nr);
    var idx := tick / space;
    bcnIdx := if idx < nrVap then idx + 1 else 0;
    if (idx + 2 == nrVap + 1 && idx < nrVap + 1) || bcnIdx == 0 {
      LateSlot(nr, tick);
      Wrapped(INTERVAL - tick - EARLY);
      offset := Wrap(INTERVAL - tick - EARLY);
      if offset >= 0x8000_0000 {
        Wrapped(offset + space - TWO32);
        offset := Wrap(offset + space);
      }
    } else {
      EarlySlot(nr, tick);
      Wrapped((idx + 2) * space - tick - EARLY);
      offset := Wrap((idx + 2) * space - tick - EARLY);
      if offset > space + space / 2 {
        offset := Wrap(offset - space);
        Wrapped((idx + 2) * space - tick - EARLY - space);
      }
    }
  }

  /** The boundary the timer is for. */
  function Aim(nr: nat, tick: nat): nat
    requires 2 <= nr <= IFACE_MAX
  {
    if tick / Space(nr) + 2 < nr then (tick / Space(nr) + 2) * Space(nr)
    else if tick + EARLY <= INTERVAL then INTERVAL
    else INTERVAL + Space(nr)
  }

  /** It is still 20 time units away. */
  predicate InTime(nr: nat, tick: nat)
    requires 2 <= nr <= IFACE_MAX
  {
    tick + EARLY <= Aim(nr, tick)
  }

  lemma AimIs(nr: nat, tick: nat)
    requires 2 <= nr <= IFACE_MAX
    ensures Space(nr) == BCN_INTERVAL / nr * TU && Space(nr) > 0
    ensures var s := Space(nr);
      Aim(nr, tick) == if tick / s + 2 < nr then (tick / s + 2) * s
                       else if tick + EARLY <= INTERVAL then INTERVAL else INTERVAL + s
  {
  }

  /** With up to five interfaces it always is, and with six or more not always. */
  lemma TooLateExactly(nr: nat)
    requires 2 <= nr <= IFACE_MAX
    ensures nr <= 5 <==> forall tick :: 0 <= tick < INTERVAL ==> InTime(nr, tick)
  {
    hide Aim;
    forall tick | 0 <= tick < INTERVAL && nr <= 5 ensures InTime(nr, tick) { SlotBounds(nr, tick); }
    if nr > 5 {
      LateTick(nr);
      assert !InTime(nr, Space(nr) - 1);
    }
  }

  /** In the last microsecond of the first slot the next boundary but one is too near. */
  lemma LateTick(nr: nat)
    requires 6 <= nr <= IFACE_MAX
    ensures 0 < Space(nr) < INTERVAL && !InTime(nr, Space(nr) - 1)
  {
    SpaceValues(nr);
    assert (Space(nr) - 1) / Space(nr) == 0;
  }

  /** From the last slot but one on. */
  lemma LateSlot(nr: nat, tick: nat)
    requires 2 <= nr <= IFACE_MAX && tick < INTERVAL && tick / Space(nr) + 2 >= nr
    ensures 0 < Space(nr) < INTERVAL && INTERVAL - tick - EARLY <= 2 * Space(nr)
    ensures Aim(nr, tick) == if tick + EARLY <= INTERVAL then INTERVAL else INTERVAL + Space(nr)
    ensures nr <= 5 ==> EARLY <= Space(nr)
  {
    hide Space;
    SlotBounds(nr, tick);
  }

  /** Before it.  The correction for a delay of more than one and a half slots is never made for a delay that
      long: with two interfaces there is no such slot, and with more the delay is shorter. */
  lemma EarlySlot(nr: nat, tick: nat)
    requires 2 <= nr <= IFACE_MAX && tick < INTERVAL && tick / Space(nr) + 2 < nr
    ensures 0 < Space(nr) < INTERVAL
    ensures var x := (tick / Space(nr) + 2) * Space(nr) - tick - EARLY;
      && Aim(nr, tick) == tick + EARLY + x
      && Space(nr) - EARLY < x <= 2 * Space(nr) - EARLY <= Space(nr) + Space(nr) / 2
      && (nr <= 5 ==> x > 0)
  {
    hide Space;
    SlotBounds(nr, tick);
    assert Aim(nr, tick) == (tick / Space(nr) + 2) * Space(nr);
  }

  /** Where the tick lies among the slots of nr interfaces. */
  lemma SlotBounds(nr: nat, tick: nat)
    requires 2 <= nr <= IFACE_MAX && tick < INTERVAL
    ensures 0 < Space(nr) < INTERVAL && (nr <= 5 ==> EARLY <= Space(nr) && InTime(nr, tick))
    ensures var idx := tick / Space(nr);
      && (idx + 2 < nr ==>
            Aim(nr, tick) - 2 * Space(nr) <= tick < Aim(nr, tick) - Space(nr)
            && 2 * Space(nr) - EARLY <= Space(nr) + Space(nr) / 2)
      && (idx + 2 >= nr ==> INTERVAL - tick - EARLY <= 2 * Space(nr))
  {
    SpaceValues(nr);
  }

  lemma SpaceValues(nr: nat)
    requires 2 <= nr <= IFACE_MAX
    ensures Space(nr) == TU * if nr == 2 then 50 else if nr == 3 then 33 else if nr == 4 then 25 else if nr == 5 then 20
                              else if nr == 6 then 16 else if nr == 7 then 14 else 12
  {
  }

  /** A small number, or a small negative one, taken modulo 2^32. */
  lemma Wrapped(x: int)
    requires -TWO32 <= x < TWO32
    ensures Wrap(x) == if x < 0 then x + TWO32 else x
    ensures Wrap(x + TWO32) == Wrap(x)
  {
  }
}
