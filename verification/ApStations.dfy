/** bss_cap_update_on_sta_join, bss_cap_update_on_sta_leave, rtw_ht_operation_update and the ERP writer
    of core/rtw_ap.c, on the station records and the BSS counters they change in place. */
module ApStations {
  import opened ApProtection

  type Aid = a: nat | a < 16

  type TimBits = t: seq<bool> | |t| == 16 witness seq(16, _ => false)

  /** The flags of struct sta_info that say what the station has been counted for, and its association. */
  class StaInfo {
    const aid: Aid
    var noShortPreambleSet: bool
    var nonErpSet: bool
    var noShortSlotSet: bool
    var noHtSet: bool
    var noHtGfSet: bool
    var ht20Set: bool

    constructor (aid: Aid)
      ensures Flags() == NEW_STA && this.aid == aid
    {
      this.aid := aid;
      noShortPreambleSet, nonErpSet, noShortSlotSet := false, false, false;
      noHtSet, noHtGfSet, ht20Set := false, false, false;
    }

    function Flags(): Sta
      reads this
    {
      Sta(noShortPreambleSet, nonErpSet, noShortSlotSet, noHtSet, noHtGfSet, ht20Set)
    }
  }

  class Ap {
    const g: Config
    /** Every station record there is; a record not in use has no flag set. */
    ghost const table: seq<StaInfo>
    var numNoShortPreamble: int
    var numNonErp: int
    var numNoShortSlot: int
    var numNoHt: int
    var numNoHtGf: int
    var numHt20: int
    var opMode: OpMode
    var olbcHt: bool
    var erp: Erp
    /** Which associations have traffic waiting. */
    var timBitmap: TimBits

    ghost predicate Valid() {
      forall i, j :: 0 <= i < j < |table| ==> table[i] != table[j]
    }

    function Numbers(): Counters
      reads this
    {
      Counters(numNoShortPreamble, numNonErp, numNoShortSlot, numNoHt, numNoHtGf, numHt20)
    }

    ghost function View(): Bss
      reads this, table
    {
      Bss(seq(|table|, i requires 0 <= i < |table| reads table => table[i].Flags()), Numbers(), opMode, olbcHt, erp)
    }

    constructor (g: Config, ghost table: seq<StaInfo>)
      requires forall i, j :: 0 <= i < j < |table| ==> table[i] != table[j]
      requires forall i :: 0 <= i < |table| ==> table[i].Flags() == NEW_STA
      ensures Valid() && this.g == g && this.table == table && Start(View())
    {
      this.g, this.table := g, table;
      numNoShortPreamble, numNonErp, numNoShortSlot, numNoHt, numNoHtGf, numHt20 := 0, 0, 0, 0, 0, 0;
      opMode, olbcHt, erp := OpMode(OP_MODE_PURE, false, false, 0), false, Erp(false, false, false);
      timBitmap := seq(16, _ => false);
    }

    /** update_beacon for the ERP element. */
    method UpdateErp()
      modifies this`erp
      ensures erp == if g.erpOn then ErpWritten(Numbers()) else old(erp)
    {
      if !g.erpOn {
        return;
      }
      if numNonErp == 1 {
        erp := erp.(nonErpPresent := true, useProtection := true);
      } else {
        erp := erp.(nonErpPresent := false, useProtection := false);
      }
      if numNoShortPreamble > 0 {
        erp := erp.(barker := true);
      } else {
        erp := erp.(barker := false);
      }
    }

    /** rtw_ht_operation_update: what changed is counted. */
    method HtOperationUpdate() returns (changes: nat)
      modifies this`opMode
      ensures opMode == OpModeAfter(g, old(opMode), Numbers(), olbcHt)
      ensures changes == 0 <==> opMode == old(opMode)
      ensures g.htOn ==> (changes == 0 <==> Documented(old(opMode), Numbers(), g.apSupWidth, olbcHt))
    {
      changes := 0;
      if !g.htOn {
        return;
      }
      if !opMode.nonGf && numNoHtGf != 0 {
        opMode, changes := opMode.(nonGf := true), changes + 1;
      } else if opMode.nonGf && numNoHtGf == 0 {
        opMode, changes := opMode.(nonGf := false), changes + 1;
      }
      if !opMode.nonHt && (numNoHt != 0 || olbcHt) {
        opMode, changes := opMode.(nonHt := true), changes + 1;
      } else if opMode.nonHt && numNoHt == 0 && !olbcHt {
        opMode, changes := opMode.(nonHt := false), changes + 1;
      }
      var newOpMode := OP_MODE_PURE;
      if numNoHt != 0 {
        newOpMode := OP_MODE_MIXED;
      } else if g.apSupWidth && numHt20 != 0 {
        newOpMode := OP_MODE_20MHZ_HT_STA_ASSOCED;
      } else if olbcHt {
        newOpMode := OP_MODE_MAY_BE_LEGACY_STAS;
      }
      if opMode.mode != newOpMode {
        opMode, changes := opMode.(mode := newOpMode), changes + 1;
      }
    }

    // The six flag-and-counter pairs.  A flag is raised together with its counter, and lowered together.

    method CountNoShortPreamble(psta: StaInfo, want: bool)
      modifies this`numNoShortPreamble, psta`noShortPreambleSet
      ensures psta.Flags() == old(psta.Flags()).(noShortPreamble := want)
      ensures Numbers() == Recount(old(Numbers()), old(psta.Flags()), psta.Flags())
    {
      if want {
        if !psta.noShortPreambleSet {
          psta.noShortPreambleSet := true;
          numNoShortPreamble := numNoShortPreamble + 1;
        }
      } else if psta.noShortPreambleSet {
        psta.noShortPreambleSet := false;
        numNoShortPreamble := numNoShortPreamble - 1;
      }
    }

    /** The first non-ERP station and the last one to go have the beacon's ERP element rewritten. */
    method CountNonErp(psta: StaInfo, want: bool)
      modifies this`numNonErp, this`erp, psta`nonErpSet
      ensures psta.Flags() == old(psta.Flags()).(nonErp := want)
      ensures Numbers() == NonErpMoved(old(Numbers()), old(psta.Flags()).nonErp, want)
      ensures erp == ErpAfter(g, old(erp), Numbers(), old(psta.Flags()), psta.Flags())
    {
      if want {
        if !psta.nonErpSet {
          psta.nonErpSet := true;
          numNonErp := numNonErp + 1;
          if numNonErp == 1 {
            UpdateErp();
          }
        }
      } else if psta.nonErpSet {
        psta.nonErpSet := false;
        numNonErp := numNonErp - 1;
        if numNonErp == 0 {
          UpdateErp();
        }
      }
    }

    method CountNoShortSlot(psta: StaInfo, want: bool)
      modifies this`numNoShortSlot, psta`noShortSlotSet
      ensures psta.Flags() == old(psta.Flags()).(noShortSlot := want)
      ensures Numbers() == Recount(old(Numbers()), old(psta.Flags()), psta.Flags())
    {
      if want {
        if !psta.noShortSlotSet {
          psta.noShortSlotSet := true;
          numNoShortSlot := numNoShortSlot + 1;
        }
      } else if psta.noShortSlotSet {
        psta.noShortSlotSet := false;
        numNoShortSlot := numNoShortSlot - 1;
      }
    }

    method CountNoHt(psta: StaInfo, want: bool)
      modifies this`numNoHt, psta`noHtSet
      ensures psta.Flags() == old(psta.Flags()).(noHt := want)
      ensures Numbers() == Recount(old(Numbers()), old(psta.Flags()), psta.Flags())
    {
      if want {
        if !psta.noHtSet {
          psta.noHtSet := true;
          numNoHt := numNoHt + 1;
        }
      } else if psta.noHtSet {
        psta.noHtSet := false;
        numNoHt := numNoHt - 1;
      }
    }

    method CountNoHtGf(psta: StaInfo, want: bool)
      modifies this`numNoHtGf, psta`noHtGfSet
      ensures psta.Flags() == old(psta.Flags()).(noHtGf := want)
      ensures Numbers() == Recount(old(Numbers()), old(psta.Flags()), psta.Flags())
    {
      if want {
        if !psta.noHtGfSet {
          psta.noHtGfSet := true;
          numNoHtGf := numNoHtGf + 1;
        }
      } else if psta.noHtGfSet {
        psta.noHtGfSet := false;
        numNoHtGf := numNoHtGf - 1;
      }
    }

    method CountHt20(psta: StaInfo, want: bool)
      modifies this`numHt20, psta`ht20Set
      ensures psta.Flags() == old(psta.Flags()).(ht20 := want)
      ensures Numbers() == Recount(old(Numbers()), old(psta.Flags()), psta.Flags())
    {
      if want {
        if !psta.ht20Set {
          psta.ht20Set := true;
          numHt20 := numHt20 + 1;
        }
      } else if psta.ht20Set {
        psta.ht20Set := false;
        numHt20 := numHt20 - 1;
      }
    }

    /** Preamble, ERP and slot time. */
    method CountLegacy(psta: StaInfo, noShortPreamble: bool, nonErp: bool, noShortSlot: bool)
      modifies this, psta
      ensures psta.Flags() == old(psta.Flags()).(noShortPreamble := noShortPreamble, nonErp := nonErp,
                                                 noShortSlot := noShortSlot)
      ensures Followed(old(psta.Flags()), psta.Flags(), old(Numbers()), old(erp))
      ensures opMode == old(opMode) && olbcHt == old(olbcHt) && timBitmap == old(timBitmap)
    {
      hide ErpAfter, Recount, NonErpMoved, StaInfo.Flags, Numbers;
      ghost var s0, c0 := psta.Flags(), Numbers();
      CountNoShortPreamble(psta, noShortPreamble);
      ghost var s1 := psta.Flags();
      CountNonErp(psta, nonErp);
      ghost var s2, c2 := psta.Flags(), Numbers();
      CountNoShortSlot(psta, noShortSlot);
      NonErpAlone(Recount(c0, s0, s1), s1, s2);
      RecountTwice(c0, s0, s1, s2);
      RecountTwice(c0, s0, s2, psta.Flags());
      SameForErp(g, old(erp), c2, s1, s0, s2, psta.Flags());
    }

    method RaiseNoHtGf(psta: StaInfo, want: bool)
      modifies this`numNoHtGf, psta`noHtGfSet
      ensures psta.Flags() == old(psta.Flags()).(noHtGf := old(psta.Flags()).noHtGf || want)
      ensures Numbers() == Recount(old(Numbers()), old(psta.Flags()), psta.Flags())
    {
      if want {
        CountNoHtGf(psta, true);
      }
    }

    method RaiseHt20(psta: StaInfo, want: bool)
      modifies this`numHt20, psta`ht20Set
      ensures psta.Flags() == old(psta.Flags()).(ht20 := old(psta.Flags()).ht20 || want)
      ensures Numbers() == Recount(old(Numbers()), old(psta.Flags()), psta.Flags())
    {
      if want {
        CountHt20(psta, true);
      }
    }

    /** The HT part of a join: it never lowers the greenfield or the 20 MHz flag. */
    method CountHt(psta: StaInfo, k: Caps)
      modifies this`numNoHt, this`numNoHtGf, this`numHt20, psta`noHtSet, psta`noHtGfSet, psta`ht20Set
      ensures psta.Flags() == old(psta.Flags()).(noHt := !k.ht,
                                                 noHtGf := old(psta.Flags()).noHtGf || (k.ht && !k.greenfield),
                                                 ht20 := old(psta.Flags()).ht20 || (k.ht && !k.supWidth))
      ensures Numbers() == Recount(old(Numbers()), old(psta.Flags()), psta.Flags())
    {
      hide StaInfo.Flags, Numbers, Recount;
      ghost var s0, c0 := psta.Flags(), Numbers();
      CountNoHt(psta, !k.ht);
      ghost var s1 := psta.Flags();
      RaiseNoHtGf(psta, k.ht && !k.greenfield);
      ghost var s2 := psta.Flags();
      RaiseHt20(psta, k.ht && !k.supWidth);
      RecountTwice(c0, s0, s1, s2);
      RecountTwice(c0, s0, s2, psta.Flags());
    }

    method CountJoin(psta: StaInfo, k: Caps)
      modifies this, psta
      ensures psta.Flags() == Joined(old(psta.Flags()), k)
      ensures Followed(old(psta.Flags()), psta.Flags(), old(Numbers()), old(erp))
      ensures opMode == old(opMode) && olbcHt == old(olbcHt) && timBitmap == old(timBitmap)
    {
      hide ErpAfter, Recount, Numbers, StaInfo.Flags;
      CountLegacy(psta, !k.shortPreamble, k.nonErp, !k.shortSlot);
      ghost var t, c := psta.Flags(), Numbers();
      CountHt(psta, k);
      FollowedOnward(old(Numbers()), old(psta.Flags()), t, psta.Flags(), old(erp));
    }

    method CountLeave(psta: StaInfo)
      modifies this, psta
      ensures psta.Flags() == NEW_STA
      ensures Followed(old(psta.Flags()), psta.Flags(), old(Numbers()), old(erp))
      ensures opMode == old(opMode) && olbcHt == old(olbcHt) && timBitmap == old(timBitmap)
    {
      hide ErpAfter, StaInfo.Flags, Numbers, Recount;
      CountLegacy(psta, false, false, false);
      ghost var t, c := psta.Flags(), Numbers();
      CountNoHtGf(psta, false);
      ghost var t1 := psta.Flags();
      CountNoHt(psta, false);
      ghost var t2 := psta.Flags();
      CountHt20(psta, false);
      RecountTwice(c, t, t1, t2);
      RecountTwice(c, t, t2, psta.Flags());
      FollowedOnward(old(Numbers()), old(psta.Flags()), t, psta.Flags(), old(erp));
    }

    /** A record first changed from s to t, then in its HT flags only from t to u. */
    lemma FollowedOnward(c0: Counters, s: Sta, t: Sta, u: Sta, erp0: Erp)
      requires u == t.(noHt := u.noHt, noHtGf := u.noHtGf, ht20 := u.ht20)
      requires Numbers() == Recount(Recount(c0, s, t), t, u) && erp == ErpAfter(g, erp0, Recount(c0, s, t), s, t)
      ensures Followed(s, u, c0, erp0)
    {
      hide ErpAfter, Recount;
      RecountTwice(c0, s, t, u);
      SameForErp(g, erp0, Recount(c0, s, t), s, s, t, u);
    }

    /** The counters and the ERP bits have followed one record from s to s'. */
    ghost predicate Followed(s: Sta, s': Sta, c0: Counters, erp0: Erp)
      reads this
    {
      Numbers() == Recount(c0, s, s') && erp == ErpAfter(g, erp0, Numbers(), s, s')
    }

    /** bss_cap_update_on_sta_join */
    method BssCapUpdateOnStaJoin(psta: StaInfo, k: Caps, ghost i: nat)
      requires Valid() && i < |table| && table[i] == psta
      modifies this, psta
      ensures View() == Apply(g, old(View()), Join(i, k)) && timBitmap == old(timBitmap)
      ensures psta.noShortPreambleSet == !k.shortPreamble && psta.nonErpSet == k.nonErp
      ensures psta.noShortSlotSet == !k.shortSlot && psta.noHtSet == !k.ht
      ensures psta.noHtGfSet == (old(psta.noHtGfSet) || (k.ht && !k.greenfield))
      ensures psta.ht20Set == (old(psta.ht20Set) || (k.ht && !k.supWidth))
    {
      hide Recount, ErpAfter, OpModeAfter, Numbers;
      CountJoin(psta, k);
      Finish(psta, i, old(View()));
    }

    method ClearTim(aid: Aid) returns (due: bool)
      modifies this`timBitmap
      ensures timBitmap == old(timBitmap)[aid := false] && (due <==> old(timBitmap)[aid])
      ensures View() == old(View()) && Numbers() == old(Numbers())
    {
      due := timBitmap[aid];
      if due {
        timBitmap := timBitmap[aid := false];
      }
    }

    /** bss_cap_update_on_sta_leave.  timDue: the TIM element is to be written anew. */
    method BssCapUpdateOnStaLeave(psta: StaInfo, ghost i: nat) returns (timDue: bool)
      requires Valid() && i < |table| && table[i] == psta
      modifies this, psta
      ensures View() == Apply(g, old(View()), Leave(i))
      ensures !psta.noShortPreambleSet && !psta.nonErpSet && !psta.noShortSlotSet
      ensures !psta.noHtSet && !psta.noHtGfSet && !psta.ht20Set
      ensures timBitmap == old(timBitmap)[psta.aid := false] && (timDue <==> old(timBitmap)[psta.aid])
    {
      hide Recount, ErpAfter, OpModeAfter, Numbers;
      timDue := ClearTim(psta.aid);
      CountLeave(psta);
      Finish(psta, i, old(View()));
    }

    /** Both end by bringing the operation mode up to date. */
    method Finish(psta: StaInfo, ghost i: nat, ghost b: Bss)
      requires Valid() && i < |table| == |b.stas| && table[i] == psta && View().stas == b.stas[i := psta.Flags()]
      requires Followed(b.stas[i], psta.Flags(), b.c, b.erp) && opMode == b.opMode && olbcHt == b.olbcHt
      modifies this`opMode
      ensures View() == WithSta(g, b, i, psta.Flags())
    {
      hide Recount, ErpAfter, OpModeAfter, StaInfo.Flags;
      var _ := HtOperationUpdate();
    }
  }

  /** The counters when one record's ERP flag goes from was to want. */
  ghost function NonErpMoved(c: Counters, was: bool, want: bool): Counters {
    c.(nonErp := c.nonErp - Num(was) + Num(want))
  }

  lemma NonErpAlone(c: Counters, s: Sta, t: Sta)
    requires t == s.(nonErp := t.nonErp)
    ensures NonErpMoved(c, s.nonErp, t.nonErp) == Recount(c, s, t)
  {
  }

  /** Following a record from s to t and on to u is following it from s to u. */
  lemma RecountTwice(c: Counters, s: Sta, t: Sta, u: Sta)
    ensures Recount(Recount(c, s, t), t, u) == Recount(c, s, u)
  {
  }

  /** The ERP bits depend on the preamble and non-ERP counts only. */
  lemma SameForErp(g: Config, erp: Erp, c: Counters, s: Sta, s': Sta, t: Sta, u: Sta)
    requires s.nonErp == s'.nonErp && t.nonErp == u.nonErp && t.noShortPreamble == u.noShortPreamble
    ensures ErpAfter(g, erp, c, s, t) == ErpAfter(g, erp, Recount(c, t, u), s', u)
  {
  }
}
