/** The protection bookkeeping of core/rtw_ap.c on values: per-station flags, the BSS counters, the HT
    operation mode and the ERP bits derived from them, over runs of joins and leaves. */
module ApProtection {

  /** What a station's record remembers having been counted for. */
  datatype Sta = Sta(noShortPreamble: bool, nonErp: bool, noShortSlot: bool, noHt: bool, noHtGf: bool, ht20: bool)

  const NEW_STA := Sta(false, false, false, false, false, false)

  datatype Flag = NoShortPreamble | NonErp | NoShortSlot | NoHt | NoHtGf | Ht20

  /** What a station announces when it (re-)associates. */
  datatype Caps = Caps(shortPreamble: bool, nonErp: bool, shortSlot: bool, ht: bool, greenfield: bool, supWidth: bool)

  datatype Counters = Counters(noShortPreamble: int, nonErp: int, noShortSlot: int, noHt: int, noHtGf: int, ht20: int)

  function Has(s: Sta, f: Flag): bool {
    match f
    case NoShortPreamble => s.noShortPreamble
    case NonErp => s.nonErp
    case NoShortSlot => s.noShortSlot
    case NoHt => s.noHt
    case NoHtGf => s.noHtGf
    case Ht20 => s.ht20
  }

  function Of(c: Counters, f: Flag): int {
    match f
    case NoShortPreamble => c.noShortPreamble
    case NonErp => c.nonErp
    case NoShortSlot => c.noShortSlot
    case NoHt => c.noHt
    case NoHtGf => c.noHtGf
    case Ht20 => c.ht20
  }

  function Num(b: bool): int { if b then 1 else 0 }

  ghost function Count(stas: seq<Sta>, f: Flag): (n: nat)
    ensures n <= |stas|
  {
    if stas == [] then 0 else Num(Has(stas[0], f)) + Count(stas[1..], f)
  }

  /** Changing one record moves the count by the difference it makes. */
  lemma {:induction false} CountUpdate(stas: seq<Sta>, i: nat, s: Sta, f: Flag)
    requires i < |stas|
    ensures Count(stas[i := s], f) == Count(stas, f) - Num(Has(stas[i], f)) + Num(Has(s, f))
  {
    if i == 0 {
      assert stas[i := s][1..] == stas[1..];
    } else {
      assert stas[i := s][1..] == stas[1..][i - 1 := s];
      CountUpdate(stas[1..], i - 1, s, f);
    }
  }

  lemma {:induction false} CountNew(n: nat, f: Flag)
    ensures Count(seq(n, _ => NEW_STA), f) == 0
  {
    if n > 0 {
      assert seq(n, _ => NEW_STA)[1..] == seq(n - 1, _ => NEW_STA);
      CountNew(n - 1, f);
    }
  }

  // ---------------------------------------------------------------- the HT operation mode

  type Mode = m: nat | m < 4
  const OP_MODE_PURE: Mode := 0
  const OP_MODE_MAY_BE_LEGACY_STAS: Mode := 1
  const OP_MODE_20MHZ_HT_STA_ASSOCED: Mode := 2
  const OP_MODE_MIXED: Mode := 3

  /** The fields of the 16-bit ht_op_mode: bits 0-1, bit 2, bit 4, and the ones nobody here writes. */
  datatype OpMode = OpMode(mode: Mode, nonGf: bool, nonHt: bool, rest: nat)

  /** The operation mode the counts call for (section 8.4.2.59 of IEEE 802.11-2012). */
  function ModeFor(noHt: int, ht20: int, apSupWidth: bool, olbcHt: bool): Mode {
    if noHt != 0 then OP_MODE_MIXED
    else if apSupWidth && ht20 != 0 then OP_MODE_20MHZ_HT_STA_ASSOCED
    else if olbcHt then OP_MODE_MAY_BE_LEGACY_STAS
    else OP_MODE_PURE
  }

  /** ht_op_mode says what the counts call for. */
  predicate Documented(m: OpMode, c: Counters, apSupWidth: bool, olbcHt: bool) {
    && (m.nonGf <==> c.noHtGf != 0)
    && (m.nonHt <==> c.noHt != 0 || olbcHt)
    && m.mode == ModeFor(c.noHt, c.ht20, apSupWidth, olbcHt)
  }

  // ---------------------------------------------------------------- runs

  /** What does not change over a run.  erpOn: the BSS is started, ERP is enabled and the beacon has
      the element. */
  datatype Config = Config(htOn: bool, apSupWidth: bool, erpOn: bool)

  /** The three bits the driver keeps in the beacon's ERP element. */
  datatype Erp = Erp(nonErpPresent: bool, useProtection: bool, barker: bool)

  datatype Bss = Bss(stas: seq<Sta>, c: Counters, opMode: OpMode, olbcHt: bool, erp: Erp)

  datatype Event =
    | Join(i: nat, caps: Caps)
    | Leave(i: nat)
    | Overlap(olbcHt: bool)   // a scan finds, or no longer finds, a non-HT neighbour

  /** The flags after a join: the greenfield and 20 MHz flags are only ever set by one. */
  function Joined(s: Sta, k: Caps): Sta {
    Sta(!k.shortPreamble, k.nonErp, !k.shortSlot, !k.ht,
        s.noHtGf || (k.ht && !k.greenfield), s.ht20 || (k.ht && !k.supWidth))
  }

  function Recount(c: Counters, s: Sta, s': Sta): Counters {
    Counters(c.noShortPreamble - Num(s.noShortPreamble) + Num(s'.noShortPreamble),
             c.nonErp - Num(s.nonErp) + Num(s'.nonErp),
             c.noShortSlot - Num(s.noShortSlot) + Num(s'.noShortSlot),
             c.noHt - Num(s.noHt) + Num(s'.noHt),
             c.noHtGf - Num(s.noHtGf) + Num(s'.noHtGf),
             c.ht20 - Num(s.ht20) + Num(s'.ht20))
  }

  /** update_bcn_erpinfo_ie: the protection bits follow a test for exactly one such station. */
  function ErpWritten(c: Counters): Erp {
    Erp(c.nonErp == 1, c.nonErp == 1, c.noShortPreamble > 0)
  }

  /** The element is rewritten when the first non-ERP station comes or the last one goes; the
      preamble count has been brought up to date by then. */
  function ErpAfter(g: Config, erp: Erp, c: Counters, s: Sta, s': Sta): Erp {
    if g.erpOn && ((!s.nonErp && s'.nonErp && c.nonErp == 1) || (s.nonErp && !s'.nonErp && c.nonErp == 0))
    then ErpWritten(c) else erp
  }

  function OpModeAfter(g: Config, m: OpMode, c: Counters, olbcHt: bool): OpMode {
    if !g.htOn then m
    else OpMode(ModeFor(c.noHt, c.ht20, g.apSupWidth, olbcHt), c.noHtGf != 0, c.noHt != 0 || olbcHt, m.rest)
  }

  /** Updating the operation mode leaves what the counts call for; updating it again changes nothing. */
  lemma UpdateSettles(g: Config, m: OpMode, c: Counters, olbcHt: bool)
    requires g.htOn
    ensures var r := OpModeAfter(g, m, c, olbcHt);
      Documented(r, c, g.apSupWidth, olbcHt) && OpModeAfter(g, r, c, olbcHt) == r
  {
  }

  function WithSta(g: Config, b: Bss, i: nat, s': Sta): Bss
    requires i < |b.stas|
  {
    var c := Recount(b.c, b.stas[i], s');
    Bss(b.stas[i := s'], c, OpModeAfter(g, b.opMode, c, b.olbcHt), b.olbcHt, ErpAfter(g, b.erp, c, b.stas[i], s'))
  }

  function Apply(g: Config, b: Bss, e: Event): Bss {
    match e
    case Join(i, k) => if i < |b.stas| then WithSta(g, b, i, Joined(b.stas[i], k)) else b
    case Leave(i) => if i < |b.stas| then WithSta(g, b, i, NEW_STA) else b
    case Overlap(o) => b.(olbcHt := o)
  }

  /** No station, all counters zero, protection bits clear. */
  predicate Start(b: Bss) {
    && (forall i :: 0 <= i < |b.stas| ==> b.stas[i] == NEW_STA)
    && b.c == Counters(0, 0, 0, 0, 0, 0)
    && !b.erp.nonErpPresent && !b.erp.useProtection
  }

  function Run(g: Config, b: Bss, es: seq<Event>): Bss {
    if es == [] then b else Apply(g, Run(g, b, es[..|es| - 1]), es[|es| - 1])
  }

  /** Every counter is the number of stations flagged. */
  ghost predicate Counted(b: Bss) {
    forall f :: Of(b.c, f) == Count(b.stas, f)
  }

  ghost predicate Inv(g: Config, b: Bss) {
    && Counted(b)
    && (g.erpOn ==> (b.erp.nonErpPresent <==> b.c.nonErp > 0) && (b.erp.useProtection <==> b.c.nonErp > 0))
  }

  lemma StartInv(g: Config, b: Bss)
    requires Start(b)
    ensures Inv(g, b)
  {
    assert b.stas == seq(|b.stas|, _ => NEW_STA);
    forall f ensures Of(b.c, f) == Count(b.stas, f) { CountNew(|b.stas|, f); }
  }

  lemma StaKeeps(g: Config, b: Bss, i: nat, s': Sta)
    requires Inv(g, b) && i < |b.stas|
    ensures Inv(g, WithSta(g, b, i, s'))
  {
    hide OpModeAfter;
    var b' := WithSta(g, b, i, s');
    forall f ensures Of(b'.c, f) == Count(b'.stas, f) {
      CountUpdate(b.stas, i, s', f);
    }
    CountUpdate(b.stas, i, s', NonErp);
    assert Of(b.c, NonErp) == Count(b.stas, NonErp) && Of(b'.c, NonErp) == Count(b'.stas, NonErp);
  }

  /** MAIN: in every state a run reaches, each BSS counter is the number of stations whose flag is
      set, and the beacon's two protection bits say whether a non-ERP station is associated, although
      the writer tests the count for equality with one. */
  lemma {:induction false} RunKeeps(g: Config, b: Bss, es: seq<Event>)
    requires Start(b)
    ensures Inv(g, Run(g, b, es))
    decreases |es|
  {
    if es == [] {
      StartInv(g, b);
    } else {
      var front, e := es[..|es| - 1], es[|es| - 1];
      RunKeeps(g, b, front);
      var m := Run(g, b, front);
      match e {
        case Join(i, k) => if i < |m.stas| { StaKeeps(g, m, i, Joined(m.stas[i], k)); }
        case Leave(i) => if i < |m.stas| { StaKeeps(g, m, i, NEW_STA); }
        case Overlap(_) =>
      }
    }
  }

  /** Some station has the flag set. */
  ghost predicate Any(b: Bss, f: Flag) {
    exists i :: 0 <= i < |b.stas| && Has(b.stas[i], f)
  }

  lemma {:induction false} CountPositive(stas: seq<Sta>, f: Flag)
    ensures Count(stas, f) > 0 <==> exists i :: 0 <= i < |stas| && Has(stas[i], f)
  {
    if stas != [] {
      CountPositive(stas[1..], f);
      if Count(stas[1..], f) > 0 {
        var i :| 0 <= i < |stas[1..]| && Has(stas[1..][i], f);
        assert Has(stas[i + 1], f);
      }
      if i :| 0 <= i < |stas| && Has(stas[i], f) && i > 0 {
        assert Has(stas[1..][i - 1], f);
      }
    }
  }

  lemma CountsAny(b: Bss, f: Flag)
    requires Counted(b)
    ensures Of(b.c, f) >= 0 && (Of(b.c, f) != 0 <==> Any(b, f))
  {
    CountPositive(b.stas, f);
  }

  lemma RunAppend(g: Config, b: Bss, es: seq<Event>, e: Event)
    ensures Run(g, b, es + [e]) == Apply(g, Run(g, b, es), e)
  {
    hide Apply;
    var all := es + [e];
    assert all[..|all| - 1] == es && all[|all| - 1] == e;
  }

  /** The operation mode the recorded flags call for. */
  ghost predicate ModeOfRecords(g: Config, b: Bss) {
    && (b.opMode.nonGf <==> Any(b, NoHtGf))
    && (b.opMode.nonHt <==> Any(b, NoHt) || b.olbcHt)
    && b.opMode.mode == if Any(b, NoHt) then OP_MODE_MIXED
                        else if g.apSupWidth && Any(b, Ht20) then OP_MODE_20MHZ_HT_STA_ASSOCED
                        else if b.olbcHt then OP_MODE_MAY_BE_LEGACY_STAS else OP_MODE_PURE
  }

  /** MAIN: with HT on, whatever the run, after a join or leave of a known station the operation mode
      is the documented function of the recorded flags and the overlap flag. */
  lemma ModeAfterRun(g: Config, b: Bss, es: seq<Event>, e: Event)
    requires Start(b) && g.htOn && !e.Overlap? && e.i < |Run(g, b, es).stas|
    ensures ModeOfRecords(g, Run(g, b, es + [e]))
  {
    hide *;
    RunAppend(g, b, es, e);
    RunKeeps(g, b, es + [e]);
    JustUpdated(g, Run(g, b, es), e);
  }

  /** With ERP off the bits, and with HT off the operation mode, are never written; the other bits of the mode
      are not written in any case. */
  lemma {:induction false} OffLeftAlone(g: Config, b: Bss, es: seq<Event>)
    ensures !g.erpOn ==> Run(g, b, es).erp == b.erp
    ensures !g.htOn ==> Run(g, b, es).opMode == b.opMode
    ensures Run(g, b, es).opMode.rest == b.opMode.rest
    decreases |es|
  {
    hide Recount, Joined;
    if es != [] {
      OffLeftAlone(g, b, es[..|es| - 1]);
    }
  }

  lemma JustUpdated(g: Config, b: Bss, e: Event)
    requires g.htOn && !e.Overlap? && e.i < |b.stas| && Inv(g, Apply(g, b, e))
    ensures ModeOfRecords(g, Apply(g, b, e))
  {
    hide Recount, Joined, ErpAfter, Count, Any, Counted;
    var r := Apply(g, b, e);
    CountsAny(r, NoHtGf);
    CountsAny(r, NoHt);
    CountsAny(r, Ht20);
  }

  // ---------------------------------------------------------------- records and announcements

  /** What station i has announced since it last left, in order. */
  function Stay(es: seq<Event>, i: nat): seq<Caps> {
    if es == [] then []
    else
      var front, e := Stay(es[..|es| - 1], i), es[|es| - 1];
      match e
      case Join(j, k) => if j == i then front + [k] else front
      case Leave(j) => if j == i then [] else front
      case Overlap(_) => front
  }

  predicate NoGf(k: Caps) { k.ht && !k.greenfield }

  predicate Only20(k: Caps) { k.ht && !k.supWidth }

  ghost predicate AnyOf(ks: seq<Caps>, p: Caps -> bool) { exists j :: 0 <= j < |ks| && p(ks[j]) }

  /** The last announcement, but with the greenfield and 20 MHz flags of any. */
  ghost function Remembered(ks: seq<Caps>): Sta {
    if ks == [] then NEW_STA
    else Joined(NEW_STA, ks[|ks| - 1]).(noHtGf := AnyOf(ks, NoGf), ht20 := AnyOf(ks, Only20))
  }

  lemma RememberOneMore(ks: seq<Caps>, k: Caps)
    ensures Remembered(ks + [k]) == Joined(Remembered(ks), k)
  {
    AnyOfAppend(ks, k, NoGf);
    AnyOfAppend(ks, k, Only20);
  }

  lemma AnyOfAppend(ks: seq<Caps>, k: Caps, p: Caps -> bool)
    ensures AnyOf(ks + [k], p) <==> AnyOf(ks, p) || p(k)
  {
    var all := ks + [k];
    assert all[|ks|] == k && forall j {:trigger ks[j]} :: 0 <= j < |ks| ==> all[j] == ks[j];
  }

  lemma {:induction false} RecordIs(g: Config, b: Bss, es: seq<Event>, i: nat)
    requires Start(b) && i < |b.stas|
    ensures |Run(g, b, es).stas| == |b.stas| && Run(g, b, es).stas[i] == Remembered(Stay(es, i))
    decreases |es|
  {
    hide Remembered, Joined, Recount, OpModeAfter, ErpAfter;
    if es == [] {
      Forgotten();
    } else {
      var front, e := es[..|es| - 1], es[|es| - 1];
      RecordIs(g, b, front, i);
      if e == Leave(i) { Forgotten(); }
      if e.Join? && e.i == i { RememberOneMore(Stay(front, i), e.caps); }
    }
  }

  lemma Forgotten()
    ensures Remembered([]) == NEW_STA
  {
  }

  /** Over any run, the record of a station that is there says what it last announced exactly when it has
      not announced HT without greenfield, or without 40 MHz, earlier in the same stay and taken that back
      since. */
  lemma RecordExactly(g: Config, b: Bss, es: seq<Event>, i: nat)
    requires Start(b) && i < |b.stas| && Stay(es, i) != []
    ensures |Run(g, b, es).stas| == |b.stas|
    ensures var ks := Stay(es, i);
      var s, last := Run(g, b, es).stas[i], ks[|ks| - 1];
      && (s.noShortPreamble <==> !last.shortPreamble) && (s.nonErp <==> last.nonErp)
      && (s.noShortSlot <==> !last.shortSlot) && (s.noHt <==> !last.ht)
      && ((s.noHtGf <==> NoGf(last)) && (s.ht20 <==> Only20(last)) <==>
          forall k :: k in ks ==> (NoGf(k) ==> NoGf(last)) && (Only20(k) ==> Only20(last)))
  {
    RecordIs(g, b, es, i);
  }

  const NARROW := Caps(true, false, true, true, true, false)
  const WIDE := Caps(true, false, true, true, true, true)

  /** So a station that comes back with 40 MHz without having left still counts as a 20 MHz one. */
  lemma RejoinStale(g: Config, b: Bss)
    requires Start(b) && |b.stas| > 0 && g.htOn && g.apSupWidth
    ensures var es := [Join(0, NARROW), Join(0, WIDE)];
      && Stay(es, 0) == [NARROW, WIDE] && Run(g, b, es).c.ht20 == 1
      && Run(g, b, es).opMode.mode == OP_MODE_20MHZ_HT_STA_ASSOCED
  {
    hide Run, Stay, Start, Apply, NarrowThere;
    RunTwo(g, b, Join(0, NARROW), Join(0, WIDE));
    StayTwo(NARROW, WIDE);
    ComesNarrow(g, b);
    ComesWide(g, Apply(g, b, Join(0, NARROW)));
    OneNarrow(Apply(g, Apply(g, b, Join(0, NARROW)), Join(0, WIDE)));
  }

  predicate NarrowThere(b: Bss) {
    |b.stas| > 0 && b.stas[0].ht20 && !b.stas[0].noHt && b.c.ht20 == 1 && b.c.noHt == 0
  }

  lemma OneNarrow(b: Bss)
    requires NarrowThere(b)
    ensures b.c.ht20 == 1
  {
  }

  lemma ComesNarrow(g: Config, b: Bss)
    requires Start(b) && |b.stas| > 0
    ensures NarrowThere(Apply(g, b, Join(0, NARROW)))
  {
    hide OpModeAfter, ErpAfter, Recount, Joined;
    assert b.stas[0] == NEW_STA;
    NarrowCounted(b.c, b.stas[0]);
  }

  lemma NarrowCounted(c: Counters, s: Sta)
    requires c.ht20 == 0 && c.noHt == 0 && !s.ht20 && !s.noHt
    ensures var s' := Joined(s, NARROW);
      !s'.noHt && s'.ht20 && Recount(c, s, s').ht20 == 1 && Recount(c, s, s').noHt == 0
  {
  }

  lemma ComesWide(g: Config, b: Bss)
    requires NarrowThere(b) && g.htOn && g.apSupWidth
    ensures var r := Apply(g, b, Join(0, WIDE)); NarrowThere(r) && r.opMode.mode == OP_MODE_20MHZ_HT_STA_ASSOCED
  {
    hide ErpAfter;
  }

  lemma RunTwo(g: Config, b: Bss, e: Event, e': Event)
    ensures Run(g, b, [e, e']) == Apply(g, Apply(g, b, e), e')
  {
    hide Apply;
    assert [e, e'] == [e] + [e'] && [e] == [] + [e];
    RunAppend(g, b, [e], e');
    RunAppend(g, b, [], e);
  }

  lemma StayTwo(k: Caps, k': Caps)
    ensures Stay([Join(0, k), Join(0, k')], 0) == [k, k']
  {
    var es := [Join(0, k), Join(0, k')];
    assert es[..1] == [Join(0, k)] && [Join(0, k)][..0] == [];
    assert Stay(es[..1], 0) == Stay([], 0) + [k];
  }

  // ---------------------------------------------------------------- records, event by event

  /** Event j is a join of station i announcing k, and i has not left since. */
  ghost predicate Since(es: seq<Event>, i: nat, j: int, k: Caps) {
    0 <= j < |es| && es[j] == Join(i, k) && forall m :: j < m < |es| ==> es[m] != Leave(i)
  }

  /** And it has announced nothing since. */
  ghost predicate Last(es: seq<Event>, i: nat, j: int, k: Caps) {
    Since(es, i, j, k) && forall m :: j < m < |es| ==> !(es[m].Join? && es[m].i == i)
  }

  /** What one more event makes of them. */
  lemma OneMore(es: seq<Event>, e: Event, i: nat, j: int, k: Caps)
    ensures Since(es + [e], i, j, k) <==> if j == |es| then e == Join(i, k) else Since(es, i, j, k) && e != Leave(i)
    ensures Last(es + [e], i, j, k) <==>
      if j == |es| then e == Join(i, k) else Last(es, i, j, k) && e != Leave(i) && !(e.Join? && e.i == i)
  {
    var all := es + [e];
    assert forall m {:trigger es[m]} {:trigger all[m]} :: 0 <= m < |es| ==> all[m] == es[m];
    assert all[|es|] == e;
  }

  predicate NoPreamble(k: Caps) { !k.shortPreamble }

  predicate NoErp(k: Caps) { k.nonErp }

  predicate NoSlot(k: Caps) { !k.shortSlot }

  predicate WithoutHt(k: Caps) { !k.ht }

  /** The last thing station i announced is like p. */
  ghost predicate LastSays(es: seq<Event>, i: nat, p: Caps -> bool) { exists j, k :: Last(es, i, j, k) && p(k) }

  /** Something it announced since it last left is like p. */
  ghost predicate EverSaid(es: seq<Event>, i: nat, p: Caps -> bool) { exists j, k :: Since(es, i, j, k) && p(k) }

  /** Four flags are up because of the last thing announced, two because of anything announced in the stay;
      none is up if nothing was. */
  ghost predicate Told(s: Sta, es: seq<Event>, i: nat) {
    && (s.noShortPreamble <==> LastSays(es, i, NoPreamble))
    && (s.nonErp <==> LastSays(es, i, NoErp))
    && (s.noShortSlot <==> LastSays(es, i, NoSlot))
    && (s.noHt <==> LastSays(es, i, WithoutHt))
    && (s.noHtGf <==> EverSaid(es, i, NoGf))
    && (s.ht20 <==> EverSaid(es, i, Only20))
  }

  lemma ToldOther(s: Sta, es: seq<Event>, e: Event, i: nat)
    requires Told(s, es, i) && e != Leave(i) && !(e.Join? && e.i == i)
    ensures Told(s, es + [e], i)
  {
    hide Since, Last;
    forall j, k ensures Last(es + [e], i, j, k) <==> Last(es, i, j, k) {
      OneMore(es, e, i, j, k);
      NotThere(es, i, k);
    }
    forall j, k ensures Since(es + [e], i, j, k) <==> Since(es, i, j, k) {
      OneMore(es, e, i, j, k);
      NotThere(es, i, k);
    }
  }

  lemma NotThere(es: seq<Event>, i: nat, k: Caps)
    ensures !Since(es, i, |es|, k) && !Last(es, i, |es|, k)
  {
  }

  lemma ToldLeave(es: seq<Event>, i: nat)
    ensures Told(NEW_STA, es + [Leave(i)], i)
  {
    hide Since, Last;
    forall j, k ensures !Since(es + [Leave(i)], i, j, k) && !Last(es + [Leave(i)], i, j, k) {
      OneMore(es, Leave(i), i, j, k);
    }
  }

  lemma ToldJoin(s: Sta, es: seq<Event>, i: nat, k: Caps)
    requires Told(s, es, i)
    ensures Told(Joined(s, k), es + [Join(i, k)], i)
  {
    hide Since, Last;
    var all := es + [Join(i, k)];
    forall j, k' ensures Last(all, i, j, k') <==> j == |es| && k' == k { OneMore(es, Join(i, k), i, j, k'); }
    forall j, k' ensures Since(all, i, j, k') <==> Since(es, i, j, k') || (j == |es| && k' == k) {
      OneMore(es, Join(i, k), i, j, k');
      NotThere(es, i, k');
    }
    assert Last(all, i, |es|, k) && Since(all, i, |es|, k);
  }

  lemma {:induction false} ToldOverRun(g: Config, b: Bss, es: seq<Event>, i: nat)
    requires Start(b) && i < |b.stas|
    ensures |Run(g, b, es).stas| == |b.stas| && Told(Run(g, b, es).stas[i], es, i)
    decreases |es|
  {
    hide Told, Joined, Recount, OpModeAfter, ErpAfter;
    if es == [] {
      NothingTold(i);
    } else {
      var front, e := es[..|es| - 1], es[|es| - 1];
      ToldOverRun(g, b, front, i);
      var s := Run(g, b, front).stas[i];
      assert es == front + [e];
      if e == Leave(i) { ToldLeave(front, i); }
      else if e.Join? && e.i == i { ToldJoin(s, front, i, e.caps); }
      else { ToldOther(s, front, e, i); }
    }
  }

  lemma NothingTold(i: nat)
    ensures Told(NEW_STA, [], i)
  {
  }

  /** MAIN: after any run, a station that last announced k, and has not left since, has a record that says
      so: the preamble, ERP, slot time and HT flags are those of k, the greenfield and 20 MHz flags those
      of any announcement since it last left. */
  lemma RecordByField(g: Config, b: Bss, es: seq<Event>, i: nat, j: int, k: Caps)
    requires Start(b) && i < |b.stas| && Last(es, i, j, k)
    ensures |Run(g, b, es).stas| == |b.stas|
    ensures var s := Run(g, b, es).stas[i];
      && (s.noShortPreamble <==> !k.shortPreamble)
      && (s.nonErp <==> k.nonErp)
      && (s.noShortSlot <==> !k.shortSlot)
      && (s.noHt <==> !k.ht)
      && (s.noHtGf <==> exists j', k' :: Since(es, i, j', k') && k'.ht && !k'.greenfield)
      && (s.ht20 <==> exists j', k' :: Since(es, i, j', k') && k'.ht && !k'.supWidth)
  {
    hide Run, Start;
    ToldOverRun(g, b, es, i);
    assert forall j', k' :: Last(es, i, j', k') ==> j' == j && k' == k;
  }

  /** MAIN: one that has not come, or has left and not come back, has no flag up. */
  lemma GoneHasNone(g: Config, b: Bss, es: seq<Event>, i: nat)
    requires Start(b) && i < |b.stas| && forall j, k :: !Since(es, i, j, k)
    ensures |Run(g, b, es).stas| == |b.stas|
    ensures var s := Run(g, b, es).stas[i];
      !s.noShortPreamble && !s.nonErp && !s.noShortSlot && !s.noHt && !s.noHtGf && !s.ht20
  {
    hide Run, Start, Since;
    ToldOverRun(g, b, es, i);
  }

  /** MAIN: after any run, each counter is the number of stations that last announced to lack the ability, or,
      for greenfield and 40 MHz, that have announced so since they last left. */
  lemma CountersByAnnouncement(g: Config, b: Bss, es: seq<Event>)
    requires Start(b)
    ensures var c, n := Run(g, b, es).c, |b.stas|;
      && c.noShortPreamble == |set i: nat | i < n && LastSays(es, i, NoPreamble)|
      && c.nonErp == |set i: nat | i < n && LastSays(es, i, NoErp)|
      && c.noShortSlot == |set i: nat | i < n && LastSays(es, i, NoSlot)|
      && c.noHt == |set i: nat | i < n && LastSays(es, i, WithoutHt)|
      && c.noHtGf == |set i: nat | i < n && EverSaid(es, i, NoGf)|
      && c.ht20 == |set i: nat | i < n && EverSaid(es, i, Only20)|
  {
    hide Run, Start, LastSays, EverSaid, Told;
    var r := Run(g, b, es);
    RunKeeps(g, b, es);
    RunLength(g, b, es);
    forall f ensures Of(r.c, f) == |Flagged(r.stas, f)| { CountIsSize(r.stas, f); }
    forall i: nat | i < |r.stas| ensures Told(r.stas[i], es, i) { ToldOverRun(g, b, es, i); }
    FlaggedAre(r.stas, es);
    assert Of(r.c, NoShortPreamble) == r.c.noShortPreamble && Of(r.c, NonErp) == r.c.nonErp;
    assert Of(r.c, NoShortSlot) == r.c.noShortSlot && Of(r.c, NoHt) == r.c.noHt;
    assert Of(r.c, NoHtGf) == r.c.noHtGf && Of(r.c, Ht20) == r.c.ht20;
  }

  /** MAIN: with HT on, whatever the run, after a join or leave of a known station the operation mode is the
      documented function of what the stations have announced and the overlap flag. */
  lemma ModeByAnnouncement(g: Config, b: Bss, es: seq<Event>, e: Event)
    requires Start(b) && g.htOn && !e.Overlap? && e.i < |b.stas|
    ensures var all, n, r := es + [e], |b.stas|, Run(g, b, es + [e]);
      && (r.opMode.nonGf <==> exists i: nat :: i < n && EverSaid(all, i, NoGf))
      && (r.opMode.nonHt <==> r.olbcHt || exists i: nat :: i < n && LastSays(all, i, WithoutHt))
      && r.opMode.mode == (if exists i: nat :: i < n && LastSays(all, i, WithoutHt) then 3
                           else if g.apSupWidth && exists i: nat :: i < n && EverSaid(all, i, Only20) then 2
                           else if r.olbcHt then 1 else 0)
  {
    hide Run, Start, LastSays, EverSaid;
    RunLength(g, b, es);
    ModeAfterRun(g, b, es, e);
    AnyTold(g, b, es + [e]);
  }

  /** MAIN: with ERP on, after any run the two protection bits of the beacon say whether some station last
      announced to be a non-ERP one. */
  lemma ProtectionByAnnouncement(g: Config, b: Bss, es: seq<Event>)
    requires Start(b) && g.erpOn
    ensures var r := Run(g, b, es);
      && r.erp.nonErpPresent == r.erp.useProtection
      && (r.erp.useProtection <==> exists i: nat :: i < |b.stas| && LastSays(es, i, NoErp))
  {
    hide Run, Start, LastSays, EverSaid;
    RunKeeps(g, b, es);
    RunCounts(g, b, es, NonErp);
    AnyTold(g, b, es);
  }

  /** Some record has a flag up exactly if some station announced it. */
  lemma AnyTold(g: Config, b: Bss, es: seq<Event>)
    requires Start(b)
    ensures var r, n := Run(g, b, es), |b.stas|;
      && (Any(r, NonErp) <==> exists i: nat :: i < n && LastSays(es, i, NoErp))
      && (Any(r, NoHt) <==> exists i: nat :: i < n && LastSays(es, i, WithoutHt))
      && (Any(r, NoHtGf) <==> exists i: nat :: i < n && EverSaid(es, i, NoGf))
      && (Any(r, Ht20) <==> exists i: nat :: i < n && EverSaid(es, i, Only20))
  {
    hide Run, Start, LastSays, EverSaid, Told, Any, Has;
    var r := Run(g, b, es);
    RunLength(g, b, es);
    forall i: nat | i < |r.stas| ensures Told(r.stas[i], es, i) { ToldOverRun(g, b, es, i); }
    FlaggedAre(r.stas, es);
    assert forall i: nat {:trigger LastSays(es, i, NoErp)} :: i in Flagged(r.stas, NonErp) <==>
      i < |r.stas| && LastSays(es, i, NoErp);
    assert forall i: nat {:trigger LastSays(es, i, WithoutHt)} :: i in Flagged(r.stas, NoHt) <==>
      i < |r.stas| && LastSays(es, i, WithoutHt);
    assert forall i: nat {:trigger EverSaid(es, i, NoGf)} :: i in Flagged(r.stas, NoHtGf) <==>
      i < |r.stas| && EverSaid(es, i, NoGf);
    assert forall i: nat {:trigger EverSaid(es, i, Only20)} :: i in Flagged(r.stas, Ht20) <==>
      i < |r.stas| && EverSaid(es, i, Only20);
    forall f ensures Any(r, f) <==> exists i: nat :: i in Flagged(r.stas, f) { AnyFlagged(r, f); }
  }

  lemma AnyFlagged(b: Bss, f: Flag)
    ensures Any(b, f) <==> exists i: nat :: i in Flagged(b.stas, f)
  {
    if Any(b, f) {
      var i :| 0 <= i < |b.stas| && Has(b.stas[i], f);
      assert i in Flagged(b.stas, f);
    }
  }

  lemma FlaggedAre(stas: seq<Sta>, es: seq<Event>)
    requires forall i: nat :: i < |stas| ==> Told(stas[i], es, i)
    ensures Flagged(stas, NoShortPreamble) == set i: nat | i < |stas| && LastSays(es, i, NoPreamble)
    ensures Flagged(stas, NonErp) == set i: nat | i < |stas| && LastSays(es, i, NoErp)
    ensures Flagged(stas, NoShortSlot) == set i: nat | i < |stas| && LastSays(es, i, NoSlot)
    ensures Flagged(stas, NoHt) == set i: nat | i < |stas| && LastSays(es, i, WithoutHt)
    ensures Flagged(stas, NoHtGf) == set i: nat | i < |stas| && EverSaid(es, i, NoGf)
    ensures Flagged(stas, Ht20) == set i: nat | i < |stas| && EverSaid(es, i, Only20)
  {
    hide LastSays, EverSaid;
  }

  lemma RunLength(g: Config, b: Bss, es: seq<Event>)
    requires Start(b)
    ensures |Run(g, b, es).stas| == |b.stas|
    decreases |es|
  {
    hide Recount, OpModeAfter, ErpAfter, Joined, Start;
    if es != [] {
      RunLength(g, b, es[..|es| - 1]);
    }
  }

  /** The stations with the flag up. */
  ghost function Flagged(stas: seq<Sta>, f: Flag): set<nat> { set i: nat | i < |stas| && Has(stas[i], f) }

  lemma {:induction false} CountIsSize(stas: seq<Sta>, f: Flag)
    ensures Count(stas, f) == |Flagged(stas, f)|
  {
    hide Has, Flagged, Num;
    if stas == [] {
      NoneFlagged(f);
    } else {
      var n := |stas| - 1;
      CountIsSize(stas[..n], f);
      CountLast(stas, f);
      FlaggedLast(stas, f);
    }
  }

  lemma NoneFlagged(f: Flag)
    ensures Flagged([], f) == {}
  {
  }

  lemma FlaggedLast(stas: seq<Sta>, f: Flag)
    requires stas != []
    ensures var n := |stas| - 1; |Flagged(stas, f)| == |Flagged(stas[..n], f)| + Num(Has(stas[n], f))
  {
    hide Has;
    var n := |stas| - 1;
    if Has(stas[n], f) {
      assert Flagged(stas, f) == Flagged(stas[..n], f) + {n};
    } else {
      assert Flagged(stas, f) == Flagged(stas[..n], f);
    }
  }

  lemma {:induction false} CountLast(stas: seq<Sta>, f: Flag)
    requires stas != []
    ensures var n := |stas| - 1; Count(stas, f) == Count(stas[..n], f) + Num(Has(stas[n], f))
  {
    var n := |stas| - 1;
    if n > 0 {
      assert stas[1..][..n - 1] == stas[..n][1..];
      CountLast(stas[1..], f);
    } else {
      assert stas[..n] == [] && stas[1..] == [];
    }
  }

  // ---------------------------------------------------------------- the Barker bit

  /** The Barker bit says whether a station without short preambles is associated. */
  predicate BarkerRight(b: Bss) { b.erp.barker <==> b.c.noShortPreamble > 0 }

  /** The record a join or a leave makes of a record. */
  function After(s: Sta, e: Event): Sta
    requires !e.Overlap?
  {
    if e.Join? then Joined(s, e.caps) else NEW_STA
  }

  /** The event brings the first non-ERP station or takes the last one away, upon which the ERP element
      is written anew. */
  predicate Rewrites(b: Bss, e: Event) {
    && !e.Overlap? && e.i < |b.stas|
    && var s, s' := b.stas[e.i], After(b.stas[e.i], e);
       (b.c.nonErp == 0 && s'.nonErp) || (b.c.nonErp == 1 && s.nonErp && !s'.nonErp)
  }

  /** It brings the first station without short preambles or takes the last one away. */
  predicate TurnsBarker(b: Bss, e: Event) {
    && !e.Overlap? && e.i < |b.stas|
    && var s, s' := b.stas[e.i], After(b.stas[e.i], e);
       || (b.c.noShortPreamble == 0 && s'.noShortPreamble)
       || (b.c.noShortPreamble == 1 && s.noShortPreamble && !s'.noShortPreamble)
  }

  /** What one event does to the bit, and to what it should be. */
  lemma BarkerStep(g: Config, b: Bss, e: Event)
    requires g.erpOn && Inv(g, b)
    ensures var r := Apply(g, b, e);
      && (r.erp.barker <==> if Rewrites(b, e) then r.c.noShortPreamble > 0 else b.erp.barker)
      && ((r.c.noShortPreamble > 0 <==> b.c.noShortPreamble > 0) <==> !TurnsBarker(b, e))
  {
    hide OpModeAfter, Joined, Count;
    if !e.Overlap? && e.i < |b.stas| {
      FlaggedCounts(b, e.i, NonErp);
      FlaggedCounts(b, e.i, NoShortPreamble);
    }
  }

  lemma FlaggedCounts(b: Bss, i: nat, f: Flag)
    requires Counted(b) && i < |b.stas|
    ensures Of(b.c, f) >= Num(Has(b.stas[i], f))
  {
    CountsAny(b, f);
  }

  /** It is written only together with the protection bits: a step from a state where it is right leaves
      it right exactly when the step rewrites the element or leaves the question as it was. */
  lemma BarkerExactly(g: Config, b: Bss, e: Event)
    requires g.erpOn && Inv(g, b) && BarkerRight(b)
    ensures BarkerRight(Apply(g, b, e)) <==> Rewrites(b, e) || !TurnsBarker(b, e)
  {
    hide Inv, Apply, Rewrites, TurnsBarker;
    BarkerStep(g, b, e);
  }

  /** How many events there are up to the last one that rewrites the element; 0 if none does. */
  function LastRewrite(g: Config, b: Bss, es: seq<Event>): (w: nat)
    ensures w <= |es|
  {
    if es == [] then 0
    else
      var front := es[..|es| - 1];
      if Rewrites(Run(g, b, front), es[|es| - 1]) then |es| else LastRewrite(g, b, front)
  }

  /** MAIN: after any run the Barker bit says whether there was a station without short preambles when the
      element was last rewritten; so it is right exactly when the answer is the same now. */
  lemma BarkerOverRun(g: Config, b: Bss, es: seq<Event>)
    requires Start(b) && g.erpOn
    ensures var r, w := Run(g, b, es), LastRewrite(g, b, es);
      var atWrite := if w == 0 then b.erp.barker else Any(Run(g, b, es[..w]), NoShortPreamble);
      && (r.erp.barker <==> atWrite)
      && (BarkerRight(r) <==> (Any(r, NoShortPreamble) <==> atWrite))
  {
    hide Inv, Start, Any, Rewrites, Run, LastRewrite;
    BarkerWritten(g, b, es);
    RunKeeps(g, b, es);
    RunCounts(g, b, es, NoShortPreamble);
    RunCounts(g, b, es[..LastRewrite(g, b, es)], NoShortPreamble);
  }

  lemma RunCounts(g: Config, b: Bss, es: seq<Event>, f: Flag)
    requires Start(b)
    ensures Of(Run(g, b, es).c, f) > 0 <==> Any(Run(g, b, es), f)
  {
    hide Run, Any, Start;
    RunKeeps(g, b, es);
    CountsAny(Run(g, b, es), f);
  }

  lemma {:induction false} BarkerWritten(g: Config, b: Bss, es: seq<Event>)
    requires Start(b) && g.erpOn
    ensures var w := LastRewrite(g, b, es);
      Run(g, b, es).erp.barker <==> if w == 0 then b.erp.barker else Run(g, b, es[..w]).c.noShortPreamble > 0
    decreases |es|
  {
    hide Inv, Start, Apply, Rewrites;
    if es != [] {
      var n := |es| - 1;
      BarkerWritten(g, b, es[..n]);
      RunKeeps(g, b, es[..n]);
      BarkerStep(g, Run(g, b, es[..n]), es[n]);
      var w := LastRewrite(g, b, es[..n]);
      assert es[..n][..w] == es[..w] && es[..|es|] == es;
    }
  }

  /** So it can go stale: the first station without short preambles, not being a non-ERP station,
      leaves it clear. */
  lemma BarkerCanBeStale(g: Config, b: Bss)
    requires Start(b) && |b.stas| > 0 && !b.erp.barker
    ensures var r := Apply(g, b, Join(0, Caps(false, false, true, true, true, true)));
      r.c.noShortPreamble == 1 && !r.erp.barker
  {
    hide OpModeAfter;
    var k := Caps(false, false, true, true, true, true);
    assert b.stas[0] == NEW_STA && Joined(NEW_STA, k).noShortPreamble && !Joined(NEW_STA, k).nonErp;
  }
}
