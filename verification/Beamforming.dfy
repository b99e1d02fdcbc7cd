/** The sounding scheduler of core/rtw_beamforming.c (version 2): what each handler does to the
    scheduler's state.  A START command picks the next beamformee, a timer or a firmware event
    ends it, and the two call each other directly. */
module Beamforming {

  const MAX_SU := 2
  const MAX_MU := 6
  const MAX_ENTRIES := 8
  const NOT_LISTED := 0xFF

  datatype Phase = Idle | Init | SuStart | SuDown | MuStart | MuDown | TimedOut

  /** One beamformee_entry: the fields the scheduler reads or writes. */
  datatype Bfee = Bfee(
    used: bool, ready: bool, mu: bool, su: bool,
    apply: bool, delete: bool, suspended: bool,
    period: nat, soundCnt: nat, candidate: bool,
    sounding: bool, timedOut: bool, failCnt: nat)

  datatype Cmd = Start | End(ok: bool) | Leave(idx: nat)

  /** One sounding sent on the air. */
  datatype Sent = Su(idx: nat) | Mu

  /** beamforming_info and sounding_info, the command queue, the timeout timer, and the history
      of the current period: what was planned and what has been sent. */
  datatype Sounding = Sounding(
    entries: seq<Bfee>, phase: Phase,
    suList: seq<nat>, muList: seq<nat>, suCur: nat, muCnt: nat,
    minPeriod: nat, running: int, waitCnt: nat, delay: nat,
    scanning: bool, psDenied: bool, timer: bool, queue: seq<Cmd>,
    plan: seq<nat>, muPlanned: bool, sent: seq<Sent>)

  ghost predicate Shape(s: Sounding) {
    && |s.entries| == MAX_ENTRIES && |s.suList| == MAX_SU && |s.muList| == MAX_MU
    && s.suCur <= NOT_LISTED && (s.phase.SuStart? ==> s.suCur < MAX_ENTRIES)
    && s.muCnt <= MAX_MU && (forall i :: 0 <= i < s.muCnt ==> s.muList[i] < MAX_ENTRIES)
    && s.minPeriod > 0
  }

  // ---------------------------------------------------------------- building the lists

  function Pad(s: seq<nat>, n: nat): (r: seq<nat>)
    ensures |s| <= n ==> |r| == n
  {
    s + seq(if |s| <= n then n - |s| else 0, _ => NOT_LISTED)
  }

  /** _sounding_reset_vars: the entry flags of the last period. */
  function Rested(e: Bfee): Bfee {
    if e.used && e.sounding then e.(sounding := false, candidate := false) else e
  }

  function ResetEntries(es: seq<Bfee>): (r: seq<Bfee>)
    ensures |r| == |es|
    ensures forall i {:trigger r[i]} :: 0 <= i < |es| ==> r[i] == Rested(es[i])
  {
    seq(|es|, i requires 0 <= i < |es| => Rested(es[i]))
  }

  datatype Listing = Listing(entries: seq<Bfee>, su: seq<nat>, mu: seq<nat>, notReady: nat)

  /** One turn of the loop of _sounding_get_list. */
  function ListEntry(l: Listing, i: nat, minPeriod: nat): (r: Listing)
    requires i < |l.entries| && minPeriod > 0
    ensures |r.entries| == |l.entries|
  {
    var e := l.entries[i];
    if !e.used then l
    else if !e.ready then l.(notReady := l.notReady + 1)
    else
      var e1 := if e.soundCnt > 0 then e.(soundCnt := e.soundCnt - 1) else e;
      var l1 := l.(entries := l.entries[i := e1]);
      var e2 := e1.(candidate := true, soundCnt := (e1.period / minPeriod) % 256);
      if e.soundCnt > 0 && e1.soundCnt > 0 then l1
      else if e1.mu then
        if |l.mu| >= MAX_MU || !e1.apply then l1
        else l1.(entries := l.entries[i := e2], mu := l.mu + [i])
      else if e1.su then
        if |l.su| >= MAX_SU then l1
        else if e1.delete then l1.(su := l.su + [i])
        else if e1.apply && !e1.suspended then l1.(entries := l.entries[i := e2], su := l.su + [i])
        else l1
      else l1
  }

  /** The loop over the first n entries. */
  function ListEntries(es: seq<Bfee>, n: nat, minPeriod: nat): (r: Listing)
    requires n <= |es| && minPeriod > 0
    ensures |r.entries| == |es|
  {
    if n == 0 then Listing(es, [], [], 0) else ListEntry(ListEntries(es, n - 1, minPeriod), n - 1, minPeriod)
  }

  // ---------------------------------------------------------------- the handlers

  /** Position of the first listed SU entry not sounded yet. */
  function NextSu(s: Sounding, i: nat): (r: nat)
    requires Shape(s) && i <= MAX_SU
    ensures i <= r <= MAX_SU
    ensures r < MAX_SU ==> s.suList[r] < MAX_ENTRIES && !s.entries[s.suList[r]].sounding
    decreases MAX_SU - i
  {
    if i == MAX_SU then i
    else if s.suList[i] < MAX_ENTRIES && !s.entries[s.suList[i]].sounding then i
    else NextSu(s, i + 1)
  }

  /** Listed SU positions from i on whose entry is not sounded yet. */
  ghost function Unsounded(s: Sounding, i: nat): nat
    requires Shape(s) && i <= MAX_SU
    decreases MAX_SU - i
  {
    if i == MAX_SU then 0
    else (if s.suList[i] < MAX_ENTRIES && !s.entries[s.suList[i]].sounding then 1 else 0) + Unsounded(s, i + 1)
  }

  /** The INIT part of _sounding_handler: reset, list, and the reasons not to start. */
  function Begin(s: Sounding): (r: (Sounding, bool))
    requires Shape(s) && s.phase.Init?
    ensures Shape(r.0)
    ensures r.1 ==> r.0.phase.Init?
  {
    Admit(Relisted(s), Listed(s))
  }

  /** What is listed for a new period. */
  function Listed(s: Sounding): Listing
    requires |s.entries| == MAX_ENTRIES && s.minPeriod > 0
  {
    ListEntries(ResetEntries(s.entries), MAX_ENTRIES, s.minPeriod)
  }

  function Relisted(s: Sounding): (r: Sounding)
    requires Shape(s) && s.phase.Init?
    ensures Shape(r) && r == s.(entries := r.entries, suList := r.suList, muList := r.muList,
                                 suCur := NOT_LISTED, muCnt := r.muCnt)
  {
    ListingShape(ResetEntries(s.entries), MAX_ENTRIES, s.minPeriod);
    s.(entries := Listed(s).entries, suList := Pad(Listed(s).su, MAX_SU), muList := Pad(Listed(s).mu, MAX_MU),
       suCur := NOT_LISTED, muCnt := |Listed(s).mu|)
  }

  /** The reasons not to start, with the lists built. */
  function Admit(s: Sounding, l: Listing): (r: (Sounding, bool))
    ensures Shape(s) && !s.phase.SuStart? ==> Shape(r.0)
    ensures r.1 ==> r.0.phase == s.phase
  {
    if |l.su| + |l.mu| == 0 then
      if l.notReady == 0 then (s.(waitCnt := 0, phase := Idle, running := s.running - 1), false)
      else if s.waitCnt < 5 then (s.(waitCnt := s.waitCnt + 1, running := s.running - 1), false)
      else (s.(waitCnt := 0, phase := Idle, running := s.running - 1), false)
    else if s.scanning then (s.(waitCnt := 0, running := s.running - 1), false)
    else (s.(waitCnt := 0, psDenied := true, plan := l.su, muPlanned := l.mu != [], sent := []), true)
  }

  function StartSu(s: Sounding, idx: nat): (r: Sounding)
    requires Shape(s) && idx < MAX_ENTRIES
    ensures Shape(r) && r.suCur == idx
  {
    s.(suCur := idx, phase := SuStart,
       entries := s.entries[idx := s.entries[idx].(sounding := true, timedOut := false)])
  }

  function MarkMu(es: seq<Bfee>, muList: seq<nat>, n: nat): (r: seq<Bfee>)
    requires n <= |muList| && forall i :: 0 <= i < n ==> muList[i] < |es|
    ensures |r| == |es|
  {
    if n == 0 then es
    else
      var r := MarkMu(es, muList, n - 1);
      r[muList[n - 1] := r[muList[n - 1]].(sounding := true)]
  }

  ghost function InitFlag(s: Sounding): nat { if s.phase.Init? then 1 else 0 }

  /** _sounding_handler */
  ghost function Handler(s: Sounding): (r: Sounding)
    requires Shape(s)
    ensures Shape(r)
    decreases InitFlag(s), Unsounded(s, 0), 1
  {
    if !(s.phase.Init? || s.phase.SuDown? || s.phase.MuDown? || s.phase.TimedOut?) then s
    else if s.phase.Init? then
      var b := Begin(s);
      if b.1 then Advance(b.0) else b.0
    else Advance(s)
  }

  /** The rest of _sounding_handler: next SU entry, else the MU group, else the end. */
  ghost function Advance(s: Sounding): (r: Sounding)
    requires Shape(s)
    ensures Shape(r)
    decreases 0, Unsounded(s, 0), 0
  {
    var i := NextSu(s, 0);
    if i < MAX_SU then
      var s1 := StartSu(s, s.suList[i]);
      StartSuLess(s, i);
      if s1.entries[s1.suCur].delete then Down(s1.(sent := s.sent + [Su(s1.suCur)]), false)
      else s1.(sent := s.sent + [Su(s1.suCur)], timer := true)
    else if s.muCnt > 0 then
      s.(phase := MuStart, entries := MarkMu(s.entries, s.muList, s.muCnt), muCnt := 0,
         sent := s.sent + [Mu], timer := true)
    else s.(running := s.running - 1, phase := Init, psDenied := false)
  }

  /** The bookkeeping of a finished SU sounding on its entry.  The failure counter has five bits. */
  function Finished(e: Bfee, ok: bool): Bfee {
    if ok then e.(failCnt := 0)
    else if e.delete then e.(delete := false)
    else e.(failCnt := (e.failCnt + 1) % 32)
  }

  /** _beamforming_sounding_down up to its START_PERIOD: the new state, and whether it gets there. */
  function EndOne(s: Sounding, ok: bool): (r: (Sounding, bool))
    requires Shape(s)
    ensures Shape(r.0) && (r.1 ==> r.0.phase.MuDown? || r.0.phase.SuDown?)
    ensures r.0.suList == s.suList
    ensures forall k :: 0 <= k < MAX_ENTRIES ==> s.entries[k].sounding == r.0.entries[k].sounding
  {
    if s.phase.MuStart? then (s.(phase := MuDown), true)
    else if s.phase.SuStart? then
      var e := s.entries[s.suCur];
      var e1 := if e.timedOut then e.(timedOut := false) else Finished(e, ok);
      var dropped := !e.timedOut && !ok && !e.delete && e1.failCnt > 30;
      (s.(phase := SuDown, entries := s.entries[s.suCur := e1],
          queue := if dropped then s.queue + [Leave(s.suCur)] else s.queue), !e.timedOut)
    else (s, false)
  }

  /** _beamforming_sounding_down */
  ghost function Down(s: Sounding, ok: bool): (r: Sounding)
    requires Shape(s)
    ensures Shape(r)
    decreases 0, Unsounded(s, 0), 2
  {
    var d := EndOne(s, ok);
    SameUnsounded(s, d.0, 0);
    if d.1 then Handler(d.0) else d.0
  }

  // ---------------------------------------------------------------- termination

  lemma {:induction false} SameUnsounded(s: Sounding, t: Sounding, i: nat)
    requires Shape(s) && Shape(t) && i <= MAX_SU && s.suList == t.suList
    requires forall k :: 0 <= k < MAX_ENTRIES ==> s.entries[k].sounding == t.entries[k].sounding
    ensures Unsounded(s, i) == Unsounded(t, i)
    decreases MAX_SU - i
  {
    if i < MAX_SU { SameUnsounded(s, t, i + 1); }
  }

  /** Starting an entry never adds an unsounded one, and takes away the one started. */
  lemma {:induction false} FewerUnsounded(s: Sounding, t: Sounding, i: nat, p: nat)
    requires Shape(s) && Shape(t) && i <= MAX_SU && s.suList == t.suList
    requires forall k :: 0 <= k < MAX_ENTRIES ==> s.entries[k].sounding ==> t.entries[k].sounding
    requires p < MAX_SU && s.suList[p] < MAX_ENTRIES
    requires !s.entries[s.suList[p]].sounding && t.entries[s.suList[p]].sounding
    ensures Unsounded(t, i) <= Unsounded(s, i) && (i <= p ==> Unsounded(t, i) < Unsounded(s, i))
    decreases MAX_SU - i
  {
    if i < MAX_SU { FewerUnsounded(s, t, i + 1, p); }
  }

  lemma StartSuLess(s: Sounding, p: nat)
    requires Shape(s) && p < MAX_SU && s.suList[p] < MAX_ENTRIES && !s.entries[s.suList[p]].sounding
    ensures forall sent :: Unsounded(StartSu(s, s.suList[p]).(sent := sent), 0) < Unsounded(s, 0)
  {
    forall sent ensures Unsounded(StartSu(s, s.suList[p]).(sent := sent), 0) < Unsounded(s, 0) {
      FewerUnsounded(s, StartSu(s, s.suList[p]).(sent := sent), 0, p);
    }
  }

  /** The lists hold entry indices in increasing order, without repeats, and fit their arrays. */
  ghost predicate Ordered(l: seq<nat>, n: nat) {
    && (forall i :: 0 <= i < |l| ==> l[i] < n)
    && (forall i, j :: 0 <= i < j < |l| ==> l[i] < l[j])
  }

  lemma {:induction false} ListingShape(es: seq<Bfee>, n: nat, minPeriod: nat)
    requires n <= |es| && minPeriod > 0
    ensures var l := ListEntries(es, n, minPeriod);
            Ordered(l.su, n) && Ordered(l.mu, n) && |l.su| <= MAX_SU && |l.mu| <= MAX_MU
    decreases n
  {
    if n > 0 {
      hide ListEntry;
      ListingShape(es, n - 1, minPeriod);
      OneMore(ListEntries(es, n - 1, minPeriod), n - 1, minPeriod);
    }
  }

  lemma OneMore(l: Listing, i: nat, minPeriod: nat)
    requires i < |l.entries| && minPeriod > 0
    ensures var r := ListEntry(l, i, minPeriod);
      && (r.su == l.su || (r.su == l.su + [i] && |l.su| < MAX_SU))
      && (r.mu == l.mu || (r.mu == l.mu + [i] && |l.mu| < MAX_MU))
  {
  }
}
