/** Runs of the sounding scheduler: which events reach it, what every reachable state keeps. */
module BeamformingRun {
  import opened Beamforming

  // ---------------------------------------------------------------- the events

  datatype Event =
    | Tick                      // sounding_timer fires
    | Timeout                   // sounding_timeout_timer fires
    | Result(ok: bool)          // firmware reports the end of a sounding
    | Work                      // the command thread takes one command
    | Traffic(want: seq<bool>)  // rtw_bf_update_traffic
    | Scan(on: bool)            // a site survey starts or ends
    | Hardware(idx: nat, ready: bool)

  /** _sounding_force_stop */
  function ForceStop(s: Sounding): Sounding {
    if s.phase.SuStart? || s.phase.MuStart? then s.(timer := false, queue := s.queue + [End(false)])
    else s.(running := s.running - 1, phase := Init, psDenied := false)
  }

  /** _sounding_timer_handler */
  function OnTick(s: Sounding): Sounding {
    if s.phase.Idle? then s
    else if s.running == 0 then s.(phase := Init, delay := 0, running := s.running + 1, queue := s.queue + [Start])
    else
      var delay := if s.delay != 0xFF then s.delay + 1 else s.delay;
      if delay > 3 then ForceStop(s.(delay := delay)) else s.(delay := delay)
  }

  /** _sounding_timeout_timer_handler */
  function OnTimeout(s: Sounding): Sounding
    requires Shape(s)
  {
    var s1 := s.(timer := false);
    if s.phase.SuStart? then
      s1.(phase := TimedOut, entries := s.entries[s.suCur := s.entries[s.suCur].(timedOut := true)],
          queue := s.queue + [Start])
    else if s.phase.MuStart? then s1.(phase := TimedOut, queue := s.queue + [Start])
    else s1
  }

  /** One entry of rtw_bf_update_traffic. */
  function Wanted(e: Bfee, want: bool): Bfee {
    if !e.used || want == e.apply then e
    else if want then e.(apply := true, soundCnt := 0)
    else e.(apply := false, delete := true, soundCnt := 0)
  }

  function OnTraffic(s: Sounding, want: seq<bool>): Sounding
    requires |want| == |s.entries|
  {
    var es := seq(|s.entries|, i requires 0 <= i < |s.entries| => Wanted(s.entries[i], want[i]));
    s.(entries := es, phase := if es != s.entries && s.phase.Idle? then Init else s.phase)
  }

  /** rtw_bf_cmd_hdl on the head of the command queue. */
  ghost function OnWork(s: Sounding): Sounding
    requires Shape(s) && s.queue != []
  {
    var s1 := s.(queue := s.queue[1..]);
    match s.queue[0]
    case Start => Handler(s1)
    case End(ok) => Down(s1, ok)
    case Leave(_) => s1
  }

  ghost function Step(s: Sounding, e: Event): Sounding
    requires Shape(s) && Possible(s, e)
  {
    match e
    case Tick => OnTick(s)
    case Timeout => OnTimeout(s)
    case Result(ok) => s.(timer := false, queue := s.queue + [End(ok)])
    case Work => OnWork(s)
    case Traffic(want) => OnTraffic(s, want)
    case Scan(on) => s.(scanning := on)
    case Hardware(i, ready) => s.(entries := s.entries[i := s.entries[i].(ready := ready)])
  }

  ghost predicate Possible(s: Sounding, e: Event)
    requires Shape(s)
  {
    match e
    case Timeout => s.timer
    case Work => s.queue != []
    case Traffic(want) => |want| == |s.entries|
    case Hardware(i, _) => i < |s.entries|
    case _ => true
  }

  /** Runs the invariant speaks about: no beamformee leaves, and a stuck period is force-stopped
      only while a sounding is on the air. */
  ghost predicate Calm(s: Sounding, e: Event)
    requires Shape(s) && Possible(s, e)
  {
    && (e.Work? ==> !s.queue[0].Leave?)
    && (e.Tick? && ForceStops(s) ==> OnAir(s))
  }

  predicate OnAir(s: Sounding) { s.phase.SuStart? || s.phase.MuStart? }

  /** The tick that finds a period still running for the fourth time or later. */
  predicate ForceStops(s: Sounding) { !s.phase.Idle? && s.running != 0 && s.delay >= 3 }

  // ---------------------------------------------------------------- the invariant

  function Starts(q: seq<Cmd>): nat {
    if q == [] then 0 else (if q[0].Start? then 1 else 0) + Starts(q[1..])
  }

  predicate EndQueued(q: seq<Cmd>) { End(true) in q || End(false) in q }

  predicate InPeriod(s: Sounding) { !s.phase.Idle? && !s.phase.Init? }

  /** Exactly one thing will carry the period on: a queued START, or a sounding on the air whose
      timer is armed or whose end is queued.  With no period running there is neither. */
  predicate OneContinuation(s: Sounding) {
    if s.running == 1 then
      if OnAir(s) then Starts(s.queue) == 0 && (s.timer || EndQueued(s.queue))
      else Starts(s.queue) == 1 && (s.phase.Init? || s.phase.TimedOut?)
    else s.running == 0 && Starts(s.queue) == 0 && (s.phase.Idle? || s.phase.Init?)
  }

  function SuPart(plan: seq<nat>): (r: seq<Sent>)
    ensures |r| == |plan|
  {
    seq(|plan|, i requires 0 <= i < |plan| => Su(plan[i]))
  }

  /** What a whole period sends: every listed SU entry in list order, then the MU group. */
  function Full(s: Sounding): seq<Sent> {
    SuPart(s.plan) + if s.muPlanned then [Mu] else []
  }

  predicate MuSent(s: Sounding) { s.sent != [] && s.sent[|s.sent| - 1].Mu? }

  function SuCount(s: Sounding): nat { if MuSent(s) then |s.sent| - 1 else |s.sent| }

  ghost predicate PlanOk(s: Sounding) {
    Ordered(s.plan, MAX_ENTRIES) && |s.plan| <= MAX_SU
  }

  /** How far the running period is: the first SuCount planned entries have been sounded. */
  ghost predicate Progress(s: Sounding)
    requires Shape(s) && PlanOk(s)
  {
    && SuCount(s) <= |s.plan| && s.suList == Pad(s.plan, MAX_SU)
    && s.sent == SuPart(s.plan[..SuCount(s)]) + (if MuSent(s) then [Mu] else [])
    && (forall i :: 0 <= i < |s.plan| ==> (s.entries[s.plan[i]].sounding <==> i < SuCount(s)))
    && (if MuSent(s) then SuCount(s) == |s.plan| && s.muPlanned && s.muCnt == 0 else s.muPlanned <==> s.muCnt > 0)
    && (s.phase.SuStart? ==> !MuSent(s) && SuCount(s) > 0 && s.suCur == s.plan[SuCount(s) - 1])
    && (s.phase.MuStart? || s.phase.MuDown? ==> MuSent(s))
  }

  ghost predicate Inv(s: Sounding) {
    && Shape(s) && PlanOk(s) && OneContinuation(s)
    && (s.psDenied <==> InPeriod(s))
    && (if InPeriod(s) then Progress(s) else s.sent == Full(s))
    && (s.phase.SuStart? ==> !s.entries[s.suCur].timedOut)
  }

  // ---------------------------------------------------------------- one period

  /** A state in which a handler runs: its continuation has been taken, none is pending. */
  ghost predicate Taken(s: Sounding) {
    Shape(s) && PlanOk(s) && s.running == 1 && Starts(s.queue) == 0
  }

  /** The SU list has used entries only, and listing touches neither use nor sounding flags. */
  ghost predicate Fresh(es: seq<Bfee>, l: Listing) {
    && |l.entries| == |es|
    && (forall i {:trigger l.su[i]} :: 0 <= i < |l.su| ==> l.su[i] < |es| && es[l.su[i]].used)
    && (forall k {:trigger l.entries[k]} :: 0 <= k < |es| ==>
          l.entries[k].sounding == es[k].sounding && l.entries[k].used == es[k].used)
  }

  lemma {:induction false} ListingFresh(es: seq<Bfee>, n: nat, minPeriod: nat)
    requires n <= |es| && minPeriod > 0
    ensures Fresh(es, ListEntries(es, n, minPeriod))
    decreases n
  {
    hide ListEntry;
    if n > 0 {
      ListingFresh(es, n - 1, minPeriod);
      OneListed(es, ListEntries(es, n - 1, minPeriod), n - 1, minPeriod);
    }
  }

  lemma OneListed(es: seq<Bfee>, l: Listing, i: nat, minPeriod: nat)
    requires Fresh(es, l) && i < |es| && minPeriod > 0
    ensures Fresh(es, ListEntry(l, i, minPeriod))
  {
    hide ListEntry;
    ListEntryAt(l, i, minPeriod);
  }

  /** Listing an entry neither sounds it nor touches another one. */
  lemma ListEntryAt(l: Listing, i: nat, minPeriod: nat)
    requires i < |l.entries| && minPeriod > 0
    ensures var r := ListEntry(l, i, minPeriod);
      && r.entries == l.entries[i := r.entries[i]]
      && r.entries[i].sounding == l.entries[i].sounding && r.entries[i].used == l.entries[i].used
      && (r.su == l.su || (r.su == l.su + [i] && l.entries[i].used))
  {
    assert l.entries == l.entries[i := l.entries[i]];
  }

  /** What is listed is ordered, fits, and is not sounded yet. */
  lemma ListedFresh(s: Sounding)
    requires Shape(s) && s.phase.Init?
    ensures var r, l := Relisted(s), Listed(s);
      && Ordered(l.su, MAX_ENTRIES) && |l.su| <= MAX_SU && r.suList == Pad(l.su, MAX_SU) && r.muCnt == |l.mu|
      && (forall i :: 0 <= i < |l.su| ==> !r.entries[l.su[i]].sounding)
  {
    hide ListEntries, ListEntry, Pad;
    var es := ResetEntries(s.entries);
    ListingShape(es, MAX_ENTRIES, s.minPeriod);
    ListingFresh(es, MAX_ENTRIES, s.minPeriod);
  }

  /** A period that begins has sounded nothing of what it lists. */
  lemma BeginProgress(s: Sounding)
    requires Taken(s) && s.phase.Init?
    ensures var b := Begin(s); b.1 ==> Taken(b.0) && Progress(b.0) && b.0.psDenied
  {
    hide ListEntries, ListEntry, Pad, ResetEntries, Listed, Relisted, Starts;
    ListedFresh(s);
  }

  /** One that does not begin is over. */
  lemma BeginStops(s: Sounding)
    requires Taken(s) && s.phase.Init? && s.sent == Full(s) && !s.psDenied && !Begin(s).1
    ensures Inv(Begin(s).0)
  {
    hide ListEntries, ListEntry, Pad, ResetEntries, Listed, Relisted, Starts, Progress;
  }

  /** The first unsounded listed entry is the next planned one. */
  lemma NextSuIsNext(s: Sounding)
    requires Shape(s) && PlanOk(s) && Progress(s)
    ensures NextSu(s, 0) == if SuCount(s) < |s.plan| then SuCount(s) else MAX_SU
  {
    NextSuFrom(s, 0);
  }

  lemma {:induction false} NextSuFrom(s: Sounding, i: nat)
    requires Shape(s) && PlanOk(s) && Progress(s) && i <= MAX_SU
    requires i <= SuCount(s)
    ensures NextSu(s, i) == if SuCount(s) < |s.plan| then SuCount(s) else MAX_SU
    decreases MAX_SU - i
  {
    if i < |s.plan| {
      assert s.suList[i] == s.plan[i];
      if i < SuCount(s) { NextSuFrom(s, i + 1); }
    } else {
      NotListedEnds(s, i);
    }
  }

  lemma {:induction false} NotListedEnds(s: Sounding, i: nat)
    requires Shape(s) && i <= MAX_SU && forall k :: i <= k < MAX_SU ==> s.suList[k] == NOT_LISTED
    ensures NextSu(s, i) == MAX_SU
    decreases MAX_SU - i
  {
    if i < MAX_SU { NotListedEnds(s, i + 1); }
  }

  lemma OneMoreSu(plan: seq<nat>, p: nat)
    requires p < |plan|
    ensures SuPart(plan[..p + 1]) == SuPart(plan[..p]) + [Su(plan[p])]
  {
  }

  /** Starting the next planned SU entry, before anything ends it. */
  lemma StartSuProgress(s: Sounding)
    requires Taken(s) && Progress(s) && s.psDenied && SuCount(s) < |s.plan|
    ensures var p := SuCount(s);
            var t := StartSu(s, s.plan[p]).(sent := s.sent + [Su(s.plan[p])]);
            && s.suList[p] == s.plan[p]
            && Taken(t) && Progress(t) && t.psDenied && t.phase.SuStart? && !t.entries[t.suCur].timedOut
  {
    hide Starts;
    var p := SuCount(s);
    var t := StartSu(s, s.plan[p]).(sent := s.sent + [Su(s.plan[p])]);
    OneMoreSu(s.plan, p);
    assert SuCount(t) == p + 1 && !MuSent(t);
  }

  lemma {:induction false} MarkMuKeeps(es: seq<Bfee>, muList: seq<nat>, n: nat)
    requires n <= |muList| && forall i :: 0 <= i < n ==> muList[i] < |es|
    ensures forall k :: 0 <= k < |es| && es[k].sounding ==> MarkMu(es, muList, n)[k].sounding
  {
    if n > 0 { MarkMuKeeps(es, muList, n - 1); }
  }

  /** With every SU entry sounded: the MU group goes out, or the period is over. */
  lemma LastProgress(s: Sounding)
    requires Taken(s) && Progress(s) && s.psDenied && SuCount(s) == |s.plan|
    ensures Inv(Advance(s))
  {
    NextSuIsNext(s);
    hide Inv, Progress, Taken, NextSu;
    if s.muCnt > 0 { MuGoesOut(s); } else { PeriodOver(s); }
  }

  lemma MuGoesOut(s: Sounding)
    requires Taken(s) && Progress(s) && s.psDenied && SuCount(s) == |s.plan| && s.muCnt > 0
    ensures Inv(s.(phase := MuStart, entries := MarkMu(s.entries, s.muList, s.muCnt), muCnt := 0,
                   sent := s.sent + [Mu], timer := true))
  {
    hide MarkMu, Starts;
    MarkMuKeeps(s.entries, s.muList, s.muCnt);
  }

  lemma PeriodOver(s: Sounding)
    requires Taken(s) && Progress(s) && s.psDenied && SuCount(s) == |s.plan| && s.muCnt == 0
    ensures Inv(s.(running := s.running - 1, phase := Init, psDenied := false))
  {
    hide Starts;
    assert s.plan[..|s.plan|] == s.plan;
  }

  lemma {:induction false} HandlerKeeps(s: Sounding)
    requires Taken(s) && (s.phase.Init? || s.phase.SuDown? || s.phase.MuDown? || s.phase.TimedOut?)
    requires s.psDenied <==> InPeriod(s)
    requires if s.phase.Init? then s.sent == Full(s) else Progress(s)
    ensures Inv(Handler(s))
    decreases InitFlag(s), Unsounded(s, 0), 1
  {
    hide Inv, Progress, Begin, Advance;
    if s.phase.Init? {
      BeginProgress(s);
      if Begin(s).1 { AdvanceKeeps(Begin(s).0); } else { BeginStops(s); }
    } else {
      AdvanceKeeps(s);
    }
  }

  lemma {:induction false} AdvanceKeeps(s: Sounding)
    requires Taken(s) && Progress(s) && s.psDenied
    ensures Inv(Advance(s))
    decreases 0, Unsounded(s, 0), 0
  {
    hide Inv, Progress, StartSu, Down, NextSu, Unsounded;
    NextSuIsNext(s);
    CountInPlan(s);
    var p := SuCount(s);
    if p < |s.plan| {
      StartSuProgress(s);
      StartSuLess(s, p);
      var t := StartSu(s, s.plan[p]).(sent := s.sent + [Su(s.plan[p])]);
      if t.entries[t.suCur].delete { DownKeeps(t, false); } else { SuGoesOut(t); }
    } else {
      LastProgress(s);
    }
  }

  lemma CountInPlan(s: Sounding)
    requires Taken(s) && Progress(s)
    ensures SuCount(s) <= |s.plan| <= MAX_SU
  {
  }

  lemma SuGoesOut(t: Sounding)
    requires Taken(t) && Progress(t) && t.psDenied && t.phase.SuStart? && !t.entries[t.suCur].timedOut
    ensures Inv(t.(timer := true))
  {
    hide Starts, Pad, SuPart;
  }

  /** The end of a sounding on the air, whether or not its timer still runs. */
  lemma {:induction false} DownKeeps(s: Sounding, ok: bool)
    requires Taken(s) && Progress(s) && s.psDenied && OnAir(s)
    requires s.phase.SuStart? ==> !s.entries[s.suCur].timedOut
    ensures Inv(Down(s, ok))
    decreases 0, Unsounded(s, 0), 2
  {
    var d := EndOne(s, ok);
    SameUnsounded(s, d.0, 0);
    StartsAppend(s.queue, Leave(s.suCur));
    HandlerKeeps(d.0);
  }

  lemma {:induction false} StartsAppend(q: seq<Cmd>, c: Cmd)
    ensures Starts(q + [c]) == Starts(q) + if c.Start? then 1 else 0
  {
    if q == [] {
      assert [c][1..] == [];
    } else {
      assert (q + [c])[1..] == q[1..] + [c];
      StartsAppend(q[1..], c);
    }
  }

  // ---------------------------------------------------------------- every event

  /** The invariant minus its first line, on states that share the schedule's fields. */
  lemma SameSchedule(s: Sounding, t: Sounding)
    requires Inv(s) && OneContinuation(t)
    requires t == s.(running := t.running, delay := t.delay, timer := t.timer, queue := t.queue, scanning := t.scanning)
    ensures Inv(t)
  {
    hide OneContinuation;
  }

  lemma TickKeeps(s: Sounding)
    requires Inv(s) && (ForceStops(s) ==> OnAir(s))
    ensures Inv(OnTick(s))
  {
    TickContinues(s);
    SameSchedule(s, OnTick(s));
  }

  lemma TickContinues(s: Sounding)
    requires Inv(s) && (ForceStops(s) ==> OnAir(s))
    ensures OneContinuation(OnTick(s))
    ensures var t := OnTick(s); t == s.(running := t.running, delay := t.delay, timer := t.timer, queue := t.queue)
  {
    hide Progress, PlanOk, Full, Shape, Starts;
    StartsAppend(s.queue, Start);
    StartsAppend(s.queue, End(false));
  }

  lemma TimeoutKeeps(s: Sounding)
    requires Inv(s) && s.timer
    ensures Inv(OnTimeout(s))
  {
    hide Progress, Starts;
    StartsAppend(s.queue, Start);
    if OnAir(s) {
      TimeoutProgress(s);
    } else {
      SameSchedule(s, OnTimeout(s));
    }
  }

  /** What has been sent of the schedule does not change when the sounding on the air times out. */
  lemma TimeoutProgress(s: Sounding)
    requires Shape(s) && PlanOk(s) && Progress(s) && OnAir(s)
    ensures Shape(OnTimeout(s)) && PlanOk(OnTimeout(s)) && Progress(OnTimeout(s))
  {
    hide SuPart, Pad;
  }

  lemma ResultKeeps(s: Sounding, ok: bool)
    requires Inv(s)
    ensures Inv(s.(timer := false, queue := s.queue + [End(ok)]))
  {
    StartsAppend(s.queue, End(ok));
    SameSchedule(s, s.(timer := false, queue := s.queue + [End(ok)]));
  }

  lemma WorkKeeps(s: Sounding)
    requires Inv(s) && s.queue != [] && !s.queue[0].Leave?
    ensures Inv(OnWork(s))
  {
    var s1 := s.(queue := s.queue[1..]);
    if s.queue[0].Start? {
      HandlerKeeps(s1);
    } else if OnAir(s) {
      DownKeeps(s1, s.queue[0].ok);
    }
  }

  lemma TrafficKeeps(s: Sounding, want: seq<bool>)
    requires Inv(s) && |want| == |s.entries|
    ensures Inv(OnTraffic(s, want))
  {
    var t := OnTraffic(s, want);
    assert forall k :: 0 <= k < MAX_ENTRIES ==>
      t.entries[k].sounding == s.entries[k].sounding && t.entries[k].timedOut == s.entries[k].timedOut;
  }

  lemma ScanKeeps(s: Sounding, on: bool)
    requires Inv(s)
    ensures Inv(s.(scanning := on))
  {
  }

  lemma HardwareKeeps(s: Sounding, i: nat, ready: bool)
    requires Inv(s) && i < |s.entries|
    ensures Inv(s.(entries := s.entries[i := s.entries[i].(ready := ready)]))
  {
    hide Inv;
    FlagsKeep(s, s.(entries := s.entries[i := s.entries[i].(ready := ready)]));
  }

  /** Only the sounding and the time-out flags of the entries matter. */
  lemma FlagsKeep(s: Sounding, t: Sounding)
    requires Inv(s) && t == s.(entries := t.entries) && |t.entries| == |s.entries|
    requires forall k {:trigger t.entries[k]} :: 0 <= k < |s.entries| ==>
      t.entries[k].sounding == s.entries[k].sounding && t.entries[k].timedOut == s.entries[k].timedOut
    ensures Inv(t)
  {
    hide SuPart, Pad, Starts;
  }

  /** MAIN: every event keeps the one continuation, the schedule and the entry flags. */
  lemma StepKeeps(s: Sounding, e: Event)
    requires Inv(s) && Shape(s) && Possible(s, e) && Calm(s, e)
    ensures Inv(Step(s, e))
  {
    hide Inv, Shape, OnTick, OnTimeout, OnWork, OnTraffic, OnAir, ForceStops;
    match e
    case Tick => TickKeeps(s);
    case Timeout => TimeoutKeeps(s);
    case Result(ok) => ResultKeeps(s, ok);
    case Work => WorkKeeps(s);
    case Traffic(want) => TrafficKeeps(s, want);
    case Scan(on) => ScanKeeps(s, on);
    case Hardware(i, ready) => HardwareKeeps(s, i, ready);
  }

  ghost predicate Starting(s: Sounding) {
    && Shape(s) && s.phase.Idle? && s.running == 0 && s.queue == [] && !s.psDenied
    && s.plan == [] && !s.muPlanned && s.sent == []
  }

  /** The states a calm run passes through. */
  ghost predicate Reaches(s: Sounding, es: seq<Event>, t: Sounding) {
    if es == [] then s == t
    else
      var front, last := es[..|es| - 1], es[|es| - 1];
      exists m :: Reaches(s, front, m) && Shape(m) && Possible(m, last) && Calm(m, last) && t == Step(m, last)
  }

  lemma {:induction false} RunKeeps(s: Sounding, es: seq<Event>, t: Sounding)
    requires Starting(s) && Reaches(s, es, t)
    ensures Inv(t)
    decreases |es|
  {
    if es != [] {
      var front, last := es[..|es| - 1], es[|es| - 1];
      var m :| Reaches(s, front, m) && Shape(m) && Possible(m, last) && Calm(m, last) && t == Step(m, last);
      RunKeeps(s, front, m);
      StepKeeps(m, last);
    }
  }

  /** MAIN: at every moment of a run the period has sent an initial part of its schedule, and
      the whole of it once the period is over: each listed SU entry once, in list order, then
      the MU group at most once. */
  lemma ScheduleFollowed(s: Sounding, es: seq<Event>, t: Sounding)
    requires Starting(s) && Reaches(s, es, t)
    ensures t.sent <= Full(t) && (t.running == 0 ==> t.sent == Full(t))
    ensures forall i, j :: 0 <= i < j < |t.sent| ==> t.sent[i] != t.sent[j]
  {
    RunKeeps(s, es, t);
    assert forall i :: 0 <= i < |t.plan| ==> SuPart(t.plan)[i] == Su(t.plan[i]);
    if InPeriod(t) {
      assert SuPart(t.plan[..SuCount(t)]) == SuPart(t.plan)[..SuCount(t)];
    }
    assert t.sent <= Full(t);
  }

  /** MAIN: the early return on bSoundingTimeout is never taken, and a handled end always goes on. */
  lemma EndAlwaysGoesOn(s: Sounding, es: seq<Event>, t: Sounding, ok: bool)
    requires Starting(s) && Reaches(s, es, t) && OnAir(t)
    ensures Inv(t) && EndOne(t, ok).1
  {
    RunKeeps(s, es, t);
  }

  /** MAIN: a forced stop keeps the invariant exactly when a sounding is on the air.  Otherwise it
      takes sounding_running down while the queued START is still to come. */
  lemma ForcedStopExact(s: Sounding)
    requires Inv(s) && ForceStops(s)
    ensures Inv(OnTick(s)) <==> OnAir(s)
  {
    if OnAir(s) {
      TickKeeps(s);
    } else {
      assert OnTick(s).running == 0 && Starts(OnTick(s).queue) == 1;
    }
  }

  /** A calm run after which the next tick stops the period by force with nothing on the air: the traffic
      handler asks for sounding, and the command thread does not get to the START for four ticks. */
  lemma StuckRun() returns (es: seq<Event>, s: Sounding, t: Sounding)
    ensures Starting(s) && Reaches(s, es, t) && ForceStops(t) && !OnAir(t)
    ensures OnTick(t).running == 0 && Starts(OnTick(t).queue) == 1
  {
    hide Reaches, Inv, QuietState, Step, OnTick, Calm, Possible, ForceStops, OnAir, Shape, Starting, Starts, Waits;
    s := QuietState();
    Quiet(s);
    var want := seq(MAX_ENTRIES, i => i == 0);
    es, t := Begun(s);
    TrafficWakes(s, want);
    es, t := Go(s, es, t, Traffic(want));
    WaitsOn(t, 0);
    es, t := Go(s, es, t, Tick);
    WaitsOn(t, 1);
    es, t := Go(s, es, t, Tick);
    WaitsOn(t, 2);
    es, t := Go(s, es, t, Tick);
    WaitsOn(t, 3);
    es, t := Go(s, es, t, Tick);
    WaitsLong(t);
  }

  /** The period wants to start, and n ticks have gone by. */
  ghost predicate Waits(t: Sounding, n: nat) {
    && Shape(t) && t.phase.Init?
    && (if n == 0 then t.running == 0 && t.queue == [] else t.running == 1 && t.queue == [Start] && t.delay == n - 1)
  }

  lemma WaitsOn(t: Sounding, n: nat)
    requires Waits(t, n) && n < 4
    ensures Shape(t) && Possible(t, Tick) && Calm(t, Tick) && Waits(Step(t, Tick), n + 1)
  {
    assert [] + [Start] == [Start];
  }

  lemma WaitsLong(t: Sounding)
    requires Waits(t, 4)
    ensures ForceStops(t) && !OnAir(t) && OnTick(t).running == 0 && Starts(OnTick(t).queue) == 1
  {
    assert [Start][1..] == [];
  }

  /** A start state with one beamformee in use. */
  function QuietState(): Sounding {
    var e := Bfee(true, true, false, true, false, false, false, 1, 0, false, false, false, 0);
    Sounding(seq(MAX_ENTRIES, _ => e), Idle, seq(MAX_SU, _ => NOT_LISTED), seq(MAX_MU, _ => NOT_LISTED), NOT_LISTED, 0,
             1, 0, 0, 0, false, false, false, [], [], false, [])
  }

  lemma Quiet(s: Sounding)
    requires s == QuietState()
    ensures Starting(s)
  {
  }

  lemma TrafficWakes(s: Sounding, want: seq<bool>)
    requires s == QuietState() && |want| == MAX_ENTRIES && want[0]
    ensures Shape(s) && Possible(s, Traffic(want)) && Calm(s, Traffic(want)) && Waits(Step(s, Traffic(want)), 0)
  {
    assert OnTraffic(s, want).entries[0].apply && !s.entries[0].apply;
  }

  lemma Begun(s: Sounding) returns (es: seq<Event>, t: Sounding)
    requires Starting(s)
    ensures es == [] && t == s && Reaches(s, es, t)
  {
    es, t := [], s;
  }

  lemma Go(s: Sounding, es: seq<Event>, t: Sounding, e: Event) returns (fs: seq<Event>, u: Sounding)
    requires Reaches(s, es, t) && Shape(t) && Possible(t, e) && Calm(t, e)
    ensures u == Step(t, e) && fs == es + [e] && Reaches(s, fs, u)
  {
    fs, u := es + [e], Step(t, e);
    assert fs[..|fs| - 1] == es;
  }
}
