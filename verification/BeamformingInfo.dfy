/** The sounding handlers as they update struct beamforming_info in place, each proved to do
    what the step functions of Beamforming and BeamformingRun say. */
module BeamformingInfo {
  import opened Beamforming
  import opened BeamformingRun

  class SoundingInfo {
    var bfee: seq<Bfee>
    var suList: seq<nat>
    var muList: seq<nat>
    var phase: Phase
    var suCur: nat
    var muCnt: nat
    var minPeriod: nat
    var running: int
    var waitCnt: nat
    var delay: nat
    var scanning: bool
    var psDenied: bool
    var timer: bool
    var queue: seq<Cmd>
    ghost var plan: seq<nat>
    ghost var muPlanned: bool
    ghost var sent: seq<Sent>

    ghost function View(): Sounding
      reads this
    {
      Sounding(bfee, phase, suList, muList, suCur, muCnt, minPeriod, running, waitCnt, delay,
               scanning, psDenied, timer, queue, plan, muPlanned, sent)
    }

    /** _sounding_init */
    constructor (entries: seq<Bfee>, minPeriod: nat)
      requires |entries| == MAX_ENTRIES && minPeriod > 0
      ensures Starting(View()) && bfee == entries
    {
      bfee, suList, muList := entries, seq(MAX_SU, _ => NOT_LISTED), seq(MAX_MU, _ => NOT_LISTED);
      phase, suCur, muCnt, running, waitCnt, delay := Idle, NOT_LISTED, 0, 0, 0, 0;
      this.minPeriod := minPeriod;
      scanning, psDenied, timer, queue := false, false, false, [];
      plan, muPlanned, sent := [], false, [];
    }

    method ResetVars()
      requires Shape(View())
      modifies this`bfee, this`suList, this`muList, this`suCur, this`muCnt
      ensures bfee == ResetEntries(old(bfee))
      ensures suList == Pad([], MAX_SU) && muList == Pad([], MAX_MU)
      ensures suCur == NOT_LISTED && muCnt == 0
    {
      for i := 0 to MAX_ENTRIES
        invariant |bfee| == MAX_ENTRIES
        invariant forall k :: 0 <= k < i ==> bfee[k] == Rested(old(bfee)[k])
        invariant forall k :: i <= k < MAX_ENTRIES ==> bfee[k] == old(bfee)[k]
      {
        if bfee[i].used && bfee[i].sounding {
          bfee := bfee[i := bfee[i].(sounding := false, candidate := false)];
        }
      }
      suList, muList := seq(MAX_SU, _ => NOT_LISTED), seq(MAX_MU, _ => NOT_LISTED);
      suCur, muCnt := NOT_LISTED, 0;
    }

    /** _sounding_get_list: 0, -1 when nothing needs sounding, -2 when something was not ready. */
    method GetList() returns (ret: int)
      requires |bfee| == MAX_ENTRIES && minPeriod > 0
      requires suList == Pad([], MAX_SU) && muList == Pad([], MAX_MU)
      modifies this`bfee, this`suList, this`muList, this`muCnt
      ensures var l := ListEntries(old(bfee), MAX_ENTRIES, minPeriod);
              && bfee == l.entries && suList == Pad(l.su, MAX_SU) && muList == Pad(l.mu, MAX_MU)
              && muCnt == |l.mu|
              && ret == if |l.su| + |l.mu| > 0 then 0 else if l.notReady > 0 then -2 else -1
    {
      var suIdx: nat, muIdx: nat, notReady: nat := 0, 0, 0;
      for i := 0 to MAX_ENTRIES
        invariant Listed(ListEntries(old(bfee), i, minPeriod), suIdx, muIdx, notReady)
      {
        hide ListEntry, Pad, Listed, Ordered;
        ListingShape(old(bfee), i + 1, minPeriod);
        suIdx, muIdx, notReady := ListOne(i, suIdx, muIdx, notReady, ListEntries(old(bfee), i, minPeriod));
      }
      muCnt := muIdx;
      ret := 0;
      if suIdx + muIdx == 0 {
        ret := -1;
        if notReady > 0 { ret := -2; }
      }
    }

    ghost predicate Listed(l: Listing, suIdx: nat, muIdx: nat, notReady: nat)
      reads this
    {
      && bfee == l.entries && |bfee| == MAX_ENTRIES && suList == Pad(l.su, MAX_SU) && muList == Pad(l.mu, MAX_MU)
      && suIdx == |l.su| <= MAX_SU && muIdx == |l.mu| <= MAX_MU && notReady == l.notReady
    }

    /** The loop body of _sounding_get_list for entry i. */
    method ListOne(i: nat, suIdx0: nat, muIdx0: nat, notReady0: nat, ghost l: Listing)
      returns (suIdx: nat, muIdx: nat, notReady: nat)
      requires minPeriod > 0 && i < |l.entries|
      requires Listed(l, suIdx0, muIdx0, notReady0)
      modifies this`bfee, this`suList, this`muList
      ensures Listed(ListEntry(l, i, minPeriod), suIdx, muIdx, notReady)
    {
      hide Pad;
      suIdx, muIdx, notReady := suIdx0, muIdx0, notReady0;
      var e := bfee[i];
      if !e.used {
        return;
      }
      if !e.ready {
        notReady := notReady + 1;
        return;
      }
      if e.soundCnt > 0 {
        e := e.(soundCnt := e.soundCnt - 1);
        bfee := bfee[i := e];
        if e.soundCnt > 0 {
          return;
        }
      }
      if e.mu {
        if muIdx < MAX_MU && e.apply {
          bfee := bfee[i := e.(candidate := true, soundCnt := (e.period / minPeriod) % 256)];
          PadAppend(l.mu, i, MAX_MU);
          muList := muList[muIdx := i];
          muIdx := muIdx + 1;
        }
      } else if e.su {
        if suIdx < MAX_SU && (e.delete || (e.apply && !e.suspended)) {
          if !e.delete {
            bfee := bfee[i := e.(candidate := true, soundCnt := (e.period / minPeriod) % 256)];
          }
          PadAppend(l.su, i, MAX_SU);
          suList := suList[suIdx := i];
          suIdx := suIdx + 1;
        }
      }
    }

    /** _sounding_handler */
    method SoundingHandler()
      requires Shape(View())
      modifies this
      ensures View() == Handler(old(View()))
      decreases InitFlag(View()), Unsounded(View(), 0), 1
    {
      if phase != Init && phase != SuDown && phase != MuDown && phase != TimedOut {
        return;
      }
      if phase == Init {
        var go := BeginPeriod();
        if !go {
          return;
        }
      }
      StartNext();
    }

    /** Reset and list for a new period. */
    method PrepareLists() returns (ret: int)
      requires Shape(View())
      modifies this`bfee, this`suList, this`muList, this`suCur, this`muCnt
      ensures var l := ListEntries(ResetEntries(old(bfee)), MAX_ENTRIES, minPeriod);
              && bfee == l.entries && suList == Pad(l.su, MAX_SU) && muList == Pad(l.mu, MAX_MU)
              && suCur == NOT_LISTED && muCnt == |l.mu|
              && ret == if |l.su| + |l.mu| > 0 then 0 else if l.notReady > 0 then -2 else -1
    {
      hide ListEntries, Pad;
      ResetVars();
      ret := GetList();
    }

    /** The INIT part of _sounding_handler. */
    method BeginPeriod() returns (go: bool)
      requires Shape(View()) && phase.Init?
      modifies this
      ensures (View(), go) == Begin(old(View()))
    {
      hide ListEntries, ResetEntries, Pad, Ordered, Admit;
      ghost var l := ListEntries(ResetEntries(bfee), MAX_ENTRIES, minPeriod);
      var ret := PrepareLists();
      go := AdmitPeriod(ret, l);
    }

    /** The reasons not to start, with the lists built. */
    method AdmitPeriod(ret: int, ghost l: Listing) returns (go: bool)
      requires ret == if |l.su| + |l.mu| > 0 then 0 else if l.notReady > 0 then -2 else -1
      modifies this`waitCnt, this`phase, this`running, this`psDenied, this`plan, this`muPlanned, this`sent
      ensures (View(), go) == Admit(old(View()), l)
    {
      go := false;
      if ret == -1 {
        waitCnt, phase, running := 0, Idle, running - 1;
      } else if ret == -2 {
        if waitCnt < 5 {
          waitCnt := waitCnt + 1;
        } else {
          waitCnt, phase := 0, Idle;
        }
        running := running - 1;
      } else {
        waitCnt := 0;
        if scanning {
          running := running - 1;
        } else {
          psDenied := true;
          plan, muPlanned, sent := l.su, l.mu != [], [];
          go := true;
        }
      }
    }

    /** Position of the first listed SU entry not sounded yet. */
    method FindSu() returns (i: nat)
      requires Shape(View())
      ensures i == NextSu(View(), 0)
    {
      i := 0;
      while i < MAX_SU
        invariant i <= MAX_SU && NextSu(View(), i) == NextSu(View(), 0)
      {
        if suList[i] < MAX_ENTRIES && !bfee[suList[i]].sounding {
          return;
        }
        i := i + 1;
      }
    }

    /** The rest of _sounding_handler. */
    method StartNext()
      requires Shape(View())
      modifies this
      ensures View() == Advance(old(View()))
      decreases 0, Unsounded(View(), 0), 0
    {
      hide NextSu, MarkMu, Unsounded, Down, StartSu, Handler, InitFlag, Begin;
      var i := FindSu();
      if i < MAX_SU {
        StartSuLess(View(), i);
        StartSuEntry(suList[i]);
        if bfee[suCur].delete {
          SoundingDown(false);
          return;
        }
        timer := true;
        return;
      }
      if muCnt > 0 {
        StartMuGroup();
        return;
      }
      running, phase, psDenied := running - 1, Init, false;
    }

    method StartMuGroup()
      requires Shape(View())
      modifies this`phase, this`bfee, this`muCnt, this`sent, this`timer
      ensures View() == old(View()).(phase := MuStart, entries := MarkMu(old(bfee), muList, old(muCnt)), muCnt := 0,
                                     sent := old(sent) + [Mu], timer := true)
    {
      phase := MuStart;
      MarkMuEntries();
      muCnt := 0;
      sent := sent + [Mu];
      timer := true;
    }

    method StartSuEntry(idx: nat)
      requires Shape(View()) && idx < MAX_ENTRIES
      modifies this`suCur, this`phase, this`bfee, this`sent
      ensures View() == StartSu(old(View()), idx).(sent := old(sent) + [Su(idx)])
      ensures suCur == idx
    {
      suCur, phase := idx, SuStart;
      bfee := bfee[suCur := bfee[suCur].(sounding := true, timedOut := false)];
      sent := sent + [Su(suCur)];
    }

    method MarkMuEntries()
      requires Shape(View())
      modifies this`bfee
      ensures bfee == MarkMu(old(bfee), muList, muCnt)
    {
      for i := 0 to muCnt
        invariant |bfee| == MAX_ENTRIES && bfee == MarkMu(old(bfee), muList, i)
      {
        bfee := bfee[muList[i] := bfee[muList[i]].(sounding := true)];
      }
    }

    /** _beamforming_sounding_down up to its START_PERIOD. */
    method FinishOne(ok: bool) returns (go: bool)
      requires Shape(View())
      modifies this
      ensures (View(), go) == EndOne(old(View()), ok)
    {
      go := true;
      if phase == MuStart {
        phase := MuDown;
      } else if phase == SuStart {
        phase := SuDown;
        var e := bfee[suCur];
        if e.timedOut {
          bfee := bfee[suCur := e.(timedOut := false)];
          go := false;
          return;
        }
        if ok {
          e := e.(failCnt := 0);
        } else if e.delete {
          e := e.(delete := false);
        } else {
          e := e.(failCnt := (e.failCnt + 1) % 32);
          if e.failCnt > 30 {
            queue := queue + [Leave(suCur)];
          }
        }
        bfee := bfee[suCur := e];
      } else {
        go := false;
      }
    }

    /** _beamforming_sounding_down */
    method SoundingDown(ok: bool)
      requires Shape(View())
      modifies this
      ensures View() == Down(old(View()), ok)
      decreases 0, Unsounded(View(), 0), 2
    {
      hide EndOne, Unsounded;
      SameUnsounded(View(), EndOne(View(), ok).0, 0);
      var go := FinishOne(ok);
      if go {
        SoundingHandler();
      }
    }

    /** _sounding_force_stop.  With a sounding on the air its end is queued instead of its timer; without,
        the period stops being counted while its START is still queued. */
    method SoundingForceStop()
      modifies this
      ensures View() == ForceStop(old(View()))
      ensures old(Inv(View()) && OnAir(View())) ==> Inv(View()) && EndQueued(queue)
      ensures old(Inv(View()) && running == 1 && !OnAir(View())) ==> running == 0 && Starts(queue) == 1
    {
      hide Inv, Starts;
      StopKeeps(View());
      if phase == SuStart || phase == MuStart {
        timer := false;
        queue := queue + [End(false)];
        return;
      }
      running, phase, psDenied := running - 1, Init, false;
    }

    /** _sounding_timer_handler.  It keeps the invariant except when it stops a period by force with
        nothing on the air. */
    method SoundingTimerHandler()
      modifies this
      ensures View() == OnTick(old(View()))
      ensures old(Inv(View())) ==> (Inv(View()) <==> !old(ForceStops(View())) || old(OnAir(View())))
    {
      hide Inv;
      TickExact(View());
      if phase == Idle {
        return;
      }
      if running == 0 {
        if phase != Init {
          phase := Init;
        }
        delay, running := 0, running + 1;
        queue := queue + [Start];
      } else {
        if delay != 0xFF {
          delay := delay + 1;
        }
        if delay > 3 {
          SoundingForceStop();
        }
      }
    }

    /** _sounding_timeout_timer_handler.  A sounding on the air is replaced, as what carries the period
        on, by one queued START. */
    method SoundingTimeoutTimerHandler()
      requires Shape(View()) && timer
      modifies this
      ensures View() == OnTimeout(old(View()))
      ensures old(Inv(View())) ==> Inv(View())
      ensures old(Inv(View()) && OnAir(View())) ==> phase == TimedOut && Starts(queue) == 1
      ensures old(phase) == SuStart ==> bfee == old(bfee)[suCur := old(bfee)[suCur].(timedOut := true)]
      ensures old(phase) != SuStart ==> bfee == old(bfee)
    {
      hide Inv, Starts;
      TimeoutCarriesOn(View());
      timer := false;
      if phase == SuStart {
        phase := TimedOut;
        bfee := bfee[suCur := bfee[suCur].(timedOut := true)];
      } else if phase == MuStart {
        phase := TimedOut;
      } else {
        return;
      }
      queue := queue + [Start];
    }

    /** _c2h_snd_txbf.  The queued end takes the timer's place. */
    method C2hSndTxbf(ok: bool)
      requires Shape(View())
      modifies this
      ensures View() == Step(old(View()), Result(ok))
      ensures old(Inv(View())) ==> Inv(View())
      ensures EndQueued(queue) && !timer
    {
      hide Inv, Shape;
      ResultCarriesOn(View(), ok);
      timer := false;
      queue := queue + [End(ok)];
    }

    /** rtw_bf_cmd_hdl on the command at the head of the queue. */
    method BfCmdHdl()
      requires Shape(View()) && queue != []
      modifies this
      ensures View() == OnWork(old(View()))
    {
      var c := queue[0];
      queue := queue[1..];
      match c
      case Start => SoundingHandler();
      case End(ok) => SoundingDown(ok);
      case Leave(_) =>
    }
  }

  lemma StopKeeps(s: Sounding)
    ensures Inv(s) && OnAir(s) ==> Inv(ForceStop(s)) && EndQueued(ForceStop(s).queue)
    ensures Inv(s) && s.running == 1 && !OnAir(s) ==> Starts(s.queue) == 1
  {
    hide Shape, PlanOk, Progress, Full, Starts;
    if Inv(s) && OnAir(s) {
      StartsAppend(s.queue, End(false));
      SameSchedule(s, ForceStop(s));
    }
  }

  lemma TickExact(s: Sounding)
    ensures Inv(s) ==> (Inv(OnTick(s)) <==> !ForceStops(s) || OnAir(s))
  {
    hide Inv, OnTick, OnAir, ForceStops;
    if Inv(s) {
      if ForceStops(s) { ForcedStopExact(s); } else { TickKeeps(s); }
    }
  }

  lemma TimeoutCarriesOn(s: Sounding)
    requires Shape(s) && s.timer
    ensures Inv(s) ==> Inv(OnTimeout(s))
    ensures Inv(s) && OnAir(s) ==> OnTimeout(s).phase == TimedOut && Starts(OnTimeout(s).queue) == 1
  {
    hide Progress, Full, PlanOk, Starts;
    if Inv(s) {
      TimeoutKeeps(s);
      StartsAppend(s.queue, Start);
    }
  }

  lemma ResultCarriesOn(s: Sounding, ok: bool)
    ensures Inv(s) ==> Inv(s.(timer := false, queue := s.queue + [End(ok)]))
    ensures EndQueued(s.queue + [End(ok)])
  {
    hide Inv;
    if Inv(s) { ResultKeeps(s, ok); }
    assert (s.queue + [End(ok)])[|s.queue|] == End(ok);
  }

  lemma PadAppend(s: seq<nat>, x: nat, n: nat)
    requires |s| < n
    ensures |Pad(s, n)| == n && Pad(s + [x], n) == Pad(s, n)[|s| := x]
  {
  }
}
