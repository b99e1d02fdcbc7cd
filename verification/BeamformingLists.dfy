/** Which beamformees a sounding period is for, said without the loop that lists them. */
module BeamformingLists {
  import opened Beamforming
  import opened BeamformingRun

  // ---------------------------------------------------------------- who wants sounding

  /** In use, ready, and its turn has come: the count reaches zero with this period. */
  predicate Due(e: Bfee) { e.used && e.ready && e.soundCnt <= 1 }

  predicate WantsMu(e: Bfee) { Due(e) && e.mu && e.apply }

  /** An entry to be removed goes out once more, asked for or not. */
  predicate WantsSu(e: Bfee) { Due(e) && !e.mu && e.su && (e.delete || (e.apply && !e.suspended)) }

  predicate Unready(e: Bfee) { e.used && !e.ready }

  /** How many of the first n entries are like that. */
  function HowMany(es: seq<Bfee>, p: Bfee -> bool, n: nat): (r: nat)
    requires n <= |es|
    ensures r <= n
  {
    if n == 0 then 0 else HowMany(es, p, n - 1) + if p(es[n - 1]) then 1 else 0
  }

  lemma {:induction false} MoreOfThem(es: seq<Bfee>, p: Bfee -> bool, m: nat, n: nat)
    requires m <= n <= |es|
    ensures HowMany(es, p, m) <= HowMany(es, p, n)
    decreases n
  {
    if m < n { MoreOfThem(es, p, m, n - 1); }
  }

  predicate TakesSu(es: seq<Bfee>, i: nat)
    requires i < |es|
  {
    WantsSu(es[i]) && HowMany(es, WantsSu, i) < MAX_SU
  }

  predicate TakesMu(es: seq<Bfee>, i: nat)
    requires i < |es|
  {
    WantsMu(es[i]) && HowMany(es, WantsMu, i) < MAX_MU
  }

  /** What becomes of an entry: one that is listed, and not on its way out, is a candidate and gets a new
      count; any other that is ready is one period nearer its turn. */
  function Counted(es: seq<Bfee>, i: nat, minPeriod: nat): Bfee
    requires i < |es| && minPeriod > 0
  {
    var e := es[i];
    if !e.used || !e.ready then e
    else if TakesMu(es, i) || (TakesSu(es, i) && !e.delete) then
      e.(candidate := true, soundCnt := (e.period / minPeriod) % 256)
    else e.(soundCnt := if e.soundCnt > 0 then e.soundCnt - 1 else 0)
  }

  /** The first n entries have been listed. */
  ghost predicate ListsThem(es: seq<Bfee>, n: nat, minPeriod: nat, l: Listing)
    requires n <= |es| && minPeriod > 0
  {
    && |l.entries| == |es|
    && (forall i :: 0 <= i < n ==> (i in l.su <==> TakesSu(es, i)) && (i in l.mu <==> TakesMu(es, i)))
    && (forall i :: i in l.su || i in l.mu ==> i < n)
    && |l.su| == (if HowMany(es, WantsSu, n) < MAX_SU then HowMany(es, WantsSu, n) else MAX_SU)
    && |l.mu| == (if HowMany(es, WantsMu, n) < MAX_MU then HowMany(es, WantsMu, n) else MAX_MU)
    && l.notReady == HowMany(es, Unready, n)
    && (forall i {:trigger l.entries[i]} :: 0 <= i < |es| ==>
          l.entries[i] == if i < n then Counted(es, i, minPeriod) else es[i])
  }

  /** MAIN: the lists are of the first two, and the first six, entries that want sounding; the entries get
      their new counts, and those not ready are counted. */
  lemma {:induction false} ListedExactly(es: seq<Bfee>, n: nat, minPeriod: nat)
    requires n <= |es| && minPeriod > 0
    ensures ListsThem(es, n, minPeriod, ListEntries(es, n, minPeriod))
    decreases n
  {
    hide ListsThem, ListEntry;
    if n == 0 {
      NoneListed(es, minPeriod);
    } else {
      ListedExactly(es, n - 1, minPeriod);
      ListsOneMore(es, n - 1, minPeriod, ListEntries(es, n - 1, minPeriod));
    }
  }

  lemma NoneListed(es: seq<Bfee>, minPeriod: nat)
    requires minPeriod > 0
    ensures ListsThem(es, 0, minPeriod, ListEntries(es, 0, minPeriod))
  {
  }

  lemma ListsOneMore(es: seq<Bfee>, i: nat, minPeriod: nat, l: Listing)
    requires i < |es| && minPeriod > 0 && ListsThem(es, i, minPeriod, l)
    ensures ListsThem(es, i + 1, minPeriod, ListEntry(l, i, minPeriod))
  {
    hide ListEntry, Counted, WantsSu, WantsMu, Unready;
    assert l.entries[i] == es[i];
    OneTurn(es, i, minPeriod, l);
    var r := ListEntry(l, i, minPeriod);
    assert forall k :: k in r.su <==> k in l.su || (k == i && TakesSu(es, i));
    assert forall k :: k in r.mu <==> k in l.mu || (k == i && TakesMu(es, i));
  }

  /** The lists have what they should after i entries, and entry i is still as it was. */
  ghost predicate Ready(es: seq<Bfee>, i: nat, l: Listing) {
    && i < |es| == |l.entries| && l.entries[i] == es[i]
    && |l.su| == (if HowMany(es, WantsSu, i) < MAX_SU then HowMany(es, WantsSu, i) else MAX_SU)
    && |l.mu| == (if HowMany(es, WantsMu, i) < MAX_MU then HowMany(es, WantsMu, i) else MAX_MU)
  }

  /** One turn of the loop, in those terms. */
  ghost predicate TurnIs(es: seq<Bfee>, i: nat, minPeriod: nat, l: Listing)
    requires Ready(es, i, l) && minPeriod > 0
  {
    ListEntry(l, i, minPeriod) == Listing(
      l.entries[i := Counted(es, i, minPeriod)],
      if TakesSu(es, i) then l.su + [i] else l.su,
      if TakesMu(es, i) then l.mu + [i] else l.mu,
      l.notReady + if Unready(es[i]) then 1 else 0)
  }

  lemma OneTurn(es: seq<Bfee>, i: nat, minPeriod: nat, l: Listing)
    requires Ready(es, i, l) && minPeriod > 0
    ensures TurnIs(es, i, minPeriod, l)
  {
    hide TurnIs, HowMany;
    var e := es[i];
    if !e.used || !e.ready || e.soundCnt > 1 { TurnNotDue(es, i, minPeriod, l); }
    else if e.mu { TurnMu(es, i, minPeriod, l); }
    else if e.su { TurnSu(es, i, minPeriod, l); }
    else { TurnNeither(es, i, minPeriod, l); }
  }

  lemma TurnNotDue(es: seq<Bfee>, i: nat, minPeriod: nat, l: Listing)
    requires Ready(es, i, l) && minPeriod > 0 && (!es[i].used || !es[i].ready || es[i].soundCnt > 1)
    ensures TurnIs(es, i, minPeriod, l)
  {
    hide HowMany;
    assert l.entries[i := es[i]] == l.entries;
  }

  lemma TurnMu(es: seq<Bfee>, i: nat, minPeriod: nat, l: Listing)
    requires Ready(es, i, l) && minPeriod > 0 && Due(es[i]) && es[i].mu
    ensures TurnIs(es, i, minPeriod, l)
  {
    hide HowMany;
    assert l.entries[i := es[i]] == l.entries;
  }

  lemma TurnSu(es: seq<Bfee>, i: nat, minPeriod: nat, l: Listing)
    requires Ready(es, i, l) && minPeriod > 0 && Due(es[i]) && !es[i].mu && es[i].su
    ensures TurnIs(es, i, minPeriod, l)
  {
    hide HowMany;
    assert l.entries[i := es[i]] == l.entries;
  }

  lemma TurnNeither(es: seq<Bfee>, i: nat, minPeriod: nat, l: Listing)
    requires Ready(es, i, l) && minPeriod > 0 && Due(es[i]) && !es[i].mu && !es[i].su
    ensures TurnIs(es, i, minPeriod, l)
  {
    hide HowMany;
    assert l.entries[i := es[i]] == l.entries;
  }

  // ---------------------------------------------------------------- a period

  /** The flags of the last period make no difference. */
  lemma {:induction false} RestedWants(es: seq<Bfee>, n: nat)
    requires n <= |es|
    ensures HowMany(ResetEntries(es), WantsSu, n) == HowMany(es, WantsSu, n)
    ensures HowMany(ResetEntries(es), WantsMu, n) == HowMany(es, WantsMu, n)
  {
    hide ResetEntries;
    if n > 0 { RestedWants(es, n - 1); }
  }

  lemma RestedTakes(es: seq<Bfee>, i: nat)
    requires i < |es|
    ensures TakesSu(ResetEntries(es), i) <==> TakesSu(es, i)
    ensures TakesMu(ResetEntries(es), i) <==> TakesMu(es, i)
  {
    hide ResetEntries, HowMany;
    RestedWants(es, i);
  }

  predicate AnyWanted(es: seq<Bfee>)
  {
    HowMany(es, WantsSu, |es|) + HowMany(es, WantsMu, |es|) > 0
  }

  /** The plan is for those of the entries es that want sounding, in order. */
  ghost predicate PlannedFor(s: Sounding, es: seq<Bfee>) {
    && (forall i :: i in s.plan <==> 0 <= i < |es| && TakesSu(es, i))
    && (s.muPlanned <==> HowMany(es, WantsMu, |es|) > 0)
  }

  /** The listed group is of those of the entries es that want MU sounding. */
  ghost predicate GroupIs(s: Sounding, es: seq<Bfee>) {
    s.muCnt <= |s.muList| && forall i :: i in s.muList[..s.muCnt] <==> 0 <= i < |es| && TakesMu(es, i)
  }

  /** A START begins a period exactly if there is someone to sound and no scan is on. */
  lemma BeginExactly(s: Sounding)
    requires Shape(s) && s.phase.Init?
    ensures Begin(s).1 <==> AnyWanted(s.entries) && !s.scanning
    ensures Begin(s).1 ==> PlannedFor(Begin(s).0, s.entries) && Begin(s).0.sent == []
    ensures !Begin(s).1 ==> Begin(s).0.plan == s.plan && Begin(s).0.muPlanned == s.muPlanned
  {
    hide ListEntries, ResetEntries, TakesSu, TakesMu, Counted, HowMany, Pad;
    var es := ResetEntries(s.entries);
    ListedExactly(es, MAX_ENTRIES, s.minPeriod);
    RestedWants(s.entries, MAX_ENTRIES);
    forall i | 0 <= i < MAX_ENTRIES ensures TakesSu(es, i) <==> TakesSu(s.entries, i) { RestedTakes(s.entries, i); }
  }

  /** MAIN: a START in the INIT state, with nobody to sound, ends the asking if nobody is unready either, and
      otherwise at the sixth time; a scan puts the period off. */
  lemma PutOffExactly(s: Sounding)
    requires Shape(s) && s.phase.Init? && !(AnyWanted(s.entries) && !s.scanning)
    ensures var r, unready := Handler(s), HowMany(s.entries, Unready, MAX_ENTRIES);
      && r.running == s.running - 1
      && (AnyWanted(s.entries) ==> r.phase.Init? && r.waitCnt == 0)
      && (!AnyWanted(s.entries) && unready > 0 && s.waitCnt < 5 ==> r.phase.Init? && r.waitCnt == s.waitCnt + 1)
      && (!AnyWanted(s.entries) && (unready == 0 || s.waitCnt >= 5) ==> r.phase.Idle? && r.waitCnt == 0)
  {
    hide ListEntries, ResetEntries, TakesSu, TakesMu, Counted, HowMany, Pad;
    BeginExactly(s);
    var es := ResetEntries(s.entries);
    ListedExactly(es, MAX_ENTRIES, s.minPeriod);
    RestedWants(s.entries, MAX_ENTRIES);
    RestedUnready(s.entries, MAX_ENTRIES);
  }

  lemma {:induction false} RestedUnready(es: seq<Bfee>, n: nat)
    requires n <= |es|
    ensures HowMany(ResetEntries(es), Unready, n) == HowMany(es, Unready, n)
  {
    hide ResetEntries;
    if n > 0 { RestedUnready(es, n - 1); }
  }

  /** After that the candidates are the entries listed, but for those on their way out, and those that were
      candidates before and have not been sounded since. */
  lemma CandidatesExactly(s: Sounding, i: nat)
    requires Shape(s) && i < MAX_ENTRIES
    ensures var e := s.entries[i];
      Listed(s).entries[i].candidate <==>
        || (e.candidate && !(e.used && e.sounding))
        || TakesMu(s.entries, i) || (TakesSu(s.entries, i) && !e.delete)
  {
    hide ListEntries, ResetEntries, TakesSu, TakesMu, HowMany;
    ListedExactly(ResetEntries(s.entries), MAX_ENTRIES, s.minPeriod);
    RestedTakes(s.entries, i);
    OnlyReadyTaken(s.entries, i);
  }

  lemma OnlyReadyTaken(es: seq<Bfee>, i: nat)
    requires i < |es|
    ensures TakesSu(es, i) || TakesMu(es, i) ==> es[i].used && es[i].ready
  {
    hide HowMany;
  }

  /** The group it lists is of the entries that want MU sounding. */
  lemma GroupExactly(s: Sounding)
    requires Shape(s) && s.phase.Init?
    ensures Begin(s).1 ==> GroupIs(Begin(s).0, s.entries)
  {
    hide ListEntries, ResetEntries, TakesSu, TakesMu, Counted, HowMany, Pad;
    var es := ResetEntries(s.entries);
    ListedExactly(es, MAX_ENTRIES, s.minPeriod);
    PadFront(Listed(s).mu, MAX_MU);
    forall i | 0 <= i < MAX_ENTRIES ensures TakesMu(es, i) <==> TakesMu(s.entries, i) { RestedTakes(s.entries, i); }
  }

  lemma PadFront(l: seq<nat>, n: nat)
    requires |l| <= n
    ensures |Pad(l, n)| == n && Pad(l, n)[..|l|] == l
  {
  }

  predicate SamePlan(s: Sounding, t: Sounding) { t.plan == s.plan && t.muPlanned == s.muPlanned }

  /** Going on with a period does not change what it is for. */
  lemma {:induction false} AdvancePlan(s: Sounding)
    requires Shape(s)
    ensures SamePlan(s, Advance(s))
    decreases 0, Unsounded(s, 0), 0
  {
    var i := NextSu(s, 0);
    if i < MAX_SU {
      StartSuLess(s, i);
      var s1 := StartSu(s, s.suList[i]);
      if s1.entries[s1.suCur].delete { DownPlan(s1.(sent := s.sent + [Su(s1.suCur)]), false); }
    }
  }

  lemma {:induction false} DownPlan(s: Sounding, ok: bool)
    requires Shape(s)
    ensures SamePlan(s, Down(s, ok))
    decreases 0, Unsounded(s, 0), 2
  {
    var d := EndOne(s, ok);
    SameUnsounded(s, d.0, 0);
    if d.1 { AdvancePlan(d.0); }
  }

  /** The event is a START that begins a period. */
  ghost predicate Begins(s: Sounding, e: Event)
    requires Shape(s) && Possible(s, e)
  {
    e.Work? && s.queue[0].Start? && s.phase.Init? && AnyWanted(s.entries) && !s.scanning
  }

  lemma PlanStep(s: Sounding, e: Event)
    requires Shape(s) && Possible(s, e)
    ensures Begins(s, e) ==> PlannedFor(Step(s, e), s.entries)
    ensures !Begins(s, e) ==> SamePlan(s, Step(s, e))
  {
    hide Begin, Advance, Down, AnyWanted, TakesSu, HowMany;
    if e.Work? {
      var s1 := s.(queue := s.queue[1..]);
      match s.queue[0] {
        case Start =>
          if s1.phase.Init? {
            BeginExactly(s1);
            AdvancePlan(Begin(s1).0);
          } else {
            AdvancePlan(s1);
          }
        case End(ok) => DownPlan(s1, ok);
        case Leave(_) =>
      }
    }
  }

  /** The calm events es lead from s to t without a new period. */
  ghost predicate Within(s: Sounding, es: seq<Event>, t: Sounding) {
    if es == [] then s == t
    else
      var front, last := es[..|es| - 1], es[|es| - 1];
      exists m :: Within(s, front, m) && Shape(m) && Possible(m, last) && Calm(m, last) && !Begins(m, last)
                  && t == Step(m, last)
  }

  lemma {:induction false} WithinKeeps(s: Sounding, es: seq<Event>, t: Sounding)
    requires Inv(s) && Within(s, es, t)
    ensures Inv(t) && SamePlan(s, t)
    decreases |es|
  {
    hide Inv, Step, Begins;
    if es != [] {
      var front, last := es[..|es| - 1], es[|es| - 1];
      var m :| Within(s, front, m) && Shape(m) && Possible(m, last) && Calm(m, last) && !Begins(m, last)
               && t == Step(m, last);
      WithinKeeps(s, front, m);
      StepKeeps(m, last);
      PlanStep(m, last);
    }
  }

  /** MAIN: what a period begun at m has sent at any moment until the next begins is for entries that wanted
      it at m, and once the period is over it is for all of them: the first two SU entries and, if any
      wanted it, the MU group. */
  lemma PeriodSounds(s: Sounding, es: seq<Event>, m: Sounding, fs: seq<Event>, t: Sounding, i: nat)
    requires Starting(s) && Reaches(s, es, m) && Shape(m) && Possible(m, Work) && Begins(m, Work)
    requires Within(Step(m, Work), fs, t) && i < MAX_ENTRIES
    ensures Su(i) in t.sent ==> TakesSu(m.entries, i)
    ensures Mu in t.sent ==> HowMany(m.entries, WantsMu, MAX_ENTRIES) > 0
    ensures t.running == 0 ==> (Su(i) in t.sent <==> TakesSu(m.entries, i))
    ensures t.running == 0 ==> (Mu in t.sent <==> HowMany(m.entries, WantsMu, MAX_ENTRIES) > 0)
  {
    hide Inv, Step, Begins, Within, Reaches, TakesSu, HowMany, PlannedFor;
    RunKeeps(s, es, m);
    BeginsCalm(m);
    StepKeeps(m, Work);
    PlanStep(m, Work);
    WithinKeeps(Step(m, Work), fs, t);
    SentOfPlan(t, i);
    PlanMembers(t, m.entries, i);
  }

  lemma BeginsCalm(m: Sounding)
    requires Inv(m) && Shape(m) && Possible(m, Work) && Begins(m, Work)
    ensures Calm(m, Work) && |m.entries| == MAX_ENTRIES
  {
  }

  lemma PlanMembers(t: Sounding, es: seq<Bfee>, i: nat)
    requires |es| == MAX_ENTRIES && i < MAX_ENTRIES && exists u :: SamePlan(u, t) && PlannedFor(u, es)
    ensures (i in t.plan <==> TakesSu(es, i)) && (t.muPlanned <==> HowMany(es, WantsMu, MAX_ENTRIES) > 0)
  {
    hide TakesSu, HowMany;
  }

  lemma SentOfPlan(t: Sounding, i: nat)
    requires Inv(t)
    ensures Su(i) in t.sent ==> i in t.plan
    ensures Mu in t.sent ==> t.muPlanned
    ensures t.running == 0 ==> (Su(i) in t.sent <==> i in t.plan) && (Mu in t.sent <==> t.muPlanned)
  {
    var part := SuPart(t.plan);
    assert Su(i) in part <==> i in t.plan by {
      if i in t.plan {
        var k :| 0 <= k < |t.plan| && t.plan[k] == i;
        assert part[k] == Su(i);
      }
    }
    assert Mu !in part;
    assert t.running == 0 ==> !InPeriod(t);
    if InPeriod(t) { PartSent(t, i); }
  }

  lemma PartSent(t: Sounding, i: nat)
    requires Shape(t) && PlanOk(t) && Progress(t)
    ensures Su(i) in t.sent ==> i in t.plan
    ensures Mu in t.sent ==> t.muPlanned
  {
    var part := SuPart(t.plan[..SuCount(t)]);
    assert forall k :: 0 <= k < |part| ==> part[k] == Su(t.plan[k]);
    assert t.sent == part + if MuSent(t) then [Mu] else [];
  }

  // ---------------------------------------------------------------- asking for it, and the end of it

  /** Traffic that starts asks for sounding at once, and traffic that ends for one more. */
  lemma TrafficDue(s: Sounding, want: seq<bool>, i: nat)
    requires |want| == |s.entries| && i < |want| && s.entries[i].used && want[i] != s.entries[i].apply
    ensures var t, e := OnTraffic(s, want), s.entries[i];
      var f := t.entries[i];
      && !t.phase.Idle? && (f.apply <==> want[i]) && (f.delete <==> e.delete || !want[i])
      && (e.ready && !e.mu && e.su && (want[i] ==> !e.suspended) ==> WantsSu(f))
      && (e.ready && e.mu ==> (WantsMu(f) <==> want[i]))
  {
    var t := OnTraffic(s, want);
    assert t.entries[i] != s.entries[i];
  }

  /** Traffic that goes on as it was asks for nothing. */
  lemma TrafficSame(s: Sounding, want: seq<bool>)
    requires |want| == |s.entries| && forall i :: 0 <= i < |want| ==> !s.entries[i].used || want[i] == s.entries[i].apply
    ensures OnTraffic(s, want) == s
  {
    assert OnTraffic(s, want).entries == s.entries;
  }

  /** The end of an SU sounding: a success clears the failures, the last sounding of an entry on its way out
      takes it off the air for good, and the 31st failure in a row has the beamformee leave. */
  lemma EndExactly(s: Sounding, ok: bool)
    requires Shape(s) && s.phase.SuStart? && !s.entries[s.suCur].timedOut
    ensures var t, e := EndOne(s, ok).0, s.entries[s.suCur];
      var f := t.entries[s.suCur];
      && EndOne(s, ok).1 && t.phase.SuDown?
      && f.failCnt == (if ok then 0 else if e.delete then e.failCnt else (e.failCnt + 1) % 32)
      && f.delete == (e.delete && ok)
      && t.queue == (if !ok && !e.delete && e.failCnt % 32 == 30 then s.queue + [Leave(s.suCur)] else s.queue)
      && (e.delete && !ok && !e.apply ==> !WantsSu(f))
  {
  }

  /** One that timed out is only cleared, and does not go on by itself. */
  lemma TimedOutEnd(s: Sounding, ok: bool)
    requires Shape(s) && s.phase.SuStart? && s.entries[s.suCur].timedOut
    ensures var d := EndOne(s, ok);
      && !d.1 && d.0.phase.SuDown? && d.0.queue == s.queue && !d.0.entries[s.suCur].timedOut
      && d.0.entries[s.suCur].failCnt == s.entries[s.suCur].failCnt
  {
  }

  /** With the SU entries done the listed group goes out, and exactly its members are marked with it. */
  lemma GroupGoesOut(s: Sounding)
    requires Shape(s) && NextSu(s, 0) == MAX_SU && s.muCnt > 0
    ensures var r := Advance(s);
      && r.phase.MuStart? && r.timer && r.muCnt == 0 && r.sent == s.sent + [Mu]
      && forall k :: 0 <= k < MAX_ENTRIES ==>
           (r.entries[k].sounding <==> s.entries[k].sounding || k in s.muList[..s.muCnt])
  {
    forall k | 0 <= k < MAX_ENTRIES
      ensures MarkMu(s.entries, s.muList, s.muCnt)[k].sounding <==> s.entries[k].sounding || k in s.muList[..s.muCnt]
    {
      MarkMuExactly(s.entries, s.muList, s.muCnt, k);
    }
  }

  /** Exactly the listed group members are marked. */
  lemma {:induction false} MarkMuExactly(es: seq<Bfee>, muList: seq<nat>, n: nat, k: nat)
    requires n <= |muList| && (forall i :: 0 <= i < n ==> muList[i] < |es|) && k < |es|
    ensures MarkMu(es, muList, n)[k].sounding <==> es[k].sounding || k in muList[..n]
    decreases n
  {
    if n > 0 {
      MarkMuExactly(es, muList, n - 1, k);
      assert muList[..n] == muList[..n - 1] + [muList[n - 1]];
    }
  }
}
