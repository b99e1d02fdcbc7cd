/** What is learned from uplink frames; and, when no relay tags are added, the one PPPoE connection that may be
    set up at a time and the client its answers go to. */
module Nat25Connect {
  import opened Bytes
  import opened Skbuff
  import opened PppoeTags
  import opened Nat25Spec
  import opened Nat25Arms

  // ---------------------------------------------------------------- the keys of the table

  /** Different addresses have different keys, of whatever family. */
  lemma KeysApart(a: Ip, a': Ip, b: seq<Byte>, b': seq<Byte>, sid: seq<Byte>, ac: Mac, sid': seq<Byte>, ac': Mac)
    requires |b| == |b'| == 16 && |sid| == |sid'| == 2
    ensures Ipv4Net(a) == Ipv4Net(a') <==> a == a'
    ensures Ipv6Net(b) == Ipv6Net(b') <==> b == b'
    ensures PppoeNet(sid, ac) == PppoeNet(sid', ac') <==> sid == sid' && ac == ac'
    ensures Ipv4Net(a) != Ipv6Net(b) && Ipv4Net(a) != PppoeNet(sid, ac) && Ipv6Net(b) != PppoeNet(sid, ac)
  {
    assert Ipv4Net(a)[7..11] == a && Ipv4Net(a')[7..11] == a';
    assert Ipv6Net(b)[1..17] == b && Ipv6Net(b')[1..17] == b';
    assert PppoeNet(sid, ac)[1..3] == sid && PppoeNet(sid', ac')[1..3] == sid';
    assert PppoeNet(sid, ac)[3..9] == ac && PppoeNet(sid', ac')[3..9] == ac';
    assert Ipv4Net(a)[0] == 1 && Ipv6Net(b)[0] == 2 && PppoeNet(sid, ac)[0] == 5;
  }

  /** The table with the address learned for the client: a use count is kept, a new one starts at one. */
  function With(db: Db, net: NetAddr, client: Mac, now: Jiffies): Db {
    db[net := Rec(client, now, if net in db then db[net].use else 1)]
  }

  // ---------------------------------------------------------------- learning

  /** MAIN: the source of an IPv4 packet is learned unless it is zero or the header is cut short. */
  lemma IpLearned(c: Config, f: Frame, st: State, now: Jiffies)
    requires f.Valid() && U16(f.mem, 12) == 0x0800
    ensures DispatchInsert(c, f, st, now) ==
      if (f.mem[14] as nat % 16) * 4 >= f.len then Handled(-1, f, st)
      else if f.At(26, 4) == [0, 0, 0, 0] then Handled(0, f, st)
      else Handled(0, f, st.(db := With(st.db, Ipv4Net(f.At(26, 4)), f.At(6, 6), now)))
  {
    hide Ipv4Net;
  }

  lemma Ipv6Learned(c: Config, f: Frame, st: State, now: Jiffies)
    requires f.Valid() && U16(f.mem, 12) == 0x86DD && !Neighbour(f)
    ensures DispatchInsert(c, f, st, now) ==
      if 14 <= f.len <= 54 then Handled(-1, f, st)
      else if forall k :: 22 <= k < 38 ==> f.mem[k] == 0 then Handled(0, f, st)
      else Handled(0, f, st.(db := With(st.db, Ipv6Net(f.At(22, 16)), f.At(6, 6), now)))
  {
    hide Ipv6Net;
    var s := f.At(22, 16);
    assert forall k :: 22 <= k < 38 ==> f.mem[k] == s[k - 22];
    assert s == Zeros(16) <==> forall k :: 0 <= k < 16 ==> s[k] == 0;
  }

  /** An ARP message for IPv4 goes on with our MAC as the sender's; its sender address is learned, as it
      stands in the message that goes on: with MACs of the usual length, as it came. */
  lemma ArpLearned(c: Config, f: Frame, st: State, now: Jiffies)
    requires f.Valid() && ArpInside(f) && U16(f.mem, 12) == 0x0806
    ensures DispatchInsert(c, f, st, now) ==
      if U16(f.mem, 16) != 0x0800 then Handled(-1, f, st)
      else
        var g := f.Set(22, c.myMac);
        Handled(0, g, st.(db := With(st.db, Ipv4Net(g.At(22 + f.mem[18] as nat, 4)), f.At(6, 6), now)))
    ensures f.mem[18] == 6 ==> f.Set(22, c.myMac).At(28, 4) == f.At(28, 4)
  {
    hide Ipv4Net, Frame.Set;
    var g := f.Set(22, c.myMac);
    assert forall k {:trigger g.mem[k]} :: 28 <= k < 32 ==> g.mem[k] == f.mem[k];
    assert g.At(28, 4) == f.At(28, 4);
    assert forall k {:trigger g.mem[k]} :: 6 <= k < 12 ==> g.mem[k] == f.mem[k];
    assert g.At(6, 6) == f.At(6, 6);
  }

  // ---------------------------------------------------------------- one connection at a time

  /** What reaches the connection state: a request or a session frame of a client, an answer of the access
      concentrator, and the timer of core/rtw_mlme.c:2997-3001, which takes off up to two. */
  datatype Event = Request(f: Frame) | Session(f: Frame) | Answer(f: Frame) | Timer

  ghost predicate Well(f: Frame) { Fits(f) && Discovery(f) }

  ghost predicate Fit(e: Event) {
    match e
    case Request(f) => Well(f) && f.At(16, 2) == [0, 0] && f.mem[15] in {0x09, 0x19}
    case Session(f) => Well(f) && f.At(16, 2) != [0, 0]
    case Answer(f) => Well(f) && f.mem[15] in {0x07, 0x65}
    case Timer => true
  }

  /** The state after one of them, by the arms of nat25_db_handle. */
  ghost function Next(c: Config, st: State, e: Event, now: Jiffies): State
    requires Fit(e) && !c.addTag
  {
    match e
    case Request(f) => DispatchInsert(c, f, st, now).st
    case Session(f) => DispatchInsert(c, f, st, now).st
    case Answer(f) => DispatchLookup(c, f, st, now).st
    case Timer => st.(connecting := if st.connecting >= 2 then st.connecting - 2 else 0)
  }

  /** MAIN: a request is let through exactly if no connection is being set up, or one for the same client; it
      then is that client's, for five more seconds. */
  lemma RequestMeans(c: Config, f: Frame, st: State, now: Jiffies)
    requires Fit(Request(f)) && !c.addTag
    ensures DispatchInsert(c, f, st, now) ==
      if st.connecting != 0 && f.At(6, 6) != st.pppoeAddr then Handled(-2, f, st)
      else Handled(0, f, State(st.db, 5, f.At(6, 6)))
  {
    hide Covered, OverReads, InsertRelay;
  }

  /** MAIN: an answer goes to the client whose connection is being set up, and is refused without one. */
  lemma AnswerMeans(c: Config, f: Frame, st: State, now: Jiffies)
    requires Fit(Answer(f)) && !c.addTag
    ensures var h := DispatchLookup(c, f, st, now);
      && (st.connecting == 0 ==> h == Handled(-1, f, st))
      && (st.connecting != 0 ==> h.ret == 0 && h.frame == f.Set(0, st.pppoeAddr) && h.st == st.(connecting := 5))
  {
    hide StripRelay, Frame.Set;
  }

  /** MAIN: the client's first session frame ends the setting up, anybody else's does not; either is learned. */
  lemma SessionMeans(c: Config, f: Frame, st: State, now: Jiffies)
    requires Fit(Session(f)) && !c.addTag
    ensures DispatchInsert(c, f, st, now) ==
      Handled(0, f, State(With(st.db, PppoeNet(f.At(16, 2), f.At(0, 6)), f.At(6, 6), now),
                          if f.At(6, 6) == st.pppoeAddr then 0 else st.connecting, st.pppoeAddr))
  {
    hide Covered, OverReads, InsertRelay, PppoeNet;
  }

  /** What is neither of these is refused, and changes nothing. */
  lemma OtherPppoeRefused(c: Config, f: Frame, st: State, now: Jiffies)
    requires Well(f) && f.At(16, 2) == [0, 0]
    ensures f.mem[15] !in {0x09, 0x19} ==> DispatchInsert(c, f, st, now) == Handled(-1, f, st)
    ensures f.mem[15] !in {0x07, 0x65} ==> DispatchLookup(c, f, st, now) == Handled(-1, f, st)
  {
    hide Covered, OverReads, InsertRelay, StripRelay;
  }

  /** MAIN: with relay tags the connection state is not used: a request gets its tag, an answer is stripped of
      it, and neither touches the state; a session frame is learned. */
  lemma WithTags(c: Config, f: Frame, st: State, now: Jiffies)
    requires Well(f) && Taggable(c, f) && c.addTag
    ensures f.At(16, 2) == [0, 0] && f.mem[15] in {0x09, 0x19} ==>
      var o := InsertRelay(f, c.order); DispatchInsert(c, f, st, now) == Handled(o.ret, o.frame, st)
    ensures f.mem[15] in {0x07, 0x65} ==>
      var o := StripRelay(f); DispatchLookup(c, f, st, now) == Handled(o.ret, o.frame, st)
    ensures f.At(16, 2) != [0, 0] ==>
      DispatchInsert(c, f, st, now)
      == Handled(0, f, st.(db := With(st.db, PppoeNet(f.At(16, 2), f.At(0, 6)), f.At(6, 6), now)))
  {
    hide Covered, OverReads, InsertRelay, StripRelay, PppoeNet;
  }

  /** What is learned from, or passes, of the other protocols: nothing. */
  lemma NothingLearned(c: Config, f: Frame, st: State, now: Jiffies)
    requires f.Valid() && U16(f.mem, 12) !in {0x0800, 0x0806, 0x8863, 0x8864, 0x86DD}
    ensures DispatchInsert(c, f, st, now) ==
      Handled(if U16(f.mem, 12) in {0x888E, 0xE2AE, 0xE2AF} then 0 else -1, f, st)
  {
  }

  ghost predicate Runs(c: Config, es: seq<(Event, Jiffies)>) {
    !c.addTag && forall i :: 0 <= i < |es| ==> Fit(es[i].0)
  }

  ghost function After(c: Config, st: State, es: seq<(Event, Jiffies)>): State
    requires Runs(c, es)
  {
    if es == [] then st
    else
      var (e, now) := es[|es| - 1];
      Next(c, After(c, st, es[..|es| - 1]), e, now)
  }

  /** Event i is a request of this client that found no connection being set up, and one has been ever since. */
  ghost predicate OpenedBy(c: Config, st: State, es: seq<(Event, Jiffies)>, i: nat, client: Mac)
    requires Runs(c, es)
  {
    && i < |es| && es[i].0.Request? && Source(es[i].0.f) == client && After(c, st, es[..i]).connecting == 0
    && forall j :: i < j <= |es| ==> After(c, st, es[..j]).connecting != 0
  }

  /** MAIN: at every moment the connection being set up, if there is one, is that of the client whose request
      opened it, so that its answers reach that client and no other request gets between. */
  lemma {:induction false} OwnerKept(c: Config, st: State, es: seq<(Event, Jiffies)>) returns (i: nat)
    requires Runs(c, es) && st.connecting == 0 && After(c, st, es).connecting != 0
    ensures OpenedBy(c, st, es, i, After(c, st, es).pppoeAddr)
    decreases |es|
  {
    hide Next, OpenedBy, Fit;
    var n := |es| - 1;
    var front, m := es[..n], After(c, st, es[..n]);
    var (e, now) := es[n];
    assert Fit(e);
    OwnerStep(c, m, e, now);
    if m.connecting != 0 {
      i := OwnerKept(c, st, front);
      StillOpen(c, st, es, i, m.pppoeAddr);
    } else {
      i := n;
      JustOpened(c, st, es);
    }
  }

  lemma OwnerStep(c: Config, st: State, e: Event, now: Jiffies)
    requires Fit(e) && !c.addTag
    ensures var t := Next(c, st, e, now);
      t.connecting != 0 ==>
        if st.connecting != 0 then t.pppoeAddr == st.pppoeAddr else e.Request? && t.pppoeAddr == Source(e.f)
  {
    hide DispatchInsert, DispatchLookup, Well;
    match e {
      case Request(f) => RequestMeans(c, f, st, now);
      case Session(f) => SessionMeans(c, f, st, now);
      case Answer(f) => AnswerMeans(c, f, st, now);
      case Timer =>
    }
  }

  lemma StillOpen(c: Config, st: State, es: seq<(Event, Jiffies)>, i: nat, client: Mac)
    requires Runs(c, es) && es != [] && After(c, st, es).connecting != 0
    requires OpenedBy(c, st, es[..|es| - 1], i, client)
    ensures OpenedBy(c, st, es, i, client)
  {
    hide After, Fit;
    var n := |es| - 1;
    assert es[..n][..i] == es[..i];
    forall j | i < j <= |es| ensures After(c, st, es[..j]).connecting != 0 {
      if j <= n { assert es[..n][..j] == es[..j]; } else { assert es[..j] == es; }
    }
  }

  lemma JustOpened(c: Config, st: State, es: seq<(Event, Jiffies)>)
    requires Runs(c, es) && es != [] && After(c, st, es).connecting != 0
    requires After(c, st, es[..|es| - 1]).connecting == 0 && es[|es| - 1].0.Request?
    ensures OpenedBy(c, st, es, |es| - 1, Source(es[|es| - 1].0.f))
  {
    hide After;
    assert es[..|es|] == es;
    assert Fit(es[|es| - 1].0);
  }
}
