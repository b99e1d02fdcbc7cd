/** What nat25_db_handle and nat25_handle_frame do to a frame, the address table and the PPPoE
    connection state, arm by arm. */
module Nat25Arms {
  import opened Bytes
  import opened Skbuff
  import opened Vlan
  import opened PppoeTags
  import opened Nat25Spec

  const ETH_P_IP := 0x0800
  const ETH_P_ARP := 0x0806
  const ETH_P_PPP_DISC := 0x8863
  const ETH_P_PPP_SES := 0x8864
  const ETH_P_IPV6 := 0x86DD
  const PADO_CODE := 0x07
  const PADI_CODE := 0x09
  const PADR_CODE := 0x19
  const PADS_CODE := 0x65
  const WAIT_TIME_PPPOE := 5
  const BROADCAST: Mac := [0xFF, 0xFF, 0xFF, 0xFF, 0xFF, 0xFF]

  type Ip = a: seq<Byte> | |a| == 4 witness [0, 0, 0, 0]

  datatype Config = Config(addTag: bool, natDisabled: bool, scDisabled: bool,
                           brMac: Mac, brIp: Ip, myMac: Mac, scdbMac: Mac, scdbIp: Ip, order: Order)

  datatype State = State(db: Db, connecting: nat, pppoeAddr: Mac)

  datatype Handled = Handled(ret: int, frame: Frame, st: State)

  function Zeros(n: nat): (r: seq<Byte>)
    ensures |r| == n
  {
    seq(n, _ => 0)
  }

  function Ipv4Net(ip: Ip): NetAddr { [1] + Zeros(6) + ip + Zeros(6) }

  function Ipv6Net(ip: seq<Byte>): NetAddr
    requires |ip| == 16
  {
    [2] + ip
  }

  /** Session id and access concentrator. */
  function PppoeNet(sid: seq<Byte>, ac: Mac): NetAddr
    requires |sid| == 2
  {
    [5] + sid + ac + Zeros(8)
  }

  function Protocol(f: Frame): nat
    requires f.Valid()
  {
    U16(f.mem, 12)
  }

  function Dst(f: Frame): Mac
    requires f.Valid()
  {
    f.At(0, 6)
  }

  function IpAt(f: Frame, i: nat): Ip
    requires i + 4 <= |f.mem|
  {
    f.At(i, 4)
  }

  /** The IP header would not end inside the frame (the comparison is against the whole length). */
  predicate BadIp(f: Frame)
    requires f.Valid()
  {
    (f.mem[14] as nat % 16) * 4 >= f.len
  }

  /** The addresses of the ARP body, whose lengths the frame gives, lie in the buffer. */
  ghost predicate ArpInside(f: Frame)
    requires f.Valid()
  {
    var hln, pln := f.mem[18] as nat, f.mem[19] as nat;
    22 + 2 * hln + pln + 4 <= |f.mem| && 22 + hln + pln + 6 <= |f.mem|
  }

  predicate Discovery(f: Frame)
    requires f.Valid()
  {
    Protocol(f) == ETH_P_PPP_DISC || Protocol(f) == ETH_P_PPP_SES
  }

  predicate IsAnswer(f: Frame)
    requires f.Valid()
  {
    f.mem[15] == PADO_CODE || f.mem[15] == PADS_CODE
  }

  predicate IsRequest(f: Frame)
    requires f.Valid()
  {
    f.mem[15] == PADI_CODE || f.mem[15] == PADR_CODE
  }

  function Sid(f: Frame): (r: seq<Byte>)
    requires f.Valid()
    ensures |r| == 2
  {
    f.At(16, 2)
  }

  /** The lengths a frame states about itself do not lead out of the buffer. */
  ghost predicate Sane(f: Frame) {
    && f.Valid()
    && (Protocol(f) == ETH_P_ARP ==> ArpInside(f))
    && (Discovery(f) ==> Fits(f))
  }

  // ---------------------------------------------------------------- NAT25_LOOKUP

  /** The destination becomes the MAC the table has for net, if its entry has not expired. */
  function Replaced(f: Frame, st: State, net: NetAddr, now: Jiffies): (r: (Frame, State))
    requires f.Valid()
    ensures r.0.Valid() && |r.0.mem| == |f.mem| && r.0.len == f.len
  {
    (if Live(st.db, net, now) then f.Set(0, st.db[net].mac) else f, st.(db := LookedUp(st.db, net, now)))
  }

  function IpLookup(c: Config, f: Frame, st: State, now: Jiffies): (r: Handled)
    requires f.Valid()
    ensures r.frame.Valid()
  {
    if BadIp(f) then Handled(-1, f, st)
    else
      var net := Ipv4Net(IpAt(f, 30));
      var (g, st') := Replaced(f, st, net, now);
      if net in st.db then Handled(0, g, st')
      else Handled(0, g.Set(0, if f.mem[33] == 0xFF then BROADCAST else c.brMac), st')
  }

  function ArpLookup(f: Frame, st: State, now: Jiffies): (r: Handled)
    requires f.Valid() && ArpInside(f)
    ensures r.frame.Valid()
  {
    if U16(f.mem, 16) != ETH_P_IP then Handled(-1, f, st)
    else
      var hln, pln := f.mem[18] as nat, f.mem[19] as nat;
      var (g, st') := Replaced(f, st, Ipv4Net(IpAt(f, 22 + hln + (hln + pln))), now);
      Handled(0, g.Set(22 + hln + pln, Dst(g)), st')
  }

  function PppoeLookup(c: Config, f: Frame, st: State, now: Jiffies): (r: Handled)
    requires f.Valid() && Fits(f)
    ensures r.frame.Valid()
  {
    if IsAnswer(f) then
      if c.addTag then
        var o := StripRelay(f);
        Handled(o.ret, o.frame, st)
      else if st.connecting == 0 then Handled(-1, f, st)
      else Handled(0, f.Set(0, st.pppoeAddr), st.(connecting := WAIT_TIME_PPPOE))
    else if Sid(f) == [0, 0] then Handled(-1, f, st)
    else
      var (g, st') := Replaced(f, st, PppoeNet(Sid(f), Source(f)), now);
      Handled(0, g, st')
  }

  function DispatchLookup(c: Config, f: Frame, st: State, now: Jiffies): (r: Handled)
    requires Sane(f)
    ensures r.frame.Valid() && (r.ret == 0 || r.ret == -1)
  {
    var p := Protocol(f);
    if p == ETH_P_IP then IpLookup(c, f, st, now)
    else if p == ETH_P_ARP then ArpLookup(f, st, now)
    else if Discovery(f) then PppoeLookup(c, f, st, now)
    else if p == ETH_P_IPV6 then Ipv6Lookup(f, st, now)
    else Handled(if PassedOn(p) then 0 else -1, f, st)
  }

  /** No more than its fixed header is behind the Ethernet header. */
  predicate BadIpv6(f: Frame) { 14 <= f.len <= 54 }

  /** An address that is not found is left to the frame's own destination. */
  function Ipv6Lookup(f: Frame, st: State, now: Jiffies): (r: Handled)
    requires f.Valid()
    ensures r.frame.Valid()
  {
    if BadIpv6(f) then Handled(-1, f, st)
    else
      var (g, st') := Replaced(f, st, Ipv6Net(f.At(38, 16)), now);
      Handled(0, g, st')
  }

  /** EAP and two proprietary protocols are left alone. */
  predicate PassedOn(p: nat) { p == 0x888E || p == 0xE2AE || p == 0xE2AF }

  // ---------------------------------------------------------------- NAT25_INSERT

  function Learned(f: Frame, st: State, net: NetAddr, now: Jiffies): State
    requires f.Valid()
  {
    st.(db := Inserted(st.db, net, Source(f), now))
  }

  function IpInsert(f: Frame, st: State, now: Jiffies): Handled
    requires f.Valid()
  {
    if BadIp(f) then Handled(-1, f, st)
    else if IpAt(f, 26) == [0, 0, 0, 0] then Handled(0, f, st)
    else Handled(0, f, Learned(f, st, Ipv4Net(IpAt(f, 26)), now))
  }

  /** The sender's MAC is overwritten before its IP address is read. */
  function ArpInsert(c: Config, f: Frame, st: State, now: Jiffies): Handled
    requires f.Valid() && ArpInside(f)
  {
    if U16(f.mem, 16) != ETH_P_IP then Handled(-1, f, st)
    else
      var g := f.Set(22, c.myMac);
      Handled(0, g, Learned(g, st, Ipv4Net(IpAt(g, 22 + f.mem[18] as nat)), now))
  }

  /** A relay tag is to be put into the frame. */
  ghost predicate ToBeTagged(c: Config, f: Frame)
    requires f.Valid()
  {
    Discovery(f) && c.addTag && Sid(f) == [0, 0] && IsRequest(f)
  }

  /** Then it can be, without wrapping a length and without reading beyond the stack buffer. */
  ghost predicate Taggable(c: Config, f: Frame)
    requires f.Valid() && (Discovery(f) ==> Fits(f))
  {
    ToBeTagged(c, f) ==> Covered(f) && !OverReads(f, c.order)
  }

  function PppoeInsert(c: Config, f: Frame, st: State, now: Jiffies): Handled
    requires Fits(f) && Discovery(f) && Taggable(c, f)
  {
    if Sid(f) != [0, 0] then
      var st' := Learned(f, st, PppoeNet(Sid(f), Dst(f)), now);
      Handled(0, f, if !c.addTag && st.connecting != 0 && Source(f) == st.pppoeAddr then st'.(connecting := 0) else st')
    else if !IsRequest(f) then Handled(-1, f, st)
    else if c.addTag then
      var o := InsertRelay(f, c.order);
      Handled(o.ret, o.frame, st)
    else if st.connecting != 0 && Source(f) != st.pppoeAddr then Handled(-2, f, st)
    else Handled(0, f, State(st.db, WAIT_TIME_PPPOE, if st.connecting == 0 then Source(f) else st.pppoeAddr))
  }

  /** An ICMPv6 message, whose link-layer option would be rewritten. */
  predicate Neighbour(f: Frame)
    requires f.Valid()
  {
    f.mem[20] == 58 && f.len > 58
  }

  function Ipv6Insert(f: Frame, st: State, now: Jiffies): Handled
    requires f.Valid() && !Neighbour(f)
  {
    if BadIpv6(f) then Handled(-1, f, st)
    else if f.At(22, 16) == Zeros(16) then Handled(0, f, st)
    else Handled(0, f, Learned(f, st, Ipv6Net(f.At(22, 16)), now))
  }

  function DispatchInsert(c: Config, f: Frame, st: State, now: Jiffies): Handled
    requires Sane(f) && Taggable(c, f)
    requires Protocol(f) == ETH_P_IPV6 ==> !Neighbour(f)
  {
    var p := Protocol(f);
    if p == ETH_P_IP then IpInsert(f, st, now)
    else if p == ETH_P_ARP then ArpInsert(c, f, st, now)
    else if Discovery(f) then PppoeInsert(c, f, st, now)
    else if p == ETH_P_IPV6 then Ipv6Insert(f, st, now)
    else Handled(if PassedOn(p) then 0 else -1, f, st)
  }

  // ---------------------------------------------------------------- nat25_handle_frame

  /** The frame as the lookup sees it: the shortcut, the full lookup, or, with NAT2.5 off, a lookup
      for the bridge's own traffic only. */
  function Inner(c: Config, f: Frame, st: State, now: Jiffies): (r: Handled)
    requires Sane(f)
    ensures r.frame.Valid() && (r.ret == 0 || r.ret == -1)
  {
    if !c.natDisabled then
      if !c.scDisabled && Protocol(f) == ETH_P_IP && c.scdbIp == IpAt(f, 30) then Handled(0, f.Set(0, c.scdbMac), st)
      else DispatchLookup(c, f, st, now)
    else if (Protocol(f) == ETH_P_IP && c.brIp == IpAt(f, 30)) || (Protocol(f) == ETH_P_ARP && c.brIp == IpAt(f, 38))
      then DispatchLookup(c, f, st, now)
    else Handled(0, f, st)
  }

  predicate Multicast(f: Frame)
    requires f.Valid()
  {
    f.mem[0] % 2 == 1
  }

  ghost predicate SaneTagged(f: Frame) {
    && f.Valid() && 14 <= f.len
    && (!Multicast(f) ==> if Tagged(f) then Sane(Untag(f)) else Sane(f))
  }

  function FrameHandled(c: Config, f: Frame, st: State, now: Jiffies): Handled
    requires SaneTagged(f)
  {
    if Multicast(f) then Handled(0, f, st)
    else if Tagged(f) then
      var h := Inner(c, Untag(f), st, now);
      h.(frame := Retag(h.frame, Tci(f)))
    else Inner(c, f, st, now)
  }

  /** A tagged unicast frame is handled as its untagged self would be, and comes out with the
      tag it came in with. */
  lemma VlanConjugation(c: Config, f: Frame, tci: seq<Byte>, st: State, now: Jiffies)
    requires 14 <= f.len && SaneTagged(f) && !Multicast(f) && !Tagged(f) && |tci| == 2
    ensures SaneTagged(Retag(f, tci))
    ensures var plain, tagged := FrameHandled(c, f, st, now), FrameHandled(c, Retag(f, tci), st, now);
      && tagged.ret == plain.ret && tagged.st == plain.st
      && Tagged(tagged.frame) && Tci(tagged.frame) == tci && Untag(tagged.frame) == plain.frame
  {
    hide Inner, Sane;
    UntagRetag(f, tci);
    var g := Retag(f, tci);
    assert g.mem[0] == f.mem[0];
    UntagRetag(Inner(c, f, st, now).frame, tci);
  }

  /** A handled IP, IPv6 or ARP frame, tagged or not, keeps its length, its source address, its protocol
      and everything behind the Ethernet header except the ARP target MAC. */
  lemma PayloadKept(c: Config, f: Frame, st: State, now: Jiffies, k: nat)
    requires Sane(f) && 14 <= f.len && !Discovery(f) && 6 <= k < |f.mem|
    requires Protocol(f) == ETH_P_ARP ==> var at := 22 + f.mem[18] as nat + f.mem[19] as nat; !(at <= k < at + 6)
    ensures var h := Inner(c, f, st, now);
      h.frame.len == f.len && |h.frame.mem| == |f.mem| && h.frame.mem[k] == f.mem[k]
  {
    hide Expired, LookedUp, Frame.Set, Ipv4Net;
    if Protocol(f) == ETH_P_IP {
      IpKept(c, f, st, now, k);
    } else if Protocol(f) == ETH_P_ARP {
      ArpKept(f, st, now, k);
    }
  }

  lemma IpKept(c: Config, f: Frame, st: State, now: Jiffies, k: nat)
    requires f.Valid() && 6 <= k < |f.mem|
    ensures var h := IpLookup(c, f, st, now);
      h.frame.len == f.len && |h.frame.mem| == |f.mem| && h.frame.mem[k] == f.mem[k]
  {
    hide Expired, LookedUp, Frame.Set, Ipv4Net;
    assert Replaced(f, st, Ipv4Net(IpAt(f, 30)), now).0.mem[k] == f.mem[k];
  }

  lemma ArpKept(f: Frame, st: State, now: Jiffies, k: nat)
    requires f.Valid() && ArpInside(f) && 6 <= k < |f.mem|
    requires var at := 22 + f.mem[18] as nat + f.mem[19] as nat; !(at <= k < at + 6)
    ensures var h := ArpLookup(f, st, now);
      h.frame.len == f.len && |h.frame.mem| == |f.mem| && h.frame.mem[k] == f.mem[k]
  {
    hide Expired, LookedUp, Frame.Set, Ipv4Net;
    var hln, pln := f.mem[18] as nat, f.mem[19] as nat;
    assert Replaced(f, st, Ipv4Net(IpAt(f, 22 + hln + (hln + pln))), now).0.mem[k] == f.mem[k];
  }

  // ---------------------------------------------------------------- learned addresses are used

  /** The table is what became of one in which the client had just been learned at t0, and nothing has
      happened to that entry since. */
  ghost predicate Remembers(db: Db, before: seq<Event>, net: NetAddr, client: Mac, t0: Jiffies, es: seq<Event>) {
    db == Run(before + [Event.Insert(net, client, t0)] + es) && Quiet(es, net, t0)
  }

  /** The frame as the arms see it. */
  function Plain(f: Frame): Frame
    requires f.Valid() && 14 <= f.len
  {
    if Tagged(f) then Untag(f) else f
  }

  /** Then a lookup before it expires addresses the frame to the client. */
  lemma Delivered(f: Frame, st: State, before: seq<Event>, net: NetAddr, client: Mac, t0: Jiffies, es: seq<Event>,
                  now: Jiffies)
    requires f.Valid() && Remembers(st.db, before, net, client, t0, es) && !Expired(now, t0)
    ensures net in st.db && Dst(Replaced(f, st, net, now).0) == client
  {
    hide Expired, Run, Frame.Set;
    StaysLearned(before, net, client, t0, es);
    var g := Replaced(f, st, net, now).0;
    assert forall k {:trigger g.mem[k]} :: 0 <= k < 6 ==> g.mem[k] == client[k];
    assert Dst(g) == client;
  }

  /** A VLAN tag makes no difference to where a frame goes. */
  lemma TagAside(c: Config, f: Frame, st: State, now: Jiffies)
    requires SaneTagged(f) && !Multicast(f)
    ensures var h, i := FrameHandled(c, f, st, now), Inner(c, Plain(f), st, now);
      h.ret == i.ret && h.frame.Valid() && Dst(h.frame) == Dst(i.frame)
  {
    hide Inner, Sane;
    if Tagged(f) {
      var h := Inner(c, Untag(f), st, now).frame;
      assert Retag(h, Tci(f)).mem[..6] == h.mem[..6];
    }
  }

  lemma JustLearned(before: seq<Event>, net: NetAddr, client: Mac, t0: Jiffies)
    ensures Run(before + [Event.Insert(net, client, t0)]) == Inserted(Run(before), net, client, t0)
  {
    var all := before + [Event.Insert(net, client, t0)];
    assert all[..|all| - 1] == before;
  }

  /** MAIN: once a client's IP packet has been handled at t0, a unicast frame for the packet's source
      address, VLAN-tagged or not, is addressed to that client, whatever the table went through in
      between, as long as the entry has not expired and no other client claimed the address. */
  lemma ClientReached(c: Config, up: Frame, st: State, before: seq<Event>, t0: Jiffies, es: seq<Event>,
                      down: Frame, st': State, now: Jiffies)
    requires Sane(up) && Protocol(up) == ETH_P_IP && !BadIp(up) && IpAt(up, 26) != [0, 0, 0, 0]
    requires st.db == Run(before) && Remembers(st'.db, before, Ipv4Net(IpAt(up, 26)), Source(up), t0, es)
    requires SaneTagged(down) && !Multicast(down) && !c.natDisabled && (c.scDisabled || c.scdbIp != IpAt(up, 26))
    requires var g := Plain(down); Protocol(g) == ETH_P_IP && !BadIp(g) && IpAt(g, 30) == IpAt(up, 26)
    requires !Expired(now, t0)
    ensures IpInsert(up, st, t0).st.db == Run(before + [Event.Insert(Ipv4Net(IpAt(up, 26)), Source(up), t0)])
    ensures var h := FrameHandled(c, down, st', now); h.ret == 0 && h.frame.Valid() && Dst(h.frame) == Source(up)
  {
    hide Expired, BadIp, Ipv4Net, Remembers, Replaced, Inserted, FrameHandled, Run;
    var net := Ipv4Net(IpAt(up, 26));
    JustLearned(before, net, Source(up), t0);
    Delivered(Plain(down), st', before, net, Source(up), t0, es, now);
    TagAside(c, down, st', now);
  }

  /** MAIN: the same for IPv6. */
  lemma Ipv6ClientReached(c: Config, up: Frame, st: State, before: seq<Event>, t0: Jiffies, es: seq<Event>,
                          down: Frame, st': State, now: Jiffies)
    requires Sane(up) && !Neighbour(up) && !BadIpv6(up) && up.At(22, 16) != Zeros(16)
    requires st.db == Run(before) && Remembers(st'.db, before, Ipv6Net(up.At(22, 16)), Source(up), t0, es)
    requires SaneTagged(down) && !Multicast(down) && !c.natDisabled
    requires var g := Plain(down); Protocol(g) == ETH_P_IPV6 && !BadIpv6(g) && g.At(38, 16) == up.At(22, 16)
    requires !Expired(now, t0)
    ensures Ipv6Insert(up, st, t0).st.db == Run(before + [Event.Insert(Ipv6Net(up.At(22, 16)), Source(up), t0)])
    ensures var h := FrameHandled(c, down, st', now); h.ret == 0 && h.frame.Valid() && Dst(h.frame) == Source(up)
  {
    hide Expired, Ipv6Net, Remembers, Replaced, Inserted, FrameHandled, Run;
    var net := Ipv6Net(up.At(22, 16));
    JustLearned(before, net, Source(up), t0);
    Delivered(Plain(down), st', before, net, Source(up), t0, es, now);
    TagAside(c, down, st', now);
  }

  /** MAIN: and for a PPPoE session: once the client has sent a frame of it to the access concentrator,
      what that concentrator sends in the session goes to the client. */
  lemma SessionReached(c: Config, up: Frame, st: State, before: seq<Event>, t0: Jiffies, es: seq<Event>,
                       down: Frame, st': State, now: Jiffies)
    requires Sane(up) && Discovery(up) && Sid(up) != [0, 0]
    requires st.db == Run(before) && Remembers(st'.db, before, PppoeNet(Sid(up), Dst(up)), Source(up), t0, es)
    requires SaneTagged(down) && !Multicast(down) && !c.natDisabled
    requires var g := Plain(down); Discovery(g) && !IsAnswer(g) && Sid(g) == Sid(up) && Source(g) == Dst(up)
    requires !Expired(now, t0)
    ensures PppoeInsert(c, up, st, t0).st.db == Run(before + [Event.Insert(PppoeNet(Sid(up), Dst(up)), Source(up), t0)])
    ensures var h := FrameHandled(c, down, st', now); h.ret == 0 && h.frame.Valid() && Dst(h.frame) == Source(up)
  {
    hide Expired, PppoeNet, Remembers, Replaced, Inserted, FrameHandled, Run, Covered, OverReads, InsertRelay,
      StripRelay, Fits;
    var net := PppoeNet(Sid(up), Dst(up));
    JustLearned(before, net, Source(up), t0);
    Delivered(Plain(down), st', before, net, Source(up), t0, es, now);
    TagAside(c, down, st', now);
  }

  /** MAIN: an ARP message for the address of a client that is remembered goes to that client, and names it
      as the target in its body too. */
  lemma ArpReached(c: Config, ip: Ip, client: Mac, before: seq<Event>, t0: Jiffies, es: seq<Event>,
                   f: Frame, st: State, now: Jiffies)
    requires Remembers(st.db, before, Ipv4Net(ip), client, t0, es) && !Expired(now, t0) && !c.natDisabled
    requires Sane(f) && Protocol(f) == ETH_P_ARP && U16(f.mem, 16) == ETH_P_IP
    requires var hln, pln := f.mem[18] as nat, f.mem[19] as nat; IpAt(f, 22 + hln + (hln + pln)) == ip
    ensures var h, at := Inner(c, f, st, now), 22 + f.mem[18] as nat + f.mem[19] as nat;
      h.ret == 0 && Dst(h.frame) == client && at + 6 <= |h.frame.mem| && h.frame.At(at, 6) == client
  {
    hide Expired, Ipv4Net, Remembers, Replaced, Frame.Set, Run;
    Delivered(f, st, before, Ipv4Net(ip), client, t0, es, now);
    var g, at := Replaced(f, st, Ipv4Net(ip), now).0, 22 + f.mem[18] as nat + f.mem[19] as nat;
    NamedToo(g, at, client);
  }

  lemma NamedToo(g: Frame, at: nat, client: Mac)
    requires g.Valid() && 6 <= at && at + 6 <= |g.mem| && Dst(g) == client
    ensures var h := g.Set(at, client); Dst(h) == client && h.At(at, 6) == client
  {
    var h := g.Set(at, client);
    assert forall k {:trigger h.mem[k]} :: 0 <= k < 6 ==> h.mem[k] == g.mem[k];
    assert forall k {:trigger client[k]} :: 0 <= k < 6 ==> h.mem[at + k] == client[k];
    assert Dst(h) == Dst(g) && h.At(at, 6) == client;
  }
}
