/** Where nat25_handle_frame sends a downlink frame, arm by arm and without the functions of the arms, for
    tagged and untagged frames alike. */
module Nat25Delivery {
  import opened Bytes
  import opened Skbuff
  import opened Vlan
  import opened PppoeTags
  import opened Nat25Spec
  import opened Nat25Arms

  /** The frame comes out as it came in but for its destination, with this answer and this state. */
  ghost predicate SentOn(f: Frame, h: Handled, ret: int, dst: Mac, st: State) {
    && h.ret == ret && h.st == st && h.frame.Valid() && f.Valid() && Dst(h.frame) == dst
    && h.frame.len == f.len && h.frame.room == f.room && |h.frame.mem| == |f.mem|
    && forall k :: 6 <= k < |f.mem| ==> h.frame.mem[k] == f.mem[k]
  }

  /** If the frame without its tag comes out so, the frame itself does. */
  lemma TagKept(c: Config, f: Frame, st: State, now: Jiffies, ret: int, dst: Mac, st': State)
    requires SaneTagged(f) && !Multicast(f) && SentOn(Plain(f), Inner(c, Plain(f), st, now), ret, dst, st')
    ensures SentOn(f, FrameHandled(c, f, st, now), ret, dst, st')
  {
    hide Inner, Sane;
    TagAside(c, f, st, now);
    if Tagged(f) {
      var h := Inner(c, Untag(f), st, now).frame;
      var r := Retag(h, Tci(f));
      U16Bytes(f.mem, 12, ETH_P_8021Q);
      forall k | 6 <= k < |f.mem| ensures r.mem[k] == f.mem[k]
      {
        if k >= 16 {
          assert r.mem[k] == h.mem[k - 4] && Untag(f).mem[k - 4] == f.mem[k];
        } else if k >= 12 {
          assert f.mem[12..14] == Be16(ETH_P_8021Q);
          assert f.mem[12..14][0] == f.mem[12] && f.mem[12..14][1] == f.mem[13];
        } else {
          assert r.mem[k] == h.mem[k] && Untag(f).mem[k] == f.mem[k];
        }
      }
    }
  }

  /** Only the destination has been stored into. */
  lemma Redirect(f: Frame, dst: Mac)
    requires f.Valid()
    ensures f.Set(0, dst).Valid() && Dst(f.Set(0, dst)) == dst
    ensures forall k :: 6 <= k < |f.mem| ==> f.Set(0, dst).mem[k] == f.mem[k]
  {
    var g := f.Set(0, dst);
    assert forall k {:trigger dst[k]} :: 0 <= k < 6 ==> g.mem[k] == dst[k];
    assert Dst(g) == dst;
  }

  /** MAIN: multicast frames are left alone. */
  lemma MulticastLeft(c: Config, f: Frame, st: State, now: Jiffies)
    requires SaneTagged(f) && f.mem[0] % 2 == 1
    ensures FrameHandled(c, f, st, now) == Handled(0, f, st)
  {
  }

  // ---------------------------------------------------------------- IPv4

  /** An IPv4 frame whose header ends before the frame does. */
  predicate GoodIp(g: Frame)
    requires g.Valid()
  {
    U16(g.mem, 12) == 0x0800 && (g.mem[14] as nat % 16) * 4 < g.len
  }

  /** The shortcut is for another address, or off. */
  predicate NoShortcut(c: Config, g: Frame)
    requires g.Valid()
  {
    c.scDisabled || c.scdbIp != g.At(30, 4)
  }

  /** MAIN: an IPv4 address nobody has been learned for leads to the bridge, unless its last octet is 255:
      then to everybody. */
  lemma UnknownClient(c: Config, f: Frame, st: State, now: Jiffies)
    requires SaneTagged(f) && !Multicast(f) && !c.natDisabled
    requires var g := Plain(f); GoodIp(g) && NoShortcut(c, g) && Ipv4Net(g.At(30, 4)) !in st.db
    ensures SentOn(f, FrameHandled(c, f, st, now), 0, if Plain(f).mem[33] == 255 then BROADCAST else c.brMac, st)
  {
    hide Frame.Set, Ipv4Net, Expired, FrameHandled;
    var g := Plain(f);
    var dst := if g.mem[33] == 255 then BROADCAST else c.brMac;
    Redirect(g, dst);
    TagKept(c, f, st, now, 0, dst, st);
  }

  /** MAIN: one whose entry has expired is left with the frame's own destination, and not counted. */
  lemma ExpiredClient(c: Config, f: Frame, st: State, now: Jiffies)
    requires SaneTagged(f) && !Multicast(f) && !c.natDisabled
    requires var g := Plain(f); GoodIp(g) && NoShortcut(c, g)
    requires var net := Ipv4Net(Plain(f).At(30, 4)); net in st.db && Expired(now, st.db[net].age)
    ensures SentOn(f, FrameHandled(c, f, st, now), 0, Dst(Plain(f)), st)
  {
    hide Frame.Set, Ipv4Net, Expired, FrameHandled;
    TagKept(c, f, st, now, 0, Dst(Plain(f)), st);
  }

  /** MAIN: a live one is sent to its client, and counted. */
  lemma KnownClient(c: Config, f: Frame, st: State, now: Jiffies)
    requires SaneTagged(f) && !Multicast(f) && !c.natDisabled
    requires var g := Plain(f); GoodIp(g) && NoShortcut(c, g)
    requires var net := Ipv4Net(Plain(f).At(30, 4)); net in st.db && !Expired(now, st.db[net].age)
    ensures var net := Ipv4Net(Plain(f).At(30, 4));
      var r := st.db[net];
      SentOn(f, FrameHandled(c, f, st, now), 0, r.mac, st.(db := st.db[net := Rec(r.mac, r.age, r.use + 1)]))
  {
    hide Frame.Set, Ipv4Net, Expired, FrameHandled;
    var g := Plain(f);
    var net := Ipv4Net(g.At(30, 4));
    var r := st.db[net];
    Redirect(g, r.mac);
    TagKept(c, f, st, now, 0, r.mac, st.(db := st.db[net := Rec(r.mac, r.age, r.use + 1)]));
  }

  /** MAIN: the shortcut leads to its client without a look at the table. */
  lemma ShortcutTaken(c: Config, f: Frame, st: State, now: Jiffies)
    requires SaneTagged(f) && !Multicast(f) && !c.natDisabled && !c.scDisabled
    requires var g := Plain(f); U16(g.mem, 12) == 0x0800 && c.scdbIp == g.At(30, 4)
    ensures SentOn(f, FrameHandled(c, f, st, now), 0, c.scdbMac, st)
  {
    hide Frame.Set, Expired, FrameHandled;
    Redirect(Plain(f), c.scdbMac);
    TagKept(c, f, st, now, 0, c.scdbMac, st);
  }

  /** A frame that ends inside its IP or IPv6 header, an ARP message that is not for IPv4, and a PPPoE frame
      without session that is no answer are refused. */
  lemma MalformedRefused(c: Config, f: Frame, st: State, now: Jiffies)
    requires SaneTagged(f) && !Multicast(f) && !c.natDisabled
    requires var g := Plain(f);
      || (U16(g.mem, 12) == 0x0800 && (g.mem[14] as nat % 16) * 4 >= g.len && NoShortcut(c, g))
      || (U16(g.mem, 12) == 0x86DD && 14 <= g.len <= 54)
      || (U16(g.mem, 12) == 0x0806 && U16(g.mem, 16) != 0x0800)
      || (Discovery(g) && g.mem[15] !in {0x07, 0x65} && g.At(16, 2) == [0, 0])
    ensures SentOn(f, FrameHandled(c, f, st, now), -1, Dst(Plain(f)), st)
  {
    hide Frame.Set, Expired, FrameHandled, StripRelay, ArpInside;
    TagKept(c, f, st, now, -1, Dst(Plain(f)), st);
  }

  // ---------------------------------------------------------------- with NAT2.5 off

  /** IPv4 to the bridge, or ARP that asks for it (taken to have addresses of the usual lengths). */
  predicate ForBridge(c: Config, g: Frame)
    requires g.Valid()
  {
    (U16(g.mem, 12) == 0x0800 && g.At(30, 4) == c.brIp) || (U16(g.mem, 12) == 0x0806 && g.At(38, 4) == c.brIp)
  }

  /** MAIN: with NAT2.5 off nothing but the bridge's own traffic is touched, and that is handled as with
      NAT2.5 on and the shortcut off. */
  lemma NatOff(c: Config, f: Frame, st: State, now: Jiffies)
    requires SaneTagged(f) && !Multicast(f) && c.natDisabled
    ensures !ForBridge(c, Plain(f)) ==> SentOn(f, FrameHandled(c, f, st, now), 0, Dst(Plain(f)), st)
    ensures ForBridge(c, Plain(f)) ==>
      FrameHandled(c, f, st, now) == FrameHandled(c.(natDisabled := false, scDisabled := true), f, st, now)
  {
    hide DispatchLookup;
    var g, on := Plain(f), c.(natDisabled := false, scDisabled := true);
    if ForBridge(c, g) {
      AsWithNat(g, c, on, st, now);
    } else {
      TagKept(c, f, st, now, 0, Dst(g), st);
    }
  }

  /** The lookup itself asks only for the bridge's MAC and whether relay tags are added. */
  lemma AsWithNat(g: Frame, c: Config, d: Config, st: State, now: Jiffies)
    requires Sane(g) && ForBridge(c, g) && c.natDisabled && d == c.(natDisabled := false, scDisabled := true)
    ensures Inner(c, g, st, now) == Inner(d, g, st, now)
  {
    hide Sane, ArpLookup, Replaced, PppoeLookup, Ipv6Lookup, Frame.Set;
  }

  // ---------------------------------------------------------------- the other protocols

  /** ARP, IPv6 or a PPPoE session for an address nobody has been learned for, or too long ago: the
      destination stays, and ARP names it as the target. */
  lemma UnknownElsewhere(c: Config, f: Frame, st: State, now: Jiffies, net: NetAddr)
    requires SaneTagged(f) && !Multicast(f) && !c.natDisabled
    requires net !in st.db || Expired(now, st.db[net].age)
    requires var g := Plain(f);
      || (U16(g.mem, 12) == 0x86DD && !(14 <= g.len <= 54) && net == Ipv6Net(g.At(38, 16)))
      || (Discovery(g) && !IsAnswer(g) && g.At(16, 2) != [0, 0] && net == PppoeNet(g.At(16, 2), Source(g)))
    ensures SentOn(f, FrameHandled(c, f, st, now), 0, Dst(Plain(f)), st)
  {
    hide Frame.Set, Ipv6Net, PppoeNet, Expired, FrameHandled, StripRelay;
    TagKept(c, f, st, now, 0, Dst(Plain(f)), st);
  }

  lemma UnknownArp(c: Config, g: Frame, st: State, now: Jiffies)
    requires Sane(g) && !c.natDisabled && U16(g.mem, 12) == 0x0806 && U16(g.mem, 16) == 0x0800
    requires var hln, pln := g.mem[18] as nat, g.mem[19] as nat;
      var net := Ipv4Net(g.At(22 + hln + (hln + pln), 4)); net !in st.db || Expired(now, st.db[net].age)
    ensures Inner(c, g, st, now) == Handled(0, g.Set(22 + g.mem[18] as nat + g.mem[19] as nat, Dst(g)), st)
  {
    hide Frame.Set, Ipv4Net, Expired;
  }

  /** MAIN: of what is none of these, EAP and two proprietary protocols pass, and the rest is refused. */
  lemma OtherProtocols(c: Config, f: Frame, st: State, now: Jiffies)
    requires SaneTagged(f) && !Multicast(f) && !c.natDisabled
    requires U16(Plain(f).mem, 12) !in {0x0800, 0x0806, 0x8863, 0x8864, 0x86DD}
    ensures SentOn(f, FrameHandled(c, f, st, now),
                   if U16(Plain(f).mem, 12) in {0x888E, 0xE2AE, 0xE2AF} then 0 else -1, Dst(Plain(f)), st)
  {
    hide Frame.Set, Expired, FrameHandled;
    TagKept(c, f, st, now, if U16(Plain(f).mem, 12) in {0x888E, 0xE2AE, 0xE2AF} then 0 else -1, Dst(Plain(f)), st);
  }
}
