/** The frame handlers of core/rtw_br_ext.c at work on a socket buffer and the hash table. */
module Nat25Frames {
  import opened Bytes
  import opened Skbuff
  import opened PppoeTags
  import opened Nat25Spec
  import opened Nat25Arms
  import Nat25Table
  import Pppoe
  import Vlan

  class Nat25 {
    const c: Config
    const table: Nat25Table.Bridge
    var connecting: nat
    var pppoeAddr: Mac

    constructor (c: Config)
      ensures table.Valid() && fresh(table) && fresh(table.nethash) && this.c == c
      ensures Snapshot() == State(map[], 0, BROADCAST)
    {
      this.c, connecting, pppoeAddr := c, 0, BROADCAST;
      table := new Nat25Table.Bridge();
    }

    ghost predicate Ready(skb: Skb)
      reads this, table, table.nethash, table.Entries(), skb
    {
      skb.Valid() && table.Valid() && skb.buf as object != table.nethash as object
    }

    ghost function Snapshot(): State
      reads this, table
    {
      State(table.db, connecting, pppoeAddr)
    }

    /** The table has nothing to do with the frame's bytes. */
    method Store(skb: Skb, i: nat, b: seq<Byte>)
      requires Ready(skb) && i + |b| <= |skb.View().mem|
      modifies skb.buf
      ensures Ready(skb) && skb.View() == old(skb.View()).Set(i, b)
    {
      hide Skb.View, Frame.Set, Nat25Table.Bridge.Valid;
      assert forall e :: e in table.Entries() ==> e as object != skb.buf;
      skb.Store(i, b);
    }

    /** __nat25_db_network_lookup_and_replace on the frame. */
    method Replace(skb: Skb, net: NetAddr, now: Jiffies) returns (found: bool)
      requires Ready(skb)
      modifies skb.buf, table`db, table.Entries()`mac, table.Entries()`age, table.Entries()`use
      ensures Ready(skb) && found == (net in old(table.db))
      ensures (skb.View(), Snapshot()) == Replaced(old(skb.View()), old(Snapshot()), net, now)
    {
      hide Expired, LookedUp, Skb.View, Frame.Set, Nat25Table.Bridge.Valid;
      ghost var f, db0 := skb.View(), table.db;
      var dst := skb.Get(0, 6);
      var mac;
      found, mac := table.LookupAndReplace(net, now, dst);
      if mac != dst {
        Store(skb, 0, mac);
      } else {
        SetSame(f, 0, mac);
      }
    }

    lemma SetSame(f: Frame, i: nat, b: seq<Byte>)
      requires i + |b| <= |f.mem| && f.At(i, |b|) == b
      ensures f.Set(i, b) == f
    {
      assert f.Set(i, b).mem == f.mem;
    }

    // ---------------------------------------------------------------- NAT25_LOOKUP

    method LookupIp(skb: Skb, now: Jiffies) returns (ret: int)
      requires Ready(skb)
      modifies skb.buf, table`db, table.Entries()`mac, table.Entries()`age, table.Entries()`use
      ensures Ready(skb)
      ensures Handled(ret, skb.View(), Snapshot()) == IpLookup(c, old(skb.View()), old(Snapshot()), now)
    {
      hide Expired, LookedUp, Skb.View, Frame.Set, Nat25Table.Bridge.Valid, Ipv4Net;
      var ihl := skb.Get(14, 1);
      if (ihl[0] as nat % 16) * 4 >= skb.len {
        return -1;
      }
      var daddr := skb.Get(30, 4);
      var found := Replace(skb, Ipv4Net(daddr), now);
      if !found {
        Store(skb, 0, if daddr[3] == 0xFF then BROADCAST else c.brMac);
      }
      ret := 0;
    }

    method LookupArp(skb: Skb, now: Jiffies) returns (ret: int)
      requires Ready(skb) && ArpInside(skb.View())
      modifies skb.buf, table`db, table.Entries()`mac, table.Entries()`age, table.Entries()`use
      ensures Ready(skb)
      ensures Handled(ret, skb.View(), Snapshot()) == ArpLookup(old(skb.View()), old(Snapshot()), now)
    {
      hide Expired, LookedUp, Skb.View, Frame.Set, Nat25Table.Bridge.Valid, Ipv4Net;
      if skb.U16At(16) != ETH_P_IP {
        return -1;
      }
      ghost var f := skb.View();
      var lens := skb.Get(18, 2);
      assert lens[0] == f.mem[18] && lens[1] == f.mem[19];
      var arpPtr := 22 + lens[0] as nat;
      arpPtr := arpPtr + (lens[0] as nat + lens[1] as nat);
      var target := skb.Get(arpPtr, 4);
      var _ := Replace(skb, Ipv4Net(target), now);
      var dst := skb.Get(0, 6);
      Store(skb, 22 + lens[0] as nat + lens[1] as nat, dst);
      ret := 0;
    }

    method LookupPppoe(skb: Skb, now: Jiffies) returns (ret: int)
      requires Ready(skb) && Fits(skb.View())
      modifies skb.buf, skb`len, this`connecting, table`db, table.Entries()`mac, table.Entries()`age, table.Entries()`use
      ensures Ready(skb)
      ensures Handled(ret, skb.View(), Snapshot()) == PppoeLookup(c, old(skb.View()), old(Snapshot()), now)
    {
      hide Expired, LookedUp, Skb.View, Frame.Set, Nat25Table.Bridge.Valid, PppoeNet, StripRelay;
      var code := skb.Get(15, 1);
      var sid := skb.Get(16, 2);
      if code[0] == PADO_CODE || code[0] == PADS_CODE {
        if c.addTag {
          ret := StripAnswer(skb);
          return;
        }
        if connecting == 0 {
          return -1;
        }
        Store(skb, 0, pppoeAddr);
        connecting := WAIT_TIME_PPPOE;
        return 0;
      }
      if sid == [0, 0] {
        return -1;
      }
      var ac := skb.Get(6, 6);
      var _ := Replace(skb, PppoeNet(sid, ac), now);
      ret := 0;
    }

    method LookupIpv6(skb: Skb, now: Jiffies) returns (ret: int)
      requires Ready(skb)
      modifies skb.buf, table`db, table.Entries()`mac, table.Entries()`age, table.Entries()`use
      ensures Ready(skb)
      ensures Handled(ret, skb.View(), Snapshot()) == Ipv6Lookup(old(skb.View()), old(Snapshot()), now)
    {
      hide Expired, LookedUp, Skb.View, Frame.Set, Nat25Table.Bridge.Valid, Ipv6Net;
      if 14 <= skb.len && 40 >= skb.len - 14 {
        return -1;
      }
      var daddr := skb.Get(38, 16);
      var _ := Replace(skb, Ipv6Net(daddr), now);
      ret := 0;
    }

    method StripAnswer(skb: Skb) returns (ret: int)
      requires Ready(skb) && Fits(skb.View())
      modifies skb.buf, skb`len
      ensures Ready(skb) && Outcome(ret, skb.View()) == StripRelay(old(skb.View()))
    {
      hide Skb.View, StripRelay, Fits, Nat25Table.Bridge.Valid;
      assert forall e :: e in table.Entries() ==> e as object != skb.buf && e as object != skb;
      ret := Pppoe.Strip(skb);
    }

    /** nat25_db_handle with NAT25_LOOKUP. */
    method HandleLookup(skb: Skb, now: Jiffies) returns (ret: int)
      requires Ready(skb) && Sane(skb.View())
      modifies skb.buf, skb`len, this`connecting, table`db, table.Entries()`mac, table.Entries()`age, table.Entries()`use
      ensures Ready(skb)
      ensures Handled(ret, skb.View(), Snapshot()) == DispatchLookup(c, old(skb.View()), old(Snapshot()), now)
    {
      hide Skb.View, Nat25Table.Bridge.Valid, IpLookup, ArpLookup, PppoeLookup, Ipv6Lookup, ArpInside, Fits;
      var protocol := skb.U16At(12);
      if protocol == ETH_P_IP {
        ret := LookupIp(skb, now);
      } else if protocol == ETH_P_ARP {
        ret := LookupArp(skb, now);
      } else if protocol == ETH_P_PPP_DISC || protocol == ETH_P_PPP_SES {
        ret := LookupPppoe(skb, now);
      } else if protocol == ETH_P_IPV6 {
        ret := LookupIpv6(skb, now);
      } else {
        ret := if PassedOn(protocol) then 0 else -1;
      }
    }

    // ---------------------------------------------------------------- NAT25_INSERT

    /** __nat25_db_network_insert of the frame's source. */
    method Learn(skb: Skb, net: NetAddr, now: Jiffies)
      requires Ready(skb)
      modifies table`chains, table`db, table.nethash, table.Entries()
      ensures Ready(skb) && skb.View() == old(skb.View())
      ensures Snapshot() == Learned(skb.View(), old(Snapshot()), net, now)
    {
      hide Nat25Table.Bridge.Valid, Inserted;
      var src := skb.Get(6, 6);
      table.DbInsert(net, src, now);
    }

    method InsertIp(skb: Skb, now: Jiffies) returns (ret: int)
      requires Ready(skb)
      modifies table`chains, table`db, table.nethash, table.Entries()
      ensures Ready(skb)
      ensures Handled(ret, skb.View(), Snapshot()) == IpInsert(old(skb.View()), old(Snapshot()), now)
    {
      hide Skb.View, Nat25Table.Bridge.Valid, Ipv4Net, Inserted;
      var ihl := skb.Get(14, 1);
      if (ihl[0] as nat % 16) * 4 >= skb.len {
        return -1;
      }
      var saddr := skb.Get(26, 4);
      if saddr == [0, 0, 0, 0] {
        return 0;
      }
      Learn(skb, Ipv4Net(saddr), now);
      ret := 0;
    }

    method InsertArp(skb: Skb, now: Jiffies) returns (ret: int)
      requires Ready(skb) && ArpInside(skb.View())
      modifies skb.buf, table`chains, table`db, table.nethash, table.Entries()
      ensures Ready(skb)
      ensures Handled(ret, skb.View(), Snapshot()) == ArpInsert(c, old(skb.View()), old(Snapshot()), now)
    {
      hide Skb.View, Frame.Set, Nat25Table.Bridge.Valid, Ipv4Net, Inserted;
      ghost var f := skb.View();
      if skb.U16At(16) != ETH_P_IP {
        return -1;
      }
      var hln := skb.Get(18, 1);
      assert hln[0] == f.mem[18];
      Store(skb, 22, c.myMac);
      var sender := skb.Get(22 + hln[0] as nat, 4);
      Learn(skb, Ipv4Net(sender), now);
      ret := 0;
    }

    method InsertPppoe(skb: Skb, now: Jiffies) returns (ret: int)
      requires Ready(skb) && Fits(skb.View()) && Discovery(skb.View()) && Taggable(c, skb.View())
      modifies skb.buf, skb`len, this`connecting, this`pppoeAddr
      modifies table`chains, table`db, table.nethash, table.Entries()
      ensures Ready(skb)
      ensures Handled(ret, skb.View(), Snapshot()) == PppoeInsert(c, old(skb.View()), old(Snapshot()), now)
    {
      hide Skb.View, Nat25Table.Bridge.Valid, PppoeNet, Inserted, InsertRelay, Covered, OverReads;
      ghost var f := skb.View();
      var sid := skb.Get(16, 2);
      var src := skb.Get(6, 6);
      if sid == [0, 0] {
        var code := skb.Get(15, 1);
        assert code[0] == f.mem[15];
        if code[0] != PADI_CODE && code[0] != PADR_CODE {
          return -1;
        }
        if c.addTag {
          ret := TagRequest(skb);
          return;
        }
        if connecting != 0 && src != pppoeAddr {
          return -2;
        }
        if connecting == 0 {
          pppoeAddr := src;
        }
        connecting := WAIT_TIME_PPPOE;
        return 0;
      }
      var ac := skb.Get(0, 6);
      Learn(skb, PppoeNet(sid, ac), now);
      assert forall e :: e in table.Entries() ==> e as object != this;
      if !c.addTag && connecting != 0 && src == pppoeAddr {
        connecting := 0;
      }
      ret := 0;
    }

    method InsertIpv6(skb: Skb, now: Jiffies) returns (ret: int)
      requires Ready(skb) && !Neighbour(skb.View())
      modifies table`chains, table`db, table.nethash, table.Entries()
      ensures Ready(skb)
      ensures Handled(ret, skb.View(), Snapshot()) == Ipv6Insert(old(skb.View()), old(Snapshot()), now)
    {
      hide Skb.View, Nat25Table.Bridge.Valid, Ipv6Net, Inserted;
      if 14 <= skb.len && 40 >= skb.len - 14 {
        return -1;
      }
      var saddr := skb.Get(22, 16);
      if saddr == Zeros(16) {
        return 0;
      }
      Learn(skb, Ipv6Net(saddr), now);
      ret := 0;
    }

    method TagRequest(skb: Skb) returns (ret: int)
      requires Ready(skb) && Fits(skb.View()) && Covered(skb.View()) && !OverReads(skb.View(), c.order)
      modifies skb.buf, skb`len
      ensures Ready(skb) && Outcome(ret, skb.View()) == InsertRelay(old(skb.View()), c.order)
    {
      hide Skb.View, InsertRelay, Fits, Covered, OverReads, Nat25Table.Bridge.Valid;
      assert forall e :: e in table.Entries() ==> e as object != skb.buf && e as object != skb;
      ret := Pppoe.Insert(skb, c.order);
    }

    /** nat25_db_handle with NAT25_INSERT. */
    method HandleInsert(skb: Skb, now: Jiffies) returns (ret: int)
      requires Ready(skb) && Sane(skb.View())
      requires Taggable(c, skb.View())
      requires Protocol(skb.View()) == ETH_P_IPV6 ==> !Neighbour(skb.View())
      modifies skb.buf, skb`len, this`connecting, this`pppoeAddr
      modifies table`chains, table`db, table.nethash, table.Entries()
      ensures Ready(skb)
      ensures Handled(ret, skb.View(), Snapshot()) == DispatchInsert(c, old(skb.View()), old(Snapshot()), now)
    {
      hide Skb.View, Nat25Table.Bridge.Valid, IpInsert, ArpInsert, PppoeInsert, Ipv6Insert, ArpInside,
        Neighbour, Fits, Covered, OverReads;
      var protocol := skb.U16At(12);
      if protocol == ETH_P_IP {
        ret := InsertIp(skb, now);
      } else if protocol == ETH_P_ARP {
        ret := InsertArp(skb, now);
      } else if protocol == ETH_P_PPP_DISC || protocol == ETH_P_PPP_SES {
        ret := InsertPppoe(skb, now);
      } else if protocol == ETH_P_IPV6 {
        ret := InsertIpv6(skb, now);
      } else {
        ret := if PassedOn(protocol) then 0 else -1;
      }
    }

    // ---------------------------------------------------------------- nat25_handle_frame

    /** What happens between taking the VLAN tag out and putting it back. */
    method HandleInner(skb: Skb, now: Jiffies) returns (ret: int)
      requires Ready(skb) && Sane(skb.View())
      modifies skb.buf, skb`len, this`connecting, table`db, table.Entries()`mac, table.Entries()`age, table.Entries()`use
      ensures Ready(skb)
      ensures Handled(ret, skb.View(), Snapshot()) == Inner(c, old(skb.View()), old(Snapshot()), now)
    {
      hide Skb.View, Nat25Table.Bridge.Valid, Sane, DispatchLookup, Frame.Set;
      var protocol := skb.U16At(12);
      var daddr := skb.Get(30, 4);
      var target := skb.Get(38, 4);
      ret := 0;
      if !c.natDisabled {
        if !c.scDisabled && protocol == ETH_P_IP && c.scdbIp == daddr {
          Store(skb, 0, c.scdbMac);
        } else {
          ret := HandleLookup(skb, now);
        }
      } else if (protocol == ETH_P_IP && c.brIp == daddr) || (protocol == ETH_P_ARP && c.brIp == target) {
        ret := HandleLookup(skb, now);
      }
    }

    /** MAIN: the in-place handling of a frame, with its VLAN tag shifted out and back in, is handling the
        untagged frame and putting the same tag back; the table's chains stay those of the map. */
    method HandleFrame(skb: Skb, now: Jiffies) returns (ret: int)
      requires Ready(skb) && SaneTagged(skb.View())
      modifies skb.buf, skb`data, skb`len
      modifies this`connecting, table`db, table.Entries()`mac, table.Entries()`age, table.Entries()`use
      ensures Ready(skb)
      ensures Handled(ret, skb.View(), Snapshot()) == FrameHandled(c, old(skb.View()), old(Snapshot()), now)
    {
      hide Skb.View, Nat25Table.Bridge.Valid, Sane, Inner, Vlan.Untag, Vlan.Retag;
      ghost var f := skb.View();
      var first := skb.Get(0, 1);
      assert first[0] == f.mem[0];
      ret := 0;
      if first[0] % 2 == 0 {
        if skb.U16At(12) == Vlan.ETH_P_8021Q {
          ret := HandleTagged(skb, now);
        } else {
          ret := HandleInner(skb, now);
        }
      }
    }

    method HandleTagged(skb: Skb, now: Jiffies) returns (ret: int)
      requires Ready(skb) && 14 <= skb.len && Vlan.Tagged(skb.View()) && Sane(Vlan.Untag(skb.View()))
      modifies skb.buf, skb`data, skb`len
      modifies this`connecting, table`db, table.Entries()`mac, table.Entries()`age, table.Entries()`use
      ensures Ready(skb)
      ensures var f := old(skb.View()); var h := Inner(c, Vlan.Untag(f), old(Snapshot()), now);
        Handled(ret, skb.View(), Snapshot()) == h.(frame := Vlan.Retag(h.frame, Vlan.Tci(f)))
    {
      hide Skb.View, Nat25Table.Bridge.Valid, Sane, Inner, Vlan.Untag, Vlan.Retag, Vlan.Tci;
      assert forall e :: e in table.Entries() ==> e as object != skb.buf && e as object != skb;
      var tci := Vlan.Strip(skb);
      ret := HandleInner(skb, now);
      assert forall e :: e in table.Entries() ==> e as object != skb.buf && e as object != skb;
      Vlan.Restore(skb, tci);
    }
  }
}
