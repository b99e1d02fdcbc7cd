/** The PPPoE discovery arms of core/rtw_br_ext.c on the socket buffer itself, moving bytes in place. */
module Pppoe {
  import opened Bytes
  import opened Skbuff
  import opened PppoeTags

  /** __nat25_find_pppoe_tag */
  method FindTag(skb: Skb, typ: nat) returns (at: Option<nat>)
    requires skb.Valid() && Fits(skb.View())
    ensures at == Find(skb.View(), typ)
  {
    hide Skb.View, U16;
    ghost var f := skb.View();
    var length := skb.U16At(18);
    var cur: nat := 0;
    while cur < length
      invariant FindFrom(f.mem, length, typ, cur) == Find(f, typ)
    {
      var tagType := skb.U16At(TAGS + cur);
      var tagLen := skb.U16At(TAGS + cur + 2);
      if tagType == typ {
        return Some(TAGS + cur);
      }
      cur := cur + TAG_HDR_LEN + tagLen;
    }
    return None;
  }

  /** __nat25_add_pppoe_tag: skb_put, the tags moved up over their own range, length, copy. */
  method Add(skb: Skb, order: Order, tag: seq<Byte>) returns (ret: int)
    requires skb.Valid() && Fits(skb.View()) && TAG_HDR_LEN <= |tag| <= TAG_BUF
    requires HostLength(order, |tag| - TAG_HDR_LEN) + TAG_HDR_LEN <= skb.View().room ==> order.BigEndian?
    modifies skb.buf, skb`len
    ensures skb.Valid() && Outcome(ret, skb.View()) == AddTag(old(skb.View()), order, tag)
  {
    hide Frame.Set, Short, Skb.View, AddTag, HostLength;
    ghost var f := skb.View();
    var dataLen := HostLength(order, |tag| - TAG_HDR_LEN) + TAG_HDR_LEN;
    AddIs(f, order, tag);
    if skb.end - skb.data - skb.len < dataLen {
      return -1;
    }
    var length := skb.U16At(18);
    var tags := skb.Get(TAGS, length);
    skb.Put(dataLen);
    skb.Store(TAGS + dataLen, tags);
    skb.Store(18, Short(length + dataLen));
    skb.Store(TAGS, tag);
    ret := 0;
  }

  /** Refused, or the three stores one after the other. */
  lemma AddIs(f: Frame, order: Order, tag: seq<Byte>)
    requires Fits(f) && TAG_HDR_LEN <= |tag| <= TAG_BUF
    requires HostLength(order, |tag| - TAG_HDR_LEN) + TAG_HDR_LEN <= f.room ==> order.BigEndian?
    ensures var n := HostLength(order, |tag| - TAG_HDR_LEN) + TAG_HDR_LEN;
      if f.room < n then AddTag(f, order, tag) == Outcome(-1, f)
      else
        && n == |tag|
        && AddTag(f, order, tag) == Outcome(0, Frame(f.mem, f.len + n, f.room - n)
                                                 .Set(TAGS + n, f.At(TAGS, Length(f)))
                                                 .Set(18, Short(Length(f) + n)).Set(TAGS, tag))
  {
    hide Frame.Set, Short;
  }

  /** An existing relay tag is cut out of the frame. */
  method Remove(skb: Skb, at: nat, n: nat) returns (ok: bool)
    requires skb.Valid() && TAGS <= at && at + 4 <= |skb.View().mem| && n == U16(skb.View().mem, at + 2)
    modifies skb.buf, skb`len
    ensures skb.Valid() && ok == (at + 4 + n <= old(skb.len))
    ensures skb.View() == if ok then Removed(old(skb.View()), at) else old(skb.View())
  {
    hide Frame.Set, Frame.Cut, Short, Skb.View;
    ok := CutOut(skb, at, TAG_HDR_LEN + n);
  }

  /** NAT25_INSERT of a PADI or PADR. */
  method Insert(skb: Skb, order: Order) returns (ret: int)
    requires skb.Valid() && Fits(skb.View()) && Covered(skb.View()) && !OverReads(skb.View(), order)
    modifies skb.buf, skb`len
    ensures skb.Valid() && Outcome(ret, skb.View()) == InsertRelay(old(skb.View()), order)
  {
    hide Removed, AddTag, EncodeTag, Find, Skb.View;
    ghost var f := skb.View();
    var oldData := [];
    var at := FindTag(skb, PTT_RELAY_SID);
    if at.Some? {
      var n := skb.U16At(at.value + 2);
      if n + TAG_HDR_LEN + MAGIC_CODE_LEN + MAC_LEN > TAG_BUF {
        return -1;
      }
      if at.value + 4 + n <= skb.len { RemovedFits(f, at.value); }
      oldData := skb.Get(at.value + 4, n);
      var ok := Remove(skb, at.value, n);
      if !ok {
        return -1;
      }
    }
    var client := skb.Get(6, MAC_LEN);
    ret := Add(skb, order, EncodeTag(RelayTag(client, oldData)));
  }

  /** The frame is redirected, and the client taken out of the tag. */
  method Take(skb: Skb, ptr: nat, tagLen: nat) returns (ok: bool)
    requires skb.Valid() && TAGS <= ptr && ptr + 12 <= |skb.View().mem|
    requires tagLen == U16(skb.View().mem, ptr + 2) >= MAGIC_CODE_LEN + MAC_LEN
    modifies skb.buf, skb`len
    ensures skb.Valid() && ok == (ptr + 12 <= old(skb.len))
    ensures skb.View() == if ok then Taken(old(skb.View()), ptr) else Redirected(old(skb.View()), ptr)
  {
    hide Frame.Set, Frame.Cut, Short, Skb.View;
    var client := skb.Get(ptr + 6, MAC_LEN);
    skb.Store(0, client);
    var offset := if tagLen > MAGIC_CODE_LEN + MAC_LEN then TAG_HDR_LEN else 0;
    ok := CutOut(skb, ptr + offset, TAG_HDR_LEN + MAGIC_CODE_LEN + MAC_LEN - offset);
    if ok && offset > 0 {
      skb.Store(ptr + 2, Short(tagLen - 8));
    }
  }

  /** Bytes are cut out of the tag area, and the length in the PPPoE header follows. */
  method CutOut(skb: Skb, at: nat, n: nat) returns (ok: bool)
    requires skb.Valid() && TAGS <= at && at <= |skb.View().mem|
    modifies skb.buf, skb`len
    ensures skb.Valid() && ok == (at + n <= old(skb.len))
    ensures skb.View() == if ok then old(skb.View()).Cut(at, n).Set(18, Short(Length(old(skb.View())) - n))
                          else old(skb.View())
  {
    hide Frame.Set, Frame.Cut, Short, Skb.View;
    ok := skb.PullAndMerge(at, n);
    if ok {
      var length := skb.U16At(18);
      skb.Store(18, Short(length - n));
    }
  }

  /** NAT25_LOOKUP of a PADO or PADS. */
  method Strip(skb: Skb) returns (ret: int)
    requires skb.Valid() && Fits(skb.View())
    modifies skb.buf, skb`len
    ensures skb.Valid() && Outcome(ret, skb.View()) == StripRelay(old(skb.View()))
  {
    hide Redirected, Taken, Find, Skb.View;
    var at := FindTag(skb, PTT_RELAY_SID);
    if at.None? {
      return -1;
    }
    var tagLen := skb.U16At(at.value + 2);
    if tagLen < MAGIC_CODE_LEN + MAC_LEN {
      return -1;
    }
    var magic := skb.U16At(at.value + 4);
    if magic != MAGIC_CODE {
      return -1;
    }
    var ok := Take(skb, at.value, tagLen);
    ret := if ok then 0 else -1;
  }
}
