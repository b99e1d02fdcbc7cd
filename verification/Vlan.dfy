/** The 802.1Q header in nat25_handle_frame: taken out in place before the address lookup and put
    back in place after it. */
module Vlan {
  import opened Bytes
  import opened Skbuff

  const ETH_P_8021Q := 0x8100

  predicate Tagged(f: Frame)
    requires 14 <= |f.mem|
  {
    U16(f.mem, 12) == ETH_P_8021Q
  }

  /** The tag control information of a tagged frame. */
  function Tci(f: Frame): (r: seq<Byte>)
    requires 16 <= |f.mem|
    ensures |r| == 2
  {
    f.mem[14..16]
  }

  /** The frame without its four tag bytes. */
  function Untag(f: Frame): (r: Frame)
    requires 4 <= f.len && 16 <= |f.mem|
    ensures |r.mem| == |f.mem| - 4
  {
    Frame(f.mem[..12] + f.mem[16..], f.len - 4, f.room)
  }

  function Retag(f: Frame, tci: seq<Byte>): (r: Frame)
    requires 12 <= |f.mem| && |tci| == 2
    ensures |r.mem| == |f.mem| + 4
  {
    Frame(f.mem[..12] + Be16(ETH_P_8021Q) + tci + f.mem[12..], f.len + 4, f.room)
  }

  /** Taking the tag out and putting it back gives the frame. */
  lemma RetagUntag(f: Frame)
    requires 16 <= f.len <= |f.mem| && Tagged(f)
    ensures Retag(Untag(f), Tci(f)) == f
  {
    U16Bytes(f.mem, 12, ETH_P_8021Q);
    assert Retag(Untag(f), Tci(f)).mem == f.mem;
  }

  /** Putting a tag in and taking it out gives the frame, and the tag is found again. */
  lemma UntagRetag(f: Frame, tci: seq<Byte>)
    requires 12 <= |f.mem| && |tci| == 2
    ensures var g := Retag(f, tci); Tagged(g) && Tci(g) == tci && Untag(g) == f
  {
    var g := Retag(f, tci);
    assert g.mem[12] == 0x81 && g.mem[13] == 0;
    assert Untag(g).mem == f.mem;
  }

  /** The loop shifts the addresses up over the tag, last pair first, because the two ranges
      overlap; then skb_pull. */
  method Strip(skb: Skb) returns (tci: seq<Byte>)
    requires skb.Valid() && 14 <= skb.len && Tagged(skb.View())
    modifies skb.buf, skb`data, skb`len
    ensures skb.Valid() && tci == Tci(old(skb.View())) && skb.View() == Untag(old(skb.View()))
    ensures skb.data == old(skb.data) + 4
  {
    ghost var was := skb.View().mem;
    tci := skb.Get(14, 2);
    ShiftUp(skb.buf, skb.data);
    assert skb.buf[skb.data + 4..] == was[..12] + was[16..];
    skb.data, skb.len := skb.data + 4, skb.len - 4;
  }

  method ShiftUp(buf: array<Byte>, d: nat)
    requires d + 16 <= buf.Length
    modifies buf
    ensures forall k :: 0 <= k < buf.Length ==>
      buf[k] == if d + 4 <= k < d + 16 then old(buf[k - 4]) else old(buf[k])
  {
    for i := 0 to 6
      invariant forall k :: 0 <= k < buf.Length ==>
        buf[k] == if d + 16 - 2 * i <= k < d + 16 then old(buf[k - 4]) else old(buf[k])
    {
      buf[d + 14 - 2 * i], buf[d + 15 - 2 * i] := buf[d + 10 - 2 * i], buf[d + 11 - 2 * i];
    }
  }

  /** skb_push, the addresses moved back down first pair first, then the saved tag. */
  method Restore(skb: Skb, tci: seq<Byte>)
    requires skb.Valid() && 4 <= skb.data && |tci| == 2
    modifies skb.buf, skb`data, skb`len
    ensures skb.Valid() && skb.View() == Retag(old(skb.View()), tci) && skb.data == old(skb.data) - 4
  {
    ghost var was := skb.View().mem;
    skb.data, skb.len := skb.data - 4, skb.len + 4;
    var d := skb.data;
    ShiftDown(skb.buf, d, tci);
    assert skb.buf[d..] == was[..12] + Be16(ETH_P_8021Q) + tci + was[12..];
  }

  method ShiftDown(buf: array<Byte>, d: nat, tci: seq<Byte>)
    requires d + 16 <= buf.Length && |tci| == 2
    modifies buf
    ensures forall k :: 0 <= k < buf.Length ==>
      buf[k] == if d <= k < d + 12 then old(buf[k + 4]) else if k == d + 12 then 0x81 else if k == d + 13 then 0
                else if d + 14 <= k < d + 16 then tci[k - d - 14] else old(buf[k])
  {
    for i := 0 to 6
      invariant forall k :: 0 <= k < buf.Length ==>
        buf[k] == if d <= k < d + 2 * i then old(buf[k + 4]) else old(buf[k])
    {
      buf[d + 2 * i], buf[d + 2 * i + 1] := buf[d + 4 + 2 * i], buf[d + 5 + 2 * i];
    }
    buf[d + 12], buf[d + 13] := 0x81, 0x00;
    buf[d + 14], buf[d + 15] := tci[0], tci[1];
  }

  lemma U16Bytes(m: seq<Byte>, i: nat, n: nat)
    requires i + 2 <= |m| && n < 0x1_0000
    ensures U16(m, i) == n <==> m[i..i + 2] == Be16(n)
  {
    assert m[i..i + 2] == [m[i], m[i + 1]];
  }
}
