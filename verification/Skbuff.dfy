/** The socket buffer the bridge code works on: one allocation, a window on it, and the handful
    of kernel primitives the handlers use to move that window and the bytes in it. */
module Skbuff {
  import opened Bytes

  /** The shared-info block that lies behind the end of every buffer. */
  const SHINFO := 320
  const MAC_LEN := 6

  type Mac = m: seq<Byte> | |m| == MAC_LEN witness seq(MAC_LEN, _ => 0)

  /** What a handler sees: the memory from the data pointer on, how many of its bytes are the
      frame, and the tail room behind them. */
  datatype Frame = Frame(mem: seq<Byte>, len: nat, room: nat) {
    ghost predicate Valid() { len + room + SHINFO <= |mem| }

    function At(i: nat, n: nat): (r: seq<Byte>)
      requires i + n <= |mem|
      ensures |r| == n
    {
      mem[i..i + n]
    }

    /** The frame with bytes b stored at offset i. */
    function Set(i: nat, b: seq<Byte>): (r: Frame)
      requires i + |b| <= |mem|
      ensures |r.mem| == |mem| && r.len == len && r.room == room
      ensures forall k {:trigger r.mem[k]} :: 0 <= k < |mem| ==>
        r.mem[k] == if i <= k < i + |b| then b[k - i] else mem[k]
    {
      Frame(mem[..i] + b + mem[i + |b|..], len, room)
    }

    /** skb_pull_and_merge: the n bytes from src on are cut out of the frame, the rest closes up. */
    function Cut(src: nat, n: nat): (r: Frame)
      requires src + n <= len <= |mem|
      ensures |r.mem| == |mem| && r.len == len - n && r.room == room + n
      ensures r.mem[..r.len] == mem[..src] + mem[src + n..len]
      ensures forall k {:trigger r.mem[k]} :: 0 <= k < |mem| ==>
        r.mem[k] == if src <= k < len - n then mem[k + n] else mem[k]
    {
      Frame(mem[..src] + mem[src + n..len] + mem[len - n..], len - n, room + n)
    }
  }

  lemma SliceOfRest(s: seq<Byte>, d: nat, i: nat, n: nat)
    requires d + i + n <= |s|
    ensures s[d..][i..i + n] == s[d + i..d + i + n]
  {
    var x, y := s[d..][i..i + n], s[d + i..d + i + n];
    forall k | 0 <= k < n ensures x[k] == y[k] {}
    assert x == y;
  }

  class Skb {
    const buf: array<Byte>
    const end: nat
    var data: nat
    var len: nat

    ghost predicate Valid()
      reads this
    {
      data + len <= end && end + SHINFO <= buf.Length
    }

    ghost function View(): (f: Frame)
      requires Valid()
      reads this, buf
      ensures f.Valid() && |f.mem| == buf.Length - data && f.len == len && f.room == end - data - len
    {
      Frame(buf[data..], len, end - data - len)
    }

    function Get(i: nat, n: nat): (b: seq<Byte>)
      requires Valid() && i + n <= |View().mem|
      reads this, buf
      ensures b == View().At(i, n)
    {
      SliceOfRest(buf[..], data, i, n);
      buf[..][data + i..data + i + n]
    }

    function U16At(i: nat): (n: nat)
      requires Valid() && i + 2 <= |View().mem|
      reads this, buf
      ensures n == U16(View().mem, i) && n < 0x1_0000
    {
      buf[data + i] as nat * 256 + buf[data + i + 1] as nat
    }

    /** memcpy into the frame. */
    method Store(i: nat, b: seq<Byte>)
      requires Valid() && i + |b| <= |View().mem|
      modifies buf
      ensures View() == old(View()).Set(i, b)
      ensures buf[..data] == old(buf[..data])
    {
      forall k | 0 <= k < |b| {
        buf[data + i + k] := b[k];
      }
      assert buf[data..] == old(View()).Set(i, b).mem;
    }

    /** skb_put */
    method Put(n: nat)
      requires Valid() && n <= View().room
      modifies this`len
      ensures Valid() && View() == Frame(old(View()).mem, old(len) + n, old(View()).room - n)
    {
      len := len + n;
    }

    /** skb_pull_and_merge.  It refuses when the bytes to remove reach past the frame. */
    method PullAndMerge(src: nat, n: nat) returns (ok: bool)
      requires Valid()
      modifies buf, this`len
      ensures Valid() && buf[..data] == old(buf[..data])
      ensures ok == (src + n <= old(len))
      ensures View() == if ok then old(View()).Cut(src, n) else old(View())
    {
      ok := src + n <= len;
      if ok {
        var tail := len - (src + n);
        ghost var cut := View().Cut(src, n);
        forall k | 0 <= k < tail {
          buf[data + src + k] := buf[data + src + n + k];
        }
        len := len - n;
        assert buf[data..] == cut.mem;
      }
    }
  }
}
