/** The tag list of a PPPoE discovery frame, and what putting in and taking out the relay tag does
    to the bytes of a frame and to the list they encode. */
module PppoeTags {
  import opened Bytes
  import opened Skbuff

  const TAGS := 20              // Ethernet header and PPPoE header
  const TAG_HDR_LEN := 4
  const PTT_RELAY_SID := 0x0110
  const MAGIC_CODE := 0x8186
  const MAGIC_CODE_LEN := 2
  /** The tag is put together in a buffer of this size on the stack. */
  const TAG_BUF := 40
  /** The longest old relay tag that still fits it. */
  const OLD_MAX := 28
  const SLACK := 48

  /** Byte order of the host: the stored tag length is used once without a swap. */
  datatype Order = BigEndian | LittleEndian

  datatype Option<T> = None | Some(value: T)

  datatype Tag = Tag(typ: nat, data: seq<Byte>) {
    predicate Valid() { typ < 0x1_0000 && |data| < 0x1_0000 }
  }

  function EncodeTag(t: Tag): (r: seq<Byte>)
    requires t.Valid()
    ensures |r| == TAG_HDR_LEN + |t.data|
  {
    Be16(t.typ) + Be16(|t.data|) + t.data
  }

  ghost predicate AllValid(tags: seq<Tag>) {
    forall t :: t in tags ==> t.Valid()
  }

  ghost function EncodeTags(tags: seq<Tag>): (r: seq<Byte>)
    requires AllValid(tags)
  {
    if tags == [] then [] else EncodeTag(tags[0]) + EncodeTags(tags[1..])
  }

  lemma {:induction false} EncodeTagsConcat(a: seq<Tag>, b: seq<Tag>)
    requires AllValid(a) && AllValid(b)
    ensures AllValid(a + b) && EncodeTags(a + b) == EncodeTags(a) + EncodeTags(b)
    decreases |a|
  {
    hide EncodeTag;
    if a == [] {
      assert a + b == b;
    } else {
      assert (a + b)[1..] == a[1..] + b && (a + b)[0] == a[0];
      EncodeTagsConcat(a[1..], b);
    }
  }

  lemma EncodeTagsOne(t: Tag)
    requires t.Valid()
    ensures AllValid([t]) && EncodeTags([t]) == EncodeTag(t)
  {
    assert [t][1..] == [] && EncodeTags([]) == [];
  }

  function Length(f: Frame): (r: nat)
    requires TAGS <= |f.mem|
    ensures r < 0x1_0000
  {
    U16(f.mem, 18)
  }

  /** The tag area the PPPoE header announces, and what is read and moved just behind it, is inside the
      allocation, whether or not it is inside the frame. */
  ghost predicate Fits(f: Frame) {
    f.Valid() && TAGS + Length(f) + SLACK <= |f.mem|
  }

  /** The frame's tags are this list. */
  ghost predicate Carries(f: Frame, tags: seq<Tag>) {
    && Fits(f) && TAGS + Length(f) <= f.len && AllValid(tags)
    && Length(f) == |EncodeTags(tags)| && StandsAt(f.mem, TAGS, EncodeTags(tags))
  }

  // ---------------------------------------------------------------- finding a tag

  /** The search loop of __nat25_find_pppoe_tag at offset cur of the tag area. */
  function FindFrom(m: seq<Byte>, length: nat, typ: nat, cur: nat): (r: Option<nat>)
    requires TAGS + length + TAG_HDR_LEN <= |m|
    ensures r.Some? ==> TAGS + cur <= r.value < TAGS + length
    decreases length - cur
  {
    if cur >= length then None
    else if U16(m, TAGS + cur) == typ then Some(TAGS + cur)
    else FindFrom(m, length, typ, cur + TAG_HDR_LEN + U16(m, TAGS + cur + 2))
  }

  function Find(f: Frame, typ: nat): (r: Option<nat>)
    requires Fits(f)
    ensures r.Some? ==> TAGS <= r.value < TAGS + Length(f)
  {
    FindFrom(f.mem, Length(f), typ, 0)
  }

  /** The index of the first tag of a type, or the number of tags. */
  function First(tags: seq<Tag>, typ: nat): (i: nat)
    ensures i <= |tags| && (i < |tags| ==> tags[i].typ == typ)
    ensures forall k :: 0 <= k < i ==> tags[k].typ != typ
  {
    if tags == [] || tags[0].typ == typ then 0 else 1 + First(tags[1..], typ)
  }

  /** Where the first tag of a type lies in an encoded list that starts at offset a. */
  ghost function Offset(tags: seq<Tag>, typ: nat, a: nat): Option<nat>
    requires AllValid(tags)
  {
    var i := First(tags, typ);
    if i == |tags| then None else Some(a + |EncodeTags(tags[..i])|)
  }

  /** On an encoded list the loop finds exactly the first tag of the type. */
  lemma {:induction false} FindsFirst(m: seq<Byte>, length: nat, typ: nat, cur: nat, tags: seq<Tag>)
    requires TAGS + length + TAG_HDR_LEN <= |m| && AllValid(tags)
    requires cur + |EncodeTags(tags)| == length && StandsAt(m, TAGS + cur, EncodeTags(tags))
    ensures FindFrom(m, length, typ, cur) == Offset(tags, typ, TAGS + cur)
    decreases |tags|
  {
    if tags == [] {
    } else {
      TagAt(m, TAGS + cur, tags);
      if tags[0].typ != typ {
        FindsFirst(m, length, typ, cur + |EncodeTag(tags[0])|, tags[1..]);
        OffsetTail(tags, typ, TAGS + cur);
      }
    }
  }

  lemma TagAt(m: seq<Byte>, a: nat, tags: seq<Tag>)
    requires tags != [] && AllValid(tags) && StandsAt(m, a, EncodeTags(tags))
    ensures a + TAG_HDR_LEN <= |m| && U16(m, a) == tags[0].typ && U16(m, a + 2) == |tags[0].data|
    ensures |EncodeTags(tags)| == |EncodeTag(tags[0])| + |EncodeTags(tags[1..])|
    ensures StandsAt(m, a + |EncodeTag(tags[0])|, EncodeTags(tags[1..]))
    ensures StandsAt(m, a, EncodeTag(tags[0]))
  {
    StandsAtSplit(m, a, EncodeTag(tags[0]), EncodeTags(tags[1..]));
    HeaderReads(m, a, tags[0]);
  }

  lemma HeaderReads(m: seq<Byte>, a: nat, t: Tag)
    requires t.Valid() && StandsAt(m, a, EncodeTag(t))
    ensures U16(m, a) == t.typ && U16(m, a + 2) == |t.data| && m[a + 4..a + 4 + |t.data|] == t.data
  {
    var e := EncodeTag(t);
    assert m[a] == e[0] && m[a + 1] == e[1] && m[a + 2] == e[2] && m[a + 3] == e[3];
    StandsAtSplit(m, a, Be16(t.typ) + Be16(|t.data|), t.data);
    StandsAtSlice(m, a + 4, t.data);
  }

  lemma OffsetTail(tags: seq<Tag>, typ: nat, a: nat)
    requires tags != [] && AllValid(tags) && tags[0].typ != typ
    ensures Offset(tags, typ, a) == Offset(tags[1..], typ, a + |EncodeTag(tags[0])|)
  {
    hide EncodeTag;
    var i := First(tags[1..], typ);
    assert First(tags, typ) == i + 1;
    if i < |tags[1..]| {
      assert tags[..i + 1][1..] == tags[1..][..i];
    }
  }

  // ---------------------------------------------------------------- the two edits, on frames

  datatype Outcome = Outcome(ret: int, frame: Frame)

  /** htons of a difference that may have wrapped. */
  function Short(n: int): (r: seq<Byte>)
    ensures |r| == 2
  {
    Be16(n % 0x1_0000)
  }

  /** The stored length read back without a swap. */
  function HostLength(order: Order, n: nat): nat
    requires n < 256
  {
    if order.BigEndian? then n else n * 256
  }

  /** __nat25_add_pppoe_tag */
  function AddTag(f: Frame, order: Order, tag: seq<Byte>): (r: Outcome)
    requires Fits(f) && TAG_HDR_LEN <= |tag| <= TAG_BUF
    requires HostLength(order, |tag| - TAG_HDR_LEN) + TAG_HDR_LEN <= f.room ==> order.BigEndian?
    ensures r.ret == 0 || (r.ret == -1 && r.frame == f)
    ensures r.ret == 0 <==> HostLength(order, |tag| - TAG_HDR_LEN) + TAG_HDR_LEN <= f.room
    ensures r.ret == 0 ==> r.frame.Valid() && r.frame.len == f.len + |tag|
  {
    if f.room < HostLength(order, |tag| - TAG_HDR_LEN) + TAG_HDR_LEN then Outcome(-1, f)
    else
      var tags := f.At(TAGS, Length(f));
      var g := Frame(f.mem, f.len + |tag|, f.room - |tag|);
      Outcome(0, g.Set(TAGS + |tag|, tags).Set(18, Short(Length(f) + |tag|)).Set(TAGS, tag))
  }

  function RelayData(client: Mac, oldData: seq<Byte>): (r: seq<Byte>)
    ensures |r| == 8 + |oldData|
  {
    Be16(MAGIC_CODE) + client + oldData
  }

  function RelayTag(client: Mac, oldData: seq<Byte>): Tag {
    Tag(PTT_RELAY_SID, RelayData(client, oldData))
  }

  function Source(f: Frame): Mac
    requires f.Valid()
  {
    f.At(6, 6)
  }

  /** The frame without the relay tag found at offset at. */
  function Removed(f: Frame, at: nat): (r: Frame)
    requires f.Valid() && TAGS <= at && at + 4 <= |f.mem| && at + 4 + U16(f.mem, at + 2) <= f.len
  {
    var n := 4 + U16(f.mem, at + 2);
    f.Cut(at, n).Set(18, Short(Length(f) - n))
  }

  /** The old relay tag is short enough to be copied, and inside the frame, so that it is cut out. */
  ghost predicate CutsOut(f: Frame, at: nat)
    requires f.Valid() && at + 4 <= |f.mem|
  {
    U16(f.mem, at + 2) <= OLD_MAX && at + 4 + U16(f.mem, at + 2) <= f.len
  }

  /** The announced length covers the tag that is cut out, so that it does not wrap below zero. */
  ghost predicate Covered(f: Frame)
    requires Fits(f)
  {
    var at := Find(f, PTT_RELAY_SID);
    at.Some? && CutsOut(f, at.value) ==> 4 + U16(f.mem, at.value + 2) <= Length(f)
  }

  /** On a little-endian host the room suffices for the unswapped length: then that many bytes, far more
      than the stack buffer holds, are copied from it, which is outside any model. */
  ghost predicate OverReads(f: Frame, order: Order)
    requires Fits(f)
  {
    && order.LittleEndian?
    && match Find(f, PTT_RELAY_SID)
       case None => HostLength(order, 8) + 4 <= f.room
       case Some(at) =>
         CutsOut(f, at) && HostLength(order, 8 + U16(f.mem, at + 2)) + 4 <= f.room + 4 + U16(f.mem, at + 2)
  }

  lemma RemovedFits(f: Frame, at: nat)
    requires Fits(f) && TAGS <= at && at + 4 <= |f.mem| && CutsOut(f, at) && 4 + U16(f.mem, at + 2) <= Length(f)
    ensures var g := Removed(f, at); Fits(g) && g.room == f.room + 4 + U16(f.mem, at + 2) && Source(g) == Source(f)
  {
    hide Frame.Set, Frame.Cut, U16, Short, Be16;
    var n := 4 + U16(f.mem, at + 2);
    var g := Removed(f, at);
    ShrunkLength(f, f.Cut(at, n), n);
    assert forall k {:trigger g.mem[k]} :: 6 <= k < 12 ==> g.mem[k] == f.mem[k];
  }

  /** The PPPoE length after n bytes have gone. */
  lemma ShrunkLength(f: Frame, h: Frame, n: nat)
    requires f.Valid() && TAGS <= |h.mem| && n <= Length(f)
    ensures Length(h.Set(18, Short(Length(f) - n))) == Length(f) - n
  {
    hide Frame.Set;
    var g := h.Set(18, Short(Length(f) - n));
    assert g.mem[18] == (Length(f) - n) / 256 && g.mem[19] == (Length(f) - n) % 256;
  }

  /** The PADI/PADR arm of NAT25_INSERT. */
  function InsertRelay(f: Frame, order: Order): (r: Outcome)
    requires Fits(f) && Covered(f) && !OverReads(f, order)
    ensures r.ret == 0 || r.ret == -1
  {
    match Find(f, PTT_RELAY_SID)
    case None => AddTag(f, order, EncodeTag(RelayTag(Source(f), [])))
    case Some(at) =>
      var n := U16(f.mem, at + 2);
      if n + TAG_HDR_LEN + MAGIC_CODE_LEN + MAC_LEN > TAG_BUF || at + 4 + n > f.len then Outcome(-1, f)
      else
        RemovedFits(f, at);
        AddTag(Removed(f, at), order, EncodeTag(RelayTag(Source(f), f.At(at + 4, n))))
  }

  /** The frame sent to the client named in the relay tag at offset at. */
  function Redirected(f: Frame, at: nat): (r: Frame)
    requires f.Valid() && TAGS <= at && at + 12 <= |f.mem|
    ensures r.Valid() && r.len == f.len && |r.mem| == |f.mem|
  {
    f.Set(0, f.At(at + 6, MAC_LEN))
  }

  /** ... and without magic code and client; a tag with nothing else in it goes entirely. */
  function Taken(f: Frame, at: nat): (r: Frame)
    requires f.Valid() && TAGS <= at && at + 12 <= f.len && U16(f.mem, at + 2) >= MAGIC_CODE_LEN + MAC_LEN
  {
    var n := U16(f.mem, at + 2);
    var offset := if n > MAGIC_CODE_LEN + MAC_LEN then TAG_HDR_LEN else 0;
    var cut := TAG_HDR_LEN + MAGIC_CODE_LEN + MAC_LEN - offset;
    var g := Redirected(f, at).Cut(at + offset, cut).Set(18, Short(Length(f) - cut));
    if offset > 0 then g.Set(at + 2, Short(n - 8)) else g
  }

  /** The PADO/PADS arm of NAT25_LOOKUP. */
  function StripRelay(f: Frame): (r: Outcome)
    requires Fits(f)
    ensures r.ret == 0 || r.ret == -1
  {
    match Find(f, PTT_RELAY_SID)
    case None => Outcome(-1, f)
    case Some(at) =>
      var n := U16(f.mem, at + 2);
      if n < MAGIC_CODE_LEN + MAC_LEN || U16(f.mem, at + 4) != MAGIC_CODE then Outcome(-1, f)
      else
        if at + 12 > f.len then Outcome(-1, Redirected(f, at)) else Outcome(0, Taken(f, at))
  }
}
