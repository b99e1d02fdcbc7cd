/** The relay tag on lists of tags: inserting it and stripping it from the answer undo each other. */
module PppoeRelay {
  import opened Bytes
  import opened Skbuff
  import opened PppoeTags

  /** The first 18 bytes, up to the PPPoE length, are the same from offset a on. */
  ghost predicate SameHeader(f: Frame, g: Frame, a: nat) {
    18 <= |f.mem| && 18 <= |g.mem| && forall k :: a <= k < 18 ==> g.mem[k] == f.mem[k]
  }

  /** The list with the client's relay tag in front, swallowing an existing one. */
  function WithRelay(tags: seq<Tag>, client: Mac): (r: seq<Tag>) {
    var i := First(tags, PTT_RELAY_SID);
    if i == |tags| then [RelayTag(client, [])] + tags
    else [RelayTag(client, tags[i].data)] + (tags[..i] + tags[i + 1..])
  }

  lemma FindInList(f: Frame, tags: seq<Tag>)
    requires Carries(f, tags)
    ensures Find(f, PTT_RELAY_SID) == Offset(tags, PTT_RELAY_SID, TAGS)
  {
    FindsFirst(f.mem, Length(f), PTT_RELAY_SID, 0, tags);
  }

  /** A list cut at one of its tags, in bytes. */
  lemma ListAt(f: Frame, tags: seq<Tag>, i: nat)
    requires Carries(f, tags) && i < |tags|
    ensures AllValid(tags[..i]) && AllValid(tags[i + 1..]) && tags[i].Valid()
    ensures var a := TAGS + |EncodeTags(tags[..i])|;
      && Length(f) == |EncodeTags(tags[..i])| + |EncodeTag(tags[i])| + |EncodeTags(tags[i + 1..])|
      && StandsAt(f.mem, TAGS, EncodeTags(tags[..i])) && StandsAt(f.mem, a, EncodeTag(tags[i]))
      && StandsAt(f.mem, a + |EncodeTag(tags[i])|, EncodeTags(tags[i + 1..]))
      && U16(f.mem, a) == tags[i].typ && U16(f.mem, a + 2) == |tags[i].data|
      && f.At(a + 4, |tags[i].data|) == tags[i].data
  {
    hide EncodeTag, StandsAt, First;
    var pre, post := tags[..i], tags[i + 1..];
    assert tags == pre + ([tags[i]] + post);
    EncodeTagsConcat(pre, [tags[i]] + post);
    EncodeTagsOne(tags[i]);
    EncodeTagsConcat([tags[i]], post);
    StandsAtSplit(f.mem, TAGS, EncodeTags(pre), EncodeTags([tags[i]] + post));
    StandsAtSplit(f.mem, TAGS + |EncodeTags(pre)|, EncodeTag(tags[i]), EncodeTags(post));
    HeaderReads(f.mem, TAGS + |EncodeTags(pre)|, tags[i]);
  }

  lemma CarriesByPieces(f: Frame, a: seq<Tag>, b: seq<Tag>)
    requires Fits(f) && TAGS + Length(f) <= f.len && AllValid(a) && AllValid(b)
    requires Length(f) == |EncodeTags(a)| + |EncodeTags(b)|
    requires StandsAt(f.mem, TAGS, EncodeTags(a)) && StandsAt(f.mem, TAGS + |EncodeTags(a)|, EncodeTags(b))
    ensures Carries(f, a + b)
  {
    hide EncodeTags, StandsAt;
    EncodeTagsConcat(a, b);
    StandsAtJoin(f.mem, TAGS, EncodeTags(a), EncodeTags(b));
  }

  lemma ShortReads(f: Frame, n: nat)
    requires TAGS <= |f.mem| && n < 0x1_0000
    ensures Length(f.Set(18, Short(n))) == n
  {
    hide Short;
    ShortBytes(n);
    var g := f.Set(18, Short(n));
    assert g.mem[18] == Short(n)[0] && g.mem[19] == Short(n)[1];
  }

  // ---------------------------------------------------------------- adding and removing one tag

  lemma AddCarries(f: Frame, order: Order, t: Tag, tags: seq<Tag>)
    requires Carries(f, tags) && t.Valid() && |t.data| <= 36 && order.BigEndian?
    requires |EncodeTag(t)| <= f.room && |EncodeTag(t)| + Length(f) < 0x1_0000
    ensures var o := AddTag(f, order, EncodeTag(t));
      && o.ret == 0 && Carries(o.frame, [t] + tags) && SameHeader(f, o.frame, 0)
      && o.frame.len == f.len + |EncodeTag(t)|
  {
    hide EncodeTag, EncodeTags, Frame.Set, Short;
    var tag := EncodeTag(t);
    var moved := Frame(f.mem, f.len + |tag|, f.room - |tag|).Set(TAGS + |tag|, f.At(TAGS, Length(f)));
    var sized := moved.Set(18, Short(Length(f) + |tag|));
    var g := AddTag(f, order, tag).frame;
    ShortReads(moved, Length(f) + |tag|);
    assert g.mem == sized.Set(TAGS, tag).mem;
    assert Length(g) == Length(sized);
    EncodeTagsOne(t);
    assert StandsAt(g.mem, TAGS, tag);
    assert StandsAt(g.mem, TAGS + |tag|, EncodeTags(tags));
    CarriesByPieces(g, [t], tags);
  }

  lemma RemovedCarries(f: Frame, tags: seq<Tag>, i: nat)
    requires Carries(f, tags) && i < |tags|
    ensures AllValid(tags[..i])
    ensures var a := TAGS + |EncodeTags(tags[..i])|;
      && a + 4 <= |f.mem| && a + 4 + U16(f.mem, a + 2) <= f.len
      && var g := Removed(f, a);
         Carries(g, tags[..i] + tags[i + 1..]) && SameHeader(f, g, 0)
         && g.len == f.len - 4 - |tags[i].data| && g.room == f.room + 4 + |tags[i].data|
         && Length(g) == Length(f) - 4 - |tags[i].data|
  {
    hide EncodeTag, EncodeTags, Removed, StandsAt, U16, CutAt;
    ListAt(f, tags, i);
    var a := TAGS + |EncodeTags(tags[..i])|;
    RemovedBytes(f, a);
    CutCarries(f, Removed(f, a), tags, i, a);
  }

  /** n bytes at offset a have been cut out, byte by byte. */
  ghost predicate CutAt(f: Frame, g: Frame, a: nat, n: nat)
    requires TAGS <= a && a + n <= f.len <= |f.mem|
  {
    && |g.mem| == |f.mem| && g.len == f.len - n && g.room == f.room + n && g.Valid() && Length(g) == Length(f) - n
    && (forall k :: 0 <= k < 18 ==> g.mem[k] == f.mem[k])
    && (forall k :: TAGS <= k < a ==> g.mem[k] == f.mem[k])
    && (forall k :: a <= k < g.len ==> g.mem[k] == f.mem[k + n])
  }

  lemma RemovedBytes(f: Frame, a: nat)
    requires Fits(f) && TAGS <= a && a + 4 <= |f.mem| && a + 4 + U16(f.mem, a + 2) <= f.len
    requires 4 + U16(f.mem, a + 2) <= Length(f)
    ensures CutAt(f, Removed(f, a), a, 4 + U16(f.mem, a + 2))
  {
    hide Frame.Set, Frame.Cut, Short, U16, Be16;
    var n := 4 + U16(f.mem, a + 2);
    ShrunkLength(f, f.Cut(a, n), n);
  }

  lemma CutCarries(f: Frame, g: Frame, tags: seq<Tag>, i: nat, a: nat)
    requires Carries(f, tags) && i < |tags|
    requires AllValid(tags[..i]) && a == TAGS + |EncodeTags(tags[..i])| && tags[i].Valid()
    requires a + 4 + |tags[i].data| <= f.len && CutAt(f, g, a, 4 + |tags[i].data|)
    ensures Carries(g, tags[..i] + tags[i + 1..]) && SameHeader(f, g, 0)
    ensures g.len == f.len - 4 - |tags[i].data| && g.room == f.room + 4 + |tags[i].data|
    ensures Length(g) == Length(f) - 4 - |tags[i].data|
  {
    hide EncodeTag, EncodeTags;
    ListAt(f, tags, i);
    assert StandsAt(g.mem, TAGS, EncodeTags(tags[..i]));
    assert StandsAt(g.mem, a, EncodeTags(tags[i + 1..]));
    CarriesByPieces(g, tags[..i], tags[i + 1..]);
  }

  // ---------------------------------------------------------------- what the two edits do to the list

  predicate OldTooLong(tags: seq<Tag>) {
    var i := First(tags, PTT_RELAY_SID);
    i < |tags| && |tags[i].data| > OLD_MAX
  }

  function Without(tags: seq<Tag>, i: nat): seq<Tag>
    requires i < |tags|
  {
    tags[..i] + tags[i + 1..]
  }

  /** Tail room the insertion needs: the net growth of the frame. */
  function Growth(tags: seq<Tag>): nat {
    if First(tags, PTT_RELAY_SID) == |tags| then 12 else 8
  }

  /** What inserting means for the list of tags. */
  ghost predicate Inserted(f: Frame, tags: seq<Tag>, o: Outcome)
    requires Carries(f, tags)
  {
    var i := First(tags, PTT_RELAY_SID);
    && (o.ret == 0 <==> !OldTooLong(tags) && Growth(tags) <= f.room)
    && (o.ret == 0 ==> Carries(o.frame, WithRelay(tags, Source(f))) && SameHeader(f, o.frame, 0)
                       && o.frame.len == f.len + Growth(tags))
    && (o.ret != 0 && (i == |tags| || OldTooLong(tags)) ==> o.frame == f)
    && (o.ret != 0 && i < |tags| && !OldTooLong(tags) ==> Carries(o.frame, Without(tags, i)))
  }

  /** MAIN: inserting succeeds exactly when an old relay tag is short enough and the room suffices;
      then the list is the old one with the client's tag in front, and nothing else of the frame
      has changed.  Refused for lack of room, it has already lost its old relay tag. */
  lemma InsertMeaning(f: Frame, tags: seq<Tag>)
    requires Carries(f, tags) && Length(f) + 12 < 0x1_0000
    ensures Covered(f) && Inserted(f, tags, InsertRelay(f, BigEndian))
  {
    hide EncodeTag, EncodeTags, Removed, RelayTag, StandsAt, WithRelay;
    var i := First(tags, PTT_RELAY_SID);
    FindInList(f, tags);
    if i == |tags| {
      WithRelayFresh(tags, Source(f));
      TryAdd(f, RelayTag(Source(f), []), tags);
    } else {
      InsertOver(f, tags, i);
    }
  }

  lemma WithRelayFresh(tags: seq<Tag>, client: Mac)
    requires First(tags, PTT_RELAY_SID) == |tags|
    ensures WithRelay(tags, client) == [RelayTag(client, [])] + tags
    ensures RelayTag(client, []).Valid() && |EncodeTag(RelayTag(client, []))| == 12
  {
  }

  lemma RelaySize(client: Mac, oldData: seq<Byte>)
    requires |oldData| <= OLD_MAX
    ensures var t := RelayTag(client, oldData); t.Valid() && |t.data| == 8 + |oldData| && |EncodeTag(t)| == 12 + |oldData|
  {
  }

  lemma CarriesFits(f: Frame, tags: seq<Tag>)
    requires Carries(f, tags)
    ensures Fits(f) && !OverReads(f, BigEndian) && f.Valid() && TAGS + Length(f) <= f.len && AllValid(tags)
  {
  }

  lemma InsertOver(f: Frame, tags: seq<Tag>, i: nat)
    requires Carries(f, tags) && Length(f) + 12 < 0x1_0000 && i == First(tags, PTT_RELAY_SID) < |tags|
    requires Find(f, PTT_RELAY_SID) == Offset(tags, PTT_RELAY_SID, TAGS)
    ensures Covered(f) && Inserted(f, tags, InsertRelay(f, BigEndian))
  {
    hide EncodeTag, EncodeTags, Removed, RelayTag, StandsAt, AddTag, Carries, Length, First, U16, SameHeader;
    CarriesFits(f, tags);
    ListAt(f, tags, i);
    RemovedCarries(f, tags, i);
    if !OldTooLong(tags) {
      InsertInto(f, Removed(f, TAGS + |EncodeTags(tags[..i])|), tags, i);
    }
  }

  /** g is f without its old relay tag, the i-th of the list. */
  lemma InsertInto(f: Frame, g: Frame, tags: seq<Tag>, i: nat)
    requires f.Valid() && i == First(tags, PTT_RELAY_SID) < |tags| && |tags[i].data| <= OLD_MAX
    requires Carries(g, Without(tags, i)) && SameHeader(f, g, 0) && Length(g) + 4 + |tags[i].data| + 12 < 0x1_0000
    requires g.len == f.len - 4 - |tags[i].data| && g.room == f.room + 4 + |tags[i].data|
    ensures RelayTag(Source(f), tags[i].data).Valid() && |EncodeTag(RelayTag(Source(f), tags[i].data))| <= TAG_BUF
    ensures var o := AddTag(g, BigEndian, EncodeTag(RelayTag(Source(f), tags[i].data)));
      && (o.ret == 0 <==> Growth(tags) <= f.room)
      && (o.ret == 0 ==> Carries(o.frame, WithRelay(tags, Source(f))) && SameHeader(f, o.frame, 0)
                         && o.frame.len == f.len + Growth(tags))
      && (o.ret != 0 ==> o.frame == g)
  {
    hide EncodeTag, EncodeTags, RelayTag, StandsAt, AddTag, Length, First;
    RelaySize(Source(f), tags[i].data);
    TryAdd(g, RelayTag(Source(f), tags[i].data), Without(tags, i));
  }

  lemma TryAdd(f: Frame, t: Tag, tags: seq<Tag>)
    requires Carries(f, tags) && t.Valid() && |t.data| <= 36 && |EncodeTag(t)| + Length(f) < 0x1_0000
    ensures Fits(f)
    ensures var o := AddTag(f, BigEndian, EncodeTag(t));
      && (o.ret == 0 <==> |EncodeTag(t)| <= f.room)
      && (o.ret == 0 ==> Carries(o.frame, [t] + tags) && SameHeader(f, o.frame, 0)
                         && o.frame.len == f.len + |EncodeTag(t)|)
      && (o.ret != 0 ==> o.frame == f)
  {
    hide EncodeTag, EncodeTags;
    if |EncodeTag(t)| <= f.room {
      AddCarries(f, BigEndian, t, tags);
    }
  }

  /** With the length taken in the other byte order, an insertion is refused or copies far more bytes than
      the tag has: the latter exactly when an old tag is short enough and the tail room, with that tag cut
      out, reaches 256 times the new tag's length and four bytes, which is never less than 2 KB. */
  lemma SwappedLength(f: Frame, tags: seq<Tag>)
    requires Carries(f, tags)
    ensures Covered(f) && (!OverReads(f, LittleEndian) ==> InsertRelay(f, LittleEndian).ret == -1)
    ensures OverReads(f, LittleEndian) <==>
      !OldTooLong(tags) && f.room + Reclaimed(tags) >= 256 * (8 + |OldData(tags)|) + 4
  {
    hide EncodeTag, EncodeTags, StandsAt, First, U16, Carries, Removed, RelayData;
    var i := First(tags, PTT_RELAY_SID);
    FindInList(f, tags);
    CarriesFits(f, tags);
    if i < |tags| {
      ListAt(f, tags, i);
      CarriesLength(f, tags);
      if |tags[i].data| <= OLD_MAX { RemovedFits(f, TAGS + |EncodeTags(tags[..i])|); }
    }
  }

  /** The least tail room that will do, with no tags in the frame. */
  lemma OverReadReached()
    ensures var f := Frame(seq(2392, _ => 0), 20, 2052); Carries(f, []) && OverReads(f, LittleEndian)
  {
    var f := Frame(seq(2392, _ => 0), 20, 2052);
    assert EncodeTags([]) == [];
    SwappedLength(f, []);
  }

  /** A frame without tail room whose one tag is an empty relay tag. */
  function Cramped(): Frame {
    Frame(seq(344, k => if k == 19 then 4 else if k == 20 then 1 else if k == 21 then 0x10 else 0), 24, 0)
  }

  /** It is refused for lack of room, and has lost its tag by then. */
  lemma RefusedWithoutTag()
    ensures Carries(Cramped(), [Tag(PTT_RELAY_SID, [])]) && Covered(Cramped())
    ensures var o := InsertRelay(Cramped(), BigEndian); o.ret == -1 && Carries(o.frame, [])
  {
    hide InsertRelay;
    var f, tags := Cramped(), [Tag(PTT_RELAY_SID, [])];
    EncodeTagsOne(tags[0]);
    assert EncodeTag(tags[0]) == [1, 0x10, 0, 0];
    assert Carries(f, tags);
    InsertMeaning(f, tags);
    assert First(tags, PTT_RELAY_SID) == 0 && Without(tags, 0) == [];
  }

  lemma CarriesLength(f: Frame, tags: seq<Tag>)
    requires Carries(f, tags)
    ensures TAGS + Length(f) <= f.len
  {
  }

  /** The room that cutting out an old relay tag gives back. */
  function Reclaimed(tags: seq<Tag>): nat {
    if First(tags, PTT_RELAY_SID) == |tags| then 0 else 4 + |OldData(tags)|
  }

  predicate IsRelay(d: seq<Byte>) {
    |d| >= 8 && U16(d, 0) == MAGIC_CODE
  }

  /** The list with the client's eight bytes taken out of its i-th tag, or the whole tag. */
  function Stripped(tags: seq<Tag>, i: nat): seq<Tag>
    requires i < |tags| && |tags[i].data| >= 8
  {
    tags[..i] + (if |tags[i].data| > 8 then [Tag(tags[i].typ, tags[i].data[8..])] else []) + tags[i + 1..]
  }

  ghost predicate SentTo(f: Frame, g: Frame, client: seq<Byte>) {
    g.Valid() && 20 <= |f.mem| && g.mem[..6] == client && SameHeader(f, g, 6)
  }

  /** Taking the client out of a longer tag, byte by byte. */
  ghost predicate CutPart(f: Frame, g: Frame, a: nat, n: nat)
    requires TAGS <= a && a + 12 <= f.len <= |f.mem| && 8 <= n < 0x1_0000
  {
    && |g.mem| == |f.mem| && g.len == f.len - 8 && g.Valid() && Length(g) == Length(f) - 8
    && (forall k :: 0 <= k < 6 ==> g.mem[k] == f.mem[a + 6 + k])
    && (forall k :: 6 <= k < 18 ==> g.mem[k] == f.mem[k])
    && (forall k :: TAGS <= k < a + 2 ==> g.mem[k] == f.mem[k])
    && g.mem[a + 2] == (n - 8) / 256 && g.mem[a + 3] == (n - 8) % 256
    && (forall k :: a + 4 <= k < g.len ==> g.mem[k] == f.mem[k + 8])
  }

  lemma TakenBytes(f: Frame, a: nat)
    requires Fits(f) && TAGS <= a && a + 12 <= f.len && U16(f.mem, a + 2) > 8 && Length(f) >= 8
    ensures CutPart(f, Taken(f, a), a, U16(f.mem, a + 2))
  {
    hide Taken, Frame.Set, Frame.Cut, U16;
    var g := Taken(f, a);
    forall k | 0 <= k < |f.mem|
      ensures |g.mem| == |f.mem| && g.mem[k] == TakenByte(f, a, k)
    {
      TakenAt(f, a, k);
    }
    TakenAt(f, a, 18);
    TakenLength(f, g, a);
  }

  lemma TakenLength(f: Frame, g: Frame, a: nat)
    requires Fits(f) && TAGS <= a && a + 12 <= f.len && U16(f.mem, a + 2) > 8 && Length(f) >= 8 && |g.mem| == |f.mem|
    requires g.mem[18] == TakenByte(f, a, 18) && g.mem[19] == TakenByte(f, a, 19)
    ensures Length(g) == Length(f) - 8
  {
  }

  function TakenByte(f: Frame, a: nat, k: nat): Byte
    requires Fits(f) && TAGS <= a && a + 12 <= f.len && U16(f.mem, a + 2) > 8 && Length(f) >= 8 && k < |f.mem|
  {
    if k < 6 then f.mem[a + 6 + k]
    else if k == 18 then (Length(f) - 8) / 256 else if k == 19 then (Length(f) - 8) % 256
    else if k == a + 2 then (U16(f.mem, a + 2) - 8) / 256 else if k == a + 3 then (U16(f.mem, a + 2) - 8) % 256
    else if a + 4 <= k < f.len - 8 then f.mem[k + 8] else f.mem[k]
  }

  lemma TakenAt(f: Frame, a: nat, k: nat)
    requires Fits(f) && TAGS <= a && a + 12 <= f.len && U16(f.mem, a + 2) > 8 && Length(f) >= 8 && k < |f.mem|
    ensures var g := Taken(f, a);
      |g.mem| == |f.mem| && g.mem[k] == TakenByte(f, a, k) && g.len == f.len - 8 && g.Valid()
  {
    hide Frame.Set, Frame.Cut, Short, U16, Be16;
    ShortBytes(Length(f) - 8);
    ShortBytes(U16(f.mem, a + 2) - 8);
  }

  lemma ShortBytes(n: nat)
    requires n < 0x1_0000
    ensures Short(n)[0] == n / 256 && Short(n)[1] == n % 256
  {
    assert n % 0x1_0000 == n;
  }

  lemma TakenPart(f: Frame, tags: seq<Tag>, i: nat)
    requires Carries(f, tags) && i < |tags| && |tags[i].data| > 8
    ensures AllValid(tags[..i])
    ensures var a := TAGS + |EncodeTags(tags[..i])|;
      && a + 12 <= f.len && U16(f.mem, a + 2) > 8
      && SentTo(f, Taken(f, a), tags[i].data[2..8]) && Carries(Taken(f, a), Stripped(tags, i))
  {
    hide EncodeTag, EncodeTags, Taken;
    ListAt(f, tags, i);
    var a := TAGS + |EncodeTags(tags[..i])|;
    TakenBytes(f, a);
    PartCarries(f, Taken(f, a), tags, i, a);
    var d, head := tags[i].data, Taken(f, a).mem[..6];
    assert f.At(a + 4, |d|) == d;
    assert forall k {:trigger head[k]} :: 0 <= k < 6 ==> head[k] == f.At(a + 4, |d|)[k + 2];
    assert head == d[2..8];
  }

  lemma PartCarries(f: Frame, g: Frame, tags: seq<Tag>, i: nat, a: nat)
    requires Carries(f, tags) && i < |tags| && |tags[i].data| > 8
    requires AllValid(tags[..i]) && a == TAGS + |EncodeTags(tags[..i])| && tags[i].Valid()
    requires a + 12 <= f.len && CutPart(f, g, a, |tags[i].data|)
    ensures Carries(g, Stripped(tags, i))
  {
    hide EncodeTag, EncodeTags;
    ListAt(f, tags, i);
    var t := Tag(tags[i].typ, tags[i].data[8..]);
    assert StandsAt(g.mem, TAGS, EncodeTags(tags[..i]));
    assert StandsAt(g.mem, a + |EncodeTag(t)|, EncodeTags(tags[i + 1..]));
    NewHeader(f, g, a, tags[i], t);
    hide StandsAt, CutPart;
    EncodeTagsOne(t);
    EncodeTagsConcat([t], tags[i + 1..]);
    StandsAtJoin(g.mem, a, EncodeTag(t), EncodeTags(tags[i + 1..]));
    CarriesByPieces(g, tags[..i], [t] + tags[i + 1..]);
    assert tags[..i] + ([t] + tags[i + 1..]) == Stripped(tags, i);
  }

  /** The shortened tag stands where the long one stood. */
  lemma NewHeader(f: Frame, g: Frame, a: nat, oldData: Tag, t: Tag)
    requires oldData.Valid() && StandsAt(f.mem, a, EncodeTag(oldData)) && |oldData.data| > 8
    requires t == Tag(oldData.typ, oldData.data[8..])
    requires TAGS <= a && a + |EncodeTag(oldData)| <= f.len <= |f.mem| && CutPart(f, g, a, |oldData.data|)
    ensures StandsAt(g.mem, a, EncodeTag(t))
  {
    var e, o := EncodeTag(t), EncodeTag(oldData);
    assert f.mem[a] == o[0] && f.mem[a + 1] == o[1];
    forall k | 0 <= k < |e| ensures g.mem[a + k] == e[k]
    {
      if k >= 4 {
        assert f.mem[a + (k + 8)] == o[k + 8];
      }
    }
  }

  /** Taking out a tag with nothing but magic code and client, byte by byte. */
  ghost predicate CutWhole(f: Frame, g: Frame, a: nat)
    requires TAGS <= a && a + 12 <= f.len <= |f.mem|
  {
    && |g.mem| == |f.mem| && g.len == f.len - 12 && g.Valid() && Length(g) == Length(f) - 12
    && (forall k :: 0 <= k < 6 ==> g.mem[k] == f.mem[a + 6 + k])
    && (forall k :: 6 <= k < 18 ==> g.mem[k] == f.mem[k])
    && (forall k :: TAGS <= k < a ==> g.mem[k] == f.mem[k])
    && (forall k :: a <= k < g.len ==> g.mem[k] == f.mem[k + 12])
  }

  lemma WholeBytes(f: Frame, a: nat)
    requires Fits(f) && TAGS <= a && a + 12 <= f.len && U16(f.mem, a + 2) == 8 && Length(f) >= 12
    ensures CutWhole(f, Taken(f, a), a)
  {
    hide Frame.Set, Frame.Cut, Short, U16, Be16;
    ShortBytes(Length(f) - 12);
    ShortReads(Redirected(f, a).Cut(a, 12), Length(f) - 12);
  }

  lemma WholeCarries(f: Frame, g: Frame, tags: seq<Tag>, i: nat, a: nat)
    requires Carries(f, tags) && i < |tags| && |tags[i].data| == 8
    requires AllValid(tags[..i]) && a == TAGS + |EncodeTags(tags[..i])|
    requires a + 12 <= f.len && CutWhole(f, g, a)
    ensures Carries(g, Stripped(tags, i))
  {
    hide EncodeTag, EncodeTags;
    ListAt(f, tags, i);
    assert StandsAt(g.mem, TAGS, EncodeTags(tags[..i]));
    assert StandsAt(g.mem, a, EncodeTags(tags[i + 1..]));
    CarriesByPieces(g, tags[..i], tags[i + 1..]);
    assert tags[..i] + [] + tags[i + 1..] == tags[..i] + tags[i + 1..];
  }

  lemma TakenWhole(f: Frame, tags: seq<Tag>, i: nat)
    requires Carries(f, tags) && i < |tags| && |tags[i].data| == 8
    ensures AllValid(tags[..i])
    ensures var a := TAGS + |EncodeTags(tags[..i])|;
      && a + 12 <= f.len && U16(f.mem, a + 2) == 8
      && SentTo(f, Taken(f, a), tags[i].data[2..8]) && Carries(Taken(f, a), Stripped(tags, i))
  {
    hide EncodeTag, EncodeTags, Taken, StandsAt, U16;
    ListAt(f, tags, i);
    var a := TAGS + |EncodeTags(tags[..i])|;
    WholeBytes(f, a);
    WholeCarries(f, Taken(f, a), tags, i, a);
    var d, head := tags[i].data, Taken(f, a).mem[..6];
    assert f.At(a + 4, |d|) == d;
    assert forall k {:trigger head[k]} :: 0 <= k < 6 ==> head[k] == f.At(a + 4, |d|)[k + 2];
    assert head == d[2..8];
  }

  /** What is refused, whatever the tags look like: a request whose old relay tag is longer than 28 octets or
      reaches past the frame; an answer without relay tag, or with one too short or not of this driver; and
      an answer cut short in its relay tag, which has been redirected by then. */
  lemma RefusedAnyway(f: Frame, order: Order)
    requires Fits(f) && Covered(f) && !OverReads(f, order)
    ensures var at := Find(f, PTT_RELAY_SID);
      && (at.None? ==> StripRelay(f) == Outcome(-1, f))
      && (at.Some? ==>
            var n := U16(f.mem, at.value + 2);
            && (n > 28 || at.value + 4 + n > f.len ==> InsertRelay(f, order) == Outcome(-1, f))
            && (n < 8 || U16(f.mem, at.value + 4) != 0x8186 ==> StripRelay(f) == Outcome(-1, f))
            && (n >= 8 && U16(f.mem, at.value + 4) == 0x8186 && at.value + 12 > f.len ==>
                  StripRelay(f) == Outcome(-1, f.Set(0, f.At(at.value + 6, 6)))))
  {
    hide Find, Taken, AddTag, Removed, Frame.Set;
  }

  /** MAIN: stripping succeeds exactly when the first relay tag is one of ours; then the frame goes
      to the client named in it, the list has lost what insertion had added, and nothing else of
      the frame has changed. */
  lemma StripMeaning(f: Frame, tags: seq<Tag>)
    requires Carries(f, tags)
    ensures var o, i := StripRelay(f), First(tags, PTT_RELAY_SID);
      && (o.ret == 0 <==> i < |tags| && IsRelay(tags[i].data))
      && (o.ret == 0 ==> SentTo(f, o.frame, tags[i].data[2..8]) && Carries(o.frame, Stripped(tags, i)))
      && (o.ret != 0 ==> o.frame == f)
  {
    hide EncodeTag, EncodeTags, Carries, Taken, Stripped, StandsAt, SentTo, First, IsRelay, U16;
    var i := First(tags, PTT_RELAY_SID);
    CarriesFits(f, tags);
    FindInList(f, tags);
    if i < |tags| {
      RelayRead(f, tags, i);
      if IsRelay(tags[i].data) { TakenRelay(f, tags, i); }
    }
  }

  /** What is read of the i-th tag, where it lies. */
  lemma RelayRead(f: Frame, tags: seq<Tag>, i: nat)
    requires Carries(f, tags) && i < |tags|
    ensures AllValid(tags[..i])
    ensures var a, d := TAGS + |EncodeTags(tags[..i])|, tags[i].data;
      && a + 12 <= |f.mem| && U16(f.mem, a + 2) == |d|
      && (IsRelay(d) <==> |d| >= 8 && U16(f.mem, a + 4) == MAGIC_CODE)
  {
    hide EncodeTag, EncodeTags, StandsAt;
    ListAt(f, tags, i);
    var a, d := TAGS + |EncodeTags(tags[..i])|, tags[i].data;
    if |d| >= 8 {
      assert f.At(a + 4, |d|)[0] == f.mem[a + 4] && f.At(a + 4, |d|)[1] == f.mem[a + 5];
    }
  }

  lemma TakenRelay(f: Frame, tags: seq<Tag>, i: nat)
    requires Carries(f, tags) && i < |tags| && IsRelay(tags[i].data)
    ensures AllValid(tags[..i])
    ensures var a := TAGS + |EncodeTags(tags[..i])|;
      && a + 12 <= f.len && U16(f.mem, a + 2) >= 8
      && SentTo(f, Taken(f, a), tags[i].data[2..8]) && Carries(Taken(f, a), Stripped(tags, i))
  {
    hide EncodeTag, EncodeTags, Carries, Taken, Stripped, SentTo;
    if |tags[i].data| > 8 { TakenPart(f, tags, i); } else { TakenWhole(f, tags, i); }
  }

  // ---------------------------------------------------------------- the round trip

  lemma RelayDataReads(client: Mac, oldData: seq<Byte>)
    ensures var d := RelayData(client, oldData); IsRelay(d) && d[2..8] == client && d[8..] == oldData
  {
    var d := RelayData(client, oldData);
    assert d[0] == 0x81 && d[1] == 0x86;
  }

  lemma {:induction false} FirstAmong(pre: seq<Tag>, t: Tag, post: seq<Tag>)
    requires First(pre, t.typ) == |pre|
    ensures First(pre + [t] + post, t.typ) == |pre|
    decreases |pre|
  {
    var all := pre + [t] + post;
    if pre == [] {
      assert all[0] == t;
    } else {
      assert all[0] == pre[0] && all[1..] == pre[1..] + [t] + post;
      FirstAmong(pre[1..], t, post);
    }
  }

  /** What is left of a relay tag without magic code and client. */
  function OldTag(oldData: seq<Byte>): seq<Tag> {
    if oldData == [] then [] else [Tag(PTT_RELAY_SID, oldData)]
  }

  /** MAIN: an answer in which the access concentrator returned the relay tag, wherever it put it
      among its own tags, goes to the client, with that tag as the client had sent it. */
  lemma AnswerReachesClient(g: Frame, pre: seq<Tag>, client: Mac, oldData: seq<Byte>, post: seq<Tag>)
    requires First(pre, PTT_RELAY_SID) == |pre|
    requires Carries(g, pre + [RelayTag(client, oldData)] + post)
    ensures var o := StripRelay(g);
      && o.ret == 0 && SentTo(g, o.frame, client)
      && Carries(o.frame, pre + OldTag(oldData) + post)
  {
    hide RelayData, StripRelay, Carries;
    var t := RelayTag(client, oldData);
    var all := pre + [t] + post;
    FirstAmong(pre, t, post);
    RelayDataReads(client, oldData);
    StripMeaning(g, all);
    assert all[..|pre|] == pre && all[|pre|] == t && all[|pre| + 1..] == post;
  }

  /** The tags after the round trip: a relay tag the client had sent comes back in front, unless it
      was empty. */
  function Restored(tags: seq<Tag>): seq<Tag> {
    var i := First(tags, PTT_RELAY_SID);
    if i == |tags| then tags
    else if tags[i].data == [] then Without(tags, i)
    else [tags[i]] + Without(tags, i)
  }

  /** g has, byte for byte, the tag area of f. */
  ghost predicate SameTags(f: Frame, g: Frame) {
    && Fits(f) && Fits(g) && Length(g) == Length(f) && TAGS + Length(g) <= g.len
    && g.At(TAGS, Length(g)) == f.At(TAGS, Length(f))
  }

  lemma SameTagsCarry(f: Frame, g: Frame, tags: seq<Tag>)
    requires Carries(f, tags) && SameTags(f, g)
    ensures Carries(g, tags)
  {
    StandsAtSlice(f.mem, TAGS, EncodeTags(tags));
    StandsAtSlice(g.mem, TAGS, EncodeTags(tags));
  }

  /** MAIN: a PADI or PADR that got its relay tag, and an answer with the same tag area: the answer
      goes to the client that asked, with the tags the client had sent. */
  lemma RoundTrip(f: Frame, g: Frame, tags: seq<Tag>)
    requires Carries(f, tags) && Length(f) + 12 < 0x1_0000 && Covered(f)
    requires InsertRelay(f, BigEndian).ret == 0 && SameTags(InsertRelay(f, BigEndian).frame, g)
    ensures var o := StripRelay(g);
      o.ret == 0 && SentTo(g, o.frame, Source(f)) && Carries(o.frame, Restored(tags))
  {
    hide *;
    CarriesFits(f, tags);
    InsertMeaning(f, tags);
    InsertedCarries(f, tags, InsertRelay(f, BigEndian));
    SameTagsCarry(InsertRelay(f, BigEndian).frame, g, WithRelay(tags, Source(f)));
    WithRelayFront(tags, Source(f));
    AnswerReachesClient(g, [], Source(f), OldData(tags), Rest(tags));
  }

  lemma InsertedCarries(f: Frame, tags: seq<Tag>, o: Outcome)
    requires Carries(f, tags) && Inserted(f, tags, o) && o.ret == 0
    ensures f.Valid() && Carries(o.frame, WithRelay(tags, Source(f)))
  {
    hide WithRelay;
  }

  function OldData(tags: seq<Tag>): seq<Byte> {
    var i := First(tags, PTT_RELAY_SID);
    if i == |tags| then [] else tags[i].data
  }

  function Rest(tags: seq<Tag>): seq<Tag> {
    var i := First(tags, PTT_RELAY_SID);
    if i == |tags| then tags else Without(tags, i)
  }

  lemma WithRelayFront(tags: seq<Tag>, client: Mac)
    ensures First([], PTT_RELAY_SID) == 0
    ensures WithRelay(tags, client) == [] + [RelayTag(client, OldData(tags))] + Rest(tags)
    ensures Restored(tags) == [] + OldTag(OldData(tags)) + Rest(tags)
  {
    hide RelayTag, First, Without, OldTag, OldData, Rest, Restored;
    WithRelayIs(tags, client);
    RestoredIs(tags);
    var x := [RelayTag(client, OldData(tags))];
    assert [] + x == x && [] + OldTag(OldData(tags)) == OldTag(OldData(tags));
  }

  lemma RestoredIs(tags: seq<Tag>)
    ensures Restored(tags) == OldTag(OldData(tags)) + Rest(tags)
  {
    hide First, Without;
    var i := First(tags, PTT_RELAY_SID);
    if i < |tags| {
      assert tags[i] == Tag(tags[i].typ, tags[i].data);
    }
  }

  lemma WithRelayIs(tags: seq<Tag>, client: Mac)
    ensures WithRelay(tags, client) == [RelayTag(client, OldData(tags))] + Rest(tags)
  {
    hide RelayTag, First;
  }

  /** The round trip keeps the tags, and the length, exactly when the client had not sent an empty
      relay tag. */
  lemma RestoredExactly(tags: seq<Tag>)
    requires AllValid(tags)
    ensures var i := First(tags, PTT_RELAY_SID);
      && AllValid(Restored(tags))
      && (multiset(Restored(tags)) == multiset(tags) <==> !(i < |tags| && tags[i].data == []))
      && (|EncodeTags(Restored(tags))| == |EncodeTags(tags)| <==> !(i < |tags| && tags[i].data == []))
  {
    hide EncodeTag, EncodeTags, First;
    var i := First(tags, PTT_RELAY_SID);
    if i < |tags| {
      SplitAt(tags, i);
      SameBag(tags[..i], tags[i], tags[i + 1..]);
      SameLength(tags[..i], tags[i], tags[i + 1..]);
    }
  }

  lemma SplitAt(tags: seq<Tag>, i: nat)
    requires i < |tags|
    ensures tags == tags[..i] + [tags[i]] + tags[i + 1..]
  {
  }

  lemma SameBag(pre: seq<Tag>, t: Tag, post: seq<Tag>)
    ensures multiset([t] + (pre + post)) == multiset(pre + [t] + post)
    ensures multiset(pre + post) != multiset(pre + [t] + post)
  {
    assert multiset(pre + [t] + post) == multiset(pre + post) + multiset{t};
  }

  lemma SameLength(pre: seq<Tag>, t: Tag, post: seq<Tag>)
    requires AllValid(pre + [t] + post)
    ensures AllValid(pre + post) && AllValid([t] + (pre + post))
    ensures |EncodeTags([t] + (pre + post))| == |EncodeTags(pre + [t] + post)|
    ensures |EncodeTags(pre + post)| < |EncodeTags(pre + [t] + post)|
  {
    hide EncodeTag, EncodeTags;
    AllValidParts(pre, t, post);
    EncodeTagsConcat(pre, [t]);
    EncodeTagsConcat(pre + [t], post);
    EncodeTagsConcat(pre, post);
    EncodeTagsConcat([t], pre + post);
    EncodeTagsOne(t);
  }

  lemma AllValidParts(pre: seq<Tag>, t: Tag, post: seq<Tag>)
    requires AllValid(pre + [t] + post)
    ensures AllValid(pre) && t.Valid() && AllValid(post) && AllValid(pre + post) && AllValid([t] + (pre + post))
  {
    assert t in pre + [t] + post;
    forall x | x in pre || x in post ensures x.Valid() { assert x in pre + [t] + post; }
  }

  /** One empty relay tag is all it takes. */
  lemma EmptyTagLost()
    ensures Restored([Tag(PTT_RELAY_SID, [])]) == []
  {
    assert Without([Tag(PTT_RELAY_SID, [])], 0) == [];
  }
}
