/** The element list of a beacon as core/rtw_ap.c edits it, and the meaning of the TIM element. */
module BeaconElems {
  import opened Bytes

  const FIXED := 12             // time stamp, beacon interval, capabilities
  const SSID: Byte := 0
  const SUPPORTED_RATES: Byte := 1
  const TIM: Byte := 5

  datatype Elem = Elem(id: Byte, body: seq<Byte>) {
    predicate Valid() { |body| < 256 }
  }

  function EncodeElem(e: Elem): (r: seq<Byte>)
    requires e.Valid()
    ensures |r| == 2 + |e.body|
  {
    [e.id, |e.body|] + e.body
  }

  ghost predicate AllValid(es: seq<Elem>) {
    forall e :: e in es ==> e.Valid()
  }

  ghost function EncodeElems(es: seq<Elem>): (r: seq<Byte>)
    requires AllValid(es)
  {
    if es == [] then [] else EncodeElem(es[0]) + EncodeElems(es[1..])
  }

  lemma {:induction false} EncodeElemsConcat(a: seq<Elem>, b: seq<Elem>)
    requires AllValid(a) && AllValid(b)
    ensures AllValid(a + b) && EncodeElems(a + b) == EncodeElems(a) + EncodeElems(b)
    decreases |a|
  {
    hide EncodeElem;
    if a == [] {
      assert a + b == b;
    } else {
      assert (a + b)[1..] == a[1..] + b && (a + b)[0] == a[0];
      EncodeElemsConcat(a[1..], b);
    }
  }

  lemma EncodeElemsOne(e: Elem)
    requires e.Valid()
    ensures AllValid([e]) && EncodeElems([e]) == EncodeElem(e)
  {
    assert [e][1..] == [] && EncodeElems([]) == [];
  }

  /** The offset in the buffer at which element i starts. */
  ghost function Offset(es: seq<Elem>, i: nat): (r: nat)
    requires AllValid(es) && i <= |es|
    ensures r >= FIXED
  {
    FIXED + |EncodeElems(es[..i])|
  }

  // ---------------------------------------------------------------- finding and editing

  /** The first element with an identifier, or the number of elements. */
  function First(es: seq<Elem>, id: Byte): (i: nat)
    ensures i <= |es| && (i < |es| ==> es[i].id == id)
    ensures forall k :: 0 <= k < i ==> es[k].id != id
  {
    if es == [] || es[0].id == id then 0 else 1 + First(es[1..], id)
  }

  /** The first element whose identifier is not below index, or the number of elements. */
  function Slot(es: seq<Elem>, index: Byte): (i: nat)
    ensures i <= |es| && (i < |es| ==> es[i].id >= index)
    ensures forall k :: 0 <= k < i ==> es[k].id < index
  {
    if es == [] || es[0].id >= index then 0 else 1 + Slot(es[1..], index)
  }

  predicate Matches(es: seq<Elem>, index: Byte) {
    var i := Slot(es, index);
    i < |es| && es[i].id == index
  }

  /** rtw_add_bcn_ie goes by the element that matches or, without one, the element before the slot;
      if there is none, or it is empty, nothing is done. */
  predicate Editable(es: seq<Elem>, index: Byte) {
    var i := Slot(es, index);
    if Matches(es, index) then es[i].body != [] else i > 0 && es[i - 1].body != []
  }

  /** The list rtw_add_bcn_ie leaves: the element replaced, or inserted before the first larger one. */
  function Added(es: seq<Elem>, e: Elem): seq<Elem> {
    var i := Slot(es, e.id);
    if !Editable(es, e.id) then es
    else if Matches(es, e.id) then es[..i] + [e] + es[i + 1..]
    else es[..i] + [e] + es[i..]
  }

  /** The list rtw_remove_bcn_ie leaves: an empty element is not removed. */
  function Removed(es: seq<Elem>, id: Byte): seq<Elem> {
    var i := First(es, id);
    if i == |es| || es[i].body == [] then es else es[..i] + es[i + 1..]
  }

  /** What adding does, by where the element belongs: i is the first place whose element is not below it. */
  lemma AddedExactly(es: seq<Elem>, e: Elem, i: nat)
    requires i <= |es| && (forall k :: 0 <= k < i ==> es[k].id < e.id) && (i < |es| ==> es[i].id >= e.id)
    ensures Added(es, e) ==
      if i < |es| && es[i].id == e.id then (if es[i].body == [] then es else es[..i] + [e] + es[i + 1..])
      else if i == 0 || es[i - 1].body == [] then es
      else es[..i] + [e] + es[i..]
  {
    hide Slot;
    assert Slot(es, e.id) == i;
  }

  /** And removing: i is the first element with the identifier, if there is one. */
  lemma RemovedExactly(es: seq<Elem>, id: Byte, i: nat)
    requires i <= |es| && (forall k :: 0 <= k < i ==> es[k].id != id) && (i < |es| ==> es[i].id == id)
    ensures Removed(es, id) == if i == |es| || es[i].body == [] then es else es[..i] + es[i + 1..]
  {
    hide First;
    assert First(es, id) == i;
  }

  /** MAIN: removing an element that has just been added, and is not empty, gives the list back. */
  lemma RemoveUndoesAdd(es: seq<Elem>, e: Elem)
    requires Editable(es, e.id) && !Matches(es, e.id) && e.body != []
    ensures Removed(Added(es, e), e.id) == es
  {
    var i := Slot(es, e.id);
    var r := Added(es, e);
    FirstIs(r, e.id, i);
    assert r[..i] + r[i + 1..] == es;
  }

  lemma {:induction false} FirstIs(es: seq<Elem>, id: Byte, i: nat)
    requires i < |es| && es[i].id == id && forall k :: 0 <= k < i ==> es[k].id != id
    ensures First(es, id) == i
  {
    if i > 0 {
      FirstIs(es[1..], id, i - 1);
    }
  }

  /** Behind an empty SSID, a hidden network's, nothing can be added. */
  lemma NothingBehindEmpty(e: Elem)
    requires e.id != SSID
    ensures !Editable([Elem(SSID, [])], e.id) && Added([Elem(SSID, [])], e) == [Elem(SSID, [])]
  {
    assert [Elem(SSID, [])][1..] == [];
  }

  predicate Sorted(es: seq<Elem>) {
    forall i, j :: 0 <= i < j < |es| ==> es[i].id <= es[j].id
  }

  /** MAIN: a list in identifier order stays in order. */
  lemma AddKeepsOrder(es: seq<Elem>, e: Elem)
    requires Sorted(es)
    ensures Sorted(Added(es, e))
  {
    hide First, Slot, Sorted, Editable;
    if Editable(es, e.id) {
      if Matches(es, e.id) { ReplaceSorted(es, e, Slot(es, e.id)); } else { InsertSorted(es, e, Slot(es, e.id)); }
    }
  }

  lemma ReplaceSorted(es: seq<Elem>, e: Elem, i: nat)
    requires Sorted(es) && i < |es| && es[i].id == e.id
    ensures Sorted(es[..i] + [e] + es[i + 1..])
  {
    var r := es[..i] + [e] + es[i + 1..];
    assert forall k {:trigger r[k]} :: 0 <= k < |r| ==> r[k].id == es[k].id;
  }

  lemma InsertSorted(es: seq<Elem>, e: Elem, i: nat)
    requires Sorted(es) && i <= |es| && (forall k :: 0 <= k < i ==> es[k].id < e.id) && (i < |es| ==> es[i].id >= e.id)
    ensures Sorted(es[..i] + [e] + es[i..])
  {
    var r := es[..i] + [e] + es[i..];
    forall j, k | 0 <= j < k < |r| ensures r[j].id <= r[k].id {
      if j < i && k > i { assert es[j].id <= es[k - 1].id; }
      else if j < i && k < i { assert es[j].id <= es[k].id; }
      else if j > i { assert es[j - 1].id <= es[k - 1].id; }
      else if j == i { assert i < |es| && (i == k - 1 || es[i].id <= es[k - 1].id); }
    }
  }

  /** MAIN: an ordered list gains the new element and loses the first one with the same identifier,
      if there is one, and nothing else. */
  lemma AddContents(es: seq<Elem>, e: Elem)
    requires Sorted(es) && Editable(es, e.id)
    ensures var f := First(es, e.id);
      multiset(Added(es, e)) == multiset(es) + multiset{e} - (if f < |es| then multiset{es[f]} else multiset{})
  {
    hide Sorted, First, Slot;
    FirstIsSlot(es, e.id);
    var i := Slot(es, e.id);
    if Matches(es, e.id) { Replaced(es, i, e); } else { Inserted(es, i, e); }
  }

  lemma Replaced(es: seq<Elem>, i: nat, e: Elem)
    requires i < |es|
    ensures multiset(es[..i] + [e] + es[i + 1..]) == multiset(es) + multiset{e} - multiset{es[i]}
  {
    assert es == es[..i] + [es[i]] + es[i + 1..];
    Exchanged(es[..i], [es[i]], e, es[i + 1..]);
  }

  lemma Inserted(es: seq<Elem>, i: nat, e: Elem)
    requires i <= |es|
    ensures multiset(es[..i] + [e] + es[i..]) == multiset(es) + multiset{e}
  {
    assert es == es[..i] + [] + es[i..];
    Exchanged(es[..i], [], e, es[i..]);
  }

  lemma Exchanged(pre: seq<Elem>, x: seq<Elem>, e: Elem, post: seq<Elem>)
    ensures multiset(pre + [e] + post) == multiset(pre + x + post) + multiset{e} - multiset(x)
  {
  }

  lemma FirstIsSlot(es: seq<Elem>, id: Byte)
    requires Sorted(es)
    ensures First(es, id) == if Matches(es, id) then Slot(es, id) else |es|
  {
    if Matches(es, id) {
      FirstIs(es, id, Slot(es, id));
    } else {
      var s := Slot(es, id);
      assert forall k {:trigger es[k]} :: s < k < |es| ==> es[s].id <= es[k].id;
    }
  }

  // ---------------------------------------------------------------- the TIM element

  /** Associations 1 to 15 in a 16-bit map; bit 0 stands for broadcast traffic. */
  type Bitmap = b: nat | b < 0x1_0000

  function Low(m: Bitmap): Byte { m % 256 }
  function High(m: Bitmap): Byte { m / 256 }

  predicate Waiting(m: Bitmap, aid: nat)
    requires aid < 16
  {
    BitOf(if aid < 8 then Low(m) else High(m), aid % 8)
  }

  /** The body update_BCNTIM writes. */
  function TimBody(m: Bitmap): (r: seq<Byte>)
    ensures 4 <= |r| <= 5
  {
    var ctrl: Byte := if Low(m) % 2 == 1 then 1 else 0;
    if High(m) != 0 && Low(m) / 2 != 0 then [0, 1, ctrl, Low(m), High(m)]
    else if Low(m) / 2 != 0 || High(m) == 0 then [0, 1, ctrl, Low(m)]
    else [0, 1, ctrl, High(m)]
  }

  /** How a station reads a TIM (section 8.4.2.7 of IEEE 802.11-2012): the octets after the control
      octet are those of the virtual bitmap from octet 2 * (control / 2) on; the others are zero. */
  predicate Indicated(tim: seq<Byte>, aid: nat)
    requires |tim| >= 4
  {
    var n1 := 2 * (tim[2] / 2);
    n1 <= aid / 8 < n1 + |tim| - 3 && BitOf(tim[3 + aid / 8 - n1], aid % 8)
  }

  predicate GroupTraffic(tim: seq<Byte>)
    requires |tim| >= 4
  {
    tim[2] % 2 == 1
  }

  /** Every station reads its own bit, and no other station reads one. */
  ghost predicate Decodes(tim: seq<Byte>, m: Bitmap)
    requires |tim| >= 4
  {
    && (GroupTraffic(tim) <==> Waiting(m, 0))
    && (forall aid :: 1 <= aid < 16 ==> (Indicated(tim, aid) <==> Waiting(m, aid)))
    && (forall aid :: 16 <= aid ==> !Indicated(tim, aid))
  }

  /** The map is the sum of its bits, the bit of association a being worth two to the a. */
  lemma MapIsSum(m: Bitmap)
    ensures m == Four(Waiting(m, 0), Waiting(m, 1), Waiting(m, 2), Waiting(m, 3))
               + 16 * Four(Waiting(m, 4), Waiting(m, 5), Waiting(m, 6), Waiting(m, 7))
               + 256 * Four(Waiting(m, 8), Waiting(m, 9), Waiting(m, 10), Waiting(m, 11))
               + 4096 * Four(Waiting(m, 12), Waiting(m, 13), Waiting(m, 14), Waiting(m, 15))
  {
    hide BitOf, Four;
    OctetBits(Low(m));
    OctetBits(High(m));
  }

  /** MAIN: the octets of the body, by the associations that wait: DTIM count 0, DTIM period 1, the control
      octet with the broadcast bit, and of the two octets of the map those that are needed; if nobody of 1
      to 7 waits but somebody of 8 to 15 does, the second octet stands where the first belongs. */
  lemma TimOctets(m: Bitmap)
    ensures var tim := TimBody(m);
      var low, high := exists a :: 1 <= a < 8 && Waiting(m, a), exists a :: 8 <= a < 16 && Waiting(m, a);
      && tim[0] == 0 && tim[1] == 1 && tim[2] == (if Waiting(m, 0) then 1 else 0)
      && |tim| == (if low && high then 5 else 4)
      && (forall k :: 0 <= k < 8 ==> (BitOf(tim[3], k) <==> Waiting(m, if high && !low then 8 + k else k)))
      && (low && high ==> forall k :: 0 <= k < 8 ==> (BitOf(tim[4], k) <==> Waiting(m, 8 + k)))
  {
    hide BitOf, Waiting, TimBody, Low, High;
    TimParts(m);
    LowWaits(m);
    HighWaits(m);
    WaitsBy(m);
  }

  lemma TimParts(m: Bitmap)
    ensures var tim, low, high := TimBody(m), Low(m) / 2 != 0, High(m) != 0;
      && |tim| == (if low && high then 5 else 4)
      && tim[0] == 0 && tim[1] == 1 && tim[2] == (if Waiting(m, 0) then 1 else 0)
      && tim[3] == (if high && !low then High(m) else Low(m)) && (low && high ==> tim[4] == High(m))
  {
  }

  lemma WaitsBy(m: Bitmap)
    ensures forall k :: 0 <= k < 8 ==> (BitOf(Low(m), k) <==> Waiting(m, k))
    ensures forall k :: 0 <= k < 8 ==> (BitOf(High(m), k) <==> Waiting(m, 8 + k))
  {
    hide BitOf;
  }

  lemma LowWaits(m: Bitmap)
    ensures Low(m) / 2 != 0 <==> exists a :: 1 <= a < 8 && Waiting(m, a)
  {
    hide BitOf;
    UpperBits(Low(m));
    assert forall a {:trigger Waiting(m, a)} {:trigger BitOf(Low(m), a)} :: 1 <= a < 8 ==>
      (Waiting(m, a) <==> BitOf(Low(m), a));
  }

  lemma UpperBits(b: Byte)
    ensures b / 2 != 0 <==> exists k :: 1 <= k < 8 && BitOf(b, k)
  {
    hide BitOf;
    OctetBits(b);
    if b >= 2 {
      assert BitOf(b, 1) || BitOf(b, 2) || BitOf(b, 3) || BitOf(b, 4) || BitOf(b, 5) || BitOf(b, 6) || BitOf(b, 7);
    }
  }

  lemma HighWaits(m: Bitmap)
    ensures High(m) != 0 <==> exists a :: 8 <= a < 16 && Waiting(m, a)
  {
    hide BitOf;
    ByteBits(High(m));
    if k :| 0 <= k < 8 && BitOf(High(m), k) {
      assert Waiting(m, 8 + k);
    }
  }

  lemma ByteBits(b: Byte)
    ensures b == 0 <==> forall k :: 0 <= k < 8 ==> !BitOf(b, k)
  {
    if forall k :: 0 <= k < 8 ==> !BitOf(b, k) {
      assert !BitOf(b, 0) && !BitOf(b, 1) && !BitOf(b, 2) && !BitOf(b, 3);
      assert !BitOf(b, 4) && !BitOf(b, 5) && !BitOf(b, 6) && !BitOf(b, 7);
    }
  }

  /** MAIN: the TIM decodes to the map exactly when one of the associations 1 to 7 is waiting or none
      of 8 to 15 is; otherwise the high octet is sent in the place of the low one. */
  lemma TimDecodes(m: Bitmap)
    ensures Decodes(TimBody(m), m) <==> Low(m) / 2 != 0 || High(m) == 0
  {
    hide BitOf;
    var tim := TimBody(m);
    Bit0(Low(m));
    assert tim[2] / 2 == 0;
    if Low(m) / 2 != 0 || High(m) == 0 {
      forall aid | 1 <= aid < 16 ensures Indicated(tim, aid) <==> Waiting(m, aid) {
        if aid >= 8 { ByteBits(High(m)); }
      }
    } else {
      ByteBits(High(m));
      var k :| 0 <= k < 8 && BitOf(High(m), k);
      assert Waiting(m, 8 + k) && !Indicated(tim, 8 + k);
    }
  }

  /** Only association 8 waiting is read as the broadcast slot of the first octet, and by nobody. */
  lemma TimMisplaced()
    ensures Waiting(0x100, 8) && !Indicated(TimBody(0x100), 8) && !Decodes(TimBody(0x100), 0x100)
  {
    TimDecodes(0x100);
  }

  lemma Bit0(b: Byte)
    ensures BitOf(b, 0) <==> b % 2 == 1
  {
  }
}
