/** rtw_add_bcn_ie, rtw_remove_bcn_ie and update_BCNTIM on the beacon buffer itself. */
module BeaconBuf {
  import opened Bytes
  import opened BeaconElems

  class Beacon {
    const ies: array<Byte>
    var ieLength: nat

    /** The variable part of the buffer encodes this list. */
    ghost predicate Carries(es: seq<Elem>)
      reads this, ies
    {
      && AllValid(es) && FIXED <= ieLength <= ies.Length
      && ies[FIXED..ieLength] == EncodeElems(es)
    }

    /** rtw_get_ie from the end of the fixed part. */
    method GetIe(id: Byte, ghost es: seq<Elem>) returns (found: bool, at: nat, len: nat)
      requires Carries(es)
      ensures found == (First(es, id) < |es|)
      ensures found ==> at == Offset(es, First(es, id)) && len == |es[First(es, id)].body|
    {
      found, at, len := false, FIXED, 0;
      ghost var k: nat := 0;
      OffsetEnds(es);
      while at < ieLength
        invariant k <= |es| && at == Offset(es, k) && forall j :: 0 <= j < k ==> es[j].id != id
        decreases ieLength - at
      {
        hide First, Offset;
        Inside(es, k);
        if ies[at] == id {
          FirstIs(es, id, k);
          found, len := true, ies[at + 1];
          return;
        }
        at := at + 2 + ies[at + 1];
        k := k + 1;
      }
      Inside(es, k);
    }

    /** There is a k-th element exactly when its offset is inside the buffer. */
    lemma Inside(es: seq<Elem>, k: nat)
      requires Carries(es) && k <= |es|
      ensures k < |es| <==> Offset(es, k) < ieLength
      ensures k < |es| ==> ElemStands(es, k)
    {
      OffsetEnds(es);
      if k < |es| {
        Around(es, k);
        var o, b := Offset(es, k) - FIXED, ies[FIXED..ieLength];
        var e := EncodeElem(es[k]);
        assert b[o] == e[0] && b[o + 1] == e[1];
      }
    }

    /** The bytes of the k-th element stand at its offset. */
    ghost predicate ElemStands(es: seq<Elem>, k: nat)
      requires AllValid(es) && k < |es|
      reads this, ies
    {
      var o := Offset(es, k);
      && o + 2 + |es[k].body| == Offset(es, k + 1) <= ieLength <= ies.Length
      && ies[o] == es[k].id && ies[o + 1] == |es[k].body|
    }

    /** What all three editors end with: bytes b in the place of the cut bytes at offset at. */
    method Splice(at: nat, cut: nat, b: seq<Byte>)
      requires at + cut <= ieLength <= ies.Length && ieLength - cut + |b| <= ies.Length
      modifies this`ieLength, ies
      ensures ieLength == old(ieLength) - cut + |b|
      ensures ies[..ieLength] == old(ies[..at]) + b + old(ies[at + cut..ieLength])
    {
      var remainder := ies[at + cut..ieLength];
      forall k | 0 <= k < |b| { ies[at + k] := b[k]; }
      forall k | 0 <= k < |remainder| { ies[at + |b| + k] := remainder[k]; }
      ieLength := at + |b| + |remainder|;
    }

    /** Splicing whole elements, seen on the list. */
    method SpliceElems(at: nat, cut: nat, b: seq<Byte>, ghost es: seq<Elem>, ghost i: nat, ghost j: nat,
                       ghost added: seq<Elem>)
      requires Carries(es) && i <= j <= |es| && AllValid(added) && b == EncodeElems(added)
      requires at == Offset(es, i) && at + cut == Offset(es, j) && ieLength - cut + |b| <= ies.Length
      modifies this`ieLength, ies
      ensures Carries(es[..i] + added + es[j..]) && ies[..FIXED] == old(ies[..FIXED])
    {
      hide EncodeElems, Offset;
      Spliced(es, i, j, added);
      ghost var was := ies[..ieLength];
      assert was[FIXED..] == EncodeElems(es) && was[..at] == ies[..at] && was[at + cut..] == ies[at + cut..ieLength];
      assert ies[..FIXED] == was[..FIXED];
      Splice(at, cut, b);
      Behind(was, at, cut, b);
      assert ies[..ieLength][FIXED..] == ies[FIXED..ieLength] && ies[..ieLength][..FIXED] == ies[..FIXED];
    }

    /** The scan of rtw_add_bcn_ie: it stops at the matching element, or with p at the last smaller one. */
    method FindPlace(index: Byte, ghost es: seq<Elem>) returns (p: nat, ielen: nat, bmatch: bool, ghost k: nat)
      requires Carries(es)
      ensures k == Slot(es, index) && (bmatch <==> Matches(es, index))
      ensures bmatch ==> k < |es| && p == Offset(es, k) && ielen == |es[k].body|
      ensures !bmatch && k == 0 ==> p == 0
      ensures !bmatch && k > 0 ==> p == Offset(es, k - 1) && ielen == |es[k - 1].body|
    {
      hide EncodeElems, EncodeElem, Offset, Slot;
      var i := FIXED;
      p, ielen, bmatch, k := 0, 0, false, 0;
      OffsetEnds(es);
      while i < ieLength
        invariant k <= |es| && i == Offset(es, k) && forall j :: 0 <= j < k ==> es[j].id < index
        invariant k == 0 ==> p == 0
        invariant k > 0 ==> p == Offset(es, k - 1) && ielen == |es[k - 1].body|
        invariant !bmatch
        decreases ieLength - i
      {
        Inside(es, k);
        if ies[i] > index {
          break;
        } else if ies[i] == index {
          p, ielen, bmatch := i, ies[i + 1], true;
          break;
        }
        p, ielen := i, ies[i + 1];
        i := i + 2 + ielen;
        k := k + 1;
      }
      Inside(es, k);
      SlotIs(es, index, k);
    }

    /** rtw_add_bcn_ie */
    method AddBcnIe(index: Byte, data: seq<Byte>, ghost es: seq<Elem>)
      requires Carries(es) && |data| < 256 && ieLength + 2 + |data| <= ies.Length
      modifies this`ieLength, ies
      ensures Carries(Added(es, Elem(index, data))) && ies[..FIXED] == old(ies[..FIXED])
    {
      hide EncodeElems, EncodeElem, Offset, First, Slot;
      var p, ielen, bmatch;
      ghost var k;
      p, ielen, bmatch, k := FindPlace(index, es);
      if p == 0 || ielen == 0 {
        return;
      }
      EncodeElemsOne(Elem(index, data));
      if bmatch {
        Around(es, k);
        SpliceElems(p, 2 + ielen, EncodeElem(Elem(index, data)), es, k, k + 1, [Elem(index, data)]);
      } else {
        Around(es, k - 1);
        SpliceElems(p + 2 + ielen, 0, EncodeElem(Elem(index, data)), es, k, k, [Elem(index, data)]);
      }
    }

    /** rtw_remove_bcn_ie */
    method RemoveBcnIe(index: Byte, ghost es: seq<Elem>)
      requires Carries(es)
      modifies this`ieLength, ies
      ensures Carries(Removed(es, index)) && ies[..FIXED] == old(ies[..FIXED])
    {
      hide EncodeElem, Offset, First;
      var found, p, ielen := GetIe(index, es);
      if !found || ielen == 0 {
        return;
      }
      ghost var i := First(es, index);
      Inside(es, i);
      SpliceElems(p, 2 + ielen, [], es, i, i + 1, []);
      assert es[..i] + [] + es[i + 1..] == es[..i] + es[i + 1..];
    }

    /** The TIM body, octet by octet as update_BCNTIM stores it. */
    method BuildTim(m: Bitmap) returns (body: seq<Byte>)
      ensures body == TimBody(m)
    {
      var ielen := if High(m) != 0 && Low(m) / 2 != 0 then 5 else 4;
      body := [0, 1];
      body := body + [if Low(m) % 2 == 1 then 1 else 0];
      if ielen == 4 {
        var pvb := 0;
        if Low(m) / 2 != 0 {
          pvb := Low(m);
        } else if High(m) != 0 {
          pvb := High(m);
        } else {
          pvb := Low(m);
        }
        body := body + [pvb];
      } else {
        body := body + [Low(m), High(m)];
      }
    }

    /** update_BCNTIM.  A TIM with a body is replaced where it is; otherwise a new one goes behind the
        SSID, the rates and the three octets of a DS parameter set, without a look at what is there. */
    method UpdateBcnTim(m: Bitmap, ghost es: seq<Elem>)
      requires Carries(es) && ieLength + 7 <= ies.Length
      requires TimPlace(es) <= ieLength
      modifies this`ieLength, ies
      ensures var i := First(es, TIM);
        i < |es| && es[i].body != [] ==> Carries(es[i := Elem(TIM, TimBody(m))]) && ies[..FIXED] == old(ies[..FIXED])
      ensures FIXED <= ieLength <= ies.Length
      ensures var i := First(es, TIM);
        i == |es| || es[i].body == [] ==>
          ies[..ieLength] == old(ies[..TimPlace(es)]) + EncodeElem(Elem(TIM, TimBody(m)))
                             + old(ies[TimPlace(es)..ieLength])
      ensures !HasTim(es) && !Starts(es, TimPlace(es)) ==> !WalkReaches(ies[FIXED..ieLength], 0, TimPlace(es) - FIXED)
      ensures forall j :: !HasTim(es) && 0 <= j <= |es| && TimPlace(es) == Offset(es, j) ==>
        Carries(es[..j] + [Elem(TIM, TimBody(m))] + es[j..])
    {
      hide EncodeElem, EncodeElems, Offset, First, TimBody, WalkReaches, Starts;
      var found, p, timIelen := GetIe(TIM, es);
      var body := BuildTim(m);
      if found && timIelen > 0 {
        ghost var i := First(es, TIM);
        Inside(es, i);
        EncodeElemsOne(Elem(TIM, body));
        SpliceElems(p, 2 + timIelen, EncodeElem(Elem(TIM, body)), es, i, i + 1, [Elem(TIM, body)]);
        assert es[..i] + [Elem(TIM, body)] + es[i + 1..] == es[i := Elem(TIM, body)];
      } else {
        InsertTim(m, body, es);
      }
    }

    /** Behind the SSID, the rates and three more octets. */
    method InsertTim(m: Bitmap, body: seq<Byte>, ghost es: seq<Elem>)
      requires Carries(es) && ieLength + 7 <= ies.Length && TimPlace(es) <= ieLength && body == TimBody(m)
      modifies this`ieLength, ies
      ensures FIXED <= ieLength <= ies.Length && AllValid(es)
      ensures ies[..ieLength] == old(ies[..TimPlace(es)]) + EncodeElem(Elem(TIM, TimBody(m)))
                                 + old(ies[TimPlace(es)..ieLength])
      ensures !Starts(es, TimPlace(es)) ==> !WalkReaches(ies[FIXED..ieLength], 0, TimPlace(es) - FIXED)
      ensures forall j :: 0 <= j <= |es| && TimPlace(es) == Offset(es, j) ==>
        Carries(es[..j] + [Elem(TIM, TimBody(m))] + es[j..])
    {
      hide EncodeElem, EncodeElems, Offset, First, TimBody, WalkReaches, Starts;
      var offset := FIXED;
      var ssid, _, ssidLen := GetIe(SSID, es);
      if ssid {
        offset := offset + ssidLen + 2;
      }
      var rates, _, ratesLen := GetIe(SUPPORTED_RATES, es);
      if rates {
        offset := offset + ratesLen + 2;
      }
      offset := offset + 3;
      ghost var was := ies[..ieLength];
      assert was[FIXED..] == EncodeElems(es) && was[offset..] == ies[offset..ieLength] && was[..offset] == ies[..offset];
      Splice(offset, 0, EncodeElem(Elem(TIM, body)));
      TimParses(was, es, m);
    }

    /** What a parser sees in the buffer with the new TIM. */
    lemma TimParses(was: seq<Byte>, es: seq<Elem>, m: Bitmap)
      requires FIXED <= |was| && AllValid(es) && was[FIXED..] == EncodeElems(es) && TimPlace(es) <= |was|
      requires ieLength <= ies.Length && ies[..ieLength] == WithTim(was, TimPlace(es), m)
      ensures FIXED <= ieLength
      ensures !Starts(es, TimPlace(es)) ==> !WalkReaches(ies[FIXED..ieLength], 0, TimPlace(es) - FIXED)
      ensures forall j :: 0 <= j <= |es| && TimPlace(es) == Offset(es, j) ==>
        Carries(es[..j] + [Elem(TIM, TimBody(m))] + es[j..])
    {
      hide EncodeElem, EncodeElems, Offset, TimBody, WalkReaches, Starts, TimPlace, WithTim;
      PutIn(was, TimPlace(es), m);
      assert ies[..ieLength][FIXED..] == ies[FIXED..ieLength];
      assert ies[FIXED..ieLength] == WithTim(EncodeElems(es), TimPlace(es) - FIXED, m);
      TimReached(es, m);
      forall j | 0 <= j <= |es| && TimPlace(es) == Offset(es, j)
        ensures Carries(es[..j] + [Elem(TIM, TimBody(m))] + es[j..])
      {
        CarriesTim(es, j, m);
      }
    }

    lemma CarriesTim(es: seq<Elem>, j: nat, m: Bitmap)
      requires AllValid(es) && j <= |es| && TimPlace(es) == Offset(es, j)
      requires TimPlace(es) <= FIXED + |EncodeElems(es)| && FIXED <= ieLength <= ies.Length
      requires ies[FIXED..ieLength] == WithTim(EncodeElems(es), TimPlace(es) - FIXED, m)
      ensures Carries(es[..j] + [Elem(TIM, TimBody(m))] + es[j..])
    {
      hide EncodeElem, EncodeElems, Offset, TimBody, TimPlace, WithTim;
      TimInserted(es, j, m);
    }
  }

  predicate HasTim(es: seq<Elem>) {
    var i := First(es, TIM);
    i < |es| && es[i].body != []
  }

  /** The space the first element with an identifier takes, if there is one. */
  function Taken(es: seq<Elem>, id: Byte): nat {
    var i := First(es, id);
    if i < |es| then 2 + |es[i].body| else 0
  }

  /** Where a missing TIM is put. */
  function TimPlace(es: seq<Elem>): (r: nat)
    ensures r >= FIXED
  {
    FIXED + Taken(es, SSID) + Taken(es, SUPPORTED_RATES) + 3
  }

  /** The bytes b with the TIM put in at offset at. */
  function WithTim(b: seq<Byte>, at: nat, m: Bitmap): seq<Byte>
    requires at <= |b|
  {
    b[..at] + EncodeElem(Elem(TIM, TimBody(m))) + b[at..]
  }

  /** The same seen from the beginning of the buffer. */
  lemma PutIn(b: seq<Byte>, offset: nat, m: Bitmap)
    requires FIXED <= offset <= |b|
    ensures |WithTim(b, offset, m)| >= FIXED
    ensures WithTim(b, offset, m)[FIXED..] == WithTim(b[FIXED..], offset - FIXED, m)
  {
    hide EncodeElem, TimBody;
    assert b[FIXED..][..offset - FIXED] == b[FIXED..offset] && b[FIXED..][offset - FIXED..] == b[offset..];
    assert b[..offset] == b[..FIXED] + b[FIXED..offset];
  }

  /** A new TIM becomes an element of the list if its place is where an element starts. */
  lemma TimInserted(es: seq<Elem>, j: nat, m: Bitmap)
    requires AllValid(es) && j <= |es| && TimPlace(es) == Offset(es, j)
    ensures var all := EncodeElems(es); var at := TimPlace(es) - FIXED; var tim := Elem(TIM, TimBody(m));
      at <= |all| && AllValid(es[..j] + [tim] + es[j..]) && WithTim(all, at, m) == EncodeElems(es[..j] + [tim] + es[j..])
  {
    hide EncodeElem, EncodeElems, TimBody, TimPlace;
    var tim := Elem(TIM, TimBody(m));
    Between(es, j, j);
    EncodeElemsOne(tim);
    EncodeElemsConcat(es[..j], [tim]);
    EncodeElemsConcat(es[..j] + [tim], es[j..]);
  }

  /** An element of the list starts, or the list ends, at this offset in the buffer. */
  ghost predicate Starts(es: seq<Elem>, offset: nat)
    requires AllValid(es)
  {
    exists j :: 0 <= j <= |es| && Offset(es, j) == offset
  }

  /** Walking from element to element, as rtw_get_ie does, one comes from offset i to offset p. */
  predicate WalkReaches(b: seq<Byte>, i: nat, p: nat)
    decreases |b| - i
  {
    i == p || (i + 1 < |b| && WalkReaches(b, i + 2 + b[i + 1], p))
  }

  /** MAIN: a parser comes to a TIM that was put in exactly if an element started at its place. */
  lemma TimReached(es: seq<Elem>, m: Bitmap)
    requires AllValid(es) && TimPlace(es) <= FIXED + |EncodeElems(es)|
    ensures WalkReaches(WithTim(EncodeElems(es), TimPlace(es) - FIXED, m), 0, TimPlace(es) - FIXED)
            <==> Starts(es, TimPlace(es))
  {
    hide WalkReaches, Offset, EncodeElems, EncodeElem, WithTim, Starts, TimPlace;
    OffsetEnds(es);
    var at := TimPlace(es) - FIXED;
    WalkFrom(es, 0, at, m);
    StartsFrom(es, at);
  }

  ghost predicate StartsAfter(es: seq<Elem>, k: nat, offset: nat)
    requires AllValid(es)
  {
    exists j :: k <= j <= |es| && Offset(es, j) == offset
  }

  lemma StartsFrom(es: seq<Elem>, at: nat)
    requires AllValid(es)
    ensures Starts(es, FIXED + at) <==> StartsAfter(es, 0, FIXED + at)
  {
    hide Offset;
  }

  lemma {:induction false} WalkFrom(es: seq<Elem>, k: nat, at: nat, m: Bitmap)
    requires AllValid(es) && k <= |es| && Offset(es, k) <= FIXED + at <= FIXED + |EncodeElems(es)|
    ensures WalkReaches(WithTim(EncodeElems(es), at, m), Offset(es, k) - FIXED, at) <==> StartsAfter(es, k, FIXED + at)
    decreases |es| - k
  {
    hide Offset, EncodeElems, WithTim, StartsAfter;
    var i := Offset(es, k) - FIXED;
    OffsetEnds(es);
    if i == at {
      HereStarts(es, k);
    } else {
      WalkStep(es, k, at, m);
      LaterStarts(es, k, at);
      if Offset(es, k + 1) <= FIXED + at {
        WalkFrom(es, k + 1, at, m);
      } else {
        PastStarts(es, k + 1, at);
      }
    }
  }

  lemma HereStarts(es: seq<Elem>, k: nat)
    requires AllValid(es) && k <= |es|
    ensures StartsAfter(es, k, Offset(es, k))
  {
    hide Offset;
  }

  lemma LaterStarts(es: seq<Elem>, k: nat, at: nat)
    requires AllValid(es) && k < |es| && Offset(es, k) < FIXED + at
    ensures StartsAfter(es, k, FIXED + at) <==> StartsAfter(es, k + 1, FIXED + at)
  {
    hide Offset;
  }

  lemma {:induction false} PastStarts(es: seq<Elem>, k: nat, at: nat)
    requires AllValid(es) && k <= |es| && Offset(es, k) > FIXED + at
    ensures !StartsAfter(es, k, FIXED + at)
    decreases |es| - k
  {
    hide Offset;
    if k < |es| {
      Around(es, k);
      PastStarts(es, k + 1, at);
    }
  }

  /** One step of the walk before the place of the TIM: to the next element, or past the place. */
  lemma WalkStep(es: seq<Elem>, k: nat, at: nat, m: Bitmap)
    requires AllValid(es) && k < |es| && Offset(es, k) < FIXED + at <= FIXED + |EncodeElems(es)|
    ensures var b, i, n := WithTim(EncodeElems(es), at, m), Offset(es, k) - FIXED, Offset(es, k + 1) - FIXED;
      && n >= i + 2
      && (WalkReaches(b, i, at) <==> n <= at && WalkReaches(b, n, at))
  {
    hide EncodeElems, EncodeElem, TimBody;
    Around(es, k);
    var all, i, n := EncodeElems(es), Offset(es, k) - FIXED, Offset(es, k + 1) - FIXED;
    var b := WithTim(all, at, m);
    SecondOctet(es[k]);
    TimFirst(m);
    assert all[i + 1] == EncodeElem(es[k])[1];
    assert b[i + 1] == if i + 1 < at then all[i + 1] else TIM;
    if i + 2 + b[i + 1] > at {
      WalkPast(b, i + 2 + b[i + 1], at);
    }
  }

  lemma SecondOctet(e: Elem)
    requires e.Valid()
    ensures EncodeElem(e)[1] == |e.body|
  {
  }

  lemma TimFirst(m: Bitmap)
    ensures EncodeElem(Elem(TIM, TimBody(m)))[0] == TIM
  {
  }

  lemma {:induction false} WalkPast(b: seq<Byte>, i: nat, p: nat)
    requires i > p
    ensures !WalkReaches(b, i, p)
    decreases |b| - i
  {
    if i + 1 < |b| {
      WalkPast(b, i + 2 + b[i + 1], p);
    }
  }

  /** So it is lost in a beacon without a DS parameter set, as in the 5 GHz band, unless the element in
      its place happens to take three octets: here a country element is cut in the middle. */
  lemma TimCutsCountry(m: Bitmap)
    ensures var es := [Elem(SSID, []), Elem(SUPPORTED_RATES, [2]), Elem(7, [68, 69, 32, 1, 13, 20])];
      AllValid(es) && !Starts(es, TimPlace(es))
  {
    var es := [Elem(SSID, []), Elem(SUPPORTED_RATES, [2]), Elem(7, [68, 69, 32, 1, 13, 20])];
    hide EncodeElem, EncodeElems, First;
    FirstIs(es, SSID, 0);
    FirstIs(es, SUPPORTED_RATES, 1);
    OffsetEnds(es);
    Around(es, 0);
    Around(es, 1);
    Around(es, 2);
    assert Offset(es, 0) == 12 && Offset(es, 1) == 14 && Offset(es, 2) == 17 && Offset(es, 3) == 25;
  }

  lemma TimBehindDs(es: seq<Elem>)
    requires AllValid(es) && |es| >= 3
    requires es[0].id == SSID && es[1].id == SUPPORTED_RATES && es[2].id == 3 && |es[2].body| == 1
    ensures TimPlace(es) == Offset(es, 3)
  {
    hide EncodeElem, EncodeElems, First;
    FirstIs(es, SSID, 0);
    FirstIs(es, SUPPORTED_RATES, 1);
    OffsetEnds(es);
    Around(es, 0);
    Around(es, 1);
    Around(es, 2);
  }

  lemma OffsetEnds(es: seq<Elem>)
    requires AllValid(es)
    ensures Offset(es, 0) == FIXED && Offset(es, |es|) == FIXED + |EncodeElems(es)|
  {
    assert es[..0] == [] && es[..|es|] == es;
  }

  /** The encoding cut around element k. */
  lemma Around(es: seq<Elem>, k: nat)
    requires AllValid(es) && k < |es|
    ensures AllValid(es[..k]) && AllValid(es[k + 1..]) && es[k].Valid()
    ensures EncodeElems(es) == EncodeElems(es[..k]) + EncodeElem(es[k]) + EncodeElems(es[k + 1..])
    ensures Offset(es, k + 1) == Offset(es, k) + 2 + |es[k].body|
  {
    hide EncodeElem;
    EncodeElemsOne(es[k]);
    EncodeElemsConcat(es[..k], [es[k]]);
    assert es[..k + 1] == es[..k] + [es[k]] && es == es[..k + 1] + es[k + 1..];
    EncodeElemsConcat(es[..k + 1], es[k + 1..]);
  }

  /** The bytes of a list with elements i to j exchanged. */
  lemma Spliced(es: seq<Elem>, i: nat, j: nat, added: seq<Elem>)
    requires AllValid(es) && i <= j <= |es| && AllValid(added)
    ensures FIXED <= Offset(es, i) <= Offset(es, j) <= FIXED + |EncodeElems(es)|
    ensures AllValid(es[..i] + added + es[j..])
    ensures EncodeElems(es)[..Offset(es, i) - FIXED] + EncodeElems(added) + EncodeElems(es)[Offset(es, j) - FIXED..]
            == EncodeElems(es[..i] + added + es[j..])
  {
    hide EncodeElems, Offset;
    Between(es, i, j);
    EncodeElemsConcat(es[..i], added);
    EncodeElemsConcat(es[..i] + added, es[j..]);
  }

  /** An exchange behind the fixed part leaves that part alone. */
  lemma Behind(was: seq<Byte>, at: nat, cut: nat, b: seq<Byte>)
    requires FIXED <= at && at + cut <= |was|
    ensures var r := was[..at] + b + was[at + cut..];
      && r[..FIXED] == was[..FIXED]
      && r[FIXED..] == was[FIXED..][..at - FIXED] + b + was[FIXED..][at + cut - FIXED..]
  {
    assert was[FIXED..][..at - FIXED] == was[..at][FIXED..];
    assert was[FIXED..][at + cut - FIXED..] == was[at + cut..];
  }

  /** The encoding cut around elements i to j. */
  lemma Between(es: seq<Elem>, i: nat, j: nat)
    requires AllValid(es) && i <= j <= |es|
    ensures AllValid(es[..i]) && AllValid(es[j..])
    ensures Offset(es, i) <= Offset(es, j) <= FIXED + |EncodeElems(es)|
    ensures EncodeElems(es)[..Offset(es, i) - FIXED] == EncodeElems(es[..i])
    ensures EncodeElems(es)[Offset(es, j) - FIXED..] == EncodeElems(es[j..])
  {
    assert es == es[..i] + es[i..] && es == es[..j] + es[j..] && es[..j] == es[..i] + es[i..j];
    EncodeElemsConcat(es[..i], es[i..]);
    EncodeElemsConcat(es[..j], es[j..]);
    EncodeElemsConcat(es[..i], es[i..j]);
  }

  lemma {:induction false} SlotIs(es: seq<Elem>, index: Byte, k: nat)
    requires k <= |es| && (forall j :: 0 <= j < k ==> es[j].id < index) && (k < |es| ==> es[k].id >= index)
    ensures Slot(es, index) == k
  {
    if k > 0 {
      SlotIs(es[1..], index, k - 1);
    }
  }
}
