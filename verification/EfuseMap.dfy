/** The eFuse device and rtw_efuse_map_write: two passes over the requested range, the first
    charging bytes, the second programming packets.  Both are proved against EfuseDiff. */
module EfuseMap {
  import opened Bytes
  import opened EfuseLog
  import opened EfuseDiff

  class Efuse {
    const sections: nat
    /** Bytes usable for packets; the rest of the array is protected. */
    const available: nat
    const raw: array<Byte>
    var used: nat
    /** Hardware health: how many more packet writes succeed. */
    var goodWrites: nat
    /** The packets programmed so far, oldest first. */
    ghost var log: seq<Packet>

    ghost predicate Valid()
      reads this, raw
    {
      && sections <= MAX_SECTIONS
      && used < available <= raw.Length
      && AllValid(log, sections) && AllValid(log, MAX_SECTIONS)
      && used == |EncodeAll(log)| && At(raw[..], 0, EncodeAll(log))
      && forall k :: used <= k < raw.Length ==> raw[k] == ERASED
    }

    ghost function MapLen(): nat { sections * 8 }

    /** The logical map the log stands for. */
    ghost function Map(): (m: seq<Byte>)
      requires AllValid(log, sections)
      reads this
      ensures |m| == MapLen()
    {
      MergeAll(Blank(MapLen()), log)
    }

    constructor (sections: nat, available: nat, size: nat, goodWrites: nat)
      requires sections <= MAX_SECTIONS && 0 < available <= size
      ensures Valid() && fresh(raw) && log == [] && used == 0
      ensures this.sections == sections && this.available == available && this.goodWrites == goodWrites
    {
      this.sections, this.available, this.goodWrites := sections, available, goodWrites;
      raw := new Byte[size](_ => ERASED);
      used, log := 0, [];
    }

    /** efuse_OneByteRead; past the end of the array the hardware answers 0xFF. */
    method OneByteRead(a: nat) returns (b: Byte)
      ensures b == Read(raw[..], a)
    {
      b := if a < raw.Length then raw[a] else ERASED;
    }

    /** The word loop of rtw_efuse_analyze. */
    method ReadSection(image: seq<Byte>, addr: nat, section: nat, wden: Nibble) returns (m: seq<Byte>, a: nat)
      requires (section + 1) * SECTION_BYTES <= |image|
      ensures Next(m, a) == ReadWords(raw[..], addr, wden, section, image, 0)
    {
      m, a := image, addr;
      for i := 0 to WORD_UNITS
        invariant |m| == |image|
        invariant ReadWords(raw[..], a, wden, section, m, i) == ReadWords(raw[..], addr, wden, section, image, 0)
      {
        if !WordDisabled(wden, i) {
          if !(a + 2 < raw.Length) {
            return;
          }
          var lo := OneByteRead(a);
          var hi := OneByteRead(a + 1);
          m := PutWord(m, section * 8 + 2 * i, lo, hi);
          a := a + 2;
        }
      }
    }

    /** One turn of the analyze loop: read the rest of the header, then the enabled words. */
    method AnalyzePacket(header: Byte, addr: nat, image: seq<Byte>) returns (more: bool, m: seq<Byte>, a: nat)
      requires header != ERASED && addr < raw.Length && |image| == MapLen()
      ensures DecodeTurn(raw[..], addr, header, image) == if more then Next(m, a) else Stop
      ensures !more ==> m == image
    {
      more, m, a := true, image, addr;
      var section, wden;
      if IsExtHeader(header) {
        var ext := OneByteRead(a);
        a := a + 1;
        if ext == ERASED {
          more := false;
          return;
        }
        if ext % 16 == ALL_DISABLED {
          return;
        }
        section, wden := ExtHeaderSection(header, ext), ext % 16;
      } else {
        section, wden := HeaderSection(header), header % 16;
      }
      if section < sections {
        m, a := ReadSection(m, a, section, wden);
      }
    }

    /** rtw_efuse_map_read through the decode loop of rtw_efuse_analyze. */
    method ReadMap() returns (m: seq<Byte>)
      requires Valid()
      ensures m == Map()
    {
      hide DecodeTurn, MergeAll, EncodeAll, At;
      ghost var bytes := raw[..];
      DecodeInvertsEncode(bytes, log, sections);
      m := Blank(sections * SECTION_BYTES);
      var header := OneByteRead(0);
      var a := 1;
      while header != ERASED && a < raw.Length
        invariant 0 < a && |m| == MapLen()
        invariant DecodeFrom(bytes, a, header, m) == Map()
        decreases raw.Length - a
      {
        hide Map;
        var more;
        more, m, a := AnalyzePacket(header, a, m);
        if !more {
          return;
        }
        header := OneByteRead(a);
        a := a + 1;
      }
      DecodeStops(bytes, a, header, m);
    }

    /** Efuse_PgPacketWrite: program one header and the enabled words at the first erased
        byte.  Programs erased bytes only. */
    method PgPacketWrite(p: Packet) returns (ok: bool)
      requires Valid() && p.Valid(sections) && used + |Encode(p)| < available
      modifies this`used, this`goodWrites, this`log, raw
      ensures Valid()
      ensures ok == (old(goodWrites) > 0)
      ensures ok ==> log == old(log) + [p] && goodWrites == old(goodWrites) - 1
      ensures !ok ==> log == old(log) && raw[..] == old(raw[..]) && goodWrites == old(goodWrites)
      ensures used == old(used) + if ok then |Encode(p)| else 0
      ensures forall k :: 0 <= k < raw.Length && raw[k] != old(raw[k]) ==> old(raw[k]) == ERASED
    {
      ok := goodWrites > 0;
      if !ok {
        return;
      }
      goodWrites := goodWrites - 1;
      var bytes := Encode(p);
      ProgramBytes(bytes);
      LogAppend(raw[..], log, p, sections);
      log := log + [p];
      used := used + |bytes|;
    }

    method ProgramBytes(bytes: seq<Byte>)
      requires used + |bytes| <= raw.Length
      modifies raw
      ensures StandsAt(raw[..], used, bytes)
      ensures forall k :: 0 <= k < raw.Length && !(used <= k < used + |bytes|) ==> raw[k] == old(raw[k])
    {
      for i := 0 to |bytes|
        invariant forall k :: 0 <= k < i ==> raw[used + k] == bytes[k]
        invariant forall k :: 0 <= k < raw.Length && !(used <= k < used + i) ==> raw[k] == old(raw[k])
      {
        raw[used + i] := bytes[i];
      }
    }

    /** Masked bytes of the request are replaced by what the map holds. */
    method MaskData(image: seq<Byte>, addr: nat, data: array<Byte>, mask: Mask)
      requires addr + data.Length <= |image| && MaskCovers(mask, |image|)
      modifies data
      ensures forall i :: 0 <= i < data.Length ==>
        data[i] == if Masked(mask, addr + i) then image[addr + i] else old(data[i])
    {
      for i := 0 to data.Length
        invariant forall k :: 0 <= k < i ==>
          data[k] == if Masked(mask, addr + k) then image[addr + k] else old(data[k])
        invariant forall k :: i <= k < data.Length ==> data[k] == old(data[k])
      {
        if Masked(mask, addr + i) {
          data[i] := image[addr + i];
        }
      }
    }

    /** The inner loop of the budget pass over one section. */
    method ScanSection(image: seq<Byte>, addr: nat, data: array<Byte>, start: nat, offset: nat, ghost target: seq<Byte>)
      returns (wordEn: Nibble, idx: nat)
      requires Overlay(image, addr, data[..], target) && SectionStart(|image|, addr, data.Length, start, offset)
      ensures wordEn == DiffEnable(image, target, offset)
      ensures idx == SectionEnd(addr, data.Length, offset)
    {
      hide DiffEnable, EnableWord, WordDisabled, PartialEnable;
      wordEn, idx := ALL_DISABLED, start;
      EnableNone(image, target, offset);
      var i := (addr + idx) % 8;
      PartialEnableSame(image, target, offset, 0, i);
      while i < SECTION_BYTES && idx < data.Length
        invariant i <= SECTION_BYTES && start <= idx <= data.Length && addr + idx == 8 * offset + i
        invariant wordEn == PartialEnable(image, target, offset, i)
      {
        OverlayAt(image, addr, data[..], target, idx);
        EnableStep(image, target, offset, i);
        if data[idx] != image[addr + idx] {
          wordEn := EnableWord(wordEn, i / 2);
        }
        i, idx := i + 1, idx + 1;
      }
      PartialEnableSame(image, target, offset, i, SECTION_BYTES);
      FullScan(image, target, offset);
    }

    /** The body of the budget pass's outer loop: what one section is charged. */
    method ChargeSection(image: seq<Byte>, addr: nat, data: array<Byte>, start: nat, offset: nat, ghost target: seq<Byte>)
      returns (bytes: nat, idx: nat)
      requires Overlay(image, addr, data[..], target) && SectionStart(|image|, addr, data.Length, start, offset)
      ensures Budget(image, target, offset + 1) == Budget(image, target, offset) + bytes
      ensures idx == SectionEnd(addr, data.Length, offset)
    {
      BudgetNext(image, target, offset);
      hide *;
      var wordEn;
      wordEn, idx := ScanSection(image, addr, data, start, offset, target);
      bytes := 0;
      if wordEn != ALL_DISABLED {
        bytes := WordCount(wordEn) * 2;
        bytes := bytes + if offset >= MAX_SECTION_BASE then 2 else 1;
      }
    }

    /** First pass: the bytes the packets will take. */
    method BudgetPass(image: seq<Byte>, addr: nat, data: array<Byte>, ghost target: seq<Byte>) returns (total: nat)
      requires Overlay(image, addr, data[..], target) && |image| == sections * 8
      ensures total == Budget(image, target, sections)
    {
      hide *;
      var idx: nat, offset: nat := 0, addr / 8;
      HeadSame(image, target, addr, data[..], sections);
      total := 0;
      while idx < data.Length
        invariant PassState(image, target, addr, data.Length, idx, offset)
        invariant total == Budget(image, target, offset)
      {
        SectionTurn(image, target, addr, data.Length, idx, offset);
        var bytes;
        bytes, idx := ChargeSection(image, addr, data, idx, offset, target);
        total, offset := total + bytes, offset + 1;
      }
      TailSame(image, target, addr, data[..], idx, offset, sections);
    }

    /** The inner loop of the write pass over one section: its word enables and its new image. */
    method BuildSection(image: seq<Byte>, addr: nat, data: array<Byte>, start: nat, offset: nat, ghost target: seq<Byte>)
      returns (wordEn: Nibble, newdata: seq<Byte>, idx: nat)
      requires Overlay(image, addr, data[..], target) && SectionStart(|image|, addr, data.Length, start, offset)
      ensures wordEn == DiffEnable(image, target, offset)
      ensures newdata == target[offset * 8..offset * 8 + 8]
      ensures idx == SectionEnd(addr, data.Length, offset)
    {
      hide DiffEnable, EnableWord, WordDisabled, PartialEnable;
      wordEn, idx := ALL_DISABLED, start;
      EnableNone(image, target, offset);
      newdata := image[offset * 8..offset * 8 + 8];
      var i := (addr + idx) % 8;
      PartialEnableSame(image, target, offset, 0, i);
      while i < SECTION_BYTES && idx < data.Length
        invariant i <= SECTION_BYTES && start <= idx <= data.Length && addr + idx == 8 * offset + i
        invariant wordEn == PartialEnable(image, target, offset, i)
        invariant Built(image, target, offset, i, newdata)
      {
        OverlayAt(image, addr, data[..], target, idx);
        EnableStep(image, target, offset, i);
        if data[idx] != image[addr + idx] {
          wordEn := EnableWord(wordEn, i / 2);
          newdata := newdata[i := data[idx]];
        }
        i, idx := i + 1, idx + 1;
      }
      PartialEnableSame(image, target, offset, i, SECTION_BYTES);
      FullScan(image, target, offset);
      BuiltAll(image, target, offset, i, newdata);
    }

    /** Second pass: program the packets, stopping at the first one the hardware refuses. */
    method WritePass(image: seq<Byte>, addr: nat, data: array<Byte>, ghost target: seq<Byte>) returns (ok: bool)
      requires Valid() && data != raw && |image| == sections * 8
      requires Overlay(image, addr, data[..], target)
      requires used + Budget(image, target, sections) < available
      modifies this`used, this`goodWrites, this`log, raw
      ensures Valid()
      ensures ok ==> Written(image, target, sections, old(used), old(goodWrites), old(log))
      ensures !ok ==> goodWrites == 0
      ensures !ok ==>
        exists s :: Stopped(image, target, s) && Written(image, target, s, old(used), old(goodWrites), old(log))
      ensures forall k :: 0 <= k < raw.Length && raw[k] != old(raw[k]) ==> old(raw[k]) == ERASED
    {
      hide *;
      ok := true;
      ghost var bytes := data[..];
      var idx: nat, offset: nat := 0, addr / 8;
      HeadSame(image, target, addr, bytes, sections);
      WrittenNone(image, target, offset);
      while idx < data.Length
        invariant PassState(image, target, addr, data.Length, idx, offset)
        invariant data[..] == bytes
        invariant Valid() && Written(image, target, offset, old(used), old(goodWrites), old(log))
        invariant forall k :: 0 <= k < raw.Length && raw[k] != old(raw[k]) ==> old(raw[k]) == ERASED
      {
        SectionTurn(image, target, addr, data.Length, idx, offset);
        ok, idx := WriteSection(image, addr, data, idx, offset, target, old(used), old(goodWrites), old(log));
        if !ok {
          return;
        }
        offset := offset + 1;
      }
      TailSame(image, target, addr, bytes, idx, offset, sections);
      WrittenSame(image, target, offset, sections, old(used), old(goodWrites), old(log));
    }

    lemma WrittenNone(image: seq<Byte>, target: seq<Byte>, s: nat)
      requires |image| == |target| && s * 8 <= |image| && Packets(image, target, s) == [] && Budget(image, target, s) == 0
      ensures Written(image, target, s, used, goodWrites, log)
    {
    }

    lemma WrittenSame(image: seq<Byte>, target: seq<Byte>, s: nat, n: nat, used0: nat, good0: nat, log0: seq<Packet>)
      requires |image| == |target| && s * 8 <= |image| && n * 8 <= |image|
      requires Packets(image, target, n) == Packets(image, target, s)
      requires Budget(image, target, n) == Budget(image, target, s)
      requires Written(image, target, s, used0, good0, log0)
      ensures Written(image, target, n, used0, good0, log0)
    {
    }

    /** The body of the outer loop: one section's packet, if it differs. */
    method WriteSection(image: seq<Byte>, addr: nat, data: array<Byte>, start: nat, offset: nat, ghost target: seq<Byte>,
                        ghost used0: nat, ghost good0: nat, ghost log0: seq<Packet>)
      returns (ok: bool, idx: nat)
      requires Valid() && data != raw && |image| == sections * 8
      requires Overlay(image, addr, data[..], target) && SectionStart(|image|, addr, data.Length, start, offset)
      requires used0 + Budget(image, target, sections) < available
      requires Written(image, target, offset, used0, good0, log0)
      modifies this`used, this`goodWrites, this`log, raw
      ensures Valid() && idx == SectionEnd(addr, data.Length, offset)
      ensures ok ==> Written(image, target, offset + 1, used0, good0, log0)
      ensures !ok ==> Stopped(image, target, offset) && goodWrites == 0
                      && Written(image, target, offset, used0, good0, log0)
      ensures forall k :: 0 <= k < raw.Length && raw[k] != old(raw[k]) ==> old(raw[k]) == ERASED
    {
      hide PartialEnable, DiffEnable, WordCount, Encode, EncodeAll, At, SectionEnd, AllValid, Valid;
      var wordEn, newdata;
      wordEn, newdata, idx := BuildSection(image, addr, data, start, offset, target);
      assert offset + 1 <= sections;
      hide Overlay, SectionStart;
      BudgetMonotone(image, target, offset + 1, sections);
      ok := true;
      if wordEn != ALL_DISABLED {
        ok := PgPacketWrite(Packet(offset, wordEn, newdata));
      }
    }

    /** Section s differs, so a packet was due there. */
    ghost predicate Stopped(image: seq<Byte>, target: seq<Byte>, s: nat)
      requires |image| == |target| == MapLen()
    {
      s < sections && DiffEnable(image, target, s) != ALL_DISABLED
    }

    /** The sections below s have been programmed. */
    ghost predicate Written(image: seq<Byte>, target: seq<Byte>, s: nat, used0: nat, good0: nat, log0: seq<Packet>)
      requires |image| == |target| && s * 8 <= |image|
      reads this
    {
      && log == log0 + Packets(image, target, s)
      && used == used0 + Budget(image, target, s)
      && goodWrites == good0 - |Packets(image, target, s)|
    }

    /** The two passes: what the map lacks is charged and, if it fits, programmed. */
    method WriteDifference(image: seq<Byte>, addr: nat, data: array<Byte>, ghost target: seq<Byte>) returns (ok: bool)
      requires Valid() && data != raw && image == Map() && Overlay(image, addr, data[..], target)
      modifies this`used, this`goodWrites, this`log, raw
      ensures Valid() && Outcome(ok, image, target, old(used), old(goodWrites), old(log))
      ensures forall k :: 0 <= k < raw.Length && raw[k] != old(raw[k]) ==> old(raw[k]) == ERASED
    {
      hide EncodeAll, At, Packets, Budget, DiffEnable, MergeAll;
      ghost var log0 := log;
      assert AllSized(log0);
      var total := BudgetPass(image, addr, data, target);
      if used + total >= available {
        return false;
      }
      ok := WritePass(image, addr, data, target);
      if ok {
        MapAfter(image, target, log0, sections);
        assert Splice(image, target, sections) == target;
      } else {
        ghost var s: nat :| Stopped(image, target, s) && Written(image, target, s, old(used), old(goodWrites), log0);
        MapAfter(image, target, log0, s);
      }
    }

    /** rtw_efuse_map_write.  The data buffer is overwritten where the mask forbids a change. */
    method MapWrite(addr: nat, data: array<Byte>, mask: Mask) returns (ok: bool)
      requires Valid() && data != raw && MaskCovers(mask, MapLen())
      modifies this`used, this`goodWrites, this`log, raw, data
      ensures Valid()
      ensures addr + data.Length > MapLen() ==> !ok && data[..] == old(data[..]) && log == old(log)
      ensures addr + data.Length <= MapLen() ==>
        Outcome(ok, old(Map()), Target(old(Map()), addr, old(data[..]), mask), old(used), old(goodWrites), old(log))
      ensures addr + data.Length <= MapLen() ==>
        data[..] == Target(old(Map()), addr, old(data[..]), mask)[addr..addr + data.Length]
      ensures forall k :: 0 <= k < raw.Length && raw[k] != old(raw[k]) ==> old(raw[k]) == ERASED
    {
      if addr + data.Length > sections * SECTION_BYTES {
        return false;
      }
      hide AllValid, EncodeAll, At, Packets, Budget, DiffEnable, MergeAll, Outcome;
      var image := ReadMap();
      ghost var target := Target(image, addr, data[..], mask);
      MaskData(image, addr, data, mask);
      assert Overlay(image, addr, data[..], target);
      assert data[..] == target[addr..addr + data.Length];
      ok := WriteDifference(image, addr, data, target);
    }

    /** MAIN: after a successful write under the mask file for W, exactly the requested bytes of words in W
        have changed. */
    lemma WrittenUnderFile(image: seq<Byte>, addr: nat, data: seq<Byte>, W: set<nat>, rows: nat,
                           used0: nat, good0: nat, log0: seq<Packet>, k: nat)
      requires Valid() && |image| == MapLen() && addr + |data| <= |image| && MapLen() <= 16 * rows && k < |image|
      requires Outcome(true, image, Target(image, addr, data, FileMask(MaskFile(W, rows))), used0, good0, log0)
      ensures Map()[k] == if addr <= k < addr + |data| && k / 2 in W then data[k - addr] else image[k]
    {
      hide Target, MaskFile, Packets, Budget;
      TargetUnder(image, addr, data, FileMask(MaskFile(W, rows)), W, k);
    }

    lemma MapAfter(image: seq<Byte>, target: seq<Byte>, log0: seq<Packet>, s: nat)
      requires Valid() && AllSized(log0) && image == MergeAll(Blank(MapLen()), log0)
      requires |target| == |image| && s <= sections && log == log0 + Packets(image, target, s)
      ensures Map() == Splice(image, target, s)
    {
      hide Splice, DiffPacket, Merge;
      PacketsReach(image, target, s);
      MergeAllConcat(Blank(MapLen()), log0, Packets(image, target, s));
    }

    /** What the write leaves behind: a rejected budget changes nothing; otherwise the sections
        written before a failure hold the target and the others the old map. */
    ghost predicate Outcome(ok: bool, image: seq<Byte>, target: seq<Byte>, used0: nat, good0: nat, log0: seq<Packet>)
      requires Valid() && |image| == |target| == MapLen()
      reads this, raw
    {
      var packets := Packets(image, target, sections);
      if used0 + Budget(image, target, sections) >= available then !ok && log == log0 && used == used0
      else if ok then
        && log == log0 + packets && |packets| <= good0
        && used == used0 + Budget(image, target, sections)
        && Map() == target
      else
        exists s :: Stopped(image, target, s)
          && log == log0 + Packets(image, target, s) && |Packets(image, target, s)| == good0
          && Map() == Splice(image, target, s)
    }
  }

  /** target is image with the masked request laid over it at addr. */
  ghost predicate Overlay(image: seq<Byte>, addr: nat, data: seq<Byte>, target: seq<Byte>) {
    && |target| == |image| && addr + |data| <= |image| && |image| % 8 == 0
    && (forall k {:trigger target[k]} :: 0 <= k < |image| ==>
          target[k] == if addr <= k < addr + |data| then data[k - addr] else image[k])
  }

  lemma EnableNone(image: seq<Byte>, target: seq<Byte>, s: nat)
    requires |image| == |target| && s * 8 + 8 <= |image|
    ensures PartialEnable(image, target, s, 0) == ALL_DISABLED
  {
  }

  lemma EnableStep(image: seq<Byte>, target: seq<Byte>, s: nat, i: nat)
    requires |image| == |target| && s * 8 + 8 <= |image| && i < 8
    ensures PartialEnable(image, target, s, i + 1)
         == if target[s * 8 + i] != image[s * 8 + i] then EnableWord(PartialEnable(image, target, s, i), i / 2)
            else PartialEnable(image, target, s, i)
  {
    hide EnableWord;
  }

  lemma OverlayAt(image: seq<Byte>, addr: nat, data: seq<Byte>, target: seq<Byte>, idx: nat)
    requires Overlay(image, addr, data, target) && idx < |data|
    ensures target[addr + idx] == data[idx]
  {
  }

  /** A section's image with its first i bytes brought up to the target. */
  ghost predicate Built(image: seq<Byte>, target: seq<Byte>, s: nat, i: nat, newdata: seq<Byte>)
    requires |image| == |target| && s * 8 + 8 <= |image|
  {
    && |newdata| == 8
    && (forall t {:trigger newdata[t]} :: 0 <= t < 8 ==>
          newdata[t] == if t < i then target[s * 8 + t] else image[s * 8 + t])
  }

  lemma BuiltAll(image: seq<Byte>, target: seq<Byte>, s: nat, i: nat, newdata: seq<Byte>)
    requires |image| == |target| && s * 8 + 8 <= |image| && Built(image, target, s, i, newdata) && i <= 8
    requires forall k :: s * 8 + i <= k < s * 8 + 8 ==> target[k] == image[k]
    ensures newdata == target[s * 8..s * 8 + 8]
  {
  }

  /** The state of either pass at the head of its outer loop. */
  ghost predicate PassState(image: seq<Byte>, target: seq<Byte>, addr: nat, cnts: nat, idx: nat, offset: nat)
    ensures PassState(image, target, addr, cnts, idx, offset) ==>
      |target| == |image| && offset * 8 <= |image| && idx <= cnts
  {
    && |target| == |image| && addr + cnts <= |image| && |image| % 8 == 0 && offset * 8 <= |image|
    && idx <= cnts
    && offset == (if idx == 0 then addr / 8 else (addr + idx + 7) / 8)
    && (0 < idx < cnts ==> (addr + idx) % 8 == 0)
  }

  ghost predicate SectionStart(mapLen: nat, addr: nat, cnts: nat, start: nat, offset: nat) {
    && start < cnts && offset == (addr + start) / 8 && offset * 8 + 8 <= mapLen
    && (start == 0 || (addr + start) % 8 == 0)
  }

  ghost function SectionEnd(addr: nat, cnts: nat, offset: nat): int {
    if offset * 8 + 8 <= addr + cnts then offset * 8 + 8 - addr else cnts
  }

  lemma SectionTurn(image: seq<Byte>, target: seq<Byte>, addr: nat, cnts: nat, idx: nat, offset: nat)
    requires PassState(image, target, addr, cnts, idx, offset) && idx < cnts
    ensures SectionStart(|image|, addr, cnts, idx, offset) && offset * 8 + 8 <= |image|
    ensures SectionEnd(addr, cnts, offset) > idx
    ensures PassState(image, target, addr, cnts, SectionEnd(addr, cnts, offset), offset + 1)
  {
  }

  /** The sections before the first one touched need nothing. */
  lemma HeadSame(image: seq<Byte>, target: seq<Byte>, addr: nat, data: seq<Byte>, sections: nat)
    requires Overlay(image, addr, data, target) && |image| == sections * 8
    ensures PassState(image, target, addr, |data|, 0, addr / 8)
    ensures Packets(image, target, addr / 8) == [] && Budget(image, target, addr / 8) == 0
  {
    NoDifferences(image, target, 0, addr / 8);
  }

  /** Nor do those after the last one. */
  lemma TailSame(image: seq<Byte>, target: seq<Byte>, addr: nat, data: seq<Byte>, idx: nat, offset: nat, sections: nat)
    requires Overlay(image, addr, data, target) && |image| == sections * 8
    requires PassState(image, target, addr, |data|, idx, offset) && idx >= |data|
    ensures Packets(image, target, sections) == Packets(image, target, offset)
    ensures Budget(image, target, sections) == Budget(image, target, offset)
  {
    assert forall k :: offset * 8 <= k < sections * 8 ==> target[k] == image[k];
    NoDifferences(image, target, offset, sections);
  }

  /** Programming one encoded packet right after an encoded log encodes the longer log. */
  lemma LogAppend(raw: seq<Byte>, log: seq<Packet>, p: Packet, sections: nat)
    requires AllValid(log, sections) && AllValid(log, MAX_SECTIONS) && sections <= MAX_SECTIONS && p.Valid(sections)
    requires var n := |EncodeAll(log)|;
             n + |Encode(p)| < |raw| && StandsAt(raw, 0, EncodeAll(log)) && StandsAt(raw, n, Encode(p))
    ensures AllValid(log + [p], sections) && AllValid(log + [p], MAX_SECTIONS)
    ensures |EncodeAll(log + [p])| == |EncodeAll(log)| + |Encode(p)| && At(raw, 0, EncodeAll(log + [p]))
  {
    hide EncodeAll, Encode;
    EncodeAllAppend(log, p);
    StandsAtJoin(raw, 0, EncodeAll(log), Encode(p));
  }

  /** The analyze loop stops at an erased header or past the end of the array. */
  lemma DecodeStops(raw: seq<Byte>, a: nat, header: Byte, image: seq<Byte>)
    requires header == ERASED || a >= |raw|
    ensures DecodeFrom(raw, a, header, image) == image
  {
  }
}
