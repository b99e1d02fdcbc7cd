/** What rtw_efuse_map_write has to program: the word-granular difference between the map
    it read and the map it was asked for, as a list of packets.  Independent of the loops. */
module EfuseDiff {
  import opened Bytes
  import opened EfuseLog

  // ---------------------------------------------------------------- masks

  /** Which mask applies: none, the mask file, or the chip's own table. */
  datatype Mask = NoMask | FileMask(buffer: seq<Byte>) | ChipMask(table: nat -> bool)

  /** rtw_file_efuse_IsMasked: one bit for a word; the low four words of a 16-byte row use
      the high nibble.  A SET bit means writable. */
  predicate FileMasked(buffer: seq<Byte>, offset: nat)
    requires offset / 16 < |buffer|
  {
    var c := (offset % 16) / 2;
    !BitOf(buffer[offset / 16], if c < 4 then c + 4 else c - 4)
  }

  predicate Masked(m: Mask, offset: nat)
    requires m.FileMask? ==> offset / 16 < |m.buffer|
  {
    match m
    case NoMask => false
    case FileMask(b) => FileMasked(b, offset)
    case ChipMask(t) => t(offset)
  }

  ghost predicate MaskCovers(m: Mask, mapLen: nat) {
    m.FileMask? ==> mapLen <= 16 * |m.buffer|
  }

  // ---------------------------------------------------------------- target and difference

  /** The map the caller asks for: its bytes in range, except masked ones. */
  ghost function Target(image: seq<Byte>, addr: nat, data: seq<Byte>, m: Mask): (r: seq<Byte>)
    requires addr + |data| <= |image| && MaskCovers(m, |image|)
    ensures |r| == |image|
    ensures forall k {:trigger r[k]} :: 0 <= k < |image| ==>
      r[k] == if addr <= k < addr + |data| && !Masked(m, k) then data[k - addr] else image[k]
  {
    seq(|image|, k requires 0 <= k < |image| =>
      if addr <= k < addr + |data| && !Masked(m, k) then data[k - addr] else image[k])
  }

  /** Word enables after comparing the first i bytes of section s. */
  function PartialEnable(image: seq<Byte>, target: seq<Byte>, s: nat, i: nat): Nibble
    requires |image| == |target| && i <= SECTION_BYTES && s * 8 + 8 <= |image|
  {
    if i == 0 then ALL_DISABLED
    else
      var w := PartialEnable(image, target, s, i - 1);
      if target[s * 8 + i - 1] != image[s * 8 + i - 1] then EnableWord(w, (i - 1) / 2) else w
  }

  predicate WordSame(image: seq<Byte>, target: seq<Byte>, s: nat, w: nat)
    requires |image| == |target| && s * 8 + 8 <= |image| && w < WORD_UNITS
  {
    target[s * 8 + 2 * w] == image[s * 8 + 2 * w] && target[s * 8 + 2 * w + 1] == image[s * 8 + 2 * w + 1]
  }

  /** The word enables section s needs: exactly the words that differ. */
  function DiffEnable(image: seq<Byte>, target: seq<Byte>, s: nat): (r: Nibble)
    requires |image| == |target| && s * 8 + 8 <= |image|
    ensures forall w :: 0 <= w < WORD_UNITS ==> (WordDisabled(r, w) <==> WordSame(image, target, s, w))
  {
    (if WordSame(image, target, s, 0) then 1 else 0) +
    (if WordSame(image, target, s, 1) then 2 else 0) +
    (if WordSame(image, target, s, 2) then 4 else 0) +
    (if WordSame(image, target, s, 3) then 8 else 0)
  }

  /** A word is enabled exactly when one of its two bytes differs. */
  lemma {:induction false} PartialEnableMeaning(image: seq<Byte>, target: seq<Byte>, s: nat, i: nat, w: nat)
    requires |image| == |target| && i <= SECTION_BYTES && s * 8 + 8 <= |image| && w < WORD_UNITS
    ensures WordDisabled(PartialEnable(image, target, s, i), w) <==>
              (2 * w < i ==> target[s * 8 + 2 * w] == image[s * 8 + 2 * w]) &&
              (2 * w + 1 < i ==> target[s * 8 + 2 * w + 1] == image[s * 8 + 2 * w + 1])
  {
    if i == 0 {
      assert WordDisabled(ALL_DISABLED, w);
    } else {
      PartialEnableMeaning(image, target, s, i - 1, w);
      EnableWordBits(PartialEnable(image, target, s, i - 1), (i - 1) / 2, w);
    }
  }

  /** Scanning all eight bytes finds the words that differ. */
  lemma FullScan(image: seq<Byte>, target: seq<Byte>, s: nat)
    requires |image| == |target| && s * 8 + 8 <= |image|
    ensures PartialEnable(image, target, s, SECTION_BYTES) == DiffEnable(image, target, s)
  {
    forall w | 0 <= w < WORD_UNITS
      ensures WordDisabled(PartialEnable(image, target, s, SECTION_BYTES), w) <==> WordSame(image, target, s, w)
    {
      PartialEnableMeaning(image, target, s, SECTION_BYTES, w);
    }
    NibbleExtensional(PartialEnable(image, target, s, SECTION_BYTES), DiffEnable(image, target, s));
  }

  /** Comparing equal bytes changes nothing. */
  lemma {:induction false} PartialEnableSame(image: seq<Byte>, target: seq<Byte>, s: nat, i: nat, j: nat)
    requires |image| == |target| && i <= j <= SECTION_BYTES && s * 8 + 8 <= |image|
    requires forall k :: s * 8 + i <= k < s * 8 + j ==> target[k] == image[k]
    ensures PartialEnable(image, target, s, j) == PartialEnable(image, target, s, i)
    decreases j
  {
    if i < j {
      PartialEnableSame(image, target, s, i, j - 1);
    }
  }

  function DiffPacket(image: seq<Byte>, target: seq<Byte>, s: nat): (r: seq<Packet>)
    requires |image| == |target| && s * 8 + 8 <= |image|
    ensures AllValid(r, s + 1)
  {
    var w := DiffEnable(image, target, s);
    if w == ALL_DISABLED then [] else [Packet(s, w, target[s * 8..s * 8 + 8])]
  }

  /** The packets of the sections below n, in section order. */
  ghost function Packets(image: seq<Byte>, target: seq<Byte>, n: nat): (r: seq<Packet>)
    requires |image| == |target| && n * 8 <= |image|
    ensures AllValid(r, n)
  {
    if n == 0 then [] else Packets(image, target, n - 1) + DiffPacket(image, target, n - 1)
  }

  /** A section that does not differ adds no packet and no bytes. */
  lemma NoDifference(image: seq<Byte>, target: seq<Byte>, s: nat, n: nat)
    requires |image| == |target| && n == s + 1 && n * 8 <= |image|
    requires forall k :: s * 8 <= k < n * 8 ==> target[k] == image[k]
    ensures Packets(image, target, n) == Packets(image, target, s)
    ensures Budget(image, target, n) == Budget(image, target, s)
  {
    hide WordDisabled, PacketBytes;
    assert DiffEnable(image, target, s) == ALL_DISABLED;
    hide DiffEnable;
    assert Packets(image, target, n) == Packets(image, target, s) + [];
  }

  lemma {:induction false} NoDifferences(image: seq<Byte>, target: seq<Byte>, a: nat, b: nat)
    requires |image| == |target| && a <= b && b * 8 <= |image|
    requires forall k :: a * 8 <= k < b * 8 ==> target[k] == image[k]
    ensures Packets(image, target, b) == Packets(image, target, a)
    ensures Budget(image, target, b) == Budget(image, target, a)
    decreases b
  {
    hide *;
    if a < b {
      NoDifference(image, target, b - 1, b);
      NoDifferences(image, target, a, b - 1);
    }
  }

  /** The target below section s, the old map from it on. */
  function Splice(image: seq<Byte>, target: seq<Byte>, s: nat): (r: seq<Byte>)
    requires |image| == |target| && s * 8 <= |image|
    ensures |r| == |image|
    ensures forall k {:trigger r[k]} :: 0 <= k < |image| ==> r[k] == if k / 8 < s then target[k] else image[k]
  {
    target[..s * 8] + image[s * 8..]
  }

  /** Merging one difference packet makes its section agree with the target. */
  lemma MergeDiffPacket(image: seq<Byte>, target: seq<Byte>, s: nat)
    requires |image| == |target| && s * 8 + 8 <= |image|
    ensures MergeAll(Splice(image, target, s), DiffPacket(image, target, s)) == Splice(image, target, s + 1)
  {
    var before := Splice(image, target, s);
    var after := Splice(image, target, s + 1);
    var w := DiffEnable(image, target, s);
    var p := Packet(s, w, target[s * 8..s * 8 + 8]);
    forall k | 0 <= k < |image| ensures Merge(before, p)[k] == after[k]
    {
      if k / 8 == s {
        assert k == s * 8 + k % 8;
        assert WordDisabled(w, (k % 8) / 2) <==> WordSame(image, target, s, (k % 8) / 2);
        assert k == s * 8 + 2 * ((k % 8) / 2) || k == s * 8 + 2 * ((k % 8) / 2) + 1;
      }
    }
    assert Merge(before, p) == after;
    if w == ALL_DISABLED {
      assert forall k :: 0 <= k < |image| ==> Merge(before, p)[k] == before[k];
      assert before == after;
    } else {
      assert MergeAll(before, [p]) == MergeAll(Merge(before, p), []);
    }
  }

  ghost predicate Reaches(image: seq<Byte>, target: seq<Byte>, log: seq<Packet>, n: nat)
    requires |image| == |target| && n * 8 <= |image|
  {
    AllSized(log) && MergeAll(image, log) == Splice(image, target, n)
  }

  /** The bytes the budget pass charges for the sections below n. */
  ghost function Budget(image: seq<Byte>, target: seq<Byte>, n: nat): nat
    requires |image| == |target| && n * 8 <= |image|
  {
    if n == 0 then 0
    else
      var w := DiffEnable(image, target, n - 1);
      Budget(image, target, n - 1) + if w == ALL_DISABLED then 0 else PacketBytes(n - 1, w)
  }

  lemma BudgetNext(image: seq<Byte>, target: seq<Byte>, s: nat)
    requires |image| == |target| && s * 8 + 8 <= |image|
    ensures var w := DiffEnable(image, target, s);
            Budget(image, target, s + 1) == Budget(image, target, s)
              + if w == ALL_DISABLED then 0 else WordCount(w) * 2 + if s >= MAX_SECTION_BASE then 2 else 1
  {
    hide DiffEnable, WordCount;
  }

  /** MAIN: the budget is exactly the number of bytes the write pass appends. */
  lemma {:induction false} BudgetIsSize(image: seq<Byte>, target: seq<Byte>, n: nat)
    requires |image| == |target| && n * 8 <= |image| && n <= MAX_SECTIONS
    ensures Charged(Packets(image, target, n), Budget(image, target, n))
    decreases n
  {
    hide *;
    if n == 0 {
      BudgetNone(image, target);
    } else {
      BudgetIsSize(image, target, n - 1);
      BudgetStep(image, target, n - 1, n);
    }
  }

  /** The log can be encoded and takes that many bytes. */
  ghost predicate Charged(log: seq<Packet>, bytes: nat) {
    AllValid(log, MAX_SECTIONS) && |EncodeAll(log)| == bytes
  }

  lemma BudgetNone(image: seq<Byte>, target: seq<Byte>)
    requires |image| == |target|
    ensures Charged(Packets(image, target, 0), Budget(image, target, 0))
  {
  }

  lemma BudgetStep(image: seq<Byte>, target: seq<Byte>, s: nat, n: nat)
    requires |image| == |target| && n == s + 1 && n * 8 <= |image| && s < MAX_SECTIONS
    requires Charged(Packets(image, target, s), Budget(image, target, s))
    ensures Charged(Packets(image, target, n), Budget(image, target, n))
  {
    hide DiffEnable, WordCount, Encode;
    var before := Packets(image, target, s);
    var w := DiffEnable(image, target, s);
    if w == ALL_DISABLED {
      assert before + [] == before;
    } else {
      EncodeAllAppend(before, Packet(s, w, target[s * 8..n * 8]));
    }
  }

  lemma {:induction false} BudgetMonotone(image: seq<Byte>, target: seq<Byte>, a: nat, b: nat)
    requires |image| == |target| && a <= b && b * 8 <= |image|
    ensures Budget(image, target, a) <= Budget(image, target, b)
    decreases b
  {
    hide DiffEnable, PacketBytes;
    if a < b {
      BudgetMonotone(image, target, a, b - 1);
    }
  }

  /** MAIN: programming the difference of the first n sections turns exactly those
      sections into the target and leaves the rest of the map alone. */
  lemma {:induction false} PacketsReach(image: seq<Byte>, target: seq<Byte>, n: nat)
    requires |image| == |target| && n * 8 <= |image|
    ensures Reaches(image, target, Packets(image, target, n), n)
    decreases n
  {
    hide Reaches, MergeAll, Splice, DiffPacket;
    if n == 0 {
      PacketsReachNone(image, target);
    } else {
      PacketsReach(image, target, n - 1);
      PacketsReachStep(image, target, n - 1, Packets(image, target, n - 1), DiffPacket(image, target, n - 1));
    }
  }

  lemma PacketsReachNone(image: seq<Byte>, target: seq<Byte>)
    requires |image| == |target|
    ensures Reaches(image, target, [], 0)
  {
    assert Splice(image, target, 0) == image;
  }

  lemma PacketsReachStep(image: seq<Byte>, target: seq<Byte>, s: nat, before: seq<Packet>, diff: seq<Packet>)
    requires |image| == |target| && s * 8 + 8 <= |image|
    requires Reaches(image, target, before, s)
    requires diff == DiffPacket(image, target, s)
    ensures Reaches(image, target, before + diff, s + 1)
  {
    MergeAllConcat(image, before, diff);
    MergeDiffPacket(image, target, s);
  }

  /** Asking again for the same bytes under the same mask asks for the map that is there. */
  lemma TargetIdempotent(image: seq<Byte>, addr: nat, data: seq<Byte>, m: Mask)
    requires addr + |data| <= |image| && MaskCovers(m, |image|)
    ensures Target(Target(image, addr, data, m), addr, data, m) == Target(image, addr, data, m)
  {
  }

  /** MAIN: once a write has reached its target, the same request programs nothing. */
  lemma RepeatProgramsNothing(image: seq<Byte>, addr: nat, data: seq<Byte>, m: Mask, n: nat)
    requires addr + |data| <= |image| && MaskCovers(m, |image|) && n * 8 <= |image|
    ensures var reached := Target(image, addr, data, m);
      && Packets(reached, Target(reached, addr, data, m), n) == []
      && Budget(reached, Target(reached, addr, data, m), n) == 0
  {
    TargetIdempotent(image, addr, data, m);
    hide *;
    var reached := Target(image, addr, data, m);
    NoDifferences(reached, reached, 0, n);
    NothingBelowZero(reached);
  }

  lemma NothingBelowZero(image: seq<Byte>)
    ensures Packets(image, image, 0) == [] && Budget(image, image, 0) == 0
  {
  }

  // ---------------------------------------------------------------- what a mask file allows

  /** Row r of the mask file for the writable words W: of the eight words of a 16-byte row the first four
      stand in the high nibble and the last four in the low one. */
  function RowByte(W: set<nat>, r: nat): Byte {
    16 * Four(8 * r in W, 8 * r + 1 in W, 8 * r + 2 in W, 8 * r + 3 in W)
    + Four(8 * r + 4 in W, 8 * r + 5 in W, 8 * r + 6 in W, 8 * r + 7 in W)
  }

  function MaskFile(W: set<nat>, rows: nat): (r: seq<Byte>)
    ensures |r| == rows && forall k :: 0 <= k < rows ==> r[k] == RowByte(W, k)
  {
    seq(rows, k requires 0 <= k => RowByte(W, k))
  }

  /** MAIN: under the mask file for W exactly the bytes of words outside W are masked. */
  lemma MaskFileMeans(W: set<nat>, rows: nat, k: nat)
    requires k / 16 < rows
    ensures Masked(FileMask(MaskFile(W, rows)), k) <==> k / 2 !in W
  {
    hide BitOf;
    var r := k / 16;
    OctetOf(RowByte(W, r), 8 * r + 4 in W, 8 * r + 5 in W, 8 * r + 6 in W, 8 * r + 7 in W,
            8 * r in W, 8 * r + 1 in W, 8 * r + 2 in W, 8 * r + 3 in W);
    assert k / 2 == 8 * r + (k % 16) / 2;
  }

  /** The words a mask file marks writable; every mask file is of that form. */
  function Writable(buffer: seq<Byte>): set<nat> {
    set w: nat | w < 8 * |buffer| && BitOf(buffer[w / 8], (w % 8 + 4) % 8)
  }

  lemma EveryMaskFile(buffer: seq<Byte>)
    ensures MaskFile(Writable(buffer), |buffer|) == buffer
  {
    hide BitOf, Writable, RowByte;
    forall r | 0 <= r < |buffer| ensures RowByte(Writable(buffer), r) == buffer[r]
    {
      RowIs(buffer, r);
    }
  }

  lemma RowIs(buffer: seq<Byte>, r: nat)
    requires r < |buffer|
    ensures RowByte(Writable(buffer), r) == buffer[r]
  {
    hide BitOf, Writable;
    OctetBits(buffer[r]);
    InRow(buffer, r, 0); InRow(buffer, r, 1); InRow(buffer, r, 2); InRow(buffer, r, 3);
    InRow(buffer, r, 4); InRow(buffer, r, 5); InRow(buffer, r, 6); InRow(buffer, r, 7);
  }

  lemma InRow(buffer: seq<Byte>, r: nat, c: nat)
    requires r < |buffer| && c < 8
    ensures 8 * r + c in Writable(buffer) <==> BitOf(buffer[r], (c + 4) % 8)
  {
    hide BitOf;
    assert (8 * r + c) / 8 == r && (8 * r + c) % 8 == c;
  }

  /** MAIN: the map asked for under each kind of mask: without one every byte of the request; with a mask
      file those of the writable words; with the chip's table those it does not name. */
  lemma TargetUnder(image: seq<Byte>, addr: nat, data: seq<Byte>, m: Mask, W: set<nat>, k: nat)
    requires addr + |data| <= |image| && MaskCovers(m, |image|) && k < |image|
    requires m.FileMask? ==> m.buffer == MaskFile(W, |m.buffer|)
    ensures var asked := addr <= k < addr + |data|;
      var free := if m.NoMask? then true else if m.FileMask? then k / 2 in W else !m.table(k);
      Target(image, addr, data, m)[k] == if asked && free then data[k - addr] else image[k]
  {
    hide MaskFile, FileMasked;
    if m.FileMask? { MaskFileMeans(W, |m.buffer|, k); }
  }

  // ---------------------------------------------------------------- the file mask is word-granular

  lemma FileMaskWordGranular(buffer: seq<Byte>, k: nat)
    requires (2 * (k / 2) + 1) / 16 < |buffer|
    ensures k / 16 < |buffer| && (FileMasked(buffer, k) <==> FileMasked(buffer, 2 * (k / 2)))
  {
    hide BitOf;
    var w := k / 2;
    assert k / 16 == w / 8 && (2 * w) / 16 == w / 8;
    assert (k % 16) / 2 == w % 8 && ((2 * w) % 16) / 2 == w % 8;
  }

  /** Each programmed packet is the difference packet of its own section. */
  lemma {:induction false} DiffPacketOf(image: seq<Byte>, target: seq<Byte>, n: nat, p: Packet)
    requires |image| == |target| && n * 8 <= |image| && p in Packets(image, target, n)
    ensures p.section < n && p.section * 8 + 8 <= |image|
    ensures p.wordEn == DiffEnable(image, target, p.section)
    ensures p.data == target[p.section * 8..p.section * 8 + 8]
    decreases n
  {
    hide DiffEnable;
    if p in Packets(image, target, n - 1) {
      DiffPacketOf(image, target, n - 1, p);
    } else {
      assert p in DiffPacket(image, target, n - 1);
    }
  }

  lemma MaskedWordDisabled(image: seq<Byte>, addr: nat, data: seq<Byte>, buffer: seq<Byte>, s: nat, w: nat, k: nat)
    requires addr + |data| <= |image| && MaskCovers(FileMask(buffer), |image|)
    requires s * 8 + 8 <= |image| && w < WORD_UNITS
    requires k / 2 == s * 4 + w && k < |image| && FileMasked(buffer, k)
    ensures WordDisabled(DiffEnable(image, Target(image, addr, data, FileMask(buffer)), s), w)
  {
    hide FileMasked, DiffEnable;
    var lo := s * 8 + 2 * w;
    assert lo == 2 * (k / 2) && (lo + 1) / 2 == lo / 2;
    FileMaskWordGranular(buffer, k);
    FileMaskWordGranular(buffer, lo + 1);
    assert WordSame(image, Target(image, addr, data, FileMask(buffer)), s, w);
  }

  /** A word any of whose bytes the file mask covers is never programmed. */
  lemma MaskedWordNeverProgrammed(image: seq<Byte>, addr: nat, data: seq<Byte>, buffer: seq<Byte>,
                                                     n: nat, p: Packet, w: nat, k: nat)
    requires addr + |data| <= |image| && MaskCovers(FileMask(buffer), |image|)
    requires n * 8 <= |image| && w < WORD_UNITS
    requires p in Packets(image, Target(image, addr, data, FileMask(buffer)), n)
    requires k / 2 == p.section * 4 + w && k < |image| && FileMasked(buffer, k)
    ensures WordDisabled(p.wordEn, w)
  {
    var target := Target(image, addr, data, FileMask(buffer));
    hide *;
    DiffPacketOf(image, target, n, p);
    MaskedWordDisabled(image, addr, data, buffer, p.section, w, k);
  }
}
