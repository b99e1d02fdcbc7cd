/** The eFuse packet log of core/rtw_efuse.c: the byte format of one packet, the
    meaning of a log as an update of the logical map, and the decode loop as a
    function on the raw bytes. */
module EfuseLog {
  import opened Bytes

  /** A word-enable nibble.  A CLEAR bit enables the word. */
  type Nibble = w: int | 0 <= w < 16

  const ERASED: Byte := 0xFF
  const ALL_DISABLED: Nibble := 0xF
  const SECTION_BYTES := 8
  const WORD_UNITS := 4
  /** Sections at or above this one take the 2-byte header. */
  const MAX_SECTION_BASE := 16
  /** Sections a 7-bit section number can name. */
  const MAX_SECTIONS := 128

  // ---------------------------------------------------------------- word enables

  function Bit(i: nat): (r: nat)
    requires i < WORD_UNITS
  {
    if i == 0 then 1 else if i == 1 then 2 else if i == 2 then 4 else 8
  }

  predicate WordDisabled(w: Nibble, i: nat)
    requires i < WORD_UNITS
  {
    if i == 0 then w % 2 == 1
    else if i == 1 then (w / 2) % 2 == 1
    else if i == 2 then (w / 4) % 2 == 1
    else w / 8 == 1
  }

  /** word_en &= ~BIT(i) */
  function EnableWord(w: Nibble, i: nat): (r: Nibble)
    requires i < WORD_UNITS
  {
    if WordDisabled(w, i) then w - Bit(i) else w
  }

  lemma EnableWordBits(w: Nibble, i: nat, k: nat)
    requires i < WORD_UNITS && k < WORD_UNITS
    ensures WordDisabled(EnableWord(w, i), k) <==> WordDisabled(w, k) && k != i
  {
    if WordDisabled(w, i) { ClearBit(w, i, k); }
  }

  lemma ClearBit(w: Nibble, i: nat, k: nat)
    requires i < WORD_UNITS && k < WORD_UNITS && WordDisabled(w, i)
    ensures w >= Bit(i) && (WordDisabled(w - Bit(i), k) <==> WordDisabled(w, k) && k != i)
  {
    hide WordDisabled;
    var b0, b1, b2, b3 := Digits(w);
    if i == 0 { FromDigits(w - 1, 0, b1, b2, b3); }
    else if i == 1 { FromDigits(w - 2, b0, 0, b2, b3); }
    else if i == 2 { FromDigits(w - 4, b0, b1, 0, b3); }
    else { FromDigits(w - 8, b0, b1, b2, 0); }
  }

  /** The bits of a nibble. */
  lemma Digits(w: Nibble) returns (b0: nat, b1: nat, b2: nat, b3: nat)
    ensures b0 < 2 && b1 < 2 && b2 < 2 && b3 < 2 && w == b0 + 2 * b1 + 4 * b2 + 8 * b3
    ensures forall k :: 0 <= k < WORD_UNITS ==>
      (WordDisabled(w, k) <==> (if k == 0 then b0 else if k == 1 then b1 else if k == 2 then b2 else b3) == 1)
  {
    b0, b1, b2, b3 := w % 2, w / 2 % 2, w / 4 % 2, w / 8;
  }

  lemma FromDigits(w: Nibble, b0: nat, b1: nat, b2: nat, b3: nat)
    requires b0 < 2 && b1 < 2 && b2 < 2 && b3 < 2 && w == b0 + 2 * b1 + 4 * b2 + 8 * b3
    ensures forall k :: 0 <= k < WORD_UNITS ==>
      (WordDisabled(w, k) <==> (if k == 0 then b0 else if k == 1 then b1 else if k == 2 then b2 else b3) == 1)
  {
    assert w % 2 == b0 && w / 2 % 2 == b1 && w / 4 % 2 == b2 && w / 8 == b3;
  }

  /** Efuse_CalculateWordCnts */
  function WordCount(w: Nibble): (r: nat)
    ensures r <= WORD_UNITS
  {
    WordCountFrom(w, 0)
  }

  function WordCountFrom(w: Nibble, i: nat): (r: nat)
    requires i <= WORD_UNITS
    ensures r <= WORD_UNITS - i
    decreases WORD_UNITS - i
  {
    if i == WORD_UNITS then 0
    else (if WordDisabled(w, i) then 0 else 1) + WordCountFrom(w, i + 1)
  }

  /** The nibble is the set of its bits. */
  lemma NibbleExtensional(v: Nibble, w: Nibble)
    requires forall i :: 0 <= i < WORD_UNITS ==> (WordDisabled(v, i) <==> WordDisabled(w, i))
    ensures v == w
  {
    assert WordDisabled(v, 0) <==> WordDisabled(w, 0);
    assert WordDisabled(v, 1) <==> WordDisabled(w, 1);
    assert WordDisabled(v, 2) <==> WordDisabled(w, 2);
    assert WordDisabled(v, 3) <==> WordDisabled(w, 3);
  }

  // ---------------------------------------------------------------- packets

  /** What Efuse_PgPacketWrite is asked to program. */
  datatype Packet = Packet(section: nat, wordEn: Nibble, data: seq<Byte>) {
    predicate Valid(sections: nat) {
      && section < sections
      && wordEn != ALL_DISABLED
      && |data| == SECTION_BYTES
    }
  }

  /** 1-byte header below section 16, 2-byte header from there on. */
  function Header(section: nat, w: Nibble): (h: seq<Byte>)
    requires section < MAX_SECTIONS
  {
    if section < MAX_SECTION_BASE then [section * 16 + w]
    else [(section % 8) * 32 + 0x0F, (section / 8) * 16 + w]
  }

  /** The enabled words of a section image, from word i on. */
  function EnabledBytes(w: Nibble, data: seq<Byte>, i: nat): (r: seq<Byte>)
    requires |data| == SECTION_BYTES && i <= WORD_UNITS
    ensures |r| == 2 * WordCountFrom(w, i)
    decreases WORD_UNITS - i
  {
    if i == WORD_UNITS then []
    else if WordDisabled(w, i) then EnabledBytes(w, data, i + 1)
    else [data[2 * i], data[2 * i + 1]] + EnabledBytes(w, data, i + 1)
  }

  function Encode(p: Packet): (r: seq<Byte>)
    requires p.Valid(MAX_SECTIONS)
    ensures |r| == PacketBytes(p.section, p.wordEn)
  {
    Header(p.section, p.wordEn) + EnabledBytes(p.wordEn, p.data, 0)
  }

  /** What the budget pass charges for one packet. */
  function PacketBytes(section: nat, w: Nibble): (r: nat)
    ensures r > 0
  {
    WordCount(w) * 2 + (if section >= MAX_SECTION_BASE then 2 else 1)
  }

  ghost predicate AllValid(log: seq<Packet>, sections: nat) {
    forall p :: p in log ==> p.Valid(sections)
  }

  ghost predicate AllSized(log: seq<Packet>) {
    forall p :: p in log ==> |p.data| == SECTION_BYTES
  }

  ghost function EncodeAll(log: seq<Packet>): (r: seq<Byte>)
    requires AllValid(log, MAX_SECTIONS)
  {
    if log == [] then [] else Encode(log[0]) + EncodeAll(log[1..])
  }

  lemma {:induction false} EncodeAllAppend(log: seq<Packet>, p: Packet)
    requires AllValid(log, MAX_SECTIONS) && p.Valid(MAX_SECTIONS)
    ensures AllValid(log + [p], MAX_SECTIONS)
    ensures EncodeAll(log + [p]) == EncodeAll(log) + Encode(p)
  {
    if log == [] {
      assert log + [p] == [p] && [p][1..] == [];
      assert EncodeAll([p]) == Encode(p) + EncodeAll([]);
    } else {
      assert (log + [p])[1..] == log[1..] + [p] && (log + [p])[0] == log[0];
      EncodeAllAppend(log[1..], p);
    }
  }

  // ---------------------------------------------------------------- meaning of a log

  /** The logical map after one packet: exactly the enabled words are replaced. */
  function Merge(image: seq<Byte>, p: Packet): (r: seq<Byte>)
    requires |p.data| == SECTION_BYTES
    ensures |r| == |image|
    ensures forall k {:trigger r[k]} :: 0 <= k < |image| ==>
      r[k] == if k / 8 == p.section && !WordDisabled(p.wordEn, (k % 8) / 2) then p.data[k % 8] else image[k]
  {
    seq(|image|, k requires 0 <= k < |image| =>
      if k / 8 == p.section && !WordDisabled(p.wordEn, (k % 8) / 2) then p.data[k % 8] else image[k])
  }

  /** Later packets win. */
  ghost function MergeAll(image: seq<Byte>, log: seq<Packet>): (r: seq<Byte>)
    requires AllSized(log)
    ensures |r| == |image|
    decreases |log|
  {
    if log == [] then image else MergeAll(Merge(image, log[0]), log[1..])
  }

  lemma {:induction false} MergeAllConcat(image: seq<Byte>, a: seq<Packet>, b: seq<Packet>)
    requires AllSized(a) && AllSized(b)
    ensures MergeAll(image, a + b) == MergeAll(MergeAll(image, a), b)
    decreases |a|
  {
    if a == [] {
      assert a + b == b;
    } else {
      assert (a + b)[1..] == a[1..] + b;
      MergeAllConcat(Merge(image, a[0]), a[1..], b);
    }
  }

  function Blank(mapLen: nat): (r: seq<Byte>)
    ensures |r| == mapLen && forall k :: 0 <= k < mapLen ==> r[k] == ERASED
  {
    seq(mapLen, _ => ERASED)
  }

  // ---------------------------------------------------------------- the decoder

  /** One byte of the array; past its end the hardware answers 0xFF. */
  function Read(raw: seq<Byte>, a: nat): Byte {
    if a < |raw| then raw[a] else ERASED
  }

  /** EXT_HEADER */
  predicate IsExtHeader(h: Byte) { h % 32 == 0x0F }

  function HeaderSection(h: Byte): nat { h / 16 }

  function ExtHeaderSection(h: Byte, ext: Byte): nat { (ext / 16) * 8 + h / 32 }

  function PutWord(image: seq<Byte>, k: nat, lo: Byte, hi: Byte): (r: seq<Byte>)
    requires k + 1 < |image|
    ensures |r| == |image|
  {
    image[k := lo][k + 1 := hi]
  }

  /** The word loop from word i on: the map and the read address it leaves. */
  function ReadWords(raw: seq<Byte>, a: nat, w: Nibble, section: nat, image: seq<Byte>, i: nat): (r: Turn)
    requires i <= WORD_UNITS && (section + 1) * SECTION_BYTES <= |image|
    ensures r.Next? && |r.image| == |image| && r.a >= a
    decreases WORD_UNITS - i
  {
    if i == WORD_UNITS then Next(image, a)
    else if WordDisabled(w, i) then ReadWords(raw, a, w, section, image, i + 1)
    else if !(a + 2 < |raw|) then Next(image, a)
    else ReadWords(raw, a + 2, w, section,
                   PutWord(image, section * 8 + 2 * i, Read(raw, a), Read(raw, a + 1)), i + 1)
  }

  /** What one turn of the decode loop does: stop, or go on with the next header at address a. */
  datatype Turn = Stop | Next(image: seq<Byte>, a: nat)

  function DecodeTurn(raw: seq<Byte>, a: nat, header: Byte, image: seq<Byte>): (r: Turn)
    ensures r.Next? ==> |r.image| == |image| && r.a >= a
  {
    if header == ERASED || a >= |raw| then Stop
    else if IsExtHeader(header) then
      var ext := raw[a];
      if ext == ERASED then Stop
      else if ext % 16 == ALL_DISABLED then Next(image, a + 1)
      else DecodeSection(raw, a + 1, ExtHeaderSection(header, ext), ext % 16, image)
    else DecodeSection(raw, a, HeaderSection(header), header % 16, image)
  }

  /** The decode loop, at a state where header has been read and a is the next address. */
  function DecodeFrom(raw: seq<Byte>, a: nat, header: Byte, image: seq<Byte>): (r: seq<Byte>)
    ensures |r| == |image|
    decreases |raw| - a
  {
    match DecodeTurn(raw, a, header, image)
    case Stop => image
    case Next(m, next) => DecodeFrom(raw, next + 1, Read(raw, next), m)
  }

  /** An illegal section number skips the word loop. */
  function DecodeSection(raw: seq<Byte>, a: nat, section: nat, w: Nibble, image: seq<Byte>): (r: Turn)
    ensures r.Next? && |r.image| == |image| && r.a >= a
  {
    if section < |image| / SECTION_BYTES then ReadWords(raw, a, w, section, image, 0) else Next(image, a)
  }

  function Decode(raw: seq<Byte>, mapLen: nat): (r: seq<Byte>)
    ensures |r| == mapLen
  {
    DecodeFrom(raw, 1, Read(raw, 0), Blank(mapLen))
  }

  // ---------------------------------------------------------------- decode inverts encode

  /** Every emitted header reads back as its section and word enables, is never the
      terminator, and is never taken for the other header form. */
  lemma HeaderReadsBack(section: nat, w: Nibble)
    requires section < MAX_SECTIONS && w != ALL_DISABLED
    ensures var h := Header(section, w);
            && h[0] != ERASED
            && (|h| == 1 <==> section < MAX_SECTION_BASE)
            && (IsExtHeader(h[0]) <==> |h| == 2)
            && (|h| == 1 ==> HeaderSection(h[0]) == section && h[0] % 16 == w)
            && (|h| == 2 ==> ExtHeaderSection(h[0], h[1]) == section && h[1] % 16 == w && h[1] != ERASED)
  {
    if section < MAX_SECTION_BASE {
      assert (section * 16 + w) % 16 == w;
    } else {
      assert ((section % 8) * 32 + 0x0F) / 32 == section % 8;
      assert ((section / 8) * 16 + w) / 16 == section / 8;
    }
  }

  /** The bytes b stand in raw at address a, with at least one byte after them. */
  ghost predicate At(raw: seq<Byte>, a: nat, b: seq<Byte>) {
    a + |b| < |raw| && StandsAt(raw, a, b)
  }

  lemma AtSplit(raw: seq<Byte>, a: nat, x: seq<Byte>, y: seq<Byte>)
    requires At(raw, a, x + y)
    ensures At(raw, a, x) && At(raw, a + |x|, y)
  {
    StandsAtSplit(raw, a, x, y);
  }

  /** The image after the words from i on have been stored. */
  function MergeFrom(image: seq<Byte>, p: Packet, i: nat): (r: seq<Byte>)
    requires |p.data| == SECTION_BYTES && i <= WORD_UNITS
    ensures |r| == |image|
    ensures forall k {:trigger r[k]} :: 0 <= k < |image| ==>
      r[k] == if k / 8 == p.section && (k % 8) / 2 >= i && !WordDisabled(p.wordEn, (k % 8) / 2) then p.data[k % 8]
              else image[k]
  {
    seq(|image|, k requires 0 <= k < |image| =>
      if k / 8 == p.section && (k % 8) / 2 >= i && !WordDisabled(p.wordEn, (k % 8) / 2) then p.data[k % 8] else image[k])
  }

  lemma {:induction false} ReadWordsMerges(raw: seq<Byte>, a: nat, p: Packet, image: seq<Byte>, i: nat)
    requires i <= WORD_UNITS && |p.data| == SECTION_BYTES && (p.section + 1) * SECTION_BYTES <= |image|
    requires At(raw, a, EnabledBytes(p.wordEn, p.data, i))
    ensures ReadWords(raw, a, p.wordEn, p.section, image, i)
         == Next(MergeFrom(image, p, i), a + |EnabledBytes(p.wordEn, p.data, i)|)
    decreases WORD_UNITS - i
  {
    hide WordDisabled, MergeFrom, PutWord, ReadWords, EnabledBytes, WordCountFrom, At;
    if i == WORD_UNITS {
      ReadWordsEnd(raw, a, p, image);
    } else {
      ReadWordsStep(raw, a, p, image, i);
      if WordDisabled(p.wordEn, i) {
        ReadWordsMerges(raw, a, p, image, i + 1);
        MergeFromSkip(image, p, i);
      } else {
        ReadWordsMerges(raw, a + 2, p, PutWord(image, p.section * 8 + 2 * i, p.data[2 * i], p.data[2 * i + 1]), i + 1);
        MergeFromStep(image, p, i);
      }
    }
  }

  lemma ReadWordsEnd(raw: seq<Byte>, a: nat, p: Packet, image: seq<Byte>)
    requires |p.data| == SECTION_BYTES && (p.section + 1) * SECTION_BYTES <= |image|
    ensures ReadWords(raw, a, p.wordEn, p.section, image, WORD_UNITS) == Next(MergeFrom(image, p, WORD_UNITS), a)
    ensures |EnabledBytes(p.wordEn, p.data, WORD_UNITS)| == 0
  {
    assert MergeFrom(image, p, WORD_UNITS) == image;
  }

  lemma ReadWordsStep(raw: seq<Byte>, a: nat, p: Packet, image: seq<Byte>, i: nat)
    requires i < WORD_UNITS && |p.data| == SECTION_BYTES && (p.section + 1) * SECTION_BYTES <= |image|
    requires At(raw, a, EnabledBytes(p.wordEn, p.data, i))
    ensures WordDisabled(p.wordEn, i) ==>
      && At(raw, a, EnabledBytes(p.wordEn, p.data, i + 1))
      && |EnabledBytes(p.wordEn, p.data, i)| == |EnabledBytes(p.wordEn, p.data, i + 1)|
      && ReadWords(raw, a, p.wordEn, p.section, image, i) == ReadWords(raw, a, p.wordEn, p.section, image, i + 1)
    ensures !WordDisabled(p.wordEn, i) ==>
      && At(raw, a + 2, EnabledBytes(p.wordEn, p.data, i + 1))
      && |EnabledBytes(p.wordEn, p.data, i)| == 2 + |EnabledBytes(p.wordEn, p.data, i + 1)|
      && ReadWords(raw, a, p.wordEn, p.section, image, i)
      == ReadWords(raw, a + 2, p.wordEn, p.section,
                   PutWord(image, p.section * 8 + 2 * i, p.data[2 * i], p.data[2 * i + 1]), i + 1)
  {
    hide WordDisabled, PutWord;
    if !WordDisabled(p.wordEn, i) {
      var word := [p.data[2 * i], p.data[2 * i + 1]];
      AtSplit(raw, a, word, EnabledBytes(p.wordEn, p.data, i + 1));
      assert raw[a] == word[0] && raw[a + 1] == word[1];
    }
  }

  lemma MergeFromSkip(image: seq<Byte>, p: Packet, i: nat)
    requires i < WORD_UNITS && |p.data| == SECTION_BYTES && WordDisabled(p.wordEn, i)
    ensures MergeFrom(image, p, i + 1) == MergeFrom(image, p, i)
  {
  }

  lemma MergeFromStep(image: seq<Byte>, p: Packet, i: nat)
    requires i < WORD_UNITS && |p.data| == SECTION_BYTES && (p.section + 1) * SECTION_BYTES <= |image|
    requires !WordDisabled(p.wordEn, i)
    ensures MergeFrom(PutWord(image, p.section * 8 + 2 * i, p.data[2 * i], p.data[2 * i + 1]), p, i + 1)
         == MergeFrom(image, p, i)
  {
    var m := PutWord(image, p.section * 8 + 2 * i, p.data[2 * i], p.data[2 * i + 1]);
    forall k | 0 <= k < |image|
      ensures MergeFrom(m, p, i + 1)[k] == MergeFrom(image, p, i)[k]
    {
      if k / 8 == p.section {
        assert k == p.section * 8 + k % 8;
        if (k % 8) / 2 == i {
          assert k % 8 == 2 * i || k % 8 == 2 * i + 1;
        }
      }
    }
  }

  ghost predicate DecodesTo(raw: seq<Byte>, a: nat, log: seq<Packet>, image: seq<Byte>) {
    AllSized(log) && DecodeFrom(raw, a + 1, Read(raw, a), image) == MergeAll(image, log)
  }

  /** Decoding a well-formed log followed by an erased byte gives its meaning. */
  lemma {:induction false} DecodeLog(raw: seq<Byte>, a: nat, log: seq<Packet>, image: seq<Byte>, sections: nat)
    requires |image| == sections * SECTION_BYTES && sections <= MAX_SECTIONS
    requires AllValid(log, sections) && AllValid(log, MAX_SECTIONS)
    requires At(raw, a, EncodeAll(log)) && Read(raw, a + |EncodeAll(log)|) == ERASED
    ensures DecodesTo(raw, a, log, image)
    decreases |log|
  {
    hide *;
    if log == [] {
      DecodeEnd(raw, a, log, image);
    } else {
      LogHead(raw, a, log, sections);
      DecodeLog(raw, a + |Encode(log[0])|, log[1..], Merge(image, log[0]), sections);
      DecodeOnward(raw, a, log, image, sections);
    }
  }

  lemma DecodeEnd(raw: seq<Byte>, a: nat, log: seq<Packet>, image: seq<Byte>)
    requires log == [] && Read(raw, a + |EncodeAll(log)|) == ERASED
    ensures DecodesTo(raw, a, log, image)
  {
  }

  lemma LogHead(raw: seq<Byte>, a: nat, log: seq<Packet>, sections: nat)
    requires log != [] && AllValid(log, sections) && AllValid(log, MAX_SECTIONS) && At(raw, a, EncodeAll(log))
    ensures log[0].Valid(sections) && log[0].Valid(MAX_SECTIONS) && |log[0].data| == SECTION_BYTES
    ensures AllValid(log[1..], sections) && AllValid(log[1..], MAX_SECTIONS)
    ensures At(raw, a, Encode(log[0])) && At(raw, a + |Encode(log[0])|, EncodeAll(log[1..]))
    ensures |EncodeAll(log)| == |Encode(log[0])| + |EncodeAll(log[1..])|
  {
    hide Encode;
    AllValidTail(log, sections);
    AllValidTail(log, MAX_SECTIONS);
    AtSplit(raw, a, Encode(log[0]), EncodeAll(log[1..]));
  }

  lemma DecodeOnward(raw: seq<Byte>, a: nat, log: seq<Packet>, image: seq<Byte>, sections: nat)
    requires |image| == sections * SECTION_BYTES && sections <= MAX_SECTIONS
    requires log != [] && log[0].Valid(sections) && At(raw, a, Encode(log[0]))
    requires DecodesTo(raw, a + |Encode(log[0])|, log[1..], Merge(image, log[0]))
    ensures DecodesTo(raw, a, log, image)
  {
    hide Encode, Merge, At, DecodeTurn;
    DecodeOne(raw, a, log[0], image, sections);
    assert log == [log[0]] + log[1..];
  }

  lemma AllValidTail(log: seq<Packet>, sections: nat)
    requires log != [] && AllValid(log, sections)
    ensures log[0].Valid(sections) && AllValid(log[1..], sections)
  {
  }

  /** One turn of the decode loop over one encoded packet. */
  lemma DecodeOne(raw: seq<Byte>, a: nat, p: Packet, image: seq<Byte>, sections: nat)
    requires |image| == sections * SECTION_BYTES && sections <= MAX_SECTIONS
    requires p.Valid(sections)
    requires At(raw, a, Encode(p))
    ensures DecodeTurn(raw, a + 1, Read(raw, a), image) == Next(Merge(image, p), a + |Encode(p)|)
  {
    hide DecodeTurn, DecodeSection, Merge, EnabledBytes, WordCountFrom, At, StandsAt, Read;
    HeaderStands(raw, a, p);
    DecodeHeader(raw, a, p.section, p.wordEn, image);
    DecodeSectionMerges(raw, a + |Header(p.section, p.wordEn)|, p, image);
  }

  lemma HeaderStands(raw: seq<Byte>, a: nat, p: Packet)
    requires p.Valid(MAX_SECTIONS) && At(raw, a, Encode(p))
    ensures var h, e := Header(p.section, p.wordEn), EnabledBytes(p.wordEn, p.data, 0);
      && a + |h| < |raw| && raw[a] == h[0] && (|h| == 2 ==> raw[a + 1] == h[1])
      && At(raw, a + |h|, e) && |Encode(p)| == |h| + |e|
  {
    hide EnabledBytes, WordCountFrom;
    var h := Header(p.section, p.wordEn);
    AtSplit(raw, a, h, EnabledBytes(p.wordEn, p.data, 0));
    assert raw[a] == h[0] && (|h| == 2 ==> raw[a + 1] == h[1]);
  }

  /** The header branches lead to the word loop at the section and word enables encoded. */
  lemma DecodeHeader(raw: seq<Byte>, a: nat, section: nat, w: Nibble, image: seq<Byte>)
    requires section < MAX_SECTIONS && w != ALL_DISABLED
    requires var h := Header(section, w);
             a + |h| < |raw| && raw[a] == h[0] && (|h| == 2 ==> raw[a + 1] == h[1])
    ensures DecodeTurn(raw, a + 1, Read(raw, a), image)
         == DecodeSection(raw, a + |Header(section, w)|, section, w, image)
  {
    HeaderReadsBack(section, w);
  }

  lemma DecodeSectionMerges(raw: seq<Byte>, a: nat, p: Packet, image: seq<Byte>)
    requires p.Valid(|image| / SECTION_BYTES)
    requires At(raw, a, EnabledBytes(p.wordEn, p.data, 0))
    ensures DecodeSection(raw, a, p.section, p.wordEn, image)
         == Next(Merge(image, p), a + |EnabledBytes(p.wordEn, p.data, 0)|)
  {
    ReadWordsMerges(raw, a, p, image, 0);
    assert MergeFrom(image, p, 0) == Merge(image, p);
  }

  /** Decoding the whole array: the log written from address 0, erased beyond. */
  lemma DecodeInvertsEncode(raw: seq<Byte>, log: seq<Packet>, sections: nat)
    requires sections <= MAX_SECTIONS && AllValid(log, sections) && AllValid(log, MAX_SECTIONS)
    requires At(raw, 0, EncodeAll(log)) && raw[|EncodeAll(log)|] == ERASED
    ensures Decode(raw, sections * SECTION_BYTES) == MergeAll(Blank(sections * SECTION_BYTES), log)
  {
    hide DecodeFrom, DecodeTurn, MergeAll, EncodeAll, StandsAt, Encode, AllValid, AllSized;
    DecodeLog(raw, 0, log, Blank(sections * SECTION_BYTES), sections);
  }

  // ---------------------------------------------------------------- what stands where

  /** The enabled words below word i: the words whose bit in the nibble is clear. */
  function EnabledBelow(w: Nibble, i: nat): (r: nat)
    requires i <= WORD_UNITS
    ensures r <= i
  {
    if i == 0 then 0 else EnabledBelow(w, i - 1) + Num(!BitOf(w, i - 1))
  }

  lemma {:induction false} EnabledGrows(w: Nibble, i: nat, j: nat)
    requires i <= j <= WORD_UNITS
    ensures EnabledBelow(w, i) <= EnabledBelow(w, j)
    decreases j
  {
    if i < j { EnabledGrows(w, i, j - 1); }
  }

  lemma DisabledBit(w: Nibble, i: nat)
    requires i < WORD_UNITS
    ensures WordDisabled(w, i) <==> BitOf(w, i)
  {
  }

  /** The words from word i on have been read from address a: the low octet of a word first, the words
      packed, and nothing else of the map touched. */
  ghost predicate WordsRead(raw: seq<Byte>, a: nat, w: Nibble, section: nat, image: seq<Byte>, i: nat, r: seq<Byte>)
    requires i <= WORD_UNITS && (section + 1) * SECTION_BYTES <= |image|
    requires a + 2 * (EnabledBelow(w, WORD_UNITS) - EnabledBelow(w, i)) < |raw|
  {
    && |r| == |image|
    && (forall k {:trigger r[k]} :: 0 <= k < |image| && k / 8 != section ==> r[k] == image[k])
    && (forall j :: 0 <= j < WORD_UNITS ==> WordIs(raw, a, w, section, image, i, r, j))
  }

  ghost predicate WordIs(raw: seq<Byte>, a: nat, w: Nibble, section: nat, image: seq<Byte>, i: nat, r: seq<Byte>, j: nat)
    requires i <= WORD_UNITS && j < WORD_UNITS && (section + 1) * SECTION_BYTES <= |image| == |r|
    requires a + 2 * (EnabledBelow(w, WORD_UNITS) - EnabledBelow(w, i)) < |raw|
  {
    var lo := section * 8 + 2 * j;
    if i <= j && !BitOf(w, j) then
      EnabledGrows(w, i, j); EnabledGrows(w, j + 1, WORD_UNITS);
      var at := a + 2 * (EnabledBelow(w, j) - EnabledBelow(w, i));
      r[lo] == raw[at] && r[lo + 1] == raw[at + 1]
    else r[lo] == image[lo] && r[lo + 1] == image[lo + 1]
  }

  lemma {:induction false} ReadWordsBytes(raw: seq<Byte>, a: nat, w: Nibble, section: nat, image: seq<Byte>, i: nat)
    requires i <= WORD_UNITS && (section + 1) * SECTION_BYTES <= |image|
    requires EnabledBelow(w, i) <= EnabledBelow(w, WORD_UNITS)
    requires a + 2 * (EnabledBelow(w, WORD_UNITS) - EnabledBelow(w, i)) < |raw|
    ensures WordsRead(raw, a, w, section, image, i, ReadWords(raw, a, w, section, image, i).image)
    ensures ReadWords(raw, a, w, section, image, i).a == a + 2 * (EnabledBelow(w, WORD_UNITS) - EnabledBelow(w, i))
    decreases WORD_UNITS - i
  {
    hide WordDisabled, BitOf, WordsRead, PutWord;
    if i == WORD_UNITS {
      NoWordRead(raw, a, w, section, image);
    } else {
      DisabledBit(w, i);
      EnabledGrows(w, i + 1, WORD_UNITS);
      if BitOf(w, i) {
        ReadWordsBytes(raw, a, w, section, image, i + 1);
        WordSkipped(raw, a, w, section, image, i, ReadWords(raw, a, w, section, image, i + 1).image);
      } else {
        var m := PutWord(image, section * 8 + 2 * i, Read(raw, a), Read(raw, a + 1));
        ReadWordsBytes(raw, a + 2, w, section, m, i + 1);
        WordTaken(raw, a, w, section, image, i, ReadWords(raw, a + 2, w, section, m, i + 1).image);
      }
    }
  }

  lemma NoWordRead(raw: seq<Byte>, a: nat, w: Nibble, section: nat, image: seq<Byte>)
    requires (section + 1) * SECTION_BYTES <= |image| && a < |raw|
    ensures WordsRead(raw, a, w, section, image, WORD_UNITS, image)
  {
    hide EnabledBelow, BitOf;
  }

  lemma WordSkipped(raw: seq<Byte>, a: nat, w: Nibble, section: nat, image: seq<Byte>, i: nat, r: seq<Byte>)
    requires i < WORD_UNITS && (section + 1) * SECTION_BYTES <= |image| && BitOf(w, i)
    requires EnabledBelow(w, i + 1) == EnabledBelow(w, i)
    requires a + 2 * (EnabledBelow(w, WORD_UNITS) - EnabledBelow(w, i)) < |raw|
    requires WordsRead(raw, a, w, section, image, i + 1, r)
    ensures WordsRead(raw, a, w, section, image, i, r)
  {
    hide EnabledBelow, BitOf;
    forall j | 0 <= j < WORD_UNITS ensures WordIs(raw, a, w, section, image, i, r, j)
    {
      assert WordIs(raw, a, w, section, image, i + 1, r, j);
    }
  }

  lemma WordTaken(raw: seq<Byte>, a: nat, w: Nibble, section: nat, image: seq<Byte>, i: nat, r: seq<Byte>)
    requires i < WORD_UNITS && (section + 1) * SECTION_BYTES <= |image| && !BitOf(w, i)
    requires EnabledBelow(w, i + 1) == EnabledBelow(w, i) + 1 <= EnabledBelow(w, WORD_UNITS)
    requires a + 2 * (EnabledBelow(w, WORD_UNITS) - EnabledBelow(w, i)) < |raw|
    requires var m := PutWord(image, section * 8 + 2 * i, Read(raw, a), Read(raw, a + 1));
      WordsRead(raw, a + 2, w, section, m, i + 1, r)
    ensures WordsRead(raw, a, w, section, image, i, r)
  {
    hide EnabledBelow, BitOf;
    var m := PutWord(image, section * 8 + 2 * i, Read(raw, a), Read(raw, a + 1));
    forall j | 0 <= j < WORD_UNITS ensures WordIs(raw, a, w, section, image, i, r, j)
    {
      assert WordIs(raw, a + 2, w, section, m, i + 1, r, j);
    }
  }

  /** Without room for a word and one more octet no word is read. */
  lemma {:induction false} NoRoomForWord(raw: seq<Byte>, a: nat, w: Nibble, section: nat, image: seq<Byte>, i: nat)
    requires i <= WORD_UNITS && (section + 1) * SECTION_BYTES <= |image| && a + 2 >= |raw|
    ensures ReadWords(raw, a, w, section, image, i) == Next(image, a)
    decreases WORD_UNITS - i
  {
    hide WordDisabled, PutWord;
    if i < WORD_UNITS {
      NoRoomForWord(raw, a, w, section, image, i + 1);
    }
  }

  /** Where the walk over the packets ends, and what it steps over. */
  lemma NoPacketOnArray(raw: seq<Byte>, a: nat, image: seq<Byte>)
    requires a < |raw|
    ensures raw[a] == 0xFF || a + 1 == |raw| ==> DecodeTurn(raw, a + 1, raw[a], image).Stop?
    ensures a + 1 < |raw| && raw[a] != 0xFF && raw[a] % 32 == 15 && raw[a + 1] == 0xFF ==>
      DecodeTurn(raw, a + 1, raw[a], image).Stop?
    ensures a + 1 < |raw| && raw[a] != 0xFF && raw[a] % 32 == 15 && raw[a + 1] != 0xFF && raw[a + 1] % 16 == 15 ==>
      DecodeTurn(raw, a + 1, raw[a], image) == Next(image, a + 2)
  {
  }

  /** MAIN: what one packet at address a says, bit by bit: a header whose low five bits are 01111 takes the
      section's low three bits from its top ones and the other four, with the word enables, from the
      next octet; any other header has four and four.  Then come the enabled words. */
  lemma PacketOnArray(raw: seq<Byte>, a: nat, image: seq<Byte>)
    requires a + 1 < |raw| && raw[a] != 0xFF && (raw[a] % 32 == 15 ==> raw[a + 1] != 0xFF && raw[a + 1] % 16 != 15)
    ensures var long := raw[a] % 32 == 15;
      var w: Nibble := (if long then raw[a + 1] else raw[a]) % 16;
      var section := if long then 8 * (raw[a + 1] / 16) + raw[a] / 32 else raw[a] / 16;
      var from := a + if long then 2 else 1;
      from + 2 * EnabledBelow(w, WORD_UNITS) < |raw| ==>
        var t := DecodeTurn(raw, a + 1, raw[a], image);
        && t.Next?
        && if section < |image| / 8 then
             && t.a == from + 2 * EnabledBelow(w, WORD_UNITS)
             && WordsRead(raw, from, w, section, image, 0, t.image)
           else t == Next(image, from)
  {
    hide ReadWords, WordsRead;
    var long := raw[a] % 32 == 15;
    var w: Nibble := (if long then raw[a + 1] else raw[a]) % 16;
    var section := if long then 8 * (raw[a + 1] / 16) + raw[a] / 32 else raw[a] / 16;
    var from := a + if long then 2 else 1;
    if from + 2 * EnabledBelow(w, WORD_UNITS) < |raw| && section < |image| / 8 {
      ReadWordsBytes(raw, from, w, section, image, 0);
    }
  }
}
