/**
 * The first two words of every LNAV subframe: the telemetry (TLM) word and the
 * hand-over word (HOW). The receiver decodes the preamble, the TLM message, the
 * integrity status flag, the time of week, the alert and anti-spoof flags and
 * the subframe id from them.
 */
module LnavHeader {
  import opened NavBits

  datatype Header = Header(
    /** `words[0] >> 22`: the 8-bit preamble with the two padding bits above it. */
    preamble: nat,
    tlmMessage: nat,
    /** Integrity status flag. */
    integrity: bool,
    /** Time of week of the next subframe, in seconds. */
    tow: nat,
    alert: bool,
    antiSpoof: bool,
    subframeId: nat)

  /** Words the header reads. */
  const HeaderWords := 2

  /** `(words[1] >> 8) & 0x07`: the subframe id. */
  function SubframeId(words: seq<Word>): (id: nat)
    requires HeaderWords <= |words|
    ensures id < 8
  {
    Field(words[1], 8, 3)
  }

  /** `unpack_u17(words[1], 13) * 6`: the 17-bit truncated time of week, in seconds. */
  function Tow(words: seq<Word>): (t: nat)
    requires HeaderWords <= |words|
    ensures t % 6 == 0 && t < 6 * 0x2_0000
  {
    Pow2Table();
    Field(words[1], 13, 17) * 6
  }

  /** `words[0] >> 22`: unmasked, so the padding bits above the preamble come along. */
  function Preamble(words: seq<Word>): (p: nat)
    requires 1 <= |words|
    ensures p < 1024
  {
    ShrBound(words[0], 22);
    Pow2Table();
    Shr(words[0], 22)
  }

  /** The header with every field at its IS-GPS-200 position. */
  function DecodeHeader(words: seq<Word>): (h: Header)
    requires HeaderWords <= |words|
    ensures h.preamble < 1024 && h.tlmMessage < 0x4000 && h.tow < 6 * 0x2_0000 && h.subframeId < 8
  {
    Pow2Table();
    Header(Preamble(words), Field(words[0], 8, 14), Bit(words[0], 7),
           Tow(words), Bit(words[1], 12), Bit(words[1], 11), SubframeId(words))
  }

  /**
   * `DecodeHeader` reads IS-GPS-200's layout: the preamble in TLM bits 1-8 (below the two
   * padding bits), the TLM message in TLM bits 9-22, the integrity status flag in TLM bit 23,
   * the time of week count in HOW bits 1-17, the alert and anti-spoof flags in HOW bits 18
   * and 19, the subframe id in HOW bits 20-22.
   */
  lemma HeaderLayout(words: seq<Word>)
    requires HeaderWords <= |words|
    ensures var h := DecodeHeader(words);
      && h.preamble == Concat(Field(words[0], 30, 2), 2, NavField(words, 1, 1, 8), 8)
      && h.tlmMessage == NavField(words, 1, 9, 14)
      && (h.integrity <==> NavField(words, 1, 23, 1) == 1)
      && h.tow == 6 * NavField(words, 2, 1, 17)
      && (h.alert <==> NavField(words, 2, 18, 1) == 1)
      && (h.antiSpoof <==> NavField(words, 2, 19, 1) == 1)
      && h.subframeId == NavField(words, 2, 20, 3)
  {
    ShrTop(words[0], 22);
    NavFieldInWord(words, 1, 1, 8);
    NavFieldInWord(words, 1, 9, 14);
    NavFieldInWord(words, 1, 23, 1);
    NavFieldInWord(words, 2, 1, 17);
    NavFieldInWord(words, 2, 18, 1);
    NavFieldInWord(words, 2, 19, 1);
    NavFieldInWord(words, 2, 20, 3);
  }

  /**
   * The header as the source reads it: TLM message `(words[0] >> 8) & 0xffff`,
   * ISF `words[0] & 0x40`, alert `words[0] & 0x1000`, A-S `words[0] & 0x800`.
   */
  function HeaderAsWritten(words: seq<Word>): (h: Header)
    requires HeaderWords <= |words|
    ensures h.preamble < 1024 && h.tlmMessage < 0x1_0000 && h.tow < 6 * 0x2_0000 && h.subframeId < 8
  {
    Pow2Table();
    Header(Preamble(words), Field(words[0], 8, 16), Bit(words[0], 6),
           Tow(words), Bit(words[0], 12), Bit(words[0], 11), SubframeId(words))
  }

  /**
   * Only the four misplaced fields differ from `DecodeHeader`: the alert and A-S flags
   * are TLM bits 18 and 19 (inside the TLM message), the ISF is the reserved TLM bit 24,
   * and the TLM message takes the last two preamble bits with it.
   */
  lemma HeaderAsWrittenLayout(words: seq<Word>)
    requires HeaderWords <= |words|
    ensures var h, d := HeaderAsWritten(words), DecodeHeader(words);
      && h == d.(tlmMessage := h.tlmMessage, integrity := h.integrity, alert := h.alert, antiSpoof := h.antiSpoof)
      && h.tlmMessage == Concat(NavField(words, 1, 7, 2), 2, NavField(words, 1, 9, 14), 14)
      && (h.integrity <==> NavField(words, 1, 24, 1) == 1)
      && (h.alert <==> NavField(words, 1, 18, 1) == 1)
      && (h.antiSpoof <==> NavField(words, 1, 19, 1) == 1)
  {
    FieldSplit(words[0], 8, 2, 14);
    NavFieldInWord(words, 1, 7, 2);
    NavFieldInWord(words, 1, 9, 14);
    NavFieldInWord(words, 1, 24, 1);
    NavFieldInWord(words, 1, 18, 1);
    NavFieldInWord(words, 1, 19, 1);
  }

  /** A TLM word with bit 18 set and an HOW with a clear alert bit: the source reports an alert. */
  lemma AlertReadFromTlm(words: seq<Word>)
    requires |words| == 2 && words[0] == 0x1000 && words[1] == 0
    ensures HeaderAsWritten(words).alert && !DecodeHeader(words).alert
  {
    Pow2Table();
    assert Shr(words[0], 12) == 1;
  }

  /** A TLM word whose only set bit is preamble bit 8: the source's TLM message picks it up. */
  lemma TlmMessageTakesPreambleBits(words: seq<Word>)
    requires |words| == 2 && words[0] == 0x40_0000 && words[1] == 0
    ensures HeaderAsWritten(words).tlmMessage == 0x4000 && DecodeHeader(words).tlmMessage == 0
  {
    Pow2Table();
    assert Pow2(8) == 256;
    assert Shr(words[0], 8) == 0x4000;
  }

  /** A TLM word with the integrity flag (bit 23) set: the source reports it clear. */
  lemma IntegrityReadFromReservedBit(words: seq<Word>)
    requires |words| == 2 && words[0] == 0x80 && words[1] == 0
    ensures !HeaderAsWritten(words).integrity && DecodeHeader(words).integrity
  {
    assert Pow2(7) == 0x80;
  }
}
