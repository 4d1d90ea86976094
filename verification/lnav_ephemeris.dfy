/**
 * LNAV subframes 1 to 3: the clock parameters and the two halves of the
 * ephemeris. Each field is read from its word by shift-and-mask, exactly as the
 * receiver code reads it; each decoder's contract places every field at its
 * IS-GPS-200 position (word, first bit, width) in the data-bit stream.
 */
module LnavEphemeris {
  import opened NavBits

  /** Words a subframe 1, 2 or 3 decode reads. */
  const SubframeWords := 10

  /** Subframe 1 (IS-GPS-200 Table 20-I). */
  datatype ClockParams = ClockParams(
    /** `words[2] >> 20`: the week number with the padding bits above it. */
    weekNumber: nat,
    codesOnL2: nat,
    ura: nat,
    health: nat,
    iodc: nat,
    l2pDataFlag: nat,
    tgd: Scaled,
    toc: Scaled,
    af2: Scaled,
    af1: Scaled,
    af0: Scaled)

  /** Subframe 2 (IS-GPS-200 Table 20-III). */
  datatype EphemerisPart1 = EphemerisPart1(
    iode: nat, crs: Scaled, deltaN: Scaled, m0: Scaled, cuc: Scaled,
    e: Scaled, cus: Scaled, sqrtA: Scaled, toe: Scaled)

  /** Subframe 3 (IS-GPS-200 Table 20-III). */
  datatype EphemerisPart2 = EphemerisPart2(
    cic: Scaled, omega0: Scaled, cis: Scaled, i0: Scaled, crc: Scaled,
    omega: Scaled, omegaDot: Scaled, iode: nat, idot: Scaled)

  // ---------------------------------------------------------------------------
  // Subframe 1

  /** `words[2] >> 20`: unmasked, so the two padding bits come along above the 10-bit week number. */
  function WeekNumber(words: seq<Word>): (wn: nat)
    requires SubframeWords <= |words|
    ensures wn < 4096
  {
    ShrBound(words[2], 20);
    Pow2Table();
    Shr(words[2], 20)
  }

  /** IODC: `((words[2] >> 6) & 0x3) << 8 | ((words[7] >> 22) & 0xff)`. */
  function Iodc(words: seq<Word>): (iodc: nat)
    requires SubframeWords <= |words|
    ensures iodc < 1024
  {
    Pow2Table();
    Concat(Field(words[2], 6, 2), 2, Field(words[7], 22, 8), 8)
  }

  /** The IODC is its 2 high bits at word 3 bits 23-24 above its 8 low bits at word 8 bits 1-8. */
  lemma IodcLayout(words: seq<Word>)
    requires SubframeWords <= |words|
    ensures Iodc(words) == Concat(NavField(words, 3, 23, 2), 2, NavField(words, 8, 1, 8), 8)
  {
    NavFieldInWord(words, 3, 23, 2);
    NavFieldInWord(words, 8, 1, 8);
  }

  /**
   * IODC as the source reads it: the low byte is `(words[7] >> 24) & 0xff`, which is
   * the two padding bits of word 8 above its first six data bits.
   */
  function IodcAsWritten(words: seq<Word>): (iodc: nat)
    requires SubframeWords <= |words|
    ensures iodc < 1024
  {
    Pow2Table();
    Concat(Field(words[2], 6, 2), 2, Field(words[7], 24, 8), 8)
  }

  /** The as-written low byte is the padding bits of word 8 above its data bits 1-6. */
  lemma IodcAsWrittenLayout(words: seq<Word>)
    requires SubframeWords <= |words|
    ensures IodcAsWritten(words)
         == Concat(NavField(words, 3, 23, 2), 2, Concat(Field(words[7], 30, 2), 2, NavField(words, 8, 1, 6), 6), 8)
  {
    NavFieldInWord(words, 3, 23, 2);
    NavFieldInWord(words, 8, 1, 6);
    FieldSplit(words[7], 24, 2, 6);
  }

  /** Word 8 with data bits 7 and 8 set: the IODC low byte the source reads misses them. */
  lemma IodcLowByteMisread(words: seq<Word>)
    requires |words| == 10 && words[2] == 0 && words[7] == 0xC0_0000
    ensures Iodc(words) == 3 && IodcAsWritten(words) == 0
  {
    Pow2Table();
    assert Pow2(22) == 0x40_0000;
    assert Shr(words[7], 22) == 3;
    assert Shr(words[7], 24) == 0;
  }

  /** Subframe 1, each field read by the source's shift-and-mask. */
  function DecodeClock(words: seq<Word>): ClockParams
    requires SubframeWords <= |words|
  {
    ClockParams(
      WeekNumber(words),
      Field(words[2], 18, 2),
      Field(words[2], 14, 4),
      Field(words[2], 8, 6),
      Iodc(words),
      Field(words[3], 29, 1),
      Scaled(SignedField(words[6], 6, 8), -31),
      Scaled(Field(words[7], 6, 16), 4),
      Scaled(SignedField(words[8], 22, 8), -55),
      Scaled(SignedField(words[8], 6, 16), -43),
      Scaled(SignedField(words[9], 8, 22), -31))
  }

  /** Every subframe 1 field sits at its IS-GPS-200 position (Table 20-I). */
  lemma ClockLayout(words: seq<Word>)
    requires SubframeWords <= |words|
    ensures var c := DecodeClock(words);
      && c.weekNumber == Concat(Field(words[2], 30, 2), 2, NavField(words, 3, 1, 10), 10)
      && c.iodc == Concat(NavField(words, 3, 23, 2), 2, NavField(words, 8, 1, 8), 8)
      && c.codesOnL2 == NavField(words, 3, 11, 2)
      && c.ura == NavField(words, 3, 13, 4)
      && c.health == NavField(words, 3, 17, 6)
      && c.l2pDataFlag == NavField(words, 4, 1, 1)
      && c.tgd == Scaled(Signed(NavField(words, 7, 17, 8), 8), -31)
      && c.toc == Scaled(NavField(words, 8, 9, 16), 4)
      && c.af2 == Scaled(Signed(NavField(words, 9, 1, 8), 8), -55)
      && c.af1 == Scaled(Signed(NavField(words, 9, 9, 16), 16), -43)
      && c.af0 == Scaled(Signed(NavField(words, 10, 1, 22), 22), -31)
  {
    ShrTop(words[2], 20);
    NavFieldInWord(words, 3, 1, 10);
    IodcLayout(words);
    NavFieldInWord(words, 3, 11, 2);
    NavFieldInWord(words, 3, 13, 4);
    NavFieldInWord(words, 3, 17, 6);
    NavFieldInWord(words, 4, 1, 1);
    SignedFieldInWord(words, 7, 17, 8);
    NavFieldInWord(words, 8, 9, 16);
    SignedFieldInWord(words, 9, 1, 8);
    SignedFieldInWord(words, 9, 9, 16);
    SignedFieldInWord(words, 10, 1, 22);
  }

  /**
   * Subframe 1 as the source reads it: the IODC low byte as in `IodcAsWritten`, and the
   * L2 P data flag as `(words[2] >> 29) & 0x03`.
   */
  function DecodeClockAsWritten(words: seq<Word>): ClockParams
    requires SubframeWords <= |words|
  {
    DecodeClock(words).(iodc := IodcAsWritten(words), l2pDataFlag := Field(words[2], 29, 2))
  }

  /**
   * The as-written subframe 1 differs only in IODC and in the L2 P data flag, which is a
   * padding bit above the week number's top bit instead of word 4 bit 1.
   */
  lemma ClockAsWrittenLayout(words: seq<Word>)
    requires SubframeWords <= |words|
    ensures var c := DecodeClockAsWritten(words);
      && c == DecodeClock(words).(iodc := c.iodc, l2pDataFlag := c.l2pDataFlag)
      && c.iodc == IodcAsWritten(words)
      && c.l2pDataFlag == Concat(Field(words[2], 30, 1), 1, NavField(words, 3, 1, 1), 1)
  {
    NavFieldInWord(words, 3, 1, 1);
    FieldSplit(words[2], 29, 1, 1);
  }

  /** A week number with its top bit set and a clear L2 P flag: the source reports the flag set. */
  lemma L2pFlagMisread(words: seq<Word>)
    requires |words| == 10 && words[2] == 0x2000_0000 && words[3] == 0
    ensures DecodeClock(words).l2pDataFlag == 0 && DecodeClockAsWritten(words).l2pDataFlag == 1
  {
    assert Pow2(29) == 0x2000_0000 by {
      Pow2Table();
      Pow2Add(16, 13);
      assert Pow2(13) == 0x2000;
    }
    assert Field(words[2], 29, 2) == 1;
    assert Field(words[3], 29, 1) == 0;
  }

  // ---------------------------------------------------------------------------
  // Subframes 2 and 3

  /** Subframe 2; three 32-bit fields cross a word boundary. */
  function DecodeEphemeris1(words: seq<Word>): EphemerisPart1
    requires SubframeWords <= |words|
  {
    EphemerisPart1(
      Field(words[2], 22, 8),
      Scaled(SignedField(words[2], 6, 16), -5),
      Scaled(SignedField(words[3], 14, 16), -43),
      Scaled(SpanS32(words[4], words[3]), -31),
      Scaled(SignedField(words[5], 14, 16), -29),
      Scaled(SpanU32(words[6], words[5]), -33),
      Scaled(SignedField(words[7], 14, 16), -29),
      Scaled(SpanU32(words[8], words[7]), -19),
      Scaled(Field(words[9], 14, 16), 4))
  }

  /** Every subframe 2 field sits at its IS-GPS-200 position (Table 20-III). */
  lemma Ephemeris1Layout(words: seq<Word>)
    requires SubframeWords <= |words|
    ensures var e := DecodeEphemeris1(words);
      && e.iode == NavField(words, 3, 1, 8)
      && e.crs == Scaled(Signed(NavField(words, 3, 9, 16), 16), -5)
      && e.deltaN == Scaled(Signed(NavField(words, 4, 1, 16), 16), -43)
      && e.m0 == Scaled(Signed(NavField(words, 4, 17, 32), 32), -31)
      && e.cuc == Scaled(Signed(NavField(words, 6, 1, 16), 16), -29)
      && e.e == Scaled(NavField(words, 6, 17, 32), -33)
      && e.cus == Scaled(Signed(NavField(words, 8, 1, 16), 16), -29)
      && e.sqrtA == Scaled(NavField(words, 8, 17, 32), -19)
      && e.toe == Scaled(NavField(words, 10, 1, 16), 4)
  {
    NavFieldInWord(words, 3, 1, 8);
    SignedFieldInWord(words, 3, 9, 16);
    SignedFieldInWord(words, 4, 1, 16);
    SpanSignedIsStream(words, 3);
    SignedFieldInWord(words, 6, 1, 16);
    SpanIsStream(words, 5);
    SignedFieldInWord(words, 8, 1, 16);
    SpanIsStream(words, 7);
    NavFieldInWord(words, 10, 1, 16);
  }

  /** Subframe 3. */
  function DecodeEphemeris2(words: seq<Word>): EphemerisPart2
    requires SubframeWords <= |words|
  {
    EphemerisPart2(
      Scaled(SignedField(words[2], 14, 16), -29),
      Scaled(SpanS32(words[3], words[2]), -31),
      Scaled(SignedField(words[4], 14, 16), -29),
      Scaled(SpanS32(words[5], words[4]), -31),
      Scaled(SignedField(words[6], 14, 16), -5),
      Scaled(SpanS32(words[7], words[6]), -31),
      Scaled(SignedField(words[8], 6, 24), -43),
      Field(words[9], 22, 8),
      Scaled(SignedField(words[9], 8, 14), -43))
  }

  /** Every subframe 3 field sits at its IS-GPS-200 position (Table 20-III). */
  lemma Ephemeris2Layout(words: seq<Word>)
    requires SubframeWords <= |words|
    ensures var e := DecodeEphemeris2(words);
      && e.cic == Scaled(Signed(NavField(words, 3, 1, 16), 16), -29)
      && e.omega0 == Scaled(Signed(NavField(words, 3, 17, 32), 32), -31)
      && e.cis == Scaled(Signed(NavField(words, 5, 1, 16), 16), -29)
      && e.i0 == Scaled(Signed(NavField(words, 5, 17, 32), 32), -31)
      && e.crc == Scaled(Signed(NavField(words, 7, 1, 16), 16), -5)
      && e.omega == Scaled(Signed(NavField(words, 7, 17, 32), 32), -31)
      && e.omegaDot == Scaled(Signed(NavField(words, 9, 1, 24), 24), -43)
      && e.iode == NavField(words, 10, 1, 8)
      && e.idot == Scaled(Signed(NavField(words, 10, 9, 14), 14), -43)
  {
    SignedFieldInWord(words, 3, 1, 16);
    SpanSignedIsStream(words, 2);
    SignedFieldInWord(words, 5, 1, 16);
    SpanSignedIsStream(words, 4);
    SignedFieldInWord(words, 7, 1, 16);
    SpanSignedIsStream(words, 6);
    SignedFieldInWord(words, 9, 1, 24);
    NavFieldInWord(words, 10, 1, 8);
    SignedFieldInWord(words, 10, 9, 14);
  }
}
