/**
 * The pages of LNAV subframes 4 and 5 other than the health pages: the almanac,
 * the navigation message correction table (NMCT, section 20.3.3.5.1.9 of
 * IS-GPS-200), the 22-character special message and the ionospheric and UTC
 * parameters. Each page is a run of fields in the data-bit stream; the
 * contracts give the stream position of every field.
 */
module LnavPages {
  import opened NavBits

  /** Words a page decode reads. */
  const PageWords := 10

  // ---------------------------------------------------------------------------
  // Almanac (IS-GPS-200 Table 20-VI)

  datatype Almanac = Almanac(
    svid: nat, e: Scaled, toa: Scaled, deltaI: Scaled, omegaDot: Scaled, health: nat,
    sqrtA: Scaled, omega0: Scaled, omega: Scaled, m0: Scaled, af0: Scaled, af1: Scaled)

  /**
   * The almanac page shared by subframes 4 and 5. Its fields are read at the
   * IS-GPS-200 positions; af0 is split, 8 high bits at word 10 bits 1-8 and
   * 3 low bits at word 10 bits 20-22.
   */
  function DecodeAlmanac(words: seq<Word>): (a: Almanac)
    requires PageWords <= |words|
    ensures a.svid < 64 && a.health < 256
    ensures 0 <= a.e.raw < 0x1_0000 && 0 <= a.toa.raw < 256 && 0 <= a.sqrtA.raw < 0x100_0000
    ensures -0x8000 <= a.deltaI.raw < 0x8000 && -0x8000 <= a.omegaDot.raw < 0x8000
    ensures -0x80_0000 <= a.omega0.raw < 0x80_0000 && -0x80_0000 <= a.omega.raw < 0x80_0000
    ensures -0x80_0000 <= a.m0.raw < 0x80_0000
    ensures -1024 <= a.af0.raw < 1024 && -1024 <= a.af1.raw < 1024
  {
    Pow2Table();
    assert Pow2(11) == 2048 && Pow2(23) == 0x80_0000 && Pow2(15) == 0x8000;
    var af0 := Concat(NavField(words, 10, 1, 8), 8, NavField(words, 10, 20, 3), 3);
    Almanac(
      NavField(words, 3, 3, 6),
      Scaled(NavField(words, 3, 9, 16), -21),
      Scaled(NavField(words, 4, 1, 8), 12),
      Scaled(Signed(NavField(words, 4, 9, 16), 16), -19),
      Scaled(Signed(NavField(words, 5, 1, 16), 16), -38),
      NavField(words, 5, 17, 8),
      Scaled(NavField(words, 6, 1, 24), -11),
      Scaled(Signed(NavField(words, 7, 1, 24), 24), -23),
      Scaled(Signed(NavField(words, 8, 1, 24), 24), -23),
      Scaled(Signed(NavField(words, 9, 1, 24), 24), -23),
      Scaled(Signed(af0, 11), -20),
      Scaled(Signed(NavField(words, 10, 9, 11), 11), -38))
  }

  // ---------------------------------------------------------------------------
  // NMCT: availability indicator and 30 estimated range deviations (ERDs)

  datatype Nmct = Nmct(ai: nat, erd: seq<nat>)

  /** `((hi >> 2) & 0x30) | ((lo >> 26) & 0x0f)`: an ERD whose top 2 bits end `hi` and low 4 bits start `lo`. */
  function ErdSpan(hi: Word, lo: Word): (r: nat)
    ensures r < 64
  {
    Pow2Table();
    Concat(Field(hi, 6, 2), 2, Field(lo, 26, 4), 4)
  }

  /** The four ERDs that end in word i: the one crossing into it, then three inside it. */
  function ErdGroup(words: seq<Word>, i: nat): (g: seq<nat>)
    requires 1 <= i < |words|
    ensures |g| == 4
  {
    [ErdSpan(words[i - 1], words[i]), Field(words[i], 20, 6), Field(words[i], 14, 6), Field(words[i], 8, 6)]
  }

  /** The ERD groups of words i .. i+n-1, in order. */
  function ErdGroups(words: seq<Word>, i: nat, n: nat): (gs: seq<nat>)
    requires 1 <= i && i + n <= |words|
    ensures |gs| == 4 * n
    decreases n
  {
    if n == 0 then [] else ErdGroups(words, i, n - 1) + ErdGroup(words, i + n - 1)
  }

  /** The NMCT as IS-GPS-200 lays it out: AI at word 3 bits 9-10, ERD k at stream bit 58 + 6k. */
  function NmctSpec(words: seq<Word>): (t: Nmct)
    requires PageWords <= |words|
    ensures |t.erd| == 30 && t.ai < 4
  {
    Pow2Table();
    Nmct(NavField(words, 3, 9, 2), StreamFields(words, 58, 6, 30))
  }

  /** ERD k (counted from 0) is the 6-bit field at stream bit 58 + 6k, below 64. */
  lemma NmctSpecErd(words: seq<Word>, k: nat)
    requires PageWords <= |words| && k < 30
    ensures NmctSpec(words).erd[k] == StreamField(words, 58 + 6 * k, 6) < 64
  {
    StreamFieldsIndex(words, 58, 6, 30, k, 58 + 6 * k);
  }

  /** The NMCT with AI at `words[2] >> 20` and ERD 1 at `words[2] >> 14`. */
  function DecodeNmct(words: seq<Word>): (t: Nmct)
    requires PageWords <= |words|
    ensures |t.erd| == 30 && t.ai < 4
  {
    Pow2Table();
    Nmct(Field(words[2], 20, 2), [Field(words[2], 14, 6), Field(words[2], 8, 6)] + ErdGroups(words, 3, 7))
  }

  /** The NMCT as the source reads it: AI at `words[2] >> 22`, ERD 1 at `words[2] >> 16`. */
  function DecodeNmctAsWritten(words: seq<Word>): (t: Nmct)
    requires PageWords <= |words|
    ensures |t.erd| == 30 && t.ai < 4
  {
    Pow2Table();
    Nmct(Field(words[2], 22, 2), [Field(words[2], 16, 6), Field(words[2], 8, 6)] + ErdGroups(words, 3, 7))
  }

  /** An ERD that crosses from word i-1 into word i is the 6 stream bits from bit 23 of word i-1. */
  lemma ErdSpanIsStream(words: seq<Word>, i: nat)
    requires 1 <= i < |words|
    ensures ErdSpan(words[i - 1], words[i]) == StreamField(words, 24 * i - 2, 6)
  {
    CrossWord(words, i - 1, 2, 4);
    assert 24 * (i - 1) + 24 - 2 == 24 * i - 2 && i - 1 + 1 == i;
  }

  /** The four ERDs that end in word i are the 6-bit stream fields from bit 23 of word i-1 on. */
  lemma ErdGroupLayout(words: seq<Word>, i: nat, p: nat)
    requires 1 <= i < |words| && p == 24 * i - 2
    ensures ErdGroup(words, i) == StreamFields(words, p, 6, 4)
  {
    ErdSpanIsStream(words, i);
    StreamFieldAt(words, p + 6, i, 20, 6);
    StreamFieldAt(words, p + 12, i, 14, 6);
    StreamFieldAt(words, p + 18, i, 8, 6);
    assert StreamFields(words, p + 18, 6, 1) == [StreamField(words, p + 18, 6)];
    assert StreamFields(words, p + 12, 6, 2) == [StreamField(words, p + 12, 6)] + StreamFields(words, p + 18, 6, 1);
    assert StreamFields(words, p + 6, 6, 3) == [StreamField(words, p + 6, 6)] + StreamFields(words, p + 12, 6, 2);
  }

  /** A run of ERD groups extended by the next group is the run of stream fields four longer. */
  lemma ErdGroupsSnoc(words: seq<Word>, i: nat, n: nat, p: nat, count: nat, q: nat)
    requires 1 <= i && 1 <= n && i + n <= |words| && p == 24 * i - 2 && count == 4 * n && q == p + 24 * (n - 1)
    requires ErdGroups(words, i, n - 1) == StreamFields(words, p, 6, count - 4)
    ensures ErdGroups(words, i, n) == StreamFields(words, p, 6, count)
  {
    ErdGroupLayout(words, i + n - 1, q);
    StreamFieldsAppend(words, p, q, 6, count - 4, 4, count);
    assert ErdGroups(words, i, n) == ErdGroups(words, i, n - 1) + ErdGroup(words, i + n - 1);
  }

  /** The ERDs of words i .. i+n-1 are the 4n consecutive 6-bit stream fields from bit 23 of word i-1. */
  lemma {:induction false} ErdGroupsLayout(words: seq<Word>, i: nat, n: nat, p: nat, count: nat)
    requires 1 <= i && i + n <= |words| && p == 24 * i - 2 && count == 4 * n
    ensures ErdGroups(words, i, n) == StreamFields(words, p, 6, count)
    decreases n
  {
    if n > 0 {
      ErdGroupsLayout(words, i, n - 1, p, count - 4);
      ErdGroupsSnoc(words, i, n, p, count, p + 24 * (n - 1));
    } else {
      assert ErdGroups(words, i, n) == StreamFields(words, p, 6, count);
    }
  }

  /** Corrected NMCT decode agrees with IS-GPS-200 on the AI and on all 30 ERDs. */
  lemma NmctLayout(words: seq<Word>)
    requires PageWords <= |words|
    ensures DecodeNmct(words) == NmctSpec(words)
  {
    NavFieldInWord(words, 3, 9, 2);
    StreamFieldAt(words, 58, 2, 14, 6);
    StreamFieldAt(words, 64, 2, 8, 6);
    ErdGroupsLayout(words, 3, 7, 70, 28);
    StreamFieldsAppend(words, 58, 70, 6, 2, 28, 30);
    StreamFieldsPair(words, 58, 64, 6);
  }

  /**
   * The as-written NMCT differs from IS-GPS-200 only in the AI, which it takes from
   * the low two bits of the SV ID, and in ERD 1, which it takes four bits early.
   */
  lemma NmctAsWrittenLayout(words: seq<Word>)
    requires PageWords <= |words|
    ensures var spec := NmctSpec(words);
      DecodeNmctAsWritten(words) == spec.(ai := NavField(words, 3, 7, 2), erd := spec.erd[0 := NavField(words, 3, 9, 6)])
  {
    NavFieldInWord(words, 3, 7, 2);
    NavFieldInWord(words, 3, 9, 6);
    NmctLayout(words);
    NmctAsWrittenDiffers(words);
  }

  /** The two NMCT decodes differ only in the AI and in ERD 1. */
  lemma NmctAsWrittenDiffers(words: seq<Word>)
    requires PageWords <= |words|
    ensures var t := DecodeNmct(words);
      DecodeNmctAsWritten(words) == t.(ai := Field(words[2], 22, 2), erd := t.erd[0 := Field(words[2], 16, 6)])
  {
    UpdateHead(Field(words[2], 14, 6), Field(words[2], 8, 6), Field(words[2], 16, 6), ErdGroups(words, 3, 7));
  }

  /** AI 1 and all ERDs 0: the source reports AI 0 and ERD 1 as 16. */
  lemma NmctAiMisread(words: seq<Word>)
    requires |words| == 10 && words[2] == 0x10_0000
    ensures DecodeNmct(words).ai == 1 && DecodeNmct(words).erd[0] == 0
    ensures DecodeNmctAsWritten(words).ai == 0 && DecodeNmctAsWritten(words).erd[0] == 16
  {
    Pow2Table();
    assert Pow2(20) == 0x10_0000 by { Pow2Add(16, 4); }
    assert Shr(words[2], 20) == 1;
    assert Shr(words[2], 22) == 0;
    assert Shr(words[2], 16) == 16;
    assert Shr(words[2], 14) == 64;
  }

  // ---------------------------------------------------------------------------
  // Special message: 22 eight-bit characters

  /** The three characters of word i, most significant first. */
  function CharGroup(w: Word): (g: seq<nat>)
    ensures |g| == 3
  {
    [Field(w, 22, 8), Field(w, 14, 8), Field(w, 6, 8)]
  }

  /** The characters of words i .. i+n-1, in order. */
  function CharGroups(words: seq<Word>, i: nat, n: nat): (cs: seq<nat>)
    requires i + n <= |words|
    ensures |cs| == 3 * n
    decreases n
  {
    if n == 0 then [] else CharGroup(words[i]) + CharGroups(words, i + 1, n - 1)
  }

  /** The special message as the source reads it: two characters from word 3, three from each of words 4-9, two from word 10. */
  function DecodeSpecialMessage(words: seq<Word>): (m: seq<nat>)
    requires PageWords <= |words|
    ensures |m| == 22
  {
    [Field(words[2], 14, 8), Field(words[2], 6, 8)]
      + (CharGroups(words, 3, 6) + [Field(words[9], 22, 8), Field(words[9], 14, 8)])
  }

  /** The special message as IS-GPS-200 lays it out: character k at stream bit 56 + 8k. */
  function SpecialMessageSpec(words: seq<Word>): (m: seq<nat>)
    requires PageWords <= |words|
    ensures |m| == 22
  {
    StreamFields(words, 56, 8, 22)
  }

  /** Character k (counted from 0) is the 8-bit field at stream bit 56 + 8k. */
  lemma SpecialMessageSpecChar(words: seq<Word>, k: nat)
    requires PageWords <= |words| && k < 22
    ensures SpecialMessageSpec(words)[k] == StreamField(words, 56 + 8 * k, 8) < 256
  {
    StreamFieldsIndex(words, 56, 8, 22, k, 56 + 8 * k);
  }

  lemma CharGroupLayout(words: seq<Word>, i: nat, p: nat)
    requires i < |words| && p == 24 * i
    ensures CharGroup(words[i]) == StreamFields(words, p, 8, 3)
  {
    StreamFieldAt(words, p, i, 22, 8);
    StreamFieldAt(words, p + 8, i, 14, 8);
    StreamFieldAt(words, p + 16, i, 6, 8);
    assert StreamFields(words, p + 16, 8, 1) == [StreamField(words, p + 16, 8)];
    assert StreamFields(words, p + 8, 8, 2) == [StreamField(words, p + 8, 8)] + StreamFields(words, p + 16, 8, 1);
  }

  /** The characters of words i .. i+n-1 are the 3n consecutive 8-bit stream fields of those words. */
  lemma {:induction false} CharGroupsLayout(words: seq<Word>, i: nat, n: nat, p: nat, count: nat)
    requires i + n <= |words| && p == 24 * i && count == 3 * n
    ensures CharGroups(words, i, n) == StreamFields(words, p, 8, count)
    decreases n
  {
    if n > 0 {
      CharGroupsLayout(words, i + 1, n - 1, p + 24, count - 3);
      CharGroupLayout(words, i, p);
      StreamFieldsAppend(words, p, p + 24, 8, 3, count - 3, count);
    }
  }

  /** The 22 characters are read in transmission order, none skipped or repeated. */
  lemma SpecialMessageLayout(words: seq<Word>)
    requires PageWords <= |words|
    ensures DecodeSpecialMessage(words) == SpecialMessageSpec(words)
  {
    StreamFieldAt(words, 56, 2, 14, 8);
    StreamFieldAt(words, 64, 2, 6, 8);
    StreamFieldAt(words, 216, 9, 22, 8);
    StreamFieldAt(words, 224, 9, 14, 8);
    CharGroupsLayout(words, 3, 6, 72, 18);
    StreamFieldsAppend(words, 56, 72, 8, 2, 20, 22);
    StreamFieldsAppend(words, 72, 216, 8, 18, 2, 20);
    StreamFieldsPair(words, 56, 64, 8);
    StreamFieldsPair(words, 216, 224, 8);
  }

  // ---------------------------------------------------------------------------
  // Ionospheric and UTC parameters (page 18)

  datatype IonoUtc = IonoUtc(
    alpha: seq<nat>, beta: seq<nat>, a1: nat, a0: nat, tot: nat, wnt: nat,
    deltaTls: nat, wnLsf: nat, dn: nat, deltaTlsf: nat)

  /** `((w << 2) & 0xffffff00)`: the 24 data bits of `w`, moved up to bits 31..8. */
  function DataBitsShifted(w: Word): (r: nat)
    ensures r == Field(w, 6, 24) * 256
  {
    Pow2Table();
    ShiftedField(w);
    Field(w * 4, 8, 24) * 256
  }

  lemma ShiftedField(w: nat)
    ensures Field(w * 4, 8, 24) == Field(w, 6, 24)
  {
    Pow2Table();
    assert Pow2(6) == 64;
    DivModUnique(w * 4, 256, w / 64, 4 * (w % 64));
  }

  /** The fields after the eight ionospheric coefficients, as the source reads them. */
  function UtcFields(words: seq<Word>, alpha: seq<nat>, beta: seq<nat>): IonoUtc
    requires PageWords <= |words|
  {
    IonoUtc(alpha, beta,
      Field(words[5], 6, 24),
      DataBitsShifted(words[6]) + Field(words[7], 22, 8),
      Field(words[7], 14, 8), Field(words[7], 6, 8),
      Field(words[8], 22, 8), Field(words[8], 14, 8), Field(words[8], 6, 8),
      Field(words[9], 22, 8))
  }

  /** Page 18 with the coefficients in IS-GPS-200 order: alpha 0-3 from word 3 bit 9, beta 0-3 from word 4 bit 17. */
  function DecodeIonoUtc(words: seq<Word>): (u: IonoUtc)
    requires PageWords <= |words|
    ensures |u.alpha| == 4 && |u.beta| == 4
  {
    UtcFields(words,
      [Field(words[2], 14, 8), Field(words[2], 6, 8), Field(words[3], 22, 8), Field(words[3], 14, 8)],
      [Field(words[3], 6, 8), Field(words[4], 22, 8), Field(words[4], 14, 8), Field(words[4], 6, 8)])
  }

  /** Page 18 as the source reads it: alpha 0 and 1 exchanged, beta 1-3 taken in the order 3, 1, 2. */
  function DecodeIonoUtcAsWritten(words: seq<Word>): (u: IonoUtc)
    requires PageWords <= |words|
    ensures |u.alpha| == 4 && |u.beta| == 4
  {
    UtcFields(words,
      [Field(words[2], 6, 8), Field(words[2], 14, 8), Field(words[3], 22, 8), Field(words[3], 14, 8)],
      [Field(words[3], 6, 8), Field(words[4], 6, 8), Field(words[4], 22, 8), Field(words[4], 14, 8)])
  }

  /** Page 18 as IS-GPS-200 lays it out (Figure 20-1, sheet 8). */
  function IonoUtcSpec(words: seq<Word>): IonoUtc
    requires PageWords <= |words|
  {
    IonoUtc(
      StreamFields(words, 56, 8, 4),
      StreamFields(words, 88, 8, 4),
      NavField(words, 6, 1, 24), NavField(words, 7, 1, 32),
      NavField(words, 8, 9, 8), NavField(words, 8, 17, 8),
      NavField(words, 9, 1, 8), NavField(words, 9, 9, 8), NavField(words, 9, 17, 8),
      NavField(words, 10, 1, 8))
  }

  /** A0 is the 24 data bits of word 7 above the first 8 of word 8: 32 stream bits from word 7 bit 1. */
  lemma A0IsStream(words: seq<Word>)
    requires PageWords <= |words|
    ensures DataBitsShifted(words[6]) + Field(words[7], 22, 8) == NavField(words, 7, 1, 32)
  {
    CrossWord(words, 6, 24, 8);
    Pow2Table();
  }

  /** The UTC parameters after the coefficients sit at their IS-GPS-200 positions. */
  lemma UtcFieldsLayout(words: seq<Word>, alpha: seq<nat>, beta: seq<nat>)
    requires PageWords <= |words|
    ensures var u := UtcFields(words, alpha, beta);
      && u.alpha == alpha && u.beta == beta
      && u.a1 == NavField(words, 6, 1, 24) && u.a0 == NavField(words, 7, 1, 32)
      && u.tot == NavField(words, 8, 9, 8) && u.wnt == NavField(words, 8, 17, 8)
      && u.deltaTls == NavField(words, 9, 1, 8) && u.wnLsf == NavField(words, 9, 9, 8)
      && u.dn == NavField(words, 9, 17, 8) && u.deltaTlsf == NavField(words, 10, 1, 8)
  {
    NavFieldInWord(words, 6, 1, 24);
    A0IsStream(words);
    UtcTimesLayout(words);
  }

  /** The reference time, week and leap second fields: one byte each, in words 8-10. */
  lemma UtcTimesLayout(words: seq<Word>)
    requires PageWords <= |words|
    ensures Field(words[7], 14, 8) == NavField(words, 8, 9, 8) && Field(words[7], 6, 8) == NavField(words, 8, 17, 8)
    ensures Field(words[8], 22, 8) == NavField(words, 9, 1, 8) && Field(words[8], 14, 8) == NavField(words, 9, 9, 8)
    ensures Field(words[8], 6, 8) == NavField(words, 9, 17, 8) && Field(words[9], 22, 8) == NavField(words, 10, 1, 8)
  {
    NavFieldInWord(words, 8, 9, 8);
    NavFieldInWord(words, 8, 17, 8);
    NavFieldInWord(words, 9, 1, 8);
    NavFieldInWord(words, 9, 9, 8);
    NavFieldInWord(words, 9, 17, 8);
    NavFieldInWord(words, 10, 1, 8);
  }

  /** Corrected page 18 decode agrees with IS-GPS-200 on every field. */
  lemma IonoUtcLayout(words: seq<Word>)
    requires PageWords <= |words|
    ensures DecodeIonoUtc(words) == IonoUtcSpec(words)
  {
    var d, spec := DecodeIonoUtc(words), IonoUtcSpec(words);
    StreamFieldAt(words, 56, 2, 14, 8);
    StreamFieldAt(words, 64, 2, 6, 8);
    StreamFieldAt(words, 72, 3, 22, 8);
    StreamFieldAt(words, 80, 3, 14, 8);
    StreamFieldAt(words, 88, 3, 6, 8);
    StreamFieldAt(words, 96, 4, 22, 8);
    StreamFieldAt(words, 104, 4, 14, 8);
    StreamFieldAt(words, 112, 4, 6, 8);
    StreamFieldsQuad(words, 56, 64, 72, 80, 8);
    StreamFieldsQuad(words, 88, 96, 104, 112, 8);
    UtcFieldsLayout(words, d.alpha, d.beta);
  }

  /** The as-written coefficients are the IS-GPS-200 ones, permuted. */
  lemma IonoUtcAsWrittenLayout(words: seq<Word>)
    requires PageWords <= |words|
    ensures var d, spec := DecodeIonoUtcAsWritten(words), IonoUtcSpec(words);
      && d.alpha == [spec.alpha[1], spec.alpha[0], spec.alpha[2], spec.alpha[3]]
      && d.beta == [spec.beta[0], spec.beta[3], spec.beta[1], spec.beta[2]]
      && d == spec.(alpha := d.alpha, beta := d.beta)
  {
    IonoUtcLayout(words);
    UtcFieldsLayout(words, DecodeIonoUtcAsWritten(words).alpha, DecodeIonoUtcAsWritten(words).beta);
  }

  /** An alpha 0 of 1 and every other field 0: the source reports alpha 0 as 0 and alpha 1 as 1. */
  lemma IonoAlphaMisread(words: seq<Word>)
    requires |words| == 10 && words[2] == 0x4000
    ensures DecodeIonoUtc(words).alpha[0] == 1 && DecodeIonoUtcAsWritten(words).alpha[0] == 0
  {
    Pow2Table();
    assert Shr(words[2], 14) == 1;
    assert Shr(words[2], 6) == 256;
  }
}
