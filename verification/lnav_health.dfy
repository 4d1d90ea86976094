/**
 * Page 25 of subframes 4 and 5: the anti-spoof (A-S) flags and SV
 * configurations of SVs 1-32 with the health of SVs 25-32 (subframe 4), and
 * the almanac reference time and week with the health of SVs 1-24
 * (subframe 5). The receiver collects each list with a run of appends; the
 * methods below do the same and are proved to collect the consecutive fields
 * of the data-bit stream that IS-GPS-200 (Figure 20-1, sheets 4 and 5) assigns.
 */
module LnavHealth {
  import opened NavBits

  /** Words subframe 4 page 25 reads. */
  const Sf4HealthWords := 10
  /** Words subframe 5 page 25 reads (words[2] .. words[8]). */
  const Sf5HealthWords := 9

  /** Stream position of the 4-bit A-S/configuration field of SV 1 (word 3, bit 9). */
  const AspoofStart := 56
  /** Stream position of the 6-bit health of SV 25 (word 8, bit 19). */
  const Sf4HealthStart := 186
  /** Stream position of the 6-bit health of SV 1 (word 4, bit 1). */
  const Sf5HealthStart := 72

  /**
   * The 32 A-S/configuration fields of subframe 4 page 25: the consecutive 4-bit
   * fields from word 3 bit 9 (SV 1) to word 8 bit 12 (SV 32).
   */
  method CollectAspoof(words: seq<Word>) returns (aspoof: seq<nat>)
    requires Sf4HealthWords <= |words|
    ensures aspoof == StreamFields(words, AspoofStart, 4, 32)
  {
    // k counts the fields collected so far; after each append the list is the run of k.
    ghost var k := 0;
    aspoof := [];
    aspoof := aspoof + [Field(words[2], 18, 4)];
    StreamFieldsSnoc(words, AspoofStart, 4, k, k + 1, 2, 18);
    k := k + 1;
    aspoof := aspoof + [Field(words[2], 14, 4)];
    StreamFieldsSnoc(words, AspoofStart, 4, k, k + 1, 2, 14);
    k := k + 1;
    aspoof := aspoof + [Field(words[2], 10, 4)];
    StreamFieldsSnoc(words, AspoofStart, 4, k, k + 1, 2, 10);
    k := k + 1;
    aspoof := aspoof + [Field(words[2], 6, 4)];
    StreamFieldsSnoc(words, AspoofStart, 4, k, k + 1, 2, 6);
    k := k + 1;
    for i := 3 to 7
      invariant k == 4 + 6 * (i - 3)
      invariant aspoof == StreamFields(words, AspoofStart, 4, k)
    {
      aspoof := aspoof + [Field(words[i], 26, 4)];
      StreamFieldsSnoc(words, AspoofStart, 4, k, k + 1, i, 26);
      k := k + 1;
      aspoof := aspoof + [Field(words[i], 22, 4)];
      StreamFieldsSnoc(words, AspoofStart, 4, k, k + 1, i, 22);
      k := k + 1;
      aspoof := aspoof + [Field(words[i], 18, 4)];
      StreamFieldsSnoc(words, AspoofStart, 4, k, k + 1, i, 18);
      k := k + 1;
      aspoof := aspoof + [Field(words[i], 14, 4)];
      StreamFieldsSnoc(words, AspoofStart, 4, k, k + 1, i, 14);
      k := k + 1;
      aspoof := aspoof + [Field(words[i], 10, 4)];
      StreamFieldsSnoc(words, AspoofStart, 4, k, k + 1, i, 10);
      k := k + 1;
      aspoof := aspoof + [Field(words[i], 6, 4)];
      StreamFieldsSnoc(words, AspoofStart, 4, k, k + 1, i, 6);
      k := k + 1;
    }
    aspoof := aspoof + [Field(words[7], 26, 4)];
    StreamFieldsSnoc(words, AspoofStart, 4, k, k + 1, 7, 26);
    k := k + 1;
    aspoof := aspoof + [Field(words[7], 22, 4)];
    StreamFieldsSnoc(words, AspoofStart, 4, k, k + 1, 7, 22);
    k := k + 1;
    aspoof := aspoof + [Field(words[7], 18, 4)];
    StreamFieldsSnoc(words, AspoofStart, 4, k, k + 1, 7, 18);
    k := k + 1;
    aspoof := aspoof + [Field(words[7], 14, 4)];
    StreamFieldsSnoc(words, AspoofStart, 4, k, k + 1, 7, 14);
    k := k + 1;
  }

  /** The health of SVs 25-32 on subframe 4 page 25: the consecutive 6-bit fields from word 8 bit 19. */
  method CollectSf4Health(words: seq<Word>) returns (sv: seq<nat>)
    requires Sf4HealthWords <= |words|
    ensures sv == StreamFields(words, Sf4HealthStart, 6, 8)
  {
    ghost var k := 0;
    sv := [];
    sv := sv + [Field(words[7], 6, 6)];
    StreamFieldsSnoc(words, Sf4HealthStart, 6, k, k + 1, 7, 6);
    k := k + 1;
    sv := sv + [Field(words[8], 24, 6)];
    StreamFieldsSnoc(words, Sf4HealthStart, 6, k, k + 1, 8, 24);
    k := k + 1;
    sv := sv + [Field(words[8], 18, 6)];
    StreamFieldsSnoc(words, Sf4HealthStart, 6, k, k + 1, 8, 18);
    k := k + 1;
    sv := sv + [Field(words[8], 12, 6)];
    StreamFieldsSnoc(words, Sf4HealthStart, 6, k, k + 1, 8, 12);
    k := k + 1;
    sv := sv + [Field(words[8], 6, 6)];
    StreamFieldsSnoc(words, Sf4HealthStart, 6, k, k + 1, 8, 6);
    k := k + 1;
    sv := sv + [Field(words[9], 24, 6)];
    StreamFieldsSnoc(words, Sf4HealthStart, 6, k, k + 1, 9, 24);
    k := k + 1;
    sv := sv + [Field(words[9], 18, 6)];
    StreamFieldsSnoc(words, Sf4HealthStart, 6, k, k + 1, 9, 18);
    k := k + 1;
    sv := sv + [Field(words[9], 12, 6)];
    StreamFieldsSnoc(words, Sf4HealthStart, 6, k, k + 1, 9, 12);
  }

  /**
   * Subframe 4 page 25: the A-S/configuration list, then the health list, each
   * the run of fields IS-GPS-200 assigns, of 4 and 6 bits.
   */
  method DecodeSf4Health(words: seq<Word>) returns (aspoof: seq<nat>, sv: seq<nat>)
    requires Sf4HealthWords <= |words|
    ensures aspoof == StreamFields(words, AspoofStart, 4, 32)
    ensures sv == StreamFields(words, Sf4HealthStart, 6, 8)
    ensures |aspoof| == 32 && forall f <- aspoof :: f < 16
    ensures |sv| == 8 && forall h <- sv :: h < 64
  {
    aspoof := CollectAspoof(words);
    sv := CollectSf4Health(words);
    Pow2Table();
    StreamFieldsBelow(words, AspoofStart, 4, 32);
    StreamFieldsBelow(words, Sf4HealthStart, 6, 8);
  }

  /**
   * Subframe 5 page 25. `toa` and `WNa` are word 3 bits 9-16 and 17-24; the 24
   * health values are the consecutive 6-bit fields from word 4 bit 1.
   */
  method DecodeSf5Health(words: seq<Word>) returns (toa: nat, wna: nat, sv: seq<nat>)
    requires Sf5HealthWords <= |words|
    ensures toa == NavField(words, 3, 9, 8) && wna == NavField(words, 3, 17, 8)
    ensures sv == StreamFields(words, Sf5HealthStart, 6, 24)
    ensures toa < 256 && wna < 256
    ensures |sv| == 24 && forall h <- sv :: h < 64
  {
    toa := Field(words[2], 14, 8);
    wna := Field(words[2], 6, 8);
    NavFieldInWord(words, 3, 9, 8);
    NavFieldInWord(words, 3, 17, 8);
    ghost var k := 0;
    sv := [];
    for i := 3 to 9
      invariant k == 4 * (i - 3)
      invariant sv == StreamFields(words, Sf5HealthStart, 6, k)
    {
      sv := sv + [Field(words[i], 24, 6)];
      StreamFieldsSnoc(words, Sf5HealthStart, 6, k, k + 1, i, 24);
      k := k + 1;
      sv := sv + [Field(words[i], 18, 6)];
      StreamFieldsSnoc(words, Sf5HealthStart, 6, k, k + 1, i, 18);
      k := k + 1;
      sv := sv + [Field(words[i], 12, 6)];
      StreamFieldsSnoc(words, Sf5HealthStart, 6, k, k + 1, i, 12);
      k := k + 1;
      sv := sv + [Field(words[i], 6, 6)];
      StreamFieldsSnoc(words, Sf5HealthStart, 6, k, k + 1, i, 6);
      k := k + 1;
    }
    Pow2Table();
    StreamFieldsBelow(words, Sf5HealthStart, 6, 24);
  }

  /** Bit 3 of an A-S/configuration field: anti-spoofing on. */
  predicate AntiSpoofOn(f: nat)
  {
    Bit(f, 3)
  }

  /** Bits 0-2 of an A-S/configuration field: the SV configuration code. */
  function SvConfig(f: nat): (c: nat)
    ensures c < 8
  {
    assert Pow2(3) == 8;
    Field(f, 0, 3)
  }

  /** A 4-bit A-S/configuration field is exactly its A-S flag above its configuration code. */
  lemma AspoofFieldParts(f: nat)
    requires f < 16
    ensures f == (if AntiSpoofOn(f) then 8 else 0) + SvConfig(f)
  {
    LowNibble(f);
    FieldStep(f, 0, 2);
    FieldStep(f, 1, 1);
    assert Pow2(1) == 2;
  }
}
