# u-blox RXM navigation-word decoding, modelled in Dafny

This project models the core of a Python u-blox UBX decoder. It covers two message
classes:

- **RXM-SFRBX**, which carries the raw navigation words a receiver broadcasts.
- **RXM-RAWX**, which carries the raw measurements.

For SFRBX the model covers:

- the message schema;
- rebuilding the word list from the repeated `dwrd` fields;
- building the SFRBX frame object, which classifies a GPS subframe by the top byte
  of its first word (0x8B: a CNAV message; anything else: an LNAV subframe);
- the full GPS LNAV subframe decoder:
  - the TLM/HOW header;
  - subframe 1 (clock);
  - subframes 2 and 3 (ephemeris);
  - the paged subframes 4 and 5, selected by the 6-bit SV ID of word 3: almanac,
    NMCT, special message, ionospheric/UTC, and the two page-25 health pages.

For RAWX the model covers the schema's version check, the bitmask fields and the
readable `frame`.

Words are unsigned 32-bit integers (`NavBits.Word`). Every field is read with the
decoder's own shift-and-mask (`NavBits.Field`). Each decoder is then proved against
an independent reference. That reference is the LNAV data-bit stream, numbered as
IS-GPS-200 numbers it:

- each 30-bit LNAV word contributes its 24 data bits, bits 29..6 of the u-blox word;
- `NavField(words, word, bit, width)` is the field of `width` bits starting at bit
  `bit` (1..24) of word `word` (1..10).

The layout lemmas state that every decoded field is the field IS-GPS-200 places
there. Where the decoder reads something else, a Findings row records it. For each
such row, an as-written member and a counterexample lemma show the difference, and
the decode pipeline uses the corrected member.

Modules, one per file:

- `Wrappers` (`wrappers.dfy`)
- `Tables` (`tables.dfy`)
- `NavBits` (`bits.dfy`)
- `LnavHeader`, `LnavEphemeris`, `LnavPages`, `LnavHealth`, `LnavDecode` (the
  `lnav_*.dfy` files)
- `Sfrbx` (`sfrbx.dfy`)
- `Rxm` (`rxm.dfy`)

The frame constructor (`ubx/UBX/SFRBX.py:30-33`) builds the CNAV object exactly when
the top byte of the first word equals the constant `GPS_L1CA_PREAMBLE`, 0x8B
(`ubx/UBX/SFRBX.py:4`); every other GPS frame is decoded as LNAV.
`Sfrbx.LnavPreambleTakesLnavBranch` shows that this is consistent: a right-aligned
LNAV word whose preamble bits hold 0x8B has top byte 0x22 (modulo the padding bits),
so it takes the LNAV branch.

## Model

| member | source | states |
|---|---|---|
| Tables.GnssRaw | ubx/Tables.py:5-12 | The raw `gnssId` byte of a constellation is at most 6, and it is 0 exactly for GPS. |
| Tables.GnssFromRaw | ubx/Tables.py:5-12 | The enum decode accepts exactly the raw values 0..6. It returns the constellation whose raw byte is the input, and rejects any other value with `InvalidValue("gnssId", raw)`. |
| Tables.GnssRoundTrip | ubx/Tables.py:5-12 | Encoding a constellation and decoding it back gives that constellation. |
| Tables.NavSubframeRaw | ubx/Tables.py:14-16 | The subframe kinds are numbered 0 and 1, and 1 is exactly GPS_CNAV. |
| Tables.Sf4PageSvid | ubx/UBX/SFRBX.py:142-150 | Every subframe 4 page 1..25 carries a nonzero 6-bit SV ID (IS-GPS-200 Table 20-V), and no other page number does. |
| Tables.Sf5PageSvid | ubx/UBX/SFRBX.py:323-327 | Every subframe 5 page 1..25 carries a nonzero 6-bit SV ID (SVs 1-24, then 51), and no other page number does. |
| Tables.Sf4Page | ubx/UBX/SFRBX.py:156 | The SV ID to page lookup finds a page in 1..25 that carries that SV ID, and finds nothing exactly when the SV ID is not in the table. |
| Tables.Sf5Page | ubx/UBX/SFRBX.py:327 | The same for subframe 5. |
| Tables.Sf4PageInverts | ubx/UBX/SFRBX.py:142-156 | Looking up the SV ID of any page always succeeds. It returns the page itself, except for reserved pages that share an SV ID with an earlier page. |
| Tables.Sf5PageInverts | ubx/UBX/SFRBX.py:323-327 | The subframe 5 lookup exactly inverts the page's SV ID. |
| Tables.Sf5AlmanacSvids | ubx/UBX/SFRBX.py:323-327 | For every SV ID up to 32, subframe 5 finds SVs 1..24 on their own page and finds neither the dummy SV ID 0 nor SVs 25..32. |
| Tables.Sf4AlmanacSvids | ubx/UBX/SFRBX.py:142-156 | For every SV ID up to 32, subframe 4 finds SVs 25..28 on pages 2..5 and SVs 29..32 on pages 7..10, and finds neither the dummy SV ID 0 nor SVs 1..24. |
| NavBits.Field | ubx/UBX/SFRBX.py:61 | `(w >> shift) & mask` is below 2^width. |
| NavBits.Signed | ubx/UBX/SFRBX.py:75 | The two's-complement reading lies in [-2^(w-1), 2^(w-1)) and is congruent to the raw field modulo 2^w. |
| NavBits.SignedTopBit | ubx/UBX/SFRBX.py:75 | A signed field is negative exactly when its top bit is set, and then it equals raw - 2^w. |
| NavBits.SignedField | ubx/UBX/SFRBX.py:75 | A signed field read by shift-and-mask is in range, and its residue is the unsigned field. |
| NavBits.Concat | ubx/UBX/SFRBX.py:63-64 | hi shifted left by n and or-ed with a lo below 2^n is split back by `/ 2^n` and `% 2^n` into hi and lo. |
| NavBits.SpanU32 | ubx/UBX/SFRBX.py:105 | A 32-bit field made of 8 bits from one word and 24 from the next is below 2^32. |
| NavBits.SpanS32 | ubx/UBX/SFRBX.py:103 | `unpack_s32s`: the two's-complement reading of `SpanU32`. It has no ensures of its own; `Signed` bounds it, and `Ephemeris1Layout`/`Ephemeris2Layout` place it in the stream. |
| LnavHeader.SubframeId | ubx/UBX/SFRBX.py:41 | The subframe id is a 3-bit value. |
| LnavHeader.Tow | ubx/UBX/SFRBX.py:47 | The time of week is a multiple of 6 seconds below 6 * 2^17. |
| LnavHeader.Preamble | ubx/UBX/SFRBX.py:40 | The unmasked `>> 22` of a 32-bit word is below 1024. |
| LnavHeader.DecodeHeader | ubx/UBX/SFRBX.py:40-50 | Bounds on every header field of the corrected header. |
| LnavHeader.HeaderLayout | ubx/UBX/SFRBX.py:40-50 | Every corrected header field is its IS-GPS-200 field: preamble in TLM bits 1-8 (with the padding bits above), TLM message in bits 9-22, ISF in bit 23, TOW count in HOW bits 1-17, alert in HOW bit 18, A-S in HOW bit 19, subframe id in HOW bits 20-22. |
| LnavHeader.HeaderAsWritten | ubx/UBX/SFRBX.py:42-50 | Bounds on the header as the source reads it. The TLM message is 16 bits wide. |
| LnavHeader.HeaderAsWrittenLayout | ubx/UBX/SFRBX.py:42-49 | The as-written header differs from the corrected one only in four fields: the TLM message carries two preamble bits, the ISF is reserved TLM bit 24, and the alert and A-S flags are TLM bits 18 and 19. |
| LnavHeader.AlertReadFromTlm | ubx/UBX/SFRBX.py:48 | For a concrete input the source reports an alert that the HOW does not carry. |
| LnavHeader.TlmMessageTakesPreambleBits | ubx/UBX/SFRBX.py:43 | For a concrete input the source's TLM message includes a preamble bit. |
| LnavHeader.IntegrityReadFromReservedBit | ubx/UBX/SFRBX.py:44 | For a concrete input the source reports the ISF clear although bit 23 is set. |
| LnavEphemeris.WeekNumber | ubx/UBX/SFRBX.py:67 | The unmasked `>> 20` week number is below 4096. |
| LnavEphemeris.Iodc | ubx/UBX/SFRBX.py:63-64 | The corrected IODC is a 10-bit value. |
| LnavEphemeris.IodcLayout | ubx/UBX/SFRBX.py:63-64 | The corrected IODC is word 3 bits 23-24 above word 8 bits 1-8. |
| LnavEphemeris.IodcAsWritten | ubx/UBX/SFRBX.py:63-64 | The as-written IODC is a 10-bit value. |
| LnavEphemeris.IodcAsWrittenLayout | ubx/UBX/SFRBX.py:64 | The as-written low byte is word 8's two padding bits above its data bits 1-6. |
| LnavEphemeris.IodcLowByteMisread | ubx/UBX/SFRBX.py:64 | For a concrete word 8 the IODC is 3, but the source reads 0. |
| LnavEphemeris.ClockLayout | ubx/UBX/SFRBX.py:52-79 | Every subframe 1 field is its IS-GPS-200 Table 20-I field: WN, codes on L2, URA, health, IODC, L2 P flag, and the signed TGD, af2, af1, af0 and unsigned tOC with their scale exponents. |
| LnavEphemeris.DecodeClock | ubx/UBX/SFRBX.py:61-79 | Subframe 1 read by shift-and-mask, with the corrected IODC and L2 P flag. It has no ensures of its own; `ClockLayout` states that every field is its Table 20-I field. |
| LnavEphemeris.DecodeClockAsWritten | ubx/UBX/SFRBX.py:61-79 | Subframe 1 as the source reads it. It has no ensures of its own; `ClockAsWrittenLayout` states how it differs. |
| LnavEphemeris.ClockAsWrittenLayout | ubx/UBX/SFRBX.py:74 | Subframe 1 as written differs only in the IODC and the L2 P flag. The flag is a padding bit above the week number's top bit. |
| LnavEphemeris.L2pFlagMisread | ubx/UBX/SFRBX.py:74 | For a concrete input the L2 P flag is 0, but the source reads 1. |
| LnavEphemeris.DecodeEphemeris1 | ubx/UBX/SFRBX.py:96-108 | Subframe 2 as the source reads it. It has no ensures of its own; `Ephemeris1Layout` places every field. |
| LnavEphemeris.Ephemeris1Layout | ubx/UBX/SFRBX.py:81-108 | Every subframe 2 field is its IS-GPS-200 field. This includes the 32-bit M0, e and sqrtA, which cross a word boundary, each with its sign and scale. |
| LnavEphemeris.DecodeEphemeris2 | ubx/UBX/SFRBX.py:126-139 | Subframe 3 as the source reads it. It has no ensures of its own; `Ephemeris2Layout` places every field. |
| LnavEphemeris.Ephemeris2Layout | ubx/UBX/SFRBX.py:110-139 | Every subframe 3 field is its IS-GPS-200 field, each with its sign and scale. |
| LnavPages.DecodeAlmanac | ubx/UBX/SFRBX.py:164 | The range of every almanac field. The body is itself the reference definition: each field is a `NavField` at its IS-GPS-200 Table 20-VI position, with no separate decode to compare it to. |
| LnavPages.ErdSpan | ubx/UBX/SFRBX.py:179-180 | An ERD split over two words is a 6-bit value. |
| LnavPages.ErdGroup | ubx/UBX/SFRBX.py:179-183 | The four ERDs that end in one word. `ErdGroupLayout` states that they are consecutive stream fields. |
| LnavPages.ErdGroups | ubx/UBX/SFRBX.py:179-213 | The ERD groups of a run of words, four per word. `ErdGroupsLayout` states that they are the stream run. |
| LnavPages.ErdSpanIsStream | ubx/UBX/SFRBX.py:179-180 | An ERD that crosses into word i is the 6 stream bits from bit 23 of word i-1. |
| LnavPages.ErdGroupLayout | ubx/UBX/SFRBX.py:184-187 | The four ERDs that end in a word are four consecutive 6-bit stream fields. |
| LnavPages.ErdGroupsSnoc | ubx/UBX/SFRBX.py:179-213 | Extending the run of ERD groups by one word extends the stream run by four fields. |
| LnavPages.ErdGroupsLayout | ubx/UBX/SFRBX.py:179-213 | The ERDs of words 4..10 are the 28 consecutive 6-bit stream fields from word 3 bit 23. |
| LnavPages.NmctSpec | ubx/UBX/SFRBX.py:165-169 | The NMCT has a 2-bit AI and 30 ERDs. |
| LnavPages.NmctSpecErd | ubx/UBX/SFRBX.py:166-169 | ERD k is the 6-bit stream field at 58 + 6k. |
| LnavPages.DecodeNmct | ubx/UBX/SFRBX.py:165-214 | The corrected NMCT: a 2-bit AI and 30 ERDs. `NmctLayout` states that it is the IS-GPS-200 layout. |
| LnavPages.DecodeNmctAsWritten | ubx/UBX/SFRBX.py:165-214 | The NMCT as the source reads it: a 2-bit AI and 30 ERDs. `NmctAsWrittenLayout` states where its AI and ERD 1 come from. |
| LnavPages.NmctLayout | ubx/UBX/SFRBX.py:165-214 | The corrected NMCT equals the IS-GPS-200 layout: the AI and all 30 ERDs, in order. |
| LnavPages.NmctAsWrittenDiffers | ubx/UBX/SFRBX.py:175-177 | The as-written NMCT differs from the corrected one only in the AI and ERD 1. |
| LnavPages.NmctAsWrittenLayout | ubx/UBX/SFRBX.py:175-177 | The as-written AI is the low two bits of the SV ID, and the as-written ERD 1 is four bits early. Everything else is the IS-GPS-200 layout. |
| LnavPages.NmctAiMisread | ubx/UBX/SFRBX.py:175-177 | For a concrete input with AI 1 and ERD 1 0, the source reports AI 0 and ERD 1 16. |
| LnavPages.CharGroup | ubx/UBX/SFRBX.py:220-222 | The three characters of one word. `CharGroupLayout` places them in the stream. |
| LnavPages.CharGroups | ubx/UBX/SFRBX.py:219-236 | The characters of a run of words, three per word. `CharGroupsLayout` places them in the stream. |
| LnavPages.DecodeSpecialMessage | ubx/UBX/SFRBX.py:215-238 | The special message as the source reads it, 22 characters. `SpecialMessageLayout` states that it is the transmitted message in order. |
| LnavPages.CharGroupLayout | ubx/UBX/SFRBX.py:220-222 | The three characters of a word are its three consecutive 8-bit stream fields. |
| LnavPages.CharGroupsLayout | ubx/UBX/SFRBX.py:219-236 | The characters of a run of words are the consecutive 8-bit stream fields of those words. |
| LnavPages.SpecialMessageSpec | ubx/UBX/SFRBX.py:215-238 | The special message is 22 characters. |
| LnavPages.SpecialMessageSpecChar | ubx/UBX/SFRBX.py:215-238 | Character k is the 8-bit stream field at 56 + 8k. |
| LnavPages.SpecialMessageLayout | ubx/UBX/SFRBX.py:215-238 | The 22 characters are read in transmission order, with none skipped or repeated. |
| LnavPages.DataBitsShifted | ubx/UBX/SFRBX.py:250 | `(w << 2) & 0xffffff00` is the 24 data bits of w, times 256. |
| LnavPages.ShiftedField | ubx/UBX/SFRBX.py:250 | Shifting left by 2, then reading 24 bits from bit 8, reads the 24 bits from bit 6. |
| LnavPages.A0IsStream | ubx/UBX/SFRBX.py:250-251 | A0 is the 32 stream bits from word 7 bit 1. |
| LnavPages.UtcTimesLayout | ubx/UBX/SFRBX.py:252-257 | tot, WNt, ΔtLS, WNLSF, DN and ΔtLSF are their IS-GPS-200 bytes in words 8-10. |
| LnavPages.UtcFieldsLayout | ubx/UBX/SFRBX.py:249-257 | Every UTC parameter is at its IS-GPS-200 position. |
| LnavPages.UtcFields | ubx/UBX/SFRBX.py:249-257 | The UTC parameters after the coefficients. `UtcFieldsLayout` places them. |
| LnavPages.DecodeIonoUtc | ubx/UBX/SFRBX.py:240-269 | The corrected page 18, with four α and four β coefficients. `IonoUtcLayout` states that it is the IS-GPS-200 layout. |
| LnavPages.DecodeIonoUtcAsWritten | ubx/UBX/SFRBX.py:240-269 | Page 18 as the source reads it, with four α and four β coefficients. `IonoUtcAsWrittenLayout` states the permutation. |
| LnavPages.IonoUtcLayout | ubx/UBX/SFRBX.py:240-269 | The corrected page 18 equals the IS-GPS-200 layout: α0-3, β0-3 and every UTC field. |
| LnavPages.IonoUtcAsWrittenLayout | ubx/UBX/SFRBX.py:241-248 | The as-written coefficients are the IS-GPS-200 ones permuted: α0 and α1 exchanged, and β1-3 in the order β3, β1, β2. All other fields agree. |
| LnavPages.IonoAlphaMisread | ubx/UBX/SFRBX.py:241-242 | For a concrete input α0 is 1, but the source reports α0 as 0. |
| LnavHealth.CollectAspoof | ubx/UBX/SFRBX.py:271-286 | The 32 appends collect exactly the 32 consecutive 4-bit stream fields from word 3 bit 9 (SV 1 to SV 32). |
| LnavHealth.CollectSf4Health | ubx/UBX/SFRBX.py:288-296 | The 8 appends collect the consecutive 6-bit health fields of SVs 25-32 from word 8 bit 19. |
| LnavHealth.DecodeSf4Health | ubx/UBX/SFRBX.py:270-296 | Subframe 4 page 25: both lists are their stream runs, 32 fields of 4 bits and 8 fields of 6 bits. |
| LnavHealth.DecodeSf5Health | ubx/UBX/SFRBX.py:334-342 | Subframe 5 page 25: toa and WNa are word 3 bits 9-16 and 17-24. The loop collects the 24 consecutive 6-bit health fields from word 4 bit 1. |
| LnavHealth.AntiSpoofOn | ubx/UBX/SFRBX.py:312 | The A-S flag `f & 8`. `AspoofFieldParts` states that the flag and `SvConfig` together make up the field. |
| LnavHealth.SvConfig | ubx/UBX/SFRBX.py:313 | The SV configuration code `f & 7` is below 8. |
| LnavHealth.AspoofFieldParts | ubx/UBX/SFRBX.py:307-313 | A 4-bit A-S field is exactly its A-S flag (`f & 8`) above its configuration code (`f & 7`), with no bit lost or shared. |
| LnavDecode.DataId | ubx/UBX/SFRBX.py:158-159 | The unmasked `words[2] >> 28` is below 16. |
| LnavDecode.PageSvid | ubx/UBX/SFRBX.py:152 | The page SV ID is a 6-bit value. |
| LnavDecode.PageIdLayout | ubx/UBX/SFRBX.py:152-159 | The SV ID is word 3 bits 3-8. The data ID is word 3 bits 1-2, below the padding bits. |
| LnavDecode.Sf4PageKind | ubx/UBX/SFRBX.py:161-320 | Subframe 4 dispatch, as if-and-only-ifs: almanac exactly for pages 2-10 except 6, NMCT for 13, special message for 17, iono/UTC for 18, health for 25. |
| LnavDecode.Sf5PageKind | ubx/UBX/SFRBX.py:332-351 | Subframe 5 dispatch: almanac exactly for pages 1-24, health for 25, and everything else reserved. |
| LnavDecode.Sf4KindBySvid | ubx/UBX/SFRBX.py:152-164 | Through the table, subframe 4 dispatches on the SV ID: almanac exactly for SVs 25-32, NMCT for 52, special message for 55, iono/UTC for 56, health for 63, reserved otherwise. |
| LnavDecode.Sf5KindBySvid | ubx/UBX/SFRBX.py:323-333 | Subframe 5 dispatches on the SV ID: almanac exactly for SVs 1-24, health for 51, reserved otherwise. |
| LnavDecode.PageWordsRead | ubx/UBX/SFRBX.py:335-342 | A page reads between 3 and 10 words, and exactly 3 when it is reserved. |
| LnavDecode.WordsRead | ubx/UBX/SFRBX.py:40-52 | A subframe decode reads between 2 and 10 words. |
| LnavDecode.DecodePage | ubx/UBX/SFRBX.py:319-320 | The page body is reserved exactly when the dispatch selects no decode. |
| LnavDecode.DecodePaged | ubx/UBX/SFRBX.py:141-351 | Subframes 4 and 5: SV ID, page lookup, dispatch, or `WordMissing`. It has no ensures of its own; `DecodeLnav`, `PagedSubframeLayout` and `DecodePagedSubframe` state its meaning. |
| LnavDecode.DecodeLnav | ubx/UBX/SFRBX.py:40-351 | The decode succeeds exactly when the list has every word the decode reads, and otherwise fails with `WordMissing`. Its header is the corrected header. It decodes no body exactly for subframe ids outside 1..5. |
| LnavDecode.TenWordsDecode | ubx/UBX/SFRBX.py:36-39 | A full ten-word subframe always decodes. |
| LnavDecode.SubframeDispatch | ubx/UBX/SFRBX.py:52-141 | Each id 1..5 selects its own body (clock, ephemeris 1, ephemeris 2, paged), as if-and-only-ifs. |
| LnavDecode.PagedSubframeLayout | ubx/UBX/SFRBX.py:152-156 | A paged body's SV ID is word 3 bits 3-8, and its page is that SV ID's table entry. The body is reserved exactly for the SV IDs that name no decoded page. |
| LnavDecode.CollectPage | ubx/UBX/SFRBX.py:270-342 | The page collected with the page-25 append loops is the page the decode specifies. |
| LnavDecode.DecodePagedSubframe | ubx/UBX/SFRBX.py:141-351 | The receiver's paged decode gives the specified paged body or error. |
| LnavDecode.DecodeSubframe | ubx/UBX/SFRBX.py:40-351 | The receiver's subframe decode equals `DecodeLnav`, with all the properties proved of it. |
| Sfrbx.TopByte | ubx/UBX/SFRBX.py:30 | `words[0] >> 24` is a byte. |
| Sfrbx.NewCnavFrame | ubx/UBX/SFRBX.py:6-9 | The CNAV object is built exactly when there is a first word, and keeps the words and a byte-sized preamble. |
| Sfrbx.NewLnavFrameAsWritten | ubx/UBX/SFRBX.py:11-15 | The second class's constructor, as written, never succeeds. |
| Sfrbx.NewLnavFrame | ubx/UBX/SFRBX.py:11-15 | The corrected constructor succeeds exactly when there is a first word. Its preamble is a byte, and its message id and PRN are 6-bit values. |
| Sfrbx.LnavFrameFields | ubx/UBX/SFRBX.py:13-15 | The corrected object's preamble, PRN and message id are the top 20 bits of the first word, in that order. |
| Sfrbx.LnavFrameNeverBuilt | ubx/UBX/SFRBX.py:13 | For every non-empty word list, the as-written constructor fails on the unset `words` while the corrected one succeeds. |
| Sfrbx.LnavBranchAsWritten | ubx/UBX/SFRBX.py:41-42 | The LNAV branch as written never produces a decode: a one-word list fails with `WordMissing` on the second word, and any longer list fails on the unset `s`. |
| Sfrbx.LnavReportNeverBuilt | ubx/UBX/SFRBX.py:40-50 | For every full subframe the as-written branch fails on the unset `s`, while the corrected decode succeeds. |
| Sfrbx.Branch | ubx/UBX/SFRBX.py:28-34 | Frames that are not GPS take neither branch. A GPS frame takes the CNAV branch exactly when its top byte is 0x8B. |
| Sfrbx.BranchByTopByte | ubx/UBX/SFRBX.py:30-31 | The classification depends on the words only through the first word's top byte. |
| Sfrbx.LnavPreambleTakesLnavBranch | ubx/UBX/SFRBX.py:30-40 | A right-aligned LNAV word whose preamble bits hold 0x8B has top byte 0x22 modulo 64, so it takes the LNAV branch. |
| Sfrbx.Buildable | ubx/UBX/SFRBX.py:28-79 | The words the constructor does not raise on: a GPS frame has a first word and, on the LNAV branch, every word its decode reads. No ensures of its own; it is the requires of `Sfrbx.SfrbxFrame.constructor` and part of the Ok-iff of `Rxm.Parsed`. |
| Sfrbx.SfrbxFrame.constructor | ubx/UBX/SFRBX.py:19-351 | Stores words, gnssId, svId, frequency slot and channel. On the CNAV branch the type is GPS_CNAV and the CNAV object is built. On the LNAV branch the type stays unset and the successful decode is kept. Other constellations set neither. |
| Rxm.BlockSizeOfBytes | ubx/UBX/RXM.py:19-27 | A run of one-byte fields takes one byte per field. |
| Rxm.SfrbxFieldBytes | ubx/UBX/RXM.py:20-27 | SFRBX header field i is the one-byte field at position i + 1. |
| Rxm.SfrbxSchemaLayout | ubx/UBX/RXM.py:19-29 | The SFRBX header is 8 one-byte fields at positions 1..8, in order, taking 8 bytes. The repeated `dwrd` group takes 4 bytes. |
| Rxm.DwrdOffset | ubx/UBX/RXM.py:28-29 | Data word k starts after the 8-byte header and k - 1 earlier words. Every word is 4-byte aligned, and the first is at byte 8. |
| Rxm.CheckAllowed | ubx/UBX/RXM.py:26 | A field is accepted exactly when it has no allowed set or its value is in the set. Otherwise it is rejected with `InvalidValue(name, value)`. |
| Rxm.VersionAllowed | ubx/UBX/RXM.py:55 | The `version` fields of both SFRBX and RAWX accept 2 and nothing else. |
| Rxm.WordList | ubx/UBX/RXM.py:33-36 | The word list of a complete message has `numWords` words, and word i is instance i + 1. |
| Rxm.Words | ubx/UBX/RXM.py:31-37 | The word list succeeds exactly when `dwrd` instances 1..numWords are all present, and then it is `WordList`. On failure it reports the first missing instance. |
| Rxm.Parsed | ubx/UBX/RXM.py:39-41 | Building the frame succeeds exactly when the words are complete, the `gnssId` byte is a declared constellation, and the constructor does not raise (`Buildable`). The errors come in that order: missing `dwrd`, then `InvalidValue("gnssId", …)`, then `WordMissing`. The new frame holds the message's words, constellation, SV, frequency slot and channel, and the CNAV/LNAV classification of the constructor. |
| Rxm.BitAnd | ubx/UBX/RXM.py:54 | `a & b` is at most each operand. |
| Rxm.BitAndPow2 | ubx/UBX/RXM.py:71 | A single-bit mask keeps exactly that bit. |
| Rxm.BitAndLowMask | ubx/UBX/RXM.py:68 | The mask 0xF (2^k - 1) keeps exactly the k low bits. |
| Rxm.Decompose | ubx/UBX/RXM.py:54 | The bitmask decode has exactly the declared sub-names, each bounded by the raw value and its mask. |
| Rxm.ReceiverFlagsBits | ubx/UBX/RXM.py:83-84 | leapSecDetermined is bit 0 of `recStat`, and clkReset is bit 1. |
| Rxm.DeviationBits | ubx/UBX/RXM.py:96-98 | prStdev, cpStdev and doStdev are the low four bits of their bytes. |
| Rxm.TrackingBits | ubx/UBX/RXM.py:99-102 | prValid, cpValid, halfCyc and subHalfCyc are bits 0-3 of `trkStat`. |
| Rxm.TrackingNibble | ubx/UBX/RXM.py:71 | The four tracking flags rebuild `trkStat` mod 16: no bit is lost or shared. |
| Rxm.ReceiverFlagsOf | ubx/UBX/RXM.py:83-84 | The two receiver flags of `recStat`. `ReceiverFlagsBits` states which bits they are. |
| Rxm.MeasurementFlagsOf | ubx/UBX/RXM.py:96-102 | The deviation and tracking flags of one measurement. `DeviationBits`, `TrackingBits` and `TrackingNibble` state their bits. |
| Rxm.MeasurementFrameOf | ubx/UBX/RXM.py:87-103 | One measurement as the frame shows it. `FrameFlags` states its flags. |
| Rxm.FirstMissing | ubx/UBX/RXM.py:86-104 | Finds nothing exactly when instances 1..n are all present. Otherwise it finds the first one missing. |
| Rxm.Measurements | ubx/UBX/RXM.py:86-105 | Measurement i of the list is the readable form of block i + 1, for all numMeas blocks. |
| Rxm.Frame | ubx/UBX/RXM.py:75-106 | The frame succeeds exactly when every measurement block is present. Otherwise it fails on the first missing block's `prMes`. It keeps week, leap seconds and count, decomposes `recStat`, and lists every measurement in order. |
| Rxm.FrameFlags | ubx/UBX/RXM.py:83-102 | In a built frame, the receiver flags are `recStat` bits 0-1, and each measurement's tracking flags are its block's `trkStat` bits 0-3. |

## Left out

- Text rendering is not modelled: the report string `s`, `index_s`, `erd_s`, `chr`, and the `verbosity` switch that adds per-SV A-S lines. The model keeps the decoded values the text is built from (`Sfrbx.SfrbxFrame` field `lnav`). `LnavHealth.AntiSpoofOn`/`SvConfig` model the per-SV split.
- Floating-point scaling is not modelled. Each scaled field is kept as `Scaled(raw, exponent)`, the raw integer with its power-of-two scale.
- The `unpack_*` helpers are not part of this model. They are modelled as `Field`, `SignedField`, `SpanU32` and `SpanS32`, with the shift counted from bit 0 and `unpack_s<n>` read as n-bit two's complement.
- LnavPages.DecodeAlmanac: states only the ranges of the almanac fields, because the decoder's `almanac` method is not part of this model; the body reads the IS-GPS-200 Table 20-VI positions and is itself the reference definition.
- The `sbfr4_svid_page` and `sbfr5_svid_page` tables are not part of this model. They are taken from IS-GPS-200 Table 20-V. An SV ID that names several reserved pages maps to the first of them, and an SV ID missing from a table has no page, which the dispatch treats as reserved.
- The `codes_on_l2`, `ura_meters`, `nmct_ai` and `sv_conf` name tables are text only and are not part of this model.
- The reflective message engine is not part of this model: `UBXMessage`, `initMessageClass`, `addGet`, and the byte decoders of `Types`. Messages arrive as already-decoded `SfrbxMessage`/`RawxMessage` values. The schema is recorded as data (`Rxm.SfrbxFields`), and the allowed-value check is `Rxm.CheckAllowed`.
- Attribute names (`dwrd_{i}`, `prMes_{i}`) are modelled as instance numbers in a map. A missing attribute is `FieldMissing(name, index)`.
- Rxm.Frame: omits `rcvTow`, `prMes`, `cpMes` and `doMes`, which are floating-point fields. Its failure names `prMes`, the first attribute read.
- The RAWX measurement's `gnssId` is carried as a decoded constellation. Only the SFRBX `gnssId` byte goes through the enum decode (`Tables.GnssFromRaw` in `Rxm.Parsed`).
- Rxm.Decompose: bitmask sub-names are an enumeration (`MaskName`), not strings.
- Sfrbx.SfrbxFrame.constructor: requires `Buildable`. Where the source raises IndexError on a missing word (an empty GPS list, or an LNAV list shorter than its decode reads), `Rxm.Parsed` returns `WordMissing` instead of constructing.
- Sfrbx.SfrbxFrame.constructor: is modelled with the Findings corrections (the unset `s` and the decoder fixes). The as-written behaviour is `Sfrbx.LnavBranchAsWritten`.
- `GPS_CNAV_Msg_IDs` is vocabulary that the SFRBX code imports but never uses.
- Parity bits (word bits 5..0) are neither checked by the source nor by the model.
- The word list `Rxm.Words` builds is a fresh array copied into a sequence. No aliasing with the message is modelled.

## Findings

| source | as written | input that shows it | evidently intended | confidence | as-written member | corrected member |
|---|---|---|---|---|---|---|
| ubx/UBX/SFRBX.py:64 | IODC low byte read as `(words[7] >> 24) & 0xff` | `words[2] = 0`, `words[7] = 0xC00000` (word 8 data bits 7-8 set): IODC 3, read as 0 | `(words[7] >> 22) & 0xff`, word 8 bits 1-8 | not executed; high | LnavEphemeris.IodcAsWritten, LnavEphemeris.IodcLowByteMisread | LnavEphemeris.Iodc |
| ubx/UBX/SFRBX.py:43 | TLM message read as `(words[0] >> 8) & 0xffff` | `words = [0x400000, 0]`: TLM message 0, read as 0x4000 | 14 bits, `& 0x3fff` (TLM bits 9-22) | not executed; high | LnavHeader.HeaderAsWritten, LnavHeader.TlmMessageTakesPreambleBits | LnavHeader.DecodeHeader |
| ubx/UBX/SFRBX.py:44 | ISF read as `words[0] & 0x40` (reserved bit 24) | `words = [0x80, 0]`: ISF set, read as clear | `words[0] & 0x80` (TLM bit 23) | not executed; high | LnavHeader.HeaderAsWritten, LnavHeader.IntegrityReadFromReservedBit | LnavHeader.DecodeHeader |
| ubx/UBX/SFRBX.py:48-49 | alert and A-S flags read from `words[0]` (the TLM word) | `words = [0x1000, 0]`: no alert in the HOW, alert reported | `words[1] & 0x1000` and `words[1] & 0x800` (HOW bits 18, 19) | not executed; high | LnavHeader.HeaderAsWritten, LnavHeader.AlertReadFromTlm | LnavHeader.DecodeHeader |
| ubx/UBX/SFRBX.py:74 | L2 P data flag read as `(words[2] >> 29) & 0x03` | `words[2] = 0x20000000`, `words[3] = 0`: flag 0, read as 1 | `(words[3] >> 29) & 0x01` (word 4 bit 1) | not executed; high | LnavEphemeris.DecodeClockAsWritten, LnavEphemeris.L2pFlagMisread | LnavEphemeris.DecodeClock |
| ubx/UBX/SFRBX.py:175-177 | NMCT AI read at `>> 22` and ERD 1 at `>> 16` | `words[2] = 0x100000`: AI 1 and ERD 1 0, read as AI 0 and ERD 1 16 | `>> 20` and `>> 14` (word 3 bits 9-10 and 11-16) | not executed; high | LnavPages.DecodeNmctAsWritten, LnavPages.NmctAiMisread | LnavPages.DecodeNmct |
| ubx/UBX/SFRBX.py:241-248 | α0/α1 exchanged, and β1-3 read in the order β3, β1, β2 | `words[2] = 0x4000`: α0 1, reported as α0 0 | α0 at `words[2] >> 14`, β1 at `words[4] >> 22` (IS-GPS-200 transmission order) | not executed; medium | LnavPages.DecodeIonoUtcAsWritten, LnavPages.IonoAlphaMisread | LnavPages.DecodeIonoUtc |
| ubx/UBX/SFRBX.py:13 | the second class's constructor reads `self.words` before assigning it | any word list: the constructor always fails | assign `self.words = words` first | not executed; high | Sfrbx.NewLnavFrameAsWritten, Sfrbx.LnavFrameNeverBuilt | Sfrbx.NewLnavFrame |
| ubx/UBX/SFRBX.py:42 | `s += ...` on a local `s` that nothing assigns | any GPS word list of at least two words whose top byte is not 0x8B: the branch fails before decoding (a one-word list fails one line earlier, reading `words[1]` at :41) | initialise `s` before the first append | not executed; high | Sfrbx.LnavBranchAsWritten, Sfrbx.LnavReportNeverBuilt | LnavDecode.DecodeLnav, Sfrbx.SfrbxFrame.constructor |

