/**
 * The LNAV subframe decoder: the header, then the subframe id selects the clock
 * (1), ephemeris (2, 3) or paged (4, 5) decode. Subframes 4 and 5 read the
 * 6-bit SV ID of word 3, look its page up and dispatch on the page. A word the
 * decode indexes past the end of the list fails the decode with `WordMissing`.
 */
module LnavDecode {
  import opened Wrappers
  import opened NavBits
  import opened Tables
  import opened LnavHeader
  import opened LnavEphemeris
  import opened LnavPages
  import opened LnavHealth

  /** What a page of subframe 4 or 5 holds. */
  datatype PageBody =
    | AlmanacPage(almanac: Almanac)
    | NmctPage(nmct: Nmct)
    | SpecialMessagePage(text: seq<nat>)
    | IonoUtcPage(ionoUtc: IonoUtc)
    /** Subframe 4 page 25: A-S/configuration of SVs 1-32, health of SVs 25-32. */
    | AspoofHealthPage(aspoof: seq<nat>, sv: seq<nat>)
    /** Subframe 5 page 25: almanac reference time and week, health of SVs 1-24. */
    | AlmanacHealthPage(toa: nat, wna: nat, sv: seq<nat>)
    | ReservedPage

  datatype SubframeBody =
    | ClockSubframe(clock: ClockParams)
    | Ephemeris1Subframe(eph1: EphemerisPart1)
    | Ephemeris2Subframe(eph2: EphemerisPart2)
    /** Subframes 4 and 5: data ID, SV ID, the page the SV ID names and the page's contents. */
    | PagedSubframe(dataId: nat, svid: nat, page: Option<nat>, body: PageBody)
    /** A subframe id outside 1..5: nothing beyond the header is decoded. */
    | NoSubframe

  datatype Lnav = Lnav(header: Header, body: SubframeBody)

  /** The branches of the page dispatch. */
  datatype PageKind = AlmanacKind | NmctKind | SpecialMessageKind | IonoUtcKind | HealthKind | ReservedKind

  // ---------------------------------------------------------------------------
  // Page dispatch

  /** `words[2] >> 28`: the data ID with the two padding bits above it. */
  function DataId(words: seq<Word>): (d: nat)
    requires 3 <= |words|
    ensures d < 16
  {
    ShrBound(words[2], 28);
    Pow2Table();
    Shr(words[2], 28)
  }

  /** `(words[2] >> 22) & 0x3f`: the SV ID that names the page. */
  function PageSvid(words: seq<Word>): (svid: nat)
    requires 3 <= |words|
    ensures svid < 64
  {
    Pow2Table();
    Field(words[2], 22, 6)
  }

  /** The data ID and SV ID are word 3 bits 1-2 and 3-8 (below the padding bits). */
  lemma PageIdLayout(words: seq<Word>)
    requires 3 <= |words|
    ensures DataId(words) == Concat(Field(words[2], 30, 2), 2, NavField(words, 3, 1, 2), 2)
    ensures PageSvid(words) == NavField(words, 3, 3, 6)
  {
    ShrTop(words[2], 28);
    NavFieldInWord(words, 3, 1, 2);
    NavFieldInWord(words, 3, 3, 6);
  }

  /**
   * Subframe 4: page 6 is reserved, pages 2-10 are almanac, 13 the NMCT, 17 the
   * special message, 18 ionospheric and UTC, 25 A-S flags and health, anything else
   * (and an SV ID without a page) reserved.
   */
  function Sf4PageKind(page: Option<nat>): (k: PageKind)
    ensures k == AlmanacKind <==> page.Some? && 2 <= page.value <= 10 && page.value != 6
    ensures k == NmctKind <==> page == Some(13)
    ensures k == SpecialMessageKind <==> page == Some(17)
    ensures k == IonoUtcKind <==> page == Some(18)
    ensures k == HealthKind <==> page == Some(25)
  {
    match page
    case None => ReservedKind
    case Some(p) =>
      if p == 6 then ReservedKind
      else if 2 <= p <= 10 then AlmanacKind
      else if p == 13 then NmctKind
      else if p == 17 then SpecialMessageKind
      else if p == 18 then IonoUtcKind
      else if p == 25 then HealthKind
      else ReservedKind
  }

  /** Subframe 5: pages 1-24 are almanac, 25 health, anything else reserved. */
  function Sf5PageKind(page: Option<nat>): (k: PageKind)
    ensures k == AlmanacKind <==> page.Some? && 1 <= page.value <= 24
    ensures k == HealthKind <==> page == Some(25)
    ensures k in {AlmanacKind, HealthKind, ReservedKind}
  {
    match page
    case None => ReservedKind
    case Some(p) =>
      if 1 <= p <= 24 then AlmanacKind
      else if p == 25 then HealthKind
      else ReservedKind
  }

  /**
   * Through the page table, subframe 4's dispatch is a dispatch on the SV ID: almanac
   * for SVs 25-32, the NMCT on SV ID 52, the special message on 55, ionospheric and
   * UTC on 56, A-S flags and health on 63, reserved for every other SV ID.
   */
  lemma Sf4KindBySvid(svid: nat)
    ensures var k := Sf4PageKind(Sf4Page(svid));
      && (k == AlmanacKind <==> 25 <= svid <= 32)
      && (k == NmctKind <==> svid == 52)
      && (k == SpecialMessageKind <==> svid == 55)
      && (k == IonoUtcKind <==> svid == 56)
      && (k == HealthKind <==> svid == 63)
      && (k == ReservedKind <==> !(25 <= svid <= 32 || svid in {52, 55, 56, 63}))
  {
    var page := Sf4Page(svid);
    if page.Some? {
      var p := page.value;
      assert Sf4PageSvid(p) == svid;
      assert 2 <= p <= 10 && p != 6 <==> 25 <= svid <= 32;
    }
  }

  /** Subframe 5's dispatch on the SV ID: almanac for SVs 1-24, health on SV ID 51. */
  lemma Sf5KindBySvid(svid: nat)
    ensures var k := Sf5PageKind(Sf5Page(svid));
      && (k == AlmanacKind <==> 1 <= svid <= 24)
      && (k == HealthKind <==> svid == 51)
      && (k == ReservedKind <==> !(1 <= svid <= 24 || svid == 51))
  {
  }

  // ---------------------------------------------------------------------------
  // Words read

  /** The words a page decode reads: its SV ID word, then the page's own words. */
  function PageWordsRead(kind: PageKind, subframe: nat): (n: nat)
    ensures 3 <= n <= PageWords
    ensures n == 3 <==> kind == ReservedKind
  {
    if kind == ReservedKind then 3
    else if kind == HealthKind && subframe == 5 then Sf5HealthWords
    else PageWords
  }

  /**
   * How many words the decode of `words` reads: the header's two, all ten for
   * subframes 1-3, and for subframes 4 and 5 what the page needs. Only the words
   * present are looked at to decide.
   */
  function WordsRead(words: seq<Word>): (n: nat)
    ensures 2 <= n <= 10
  {
    if |words| < HeaderWords then HeaderWords
    else
      var id := SubframeId(words);
      if 1 <= id <= 3 then SubframeWords
      else if id == 4 || id == 5 then
        if |words| < 3 then 3
        else
          var svid := PageSvid(words);
          var kind := if id == 4 then Sf4PageKind(Sf4Page(svid)) else Sf5PageKind(Sf5Page(svid));
          PageWordsRead(kind, id)
      else HeaderWords
  }

  // ---------------------------------------------------------------------------
  // The decode

  /** The page body of subframe 4 or 5, once its words are known to be present. */
  function DecodePage(words: seq<Word>, kind: PageKind, subframe: nat): (b: PageBody)
    requires PageWordsRead(kind, subframe) <= |words|
    ensures b.ReservedPage? <==> kind == ReservedKind
  {
    match kind
    case AlmanacKind => AlmanacPage(DecodeAlmanac(words))
    case NmctKind => NmctPage(DecodeNmct(words))
    case SpecialMessageKind => SpecialMessagePage(DecodeSpecialMessage(words))
    case IonoUtcKind => IonoUtcPage(DecodeIonoUtc(words))
    case HealthKind =>
      if subframe == 4 then AspoofHealthPage(StreamFields(words, AspoofStart, 4, 32), StreamFields(words, Sf4HealthStart, 6, 8))
      else AlmanacHealthPage(NavField(words, 3, 9, 8), NavField(words, 3, 17, 8), StreamFields(words, Sf5HealthStart, 6, 24))
    case ReservedKind => ReservedPage
  }

  /** The paged subframe, or `WordMissing` when the page needs words the list lacks. */
  function DecodePaged(words: seq<Word>, subframe: nat): (r: Result<SubframeBody, DecodeError>)
    requires subframe == 4 || subframe == 5
  {
    if |words| < 3 then Err(WordMissing)
    else
      var svid := PageSvid(words);
      var page := if subframe == 4 then Sf4Page(svid) else Sf5Page(svid);
      var kind := if subframe == 4 then Sf4PageKind(page) else Sf5PageKind(page);
      if |words| < PageWordsRead(kind, subframe) then Err(WordMissing)
      else Ok(PagedSubframe(DataId(words), svid, page, DecodePage(words, kind, subframe)))
  }

  /** One LNAV subframe: header, then the body the subframe id selects. */
  function DecodeLnav(words: seq<Word>): (r: Result<Lnav, DecodeError>)
    ensures r.Ok? <==> WordsRead(words) <= |words|
    ensures r.Err? ==> r.error == WordMissing
    ensures r.Ok? ==> r.value.header == DecodeHeader(words)
    ensures r.Ok? ==> (r.value.body.NoSubframe? <==> !(1 <= SubframeId(words) <= 5))
  {
    if |words| < HeaderWords then Err(WordMissing)
    else
      var h := DecodeHeader(words);
      var id := h.subframeId;
      if 1 <= id <= 3 then
        if |words| < SubframeWords then Err(WordMissing)
        else if id == 1 then Ok(Lnav(h, ClockSubframe(DecodeClock(words))))
        else if id == 2 then Ok(Lnav(h, Ephemeris1Subframe(DecodeEphemeris1(words))))
        else Ok(Lnav(h, Ephemeris2Subframe(DecodeEphemeris2(words))))
      else if id == 4 || id == 5 then
        match DecodePaged(words, id)
        case Ok(body) => Ok(Lnav(h, body))
        case Err(e) => Err(e)
      else Ok(Lnav(h, NoSubframe))
  }

  /** A full ten-word subframe always decodes. */
  lemma TenWordsDecode(words: seq<Word>)
    requires 10 <= |words|
    ensures DecodeLnav(words).Ok?
  {
  }

  /** The dispatch is exhaustive: every subframe id in 1..5 selects its own body, every other id none. */
  lemma SubframeDispatch(words: seq<Word>)
    requires DecodeLnav(words).Ok?
    ensures var id, b := SubframeId(words), DecodeLnav(words).value.body;
      && (b.ClockSubframe? <==> id == 1)
      && (b.Ephemeris1Subframe? <==> id == 2)
      && (b.Ephemeris2Subframe? <==> id == 3)
      && (b.PagedSubframe? <==> id == 4 || id == 5)
      && (b.NoSubframe? <==> id == 0 || 6 <= id)
  {
  }

  /**
   * On a paged subframe the page follows from the SV ID in word 3 bits 3-8, and the
   * page body is reserved exactly when the SV ID names no decoded page.
   */
  lemma PagedSubframeLayout(words: seq<Word>)
    requires DecodeLnav(words).Ok? && DecodeLnav(words).value.body.PagedSubframe?
    ensures 3 <= |words|
    ensures var id, b := SubframeId(words), DecodeLnav(words).value.body;
      && b.svid == NavField(words, 3, 3, 6)
      && b.page == (if id == 4 then Sf4Page(b.svid) else Sf5Page(b.svid))
      && (b.body.ReservedPage? <==>
            if id == 4 then !(25 <= b.svid <= 32 || b.svid in {52, 55, 56, 63})
            else !(1 <= b.svid <= 24 || b.svid == 51))
  {
    PageIdLayout(words);
    var svid := PageSvid(words);
    Sf4KindBySvid(svid);
    Sf5KindBySvid(svid);
  }

  /** A page body as the receiver collects it: the page 25 lists come from the append loops. */
  method CollectPage(words: seq<Word>, kind: PageKind, subframe: nat) returns (b: PageBody)
    requires PageWordsRead(kind, subframe) <= |words|
    ensures b == DecodePage(words, kind, subframe)
  {
    if kind == HealthKind && subframe == 4 {
      var aspoof, sv := DecodeSf4Health(words);
      b := AspoofHealthPage(aspoof, sv);
    } else if kind == HealthKind {
      var toa, wna, sv := DecodeSf5Health(words);
      b := AlmanacHealthPage(toa, wna, sv);
    } else {
      b := DecodePage(words, kind, subframe);
    }
  }

  /** Subframe 4 or 5 as the receiver decodes it. */
  method DecodePagedSubframe(words: seq<Word>, subframe: nat) returns (r: Result<SubframeBody, DecodeError>)
    requires subframe == 4 || subframe == 5
    ensures r == DecodePaged(words, subframe)
  {
    if |words| < 3 {
      return Err(WordMissing);
    }
    var svid := PageSvid(words);
    var page := if subframe == 4 then Sf4Page(svid) else Sf5Page(svid);
    var kind := if subframe == 4 then Sf4PageKind(page) else Sf5PageKind(page);
    if |words| < PageWordsRead(kind, subframe) {
      return Err(WordMissing);
    }
    var body := CollectPage(words, kind, subframe);
    r := Ok(PagedSubframe(DataId(words), svid, page, body));
  }

  /** One LNAV subframe as the receiver decodes it: the same dispatch as `DecodeLnav`. */
  method DecodeSubframe(words: seq<Word>) returns (r: Result<Lnav, DecodeError>)
    ensures r == DecodeLnav(words)
  {
    if |words| < HeaderWords {
      return Err(WordMissing);
    }
    var h := DecodeHeader(words);
    var id := h.subframeId;
    if 1 <= id <= 3 {
      if |words| < SubframeWords {
        return Err(WordMissing);
      }
      if id == 1 {
        r := Ok(Lnav(h, ClockSubframe(DecodeClock(words))));
      } else if id == 2 {
        r := Ok(Lnav(h, Ephemeris1Subframe(DecodeEphemeris1(words))));
      } else {
        r := Ok(Lnav(h, Ephemeris2Subframe(DecodeEphemeris2(words))));
      }
    } else if id == 4 || id == 5 {
      var body := DecodePagedSubframe(words, id);
      match body
      case Ok(b) => r := Ok(Lnav(h, b));
      case Err(e) => r := Err(e);
    } else {
      r := Ok(Lnav(h, NoSubframe));
    }
  }
}
