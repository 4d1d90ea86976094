/**
 * The vocabulary the decoder shares with the rest of the receiver interface:
 * GNSS identifiers, the kinds of navigation subframe, and the tables that
 * turn the 6-bit SV ID of an LNAV subframe 4 or 5 into its page number
 * (IS-GPS-200, Table 20-V).
 */
module Tables {
  import opened Wrappers

  /** GNSS identifiers (`gnssId`) as the receiver numbers them. */
  datatype Gnss = GPS | SBAS | Galileo | BeiDou | IMES | QZSS | GLONASS

  /** The raw byte the receiver sends for each constellation. */
  function GnssRaw(g: Gnss): (r: nat)
    ensures r <= 6
    ensures r == 0 <==> g == GPS
  {
    match g
    case GPS => 0
    case SBAS => 1
    case Galileo => 2
    case BeiDou => 3
    case IMES => 4
    case QZSS => 5
    case GLONASS => 6
  }

  /** Enum decode of a raw `gnssId` byte: only declared raw values are accepted. */
  function GnssFromRaw(raw: nat): (r: Result<Gnss, DecodeError>)
    ensures r.Ok? <==> raw <= 6
    ensures r.Ok? ==> GnssRaw(r.value) == raw
    ensures r.Err? ==> r.error == InvalidValue("gnssId", raw)
  {
    if raw == 0 then Ok(GPS)
    else if raw == 1 then Ok(SBAS)
    else if raw == 2 then Ok(Galileo)
    else if raw == 3 then Ok(BeiDou)
    else if raw == 4 then Ok(IMES)
    else if raw == 5 then Ok(QZSS)
    else if raw == 6 then Ok(GLONASS)
    else Err(InvalidValue("gnssId", raw))
  }

  /** Every declared identifier decodes back from its raw byte. */
  lemma GnssRoundTrip(g: Gnss)
    ensures GnssFromRaw(GnssRaw(g)) == Ok(g)
  {
  }

  /** The two kinds of GPS navigation subframe (`Nav_Subframes`). */
  datatype NavSubframeKind = GpsLnav | GpsCnav

  function NavSubframeRaw(k: NavSubframeKind): (r: nat)
    ensures r < 2
    ensures r == 1 <==> k == GpsCnav
  {
    match k
    case GpsLnav => 0
    case GpsCnav => 1
  }

  // ---------------------------------------------------------------------------
  // Page tables

  /**
   * The SV ID transmitted on page `page` (1..25) of subframe 4, IS-GPS-200
   * Table 20-V. 57 marks the reserved pages 1, 6, 11, 16 and 21, 62 the
   * reserved pages 12 and 24; 0 outside 1..25.
   */
  function Sf4PageSvid(page: nat): (svid: nat)
    ensures svid < 64
    ensures 1 <= page <= 25 <==> svid != 0
  {
    if page in {1, 6, 11, 16, 21} then 57
    else if 2 <= page <= 5 then page + 23
    else if 7 <= page <= 10 then page + 22
    else if page in {12, 24} then 62
    else if 13 <= page <= 15 then page + 39
    else if page == 17 then 55
    else if page == 18 then 56
    else if 19 <= page <= 20 then page + 39
    else if 22 <= page <= 23 then page + 38
    else if page == 25 then 63
    else 0
  }

  /** The SV ID transmitted on page `page` (1..25) of subframe 5; 0 outside 1..25. */
  function Sf5PageSvid(page: nat): (svid: nat)
    ensures svid < 64
    ensures 1 <= page <= 25 <==> svid != 0
  {
    if 1 <= page <= 24 then page
    else if page == 25 then 51
    else 0
  }

  /**
   * The receiver's subframe 4 table from SV ID to page. An SV ID that names
   * several reserved pages maps to the first of them.
   */
  const Sf4SvidPage: map<nat, nat> :=
    map[57 := 1, 25 := 2, 26 := 3, 27 := 4, 28 := 5, 29 := 7, 30 := 8, 31 := 9, 32 := 10,
        62 := 12, 52 := 13, 53 := 14, 54 := 15, 55 := 17, 56 := 18, 58 := 19, 59 := 20,
        60 := 22, 61 := 23, 63 := 25]

  /** The receiver's subframe 5 table from SV ID to page. */
  const Sf5SvidPage: map<nat, nat> :=
    map[1 := 1, 2 := 2, 3 := 3, 4 := 4, 5 := 5, 6 := 6, 7 := 7, 8 := 8, 9 := 9, 10 := 10,
        11 := 11, 12 := 12, 13 := 13, 14 := 14, 15 := 15, 16 := 16, 17 := 17, 18 := 18,
        19 := 19, 20 := 20, 21 := 21, 22 := 22, 23 := 23, 24 := 24, 51 := 25]

  /** Table lookup of a subframe 4 SV ID; an SV ID the table lacks has no page. */
  function Sf4Page(svid: nat): (page: Option<nat>)
    ensures page.Some? ==> 1 <= page.value <= 25 && Sf4PageSvid(page.value) == svid
    ensures page.None? <==> svid !in Sf4SvidPage
  {
    if svid in Sf4SvidPage then Some(Sf4SvidPage[svid]) else None
  }

  /** Table lookup of a subframe 5 SV ID; an SV ID the table lacks has no page. */
  function Sf5Page(svid: nat): (page: Option<nat>)
    ensures page.Some? ==> 1 <= page.value <= 25 && Sf5PageSvid(page.value) == svid
    ensures page.None? <==> svid !in Sf5SvidPage
  {
    if svid in Sf5SvidPage then Some(Sf5SvidPage[svid]) else None
  }

  /**
   * The subframe 4 table inverts Table 20-V: every page that carries its own SV ID
   * is found from that SV ID, and the shared reserved SV IDs find a page that carries them.
   */
  lemma Sf4PageInverts(page: nat)
    requires 1 <= page <= 25
    ensures Sf4Page(Sf4PageSvid(page)).Some?
    ensures page !in {6, 11, 16, 21, 24} ==> Sf4Page(Sf4PageSvid(page)) == Some(page)
  {
  }

  /** The subframe 5 table inverts Table 20-V exactly. */
  lemma Sf5PageInverts(page: nat)
    requires 1 <= page <= 25
    ensures Sf5Page(Sf5PageSvid(page)) == Some(page)
  {
  }

  /** The almanac SV IDs 1..24 are found on their own page of subframe 5; 0 and 25..32 are not found. */
  lemma Sf5AlmanacSvids(svid: nat)
    requires svid <= 32
    ensures Sf5Page(svid) == (if 1 <= svid <= 24 then Some(svid) else None)
  {
    if 1 <= svid <= 24 {
      assert Sf5PageSvid(svid) == svid;
      Sf5PageInverts(svid);
    }
  }

  /**
   * The almanac SV IDs 25..32 are found on pages 2..5 and 7..10 of subframe 4;
   * 0 and 1..24 are not found there.
   */
  lemma Sf4AlmanacSvids(svid: nat)
    requires svid <= 32
    ensures Sf4Page(svid) == (if svid <= 24 then None
                              else if svid <= 28 then Some(svid - 23)
                              else Some(svid - 22))
  {
    if 25 <= svid <= 28 {
      assert Sf4PageSvid(svid - 23) == svid;
      Sf4PageInverts(svid - 23);
    } else if 29 <= svid {
      assert Sf4PageSvid(svid - 22) == svid;
      Sf4PageInverts(svid - 22);
    }
  }
}
