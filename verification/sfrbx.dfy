/**
 * The SFRBX frame: the navigation words of one subframe with the satellite and
 * channel they came from. On construction a GPS frame is classified by the top
 * byte of its first word: 0x8B marks a CNAV message (u-blox left-aligns CNAV
 * words, so its preamble fills the top byte), anything else is decoded as an
 * LNAV subframe (right-aligned 30-bit words, preamble at `>> 22`).
 */
module Sfrbx {
  import opened Wrappers
  import opened NavBits
  import opened Tables
  import opened LnavDecode

  /** The constant the source names the L1 C/A preamble; it selects the CNAV branch. */
  const GpsL1caPreamble := 0x8B

  /** The top byte of the first word. */
  function TopByte(words: seq<Word>): (b: nat)
    requires 1 <= |words|
    ensures b < 256
  {
    ShrBound(words[0], 24);
    Pow2Table();
    Shr(words[0], 24)
  }

  // ---------------------------------------------------------------------------
  // The two navigation-message classes

  /** A GPS CNAV message: its words and the preamble in the top byte. */
  datatype CnavFrame = CnavFrame(words: seq<Word>, preamble: nat)

  /** The CNAV message object: a frame without a first word cannot be built. */
  function NewCnavFrame(words: seq<Word>): (r: Result<CnavFrame, DecodeError>)
    ensures r.Ok? <==> 1 <= |words|
    ensures r.Err? ==> r.error == WordMissing
    ensures r.Ok? ==> r.value.words == words && r.value.preamble < 256
  {
    if |words| == 0 then Err(WordMissing) else Ok(CnavFrame(words, TopByte(words)))
  }

  /** The header the second message class reads from the first word: preamble, message id and PRN. */
  datatype LnavFrame = LnavFrame(words: seq<Word>, preamble: nat, msgid: nat, prn: nat)

  /**
   * That class's constructor as written: its first statement reads `self.words`,
   * which nothing has assigned yet, so construction always fails.
   */
  function NewLnavFrameAsWritten(words: seq<Word>): (r: Result<LnavFrame, DecodeError>)
    ensures r.Err?
  {
    Err(AttributeUnset("words"))
  }

  /** The constructor with `self.words` assigned before it is read. */
  function NewLnavFrame(words: seq<Word>): (r: Result<LnavFrame, DecodeError>)
    ensures r.Ok? <==> 1 <= |words|
    ensures r.Err? ==> r.error == WordMissing
    ensures r.Ok? ==> r.value.words == words && r.value.preamble < 256 && r.value.msgid < 64 && r.value.prn < 64
  {
    if |words| == 0 then Err(WordMissing)
    else
      Pow2Table();
      Ok(LnavFrame(words, TopByte(words), Field(words[0], 12, 6), Field(words[0], 18, 6)))
  }

  /**
   * The corrected object's three fields are the top 20 bits of the first word, in
   * order: preamble (8 bits), PRN (6 bits), message id (6 bits).
   */
  lemma LnavFrameFields(words: seq<Word>)
    requires 1 <= |words|
    ensures var f := NewLnavFrame(words).value;
      Shr(words[0], 12) == Concat(f.preamble, 8, Concat(f.prn, 6, f.msgid, 6), 12)
  {
    var w := words[0];
    ShrIsField(w, 12);
    ShrIsField(w, 24);
    FieldSplit(w, 12, 8, 12);
    FieldSplit(w, 12, 6, 6);
  }

  /** Whatever the words, the constructor as written fails where the corrected one succeeds. */
  lemma LnavFrameNeverBuilt(words: seq<Word>)
    requires 1 <= |words|
    ensures NewLnavFrameAsWritten(words) == Err(AttributeUnset("words"))
    ensures NewLnavFrame(words).Ok?
  {
  }

  /**
   * The LNAV branch of the frame constructor as written: it reads the subframe id
   * from the second word, which a one-word list lacks, and then appends its first
   * report line to a local `s` that nothing has assigned, so the branch always fails
   * before any field is decoded.
   */
  function LnavBranchAsWritten(words: seq<Word>): (r: Result<Lnav, DecodeError>)
    ensures r.Err?
    ensures |words| < 2 ==> r == Err(WordMissing)
    ensures 2 <= |words| ==> r == Err(LocalUnset("s"))
  {
    if |words| < 2 then Err(WordMissing) else Err(LocalUnset("s"))
  }

  /** For a full subframe the branch as written fails on the unset `s`, where the corrected decode succeeds. */
  lemma LnavReportNeverBuilt(words: seq<Word>)
    requires 10 <= |words|
    ensures LnavBranchAsWritten(words) == Err(LocalUnset("s"))
    ensures DecodeLnav(words).Ok?
  {
    TenWordsDecode(words);
  }

  // ---------------------------------------------------------------------------
  // Classification

  /** Which navigation branch the constructor takes. */
  datatype NavBranch = NotGps | CnavBranch | LnavBranch

  /** GPS frames split on the top byte of the first word; other constellations take neither branch. */
  function Branch(gnssId: Gnss, words: seq<Word>): (b: NavBranch)
    requires gnssId == GPS ==> 1 <= |words|
    ensures b == NotGps <==> gnssId != GPS
    ensures b == CnavBranch <==> gnssId == GPS && TopByte(words) == GpsL1caPreamble
  {
    if gnssId != GPS then NotGps
    else if TopByte(words) == GpsL1caPreamble then CnavBranch
    else LnavBranch
  }

  /** The branch depends on the words only through the top byte of the first word. */
  lemma BranchByTopByte(gnssId: Gnss, words: seq<Word>, other: seq<Word>)
    requires 1 <= |words| && 1 <= |other| && TopByte(words) == TopByte(other)
    ensures Branch(gnssId, words) == Branch(gnssId, other)
  {
  }

  /**
   * An LNAV subframe whose preamble bits (word bits 29-22) hold 0x8B has top byte
   * 0x22 under any padding, so it always takes the LNAV branch.
   */
  lemma LnavPreambleTakesLnavBranch(words: seq<Word>)
    requires 1 <= |words| && Field(words[0], 22, 8) == 0x8B
    ensures Branch(GPS, words) == LnavBranch
    ensures TopByte(words) % 64 == 0x22
  {
    var w := words[0];
    FieldSplit(w, 22, 6, 2);
    ShrTop(w, 24);
    Pow2Table();
    assert Field(w, 24, 6) == 0x22;
  }

  /**
   * The words a frame can be built from: a GPS frame needs a first word to be
   * classified, and one that takes the LNAV branch needs every word its decode
   * reads. Otherwise the constructor raises on a missing word.
   */
  predicate Buildable(gnssId: Gnss, words: seq<Word>)
  {
    gnssId == GPS ==> 1 <= |words| && (Branch(gnssId, words) == LnavBranch ==> DecodeLnav(words).Ok?)
  }

  // ---------------------------------------------------------------------------
  // The frame object

  class SfrbxFrame {
    var words: seq<Word>
    var gnssId: Gnss
    var svId: nat
    var gloFreqId: nat
    var chn: nat
    var subframeType: Option<NavSubframeKind>
    var subframe: Option<CnavFrame>
    /**
     * The LNAV decode. The source renders it into a local report string and keeps
     * nothing; the model keeps the decoded values the report is built from.
     */
    var lnav: Option<Lnav>

    /**
     * Stores the metadata; for GPS, a 0x8B top byte makes the frame a CNAV message,
     * any other top byte has it decoded as an LNAV subframe, with the type left unset.
     * Where the source raises on a missing word, the words are not `Buildable`.
     */
    constructor(words: seq<Word>, gnssId: Gnss, svId: nat, gloFreqId: nat, chn: nat)
      requires Buildable(gnssId, words)
      ensures this.words == words && this.gnssId == gnssId && this.svId == svId
      ensures this.gloFreqId == gloFreqId && this.chn == chn
      ensures Branch(gnssId, words) == CnavBranch ==>
        subframeType == Some(GpsCnav) && subframe == Some(CnavFrame(words, GpsL1caPreamble)) && lnav == None
      ensures Branch(gnssId, words) == LnavBranch ==>
        subframeType == None && subframe == None && lnav == Some(DecodeLnav(words).value)
      ensures Branch(gnssId, words) == NotGps ==> subframeType == None && subframe == None && lnav == None
    {
      this.words := words;
      this.gnssId := gnssId;
      this.svId := svId;
      this.gloFreqId := gloFreqId;
      this.chn := chn;
      subframeType := None;
      subframe := None;
      lnav := None;
      new;
      if gnssId == GPS {
        var preamble := TopByte(words);
        if preamble == GpsL1caPreamble {
          subframeType := Some(GpsCnav);
          var cnav := NewCnavFrame(words);
          subframe := Some(cnav.value);
        } else {
          var decoded := DecodeSubframe(words);
          lnav := Some(decoded.value);
        }
      }
    }
  }
}
