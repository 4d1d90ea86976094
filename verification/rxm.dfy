/**
 * The receiver-manager (RXM) message class: the SFRBX schema, the rebuilding of
 * its word list from the repeated `dwrd` fields, the hand-off to the SFRBX frame,
 * and the bitmask flags of the RAWX measurement report.
 */
module Rxm {
  import opened Wrappers
  import opened NavBits
  import opened Tables
  import opened LnavDecode
  import opened Sfrbx

  // ---------------------------------------------------------------------------
  // Schemas

  /** Message class RXM. */
  const RxmClass := 0x02
  /** Message ids within the class. */
  const SfrbxId := 0x13
  const RawxId := 0x15

  /** A schema field: name, 1-based position in the payload, width in bytes, the values it allows (none: any). */
  datatype FieldSpec = FieldSpec(name: string, position: nat, size: nat, allowed: Option<set<nat>>)

  /** The eight one-byte header fields of SFRBX. */
  const SfrbxFields: seq<FieldSpec> := [
    FieldSpec("gnssId", 1, 1, None),
    FieldSpec("svId", 2, 1, None),
    FieldSpec("reserved0", 3, 1, None),
    FieldSpec("freqId", 4, 1, None),
    FieldSpec("numWords", 5, 1, None),
    FieldSpec("chn", 6, 1, None),
    FieldSpec("version", 7, 1, Some({2})),
    FieldSpec("reserved1", 8, 1, None)]

  /** The repeated group: one 4-byte data word per instance, `numWords` instances. */
  const SfrbxRepeated: seq<FieldSpec> := [FieldSpec("dwrd", 1, 4, None)]

  /** Bytes the fields take, in order. */
  function BlockSize(fields: seq<FieldSpec>): nat
  {
    if |fields| == 0 then 0 else fields[0].size + BlockSize(fields[1..])
  }

  /** Fields of one byte each take one byte per field. */
  lemma {:induction false} BlockSizeOfBytes(fields: seq<FieldSpec>)
    requires forall i :: 0 <= i < |fields| ==> fields[i].size == 1
    ensures BlockSize(fields) == |fields|
    decreases |fields|
  {
    if |fields| != 0 {
      BlockSizeOfBytes(fields[1..]);
    }
  }

  /** Positions strictly increase. */
  predicate Ordered(fields: seq<FieldSpec>)
  {
    forall i, j :: 0 <= i < j < |fields| ==> fields[i].position < fields[j].position
  }

  /**
   * The SFRBX header: fields at positions 1..8, one byte each, in order, so the
   * header takes 8 bytes; the repeated group takes 4.
   */
  lemma SfrbxSchemaLayout()
    ensures |SfrbxFields| == 8 && forall i :: 0 <= i < 8 ==> SfrbxFields[i].position == i + 1 && SfrbxFields[i].size == 1
    ensures Ordered(SfrbxFields)
    ensures BlockSize(SfrbxFields) == 8 && BlockSize(SfrbxRepeated) == 4
  {
    SfrbxFieldBytes();
    BlockSizeOfBytes(SfrbxFields);
    assert SfrbxRepeated[1..] == [];
  }

  /** Field i of the SFRBX header is the one-byte field at position i + 1. */
  lemma SfrbxFieldBytes()
    ensures forall i :: 0 <= i < |SfrbxFields| ==> SfrbxFields[i].position == i + 1 && SfrbxFields[i].size == 1
  {
  }

  /** Byte offset of instance k (1-based) of the repeated word: after the header, 4 bytes each. */
  function DwrdOffset(k: nat): (offset: nat)
    requires 1 <= k
    ensures offset == BlockSize(SfrbxFields) + BlockSize(SfrbxRepeated) * (k - 1)
    ensures offset % 4 == 0 && (k == 1 <==> offset == 8)
  {
    SfrbxSchemaLayout();
    8 + 4 * (k - 1)
  }

  /** The allowed-set check, applied after a field is read. */
  function CheckAllowed(spec: FieldSpec, value: nat): (r: Result<nat, DecodeError>)
    ensures r.Ok? <==> spec.allowed.None? || value in spec.allowed.value
    ensures r.Ok? ==> r.value == value
    ensures r.Err? ==> r.error == InvalidValue(spec.name, value)
  {
    match spec.allowed
    case Some(allowed) => if value in allowed then Ok(value) else Err(InvalidValue(spec.name, value))
    case None => Ok(value)
  }

  /** The RAWX `version` field: the sixth header byte, allowing 2 only. */
  const RawxVersionField := FieldSpec("version", 6, 1, Some({2}))

  /** Both messages' `version` fields accept 2 and nothing else. */
  lemma VersionAllowed(value: nat)
    ensures SfrbxFields[6].name == "version" && RawxVersionField.name == "version"
    ensures CheckAllowed(SfrbxFields[6], value).Ok? <==> value == 2
    ensures CheckAllowed(RawxVersionField, value).Ok? <==> value == 2
  {
  }

  // ---------------------------------------------------------------------------
  // SFRBX: word list and frame

  /**
   * A decoded SFRBX message: the header values and the repeated data words, by
   * instance number. `gnssId` is the raw byte; the enum decode happens when it is read.
   */
  datatype SfrbxMessage = SfrbxMessage(
    gnssId: nat, svId: nat, reserved0: nat, freqId: nat, numWords: nat,
    chn: nat, version: nat, reserved1: nat, dwrd: map<nat, Word>)

  /** Every `dwrd` instance 1..numWords is present. */
  predicate WordsPresent(msg: SfrbxMessage)
  {
    forall k :: 1 <= k <= msg.numWords ==> k in msg.dwrd
  }

  /** The word list of a complete message: instance i + 1 in slot i. */
  function WordList(msg: SfrbxMessage): (ws: seq<Word>)
    requires WordsPresent(msg)
    ensures |ws| == msg.numWords && forall i {:trigger ws[i]} :: 0 <= i < msg.numWords ==> ws[i] == msg.dwrd[i + 1]
  {
    seq(msg.numWords, i requires 0 <= i < msg.numWords => msg.dwrd[i + 1])
  }

  /**
   * The word list: a list of `numWords` zeros, with slot i filled from instance
   * i + 1. An instance the message lacks fails the lookup; the first one missing
   * is the one reported.
   */
  method Words(msg: SfrbxMessage) returns (r: Result<seq<Word>, DecodeError>)
    ensures r.Ok? <==> WordsPresent(msg)
    ensures r.Ok? ==> r.value == WordList(msg)
    ensures r.Err? ==>
      && r.error.FieldMissing? && r.error.name == "dwrd"
      && 1 <= r.error.index <= msg.numWords && r.error.index !in msg.dwrd
      && forall k :: 1 <= k < r.error.index ==> k in msg.dwrd
  {
    var words := new Word[msg.numWords](_ => 0);
    for i := 0 to msg.numWords
      invariant forall k :: 1 <= k <= i ==> k in msg.dwrd
      invariant forall j :: 0 <= j < i ==> words[j] == msg.dwrd[j + 1]
    {
      if i + 1 !in msg.dwrd {
        return Err(FieldMissing("dwrd", i + 1));
      }
      words[i] := msg.dwrd[i + 1];
    }
    return Ok(words[..]);
  }

  /**
   * The SFRBX frame of a message: its words, constellation, SV, frequency slot and
   * channel, in that order. The word list's failure comes first, then the enum
   * decode of `gnssId`; a GPS frame whose words the constructor cannot classify or
   * decode fails with the missing word.
   */
  method Parsed(msg: SfrbxMessage) returns (r: Result<SfrbxFrame, DecodeError>)
    ensures r.Ok? <==>
      && WordsPresent(msg) && msg.gnssId <= 6
      && Buildable(GnssFromRaw(msg.gnssId).value, WordList(msg))
    ensures !WordsPresent(msg) ==> r.Err? && r.error.FieldMissing? && r.error.name == "dwrd"
    ensures r.Err? && WordsPresent(msg) ==>
      r.error == if msg.gnssId <= 6 then WordMissing else InvalidValue("gnssId", msg.gnssId)
    ensures r.Ok? ==> fresh(r.value)
    ensures r.Ok? ==>
      && GnssRaw(r.value.gnssId) == msg.gnssId && r.value.svId == msg.svId
      && r.value.gloFreqId == msg.freqId && r.value.chn == msg.chn
      && r.value.words == WordList(msg)
    ensures r.Ok? ==> var f := r.value; var b := Branch(f.gnssId, f.words);
      && (b == CnavBranch ==> f.subframeType == Some(GpsCnav) && f.subframe == Some(CnavFrame(f.words, GpsL1caPreamble)) && f.lnav == None)
      && (b == LnavBranch ==> f.subframeType == None && f.subframe == None && f.lnav == Some(DecodeLnav(f.words).value))
      && (b == NotGps ==> f.subframeType == None && f.subframe == None && f.lnav == None)
  {
    var words := Words(msg);
    if words.Err? {
      return Err(words.error);
    }
    var gnss := GnssFromRaw(msg.gnssId);
    if gnss.Err? {
      return Err(gnss.error);
    }
    if !Buildable(gnss.value, words.value) {
      return Err(WordMissing);
    }
    var frame := new SfrbxFrame(words.value, gnss.value, msg.svId, msg.freqId, msg.chn);
    return Ok(frame);
  }

  // ---------------------------------------------------------------------------
  // RAWX bitmasks

  /** `a & b` on non-negative integers, bit by bit from the bottom. */
  function BitAnd(a: nat, b: nat): (r: nat)
    ensures r <= a && r <= b
  {
    if a == 0 || b == 0 then 0
    else 2 * BitAnd(a / 2, b / 2) + (if a % 2 == 1 && b % 2 == 1 then 1 else 0)
  }

  /** A single-bit mask keeps exactly that bit. */
  lemma {:induction false} BitAndPow2(a: nat, k: nat)
    ensures BitAnd(a, Pow2(k)) == Field(a, k, 1) * Pow2(k)
    decreases k
  {
    if a == 0 {
      assert Shr(0, k) == 0;
    } else if k == 0 {
      assert Pow2(0) == 1;
      BitAndStep(a, 1);
    } else {
      var p := Pow2(k - 1);
      assert Pow2(k) == 2 * p;
      DivModUnique(2 * p, 2, p, 0);
      BitAndStep(a, Pow2(k));
      BitAndPow2(a / 2, k - 1);
      ShrHalf(a, k);
      var f := Field(a, k, 1);
      assert BitAnd(a, Pow2(k)) == 2 * (f * p);
      assert f == 0 || f == 1 by { assert Pow2(1) == 2; }
      if f == 0 {
        assert BitAnd(a, Pow2(k)) == 0;
      } else {
        assert BitAnd(a, Pow2(k)) == Pow2(k);
      }
    }
  }

  /** Shifting by k is halving, then shifting by k - 1. */
  lemma ShrHalf(a: nat, k: nat)
    requires 1 <= k
    ensures Field(a / 2, k - 1, 1) == Field(a, k, 1)
  {
    assert Pow2(k) == 2 * Pow2(k - 1);
    DivDiv(a, 2, Pow2(k - 1));
  }

  /** A low mask of k ones keeps the k low bits. */
  lemma {:induction false} BitAndLowMask(a: nat, k: nat)
    ensures BitAnd(a, Pow2(k) - 1) == a % Pow2(k)
    decreases k
  {
    if k == 0 {
      assert Pow2(0) == 1;
    } else if a != 0 {
      LowMaskHalf(k);
      BitAndLowMask(a / 2, k - 1);
      BitAndStep(a, Pow2(k) - 1);
      ModHalf(a, k);
    }
  }

  /** One step of the bitwise recursion. */
  lemma BitAndStep(a: nat, b: nat)
    requires a != 0 && b != 0
    ensures BitAnd(a, b) == 2 * BitAnd(a / 2, b / 2) + (if a % 2 == 1 && b % 2 == 1 then 1 else 0)
  {
  }

  /** Halving a low mask of k ones leaves k - 1 ones; its bottom bit is set. */
  lemma LowMaskHalf(k: nat)
    requires 1 <= k
    ensures (Pow2(k) - 1) / 2 == Pow2(k - 1) - 1 && (Pow2(k) - 1) % 2 == 1
  {
    assert Pow2(k) == 2 * Pow2(k - 1);
    DivModUnique(Pow2(k) - 1, 2, Pow2(k - 1) - 1, 1);
  }

  /** The k low bits are the k - 1 low bits of the half, then the bottom bit. */
  lemma ModHalf(a: nat, k: nat)
    requires 1 <= k
    ensures a % Pow2(k) == 2 * ((a / 2) % Pow2(k - 1)) + a % 2
  {
    var p := Pow2(k - 1);
    assert Pow2(k) == 2 * p;
    var q, r := (a / 2) / p, (a / 2) % p;
    assert a == 2 * p * q + (2 * r + a % 2);
    DivModUnique(a, 2 * p, q, 2 * r + a % 2);
  }

  /** The sub-names the RAWX bitmask fields declare. */
  datatype MaskName = LeapSec | ClkReset | PrStdev | CpStdev | DoStdev | PrValid | CpValid | HalfCyc | SubHalfCyc

  /** Named sub-ranges of a bitmask field: sub-name to mask. */
  const RecStatMasks: map<MaskName, nat> := map[LeapSec := 0x1, ClkReset := 0x2]
  const TrkStatMasks: map<MaskName, nat> := map[PrValid := 0x1, CpValid := 0x2, HalfCyc := 0x4, SubHalfCyc := 0x8]
  const PrStdevMasks: map<MaskName, nat> := map[PrStdev := 0xF]
  const CpStdevMasks: map<MaskName, nat> := map[CpStdev := 0xF]
  const DoStdevMasks: map<MaskName, nat> := map[DoStdev := 0xF]

  /** Bitmask decode: every declared sub-name, each the raw value under its mask. */
  function Decompose(raw: nat, masks: map<MaskName, nat>): (d: map<MaskName, nat>)
    ensures d.Keys == masks.Keys
    ensures forall name <- masks :: d[name] <= raw && d[name] <= masks[name]
  {
    map name <- masks :: BitAnd(raw, masks[name])
  }

  /** The flags RAWX reports for the receiver: `recStat` decomposed, each sub-value as a truth value. */
  datatype ReceiverFlags = ReceiverFlags(leapSecDetermined: bool, clkReset: bool)

  /** The per-measurement flags: the three deviation fields and the four tracking-status bits. */
  datatype MeasurementFlags = MeasurementFlags(
    prStdev: nat, cpStdev: nat, doStdev: nat,
    prValid: bool, cpValid: bool, halfCyc: bool, subHalfCyc: bool)

  function ReceiverFlagsOf(recStat: nat): ReceiverFlags
  {
    var d := Decompose(recStat, RecStatMasks);
    ReceiverFlags(d[LeapSec] != 0, d[ClkReset] != 0)
  }

  function MeasurementFlagsOf(prStdev: nat, cpStdev: nat, doStdev: nat, trkStat: nat): MeasurementFlags
  {
    var t := Decompose(trkStat, TrkStatMasks);
    MeasurementFlags(
      Decompose(prStdev, PrStdevMasks)[PrStdev],
      Decompose(cpStdev, CpStdevMasks)[CpStdev],
      Decompose(doStdev, DoStdevMasks)[DoStdev],
      t[PrValid] != 0, t[CpValid] != 0, t[HalfCyc] != 0, t[SubHalfCyc] != 0)
  }

  /** Leap seconds determined is bit 0 of `recStat`, clock reset bit 1. */
  lemma ReceiverFlagsBits(recStat: nat)
    ensures var f := ReceiverFlagsOf(recStat);
      && (f.leapSecDetermined <==> Bit(recStat, 0))
      && (f.clkReset <==> Bit(recStat, 1))
  {
    assert Pow2(1) == 2 && Pow2(0) == 1;
    BitAndPow2(recStat, 0);
    BitAndPow2(recStat, 1);
  }

  /** The deviation fields are the low four bits of their bytes. */
  lemma DeviationBits(prStdev: nat, cpStdev: nat, doStdev: nat, trkStat: nat)
    ensures var f := MeasurementFlagsOf(prStdev, cpStdev, doStdev, trkStat);
      f.prStdev == prStdev % 16 && f.cpStdev == cpStdev % 16 && f.doStdev == doStdev % 16
  {
    Pow2Table();
    BitAndLowMask(prStdev, 4);
    BitAndLowMask(cpStdev, 4);
    BitAndLowMask(doStdev, 4);
  }

  /** The four tracking flags are bits 0..3 of `trkStat`. */
  lemma TrackingBits(prStdev: nat, cpStdev: nat, doStdev: nat, trkStat: nat)
    ensures var f := MeasurementFlagsOf(prStdev, cpStdev, doStdev, trkStat);
      && (f.prValid <==> Bit(trkStat, 0)) && (f.cpValid <==> Bit(trkStat, 1))
      && (f.halfCyc <==> Bit(trkStat, 2)) && (f.subHalfCyc <==> Bit(trkStat, 3))
  {
    assert Pow2(0) == 1 && Pow2(1) == 2 && Pow2(2) == 4 && Pow2(3) == 8;
    BitAndPow2(trkStat, 0);
    BitAndPow2(trkStat, 1);
    BitAndPow2(trkStat, 2);
    BitAndPow2(trkStat, 3);
  }

  /** Together the four tracking flags rebuild the low nibble of `trkStat`: no bit is lost or shared. */
  lemma TrackingNibble(prStdev: nat, cpStdev: nat, doStdev: nat, trkStat: nat)
    ensures var f := MeasurementFlagsOf(prStdev, cpStdev, doStdev, trkStat);
      trkStat % 16 == (if f.prValid then 1 else 0) + (if f.cpValid then 2 else 0)
                    + (if f.halfCyc then 4 else 0) + (if f.subHalfCyc then 8 else 0)
  {
    TrackingBits(prStdev, cpStdev, doStdev, trkStat);
    LowNibble(trkStat);
    assert Pow2(1) == 2;
  }

  // ---------------------------------------------------------------------------
  // RAWX frame

  /** One repeated RAWX measurement block, without its floating-point fields. */
  datatype RawxMeasurement = RawxMeasurement(
    gnssId: Gnss, svId: nat, sigId: nat, freqId: nat, locktime: nat, cno: nat,
    prStdev: nat, cpStdev: nat, doStdev: nat, trkStat: nat)

  /** A decoded RAWX message: the header values and the measurement blocks, by instance number. */
  datatype RawxMessage = RawxMessage(
    week: nat, leapS: int, numMeas: nat, recStat: nat, version: nat, meas: map<nat, RawxMeasurement>)

  /** A measurement as the readable frame shows it. */
  datatype MeasurementFrame = MeasurementFrame(
    gnssId: Gnss, svId: nat, sigId: nat, freqId: nat, locktime: nat, flags: MeasurementFlags)

  /** The readable RAWX frame. */
  datatype RawxFrame = RawxFrame(
    week: nat, leapS: int, numMeas: nat, receiver: ReceiverFlags, measurements: seq<MeasurementFrame>)

  /** The first of instances 1..n that the message lacks, if any. */
  function FirstMissing<T>(m: map<nat, T>, n: nat): (r: Option<nat>)
    ensures r.None? <==> forall k :: 1 <= k <= n ==> k in m
    ensures r.Some? ==> 1 <= r.value <= n && r.value !in m && forall k :: 1 <= k < r.value ==> k in m
  {
    if n == 0 then None
    else match FirstMissing(m, n - 1)
      case Some(k) => Some(k)
      case None => if n in m then None else Some(n)
  }

  function MeasurementFrameOf(x: RawxMeasurement): MeasurementFrame
  {
    MeasurementFrame(x.gnssId, x.svId, x.sigId, x.freqId, x.locktime,
      MeasurementFlagsOf(x.prStdev, x.cpStdev, x.doStdev, x.trkStat))
  }

  /**
   * The readable frame: time, week, leap seconds and count, the two receiver
   * flags, and one entry per measurement 1..numMeas in order. The first
   * measurement block the message lacks fails the lookup of its first field.
   */
  function Frame(msg: RawxMessage): (r: Result<RawxFrame, DecodeError>)
    ensures r.Ok? <==> forall k :: 1 <= k <= msg.numMeas ==> k in msg.meas
    ensures r.Err? ==>
      && r.error.FieldMissing? && r.error.name == "prMes"
      && 1 <= r.error.index <= msg.numMeas && r.error.index !in msg.meas
      && forall k :: 1 <= k < r.error.index ==> k in msg.meas
    ensures r.Ok? ==>
      && r.value.week == msg.week && r.value.leapS == msg.leapS && r.value.numMeas == msg.numMeas
      && r.value.receiver == ReceiverFlagsOf(msg.recStat)
      && |r.value.measurements| == msg.numMeas
      && forall i :: 0 <= i < msg.numMeas ==> r.value.measurements[i] == MeasurementFrameOf(msg.meas[i + 1])
  {
    match FirstMissing(msg.meas, msg.numMeas)
    case Some(k) => Err(FieldMissing("prMes", k))
    case None => Ok(RawxFrame(msg.week, msg.leapS, msg.numMeas, ReceiverFlagsOf(msg.recStat), Measurements(msg.meas, msg.numMeas)))
  }

  /** Measurements 1..n in order, as the frame shows them. */
  function Measurements(meas: map<nat, RawxMeasurement>, n: nat): (ms: seq<MeasurementFrame>)
    requires forall k :: 1 <= k <= n ==> k in meas
    ensures |ms| == n && forall i {:trigger ms[i]} :: 0 <= i < n ==> ms[i] == MeasurementFrameOf(meas[i + 1])
  {
    seq(n, i requires 0 <= i < n => MeasurementFrameOf(meas[i + 1]))
  }

  /**
   * In a frame built from a message, measurement i's flags are the bits of
   * block i + 1's `trkStat` and the receiver flags are bits 0 and 1 of `recStat`.
   */
  lemma FrameFlags(msg: RawxMessage, i: nat)
    requires Frame(msg).Ok? && i < msg.numMeas
    ensures var f := Frame(msg).value;
      var t := msg.meas[i + 1].trkStat;
      && (f.receiver.leapSecDetermined <==> Bit(msg.recStat, 0))
      && (f.receiver.clkReset <==> Bit(msg.recStat, 1))
      && (f.measurements[i].flags.prValid <==> Bit(t, 0)) && (f.measurements[i].flags.cpValid <==> Bit(t, 1))
      && (f.measurements[i].flags.halfCyc <==> Bit(t, 2)) && (f.measurements[i].flags.subHalfCyc <==> Bit(t, 3))
  {
    var x := msg.meas[i + 1];
    ReceiverFlagsBits(msg.recStat);
    TrackingBits(x.prStdev, x.cpStdev, x.doStdev, x.trkStat);
  }
}
