/**
 * The browser side of the H.264 screen stream: the streaming NAL demuxer that
 * feeds a WebCodecs `VideoDecoder`, the chunk-reassembly buffers in front of the
 * JMuxer and Broadway players, and the factory that chooses among them.
 */
module H264Renderer {
  import opened Wrappers
  import opened Nal

  // ---------------------------------------------------------------------------
  // Streaming NAL demuxer
  // ---------------------------------------------------------------------------

  /** The parser throws its buffer away once it holds more than 5 MiB. */
  const MaxParserBuffer: nat := 5 * 1024 * 1024

  /** The parser's buffer after `push(data)`. */
  function Pushed(buffer: seq<byte>, data: seq<byte>): (r: seq<byte>)
    ensures |buffer| <= MaxParserBuffer ==> r == buffer + data
    ensures |buffer| > MaxParserBuffer ==> r == data
  {
    (if |buffer| > MaxParserBuffer then [] else buffer) + data
  }

  /** The units `extractNALUnits` returns: the slices between consecutive start codes. */
  function ExtractedUnits(buffer: seq<byte>): seq<seq<byte>> {
    Between(buffer, ScanStarts(buffer, 0))
  }

  /** What `extractNALUnits` keeps: everything from the last start code, or the whole buffer if there is none. */
  function Retained(buffer: seq<byte>): seq<byte> {
    var starts := ScanStarts(buffer, 0);
    if starts == [] then buffer else buffer[Last(starts)..]
  }

  class H264Parser {
    var buffer: seq<byte>

    constructor()
      ensures buffer == []
    {
      buffer := [];
    }

    method Push(data: seq<byte>)
      modifies this
      ensures buffer == Pushed(old(buffer), data)
    {
      if |buffer| > MaxParserBuffer {
        buffer := [];
      }
      buffer := buffer + data;
    }

    method Clear()
      modifies this
      ensures buffer == []
    {
      buffer := [];
    }

    method ExtractNalUnits() returns (units: seq<seq<byte>>)
      modifies this
      ensures units == ExtractedUnits(old(buffer))
      ensures buffer == Retained(old(buffer))
    {
      var buf := buffer;
      var start := -1;
      var i := 0;
      units := [];
      while i + 3 < |buf|
        invariant start < i && start < |buf|
        invariant units + BetweenFrom(buf, i, start) == BetweenFrom(buf, 0, -1)
        invariant LastFrom(buf, i, start) == LastFrom(buf, 0, -1)
        invariant buffer == buf
        decreases |buf| - i
      {
        BetweenFromStep(buf, i, start);
        if buf[i] == 0 && buf[i + 1] == 0 {
          var startCodeLen := 0;
          if buf[i + 2] == 1 {
            startCodeLen := 3;
          } else if buf[i + 2] == 0 && i + 3 < |buf| && buf[i + 3] == 1 {
            startCodeLen := 4;
          }
          if startCodeLen > 0 {
            assert startCodeLen == CodeLength(buf, i);
            ghost var before := units;
            ghost var step := if start >= 0 then [buf[start..i]] else [];
            if start >= 0 {
              units := units + [buf[start..i]];
            }
            assert units == before + step;
            Associative(before, step, BetweenFrom(buf, i + startCodeLen, i));
            start := i;
            i := i + startCodeLen;
            continue;
          }
        }
        i := i + 1;
      }
      BetweenFromIsBetween(buf, 0);
      if start >= 0 {
        buffer := buf[start..];
      }
    }
  }

  /**
   * Extraction loses nothing from the first start code on: the extracted units
   * followed by the retained buffer are the old buffer from its first start code,
   * the retained part begins at a start code, and a buffer without any start code
   * yields no unit and is kept whole.
   */
  lemma ExtractKeepsStream(buffer: seq<byte>)
    ensures var starts := ScanStarts(buffer, 0);
      starts != [] ==>
        && Flatten(ExtractedUnits(buffer)) + Retained(buffer) == buffer[starts[0]..]
        && (ThreeByteCodeAt(Retained(buffer), 0) || FourByteCodeAt(Retained(buffer), 0))
    ensures NoCodeFrom(buffer, 0) <==> ExtractedUnits(buffer) == [] && Retained(buffer) == buffer && ScanStarts(buffer, 0) == []
  {
    var starts := ScanStarts(buffer, 0);
    ScanEmptyIffNoCode(buffer, 0);
    if starts != [] {
      BetweenFlatten(buffer, starts);
      var last := Last(starts);
      assert buffer[starts[0]..] == buffer[starts[0]..last] + buffer[last..];
      var r := buffer[last..];
      assert ThreeByteCodeAt(buffer, last) || FourByteCodeAt(buffer, last);
      assert r[0] == buffer[last] && r[1] == buffer[last + 1] && r[2] == buffer[last + 2] && r[3] == buffer[last + 3];
    } else {
      assert ExtractedUnits(buffer) == [];
    }
  }

  /**
   * `getNALType`: the header offset is 4 after a four-byte start code, 3 after a
   * three-byte one, and 0 otherwise.
   */
  function HeaderOffset(unit: seq<byte>): nat {
    if |unit| > 4 && FourByteCodeAt(unit, 0) then 4
    else if |unit| > 3 && ThreeByteCodeAt(unit, 0) then 3
    else 0
  }

  function GetNalType(unit: seq<byte>): (t: int)
    ensures -1 <= t < 32
    ensures t == -1 <==> unit == []
    ensures t >= 0 ==> HeaderOffset(unit) < |unit| && t == NalType(unit[HeaderOffset(unit)])
  {
    var offset := HeaderOffset(unit);
    if offset >= |unit| then -1 else NalType(unit[offset])
  }

  /** The type is read from the byte after a start code, or from the first byte when there is none. */
  lemma GetNalTypeAfterStartCode(unit: seq<byte>)
    ensures |unit| > 4 && FourByteCodeAt(unit, 0) ==> GetNalType(unit) == NalType(unit[4])
    ensures |unit| > 3 && ThreeByteCodeAt(unit, 0) ==> GetNalType(unit) == NalType(unit[3])
    ensures unit != [] && unit[0] != 0 ==> GetNalType(unit) == NalType(unit[0])
  {
  }

  // ---------------------------------------------------------------------------
  // AVC decoder configuration record and length-prefixed samples
  // ---------------------------------------------------------------------------

  /**
   * The unit without its start code: 4 bytes are skipped after `00 00 00 01` and
   * 3 otherwise (whatever those three bytes are).
   */
  function StripStartCode(unit: seq<byte>): (data: seq<byte>)
    ensures FourByteCodeAt(unit, 0) ==> unit == unit[..4] + data
    ensures !FourByteCodeAt(unit, 0) && |unit| >= 3 ==> unit == unit[..3] + data
    ensures |unit| < 3 ==> data == []
  {
    if FourByteCodeAt(unit, 0) then unit[4..] else if |unit| >= 3 then unit[3..] else []
  }

  /** Reading past the end of a typed array gives `undefined`, which is stored as 0. */
  function ByteAt(s: seq<byte>, i: nat): byte {
    if i < |s| then s[i] else 0
  }

  /** `(n >> 8) & 0xff` and `n & 0xff`. */
  function HighByte(n: nat): byte {
    ((n / 256) % 256) as byte
  }

  function LowByte(n: nat): byte {
    (n % 256) as byte
  }

  /**
   * The `AVCDecoderConfigurationRecord` of ISO/IEC 14496-15 (section 5.3.3.1) that
   * `configure` passes as the decoder's description: version 1, the profile,
   * compatibility and level bytes copied from the SPS, 4-byte NAL lengths, one
   * SPS and one PPS each behind a 16-bit length.
   */
  function DecoderConfigRecord(sps: seq<byte>, pps: seq<byte>): (record: seq<byte>)
    ensures |record| == 11 + |StripStartCode(sps)| + |StripStartCode(pps)|
  {
    var spsData := StripStartCode(sps);
    var ppsData := StripStartCode(pps);
    [1, ByteAt(spsData, 1), ByteAt(spsData, 2), ByteAt(spsData, 3), 0xff, 0xe1, HighByte(|spsData|), LowByte(|spsData|)]
      + spsData + [1, HighByte(|ppsData|), LowByte(|ppsData|)] + ppsData
  }

  datatype ParameterSets = ParameterSets(sps: seq<byte>, pps: seq<byte>)

  /** A reader for records with one SPS and one PPS, the partner of `DecoderConfigRecord`. */
  function ParseDecoderConfigRecord(record: seq<byte>): (r: Option<ParameterSets>)
    ensures r.Some? ==> |record| == 11 + |r.value.sps| + |r.value.pps| && record[0] == 1 && record[5] == 0xe1
  {
    if |record| < 8 || record[0] != 1 || record[5] != 0xe1 then None
    else
      var spsLength := record[6] as int * 256 + record[7] as int;
      if |record| < 11 + spsLength || record[8 + spsLength] != 1 then None
      else
        var ppsLength := record[9 + spsLength] as int * 256 + record[10 + spsLength] as int;
        if |record| != 11 + spsLength + ppsLength then None
        else Some(ParameterSets(record[8..8 + spsLength], record[11 + spsLength..]))
  }

  /** Parameter sets shorter than 64 KiB can be read back from the record. */
  lemma DecoderConfigRoundTrip(sps: seq<byte>, pps: seq<byte>)
    requires |StripStartCode(sps)| < 65536 && |StripStartCode(pps)| < 65536
    ensures ParseDecoderConfigRecord(DecoderConfigRecord(sps, pps)) == Some(ParameterSets(StripStartCode(sps), StripStartCode(pps)))
  {
    var s, p := StripStartCode(sps), StripStartCode(pps);
    var record := DecoderConfigRecord(sps, pps);
    assert record[6] as int * 256 + record[7] as int == |s|;
    assert record[8..8 + |s|] == s;
    assert record[8 + |s|] == 1;
    assert record[9 + |s|] as int * 256 + record[10 + |s|] as int == |p|;
    assert record[11 + |s|..] == p;
  }

  /**
   * The fixed bytes of the record: version 1, the SPS's profile, compatibility and
   * level bytes, `lengthSizeMinusOne` = 3 (the 4-byte prefixes `DecodeStep` writes)
   * and exactly one SPS.
   */
  lemma DecoderConfigHeader(sps: seq<byte>, pps: seq<byte>)
    ensures var record := DecoderConfigRecord(sps, pps);
      var spsData := StripStartCode(sps);
      && record[0] == 1
      && (|spsData| >= 4 ==> record[1..4] == spsData[1..4])
      && record[4] as int % 4 + 1 == 4
      && record[5] as int % 32 == 1
  {
  }

  /** `dest.set(src, at)`: copies `src` into `dest` from index `at` on, leaving the rest alone. */
  method CopyInto(dest: array<byte>, at: nat, src: seq<byte>)
    requires at + |src| <= dest.Length
    modifies dest
    ensures dest[..at] == old(dest[..at])
    ensures dest[at..at + |src|] == src
    ensures dest[at + |src|..] == old(dest[at + |src|..])
  {
    forall k | 0 <= k < |src| {
      dest[at + k] := src[k];
    }
  }

  /**
   * The record, written into a fresh typed array with a running offset: the eight
   * header bytes, the SPS, the PPS count and length, the PPS.
   */
  method BuildDecoderConfig(sps: seq<byte>, pps: seq<byte>) returns (config: array<byte>)
    ensures fresh(config)
    ensures config[..] == DecoderConfigRecord(sps, pps)
  {
    var spsData := StripStartCode(sps);
    var ppsData := StripStartCode(pps);
    config := new byte[11 + |spsData| + |ppsData|];
    var offset := 0;
    var header: seq<byte> := [1, ByteAt(spsData, 1), ByteAt(spsData, 2), ByteAt(spsData, 3), 0xff, 0xe1, HighByte(|spsData|), LowByte(|spsData|)];
    CopyInto(config, offset, header);
    offset := offset + |header|;
    CopyInto(config, offset, spsData);
    assert config[..offset + |spsData|] == header + spsData;
    offset := offset + |spsData|;
    var middle: seq<byte> := [1, HighByte(|ppsData|), LowByte(|ppsData|)];
    CopyInto(config, offset, middle);
    assert config[..offset + |middle|] == header + spsData + middle;
    offset := offset + |middle|;
    CopyInto(config, offset, ppsData);
    assert config[..] == config[..offset] + config[offset..offset + |ppsData|];
  }

  /** A sample in the record's framing: the 4-byte big-endian length of the NAL data, then the data. */
  function LengthPrefixed(nal: seq<byte>): (framed: seq<byte>)
    ensures |framed| == 4 + |nal| && framed[4..] == nal
  {
    var n := |nal|;
    [LowByte(n / 0x100 / 0x100 / 0x100), LowByte(n / 0x100 / 0x100), LowByte(n / 0x100), LowByte(n)] + nal
  }

  function ReadLength(framed: seq<byte>): nat
    requires |framed| >= 4
  {
    ((framed[0] as nat * 0x100 + framed[1] as nat) * 0x100 + framed[2] as nat) * 0x100 + framed[3] as nat
  }

  /** Below 4 GiB the prefix reads back as the length of what follows it. */
  lemma LengthPrefixRoundTrip(nal: seq<byte>)
    requires |nal| < 0x1_0000_0000
    ensures ReadLength(LengthPrefixed(nal)) == |nal|
    ensures LengthPrefixed(nal)[4..] == nal
  {
    var n := |nal|;
    var q1 := n / 0x100;
    var q2 := q1 / 0x100;
    var q3 := q2 / 0x100;
    assert n == q1 * 0x100 + n % 0x100;
    assert q1 == q2 * 0x100 + q1 % 0x100;
    assert q2 == q3 * 0x100 + q2 % 0x100;
    assert q3 < 0x100;
    var framed := LengthPrefixed(nal);
    assert framed[0] as nat == q3 && framed[1] as nat == q2 % 0x100;
    assert framed[2] as nat == q1 % 0x100 && framed[3] as nat == n % 0x100;
  }

  // ---------------------------------------------------------------------------
  // Broadway splitters
  // ---------------------------------------------------------------------------

  /**
   * `_splitNALUnits`: the units from each start code to the next, the last one
   * running to the end; data without a start code is one unit, empty data none.
   */
  function BroadwayUnits(data: seq<byte>): seq<seq<byte>> {
    var starts := ScanStarts(data, 0);
    if starts == [] then (if |data| > 0 then [data] else []) else Cut(data, starts)
  }

  /**
   * Each split unit is non-empty; with a start code present every unit begins
   * at one and together they are the data from its first start code, and with
   * none the data comes back whole.
   */
  lemma BroadwayUnitsCover(data: seq<byte>)
    ensures data == [] ==> BroadwayUnits(data) == []
    ensures NoCodeFrom(data, 0) && data != [] ==> BroadwayUnits(data) == [data]
    ensures var starts := ScanStarts(data, 0);
      starts != [] ==>
        && Flatten(BroadwayUnits(data)) == data[starts[0]..]
        && forall k :: 0 <= k < |BroadwayUnits(data)| ==>
             ThreeByteCodeAt(BroadwayUnits(data)[k], 0) || FourByteCodeAt(BroadwayUnits(data)[k], 0)
  {
    var starts := ScanStarts(data, 0);
    ScanEmptyIffNoCode(data, 0);
    if starts != [] {
      CutFlatten(data, starts);
      var units := Cut(data, starts);
      forall k | 0 <= k < |units|
        ensures ThreeByteCodeAt(units[k], 0) || FourByteCodeAt(units[k], 0)
      {
        CutUnitStartsWithCode(data, k);
      }
    }
  }

  /** The `k`-th piece cut at the scanned starts begins with the start code found there. */
  lemma CutUnitStartsWithCode(data: seq<byte>, k: nat)
    requires k < |ScanStarts(data, 0)|
    ensures var u := Cut(data, ScanStarts(data, 0))[k];
      ThreeByteCodeAt(u, 0) || FourByteCodeAt(u, 0)
  {
    var starts := ScanStarts(data, 0);
    var p := starts[k];
    var e := SliceEnd(data, starts, k);
    if k + 1 < |starts| {
      ScanGap(data, 0, k);
    }
    assert p + CodeLength(data, p) <= e;
    var u := data[p..e];
    assert Cut(data, starts)[k] == u;
    assert u[0] == data[p] && u[1] == data[p + 1] && u[2] == data[p + 2];
    if FourByteCodeAt(data, p) {
      assert u[3] == data[p + 3];
    }
  }

  method SplitNalUnits(data: seq<byte>) returns (units: seq<seq<byte>>)
    ensures units == BroadwayUnits(data)
  {
    units := [];
    var i := 0;
    var lastStart := -1;
    while i + 3 < |data|
      invariant lastStart < i && lastStart < |data|
      invariant units + BetweenFrom(data, i, lastStart) == BetweenFrom(data, 0, -1)
      invariant LastFrom(data, i, lastStart) == LastFrom(data, 0, -1)
      decreases |data| - i
    {
      BetweenFromStep(data, i, lastStart);
      if data[i] == 0 && data[i + 1] == 0 {
        if data[i + 2] == 0 && data[i + 3] == 1 {
          ghost var before := units;
          ghost var step := if lastStart >= 0 then [data[lastStart..i]] else [];
          if lastStart >= 0 {
            units := units + [data[lastStart..i]];
          }
          assert units == before + step;
          Associative(before, step, BetweenFrom(data, i + 4, i));
          lastStart := i;
          i := i + 4;
          continue;
        } else if data[i + 2] == 1 {
          ghost var before := units;
          ghost var step := if lastStart >= 0 then [data[lastStart..i]] else [];
          if lastStart >= 0 {
            units := units + [data[lastStart..i]];
          }
          assert units == before + step;
          Associative(before, step, BetweenFrom(data, i + 3, i));
          lastStart := i;
          i := i + 3;
          continue;
        }
      }
      i := i + 1;
    }
    BetweenFromIsBetween(data, 0);
    var starts := ScanStarts(data, 0);
    if lastStart >= 0 {
      CutIsBetweenAndTail(data, starts);
      units := units + [data[lastStart..]];
    } else if |data| > 0 {
      units := units + [data];
    }
  }

  /**
   * `_extractCompleteNALUnits`: with two or more start codes, the units between
   * them and the tail from the last one; with exactly one, the whole data as one
   * unit once it exceeds 100000 bytes; otherwise nothing, keeping all the data.
   */
  const CompleteUnitThreshold: nat := 100000

  function CompleteUnits(data: seq<byte>): (seq<seq<byte>>, seq<byte>) {
    var starts := ScanStarts(data, 0);
    if |starts| >= 2 then (Between(data, starts), data[Last(starts)..])
    else if |starts| == 1 && |data| > CompleteUnitThreshold then ([data], [])
    else ([], data)
  }

  /**
   * The emitted units followed by what is kept are the data from its first start
   * code (the whole data when fewer than two start codes were found), and the
   * kept part starts at a start code whenever units were cut between two.
   */
  lemma CompleteUnitsConserve(data: seq<byte>)
    ensures var (units, remaining) := CompleteUnits(data);
      var starts := ScanStarts(data, 0);
      && (|starts| >= 2 ==> Flatten(units) + remaining == data[starts[0]..] && |units| == |starts| - 1)
      && (|starts| < 2 ==> Flatten(units) + remaining == data)
      && (|starts| == 1 && |data| > CompleteUnitThreshold <==> remaining == [] && units != [])
  {
    var starts := ScanStarts(data, 0);
    if |starts| >= 2 {
      BetweenFlatten(data, starts);
      var last := Last(starts);
      assert data[starts[0]..] == data[starts[0]..last] + data[last..];
      assert last + 3 < |data|;
    } else if |starts| == 1 && |data| > CompleteUnitThreshold {
      FlattenOne(data);
    }
  }

  /** The first loop of `_extractCompleteNALUnits`: every start-code position, in stream order. */
  method FindStartPositions(data: seq<byte>) returns (startPositions: seq<nat>)
    ensures startPositions == ScanStarts(data, 0)
  {
    startPositions := [];
    var i := 0;
    while i + 3 < |data|
      invariant startPositions + ScanStarts(data, i) == ScanStarts(data, 0)
      decreases |data| - i
    {
      ScanStep(data, i);
      if data[i] == 0 && data[i + 1] == 0 {
        if data[i + 2] == 0 && data[i + 3] == 1 {
          Associative(startPositions, [i], ScanStarts(data, i + 4));
          startPositions := startPositions + [i];
          i := i + 4;
          continue;
        } else if data[i + 2] == 1 {
          Associative(startPositions, [i], ScanStarts(data, i + 3));
          startPositions := startPositions + [i];
          i := i + 3;
          continue;
        }
      }
      i := i + 1;
    }
  }

  method ExtractCompleteNalUnits(data: seq<byte>) returns (units: seq<seq<byte>>, remaining: seq<byte>)
    ensures (units, remaining) == CompleteUnits(data)
  {
    var startPositions := FindStartPositions(data);
    assert startPositions == ScanStarts(data, 0);
    if |startPositions| >= 2 {
      units := [];
      for j := 0 to |startPositions| - 1
        invariant |units| == j
        invariant forall m :: 0 <= m < j ==> units[m] == data[startPositions[m]..startPositions[m + 1]]
      {
        units := units + [data[startPositions[j]..startPositions[j + 1]]];
      }
      assert units == Between(data, startPositions);
      remaining := data[startPositions[|startPositions| - 1]..];
      assert remaining == data[Last(startPositions)..];
    } else if |startPositions| == 1 {
      if |data| > CompleteUnitThreshold {
        units, remaining := [data], [];
      } else {
        units, remaining := [], data;
      }
    } else {
      units, remaining := [], data;
    }
  }

  // ---------------------------------------------------------------------------
  // WebCodecs renderer
  // ---------------------------------------------------------------------------

  /** The codec string `configure` always asks for (baseline profile, level 3.0). */
  const Codec: string := "avc1.42E01E"

  /** Microseconds added to the timestamp of each decoded frame (about 30 frames per second). */
  const FrameInterval: int := 33333

  /** `_decodeFrame` gives up while more than this many frames are in flight. */
  const MaxPendingFrames: int := 10

  datatype DecoderConfig = DecoderConfig(codec: string, codedWidth: int, codedHeight: int, description: seq<byte>)

  /**
   * The `VideoDecoder`'s own state. A decoder that reported an error is closed, and
   * `configure` on a closed decoder throws.
   */
  datatype DecoderStatus = Unconfigured | Configured(config: DecoderConfig) | Closed

  datatype EncodedChunk = EncodedChunk(key: bool, timestamp: int, data: seq<byte>)

  /** The renderer's fields that the NAL units drive. */
  datatype CodecSide = CodecSide(
    decoder: Option<DecoderStatus>,
    isConfigured: bool,
    videoWidth: int,
    videoHeight: int,
    sps: Option<seq<byte>>,
    pps: Option<seq<byte>>,
    frameTimestamp: int,
    pendingFrames: int)

  predicate DecoderReady(s: CodecSide) {
    s.decoder.Some? && s.decoder.value.Configured?
  }

  /** A configured renderer has both parameter sets and a configured decoder. */
  predicate Coherent(s: CodecSide) {
    s.isConfigured ==> s.sps.Some? && s.pps.Some? && DecoderReady(s)
  }

  /** `value || fallback` on a number. */
  function OrDefault(value: int, fallback: int): int {
    if value == 0 then fallback else value
  }

  /** `configure(width, height, sps, pps)`. */
  function ConfigureStep(s: CodecSide, width: int, height: int, sps: seq<byte>, pps: seq<byte>): CodecSide {
    if s.decoder.None? then s
    else
      var sized := s.(videoWidth := width, videoHeight := height);
      if s.decoder.value.Closed? then sized.(isConfigured := false)
      else sized.(decoder := Some(Configured(DecoderConfig(Codec, width, height, DecoderConfigRecord(sps, pps)))),
                  isConfigured := true, frameTimestamp := 0)
  }

  /** `_decodeFrame(unit, key)`: the chunk handed to the decoder, if any. */
  function DecodeStep(s: CodecSide, unit: seq<byte>, key: bool): (CodecSide, Option<EncodedChunk>) {
    if !DecoderReady(s) || s.pendingFrames > MaxPendingFrames then (s, None)
    else
      var timestamp := s.frameTimestamp + FrameInterval;
      (s.(frameTimestamp := timestamp, pendingFrames := s.pendingFrames + 1),
       Some(EncodedChunk(key, timestamp, LengthPrefixed(StripStartCode(unit)))))
  }

  /** `_processNALUnit(unit)`. */
  function NalStep(s: CodecSide, unit: seq<byte>): (CodecSide, Option<EncodedChunk>) {
    var t := GetNalType(unit);
    if t == 7 then (s.(sps := Some(unit), isConfigured := false), None)
    else if t == 8 then
      var stored := s.(pps := Some(unit));
      if stored.sps.Some? && !stored.isConfigured then
        (ConfigureStep(stored, OrDefault(stored.videoWidth, 720), OrDefault(stored.videoHeight, 1280), stored.sps.value, unit), None)
      else (stored, None)
    else if (t == 5 || t == 1) && s.isConfigured && DecoderReady(s) then DecodeStep(s, unit, t == 5)
    else (s, None)
  }

  function Present<T>(o: Option<T>): seq<T> {
    if o.Some? then [o.value] else []
  }

  /** The units processed in order: the final fields and the chunks decoded along the way. */
  function NalSteps(s: CodecSide, units: seq<seq<byte>>): (CodecSide, seq<EncodedChunk>)
    decreases |units|
  {
    if units == [] then (s, [])
    else
      var (before, chunks) := NalSteps(s, units[..|units| - 1]);
      var (after, chunk) := NalStep(before, units[|units| - 1]);
      (after, chunks + Present(chunk))
  }

  /** Processing one more unit. */
  lemma NalStepsSnoc(s: CodecSide, units: seq<seq<byte>>, unit: seq<byte>)
    ensures NalSteps(s, units + [unit]) ==
      (NalStep(NalSteps(s, units).0, unit).0, NalSteps(s, units).1 + Present(NalStep(NalSteps(s, units).0, unit).1))
  {
    assert (units + [unit])[..|units|] == units;
  }

  /** The state and chunks after `i` units, followed by one more step, are those after `i + 1` units. */
  lemma NalStepsPrefix(s: CodecSide, units: seq<seq<byte>>, i: nat, side: CodecSide, chunks: seq<EncodedChunk>,
                       next: CodecSide, chunk: Option<EncodedChunk>)
    requires i < |units|
    requires (side, chunks) == NalSteps(s, units[..i]) && (next, chunk) == NalStep(side, units[i])
    ensures (next, chunks + Present(chunk)) == NalSteps(s, units[..i + 1])
  {
    assert units[..i + 1] == units[..i] + [units[i]];
    NalStepsSnoc(s, units[..i], units[i]);
  }

  /**
   * A unit reaches the decoder exactly when it is a slice (type 1) or an IDR slice
   * (type 5), the renderer and its decoder are configured, and at most ten frames
   * are in flight.
   */
  lemma DecodeOnlyWhenConfigured(s: CodecSide, unit: seq<byte>)
    ensures NalStep(s, unit).1.Some? <==>
      (GetNalType(unit) == 1 || GetNalType(unit) == 5) && s.isConfigured && DecoderReady(s) && s.pendingFrames <= MaxPendingFrames
  {
  }

  /**
   * A decoded chunk is a key chunk exactly for an IDR slice, is stamped one frame
   * interval after the previous timestamp, and carries the unit without its start
   * code behind a 4-byte big-endian length.
   */
  lemma ChunkCarriesUnit(s: CodecSide, unit: seq<byte>)
    requires NalStep(s, unit).1.Some?
    requires |StripStartCode(unit)| < 0x1_0000_0000
    ensures var (after, chunk) := NalStep(s, unit);
      && (chunk.value.key <==> GetNalType(unit) == 5)
      && chunk.value.timestamp == s.frameTimestamp + FrameInterval == after.frameTimestamp
      && ReadLength(chunk.value.data) == |StripStartCode(unit)|
      && chunk.value.data[4..] == StripStartCode(unit)
      && after.pendingFrames == s.pendingFrames + 1
      && after.decoder == s.decoder && after.sps == s.sps && after.pps == s.pps
  {
    LengthPrefixRoundTrip(StripStartCode(unit));
  }

  /**
   * An SPS clears the configured flag; a PPS is stored and configures the decoder
   * only when an SPS is known and the renderer is not configured yet; any other
   * type leaves the parameter sets alone.
   */
  lemma ParameterSetHandling(s: CodecSide, unit: seq<byte>)
    ensures GetNalType(unit) == 7 ==> NalStep(s, unit).0 == s.(sps := Some(unit), isConfigured := false)
    ensures GetNalType(unit) == 8 ==>
      && NalStep(s, unit).0.pps == Some(unit)
      && (s.isConfigured || s.sps.None? ==> NalStep(s, unit).0 == s.(pps := Some(unit)))
    ensures GetNalType(unit) != 7 && GetNalType(unit) != 8 ==>
      NalStep(s, unit).0.sps == s.sps && NalStep(s, unit).0.pps == s.pps && NalStep(s, unit).0.decoder == s.decoder
  {
  }

  /** Processing a unit keeps a coherent renderer coherent. */
  lemma NalStepCoherent(s: CodecSide, unit: seq<byte>)
    requires Coherent(s)
    ensures Coherent(NalStep(s, unit).0)
  {
  }

  /**
   * An SPS followed by a PPS configures a live (not closed) decoder with the
   * record built from exactly these two units, restarting the timestamps.
   */
  lemma SpsThenPpsConfigures(s: CodecSide, sps: seq<byte>, pps: seq<byte>)
    requires s.decoder.Some? && !s.decoder.value.Closed?
    requires GetNalType(sps) == 7 && GetNalType(pps) == 8
    ensures var after := NalSteps(s, [sps, pps]).0;
      && after.isConfigured
      && after.decoder == Some(Configured(DecoderConfig(Codec, after.videoWidth, after.videoHeight, DecoderConfigRecord(sps, pps))))
      && after.frameTimestamp == 0
      && after.videoWidth == OrDefault(s.videoWidth, 720) && after.videoHeight == OrDefault(s.videoHeight, 1280)
      && NalSteps(s, [sps, pps]).1 == []
  {
    var mid := s.(sps := Some(sps), isConfigured := false);
    NalStepsSnoc(s, [], sps);
    assert [] + [sps] == [sps];
    NalStepsSnoc(s, [sps], pps);
    assert [sps] + [pps] == [sps, pps];
    assert NalSteps(s, [sps]).0 == mid;
  }

  /**
   * Once the decoder has closed after an error, no unit reaches it again and the
   * renderer stays unconfigured until it is started afresh.
   */
  lemma {:induction false} ClosedDecoderStaysSilent(s: CodecSide, units: seq<seq<byte>>)
    requires s.decoder == Some(Closed) && !s.isConfigured
    ensures NalSteps(s, units).1 == []
    ensures NalSteps(s, units).0.decoder == Some(Closed) && !NalSteps(s, units).0.isConfigured
    decreases |units|
  {
    if units != [] {
      ClosedDecoderStaysSilent(s, units[..|units| - 1]);
    }
  }

  class WebCodecsRenderer {
    const parser: H264Parser
    var running: bool
    var dataCount: nat
    var decoder: Option<DecoderStatus>
    var isConfigured: bool
    var videoWidth: int
    var videoHeight: int
    var sps: Option<seq<byte>>
    var pps: Option<seq<byte>>
    var frameTimestamp: int
    var pendingFrames: int

    function Side(): CodecSide
      reads this
    {
      CodecSide(decoder, isConfigured, videoWidth, videoHeight, sps, pps, frameTimestamp, pendingFrames)
    }

    predicate Valid()
      reads this
    {
      Coherent(Side())
    }

    constructor()
      ensures fresh(parser) && parser.buffer == []
      ensures !running && dataCount == 0
      ensures Side() == CodecSide(None, false, 0, 0, None, None, 0, 0)
      ensures Valid()
    {
      parser := new H264Parser();
      running := false;
      dataCount := 0;
      decoder := None;
      isConfigured := false;
      videoWidth, videoHeight := 0, 0;
      sps, pps := None, None;
      frameTimestamp, pendingFrames := 0, 0;
    }

    /** `start` and `_createDecoder`: a fresh, unconfigured decoder replaces any old one. */
    method Start() returns (ok: bool)
      modifies this
      ensures ok && running
      ensures Side() == old(Side()).(decoder := Some(Unconfigured), isConfigured := false)
      ensures dataCount == old(dataCount)
      ensures Valid()
    {
      running := true;
      decoder := Some(Unconfigured);
      isConfigured := false;
      ok := true;
    }

    method Stop()
      modifies this, parser
      ensures !running
      ensures Side() == old(Side()).(decoder := None, isConfigured := false)
      ensures parser.buffer == []
      ensures dataCount == old(dataCount)
      ensures Valid()
    {
      running := false;
      decoder := None;
      isConfigured := false;
      parser.Clear();
    }

    method SetSize(width: int, height: int)
      modifies this
      ensures Side() == old(Side()).(videoWidth := width, videoHeight := height)
      ensures running == old(running) && dataCount == old(dataCount)
    {
      videoWidth := width;
      videoHeight := height;
    }

    /** The decoder's error callback: the decoder closes, and the renderer forgets its configuration and buffered bytes. */
    method OnDecoderError()
      modifies this, parser
      ensures Side() == old(Side()).(decoder := if old(decoder).Some? then Some(Closed) else None, isConfigured := false)
      ensures parser.buffer == []
      ensures running == old(running) && dataCount == old(dataCount)
      ensures Valid()
    {
      if decoder.Some? {
        decoder := Some(Closed);
      }
      isConfigured := false;
      parser.Clear();
    }

    /** The decoder's output callback: one frame fewer in flight; a running renderer adopts the frame's size. */
    method OnFrameOutput(frameWidth: int, frameHeight: int)
      modifies this
      ensures Side() == old(Side()).(pendingFrames := old(pendingFrames) - 1,
        videoWidth := if old(running) then frameWidth else old(videoWidth),
        videoHeight := if old(running) then frameHeight else old(videoHeight))
      ensures running == old(running) && dataCount == old(dataCount)
      ensures old(Valid()) ==> Valid()
    {
      pendingFrames := pendingFrames - 1;
      if running && (videoWidth != frameWidth || videoHeight != frameHeight) {
        videoWidth := frameWidth;
        videoHeight := frameHeight;
      }
    }

    method Configure(width: int, height: int, spsUnit: seq<byte>, ppsUnit: seq<byte>)
      modifies this
      ensures Side() == ConfigureStep(old(Side()), width, height, spsUnit, ppsUnit)
      ensures running == old(running) && dataCount == old(dataCount)
    {
      if decoder.None? {
        return;
      }
      videoWidth := width;
      videoHeight := height;
      var config := BuildDecoderConfig(spsUnit, ppsUnit);
      if decoder.value.Closed? {
        isConfigured := false;
      } else {
        decoder := Some(Configured(DecoderConfig(Codec, width, height, config[..])));
        isConfigured := true;
        frameTimestamp := 0;
      }
    }

    method DecodeFrame(unit: seq<byte>, isKeyframe: bool) returns (chunk: Option<EncodedChunk>)
      modifies this
      ensures (Side(), chunk) == DecodeStep(old(Side()), unit, isKeyframe)
      ensures running == old(running) && dataCount == old(dataCount)
    {
      if decoder.None? || !decoder.value.Configured? {
        return None;
      }
      if pendingFrames > MaxPendingFrames {
        return None;
      }
      var nalData := StripStartCode(unit);
      var lengthPrefixed := LengthPrefixed(nalData);
      frameTimestamp := frameTimestamp + FrameInterval;
      chunk := Some(EncodedChunk(isKeyframe, frameTimestamp, lengthPrefixed));
      pendingFrames := pendingFrames + 1;
    }

    method ProcessNalUnit(unit: seq<byte>) returns (chunk: Option<EncodedChunk>)
      modifies this
      ensures (Side(), chunk) == NalStep(old(Side()), unit)
      ensures running == old(running) && dataCount == old(dataCount)
    {
      var nalType := GetNalType(unit);
      chunk := None;
      if nalType < 0 {
        return;
      }
      if nalType == 7 {
        sps := Some(unit);
        isConfigured := false;
      } else if nalType == 8 {
        pps := Some(unit);
        if sps.Some? && !isConfigured {
          Configure(OrDefault(videoWidth, 720), OrDefault(videoHeight, 1280), sps.value, pps.value);
        }
      } else if nalType == 5 || nalType == 1 {
        if isConfigured && decoder.Some? && decoder.value.Configured? {
          chunk := DecodeFrame(unit, nalType == 5);
        }
      }
    }

    /** `_processArrayBuffer`: push the bytes, then process every complete unit in order. */
    method ProcessArrayBuffer(data: seq<byte>) returns (chunks: seq<EncodedChunk>)
      modifies this, parser
      ensures parser.buffer == Retained(Pushed(old(parser.buffer), data))
      ensures (Side(), chunks) == NalSteps(old(Side()), ExtractedUnits(Pushed(old(parser.buffer), data)))
      ensures running == old(running) && dataCount == old(dataCount)
    {
      parser.Push(data);
      var nalUnits := parser.ExtractNalUnits();
      ghost var start := Side();
      chunks := [];
      for i := 0 to |nalUnits|
        invariant (Side(), chunks) == NalSteps(start, nalUnits[..i])
        invariant parser.buffer == Retained(Pushed(old(parser.buffer), data))
        invariant running == old(running) && dataCount == old(dataCount)
      {
        ghost var before := Side();
        var chunk := ProcessNalUnit(nalUnits[i]);
        NalStepsPrefix(start, nalUnits, i, before, chunks, Side(), chunk);
        chunks := chunks + Present(chunk);
      }
      assert nalUnits[..|nalUnits|] == nalUnits;
    }

    /** `processData` on bytes: ignored unless running. */
    method ProcessData(data: seq<byte>) returns (chunks: seq<EncodedChunk>)
      modifies this, parser
      ensures !old(running) ==> chunks == [] && Side() == old(Side()) && parser.buffer == old(parser.buffer) && dataCount == old(dataCount)
      ensures old(running) ==>
        && dataCount == old(dataCount) + 1
        && parser.buffer == Retained(Pushed(old(parser.buffer), data))
        && (Side(), chunks) == NalSteps(old(Side()), ExtractedUnits(Pushed(old(parser.buffer), data)))
      ensures running == old(running)
    {
      if !running {
        return [];
      }
      dataCount := dataCount + 1;
      chunks := ProcessArrayBuffer(data);
    }
  }

  /** Every renderer operation keeps the renderer coherent: the units processed in order do too. */
  lemma {:induction false} NalStepsCoherent(s: CodecSide, units: seq<seq<byte>>)
    requires Coherent(s)
    ensures Coherent(NalSteps(s, units).0)
    decreases |units|
  {
    if units != [] {
      NalStepsCoherent(s, units[..|units| - 1]);
      NalStepCoherent(NalSteps(s, units[..|units| - 1]).0, units[|units| - 1]);
    }
  }

  // ---------------------------------------------------------------------------
  // Chunk reassembly in front of the JMuxer and Broadway players
  // ---------------------------------------------------------------------------

  /** The test both players apply to a chunk: more than 4 bytes, beginning with a start code. */
  predicate HasLeadingStartCode(data: seq<byte>) {
    |data| > 4 && (FourByteCodeAt(data, 0) || ThreeByteCodeAt(data, 0))
  }

  /**
   * One chunk into the stream buffer: a chunk that begins a new unit hands on the
   * buffered bytes (if any) and becomes the buffer; any other chunk is appended.
   * The result is the buffer handed on and the new buffer.
   */
  function Reassemble(buffer: seq<byte>, data: seq<byte>): (Option<seq<byte>>, seq<byte>) {
    if HasLeadingStartCode(data) then (if buffer == [] then None else Some(buffer), data)
    else (None, buffer + data)
  }

  /**
   * No byte is lost or reordered: what is handed on followed by the new buffer is
   * the old buffer followed by the chunk. A buffer is handed on exactly when the
   * chunk begins a new unit and bytes are waiting, and it is never empty.
   */
  lemma ReassembleConserves(buffer: seq<byte>, data: seq<byte>)
    ensures var (flushed, rest) := Reassemble(buffer, data);
      && Flatten(Present(flushed)) + rest == buffer + data
      && (flushed.Some? <==> HasLeadingStartCode(data) && buffer != [])
      && (flushed.Some? ==> flushed.value == buffer)
  {
    var (flushed, rest) := Reassemble(buffer, data);
    if flushed.Some? {
      FlattenOne(buffer);
    }
  }

  /** Chunks fed in order: every buffer handed on, and the buffer left at the end. */
  function ReassembleAll(buffer: seq<byte>, chunks: seq<seq<byte>>): (seq<seq<byte>>, seq<byte>)
    decreases |chunks|
  {
    if chunks == [] then ([], buffer)
    else
      var (flushed, before) := ReassembleAll(buffer, chunks[..|chunks| - 1]);
      var (next, after) := Reassemble(before, chunks[|chunks| - 1]);
      (flushed + Present(next), after)
  }

  lemma ReassembleAllSnoc(buffer: seq<byte>, chunks: seq<seq<byte>>, data: seq<byte>)
    ensures ReassembleAll(buffer, chunks + [data]) ==
      (ReassembleAll(buffer, chunks).0 + Present(Reassemble(ReassembleAll(buffer, chunks).1, data).0),
       Reassemble(ReassembleAll(buffer, chunks).1, data).1)
  {
    assert (chunks + [data])[..|chunks|] == chunks;
  }

  /** One more queued chunk: the fold over `queue[..i + 1]` is the fold over `queue[..i]` and one more step. */
  lemma ReassembleAllStep(buffer: seq<byte>, queue: seq<seq<byte>>, i: nat)
    requires i < |queue|
    ensures ReassembleAll(buffer, queue[..i + 1]).0 ==
      ReassembleAll(buffer, queue[..i]).0 + Present(Reassemble(ReassembleAll(buffer, queue[..i]).1, queue[i]).0)
    ensures ReassembleAll(buffer, queue[..i + 1]).1 == Reassemble(ReassembleAll(buffer, queue[..i]).1, queue[i]).1
    ensures Flatten(queue[..i + 1]) == Flatten(queue[..i]) + queue[i]
  {
    assert queue[..i + 1] == queue[..i] + [queue[i]];
    ReassembleAllSnoc(buffer, queue[..i], queue[i]);
    FlattenSnoc(queue[..i], queue[i]);
  }

  /** Over any number of chunks, the buffers handed on followed by the final buffer are all the bytes, in order. */
  lemma {:induction false} ReassembleAllConserves(buffer: seq<byte>, chunks: seq<seq<byte>>)
    ensures Flatten(ReassembleAll(buffer, chunks).0) + ReassembleAll(buffer, chunks).1 == buffer + Flatten(chunks)
    decreases |chunks|
  {
    if chunks != [] {
      var init, data := chunks[..|chunks| - 1], chunks[|chunks| - 1];
      assert init + [data] == chunks;
      ReassembleAllConserves(buffer, init);
      ReassembleAllSnoc(buffer, init, data);
      var flushed, before := ReassembleAll(buffer, init).0, ReassembleAll(buffer, init).1;
      var next, after := Reassemble(before, data).0, Reassemble(before, data).1;
      ReassembleConserves(before, data);
      FlattenAppend(flushed, Present(next));
      FlattenSnoc(init, data);
      var f, p := Flatten(flushed), Flatten(Present(next));
      assert Flatten(flushed + Present(next)) + after == (f + p) + after;
      Associative(f, p, after);
      assert p + after == before + data;
      Associative(f, before, data);
      Associative(buffer, Flatten(init), data);
    }
  }

  class JMuxerRenderer {
    var running: bool
    var ready: bool
    var hasMuxer: bool
    var dataCount: nat
    var frameCount: nat
    var videoWidth: int
    var videoHeight: int
    var pendingData: seq<seq<byte>>
    var streamBuffer: seq<byte>
    /**
     * Every byte that has gone through `_feedData`, every byte that has left the stream
     * buffer, and every byte handed to `jmuxer.feed`.
     */
    ghost var received: seq<byte>
    ghost var released: seq<byte>
    ghost var fed: seq<byte>

    /** The bytes that have left the stream buffer are exactly the received bytes that are not still buffered. */
    ghost predicate Valid()
      reads this
    {
      received == released + streamBuffer
    }

    constructor()
      ensures !running && !ready && !hasMuxer && dataCount == 0 && frameCount == 0
      ensures videoWidth == 720 && videoHeight == 1280
      ensures pendingData == [] && streamBuffer == [] && received == [] && released == [] && fed == []
      ensures Valid()
    {
      running, ready, hasMuxer := false, false, false;
      dataCount, frameCount := 0, 0;
      videoWidth, videoHeight := 720, 1280;
      pendingData, streamBuffer := [], [];
      received, released, fed := [], [], [];
    }

    /** `start`: a new muxer that is not ready yet, an empty queue; the stream buffer is kept. */
    method Start() returns (ok: bool)
      modifies this
      ensures ok && running && !ready && hasMuxer && pendingData == [] && dataCount == 0
      ensures streamBuffer == old(streamBuffer) && frameCount == old(frameCount)
      ensures received == old(received) && released == old(released) && fed == old(fed)
      ensures videoWidth == old(videoWidth) && videoHeight == old(videoHeight)
    {
      running := true;
      ready := false;
      pendingData := [];
      dataCount := 0;
      hasMuxer := true;
      ok := true;
    }

    method Stop()
      modifies this
      ensures !running && !hasMuxer
      ensures ready == old(ready) && pendingData == old(pendingData) && streamBuffer == old(streamBuffer)
      ensures dataCount == old(dataCount) && frameCount == old(frameCount)
      ensures received == old(received) && released == old(released) && fed == old(fed)
      ensures videoWidth == old(videoWidth) && videoHeight == old(videoHeight)
    {
      running := false;
      hasMuxer := false;
    }

    method SetSize(width: int, height: int)
      modifies this
      ensures videoWidth == width && videoHeight == height
      ensures running == old(running) && ready == old(ready) && hasMuxer == old(hasMuxer)
      ensures pendingData == old(pendingData) && streamBuffer == old(streamBuffer)
      ensures dataCount == old(dataCount) && frameCount == old(frameCount)
      ensures received == old(received) && released == old(released) && fed == old(fed)
    {
      videoWidth := width;
      videoHeight := height;
    }

    /**
     * `_flushBuffer`: hands a non-empty buffer to the muxer and always leaves it empty.
     * Without a muxer the `feed` call throws, the error is swallowed and the bytes are dropped.
     */
    method FlushBuffer() returns (flushed: Option<seq<byte>>)
      requires Valid()
      modifies this
      ensures streamBuffer == []
      ensures released == old(released) + old(streamBuffer) && received == old(received)
      ensures flushed == if old(streamBuffer) == [] || !hasMuxer then None else Some(old(streamBuffer))
      ensures fed == old(fed) + Flatten(Present(flushed))
      ensures frameCount == old(frameCount) + |Present(flushed)|
      ensures running == old(running) && ready == old(ready) && hasMuxer == old(hasMuxer)
      ensures pendingData == old(pendingData) && dataCount == old(dataCount)
      ensures videoWidth == old(videoWidth) && videoHeight == old(videoHeight)
      ensures Valid()
    {
      if |streamBuffer| == 0 {
        assert released + streamBuffer == released;
        return None;
      }
      flushed := None;
      if hasMuxer {
        flushed := Some(streamBuffer);
        FlattenOne(streamBuffer);
        fed := fed + streamBuffer;
        frameCount := frameCount + 1;
      }
      released := released + streamBuffer;
      streamBuffer := [];
    }

    /** `_feedData`: the buffer handed on by reassembly goes to the muxer when there is one. */
    method FeedData(data: seq<byte>) returns (flushed: Option<seq<byte>>)
      requires Valid()
      modifies this
      ensures streamBuffer == Reassemble(old(streamBuffer), data).1
      ensures flushed == if hasMuxer then Reassemble(old(streamBuffer), data).0 else None
      ensures received == old(received) + data
      ensures released == old(released) + Flatten(Present(Reassemble(old(streamBuffer), data).0))
      ensures fed == old(fed) + Flatten(Present(flushed))
      ensures frameCount == old(frameCount) + |Present(flushed)|
      ensures running == old(running) && ready == old(ready) && hasMuxer == old(hasMuxer)
      ensures pendingData == old(pendingData) && dataCount == old(dataCount)
      ensures videoWidth == old(videoWidth) && videoHeight == old(videoHeight)
      ensures Valid()
    {
      var hasStartCode := |data| > 4 && data[0] == 0 && data[1] == 0 && ((data[2] == 0 && data[3] == 1) || data[2] == 1);
      assert hasStartCode == HasLeadingStartCode(data);
      ReassembleConserves(streamBuffer, data);
      flushed := None;
      if hasStartCode {
        if |streamBuffer| > 0 {
          FlattenOne(streamBuffer);
          flushed := FlushBuffer();
        }
        streamBuffer := data;
      } else {
        Associative(released, streamBuffer, data);
        streamBuffer := streamBuffer + data;
      }
      received := received + data;
    }

    /**
     * `_processPendingData`: the queued chunks are fed in arrival order, then the queue is
     * emptied; the buffers handed on reach the muxer only when there is one.
     */
    method ProcessPendingData() returns (flushed: seq<seq<byte>>)
      requires Valid()
      modifies this
      ensures streamBuffer == ReassembleAll(old(streamBuffer), old(pendingData)).1
      ensures flushed == if hasMuxer then ReassembleAll(old(streamBuffer), old(pendingData)).0 else []
      ensures pendingData == []
      ensures received == old(received) + Flatten(old(pendingData))
      ensures released == old(released) + Flatten(ReassembleAll(old(streamBuffer), old(pendingData)).0)
      ensures fed == old(fed) + Flatten(flushed)
      ensures frameCount == old(frameCount) + |flushed|
      ensures running == old(running) && ready == old(ready) && hasMuxer == old(hasMuxer)
      ensures dataCount == old(dataCount)
      ensures videoWidth == old(videoWidth) && videoHeight == old(videoHeight)
      ensures Valid()
    {
      flushed := [];
      if |pendingData| > 0 {
        var queue := pendingData;
        ghost var start := streamBuffer;
        ghost var received0, released0, fed0 := received, released, fed;
        ghost var cuts: seq<seq<byte>> := [];
        for i := 0 to |queue|
          invariant cuts == ReassembleAll(start, queue[..i]).0 && streamBuffer == ReassembleAll(start, queue[..i]).1
          invariant flushed == if hasMuxer then cuts else []
          invariant pendingData == queue
          invariant received == received0 + Flatten(queue[..i]) && released == released0 + Flatten(cuts)
          invariant fed == fed0 + Flatten(flushed)
          invariant frameCount == old(frameCount) + |flushed|
          invariant running == old(running) && ready == old(ready) && hasMuxer == old(hasMuxer)
          invariant dataCount == old(dataCount)
          invariant videoWidth == old(videoWidth) && videoHeight == old(videoHeight)
          invariant Valid()
        {
          ghost var before, cut := flushed, Reassemble(streamBuffer, queue[i]).0;
          var next := FeedData(queue[i]);
          ReassembleAllStep(start, queue, i);
          FlattenAppend(before, Present(next));
          FlattenAppend(cuts, Present(cut));
          Associative(received0, Flatten(queue[..i]), queue[i]);
          Associative(released0, Flatten(cuts), Flatten(Present(cut)));
          Associative(fed0, Flatten(before), Flatten(Present(next)));
          flushed := flushed + Present(next);
          cuts := cuts + Present(cut);
        }
        assert queue[..|queue|] == queue;
        pendingData := [];
      }
    }

    /** `_decodeData`: without a muxer nothing happens; before ready the chunk is queued. */
    method DecodeData(data: seq<byte>) returns (flushed: Option<seq<byte>>)
      requires Valid()
      modifies this
      ensures !hasMuxer ==> flushed == None && pendingData == old(pendingData) && streamBuffer == old(streamBuffer) && received == old(received)
      ensures hasMuxer && !ready ==> flushed == None && pendingData == old(pendingData) + [data] && streamBuffer == old(streamBuffer) && received == old(received)
      ensures hasMuxer && ready ==> (flushed, streamBuffer) == Reassemble(old(streamBuffer), data) && pendingData == old(pendingData) && received == old(received) + data
      ensures released == old(released) + Flatten(Present(flushed))
      ensures fed == old(fed) + Flatten(Present(flushed)) && frameCount == old(frameCount) + |Present(flushed)|
      ensures running == old(running) && ready == old(ready) && hasMuxer == old(hasMuxer) && dataCount == old(dataCount)
      ensures videoWidth == old(videoWidth) && videoHeight == old(videoHeight)
      ensures Valid()
    {
      flushed := None;
      if !hasMuxer {
        return;
      }
      if !ready {
        pendingData := pendingData + [data];
        return;
      }
      flushed := FeedData(data);
    }

    /** `processData` on bytes: ignored unless running with a muxer. */
    method ProcessData(data: seq<byte>) returns (flushed: Option<seq<byte>>)
      requires Valid()
      modifies this
      ensures !old(running) || !old(hasMuxer) ==> flushed == None && dataCount == old(dataCount) && pendingData == old(pendingData) && streamBuffer == old(streamBuffer)
      ensures old(running) && old(hasMuxer) && !old(ready) ==> flushed == None && dataCount == old(dataCount) + 1 && pendingData == old(pendingData) + [data] && streamBuffer == old(streamBuffer)
      ensures old(running) && old(hasMuxer) && old(ready) ==> dataCount == old(dataCount) + 1 && (flushed, streamBuffer) == Reassemble(old(streamBuffer), data) && pendingData == old(pendingData)
      ensures running == old(running) && ready == old(ready) && hasMuxer == old(hasMuxer)
      ensures Valid()
    {
      flushed := None;
      if !running || !hasMuxer {
        return;
      }
      dataCount := dataCount + 1;
      flushed := DecodeData(data);
    }

    /**
     * The muxer's ready callback, and the 500 ms timer that assumes readiness if it has not come.
     * `stop` cancels neither, so either may run after the muxer is gone: the queue is then
     * reassembled all the same, and the buffers it hands on are dropped instead of fed.
     */
    method OnReady(viaTimeout: bool) returns (flushed: seq<seq<byte>>)
      requires Valid()
      modifies this
      ensures viaTimeout && old(ready) ==> flushed == [] && pendingData == old(pendingData) && streamBuffer == old(streamBuffer)
      ensures !viaTimeout || !old(ready) ==>
        && streamBuffer == ReassembleAll(old(streamBuffer), old(pendingData)).1
        && flushed == (if hasMuxer then ReassembleAll(old(streamBuffer), old(pendingData)).0 else [])
        && pendingData == []
      ensures fed == old(fed) + Flatten(flushed) && frameCount == old(frameCount) + |flushed|
      ensures !hasMuxer ==> fed == old(fed) && frameCount == old(frameCount)
      ensures hasMuxer == old(hasMuxer) && running == old(running)
      ensures ready
      ensures Valid()
    {
      flushed := [];
      if viaTimeout && ready {
        return;
      }
      ready := true;
      flushed := ProcessPendingData();
    }
  }

  /** The buffers handed to the Broadway player, each split into its units. */
  function SplitEach(flushed: seq<seq<byte>>): seq<seq<byte>>
    decreases |flushed|
  {
    if flushed == [] then [] else SplitEach(flushed[..|flushed| - 1]) + BroadwayUnits(flushed[|flushed| - 1])
  }

  function SplitPresent(flushed: Option<seq<byte>>): seq<seq<byte>> {
    if flushed.Some? then BroadwayUnits(flushed.value) else []
  }

  lemma SplitEachSnoc(flushed: seq<seq<byte>>, next: Option<seq<byte>>)
    ensures SplitEach(flushed + Present(next)) == SplitEach(flushed) + SplitPresent(next)
  {
    if next.Some? {
      assert (flushed + [next.value])[..|flushed|] == flushed;
    } else {
      assert flushed + Present(next) == flushed;
    }
  }

  class BroadwayRenderer {
    var running: bool
    var ready: bool
    var hasPlayer: bool
    var dataCount: nat
    var videoWidth: int
    var videoHeight: int
    var pendingData: seq<seq<byte>>
    var streamBuffer: seq<byte>

    constructor()
      ensures !running && !ready && !hasPlayer && dataCount == 0
      ensures videoWidth == 720 && videoHeight == 1280
      ensures pendingData == [] && streamBuffer == []
    {
      running, ready, hasPlayer := false, false, false;
      dataCount := 0;
      videoWidth, videoHeight := 720, 1280;
      pendingData, streamBuffer := [], [];
    }

    /** `start`: a new player that is not ready yet and an empty queue. */
    method Start() returns (ok: bool)
      modifies this
      ensures ok && running && !ready && hasPlayer && pendingData == []
      ensures streamBuffer == old(streamBuffer) && dataCount == old(dataCount)
      ensures videoWidth == old(videoWidth) && videoHeight == old(videoHeight)
    {
      running := true;
      ready := false;
      pendingData := [];
      hasPlayer := true;
      ok := true;
    }

    method Stop()
      modifies this
      ensures !running && !hasPlayer
      ensures ready == old(ready) && pendingData == old(pendingData) && streamBuffer == old(streamBuffer)
      ensures dataCount == old(dataCount) && videoWidth == old(videoWidth) && videoHeight == old(videoHeight)
    {
      running := false;
      hasPlayer := false;
    }

    method SetSize(width: int, height: int)
      modifies this
      ensures videoWidth == width && videoHeight == height
      ensures running == old(running) && ready == old(ready) && hasPlayer == old(hasPlayer)
      ensures pendingData == old(pendingData) && streamBuffer == old(streamBuffer) && dataCount == old(dataCount)
    {
      videoWidth := width;
      videoHeight := height;
    }

    /**
     * `_flushBuffer`: a non-empty buffer is split into units, each handed to the decoder; the
     * buffer is emptied. Without a player every `decode` call throws and the error is swallowed.
     */
    method FlushBuffer() returns (decoded: seq<seq<byte>>)
      modifies this
      ensures decoded == if old(streamBuffer) == [] || !hasPlayer then [] else BroadwayUnits(old(streamBuffer))
      ensures streamBuffer == []
      ensures running == old(running) && ready == old(ready) && hasPlayer == old(hasPlayer)
      ensures pendingData == old(pendingData) && dataCount == old(dataCount)
      ensures videoWidth == old(videoWidth) && videoHeight == old(videoHeight)
    {
      if |streamBuffer| == 0 {
        return [];
      }
      var units := SplitNalUnits(streamBuffer);
      decoded := [];
      if hasPlayer {
        decoded := units;
      }
      streamBuffer := [];
    }

    /** `_decodeDataInternal`: the buffer handed on by reassembly is decoded when there is a player. */
    method DecodeDataInternal(data: seq<byte>) returns (decoded: seq<seq<byte>>)
      modifies this
      ensures decoded == if hasPlayer then SplitPresent(Reassemble(old(streamBuffer), data).0) else []
      ensures streamBuffer == Reassemble(old(streamBuffer), data).1
      ensures running == old(running) && ready == old(ready) && hasPlayer == old(hasPlayer)
      ensures pendingData == old(pendingData) && dataCount == old(dataCount)
      ensures videoWidth == old(videoWidth) && videoHeight == old(videoHeight)
    {
      var hasStartCode := |data| > 4 && data[0] == 0 && data[1] == 0 && ((data[2] == 0 && data[3] == 1) || data[2] == 1);
      assert hasStartCode == HasLeadingStartCode(data);
      decoded := [];
      if hasStartCode {
        if |streamBuffer| > 0 {
          decoded := FlushBuffer();
        }
        streamBuffer := data;
      } else {
        streamBuffer := streamBuffer + data;
      }
    }

    /** `_processPendingData`: the queued chunks in arrival order, then an empty queue; nothing is decoded without a player. */
    method ProcessPendingData() returns (decoded: seq<seq<byte>>)
      modifies this
      ensures decoded == if hasPlayer then SplitEach(ReassembleAll(old(streamBuffer), old(pendingData)).0) else []
      ensures streamBuffer == ReassembleAll(old(streamBuffer), old(pendingData)).1
      ensures pendingData == []
      ensures running == old(running) && ready == old(ready) && hasPlayer == old(hasPlayer) && dataCount == old(dataCount)
      ensures videoWidth == old(videoWidth) && videoHeight == old(videoHeight)
    {
      decoded := [];
      if |pendingData| > 0 {
        var queue := pendingData;
        ghost var start := streamBuffer;
        ghost var flushed: seq<seq<byte>> := [];
        for i := 0 to |queue|
          invariant flushed == ReassembleAll(start, queue[..i]).0 && streamBuffer == ReassembleAll(start, queue[..i]).1
          invariant decoded == if hasPlayer then SplitEach(flushed) else []
          invariant pendingData == queue
          invariant running == old(running) && ready == old(ready) && hasPlayer == old(hasPlayer) && dataCount == old(dataCount)
          invariant videoWidth == old(videoWidth) && videoHeight == old(videoHeight)
        {
          ghost var next := Reassemble(streamBuffer, queue[i]).0;
          var units := DecodeDataInternal(queue[i]);
          ReassembleAllStep(start, queue, i);
          SplitEachSnoc(flushed, next);
          flushed := flushed + Present(next);
          decoded := decoded + units;
        }
        assert queue[..|queue|] == queue;
        pendingData := [];
      }
    }

    /** `_decodeData`: without a player nothing happens; before ready the chunk is queued. */
    method DecodeData(data: seq<byte>) returns (decoded: seq<seq<byte>>)
      modifies this
      ensures !hasPlayer ==> decoded == [] && pendingData == old(pendingData) && streamBuffer == old(streamBuffer)
      ensures hasPlayer && !ready ==> decoded == [] && pendingData == old(pendingData) + [data] && streamBuffer == old(streamBuffer)
      ensures hasPlayer && ready ==>
        && decoded == SplitPresent(Reassemble(old(streamBuffer), data).0)
        && streamBuffer == Reassemble(old(streamBuffer), data).1
        && pendingData == old(pendingData)
      ensures running == old(running) && ready == old(ready) && hasPlayer == old(hasPlayer) && dataCount == old(dataCount)
    {
      decoded := [];
      if !hasPlayer {
        return;
      }
      if !ready {
        pendingData := pendingData + [data];
        return;
      }
      decoded := DecodeDataInternal(data);
    }

    /** `processData` on bytes: ignored unless running with a player. */
    method ProcessData(data: seq<byte>) returns (decoded: seq<seq<byte>>)
      modifies this
      ensures !old(running) || !old(hasPlayer) ==> decoded == [] && dataCount == old(dataCount) && pendingData == old(pendingData) && streamBuffer == old(streamBuffer)
      ensures old(running) && old(hasPlayer) ==> dataCount == old(dataCount) + 1
      ensures old(running) && old(hasPlayer) && !old(ready) ==> decoded == [] && pendingData == old(pendingData) + [data] && streamBuffer == old(streamBuffer)
      ensures old(running) && old(hasPlayer) && old(ready) ==> decoded == SplitPresent(Reassemble(old(streamBuffer), data).0) && streamBuffer == Reassemble(old(streamBuffer), data).1
      ensures running == old(running) && ready == old(ready) && hasPlayer == old(hasPlayer)
    {
      decoded := [];
      if !running || !hasPlayer {
        return;
      }
      dataCount := dataCount + 1;
      decoded := DecodeData(data);
    }

    /**
     * The decoder's ready callback, or the 500 ms timer used when the player offers none.
     * `stop` cancels neither, so either may run after the player is gone: the queue is then
     * reassembled all the same, and nothing is decoded.
     */
    method OnDecoderReady() returns (decoded: seq<seq<byte>>)
      modifies this
      ensures ready && pendingData == []
      ensures hasPlayer == old(hasPlayer) && running == old(running)
      ensures decoded == if hasPlayer then SplitEach(ReassembleAll(old(streamBuffer), old(pendingData)).0) else []
      ensures streamBuffer == ReassembleAll(old(streamBuffer), old(pendingData)).1
    {
      ready := true;
      decoded := ProcessPendingData();
    }
  }

  // ---------------------------------------------------------------------------
  // Renderer selection
  // ---------------------------------------------------------------------------

  /** What the browser offers: `VideoDecoder`, the JMuxer library, MSE with baseline H.264, the Broadway player. */
  datatype Capabilities = Capabilities(webCodecs: bool, jmuxer: bool, mseH264: bool, broadway: bool)

  datatype RendererKind = WebCodecsKind | JMuxerKind | BroadwayKind | FallbackKind

  function IsSupported(c: Capabilities): bool {
    c.webCodecs || (c.jmuxer && c.mseH264) || c.broadway
  }

  /** `create`: WebCodecs first, then JMuxer over MSE, then Broadway, then the fallback. */
  function Create(c: Capabilities): (kind: RendererKind)
    ensures kind == FallbackKind <==> !IsSupported(c)
    ensures kind == WebCodecsKind <==> c.webCodecs
    ensures kind == JMuxerKind <==> !c.webCodecs && c.jmuxer && c.mseH264
    ensures kind == BroadwayKind <==> !c.webCodecs && !(c.jmuxer && c.mseH264) && c.broadway
  {
    if c.webCodecs then WebCodecsKind
    else if c.jmuxer && c.mseH264 then JMuxerKind
    else if c.broadway then BroadwayKind
    else FallbackKind
  }
}
