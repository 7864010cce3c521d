/**
 * The capture-side client of the screen stream (lib/units/device/resources/scrcpy.js):
 * the Annex B splitter and NAL classifiers, the payload rewrite that absorbs
 * parameter sets and puts them back in front of keyframes, and the ScrcpyClient
 * state machine (handshake queue, byte buffer, configuration buffer, stop).
 */
module Scrcpy {
  import opened Wrappers
  import opened Nal

  // ---------------------------------------------------------------------------
  // Start codes and unit splitting
  // ---------------------------------------------------------------------------

  /**
   * isStartCode: 3 for `00 00 01`, 4 for `00 00 00 01`, 0 otherwise. A start
   * code is recognised only when at least one byte follows it.
   */
  function StartCodeAt(buf: seq<byte>, index: nat): (size: nat)
    ensures size == 0 || size == 3 || size == 4
  {
    if index + 3 >= |buf| then 0
    else if buf[index] == 0 && buf[index + 1] == 0 && buf[index + 2] == 1 then 3
    else if index + 4 < |buf| && buf[index] == 0 && buf[index + 1] == 0 && buf[index + 2] == 0 && buf[index + 3] == 1 then 4
    else 0
  }

  /** Both start-code forms are recognised, each exactly when a byte follows it. */
  lemma StartCodeAtMeaning(buf: seq<byte>, index: nat)
    ensures StartCodeAt(buf, index) == 3 <==> index + 3 < |buf| && ThreeByteCodeAt(buf, index)
    ensures StartCodeAt(buf, index) == 4 <==> index + 4 < |buf| && FourByteCodeAt(buf, index)
    ensures StartCodeAt(buf, index) > 0 ==> index + StartCodeAt(buf, index) < |buf|
  {
  }

  /**
   * The positions at which the loop of splitAnnexBNalus finds a start code when
   * it runs from `i`: positions below `length - 3` are examined, and a start code
   * found is skipped whole.
   */
  function UnitStarts(buf: seq<byte>, i: nat): (starts: seq<nat>)
    ensures forall k :: 0 <= k < |starts| ==> i <= starts[k] && StartCodeAt(buf, starts[k]) > 0
    ensures ValidStarts(buf, starts)
    decreases |buf| - i
  {
    if i + 3 >= |buf| then []
    else if StartCodeAt(buf, i) > 0 then [i] + UnitStarts(buf, i + StartCodeAt(buf, i))
    else UnitStarts(buf, i + 1)
  }

  /** The units splitAnnexBNalus returns: each runs from its start code to the next one or to the end. */
  function SplitUnits(buf: seq<byte>): seq<seq<byte>> {
    Cut(buf, UnitStarts(buf, 0))
  }

  /**
   * The units the loop of splitAnnexBNalus still adds when it is at position `i`
   * and the unit in progress began at `lastIndex` (-1: none yet).
   */
  function SplitFrom(buf: seq<byte>, i: nat, lastIndex: int): seq<seq<byte>>
    requires lastIndex < i && lastIndex < |buf|
    decreases |buf| - i
  {
    if i + 3 >= |buf| then
      (if lastIndex >= 0 then [buf[lastIndex..]] else [])
    else if StartCodeAt(buf, i) > 0 then
      (if lastIndex >= 0 then [buf[lastIndex..i]] else []) + SplitFrom(buf, i + StartCodeAt(buf, i), i)
    else
      SplitFrom(buf, i + 1, lastIndex)
  }

  /** Putting one more start in front of valid starts cuts off one more unit. */
  lemma PrependStart(buf: seq<byte>, p: nat, rest: seq<nat>)
    requires ValidStarts(buf, rest) && p < |buf|
    requires forall k :: 0 <= k < |rest| ==> p < rest[k]
    ensures ValidStarts(buf, [p] + rest)
    ensures Cut(buf, [p] + rest) == [buf[p..if rest == [] then |buf| else rest[0]]] + Cut(buf, rest)
  {
    var t := [p] + rest;
    forall j, k | 0 <= j < k < |t| ensures t[j] < t[k] {
      if j > 0 { assert t[j] == rest[j - 1]; }
      assert t[k] == rest[k - 1];
    }
    if rest == [] {
      assert Cut(buf, t)[0] == buf[p..];
    } else {
      CutUnfold(buf, t);
      assert t[1..] == rest;
    }
  }

  /** The loop's units are the cut of the buffer at the start codes it finds. */
  lemma {:induction false} SplitFromIsCut(buf: seq<byte>, i: nat, lastIndex: int)
    requires lastIndex < i && lastIndex < |buf|
    ensures lastIndex < 0 ==> SplitFrom(buf, i, lastIndex) == Cut(buf, UnitStarts(buf, i))
    ensures lastIndex >= 0 ==> ValidStarts(buf, [lastIndex as nat] + UnitStarts(buf, i))
    ensures lastIndex >= 0 ==> SplitFrom(buf, i, lastIndex) == Cut(buf, [lastIndex as nat] + UnitStarts(buf, i))
    decreases |buf| - i
  {
    var rest := UnitStarts(buf, i);
    if lastIndex >= 0 {
      PrependStart(buf, lastIndex as nat, rest);
    }
    if i + 3 >= |buf| {
      assert rest == [];
      assert Cut(buf, rest) == [];
      if lastIndex >= 0 {
        assert buf[lastIndex..|buf|] == buf[lastIndex..];
        assert SplitFrom(buf, i, lastIndex) == [buf[lastIndex..]];
        assert [buf[lastIndex..]] + Cut(buf, rest) == [buf[lastIndex..]];
      }
    } else if StartCodeAt(buf, i) > 0 {
      SplitFromIsCut(buf, i + StartCodeAt(buf, i), i);
      assert rest == [i] + UnitStarts(buf, i + StartCodeAt(buf, i));
    } else {
      SplitFromIsCut(buf, i + 1, lastIndex);
    }
  }

  /** One iteration of the loop, as an unfolding of SplitFrom. */
  lemma SplitFromStep(buf: seq<byte>, i: nat, lastIndex: int)
    requires i + 3 < |buf| && lastIndex < i && lastIndex < |buf|
    ensures StartCodeAt(buf, i) > 0 ==>
      SplitFrom(buf, i, lastIndex) == (if lastIndex >= 0 then [buf[lastIndex..i]] else []) + SplitFrom(buf, i + StartCodeAt(buf, i), i)
    ensures StartCodeAt(buf, i) == 0 ==> SplitFrom(buf, i, lastIndex) == SplitFrom(buf, i + 1, lastIndex)
  {
  }

  /** splitAnnexBNalus. */
  method SplitAnnexBNalus(buffer: seq<byte>) returns (units: seq<seq<byte>>)
    ensures units == SplitUnits(buffer)
  {
    units := [];
    var lastIndex: int := -1;
    var i: nat := 0;
    while i + 3 < |buffer|
      invariant lastIndex < i && lastIndex < |buffer|
      invariant units + SplitFrom(buffer, i, lastIndex) == SplitFrom(buffer, 0, -1)
      decreases |buffer| - i
    {
      var startSize := StartCodeAt(buffer, i);
      if startSize > 0 {
        ghost var before := units;
        ghost var done := if lastIndex >= 0 then [buffer[lastIndex..i]] else [];
        SplitFromStep(buffer, i, lastIndex);
        if lastIndex >= 0 {
          units := units + [buffer[lastIndex..i]];
        }
        assert units == before + done;
        Associative(before, done, SplitFrom(buffer, i + startSize, i));
        lastIndex := i;
        i := i + startSize;
      } else {
        SplitFromStep(buffer, i, lastIndex);
        i := i + 1;
      }
    }
    if lastIndex >= 0 {
      units := units + [buffer[lastIndex..]];
    }
    SplitFromIsCut(buffer, 0, -1);
  }

  /** The first position where the scan from `i` finds a start code, or the end of the buffer. */
  function FirstFind(buf: seq<byte>, i: nat): nat {
    var starts := UnitStarts(buf, i);
    if starts == [] then |buf| else starts[0]
  }

  /** Every position the scan passes over before its first find holds no start code. */
  lemma {:induction false} NoStartCodeBeforeFirst(buf: seq<byte>, i: nat)
    ensures forall p: nat :: i <= p < FirstFind(buf, i) ==> StartCodeAt(buf, p) == 0
    decreases |buf| - i
  {
    if i + 3 < |buf| && StartCodeAt(buf, i) == 0 {
      NoStartCodeBeforeFirst(buf, i + 1);
      assert FirstFind(buf, i) == FirstFind(buf, i + 1);
    }
  }

  /** Every unit is non-empty: it holds at least its start code. */
  lemma SplitUnitsNonEmpty(buf: seq<byte>)
    ensures forall k :: 0 <= k < |SplitUnits(buf)| ==> |SplitUnits(buf)[k]| >= 3
  {
    var starts := UnitStarts(buf, 0);
    forall k | 0 <= k < |starts| ensures |SplitUnits(buf)[k]| >= 3 {
      assert StartCodeAt(buf, starts[k]) > 0;
      if k + 1 < |starts| {
        assert UnitStarts(buf, starts[k]) == [starts[k]] + UnitStarts(buf, starts[k] + StartCodeAt(buf, starts[k])) by {
          assert StartCodeAt(buf, starts[k]) > 0;
        }
        NextStartAfterCode(buf, 0, k);
      }
    }
  }

  /** A start found by the scan is followed by the next find no earlier than the end of its start code. */
  lemma {:induction false} NextStartAfterCode(buf: seq<byte>, i: nat, k: nat)
    requires k + 1 < |UnitStarts(buf, i)|
    ensures UnitStarts(buf, i)[k] + StartCodeAt(buf, UnitStarts(buf, i)[k]) <= UnitStarts(buf, i)[k + 1]
    decreases |buf| - i
  {
    var starts := UnitStarts(buf, i);
    if i + 3 >= |buf| {
    } else if StartCodeAt(buf, i) > 0 {
      var rest := UnitStarts(buf, i + StartCodeAt(buf, i));
      assert starts == [i] + rest;
      if k > 0 {
        NextStartAfterCode(buf, i + StartCodeAt(buf, i), k - 1);
      }
    } else {
      NextStartAfterCode(buf, i + 1, k);
    }
  }

  /** No unit at all exactly when the buffer holds no recognised start code. */
  lemma SplitEmptyIffNoStartCode(buf: seq<byte>)
    ensures SplitUnits(buf) == [] <==> forall p: nat :: p < |buf| ==> StartCodeAt(buf, p) == 0
  {
    var starts := UnitStarts(buf, 0);
    NoStartCodeBeforeFirst(buf, 0);
    if starts != [] {
      assert StartCodeAt(buf, starts[0]) > 0;
    }
  }

  /**
   * Bytes before the first start code are dropped, and the units together are
   * exactly the rest of the buffer, in order.
   */
  lemma SplitCoversFromFirstStartCode(buf: seq<byte>)
    requires SplitUnits(buf) != []
    ensures StartCodeAt(buf, UnitStarts(buf, 0)[0]) > 0
    ensures forall p: nat :: p < UnitStarts(buf, 0)[0] ==> StartCodeAt(buf, p) == 0
    ensures Flatten(SplitUnits(buf)) == buf[UnitStarts(buf, 0)[0]..]
  {
    NoStartCodeBeforeFirst(buf, 0);
    CutFlatten(buf, UnitStarts(buf, 0));
  }

  /**
   * A unit's type is the low five bits of the byte after its own start code;
   * a unit that is nothing but a start code has type -1.
   */
  lemma SplitUnitType(buf: seq<byte>, k: nat)
    requires k < |SplitUnits(buf)|
    ensures var s := UnitStarts(buf, 0)[k];
      var size := StartCodeAt(buf, s);
      GetNalType(SplitUnits(buf)[k]) == if |SplitUnits(buf)[k]| > size then NalType(buf[s + size]) else -1
  {
    var starts := UnitStarts(buf, 0);
    if k + 1 < |starts| {
      NextStartAfterCode(buf, 0, k);
    }
    CutUnitType(buf, starts, k);
  }

  /** The same, for any cut whose start codes do not overlap the next start. */
  lemma CutUnitType(buf: seq<byte>, starts: seq<nat>, k: nat)
    requires ValidStarts(buf, starts) && k < |starts| && StartCodeAt(buf, starts[k]) > 0
    requires k + 1 < |starts| ==> starts[k] + StartCodeAt(buf, starts[k]) <= starts[k + 1]
    ensures var s := starts[k];
      var size := StartCodeAt(buf, s);
      GetNalType(Cut(buf, starts)[k]) == if |Cut(buf, starts)[k]| > size then NalType(buf[s + size]) else -1
  {
    var s := starts[k];
    var size := StartCodeAt(buf, s);
    var unit := Cut(buf, starts)[k];
    StartCodeAtMeaning(buf, s);
    assert unit == buf[s..SliceEnd(buf, starts, k)];
    forall j | 0 <= j < size ensures unit[j] == buf[s + j] {}
    TypeOfCodedUnit(unit, size);
    if |unit| > size {
      assert unit[size] == buf[s + size];
    }
  }

  /** A unit opening with a start code of `size` bytes has the type of the byte after it, if any. */
  lemma TypeOfCodedUnit(unit: seq<byte>, size: nat)
    requires (size == 3 && ThreeByteCodeAt(unit, 0)) || (size == 4 && FourByteCodeAt(unit, 0))
    ensures GetNalType(unit) == if |unit| > size then NalType(unit[size]) else -1
  {
  }

  // ---------------------------------------------------------------------------
  // Unit classification
  // ---------------------------------------------------------------------------

  /** Types the client treats as configuration: SEI (6), SPS (7), PPS (8), access unit delimiter (9). */
  predicate IsConfigType(t: int) {
    t == 6 || t == 7 || t == 8 || t == 9
  }

  /** Parameter sets: SPS (7) and PPS (8). */
  predicate IsParameterSet(t: int) {
    t == 7 || t == 8
  }

  /** getNalType: -1 unless the unit opens with a start code followed by a header byte. */
  function GetNalType(unit: seq<byte>): (t: int)
    ensures -1 <= t < 32
    ensures t >= 0 <==> StartCodeAt(unit, 0) > 0
    ensures t >= 0 ==> t == NalType(unit[StartCodeAt(unit, 0)])
  {
    if |unit| < 4 then -1
    else
      var size := StartCodeAt(unit, 0);
      if size == 0 || size >= |unit| then -1 else NalType(unit[size])
  }

  /** containsIdr: some unit is an IDR slice (type 5). */
  predicate ContainsIdr(units: seq<seq<byte>>) {
    exists k :: 0 <= k < |units| && GetNalType(units[k]) == 5
  }

  /** isConfigOnly: at least one unit, and every unit is of a configuration type. */
  predicate IsConfigOnly(units: seq<seq<byte>>) {
    |units| > 0 && forall k :: 0 <= k < |units| ==> IsConfigType(GetNalType(units[k]))
  }

  /**
   * The units whose being a parameter set is `wanted`, in their original order
   * (the two `filter` calls of _processVideoPayload).
   */
  function SelectUnits(units: seq<seq<byte>>, wanted: bool): (kept: seq<seq<byte>>)
    ensures |kept| <= |units|
    ensures forall u :: u in kept ==> u in units && IsParameterSet(GetNalType(u)) == wanted
    ensures forall u :: u in units && IsParameterSet(GetNalType(u)) == wanted ==> u in kept
  {
    if units == [] then []
    else
      (if IsParameterSet(GetNalType(units[0])) == wanted then [units[0]] else []) + SelectUnits(units[1..], wanted)
  }

  /** The two selections partition the units; with no parameter set, nothing is removed. */
  lemma {:induction false} SelectPartition(units: seq<seq<byte>>)
    ensures |SelectUnits(units, true)| + |SelectUnits(units, false)| == |units|
    ensures SelectUnits(units, true) == [] ==> SelectUnits(units, false) == units
  {
    if units != [] {
      SelectPartition(units[1..]);
      if SelectUnits(units, true) == [] {
        assert units[0] in units;
        assert units == [units[0]] + units[1..];
      }
    }
  }

  // ---------------------------------------------------------------------------
  // Payload rewrite
  // ---------------------------------------------------------------------------

  /** What _processVideoPayload returns (None for null) and the configuration buffer it leaves. */
  datatype PayloadResult = PayloadResult(output: Option<seq<byte>>, configBuffer: seq<byte>)

  /** _updateConfigBuffer: the concatenated units replace the buffer, unless there are none. */
  function NewConfigBuffer(config: seq<byte>, units: seq<seq<byte>>): seq<byte> {
    if units == [] || Flatten(units) == [] then config else Flatten(units)
  }

  /** _processVideoPayload, with the configuration buffer as explicit state. */
  function ProcessedPayload(config: seq<byte>, payload: seq<byte>): PayloadResult {
    var units := SplitUnits(payload);
    if units == [] then PayloadResult(Some(payload), config)
    else if IsConfigOnly(units) then PayloadResult(None, NewConfigBuffer(config, units))
    else
      var configUnits := SelectUnits(units, true);
      var config' := if configUnits != [] then NewConfigBuffer(config, configUnits) else config;
      var rest := if configUnits != [] then SelectUnits(units, false) else units;
      if rest == [] then PayloadResult(None, config')
      else
        var body := Flatten(rest);
        PayloadResult(Some(if |config'| > 0 && ContainsIdr(rest) then config' + body else body), config')
  }

  /** The concatenation of non-empty units is non-empty. */
  lemma FlattenNonEmpty(units: seq<seq<byte>>)
    requires units != [] && |units[0]| > 0
    ensures |Flatten(units)| > 0
  {
  }

  /** A payload without a start code is passed through untouched and the configuration is kept. */
  lemma NoStartCodePassesThrough(config: seq<byte>, payload: seq<byte>)
    requires forall p: nat :: p < |payload| ==> StartCodeAt(payload, p) == 0
    ensures ProcessedPayload(config, payload) == PayloadResult(Some(payload), config)
  {
    SplitEmptyIffNoStartCode(payload);
  }

  /**
   * A group of configuration units only is swallowed: nothing is emitted and the
   * configuration buffer becomes the payload from its first start code on.
   */
  lemma ConfigOnlyGroupAbsorbed(config: seq<byte>, payload: seq<byte>)
    requires IsConfigOnly(SplitUnits(payload))
    ensures ProcessedPayload(config, payload).output == None
    ensures ProcessedPayload(config, payload).configBuffer == payload[UnitStarts(payload, 0)[0]..]
  {
    var units := SplitUnits(payload);
    SplitCoversFromFirstStartCode(payload);
    SplitUnitsNonEmpty(payload);
    FlattenNonEmpty(units);
  }

  /**
   * A group holding anything besides configuration units is always emitted: the
   * SPS and PPS units are removed (SEI and delimiters stay), they replace the
   * configuration buffer when present, and that buffer is put in front exactly
   * when it is non-empty and an IDR slice remains.
   */
  lemma MixedGroupRewritten(config: seq<byte>, payload: seq<byte>)
    requires SplitUnits(payload) != [] && !IsConfigOnly(SplitUnits(payload))
    ensures var units := SplitUnits(payload);
      var r := ProcessedPayload(config, payload);
      var rest := SelectUnits(units, false);
      && r.output.Some?
      && rest != []
      && r.configBuffer == (if SelectUnits(units, true) == [] then config else Flatten(SelectUnits(units, true)))
      && r.output.value == (if |r.configBuffer| > 0 && ContainsIdr(rest) then r.configBuffer + Flatten(rest) else Flatten(rest))
  {
    var units := SplitUnits(payload);
    SelectPartition(units);
    var k :| 0 <= k < |units| && !IsConfigType(GetNalType(units[k]));
    assert units[k] in units;
    assert units[k] in SelectUnits(units, false);
    var configUnits := SelectUnits(units, true);
    if configUnits != [] {
      SplitUnitsNonEmpty(payload);
      assert configUnits[0] in configUnits;
      assert configUnits[0] in units;
      FlattenNonEmpty(configUnits);
    }
  }

  /**
   * A keyframe that arrives with new parameter sets is emitted behind those new
   * sets, not behind the ones seen before: SPS' + IDR yields SPS' + IDR.
   */
  lemma KeyframeCarriesItsOwnParameterSets()
    ensures var oldConfig: seq<byte> := [0, 0, 0, 1, 0x67, 1, 0, 0, 0, 1, 0x68, 2];
      var sps: seq<byte> := [0, 0, 0, 1, 0x67, 9];
      var idr: seq<byte> := [0, 0, 0, 1, 0x65, 7];
      ProcessedPayload(oldConfig, sps + idr) == PayloadResult(Some(sps + idr), sps)
  {
    var oldConfig: seq<byte> := [0, 0, 0, 1, 0x67, 1, 0, 0, 0, 1, 0x68, 2];
    var sps: seq<byte> := [0, 0, 0, 1, 0x67, 9];
    var idr: seq<byte> := [0, 0, 0, 1, 0x65, 7];
    SpsIdrSplit(sps, idr);
    var units := [sps, idr];
    assert GetNalType(sps) == 7;
    assert GetNalType(idr) == 5;
    assert units[1] == idr && !IsConfigType(GetNalType(units[1]));
    assert SelectUnits(units, true) == [sps];
    assert SelectUnits(units, false) == [idr];
    FlattenOne(sps);
    FlattenOne(idr);
    assert NewConfigBuffer(oldConfig, [sps]) == sps;
    assert ContainsIdr([idr]);
  }

  /** The two-unit payload of the example above splits at its second start code. */
  lemma SpsIdrSplit(sps: seq<byte>, idr: seq<byte>)
    requires sps == [0, 0, 0, 1, 0x67, 9] && idr == [0, 0, 0, 1, 0x65, 7]
    ensures SplitUnits(sps + idr) == [sps, idr]
  {
    var payload := sps + idr;
    assert StartCodeAt(payload, 0) == 4;
    assert StartCodeAt(payload, 4) == 0;
    assert StartCodeAt(payload, 5) == 0;
    assert StartCodeAt(payload, 6) == 4;
    assert UnitStarts(payload, 10) == [];
    assert UnitStarts(payload, 6) == [6];
    assert UnitStarts(payload, 5) == [6];
    assert UnitStarts(payload, 4) == [6];
    assert UnitStarts(payload, 0) == [0, 6];
    assert payload[0..6] == sps && payload[6..] == idr;
    var units := SplitUnits(payload);
    assert |units| == 2 && units[0] == payload[0..6] && units[1] == payload[6..];
  }

  // ---------------------------------------------------------------------------
  // Handshake
  // ---------------------------------------------------------------------------

  datatype HandshakeKind = Dummy | Device | Codec

  /** One expected block of the handshake. */
  datatype HandshakeItem = HandshakeItem(kind: HandshakeKind, size: nat)

  /** The fixed length of each block: the dummy byte, the 64-byte device name, 12 bytes of codec metadata. */
  function ItemSize(kind: HandshakeKind): nat {
    match kind
    case Dummy => 1
    case Device => 64
    case Codec => 12
  }

  predicate WellSized(queue: seq<HandshakeItem>) {
    forall k :: 0 <= k < |queue| ==> queue[k].size == ItemSize(queue[k].kind)
  }

  /** The order in which the server sends its blocks. */
  function Rank(kind: HandshakeKind): nat {
    match kind
    case Dummy => 0
    case Device => 1
    case Codec => 2
  }

  /** The handshake queue built by _initializeHandshakeState from the three flags. */
  function InitialQueue(sendDummyByte: bool, sendDeviceMeta: bool, sendCodecMeta: bool): (queue: seq<HandshakeItem>)
    ensures WellSized(queue)
    ensures forall j, k :: 0 <= j < k < |queue| ==> Rank(queue[j].kind) < Rank(queue[k].kind)
    ensures HandshakeItem(Dummy, 1) in queue <==> sendDummyByte
    ensures HandshakeItem(Device, 64) in queue <==> sendDeviceMeta
    ensures HandshakeItem(Codec, 12) in queue <==> sendCodecMeta
  {
    (if sendDummyByte then [HandshakeItem(Dummy, 1)] else [])
    + (if sendDeviceMeta then [HandshakeItem(Device, 64)] else [])
    + (if sendCodecMeta then [HandshakeItem(Codec, 12)] else [])
  }

  /** What the handshake has learnt so far; codecId None is null. */
  datatype HandshakeInfo = HandshakeInfo(name: string, width: int, height: int, codecId: Option<int>)

  /** The device information the connection resolves with. */
  datatype DeviceInfo = DeviceInfo(name: string, width: int, height: int)

  /** Buffer.readInt32BE: the four bytes at `offset`, big-endian, two's complement. */
  function ReadInt32BE(chunk: seq<byte>, offset: nat): (v: int)
    requires offset + 4 <= |chunk|
    ensures -0x8000_0000 <= v < 0x8000_0000
  {
    var u := ((chunk[offset] as int * 256 + chunk[offset + 1] as int) * 256 + chunk[offset + 2] as int) * 256 + chunk[offset + 3] as int;
    if u >= 0x8000_0000 then u - 0x1_0000_0000 else u
  }

  /** The four big-endian two's-complement bytes of a 32-bit signed value. */
  function Int32BEBytes(v: int): (b: seq<byte>)
    requires -0x8000_0000 <= v < 0x8000_0000
    ensures |b| == 4
  {
    var u := if v < 0 then v + 0x1_0000_0000 else v;
    var q1 := u / 256;
    var q2 := q1 / 256;
    [(q2 / 256) as byte, (q2 % 256) as byte, (q1 % 256) as byte, (u % 256) as byte]
  }

  /** Reading back the bytes of a 32-bit value gives the value. */
  lemma {:induction false} ReadInt32BERoundTrip(v: int)
    requires -0x8000_0000 <= v < 0x8000_0000
    ensures ReadInt32BE(Int32BEBytes(v), 0) == v
  {
    var u := if v < 0 then v + 0x1_0000_0000 else v;
    var q1 := u / 256;
    var q2 := q1 / 256;
    assert u == q1 * 256 + u % 256;
    assert q1 == q2 * 256 + q1 % 256;
    assert q2 == (q2 / 256) * 256 + q2 % 256;
    var b := Int32BEBytes(v);
    assert b[0] as int == q2 / 256 && b[1] as int == q2 % 256 && b[2] as int == q1 % 256 && b[3] as int == u % 256;
    assert ((b[0] as int * 256 + b[1] as int) * 256 + b[2] as int) * 256 + b[3] as int == u;
  }

  /** Every four bytes are the encoding of the value read from them. */
  lemma {:induction false} Int32BEBytesOfRead(chunk: seq<byte>)
    requires |chunk| == 4
    ensures Int32BEBytes(ReadInt32BE(chunk, 0)) == chunk
  {
    var a1 := chunk[0] as int * 256 + chunk[1] as int;
    var a2 := a1 * 256 + chunk[2] as int;
    var u := a2 * 256 + chunk[3] as int;
    assert u / 256 == a2 && u % 256 == chunk[3] as int;
    assert a2 / 256 == a1 && a2 % 256 == chunk[2] as int;
    assert a1 / 256 == chunk[0] as int && a1 % 256 == chunk[1] as int;
    var b := Int32BEBytes(ReadInt32BE(chunk, 0));
    assert b[0] == chunk[0] && b[1] == chunk[1] && b[2] == chunk[2] && b[3] == chunk[3];
  }

  /** The text with every NUL character removed. */
  function RemoveNul(s: string): (r: string)
    ensures forall c :: c in r <==> c in s && c != '\0'
    ensures |r| <= |s|
  {
    if s == [] then []
    else (if s[0] == '\0' then [] else [s[0]]) + RemoveNul(s[1..])
  }

  /** The device name: the decoded block without NULs, or the serial when that leaves nothing. */
  function DeviceName(chunk: seq<byte>, serial: string, decodeUtf8: seq<byte> -> string): (name: string)
    ensures '\0' !in name || name == serial
    ensures name != [] || serial == []
  {
    var decoded := RemoveNul(decodeUtf8(chunk));
    if decoded == [] then serial else decoded
  }

  /** The effect of one completed block on the handshake information. */
  function ApplyItem(info: HandshakeInfo, item: HandshakeItem, chunk: seq<byte>, serial: string, decodeUtf8: seq<byte> -> string): HandshakeInfo
    requires item.size == ItemSize(item.kind) && |chunk| == item.size
  {
    match item.kind
    case Dummy => info
    case Device => info.(name := DeviceName(chunk, serial, decodeUtf8))
    case Codec => info.(codecId := Some(ReadInt32BE(chunk, 0)), width := ReadInt32BE(chunk, 4), height := ReadInt32BE(chunk, 8))
  }

  /** Remaining handshake queue, buffered bytes and information. */
  datatype HandshakeState = HandshakeState(queue: seq<HandshakeItem>, buffer: seq<byte>, info: HandshakeInfo)

  function SumSizes(items: seq<HandshakeItem>): nat {
    if items == [] then 0 else items[0].size + SumSizes(items[1..])
  }

  /**
   * The loop of processHandshake: blocks are taken off the front of the buffer,
   * in queue order, for as long as the next whole block has arrived.
   */
  function Consume(s: HandshakeState, serial: string, decodeUtf8: seq<byte> -> string): (r: HandshakeState)
    requires WellSized(s.queue)
    ensures WellSized(r.queue)
    ensures r.queue == [] || |r.buffer| < r.queue[0].size
    decreases |s.queue|
  {
    if s.queue == [] || |s.buffer| < s.queue[0].size then s
    else Consume(Advance(s, serial, decodeUtf8), serial, decodeUtf8)
  }

  /** One pass of that loop: the next block leaves the queue and the front of the buffer, and is applied. */
  function Advance(s: HandshakeState, serial: string, decodeUtf8: seq<byte> -> string): (t: HandshakeState)
    requires WellSized(s.queue) && s.queue != [] && s.queue[0].size <= |s.buffer|
    ensures WellSized(t.queue)
    ensures t.queue == s.queue[1..] && t.buffer == s.buffer[s.queue[0].size..]
  {
    var next := s.queue[0];
    HandshakeState(s.queue[1..], s.buffer[next.size..], ApplyItem(s.info, next, s.buffer[..next.size], serial, decodeUtf8))
  }

  /**
   * Consuming takes whole blocks off the front of the queue and exactly their
   * bytes off the front of the buffer.
   */
  lemma {:induction false} ConsumeTakesWholeBlocks(s: HandshakeState, serial: string, decodeUtf8: seq<byte> -> string)
    requires WellSized(s.queue)
    ensures var r := Consume(s, serial, decodeUtf8);
      var n := |s.queue| - |r.queue|;
      && 0 <= n && r.queue == s.queue[n..]
      && SumSizes(s.queue[..n]) <= |s.buffer| && r.buffer == s.buffer[SumSizes(s.queue[..n])..]
    decreases |s.queue|
  {
    if s.queue == [] || |s.buffer| < s.queue[0].size {
      assert s.queue[..0] == [];
    } else {
      var next := s.queue[0];
      var t := Advance(s, serial, decodeUtf8);
      ConsumeTakesWholeBlocks(t, serial, decodeUtf8);
      var r := Consume(t, serial, decodeUtf8);
      var m := |t.queue| - |r.queue|;
      var used := SumSizes(t.queue[..m]);
      assert Consume(s, serial, decodeUtf8) == r;
      assert |s.queue| - |r.queue| == m + 1;
      DropDrop(s.queue, 1, m);
      TakeAfterHead(s.queue, m);
      SumSizesCons(next, t.queue[..m]);
      assert SumSizes(s.queue[..m + 1]) == next.size + used;
      DropDrop(s.buffer, next.size, used);
    }
  }

  lemma SumSizesCons(item: HandshakeItem, items: seq<HandshakeItem>)
    ensures SumSizes([item] + items) == item.size + SumSizes(items)
  {
    assert ([item] + items)[1..] == items;
  }

  /** Appending bytes to the handshake buffer and consuming again. */
  function Feed(s: HandshakeState, data: seq<byte>, serial: string, decodeUtf8: seq<byte> -> string): HandshakeState
    requires WellSized(s.queue)
  {
    Consume(s.(buffer := s.buffer + data), serial, decodeUtf8)
  }

  /** Consuming early and consuming after more bytes arrive agree: the handshake does not depend on how the stream is chunked. */
  lemma {:induction false} ConsumeThenFeed(s: HandshakeState, data: seq<byte>, serial: string, decodeUtf8: seq<byte> -> string)
    requires WellSized(s.queue)
    ensures Feed(Consume(s, serial, decodeUtf8), data, serial, decodeUtf8) == Feed(s, data, serial, decodeUtf8)
    decreases |s.queue|
  {
    if s.queue == [] || |s.buffer| < s.queue[0].size {
    } else {
      var next := s.queue[0];
      var t := Advance(s, serial, decodeUtf8);
      ConsumeThenFeed(t, data, serial, decodeUtf8);
      var joined := s.buffer + data;
      assert joined[..next.size] == s.buffer[..next.size];
      assert joined[next.size..] == s.buffer[next.size..] + data;
      assert Advance(s.(buffer := joined), serial, decodeUtf8) == t.(buffer := t.buffer + data);
    }
  }

  /** Feeding the chunks one by one.  */
  function FeedAll(s: HandshakeState, chunks: seq<seq<byte>>, serial: string, decodeUtf8: seq<byte> -> string): HandshakeState
    requires WellSized(s.queue)
    decreases |chunks|
  {
    if chunks == [] then s else FeedAll(Feed(s, chunks[0], serial, decodeUtf8), chunks[1..], serial, decodeUtf8)
  }

  /** Chunk boundaries do not matter: feeding the chunks one by one is feeding their concatenation at once. */
  lemma {:induction false} FeedAllIsFeedOfConcat(s: HandshakeState, chunks: seq<seq<byte>>, serial: string, decodeUtf8: seq<byte> -> string)
    requires WellSized(s.queue)
    requires Consume(s, serial, decodeUtf8) == s
    ensures FeedAll(s, chunks, serial, decodeUtf8) == Feed(s, Flatten(chunks), serial, decodeUtf8)
    decreases |chunks|
  {
    if chunks == [] {
      assert s.(buffer := s.buffer + []) == s;
    } else {
      var a := s.(buffer := s.buffer + chunks[0]);
      var s1 := Consume(a, serial, decodeUtf8);
      var rest := Flatten(chunks[1..]);
      assert FeedAll(s, chunks, serial, decodeUtf8) == FeedAll(s1, chunks[1..], serial, decodeUtf8);
      ConsumeIdempotent(a, serial, decodeUtf8);
      FeedAllIsFeedOfConcat(s1, chunks[1..], serial, decodeUtf8);
      ConsumeThenFeed(a, rest, serial, decodeUtf8);
      assert Flatten(chunks) == chunks[0] + rest;
      Associative(s.buffer, chunks[0], rest);
      assert a.(buffer := a.buffer + rest) == s.(buffer := s.buffer + Flatten(chunks));
    }
  }

  /** Consuming twice is consuming once. */
  lemma ConsumeIdempotent(s: HandshakeState, serial: string, decodeUtf8: seq<byte> -> string)
    requires WellSized(s.queue)
    ensures Consume(Consume(s, serial, decodeUtf8), serial, decodeUtf8) == Consume(s, serial, decodeUtf8)
  {
  }

  // ---------------------------------------------------------------------------
  // The client
  // ---------------------------------------------------------------------------

  /**
   * ScrcpyClient: the handshake queue, the byte buffer of the connection and the
   * configuration buffer. The socket, adb, the server process and the timers are
   * not part of the state modelled here.
   */
  class ScrcpyClient {
    const serial: string
    const sendDummyByte: bool
    const sendDeviceMeta: bool
    const sendCodecMeta: bool
    /** Buffer.toString('utf8'), taken as given. */
    const decodeUtf8: seq<byte> -> string

    var connected: bool
    var stopping: bool
    var buffer: seq<byte>
    var configBuffer: seq<byte>
    var handshakeQueue: seq<HandshakeItem>
    var handshakeInfo: HandshakeInfo
    var handshakeComplete: bool
    /** The per-connection flag of _connect: the device information is resolved at most once. */
    var deviceInfoResolved: bool

    ghost predicate Valid()
      reads this
    {
      && WellSized(handshakeQueue)
      && (handshakeComplete <==> handshakeQueue == [])
    }

    /** The handshake part of the state. */
    function Handshake(): HandshakeState
      reads this
    {
      HandshakeState(handshakeQueue, buffer, handshakeInfo)
    }

    /** The state _initializeHandshakeState leaves behind. */
    ghost predicate HandshakeReset()
      reads this
    {
      && buffer == []
      && configBuffer == []
      && handshakeQueue == InitialQueue(sendDummyByte, sendDeviceMeta, sendCodecMeta)
      && handshakeInfo == HandshakeInfo(serial, 0, 0, None)
    }

    constructor(serial: string, sendDummyByte: bool, sendDeviceMeta: bool, sendCodecMeta: bool, decodeUtf8: seq<byte> -> string)
      ensures Valid() && HandshakeReset()
      ensures this.serial == serial && this.decodeUtf8 == decodeUtf8
      ensures this.sendDummyByte == sendDummyByte && this.sendDeviceMeta == sendDeviceMeta && this.sendCodecMeta == sendCodecMeta
      ensures !connected && !stopping && !deviceInfoResolved
    {
      this.serial := serial;
      this.sendDummyByte := sendDummyByte;
      this.sendDeviceMeta := sendDeviceMeta;
      this.sendCodecMeta := sendCodecMeta;
      this.decodeUtf8 := decodeUtf8;
      connected := false;
      stopping := false;
      configBuffer := [];
      deviceInfoResolved := false;
      new;
      InitializeHandshakeState();
    }

    /** _initializeHandshakeState: empty buffers, a fresh queue, the serial as provisional name. */
    method InitializeHandshakeState()
      modifies this
      ensures Valid() && HandshakeReset()
      ensures handshakeComplete == (handshakeQueue == [])
      ensures connected == old(connected) && stopping == old(stopping) && deviceInfoResolved == old(deviceInfoResolved)
    {
      buffer := [];
      configBuffer := [];
      var queue: seq<HandshakeItem> := [];
      if sendDummyByte {
        queue := queue + [HandshakeItem(Dummy, 1)];
      }
      if sendDeviceMeta {
        queue := queue + [HandshakeItem(Device, 64)];
      }
      if sendCodecMeta {
        queue := queue + [HandshakeItem(Codec, 12)];
      }
      assert queue == InitialQueue(sendDummyByte, sendDeviceMeta, sendCodecMeta);
      handshakeQueue := queue;
      handshakeInfo := HandshakeInfo(serial, 0, 0, None);
      handshakeComplete := |handshakeQueue| == 0;
    }

    /** The first step of start, and the fresh per-connection flag of _connect. */
    method BeginStart()
      modifies this
      ensures Valid() && HandshakeReset() && !deviceInfoResolved
      ensures connected == old(connected) && stopping == old(stopping)
    {
      InitializeHandshakeState();
      deviceInfoResolved := false;
    }

    /** The end of start: connected once the device information resolved, stopped otherwise. */
    method FinishStart(succeeded: bool) returns (tornDown: bool)
      requires Valid()
      modifies this
      ensures Valid()
      ensures succeeded ==> connected && !tornDown && stopping == old(stopping) && Handshake() == old(Handshake())
      ensures !succeeded ==> stopping && tornDown == !old(stopping)
    {
      if succeeded {
        connected := true;
        tornDown := false;
      } else {
        tornDown := Stop();
      }
    }

    /**
     * stop: only the first call tears down (disconnects and resets the
     * handshake); `stopping` is never cleared again.
     */
    method Stop() returns (tornDown: bool)
      requires Valid()
      modifies this
      ensures Valid() && stopping
      ensures tornDown == !old(stopping)
      ensures old(stopping) ==> unchanged(this)
      ensures !old(stopping) ==> !connected && HandshakeReset() && deviceInfoResolved == old(deviceInfoResolved)
    {
      if stopping {
        return false;
      }
      stopping := true;
      connected := false;
      InitializeHandshakeState();
      tornDown := true;
    }

    /** _updateConfigBuffer. */
    method UpdateConfigBuffer(units: seq<seq<byte>>)
      modifies this`configBuffer
      ensures configBuffer == NewConfigBuffer(old(configBuffer), units)
    {
      if |units| == 0 {
        return;
      }
      var total := Flatten(units);
      if |total| > 0 {
        configBuffer := total;
      }
    }

    /** _processVideoPayload: None stands for null. */
    method ProcessVideoPayload(payload: seq<byte>) returns (output: Option<seq<byte>>)
      modifies this`configBuffer
      ensures PayloadResult(output, configBuffer) == ProcessedPayload(old(configBuffer), payload)
    {
      var units := SplitAnnexBNalus(payload);
      if |units| == 0 {
        return Some(payload);
      }
      if IsConfigOnly(units) {
        UpdateConfigBuffer(units);
        return None;
      }
      var configUnits := SelectUnits(units, true);
      if |configUnits| > 0 {
        UpdateConfigBuffer(configUnits);
        units := SelectUnits(units, false);
      }
      if |units| == 0 {
        return None;
      }
      var payloadBuffer := Flatten(units);
      if |configBuffer| > 0 && ContainsIdr(units) {
        payloadBuffer := configBuffer + payloadBuffer;
      }
      return Some(payloadBuffer);
    }

    /** processHandshake: consume whole blocks, then resolve the device information once. */
    method ProcessHandshake() returns (resolved: Option<DeviceInfo>)
      requires Valid()
      modifies this
      ensures Valid()
      ensures Handshake() == Consume(old(Handshake()), serial, decodeUtf8)
      ensures deviceInfoResolved == (old(deviceInfoResolved) || handshakeQueue == [])
      ensures resolved == if handshakeQueue == [] && !old(deviceInfoResolved)
        then Some(DeviceInfo(handshakeInfo.name, handshakeInfo.width, handshakeInfo.height)) else None
      ensures configBuffer == old(configBuffer) && connected == old(connected) && stopping == old(stopping)
    {
      resolved := None;
      while !handshakeComplete && |handshakeQueue| > 0
        invariant WellSized(handshakeQueue) && (handshakeComplete ==> handshakeQueue == [])
        invariant Consume(Handshake(), serial, decodeUtf8) == Consume(old(Handshake()), serial, decodeUtf8)
        invariant deviceInfoResolved == old(deviceInfoResolved) && configBuffer == old(configBuffer)
        invariant connected == old(connected) && stopping == old(stopping)
        decreases |handshakeQueue|
      {
        var next := handshakeQueue[0];
        if |buffer| < next.size {
          return;
        }
        ghost var before := Handshake();
        var chunk := buffer[..next.size];
        buffer := buffer[next.size..];
        match next.kind {
          case Dummy =>
          case Device =>
            handshakeInfo := handshakeInfo.(name := DeviceName(chunk, serial, decodeUtf8));
          case Codec =>
            handshakeInfo := handshakeInfo.(codecId := Some(ReadInt32BE(chunk, 0)), width := ReadInt32BE(chunk, 4), height := ReadInt32BE(chunk, 8));
        }
        handshakeQueue := handshakeQueue[1..];
        assert Handshake() == Advance(before, serial, decodeUtf8);
      }
      if |handshakeQueue| == 0 {
        handshakeComplete := true;
        if !deviceInfoResolved {
          deviceInfoResolved := true;
          resolved := Some(DeviceInfo(handshakeInfo.name, handshakeInfo.width, handshakeInfo.height));
        }
      }
    }

    /**
     * The socket's data handler: append, run the handshake, then hand whatever
     * follows it to the payload rewrite; video leaves only while connected and
     * not stopping.
     */
    method OnData(data: seq<byte>) returns (resolved: Option<DeviceInfo>, video: Option<seq<byte>>)
      requires Valid()
      modifies this
      ensures Valid()
      ensures var fed := Feed(old(Handshake()), data, serial, decodeUtf8);
        && handshakeQueue == fed.queue
        && handshakeInfo == fed.info
        && resolved == (if fed.queue == [] && !old(deviceInfoResolved) then Some(DeviceInfo(fed.info.name, fed.info.width, fed.info.height)) else None)
        && if fed.queue == [] && fed.buffer != [] then
             var r := ProcessedPayload(old(configBuffer), fed.buffer);
             && buffer == []
             && configBuffer == r.configBuffer
             && video == (if r.output.Some? && |r.output.value| > 0 && connected && !stopping then r.output else None)
           else
             buffer == fed.buffer && configBuffer == old(configBuffer) && video == None
      ensures video.Some? ==> connected && !stopping
      ensures connected == old(connected) && stopping == old(stopping)
    {
      buffer := buffer + data;
      resolved := ProcessHandshake();
      video := None;
      if handshakeComplete && |buffer| > 0 {
        var videoPayload := buffer;
        buffer := [];
        var processed := ProcessVideoPayload(videoPayload);
        if processed.Some? && |processed.value| > 0 {
          if connected && !stopping {
            video := processed;
          }
        }
      }
    }
  }
}
