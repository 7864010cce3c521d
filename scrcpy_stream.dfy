/**
 * The device-side relay of the screen stream
 * (lib/units/device/plugins/screen/scrcpy-stream.js): the NAL record scan, the
 * keyframe cache handed to late subscribers, the frame producer and the
 * subscriber bookkeeping that starts the producer for the first subscriber and
 * stops it after the last one leaves.
 */
module ScrcpyStream {
  import opened Wrappers
  import opened Nal

  // ---------------------------------------------------------------------------
  // NAL records
  // ---------------------------------------------------------------------------

  /** One entry of parseNALUnits: the unit's type, where its start code begins and how long that code is. */
  datatype NalRecord = NalRecord(nalType: int, offset: nat, startCodeLen: nat)

  /** The start-code test of parseNALUnits at `i`: the four-byte form first, then the three-byte form. */
  function StartCodeLenAt(data: seq<byte>, i: nat): (len: nat)
    requires i + 4 < |data|
    ensures len == 4 <==> FourByteCodeAt(data, i)
    ensures len == 3 <==> ThreeByteCodeAt(data, i)
    ensures len == 0 || len == 3 || len == 4
  {
    if data[i] == 0 && data[i + 1] == 0 then
      if data[i + 2] == 0 && data[i + 3] == 1 then 4
      else if data[i + 2] == 1 then 3
      else 0
    else 0
  }

  /** A record describes a start code in `data` and the header byte after it. */
  predicate RecordAt(data: seq<byte>, r: NalRecord) {
    && r.offset + 4 < |data|
    && (r.startCodeLen == 3 || r.startCodeLen == 4)
    && StartCodeLenAt(data, r.offset) == r.startCodeLen
    && r.nalType == NalType(data[r.offset + r.startCodeLen])
  }

  /**
   * The records parseNALUnits produces from position `i` on: positions below
   * `length - 4` are examined, and a start code found is skipped together with
   * its header byte.
   */
  function RecordsFrom(data: seq<byte>, i: nat): (records: seq<NalRecord>)
    ensures forall k :: 0 <= k < |records| ==> i <= records[k].offset && RecordAt(data, records[k])
    ensures forall k :: 0 <= k < |records| ==> 0 <= records[k].nalType < 32
    ensures forall k :: 0 <= k < |records| - 1 ==> records[k].offset + records[k].startCodeLen < records[k + 1].offset
    decreases |data| - i
  {
    if i + 4 >= |data| then []
    else
      var len := StartCodeLenAt(data, i);
      if len > 0 then [NalRecord(NalType(data[i + len]), i, len)] + RecordsFrom(data, i + len + 1)
      else RecordsFrom(data, i + 1)
  }

  /** parseNALUnits. */
  method ParseNalUnits(data: seq<byte>) returns (units: seq<NalRecord>)
    ensures units == RecordsFrom(data, 0)
  {
    units := [];
    var i: nat := 0;
    while i + 4 < |data|
      invariant units + RecordsFrom(data, i) == RecordsFrom(data, 0)
      decreases |data| - i
    {
      if data[i] == 0 && data[i + 1] == 0 {
        var startCodeLen := 0;
        if data[i + 2] == 0 && data[i + 3] == 1 {
          startCodeLen := 4;
        } else if data[i + 2] == 1 {
          startCodeLen := 3;
        }
        if startCodeLen > 0 {
          var nalType := NalType(data[i + startCodeLen]);
          ghost var before := units;
          units := units + [NalRecord(nalType, i, startCodeLen)];
          Associative(before, [NalRecord(nalType, i, startCodeLen)], RecordsFrom(data, i + startCodeLen + 1));
          i := i + startCodeLen + 1;
          continue;
        }
      }
      i := i + 1;
    }
  }

  /** The offsets of the records. */
  function Offsets(records: seq<NalRecord>): (starts: seq<nat>)
    ensures |starts| == |records|
    ensures forall k :: 0 <= k < |records| ==> starts[k] == records[k].offset
  {
    seq(|records|, k requires 0 <= k < |records| => records[k].offset)
  }

  /** The record offsets are valid cut points of the data. */
  lemma RecordOffsetsValid(data: seq<byte>)
    ensures ValidStarts(data, Offsets(RecordsFrom(data, 0)))
  {
    var records := RecordsFrom(data, 0);
    var starts := Offsets(records);
    forall j, k | 0 <= j < k < |starts| ensures starts[j] < starts[k] {
      OffsetsIncrease(records, j, k);
    }
  }

  lemma {:induction false} OffsetsIncrease(records: seq<NalRecord>, j: nat, k: nat)
    requires j < k < |records|
    requires forall m :: 0 <= m < |records| - 1 ==> records[m].offset + records[m].startCodeLen < records[m + 1].offset
    ensures records[j].offset < records[k].offset
    decreases k - j
  {
    if j + 1 < k {
      OffsetsIncrease(records, j + 1, k);
    }
  }

  /** extractNALUnit as cacheKeyframes calls it: from a record's offset to the next record's, or to the end. */
  function UnitData(data: seq<byte>, records: seq<NalRecord>, k: nat): seq<byte>
    requires ValidStarts(data, Offsets(records)) && k < |records|
  {
    Cut(data, Offsets(records))[k]
  }

  /** The `k`-th unit runs from its record's offset to the next record's, or to the end of the data. */
  lemma UnitDataIsSlice(data: seq<byte>, records: seq<NalRecord>, k: nat)
    requires ValidStarts(data, Offsets(records)) && k < |records|
    ensures records[k].offset <= (if k + 1 < |records| then records[k + 1].offset else |data|) <= |data|
    ensures UnitData(data, records, k) == data[records[k].offset..if k + 1 < |records| then records[k + 1].offset else |data|]
  {
    var starts := Offsets(records);
    assert starts[k] == records[k].offset;
    if k + 1 < |records| {
      assert starts[k + 1] == records[k + 1].offset;
    }
  }

  /**
   * The unit slices are disjoint and together are the data from the first start
   * code on.
   */
  lemma UnitSlicesCover(data: seq<byte>)
    requires RecordsFrom(data, 0) != []
    ensures var records := RecordsFrom(data, 0);
      ValidStarts(data, Offsets(records))
      && Flatten(Cut(data, Offsets(records))) == data[records[0].offset..]
  {
    RecordOffsetsValid(data);
    CutFlatten(data, Offsets(RecordsFrom(data, 0)));
  }

  // ---------------------------------------------------------------------------
  // Keyframe cache
  // ---------------------------------------------------------------------------

  /**
   * The value a cache field of type `t` holds after the first `n` records have
   * been looked at, starting from `current`.
   */
  function CachedAfter(data: seq<byte>, records: seq<NalRecord>, n: nat, t: int, current: Option<seq<byte>>): Option<seq<byte>>
    requires ValidStarts(data, Offsets(records)) && n <= |records|
  {
    if n == 0 then current
    else if records[n - 1].nalType == t then Some(UnitData(data, records, n - 1))
    else CachedAfter(data, records, n - 1, t, current)
  }

  /** One more record either replaces the field, when its type matches, or leaves it as it was. */
  lemma CachedAfterStep(data: seq<byte>, records: seq<NalRecord>, n: nat, t: int, current: Option<seq<byte>>)
    requires ValidStarts(data, Offsets(records)) && n < |records|
    ensures CachedAfter(data, records, n + 1, t, current)
      == if records[n].nalType == t then Some(UnitData(data, records, n)) else CachedAfter(data, records, n, t, current)
  {
  }

  /** A field whose type does not occur among the records keeps its value. */
  lemma {:induction false} UnseenTypeKeepsField(data: seq<byte>, records: seq<NalRecord>, n: nat, t: int, current: Option<seq<byte>>)
    requires ValidStarts(data, Offsets(records)) && n <= |records|
    requires forall k :: 0 <= k < n ==> records[k].nalType != t
    ensures CachedAfter(data, records, n, t, current) == current
  {
    if n > 0 {
      UnseenTypeKeepsField(data, records, n - 1, t, current);
    }
  }

  /** The last unit of type `t` among the first `n` records is the one the field holds. */
  lemma {:induction false} LastUnitOfTypeWins(data: seq<byte>, records: seq<NalRecord>, n: nat, t: int, current: Option<seq<byte>>, k: nat)
    requires ValidStarts(data, Offsets(records)) && k < n <= |records|
    requires records[k].nalType == t
    requires forall j :: k < j < n ==> records[j].nalType != t
    ensures CachedAfter(data, records, n, t, current) == Some(UnitData(data, records, k))
  {
    if n - 1 != k {
      LastUnitOfTypeWins(data, records, n - 1, t, current, k);
    }
  }

  /** The cached units for late subscribers; None is null. */
  class KeyframeCache {
    var sps: Option<seq<byte>>
    var pps: Option<seq<byte>>
    var idr: Option<seq<byte>>

    constructor()
      ensures sps == None && pps == None && idr == None
    {
      sps := None;
      pps := None;
      idr := None;
    }

    /** The three fields nulled, as a fresh producer start does. */
    method Clear()
      modifies this
      ensures sps == None && pps == None && idr == None
    {
      sps := None;
      pps := None;
      idr := None;
    }

    /**
     * cacheKeyframes: every SPS, PPS and IDR unit of the chunk replaces the
     * matching field in turn; other units are ignored.
     */
    method CacheKeyframes(data: seq<byte>)
      modifies this
      ensures var records := RecordsFrom(data, 0);
        && ValidStarts(data, Offsets(records))
        && sps == CachedAfter(data, records, |records|, 7, old(sps))
        && pps == CachedAfter(data, records, |records|, 8, old(pps))
        && idr == CachedAfter(data, records, |records|, 5, old(idr))
    {
      var units := ParseNalUnits(data);
      RecordOffsetsValid(data);
      CacheUnits(data, units);
    }

    /** The loop of cacheKeyframes over the records already found in `data`. */
    method CacheUnits(data: seq<byte>, units: seq<NalRecord>)
      requires ValidStarts(data, Offsets(units))
      modifies this
      ensures sps == CachedAfter(data, units, |units|, 7, old(sps))
      ensures pps == CachedAfter(data, units, |units|, 8, old(pps))
      ensures idr == CachedAfter(data, units, |units|, 5, old(idr))
    {
      for i := 0 to |units|
        invariant sps == CachedAfter(data, units, i, 7, old(sps))
        invariant pps == CachedAfter(data, units, i, 8, old(pps))
        invariant idr == CachedAfter(data, units, i, 5, old(idr))
      {
        var unit := units[i];
        UnitDataIsSlice(data, units, i);
        var nextOffset := if i + 1 < |units| then units[i + 1].offset else |data|;
        var nalData := data[unit.offset..nextOffset];
        CachedAfterStep(data, units, i, 7, old(sps));
        CachedAfterStep(data, units, i, 8, old(pps));
        CachedAfterStep(data, units, i, 5, old(idr));
        if unit.nalType == 7 {
          sps := Some(nalData);
        } else if unit.nalType == 8 {
          pps := Some(nalData);
        } else if unit.nalType == 5 {
          idr := Some(nalData);
        }
      }
    }

    /** getCachedKeyframes: the present entries, in the order SPS, PPS, IDR. */
    method GetCachedKeyframes() returns (frames: seq<seq<byte>>)
      ensures frames == Present(sps) + Present(pps) + Present(idr)
      ensures |frames| <= 3
      ensures frames == [] <==> sps == None && pps == None && idr == None
    {
      frames := [];
      if sps.Some? {
        frames := frames + [sps.value];
      }
      if pps.Some? {
        frames := frames + [pps.value];
      }
      if idr.Some? {
        frames := frames + [idr.value];
      }
    }
  }

  /** The entry as a list of zero or one frame. */
  function Present(entry: Option<seq<byte>>): (frames: seq<seq<byte>>)
    ensures |frames| <= 1
    ensures frames == [] <==> entry == None
  {
    if entry.Some? then [entry.value] else []
  }

  // ---------------------------------------------------------------------------
  // Frame producer
  // ---------------------------------------------------------------------------

  /** The device information the relay reads from the producer. */
  datatype StreamInfo = StreamInfo(deviceName: string, width: int, height: int)

  /** What a producer start resolves with (an optional device information) or that it failed. */
  datatype StartResult = Started(info: Option<StreamInfo>) | StartFailed

  /**
   * ScrcpyFrameProducer. The capture client it creates is reduced to the
   * outcome of its start, given as a parameter.
   */
  class FrameProducer {
    var running: bool
    var deviceInfo: Option<StreamInfo>
    /** The module-level keyframe cache. */
    const cache: KeyframeCache
    /** How many capture clients have been created (`scrcpyClient` is non-null once this is positive). */
    var clientsCreated: nat

    constructor()
      ensures !running && deviceInfo == None && clientsCreated == 0 && fresh(cache)
      ensures cache.sps == None && cache.pps == None && cache.idr == None
    {
      running := false;
      deviceInfo := None;
      clientsCreated := 0;
      cache := new KeyframeCache();
    }

    /**
     * start: while running, the current device information and nothing else; a
     * fresh start clears the cache and creates a client, and a failed one
     * leaves the producer not running.
     */
    method Start(outcome: Option<StreamInfo>) returns (result: StartResult)
      modifies this, cache
      ensures old(running) ==> result == Started(old(deviceInfo)) && unchanged(this) && unchanged(cache)
      ensures !old(running) ==> cache.sps == None && cache.pps == None && cache.idr == None
      ensures !old(running) ==> clientsCreated == old(clientsCreated) + 1
      ensures !old(running) && outcome.Some? ==> running && deviceInfo == outcome && result == Started(outcome)
      ensures !old(running) && outcome.None? ==> !running && deviceInfo == old(deviceInfo) && result == StartFailed
    {
      if running {
        return Started(deviceInfo);
      }
      running := true;
      cache.Clear();
      clientsCreated := clientsCreated + 1;
      if outcome.Some? {
        deviceInfo := outcome;
        result := Started(outcome);
      } else {
        running := false;
        result := StartFailed;
      }
    }

    /** stop: not running any more; the client is stopped when one was ever created. */
    method Stop() returns (stoppedClient: bool)
      modifies this`running
      ensures !running
      ensures stoppedClient == (clientsCreated > 0)
    {
      running := false;
      stoppedClient := clientsCreated > 0;
    }

    /** The client's close event. */
    method OnClientClose()
      modifies this`running
      ensures !running
    {
      running := false;
    }

    /** The client's data event: the chunk updates the keyframe cache and is passed on unchanged. */
    method OnClientData(data: seq<byte>) returns (emitted: seq<byte>)
      modifies cache
      ensures emitted == data
      ensures var records := RecordsFrom(data, 0);
        && ValidStarts(data, Offsets(records))
        && cache.sps == CachedAfter(data, records, |records|, 7, old(cache.sps))
        && cache.pps == CachedAfter(data, records, |records|, 8, old(cache.pps))
        && cache.idr == CachedAfter(data, records, |records|, 5, old(cache.idr))
    {
      cache.CacheKeyframes(data);
      emitted := data;
    }
  }

  // ---------------------------------------------------------------------------
  // Subscribers
  // ---------------------------------------------------------------------------

  /** A connection's id (a v4 UUID in the relay). */
  type ConnId = nat

  /** What the relay sends to one connection in reply to `on`. */
  datatype Outbound = StartMessage(info: StreamInfo) | FrameMessage(frame: seq<byte>) | ErrorMessage

  predicate Distinct(ids: seq<ConnId>) {
    forall j, k :: 0 <= j < k < |ids| ==> ids[j] != ids[k]
  }

  /** `Map.delete`: the id removed, the others kept in their insertion order. */
  function Without(ids: seq<ConnId>, id: ConnId): (rest: seq<ConnId>)
    ensures id !in rest
    ensures forall x :: x in rest <==> x in ids && x != id
    ensures id !in ids ==> rest == ids
  {
    if ids == [] then []
    else if ids[0] == id then Without(ids[1..], id)
    else [ids[0]] + Without(ids[1..], id)
  }

  /** Removing an id keeps the map's keys distinct. */
  lemma {:induction false} WithoutDistinct(ids: seq<ConnId>, id: ConnId)
    requires Distinct(ids)
    ensures Distinct(Without(ids, id))
  {
    if ids != [] {
      WithoutDistinct(ids[1..], id);
      if ids[0] != id {
        var rest := Without(ids[1..], id);
        assert ids[0] !in ids[1..];
        assert ids[0] !in rest;
        var r := [ids[0]] + rest;
        forall j, k | 0 <= j < k < |r| ensures r[j] != r[k] {
          if j > 0 {
            assert r[j] == rest[j - 1];
          }
          assert r[k] == rest[k - 1];
        }
      }
    }
  }

  /** The reply to `on` once ensureProducerStarted settles: start info and the cached frames, the error, or nothing. */
  function StartReply(result: StartResult, frames: seq<seq<byte>>): (sent: seq<Outbound>)
    ensures result.StartFailed? ==> sent == [ErrorMessage]
    ensures result.Started? && result.info.None? ==> sent == []
    ensures result.Started? && result.info.Some? ==>
      |sent| == |frames| + 1 && sent[0] == StartMessage(result.info.value)
      && forall k :: 0 <= k < |frames| ==> sent[k + 1] == FrameMessage(frames[k])
  {
    match result
    case StartFailed => [ErrorMessage]
    case Started(info) =>
      if info.Some? then [StartMessage(info.value)] + seq(|frames|, k requires 0 <= k < |frames| => FrameMessage(frames[k])) else []
  }

  /**
   * The WebSocket side of the relay: the client map in insertion order, each
   * connection's `subscribed` flag, and `producerStarted`. The two counters
   * record how often the producer was started and stopped.
   */
  class Relay {
    const producer: FrameProducer
    var clients: seq<ConnId>
    var subscribed: map<ConnId, bool>
    var producerStarted: bool
    ghost var startCalls: nat
    ghost var stopCalls: nat

    /** The bookkeeping that holds between any two steps of a handler. */
    ghost predicate Counted()
      reads this, producer
    {
      && Distinct(clients)
      && (forall id :: id in clients ==> id in subscribed && subscribed[id])
      && (producer.running ==> producerStarted)
      && startCalls == stopCalls + (if producerStarted then 1 else 0)
    }

    /** Everything but the link from `producerStarted` back to a non-empty map. */
    ghost predicate Tracked()
      reads this, producer
    {
      Counted() && (clients != [] ==> producerStarted)
    }

    /** The producer has been started exactly while somebody is subscribed, and once per such period. */
    ghost predicate Valid()
      reads this, producer
    {
      Tracked() && (producerStarted <==> clients != [])
    }

    constructor()
      ensures Valid() && fresh(producer) && fresh(producer.cache)
      ensures clients == [] && subscribed == map[] && startCalls == 0
    {
      producer := new FrameProducer();
      clients := [];
      subscribed := map[];
      producerStarted := false;
      startCalls := 0;
      stopCalls := 0;
    }

    /** A new connection: not subscribed yet. */
    method Connect(id: ConnId)
      requires Valid() && id !in subscribed
      modifies this
      ensures Valid()
      ensures subscribed == old(subscribed)[id := false]
      ensures clients == old(clients) && producerStarted == old(producerStarted)
      ensures startCalls == old(startCalls) && stopCalls == old(stopCalls)
    {
      subscribed := subscribed[id := false];
    }

    /** ensureProducerStarted: the producer is started only when it has not been already. */
    method EnsureProducerStarted(outcome: Option<StreamInfo>) returns (result: StartResult)
      requires Counted() && clients != []
      modifies this, producer, producer.cache
      ensures Valid()
      ensures clients == old(clients) && subscribed == old(subscribed)
      ensures old(producerStarted) ==> result == Started(old(producer.deviceInfo)) && startCalls == old(startCalls)
      ensures old(producerStarted) ==> unchanged(producer) && unchanged(producer.cache)
      ensures !old(producerStarted) ==> startCalls == old(startCalls) + 1
      ensures !old(producerStarted) && outcome.Some? ==> result == Started(outcome) && producer.running
      ensures !old(producerStarted) && outcome.None? ==> result == StartFailed && !producer.running
      ensures !old(producerStarted) ==> producer.cache.sps == None && producer.cache.pps == None && producer.cache.idr == None
    {
      if producerStarted {
        return Started(producer.deviceInfo);
      }
      producerStarted := true;
      startCalls := startCalls + 1;
      result := producer.Start(outcome);
    }

    /** maybeStopProducer: stop only when nobody is left and the producer was started. */
    method MaybeStopProducer()
      requires Tracked()
      modifies this, producer
      ensures Valid()
      ensures clients == old(clients) && subscribed == old(subscribed) && startCalls == old(startCalls)
      ensures stopCalls == old(stopCalls) + (if clients == [] && old(producerStarted) then 1 else 0)
      ensures clients == [] && old(producerStarted) ==> !producer.running
      ensures !(clients == [] && old(producerStarted)) ==> producer.running == old(producer.running)
      ensures producer.clientsCreated == old(producer.clientsCreated) && producer.deviceInfo == old(producer.deviceInfo)
    {
      if |clients| == 0 && producerStarted {
        producerStarted := false;
        stopCalls := stopCalls + 1;
        var _ := producer.Stop();
      }
    }

    /**
     * The `on` message: the first one on a connection adds it to the client map
     * and starts the producer if needed; later ones do nothing.
     */
    method On(id: ConnId, outcome: Option<StreamInfo>) returns (sent: seq<Outbound>)
      requires Valid() && id in subscribed
      modifies this, producer, producer.cache
      ensures Valid()
      ensures old(subscribed[id]) ==> sent == [] && unchanged(this) && unchanged(producer) && unchanged(producer.cache)
      ensures !old(subscribed[id]) ==> clients == old(clients) + [id] && subscribed == old(subscribed)[id := true]
      ensures !old(subscribed[id]) ==> startCalls == old(startCalls) + (if old(producerStarted) then 0 else 1)
      ensures !old(subscribed[id]) && old(producerStarted) ==>
        sent == StartReply(Started(old(producer.deviceInfo)), Present(producer.cache.sps) + Present(producer.cache.pps) + Present(producer.cache.idr))
      ensures !old(subscribed[id]) && !old(producerStarted) ==>
        sent == (if outcome.Some? then [StartMessage(outcome.value)] else [ErrorMessage])
    {
      sent := [];
      if !subscribed[id] {
        subscribed := subscribed[id := true];
        clients := clients + [id];
        var result := EnsureProducerStarted(outcome);
        var frames := producer.cache.GetCachedKeyframes();
        sent := StartReply(result, frames);
      }
    }

    /** The `off` message: unsubscribed, removed from the map, and the producer stopped if nobody is left. */
    method Off(id: ConnId)
      requires Valid() && id in subscribed
      modifies this, producer
      ensures Valid()
      ensures subscribed == old(subscribed)[id := false]
      ensures clients == Without(old(clients), id)
      ensures startCalls == old(startCalls)
      ensures stopCalls == old(stopCalls) + (if old(clients) != [] && clients == [] then 1 else 0)
      ensures old(clients) != [] && clients == [] ==> !producer.running
    {
      subscribed := subscribed[id := false];
      WithoutDistinct(clients, id);
      clients := Without(clients, id);
      MaybeStopProducer();
    }

    /** The connection's close and error events: removed from the map, and the producer stopped if nobody is left. */
    method Drop(id: ConnId)
      requires Valid()
      modifies this, producer
      ensures Valid()
      ensures subscribed == old(subscribed)
      ensures clients == Without(old(clients), id)
      ensures startCalls == old(startCalls)
      ensures stopCalls == old(stopCalls) + (if old(clients) != [] && clients == [] then 1 else 0)
      ensures old(clients) != [] && clients == [] ==> !producer.running
    {
      WithoutDistinct(clients, id);
      clients := Without(clients, id);
      MaybeStopProducer();
    }

    /**
     * The producer's data event: the same chunk goes to every client in map
     * order; a client whose send fails is reported and the others still get it.
     */
    method Broadcast(data: seq<byte>, failing: set<ConnId>) returns (attempts: seq<(ConnId, seq<byte>)>, failed: seq<ConnId>)
      ensures |attempts| == |clients|
      ensures forall k :: 0 <= k < |clients| ==> attempts[k] == (clients[k], data)
      ensures forall id :: id in failed <==> id in clients && id in failing
    {
      attempts := [];
      failed := [];
      for k := 0 to |clients|
        invariant |attempts| == k
        invariant forall j :: 0 <= j < k ==> attempts[j] == (clients[j], data)
        invariant forall id :: id in failed <==> id in clients[..k] && id in failing
      {
        attempts := attempts + [(clients[k], data)];
        if clients[k] in failing {
          failed := failed + [clients[k]];
        }
        assert clients[..k + 1] == clients[..k] + [clients[k]];
      }
      assert clients[..|clients|] == clients;
    }
  }
}
