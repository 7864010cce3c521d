/**
 * Byte-level vocabulary of the H.264 byte-stream format (ITU-T H.264, Annex B,
 * section B.1) shared by the capture client, the relay and the browser sink:
 * bytes, start codes, the NAL unit type of a header byte, the concatenation of
 * units, and the cutting of a buffer into units at a list of start positions.
 */
module Nal {
  import opened Wrappers

  newtype byte = b: int | 0 <= b < 256

  /**
   * nal_unit_type: the low five bits of the NAL unit header byte (ITU-T H.264,
   * section 7.3.1 and Table 7-1). The JavaScript writes it `b & 0x1F`.
   */
  function NalType(header: byte): (t: int)
    ensures 0 <= t < 32
    ensures header < 32 ==> t == header as int
  {
    (header % 32) as int
  }

  /** The three-byte start code `00 00 01` at position `i`. */
  predicate ThreeByteCodeAt(s: seq<byte>, i: nat) {
    i + 3 <= |s| && s[i] == 0 && s[i + 1] == 0 && s[i + 2] == 1
  }

  /** The four-byte start code `00 00 00 01` at position `i`. */
  predicate FourByteCodeAt(s: seq<byte>, i: nat) {
    i + 4 <= |s| && s[i] == 0 && s[i + 1] == 0 && s[i + 2] == 0 && s[i + 3] == 1
  }

  /** `Buffer.concat(units)`. */
  function Flatten(units: seq<seq<byte>>): seq<byte> {
    if units == [] then [] else units[0] + Flatten(units[1..])
  }

  lemma {:induction false} FlattenAppend(a: seq<seq<byte>>, b: seq<seq<byte>>)
    ensures Flatten(a + b) == Flatten(a) + Flatten(b)
  {
    if a == [] {
      assert a + b == b;
    } else {
      assert (a + b)[1..] == a[1..] + b;
      FlattenAppend(a[1..], b);
    }
  }

  lemma FlattenOne(u: seq<byte>)
    ensures Flatten([u]) == u
  {
    assert [u][1..] == [];
  }

  /** A sequence with one more element flattens to one more piece at the end. */
  lemma FlattenSnoc(a: seq<seq<byte>>, u: seq<byte>)
    ensures Flatten(a + [u]) == Flatten(a) + u
  {
    FlattenAppend(a, [u]);
    FlattenOne(u);
  }

  predicate Increasing(starts: seq<nat>) {
    forall j, k :: 0 <= j < k < |starts| ==> starts[j] < starts[k]
  }

  /** Positions, in stream order, at which `buf` is to be cut into units. */
  predicate ValidStarts(buf: seq<byte>, starts: seq<nat>) {
    Increasing(starts) && forall k :: 0 <= k < |starts| ==> starts[k] < |buf|
  }

  function Last(starts: seq<nat>): nat
    requires starts != []
  {
    starts[|starts| - 1]
  }

  /** Where the `k`-th unit ends: at the next start, or at the end of the buffer. */
  function SliceEnd(buf: seq<byte>, starts: seq<nat>, k: nat): nat
    requires k < |starts|
  {
    if k + 1 < |starts| then starts[k + 1] else |buf|
  }

  /** The units from each start to the next one, the last unit running to the end of `buf`. */
  function Cut(buf: seq<byte>, starts: seq<nat>): (units: seq<seq<byte>>)
    requires ValidStarts(buf, starts)
    ensures |units| == |starts|
  {
    seq(|starts|, k requires 0 <= k < |starts| => buf[starts[k]..SliceEnd(buf, starts, k)])
  }

  /** The units from each start to the next one; what follows the last start is not a unit. */
  function Between(buf: seq<byte>, starts: seq<nat>): (units: seq<seq<byte>>)
    requires ValidStarts(buf, starts)
    ensures |units| == if starts == [] then 0 else |starts| - 1
  {
    if starts == [] then []
    else seq(|starts| - 1, k requires 0 <= k < |starts| - 1 => buf[starts[k]..starts[k + 1]])
  }

  lemma CutUnfold(buf: seq<byte>, starts: seq<nat>)
    requires ValidStarts(buf, starts) && |starts| >= 2
    ensures Cut(buf, starts) == [buf[starts[0]..starts[1]]] + Cut(buf, starts[1..])
  {
  }

  /** Cutting loses nothing after the first start: the units concatenate back to `buf[starts[0]..]`. */
  lemma {:induction false} CutFlatten(buf: seq<byte>, starts: seq<nat>)
    requires ValidStarts(buf, starts) && starts != []
    ensures Flatten(Cut(buf, starts)) == buf[starts[0]..]
    decreases |starts|
  {
    if |starts| == 1 {
      FlattenOne(buf[starts[0]..]);
      assert Cut(buf, starts)[0] == buf[starts[0]..];
      assert Cut(buf, starts) == [buf[starts[0]..]];
    } else {
      CutUnfold(buf, starts);
      CutFlatten(buf, starts[1..]);
      assert buf[starts[0]..] == buf[starts[0]..starts[1]] + buf[starts[1]..];
    }
  }

  /** The cut units are the units between starts followed by the tail from the last start. */
  lemma CutIsBetweenAndTail(buf: seq<byte>, starts: seq<nat>)
    requires ValidStarts(buf, starts) && starts != []
    ensures Cut(buf, starts) == Between(buf, starts) + [buf[Last(starts)..]]
  {
    var c, b := Cut(buf, starts), Between(buf, starts) + [buf[Last(starts)..]];
    forall k | 0 <= k < |c| ensures c[k] == b[k] {
      if k + 1 < |starts| {
        assert b[k] == Between(buf, starts)[k];
      }
    }
  }

  /** The units between starts concatenate to `buf[starts[0]..Last(starts)]`. */
  lemma BetweenFlatten(buf: seq<byte>, starts: seq<nat>)
    requires ValidStarts(buf, starts) && starts != []
    ensures Flatten(Between(buf, starts)) == buf[starts[0]..Last(starts)]
  {
    var units, mid, tail := Between(buf, starts), buf[starts[0]..Last(starts)], buf[Last(starts)..];
    calc {
      Flatten(units) + tail;
      { FlattenSnoc(units, tail); }
      Flatten(units + [tail]);
      { CutIsBetweenAndTail(buf, starts); }
      Flatten(Cut(buf, starts));
      { CutFlatten(buf, starts); }
      buf[starts[0]..];
      mid + tail;
    }
    CancelTail(Flatten(units), mid, tail);
  }

  /** Extending the list of starts by one adds exactly one unit between the last two starts. */
  lemma BetweenSnoc(buf: seq<byte>, starts: seq<nat>, p: nat)
    requires ValidStarts(buf, starts) && starts != [] && Last(starts) < p < |buf|
    ensures ValidStarts(buf, starts + [p])
    ensures Between(buf, starts + [p]) == Between(buf, starts) + [buf[Last(starts)..p]]
  {
    var t := starts + [p];
    forall k | 0 <= k < |starts| ensures t[k] == starts[k] {}
    forall j, k | 0 <= j < k < |t| ensures t[j] < t[k] {
      if k < |starts| {
      } else {
        assert t[j] <= Last(starts);
      }
    }
    assert t[|starts| - 1] == Last(starts) && t[|starts|] == p;
    var a, b := Between(buf, t), Between(buf, starts) + [buf[Last(starts)..p]];
    forall k | 0 <= k < |a| ensures a[k] == b[k] {
      if k + 1 < |starts| {
        assert b[k] == Between(buf, starts)[k];
      }
    }
  }

  /**
   * The start-code scan of the browser sink (`H264Parser.extractNALUnits` and the
   * Broadway splitters): positions `i` with `i < length - 3` are examined; a
   * `00 00 01` or `00 00 00 01` there is recorded and skipped, otherwise the scan
   * moves one byte on. The two tests cannot both hold at one position (the third
   * byte is 1 in one and 0 in the other), so the order in which a loop tries them
   * does not matter.
   */
  function ScanStarts(buf: seq<byte>, i: nat): (starts: seq<nat>)
    ensures forall k :: 0 <= k < |starts| ==>
      i <= starts[k] && starts[k] + 3 < |buf| && (ThreeByteCodeAt(buf, starts[k]) || FourByteCodeAt(buf, starts[k]))
    ensures Increasing(starts)
    decreases |buf| - i
  {
    if i + 3 >= |buf| then []
    else if ThreeByteCodeAt(buf, i) then [i] + ScanStarts(buf, i + 3)
    else if FourByteCodeAt(buf, i) then [i] + ScanStarts(buf, i + 4)
    else ScanStarts(buf, i + 1)
  }

  /** How far the scan moves past a start code found at `i`. */
  function CodeLength(buf: seq<byte>, i: nat): nat {
    if ThreeByteCodeAt(buf, i) then 3 else 4
  }

  predicate NoCodeFrom(buf: seq<byte>, i: nat) {
    forall p :: i <= p && p + 3 < |buf| ==> !ThreeByteCodeAt(buf, p) && !FourByteCodeAt(buf, p)
  }

  /** The scan finds nothing exactly when no examined position holds a start code. */
  lemma {:induction false} ScanEmptyIffNoCode(buf: seq<byte>, i: nat)
    ensures ScanStarts(buf, i) == [] <==> NoCodeFrom(buf, i)
    decreases |buf| - i
  {
    if i + 3 < |buf| && !ThreeByteCodeAt(buf, i) && !FourByteCodeAt(buf, i) {
      ScanEmptyIffNoCode(buf, i + 1);
    }
  }

  /**
   * The loop shape shared by the browser-side splitters: from position `i`, with
   * the last start code seen at `last` (-1: none yet), the units between
   * consecutive start codes that the loop still pushes.
   */
  function BetweenFrom(buf: seq<byte>, i: nat, last: int): seq<seq<byte>>
    requires last < i && last < |buf|
    decreases |buf| - i
  {
    if i + 3 >= |buf| then []
    else if ThreeByteCodeAt(buf, i) || FourByteCodeAt(buf, i) then
      (if last >= 0 then [buf[last..i]] else []) + BetweenFrom(buf, i + CodeLength(buf, i), i)
    else BetweenFrom(buf, i + 1, last)
  }

  /** Where that loop leaves its `last` variable. */
  function LastFrom(buf: seq<byte>, i: nat, last: int): int
    requires last < i && last < |buf|
    decreases |buf| - i
  {
    if i + 3 >= |buf| then last
    else if ThreeByteCodeAt(buf, i) || FourByteCodeAt(buf, i) then LastFrom(buf, i + CodeLength(buf, i), i)
    else LastFrom(buf, i + 1, last)
  }

  /** One iteration of that loop. */
  lemma BetweenFromStep(buf: seq<byte>, i: nat, last: int)
    requires last < i && last < |buf| && i + 3 < |buf|
    ensures ThreeByteCodeAt(buf, i) || FourByteCodeAt(buf, i) ==>
      && BetweenFrom(buf, i, last) == (if last >= 0 then [buf[last..i]] else []) + BetweenFrom(buf, i + CodeLength(buf, i), i)
      && LastFrom(buf, i, last) == LastFrom(buf, i + CodeLength(buf, i), i)
    ensures !ThreeByteCodeAt(buf, i) && !FourByteCodeAt(buf, i) ==>
      BetweenFrom(buf, i, last) == BetweenFrom(buf, i + 1, last) && LastFrom(buf, i, last) == LastFrom(buf, i + 1, last)
  {
  }

  /** Putting one more start in front of valid starts adds the unit up to the old first start. */
  lemma PrependBetween(buf: seq<byte>, p: nat, rest: seq<nat>)
    requires ValidStarts(buf, rest) && p < |buf|
    requires forall k :: 0 <= k < |rest| ==> p < rest[k]
    ensures ValidStarts(buf, [p] + rest)
    ensures Between(buf, [p] + rest) == if rest == [] then [] else [buf[p..rest[0]]] + Between(buf, rest)
  {
    var t := [p] + rest;
    forall j, k | 0 <= j < k < |t| ensures t[j] < t[k] {
      if j > 0 { assert t[j] == rest[j - 1]; }
      assert t[k] == rest[k - 1];
    }
    if rest != [] {
      var a := Between(buf, t);
      var b := [buf[p..rest[0]]] + Between(buf, rest);
      assert |a| == |b|;
      forall k | 0 <= k < |a| ensures a[k] == b[k] {
        if k > 0 {
          assert t[k] == rest[k - 1] && t[k + 1] == rest[k];
        }
      }
    }
  }

  /** With a start code already seen at `last`, the loop yields the units between it and the scanned ones. */
  lemma {:induction false} BetweenFromSeen(buf: seq<byte>, i: nat, last: nat)
    requires last < i && last < |buf|
    ensures ValidStarts(buf, [last] + ScanStarts(buf, i))
    ensures BetweenFrom(buf, i, last) == Between(buf, [last] + ScanStarts(buf, i))
    decreases |buf| - i
  {
    var s := ScanStarts(buf, i);
    PrependBetween(buf, last, s);
    if i + 3 >= |buf| {
      assert s == [];
    } else {
      ScanStep(buf, i);
      BetweenFromStep(buf, i, last);
      if ThreeByteCodeAt(buf, i) || FourByteCodeAt(buf, i) {
        var len := CodeLength(buf, i);
        BetweenFromSeen(buf, i + len, i);
        calc {
          BetweenFrom(buf, i, last);
          [buf[last..i]] + BetweenFrom(buf, i + len, i);
          [buf[last..i]] + Between(buf, [i] + ScanStarts(buf, i + len));
          { assert s == [i] + ScanStarts(buf, i + len); }
          [buf[last..s[0]]] + Between(buf, s);
          Between(buf, [last] + s);
        }
      } else {
        BetweenFromSeen(buf, i + 1, last);
      }
    }
  }

  /** ... and leaves `last` at the last of them. */
  lemma {:induction false} LastFromSeen(buf: seq<byte>, i: nat, last: nat)
    requires last < i && last < |buf|
    ensures LastFrom(buf, i, last) == Last([last] + ScanStarts(buf, i))
    decreases |buf| - i
  {
    var s := ScanStarts(buf, i);
    if i + 3 >= |buf| {
      assert s == [];
    } else {
      ScanStep(buf, i);
      BetweenFromStep(buf, i, last);
      if ThreeByteCodeAt(buf, i) || FourByteCodeAt(buf, i) {
        var len := CodeLength(buf, i);
        LastFromSeen(buf, i + len, i);
        assert s == [i] + ScanStarts(buf, i + len);
        assert Last([last] + s) == Last(s);
      } else {
        LastFromSeen(buf, i + 1, last);
      }
    }
  }

  /** From the start of a buffer, the loop yields the units between the scanned start codes. */
  lemma {:induction false} BetweenFromIsBetween(buf: seq<byte>, i: nat)
    ensures BetweenFrom(buf, i, -1) == Between(buf, ScanStarts(buf, i))
    ensures LastFrom(buf, i, -1) == if ScanStarts(buf, i) == [] then -1 else Last(ScanStarts(buf, i))
    decreases |buf| - i
  {
    if i + 3 >= |buf| {
    } else if ThreeByteCodeAt(buf, i) || FourByteCodeAt(buf, i) {
      var len := CodeLength(buf, i);
      BetweenFromSeen(buf, i + len, i);
      LastFromSeen(buf, i + len, i);
      assert ScanStarts(buf, i) == [i] + ScanStarts(buf, i + len);
    } else {
      BetweenFromIsBetween(buf, i + 1);
    }
  }

  /** Consecutive scanned start codes are at least the first one's length apart. */
  lemma {:induction false} ScanGap(buf: seq<byte>, i: nat, k: nat)
    requires k + 1 < |ScanStarts(buf, i)|
    ensures ScanStarts(buf, i)[k] + CodeLength(buf, ScanStarts(buf, i)[k]) <= ScanStarts(buf, i)[k + 1]
    decreases |buf| - i
  {
    var s := ScanStarts(buf, i);
    assert i + 3 < |buf|;
    if ThreeByteCodeAt(buf, i) || FourByteCodeAt(buf, i) {
      var len := CodeLength(buf, i);
      var rest := ScanStarts(buf, i + len);
      assert s == [i] + rest;
      if k > 0 {
        ScanGap(buf, i + len, k - 1);
        assert s[k] == rest[k - 1] && s[k + 1] == rest[k];
      } else {
        assert s[0] == i && s[1] == rest[0] && i + len <= rest[0];
      }
    } else {
      assert s == ScanStarts(buf, i + 1);
      ScanGap(buf, i + 1, k);
    }
  }

  /** One position of the scan. */
  lemma ScanStep(buf: seq<byte>, i: nat)
    requires i + 3 < |buf|
    ensures ThreeByteCodeAt(buf, i) ==> ScanStarts(buf, i) == [i] + ScanStarts(buf, i + 3)
    ensures FourByteCodeAt(buf, i) ==> ScanStarts(buf, i) == [i] + ScanStarts(buf, i + 4)
    ensures !ThreeByteCodeAt(buf, i) && !FourByteCodeAt(buf, i) ==> ScanStarts(buf, i) == ScanStarts(buf, i + 1)
  {
  }
}
