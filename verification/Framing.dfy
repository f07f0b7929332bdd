/**
 * packages/harness-broker/src/framing.ts: newline-delimited frames over a byte stream
 * that arrives in arbitrary chunks. The JSON text is abstract: `parse` undoes `encode`,
 * and encoded text holds no raw newline (section 7 of RFC 8259 has control characters
 * in strings escaped).
 */
module Framing {
  import opened Prelude

  type Byte = b: int | 0 <= b < 256

  const NEWLINE: Byte := 10
  const MAX_FRAME_BYTES: nat := 8 * 1024 * 1024

  type Bytes = seq<Byte>

  ghost predicate LineCodec<V(!new)>(encode: V -> Bytes, parse: Bytes -> Option<V>) {
    forall v: V :: encode(v) != [] && NEWLINE !in encode(v) && parse(encode(v)) == Some(v)
  }

  // ---- the reader -------------------------------------------------------------------

  /** `indexOf(0x0a)`; the length of the input when there is no newline. */
  function NewlineIndex(bytes: Bytes): (i: nat)
    ensures i <= |bytes|
    ensures NEWLINE !in bytes[..i]
    ensures i < |bytes| ==> bytes[i] == NEWLINE
  {
    if bytes == [] || bytes[0] == NEWLINE then 0 else 1 + NewlineIndex(bytes[1..])
  }

  // Values delivered in order, the unconsumed bytes, and whether every line parsed.
  datatype Drained<V> = Drained(values: seq<V>, rest: Bytes, ok: bool)

  function Prepend<V>(values: seq<V>, d: Drained<V>): Drained<V> {
    d.(values := values + d.values)
  }

  /** Every complete line of the buffer is parsed and delivered; empty lines are skipped. */
  function Drain<V>(parse: Bytes -> Option<V>, bytes: Bytes): Drained<V>
    decreases |bytes|
  {
    var i := NewlineIndex(bytes);
    if i == |bytes| then Drained([], bytes, true)
    else if i == 0 then Drain(parse, bytes[i + 1..])
    else
      match parse(bytes[..i])
      case None => Drained([], bytes[i + 1..], false)
      case Some(v) => Prepend([v], Drain(parse, bytes[i + 1..]))
  }

  // Rejected: the connection was destroyed and no later chunk is looked at.
  datatype Reader = Reader(buffered: Bytes, rejected: bool)

  function Feed<V>(parse: Bytes -> Option<V>, max: nat, r: Reader, chunk: Bytes): (Reader, seq<V>) {
    if r.rejected then (r, [])
    else if |r.buffered| + |chunk| > max then (Reader(r.buffered + chunk, true), [])
    else
      var d := Drain(parse, r.buffered + chunk);
      (Reader(d.rest, !d.ok), d.values)
  }

  class FrameReader<V> {
    const parse: Bytes -> Option<V>
    var buffered: Bytes
    var destroyed: bool

    ghost function View(): Reader
      reads this
    {
      Reader(buffered, destroyed)
    }

    constructor (parse: Bytes -> Option<V>)
      ensures this.parse == parse && View() == Reader([], false)
    {
      this.parse := parse;
      buffered, destroyed := [], false;
    }

    method OnData(chunk: Bytes) returns (frames: seq<V>)
      modifies this
      ensures (View(), frames) == Feed(parse, MAX_FRAME_BYTES, old(View()), chunk)
    {
      hide Drain;
      hide NewlineIndex;
      frames := [];
      if destroyed {
        return;
      }
      buffered := buffered + chunk;
      if |buffered| > MAX_FRAME_BYTES {
        destroyed := true;
        return;
      }
      ghost var all := Drain(parse, buffered);
      var newline := NewlineIndex(buffered);
      while newline < |buffered|
        invariant newline == NewlineIndex(buffered) && !destroyed
        invariant all == Prepend(frames, Drain(parse, buffered))
        decreases |buffered|
      {
        var frame := buffered[..newline];
        ghost var before := buffered;
        buffered := buffered[newline + 1..];
        if |frame| == 0 {
          DrainLine(parse, before, newline);
        } else {
          var value := parse(frame);
          if value.None? {
            destroyed := true;
            DrainBadLine(parse, before, newline);
            assert frames + [] == frames;
            return;
          }
          DrainLine(parse, before, newline);
          PrependTwice(frames, [value.value], Drain(parse, buffered));
          frames := frames + [value.value];
        }
        newline := NewlineIndex(buffered);
      }
      DrainNoLine(parse, buffered);
      assert frames + [] == frames;
    }
  }

  lemma PrependTwice<V>(a: seq<V>, b: seq<V>, d: Drained<V>)
    ensures Prepend(a, Prepend(b, d)) == Prepend(a + b, d)
  {
    assert a + (b + d.values) == (a + b) + d.values;
  }

  // ---- chunk independence --------------------------------------------------------------

  lemma {:induction false} NewlineIndexExtends(a: Bytes, b: Bytes)
    ensures NewlineIndex(a) < |a| ==> NewlineIndex(a + b) == NewlineIndex(a)
  {
    if a != [] && a[0] != NEWLINE {
      assert (a + b)[1..] == a[1..] + b;
      NewlineIndexExtends(a[1..], b);
    }
  }

  // A first line is drained the same way whatever follows.
  lemma DrainLine<V>(parse: Bytes -> Option<V>, bytes: Bytes, i: nat)
    requires i == NewlineIndex(bytes) < |bytes| && (i > 0 ==> parse(bytes[..i]).Some?)
    ensures i == 0 ==> Drain(parse, bytes) == Drain(parse, bytes[i + 1..])
    ensures i > 0 ==> Drain(parse, bytes) == Prepend([parse(bytes[..i]).value], Drain(parse, bytes[i + 1..]))
  {
    hide NewlineIndex;
  }

  lemma DrainBadLine<V>(parse: Bytes -> Option<V>, bytes: Bytes, i: nat)
    requires 0 < i == NewlineIndex(bytes) < |bytes| && parse(bytes[..i]).None?
    ensures Drain(parse, bytes) == Drained([], bytes[i + 1..], false)
  {
    hide NewlineIndex;
  }

  lemma DrainNoLine<V>(parse: Bytes -> Option<V>, bytes: Bytes)
    requires NewlineIndex(bytes) == |bytes|
    ensures Drain(parse, bytes) == Drained([], bytes, true)
  {
  }

  lemma PrependNothing<V>(d: Drained<V>)
    ensures Prepend([], d) == d
  {
    assert [] + d.values == d.values;
  }

  lemma LineOfJoined(a: Bytes, b: Bytes, i: nat)
    requires i < |a|
    ensures (a + b)[i + 1..] == a[i + 1..] + b && (a + b)[..i] == a[..i]
  {
  }

  /** Draining what has arrived and then the rest is draining it all at once. */
  lemma {:induction false} DrainInTwo<V>(parse: Bytes -> Option<V>, a: Bytes, b: Bytes)
    requires Drain(parse, a).ok
    ensures Drain(parse, a + b) == Prepend(Drain(parse, a).values, Drain(parse, Drain(parse, a).rest + b))
    decreases |a|
  {
    var i := NewlineIndex(a);
    NewlineIndexExtends(a, b);
    if i == |a| {
      DrainNoLine(parse, a);
      PrependNothing(Drain(parse, a + b));
    } else {
      LineParses(parse, a, i);
      hide Drain;
      hide NewlineIndex;
      var tail := a[i + 1..];
      LineOfJoined(a, b, i);
      DrainLine(parse, a, i);
      DrainLine(parse, a + b, i);
      DrainInTwo(parse, tail, b);
      if i > 0 {
        PrependTwice([parse(a[..i]).value], Drain(parse, tail).values, Drain(parse, Drain(parse, tail).rest + b));
      }
    }
  }

  lemma LineParses<V>(parse: Bytes -> Option<V>, bytes: Bytes, i: nat)
    requires i == NewlineIndex(bytes) < |bytes| && Drain(parse, bytes).ok
    ensures (i > 0 ==> parse(bytes[..i]).Some?) && Drain(parse, bytes[i + 1..]).ok
  {
    hide NewlineIndex;
    hide Drain;
    if i > 0 && parse(bytes[..i]).None? { DrainBadLine(parse, bytes, i); } else { DrainLine(parse, bytes, i); }
  }

  function Concat(chunks: seq<Bytes>): Bytes {
    if chunks == [] then [] else Concat(chunks[..|chunks| - 1]) + chunks[|chunks| - 1]
  }

  function FeedAll<V>(parse: Bytes -> Option<V>, max: nat, chunks: seq<Bytes>): (Reader, seq<V>) {
    if chunks == [] then (Reader([], false), [])
    else
      var (r, values) := FeedAll(parse, max, chunks[..|chunks| - 1]);
      var (r', more) := Feed(parse, max, r, chunks[|chunks| - 1]);
      (r', values + more)
  }

  /** However the bytes are cut up, an undestroyed reader is where one big drain would be. */
  lemma {:induction false} ChunkIndependence<V>(parse: Bytes -> Option<V>, max: nat, chunks: seq<Bytes>)
    requires !FeedAll(parse, max, chunks).0.rejected
    ensures var d := Drain(parse, Concat(chunks));
            d.ok && FeedAll(parse, max, chunks) == (Reader(d.rest, false), d.values)
  {
    if chunks != [] {
      var front, last := chunks[..|chunks| - 1], chunks[|chunks| - 1];
      ChunkIndependence(parse, max, front);
      DrainInTwo(parse, Concat(front), last);
    }
  }

  // ---- round trip -------------------------------------------------------------------------

  /** What the writer puts on the wire. */
  function Wire<V>(encode: V -> Bytes, values: seq<V>): Bytes {
    if values == [] then [] else encode(values[0]) + [NEWLINE] + Wire(encode, values[1..])
  }

  /** `writeBrokerFrame`: a frame over the bound is refused, newline included. */
  function WriteFrame<V>(encode: V -> Bytes, max: nat, v: V): Option<Bytes> {
    var frame := encode(v) + [NEWLINE];
    if |frame| > max then None else Some(frame)
  }

  lemma {:induction false} NewlineIndexIs(line: Bytes, rest: Bytes)
    requires NEWLINE !in line
    ensures NewlineIndex(line + [NEWLINE] + rest) == |line|
    ensures NewlineIndex(line) == |line|
  {
    if line != [] {
      assert (line + [NEWLINE] + rest)[1..] == line[1..] + [NEWLINE] + rest;
      NewlineIndexIs(line[1..], rest);
    }
  }

  /** Whole frames followed by an unfinished line: every value comes out, the line stays. */
  lemma {:induction false} DrainWire<V(!new)>(encode: V -> Bytes, parse: Bytes -> Option<V>, values: seq<V>, suffix: Bytes)
    requires LineCodec(encode, parse) && NEWLINE !in suffix
    ensures Drain(parse, Wire(encode, values) + suffix) == Drained(values, suffix, true)
  {
    if values == [] {
      assert Wire(encode, values) + suffix == suffix;
      NewlineIndexIs(suffix, []);
    } else {
      var line, rest := encode(values[0]), Wire(encode, values[1..]) + suffix;
      assert Wire(encode, values) + suffix == line + [NEWLINE] + rest;
      assert (line + [NEWLINE] + rest)[|line| + 1..] == rest && (line + [NEWLINE] + rest)[..|line|] == line;
      NewlineIndexIs(line, rest);
      DrainWire(encode, parse, values[1..], suffix);
    }
  }

  // How far into the written frames a prefix of the stream reaches.
  ghost predicate SplitsAt<V>(encode: V -> Bytes, values: seq<V>, stream: Bytes, k: nat, suffix: Bytes) {
    && k <= |values|
    && stream == Wire(encode, values[..k]) + suffix
    && NEWLINE !in suffix
    && (suffix != [] ==> k < |values| && suffix <= encode(values[k]))
  }

  /** Every prefix of the wire is some whole frames and part of the next. */
  lemma {:induction false} PrefixSplits<V(!new)>(encode: V -> Bytes, parse: Bytes -> Option<V>, values: seq<V>, stream: Bytes)
    returns (k: nat, suffix: Bytes)
    requires LineCodec(encode, parse) && stream <= Wire(encode, values)
    ensures SplitsAt(encode, values, stream, k, suffix)
  {
    if values == [] {
      k, suffix := 0, [];
    } else {
      var line := encode(values[0]);
      if |stream| <= |line| {
        k, suffix := 0, stream;
        assert values[..0] == [];
        assert stream == Wire(encode, values)[..|stream|] == line[..|stream|];
      } else {
        var tail := stream[|line| + 1..];
        assert Wire(encode, values)[|line| + 1..] == Wire(encode, values[1..]);
        assert tail <= Wire(encode, values[1..]);
        k, suffix := PrefixSplits(encode, parse, values[1..], tail);
        k := k + 1;
        assert values[..k][1..] == values[1..][..k - 1];
        assert stream == stream[..|line| + 1] + tail;
        assert stream[..|line| + 1] == Wire(encode, values)[..|line| + 1] == line + [NEWLINE];
        assert line + [NEWLINE] + (Wire(encode, values[1..][..k - 1]) + suffix) ==
               (line + [NEWLINE] + Wire(encode, values[1..][..k - 1])) + suffix;
      }
    }
  }

  /**
   * Round trip: as long as the bound was respected, the chunks of any prefix of a written
   * stream deliver exactly the values whose frames are complete, in order, and leave
   * exactly the bytes of the unfinished frame.
   */
  lemma RoundTrip<V(!new)>(encode: V -> Bytes, parse: Bytes -> Option<V>, max: nat, values: seq<V>, chunks: seq<Bytes>)
    returns (k: nat, suffix: Bytes)
    requires LineCodec(encode, parse) && Concat(chunks) <= Wire(encode, values)
    requires !FeedAll(parse, max, chunks).0.rejected
    ensures SplitsAt(encode, values, Concat(chunks), k, suffix)
    ensures FeedAll(parse, max, chunks) == (Reader(suffix, false), values[..k])
  {
    k, suffix := PrefixSplits(encode, parse, values, Concat(chunks));
    DrainWire(encode, parse, values[..k], suffix);
    ChunkIndependence(parse, max, chunks);
  }

  /**
   * When the reader gives up, exactly: a chunk of a written stream is refused if and only
   * if it and the unfinished line before it do not fit the bound together.
   */
  lemma RejectedExactly<V(!new)>(encode: V -> Bytes, parse: Bytes -> Option<V>, max: nat, values: seq<V>, chunks: seq<Bytes>, chunk: Bytes)
    returns (suffix: Bytes)
    requires LineCodec(encode, parse) && Concat(chunks + [chunk]) <= Wire(encode, values)
    requires !FeedAll(parse, max, chunks).0.rejected
    ensures exists k: nat :: SplitsAt(encode, values, Concat(chunks), k, suffix)
    ensures FeedAll(parse, max, chunks + [chunk]).0.rejected <==> |suffix| + |chunk| > max
  {
    ConcatSnoc(chunks, chunk);
    var k;
    k, suffix := RoundTrip(encode, parse, max, values, chunks);
    DrainOk(encode, parse, values, Concat(chunks) + chunk);
    DrainWire(encode, parse, values[..k], suffix);
    DrainInTwo(parse, Concat(chunks), chunk);
    FeedSnoc(parse, max, chunks, chunk);
  }

  lemma ConcatSnoc(chunks: seq<Bytes>, chunk: Bytes)
    ensures Concat(chunks + [chunk]) == Concat(chunks) + chunk
  {
    assert (chunks + [chunk])[..|chunks|] == chunks;
  }

  lemma FeedSnoc<V>(parse: Bytes -> Option<V>, max: nat, chunks: seq<Bytes>, chunk: Bytes)
    ensures FeedAll(parse, max, chunks + [chunk]).0 == Feed(parse, max, FeedAll(parse, max, chunks).0, chunk).0
  {
    assert (chunks + [chunk])[..|chunks|] == chunks;
  }

  lemma DrainOk<V(!new)>(encode: V -> Bytes, parse: Bytes -> Option<V>, values: seq<V>, stream: Bytes)
    requires LineCodec(encode, parse) && stream <= Wire(encode, values)
    ensures Drain(parse, stream).ok
  {
    var k, suffix := PrefixSplits(encode, parse, values, stream);
    DrainWire(encode, parse, values[..k], suffix);
  }

  /** Frames of at most F bytes in chunks of at most C bytes never overflow once F + C - 1 fits. */
  lemma {:induction false} SmallChunksNeverRejected<V(!new)>(
    encode: V -> Bytes, parse: Bytes -> Option<V>, max: nat, values: seq<V>, chunks: seq<Bytes>, f: nat, c: nat)
    requires LineCodec(encode, parse) && Concat(chunks) <= Wire(encode, values)
    requires forall v :: v in values ==> |encode(v)| + 1 <= f
    requires forall chunk :: chunk in chunks ==> |chunk| <= c
    requires f >= 1 && f + c - 1 <= max
    ensures !FeedAll(parse, max, chunks).0.rejected
  {
    if chunks != [] {
      var front, last := chunks[..|chunks| - 1], chunks[|chunks| - 1];
      assert front + [last] == chunks;
      SmallChunksNeverRejected(encode, parse, max, values, front, f, c);
      var suffix := RejectedExactly(encode, parse, max, values, front, last);
      var k: nat :| SplitsAt(encode, values, Concat(front), k, suffix);
      if suffix != [] {
        assert values[k] in values && |suffix| <= |encode(values[k])|;
      }
      assert last in chunks;
    }
  }

  lemma WireOfTwo<V>(encode: V -> Bytes, a: V, b: V)
    ensures Wire(encode, [a]) == encode(a) + [NEWLINE]
    ensures Wire(encode, [a, b]) == Wire(encode, [a]) + Wire(encode, [b])
  {
    assert [a, b][1..] == [b] && [a][1..] == [] && [b][1..] == [];
    assert Wire(encode, []) == [];
  }

  lemma OneFrameFed<V(!new)>(encode: V -> Bytes, parse: Bytes -> Option<V>, max: nat, v: V)
    requires LineCodec(encode, parse) && WriteFrame(encode, max, v).Some?
    ensures Feed(parse, max, Reader([], false), Wire(encode, [v])) == (Reader([], false), [v])
  {
    var frame := Wire(encode, [v]);
    WireOfTwo(encode, v, v);
    DrainWire(encode, parse, [v], []);
    assert frame + [] == frame && [] + frame == frame;
  }

  /** Two frames that are each within the bound are still refused when one chunk carries both beyond it. */
  lemma CoalescedFramesRejected<V(!new)>(encode: V -> Bytes, parse: Bytes -> Option<V>, max: nat, a: V, b: V)
    requires LineCodec(encode, parse)
    requires WriteFrame(encode, max, a).Some? && WriteFrame(encode, max, b).Some?
    requires |WriteFrame(encode, max, a).value| + |WriteFrame(encode, max, b).value| > max
    ensures FeedAll(parse, max, [Wire(encode, [a, b])]).0.rejected
    ensures FeedAll(parse, max, [Wire(encode, [a]), Wire(encode, [b])]) == (Reader([], false), [a, b])
  {
    var first, second := Wire(encode, [a]), Wire(encode, [b]);
    WireOfTwo(encode, a, b);
    WireOfTwo(encode, b, b);
    OneFrameFed(encode, parse, max, a);
    OneFrameFed(encode, parse, max, b);
    hide Wire;
    hide Drain;
    assert [] + [first + second] == [first + second] && [] + [first] == [first] && [first] + [second] == [first, second];
    FeedSnoc(parse, max, [], first + second);
    FeedSnoc(parse, max, [], first);
    FeedSnoc(parse, max, [first], second);
    assert FeedAll(parse, max, []) == (Reader([], false), []);
    assert [] + [a] == [a] && [a] + [b] == [a, b];
    assert |first + second| == |WriteFrame(encode, max, a).value| + |WriteFrame(encode, max, b).value|;
    assert Feed(parse, max, Reader([], false), first + second).0.rejected;
  }

  lemma UnfinishedFrameKept<V(!new)>(encode: V -> Bytes, parse: Bytes -> Option<V>, max: nat, v: V, pieces: seq<Bytes>)
    requires LineCodec(encode, parse) && Concat(pieces) <= encode(v) && |encode(v)| <= max
    ensures FeedAll(parse, max, pieces) == (Reader(Concat(pieces), false), [])
    decreases |pieces|
  {
    if pieces != [] {
      var front, last := pieces[..|pieces| - 1], pieces[|pieces| - 1];
      assert front + [last] == pieces;
      ConcatSnoc(front, last);
      UnfinishedFrameKept(encode, parse, max, v, front);
      assert FeedAll(parse, max, pieces).1 == FeedAll(parse, max, front).1 + Feed(parse, max, FeedAll(parse, max, front).0, last).1;
      assert forall k :: 0 <= k < |Concat(pieces)| ==> Concat(pieces)[k] == encode(v)[k];
      assert NEWLINE !in Concat(pieces);
      DrainWire(encode, parse, [], Concat(pieces));
      assert Wire(encode, []) + Concat(pieces) == Concat(pieces);
      assert Drain(parse, Concat(front) + last) == Drained([], Concat(pieces), true);
      assert |Concat(front)| + |last| <= max;
      assert Feed(parse, max, Reader(Concat(front), false), last) == (Reader(Concat(pieces), false), []);
      assert FeedAll(parse, max, front) == (Reader(Concat(front), false), []);
      assert FeedAll(parse, max, pieces).0 == Reader(Concat(pieces), false);
      assert FeedAll(parse, max, pieces).1 == [];
    }
  }

  /**
   * The bound on small chunks is tight: a frame of F bytes arriving in pieces of any size,
   * the last of which is C bytes long and brings its newline and the start of the next
   * frame, is refused as soon as F + C - 1 exceeds the bound, although both frames fit it.
   */
  lemma SmallChunkBoundIsTight<V(!new)>(
    encode: V -> Bytes, parse: Bytes -> Option<V>, max: nat, a: V, b: V, pieces: seq<Bytes>, c: nat) returns (last: Bytes)
    requires LineCodec(encode, parse)
    requires WriteFrame(encode, max, a).Some? && WriteFrame(encode, max, b).Some?
    requires Concat(pieces) == encode(a) && 1 <= c <= |encode(b)| + 1
    requires |WriteFrame(encode, max, a).value| + c - 1 > max
    ensures |last| == c && Concat(pieces + [last]) <= Wire(encode, [a, b])
    ensures !FeedAll(parse, max, pieces).0.rejected && FeedAll(parse, max, pieces + [last]).0.rejected
  {
    last := [NEWLINE] + encode(b)[..c - 1];
    ConcatSnoc(pieces, last);
    UnfinishedFrameKept(encode, parse, max, a, pieces);
    FeedSnoc(parse, max, pieces, last);
    WireOfTwo(encode, a, b);
    WireOfTwo(encode, b, b);
    hide Wire;
    assert Wire(encode, [a, b]) == encode(a) + [NEWLINE] + (encode(b) + [NEWLINE]);
    assert encode(a) + last == Wire(encode, [a, b])[..|encode(a)| + c];
  }
}
