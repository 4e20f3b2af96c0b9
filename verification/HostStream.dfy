/**
 The host's receive path. `Scan` is the reference: a parser over a complete byte string that looks at one position at a
 time. The link's own parser works on a growing buffer, in whatever pieces the serial port hands over, and is proved
 to be `Scan` of everything received so far.
 */
module HostStream {
  import opened Bytes
  import opened Frames
  import SR = ShiftRegister

  /** What became of the bytes received: each one is noise, the start of a rejected candidate, or part of a frame. */
  datatype Item = Noise(b: byte) | Resync(b: byte) | Emitted(frame: Frame)

  /** What was read so far, and the bytes that wait for more to arrive. */
  datatype Scanned = Scanned(items: seq<Item>, rest: seq<byte>)

  /** What the parser decides about the front of its buffer: wait for more, or deal with its first `n` bytes. */
  datatype Verdict = Wait | Take(item: Item, n: nat)

  function Judge(s: seq<byte>): (v: Verdict)
    ensures v.Take? ==> 0 < v.n <= |s|
  {
    if |s| < 4 then Wait
    else if !HasMagic(s) then Take(Noise(s[0]), 1)
    else if |s| < HEADER_SIZE then Wait
    else if PayloadLength(s) > MAX_PAYLOAD then Take(Resync(s[0]), 1)
    else if |s| < FrameLength(s) then Wait
    else if !CrcMatches(s) then Take(Resync(s[0]), 1)
    else Take(Emitted(Decode(s)), FrameLength(s))
  }

  function Scan(s: seq<byte>): (r: Scanned)
    decreases |s|
  {
    var v := Judge(s);
    if v.Wait? then Scanned([], s) else Ahead(v.item, Scan(s[v.n..]))
  }

  function Ahead(item: Item, r: Scanned): Scanned {
    Scanned([item] + r.items, r.rest)
  }

  // ---- reading the items ----

  function FrameIn(item: Item): seq<Frame> {
    if item.Emitted? then [item.frame] else []
  }

  function TextIn(item: Item): seq<byte> {
    if item.Emitted? then [] else [item.b]
  }

  function FramesOf(items: seq<Item>): seq<Frame> {
    if items == [] then [] else FrameIn(items[0]) + FramesOf(items[1..])
  }

  /** The bytes stashed as text: everything outside a frame, rejected candidates included. */
  function TextOf(items: seq<Item>): seq<byte> {
    if items == [] then [] else TextIn(items[0]) + TextOf(items[1..])
  }

  function ResyncsOf(items: seq<Item>): nat {
    if items == [] then 0
    else (if items[0].Resync? then 1 else 0) + ResyncsOf(items[1..])
  }

  function ItemBytes(item: Item): seq<byte> {
    if item.Emitted? then Encode(item.frame) else [item.b]
  }

  /** The bytes the items were read from. */
  function Unscan(items: seq<Item>): seq<byte> {
    if items == [] then [] else ItemBytes(items[0]) + Unscan(items[1..])
  }

  lemma TailOfSum<T>(a: seq<T>, b: seq<T>)
    requires a != []
    ensures (a + b)[0] == a[0] && (a + b)[1..] == a[1..] + b
  {
  }

  lemma {:induction false} FramesAppend(a: seq<Item>, b: seq<Item>)
    ensures FramesOf(a + b) == FramesOf(a) + FramesOf(b)
  {
    if a == [] {
      assert a + b == b;
    } else {
      TailOfSum(a, b);
      FramesAppend(a[1..], b);
      Regroup(FrameIn(a[0]), FramesOf(a[1..]), FramesOf(b));
    }
  }

  lemma {:induction false} TextAppend(a: seq<Item>, b: seq<Item>)
    ensures TextOf(a + b) == TextOf(a) + TextOf(b)
  {
    if a == [] {
      assert a + b == b;
    } else {
      TailOfSum(a, b);
      TextAppend(a[1..], b);
      Regroup(TextIn(a[0]), TextOf(a[1..]), TextOf(b));
    }
  }

  lemma {:induction false} ResyncsAppend(a: seq<Item>, b: seq<Item>)
    ensures ResyncsOf(a + b) == ResyncsOf(a) + ResyncsOf(b)
  {
    if a == [] {
      assert a + b == b;
    } else {
      TailOfSum(a, b);
      ResyncsAppend(a[1..], b);
    }
  }

  lemma ItemsAppend(a: seq<Item>, b: seq<Item>)
    ensures FramesOf(a + b) == FramesOf(a) + FramesOf(b)
    ensures TextOf(a + b) == TextOf(a) + TextOf(b)
    ensures ResyncsOf(a + b) == ResyncsOf(a) + ResyncsOf(b)
  {
    FramesAppend(a, b);
    TextAppend(a, b);
    ResyncsAppend(a, b);
  }

  lemma JudgedBytes(s: seq<byte>)
    requires Judge(s).Take?
    ensures ItemBytes(Judge(s).item) == s[..Judge(s).n]
  {
    if StartsFrame(s) {
      DecodeEncode(s);
    }
  }

  /** The bytes behind a scan: what was dealt with, and what waits. */
  function Whole(r: Scanned): seq<byte> {
    Unscan(r.items) + r.rest
  }

  lemma WholeFrom(s: seq<byte>, n: nat, item: Item, r: Scanned)
    requires n <= |s| && ItemBytes(item) == s[..n] && Whole(r) == s[n..]
    ensures Whole(Ahead(item, r)) == s
  {
    UnscanFirst(item, r.items);
    Regroup(s[..n], Unscan(r.items), r.rest);
    assert s[..n] + s[n..] == s;
  }

  lemma UnscanFirst(item: Item, items: seq<Item>)
    ensures Unscan([item] + items) == ItemBytes(item) + Unscan(items)
  {
    assert ([item] + items)[1..] == items;
  }

  /** Nothing received is lost or invented: text, frames and the waiting bytes are the stream, in order. */
  lemma {:induction false} ScanConserves(s: seq<byte>)
    ensures Whole(Scan(s)) == s
    decreases |s|
  {
    var v := Judge(s);
    if v.Take? {
      ScanConserves(s[v.n..]);
      JudgedBytes(s);
      WholeFrom(s, v.n, v.item, Scan(s[v.n..]));
    }
  }

  function FrameBytes(fs: seq<Frame>): nat {
    if fs == [] then 0 else 20 + |fs[0].payload| + FrameBytes(fs[1..])
  }

  lemma {:induction false} ItemsAddUp(items: seq<Item>)
    ensures |Unscan(items)| == |TextOf(items)| + FrameBytes(FramesOf(items))
  {
    if items != [] {
      ItemsAddUp(items[1..]);
      if items[0].Emitted? {
        assert FramesOf(items) == [items[0].frame] + FramesOf(items[1..]);
        assert FramesOf(items)[1..] == FramesOf(items[1..]);
      } else {
        assert [] + FramesOf(items[1..]) == FramesOf(items[1..]);
      }
    }
  }

  /** Every byte received is kept as text, belongs to a frame, or waits: none is dropped and none counted twice. */
  lemma ScanAddsUp(s: seq<byte>)
    ensures |s| == |TextOf(Scan(s).items)| + FrameBytes(FramesOf(Scan(s).items)) + |Scan(s).rest|
  {
    ScanConserves(s);
    ItemsAddUp(Scan(s).items);
  }

  // ---- growing the stream ----

  function Join(a: Scanned, b: Scanned): Scanned {
    Scanned(a.items + b.items, b.rest)
  }

  /** A decision, once made, does not depend on what arrives later. */
  lemma JudgeSettled(a: seq<byte>, b: seq<byte>)
    requires Judge(a).Take?
    ensures Judge(a + b) == Judge(a)
  {
    StartsAlike(a, b);
  }

  lemma JoinAhead(item: Item, a: Scanned, b: Scanned)
    ensures Join(Ahead(item, a), b) == Ahead(item, Join(a, b))
  {
  }

  /** Scanning can stop after any prefix and go on from the waiting bytes: the result is the same. */
  lemma {:induction false} ScanInParts(a: seq<byte>, b: seq<byte>)
    ensures Scan(a + b) == Join(Scan(a), Scan(Scan(a).rest + b))
    decreases |a|
  {
    var v := Judge(a);
    if v.Take? {
      JudgeSettled(a, b);
      assert (a + b)[v.n..] == a[v.n..] + b;
      ScanInParts(a[v.n..], b);
      JoinAhead(v.item, Scan(a[v.n..]), Scan(Scan(a).rest + b));
    } else {
      assert [] + Scan(a + b).items == Scan(a + b).items;
    }
  }

  /** Feeding a buffer chunk by chunk, as the serial port delivers them. */
  function Feed(buf: seq<byte>, chunks: seq<seq<byte>>): Scanned
    decreases |chunks|
  {
    if chunks == [] then Scanned([], buf)
    else
      var r := Scan(buf + chunks[0]);
      Join(r, Feed(r.rest, chunks[1..]))
  }

  function Concat<T>(parts: seq<seq<T>>): seq<T> {
    if parts == [] then [] else parts[0] + Concat(parts[1..])
  }

  lemma JoinAssociates(a: Scanned, b: Scanned, c: Scanned)
    ensures Join(Join(a, b), c) == Join(a, Join(b, c))
  {
  }

  lemma FeedNext(buf: seq<byte>, chunks: seq<seq<byte>>, r: Scanned)
    requires chunks != [] && r == Scan(buf + chunks[0])
    ensures Feed(buf, chunks) == Join(r, Feed(r.rest, chunks[1..]))
  {
  }

  lemma JoinNothing(a: Scanned)
    ensures Join(a, Scanned([], a.rest)) == a
  {
  }

  /** However the stream is cut into reads, the frames, the text and the resyncs are those of the whole stream. */
  lemma {:induction false} ChunkingIsInvisible(s: seq<byte>, chunks: seq<seq<byte>>)
    ensures Join(Scan(s), Feed(Scan(s).rest, chunks)) == Scan(s + Concat(chunks))
    decreases |chunks|
  {
    if chunks == [] {
      assert s + Concat(chunks) == s;
      JoinNothing(Scan(s));
    } else {
      var t, more := s + chunks[0], chunks[1..];
      var a, c := Scan(s), Scan(t);
      var b := Scan(a.rest + chunks[0]);
      ScanInParts(s, chunks[0]);
      ChunkingIsInvisible(t, more);
      FeedNext(a.rest, chunks, b);
      JoinAssociates(a, b, Feed(b.rest, more));
      Regroup(s, chunks[0], Concat(more));
    }
  }

  /** The frames of a prefix of the stream are a prefix of its frames. */
  lemma FramesArePrefix(a: seq<byte>, b: seq<byte>)
    ensures FramesOf(Scan(a).items) <= FramesOf(Scan(a + b).items)
    ensures ResyncsOf(Scan(a).items) <= ResyncsOf(Scan(a + b).items)
  {
    ScanInParts(a, b);
    ItemsAppend(Scan(a).items, Scan(Scan(a).rest + b).items);
  }

  // ---- resynchronising loses nothing ----

  function ItemLength(item: Item): nat {
    if item.Emitted? then HEADER_SIZE + |item.frame.payload| + 4 else 1
  }

  /** The item that byte `k` of the stream ended up in, and how far into it. */
  function ItemAt(items: seq<Item>, k: nat): Option<(Item, nat)> {
    if items == [] then None
    else if k < ItemLength(items[0]) then Some((items[0], k))
    else ItemAt(items[1..], k - ItemLength(items[0]))
  }

  const LONGEST_FRAME: nat := HEADER_SIZE + MAX_PAYLOAD + 4

  /** A candidate frame whose header, or whose announced bytes, have not all arrived. */
  predicate Incomplete(s: seq<byte>) {
    HasMagic(s) && (|s| < HEADER_SIZE || (PayloadLength(s) <= MAX_PAYLOAD && |s| < FrameLength(s)))
  }

  /** A valid frame was emitted, or started inside an emitted frame. */
  predicate DealtWith(at: Option<(Item, nat)>, f: Frame) {
    at.Some? && at.value.0.Emitted? && (at.value.1 == 0 ==> at.value.0 == Emitted(f))
  }

  /**
   Every valid frame in the stream is emitted, unless it starts inside an emitted frame; it waits only while an earlier
   candidate is still incomplete.
   */
  lemma {:induction false} NoFrameIsLost(s: seq<byte>, k: nat)
    requires k <= |s| && StartsFrame(s[k..])
    ensures var at, rest := ItemAt(Scan(s).items, k), Scan(s).rest;
      if at.None? then Incomplete(rest) && |s| - |rest| < k && |rest| < LONGEST_FRAME else DealtWith(at, Decode(s[k..]))
    decreases |s|
  {
    var v := Judge(s);
    assert s[0..] == s;
    if v.Take? {
      assert Scan(s).items[0] == v.item && Scan(s).items[1..] == Scan(s[v.n..]).items;
      assert ItemLength(v.item) == v.n;
      if k >= v.n {
        assert s[v.n..][k - v.n..] == s[k..];
        NoFrameIsLost(s[v.n..], k - v.n);
      }
    }
  }

  /** The item a byte outside every frame becomes: a resynchronisation if a magic starts there, noise otherwise. */
  predicate SteppedOver(item: Item, s: seq<byte>, k: nat) {
    k < |s| && item == if HasMagic(s[k..]) then Resync(s[k]) else Noise(s[k])
  }

  predicate OutsideFrames(at: Option<(Item, nat)>) {
    at.Some? && !at.value.0.Emitted?
  }

  /**
   Of the bytes outside every frame, a resynchronisation is counted for exactly those at which a magic starts: noise is
   never a candidate that was given up, and no candidate is given up silently.
   */
  lemma {:induction false} ResyncIffMagic(s: seq<byte>, k: nat)
    requires OutsideFrames(ItemAt(Scan(s).items, k))
    ensures SteppedOver(ItemAt(Scan(s).items, k).value.0, s, k)
    decreases |s|
  {
    var item, n, tail, items := FirstJudged(s);
    ItemAtBehind(item, items, k);
    if k < n {
      ItemIsJudged(s);
    } else {
      ResyncIffMagic(tail, k - n);
      SteppedOverBehind(ItemAt(items, k - n).value.0, s, n, k - n);
    }
  }

  lemma FirstJudged(s: seq<byte>) returns (item: Item, n: nat, tail: seq<byte>, items: seq<Item>)
    requires Scan(s).items != []
    ensures Judge(s).Take? && item == Judge(s).item && n == ItemLength(item) && 0 < n <= |s| && tail == s[n..]
    ensures items == Scan(tail).items && Scan(s).items == [item] + items
  {
    item, n, tail := Judge(s).item, Judge(s).n, s[Judge(s).n..];
    items := Scan(tail).items;
  }

  lemma ItemAtBehind(item: Item, items: seq<Item>, k: nat)
    ensures ItemAt([item] + items, k)
         == if k < ItemLength(item) then Some((item, k)) else ItemAt(items, k - ItemLength(item))
  {
    assert ([item] + items)[1..] == items;
  }

  lemma SteppedOverBehind(item: Item, s: seq<byte>, n: nat, k: nat)
    requires n <= |s| && SteppedOver(item, s[n..], k)
    ensures SteppedOver(item, s, n + k)
  {
    assert s[n..][k..] == s[n + k..];
  }

  lemma ItemIsJudged(s: seq<byte>)
    requires Judge(s).Take? && !Judge(s).item.Emitted?
    ensures ItemLength(Judge(s).item) == 1 && SteppedOver(Judge(s).item, s, 0)
  {
    assert s[0..] == s;
  }

  lemma StillStarts(s: seq<byte>, k: nat, more: seq<byte>)
    requires k <= |s| && StartsFrame(s[k..])
    ensures StartsFrame((s + more)[k..]) && Decode((s + more)[k..]) == Decode(s[k..])
  {
    assert (s + more)[k..] == s[k..] + more;
    StartsAlike(s[k..], more);
  }

  /** No frame waits for ever: a longest frame's worth of bytes later, whatever they are, it has been dealt with. */
  lemma NoFrameWaitsForEver(s: seq<byte>, k: nat, more: seq<byte>)
    requires k <= |s| && StartsFrame(s[k..]) && |more| >= LONGEST_FRAME
    ensures DealtWith(ItemAt(Scan(s + more).items, k), Decode(s[k..]))
  {
    StillStarts(s, k, more);
    NoFrameIsLost(s + more, k);
  }

  /** A scan whose first byte is not part of a frame. */
  lemma OneByteTaken(s: seq<byte>, item: Item)
    requires Judge(s) == Take(item, 1) && !item.Emitted?
    ensures var all, rest := Scan(s).items, Scan(s[1..]).items;
      && FramesOf(all) == FramesOf(rest) && TextOf(all) == [item.b] + TextOf(rest)
      && ResyncsOf(all) == ResyncsOf(rest) + if item.Resync? then 1 else 0
  {
    var rest := Scan(s[1..]).items;
    assert Scan(s).items == [item] + rest && ([item] + rest)[1..] == rest;
    assert [] + FramesOf(rest) == FramesOf(rest);
  }

  /**
   What is left of a frame that a burst of up to four bytes has hit is stepped over, one byte at a time, not emitted.
   */
  lemma CorruptionIsSteppedOver(f: Frame, s: seq<byte>, at: nat, tail: seq<byte>)
    requires s != Encode(f) && SR.DifferWithin(Encode(f), s, at, 4) && PayloadLength(s) == |f.payload|
    ensures Judge(s + tail) == Take(if HasMagic(s) then Resync(s[0]) else Noise(s[0]), 1)
    ensures var all, rest := Scan(s + tail).items, Scan((s + tail)[1..]).items;
      && FramesOf(all) == FramesOf(rest) && TextOf(all) == [s[0]] + TextOf(rest)
      && ResyncsOf(all) == ResyncsOf(rest) + if HasMagic(s) then 1 else 0
  {
    CorruptedFrameRejected(f, s, at, tail);
    StartsAlike(s, tail);
    OneByteTaken(s + tail, if HasMagic(s) then Resync(s[0]) else Noise(s[0]));
  }

  // ---- frames between noise ----

  function NoiseItems(noise: seq<byte>): (items: seq<Item>)
    ensures |items| == |noise|
  {
    if noise == [] then [] else [Noise(noise[0])] + NoiseItems(noise[1..])
  }

  lemma {:induction false} NoiseReads(noise: seq<byte>)
    ensures FramesOf(NoiseItems(noise)) == [] && TextOf(NoiseItems(noise)) == noise && ResyncsOf(NoiseItems(noise)) == 0
  {
    if noise != [] {
      NoiseReads(noise[1..]);
      assert NoiseItems(noise)[1..] == NoiseItems(noise[1..]);
    }
  }

  ghost predicate NoMagicBefore(s: seq<byte>, n: nat) {
    n <= |s| && forall k :: 0 <= k < n ==> !HasMagic(s[k..])
  }

  /** Bytes at which no magic starts are noise, as long as three more are there to tell. */
  lemma {:induction false} ScanSkipsNoise(noise: seq<byte>, s: seq<byte>)
    requires |s| >= 3 && NoMagicBefore(noise + s, |noise|)
    ensures Scan(noise + s) == Join(Scanned(NoiseItems(noise), s), Scan(s))
    decreases |noise|
  {
    if noise == [] {
      assert noise + s == s;
      assert [] + Scan(s).items == Scan(s).items;
    } else {
      var t := noise[1..] + s;
      assert (noise + s)[1..] == t && (noise + s)[0..] == noise + s;
      forall k | 0 <= k < |noise| - 1
        ensures !HasMagic(t[k..])
      {
        assert t[k..] == (noise + s)[k + 1..];
      }
      ScanSkipsNoise(noise[1..], s);
      JoinAhead(Noise(noise[0]), Scanned(NoiseItems(noise[1..]), s), Scan(s));
    }
  }

  datatype Spoken = Spoken(noise: seq<byte>, frame: Frame)

  function Stream(parts: seq<Spoken>): seq<byte>
  {
    if parts == [] then [] else parts[0].noise + (Encode(parts[0].frame) + Stream(parts[1..]))
  }

  function Said(parts: seq<Spoken>): (fs: seq<Frame>)
    ensures |fs| == |parts|
  {
    if parts == [] then [] else [parts[0].frame] + Said(parts[1..])
  }

  function Between(parts: seq<Spoken>): seq<byte> {
    if parts == [] then [] else parts[0].noise + Between(parts[1..])
  }

  lemma ScanFrame(f: Frame, tail: seq<byte>)
    ensures Scan(Encode(f) + tail) == Ahead(Emitted(f), Scan(tail))
  {
    EncodeDecode(f, tail);
    assert (Encode(f) + tail)[|Encode(f)|..] == tail;
  }

  lemma ScanSpoken(noise: seq<byte>, f: Frame, tail: seq<byte>)
    requires MagicFree(noise)
    ensures Scan(noise + (Encode(f) + tail)) == Join(Scanned(NoiseItems(noise) + [Emitted(f)], []), Scan(tail))
  {
    var s := Encode(f) + tail;
    EncodeDecode(f, tail);
    ScanFrame(f, tail);
    NoiseThenMagic(noise, s);
    ScanSkipsNoise(noise, s);
    Regroup(NoiseItems(noise), [Emitted(f)], Scan(tail).items);
  }

  lemma SpokenItems(noise: seq<byte>, f: Frame)
    ensures var items := NoiseItems(noise) + [Emitted(f)];
      FramesOf(items) == [f] && TextOf(items) == noise && ResyncsOf(items) == 0
  {
    NoiseReads(noise);
    ItemsAppend(NoiseItems(noise), [Emitted(f)]);
  }

  /** Frames sent with magic-free log text between them are read back exactly, with the text kept and no resync. */
  lemma {:induction false} NoisyFramesRoundTrip(parts: seq<Spoken>)
    requires forall p :: p in parts ==> MagicFree(p.noise)
    ensures FramesOf(Scan(Stream(parts)).items) == Said(parts)
    ensures TextOf(Scan(Stream(parts)).items) == Between(parts)
    ensures ResyncsOf(Scan(Stream(parts)).items) == 0 && Scan(Stream(parts)).rest == []
  {
    if parts != [] {
      var noise, f, tail := parts[0].noise, parts[0].frame, Stream(parts[1..]);
      NoisyFramesRoundTrip(parts[1..]);
      ScanSpoken(noise, f, tail);
      SpokenItems(noise, f);
      ItemsAppend(NoiseItems(noise) + [Emitted(f)], Scan(tail).items);
    }
  }
}
