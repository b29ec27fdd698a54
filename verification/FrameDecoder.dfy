/** The HKVL serial frame decoder: 28-byte frames `ST`, six little-endian float32 values
    and a CRC16/MODBUS, reassembled from arbitrary serial reads. `Parse` says what a whole
    byte stream means, one byte or one frame at a time; the class is the buffered decoder. */
module FrameDecoder {
  import opened Common
  import opened Bytes
  import opened Crc
  import opened Burst

  const FRAME_SIZE := 28
  const HEADER_0: byte := 0x53
  const HEADER_1: byte := 0x54

  /** A decoded frame: the six float32 bit patterns and the bytes they came from. */
  datatype Sample = Sample(values: seq<nat>, frame: seq<byte>)

  /** Everything a stretch of stream yields, and the bytes that still wait for more. */
  datatype Parsed = Parsed(samples: seq<Sample>, crcFailures: nat, nonfiniteFrames: nat, discarded: nat, rest: seq<byte>)

  predicate HeaderAt(s: seq<byte>, i: nat) {
    i + 2 <= |s| && s[i] == HEADER_0 && s[i + 1] == HEADER_1
  }

  /** The k-th float32 of a frame, as its bit pattern. */
  function ValueBits(frame: seq<byte>, k: nat): nat
    requires |frame| == FRAME_SIZE && k < 6
  {
    var o := 2 + 4 * k;
    (frame[o] as nat) + 0x100 * (frame[o + 1] as nat) + 0x1_0000 * (frame[o + 2] as nat) + 0x100_0000 * (frame[o + 3] as nat)
  }

  /** The first n float32 values of a frame. */
  function Values(frame: seq<byte>, n: nat): (values: seq<nat>)
    requires |frame| == FRAME_SIZE && n <= 6
    ensures |values| == n
    ensures forall k :: 0 <= k < n ==> values[k] == ValueBits(frame, k)
  {
    if n == 0 then [] else Values(frame, n - 1) + [ValueBits(frame, n - 1)]
  }

  predicate AllFinite(values: seq<nat>) {
    values == [] || (Finite(values[0]) && AllFinite(values[1..]))
  }

  function Unpack(frame: seq<byte>): (sample: Sample)
    requires |frame| == FRAME_SIZE
  {
    Sample(Values(frame, 6), frame)
  }

  /** The stream waits for more bytes: it is empty or could still grow into a frame. */
  predicate Waiting(s: seq<byte>) {
    s == [] || s == [HEADER_0] || (HeaderAt(s, 0) && |s| < FRAME_SIZE)
  }

  /** How many bytes the first decision about the stream consumes: a checked frame whole,
      otherwise one byte. */
  function Width(s: seq<byte>): nat
    requires !Waiting(s)
  {
    if HeaderAt(s, 0) && Checked(s[..FRAME_SIZE]) then FRAME_SIZE else 1
  }

  /** What the first decision yields. */
  function Head(s: seq<byte>): Parsed
    requires !Waiting(s)
  {
    if !HeaderAt(s, 0) then Parsed([], 0, 0, 1, [])
    else if !Checked(s[..FRAME_SIZE]) then Parsed([], 1, 0, 1, [])
    else if !AllFinite(Values(s[..FRAME_SIZE], 6)) then Parsed([], 0, 1, 0, [])
    else Parsed([Unpack(s[..FRAME_SIZE])], 0, 0, 0, [])
  }

  /** What the stream means: a byte that starts no frame is discarded, a frame that fails
      its CRC loses only its first byte, a checked frame is consumed whole. */
  function Parse(s: seq<byte>): Parsed
    decreases |s|
  {
    if Waiting(s) then Parsed([], 0, 0, 0, s) else Then(Head(s), Parse(s[Width(s)..]))
  }

  /** `p`, then whatever `q` added. */
  function Then(p: Parsed, q: Parsed): Parsed {
    Parsed(p.samples + q.samples, p.crcFailures + q.crcFailures, p.nonfiniteFrames + q.nonfiniteFrames,
           p.discarded + q.discarded, q.rest)
  }

  // ----- the stream may be cut anywhere

  lemma ThenAssociates(p: Parsed, q: Parsed, r: Parsed)
    ensures Then(Then(p, q), r) == Then(p, Then(q, r))
  {
    assert p.samples + q.samples + r.samples == p.samples + (q.samples + r.samples);
  }

  lemma NothingThen(rest: seq<byte>, q: Parsed)
    ensures Then(Parsed([], 0, 0, 0, rest), q) == q
  {}

  lemma ParseStep(s: seq<byte>)
    ensures Waiting(s) ==> Parse(s) == Parsed([], 0, 0, 0, s)
    ensures !Waiting(s) ==> 1 <= Width(s) <= |s| && Parse(s) == Then(Head(s), Parse(s[Width(s)..]))
  {
    hide Checked, Head;
  }

  /** A decision once made is not changed by bytes that arrive later. */
  lemma DecisionsAreFinal(a: seq<byte>, b: seq<byte>)
    requires !Waiting(a)
    ensures !Waiting(a + b) && Head(a + b) == Head(a) && Width(a + b) == Width(a) <= |a|
    ensures (a + b)[Width(a)..] == a[Width(a)..] + b
  {
    if HeaderAt(a, 0) { assert (a + b)[..FRAME_SIZE] == a[..FRAME_SIZE]; }
  }

  /** Parsing a stream is parsing any prefix of it and carrying the leftover on. */
  lemma {:induction false} ParseSplit(a: seq<byte>, b: seq<byte>)
    ensures Parse(a + b) == Then(Parse(a), Parse(Parse(a).rest + b))
    decreases |a|
  {
    hide Parse, Head, Width;
    ParseStep(a);
    if Waiting(a) {
      NothingThen(a, Parse(a + b));
    } else {
      DecisionsAreFinal(a, b);
      ParseStep(a + b);
      var later := a[Width(a)..];
      ParseSplit(later, b);
      ThenAssociates(Head(a), Parse(later), Parse(Parse(later).rest + b));
    }
  }

  function Concat(chunks: seq<seq<byte>>): seq<byte> {
    if chunks == [] then [] else chunks[0] + Concat(chunks[1..])
  }

  /** Feeding the chunks one after another, each on top of what the last one left. */
  function FeedAll(p: Parsed, chunks: seq<seq<byte>>): Parsed
    decreases |chunks|
  {
    if chunks == [] then p else FeedAll(Then(p, Parse(p.rest + chunks[0])), chunks[1..])
  }

  lemma {:induction false} FeedAllFrom(p: Parsed, chunks: seq<seq<byte>>)
    requires Waiting(p.rest)
    ensures FeedAll(p, chunks) == Then(p, Parse(p.rest + Concat(chunks)))
    decreases |chunks|
  {
    hide Parse;
    if chunks == [] {
      assert p.rest + Concat(chunks) == p.rest;
      ParseStep(p.rest);
      assert p.samples + [] == p.samples;
    } else {
      var later := Concat(chunks[1..]);
      var now := Parse(p.rest + chunks[0]);
      RestWaits(p.rest + chunks[0]);
      FeedAllFrom(Then(p, now), chunks[1..]);
      ThenAssociates(p, now, Parse(now.rest + later));
      ParseSplit(p.rest + chunks[0], later);
      assert p.rest + chunks[0] + later == p.rest + Concat(chunks);
    }
  }

  /** Samples, every counter and the leftover depend on the bytes, not on the reads. */
  lemma ChunkingIsInvisible(chunks: seq<seq<byte>>, other: seq<seq<byte>>)
    requires Concat(chunks) == Concat(other)
    ensures FeedAll(Parse([]), chunks) == FeedAll(Parse([]), other) == Parse(Concat(chunks))
  {
    hide Parse, FeedAll, Concat, Then;
    ParseStep([]);
    FeedAllFrom(Parse([]), chunks);
    FeedAllFrom(Parse([]), other);
    assert [] + Concat(chunks) == Concat(chunks);
    NothingThen([], Parse(Concat(chunks)));
  }

  // ----- accounting

  /** What is left over waits for more bytes, and is shorter than a frame. */
  lemma {:induction false} RestWaits(s: seq<byte>)
    ensures Waiting(Parse(s).rest) && |Parse(s).rest| < FRAME_SIZE
    decreases |s|
  {
    hide Parse, Head, Width;
    ParseStep(s);
    if !Waiting(s) { RestWaits(s[Width(s)..]); }
  }

  /** Every byte fed is in a frame, discarded, or still buffered; and the leftover is the
      end of the stream. */
  lemma {:induction false} EveryByteAccounted(s: seq<byte>)
    ensures var p := Parse(s);
      && |s| == FRAME_SIZE * (|p.samples| + p.nonfiniteFrames) + p.discarded + |p.rest|
      && p.crcFailures <= p.discarded
      && |p.rest| <= |s| && p.rest == s[|s| - |p.rest|..]
    decreases |s|
  {
    hide Parse, Checked;
    ParseStep(s);
    if !Waiting(s) {
      var later := s[Width(s)..];
      EveryByteAccounted(later);
      var r := Parse(later).rest;
      assert later[|later| - |r|..] == s[|s| - |r|..];
    }
  }

  /** Where the samples were found: one offset each, frames in order and disjoint. */
  ghost predicate Located(s: seq<byte>, samples: seq<Sample>, offsets: seq<nat>) {
    && |offsets| == |samples|
    && (forall i :: 0 <= i < |offsets| ==>
          offsets[i] + FRAME_SIZE <= |s| && GoodFrame(s[offsets[i]..offsets[i] + FRAME_SIZE])
          && samples[i] == Unpack(s[offsets[i]..offsets[i] + FRAME_SIZE]))
    && (forall i, j :: 0 <= i < j < |offsets| ==> offsets[i] + FRAME_SIZE <= offsets[j])
  }

  predicate GoodFrame(f: seq<byte>) {
    |f| == FRAME_SIZE && HeaderAt(f, 0) && Checked(f) && AllFinite(Values(f, 6))
  }

  lemma LocateShifted(s: seq<byte>, k: nat, samples: seq<Sample>, offsets: seq<nat>)
    requires k <= |s| && Located(s[k..], samples, offsets)
    ensures Located(s, samples, seq(|offsets|, i requires 0 <= i < |offsets| => offsets[i] + k))
  {
    hide GoodFrame, Unpack;
    forall i | 0 <= i < |offsets|
      ensures s[k..][offsets[i]..offsets[i] + FRAME_SIZE] == s[offsets[i] + k..offsets[i] + k + FRAME_SIZE]
    {}
  }

  lemma LocateFirst(s: seq<byte>, samples: seq<Sample>, offsets: seq<nat>)
    requires |s| >= FRAME_SIZE && GoodFrame(s[..FRAME_SIZE])
    requires Located(s, samples, offsets) && forall i :: 0 <= i < |offsets| ==> offsets[i] >= FRAME_SIZE
    ensures Located(s, [Unpack(s[..FRAME_SIZE])] + samples, [0] + offsets)
  {
    hide GoodFrame, Unpack;
    assert s[0..FRAME_SIZE] == s[..FRAME_SIZE];
  }

  lemma HeadSample(s: seq<byte>)
    requires !Waiting(s)
    ensures Head(s).samples == [] || (Width(s) == FRAME_SIZE && |s| >= FRAME_SIZE && GoodFrame(s[..FRAME_SIZE])
                                      && Head(s).samples == [Unpack(s[..FRAME_SIZE])])
  {}

  /** Nothing is invented: the samples are checked finite frames of the stream, in stream
      order and without overlap. */
  lemma {:induction false} SamplesAreStreamFrames(s: seq<byte>) returns (offsets: seq<nat>)
    ensures Located(s, Parse(s).samples, offsets)
    decreases |s|
  {
    hide Parse, Head, Width, GoodFrame, Unpack;
    ParseStep(s);
    offsets := [];
    if !Waiting(s) {
      var w := Width(s);
      var later := SamplesAreStreamFrames(s[w..]);
      LocateShifted(s, w, Parse(s[w..]).samples, later);
      offsets := seq(|later|, i requires 0 <= i < |later| => later[i] + w);
      HeadSample(s);
      if Head(s).samples != [] {
        LocateFirst(s, Parse(s[w..]).samples, offsets);
        offsets := [0] + offsets;
      } else {
        assert [] + Parse(s[w..]).samples == Parse(s[w..]).samples;
      }
    }
  }

  ghost predicate AllGood(frames: seq<seq<byte>>) {
    forall i :: 0 <= i < |frames| ==> GoodFrame(frames[i])
  }

  function UnpackAll(frames: seq<seq<byte>>): (samples: seq<Sample>)
    requires forall i :: 0 <= i < |frames| ==> |frames[i]| == FRAME_SIZE
    ensures |samples| == |frames| && forall i :: 0 <= i < |frames| ==> samples[i] == Unpack(frames[i])
  {
    if frames == [] then [] else [Unpack(frames[0])] + UnpackAll(frames[1..])
  }

  lemma GoodFrameStep(frame: seq<byte>, after: seq<byte>)
    requires GoodFrame(frame)
    ensures Parse(frame + after) == Then(Parsed([Unpack(frame)], 0, 0, 0, []), Parse(after))
  {
    var s := frame + after;
    assert s[..FRAME_SIZE] == frame && s[FRAME_SIZE..] == after;
    assert HeaderAt(s, 0) && !Waiting(s);
    ParseStep(s);
  }

  /** A stream of good frames decodes to exactly those frames, whatever follows. */
  lemma {:induction false} CleanStreamRoundTrip(frames: seq<seq<byte>>, tail: seq<byte>)
    requires AllGood(frames)
    ensures Parse(Concat(frames) + tail) == Then(Parsed(UnpackAll(frames), 0, 0, 0, []), Parse(tail))
    decreases |frames|
  {
    hide Parse, Checked;
    if frames == [] {
      assert Concat(frames) + tail == tail;
      NothingThen([], Parse(tail));
    } else {
      var after := Concat(frames[1..]) + tail;
      assert Concat(frames) + tail == frames[0] + after;
      GoodFrameStep(frames[0], after);
      CleanStreamRoundTrip(frames[1..], tail);
      ThenAssociates(Parsed([Unpack(frames[0])], 0, 0, 0, []), Parsed(UnpackAll(frames[1..]), 0, 0, 0, []), Parse(tail));
    }
  }

  /** A checked frame of which some of sixteen consecutive bits were changed on the wire yields no
      sample at its own position: the CRC comparison fails and one byte is dropped. */
  lemma CorruptFrameIsRejected(frame: seq<byte>, corrupt: seq<byte>, o: nat, tail: seq<byte>)
    requires GoodFrame(frame) && WithinBurst(frame, corrupt, o) && corrupt != frame
    ensures Parse(corrupt + tail).samples == Parse((corrupt + tail)[1..]).samples
    ensures Parse(corrupt + tail).discarded == Parse((corrupt + tail)[1..]).discarded + 1
  {
    BurstDetected(frame, corrupt, o);
    assert (corrupt + tail)[..FRAME_SIZE] == corrupt;
  }

  // ----- what a frame says

  function Payload(v: seq<bits32>): seq<byte> {
    if v == [] then [] else Payload(v[..|v| - 1]) + LittleEndian(v[|v| - 1], 4)
  }

  function Body(v: seq<bits32>): seq<byte> { [0x53, 0x54] + Payload(v) }

  /** The frame that carries the values v: header, six little-endian float32 values, CRC, low byte first. */
  function FrameOf(v: seq<bits32>): seq<byte> { Body(v) + LittleEndian(Checksum(Body(v)), 2) }

  lemma {:induction false} PayloadLayout(v: seq<bits32>, k: nat)
    requires k < |v|
    ensures |Payload(v)| == 4 * |v| && Payload(v)[4 * k..4 * k + 4] == LittleEndian(v[k], 4)
    decreases |v|
  {
    hide LittleEndian;
    var n := |v| - 1;
    if n > 0 { PayloadLayout(v[..n], if k < n then k else 0); }
    var front, last := Payload(v[..n]), LittleEndian(v[n], 4);
    assert Payload(v) == front + last && |front| == 4 * n;
    if k < n { assert (front + last)[4 * k..4 * k + 4] == front[4 * k..4 * k + 4]; }
  }

  lemma FourBytes(b: seq<byte>)
    requires |b| == 4
    ensures Value(b) == (b[0] as nat) + 0x100 * (b[1] as nat) + 0x1_0000 * (b[2] as nat) + 0x100_0000 * (b[3] as nat)
    ensures Value(b) < 0x1_0000_0000 && LittleEndian(Value(b), 4) == b
  {
    OneMoreByte(b);
    OneMoreByte(b[1..]);
    OneMoreByte(b[2..]);
    OneMoreByte(b[3..]);
    LittleEndianOfValue(b);
    Widths();
    hide Value, LittleEndian, Power256;
    assert b[1..][1..] == b[2..] && b[2..][1..] == b[3..];
  }

  lemma OneMoreByte(b: seq<byte>)
    requires b != []
    ensures Value(b) == (b[0] as nat) + 256 * Value(b[1..]) && (|b| == 1 ==> Value(b) == b[0] as nat)
  {}

  /** The k-th value of a frame is what its four bytes spell. */
  lemma ValueAt(frame: seq<byte>, k: nat)
    requires |frame| == FRAME_SIZE && k < 6
    ensures Values(frame, 6)[k] == Value(frame[2 + 4 * k..6 + 4 * k]) < 0x1_0000_0000
  {
    FourBytes(frame[2 + 4 * k..6 + 4 * k]);
  }

  lemma FrameLayout(v: seq<bits32>)
    requires |v| == 6
    ensures var f := FrameOf(v);
      && |f| == FRAME_SIZE && HeaderAt(f, 0) && f[..26] == Body(v) && f[26..28] == LittleEndian(Checksum(Body(v)), 2)
      && forall k :: 0 <= k < 6 ==> f[2 + 4 * k..6 + 4 * k] == LittleEndian(v[k], 4)
  {
    hide LittleEndian, Checksum;
    var f := FrameOf(v);
    PayloadLayout(v, 0);
    forall k | 0 <= k < 6 ensures f[2 + 4 * k..6 + 4 * k] == LittleEndian(v[k], 4) {
      PayloadLayout(v, k);
      hide Payload;
      assert f[2 + 4 * k..6 + 4 * k] == Payload(v)[4 * k..4 * k + 4];
    }
  }

  lemma FrameIsChecked(v: seq<bits32>)
    requires |v| == 6
    ensures |FrameOf(v)| == FRAME_SIZE && Checked(FrameOf(v))
  {
    hide Absorb, Payload;
    FrameLayout(v);
    AbsorbBounded(0xFFFF, Body(v));
    Widths();
    var f, crc := FrameOf(v), Checksum(Body(v));
    ValueOfLittleEndian(crc, 2);
    assert f[26] == f[26..28][0] && f[27] == f[26..28][1];
    TwoBytes(f[26..28]);
  }

  lemma TwoBytes(b: seq<byte>)
    requires |b| == 2
    ensures Value(b) == Word(b[0], b[1]) && LittleEndian(Word(b[0], b[1]), 2) == b
  {
    assert b[1..][1..] == [];
    assert Value(b[1..]) == b[1] as nat;
    LittleEndianOfValue(b);
  }

  lemma FrameValues(v: seq<bits32>)
    requires |v| == 6
    ensures |FrameOf(v)| == FRAME_SIZE && Values(FrameOf(v), 6) == v
  {
    hide FrameOf, Values, Value, LittleEndian;
    FrameLayout(v);
    Widths();
    forall k | 0 <= k < 6 ensures Values(FrameOf(v), 6)[k] == v[k] {
      ValueAt(FrameOf(v), k);
      ValueOfLittleEndian(v[k], 4);
    }
    SixValues(FrameOf(v));
  }

  lemma SixValues(frame: seq<byte>)
    requires |frame| == FRAME_SIZE
    ensures |Values(frame, 6)| == 6
  {}

  lemma {:induction false} FiniteOneByOne(values: seq<nat>)
    ensures AllFinite(values) <==> forall k :: 0 <= k < |values| ==> Finite(values[k])
  {
    if values != [] {
      FiniteOneByOne(values[1..]);
      assert forall k :: 1 <= k < |values| ==> values[k] == values[1..][k - 1];
    }
  }

  /** Six finite values, framed and fed in any reads, come out as exactly one sample. */
  lemma ValuesRoundTrip(v: seq<bits32>, chunks: seq<seq<byte>>)
    requires |v| == 6 && (forall k :: 0 <= k < 6 ==> Finite(v[k])) && Concat(chunks) == FrameOf(v)
    ensures FeedAll(Parse([]), chunks) == Parsed([Sample(v, FrameOf(v))], 0, 0, 0, [])
  {
    hide Checked, FrameOf, Values, AllFinite, Parse, FeedAll, Concat;
    FrameLayout(v);
    FrameIsChecked(v);
    FrameValues(v);
    FiniteOneByOne(v);
    ChunkingIsInvisible(chunks, [FrameOf(v)]) by { OneChunk(FrameOf(v)); }
    GoodFrameStep(FrameOf(v), []);
    assert FrameOf(v) + [] == FrameOf(v);
    ParseStep([]);
  }

  lemma OneChunk(s: seq<byte>)
    ensures Concat([s]) == s
  {
    assert Concat([]) == [];
    assert [s][1..] == [];
  }

  lemma ValuesBounded(frame: seq<byte>, n: nat, k: nat)
    requires |frame| == FRAME_SIZE && k < n <= 6
    ensures Values(frame, n)[k] < 0x1_0000_0000
  {}

  lemma PayloadOneMore(v: seq<bits32>, x: bits32)
    ensures Payload(v + [x]) == Payload(v) + LittleEndian(x, 4)
  {
    assert (v + [x])[..|v|] == v;
  }

  lemma {:induction false} PayloadOfValues(frame: seq<byte>, n: nat)
    requires |frame| == FRAME_SIZE && n <= 6
    ensures forall k :: 0 <= k < n ==> Values(frame, n)[k] < 0x1_0000_0000
    ensures Payload(Values(frame, n)) == frame[2..2 + 4 * n]
  {
    hide LittleEndian, Value, ValueBits, Payload;
    forall k | 0 <= k < n ensures Values(frame, n)[k] < 0x1_0000_0000 {
      ValuesBounded(frame, n, k);
    }
    if n == 0 {
      NoPayload();
    } else {
      PayloadOfValues(frame, n - 1);
      var four := frame[4 * n - 2..4 * n + 2];
      FourBytes(four);
      LastValue(frame, n);
      PayloadOneMore(Values(frame, n - 1), Value(four));
      assert frame[2..2 + 4 * n] == frame[2..4 * n - 2] + four;
    }
  }

  lemma NoPayload()
    ensures Payload([]) == []
  {}

  lemma LastValue(frame: seq<byte>, n: nat)
    requires |frame| == FRAME_SIZE && 0 < n <= 6
    ensures Values(frame, n) == Values(frame, n - 1) + [Value(frame[4 * n - 2..4 * n + 2])]
  {
    FourBytes(frame[4 * n - 2..4 * n + 2]);
  }

  /** Conversely every sample of every stream is six finite values and the very frame that carries them. */
  lemma SamplesSpellTheirFrames(s: seq<byte>, i: nat)
    requires i < |Parse(s).samples|
    ensures var x := Parse(s).samples[i];
      && |x.values| == 6 && (forall k :: 0 <= k < 6 ==> x.values[k] < 0x1_0000_0000 && Finite(x.values[k]))
      && x.frame == FrameOf(x.values) && |x.frame| == FRAME_SIZE
      && forall k :: 0 <= k < 6 ==> x.values[k] == Value(x.frame[2 + 4 * k..6 + 4 * k])
  {
    hide Parse, FrameOf, Value, Values, AllFinite, Checked;
    var offsets := SamplesAreStreamFrames(s);
    var f := s[offsets[i]..offsets[i] + FRAME_SIZE];
    FiniteOneByOne(Values(f, 6));
    SixValues(f);
    FrameOfValues(f);
    forall k | 0 <= k < 6 ensures Values(f, 6)[k] == Value(f[2 + 4 * k..6 + 4 * k]) {
      ValueAt(f, k);
    }
  }

  lemma FrameOfValues(f: seq<byte>)
    requires |f| == FRAME_SIZE && HeaderAt(f, 0) && Checked(f)
    ensures forall k :: 0 <= k < 6 ==> Values(f, 6)[k] < 0x1_0000_0000
    ensures FrameOf(Values(f, 6)) == f
  {
    hide LittleEndian, Value, Values, Absorb, Payload;
    PayloadOfValues(f, 6);
    assert f[..26] == [0x53, 0x54] + f[2..26];
    TwoBytes(f[26..28]);
    assert f == f[..26] + f[26..28];
  }

  // ----- the buffered decoder

  /** Bytes that cannot start a frame are all discarded. */
  lemma {:induction false} SkipToHeader(s: seq<byte>, n: nat)
    requires n < |s| && (forall i :: 0 <= i < n ==> !HeaderAt(s, i))
    ensures Parse(s) == Then(Parsed([], 0, 0, n, []), Parse(s[n..]))
    decreases n
  {
    hide Parse, Checked;
    if n == 0 {
      assert s[0..] == s;
      NothingThen([], Parse(s));
    } else {
      assert !HeaderAt(s, 0) && |s| >= 2;
      var later := s[1..];
      forall i | 0 <= i < n - 1 ensures !HeaderAt(later, i) {
        assert !HeaderAt(s, i + 1);
      }
      ParseStep(s);
      SkipToHeader(later, n - 1);
      assert later[n - 1..] == s[n..];
      ThenAssociates(Head(s), Parsed([], 0, 0, n - 1, []), Parse(s[n..]));
    }
  }

  lemma SkipThen(given: Parsed, s: seq<byte>, n: nat)
    requires n < |s| && (forall i :: 0 <= i < n ==> !HeaderAt(s, i))
    ensures Then(given, Parse(s)) == Then(given.(discarded := given.discarded + n), Parse(s[n..]))
  {
    hide Parse;
    SkipToHeader(s, n);
    ThenAssociates(given, Parsed([], 0, 0, n, []), Parse(s[n..]));
    assert given.samples + [] == given.samples;
  }

  lemma Exhausted(given: Parsed, s: seq<byte>)
    requires Waiting(s)
    ensures Then(given, Parse(s)) == given.(rest := s)
  {
    ParseStep(s);
    assert given.samples + [] == given.samples;
  }

  lemma LastByte(given: Parsed, b: byte)
    ensures Then(given, Parse([b]))
         == if b == HEADER_0 then given.(rest := [b]) else given.(discarded := given.discarded + 1, rest := [])
  {
    hide Checked;
    ParseStep([b]);
    ParseStep([]);
    assert b != HEADER_0 ==> [b][1..] == [];
    assert given.samples + [] == given.samples;
  }

  /** When the buffer holds no header, only a last byte `S` can still matter. */
  lemma NoHeader(given: Parsed, s: seq<byte>, keep: nat)
    requires s != [] && (forall i: nat :: !HeaderAt(s, i))
    requires keep == if s[|s| - 1] == HEADER_0 then 1 else 0
    ensures Then(given, Parse(s)) == given.(discarded := given.discarded + |s| - keep, rest := s[|s| - keep..])
    ensures Waiting(s[|s| - keep..])
  {
    hide Parse, Checked, Then, Head, Width;
    SkipThen(given, s, |s| - 1);
    var last := s[|s| - 1..];
    assert last == [s[|s| - 1]];
    LastByte(given.(discarded := given.discarded + |s| - 1), s[|s| - 1]);
  }

  /** The three outcomes for a whole buffered frame. */
  lemma FrameDecision(s: seq<byte>, given: Parsed)
    requires HeaderAt(s, 0) && |s| >= FRAME_SIZE
    ensures var f := s[..FRAME_SIZE];
            var checked := Checksum(f[..FRAME_SIZE - 2]) == Word(f[FRAME_SIZE - 2], f[FRAME_SIZE - 1]);
      Then(given, Parse(s)) ==
      if !checked then Then(given.(crcFailures := given.crcFailures + 1, discarded := given.discarded + 1), Parse(s[1..]))
      else if !AllFinite(Values(f, 6)) then Then(given.(nonfiniteFrames := given.nonfiniteFrames + 1), Parse(s[FRAME_SIZE..]))
      else Then(given.(samples := given.samples + [Unpack(f)]), Parse(s[FRAME_SIZE..]))
  {
    hide Parse, AllFinite, Values, Unpack;
    ParseStep(s);
    ThenAssociates(given, Head(s), Parse(s[Width(s)..]));
    assert given.samples + [] == given.samples;
  }

  class Decoder {
    var buffer: seq<byte>
    var crcFailures: nat
    var nonfiniteFrames: nat
    var discardedBytes: nat

    constructor ()
      ensures buffer == [] && crcFailures == 0 && nonfiniteFrames == 0 && discardedBytes == 0
    {
      buffer, crcFailures, nonfiniteFrames, discardedBytes := [], 0, 0, 0;
    }

    /** The counters, together with the samples handed out. */
    ghost function Tally(given: seq<Sample>): Parsed
      reads this
    {
      Parsed(given, crcFailures, nonfiniteFrames, discardedBytes, [])
    }

    /** Position of the first header in the buffer, or -1. */
    method FindHeader() returns (start: int)
      ensures start == -1 ==> forall i: nat :: !HeaderAt(buffer, i)
      ensures start != -1 ==> start >= 0 && HeaderAt(buffer, start) && forall i: nat :: i < start ==> !HeaderAt(buffer, i)
    {
      start := 0;
      while start + 2 <= |buffer|
        invariant start >= 0 && forall i: nat :: i < start ==> !HeaderAt(buffer, i)
      {
        if buffer[start] == HEADER_0 && buffer[start + 1] == HEADER_1 { return; }
        start := start + 1;
      }
      start := -1;
    }

    method Feed(chunk: seq<byte>) returns (samples: seq<Sample>)
      modifies this
      ensures Tally(samples).(rest := buffer) == Then(old(Tally([])), Parse(old(buffer) + chunk))
      ensures |buffer| < FRAME_SIZE
    {
      hide Parse, Then, Checked, Head, Width, Values, AllFinite;
      buffer := buffer + chunk;
      samples := [];
      ghost var goal := Then(old(Tally([])), Parse(buffer));
      while buffer != []
        invariant Then(Tally(samples), Parse(buffer)) == goal
        decreases |buffer|
      {
        var start := FindHeader();
        if start < 0 {
          var keep := if buffer[|buffer| - 1] == HEADER_0 then 1 else 0;
          NoHeader(Tally(samples), buffer, keep);
          discardedBytes := discardedBytes + (|buffer| - keep);
          buffer := buffer[|buffer| - keep..];
          break;
        }
        if start > 0 {
          SkipThen(Tally(samples), buffer, start);
          discardedBytes := discardedBytes + start;
          buffer := buffer[start..];
        }
        assert HeaderAt(buffer, 0);
        if |buffer| < FRAME_SIZE { break; }
        FrameDecision(buffer, Tally(samples));
        var frame := buffer[..FRAME_SIZE];
        var crc := Crc16Modbus(frame[..FRAME_SIZE - 2]);
        if crc != Word(frame[FRAME_SIZE - 2], frame[FRAME_SIZE - 1]) {
          crcFailures := crcFailures + 1;
          discardedBytes := discardedBytes + 1;
          buffer := buffer[1..];
          continue;
        }
        buffer := buffer[FRAME_SIZE..];
        if !AllFinite(Values(frame, 6)) {
          nonfiniteFrames := nonfiniteFrames + 1;
          continue;
        }
        samples := samples + [Unpack(frame)];
      }
      Exhausted(Tally(samples), buffer);
    }
  }
}
