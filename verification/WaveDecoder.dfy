/** PCM samples and the linear resampler to 48 kHz stereo. */
module Resampler {
  import opened Bits
  import opened LittleEndian

  /** A signed 16-bit sample. */
  type Sample = x: int | -0x8000 <= x < 0x8000

  /** Division that drops the remainder, as the machine divides. */
  function Truncate(a: int, b: int): int
    requires b > 0
  {
    if a >= 0 then a / b else -((-a) / b)
  }

  /** A sample of 8, 16, 24 or 32 bits as 16 bits. */
  function DecodeSample(b: seq<Byte>, bits: nat): Sample
    requires bits in {8, 16, 24, 32} && |b| == bits / 8
  {
    if bits == 8 then (b[0] - 128) * 256
    else if bits == 16 then I16At(b, 0)
    else if bits == 24 then
      var raw := b[0] + 256 * b[1] as int + 0x1_0000 * b[2] as int;
      var signed := if raw >= 0x80_0000 then raw - 0x100_0000 else raw;
      signed / 256
    else
      var raw := U32At(b, 0);
      var signed := if raw >= 0x8000_0000 then raw - 0x1_0000_0000 else raw;
      signed / 0x1_0000
  }

  /** Wider samples keep their two most significant bytes; 8-bit samples are unsigned around 128. */
  lemma SampleKeepsTopBytes(b: seq<Byte>, bits: nat)
    requires bits in {8, 16, 24, 32} && |b| == bits / 8
    ensures bits > 8 ==> DecodeSample(b, bits) == I16At(b, bits / 8 - 2)
    ensures bits == 8 ==> DecodeSample(b, bits) == Signed16(256 * ((b[0] as int + 128) % 256))
  {
  }

  datatype Pcm = Pcm(data: seq<Byte>, channels: nat, bits: nat)

  function FrameBytes(p: Pcm): nat
  {
    p.bits / 8 * p.channels
  }

  predicate ValidPcm(p: Pcm)
  {
    p.bits in {8, 16, 24, 32} && p.channels in {1, 2} && |p.data| > 0 && |p.data| % FrameBytes(p) == 0
  }

  function FrameCount(p: Pcm): (n: nat)
    requires ValidPcm(p)
    ensures n > 0 && n * FrameBytes(p) == |p.data|
  {
    |p.data| / FrameBytes(p)
  }

  /** Left and right of one source frame; mono plays on both sides. */
  function Frame(p: Pcm, i: nat): (Sample, Sample)
    requires ValidPcm(p) && i < FrameCount(p)
  {
    FrameFits(p, i);
    var w, base := p.bits / 8, i * FrameBytes(p);
    var left := DecodeSample(p.data[base..base + w], p.bits);
    (left, if p.channels == 2 then DecodeSample(p.data[base + w..base + 2 * w], p.bits) else left)
  }

  lemma FrameFits(p: Pcm, i: nat)
    requires ValidPcm(p) && i < FrameCount(p)
    ensures i * FrameBytes(p) + FrameBytes(p) <= |p.data|
  {
    var n, f := FrameCount(p), FrameBytes(p);
    assert (i + 1) * f <= n * f;
    assert (i + 1) * f == i * f + f;
  }

  // Two signed 16-bit channels, written frame after frame, left before right.

  function Interleave(frames: seq<(Sample, Sample)>): (r: seq<Byte>)
    ensures |r| == 4 * |frames|
  {
    if frames == [] then []
    else
      var last := frames[|frames| - 1];
      Interleave(frames[..|frames| - 1]) + (Le16(Unsigned16(last.0)) + Le16(Unsigned16(last.1)))
  }

  lemma {:induction false} InterleavedAt(frames: seq<(Sample, Sample)>, i: nat)
    requires i < |frames|
    ensures Interleave(frames)[4 * i..4 * i + 2] == Le16(Unsigned16(frames[i].0))
    ensures Interleave(frames)[4 * i + 2..4 * i + 4] == Le16(Unsigned16(frames[i].1))
  {
    var n := |frames| - 1;
    var front, data := Interleave(frames[..n]), Interleave(frames);
    if i < n {
      InterleavedAt(frames[..n], i);
      assert data[4 * i..4 * i + 2] == front[4 * i..4 * i + 2];
      assert data[4 * i + 2..4 * i + 4] == front[4 * i + 2..4 * i + 4];
    }
  }

  lemma StereoShape(data: seq<Byte>, n: nat)
    requires n > 0 && |data| == 4 * n
    ensures ValidPcm(Pcm(data, 2, 16)) && FrameCount(Pcm(data, 2, 16)) == n
  {
    assert FrameBytes(Pcm(data, 2, 16)) == 4;
  }

  lemma StereoFrame(p: Pcm, i: nat)
    requires p.channels == 2 && p.bits == 16 && ValidPcm(p) && i < FrameCount(p)
    ensures 4 * i + 4 <= |p.data|
    ensures Frame(p, i) == (I16At(p.data[4 * i..4 * i + 2], 0), I16At(p.data[4 * i + 2..4 * i + 4], 0))
  {
    FrameFits(p, i);
    assert FrameBytes(p) == 4;
  }

  lemma SampleReadsBack(b: seq<Byte>, v: Sample)
    requires b == Le16(Unsigned16(v))
    ensures I16At(b, 0) == v
  {
    assert b[0..2] == b;
    Read16(b, 0, Unsigned16(v));
  }

  /** Frames written so are decoded again, left as left and right as right. */
  lemma StereoReadsBack(frames: seq<(Sample, Sample)>, i: nat)
    requires i < |frames|
    ensures var p := Pcm(Interleave(frames), 2, 16);
      ValidPcm(p) && FrameCount(p) == |frames| && Frame(p, i) == frames[i]
  {
    var p := Pcm(Interleave(frames), 2, 16);
    StereoShape(p.data, |frames|);
    StereoFrame(p, i);
    InterleavedAt(frames, i);
    SampleReadsBack(p.data[4 * i..4 * i + 2], frames[i].0);
    SampleReadsBack(p.data[4 * i + 2..4 * i + 4], frames[i].1);
  }

  function Interpolate(first: Sample, second: Sample, fraction: nat): (r: Sample)
    requires fraction < 48_000
    ensures first <= second ==> first <= r <= second
    ensures second <= first ==> second <= r <= first
  {
    InterpolationBound(second - first, fraction);
    first + Truncate((second - first) * fraction, 48_000)
  }

  /** The result is the point between the two samples, off by less than one step and never past it. */
  lemma InterpolationIsExact(first: Sample, second: Sample, fraction: nat)
    requires fraction < 48_000
    ensures var exact, steps := (second - first) * fraction, Interpolate(first, second, fraction) - first;
      && (exact >= 0 ==> steps * 48_000 <= exact < steps * 48_000 + 48_000)
      && (exact <= 0 ==> steps * 48_000 - 48_000 < exact <= steps * 48_000)
  {
    TruncateBounds((second - first) * fraction);
  }

  lemma TruncateBounds(p: int)
    ensures p >= 0 ==> Truncate(p, 48_000) * 48_000 <= p < Truncate(p, 48_000) * 48_000 + 48_000
    ensures p <= 0 ==> Truncate(p, 48_000) * 48_000 - 48_000 < p <= Truncate(p, 48_000) * 48_000
  {
  }

  lemma InterpolationBound(delta: int, fraction: nat)
    requires fraction < 48_000
    ensures delta >= 0 ==> 0 <= Truncate(delta * fraction, 48_000) <= delta
    ensures delta <= 0 ==> delta <= Truncate(delta * fraction, 48_000) <= 0
  {
    if delta >= 0 {
      assert 0 <= delta * fraction <= delta * 48_000;
    } else {
      assert 0 <= -(delta * fraction) <= -delta * 48_000;
    }
  }

  /** Output frames: the source duration at 48 kHz, rounded up. */
  function OutputCount(n: nat, rate: nat): nat
    requires rate > 0
  {
    (n * 48_000 + rate - 1) / rate
  }

  /** Output frame k stands at source position k * rate / 48000, between a frame and the next. */
  function OutputFrame(p: Pcm, rate: nat, k: nat): (Sample, Sample)
    requires ValidPcm(p) && k * rate / 48_000 < FrameCount(p)
  {
    var i, fraction, n := k * rate / 48_000, k * rate % 48_000, FrameCount(p);
    var here, next := Frame(p, i), Frame(p, if i + 1 < n then i + 1 else n - 1);
    (Interpolate(here.0, next.0, fraction), Interpolate(here.1, next.1, fraction))
  }

  lemma QuotientBounds(a: nat, b: nat)
    requires b > 0
    ensures a / b * b <= a < a / b * b + b
  {
  }

  lemma ScaledOrder(j: nat, k: nat, b: nat)
    requires j <= k
    ensures j * b <= k * b
  {
  }

  lemma NextMultiple(k: nat, b: nat)
    ensures (k + 1) * b == k * b + b
  {
  }

  /** Every output frame stands inside the source, so the last-frame clamp is never needed for it. */
  lemma PositionInside(n: nat, rate: nat, k: nat)
    requires rate > 0 && k < OutputCount(n, rate)
    ensures k * rate < n * 48_000 && k * rate / 48_000 < n
  {
    QuotientBounds(n * 48_000 + rate - 1, rate);
    ScaledOrder(k + 1, OutputCount(n, rate), rate);
    NextMultiple(k, rate);
  }

  /** And the count is exact: one more frame would stand at or past the end. */
  lemma CountIsExact(n: nat, rate: nat)
    requires rate > 0
    ensures OutputCount(n, rate) * rate >= n * 48_000
  {
    QuotientBounds(n * 48_000 + rate - 1, rate);
  }

  /** At 48 kHz the output is the decoded input. */
  lemma SameRateIsExact(p: Pcm, k: nat)
    requires ValidPcm(p) && k < FrameCount(p)
    ensures OutputCount(FrameCount(p), 48_000) == FrameCount(p)
    ensures k * 48_000 / 48_000 < FrameCount(p) && OutputFrame(p, 48_000, k) == Frame(p, k)
  {
    assert k * 48_000 / 48_000 == k && k * 48_000 % 48_000 == 0;
  }

  /** The frame at position k * rate / 48000, which lies inside the source. */
  ghost predicate Stands(p: Pcm, rate: nat, k: nat, left: Sample, right: Sample)
    requires ValidPcm(p)
  {
    k * rate / 48_000 < FrameCount(p) && (left, right) == OutputFrame(p, rate, k)
  }

  ghost predicate Inside(p: Pcm, rate: nat, k: nat)
    requires ValidPcm(p)
  {
    k * rate / 48_000 < FrameCount(p)
  }

  method Resample(p: Pcm, rate: nat, count: nat, output: array<Sample>)
    requires ValidPcm(p) && rate > 0 && count == OutputCount(FrameCount(p), rate) && 2 * count <= output.Length
    modifies output
    ensures forall k :: 0 <= k < count ==> Stands(p, rate, k, output[2 * k], output[2 * k + 1])
    ensures forall i :: 2 * count <= i < output.Length ==> output[i] == old(output[i])
  {
    forall k | 0 <= k < count ensures Inside(p, rate, k) {
      PositionInside(FrameCount(p), rate, k);
    }
    WriteFrames(p, rate, count, output);
  }

  /** The output loop: a position advanced by the source rate, carried over 48000 at a time. */
  method WriteFrames(p: Pcm, rate: nat, count: nat, output: array<Sample>)
    requires ValidPcm(p) && 2 * count <= output.Length && forall k :: 0 <= k < count ==> Inside(p, rate, k)
    modifies output
    ensures forall k :: 0 <= k < count ==> Stands(p, rate, k, output[2 * k], output[2 * k + 1])
    ensures forall i :: 2 * count <= i < output.Length ==> output[i] == old(output[i])
  {
    var sourceFrame, fraction := 0, 0;
    for k := 0 to count
      invariant IsPosition(k, rate, sourceFrame, fraction)
      invariant forall j :: 0 <= j < k ==> Stands(p, rate, j, output[2 * j], output[2 * j + 1])
      invariant forall i :: 2 * count <= i < output.Length ==> output[i] == old(output[i])
    {
      WriteFrame(p, rate, k, sourceFrame, fraction, output);
      sourceFrame, fraction := Advance(k, sourceFrame, fraction, rate);
    }
  }

  /** Output frame k stands so far between a source frame and the next, in steps of 1/48000. */
  ghost predicate IsPosition(k: nat, rate: nat, sourceFrame: nat, fraction: nat)
  {
    fraction < 48_000 && sourceFrame * 48_000 + fraction == k * rate
  }

  method WriteFrame(p: Pcm, ghost rate: nat, k: nat, sourceFrame: nat, fraction: nat, output: array<Sample>)
    requires ValidPcm(p) && 2 * k + 1 < output.Length
    requires Inside(p, rate, k) && IsPosition(k, rate, sourceFrame, fraction)
    modifies output
    ensures Stands(p, rate, k, output[2 * k], output[2 * k + 1])
    ensures forall i :: 0 <= i < output.Length && i != 2 * k && i != 2 * k + 1 ==> output[i] == old(output[i])
  {
    PositionIs(k * rate, sourceFrame, fraction);
    var frame := FrameBetween(p, rate, k, sourceFrame, fraction);
    output[2 * k] := frame.0;
    output[2 * k + 1] := frame.1;
  }

  method FrameBetween(p: Pcm, ghost rate: nat, ghost k: nat, sourceFrame: nat, fraction: nat)
      returns (frame: (Sample, Sample))
    requires ValidPcm(p) && sourceFrame == k * rate / 48_000 < FrameCount(p) && fraction == k * rate % 48_000
    ensures frame == OutputFrame(p, rate, k)
  {
    var current, next := Neighbours(sourceFrame, FrameCount(p));
    var here, there := Frame(p, current), Frame(p, next);
    return (Interpolate(here.0, there.0, fraction), Interpolate(here.1, there.1, fraction));
  }

  /** The frame and the one after it; the clamp to the last frame fires only for the second. */
  method Neighbours(sourceFrame: nat, n: nat) returns (current: nat, next: nat)
    requires sourceFrame < n
    ensures current == sourceFrame && next == if sourceFrame + 1 < n then sourceFrame + 1 else n - 1
  {
    current := if sourceFrame < n - 1 then sourceFrame else n - 1;
    next := if current + 1 < n - 1 then current + 1 else n - 1;
  }

  lemma PositionIs(position: nat, i: nat, fraction: nat)
    requires fraction < 48_000 && i * 48_000 + fraction == position
    ensures position / 48_000 == i && position % 48_000 == fraction
  {
  }

  method Advance(ghost k: nat, frame: nat, fraction: nat, rate: nat) returns (frame': nat, fraction': nat)
    requires IsPosition(k, rate, frame, fraction)
    ensures IsPosition(k + 1, rate, frame', fraction')
  {
    frame', fraction' := frame, fraction + rate;
    while fraction' >= 48_000
      invariant frame' * 48_000 + fraction' == frame * 48_000 + fraction + rate
    {
      fraction' := fraction' - 48_000;
      frame' := frame' + 1;
    }
    NextMultiple(k, rate);
  }
}

/** The whole decoder: RIFF header, chunk walk, format check, resampling. */
module WaveDecoder {
  import opened Bits
  import opened LittleEndian
  import opened Options
  import opened Resampler
  import opened Slices
  import Riff

  datatype WaveError = MalformedWave | UnsupportedCodec | MediaTooLarge

  datatype Outcome<T> = Success(value: T) | Failure(error: WaveError)

  datatype Wave = Wave(pcm: Pcm, rate: nat)

  datatype WaveInfo = WaveInfo(channels: nat, sourceRate: nat, bits: nat, sourceFrames: nat, outputFrames: nat)

  // "RIFF" and "WAVE"
  const RIFF: seq<Byte> := [82, 73, 70, 70]
  const WAVE: seq<Byte> := [87, 65, 86, 69]

  predicate Supported(f: Riff.Format)
  {
    f.codec == 1 && f.channels in {1, 2} && f.bits in {8, 16, 24, 32} && 8_000 <= f.rate <= 192_000
  }

  /** The format and the data must agree on the frame size, and the data must hold whole frames. */
  function Check(f: Riff.Format, data: seq<Byte>): (r: Outcome<Wave>)
    ensures r.Success? ==> ValidPcm(r.value.pcm) && 8_000 <= r.value.rate <= 192_000
    ensures r == Failure(UnsupportedCodec) <==> !Supported(f)
    ensures r != Failure(MediaTooLarge)
  {
    if !Supported(f) then Failure(UnsupportedCodec)
    else
      var frame := f.bits / 8 * f.channels;
      if f.blockAlign != frame || f.byteRate != f.rate * frame || data == [] || |data| % frame != 0
      then Failure(MalformedWave)
      else Success(Wave(Pcm(data, f.channels, f.bits), f.rate))
  }

  function CheckFound(found: Riff.Result<Riff.Found>): (r: Outcome<Wave>)
    ensures r.Success? ==> ValidPcm(r.value.pcm) && 8_000 <= r.value.rate <= 192_000
  {
    if found.Malformed? || found.value.format.None? || found.value.data.None? then Failure(MalformedWave)
    else Check(found.value.format.value, found.value.data.value)
  }

  /** The declared end, when the file reaches it. */
  function DeclaredEnd(bytes: seq<Byte>): (r: Option<nat>)
    ensures r.Some? ==> 12 <= r.value <= |bytes|
  {
    if |bytes| < 12 || bytes[..4] != RIFF || bytes[8..12] != WAVE then None
    else
      var end := 8 + U32At(bytes, 4);
      if 12 <= end <= |bytes| then Some(end) else None
  }

  /** The wave a file holds. */
  function Parse(bytes: seq<Byte>): (r: Outcome<Wave>)
    ensures r.Success? ==> ValidPcm(r.value.pcm) && 8_000 <= r.value.rate <= 192_000
  {
    match DeclaredEnd(bytes)
    case None => Failure(MalformedWave)
    case Some(end) => CheckFound(Riff.Scan(Riff.NOTHING, bytes[12..end]))
  }

  function Info(w: Wave): WaveInfo
    requires ValidPcm(w.pcm) && w.rate > 0
  {
    WaveInfo(w.pcm.channels, w.rate, w.pcm.bits, FrameCount(w.pcm), OutputCount(FrameCount(w.pcm), w.rate))
  }

  ghost predicate Holds(output: seq<Sample>, w: Wave)
    requires ValidPcm(w.pcm) && w.rate > 0
  {
    var n := FrameCount(w.pcm);
    && 2 * OutputCount(n, w.rate) <= |output|
    && forall k :: 0 <= k < OutputCount(n, w.rate) ==> Stands(w.pcm, w.rate, k, output[2 * k], output[2 * k + 1])
  }

  method Decode(bytes: seq<Byte>, output: array<Sample>) returns (r: Outcome<WaveInfo>)
    modifies output
    ensures Parse(bytes).Failure? ==> r == Failure(Parse(bytes).error)
    ensures Parse(bytes).Success? && 2 * Info(Parse(bytes).value).outputFrames > output.Length ==>
      r == Failure(MediaTooLarge)
    ensures Parse(bytes).Success? && 2 * Info(Parse(bytes).value).outputFrames <= output.Length ==>
      r == Success(Info(Parse(bytes).value)) && Holds(output[..], Parse(bytes).value)
    ensures r.Failure? ==> output[..] == old(output[..])
  {
    var parsed := ParseFile(bytes);
    if parsed.Failure? {
      return Failure(parsed.error);
    }
    var wave := parsed.value;
    var count := OutputCount(FrameCount(wave.pcm), wave.rate);
    if count == 0 || 2 * count > output.Length {
      CountIsExact(FrameCount(wave.pcm), wave.rate);
      return Failure(MediaTooLarge);
    }
    Resample(wave.pcm, wave.rate, count, output);
    return Success(Info(wave));
  }

  method ParseFile(bytes: seq<Byte>) returns (r: Outcome<Wave>)
    ensures r == Parse(bytes)
  {
    var end := DeclaredEnd(bytes);
    if end.None? {
      return Failure(MalformedWave);
    }
    var body := bytes[..end.value];
    assert body[12..] == bytes[12..end.value];
    var found := Riff.Walk(body);
    return CheckFound(found);
  }

  // The writer, and chunks it does not know.

  /** A RIFF file around a body. */
  function RiffFile(body: seq<Byte>): seq<Byte>
    requires 4 + |body| < 0x1_0000_0000
  {
    RIFF + Le32(4 + |body|) + WAVE + body
  }

  /** What stands behind the declared end does not matter. */
  lemma ParseOfRiff(body: seq<Byte>, trailing: seq<Byte>)
    requires 4 + |body| < 0x1_0000_0000
    ensures Parse(RiffFile(body) + trailing) == CheckFound(Riff.Scan(Riff.NOTHING, body))
  {
    var bytes := RiffFile(body) + trailing;
    assert bytes[..4] == RIFF && bytes[8..12] == WAVE && bytes[4..8] == Le32(4 + |body|);
    Read32(bytes, 4, 4 + |body|);
    assert bytes[12..12 + |body|] == body;
  }

  /** Inserting an unknown chunk, with the RIFF length fixed up, changes nothing. */
  lemma UnknownChunkChangesNothing(before: seq<Riff.Chunk>, unknown: Riff.Chunk, after: seq<Riff.Chunk>)
    requires Riff.AllWellFormed(before) && Riff.WellFormed(unknown) && Riff.AllWellFormed(after)
    requires unknown.id != Riff.FMT && unknown.id != Riff.DATA
    requires 4 + |Riff.Tile(before + [unknown] + after)| < 0x1_0000_0000
    requires 4 + |Riff.Tile(before + after)| < 0x1_0000_0000
    ensures Parse(RiffFile(Riff.Tile(before + [unknown] + after))) == Parse(RiffFile(Riff.Tile(before + after)))
  {
    var longer, shorter := Riff.Tile(before + [unknown] + after), Riff.Tile(before + after);
    Riff.UnknownChunkIsIgnored(before, unknown, after);
    ParseOfRiff(longer, []);
    ParseOfRiff(shorter, []);
    assert RiffFile(longer) + [] == RiffFile(longer) && RiffFile(shorter) + [] == RiffFile(shorter);
  }

  /** The fields of a format chunk hold 16 and 32 bits. */
  predicate Fits(f: Riff.Format)
  {
    && f.codec < 0x1_0000 && f.channels < 0x1_0000 && f.blockAlign < 0x1_0000 && f.bits < 0x1_0000
    && f.rate < 0x1_0000_0000 && f.byteRate < 0x1_0000_0000
  }

  function FormatBody(f: Riff.Format): (r: seq<Byte>)
    requires Fits(f)
    ensures |r| == 16
  {
    Le16(f.codec) + Le16(f.channels) + Le32(f.rate) + Le32(f.byteRate) + Le16(f.blockAlign) + Le16(f.bits)
  }

  lemma FieldsInOrder(s: seq<Byte>, at: nat, codec: seq<Byte>, channels: seq<Byte>, rate: seq<Byte>,
                      byteRate: seq<Byte>, blockAlign: seq<Byte>, bits: seq<Byte>)
    requires |codec| == |channels| == |blockAlign| == |bits| == 2 && |rate| == |byteRate| == 4
    requires at + 16 <= |s|
    ensures s[at..at + 16] == codec + channels + rate + byteRate + blockAlign + bits
            <==> && s[at..at + 2] == codec && s[at + 2..at + 4] == channels && s[at + 4..at + 8] == rate
                 && s[at + 8..at + 12] == byteRate && s[at + 12..at + 14] == blockAlign && s[at + 14..at + 16] == bits
  {
    SliceOfTwo(s, at, codec + channels + rate + byteRate + blockAlign, bits);
    SliceOfTwo(s, at, codec + channels + rate + byteRate, blockAlign);
    SliceOfTwo(s, at, codec + channels + rate, byteRate);
    SliceOfTwo(s, at, codec + channels, rate);
    SliceOfTwo(s, at, codec, channels);
  }

  lemma FormatReadsBack(f: Riff.Format)
    requires Fits(f)
    ensures Riff.FormatOf(FormatBody(f)) == f
  {
    var b := FormatBody(f);
    assert b[0..16] == b;
    FieldsInOrder(b, 0, Le16(f.codec), Le16(f.channels), Le32(f.rate), Le32(f.byteRate), Le16(f.blockAlign),
                  Le16(f.bits));
    Read16(b, 0, f.codec);
    Read16(b, 2, f.channels);
    Read32(b, 4, f.rate);
    Read32(b, 8, f.byteRate);
    Read16(b, 12, f.blockAlign);
    Read16(b, 14, f.bits);
  }

  function FormatChunk(f: Riff.Format): (c: Riff.Chunk)
    requires Fits(f)
    ensures Riff.WellFormed(c)
  {
    Riff.Chunk(Riff.FMT, FormatBody(f), [])
  }

  function DataChunk(samples: seq<Byte>): (c: Riff.Chunk)
    requires |samples| < 0xFFFF_FF00
    ensures Riff.WellFormed(c)
  {
    Riff.Chunk(Riff.DATA, samples, if |samples| % 2 == 1 then [0] else [])
  }

  /** The format and the data, in a RIFF file. */
  function WaveFile(f: Riff.Format, samples: seq<Byte>): seq<Byte>
    requires Fits(f) && |samples| < 0xFFFF_FF00
  {
    RiffFile(Riff.Encode(FormatChunk(f)) + Riff.Encode(DataChunk(samples)))
  }

  function WriterFormat(bits: nat, channels: nat, rate: nat): Riff.Format
  {
    var block := channels * (bits / 8);
    Riff.Format(1, channels, rate, rate * block, block, bits)
  }

  /** The writer's bytes, laid out field by field. */
  method WriteWave(bits: nat, channels: nat, rate: nat, samples: seq<Byte>) returns (bytes: array<Byte>)
    requires Fits(WriterFormat(bits, channels, rate)) && |samples| < 0xFFFF_FF00
    ensures fresh(bytes) && bytes[..] == WaveFile(WriterFormat(bits, channels, rate), samples)
  {
    var padded := |samples| + |samples| % 2;
    bytes := new Byte[44 + padded](_ => 0);
    var riffSize := bytes.Length - 8;
    Put(bytes, 0, RIFF);
    Put(bytes, 4, Le32(riffSize));
    Put(bytes, 8, WAVE);
    WriteFormat(bytes, WriterFormat(bits, channels, rate));
    WriteData(bytes, samples);
    ghost var b := bytes[..];
    assert b[..4] == RIFF && b[4..8] == Le32(riffSize) && b[8..12] == WAVE;
    assert b[12..36] == bytes[12..36] && b[36..] == bytes[36..];
    RiffJoined(b, Riff.Encode(FormatChunk(WriterFormat(bits, channels, rate))), Riff.Encode(DataChunk(samples)));
  }

  lemma RiffJoined(b: seq<Byte>, format: seq<Byte>, data: seq<Byte>)
    requires |b| >= 36 && 4 + |format + data| < 0x1_0000_0000
    requires b[..4] == RIFF && b[4..8] == Le32(4 + |format + data|) && b[8..12] == WAVE
    requires b[12..36] == format && b[36..] == data
    ensures b == RiffFile(format + data)
  {
    assert b == b[..4] + b[4..8] + b[8..12] + (b[12..36] + b[36..]);
  }

  lemma FormatJoined(b: seq<Byte>, f: Riff.Format)
    requires Fits(f) && |b| >= 36
    requires b[12..16] == Riff.FMT && b[16..20] == Le32(16) && b[20..36] == FormatBody(f)
    ensures b[12..36] == Riff.Encode(FormatChunk(f))
  {
    assert b[12..36] == b[12..16] + b[16..20] + b[20..36] + [];
  }

  method WriteData(bytes: array<Byte>, samples: seq<Byte>)
    requires |samples| < 0xFFFF_FF00 && bytes.Length == 44 + |samples| + |samples| % 2
    requires forall i :: 36 <= i < bytes.Length ==> bytes[i] == 0
    modifies bytes
    ensures bytes[36..] == Riff.Encode(DataChunk(samples))
    ensures forall i :: 0 <= i < 36 ==> bytes[i] == old(bytes[i])
  {
    Put(bytes, 36, Riff.DATA);
    Put(bytes, 40, Le32(|samples|));
    Put(bytes, 44, samples);
  }

  method WriteFormat(bytes: array<Byte>, f: Riff.Format)
    requires Fits(f) && bytes.Length >= 44
    modifies bytes
    ensures bytes[12..36] == Riff.Encode(FormatChunk(f))
    ensures forall i :: 0 <= i < bytes.Length && !(12 <= i < 36) ==> bytes[i] == old(bytes[i])
  {
    Put(bytes, 12, Riff.FMT);
    Put(bytes, 16, Le32(16));
    WriteFields(bytes, f);
    ghost var b := bytes[..];
    assert b[12..16] == Riff.FMT && b[16..20] == Le32(16);
    assert b[20..36] == bytes[20..36];
    FormatJoined(b, f);
    assert b[12..36] == bytes[12..36];
  }

  method WriteFields(bytes: array<Byte>, f: Riff.Format)
    requires Fits(f) && bytes.Length >= 44
    modifies bytes
    ensures bytes[20..36] == FormatBody(f)
    ensures forall i :: 0 <= i < bytes.Length && !(20 <= i < 36) ==> bytes[i] == old(bytes[i])
  {
    Put(bytes, 20, Le16(f.codec));
    Put(bytes, 22, Le16(f.channels));
    Put(bytes, 24, Le32(f.rate));
    Put(bytes, 28, Le32(f.byteRate));
    Put(bytes, 32, Le16(f.blockAlign));
    Put(bytes, 34, Le16(f.bits));
    ghost var s := bytes[..];
    assert s[20..22] == Le16(f.codec) && s[22..24] == Le16(f.channels) && s[24..28] == Le32(f.rate);
    assert s[28..32] == Le32(f.byteRate) && s[32..34] == Le16(f.blockAlign) && s[34..36] == Le16(f.bits);
    FieldsInOrder(s, 20, Le16(f.codec), Le16(f.channels), Le32(f.rate), Le32(f.byteRate), Le16(f.blockAlign),
                  Le16(f.bits));
    assert s[20..36] == bytes[20..36];
  }

  /** Decoding what was written reads the format and the samples back. */
  lemma FileReadsBack(f: Riff.Format, samples: seq<Byte>)
    requires Fits(f) && |samples| < 0xFFFF_FF00
    ensures Parse(WaveFile(f, samples)) == Check(f, samples)
  {
    var format, data := FormatChunk(f), DataChunk(samples);
    var chunks := [format, data];
    assert chunks[1..] == [data] && [data][1..] == [];
    assert Riff.Tile([data]) == Riff.Encode(data);
    Riff.SplitOfTile(chunks);
    FormatReadsBack(f);
    WriterCollects(format, data);
    ParseOfRiff(Riff.Tile(chunks), []);
    assert WaveFile(f, samples) + [] == WaveFile(f, samples);
  }

  lemma WriterCollects(format: Riff.Chunk, data: Riff.Chunk)
    requires format.id == Riff.FMT && |format.body| == 16 && data.id == Riff.DATA
    ensures Riff.Collect(Riff.NOTHING, [format, data])
            == Riff.Ok(Riff.Found(Some(Riff.FormatOf(format.body)), Some(data.body)))
  {
    assert [format, data][1..] == [data] && [data][1..] == [];
    assert Riff.Collect(Riff.Found(Some(Riff.FormatOf(format.body)), None), [data])
        == Riff.Ok(Riff.Found(Some(Riff.FormatOf(format.body)), Some(data.body)));
  }

  /** The writer's own format agrees with itself. */
  lemma CheckOfWriter(bits: nat, channels: nat, rate: nat, samples: seq<Byte>)
    ensures var f := WriterFormat(bits, channels, rate);
      Check(f, samples) == Success(Wave(Pcm(samples, channels, bits), rate))
      <==> Supported(f) && samples != [] && |samples| % f.blockAlign == 0
  {
    var f := WriterFormat(bits, channels, rate);
    if Supported(f) {
      assert f.blockAlign == bits / 8 * channels;
      assert f.byteRate == rate * f.blockAlign;
    }
  }

  /** The writer's file decodes to its samples exactly when the decoder supports the format and the frames are whole. */
  lemma WriterReadsBack(bits: nat, channels: nat, rate: nat, samples: seq<Byte>)
    requires Fits(WriterFormat(bits, channels, rate)) && |samples| < 0xFFFF_FF00
    ensures var f := WriterFormat(bits, channels, rate);
      Parse(WaveFile(f, samples)) == Success(Wave(Pcm(samples, channels, bits), rate))
      <==> Supported(f) && samples != [] && |samples| % f.blockAlign == 0
  {
    FileReadsBack(WriterFormat(bits, channels, rate), samples);
    CheckOfWriter(bits, channels, rate, samples);
  }

  /** Frames, left before right. */
  ghost predicate Plays(output: seq<Sample>, frames: seq<(Sample, Sample)>)
  {
    && 2 * |frames| <= |output|
    && forall k :: 0 <= k < |frames| ==> (output[2 * k], output[2 * k + 1]) == frames[k]
  }

  const STEREO := WriterFormat(16, 2, 48_000)

  lemma StereoFormat(f: Riff.Format, samples: seq<Byte>, n: nat)
    requires f == STEREO && |samples| == 4 * n && n > 0
    ensures Fits(f) && Check(f, samples) == Success(Wave(Pcm(samples, 2, 16), 48_000))
  {
    assert f == Riff.Format(1, 2, 48_000, 192_000, 4, 16);
  }

  lemma StereoWave(f: Riff.Format, samples: seq<Byte>, n: nat)
    requires f == STEREO && |samples| == 4 * n && 0 < n < 0x3FFF_FFC0
    ensures Fits(f) && Parse(WaveFile(f, samples)) == Success(Wave(Pcm(samples, 2, 16), 48_000))
  {
    StereoFormat(f, samples, n);
    FileReadsBack(f, samples);
  }

  lemma StereoHolds(frames: seq<(Sample, Sample)>, output: seq<Sample>)
    requires |frames| > 0
    ensures var w := Wave(Pcm(Interleave(frames), 2, 16), 48_000);
      && ValidPcm(w.pcm) && FrameCount(w.pcm) == |frames| && OutputCount(|frames|, 48_000) == |frames|
      && (Holds(output, w) ==> Plays(output, frames))
  {
    var w := Wave(Pcm(Interleave(frames), 2, 16), 48_000);
    StereoReadsBack(frames, 0);
    SameRateIsExact(w.pcm, 0);
    if Holds(output, w) {
      forall k | 0 <= k < |frames| ensures (output[2 * k], output[2 * k + 1]) == frames[k] {
        StereoReadsBack(frames, k);
        SameRateIsExact(w.pcm, k);
        assert Stands(w.pcm, 48_000, k, output[2 * k], output[2 * k + 1]);
      }
    }
  }

  /** Writing 16-bit stereo frames at 48 kHz and decoding the file again plays exactly those frames, when they fit. */
  method WriteAndDecode(frames: seq<(Sample, Sample)>, output: array<Sample>) returns (r: Outcome<WaveInfo>)
    requires 0 < |frames| < 0x3FFF_FFC0
    modifies output
    ensures 2 * |frames| <= output.Length ==>
      r == Success(WaveInfo(2, 48_000, 16, |frames|, |frames|)) && Plays(output[..], frames)
    ensures 2 * |frames| > output.Length ==> r == Failure(MediaTooLarge) && output[..] == old(output[..])
  {
    var samples := Interleave(frames);
    var bytes := WriteWave(16, 2, 48_000, samples);
    StereoWave(STEREO, samples, |frames|);
    r := Decode(bytes[..], output);
    StereoHolds(frames, output[..]);
  }
}
