/** WAV files with any number of 16-bit channels: they are read as one channel, the mean. */
module WavMix {
  import opened Text
  import opened Wav

  /** A format chunk: audio format code, channels, rate, byte rate, frame size, bits. */
  datatype FmtFields = FmtFields(code: nat, channels: nat, rate: nat, byteRate: nat, frame: nat, bits: nat)

  predicate Fits(f: FmtFields) {
    && f.code < 0x1_0000 && f.channels < 0x1_0000 && f.rate < 0x1_0000_0000 && f.byteRate < 0x1_0000_0000
    && f.frame < 0x1_0000 && f.bits < 0x1_0000
  }

  function BodyOf(f: FmtFields): (s: seq<byte>)
    requires Fits(f)
    ensures |s| == 16
  {
    Le16(f.code) + Le16(f.channels) + Le32(f.rate) + Le32(f.byteRate) + Le16(f.frame) + Le16(f.bits)
  }

  function ChunkOf(f: FmtFields): (s: seq<byte>)
    requires Fits(f)
    ensures |s| == 24
  {
    Tag("fmt ") + Le32(16) + BodyOf(f)
  }

  function FileOf(size: nat, f: FmtFields, data: seq<byte>): seq<byte>
    requires size < 0x1_0000_0000 && Fits(f) && |data| < 0x1_0000_0000
  {
    RiffHead(size) + (ChunkOf(f) + (DataHead(|data|) + data))
  }

  /** The reader takes channels, rate and bits from their places, and nothing else. */
  lemma BodyReads(f: FmtFields, rest: seq<byte>)
    requires Fits(f)
    ensures ReadFormat(BodyOf(f) + rest) == Some(Format(f.channels, f.rate, f.bits))
  {
    var body := BodyOf(f) + rest;
    assert body[2..4] == Le16(f.channels);
    assert body[4..8] == Le32(f.rate);
    assert body[14..16] == Le16(f.bits);
    Reads16(body, 2, f.channels);
    Reads32(body, 4, f.rate);
    Reads16(body, 14, f.bits);
  }

  lemma ChunkReads(f: FmtFields, rest: seq<byte>)
    requires Fits(f)
    ensures var s := ChunkOf(f) + rest;
            && Tagged(s, 0, "fmt ") && U32At(s, 4) == 16 && s[24..] == rest
            && ReadFormat(s[8..]) == Some(Format(f.channels, f.rate, f.bits))
  {
    var s := ChunkOf(f) + rest;
    assert s[4..8] == Le32(16);
    Reads32(s, 4, 16);
    BodyReads(f, rest);
    assert s[8..] == BodyOf(f) + rest;
    assert forall k :: 0 <= k < 4 ==> s[k] == Tag("fmt ")[k];
  }

  lemma WalkChunk(f: FmtFields, rest: seq<byte>)
    requires Fits(f)
    ensures Walk(ChunkOf(f) + rest, NO_FORMAT) == Walk(rest, Format(f.channels, f.rate, f.bits))
  {
    ChunkReads(f, rest);
    assert Tail(ChunkOf(f) + rest, 24) == rest;
  }

  /** Any file with one format and one data chunk: what is read is what its data hold. */
  lemma FileReads(size: nat, f: FmtFields, data: seq<byte>)
    requires size < 0x1_0000_0000 && Fits(f) && f.rate > 0 && 0 < |data| < 0x1_0000_0000
    ensures ReadWav(FileOf(size, f, data)) == ReadFound(Found(Format(f.channels, f.rate, f.bits), data, |data|))
  {
    RiffHeadReads(size, ChunkOf(f) + (DataHead(|data|) + data));
    WalkChunk(f, DataHead(|data|) + data);
    WalkData(data, Format(f.channels, f.rate, f.bits));
  }

  // ---------------------------------------------------------------------
  // Mixing
  // ---------------------------------------------------------------------

  /** The sum of count samples from a position on. */
  function SumFrom(samples: seq<int16>, start: nat, count: nat): int
    requires start + count <= |samples|
  {
    if count == 0 then 0 else SumFrom(samples, start, count - 1) + samples[start + count - 1]
  }

  lemma Positions(i: nat, channels: nat, c: nat)
    ensures Bits(i, Bits(channels, 16)) + Bits(c, 16) == Bits(i * channels + c, 16)
  {
    assert i * (channels * 16) == (i * channels) * 16;
  }

  lemma {:induction false} FrameIs(samples: seq<int16>, channels: nat, i: nat, start: nat, c: nat)
    requires start == i * channels && start + c <= |samples|
    ensures FrameSum(Pcm(samples), 16, Bits(i, Bits(channels, 16)), c) == Some(SumFrom(samples, start, c))
    decreases c
  {
    if c > 0 {
      FrameIs(samples, channels, i, start, c - 1);
      Positions(i, channels, c - 1);
      MonoSample(samples, start + c - 1);
      FrameSumNext(Pcm(samples), 16, Bits(i, Bits(channels, 16)), c - 1);
    }
  }

  /** v is the mean of the samples to the nearest integer, halves up. */
  predicate IsMean(v: int, sum: int, channels: nat) { 2 * sum - channels < 2 * channels * v <= 2 * sum + channels }

  lemma AverageIsMean(sum: int, channels: nat)
    requires channels > 0 && InRange(sum, channels)
    ensures IsMean(Average(sum, channels), sum, channels)
  {
    var d := 2 * channels;
    var q := (2 * sum + channels) / d;
    assert d * q <= 2 * sum + channels < d * q + d;
  }

  /** The i-th frame's mean. */
  predicate Mixes(mixed: seq<int16>, samples: seq<int16>, channels: nat) {
    forall i, start: nat :: 0 <= i < |mixed| && start == i * channels && start + channels <= |samples| ==>
                              IsMean(mixed[i], SumFrom(samples, start, channels), channels)
  }

  lemma FrameFits(i: nat, n: nat, channels: nat, total: nat)
    requires i < n && total == n * channels
    ensures i * channels + channels <= total
  {
    assert (n - i - 1) * channels >= 0;
    assert total == i * channels + channels + (n - i - 1) * channels;
  }

  lemma {:induction false} FramesAre(samples: seq<int16>, f: Format, total: nat, n: nat) returns (mixed: seq<int16>)
    requires f.channels > 0 && f.bits == 16 && n <= total && |samples| == total * f.channels
    ensures Frames(Pcm(samples), f, n) == Some(mixed) && |mixed| == n && Mixes(mixed, samples, f.channels)
  {
    mixed := [];
    if n > 0 {
      var before := FramesAre(samples, f, total, n - 1);
      var start := (n - 1) * f.channels;
      FrameFits(n - 1, total, f.channels, |samples|);
      FrameIs(samples, f.channels, n - 1, start, f.channels);
      var sum := SumFrom(samples, start, f.channels);
      AverageIsMean(sum, f.channels);
      mixed := before + [Average(sum, f.channels)];
      MixesMore(before, samples, f.channels, Average(sum, f.channels));
    }
  }

  lemma MixesMore(mixed: seq<int16>, samples: seq<int16>, channels: nat, v: int16)
    requires Mixes(mixed, samples, channels)
    requires forall start: nat :: start == |mixed| * channels && start + channels <= |samples| ==>
                                    IsMean(v, SumFrom(samples, start, channels), channels)
    ensures Mixes(mixed + [v], samples, channels)
  {
  }

  lemma CountOf(n: nat, f: Format, length: nat)
    requires f.channels > 0 && f.bits == 16 && length == 2 * (n * f.channels)
    ensures FrameCount(length, f) == Some(n)
  {
    var width := Bits(f.channels, 16);
    assert 8 * length == width * n;
    assert width > 0;
    Quotient(width, n);
  }

  lemma Quotient(d: nat, n: nat)
    requires d > 0
    ensures d * n / d == n
  {
    var q := d * n / d;
    assert d * q <= d * n < d * q + d;
    assert d * (n - q) == d * n - d * q;
    assert n - q >= 1 ==> d * (n - q) >= d;
    assert q - n >= 1 ==> d * (q - n) >= d;
  }

  /** A file of n frames of 16-bit samples, with any number of channels and any other entries in its format
      chunk, is read as n samples, each the mean of its frame, at the file's rate. */
  lemma InterleavedIsMixed(size: nat, f: FmtFields, n: nat, samples: seq<int16>) returns (mixed: seq<int16>)
    requires size < 0x1_0000_0000 && Fits(f) && f.rate > 0 && f.channels > 0 && f.bits == 16
    requires n > 0 && |samples| == n * f.channels && 2 * |samples| < 0x1_0000_0000
    ensures ReadWav(FileOf(size, f, Pcm(samples))) == Ok(Audio(mixed, f.rate))
    ensures |mixed| == n && Mixes(mixed, samples, f.channels)
  {
    var format := Format(f.channels, f.rate, f.bits);
    FrameFits(0, n, f.channels, |samples|);
    FileReads(size, f, Pcm(samples));
    CountOf(n, format, 2 * |samples|);
    mixed := FramesAre(samples, format, n, n);
  }
}
