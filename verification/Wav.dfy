/** 16-bit PCM WAV files, written and read back byte by byte (audio.ts). */
module Wav {
  import opened Text

  newtype byte = x: int | 0 <= x < 256
  type int16 = x: int | -32768 <= x < 32768

  // ---------------------------------------------------------------------
  // Little-endian numbers
  // ---------------------------------------------------------------------

  function Le16(v: nat): (s: seq<byte>)
    requires v < 0x1_0000
    ensures |s| == 2
  {
    [(v % 256) as byte, (v / 256) as byte]
  }

  function Le32(v: nat): (s: seq<byte>)
    requires v < 0x1_0000_0000
    ensures |s| == 4
  {
    Le16(v % 0x1_0000) + Le16(v / 0x1_0000)
  }

  function U16At(s: seq<byte>, at: nat): (v: nat)
    requires at + 2 <= |s|
    ensures v < 0x1_0000
  {
    s[at] as nat + 256 * s[at + 1] as nat
  }

  function U32At(s: seq<byte>, at: nat): (v: nat)
    requires at + 4 <= |s|
    ensures v < 0x1_0000_0000
  {
    U16At(s, at) + 0x1_0000 * U16At(s, at + 2)
  }

  /** What was written at a position is read there. */
  lemma Reads16(s: seq<byte>, at: nat, v: nat)
    requires v < 0x1_0000 && at + 2 <= |s| && s[at..at + 2] == Le16(v)
    ensures U16At(s, at) == v
  {
    assert s[at] == s[at..at + 2][0] && s[at + 1] == s[at..at + 2][1];
  }

  lemma Reads32(s: seq<byte>, at: nat, v: nat)
    requires v < 0x1_0000_0000 && at + 4 <= |s| && s[at..at + 4] == Le32(v)
    ensures U32At(s, at) == v
  {
    var four := s[at..at + 4];
    assert s[at..at + 2] == four[..2] == Le16(v % 0x1_0000);
    assert s[at + 2..at + 4] == four[2..] == Le16(v / 0x1_0000);
    Reads16(s, at, v % 0x1_0000);
    Reads16(s, at + 2, v / 0x1_0000);
  }

  function Unsigned(v: int16): (u: nat)
    ensures u < 0x1_0000
  {
    if v < 0 then v + 0x1_0000 else v
  }

  function Signed(v: nat): (r: int16)
    requires v < 0x1_0000
  {
    if v < 0x8000 then v else v - 0x1_0000
  }

  /** A four-letter tag as bytes. */
  function Tag(tag: string): (s: seq<byte>)
    requires forall c :: c in tag ==> c < 128 as char
    ensures |s| == |tag|
  {
    seq(|tag|, i requires 0 <= i < |tag| => assert tag[i] in tag; tag[i] as int as byte)
  }

  /** toString('ascii'): the high bit of every byte is dropped, and a short buffer gives a short text. */
  predicate Tagged(s: seq<byte>, at: nat, tag: string)
    requires |tag| == 4
  {
    && at + 4 <= |s|
    && Letter(s[at], tag[0]) && Letter(s[at + 1], tag[1]) && Letter(s[at + 2], tag[2]) && Letter(s[at + 3], tag[3])
  }

  predicate Letter(b: byte, c: char) { b as int == c as int || b as int == c as int + 128 }

  // ---------------------------------------------------------------------
  // What is written
  // ---------------------------------------------------------------------

  function Pcm(samples: seq<int16>): (s: seq<byte>)
    ensures |s| == 2 * |samples|
  {
    if samples == [] then []
    else Pcm(samples[..|samples| - 1]) + Le16(Unsigned(samples[|samples| - 1]))
  }

  function RiffHead(size: nat): (s: seq<byte>)
    requires size < 0x1_0000_0000
    ensures |s| == 12
  {
    Tag("RIFF") + Le32(size) + Tag("WAVE")
  }

  /** Mono 16-bit PCM at the given rate. */
  function FmtBody(sampleRate: nat): (s: seq<byte>)
    requires sampleRate * 2 < 0x1_0000_0000
    ensures |s| == 16
  {
    Le16(1) + Le16(1) + Le32(sampleRate) + Le32(sampleRate * 2) + Le16(2) + Le16(16)
  }

  function FmtChunk(sampleRate: nat): (s: seq<byte>)
    requires sampleRate * 2 < 0x1_0000_0000
    ensures |s| == 24
  {
    Tag("fmt ") + Le32(16) + FmtBody(sampleRate)
  }

  function DataHead(size: nat): (s: seq<byte>)
    requires size < 0x1_0000_0000
    ensures |s| == 8
  {
    Tag("data") + Le32(size)
  }

  /** Every header field fits in its 32 bits. */
  predicate Writable(count: nat, sampleRate: int) {
    36 + 2 * count < 0x1_0000_0000 && 0 <= sampleRate && sampleRate * 2 < 0x1_0000_0000
  }

  /** The 44 bytes before the samples. */
  function Header(count: nat, sampleRate: nat): (s: seq<byte>)
    requires Writable(count, sampleRate)
    ensures |s| == 44
  {
    RiffHead(36 + 2 * count) + FmtChunk(sampleRate) + DataHead(2 * count)
  }

  function WavBytes(samples: seq<int16>, sampleRate: nat): (s: seq<byte>)
    requires Writable(|samples|, sampleRate)
    ensures |s| == 44 + 2 * |samples|
  {
    Header(|samples|, sampleRate) + Pcm(samples)
  }

  // ---------------------------------------------------------------------
  // What is read
  // ---------------------------------------------------------------------

  datatype Failure = NotWav | NoChunks | OutOfRange

  datatype Result<T> = Ok(value: T) | Err(why: Failure)

  datatype Audio = Audio(samples: seq<int16>, sampleRate: nat)

  datatype Format = Format(channels: nat, sampleRate: nat, bits: nat)

  /** The format in force at the data chunk, and the rest of the buffer from its first byte. */
  datatype Found = Found(format: Format, data: seq<byte>, length: nat)

  function Tail(s: seq<byte>, at: nat): seq<byte> { if at <= |s| then s[at..] else [] }

  function ReadFormat(s: seq<byte>): Option<Format> {
    if |s| < 16 then None else Some(Format(U16At(s, 2), U32At(s, 4), U16At(s, 14)))
  }

  /** Math.min: a data chunk's header may promise more than there is. */
  function Clamped(size: nat, available: nat): nat { if size < available then size else available }

  datatype ChunkId = Fmt | Data | Other

  function IdAt(s: seq<byte>, at: nat): ChunkId {
    if Tagged(s, at, "fmt ") then Fmt else if Tagged(s, at, "data") then Data else Other
  }

  /** What one chunk leads to: the end of the search, or the next chunk `skip` bytes on. */
  datatype Turned = Stop(result: Result<Option<Found>>) | Next(skip: nat, format: Format)

  /** The chunk at the start of `s`, when the bytes after its head are `body`. */
  function Chunk(id: ChunkId, size: nat, body: seq<byte>, format: Format): (t: Turned)
    ensures t.Next? ==> t.skip == 8 + size + size % 2
  {
    match id
    case Fmt =>
      (match ReadFormat(body)
       case None => Stop(Err(OutOfRange))
       case Some(f) => Next(8 + size + size % 2, f))
    case Data => Stop(Ok(Some(Found(format, body, Clamped(size, |body|)))))
    case Other => Next(8 + size + size % 2, format)
  }

  /** Chunk by chunk from the start of `s`, up to the data chunk. */
  function Walk(s: seq<byte>, format: Format): Result<Option<Found>>
    decreases |s|
  {
    if |s| <= 8 then Ok(None)
    else
      match Chunk(IdAt(s, 0), U32At(s, 4), s[8..], format)
      case Stop(result) => result
      case Next(skip, f) => Walk(Tail(s, skip), f)
  }

  /** readInt16LE at a position given in bits; a fraction of a byte is out of range. */
  function Int16At(data: seq<byte>, bit: nat): Option<int16> {
    if bit % 8 != 0 || bit / 8 + 2 > |data| then None
    else
      Some(Signed(U16At(data, bit / 8)))
  }

  /** c times a width in bits. */
  function Bits(c: nat, width: nat): nat { c * width }

  /** The sum over the first c channels of the frame at a bit position. */
  function FrameSum(data: seq<byte>, bits: nat, at: nat, c: nat): (sum: Option<int>)
    ensures sum.Some? ==> InRange(sum.value, c)
    decreases c
  {
    if c == 0 then Some(0)
    else
      var before := FrameSum(data, bits, at, c - 1);
      var sample := Int16At(data, at + Bits(c - 1, bits));
      if before.None? || sample.None? then None else Some(before.value + sample.value)
  }

  predicate InRange(sum: int, channels: nat) { -32768 * channels <= sum <= 32767 * channels }

  /** Math.round of a quotient: halves go up. */
  function Average(sum: int, channels: nat): (r: int16)
    requires channels > 0 && InRange(sum, channels)
  {
    AverageInRange(sum, channels);
    (2 * sum + channels) / (2 * channels)
  }

  lemma AverageInRange(sum: int, channels: nat)
    requires channels > 0 && InRange(sum, channels)
    ensures -32768 <= (2 * sum + channels) / (2 * channels) <= 32767
  {
    var q, d := (2 * sum + channels) / (2 * channels), 2 * channels;
    assert d * q <= 2 * sum + channels < d * q + d;
    assert q >= 32768 ==> d * q >= d * 32768;
    assert q <= -32769 ==> d * q <= d * -32769;
  }

  function Frames(data: seq<byte>, f: Format, n: nat): Option<seq<int16>>
    requires n > 0 ==> f.channels > 0
  {
    if n == 0 then Some([])
    else
      var before := Frames(data, f, n - 1);
      var sum := FrameSum(data, f.bits, Bits(n - 1, Bits(f.channels, f.bits)), f.channels);
      if before.None? || sum.None? then None else Some(before.value + [Average(sum.value, f.channels)])
  }

  /** dataLength / (bits / 8 * channels), rounded down; 0 / 0 makes no frames, and x / 0 no array. */
  function FrameCount(length: nat, f: Format): (n: Option<nat>)
    ensures n.Some? && n.value > 0 ==> f.channels > 0
  {
    var width := Bits(f.channels, f.bits);
    if width == 0 then (if length == 0 then Some(0) else None) else Some(8 * length / width)
  }

  function ReadFound(found: Found): Result<Audio> {
    var n := FrameCount(found.length, found.format);
    if n.None? then Err(OutOfRange)
    else
      var frames := Frames(found.data, found.format, n.value);
      if frames.None? then Err(OutOfRange) else Ok(Audio(frames.value, found.format.sampleRate))
  }

  const NO_FORMAT := Format(0, 0, 0)

  predicate IsWav(s: seq<byte>) { Tagged(s, 0, "RIFF") && Tagged(s, 8, "WAVE") }

  function ReadWav(s: seq<byte>): Result<Audio> {
    if !IsWav(s) then Err(NotWav)
    else
      match Walk(Tail(s, 12), NO_FORMAT)
      case Err(why) => Err(why)
      case Ok(None) => Err(NoChunks)
      case Ok(Some(found)) => if found.format.sampleRate == 0 then Err(NoChunks) else ReadFound(found)
  }

  // ---------------------------------------------------------------------
  // The writer
  // ---------------------------------------------------------------------

  /** buf.write: the tag at o. */
  method PutTag(buf: array<byte>, o: nat, tag: string) returns (next: nat)
    requires o + |tag| <= buf.Length && forall c :: c in tag ==> c < 128 as char
    modifies buf
    ensures next == o + |tag| && buf[..next] == old(buf[..o]) + Tag(tag)
  {
    for i := 0 to |tag|
      invariant buf[..o] == old(buf[..o]) && buf[o..o + i] == Tag(tag)[..i]
    {
      assert tag[i] in tag;
      buf[o + i] := tag[i] as int as byte;
      assert buf[o..o + i + 1] == buf[o..o + i] + [buf[o + i]];
    }
    next := o + |tag|;
    assert buf[..next] == buf[..o] + buf[o..next];
  }

  method Put16(buf: array<byte>, o: nat, v: nat) returns (next: nat)
    requires o + 2 <= buf.Length && v < 0x1_0000
    modifies buf
    ensures next == o + 2 && buf[..next] == old(buf[..o]) + Le16(v)
  {
    buf[o], buf[o + 1] := (v % 256) as byte, (v / 256) as byte;
    next := o + 2;
  }

  method Put32(buf: array<byte>, o: nat, v: nat) returns (next: nat)
    requires o + 4 <= buf.Length && v < 0x1_0000_0000
    modifies buf
    ensures next == o + 4 && buf[..next] == old(buf[..o]) + Le32(v)
  {
    next := Put16(buf, o, v % 0x1_0000);
    next := Put16(buf, next, v / 0x1_0000);
  }

  /** writeWavSamples; None is the RangeError of a header field out of range. */
  method WriteWavSamples(samples: array<int16>, sampleRate: int) returns (file: Option<array<byte>>)
    ensures file.Some? <==> Writable(samples.Length, sampleRate)
    ensures file.Some? ==> fresh(file.value) && file.value[..] == WavBytes(samples[..], sampleRate)
  {
    var dataBytes := samples.Length * 2;
    var buf := new byte[44 + dataBytes];
    if 36 + dataBytes >= 0x1_0000_0000 || sampleRate < 0 || sampleRate * 2 >= 0x1_0000_0000 {
      return None;
    }
    var o := PutHeader(buf, samples.Length, sampleRate);
    ghost var header := buf[..o];
    for i := 0 to samples.Length
      invariant o == 44 + 2 * i && |header| == 44
      invariant buf[..o] == header + Pcm(samples[..i])
    {
      PcmNext(samples[..], i);
      o := Put16(buf, o, Unsigned(samples[i]));
    }
    assert samples[..samples.Length] == samples[..] && buf[..o] == buf[..];
    file := Some(buf);
  }

  lemma PcmNext(samples: seq<int16>, i: nat)
    requires i < |samples|
    ensures Pcm(samples[..i + 1]) == Pcm(samples[..i]) + Le16(Unsigned(samples[i]))
  {
    assert samples[..i + 1][..i] == samples[..i];
  }

  method PutHeader(buf: array<byte>, count: nat, sampleRate: nat) returns (o: nat)
    requires buf.Length >= 44 && Writable(count, sampleRate)
    modifies buf
    ensures o == 44 && buf[..o] == Header(count, sampleRate)
  {
    o := PutRiffHead(buf, 36 + 2 * count);
    ghost var head := buf[..o];
    o := PutTag(buf, o, "fmt ");
    o := Put32(buf, o, 16);
    assert buf[..o] == head + (Tag("fmt ") + Le32(16));
    o := PutFmtBody(buf, o, sampleRate);
    assert buf[..o] == head + FmtChunk(sampleRate);
    o := PutDataHead(buf, o, 2 * count);
  }

  method PutRiffHead(buf: array<byte>, size: nat) returns (o: nat)
    requires buf.Length >= 12 && size < 0x1_0000_0000
    modifies buf
    ensures o == 12 && buf[..o] == RiffHead(size)
  {
    o := PutTag(buf, 0, "RIFF");
    o := Put32(buf, o, size);
    o := PutTag(buf, o, "WAVE");
  }

  method PutDataHead(buf: array<byte>, at: nat, size: nat) returns (o: nat)
    requires at + 8 <= buf.Length && size < 0x1_0000_0000
    modifies buf
    ensures o == at + 8 && buf[..o] == old(buf[..at]) + DataHead(size)
  {
    o := PutTag(buf, at, "data");
    o := Put32(buf, o, size);
  }

  method PutFmtBody(buf: array<byte>, at: nat, sampleRate: nat) returns (o: nat)
    requires at + 16 <= buf.Length && sampleRate * 2 < 0x1_0000_0000
    modifies buf
    ensures o == at + 16 && buf[..o] == old(buf[..at]) + FmtBody(sampleRate)
  {
    ghost var before := buf[..at];
    o := Put16(buf, at, 1);
    o := Put16(buf, o, 1);
    o := Put32(buf, o, sampleRate);
    assert buf[..o] == before + (Le16(1) + Le16(1) + Le32(sampleRate));
    o := Put32(buf, o, sampleRate * 2);
    o := Put16(buf, o, 2);
    o := Put16(buf, o, 16);
    assert buf[..o] == before + (Le16(1) + Le16(1) + Le32(sampleRate) + Le32(sampleRate * 2) + Le16(2) + Le16(16));
  }

  // ---------------------------------------------------------------------
  // The reader
  // ---------------------------------------------------------------------

  /** readWavSamples. */
  method ReadWavSamples(buf: array<byte>) returns (r: Result<Audio>)
    ensures r == ReadWav(buf[..])
  {
    if !IsWav(buf[..]) {
      return Err(NotWav);
    }
    var found := FindData(buf);
    if found.Err? {
      return Err(found.why);
    }
    if found.value.None? || found.value.value.format.sampleRate == 0 {
      return Err(NoChunks);
    }
    var f := found.value.value;
    var count := FrameCount(f.length, f.format);
    if count.None? {
      return Err(OutOfRange);
    }
    var samples := ReadFrames(f.data, f.format, count.value);
    r := if samples.None? then Err(OutOfRange) else Ok(Audio(samples.value, f.format.sampleRate));
  }

  /** The bytes from an offset on, read from the start of the file. */
  lemma TailReads(file: seq<byte>, offset: nat, s: seq<byte>, skip: nat)
    requires offset + 8 < |file| && s == Tail(file, offset)
    ensures |s| == |file| - offset && IdAt(s, 0) == IdAt(file, offset) && U32At(s, 4) == U32At(file, offset + 4)
    ensures s[8..] == file[offset + 8..] && Tail(s, skip) == Tail(file, offset + skip)
  {
  }

  /** The chunk loop. It ends on every buffer: each turn moves the offset by eight bytes or more. */
  method FindData(buf: array<byte>) returns (r: Result<Option<Found>>)
    ensures r == Walk(Tail(buf[..], 12), NO_FORMAT)
  {
    var file, offset, format := buf[..], 12, NO_FORMAT;
    ghost var s := Tail(file, offset);
    ghost var result := Walk(s, format);
    while offset < buf.Length - 8
      invariant s == Tail(file, offset) && result == Walk(s, format)
      decreases buf.Length - offset
    {
      var chunkId, chunkSize := IdAt(file, offset), U32At(file, offset + 4);
      ghost var skip := 8 + chunkSize + chunkSize % 2;
      TailReads(file, offset, s, skip);
      offset := offset + 8;
      if chunkId.Fmt? {
        var read := ReadFormat(file[offset..]);
        if read.None? {
          return Err(OutOfRange);
        }
        format := read.value;
      } else if chunkId.Data? {
        return Ok(Some(Found(format, file[offset..], Clamped(chunkSize, buf.Length - offset))));
      }
      offset := offset + chunkSize + chunkSize % 2;
      s := Tail(s, skip);
    }
    r := Ok(None);
  }

  /** The sample loop, filling an array by index. */
  method ReadFrames(data: seq<byte>, f: Format, n: nat) returns (r: Option<seq<int16>>)
    requires n > 0 ==> f.channels > 0
    ensures r == Frames(data, f, n)
  {
    var samples := new int16[n];
    for i := 0 to n
      invariant Frames(data, f, i) == Some(samples[..i])
    {
      var sum := ReadFrame(data, f, Bits(i, Bits(f.channels, f.bits)));
      if sum.None? {
        FramesFail(data, f, i + 1, n);
        return None;
      }
      samples[i] := Average(sum.value, f.channels);
      assert samples[..i + 1] == samples[..i] + [samples[i]];
    }
    assert samples[..n] == samples[..];
    r := Some(samples[..]);
  }

  /** The loop over the channels of one frame. */
  method ReadFrame(data: seq<byte>, f: Format, base: nat) returns (r: Option<int>)
    ensures r == FrameSum(data, f.bits, base, f.channels)
  {
    var sum: int := 0;
    for c := 0 to f.channels
      invariant FrameSum(data, f.bits, base, c) == Some(sum)
    {
      var sample := Int16At(data, base + Bits(c, f.bits));
      FrameSumNext(data, f.bits, base, c);
      if sample.None? {
        FrameSumFails(data, f.bits, base, c + 1, f.channels);
        return None;
      }
      sum := sum + sample.value;
    }
    r := Some(sum);
  }

  lemma FrameSumNext(data: seq<byte>, bits: nat, at: nat, c: nat)
    ensures var before, sample := FrameSum(data, bits, at, c), Int16At(data, at + Bits(c, bits));
            FrameSum(data, bits, at, c + 1) ==
            if before.None? || sample.None? then None else Some(before.value + sample.value)
  {
  }

  lemma {:induction false} FrameSumFails(data: seq<byte>, bits: nat, at: nat, c: nat, channels: nat)
    requires c <= channels && FrameSum(data, bits, at, c).None?
    ensures FrameSum(data, bits, at, channels).None?
    decreases channels
  {
    if c < channels {
      FrameSumFails(data, bits, at, c, channels - 1);
    }
  }

  lemma {:induction false} FramesFail(data: seq<byte>, f: Format, i: nat, n: nat)
    requires i <= n && f.channels > 0 && Frames(data, f, i).None?
    ensures Frames(data, f, n).None?
    decreases n
  {
    if i < n {
      FramesFail(data, f, i, n - 1);
    }
  }

  // ---------------------------------------------------------------------
  // Writing then reading
  // ---------------------------------------------------------------------

  lemma FmtBodyReads(sampleRate: nat, rest: seq<byte>)
    requires sampleRate * 2 < 0x1_0000_0000
    ensures ReadFormat(FmtBody(sampleRate) + rest) == Some(Format(1, sampleRate, 16))
  {
    var body := FmtBody(sampleRate) + rest;
    assert body[2..4] == Le16(1);
    assert body[4..8] == Le32(sampleRate);
    assert body[14..16] == Le16(16);
    Reads16(body, 2, 1);
    Reads32(body, 4, sampleRate);
    Reads16(body, 14, 16);
  }

  lemma FmtChunkReads(sampleRate: nat, rest: seq<byte>)
    requires sampleRate * 2 < 0x1_0000_0000
    ensures var s := FmtChunk(sampleRate) + rest;
            && Tagged(s, 0, "fmt ") && U32At(s, 4) == 16 && s[24..] == rest
            && ReadFormat(s[8..]) == Some(Format(1, sampleRate, 16))
  {
    var s := FmtChunk(sampleRate) + rest;
    assert s[4..8] == Le32(16);
    Reads32(s, 4, 16);
    FmtBodyReads(sampleRate, rest);
    assert s[8..] == FmtBody(sampleRate) + rest;
    assert forall k :: 0 <= k < 4 ==> s[k] == Tag("fmt ")[k];
  }

  lemma DataHeadReads(size: nat, rest: seq<byte>)
    requires size < 0x1_0000_0000
    ensures var s := DataHead(size) + rest;
            Tagged(s, 0, "data") && !Tagged(s, 0, "fmt ") && U32At(s, 4) == size && s[8..] == rest
  {
    var s := DataHead(size) + rest;
    assert s[4..8] == Le32(size);
    Reads32(s, 4, size);
    assert forall k :: 0 <= k < 4 ==> s[k] == Tag("data")[k];
  }

  lemma RiffHeadReads(size: nat, rest: seq<byte>)
    requires size < 0x1_0000_0000
    ensures var s := RiffHead(size) + rest;
            Tagged(s, 0, "RIFF") && Tagged(s, 8, "WAVE") && Tail(s, 12) == rest
  {
    var s := RiffHead(size) + rest;
    assert forall k :: 0 <= k < 4 ==> s[k] == Tag("RIFF")[k] && s[8 + k] == Tag("WAVE")[k];
  }

  lemma {:induction false} PcmAt(samples: seq<int16>, i: nat)
    requires i < |samples|
    ensures Pcm(samples)[2 * i..2 * i + 2] == Le16(Unsigned(samples[i]))
  {
    if i < |samples| - 1 {
      PcmAt(samples[..|samples| - 1], i);
      assert Pcm(samples)[2 * i..2 * i + 2] == Pcm(samples[..|samples| - 1])[2 * i..2 * i + 2];
    }
  }

  lemma SampleReads(data: seq<byte>, i: nat, v: int16)
    requires 2 * i + 2 <= |data| && data[2 * i..2 * i + 2] == Le16(Unsigned(v))
    ensures U16At(data, 2 * i) == Unsigned(v) && Signed(U16At(data, 2 * i)) == v
  {
    Reads16(data, 2 * i, Unsigned(v));
  }

  lemma Bits16(i: nat)
    ensures Bits(i, 16) == 16 * i && Bits(i, 16) % 8 == 0 && Bits(i, 16) / 8 == 2 * i
  {
  }

  lemma MonoSample(samples: seq<int16>, i: nat)
    requires i < |samples|
    ensures Int16At(Pcm(samples), Bits(i, 16)) == Some(samples[i])
  {
    var data := Pcm(samples);
    PcmAt(samples, i);
    SampleReads(data, i, samples[i]);
    Bits16(i);
  }

  lemma OneChannel(data: seq<byte>, bits: nat, at: nat)
    requires Int16At(data, at).Some?
    ensures FrameSum(data, bits, at, 1) == Some(Int16At(data, at).value as int)
  {
    assert FrameSum(data, bits, at, 0) == Some(0);
  }

  lemma AverageOfOne(v: int16)
    ensures Average(v, 1) == v
  {
  }

  lemma {:induction false} MonoFrames(samples: seq<int16>, f: Format, n: nat)
    requires n <= |samples| && f.channels == 1 && f.bits == 16
    ensures Frames(Pcm(samples), f, n) == Some(samples[..n])
  {
    if n > 0 {
      MonoFrames(samples, f, n - 1);
      MonoSample(samples, n - 1);
      assert Bits(1, 16) == 16;
      OneChannel(Pcm(samples), 16, Bits(n - 1, 16));
      AverageOfOne(samples[n - 1]);
      assert samples[..n] == samples[..n - 1] + [samples[n - 1]];
    }
  }

  lemma MonoCount(n: nat, f: Format)
    requires f.channels == 1 && f.bits == 16
    ensures FrameCount(2 * n, f) == Some(n)
  {
    assert Bits(1, 16) == 16;
  }

  lemma ReadMono(samples: seq<int16>, sampleRate: nat)
    ensures ReadFound(Found(Format(1, sampleRate, 16), Pcm(samples), 2 * |samples|)) == Ok(Audio(samples, sampleRate))
  {
    MonoFrames(samples, Format(1, sampleRate, 16), |samples|);
    assert samples[..|samples|] == samples;
    MonoCount(|samples|, Format(1, sampleRate, 16));
  }

  lemma WalkFmtChunk(sampleRate: nat, rest: seq<byte>)
    requires sampleRate * 2 < 0x1_0000_0000
    ensures Walk(FmtChunk(sampleRate) + rest, NO_FORMAT) == Walk(rest, Format(1, sampleRate, 16))
  {
    FmtChunkReads(sampleRate, rest);
    assert Tail(FmtChunk(sampleRate) + rest, 24) == rest;
  }

  lemma WalkData(data: seq<byte>, f: Format)
    requires |data| < 0x1_0000_0000
    ensures Walk(DataHead(|data|) + data, f) == Ok(if data == [] then None else Some(Found(f, data, |data|)))
  {
    DataHeadReads(|data|, data);
  }

  /**
   * A file that was written reads back as the same samples and rate, unless there are no
   * samples or the rate is 0: the reader then finds no data or no format.
   */
  lemma {:induction false} WriteThenRead(samples: seq<int16>, sampleRate: nat)
    requires Writable(|samples|, sampleRate)
    ensures ReadWav(WavBytes(samples, sampleRate))
            == if samples == [] || sampleRate == 0 then Err(NoChunks) else Ok(Audio(samples, sampleRate))
  {
    var rest: seq<byte> := FmtChunk(sampleRate) + (DataHead(2 * |samples|) + Pcm(samples));
    assert WavBytes(samples, sampleRate) == RiffHead(36 + 2 * |samples|) + rest;
    RiffHeadReads(36 + 2 * |samples|, rest);
    WalkFmtChunk(sampleRate, DataHead(2 * |samples|) + Pcm(samples));
    WalkData(Pcm(samples), Format(1, sampleRate, 16));
    ReadMono(samples, sampleRate);
  }

  /** A chunk that is neither the format nor the data, with its padding byte if it is odd. */
  predicate OtherChunk(s: seq<byte>) {
    && |s| >= 8 && IdAt(s, 0).Other?
    && |s| == 8 + U32At(s, 4) + U32At(s, 4) % 2
  }

  lemma IdOfHead(chunk: seq<byte>, rest: seq<byte>)
    requires |chunk| >= 8
    ensures IdAt(chunk + rest, 0) == IdAt(chunk, 0) && U32At(chunk + rest, 4) == U32At(chunk, 4)
  {
  }

  lemma SkipChunk(chunk: seq<byte>, rest: seq<byte>, f: Format)
    requires OtherChunk(chunk)
    ensures Walk(chunk + rest, f) == Walk(rest, f)
  {
    IdOfHead(chunk, rest);
    assert Tail(chunk + rest, |chunk|) == rest;
  }

  lemma HeadDecides(head: seq<byte>, rest: seq<byte>)
    requires |head| == 12
    ensures IsWav(head + rest) == IsWav(head) && Tail(head + rest, 12) == rest
  {
  }

  /** Chunks the reader does not know, before the others, make no difference to what it reads. */
  lemma {:induction false} UnknownChunksAreSkipped(head: seq<byte>, chunk: seq<byte>, rest: seq<byte>)
    requires |head| == 12 && OtherChunk(chunk)
    ensures ReadWav(head + (chunk + rest)) == ReadWav(head + rest)
  {
    SkipChunk(chunk, rest, NO_FORMAT);
    HeadDecides(head, chunk + rest);
    HeadDecides(head, rest);
  }
}
