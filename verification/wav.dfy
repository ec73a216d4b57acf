/**
 * The WAV writer of the sound-effect script (`writeWAV`): the canonical
 * 44-byte header of the Microsoft RIFF WAVE format for 16-bit mono PCM (a
 * RIFF chunk header, a 16-byte `fmt ` chunk and the `data` chunk header),
 * followed by the samples as little-endian two's-complement integers. A
 * reader for the same layout is given as the writer's inverse.
 */
module Wav {
  import opened Wrappers

  newtype byte = x: int | 0 <= x < 256

  /** A parsed file: the rate from the `fmt ` chunk and the samples of the `data` chunk. */
  datatype WavFile = WavFile(sampleRate: int, samples: seq<int>)

  /** Why the writer throws: a 32-bit header field out of `writeUInt32LE`'s range. */
  datatype WavError = FieldOutOfRange(offset: nat, value: int)

  const HEADER_SIZE: nat := 44
  const DEFAULT_SAMPLE_RATE: int := 44100
  const FMT_CHUNK_SIZE: int := 16
  const PCM_FORMAT: int := 1
  const MONO: int := 1
  const BLOCK_ALIGN: int := 2
  const BITS_PER_SAMPLE: int := 16
  /** `0x7fff`: the scale of a full-range sample. */
  const FULL_SCALE: int := 0x7fff
  const UINT32_LIMIT: int := 0x1_0000_0000

  // ---------------------------------------------------------------------
  // Little-endian fields
  // ---------------------------------------------------------------------

  /** `writeUInt16LE`: low byte first. */
  function U16Bytes(v: int): (r: seq<byte>)
    requires 0 <= v < 0x1_0000
    ensures |r| == 2
  {
    [(v % 256) as byte, (v / 256) as byte]
  }

  /** `writeUInt32LE`: the low half first, each half low byte first. */
  function U32Bytes(v: int): (r: seq<byte>)
    requires 0 <= v < UINT32_LIMIT
    ensures |r| == 4
  {
    U16Bytes(v % 0x1_0000) + U16Bytes(v / 0x1_0000)
  }

  /** `writeInt16LE`: the two's-complement bit pattern, low byte first. */
  function I16Bytes(v: int): (r: seq<byte>)
    requires -0x8000 <= v < 0x8000
    ensures |r| == 2
  {
    U16Bytes(if v < 0 then v + 0x1_0000 else v)
  }

  function ReadU16(b: seq<byte>, at: nat): (r: int)
    requires at + 2 <= |b|
    ensures 0 <= r < 0x1_0000
  {
    b[at] as int + 256 * b[at + 1] as int
  }

  function ReadU32(b: seq<byte>, at: nat): (r: int)
    requires at + 4 <= |b|
    ensures 0 <= r < UINT32_LIMIT
  {
    ReadU16(b, at) + 0x1_0000 * ReadU16(b, at + 2)
  }

  function ReadI16(b: seq<byte>, at: nat): (r: int)
    requires at + 2 <= |b|
    ensures -0x8000 <= r < 0x8000
  {
    var u := ReadU16(b, at);
    if u >= 0x8000 then u - 0x1_0000 else u
  }

  /** The two bytes of `w` stand at `at` and `at + 1` of `b`. */
  predicate Placed2(b: seq<byte>, at: nat, w: seq<byte>)
    requires |w| == 2
  {
    at + 2 <= |b| && b[at] == w[0] && b[at + 1] == w[1]
  }

  /** The four bytes of `w` stand at `at` .. `at + 3` of `b`. */
  predicate Placed4(b: seq<byte>, at: nat, w: seq<byte>)
    requires |w| == 4
  {
    at + 4 <= |b| && b[at] == w[0] && b[at + 1] == w[1] && b[at + 2] == w[2] && b[at + 3] == w[3]
  }

  /** A 16-bit field written at `at` reads back as its value. */
  lemma U16At(b: seq<byte>, at: nat, v: int)
    requires 0 <= v < 0x1_0000
    requires Placed2(b, at, U16Bytes(v))
    ensures ReadU16(b, at) == v
  {
    assert b[at] as int == v % 256 && b[at + 1] as int == v / 256;
  }

  /** A 32-bit field written at `at` reads back as its value. */
  lemma U32At(b: seq<byte>, at: nat, v: int)
    requires 0 <= v < UINT32_LIMIT
    requires Placed4(b, at, U32Bytes(v))
    ensures ReadU32(b, at) == v
  {
    var lo, hi := U16Bytes(v % 0x1_0000), U16Bytes(v / 0x1_0000);
    assert U32Bytes(v)[0] == lo[0] && U32Bytes(v)[1] == lo[1];
    assert U32Bytes(v)[2] == hi[0] && U32Bytes(v)[3] == hi[1];
    U16At(b, at, v % 0x1_0000);
    U16At(b, at + 2, v / 0x1_0000);
  }

  /** A sample written at `at` reads back as its value. */
  lemma I16At(b: seq<byte>, at: nat, v: int)
    requires -0x8000 <= v < 0x8000
    requires Placed2(b, at, I16Bytes(v))
    ensures ReadI16(b, at) == v
  {
    U16At(b, at, if v < 0 then v + 0x1_0000 else v);
  }

  lemma U32RoundTrip(v: int)
    requires 0 <= v < UINT32_LIMIT
    ensures ReadU32(U32Bytes(v), 0) == v
  {
    U32At(U32Bytes(v), 0, v);
  }

  lemma I16RoundTrip(v: int)
    requires -0x8000 <= v < 0x8000
    ensures ReadI16(I16Bytes(v), 0) == v
  {
    I16At(I16Bytes(v), 0, v);
  }

  // ---------------------------------------------------------------------
  // ASCII tags
  // ---------------------------------------------------------------------

  /** The chunk tags as `buffer.write` stores them: one ASCII byte per character. */
  const RIFF: seq<byte> := [0x52, 0x49, 0x46, 0x46]  // "RIFF"
  const WAVE: seq<byte> := [0x57, 0x41, 0x56, 0x45]  // "WAVE"
  const FMT: seq<byte> := [0x66, 0x6d, 0x74, 0x20]   // "fmt "
  const DATA: seq<byte> := [0x64, 0x61, 0x74, 0x61]  // "data"

  // ---------------------------------------------------------------------
  // Writing
  // ---------------------------------------------------------------------

  /** `Math.max(-1, Math.min(1, x)) * 0x7fff` on an already-scaled sample: clamped to ±32767. */
  function Clamp(s: int): (r: int)
    ensures -FULL_SCALE <= r <= FULL_SCALE
    ensures -FULL_SCALE <= s <= FULL_SCALE ==> r == s
    ensures s > FULL_SCALE ==> r == FULL_SCALE
    ensures s < -FULL_SCALE ==> r == -FULL_SCALE
  {
    if s > FULL_SCALE then FULL_SCALE else if s < -FULL_SCALE then -FULL_SCALE else s
  }

  /** The data chunk: each clamped sample as two bytes, in order. */
  function SampleBytes(samples: seq<int>): (r: seq<byte>)
    ensures |r| == 2 * |samples|
  {
    if |samples| == 0 then [] else I16Bytes(Clamp(samples[0])) + SampleBytes(samples[1..])
  }

  /** Sample i occupies bytes 2i and 2i+1 of the data chunk. */
  lemma {:induction false} SampleBytesAt(samples: seq<int>, i: nat)
    requires i < |samples|
    ensures Placed2(SampleBytes(samples), 2 * i, I16Bytes(Clamp(samples[i])))
    decreases i
  {
    var first := I16Bytes(Clamp(samples[0]));
    var rest := SampleBytes(samples[1..]);
    assert SampleBytes(samples) == first + rest;
    if i > 0 {
      SampleBytesAt(samples[1..], i - 1);
      assert samples[1..][i - 1] == samples[i];
    }
  }

  /**
   * Byte `i` of the 44-byte header for `n` samples at `sampleRate`, by
   * offset: the RIFF chunk header (tag, size of the rest, form type), the
   * `fmt ` chunk (tag, size 16, PCM, mono, rate, byte rate, block alignment,
   * bits per sample) and the `data` chunk header (tag, sample bytes).
   */
  function HeaderByte(n: nat, sampleRate: int, i: nat): byte
    requires 36 + 2 * n < UINT32_LIMIT
    requires 0 <= sampleRate && 2 * sampleRate < UINT32_LIMIT
    requires i < 44
  {
    if i < 4 then RIFF[i]
    else if i < 8 then U32Bytes(36 + 2 * n)[i - 4]
    else if i < 12 then WAVE[i - 8]
    else if i < 16 then FMT[i - 12]
    else if i < 20 then U32Bytes(FMT_CHUNK_SIZE)[i - 16]
    else if i < 22 then U16Bytes(PCM_FORMAT)[i - 20]
    else if i < 24 then U16Bytes(MONO)[i - 22]
    else if i < 28 then U32Bytes(sampleRate)[i - 24]
    else if i < 32 then U32Bytes(2 * sampleRate)[i - 28]
    else if i < 34 then U16Bytes(BLOCK_ALIGN)[i - 32]
    else if i < 36 then U16Bytes(BITS_PER_SAMPLE)[i - 34]
    else if i < 40 then DATA[i - 36]
    else U32Bytes(2 * n)[i - 40]
  }

  /** The header: 44 bytes, each as `HeaderByte` places it. Every 32-bit field must fit. */
  function Header(n: nat, sampleRate: int): (r: seq<byte>)
    requires 36 + 2 * n < UINT32_LIMIT
    requires 0 <= sampleRate && 2 * sampleRate < UINT32_LIMIT
    ensures |r| == 44
  {
    seq(44, i requires 0 <= i < 44 => HeaderByte(n, sampleRate, i))
  }

  /**
   * `writeWAV(file, audioData, sampleRate = 44100)`, without the file write:
   * the buffer, or the range error `writeUInt32LE` throws for the first
   * 32-bit field that does not fit.
   */
  function WriteWav(samples: seq<int>, sampleRate: Option<int>): (r: Result<seq<byte>, WavError>)
    ensures var rate := sampleRate.GetOr(44100);
      r.Ok? <==> 36 + 2 * |samples| < 0x1_0000_0000 && 0 <= rate && 2 * rate < 0x1_0000_0000
    ensures r.Ok? ==> |r.value| == 44 + 2 * |samples|
    ensures r.Ok? ==> Placed4(r.value, 0, RIFF) && Placed4(r.value, 8, WAVE) && Placed4(r.value, 12, FMT) && Placed4(r.value, 36, DATA)
    ensures r.Ok? ==> ReadU32(r.value, 4) == |r.value| - 8 && ReadU32(r.value, 40) == 2 * |samples|
  {
    var n := |samples|;
    var rate := sampleRate.GetOr(DEFAULT_SAMPLE_RATE);
    if 36 + 2 * n >= UINT32_LIMIT then Err(FieldOutOfRange(4, 36 + 2 * n))
    else if rate < 0 || rate >= UINT32_LIMIT then Err(FieldOutOfRange(24, rate))
    else if 2 * rate >= UINT32_LIMIT then Err(FieldOutOfRange(28, 2 * rate))
    else
      HeaderFields(n, rate, SampleBytes(samples));
      Ok(Header(n, rate) + SampleBytes(samples))
  }

  /** Where each header field lands in a buffer that starts with the header, and the value read back from it. */
  lemma HeaderFields(n: nat, sampleRate: int, tail: seq<byte>)
    requires 36 + 2 * n < UINT32_LIMIT
    requires 0 <= sampleRate && 2 * sampleRate < UINT32_LIMIT
    ensures var b := Header(n, sampleRate) + tail;
      && Placed4(b, 0, RIFF) && Placed4(b, 8, WAVE) && Placed4(b, 12, FMT) && Placed4(b, 36, DATA)
      && ReadU32(b, 4) == 36 + 2 * n
      && ReadU32(b, 16) == 16 && ReadU16(b, 20) == 1 && ReadU16(b, 22) == 1
      && ReadU32(b, 24) == sampleRate && ReadU32(b, 28) == 2 * sampleRate
      && ReadU16(b, 32) == 2 && ReadU16(b, 34) == 16
      && ReadU32(b, 40) == 2 * n
  {
    var h := Header(n, sampleRate);
    var b := h + tail;
    assert forall i :: 0 <= i < 44 ==> b[i] == h[i];
    U32At(b, 4, 36 + 2 * n);
    U32At(b, 16, FMT_CHUNK_SIZE);
    U16At(b, 20, PCM_FORMAT);
    U16At(b, 22, MONO);
    U32At(b, 24, sampleRate);
    U32At(b, 28, 2 * sampleRate);
    U16At(b, 32, BLOCK_ALIGN);
    U16At(b, 34, BITS_PER_SAMPLE);
    U32At(b, 40, 2 * n);
  }

  // ---------------------------------------------------------------------
  // Reading
  // ---------------------------------------------------------------------

  /** The samples stored from byte `at` on, two bytes each. */
  function ReadSamples(b: seq<byte>, at: nat, n: nat): (r: seq<int>)
    requires at + 2 * n <= |b|
    ensures |r| == n
    ensures forall i :: 0 <= i < n ==> r[i] == ReadI16(b, at + 2 * i)
  {
    seq(n, i requires 0 <= i < n => ReadI16(b, at + 2 * i))
  }

  /**
   * Parses the layout the writer produces: the four tags, PCM mono 16-bit
   * format fields with a consistent byte rate, and size fields that agree
   * with the buffer's length. Anything else is rejected.
   */
  function ReadWav(b: seq<byte>): (r: Option<WavFile>)
    ensures r.Some? ==> |b| >= 44 && |r.value.samples| == (|b| - 44) / 2
    ensures r.Some? ==> forall i :: 0 <= i < |r.value.samples| ==> -0x8000 <= r.value.samples[i] < 0x8000
  {
    if |b| < HEADER_SIZE || (|b| - HEADER_SIZE) % 2 != 0 then None
    else if !Placed4(b, 0, RIFF) || !Placed4(b, 8, WAVE) || !Placed4(b, 12, FMT) || !Placed4(b, 36, DATA) then None
    else if ReadU32(b, 4) != |b| - 8 || ReadU32(b, 40) != |b| - HEADER_SIZE then None
    else if ReadU32(b, 16) != FMT_CHUNK_SIZE || ReadU16(b, 20) != PCM_FORMAT || ReadU16(b, 22) != MONO then None
    else if ReadU32(b, 28) != 2 * ReadU32(b, 24) || ReadU16(b, 32) != BLOCK_ALIGN || ReadU16(b, 34) != BITS_PER_SAMPLE then None
    else Some(WavFile(ReadU32(b, 24), ReadSamples(b, HEADER_SIZE, (|b| - HEADER_SIZE) / 2)))
  }

  /** A buffer whose header fields hold the writer's values for `n` samples at `rate` is accepted, with those samples. */
  lemma ReadWavAccepts(b: seq<byte>, n: nat, rate: int)
    requires |b| == 44 + 2 * n
    requires Placed4(b, 0, RIFF) && Placed4(b, 8, WAVE) && Placed4(b, 12, FMT) && Placed4(b, 36, DATA)
    requires ReadU32(b, 4) == 36 + 2 * n && ReadU32(b, 40) == 2 * n
    requires ReadU32(b, 16) == 16 && ReadU16(b, 20) == 1 && ReadU16(b, 22) == 1
    requires ReadU32(b, 24) == rate && ReadU32(b, 28) == 2 * rate
    requires ReadU16(b, 32) == 2 && ReadU16(b, 34) == 16
    ensures ReadWav(b) == Some(WavFile(rate, ReadSamples(b, HEADER_SIZE, n)))
  {
    assert (|b| - HEADER_SIZE) / 2 == n;
  }

  /** The clamped samples, as the writer stores them. */
  function ClampAll(samples: seq<int>): (r: seq<int>)
    ensures |r| == |samples|
    ensures forall i :: 0 <= i < |r| ==> r[i] == Clamp(samples[i])
  {
    seq(|samples|, i requires 0 <= i < |samples| => Clamp(samples[i]))
  }

  /** A sample stored at offset `at` of a data chunk reads back at `|h| + at` behind a header `h`. */
  lemma I16Behind(h: seq<byte>, data: seq<byte>, at: nat, v: int)
    requires -0x8000 <= v < 0x8000
    requires Placed2(data, at, I16Bytes(v))
    ensures ReadI16(h + data, |h| + at) == v
  {
    var b := h + data;
    assert b[|h| + at] == data[at] && b[|h| + at + 1] == data[at + 1];
    I16At(b, |h| + at, v);
  }

  /** Sample i of the data chunk, read at its offset behind a 44-byte header, is the clamped original. */
  lemma SampleReadBack(h: seq<byte>, samples: seq<int>, i: nat)
    requires |h| == HEADER_SIZE && i < |samples|
    ensures ReadI16(h + SampleBytes(samples), HEADER_SIZE + 2 * i) == Clamp(samples[i])
  {
    SampleBytesAt(samples, i);
    I16Behind(h, SampleBytes(samples), 2 * i, Clamp(samples[i]));
  }

  /** The samples read back from a header followed by the data chunk are the clamped originals. */
  lemma SamplesReadBack(h: seq<byte>, samples: seq<int>)
    requires |h| == HEADER_SIZE
    ensures ReadSamples(h + SampleBytes(samples), HEADER_SIZE, |samples|) == ClampAll(samples)
  {
    var read := ReadSamples(h + SampleBytes(samples), HEADER_SIZE, |samples|);
    var want := ClampAll(samples);
    forall i | 0 <= i < |samples|
      ensures read[i] == want[i]
    {
      SampleReadBack(h, samples, i);
    }
  }

  /**
   * Reading back what the writer produced recovers the sample rate (44100
   * when none was given) and every sample, clamped to ±32767.
   */
  lemma WriteThenRead(samples: seq<int>, sampleRate: Option<int>)
    requires WriteWav(samples, sampleRate).Ok?
    ensures ReadWav(WriteWav(samples, sampleRate).value) == Some(WavFile(sampleRate.GetOr(44100), ClampAll(samples)))
  {
    var n := |samples|;
    var rate := sampleRate.GetOr(DEFAULT_SAMPLE_RATE);
    var h := Header(n, rate);
    var b := h + SampleBytes(samples);
    assert WriteWav(samples, sampleRate).value == b;
    HeaderFields(n, rate, SampleBytes(samples));
    ReadWavAccepts(b, n, rate);
    SamplesReadBack(h, samples);
  }

  /** Without an explicit rate the header's rate field reads 44100 and the byte rate 88200. */
  lemma DefaultRate(samples: seq<int>)
    requires 36 + 2 * |samples| < 0x1_0000_0000
    ensures WriteWav(samples, None).Ok?
    ensures ReadU32(WriteWav(samples, None).value, 24) == 44100
    ensures ReadU32(WriteWav(samples, None).value, 28) == 88200
  {
    HeaderFields(|samples|, 44100, SampleBytes(samples));
  }
}
