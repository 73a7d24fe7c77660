/** The binary helpers of services/geminiService.ts: `decodeBase64`, which
    turns Base64 text into bytes, and `createWavBlob`, which puts a 44-byte
    RIFF WAVE header (a `fmt ` chunk for WAVE_FORMAT_PCM, then the `data`
    chunk, as in the Microsoft/IBM Multimedia Programming Interface and Data
    Specifications 1.0) in front of 16-bit mono PCM samples. */
module GeminiService {
  import opened Wrappers
  import opened WebCodec

  /** The sample rate `createWavBlob` uses when none is given. */
  const DefaultSampleRate: int := 24000

  const WavHeaderSize: nat := 44

  /** `ToUint32`, the conversion `DataView.setUint32` applies to its value. */
  function ToUint32(v: int): (r: nat)
    ensures r < 0x1_0000_0000
    ensures 0 <= v < 0x1_0000_0000 ==> r == v
  {
    v % 0x1_0000_0000
  }

  function ToUint16(v: int): (r: nat)
    ensures r < 0x1_0000
    ensures 0 <= v < 0x1_0000 ==> r == v
  {
    v % 0x1_0000
  }

  /** The four bytes of a 32-bit value, least significant first. */
  function LittleEndian32(v: int): (r: seq<byte>)
    ensures |r| == 4
  {
    var u := ToUint32(v);
    [u % 256, u / 256 % 256, u / 256 / 256 % 256, u / 256 / 256 / 256]
  }

  function BigEndian32(v: int): (r: seq<byte>)
    ensures |r| == 4
  {
    var le := LittleEndian32(v);
    [le[3], le[2], le[1], le[0]]
  }

  function LittleEndian16(v: int): (r: seq<byte>)
    ensures |r| == 2
  {
    var u := ToUint16(v);
    [u % 256, u / 256]
  }

  /** The RIFF chunk header: the tag "RIFF", the size of what follows it
      (the 36 remaining header bytes plus the data), and the form type
      "WAVE". Tags are written as big-endian words, sizes little-endian. */
  function RiffHeader(dataLength: nat): (h: seq<byte>)
    ensures |h| == 12
  {
    BigEndian32(0x52494646) + LittleEndian32(36 + dataLength) + BigEndian32(0x57415645)
  }

  /** The `fmt ` chunk for WAVE_FORMAT_PCM, 16-bit mono. */
  function FmtChunk(sampleRate: int): (h: seq<byte>)
    ensures |h| == 24
  {
    BigEndian32(0x666d7420)              // "fmt "
    + LittleEndian32(16)                 // chunk size
    + LittleEndian16(1)                  // WAVE_FORMAT_PCM
    + LittleEndian16(1)                  // channels
    + LittleEndian32(sampleRate)
    + LittleEndian32(sampleRate * 2)     // byte rate
    + LittleEndian16(2)                  // block align
    + LittleEndian16(16)                 // bits per sample
  }

  /** The header of the `data` chunk. */
  function DataHeader(dataLength: nat): (h: seq<byte>)
    ensures |h| == 8
  {
    BigEndian32(0x64617461) + LittleEndian32(dataLength)
  }

  /** The 44-byte header `createWavBlob` writes for `dataLength` PCM bytes. */
  function WavHeader(dataLength: nat, sampleRate: int): (h: seq<byte>)
    ensures |h| == WavHeaderSize
  {
    RiffHeader(dataLength) + FmtChunk(sampleRate) + DataHeader(dataLength)
  }

  // A reader for the header, independent of how it was written.

  function ReadLittleEndian32(h: seq<byte>, at: nat): nat
    requires at + 4 <= |h|
  {
    h[at] as int + 256 * (h[at + 1] as int + 256 * (h[at + 2] as int + 256 * h[at + 3] as int))
  }

  function ReadLittleEndian16(h: seq<byte>, at: nat): nat
    requires at + 2 <= |h|
  {
    h[at] as int + 256 * h[at + 1] as int
  }

  /** The bytes of an ASCII tag. */
  function Tag(s: string): (r: seq<int>)
    ensures |r| == |s|
  {
    seq(|s|, i requires 0 <= i < |s| => s[i] as int)
  }

  datatype WavFormat = WavFormat(
    riffSize: nat,
    fmtSize: nat,
    audioFormat: nat,
    channels: nat,
    sampleRate: nat,
    byteRate: nat,
    blockAlign: nat,
    bitsPerSample: nat,
    dataSize: nat)

  /** Reads the fields of a canonical 44-byte header; None when a tag is
      not where the layout puts it. */
  function ParseWavHeader(h: seq<byte>): (r: Option<WavFormat>)
  {
    if |h| < WavHeaderSize || h[0..4] != Tag("RIFF") || h[8..12] != Tag("WAVE")
       || h[12..16] != Tag("fmt ") || h[36..40] != Tag("data")
    then None
    else Some(WavFormat(
      ReadLittleEndian32(h, 4), ReadLittleEndian32(h, 16),
      ReadLittleEndian16(h, 20), ReadLittleEndian16(h, 22),
      ReadLittleEndian32(h, 24), ReadLittleEndian32(h, 28),
      ReadLittleEndian16(h, 32), ReadLittleEndian16(h, 34),
      ReadLittleEndian32(h, 40)))
  }

  lemma ReadWritten32(v: int, h: seq<byte>, at: nat)
    requires at + 4 <= |h| && h[at..at + 4] == LittleEndian32(v)
    ensures ReadLittleEndian32(h, at) == ToUint32(v)
  {
    var w := h[at..at + 4];
    assert h[at] == w[0] && h[at + 1] == w[1] && h[at + 2] == w[2] && h[at + 3] == w[3];
  }

  lemma ReadWritten16(v: int, h: seq<byte>, at: nat)
    requires at + 2 <= |h| && h[at..at + 2] == LittleEndian16(v)
    ensures ReadLittleEndian16(h, at) == ToUint16(v)
  {
    var w := h[at..at + 2];
    assert h[at] == w[0] && h[at + 1] == w[1];
  }

  /** Bytes holding `a + b` hold `a`, then `b`. */
  lemma Peel(h: seq<byte>, at: nat, a: seq<byte>, b: seq<byte>)
    requires at + |a| + |b| <= |h| && h[at..at + |a| + |b|] == a + b
    ensures h[at..at + |a|] == a && h[at + |a|..at + |a| + |b|] == b
  {
    assert h[at..at + |a|] == (a + b)[..|a|];
    assert h[at + |a|..at + |a| + |b|] == (a + b)[|a|..];
  }

  lemma RiffHeaderFields(dataLength: nat, h: seq<byte>)
    requires |h| >= 12 && h[..12] == RiffHeader(dataLength)
    ensures h[0..4] == Tag("RIFF") && h[8..12] == Tag("WAVE")
    ensures ReadLittleEndian32(h, 4) == ToUint32(36 + dataLength)
  {
    var tag := BigEndian32(0x52494646);
    var size := LittleEndian32(36 + dataLength);
    assert h[0..12] == h[..12];
    Peel(h, 0, tag + size, BigEndian32(0x57415645));
    Peel(h, 0, tag, size);
  }

  /** Where each field of the `fmt ` chunk sits in a header holding it. */
  lemma FmtChunkLayout(sampleRate: int, h: seq<byte>)
    requires |h| >= 36 && h[12..36] == FmtChunk(sampleRate)
    ensures h[12..16] == BigEndian32(0x666d7420) && h[16..20] == LittleEndian32(16)
    ensures h[20..22] == LittleEndian16(1) && h[22..24] == LittleEndian16(1)
    ensures h[24..28] == LittleEndian32(sampleRate) && h[28..32] == LittleEndian32(sampleRate * 2)
    ensures h[32..34] == LittleEndian16(2) && h[34..36] == LittleEndian16(16)
  {
    var a1 := BigEndian32(0x666d7420);
    var a2 := a1 + LittleEndian32(16);
    var a3 := a2 + LittleEndian16(1);
    var a4 := a3 + LittleEndian16(1);
    var a5 := a4 + LittleEndian32(sampleRate);
    var a6 := a5 + LittleEndian32(sampleRate * 2);
    var a7 := a6 + LittleEndian16(2);
    Peel(h, 12, a7, LittleEndian16(16));
    Peel(h, 12, a6, LittleEndian16(2));
    Peel(h, 12, a5, LittleEndian32(sampleRate * 2));
    Peel(h, 12, a4, LittleEndian32(sampleRate));
    Peel(h, 12, a3, LittleEndian16(1));
    Peel(h, 12, a2, LittleEndian16(1));
    Peel(h, 12, a1, LittleEndian32(16));
  }

  lemma FmtChunkFields(sampleRate: int, h: seq<byte>)
    requires |h| >= 36 && h[12..36] == FmtChunk(sampleRate)
    ensures h[12..16] == Tag("fmt ")
    ensures ReadLittleEndian32(h, 16) == 16 && ReadLittleEndian16(h, 20) == 1
    ensures ReadLittleEndian16(h, 22) == 1 && ReadLittleEndian32(h, 24) == ToUint32(sampleRate)
    ensures ReadLittleEndian32(h, 28) == ToUint32(sampleRate * 2)
    ensures ReadLittleEndian16(h, 32) == 2 && ReadLittleEndian16(h, 34) == 16
  {
    FmtChunkLayout(sampleRate, h);
    ReadWritten32(16, h, 16);
    ReadWritten16(1, h, 20);
    ReadWritten16(1, h, 22);
    ReadWritten32(sampleRate, h, 24);
    ReadWritten32(sampleRate * 2, h, 28);
    ReadWritten16(2, h, 32);
    ReadWritten16(16, h, 34);
  }

  lemma DataHeaderFields(dataLength: nat, h: seq<byte>)
    requires |h| >= 44 && h[36..44] == DataHeader(dataLength)
    ensures h[36..40] == Tag("data")
    ensures ReadLittleEndian32(h, 40) == ToUint32(dataLength)
  {
    Peel(h, 36, BigEndian32(0x64617461), LittleEndian32(dataLength));
    ReadWritten32(dataLength, h, 40);
  }

  /** Reading back the header gives the fields that were written, with the
      tags in place. */
  lemma ParseWavHeaderRoundTrip(dataLength: nat, sampleRate: int)
    ensures ParseWavHeader(WavHeader(dataLength, sampleRate)) == Some(WavFormat(
      ToUint32(36 + dataLength), 16, 1, 1, ToUint32(sampleRate), ToUint32(sampleRate * 2),
      2, 16, ToUint32(dataLength)))
  {
    var h := WavHeader(dataLength, sampleRate);
    assert h[..12] == RiffHeader(dataLength);
    assert h[12..36] == FmtChunk(sampleRate);
    assert h[36..44] == DataHeader(dataLength);
    RiffHeaderFields(dataLength, h);
    FmtChunkFields(sampleRate, h);
    DataHeaderFields(dataLength, h);
  }

  /** The header describes itself consistently: the byte rate is the sample
      rate times the block size, a block is one sample of every channel,
      and the RIFF size counts the 36 header bytes after it plus the data. */
  lemma WavHeaderConsistent(dataLength: nat, sampleRate: nat)
    requires 36 + dataLength < 0x1_0000_0000 && 2 * sampleRate < 0x1_0000_0000
    ensures var f := ParseWavHeader(WavHeader(dataLength, sampleRate)).value;
      && f.byteRate == f.sampleRate * f.blockAlign
      && f.blockAlign == f.channels * f.bitsPerSample / 8
      && f.riffSize == 36 + f.dataSize
      && f.dataSize == dataLength
      && f.sampleRate == sampleRate
  {
    ParseWavHeaderRoundTrip(dataLength, sampleRate);
  }

  /** The bytes `s` with those from `at` on overwritten by `b`. */
  function Splice(s: seq<byte>, at: nat, b: seq<byte>): (r: seq<byte>)
    requires at + |b| <= |s|
    ensures |r| == |s| && r[at..at + |b|] == b
  {
    s[..at] + b + s[at + |b|..]
  }

  /** Two writes side by side are one write of both. */
  lemma SpliceAdjacent(s: seq<byte>, at: nat, b1: seq<byte>, b2: seq<byte>)
    requires at + |b1| + |b2| <= |s|
    ensures Splice(Splice(s, at, b1), at + |b1|, b2) == Splice(s, at, b1 + b2)
  {
    var t := Splice(s, at, b1);
    assert t[..at + |b1|] == s[..at] + b1;
    assert t[at + |b1| + |b2|..] == s[at + |b1| + |b2|..];
  }

  /** `DataView.setUint32(offset, value, littleEndian)`. */
  method SetUint32(view: array<byte>, offset: nat, value: int, littleEndian: bool)
    requires offset + 4 <= view.Length
    modifies view
    ensures view[..] == Splice(old(view[..]), offset, if littleEndian then LittleEndian32(value) else BigEndian32(value))
  {
    var b := if littleEndian then LittleEndian32(value) else BigEndian32(value);
    view[offset], view[offset + 1], view[offset + 2], view[offset + 3] := b[0], b[1], b[2], b[3];
    assert view[..] == Splice(old(view[..]), offset, b);
  }

  /** `DataView.setUint16(offset, value, true)`. */
  method SetUint16(view: array<byte>, offset: nat, value: int)
    requires offset + 2 <= view.Length
    modifies view
    ensures view[..] == Splice(old(view[..]), offset, LittleEndian16(value))
  {
    var b := LittleEndian16(value);
    view[offset], view[offset + 1] := b[0], b[1];
    assert view[..] == Splice(old(view[..]), offset, b);
  }

  /** `decodeBase64`: `atob`, then one byte per character of its result.
      None stands for the exception `atob` throws on malformed input. */
  method DecodeBase64(base64: string) returns (r: Option<array<byte>>)
    ensures r.None? <==> Atob(base64).None?
    ensures r.Some? ==> fresh(r.value) && r.value[..] == Latin1Bytes(Atob(base64).value)
  {
    var decoded := Atob(base64);
    if decoded.None? {
      return None;
    }
    var binaryString := decoded.value;
    var bytes := new byte[|binaryString|];
    for i := 0 to |binaryString|
      invariant forall j :: 0 <= j < i ==> bytes[j] == binaryString[j] as int
    {
      bytes[i] := binaryString[i] as int;
    }
    assert bytes[..] == Latin1Bytes(binaryString);
    return Some(bytes);
  }

  /** The RIFF header writes of `createWavBlob`: bytes 0 to 12. */
  method WriteRiffHeader(view: array<byte>, dataLength: nat)
    requires 12 <= view.Length
    modifies view
    ensures view[..] == Splice(old(view[..]), 0, RiffHeader(dataLength))
  {
    ghost var s := view[..];
    SetUint32(view, 0, 0x52494646, false);
    SetUint32(view, 4, 36 + dataLength, true);
    SpliceAdjacent(s, 0, BigEndian32(0x52494646), LittleEndian32(36 + dataLength));
    SetUint32(view, 8, 0x57415645, false);
    SpliceAdjacent(s, 0, BigEndian32(0x52494646) + LittleEndian32(36 + dataLength), BigEndian32(0x57415645));
  }

  /** The `fmt ` sub-chunk writes of `createWavBlob`: bytes 12 to 36. */
  method WriteFmtChunk(view: array<byte>, sampleRate: int)
    requires 36 <= view.Length
    modifies view
    ensures view[..] == Splice(old(view[..]), 12, FmtChunk(sampleRate))
  {
    ghost var s := view[..];
    ghost var w: seq<byte> := BigEndian32(0x666d7420);
    SetUint32(view, 12, 0x666d7420, false);
    SetUint32(view, 16, 16, true);
    SpliceAdjacent(s, 12, w, LittleEndian32(16));
    w := w + LittleEndian32(16);
    SetUint16(view, 20, 1);
    SpliceAdjacent(s, 12, w, LittleEndian16(1));
    w := w + LittleEndian16(1);
    SetUint16(view, 22, 1);
    SpliceAdjacent(s, 12, w, LittleEndian16(1));
    w := w + LittleEndian16(1);
    SetUint32(view, 24, sampleRate, true);
    SpliceAdjacent(s, 12, w, LittleEndian32(sampleRate));
    w := w + LittleEndian32(sampleRate);
    SetUint32(view, 28, sampleRate * 2, true);
    SpliceAdjacent(s, 12, w, LittleEndian32(sampleRate * 2));
    w := w + LittleEndian32(sampleRate * 2);
    SetUint16(view, 32, 2);
    SpliceAdjacent(s, 12, w, LittleEndian16(2));
    w := w + LittleEndian16(2);
    SetUint16(view, 34, 16);
    SpliceAdjacent(s, 12, w, LittleEndian16(16));
  }

  /** The `data` sub-chunk header writes of `createWavBlob`: bytes 36 to 44. */
  method WriteDataHeader(view: array<byte>, dataLength: nat)
    requires 44 <= view.Length
    modifies view
    ensures view[..] == Splice(old(view[..]), 36, DataHeader(dataLength))
  {
    ghost var s := view[..];
    SetUint32(view, 36, 0x64617461, false);
    SetUint32(view, 40, dataLength, true);
    SpliceAdjacent(s, 36, BigEndian32(0x64617461), LittleEndian32(dataLength));
  }

  /** All header writes of `createWavBlob`, in the order it makes them. */
  method WriteWavHeader(view: array<byte>, dataLength: nat, sampleRate: int)
    requires WavHeaderSize <= view.Length
    modifies view
    ensures view[..] == Splice(old(view[..]), 0, WavHeader(dataLength, sampleRate))
  {
    ghost var s := view[..];
    WriteRiffHeader(view, dataLength);
    WriteFmtChunk(view, sampleRate);
    SpliceAdjacent(s, 0, RiffHeader(dataLength), FmtChunk(sampleRate));
    WriteDataHeader(view, dataLength);
    SpliceAdjacent(s, 0, RiffHeader(dataLength) + FmtChunk(sampleRate), DataHeader(dataLength));
  }

  /** `Uint8Array.prototype.set`: copies `src` into `dst` from `at` on. */
  method CopyInto(dst: array<byte>, at: nat, src: array<byte>)
    requires at + src.Length <= dst.Length && dst != src
    modifies dst
    ensures dst[..] == Splice(old(dst[..]), at, src[..])
  {
    ghost var s := dst[..];
    for i := 0 to src.Length
      invariant forall j :: 0 <= j < dst.Length ==>
        dst[j] == if at <= j < at + i then src[j - at] else s[j]
    {
      dst[at + i] := src[i];
    }
    assert dst[..] == Splice(s, at, src[..]);
  }

  /** `createWavBlob`: the bytes of the WAV file for the Base64 PCM data,
      header first, then the samples exactly as decoded. Callers that pass
      no rate get 24000 Hz. */
  method CreateWavBlob(pcmBase64: string, sampleRate: int := DefaultSampleRate) returns (r: Option<array<byte>>)
    ensures r.None? <==> Atob(pcmBase64).None?
    ensures r.Some? ==> fresh(r.value)
    ensures r.Some? ==> r.value[..] == WavHeader(|Atob(pcmBase64).value|, sampleRate) + Latin1Bytes(Atob(pcmBase64).value)
  {
    var decoded := DecodeBase64(pcmBase64);
    if decoded.None? {
      return None;
    }
    var pcmData := decoded.value;
    var n := pcmData.Length;
    var buffer := new byte[WavHeaderSize + n];
    ghost var zeros := buffer[..];
    WriteWavHeader(buffer, n, sampleRate);
    // `new Uint8Array(buffer, 44).set(pcmData)`
    CopyInto(buffer, WavHeaderSize, pcmData);
    SpliceAdjacent(zeros, 0, WavHeader(n, sampleRate), pcmData[..]);
    assert buffer[..] == WavHeader(n, sampleRate) + pcmData[..];
    return Some(buffer);
  }
}
