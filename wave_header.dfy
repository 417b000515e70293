/**
 * The canonical 44-byte RIFF/WAVE header that `getWaveHeader` builds for a
 * PCM payload of `fileLength` bytes: mono, 16-bit, 44100 Hz, format tag 1
 * (PCM), as laid out in chapter 3 of the Microsoft/IBM "Multimedia
 * Programming Interface and Data Specifications 1.0".
 */
module WaveHeader {
  import opened Bytes
  import opened Wrappers

  const HEADER_SIZE: nat := 44
  const SAMPLE_RATE: nat := 44100
  const NUM_CHANNELS: nat := 1
  const BITS_PER_SAMPLE: nat := 16
  const BYTE_RATE: nat := SAMPLE_RATE * NUM_CHANNELS * BITS_PER_SAMPLE / 8
  const BLOCK_ALIGN: nat := NUM_CHANNELS * BITS_PER_SAMPLE / 8
  const SUB_CHUNK1_SIZE: nat := 16
  const AUDIO_FORMAT_PCM: nat := 1

  /** The four ASCII tags. */
  const RIFF_TAG: seq<byte> := [0x52, 0x49, 0x46, 0x46]  // "RIFF"
  const WAVE_TAG: seq<byte> := [0x57, 0x41, 0x56, 0x45]  // "WAVE"
  const FMT_TAG: seq<byte> := [0x66, 0x6D, 0x74, 0x20]   // "fmt "
  const DATA_TAG: seq<byte> := [0x64, 0x61, 0x74, 0x61]  // "data"

  /** The header: the RIFF descriptor, the "fmt " chunk and the head of the "data" chunk. */
  function Header(fileLength: nat): (h: seq<byte>)
    ensures |h| == HEADER_SIZE
  {
    RiffDescriptor(fileLength + 36) + FmtChunk() + DataChunkHead(fileLength)
  }

  /** Bytes 0-11: "RIFF", the size of the rest of the file, "WAVE". */
  function RiffDescriptor(chunkSize: nat): (s: seq<byte>)
    ensures |s| == 12
  {
    RIFF_TAG + U32LE(chunkSize) + WAVE_TAG
  }

  /** Bytes 12-35: the "fmt " chunk for mono 16-bit PCM at 44100 Hz, written out byte by byte;
      it does not depend on the payload. `FmtChunkFields` reads its fields back. */
  function FmtChunk(): (s: seq<byte>)
    ensures |s| == 24
  {
    FMT_TAG
    + [16, 0, 0, 0]           // size of the rest of the chunk
    + [1, 0]                  // format tag: PCM
    + [1, 0]                  // channels
    + [0x44, 0xAC, 0, 0]      // samples per second
    + [0x88, 0x58, 0x01, 0]   // average bytes per second
    + [2, 0]                  // block align
    + [16, 0]                 // bits per sample
  }

  /** Bytes 36-43: "data" and the payload size. */
  function DataChunkHead(subChunk2Size: nat): (s: seq<byte>)
    ensures |s| == 8
  {
    DATA_TAG + U32LE(subChunk2Size)
  }

  /** The fields a reader of the header recovers. */
  datatype WaveFormat = WaveFormat(
    chunkSize: nat, subChunk1Size: nat, audioFormat: nat, numChannels: nat,
    sampleRate: nat, byteRate: nat, blockAlign: nat, bitsPerSample: nat,
    subChunk2Size: nat)

  /** Reads a 44-byte canonical header back; `None` when it is too short or a tag is wrong.
      Every field it recovers fits its width: 32 bits for the sizes and rates, 16 for the rest. */
  function ParseHeader(h: seq<byte>): (r: Option<WaveFormat>)
    ensures r.Some? <==> |h| >= HEADER_SIZE && h[0..4] == RIFF_TAG && h[8..12] == WAVE_TAG
                         && h[12..16] == FMT_TAG && h[36..40] == DATA_TAG
    ensures r.Some? ==>
              && r.value.chunkSize < TWO_32 && r.value.subChunk1Size < TWO_32
              && r.value.sampleRate < TWO_32 && r.value.byteRate < TWO_32
              && r.value.subChunk2Size < TWO_32
              && r.value.audioFormat < 0x1_0000 && r.value.numChannels < 0x1_0000
              && r.value.blockAlign < 0x1_0000 && r.value.bitsPerSample < 0x1_0000
  {
    assert Pow256(2) == 0x1_0000 && Pow256(4) == TWO_32;
    if |h| < HEADER_SIZE || h[0..4] != RIFF_TAG || h[8..12] != WAVE_TAG
       || h[12..16] != FMT_TAG || h[36..40] != DATA_TAG
    then None
    else Some(WaveFormat(
      DecodeLE(h[4..8]), DecodeLE(h[16..20]), DecodeLE(h[20..22]), DecodeLE(h[22..24]),
      DecodeLE(h[24..28]), DecodeLE(h[28..32]), DecodeLE(h[32..34]), DecodeLE(h[34..36]),
      DecodeLE(h[40..44])))
  }

  /** `getWaveHeader`: fills a fresh 44-byte array, one section of the header at a time. */
  method GetWaveHeader(fileLength: nat) returns (header: array<byte>)
    ensures fresh(header)
    ensures header[..] == Header(fileLength)
  {
    header := new byte[HEADER_SIZE];
    ghost var s0 := header[..];
    PutRiffDescriptor(header, fileLength + 36);
    ghost var s1 := header[..];
    PutFmtChunkHead(header);
    ghost var s2 := header[..];
    PutFmtChunkRates(header);
    ghost var s3 := header[..];
    PutDataChunkHead(header, fileLength);
    Splice4(s0, s1, s2, s3, header[..], 0, 12, 24, 36, 44);
    HeaderFromSections(header[..], fileLength);
  }

  /** Forty-four bytes holding the four sections as the section writers leave them are the
      header. */
  lemma HeaderFromSections(s: seq<byte>, fileLength: nat)
    requires |s| == HEADER_SIZE
    requires s[0..44] == RiffDescriptor(fileLength + 36)
                         + (FMT_TAG + U32LE(SUB_CHUNK1_SIZE) + U16LE(AUDIO_FORMAT_PCM) + U16LE(NUM_CHANNELS))
                         + (U32LE(SAMPLE_RATE) + U32LE(BYTE_RATE) + U16LE(BLOCK_ALIGN) + U16LE(BITS_PER_SAMPLE))
                         + DataChunkHead(fileLength)
    ensures s == Header(fileLength)
  {
    FmtChunkParts();
    assert s == s[0..44];
  }

  /** Bytes 0-11: "RIFF", the chunk size `fileLength + 36`, "WAVE". */
  method PutRiffDescriptor(header: array<byte>, chunkSize: nat)
    requires header.Length == HEADER_SIZE
    modifies header
    ensures header[0..12] == RiffDescriptor(chunkSize)
    ensures header[12..] == old(header[12..])
  {
    ghost var s0 := header[..];
    PutTag(header, 0, "RIFF");
    ghost var s1 := header[..];
    PutU32(header, 4, chunkSize);
    ghost var s2 := header[..];
    PutTag(header, 8, "WAVE");
    TagsAreAscii();
    Splice3(s0, s1, s2, header[..], 0, 4, 8, 12);
  }

  /** Bytes 12-23: "fmt ", its size 16, format 1 (PCM) and one channel. */
  method PutFmtChunkHead(header: array<byte>)
    requires header.Length == HEADER_SIZE
    modifies header
    ensures header[12..24] == FMT_TAG + U32LE(SUB_CHUNK1_SIZE) + U16LE(AUDIO_FORMAT_PCM) + U16LE(NUM_CHANNELS)
    ensures header[..12] == old(header[..12]) && header[24..] == old(header[24..])
  {
    var subChunk1Size := SUB_CHUNK1_SIZE;
    var audioFormat := AUDIO_FORMAT_PCM;
    var numChannels := NUM_CHANNELS;
    ghost var s0 := header[..];
    PutTag(header, 12, "fmt ");
    ghost var s1 := header[..];
    PutSmallU32(header, 16, subChunk1Size);
    ghost var s2 := header[..];
    PutSmallU16(header, 20, audioFormat);
    ghost var s3 := header[..];
    PutSmallU16(header, 22, numChannels);
    TagsAreAscii();
    Splice4(s0, s1, s2, s3, header[..], 12, 16, 20, 22, 24);
  }

  /** Bytes 24-35: sample rate, byte rate, block align and bits per sample. */
  method PutFmtChunkRates(header: array<byte>)
    requires header.Length == HEADER_SIZE
    modifies header
    ensures header[24..36] == U32LE(SAMPLE_RATE) + U32LE(BYTE_RATE) + U16LE(BLOCK_ALIGN) + U16LE(BITS_PER_SAMPLE)
    ensures header[..24] == old(header[..24]) && header[36..] == old(header[36..])
  {
    var sampleRate := SAMPLE_RATE;
    var numChannels := NUM_CHANNELS;
    var bitsPerSample := BITS_PER_SAMPLE;
    var byteRate := sampleRate * numChannels * bitsPerSample / 8;
    var blockAlign := numChannels * bitsPerSample / 8;
    ghost var s0 := header[..];
    PutU32(header, 24, sampleRate);
    ghost var s1 := header[..];
    PutU32(header, 28, byteRate);
    ghost var s2 := header[..];
    PutSmallU16(header, 32, blockAlign);
    ghost var s3 := header[..];
    PutSmallU16(header, 34, bitsPerSample);
    Splice4(s0, s1, s2, s3, header[..], 24, 28, 32, 34, 36);
  }

  /** Bytes 36-43: "data" and the payload size `fileLength`. */
  method PutDataChunkHead(header: array<byte>, subChunk2Size: nat)
    requires header.Length == HEADER_SIZE
    modifies header
    ensures header[36..44] == DataChunkHead(subChunk2Size)
    ensures header[..36] == old(header[..36])
  {
    ghost var s0 := header[..];
    PutTag(header, 36, "data");
    ghost var s1 := header[..];
    PutU32(header, 40, subChunk2Size);
    TagsAreAscii();
    Splice2(s0, s1, header[..], 36, 40, 44);
  }

  /** `header[k] = c.toByte()` for the four characters `c` of `tag`. */
  method PutTag(header: array<byte>, k: nat, tag: string)
    requires |tag| == 4 && k + 4 <= header.Length
    modifies header
    ensures header[k..k + 4] == Ascii(tag)
    ensures header[..k] == old(header[..k]) && header[k + 4..] == old(header[k + 4..])
  {
    header[k] := ToByte(tag[0] as int);
    header[k + 1] := ToByte(tag[1] as int);
    header[k + 2] := ToByte(tag[2] as int);
    header[k + 3] := ToByte(tag[3] as int);
  }

  /** `header[k + j] = (n shr 8j and 0xff).toByte()` for `j` from 0 to 3. */
  method PutU32(header: array<byte>, k: nat, n: nat)
    requires k + 4 <= header.Length
    modifies header
    ensures header[k..k + 4] == U32LE(n)
    ensures header[..k] == old(header[..k]) && header[k + 4..] == old(header[k + 4..])
  {
    header[k] := ToByte(n);
    header[k + 1] := ToByte(n / 0x100);
    header[k + 2] := ToByte(n / 0x1_0000);
    header[k + 3] := ToByte(n / 0x100_0000);
  }

  /** `header[k] = n.toByte()` and three zero bytes, for a value below 256. */
  method PutSmallU32(header: array<byte>, k: nat, n: nat)
    requires n < 0x100 && k + 4 <= header.Length
    modifies header
    ensures header[k..k + 4] == U32LE(n)
    ensures header[..k] == old(header[..k]) && header[k + 4..] == old(header[k + 4..])
  {
    header[k] := ToByte(n);
    header[k + 1] := 0;
    header[k + 2] := 0;
    header[k + 3] := 0;
  }

  /** `header[k] = n.toByte()` and one zero byte, for a value below 256. */
  method PutSmallU16(header: array<byte>, k: nat, n: nat)
    requires n < 0x100 && k + 2 <= header.Length
    modifies header
    ensures header[k..k + 2] == U16LE(n)
    ensures header[..k] == old(header[..k]) && header[k + 2..] == old(header[k + 2..])
  {
    header[k] := ToByte(n);
    header[k + 1] := 0;
  }

  /** `c.toByte()` for each character of `s`. */
  function Ascii(s: string): (b: seq<byte>)
    ensures |b| == |s| && forall i :: 0 <= i < |s| ==> b[i] == ToByte(s[i] as int)
  {
    seq(|s|, i requires 0 <= i < |s| => ToByte(s[i] as int))
  }

  lemma TagsAreAscii()
    ensures Ascii("RIFF") == RIFF_TAG && Ascii("WAVE") == WAVE_TAG
    ensures Ascii("fmt ") == FMT_TAG && Ascii("data") == DATA_TAG
  {
  }

  /** Two writes at `[a, b)` and `[b, c)` leave `[a, c)` holding both values and the rest as before. */
  lemma Splice2(s0: seq<byte>, s1: seq<byte>, s2: seq<byte>, a: nat, b: nat, c: nat)
    requires a <= b <= c <= |s0| == |s1| == |s2|
    requires s1[..a] == s0[..a] && s1[b..] == s0[b..]
    requires s2[..b] == s1[..b] && s2[c..] == s1[c..]
    ensures s2[a..c] == s1[a..b] + s2[b..c]
    ensures s2[..a] == s0[..a] && s2[c..] == s0[c..]
  {
    assert s2[a..b] == s1[a..b] by {
      assert forall j :: a <= j < b ==> s2[j] == s2[..b][j] == s1[..b][j] == s1[j];
    }
    assert s2[..a] == s0[..a] by {
      assert forall j :: 0 <= j < a ==> s2[j] == s2[..b][j] == s1[..b][j] == s1[j];
    }
    assert s2[c..] == s0[c..] by {
      assert forall j :: c <= j < |s2| ==> s2[j] == s1[j] == s1[b..][j - b] == s0[b..][j - b];
    }
  }

  lemma Splice3(s0: seq<byte>, s1: seq<byte>, s2: seq<byte>, s3: seq<byte>, a: nat, b: nat, c: nat, d: nat)
    requires a <= b <= c <= d <= |s0| == |s1| == |s2| == |s3|
    requires s1[..a] == s0[..a] && s1[b..] == s0[b..]
    requires s2[..b] == s1[..b] && s2[c..] == s1[c..]
    requires s3[..c] == s2[..c] && s3[d..] == s2[d..]
    ensures s3[a..d] == s1[a..b] + s2[b..c] + s3[c..d]
    ensures s3[..a] == s0[..a] && s3[d..] == s0[d..]
  {
    Splice2(s0, s1, s2, a, b, c);
    Splice2(s0, s2, s3, a, c, d);
  }

  lemma Splice4(s0: seq<byte>, s1: seq<byte>, s2: seq<byte>, s3: seq<byte>, s4: seq<byte>,
                a: nat, b: nat, c: nat, d: nat, e: nat)
    requires a <= b <= c <= d <= e <= |s0| == |s1| == |s2| == |s3| == |s4|
    requires s1[..a] == s0[..a] && s1[b..] == s0[b..]
    requires s2[..b] == s1[..b] && s2[c..] == s1[c..]
    requires s3[..c] == s2[..c] && s3[d..] == s2[d..]
    requires s4[..d] == s3[..d] && s4[e..] == s3[e..]
    ensures s4[a..e] == s1[a..b] + s2[b..c] + s3[c..d] + s4[d..e]
    ensures s4[..a] == s0[..a] && s4[e..] == s0[e..]
  {
    Splice3(s0, s1, s2, s3, a, b, c, d);
    Splice2(s0, s3, s4, a, d, e);
  }

  /** The "fmt " chunk is its tag followed by its seven fields, least significant byte first. */
  lemma FmtChunkParts()
    ensures FmtChunk()
            == (FMT_TAG + U32LE(SUB_CHUNK1_SIZE) + U16LE(AUDIO_FORMAT_PCM) + U16LE(NUM_CHANNELS))
               + (U32LE(SAMPLE_RATE) + U32LE(BYTE_RATE) + U16LE(BLOCK_ALIGN) + U16LE(BITS_PER_SAMPLE))
  {
    FmtHeadBytes();
    FmtRateBytes();
    assert FmtChunk() == FmtChunk()[..12] + FmtChunk()[12..];
  }

  lemma FmtHeadBytes()
    ensures FMT_TAG + U32LE(SUB_CHUNK1_SIZE) + U16LE(AUDIO_FORMAT_PCM) + U16LE(NUM_CHANNELS)
            == FmtChunk()[..12]
  {
    assert U32LE(SUB_CHUNK1_SIZE) == [16, 0, 0, 0];
    assert U16LE(AUDIO_FORMAT_PCM) == [1, 0];
    assert U16LE(NUM_CHANNELS) == [1, 0];
  }

  lemma FmtRateBytes()
    ensures U32LE(SAMPLE_RATE) + U32LE(BYTE_RATE) + U16LE(BLOCK_ALIGN) + U16LE(BITS_PER_SAMPLE)
            == FmtChunk()[12..]
  {
    assert U32LE(SAMPLE_RATE) == [0x44, 0xAC, 0, 0];
    assert U32LE(BYTE_RATE) == [0x88, 0x58, 0x01, 0];
    assert U16LE(BLOCK_ALIGN) == [2, 0];
    assert U16LE(BITS_PER_SAMPLE) == [16, 0];
  }

  /** The fields of the header written for `fileLength`; the two sizes wrap modulo 2^32. */
  function Canonical(fileLength: nat): WaveFormat
  {
    WaveFormat((fileLength + 36) % TWO_32, SUB_CHUNK1_SIZE, AUDIO_FORMAT_PCM, NUM_CHANNELS,
               SAMPLE_RATE, BYTE_RATE, BLOCK_ALIGN, BITS_PER_SAMPLE, fileLength % TWO_32)
  }

  /** Parsing the written header gives back the sizes modulo 2^32 and the fixed constants
      16, PCM, mono, 44100 Hz, 88200 bytes per second, block align 2 and 16 bits. */
  lemma ParseWrittenHeader(fileLength: nat)
    ensures ParseHeader(Header(fileLength)) == Some(Canonical(fileLength))
    ensures Canonical(fileLength).byteRate == 88200 && Canonical(fileLength).blockAlign == 2
  {
    WrittenFields(fileLength);
    ParseFields(Header(fileLength));
  }

  /** The tags and the values of the fields of the written header. */
  lemma WrittenFields(fileLength: nat)
    ensures var h := Header(fileLength);
      && h[0..4] == RIFF_TAG && h[8..12] == WAVE_TAG && h[12..16] == FMT_TAG && h[36..40] == DATA_TAG
      && DecodeLE(h[4..8]) == (fileLength + 36) % TWO_32 && DecodeLE(h[40..44]) == fileLength % TWO_32
      && DecodeLE(h[16..20]) == SUB_CHUNK1_SIZE && DecodeLE(h[20..22]) == AUDIO_FORMAT_PCM
      && DecodeLE(h[22..24]) == NUM_CHANNELS && DecodeLE(h[24..28]) == SAMPLE_RATE
      && DecodeLE(h[28..32]) == BYTE_RATE && DecodeLE(h[32..34]) == BLOCK_ALIGN
      && DecodeLE(h[34..36]) == BITS_PER_SAMPLE
  {
    RiffWritten(fileLength);
    FmtWritten(fileLength);
    DataWritten(fileLength);
  }

  lemma RiffWritten(fileLength: nat)
    ensures var h := Header(fileLength);
      h[0..4] == RIFF_TAG && h[8..12] == WAVE_TAG && DecodeLE(h[4..8]) == (fileLength + 36) % TWO_32
  {
    var h, r := Header(fileLength), RiffDescriptor(fileLength + 36);
    assert h[0..4] == r[0..4] && h[4..8] == r[4..8] && h[8..12] == r[8..12];
    RiffFields(fileLength + 36);
  }

  lemma FmtWritten(fileLength: nat)
    ensures var h := Header(fileLength);
      && h[12..16] == FMT_TAG
      && DecodeLE(h[16..20]) == SUB_CHUNK1_SIZE && DecodeLE(h[20..22]) == AUDIO_FORMAT_PCM
      && DecodeLE(h[22..24]) == NUM_CHANNELS && DecodeLE(h[24..28]) == SAMPLE_RATE
      && DecodeLE(h[28..32]) == BYTE_RATE && DecodeLE(h[32..34]) == BLOCK_ALIGN
      && DecodeLE(h[34..36]) == BITS_PER_SAMPLE
  {
    var h, f := Header(fileLength), FmtChunk();
    assert h[12..36] == f;
    assert h[12..16] == f[0..4] && h[16..20] == f[4..8] && h[20..22] == f[8..10] && h[22..24] == f[10..12];
    assert h[24..28] == f[12..16] && h[28..32] == f[16..20] && h[32..34] == f[20..22] && h[34..36] == f[22..24];
    FmtChunkFields();
  }

  lemma DataWritten(fileLength: nat)
    ensures var h := Header(fileLength);
      h[36..40] == DATA_TAG && DecodeLE(h[40..44]) == fileLength % TWO_32
  {
    var h, d := Header(fileLength), DataChunkHead(fileLength);
    assert h[36..40] == d[0..4] && h[40..44] == d[4..8];
    DataFields(fileLength);
  }

  /** The parser reads the first 44 bytes only: whatever follows the header does not change it. */
  lemma ParseIgnoresTail(h: seq<byte>, tail: seq<byte>)
    requires |h| == HEADER_SIZE
    ensures ParseHeader(h + tail) == ParseHeader(h)
  {
    var ht := h + tail;
    assert ht[0..4] == h[0..4] && ht[4..8] == h[4..8] && ht[8..12] == h[8..12];
    assert ht[12..16] == h[12..16] && ht[16..20] == h[16..20] && ht[20..22] == h[20..22];
    assert ht[22..24] == h[22..24] && ht[24..28] == h[24..28] && ht[28..32] == h[28..32];
    assert ht[32..34] == h[32..34] && ht[34..36] == h[34..36] && ht[36..40] == h[36..40];
    assert ht[40..44] == h[40..44];
  }

  /** A header with the four tags in place parses to the values of its fields. */
  lemma ParseFields(h: seq<byte>)
    requires |h| == HEADER_SIZE
    requires h[0..4] == RIFF_TAG && h[8..12] == WAVE_TAG && h[12..16] == FMT_TAG && h[36..40] == DATA_TAG
    ensures ParseHeader(h) == Some(WaveFormat(
      DecodeLE(h[4..8]), DecodeLE(h[16..20]), DecodeLE(h[20..22]), DecodeLE(h[22..24]),
      DecodeLE(h[24..28]), DecodeLE(h[28..32]), DecodeLE(h[32..34]), DecodeLE(h[34..36]),
      DecodeLE(h[40..44])))
  {
  }

  lemma RiffFields(chunkSize: nat)
    ensures var r := RiffDescriptor(chunkSize);
      r[0..4] == RIFF_TAG && r[8..12] == WAVE_TAG && DecodeLE(r[4..8]) == chunkSize % TWO_32
  {
    var r := RiffDescriptor(chunkSize);
    assert r[4..8] == U32LE(chunkSize);
  }

  lemma DataFields(subChunk2Size: nat)
    ensures var d := DataChunkHead(subChunk2Size);
      d[0..4] == DATA_TAG && DecodeLE(d[4..8]) == subChunk2Size % TWO_32
  {
    var d := DataChunkHead(subChunk2Size);
    assert d[4..8] == U32LE(subChunk2Size);
  }

  lemma FmtChunkFields()
    ensures var f := FmtChunk();
      f[0..4] == FMT_TAG
      && DecodeLE(f[4..8]) == SUB_CHUNK1_SIZE && DecodeLE(f[8..10]) == AUDIO_FORMAT_PCM
      && DecodeLE(f[10..12]) == NUM_CHANNELS && DecodeLE(f[12..16]) == SAMPLE_RATE
      && DecodeLE(f[16..20]) == BYTE_RATE && DecodeLE(f[20..22]) == BLOCK_ALIGN
      && DecodeLE(f[22..24]) == BITS_PER_SAMPLE
  {
    var f := FmtChunk();
    assert f[4..8] == [16, 0, 0, 0];
    assert f[8..10] == [1, 0];
    assert f[10..12] == [1, 0];
    assert f[12..16] == [0x44, 0xAC, 0, 0];
    assert f[16..20] == [0x88, 0x58, 0x01, 0];
    assert f[20..22] == [2, 0];
    assert f[22..24] == [16, 0];
    DecodeFour(16, 0, 0, 0);
    DecodeTwo(1, 0);
    DecodeFour(0x44, 0xAC, 0, 0);
    DecodeFour(0x88, 0x58, 0x01, 0);
    DecodeTwo(2, 0);
    DecodeTwo(16, 0);
  }

  /** A reader recovers the payload length `fileLength` and the chunk size `fileLength + 36`
      from the written header exactly when `fileLength + 36` fits in 32 bits. */
  lemma SizesRecoveredIff(fileLength: nat)
    ensures var f := ParseHeader(Header(fileLength));
      f.Some? && (f.value.chunkSize == fileLength + 36 && f.value.subChunk2Size == fileLength
                  <==> fileLength + 36 < TWO_32)
  {
    ParseWrittenHeader(fileLength);
    if fileLength + 36 < TWO_32 {
      DivUnique(fileLength + 36, TWO_32, 0, fileLength + 36);
      DivUnique(fileLength, TWO_32, 0, fileLength);
    } else {
      assert (fileLength + 36) % TWO_32 < TWO_32;
    }
  }

  /** Only bytes 4-7 and 40-43 depend on the payload length; all other bytes are fixed. */
  lemma FixedFieldsIndependent(len1: nat, len2: nat)
    ensures Header(len1)[..4] == Header(len2)[..4] && Header(len1)[8..40] == Header(len2)[8..40]
    ensures Header(len1)[4..8] == Header(len2)[4..8] <==> (len1 + 36) % TWO_32 == (len2 + 36) % TWO_32
    ensures Header(len1)[40..] == Header(len2)[40..] <==> len1 % TWO_32 == len2 % TWO_32
  {
    HeaderSlices(len1);
    HeaderSlices(len2);
    SameU32Iff(len1 + 36, len2 + 36);
    SameU32Iff(len1, len2);
  }

  /** The header cut at the two size fields. */
  lemma HeaderSlices(fileLength: nat)
    ensures var h := Header(fileLength);
      && h[..4] == RIFF_TAG && h[4..8] == U32LE(fileLength + 36)
      && h[8..40] == WAVE_TAG + FmtChunk() + DATA_TAG && h[40..] == U32LE(fileLength)
  {
    HeaderSizeSlices(fileLength);
    HeaderFixedSlices(fileLength);
  }

  lemma HeaderSizeSlices(fileLength: nat)
    ensures var h := Header(fileLength);
      h[4..8] == U32LE(fileLength + 36) && h[40..] == U32LE(fileLength)
  {
    var h, r, d := Header(fileLength), RiffDescriptor(fileLength + 36), DataChunkHead(fileLength);
    assert h[4..8] == r[4..8];
    assert h[40..] == d[4..];
  }

  lemma HeaderFixedSlices(fileLength: nat)
    ensures var h := Header(fileLength);
      h[..4] == RIFF_TAG && h[8..40] == WAVE_TAG + FmtChunk() + DATA_TAG
  {
    var h, r, d := Header(fileLength), RiffDescriptor(fileLength + 36), DataChunkHead(fileLength);
    assert h[..4] == r[..4];
    assert h[8..40] == r[8..12] + FmtChunk() + d[..4];
  }

  /** Two values have the same four bytes exactly when they agree modulo 2^32. */
  lemma SameU32Iff(m: nat, n: nat)
    ensures U32LE(m) == U32LE(n) <==> m % TWO_32 == n % TWO_32
  {
    U32LEMod(m);
    U32LEMod(n);
  }

  /** Conversely, every header that parses to the canonical fields for some payload length
      is exactly the one written for that length. */
  lemma HeaderOfParsed(h: seq<byte>, f: WaveFormat)
    requires |h| == HEADER_SIZE && ParseHeader(h) == Some(f)
    requires f == Canonical(f.subChunk2Size)
    ensures h == Header(f.subChunk2Size)
  {
    var len := f.subChunk2Size;
    ParseFields(h);
    RiffFromFields(h, len + 36);
    FmtFromFields(h);
    DataFromFields(h, len);
    assert h == h[0..12] + h[12..36] + h[36..44];
  }

  /** Bytes 0-11 with the right tags and chunk size are the RIFF descriptor. */
  lemma RiffFromFields(h: seq<byte>, chunkSize: nat)
    requires |h| == HEADER_SIZE && h[0..4] == RIFF_TAG && h[8..12] == WAVE_TAG
    requires DecodeLE(h[4..8]) == chunkSize % TWO_32
    ensures h[0..12] == RiffDescriptor(chunkSize)
  {
    EncodeDecodeU32(h[4..8]);
    U32LEMod(chunkSize);
    assert h[0..12] == h[0..4] + h[4..8] + h[8..12];
  }

  /** Bytes 36-43 with the right tag and size are the head of the "data" chunk. */
  lemma DataFromFields(h: seq<byte>, subChunk2Size: nat)
    requires |h| == HEADER_SIZE && h[36..40] == DATA_TAG
    requires DecodeLE(h[40..44]) == subChunk2Size % TWO_32
    ensures h[36..44] == DataChunkHead(subChunk2Size)
  {
    EncodeDecodeU32(h[40..44]);
    U32LEMod(subChunk2Size);
    assert h[36..44] == h[36..40] + h[40..44];
  }

  /** Bytes 12-35 with the right tag and the canonical field values are the "fmt " chunk. */
  lemma FmtFromFields(h: seq<byte>)
    requires |h| == HEADER_SIZE && h[12..16] == FMT_TAG
    requires DecodeLE(h[16..20]) == SUB_CHUNK1_SIZE && DecodeLE(h[20..22]) == AUDIO_FORMAT_PCM
    requires DecodeLE(h[22..24]) == NUM_CHANNELS && DecodeLE(h[24..28]) == SAMPLE_RATE
    requires DecodeLE(h[28..32]) == BYTE_RATE && DecodeLE(h[32..34]) == BLOCK_ALIGN
    requires DecodeLE(h[34..36]) == BITS_PER_SAMPLE
    ensures h[12..36] == FmtChunk()
  {
    EncodeDecodeU32(h[16..20]);
    EncodeDecodeU16(h[20..22]);
    EncodeDecodeU16(h[22..24]);
    EncodeDecodeU32(h[24..28]);
    EncodeDecodeU32(h[28..32]);
    EncodeDecodeU16(h[32..34]);
    EncodeDecodeU16(h[34..36]);
    FmtSlices(h);
    FmtChunkParts();
  }

  /** Bytes 12-35 are the concatenation of the eight "fmt " field slices. */
  lemma FmtSlices(h: seq<byte>)
    requires |h| == HEADER_SIZE
    ensures h[12..36] == (h[12..16] + h[16..20] + h[20..22] + h[22..24])
                         + (h[24..28] + h[28..32] + h[32..34] + h[34..36])
  {
  }
}
