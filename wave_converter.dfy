/**
 * `convertToWave`: turns the raw PCM capture file into a WAV file by writing
 * the 44-byte header for the capture's length and then copying the capture
 * through a reusable buffer of `minBufferSize` bytes. Also the status test
 * that `stopRecord` applies to the converter's callback.
 *
 * The file system is a map from absolute path to contents. A Kotlin `String?`
 * path is an `Option<string>`. An `IOException` thrown by a write is modelled
 * by `failAfter`: `Some(k)` means the first `k` write calls succeed and the
 * next one throws before writing anything; `None` means no write throws.
 */
module WaveConverter {
  import opened Wrappers
  import opened Bytes
  import WaveHeader

  type FileSystem = map<string, seq<byte>>

  /** What the converter leaves behind: the file system and the status passed to the callback. */
  datatype Outcome = Outcome(fs: FileSystem, status: int)

  const SUCCESS: int := 1
  const FAILURE: int := -1

  /** `Char.isWhitespace()` on the JVM: `Character.isWhitespace` or `Character.isSpaceChar`. */
  predicate IsWhitespace(c: char): (b: bool)
    ensures c == ' ' || c == '\t' || c == '\n' || c == '\r' ==> b
    ensures b ==>
              !('0' <= c <= '9' || 'A' <= c <= 'Z' || 'a' <= c <= 'z' || c == '/' || c == '.')
  {
    ('\U{0009}' <= c <= '\U{000D}') || ('\U{001C}' <= c <= '\U{0020}')
    || c == '\U{00A0}' || c == '\U{1680}' || ('\U{2000}' <= c <= '\U{200A}')
    || c == '\U{2028}' || c == '\U{2029}' || c == '\U{202F}' || c == '\U{205F}'
    || c == '\U{3000}'
  }

  /** `String?.isNullOrBlank()`: null, empty, or whitespace only. */
  predicate IsNullOrBlank(path: Option<string>): (b: bool)
    ensures path == Some("") ==> b
    ensures path.Some? && '/' in path.value ==> !b
  {
    path.None? || forall i :: 0 <= i < |path.value| ==> IsWhitespace(path.value[i])
  }

  /** The two paths name distinct files whenever both pass the blank test; converting a file
      onto itself is outside the model (see README). */
  predicate DistinctPaths(inPath: Option<string>, outPath: Option<string>)
  {
    !IsNullOrBlank(inPath) && !IsNullOrBlank(outPath) ==> inPath.value != outPath.value
  }

  function Min(a: int, b: int): int
  {
    if a <= b then a else b
  }

  /** The zero-filled buffer `ByteArray(minBufferSize)`. */
  function Zeros(n: nat): (z: seq<byte>)
    ensures |z| == n && forall i :: 0 <= i < n ==> z[i] == 0
  {
    seq(n, _ => 0 as byte)
  }

  /** The buffer contents after each `read(data)` from offset `pos`, given the contents `buf`
      before it: a read fills only the first `min(|buf|, remaining)` bytes, the tail keeps
      whatever the previous read left there. Each of these is written out whole. */
  function Chunks(input: seq<byte>, pos: nat, buf: seq<byte>): (cs: seq<seq<byte>>)
    requires pos <= |input| && |buf| > 0
    ensures forall k :: 0 <= k < |cs| ==> |cs[k]| == |buf|
    decreases |input| - pos
  {
    if pos == |input| then []
    else
      var n := Min(|buf|, |input| - pos);
      var next := input[pos..pos + n] + buf[n..];
      [next] + Chunks(input, pos + n, next)
  }

  function Flatten(ss: seq<seq<byte>>): seq<byte>
  {
    if ss == [] then [] else ss[0] + Flatten(ss[1..])
  }

  /** The write calls `convertToWave` makes for an existing input: the header, then (when the
      buffer can be allocated) one full buffer per successful read. */
  function Writes(input: seq<byte>, bufferSize: int): seq<seq<byte>>
  {
    [WaveHeader.Header(|input|)]
      + (if bufferSize > 0 then Chunks(input, 0, Zeros(bufferSize)) else [])
  }

  /** How many of `count` write calls complete before the fault. */
  function Completed(count: nat, failAfter: Option<nat>): (k: nat)
    ensures k <= count
  {
    if failAfter.Some? && failAfter.value < count then failAfter.value else count
  }

  /** The specification of `convertToWave`. With `bufferSize == 0` the source never calls back
      (`read` into an empty array returns 0 forever); the value here for that case is not a
      model of anything, and every lemma about the status excludes it. Nor is the case of two
      usable paths naming the same file, where the source deletes its input before reading it;
      the lemmas about the outcome require `DistinctPaths`. */
  function Convert(fs: FileSystem, inPath: Option<string>, outPath: Option<string>,
                   bufferSize: int, failAfter: Option<nat>): Outcome
  {
    if IsNullOrBlank(inPath) || IsNullOrBlank(outPath) then Outcome(fs, FAILURE)
    else if inPath.value !in fs then Outcome(fs, FAILURE)
    else
      var writes := Writes(fs[inPath.value], bufferSize);
      var k := Completed(|writes|, failAfter);
      Outcome(fs[outPath.value := Flatten(writes[..k])],
              if k == |writes| && bufferSize > 0 then SUCCESS else FAILURE)
  }

  /** `fis.read(data)`: copies the next `min(data.Length, remaining)` bytes of the input to the
      front of `data` and returns how many, or -1 at the end of the input. */
  method Read(data: array<byte>, input: seq<byte>, pos: nat) returns (count: int)
    requires pos <= |input| && data.Length > 0
    modifies data
    ensures pos == |input| ==> count == -1 && data[..] == old(data[..])
    ensures pos < |input| ==>
              && count == Min(data.Length, |input| - pos)
              && data[..] == input[pos..pos + count] + old(data[..])[count..]
  {
    if pos == |input| {
      return -1;
    }
    count := Min(data.Length, |input| - pos);
    for j := 0 to count
      invariant forall k :: 0 <= k < j ==> data[k] == input[pos + k]
      invariant forall k :: j <= k < data.Length ==> data[k] == old(data[k])
    {
      data[j] := input[pos + j];
    }
    assert data[..] == input[pos..pos + count] + old(data[..])[count..];
  }

  /** `convertToWave(inPath, outPath, callback)`: returns the file system afterwards and the
      status handed to `callback`. */
  method ConvertToWave(fs: FileSystem, inPath: Option<string>, outPath: Option<string>,
                       bufferSize: int, failAfter: Option<nat>)
    returns (fs': FileSystem, status: int)
    requires DistinctPaths(inPath, outPath)
    requires bufferSize != 0
    ensures Outcome(fs', status) == Convert(fs, inPath, outPath, bufferSize, failAfter)
  {
    if IsNullOrBlank(inPath) || IsNullOrBlank(outPath) {
      return fs, FAILURE;
    }
    var inFile, outFile := inPath.value, outPath.value;
    if inFile !in fs {
      return fs, FAILURE;
    }
    // The old output is deleted and an empty one created; the stream opened on it truncates.
    fs' := fs[outFile := []];
    var input := fs[inFile];
    var fileLength := |input|;
    ghost var writes := Writes(input, bufferSize);
    var header := WaveHeader.GetWaveHeader(fileLength);
    if failAfter == Some(0) {
      assert writes[..0] == [];
      return fs', FAILURE;
    }
    FlattenOne(header[..]);
    if bufferSize < 0 {
      // `ByteArray(minBufferSize)` throws NegativeArraySizeException after the header is out.
      assert writes[..1] == [header[..]];
      return fs'[outFile := header[..]], FAILURE;
    }
    var data := new byte[bufferSize](_ => 0);
    assert data[..] == Zeros(bufferSize);
    var payload, ok := CopyPayload(input, data, failAfter);
    assert data.Length == bufferSize;
    ghost var cs := Chunks(input, 0, Zeros(bufferSize));
    ghost var k := Completed(|writes|, failAfter);
    assert writes[..k] == [header[..]] + cs[..k - 1];
    FlattenAppend([header[..]], cs[..k - 1]);
    fs' := fs'[outFile := header[..] + payload];
    status := if ok then SUCCESS else FAILURE;
  }

  /** What the copy loop leaves behind when it starts on a buffer holding `buf`: the bytes
      that reached the output and whether the loop ran to the end of the input. The header
      write is call number 0, so the chunks are calls 1, 2, ... */
  function CopyResult(input: seq<byte>, buf: seq<byte>, failAfter: Option<nat>): (seq<byte>, bool)
    requires |buf| > 0 && failAfter != Some(0)
  {
    var cs := Chunks(input, 0, buf);
    var k := Completed(1 + |cs|, failAfter);
    (Flatten(cs[..k - 1]), k == 1 + |cs|)
  }

  /** The copy loop `while (fis.read(data) != -1) fos.write(data)`, entered after the header
      write succeeded. */
  method CopyPayload(input: seq<byte>, data: array<byte>, failAfter: Option<nat>)
    returns (payload: seq<byte>, ok: bool)
    requires data.Length > 0 && failAfter != Some(0)
    modifies data
    ensures (payload, ok) == CopyResult(input, old(data[..]), failAfter)
  {
    ghost var start := data[..];
    ghost var cs := Chunks(input, 0, start);
    var pos := 0;
    var written := 1;  // write calls made so far, the header's included
    payload := [];
    ok := true;
    ghost var done: seq<seq<byte>> := [];
    ghost var rest := cs;
    while true
      invariant 0 <= pos <= |input|
      invariant rest == Chunks(input, pos, data[..])
      invariant cs == done + rest && written == 1 + |done|
      invariant payload == Flatten(done)
      invariant failAfter.Some? ==> failAfter.value >= written
      decreases |input| - pos
    {
      ghost var before := data[..];
      var count := Read(data, input, pos);
      if count == -1 {
        CopyEnds(input, start, failAfter, done, rest, true);
        break;
      }
      var chunk := data[..];
      CopyAdvances(input, pos, count, before, chunk, cs, done);
      if failAfter == Some(written) {
        ok := false;
        CopyEnds(input, start, failAfter, done, rest, false);
        break;
      }
      payload := payload + chunk;
      done := done + [chunk];
      rest := Chunks(input, pos + count, chunk);
      written := written + 1;
      pos := pos + count;
    }
  }

  /** One read moves one chunk from what is left to copy to what is copied. */
  lemma CopyAdvances(input: seq<byte>, pos: nat, n: nat, before: seq<byte>, after: seq<byte>,
                     cs: seq<seq<byte>>, done: seq<seq<byte>>)
    requires pos < |input| && |before| > 0
    requires n == Min(|before|, |input| - pos) && after == input[pos..pos + n] + before[n..]
    requires cs == done + Chunks(input, pos, before)
    ensures Chunks(input, pos, before) == [after] + Chunks(input, pos + n, after)
    ensures cs == (done + [after]) + Chunks(input, pos + n, after)
    ensures Flatten(done + [after]) == Flatten(done) + after
  {
    ChunksStep(input, pos, before, after, n);
    MoveFirst(done, Chunks(input, pos, before));
    FlattenAppend(done, [after]);
    FlattenOne(after);
  }

  /** The loop stops at the end of the input (`ok`) or at the failing write (`!ok`, with a
      chunk still to write); either way it has produced `CopyResult`. */
  lemma CopyEnds(input: seq<byte>, buf: seq<byte>, failAfter: Option<nat>,
                 done: seq<seq<byte>>, rest: seq<seq<byte>>, ok: bool)
    requires |buf| > 0 && failAfter != Some(0)
    requires Chunks(input, 0, buf) == done + rest
    requires ok ==> rest == [] && (failAfter.Some? ==> failAfter.value >= 1 + |done|)
    requires !ok ==> rest != [] && failAfter == Some(1 + |done|)
    ensures CopyResult(input, buf, failAfter) == (Flatten(done), ok)
  {
    var cs := Chunks(input, 0, buf);
    assert cs[..|done|] == done;
  }

  /** One unfolding of `Chunks`, phrased as what a `Read` leaves in the buffer. */
  lemma ChunksStep(input: seq<byte>, pos: nat, buf: seq<byte>, next: seq<byte>, n: nat)
    requires pos < |input| && |buf| > 0
    requires n == Min(|buf|, |input| - pos) && next == input[pos..pos + n] + buf[n..]
    ensures Chunks(input, pos, buf) == [next] + Chunks(input, pos + n, next)
  {
  }

  lemma MoveFirst<T>(done: seq<T>, rest: seq<T>)
    requires |rest| > 0
    ensures done + rest == (done + [rest[0]]) + rest[1..]
  {
    assert rest == [rest[0]] + rest[1..];
  }

  lemma FlattenOne(s: seq<byte>)
    ensures Flatten([s]) == s
  {
    assert [s][1..] == [];
  }

  lemma {:induction false} FlattenAppend(a: seq<seq<byte>>, b: seq<seq<byte>>)
    ensures Flatten(a + b) == Flatten(a) + Flatten(b)
    decreases |a|
  {
    if a == [] {
      assert a + b == b;
    } else {
      assert (a + b)[1..] == a[1..] + b;
      FlattenAppend(a[1..], b);
    }
  }

  /* ---------- what the converter promises ---------- */

  /** The number of buffers the copy loop writes for `length` input bytes: `ceil(length / size)`. */
  function BufferCount(length: nat, bufferSize: nat): nat
    requires bufferSize > 0
  {
    (length + bufferSize - 1) / bufferSize
  }

  /** A null or blank path, or a missing input file, is refused with -1 before any file is
      touched. */
  lemma RefusedWithoutEffect(fs: FileSystem, inPath: Option<string>, outPath: Option<string>,
                             bufferSize: int, failAfter: Option<nat>)
    requires IsNullOrBlank(inPath) || IsNullOrBlank(outPath) || inPath.value !in fs
    ensures Convert(fs, inPath, outPath, bufferSize, failAfter) == Outcome(fs, FAILURE)
  {
  }

  /** The callback sees 1 or -1, and sees 1 exactly when both paths are usable, the input
      exists, the buffer can be allocated and no write fails among the header and the
      `BufferCount` buffers. */
  lemma ConvertStatus(fs: FileSystem, inPath: Option<string>, outPath: Option<string>,
                      bufferSize: int, failAfter: Option<nat>)
    requires DistinctPaths(inPath, outPath)
    requires bufferSize != 0
    ensures var o := Convert(fs, inPath, outPath, bufferSize, failAfter);
            && (o.status == SUCCESS || o.status == FAILURE)
            && (o.status == SUCCESS <==>
                  && !IsNullOrBlank(inPath) && !IsNullOrBlank(outPath) && inPath.value in fs
                  && bufferSize > 0
                  && (failAfter.None?
                      || failAfter.value > BufferCount(|fs[inPath.value]|, bufferSize)))
  {
    if !IsNullOrBlank(inPath) && !IsNullOrBlank(outPath) && inPath.value in fs && bufferSize > 0 {
      ChunksCount(fs[inPath.value], 0, Zeros(bufferSize));
    }
  }

  /** On success the output is the header for the input's length followed by the payload, no
      other file changes, the header parses back to the input's length, and the input sits
      right after it. */
  lemma ConvertSuccess(fs: FileSystem, inPath: Option<string>, outPath: Option<string>,
                       bufferSize: int, failAfter: Option<nat>)
    requires DistinctPaths(inPath, outPath)
    requires Convert(fs, inPath, outPath, bufferSize, failAfter).status == SUCCESS
    ensures !IsNullOrBlank(inPath) && !IsNullOrBlank(outPath) && inPath.value in fs
    ensures bufferSize > 0
    ensures var input, o := fs[inPath.value], Convert(fs, inPath, outPath, bufferSize, failAfter);
            && o.fs == fs[outPath.value := WaveHeader.Header(|input|) + Payload(input, bufferSize)]
            && WaveHeader.ParseHeader(o.fs[outPath.value])
                 == Some(WaveHeader.Canonical(|input|))
            && o.fs[outPath.value][WaveHeader.HEADER_SIZE..WaveHeader.HEADER_SIZE + |input|]
                 == input
  {
    var input := fs[inPath.value];
    var writes := Writes(input, bufferSize);
    var h := WaveHeader.Header(|input|);
    assert writes[..|writes|] == writes;
    FlattenAppend([h], Chunks(input, 0, Zeros(bufferSize)));
    FlattenOne(h);
    WaveHeader.ParseIgnoresTail(h, Payload(input, bufferSize));
    WaveHeader.ParseWrittenHeader(|input|);
    PayloadShape(input, bufferSize);
    var out := h + Payload(input, bufferSize);
    assert out[WaveHeader.HEADER_SIZE..WaveHeader.HEADER_SIZE + |input|]
        == Payload(input, bufferSize)[..|input|];
  }

  /** Whatever happens once the paths are accepted, only the output file changes (it is
      created if missing), and it holds a prefix of what a run without faults writes. */
  lemma ConvertWritesPrefix(fs: FileSystem, inPath: Option<string>, outPath: Option<string>,
                            bufferSize: int, failAfter: Option<nat>)
    requires !IsNullOrBlank(inPath) && !IsNullOrBlank(outPath) && inPath.value in fs
    requires DistinctPaths(inPath, outPath)
    requires bufferSize != 0
    ensures var input, o := fs[inPath.value], Convert(fs, inPath, outPath, bufferSize, failAfter);
            && o.fs.Keys == fs.Keys + {outPath.value}
            && (forall p :: p in fs && p != outPath.value ==> o.fs[p] == fs[p])
            && o.fs[outPath.value]
                 <= WaveHeader.Header(|input|)
                    + (if bufferSize > 0 then Payload(input, bufferSize) else [])
  {
    var input := fs[inPath.value];
    var writes := Writes(input, bufferSize);
    var k := Completed(|writes|, failAfter);
    FlattenPrefix(writes, k);
    var h := WaveHeader.Header(|input|);
    FlattenOne(h);
    if bufferSize > 0 {
      FlattenAppend([h], Chunks(input, 0, Zeros(bufferSize)));
    } else {
      assert writes == [h];
    }
  }

  lemma {:induction false} FlattenPrefix(ss: seq<seq<byte>>, k: nat)
    requires k <= |ss|
    ensures Flatten(ss[..k]) <= Flatten(ss)
    decreases k
  {
    if k > 0 {
      assert ss[..k][1..] == ss[1..][..k - 1];
      FlattenPrefix(ss[1..], k - 1);
    }
  }

  /* ---------- stopRecord ---------- */

  const RECORD_FILE: string := "record.pcm"
  const WAV_FILE: string := "output.wav"
  const SUCCESS_MESSAGE: string := "success convert"
  const FAILURE_MESSAGE: string := "fail convert"

  /** `File(dir, name).absolutePath` for an absolute directory. */
  function PathIn(dir: string, name: string): (p: string)
    ensures |p| == |dir| + 1 + |name| && p[..|dir|] == dir && p[|dir|] == '/'
    ensures p[|dir| + 1..] == name && !IsNullOrBlank(Some(p))
  {
    dir + "/" + name
  }

  /** The capture and the WAV file live side by side under different names, so `stopRecord`
      never converts a file onto itself. */
  lemma StopRecordPathsDistinct(musicDir: string)
    ensures DistinctPaths(Some(PathIn(musicDir, RECORD_FILE)), Some(PathIn(musicDir, WAV_FILE)))
    ensures !IsNullOrBlank(Some(PathIn(musicDir, RECORD_FILE)))
    ensures !IsNullOrBlank(Some(PathIn(musicDir, WAV_FILE)))
  {
    var i := |musicDir| + 1;
    assert PathIn(musicDir, RECORD_FILE)[i] == 'r' && PathIn(musicDir, WAV_FILE)[i] == 'o';
    assert !IsWhitespace('r') && !IsWhitespace('o');
  }

  /** `stopRecord` after the recorder has stopped: converts `record.pcm` into `output.wav` in the
      music directory and picks the message shown for the status, success when it is positive. */
  method StopRecord(fs: FileSystem, musicDir: string, bufferSize: int, failAfter: Option<nat>)
    returns (fs': FileSystem, message: string)
    requires bufferSize != 0
    ensures var o := Convert(fs, Some(PathIn(musicDir, RECORD_FILE)), Some(PathIn(musicDir, WAV_FILE)),
                             bufferSize, failAfter);
            && fs' == o.fs
            && (message == SUCCESS_MESSAGE <==> o.status > 0)
    ensures var input := PathIn(musicDir, RECORD_FILE);
            && (message == SUCCESS_MESSAGE || message == FAILURE_MESSAGE)
            && (message == SUCCESS_MESSAGE <==>
                  && input in fs && bufferSize > 0
                  && (failAfter.None? || failAfter.value > BufferCount(|fs[input]|, bufferSize)))
  {
    var inPath, outPath := PathIn(musicDir, RECORD_FILE), PathIn(musicDir, WAV_FILE);
    StopRecordPathsDistinct(musicDir);
    var status;
    fs', status := ConvertToWave(fs, Some(inPath), Some(outPath), bufferSize, failAfter);
    ConvertStatus(fs, Some(inPath), Some(outPath), bufferSize, failAfter);
    message := if status > 0 then SUCCESS_MESSAGE else FAILURE_MESSAGE;
  }

  /* ---------- the bytes after the header ---------- */

  /** Everything the copy loop writes when no write fails. */
  function Payload(input: seq<byte>, bufferSize: nat): (p: seq<byte>)
    requires bufferSize > 0
    ensures |p| == bufferSize * BufferCount(|input|, bufferSize)
    ensures |input| <= |p| && p[..|input|] == input
  {
    var cs := Chunks(input, 0, Zeros(bufferSize));
    ChunksCount(input, 0, Zeros(bufferSize));
    FlattenLength(cs, bufferSize);
    InputFirst(input, 0, Zeros(bufferSize));
    Flatten(cs)
  }

  /** What a byte past the end of the input holds: the zero the buffer started with while
      the first buffer is still being written, later the byte one buffer length back. */
  function StaleByte(input: seq<byte>, bufferSize: nat, j: nat): byte
  {
    if j < bufferSize then 0
    else if j - bufferSize < |input| then input[j - bufferSize]
    else 0
  }

  /** The payload holds the whole input, then pads it up to a whole number of buffers with
      bytes left over from earlier reads: zeros when the input is shorter than one buffer,
      otherwise copies of input bytes one buffer length back. */
  lemma PayloadShape(input: seq<byte>, bufferSize: nat)
    requires bufferSize > 0
    ensures var p := Payload(input, bufferSize);
            && |p| < |input| + bufferSize
            && forall i :: |input| <= i < |p| ==>
                 p[i] == if |input| < bufferSize then 0 else input[i - bufferSize]
  {
    var q := BufferCount(|input|, bufferSize);
    assert |input| + bufferSize - 1 == bufferSize * q + (|input| + bufferSize - 1) % bufferSize;
    StaleTail(input, 0, Zeros(bufferSize));
  }

  /** The payload is exactly the input when, and only when, the input is a whole number of
      buffers long. */
  lemma PayloadExactIff(input: seq<byte>, bufferSize: nat)
    requires bufferSize > 0
    ensures |Payload(input, bufferSize)| == |input| <==> |input| % bufferSize == 0
  {
    var L, b := |input|, bufferSize;
    var q := BufferCount(L, b);
    var p := Payload(input, b);
    assert |p| == b * q;
    if L % b == 0 {
      var m := L / b;
      assert L == b * m;
      DivUnique(L + b - 1, b, m, b - 1);
      assert q == m;
    }
    if |p| == L {
      DivUnique(L, b, q, 0);
    }
  }

  /** An input of whole buffers is copied exactly, with nothing stale after it. */
  lemma WholeBuffersCopiedExactly(input: seq<byte>, bufferSize: nat)
    requires bufferSize > 0 && |input| % bufferSize == 0
    ensures Payload(input, bufferSize) == input
  {
    PayloadExactIff(input, bufferSize);
    var p := Payload(input, bufferSize);
    assert p == p[..|input|];
  }

  lemma {:induction false} ChunksCount(input: seq<byte>, pos: nat, buf: seq<byte>)
    requires pos <= |input| && |buf| > 0
    ensures |Chunks(input, pos, buf)| == (|input| - pos + |buf| - 1) / |buf|
    decreases |input| - pos
  {
    var b, r := |buf|, |input| - pos;
    if r == 0 {
      DivUnique(b - 1, b, 0, b - 1);
    } else {
      var n := Min(b, r);
      var next := input[pos..pos + n] + buf[n..];
      ChunksCount(input, pos + n, next);
      if r >= b {
        DivAddMultiple(r - 1, 1, b);
      } else {
        DivUnique(r + b - 1, b, 1, r - 1);
        DivUnique(b - 1, b, 0, b - 1);
      }
    }
  }

  lemma {:induction false} FlattenLength(cs: seq<seq<byte>>, n: nat)
    requires forall k :: 0 <= k < |cs| ==> |cs[k]| == n
    ensures |Flatten(cs)| == n * |cs|
    decreases |cs|
  {
    if cs != [] {
      FlattenLength(cs[1..], n);
    }
  }

  /** The chunks from `pos` on start with the rest of the input. */
  lemma {:induction false} InputFirst(input: seq<byte>, pos: nat, buf: seq<byte>)
    requires pos <= |input| && |buf| > 0
    ensures var p := Flatten(Chunks(input, pos, buf));
            && |input| - pos <= |p|
            && forall i :: 0 <= i < |input| - pos ==> p[i] == input[pos + i]
    decreases |input| - pos
  {
    if pos < |input| {
      var n := Min(|buf|, |input| - pos);
      var next := input[pos..pos + n] + buf[n..];
      var cs := Chunks(input, pos, buf);
      assert cs[1..] == Chunks(input, pos + n, next);
      InputFirst(input, pos + n, next);
    }
  }

  /** Every byte of `p` (the payload written from input position `pos` on) that lies past the
      end of the input is stale. */
  predicate StaleFrom(input: seq<byte>, pos: nat, b: nat, p: seq<byte>)
  {
    forall i :: 0 <= i < |p| && |input| <= pos + i ==> p[i] == StaleByte(input, b, pos + i)
  }

  /** Past the end of the input, the chunks from `pos` hold stale bytes, given that the buffer
      holds zeros (first read) or the previous full buffer of input. */
  lemma {:induction false} StaleTail(input: seq<byte>, pos: nat, buf: seq<byte>)
    requires pos <= |input| && |buf| > 0
    requires (pos == 0 && buf == Zeros(|buf|)) || (pos >= |buf| && buf == input[pos - |buf|..pos])
    ensures StaleFrom(input, pos, |buf|, Flatten(Chunks(input, pos, buf)))
    decreases |input| - pos, 1
  {
    if pos + |buf| <= |input| {
      StaleFull(input, pos, buf);
    } else if pos < |input| {
      StaleLast(input, pos, buf);
    }
  }

  /** A full read replaces the whole buffer, whatever it held. */
  lemma {:induction false} StaleFull(input: seq<byte>, pos: nat, buf: seq<byte>)
    requires pos + |buf| <= |input| && |buf| > 0
    ensures StaleFrom(input, pos, |buf|, Flatten(Chunks(input, pos, buf)))
    decreases |input| - pos, 0
  {
    var b := |buf|;
    var next := input[pos..pos + b];
    assert next == input[pos..pos + b] + buf[b..];
    FlattenChunksStep(input, pos, buf, next, b);
    StaleTail(input, pos + b, next);
    StaleShift(input, pos, b, next, Flatten(Chunks(input, pos + b, next)));
  }

  /** The last, partial read leaves the end of the buffer as it was. */
  lemma StaleLast(input: seq<byte>, pos: nat, buf: seq<byte>)
    requires pos < |input| < pos + |buf|
    requires (pos == 0 && buf == Zeros(|buf|)) || (pos >= |buf| && buf == input[pos - |buf|..pos])
    ensures StaleFrom(input, pos, |buf|, Flatten(Chunks(input, pos, buf)))
  {
    var n := |input| - pos;
    var next := input[pos..pos + n] + buf[n..];
    FlattenChunksStep(input, pos, buf, next, n);
    assert Chunks(input, pos + n, next) == [];
    assert Flatten(Chunks(input, pos, buf)) == next;
  }

  /** The payload from `pos` is the next buffer followed by the payload after it. */
  lemma FlattenChunksStep(input: seq<byte>, pos: nat, buf: seq<byte>, next: seq<byte>, n: nat)
    requires pos < |input| && |buf| > 0
    requires n == Min(|buf|, |input| - pos) && next == input[pos..pos + n] + buf[n..]
    ensures Flatten(Chunks(input, pos, buf)) == next + Flatten(Chunks(input, pos + n, next))
  {
    ChunksStep(input, pos, buf, next, n);
    FlattenAppend([next], Chunks(input, pos + n, next));
    FlattenOne(next);
  }

  /** Putting one full buffer in front of a tail of stale bytes keeps every byte past the end
      of the input stale. */
  lemma StaleShift(input: seq<byte>, pos: nat, b: nat, next: seq<byte>, tail: seq<byte>)
    requires |next| == b && pos + b <= |input|
    requires StaleFrom(input, pos + b, b, tail)
    ensures StaleFrom(input, pos, b, next + tail)
  {
    forall i | 0 <= i < |next + tail| && |input| <= pos + i
      ensures (next + tail)[i] == StaleByte(input, b, pos + i)
    {
      var j := i - b;
      assert (next + tail)[i] == tail[j];
      assert pos + b + j == pos + i;
    }
  }

  /** A tiny case, three input bytes through a two-byte buffer: the second chunk repeats the
      second input byte after the third. */
  lemma StaleByteExample()
    ensures Payload([7, 8, 9], 2) == [7, 8, 9, 8]
  {
    var z := Zeros(2);
    assert z == [0, 0];
    var input: seq<byte> := [7, 8, 9];
    assert input[0..2] + z[2..] == [7, 8];
    assert Chunks(input, 0, z) == [[7, 8]] + Chunks(input, 2, [7, 8]);
    assert input[2..3] + [7, 8][1..] == [9, 8];
    assert Chunks(input, 2, [7, 8]) == [[9, 8]] + Chunks(input, 3, [9, 8]);
    FlattenAppend([[7, 8]], [[9, 8]]);
    FlattenOne([7, 8]);
    FlattenOne([9, 8]);
  }
}
