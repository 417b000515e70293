/**
 * The drain loop of `startRecord`: while the recorder is recording, read into
 * a fresh zeroed buffer of `minBufferSize` bytes; an error code shows a
 * message and writes nothing, any other result writes the whole buffer to
 * `record.pcm`, which the output stream truncated when it was opened.
 *
 * The recorder is the sequence of what its reads return while it is in the
 * recording state, one entry per loop iteration; `None` is a null
 * `audioRecorder`, for which the loop never runs.
 */
module Capture {
  import opened Wrappers
  import opened Bytes
  import WaveConverter
  import WaveHeader

  /** The `AudioRecord` error codes the loop tests for. */
  const ERROR: int := -1
  const ERROR_BAD_VALUE: int := -2
  const ERROR_INVALID_OPERATION: int := -3
  const ERROR_DEAD_OBJECT: int := -6

  /** One `read(buffer, 0, minBufferSize)`: the value it returns and the bytes it stores at the
      front of the buffer. */
  datatype ReadOutcome = ReadOutcome(result: int, data: seq<byte>)

  /** The error codes are negative, so no byte count is taken for one. */
  predicate IsError(result: int): (b: bool)
    ensures b ==> -6 <= result < 0
    ensures result == -4 || result == -5 ==> !b
  {
    result == ERROR || result == ERROR_INVALID_OPERATION || result == ERROR_DEAD_OBJECT
    || result == ERROR_BAD_VALUE
  }

  /** The message `showToast` gets for an error code, in the order of the `when` branches. */
  function Notice(result: int): (msg: string)
    requires IsError(result)
    ensures |msg| >= 5 && msg[..5] == "ERROR"
    ensures result == ERROR ==> msg == "ERROR"
    ensures result == ERROR_BAD_VALUE ==> msg == "ERROR_BAD_VALUE"
    ensures result == ERROR_INVALID_OPERATION ==> msg == "ERROR_INVALID_OPERATION"
    ensures result == ERROR_DEAD_OBJECT ==> msg == "ERROR_DEAD_OBJECT"
  {
    if result == ERROR then "ERROR"
    else if result == ERROR_INVALID_OPERATION then "ERROR_INVALID_OPERATION"
    else if result == ERROR_DEAD_OBJECT then "ERROR_DEAD_OBJECT"
    else "ERROR_BAD_VALUE"
  }

  /** Every read stores at most one buffer's worth of bytes. */
  predicate WellFormed(outcomes: seq<ReadOutcome>, bufferSize: nat)
  {
    forall j :: 0 <= j < |outcomes| ==> |outcomes[j].data| <= bufferSize
  }

  /** The buffer as `out.write(buffer)` sees it: the bytes read, then the zeros the fresh
      array started with. A read never stores more than the buffer holds, and every caller
      works under `WellFormed`, so the `else` branch is never taken; it is there only to make
      the function total. */
  function Block(r: ReadOutcome, bufferSize: nat): (b: seq<byte>)
    ensures |b| == bufferSize
    ensures |r.data| <= bufferSize ==> b[..|r.data|] == r.data
    ensures forall i :: |r.data| <= i < bufferSize ==> b[i] == 0
  {
    if |r.data| <= bufferSize then r.data + seq(bufferSize - |r.data|, _ => 0 as byte)
    else r.data[..bufferSize]
  }

  /** The bytes of `record.pcm` after the given outcomes. */
  function Drained(outcomes: seq<ReadOutcome>, bufferSize: nat): seq<byte>
  {
    if outcomes == [] then []
    else
      var last := outcomes[|outcomes| - 1];
      Drained(outcomes[..|outcomes| - 1], bufferSize)
        + (if IsError(last.result) then [] else Block(last, bufferSize))
  }

  /** The messages shown for the given outcomes. */
  function Notices(outcomes: seq<ReadOutcome>): seq<string>
  {
    if outcomes == [] then []
    else
      var last := outcomes[|outcomes| - 1];
      Notices(outcomes[..|outcomes| - 1]) + (if IsError(last.result) then [Notice(last.result)] else [])
  }

  /** How many reads returned something other than an error code. */
  function Written(outcomes: seq<ReadOutcome>): (n: nat)
    ensures n <= |outcomes|
  {
    if outcomes == [] then 0
    else Written(outcomes[..|outcomes| - 1]) + (if IsError(outcomes[|outcomes| - 1].result) then 0 else 1)
  }

  /** `read(buffer, 0, minBufferSize)`: stores the outcome's bytes at the front of the buffer. */
  method ReadInto(buffer: array<byte>, r: ReadOutcome) returns (result: int)
    requires |r.data| <= buffer.Length
    modifies buffer
    ensures result == r.result
    ensures buffer[..] == r.data + old(buffer[..])[|r.data|..]
  {
    for j := 0 to |r.data|
      invariant forall k :: 0 <= k < j ==> buffer[k] == r.data[k]
      invariant forall k :: j <= k < buffer.Length ==> buffer[k] == old(buffer[k])
    {
      buffer[j] := r.data[j];
    }
    assert buffer[..] == r.data + old(buffer[..])[|r.data|..];
    return r.result;
  }

  /** One iteration of the loop: a fresh zeroed buffer, one read, then either a message for an
      error code or the whole buffer written out. */
  method DrainOnce(outcome: ReadOutcome, bufferSize: nat)
    returns (written: seq<byte>, notice: seq<string>)
    requires |outcome.data| <= bufferSize
    ensures IsError(outcome.result) ==> written == [] && notice == [Notice(outcome.result)]
    ensures !IsError(outcome.result) ==> written == Block(outcome, bufferSize) && notice == []
  {
    var buffer := new byte[bufferSize](_ => 0);
    assert buffer[..] == seq(bufferSize, _ => 0 as byte);
    var result := ReadInto(buffer, outcome);
    ReadIntoFresh(outcome, bufferSize);
    if IsError(result) {
      // one message per `when` branch: ERROR, ERROR_INVALID_OPERATION, ERROR_DEAD_OBJECT,
      // ERROR_BAD_VALUE
      written, notice := [], [Notice(result)];
    } else {
      written, notice := buffer[..], [];
    }
  }

  /** The coroutine body of `startRecord`, from opening `record.pcm` to closing it. */
  method Drain(recorder: Option<seq<ReadOutcome>>, bufferSize: nat)
    returns (sink: seq<byte>, notices: seq<string>)
    requires recorder.Some? ==> WellFormed(recorder.value, bufferSize)
    ensures recorder.None? ==> sink == [] && notices == []
    ensures recorder.Some? ==>
              && sink == Drained(recorder.value, bufferSize)
              && notices == Notices(recorder.value)
  {
    sink, notices := [], [];
    if recorder.None? {
      return;
    }
    var outcomes := recorder.value;
    var i := 0;
    while i < |outcomes|
      invariant 0 <= i <= |outcomes|
      invariant sink == Drained(outcomes[..i], bufferSize)
      invariant notices == Notices(outcomes[..i])
    {
      var written, notice := DrainOnce(outcomes[i], bufferSize);
      DrainedStep(outcomes, i, bufferSize);
      sink, notices := sink + written, notices + notice;
      i := i + 1;
    }
    assert outcomes[..i] == outcomes;
  }

  /** Drained and Notices after one more read. */
  lemma DrainedStep(outcomes: seq<ReadOutcome>, i: nat, bufferSize: nat)
    requires i < |outcomes|
    ensures var r := outcomes[i];
            && Drained(outcomes[..i + 1], bufferSize)
               == Drained(outcomes[..i], bufferSize) + (if IsError(r.result) then [] else Block(r, bufferSize))
            && Notices(outcomes[..i + 1])
               == Notices(outcomes[..i]) + (if IsError(r.result) then [Notice(r.result)] else [])
  {
    assert outcomes[..i + 1][..i] == outcomes[..i];
  }

  /** Reading into a fresh zeroed buffer leaves exactly `Block` in it. */
  lemma ReadIntoFresh(r: ReadOutcome, bufferSize: nat)
    requires |r.data| <= bufferSize
    ensures r.data + seq(bufferSize, _ => 0 as byte)[|r.data|..] == Block(r, bufferSize)
  {
    assert seq(bufferSize, _ => 0 as byte)[|r.data|..] == seq(bufferSize - |r.data|, _ => 0 as byte);
  }

  /** The capture is a whole number of buffers: one per read that was not an error. */
  lemma {:induction false} DrainedLength(outcomes: seq<ReadOutcome>, bufferSize: nat)
    ensures |Drained(outcomes, bufferSize)| == bufferSize * Written(outcomes)
    decreases |outcomes|
  {
    if outcomes != [] {
      var prefix := outcomes[..|outcomes| - 1];
      DrainedLength(prefix, bufferSize);
      var last := outcomes[|outcomes| - 1];
      if IsError(last.result) {
        assert Drained(outcomes, bufferSize) == Drained(prefix, bufferSize);
        assert Written(outcomes) == Written(prefix);
      } else {
        assert Drained(outcomes, bufferSize) == Drained(prefix, bufferSize) + Block(last, bufferSize);
        assert Written(outcomes) == Written(prefix) + 1;
        MulSucc(bufferSize, Written(prefix));
      }
    }
  }

  lemma MulSucc(m: nat, k: nat)
    ensures m * (k + 1) == m * k + m
  {
  }

  /** Each read was either written or reported, never both. */
  lemma {:induction false} NoticesCount(outcomes: seq<ReadOutcome>)
    ensures |Notices(outcomes)| + Written(outcomes) == |outcomes|
    decreases |outcomes|
  {
    if outcomes != [] {
      NoticesCount(outcomes[..|outcomes| - 1]);
    }
  }

  /** Later reads only append: the capture after `a + b` starts with the capture after `a`, and
      the rest is what `b` alone would write. */
  lemma {:induction false} DrainedAppend(a: seq<ReadOutcome>, b: seq<ReadOutcome>, bufferSize: nat)
    ensures Drained(a + b, bufferSize) == Drained(a, bufferSize) + Drained(b, bufferSize)
    decreases |b|
  {
    if b == [] {
      assert a + b == a;
      assert Drained(a, bufferSize) + Drained(b, bufferSize) == Drained(a, bufferSize);
    } else {
      var b' := b[..|b| - 1];
      var last := b[|b| - 1];
      assert (a + b)[..|a + b| - 1] == a + b';
      assert (a + b)[|a + b| - 1] == last;
      DrainedAppend(a, b', bufferSize);
      var tail := if IsError(last.result) then [] else Block(last, bufferSize);
      assert Drained(a + b, bufferSize) == Drained(a + b', bufferSize) + tail;
      assert Drained(b, bufferSize) == Drained(b', bufferSize) + tail;
      assert Drained(a, bufferSize) + Drained(b', bufferSize) + tail
          == Drained(a, bufferSize) + (Drained(b', bufferSize) + tail);
    }
  }

  /** A run of error codes leaves the capture as it was. */
  lemma {:induction false} ErrorsWriteNothing(outcomes: seq<ReadOutcome>, bufferSize: nat)
    requires forall j :: 0 <= j < |outcomes| ==> IsError(outcomes[j].result)
    ensures Drained(outcomes, bufferSize) == [] && |Notices(outcomes)| == |outcomes|
    decreases |outcomes|
  {
    if outcomes != [] {
      ErrorsWriteNothing(outcomes[..|outcomes| - 1], bufferSize);
    }
  }

  /** Recording then stopping without a failing write: `output.wav` is the header for the
      capture's length followed by exactly the capture, because the capture is a whole number
      of the same buffers the converter copies with. */
  lemma RecordThenConvert(fs: WaveConverter.FileSystem, musicDir: string,
                          outcomes: seq<ReadOutcome>, bufferSize: nat)
    requires bufferSize > 0
    ensures var capture := Drained(outcomes, bufferSize);
            var fs1 := fs[WaveConverter.PathIn(musicDir, WaveConverter.RECORD_FILE) := capture];
            var o := WaveConverter.Convert(
              fs1, Some(WaveConverter.PathIn(musicDir, WaveConverter.RECORD_FILE)),
              Some(WaveConverter.PathIn(musicDir, WaveConverter.WAV_FILE)), bufferSize, None);
            && o.status == WaveConverter.SUCCESS
            && o.fs[WaveConverter.PathIn(musicDir, WaveConverter.WAV_FILE)]
                 == WaveHeader.Header(|capture|) + capture
  {
    var capture := Drained(outcomes, bufferSize);
    var inPath := WaveConverter.PathIn(musicDir, WaveConverter.RECORD_FILE);
    var outPath := WaveConverter.PathIn(musicDir, WaveConverter.WAV_FILE);
    var fs1 := fs[inPath := capture];
    WaveConverter.StopRecordPathsDistinct(musicDir);
    WaveConverter.ConvertStatus(fs1, Some(inPath), Some(outPath), bufferSize, None);
    WaveConverter.ConvertSuccess(fs1, Some(inPath), Some(outPath), bufferSize, None);
    DrainedLength(outcomes, bufferSize);
    assert |capture| % bufferSize == 0 by {
      DivUnique(|capture|, bufferSize, Written(outcomes), 0);
    }
    WaveConverter.WholeBuffersCopiedExactly(capture, bufferSize);
  }
}
