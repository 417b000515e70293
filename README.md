# Audio capture and WAV conversion, modelled in Dafny

This project models the computational core of the Android system-audio capture demo. That core lives in
`MainActivity.kt` and has four parts:

- **The capture drain loop of `startRecord`.** While the recorder is recording, each pass reads into a fresh,
  zero-filled buffer of `minBufferSize` bytes.
  - An `AudioRecord` error code shows a message and writes nothing.
  - Any other result writes the whole buffer to `record.pcm`. The stream truncated that file when it was opened.

  Module `Capture` models this. The recorder is the finite sequence of what its reads return. `Drain` is the loop,
  and it is proved against the specification functions `Drained` and `Notices`.
- **`getWaveHeader`.** It fills a fresh 44-byte array with the canonical RIFF/WAVE header for a PCM payload of
  `fileLength` bytes. The format is mono, 16-bit, 44100 Hz, format tag 1, as laid out in chapter 3 of the
  Microsoft/IBM *Multimedia Programming Interface and Data Specifications 1.0*.

  Module `WaveHeader` models it. The method `GetWaveHeader` writes the array section by section, and its contract
  ties the result to the function `Header`. A little-endian reader, `ParseHeader`, recovers the fields. Module `Bytes`
  holds the byte type and the little-endian encoders and decoder.
- **`convertToWave` and the status test of `stopRecord`.** These are in module `WaveConverter`.
  - The file system is a map from absolute path to contents.
  - A Kotlin `String?` path is an `Option<string>`.
  - An `IOException` from a write is the parameter `failAfter`: the number of write calls that succeed before one
    throws.

  The converter checks paths in the code's order: blank path first, then missing input. It then replaces the output
  with an empty file, writes the header for the input's length, and copies the input through one reused buffer of
  `minBufferSize` bytes, writing the **whole** buffer after every read. The model keeps that behaviour as written.
  - The payload is `minBufferSize * ceil(L / minBufferSize)` bytes long.
  - Its last buffer ends in bytes left over in the buffer: zeros if there was only one read, otherwise input bytes one
    buffer length back (`PayloadShape`, `StaleByteExample`).
  - So the header's data size `L` matches the bytes that follow it only when the buffer size divides `L`
    (`PayloadExactIff`).
  - When no file operation of `startRecord` throws, its capture is a whole number of buffers of that same size. So
    recording and then converting yields exactly the header followed by the capture (`Capture.RecordThenConvert`).
- **The sample helpers `gain` and `reverseBytes`.** These are in module `Samples`.
  - `gain` is the five-branch soft-knee limiter with margin 4096. `x * scale` is modelled as a real number, and
    `toInt()` is truncation toward zero.
  - Each knee is monotone (`LowerKneeMonotone`, `UpperKneeMonotone`). Because of the truncation, the limiter as a whole
    is not: just below the lower knee's end it gives -28671, while at -28672 it gives -28672 (`LowerKneeDip`).
  - `reverseBytes` is evaluated with Kotlin's left-to-right infix operators, `((i and 0xFF00) shr 8) or (i shl 8)`,
    on a 32-bit `Int`, then narrowed with `toShort()`. The operators are written in arithmetic, and
    `ReverseBytesBitwise` checks the result against the same expression on 32-bit bit vectors.

A Kotlin `Byte` is represented by its bit pattern as an unsigned number, 0 to 255. So `n.toByte()` keeps the low
eight bits of `n`.

## Model

| member | source | states |
|---|---|---|
| Bytes.U32LE | app/src/main/java/com/stockhome/app/audiorecorder/MainActivity.kt:255-258 | the four bytes `(n shr 8j and 0xff).toByte()`, j = 0..3, read back little-endian as `n` modulo 2^32 |
| Bytes.EncodeDecodeU32 | app/src/main/java/com/stockhome/app/audiorecorder/MainActivity.kt:283-291 | any four bytes are the encoding of the value they decode to (the round trip in the other direction) |
| Bytes.U32LEMod | app/src/main/java/com/stockhome/app/audiorecorder/MainActivity.kt:255-258 | the four bytes written for `n` depend only on `n` modulo 2^32, because `shr 24 and 0xff` drops the higher bits |
| Bytes.U16LE | app/src/main/java/com/stockhome/app/audiorecorder/MainActivity.kt:277-281 | a value's low byte followed by its next byte reads back little-endian as the value modulo 2^16 |
| Bytes.EncodeDecodeU16 | app/src/main/java/com/stockhome/app/audiorecorder/MainActivity.kt:293-298 | any two bytes are the encoding of the value they decode to |
| WaveHeader.Header | app/src/main/java/com/stockhome/app/audiorecorder/MainActivity.kt:247 | the header is exactly 44 bytes long |
| WaveHeader.ParseHeader | app/src/main/java/com/stockhome/app/audiorecorder/MainActivity.kt:247-310 | a header is read back exactly when it is 44 bytes or more with the four tags in place, and every field it recovers fits its width: 32 bits for sizes and rates, 16 bits for the rest |
| WaveHeader.GetWaveHeader | app/src/main/java/com/stockhome/app/audiorecorder/MainActivity.kt:235-312 | returns a fresh array whose contents are exactly `Header(fileLength)` |
| WaveHeader.PutRiffDescriptor | app/src/main/java/com/stockhome/app/audiorecorder/MainActivity.kt:249-263 | bytes 0-11 become "RIFF", the chunk size `fileLength + 36` in little-endian order, then "WAVE"; the rest of the array is unchanged |
| WaveHeader.PutFmtChunkHead | app/src/main/java/com/stockhome/app/audiorecorder/MainActivity.kt:266-281 | bytes 12-23 become "fmt ", 16, format 1 and one channel; the rest is unchanged |
| WaveHeader.PutFmtChunkRates | app/src/main/java/com/stockhome/app/audiorecorder/MainActivity.kt:282-298 | bytes 24-35 become 44100, 88200, block align 2 and 16 bits per sample; the rest is unchanged |
| WaveHeader.PutDataChunkHead | app/src/main/java/com/stockhome/app/audiorecorder/MainActivity.kt:301-310 | bytes 36-43 become "data" and the payload size; bytes 0-35 are unchanged |
| WaveHeader.PutTag | app/src/main/java/com/stockhome/app/audiorecorder/MainActivity.kt:250-253 | four characters stored with `Char.toByte()` at positions `k` to `k+3`; nothing else changes |
| WaveHeader.PutU32 | app/src/main/java/com/stockhome/app/audiorecorder/MainActivity.kt:255-258 | `(n shr 8j and 0xff).toByte()` for j = 0..3 stores the little-endian encoding of `n`; nothing else changes |
| WaveHeader.PutSmallU32 | app/src/main/java/com/stockhome/app/audiorecorder/MainActivity.kt:272-275 | a one-byte value followed by three zero bytes is the little-endian encoding of that value |
| WaveHeader.PutSmallU16 | app/src/main/java/com/stockhome/app/audiorecorder/MainActivity.kt:277-278 | a one-byte value followed by one zero byte is its two-byte little-endian encoding |
| WaveHeader.TagsAreAscii | app/src/main/java/com/stockhome/app/audiorecorder/MainActivity.kt:250-305 | the characters stored for the four tags are the bytes of "RIFF", "WAVE", "fmt " and "data" |
| WaveHeader.FmtChunkParts | app/src/main/java/com/stockhome/app/audiorecorder/MainActivity.kt:236-245 | the fixed "fmt " chunk is its tag followed by the encodings of 16, 1, 1, 44100, 88200, 2 and 16, the values derived from the constants |
| WaveHeader.ParseWrittenHeader | app/src/main/java/com/stockhome/app/audiorecorder/MainActivity.kt:239-310 | reading the written header back gives the chunk size `(L + 36) mod 2^32`, the data size `L mod 2^32`, and the fixed fields 16, PCM, mono, 44100, 88200, 2 and 16 |
| WaveHeader.WrittenFields | app/src/main/java/com/stockhome/app/audiorecorder/MainActivity.kt:247-310 | the four tags sit at bytes 0, 8, 12 and 36, and every field decodes to its value |
| WaveHeader.RiffFields | app/src/main/java/com/stockhome/app/audiorecorder/MainActivity.kt:249-263 | the RIFF descriptor holds its two tags and the chunk size modulo 2^32 |
| WaveHeader.DataFields | app/src/main/java/com/stockhome/app/audiorecorder/MainActivity.kt:301-310 | the data chunk head holds its tag and the payload size modulo 2^32 |
| WaveHeader.FmtChunkFields | app/src/main/java/com/stockhome/app/audiorecorder/MainActivity.kt:266-298 | each field of the "fmt " chunk decodes to its constant |
| WaveHeader.ParseIgnoresTail | app/src/main/java/com/stockhome/app/audiorecorder/MainActivity.kt:213-219 | the payload written after the header does not change what the header reads as |
| WaveHeader.SizesRecoveredIff | app/src/main/java/com/stockhome/app/audiorecorder/MainActivity.kt:239-240 | a reader recovers `L` and `L + 36` from the header exactly when `L + 36 < 2^32` |
| WaveHeader.FixedFieldsIndependent | app/src/main/java/com/stockhome/app/audiorecorder/MainActivity.kt:236-310 | only bytes 4-7 and 40-43 depend on the length, and they agree for two lengths exactly when the sizes agree modulo 2^32 |
| WaveHeader.SameU32Iff | app/src/main/java/com/stockhome/app/audiorecorder/MainActivity.kt:255-258 | two values get the same four bytes exactly when they agree modulo 2^32 |
| WaveHeader.HeaderOfParsed | app/src/main/java/com/stockhome/app/audiorecorder/MainActivity.kt:247-310 | a 44-byte header that reads back as the canonical fields for some length is byte for byte the header written for that length |
| WaveHeader.RiffFromFields | app/src/main/java/com/stockhome/app/audiorecorder/MainActivity.kt:249-263 | bytes 0-11 with the right tags and chunk size are the written RIFF descriptor |
| WaveHeader.FmtFromFields | app/src/main/java/com/stockhome/app/audiorecorder/MainActivity.kt:266-298 | bytes 12-35 with the right tag and field values are the written "fmt " chunk |
| WaveHeader.DataFromFields | app/src/main/java/com/stockhome/app/audiorecorder/MainActivity.kt:301-310 | bytes 36-43 with the right tag and size are the written data chunk head |
| WaveConverter.IsWhitespace | app/src/main/java/com/stockhome/app/audiorecorder/MainActivity.kt:190 | space, tab, newline and carriage return are whitespace; no letter, digit, `/` or `.` is |
| WaveConverter.IsNullOrBlank | app/src/main/java/com/stockhome/app/audiorecorder/MainActivity.kt:190 | the empty path is blank, and no path containing `/` (every absolute path) is |
| WaveConverter.PathIn | app/src/main/java/com/stockhome/app/audiorecorder/MainActivity.kt:166-167 | `File(dir, name).absolutePath` is the directory, a `/`, then the name, and is never blank |
| WaveConverter.Zeros | app/src/main/java/com/stockhome/app/audiorecorder/MainActivity.kt:216 | `ByteArray(minBufferSize)` starts with every byte zero |
| WaveConverter.Chunks | app/src/main/java/com/stockhome/app/audiorecorder/MainActivity.kt:216-219 | every buffer the copy loop writes has the full buffer length |
| WaveConverter.Completed | app/src/main/java/com/stockhome/app/audiorecorder/MainActivity.kt:214-224 | a throwing write stops the run; no more writes complete than are attempted |
| WaveConverter.Read | app/src/main/java/com/stockhome/app/audiorecorder/MainActivity.kt:217 | `read(data)` returns -1 at the end of the input and leaves the buffer alone; otherwise it stores the next `min(size, remaining)` input bytes at the front of the buffer, returns their count, and leaves the tail unchanged |
| WaveConverter.ConvertToWave | app/src/main/java/com/stockhome/app/audiorecorder/MainActivity.kt:185-232 | the file system afterwards and the status given to the callback are those of the specification `Convert` |
| WaveConverter.CopyPayload | app/src/main/java/com/stockhome/app/audiorecorder/MainActivity.kt:216-219 | the bytes the copy loop writes, and whether it reaches the end of the input, are those of `CopyResult`, the whole buffer after each read until a write fails |
| WaveConverter.CopyAdvances | app/src/main/java/com/stockhome/app/audiorecorder/MainActivity.kt:217-218 | one read moves one whole buffer from what is left to copy to what has been written |
| WaveConverter.CopyEnds | app/src/main/java/com/stockhome/app/audiorecorder/MainActivity.kt:217-224 | the loop ends at the end of the input or at the failing write, and either way it has written `CopyResult` |
| WaveConverter.ChunksStep | app/src/main/java/com/stockhome/app/audiorecorder/MainActivity.kt:217-218 | the next buffer written is the bytes just read followed by the unchanged tail of the previous buffer |
| WaveConverter.FlattenAppend | app/src/main/java/com/stockhome/app/audiorecorder/MainActivity.kt:214-219 | the output stream after two runs of writes is the first run's bytes followed by the second's |
| WaveConverter.RefusedWithoutEffect | app/src/main/java/com/stockhome/app/audiorecorder/MainActivity.kt:190-198 | a null or blank path, or a missing input, reports -1 and leaves every file as it was |
| WaveConverter.ConvertStatus | app/src/main/java/com/stockhome/app/audiorecorder/MainActivity.kt:190-224 | for a non-zero buffer size and distinct paths, the callback receives 1 or -1. It receives 1 exactly when both paths are usable, the input exists, the buffer size is positive and none of the `1 + ceil(L/B)` writes fails |
| WaveConverter.ConvertSuccess | app/src/main/java/com/stockhome/app/audiorecorder/MainActivity.kt:199-222 | for distinct paths, on success, only the output changes. It holds the header for the input's length followed by the payload. The header reads back as that length, and the input follows the header unchanged |
| WaveConverter.ConvertWritesPrefix | app/src/main/java/com/stockhome/app/audiorecorder/MainActivity.kt:199-224 | for a non-zero buffer size and distinct paths, once the checks pass, the output exists and holds a prefix of what a run without faults writes; no other file changes |
| WaveConverter.FlattenPrefix | app/src/main/java/com/stockhome/app/audiorecorder/MainActivity.kt:214-219 | stopping after fewer writes leaves a prefix of the full output |
| WaveConverter.StopRecordPathsDistinct | app/src/main/java/com/stockhome/app/audiorecorder/MainActivity.kt:166-167 | `record.pcm` and `output.wav` in the same directory are distinct, non-blank paths |
| WaveConverter.StopRecord | app/src/main/java/com/stockhome/app/audiorecorder/MainActivity.kt:162-181 | the file system afterwards is the one `convertToWave` leaves for `record.pcm` into `output.wav`. The message is "success convert" exactly when the status is `> 0`, otherwise "fail convert". So success happens exactly when the capture exists, the buffer size is positive and no write fails |
| WaveConverter.Payload | app/src/main/java/com/stockhome/app/audiorecorder/MainActivity.kt:216-219 | the payload written without faults is `B * ceil(L/B)` bytes and begins with the whole input |
| WaveConverter.PayloadShape | app/src/main/java/com/stockhome/app/audiorecorder/MainActivity.kt:216-219 | the payload is shorter than `L + B`. Every byte after the input is a leftover: zero if `L < B`, otherwise the input byte one buffer length back |
| WaveConverter.PayloadExactIff | app/src/main/java/com/stockhome/app/audiorecorder/MainActivity.kt:216-219 | the payload has exactly the input's length, which is what the header announces, if and only if `B` divides `L` |
| WaveConverter.WholeBuffersCopiedExactly | app/src/main/java/com/stockhome/app/audiorecorder/MainActivity.kt:216-219 | an input of whole buffers is copied exactly |
| WaveConverter.ChunksCount | app/src/main/java/com/stockhome/app/audiorecorder/MainActivity.kt:217-219 | the loop writes `ceil(remaining / B)` buffers |
| WaveConverter.FlattenLength | app/src/main/java/com/stockhome/app/audiorecorder/MainActivity.kt:218 | writing `k` buffers of `n` bytes produces `n * k` bytes |
| WaveConverter.InputFirst | app/src/main/java/com/stockhome/app/audiorecorder/MainActivity.kt:217-218 | the bytes written from input position `pos` on start with the rest of the input |
| WaveConverter.StaleTail | app/src/main/java/com/stockhome/app/audiorecorder/MainActivity.kt:216-219 | past the end of the input, the written bytes are leftovers of the zeroed buffer or of the previous full read |
| WaveConverter.StaleFull | app/src/main/java/com/stockhome/app/audiorecorder/MainActivity.kt:217-218 | a full read overwrites the whole buffer, so what follows it is stale only in the same way |
| WaveConverter.StaleLast | app/src/main/java/com/stockhome/app/audiorecorder/MainActivity.kt:217-218 | the last, partial read leaves the end of the buffer as the previous read left it |
| WaveConverter.FlattenChunksStep | app/src/main/java/com/stockhome/app/audiorecorder/MainActivity.kt:217-218 | the bytes written from `pos` are the next buffer followed by those written after it |
| WaveConverter.StaleShift | app/src/main/java/com/stockhome/app/audiorecorder/MainActivity.kt:217-218 | a full buffer written in front of a stale tail keeps every byte past the input stale |
| WaveConverter.StaleByteExample | app/src/main/java/com/stockhome/app/audiorecorder/MainActivity.kt:216-219 | with input `[7, 8, 9]` and a two-byte buffer, the payload is `[7, 8, 9, 8]` |
| Capture.IsError | app/src/main/java/com/stockhome/app/audiorecorder/MainActivity.kt:118-122 | the four error codes are negative (between -6 and -1), so every byte count, and the unlisted codes -4 and -5, fall to the `else` branch |
| Capture.Notice | app/src/main/java/com/stockhome/app/audiorecorder/MainActivity.kt:118-122 | every error code is reported with the message that is its own name (`ERROR`, `ERROR_BAD_VALUE`, `ERROR_INVALID_OPERATION`, `ERROR_DEAD_OBJECT`), so every message starts with "ERROR" |
| Capture.Block | app/src/main/java/com/stockhome/app/audiorecorder/MainActivity.kt:116-124 | the buffer written is exactly `minBufferSize` bytes: the bytes read, then zeros |
| Capture.Written | app/src/main/java/com/stockhome/app/audiorecorder/MainActivity.kt:115-127 | no more buffers are written than reads are made |
| Capture.ReadInto | app/src/main/java/com/stockhome/app/audiorecorder/MainActivity.kt:117 | `read(buffer, 0, minBufferSize)` returns its result and stores its bytes at the front of the buffer; the rest of the buffer is unchanged |
| Capture.DrainOnce | app/src/main/java/com/stockhome/app/audiorecorder/MainActivity.kt:116-126 | an error code writes nothing and shows its message; any other result writes the whole fresh buffer and shows nothing |
| Capture.Drain | app/src/main/java/com/stockhome/app/audiorecorder/MainActivity.kt:109-131 | the file starts empty. With no recorder it stays empty. Otherwise it ends as `Drained` of the reads, and the messages shown are `Notices` of the reads |
| Capture.DrainedStep | app/src/main/java/com/stockhome/app/audiorecorder/MainActivity.kt:118-126 | one more read appends one buffer or one message and changes nothing earlier |
| Capture.ReadIntoFresh | app/src/main/java/com/stockhome/app/audiorecorder/MainActivity.kt:116-117 | a read into a fresh buffer leaves the bytes read followed by zeros |
| Capture.DrainedLength | app/src/main/java/com/stockhome/app/audiorecorder/MainActivity.kt:115-127 | the capture is `minBufferSize` bytes for every read that was not an error |
| Capture.NoticesCount | app/src/main/java/com/stockhome/app/audiorecorder/MainActivity.kt:118-126 | each read is either written or reported, never both |
| Capture.DrainedAppend | app/src/main/java/com/stockhome/app/audiorecorder/MainActivity.kt:115-127 | later reads only append: the capture never rewrites earlier bytes |
| Capture.ErrorsWriteNothing | app/src/main/java/com/stockhome/app/audiorecorder/MainActivity.kt:118-122 | a run of error codes writes nothing and shows one message per read |
| Capture.RecordThenConvert | app/src/main/java/com/stockhome/app/audiorecorder/MainActivity.kt:109-232 | converting a finished capture without a failing write succeeds, and `output.wav` is the header for the capture's length followed by exactly the capture |
| Samples.TruncToInt | app/src/main/java/com/stockhome/app/audiorecorder/MainActivity.kt:146 | `Float.toInt()` truncates toward zero |
| Samples.ToShort | app/src/main/java/com/stockhome/app/audiorecorder/MainActivity.kt:146 | `Int.toShort()` gives a short congruent to its argument modulo 2^16, and leaves a short unchanged |
| Samples.Limit | app/src/main/java/com/stockhome/app/audiorecorder/MainActivity.kt:141-153 | the limiter's result is always a short |
| Samples.LowerKnee | app/src/main/java/com/stockhome/app/audiorecorder/MainActivity.kt:145 | the lower knee polynomial never goes below -32767.5, and at the end of its range it reaches -28671.5 |
| Samples.UpperKnee | app/src/main/java/com/stockhome/app/audiorecorder/MainActivity.kt:150 | the upper knee polynomial never goes above 32767.5, and at the start of its range it reaches 28671.5 |
| Samples.Gain | app/src/main/java/com/stockhome/app/audiorecorder/MainActivity.kt:138-154 | `gain` returns a short. It returns -32768 when `x * scale <= -36864` and 32767 when `x * scale >= 36863` |
| Samples.LowerKneeBounds | app/src/main/java/com/stockhome/app/audiorecorder/MainActivity.kt:143-145 | the lower knee stays in [-32767, -28671] after truncation, so its `toShort()` never wraps |
| Samples.UpperKneeBounds | app/src/main/java/com/stockhome/app/audiorecorder/MainActivity.kt:148-150 | the upper knee stays in [28671, 32767] after truncation, so its `toShort()` never wraps |
| Samples.GainIdentity | app/src/main/java/com/stockhome/app/audiorecorder/MainActivity.kt:147 | with scale 1, every sample in [-28672, 28671] passes through unchanged |
| Samples.LimitRanges | app/src/main/java/com/stockhome/app/audiorecorder/MainActivity.kt:141-153 | the range of each of the five branches |
| Samples.LowerKneeMonotone | app/src/main/java/com/stockhome/app/audiorecorder/MainActivity.kt:143-145 | the lower knee is monotone |
| Samples.UpperKneeMonotone | app/src/main/java/com/stockhome/app/audiorecorder/MainActivity.kt:148-150 | the upper knee is monotone |
| Samples.LowerKneeDip | app/src/main/java/com/stockhome/app/audiorecorder/MainActivity.kt:143-147 | just below -28672 the limiter gives -28671, and at -28672 it gives -28672: the one-unit dip that truncation causes |
| Samples.Signed32 | app/src/main/java/com/stockhome/app/audiorecorder/MainActivity.kt:135 | a 32-bit `Int` result is the signed value congruent modulo 2^32 |
| Samples.AndFF00 | app/src/main/java/com/stockhome/app/audiorecorder/MainActivity.kt:135 | `and 0xFF00` gives the high byte of the 16-bit pattern times 256: a non-negative multiple of 256 no larger than 0xFF00 |
| Samples.Shr8 | app/src/main/java/com/stockhome/app/audiorecorder/MainActivity.kt:135 | `shr 8` of a non-negative value is its floor quotient by 256 |
| Samples.OrLowByte | app/src/main/java/com/stockhome/app/audiorecorder/MainActivity.kt:135 | `or` of a byte into a value whose low byte is clear gives that byte as the low byte and keeps the upper bits |
| Samples.Shl8 | app/src/main/java/com/stockhome/app/audiorecorder/MainActivity.kt:135 | `shl 8` on an `Int` clears the low byte and moves the low byte into bits 8 to 15 |
| Samples.ReverseBytes | app/src/main/java/com/stockhome/app/audiorecorder/MainActivity.kt:134-136 | the result is a short whose high byte is the argument's low byte and whose low byte is the argument's high byte |
| Samples.SwappedBits | app/src/main/java/com/stockhome/app/audiorecorder/MainActivity.kt:135 | before `toShort()`, the low 16 bits already hold the swapped bytes |
| Samples.ReverseBytesBitwise | app/src/main/java/com/stockhome/app/audiorecorder/MainActivity.kt:134-136 | for every short, Kotlin's `and 0xFF00`, `shr 8`, `shl 8` and `or` on the sign-extended 32-bit `Int` pattern leave the two bytes swapped in the low 16 bits, and those are the 16 bits of `reverseBytes` |
| Samples.ReverseBytesExamples | app/src/main/java/com/stockhome/app/audiorecorder/MainActivity.kt:134-136 | `reverseBytes(-2)` is -257 and `reverseBytes(0x00FF)` is -256 |
| Samples.ReverseBytesInvolution | app/src/main/java/com/stockhome/app/audiorecorder/MainActivity.kt:134-136 | swapping twice gives back the sample |
| Samples.ShortFromBytes | app/src/main/java/com/stockhome/app/audiorecorder/MainActivity.kt:134-136 | a short is determined by its two bytes |

## Left out

- The Android glue is not part of this model: permissions, `MediaProjection` negotiation, the `AudioRecord` builder,
  the foreground service and `getMinBufferSize`. `minBufferSize` is a parameter.
- `Toast`, `runOnUiThread` and `Log` are not modelled as effects. A message shown is modelled as the string it
  carries: `Notices` in the capture, the returned message in `StopRecord`.
- The `GlobalScope.launch` coroutines are not modelled. Capture and conversion run unsynchronised in the source, so
  each routine is modelled on its own. `RecordThenConvert` states what happens when the conversion starts after the
  capture has finished.
- The recorder is the sequence of read outcomes it produces while its state is RECORDING. When it leaves that state
  is not modelled.
- Capture.Drain: requires every read to store at most `minBufferSize` bytes. This is what `read(buffer, 0,
  minBufferSize)` guarantees.
- Capture.Drain: the buffer size is a `nat`. A negative `minBufferSize` would throw in `ByteArray`; that path is not
  modelled.
- Capture.Drain: the `createNewFile` call and the truncation on open are summarised by the capture starting empty.
  The file itself is not part of the method's state.
- Capture.Drain: assumes every file operation succeeds. A `createNewFile`, `outputStream()`, `write`, `flush` or
  `close` that throws an `IOException` (MainActivity.kt:112-113, 124, 128-129) is not modelled. In the source the
  exception escapes the coroutine uncaught, and `record.pcm` keeps the buffers written before the fault, so it need
  not be a whole number of buffers. `DrainedAppend` shows that such a file is a prefix of `Drained`.
- WaveConverter.Read: models an ideal `FileInputStream` that always fills `min(buffer size, remaining)` bytes. A
  short read from a real stream is not modelled.
- WaveConverter.ConvertToWave: requires the two paths to differ when both are usable. Converting a file onto itself
  would delete the input first. The only caller, `stopRecord`, passes distinct paths (`StopRecordPathsDistinct`).
- WaveConverter.ConvertToWave: requires `minBufferSize != 0`. With a zero buffer, `read(data)` returns 0 forever and
  the loop never ends. A negative size is modelled as the exception thrown after the header is written.
- WaveConverter.ConvertToWave: faults are modelled only as a write that throws before writing anything.
  - A failing `createNewFile` is swallowed in the source and is not modelled.
  - Failing opens or reads are not modelled.
  - Faults while closing the streams are not modelled.
- WaveConverter.Convert: for a buffer size of 0 the source never calls back, since `read` into an empty array returns 0
  forever. The function's value for that case models nothing. `ConvertToWave`, `StopRecord`, `ConvertStatus` and
  `ConvertWritesPrefix` all require a non-zero buffer size.
- WaveConverter.Convert: the function's value when both paths name the same file models nothing either. There the
  source deletes the input (MainActivity.kt:200), recreates it empty, writes `getWaveHeader(0)` and then reads back
  what it writes. The loop at :217-219 keeps finding new bytes, so it ends only when a write throws, and the
  callback never receives 1. `ConvertStatus`,
  `ConvertSuccess` and `ConvertWritesPrefix` require `DistinctPaths`, as `ConvertToWave` does. `DistinctPaths`
  compares the path strings, so two different spellings of one file, such as `/m/x` and `/m/./x`, pass it; the
  model treats paths as names and does not resolve them. `stopRecord`'s two paths differ in their file names
  (`StopRecordPathsDistinct`).
- WaveConverter.StopRecord: requires `minBufferSize != 0`, for the same reason as `ConvertToWave`. A null
  `getExternalFilesDir` is not modelled; the music directory is a parameter.
- The file length is a `Long` in the source. The model uses unbounded naturals, which agree for every real file
  length. The 32-bit truncation of the two size fields is written out (`Canonical`, `SizesRecoveredIff`).
- Samples.Gain: `x * scale` and the knee polynomials are computed in exact real arithmetic, not IEEE single
  precision, so float rounding is not modelled. Non-finite products are not modelled either: with a NaN product
  (a NaN `scale`, or `gain(0, Float.POSITIVE_INFINITY)`) every comparison of the `when` is false and the source
  returns 32767, and an infinite product falls to the outer branches, but a real number is never NaN or infinite.
- `gain` and `reverseBytes` have no caller in the source. In particular, the capture loop writes raw buffers.
- The `MediaRecorderService` foreground service is not part of this model.
