# Speaker playback and loader banner, modelled in Dafny

This project models two parts of EXILED, a plugin framework for SCP: Secret Laboratory servers.

**The speaker toy's playback session** (`Speaker.cs`). `Play` and `Stop` work through two flags on the speaker, `isPlaying` and `stopPlayback`. `Play` also starts a coroutine, `PlaybackRoutine`, which:

- decodes an Ogg Vorbis file;
- refuses any file that is not 48 kHz mono;
- frames the decoded samples through two FIFOs, `streamBuffer` and the playback buffer, into 480-sample Opus frames;
- sends one frame per game frame.

The model keeps this imperative form:

- `Toys.Speaker` is a class with the flags and the volume and distance settings.
- `Toys.PlaybackRoutine` holds the coroutine's locals as fields: the two queues as sequences, the read and send buffers as arrays, the reader's position, and the point where it is suspended.
- Each call of `Step` is one resumption by the scheduler. It runs up to the next `yield` or to the end of the routine.
- `RunToEnd` is the scheduler resuming one routine until it finishes.

The foreign parts are inputs:

- The file's existence is a boolean.
- The Vorbis reader is an `OggSource` value: the file cannot be opened, or it decodes to a sample rate, a channel count and a sample sequence. `ReadSamples` returns any chunk size the reader chooses, from 1 up to the buffer length, and 0 only at end of stream.
- The Opus encoder and the network send are the ghost log `sent` of the frames handed to them.

Samples are `real`. Each PCM value is a 16-bit integer divided by 32768, which a 32-bit float holds exactly, so `ConvertBytesToFloats` is modelled exactly.

**The loader's start-up banner** (`LoaderMessages.cs`). `GetMessage` picks the Default, Easter-egg, Christmas or Halloween banner. Its inputs are the command-line arguments, the loader version string, the outcome of the random draw and the month, all passed as parameters.

The central results:

- Invariant `Framing()`, kept by every step: every sent frame holds exactly 480 samples, and the sent frames followed by the queued samples are exactly what the reader has returned, in order.
- After end of stream, the queue holds fewer than 480 samples.
- `RunToEnd`: an accepted file of N samples is sent as `Frames(stream)`. That is N/480 frames, whose concatenation is the stream truncated to a multiple of 480; the last N mod 480 samples are never sent. `Framing.FramingUnique` shows this framing is the only one possible.

Notes on the code:

- There is no rate-credit pacer and no resampler. The pacing fields are commented out.
- Only Ogg is decoded.
- A format error ends the routine without clearing `isPlaying`. Only the end of the read loop clears it.
- Sessions on one speaker are not exclusive. `Play` sets `stopPlayback`, but the new routine clears it on its first resumption. An earlier routine that is suspended between frames therefore reads on, and when it ends it clears `isPlaying` for the new session (`Scenarios.PlayAgainWhileSuspended`).

## Model

| member | source | states |
|---|---|---|
| `Toys.Speaker.Stop` | EXILED/Exiled.API/Features/Toys/Speaker.cs:174-178 | sets `stopPlayback` and clears `isPlaying` and changes nothing else; both flags become constants, so a second call changes nothing |
| `Toys.Speaker.Play` | EXILED/Exiled.API/Features/Toys/Speaker.cs:151-169 | returns `File.Exists(path)`. A session that was playing is stopped first (`stopPlayback` set, `isPlaying` cleared). A missing file leaves the settings unchanged and starts no routine. An existing file sets volume and distances to the arguments, sets `isPlaying`, and returns one fresh, not-yet-run routine for this speaker, path and source |
| `Toys.Speaker.PlayWithCurrentSettings` | EXILED/Exiled.API/Features/Toys/Speaker.cs:140 | plays `path` through `Play` with the speaker's current volume and distances, which therefore stay unchanged. A session that was playing is stopped first (`stopPlayback` set), otherwise `stopPlayback` is untouched. `isPlaying` ends up equal to the result, which is `File.Exists(path)`; on success the returned routine is fresh, not yet run, and plays `path` from `source` on this speaker |
| `Toys.PlaybackRoutine.constructor` | EXILED/Exiled.API/Features/Toys/Speaker.cs:194-197 | a new routine has empty queues, fresh 11520-entry read and send buffers, and has sent nothing |
| `Toys.PlaybackRoutine.Step` | EXILED/Exiled.API/Features/Toys/Speaker.cs:180-255 | one resumption. Keeps `Valid()`. The first resumption clears `stopPlayback`, then refuses the file in this order: a non-".ogg" extension, an unreadable file, then anything other than 48 kHz mono. A refusal sends nothing and leaves `isPlaying` as it was. Each resumption sends at most one frame and suspends exactly when it has sent one. After a yield, a full queued frame is sent without looking at `stopPlayback` and without reading. Otherwise a set `stopPlayback` ends the routine without reading, and a clear one reads the next chunk. Only a stop or the end of stream clears `isPlaying`. Volume and distances never change. `Progress()` decreases |
| `Toys.PlaybackRoutine.ReadUntilFrame` | EXILED/Exiled.API/Features/Toys/Speaker.cs:215-226 | the outer read loop. It reports a stop exactly when `stopPlayback` is set, and then reads nothing. Otherwise it reads and enqueues chunks in order until a full frame is queued or the stream ends. It keeps the FIFO invariant and loses no sample |
| `Toys.PlaybackRoutine.ReadSamples` | EXILED/Exiled.API/Features/Toys/Speaker.cs:217-219 | a read asks for `readBuffer.Length` = 11520 samples. It returns between 0 and 11520 of them: the next samples of the stream, in order. It returns 0 exactly at end of stream |
| `Toys.PlaybackRoutine.EnqueueRead` | EXILED/Exiled.API/Features/Toys/Speaker.cs:222-223 | appends `readBuffer[0..samplesRead)` to the stream queue in order |
| `Toys.PlaybackRoutine.SendFrame` | EXILED/Exiled.API/Features/Toys/Speaker.cs:226-243 | moves the oldest 480 queued samples through the playback buffer into `sendBuffer[0..480)`. The playback buffer is empty before the writes, so its `Length >= frameSize` test always passes. That frame is logged as sent, and the FIFO invariant is kept |
| `Toys.RunToEnd` | EXILED/Exiled.API/Features/Toys/Speaker.cs:215-254 | with no stop requested, an accepted file ends at end of stream with `isPlaying` cleared. It has sent exactly `Frames(stream)`: N/480 frames, 480·(N/480) samples in all, whose concatenation is the stream truncated to a multiple of 480. The last N mod 480 samples stay queued. A refused file sends nothing and leaves `isPlaying` unchanged |
| `Toys.OggPathSpec` | EXILED/Exiled.API/Features/Toys/Speaker.cs:185 | the lower-cased-extension test accepts a path exactly when it ends in '.' followed by "ogg" in any letter case |
| `Toys.Speaker.ConvertBytesToFloats` | EXILED/Exiled.API/Features/Toys/Speaker.cs:257-270 | returns `bytesRead / (BitsPerSample/8)` with C#'s truncating division. It writes only `floatBuffer[0..count)`. Entry i is the little-endian 16-bit value at byte offset `i * bytesPerSample`, divided by 32768. Every other entry is unchanged |
| `Toys.Speaker.EncodeSamples` | EXILED/Exiled.API/Features/Toys/Speaker.cs:272-277 | returns exactly `4 * samples.Length` bytes. Bytes `4i..4i+3` are the bytes of float i |
| `Toys.ToInt16` | EXILED/Exiled.API/Features/Toys/Speaker.cs:265 | `BitConverter.ToInt16` yields a value in [-32768, 32768) congruent to `lo + 256*hi` modulo 65536 |
| `Toys.Int16RoundTrip` | EXILED/Exiled.API/Features/Toys/Speaker.cs:265 | the 16-bit reading inverts the little-endian encoding of every 16-bit value |
| `Toys.BytesRoundTrip` | EXILED/Exiled.API/Features/Toys/Speaker.cs:265 | encoding the value read from two bytes gives back those two bytes |
| `Toys.Normalized` | EXILED/Exiled.API/Features/Toys/Speaker.cs:265-266 | a normalised sample lies in [-1, 1) |
| `Toys.TruncDiv` | EXILED/Exiled.API/Features/Toys/Speaker.cs:260 | C# division by a positive divisor. For a non-negative dividend the quotient is the largest q with `q*b <= a`. For a negative dividend it is the smallest q with `a <= q*b`, rounding toward zero |
| `Framing.Frames` | EXILED/Exiled.API/Features/Toys/Speaker.cs:226-234 | the reference framing gives `N / 480` frames of exactly 480 samples each |
| `Framing.FramesCover` | EXILED/Exiled.API/Features/Toys/Speaker.cs:226-234 | the reference frames, concatenated, are the stream in order, truncated to a multiple of 480 |
| `Framing.FramingUnique` | EXILED/Exiled.API/Features/Toys/Speaker.cs:226-233 | if full frames followed by a tail of fewer than 480 samples make up a stream, then the frames are the reference framing and the tail is its last `N mod 480` samples |
| `Framing.FlattenAppend` | EXILED/Exiled.API/Features/Toys/Speaker.cs:228-238 | sending one more frame appends it to the concatenation of the frames already sent |
| `Framing.FlattenFullLength` | EXILED/Exiled.API/Features/Toys/Speaker.cs:226-234 | k full frames hold exactly 480·k samples |
| `PathText.ExtensionSpec` | EXILED/Exiled.API/Features/Toys/Speaker.cs:185 | `Path.GetExtension` returns empty exactly when the path ends in '.' or no '.' is followed by a name without a separator. Otherwise it returns a suffix of the path that starts with its only '.' and contains no separator |
| `PathText.ExtensionScanSpec` | EXILED/Exiled.API/Features/Toys/Speaker.cs:185 | the backwards scan over the unscanned prefix meets the same characterisation |
| `PathText.ExtensionOfSuffix` | EXILED/Exiled.API/Features/Toys/Speaker.cs:185 | a final component ending in '.' followed by a non-empty name has exactly that '.' and name as its extension |
| `PathText.ToLower` | EXILED/Exiled.API/Features/Toys/Speaker.cs:185 | lower-casing keeps the length, leaves no upper-case ASCII letter, keeps every character that is not one, and turns each upper-case letter into its lower-case partner |
| `PathText.ToLowerIdempotent` | EXILED/Exiled.API/Features/Toys/Speaker.cs:185 | lower-casing a lower-cased string changes nothing |
| `PathText.LowerIsOgg` | EXILED/Exiled.API/Features/Toys/Speaker.cs:202 | an extension lower-cases to ".ogg" exactly when it is ".ogg" in some mix of letter case |
| `Scenarios.UpperCaseOggAccepted` | EXILED/Exiled.API/Features/Toys/Speaker.cs:202 | "music/THEME.OGG" passes the Ogg test |
| `Scenarios.OtherPathsRefused` | EXILED/Exiled.API/Features/Toys/Speaker.cs:247-251 | paths ending in ".mp3", "/", ".", "ogg" without a dot, or with ".ogg" in a directory name are refused |
| `Scenarios.TwoFrames` | EXILED/Exiled.API/Features/Toys/Speaker.cs:215-254 | a 48 kHz mono file of 960 samples is sent as its two halves, in order, with nothing left queued, and `isPlaying` ends cleared |
| `Scenarios.MissingFile` | EXILED/Exiled.API/Features/Toys/Speaker.cs:156-160 | `Play` on a missing file fails, starts nothing, and leaves `isPlaying` cleared |
| `Scenarios.WrongSampleRate` | EXILED/Exiled.API/Features/Toys/Speaker.cs:207-211 | a 44.1 kHz file sends nothing, and `isPlaying` stays set |
| `Scenarios.PlayAgainWhileSuspended` | EXILED/Exiled.API/Features/Toys/Speaker.cs:153-182 | Take an earlier routine that is suspended with less than a frame queued. After `Play` and the new routine's first resumption, that earlier routine reads more of its file. If it then ends, it clears `isPlaying` for the new session |
| `LoaderMessages.GetMessage` | EXILED/Exiled.Loader/Features/LoaderMessages.cs:82-96 | "--defaultloadmessage" forces Default. The Easter egg is chosen exactly when neither flag is given and the version contains "6.9" or the draw hits. Otherwise month 12 gives Christmas, month 10 gives Halloween, and any other month gives Default |
| `LoaderMessages.DrawIgnoredUnlessDrawn` | EXILED/Exiled.Loader/Features/LoaderMessages.cs:87 | when short-circuit evaluation skips the draw, the draw's outcome cannot change the banner |
| `LoaderMessages.NoEasterEggFlagHonoured` | EXILED/Exiled.Loader/Features/LoaderMessages.cs:87-95 | with "--noeasteregg" the result is never the Easter egg. Without "--defaultloadmessage" the month alone then decides |
| `LoaderMessages.VersionEasterEgg` | EXILED/Exiled.Loader/Features/LoaderMessages.cs:87-88 | with neither flag given, any version string containing "6.9" selects the Easter egg, whatever the draw and month |
| `LoaderMessages.MonthDecides` | EXILED/Exiled.Loader/Features/LoaderMessages.cs:90-95 | with no version match and a missed draw, the banner is Christmas in December, Halloween in October, and Default in any other month |

## Left out

- The speaker's property wrappers, `ControllerID`, `IsSpatial`, `Create` and `Get` are left out. They mirror network fields of the game engine. Volume and the two distances are plain fields that `Play` writes.
- Opus encoding and the audio message are left out: the encoder is a foreign library, and its payload bytes are not part of the model. The log `sent` records the 480-sample frame handed to the encoder. Logging is left out.
- `Timing.RunCoroutine` and `WaitForOneFrame` are modelled only as calls of `Step`. Whether the scheduler runs the first resumption inside `Play` or one frame later is not modelled. Either way, the first resumption is the first call of `Step`.
- Unreadable files: the Vorbis reader's constructor throwing is modelled as `Unreadable`, taken to end the routine like a refusal. A read that throws in the middle of the stream is not modelled.
- `PlaybackBuffer` is modelled as an unbounded FIFO. Its capacity and overwrite rules belong to the game's library. The routine never holds more than 480 samples in it.
- `Toys.Speaker.ConvertBytesToFloats`: its preconditions exclude the inputs on which the source throws. These are `BitsPerSample` between -7 and 7 (`BitsPerSample / 8` is 0, a division by zero), a sample offset past the end of `byteBuffer`, and a count beyond `floatBuffer.Length`. Negative bit depths of -8 or lower do not throw for a non-negative `bytesRead`; they are excluded as well, as meaningless for PCM, so the model says nothing about them.
- `Toys.Speaker.EncodeSamples`: the IEEE 754 bit pattern of a float is the parameter `floatBytes`, not computed.
- `PathText.ToLower` maps only ASCII letters. Culture-specific case mapping is left out.
- `Path.GetExtension` is modelled with '/' as the only separator, as .NET has it on Unix; on Windows '\\' is a separator as well.
- `LoaderMessages.GetMessage` takes the random comparison `NextDouble() <= 0.069` as a boolean, because the floating-point draw itself is left out. The arguments, version and month are parameters. The banner texts are opaque constants.
- `Config.cs` (default configuration values) and `GrenadeThrownEvent.cs` (a patch forwarding to an event bus) are not part of this model.
