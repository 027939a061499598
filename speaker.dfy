/**
 * The speaker toy's playback session: the Play/Stop flags on the speaker and
 * the coroutine that decodes an Ogg Vorbis file and sends it as 480-sample
 * Opus frames. Each call of PlaybackRoutine.Step is one resumption of the
 * coroutine by the scheduler; the decoder is an OggSource value, the Opus
 * encoder and the network send are the ghost log `sent` of the frames handed
 * to them.
 */
module Toys {
  import opened Framing
  import opened PathText

  /** The operating point the routine enforces. */
  const SampleRate: int := 48000
  const Channels: int := 1

  /** Length of the routine's read and send buffers: 240 ms of 48 kHz audio. */
  const ReadBufferSize: nat := 48000 / 5 + 1920

  /** What the Vorbis reader makes of the file: it cannot be opened, or it decodes to these samples. */
  datatype OggSource =
    | Unreadable
    | Readable(sampleRate: int, channels: int, samples: seq<real>)

  /** How a routine ended. */
  datatype Exit =
    | UnsupportedFormat   // the extension is not ".ogg"
    | ReaderFailed        // the Vorbis reader could not open the file
    | InvalidFormat       // not 48 kHz mono
    | Stopped             // stopPlayback was seen at the top of the read loop
    | EndOfStream         // the reader returned no more samples

  /** How the read loop left off: a frame is queued, the stream ended, or stopPlayback was set. */
  datatype ReadOutcome = FrameQueued | EndReached | StopSeen

  /** Where the coroutine is: not yet run, suspended at the yield after a sent frame, or finished. */
  datatype Stage = NotStarted | Suspended | Done(exit: Exit)

  /** The ".ogg" test of the routine: the lower-cased extension of the path. */
  predicate IsOggPath(path: string)
  {
    ToLower(Extension(path)) == ".ogg"
  }

  /** A path passes the ".ogg" test exactly when it ends in '.' and "ogg" in any letter case. */
  lemma OggPathSpec(path: string)
    ensures IsOggPath(path) <==>
      |path| >= 4 && path[|path| - 4] == '.' && path[|path| - 3] in "oO" && path[|path| - 2] in "gG" && path[|path| - 1] in "gG"
  {
    ExtensionSpec(path);
    LowerIsOgg(Extension(path));
    var n := |path|;
    if n >= 4 && path[n - 4] == '.' && path[n - 3] in "oO" && path[n - 2] in "gG" && path[n - 1] in "gG" {
      ExtensionOfSuffix(path, 4);
    }
  }

  /** The source passes the extension, reader and format checks and reaches the read loop. */
  predicate Accepted(path: string, source: OggSource)
  {
    IsOggPath(path) && source.Readable? && source.sampleRate == SampleRate && source.channels == Channels
  }

  class Speaker {
    var stopPlayback: bool
    var isPlaying: bool
    var volume: real
    var minDistance: real
    var maxDistance: real

    constructor (volume: real, minDistance: real, maxDistance: real)
      ensures !stopPlayback && !isPlaying
      ensures this.volume == volume && this.minDistance == minDistance && this.maxDistance == maxDistance
    {
      stopPlayback, isPlaying := false, false;
      this.volume, this.minDistance, this.maxDistance := volume, minDistance, maxDistance;
    }

    /** Requests the end of playback; the running routine sees it at the top of its read loop. */
    method Stop()
      modifies this
      ensures stopPlayback && !isPlaying
      ensures volume == old(volume) && minDistance == old(minDistance) && maxDistance == old(maxDistance)
    {
      stopPlayback := true;
      isPlaying := false;
    }

    /**
     * Plays the file at `path`. `fileExists` is File.Exists(path) and `source`
     * what the Vorbis reader will decode from it. On success the returned
     * routine is handed to the scheduler, which resumes it by calling Step.
     * `destroyAfter` is accepted and ignored, as in the source.
     */
    method Play(path: string, volume: real, minDistance: real, maxDistance: real, destroyAfter: bool,
                fileExists: bool, source: OggSource)
      returns (ok: bool, routine: PlaybackRoutine?)
      modifies this
      ensures ok == fileExists && (routine != null <==> ok)
      ensures old(isPlaying) ==> stopPlayback
      ensures !old(isPlaying) ==> stopPlayback == old(stopPlayback)
      ensures !ok ==> !isPlaying
      ensures !ok ==> this.volume == old(this.volume) && this.minDistance == old(this.minDistance)
                      && this.maxDistance == old(this.maxDistance)
      ensures ok ==> isPlaying && this.volume == volume && this.minDistance == minDistance
                     && this.maxDistance == maxDistance
      ensures ok ==> fresh(routine) && fresh(routine.readBuffer) && fresh(routine.sendBuffer)
      ensures ok ==> routine.Valid() && routine.stage == NotStarted && routine.speaker == this
                     && routine.filePath == path && routine.source == source
    {
      if isPlaying {
        Stop();
      }
      if !fileExists {
        return false, null;
      }
      this.volume := volume;
      this.minDistance := minDistance;
      this.maxDistance := maxDistance;
      isPlaying := true;
      routine := new PlaybackRoutine(this, path, source);
      ok := true;
    }

    /** Play with the speaker's current volume and distances. */
    method PlayWithCurrentSettings(path: string, destroyAfter: bool, fileExists: bool, source: OggSource)
      returns (ok: bool, routine: PlaybackRoutine?)
      modifies this
      ensures ok == fileExists && (routine != null <==> ok)
      ensures volume == old(volume) && minDistance == old(minDistance) && maxDistance == old(maxDistance)
      ensures isPlaying == ok
      ensures old(isPlaying) ==> stopPlayback
      ensures !old(isPlaying) ==> stopPlayback == old(stopPlayback)
      ensures ok ==> fresh(routine) && routine.Valid() && routine.stage == NotStarted && routine.speaker == this
      ensures ok ==> routine.filePath == path && routine.source == source
    {
      ok, routine := Play(path, volume, minDistance, maxDistance, destroyAfter, fileExists, source);
    }

    /**
     * Reads `bytesRead` bytes of PCM as 16-bit little-endian samples spaced
     * BitsPerSample/8 bytes apart and stores each, scaled by 1/32768, into
     * floatBuffer. Returns the sample count, bytesRead / (BitsPerSample/8)
     * with C#'s truncating division. The preconditions exclude the cases in
     * which the source throws (division by zero, reads or writes out of range).
     */
    static method ConvertBytesToFloats(byteBuffer: array<Byte>, floatBuffer: array<real>, bytesRead: int, bitsPerSample: int)
      returns (sampleCount: int)
      requires bitsPerSample >= 8
      requires TruncDiv(bytesRead, bitsPerSample / 8) <= floatBuffer.Length
      requires TruncDiv(bytesRead, bitsPerSample / 8) > 0 ==>
                 (TruncDiv(bytesRead, bitsPerSample / 8) - 1) * (bitsPerSample / 8) + 2 <= byteBuffer.Length
      modifies floatBuffer
      ensures sampleCount == TruncDiv(bytesRead, bitsPerSample / 8)
      ensures forall i | 0 <= i < floatBuffer.Length ::
                floatBuffer[i] == if i < sampleCount then Normalized(byteBuffer[..], i, bitsPerSample / 8)
                                  else old(floatBuffer[i])
    {
      var bytesPerSample := bitsPerSample / 8;
      sampleCount := TruncDiv(bytesRead, bytesPerSample);
      var i := 0;
      while i < sampleCount
        invariant 0 <= i <= if sampleCount < 0 then 0 else sampleCount
        invariant forall k | 0 <= k < floatBuffer.Length ::
                    floatBuffer[k] == if k < i then Normalized(byteBuffer[..], k, bytesPerSample) else old(floatBuffer[k])
      {
        OffsetInRange(i, sampleCount, bytesPerSample);
        var sample := ToInt16(byteBuffer[i * bytesPerSample], byteBuffer[i * bytesPerSample + 1]);
        floatBuffer[i] := sample as real / 32768.0;
        i := i + 1;
      }
    }

    /**
     * Copies the samples' 4-byte float representations, in order, into a new
     * byte array. `floatBytes` gives the bytes of one float (its IEEE 754
     * single-precision bit pattern in memory order).
     */
    static method EncodeSamples(samples: array<real>, floatBytes: real -> FloatBytes) returns (encoded: array<Byte>)
      ensures encoded.Length == 4 * samples.Length
      ensures forall i, j | 0 <= i < samples.Length && 0 <= j < 4 :: encoded[4 * i + j] == floatBytes(samples[i])[j]
    {
      encoded := new Byte[4 * samples.Length];
      forall p | 0 <= p < encoded.Length {
        encoded[p] := floatBytes(samples[p / 4])[p % 4];
      }
      forall i, j | 0 <= i < samples.Length && 0 <= j < 4
        ensures encoded[4 * i + j] == floatBytes(samples[i])[j]
      {
        assert (4 * i + j) / 4 == i && (4 * i + j) % 4 == j;
      }
    }
  }

  /**
   * One run of the playback coroutine: its locals (the two FIFOs, the two
   * float buffers, the reader's position in the decoded stream) kept as
   * fields so that each resumption can be a call.
   */
  class PlaybackRoutine {
    const speaker: Speaker
    const filePath: string
    const source: OggSource
    const readBuffer: array<real>
    const sendBuffer: array<real>
    var stage: Stage
    /** The queue of decoded samples waiting to be framed. */
    var streamBuffer: seq<real>
    /** The playback buffer a frame passes through on its way to sendBuffer. */
    var playbackBuffer: seq<real>
    /** How many samples the reader has returned so far. */
    var readPos: nat
    /** The frames handed to the Opus encoder and sent, in order. */
    ghost var sent: seq<seq<real>>

    /** The decoded stream; empty when the reader cannot open the file. */
    function Samples(): (s: seq<real>)
      reads this
      ensures source.Unreadable? ==> s == []
    {
      if source.Readable? then source.samples else []
    }

    /**
     * The framer's invariant between frames: every sent frame is full, the
     * playback buffer is empty, and the frames sent so far followed by the
     * queued samples are exactly what the reader has returned, in order.
     */
    ghost predicate Framing()
      reads this
    {
      readPos <= |Samples()| &&
      playbackBuffer == [] &&
      AllFull(sent) &&
      Flatten(sent) + streamBuffer == Samples()[..readPos]
    }

    ghost predicate Valid()
      reads this
    {
      readBuffer.Length == ReadBufferSize && sendBuffer.Length == ReadBufferSize &&
      Framing() &&
      (stage.NotStarted? ==> readPos == 0 && streamBuffer == [] && sent == []) &&
      (stage.Suspended? ==> Accepted(filePath, source)) &&
      (stage == Done(EndOfStream) ==> readPos == |Samples()| && |streamBuffer| < FrameSize) &&
      (stage == Done(Stopped) ==> |streamBuffer| < FrameSize) &&
      (stage.Done? ==> (Accepted(filePath, source) <==> stage.exit in {Stopped, EndOfStream})) &&
      (stage.Done? && stage.exit in {UnsupportedFormat, ReaderFailed, InvalidFormat} ==>
         readPos == 0 && streamBuffer == [] && sent == [])
    }

    /** Strictly decreases with every resumption of a routine that has not finished. */
    ghost function Progress(): nat
      reads this
      requires Valid()
    {
      if stage.Done? then 0
      else (|Samples()| - readPos) + |streamBuffer| + (if stage.NotStarted? then 2 else 1)
    }

    constructor (speaker: Speaker, filePath: string, source: OggSource)
      ensures Valid() && stage == NotStarted
      ensures this.speaker == speaker && this.filePath == filePath && this.source == source
      ensures fresh(readBuffer) && fresh(sendBuffer)
    {
      this.speaker, this.filePath, this.source := speaker, filePath, source;
      readBuffer := new real[ReadBufferSize];
      sendBuffer := new real[ReadBufferSize];
      stage := NotStarted;
      streamBuffer, playbackBuffer, readPos := [], [], 0;
      sent := [];
    }

    /**
     * One resumption of the coroutine: from its start or from the yield after
     * the last sent frame, up to the next yield or to its end.
     */
    method Step()
      requires Valid()
      modifies this, speaker, readBuffer, sendBuffer
      ensures Valid()
      ensures old(stage).Done? ==> stage == old(stage) && sent == old(sent) && readPos == old(readPos)
      ensures speaker.stopPlayback == (if old(stage).NotStarted? then false else old(speaker.stopPlayback))
      ensures speaker.isPlaying == (if stage.Done? && stage.exit in {Stopped, EndOfStream} && !old(stage).Done?
                                    then false else old(speaker.isPlaying))
      ensures speaker.volume == old(speaker.volume) && speaker.minDistance == old(speaker.minDistance)
              && speaker.maxDistance == old(speaker.maxDistance)
      // the checks made on the first resumption, in the source's order
      ensures old(stage).NotStarted? && !IsOggPath(filePath) ==> stage == Done(UnsupportedFormat)
      ensures old(stage).NotStarted? && IsOggPath(filePath) && source.Unreadable? ==> stage == Done(ReaderFailed)
      ensures old(stage).NotStarted? && IsOggPath(filePath) && source.Readable? && !Accepted(filePath, source)
              ==> stage == Done(InvalidFormat)
      ensures old(stage).NotStarted? && Accepted(filePath, source) ==> stage in {Suspended, Done(EndOfStream)}
      // a resumption sends at most one frame and yields exactly when it has sent one
      ensures |old(sent)| <= |sent| <= |old(sent)| + 1 && sent[..|old(sent)|] == old(sent)
      ensures stage == Suspended <==> |sent| == |old(sent)| + 1
      // stopPlayback is only looked at once the queue holds less than a frame
      ensures old(stage) == Suspended && |old(streamBuffer)| >= FrameSize ==> stage == Suspended && readPos == old(readPos)
      ensures old(stage) == Suspended && old(speaker.stopPlayback) && |old(streamBuffer)| < FrameSize
              ==> stage == Done(Stopped) && readPos == old(readPos) && sent == old(sent)
      ensures !old(stage).Done? && stage == Done(Stopped) ==> speaker.stopPlayback
      // with stopPlayback clear and less than a frame queued, the next chunk is read
      ensures (old(stage) == Suspended && !old(speaker.stopPlayback) && |old(streamBuffer)| < FrameSize
               && old(readPos) < |Samples()|) ==> readPos > old(readPos)
      ensures !old(stage).Done? ==> Progress() < old(Progress())
    {
      if stage.Done? {
        return;
      }
      if stage.NotStarted? {
        speaker.stopPlayback := false;
        if ToLower(Extension(filePath)) != ".ogg" {
          stage := Done(UnsupportedFormat);
          return;
        }
        if source.Unreadable? {
          stage := Done(ReaderFailed);
          return;
        }
        if source.sampleRate != SampleRate || source.channels != Channels {
          stage := Done(InvalidFormat);
          return;
        }
      } else if |streamBuffer| >= FrameSize {
        // resumed inside the drain loop, whose condition still holds
        SendFrame();
        return;
      }
      var outcome := ReadUntilFrame();
      if outcome == FrameQueued {
        SendFrame();
        stage := Suspended;
      } else {
        speaker.isPlaying := false;
        stage := Done(if outcome == EndReached then EndOfStream else Stopped);
      }
    }

    /**
     * The read loop of the routine, entered with less than a frame queued:
     * while stopPlayback is clear, read a chunk and enqueue it, until a full
     * frame is queued or the reader reports the end of the stream.
     */
    method ReadUntilFrame() returns (outcome: ReadOutcome)
      requires Framing() && |streamBuffer| < FrameSize && readBuffer.Length == ReadBufferSize
      modifies this`readPos, this`streamBuffer, readBuffer
      ensures Framing()
      ensures (outcome == StopSeen) == speaker.stopPlayback
      ensures outcome == StopSeen ==> readPos == old(readPos) && streamBuffer == old(streamBuffer)
      ensures outcome == FrameQueued <==> |streamBuffer| >= FrameSize
      ensures outcome == EndReached ==> readPos == |Samples()|
      ensures readPos >= old(readPos)
      ensures |Samples()| - readPos + |streamBuffer| == old(|Samples()| - readPos + |streamBuffer|)
    {
      outcome := StopSeen;
      while !speaker.stopPlayback
        invariant Framing() && |streamBuffer| < FrameSize && readPos >= old(readPos)
        invariant speaker.stopPlayback ==> readPos == old(readPos) && streamBuffer == old(streamBuffer)
        invariant |Samples()| - readPos + |streamBuffer| == old(|Samples()| - readPos + |streamBuffer|)
        decreases |Samples()| - readPos
      {
        ghost var before, queued := readPos, streamBuffer;
        var samplesRead := ReadSamples();
        if samplesRead <= 0 {
          return EndReached;
        }
        EnqueueRead(samplesRead);
        calc {
          Flatten(sent) + streamBuffer;
          Flatten(sent) + (queued + Samples()[before..readPos]);
          (Flatten(sent) + queued) + Samples()[before..readPos];
          Samples()[..before] + Samples()[before..readPos];
          { assert Samples()[..readPos] == Samples()[..before] + Samples()[before..readPos]; }
          Samples()[..readPos];
        }
        if |streamBuffer| >= FrameSize {
          return FrameQueued;
        }
      }
    }

    /**
     * vorbisReader.ReadSamples(readBuffer, 0, readBuffer.Length): the reader
     * returns the next samples of the stream, as many as it chooses but at
     * least one and at most the buffer's length, and 0 only at end of stream.
     */
    method ReadSamples() returns (samplesRead: int)
      requires readPos <= |Samples()| && readBuffer.Length == ReadBufferSize
      modifies this`readPos, readBuffer
      ensures readPos <= |Samples()|
      ensures 0 <= samplesRead <= readBuffer.Length == ReadBufferSize
      ensures samplesRead == 0 <==> old(readPos) == |Samples()|
      ensures readPos == old(readPos) + samplesRead
      ensures readBuffer[..samplesRead] == Samples()[old(readPos)..readPos]
    {
      var remaining := |Samples()| - readPos;
      var most := if remaining < readBuffer.Length then remaining else readBuffer.Length;
      samplesRead :| 0 <= samplesRead <= most && (samplesRead == 0 ==> remaining == 0) && (remaining == 0 ==> samplesRead == 0);
      forall k | 0 <= k < samplesRead {
        readBuffer[k] := Samples()[readPos + k];
      }
      readPos := readPos + samplesRead;
    }

    /** Enqueues readBuffer[0..samplesRead) onto the stream buffer, in order. */
    method EnqueueRead(samplesRead: int)
      requires 0 <= samplesRead <= readBuffer.Length
      modifies this`streamBuffer
      ensures streamBuffer == old(streamBuffer) + readBuffer[..samplesRead]
    {
      var i := 0;
      while i < samplesRead
        invariant 0 <= i <= samplesRead
        invariant streamBuffer == old(streamBuffer) + readBuffer[..i]
      {
        streamBuffer := streamBuffer + [readBuffer[i]];
        i := i + 1;
      }
    }

    /**
     * One pass of the drain loop: FrameSize samples move from the stream
     * buffer through the playback buffer into sendBuffer, and that frame is
     * encoded and sent.
     */
    method SendFrame()
      requires Framing() && |streamBuffer| >= FrameSize && sendBuffer.Length >= FrameSize
      modifies this`streamBuffer, this`playbackBuffer, this`sent, sendBuffer
      ensures Framing()
      ensures streamBuffer == old(streamBuffer)[FrameSize..]
      ensures sent == old(sent) + [old(streamBuffer)[..FrameSize]]
      ensures sendBuffer[..FrameSize] == old(streamBuffer)[..FrameSize]
    {
      var i := 0;
      while i < FrameSize
        invariant 0 <= i <= FrameSize
        invariant playbackBuffer == old(streamBuffer)[..i]
        invariant streamBuffer == old(streamBuffer)[i..]
        invariant sent == old(sent)
      {
        var sample := streamBuffer[0];
        streamBuffer := streamBuffer[1..];
        playbackBuffer := playbackBuffer + [sample];
        i := i + 1;
      }
      if |playbackBuffer| >= FrameSize {
        // playbackBuffer.ReadTo(sendBuffer, frameSize, 0)
        forall k | 0 <= k < FrameSize {
          sendBuffer[k] := playbackBuffer[k];
        }
        assert sendBuffer[..FrameSize] == old(streamBuffer)[..FrameSize];
        playbackBuffer := playbackBuffer[FrameSize..];
        // encoder.Encode(sendBuffer, encodedBuffer, frameSize), then the audio message is sent
        sent := sent + [sendBuffer[..FrameSize]];
        assert AllFull(sent) by {
          assert forall k | 0 <= k < |old(sent)| :: sent[k] == old(sent)[k];
        }
        FlattenAppend(old(sent), [old(streamBuffer)[..FrameSize]]);
        assert Flatten(sent) + streamBuffer == Flatten(old(sent)) + old(streamBuffer);
      }
    }
  }

  /** Two bytes of PCM data, as BitConverter.ToInt16 reads them (little-endian). */
  newtype Byte = b: int | 0 <= b < 256

  /** BitConverter.ToInt16: the two's-complement value of the 16-bit word lo + 256 * hi. */
  function ToInt16(lo: Byte, hi: Byte): (v: int)
    ensures -32768 <= v < 32768
    ensures (v + 65536) % 65536 == lo as int + 256 * hi as int
  {
    var word := lo as int + 256 * hi as int;
    if word < 32768 then word else word - 65536
  }

  /** The bytes of one float, as Buffer.BlockCopy lays them out. */
  type FloatBytes = s: seq<Byte> | |s| == 4 witness [0, 0, 0, 0]

  /**
   * Sample `k` of 16-bit PCM data whose samples are `bytesPerSample` bytes
   * apart, scaled into [-1, 1); 0 where the data does not reach.
   */
  function Normalized(bytes: seq<Byte>, k: int, bytesPerSample: int): (x: real)
    ensures -1.0 <= x < 1.0
  {
    if 0 <= k * bytesPerSample && k * bytesPerSample + 2 <= |bytes|
    then ToInt16(bytes[k * bytesPerSample], bytes[k * bytesPerSample + 1]) as real / 32768.0
    else 0.0
  }

  /** The sample offsets below `count` stay below that of the last sample. */
  lemma OffsetInRange(i: int, count: int, bytesPerSample: int)
    requires 0 <= i < count && bytesPerSample > 0
    ensures 0 <= i * bytesPerSample <= (count - 1) * bytesPerSample
  {
  }

  /** The little-endian bytes of a 16-bit value: the inverse of ToInt16. */
  function Int16Bytes(v: int): (bytes: (Byte, Byte))
    requires -32768 <= v < 32768
  {
    var word := if v < 0 then v + 65536 else v;
    ((word % 256) as Byte, (word / 256) as Byte)
  }

  lemma Int16RoundTrip(v: int)
    requires -32768 <= v < 32768
    ensures ToInt16(Int16Bytes(v).0, Int16Bytes(v).1) == v
  {
  }

  lemma BytesRoundTrip(lo: Byte, hi: Byte)
    ensures Int16Bytes(ToInt16(lo, hi)) == (lo, hi)
  {
  }

  /** C#'s integer division of `a` by a positive `b`: the quotient truncated toward zero. */
  function TruncDiv(a: int, b: int): (q: int)
    requires b > 0
    ensures a >= 0 ==> 0 <= q * b <= a < q * b + b
    ensures a < 0 ==> q <= 0 && q * b - b < a <= q * b
  {
    if a >= 0 then
      DivBounds(a, b);
      a / b
    else
      DivBounds(-a, b);
      -((-a) / b)
  }

  lemma DivBounds(a: nat, b: int)
    requires b > 0
    ensures 0 <= (a / b) * b <= a < (a / b) * b + b
  {
  }

  /**
   * The scheduler resuming one routine every frame until it ends, with no
   * other routine or Stop call touching the speaker in between.
   */
  method RunToEnd(routine: PlaybackRoutine)
    requires routine.Valid() && routine.stage == NotStarted
    modifies routine, routine.speaker, routine.readBuffer, routine.sendBuffer
    ensures routine.Valid() && routine.stage.Done?
    ensures Accepted(routine.filePath, routine.source) ==>
              routine.stage == Done(EndOfStream) && !routine.speaker.isPlaying &&
              routine.sent == Frames(routine.Samples()) &&
              |routine.sent| == |routine.Samples()| / FrameSize &&
              |Flatten(routine.sent)| == FrameSize * (|routine.Samples()| / FrameSize) &&
              Flatten(routine.sent) == routine.Samples()[..SentLength(|routine.Samples()|)] &&
              routine.streamBuffer == routine.Samples()[SentLength(|routine.Samples()|)..]
    ensures !Accepted(routine.filePath, routine.source) ==>
              routine.sent == [] && routine.speaker.isPlaying == old(routine.speaker.isPlaying)
  {
    routine.Step();
    while !routine.stage.Done?
      invariant routine.Valid() && !routine.speaker.stopPlayback
      invariant routine.stage != NotStarted
      invariant Accepted(routine.filePath, routine.source) && routine.stage.Done? ==>
                  routine.stage == Done(EndOfStream) && !routine.speaker.isPlaying
      invariant !Accepted(routine.filePath, routine.source) ==>
                  routine.stage.Done? && routine.sent == [] && routine.speaker.isPlaying == old(routine.speaker.isPlaying)
      decreases routine.Progress()
    {
      routine.Step();
    }
    if Accepted(routine.filePath, routine.source) {
      var s := routine.Samples();
      assert s[..routine.readPos] == s;
      FramingUnique(routine.sent, routine.streamBuffer, s);
      FramesCover(s);
      FlattenFullLength(routine.sent);
    }
  }
}
