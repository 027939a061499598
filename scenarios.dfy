/**
 * Whole sessions of the speaker driven through Play and the scheduler, and
 * the extension test on concrete paths.
 */
module Scenarios {
  import opened Framing
  import opened PathText
  import opened Toys

  /** Upper-case extensions are lower-cased before the test, so ".OGG" plays. */
  lemma UpperCaseOggAccepted()
    ensures IsOggPath("music/THEME.OGG")
  {
    ExtensionOfSuffix("music/THEME.OGG", 4);
    LowerIsOgg(".OGG");
  }

  /** The '.' must lie in the final path component; other extensions are refused. */
  lemma OtherPathsRefused()
    ensures !IsOggPath("theme.mp3") && !IsOggPath("theme.ogg/") && !IsOggPath("sounds.ogg/theme")
    ensures !IsOggPath("theme.ogg.") && !IsOggPath("ogg")
  {
    OggPathSpec("theme.mp3");
    OggPathSpec("theme.ogg/");
    OggPathSpec("sounds.ogg/theme");
    OggPathSpec("theme.ogg.");
    OggPathSpec("ogg");
  }

  /** A 48 kHz mono file of 960 samples is sent as its two frames, and the session ends. */
  method TwoFrames(speaker: Speaker, samples: seq<real>) returns (routine: PlaybackRoutine)
    requires |samples| == 960
    modifies speaker
    ensures !speaker.isPlaying
    ensures routine.sent == [samples[..480], samples[480..]] && routine.streamBuffer == []
  {
    var ok;
    ok, routine := speaker.Play("clip.ogg", 1.0, 1.0, 15.0, false, true, Readable(48000, 1, samples));
    UpperCaseOggAccepted();
    OggPathSpec("clip.ogg");
    RunToEnd(routine);
    assert |routine.sent| == 2 && routine.streamBuffer == [];
    assert Frames(samples) == [samples[..480]] + Frames(samples[480..]);
    assert Frames(samples[480..]) == [samples[480..][..480]] + Frames(samples[480..][480..]);
    assert samples[480..][..480] == samples[480..] && Frames(samples[480..][480..]) == [];
  }

  /** A missing file: Play fails and no routine is started. */
  method MissingFile(speaker: Speaker)
    modifies speaker
    ensures !speaker.isPlaying
  {
    var volume := speaker.volume;
    var ok, routine := speaker.Play("missing.ogg", 0.5, 1.0, 15.0, false, false, Unreadable);
    assert !ok && routine == null && speaker.volume == volume;
  }

  /** A 44.1 kHz file is refused on the first resumption: nothing is sent and isPlaying stays set. */
  method WrongSampleRate(speaker: Speaker, samples: seq<real>)
    modifies speaker
    ensures speaker.isPlaying
  {
    var ok, routine := speaker.Play("clip.ogg", 1.0, 1.0, 15.0, false, true, Readable(44100, 1, samples));
    RunToEnd(routine);
    assert routine.sent == [];
  }

  /**
   * Play does not end a routine that is suspended between frames: Play sets
   * stopPlayback, but the new routine's first resumption clears it before
   * the earlier routine looks at it, so the earlier routine reads on, and
   * when it ends it clears isPlaying although the new session is playing.
   */
  method PlayAgainWhileSuspended(speaker: Speaker, earlier: PlaybackRoutine, path: string,
                                 volume: real, minDistance: real, maxDistance: real, source: OggSource)
    requires earlier.Valid() && earlier.speaker == speaker && earlier.stage == Suspended && speaker.isPlaying
    requires |earlier.streamBuffer| < FrameSize && earlier.readPos < |earlier.Samples()|
    modifies speaker, earlier, earlier.readBuffer, earlier.sendBuffer
    ensures earlier.readPos > old(earlier.readPos)
    ensures earlier.stage == Suspended || (earlier.stage == Done(EndOfStream) && !speaker.isPlaying)
  {
    var ok, routine := speaker.Play(path, volume, minDistance, maxDistance, false, true, source);
    assert speaker.stopPlayback;
    routine.Step();
    assert !speaker.stopPlayback;
    earlier.Step();
  }
}
