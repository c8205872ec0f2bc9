/** The simple player of `audio/player.rs`: one playback sink at a time, the file it plays,
    and position bookkeeping from a start instant plus the position accumulated before the
    last pause. The clock is an explicit `now` argument (in any fixed time unit); the steps
    of opening a stream, a file, a decoder and a sink are an outcome given to `Play`. */
module Player {
  import opened Wrappers
  import opened Numeric

  /** The state of the playback sink the player owns. */
  datatype SinkState = SinkState(paused: bool, empty: bool, volume: real)

  /** A sink as the player creates it: playing its newly appended source at full volume. */
  const FreshSink := SinkState(false, false, 1.0)

  datatype PlayError = StreamUnavailable | FileOpenFailed | DecodeFailed | SinkCreationFailed

  /** How far `play` gets: it fails at one of four steps, or starts. The duration used by the
      last two is the decoder's total duration, when it reports one. */
  datatype StartOutcome =
    | NoOutputStream
    | FileUnreadable
    | NotDecodable
    | SinkUnavailable(duration: Option<nat>)
    | Started(duration: Option<nat>)

  /** `pause_position + start.elapsed()` while running, the saved position otherwise;
      `elapsed` saturates at zero for an instant in the future. */
  function PositionAt(pausePosition: nat, startTime: Option<nat>, now: nat): (p: nat)
    ensures startTime.None? ==> p == pausePosition
    ensures startTime.Some? && startTime.value <= now ==> p == pausePosition + (now - startTime.value)
    ensures p >= pausePosition
  {
    match startTime
    case None => pausePosition
    case Some(start) => pausePosition + (if now >= start then now - start else 0)
  }

  /** While running, the position advances exactly with the clock. */
  lemma PositionAdvances(pausePosition: nat, start: nat, t1: nat, t2: nat)
    requires start <= t1 <= t2
    ensures PositionAt(pausePosition, Some(start), t2) == PositionAt(pausePosition, Some(start), t1) + (t2 - t1)
  {
  }

  class Player {
    var sink: Option<SinkState>
    var currentFile: Option<string>
    var startTime: Option<nat>
    var pausePosition: nat
    var totalDuration: Option<nat>

    /** `Player::new`: nothing playing. */
    constructor ()
      ensures sink.None? && currentFile.None? && startTime.None? && pausePosition == 0 && totalDuration.None?
    {
      sink := None;
      currentFile := None;
      startTime := None;
      pausePosition := 0;
      totalDuration := None;
    }

    /** `current_position` at instant `now`. */
    function CurrentPosition(now: nat): (p: nat)
      reads this
      ensures startTime.None? ==> p == pausePosition
      ensures startTime.Some? && startTime.value <= now ==> p == pausePosition + (now - startTime.value)
    {
      PositionAt(pausePosition, startTime, now)
    }

    /** `stop`: drop the sink and forget the file, the clock, the position and the duration. */
    method Stop()
      modifies this
      ensures sink.None? && currentFile.None? && startTime.None? && pausePosition == 0 && totalDuration.None?
      ensures forall now :: CurrentPosition(now) == 0
    {
      sink := None;
      currentFile := None;
      startTime := None;
      pausePosition := 0;
      totalDuration := None;
    }

    /** `play_from_position`: stop, then (if every step succeeds) play `path` from `position`,
        with the clock started at `now`. A failure after the decoder was created has already
        recorded the duration. */
    method PlayFromPosition(path: string, position: nat, now: nat, outcome: StartOutcome) returns (r: Result<(), PlayError>)
      modifies this
      ensures r.Ok? <==> outcome.Started?
      ensures outcome.Started? ==>
        && sink == Some(FreshSink) && currentFile == Some(path) && startTime == Some(now)
        && pausePosition == position && totalDuration == outcome.duration
        && CurrentPosition(now) == position
      ensures !outcome.Started? ==>
        && sink.None? && currentFile.None? && startTime.None? && pausePosition == 0
        && totalDuration == (if outcome.SinkUnavailable? then outcome.duration else None)
      ensures outcome == NoOutputStream ==> r == Err(StreamUnavailable)
      ensures outcome == FileUnreadable ==> r == Err(FileOpenFailed)
      ensures outcome == NotDecodable ==> r == Err(DecodeFailed)
      ensures outcome.SinkUnavailable? ==> r == Err(SinkCreationFailed)
    {
      Stop();
      match outcome
      case NoOutputStream =>
        return Err(StreamUnavailable);
      case FileUnreadable =>
        return Err(FileOpenFailed);
      case NotDecodable =>
        return Err(DecodeFailed);
      case SinkUnavailable(duration) =>
        totalDuration := duration;
        return Err(SinkCreationFailed);
      case Started(duration) =>
        totalDuration := duration;
        sink := Some(FreshSink);
        currentFile := Some(path);
        startTime := Some(now);
        pausePosition := position;
        r := Ok(());
    }

    /** `play`: the same from the beginning of the file. */
    method Play(path: string, now: nat, outcome: StartOutcome) returns (r: Result<(), PlayError>)
      modifies this
      ensures r.Ok? <==> outcome.Started?
      ensures outcome.Started? ==>
        && sink == Some(FreshSink) && currentFile == Some(path) && startTime == Some(now)
        && pausePosition == 0 && totalDuration == outcome.duration
        && CurrentPosition(now) == 0
      ensures !outcome.Started? ==>
        && sink.None? && currentFile.None? && startTime.None? && pausePosition == 0
        && totalDuration == (if outcome.SinkUnavailable? then outcome.duration else None)
      ensures outcome == NoOutputStream ==> r == Err(StreamUnavailable)
      ensures outcome == FileUnreadable ==> r == Err(FileOpenFailed)
      ensures outcome == NotDecodable ==> r == Err(DecodeFailed)
      ensures outcome.SinkUnavailable? ==> r == Err(SinkCreationFailed)
    {
      r := PlayFromPosition(path, 0, now, outcome);
    }

    /** `pause`: fold the time elapsed since the start into the saved position, pause the
        sink and stop the clock. Without a sink nothing happens. */
    method Pause(now: nat)
      modifies this
      ensures old(sink).None? ==> sink == old(sink) && startTime == old(startTime) && pausePosition == old(pausePosition)
      ensures old(sink).Some? ==>
        && sink == Some(old(sink).value.(paused := true)) && startTime.None?
        && pausePosition == old(CurrentPosition(now))
      ensures old(sink).Some? ==> forall later :: CurrentPosition(later) == old(CurrentPosition(now))
      ensures currentFile == old(currentFile) && totalDuration == old(totalDuration)
    {
      if sink.Some? {
        if startTime.Some? {
          var elapsed := if now >= startTime.value then now - startTime.value else 0;
          pausePosition := pausePosition + elapsed;
        }
        sink := Some(sink.value.(paused := true));
        startTime := None;
      }
    }

    /** `resume`: unpause the sink and restart the clock at `now`. Without a sink nothing
        happens. */
    method Resume(now: nat)
      modifies this
      ensures old(sink).None? ==> sink == old(sink) && startTime == old(startTime)
      ensures old(sink).Some? ==> sink == Some(old(sink).value.(paused := false)) && startTime == Some(now)
      ensures pausePosition == old(pausePosition) && currentFile == old(currentFile) && totalDuration == old(totalDuration)
    {
      if sink.Some? {
        sink := Some(sink.value.(paused := false));
        startTime := Some(now);
      }
    }

    /** `seek`: restart the current file from `position`; with no current file, succeed and
        change nothing. */
    method Seek(position: nat, now: nat, outcome: StartOutcome) returns (r: Result<(), PlayError>)
      modifies this
      ensures old(currentFile).None? ==>
        r.Ok? && sink == old(sink) && currentFile == old(currentFile) && startTime == old(startTime) &&
        pausePosition == old(pausePosition) && totalDuration == old(totalDuration)
      ensures old(currentFile).Some? ==> (r.Ok? <==> outcome.Started?)
      ensures old(currentFile).Some? && outcome.Started? ==>
        && sink == Some(FreshSink) && currentFile == old(currentFile) && startTime == Some(now)
        && pausePosition == position && totalDuration == outcome.duration
        && CurrentPosition(now) == position
      ensures old(currentFile).Some? && !outcome.Started? ==>
        && sink.None? && currentFile.None? && startTime.None? && pausePosition == 0
        && totalDuration == (if outcome.SinkUnavailable? then outcome.duration else None)
      ensures old(currentFile).Some? && outcome == NoOutputStream ==> r == Err(StreamUnavailable)
      ensures old(currentFile).Some? && outcome == FileUnreadable ==> r == Err(FileOpenFailed)
      ensures old(currentFile).Some? && outcome == NotDecodable ==> r == Err(DecodeFailed)
      ensures old(currentFile).Some? && outcome.SinkUnavailable? ==> r == Err(SinkCreationFailed)
    {
      if currentFile.Some? {
        r := PlayFromPosition(currentFile.value, position, now, outcome);
      } else {
        r := Ok(());
      }
    }

    /** `set_volume`: the sink's volume, clamped to [0, 1]; nothing without a sink. */
    method SetVolume(volume: real)
      modifies this
      ensures old(sink).None? ==> sink.None?
      ensures old(sink).Some? ==> sink == Some(old(sink).value.(volume := Clamp(volume, 0.0, 1.0)))
      ensures currentFile == old(currentFile) && startTime == old(startTime)
      ensures pausePosition == old(pausePosition) && totalDuration == old(totalDuration)
    {
      if sink.Some? {
        sink := Some(sink.value.(volume := Clamp(volume, 0.0, 1.0)));
      }
    }

    /** A sink exists, is not paused and still has audio queued. */
    method IsPlaying() returns (b: bool)
      ensures b <==> (sink.Some? && !sink.value.paused && !sink.value.empty)
    {
      b := match sink
        case Some(s) => !s.paused && !s.empty
        case None => false;
    }

    method CurrentFile() returns (f: Option<string>)
      ensures f == currentFile
    {
      f := currentFile;
    }

    method TotalDuration() returns (d: Option<nat>)
      ensures d == totalDuration
    {
      d := totalDuration;
    }

    /** A sink exists and is paused. */
    method IsPaused() returns (b: bool)
      ensures b <==> (sink.Some? && sink.value.paused)
    {
      b := match sink
        case Some(s) => s.paused
        case None => false;
    }
  }
}
