/** Loudness analysis of `metadata/loudness.rs`: feed every decoded sample to an EBU R128
    meter, take the largest per-channel peak, convert it to dB (with a silence floor), and
    derive the normalisation gain towards -14 LUFS, limited by the peak headroom and clamped
    to [-12, 12] dB. The meter itself (whether it accepts a chunk, and its readings) and
    `log10` are parameters. */
module Loudness {
  import opened Wrappers
  import opened Numeric
  import opened Sequences
  import Decoder

  /** `TARGET_LOUDNESS_LUFS` */
  const TargetLoudnessLufs: real := -14.0
  /** `MAX_GAIN_DB` */
  const MaxGainDb: real := 12.0
  /** `MIN_GAIN_DB` */
  const MinGainDb: real := -12.0
  /** The dB figure reported for a track whose peak is not positive. */
  const SilenceDb: real := -96.0

  /** A global loudness reading in LUFS. The meter reports minus infinity for a stream that
      never passes its gates: silence, or input too quiet or too short to measure. */
  datatype Lufs = Finite(value: real) | NegInfinity

  datatype LoudnessResult = LoudnessResult(
    integratedLufs: Lufs,
    loudnessRange: real,
    truePeakDb: real,
    normalizationGainDb: real)

  datatype LoudnessError =
    | DecoderFailed(cause: Decoder.DecoderError)
    | MeterCreationFailed(detail: string)
    | AddFramesFailed(detail: string)
    | IntegratedLoudnessFailed(detail: string)
    | LoudnessRangeFailed(detail: string)
    | TruePeakFailed(channel: nat, detail: string)

  /** What the meter reports once it has seen the samples: global loudness, loudness range,
      and a true-peak query per channel. Each query may fail. */
  datatype MeterReadings = MeterReadings(
    integrated: Result<Lufs, string>,
    range: Result<real, string>,
    truePeak: nat -> Result<real, string>)

  // ---------------------------------------------------------------------------------------
  // Gain

  /** The normalisation gain: `min(-14 - lufs, -truePeakDb)` clamped to [-12, 12]. It never
      leaves the clamp range, never exceeds the peak headroom unless the floor forces it,
      and equals the raw gain towards the target whenever neither limit binds. For a reading
      of minus infinity the raw gain is plus infinity, so the headroom alone decides. */
  function NormalizationGainDb(integrated: Lufs, truePeakDb: real): (g: real)
    ensures MinGainDb <= g <= MaxGainDb
    ensures g <= Max(-truePeakDb, MinGainDb)
    ensures integrated.Finite? ==> g <= Max(TargetLoudnessLufs - integrated.value, MinGainDb)
    ensures integrated.Finite? && TargetLoudnessLufs - integrated.value <= -truePeakDb &&
            MinGainDb <= TargetLoudnessLufs - integrated.value <= MaxGainDb ==>
              g == TargetLoudnessLufs - integrated.value
    ensures (integrated.NegInfinity? || -truePeakDb <= TargetLoudnessLufs - integrated.value) &&
            MinGainDb <= -truePeakDb <= MaxGainDb ==>
              g == -truePeakDb
    ensures integrated.NegInfinity? ==> g == Clamp(-truePeakDb, MinGainDb, MaxGainDb)
    ensures integrated.Finite? && Min(TargetLoudnessLufs - integrated.value, -truePeakDb) >= MaxGainDb ==> g == MaxGainDb
  {
    var peakHeadroom := -truePeakDb;
    match integrated
    case NegInfinity => Clamp(peakHeadroom, MinGainDb, MaxGainDb)
    case Finite(lufs) =>
      var rawGain := TargetLoudnessLufs - lufs;
      Clamp(Min(rawGain, peakHeadroom), MinGainDb, MaxGainDb)
  }

  /** A silent track (loudness minus infinity, peak reported as -96 dB) gets the full boost. */
  lemma SilentTrackGetsMaxGain()
    ensures NormalizationGainDb(NegInfinity, SilenceDb) == MaxGainDb
  {
  }

  /** With headroom to spare, a -20 LUFS track gets +6 dB and a -10 LUFS one -4 dB. */
  lemma GainExamples(truePeakDb: real)
    requires truePeakDb <= -6.0
    ensures NormalizationGainDb(Finite(-20.0), truePeakDb) == 6.0
    ensures NormalizationGainDb(Finite(-10.0), truePeakDb) == -4.0
  {
  }

  /** A silent track (peak reported as -96 dB) gets the raw gain, clamped. */
  lemma SilenceNeverLimitsGain(integratedLufs: real)
    ensures NormalizationGainDb(Finite(integratedLufs), SilenceDb) ==
            Clamp(TargetLoudnessLufs - integratedLufs, MinGainDb, MaxGainDb)
  {
  }

  // ---------------------------------------------------------------------------------------
  // Peak

  /** The running maximum over channels `0 .. n`, starting from minus infinity (`None`),
      or the first channel whose peak query fails. */
  function PeakFold(n: nat, truePeak: nat -> Result<real, string>): Result<Option<real>, LoudnessError>
  {
    if n == 0 then Ok(None)
    else match PeakFold(n - 1, truePeak)
      case Err(e) => Err(e)
      case Ok(m) =>
        match truePeak(n - 1)
        case Err(e) => Err(TruePeakFailed(n - 1, e))
        case Ok(p) => Ok(if m.None? || p > m.value then Some(p) else m)
  }

  /** The fold yields minus infinity for no channels and otherwise the largest per-channel
      peak; it fails exactly when some channel's query fails, naming the first such channel. */
  lemma {:induction false} PeakFoldIsMax(n: nat, truePeak: nat -> Result<real, string>)
    ensures PeakFold(n, truePeak).Ok? <==> forall ch :: 0 <= ch < n ==> truePeak(ch).Ok?
    ensures PeakFold(n, truePeak).Err? ==>
      exists ch :: (0 <= ch < n && truePeak(ch).Err? &&
                    PeakFold(n, truePeak).error == TruePeakFailed(ch, truePeak(ch).error) &&
                    forall j :: 0 <= j < ch ==> truePeak(j).Ok?)
    ensures PeakFold(n, truePeak) == Ok(None) <==> n == 0
    ensures PeakFold(n, truePeak).Ok? && n > 0 ==>
      var m := PeakFold(n, truePeak).value.value;
      (exists ch :: 0 <= ch < n && truePeak(ch) == Ok(m)) && forall ch :: 0 <= ch < n ==> truePeak(ch).value <= m
    decreases n
  {
    if n > 0 {
      PeakFoldIsMax(n - 1, truePeak);
    }
  }

  /** Once a channel's query has failed, the fold keeps that failure. */
  lemma {:induction false} PeakFoldKeepsFailure(k: nat, n: nat, truePeak: nat -> Result<real, string>)
    requires k <= n && PeakFold(k, truePeak).Err?
    ensures PeakFold(n, truePeak) == PeakFold(k, truePeak)
    decreases n - k
  {
    if k < n {
      PeakFoldKeepsFailure(k + 1, n, truePeak);
    }
  }

  /** The loop over channels that keeps the largest true peak seen so far. */
  method MaxTruePeak(channels: nat, truePeak: nat -> Result<real, string>) returns (r: Result<Option<real>, LoudnessError>)
    ensures r == PeakFold(channels, truePeak)
  {
    var maxTruePeak: Option<real> := None;
    for ch := 0 to channels
      invariant PeakFold(ch, truePeak) == Ok(maxTruePeak)
    {
      match truePeak(ch)
      case Err(e) =>
        PeakFoldKeepsFailure(ch + 1, channels, truePeak);
        return Err(TruePeakFailed(ch, e));
      case Ok(peak) =>
        if maxTruePeak.None? || peak > maxTruePeak.value {
          maxTruePeak := Some(peak);
        }
    }
    r := Ok(maxTruePeak);
  }

  /** Linear peak to dB; anything not above zero (including no channel at all) reads as
      silence. */
  function TruePeakDb(maxTruePeak: Option<real>, log10: real -> real): (db: real)
    ensures maxTruePeak.Some? && maxTruePeak.value > 0.0 ==> db == 20.0 * log10(maxTruePeak.value)
    ensures maxTruePeak.None? || maxTruePeak.value <= 0.0 ==> db == SilenceDb
  {
    if maxTruePeak.Some? && maxTruePeak.value > 0.0 then 20.0 * log10(maxTruePeak.value) else SilenceDb
  }

  // ---------------------------------------------------------------------------------------
  // The whole analysis

  /** Every sample the analysis loop feeds to the meter: the chunks `decode_next` returns, in
      order, until the end of the stream; calls that fail are passed over. */
  function DecodedStream(ps: seq<Decoder.PacketEvent>, track: nat): seq<real>
    requires Decoder.EventsWellFormed(ps)
    decreases |ps|
  {
    var step := Decoder.DecodeLoop(ps, track);
    RestWellFormed(ps, track);
    match step.result
    case Ok(None) => []
    case Ok(Some(samples)) => samples + DecodedStream(step.rest, track)
    case Err(_) => DecodedStream(step.rest, track)
  }

  /** What the decode loop leaves unread is still well formed. */
  lemma RestWellFormed(ps: seq<Decoder.PacketEvent>, track: nat)
    requires Decoder.EventsWellFormed(ps)
    ensures Decoder.EventsWellFormed(Decoder.DecodeLoop(ps, track).rest)
  {
    var rest := Decoder.DecodeLoop(ps, track).rest;
    forall i | 0 <= i < |rest| ensures Decoder.EventWellFormed(rest[i]) {
      assert rest[i] == ps[|ps| - |rest| + i];
    }
  }

  /** Whether the meter accepts a chunk after the samples it has already seen (`None`) or
      rejects it with a message. */
  type AddFrames = (seq<real>, seq<real>) -> Option<string>

  /** The analysis loop with the meter's `add_frames_f32`: starting from the samples `fed`
      already accepted, every decoded chunk is offered to the meter in order; the first
      rejection ends the analysis with its message; otherwise the result is all samples fed. */
  function Feed(ps: seq<Decoder.PacketEvent>, track: nat, fed: seq<real>, addFrames: AddFrames): (r: Result<seq<real>, string>)
    requires Decoder.EventsWellFormed(ps)
    ensures r.Ok? ==> fed <= r.value
    decreases |ps|
  {
    var step := Decoder.DecodeLoop(ps, track);
    RestWellFormed(ps, track);
    match step.result
    case Ok(None) => Ok(fed)
    case Ok(Some(samples)) =>
      (match addFrames(fed, samples)
       case Some(e) => Err(e)
       case None => Feed(step.rest, track, fed + samples, addFrames))
    case Err(_) => Feed(step.rest, track, fed, addFrames)
  }


  /** A meter that accepts every chunk is fed exactly the decoded stream. */
  lemma {:induction false} FeedAcceptedIsDecodedStream(ps: seq<Decoder.PacketEvent>, track: nat, fed: seq<real>, addFrames: AddFrames)
    requires Decoder.EventsWellFormed(ps)
    requires forall a, b :: addFrames(a, b).None?
    ensures Feed(ps, track, fed, addFrames) == Ok(fed + DecodedStream(ps, track))
    decreases |ps|
  {
    var step := Decoder.DecodeLoop(ps, track);
    RestWellFormed(ps, track);
    match step.result
    case Ok(None) =>
      assert fed + [] == fed;
    case Ok(Some(samples)) =>
      FeedAcceptedIsDecodedStream(step.rest, track, fed + samples, addFrames);
      AppendAssoc(fed, samples, DecodedStream(step.rest, track));
    case Err(_) =>
      FeedAcceptedIsDecodedStream(step.rest, track, fed, addFrames);
  }

  /** When no chunk is rejected, the meter has been fed the whole decoded stream after the
      samples it had already accepted. */
  lemma {:induction false} FeedOkIsDecodedStream(ps: seq<Decoder.PacketEvent>, track: nat, fed: seq<real>, addFrames: AddFrames)
    requires Decoder.EventsWellFormed(ps)
    requires Feed(ps, track, fed, addFrames).Ok?
    ensures Feed(ps, track, fed, addFrames).value == fed + DecodedStream(ps, track)
    decreases |ps|
  {
    var step := Decoder.DecodeLoop(ps, track);
    RestWellFormed(ps, track);
    var whole := Feed(ps, track, fed, addFrames);
    var stream := DecodedStream(ps, track);
    match step.result
    case Ok(None) =>
      assert whole == Ok(fed) && stream == [];
      assert fed + [] == fed;
    case Ok(Some(samples)) =>
      var rest := DecodedStream(step.rest, track);
      assert stream == samples + rest;
      assert whole == Feed(step.rest, track, fed + samples, addFrames);
      FeedOkIsDecodedStream(step.rest, track, fed + samples, addFrames);
      AppendAssoc(fed, samples, rest);
    case Err(_) =>
      assert stream == DecodedStream(step.rest, track);
      assert whole == Feed(step.rest, track, fed, addFrames);
      FeedOkIsDecodedStream(step.rest, track, fed, addFrames);
  }

  /** Everything after the meter has seen the stream: read global loudness and range, fold
      the peaks, convert to dB and compute the gain. */
  function Finish(readings: MeterReadings, channels: nat, log10: real -> real): (r: Result<LoudnessResult, LoudnessError>)
    ensures r.Ok? ==> MinGainDb <= r.value.normalizationGainDb <= MaxGainDb
    ensures r.Ok? ==> readings.integrated.Ok? && readings.range.Ok? && PeakFold(channels, readings.truePeak).Ok?
    ensures r.Ok? ==> r.value.integratedLufs == readings.integrated.value && r.value.loudnessRange == readings.range.value
    ensures r.Ok? ==> r.value.truePeakDb == TruePeakDb(PeakFold(channels, readings.truePeak).value, log10)
    ensures r.Ok? ==> r.value.normalizationGainDb == NormalizationGainDb(r.value.integratedLufs, r.value.truePeakDb)
    ensures readings.integrated.Ok? && readings.range.Ok? && PeakFold(channels, readings.truePeak).Ok? ==> r.Ok?
    ensures readings.integrated.Err? ==> r == Err(IntegratedLoudnessFailed(readings.integrated.error))
    ensures readings.integrated.Ok? && readings.range.Err? ==> r == Err(LoudnessRangeFailed(readings.range.error))
    ensures readings.integrated.Ok? && readings.range.Ok? && PeakFold(channels, readings.truePeak).Err? ==>
      r == Err(PeakFold(channels, readings.truePeak).error)
  {
    match readings.integrated
    case Err(e) => Err(IntegratedLoudnessFailed(e))
    case Ok(lufs) =>
      match readings.range
      case Err(e) => Err(LoudnessRangeFailed(e))
      case Ok(range) =>
        match PeakFold(channels, readings.truePeak)
        case Err(e) => Err(e)
        case Ok(peak) =>
          var db := TruePeakDb(peak, log10);
          Ok(LoudnessResult(lufs, range, db, NormalizationGainDb(lufs, db)))
  }

  /** The analysis as a whole: the decoder must have opened, the meter must have been
      created (`meterError` is the analyser's creation error, if any) and must accept every
      chunk, and `meter` gives its readings for what it was fed. */
  function Analysis(source: Result<Decoder.StreamInfo, Decoder.DecoderError>, packets: seq<Decoder.PacketEvent>,
                    meterError: Option<string>, addFrames: AddFrames, meter: (nat, nat, seq<real>) -> MeterReadings,
                    log10: real -> real)
    : (r: Result<LoudnessResult, LoudnessError>)
    requires Decoder.EventsWellFormed(packets)
    ensures r.Ok? ==> MinGainDb <= r.value.normalizationGainDb <= MaxGainDb
  {
    match source
    case Err(e) => Err(DecoderFailed(e))
    case Ok(info) =>
      if meterError.Some? then Err(MeterCreationFailed(meterError.value))
      else
        match Feed(packets, info.trackId, [], addFrames)
        case Err(e) => Err(AddFramesFailed(e))
        case Ok(fed) => Finish(meter(info.channels, info.sampleRate, fed), info.channels, log10)
  }

  /** `analyze_loudness` on a decoder `open` produced (or its error). */
  method AnalyzeLoudness(source: Result<Decoder.AudioDecoder, Decoder.DecoderError>, meterError: Option<string>,
                         addFrames: AddFrames, meter: (nat, nat, seq<real>) -> MeterReadings, log10: real -> real)
    returns (r: Result<LoudnessResult, LoudnessError>)
    requires source.Ok? ==> source.value.Valid()
    modifies if source.Ok? then {source.value} else {}
    ensures r.Ok? ==> MinGainDb <= r.value.normalizationGainDb <= MaxGainDb
    ensures source.Err? ==> r == Err(DecoderFailed(source.error))
    ensures source.Ok? ==>
      var d := source.value;
      r == Analysis(Ok(Decoder.StreamInfo(d.trackId, d.sampleRate, d.channels, d.durationMs)),
                    old(d.packets), meterError, addFrames, meter, log10)
  {
    if source.Err? {
      return Err(DecoderFailed(source.error));
    }
    var decoder := source.value;
    ghost var info := Decoder.StreamInfo(decoder.trackId, decoder.sampleRate, decoder.channels, decoder.durationMs);
    if meterError.Some? {
      return Err(MeterCreationFailed(meterError.value));
    }
    var fed := FeedAll(decoder, addFrames);
    match fed
    case Err(e) =>
      r := Err(AddFramesFailed(e));
    case Ok(samples) =>
      var readings := meter(decoder.channels, decoder.sampleRate, samples);
      r := Summarize(readings, decoder.channels, log10);
  }

  /** The analysis loop: decode until the end of the stream, offering every chunk to the
      meter and passing over failed calls; a chunk the meter rejects ends the loop. */
  method FeedAll(decoder: Decoder.AudioDecoder, addFrames: AddFrames) returns (r: Result<seq<real>, string>)
    requires decoder.Valid()
    modifies decoder
    ensures decoder.Valid()
    ensures r == Feed(old(decoder.packets), decoder.trackId, [], addFrames)
  {
    var fed := [];
    ghost var start := decoder.packets;
    while true
      invariant decoder.Valid()
      invariant Feed(decoder.packets, decoder.trackId, fed, addFrames) == Feed(start, decoder.trackId, [], addFrames)
      decreases |decoder.packets|
    {
      ghost var before := decoder.packets;
      var next := decoder.DecodeNext();
      match next
      case Ok(Some(samples)) =>
        var rejected := addFrames(fed, samples);
        if rejected.Some? {
          return Err(rejected.value);
        }
        fed := fed + samples;
      case Ok(None) =>
        return Ok(fed);
      case Err(_) =>
    }
  }

  /** The tail of `analyze_loudness`, in the order the source reads the meter. */
  method Summarize(readings: MeterReadings, channels: nat, log10: real -> real) returns (r: Result<LoudnessResult, LoudnessError>)
    ensures r == Finish(readings, channels, log10)
  {
    match readings.integrated
    case Err(e) =>
      r := Err(IntegratedLoudnessFailed(e));
    case Ok(lufs) =>
      match readings.range
      case Err(e) =>
        r := Err(LoudnessRangeFailed(e));
      case Ok(range) =>
        var peak := MaxTruePeak(channels, readings.truePeak);
        match peak
        case Err(e) =>
          r := Err(e);
        case Ok(p) =>
          var db := TruePeakDb(p, log10);
          r := Ok(LoudnessResult(lufs, range, db, NormalizationGainDb(lufs, db)));
  }

  /** `analyze_loudness_with_timeout`: the same analysis with failure turned into `None`;
      the timeout is accepted and not used. */
  method AnalyzeLoudnessWithTimeout(source: Result<Decoder.AudioDecoder, Decoder.DecoderError>, meterError: Option<string>,
                                    addFrames: AddFrames, meter: (nat, nat, seq<real>) -> MeterReadings,
                                    log10: real -> real,
                                    timeoutSeconds: nat)
    returns (r: Option<LoudnessResult>)
    requires source.Ok? ==> source.value.Valid()
    modifies if source.Ok? then {source.value} else {}
    ensures source.Err? ==> r.None?
    ensures source.Ok? ==>
      var d := source.value;
      var a := Analysis(Ok(Decoder.StreamInfo(d.trackId, d.sampleRate, d.channels, d.durationMs)),
                        old(d.packets), meterError, addFrames, meter, log10);
      (r.Some? <==> a.Ok?) && (r.Some? ==> r.value == a.value)
  {
    var analysis := AnalyzeLoudness(source, meterError, addFrames, meter, log10);
    match analysis
    case Ok(result) =>
      r := Some(result);
    case Err(_) =>
      r := None;
  }
}
