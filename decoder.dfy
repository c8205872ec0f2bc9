/** The decoder of `audio/decoder.rs`: track selection when a file is opened, the conversion
    of every sample format to floating point, planar-to-interleaved conversion, and the
    packet loop of `decode_next`. The container reader is modelled by the sequence of events
    it will yield; the codec by the outcome each packet carries. */
module Decoder {
  import opened Wrappers
  import opened Numeric

  /** `CODEC_TYPE_NULL`: the codec type of a track that carries no decodable audio. */
  const CodecTypeNull: nat := 0
  const DefaultSampleRate: nat := 44100
  const DefaultChannels: nat := 2
  /** The largest `i64` and `u64`: where Rust's saturating float-to-integer casts stop. */
  const I64Max: nat := 0x7fff_ffff_ffff_ffff
  const U64Max: nat := 0xffff_ffff_ffff_ffff

  // ---------------------------------------------------------------------------------------
  // Sample formats and their scale rules (`audio_buf_to_f32`)

  /** The integer sample formats; `Half` is the format's full-scale divisor 2^(bits-1). */
  datatype IntFormat = S8 | S16 | S24 | S32 | U8 | U16 | U24 | U32
  {
    function Half(): nat
    {
      match this
      case S8 | U8 => 128
      case S16 | U16 => 32768
      case S24 | U24 => 8388608
      case S32 | U32 => 2147483648
    }

    predicate Signed()
    {
      S8? || S16? || S24? || S32?
    }

    /** The values a sample of this format can hold. */
    predicate InRange(s: int)
    {
      if Signed() then -(Half() as int) <= s < Half() else 0 <= s < 2 * Half()
    }
  }

  /** One integer sample mapped to floating point: signed formats are divided by the
      divisor, unsigned ones are first centred on their midpoint. Every value of the format
      lands in [-1, 1), the most negative one exactly on -1. */
  function IntToF32(fmt: IntFormat, s: int): (r: real)
    ensures fmt.InRange(s) ==> -1.0 <= r < 1.0
    ensures fmt.Signed() && s == -(fmt.Half() as int) ==> r == -1.0
    ensures !fmt.Signed() && s == 0 ==> r == -1.0
    ensures (if fmt.Signed() then s == 0 else s == fmt.Half()) ==> r == 0.0
  {
    var h := fmt.Half() as real;
    if fmt.Signed() then s as real / h else (s as real - h) / h
  }

  /** The conversion closure `audio_buf_to_f32` passes for an integer format. */
  function Converter(fmt: IntFormat): int -> real
  {
    s => IntToF32(fmt, s)
  }

  /** The conversion used for `f32` samples (none) and for `f64` ones (a narrowing cast,
      which is the identity on reals). */
  function Identity(x: real): real
  {
    x
  }

  /** A decoded buffer in planar layout: one plane per channel, `frames` samples used from
      each. The two float formats carry reals, the eight integer ones integers. */
  datatype AudioBuffer =
    | F32(fplanes: seq<seq<real>>, frames: nat)
    | F64(fplanes: seq<seq<real>>, frames: nat)
    | Int(format: IntFormat, iplanes: seq<seq<int>>, frames: nat)
  {
    /** What the codec library guarantees of a buffer: every plane holds `frames` samples,
        each a value of its format. */
    predicate WellFormed()
    {
      match this
      case F32(p, f) => Covers(p, f)
      case F64(p, f) => Covers(p, f)
      case Int(fmt, p, f) =>
        Covers(p, f) && forall c, k :: 0 <= c < |p| && 0 <= k < |p[c]| ==> fmt.InRange(p[c][k])
    }
  }

  /** Every plane has at least `frames` samples. */
  predicate Covers<T>(planes: seq<seq<T>>, frames: nat)
  {
    forall c :: 0 <= c < |planes| ==> frames <= |planes[c]|
  }

  // ---------------------------------------------------------------------------------------
  // Interleaving

  /** Frame `f` in interleaved order: channel 0 first. */
  function FrameOf<T>(planes: seq<seq<T>>, f: nat, conv: T -> real): (r: seq<real>)
    requires Covers(planes, f + 1)
    ensures |r| == |planes|
  {
    seq(|planes|, c requires 0 <= c < |planes| => conv(planes[c][f]))
  }

  /** The first `frames` frames of `planes`, frame-major and channel-minor. */
  function Interleaved<T>(planes: seq<seq<T>>, frames: nat, conv: T -> real): seq<real>
    requires Covers(planes, frames)
    decreases frames
  {
    if frames == 0 then [] else Interleaved(planes, frames - 1, conv) + FrameOf(planes, frames - 1, conv)
  }

  lemma ProductBound(f: nat, c: nat, n: nat, m: nat)
    requires f < m && c < n
    ensures f * n + c < m * n
  {
    assert f * n + c < f * n + n == (f + 1) * n;
    MulMonotone(f + 1, m, n);
  }

  lemma MulMonotone(a: nat, b: nat, n: nat)
    requires a <= b
    ensures a * n <= b * n
  {
  }

  lemma MulSucc(a: nat, n: nat)
    ensures (a + 1) * n == a * n + n
  {
  }

  /** The interleaved stream has `frames * C` samples. */
  lemma {:induction false} InterleavedLength<T>(planes: seq<seq<T>>, frames: nat, conv: T -> real)
    requires Covers(planes, frames)
    ensures |Interleaved(planes, frames, conv)| == frames * |planes|
    decreases frames
  {
    if frames > 0 {
      InterleavedLength(planes, frames - 1, conv);
      MulSucc(frames - 1, |planes|);
    }
  }

  /** Sample `c` of frame `f` sits at index `f * C + c`. */
  lemma {:induction false} InterleavedIndex<T>(planes: seq<seq<T>>, frames: nat, conv: T -> real, f: nat, c: nat)
    requires Covers(planes, frames) && f < frames && c < |planes|
    ensures f * |planes| + c < |Interleaved(planes, frames, conv)|
    ensures Interleaved(planes, frames, conv)[f * |planes| + c] == conv(planes[c][f])
    decreases frames
  {
    var n := |planes|;
    var prev := Interleaved(planes, frames - 1, conv);
    InterleavedLength(planes, frames - 1, conv);
    InterleavedLength(planes, frames, conv);
    var base := (frames - 1) * n;
    assert |prev| == base;
    if f < frames - 1 {
      ProductBound(f, c, n, frames - 1);
      InterleavedIndex(planes, frames - 1, conv, f, c);
      assert Interleaved(planes, frames, conv)[f * n + c] == prev[f * n + c];
    } else {
      assert f * n == base;
      MulSucc(frames - 1, n);
      assert Interleaved(planes, frames, conv)[base + c] == FrameOf(planes, frames - 1, conv)[c];
    }
  }

  /** The interleaved layout: `frames * C` samples, sample `c` of frame `f` at `f * C + c`. */
  lemma InterleavedAt<T>(planes: seq<seq<T>>, frames: nat, conv: T -> real)
    requires Covers(planes, frames)
    ensures |Interleaved(planes, frames, conv)| == frames * |planes|
    ensures forall f, c :: 0 <= f < frames && 0 <= c < |planes| ==>
      Interleaved(planes, frames, conv)[f * |planes| + c] == conv(planes[c][f])
  {
    InterleavedLength(planes, frames, conv);
    var s := Interleaved(planes, frames, conv);
    var n := |planes|;
    forall f, c | 0 <= f < frames && 0 <= c < n
      ensures f * n + c < |s| && s[f * n + c] == conv(planes[c][f])
    {
      InterleavedIndex(planes, frames, conv, f, c);
    }
  }

  /** No channels or no frames: nothing to interleave. */
  lemma InterleavedEmpty<T>(planes: seq<seq<T>>, frames: nat, conv: T -> real)
    requires Covers(planes, frames)
    ensures |planes| == 0 || frames == 0 ==> Interleaved(planes, frames, conv) == []
  {
    InterleavedAt(planes, frames, conv);
  }

  /** `interleave_convert`: nested loops over frames and channels pushing converted samples. */
  method InterleaveConvert<T>(planes: seq<seq<T>>, frames: nat, convert: T -> real) returns (out: seq<real>)
    requires Covers(planes, frames)
    ensures out == Interleaved(planes, frames, convert)
    ensures |out| == frames * |planes|
    ensures forall f, c :: 0 <= f < frames && 0 <= c < |planes| ==> out[f * |planes| + c] == convert(planes[c][f])
  {
    InterleavedAt(planes, frames, convert);
    var numChannels := |planes|;
    if numChannels == 0 || frames == 0 {
      InterleavedEmpty(planes, frames, convert);
      return [];
    }
    out := [];
    var frame := 0;
    while frame < frames
      invariant frame <= frames
      invariant out == Interleaved(planes, frame, convert)
      decreases frames - frame
    {
      ghost var row := FrameOf(planes, frame, convert);
      var ch := 0;
      while ch < numChannels
        invariant ch <= numChannels
        invariant out == Interleaved(planes, frame, convert) + row[..ch]
        decreases numChannels - ch
      {
        assert row[..ch + 1] == row[..ch] + [convert(planes[ch][frame])];
        out := out + [convert(planes[ch][frame])];
        ch := ch + 1;
      }
      assert row[..numChannels] == row;
      frame := frame + 1;
    }
  }

  /** `interleave_f32`: the same loops without a conversion. */
  method InterleaveF32(planes: seq<seq<real>>, frames: nat) returns (out: seq<real>)
    requires Covers(planes, frames)
    ensures out == Interleaved(planes, frames, Identity)
    ensures |out| == frames * |planes|
    ensures forall f, c :: 0 <= f < frames && 0 <= c < |planes| ==> out[f * |planes| + c] == planes[c][f]
  {
    InterleavedAt(planes, frames, Identity);
    var numChannels := |planes|;
    if numChannels == 0 || frames == 0 {
      InterleavedEmpty(planes, frames, Identity);
      return [];
    }
    out := [];
    var frame := 0;
    while frame < frames
      invariant frame <= frames
      invariant out == Interleaved(planes, frame, Identity)
      decreases frames - frame
    {
      ghost var row := FrameOf(planes, frame, Identity);
      var ch := 0;
      while ch < numChannels
        invariant ch <= numChannels
        invariant out == Interleaved(planes, frame, Identity) + row[..ch]
        decreases numChannels - ch
      {
        assert row[..ch + 1] == row[..ch] + [planes[ch][frame]];
        out := out + [planes[ch][frame]];
        ch := ch + 1;
      }
      assert row[..numChannels] == row;
      frame := frame + 1;
    }
  }

  /** The interleaved floating-point samples of a decoded buffer. */
  function Samples(buf: AudioBuffer): seq<real>
    requires buf.WellFormed()
  {
    match buf
    case F32(p, f) => Interleaved(p, f, Identity)
    case F64(p, f) => Interleaved(p, f, Identity)
    case Int(fmt, p, f) => Interleaved(p, f, Converter(fmt))
  }

  /** Every sample converted from an integer format lies in [-1, 1). */
  lemma {:induction false} IntSamplesInRange(fmt: IntFormat, planes: seq<seq<int>>, frames: nat)
    requires Int(fmt, planes, frames).WellFormed()
    ensures forall x :: x in Samples(Int(fmt, planes, frames)) ==> -1.0 <= x < 1.0
    decreases frames
  {
    if frames > 0 {
      IntSamplesInRange(fmt, planes, frames - 1);
      var row := FrameOf(planes, frames - 1, Converter(fmt));
      assert Samples(Int(fmt, planes, frames)) == Samples(Int(fmt, planes, frames - 1)) + row;
      forall x | x in row
        ensures -1.0 <= x < 1.0
      {
        var c :| 0 <= c < |row| && row[c] == x;
        assert fmt.InRange(planes[c][frames - 1]);
        assert x == IntToF32(fmt, planes[c][frames - 1]);
      }
    }
  }

  /** `audio_buf_to_f32`: dispatch on the format, then interleave with its conversion. */
  method AudioBufToF32(buf: AudioBuffer) returns (out: seq<real>)
    requires buf.WellFormed()
    ensures out == Samples(buf)
  {
    match buf
    case F32(p, f) =>
      out := InterleaveF32(p, f);
    case F64(p, f) =>
      out := InterleaveConvert(p, f, Identity);
    case Int(fmt, p, f) =>
      out := InterleaveConvert(p, f, Converter(fmt));
  }

  // ---------------------------------------------------------------------------------------
  // Opening a file: track selection, defaults and duration

  datatype DecoderError =
    | FileOpenFailed(detail: string)
    | ProbeFailed(detail: string)
    | NoAudioTrack
    | DecoderCreationFailed(detail: string)
    | PacketReadFailed(detail: string)
    | DecodeFailed(detail: string)
    | SeekFailed(detail: string)

  /** The codec parameters of one track as the container reports them. */
  datatype TrackInfo = TrackInfo(id: nat, codec: nat, sampleRate: Option<nat>, channels: Option<nat>, nFrames: Option<nat>)

  /** What opening and probing the file gave. */
  datatype ProbeOutcome = OpenFailed(detail: string) | Unrecognised(detail: string) | Probed(tracks: seq<TrackInfo>)

  /** The stream parameters an opened decoder exposes. */
  datatype StreamInfo = StreamInfo(trackId: nat, sampleRate: nat, channels: nat, durationMs: Option<nat>)

  /** Index of the first track whose codec is not null. */
  function FirstAudioTrack(tracks: seq<TrackInfo>): (r: Option<nat>)
    ensures r.Some? ==> r.value < |tracks| && tracks[r.value].codec != CodecTypeNull
    ensures r.Some? ==> forall j :: 0 <= j < r.value ==> tracks[j].codec == CodecTypeNull
    ensures r.None? ==> forall j :: 0 <= j < |tracks| ==> tracks[j].codec == CodecTypeNull
  {
    if tracks == [] then None
    else if tracks[0].codec != CodecTypeNull then Some(0)
    else match FirstAudioTrack(tracks[1..])
      case None => None
      case Some(i) => Some(i + 1)
  }

  /** `(ts as f64 / rate as f64 * 1000.0) as i64` (or `as u64`, with `cap` the type's maximum):
      milliseconds truncated towards zero; the cast saturates at `cap`, turns the infinity of
      a division by a zero rate into `cap` and its NaN (0 / 0) into 0. */
  function TimestampToMs(ts: nat, rate: nat, cap: nat): (r: nat)
    ensures r <= cap
    ensures rate > 0 && r < cap ==> r * rate <= ts * 1000 < (r + 1) * rate
    ensures rate > 0 && ts * 1000 < (cap + 1) * rate ==> r * rate <= ts * 1000 < (r + 1) * rate
    ensures rate == 0 ==> r == (if ts == 0 then 0 else cap)
  {
    if rate == 0 then (if ts == 0 then 0 else cap)
    else
      var q := ts * 1000 / rate;
      DivBounds(ts * 1000, rate);
      if q < cap then q else cap
  }

  lemma DivBounds(a: nat, b: nat)
    requires b > 0
    ensures (a / b) * b <= a < (a / b + 1) * b
  {
    assert a == (a / b) * b + a % b;
  }

  /** `AudioDecoder::open` after the file has been probed: the first track with a codec,
      44100 Hz and 2 channels when the container does not say, and the duration derived from
      the frame count when it is known. `makeDecoder` gives the codec registry's error for a
      track it cannot decode. */
  function OpenStream(probe: ProbeOutcome, makeDecoder: TrackInfo -> Option<string>): (r: Result<StreamInfo, DecoderError>)
    ensures probe.OpenFailed? ==> r == Err(FileOpenFailed(probe.detail))
    ensures probe.Unrecognised? ==> r == Err(ProbeFailed(probe.detail))
    ensures probe.Probed? && (forall j :: 0 <= j < |probe.tracks| ==> probe.tracks[j].codec == CodecTypeNull) ==>
      r == Err(NoAudioTrack)
    ensures r.Ok? ==> probe.Probed? && exists i :: 0 <= i < |probe.tracks| && ChosenTrack(probe.tracks, i, r.value)
    ensures r.Ok? <==> (probe.Probed? && FirstAudioTrack(probe.tracks).Some? &&
                        makeDecoder(probe.tracks[FirstAudioTrack(probe.tracks).value]).None?)
    ensures probe.Probed? && FirstAudioTrack(probe.tracks).Some? &&
            makeDecoder(probe.tracks[FirstAudioTrack(probe.tracks).value]).Some? ==>
              r == Err(DecoderCreationFailed(makeDecoder(probe.tracks[FirstAudioTrack(probe.tracks).value]).value))
  {
    match probe
    case OpenFailed(e) => Err(FileOpenFailed(e))
    case Unrecognised(e) => Err(ProbeFailed(e))
    case Probed(tracks) =>
      match FirstAudioTrack(tracks)
      case None => Err(NoAudioTrack)
      case Some(i) =>
        var t := tracks[i];
        var rate := t.sampleRate.GetOr(DefaultSampleRate);
        var channels := t.channels.GetOr(DefaultChannels);
        var duration := if t.nFrames.Some? then Some(TimestampToMs(t.nFrames.value, rate, I64Max)) else None;
        match makeDecoder(t)
        case Some(e) => Err(DecoderCreationFailed(e))
        case None =>
          var info := StreamInfo(t.id, rate, channels, duration);
          assert ChosenTrack(tracks, i, info);
          Ok(info)
  }

  /** `info` describes track `i`: the first with a codec, with the defaults filled in. */
  ghost predicate ChosenTrack(tracks: seq<TrackInfo>, i: nat, info: StreamInfo)
    requires i < |tracks|
  {
    var t := tracks[i];
    && t.codec != CodecTypeNull
    && (forall j :: 0 <= j < i ==> tracks[j].codec == CodecTypeNull)
    && info.trackId == t.id
    && info.sampleRate == (if t.sampleRate.Some? then t.sampleRate.value else DefaultSampleRate)
    && info.channels == (if t.channels.Some? then t.channels.value else DefaultChannels)
    && (t.nFrames.None? ==> info.durationMs.None?)
    && (t.nFrames.Some? ==> info.durationMs == Some(TimestampToMs(t.nFrames.value, info.sampleRate, I64Max)))
  }

  // ---------------------------------------------------------------------------------------
  // The packet loop of `decode_next`

  /** What the codec does with one packet: decode it, reject it as corrupt (`DecodeError`,
      which is skipped) or fail in any other way. */
  datatype DecodeOutcome = Decoded(buffer: AudioBuffer) | Corrupt(detail: string) | DecodeFailure(detail: string)

  /** What one `next_packet` call yields: a packet of some track, an unexpected end of file
      (the end of the stream), a request to reset the decoder, or another read error. */
  datatype PacketEvent =
    | Packet(trackId: nat, outcome: DecodeOutcome)
    | EndOfStream
    | ResetRequired
    | ReadFailure(detail: string)

  predicate EventWellFormed(e: PacketEvent)
  {
    e.Packet? && e.outcome.Decoded? ==> e.outcome.buffer.WellFormed()
  }

  predicate EventsWellFormed(ps: seq<PacketEvent>)
  {
    forall i :: 0 <= i < |ps| ==> EventWellFormed(ps[i])
  }

  /** One `decode_next` call: its result, the events left unread, and how many decoder
      resets it performed. */
  datatype DecodeStep = DecodeStep(result: Result<Option<seq<real>>, DecoderError>, rest: seq<PacketEvent>, resets: nat)

  /** The packet loop. A reader with nothing left behaves as at the end of the stream. */
  function DecodeLoop(ps: seq<PacketEvent>, track: nat): (r: DecodeStep)
    requires EventsWellFormed(ps)
    ensures |r.rest| <= |ps| && r.rest == ps[|ps| - |r.rest|..]
    ensures r.result != Ok(None) ==> |r.rest| < |ps|
    decreases |ps|
  {
    if ps == [] then DecodeStep(Ok(None), [], 0)
    else
      assert EventsWellFormed(ps[1..]) by {
        forall i | 0 <= i < |ps[1..]| ensures EventWellFormed(ps[1..][i]) { assert ps[1..][i] == ps[i + 1]; }
      }
      match ps[0]
      case EndOfStream => DecodeStep(Ok(None), ps[1..], 0)
      case ResetRequired =>
        var s := DecodeLoop(ps[1..], track);
        DecodeStep(s.result, s.rest, s.resets + 1)
      case ReadFailure(e) => DecodeStep(Err(PacketReadFailed(e)), ps[1..], 0)
      case Packet(t, outcome) =>
        if t != track then DecodeLoop(ps[1..], track)
        else match outcome
          case Decoded(buf) =>
            assert EventWellFormed(ps[0]);
            DecodeStep(Ok(Some(Samples(buf))), ps[1..], 0)
          case Corrupt(_) => DecodeLoop(ps[1..], track)
          case DecodeFailure(e) => DecodeStep(Err(DecodeFailed(e)), ps[1..], 0)
  }

  /** The events the loop passes over: resets, packets of other tracks, corrupt packets. */
  predicate Skippable(e: PacketEvent, track: nat)
  {
    e.ResetRequired? || (e.Packet? && (e.trackId != track || e.outcome.Corrupt?))
  }

  /** Index of the first event the loop stops at, or `|ps|` when there is none. */
  function FirstDecisive(ps: seq<PacketEvent>, track: nat): (i: nat)
    ensures i <= |ps|
    ensures forall j :: 0 <= j < i ==> Skippable(ps[j], track)
    ensures i < |ps| ==> !Skippable(ps[i], track)
    decreases |ps|
  {
    if ps == [] || !Skippable(ps[0], track) then 0 else 1 + FirstDecisive(ps[1..], track)
  }

  function CountResets(ps: seq<PacketEvent>): nat
  {
    if ps == [] then 0 else (if ps[0].ResetRequired? then 1 else 0) + CountResets(ps[1..])
  }

  /** What the loop returns when it stops at event `e`. */
  function Verdict(e: PacketEvent, track: nat): Result<Option<seq<real>>, DecoderError>
    requires !Skippable(e, track) && EventWellFormed(e)
  {
    match e
    case EndOfStream => Ok(None)
    case ReadFailure(d) => Err(PacketReadFailed(d))
    case Packet(_, outcome) =>
      match outcome
      case Decoded(buf) => Ok(Some(Samples(buf)))
      case DecodeFailure(d) => Err(DecodeFailed(d))
  }

  /** The loop skips exactly the skippable events, resetting the decoder once per reset
      request among them, and answers according to the first event it cannot skip (the end
      of the stream when there is none). */
  lemma {:induction false} DecodeLoopDecides(ps: seq<PacketEvent>, track: nat)
    requires EventsWellFormed(ps)
    ensures var i := FirstDecisive(ps, track);
      && DecodeLoop(ps, track).resets == CountResets(ps[..i])
      && (i == |ps| ==> DecodeLoop(ps, track).result == Ok(None) && DecodeLoop(ps, track).rest == [])
      && (i < |ps| ==> DecodeLoop(ps, track).result == Verdict(ps[i], track) && DecodeLoop(ps, track).rest == ps[i + 1..])
    decreases |ps|
  {
    if ps != [] && Skippable(ps[0], track) {
      assert EventsWellFormed(ps[1..]) by {
        forall i | 0 <= i < |ps[1..]| ensures EventWellFormed(ps[1..][i]) { assert ps[1..][i] == ps[i + 1]; }
      }
      DecodeLoopDecides(ps[1..], track);
      var i := FirstDecisive(ps, track);
      assert ps[..i][1..] == ps[1..][..i - 1];
    }
  }

  /** Samples only ever come from a packet of the decoder's own track that decoded. */
  lemma OwnTrackOnly(ps: seq<PacketEvent>, track: nat, s: seq<real>)
    requires EventsWellFormed(ps)
    requires DecodeLoop(ps, track).result == Ok(Some(s))
    ensures exists i :: (0 <= i < |ps| && ps[i].Packet? && ps[i].trackId == track && ps[i].outcome.Decoded? &&
                         ps[i].outcome.buffer.WellFormed() && s == Samples(ps[i].outcome.buffer))
  {
    DecodeLoopDecides(ps, track);
    var i := FirstDecisive(ps, track);
    assert EventWellFormed(ps[i]);
  }

  /** What the container's coarse seek does: lands on a timestamp of the track and leaves the
      reader positioned there, or fails. */
  datatype SeekOutcome = Seeked(actualTs: nat, after: seq<PacketEvent>) | SeekRefused(detail: string)

  class AudioDecoder {
    /** The events the container reader will yield from here on. */
    var packets: seq<PacketEvent>
    /** How many times the codec decoder has been reset. */
    var resets: nat
    const trackId: nat
    const sampleRate: nat
    const channels: nat
    const durationMs: Option<nat>

    ghost predicate Valid()
      reads this
    {
      EventsWellFormed(packets)
    }

    /** A decoder `open` produced for the stream `info`, positioned at its first packet. */
    constructor (info: StreamInfo, packets: seq<PacketEvent>)
      requires EventsWellFormed(packets)
      ensures Valid() && this.packets == packets && resets == 0
      ensures trackId == info.trackId && sampleRate == info.sampleRate
      ensures channels == info.channels && durationMs == info.durationMs
    {
      this.packets := packets;
      resets := 0;
      trackId := info.trackId;
      sampleRate := info.sampleRate;
      channels := info.channels;
      durationMs := info.durationMs;
    }

    /** `decode_next`: the next chunk of interleaved samples of this track, `None` at the end
        of the stream, or the first error that is not a corrupt packet. */
    method DecodeNext() returns (r: Result<Option<seq<real>>, DecoderError>)
      requires Valid()
      modifies this`packets, this`resets
      ensures Valid()
      ensures var step := DecodeLoop(old(packets), trackId);
        r == step.result && packets == step.rest && resets == old(resets) + step.resets
      ensures r != Ok(None) ==> |packets| < |old(packets)|
    {
      ghost var start := packets;
      ghost var startResets := resets;
      while true
        invariant Valid()
        invariant DecodeLoop(packets, trackId).result == DecodeLoop(start, trackId).result
        invariant DecodeLoop(packets, trackId).rest == DecodeLoop(start, trackId).rest
        invariant resets + DecodeLoop(packets, trackId).resets == startResets + DecodeLoop(start, trackId).resets
        decreases |packets|
      {
        if packets == [] {
          return Ok(None);
        }
        var event := packets[0];
        ghost var here := packets;
        packets := packets[1..];
        assert EventsWellFormed(packets) by {
          forall i | 0 <= i < |packets| ensures EventWellFormed(packets[i]) { assert packets[i] == here[i + 1]; }
        }
        match event
        case EndOfStream =>
          return Ok(None);
        case ResetRequired =>
          resets := resets + 1;
        case ReadFailure(e) =>
          return Err(PacketReadFailed(e));
        case Packet(t, outcome) =>
          if t != trackId {
          } else {
            match outcome
            case Decoded(buf) =>
              assert EventWellFormed(here[0]);
              var samples := AudioBufToF32(buf);
              return Ok(Some(samples));
            case Corrupt(_) =>
            case DecodeFailure(e) =>
              return Err(DecodeFailed(e));
          }
      }
    }

    /** `seek`: a coarse seek of the container to `positionMs`, a decoder reset, and the
        position actually reached in milliseconds. `container` stands for the reader's seek. */
    method Seek(positionMs: int, container: int -> SeekOutcome) returns (r: Result<nat, DecoderError>)
      requires Valid()
      requires container(positionMs).Seeked? ==> EventsWellFormed(container(positionMs).after)
      modifies this`packets, this`resets
      ensures Valid()
      ensures match container(positionMs)
        case SeekRefused(e) => r == Err(SeekFailed(e)) && packets == old(packets) && resets == old(resets)
        case Seeked(ts, after) =>
          r == Ok(TimestampToMs(ts, sampleRate, U64Max)) && packets == after && resets == old(resets) + 1
    {
      match container(positionMs)
      case SeekRefused(e) =>
        r := Err(SeekFailed(e));
      case Seeked(ts, after) =>
        packets := after;
        resets := resets + 1;
        r := Ok(TimestampToMs(ts, sampleRate, U64Max));
    }
  }
}
