# Desktop music player backend: a Dafny model

This project models the Rust backend of a desktop music player built with Tauri. It covers seven parts:

- **Output** (`output.dfy`): the audio output. A fixed-capacity sample FIFO (the ring buffer) sits between the decoder thread and the device callback. The model has its non-blocking and blocking writes, the clear flag, the volume, and the callback that fills a device buffer (scaled samples, then silence).
- **Decoder** (`decoder.dfy`): the decoder.
  - Opening a stream: choose the first track with a real codec, default the sample rate and channel count, and work out the duration.
  - The packet loop: end of file, a decoder reset, read errors, packets of other tracks, corrupt packets and decode errors.
  - Seeking, with conversion of the reached timestamp to milliseconds.
  - Conversion of every sample format to `f32`, and interleaving of planar channels.
- **Player** (`player.dfy`): the simple player. It owns one sink, the current file, the duration, and the position bookkeeping (start instant plus the position saved at the last pause).
- **Loudness** (`loudness.dfy`): loudness analysis. A decoded stream is fed to an EBU R128 meter. A chunk the meter rejects ends the analysis. Otherwise the model reads the integrated loudness, the loudness range and the maximum true peak, then computes a normalisation gain clamped to ±12 dB and capped by the peak headroom.
- **MetadataParser** (`parser.dfy`): the tag parser. It splits multi-value artist and genre fields on the separator pattern and keeps the trimmed, non-empty pieces.
- **Scanner** (`scanner.dfy`): the directory scanner. It keeps the regular files whose extension, lower-cased, is one of eight audio extensions.
- **Indexer** (`indexer.dfy`): the library indexer.
  - For each file it extracts the tags, then inserts the artist, genre and album (those present) and the track, stopping at the first failure.
  - Over a list of files it counts successes and failures and collects one error line per failing file.

Three shared modules support them: `Wrappers` (`Option`, `Result`), `Numeric` (`min`/`max`/`clamp` on non-NaN values) and `Sequences` (associativity of concatenation).

The model abstracts I/O in a few ways:

- Devices, files, codecs, the meter, the clock and the database are replaced by explicit values or function parameters:
  - the decoder reads a sequence of packet events;
  - the scanner takes the directory walk's entries;
  - the indexer takes a tag extractor and an `answer` function for the SQL;
  - the player takes the instant `now` and the outcome of opening a file.
- Floating-point numbers are modelled as mathematical reals.

## Model

| member | source | states |
|---|---|---|
| Numeric.Clamp | src-tauri/src/audio/player.rs:149 | `clamp(lo, hi)`: the result lies in [lo, hi]; it is `x` inside the range and the nearest bound outside it |
| Numeric.Min | src-tauri/src/metadata/loudness.rs:95-102 | `f32::min`: the result is one of the operands and no greater than either |
| Output.CallbackOutput | src-tauri/src/audio/output.rs:96-99 | a device buffer of `n` slots: the `k`-th buffered sample times the volume while the FIFO lasts, then 0.0 |
| Output.AudioOutput.constructor | src-tauri/src/audio/output.rs:40-48 | a new output has an empty FIFO, volume 1.0 and the clear flag unset |
| Output.AudioOutput.Write | src-tauri/src/audio/output.rs:112-126 | writes `min(len, free space)` samples; the FIFO becomes the old contents plus exactly that prefix of the input; capacity is never exceeded |
| Output.AudioOutput.TryPop | src-tauri/src/audio/output.rs:97 | the consumer's `try_pop`: `None` on an empty FIFO, otherwise the oldest sample, which is removed |
| Output.AudioOutput.Drain | src-tauri/src/audio/output.rs:91-94 | pops up to `k` samples, oldest first; what was popped followed by what remains is the old contents |
| Output.AudioOutput.WriteBlocking | src-tauri/src/audio/output.rs:129-141 | writes in nonempty chunks that together form a prefix of the input; it completes exactly when every sample was written; samples are neither lost nor reordered (old FIFO plus written equals played plus new FIFO) |
| Output.AudioOutput.AvailableSpace | src-tauri/src/audio/output.rs:144-147 | free space plus buffered samples equals the ring buffer's capacity |
| Output.AudioOutput.Clear | src-tauri/src/audio/output.rs:150-153 | raises the clear flag for the callback |
| Output.AudioOutput.SetVolume | src-tauri/src/audio/output.rs:166-168 | the volume becomes the argument clamped to [0, 1] |
| Output.AudioOutput.Volume | src-tauri/src/audio/output.rs:171-173 | returns the stored volume, which always lies in [0, 1] |
| Output.AudioOutput.Callback | src-tauri/src/audio/output.rs:86-100 | the callback lowers the clear flag; when it was raised, the FIFO is emptied first and the whole buffer is silence; otherwise the output is `CallbackOutput` of the FIFO and exactly the consumed samples are removed |
| Output.AudioOutput.DrainAll | src-tauri/src/audio/output.rs:91-94 | popping until empty leaves the FIFO empty |
| Output.AudioOutput.Fill | src-tauri/src/audio/output.rs:96-99 | the fill loop writes `CallbackOutput(old FIFO, n, volume)` and removes `min(n, buffered)` samples from the front |
| Output.ConcatAppend | src-tauri/src/audio/output.rs:129-141 | appending a chunk to the chunk list appends it to their concatenation |
| Output.Concat | src-tauri/src/audio/output.rs:129-141 | specification: the samples a list of written chunks holds, in order; `ConcatAppend` and `WriteBlocking`'s contract use it to say the chunks form a prefix of the input |
| Decoder.IntToF32 | src-tauri/src/audio/decoder.rs:161-188 | every in-range integer sample lands in [-1, 1); the most negative signed value and unsigned zero give -1; signed zero and the unsigned midpoint give 0 |
| Decoder.FrameOf | src-tauri/src/audio/decoder.rs:198-203 | one frame holds one converted sample per channel |
| Decoder.Interleaved | src-tauri/src/audio/decoder.rs:192-207 | specification of `interleave_f32`'s layout: frame-major, channel-minor; `InterleavedLength`, `InterleavedIndex`, `InterleavedAt` and `InterleavedEmpty` prove its length, slot layout and the empty cases |
| Decoder.InterleavedLength | src-tauri/src/audio/decoder.rs:192-207 | the interleaved output holds `frames * channels` samples |
| Decoder.InterleavedIndex | src-tauri/src/audio/decoder.rs:198-203 | output slot `f * channels + c` holds channel `c`'s sample for frame `f` after conversion |
| Decoder.InterleavedAt | src-tauri/src/audio/decoder.rs:192-207 | the length and slot layout for all frames and channels at once |
| Decoder.InterleavedEmpty | src-tauri/src/audio/decoder.rs:192-207 | no channels or no frames give empty output |
| Decoder.InterleaveConvert | src-tauri/src/audio/decoder.rs:209-228 | the nested loop builds the interleaved layout: slot `f * channels + c` is `convert(planes[c][f])`, and the length is `frames * channels` |
| Decoder.InterleaveF32 | src-tauri/src/audio/decoder.rs:192-207 | as `InterleaveConvert`, with samples copied unchanged |
| Decoder.IntSamplesInRange | src-tauri/src/audio/decoder.rs:161-188 | every sample converted from an integer buffer lies in [-1, 1) |
| Decoder.AudioBufToF32 | src-tauri/src/audio/decoder.rs:153-190 | the output is the interleaved conversion chosen by the buffer's sample format |
| Decoder.FirstAudioTrack | src-tauri/src/audio/decoder.rs:49-52 | the index of the first track whose codec is not null, and no earlier track has one; `None` if no track has one |
| Decoder.ChosenTrack | src-tauri/src/audio/decoder.rs:49-60 | specification of the opened stream: the first track with a non-null codec, its id, the sample rate (default 44100), the channel count (default 2) and the duration from its frame count; `OpenStream` asserts it of every stream it returns |
| Decoder.TimestampToMs | src-tauri/src/audio/decoder.rs:148 | `ts * 1000 / rate` computed in floating point and cast with saturation: the result is at most the cap, and it is the floor of the exact quotient whenever that quotient is below the cap; a zero rate gives 0 or the cap |
| Decoder.OpenStream | src-tauri/src/audio/decoder.rs:29-76 | each error kind comes from the step that fails: an unopenable file, a failed probe, no audio track, or the codec registry's error for the chosen track (`DecoderCreationFailed`); opening succeeds exactly when probing succeeds, an audio track exists and its decoder can be made; the opened stream is that track's, with rate and channels defaulted to 44100 and 2 |
| Decoder.DecodeLoop | src-tauri/src/audio/decoder.rs:95-129 | the loop consumes some leading events and leaves the rest untouched; any result other than end of stream consumes at least one event |
| Decoder.FirstDecisive | src-tauri/src/audio/decoder.rs:103-114 | the first event that is not a reset, a packet of another track, or a corrupt packet |
| Decoder.DecodeLoopDecides | src-tauri/src/audio/decoder.rs:95-129 | the loop's result is decided by the first decisive event: end of file gives `Ok(None)`, a read error gives `Err`, a decoded packet gives its samples, a decode error gives `Err`; exactly the resets before it are counted, and every event up to it is consumed |
| Decoder.OwnTrackOnly | src-tauri/src/audio/decoder.rs:112-127 | decoded samples always come from a packet of the decoder's own track |
| Decoder.AudioDecoder.constructor | src-tauri/src/audio/decoder.rs:68-75 | the decoder keeps the opened stream's parameters and starts with the reader's events and no resets |
| Decoder.AudioDecoder.DecodeNext | src-tauri/src/audio/decoder.rs:95-129 | the imperative loop returns `DecodeLoop`'s result, leaves its remaining events and performs its resets |
| Decoder.AudioDecoder.Seek | src-tauri/src/audio/decoder.rs:132-150 | a refused seek changes nothing and is `SeekFailed`; a seek that succeeds resets the decoder once and returns the reached position in milliseconds |
| Player.PositionAt | src-tauri/src/audio/player.rs:175-182 | the saved position while stopped or paused; saved position plus elapsed time while running; never less than the saved position |
| Player.PositionAdvances | src-tauri/src/audio/player.rs:175-182 | while running, the position advances exactly with the clock |
| Player.Player.constructor | src-tauri/src/audio/player.rs:19-27 | nothing playing, position zero |
| Player.Player.CurrentPosition | src-tauri/src/audio/player.rs:175-182 | `current_position` at instant `now` |
| Player.Player.Stop | src-tauri/src/audio/player.rs:129-137 | every field is reset and the position is 0 at any instant |
| Player.Player.PlayFromPosition | src-tauri/src/audio/player.rs:68-107 | succeeds exactly when every step succeeds, each failure with its error; on success: a fresh sink, the file, the clock started, the position equal to the requested one; on failure: stopped, keeping the duration only when the decoder was created |
| Player.Player.Play | src-tauri/src/audio/player.rs:29-66 | as `PlayFromPosition` from position 0: succeeds exactly when every step does, with the full new state after success and after each failure, and each failing step mapped to its own error |
| Player.Player.Pause | src-tauri/src/audio/player.rs:109-120 | with a sink, the position is frozen at its value when paused and the sink is paused; without one, nothing changes |
| Player.Player.Resume | src-tauri/src/audio/player.rs:122-127 | with a sink, it is unpaused and the clock restarts at `now`, keeping the saved position |
| Player.Player.Seek | src-tauri/src/audio/player.rs:139-145 | with no current file, succeeds and changes nothing; otherwise it is `PlayFromPosition` on the current file: on success a fresh sink, the same file, the clock started at `now`, the saved position equal to the requested one and the decoder's duration; on failure stopped (duration kept only when the decoder was created), with the failing step's error |
| Player.Player.SetVolume | src-tauri/src/audio/player.rs:147-151 | the sink's volume becomes the argument clamped to [0, 1]; nothing else changes |
| Player.Player.IsPlaying | src-tauri/src/audio/player.rs:153-160 | true exactly when a sink exists, is not paused and is not empty |
| Player.Player.IsPaused | src-tauri/src/audio/player.rs:162-169 | true exactly when a sink exists and is paused |
| Player.Player.CurrentFile | src-tauri/src/audio/player.rs:171-173 | the file being played |
| Player.Player.TotalDuration | src-tauri/src/audio/player.rs:184-186 | the duration the decoder reported |
| Loudness.NormalizationGainDb | src-tauri/src/metadata/loudness.rs:95-102 | the gain lies in [-12, 12]; it never exceeds either the peak headroom or the gain towards -14 LUFS unless the floor forces it; it equals whichever of the two binds when that lies inside the clamp range; for a loudness of minus infinity (infinite raw gain) it is the peak headroom, clamped; when both the raw gain and the headroom reach 12 dB, it is exactly 12 |
| Loudness.SilentTrackGetsMaxGain | src-tauri/src/metadata/loudness.rs:86-102 | a silent track (loudness minus infinity, peak -96 dB) gets the full +12 dB |
| Loudness.GainExamples | src-tauri/src/metadata/loudness.rs:134-142 | with enough headroom, a -20 LUFS track gets +6 dB and a -10 LUFS track -4 dB |
| Loudness.SilenceNeverLimitsGain | src-tauri/src/metadata/loudness.rs:86-102 | a silent peak (-96 dB) leaves the gain equal to the clamped distance to the target |
| Loudness.PeakFoldIsMax | src-tauri/src/metadata/loudness.rs:77-84 | the peak loop succeeds exactly when every channel's query does; on failure it reports the first failing channel; on success with channels it yields a value that one channel reached and none exceeds; no channels give "no peak" |
| Loudness.PeakFoldKeepsFailure | src-tauri/src/metadata/loudness.rs:77-84 | once a channel has failed, later channels do not change the result |
| Loudness.PeakFold | src-tauri/src/metadata/loudness.rs:77-84 | specification of the peak loop: a running maximum from minus infinity, or the first failing channel's error; `PeakFoldIsMax` and `PeakFoldKeepsFailure` prove what it computes |
| Loudness.MaxTruePeak | src-tauri/src/metadata/loudness.rs:77-84 | the imperative peak loop computes `PeakFold` |
| Loudness.TruePeakDb | src-tauri/src/metadata/loudness.rs:86-90 | `20 log10(peak)` for a positive peak, -96 dB otherwise |
| Loudness.Finish | src-tauri/src/metadata/loudness.rs:69-109 | a result exists exactly when every meter reading succeeds; it carries those readings, the peak in dB and the gain computed from them, and that gain lies in [-12, 12]; the errors follow the source's order: a failed integrated reading, then a failed range reading, then the first failing channel's peak |
| Loudness.AnalyzeLoudness | src-tauri/src/metadata/loudness.rs:33-110 | a decoder error is passed on; otherwise the result is that of the analysis specification: a failed meter creation is `MeterCreationFailed` with its message, then a rejected chunk is `AddFramesFailed`, then `Finish` on the meter's readings of the fed stream; any result's gain lies in [-12, 12] |
| Loudness.FeedAll | src-tauri/src/metadata/loudness.rs:49-66 | the loop computes `Feed`: each decoded chunk is offered to the meter in order, failed decode calls are passed over, and the first rejected chunk ends the loop with the meter's message |
| Loudness.FeedAcceptedIsDecodedStream | src-tauri/src/metadata/loudness.rs:49-66 | a meter that accepts every chunk never fails the loop and is fed exactly the decoded stream |
| Loudness.FeedOkIsDecodedStream | src-tauri/src/metadata/loudness.rs:49-66 | whenever the loop ends without a rejection, the meter has been fed the whole decoded stream: every chunk of the track, in order, and nothing else |
| Loudness.DecodedStream | src-tauri/src/metadata/loudness.rs:49-66 | specification: every chunk `decode_next` returns, in order, until end of stream, with failed calls passed over; the two lemmas above show the meter receives exactly this |
| Loudness.Feed | src-tauri/src/metadata/loudness.rs:49-66 | the analysis loop with a meter that may reject a chunk: on success the meter's input only grows from what it had already accepted |
| Loudness.Analysis | src-tauri/src/metadata/loudness.rs:33-110 | specification of `analyze_loudness`: a decoder error, then a meter creation error, then a rejected chunk are reported in that order; any result it gives has a gain within [-12, 12] |
| Loudness.Summarize | src-tauri/src/metadata/loudness.rs:69-109 | the tail of the analysis computes `Finish` |
| Loudness.AnalyzeLoudnessWithTimeout | src-tauri/src/metadata/loudness.rs:114-127 | `Some` exactly when the analysis succeeds, with its result; `None` for any error |
| MetadataParser.SpaceEnd | src-tauri/src/metadata/parser.rs:12 | the end of the whitespace run starting at `i` (`\s+` taken greedily) |
| MetadataParser.IsSpace | src-tauri/src/metadata/parser.rs:12 | specification: the Unicode White_Space property, which both `\s` and `trim` use |
| MetadataParser.IsSeparatorChar | src-tauri/src/metadata/parser.rs:12 | specification of the single-character alternative `[,;/\|、&]`; `SeparatorIsNotSpace` shows none of them is whitespace |
| MetadataParser.SeparatorIsNotSpace | src-tauri/src/metadata/parser.rs:12 | no separator character is whitespace, so the two alternatives of the pattern never begin at the same character |
| MetadataParser.FirstKeyword | src-tauri/src/metadata/parser.rs:12 | the first alternative of `ft\.?\|feat\.?\|featuring`, from `n` on, that occurs at `i`; none if no later alternative does |
| MetadataParser.WordEnd | src-tauri/src/metadata/parser.rs:12 | the end of the non-whitespace run starting at `i` |
| MetadataParser.MatchLen | src-tauri/src/metadata/parser.rs:12 | the length of the separator match at the front of `u`, which is never empty |
| MetadataParser.SplitAll | src-tauri/src/metadata/parser.rs:36 | `Regex::split`: one more piece than delimiters |
| MetadataParser.ParseMultiValue | src-tauri/src/metadata/parser.rs:28-41 | an empty value yields no values |
| MetadataParser.ParseArtists | src-tauri/src/metadata/parser.rs:44-46 | the same as `ParseMultiValue` |
| MetadataParser.ParseGenres | src-tauri/src/metadata/parser.rs:49-51 | the same as `ParseMultiValue` |
| MetadataParser.WordTestIsAlternation | src-tauri/src/metadata/parser.rs:12 | "the whitespace-free word at `i` is a keyword and is followed by whitespace" holds exactly when the ordered alternation matches at `i`, and the word is the alternative it picks |
| MetadataParser.KeywordBranchIsAlternation | src-tauri/src/metadata/parser.rs:12 | for a leading space, `MatchLen` equals the regex's second branch tried alternative by alternative: `\s+`, the first keyword that matches, then a greedy `\s+`; no match if none |
| MetadataParser.MatchLenCharacterised | src-tauri/src/metadata/parser.rs:12 | a match of length `l` at the front is exactly one separator character, or a whitespace-keyword-whitespace sequence whose trailing run cannot be extended |
| MetadataParser.MatchExtends | src-tauri/src/metadata/parser.rs:12 | a match at the front of `x` is still a match at the front of `x + z` |
| MetadataParser.MatchOfPrefix | src-tauri/src/metadata/parser.rs:12 | a match of length `l` is also a whole-string match of its own first `l` characters |
| MetadataParser.SplitRoundTrip | src-tauri/src/metadata/parser.rs:36 | interleaving the pieces with the delimiters gives back the input |
| MetadataParser.SplitDelimsAreMatches | src-tauri/src/metadata/parser.rs:36 | every delimiter is one whole separator match |
| MetadataParser.SplitPiecesHaveNoMatch | src-tauri/src/metadata/parser.rs:36 | no piece contains a separator match at any position |
| MetadataParser.TrimProperties | src-tauri/src/metadata/parser.rs:37 | `trim` yields a string without surrounding whitespace; it is empty exactly when the input is all whitespace; it keeps the absence of matches |
| MetadataParser.Trim | src-tauri/src/metadata/parser.rs:37 | specification of `str::trim`: drops leading and trailing Unicode whitespace; `TrimProperties` and `TrimPadded` prove it yields a trimmed string, empty exactly for blank input, and removes exactly the surrounding whitespace |
| MetadataParser.Clean | src-tauri/src/metadata/parser.rs:37-40 | trimming and dropping empty pieces never yields more values than pieces; `CleanAppend`, `CleanElements` and `CleanSingle` prove order, nonemptiness and trimming |
| MetadataParser.CleanAppend | src-tauri/src/metadata/parser.rs:37-40 | trimming and filtering distributes over concatenation |
| MetadataParser.CleanElements | src-tauri/src/metadata/parser.rs:37-38 | every value kept is nonempty and trimmed |
| MetadataParser.CleanKeepsNoMatch | src-tauri/src/metadata/parser.rs:37-38 | trimming and filtering pieces without matches yields values without matches |
| MetadataParser.CleanSingle | src-tauri/src/metadata/parser.rs:37-38 | one piece yields its trimmed form, or nothing if it is blank |
| MetadataParser.ParsedValuesTrimmed | src-tauri/src/metadata/parser.rs:28-41 | every parsed value is nonempty and has no surrounding whitespace |
| MetadataParser.ParsedValuesHaveNoSeparator | src-tauri/src/metadata/parser.rs:28-41 | no parsed value contains a separator character or a separator match |
| MetadataParser.SplitWithoutMatch | src-tauri/src/metadata/parser.rs:36 | a string without matches is split into itself alone |
| MetadataParser.SingleValue | src-tauri/src/metadata/parser.rs:126-129 | a value without separators and not blank parses to its trimmed self |
| MetadataParser.SplitBeforeMatch | src-tauri/src/metadata/parser.rs:36 | when no match starts inside `x` and one starts right after it, the split's first piece is `x` and the remaining pieces are those of the split after the match |
| MetadataParser.ParseAtFirstMatch | src-tauri/src/metadata/parser.rs:35-40 | at the first match, the parse is the cleaned prefix followed by the parse of what follows the match |
| MetadataParser.ParseLastValue | src-tauri/src/metadata/parser.rs:131-137 | a padded last value without separators parses to the value alone |
| MetadataParser.ParseAtSeparatorChar | src-tauri/src/metadata/parser.rs:57-79 | a separator character after a piece without matches splits there |
| MetadataParser.ParseBeforeSeparatorChar | src-tauri/src/metadata/parser.rs:57-79 | `"  v  " + c + rest` parses to `v` followed by the parse of `rest`, for any separator character `c` (the comma, semicolon, ampersand, ideographic comma, slash and pipe tests) |
| MetadataParser.KeywordDelimiterMatches | src-tauri/src/metadata/parser.rs:81-95 | whitespace, a keyword and whitespace form one match that absorbs the whole trailing run |
| MetadataParser.ParseAtKeyword | src-tauri/src/metadata/parser.rs:81-95 | a keyword between whitespace runs after a piece without matches splits there |
| MetadataParser.ParseBeforeKeyword | src-tauri/src/metadata/parser.rs:81-103 | `"v" + " kw " + rest` parses to `v` followed by the parse of `rest`, for each of ft., ft, feat., feat and featuring (the ft and mixed-separator tests) |
| Scanner.Segments | src-tauri/src/library/scanner.rs:43 | the pieces between `/` separators; at least one, none containing `/` |
| Scanner.Components | src-tauri/src/library/scanner.rs:43 | the path's normal components: nonempty, not `.`, without `/` |
| Scanner.FileName | src-tauri/src/library/scanner.rs:43 | `Path::file_name`: the last component, absent when there is none or it is `..` |
| Scanner.LastDot | src-tauri/src/library/scanner.rs:43 | the position of the last `.`; no later dot exists; none exactly when there is no dot |
| Scanner.NameExtension | src-tauri/src/library/scanner.rs:43 | an extension never contains a dot |
| Scanner.Extension | src-tauri/src/library/scanner.rs:43 | no file name, no extension |
| Scanner.Lower | src-tauri/src/library/scanner.rs:44 | `to_lowercase` on ASCII letters, keeping the length and every other character |
| Scanner.IsSupportedAudioFile | src-tauri/src/library/scanner.rs:42-49 | specification of `is_supported_audio_file`; `SupportedHasSupportedName` and `SupportedNameIsSupported` prove it holds exactly when the file name is a stem, a dot and an extension that lower-cases into the list |
| Scanner.NamePartsOfExtension | src-tauri/src/library/scanner.rs:43 | an extension splits the name into a nonempty stem, a dot and the dot-free extension |
| Scanner.ExtensionOfNameParts | src-tauri/src/library/scanner.rs:43 | conversely, a name of that shape has that extension |
| Scanner.SupportedHasSupportedName | src-tauri/src/library/scanner.rs:42-49 | a supported path's file name is a stem, a dot and an extension that lower-cases to a supported one |
| Scanner.SupportedNameIsSupported | src-tauri/src/library/scanner.rs:42-49 | conversely, a path whose file name has such an extension is supported |
| Scanner.NoDotNotSupported | src-tauri/src/library/scanner.rs:46-48 | a path with no file name, or one without a dot, is not supported |
| Scanner.SupportedIgnoresCase | src-tauri/src/library/scanner.rs:44-45 | support depends on the extension only up to case |
| Scanner.OneComponent | src-tauri/src/library/scanner.rs:43 | a single plain component is its own file name |
| Scanner.PlainName | src-tauri/src/library/scanner.rs:42-49 | `stem.ext` is supported exactly when `ext`, lower-cased, is in the list |
| Scanner.TestMp3 | src-tauri/src/library/scanner.rs:58 | any `stem.mp3` is supported |
| Scanner.TestFlac | src-tauri/src/library/scanner.rs:59 | any `stem.flac` is supported |
| Scanner.TestUpperCaseFlac | src-tauri/src/library/scanner.rs:60 | any `stem.FLAC` is supported |
| Scanner.TestTxt | src-tauri/src/library/scanner.rs:61 | no `stem.txt` is supported |
| Scanner.TestNoExtension | src-tauri/src/library/scanner.rs:62 | a dot-free name is not supported |
| Scanner.KeptPaths | src-tauri/src/library/scanner.rs:17-36 | the kept paths, in walk order, never outnumber the entries |
| Scanner.KeptPathsAppend | src-tauri/src/library/scanner.rs:17-36 | the filter distributes over concatenation of walks |
| Scanner.KeptPathHasEntry | src-tauri/src/library/scanner.rs:25-34 | every kept path comes from a regular-file entry with a supported extension |
| Scanner.EntryIsKept | src-tauri/src/library/scanner.rs:25-34 | every such entry's path is kept |
| Scanner.KeptPathsSupported | src-tauri/src/library/scanner.rs:30-34 | every kept path is a supported audio file |
| Scanner.Scan | src-tauri/src/library/scanner.rs:14-39 | the walk loop returns `Ok` of exactly the kept paths |
| Indexer.DatabaseConnection.constructor | src-tauri/src/library/indexer.rs:20-28 | a connection with no calls made |
| Indexer.DatabaseConnection.Perform | src-tauri/src/library/indexer.rs:60-80 | a call is appended to the log and answered given the calls before it |
| Indexer.PlanEndsWithTrack | src-tauri/src/library/indexer.rs:80 | the last call inserts the track, and it is the only track insert |
| Indexer.PlanOrdered | src-tauri/src/library/indexer.rs:60-80 | the calls come in the order artist, genre, album, track |
| Indexer.PlanInsertsPresentFields | src-tauri/src/library/indexer.rs:60-77 | the artist, genre and album calls occur exactly when those fields are present; the album call carries the track's artist and year |
| Indexer.Plan | src-tauri/src/library/indexer.rs:51-83 | specification: the calls `index_single_file` makes when each succeeds; `PlanEndsWithTrack`, `PlanOrdered` and `PlanInsertsPresentFields` prove their order and presence |
| Indexer.StopsAtFirstFailureCons | src-tauri/src/library/indexer.rs:60-80 | a successful first call followed by a run that stops at its first failure is itself such a run |
| Indexer.ExecuteStopsAtFirstFailure | src-tauri/src/library/indexer.rs:60-80 | making the plan's calls in order stops at the first error with that error; if all succeed, every call is made and the result is the last one's |
| Indexer.ExecutePrepend | src-tauri/src/library/indexer.rs:60-77 | an absent optional call is skipped; a failing one ends the run; a successful one continues with the rest |
| Indexer.Execute | src-tauri/src/library/indexer.rs:51-83 | specification of making a plan's calls in order and stopping at the first failure (`?`); `ExecuteStopsAtFirstFailure` proves it |
| Indexer.IndexOneOutcome | src-tauri/src/library/indexer.rs:51-83 | an extraction failure makes no call and is the error; otherwise the track's plan runs up to its first failure |
| Indexer.IndexOne | src-tauri/src/library/indexer.rs:51-83 | specification of `index_single_file`: extraction, then the plan; `IndexOneOutcome` proves the outcome and `IndexSingleFile` implements it |
| Indexer.OptionalStep | src-tauri/src/library/indexer.rs:60-77 | the same three cases after any calls already made |
| Indexer.InsertOptional | src-tauri/src/library/indexer.rs:60-77 | one optional insert, performed or skipped, keeps the connection's log in step with the specification's run |
| Indexer.IndexSingleFile | src-tauri/src/library/indexer.rs:51-83 | the calls made and the result are those of `IndexOne` |
| Indexer.LastStep | src-tauri/src/library/indexer.rs:80 | the last plan step is the track insert and its answer |
| Indexer.IndexAll | src-tauri/src/library/indexer.rs:29-40 | one outcome per path; the log only grows |
| Indexer.IndexAllAppend | src-tauri/src/library/indexer.rs:29-40 | indexing two lists in turn is indexing their concatenation |
| Indexer.IndexAllOutcome | src-tauri/src/library/indexer.rs:29-40 | the `k`-th outcome is that file's own indexing after the files before it, whatever their outcome |
| Indexer.IndexAllSingle | src-tauri/src/library/indexer.rs:29-40 | one path yields that file's own outcome |
| Indexer.Summarize | src-tauri/src/library/indexer.rs:8-13 | the total is the number of paths; successes plus failures equal the total; one error line per failure |
| Indexer.SummarizeAppend | src-tauri/src/library/indexer.rs:29-40 | the counts and error lines of two batches add up |
| Indexer.SummarizeOne | src-tauri/src/library/indexer.rs:31-37 | success counts one success; failure counts one failure with the line `path: error` |
| Indexer.ErrorLine | src-tauri/src/library/indexer.rs:36 | the error line `path: error` recorded for a failed file; `SummarizeOne` shows one is recorded per failure |
| Indexer.IndexFiles | src-tauri/src/library/indexer.rs:20-48 | the loop returns `Ok` of the summary of `IndexAll`, and the log is that of `IndexAll` |

## Left out

- Devices and streams: opening cpal devices and streams, and sample-format dispatch through `T::from_sample`. The callback writes reals. Device rate and channel count are constructor arguments.
- Threads and time: the audio thread, mutexes, atomics and `std::thread::sleep`. Each method is one atomic step.
- Output.AudioOutput.WriteBlocking: the source sleeps and retries until the callback makes room, forever if need be. The model takes a finite schedule of callback drains and reports whether every sample was written.
- Output.AudioOutput getters: `sample_rate()` and `channels()` are constant fields.
- Decoding: Symphonia's probing, demuxing and codecs.
  - The container is a sequence of packet events.
  - Probing is a `ProbeOutcome`.
  - Decoder creation is a function on the chosen track.
  - The container seek is a function on the requested position.
- Decoder.IntToF32: the range [-1, 1) holds for real arithmetic. In the source's `f32` arithmetic the largest `S32` and `U32` samples round to exactly 1.0, so the interval is closed for the 32-bit formats there.
- Arithmetic precision: `f32`/`f64` rounding and the float conversion of `position_ms` before the seek. Reals are used throughout, and the seek target is passed to the container unchanged.
- Decoder.AudioDecoder getters: `sample_rate()`, `channels()` and `duration_ms()` are constant fields.
- Loudness metering: the EBU R128 meter is a function from (channels, rate, samples) to its readings. `log10` is a parameter. The integrated reading is a real or minus infinity; other infinities and NaN readings are not modelled.
- Loudness.FeedAll: a packet-read error ends one `decode_next` call and the loop goes on with the next event. A reader that fails at one position forever, making the source loop indefinitely, is not modelled.
- Loudness meter state: whether the meter accepts a chunk is a function of the samples it has already accepted and the chunk. Its readings are a function of everything it was fed.
- Loudness.AnalyzeLoudnessWithTimeout: the timeout argument is unused in the source and in the model. The error is logged with `eprintln` there and not here.
- Logging: the `eprintln` diagnostics are output only and change no result, so they are not modelled: skipped corrupt packets (decoder.rs:123), decode errors during analysis (loudness.rs:62), failed analyses (loudness.rs:123) and files that failed to index (indexer.rs:37).
- Player playback: rodio's sink, output stream and decoder are represented by their state (paused, empty, volume) and by the outcome of the four opening steps. `skip_duration` and the actual audio are not modelled.
- Player.Player.IsPlaying: whether a sink has run dry is a field (`empty`), not an effect of playing time.
- Paths: only `/` separators. Windows prefixes, `\`, and the lossy UTF-8 conversion are not modelled. Lower-casing covers ASCII letters only.
- Directory walking: the walk is the sequence of entries it yields (path, is-a-regular-file). Unreadable entries are dropped before `scan` sees them, and symbolic links are not followed.
- Tag extraction and SQL: `extract_metadata` is a function from a path to a track or an error. Each `DbOperations` call is answered by a function of the calls made before it, so the table contents and SQL text are not modelled.
- Indexer models: `db/models.rs` is used only for the `Track` datatype.
- MetadataParser.MatchLen: the regex engine itself is not modelled.
  - The separator pattern at `src-tauri/src/metadata/parser.rs:12` is a word test: a leading whitespace run, a keyword word, then a greedy trailing run.
  - KeywordBranchIsAlternation proves it equal to the pattern's ordered alternation.
  - The model follows the Rust regex crate's documented semantics: leftmost-first matching and greedy repetition.
  - Whitespace is Unicode White_Space, as `\s` and `str::trim` use it.
- Parser tests: the literal strings of the tests are covered by the general lemmas ParseBeforeSeparatorChar, ParseBeforeKeyword, ParseLastValue and SingleValue rather than instantiated one by one.
