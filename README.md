# LLM-Timestamps-Video-Analyzer, modelled in Dafny

The analyser cuts a video into analysis windows. It samples up to 16 frames per window and
labels every window with SRT-style timecodes (`HH:MM:SS,mmm`). It keeps a running scene
description for the language model. It joins the video fragments with the subtitles whose
spans touch them, and renders the joined analysis as a prompt.

On the speech side, Whisper's word timings become numbered subtitles of `n` words. The chunk
transcripts are kept on one timeline by a running offset. A small cropper cuts a vertical
window around a detected face in every frame.

This project models the deterministic core of that pipeline and proves its properties:

- the two timecode formatters;
- the timecode parser, and the round trips between the formatters and the parser;
- the YouTube video-id pattern;
- the window schedule;
- the subtitle join and the prompt rendering;
- Whisper chunking and numbering, the transcript offset, and the subtitle text dump;
- the crop window and the last-frame fallback.

Modules follow the source files:

| module | file | models |
|---|---|---|
| `PyText` | `py_text.dfy` | the Python built-ins the code relies on: `str(int)`, zero-padded formats, `int()`, `str.split`, `str.join`, slicing with negative and out-of-range bounds, `repr` of whole-millisecond floats |
| `SrtTimecode` | `srt_timecode.dfy` | the `f"{h:02}:{m:02}:{s:02},{ms:03}"` layout both formatters print |
| `SubtitleAnalysis` | `subtitle_analysis.dfy` | `subtitle_analysis.py`: `format_timecode`, `extract_video_id`, the entry loop of `get_transcript` |
| `VideoAnalysis` | `video_analysis.dfy` | `video_analysis.py`: `format_timecode`, `make_analysis_text`, the window loops of `run` |
| `FinalAnalysis` | `final_analysis.dfy` | `final_analysis.py`: `timecode_to_seconds`, `video_subtitles_concat`, `format_analysis_text` |
| `Stt` | `stt.dfy` | `stt.py`: `calc_chunks_size`, `get_transcript_v2`, `clean_transcript`, `get_transcript`, and the `duration` field of `WhisperSTT` |
| `Agents` | `agents.dfy` | `agents.py`: `json_to_text` |
| `FaceCropping` | `face_cropping.dfy` | `face_cropping.py`: the crop bounds and the `last_frame` state of `crop_video_frame` |

Times are integers:

- formatter inputs are microseconds, the resolution of `timedelta`;
- parsed timecodes, Whisper word times and audio durations are milliseconds.

Several things are parameters of the model:

- the decoder is the number `readable` of frames it can deliver;
- the language model is a function `analyze(scene, timecodes)` returning `(analysis, tokens)`;
- librosa's duration of an audio file is a function `audioDuration(path)`;
- `cv2.resize` is a function `resize(frame, width, height)`.

## Model

| member | source | states |
|---|---|---|
| PyText.DigitsValueOfNat | video_analysis.py:174 | `str(n)` is all digits and reads back as n |
| PyText.ZeroPadValue | video_analysis.py:174 | a zero-padded field is all digits and reads back as the number printed |
| PyText.ZeroPadLength | video_analysis.py:174 | a number below 10^w pads to exactly w characters |
| PyText.ParseZeroPad | final_analysis.py:142 | `int()` reads back what a zero-padded format wrote |
| PyText.IntToString | final_analysis.py:32 | `str(i)` of any int parses back to i with `int()` |
| PyText.Split | final_analysis.py:140 | `split(c)` yields one field more than there are separators |
| PyText.SplitJoin | final_analysis.py:50-56 | joining separator-free parts with c and splitting at c gives the parts back |
| PyText.JoinSplit | final_analysis.py:140-141 | no field of a split holds the separator, and joining the fields restores the string |
| PyText.SplitAfterSeparator | agents.py:97 | a text ending in the separator, followed by b, splits into its own fields but the last empty one, then b's fields |
| PyText.SliceWindow | stt.py:58 | `s[lo:hi]` holds the elements between the clamped bounds, none when they cross; in-range bounds give the ordinary slice, and a start inside the list with any larger end gives a non-empty slice up to that end or the end of the list |
| PyText.DropTrailingZeros | stt.py:24 | the digits kept are a prefix, end in a non-zero digit, and only zeros were dropped |
| SrtTimecode.RenderReadBack | video_analysis.py:174 | `HH:MM:SS,mmm` has its separators at fixed places from the end, hours take at least two digits (exactly two below 100), and every field reads back as its number |
| SubtitleAnalysis.FormatTimecodeFields | subtitle_analysis.py:54-58 | hours are unbounded, minutes and seconds are below 60, milliseconds below 1000, and the four add up to the time truncated to milliseconds |
| SubtitleAnalysis.FormatTimecodeReadBack | subtitle_analysis.py:54-58 | reading the text back field by field gives the time truncated to milliseconds, with hours never wrapped |
| SubtitleAnalysis.Search | subtitle_analysis.py:21 | a match found by the search is an 11-character id of `[a-zA-Z0-9_-]` |
| SubtitleAnalysis.ExtractVideoId | subtitle_analysis.py:17-25 | the result, when there is one, is a well-formed video id |
| SubtitleAnalysis.SearchIsFirstCoreMatch | subtitle_analysis.py:19-23 | the backtracking search for the pattern returns the id at the leftmost position where a host/path branch and an id follow, whatever scheme and `www.` it consumed |
| SubtitleAnalysis.BranchesExclusive | subtitle_analysis.py:19 | no two branches of the host/path alternation match at the same place |
| SubtitleAnalysis.RecognisedUrl | subtitle_analysis.py:19-23 | every URL form of the pattern, with or without scheme and `www.`, followed by anything, yields its id |
| SubtitleAnalysis.DriverUrl | main.py:9 | the URL of the driver script yields the id `BQ4XkEi5Z5o` |
| SubtitleAnalysis.GetTranscript | subtitle_analysis.py:31-44 | one record per transcript entry, in order, with the start, start + duration and text of that entry |
| VideoAnalysis.FormatTimecodeReadBack | video_analysis.py:167-174 | the text is exactly 12 characters `HH:MM:SS,mmm` with hours below 24, and its fields add up to the time of day truncated to milliseconds |
| VideoAnalysis.FormatTimecodeWrapsDaily | video_analysis.py:170-171 | whole days are dropped: one day later prints the same text |
| VideoAnalysis.FormatTimecodeTruncates | video_analysis.py:173 | only whole milliseconds are printed |
| VideoAnalysis.RoundHalfEvenNearest | video_analysis.py:170 | the microsecond rounding of `timedelta` picks a nearest integer, and the even one on a tie |
| VideoAnalysis.RoundHalfEvenExact | video_analysis.py:170 | an exact multiple rounds to its quotient |
| VideoAnalysis.WindowStartExact | video_analysis.py:145 | the frame that starts window w lies exactly w * interval seconds into the video |
| VideoAnalysis.MakeAnalysisText | video_analysis.py:65-72 | the scene text is the blocks of the fragments, in order |
| VideoAnalysis.AnalysisTextAppend | video_analysis.py:67-71 | one more fragment appends exactly its block |
| VideoAnalysis.AnalysisTextEmpty | video_analysis.py:66 | no fragments, empty scene |
| VideoAnalysis.AnalysisBlockLines | video_analysis.py:68-71 | with no line break inside the fields, a block splits into its three labelled lines and a blank line |
| VideoAnalysis.SampleCountStops | video_analysis.py:112-119 | every sample before the count was read, and the one at the count (if under 16) was not |
| VideoAnalysis.SampleCountIs | video_analysis.py:112-119 | a run of good reads ended by a failure or the 16th sample is the count |
| VideoAnalysis.SampleCountReadable | video_analysis.py:112-119 | a window reads exactly those of its 16 samples that lie before the end of what can be read |
| VideoAnalysis.SampleInWindow | video_analysis.py:100-113 | with step interval // 16 every sample lies inside its window |
| VideoAnalysis.WindowCountCovers | video_analysis.py:108 | the windows are exactly those starting before the last frame |
| VideoAnalysis.WindowCountIs | video_analysis.py:108 | n is the window count when window n is the first to start at or past the end |
| VideoAnalysis.SampledTimecodesAt | video_analysis.py:130-131 | timecode j is that of sample j |
| VideoAnalysis.WindowsPrefix | video_analysis.py:108-153 | later windows never change earlier fragments |
| VideoAnalysis.WindowsAt | video_analysis.py:135-153 | fragment w is what window w gives with exactly the fragments before it as the scene |
| VideoAnalysis.WindowAtFields | video_analysis.py:135-153 | a fragment is labelled from its first frame to one interval later, carries its sampled timecodes and the model's analysis of the scene so far |
| VideoAnalysis.WindowsTile | video_analysis.py:145-146 | fragment w ends where fragment w + 1 starts, and starts at frame w * interval |
| VideoAnalysis.SampleTimecodes | video_analysis.py:112-131 | the timecodes of the samples read, in order, stopping at the first failed read |
| VideoAnalysis.FramePosition | video_analysis.py:113 | sample i sits i * step frames after the window start |
| VideoAnalysis.AnalyseWindow | video_analysis.py:109-153 | one window: its sampled timecodes, the scene so far, the model's answer and the start/end labels |
| VideoAnalysis.AnalyseWindows | video_analysis.py:105-153 | the run is the fold of the windows starting at 0, k, 2k, ... before the end, and the tokens add up |
| VideoAnalysis.Run | video_analysis.py:96-165 | an interval of zero frames raises, a negative one gives no windows, and a positive one gives the scheduled run |
| FinalAnalysis.TimecodeToMillis | final_analysis.py:140 | a text raises at the three-name unpacking exactly when it does not hold two colons |
| FinalAnalysis.TimecodeToMillisCases | final_analysis.py:137-142 | every outcome: no two colons raises at the first unpacking; else no single comma after the second colon raises at the second; else a field `int()` refuses raises; and a result is the weighted sum of the four fields |
| FinalAnalysis.ParseLayout | final_analysis.py:137-142 | a text in the `HH:MM:SS,mmm` layout parses to the weighted sum of its fields |
| FinalAnalysis.DotSeparatorRefused | final_analysis.py:141 | a timecode with a dot before the milliseconds raises at the two-name unpacking |
| FinalAnalysis.VideoTimecodeRoundTrip | final_analysis.py:114-115 | parsing what the video formatter wrote gives the time of day truncated to milliseconds |
| FinalAnalysis.VideoMillisRoundTrip | final_analysis.py:114-115 | below one day whole milliseconds come back exactly |
| FinalAnalysis.SubtitleTimecodeRoundTrip | final_analysis.py:137-142 | parsing what the transcript formatter wrote gives the time truncated to milliseconds, for any number of hours |
| FinalAnalysis.SubtitleMillisRoundTrip | final_analysis.py:137-142 | whole milliseconds come back exactly |
| FinalAnalysis.FormattersAgreeWithinDay | video_analysis.py:167-174 | the two formatters print the same text below one day |
| FinalAnalysis.FormattersDifferAtOneDay | subtitle_analysis.py:54-58 | at one day they part: one wraps to 0, the other reads 24 hours |
| FinalAnalysis.TouchesIffIntersect | final_analysis.py:123 | for well-ordered spans the match condition is exactly that the closed intervals intersect |
| FinalAnalysis.MatchingMembers | final_analysis.py:117-124 | a subtitle is matched exactly when it is one of the subtitles and touches the span |
| FinalAnalysis.MatchingAll | final_analysis.py:117-124 | when all subtitles touch the span all are kept, in order |
| FinalAnalysis.CombineOk | final_analysis.py:112-129 | the join succeeds exactly when every fragment's timecodes parse |
| FinalAnalysis.CombineAt | final_analysis.py:126-129 | record i holds fragment i unchanged with exactly the subtitles touching its span |
| FinalAnalysis.CombineErrStays | final_analysis.py:114-115 | after a parse error later fragments do not change the outcome |
| FinalAnalysis.VideoSubtitlesConcat | final_analysis.py:103-135 | the nested loops compute the join |
| FinalAnalysis.RunFragmentsJoin | final_analysis.py:219-223 | fragments produced by a video run always pass the join |
| FinalAnalysis.SubtitlesTextLines | final_analysis.py:49-58 | no subtitles gives the placeholder; otherwise the text splits into one line per subtitle, in order |
| FinalAnalysis.FragmentTextLayout | final_analysis.py:31-42 | a fragment opens with `\nFragment `, its number (which reads back as the index), a colon and the separator line |
| FinalAnalysis.FragmentsNumbered | final_analysis.py:45 | fragment i is item i numbered start + i |
| FinalAnalysis.RenderedItemsWindow | final_analysis.py:45 | from a start of 1 or more the items rendered are `concat[start-1 : start+n]`, at most n + 1 of them |
| FinalAnalysis.DefaultRendersTwentyOne | final_analysis.py:30-45 | with the defaults 21 fragments are rendered, numbered 1 to 21 |
| FinalAnalysis.FormatAnalysisText | final_analysis.py:30-70 | the rendered fragments joined by blank lines |
| Stt.CalcChunksSize | stt.py:101-103 | at least one chunk; one exactly below 30 minutes; otherwise one per whole 15 minutes |
| Stt.ChunksConcat | stt.py:57-58 | the chunks of a segment put back together are its words, in order |
| Stt.ChunksSizes | stt.py:57-58 | every chunk has 1 to n words and all but the last exactly n |
| Stt.ChunksCount | stt.py:57 | a segment of m words gives ceil(m / n) chunks |
| Stt.NumberedAt | stt.py:64-73 | subtitle i of a run numbered from first is chunk i's under number first + i |
| Stt.NumberedAppend | stt.py:54-73 | numbering continues across a concatenation |
| Stt.TranscriptChunksWords | stt.py:56-58 | the chunks of all segments are all the words, in order |
| Stt.TranscriptChunksCount | stt.py:56-57 | every segment contributes ceil(m / n) subtitles |
| Stt.TranscriptV2At | stt.py:54-73 | subtitle i is numbered i + 1 and runs from its chunk's first word start to its last word end, with the words joined by spaces |
| Stt.GetTranscriptV2 | stt.py:50-75 | size 0 raises on the first segment, a negative size gives nothing, and a positive size gives the numbered chunks of all segments |
| Stt.SegmentSubtitles | stt.py:57-73 | the inner loop yields one subtitle per chunk of the segment, numbered on |
| Stt.StartsAt | stt.py:42 | every start time is the word's start moved by the offset |
| Stt.EndsAt | stt.py:43 | every end time is the word's end moved by the offset |
| Stt.CleanedAt | stt.py:38-44 | line i belongs to segment i: same path, the words joined by spaces, all word times moved by the offset |
| Stt.CleanSegments | stt.py:38-44 | the loop in groups of five gives one line per segment, in order |
| Stt.AppendLines | stt.py:22-24 | with every line worded the lines and their texts are appended; otherwise it raises |
| Stt.TranscribeErrStays | stt.py:20-24 | once a chunk raised, later chunks do not change the outcome |
| Stt.WhisperStt.constructor | stt.py:13 | the offset starts at 0 |
| Stt.WhisperStt.CleanGlobal | stt.py:111-112 | the offset is reset to 0 |
| Stt.WhisperStt.CleanTranscript | stt.py:29-47 | the offset grows by the last line's audio duration when there were more than one line before; the lines are the cleaned segments at the new offset |
| Stt.WhisperStt.GetTranscript | stt.py:16-27 | the result is the fold over the chunks; on success the offset is reset to 0, on a raise it stays where the raise happened |
| Stt.SecondChunkOffset | stt.py:34-36 | the second chunk is moved by the first chunk's duration only when the first chunk gave more than one line |
| Agents.JsonToText | agents.py:93-99 | the text is the blocks of the records, in order |
| Agents.BlockShape | agents.py:97 | a block is the heading with its trailing space, a newline, the subtitle and a blank line |
| Agents.JsonTextAppend | agents.py:96-97 | the text of two record lists in turn is their texts in turn |
| Agents.JsonTextEnd | agents.py:94-99 | the text is empty exactly for no records, and otherwise ends with a blank line |
| Agents.BlockSplit | agents.py:97 | with no newline in the fields, a block splits at newlines into heading, subtitle and two empty strings |
| Agents.JsonTextLines | agents.py:93-99 | with no newline in the fields, the text splits into heading, subtitle and blank line of each record in order, then one empty rest, so there are as many blocks as records |
| FaceCropping.Center | face_cropping.py:50 | the centre is x plus w floor-divided by 2, for negative w too |
| FaceCropping.CropWindowAsWritten | face_cropping.py:49-56 | the bounds as the code computes them: left >= 0, right <= frame width, right - left <= W, and the window is W wide or starts at column 0 |
| FaceCropping.CropWindowAsWrittenNarrow | face_cropping.py:50-56 | a face at the left edge of a 1920-pixel frame gets a 410-column window for a 720-column output |
| FaceCropping.CropWindow | face_cropping.py:49-56 | the window lies inside the frame, is min(W, frame width) wide, holds the face centre when that lies in the frame, and equals the code's window whenever that is W wide |
| FaceCropping.CropColumns | face_cropping.py:59 | cropping keeps every row and, in each, exactly the columns from left up to right |
| FaceCropping.Black | face_cropping.py:70 | the fallback frame is height rows of width black pixels |
| FaceCropping.FrameCropper.constructor | face_cropping.py:22-24 | no frame is kept yet, and the output resolution is the given size |
| FaceCropping.FrameCropper.CropFrame | face_cropping.py:26-70 | with a face, the output is the resized crop around it and is kept, and it is the resized crop of the code's own window whenever that window has the output width; without one, the kept frame or a black frame is returned and the kept frame is unchanged |

## Findings

| source | as written | input that shows it | evidently intended | confidence | as-written member | corrected member |
|---|---|---|---|---|---|---|
| face_cropping.py:55-56 | when the window is narrower than the output width, only `left` is moved; a window clipped at column 0 is never widened to the right | frame width 1920, output width 720, face x = 0 and w = 100: centre 50, left 0, right 410, so 410 columns are stretched to 720 | the crop is min(720, frame width) columns wide wherever the face is | medium, not executed | FaceCropping.CropWindowAsWrittenNarrow | FaceCropping.CropWindow |

`FrameCropper.CropFrame` uses the corrected window. It agrees with the code whenever the code's
window already has the output width, which is what `FaceCropping.CropWindow` states.

## Left out

- Language-model calls are parameters or are left out: `ImageAnalysis.analyze`, the completion calls of `VideoAnalysisBySubtitles.run`, `AICorrection` and `parse_subtitles`. image_analysis.py and aicorrection.py are not part of this model.
- Media, download and model I/O are left out, because they need outside services, or become parameters:
  - cv2 capture and PIL compositing, including the 4×4 image grid and `combined_image.show()`;
  - moviepy `crop_video` and `write_videofile`, and ffmpeg `get_audio`;
  - yt_dlp and youtube_transcript_api;
  - Whisper (`__call_whisper__`), pydub, and `chunks_audio` with its mp3 export;
  - mediapipe detection, the BGR to RGB conversion and the import-time script in face_cropping.py;
  - file and JSON reads and writes around every `run` and the join.
- `chunks_audio` is left out. Its chunk duration is a float division of the audio length, and it exports files. `get_transcript` takes the chunks as a list.
- librosa's audio duration is the parameter `audioDuration`, and `AudioSegment.duration_seconds`, the third value `get_transcript` returns, is left out.
- Floating point is left out:
  - Whisper and transcript times are whole milliseconds, and formatter inputs whole microseconds;
  - fps is a positive integer, and the frame time is `frame / fps` rounded half-even to microseconds, without the float error of the division;
  - `SecondsText` prints `repr` of a whole number of milliseconds as seconds.
- FinalAnalysis.FormattersAgreeWithinDay: holds for the integer times of the model only. subtitle_analysis.py:57 computes the milliseconds as `int((seconds - int(seconds)) * 1000)` in binary floating point, so 1.001 s prints `00:00:01,000`, while `timedelta` rounds to microseconds and video_analysis.py:173 prints `00:00:01,001`.
- FinalAnalysis.SubtitleMillisRoundTrip: holds for the integer times of the model only. With float seconds the transcript formatter can print one millisecond less than the time, as for 1.001 s.
- Stt.GetTranscriptV2: the mean `confidence` of a chunk is not modelled, because it is a float average.
- The subtitle join runs over the numeric subtitle records of `get_transcript_v2`. With the string timecodes or the placeholder dict that subtitle_analysis.py writes, the join would compare a string with a number.
- `VideoAnalysis.run` calls `analyze` with keyword arguments it does not accept, and `VideoAnalysis` is constructed with an `interval_seconds` argument its `__init__` lacks. The model passes the values the callers mean.
- SubtitleAnalysis.ExtractVideoId: the trailing `(?:\S+)?` of the pattern is not modelled, because it never decides whether a match exists.
- PyText.ParseInt accepts an optional sign and ASCII digits only. `int()` also takes whitespace, underscores and other Unicode digits, but no formatter writes those.
- The decoder is the number of readable frames. Reads that fail in the middle of a video are not modelled.
- Stt.AppendLines: when a line without words raises, the lines appended before it are lost, as the partial result is in the source.
- Nested loops are split into helper methods: `Stt.SegmentSubtitles` holds the inner loop of `get_transcript_v2`, `Stt.CleanSegments` that of `clean_transcript`, and `Stt.AppendLines` that of `get_transcript`. The loops keep their order and bounds.
- FaceCropping.FrameCropper.CropFrame: it crops with the corrected `CropWindow`, not the window of face_cropping.py:51-56. For a face closer than half the output width to column 0 the code crops the narrower window `CropWindowAsWritten` gives (see Findings) and stretches it; the model crops a full-width window there. Where the code's window has the output width, the two crops are the same.
- FaceCropping.FrameCropper.CropFrame: the frame is taken as given to the model, so the optional rotation of a horizontal clip and `clip.fl` over the frames are left out. `cv2.resize` failing on an empty crop is inside the `resize` parameter.
- main.py is a script and is represented only by the URL it analyses. settings.py holds constants and is not part of this model.
