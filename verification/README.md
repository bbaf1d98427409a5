# Speechably core in Dafny

Speechably takes an uploaded talk video and turns it into coaching feedback.
Its backend runs these steps in order:

- probe the audio duration from ffmpeg's diagnostic text;
- cut the audio into segments of four to seven seconds;
- label each `segment_k.wav` with an emotion classifier;
- turn the labels into a `MM:SS - MM:SS` emotion timeline;
- transcribe each segment and compute speaking-rate metrics;
- ask Gemini for a written analysis and pull a JSON document out of its reply.

Dashboards then show statistics, charts and a one-line key insight drawn from these results.

This project models the sequential logic between those external calls:

- **`DurationProbe`**: the probe-text parser.
- **`Timestamp`**: the `MM:SS` formatter and its parser.
- **`Segmenter`**: the segment planner of the audio service.
- **`LegacySegmenter`**: the older cutting script.
- **`Timeline`**: the timeline builder and the saved-results round trip.
- **`EmotionStats`**: emotion counts, the dominant label, transitions, versatility and the distribution.
- **`Visualization`**: chart-data preparation and clarity issues, for both helpers.
- **`Transcription`**: transcript records, speech metrics and the display and paragraph formatters, for both services.
- **`Gemini`**: prompt statistics and the reply fallback chain.
- **`Insights`**: the key-insight picker and the dashboard figures.
- **`Routes`**: upload validation, response serialisation and the chat context.
- **`SpeechAnalysis`**: selection and ordering of segment files, for both analyzers.
- **`Pipeline`**: ties the segmenter, the analyzer and the timeline together, with the ordering defect described under Findings.

Shared helpers live in four modules:

- `Results`: `Option` and `Result`.
- `Text`: digits, find, split and join, strip, words, lower-casing.
- `Numbers`: sums, means, extremes and clamps.
- `Sorting`: a stable insertion sort with its sortedness, permutation and stability lemmas.

Every external effect is a parameter of the function that uses it:

- the probe's stderr text;
- the directory listing and `is_file` test;
- the classifier, as `classify`, together with a `modelLoaded` flag;
- the transcriber, as `transcribe`, together with `fileExists`;
- the Gemini call, as `generate`;
- `json.loads`, as `parse`, a partial function.

Seconds, rates and percentages are exact `real`s. The probe's result is a whole number of seconds.

## Model

| member | source | states |
|---|---|---|
| DurationProbe.FirstMatch | backend/data_processor.py:44 | the regex search finds the leftmost position where `Duration: dd:dd:dd.dd` matches, and none when no position matches |
| DurationProbe.ProbeDuration | backend/data_processor.py:44-48 | text with no match gives 0; every result is at most 99:99:99 in seconds |
| DurationProbe.ProbeReadsFirstMatch | backend/services/audio_service.py:48-51 | the duration is read from the first match, not from a later one |
| DurationProbe.DurationTextMatches | backend/data_processor.py:44-47 | any two-digit `HH:MM:SS.ff` line matches and is worth HH*3600+MM*60+SS; the hundredths are dropped |
| DurationProbe.ProbeReadsDurationLine | backend/services/audio_service.py:48-51 | a duration line after stderr text that holds no `Duration: ` marker yields HH*3600+MM*60+SS |
| DurationProbe.ProbeNinetySeconds | backend/data_processor.py:44-47 | `Duration: 00:01:30.00` probes to 90 seconds |
| DurationProbe.ProbeWithoutMarker | backend/data_processor.py:48 | text without the `Duration: ` marker probes to 0 |
| Timestamp.SecondsOf | backend/data_processor.py:61 | the seconds field lies in 0..59 |
| Timestamp.FieldsAreWholeSeconds | backend/data_processor.py:60-61 | minutes*60 + seconds field is the floor of the input |
| Timestamp.FormatTimestamp | backend/data_processor.py:60-62 | a non-negative input gives at least five characters with a colon before the last two; below 6000 s it is exactly `MM:SS` |
| Timestamp.FormatChars | backend/data_processor.py:62 | the text uses only digits, the colon and a minus sign |
| Timestamp.TimeToSeconds | backend/utils/visualization.py:255-256 | a text without a colon does not parse; ParseOfFormat and FormatOfParse are its round trips with the clock formatter |
| Timestamp.ParseOfFormat | backend/utils/visualization.py:255-256 | parsing the formatted clock gives back the whole seconds of the input |
| Timestamp.FormatOfParse | backend/visualization_helper.py:205-206 | for SS < 60, `MM:SS` parses to MM*60+SS, and formatting that value gives the same text back |
| Timestamp.FormatZero | backend/data_processor.py:60-62 | zero seconds formats as `00:00` |
| Timestamp.FormatDependsOnWholeSeconds | backend/data_processor.py:60-61 | two inputs with the same whole seconds format alike |
| Segmenter.Configure | backend/services/audio_service.py:9-27 | no config gives min 4, max 7, 16000 Hz, one channel and `ffmpeg`; a missing or empty tool path becomes `ffmpeg`; other fields are kept |
| Segmenter.FirstPass | backend/services/audio_service.py:76-77 | the first pass has a non-zero count with length*count = D, and for D >= 0 with max > 0 the count is at least 1 |
| Segmenter.PlanSegments | backend/services/audio_service.py:76-84 | the plan fails only when the first pass divides by zero; with max > 0 it always succeeds with count >= 1 and length*count = D |
| Segmenter.FirstPassBelowMax | backend/services/audio_service.py:76-77 | the first-pass length is strictly below max_duration |
| Segmenter.PlanLengthBounds | backend/services/audio_service.py:80-84 | without a re-pack the length stays below max; after a re-pack it reaches min exactly when D >= min |
| Segmenter.RepackLength | backend/services/audio_service.py:81-84 | re-packing to max(1, floor(D/m)) segments gives a length >= m exactly when D >= m |
| Segmenter.SevenSecondsIsOneSegment | backend/services/audio_service.py:76-91 | with the defaults, 7 s becomes one segment [0, 7] |
| Segmenter.Ranges | backend/services/audio_service.py:89-91 | one range per planned segment |
| Segmenter.RangesPartition | backend/services/audio_service.py:89-91 | ranges start at 0, lie within [0, D], meet end to start, and the last ends at D |
| Segmenter.RangeAt | backend/services/audio_service.py:90-91 | the same facts for a single range index |
| Segmenter.RangesMonotone | backend/services/audio_service.py:90-91 | starts and ends are non-decreasing along the list |
| Segmenter.SegmentsPartitionDuration | backend/services/audio_service.py:76-96 | for any D the planned ranges partition [0, D], and there are as many ranges as segment paths |
| Segmenter.SegmentPaths | backend/services/audio_service.py:88-96 | n paths for n segments, none for n <= 0; path i is `segment_{i+1}.wav` |
| Segmenter.SegmentNamesDistinct | backend/services/audio_service.py:93 | different segment numbers give different file names |
| Segmenter.SegmentPathsDistinct | backend/services/audio_service.py:88-96 | no two of `segment_1.wav` … `segment_n.wav` coincide |
| LegacySegmenter.LegacyPlan | backend/segment_and_extract.py:14-20 | a successful plan has a non-zero count with length*count = D |
| LegacySegmenter.LegacyFailsIffShort | backend/segment_and_extract.py:18-20 | the unguarded re-pack divides by zero exactly when D < min_duration |
| LegacySegmenter.LegacyEmptyClipFails | backend/segment_and_extract.py:6-20 | an empty clip with the default bounds divides by zero |
| LegacySegmenter.LegacyAgreesWhenDefined | backend/segment_and_extract.py:14-20 | whenever the script succeeds, it plans what the audio service plans |
| LegacySegmenter.LegacyCuts | backend/segment_and_extract.py:26-52 | one cut per range, cut i carrying range i and writing `segment_{i+1}.mp4` and `segment_{i+1}.wav` |
| LegacySegmenter.LegacyCutNames | backend/segment_and_extract.py:38-52 | the two files of a cut share a stem and differ only in the `.mp4`/`.wav` ending, and no two cuts share a file |
| Timeline.Timeline | backend/data_processor.py:84-95 | one pair per classifier entry, in iteration order, each with that entry's emotion |
| Timeline.ProcessEmotionData | backend/data_processor.py:81-99 | the loop with its running total computes exactly the timeline |
| Timeline.TimelineIgnoresFileNames | backend/data_processor.py:84-85 | file names are never consulted: entries with the same labels give the same timeline |
| Timeline.TimelineStartsAtZero | backend/data_processor.py:81-87 | the first range starts at `00:00` |
| Timeline.TimelineContiguous | backend/data_processor.py:87-97 | every non-last range ends where the next one starts |
| Timeline.TimelineEndsAtTotal | backend/data_processor.py:89-90 | the last range ends at the formatted total, whatever the durations add up to |
| Timeline.TimelineStartSeconds | backend/data_processor.py:87-97 | range i starts at the whole seconds of the sum of the first i durations |
| Timeline.MissingDurationIsZero | backend/data_processor.py:85 | a missing duration counts as 0: padding the list with 0 changes nothing |
| Timeline.ElapsedPadded | backend/data_processor.py:85 | the running total ignores a trailing zero duration |
| Timeline.ElapsedIsSum | backend/data_processor.py:97 | the running total before entry i is the sum of the first i durations |
| Timeline.FourQuarterMinutes | backend/data_processor.py:81-99 | four 15 s segments of a 60 s total give 00:00-00:15 … 00:45-01:00 |
| Timeline.LastEndSnapsToTotal | backend/data_processor.py:89-90 | with a 58 s total, the last range ends at 00:58 rather than at the sum |
| Timeline.RangeTextParts | backend/utils/visualization.py:28-29 | splitting a range on ` - ` gives back its two clocks |
| Timeline.ToRecords | backend/data_processor.py:137-138 | one `{time_range, emotion}` record per pair |
| Timeline.FromRecords | backend/data_processor.py:176-177 | one pair per record |
| Timeline.RecordsRoundTrip | backend/data_processor.py:137-178 | converting to records and back gives the original list |
| Timeline.SaveAnalysisResults | backend/data_processor.py:137-148 | the segments are always stored; the Gemini analysis is stored exactly when it is truthy |
| Timeline.LoadAnalysisResults | backend/data_processor.py:167-182 | a missing file and a load error produce their error texts; a loaded document keeps its transcription data |
| Timeline.SaveLoadRoundTrip | backend/data_processor.py:137-182 | loading what was saved gives back the segments, the transcription and the truthy analysis |
| EmotionStats.Distinct | backend/data_processor.py:217-219 | the labels without repeats, in first-seen order, with the same members as the input |
| EmotionStats.Bump | backend/data_processor.py:219 | one count grows by one, or a new key gets count 1 at the end; keys stay unique |
| EmotionStats.Tally | backend/data_processor.py:216-219 | each distinct label, in first-seen order, with its number of occurrences |
| EmotionStats.TallySum | backend/data_processor.py:216-219 | the counts add up to the number of segments |
| EmotionStats.SortHeadIsFirstMax | backend/data_processor.py:223-224 | the head of the stable descending sort is the first entry with the largest count |
| EmotionStats.Dominant | backend/data_processor.py:224-225 | empty input gives `none` with count 0 |
| EmotionStats.DominantIsFirstMostFrequent | backend/data_processor.py:223-225 | the dominant label occurs in the input as often as any other label, and every label tied with it is seen no earlier |
| EmotionStats.Transitions | backend/data_processor.py:232-235 | at most n-1 adjacent changes |
| EmotionStats.NoTransitionsIffConstant | backend/data_processor.py:232-235 | no transitions exactly when every label equals the first |
| EmotionStats.DistinctBoundedByTransitions | backend/data_processor.py:229-235 | the number of distinct labels is at most the number of transitions plus one |
| EmotionStats.ShiftPositions | app/components/gemini_insights.py:203-204 | exactly the positions whose label differs from the previous one, ascending |
| EmotionStats.TransitionList | backend/utils/visualization.py:66-72 | one text per transition: entry k is `a → b` for the labels either side of the k-th change position, in order |
| EmotionStats.PercentBounds | backend/data_processor.py:226 | a count between 1 and n is a share in (0, 100] |
| EmotionStats.CalculateEmotionStats | backend/data_processor.py:206-243 | empty input gives `none` and zeros; otherwise the counts pair each distinct label, in first-seen order, with its number of occurrences and sum to n, diversity is the number of distinct labels, transitions equal the number of adjacent label changes, and the dominant label has maximal count, is the first such label seen, and carries its share |
| EmotionStats.Versatility | backend/utils/visualization.py:63 | the score lies in [0, 100] and is 100 exactly when there are five or more distinct labels |
| EmotionStats.CalculateEmotionMetrics | backend/utils/visualization.py:49-80 | the counts are the tally ordered by descending count; diversity is the number of distinct labels, and versatility is full exactly from five distinct labels on; the main label has maximal count and its share; empty input gives `None` and 0; the transition texts are the transition list, one per label change |
| EmotionStats.MainEmotionIsDominant | backend/visualization_helper.py:49-60 | the helpers' main emotion is the processor's dominant emotion, and they list one transition text per transition the processor counts |
| EmotionStats.EmotionDistribution | backend/utils/visualization.py:175-192 | labels in first-seen order, each value its label's count, values summing to the number of segments, each percentage its count / segments * 100 (no percentages for no segments) |
| EmotionStats.DistributionSharesSumTo100 | backend/visualization_helper.py:124-142 | for non-empty input the percentages add up to 100 |
| Visualization.PrepareEmotionTimelineData | backend/utils/visualization.py:25-34 | a missing ` - ` raises IndexError and an unparsable clock raises ValueError; otherwise one row per segment, in order, with start, end and midpoint seconds |
| Visualization.TimelineFrameOfTimeline | backend/visualization_helper.py:25-34 | every built timeline parses; each row's start and end seconds are the whole seconds of the running totals before and after it, the last ending at the total, and each row ends where the next begins |
| Visualization.PrepareWpsData | backend/utils/visualization.py:93-114 | one point per segment at its midpoint, with bounds 2.0 and 3.0 and the segment's emotion |
| Visualization.PrepareWpsDataLegacy | backend/visualization_helper.py:93-112 | the same points without the emotion field |
| Visualization.WpsPointsAtSlotMiddles | backend/utils/visualization.py:102 | the point for a transcript record with index i sits at i*d + d/2, the middle of its slot |
| Visualization.PrepareCombinedTimelineData | backend/utils/visualization.py:131-162 | the result has emotion rows then speed rows, categorised Too Fast / Too Slow / Optimal; a speed point without an emotion raises KeyError |
| Visualization.CombinedNeedsEmotionColumn | backend/utils/visualization.py:159 | the newer points always combine; the older helper's points combine only when there are none |
| Visualization.SegmentIssues | backend/utils/visualization.py:229-236 | the few-words message fires exactly when there are < 3 words over > 2 s; the filler message fires exactly when fillers exceed 20% of the words |
| Visualization.Issues | backend/utils/visualization.py:223-236 | every issue names an actual segment (1-based) and one of the two messages |
| Visualization.IssuesExactly | backend/visualization_helper.py:173-186 | the message for the segment at position k is reported exactly when that segment breaks the corresponding rule |
| Visualization.PrepareSpeechClarityData | backend/utils/visualization.py:204-243 | empty input gives zeros; otherwise the average words per segment is total words / segments, and clarity is that average clamped as `min(100, max(0, avg / 20 * 100))`, so it lies in [0, 100] |
| Visualization.ClarityAgreesWithMetrics | backend/visualization_helper.py:163-170 | the chart's clarity equals the transcription service's clarity |
| Visualization.FillerInsideWord | backend/utils/visualization.py:234-235 | fillers are raw substrings: `Alike` counts as one filler in one word and is flagged |
| Transcription.EmotionFor | backend/services/transcription.py:66 | entry i's label when present, otherwise `unknown` |
| Transcription.WordsPerSecond | backend/services/transcription.py:77-78 | rate*duration = word count for a positive duration, otherwise 0 |
| Transcription.Transcribed | backend/services/transcription.py:69-88 | the record keeps its index and the stripped text; start is i*d and end is start + d |
| Transcription.KeptIndices | backend/services/transcription.py:59-94 | the ascending indices whose file exists and whose transcription succeeds |
| Transcription.TranscribeSegments | backend/services/transcription.py:53-96 | an unloaded model gives []; otherwise one record per kept segment, with its original index, in ascending order |
| Transcription.RecordIffKept | backend/transcription_service.py:62-99 | a segment has a record exactly when its file exists and transcription succeeds |
| Transcription.RecordRateCountsWords | backend/transcription_service.py:72-81 | each record's rate is words over d, and its span is d |
| Transcription.RecordStart | backend/services/transcription.py:69 | each record starts at index*d |
| Transcription.Positions | backend/services/transcription.py:130-134 | the ascending indices whose rate is in a given band |
| Transcription.ClarityScore | backend/services/transcription.py:138-139 | clarity is avg words*5 for an average of at most 20 words, 100 above that, and always within [0, 100] |
| Transcription.GetSpeechMetrics | backend/services/transcription.py:108-148 | empty input gives zeros; otherwise the metrics hold the mean rate, total words, the variation max − min (the largest difference between two rates, attained by some pair), clarity `min(100, max(0, words per segment / 20 * 100))`, and the fast (> 3) and slow (< 1) segment indices, each list exactly those indices in ascending order |
| Transcription.AverageWithinRange | backend/transcription_service.py:111-152 | the average rate lies between the slowest and the fastest segment |
| Transcription.FastAndSlowDisjoint | backend/services/transcription.py:130-134 | no segment is both fast and slow, and a segment is in neither list exactly when its rate is in [1, 3] |
| Transcription.MetricsOfTranscript | backend/services/transcription.py:77-139 | for the service's own records, avg rate * d * n is the total word count, and clarity is the clamped avg rate * d * 5 |
| Transcription.MetricsOfScaledRates | backend/transcription_service.py:80-143 | the same relation for any records whose rates are word counts over a common duration |
| Transcription.DisplayLines | backend/services/transcription.py:172-177 | one `[MM:SS - MM:SS] (emotion) text` line per segment, in order |
| Transcription.FormatForDisplay | backend/services/transcription.py:160-179 | the fixed no-data message appears exactly for empty input |
| Transcription.DisplaySplitsIntoLines | backend/transcription_service.py:164-183 | splitting the display text on blank lines gives back the per-segment lines |
| Transcription.DisplayLineHasNoNewline | backend/services/transcription.py:176 | a line holds no newline when its text and emotion hold none |
| Transcription.DisplayClocksParse | backend/services/transcription.py:164-176 | the line's two clocks parse back to the whole seconds of start and end |
| Transcription.Marked | backend/services/transcription.py:206-214 | fast text is wrapped in `<strong>`, slow text in `<em>`, and in-band text is left as is |
| Transcription.NonBlankPositions | backend/services/transcription.py:200-203 | exactly the ascending positions of the segments whose text is not blank |
| Transcription.Parts | backend/services/transcription.py:200-216 | part k is the stripped text of the k-th non-blank segment, wrapped by its speed band; one non-empty part per non-blank segment |
| Transcription.NonBlankCountSort | backend/services/transcription.py:195 | sorting by start keeps the number of non-blank segments |
| Transcription.FormatAsParagraph | backend/services/transcription.py:191-219 | no data gives the fixed message; otherwise the paragraph is the parts of the start-sorted segments joined by single spaces, and it is empty exactly when every text is blank |
| Transcription.ParagraphOfSorted | backend/services/transcription.py:195-219 | data already in start order is joined in its given order, with no reordering |
| Transcription.ParagraphPartPerNonBlankSegment | backend/services/transcription.py:195-216 | the paragraph has one part per non-blank segment |
| Transcription.ParagraphOrder | backend/services/transcription.py:195 | the order is by start time and stable: segments with equal starts keep their order |
| Transcription.ParagraphOfTranscriptKeepsOrder | backend/services/transcription.py:69-195 | the service's own records are already in start order, so the sort leaves them unchanged |
| Transcription.ParagraphOfTranscript | backend/services/transcription.py:191-219 | the paragraph of the service's own records is the marked, stripped texts of the non-blank records, in transcription order, joined by spaces |
| Pace.BandOf | backend/services/transcription.py:131-134 | too fast exactly above 3.0, too slow exactly below 1.0, optimal exactly in [1.0, 3.0] |
| Pace.CategoryName | backend/utils/visualization.py:147-152 | each band has its own category name |
| Pace.CategoryOfSpeed | backend/utils/visualization.py:147-152 | a point is "Too Fast" exactly above 3.0 wps, "Too Slow" exactly below 1.0, and "Optimal" otherwise |
| Gemini.IssueOf | backend/services/gemini_service.py:103-106 | no issue exactly for a rate in [1.0, 3.0]; otherwise the issue is fast or slow |
| Gemini.OffPacePositions | backend/services/gemini_service.py:87-106 | the ascending positions of the off-pace segments |
| Gemini.SpeedIssues | backend/services/gemini_service.py:87-106 | one issue per off-pace segment, in order, and at most one per segment |
| Gemini.PromptStatsOf | backend/services/gemini_service.py:103-117 | empty data gives zeros; otherwise the average rate lies between min and max, the variation is max − min (bounds every pairwise difference and is attained by one), and transitions <= n-1 |
| Gemini.PromptAgreesWithMetrics | backend/services/gemini_service.py:109-111 | the prompt's average and variation equal the transcription metrics' values |
| Gemini.PromptTransitions | backend/services/gemini_service.py:114-117 | transitions count the adjacent emotion changes, and are zero exactly when all emotions are equal |
| Gemini.ContextLines | backend/services/gemini_service.py:168 | one `range: emotion` line per segment |
| Gemini.EmotionTimelineLines | backend/services/gemini_service.py:168 | splitting the simple prompt's timeline on newlines gives back those lines |
| Gemini.ChoosePrompt | backend/services/gemini_service.py:216-219 | the detailed prompt is used exactly when there is transcription data; otherwise the emotion-timeline prompt is used |
| Gemini.FencedBody | backend/services/gemini_service.py:232-234 | a body is found only after the leftmost opening fence (three backticks, `json`, newline) and up to the nearest closing fence (newline, three backticks) after it, and is exactly the text between them; with no body, no opening fence is followed by any closing fence |
| Gemini.BraceSpan | backend/services/gemini_service.py:237-239 | a span exists exactly when some `{` precedes some `}`, and it runs from the first `{` to the last `}` |
| Gemini.Candidate | backend/services/gemini_service.py:232-242 | the candidate is always a slice of the reply, and the whole reply when there is neither a fence nor a brace span |
| Gemini.FencedBodyOf | backend/services/gemini_service.py:232-234 | a reply `pre ```json\n body \n``` post` yields exactly `body` |
| Gemini.FencedCandidate | backend/services/gemini_service.py:232-242 | such a reply makes `body` the candidate |
| Gemini.BraceCandidate | backend/services/gemini_service.py:237-239 | when the reply holds no opening `json` fence (three backticks, `json`, newline), the candidate runs from the first `{` to the last `}`, even with other backticks present |
| Gemini.Cleanup | backend/services/gemini_service.py:245 | no triple backtick survives cleanup, and the result has no surrounding whitespace |
| Gemini.CleanupKeepsCleanBody | backend/services/gemini_service.py:245 | a stripped body without backticks is unchanged by cleanup |
| Gemini.AnalyzeSpeech | backend/services/gemini_service.py:207-266 | no model gives the unavailable record; a failed call gives the error record; a direct parse is returned unchanged; otherwise a parse of the cleaned candidate is returned; a document is returned exactly when one of the two parses; otherwise the manual record holds the reply |
| Gemini.FencedReplyParsesBody | backend/services/gemini_service.py:229-248 | a fenced reply that fails the direct parse is re-parsed from its body |
| Gemini.StructuredRecordsHaveSummary | backend/services/gemini_service.py:207-266 | among the service's own records, the improvement areas are empty exactly on the no-model path, and the strengths are non-empty exactly when the call returned text that did not parse |
| Insights.FirstSubstantive | app/components/gemini_insights.py:148-149 | the first piece longer than 20 and shorter than 120 characters, if any |
| Insights.Shorten | app/components/gemini_insights.py:157 | text of up to 100 characters is kept; longer text becomes its first 100 characters plus `...` (at most 103 characters) |
| Insights.KeyInsight | app/components/gemini_insights.py:140-157 | no summary gives the fixed message; otherwise the answer is the first substantive sentence plus `.` (at most 120 characters), then the first improvement area, then the shortened summary |
| Insights.InsightIsSummarySentence | app/components/gemini_insights.py:145-150 | in the sentence branch the pieces rejoin into the summary, and the answer is one of them plus a full stop |
| Insights.InsightOfJoinedSentences | app/components/gemini_insights.py:145-150 | a summary built from sentences yields its first substantive sentence |
| Insights.ShortSummaryComesBack | app/components/gemini_insights.py:148-157 | a summary of at most 20 characters with no improvement areas is returned as is |
| Insights.StatusOf | app/components/gemini_insights.py:195-200 | Too Fast exactly above 3.0, Too Slow exactly below 1.5, Good in between |
| Insights.StatusAgainstPace | app/components/gemini_insights.py:195-200 | the dashboard agrees with the pace bands on fast rates, but also calls 1.0 <= avg < 1.5 too slow |
| Insights.ShiftsAreTransitions | app/components/gemini_insights.py:203-204 | the number of emotion shifts is the transition count |
| Insights.SpeedFigureOf | app/components/gemini_insights.py:191-204 | with transcription data the figure is the average speed between min and max rate with its status; without it, the number of emotion shifts |
| Insights.SpeedFigureAgreesWithMetrics | app/components/gemini_insights.py:192-193 | the dashboard's average equals the speech metrics' average |
| Insights.RangeFigureOf | app/components/gemini_insights.py:207-212 | the strengths count when the list is non-empty; otherwise the number of distinct labels, which is between 1 and n for non-empty input |
| Routes.Extension | backend/api/routes.py:33 | none exactly when the name has no dot; otherwise the dot-free text after the last dot |
| Routes.AllowedFile | backend/api/routes.py:30-33 | a name is accepted exactly when it has a last dot and the text after it lower-cases to mp4, mov, avi or webm |
| Routes.AllowedByLastExtension | backend/api/routes.py:32-33 | only the lower-cased text after the last dot decides, against exactly mp4/mov/avi/webm |
| Routes.NoDotRefused | backend/api/routes.py:33 | a name without a dot is refused |
| Routes.UpperCaseExtensionAllowed | backend/api/routes.py:33 | `a.MP4` passes |
| Routes.DoubleExtensionRefused | backend/api/routes.py:33 | `a.mp4.exe` fails |
| Routes.ValidateUpload | backend/api/routes.py:42-53 | the file-part check comes first, then the empty-name check, then the type check, all with status 400; a file is accepted exactly when it is present and allowed |
| Routes.EmptyNameNeverAllowed | backend/api/routes.py:48-53 | the empty name would fail the type check as well |
| Routes.SerializeSegments | backend/api/routes.py:124 | one `{time_range, emotion}` record per segment, in order |
| Routes.SerializedSegmentsRoundTrip | backend/api/routes.py:124 | the records read back as the original segments |
| Routes.TranscriptViewsOf | backend/api/routes.py:116-129 | clarity and speed data are absent exactly when there is no transcription; clarity lies in [0, 100] and there is one speed point per record |
| Routes.ResponseClarityIsMetricsClarity | backend/api/routes.py:116-128 | the response's clarity equals the speech metrics' clarity |
| Routes.ChatContext | backend/api/routes.py:151-155 | a request without segments has an empty context |
| Routes.ChatContextOfUpload | backend/api/routes.py:124-155 | the chat context of an upload's segments is the simple prompt's timeline, one line per segment |
| SpeechAnalysis.LexIsTotalPreorder | backend/services/speech_analysis.py:91 | name order is total and transitive |
| SpeechAnalysis.LexAntisymmetric | backend/speech_analysis.py:62 | two names each ordered before the other are equal |
| SpeechAnalysis.Select | backend/services/speech_analysis.py:83 | exactly the listed regular files that match the pattern |
| SpeechAnalysis.SelectPermutation | backend/services/speech_analysis.py:83 | the listing order does not change which files are selected |
| SpeechAnalysis.PatternsDiffer | backend/speech_analysis.py:54 | every `segment_*.wav` is a `*.wav`; `full_audio.wav` is only the latter |
| SpeechAnalysis.LabelOf | backend/services/speech_analysis.py:43-66 | an unloaded model or a failed inference gives `neutral`; otherwise the classifier's label |
| SpeechAnalysis.LabelAll | backend/services/speech_analysis.py:91-94 | one entry per name, in the given order, keyed by the name |
| SpeechAnalysis.AnalyzeSegments | backend/services/speech_analysis.py:78-97 | a missing folder raises FileNotFoundError; otherwise the keys are the selected names in name order, each with its label |
| SpeechAnalysis.AnalysisKeys | backend/services/speech_analysis.py:83-94 | the keys are name-sorted and are exactly the segment files, never `full_audio.wav`; no segment files give {} |
| SpeechAnalysis.FirstFailure | backend/speech_analysis.py:62-64 | the first name whose classification raises, if any |
| SpeechAnalysis.ClassifyAll | backend/speech_analysis.py:62-66 | this succeeds exactly when every classification succeeds, keying each name to its label; otherwise an error raised by one of them propagates |
| SpeechAnalysis.AnalyzeSegmentsLegacy | backend/speech_analysis.py:49-68 | a missing folder raises; otherwise every `*.wav` is classified in name order |
| SpeechAnalysis.TwinsAgreeOnSegmentFolders | backend/speech_analysis.py:49-68 | on a folder of segment files whose classifications succeed, both analyzers give the same result |
| Pipeline.SplitFolderSelection | backend/services/speech_analysis.py:83 | in the planner's output folder the analyzer selects exactly the segment paths, each once |
| Pipeline.KeysArePaths | backend/services/speech_analysis.py:83-91 | whatever the order, the analyzed keys are a permutation of the n segment paths |
| Pipeline.KeysByName | backend/services/speech_analysis.py:91 | the as-written keys are in name order |
| Pipeline.TenBeforeTwo | backend/services/speech_analysis.py:91 | `segment_10.wav` sorts strictly before `segment_2.wav` |
| Pipeline.TenKeyedBeforeTwo | backend/services/speech_analysis.py:91 | in the keys, `segment_10.wav` comes before `segment_2.wav` |
| Pipeline.NameOrderAlignedBelowTen | backend/services/speech_analysis.py:91 | with nine or fewer segments, name order is number order |
| Pipeline.NameOrderMisaligns | backend/data_processor.py:84-85 | with ten or more segments, some slot carries the label of a file other than the one whose duration it uses |
| Pipeline.AnalyzeSegmentsByNumber | backend/services/speech_analysis.py:78-97 | the corrected analyzer keys the same files in segment-number order |
| Pipeline.NumberOrderAligned | backend/services/audio_service.py:88-96 | the corrected keys are `segment_1.wav` … `segment_n.wav`, in the order of the segment durations |
| Pipeline.CorrectedTimelineLabels | backend/data_processor.py:84-85 | with the correction, slot i always shows the label of `segment_{i+1}.wav` |
| Pipeline.AverageSegmentDuration | backend/api/routes.py:91 | average*count = total for a non-empty split, otherwise 0 |
| Pipeline.EmotionTimeline | backend/api/routes.py:78-88 | the route's timeline has one entry per analyzer key, carrying that key's label |
| Sorting.SortStable | backend/services/transcription.py:195 | sorting keeps the relative order of equivalent elements |
| Sorting.SortOfSorted | backend/services/transcription.py:195 | sorting an already sorted list leaves it unchanged |
| Sorting.SortedUnique | backend/services/speech_analysis.py:91 | under an antisymmetric order, two sorted permutations of each other are equal |
| Text.JoinOfSplit | app/components/gemini_insights.py:145 | joining the pieces with the separator gives the text back |
| Text.SplitOfJoin | app/components/gemini_insights.py:145 | splitting a join of separator-free pieces gives the pieces back |
| Text.RemoveAllUniformLeavesNone | backend/services/gemini_service.py:245 | removing every occurrence of a one-character-repeat pattern leaves none |
| Text.WordCountIsSplitLength | backend/services/transcription.py:77 | the word count is the number of whitespace-separated words |
| Text.Strip | backend/services/transcription.py:74 | the result has no surrounding whitespace, and it is empty exactly when the text is all whitespace |

## Left out

- The ffmpeg and moviepy subprocesses, the wav2vec classifier, Whisper and the Gemini network call: their outcomes are parameters.
- JSON encoding and decoding: `parse` is a partial function.
- File writes, `uuid` and `secure_filename`.
- The pose, video and feedback modules, Flask wiring, the React frontend and the Streamlit pages.
- The session-state lookup in `get_key_insight`: the analysis is an argument.
- Float rounding is not modelled; values are exact. This covers `round(…, 1)` and `round(…, 2)` in the records, metrics and percentages, `:.2f`/`:.1f` display, and IEEE rounding of `duration / n`. So the last range ends exactly at D, and adjacent range boundaries meet exactly.
- The prompt template prose and `generate_chat_response`: they have no behaviour beyond text.
- The Primary Emotion metric (`max(set(labels), key=count)`) is left out: its choice among tied labels depends on set iteration order, which Python does not specify.
- pandas `value_counts`: modelled as a stable descending sort of first-seen counts. pandas does not document its tie order.
- `str.lower()`: modelled on ASCII letters only, which is exact for the four allowed extensions.
- Visualization.FillerCount: uses the same ASCII lower-casing for `text.lower().count(word)`, so a filler spelled with a non-ASCII capital that Python lowers to an ASCII letter (U+212A KELVIN SIGN for `k`) is counted by the source but not by the model.
- Python `int()` on clock text: modelled as an optional sign and ASCII digits. Surrounding whitespace, underscores and non-ASCII digits are not accepted.
- Windows case-insensitive globbing and `Path.exists`: the folder is either a listing or absent, and `is_file` is a parameter.
- DurationProbe.ProbeDuration: returns a `nat`; the source returns `0.0` as a float when nothing matches.
- Timestamp.FormatTimestamp: the length bounds cover non-negative inputs only. For negative inputs the text includes Python's minus sign, which FormatChars allows but which no lemma pins down further.
- Insights.InsightOfJoinedSentences: requires sentences without any `.` at all, which is stronger than needed: a sentence that only avoids `". "` would also split back unchanged, but the lemma does not cover it.
- Gemini.FencedCandidate: requires no backtick before or inside the body. A backtick there could start an earlier fence.
- Gemini.FencedBodyOf: has the same no-backtick requirement, so replies with backticks before the fence or inside the body are not covered.
- Gemini.AnalyzeSpeech: the four keys of a successfully parsed document are not checked, because the source returns it unchanged.
- Routes.ChatContext: stated for the records an upload produces (ChatContextOfUpload); malformed client records, which would raise KeyError, are not modelled.
- Transcription.DisplaySplitsIntoLines: requires texts and emotions without newlines; otherwise a line could itself contain a blank line.
- Gemini.AnalyzeSpeech: with no model the three lists are empty, and after a failed call `strengths` is empty; the model keeps these empty lists as the code builds them.
- DurationProbe.FirstMatch: `\d` is modelled as an ASCII digit. Python's `\d` also matches other Unicode decimal digits, which ffmpeg does not print.
- Segmenter.SegmentPaths: the names are modelled without the `output_dir` prefix. The prefix is the same for every path, so distinctness and order are unaffected.
- Gemini.ChoosePrompt: the detailed prompt is modelled by its statistics only; the per-segment timeline blocks the source also writes into it are prompt text and are not modelled.
- SpeechAnalysis.Select: keeps a name as often as the listing holds it, while the analyzer's dictionary would collapse repeated keys. A directory listing has no repeats, so this does not arise.

## Findings

| source | as written | input that shows it | evidently intended | confidence | as-written member | corrected member |
|---|---|---|---|---|---|---|
| backend/services/speech_analysis.py:91 | labels are keyed in file-name order, while backend/data_processor.py:84-85 pairs them by position with durations listed in segment-number order (backend/services/audio_service.py:88-96) | a recording of 63 to 69 s with the default bounds splits into 10 segments; `segment_10.wav` is keyed second, so slot 1, which is timed by segment 2's duration, shows segment 10's emotion | key the labels in segment-number order, so slot i shows `segment_{i+1}.wav` | not executed | Pipeline.NameOrderMisaligns | Pipeline.CorrectedTimelineLabels |
| backend/segment_and_extract.py:18-20 | the re-pack runs without the `n > 1` guard or the clamp to 1 | any clip shorter than min_duration, e.g. a 3 s clip with the defaults: floor(3/4) = 0 segments, then division by zero | at least one segment, as in backend/services/audio_service.py:80-84 | not executed | LegacySegmenter.LegacyFailsIffShort | Segmenter.SegmentsPartitionDuration |
