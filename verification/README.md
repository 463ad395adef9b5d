# lesson-content-extractor in Dafny

This project models the rule-based core of *lesson-content-extractor*. Given a teacher/student
lesson transcript, the pipeline extracts vocabulary, correction pairs and practice sentences.
From them it builds six exercise types: fill-in-blank, flashcard, spelling, multi-blank cloze,
grammar question and sentence builder. It then trims the three older types to the lesson's
budget of eight to twelve exercises and runs a quality check. The model also covers the pure
helpers of the HTTP API and the Zoom worker, and the session bookkeeping of the three games.

Each source file has its own module:

| module | source file |
|---|---|
| `TextProcessing` | src/utils/text_processing.py: speaker lines, correction patterns, vocabulary words, topics |
| `VocabularyExtractor`, `MistakeExtractor`, `SentenceExtractor` | src/extractors/*.py |
| `FillInBlank`, `Flashcard`, `Spelling` | src/generators/fill_in_blank.py, flashcard.py, spelling.py |
| `AdvancedCloze`, `ClozeDistractors` | src/generators/advanced_cloze_generator.py (its distractor loop is in its own module) |
| `GrammarQuestion` | src/generators/grammar_question_generator.py |
| `SentenceBuilderGen` | src/generators/sentence_builder_generator.py |
| `SentenceRecords` | the dictionary records through which practice sentences reach the two newer generators |
| `GeminiHelper` | the rule-based paths of src/utils/gemini_helper.py |
| `QualityChecker` | src/utils/quality_checker.py |
| `LessonProcessor` | src/main.py: extraction, generation, trimming and validation for one lesson |
| `Api`, `Recordings` | the time-window, recording and caption helpers of api.py |
| `ZoomFetcher` | the caption cleaning and source choice of src/workers/zoom_fetcher.py |
| `GameSessions`, `GrammarChallenge`, `SentenceBuilderGame`, `SpellingBee` | src/games/grammar_challenge.py, sentence_builder.py, spelling_bee.py |
| `Text`, `Seqs`, `Wrappers` | Python `str` operations, sequence helpers, and `Option`/`Result` |

Some inputs come from outside the code and are passed in as parameters:

- **Randomness.** Every call to `random.shuffle`, `random.sample` or `random.choice` becomes an
  explicit sequence of draws. `Seqs.Shuffle` is the Fisher–Yates shuffle driven by those draws.
  `Seqs.ShuffleReaches` shows that every permutation is reachable. So a property proved for all
  draw sequences holds whatever the random source returns.
- **Database reads** (the questions a session fetches, a word's stored counts) are parameters.
- **Set iteration order** is an `order` parameter wherever the source iterates over a Python set.

The exercise pipeline (`LessonProcessor`, the extractors and the generators) follows the code as
written, including its defects. For each defect the model also has the evidently intended
definition, with the intended property proved about it. See "## Findings".

## Model

| member | source | states |
|---|---|---|
| TextProcessing.NextMarker | src/utils/text_processing.py:27 | the next "Teacher:" or "Student:" marker at or after `i`, with no marker in between |
| TextProcessing.SplitBeforeMarkers | src/utils/text_processing.py:27 | the split of a one-line transcript: every piece after the first begins with a marker and no piece holds a marker past its start |
| TextProcessing.SplitBeforeMarkersConcat | src/utils/text_processing.py:27 | the pieces put back together are the input |
| TextProcessing.NonBlankStripped | src/utils/text_processing.py:28 | the kept pieces are non-empty and stripped, and there are no more of them than pieces |
| TextProcessing.TranscriptLines | src/utils/text_processing.py:22-28 | a one-line transcript is split before each speaker marker into non-empty stripped lines; otherwise its stripped text is split on newlines |
| TextProcessing.Utterances | src/utils/text_processing.py:62-78 | one stripped utterance per line that starts with the marker |
| TextProcessing.UtterancesFirst | src/utils/text_processing.py:62-78 | there is an utterance exactly when some line starts with the marker, and the first one comes from the first such line |
| TextProcessing.Span | src/utils/text_processing.py:38-46 | the longest run from `j` of characters in (or out of) a set: every character in it belongs, and the one after it does not |
| TextProcessing.ClauseAt | src/utils/text_processing.py:38-46 | the group `([A-Z][^.!?]+)` matches at `k` exactly when a capital is followed by at least one non-terminator, and then captures a capitalised clause free of '.', '!' and '?' |
| TextProcessing.LeadIn | src/utils/text_processing.py:38-46 | the cue word and separator of a pattern, when present, end after the start index |
| TextProcessing.MatchAt | src/utils/text_processing.py:38-46 | what a pattern captures from a given start is a clause |
| TextProcessing.Search | src/utils/text_processing.py:50 | what `re.search` captures is a clause |
| TextProcessing.SearchLeftmost | src/utils/text_processing.py:50 | the search finds nothing exactly when no start index matches, and otherwise returns the clause of the leftmost matching start |
| TextProcessing.PatternResults | src/utils/text_processing.py:36-50 | one search result per pattern, in the order the patterns are listed |
| TextProcessing.FirstMatch | src/utils/text_processing.py:49-58 | what the pattern loop keeps is a clause |
| TextProcessing.FirstMatchWins | src/utils/text_processing.py:49-58 | the first pattern that finds anything decides, whatever later ones would find, and nothing is found only when no pattern matches |
| TextProcessing.QuoteBlocksAsWritten | src/utils/text_processing.py:38-46 | as written, a cue followed by a quote does not match at that start: the capital must follow the separator directly |
| TextProcessing.Clean | src/utils/text_processing.py:53 | the cleaned text has no quote or space at either end |
| TextProcessing.CleanClause | src/utils/text_processing.py:53 | cleaning a captured clause keeps its capital in front and adds no terminator |
| TextProcessing.CorrectionAt | src/utils/text_processing.py:30-58 | a pair comes only from a teacher line whose previous line is a student line, and it is well formed: both sides non-empty and cleaned, the correct side a capitalised clause without terminators |
| TextProcessing.CorrectionsFrom | src/utils/text_processing.py:30-58 | at most one pair per line, all well formed |
| TextProcessing.CorrectionsFromSource | src/utils/text_processing.py:30-58 | every pair is the pair of some teacher line whose previous line is a student line |
| TextProcessing.CorrectionsFromStep | src/utils/text_processing.py:30-58 | the pairs are collected line by line, in line order |
| TextProcessing.ExtractCorrections | src/utils/text_processing.py:15-59 | `extract_corrections` as written: no more pairs than lines, each well formed |
| TextProcessing.ExtractCorrectionsQuoted | src/utils/text_processing.py:15-59 | the same extraction with an opening quote allowed before the clause: no more pairs than lines, each well formed |
| TextProcessing.QuotedClauseFound | src/utils/text_processing.py:38-46 | with the quote allowed, a cue followed by a quote and a capitalised clause captures that clause |
| TextProcessing.QuotedCorrectionExample | tests/test_extractors.py:68-77 | on `Correction: "I wake up at 7 AM."` the pattern as written finds nothing at the cue, and the quote-tolerant one captures "I wake up at 7 AM", without the period the test expects |
| TextProcessing.WordRunLen | src/utils/text_processing.py:112 | the run of word characters at the start of a text, maximal |
| TextProcessing.LetterWords | src/utils/text_processing.py:112 | the words found are made of letters only, and lowercase when the text is |
| TextProcessing.VocabWords | src/utils/text_processing.py:113 | a word is kept exactly when it is longer than two characters and not a stop word |
| TextProcessing.FoundHeads | src/utils/text_processing.py:116-127 | every phrase found contributes its first word |
| TextProcessing.PhraseHeadsAreItems | src/utils/text_processing.py:116-127 | the first word of every key phrase is itself a lowercase vocabulary word |
| TextProcessing.VocabCandidates | src/utils/text_processing.py:111-127 | every candidate is a lowercase vocabulary word, and every vocabulary word of the sentence is a candidate |
| TextProcessing.KeyVocabulary | src/utils/text_processing.py:100-135 | at most five items, no repeats, each a single lowercase vocabulary word |
| TextProcessing.KeyVocabularyComplete | src/utils/text_processing.py:129-135 | the items are the first distinct candidates in first-occurrence order, and when fewer than five come back every vocabulary word of the sentence is among them |
| TextProcessing.KeywordScore | src/utils/text_processing.py:95 | a topic scores at most one point per keyword |
| TextProcessing.Scores | src/utils/text_processing.py:95 | one score per topic |
| TextProcessing.ArgMaxFirst | src/utils/text_processing.py:96 | the first index holding the maximum score: no later score is higher and no earlier one equals it |
| TextProcessing.TopicIndex | src/utils/text_processing.py:82-96 | "general" exactly when there is no teacher line or every topic scores zero on the first one; otherwise the first topic with the highest, positive score |
| Api.ParseTime | api.py:275-278 | a match yields an hour below 24 and a minute below 60; the anchored pattern's value is read from its two digit groups |
| Api.Pad2 | api.py:279 | a number below 100 is written as two digits that read back as the number |
| Api.FormatTime | api.py:279 | the formatted time is five characters with the colon in the middle |
| Api.FormatParses | api.py:275-279 | formatting a valid hour and minute and parsing the text gives them back, and the text is a zero-padded clock time |
| Api.ValidateTime | api.py:271-280 | the empty string gives no time; any other text is refused exactly when the pattern does not match, and an accepted one comes back as a zero-padded `HH:MM` naming the same hour and minute |
| Api.ValidateTimeIdempotent | api.py:271-280 | validating an already validated time gives it back unchanged |
| Api.PadsSingleDigitHour | api.py:275-279 | "7:30" is accepted and padded to "07:30" |
| Api.ParseParts | api.py:275-278 | a text whose anchored part is an hour, a colon and a minute parses to their values |
| Api.ParseReadsAnchored | api.py:275 | parsing reads only the part `$` anchors |
| Api.ToleratesFinalNewline | api.py:275 | `$` lets one final newline through: "7:30\n" validates as "7:30" does |
| Api.RefusesHour24 | api.py:275 | "24:00" is refused |
| Api.RefusesShortMinute | api.py:275 | "7:5" is refused |
| Api.TimeToMinutes | api.py:293-298 | the empty string gives no minutes, and nothing else does |
| Api.MinuteOfDay | api.py:293-298 | a validated time names a minute of the day below 1440 |
| Api.MinutesOfClockTime | api.py:293-298 | a validated time converts to hours times 60 plus minutes |
| Api.InWindowCircular | api.py:317-320 | the window test is the circular one: a minute is inside exactly when it comes fewer minutes after the start than the end does, so an equal start and end is an empty window |
| Api.IsTimeInRange | api.py:301-320 | a missing or empty bound lets every meeting through; with both bounds present, a meeting without a time is out |
| Api.RangeOfClockTimes | api.py:301-320 | for validated times the range test is the window test on their minutes of the day |
| Api.HasAudioTranscript | api.py:323-337 | the file chosen is the first one that is a transcript, and none is chosen exactly when no file is one |
| Api.HasAudioFiles | api.py:339-356 | the file chosen is the first audio one (audio-only type, audio extension, or a mixed type under 100 MiB), and none is chosen exactly when no file is audio |
| Api.CaptionLines | api.py:364-376 | a line is kept exactly when its stripped form is neither blank, nor caption noise, nor a "Kind:" or "Language:" header |
| Api.CleanVttTranscript | api.py:359-378 | text with neither "WEBVTT" nor "-->" comes back untouched; otherwise the kept lines joined by single spaces |
| Api.CaptionLinesShape | api.py:364-376 | every kept line is non-empty, stripped and free of newlines |
| Api.Truncate | api.py:793-795 | a transcript over 5000 characters becomes its first 3000 and "..."; shorter ones are unchanged, and nothing longer than 5000 comes out |
| Api.TruncateIdempotent | api.py:793-795 | truncating twice is truncating once |
| Api.PrepareTranscript | api.py:781-795 | a transcript is refused exactly when fewer than 10 characters remain after stripping; the one handed on is the truncated text and is never blank |
| Api.QualityPassedAgrees | api.py:709 | the endpoint's `quality_passed`, the summary's "Yes" and the checker's silence about the total agree |
| Recordings.TranscriptTestSimplifies | src/workers/zoom_fetcher.py:438-447 | the "audio_transcript" test adds nothing to the "transcript" one |
| Recordings.StrippedLines | src/workers/zoom_fetcher.py:233-234 | splitting on newlines and stripping gives at least one line, each stripped and free of newlines |
| ZoomFetcher.KeptLines | src/workers/zoom_fetcher.py:232-241 | every kept line is non-empty, not caption noise, stripped and free of newlines |
| ZoomFetcher.CleanVttTranscript | src/workers/zoom_fetcher.py:222-243 | the cleaned text is empty exactly when no line is kept |
| ZoomFetcher.CleanedLines | src/workers/zoom_fetcher.py:222-243 | the lines of the cleaned text are exactly the kept lines, each stripped and free of headers, cue timings and cue numbers |
| ZoomFetcher.CleanIdempotent | src/workers/zoom_fetcher.py:222-243 | cleaning cleaned text changes nothing |
| ZoomFetcher.CleaningDiffers | src/workers/zoom_fetcher.py:222-243 | the worker strips " hello " to "hello" where the API returns it untouched |
| ZoomFetcher.ExtractTeacherId | src/workers/zoom_fetcher.py:388-396 | the id is the part of the address before its first '@', or the whole address without one |
| ZoomFetcher.TranscriptFile | src/workers/zoom_fetcher.py:436-447 | the first transcript file, and none exactly when no file is a transcript |
| ZoomFetcher.SameTranscriptChoice | src/workers/zoom_fetcher.py:436-447 | the worker and the API choose the same transcript file |
| ZoomFetcher.AudioFile | src/workers/zoom_fetcher.py:466-480 | the first audio file (audio-only type or m4a, mp3, wav, aac), and none exactly when no file is audio |
| ZoomFetcher.AudioNarrowerThanApi | src/workers/zoom_fetcher.py:466-480 | whatever the worker takes as audio the API takes too, but an "ogg" file is audio only to the API |
| ZoomFetcher.ChooseSource | src/workers/zoom_fetcher.py:428-484 | the native transcript exactly when one exists; otherwise the first audio file, and no source exactly when there is neither |
| GameSessions.CheckMode | src/games/grammar_challenge.py:191-197 | a topic session without a category, a lesson session without a lesson and a custom session without selected ids are refused, each with its own message; any other mode passes |
| GameSessions.Open | src/games/grammar_challenge.py:191-293 | a session opens exactly when the mode check passes, the mode is one the service knows and the fetch is non-empty; its items are a rearrangement of the fetched ones (same multiset) and its counters start at zero with the total equal to the number fetched |
| GameSessions.Start | src/games/grammar_challenge.py:270-278 | a new session row has done nothing, counted nothing right or wrong, and has as many items to do as it holds |
| GameSessions.Answer | src/games/grammar_challenge.py:404-416 | one more item done, the total unchanged, exactly the right counter up by one for a right answer and the wrong counter for a wrong one |
| GameSessions.Skip | src/games/grammar_challenge.py:480-490 | a skip is one more item done and one more wrong, the right counter and total unchanged |
| GameSessions.SkipIsWrongAnswer | src/games/grammar_challenge.py:480-490 | skipping moves the counters exactly as a wrong answer does |
| GameSessions.Record | src/games/grammar_challenge.py:380-429 | recording fails with "Session not found or access denied" exactly when there is no session for the user; otherwise the counters move as one answer and a mistake row is written exactly for a wrong answer |
| GameSessions.SkipQuestion | src/games/grammar_challenge.py:455-490 | skipping fails exactly when there is no session; otherwise it keeps a consistent session consistent |
| GameSessions.Complete | src/games/grammar_challenge.py:515-532 | completing fails exactly without a session; the total is never overridden, an absent or empty override leaves the counters alone, and each counter the override names is replaced by its value |
| GameSessions.UnrelatedOverrideKeepsCounters | src/games/grammar_challenge.py:527-532 | an override that names none of the three counters leaves them unchanged, so the emptiness test cannot be observed |
| GameSessions.CompleteIdempotent | src/games/grammar_challenge.py:527-532 | completing a completed session again with the same override changes nothing more |
| GameSessions.FullOverrideDecides | src/games/grammar_challenge.py:527-532 | an override naming all three counters fixes them whatever the session held |
| GameSessions.Replay | src/games/grammar_challenge.py:404-490 | a run of answers and skips keeps the total and advances the item counter by the run's length |
| GameSessions.ReplayConsistent | src/games/grammar_challenge.py:404-490 | from a consistent start, after any run of answers and skips, right plus wrong equals the number of items done |
| GameSessions.PageWindow | src/games/grammar_challenge.py:127-128 | the row window of page `page` holds exactly `limit` rows |
| GameSessions.PagesTile | src/games/grammar_challenge.py:127-128 | consecutive pages leave neither a gap nor an overlap |
| GameSessions.RowPage | src/games/grammar_challenge.py:127-128 | with a positive page size, every row lies in the window of exactly one page, the one numbered `row / limit + 1` |
| GrammarChallenge.StartSession | src/games/grammar_challenge.py:161-293 | the session starts exactly for a known mode with its id present and a non-empty fetch; the questions are a shuffle of the fetched ones, and each failure carries the source's message |
| GrammarChallenge.UnknownModeHasNoQuestions | src/games/grammar_challenge.py:199-263 | a mode outside topic, lesson, custom and mistakes passes the checks but fetches nothing, so it is refused with "No questions available for this session" |
| GrammarChallenge.RecordResult | src/games/grammar_challenge.py:349-429 | one more question done, right plus wrong up by one, and an "incorrect_answer" mistake exactly for a wrong answer; no session means an error |
| GrammarChallenge.SkipLikeWrongAnswer | src/games/grammar_challenge.py:465-490 | a skipped question moves the counters as a wrong answer does |
| GrammarChallenge.PlayedSessionConsistent | src/games/grammar_challenge.py:270-532 | a session started, played through any answers and skips and completed without an override ends with right plus wrong equal to the number done |
| SentenceBuilderGame.StartSession | src/games/sentence_builder.py:163-302 | the session starts exactly for a known mode with its id present and a non-empty fetch; the items are a shuffle of the fetched ones and the counters start at zero |
| SentenceBuilderGame.ClassifyError | src/games/sentence_builder.py:353-374 | "missing_words" exactly for fewer tokens than the answer, "extra_words" exactly for more, "word_order" exactly for as many |
| SentenceBuilderGame.ClassifyReadsLengths | src/games/sentence_builder.py:353-374 | the classification depends on the two token counts alone: the set comparison sends both of its branches to "word_order" |
| SentenceBuilderGame.SameLengthExamples | src/games/sentence_builder.py:353-374 | swapped words and a replaced word are both "word_order"; a dropped word is "missing_words" |
| SentenceBuilderGame.MistakeType | src/games/sentence_builder.py:457 | the stored mistake type is never empty: the given type, or "word_order" when none or an empty one is given |
| SentenceBuilderGame.RecordResult | src/games/sentence_builder.py:376-461 | no session means an error; otherwise the counters move as one answer, the right counter exactly for a right answer, and a mistake row of the given or default type exactly for a wrong one |
| SentenceBuilderGame.ClassifiedMistakeFiled | src/games/sentence_builder.py:353-461 | a wrong arrangement recorded with its own classification is filed under that classification |
| SpellingBee.StartSession | src/games/spelling_bee.py:35-104 | an unowned list is refused with "Word list not found or access denied", an empty one with "No words found in this list"; otherwise the words are shuffled when `shuffle` is set, kept in order when not, and the counters start at zero |
| SpellingBee.RoundHalfEven | src/games/spelling_bee.py:255 | the result is the integer nearest the exact quotient, a tie going to the even neighbour, as Python's `round` does |
| SpellingBee.NearestUnique | src/games/spelling_bee.py:255 | only one integer is nearest in that sense, so the rounding is fixed by its reference definition |
| SpellingBee.NearestBetween | src/games/spelling_bee.py:255 | a quotient between two whole numbers rounds to a number between them |
| SpellingBee.Accuracy | src/games/spelling_bee.py:255 | the accuracy is the rounded percentage of correct attempts, 0 when nothing has been practised |
| SpellingBee.AccuracyBounds | src/games/spelling_bee.py:253-255 | with no more correct attempts than attempts the accuracy lies in 0..100; all correct gives 100 and none gives 0 |
| SpellingBee.TieGoesToEven | src/games/spelling_bee.py:255 | 1 of 8 (12.5%) rounds to 12 and 3 of 8 (37.5%) to 38 |
| SpellingBee.NearlyPerfectShowsHundred | src/games/spelling_bee.py:255 | 199 of 200 (99.5%) shows as a perfect 100 |
| SpellingBee.UpdateWord | src/games/spelling_bee.py:246-266 | a missing word stays missing; a found one gets one more practice, one more correct exactly for a right answer, and the accuracy of its new counts |
| SpellingBee.UpdateKeepsCounts | src/games/spelling_bee.py:253-255 | the update keeps non-negative counts with no more correct than practised |
| SpellingBee.RecordResult | src/games/spelling_bee.py:183-297 | no session means an error; otherwise the session counters move as one answer, the word statistics update, and a "spelling_error" mistake is written exactly for a wrong answer |
| SpellingBee.WordAndSessionAgree | src/games/spelling_bee.py:253-275 | the word and the session count the same attempt: their correct counts move together |
| MistakeExtractor.Proposals | src/extractors/mistake_extractor.py:36-86 | one proposal per rule, in the source's order: the rule's category exactly when its cues fire on the lowercased pair |
| MistakeExtractor.CategorizeFirstRule | src/extractors/mistake_extractor.py:34-88 | the category is that of the first rule whose cues fire, whatever later rules would say, and "grammar_general" exactly when none fires |
| MistakeExtractor.PastTenseSilent | src/extractors/mistake_extractor.py:40-44 | the past-tense rule stays silent when the correct side mentions neither "yesterday" nor "last" |
| MistakeExtractor.WakingExample | tests/test_extractors.py:80-87 | "I waking up at 7 AM." corrected to "I wake up at 7 AM." is a verb-tense error |
| MistakeExtractor.YesterdayExample | tests/test_extractors.py:90-97 | "Yesterday I go to market." corrected to "Yesterday I went to the market." is a past-tense error, although the article rule would fire too |
| MistakeExtractor.CategoryKnown | src/extractors/mistake_extractor.py:34-88 | every category is one of the rule table's or the default |
| MistakeExtractor.GrammarNames | src/extractors/mistake_extractor.py:29 | of all category names only the word-form one lacks "grammar" |
| MistakeExtractor.FocusClean | src/extractors/mistake_extractor.py:97 | a cleaned token has none of `.,!?"` at either end |
| MistakeExtractor.FirstAdded | src/extractors/mistake_extractor.py:95-99 | the first loop finds nothing exactly when no correct-side token is added, and otherwise returns the cleaned form of the first added one |
| MistakeExtractor.NoneAddedShift | src/extractors/mistake_extractor.py:95-99 | a first token that is not added changes nothing about whether any token is |
| MistakeExtractor.FirstAddedShift | src/extractors/mistake_extractor.py:95-99 | past a token that is not added, the first added token is one place further on |
| MistakeExtractor.FirstChanged | src/extractors/mistake_extractor.py:101-107 | the second loop finds nothing exactly when the two sides agree on every shared position, and otherwise returns the cleaned form of the first correct-side token that differs |
| MistakeExtractor.FocusWord | src/extractors/mistake_extractor.py:90-110 | the focus word is empty when the correct side has no tokens, and otherwise the cleaned form of one of its tokens |
| MistakeExtractor.FocusWordAdded | src/extractors/mistake_extractor.py:95-99 | the focus word is the first added word whenever there is one |
| MistakeExtractor.FocusWordChanged | src/extractors/mistake_extractor.py:101-107 | with no added word, the focus word is the cleaned first correct-side token that differs from the incorrect token at its position |
| MistakeExtractor.FocusWordFirst | src/extractors/mistake_extractor.py:109-110 | with neither an added nor a changed word, the focus word is the cleaned first correct-side token |
| MistakeExtractor.EatsExample | tests/test_extractors.py:99-108 | "I eats bread." corrected to "I eat bread." focuses on "eat" |
| MistakeExtractor.MistakesOf | src/extractors/mistake_extractor.py:19-30 | at most one record per pair, each with the severity its category calls for |
| MistakeExtractor.OnePerPair | src/extractors/mistake_extractor.py:19-30 | when every pair has both sides there is exactly one record per pair, in order, each copying the pair's texts with its category and focus word |
| MistakeExtractor.MistakesOfStep | src/extractors/mistake_extractor.py:19-30 | a pair with both sides gives the first record, ahead of the records of the rest |
| MistakeExtractor.ExtractOnePerPair | src/extractors/mistake_extractor.py:14-32 | `extract` yields exactly one record per extracted correction, in order |
| MistakeExtractor.SeverityByCategory | src/extractors/mistake_extractor.py:29 | severity is "high" for every category except the word-form one |
| VocabularyExtractor.FreshAppend | src/extractors/vocabulary_extractor.py:18-34 | entries taken one after the other with the `seen` set carried along stay free of shared lowercased words |
| VocabularyExtractor.Normalize | src/extractors/vocabulary_extractor.py:26 | the normalised word holds no space |
| VocabularyExtractor.NormalizeNoSpace | src/extractors/vocabulary_extractor.py:26 | a word without spaces is its own normal form |
| VocabularyExtractor.CorrectionWords | src/extractors/vocabulary_extractor.py:24-34 | the entries of one sentence share no lowercased word with each other or with `seen`, and each is a high-priority corrected-usage word without spaces whose context is the sentence |
| VocabularyExtractor.SentenceEntries | src/extractors/vocabulary_extractor.py:22-34 | the entries of one corrected sentence are fresh and carry it as their context |
| VocabularyExtractor.Corrected | src/extractors/vocabulary_extractor.py:22 | the corrected sides of the pairs, in order |
| VocabularyExtractor.CorrectionEntries | src/extractors/vocabulary_extractor.py:20-34 | the correction phase is fresh, and every entry's context is one of the corrected sentences |
| VocabularyExtractor.LookupTopic | src/extractors/vocabulary_extractor.py:49-50 | the topic's word list exactly when the topic is a key of the table |
| VocabularyExtractor.FindContext | src/extractors/vocabulary_extractor.py:52-57 | the context is a line that mentions the word, compared lowercased, and "" only when no line does |
| VocabularyExtractor.TopicEntries | src/extractors/vocabulary_extractor.py:50-66 | each topic entry is a fresh medium-priority word of the list, tagged with the topic, whose context is a line that mentions it |
| VocabularyExtractor.TopicWordsNoSpace | src/extractors/vocabulary_extractor.py:41-47 | no word of the topic table holds a space |
| VocabularyExtractor.GeneralNotInTable | src/extractors/vocabulary_extractor.py:41-49 | "general" is not a key of the topic table |
| VocabularyExtractor.CorrectionPhase | src/extractors/vocabulary_extractor.py:20-34 | the correction phase's entries share no lowercased word and all come from the corrected sentences |
| VocabularyExtractor.Assemble | src/extractors/vocabulary_extractor.py:15-68 | the correction entries come first and unchanged, the topic entries after them, and no two share a lowercased word |
| VocabularyExtractor.Extract | src/extractors/vocabulary_extractor.py:15-68 | correction entries first, then topic entries, no two sharing a lowercased word, and a "general" lesson gets no topic entries |
| VocabularyExtractor.TopicPhase | src/extractors/vocabulary_extractor.py:36-66 | the topic phase is fresh, every entry comes from the topic's list, and a "general" lesson gets none |
| SentenceExtractor.QuotedGroup | src/extractors/sentence_extractor.py:38 | the quoted group is non-empty and holds no quote character |
| SentenceExtractor.TrailingGroup | src/extractors/sentence_extractor.py:39 | `\s*([^.]+)\.?$` matches exactly when the rest of the text, less one final '.', is non-empty and free of '.'; the group is then non-empty and free of '.' |
| SentenceExtractor.GroupAt | src/extractors/sentence_extractor.py:37-42 | a pattern's group, when it matches at a start, is non-empty |
| SentenceExtractor.SearchGroup | src/extractors/sentence_extractor.py:45 | the group of the leftmost match is non-empty |
| SentenceExtractor.Standalone | src/extractors/sentence_extractor.py:44-56 | the first matching pattern decides, and its group comes back stripped |
| SentenceExtractor.TrailingMeaning | src/extractors/sentence_extractor.py:39 | after the cue, the trailing pattern matches exactly when the rest is non-empty and free of '.' bar one final period, and what it yields is that rest, stripped |
| SentenceExtractor.QuotedRoundTrip | src/extractors/sentence_extractor.py:38-47 | writing any non-empty quote-free text as `Correction: "s"` and reading it back gives `s`, stripped |
| SentenceExtractor.SearchAtStart | src/extractors/sentence_extractor.py:45 | a pattern matching at the very start is the search's match |
| SentenceExtractor.FirstPatternDecides | src/extractors/sentence_extractor.py:44-56 | when the first pattern matches, its stripped group is the standalone correction |
| SentenceExtractor.Emit | src/extractors/sentence_extractor.py:18-69 | the `seen` loop emits each candidate not yet seen exactly once, and nothing else |
| SentenceExtractor.CorrectSides | src/extractors/sentence_extractor.py:21-22 | the phase-one candidates are the correct sides of the pairs, in order |
| SentenceExtractor.IncorrectSides | src/extractors/sentence_extractor.py:60 | the lines phase two skips are the incorrect sides of the pairs, in order |
| SentenceExtractor.StandaloneCandidates | src/extractors/sentence_extractor.py:32-56 | every phase-1.5 candidate is the non-empty standalone correction of some teacher line |
| SentenceExtractor.StudentCandidates | src/extractors/sentence_extractor.py:58-62 | a student line is a phase-two candidate exactly when it is not the incorrect side of a pair |
| SentenceExtractor.Tag | src/extractors/sentence_extractor.py:24-29 | one record per text, with the given source and score and difficulty "beginner" |
| SentenceExtractor.Phases | src/extractors/sentence_extractor.py:15-69 | the three runs hold no repeats, the first holds exactly the pairs' correct sides, and no text appears in two runs |
| SentenceExtractor.Assemble | src/extractors/sentence_extractor.py:15-71 | the records of the three runs in order: no sentence twice, all "beginner", corrections scored 10 and student lines 8 |
| SentenceExtractor.Extract | src/extractors/sentence_extractor.py:15-71 | no sentence twice, every record "beginner", and every correction ahead of every student line |
| SentenceExtractor.PairsFirst | src/extractors/sentence_extractor.py:20-30 | every pair's correct side is emitted, as a correction and before anything from the other two sources |
| SentenceExtractor.StudentLinesExactly | src/extractors/sentence_extractor.py:58-69 | a student line is emitted exactly when it is neither side of a pair and no standalone correction produced the same text |
| SentenceExtractor.AssembleStudents | src/extractors/sentence_extractor.py:58-69 | in the assembled list a text is a student line exactly when it is one of the student run |
| SentenceRecords.AsRecord | src/extractors/sentence_extractor.py:63-68 | the extractor's dictionary has the keys "sentence", "source", "quality_score" and "difficulty", in that order |
| SentenceRecords.TextAsWritten | src/generators/sentence_builder_generator.py:83 | `sent.get('text', '')` reads "" from a record without a "text" key |
| SentenceRecords.ExtractorRecordReadsEmpty | src/generators/advanced_cloze_generator.py:57 | an extractor record has no "text" key, so the generators read "" from every one |
| SentenceRecords.SentenceText | src/generators/sentence_builder_generator.py:83 | the intended read: the "text" field when present, else the extractor's "sentence" field |
| SentenceRecords.ExtractorRecordReadsSentence | src/generators/sentence_builder_generator.py:83 | read the intended way, an extractor record gives back its sentence |
| SentenceRecords.Texts | src/generators/advanced_cloze_generator.py:114 | the sentences read the intended way, one per record, in order |
| SentenceRecords.TextsAsWritten | src/generators/advanced_cloze_generator.py:114 | the sentences read as written: "" for every record |
| QualityChecker.When | src/utils/quality_checker.py:68-88 | a single check adds at most one message, and adds none exactly when it does not fire |
| QualityChecker.CountEmpty | src/utils/quality_checker.py:67 | the number of empty options is at most the number of options, and is zero exactly when every option is non-empty |
| QualityChecker.NonEmpty | src/utils/quality_checker.py:72 | an option is kept exactly when it is one of the options and is not empty |
| QualityChecker.RepeatsMeans | src/utils/quality_checker.py:73 | fewer distinct options than options means some option repeats, and back |
| QualityChecker.FillReport | src/utils/quality_checker.py:53-88 | an exercise raises no error exactly when it has a blank, four non-empty options, an answer letter A to D, and its correct word (if any) among the options; it raises at most two warnings, and a duplicate-options warning comes first |
| QualityChecker.CheckFill | src/utils/quality_checker.py:51-88 | the fill-in-the-blank list raises no error exactly when every exercise is sound |
| QualityChecker.CardReport | src/utils/quality_checker.py:93-114 | a card raises no error exactly when it has a word and a translation; it opens with a duplicate-word warning exactly when its lowered word was seen before |
| QualityChecker.CheckCards | src/utils/quality_checker.py:90-114 | the flashcards raise no error exactly when every card is sound; duplicates only warn |
| QualityChecker.SpellingReport | src/utils/quality_checker.py:127-143 | a non-empty spelling word raises an error exactly when its lowered form was seen before |
| QualityChecker.CheckSpelling | src/utils/quality_checker.py:116-143 | the spelling list raises no error exactly when no word is empty and no two words (or a word and one seen before) are equal ignoring case |
| QualityChecker.TotalWarning | src/utils/quality_checker.py:29-33 | the total count adds a warning exactly when it lies outside 8 to 12 |
| QualityChecker.Validate | src/utils/quality_checker.py:16-49 | validation passes exactly when no error was recorded, which is exactly when every fill-in-the-blank exercise and every card is sound and the spelling words are distinct |
| QualityChecker.VerdictIgnoresTotal | src/utils/quality_checker.py:29-49 | adding a sound exercise never changes the verdict, whatever it does to the total |
| QualityChecker.TotalWarns | src/utils/quality_checker.py:29-33 | a total outside 8 to 12 ends the warnings with the total message; inside it, no total message is added |
| QualityChecker.FillExamples | tests/test_quality.py:21-64 | the well-formed exercise passes, and the same exercise with answer letter Z fails |
| QualityChecker.OneFill | src/utils/quality_checker.py:16-88 | a single fill-in-the-blank exercise passes exactly when it is sound |
| QualityChecker.MissingBlankExample | tests/test_quality.py:36-49 | the exercise whose sentence has no blank fails |
| QualityChecker.DuplicateSpellingFails | tests/test_quality.py:97-105 | two spelling entries with the same word, up to case, fail |
| QualityChecker.DuplicateCardsWarn | src/utils/quality_checker.py:96-99 | two identical sound flashcards still pass: a repeated card word is no error |
| QualityChecker.MarkSentenceUsed | src/utils/quality_checker.py:160-167 | the cleaned sentence becomes used, the raw sentence is appended last to its exercise type's list, and every earlier list survives as a prefix |
| QualityChecker.Reset | src/utils/quality_checker.py:178-182 | every tracked set and map is empty again |
| QualityChecker.ResetClears | src/utils/quality_checker.py:178-182 | after a reset every sentence and every word is usable again |
| QualityChecker.MarkRejects | src/utils/quality_checker.py:153-167 | after a mark, a sentence is usable exactly when it was usable before and does not clean to the marked sentence, for every exercise type |
| QualityChecker.MarkAllRejects | src/utils/quality_checker.py:153-167 | from a fresh tracker, a sentence is usable exactly when no marked sentence cleans to the same text |
| QualityChecker.MarkKeepsWordLimit | src/utils/quality_checker.py:160-176 | marking never makes a used-up word usable again |
| QualityChecker.TwoTypesExhaustWord | src/utils/quality_checker.py:169-176 | once sentences holding a word are marked under two different exercise types, the word is used up for every type |
| QualityChecker.UsingGrows | src/utils/quality_checker.py:160-176 | an exercise type that uses a word still uses it after any further mark |
| Flashcard.ByPriority | src/generators/flashcard.py:21-22 | a permutation of the vocabulary with every high-priority entry before every other one, each group keeping its order (Python's sort is stable) |
| Flashcard.SplitRuns | src/generators/flashcard.py:50 | at least one piece, no piece holding a sentence-end character |
| Flashcard.SplitRunsJoin | src/generators/flashcard.py:50 | joining the pieces gives back the context with exactly the sentence-end characters removed |
| Flashcard.Shorten | src/generators/flashcard.py:57-59 | at most 150 characters; a sentence that fits is kept, a longer one becomes a prefix of it followed by "..." |
| Flashcard.ShortExample | src/generators/flashcard.py:45-65 | at most 150 characters: the first qualifying sentence, stripped and shortened, or else the context's first 147 characters stripped plus "...", or the whole stripped context when it fits |
| Flashcard.ExampleHasWord | src/generators/flashcard.py:53-60 | an example taken from a sentence that was not cut short contains the word, ignoring case |
| Flashcard.CardOf | src/generators/flashcard.py:35-41 | the card keeps the entry's word and category, has difficulty "beginner", the helper's non-empty translation, and an example of at most 150 characters |
| Flashcard.Made | src/generators/flashcard.py:27-41 | an entry makes no card exactly when its lowered word is one of the five simple words |
| Flashcard.Generate | src/generators/flashcard.py:15-43 | at most 4 cards, no two sharing a lowercased word, each made from a non-simple vocabulary entry |
| Flashcard.GenerateComplete | src/generators/flashcard.py:24-43 | with fewer than 4 cards, every non-simple vocabulary word has a card: the loop stops early only when it runs out of entries |
| Spelling.MistakeMade | src/generators/spelling.py:18-27 | a mistake yields a word exactly when its focus word is longer than 2 characters, with the corrected sentence as the sample |
| Spelling.ChallengingMade | src/generators/spelling.py:30-44 | a vocabulary entry yields a word in the second pass exactly when its lowered word is in the challenging set, with its context as the sample |
| Spelling.LongMade | src/generators/spelling.py:47-57 | a vocabulary entry yields a word in the third pass exactly when it is longer than 4 characters, with its context as the sample |
| Spelling.MistakePass | src/generators/spelling.py:17-27 | the uncapped first pass keeps distinct keys, each taken from a mistake |
| Spelling.MistakeWordsTaken | src/generators/spelling.py:18-27 | every focus word longer than 2 characters is taken by the first pass |
| Spelling.Passes | src/generators/spelling.py:17-57 | the three passes give distinct lowercased words, each sourced from its pass, mistakes before challenging words before long words |
| Spelling.MistakeWordsFirst | src/generators/spelling.py:17-27 | every focus word longer than 2 characters sits within the first pass, ahead of any vocabulary word |
| Spelling.Generate | src/generators/spelling.py:13-59 | at most 4 words, no two equal ignoring case, each from one of the three passes, and in pass order |
| FillInBlank.FindWord | src/generators/fill_in_blank.py:67-68 | the leftmost position at or after `i` where the word matches whole and ignoring case, or none when it matches nowhere |
| FillInBlank.Letter | src/generators/fill_in_blank.py:91 | one letter from A to D |
| FillInBlank.Pad | src/generators/fill_in_blank.py:81-82 | four options or more: the given ones first and unchanged, then empty strings |
| FillInBlank.BlankOut | src/generators/fill_in_blank.py:67-71 | none exactly when the word matches nowhere; otherwise the sentence with its first whole-word match replaced by the blank |
| FillInBlank.MakeExercise | src/generators/fill_in_blank.py:74-95 | a well-shaped record: the blank in the sentence, the word among four options, the answer letter naming its first position, id "FB_" plus the blanked length; with three distractors the options are a permutation of the word and them |
| FillInBlank.ExerciseOf | src/generators/fill_in_blank.py:84-95 | a well-shaped record whose options are the given four and whose answer letter names the word's first position |
| FillInBlank.CreateExercise | src/generators/fill_in_blank.py:58-95 | none exactly when the cleaned word has no whole-word match in the cleaned sentence; otherwise a well-shaped record blanking the first match, whose options are a permutation of the word and its distractors |
| FillInBlank.NoPadding | src/generators/fill_in_blank.py:74-82 | the options never need padding: the word and its distractors are already four |
| FillInBlank.Attempt | src/generators/fill_in_blank.py:33-36 | an exercise made from a candidate is well shaped and keeps the candidate's context type |
| FillInBlank.MistakeCandidates | src/generators/fill_in_blank.py:26-34 | each mistake offers its corrected sentence with context "correction" |
| FillInBlank.PracticeWords | src/generators/fill_in_blank.py:47-48 | every candidate target is alphabetic and longer than 3 characters |
| FillInBlank.SentenceCandidate | src/generators/fill_in_blank.py:44-51 | a practice sentence offers itself with context "practice", and its target is one of its first three long alphabetic words |
| FillInBlank.GenerateSourced | src/generators/fill_in_blank.py:19-56 | at most 4 exercises, no two from the same sentence, each from one of the first 4 mistakes or a practice sentence, the mistake exercises first |
| FillInBlank.Join2 | src/generators/fill_in_blank.py:25-56 | the mistake run followed by the sentence run keeps sentences distinct and puts every mistake exercise first |
| FillInBlank.Generate | src/generators/fill_in_blank.py:19-56 | at most 4 well-shaped exercises, every "correction" exercise before every "practice" one |
| FillInBlank.MistakeRun | src/generators/fill_in_blank.py:25-37 | the first loop: at most 4 exercises, each with context "correction" and from a different corrected sentence among the first 4 mistakes |
| FillInBlank.SentenceRun | src/generators/fill_in_blank.py:39-54 | the second loop: no more exercises than the room left, each with context "practice" and from a different practice sentence not already used |
| FillInBlank.UsableAttempt | src/generators/fill_in_blank.py:58-72 | a candidate yields an exercise exactly when its target is non-empty and, cleaned, occurs as a whole word in its cleaned sentence |
| FillInBlank.SourcedBlankKeys | src/generators/fill_in_blank.py:30-54 | every exercise kept blanks the first whole-word occurrence of its word in the sentence it was made from |
| FillInBlank.MistakeRunComplete | src/generators/fill_in_blank.py:26-37 | the first loop stops early only when it has 4 exercises: with fewer, every one of the first 4 mistakes that yields an exercise has its corrected sentence used |
| FillInBlank.SentenceRunComplete | src/generators/fill_in_blank.py:40-54 | the second loop stops early only when its room is full: with fewer, every practice sentence that yields an exercise is used, unless it already was |
| FillInBlank.GenerateSourcedMistakes | src/generators/fill_in_blank.py:19-56 | with fewer than 4 exercises in all, each of the first 4 mistakes that yields an exercise is the source of a "correction" exercise |
| FillInBlank.GenerateSourcedSentences | src/generators/fill_in_blank.py:19-56 | with fewer than 4 exercises in all, every practice sentence that yields an exercise is among the sentences the exercises were made from: its own practice exercise, or the correction exercise that took the same sentence |
| FillInBlank.GenerateUsesMistakes | src/generators/fill_in_blank.py:19-56 | with fewer than 4 exercises, each of the first 4 mistakes that yields an exercise has a "correction" exercise blanking its corrected sentence |
| FillInBlank.GenerateUsesSentences | src/generators/fill_in_blank.py:19-56 | with fewer than 4 exercises, every practice sentence that yields an exercise has an exercise blanking it |
| GeminiHelper.PoolEntriesHaveThree | src/utils/gemini_helper.py:51-106 | every entry of the distractor table lists three distractors |
| GeminiHelper.SuffixRule | src/utils/gemini_helper.py:121-136 | the suffix rules apply exactly when the word ends in -ed, -ing, -s (longer than three letters) or -ly, yield three forms, and never the word itself |
| GeminiHelper.StemRebuilds | src/utils/gemini_helper.py:121-136 | each rule's base, with its ending put back, rebuilds the word |
| GeminiHelper.GroupRule | src/utils/gemini_helper.py:138-151 | the other words of the first group holding the word, cut to `count`: exactly `count` of them (up to 4), none equal to the word, and nothing when no group holds it |
| GeminiHelper.RuleBased | src/utils/gemini_helper.py:118-159 | for a word the table does not know: at most `count` distractors, exactly `count` up to 3, never the word itself |
| GeminiHelper.Fallback | src/utils/gemini_helper.py:47-159 | a table hit gives a permutation of its first `count` distractors; otherwise the rules give distractors other than the lowercased word; exactly `count` of them up to 3 |
| GeminiHelper.GenerateDistractors | src/utils/gemini_helper.py:43-45 | at most `count` distractors, exactly `count` up to 3, never the lowercased word unless the table lists it |
| GeminiHelper.ContextIgnored | src/utils/gemini_helper.py:43-45 | the context plays no part in the distractors |
| GeminiHelper.TranslateWith | src/utils/gemini_helper.py:161-189 | a phrase the table lacks becomes itself in square brackets; over a table with no empty entries the result is never empty |
| GeminiHelper.TranslatePhrase | src/utils/gemini_helper.py:161-189 | never empty, and a phrase the table lacks becomes itself in square brackets |
| GeminiHelper.TranslateIgnoresCase | src/utils/gemini_helper.py:164-189 | phrases equal up to case translate alike when the table knows them |
| ClozeDistractors.Add | src/generators/advanced_cloze_generator.py:222-254 | adding to the set: the element is present afterwards, nothing else joins, no duplicate arises, and the size grows by one exactly when it was absent |
| ClozeDistractors.AddAll | src/generators/advanced_cloze_generator.py:245 | `update`: the result holds exactly the old elements and the new ones, without duplicates |
| ClozeDistractors.SuffixForms | src/generators/advanced_cloze_generator.py:225-233 | at most two distinct suffix forms, never the cleaned word itself |
| ClozeDistractors.SourceTablesClean | src/generators/advanced_cloze_generator.py:236-251 | the confusable and generic lists hold clean words only, and no confusable equals its key |
| ClozeDistractors.Seeds | src/generators/advanced_cloze_generator.py:222-245 | the distractors before the top-up are exactly the suffix forms and the first two confusables of a listed word, without duplicates |
| ClozeDistractors.FillPass | src/generators/advanced_cloze_generator.py:252-256 | one pass keeps every distractor, adds only usable generic words (different and at most two characters shorter), and stops at three |
| ClozeDistractors.FillPassCovers | src/generators/advanced_cloze_generator.py:252-256 | a pass that ends below three added every usable generic word |
| ClozeDistractors.Fill | src/generators/advanced_cloze_generator.py:248-256 | the top-up keeps every distractor, adds only usable generic words, keeps them distinct, and stops at three |
| ClozeDistractors.FillLoopAgrees | src/generators/advanced_cloze_generator.py:248-256 | whenever the `while` loop as written finishes, it gives the single-pass result |
| ClozeDistractors.FillLoopHangs | src/generators/advanced_cloze_generator.py:248-256 | when one pass stays below three, the `while` loop as written never finishes |
| ClozeDistractors.ComfortableHangs | src/generators/advanced_cloze_generator.py:225-256 | "comfortable" has no suffix or confusable distractors and only two long-enough generic words, so the loop as written never ends for it |
| ClozeDistractors.SeedsClean | src/generators/advanced_cloze_generator.py:219-245 | the seed distractors are clean words other than the word itself |
| ClozeDistractors.FillClean | src/generators/advanced_cloze_generator.py:219-256 | over clean lists, the topped-up distractors are clean words other than the word |
| ClozeDistractors.Distractors | src/generators/advanced_cloze_generator.py:217-262 | the cleaned word among at most three of its distinct distractors, one to four clean options in all |
| AdvancedCloze.QualityTexts | src/generators/advanced_cloze_generator.py:109-127 | a text is kept exactly when it has 8 to 30 words and a modal cue or at least 12 words |
| AdvancedCloze.VocabWords | src/generators/advanced_cloze_generator.py:199 | exactly the lowercased vocabulary words |
| AdvancedCloze.KeyIndices | src/generators/advanced_cloze_generator.py:196-215 | exactly the positions of the key words, in ascending order |
| AdvancedCloze.PartsAsWritten | src/generators/advanced_cloze_generator.py:143-158 | one text part more than blanks, built as the source builds them |
| AdvancedCloze.Parts | src/generators/advanced_cloze_generator.py:143-158 | one text part more than blanks, with a space on each side of every blank |
| AdvancedCloze.PartsReassemble | src/generators/advanced_cloze_generator.py:143-158 | filling the corrected parts' blanks with the words taken out gives the words joined by single spaces |
| AdvancedCloze.WeaveSplits | src/generators/advanced_cloze_generator.py:131-158 | splitting the filled-in text gives back the sentence's words |
| AdvancedCloze.PartsAsWrittenMerge | src/generators/advanced_cloze_generator.py:147-158 | as written, blanks at words 1 and 3 of "a b c d e" filled back give "a bc d e": two words merge |
| AdvancedCloze.QuoteListHas | src/generators/advanced_cloze_generator.py:283 | every answer appears quoted in the joined list |
| AdvancedCloze.ExplanationAsWritten | src/generators/advanced_cloze_generator.py:276-284 | as written, one or two answers give the intended text, and with three or more the last answer's closing quote is doubled |
| AdvancedCloze.Explanation | src/generators/advanced_cloze_generator.py:276-284 | every answer appears quoted, and the text ends with the last answer's quote and a full stop |
| AdvancedCloze.Difficulty | src/generators/advanced_cloze_generator.py:264-274 | hard exactly for three answers or an average answer length of 8 or more; medium exactly otherwise with 15 or more words or an average of 6 or more; else easy |
| AdvancedCloze.RawAnswersRateHarder | src/generators/advanced_cloze_generator.py:65-74 | rated on the raw tokens, "meetings," and "morning." make a short sentence hard, while their cleaned forms make it medium |
| AdvancedCloze.Options | src/generators/advanced_cloze_generator.py:160-164 | one option list per blanked token, each holding the token's cleaned form and one to four clean words |
| AdvancedCloze.OptionsShuffledApart | src/generators/advanced_cloze_generator.py:160-164 | each blank draws its own options: any rearrangement of one blank's options is reached by changing that blank's choices alone, leaving every other blank's options as they were |
| AdvancedCloze.Chosen | src/generators/advanced_cloze_generator.py:139-140 | the first three key-word positions, ascending |
| AdvancedCloze.MultiBlankAsWritten | src/generators/advanced_cloze_generator.py:129-169 | none exactly when fewer than two key words exist; otherwise two or three raw tokens at the first key positions as answers, the parts as written, each blank's options holding its token's cleaned form, and the explanation as written |
| AdvancedCloze.AsWrittenAnswerOffered | src/generators/advanced_cloze_generator.py:153-164 | as written, a raw answer is among its own options exactly when it is already a clean word |
| AdvancedCloze.MultiBlank | src/generators/advanced_cloze_generator.py:129-169 | as intended: none exactly when fewer than two key words exist; otherwise the cleaned tokens as answers, each among its clean options, spaced parts, and each answer quoted once in the explanation |
| AdvancedCloze.IntendedBlanks | src/generators/advanced_cloze_generator.py:143-167 | the intended blanks fit together: one option list per answer, each answer its token's cleaned form and among its options |
| AdvancedCloze.MultiBlankReassembles | src/generators/advanced_cloze_generator.py:143-158 | with the intended parts, filling the blanks with the tokens they replaced gives back the sentence's words |
| AdvancedCloze.SingleBlank | src/generators/advanced_cloze_generator.py:171-194 | none exactly when no word qualifies; otherwise one blank at the first qualifying word, its cleaned form (longer than 4) as the answer among its options |
| AdvancedCloze.SingleAt | src/generators/advanced_cloze_generator.py:183-192 | the single blank's answer is the cleaned word, longer than 4 characters, with the fallback's explanation |
| AdvancedCloze.OneBlank | src/generators/advanced_cloze_generator.py:183-192 | one blank between the words before and after, a space on each side |
| AdvancedCloze.WordIsExplanation | src/generators/advanced_cloze_generator.py:190 | the fallback's explanation is the one-answer explanation, with or without the doubled quote |
| AdvancedCloze.SingleBlankReassembles | src/generators/advanced_cloze_generator.py:171-192 | filling the single blank with the token it replaced gives back the sentence's words |
| AdvancedCloze.MultiAttemptsMade | src/generators/advanced_cloze_generator.py:53-66 | the first loop makes an item of a sentence exactly when it is non-empty and has a multi-blank cloze, and the item is that cloze |
| AdvancedCloze.SingleAttemptsMade | src/generators/advanced_cloze_generator.py:86-94 | the fallback makes an item of a sentence exactly when it has a single-blank cloze, and the item is that easy cloze |
| AdvancedCloze.FirstPassKept | src/generators/advanced_cloze_generator.py:53-81 | the first loop keeps multi-blank items of quality sentences, keyed by their lowercased sentence |
| AdvancedCloze.FallbackKeeps | src/generators/advanced_cloze_generator.py:84-105 | the fallback keeps single-blank items of the first five quality sentences, under keys the first loop did not use, and only tops up to two |
| AdvancedCloze.DraftsCount | src/generators/advanced_cloze_generator.py:53-107 | at most four items, the multi-blank ones first, and at most two when a single-blank one is among them |
| AdvancedCloze.DraftsFrom | src/generators/advanced_cloze_generator.py:53-107 | every item is the multi-blank cloze of a quality sentence or the easy single-blank cloze of one of the first five |
| AdvancedCloze.DraftsDistinct | src/generators/advanced_cloze_generator.py:58-59 | no two items come from the same sentence, compared lowercased |
| AdvancedCloze.DraftsComplete | src/generators/advanced_cloze_generator.py:53-66 | with fewer than four items, every non-empty quality sentence that has a multi-blank cloze is the source of one |
| AdvancedCloze.ItemIdInjective | src/generators/advanced_cloze_generator.py:68 | different item numbers give different ids within a lesson |
| AdvancedCloze.Number | src/generators/advanced_cloze_generator.py:68-79 | the `k`-th item gets id "ac_<lesson>_<k+1>", the topic and lesson, and its draft's difficulty and blanks |
| AdvancedCloze.Generate | src/generators/advanced_cloze_generator.py:33-107 | at most four items with distinct ids, all under the given topic and lesson |
| AdvancedCloze.ExtractorRecordsMakeNothing | src/generators/advanced_cloze_generator.py:57 | read through the 'text' field, which practice-sentence records lack, the extractor's sentences make no item |
| AdvancedCloze.ExtractorRecordsFeedItems | src/generators/advanced_cloze_generator.py:57 | read through the 'sentence' field, every item comes from one of the extractor's practice sentences |
| AdvancedCloze.DraftSentences | src/generators/advanced_cloze_generator.py:51-107 | every item's sentence is one of the texts read |
| GrammarQuestion.BlankIndex | src/generators/grammar_question_generator.py:116-140 | the first token holding the focus word (ignoring case) when the focus word is non-empty and some token holds it; otherwise the first verb-like token; none when neither exists |
| GrammarQuestion.Prompt | src/generators/grammar_question_generator.py:112-147 | none exactly when no token is chosen |
| GrammarQuestion.PromptBlanksOneToken | src/generators/grammar_question_generator.py:142-147 | the prompt's tokens are the sentence's, except the chosen one, which became the blank |
| GrammarQuestion.FirstDiff | src/generators/grammar_question_generator.py:161-165 | the first position where the zipped token lists differ ignoring case; every earlier pair agrees |
| GrammarQuestion.CorrectWord | src/generators/grammar_question_generator.py:153-175 | the corrected token at the first difference, with the incorrect one; else the first corrected token absent from the incorrect side; else the first token; else "correct" |
| GrammarQuestion.AgreementRaw | src/generators/grammar_question_generator.py:232-241 | the agreement distractors never hold the cleaned word |
| GrammarQuestion.PastRaw | src/generators/grammar_question_generator.py:202-219 | three past-tense distractors |
| GrammarQuestion.TenseRaw | src/generators/grammar_question_generator.py:221-230 | three verb-tense distractors |
| GrammarQuestion.ArticleRaw | src/generators/grammar_question_generator.py:243-247 | exactly the other articles, the empty one included |
| GrammarQuestion.PrepositionRaw | src/generators/grammar_question_generator.py:249-252 | at most three listed prepositions, never the word itself |
| GrammarQuestion.GenericRaw | src/generators/grammar_question_generator.py:254-258 | the cleaned incorrect word first when there is one, then three suffixed forms |
| GrammarQuestion.RawDistractors | src/generators/grammar_question_generator.py:196-258 | the agreement, article and preposition branches leave out the cleaned word |
| GrammarQuestion.TypeDistractors | src/generators/grammar_question_generator.py:260-263 | at most three distinct distractors, all from the branch's list, in its order |
| GrammarQuestion.Pad4 | src/generators/grammar_question_generator.py:186-187 | four entries or more: the given ones first, then the filler |
| GrammarQuestion.BuildOptions | src/generators/grammar_question_generator.py:182-194 | four options, a permutation of the word, its distractors and "<word>s" padding, with the index the word's first position |
| GrammarQuestion.Explanation | src/generators/grammar_question_generator.py:265-279 | every explanation quotes the corrected sentence |
| GrammarQuestion.Difficulty | src/generators/grammar_question_generator.py:281-291 | easy exactly for past-tense or article types; hard exactly for the other types that are neither subject-verb nor preposition and have high severity; medium otherwise |
| GrammarQuestion.ExtractedDifficulty | src/generators/grammar_question_generator.py:281-291 | for the extractor's grammar records, a question is hard exactly when no easy or medium rule applies |
| GrammarQuestion.MakeQuestion | src/generators/grammar_question_generator.py:85-110 | none exactly when either side is empty or no token can be blanked; otherwise a question whose prompt blanks the corrected sentence, whose four options hold the chosen word at the index, and whose difficulty and explanation follow the error type |
| GrammarQuestion.MistakeQuestions | src/generators/grammar_question_generator.py:42-76 | at most 4 questions, no two prompts equal ignoring case, numbered q1, q2, … under the category and lesson, each about a grammar mistake |
| GrammarQuestion.Number | src/generators/grammar_question_generator.py:63-74 | the kept questions numbered in order keep distinct prompts |
| GrammarQuestion.MistakeQuestionsComplete | src/generators/grammar_question_generator.py:42-76 | the loop stops early only at 4 questions: with fewer, every grammar mistake with both sides and a blankable token has its prompt asked, ignoring case |
| GrammarQuestion.DefaultBank | src/generators/grammar_question_generator.py:298-333 | the pattern table has the tense, agreement and articles categories with two, one and one valid patterns |
| GrammarQuestion.PatternsFor | src/generators/grammar_question_generator.py:335 | the category's patterns, or the tense ones for an unknown category |
| GrammarQuestion.DefaultShape | src/generators/grammar_question_generator.py:298-335 | in a table shaped like the default, "agreement" has one pattern and an unknown category gets two |
| GrammarQuestion.PatternQuestions | src/generators/grammar_question_generator.py:293-346 | at most two pattern questions, numbered pattern1, pattern2, copying the pattern under the category and lesson |
| GrammarQuestion.Generate | src/generators/grammar_question_generator.py:30-83 | the mistake questions first and unchanged, at most 4 in all; pattern questions are added only below 2 and never beyond 2 |
| GrammarQuestion.GenerateAsksEveryMistake | src/generators/grammar_question_generator.py:30-83 | with fewer than 4 questions, every grammar mistake with both sides and a blankable token is asked about under its prompt, up to case |
| GrammarQuestion.PaddingReachesMinimum | src/generators/grammar_question_generator.py:78-81 | with fewer than two mistake questions, the result reaches two exactly when the category has enough patterns |
| GrammarQuestion.AgreementFallsShort | src/generators/grammar_question_generator.py:78-81 | with no grammar mistakes, the "agreement" category yields only one question |
| SentenceBuilderGen.Flush | src/generators/sentence_builder_generator.py:128-136 | the word in progress becomes a token exactly when it is non-empty |
| SentenceBuilderGen.ScanConcat | src/generators/sentence_builder_generator.py:119-146 | glued together, the loop's tokens are the word in progress followed by the rest of the text without its spaces |
| SentenceBuilderGen.ScanShape | src/generators/sentence_builder_generator.py:119-146 | every token the loop emits is non-empty, free of whitespace, and a punctuation mark only on its own |
| SentenceBuilderGen.SqueezeSpaces | src/generators/sentence_builder_generator.py:115 | squeezing leaves only plain spaces and the same non-space characters |
| SentenceBuilderGen.TokensShape | src/generators/sentence_builder_generator.py:107-148 | the tokens, glued together, are the sentence without its whitespace, and each is non-empty, whitespace-free, and a punctuation mark only on its own |
| SentenceBuilderGen.WordPartsStayTogether | src/generators/sentence_builder_generator.py:123-125 | a run of letters, digits, apostrophes and hyphens is a single token |
| SentenceBuilderGen.TwoPunctuatedWords | src/generators/sentence_builder_generator.py:122-146 | two words each closed by a punctuation mark, with a space between, give four tokens: word, mark, word, mark |
| SentenceBuilderGen.HelloWorld | src/generators/sentence_builder_generator.py:111-112 | "Hello, world!" gives ["Hello", ",", "world", "!"] |
| SentenceBuilderGen.Tokenize | src/generators/sentence_builder_generator.py:107-148 | the loop over the squeezed sentence gives the tokens, which glue back to the sentence without whitespace and are all well formed |
| SentenceBuilderGen.Feed | src/generators/sentence_builder_generator.py:122-142 | one character either extends the word in progress or ends it, and a punctuation mark or a lone other character becomes a token |
| SentenceBuilderGen.ClosedKeeps | src/generators/sentence_builder_generator.py:93-95 | closing a stripped text adds at most a full stop, ends it as a sentence, and keeps its words and commas |
| SentenceBuilderGen.PolishAccepts | src/generators/sentence_builder_generator.py:82-103 | a text is kept exactly when, stripped, it is non-empty with 6 to 20 words, at most two commas and no semicolon |
| SentenceBuilderGen.PolishKeeps | src/generators/sentence_builder_generator.py:83-102 | the kept text is the stripped text, closed: 6 to 20 words, a sentence end, at most two commas, no semicolon |
| SentenceBuilderGen.QualityTextsFrom | src/generators/sentence_builder_generator.py:78-105 | each kept text is the polished form of a text read, and every text that polishes is kept |
| SentenceBuilderGen.TokensAtLeastWords | src/generators/sentence_builder_generator.py:48-51 | a sentence has at least as many tokens as words |
| SentenceBuilderGen.CountsAsWordMeans | src/generators/sentence_builder_generator.py:152 | the substring test `t not in '.,!?;:'` counts a token exactly when it is not a single punctuation mark |
| SentenceBuilderGen.Divisor | src/generators/sentence_builder_generator.py:153 | `max(word_count, 1)`: at least 1, and the word count when that is positive |
| SentenceBuilderGen.Difficulty | src/generators/sentence_builder_generator.py:150-164 | hard exactly for a connective, 15 or more words or an average of 7 or more; medium exactly otherwise for 10 or more words or an average of 5 or more; else easy |
| SentenceBuilderGen.KeptSentencesTokenize | src/generators/sentence_builder_generator.py:48-51 | every sentence the filter keeps has at least six tokens, so the token check never turns one away |
| SentenceBuilderGen.Loop | src/generators/sentence_builder_generator.py:39-74 | at most four drafts, under distinct lowercased sentences |
| SentenceBuilderGen.DraftsKept | src/generators/sentence_builder_generator.py:39-74 | each draft is a kept sentence cut into at least six tokens, with its difficulty; no two sentences are equal ignoring case |
| SentenceBuilderGen.ItemIdInjective | src/generators/sentence_builder_generator.py:57 | different item numbers give different ids within a lesson |
| SentenceBuilderGen.MakeItem | src/generators/sentence_builder_generator.py:53-72 | the item keeps the draft's sentence, tokens and difficulty, accepts only the original token order, has no distractors, and carries the sentence's translation |
| SentenceBuilderGen.Number | src/generators/sentence_builder_generator.py:57-72 | the drafts numbered from 1, with distinct ids |
| SentenceBuilderGen.Generate | src/generators/sentence_builder_generator.py:21-76 | at most four items with distinct ids under the topic and lesson |
| SentenceBuilderGen.GenerateItems | src/generators/sentence_builder_generator.py:21-76 | each item is a kept sentence with at least six tokens, its tokens the one accepted order, no distractors, numbered from 1; no two sentences are equal ignoring case |
| SentenceBuilderGen.GenerateComplete | src/generators/sentence_builder_generator.py:39-41 | with fewer than four items, every kept sentence is among the items, ignoring case |
| SentenceBuilderGen.ExtractorRecordsMakeNothing | src/generators/sentence_builder_generator.py:43 | read through the 'text' field, which practice-sentence records lack, the extractor's sentences make no item |
| SentenceBuilderGen.ExtractorRecordsFeedItems | src/generators/sentence_builder_generator.py:83 | read through the 'sentence' field, every item is one of the extractor's sentences, polished |
| SentenceBuilderGen.WordTokens | src/generators/sentence_builder_generator.py:195 | exactly the lowercased alphanumeric tokens |
| SentenceBuilderGen.Distractors | src/generators/sentence_builder_generator.py:182-202 | at most three pool words, none among the sentence's lowercased alphanumeric tokens |
| SentenceBuilderGen.DistractorsAreFirstUnused | src/generators/sentence_builder_generator.py:194-202 | the distractors are the first three pool words not among the sentence's words, in pool order |
| SentenceBuilderGen.GenerateWithDistractors | src/generators/sentence_builder_generator.py:166-180 | the same items as `generate`, each given its distractors |
| LessonProcessor.Excess | src/main.py:75-81 | how far a list may shrink before reaching its floor: zero exactly when it is at or below it |
| LessonProcessor.TrimStep | src/main.py:75-82 | one pass of the trimming loop removes exactly one entry whenever the total is above twelve |
| LessonProcessor.CutSizes | src/main.py:75-82 | after `k` removals in priority order the lengths sum to `k` less and no list grew |
| LessonProcessor.Keep | src/main.py:75-82 | the lists cut down to given lengths have those lengths |
| LessonProcessor.TargetSizes | src/main.py:73-82 | the target lengths sum to the smaller of the total and twelve, and no list grows |
| LessonProcessor.Trimmed | src/main.py:70-82 | the reference result of trimming has total the smaller of the original total and twelve |
| LessonProcessor.CutStep | src/main.py:75-82 | one loop pass takes the closed form exactly one removal further |
| LessonProcessor.Balance | src/main.py:70-82 | the trimming loop, popping from spelling, then flashcards, then fill-in-the-blank above their floors, computes the reference result |
| LessonProcessor.LoopExit | src/main.py:75 | where the loop stops, the closed form is the reference |
| LessonProcessor.TrimmedSmall | src/main.py:70-90 | totals of twelve or less, below eight included, pass through untouched; larger totals come down to exactly twelve |
| LessonProcessor.TrimmedKeepsOrder | src/main.py:75-81 | trimming removes entries only from the ends, and a list is cut only once the lists before it in priority order are at their floors |
| LessonProcessor.ProcessLesson | src/main.py:29-111 | a blank transcript gives no exercises; otherwise the generated lists, never more than twelve in all |
| LessonProcessor.Produce | src/main.py:64-111 | balancing leaves the generated lists as they are, and the quality verdict is reported but does not change them |
| LessonProcessor.Generated | src/main.py:56-67 | each generator is capped at four, so the three lists never total more than twelve |
| LessonProcessor.MeetsRequirements | src/main.py:206 | the summary says "Yes" or "No" |
| LessonProcessor.SummaryAgreesWithChecker | src/main.py:196-206 | the summary says "Yes" exactly when the validator adds no warning about the total |
| Seqs.Shuffle | src/games/grammar_challenge.py:266 | `random.shuffle` driven by explicit draws: the result is a permutation of the input |
| Seqs.ShuffleReaches | src/games/grammar_challenge.py:266 | every permutation of the input is the result of some draw sequence, so modelling randomness by draws loses no outcome |

## Left out

- Persistence, HTTP and workers: Supabase queries and upserts, the FastAPI routes, auth and rate limiting, logging, the Zoom and transcription clients, and the polling loops of worker.py and src/workers. These are I/O. Their results enter the model as parameters.
- The set-up of `GeminiHelper` in src/utils/gemini_helper.py: reading the API key, configuring the client and its messages are not modelled. They are environment and a foreign service. `generate_distractors` always takes the rule-based path, and that path is modelled.
- Character classes: `lower`, `isupper`, `isalnum`, `isdigit` and the regex `\w` are ASCII-only here. `isspace` is Python's whitespace set for the characters listed in `Text`. There is no Unicode case folding.
- `LessonProcessor.ProcessLesson`: the `except Exception` branch of `process_lesson` (src/main.py:113-117) is not modelled. Every modelled step is total, so the branch is never reached.
- `Api.IsTimeInRange`: `get_utc_time_from_iso` is not modelled. Parsing an ISO timestamp depends on `datetime`, so the meeting's `HH:MM` start is an `Option<string>` parameter.
- `Api.TimeToMinutes`: this is narrower than Python's `int`, which also accepts surrounding blanks, a sign or underscores (" 7", "+7", "-1", "1_0"). Here those groups are errors. Every call in api.py passes text that `validate_time` has already normalised.
- `Api.HasAudioFiles`: a null `file_size` is not modelled. `has_audio_files` would raise `TypeError` comparing it with the size limit.
- `SentenceBuilderGen.QualityTexts`: the in-place write `sent['text'] = text` in the quality filter is modelled as returning the polished texts.
- Floating point: averages are compared as whole-number cross-multiplications. `Text.AverageAtLeast` proves these agree with the real-valued average.
- `ClozeDistractors.Distractors`: the pipeline uses the single pass `ClozeDistractors.Fill`. The `while` loop as written is `ClozeDistractors.FillLoop`, which takes a fuel bound. Where the loop finishes, the two agree (`FillLoopAgrees`). Where it would not finish, the fuel bound stands in for the hang (`FillLoopHangs`).
- The `used_words` set of src/utils/quality_checker.py:150 is never read, and the `min_items` of sentence_builder_generator.py:14 is never used. Neither is modelled.
- `GrammarQuestion.Generate`: the fallback pattern bank is a parameter. `GrammarQuestion.DefaultBank` builds the source's table, and its contract states only the table's shape.
- tests/text_processing.py, the test files and the maintenance scripts (check_supabase_data.py, view_transcript.py, populate_games_from_transcripts.py) are not part of this model.
- src/games/advanced_cloze.py, src/games/flashcards.py and src/games/word_lists.py are not part of this model. Only the three games named above are modelled.

## Findings

| source | as written | input that shows it | evidently intended | confidence | as-written member | corrected member |
|---|---|---|---|---|---|---|
| src/utils/text_processing.py:36-47 | every correction pattern needs a capital letter right after the cue, so a quoted correction never matches, though the comment says the patterns cover quoted corrections and tests/test_extractors.py:66-75 expects one | `Correction: "I wake up at 7 AM."` | accept an opening quote before the capital and capture the clause | medium, not executed | TextProcessing.QuotedCorrectionExample | TextProcessing.ExtractCorrectionsQuoted |
| src/generators/advanced_cloze_generator.py:248-256 | `while len(distractors) < 3` repeats one pass over the generic words. When that pass cannot reach three, the loop never ends. | the key word "comfortable" (no suffix or confusable distractors, and only two usable generic words) | one pass, which keeps whatever it found | high, not executed | ClozeDistractors.ComfortableHangs | ClozeDistractors.Fill |
| src/generators/advanced_cloze_generator.py:153-164 | the answer stored is the raw token, and the options are built from the cleaned word, so a token with punctuation or capitals is never among its options | a key word written "meetings," | store the cleaned word as the answer | high, not executed | AdvancedCloze.AsWrittenAnswerOffered | AdvancedCloze.MultiBlank |
| src/generators/advanced_cloze_generator.py:143-158 | a text part between two blanks gets no leading space, so the filled-in sentence joins a blank to the next word | "a b c d e" with blanks at "b" and "d" reads back as "a bc d e" | a space on both sides of every blank | high, not executed | AdvancedCloze.PartsAsWrittenMerge | AdvancedCloze.WeaveSplits |
| src/generators/advanced_cloze_generator.py:276-284 | with three or more answers the explanation adds a closing quote after the last quoted word, doubling it | the answers "a", "b", "c" | each word quoted once | high, not executed | AdvancedCloze.ExplanationAsWritten | AdvancedCloze.Explanation |
| src/generators/sentence_builder_generator.py:43 | the generator reads `sent_data.get('text', '')`, but the sentence extractor stores the sentence under "sentence", so every extractor record reads as empty and is skipped | any output of the sentence extractor | read the "sentence" field when there is no "text" field | medium, not executed | SentenceBuilderGen.ExtractorRecordsMakeNothing | SentenceBuilderGen.ExtractorRecordsFeedItems |
| src/generators/advanced_cloze_generator.py:57 | the cloze generator makes the same `get('text', '')` read | any output of the sentence extractor | read the "sentence" field when there is no "text" field | medium, not executed | AdvancedCloze.ExtractorRecordsMakeNothing | AdvancedCloze.ExtractorRecordsFeedItems |
