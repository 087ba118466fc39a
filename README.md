# Rag-PDF-Assistant core, modelled in Dafny

Rag-PDF-Assistant is a desktop assistant. It loads a PDF manual, answers
questions about it from the most relevant pages, and reads the answers aloud.
This project models the logic that decides what the assistant does:

- **Context selection** (`rag_system.py`). The assistant estimates tokens,
  keeps the non-blank pages, extracts keywords and scores pages by keyword
  occurrences. It sorts pages stably by score and takes them greedily within
  the token budget, with fallbacks when nothing fits.
- **Workers** (`workers.py`):
  - the PDF loader's signals;
  - the query worker's word streaming;
  - the persistent speech worker's FIFO queue with its `None` sentinel, its
    voice choice and exactly one outcome per sentence.
- **Speech playback** (`main.py`). The main window's generation queue, audio
  queue and busy flags move through a small state machine of Qt slots, which
  also load clips into the speaking visualizer and stop it. The API-key check
  is modelled too.
- **Text cleanup for speech** (`text_processor.py`). Symbols are substituted
  in map order, whitespace is collapsed and the text is stripped.
- **The speaking visualizer** (`audio_visualizer.py`). The model covers:
  - the manual WAV decoder and the strict 16-bit reader;
  - the frame sampler that maps elapsed time to a chunk;
  - the 64 band levels (smoothing, a bounded 8-frame history with linear
    weights, peak hold with decay, fading).
- **The updater** (`updater.py`). It covers dotted-version comparison,
  release tag and asset choice, the commit fallback, and the download's
  extension and progress points.
- **Platform detection** (`platform_config.py`). This is the detection rule
  and the per-platform profile table.

Module layout, one file each:

- `common.dfy`: `Common`, with Option, Result, Min and Max.
- `strings.dfy`: `Strings`, the Python string operations used
  (`strip`, `lower`, `split`, `join`, `count`, `in`).
- The core modules follow the source files:
  - `rag_system.dfy` (`Rag`);
  - `workers.dfy` (`Workers`);
  - `main_window.dfy` (`MainApp`);
  - `text_processor.dfy` (`TextProcessor`);
  - `updater.dfy` (`Updater`);
  - `platform_config.dfy` (`PlatformConfig`).
- The visualizer is split in three:
  - `band_analysis.dfy` (`BandAnalysis`), the band arithmetic as functions;
  - `wav.dfy` (`WavDecoder`), the byte-level decoders;
  - `audio_visualizer.dfy` (`AudioVisualizer`), the widget as a class over
    two `array<real>` of 64 entries and a history sequence.

Code that changes state in place is written as classes and methods:

- `Rag.RagSystem`;
- `Workers.PersistentTtsWorker`;
- `MainApp.MainWindow`;
- `AudioVisualizer.SpeakingVisualizer`.

Each of those methods is proved against the specification functions beside
it. Qt slots are sequential method calls. The effects of I/O are passed in as
parameters:

- the PDF pages as strings (or the error that stopped the reader);
- the files on disk as a map from path to contents, and the ffmpeg
  conversion followed by the `wave` reader as a function from contents to
  frames;
- the engine's synthesis result per sentence;
- the HTTP replies as values;
- the FFT output as a spectrum function;
- the stopwatch reading in milliseconds.

## Model

| member | source | states |
|---|---|---|
| Strings.Strip | text_processor.py:19 | the result is a slice of the input with only whitespace before and after it, and it neither starts nor ends with whitespace; an already-trimmed string is returned unchanged |
| Strings.StripLeft | text_processor.py:19 | the kept suffix starts with a non-space and only whitespace precedes it |
| Strings.StripRight | text_processor.py:19 | the kept prefix ends in a non-space and only whitespace follows it |
| Strings.StripEmptyIffBlank | rag_system.py:26 | stripping yields the empty string exactly when the text is blank |
| Strings.Find | platform_config.py:19 | a found index is the first occurrence of the pattern; none means it occurs nowhere |
| Strings.CountPositiveIffContains | rag_system.py:52 | the non-overlapping count of a pattern is positive exactly when the text contains it |
| Strings.Split | updater.py:76 | `split(sep)` yields at least one piece, and no piece contains the separator |
| Strings.JoinSplit | workers.py:56 | joining the pieces of `split(sep)` with the separator gives back the text |
| Strings.SplitJoin | workers.py:56 | splitting a join of separator-free pieces gives back the pieces |
| Strings.Words | rag_system.py:46 | `split()` yields only non-empty words without whitespace |
| Strings.WordsSplit | rag_system.py:46 | cutting a text at a whitespace character splits its words into those before and those after, in order and with repetitions |
| Strings.WordsSingle | rag_system.py:46 | a non-empty whitespace-free text is exactly one word |
| Strings.WordsEmptyIffBlank | rag_system.py:46 | a text has no words exactly when it is all whitespace |
| Strings.NatToString | updater.py:70 | the rendering of a status code is a non-empty run of decimal digits, without a leading zero, whose value is the code |
| TextProcessor.SymbolMapWellFormed | text_processor.py:4-11 | the symbol map's keys are distinct symbols and no replacement contains any key |
| TextProcessor.SymbolKeysNotPlain | text_processor.py:4-11 | no key is a letter, digit or whitespace character |
| TextProcessor.SymbolValuesPlain | text_processor.py:4-11 | every replacement is made of plain letters and spaces |
| TextProcessor.ApplySymbolsIsTranslate | text_processor.py:15-17 | replacing every occurrence of each key in map order equals translating each character once through the map |
| TextProcessor.TranslateConcat | text_processor.py:15-17 | the per-character translation distributes over concatenation |
| TextProcessor.TranslateNoKey | text_processor.py:15-17 | after substitution no key of a well-formed map occurs in the text |
| TextProcessor.CollapseShape | text_processor.py:18 | every non-whitespace character of the collapsed text comes from the input, every whitespace left is a plain space, and no two are adjacent |
| TextProcessor.CollapseWords | text_processor.py:18 | the collapsed text is the input's words in order joined by single spaces, with one space in front or at the end exactly where the input starts or ends with whitespace; a blank input leaves one space, the empty input nothing |
| TextProcessor.ProcessTextForTts | text_processor.py:22-23 | `process_text_for_tts` is exactly the cleanup, and its result is clean |
| TextProcessor.CleanupIsClean | text_processor.py:13-20 | the cleanup's output has no key, no leading or trailing whitespace and no whitespace run longer than one space |
| TextProcessor.CleanIsFixpoint | text_processor.py:13-20 | the cleanup returns a clean text unchanged |
| TextProcessor.CleanupIdempotent | text_processor.py:13-20 | cleaning twice gives the same text as cleaning once |
| PlatformConfig.DetectPlatform | platform_config.py:7-24 | the Android markers (either environment key, or an importable `jnius`) decide Android by themselves; Linux exactly when there is no marker and the lowered name contains "linux" but not "win"; every other case is Windows |
| PlatformConfig.DarwinIsWindows | platform_config.py:19-20 | the system name "Darwin" is detected as Windows |
| PlatformConfig.NewConfig | platform_config.py:27-36 | the profile stores all seven arguments (platform, engine, framework, local-speech and internet flags, temp directory, token budget); the token budget defaults to 25000 |
| PlatformConfig.CreateForPlatform | platform_config.py:39-72 | no argument means the detected platform; "windows" and "android" pick their rows and any other name the Linux row; local speech exactly on Windows, internet exactly without it, the engine, framework, token budget and temp directory of each row |
| PlatformConfig.CreateForNamedPlatform | platform_config.py:43-72 | asking for a platform by its own name yields that platform's profile |
| PlatformConfig.PlatformFlags | platform_config.py:80-81 | the Windows and Android flags are never both set, and the Android flag holds exactly when a marker is present |
| Updater.ParseInt | updater.py:76 | a piece parses exactly when it is a non-empty run of digits |
| Updater.ParseParts | updater.py:76-77 | a version parses exactly when every dotted piece does, and yields their values in order |
| Updater.ListGreaterIrreflexive | updater.py:78 | no integer list is greater than itself |
| Updater.ListGreaterAsymmetric | updater.py:78 | list comparison is asymmetric |
| Updater.ListGreaterTransitive | updater.py:78 | list comparison is transitive |
| Updater.ListGreaterConnected | updater.py:78 | of two different lists one is greater |
| Updater.ListGreaterThanPrefix | updater.py:78 | a list is greater than each of its proper prefixes |
| Updater.IsNewerIrreflexive | updater.py:74-80 | no version is newer than itself, parsed or not |
| Updater.IsNewerOrder | updater.py:74-80 | when all the versions involved parse, `is_newer` is asymmetric and transitive, and orders any two whose parses differ |
| Updater.IsNewerFallback | updater.py:79-80 | when either side fails to parse, `is_newer` means the strings differ |
| Updater.IsNewerParsed | updater.py:76-78 | when both sides parse, `is_newer` is the lexicographic comparison of the integer lists |
| Updater.NewerMinorExample | tests/test_basic.py:32 | "1.1.0" is newer than "1.0.0" |
| Updater.NewerMajorExample | tests/test_basic.py:33 | "2.0.0" is newer than "1.9.9" |
| Updater.NewerPatchExample | tests/test_basic.py:34 | "1.0.1" is newer than "1.0.0" |
| Updater.OlderExample | tests/test_basic.py:38 | "0.9.9" is not newer than "1.0.0" |
| Updater.SameExample | tests/test_basic.py:39 | "1.0.0" is not newer than itself |
| Updater.OlderMinorExample | tests/test_basic.py:40 | "1.0.0" is not newer than "1.1.0" |
| Updater.LongerVersionExample | updater.py:78 | "1.0.0" is newer than its prefix "1.0" |
| Updater.StripLeadingV | updater.py:35 | every leading 'v' is removed and nothing else: the result is a suffix that does not start with 'v' |
| Updater.FirstArchive | updater.py:40-43 | the chosen asset is the first whose name ends in ".exe" or ".zip"; none means no asset does |
| Updater.FirstArchiveIsFirst | updater.py:40-43 | an archive asset with no archive before it is the one chosen |
| Updater.SelectDownloadUrl | updater.py:39-47 | the asset loop returns the first archive's download URL, or `zipball_url` when there is none or it is empty |
| Updater.CheckForUpdate | updater.py:27-72 | a 200 reply offers the stripped tag exactly when it is non-empty and newer than 1.0.0, with the chosen URL; a 404 falls back to the commit, offered exactly when its first 7 characters differ from the local commit, with the main-branch archive URL, and no update when they agree; a failed commits request gives its error text, a commits status other than 200 the "repo not reachable" error, another releases status the API error with the status in decimal, and a failed releases request its error text |
| Updater.DownloadExtension | updater.py:107-109 | the extension is ".exe" exactly when the lowered URL ends with ".exe", and ".zip" otherwise |
| Updater.Download | updater.py:101-120 | the file is the chunks in order; progress is reported after every non-empty chunk only when the content length is positive |
| Updater.ProgressPointsIncrease | updater.py:113-118 | the reported byte counts strictly increase, are positive, and the last equals the file size |
| Rag.CountTokens | rag_system.py:11-12 | the estimate is the whole part of a quarter of the length |
| Rag.KeptRecordsSound | rag_system.py:23-33 | every record is a kept (non-blank) page with its 1-based number, its text and its token estimate |
| Rag.KeptRecordsOrdered | rag_system.py:23-33 | records follow page order |
| Rag.KeptRecordsComplete | rag_system.py:26-33 | every non-blank page has a record |
| Rag.RenderSnoc | rag_system.py:34 | the full text grows by the page's header and text, one kept page at a time |
| Rag.RenderStartsWithHeader | rag_system.py:34 | a non-empty full text starts with the header of its first kept page, so its third character is '-' |
| Rag.ProgressIndicesShape | rag_system.py:36-37 | progress fires for exactly the read pages whose index is a multiple of 5 or the last, in increasing order |
| Rag.LastProgressIsLastPage | rag_system.py:36-37 | when all pages are read, the last progress report is for the last page |
| Rag.ReadableCount | rag_system.py:18-40 | reading stops at the first page that fails, and every page before it was read |
| Rag.KeepKeywords | rag_system.py:48 | the keywords are exactly the words longer than two characters that are not stopwords |
| Rag.KeepKeywordsAppend | rag_system.py:48 | the filter works word by word: filtering two runs of words is filtering each, in order, so order and repetitions are kept |
| Rag.KeepKeywordsSingle | rag_system.py:48 | one word is kept exactly when it is longer than two characters and not a stopword |
| Rag.ExtractKeywords | rag_system.py:45-48 | every extracted keyword is longer than two characters, whitespace-free and not a stopword |
| Rag.ExtractKeywordsAppend | rag_system.py:45-48 | the keywords of two texts joined by a space are those of the first followed by those of the second, repetitions included |
| Rag.ExtractKeywordsWord | rag_system.py:45-48 | a single whitespace-free word yields its lowered form when that is longer than two characters and not a stopword, and nothing otherwise |
| Rag.ScorePositiveIff | rag_system.py:50-53 | a page scores above zero exactly when its lowered text contains some keyword |
| Rag.Scored | rag_system.py:63-71 | one scored entry per page, in page order, carrying that page |
| Rag.SortByScore | rag_system.py:73 | the sort is a permutation ordered by score, highest first |
| Rag.SortByScoreStable | rag_system.py:73 | the sort is stable: pages with equal score keep page order |
| Rag.ScoredIncreasing | rag_system.py:62-69 | scoring keeps the records' order, so records in page order give pages in increasing order |
| Rag.RankingRanked | rag_system.py:62-73 | the ranking of a read document is highest score first, with ties in page order |
| Rag.Selected | rag_system.py:78-82 | the selection is a prefix of the ranking whose tokens fit the budget |
| Rag.SelectedMaximal | rag_system.py:78-82 | the selection stops exactly at the first page that would overflow |
| Rag.ChoiceAt | rag_system.py:79-80 | a page is taken exactly when the pages before it plus itself fit the budget |
| Rag.SliceTo | rag_system.py:84 | Python slicing of the full text to `available*4` characters, including a negative bound counting from the end |
| Rag.ChooseNotBlank | rag_system.py:76-84 | never blank: its third character is '-', as in every page header; a non-empty selection starts with the header of the best-ranked page |
| Rag.ContextNeverBlank | rag_system.py:55-84 | with pages loaded and more than 5000 tokens allowed, the context is never blank: its third character is '-', as in every page header; when the whole document fits it starts with the first page's header |
| Rag.ShortContextCutsHeader | rag_system.py:84 | the context need not start with a whole header: at 5001 tokens with no page that fits, it is the first four characters of the text |
| Rag.NothingFits | rag_system.py:78-80 | when every page costs more tokens than the budget, no page is selected |
| Rag.SmallBudgetCanBeBlank | rag_system.py:84 | a zero budget with a loaded page gives a blank context |
| Rag.ScorePages | rag_system.py:63-71 | the scoring loop produces the scored pages |
| Rag.TakeWithinBudget | rag_system.py:75-82 | the greedy loop renders exactly the selected pages, and its text is empty exactly when nothing was selected |
| Rag.ReadPages | rag_system.py:23-37 | the page loop reads up to the first failing page, keeps its records, builds the full text and reports progress |
| Rag.RagSystem.constructor | rag_system.py:6-9 | a new system has no text, no pages and no tokens |
| Rag.RagSystem.ProcessPdf | rag_system.py:14-43 | an unopenable document leaves no pages and reports the error; otherwise the pages read are kept, progress is reported, and the page count is returned with the token total updated only when every page was read |
| Rag.RagSystem.GetContextForQuery | rag_system.py:55-84 | the context is the whole text when it fits `max_tokens - 5000`, else the greedily selected ranked pages, else a prefix of the text |
| Rag.RagSystem.Query | rag_system.py:86-125 | no text gives the upload prompt; a blank context gives the fallback marker; otherwise the model's answer or the API error text |
| Rag.LoadedNeverFallsBack | rag_system.py:90-93 | with a loaded PDF at the default budget the context is never blank, so the fallback marker never comes from `query` |
| Workers.ProgressSignals | rag_system.py:36-37 | one progress signal per reported page, in order |
| Workers.LoadPdfRun | workers.py:27-32 | the loader emits its progress signals, then the kept page count or the error text |
| Workers.SpacedIsJoin | workers.py:59-62 | the streamed text is the words joined by spaces plus a final space |
| Workers.SpacedSplit | workers.py:56-65 | streaming the pieces of `split(" ")` accumulates the reply plus one space |
| Workers.StreamWords | workers.py:56-65 | each token is a word followed by one space, in order, and the accumulated text is their concatenation |
| Workers.QueryRun | workers.py:45-68 | mode "rag" asks `query`, others the general reply; the fallback marker is passed on with no tokens; any other reply is streamed as its space-split pieces and finishes as the reply plus one space |
| Workers.FirstTurkishVoice | workers.py:104-109 | the chosen voice is the first whose lowered id contains "tr" or whose lowered name contains "turkish" or "tolga"; none means no voice matches |
| Workers.FirstTurkishVoiceIs | workers.py:104-109 | a matching voice with no match before it is the one chosen |
| Workers.SelectVoice | workers.py:104-112 | the engine is given the first Turkish voice's id when it is non-empty, and keeps its default otherwise |
| Workers.Outcome | workers.py:128-134 | an item finishes with its file exactly when the file exists and is non-empty; otherwise it produces one error |
| Workers.LeadingShape | workers.py:95-98 | the items the run handles are the queue's sentences before the first `None`, in order |
| Workers.LeadingAt | workers.py:95-98 | the first `None` ends the items, and what follows it stays queued |
| Workers.ItemSignalsSnoc | workers.py:95-140 | the run's signals grow by one signal per handled item |
| Workers.HandleItem | workers.py:100-134 | one item gives the outcome of synthesising its cleaned text with the chosen voice |
| Workers.PersistentTtsWorker.constructor | workers.py:71-77 | a new worker has an empty queue and is running |
| Workers.PersistentTtsWorker.Speak | workers.py:79-80 | a sentence joins the back of the queue |
| Workers.PersistentTtsWorker.Stop | workers.py:82-85 | the worker stops running and a `None` joins the queue |
| Workers.PersistentTtsWorker.Run | workers.py:87-143 | without an engine, one error and the queue untouched; when running, exactly the sentences before the first `None` are consumed, each yields exactly one signal in order and is marked done once |
| Workers.PersistentTtsWorker.Serve | workers.py:95-140 | one turn takes the front item: `None` ends the run, a sentence yields its signal and is marked done |
| MainApp.ApiKeyUnpadded | main.py:79-85 | saving is enabled for a stripped key exactly when it starts with "sk-" and is longer than 20 characters |
| MainApp.ApiKeyValidShape | main.py:79-85 | an accepted key contains "sk-", is longer than 20 characters, and stays accepted once stripped |
| MainApp.FirstPlayableShape | main.py:534-549 | the clip played is the first that exists; every clip before it is missing |
| MainApp.FirstPlayableAppend | main.py:528-532 | appending a clip does not change which queued clip plays first when one already exists |
| MainApp.FirstPlayableAfterMissing | main.py:528-532 | after a queue of missing clips, the appended clip plays when it exists |
| MainApp.PendingConcat | main.py:491-512 | handing over two runs of sentences hands them over in order |
| MainApp.MainWindow.constructor | main.py:107-135 | a new window has speech on, both queues empty, both flags clear, a fresh speech worker and a fresh, inactive visualizer without audio |
| MainApp.MainWindow.ResetUi | main.py:698-705 | the status reads ready and the stop button is hidden |
| MainApp.MainWindow.PlayAudio | main.py:625-635 | the file becomes the current one, the visualizer holds what `set_audio_data` makes of that file, and the player is given it and started |
| MainApp.MainWindow.TakePlayable | main.py:534-547 | clips are taken from the front; missing ones are dropped with one error line each, up to the first that exists |
| MainApp.MainWindow.PlayNextInQueue | main.py:534-553 | the first existing clip plays and is loaded into the visualizer, with the rest still queued; with none, the queue is empty, playback is off, the controls reset and the visualizer is untouched |
| MainApp.MainWindow.QueueAudio | main.py:528-532 | the clip joins the back; playback starts only when nothing is playing, so a playing clip is never interrupted |
| MainApp.MainWindow.OnPlaybackStateChanged | main.py:658-671 | on a stop the visualizer stops; a finished file that exists is forgotten, and deleted unless the removal fails (that error is swallowed and the file stays); the queue advances only while playback is wanted, otherwise the controls reset; other states change nothing |
| MainApp.MainWindow.StopSpeaking | main.py:637-656 | both queues and the worker's queue end empty (each drained item marked done), both flags clear, the player and the visualizer stopped; a second call changes nothing |
| MainApp.MainWindow.DrainWorker | main.py:643-651 | every pending worker item is removed and marked done |
| MainApp.MainWindow.ProcessTtsQueue | main.py:491-512 | unless the queue is empty or a running worker is generating, every waiting sentence goes to the speech worker in arrival order and the queue and flag end cleared |
| MainApp.MainWindow.HandOver | main.py:502-507 | each sentence is handed over, front first, and the generating flag ends cleared |
| MainApp.MainWindow.OnSentenceReady | main.py:478-484 | with speech on, the sentence joins the generation queue, which is then processed |
| MainApp.MainWindow.OnPersistentTtsFinished | main.py:514-519 | a clip is queued only when its file exists and is non-empty; otherwise an error is logged, the controls reset and the audio queue is untouched |
| MainApp.MainWindow.OnTtsError | main.py:683-696 | both queues and both flags are cleared, the visualizer stopped and the error logged, without stopping the player |
| MainApp.MainWindow.OnMediaError | main.py:673-675 | the error is logged, then everything stops as in `stop_speaking` |
| MainApp.LoadedShape | main.py:630 | loading a clip gives the visualizer audio exactly when the clip decodes at a positive rate, and then it runs from frame 0 on those samples at `rate / 60` per frame; otherwise it has no audio and keeps its running state |
| MainApp.LoadedMissing | main.py:630 | a file that is not there leaves the visualizer without audio |
| BandAnalysis.ISqrt | audio_visualizer.py:188-189 | the integer square root: the largest natural whose square does not exceed the input |
| BandAnalysis.BoundaryZero | audio_visualizer.py:188 | the first band's range starts at bin 0 |
| BandAnalysis.BoundaryFull | audio_visualizer.py:189 | the last band's range ends at the number of bins |
| BandAnalysis.BoundaryMonotone | audio_visualizer.py:188-189 | band boundaries never decrease |
| BandAnalysis.TargetRange | audio_visualizer.py:188-191 | each band's bin range lies within the magnitudes |
| BandAnalysis.NoTargetWhenEmpty | audio_visualizer.py:190 | a band has no target exactly when its range starts at or past the end or is empty |
| BandAnalysis.Normalize | audio_visualizer.py:193 | the target is the average over 100, capped at 1, and lies in [0, 1] |
| BandAnalysis.Target | audio_visualizer.py:187-193 | a band's target, when it has one, lies in [0, 1] |
| BandAnalysis.MeanAtLeast | audio_visualizer.py:191 | the mean of values at least `lo` is at least `lo` |
| BandAnalysis.MeanAtMost | audio_visualizer.py:191 | the mean of values at most `hi` is at most `hi` |
| BandAnalysis.BlendBetween | audio_visualizer.py:195-200 | a rising band moves strictly between its value and the target, a falling one between the target and its value, and the blend keeps [0, 1] |
| BandAnalysis.Smoothed | audio_visualizer.py:187-200 | the smoothing pass keeps 64 bands |
| BandAnalysis.SmoothedShape | audio_visualizer.py:187-200 | smoothed bands stay in [0, 1], and a band without a bin range is left unchanged |
| BandAnalysis.Push | audio_visualizer.py:201-203 | the history stays within 8 frames and its newest frame is last |
| BandAnalysis.PushWindow | audio_visualizer.py:201-203 | below 8 frames the frame is appended; at 8 the oldest is dropped |
| BandAnalysis.WeightShape | audio_visualizer.py:205 | weights rise from 0.5 for the oldest frame to 1.0 for the newest |
| BandAnalysis.NormWeightsShape | audio_visualizer.py:205-206 | normalised weights are positive, non-decreasing and sum to 1 |
| BandAnalysis.NormWeightSumScaled | audio_visualizer.py:206 | each normalised partial sum is the raw partial sum over the positive total |
| BandAnalysis.AveragedBetween | audio_visualizer.py:204-210 | each averaged band lies between the least and greatest value that band had over the history |
| BandAnalysis.AverageFrameIsFrame | audio_visualizer.py:204-210 | averaging keeps 64 bands in [0, 1] |
| BandAnalysis.PeakStepShape | audio_visualizer.py:211-216 | after the step the band is at least its peak; a peak rises only by becoming the band; otherwise it does not grow; both stay in [0, 1] |
| BandAnalysis.PeakPassShape | audio_visualizer.py:211-216 | the peak pass keeps 64 bands and peaks in [0, 1], each band at least its peak, and every raised peak equal to its band |
| BandAnalysis.FadeShrinks | audio_visualizer.py:175 | fading keeps a band in [0, 1] and never raises it |
| BandAnalysis.FadedIsFrame | audio_visualizer.py:172-175 | the fade keeps 64 bands in [0, 1], each no larger than before |
| BandAnalysis.AnalyzeShape | audio_visualizer.py:177-216 | an analysis step keeps 64 bands and peaks in [0, 1] and at most 8 history frames, records the smoothed bands as the newest frame, and leaves every band at least its peak |
| WavDecoder.LE16 | audio_visualizer.py:82-85 | a little-endian 16-bit field is below 2^16 |
| WavDecoder.LE32 | audio_visualizer.py:84 | a little-endian 32-bit field is below 2^32 |
| WavDecoder.Read16Put16 | audio_visualizer.py:82-85 | reading a 16-bit field back from where it was written gives the value |
| WavDecoder.Read32Put32 | audio_visualizer.py:84 | reading a 32-bit field back from where it was written gives the value |
| WavDecoder.Int16 | audio_visualizer.py:94 | a signed 16-bit sample lies in [-2^15, 2^15) |
| WavDecoder.Int32 | audio_visualizer.py:100 | a signed 32-bit sample lies in [-2^31, 2^31) |
| WavDecoder.Int16PutInt16 | audio_visualizer.py:94 | two's-complement encoding of a 16-bit sample decodes back to it |
| WavDecoder.ScaledSixteen | audio_visualizer.py:95 | a 16-bit sample over 32768 lies in [-1, 1) |
| WavDecoder.ScaledThirtyTwo | audio_visualizer.py:101 | a 32-bit sample over 2^31 lies in [-1, 1) |
| WavDecoder.Samples16 | audio_visualizer.py:94 | the payload yields one sample per whole pair of bytes |
| WavDecoder.Samples32 | audio_visualizer.py:96-101 | the payload yields one sample per whole group of four bytes |
| WavDecoder.FindTagFirst | audio_visualizer.py:88 | the tag search finds the first occurrence of "data", or reports that none exists |
| WavDecoder.DownmixShape | audio_visualizer.py:104-105 | downmixing keeps every `channels`-th sample starting at the first |
| WavDecoder.ReadHeader | audio_visualizer.py:81-85 | the header fields can be read exactly when the file has at least 36 bytes |
| WavDecoder.ManualDecodeErrors | audio_visualizer.py:78-106 | the manual reader fails exactly on a short header, a payload offset past the end, a payload that is not a whole number of samples, or a sample width other than 16 or 32 |
| WavDecoder.StrictDecode | audio_visualizer.py:63-76 | the `wave` reader's frames are accepted exactly when they are 16-bit and of even length |
| WavDecoder.Decode | audio_visualizer.py:63-108 | the strict reader's result when it succeeds, otherwise the manual reader's |
| WavDecoder.HeaderFields | audio_visualizer.py:81-90 | a canonical 44-byte header reads back its format, channels, rate and width, with "data" at byte 36 |
| WavDecoder.RoundTrip16 | audio_visualizer.py:78-106 | a canonical mono 16-bit file decodes to its rate and to each written sample over 32768, in order |
| AudioVisualizer.ChooseActionShape | audio_visualizer.py:155-169 | no audio means idle; a chunk is the run of at most one frame of samples from the sample position and holds more than 32; fading exactly when the position is past the end or the frame is too short |
| AudioVisualizer.SpeakingVisualizer.constructor | audio_visualizer.py:9-28 | inactive, no audio, rate 44100, 735 samples per frame, 64 zero bands and peaks, empty history |
| AudioVisualizer.SpeakingVisualizer.SetAudioData | audio_visualizer.py:31-128 | a decoded file with a positive rate is stored with its rate and `rate / 60` samples per frame, and the visualizer is started; a zero rate or a decode failure leaves no audio |
| AudioVisualizer.SpeakingVisualizer.Start | audio_visualizer.py:130-139 | active, frame count reset, every band zero |
| AudioVisualizer.SpeakingVisualizer.Stop | audio_visualizer.py:141-145 | inactive and no audio |
| AudioVisualizer.SpeakingVisualizer.FadeOutBands | audio_visualizer.py:172-175 | the bands become their faded values, still in [0, 1] |
| AudioVisualizer.SpeakingVisualizer.SmoothBands | audio_visualizer.py:187-200 | the smoothing loop computes the smoothed bands |
| AudioVisualizer.SpeakingVisualizer.AverageBands | audio_visualizer.py:204-210 | the averaging loop computes the weighted history average |
| AudioVisualizer.SpeakingVisualizer.HoldPeaks | audio_visualizer.py:211-216 | the peak loop computes the peak pass on bands and peaks |
| AudioVisualizer.SpeakingVisualizer.AnalyzeFrequencies | audio_visualizer.py:177-216 | the arrays and history become one analysis step of the old state, which keeps 64 bands and peaks in [0, 1] |
| AudioVisualizer.SpeakingVisualizer.UpdateAnimation | audio_visualizer.py:147-170 | every tick counts; when inactive nothing else changes; otherwise the chosen action's analysis, fade or idle levels is the new state |

## Left out

- The FFT stage: the Hann window, the real FFT, the magnitudes and the dropped DC bin. The caller passes a `spectrum` function that maps a chunk to non-negative magnitudes.
- Floating point. Every quantity is an exact real.
  - The band boundary `int((i/64)**1.5 * n)` is computed exactly, as `isqrt(i³·n²) / 512`. This agrees with the real-number value; IEEE rounding of `** 1.5` may differ at exact boundaries.
  - The float32 arrays of samples and bands are exact reals too.
- Float32 samples (format 3) are opaque bit patterns. Their value as a float is not modelled.
- The ffmpeg conversions, the temporary WAV file and its removal, and the `wave` module are not modelled. The module's outcome is a parameter: its frames and sample width, or no reader.
- AudioVisualizer.SpeakingVisualizer.SetAudioData: `sample_rate` is written by a reader that later fails (`wave` at line 65, manual at line 84). The model leaves the rate unchanged on a decode failure instead.
- AudioVisualizer.SpeakingVisualizer.UpdateAnimation: the idle sine animation is replaced by caller-given levels in [0, 0.04]. The model also leaves out:
  - `time` and `audio_position`;
  - the timers and visibility.
- `paintEvent` is not part of this model, because it is rendering only. `visualizer.py` (the thinking animation) is not part of this model either.
- Qt threads, timers, signals and the media player are not modelled.
  - Slots are sequential method calls.
  - The player is the source it was given and whether it was told to play.
  - A stop notification is a separate `OnPlaybackStateChanged` call.
- Cross-thread draining is left out. `stop_speaking` drains the worker's queue from another thread; the model drains it in sequence.
- Workers.PersistentTtsWorker.Run: the blocking `queue.get()` on an empty queue is not modelled. A run that finds no `None` ends once the queue is empty, where the thread would wait for more. The `running` flag is read once at the start.
- Foreign calls:
  - pyttsx3 and pythoncom synthesis are a `synth` function from item number, voice and cleaned text to a result;
  - PyPDF2 text extraction gives the pages as strings, or the error of the first failing page;
  - the LangChain/OpenAI call is a given answer, or an error;
  - the random `time.sleep` between tokens is left out.
- Text primitives:
  - Python's full Unicode `lower()` and `isspace()` are covered for ASCII, Latin-1 and the Turkish letters only;
  - regex `\s` is the same whitespace set.
- Updater.ParseInt accepts only non-empty ASCII digit strings. Python's `int()` also accepts surrounding whitespace, a sign, underscores and non-ASCII Unicode decimal digits (Arabic-Indic or fullwidth digits, for example), so for such versions the model takes the `latest != current` fallback.
- Progress percentages `int((i+1)/total*100)` (rag_system.py) and `int(downloaded/total*100)` (updater.py) are float arithmetic. The model reports which page index or byte count triggered each report.
- The updater's network requests, the version.json read, zip extraction, the batch script and the update dialog are not modelled. The replies and the local commit string are parameters.
- The UI layout and styling in `main.py` are left out, and so are `dialogs.py`, `main_kivy.py`, `config.py`, `compile.py` and `app.py`.
- `query_general`, `generate_summary`, the summary path of `start_tts` and `on_query_result`'s dialog are left out. They are LLM calls or user dialogs.
- WavDecoder.RoundTrip16 requires that the canonical header holds no "data" tag before byte 36. That holds whenever bytes 0-35 contain no "data".
