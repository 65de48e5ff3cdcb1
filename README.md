# GradWork performance sampler and benchmark driver, in Dafny

This project models the measurement harness of a thesis project that benchmarks
three transparency techniques (order-dependent transparency, order-independent
transparency and raytracing) in Unreal Engine. It proves properties of the model.

**The performance sampler (`FPerformanceLogger`)** has three parts:

- **Tracking session.** A session is started, and on every tick while it runs it
  records one sample of:
  - frame time, game-thread time, render-thread time and GPU time;
  - the draw-call count;
  - physical and virtual memory use.

  Once the configured duration is reached, the session stops by itself and saves
  a report. An explicit stop also saves one.
- **Per-metric statistics.** For each metric the report gives:
  - the minimum and the maximum of all samples;
  - a trimmed mean. The values are sorted ascending and `floor(n * fraction)`
    values are left out at each end before averaging.
- **Report file.** The report goes to `<project>/PerformanceLogs/<date>/<mode>/`.
  - The file name is the first of `<scene>.txt`, `<scene>_1.txt`,
    `<scene>_2.txt`, ... that does not exist yet.
  - The file gets a two-line header only when it is empty.
  - Then it gets one row per metric, in a fixed order.

**The benchmark driver (`AGWPlayerController`)** does the following:

- It switches scenes and camera positions on input, with wrap-around.
- It starts the sampler on request, but only from position 0 or in scene 4.
- In simulation mode it does the following for each scene:
  - it starts the sampler 20 s into the scene;
  - after 60 s it opens the next scene;
  - after the last scene it stops.

Modules:

| file | module | what it holds |
|---|---|---|
| `TrimmedStats.dfy` | `TrimmedStats` | The specification of the statistics. The sort is an insertion sort, proved to give an ascending permutation; any two ascending permutations are equal. It also defines the trim count, the trimmed mean, the summary (min, max, average) and their properties, with the worked example 1..10. |
| `LogFiles.dfy` | `LogFiles` | Report lines. The append that writes the header only into an empty file. The decimal printer behind `_<k>`, and the candidate file names with their injectivity. The first free name, which always exists among finitely many files. `Host`, the file system and date the logger sees. |
| `PerformanceLogger.dfy` | `Performance` | The sample record and the seven metrics. The rows of a report and the files after a report is saved. The class `PerformanceLogger` with its session methods and its report-writing methods. |
| `PlayerController.dfy` | `Controller` | The C++ truncating remainder and `GetWrappedIndex`. The class `PlayerController`, which holds the driver state and the guarded input handlers. |

### How the host is represented

- Numbers are mathematical: `real` for the `float`/`double` figures and `int` for
  the draw-call count.
- The file system is the `files` field of a `Host` object, a map from path to the
  lines of that file. The existing paths are its keys, so there are finitely many.
- The project directory and today's date (`%Y-%m-%d`) are constant fields of `Host`.
- The figures captured on a tick come in as the `sample` parameter of `Update`.
- A report row is the value `StatsRow(name, min, max, average)`. Its text formatting
  is not modelled.
- The C++ class keeps two fields in process-wide `static` storage: the current
  scene and the simulating flag. Here they are fields of the `PlayerController`
  object.
  - Opening a level is a boolean result, `openLevel`. It asks for a new
    controller of the level `sceneNames[currentScene]`.
  - That new controller is made with the constructor, which models `BeginPlay`.
    It receives the two process-wide values as parameters.

### Two modelling decisions

- Outlier fraction: the code accepts any `float`. Above 1, `size - trimCount`
  underflows (Source/GradWork/PerformanceLogger.h:116), so the model requires
  `0 <= fraction <= 1`.
- `Tick` models the (20, 20.5) s tracking window in which the driver starts the
  sampler (Source/GradWork/GWPlayerController.cpp:54-56).

## Model

| member | source | states |
|---|---|---|
| TrimmedStats.SortAscendingSorts | Source/GradWork/PerformanceLogger.h:109-110 | The sorted copy is ascending and holds exactly the values of the data (a permutation); the data itself is a value and is not changed. |
| TrimmedStats.SortAscending | Source/GradWork/PerformanceLogger.h:109-110 | The sorted copy has as many values as the data. |
| TrimmedStats.InsertSorted | Source/GradWork/PerformanceLogger.h:110 | Inserting a value into an ascending sequence keeps it ascending. |
| TrimmedStats.InsertValues | Source/GradWork/PerformanceLogger.h:110 | Inserting adds exactly the inserted value to the values held. |
| TrimmedStats.SortedPermutationsEqual | Source/GradWork/PerformanceLogger.h:110 | Two ascending arrangements of the same values are equal, so the statistics do not depend on which sort is used. |
| TrimmedStats.TrimCount | Source/GradWork/PerformanceLogger.h:112 | `floor(n * fraction)` never exceeds n for a fraction in [0, 1]. |
| TrimmedStats.SummaryBounds | Source/GradWork/PerformanceLogger.h:122-124 | Min and max are taken over the whole untrimmed data: both occur in it, and every value lies between them. |
| TrimmedStats.SumPermutation | Source/GradWork/PerformanceLogger.h:116-120 | The sum over the values does not depend on their order. |
| TrimmedStats.SumBounds | Source/GradWork/PerformanceLogger.h:116-120 | A sum of values in [lo, hi] lies in [n*lo, n*hi]. |
| TrimmedStats.TrimmedMeanBounds | Source/GradWork/PerformanceLogger.h:116-126 | The sum over a non-empty window of an ascending sequence, divided by the window's size, lies between the sequence's first and last values. |
| TrimmedStats.TrimmedMean | Source/GradWork/PerformanceLogger.h:112-126 | The average over an ascending sequence with a non-empty window lies between its first and last values; when trimming leaves no value, the average is 0. |
| TrimmedStats.Summarize | Source/GradWork/PerformanceLogger.h:109-126 | For any non-empty data and a fraction in [0, 1], min <= max; whenever the averaging window is non-empty, min <= average <= max. |
| TrimmedStats.NoTrimIsMean | Source/GradWork/PerformanceLogger.h:112-126 | With fraction 0 nothing is trimmed and the average is the plain arithmetic mean of the data. |
| TrimmedStats.SummarizeAscending | Source/GradWork/PerformanceLogger.h:109-126 | On data that is already ascending, min is the first value, max the last and the average the trimmed mean of the data as given. |
| TrimmedStats.OneToTenExample | Source/GradWork/PerformanceLogger.h:106-127 | 1..10 with fraction 0.1 trims one value at each end and gives min 1, max 10 and average 5.5. |
| TrimmedStats.OneToTenTrimmedMean | Source/GradWork/PerformanceLogger.h:116-126 | The window 2..9 of 1..10 has mean 5.5. |
| LogFiles.AppendRow | Source/GradWork/PerformanceLogger.h:79-90 | Appending a row to an empty file writes the two header lines and then the row; a non-empty file gets only the row at its end. |
| LogFiles.AppendRowsToEmpty | Source/GradWork/PerformanceLogger.h:79-90 | Rows appended one by one to an empty file give the header once, followed by the rows in order. |
| LogFiles.AppendRowsToNonEmpty | Source/GradWork/PerformanceLogger.h:79-90 | Rows appended to a file that has lines follow those lines, with no second header. |
| LogFiles.LogDirectory | Source/GradWork/PerformanceLogger.cpp:119-121 | The report directory is the project directory, then `/PerformanceLogs/`, then the date, then `/` and the folder name. |
| LogFiles.Candidate | Source/GradWork/PerformanceLogger.cpp:122-129 | Every candidate path starts with the directory and `/`, then the base name, and ends in `.txt`. |
| LogFiles.DecimalInjective | Source/GradWork/PerformanceLogger.cpp:129 | Different suffix numbers print as different `%d` texts. |
| LogFiles.SuffixTextInjective | Source/GradWork/PerformanceLogger.cpp:124-129 | No suffix, `_1`, `_2`, ... are pairwise different. |
| LogFiles.CandidateInjective | Source/GradWork/PerformanceLogger.cpp:124-129 | Different retries of the name search try different paths. |
| LogFiles.FirstFreeExists | Source/GradWork/PerformanceLogger.cpp:127-131 | Among finitely many existing files some candidate name is free, so the search ends. |
| LogFiles.FirstFreeUnique | Source/GradWork/PerformanceLogger.cpp:127-131 | At most one candidate is the first free one. |
| LogFiles.FreeLogFile | Source/GradWork/PerformanceLogger.cpp:116-134 | The chosen report file does not exist yet. |
| LogFiles.TwoReportsTwoFiles | Source/GradWork/PerformanceLogger.cpp:124-131 | Two reports on the same subject and day go to `name.txt` and then `name_1.txt`. |
| Performance.MetricRowBounds | Source/GradWork/PerformanceLogger.cpp:105-111 | A metric's row carries its label, and its min and max bound that metric in every sample and occur among the samples. |
| Performance.MetricRow | Source/GradWork/PerformanceLogger.cpp:105-111 | A metric's row is a statistics row labelled with the metric's name, with min <= max, and min <= average <= max when the averaging window is non-empty. |
| Performance.ReportRows | Source/GradWork/PerformanceLogger.cpp:105-111 | A report has one row per metric in the report order, seven in all. |
| Performance.ReportRowsInOrder | Source/GradWork/PerformanceLogger.cpp:105-111 | The i-th row of a report is the row of the i-th metric of the report order, labelled with that metric's name. |
| Performance.SavedReport | Source/GradWork/PerformanceLogger.cpp:98-111 | No samples leave the files as they are. Otherwise every existing file is kept as it was, and exactly one file is added: the first free log file. |
| Performance.TwoSessionsTwoReports | Source/GradWork/PerformanceLogger.cpp:98-134 | Two sessions saved in turn land in two different new files, each holding the header and its own rows, named `name.txt` and `name_1.txt` when both are free. |
| Performance.FirstRowWritten | Source/GradWork/PerformanceLogger.h:79-90 | The first row written to a new file follows the header. |
| Performance.NextRowWritten | Source/GradWork/PerformanceLogger.h:79-90 | Each further row goes after the rows already written. |
| Performance.Series | Source/GradWork/PerformanceLogger.h:55-64 | One metric's values, one per sample. |
| Performance.PerformanceLogger.constructor | Source/GradWork/PerformanceLogger.cpp:6-14 | A new logger keeps its parameters, is not tracking, has elapsed time 0 and holds no samples. |
| Performance.PerformanceLogger.IsTracking | Source/GradWork/PerformanceLogger.h:16 | True exactly while a session runs; reads the state only. |
| Performance.PerformanceLogger.Update | Source/GradWork/PerformanceLogger.cpp:16-48 | While not tracking nothing changes. Otherwise elapsed time grows by exactly deltaTime and the sample is appended. When the duration is reached, tracking stops, the samples are cleared, and the report of all samples, including this tick's, is saved. Afterwards, still tracking implies elapsed < duration. |
| Performance.PerformanceLogger.StartTracking | Source/GradWork/PerformanceLogger.cpp:50-60 | A no-op while tracking. Otherwise it clears the samples, resets elapsed time to 0 and starts tracking. |
| Performance.PerformanceLogger.StopTracking | Source/GradWork/PerformanceLogger.cpp:62-72 | A no-op when not tracking. Otherwise it stops tracking, saves the report of exactly the current samples and clears them. |
| Performance.PerformanceLogger.ProcessAndSaveStats | Source/GradWork/PerformanceLogger.cpp:98-114 | Writes nothing for no samples. Otherwise the file set grows by exactly the first free log file, which holds the header and then the seven rows appended in the report order; no other file changes. |
| Performance.PerformanceLogger.LogMetric | Source/GradWork/PerformanceLogger.cpp:105-111 | One line of the report: the metric's row appended to the report file. |
| Performance.PerformanceLogger.ExtractMetric | Source/GradWork/PerformanceLogger.h:55-64 | As many values as samples; the i-th is the chosen metric of the i-th sample, in capture order. |
| Performance.PerformanceLogger.CalculateStats | Source/GradWork/PerformanceLogger.h:106-127 | Min, max and average are the summary of the data: min and max of the whole data, average over the trimmed window; every value lies in [min, max]. |
| Performance.PerformanceLogger.LogStats | Source/GradWork/PerformanceLogger.h:66-95 | The file gets the header only if it was empty, then exactly one row with the data's min, max and average; other files are unchanged. |
| Performance.PerformanceLogger.GetLogFilePath | Source/GradWork/PerformanceLogger.cpp:116-134 | Returns a path that does not exist: `name.txt` if free, else `name_k.txt` for the smallest free k >= 1. |
| Controller.CppRemainder | Source/GradWork/GWPlayerController.cpp:169 | C++ `%`: the remainder has the sign of the dividend, is smaller in size than the divisor, and completes the truncated quotient. |
| Controller.GetWrappedIndex | Source/GradWork/GWPlayerController.cpp:167-170 | In [0, max) whenever `currentIndex + increment + max >= 0`. Inside the range the index moves by the increment; one past the end wraps to 0 and one before the start to max - 1. |
| Controller.StepStaysInRange | Source/GradWork/GWPlayerController.cpp:167-170 | A step of at most one from a valid index or from the unset index -1 lands in [0, max). |
| Controller.StepThereAndBack | Source/GradWork/GWPlayerController.cpp:167-170 | A step forward and then back, or back and then forward, returns to the start index. |
| Controller.StepFromUnset | Source/GradWork/GWPlayerController.cpp:167-170 | From the unset index -1, forward gives 0, and with two or more indices back gives max - 2. |
| Controller.Defaulted | Source/GradWork/GWPlayerController.cpp:96-102 | The unset index -1 reads as 0; any other index is kept. |
| Controller.PlayerController.constructor | Source/GradWork/GWPlayerController.cpp:11-26 | The logger is made with 30 s, fraction 0.1, the current scene's name (scene 0 when unset) and the mode name. In a simulation outside scene 4 the position is set to 0. |
| Controller.PlayerController.Tick | Source/GradWork/GWPlayerController.cpp:45-73 | When not simulating, nothing else changes. In a simulation the logger is tracking after a tick that starts within (20, 20.5) s, and the clock grows by deltaTime. Once past 60 s the scene advances and a level is opened; after the last scene it goes back to 0 and the simulation ends, so the scene stays a valid index. |
| Controller.PlayerController.SwitchScene | Source/GradWork/GWPlayerController.cpp:76-83 | A no-op while simulating or tracking. Otherwise the scene steps by ±1 with wrap-around, lands in range, and a level is opened. |
| Controller.PlayerController.SwitchPos | Source/GradWork/GWPlayerController.cpp:85-92 | A no-op while tracking. Otherwise the position steps by ±1 with wrap-around and lands in range. |
| Controller.PlayerController.TrackStats | Source/GradWork/GWPlayerController.cpp:107-119 | Ignored while simulating. Refused when the position is not 0 and the scene is not 4. Otherwise the logger is started, and is then tracking. |
| Controller.PlayerController.StartSimulation | Source/GradWork/GWPlayerController.cpp:121-132 | A no-op while simulating. Otherwise it sets simulating, selects scene 0 and opens its level, and the logger is tracking: unchanged if it already was, else with elapsed time 0 and no samples. |
| Controller.PlayerController.TakeScreenshot | Source/GradWork/GWPlayerController.cpp:94-105 | The screenshot is filed under the current scene and position, with an unset (-1) index read as 0; the scene is a valid index. |

## Left out

- Metric capture through engine calls (frame time, thread times, GPU cycles and
  memory statistics): engine APIs. The captured figures are the `sample`
  parameter of `Update` instead.
- `TrackDrawCalls`: a render-thread command and a fence wait, which is concurrency.
  The draw-call count is part of the sample.
- `FormatStatsRow`: printf formatting of floats to two decimals. A row is the value
  `StatsRow(name, min, max, average)`, so parsing a report back is not modelled.
- `EnsureDirectoryExists`: directories are part of the path strings. A file that
  cannot be opened, which skips that row in the code, is not modelled; every
  append succeeds.
- On-screen and log notifications (`AddOnScreenDebugMessage`, `UE_LOG`): they have
  no effect on state.
- Floating point: `float`/`double` arithmetic is modelled on `real`. Rounding of
  elapsed time, of `size * fraction` and of the averages is not modelled.
- 32-bit overflow: the suffix counter, the scene and position indices and
  `GetWrappedIndex` use unbounded integers. The values involved are small.
- Path separators: `FPaths` joining is modelled as `a + "/" + b`. Separator
  normalisation is not modelled.
- `std::sort`: modelled by an insertion-sort function. Since any two ascending
  permutations are equal, this determines the result of every sort.
- Controller.PlayerController.Tick: its contract does not restate the logger's
  own per-tick effect (the sample, the elapsed time, an automatic report). That
  effect is `Update`'s contract. Tick only states that the logger is tracking
  after a tick in the 20 s window.
- Controller.PlayerController.TakeScreenshot: returns the scene and position the
  screenshot is filed under. `TakeScreenshot_Helper`, which builds the screenshot
  path and requests the capture, is screenshot I/O. So is its call in `Tick` on
  leaving a scene.
- `OpenLevel`: loading a level is represented only by the `openLevel` result of
  `Tick`, `SwitchScene` and `StartSimulation`. Destroying the old controller and
  making the new one is left to the caller through the constructor.
- `BeginPlay`'s pawn transform and `SwitchPos`'s `SetActorTransform`: actor
  placement. Only the position index is modelled.
- `SetupInputComponent`: input bindings, which are engine glue.
- `GetPlayerModeString`: a constant enum-to-text mapping. The mode name is a
  constructor parameter.
- `TransparentHeavyLevel`, `GWPawn` and `GWGameMode`: level content and engine
  configuration, with no logic of the sampler or the driver.
