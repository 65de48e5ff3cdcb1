/**
  The performance sampler: while tracking, one sample of frame, thread, GPU,
  draw-call and memory figures per tick; after the configured duration (or on
  an explicit stop) one report with the trimmed statistics of every metric,
  written to a file that did not exist before.
 */
module Performance {
  import opened TrimmedStats
  import opened LogFiles

  /** The figures captured on one tick. */
  datatype StatEntry = StatEntry(
    frameTime: real,
    gameThreadTime: real,
    renderThreadTime: real,
    gpuTime: real,
    drawCalls: int,
    usedPhysicalMemoryMB: real,
    usedVirtualMemoryMB: real)

  /** The seven metrics of a report, each with its row label and its getter. */
  datatype Metric =
    | FrameTime | GameThreadTime | RenderThreadTime | GpuTime | DrawCalls | PhysicalMemory | VirtualMemory
  {
    function Label(): string
    {
      match this
      case FrameTime => "FrameTime - ms"
      case GameThreadTime => "GameThreadTime - ms"
      case RenderThreadTime => "RenderThreadTime - ms"
      case GpuTime => "GPUTime - ms"
      case DrawCalls => "DrawCalls"
      case PhysicalMemory => "Physical Memory - MB"
      case VirtualMemory => "Virtual Memory - MB"
    }

    function Of(e: StatEntry): real
    {
      match this
      case FrameTime => e.frameTime
      case GameThreadTime => e.gameThreadTime
      case RenderThreadTime => e.renderThreadTime
      case GpuTime => e.gpuTime
      case DrawCalls => e.drawCalls as real
      case PhysicalMemory => e.usedPhysicalMemoryMB
      case VirtualMemory => e.usedVirtualMemoryMB
    }
  }

  /** The order of the rows in a report. */
  const ReportOrder: seq<Metric> :=
    [FrameTime, GameThreadTime, RenderThreadTime, GpuTime, DrawCalls, PhysicalMemory, VirtualMemory]

  /** One metric's values, in capture order. */
  function Series(samples: seq<StatEntry>, metric: Metric): (values: seq<real>)
    ensures |values| == |samples|
  {
    seq(|samples|, i requires 0 <= i < |samples| => metric.Of(samples[i]))
  }

  /** The report row of one metric. */
  function MetricRow(samples: seq<StatEntry>, fraction: real, metric: Metric): (row: Line)
    requires |samples| > 0
    requires 0.0 <= fraction <= 1.0
    ensures row.StatsRow? && row.name == metric.Label()
    ensures row.min <= row.max
    ensures 2 * TrimCount(|samples|, fraction) < |samples| ==> row.min <= row.average <= row.max
  {
    var s := Summarize(Series(samples, metric), fraction);
    StatsRow(metric.Label(), s.min, s.max, s.average)
  }

  /** The rows of one report, one per metric. */
  function ReportRows(samples: seq<StatEntry>, fraction: real): (rows: seq<Line>)
    requires |samples| > 0
    requires 0.0 <= fraction <= 1.0
    ensures |rows| == |ReportOrder|
  {
    [MetricRow(samples, fraction, FrameTime)] + [MetricRow(samples, fraction, GameThreadTime)]
    + [MetricRow(samples, fraction, RenderThreadTime)] + [MetricRow(samples, fraction, GpuTime)]
    + [MetricRow(samples, fraction, DrawCalls)] + [MetricRow(samples, fraction, PhysicalMemory)]
    + [MetricRow(samples, fraction, VirtualMemory)]
  }

  /** The rows of a report follow `ReportOrder`, each labelled with its metric's name. */
  lemma ReportRowsInOrder(samples: seq<StatEntry>, fraction: real)
    requires |samples| > 0
    requires 0.0 <= fraction <= 1.0
    ensures forall i :: 0 <= i < |ReportOrder| ==>
              ReportRows(samples, fraction)[i] == MetricRow(samples, fraction, ReportOrder[i])
              && ReportRows(samples, fraction)[i].name == ReportOrder[i].Label()
  {
    var rows := ReportRows(samples, fraction);
    assert rows == [MetricRow(samples, fraction, ReportOrder[0]), MetricRow(samples, fraction, ReportOrder[1]),
                    MetricRow(samples, fraction, ReportOrder[2]), MetricRow(samples, fraction, ReportOrder[3]),
                    MetricRow(samples, fraction, ReportOrder[4]), MetricRow(samples, fraction, ReportOrder[5]),
                    MetricRow(samples, fraction, ReportOrder[6])];
  }

  /**
    A metric's row is labelled with the metric's name, and its minimum and maximum
    bound that metric's value in every sample and occur among them.
   */
  lemma MetricRowBounds(samples: seq<StatEntry>, fraction: real, metric: Metric, k: nat)
    requires |samples| > 0
    requires 0.0 <= fraction <= 1.0
    requires k < |samples|
    ensures MetricRow(samples, fraction, metric).name == metric.Label()
    ensures MetricRow(samples, fraction, metric).min <= metric.Of(samples[k]) <= MetricRow(samples, fraction, metric).max
    ensures MetricRow(samples, fraction, metric).min in Series(samples, metric)
    ensures MetricRow(samples, fraction, metric).max in Series(samples, metric)
  {
    var values := Series(samples, metric);
    assert values[k] == metric.Of(samples[k]);
    assert values[k] in values;
    SummaryBounds(values, fraction);
  }

  /**
    The files after one report is saved: nothing for no samples, else one new
    file that receives the header and then the rows, one append at a time.
    Every file that existed is kept as it was, and exactly one is added.
   */
  ghost function SavedReport(files: map<string, seq<Line>>, dir: string, name: string, fraction: real,
                             samples: seq<StatEntry>): (after: map<string, seq<Line>>)
    requires 0.0 <= fraction <= 1.0
    ensures samples == [] ==> after == files
    ensures forall p :: p in files ==> p in after && after[p] == files[p]
    ensures samples != [] ==>
              after.Keys == files.Keys + {FreeLogFile(files.Keys, dir, name)}
              && |after.Keys| == |files.Keys| + 1
  {
    if samples == [] then files
    else files[FreeLogFile(files.Keys, dir, name) := AppendRows([], ReportRows(samples, fraction))]
  }

  /**
    Two sessions saved one after the other go to two different new files, each
    holding the header and its own session's rows; on a day with neither file yet
    these are `name.txt` and `name_1.txt`.
   */
  lemma TwoSessionsTwoReports(files: map<string, seq<Line>>, dir: string, name: string, fraction: real,
                              first: seq<StatEntry>, second: seq<StatEntry>)
    requires 0.0 <= fraction <= 1.0
    requires first != [] && second != []
    ensures var afterFirst := SavedReport(files, dir, name, fraction, first);
            var afterSecond := SavedReport(afterFirst, dir, name, fraction, second);
            var p, q := FreeLogFile(files.Keys, dir, name), FreeLogFile(afterFirst.Keys, dir, name);
            && p != q && p !in files && q !in files
            && p in afterSecond && afterSecond[p] == HeaderLines + ReportRows(first, fraction)
            && q in afterSecond && afterSecond[q] == HeaderLines + ReportRows(second, fraction)
    ensures Candidate(dir, name, 0) !in files && Candidate(dir, name, 1) !in files ==>
              FreeLogFile(files.Keys, dir, name) == Join(dir, name + ".txt")
              && FreeLogFile(SavedReport(files, dir, name, fraction, first).Keys, dir, name) == Join(dir, name + "_1.txt")
  {
    var afterFirst := SavedReport(files, dir, name, fraction, first);
    var p := FreeLogFile(files.Keys, dir, name);
    AppendRowsToEmpty(ReportRows(first, fraction));
    AppendRowsToEmpty(ReportRows(second, fraction));
    if Candidate(dir, name, 0) !in files && Candidate(dir, name, 1) !in files {
      TwoReportsTwoFiles(files.Keys, dir, name);
    }
  }

  /** The first row written to a new file comes after the header. */
  lemma FirstRowWritten(before: map<string, seq<Line>>, path: string, row: Line, after: map<string, seq<Line>>)
    requires path !in before
    requires after == before[path := AppendRow(FileLines(before, path), row)]
    ensures after == before[path := HeaderLines + [row]]
  {
  }

  /** A further row goes after the rows already written, with no second header. */
  lemma NextRowWritten(before: map<string, seq<Line>>, path: string, rows: seq<Line>, row: Line,
                       files: map<string, seq<Line>>, after: map<string, seq<Line>>)
    requires files == before[path := HeaderLines + rows]
    requires after == files[path := AppendRow(FileLines(files, path), row)]
    ensures after == before[path := HeaderLines + (rows + [row])]
  {
    assert FileLines(files, path) == HeaderLines + rows;
    assert HeaderLines + rows + [row] == HeaderLines + (rows + [row]);
  }

  class PerformanceLogger {
    const fileName: string
    const folderName: string
    const durationSeconds: real
    /** Fraction of the sorted values left out of the average at each end. */
    const outlierFraction: real
    var elapsedTime: real
    var isTracking: bool
    var statsData: seq<StatEntry>

    /** Samples are held only while tracking. */
    ghost predicate Valid()
      reads this
    {
      && 0.0 <= outlierFraction <= 1.0
      && (!isTracking ==> statsData == [])
    }

    constructor (durationSeconds: real, outlierFraction: real, fileName: string, folderName: string)
      requires 0.0 <= outlierFraction <= 1.0
      ensures Valid()
      ensures this.durationSeconds == durationSeconds && this.outlierFraction == outlierFraction
      ensures this.fileName == fileName && this.folderName == folderName
      ensures !isTracking && elapsedTime == 0.0 && statsData == []
    {
      this.fileName := fileName;
      this.folderName := folderName;
      this.durationSeconds := durationSeconds;
      this.outlierFraction := outlierFraction;
      elapsedTime := 0.0;
      isTracking := false;
      statsData := [];
    }

    /** Whether a session is running. */
    predicate IsTracking(): (tracking: bool)
      reads this
      ensures tracking <==> isTracking
    {
      isTracking
    }

    /** The files after this logger saves a report of `samples` on `host`. */
    ghost function Saved(host: Host, files: map<string, seq<Line>>, samples: seq<StatEntry>): map<string, seq<Line>>
      requires 0.0 <= outlierFraction <= 1.0
    {
      SavedReport(files, LogDirectory(host.projectDir, host.today, folderName), fileName, outlierFraction, samples)
    }

    /** One tick: record the sample while tracking, and stop once the duration is reached. */
    method Update(deltaTime: real, sample: StatEntry, host: Host)
      requires Valid()
      modifies this, host
      ensures Valid()
      ensures !old(isTracking) ==> unchanged(this) && unchanged(host)
      ensures old(isTracking) ==> elapsedTime == old(elapsedTime) + deltaTime
      ensures old(isTracking) && elapsedTime < durationSeconds ==>
                isTracking && statsData == old(statsData) + [sample] && unchanged(host)
      ensures old(isTracking) && elapsedTime >= durationSeconds ==>
                !isTracking && statsData == []
                && host.files == Saved(host, old(host.files), old(statsData) + [sample])
      ensures isTracking ==> elapsedTime < durationSeconds
    {
      if !isTracking {
        return;
      }
      elapsedTime := elapsedTime + deltaTime;
      statsData := statsData + [sample];
      if elapsedTime >= durationSeconds {
        StopTracking(host);
      }
    }

    /** Starts a session, discarding earlier samples; does nothing while tracking. */
    method StartTracking()
      requires Valid()
      modifies this
      ensures Valid()
      ensures old(isTracking) ==> unchanged(this)
      ensures !old(isTracking) ==> isTracking && elapsedTime == 0.0 && statsData == []
    {
      if !isTracking {
        statsData := [];
        elapsedTime := 0.0;
        isTracking := true;
      }
    }

    /** Ends the session and saves its report; does nothing when not tracking. */
    method StopTracking(host: Host)
      requires Valid()
      modifies this, host
      ensures Valid()
      ensures !old(isTracking) ==> unchanged(this) && unchanged(host)
      ensures old(isTracking) ==>
                !isTracking && statsData == [] && elapsedTime == old(elapsedTime)
                && host.files == Saved(host, old(host.files), old(statsData))
    {
      if isTracking {
        isTracking := false;
        ProcessAndSaveStats(host);
        statsData := [];
      }
    }

    /** Writes the report of the current samples to a new file; nothing without samples. */
    method ProcessAndSaveStats(host: Host)
      requires 0.0 <= outlierFraction <= 1.0
      modifies host
      ensures statsData == [] ==> unchanged(host)
      ensures statsData != [] ==>
                host.files.Keys == old(host.files).Keys
                                   + {FreeLogFile(old(host.files).Keys, LogDirectory(host.projectDir, host.today, folderName), fileName)}
      ensures host.files == Saved(host, old(host.files), statsData)
    {
      if statsData == [] {
        return;
      }
      ghost var before := host.files;
      var filePath := GetLogFilePath(host);
      var f := outlierFraction;
      ghost var files := host.files;
      LogMetric(FrameTime, filePath, host);
      FirstRowWritten(before, filePath, MetricRow(statsData, f, FrameTime), host.files);
      ghost var rows := [MetricRow(statsData, f, FrameTime)];
      files := host.files;
      LogMetric(GameThreadTime, filePath, host);
      NextRowWritten(before, filePath, rows, MetricRow(statsData, f, GameThreadTime), files, host.files);
      rows, files := rows + [MetricRow(statsData, f, GameThreadTime)], host.files;
      LogMetric(RenderThreadTime, filePath, host);
      NextRowWritten(before, filePath, rows, MetricRow(statsData, f, RenderThreadTime), files, host.files);
      rows, files := rows + [MetricRow(statsData, f, RenderThreadTime)], host.files;
      LogMetric(GpuTime, filePath, host);
      NextRowWritten(before, filePath, rows, MetricRow(statsData, f, GpuTime), files, host.files);
      rows, files := rows + [MetricRow(statsData, f, GpuTime)], host.files;
      LogMetric(DrawCalls, filePath, host);
      NextRowWritten(before, filePath, rows, MetricRow(statsData, f, DrawCalls), files, host.files);
      rows, files := rows + [MetricRow(statsData, f, DrawCalls)], host.files;
      LogMetric(PhysicalMemory, filePath, host);
      NextRowWritten(before, filePath, rows, MetricRow(statsData, f, PhysicalMemory), files, host.files);
      rows, files := rows + [MetricRow(statsData, f, PhysicalMemory)], host.files;
      LogMetric(VirtualMemory, filePath, host);
      NextRowWritten(before, filePath, rows, MetricRow(statsData, f, VirtualMemory), files, host.files);
      rows := rows + [MetricRow(statsData, f, VirtualMemory)];
      assert rows == ReportRows(statsData, f);
      AppendRowsToEmpty(rows);
      assert host.files == Saved(host, before, statsData);
    }

    /** One report row: `LogStats(label, path, ExtractMetric(getter))`. */
    method LogMetric(metric: Metric, filePath: string, host: Host)
      requires |statsData| > 0
      requires 0.0 <= outlierFraction <= 1.0
      modifies host
      ensures host.files == old(host.files)[filePath := AppendRow(FileLines(old(host.files), filePath),
                                                                 MetricRow(statsData, outlierFraction, metric))]
    {
      var values := ExtractMetric(metric);
      LogStats(metric.Label(), filePath, values, host);
    }

    /** The values of one metric over the samples, in capture order. */
    method ExtractMetric(metric: Metric) returns (values: seq<real>)
      ensures |values| == |statsData|
      ensures forall i :: 0 <= i < |statsData| ==> values[i] == metric.Of(statsData[i])
      ensures values == Series(statsData, metric)
    {
      values := [];
      var i := 0;
      while i < |statsData|
        invariant i <= |statsData|
        invariant |values| == i
        invariant forall k :: 0 <= k < i ==> values[k] == metric.Of(statsData[k])
      {
        values := values + [metric.Of(statsData[i])];
        i := i + 1;
      }
    }

    /** Minimum and maximum of all the data, and the mean of the sorted data less the trimmed ends. */
    method CalculateStats(data: seq<real>) returns (min: real, max: real, average: real)
      requires |data| > 0
      requires 0.0 <= outlierFraction <= 1.0
      ensures Summary(min, max, average) == Summarize(data, outlierFraction)
      ensures min in data && max in data
      ensures forall v :: v in data ==> min <= v <= max
    {
      var sortedData := SortAscending(data);
      var trimCount := TrimCount(|sortedData|, outlierFraction);
      var sum := 0.0;
      var count := 0;
      var i := trimCount;
      while i < |sortedData| - trimCount
        invariant trimCount <= i <= |sortedData|
        invariant i > trimCount ==> i <= |sortedData| - trimCount
        invariant count == i - trimCount
        invariant sum == Sum(sortedData[trimCount..i])
      {
        assert sortedData[trimCount..i + 1][..i - trimCount] == sortedData[trimCount..i];
        sum := sum + sortedData[i];
        count := count + 1;
        i := i + 1;
      }
      min := sortedData[0];
      max := sortedData[|sortedData| - 1];
      average := if count > 0 then sum / count as real else 0.0;
      SummaryBounds(data, outlierFraction);
    }

    /** Computes one metric's statistics and appends its row to the report file. */
    method LogStats(statName: string, filePath: string, data: seq<real>, host: Host)
      requires |data| > 0
      requires 0.0 <= outlierFraction <= 1.0
      modifies host
      ensures var s := Summarize(data, outlierFraction);
              host.files == old(host.files)[filePath := AppendRow(FileLines(old(host.files), filePath),
                                                                 StatsRow(statName, s.min, s.max, s.average))]
    {
      var min, max, average := CalculateStats(data);
      var lines := FileLines(host.files, filePath);
      if lines == [] {
        lines := HeaderLines;
      }
      host.files := host.files[filePath := lines + [StatsRow(statName, min, max, average)]];
    }

    /** The first of `name.txt`, `name_1.txt`, `name_2.txt`, ... that does not exist yet. */
    method GetLogFilePath(host: Host) returns (path: string)
      ensures path == FreeLogFile(host.files.Keys, LogDirectory(host.projectDir, host.today, folderName), fileName)
      ensures path !in host.files
    {
      var directory := LogDirectory(host.projectDir, host.today, folderName);
      path := Join(directory, fileName + ".txt");
      CandidateSpelling(directory, fileName, 0);
      var suffix := 1;
      ghost var remaining := host.files.Keys;
      while path in host.files
        invariant 1 <= suffix
        invariant path == Candidate(directory, fileName, suffix - 1)
        invariant forall j :: 0 <= j < suffix - 1 ==> Candidate(directory, fileName, j) in host.files
        invariant forall j :: suffix - 1 <= j && Candidate(directory, fileName, j) in host.files ==>
                    Candidate(directory, fileName, j) in remaining
        decreases |remaining|
      {
        PassOverCandidate(host.files.Keys, directory, fileName, suffix - 1, remaining);
        remaining := remaining - {path};
        path := Join(directory, fileName + "_" + Decimal(suffix) + ".txt");
        CandidateSpelling(directory, fileName, suffix);
        suffix := suffix + 1;
      }
      assert IsFirstFree(host.files.Keys, directory, fileName, suffix - 1);
      FirstFreeUnique(host.files.Keys, directory, fileName, suffix - 1, FirstFreeSuffix(host.files.Keys, directory, fileName));
    }
  }
}
