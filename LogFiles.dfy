/**
  The report files of the performance logger: the lines a report holds, the
  append that writes the header only into an empty file, and the naming of a
  new report file (`name.txt`, then `name_1.txt`, `name_2.txt`, ...) in
  `<project>/PerformanceLogs/<date>/<folder>/`.
 */
module LogFiles {

  /** One line of a report: a header line, or the statistics row of one metric. */
  datatype Line =
    | Text(text: string)
    | StatsRow(name: string, min: real, max: real, average: real)

  /** The two lines that start every report file. */
  const HeaderLines: seq<Line> := [
    Text("Stat Name              | Min       | Max       | Average"),
    Text("--------------------------------------------------------")
  ]

  /** The file system and the clock the logger sees. */
  class Host {
    const projectDir: string
    /** Today's date, as `%Y-%m-%d`. */
    const today: string
    /** The files that exist, each with its lines. */
    var files: map<string, seq<Line>>

    constructor (projectDir: string, today: string, files: map<string, seq<Line>>)
      ensures this.projectDir == projectDir && this.today == today && this.files == files
    {
      this.projectDir := projectDir;
      this.today := today;
      this.files := files;
    }
  }

  /** The lines of a file; a file that does not exist has none. */
  function FileLines(files: map<string, seq<Line>>, path: string): seq<Line>
  {
    if path in files then files[path] else []
  }

  /** Appending one row to a file: the header goes first only when the file is empty. */
  function AppendRow(lines: seq<Line>, row: Line): (r: seq<Line>)
    ensures lines == [] ==> r == HeaderLines + [row]
    ensures lines != [] ==> r == lines + [row]
  {
    (if lines == [] then HeaderLines else lines) + [row]
  }

  /** Appending several rows, one after the other. */
  function AppendRows(lines: seq<Line>, rows: seq<Line>): seq<Line>
    decreases |rows|
  {
    if rows == [] then lines else AppendRows(AppendRow(lines, rows[0]), rows[1..])
  }

  /** Rows appended to a file that already has lines go after them, with no second header. */
  lemma {:induction false} AppendRowsToNonEmpty(lines: seq<Line>, rows: seq<Line>)
    requires lines != []
    ensures AppendRows(lines, rows) == lines + rows
    decreases |rows|
  {
    if rows != [] {
      AppendRowsToNonEmpty(lines + [rows[0]], rows[1..]);
      assert lines + [rows[0]] + rows[1..] == lines + rows;
    }
  }

  /** Rows appended to an empty file: the header once, then the rows in order. */
  lemma AppendRowsToEmpty(rows: seq<Line>)
    requires rows != []
    ensures AppendRows([], rows) == HeaderLines + rows
  {
    AppendRowsToNonEmpty(HeaderLines + [rows[0]], rows[1..]);
    assert HeaderLines + [rows[0]] + rows[1..] == HeaderLines + rows;
  }

  /** `%d` of a non-negative number. */
  function DigitChar(d: nat): char
    requires d < 10
  {
    (48 + d) as char
  }

  function Decimal(n: nat): (s: string)
    ensures |s| >= 1
    ensures n >= 10 ==> |s| >= 2
  {
    if n < 10 then [DigitChar(n)] else Decimal(n / 10) + [DigitChar(n % 10)]
  }

  /** Different numbers print differently. */
  lemma {:induction false} DecimalInjective(a: nat, b: nat)
    requires Decimal(a) == Decimal(b)
    ensures a == b
  {
    var da, db := Decimal(a), Decimal(b);
    if a < 10 {
      assert |da| == 1;
      assert b < 10;
      assert da[0] == DigitChar(a) && db[0] == DigitChar(b);
    } else {
      assert b >= 10;
      assert da[|da| - 1] == DigitChar(a % 10) && db[|db| - 1] == DigitChar(b % 10);
      assert da[..|da| - 1] == Decimal(a / 10) && db[..|db| - 1] == Decimal(b / 10);
      DecimalInjective(a / 10, b / 10);
    }
  }

  /** `FPaths` joining: `a / b`. */
  function Join(dir: string, name: string): string
  {
    dir + "/" + name
  }

  /** `<project>/PerformanceLogs/<date>/<folder>`. */
  function LogDirectory(projectDir: string, date: string, folder: string): (dir: string)
    ensures |dir| == |projectDir| + |date| + |folder| + 18
    ensures dir[..|projectDir| + 17] == projectDir + "/PerformanceLogs/"
    ensures dir[|projectDir| + 17..|projectDir| + 17 + |date|] == date
    ensures dir[|dir| - |folder| - 1..] == "/" + folder
  {
    Join(Join(Join(projectDir, "PerformanceLogs"), date), folder)
  }

  /** What follows the base name: nothing for the first candidate, `_<k>` for the k-th retry. */
  function SuffixText(k: nat): string
  {
    if k == 0 then "" else "_" + Decimal(k)
  }

  /** The k-th file name tried for a report: `name.txt`, `name_1.txt`, `name_2.txt`, ... */
  function Candidate(dir: string, name: string, k: nat): (path: string)
    ensures |path| > |dir| + |name| + 4
    ensures path[..|dir| + 1] == dir + "/"
    ensures path[|dir| + 1..|dir| + 1 + |name|] == name
    ensures path[|path| - 4..] == ".txt"
  {
    Join(dir, name + SuffixText(k) + ".txt")
  }

  /** A common prefix and a common ending cancel. */
  lemma CancelAffixes(prefix: string, x: string, y: string, ending: string)
    requires prefix + x + ending == prefix + y + ending
    ensures x == y
  {
    var s, t := prefix + x + ending, prefix + y + ending;
    assert |x| == |y|;
    assert s[|prefix|..|prefix| + |x|] == x;
    assert t[|prefix|..|prefix| + |y|] == y;
  }

  /** Different suffixes read differently. */
  lemma SuffixTextInjective(j: nat, k: nat)
    requires SuffixText(j) == SuffixText(k)
    ensures j == k
  {
    if j != 0 && k != 0 {
      assert SuffixText(j)[1..] == Decimal(j);
      assert SuffixText(k)[1..] == Decimal(k);
      DecimalInjective(j, k);
    } else {
      assert |SuffixText(j)| == 0 <==> j == 0;
      assert |SuffixText(k)| == 0 <==> k == 0;
    }
  }

  /** The first candidate carries no suffix; a retry k carries `_k`. */
  lemma CandidateSpelling(dir: string, name: string, k: nat)
    ensures k == 0 ==> Candidate(dir, name, k) == Join(dir, name + ".txt")
    ensures k > 0 ==> Candidate(dir, name, k) == Join(dir, name + "_" + Decimal(k) + ".txt")
  {
    if k == 0 {
      assert name + SuffixText(k) + ".txt" == name + ".txt";
    } else {
      assert name + SuffixText(k) + ".txt" == name + "_" + Decimal(k) + ".txt";
    }
  }

  /** A candidate is the directory and base name, then the suffix, then `.txt`. */
  lemma CandidateParts(dir: string, name: string, k: nat)
    ensures Candidate(dir, name, k) == (dir + "/" + name) + SuffixText(k) + ".txt"
  {
  }

  /** Different retries name different files. */
  lemma CandidateInjective(dir: string, name: string, j: nat, k: nat)
    requires Candidate(dir, name, j) == Candidate(dir, name, k)
    ensures j == k
  {
    CandidateParts(dir, name, j);
    CandidateParts(dir, name, k);
    CancelAffixes(dir + "/" + name, SuffixText(j), SuffixText(k), ".txt");
    SuffixTextInjective(j, k);
  }

  /** Suffix k is the first whose file does not exist yet. */
  ghost predicate IsFirstFree(existing: set<string>, dir: string, name: string, k: nat)
  {
    && Candidate(dir, name, k) !in existing
    && forall j :: 0 <= j < k ==> Candidate(dir, name, j) in existing
  }

  /**
    Among finitely many existing files some candidate from k on is free; `remaining`
    holds the existing files not yet passed over, and shrinks with every retry.
   */
  lemma {:induction false} FirstFreeExists(existing: set<string>, dir: string, name: string, k: nat, remaining: set<string>)
    requires forall j :: 0 <= j < k ==> Candidate(dir, name, j) in existing
    requires forall j :: k <= j && Candidate(dir, name, j) in existing ==> Candidate(dir, name, j) in remaining
    ensures exists m :: k <= m && IsFirstFree(existing, dir, name, m)
    decreases |remaining|
  {
    var c := Candidate(dir, name, k);
    if c !in existing {
      assert IsFirstFree(existing, dir, name, k);
    } else {
      PassOverCandidate(existing, dir, name, k, remaining);
      FirstFreeExists(existing, dir, name, k + 1, remaining - {c});
    }
  }

  /** Passing over candidate k leaves every later existing candidate among the rest. */
  lemma PassOverCandidate(existing: set<string>, dir: string, name: string, k: nat, remaining: set<string>)
    requires forall j :: k <= j && Candidate(dir, name, j) in existing ==> Candidate(dir, name, j) in remaining
    ensures forall j :: k + 1 <= j && Candidate(dir, name, j) in existing ==>
              Candidate(dir, name, j) in remaining - {Candidate(dir, name, k)}
  {
    forall j | k + 1 <= j && Candidate(dir, name, j) in existing
      ensures Candidate(dir, name, j) in remaining - {Candidate(dir, name, k)}
    {
      if Candidate(dir, name, j) == Candidate(dir, name, k) {
        CandidateInjective(dir, name, j, k);
      }
    }
  }

  /** At most one suffix is the first free one. */
  lemma FirstFreeUnique(existing: set<string>, dir: string, name: string, j: nat, k: nat)
    requires IsFirstFree(existing, dir, name, j)
    requires IsFirstFree(existing, dir, name, k)
    ensures j == k
  {
  }

  /** The suffix of the file a new report goes to. */
  ghost function FirstFreeSuffix(existing: set<string>, dir: string, name: string): (k: nat)
    ensures IsFirstFree(existing, dir, name, k)
  {
    FirstFreeExists(existing, dir, name, 0, existing);
    var k :| IsFirstFree(existing, dir, name, k); k
  }

  /** The file a new report goes to: the first candidate that does not exist. */
  ghost function FreeLogFile(existing: set<string>, dir: string, name: string): (path: string)
    ensures path !in existing
  {
    Candidate(dir, name, FirstFreeSuffix(existing, dir, name))
  }

  /** Two reports of the same subject on the same day go to `name.txt` and `name_1.txt`. */
  lemma TwoReportsTwoFiles(existing: set<string>, dir: string, name: string)
    requires Candidate(dir, name, 0) !in existing
    requires Candidate(dir, name, 1) !in existing
    ensures FreeLogFile(existing, dir, name) == Join(dir, name + ".txt")
    ensures FreeLogFile(existing + {FreeLogFile(existing, dir, name)}, dir, name) == Join(dir, name + "_1.txt")
  {
    assert IsFirstFree(existing, dir, name, 0);
    FirstFreeUnique(existing, dir, name, 0, FirstFreeSuffix(existing, dir, name));
    var after := existing + {Candidate(dir, name, 0)};
    assert Candidate(dir, name, 1) != Candidate(dir, name, 0) by {
      if Candidate(dir, name, 1) == Candidate(dir, name, 0) { CandidateInjective(dir, name, 1, 0); }
    }
    assert IsFirstFree(after, dir, name, 1);
    FirstFreeUnique(after, dir, name, 1, FirstFreeSuffix(after, dir, name));
    CandidateSpelling(dir, name, 0);
    CandidateSpelling(dir, name, 1);
    assert Decimal(1) == "1";
  }
}
