/** The git-log parser: turns the lines printed by
    `git log --pretty=format:%H|%an|%ad --numstat` into rows
    `(commit, author, date, file, added, removed)`.

    A line is blank, a metadata line `hash|author|date`, a file-stat line
    `added<TAB>removed<TAB>path`, or something else that is ignored. The
    parser keeps the commit, author and date of the latest metadata line and
    writes one row per file-stat line whose two counts are integers. */
module GitLog {
  import opened Wrappers
  import opened PyStr
  import PyInt

  const METADATA_SEPARATOR: char := '|'
  const FILE_INFO_SEPARATOR: char := '\t'

  /** `datetime.fromisoformat(s).isoformat()`, supplied by the caller:
      `None` stands for the `ValueError` raised on a malformed date. */
  type Normalizer = string -> Option<string>

  /** `split_line`: the stripped line cut at every occurrence of `separator`. */
  function SplitLine(line: string, separator: char): (parts: seq<string>)
    ensures |parts| == Count(Strip(line), separator) + 1
  {
    Split(Strip(line), separator)
  }

  /** `is_line_empty` */
  predicate IsLineEmpty(line: string) {
    Strip(line) == []
  }

  /** `is_line_with_file_info` */
  predicate IsLineWithFileInfo(line: string) {
    FILE_INFO_SEPARATOR in line && |SplitLine(line, FILE_INFO_SEPARATOR)| == 3
  }

  /** `is_line_with_date_info` */
  predicate IsLineWithDateInfo(line: string) {
    METADATA_SEPARATOR in line
    && FILE_INFO_SEPARATOR !in line
    && |SplitLine(line, METADATA_SEPARATOR)| == 3
  }

  datatype Metadata = Metadata(commit: string, author: string, date: string)

  /** `process_metadata_line`: the commit hash and the author verbatim, and
      the normalised date; `None` when the date does not parse. */
  function ProcessMetadataLine(line: string, normalize: Normalizer): (r: Option<Metadata>)
    requires |SplitLine(line, METADATA_SEPARATOR)| >= 3
    ensures r.None? <==> normalize(SplitLine(line, METADATA_SEPARATOR)[2]).None?
  {
    var parts := SplitLine(line, METADATA_SEPARATOR);
    match normalize(parts[2])
    case None => None
    case Some(date) => Some(Metadata(parts[0], parts[1], date))
  }

  datatype FileChange = FileChange(added: int, removed: int, path: string)

  /** `process_file_line`: the two counts read by `int()` and the path
      verbatim; `None` when either count is not an integer, which is how
      git marks a binary file (`-`). */
  function ProcessFileLine(line: string): (r: Option<FileChange>)
    requires |SplitLine(line, FILE_INFO_SEPARATOR)| >= 3
    ensures r.None? <==>
      PyInt.ParseInt(SplitLine(line, FILE_INFO_SEPARATOR)[0]).None?
      || PyInt.ParseInt(SplitLine(line, FILE_INFO_SEPARATOR)[1]).None?
  {
    var parts := SplitLine(line, FILE_INFO_SEPARATOR);
    match (PyInt.ParseInt(parts[0]), PyInt.ParseInt(parts[1]))
    case (Some(added), Some(removed)) => Some(FileChange(added, removed, parts[2]))
    case _ => None
  }

  /** The parser's state: the latest metadata line's fields, all unset
      before the first one. */
  datatype State = State(commit: Option<string>, author: Option<string>, date: Option<string>)

  const Unset: State := State(None, None, None)

  function StateOf(m: Metadata): State {
    State(Some(m.commit), Some(m.author), Some(m.date))
  }

  /** One output row: the CSV columns commit, author, date, file, added, removed. */
  datatype Row = Row(commit: Option<string>, author: Option<string>, date: Option<string>,
                     file: string, added: int, removed: int)

  function RowOf(st: State, change: FileChange): Row {
    Row(st.commit, st.author, st.date, change.path, change.added, change.removed)
  }

  /** A line as `process_log` sees it, its tests taken in the source's
      order: blank, metadata (with its fields, or `None` when the date
      raised), file-stat (with its change, or `None` when a count is not an
      integer), or anything else. */
  datatype ParsedLine =
    | BlankLine
    | MetadataLine(metadata: Option<Metadata>)
    | FileStatLine(change: Option<FileChange>)
    | UnrecognizedLine

  /** The `if`/`elif` chain in the loop of `process_log`. */
  function ParseLine(line: string, normalize: Normalizer): ParsedLine {
    if IsLineEmpty(line) then BlankLine
    else if IsLineWithDateInfo(line) then MetadataLine(ProcessMetadataLine(line, normalize))
    else if IsLineWithFileInfo(line) then FileStatLine(ProcessFileLine(line))
    else UnrecognizedLine
  }

  /** Every line of a log, parsed. */
  function Parse(log: seq<string>, normalize: Normalizer): (parsed: seq<ParsedLine>)
    ensures |parsed| == |log|
  {
    seq(|log|, i requires 0 <= i < |log| => ParseLine(log[i], normalize))
  }

  /** What one line does to the state and to the output, or the uncaught
      `ValueError` of a malformed date. */
  datatype Transition = Next(state: State, emitted: seq<Row>) | Fatal

  /** One iteration of the loop of `process_log`. Only a metadata line can
      change the state or fail, and a line writes at most one row. */
  function Step(st: State, line: ParsedLine): (t: Transition)
    ensures t.Next? ==> |t.emitted| <= 1
    ensures (t.Fatal? || (t.Next? && t.state != st)) ==> line.MetadataLine?
    ensures t.Next? && t.emitted != [] ==> line.FileStatLine? && t.state == st
  {
    match line
    case MetadataLine(None) => Fatal
    case MetadataLine(Some(m)) => Next(StateOf(m), [])
    case FileStatLine(Some(change)) => Next(st, [RowOf(st, change)])
    case _ => Next(st, [])
  }

  /** The outcome of `process_log` on a log: the final state, the rows
      written, and the index of the line whose date raised, if one did. */
  datatype Trace = Trace(state: State, rows: seq<Row>, failedAt: Option<nat>)

  /** `process_log` after reading the first `n` parsed lines: the state
      starts unset, and once a date has raised nothing more happens. */
  function RunLines(parsed: seq<ParsedLine>, n: nat): (t: Trace)
    requires n <= |parsed|
    ensures |t.rows| <= n
    ensures t.failedAt.Some? ==> t.failedAt.value < n
    decreases n
  {
    if n == 0 then Trace(Unset, [], None)
    else
      var prev := RunLines(parsed, n - 1);
      if prev.failedAt.Some? then prev
      else
        match Step(prev.state, parsed[n - 1])
        case Fatal => Trace(prev.state, prev.rows, Some(n - 1))
        case Next(st, emitted) => Trace(st, prev.rows + emitted, None)
  }

  /** `process_log` on the whole of `log`. */
  function Run(log: seq<string>, normalize: Normalizer): Trace {
    RunLines(Parse(log, normalize), |log|)
  }

  // How one line read by `process_log` moves the run on, for each branch
  // of its `if`/`elif` chain, while no date has raised.

  /** A blank line changes nothing. */
  lemma BlankAt(log: seq<string>, i: nat, normalize: Normalizer)
    requires i < |log| && RunLines(Parse(log, normalize), i).failedAt == None
    requires IsLineEmpty(log[i])
    ensures RunLines(Parse(log, normalize), i + 1) == RunLines(Parse(log, normalize), i)
  {
    assert Parse(log, normalize)[i] == BlankLine;
  }

  /** A metadata line replaces the state, or raises on its date. */
  lemma DateAt(log: seq<string>, i: nat, normalize: Normalizer)
    requires i < |log| && RunLines(Parse(log, normalize), i).failedAt == None
    requires !IsLineEmpty(log[i]) && IsLineWithDateInfo(log[i])
    ensures RunLines(Parse(log, normalize), i + 1) ==
      match ProcessMetadataLine(log[i], normalize)
      case None => Trace(RunLines(Parse(log, normalize), i).state, RunLines(Parse(log, normalize), i).rows, Some(i))
      case Some(m) => Trace(StateOf(m), RunLines(Parse(log, normalize), i).rows, None)
  {
    assert Parse(log, normalize)[i] == MetadataLine(ProcessMetadataLine(log[i], normalize));
  }

  /** A file-stat line with integer counts appends one row. */
  lemma FileAt(log: seq<string>, i: nat, normalize: Normalizer)
    requires i < |log| && RunLines(Parse(log, normalize), i).failedAt == None
    requires !IsLineEmpty(log[i]) && !IsLineWithDateInfo(log[i]) && IsLineWithFileInfo(log[i])
    ensures RunLines(Parse(log, normalize), i + 1) ==
      match ProcessFileLine(log[i])
      case None => RunLines(Parse(log, normalize), i)
      case Some(c) =>
        Trace(RunLines(Parse(log, normalize), i).state, RunLines(Parse(log, normalize), i).rows + [RowOf(RunLines(Parse(log, normalize), i).state, c)], None)
  {
    assert Parse(log, normalize)[i] == FileStatLine(ProcessFileLine(log[i]));
  }

  /** Any other line changes nothing. */
  lemma OtherAt(log: seq<string>, i: nat, normalize: Normalizer)
    requires i < |log| && RunLines(Parse(log, normalize), i).failedAt == None
    requires !IsLineEmpty(log[i]) && !IsLineWithDateInfo(log[i]) && !IsLineWithFileInfo(log[i])
    ensures RunLines(Parse(log, normalize), i + 1) == RunLines(Parse(log, normalize), i)
  {
    assert Parse(log, normalize)[i] == UnrecognizedLine;
  }

  /** After a date has raised, further lines change nothing. */
  lemma {:induction false} FailureIsFinal(parsed: seq<ParsedLine>, i: nat, n: nat)
    requires i <= n <= |parsed|
    requires RunLines(parsed, i).failedAt.Some?
    ensures RunLines(parsed, n) == RunLines(parsed, i)
    decreases n
  {
    if i < n {
      FailureIsFinal(parsed, i, n - 1);
    }
  }

  /** `process_log(log, writer)`: `written` is what it writes to `writer`,
      one row per file-stat line with integer counts, carrying the latest
      commit, author and date. `failedAt` is the index of the metadata line
      whose date raised; the rows written before it stay written. */
  method ProcessLog(log: seq<string>, normalize: Normalizer)
    returns (written: seq<Row>, failedAt: Option<nat>)
    ensures written == Run(log, normalize).rows
    ensures failedAt == Run(log, normalize).failedAt
  {
    ghost var parsed := Parse(log, normalize);
    var currentCommit: Option<string>, currentAuthor: Option<string>, currentDate: Option<string>
      := None, None, None;
    written := [];
    failedAt := None;
    for i := 0 to |log|
      invariant RunLines(parsed, i).failedAt == None
      invariant RunLines(parsed, i).state == State(currentCommit, currentAuthor, currentDate)
      invariant written == RunLines(parsed, i).rows
    {
      var line := log[i];
      if IsLineEmpty(line) {
        BlankAt(log, i, normalize);
        continue;
      } else if IsLineWithDateInfo(line) {
        var metadata := ProcessMetadataLine(line, normalize);
        DateAt(log, i, normalize);
        if metadata.None? {
          failedAt := Some(i);
          FailureIsFinal(parsed, i + 1, |log|);
          assert RunLines(parsed, |log|).failedAt == Some(i);
          return;
        }
        currentCommit, currentAuthor, currentDate :=
          Some(metadata.value.commit), Some(metadata.value.author), Some(metadata.value.date);
      } else if IsLineWithFileInfo(line) {
        var change := ProcessFileLine(line);
        FileAt(log, i, normalize);
        if change.Some? {
          written := written + [Row(currentCommit, currentAuthor, currentDate,
                                    change.value.path, change.value.added, change.value.removed)];
        }
      } else {
        OtherAt(log, i, normalize);
      }
    }
  }
}
