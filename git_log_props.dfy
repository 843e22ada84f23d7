/** What the git-log parser guarantees: the shapes its classifier accepts,
    the round trips of its two line parsers, and, for `process_log`, which
    lines give rows, in what order and with which commit data. */
module GitLogProperties {
  import opened Wrappers
  import opened PyStr
  import PyInt
  import opened GitLog

  // ---------------------------------------------------------------------
  // Splitting and classifying one line
  // ---------------------------------------------------------------------

  /** `split_line` cuts the stripped line at every occurrence of the
      separator: one piece more than there are occurrences, no piece holds
      the separator, and joining the pieces back gives the stripped line.
      A separator that is not whitespace survives stripping, so its count
      can be taken on the raw line. */
  lemma SplitLineRoundTrip(line: string, separator: char)
    ensures Join(SplitLine(line, separator), separator) == Strip(line)
    ensures forall k :: 0 <= k < |SplitLine(line, separator)| ==> separator !in SplitLine(line, separator)[k]
    ensures !IsSpace(separator) ==> |SplitLine(line, separator)| == Count(line, separator) + 1
  {
    JoinSplit(Strip(line), separator);
    SplitPiecesAvoidSeparator(Strip(line), separator);
    if !IsSpace(separator) {
      StripKeepsCount(line, separator);
    }
  }

  /** `is_line_empty` holds exactly for empty and all-whitespace lines,
      and such a line is skipped before any other test. */
  lemma BlankLineShape(line: string, normalize: Normalizer)
    ensures IsLineEmpty(line) <==> AllSpace(line)
    ensures AllSpace(line) <==> ParseLine(line, normalize) == BlankLine
  {
    StripEmptyIffAllSpace(line);
  }

  /** A metadata line is one with no tab and exactly two `|`, so that it
      splits into exactly three fields. */
  lemma DateInfoShape(line: string)
    ensures IsLineWithDateInfo(line) <==> Count(line, METADATA_SEPARATOR) == 2 && FILE_INFO_SEPARATOR !in line
  {
    SplitLineRoundTrip(line, METADATA_SEPARATOR);
    if Count(line, METADATA_SEPARATOR) == 2 {
      assert METADATA_SEPARATOR in multiset(line);
    }
  }

  /** A line holding a tab is never taken as metadata, even with `|` in
      it. It is a file-stat line exactly when its stripped form has two
      tabs; with any other tab count it is ignored (a line of nothing but
      whitespace, tabs included, is blank). */
  lemma TabLine(line: string, normalize: Normalizer)
    requires FILE_INFO_SEPARATOR in line
    ensures !ParseLine(line, normalize).MetadataLine?
    ensures ParseLine(line, normalize).FileStatLine? <==> Count(Strip(line), FILE_INFO_SEPARATOR) == 2
    ensures !ParseLine(line, normalize).FileStatLine? ==>
      ParseLine(line, normalize) == BlankLine || ParseLine(line, normalize) == UnrecognizedLine
  {
    if Count(Strip(line), FILE_INFO_SEPARATOR) == 2 {
      assert Strip(line) != [];
    }
  }

  // ---------------------------------------------------------------------
  // The two line parsers
  // ---------------------------------------------------------------------

  /** `process_metadata_line` passes fields 0 and 1 through verbatim: the
      stripped line starts with `commit|author|`, neither holding a `|`. */
  lemma MetadataLineFields(line: string, normalize: Normalizer)
    requires |SplitLine(line, METADATA_SEPARATOR)| >= 3
    ensures var r := ProcessMetadataLine(line, normalize);
      r.Some? ==>
        METADATA_SEPARATOR !in r.value.commit && METADATA_SEPARATOR !in r.value.author
        && r.value.commit + [METADATA_SEPARATOR] + r.value.author + [METADATA_SEPARATOR] <= Strip(line)
  {
    var parts := SplitLine(line, METADATA_SEPARATOR);
    SplitLineRoundTrip(line, METADATA_SEPARATOR);
    assert Join(parts, METADATA_SEPARATOR)
        == parts[0] + [METADATA_SEPARATOR] + (parts[1] + [METADATA_SEPARATOR] + Join(parts[2..], METADATA_SEPARATOR));
  }

  /** The metadata line git prints for `--pretty=format:%H|%an|%ad`. */
  function MetaText(hash: string, author: string, date: string): string {
    hash + [METADATA_SEPARATOR] + author + [METADATA_SEPARATOR] + date
  }

  /** The `--numstat` line git prints for a text file. */
  function StatText(added: nat, removed: nat, path: string): string {
    PyInt.Decimal(added) + [FILE_INFO_SEPARATOR] + PyInt.Decimal(removed) + [FILE_INFO_SEPARATOR] + path
  }

  /** The `--numstat` line git prints for a binary file. */
  function BinaryText(path: string): string {
    "-" + [FILE_INFO_SEPARATOR] + "-" + [FILE_INFO_SEPARATOR] + path
  }

  /** A line `hash|author|date` is a metadata line; it yields the hash and
      the author verbatim and the normalised date, or the date's error. */
  lemma MetadataLineRoundTrip(hash: string, author: string, date: string, normalize: Normalizer)
    requires METADATA_SEPARATOR !in hash + author + date && FILE_INFO_SEPARATOR !in hash + author + date
    requires hash != [] ==> !IsSpace(hash[0])
    requires date != [] ==> !IsSpace(date[|date| - 1])
    ensures ParseLine(MetaText(hash, author, date), normalize) ==
        MetadataLine(match normalize(date)
                     case None => None
                     case Some(d) => Some(Metadata(hash, author, d)))
  {
    var line := hash + [METADATA_SEPARATOR] + author + [METADATA_SEPARATOR] + date;
    SeparatorsOfFields(hash, author, date);
    ThreeFieldsUnstripped(hash, author, date, METADATA_SEPARATOR);
    SplitsInThree(hash, author, date, METADATA_SEPARATOR);
    assert line[|hash|] == METADATA_SEPARATOR;
  }

  /** Helper: fields free of both separators, joined by `|`, give a line
      with no tab and no `|` inside any field. */
  lemma SeparatorsOfFields(hash: string, author: string, date: string)
    requires METADATA_SEPARATOR !in hash + author + date && FILE_INFO_SEPARATOR !in hash + author + date
    ensures METADATA_SEPARATOR !in hash && METADATA_SEPARATOR !in author && METADATA_SEPARATOR !in date
    ensures FILE_INFO_SEPARATOR !in hash + [METADATA_SEPARATOR] + author + [METADATA_SEPARATOR] + date
  {
    var line := hash + [METADATA_SEPARATOR] + author + [METADATA_SEPARATOR] + date;
    assert multiset(hash + author + date) == multiset(hash) + multiset(author) + multiset(date);
    assert multiset(line) == multiset(hash) + multiset(author) + multiset(date)
      + multiset{METADATA_SEPARATOR, METADATA_SEPARATOR};
  }

  /** The line `added<TAB>removed<TAB>path` that git prints for a text
      file is a file-stat line and gives back the two counts and the path
      verbatim. */
  lemma FileLineRoundTrip(added: nat, removed: nat, path: string, normalize: Normalizer)
    requires FILE_INFO_SEPARATOR !in path
    requires path != [] && !IsSpace(path[|path| - 1])
    ensures ParseLine(StatText(added, removed, path), normalize) == FileStatLine(Some(FileChange(added, removed, path)))
  {
    var a, r := PyInt.Decimal(added), PyInt.Decimal(removed);
    StatLineSplits(a, r, path, normalize);
    PyInt.DecimalRoundTrip(added);
    PyInt.DecimalRoundTrip(removed);
  }

  /** git prints `-` for both counts of a binary file: the line is a
      file-stat line whose counts do not parse, so it writes no row. */
  lemma BinaryMarkerSkipped(path: string, normalize: Normalizer)
    requires FILE_INFO_SEPARATOR !in path
    requires path != [] && !IsSpace(path[|path| - 1])
    ensures ParseLine(BinaryText(path), normalize) == FileStatLine(None)
  {
    StatLineSplits("-", "-", path, normalize);
    PyInt.SignAloneIsNotANumber();
  }

  /** Every tab cuts, so a path holding a tab gives more than three fields:
      the line is ignored, whatever its counts. */
  lemma TabInPathIgnored(added: nat, removed: nat, path: string, normalize: Normalizer)
    requires FILE_INFO_SEPARATOR in path
    requires !IsSpace(path[|path| - 1])
    ensures ParseLine(StatText(added, removed, path), normalize) == UnrecognizedLine
  {
    var a, r := PyInt.Decimal(added), PyInt.Decimal(removed);
    assert PyInt.IsDigit(a[0]);
    assert FILE_INFO_SEPARATOR !in a && FILE_INFO_SEPARATOR !in r;
    ExtraTabIgnored(a, r, path, normalize);
  }

  /** Helper: two tab-free fields, the first not starting with whitespace,
      then a path that holds a tab and does not end with whitespace: more
      than two tabs, so the line is ignored. */
  lemma ExtraTabIgnored(a: string, r: string, path: string, normalize: Normalizer)
    requires a != [] && !IsSpace(a[0])
    requires FILE_INFO_SEPARATOR !in a && FILE_INFO_SEPARATOR !in r
    requires FILE_INFO_SEPARATOR in path && !IsSpace(path[|path| - 1])
    ensures ParseLine(a + [FILE_INFO_SEPARATOR] + r + [FILE_INFO_SEPARATOR] + path, normalize) == UnrecognizedLine
  {
    var line := a + [FILE_INFO_SEPARATOR] + r + [FILE_INFO_SEPARATOR] + path;
    ThreeFieldsUnstripped(a, r, path, FILE_INFO_SEPARATOR);
    assert Count(line, FILE_INFO_SEPARATOR) > 2 by {
      assert multiset(line) == multiset(a) + multiset(r) + multiset(path)
        + multiset{FILE_INFO_SEPARATOR, FILE_INFO_SEPARATOR};
    }
    assert line[|a|] == FILE_INFO_SEPARATOR;
    TabLine(line, normalize);
  }

  /** Helper: `x s y s z` with no whitespace at its ends is its own strip. */
  lemma ThreeFieldsUnstripped(x: string, y: string, z: string, sep: char)
    requires if x == [] then !IsSpace(sep) else !IsSpace(x[0])
    requires if z == [] then !IsSpace(sep) else !IsSpace(z[|z| - 1])
    ensures Strip(x + [sep] + y + [sep] + z) == x + [sep] + y + [sep] + z
  {
    var line := x + [sep] + y + [sep] + z;
    assert line[0] == if x == [] then sep else x[0];
    assert line[|line| - 1] == if z == [] then sep else z[|z| - 1];
    StripCharsUnchanged(line, IsSpace);
  }

  /** Helper: `x s y s z`, with no `s` in the three fields and no
      whitespace at its ends, splits on `s` into exactly `[x, y, z]`. */
  lemma SplitsInThree(x: string, y: string, z: string, sep: char)
    requires sep !in x && sep !in y && sep !in z
    requires if x == [] then !IsSpace(sep) else !IsSpace(x[0])
    requires if z == [] then !IsSpace(sep) else !IsSpace(z[|z| - 1])
    ensures SplitLine(x + [sep] + y + [sep] + z, sep) == [x, y, z]
  {
    var line := x + [sep] + y + [sep] + z;
    var parts := [x, y, z];
    ThreeFieldsUnstripped(x, y, z, sep);
    assert Join(parts[1..], sep) == y + [sep] + z by {
      assert Join(parts[2..], sep) == z;
    }
    assert Join(parts, sep) == line;
    SplitJoin(parts, sep);
  }

  /** Helper: a line made of two tab-free count fields, the first not
      starting with whitespace, and a tab-free path not ending with it, is
      a file-stat line that splits into exactly those three fields. */
  lemma StatLineSplits(a: string, r: string, path: string, normalize: Normalizer)
    requires a != [] && !IsSpace(a[0])
    requires FILE_INFO_SEPARATOR !in a && FILE_INFO_SEPARATOR !in r && FILE_INFO_SEPARATOR !in path
    requires path != [] && !IsSpace(path[|path| - 1])
    ensures var line := a + [FILE_INFO_SEPARATOR] + r + [FILE_INFO_SEPARATOR] + path;
      SplitLine(line, FILE_INFO_SEPARATOR) == [a, r, path]
      && ParseLine(line, normalize) == FileStatLine(ProcessFileLine(line))
  {
    var line := a + [FILE_INFO_SEPARATOR] + r + [FILE_INFO_SEPARATOR] + path;
    ThreeFieldsUnstripped(a, r, path, FILE_INFO_SEPARATOR);
    SplitsInThree(a, r, path, FILE_INFO_SEPARATOR);
    assert line[|a|] == FILE_INFO_SEPARATOR;
    TabLine(line, normalize);
  }

  // ---------------------------------------------------------------------
  // process_log over a whole log
  // ---------------------------------------------------------------------

  /** A metadata line whose date raises. */
  predicate IsBadDate(p: ParsedLine) {
    p == MetadataLine(None)
  }

  /** A file-stat line whose two counts are integers: it writes a row. */
  predicate IsCountable(p: ParsedLine) {
    p.FileStatLine? && p.change.Some?
  }

  /** The index of the last metadata line among the first `n` lines. */
  function LastDateLine(parsed: seq<ParsedLine>, n: nat): (r: Option<nat>)
    requires n <= |parsed|
    ensures r.Some? ==> r.value < n && parsed[r.value].MetadataLine?
    decreases n
  {
    if n == 0 then None
    else if parsed[n - 1].MetadataLine? then Some(n - 1)
    else LastDateLine(parsed, n - 1)
  }

  /** The commit, author and date of the latest metadata line among the
      first `n` lines, all unset when there is none. */
  function StateAfter(parsed: seq<ParsedLine>, n: nat): State
    requires n <= |parsed|
  {
    match LastDateLine(parsed, n)
    case None => Unset
    case Some(k) =>
      match parsed[k].metadata
      case None => Unset
      case Some(m) => StateOf(m)
  }

  /** The indices of the countable lines among the first `n` lines, in
      increasing order. */
  function CountableIndices(parsed: seq<ParsedLine>, n: nat): (r: seq<nat>)
    requires n <= |parsed|
    ensures forall j :: 0 <= j < |r| ==> r[j] < n
    decreases n
  {
    if n == 0 then []
    else CountableIndices(parsed, n - 1) + (if IsCountable(parsed[n - 1]) then [n - 1] else [])
  }

  /** `CountableIndices` lists every countable line below `n`, and only
      those, in increasing order. */
  lemma CountableIndicesComplete(parsed: seq<ParsedLine>, n: nat)
    requires n <= |parsed|
    ensures forall j :: 0 <= j < |CountableIndices(parsed, n)| ==>
      IsCountable(parsed[CountableIndices(parsed, n)[j]])
    ensures forall j1, j2 :: 0 <= j1 < j2 < |CountableIndices(parsed, n)| ==>
      CountableIndices(parsed, n)[j1] < CountableIndices(parsed, n)[j2]
    ensures forall i :: 0 <= i < n && IsCountable(parsed[i]) ==> i in CountableIndices(parsed, n)
  {
    OnlyCountableListed(parsed, n);
    CountableListedInOrder(parsed, n);
    EveryCountableListed(parsed, n);
  }

  /** Helper: every listed line is countable. */
  lemma {:induction false} OnlyCountableListed(parsed: seq<ParsedLine>, n: nat)
    requires n <= |parsed|
    ensures forall j :: 0 <= j < |CountableIndices(parsed, n)| ==>
      IsCountable(parsed[CountableIndices(parsed, n)[j]])
    decreases n
  {
    if n > 0 {
      OnlyCountableListed(parsed, n - 1);
      var prev := CountableIndices(parsed, n - 1);
      var r := CountableIndices(parsed, n);
      forall j | 0 <= j < |r|
        ensures IsCountable(parsed[r[j]])
      {
        if j < |prev| {
          assert r[j] == prev[j];
        }
      }
    }
  }

  /** Helper: the listed lines come in increasing order. */
  lemma {:induction false} CountableListedInOrder(parsed: seq<ParsedLine>, n: nat)
    requires n <= |parsed|
    ensures forall j1, j2 :: 0 <= j1 < j2 < |CountableIndices(parsed, n)| ==>
      CountableIndices(parsed, n)[j1] < CountableIndices(parsed, n)[j2]
    decreases n
  {
    if n > 0 {
      CountableListedInOrder(parsed, n - 1);
      var prev := CountableIndices(parsed, n - 1);
      var r := CountableIndices(parsed, n);
      forall j1, j2 | 0 <= j1 < j2 < |r|
        ensures r[j1] < r[j2]
      {
        assert r[j1] == prev[j1];
        if j2 < |prev| {
          assert r[j2] == prev[j2];
        }
      }
    }
  }

  /** Helper: every countable line below `n` is listed. */
  lemma {:induction false} EveryCountableListed(parsed: seq<ParsedLine>, n: nat)
    requires n <= |parsed|
    ensures forall i :: 0 <= i < n && IsCountable(parsed[i]) ==> i in CountableIndices(parsed, n)
    decreases n
  {
    if n > 0 {
      EveryCountableListed(parsed, n - 1);
      var prev := CountableIndices(parsed, n - 1);
      var r := CountableIndices(parsed, n);
      assert prev <= r;
      assert IsCountable(parsed[n - 1]) ==> r[|prev|] == n - 1;
    }
  }

  /** The row that countable line `i` stands for: its path and counts,
      with the data of the latest metadata line before it. */
  function RowAt(parsed: seq<ParsedLine>, i: nat): Row
    requires i < |parsed| && IsCountable(parsed[i])
  {
    RowOf(StateAfter(parsed, i), parsed[i].change.value)
  }

  /** While no date has raised, `process_log` holds the data of the latest
      metadata line read, unset before the first. */
  lemma {:induction false} StateIsLatestMetadata(parsed: seq<ParsedLine>, n: nat)
    requires n <= |parsed|
    requires RunLines(parsed, n).failedAt == None
    ensures RunLines(parsed, n).state == StateAfter(parsed, n)
    decreases n
  {
    if n > 0 {
      assert RunLines(parsed, n - 1).failedAt == None;
      StateIsLatestMetadata(parsed, n - 1);
    }
  }

  /** While no date has raised, `process_log` has written exactly one row
      per countable line, in input order, each carrying the data of the
      latest metadata line before it (unset before the first). */
  lemma {:induction false} RunMatchesReference(parsed: seq<ParsedLine>, n: nat)
    requires n <= |parsed|
    requires RunLines(parsed, n).failedAt == None
    ensures |RunLines(parsed, n).rows| == |CountableIndices(parsed, n)|
    ensures forall j :: 0 <= j < |CountableIndices(parsed, n)| ==>
      IsCountable(parsed[CountableIndices(parsed, n)[j]])
      && RunLines(parsed, n).rows[j] == RowAt(parsed, CountableIndices(parsed, n)[j])
    decreases n
  {
    CountableIndicesComplete(parsed, n);
    if n > 0 {
      var prev := RunLines(parsed, n - 1);
      assert prev.failedAt == None;
      RunMatchesReference(parsed, n - 1);
      var p := parsed[n - 1];
      var rows := RunLines(parsed, n).rows;
      var indices := CountableIndices(parsed, n);
      var prevIndices := CountableIndices(parsed, n - 1);
      if IsCountable(p) {
        StateIsLatestMetadata(parsed, n - 1);
        assert rows == prev.rows + [RowOf(prev.state, p.change.value)];
        assert indices == prevIndices + [n - 1];
        forall j | 0 <= j < |indices|
          ensures rows[j] == RowAt(parsed, indices[j])
        {
          if j < |prevIndices| {
            assert rows[j] == prev.rows[j] && indices[j] == prevIndices[j];
          }
        }
      } else {
        assert rows == prev.rows;
        assert indices == prevIndices;
      }
    }
  }

  /** `process_log` raises at the first metadata line whose date does not
      parse, and only there; the rows written before it stay written. */
  lemma {:induction false} FailureIsFirstBadDate(parsed: seq<ParsedLine>, n: nat)
    requires n <= |parsed|
    ensures RunLines(parsed, n).failedAt.None? <==>
      forall i :: 0 <= i < n ==> !IsBadDate(parsed[i])
    ensures RunLines(parsed, n).failedAt.Some? ==>
      var k := RunLines(parsed, n).failedAt.value;
      IsBadDate(parsed[k])
      && (forall i :: 0 <= i < k ==> !IsBadDate(parsed[i]))
      && RunLines(parsed, n).rows == RunLines(parsed, k).rows
    decreases n
  {
    if n > 0 {
      FailureIsFirstBadDate(parsed, n - 1);
    }
  }

  /** Rows are only ever appended: what has been written after `i` lines
      is a prefix of what has been written after `n >= i` lines. */
  lemma {:induction false} RowsOnlyAppended(parsed: seq<ParsedLine>, i: nat, n: nat)
    requires i <= n <= |parsed|
    ensures RunLines(parsed, i).rows <= RunLines(parsed, n).rows
    decreases n
  {
    if i < n {
      RowsOnlyAppended(parsed, i, n - 1);
    }
  }

  /** `process_log` reads its input as a stream: its outcome on a log and
      one more line is its outcome on the log, followed by that line's
      step (nothing, once a date has raised). */
  lemma RunSnoc(log: seq<string>, line: string, normalize: Normalizer)
    ensures Run(log + [line], normalize) ==
      var prev := Run(log, normalize);
      if prev.failedAt.Some? then prev
      else match Step(prev.state, ParseLine(line, normalize))
           case Fatal => Trace(prev.state, prev.rows, Some(|log|))
           case Next(st, emitted) => Trace(st, prev.rows + emitted, None)
  {
    var a, b := Parse(log + [line], normalize), Parse(log, normalize);
    assert a[..|log|] == b;
    RunLinesPrefix(a, b, |log|);
  }

  /** The outcome after `n` lines depends on those lines only. */
  lemma {:induction false} RunLinesPrefix(a: seq<ParsedLine>, b: seq<ParsedLine>, n: nat)
    requires n <= |a| && n <= |b| && a[..n] == b[..n]
    ensures RunLines(a, n) == RunLines(b, n)
    decreases n
  {
    if n > 0 {
      assert a[..n - 1] == b[..n - 1];
      assert a[n - 1] == b[n - 1];
      RunLinesPrefix(a, b, n - 1);
    }
  }

  /** File-stat lines read before any metadata line still write rows, with
      commit, author and date unset: the state starts unset on every call. */
  lemma RowsBeforeMetadataAreUnset(log: seq<string>, normalize: Normalizer)
    requires forall i :: 0 <= i < |log| ==> !IsLineWithDateInfo(log[i])
    ensures Run(log, normalize).failedAt == None
    ensures |Run(log, normalize).rows| == |CountableIndices(Parse(log, normalize), |log|)|
    ensures forall j :: 0 <= j < |Run(log, normalize).rows| ==>
      var row := Run(log, normalize).rows[j];
      row.commit == None && row.author == None && row.date == None
  {
    var parsed := Parse(log, normalize);
    assert forall i :: 0 <= i < |log| ==> !parsed[i].MetadataLine?;
    FailureIsFirstBadDate(parsed, |log|);
    RunMatchesReference(parsed, |log|);
    forall j | 0 <= j < |Run(log, normalize).rows|
      ensures Run(log, normalize).rows[j].commit == None
      ensures Run(log, normalize).rows[j].author == None
      ensures Run(log, normalize).rows[j].date == None
    {
      var i := CountableIndices(parsed, |log|)[j];
      assert LastDateLine(parsed, i) == None by {
        NoDateLine(parsed, i);
      }
    }
  }

  /** Helper: with no metadata line among the first `n`, there is no last one. */
  lemma {:induction false} NoDateLine(parsed: seq<ParsedLine>, n: nat)
    requires n <= |parsed|
    requires forall i :: 0 <= i < n ==> !parsed[i].MetadataLine?
    ensures LastDateLine(parsed, n) == None
    decreases n
  {
    if n > 0 {
      NoDateLine(parsed, n - 1);
    }
  }
}
