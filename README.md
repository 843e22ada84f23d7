# git-log parser: a Dafny model

This project models the parser at the heart of `git.py`. The parser reads the
output of `git log --pretty=format:%H|%an|%ad --numstat` line by line and
writes one CSV row `commit, author, date, file, added, removed` for every
file-stat line whose counts are integers. Each row carries the commit, author
and date of the latest metadata line before it.

Modules:

- `Wrappers` (`wrappers.dfy`): the `Option` datatype. `None` stands for
  Python's `None` and for a `ValueError`.
- `PyStr` (`pystr.dfy`): the parts of Python's `str` that the parser relies
  on. These are `strip()` with the full `isspace()` set, `split(sep)` and
  `sep.join`. Lemmas prove that `split` and `join` are inverse to each other.
- `PyInt` (`pyint.dfy`): `int(s)` on ASCII text. It allows surrounding
  whitespace, a sign and `_` digit grouping. Lemmas prove that `int(str(n))
  == n` and that git's `-` binary marker is not a number.
- `GitLog` (`git_log.dfy`) has the following parts:
  - the two separators and the three line classifiers
  - `process_metadata_line` and `process_file_line`
  - a reference semantics for `process_log`: `ParseLine`, `Step` and `RunLines`
  - the method `ProcessLog`, which has the source's loop and mutable
    variables and is proved equal to that reference semantics
- `GitLogProperties` (`git_log_props.dfy`): what the parser guarantees. It
  covers the shapes the classifiers accept, the round trips of the two line
  parsers, and, for whole logs, which lines give rows, in what order, with
  which commit data, and where a bad date stops the run.
- `GitLogScenarios` (`git_log_scenarios.dfy`): what `Run` gives on whole
  logs of the shapes git prints, proved for arbitrary hashes, authors,
  dates, counts and paths. The line builders `MetaText`, `StatText` and
  `BinaryText` are defined once in `GitLogProperties`.

`datetime.fromisoformat(s).isoformat()` is a parameter `normalize: string ->
Option<string>`, where `None` stands for the `ValueError` it raises. That error
is not caught in `process_log`. `ProcessLog` therefore returns `failedAt`, the
index of the line that raised. The rows written before that line stay written.

Behaviour of the source that the model keeps:

- A file-stat line before any metadata line still writes a row, with commit,
  author and date all `None` (`RowsBeforeMetadataAreUnset`,
  `StatsBeforeAnyCommit`).
- `split_line` cuts at every tab, not only at the first two. A path that holds
  a tab gives more than three fields, so the line is ignored
  (`TabInPathIgnored`).
- A tab-bearing line whose split does not give three fields is ignored.
  However, a line of nothing but whitespace, tabs included, is checked first
  by `is_line_empty` (git.py:29) and counts as blank (`TabLine`).
- `int()` accepts a sign, so counts such as `-5` are accepted, not only
  non-negative ones (`PyInt.DecimalRoundTrip`).

## Model

| member | source | states |
|---|---|---|
| PyStr.Strip | git.py:61 | `str.strip()`: drops leading and trailing `isspace()` characters and is never longer than its input; StripCharsSlice and StripEmptyIffAllSpace state its meaning |
| PyStr.Split | git.py:61 | `str.split(sep)`: one piece more than there are separators; JoinSplit, SplitJoin and SplitPiecesAvoidSeparator state its meaning |
| PyStr.Join | git.py:61 | `sep.join(parts)`: the partner of `Split`; JoinSplit and SplitJoin prove the two inverse to each other |
| GitLog.SplitLine | git.py:60-61 | the stripped line splits into one piece more than it has occurrences of the separator |
| GitLogProperties.SplitLineRoundTrip | git.py:60-61 | joining the pieces with the separator gives back the stripped line; no piece holds the separator; a non-whitespace separator can be counted on the raw line |
| PyStr.JoinSplit | git.py:61 | `sep.join(s.split(sep)) == s` for every string |
| PyStr.SplitJoin | git.py:61 | `sep.join(parts).split(sep) == parts` for every non-empty list of separator-free pieces |
| GitLog.IsLineEmpty | git.py:75-76 | predicate `not line.strip()`; BlankLineShape states its meaning |
| GitLogProperties.BlankLineShape | git.py:75-76 | `is_line_empty` holds exactly for empty and all-whitespace lines, and such a line is classified blank before any other test |
| GitLog.IsLineWithDateInfo | git.py:69-72 | predicate: a `\|`, no tab, and three `\|`-fields; DateInfoShape states its meaning |
| GitLogProperties.DateInfoShape | git.py:69-72 | a line is a metadata line exactly when it has no tab and exactly two `\|` |
| GitLog.IsLineWithFileInfo | git.py:64-66 | predicate: a tab and three tab-fields; TabLine and TabInPathIgnored state its meaning |
| GitLogProperties.TabLine | git.py:64-72 | a line holding a tab is never metadata; it is a file-stat line exactly when its stripped form holds two tabs, and otherwise it is blank or ignored |
| GitLogProperties.TabInPathIgnored | git.py:60-66 | `added TAB removed TAB path` with a tab inside the path is ignored, because the split gives more than three fields |
| GitLog.ProcessMetadataLine | git.py:39-45 | the result is an error exactly when the third field's date does not parse |
| GitLogProperties.MetadataLineFields | git.py:39-43 | the commit and author are passed through verbatim: the stripped line starts with `commit\|author\|`, and neither field holds a `\|` |
| GitLogProperties.MetadataLineRoundTrip | git.py:39-45 | `hash\|author\|date` is a metadata line that yields the hash, the author and `normalize(date)`, or the date's error |
| GitLog.ProcessFileLine | git.py:48-57 | the result is "no counts" exactly when `int()` rejects the first or the second field |
| GitLogProperties.FileLineRoundTrip | git.py:48-55 | `str(added) TAB str(removed) TAB path` is a file-stat line that yields `added`, `removed` and `path` exactly |
| GitLogProperties.BinaryMarkerSkipped | git.py:48-57 | git's binary line `- TAB - TAB path` is a file-stat line whose counts do not parse, so it yields no change |
| PyInt.ParseInt | git.py:52-53 | `int(s)` on ASCII text, `None` for `ValueError`; DecimalRoundTrip and SignAloneIsNotANumber state its meaning |
| PyInt.DecimalRoundTrip | git.py:52-53 | `int(str(n)) == n` and `int("-" + str(n)) == -n` |
| PyInt.SignAloneIsNotANumber | git.py:52-57 | `int("-")` and `int("+")` raise `ValueError` |
| GitLog.ParseLine | git.py:29-34 | the `if`/`elif` chain: blank, then metadata, then file-stat, else ignored; BlankLineShape, TabLine, MetadataLineRoundTrip, FileLineRoundTrip and BinaryMarkerSkipped state what each kind of line parses to |
| GitLog.Step | git.py:28-36 | one iteration: only a metadata line changes the state or raises; a line writes at most one row, and only a file-stat line writes one, leaving the state as it was |
| GitLog.RunLines | git.py:26-36 | after `n` lines at most `n` rows have been written, and a failure points at one of those lines |
| GitLog.Run | git.py:26-36 | `process_log` on a whole log; ProcessLog is proved equal to it, and RunMatchesReference, StateIsLatestMetadata and FailureIsFirstBadDate state its meaning |
| GitLog.FailureIsFinal | git.py:31-32 | once a date has raised, later lines change nothing |
| GitLog.ProcessLog | git.py:26-36 | the loop writes exactly the rows of the reference run and stops at exactly the line where it raises |
| GitLogProperties.StateIsLatestMetadata | git.py:27-32 | while nothing has raised, the state holds the data of the latest metadata line, and is unset before the first |
| GitLogProperties.RunMatchesReference | git.py:26-36 | exactly one row per file-stat line with integer counts, in input order, each with that line's path and counts and the data of the latest metadata line before it |
| GitLogProperties.FailureIsFirstBadDate | git.py:31-32 | the run fails exactly when some metadata line's date does not parse; it fails at the first such line and keeps the rows written before it |
| GitLogProperties.RowsOnlyAppended | git.py:36 | the rows written after `i` lines are a prefix of those written after any `n >= i` lines |
| GitLogProperties.RunSnoc | git.py:28-36 | the outcome on a log plus one more line is the outcome on the log followed by that line's step |
| GitLogProperties.RowsBeforeMetadataAreUnset | git.py:27-36 | with no metadata line, the run cannot fail and writes one row per countable line, each with commit, author and date unset |
| GitLogScenarios.OneCommit | git.py:26-36 | a commit line and two text-file lines give two rows with that commit's data, in order |
| GitLogScenarios.TwoCommits | git.py:26-36 | two commits separated by a blank line give three rows, each with the data of its own commit, in order |
| GitLogScenarios.BinaryAmongTextFiles | git.py:33-36 | a binary line between two text-file lines writes no row, and the two rows keep their order |
| GitLogScenarios.StatsBeforeAnyCommit | git.py:27-36 | a file-stat line before any commit line writes a row with commit, author and date unset |
| GitLogScenarios.BadDateStops | git.py:31-32 | a commit line whose date does not parse stops the run there; earlier rows stay written and later lines are not read |

## Left out

- `git_log_to_csv`, `retrieve_git_log`, `get_repo_files` and
  `default_start_date` are left out. They run `git`, read the clock and
  open files, none of which has a model here. Because of this, the property
  that two files' rows come out back to back is not modelled either.
- CSV writing, including the header row and minimal quoting, is left out.
  `ProcessLog` returns the rows it passes to `writer.writerow`.
- GitLog.ProcessLog: `written` is only the rows written by this call. The
  rows already in `writer` are not modelled; `process_log` only appends to
  them.
- `datetime.fromisoformat(...).isoformat()` is a parameter, not a model of
  ISO-8601 parsing. Its idempotence is a property of `datetime` and is not
  stated.
- PyInt.ParseInt: `int()` is modelled for ASCII only. It does not model
  non-ASCII digits and whitespace, or CPython's limit of 4300 digits.
- GitLog.ProcessMetadataLine and GitLog.ProcessFileLine require a split of
  at least three fields. In `process_log` the classifiers always ensure
  this. With fewer fields, `process_metadata_line` raises `IndexError`.
  `process_file_line` returns `(None, None, None)` when a count that is
  present fails `int()` first, and raises `IndexError` otherwise. Neither
  case is modelled.
- `PyStr.IsSpace` covers the characters of `str.isspace()` as code points.
  Python's treatment of lone surrogates is not modelled.
