/** What `Run` gives on whole logs, proved for arbitrary fields: one or two
    commits, a binary file among text files, file statistics before any
    commit line, and a commit line whose date does not parse. Hashes,
    authors, dates, counts and paths are arbitrary, within the shapes git
    prints. */
module GitLogScenarios {
  import opened Wrappers
  import opened PyStr
  import opened GitLog
  import opened GitLogProperties

  /** Commit fields as git prints them: no separator inside, no
      whitespace at the ends of the line. */
  predicate GoodMeta(hash: string, author: string, date: string) {
    METADATA_SEPARATOR !in hash + author + date && FILE_INFO_SEPARATOR !in hash + author + date
    && (hash != [] ==> !IsSpace(hash[0])) && (date != [] ==> !IsSpace(date[|date| - 1]))
  }

  /** A path as git prints it: no tab, not ending with whitespace. */
  predicate GoodPath(path: string) {
    FILE_INFO_SEPARATOR !in path && path != [] && !IsSpace(path[|path| - 1])
  }

  /** After a commit line, the state holds its hash, its author and its
      normalised date; a date that does not parse stops the run here. */
  lemma MetaStep(log: seq<string>, h: string, a: string, d: string, normalize: Normalizer)
    requires GoodMeta(h, a, d)
    requires Run(log, normalize).failedAt == None
    ensures Run(log + [MetaText(h, a, d)], normalize) ==
      if normalize(d).None? then Trace(Run(log, normalize).state, Run(log, normalize).rows, Some(|log|))
      else Trace(State(Some(h), Some(a), normalize(d)), Run(log, normalize).rows, None)
  {
    var line := MetaText(h, a, d);
    assert ParseLine(line, normalize) == MetadataLine(
      if normalize(d).None? then None else Some(Metadata(h, a, normalize(d).value)))
    by {
      MetadataLineRoundTrip(h, a, d, normalize);
    }
    RunSnoc(log, line, normalize);
  }

  /** A text file's line appends its row, with the current state. */
  lemma StatStep(log: seq<string>, n: nat, r: nat, p: string, normalize: Normalizer)
    requires GoodPath(p)
    requires Run(log, normalize).failedAt == None
    ensures Run(log + [StatText(n, r, p)], normalize) ==
      var prev := Run(log, normalize);
      Trace(prev.state, prev.rows + [Row(prev.state.commit, prev.state.author, prev.state.date, p, n, r)], None)
  {
    var line := StatText(n, r, p);
    assert ParseLine(line, normalize) == FileStatLine(Some(FileChange(n, r, p))) by {
      FileLineRoundTrip(n, r, p, normalize);
    }
    RunSnoc(log, line, normalize);
  }

  /** A binary file's line changes nothing. */
  lemma BinaryStep(log: seq<string>, p: string, normalize: Normalizer)
    requires GoodPath(p)
    ensures Run(log + [BinaryText(p)], normalize) == Run(log, normalize)
  {
    var line := BinaryText(p);
    assert ParseLine(line, normalize) == FileStatLine(None) by {
      BinaryMarkerSkipped(p, normalize);
    }
    RunSnoc(log, line, normalize);
  }

  /** A blank line changes nothing. */
  lemma BlankStep(log: seq<string>, normalize: Normalizer)
    ensures Run(log + [""], normalize) == Run(log, normalize)
  {
    assert ParseLine("", normalize) == BlankLine by {
      BlankLineShape("", normalize);
    }
    RunSnoc(log, "", normalize);
  }

  /** Two commits with a blank line between them: one row per text file,
      in input order, each with the data of its own commit. */
  lemma TwoCommits(normalize: Normalizer,
                   h1: string, a1: string, d1: string, h2: string, a2: string, d2: string,
                   n1: nat, r1: nat, p1: string, n2: nat, r2: nat, p2: string, n3: nat, r3: nat, p3: string)
    requires GoodMeta(h1, a1, d1) && GoodMeta(h2, a2, d2)
    requires GoodPath(p1) && GoodPath(p2) && GoodPath(p3)
    requires normalize(d1).Some? && normalize(d2).Some?
    ensures Run([MetaText(h1, a1, d1), StatText(n1, r1, p1), StatText(n2, r2, p2), "",
                 MetaText(h2, a2, d2), StatText(n3, r3, p3)], normalize)
      == Trace(State(Some(h2), Some(a2), normalize(d2)),
               [Row(Some(h1), Some(a1), normalize(d1), p1, n1, r1),
                Row(Some(h1), Some(a1), normalize(d1), p2, n2, r2),
                Row(Some(h2), Some(a2), normalize(d2), p3, n3, r3)],
               None)
  {
    var l0, l1, l2, l4, l5 := MetaText(h1, a1, d1), StatText(n1, r1, p1), StatText(n2, r2, p2),
                              MetaText(h2, a2, d2), StatText(n3, r3, p3);
    OneCommit(normalize, h1, a1, d1, n1, r1, p1, n2, r2, p2);
    BlankStep([l0, l1, l2], normalize);
    assert [l0, l1, l2] + [""] == [l0, l1, l2, ""];
    MetaStep([l0, l1, l2, ""], h2, a2, d2, normalize);
    assert [l0, l1, l2, ""] + [l4] == [l0, l1, l2, "", l4];
    StatStep([l0, l1, l2, "", l4], n3, r3, p3, normalize);
    assert [l0, l1, l2, "", l4] + [l5] == [l0, l1, l2, "", l4, l5];
  }

  /** One commit and two text files: two rows with the commit's data. */
  lemma OneCommit(normalize: Normalizer, h: string, a: string, d: string,
                  n1: nat, r1: nat, p1: string, n2: nat, r2: nat, p2: string)
    requires GoodMeta(h, a, d)
    requires GoodPath(p1) && GoodPath(p2)
    requires normalize(d).Some?
    ensures Run([MetaText(h, a, d), StatText(n1, r1, p1), StatText(n2, r2, p2)], normalize)
      == Trace(State(Some(h), Some(a), normalize(d)),
               [Row(Some(h), Some(a), normalize(d), p1, n1, r1), Row(Some(h), Some(a), normalize(d), p2, n2, r2)],
               None)
  {
    var l0, l1, l2 := MetaText(h, a, d), StatText(n1, r1, p1), StatText(n2, r2, p2);
    var st := State(Some(h), Some(a), normalize(d));
    MetaStep([], h, a, d, normalize);
    assert [] + [l0] == [l0];
    assert Run([l0], normalize) == Trace(st, [], None);
    StatStep([l0], n1, r1, p1, normalize);
    assert [l0] + [l1] == [l0, l1];
    StatStep([l0, l1], n2, r2, p2, normalize);
    assert [l0, l1] + [l2] == [l0, l1, l2];
  }

  /** A binary file between two text files of one commit writes no row;
      the text files' rows keep their order. */
  lemma BinaryAmongTextFiles(normalize: Normalizer, h: string, a: string, d: string,
                             n1: nat, r1: nat, p1: string, pb: string, n2: nat, r2: nat, p2: string)
    requires GoodMeta(h, a, d)
    requires GoodPath(p1) && GoodPath(pb) && GoodPath(p2)
    requires normalize(d).Some?
    ensures Run([MetaText(h, a, d), StatText(n1, r1, p1), BinaryText(pb), StatText(n2, r2, p2)], normalize).rows
      == [Row(Some(h), Some(a), normalize(d), p1, n1, r1), Row(Some(h), Some(a), normalize(d), p2, n2, r2)]
  {
    var l0, l1, l2, l3 := MetaText(h, a, d), StatText(n1, r1, p1), BinaryText(pb), StatText(n2, r2, p2);
    var st := State(Some(h), Some(a), normalize(d));
    var row1 := Row(Some(h), Some(a), normalize(d), p1, n1, r1);
    MetaStep([], h, a, d, normalize);
    assert [] + [l0] == [l0];
    assert Run([l0], normalize) == Trace(st, [], None);
    StatStep([l0], n1, r1, p1, normalize);
    assert [l0] + [l1] == [l0, l1];
    assert Run([l0, l1], normalize) == Trace(st, [row1], None);
    BinaryStep([l0, l1], pb, normalize);
    assert [l0, l1] + [l2] == [l0, l1, l2];
    StatStep([l0, l1, l2], n2, r2, p2, normalize);
    assert [l0, l1, l2] + [l3] == [l0, l1, l2, l3];
  }

  /** File statistics before any commit line are not dropped: they give a
      row with commit, author and date unset. */
  lemma StatsBeforeAnyCommit(normalize: Normalizer, n: nat, r: nat, p: string)
    requires GoodPath(p)
    ensures Run([StatText(n, r, p)], normalize) == Trace(Unset, [Row(None, None, None, p, n, r)], None)
  {
    StatStep([], n, r, p, normalize);
    assert [] + [StatText(n, r, p)] == [StatText(n, r, p)];
  }

  /** A commit line whose date does not parse stops the run there: the
      rows of the earlier lines stay written, the later lines are not read. */
  lemma BadDateStops(normalize: Normalizer, h1: string, a1: string, d1: string,
                     n1: nat, r1: nat, p1: string, h2: string, a2: string, d2: string,
                     n2: nat, r2: nat, p2: string)
    requires GoodMeta(h1, a1, d1) && GoodMeta(h2, a2, d2)
    requires GoodPath(p1) && GoodPath(p2)
    requires normalize(d1).Some? && normalize(d2).None?
    ensures Run([MetaText(h1, a1, d1), StatText(n1, r1, p1), MetaText(h2, a2, d2), StatText(n2, r2, p2)], normalize)
      == Trace(State(Some(h1), Some(a1), normalize(d1)), [Row(Some(h1), Some(a1), normalize(d1), p1, n1, r1)], Some(2))
  {
    var l0, l1, l2, l3 := MetaText(h1, a1, d1), StatText(n1, r1, p1), MetaText(h2, a2, d2), StatText(n2, r2, p2);
    var st := State(Some(h1), Some(a1), normalize(d1));
    var row1 := Row(Some(h1), Some(a1), normalize(d1), p1, n1, r1);
    MetaStep([], h1, a1, d1, normalize);
    assert [] + [l0] == [l0];
    assert Run([l0], normalize) == Trace(st, [], None);
    StatStep([l0], n1, r1, p1, normalize);
    assert [l0] + [l1] == [l0, l1];
    assert Run([l0, l1], normalize) == Trace(st, [row1], None);
    MetaStep([l0, l1], h2, a2, d2, normalize);
    assert [l0, l1] + [l2] == [l0, l1, l2];
    RunSnoc([l0, l1, l2], l3, normalize);
    assert [l0, l1, l2] + [l3] == [l0, l1, l2, l3];
  }
}
