/** The parts of Python's `str` that the log parser relies on:
    `str.strip()` with no argument, `str.split(sep)` with a one-character
    separator, and `sep.join(parts)`. Strings are sequences of code points.

    The functions carry only quantifier-free contracts; what they mean is
    stated by the lemmas after them, so that unfolding a function costs the
    verifier little. */
module PyStr {

  /** Python's `str.isspace()` for one character: the ASCII whitespace
      (space, \t, \n, \v, \f, \r), the separators \x1c-\x1f, and the
      Unicode space characters. */
  predicate IsSpace(c: char) {
    c == ' ' || ('\t' <= c <= '\r') || ('\U{1c}' <= c <= '\U{1f}')
    || c == '\U{85}' || c == '\U{a0}' || c == '\U{1680}'
    || ('\U{2000}' <= c <= '\U{200a}') || c == '\U{2028}' || c == '\U{2029}'
    || c == '\U{202f}' || c == '\U{205f}' || c == '\U{3000}'
  }

  predicate AllSpace(s: string) {
    forall k :: 0 <= k < |s| ==> IsSpace(s[k])
  }

  /** Number of occurrences of `c` in `s`. */
  function Count(s: string, c: char): nat {
    multiset(s)[c]
  }

  /** Drops the leading characters that satisfy `ws`. */
  function LStrip(s: string, ws: char -> bool): (r: string)
    ensures |r| <= |s|
    decreases |s|
  {
    if s != [] && ws(s[0]) then LStrip(s[1..], ws) else s
  }

  /** Drops the trailing characters that satisfy `ws`. */
  function RStrip(s: string, ws: char -> bool): (r: string)
    ensures |r| <= |s|
    decreases |s|
  {
    if s != [] && ws(s[|s| - 1]) then RStrip(s[..|s| - 1], ws) else s
  }

  /** Drops the leading and trailing characters that satisfy `ws`. */
  function StripChars(s: string, ws: char -> bool): (r: string)
    ensures |r| <= |s|
  {
    RStrip(LStrip(s, ws), ws)
  }

  /** Python's `s.strip()`. */
  function Strip(s: string): (r: string)
    ensures |r| <= |s|
  {
    StripChars(s, IsSpace)
  }

  /** Index of the first occurrence of `c` in `s`. */
  function IndexOf(s: string, c: char): (i: nat)
    requires c in s
    ensures i < |s| && s[i] == c
  {
    if s[0] == c then 0 else 1 + IndexOf(s[1..], c)
  }

  /** Python's `s.split(sep)`: the pieces of `s` between the occurrences of
      `sep`, every occurrence being a cut. */
  function Split(s: string, sep: char): (parts: seq<string>)
    ensures |parts| == Count(s, sep) + 1
    decreases |s|
  {
    if sep !in s then [s]
    else
      var i := IndexOf(s, sep);
      IndexOfIsFirst(s, sep);
      assert s == s[..i] + [sep] + s[i + 1..];
      [s[..i]] + Split(s[i + 1..], sep)
  }

  /** Python's `sep.join(parts)`. */
  function Join(parts: seq<string>, sep: char): string
    decreases |parts|
  {
    if parts == [] then []
    else if |parts| == 1 then parts[0]
    else parts[0] + [sep] + Join(parts[1..], sep)
  }

  /** `LStrip` removes a prefix made only of `ws` characters, and stops at
      the first other character. */
  lemma {:induction false} LStripFacts(s: string, ws: char -> bool)
    ensures LStrip(s, ws) == s[|s| - |LStrip(s, ws)|..]
    ensures forall k :: 0 <= k < |s| - |LStrip(s, ws)| ==> ws(s[k])
    ensures LStrip(s, ws) == [] || !ws(LStrip(s, ws)[0])
    decreases |s|
  {
    if s != [] && ws(s[0]) {
      LStripFacts(s[1..], ws);
      var r := LStrip(s, ws);
      assert s[1..][|s| - 1 - |r|..] == s[|s| - |r|..];
    }
  }

  /** `RStrip` removes a suffix made only of `ws` characters, and stops at
      the last other character. */
  lemma {:induction false} RStripFacts(s: string, ws: char -> bool)
    ensures RStrip(s, ws) == s[..|RStrip(s, ws)|]
    ensures forall k :: |RStrip(s, ws)| <= k < |s| ==> ws(s[k])
    ensures RStrip(s, ws) == [] || !ws(RStrip(s, ws)[|RStrip(s, ws)| - 1])
    decreases |s|
  {
    if s != [] && ws(s[|s| - 1]) {
      RStripFacts(s[..|s| - 1], ws);
      var r := RStrip(s, ws);
      assert s[..|s| - 1][..|r|] == s[..|r|];
    }
  }

  /** `StripChars(s, ws)` is the slice `s[i..j]` with only `ws` characters
      around it, and it neither starts nor ends with one. */
  lemma StripCharsSlice(s: string, ws: char -> bool) returns (i: nat, j: nat)
    ensures i <= j <= |s| && StripChars(s, ws) == s[i..j]
    ensures forall k :: 0 <= k < i ==> ws(s[k])
    ensures forall k :: j <= k < |s| ==> ws(s[k])
    ensures StripChars(s, ws) == [] || (!ws(s[i]) && !ws(s[j - 1]))
  {
    var l := LStrip(s, ws);
    LStripFacts(s, ws);
    RStripFacts(l, ws);
    i := |s| - |l|;
    j := i + |StripChars(s, ws)|;
    assert forall k :: j <= k < |s| ==> s[k] == l[k - i];
  }

  /** A string with no `ws` character at either end is left as it is. */
  lemma StripCharsUnchanged(s: string, ws: char -> bool)
    requires s != [] && !ws(s[0]) && !ws(s[|s| - 1])
    ensures StripChars(s, ws) == s
  {
  }

  /** The stripped string is empty exactly when the string is all whitespace. */
  lemma StripEmptyIffAllSpace(s: string)
    ensures Strip(s) == [] <==> AllSpace(s)
  {
    var i, j := StripCharsSlice(s, IsSpace);
    if Strip(s) != [] {
      assert !IsSpace(s[i]);
    }
  }

  /** Stripping never removes a non-whitespace character. */
  lemma StripKeepsCount(s: string, c: char)
    requires !IsSpace(c)
    ensures Count(Strip(s), c) == Count(s, c)
  {
    var i, j := StripCharsSlice(s, IsSpace);
    assert s == s[..i] + s[i..j] + s[j..];
    assert c !in s[..i] && c !in s[j..];
    assert multiset(s) == multiset(s[..i]) + multiset(s[i..j]) + multiset(s[j..]);
  }

  /** `IndexOf` finds the first occurrence. */
  lemma {:induction false} IndexOfIsFirst(s: string, c: char)
    requires c in s
    ensures c !in s[..IndexOf(s, c)]
  {
    if s[0] != c {
      IndexOfIsFirst(s[1..], c);
      assert s[..IndexOf(s, c)] == [s[0]] + s[1..][..IndexOf(s[1..], c)];
    }
  }

  /** No piece of a split contains the separator. */
  lemma {:induction false} SplitPiecesAvoidSeparator(s: string, sep: char)
    ensures forall k :: 0 <= k < |Split(s, sep)| ==> sep !in Split(s, sep)[k]
    decreases |s|
  {
    if sep in s {
      var i := IndexOf(s, sep);
      IndexOfIsFirst(s, sep);
      SplitPiecesAvoidSeparator(s[i + 1..], sep);
    }
  }

  /** Joining the pieces of a split with the same separator rebuilds the string. */
  lemma {:induction false} JoinSplit(s: string, sep: char)
    ensures Join(Split(s, sep), sep) == s
    decreases |s|
  {
    if sep in s {
      var i := IndexOf(s, sep);
      var rest := s[i + 1..];
      JoinSplit(rest, sep);
      assert Split(s, sep) == [s[..i]] + Split(rest, sep);
      assert s == s[..i] + [sep] + rest;
    }
  }

  /** Splitting a join of separator-free pieces gives the pieces back. */
  lemma {:induction false} SplitJoin(parts: seq<string>, sep: char)
    requires parts != []
    requires forall k :: 0 <= k < |parts| ==> sep !in parts[k]
    ensures Split(Join(parts, sep), sep) == parts
    decreases |parts|
  {
    if |parts| > 1 {
      SplitJoin(parts[1..], sep);
      SplitAtFirst(parts[0], sep, Join(parts[1..], sep));
      assert parts == [parts[0]] + parts[1..];
    }
  }

  /** Splitting `p sep rest`, with no `sep` in `p`, cuts `p` off first. */
  lemma SplitAtFirst(p: string, sep: char, rest: string)
    requires sep !in p
    ensures Split(p + [sep] + rest, sep) == [p] + Split(rest, sep)
  {
    var s := p + [sep] + rest;
    assert s[|p|] == sep;
    var i := IndexOf(s, sep);
    IndexOfIsFirst(s, sep);
    assert i == |p|;
    assert s[..i] == p;
    assert s[i + 1..] == rest;
  }
}
