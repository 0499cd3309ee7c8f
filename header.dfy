/** The dependency header at the top of a lockfile, as both header readers scan
    it: every line `# - <requirement>` contributes `<requirement>`, other lines
    starting with `#` are skipped, and the first line that does not start with
    `#` ends the header. */
module Header {
  import opened Text

  /** The entries of the header that starts `lines`. */
  function HeaderEntries(lines: seq<string>): seq<string> {
    if lines == [] then []
    else if StartsWith(lines[0], "# - ") then [lines[0][4..]] + HeaderEntries(lines[1..])
    else if StartsWith(lines[0], "#") then HeaderEntries(lines[1..])
    else []
  }

  /** The header entries of a lockfile's text. */
  function HeaderOf(text: string): seq<string> {
    HeaderEntries(SplitLines(text))
  }

  /** `# - <d>` for each dependency, in order. */
  function EntryLines(deps: seq<string>): (lines: seq<string>)
    ensures |lines| == |deps|
    ensures forall k :: 0 <= k < |deps| ==> lines[k] == "# - " + deps[k]
  {
    if deps == [] then [] else ["# - " + deps[0]] + EntryLines(deps[1..])
  }

  predicate AllComments(lines: seq<string>) {
    forall k :: 0 <= k < |lines| ==> StartsWith(lines[k], "#")
  }

  /** A block of comment lines contributes its own entries and lets the scan go on. */
  lemma {:induction false} HeaderEntriesAppend(xs: seq<string>, ys: seq<string>)
    requires AllComments(xs)
    ensures HeaderEntries(xs + ys) == HeaderEntries(xs) + HeaderEntries(ys)
  {
    if xs != [] {
      assert (xs + ys)[0] == xs[0] && (xs + ys)[1..] == xs[1..] + ys;
      assert AllComments(xs[1..]) by {
        forall k | 0 <= k < |xs[1..]| ensures StartsWith(xs[1..][k], "#") {
          assert xs[1..][k] == xs[k + 1];
        }
      }
      HeaderEntriesAppend(xs[1..], ys);
      assert StartsWith(xs[0], "#");
      if StartsWith(xs[0], "# - ") {
        assert HeaderEntries(xs) == [xs[0][4..]] + HeaderEntries(xs[1..]);
        assert HeaderEntries(xs + ys) == [xs[0][4..]] + (HeaderEntries(xs[1..]) + HeaderEntries(ys));
      } else {
        assert HeaderEntries(xs) == HeaderEntries(xs[1..]);
      }
    } else {
      assert xs + ys == ys;
    }
  }

  /** A line that is not a comment ends the header. */
  lemma HeaderEntriesStop(line: string, ys: seq<string>)
    requires !StartsWith(line, "#")
    ensures HeaderEntries([line] + ys) == []
  {
    assert ([line] + ys)[0] == line;
  }

  /** The entry lines of `deps` read back as `deps`. */
  lemma {:induction false} HeaderEntriesOfEntryLines(deps: seq<string>)
    ensures AllComments(EntryLines(deps))
    ensures HeaderEntries(EntryLines(deps)) == deps
  {
    if deps != [] {
      var first := "# - " + deps[0];
      var rest := EntryLines(deps[1..]);
      assert StartsWith(first, "# - ") && StartsWith(first, "#") && first[4..] == deps[0] by {
        EntryLineFacts(deps[0]);
      }
      HeaderEntriesOfEntryLines(deps[1..]);
      assert EntryLines(deps) == [first] + rest;
      HeaderEntriesTake(first, rest);
      assert deps == [deps[0]] + deps[1..];
      assert AllComments([first] + rest) by {
        forall k | 0 < k < |[first] + rest| ensures StartsWith(([first] + rest)[k], "#") {
          assert ([first] + rest)[k] == rest[k - 1];
        }
      }
    }
  }

  /** `# - <d>` is a comment line and an entry line for `d`. */
  lemma EntryLineFacts(d: string)
    ensures StartsWith("# - " + d, "# - ") && StartsWith("# - " + d, "#") && ("# - " + d)[4..] == d
  {
    StartsWithConcat("# - ", d);
    StartsWithTransitive("# - " + d, "# - ", "#");
  }

  /** An entry line contributes its entry and lets the scan go on. */
  lemma HeaderEntriesTake(line: string, ys: seq<string>)
    requires StartsWith(line, "# - ")
    ensures HeaderEntries([line] + ys) == [line[4..]] + HeaderEntries(ys)
  {
    assert ([line] + ys)[0] == line && ([line] + ys)[1..] == ys;
  }

  /** A comment line that is not an entry line contributes nothing. */
  lemma HeaderEntriesSkip(line: string, ys: seq<string>)
    requires StartsWith(line, "#") && !StartsWith(line, "# - ")
    ensures HeaderEntries([line] + ys) == HeaderEntries(ys)
  {
    assert ([line] + ys)[0] == line && ([line] + ys)[1..] == ys;
  }

  /** Entry lines have no line breaks when the dependencies have none. */
  lemma EntryLinesNoLineBreaks(deps: seq<string>)
    requires AllNoLineBreaks(deps)
    ensures AllNoLineBreaks(EntryLines(deps))
  {
    forall k | 0 <= k < |deps| ensures NoLineBreaks(EntryLines(deps)[k]) {
      var line := "# - " + deps[k];
      assert forall j :: 4 <= j < |line| ==> line[j] == deps[k][j - 4];
    }
  }

  /** Comment lines that are not entry lines contribute nothing. */
  lemma {:induction false} HeaderEntriesSkipAll(xs: seq<string>, ys: seq<string>)
    requires forall k :: 0 <= k < |xs| ==> StartsWith(xs[k], "#") && !StartsWith(xs[k], "# - ")
    ensures HeaderEntries(xs + ys) == HeaderEntries(ys)
  {
    if xs != [] {
      HeaderEntriesSkip(xs[0], xs[1..] + ys);
      HeaderEntriesSkipAll(xs[1..], ys);
      assert xs + ys == [xs[0]] + (xs[1..] + ys);
    } else {
      assert xs + ys == ys;
    }
  }

  /** Entries are parts of lines, so lines without line breaks give entries without them. */
  lemma {:induction false} HeaderEntriesNoLineBreaks(lines: seq<string>)
    requires AllNoLineBreaks(lines)
    ensures AllNoLineBreaks(HeaderEntries(lines))
  {
    if lines != [] {
      AllNoLineBreaksTail(lines);
      HeaderEntriesNoLineBreaks(lines[1..]);
      if StartsWith(lines[0], "# - ") {
        var e := lines[0][4..];
        assert forall j :: 0 <= j < |e| ==> e[j] == lines[0][j + 4];
        var r := HeaderEntries(lines[1..]);
        assert HeaderEntries(lines) == [e] + r;
        assert forall k :: 0 < k < |[e] + r| ==> ([e] + r)[k] == r[k - 1];
      }
    }
  }
}
