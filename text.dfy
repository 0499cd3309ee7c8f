/** Python `str` operations that the lockfile code is built from, written out on
    `seq<char>`: `splitlines`, `join`, `split` on one character, `strip`,
    `replace("\r\n", "\n")`, decimal formatting of integers and code-point
    ordering of strings (what `sorted` uses). */
module Text {

  /** The characters at which `str.splitlines` ends a line. */
  predicate IsLineBreak(c: char) {
    c == '\n' || c == '\r' || c == '\U{0B}' || c == '\U{0C}' || c == '\U{1C}' || c == '\U{1D}'
    || c == '\U{1E}' || c == '\U{85}' || c == '\U{2028}' || c == '\U{2029}'
  }

  /** The characters for which `str.isspace` holds: what `\s` matches and `strip` removes. */
  predicate IsSpace(c: char) {
    ('\U{09}' <= c <= '\U{0D}') || ('\U{1C}' <= c <= '\U{20}') || c == '\U{85}' || c == '\U{A0}'
    || c == '\U{1680}' || ('\U{2000}' <= c <= '\U{200A}') || c == '\U{2028}' || c == '\U{2029}'
    || c == '\U{202F}' || c == '\U{205F}' || c == '\U{3000}'
  }

  predicate NoLineBreaks(s: string) {
    forall i :: 0 <= i < |s| ==> !IsLineBreak(s[i])
  }

  predicate NoSpaces(s: string) {
    forall i :: 0 <= i < |s| ==> !IsSpace(s[i])
  }

  predicate AllNoLineBreaks(lines: seq<string>) {
    forall k :: 0 <= k < |lines| ==> NoLineBreaks(lines[k])
  }

  /** `s.startswith(prefix)` */
  predicate StartsWith(s: string, prefix: string) {
    |prefix| <= |s| && s[..|prefix|] == prefix
  }

  lemma StartsWithConcat(p: string, s: string)
    ensures StartsWith(p + s, p)
  {
    assert (p + s)[..|p|] == p;
  }

  lemma StartsWithTransitive(s: string, p: string, q: string)
    requires StartsWith(s, p) && StartsWith(p, q)
    ensures StartsWith(s, q)
  {
    assert s[..|q|] == s[..|p|][..|q|];
  }

  /** Index of the first occurrence of `c` in `s`, or `|s|` when there is none. */
  function FirstIndex(s: string, c: char): (i: nat)
    ensures i <= |s|
    ensures forall j :: 0 <= j < i ==> s[j] != c
    ensures i < |s| ==> s[i] == c
  {
    FirstIndexFrom(s, c, 0)
  }

  function FirstIndexFrom(s: string, c: char, from: nat): (i: nat)
    requires from <= |s| && forall j :: 0 <= j < from ==> s[j] != c
    ensures from <= i <= |s|
    ensures forall j :: 0 <= j < i ==> s[j] != c
    ensures i < |s| ==> s[i] == c
    decreases |s| - from
  {
    if from == |s| || s[from] == c then from else FirstIndexFrom(s, c, from + 1)
  }

  /** The first occurrence is the one every earlier position lacks. */
  lemma FirstIndexAt(s: string, c: char, k: nat)
    requires k <= |s| && forall j :: 0 <= j < k ==> s[j] != c
    requires k < |s| ==> s[k] == c
    ensures FirstIndex(s, c) == k
  {
  }

  /** Index of the first line break in `s`, or `|s|` when there is none. */
  function LineEnd(s: string): (i: nat)
    ensures i <= |s| && forall j :: 0 <= j < i ==> !IsLineBreak(s[j])
    ensures i < |s| ==> IsLineBreak(s[i])
  {
    LineEndFrom(s, 0)
  }

  function LineEndFrom(s: string, from: nat): (i: nat)
    requires from <= |s| && forall j :: 0 <= j < from ==> !IsLineBreak(s[j])
    ensures from <= i <= |s| && forall j :: 0 <= j < i ==> !IsLineBreak(s[j])
    ensures i < |s| ==> IsLineBreak(s[i])
    decreases |s| - from
  {
    if from == |s| || IsLineBreak(s[from]) then from else LineEndFrom(s, from + 1)
  }

  /** `s.splitlines()`: a line ends at any line break, and "\r\n" ends one line;
      a trailing line break does not start an empty last line. */
  function SplitLines(s: string): seq<string>
    decreases |s|
  {
    if s == [] then []
    else
      var i := LineEnd(s);
      if i == |s| then [s]
      else
        var next := if s[i] == '\r' && i + 1 < |s| && s[i + 1] == '\n' then i + 2 else i + 1;
        [s[..i]] + SplitLines(s[next..])
  }

  /** `sep.join(parts)` */
  function Join(sep: string, parts: seq<string>): string {
    if parts == [] then ""
    else if |parts| == 1 then parts[0]
    else parts[0] + sep + Join(sep, parts[1..])
  }

  lemma {:induction false} JoinAppend(sep: string, xs: seq<string>, ys: seq<string>)
    requires xs != [] && ys != []
    ensures Join(sep, xs + ys) == Join(sep, xs) + sep + Join(sep, ys)
  {
    assert (xs + ys)[0] == xs[0];
    if |xs| == 1 {
      assert (xs + ys)[1..] == ys;
    } else {
      assert (xs + ys)[1..] == xs[1..] + ys;
      JoinAppend(sep, xs[1..], ys);
    }
  }

  /** A line without breaks, a newline, then anything: the line comes out first. */
  lemma {:induction false} SplitLinesOfLine(s: string, a: string, b: string)
    requires NoLineBreaks(a) && s == a + "\n" + b
    ensures SplitLines(s) == [a] + SplitLines(b)
  {
    var i := LineEnd(s);
    assert IsLineBreak(s[|a|]);
    assert forall j :: 0 <= j < |a| ==> s[j] == a[j];
    assert i == |a|;
    assert s[..i] == a;
    assert s[i + 1..] == b;
  }

  /** Lines joined by "\n" and followed by "\n" split back into the same lines. */
  lemma {:induction false} SplitLinesOfJoin(lines: seq<string>, rest: string)
    requires lines != [] && AllNoLineBreaks(lines)
    ensures SplitLines(Join("\n", lines) + "\n" + rest) == lines + SplitLines(rest)
  {
    if |lines| == 1 {
      SplitLinesOfLine(Join("\n", lines) + "\n" + rest, lines[0], rest);
    } else {
      AllNoLineBreaksTail(lines);
      SplitLinesOfJoin(lines[1..], rest);
      JoinNewlineCons(lines, rest);
      var text, after := Join("\n", lines) + "\n" + rest, Join("\n", lines[1..]) + "\n" + rest;
      SplitLinesOfLine(text, lines[0], after);
      Regroup(lines, SplitLines(text), SplitLines(after), SplitLines(rest));
    }
  }

  /** Lines joined by newlines, an empty line, then a body: the lines come
      back, then an empty line, then the body's lines. */
  lemma SplitLinesOfSections(s: string, lines: seq<string>, body: string)
    requires lines != [] && AllNoLineBreaks(lines)
    requires s == Join("\n", lines) + "\n" + ("\n" + body)
    ensures SplitLines(s) == lines + [""] + SplitLines(body)
  {
    var tail := SplitLines("\n" + body);
    assert SplitLines(s) == lines + tail by {
      SplitLinesOfJoin(lines, "\n" + body);
    }
    assert tail == [""] + SplitLines(body) by {
      SplitLinesOfLine("\n" + body, "", body);
    }
    Associate(lines, [""], SplitLines(body));
  }

  lemma Associate<T>(xs: seq<T>, ys: seq<T>, zs: seq<T>)
    ensures xs + (ys + zs) == xs + ys + zs
  {
  }

  /** Taking one more element of a sequence appends that element. */
  lemma TakeOneMore<T>(xs: seq<T>, i: nat)
    requires i < |xs|
    ensures xs[..i + 1] == xs[..i] + [xs[i]]
    ensures xs[..i + 1][..i] == xs[..i] && xs[..i + 1][i] == xs[i]
  {
  }

  /** Each item followed by a newline splits back into the items. */
  lemma SplitLinesOfTerminated(items: seq<string>)
    requires AllNoLineBreaks(items)
    ensures SplitLines(Terminated(items)) == items
  {
    if items == [] {
      assert Terminated(items) == "";
    } else {
      JoinAppend("\n", items, [""]);
      SplitLinesOfJoin(items, "");
      assert SplitLines(Terminated(items)) == items + SplitLines("");
    }
  }

  /** No line `splitlines` returns holds a line break. */
  lemma {:induction false} SplitLinesNoLineBreaks(s: string)
    ensures AllNoLineBreaks(SplitLines(s))
    decreases |s|
  {
    if s != [] {
      var i := LineEnd(s);
      if i == |s| {
        assert s[..i] == s;
      } else {
        var next := if s[i] == '\r' && i + 1 < |s| && s[i + 1] == '\n' then i + 2 else i + 1;
        SplitLinesNoLineBreaks(s[next..]);
        var rest := SplitLines(s[next..]);
        assert SplitLines(s) == [s[..i]] + rest;
        assert forall k :: 0 < k < |SplitLines(s)| ==> SplitLines(s)[k] == rest[k - 1];
      }
    }
  }

  lemma AllNoLineBreaksConcat(xs: seq<string>, ys: seq<string>)
    requires AllNoLineBreaks(xs) && AllNoLineBreaks(ys)
    ensures AllNoLineBreaks(xs + ys)
  {
    forall k | 0 <= k < |xs + ys| ensures NoLineBreaks((xs + ys)[k]) {
      if k >= |xs| {
        assert (xs + ys)[k] == ys[k - |xs|];
      }
    }
  }

  lemma Associate5<T>(a: seq<T>, b: seq<T>, c: seq<T>, d: seq<T>, e: seq<T>)
    ensures a + b + c + d + e == a + (b + (c + (d + e)))
  {
  }

  lemma Regroup<T>(xs: seq<T>, whole: seq<T>, tail: seq<T>, rest: seq<T>)
    requires xs != [] && whole == [xs[0]] + tail && tail == xs[1..] + rest
    ensures whole == xs + rest
  {
    assert xs == [xs[0]] + xs[1..];
  }

  lemma AllNoLineBreaksTail(lines: seq<string>)
    requires lines != [] && AllNoLineBreaks(lines)
    ensures NoLineBreaks(lines[0]) && AllNoLineBreaks(lines[1..])
  {
    assert forall k :: 0 <= k < |lines| - 1 ==> lines[1..][k] == lines[k + 1];
  }

  lemma JoinNewlineCons(lines: seq<string>, rest: string)
    requires |lines| > 1
    ensures Join("\n", lines) + "\n" + rest == lines[0] + "\n" + (Join("\n", lines[1..]) + "\n" + rest)
  {
  }

  /** `"\n".join([*items, ""])`: every item followed by a newline. */
  function Terminated(items: seq<string>): string {
    Join("\n", items + [""])
  }

  lemma {:induction false} TerminatedCons(x: string, xs: seq<string>)
    ensures Terminated([x] + xs) == x + "\n" + Terminated(xs)
  {
    assert [x] + xs + [""] == [x] + (xs + [""]);
    JoinAppend("\n", [x], xs + [""]);
  }

  lemma {:induction false} TerminatedNonEmpty(xs: seq<string>)
    requires xs != []
    ensures |Terminated(xs)| > 0
  {
    TerminatedCons(xs[0], xs[1..]);
    assert xs == [xs[0]] + xs[1..];
  }

  /** Two single-line strings followed by "\n" can only agree if the strings do. */
  lemma CutAtNewline(a: string, s: string, b: string, t: string)
    requires '\n' !in a && '\n' !in b
    requires a + "\n" + s == b + "\n" + t
    ensures a == b && s == t
  {
    var u := a + "\n" + s;
    var v := b + "\n" + t;
    assert forall j :: 0 <= j < |a| ==> u[j] == a[j];
    assert forall j :: 0 <= j < |b| ==> v[j] == b[j];
    FirstIndexAt(u, '\n', |a|);
    FirstIndexAt(v, '\n', |b|);
    assert a == u[..|a|] == b;
    assert s == u[|a| + 1..] == t;
  }

  /** Newline-terminated lists of lines are equal exactly when the lists are. */
  lemma {:induction false} TerminatedInjective(xs: seq<string>, ys: seq<string>)
    requires forall k :: 0 <= k < |xs| ==> '\n' !in xs[k]
    requires forall k :: 0 <= k < |ys| ==> '\n' !in ys[k]
    ensures Terminated(xs) == Terminated(ys) <==> xs == ys
  {
    if xs != [] && ys != [] {
      TerminatedCons(xs[0], xs[1..]);
      TerminatedCons(ys[0], ys[1..]);
      assert xs == [xs[0]] + xs[1..] && ys == [ys[0]] + ys[1..];
      if Terminated(xs) == Terminated(ys) {
        CutAtNewline(xs[0], Terminated(xs[1..]), ys[0], Terminated(ys[1..]));
        TerminatedInjective(xs[1..], ys[1..]);
      }
    } else if xs != [] {
      TerminatedNonEmpty(xs);
      assert Terminated(ys) == "";
    } else if ys != [] {
      TerminatedNonEmpty(ys);
      assert Terminated(xs) == "";
    }
  }

  /** `s.split(sep)` for a one-character separator: never an empty list. */
  function Split(s: string, sep: char): (parts: seq<string>)
    ensures |parts| > 0
    ensures forall k :: 0 <= k < |parts| ==> sep !in parts[k]
    decreases |s|
  {
    var i := FirstIndex(s, sep);
    if i == |s| then [s]
    else
      assert sep !in s[..i];
      [s[..i]] + Split(s[i + 1..], sep)
  }

  /** Joining the pieces with the separator gives the text back. */
  lemma {:induction false} SplitJoin(s: string, sep: char)
    ensures Join([sep], Split(s, sep)) == s
    decreases |s|
  {
    var i := FirstIndex(s, sep);
    if i < |s| {
      var rest := Split(s[i + 1..], sep);
      SplitJoin(s[i + 1..], sep);
      assert Split(s, sep) == [s[..i]] + rest;
      JoinAppend([sep], [s[..i]], rest);
      assert s == s[..i] + [sep] + s[i + 1..];
    }
  }

  /** A text with no separator is one piece. */
  lemma SplitNoSeparator(s: string, sep: char)
    requires sep !in s
    ensures Split(s, sep) == [s]
  {
    FirstIndexAt(s, sep, |s|);
  }

  /** A separator-free text, the separator, then the rest: the text is the first piece. */
  lemma SplitFirst(a: string, sep: char, b: string)
    requires sep !in a
    ensures Split(a + [sep] + b, sep) == [a] + Split(b, sep)
  {
    var s := a + [sep] + b;
    assert forall j :: 0 <= j < |a| ==> s[j] == a[j];
    FirstIndexAt(s, sep, |a|);
    assert s[..|a|] == a && s[|a| + 1..] == b;
  }

  /** Pieces without the separator, joined by it, split back into the pieces. */
  lemma {:induction false} SplitOfJoin(parts: seq<string>, sep: char)
    requires parts != [] && forall k :: 0 <= k < |parts| ==> sep !in parts[k]
    ensures Split(Join([sep], parts), sep) == parts
  {
    if |parts| == 1 {
      SplitNoSeparator(parts[0], sep);
    } else {
      var rest := Join([sep], parts[1..]);
      assert Join([sep], parts) == parts[0] + [sep] + rest;
      SplitFirst(parts[0], sep, rest);
      SplitOfJoin(parts[1..], sep);
      assert parts == [parts[0]] + parts[1..];
    }
  }

  function TrimStart(s: string): (r: string)
    ensures |r| <= |s|
    ensures r == [] || !IsSpace(r[0])
  {
    if s != [] && IsSpace(s[0]) then TrimStart(s[1..]) else s
  }

  function TrimEnd(s: string): (r: string)
    ensures |r| <= |s| && r == s[..|r|]
    ensures r == [] || !IsSpace(r[|r| - 1])
  {
    if s != [] && IsSpace(s[|s| - 1]) then TrimEnd(s[..|s| - 1]) else s
  }

  /** `s.strip()`: whitespace removed at both ends and nowhere else. */
  function Strip(s: string): (r: string)
    ensures r == [] || (!IsSpace(r[0]) && !IsSpace(r[|r| - 1]))
    ensures s != [] && !IsSpace(s[0]) && !IsSpace(s[|s| - 1]) ==> r == s
  {
    TrimEnd(TrimStart(s))
  }

  /** `b.replace(b"\r\n", b"\n")`: each CR LF pair, taken left to right, becomes LF. */
  function ReplaceCrlf(s: string): string {
    if |s| < 2 then s
    else if s[0] == '\r' && s[1] == '\n' then "\n" + ReplaceCrlf(s[2..])
    else [s[0]] + ReplaceCrlf(s[1..])
  }

  /** The same text saved with Windows line endings: every LF becomes CR LF. */
  function ToCrlf(s: string): (r: string)
    ensures |r| >= |s|
  {
    if s == [] then [] else (if s[0] == '\n' then "\r\n" else [s[0]]) + ToCrlf(s[1..])
  }

  predicate NoCrlf(s: string) {
    forall i :: 0 <= i < |s| - 1 ==> !(s[i] == '\r' && s[i + 1] == '\n')
  }

  lemma {:induction false} ToCrlfStart(s: string)
    ensures ToCrlf(s) == [] || ToCrlf(s)[0] != '\n'
  {
  }

  /** Converting LF endings to CR LF and normalising again gives back exactly the original. */
  lemma {:induction false} ReplaceCrlfUndoesToCrlf(s: string)
    ensures ReplaceCrlf(ToCrlf(s)) == s
  {
    if s != [] {
      var t := ToCrlf(s[1..]);
      ReplaceCrlfUndoesToCrlf(s[1..]);
      ToCrlfStart(s[1..]);
      if s[0] == '\n' {
        assert ToCrlf(s) == "\r\n" + t;
        assert ("\r\n" + t)[2..] == t;
      } else {
        assert ToCrlf(s) == [s[0]] + t;
        if |t| > 0 {
          assert ([s[0]] + t)[1..] == t;
        }
      }
      assert s == [s[0]] + s[1..];
    }
  }

  /** A text without CR LF pairs is left alone by the normalisation. */
  lemma {:induction false} ReplaceCrlfNoCrlf(s: string)
    requires NoCrlf(s)
    ensures ReplaceCrlf(s) == s
  {
    if |s| >= 2 {
      assert !(s[0] == '\r' && s[1] == '\n');
      assert forall i :: 0 <= i < |s| - 1 ==> s[1..][i] == s[i + 1];
      ReplaceCrlfNoCrlf(s[1..]);
      assert s == [s[0]] + s[1..];
    }
  }

  predicate IsDigit(c: char) {
    '0' <= c <= '9'
  }

  predicate AllDigits(s: string) {
    forall i :: 0 <= i < |s| ==> IsDigit(s[i])
  }

  function DigitChar(d: nat): (c: char)
    requires d < 10
    ensures IsDigit(c)
  {
    "0123456789"[d]
  }

  function DigitValue(c: char): nat
    requires IsDigit(c)
  {
    c as int - '0' as int
  }

  lemma DigitRoundTrip(d: nat)
    requires d < 10
    ensures DigitValue(DigitChar(d)) == d
  {
  }

  /** `f"{n}"` for a natural number: its decimal digits, most significant first. */
  function Decimal(n: nat): (s: string)
    ensures |s| > 0 && AllDigits(s)
  {
    if n < 10 then [DigitChar(n)] else Decimal(n / 10) + [DigitChar(n % 10)]
  }

  /** `int(s)` for a string of decimal digits (leading zeros allowed). */
  function DecimalValue(s: string): nat
    requires AllDigits(s)
  {
    if s == [] then 0 else 10 * DecimalValue(s[..|s| - 1]) + DigitValue(s[|s| - 1])
  }

  lemma {:induction false} DecimalRoundTrip(n: nat)
    ensures DecimalValue(Decimal(n)) == n
  {
    if n >= 10 {
      var s := Decimal(n);
      assert s[..|s| - 1] == Decimal(n / 10);
      DecimalRoundTrip(n / 10);
      DigitRoundTrip(n % 10);
    } else {
      DigitRoundTrip(n);
    }
  }

  /** `a <= b` for Python strings: lexicographic by code point. */
  predicate LessEq(a: string, b: string) {
    if a == [] then true
    else if b == [] then false
    else if a[0] != b[0] then a[0] < b[0]
    else LessEq(a[1..], b[1..])
  }

  lemma {:induction false} LessEqReflexive(a: string)
    ensures LessEq(a, a)
  {
    if a != [] {
      LessEqReflexive(a[1..]);
    }
  }

  lemma {:induction false} LessEqTotal(a: string, b: string)
    ensures LessEq(a, b) || LessEq(b, a)
  {
    if a != [] && b != [] && a[0] == b[0] {
      LessEqTotal(a[1..], b[1..]);
    }
  }

  lemma {:induction false} LessEqAntisymmetric(a: string, b: string)
    requires LessEq(a, b) && LessEq(b, a)
    ensures a == b
  {
    if a != [] && b != [] {
      LessEqAntisymmetric(a[1..], b[1..]);
      assert a == [a[0]] + a[1..] && b == [b[0]] + b[1..];
    }
  }

  lemma {:induction false} LessEqTransitive(a: string, b: string, c: string)
    requires LessEq(a, b) && LessEq(b, c)
    ensures LessEq(a, c)
  {
    if a != [] && b != [] && c != [] && a[0] == b[0] && b[0] == c[0] {
      LessEqTransitive(a[1..], b[1..], c[1..]);
    }
  }

  predicate IsSorted(xs: seq<string>) {
    forall i, j :: 0 <= i < j < |xs| ==> LessEq(xs[i], xs[j])
  }

  function Insert(x: string, xs: seq<string>): (r: seq<string>)
    requires IsSorted(xs)
    ensures IsSorted(r) && multiset(r) == multiset(xs) + multiset{x}
  {
    if xs == [] then [x]
    else if LessEq(x, xs[0]) then
      SortedCons(x, xs);
      [x] + xs
    else
      var rest := Insert(x, xs[1..]);
      assert IsSorted([xs[0]] + rest) by {
        LessEqTotal(x, xs[0]);
        SortedTail(xs);
        BelowAll(xs[0], x, xs[1..], rest);
        SortedConsBelow(xs[0], rest);
      }
      assert xs == [xs[0]] + xs[1..];
      [xs[0]] + rest
  }

  /** An element at most the head of a sorted list can go in front. */
  lemma SortedCons(x: string, xs: seq<string>)
    requires IsSorted(xs) && xs != [] && LessEq(x, xs[0])
    ensures IsSorted([x] + xs)
  {
    forall j | 0 < j < |xs| ensures LessEq(x, xs[j]) {
      LessEqTransitive(x, xs[0], xs[j]);
    }
    SortedConsBelow(x, xs);
  }

  /** An element at most every element of a sorted list can go in front. */
  lemma SortedConsBelow(y: string, xs: seq<string>)
    requires IsSorted(xs) && forall k :: 0 <= k < |xs| ==> LessEq(y, xs[k])
    ensures IsSorted([y] + xs)
  {
    forall i, j | 0 <= i < j < |[y] + xs| ensures LessEq(([y] + xs)[i], ([y] + xs)[j]) {
      assert ([y] + xs)[j] == xs[j - 1];
      if i > 0 {
        assert ([y] + xs)[i] == xs[i - 1];
      }
    }
  }

  /** A bound on `x` and on every element of `tail` bounds every element of
      a list holding exactly those. */
  lemma BelowAll(y: string, x: string, tail: seq<string>, rest: seq<string>)
    requires LessEq(y, x) && forall j :: 0 <= j < |tail| ==> LessEq(y, tail[j])
    requires multiset(rest) == multiset(tail) + multiset{x}
    ensures forall k :: 0 <= k < |rest| ==> LessEq(y, rest[k])
  {
    forall k | 0 <= k < |rest| ensures LessEq(y, rest[k]) {
      assert rest[k] in multiset(rest);
      if rest[k] != x {
        assert rest[k] in multiset(tail);
        var j :| 0 <= j < |tail| && tail[j] == rest[k];
      }
    }
  }

  /** `sorted(xs)` */
  function Sort(xs: seq<string>): (r: seq<string>)
    ensures IsSorted(r) && multiset(r) == multiset(xs)
  {
    if xs == [] then []
    else
      assert xs == [xs[0]] + xs[1..];
      Insert(xs[0], Sort(xs[1..]))
  }

  /** A sorted list is determined by its elements: `Sort` is Python's `sorted`
      whichever order its input came in. */
  lemma {:induction false} SortedUnique(xs: seq<string>, ys: seq<string>)
    requires IsSorted(xs) && IsSorted(ys) && multiset(xs) == multiset(ys)
    ensures xs == ys
  {
    if xs != [] {
      assert xs[0] in multiset(ys);
      SortedHeads(xs, ys);
      SortedTail(xs);
      SortedTail(ys);
      SortedUnique(xs[1..], ys[1..]);
      assert xs == [xs[0]] + xs[1..] && ys == [ys[0]] + ys[1..];
    }
  }

  lemma SortedHeads(xs: seq<string>, ys: seq<string>)
    requires xs != [] && ys != []
    requires IsSorted(xs) && IsSorted(ys) && multiset(xs) == multiset(ys)
    ensures xs[0] == ys[0]
  {
    assert xs[0] in multiset(ys) && ys[0] in multiset(xs);
    var i :| 0 <= i < |ys| && ys[i] == xs[0];
    var j :| 0 <= j < |xs| && xs[j] == ys[0];
    LessEqReflexive(xs[0]);
    LessEqReflexive(ys[0]);
    assert LessEq(ys[0], ys[i]);
    assert LessEq(xs[0], xs[j]);
    LessEqAntisymmetric(xs[0], ys[0]);
  }

  lemma SortedTail(xs: seq<string>)
    requires xs != [] && IsSorted(xs)
    ensures IsSorted(xs[1..]) && multiset(xs[1..]) == multiset(xs) - multiset{xs[0]}
  {
    assert xs == [xs[0]] + xs[1..];
  }
}
