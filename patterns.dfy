/** The regular expressions of the lockfile code, each written out as the
    matcher Python's `re` module runs for it:

    - `-r \S*[\\/]<env>\.in` and `-r \S*[/]<env>\.in`, replaced by `re.sub`
      (a greedy `\S*` that backtracks to the last separator that works);
    - `-c \S*`, replaced by `re.sub`;
    - `# This file is autogenerated by hatch-pip-compile with Python (.*)`,
      searched by `re.search` (a literal, then the rest of its line);
    - `# \[constraints\] \S* \(SHA256: (.*)\)`, searched by `re.search`.

    Environment names are taken literally, as the code inserts them into the
    patterns without escaping. */
module Patterns {
  import opened Text
  import opened Host

  /** How many characters `\S*` takes at the start of `s` before any backtracking. */
  function RunLength(s: string): (n: nat)
    ensures n <= |s| && NoSpaces(s[..n])
    ensures n < |s| ==> IsSpace(s[n])
  {
    RunEnd(s, 0)
  }

  /** Where the run that already covers `s[..i]` ends. */
  function RunEnd(s: string, i: nat): (n: nat)
    requires i <= |s| && forall j :: 0 <= j < i ==> !IsSpace(s[j])
    ensures i <= n <= |s| && NoSpaces(s[..n])
    ensures n < |s| ==> IsSpace(s[n])
    decreases |s| - i
  {
    if i == |s| || IsSpace(s[i]) then
      assert forall j :: 0 <= j < i ==> s[..i][j] == s[j];
      i
    else RunEnd(s, i + 1)
  }

  /** A run ends where the first space is. */
  lemma RunLengthAt(s: string, n: nat)
    requires n <= |s| && NoSpaces(s[..n]) && (n < |s| ==> IsSpace(s[n]))
    ensures RunLength(s) == n
  {
    var m := RunLength(s);
    assert forall j :: 0 <= j < n ==> !IsSpace(s[j]) by {
      forall j | 0 <= j < n ensures !IsSpace(s[j]) {
        assert s[..n][j] == s[j];
      }
    }
    assert forall j :: 0 <= j < m ==> !IsSpace(s[j]) by {
      forall j | 0 <= j < m ensures !IsSpace(s[j]) {
        assert s[..m][j] == s[j];
      }
    }
  }

  // ----- `-r \S*[seps]<tail>` -----

  /** A separator at `j` followed by `tail`: where `[seps]<tail>` can match. */
  predicate RefAt(s: string, j: nat, seps: set<char>, tail: string) {
    j < |s| && s[j] in seps && StartsWith(s[j + 1..], tail)
  }

  /** The largest `k < hi` where `[seps]<tail>` matches: the first position the
      greedy `\S*` gives back to when it backtracks from `hi`. */
  function LastRef(s: string, hi: nat, seps: set<char>, tail: string): (k: Option<nat>)
    requires hi <= |s|
    ensures k.Some? ==> k.value < hi && RefAt(s, k.value, seps, tail)
    ensures k.Some? ==> forall j :: k.value < j < hi ==> !RefAt(s, j, seps, tail)
    ensures k.None? ==> forall j :: 0 <= j < hi ==> !RefAt(s, j, seps, tail)
  {
    if hi == 0 then None
    else if RefAt(s, hi - 1, seps, tail) then Some(hi - 1)
    else
      LastRef(s, hi - 1, seps, tail)
  }

  /** Length of the match of `-r \S*[seps]<tail>` starting at the beginning of `s`. */
  function InputRefMatch(s: string, seps: set<char>, tail: string): (n: Option<nat>)
    ensures n.Some? ==> 3 < n.value <= |s|
  {
    if !StartsWith(s, "-r ") then None
    else
      var body := s[3..];
      match LastRef(body, RunLength(body), seps, tail)
      case None => None
      case Some(k) => Some(3 + k + 1 + |tail|)
  }

  /** `re.sub(r"-r \S*[seps]<tail>", repl, s)`: scan left to right, replace each
      match, resume after it. */
  function SubInputRefs(s: string, seps: set<char>, tail: string, repl: string): string
    decreases |s|
  {
    if s == [] then []
    else
      match InputRefMatch(s, seps, tail)
      case Some(n) => repl + SubInputRefs(s[n..], seps, tail, repl)
      case None => [s[0]] + SubInputRefs(s[1..], seps, tail, repl)
  }

  /** No position of `s` starts a match. */
  predicate NoInputRef(s: string, seps: set<char>, tail: string) {
    forall i :: 0 <= i < |s| ==> InputRefMatch(s[i..], seps, tail).None?
  }

  /** Text in which the pattern matches nowhere comes back unchanged. */
  lemma {:induction false} SubInputRefsUnchanged(s: string, seps: set<char>, tail: string, repl: string)
    requires NoInputRef(s, seps, tail)
    ensures SubInputRefs(s, seps, tail, repl) == s
  {
    if s != [] {
      assert InputRefMatch(s[0..], seps, tail).None?;
      assert s[0..] == s;
      assert NoInputRef(s[1..], seps, tail) by {
        forall i | 0 <= i < |s[1..]| ensures InputRefMatch(s[1..][i..], seps, tail).None? {
          assert s[1..][i..] == s[i + 1..];
        }
      }
      SubInputRefsUnchanged(s[1..], seps, tail, repl);
    }
  }

  /** Text without a separator character has no match. */
  lemma NoSeparatorNoInputRef(s: string, seps: set<char>, tail: string)
    requires forall j :: 0 <= j < |s| ==> s[j] !in seps
    ensures NoInputRef(s, seps, tail)
  {
    forall i | 0 <= i < |s| ensures InputRefMatch(s[i..], seps, tail).None? {
      var t := s[i..];
      if StartsWith(t, "-r ") {
        var body := t[3..];
        assert forall j :: 0 <= j < |body| ==> body[j] == s[i + 3 + j];
        assert forall j :: 0 <= j < |body| ==> !RefAt(body, j, seps, tail);
      }
    }
  }

  /** A separator at `j`, before the first space `e`, cannot start `tail` when `tail` would
      run over the first space (or the end of the text). */
  lemma NoLaterRef(s: string, j: nat, e: nat, seps: set<char>, tail: string)
    requires j < e <= |s| && (e < |s| ==> IsSpace(s[e])) && NoSpaces(tail)
    requires e < j + 1 + |tail|
    ensures !RefAt(s, j, seps, tail)
  {
    var t := s[j + 1..];
    if |tail| <= |t| {
      assert e < |s|;
      assert t[..|tail|][e - j - 1] == s[e];
      assert !IsSpace(tail[e - j - 1]);
      assert t[..|tail|] != tail;
    }
  }

  /** `-r <dir><sep><env>.in` standing as its own token is replaced, and the
      scan resumes right after it. */
  lemma RewriteInputRef(dir: string, sep: char, tail: string, rest: string, seps: set<char>, repl: string)
    requires NoSpaces(dir) && sep in seps && !IsSpace(sep) && NoSpaces(tail)
    requires rest == [] || IsSpace(rest[0])
    ensures SubInputRefs("-r " + dir + [sep] + tail + rest, seps, tail, repl)
         == repl + SubInputRefs(rest, seps, tail, repl)
  {
    var body := dir + [sep] + tail + rest;
    var s := "-r " + body;
    assert "-r " + dir + [sep] + tail + rest == s;
    var e := |dir| + 1 + |tail|;
    assert InputRefMatch(s, seps, tail) == Some(3 + e) by {
      assert s[..3] == "-r " && s[3..] == body;
      TokenFacts(body, dir, sep, tail, rest, seps);
      InputRefBody(body, |dir|, e, seps, tail);
    }
    assert s[3 + e..] == rest by {
      assert s[3..] == body;
      assert body[e..] == rest;
    }
  }

  /** Where things are in `<dir><sep><tail><rest>`. */
  lemma TokenFacts(body: string, dir: string, sep: char, tail: string, rest: string, seps: set<char>)
    requires NoSpaces(dir) && sep in seps && !IsSpace(sep) && NoSpaces(tail)
    requires rest == [] || IsSpace(rest[0])
    requires body == dir + [sep] + tail + rest
    ensures var e := |dir| + 1 + |tail|;
      e <= |body| && NoSpaces(body[..e]) && (e < |body| ==> IsSpace(body[e]))
      && RefAt(body, |dir|, seps, tail)
  {
    var token := dir + [sep] + tail;
    assert body == token + rest;
    assert body[..|token|] == token;
    assert NoSpaces(token) by {
      forall j | 0 <= j < |token| ensures !IsSpace(token[j]) {
        if j < |dir| { assert token[j] == dir[j]; }
        else if j > |dir| { assert token[j] == tail[j - |dir| - 1]; }
      }
    }
    assert body[|dir|] == sep;
    assert body[|dir| + 1..][..|tail|] == tail;
    assert |token| < |body| ==> body[|token|] == rest[0];
  }

  /** A run of non-spaces ending at `e`, in which the last separator followed by
      `tail` is at `k` with `tail` reaching `e`: the run is `e` long and `k` is
      the backtracking point. */
  lemma InputRefBody(body: string, k: nat, e: nat, seps: set<char>, tail: string)
    requires e <= |body| && NoSpaces(body[..e]) && (e < |body| ==> IsSpace(body[e]))
    requires NoSpaces(tail) && k < e && e == k + 1 + |tail| && RefAt(body, k, seps, tail)
    ensures RunLength(body) == e
    ensures LastRef(body, e, seps, tail) == Some(k)
  {
    RunLengthAt(body, e);
    LastRefAt(body, e, k, seps, tail);
  }

  /** The separator right before a `tail` that reaches the end of the run is the last one. */
  lemma {:induction false} LastRefAt(s: string, e: nat, k: nat, seps: set<char>, tail: string)
    requires e <= |s| && (e < |s| ==> IsSpace(s[e])) && NoSpaces(tail)
    requires k < e && e == k + 1 + |tail| && RefAt(s, k, seps, tail)
    ensures LastRef(s, e, seps, tail) == Some(k)
  {
    forall j | k < j < e ensures !RefAt(s, j, seps, tail) {
      NoLaterRef(s, j, e, seps, tail);
    }
  }

  /** A token without spaces followed by a space (or nothing) is one `\S*` run. */
  lemma RunOfToken(token: string, rest: string)
    requires NoSpaces(token) && (rest == [] || IsSpace(rest[0]))
    ensures RunLength(token + rest) == |token|
  {
    var s := token + rest;
    assert s[..|token|] == token;
    assert |token| < |s| ==> s[|token|] == rest[0];
    RunLengthAt(s, |token|);
  }

  // ----- `-c \S*` -----

  /** Length of the match of `-c \S*` starting at the beginning of `s`. */
  function ConstraintRefMatch(s: string): (n: Option<nat>)
    ensures n.Some? ==> 3 <= n.value <= |s|
  {
    if StartsWith(s, "-c ") then Some(3 + RunLength(s[3..])) else None
  }

  /** `re.sub(r"-c \S*", lambda _: f"-c {path}", s)` */
  function SubConstraintRefs(s: string, path: string): string
    decreases |s|
  {
    if s == [] then []
    else
      match ConstraintRefMatch(s)
      case Some(n) => "-c " + path + SubConstraintRefs(s[n..], path)
      case None => [s[0]] + SubConstraintRefs(s[1..], path)
  }

  /** `-c <token>` is replaced by `-c <path>` whatever the token was. */
  lemma RewriteConstraintRef(token: string, rest: string, path: string)
    requires NoSpaces(token) && (rest == [] || IsSpace(rest[0]))
    ensures SubConstraintRefs("-c " + token + rest, path) == "-c " + path + SubConstraintRefs(rest, path)
  {
    var s := "-c " + token + rest;
    assert s[..3] == "-c " && s[3..] == token + rest;
    RunOfToken(token, rest);
    assert s[3 + |token|..] == rest;
  }

  /** Text without `-c ` comes back unchanged. */
  lemma {:induction false} SubConstraintRefsUnchanged(s: string, path: string)
    requires forall i :: 0 <= i < |s| ==> !StartsWith(s[i..], "-c ")
    ensures SubConstraintRefs(s, path) == s
  {
    if s != [] {
      assert s[0..] == s;
      assert forall i :: 0 <= i < |s[1..]| ==> s[1..][i..] == s[i + 1..];
      SubConstraintRefsUnchanged(s[1..], path);
    }
  }

  // ----- `re.search` of a literal followed by `(.*)` -----

  /** The first index at or after `from` where `pat` occurs. */
  function FindFrom(s: string, pat: string, from: nat): (i: Option<nat>)
    requires from <= |s|
    ensures i.Some? ==> from <= i.value <= |s| && StartsWith(s[i.value..], pat)
    ensures i.Some? ==> forall j :: from <= j < i.value ==> !StartsWith(s[j..], pat)
    ensures i.None? ==> forall j :: from <= j <= |s| ==> !StartsWith(s[j..], pat)
    decreases |s| - from
  {
    if StartsWith(s[from..], pat) then Some(from)
    else if from == |s| then None
    else FindFrom(s, pat, from + 1)
  }

  /** What `(.*)` captures at the start of `s`: everything up to the first `\n`. */
  function RestOfLine(s: string): (r: string)
    ensures '\n' !in r && StartsWith(s, r)
    ensures |r| < |s| ==> s[|r|] == '\n'
  {
    s[..FirstIndex(s, '\n')]
  }

  /** `re.search(re.escape(marker) + "(.*)", s).group(1)`, or `None` without a match. */
  function SearchLine(s: string, marker: string): (r: Option<string>)
    ensures r.None? <==> FindFrom(s, marker, 0).None?
  {
    match FindFrom(s, marker, 0)
    case None => None
    case Some(i) => Some(RestOfLine(s[i + |marker|..]))
  }

  /** A marker at `at`, absent everywhere before, is the one found; the capture
      is the rest of its line. */
  lemma SearchLineAt(s: string, marker: string, at: nat, line: string, after: string)
    requires at <= |s| && forall j :: 0 <= j < at ==> !StartsWith(s[j..], marker)
    requires s[at..] == marker + line + after && '\n' !in line && (after == [] || after[0] == '\n')
    ensures SearchLine(s, marker) == Some(line)
  {
    assert StartsWith(s[at..], marker);
    assert FindFrom(s, marker, 0) == Some(at);
    var rest := s[at + |marker|..];
    assert rest == line + after;
    assert forall j :: 0 <= j < |line| ==> rest[j] == line[j];
    FirstIndexAt(rest, '\n', |line|);
  }

  // ----- `# \[constraints\] \S* \(SHA256: (.*)\)` -----

  const ConstraintsTag: string := "# [constraints] "
  const ShaTag: string := " (SHA256: "

  /** The last index of `c` in `s[..hi]`. */
  function LastIndex(s: string, hi: nat, c: char): (k: Option<nat>)
    requires hi <= |s|
    ensures k.Some? ==> k.value < hi && s[k.value] == c
    ensures k.Some? ==> forall j :: k.value < j < hi ==> s[j] != c
    ensures k.None? ==> forall j :: 0 <= j < hi ==> s[j] != c
  {
    if hi == 0 then None
    else if s[hi - 1] == c then Some(hi - 1)
    else LastIndex(s, hi - 1, c)
  }

  /** The digest group when the constraints pattern matches at the start of `t`. */
  function ShaMatch(t: string): (r: Option<string>) {
    if StartsWith(t, ConstraintsTag) then ShaAfterTag(t[|ConstraintsTag|..]) else None
  }

  /** `\S* \(SHA256: (.*)\)` at the start of `u`. `\S*` can only give back to
      the first space, so the run ends exactly where ` (SHA256: ` must begin. */
  function ShaAfterTag(u: string): (r: Option<string>) {
    var v := u[RunLength(u)..];
    if StartsWith(v, ShaTag) then DigestGroup(v[|ShaTag|..]) else None
  }

  /** `(.*)\)` at the start of `w`: up to the last `)` before the end of the line. */
  function DigestGroup(w: string): (r: Option<string>) {
    var line := RestOfLine(w);
    match LastIndex(line, |line|, ')')
    case None => None
    case Some(q) => Some(line[..q])
  }

  /** `re.search` for the constraints pattern from `from` on: the first match's group. */
  function ShaSearch(s: string, from: nat): (r: Option<string>)
    requires from <= |s|
    decreases |s| - from
  {
    match ShaMatch(s[from..])
    case Some(g) => Some(g)
    case None => if from == |s| then None else ShaSearch(s, from + 1)
  }

  /** A constraints line found at `at` with nothing matching before it yields its digest. */
  lemma ShaSearchAt(s: string, from: nat, at: nat, digest: string)
    requires from <= at <= |s| && forall j :: from <= j < at ==> ShaMatch(s[j..]).None?
    requires ShaMatch(s[at..]) == Some(digest)
    ensures ShaSearch(s, from) == Some(digest)
    decreases at - from
  {
    if from < at {
      ShaSearchAt(s, from + 1, at, digest);
    }
  }

  /** The line `# [constraints] <path> (SHA256: <digest>)` matches with group `<digest>`. */
  lemma ShaMatchLine(path: string, digest: string, after: string)
    requires NoSpaces(path) && '\n' !in digest && (after == [] || after[0] == '\n')
    ensures ShaMatch(ConstraintsTag + path + ShaTag + digest + ")" + after) == Some(digest)
  {
    var t := ConstraintsTag + path + ShaTag + digest + ")" + after;
    var u := path + ShaTag + digest + ")" + after;
    assert t == ConstraintsTag + u;
    assert t[..|ConstraintsTag|] == ConstraintsTag && t[|ConstraintsTag|..] == u;
    ShaAfterTagLine(path, digest, after);
  }

  lemma ShaAfterTagLine(path: string, digest: string, after: string)
    requires NoSpaces(path) && '\n' !in digest && (after == [] || after[0] == '\n')
    ensures ShaAfterTag(path + ShaTag + digest + ")" + after) == Some(digest)
  {
    var w := digest + ")" + after;
    var v := ShaTag + w;
    var u := path + v;
    assert u == path + ShaTag + digest + ")" + after;
    RunOfToken(path, v);
    assert u[|path|..] == v;
    assert v[..|ShaTag|] == ShaTag && v[|ShaTag|..] == w;
    DigestGroupLine(digest, after);
  }

  lemma DigestGroupLine(digest: string, after: string)
    requires '\n' !in digest && (after == [] || after[0] == '\n')
    ensures DigestGroup(digest + ")" + after) == Some(digest)
  {
    var w := digest + ")" + after;
    assert forall j :: 0 <= j <= |digest| ==> w[j] == (digest + ")")[j];
    FirstIndexAt(w, '\n', |digest| + 1);
    var line := RestOfLine(w);
    assert line == digest + ")";
    assert LastIndex(line, |line|, ')') == Some(|digest|);
    assert line[..|digest|] == digest;
  }

  /** No match of the constraints pattern starts inside a text that ends in a
      newline and holds no `[`. */
  lemma NoShaMatchBefore(s: string, pre: string, j: nat)
    requires StartsWith(s, pre) && j < |pre| && '[' !in pre && pre[|pre| - 1] == '\n'
    ensures ShaMatch(s[j..]).None?
  {
    var t := s[j..];
    if |t| >= |ConstraintsTag| {
      var k := if j + 2 < |pre| then 2 else if j + 1 < |pre| then 1 else 0;
      assert t[k] == s[j + k] == pre[j + k];
      assert t[..|ConstraintsTag|][k] != ConstraintsTag[k];
    }
  }
}
