/** The lockfile header codec of `hatch_pip_compile/lock.py`: `process_lock`
    turns a resolver's output into the lockfile (a comment header recording the
    Python version, the constraints file's digest and the declared
    dependencies, then a blank line, then the rewritten body), and the readers
    and comparators get that information back to decide whether the lockfile
    is stale. */
module Lock {
  import opened Text
  import opened Host
  import opened Patterns
  import opened Header

  // ----- Versions -----

  /** A version: its release numbers `N(.N)*` and whatever follows them
      (pre-, post-, dev- or local parts), kept as text. */
  datatype Version = Version(release: seq<nat>, suffix: string) {
    /** `Version.major` */
    function Major(): nat { if |release| > 0 then release[0] else 0 }
    /** `Version.minor` */
    function Minor(): nat { if |release| > 1 then release[1] else 0 }
  }

  /** The release without its trailing zeros: `3.11` and `3.11.0` are one version. */
  function TrimZeros(r: seq<nat>): (t: seq<nat>)
    ensures |t| <= |r| && t == r[..|t|]
    ensures t == [] || t[|t| - 1] != 0
    ensures forall k :: |t| <= k < |r| ==> r[k] == 0
  {
    if r == [] || r[|r| - 1] != 0 then r
    else
      var t := TrimZeros(r[..|r| - 1]);
      assert t == r[..|t|];
      t
  }

  /** `Version.__eq__` */
  predicate SameVersion(a: Version, b: Version) {
    TrimZeros(a.release) == TrimZeros(b.release) && a.suffix == b.suffix
  }

  predicate IsReleaseChar(c: char) { IsDigit(c) || c == '.' }

  /** Where the run of digits and dots that starts at 0 and covers `s[..i]` ends. */
  function ReleaseEnd(s: string, i: nat): (n: nat)
    requires i <= |s| && forall j :: 0 <= j < i ==> IsReleaseChar(s[j])
    ensures i <= n <= |s| && forall j :: 0 <= j < n ==> IsReleaseChar(s[j])
    ensures n < |s| ==> !IsReleaseChar(s[n])
    decreases |s| - i
  {
    if i == |s| || !IsReleaseChar(s[i]) then i else ReleaseEnd(s, i + 1)
  }

  /** Dot-separated non-empty decimal numbers, or `None`. */
  function ParseRelease(s: string): (r: Option<seq<nat>>)
    ensures r.Some? ==> |r.value| > 0
    decreases |s|
  {
    var i := FirstIndex(s, '.');
    var head := s[..i];
    if head == [] || !AllDigits(head) then None
    else if i == |s| then Some([DecimalValue(head)])
    else
      match ParseRelease(s[i + 1..])
      case None => None
      case Some(rest) => Some([DecimalValue(head)] + rest)
  }

  /** `".".join(str(n) for n in release)` */
  function ReleaseText(release: seq<nat>): (s: string)
    requires |release| > 0
    ensures |s| > 0 && IsDigit(s[0]) && IsDigit(s[|s| - 1])
    ensures forall j :: 0 <= j < |s| ==> IsReleaseChar(s[j])
  {
    var head := Decimal(release[0]);
    if |release| == 1 then head
    else
      var rest := ReleaseText(release[1..]);
      var s := head + "." + rest;
      assert forall j :: 0 <= j < |head| ==> s[j] == head[j];
      assert forall j :: |head| < j < |s| ==> s[j] == rest[j - |head| - 1];
      s
  }

  /** `packaging.version.Version(text)`, for the versions this plugin handles:
      surrounding whitespace is ignored, the release must be dot-separated
      decimal numbers, and the rest is kept as the version's suffix. */
  function ParseVersion(text: string): (r: Result<Version>)
    ensures r.Ok? ==> |r.value.release| > 0
    ensures r.Err? ==> r.error == InvalidVersion(text)
  {
    var t := Strip(text);
    var n := ReleaseEnd(t, 0);
    match ParseRelease(t[..n])
    case None => Err(InvalidVersion(text))
    case Some(release) => Ok(Version(release, t[n..]))
  }

  /** A release text is its first number, a dot and the rest. */
  lemma ReleaseTextCons(release: seq<nat>)
    requires |release| > 1
    ensures ReleaseText(release) == Decimal(release[0]) + "." + ReleaseText(release[1..])
  {
  }

  /** A lone number parses as a one-number release. */
  lemma ParseReleaseSingle(s: string)
    requires |s| > 0 && AllDigits(s)
    ensures ParseRelease(s) == Some([DecimalValue(s)])
  {
    FirstIndexAt(s, '.', |s|);
    assert s[..|s|] == s;
  }

  /** A number, a dot and a rest parse as that number followed by the rest's release. */
  lemma ParseReleaseCons(s: string, head: string, rest: string)
    requires |head| > 0 && AllDigits(head) && s == head + "." + rest
    ensures ParseRelease(s) ==
      match ParseRelease(rest)
      case None => None
      case Some(r) => Some([DecimalValue(head)] + r)
  {
    assert forall j :: 0 <= j < |head| ==> s[j] == head[j];
    FirstIndexAt(s, '.', |head|);
    assert s[..|head|] == head && s[|head| + 1..] == rest;
  }

  /** Writing a release out and parsing it back gives the release. */
  lemma {:induction false} ParseReleaseText(release: seq<nat>)
    requires |release| > 0
    ensures ParseRelease(ReleaseText(release)) == Some(release)
  {
    var head := Decimal(release[0]);
    DecimalRoundTrip(release[0]);
    if |release| == 1 {
      ParseReleaseSingle(head);
      assert ReleaseText(release) == head && release == [release[0]];
    } else {
      ReleaseTextCons(release);
      ParseReleaseCons(ReleaseText(release), head, ReleaseText(release[1..]));
      ParseReleaseText(release[1..]);
      assert release == [release[0]] + release[1..];
    }
  }

  /** A text made of digits and dots is its own release run. */
  lemma ReleaseEndAll(s: string)
    requires forall j :: 0 <= j < |s| ==> IsReleaseChar(s[j])
    ensures ReleaseEnd(s, 0) == |s|
  {
  }

  /** A text of digits and dots, starting and ending with a digit, parses
      as its release with nothing after it. */
  lemma ParseVersionOfRelease(s: string, release: seq<nat>)
    requires |s| > 0 && IsDigit(s[0]) && IsDigit(s[|s| - 1])
    requires ReleaseEnd(s, 0) == |s|
    requires ParseRelease(s) == Some(release)
    ensures ParseVersion(s) == Ok(Version(release, ""))
  {
    assert Strip(s) == s by {
      assert !IsSpace(s[0]) && !IsSpace(s[|s| - 1]);
    }
    assert s[..|s|] == s && s[|s|..] == [] by {
      WholeSlices(s);
    }
    assert ParseRelease(s[..|s|]) == Some(release);
  }

  lemma WholeSlices(s: string)
    ensures s[..|s|] == s && s[|s|..] == []
  {
  }

  /** `Version(str(v))` is `v` for a plain release. */
  lemma ParseVersionText(release: seq<nat>)
    requires |release| > 0
    ensures ParseVersion(ReleaseText(release)) == Ok(Version(release, ""))
  {
    ParseReleaseText(release);
    ReleaseEndAll(ReleaseText(release));
    ParseVersionOfRelease(ReleaseText(release), release);
  }

  /** `f"{v.major}.{v.minor}"` */
  function VersionText(v: Version): string {
    ReleaseText([v.Major(), v.Minor()])
  }

  /** Equality is up to trailing zeros, and only the first two numbers make the
      major and minor version: `3.11` equals `3.11.0` but not `3.11.4`. */
  lemma VersionEqualityExamples()
    ensures SameVersion(Version([3, 11], ""), Version([3, 11, 0], ""))
    ensures !SameVersion(Version([3, 11], ""), Version([3, 11, 4], ""))
    ensures Version([3, 11, 4], "").Major() == 3 && Version([3, 11, 4], "").Minor() == 11
  {
    assert TrimZeros([3, 11, 0]) == TrimZeros([3, 11]);
    assert TrimZeros([3, 11, 4]) == [3, 11, 4];
  }

  // ----- The lockfile text -----

  /** The marker line's text before the version. Written in short pieces,
      which the verifier reads character by character more easily than one
      long literal. */
  const Marker: string := "# This" + " file is" + " autogenerated" + " by hatch-pip-compile" + " with Python "

  /** What the header records about the constraints file. */
  datatype Constraint = Constraint(path: string, digest: string)

  /** `# [constraints] <path> (SHA256: <digest>)` */
  function ConstraintsLine(c: Constraint): string {
    ConstraintsTag + c.path + ShaTag + c.digest + ")"
  }

  /** The body after the header: the resolver's output with its reference to
      the temporary `<env>.in` file, and then any `-c` reference, rewritten. */
  function LockBody(name: string, raw: string, constraint: Option<Constraint>): string {
    var cleaned := SubInputRefs(raw, {'\\', '/'}, name + ".in", "hatch.envs." + name);
    match constraint
    case None => cleaned
    case Some(c) => SubConstraintRefs(cleaned, c.path)
  }

  /** The first three header lines: `dedent(raw_prefix).strip()`. */
  function Prefix(version: string): string {
    "#\n" + Marker + version + "\n#"
  }

  /** The header lines after the prefix, joined: the `[constraints]` line and
      a `#` line when there is a constraints file, then one entry line per
      dependency. */
  function JoinedDependencies(deps: seq<string>, constraint: Option<Constraint>): string {
    var joined := Join("\n", EntryLines(deps));
    match constraint
    case None => joined
    case Some(c) => Join("\n", [ConstraintsLine(c), "#", joined])
  }

  /** The whole header, closed by a `#` line. */
  function LockHeader(version: string, deps: seq<string>, constraint: Option<Constraint>): string {
    Prefix(version) + "\n" + JoinedDependencies(deps, constraint) + "\n#"
  }

  /** The text `process_lock` writes: the header, an empty line, the body. */
  function LockText(version: string, deps: seq<string>, name: string, raw: string, constraint: Option<Constraint>): string {
    LockHeader(version, deps, constraint) + "\n\n" + LockBody(name, raw, constraint)
  }

  /** The header's lines. An empty dependency list still leaves its (empty) line. */
  function HeaderLines(version: string, deps: seq<string>, constraint: Option<Constraint>): seq<string> {
    ["#", Marker + version, "#"]
    + (match constraint case None => [] case Some(c) => [ConstraintsLine(c), "#"])
    + (if deps == [] then [""] else EntryLines(deps))
    + ["#"]
  }

  /** `hashlib.sha256(contents.replace(b"\r\n", b"\n")).hexdigest()`, with the
      digest function given. */
  function ContentHash(hash: string -> string, contents: string): string {
    hash(ReplaceCrlf(contents))
  }

  /** A file checked out with Windows line endings hashes like the same file
      with Unix line endings. */
  lemma ContentHashIgnoresCrlf(hash: string -> string, contents: string)
    requires NoCrlf(contents)
    ensures ContentHash(hash, ToCrlf(contents)) == ContentHash(hash, contents)
  {
    ReplaceCrlfUndoesToCrlf(contents);
    ReplaceCrlfNoCrlf(contents);
  }

  /** `process_lock`, as a function of the files it reads: the text it writes
      to `lockfile`, or the error it raises. */
  function ProcessLockText(env: Environment, files: map<string, string>, lockfile: string, hash: string -> string): (r: Result<string>)
    ensures r.Ok? ==> CurrentPythonVersion(env).Ok? && lockfile in files
    ensures r.Ok? && env.constraintsFile.Some? ==> env.constraintsFile.value in files
  {
    match CurrentPythonVersion(env)
    case Err(e) => Err(e)
    case Ok(current) =>
      match ReadText(files, lockfile)
      case Err(e) => Err(e)
      case Ok(raw) =>
        var version := VersionText(current);
        match env.constraintsFile
        case None => Ok(LockText(version, env.dependencies, env.name, raw, None))
        case Some(path) =>
          match ReadText(files, path)
          case Err(e) => Err(e)
          case Ok(contents) =>
            match RelativePosix(path, env.root)
            case Err(e) => Err(e)
            case Ok(rel) =>
              Ok(LockText(version, env.dependencies, env.name, raw, Some(Constraint(rel, ContentHash(hash, contents)))))
  }

  /** `process_lock`: one write of the text above. */
  method ProcessLock(host: Host, env: Environment, lockfile: string, hash: string -> string) returns (r: Result<()>)
    modifies host
    ensures r.Ok? <==> ProcessLockText(env, old(host.files), lockfile, hash).Ok?
    ensures r.Ok? ==> host.files == old(host.files)[lockfile := ProcessLockText(env, old(host.files), lockfile, hash).value]
    ensures r.Err? ==> host.files == old(host.files)
    ensures host.log == old(host.log) && host.environ == old(host.environ)
  {
    var text := ProcessLockText(env, host.files, lockfile, hash);
    if text.Err? {
      return Err(text.error);
    }
    host.WriteText(lockfile, text.value);
    return Ok(());
  }

  // ----- The readers -----

  /** `current_python_version` */
  function CurrentPythonVersion(env: Environment): (r: Result<Version>)
    ensures env.pythonVersion.None? <==> r == Err(NotImplemented("VirtualEnv is not set"))
  {
    match env.pythonVersion
    case None => Err(NotImplemented("VirtualEnv is not set"))
    case Some(text) => ParseVersion(text)
  }

  /** `read_header_requirements`: the `# - ` entries up to the first line that
      is not a comment. */
  method ReadHeaderRequirements(env: Environment, files: map<string, string>) returns (r: Result<seq<string>>)
    ensures r.Ok? <==> env.lockFile in files
    ensures r.Ok? ==> r.value == HeaderOf(files[env.lockFile])
  {
    var text := ReadText(files, env.lockFile);
    if text.Err? {
      return Err(text.error);
    }
    var lines := SplitLines(text.value);
    var parsed := [];
    var i := 0;
    while i < |lines|
      invariant i <= |lines|
      invariant parsed + HeaderEntries(lines[i..]) == HeaderEntries(lines)
    {
      assert lines[i..][0] == lines[i] && lines[i..][1..] == lines[i + 1..];
      if StartsWith(lines[i], "# - ") {
        parsed := parsed + [lines[i][4..]];
      } else if !StartsWith(lines[i], "#") {
        break;
      }
      i := i + 1;
    }
    return Ok(parsed);
  }

  /** `lock_file_version`: the version on the marker line, or `LockFileError`
      when there is no marker line. */
  function LockFileVersion(env: Environment, files: map<string, string>): (r: Result<Version>)
    ensures r.Err? && r.error.LockFileError? <==>
      env.lockFile in files && FindFrom(files[env.lockFile], Marker, 0).None?
  {
    match ReadText(files, env.lockFile)
    case Err(e) => Err(e)
    case Ok(text) =>
      match SearchLine(text, Marker)
      case None => Err(LockFileError("Could not find lock file python version"))
      case Some(v) => ParseVersion(v)
  }

  /** What `compare_python_versions` returns, and whether it logged its warning. */
  datatype Comparison = Comparison(result: bool, warned: bool)

  /** `compare_python_versions`: the result is full version equality; the
      warning is about major and minor only, and `verbose=False` silences it. */
  function ComparePythonVersions(env: Environment, files: map<string, string>, verbose: Option<bool>): (r: Result<Comparison>)
    ensures r.Ok? <==> LockFileVersion(env, files).Ok? && CurrentPythonVersion(env).Ok?
    ensures r.Ok? ==>
      var lock, current := LockFileVersion(env, files).value, CurrentPythonVersion(env).value;
      (r.value.result <==> SameVersion(lock, current))
      && (r.value.warned <==> (lock.Major() != current.Major() || lock.Minor() != current.Minor()) && verbose != Some(false))
  {
    match LockFileVersion(env, files)
    case Err(e) => Err(e)
    case Ok(lock) =>
      match CurrentPythonVersion(env)
      case Err(e) => Err(e)
      case Ok(current) =>
        var matching := current.Major() == lock.Major() && current.Minor() == lock.Minor();
        Ok(Comparison(SameVersion(lock, current), !matching && verbose != Some(false)))
  }

  /** `compare_requirements`: the requirements and the header hold the same
      set of requirements, whatever the order and repetitions. */
  function CompareRequirements(env: Environment, files: map<string, string>, requirements: seq<string>): (r: Result<bool>)
    ensures r.Ok? <==> env.lockFile in files
    ensures r.Ok? ==> (r.value <==> forall x :: x in requirements <==> x in HeaderOf(files[env.lockFile]))
  {
    match ReadText(files, env.lockFile)
    case Err(e) => Err(e)
    case Ok(text) =>
      var header := HeaderOf(text);
      SameElements(requirements, header);
      Ok((set x | x in requirements) == (set x | x in header))
  }

  /** Two lists make the same set exactly when they have the same elements. */
  lemma SameElements(a: seq<string>, b: seq<string>)
    ensures (set x | x in a) == (set x | x in b) <==> forall x :: x in a <==> x in b
  {
    var sa, sb := set y | y in a, set y | y in b;
    if forall x :: x in a <==> x in b {
      forall x ensures x in sa <==> x in sb {
        assert x in sa <==> x in a;
        assert x in sb <==> x in b;
      }
      assert sa == sb;
    } else {
      var x :| !(x in a <==> x in b);
      assert (x in sa) != (x in sb);
    }
  }

  /** `compare_constraint_sha`: `False` without a `[constraints]` line,
      otherwise whether its digest and `sha` agree once stripped. */
  function CompareConstraintSha(env: Environment, files: map<string, string>, sha: string): (r: Result<bool>)
    ensures r.Ok? <==> env.lockFile in files
    ensures r.Ok? && ShaSearch(files[env.lockFile], 0).None? ==> !r.value
    ensures r.Ok? && ShaSearch(files[env.lockFile], 0).Some? ==>
      (r.value <==> Strip(ShaSearch(files[env.lockFile], 0).value) == Strip(sha))
  {
    match ReadText(files, env.lockFile)
    case Err(e) => Err(e)
    case Ok(text) =>
      match ShaSearch(text, 0)
      case None => Ok(false)
      case Some(digest) => Ok(Strip(digest) == Strip(sha))
  }

  /** `get_file_content_hash` */
  function GetFileContentHash(env: Environment, files: map<string, string>, hash: string -> string): (r: Result<string>)
    ensures r.Ok? <==> env.lockFile in files
    ensures r.Ok? ==> r.value == hash(ReplaceCrlf(files[env.lockFile]))
  {
    match ReadText(files, env.lockFile)
    case Err(e) => Err(e)
    case Ok(contents) => Ok(ContentHash(hash, contents))
  }

  /** `read_lock_requirements`: no dependencies means no requirements, without
      reading the lockfile; otherwise pip-tools' parse of the lockfile (`parse`). */
  function ReadLockRequirements(env: Environment, files: map<string, string>, parse: string -> seq<string>): (r: Result<seq<string>>)
    ensures env.dependencies == [] ==> r == Ok([])
    ensures env.dependencies != [] ==> (r.Ok? <==> env.lockFile in files)
  {
    if env.dependencies == [] then Ok([])
    else
      match ReadText(files, env.lockFile)
      case Err(e) => Err(e)
      case Ok(text) => Ok(parse(text))
  }

  // ----- What the readers get back from `process_lock`'s output -----

  /** The marker is plain printable text without a `[`. */
  lemma MarkerChars()
    ensures forall j :: 0 <= j < |Marker| ==> ' ' <= Marker[j] <= 'z' && Marker[j] != '['
  {
  }

  /** Facts about the marker line that the header scan and the
      `[constraints]` search rely on. */
  lemma MarkerFacts(version: string)
    ensures StartsWith(Marker + version, "#") && !StartsWith(Marker + version, "# - ")
    ensures NoLineBreaks(Marker) && '[' !in Marker
    ensures |Marker| > 1 && Marker[0] == '#' && Marker[1] == ' '
  {
    MarkerChars();
    assert (Marker + version)[..1] == "#";
    assert (Marker + version)[2] == 'T';
  }

  /** Facts about the `[constraints]` line that the header scan relies on. */
  lemma ConstraintsLineFacts(c: Constraint)
    ensures StartsWith(ConstraintsLine(c), "#") && !StartsWith(ConstraintsLine(c), "# - ")
  {
    assert ConstraintsLine(c)[..1] == "#";
    assert ConstraintsLine(c)[2] == '[';
  }

  lemma JoinTwo(sep: string, a: string, b: string)
    ensures Join(sep, [a, b]) == a + sep + b
  {
    assert [a, b][1..] == [b];
  }

  lemma JoinThree(sep: string, a: string, b: string, c: string)
    ensures Join(sep, [a, b, c]) == a + sep + b + sep + c
  {
    assert [a, b, c][1..] == [b, c];
    JoinTwo(sep, b, c);
  }

  /** Joining a list closed by a `#` line. */
  lemma JoinClosed(xs: seq<string>)
    requires xs != []
    ensures Join("\n", xs + ["#"]) == Join("\n", xs) + "\n#"
  {
    JoinAppend("\n", xs, ["#"]);
    assert Join("\n", ["#"]) == "#";
  }

  /** Joining two lists with a newline between them. */
  lemma JoinBoth(xs: seq<string>, ys: seq<string>, a: string, b: string)
    requires xs != [] && ys != [] && Join("\n", xs) == a && Join("\n", ys) == b
    ensures Join("\n", xs + ys) == a + "\n" + b
  {
    JoinAppend("\n", xs, ys);
  }

  /** Lines framed by a leading block and a closing `#` line, joined. */
  lemma JoinFramed(xs: seq<string>, ys: seq<string>, a: string, b: string)
    requires xs != [] && ys != [] && Join("\n", xs) == a && Join("\n", ys) == b
    ensures Join("\n", xs + ys + ["#"]) == a + "\n" + b + "\n#"
  {
    JoinBoth(xs, ys, a, b);
    JoinClosed(xs + ys);
  }

  /** The lines between the prefix and the closing `#`, joined. */
  lemma MiddleJoin(deps: seq<string>, constraint: Option<Constraint>)
    ensures
      var E := if deps == [] then [""] else EntryLines(deps);
      var C: seq<string> := match constraint case None => [] case Some(c) => [ConstraintsLine(c), "#"];
      Join("\n", C + E) == JoinedDependencies(deps, constraint)
  {
    var E := if deps == [] then [""] else EntryLines(deps);
    var joined := Join("\n", EntryLines(deps));
    assert Join("\n", E) == joined;
    match constraint
    case None =>
      assert [] + E == E;
    case Some(c) =>
      var C := [ConstraintsLine(c), "#"];
      JoinTwo("\n", ConstraintsLine(c), "#");
      JoinBoth(C, E, Join("\n", C), joined);
      JoinThree("\n", ConstraintsLine(c), "#", joined);
  }

  /** The prefix is its three lines joined. */
  lemma PrefixJoin(version: string)
    ensures Join("\n", ["#", Marker + version, "#"]) == Prefix(version)
  {
    JoinThree("\n", "#", Marker + version, "#");
  }

  /** The header is its lines joined by newlines. */
  lemma LockHeaderJoin(version: string, deps: seq<string>, constraint: Option<Constraint>)
    ensures LockHeader(version, deps, constraint) == Join("\n", HeaderLines(version, deps, constraint))
  {
    var P := ["#", Marker + version, "#"];
    var E := if deps == [] then [""] else EntryLines(deps);
    var C: seq<string> := match constraint case None => [] case Some(c) => [ConstraintsLine(c), "#"];
    assert HeaderLines(version, deps, constraint) == P + (C + E) + ["#"] by {
      assert HeaderLines(version, deps, constraint) == P + C + E + ["#"];
      Associate(P, C, E);
    }
    PrefixJoin(version);
    MiddleJoin(deps, constraint);
    JoinFramed(P, C + E, Prefix(version), JoinedDependencies(deps, constraint));
  }

  /** The header lines have no line breaks of their own. */
  lemma HeaderLinesNoLineBreaks(version: string, deps: seq<string>, constraint: Option<Constraint>)
    requires NoLineBreaks(version) && AllNoLineBreaks(deps)
    requires constraint.Some? ==> NoLineBreaks(ConstraintsLine(constraint.value))
    ensures AllNoLineBreaks(HeaderLines(version, deps, constraint))
  {
    MarkerFacts(version);
    var m := Marker + version;
    assert NoLineBreaks(m) by {
      assert forall j :: 0 <= j < |m| ==> m[j] == if j < |Marker| then Marker[j] else version[j - |Marker|];
    }
    EntryLinesNoLineBreaks(deps);
  }

  /** The lines of the text `process_lock` writes: the header lines, an empty
      line, then the body's lines. */
  lemma LockTextLines(version: string, deps: seq<string>, name: string, raw: string, constraint: Option<Constraint>)
    requires NoLineBreaks(version) && AllNoLineBreaks(deps)
    requires constraint.Some? ==> NoLineBreaks(ConstraintsLine(constraint.value))
    ensures SplitLines(LockText(version, deps, name, raw, constraint))
      == HeaderLines(version, deps, constraint) + [""] + SplitLines(LockBody(name, raw, constraint))
  {
    var s := LockText(version, deps, name, raw, constraint);
    var H := HeaderLines(version, deps, constraint);
    var body := LockBody(name, raw, constraint);
    assert s == Join("\n", H) + "\n" + ("\n" + body) by {
      LockHeaderJoin(version, deps, constraint);
    }
    assert AllNoLineBreaks(H) by {
      HeaderLinesNoLineBreaks(version, deps, constraint);
    }
    SplitLinesOfSections(s, H, body);
  }

  /** The header of the text `process_lock` writes reads back as the
      environment's dependencies, in their order; an empty list reads back
      empty. */
  lemma LockTextHeader(version: string, deps: seq<string>, name: string, raw: string, constraint: Option<Constraint>)
    requires NoLineBreaks(version) && AllNoLineBreaks(deps)
    requires constraint.Some? ==> NoLineBreaks(ConstraintsLine(constraint.value))
    ensures HeaderOf(LockText(version, deps, name, raw, constraint)) == deps
  {
    LockTextLines(version, deps, name, raw, constraint);
    HeaderOfLines(version, deps, constraint, SplitLines(LockBody(name, raw, constraint)));
  }

  /** Whatever follows the header and its empty line, the scan stops there. */
  lemma HeaderOfLines(version: string, deps: seq<string>, constraint: Option<Constraint>, rest: seq<string>)
    ensures HeaderEntries(HeaderLines(version, deps, constraint) + [""] + rest) == deps
  {
    var C := match constraint case None => [] case Some(c) => [ConstraintsLine(c), "#"];
    var plain := ["#", Marker + version, "#"] + C;
    var E := if deps == [] then [""] else EntryLines(deps);
    var tail := ["#"] + ([""] + rest);
    assert HeaderLines(version, deps, constraint) + [""] + rest == plain + (E + tail);
    MarkerFacts(version);
    if constraint.Some? {
      ConstraintsLineFacts(constraint.value);
    }
    HeaderEntriesSkipAll(plain, E + tail);
    if deps == [] {
      HeaderEntriesStop("", tail);
      assert E + tail == [""] + tail;
    } else {
      HeaderEntriesOfEntryLines(deps);
      HeaderEntriesAppend(E, tail);
      HeaderEntriesSkip("#", [""] + rest);
      HeaderEntriesStop("", rest);
    }
  }

  /** The text `process_lock` writes is its prefix followed by the rest. */
  lemma LockTextAfterPrefix(s: string, prefix: string, jd: string, body: string)
    requires s == prefix + "\n" + jd + "\n#" + "\n\n" + body
    ensures s == prefix + ("\n" + jd + "\n#" + "\n\n" + body)
  {
  }

  /** The prefix's middle line is the marker and the version. */
  lemma PrefixShape(s: string, marker: string, version: string, rest: string)
    requires s == "#\n" + marker + version + "\n#" + rest
    ensures s[1] == '\n' && s[2..] == marker + version + ("\n#" + rest)
  {
    assert s == "#\n" + (marker + version + ("\n#" + rest));
  }

  /** The marker line of the text `process_lock` writes carries its version. */
  lemma LockTextVersion(version: string, deps: seq<string>, name: string, raw: string, constraint: Option<Constraint>)
    requires '\n' !in version
    ensures SearchLine(LockText(version, deps, name, raw, constraint), Marker) == Some(version)
  {
    var s := LockText(version, deps, name, raw, constraint);
    var jd := JoinedDependencies(deps, constraint);
    var rest := "\n" + jd + "\n#" + "\n\n" + LockBody(name, raw, constraint);
    LockTextAfterPrefix(s, Prefix(version), jd, LockBody(name, raw, constraint));
    PrefixShape(s, Marker, version, rest);
    var after := "\n#" + rest;
    MarkerFacts(version);
    assert !StartsWith(s[0..], Marker) by { assert s[0..][1] == '\n'; }
    assert !StartsWith(s[1..], Marker) by { assert s[1..][0] == '\n'; }
    SearchLineAt(s, Marker, 2, version, after);
  }

  /** With a constraints file, the text `process_lock` writes is the prefix
      line, the `[constraints]` line, then the rest. */
  lemma ConstrainedShape(s: string, prefix: string, line: string, joined: string, body: string)
    requires s == prefix + "\n" + Join("\n", [line, "#", joined]) + "\n#" + "\n\n" + body
    ensures s == (prefix + "\n") + line + ("\n" + "#" + "\n" + joined + "\n#" + "\n\n" + body)
  {
    JoinThree("\n", line, "#", joined);
  }

  /** The `[constraints]` line of the text `process_lock` writes is the first
      match of the search, and carries its digest. */
  lemma LockTextSha(version: string, deps: seq<string>, name: string, raw: string, c: Constraint)
    requires '\n' !in version && '[' !in version
    requires NoSpaces(c.path) && '\n' !in c.digest
    ensures ShaSearch(LockText(version, deps, name, raw, Some(c)), 0) == Some(c.digest)
  {
    var s := LockText(version, deps, name, raw, Some(c));
    var pre := Prefix(version) + "\n";
    var line := ConstraintsLine(c);
    var body := LockBody(name, raw, Some(c));
    var joined := Join("\n", EntryLines(deps));
    var after := "\n" + "#" + "\n" + joined + "\n#" + "\n\n" + body;
    assert s == pre + (line + after) by {
      ConstrainedShape(s, Prefix(version), line, joined, body);
    }
    assert '[' !in pre && pre[|pre| - 1] == '\n' by {
      MarkerFacts(version);
    }
    ShaFirstAt(s, pre, c, after);
  }

  /** A `[constraints]` line after a text without `[` that ends in a newline
      is what the search finds. */
  lemma ShaFirstAt(s: string, pre: string, c: Constraint, after: string)
    requires s == pre + (ConstraintsLine(c) + after)
    requires |pre| > 0 && '[' !in pre && pre[|pre| - 1] == '\n'
    requires NoSpaces(c.path) && '\n' !in c.digest && |after| > 0 && after[0] == '\n'
    ensures ShaSearch(s, 0) == Some(c.digest)
  {
    assert StartsWith(s, pre) by {
      StartsWithConcat(pre, ConstraintsLine(c) + after);
    }
    forall j | 0 <= j < |pre| ensures ShaMatch(s[j..]).None? {
      NoShaMatchBefore(s, pre, j);
    }
    assert ShaMatch(s[|pre|..]) == Some(c.digest) by {
      assert s[|pre|..] == ConstraintsLine(c) + after;
      ShaMatchLine(c.path, c.digest, after);
    }
    ShaSearchAt(s, 0, |pre|, c.digest);
  }

  /** A text without whitespace has no line breaks. */
  lemma NoSpacesNoLineBreaks(s: string)
    requires NoSpaces(s)
    ensures NoLineBreaks(s)
  {
  }

  /** The `[constraints]` line is one line when its path and digest have no
      whitespace. */
  lemma ConstraintsLineNoLineBreaks(c: Constraint)
    requires NoSpaces(c.path) && NoSpaces(c.digest)
    ensures NoLineBreaks(ConstraintsLine(c))
  {
    NoSpacesNoLineBreaks(c.path);
    NoSpacesNoLineBreaks(c.digest);
    var line := ConstraintsLine(c);
    forall j | 0 <= j < |line| ensures !IsLineBreak(line[j]) {
      var a := |ConstraintsTag|;
      var b := a + |c.path|;
      var d := b + |ShaTag|;
      var e := d + |c.digest|;
      if j < a {
        assert line[j] == ConstraintsTag[j];
      } else if j < b {
        assert line[j] == c.path[j - a];
      } else if j < d {
        assert line[j] == ShaTag[j - b];
      } else if j < e {
        assert line[j] == c.digest[j - d];
      } else {
        assert line[j] == ')';
      }
    }
  }

  /** The `major.minor` text is one line without a `[`. */
  lemma VersionTextPlain(v: Version)
    ensures NoLineBreaks(VersionText(v)) && '[' !in VersionText(v)
  {
    var t := VersionText(v);
    assert forall j :: 0 <= j < |t| ==> IsReleaseChar(t[j]);
  }

  /** A relative path taken from a path without whitespace has none. */
  lemma RelativeNoSpaces(path: string, root: string)
    requires NoSpaces(path) && RelativePosix(path, root).Ok?
    ensures NoSpaces(RelativePosix(path, root).value)
  {
    var r := RelativePosix(path, root).value;
    if path != root {
      assert forall j :: 0 <= j < |r| ==> r[j] == path[|root| + 1 + j];
    }
  }

  /** What `process_lock` writes is what the staleness checks expect: the
      header holds the dependencies in order, the requirements compare equal,
      the marker line gives `major.minor` of the running Python (so no warning
      is logged), and the `[constraints]` digest matches the constraints file
      it was computed from. */
  lemma ProcessLockReadBack(env: Environment, files: map<string, string>, hash: string -> string, verbose: Option<bool>)
    requires ProcessLockText(env, files, env.lockFile, hash).Ok?
    requires AllNoLineBreaks(env.dependencies)
    requires forall x :: NoSpaces(hash(x))
    requires env.constraintsFile.Some? ==> NoSpaces(env.constraintsFile.value)
    ensures
      var after := files[env.lockFile := ProcessLockText(env, files, env.lockFile, hash).value];
      var current := CurrentPythonVersion(env).value;
      var recorded := Version([current.Major(), current.Minor()], "");
      && HeaderOf(after[env.lockFile]) == env.dependencies
      && CompareRequirements(env, after, env.dependencies) == Ok(true)
      && LockFileVersion(env, after) == Ok(recorded)
      && ComparePythonVersions(env, after, verbose) == Ok(Comparison(SameVersion(recorded, current), false))
      && (env.constraintsFile.Some? ==>
            CompareConstraintSha(env, after, ContentHash(hash, files[env.constraintsFile.value])) == Ok(true))
  {
    var text := ProcessLockText(env, files, env.lockFile, hash).value;
    var after := files[env.lockFile := text];
    var current := CurrentPythonVersion(env).value;
    var version := VersionText(current);
    var raw := files[env.lockFile];
    VersionTextPlain(current);
    var constraint: Option<Constraint> :=
      match env.constraintsFile
      case None => None
      case Some(path) =>
        Some(Constraint(RelativePosix(path, env.root).value, ContentHash(hash, files[path])));
    assert text == LockText(version, env.dependencies, env.name, raw, constraint);
    if constraint.Some? {
      RelativeNoSpaces(env.constraintsFile.value, env.root);
      ConstraintsLineNoLineBreaks(constraint.value);
    }
    assert HeaderOf(text) == env.dependencies by {
      LockTextHeader(version, env.dependencies, env.name, raw, constraint);
    }
    assert LockFileVersion(env, after) == Ok(Version([current.Major(), current.Minor()], "")) by {
      LockTextVersion(version, env.dependencies, env.name, raw, constraint);
      ParseVersionText([current.Major(), current.Minor()]);
    }
    if constraint.Some? {
      assert ShaSearch(text, 0) == Some(constraint.value.digest) by {
        NoSpacesNoLineBreaks(constraint.value.digest);
        LockTextSha(version, env.dependencies, env.name, raw, constraint.value);
      }
    }
  }

  /** The `[constraints]` digest `process_lock` writes is the content hash the
      constraint environment computes for its own lockfile: comparing the
      two, as the staleness check does, succeeds. */
  lemma ConstraintDigestIsContentHash(env: Environment, cenv: Environment, files: map<string, string>, hash: string -> string)
    requires ProcessLockText(env, files, env.lockFile, hash).Ok?
    requires AllNoLineBreaks(env.dependencies)
    requires forall x :: NoSpaces(hash(x))
    requires env.constraintsFile.Some? && NoSpaces(env.constraintsFile.value)
    requires cenv.lockFile == env.constraintsFile.value && cenv.lockFile != env.lockFile
    ensures
      var after := files[env.lockFile := ProcessLockText(env, files, env.lockFile, hash).value];
      && GetFileContentHash(cenv, after, hash).Ok?
      && CompareConstraintSha(env, after, GetFileContentHash(cenv, after, hash).value) == Ok(true)
  {
    var after := files[env.lockFile := ProcessLockText(env, files, env.lockFile, hash).value];
    ProcessLockReadBack(env, files, hash, None);
    assert after[cenv.lockFile] == files[env.constraintsFile.value];
    assert GetFileContentHash(cenv, after, hash).value == ContentHash(hash, files[env.constraintsFile.value]);
  }
}
