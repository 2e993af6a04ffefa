/** The path-string helpers of the OpenVINO utility library, POSIX branch:
    `path_join`, `sanitize_path` and `trim_file_name`. Their implementation
    file is not part of this model: the definitions follow the library's
    documented behaviour and are pinned down by the assertions of
    src/core/tests/file_util.cpp, each proved below. */
module PathUtil {
  import opened Common

  /** The POSIX file separator. */
  const Sep: char := '/'

  predicate EndsWithSep(s: string)
  {
    |s| > 0 && s[|s| - 1] == Sep
  }

  predicate IsAbsolute(s: string)
  {
    |s| > 0 && s[0] == Sep
  }

  /** `s` without its trailing separator, if it has one. */
  function DropTrailingSep(s: string): string
  {
    if EndsWithSep(s) then s[..|s| - 1] else s
  }

  // ---------------------------------------------------------------------
  // path_join

  /** Joining two components: an empty second keeps the first, an absolute
      second replaces it, an empty first gives the second, and otherwise a
      separator is inserted unless the first already ends in one, so the
      length grows by exactly the second and one separator. */
  function Join2(a: string, b: string): (r: string)
    ensures |b| == 0 ==> r == a
    ensures IsAbsolute(b) || |a| == 0 ==> r == b
    ensures |a| > 0 && |b| > 0 && !IsAbsolute(b) ==> |r| == |DropTrailingSep(a)| + 1 + |b|
  {
    if |b| > 0 then
      if b[0] == Sep then b
      else if |a| > 0 then
        if a[|a| - 1] != Sep then a + [Sep] + b else a + b
      else b
    else a
  }

  /** What joining two components promises: the second component always
      survives whole at the end; a relative second component keeps the first
      whole at the front; and between two non-empty components there is
      exactly one separator, the first's own trailing one or an inserted
      one. */
  lemma JoinTwoShape(a: string, b: string)
    ensures |b| > 0 ==> |Join2(a, b)| >= |b| && Join2(a, b)[|Join2(a, b)| - |b|..] == b
    ensures !IsAbsolute(b) ==> |Join2(a, b)| >= |a| && Join2(a, b)[..|a|] == a
    ensures |a| > 0 && |b| > 0 && !IsAbsolute(b) ==> Join2(a, b) == DropTrailingSep(a) + [Sep] + b
  {
    if |a| > 0 && |b| > 0 && !IsAbsolute(b) && EndsWithSep(a) {
      assert a == a[..|a| - 1] + [Sep];
    }
  }

  /** `path_join`: a left fold of `Join2` over the components. An absolute
      last component replaces everything before it, and empty components
      join to the empty path. */
  function PathJoin(parts: seq<string>): (r: string)
    ensures |parts| > 0 && IsAbsolute(parts[|parts| - 1]) ==> r == parts[|parts| - 1]
    ensures (forall i :: 0 <= i < |parts| ==> |parts[i]| == 0) ==> r == ""
  {
    if |parts| == 0 then ""
    else if |parts| == 1 then parts[0]
    else Join2(PathJoin(parts[..|parts| - 1]), parts[|parts| - 1])
  }

  /** A plain path component: non-empty, without separators. */
  predicate IsSegment(s: string)
  {
    |s| > 0 && Sep !in s
  }

  /** Components separated by single separators: the reference shape of a
      joined path. */
  function Slashed(parts: seq<string>): string
  {
    if |parts| == 0 then ""
    else if |parts| == 1 then parts[0]
    else Slashed(parts[..|parts| - 1]) + [Sep] + parts[|parts| - 1]
  }

  lemma SlashedEndsWithLast(parts: seq<string>)
    requires |parts| > 0 && forall i :: 0 <= i < |parts| ==> IsSegment(parts[i])
    ensures |Slashed(parts)| > 0 && !EndsWithSep(Slashed(parts))
  {
    var last := parts[|parts| - 1];
    assert last[|last| - 1] in last;
  }

  /** Joining plain components puts exactly one separator between
      neighbours. */
  lemma {:induction false} PathJoinOfSegments(parts: seq<string>)
    requires forall i :: 0 <= i < |parts| ==> IsSegment(parts[i])
    ensures PathJoin(parts) == Slashed(parts)
  {
    if |parts| > 1 {
      var init := parts[..|parts| - 1];
      PathJoinOfSegments(init);
      SlashedEndsWithLast(init);
    }
  }

  /** Joining two components is one `Join2`. */
  lemma JoinPair(a: string, b: string)
    ensures PathJoin([a, b]) == Join2(a, b)
  {
    assert [a, b][..1] == [a];
  }

  /** The path-join test assertions (POSIX). */
  lemma PathJoinExamples()
    ensures PathJoin(["", ""]) == ""
    ensures PathJoin(["", "/test1/test2"]) == "/test1/test2"
    ensures PathJoin(["", "/test1/test2/"]) == "/test1/test2/"
    ensures PathJoin(["", "test1/test2"]) == "test1/test2"
    ensures PathJoin(["/x1/x2", ""]) == "/x1/x2"
    ensures PathJoin(["/x1/x2/", "/"]) == "/"
    ensures PathJoin(["/x1/x2", "/test1/test2"]) == "/test1/test2"
    ensures PathJoin(["/x1/x2/", "test1/test2"]) == "/x1/x2/test1/test2"
    ensures PathJoin(["/x1/x2", "test1/test2"]) == "/x1/x2/test1/test2"
    ensures PathJoin(["/", "test1/test2"]) == "/test1/test2"
  {
    JoinPair("", "");
    JoinPair("", "/test1/test2");
    JoinPair("", "/test1/test2/");
    JoinPair("", "test1/test2");
    JoinPair("/x1/x2", "");
    JoinPair("/x1/x2/", "/");
    JoinPair("/x1/x2", "/test1/test2");
    JoinPair("/x1/x2/", "test1/test2");
    JoinPair("/x1/x2", "test1/test2");
    JoinPair("/", "test1/test2");
  }

  /** Appending a plain component to joined plain components adds one
      separator. */
  lemma JoinSegmentSnoc(parts: seq<string>, x: string)
    requires |parts| > 0 && (forall i :: 0 <= i < |parts| ==> IsSegment(parts[i])) && IsSegment(x)
    ensures PathJoin(parts + [x]) == PathJoin(parts) + [Sep] + x
  {
    PathJoinOfSegments(parts);
    SlashedEndsWithLast(parts);
    assert (parts + [x])[..|parts|] == parts;
    JoinTwoShape(PathJoin(parts), x);
  }

  lemma RegroupTail(q: string, d: string, e: string)
    ensures q + d + [Sep] + e == q + (d + [Sep] + e)
  {
  }

  /** Four, five and six plain components, joined. */
  lemma JoinedFour(a: string, b: string, c: string, d: string)
    requires IsSegment(a) && IsSegment(b) && IsSegment(c) && IsSegment(d)
    ensures PathJoin([a, b, c, d]) == a + [Sep] + b + [Sep] + c + [Sep] + d
  {
    JoinPair(a, b);
    JoinSegmentSnoc([a, b], c);
    assert [a, b] + [c] == [a, b, c];
    JoinSegmentSnoc([a, b, c], d);
    assert [a, b, c] + [d] == [a, b, c, d];
  }

  lemma JoinedFive(a: string, b: string, c: string, d: string, e: string)
    requires IsSegment(a) && IsSegment(b) && IsSegment(c) && IsSegment(d) && IsSegment(e)
    ensures PathJoin([a, b, c, d, e]) == a + [Sep] + b + [Sep] + c + [Sep] + (d + [Sep] + e)
  {
    JoinedFour(a, b, c, d);
    JoinSegmentSnoc([a, b, c, d], e);
    RegroupTail(a + [Sep] + b + [Sep] + c + [Sep], d, e);
    assert [a, b, c, d] + [e] == [a, b, c, d, e];
  }

  lemma JoinedSix(a: string, b: string, c: string, d: string, e: string, f: string)
    requires IsSegment(a) && IsSegment(b) && IsSegment(c) && IsSegment(d) && IsSegment(e) && IsSegment(f)
    ensures PathJoin([a, b, c, d, e, f]) == a + [Sep] + b + [Sep] + c + [Sep] + d + [Sep] + (e + [Sep] + f)
  {
    JoinedFive(a, b, c, d, e);
    RegroupTail(a + [Sep] + b + [Sep] + c + [Sep], d, e);
    JoinSegmentSnoc([a, b, c, d, e], f);
    RegroupTail(a + [Sep] + b + [Sep] + c + [Sep] + d + [Sep], e, f);
    assert [a, b, c, d, e] + [f] == [a, b, c, d, e, f];
  }

  // ---------------------------------------------------------------------
  // sanitize_path

  /** Characters `sanitize_path` strips from the front. */
  predicate IsStripped(c: char)
  {
    c == '/' || c == '.' || c == '\\'
  }

  /** First index of `c` in `s` at or after `from`. */
  function FindChar(s: string, c: char, from: nat): Option<nat>
    requires from <= |s|
    decreases |s| - from
  {
    if from == |s| then None
    else if s[from] == c then Some(from)
    else FindChar(s, c, from + 1)
  }

  /** `FindChar` finds the first occurrence, and reports none only when
      there is none. */
  lemma {:induction false} FindCharIsFirst(s: string, c: char, from: nat)
    requires from <= |s|
    ensures var r := FindChar(s, c, from);
            (r.Some? ==> from <= r.value < |s| && s[r.value] == c &&
                         forall j :: from <= j < r.value ==> s[j] != c) &&
            (r.None? ==> forall j :: from <= j < |s| ==> s[j] != c)
    decreases |s| - from
  {
    if from < |s| && s[from] != c {
      FindCharIsFirst(s, c, from + 1);
    }
  }

  lemma {:induction false} FindCharAbsent(s: string, c: char, from: nat)
    requires from <= |s| && c !in s
    ensures FindChar(s, c, from) == None
    decreases |s| - from
  {
    if from < |s| {
      assert s[from] in s;
      FindCharAbsent(s, c, from + 1);
    }
  }

  /** First index at or after `from` of a character that is not stripped,
      or |s|. */
  function FirstKept(s: string, from: nat): (k: nat)
    requires from <= |s|
    ensures from <= k <= |s|
    decreases |s| - from
  {
    if from == |s| || !IsStripped(s[from]) then from else FirstKept(s, from + 1)
  }

  /** `FirstKept` stops at the first kept character, and only there. */
  lemma {:induction false} FirstKeptIsFirst(s: string, from: nat)
    requires from <= |s|
    ensures forall j :: from <= j < FirstKept(s, from) ==> IsStripped(s[j])
    ensures FirstKept(s, from) < |s| ==> !IsStripped(s[FirstKept(s, from)])
    decreases |s| - from
  {
    if from < |s| && IsStripped(s[from]) {
      FirstKeptIsFirst(s, from + 1);
    }
  }

  /** Every character of `s[from..k]` is stripped. */
  predicate StrippedRun(s: string, from: nat, k: nat)
    requires from <= k <= |s|
    decreases k - from
  {
    from == k || (IsStripped(s[from]) && StrippedRun(s, from + 1, k))
  }

  lemma {:induction false} FirstKeptAt(s: string, from: nat, k: nat)
    requires from <= k <= |s|
    requires StrippedRun(s, from, k)
    requires k < |s| ==> !IsStripped(s[k])
    ensures FirstKept(s, from) == k
    decreases k - from
  {
    if from < k {
      FirstKeptAt(s, from + 1, k);
    }
  }

  /** Everything from `from` up to the first kept position is stripped. */
  lemma {:induction false} FirstKeptRun(s: string, from: nat)
    requires from <= |s|
    ensures StrippedRun(s, from, FirstKept(s, from))
    decreases |s| - from
  {
    if from < |s| && IsStripped(s[from]) {
      FirstKeptRun(s, from + 1);
    }
  }

  /** Where the sanitized path starts: after the first ':' if there is one,
      then past every leading '/', '.' and '\\'. */
  function SanitizeStart(p: string): nat
  {
    var afterColon := match FindChar(p, ':', 0)
                      case None => 0
                      case Some(i) => if i < |p| then i + 1 else |p|;
    FirstKept(p, afterColon)
  }

  /** Every kept character among the first `n` of `p` has a ':' at or after
      it, still before `n`: only a drive or scheme prefix ending in ':' is
      dropped whole. */
  ghost predicate DroppedUpToColon(p: string, n: nat)
    requires n <= |p|
  {
    forall j :: 0 <= j < n && !IsStripped(p[j]) ==> ':' in p[j..n]
  }

  /** The first `n` characters of `p` are exactly a prefix that sanitizing
      drops: everything through the first ':', then only separators and
      dots (from the beginning when there is no ':'). */
  predicate DroppedThroughColon(p: string, n: nat)
    requires n <= |p|
  {
    match FindChar(p, ':', 0)
    case None => StrippedRun(p, 0, n)
    case Some(i) => i < n && StrippedRun(p, i + 1, n)
  }

  /** `sanitize_path`. The result is a suffix of the input that does not
      start with a separator or a dot; every other character dropped is
      followed by a ':' that is dropped too; everything through the first
      ':' is dropped, and after it (or from the start, without a ':') only
      separators and dots are; and a path without ':' that already starts
      with a kept character is left alone. Since the result starts with a
      kept character, this fixes it. */
  function SanitizePath(p: string): (r: string)
    ensures |r| <= |p| && r == p[|p| - |r|..]
    ensures |r| == 0 || !IsStripped(r[0])
    ensures DroppedUpToColon(p, |p| - |r|)
    ensures DroppedThroughColon(p, |p| - |r|)
    ensures ':' !in p && (|p| == 0 || !IsStripped(p[0])) ==> r == p
  {
    SanitizeStartShape(p);
    var r := p[SanitizeStart(p)..];
    SanitizedSuffix(p, r);
    r
  }

  /** The clauses of `SanitizePath`, stated about the suffix from
      `SanitizeStart`. */
  lemma SanitizedSuffix(p: string, r: string)
    requires SanitizeStart(p) <= |p| && r == p[SanitizeStart(p)..]
    ensures |r| <= |p| && r == p[|p| - |r|..]
    ensures |r| == 0 || !IsStripped(r[0])
    ensures DroppedUpToColon(p, |p| - |r|)
    ensures DroppedThroughColon(p, |p| - |r|)
    ensures ':' !in p && (|p| == 0 || !IsStripped(p[0])) ==> r == p
  {
    var k := SanitizeStart(p);
    SanitizeStartShape(p);
    SanitizeStartWithoutColon(p);
    assert |p| - |r| == k;
  }

  /** The clauses of `SanitizePath` pin its result down: any suffix of `p`
      that starts with a kept character and whose dropped prefix runs
      through the first ':' and then only over separators and dots is the
      sanitized path. */
  lemma SanitizeContractDetermines(p: string, r: string)
    requires |r| <= |p| && r == p[|p| - |r|..]
    requires |r| == 0 || !IsStripped(r[0])
    requires DroppedThroughColon(p, |p| - |r|)
    ensures r == SanitizePath(p)
  {
    var n := |p| - |r|;
    assert n < |p| ==> p[n] == r[0];
    match FindChar(p, ':', 0)
    case None =>
      FirstKeptAt(p, 0, n);
    case Some(i) =>
      FindCharIsFirst(p, ':', 0);
      FirstKeptAt(p, i + 1, n);
    SanitizeStartShape(p);
    assert SanitizeStart(p) == n;
  }

  /** The start index is in range and at a kept character; it lies past the
      first ':', and only separators and dots lie between that ':' (or the
      beginning, without one) and the start. */
  lemma SanitizeStartShape(p: string)
    ensures SanitizeStart(p) <= |p|
    ensures SanitizeStart(p) < |p| ==> !IsStripped(p[SanitizeStart(p)])
    ensures DroppedUpToColon(p, SanitizeStart(p))
    ensures DroppedThroughColon(p, SanitizeStart(p))
  {
    FindCharIsFirst(p, ':', 0);
    var f := FindChar(p, ':', 0);
    var afterColon := if f.Some? then f.value + 1 else 0;
    assert SanitizeStart(p) == FirstKept(p, afterColon);
    FirstKeptIsFirst(p, afterColon);
    FirstKeptRun(p, afterColon);
    var k := FirstKept(p, afterColon);
    forall j | 0 <= j < k && !IsStripped(p[j])
      ensures ':' in p[j..k]
    {
      var i := f.value;
      assert p[j..k][i - j] == ':';
    }
  }

  /** Without a ':' and with a kept first character, nothing is dropped. */
  lemma SanitizeStartWithoutColon(p: string)
    ensures ':' !in p && (|p| == 0 || !IsStripped(p[0])) ==> SanitizeStart(p) == 0
  {
    if ':' !in p && (|p| == 0 || !IsStripped(p[0])) {
      FindCharAbsent(p, ':', 0);
    }
  }

  /** The sanitize-path test assertions on paths that climb with "..". */
  lemma SanitizeDottedExamples()
    ensures SanitizePath("../../tensor.data") == "tensor.data"
    ensures SanitizePath("..") == ""
  {
    FindCharAbsent("../../tensor.data", ':', 0);
    FirstKeptAt("../../tensor.data", 0, 6);
    FindCharAbsent("..", ':', 0);
    FirstKeptAt("..", 0, 2);
  }

  /** The sanitize-path test assertion on an absolute path. */
  lemma SanitizeAbsoluteExample()
    ensures SanitizePath("/../tensor.data") == "tensor.data"
  {
    FindCharAbsent("/../tensor.data", ':', 0);
    FirstKeptAt("/../tensor.data", 0, 4);
  }

  /** The sanitize-path test assertion on a plain relative path: it is left
      alone. */
  lemma SanitizePlainExample()
    ensures SanitizePath("workspace/data/tensor.data") == "workspace/data/tensor.data"
  {
    FindCharAbsent("workspace/data/tensor.data", ':', 0);
    FirstKeptAt("workspace/data/tensor.data", 0, 0);
  }

  /** The sanitize-path test assertion on a path climbing with backslashes. */
  lemma SanitizeBackslashExample()
    ensures SanitizePath("..\\..\\tensor.data") == "tensor.data"
  {
    FindCharAbsent("..\\..\\tensor.data", ':', 0);
    FirstKeptAt("..\\..\\tensor.data", 0, 6);
  }

  /** The sanitize-path test assertion on a path with a drive letter. */
  lemma SanitizeDriveExample()
    ensures SanitizePath("C:\\workspace\\tensor.data") == "workspace\\tensor.data"
  {
    var p := "C:\\workspace\\tensor.data";
    assert FindChar(p, ':', 0) == Some(1);
    assert IsStripped(p[2]) && !IsStripped(p[3]);
    FirstKeptAt(p, 2, 3);
    assert SanitizeStart(p) == 3;
    assert p[3..] == "workspace\\tensor.data";
  }

  // ---------------------------------------------------------------------
  // trim_file_name

  /** `pat` occurs in `s` starting at `i`. */
  predicate OccursAt(pat: string, s: string, i: nat)
  {
    i + |pat| <= |s| && s[i..i + |pat|] == pat
  }

  predicate Occurs(pat: string, s: string)
  {
    exists i :: 0 <= i <= |s| && OccursAt(pat, s, i)
  }

  /** `strstr`: the first occurrence of `pat` in `s` at or after `from`. */
  function IndexOf(s: string, pat: string, from: nat): (r: Option<nat>)
    requires from <= |s|
    ensures r.Some? ==> from <= r.value && OccursAt(pat, s, r.value)
    ensures r.Some? ==> forall j :: from <= j < r.value ==> !OccursAt(pat, s, j)
    ensures r.None? ==> forall j :: from <= j <= |s| ==> !OccursAt(pat, s, j)
    decreases |s| - from
  {
    if OccursAt(pat, s, from) then Some(from)
    else if from == |s| then None
    else IndexOf(s, pat, from + 1)
  }

  /** `trim_file_name`: the part of `fname` after the first occurrence of
      the project directory followed by a separator, or all of `fname`. */
  function TrimFileName(fname: string, projectDir: string): (r: string)
    ensures |r| <= |fname| && r == fname[|fname| - |r|..]
    ensures r == fname <==> !Occurs(projectDir + [Sep], fname)
  {
    var pattern := projectDir + [Sep];
    match IndexOf(fname, pattern, 0)
    case None => fname
    case Some(i) =>
      assert OccursAt(pattern, fname, i);
      fname[i + |pattern|..]
  }

  /** What trimming promises: when `projectDir/` occurs, the result is what
      follows its first occurrence; otherwise the name comes back whole. */
  lemma TrimFileNameShape(fname: string, projectDir: string)
    ensures Occurs(projectDir + [Sep], fname) ==>
              exists i :: 0 <= i <= |fname| && OccursAt(projectDir + [Sep], fname, i) &&
                          TrimFileName(fname, projectDir) == fname[i + |projectDir| + 1..] &&
                          forall j :: 0 <= j < i ==> !OccursAt(projectDir + [Sep], fname, j)
    ensures !Occurs(projectDir + [Sep], fname) ==> TrimFileName(fname, projectDir) == fname
  {
    var r := IndexOf(fname, projectDir + [Sep], 0);
    if r.Some? {
      assert OccursAt(projectDir + [Sep], fname, r.value);
    }
  }

  /** A path `prefix/projectDir/rest`, where the project directory is a
      plain segment that does not already end a component of the prefix,
      trims to `rest`. */
  lemma {:induction false} TrimAfterProjectDir(prefix: string, projectDir: string, rest: string)
    requires IsSegment(projectDir)
    requires !Occurs(projectDir + [Sep], prefix + [Sep])
    ensures TrimFileName(prefix + [Sep] + projectDir + [Sep] + rest, projectDir) == rest
  {
    var pattern := projectDir + [Sep];
    var full := prefix + [Sep] + projectDir + [Sep] + rest;
    var k := |prefix| + 1;
    assert full[k..k + |pattern|] == pattern;
    assert OccursAt(pattern, full, k);
    forall i | 0 <= i < k
      ensures !OccursAt(pattern, full, i)
    {
      if i + |pattern| <= k {
        assert full[i..i + |pattern|] == (prefix + [Sep])[i..i + |pattern|];
        assert !OccursAt(pattern, prefix + [Sep], i);
      } else if i + |pattern| <= |full| {
        var j := i + |projectDir|;
        assert full[j] == projectDir[j - k];
        assert projectDir[j - k] in projectDir;
        assert full[i..i + |pattern|][|projectDir|] != pattern[|projectDir|];
      }
    }
    assert IndexOf(full, pattern, 0) == Some(k);
    assert full[k + |pattern|..] == rest;
  }

  /** The trim-file-name test on a relative path through the project
      directory. */
  lemma TrimRelativeExample(projectDir: string)
    requires IsSegment(projectDir)
    requires !Occurs(projectDir + [Sep], "../../../")
    ensures TrimFileName(PathJoin(["..", "..", "..", projectDir, "src", "test_src.cpp"]), projectDir)
            == PathJoin(["src", "test_src.cpp"])
  {
    var up := ".." + [Sep] + ".." + [Sep] + "..";
    JoinedSix("..", "..", "..", projectDir, "src", "test_src.cpp");
    JoinPair("src", "test_src.cpp");
    assert up + [Sep] == "../../../";
    TrimAfterProjectDir(up, projectDir, "src" + [Sep] + "test_src.cpp");
  }

  /** The trim-file-name test on an absolute path through the project
      directory (POSIX joining keeps "home" relative). */
  lemma TrimAbsoluteExample(projectDir: string)
    requires IsSegment(projectDir)
    requires !Occurs(projectDir + [Sep], "home/user/")
    ensures TrimFileName(PathJoin(["home", "user", projectDir, "src", "test_src.cpp"]), projectDir)
            == PathJoin(["src", "test_src.cpp"])
  {
    var up := "home" + [Sep] + "user";
    JoinedFive("home", "user", projectDir, "src", "test_src.cpp");
    JoinPair("src", "test_src.cpp");
    assert up + [Sep] == "home/user/";
    TrimAfterProjectDir(up, projectDir, "src" + [Sep] + "test_src.cpp");
  }

  /** The trim-file-name tests on joined paths that do not pass through the
      project directory: they come back unchanged. */
  lemma TrimWithoutProjectDirExamples(projectDir: string)
    requires !Occurs(projectDir + [Sep], PathJoin(["..", "..", "..", "src", "test_src.cpp"]))
    requires !Occurs(projectDir + [Sep], PathJoin(["home", "user", "src", "test_src.cpp"]))
    ensures TrimFileName(PathJoin(["..", "..", "..", "src", "test_src.cpp"]), projectDir)
            == PathJoin(["..", "..", "..", "src", "test_src.cpp"])
    ensures TrimFileName(PathJoin(["home", "user", "src", "test_src.cpp"]), projectDir)
            == PathJoin(["home", "user", "src", "test_src.cpp"])
  {
    TrimFileNameShape(PathJoin(["..", "..", "..", "src", "test_src.cpp"]), projectDir);
    TrimFileNameShape(PathJoin(["home", "user", "src", "test_src.cpp"]), projectDir);
  }

  /** A path written with '/' by hand, then trimmed. */
  lemma TrimWrittenPath(prefix: string, projectDir: string, rest: string)
    requires IsSegment(projectDir)
    requires !Occurs(projectDir + [Sep], prefix + [Sep])
    ensures TrimFileName((prefix + [Sep]) + projectDir + ([Sep] + rest), projectDir) == rest
  {
    TrimAfterProjectDir(prefix, projectDir, rest);
    assert (prefix + [Sep]) + projectDir + ([Sep] + rest) == prefix + [Sep] + projectDir + [Sep] + rest;
  }

  /** The trim-file-name tests on paths written with forward slashes. */
  lemma TrimForwardSlashExamples(projectDir: string)
    requires IsSegment(projectDir)
    requires !Occurs(projectDir + [Sep], "home/user/")
    requires !Occurs(projectDir + [Sep], "../../")
    ensures TrimFileName("home/user/" + projectDir + "/src/test_src.cpp", projectDir) == "src/test_src.cpp"
    ensures TrimFileName("../../" + projectDir + "/src/test_src.cpp", projectDir) == "src/test_src.cpp"
  {
    assert [Sep] + "src/test_src.cpp" == "/src/test_src.cpp";
    assert "home/user" + [Sep] == "home/user/";
    TrimWrittenPath("home/user", projectDir, "src/test_src.cpp");
    assert "../.." + [Sep] == "../../";
    TrimWrittenPath("../..", projectDir, "src/test_src.cpp");
  }
}
