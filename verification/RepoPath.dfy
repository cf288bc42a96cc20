/** Repository-relative paths: the Python normaliser, its Rust twin, and what both guarantee. */
module RepoPath {
  import opened Prelude
  import opened Text

  datatype PathError = Empty | Absolute | WindowsRooted | Traversal | NullByte

  /** Backslashes become slashes. */
  function Slashes(path: string): string {
    seq(|path|, i requires 0 <= i < |path| => if path[i] == '\\' then '/' else path[i])
  }

  function Prepared(path: string, ws: Whitespace): string {
    Trim(Slashes(path), ws)
  }

  /** The parts that name something. */
  function Segments(parts: seq<string>): (kept: seq<string>)
    ensures forall s :: s in kept ==> s in parts && s != "" && s != "."
  {
    if parts == [] then []
    else (if parts[0] == "" || parts[0] == "." then [] else [parts[0]]) + Segments(parts[1..])
  }

  type Normalizer = string -> Result<string, PathError>

  /** changed_files.normalize_repo_relative_path. PurePosixPath.parts drops empty and "." parts. */
  function PythonNormalize(path: string): Result<string, PathError> {
    PythonChecked(Prepared(path, PythonSpace))
  }

  function PythonChecked(normalized: string): Result<string, PathError> {
    var parts := Segments(Split(normalized, '/'));
    if normalized == "" then Err(Empty)
    else if normalized[0] == '/' then Err(Absolute)
    else if ".." in parts then Err(Traversal)
    else if parts == [] then Err(Empty)
    else Ok(Join(parts, '/'))
  }

  predicate HasDrivePrefix(path: string) {
    |path| >= 2 && path[1] == ':' && ('a' <= path[0] <= 'z' || 'A' <= path[0] <= 'Z')
  }

  /** path_safety.rs, normalize_repo_relative_path, without its loop. */
  function RustNormalize(path: string): Result<string, PathError> {
    if '\0' in path then Err(NullByte) else RustChecked(Prepared(path, RustSpace))
  }

  function RustChecked(normalized: string): Result<string, PathError> {
    var parts := Split(normalized, '/');
    if normalized == "" then Err(Empty)
    else if normalized[0] == '/' then Err(Absolute)
    else if HasDrivePrefix(normalized) then Err(WindowsRooted)
    else if ".." in parts then Err(Traversal)
    else if Segments(parts) == [] then Err(Empty)
    else Ok(Join(Segments(parts), '/'))
  }

  method RustNormalizeRepoRelativePath(path: string) returns (r: Result<string, PathError>)
    ensures r == RustNormalize(path)
  {
    if '\0' in path { return Err(NullByte); }
    var normalized := Prepared(path, RustSpace);
    if normalized == "" { return Err(Empty); }
    if normalized[0] == '/' { return Err(Absolute); }
    if HasDrivePrefix(normalized) { return Err(WindowsRooted); }
    var clean := KeepParts(Split(normalized, '/'));
    if clean.None? { return Err(Traversal); }
    if clean.value == [] { return Err(Empty); }
    return Ok(Join(clean.value, '/'));
  }

  /** The loop of the Rust normaliser: None as soon as a part is "..". */
  method KeepParts(parts: seq<string>) returns (r: Option<seq<string>>)
    ensures r == if ".." in parts then None else Some(Segments(parts))
  {
    var clean: seq<string> := [];
    for i := 0 to |parts|
      invariant clean == Segments(parts[..i])
      invariant ".." !in parts[..i]
    {
      assert parts[..i + 1] == parts[..i] + [parts[i]];
      SegmentsConcat(parts[..i], [parts[i]]);
      if parts[i] == ".." { return None; }
      if parts[i] != "" && parts[i] != "." {
        clean := clean + [parts[i]];
      }
    }
    assert parts[..|parts|] == parts;
    return Some(clean);
  }

  lemma SegmentsCons(part: string, rest: seq<string>)
    ensures Segments([part] + rest) == (if part == "" || part == "." then [] else [part]) + Segments(rest)
  {
    assert ([part] + rest)[1..] == rest;
  }

  lemma {:induction false} SegmentsConcat(a: seq<string>, b: seq<string>)
    ensures Segments(a + b) == Segments(a) + Segments(b)
  {
    if a == [] {
      assert a + b == b;
    } else {
      SegmentsConcat(a[1..], b);
      SegmentsCons(a[0], a[1..]);
      SegmentsCons(a[0], a[1..] + b);
      ConcatThrice(if a[0] == "" || a[0] == "." then [] else [a[0]], Segments(a[1..]), Segments(b));
      assert a == [a[0]] + a[1..] && a + b == [a[0]] + (a[1..] + b);
    }
  }

  // ---------------------------------------------------------------- the shape of a normalized path

  /** Relative, not empty, and without parts that move elsewhere. */
  predicate SafePath(path: string) {
    path != "" && path[0] != '/' && forall s :: s in Split(path, '/') ==> s != "" && s != "." && s != ".."
  }

  /** A normalized path splits back into exactly the kept segments. */
  lemma NormalizedShape(path: string, ws: Whitespace, r: string)
    requires var parts := Segments(Split(Prepared(path, ws), '/'));
             parts != [] && ".." !in parts && r == Join(parts, '/')
    ensures Split(r, '/') == Segments(Split(Prepared(path, ws), '/'))
    ensures SafePath(r)
    ensures '\\' !in r
  {
    var parts := Segments(Split(Prepared(path, ws), '/'));
    SplitJoin(parts, '/');
    FirstPartLeads(r, '/');
    assert parts[0] in parts;
    KeptHasNo(Prepared(path, ws), '\\');
  }

  /** Splitting, keeping and joining brings in no character but the slash. */
  lemma KeptHasNo(text: string, c: char)
    requires c !in text && c != '/'
    ensures c !in Join(Segments(Split(text, '/')), '/')
  {
    var parts := Segments(Split(text, '/'));
    forall p | p in parts ensures c !in p {
      PartsHaveNo(text, '/', c, p);
    }
    JoinHasNo(parts, '/', c);
  }

  lemma FirstPartLeads(s: string, sep: char)
    ensures Split(s, sep)[0] == "" <==> s == "" || s[0] == sep
  {}

  /** A part of a text has only characters of the text. */
  lemma {:induction false} PartsHaveNo(s: string, sep: char, c: char, part: string)
    requires c !in s && part in Split(s, sep)
    ensures c !in part
  {
    if s != [] {
      var rest := Split(s[1..], sep);
      if part == [s[0]] + rest[0] {
        PartsHaveNo(s[1..], sep, c, rest[0]);
      } else if part != "" {
        assert part in rest;
        PartsHaveNo(s[1..], sep, c, part);
      }
    }
  }

  lemma {:induction false} JoinHasNo(parts: seq<string>, sep: char, c: char)
    requires c != sep && forall p :: p in parts ==> c !in p
    ensures c !in Join(parts, sep)
  {
    if |parts| > 1 {
      JoinHasNo(parts[1..], sep, c);
    }
  }

  lemma PythonShape(path: string, r: string)
    requires PythonNormalize(path) == Ok(r)
    ensures Split(r, '/') == Segments(Split(Prepared(path, PythonSpace), '/')) && SafePath(r) && '\\' !in r
  {
    NormalizedShape(path, PythonSpace, r);
  }

  lemma PythonIsSafe(path: string, r: string)
    requires PythonNormalize(path) == Ok(r)
    ensures SafePath(r)
  {
    PythonShape(path, r);
  }

  lemma PreparedHasNo(path: string, ws: Whitespace, c: char)
    requires c !in path && c != '/'
    ensures c !in Prepared(path, ws)
  {
    if c in Prepared(path, ws) {
      TrimKeepsWithin(Slashes(path), ws, c);
      SlashesWithin(path, c);
    }
  }

  lemma RustShape(path: string, r: string)
    requires RustNormalize(path) == Ok(r)
    ensures Split(r, '/') == Segments(Split(Prepared(path, RustSpace), '/')) && SafePath(r) && '\\' !in r && '\0' !in r
  {
    NormalizedShape(path, RustSpace, r);
    PreparedHasNo(path, RustSpace, '\0');
    KeptHasNo(Prepared(path, RustSpace), '\0');
  }

  // ---------------------------------------------------------------- fixed points

  lemma SlashesNothing(path: string)
    requires '\\' !in path
    ensures Slashes(path) == path
  {}

  lemma {:induction false} SegmentsNothing(parts: seq<string>)
    requires forall s :: s in parts ==> s != "" && s != "."
    ensures Segments(parts) == parts
  {
    if parts != [] {
      assert parts[0] in parts && forall s :: s in parts[1..] ==> s in parts;
      SegmentsNothing(parts[1..]);
    }
  }

  /** Dropping parts shortens the joined text. */
  lemma {:induction false} JoinSegmentsShorter(parts: seq<string>)
    ensures |Join(Segments(parts), '/')| <= |Join(parts, '/')|
  {
    if parts != [] {
      var rest := Segments(parts[1..]);
      JoinSegmentsShorter(parts[1..]);
      assert |parts| == 1 ==> parts[1..] == [] && rest == [];
      if parts[0] == "" || parts[0] == "." {
        assert Segments(parts) == rest;
      } else {
        assert Segments(parts) == [parts[0]] + rest && ([parts[0]] + rest)[1..] == rest;
      }
    }
  }

  /** Normalizing again changes nothing exactly when no whitespace is left at the ends. */
  lemma PythonFixedPoint(path: string, r: string)
    requires PythonNormalize(path) == Ok(r)
    ensures PythonNormalize(r) == Ok(r) <==> Trim(r, PythonSpace) == r
  {
    PythonShape(path, r);
    SlashesNothing(r);
    var t := Trim(r, PythonSpace);
    if t == r {
      SegmentsNothing(Split(r, '/'));
      JoinSplit(r, '/');
    } else {
      TrimShorter(r, PythonSpace);
      JoinSegmentsShorter(Split(t, '/'));
      JoinSplit(t, '/');
    }
  }

  lemma TrimShorter(s: string, ws: Whitespace)
    requires Trim(s, ws) != s
    ensures |Trim(s, ws)| < |s|
  {
    var t := TrimStart(s, ws);
    if |t| == |s| { assert t == s; }
  }

  /** In Rust, moreover, what is left must not look like a drive. */
  lemma RustFixedPoint(path: string, r: string)
    requires RustNormalize(path) == Ok(r)
    ensures RustNormalize(r) == Ok(r) <==> Trim(r, RustSpace) == r && !HasDrivePrefix(r)
  {
    RustShape(path, r);
    SlashesNothing(r);
    var t := Trim(r, RustSpace);
    if t == r {
      SegmentsNothing(Split(r, '/'));
      JoinSplit(r, '/');
    } else {
      TrimShorter(r, RustSpace);
      JoinSegmentsShorter(Split(t, '/'));
      JoinSplit(t, '/');
    }
  }

  // ---------------------------------------------------------------- the twins

  /** Where both trim the same, Rust accepts exactly what Python accepts without NUL or drive, with the same result. */
  lemma TwinsAgree(path: string)
    requires Prepared(path, PythonSpace) == Prepared(path, RustSpace)
    ensures RustNormalize(path).Ok? <==>
            PythonNormalize(path).Ok? && '\0' !in path && !HasDrivePrefix(Prepared(path, RustSpace))
    ensures RustNormalize(path).Ok? ==> RustNormalize(path) == PythonNormalize(path)
  {
    ChecksAgree(Prepared(path, RustSpace));
  }

  lemma ChecksAgree(p: string)
    ensures RustChecked(p).Ok? <==> PythonChecked(p).Ok? && !HasDrivePrefix(p)
    ensures RustChecked(p).Ok? ==> RustChecked(p) == PythonChecked(p)
  {
    SegmentsKeep(Split(p, '/'), "..");
  }

  lemma {:induction false} SegmentsKeep(parts: seq<string>, s: string)
    requires s != "" && s != "."
    ensures s in Segments(parts) <==> s in parts
  {
    if parts != [] {
      SegmentsKeep(parts[1..], s);
    }
  }

  /** The information separators: Python's whitespace, not Rust's. */
  predicate Separator(c: char) {
    '\U{001C}' <= c <= '\U{001F}'
  }

  /** How many characters satisfy a test. */
  function Marks(s: string, mark: char -> bool): nat {
    if s == "" then 0 else (if mark(s[0]) then 1 else 0) + Marks(s[1..], mark)
  }

  lemma {:induction false} MarksConcat(a: string, b: string, mark: char -> bool)
    ensures Marks(a + b, mark) == Marks(a, mark) + Marks(b, mark)
  {
    if a == "" {
      assert a + b == b;
    } else {
      MarksConcat(a[1..], b, mark);
      assert (a + b)[0] == a[0] && (a + b)[1..] == a[1..] + b;
    }
  }

  lemma MarksOne(c: char, mark: char -> bool)
    ensures Marks([c], mark) == if mark(c) then 1 else 0
  {
    assert [c][1..] == "";
  }

  lemma MarksCons(parts: seq<string>, mark: char -> bool)
    requires parts != [] && !mark('/')
    ensures Marks(Join(parts, '/'), mark) == Marks(parts[0], mark) + Marks(Join(parts[1..], '/'), mark)
  {
    if |parts| > 1 {
      MarksConcat(parts[0] + ['/'], Join(parts[1..], '/'), mark);
      MarksConcat(parts[0], ['/'], mark);
      MarksOne('/', mark);
    } else {
      assert parts[1..] == [];
    }
  }

  /** Dropping empty and "." parts drops no marked character. */
  lemma {:induction false} SegmentsKeepMarks(parts: seq<string>, mark: char -> bool)
    requires !mark('/') && !mark('.')
    ensures Marks(Join(Segments(parts), '/'), mark) == Marks(Join(parts, '/'), mark)
  {
    if parts != [] {
      var part, rest := parts[0], parts[1..];
      SegmentsKeepMarks(rest, mark);
      MarksCons(parts, mark);
      SegmentsCons(part, rest);
      assert parts == [part] + rest;
      if part == "" || part == "." {
        MarksOne('.', mark);
        assert [] + Segments(rest) == Segments(rest);
      } else {
        assert ([part] + Segments(rest))[1..] == Segments(rest);
        MarksCons([part] + Segments(rest), mark);
      }
    }
  }

  /** Both keep every marked character of the trimmed text. */
  lemma ChecksKeepMarks(p: string, mark: char -> bool)
    requires !mark('/') && !mark('.')
    ensures PythonChecked(p).Ok? ==> Marks(PythonChecked(p).value, mark) == Marks(p, mark)
    ensures RustChecked(p).Ok? ==> Marks(RustChecked(p).value, mark) == Marks(p, mark)
  {
    SegmentsKeepMarks(Split(p, '/'), mark);
    JoinSplit(p, '/');
  }

  lemma {:induction false} StartTakes(s: string, ws: Whitespace, mark: char -> bool)
    ensures Marks(TrimStart(s, ws), mark) <= Marks(s, mark)
    ensures s != "" && ws(s[0]) && mark(s[0]) ==> Marks(TrimStart(s, ws), mark) < Marks(s, mark)
  {
    if s != "" && ws(s[0]) {
      StartTakes(s[1..], ws, mark);
    }
  }

  lemma {:induction false} EndTakes(s: string, ws: Whitespace, mark: char -> bool)
    ensures Marks(TrimEnd(s, ws), mark) <= Marks(s, mark)
    ensures s != "" && ws(s[|s| - 1]) && mark(s[|s| - 1]) ==> Marks(TrimEnd(s, ws), mark) < Marks(s, mark)
  {
    var n := |s| - 1;
    if s != "" && ws(s[n]) {
      EndTakes(s[..n], ws, mark);
      MarksConcat(s[..n], [s[n]], mark);
      MarksOne(s[n], mark);
      assert s == s[..n] + [s[n]];
    }
  }

  /** Where the ends hold no whitespace but marked one, trimming takes marks, or nothing. */
  lemma TrimTakesMarks(s: string, ws: Whitespace, mark: char -> bool)
    requires s == "" || ((ws(s[0]) ==> mark(s[0])) && (ws(s[|s| - 1]) ==> mark(s[|s| - 1])))
    ensures Trim(s, ws) == s || Marks(Trim(s, ws), mark) < Marks(s, mark)
  {
    StartTakes(s, ws, mark);
    EndTakes(TrimStart(s, ws), ws, mark);
    if s == "" || !ws(s[0]) {
      assert TrimStart(s, ws) == s;
      if s == "" || !ws(s[|s| - 1]) {
        assert TrimEnd(s, ws) == s;
      }
    }
  }

  /** Two trims agree exactly when what the weaker leaves has none of the stronger's whitespace at its ends. */
  lemma TrimsAgreeWhere(s: string, v: Whitespace, w: Whitespace)
    requires forall c :: v(c) ==> w(c)
    ensures var p := Trim(s, v); Trim(s, w) == p <==> p == "" || (!w(p[0]) && !w(p[|p| - 1]))
    ensures Trim(s, w) == Trim(Trim(s, v), w)
  {
    TrimTwice(s, v, w);
    TrimNothing(Trim(s, v), w);
  }

  lemma TrimKeepsWithin(s: string, ws: Whitespace, c: char)
    requires c in Trim(s, ws)
    ensures c in s
  {
    var t := TrimStart(s, ws);
    var r := TrimEnd(t, ws);
    assert c in t by {
      var i :| 0 <= i < |r| && r[i] == c;
      assert t[i] == c;
    }
  }

  lemma SlashesWithin(path: string, c: char)
    requires c in Slashes(path)
    ensures c == '/' || c in path
  {
    var i :| 0 <= i < |path| && Slashes(path)[i] == c;
    assert path[i] in path;
  }

  /** Some separator stands at an end of the text. */
  predicate Bordered(p: string) {
    p != "" && (Separator(p[0]) || Separator(p[|p| - 1]))
  }

  /** They trim the same exactly when what Rust leaves has no separator at its ends. */
  lemma TrimsAgree(path: string)
    ensures Prepared(path, PythonSpace) == Prepared(path, RustSpace) <==> !Bordered(Prepared(path, RustSpace))
    ensures Prepared(path, PythonSpace) == Trim(Prepared(path, RustSpace), PythonSpace)
  {
    TrimsAgreeWhere(Slashes(path), RustSpace, PythonSpace);
  }

  /** So they do on every path without separators. */
  lemma TrimsAgreeWithout(path: string)
    requires forall c :: c in path ==> !Separator(c)
    ensures Prepared(path, PythonSpace) == Prepared(path, RustSpace)
  {
    var s, p := Slashes(path), Prepared(path, RustSpace);
    TrimsAgree(path);
    if p != "" {
      TrimKeepsWithin(s, RustSpace, p[0]);
      TrimKeepsWithin(s, RustSpace, p[|p| - 1]);
      SlashesWithin(path, p[0]);
      SlashesWithin(path, p[|p| - 1]);
    }
  }

  /** Same acceptance and same result, exactly: Python accepts, no NUL, no drive, no separator at the trimmed ends. */
  lemma TwinsAgreeExactly(path: string)
    ensures RustNormalize(path).Ok? && RustNormalize(path) == PythonNormalize(path) <==>
            && PythonNormalize(path).Ok? && '\0' !in path
            && !HasDrivePrefix(Prepared(path, RustSpace)) && !Bordered(Prepared(path, RustSpace))
  {
    TrimsAgree(path);
    if Bordered(Prepared(path, RustSpace)) {
      TwinsDiffer(path);
    } else {
      TwinsAgree(path);
    }
  }

  /** Where the trims differ and both accept, Rust's result keeps separators that Python's has lost. */
  lemma TwinsDiffer(path: string)
    requires Bordered(Prepared(path, RustSpace))
    ensures RustNormalize(path).Ok? && PythonNormalize(path).Ok? ==>
              Marks(RustNormalize(path).value, Separator) > Marks(PythonNormalize(path).value, Separator)
  {
    TrimsAgree(path);
    TrimTakesMarks(Prepared(path, RustSpace), PythonSpace, Separator);
    ChecksKeepMarks(Prepared(path, RustSpace), Separator);
    ChecksKeepMarks(Prepared(path, PythonSpace), Separator);
  }

  /** A single segment passes both. */
  lemma OneSegment(p: string)
    requires p != "" && p != "." && p != ".." && '/' !in p
    ensures PythonChecked(p) == Ok(p) && (!HasDrivePrefix(p) ==> RustChecked(p) == Ok(p))
  {
    SplitPlain(p, '/');
    assert p[0] in p;
    assert [p][1..] == [] && Segments([p]) == [p];
  }

  /** Of a name and a separator after it, Python keeps the name and Rust both. */
  lemma SeparatorDivides(name: string, c: char)
    requires Separator(c) && name != "" && name != "." && name != ".."
    requires '/' !in name && '\\' !in name && '\0' !in name && !HasDrivePrefix(name + [c])
    requires !PythonSpace(name[0]) && !PythonSpace(name[|name| - 1])
    ensures RustNormalize(name + [c]) == Ok(name + [c])
    ensures PythonNormalize(name + [c]) == Ok(name)
  {
    SeparatorTrims(name, c);
    OneMore(name, c);
    OneSegment(name);
    OneSegment(name + [c]);
  }

  /** One more character at the end, whitespace for one trim and not for the other. */
  lemma TrimsApart(name: string, c: char, v: Whitespace, w: Whitespace)
    requires name != "" && !v(name[0]) && !w(name[0]) && !w(name[|name| - 1]) && !v(c) && w(c)
    ensures Trim(name + [c], v) == name + [c] && Trim(name + [c], w) == name
  {
    var p := name + [c];
    assert p[0] == name[0] && p[|p| - 1] == c;
    TrimNothing(p, v);
    TrimDropsBack(name, w, c);
    TrimNothing(name, w);
  }

  lemma SpaceOrSeparator(c: char)
    ensures PythonSpace(c) <==> RustSpace(c) || Separator(c)
    ensures Separator(c) ==> !RustSpace(c) && c != '\\' && c != '/'
  {}

  lemma PreparedPlain(path: string, ws: Whitespace)
    requires '\\' !in path
    ensures Prepared(path, ws) == Trim(path, ws)
  {
    SlashesNothing(path);
  }

  lemma SeparatorTrims(name: string, c: char)
    requires Separator(c) && name != "" && '\\' !in name && !PythonSpace(name[0]) && !PythonSpace(name[|name| - 1])
    ensures Prepared(name + [c], RustSpace) == name + [c] && Prepared(name + [c], PythonSpace) == name
  {
    SpaceOrSeparator(c);
    SpaceOrSeparator(name[0]);
    assert (name + [c])[|name|] == c;
    PreparedPlain(name + [c], RustSpace);
    PreparedPlain(name + [c], PythonSpace);
    TrimsApart(name, c, RustSpace, PythonSpace);
  }

  lemma OneMore(name: string, c: char)
    requires Separator(c) && name != "" && '/' !in name && '\0' !in name
    ensures name + [c] != "" && name + [c] != "." && name + [c] != ".." && '/' !in name + [c] && '\0' !in name + [c]
  {
    assert (name + [c])[|name|] == c;
  }

  /** For one, "a" and U+001C. */
  lemma SeparatorDividesA()
    ensures RustNormalize("a" + ['\U{001C}']) == Ok("a" + ['\U{001C}'])
    ensures PythonNormalize("a" + ['\U{001C}']) == Ok("a")
  {
    var p := "a" + ['\U{001C}'];
    assert p[1] == '\U{001C}';
    SeparatorDivides("a", '\U{001C}');
  }

  /** A path Rust leaves alone is not empty and has no whitespace at its ends. */
  lemma FixedEnds(r: string)
    requires RustNormalize(r) == Ok(r)
    ensures r != "" && !RustSpace(r[0]) && !RustSpace(r[|r| - 1])
  {
    RustShape(r, r);
    RustFixedPoint(r, r);
    TrimNothing(r, RustSpace);
  }

  // ---------------------------------------------------------------- paths in patches

  predicate IsDevNull(path: string) {
    path == "/dev/null"
  }

  lemma NotDevNull(path: string)
    requires path == "" || path[0] != '/'
    ensures !IsDevNull(path)
  {}

  /** validate_patch_path: None is the missing side of an added or deleted file. */
  function ValidatePatchPath(path: string): Result<Option<string>, PathError> {
    var trimmed := Trim(path, RustSpace);
    if IsDevNull(trimmed) then Ok(None)
    else
      match RustNormalize(WithoutPrefix(trimmed))
      case Err(e) => Err(e)
      case Ok(r) => Ok(Some(r))
  }

  function WithoutPrefix(path: string): string {
    if |path| >= 2 && (path[0] == 'a' || path[0] == 'b') && path[1] == '/' then path[2..] else path
  }

  lemma Validates(p: string, r: string)
    requires Trim(p, RustSpace) == p && !IsDevNull(p) && WithoutPrefix(p) == r && RustNormalize(r) == Ok(r)
    ensures ValidatePatchPath(p) == Ok(Some(r))
  {}

  /** Git's prefixes come off: either prefixed side of a normalized path is that path. */
  lemma PrefixesComeOff(r: string, side: char)
    requires RustNormalize(r) == Ok(r) && (side == 'a' || side == 'b')
    ensures ValidatePatchPath([side, '/'] + r) == Ok(Some(r))
  {
    var p := [side, '/'] + r;
    FixedEnds(r);
    Prefixed(r, side);
    NotDevNull(p);
    TrimNothing(p, RustSpace);
    Validates(p, r);
  }

  lemma Prefixed(r: string, side: char)
    requires r != "" && (side == 'a' || side == 'b')
    ensures var p := [side, '/'] + r; |p| >= 2 && p[0] == side && p[|p| - 1] == r[|r| - 1] && WithoutPrefix(p) == r
    ensures !RustSpace(side)
  {
    var p := [side, '/'] + r;
    assert p[2..] == r && p[1] == '/' && p[|p| - 1] == r[|r| - 1];
  }
}
