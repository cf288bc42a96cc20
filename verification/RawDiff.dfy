/** Parsing `git diff --raw -z`: parse_git_raw_diff, and the printing it undoes. */
module RawDiff {
  import opened Prelude
  import opened Text
  import opened RepoPath

  datatype Kind = Added | Modified | Deleted | Renamed | ModeChanged | Untracked

  datatype ChangedFile = ChangedFile(path: string, kind: Kind, oldPath: Option<string>,
                                     oldMode: string, newMode: string, modeChanged: bool)

  datatype ParseError =
    | InvalidHeader | IncompleteHeader | RenameMissingPaths | MissingPath | UnsupportedStatus
    | UnsafePath(error: PathError)

  const NUL := '\0'

  // ---------------------------------------------------------------- parsing

  const NON_EMPTY: string -> bool := field => field != ""

  function Fields(raw: string): seq<string> {
    Filter(Split(raw, NUL), NON_EMPTY)
  }

  datatype Header = Header(oldMode: string, newMode: string, status: string)

  function ParseHeader(text: string): (r: Result<Header, ParseError>)
    ensures r.Ok? ==> r.value.status != ""
  {
    var parts := Tokens(text, PythonSpace);
    if text == "" || text[0] != ':' then Err(InvalidHeader)
    else if |parts| < 5 then Err(IncompleteHeader)
    else
      assert parts[4] in parts;
      Ok(Header(if parts[0] == "" then "" else parts[0][1..], parts[1], parts[4]))
  }

  function KindOf(status: char): Option<Kind> {
    match status
    case 'A' => Some(Added)
    case 'D' => Some(Deleted)
    case 'T' => Some(ModeChanged)
    case 'M' => Some(Modified)
    case _ => None
  }

  function Changed(h: Header, kind: Kind, oldPath: Option<string>, path: string): ChangedFile {
    ChangedFile(path, kind, oldPath, h.oldMode, h.newMode, h.oldMode != h.newMode)
  }

  function ParseRename(norm: Normalizer, h: Header, oldRaw: string, newRaw: string): Result<ChangedFile, ParseError> {
    match norm(oldRaw)
    case Err(e) => Err(UnsafePath(e))
    case Ok(oldPath) =>
      match norm(newRaw)
      case Err(e) => Err(UnsafePath(e))
      case Ok(path) => Ok(Changed(h, Renamed, Some(oldPath), path))
  }

  function ParsePlain(norm: Normalizer, h: Header, raw: string): Result<ChangedFile, ParseError>
    requires h.status != ""
  {
    match norm(raw)
    case Err(e) => Err(UnsafePath(e))
    case Ok(path) =>
      match KindOf(h.status[0])
      case None => Err(UnsupportedStatus)
      case Some(kind) => Ok(Changed(h, kind, None, path))
  }

  function Taking(file: Result<ChangedFile, ParseError>, n: nat): (r: Result<(ChangedFile, nat), ParseError>)
    ensures r.Ok? ==> r.value.1 == n
  {
    match file
    case Err(e) => Err(e)
    case Ok(f) => Ok((f, n))
  }

  /** One record from the front of the fields, and how many fields it took. */
  function ParseRecord(norm: Normalizer, fields: seq<string>): (r: Result<(ChangedFile, nat), ParseError>)
    requires fields != []
    ensures r.Ok? ==> 1 < r.value.1 <= |fields|
  {
    match ParseHeader(fields[0])
    case Err(e) => Err(e)
    case Ok(h) =>
      if h.status[0] == 'R' then
        if |fields| < 3 then Err(RenameMissingPaths) else Taking(ParseRename(norm, h, fields[1], fields[2]), 3)
      else
        if |fields| < 2 then Err(MissingPath) else Taking(ParsePlain(norm, h, fields[1]), 2)
  }

  function ParseFields(norm: Normalizer, fields: seq<string>): Result<seq<ChangedFile>, ParseError>
    decreases |fields|
  {
    if fields == [] then Ok([])
    else match ParseRecord(norm, fields)
      case Err(e) => Err(e)
      case Ok((file, n)) => After([file], ParseFields(norm, fields[n..]))
  }

  function After(done: seq<ChangedFile>, rest: Result<seq<ChangedFile>, ParseError>): Result<seq<ChangedFile>,
      ParseError> {
    match rest
    case Err(e) => Err(e)
    case Ok(files) => Ok(done + files)
  }

  method ParseGitRawDiff(raw: string) returns (r: Result<seq<ChangedFile>, ParseError>)
    ensures r == ParseFields(PythonNormalize, Fields(raw))
  {
    if raw == "" {
      SplitPlain("", NUL);
      FilterOne("", NON_EMPTY);
      return Ok([]);
    }
    r := ParseRecords(PythonNormalize, Fields(raw));
  }

  method ParseRecords(norm: Normalizer, fields: seq<string>) returns (r: Result<seq<ChangedFile>, ParseError>)
    ensures r == ParseFields(norm, fields)
  {
    var files: seq<ChangedFile> := [];
    var index := 0;
    assert fields[0..] == fields;
    AfterNothing(ParseFields(norm, fields));
    while index < |fields|
      invariant index <= |fields|
      invariant ParseFields(norm, fields) == After(files, ParseFields(norm, fields[index..]))
    {
      var record := ParseRecord(norm, fields[index..]);
      ParseStep(norm, fields[index..]);
      if record.Err? { return Err(record.error); }
      var (file, n) := record.value;
      AfterAfter(files, [file], ParseFields(norm, fields[index..][n..]));
      assert fields[index..][n..] == fields[index + n..];
      files, index := files + [file], index + n;
    }
    assert fields[index..] == [] && files + [] == files;
    return Ok(files);
  }

  /** The record in front either fails the whole parse or stands before the rest. */
  lemma ParseStep(norm: Normalizer, fields: seq<string>)
    requires fields != []
    ensures ParseFields(norm, fields) ==
            if ParseRecord(norm, fields).Err? then Err(ParseRecord(norm, fields).error)
            else After([ParseRecord(norm, fields).value.0],
                ParseFields(norm, fields[ParseRecord(norm, fields).value.1..]))
  {}

  lemma AfterNothing(rest: Result<seq<ChangedFile>, ParseError>)
    ensures After([], rest) == rest
  {
    if rest.Ok? {
      assert [] + rest.value == rest.value;
    }
  }

  lemma AfterAfter(a: seq<ChangedFile>, b: seq<ChangedFile>, rest: Result<seq<ChangedFile>, ParseError>)
    ensures After(a, After(b, rest)) == After(a + b, rest)
  {
    if rest.Ok? {
      assert a + (b + rest.value) == a + b + rest.value;
    }
  }

  // ---------------------------------------------------------------- printing

  /** A record as git prints it: a changed file, the two objects, and for a rename its score. */
  datatype RawRecord = RawRecord(file: ChangedFile, oldObject: string, newObject: string, score: string)

  function Letter(kind: Kind): char {
    match kind
    case Added => 'A'
    case Deleted => 'D'
    case ModeChanged => 'T'
    case Modified => 'M'
    case Renamed => 'R'
    case Untracked => '?'
  }

  function StatusOf(r: RawRecord): string {
    [Letter(r.file.kind)] + if r.file.kind == Renamed then r.score else ""
  }

  function HeaderWords(r: RawRecord): seq<string> {
    [":" + r.file.oldMode, r.file.newMode, r.oldObject, r.newObject, StatusOf(r)]
  }

  function RecordFields(r: RawRecord): seq<string> {
    [Join(HeaderWords(r), ' ')] + (if r.file.oldPath.Some? then [r.file.oldPath.value] else []) + [r.file.path]
  }

  function AllFields(records: seq<RawRecord>): seq<string> {
    if records == [] then [] else RecordFields(records[0]) + AllFields(records[1..])
  }

  /** Every field ends in NUL. */
  function Terminated(fields: seq<string>): string {
    if fields == [] then "" else fields[0] + [NUL] + Terminated(fields[1..])
  }

  function Render(records: seq<RawRecord>): string {
    Terminated(AllFields(records))
  }

  function Files(records: seq<RawRecord>): seq<ChangedFile> {
    seq(|records|, i requires 0 <= i < |records| => records[i].file)
  }

  predicate Word(s: string) {
    s != "" && Plain(s, PythonSpace) && NUL !in s
  }

  predicate GitPath(norm: Normalizer, path: string) {
    norm(path) == Ok(path) && path != "" && NUL !in path
  }

  predicate ProperHeader(r: RawRecord) {
    && r.file.kind != Untracked
    && Plain(r.file.oldMode, PythonSpace) && NUL !in r.file.oldMode
    && Word(r.file.newMode) && Word(r.oldObject) && Word(r.newObject)
    && Plain(r.score, PythonSpace) && NUL !in r.score
  }

  /** What git reports for a tracked file: normalized paths, words without whitespace, an old path for renames only. */
  predicate Reported(norm: Normalizer, r: RawRecord) {
    && ProperHeader(r)
    && (r.file.oldPath.Some? <==> r.file.kind == Renamed)
    && GitPath(norm, r.file.path) && (r.file.oldPath.Some? ==> GitPath(norm, r.file.oldPath.value))
    && r.file.modeChanged == (r.file.oldMode != r.file.newMode)
  }

  // ---------------------------------------------------------------- parsing undoes printing

  lemma {:induction false} FieldsOfTerminated(fields: seq<string>)
    requires forall f :: f in fields ==> f != "" && NUL !in f
    ensures Fields(Terminated(fields)) == fields
  {
    if fields == [] {
      SplitPlain("", NUL);
      FilterOne("", NON_EMPTY);
    } else {
      var first, rest := fields[0], Terminated(fields[1..]);
      assert forall f :: f in fields[1..] ==> f in fields;
      FieldsOfTerminated(fields[1..]);
      SplitAt(first, NUL, rest);
      SplitPlain(first, NUL);
      FilterConcat([first], Split(rest, NUL), NON_EMPTY);
      FilterOne(first, NON_EMPTY);
      assert [first] + fields[1..] == fields;
    }
  }

  lemma LetterIsSolid(kind: Kind)
    requires kind != Untracked
    ensures !PythonSpace(Letter(kind)) && Letter(kind) != NUL
    ensures KindOf(Letter(kind)) == if kind == Renamed then None else Some(kind)
    ensures Letter(kind) == 'R' <==> kind == Renamed
  {}

  lemma StatusIsWord(r: RawRecord)
    requires ProperHeader(r)
    ensures Word(StatusOf(r)) && StatusOf(r)[0] == Letter(r.file.kind)
  {
    LetterIsSolid(r.file.kind);
  }

  lemma HeaderParses(r: RawRecord)
    requires ProperHeader(r)
    ensures ParseHeader(Join(HeaderWords(r), ' ')) == Ok(Header(r.file.oldMode, r.file.newMode, StatusOf(r)))
    ensures NUL !in Join(HeaderWords(r), ' ') && Join(HeaderWords(r), ' ') != ""
  {
    var words := HeaderWords(r);
    StatusIsWord(r);
    var first := ":" + r.file.oldMode;
    assert Plain(first, PythonSpace) && NUL !in first;
    forall w | w in words ensures w != "" && Plain(w, PythonSpace) && NUL !in w {}
    TokensOfWords(words, PythonSpace);
    JoinHasNo(words, ' ', NUL);
    assert first[1..] == r.file.oldMode;
    assert Join(words, ' ')[0] == first[0];
  }

  lemma RecordParses(norm: Normalizer, r: RawRecord, rest: seq<string>)
    requires Reported(norm, r)
    ensures ParseRecord(norm, RecordFields(r) + rest) == Ok((r.file, |RecordFields(r)|))
    ensures (RecordFields(r) + rest)[|RecordFields(r)|..] == rest
  {
    HeaderParses(r);
    StatusIsWord(r);
    LetterIsSolid(r.file.kind);
    var fields := RecordFields(r) + rest;
    assert fields[0] == Join(HeaderWords(r), ' ');
    assert fields[1] == if r.file.kind == Renamed then r.file.oldPath.value else r.file.path;
    assert r.file.kind == Renamed ==> fields[2] == r.file.path;
  }

  lemma FirstRecordParses(norm: Normalizer, r: RawRecord, rest: seq<string>)
    requires Reported(norm, r)
    ensures ParseFields(norm, RecordFields(r) + rest) == After([r.file], ParseFields(norm, rest))
  {
    RecordParses(norm, r, rest);
    ParseStep(norm, RecordFields(r) + rest);
  }

  /** The record parses in front of any fields. */
  ghost predicate ParsesInFront(norm: Normalizer, r: RawRecord) {
    forall rest: seq<string> :: ParseFields(norm, RecordFields(r) + rest) == After([r.file], ParseFields(norm, rest))
  }

  lemma AllFieldsFirst(norm: Normalizer, r: RawRecord, rest: seq<RawRecord>, records: seq<RawRecord>)
    requires records == [r] + rest && ParsesInFront(norm, r)
    ensures ParseFields(norm, AllFields(records)) == After([r.file], ParseFields(norm, AllFields(rest)))
    ensures Files(records) == [r.file] + Files(rest)
  {
    assert records[0] == r && records[1..] == rest;
    assert AllFields(records) == RecordFields(r) + AllFields(rest);
    InFront(norm, r, AllFields(rest));
    FilesFirst(r, rest, records);
  }

  lemma InFront(norm: Normalizer, r: RawRecord, rest: seq<string>)
    requires ParsesInFront(norm, r)
    ensures ParseFields(norm, RecordFields(r) + rest) == After([r.file], ParseFields(norm, rest))
  {}

  lemma FilesFirst(r: RawRecord, rest: seq<RawRecord>, records: seq<RawRecord>)
    requires records == [r] + rest
    ensures Files(records) == [r.file] + Files(rest)
  {}

  lemma {:induction false} RecordsParse(norm: Normalizer, records: seq<RawRecord>)
    requires forall r :: r in records ==> ParsesInFront(norm, r)
    ensures ParseFields(norm, AllFields(records)) == Ok(Files(records))
  {
    if records == [] {
      assert Files(records) == [];
    } else {
      var r, rest := records[0], records[1..];
      assert ParsesInFront(norm, r) && forall q :: q in rest ==> q in records;
      RecordsParse(norm, rest);
      assert records == [r] + rest;
      AllFieldsFirst(norm, r, rest, records);
    }
  }

  lemma FieldsParse(norm: Normalizer, records: seq<RawRecord>)
    requires forall r :: r in records ==> Reported(norm, r)
    ensures ParseFields(norm, AllFields(records)) == Ok(Files(records))
  {
    forall r | r in records ensures ParsesInFront(norm, r) {
      forall rest: seq<string> ensures ParseFields(norm, RecordFields(r) + rest) ==
          After([r.file], ParseFields(norm, rest)) {
        FirstRecordParses(norm, r, rest);
      }
    }
    RecordsParse(norm, records);
  }

  lemma RecordFieldsProper(norm: Normalizer, r: RawRecord)
    requires Reported(norm, r)
    ensures forall f :: f in RecordFields(r) ==> f != "" && NUL !in f
  {
    HeaderParses(r);
  }

  lemma {:induction false} FieldsProper(norm: Normalizer, records: seq<RawRecord>)
    requires forall r :: r in records ==> Reported(norm, r)
    ensures forall f :: f in AllFields(records) ==> f != "" && NUL !in f
  {
    if records != [] {
      assert records[0] in records && forall q :: q in records[1..] ==> q in records;
      RecordFieldsProper(norm, records[0]);
      FieldsProper(norm, records[1..]);
    }
  }

  lemma GenericRoundTrip(norm: Normalizer, records: seq<RawRecord>)
    requires forall r :: r in records ==> Reported(norm, r)
    ensures ParseFields(norm, Fields(Render(records))) == Ok(Files(records))
    ensures Fields(Render(records)) == AllFields(records)
  {
    FieldsParse(norm, records);
    FieldsProper(norm, records);
    FieldsOfTerminated(AllFields(records));
  }

  /** Parsing what git prints gives back exactly the files, using every field. */
  lemma ParseUndoesRender(records: seq<RawRecord>)
    requires forall r :: r in records ==> Reported(PythonNormalize, r)
    ensures ParseFields(PythonNormalize, Fields(Render(records))) == Ok(Files(records))
    ensures Fields(Render(records)) == AllFields(records)
  {
    GenericRoundTrip(PythonNormalize, records);
  }

  /** Safe paths, an old one for renames only, and the mode flag told by the modes. */
  predicate WellFormed(file: ChangedFile) {
    && SafePath(file.path)
    && (file.oldPath.Some? <==> file.kind == Renamed)
    && (file.oldPath.Some? ==> SafePath(file.oldPath.value))
    && file.kind != Untracked
    && file.modeChanged == (file.oldMode != file.newMode)
  }

  /** A normalizer whose every result is safe. */
  ghost predicate Sanitizes(norm: Normalizer) {
    forall raw :: norm(raw).Ok? ==> SafePath(norm(raw).value)
  }

  lemma ParsedRecordIsWellFormed(norm: Normalizer, fields: seq<string>)
    requires Sanitizes(norm) && fields != [] && ParseRecord(norm, fields).Ok?
    ensures WellFormed(ParseRecord(norm, fields).value.0)
  {
    var h := ParseHeader(fields[0]).value;
    if h.status[0] == 'R' {
      assert norm(fields[1]).Ok? && norm(fields[2]).Ok?;
    } else {
      assert norm(fields[1]).Ok?;
    }
  }

  lemma {:induction false} GenericFilesAreWellFormed(norm: Normalizer, fields: seq<string>)
    requires Sanitizes(norm) && ParseFields(norm, fields).Ok?
    ensures forall file :: file in ParseFields(norm, fields).value ==> WellFormed(file)
    decreases |fields|
  {
    if fields != [] {
      ParsedRecordIsWellFormed(norm, fields);
      ParseStep(norm, fields);
      GenericFilesAreWellFormed(norm, fields[ParseRecord(norm, fields).value.1..]);
    }
  }

  /** Whatever the input, every file the parser returns is well formed. */
  lemma ParsedFilesAreWellFormed(fields: seq<string>)
    requires ParseFields(PythonNormalize, fields).Ok?
    ensures forall file :: file in ParseFields(PythonNormalize, fields).value ==> WellFormed(file)
  {
    forall raw | PythonNormalize(raw).Ok? ensures SafePath(PythonNormalize(raw).value) {
      PythonIsSafe(raw, PythonNormalize(raw).value);
    }
    GenericFilesAreWellFormed(PythonNormalize, fields);
  }
}
