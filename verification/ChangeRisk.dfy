/** Change risk: levels, the report's overall level, the Rust signal, and the gate that blocks a patch. */
module ChangeRisk {
  import opened Prelude
  import opened Text

  datatype RiskLevel = Low | Medium | High | Critical

  function Order(level: RiskLevel): nat {
    match level
    case Low => 0
    case Medium => 1
    case High => 2
    case Critical => 3
  }

  datatype Reason = Reason(code: string, level: RiskLevel)

  datatype FileRisk = FileRisk(path: string, level: RiskLevel, reasons: seq<Reason>, binary: bool,
                               oldMode: Option<string>, newMode: Option<string>, modeChanged: bool)

  datatype Report = Report(files: seq<FileRisk>, reasons: seq<Reason>)

  // ---------------------------------------------------------------- the highest level

  /** Every level at or below `top`, and `top` one of them (or LOW, the default). */
  predicate IsHighest(levels: seq<RiskLevel>, top: RiskLevel) {
    && (top == Low || top in levels)
    && forall k :: 0 <= k < |levels| ==> Order(levels[k]) <= Order(top)
  }

  function Higher(a: RiskLevel, b: RiskLevel): RiskLevel {
    if Order(b) > Order(a) then b else a
  }

  function Highest(levels: seq<RiskLevel>): RiskLevel {
    if levels == [] then Low else Higher(Highest(levels[..|levels| - 1]), levels[|levels| - 1])
  }

  lemma HighestSnoc(levels: seq<RiskLevel>, level: RiskLevel, top: RiskLevel)
    requires IsHighest(levels, top)
    ensures IsHighest(levels + [level], Higher(top, level))
    ensures Highest(levels + [level]) == Higher(Highest(levels), level)
  {
    assert (levels + [level])[..|levels|] == levels;
    assert top in levels ==> top in levels + [level];
    assert level in levels + [level];
  }

  /** _highest_risk with its default. */
  method HighestRisk(levels: seq<RiskLevel>) returns (highest: RiskLevel)
    ensures IsHighest(levels, highest) && highest == Highest(levels)
  {
    highest := Low;
    for i := 0 to |levels|
      invariant IsHighest(levels[..i], highest) && highest == Highest(levels[..i])
    {
      HighestSnoc(levels[..i], levels[i], highest);
      assert levels[..i + 1] == levels[..i] + [levels[i]];
      if Order(levels[i]) > Order(highest) {
        highest := levels[i];
      }
    }
    assert levels[..|levels|] == levels;
  }

  lemma {:induction false} HighestIsHighest(levels: seq<RiskLevel>)
    ensures IsHighest(levels, Highest(levels))
  {
    if levels != [] {
      var n := |levels| - 1;
      HighestIsHighest(levels[..n]);
      assert levels == levels[..n] + [levels[n]];
    }
  }

  /** There is one highest level, whatever the order and the repetitions. */
  lemma HighestIsUnique(levels: seq<RiskLevel>, top: RiskLevel)
    requires IsHighest(levels, top)
    ensures top == Highest(levels)
  {
    HighestIsHighest(levels);
    if top in levels {
      var k :| 0 <= k < |levels| && levels[k] == top;
    }
  }

  function LevelsOf(reasons: seq<Reason>): seq<RiskLevel> {
    seq(|reasons|, i requires 0 <= i < |reasons| => reasons[i].level)
  }

  function FileLevels(files: seq<FileRisk>): seq<RiskLevel> {
    seq(|files|, i requires 0 <= i < |files| => files[i].level)
  }

  /** ChangeRiskReport.overall_risk_level. */
  function Overall(report: Report): RiskLevel {
    Highest(FileLevels(report.files) + LevelsOf(report.reasons))
  }

  // ---------------------------------------------------------------- one file

  /** A file's level is the highest of its reasons. */
  predicate Consistent(file: FileRisk) {
    file.level == Highest(LevelsOf(file.reasons))
  }

  /** The patch's own facts about a file, and the reasons its path, metadata and added lines give. */
  datatype FileDiff = FileDiff(path: string, binary: bool, oldMode: Option<string>, newMode: Option<string>,
                               modeChanged: bool, reasons: seq<Reason>, baseline: Reason)

  /** classify_patch_file_risk. */
  function ClassifyFile(diff: FileDiff): FileRisk {
    var reasons := if diff.reasons == [] then [diff.baseline] else diff.reasons;
    FileRisk(diff.path, Highest(LevelsOf(reasons)), reasons, diff.binary, diff.oldMode, diff.newMode, diff.modeChanged)
  }

  /** What the Rust analysis, or the attempt to skip it, said about a file. */
  datatype CriticalityShadow = CriticalityShadow(available: bool, index: Option<real>, level: Option<string>,
                                                 invalidBypass: bool)

  const MIN_ENFORCED_INDEX: real := 5.0

  predicate Enforced(level: string) {
    Lower(Trim(level, PythonSpace)) == "high" || Lower(Trim(level, PythonSpace)) == "critical"
  }

  /** The Rust score counts, at HIGH, when it is present, large enough and worse than the file already is. */
  predicate Signals(file: FileRisk, shadow: CriticalityShadow) {
    && shadow.available && shadow.level.Some? && shadow.index.Some?
    && shadow.index.value >= MIN_ENFORCED_INDEX
    && Enforced(shadow.level.value)
    && Order(file.level) < Order(High)
  }

  function AddedReasons(file: FileRisk, shadow: CriticalityShadow): seq<Reason> {
    (if shadow.invalidBypass then [Reason("lockfile-claim-invalid-structure", High)] else [])
    + (if Signals(file, shadow) then [Reason("rust-criticality-signal", High)] else [])
  }

  /** _attach_criticality_shadow. */
  function Attach(file: FileRisk, shadow: CriticalityShadow): FileRisk {
    var reasons := file.reasons + AddedReasons(file, shadow);
    file.(reasons := reasons, level := Highest(LevelsOf(reasons)))
  }

  lemma {:induction false} HighestConcat(xs: seq<RiskLevel>, ys: seq<RiskLevel>)
    ensures Highest(xs + ys) == Higher(Highest(xs), Highest(ys))
  {
    if ys == [] {
      assert xs + ys == xs;
    } else {
      HighestConcat(xs, ys[..|ys| - 1]);
      assert (xs + ys)[..|xs + ys| - 1] == xs + ys[..|ys| - 1];
    }
  }

  lemma LevelsConcat(xs: seq<Reason>, ys: seq<Reason>)
    ensures Highest(LevelsOf(xs + ys)) == Higher(Highest(LevelsOf(xs)), Highest(LevelsOf(ys)))
  {
    assert LevelsOf(xs + ys) == LevelsOf(xs) + LevelsOf(ys);
    HighestConcat(LevelsOf(xs), LevelsOf(ys));
  }

  lemma AddedLevel(file: FileRisk, shadow: CriticalityShadow)
    ensures Highest(LevelsOf(AddedReasons(file, shadow))) ==
            if shadow.invalidBypass || Signals(file, shadow) then High else Low
  {
    var levels := LevelsOf(AddedReasons(file, shadow));
    assert levels != [] ==> levels[0] == High;
    HighestIsUnique(levels, if shadow.invalidBypass || Signals(file, shadow) then High else Low);
  }

  /** Attaching the Rust result can only raise a file, only to HIGH, and exactly when one of its two signals fires. */
  lemma AttachExactly(file: FileRisk, shadow: CriticalityShadow)
    requires Consistent(file)
    ensures Consistent(Attach(file, shadow))
    ensures file.reasons <= Attach(file, shadow).reasons
    ensures Attach(file, shadow).level ==
            if (shadow.invalidBypass || Signals(file, shadow)) && file.level != Critical then High else file.level
  {
    LevelsConcat(file.reasons, AddedReasons(file, shadow));
    AddedLevel(file, shadow);
  }

  // ---------------------------------------------------------------- a whole patch

  function ClassifyFiles(diffs: seq<FileDiff>, shadows: seq<CriticalityShadow>): seq<FileRisk>
    requires |diffs| == |shadows|
  {
    seq(|diffs|, i requires 0 <= i < |diffs| => Attach(ClassifyFile(diffs[i]), shadows[i]))
  }

  /** classify_patch_risk: the validation reasons come first, then limits, governance and intent of the patch. */
  function ClassifyPatch(diffs: seq<FileDiff>, shadows: seq<CriticalityShadow>, validation: seq<Reason>,
      others: seq<Reason>): Report
    requires |diffs| == |shadows|
  {
    Report(ClassifyFiles(diffs, shadows), validation + others)
  }

  predicate AllConsistent(report: Report) {
    forall k :: 0 <= k < |report.files| ==> Consistent(report.files[k])
  }

  lemma ClassifiedConsistently(diffs: seq<FileDiff>, shadows: seq<CriticalityShadow>, validation: seq<Reason>,
      others: seq<Reason>)
    requires |diffs| == |shadows|
    ensures AllConsistent(ClassifyPatch(diffs, shadows, validation, others))
    ensures forall file :: file in ClassifyPatch(diffs, shadows, validation, others).files ==> file.reasons != []
  {
    forall k | 0 <= k < |diffs|
      ensures Consistent(Attach(ClassifyFile(diffs[k]), shadows[k])) &&
          Attach(ClassifyFile(diffs[k]), shadows[k]).reasons != []
    {
      AttachExactly(ClassifyFile(diffs[k]), shadows[k]);
    }
  }

  /** Further validation reasons never lower the overall level. */
  lemma ValidationNeverLowers(diffs: seq<FileDiff>, shadows: seq<CriticalityShadow>, validation: seq<Reason>,
      others: seq<Reason>)
    requires |diffs| == |shadows|
    ensures Order(Overall(ClassifyPatch(diffs, shadows, validation, others)))
            >= Order(Overall(ClassifyPatch(diffs, shadows, [], others)))
  {
    assert [] + others == others;
    LevelsConcat(validation, others);
    HighestConcat(FileLevels(ClassifyFiles(diffs, shadows)), LevelsOf(validation + others));
    HighestConcat(FileLevels(ClassifyFiles(diffs, shadows)), LevelsOf(others));
  }

  // ---------------------------------------------------------------- the gate

  datatype BlockReason = BlockReason(code: string, path: Option<string>)

  /** The CRITICAL reasons, in order, under one path. */
  function CriticalOnes(reasons: seq<Reason>, path: Option<string>): seq<BlockReason> {
    if reasons == [] then []
    else
      var last := reasons[|reasons| - 1];
      CriticalOnes(reasons[..|reasons| - 1], path)
      + if last.level == Critical then [BlockReason(last.code, path)] else []
  }

  function FilesCriticalOnes(files: seq<FileRisk>): seq<BlockReason> {
    if files == [] then []
    else
      var last := files[|files| - 1];
      FilesCriticalOnes(files[..|files| - 1]) + CriticalOnes(last.reasons, Some(last.path))
  }

  function BlockReasons(report: Report): seq<BlockReason> {
    FilesCriticalOnes(report.files) + CriticalOnes(report.reasons, None)
  }

  method FileBlockReasons(file: FileRisk) returns (reasons: seq<BlockReason>)
    ensures reasons == CriticalOnes(file.reasons, Some(file.path))
  {
    reasons := [];
    for i := 0 to |file.reasons|
      invariant reasons == CriticalOnes(file.reasons[..i], Some(file.path))
    {
      assert file.reasons[..i + 1][..i] == file.reasons[..i];
      if file.reasons[i].level == Critical {
        reasons := reasons + [BlockReason(file.reasons[i].code, Some(file.path))];
      }
    }
    assert file.reasons[..|file.reasons|] == file.reasons;
  }

  method CollectBlockReasons(report: Report) returns (reasons: seq<BlockReason>)
    ensures reasons == BlockReasons(report)
  {
    reasons := [];
    for i := 0 to |report.files|
      invariant reasons == FilesCriticalOnes(report.files[..i])
    {
      assert report.files[..i + 1][..i] == report.files[..i];
      var more := FileBlockReasons(report.files[i]);
      reasons := reasons + more;
    }
    assert report.files[..|report.files|] == report.files;
    for i := 0 to |report.reasons|
      invariant reasons == FilesCriticalOnes(report.files) + CriticalOnes(report.reasons[..i], None)
    {
      assert report.reasons[..i + 1][..i] == report.reasons[..i];
      if report.reasons[i].level == Critical {
        reasons := reasons + [BlockReason(report.reasons[i].code, None)];
      }
    }
    assert report.reasons[..|report.reasons|] == report.reasons;
  }

  predicate Blocked(report: Report) {
    BlockReasons(report) != []
  }

  predicate AnyCritical(reasons: seq<Reason>) {
    exists k :: 0 <= k < |reasons| && reasons[k].level == Critical
  }

  /** Some file or report reason is CRITICAL. */
  predicate SomeCritical(report: Report) {
    AnyCritical(report.reasons) || exists k :: 0 <= k < |report.files| && AnyCritical(report.files[k].reasons)
  }

  lemma {:induction false} CriticalOnesExactly(reasons: seq<Reason>, path: Option<string>, b: BlockReason)
    ensures b in CriticalOnes(reasons, path) <==>
            && b.path == path
            && exists k :: 0 <= k < |reasons| && reasons[k].level == Critical && reasons[k].code == b.code
  {
    if reasons != [] {
      var n := |reasons| - 1;
      CriticalOnesExactly(reasons[..n], path, b);
      assert reasons == reasons[..n] + [reasons[n]];
      assert b in CriticalOnes(reasons, path) <==>
             b in CriticalOnes(reasons[..n], path) ||
                 (reasons[n].level == Critical && b == BlockReason(reasons[n].code, path));
    }
  }

  lemma {:induction false} FilesCriticalOnesExactly(files: seq<FileRisk>, b: BlockReason)
    ensures b in FilesCriticalOnes(files) <==>
            exists k :: 0 <= k < |files| && b in CriticalOnes(files[k].reasons, Some(files[k].path))
  {
    if files != [] {
      var n := |files| - 1;
      FilesCriticalOnesExactly(files[..n], b);
      assert files == files[..n] + [files[n]];
    }
  }

  /** The gate names every CRITICAL reason with its path, and nothing else; it blocks when there is one. */
  lemma GateBlocksExactly(report: Report)
    ensures Blocked(report) <==> SomeCritical(report)
    ensures forall b :: b in BlockReasons(report) <==>
              || (b.path == None
                  && exists k :: 0 <= k < |report.reasons| && report.reasons[k] == Reason(b.code, Critical))
              || (exists i, k :: 0 <= i < |report.files| && b.path == Some(report.files[i].path)
                                 && 0 <= k < |report.files[i].reasons|
                                 && report.files[i].reasons[k] == Reason(b.code, Critical))
  {
    forall b
      ensures b in BlockReasons(report) <==>
              || b in CriticalOnes(report.reasons, None)
              || exists i :: 0 <= i < |report.files| &&
                  b in CriticalOnes(report.files[i].reasons, Some(report.files[i].path))
    {
      FilesCriticalOnesExactly(report.files, b);
    }
    forall b, reasons, path
      ensures b in CriticalOnes(reasons, path) <==>
              b.path == path && exists k :: 0 <= k < |reasons| && reasons[k] == Reason(b.code, Critical)
    {
      CriticalOnesExactly(reasons, path, b);
    }
    SomeNamed(report);
  }

  lemma CriticalOnesSome(reasons: seq<Reason>, path: Option<string>)
    ensures CriticalOnes(reasons, path) != [] <==> AnyCritical(reasons)
  {
    if CriticalOnes(reasons, path) != [] {
      CriticalOnesExactly(reasons, path, CriticalOnes(reasons, path)[0]);
    }
    if k :| 0 <= k < |reasons| && reasons[k].level == Critical {
      CriticalOnesExactly(reasons, path, BlockReason(reasons[k].code, path));
    }
  }

  lemma {:induction false} FilesCriticalOnesSome(files: seq<FileRisk>)
    ensures FilesCriticalOnes(files) != [] <==> exists k :: 0 <= k < |files| && AnyCritical(files[k].reasons)
  {
    if files != [] {
      var n := |files| - 1;
      FilesCriticalOnesSome(files[..n]);
      CriticalOnesSome(files[n].reasons, Some(files[n].path));
      assert files == files[..n] + [files[n]];
    }
  }

  lemma SomeNamed(report: Report)
    ensures Blocked(report) <==> SomeCritical(report)
  {
    CriticalOnesSome(report.reasons, None);
    FilesCriticalOnesSome(report.files);
  }

  lemma CriticalReasons(reasons: seq<Reason>)
    ensures Highest(LevelsOf(reasons)) == Critical <==> AnyCritical(reasons)
  {
    HighestIsHighest(LevelsOf(reasons));
    if k :| 0 <= k < |reasons| && reasons[k].level == Critical {
      assert LevelsOf(reasons)[k] == Critical;
    }
  }

  /**
    For a report whose file levels come from their reasons, the gate blocks exactly at an overall level of CRITICAL.
  */
  lemma BlockedIsCritical(report: Report)
    requires AllConsistent(report)
    ensures Blocked(report) <==> Overall(report) == Critical
  {
    SomeNamed(report);
    HighestConcat(FileLevels(report.files), LevelsOf(report.reasons));
    CriticalReasons(report.reasons);
    HighestIsHighest(FileLevels(report.files));
    if i :| 0 <= i < |report.files| && report.files[i].level == Critical {
      assert FileLevels(report.files)[i] == Critical;
    }
    forall i | 0 <= i < |report.files|
      ensures report.files[i].level == Critical <==> AnyCritical(report.files[i].reasons)
    {
      CriticalReasons(report.files[i].reasons);
      assert Consistent(report.files[i]);
    }
  }

  /** With the report's own reasons given, no Rust shadow of a file makes the patch blocked or not. */
  lemma ShadowsNeverBlock(diffs: seq<FileDiff>, one: seq<CriticalityShadow>, other: seq<CriticalityShadow>,
                        validation: seq<Reason>, others: seq<Reason>)
    requires |diffs| == |one| == |other|
    ensures Blocked(ClassifyPatch(diffs, one, validation, others)) <==>
        Blocked(ClassifyPatch(diffs, other, validation, others))
  {
    var r, s := ClassifyPatch(diffs, one, validation, others), ClassifyPatch(diffs, other, validation, others);
    SomeNamed(r);
    SomeNamed(s);
    forall k | 0 <= k < |diffs|
      ensures AnyCritical(r.files[k].reasons) <==> AnyCritical(s.files[k].reasons)
    {
      AttachedCritical(ClassifyFile(diffs[k]), one[k]);
      AttachedCritical(ClassifyFile(diffs[k]), other[k]);
    }
  }

  lemma AttachedCritical(file: FileRisk, shadow: CriticalityShadow)
    ensures AnyCritical(Attach(file, shadow).reasons) <==> AnyCritical(file.reasons)
  {
    var added := AddedReasons(file, shadow);
    if k :| 0 <= k < |file.reasons| && file.reasons[k].level == Critical {
      assert (file.reasons + added)[k].level == Critical;
    }
    if k :| 0 <= k < |file.reasons + added| && (file.reasons + added)[k].level == Critical {
      assert k >= |file.reasons| ==> (file.reasons + added)[k] == added[k - |file.reasons|];
    }
  }
}
