/** Intent contracts: matching one action, and the fallback for a group of matches. */
module Intent {
  import opened Prelude
  import opened Text
  import opened RepoPath

  datatype Operation =
    | ReadOp | Create | Modify | DeleteFile | DeleteFolder | Rename | Move
    | Command | DependencyChange | ConfigChange | TestOp | Build | UnknownOp

  datatype ScopeType = ExactPath | PathGlob | FileType | KindScope | Symbol

  datatype ResourceKind =
    | FileKind | Directory | PythonModule | PythonSymbol | RustModule | RustSymbol | Config
    | DependencyManifest | Lockfile | CiWorkflow | Sensitive | TestKind | Generated
    | DatabaseMigration | PolicyKind | Documentation | UnknownKind

  datatype MatchState = ExactMatch | PartialMatch | Drift | Conflict | UnknownMatch | HardSensitive

  datatype Hint = NoHint | Allow | Audit | RequireApproval | Block

  datatype Mode = Disabled | Shadow | Enforce

  datatype Scope = Scope(kind: ScopeType, value: string, resourceKind: Option<ResourceKind>)

  datatype Action = Action(operation: Operation, affected: seq<string>, oldPath: Option<string>,
                           newPath: Option<string>, resourceKind: ResourceKind)

  datatype Contract = Contract(allowed: seq<Operation>, targets: seq<Scope>, excluded: seq<Scope>, mode: Mode)

  /**
    Library matching: fnmatch of a path against a scope's pattern, resource kinds by name, and the symbols of a path
    graph.
  */
  datatype Library = Library(glob: (string, string) -> bool, kindNamed: string -> Option<ResourceKind>,
                             hasSymbol: (seq<string>, string) -> bool)

  datatype Match = Match(state: MatchState, hint: Hint, matched: seq<Scope>, unmatched: seq<Scope>,
      outside: seq<string>)

  // ---------------------------------------------------------------- paths of an action

  function RawPaths(a: Action): seq<string> {
    a.affected
    + (if a.oldPath.Some? then [a.oldPath.value] else [])
    + (if a.newPath.Some? then [a.newPath.value] else [])
  }

  /** Normalized, each once, in order of first appearance; invalid ones are skipped. */
  function Normalized(norm: Normalizer, raw: seq<string>): seq<string> {
    if raw == [] then []
    else
      var before := Normalized(norm, raw[..|raw| - 1]);
      match norm(raw[|raw| - 1])
      case Err(_) => before
      case Ok(p) => if p in before then before else before + [p]
  }

  predicate SomeInvalid(norm: Normalizer, raw: seq<string>) {
    exists k :: 0 <= k < |raw| && norm(raw[k]).Err?
  }

  method NormalizedActionPaths(norm: Normalizer, a: Action) returns (paths: seq<string>, invalid: bool)
    ensures paths == Normalized(norm, RawPaths(a)) && (invalid <==> SomeInvalid(norm, RawPaths(a)))
  {
    var raw := RawPaths(a);
    paths, invalid := [], false;
    for i := 0 to |raw|
      invariant paths == Normalized(norm, raw[..i])
      invariant invalid <==> exists k :: 0 <= k < i && norm(raw[k]).Err?
    {
      assert raw[..i + 1][..i] == raw[..i];
      match norm(raw[i]) {
        case Err(_) => invalid := true;
        case Ok(p) =>
          if p !in paths {
            paths := paths + [p];
          }
      }
    }
    assert raw[..|raw|] == raw;
  }

  function Paths(a: Action): seq<string> {
    Normalized(PythonNormalize, RawPaths(a))
  }

  predicate Malformed(a: Action) {
    SomeInvalid(PythonNormalize, RawPaths(a))
  }

  // ---------------------------------------------------------------- scopes

  predicate ConfigLike(k: ResourceKind) { k == Config || k == CiWorkflow || k == PolicyKind }

  predicate DependencyLike(k: ResourceKind) { k == DependencyManifest || k == Lockfile }

  predicate KindMatches(expected: ResourceKind, a: Action) {
    a.resourceKind == expected
    || (expected == Config && ConfigLike(a.resourceKind))
    || (expected == DependencyManifest && DependencyLike(a.resourceKind))
  }

  predicate EndsWith(s: string, suffix: string) {
    |suffix| <= |s| && s[|s| - |suffix|..] == suffix
  }

  function FileName(path: string): string {
    var parts := Split(path, '/');
    parts[|parts| - 1]
  }

  function Suffix(value: string): string {
    var s := Lower(Trim(value, PythonSpace));
    if s == "" || s[0] == '.' then s else "." + s
  }

  /** A scope against one path; `graph` holds all paths of the action. */
  predicate ScopeCovers(lib: Library, scope: Scope, path: string) {
    match scope.kind
    case ExactPath => PythonNormalize(scope.value) == Ok(path)
    case PathGlob => lib.glob(path, scope.value)
    case FileType => Suffix(scope.value) != "" && EndsWith(Lower(FileName(path)), Suffix(scope.value))
    case _ => false
  }

  /** _scope_matches: path scopes look at the paths, the others at the action or its symbol graph. */
  predicate ScopeMatches(lib: Library, scope: Scope, a: Action, paths: seq<string>, graph: seq<string>) {
    if scope.resourceKind.Some? && !KindMatches(scope.resourceKind.value, a) then false
    else match scope.kind
      case KindScope =>
        (match (if scope.resourceKind.Some? then scope.resourceKind else lib.kindNamed(scope.value))
         case None => false
         case Some(k) => KindMatches(k, a))
      case Symbol => Trim(scope.value, PythonSpace) != "" && lib.hasSymbol(graph, Trim(scope.value, PythonSpace))
      case _ => exists k :: 0 <= k < |paths| && ScopeCovers(lib, scope, paths[k])
  }

  function Matching(lib: Library, scopes: seq<Scope>, a: Action): seq<Scope> {
    if scopes == [] then []
    else
      (if ScopeMatches(lib, scopes[0], a, Paths(a), Paths(a)) then [scopes[0]] else [])
      + Matching(lib, scopes[1..], a)
  }

  predicate NeedsPaths(scopes: seq<Scope>) {
    exists k :: 0 <= k < |scopes| && scopes[k].kind != KindScope
  }

  /** Some scope covers this path on its own. */
  predicate Covered(lib: Library, scopes: seq<Scope>, a: Action, path: string) {
    exists k :: 0 <= k < |scopes| && ScopeMatches(lib, scopes[k], a, [path], Paths(a))
  }

  function Uncovered(lib: Library, scopes: seq<Scope>, a: Action, paths: seq<string>): seq<string> {
    Filter(paths, p => !Covered(lib, scopes, a, p))
  }

  function Outside(lib: Library, scopes: seq<Scope>, a: Action): seq<string> {
    if Paths(a) == [] || !NeedsPaths(scopes) then [] else Uncovered(lib, scopes, a, Paths(a))
  }

  method ActionPathsOutsideTargetScopes(lib: Library, scopes: seq<Scope>, a: Action) returns (outside: seq<string>)
    ensures outside == Outside(lib, scopes, a)
  {
    var paths := Paths(a);
    if paths == [] || !NeedsPaths(scopes) { return []; }
    var covered := path => Covered(lib, scopes, a, path);
    outside := OutOfScope(covered, paths);
    FilterSame(paths, path => !covered(path), path => !Covered(lib, scopes, a, path));
  }

  /** The loop, over whatever test the scopes come to. */
  method OutOfScope(covered: string -> bool, paths: seq<string>) returns (outside: seq<string>)
    ensures outside == Filter(paths, path => !covered(path))
  {
    outside := [];
    ghost var test := path => !covered(path);
    for i := 0 to |paths|
      invariant outside == Filter(paths[..i], test)
    {
      FilterSnoc(paths[..i], paths[i], test);
      assert paths[..i + 1] == paths[..i] + [paths[i]];
      if !covered(paths[i]) {
        outside := outside + [paths[i]];
      }
    }
    assert paths[..|paths|] == paths;
  }

  lemma {:induction false} FilterSame(paths: seq<string>, one: string -> bool, other: string -> bool)
    requires forall path :: one(path) == other(path)
    ensures Filter(paths, one) == Filter(paths, other)
  {
    if paths != [] {
      FilterSame(paths[1..], one, other);
    }
  }

  // ---------------------------------------------------------------- matching one action

  predicate Mutating(op: Operation) {
    op in {Create, Modify, DeleteFile, DeleteFolder, Rename, Move}
  }

  predicate Listed(a: Action, c: Contract) {
    a.operation in c.allowed
  }

  /** A configuration or dependency change allowed under its general name. */
  predicate SemanticallyAllowed(a: Action, c: Contract) {
    Mutating(a.operation)
    && ((ConfigChange in c.allowed && ConfigLike(a.resourceKind))
        || (DependencyChange in c.allowed && DependencyLike(a.resourceKind)))
  }

  function WithoutAll(scopes: seq<Scope>, gone: seq<Scope>): seq<Scope> {
    if scopes == [] then []
    else (if scopes[0] in gone then [] else [scopes[0]]) + WithoutAll(scopes[1..], gone)
  }

  function AllowedOrPartial(exact: bool, matched: seq<Scope>): Match {
    if exact then Match(ExactMatch, Allow, matched, [], []) else Match(PartialMatch, Audit, matched, [], [])
  }

  /** match_action_to_contract, once the paths and the matching scopes are known. */
  function Judge(a: Action, c: Contract, malformed: bool, pathless: bool, excluded: seq<Scope>, matched: seq<Scope>,
                 outside: seq<string>): Match {
    if a.resourceKind == Sensitive then Match(HardSensitive, Block, [], [], [])
    else if malformed then Match(UnknownMatch, RequireApproval, [], [], [])
    else if excluded != [] then Match(Conflict, RequireApproval, excluded, [], [])
    else if !Listed(a, c) && !SemanticallyAllowed(a, c) then
      Match(if a.operation == UnknownOp then UnknownMatch else Conflict, RequireApproval, [], [], [])
    else if c.targets == [] then AllowedOrPartial(Listed(a, c), [])
    else if pathless && NeedsPaths(c.targets) then Match(UnknownMatch, RequireApproval, [], c.targets, [])
    else if matched == [] then Match(Drift, RequireApproval, [], c.targets, [])
    else if outside != [] then Match(PartialMatch, Audit, matched, WithoutAll(c.targets, matched), outside)
    else AllowedOrPartial(Listed(a, c), matched)
  }

  function MatchAction(lib: Library, a: Action, c: Contract): Match {
    Judge(a, c, Malformed(a), Paths(a) == [], Matching(lib, c.excluded, a), Matching(lib, c.targets, a),
        Outside(lib, c.targets, a))
  }

  // ---------------------------------------------------------------- what a match means

  function HintFor(state: MatchState): Hint {
    match state
    case ExactMatch => Allow
    case PartialMatch => Audit
    case Drift => RequireApproval
    case Conflict => RequireApproval
    case UnknownMatch => RequireApproval
    case HardSensitive => Block
  }

  function Rank(h: Hint): nat {
    match h
    case NoHint => 0
    case Allow => 1
    case Audit => 2
    case RequireApproval => 3
    case Block => 4
  }

  lemma JudgedHint(a: Action, c: Contract, malformed: bool, pathless: bool, excluded: seq<Scope>, matched: seq<Scope>,
                   outside: seq<string>)
    ensures var m := Judge(a, c, malformed, pathless, excluded, matched, outside); m.hint == HintFor(m.state)
  {}

  predicate Matched(m: Match) { m.state == ExactMatch || m.state == PartialMatch }

  /** Each state comes with its own hint. */
  predicate Hinted(m: Match) { m.hint == HintFor(m.state) }

  lemma HintFollowsState(lib: Library, a: Action, c: Contract)
    ensures Hinted(MatchAction(lib, a, c))
  {
    JudgedHint(a, c, Malformed(a), Paths(a) == [], Matching(lib, c.excluded, a), Matching(lib, c.targets, a),
        Outside(lib, c.targets, a));
  }

  predicate SomeMatches(lib: Library, scopes: seq<Scope>, a: Action) {
    exists k :: 0 <= k < |scopes| && ScopeMatches(lib, scopes[k], a, Paths(a), Paths(a))
  }

  lemma {:induction false} MatchingIsSome(lib: Library, scopes: seq<Scope>, a: Action)
    ensures Matching(lib, scopes, a) != [] <==> SomeMatches(lib, scopes, a)
  {
    if scopes != [] {
      MatchingIsSome(lib, scopes[1..], a);
      if k :| 0 <= k < |scopes| && ScopeMatches(lib, scopes[k], a, Paths(a), Paths(a)) {
        assert k > 0 ==> scopes[1..][k - 1] == scopes[k];
      }
      if k :| 0 <= k < |scopes[1..]| && ScopeMatches(lib, scopes[1..][k], a, Paths(a), Paths(a)) {
        assert scopes[k + 1] == scopes[1..][k];
      }
    }
  }

  lemma {:induction false} FilterNone(paths: seq<string>, keep: string -> bool)
    ensures Filter(paths, keep) == [] <==> forall k :: 0 <= k < |paths| ==> !keep(paths[k])
  {
    if paths != [] {
      FilterNone(paths[1..], keep);
      assert paths == [paths[0]] + paths[1..];
    }
  }

  lemma {:induction false} FilterExactly(paths: seq<string>, keep: string -> bool, path: string)
    ensures path in Filter(paths, keep) <==> path in paths && keep(path)
  {
    if paths != [] {
      FilterExactly(paths[1..], keep, path);
      assert paths == [paths[0]] + paths[1..];
    }
  }

  /** What is reported as out of scope: of an action with path scopes, the paths no scope covers on its own. */
  lemma OutsideExactly(lib: Library, scopes: seq<Scope>, a: Action, path: string)
    ensures path in Outside(lib, scopes, a) <==>
        path in Paths(a) && NeedsPaths(scopes) && !Covered(lib, scopes, a, path)
  {
    FilterExactly(Paths(a), p => !Covered(lib, scopes, a, p), path);
  }

  predicate AllCovered(lib: Library, scopes: seq<Scope>, a: Action) {
    forall k :: 0 <= k < |Paths(a)| ==> Covered(lib, scopes, a, Paths(a)[k])
  }

  lemma UncoveredIsSome(lib: Library, scopes: seq<Scope>, a: Action)
    ensures Uncovered(lib, scopes, a, Paths(a)) == [] <==> AllCovered(lib, scopes, a)
  {
    FilterNone(Paths(a), p => !Covered(lib, scopes, a, p));
  }

  /** A scope that matches one of the paths matches them together. */
  lemma OneIsEnough(lib: Library, scope: Scope, a: Action, k: nat)
    requires k < |Paths(a)| && ScopeMatches(lib, scope, a, [Paths(a)[k]], Paths(a))
    ensures ScopeMatches(lib, scope, a, Paths(a), Paths(a))
  {}

  /** A scope that does not look at paths matches each of them alone. */
  lemma KindCoversAll(lib: Library, scope: Scope, a: Action, path: string)
    requires scope.kind == KindScope && ScopeMatches(lib, scope, a, Paths(a), Paths(a))
    ensures ScopeMatches(lib, scope, a, [path], Paths(a))
  {}

  /** For an action with paths, being inside the targets means every path is covered on its own. */
  predicate Inside(lib: Library, a: Action, targets: seq<Scope>) {
    targets == []
    || (Paths(a) != [] && AllCovered(lib, targets, a))
    || (Paths(a) == [] && !NeedsPaths(targets) && SomeMatches(lib, targets, a))
  }

  lemma InsideExactly(lib: Library, a: Action, targets: seq<Scope>)
    requires targets != []
    ensures Inside(lib, a, targets) <==>
            !(Paths(a) == [] && NeedsPaths(targets))
            && Matching(lib, targets, a) != [] && Outside(lib, targets, a) == []
  {
    MatchingIsSome(lib, targets, a);
    UncoveredIsSome(lib, targets, a);
    if Paths(a) != [] && AllCovered(lib, targets, a) {
      assert Covered(lib, targets, a, Paths(a)[0]);
      var k :| 0 <= k < |targets| && ScopeMatches(lib, targets[k], a, [Paths(a)[0]], Paths(a));
      OneIsEnough(lib, targets[k], a, 0);
    }
    if Paths(a) != [] && !NeedsPaths(targets) && SomeMatches(lib, targets, a) {
      var k :| 0 <= k < |targets| && ScopeMatches(lib, targets[k], a, Paths(a), Paths(a));
      forall j | 0 <= j < |Paths(a)| ensures Covered(lib, targets, a, Paths(a)[j]) {
        KindCoversAll(lib, targets[k], a, Paths(a)[j]);
      }
    }
  }

  /** The operation is listed, or allowed under a general name. */
  predicate Permitted(a: Action, c: Contract) {
    Listed(a, c) || SemanticallyAllowed(a, c)
  }

  /** Past the sensitive, malformed, excluded and forbidden ones. */
  predicate Eligible(lib: Library, a: Action, c: Contract) {
    a.resourceKind != Sensitive && !Malformed(a) && !SomeMatches(lib, c.excluded, a) && Permitted(a, c)
  }

  predicate Undecidable(a: Action, c: Contract) {
    c.targets != [] && Paths(a) == [] && NeedsPaths(c.targets)
  }

  lemma JudgedStates(a: Action, c: Contract, malformed: bool, pathless: bool, excluded: seq<Scope>, matched: seq<Scope>,
                     outside: seq<string>)
    ensures var state := Judge(a, c, malformed, pathless, excluded, matched, outside).state;
            var clear := a.resourceKind != Sensitive && !malformed && excluded == [];
            var lost := c.targets != [] && pathless && NeedsPaths(c.targets);
            && (state == HardSensitive <==> a.resourceKind == Sensitive)
            && (state == Conflict <==> a.resourceKind != Sensitive && !malformed
                                       && (excluded != [] || (!Permitted(a, c) && a.operation != UnknownOp)))
            && (state == Drift <==> clear && Permitted(a, c) && c.targets != [] && !lost && matched == [])
            && (state == UnknownMatch <==> a.resourceKind != Sensitive
                                           && (malformed || (excluded == [] && if Permitted(a, c) then lost
                                               else a.operation == UnknownOp)))
  {}

  /** The other states, exactly; a PARTIAL_MATCH is what is left. */
  lemma StatesExactly(lib: Library, a: Action, c: Contract)
    ensures var state := MatchAction(lib, a, c).state;
            && (state == HardSensitive <==> a.resourceKind == Sensitive)
            && (state == Conflict <==> a.resourceKind != Sensitive && !Malformed(a)
                                       && (SomeMatches(lib, c.excluded, a) ||
                                           (!Permitted(a, c) && a.operation != UnknownOp)))
            && (state == Drift <==>
                  && Eligible(lib, a, c) && c.targets != [] && !Undecidable(a, c)
                  && !SomeMatches(lib, c.targets, a))
            && (state == UnknownMatch <==>
                  && a.resourceKind != Sensitive
                  && (Malformed(a) || (!SomeMatches(lib, c.excluded, a)
                                       && if Permitted(a, c) then Undecidable(a, c) else a.operation == UnknownOp)))
  {
    MatchingIsSome(lib, c.excluded, a);
    MatchingIsSome(lib, c.targets, a);
    JudgedStates(a, c, Malformed(a), Paths(a) == [], Matching(lib, c.excluded, a), Matching(lib, c.targets, a),
        Outside(lib, c.targets, a));
  }

  lemma JudgedExact(a: Action, c: Contract, malformed: bool, pathless: bool, excluded: seq<Scope>, matched: seq<Scope>,
                    outside: seq<string>)
    ensures Judge(a, c, malformed, pathless, excluded, matched, outside).state == ExactMatch <==>
            && a.resourceKind != Sensitive && !malformed && excluded == [] && Listed(a, c)
            && (c.targets == [] || (!(pathless && NeedsPaths(c.targets)) && matched != [] && outside == []))
  {}

  /**
    EXACT_MATCH, exactly: nothing sensitive or malformed, the operation listed, nothing excluded, everything inside.
  */
  lemma ExactExactly(lib: Library, a: Action, c: Contract)
    ensures MatchAction(lib, a, c).state == ExactMatch <==>
            && a.resourceKind != Sensitive && !Malformed(a)
            && Listed(a, c)
            && !SomeMatches(lib, c.excluded, a)
            && Inside(lib, a, c.targets)
  {
    MatchingIsSome(lib, c.excluded, a);
    JudgedExact(a, c, Malformed(a), Paths(a) == [], Matching(lib, c.excluded, a), Matching(lib, c.targets, a),
        Outside(lib, c.targets, a));
    if c.targets != [] {
      InsideExactly(lib, a, c.targets);
    }
  }

  // ---------------------------------------------------------------- monotonicity

  predicate Includes(more: seq<Scope>, fewer: seq<Scope>) {
    forall s :: s in fewer ==> s in more
  }

  lemma MoreScopesMatchMore(lib: Library, a: Action, fewer: seq<Scope>, more: seq<Scope>)
    requires Includes(more, fewer)
    ensures SomeMatches(lib, fewer, a) ==> SomeMatches(lib, more, a)
    ensures AllCovered(lib, fewer, a) ==> AllCovered(lib, more, a)
  {
    if k :| 0 <= k < |fewer| && ScopeMatches(lib, fewer[k], a, Paths(a), Paths(a)) {
      assert fewer[k] in more;
      var j :| 0 <= j < |more| && more[j] == fewer[k];
      assert SomeMatches(lib, more, a);
    }
    if AllCovered(lib, fewer, a) {
      forall i | 0 <= i < |Paths(a)| ensures Covered(lib, more, a, Paths(a)[i]) {
        assert Covered(lib, fewer, a, Paths(a)[i]);
        var k :| 0 <= k < |fewer| && ScopeMatches(lib, fewer[k], a, [Paths(a)[i]], Paths(a));
        assert fewer[k] in more;
        var j :| 0 <= j < |more| && more[j] == fewer[k];
        assert Covered(lib, more, a, Paths(a)[i]);
      }
    }
  }

  lemma JudgedExcluded(a: Action, c: Contract, scopes: seq<Scope>, malformed: bool, pathless: bool, fewer: seq<Scope>,
                       more: seq<Scope>, matched: seq<Scope>, outside: seq<string>)
    requires fewer != [] ==> more != []
    ensures Rank(Judge(a, c.(excluded := scopes), malformed, pathless, more, matched, outside).hint)
            >= Rank(Judge(a, c, malformed, pathless, fewer, matched, outside).hint)
  {}

  /** Excluding more never weakens the hint. */
  lemma ExcludingNeverWeakens(lib: Library, a: Action, c: Contract, excluded: seq<Scope>)
    requires Includes(excluded, c.excluded)
    ensures Rank(MatchAction(lib, a, c.(excluded := excluded)).hint) >= Rank(MatchAction(lib, a, c).hint)
  {
    MatchingIsSome(lib, c.excluded, a);
    MatchingIsSome(lib, excluded, a);
    MoreScopesMatchMore(lib, a, c.excluded, excluded);
    JudgedExcluded(a, c, excluded, Malformed(a), Paths(a) == [], Matching(lib, c.excluded, a),
        Matching(lib, excluded, a),
                   Matching(lib, c.targets, a), Outside(lib, c.targets, a));
  }

  /** Of two judgements of an action with paths, the one that is inside wherever the other is has no stronger hint. */
  lemma JudgedTargets(a: Action, c: Contract, targets: seq<Scope>, malformed: bool, excluded: seq<Scope>,
                      fewer: seq<Scope>, fewerOutside: seq<string>, more: seq<Scope>, moreOutside: seq<string>)
    requires c.targets != [] && targets != []
    requires fewer != [] ==> more != []
    requires fewer != [] && fewerOutside == [] ==> moreOutside == []
    ensures Rank(Judge(a, c.(targets := targets), malformed, false, excluded, more, moreOutside).hint)
            <= Rank(Judge(a, c, malformed, false, excluded, fewer, fewerOutside).hint)
  {}

  /** Adding targets to some never strengthens the hint of an action that has paths. */
  lemma TargetsNeverStrengthen(lib: Library, a: Action, c: Contract, targets: seq<Scope>)
    requires c.targets != [] && Includes(targets, c.targets) && Paths(a) != []
    ensures Rank(MatchAction(lib, a, c.(targets := targets)).hint) <= Rank(MatchAction(lib, a, c).hint)
  {
    assert c.targets[0] in targets;
    MoreTargets(lib, a, c.targets, targets);
    JudgedTargets(a, c, targets, Malformed(a), Matching(lib, c.excluded, a),
                  Matching(lib, c.targets, a), Outside(lib, c.targets, a),
                  Matching(lib, targets, a), Outside(lib, targets, a));
  }

  lemma MoreTargets(lib: Library, a: Action, fewer: seq<Scope>, more: seq<Scope>)
    requires fewer != [] && more != [] && Includes(more, fewer) && Paths(a) != []
    ensures Matching(lib, fewer, a) != [] ==> Matching(lib, more, a) != []
    ensures Matching(lib, fewer, a) != [] && Outside(lib, fewer, a) == [] ==> Outside(lib, more, a) == []
  {
    MoreScopesMatchMore(lib, a, fewer, more);
    MatchingIsSome(lib, fewer, a);
    MatchingIsSome(lib, more, a);
    InsideExactly(lib, a, fewer);
    InsideExactly(lib, a, more);
  }

  /** Two judgements of an action without paths, whose targets look at paths or not. */
  lemma JudgedPathless(a: Action, c: Contract, targets: seq<Scope>, malformed: bool, excluded: seq<Scope>,
                       fewer: seq<Scope>, more: seq<Scope>)
    requires c.targets != [] && targets != []
    requires fewer != [] ==> more != []
    requires NeedsPaths(c.targets) ==> NeedsPaths(targets)
    ensures var before := Judge(a, c, malformed, true, excluded, fewer, []);
            var after := Judge(a, c.(targets := targets), malformed, true, excluded, more, []);
            Rank(after.hint) > Rank(before.hint) <==>
            !NeedsPaths(c.targets) && NeedsPaths(targets) &&
                (before.state == ExactMatch || before.state == PartialMatch)
  {}

  lemma MorePathless(lib: Library, a: Action, fewer: seq<Scope>, more: seq<Scope>)
    requires Includes(more, fewer) && Paths(a) == []
    ensures Matching(lib, fewer, a) != [] ==> Matching(lib, more, a) != []
    ensures NeedsPaths(fewer) ==> NeedsPaths(more)
    ensures Outside(lib, fewer, a) == [] && Outside(lib, more, a) == []
  {
    MoreScopesMatchMore(lib, a, fewer, more);
    MatchingIsSome(lib, fewer, a);
    MatchingIsSome(lib, more, a);
    if k :| 0 <= k < |fewer| && fewer[k].kind != KindScope {
      assert fewer[k] in more;
      var j :| 0 <= j < |more| && more[j] == fewer[k];
    }
  }

  /**
    Added targets strengthen the hint exactly when the action has no paths, matched without path scopes, and now meets
    one.
  */
  lemma TargetsStrengthenExactly(lib: Library, a: Action, c: Contract, targets: seq<Scope>)
    requires c.targets != [] && Includes(targets, c.targets)
    ensures Rank(MatchAction(lib, a, c.(targets := targets)).hint) > Rank(MatchAction(lib, a, c).hint) <==>
            && Paths(a) == [] && !NeedsPaths(c.targets) && NeedsPaths(targets)
            && Matched(MatchAction(lib, a, c))
  {
    assert c.targets[0] in targets;
    if Paths(a) == [] {
      MorePathless(lib, a, c.targets, targets);
      JudgedPathless(a, c, targets, Malformed(a), Matching(lib, c.excluded, a), Matching(lib, c.targets, a),
          Matching(lib, targets, a));
    } else {
      TargetsNeverStrengthen(lib, a, c, targets);
    }
  }

  /** It happens: a path scope beside a matching kind scope turns a decided action into an unknown one. */
  lemma PathScopeStrengthensPathless(lib: Library, a: Action, c: Contract, scope: Scope)
    requires Paths(a) == [] && !NeedsPaths(c.targets) && scope.kind != KindScope
    requires Matched(MatchAction(lib, a, c))
    ensures MatchAction(lib, a, c.(targets := c.targets + [scope])).hint == RequireApproval
  {
    assert (c.targets + [scope])[|c.targets|] == scope;
  }

  // ---------------------------------------------------------------- the fallback for a group

  predicate HasState(results: seq<Match>, state: MatchState) {
    exists k :: 0 <= k < |results| && results[k].state == state
  }

  /** _recommended_fallback. */
  function Recommended(results: seq<Match>): (MatchState, Hint) {
    if results == [] then (UnknownMatch, RequireApproval)
    else if HasState(results, HardSensitive) then (HardSensitive, Block)
    else if HasState(results, UnknownMatch) then (UnknownMatch, RequireApproval)
    else if HasState(results, Conflict) then (Conflict, RequireApproval)
    else if HasState(results, Drift) then (Drift, RequireApproval)
    else if HasState(results, PartialMatch) then (PartialMatch, Audit)
    else if forall k :: 0 <= k < |results| ==> results[k].state == ExactMatch then (ExactMatch, Allow)
    else (UnknownMatch, RequireApproval)
  }

  /** _effective_hint. */
  function Effective(hint: Hint, mode: Mode): Hint {
    match mode
    case Disabled => NoHint
    case Shadow => if hint == Block || hint == RequireApproval then Audit else hint
    case Enforce => hint
  }

  datatype Evaluation = Evaluation(state: MatchState, recommended: Hint, effective: Hint)

  function MatchAll(lib: Library, actions: seq<Action>, c: Contract): seq<Match> {
    seq(|actions|, i requires 0 <= i < |actions| => MatchAction(lib, actions[i], c))
  }

  /** evaluate_intent_fallback over match_actions_to_contract. */
  function Evaluate(lib: Library, actions: seq<Action>, c: Contract): Evaluation {
    var (state, hint) := Recommended(MatchAll(lib, actions, c));
    Evaluation(state, hint, Effective(hint, c.mode))
  }

  /** The state a non-empty group is given is the state of one of its actions. */
  lemma StateOccurs(results: seq<Match>)
    requires results != []
    ensures HasState(results, Recommended(results).0) && Recommended(results).1 == HintFor(Recommended(results).0)
  {
    if !HasState(results, HardSensitive) && !HasState(results, UnknownMatch) && !HasState(results, Conflict)
       && !HasState(results, Drift) && !HasState(results, PartialMatch) {
      forall k | 0 <= k < |results| ensures results[k].state == ExactMatch {
        match results[k].state case _ => assert HasState(results, results[k].state);
      }
      assert results[0].state == ExactMatch;
    }
  }

  /** How much a state weighs when results disagree. */
  function Weight(state: MatchState): nat {
    match state
    case ExactMatch => 0
    case PartialMatch => 1
    case Drift => 2
    case Conflict => 3
    case UnknownMatch => 4
    case HardSensitive => 5
  }

  /** The state given to a group is the weightiest of its members' states. */
  lemma StateIsWeightiest(results: seq<Match>, k: nat)
    requires k < |results|
    ensures Weight(results[k].state) <= Weight(Recommended(results).0)
  {
    assert HasState(results, results[k].state);
  }

  /** The group's hint is the greatest of its members' hints. */
  lemma RecommendedIsGreatest(results: seq<Match>)
    requires results != [] && forall k :: 0 <= k < |results| ==> Hinted(results[k])
    ensures forall k :: 0 <= k < |results| ==> Rank(results[k].hint) <= Rank(Recommended(results).1)
    ensures exists k :: 0 <= k < |results| && results[k].hint == Recommended(results).1
  {
    StateOccurs(results);
    var k :| 0 <= k < |results| && results[k].state == Recommended(results).0;
    assert Hinted(results[k]);
    forall k | 0 <= k < |results| ensures Rank(results[k].hint) <= Rank(Recommended(results).1) {
      assert Hinted(results[k]) && HasState(results, results[k].state);
    }
  }

  /** The hint recommended for a run's actions is the greatest of the hints they get one by one. */
  lemma EvaluatedIsGreatest(lib: Library, actions: seq<Action>, c: Contract)
    requires actions != []
    ensures forall k :: 0 <= k < |actions| ==>
              Rank(MatchAction(lib, actions[k], c).hint) <= Rank(Evaluate(lib, actions, c).recommended)
    ensures exists k :: && 0 <= k < |actions|
                        && MatchAction(lib, actions[k], c).hint == Evaluate(lib, actions, c).recommended
  {
    var results := MatchAll(lib, actions, c);
    forall k | 0 <= k < |actions| ensures results[k] == MatchAction(lib, actions[k], c) && Hinted(results[k]) {
      HintFollowsState(lib, actions[k], c);
    }
    RecommendedIsGreatest(results);
    var k :| 0 <= k < |results| && results[k].hint == Recommended(results).1;
    assert MatchAction(lib, actions[k], c).hint == Evaluate(lib, actions, c).recommended;
  }

  /** Order and repetition do not matter. */
  lemma RecommendedIgnoresOrder(xs: seq<Match>, ys: seq<Match>)
    requires forall state :: HasState(xs, state) <==> HasState(ys, state)
    ensures Recommended(xs) == Recommended(ys)
  {
    if xs != [] {
      assert HasState(xs, xs[0].state);
      StateOccurs(xs);
    }
    if ys != [] {
      assert HasState(ys, ys[0].state);
      StateOccurs(ys);
    }
  }

  /** Nothing to block or approve means every action matched, exactly or partially. */
  lemma UnopposedMeansMatched(results: seq<Match>)
    ensures Recommended(results).1 != Block && Recommended(results).1 != RequireApproval <==>
            results != [] && forall k :: 0 <= k < |results| ==> Matched(results[k])
  {
    if results != [] {
      StateOccurs(results);
      forall k | 0 <= k < |results| ensures HasState(results, results[k].state) {}
    }
  }

  /** Under enforcement, the same of the evaluation. */
  lemma EnforcedMeansMatched(lib: Library, actions: seq<Action>, c: Contract)
    requires c.mode == Enforce
    ensures var e := Evaluate(lib, actions, c);
            e.effective != Block && e.effective != RequireApproval <==>
            actions != [] && forall k :: 0 <= k < |actions| ==> Matched(MatchAction(lib, actions[k], c))
  {
    var results := MatchAll(lib, actions, c);
    UnopposedMeansMatched(results);
    assert forall k :: 0 <= k < |actions| ==> results[k] == MatchAction(lib, actions[k], c);
  }
}
