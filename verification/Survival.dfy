/** How much of a text survives an edit: the exact multiset score, its bounded fallback, and the membership score. */
module Survival {
  import opened Prelude
  import opened Text
  import opened Counting

  // ---------------------------------------------------------------- counting

  /** criticality.rs: count the new lines, then use one up for every old line that finds one. */
  method CountMultisetIntersection(old_: seq<string>, new_: seq<string>) returns (matched: nat)
    ensures matched == |multiset(old_) * multiset(new_)|
  {
    var counts := CountEach(new_);
    ghost var added := multiset(new_);
    matched := 0;
    ghost var seen: multiset<string> := multiset{};
    for i := 0 to |old_|
      invariant seen == multiset(old_[..i])
      invariant CountsOf(counts, added - seen)
      invariant matched == |seen * added|
    {
      var line := old_[i];
      TakeOne(seen, added, line);
      CountsTaken(counts, added - seen, line);
      seen := seen + multiset{line};
      assert old_[..i + 1] == old_[..i] + [line];
      if line in counts && counts[line] != 0 {
        counts := counts[line := counts[line] - 1];
        matched := matched + 1;
      }
    }
    assert old_[..|old_|] == old_;
  }

  /** Counting one down is taking one out. */
  lemma CountsTaken(counts: map<string, nat>, left: multiset<string>, line: string)
    requires CountsOf(counts, left)
    ensures left[line] > 0 <==> line in counts && counts[line] != 0
    ensures left[line] > 0 ==> CountsOf(counts[line := counts[line] - 1], left - multiset{line})
  {
    assert Count(counts, line) == left[line];
  }

  /** One more old line is matched, and used up, exactly when the lines before it left one over. */
  lemma TakeOne(a: multiset<string>, b: multiset<string>, line: string)
    ensures |(a + multiset{line}) * b| == |a * b| + if (b - a)[line] > 0 then 1 else 0
    ensures b - (a + multiset{line}) == if (b - a)[line] > 0 then b - a - multiset{line} else b - a
  {
    if (b - a)[line] > 0 {
      assert (a + multiset{line}) * b == a * b + multiset{line};
    } else {
      assert (a + multiset{line}) * b == a * b;
    }
  }

  const USIZE_MAX: nat := 0xFFFF_FFFF_FFFF_FFFF

  function SaturatingAdd(a: nat, b: nat): nat {
    if a + b > USIZE_MAX then USIZE_MAX else a + b
  }

  /** ast.rs: add up, over the old tokens, the smaller of the two counts. */
  method CountMapIntersection(old_: map<string, nat>, new_: map<string, nat>, ghost a: multiset<string>,
      ghost b: multiset<string>)
    returns (matched: nat)
    requires CountsOf(old_, a) && CountsOf(new_, b) && |a| <= USIZE_MAX
    ensures matched == |a * b|
  {
    var rest := old_.Keys;
    matched := 0;
    ghost var done: multiset<string> := multiset{};
    while rest != {}
      invariant rest <= old_.Keys
      invariant forall t :: done[t] == if t in rest then 0 else (a * b)[t]
      invariant matched == |done| <= USIZE_MAX
      decreases rest
    {
      var token :| token in rest;
      var least := if old_[token] <= Count(new_, token) then old_[token] else Count(new_, token);
      ghost var more: multiset<string> := multiset{}[token := least];
      assert done + more <= a;
      SmallerMultiset(done + more, a);
      matched := SaturatingAdd(matched, least);
      done := done + more;
      rest := rest - {token};
    }
    assert done == a * b;
  }

  /** The token of a value under its category; a blank value is none. */
  function TokensOf(category: string, value: string): multiset<string> {
    if Trim(value, RustSpace) == "" then multiset{} else multiset{category + ":" + Trim(value, RustSpace)}
  }

  method AddToken(counts: map<string, nat>, category: string, value: string, ghost tokens: multiset<string>)
    returns (counts': map<string, nat>)
    requires CountsOf(counts, tokens) && |tokens| < USIZE_MAX
    ensures CountsOf(counts', tokens + TokensOf(category, value))
  {
    var normalized := Trim(value, RustSpace);
    if normalized == "" {
      assert tokens + multiset{} == tokens;
      return counts;
    }
    var token := category + ":" + normalized;
    SmallerMultiset(multiset{}[token := tokens[token]], tokens);
    counts' := counts[token := SaturatingAdd(Count(counts, token), 1)];
  }

  function Matched(old_: seq<string>, new_: seq<string>): nat {
    |multiset(old_) * multiset(new_)|
  }

  /** The score is symmetric, bounded by both lengths, and full exactly when the old lines all survive. */
  lemma MatchedBounds(old_: seq<string>, new_: seq<string>)
    ensures Matched(old_, new_) == Matched(new_, old_)
    ensures Matched(old_, new_) <= |old_| && Matched(old_, new_) <= |new_|
    ensures Matched(old_, new_) == |old_| <==> multiset(old_) <= multiset(new_)
  {
    var a, b := multiset(old_), multiset(new_);
    assert a * b == b * a;
    SmallerMultiset(a * b, a);
    SmallerMultiset(a * b, b);
    assert |multiset(old_)| == |old_| && |multiset(new_)| == |new_|;
    assert a == a * b + (a - a * b);
    assert |a - a * b| == 0 <==> a - a * b == multiset{};
    assert a <= b <==> a - a * b == multiset{};
  }

  /** subjective.rs: an old line counts whenever it occurs in the new text at all. */
  function Members(old_: seq<string>, new_: seq<string>): nat {
    if old_ == [] then 0 else (if old_[0] in new_ then 1 else 0) + Members(old_[1..], new_)
  }

  predicate Distinct(lines: seq<string>) {
    forall i, j :: 0 <= i < j < |lines| ==> lines[i] != lines[j]
  }

  /** The membership count is never smaller than the multiset score, and the same when the old lines are distinct. */
  lemma {:induction false} MembersBoundMatched(old_: seq<string>, new_: seq<string>)
    ensures Matched(old_, new_) <= Members(old_, new_) <= |old_|
    ensures Distinct(old_) ==> Matched(old_, new_) == Members(old_, new_)
  {
    if old_ == [] {
      assert multiset(old_) * multiset(new_) == multiset{};
    } else {
      var rest := old_[1..];
      MembersBoundMatched(rest, new_);
      assert old_ == [old_[0]] + rest;
      assert multiset(old_) == multiset(rest) + multiset{old_[0]};
      TakeOne(multiset(rest), multiset(new_), old_[0]);
      if Distinct(old_) {
        assert old_[0] !in rest;
        assert Distinct(rest);
      }
    }
  }

  // ---------------------------------------------------------------- lines

  /** Rust's str::lines: a final empty piece is no line, and a line loses the "\r" before its "\n". */
  function Lines(text: string): seq<string> {
    LinesOf(Split(text, '\n'))
  }

  function LinesOf(pieces: seq<string>): seq<string>
    requires |pieces| > 0
  {
    var n := |pieces| - 1;
    Ended(pieces[..n]) + if pieces[n] == "" then [] else [pieces[n]]
  }

  function DropReturn(line: string): string {
    if line != "" && line[|line| - 1] == '\r' then line[..|line| - 1] else line
  }

  type Tidying = string -> string

  const TRIM: Tidying := line => Trim(line, RustSpace)

  /** Tidied, and without the empty ones. */
  function Kept(pieces: seq<string>, tidy: Tidying): seq<string> {
    if pieces == [] then []
    else (if tidy(pieces[0]) == "" then [] else [tidy(pieces[0])]) + Kept(pieces[1..], tidy)
  }

  /** normalized_non_empty_lines. */
  function NormalizedLines(text: string): seq<string> {
    Kept(Lines(text), TRIM)
  }

  lemma KeptCons(piece: string, rest: seq<string>, tidy: Tidying)
    ensures Kept([piece] + rest, tidy) == (if tidy(piece) == "" then [] else [tidy(piece)]) + Kept(rest, tidy)
  {
    assert ([piece] + rest)[1..] == rest;
  }

  lemma {:induction false} KeptConcat(a: seq<string>, b: seq<string>, tidy: Tidying)
    ensures Kept(a + b, tidy) == Kept(a, tidy) + Kept(b, tidy)
  {
    if a == [] {
      assert a + b == b;
    } else {
      KeptConcat(a[1..], b, tidy);
      KeptCons(a[0], a[1..], tidy);
      KeptCons(a[0], a[1..] + b, tidy);
      ConcatThrice(if tidy(a[0]) == "" then [] else [tidy(a[0])], Kept(a[1..], tidy), Kept(b, tidy));
      assert a == [a[0]] + a[1..] && a + b == [a[0]] + (a[1..] + b);
    }
  }

  /** Only the tidied text of each piece matters. */
  lemma {:induction false} KeptCongruent(a: seq<string>, b: seq<string>, tidy: Tidying)
    requires |a| == |b| && forall i :: 0 <= i < |a| ==> tidy(a[i]) == tidy(b[i])
    ensures Kept(a, tidy) == Kept(b, tidy)
  {
    if a != [] {
      KeptCongruent(a[1..], b[1..], tidy);
    }
  }

  lemma KeptLast(init: seq<string>, last: string, tidy: Tidying)
    ensures Kept(init + [last], tidy) == Kept(init, tidy) + if tidy(last) == "" then [] else [tidy(last)]
  {
    KeptConcat(init, [last], tidy);
    assert [last][1..] == [];
  }

  lemma KeptEmptyEnds(pieces: seq<string>, tidy: Tidying)
    requires tidy("") == ""
    ensures Kept([""] + pieces, tidy) == Kept(pieces, tidy)
    ensures Kept(pieces + [""], tidy) == Kept(pieces, tidy)
  {
    KeptLast(pieces, "", tidy);
    assert ([""] + pieces)[1..] == pieces;
  }

  /** Replacing the last piece by one that tidies to the same text. */
  lemma KeptSameLast(init: seq<string>, x: string, y: string, tidy: Tidying)
    requires tidy(x) == tidy(y)
    ensures Kept(init + [x], tidy) == Kept(init + [y], tidy)
  {
    KeptLast(init, x, tidy);
    KeptLast(init, y, tidy);
  }

  lemma DropReturnTrims(line: string)
    ensures TRIM(DropReturn(line)) == TRIM(line)
  {
    if line != "" && line[|line| - 1] == '\r' {
      assert line == line[..|line| - 1] + ['\r'];
      TrimDropsBack(line[..|line| - 1], RustSpace, '\r');
    }
  }

  function Ended(pieces: seq<string>): seq<string> {
    seq(|pieces|, i requires 0 <= i < |pieces| => DropReturn(pieces[i]))
  }

  lemma EndedKept(pieces: seq<string>)
    ensures Kept(Ended(pieces), TRIM) == Kept(pieces, TRIM)
  {
    forall i | 0 <= i < |pieces| ensures TRIM(Ended(pieces)[i]) == TRIM(pieces[i]) {
      DropReturnTrims(pieces[i]);
    }
    KeptCongruent(Ended(pieces), pieces, TRIM);
  }

  /** Replacing all pieces but the last, and dropping the last if it is empty. */
  lemma KeptReplaceInit(front: seq<string>, init: seq<string>, last: string, tidy: Tidying)
    requires tidy("") == "" && Kept(init, tidy) == Kept(front, tidy)
    ensures Kept(init + (if last == "" then [] else [last]), tidy) == Kept(front + [last], tidy)
  {
    KeptLast(front, last, tidy);
    if last != "" {
      KeptLast(init, last, tidy);
    } else {
      assert init + [] == init;
    }
  }

  lemma LinesKept(pieces: seq<string>)
    requires |pieces| > 0
    ensures Kept(LinesOf(pieces), TRIM) == Kept(pieces, TRIM)
  {
    var front, last := pieces[..|pieces| - 1], pieces[|pieces| - 1];
    LastApart(pieces);
    EndedKept(front);
    LinesReplaced(front, last, TRIM);
  }

  lemma LinesReplaced(front: seq<string>, last: string, tidy: Tidying)
    requires tidy("") == "" && Kept(Ended(front), tidy) == Kept(front, tidy)
    ensures Kept(LinesOf(front + [last]), tidy) == Kept(front + [last], tidy)
  {
    assert (front + [last])[..|front|] == front;
    KeptReplaceInit(front, Ended(front), last, tidy);
  }

  /** Whatever Rust does about line ends, the normalized lines are those of splitting at "\n". */
  lemma NormalizedIsSplit(text: string)
    ensures NormalizedLines(text) == Kept(Split(text, '\n'), TRIM)
  {
    LinesKept(Split(text, '\n'));
  }

  lemma KeptReplaceFirst(pieces: seq<string>, first: string, tidy: Tidying)
    requires |pieces| > 0 && tidy(first) == tidy(pieces[0])
    ensures Kept([first] + pieces[1..], tidy) == Kept(pieces, tidy)
  {
    KeptCons(pieces[0], pieces[1..], tidy);
    KeptCons(first, pieces[1..], tidy);
    assert pieces == [pieces[0]] + pieces[1..];
  }

  /** Pieces of a text with a space in front. */
  lemma FrontSpacePieces(c: char, pieces: seq<string>)
    requires RustSpace(c) && |pieces| > 0
    ensures Kept(Prepend(c, pieces), TRIM) == Kept(pieces, TRIM)
    ensures Kept([""] + pieces, TRIM) == Kept(pieces, TRIM)
  {
    TrimDropsFront(pieces[0], RustSpace, c);
    KeptReplaceFirst(pieces, [c] + pieces[0], TRIM);
    KeptEmptyEnds(pieces, TRIM);
  }

  lemma BackSpacePieces(pieces: seq<string>, c: char)
    requires RustSpace(c) && |pieces| > 0
    ensures Kept(Append(pieces, c), TRIM) == Kept(pieces, TRIM)
    ensures Kept(pieces + [""], TRIM) == Kept(pieces, TRIM)
  {
    TrimDropsBack(pieces[|pieces| - 1], RustSpace, c);
    KeptAppend(pieces, c, TRIM);
    KeptEmptyEnds(pieces, TRIM);
  }

  lemma KeptAppend(pieces: seq<string>, c: char, tidy: Tidying)
    requires |pieces| > 0 && tidy(pieces[|pieces| - 1] + [c]) == tidy(pieces[|pieces| - 1])
    ensures Kept(Append(pieces, c), tidy) == Kept(pieces, tidy)
  {
    LastApart(pieces);
    KeptSameLast(pieces[..|pieces| - 1], pieces[|pieces| - 1] + [c], pieces[|pieces| - 1], tidy);
  }

  lemma FrontSpaceIgnored(c: char, text: string)
    requires RustSpace(c)
    ensures NormalizedLines([c] + text) == NormalizedLines(text)
  {
    NormalizedIsSplit([c] + text);
    NormalizedIsSplit(text);
    SplitCons(c, text, '\n');
    FrontSpacePieces(c, Split(text, '\n'));
  }

  lemma BackSpaceIgnored(text: string, c: char)
    requires RustSpace(c)
    ensures NormalizedLines(text + [c]) == NormalizedLines(text)
  {
    NormalizedIsSplit(text + [c]);
    NormalizedIsSplit(text);
    BackSpacePieces(Split(text, '\n'), c);
    SplitBack(text, c);
  }

  /** A character at the end starts a new piece or joins the last one. */
  lemma SplitBack(text: string, c: char)
    ensures Split(text + [c], '\n') ==
            if c == '\n' then Split(text, '\n') + [""] else Append(Split(text, '\n'), c)
  {
    if c == '\n' {
      SplitAt(text, '\n', "");
      assert text + [c] + "" == text + [c];
      SplitPlain("", '\n');
    } else {
      SplitSnoc(text, '\n', c);
    }
  }

  predicate IgnoresFront(view: string -> seq<string>, c: char, t: string) {
    view([c] + t) == view(t)
  }

  predicate IgnoresBack(view: string -> seq<string>, t: string, c: char) {
    view(t + [c]) == view(t)
  }

  /** What ignores one space at either end ignores all that trimming removes. */
  ghost predicate IgnoresSpace(view: string -> seq<string>, ws: Whitespace) {
    && (forall c, t :: ws(c) ==> IgnoresFront(view, c, t))
    && (forall t, c :: ws(c) ==> IgnoresBack(view, t, c))
  }

  lemma FrontOff(view: string -> seq<string>, ws: Whitespace, text: string)
    requires IgnoresSpace(view, ws) && text != [] && ws(text[0])
    ensures view(text) == view(text[1..])
  {
    assert text == [text[0]] + text[1..];
    assert IgnoresFront(view, text[0], text[1..]);
  }

  lemma {:induction false} TrimStartIgnored(view: string -> seq<string>, ws: Whitespace, text: string)
    requires IgnoresSpace(view, ws)
    ensures view(TrimStart(text, ws)) == view(text)
  {
    if text != [] && ws(text[0]) {
      var c, rest := text[0], text[1..];
      TrimStartIgnored(view, ws, rest);
      assert TrimStart(text, ws) == TrimStart(rest, ws);
      FrontOff(view, ws, text);
    }
  }

  lemma {:induction false} TrimEndIgnored(view: string -> seq<string>, ws: Whitespace, text: string)
    requires IgnoresSpace(view, ws)
    ensures view(TrimEnd(text, ws)) == view(text)
  {
    if text != [] && ws(text[|text| - 1]) {
      var n := |text| - 1;
      TrimEndIgnored(view, ws, text[..n]);
      assert IgnoresBack(view, text[..n], text[n]);
      assert text == text[..n] + [text[n]];
    }
  }

  /** Trimming a whole text preserves its list of trimmed non-empty lines. */
  lemma TrimKeepsLines(text: string)
    ensures NormalizedLines(Trim(text, RustSpace)) == NormalizedLines(text)
  {
    var view := (t: string) => NormalizedLines(t);
    forall c, t | RustSpace(c) ensures IgnoresFront(view, c, t) { FrontSpaceIgnored(c, t); }
    forall t, c | RustSpace(c) ensures IgnoresBack(view, t, c) { BackSpaceIgnored(t, c); }
    TrimStartIgnored(view, RustSpace, text);
    TrimEndIgnored(view, RustSpace, TrimStart(text, RustSpace));
  }

  // ---------------------------------------------------------------- metrics

  const MAX_LINE_BYTES := 1_000
  const MAX_LINES := 20_000

  datatype Metrics = Metrics(oldCount: nat, newCount: nat, matched: nat, ratio: real)

  function Ratio(matched: nat, total: nat): real {
    if total == 0 then 1.0 else Clamp(matched as real / total as real)
  }

  function Clamp(x: real): real {
    if x < 0.0 then 0.0 else if x > 1.0 then 1.0 else x
  }

  /** Bytes of a character in UTF-8. */
  function Utf8Size(c: char): nat {
    if c < '\U{0080}' then 1 else if c < '\U{0800}' then 2 else if c < '\U{10000}' then 3 else 4
  }

  function Utf8Length(s: string): nat {
    if s == "" then 0 else Utf8Size(s[0]) + Utf8Length(s[1..])
  }

  predicate HasOversizedLine(text: string) {
    exists i :: 0 <= i < |Lines(text)| && Utf8Length(Trim(Lines(text)[i], RustSpace)) > MAX_LINE_BYTES
  }

  /** Counting stops one past the limit. */
  function BoundedLineCount(text: string): nat {
    var n := |NormalizedLines(text)|;
    if n <= MAX_LINES then n else MAX_LINES + 1
  }

  predicate UsesBoundedFallback(old_: string, new_: string) {
    HasOversizedLine(old_) || HasOversizedLine(new_)
    || BoundedLineCount(old_) > MAX_LINES || BoundedLineCount(new_) > MAX_LINES
  }

  function ExactMetrics(old_: string, new_: string): Metrics {
    var o, n := NormalizedLines(old_), NormalizedLines(new_);
    Metrics(|o|, |n|, Matched(o, n), Ratio(Matched(o, n), |o|))
  }

  function BoundedMetrics(old_: string, new_: string): Metrics {
    var o, n := BoundedLineCount(old_), BoundedLineCount(new_);
    var matched := if o == 0 then 0
                   else if Trim(old_, RustSpace) == Trim(new_, RustSpace) then (if o <= n then o else n)
                   else 0;
    Metrics(o, n, matched, Ratio(matched, o))
  }

  /** text_survival_metrics. */
  function TextSurvival(old_: string, new_: string): Metrics {
    if UsesBoundedFallback(old_, new_) then BoundedMetrics(old_, new_) else ExactMetrics(old_, new_)
  }

  /** Equal trimmed texts have equal lines, all of which survive. */
  lemma SameTextSurvives(old_: string, new_: string)
    requires Trim(old_, RustSpace) == Trim(new_, RustSpace)
    ensures |NormalizedLines(old_)| == |NormalizedLines(new_)| == Matched(NormalizedLines(old_), NormalizedLines(new_))
  {
    TrimKeepsLines(old_);
    TrimKeepsLines(new_);
    MatchedBounds(NormalizedLines(old_), NormalizedLines(new_));
  }

  /** The fallback never reports more survival than there is: it says 1 only when everything survived. */
  lemma BoundedIsConservative(old_: string, new_: string)
    ensures BoundedMetrics(old_, new_).ratio <= ExactMetrics(old_, new_).ratio
    ensures BoundedMetrics(old_, new_).ratio == 1.0 || BoundedMetrics(old_, new_).ratio == 0.0
    ensures TextSurvival(old_, new_).ratio <= ExactMetrics(old_, new_).ratio
  {
    var matched, total := Matched(NormalizedLines(old_), NormalizedLines(new_)), |NormalizedLines(old_)|;
    RatioInUnit(matched, total);
    RatioInUnit(0, BoundedLineCount(old_));
    if Trim(old_, RustSpace) == Trim(new_, RustSpace) {
      SameTextSurvives(old_, new_);
      FullRatio(total);
      FullRatio(BoundedLineCount(old_));
    }
  }

  lemma RatioInUnit(matched: nat, total: nat)
    ensures 0.0 <= Ratio(matched, total) <= 1.0
    ensures total > 0 ==> Ratio(0, total) == 0.0
  {}

  lemma FullRatio(total: nat)
    ensures Ratio(total, total) == 1.0
  {
    if total > 0 {
      var x := total as real;
      assert x / x == 1.0;
    }
  }

  datatype ActionType = Added | Modified | Deleted | Renamed | ModeChanged | Untracked

  /** semantic_modifier: what a low survival ratio adds to the criticality of a file. */
  function SemanticModifier(action: ActionType, ratio: real, oldCode: string): real {
    Modifier(action, ratio, Trim(oldCode, RustSpace) == "", |NormalizedLines(oldCode)|)
  }

  function Modifier(action: ActionType, ratio: real, blank: bool, lines: nat): real {
    if action == Added || blank then 0.0
    else if action == Deleted then 3.0
    else
      var r := Clamp(ratio);
      var modifier := if r < 0.25 then 3.0 else if r < 0.5 then 2.0 else if r < 0.75 then 1.0 else 0.0;
      if lines <= 1 && modifier > 1.0 then 1.0 else modifier
  }

  /** So falling back never makes a file look less critical. */
  lemma FallbackNeverLowersCriticality(action: ActionType, old_: string, new_: string)
    ensures SemanticModifier(action, TextSurvival(old_, new_).ratio, old_) >=
            SemanticModifier(action, ExactMetrics(old_, new_).ratio, old_)
  {
    BoundedIsConservative(old_, new_);
    ModifierAntitone(action, TextSurvival(old_, new_).ratio, ExactMetrics(old_, new_).ratio,
        Trim(old_, RustSpace) == "",
                     |NormalizedLines(old_)|);
  }

  lemma ModifierAntitone(action: ActionType, low: real, high: real, blank: bool, lines: nat)
    requires low <= high
    ensures Modifier(action, low, blank, lines) >= Modifier(action, high, blank, lines)
  {}
}
