/** The string operations the program relies on: splitting, joining, trimming, tokenizing. */
module Text {
  type Whitespace = char -> bool

  // ---------------------------------------------------------------- splitting and joining

  /** Split at every occurrence of a separator; the result is never empty. */
  function Split(s: string, sep: char): (parts: seq<string>)
    ensures |parts| > 0
    ensures forall p :: p in parts ==> sep !in p
  {
    if s == [] then [""]
    else if s[0] == sep then [""] + Split(s[1..], sep)
    else Prepend(s[0], Split(s[1..], sep))
  }

  function Join(parts: seq<string>, sep: char): string {
    if |parts| == 0 then ""
    else if |parts| == 1 then parts[0]
    else parts[0] + [sep] + Join(parts[1..], sep)
  }

  /** Put one character in front of the first part. */
  function Prepend(c: char, parts: seq<string>): seq<string>
    requires |parts| > 0
  {
    [[c] + parts[0]] + parts[1..]
  }

  lemma PrependConcat(c: char, x: seq<string>, y: seq<string>)
    requires |x| > 0
    ensures Prepend(c, x + y) == Prepend(c, x) + y
  {
    assert (x + y)[1..] == x[1..] + y;
  }

  lemma SplitCons(c: char, s: string, sep: char)
    ensures Split([c] + s, sep) == if c == sep then [""] + Split(s, sep) else Prepend(c, Split(s, sep))
  {
    assert ([c] + s)[1..] == s;
  }

  lemma {:induction false} SplitPlain(s: string, sep: char)
    requires sep !in s
    ensures Split(s, sep) == [s]
  {
    if s != [] {
      SplitPlain(s[1..], sep);
      assert [s[0]] + s[1..] == s;
    }
  }

  /** One more character in front changes the front of the split only. */
  lemma SplitInFront(c: char, s: string, t: string, rest: seq<string>, sep: char)
    requires Split(t, sep) == Split(s, sep) + rest
    ensures Split([c] + t, sep) == Split([c] + s, sep) + rest
  {
    SplitCons(c, t, sep);
    SplitCons(c, s, sep);
    if c == sep {
      ConcatThrice([""], Split(s, sep), rest);
    } else {
      PrependConcat(c, Split(s, sep), rest);
    }
  }

  /** A separator cuts the text into two independently split halves. */
  lemma {:induction false} SplitAt(a: string, sep: char, b: string)
    ensures Split(a + [sep] + b, sep) == Split(a, sep) + Split(b, sep)
  {
    if a == [] {
      SplitCons(sep, b, sep);
      assert a + [sep] + b == [sep] + b;
    } else {
      var t := a[1..] + [sep] + b;
      SplitAt(a[1..], sep, b);
      SplitInFront(a[0], a[1..], t, Split(b, sep), sep);
      assert a + [sep] + b == [a[0]] + t && a == [a[0]] + a[1..];
    }
  }

  /** Splitting undoes joining for separator-free parts. */
  lemma {:induction false} SplitJoin(parts: seq<string>, sep: char)
    requires |parts| > 0 && forall p :: p in parts ==> sep !in p
    ensures Split(Join(parts, sep), sep) == parts
  {
    SplitPlain(parts[0], sep);
    if |parts| > 1 {
      SplitJoin(parts[1..], sep);
      SplitAt(parts[0], sep, Join(parts[1..], sep));
      assert [parts[0]] + parts[1..] == parts;
    } else {
      assert parts == [parts[0]];
    }
  }

  /** Joining undoes splitting. */
  lemma {:induction false} JoinSplit(s: string, sep: char)
    ensures Join(Split(s, sep), sep) == s
  {
    if s != [] {
      JoinSplit(s[1..], sep);
      var rest := Split(s[1..], sep);
      if s[0] == sep {
        assert ([""] + rest)[1..] == rest;
      } else {
        assert Split(s, sep)[1..] == rest[1..];
      }
      assert [s[0]] + s[1..] == s;
    }
  }

  lemma {:induction false} JoinConcat(a: seq<string>, b: seq<string>, sep: char)
    requires |a| > 0 && |b| > 0
    ensures Join(a + b, sep) == Join(a, sep) + [sep] + Join(b, sep)
  {
    if |a| == 1 {
      assert (a + b)[1..] == b;
    } else {
      assert (a + b)[1..] == a[1..] + b;
      JoinConcat(a[1..], b, sep);
    }
  }

  /** Put one character at the end of the last part. */
  function Append(parts: seq<string>, c: char): seq<string>
    requires |parts| > 0
  {
    parts[..|parts| - 1] + [parts[|parts| - 1] + [c]]
  }

  lemma PrependAppend(b: char, parts: seq<string>, c: char)
    requires |parts| > 0
    ensures Prepend(b, Append(parts, c)) == Append(Prepend(b, parts), c)
  {
    if |parts| == 1 {
      assert [b] + (parts[0] + [c]) == ([b] + parts[0]) + [c];
    }
  }

  lemma SplitSnocInFront(b: char, s: string, sep: char, c: char)
    requires Split(s + [c], sep) == Append(Split(s, sep), c)
    ensures Split([b] + (s + [c]), sep) == Append(Split([b] + s, sep), c)
  {
    SplitCons(b, s + [c], sep);
    SplitCons(b, s, sep);
    if b == sep {
      EmptyAppend(Split(s, sep), c);
    } else {
      PrependAppend(b, Split(s, sep), c);
    }
  }

  lemma EmptyAppend(parts: seq<string>, c: char)
    requires |parts| > 0
    ensures [""] + Append(parts, c) == Append([""] + parts, c)
  {}

  /** How the last piece of a split grows when one more character arrives. */
  lemma {:induction false} SplitSnoc(s: string, sep: char, c: char)
    requires c != sep
    ensures Split(s + [c], sep) == Append(Split(s, sep), c)
  {
    if s == [] {
      SplitPlain([c], sep);
      assert [] + [c] == [c];
    } else {
      SplitSnoc(s[1..], sep, c);
      SplitSnocInFront(s[0], s[1..], sep, c);
      assert s + [c] == [s[0]] + (s[1..] + [c]) && s == [s[0]] + s[1..];
    }
  }

  /** The parts that satisfy a test, in order. */
  function Filter(parts: seq<string>, keep: string -> bool): seq<string> {
    if parts == [] then [] else (if keep(parts[0]) then [parts[0]] else []) + Filter(parts[1..], keep)
  }

  lemma LastApart<T>(s: seq<T>)
    requires s != []
    ensures s == s[..|s| - 1] + [s[|s| - 1]]
  {}

  lemma ConcatThrice<T>(x: seq<T>, y: seq<T>, z: seq<T>)
    ensures x + (y + z) == x + y + z
  {}

  lemma FilterCons(part: string, rest: seq<string>, keep: string -> bool)
    ensures Filter([part] + rest, keep) == (if keep(part) then [part] else []) + Filter(rest, keep)
  {
    assert ([part] + rest)[1..] == rest;
  }

  lemma {:induction false} FilterConcat(a: seq<string>, b: seq<string>, keep: string -> bool)
    ensures Filter(a + b, keep) == Filter(a, keep) + Filter(b, keep)
  {
    if a == [] {
      assert a + b == b;
    } else {
      FilterConcat(a[1..], b, keep);
      FilterCons(a[0], a[1..], keep);
      FilterCons(a[0], a[1..] + b, keep);
      ConcatThrice(if keep(a[0]) then [a[0]] else [], Filter(a[1..], keep), Filter(b, keep));
      assert a == [a[0]] + a[1..] && a + b == [a[0]] + (a[1..] + b);
    }
  }

  lemma FilterSnoc(parts: seq<string>, part: string, keep: string -> bool)
    ensures Filter(parts + [part], keep) == Filter(parts, keep) + if keep(part) then [part] else []
  {
    FilterConcat(parts, [part], keep);
    FilterOne(part, keep);
  }

  lemma FilterOne(part: string, keep: string -> bool)
    ensures Filter([part], keep) == if keep(part) then [part] else []
  {
    assert [part][1..] == [];
  }

  // ---------------------------------------------------------------- trimming

  function TrimStart(s: string, ws: Whitespace): (r: string)
    ensures r != [] ==> !ws(r[0])
    ensures |r| <= |s|
    ensures r == s[|s| - |r|..]
  {
    if s != [] && ws(s[0]) then TrimStart(s[1..], ws) else s
  }

  function TrimEnd(s: string, ws: Whitespace): (r: string)
    ensures r != [] ==> !ws(r[|r| - 1])
    ensures |r| <= |s|
    ensures r == s[..|r|]
  {
    if s != [] && ws(s[|s| - 1]) then TrimEnd(s[..|s| - 1], ws) else s
  }

  function Trim(s: string, ws: Whitespace): (r: string)
    ensures r != [] ==> !ws(r[0]) && !ws(r[|r| - 1])
    ensures |r| <= |s|
  {
    TrimEnd(TrimStart(s, ws), ws)
  }

  lemma TrimNothing(s: string, ws: Whitespace)
    ensures Trim(s, ws) == s <==> (s == [] || (!ws(s[0]) && !ws(s[|s| - 1])))
  {}

  lemma TrimDropsFront(s: string, ws: Whitespace, c: char)
    requires ws(c)
    ensures Trim([c] + s, ws) == Trim(s, ws)
  {
    assert ([c] + s)[1..] == s;
  }

  lemma {:induction false} TrimStartSnoc(s: string, ws: Whitespace, c: char)
    requires ws(c)
    ensures TrimStart(s + [c], ws) == if TrimStart(s, ws) == [] then [] else TrimStart(s, ws) + [c]
  {
    if s == [] {
      assert (s + [c])[1..] == [];
    } else {
      assert (s + [c])[0] == s[0] && (s + [c])[1..] == s[1..] + [c];
      if ws(s[0]) {
        TrimStartSnoc(s[1..], ws, c);
        assert TrimStart(s + [c], ws) == TrimStart(s[1..] + [c], ws);
      } else {
        assert TrimStart(s, ws) == s;
      }
    }
  }

  lemma TrimDropsBack(s: string, ws: Whitespace, c: char)
    requires ws(c)
    ensures Trim(s + [c], ws) == Trim(s, ws)
  {
    TrimStartSnoc(s, ws, c);
    var t := TrimStart(s, ws);
    assert (t + [c])[..|t|] == t;
  }

  /** Trimming some whitespace first makes no difference to trimming more. */
  lemma TrimTwice(s: string, v: Whitespace, w: Whitespace)
    requires forall c :: v(c) ==> w(c)
    ensures Trim(Trim(s, v), w) == Trim(s, w)
  {
    TrimAfterStart(s, v, w);
    TrimAfterEnd(TrimStart(s, v), v, w);
  }

  lemma FrontGone(s: string, ws: Whitespace)
    requires s != [] && ws(s[0])
    ensures Trim(s, ws) == Trim(s[1..], ws)
  {}

  lemma BackGone(s: string, ws: Whitespace)
    requires s != [] && ws(s[|s| - 1])
    ensures Trim(s, ws) == Trim(s[..|s| - 1], ws)
  {
    TrimDropsBack(s[..|s| - 1], ws, s[|s| - 1]);
    assert s == s[..|s| - 1] + [s[|s| - 1]];
  }

  lemma {:induction false} TrimAfterStart(s: string, v: Whitespace, w: Whitespace)
    requires forall c :: v(c) ==> w(c)
    ensures Trim(TrimStart(s, v), w) == Trim(s, w)
  {
    if s != [] && v(s[0]) {
      TrimAfterStart(s[1..], v, w);
      FrontGone(s, w);
      assert TrimStart(s, v) == TrimStart(s[1..], v);
    }
  }

  lemma {:induction false} TrimAfterEnd(s: string, v: Whitespace, w: Whitespace)
    requires forall c :: v(c) ==> w(c)
    ensures Trim(TrimEnd(s, v), w) == Trim(s, w)
  {
    if s != [] && v(s[|s| - 1]) {
      TrimAfterEnd(s[..|s| - 1], v, w);
      BackGone(s, w);
      assert TrimEnd(s, v) == TrimEnd(s[..|s| - 1], v);
    }
  }

  // ---------------------------------------------------------------- tokens

  function WordLength(s: string, ws: Whitespace): (n: nat)
    ensures n <= |s|
    ensures s != [] && !ws(s[0]) ==> n > 0
  {
    if s == [] || ws(s[0]) then 0 else 1 + WordLength(s[1..], ws)
  }

  /** Python's str.split() with no argument: maximal runs of non-whitespace. */
  function Tokens(s: string, ws: Whitespace): (words: seq<string>)
    ensures forall w :: w in words ==> w != []
    decreases |s|
  {
    if s == [] then []
    else if ws(s[0]) then Tokens(s[1..], ws)
    else var n := WordLength(s, ws); [s[..n]] + Tokens(s[n..], ws)
  }

  predicate Plain(s: string, ws: Whitespace) {
    forall c :: c in s ==> !ws(c)
  }

  lemma {:induction false} WordLengthOfWord(w: string, rest: string, ws: Whitespace)
    requires Plain(w, ws) && (rest == [] || ws(rest[0]))
    ensures WordLength(w + rest, ws) == |w|
  {
    if w == [] {
      assert w + rest == rest;
    } else {
      assert (w + rest)[1..] == w[1..] + rest;
      assert forall c :: c in w[1..] ==> c in w;
      WordLengthOfWord(w[1..], rest, ws);
    }
  }

  /** Tokenizing undoes joining words by one space. */
  lemma {:induction false} TokensOfWords(words: seq<string>, ws: Whitespace)
    requires ws(' ')
    requires forall w :: w in words ==> w != [] && Plain(w, ws)
    ensures Tokens(Join(words, ' '), ws) == words
  {
    if |words| == 1 {
      var w := words[0];
      WordLengthOfWord(w, [], ws);
      assert w + [] == w;
      assert Tokens(w, ws) == [w[..|w|]] + Tokens(w[|w|..], ws);
      assert words == [w];
    } else if |words| > 1 {
      var w, rest := words[0], Join(words[1..], ' ');
      assert forall v :: v in words[1..] ==> v in words;
      TokensOfWords(words[1..], ws);
      var s := w + [' '] + rest;
      assert s == w + ([' '] + rest);
      WordLengthOfWord(w, [' '] + rest, ws);
      assert s[|w|..] == [' '] + rest && s[..|w|] == w;
      assert ([' '] + rest)[1..] == rest;
      assert Tokens(s, ws) == [w] + Tokens([' '] + rest, ws);
      assert [w] + words[1..] == words;
    }
  }

  // ---------------------------------------------------------------- case and whitespace sets

  function LowerChar(c: char): char {
    if 'A' <= c <= 'Z' then ((c as int) + 32) as char else c
  }

  /** ASCII lower-casing. */
  function Lower(s: string): string {
    seq(|s|, i requires 0 <= i < |s| => LowerChar(s[i]))
  }

  /** Unicode White_Space, as Rust's char::is_whitespace. */
  predicate RustSpace(c: char) {
    '\t' <= c <= '\r' || c == ' ' || c == '\U{0085}' || c == '\U{00A0}' || c == '\U{1680}'
    || '\U{2000}' <= c <= '\U{200A}' || c == '\U{2028}' || c == '\U{2029}' || c == '\U{202F}'
    || c == '\U{205F}' || c == '\U{3000}'
  }

  /** Python's str.isspace: the same set plus the four information separators. */
  predicate PythonSpace(c: char) {
    RustSpace(c) || '\U{001C}' <= c <= '\U{001F}'
  }
}
