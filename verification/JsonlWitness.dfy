/** A codec that meets the laws of JsonlFile: each field escaped to its own end, so that no line begins another. */
module JsonlWitness {
  import opened Prelude
  import opened Text
  import opened AuditChain
  import opened JsonlFile

  /** Two characters for each one, none of them a line feed, and an end mark. */
  function Escape(s: string): string {
    if s == "" then "e" else Pair(s[0]) + Escape(s[1..])
  }

  function Pair(c: char): string {
    if c == '\n' then ['n', 'n'] else ['c', c]
  }

  /** The text escaped at the front, and what stands behind it. */
  function Unescape(s: string): (r: Option<(string, string)>)
    ensures r.Some? ==> |r.value.1| < |s|
    decreases |s|
  {
    if s == "" then None
    else if s[0] == 'e' then Some(("", s[1..]))
    else if |s| < 2 then None
    else
      match Unescape(s[2..])
      case None => None
      case Some((text, rest)) => Some(([if s[0] == 'n' then '\n' else s[1]] + text, rest))
  }

  lemma UnescapePair(c: char, s: string, text: string, rest: string)
    requires Unescape(s) == Some((text, rest))
    ensures Unescape(Pair(c) + s) == Some(([c] + text, rest))
  {
    assert (Pair(c) + s)[2..] == s;
  }

  lemma UnescapeEnd(rest: string)
    ensures Unescape("e" + rest) == Some(("", rest))
  {
    assert ("e" + rest)[1..] == rest;
  }

  lemma {:induction false} UnescapeUndoes(s: string, rest: string)
    ensures Unescape(Escape(s) + rest) == Some((s, rest))
  {
    if s == "" {
      UnescapeEnd(rest);
    } else {
      UnescapeUndoes(s[1..], rest);
      UnescapePair(s[0], Escape(s[1..]) + rest, s[1..], rest);
      assert Escape(s) + rest == Pair(s[0]) + (Escape(s[1..]) + rest);
      assert [s[0]] + s[1..] == s;
    }
  }

  lemma {:induction false} EscapePlain(s: string)
    ensures '\n' !in Escape(s) && Escape(s) != "" && Escape(s)[0] in "enc"
  {
    if s != "" {
      EscapePlain(s[1..]);
    }
  }

  /** An optional text as a text. */
  function Marked(o: Option<string>): string {
    match o
    case None => ""
    case Some(s) => "s" + s
  }

  function Unmarked(s: string): Option<string> {
    if s == "" then None else Some(s[1..])
  }

  function FieldsOf(e: Event): seq<string> {
    [e.schema, e.packageVersion, e.eventId, e.body, Marked(e.prev), Marked(e.hash)]
  }

  function EscapeAll(fields: seq<string>): string {
    if fields == [] then "" else Escape(fields[0]) + EscapeAll(fields[1..])
  }

  /** The first n fields of a line and the rest. */
  function UnescapeAll(s: string, n: nat): Option<(seq<string>, string)>
    decreases n
  {
    if n == 0 then Some(([], s))
    else
      match Unescape(s)
      case None => None
      case Some((field, rest)) =>
        match UnescapeAll(rest, n - 1)
        case None => None
        case Some((fields, end)) => Some(([field] + fields, end))
  }

  lemma UnescapeFirst(field: string, more: string, fields: seq<string>, rest: string)
    requires UnescapeAll(more, |fields|) == Some((fields, rest))
    ensures UnescapeAll(Escape(field) + more, |fields| + 1) == Some(([field] + fields, rest))
  {
    UnescapeUndoes(field, more);
  }

  lemma EscapeAllFirst(fields: seq<string>, rest: string)
    requires fields != []
    ensures EscapeAll(fields) + rest == Escape(fields[0]) + (EscapeAll(fields[1..]) + rest)
    ensures [fields[0]] + fields[1..] == fields
  {
    ConcatThrice(Escape(fields[0]), EscapeAll(fields[1..]), rest);
  }

  lemma {:induction false} UnescapeAllUndoes(fields: seq<string>, rest: string)
    ensures UnescapeAll(EscapeAll(fields) + rest, |fields|) == Some((fields, rest))
  {
    if fields == [] {
      assert EscapeAll(fields) + rest == rest;
    } else {
      var tail := fields[1..];
      UnescapeAllUndoes(tail, rest);
      UnescapeFirst(fields[0], EscapeAll(tail) + rest, tail, rest);
      EscapeAllFirst(fields, rest);
    }
  }

  lemma {:induction false} EscapeAllPlain(fields: seq<string>)
    ensures '\n' !in EscapeAll(fields)
    ensures fields != [] ==> EscapeAll(fields) != "" && EscapeAll(fields)[0] in "enc"
  {
    if fields != [] {
      EscapePlain(fields[0]);
      EscapeAllPlain(fields[1..]);
    }
  }

  function Encode(e: Event): string {
    EscapeAll(FieldsOf(e))
  }

  function EventOf(fields: seq<string>): Event
    requires |fields| == 6
  {
    Event(fields[0], fields[1], fields[2], fields[3], Unmarked(fields[4]), Unmarked(fields[5]))
  }

  function Decode(line: string): Option<Event> {
    match UnescapeAll(line, 6)
    case None => None
    case Some((fields, _)) =>
      if |fields| == 6 && Encode(EventOf(fields)) == line then Some(EventOf(fields)) else None
  }

  lemma MarkedUndone(o: Option<string>)
    ensures Unmarked(Marked(o)) == o
  {
    if o.Some? {
      assert ("s" + o.value)[1..] == o.value;
    }
  }

  lemma FieldsUndone(e: Event)
    ensures EventOf(FieldsOf(e)) == e
  {
    MarkedUndone(e.prev);
    MarkedUndone(e.hash);
  }

  /** No event's line begins another's. */
  lemma NoneBegins(e: Event, f: Event, rest: string)
    requires Encode(e) + rest == Encode(f)
    ensures e == f && rest == ""
  {
    UnescapeAllUndoes(FieldsOf(e), rest);
    UnescapeAllUndoes(FieldsOf(f), "");
    assert Encode(f) + "" == Encode(f);
    FieldsUndone(e);
    FieldsUndone(f);
  }

  lemma DecodeUndoes(e: Event)
    ensures Decode(Encode(e)) == Some(e)
  {
    UnescapeAllUndoes(FieldsOf(e), "");
    assert Encode(e) + "" == Encode(e);
    FieldsUndone(e);
  }

  lemma DecodesOnly(line: string)
    ensures Decode(line).Some? ==> Encode(Decode(line).value) == line
  {}

  const WITNESS: Codec := Codec(Encode, Decode)

  /** The laws can be met. */
  lemma WitnessIsLawful()
    ensures Lawful(WITNESS)
  {
    forall e ensures Encodes(WITNESS, e) {
      DecodeUndoes(e);
      EscapeAllPlain(FieldsOf(e));
    }
    forall e, k: nat ensures CutFails(WITNESS, e, k) {
      CutsFail(e, k);
    }
    forall e, f, k: nat ensures JoinFails(WITNESS, e, f, k) {
      JoinsFail(e, f, k);
    }
  }

  lemma CutsFail(e: Event, k: nat)
    ensures CutFails(WITNESS, e, k)
  {
    if 0 < k < |Encode(e)| && Decode(Encode(e)[..k]).Some? {
      var f := Decode(Encode(e)[..k]).value;
      DecodesOnly(Encode(e)[..k]);
      assert Encode(f) + Encode(e)[k..] == Encode(e);
      NoneBegins(f, e, Encode(e)[k..]);
    }
  }

  lemma JoinsFail(e: Event, f: Event, k: nat)
    ensures JoinFails(WITNESS, e, f, k)
  {
    if 0 < k <= |Encode(f)| {
      var rest := Encode(f)[..k];
      if Decode(Encode(e) + rest).Some? {
        DecodesOnly(Encode(e) + rest);
        NoneBegins(e, Decode(Encode(e) + rest).value, rest);
      }
    }
  }
}
