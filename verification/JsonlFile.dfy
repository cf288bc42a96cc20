/**
  The JSONL audit file as text. Appenders hold the file's lock, one at a time; each may die, or meet a full
  disk, after any number of characters of its line. Reading raises on a line that is not one JSON object.
*/
module JsonlFile {
  import opened Prelude
  import opened Text
  import opened AuditChain

  /** json.dumps of an event, and json.loads of a line (None where it raises). */
  datatype Codec = Codec(encode: Event -> string, decode: string -> Option<Event>)

  /** Something on the line. */
  const NON_BLANK: string -> bool := line => HasText(line, PythonSpace)

  predicate HasText(line: string, ws: Whitespace) {
    exists i :: 0 <= i < |line| && !ws(line[i])
  }

  /** An event's JSON is one line that starts with its brace and reads back as the event. */
  ghost predicate Encodes(j: Codec, e: Event) {
    && j.encode(e) != "" && !PythonSpace(j.encode(e)[0]) && '\n' !in j.encode(e)
    && j.decode(j.encode(e)) == Some(e)
  }

  /** A JSON object cut short is no JSON. */
  ghost predicate CutFails(j: Codec, e: Event, k: nat) {
    0 < k < |j.encode(e)| ==> j.decode(j.encode(e)[..k]) == None
  }

  /** Nor is one with the beginning of another, or all of it, on the same line. */
  ghost predicate JoinFails(j: Codec, e: Event, f: Event, k: nat) {
    0 < k <= |j.encode(f)| ==> j.decode(j.encode(e) + j.encode(f)[..k]) == None
  }

  /** What JSON gives; JsonlWitness shows that it can be had. */
  ghost predicate Lawful(j: Codec) {
    && (forall e :: Encodes(j, e))
    && (forall e, k: nat :: CutFails(j, e, k))
    && (forall e, f, k: nat :: JoinFails(j, e, f, k))
  }

  // ---------------------------------------------------------------- reading

  type Reading = Option<seq<Event>>

  function DecodeAll(j: Codec, lines: seq<string>): Option<seq<Event>> {
    if lines == [] then Some([])
    else match j.decode(lines[0])
      case None => None
      case Some(e) => Before([e], DecodeAll(j, lines[1..]))
  }

  function Before(front: seq<Event>, rest: Option<seq<Event>>): Option<seq<Event>> {
    match rest
    case None => None
    case Some(events) => Some(front + events)
  }

  /** read_events: every line that is not blank, or None where a line raises. */
  function Read(j: Codec, file: string): Option<seq<Event>> {
    DecodeAll(j, Filter(Split(file, '\n'), NON_BLANK))
  }

  /** Events on lines of their own, each line ended. */
  function Render(j: Codec, events: seq<Event>): string {
    if events == [] then "" else j.encode(events[0]) + ['\n'] + Render(j, events[1..])
  }

  lemma NonBlankLine(line: string)
    requires line != "" && !PythonSpace(line[0])
    ensures NON_BLANK(line)
  {}

  lemma BeforeBefore(a: seq<Event>, b: seq<Event>, rest: Option<seq<Event>>)
    ensures Before(a, Before(b, rest)) == Before(a + b, rest)
  {
    if rest.Some? {
      assert a + (b + rest.value) == a + b + rest.value;
    }
  }

  /** One rendered event in front of any text. */
  lemma ReadFirst(j: Codec, e: Event, text: string)
    requires Lawful(j)
    ensures Read(j, j.encode(e) + ['\n'] + text) == Before([e], Read(j, text))
  {
    var line := j.encode(e);
    assert Encodes(j, e);
    SplitAt(line, '\n', text);
    SplitPlain(line, '\n');
    NonBlankLine(line);
    FilterCons(line, Split(text, '\n'), NON_BLANK);
    var rest := Filter(Split(text, '\n'), NON_BLANK);
    assert ([line] + rest)[1..] == rest;
  }

  /** What stands behind rendered events reads as if alone. */
  lemma {:induction false} ReadBehind(j: Codec, events: seq<Event>, text: string)
    requires Lawful(j)
    ensures Read(j, Render(j, events) + text) == Before(events, Read(j, text))
  {
    if events == [] {
      assert Render(j, events) + text == text;
      BeforeNothing(Read(j, text));
    } else {
      var e, rest := events[0], events[1..];
      ReadBehind(j, rest, text);
      ReadFirst(j, e, Render(j, rest) + text);
      assert Render(j, events) + text == j.encode(e) + ['\n'] + (Render(j, rest) + text);
      BeforeBefore([e], rest, Read(j, text));
      assert [e] + rest == events;
    }
  }

  lemma BeforeNothing(rest: Option<seq<Event>>)
    ensures Before([], rest) == rest
  {
    if rest.Some? {
      assert [] + rest.value == rest.value;
    }
  }

  lemma ReadEmpty(j: Codec)
    ensures Read(j, "") == Some([])
  {
    SplitPlain("", '\n');
    FilterOne("", NON_BLANK);
  }

  lemma DecodeOne(j: Codec, line: string)
    ensures DecodeAll(j, [line]) == match j.decode(line) case None => None case Some(e) => Some([e])
  {
    assert [line][1..] == [];
    match j.decode(line)
    case None =>
    case Some(e) => assert DecodeAll(j, []) == Some([]) && [e] + [] == [e];
  }

  /** A single line, ended or not. */
  lemma ReadLine(j: Codec, line: string)
    requires line != "" && !PythonSpace(line[0]) && '\n' !in line
    ensures Read(j, line) == match j.decode(line) case None => None case Some(e) => Some([e])
    ensures Read(j, line + ['\n']) == Read(j, line)
  {
    NonBlankLine(line);
    SplitPlain(line, '\n');
    SplitPlain("", '\n');
    SplitAt(line, '\n', "");
    assert line + ['\n'] + "" == line + ['\n'];
    FilterOne(line, NON_BLANK);
    FilterOne("", NON_BLANK);
    FilterCons(line, [""], NON_BLANK);
    assert [line] + [] == [line];
    DecodeOne(j, line);
  }

  lemma RenderSnoc(j: Codec, events: seq<Event>, e: Event)
    ensures Render(j, events + [e]) == Render(j, events) + j.encode(e) + ['\n']
  {
    if events == [] {
      assert events + [e] == [e];
    } else {
      RenderSnoc(j, events[1..], e);
      assert (events + [e])[1..] == events[1..] + [e];
    }
  }

  // ---------------------------------------------------------------- writing

  /** One append: the event, and how many characters of its line reach the file. */
  datatype Write = Write(event: Event, length: nat)

  /** The line an append means to write; None when reading the last hash raises. */
  function Line(j: Codec, h: Hash, file: string, event: Event): Option<string> {
    match Read(j, file)
    case None => None
    case Some(events) => Some(j.encode(Chained(h, events, event)) + ['\n'])
  }

  function FirstOf(line: string, n: nat): string {
    if n < |line| then line[..n] else line
  }

  function Written(j: Codec, h: Hash, file: string, w: Write): string {
    match Line(j, h, file, w.event)
    case None => file
    case Some(line) => file + FirstOf(line, w.length)
  }

  predicate Ended(file: string) {
    file == "" || file[|file| - 1] == '\n'
  }

  /** The append leaves a line that cannot be read: it was cut inside its JSON, or the line before had no end. */
  predicate Tears(j: Codec, h: Hash, file: string, w: Write) {
    match Line(j, h, file, w.event)
    case None => false
    case Some(line) => 0 < w.length && (w.length < |line| - 1 || !Ended(file))
  }

  class JsonlLog {
    const j: Codec
    const h: Hash
    var file: string

    constructor (j: Codec, h: Hash)
      ensures this.j == j && this.h == h && file == ""
    {
      this.j, this.h, file := j, h, "";
    }

    /** Read the file to its end and keep the last line's hash; None where a line raises. */
    method LastHashFromHandle() returns (last: Option<Option<string>>)
      ensures last == match Read(j, file) case None => None case Some(events) => Some(LastHash(events))
    {
      var lines := Filter(Split(file, '\n'), NON_BLANK);
      var hash: Option<string> := None;
      ghost var read: seq<Event> := [];
      BeforeNothing(DecodeAll(j, lines));
      for i := 0 to |lines|
        invariant hash == LastHash(read)
        invariant DecodeAll(j, lines) == Before(read, DecodeAll(j, lines[i..]))
      {
        var decoded := j.decode(lines[i]);
        assert lines[i..][0] == lines[i] && lines[i..][1..] == lines[i + 1..];
        if decoded.None? { return None; }
        BeforeBefore(read, [decoded.value], DecodeAll(j, lines[i + 1..]));
        read := read + [decoded.value];
        hash := decoded.value.hash;
      }
      assert lines[|lines|..] == [];
      assert read + [] == read;
      return Some(hash);
    }

    /** One append under the lock; false when reading raised or the line was not written whole. */
    method WriteEvent(event: Event, length: nat) returns (whole: bool)
      requires Lawful(j)
      modifies this
      ensures file == Written(j, h, old(file), Write(event, length))
      ensures whole <==> Line(j, h, old(file), event).Some? && length >= |Line(j, h, old(file), event).value|
      ensures whole && Ended(old(file)) && Healthy(j, h, old(file)) ==>
                Read(j, file) == Some(Read(j, old(file)).value + [Chained(h, Read(j, old(file)).value, event)])
      ensures Healthy(j, h, old(file)) ==> (Healthy(j, h, file) <==> !Tears(j, h, old(file), Write(event, length)))
    {
      WriteKeeps(j, h, file, Write(event, length));
      var last := LastHashFromHandle();
      if last.None? { return false; }
      var bound := event.(prev := last.value);
      bound := bound.(hash := Some(h(HashInput(bound))));
      var line := j.encode(bound) + ['\n'];
      file := file + FirstOf(line, length);
      whole := length >= |line|;
    }
  }

  // ---------------------------------------------------------------- what every append keeps

  /** These events and nothing else, the last line ended or not. */
  predicate Holds(j: Codec, file: string, events: seq<Event>) {
    || file == Render(j, events)
    || (events != [] && file == Render(j, events[..|events| - 1]) + j.encode(events[|events| - 1]))
  }

  /** The file reads, verifies, and holds exactly what it reads. */
  ghost predicate Healthy(j: Codec, h: Hash, file: string) {
    Read(j, file).Some? && Holds(j, file, Read(j, file).value) && Verifies(h, Read(j, file).value)
  }

  /** Both shapes read as their events, and only the first ends its last line. */
  lemma HeldReads(j: Codec, file: string, events: seq<Event>)
    requires Lawful(j) && Holds(j, file, events)
    ensures Read(j, file) == Some(events)
    ensures Ended(file) <==> file == Render(j, events)
  {
    if file == Render(j, events) {
      ReadBehind(j, events, "");
      ReadEmpty(j);
      assert Render(j, events) + "" == file && events + [] == events;
      RenderEnded(j, events);
    } else {
      var n := |events| - 1;
      var line := j.encode(events[n]);
      assert Encodes(j, events[n]);
      ReadBehind(j, events[..n], line);
      ReadLine(j, line);
      assert [] + [events[n]] == [events[n]] && events[..n] + [events[n]] == events;
      assert file[|file| - 1] == line[|line| - 1];
    }
  }

  lemma RenderEnded(j: Codec, events: seq<Event>)
    ensures Ended(Render(j, events))
  {
    if events != [] {
      var n := |events| - 1;
      assert events == events[..n] + [events[n]];
      RenderSnoc(j, events[..n], events[n]);
    }
  }

  /** Appending to a file whose last line is ended. */
  lemma AppendsToEnded(j: Codec, events: seq<Event>, e: Event, n: nat)
    requires Lawful(j)
    ensures var file := Render(j, events) + FirstOf(j.encode(e) + ['\n'], n);
            if n == 0 then file == Render(j, events)
            else if n < |j.encode(e)| then Read(j, file) == None
            else Holds(j, file, events + [e])
  {
    var line := j.encode(e);
    assert Encodes(j, e);
    if n == 0 {
      assert Render(j, events) + "" == Render(j, events);
    } else if n < |line| {
      var part := line[..n];
      assert CutFails(j, e, n);
      assert (line + ['\n'])[..n] == part;
      ReadLine(j, part);
      ReadBehind(j, events, part);
    } else {
      assert (events + [e])[..|events|] == events && (events + [e])[|events|] == e;
      RenderSnoc(j, events, e);
      if n == |line| {
        assert (line + ['\n'])[..n] == line;
      } else {
        assert Render(j, events) + (line + ['\n']) == Render(j, events) + line + ['\n'];
      }
    }
  }

  /** Appending anything to a file whose last line has no end spoils that line. */
  lemma AppendsToOpen(j: Codec, init: seq<Event>, last: Event, e: Event, n: nat)
    requires Lawful(j) && n > 0
    ensures Read(j, Render(j, init) + j.encode(last) + FirstOf(j.encode(e) + ['\n'], n)) == None
  {
    var line, more := j.encode(last), j.encode(e);
    assert Encodes(j, last) && Encodes(j, e);
    var k := if n < |more| then n else |more|;
    var joined := line + more[..k];
    assert JoinFails(j, last, e, k);
    ReadLine(j, joined);
    var text := line + FirstOf(more + ['\n'], n);
    if n <= |more| {
      assert (more + ['\n'])[..n] == more[..n] && text == joined;
    } else {
      assert more[..|more|] == more && text == joined + ['\n'];
    }
    ReadBehind(j, init, text);
    assert Render(j, init) + line + FirstOf(more + ['\n'], n) == Render(j, init) + text;
  }

  /**
    An append that does not tear keeps the file healthy, with at most its own event more; one that tears makes it
    unreadable.
  */
  lemma WriteKeeps(j: Codec, h: Hash, file: string, w: Write)
    requires Lawful(j)
    ensures Healthy(j, h, file) ==>
              var events, e, file' := Read(j, file).value, Chained(h, Read(j, file).value, w.event),
                  Written(j, h, file, w);
              if Tears(j, h, file, w) then Read(j, file') == None
              else Healthy(j, h, file')
                   && Read(j, file') == Some(if w.length < |j.encode(e)| then events else events + [e])
  {
    if Healthy(j, h, file) {
      var events := Read(j, file).value;
      var e := Chained(h, events, w.event);
      HeldReads(j, file, events);
      if Ended(file) {
        AppendsToEnded(j, events, e, w.length);
        VerifiesSnoc(h, events, e);
        if w.length >= |j.encode(e)| {
          assert Encodes(j, e);
          HeldReads(j, Written(j, h, file, w), events + [e]);
        }
      } else {
        var n := |events| - 1;
        assert Encodes(j, e);
        if w.length > 0 {
          AppendsToOpen(j, events[..n], events[n], e, w.length);
        } else {
          assert file + "" == file;
        }
      }
    }
  }

  // ---------------------------------------------------------------- whole runs

  predicate IsRun(j: Codec, h: Hash, files: seq<string>, writes: seq<Write>) {
    && |files| == |writes| + 1 && files[0] == ""
    && forall i :: 0 <= i < |writes| ==> files[i + 1] == Written(j, h, files[i], writes[i])
  }

  /** One append to a file that is healthy or does not read. */
  lemma StepReads(j: Codec, h: Hash, file: string, w: Write)
    requires Lawful(j) && (Read(j, file).Some? ==> Healthy(j, h, file))
    ensures var file' := Written(j, h, file, w);
            && (Read(j, file').Some? <==> Read(j, file).Some? && !Tears(j, h, file, w))
            && (Read(j, file').Some? ==> Healthy(j, h, file'))
  {
    WriteKeeps(j, h, file, w);
  }

  predicate TearsAt(j: Codec, h: Hash, files: seq<string>, writes: seq<Write>, i: nat)
    requires |files| == |writes| + 1 && i < |writes|
  {
    Tears(j, h, files[i], writes[i])
  }

  /** Append i of a run. */
  lemma RunStep(j: Codec, h: Hash, files: seq<string>, writes: seq<Write>, i: nat)
    requires Lawful(j) && IsRun(j, h, files, writes) && i < |writes|
    requires Read(j, files[i]).Some? ==> Healthy(j, h, files[i])
    ensures Read(j, files[i + 1]).Some? <==> Read(j, files[i]).Some? && !TearsAt(j, h, files, writes, i)
    ensures Read(j, files[i + 1]).Some? ==> Healthy(j, h, files[i + 1])
    ensures Read(j, files[i + 1]).Some? ==> Read(j, files[i]).value <= Read(j, files[i + 1]).value
  {
    StepReads(j, h, files[i], writes[i]);
    WriteKeeps(j, h, files[i], writes[i]);
  }

  lemma {:induction false} HealthyWhileReads(j: Codec, h: Hash, files: seq<string>, writes: seq<Write>, n: nat)
    requires Lawful(j) && IsRun(j, h, files, writes) && n <= |writes|
    ensures Read(j, files[n]).Some? ==> Healthy(j, h, files[n])
  {
    if n == 0 {
      StartsHealthy(j, h);
    } else {
      HealthyWhileReads(j, h, files, writes, n - 1);
      RunStep(j, h, files, writes, n - 1);
    }
  }

  /** What ends with the first of some events has not ended while none has come. */
  lemma {:induction false} Until(lasts: seq<bool>, ends: seq<bool>, n: nat)
    requires |lasts| == |ends| + 1 && lasts[0] && n <= |ends|
    requires forall i :: 0 <= i < |ends| ==> (lasts[i + 1] <==> lasts[i] && !ends[i])
    ensures lasts[n] <==> forall i :: 0 <= i < n ==> !ends[i]
  {
    if n > 0 {
      Until(lasts, ends, n - 1);
      assert lasts[n - 1 + 1] <==> lasts[n - 1] && !ends[n - 1];
    }
  }

  /** Any appends, cut anywhere: the file reads exactly as long as none tore it, and whenever it reads it verifies. */
  lemma ReadsExactly(j: Codec, h: Hash, files: seq<string>, writes: seq<Write>, n: nat)
    requires Lawful(j) && IsRun(j, h, files, writes) && n <= |writes|
    ensures Read(j, files[n]).Some? <==> forall i :: 0 <= i < n ==> !TearsAt(j, h, files, writes, i)
    ensures Read(j, files[n]).Some? ==> Healthy(j, h, files[n])
  {
    var lasts := seq(|files|, i requires 0 <= i < |files| => Read(j, files[i]).Some?);
    var ends := seq(|writes|, i requires 0 <= i < |writes| => TearsAt(j, h, files, writes, i));
    forall i | 0 <= i < |ends| ensures lasts[i + 1] <==> lasts[i] && !ends[i] {
      HealthyWhileReads(j, h, files, writes, i);
      RunStep(j, h, files, writes, i);
    }
    StartsHealthy(j, h);
    Until(lasts, ends, n);
    assert forall i :: 0 <= i < n ==> ends[i] == TearsAt(j, h, files, writes, i);
    HealthyWhileReads(j, h, files, writes, n);
  }

  lemma StartsHealthy(j: Codec, h: Hash)
    ensures Healthy(j, h, "")
  {
    ReadEmpty(j);
  }

  /** A torn file is never written again: every later append raises before it writes. */
  lemma {:induction false} TornStays(j: Codec, h: Hash, files: seq<string>, writes: seq<Write>, m: nat, n: nat)
    requires IsRun(j, h, files, writes) && m <= n <= |writes| && Read(j, files[m]) == None
    ensures files[n] == files[m]
  {
    if m < n {
      TornStays(j, h, files, writes, m, n - 1);
      assert files[n - 1 + 1] == Written(j, h, files[n - 1], writes[n - 1]);
    }
  }

  lemma {:induction false} PrefixChain(found: seq<Reading>, m: nat, n: nat)
    requires m <= n < |found| && found[n].Some?
    requires forall i :: 0 <= i < |found| - 1 && found[i + 1].Some? ==>
               found[i].Some? && found[i].value <= found[i + 1].value
    ensures found[m].Some? && found[m].value <= found[n].value
  {
    if m < n {
      assert found[n - 1 + 1].Some?;
      PrefixChain(found, m, n - 1);
    }
  }

  /** While the file reads, its events only grow. */
  lemma EventsGrow(j: Codec, h: Hash, files: seq<string>, writes: seq<Write>, m: nat, n: nat)
    requires Lawful(j) && IsRun(j, h, files, writes) && m <= n <= |writes| && Read(j, files[n]).Some?
    ensures Read(j, files[m]).Some? && Read(j, files[m]).value <= Read(j, files[n]).value
  {
    var found := seq(|files|, i requires 0 <= i < |files| => Read(j, files[i]));
    forall i | 0 <= i < |found| - 1 && found[i + 1].Some?
      ensures found[i].Some? && found[i].value <= found[i + 1].value
    {
      HealthyWhileReads(j, h, files, writes, i);
      RunStep(j, h, files, writes, i);
    }
    PrefixChain(found, m, n);
  }

  /** A lost line end alone is harmless until the next append, which spoils both events. */
  lemma LostEndSpoilsNext(j: Codec, h: Hash, file: string, event: Event, next: Event)
    requires Lawful(j) && Healthy(j, h, file) && Ended(file)
    ensures var e := Chained(h, Read(j, file).value, event);
            var open := Written(j, h, file, Write(event, |j.encode(e)|));
            && Read(j, open) == Some(Read(j, file).value + [e])
            && forall n: nat :: n > 0 ==> Read(j, Written(j, h, open, Write(next, n))) == None
  {
    var events := Read(j, file).value;
    var e := Chained(h, events, event);
    assert Encodes(j, e);
    var w := Write(event, |j.encode(e)|);
    WriteKeeps(j, h, file, w);
    var open := Written(j, h, file, w);
    assert open[|open| - 1] == j.encode(e)[|j.encode(e)| - 1];
    forall n: nat | n > 0 ensures Read(j, Written(j, h, open, Write(next, n))) == None {
      WriteKeeps(j, h, open, Write(next, n));
    }
  }
}
