/** Reading and writing whole INI files: the growing line buffer, the parser's loop with its value
    handler, the writer, and the exact round trip between them. */
module IniFile {
  import opened Wire
  import opened IniLexer

  const INITIAL_ALLOC: nat := 200
  const MAX_LINE: nat := 2000

  // ----- reading a line -----

  /** The bytes fgets takes from the stream for a buffer of `num` bytes. */
  function Fgets(stream: bytes, num: nat): (n: nat)
    ensures n <= |stream| && (num >= 1 ==> n <= num - 1)
    ensures stream != [] && num >= 2 ==> n >= 1
  {
    if stream == [] || num <= 1 then 0
    else if stream[0] == NEWLINE then 1
    else 1 + Fgets(stream[1..], num - 1)
  }

  /** A buffer as a C string. */
  function CStr(b: bytes): (s: bytes)
    ensures s <= b && NUL !in s
    ensures NUL !in b ==> s == b
  {
    if b == [] || b[0] == NUL then [] else [b[0]] + CStr(b[1..])
  }

  datatype Read = Read(line: bytes, rest: bytes, maxLine: nat)

  /** The inner loop that enlarges the buffer while the line is not complete. */
  function Grow(line: bytes, stream: bytes, maxLine: nat): (r: Read)
    requires INITIAL_ALLOC <= maxLine <= MAX_LINE && |line| < maxLine
    ensures |r.rest| <= |stream| && |r.line| < MAX_LINE
    ensures INITIAL_ALLOC <= r.maxLine <= MAX_LINE
    decreases MAX_LINE - maxLine
  {
    if |line| != maxLine - 1 || line[|line| - 1] == NEWLINE then Read(line, stream, maxLine)
    else
      var larger := if 2 * maxLine > MAX_LINE then MAX_LINE else 2 * maxLine;
      if stream == [] then Read(line, stream, larger)
      else
        var n := Fgets(stream, larger - |line|);
        var longer := line + CStr(stream[..n]);
        if larger >= MAX_LINE then Read(longer, stream[n..], larger)
        else Grow(longer, stream[n..], larger)
  }

  function ReadLine(stream: bytes, maxLine: nat): (r: Read)
    requires INITIAL_ALLOC <= maxLine <= MAX_LINE && stream != []
    ensures |r.rest| < |stream| && INITIAL_ALLOC <= r.maxLine <= MAX_LINE
    ensures |r.line| < MAX_LINE
  {
    var n := Fgets(stream, maxLine);
    Grow(CStr(stream[..n]), stream[n..], maxLine)
  }

  /** Length of the first line of a stream, its newline included. */
  function LineLength(stream: bytes): (n: nat)
    ensures n <= |stream| && (forall i | 0 <= i < n - 1 :: stream[i] != NEWLINE)
    ensures n < |stream| ==> n > 0 && stream[n - 1] == NEWLINE
  {
    if stream == [] then 0
    else if stream[0] == NEWLINE then 1
    else 1 + LineLength(stream[1..])
  }

  function Min(a: nat, b: nat): nat {
    if a <= b then a else b
  }

  lemma {:induction false} FgetsTakesLine(stream: bytes, num: nat)
    requires num >= 1
    ensures Fgets(stream, num) == Min(num - 1, LineLength(stream))
  {
    if stream != [] && num > 1 && stream[0] != NEWLINE {
      FgetsTakesLine(stream[1..], num - 1);
    }
  }

  lemma {:induction false} LineLengthSuffix(stream: bytes, a: nat)
    requires a <= LineLength(stream) && (a > 0 ==> stream[a - 1] != NEWLINE)
    ensures LineLength(stream[a..]) == LineLength(stream) - a
  {
    if a > 0 {
      assert stream[0] != NEWLINE;
      assert stream[1..][a - 1..] == stream[a..];
      assert a > 1 ==> stream[1..][a - 2] == stream[a - 1];
      LineLengthSuffix(stream[1..], a - 1);
    } else {
      assert stream[0..] == stream;
    }
  }

  /** One enlargement continues the line where it was broken off. */
  lemma Enlarge(stream: bytes, a: nat, larger: nat)
    requires a < larger && a <= LineLength(stream) && (a > 0 ==> stream[a - 1] != NEWLINE)
    requires NUL !in stream
    ensures var n := Fgets(stream[a..], larger - a);
      && a + n == Min(larger - 1, LineLength(stream))
      && stream[..a] + CStr(stream[a..][..n]) == stream[..a + n]
      && stream[a..][n..] == stream[a + n..]
  {
    hide Fgets, LineLength;
    LineLengthSuffix(stream, a);
    FgetsTakesLine(stream[a..], larger - a);
    var n := Fgets(stream[a..], larger - a);
    assert CStr(stream[a..][..n]) == stream[a..][..n];
  }

  lemma GrowOnce(line: bytes, stream: bytes, maxLine: nat)
    requires INITIAL_ALLOC <= maxLine <= MAX_LINE && |line| == maxLine - 1
    requires line[|line| - 1] != NEWLINE
    ensures var larger := if 2 * maxLine > MAX_LINE then MAX_LINE else 2 * maxLine;
      var n := Fgets(stream, larger - |line|);
      var longer := line + CStr(stream[..n]);
      Grow(line, stream, maxLine) ==
        if stream == [] || larger >= MAX_LINE then Read(longer, stream[n..], larger)
        else Grow(longer, stream[n..], larger)
  {
    assert line + [] == line;
  }

  lemma GrowDone(line: bytes, stream: bytes, maxLine: nat)
    requires INITIAL_ALLOC <= maxLine <= MAX_LINE && |line| < maxLine
    requires |line| != maxLine - 1 || line[|line| - 1] == NEWLINE
    ensures Grow(line, stream, maxLine) == Read(line, stream, maxLine)
  {
  }

  /** However often the buffer grows, it ends with the whole line or its first 1999 bytes. */
  lemma {:induction false} GrowTakesLine(stream: bytes, maxLine: nat, a: nat)
    requires INITIAL_ALLOC <= maxLine <= MAX_LINE && NUL !in stream
    requires a == Min(maxLine - 1, LineLength(stream))
    ensures var n := Min(MAX_LINE - 1, LineLength(stream));
      var r := Grow(stream[..a], stream[a..], maxLine);
      r.line == stream[..n] && r.rest == stream[n..]
    decreases MAX_LINE - maxLine
  {
    hide Fgets, CStr, LineLength, Grow;
    if a == maxLine - 1 && stream[a - 1] != NEWLINE && a < |stream| {
      var larger := if 2 * maxLine > MAX_LINE then MAX_LINE else 2 * maxLine;
      Enlarge(stream, a, larger);
      GrowOnce(stream[..a], stream[a..], maxLine);
      var n := Fgets(stream[a..], larger - a);
      assert stream[..a] + CStr(stream[a..][..n]) == stream[..a + n];
      if larger < MAX_LINE {
        GrowTakesLine(stream, larger, a + n);
      }
    } else {
      GrowStops(stream, maxLine, a);
    }
  }

  lemma GrowStops(stream: bytes, maxLine: nat, a: nat)
    requires INITIAL_ALLOC <= maxLine <= MAX_LINE && a == Min(maxLine - 1, LineLength(stream))
    requires a < maxLine - 1 || stream[a - 1] == NEWLINE || a == |stream|
    ensures a == Min(MAX_LINE - 1, LineLength(stream))
    ensures var r := Grow(stream[..a], stream[a..], maxLine);
      r.line == stream[..a] && r.rest == stream[a..]
  {
  }

  lemma ReadLineTakesLine(stream: bytes, maxLine: nat)
    requires INITIAL_ALLOC <= maxLine <= MAX_LINE && stream != [] && NUL !in stream
    ensures var n := Min(MAX_LINE - 1, LineLength(stream));
      ReadLine(stream, maxLine).line == stream[..n] && ReadLine(stream, maxLine).rest == stream[n..]
  {
    FgetsTakesLine(stream, maxLine);
    var n := Fgets(stream, maxLine);
    assert CStr(stream[..n]) == stream[..n];
    GrowTakesLine(stream, maxLine, n);
  }

  lemma {:induction false} GrowOneLine(line: bytes, stream: bytes, maxLine: nat)
    requires INITIAL_ALLOC <= maxLine <= MAX_LINE && |line| < maxLine && OneLine(line)
    ensures OneLine(Grow(line, stream, maxLine).line)
    decreases MAX_LINE - maxLine
  {
    hide Fgets, CStr, OneLine;
    if |line| == maxLine - 1 && line[|line| - 1] != NEWLINE && stream != [] {
      var larger := if 2 * maxLine > MAX_LINE then MAX_LINE else 2 * maxLine;
      var n := Fgets(stream, larger - |line|);
      OneLineLonger(line, stream, larger - |line|);
      if larger < MAX_LINE {
        GrowOneLine(line + CStr(stream[..n]), stream[n..], larger);
      }
    }
  }

  lemma OneLineLonger(line: bytes, stream: bytes, room: nat)
    requires OneLine(line) && room >= 1 && (line != [] ==> line[|line| - 1] != NEWLINE)
    ensures OneLine(line + CStr(stream[..Fgets(stream, room)]))
  {
    FgetsTakesLine(stream, room);
  }

  // ----- parsing -----

  type Values = map<bytes, map<bytes, bytes>>

  /** DuplicateKey is the exception of the value handler. */
  datatype Outcome = Parsed(values: Values) | ParseError(line: nat) | DuplicateKey(section: bytes, name: bytes)

  datatype Verdict = Go(section: bytes, values: Values) | Stop(outcome: Outcome)

  function SectionOf(values: Values, section: bytes): map<bytes, bytes> {
    if section in values then values[section] else map[]
  }

  /** INIReader::ValueHandler: an empty value does not count as present. */
  function Handle(section: bytes, name: bytes, value: bytes, values: Values): Verdict {
    var entries := SectionOf(values, section);
    if name in entries && |entries[name]| > 0 then Stop(DuplicateKey(section, name))
    else Go(section, values[section := entries[name := value]])
  }

  function Process(line: Line, lineno: nat, section: bytes, values: Values): Verdict {
    match line
    case Nothing => Go(section, values)
    case Section(name) => Go(name, values)
    case Pair(name, value) => Handle(section, name, value, values)
    case Malformed => Stop(ParseError(lineno))
  }

  predicate HasBom(line: bytes) {
    |line| >= 3 && line[0] == 0xEF && line[1] == 0xBB && line[2] == 0xBF
  }

  function SkipBom(line: bytes, lineno: nat): bytes {
    if lineno == 1 && HasBom(line) then line[3..] else line
  }

  /** The loop of ini_parse_stream from some point on; `lineno` lines have been read. */
  function ParseFrom(stream: bytes, maxLine: nat, lineno: nat, section: bytes, values: Values): Outcome
    requires INITIAL_ALLOC <= maxLine <= MAX_LINE
    decreases |stream|
  {
    if stream == [] then Parsed(values)
    else
      var r := ReadLine(stream, maxLine);
      match Process(ParseLine(SkipBom(r.line, lineno + 1)), lineno + 1, section, values)
      case Stop(outcome) => outcome
      case Go(s, v) => ParseFrom(r.rest, r.maxLine, lineno + 1, s, v)
  }

  function Parse(stream: bytes): Outcome {
    ParseFrom(stream, INITIAL_ALLOC, 0, [], map[])
  }

  // ----- what parsing can produce -----

  predicate EntryOk(k: bytes, v: bytes) {
    KeyOk(k) && ValueOk(v) && |KeyValue(k, v)| < MAX_LINE
  }

  predicate BlockOk(section: bytes, entries: map<bytes, bytes>) {
    SectionOk(section) && entries != map[] && forall k | k in entries :: EntryOk(k, entries[k])
  }

  predicate Storable(values: Values) {
    forall s | s in values :: BlockOk(s, values[s])
  }

  lemma ReadLineIsOneLine(stream: bytes, maxLine: nat)
    requires INITIAL_ALLOC <= maxLine <= MAX_LINE && stream != []
    ensures OneLine(ReadLine(stream, maxLine).line)
  {
    var n := Fgets(stream, maxLine);
    FgetsTakesLine(stream, maxLine);
    GrowOneLine(CStr(stream[..n]), stream[n..], maxLine);
  }

  lemma ProcessKeepsStorable(text: bytes, lineno: nat, section: bytes, values: Values)
    requires OneLine(text) && |text| < MAX_LINE && SectionOk(section) && Storable(values)
    ensures var v := Process(ParseLine(text), lineno, section, values);
      if v.Go? then SectionOk(v.section) && Storable(v.values) else !v.outcome.Parsed?
  {
    var line := ParseLine(text);
    if line.Section? {
      SectionReadIsOk(text);
    } else if line.Pair? {
      PairReadIsOk(text);
      var entries := SectionOf(values, section)[line.name := line.value];
      assert line.name in entries;
      assert BlockOk(section, entries);
    }
  }

  /** Everything the parser accepts is storable, whatever bytes it reads. */
  lemma {:induction false} ParsedIsStorable(stream: bytes, maxLine: nat, lineno: nat, section: bytes, values: Values)
    requires INITIAL_ALLOC <= maxLine <= MAX_LINE && SectionOk(section) && Storable(values)
    ensures var o := ParseFrom(stream, maxLine, lineno, section, values);
      o.Parsed? ==> Storable(o.values)
    decreases |stream|
  {
    hide ParseLine, Process, ReadLine, Storable, SectionOk;
    if stream != [] {
      var r := ReadLine(stream, maxLine);
      ReadLineIsOneLine(stream, maxLine);
      var text := SkipBom(r.line, lineno + 1);
      ProcessKeepsStorable(text, lineno + 1, section, values);
      var verdict := Process(ParseLine(text), lineno + 1, section, values);
      if verdict.Go? {
        ParsedIsStorable(r.rest, r.maxLine, lineno + 1, verdict.section, verdict.values);
      }
    }
  }
}
