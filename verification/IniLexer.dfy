/** Lexical rules of one line of an INI file, on C strings (NUL-free byte sequences). */
module IniLexer {
  import opened Wire

  const NUL: byte := 0
  const NEWLINE: byte := 10
  const HASH: byte := 35
  const COLON: byte := 58
  const SEMICOLON: byte := 59
  const EQUALS: byte := 61
  const OPEN: byte := 91
  const CLOSE: byte := 93

  /** sizeof(section) - 1. */
  const MAX_SECTION_LENGTH: nat := 49

  /** isspace in the C locale. */
  predicate IsSpace(b: byte) {
    9 <= b <= 13 || b == 32
  }

  function RStrip(s: bytes): (r: bytes)
    ensures r <= s && (r != [] ==> !IsSpace(r[|r| - 1]))
    ensures forall i | |r| <= i < |s| :: IsSpace(s[i])
  {
    if s != [] && IsSpace(s[|s| - 1]) then RStrip(s[..|s| - 1]) else s
  }

  function Blanks(s: bytes): (n: nat)
    ensures n <= |s| && (forall i | 0 <= i < n :: IsSpace(s[i]))
    ensures n < |s| ==> !IsSpace(s[n])
  {
    if s != [] && IsSpace(s[0]) then 1 + Blanks(s[1..]) else 0
  }

  function LSkip(s: bytes): bytes {
    s[Blanks(s)..]
  }

  /** Where an unquoted scan stops: at one of `stops`, or at a semicolon after whitespace. */
  predicate StopsAt(s: bytes, stops: set<byte>, wasSpace: bool, i: nat)
    requires i < |s|
  {
    || s[i] in stops
    || (s[i] == SEMICOLON && if i == 0 then wasSpace else IsSpace(s[i - 1]))
  }

  /** find_chars_or_comment as an index. */
  function Find(s: bytes, stops: set<byte>, wasSpace: bool): (n: nat)
    ensures n <= |s| && (forall i | 0 <= i < n :: !StopsAt(s, stops, wasSpace, i))
    ensures n < |s| ==> StopsAt(s, stops, wasSpace, n)
  {
    if s == [] || StopsAt(s, stops, wasSpace, 0) then 0
    else
      var n := Find(s[1..], stops, IsSpace(s[0]));
      assert forall i | 0 < i < |s| ::
        StopsAt(s, stops, wasSpace, i) <==> StopsAt(s[1..], stops, IsSpace(s[0]), i - 1);
      1 + n
  }

  datatype Line = Nothing | Section(name: bytes) | Pair(name: bytes, value: bytes) | Malformed

  function SectionLine(rest: bytes): Line {
    var e := Find(rest, {CLOSE}, false);
    if e < |rest| && rest[e] == CLOSE
    then Section(if e <= MAX_SECTION_LENGTH then rest[..e] else rest[..MAX_SECTION_LENGTH])
    else Malformed
  }

  function PairLine(start: bytes): Line {
    var e := Find(start, {EQUALS, COLON}, false);
    if e < |start| && (start[e] == EQUALS || start[e] == COLON) then
      var value := start[e + 1..];
      Pair(RStrip(start[..e]), RStrip(LSkip(value[..Find(value, {}, false)])))
    else Malformed
  }

  function ParseLine(text: bytes): Line {
    var start := LSkip(RStrip(text));
    if start == [] || start[0] == SEMICOLON || start[0] == HASH then Nothing
    else if start[0] == OPEN then SectionLine(start[1..])
    else PairLine(start)
  }

  // ----- what can be written -----

  predicate Clean(s: bytes) {
    NUL !in s && NEWLINE !in s
  }

  predicate SectionOk(s: bytes) {
    Clean(s) && |s| <= MAX_SECTION_LENGTH && Find(s, {CLOSE}, false) == |s|
  }

  predicate KeyOk(k: bytes) {
    && Clean(k) && Find(k, {EQUALS, COLON}, false) == |k|
    && (k != [] ==>
          && !IsSpace(k[0]) && !IsSpace(k[|k| - 1])
          && k[0] != SEMICOLON && k[0] != HASH && k[0] != OPEN)
  }

  predicate ValueOk(v: bytes) {
    && Clean(v) && Find(v, {}, false) == |v|
    && (v != [] ==> !IsSpace(v[0]) && !IsSpace(v[|v| - 1]))
  }

  function KeyValue(k: bytes, v: bytes): bytes {
    k + [EQUALS] + v
  }

  function Header(s: bytes): bytes {
    [OPEN] + s + [CLOSE]
  }

  lemma FindIs(s: bytes, stops: set<byte>, wasSpace: bool, n: nat)
    requires n <= |s| && (forall i | 0 <= i < n :: !StopsAt(s, stops, wasSpace, i))
    requires n < |s| ==> StopsAt(s, stops, wasSpace, n)
    ensures Find(s, stops, wasSpace) == n
  {
    var m := Find(s, stops, wasSpace);
    assert !(m < n) && !(n < m);
  }

  lemma RStripIs(s: bytes, r: bytes)
    requires r <= s && (r != [] ==> !IsSpace(r[|r| - 1]))
    requires forall i | |r| <= i < |s| :: IsSpace(s[i])
    ensures RStrip(s) == r
  {
  }

  lemma NewlineIsStripped(text: bytes)
    ensures ParseLine(text + [NEWLINE]) == ParseLine(text)
  {
    var t := text + [NEWLINE];
    assert t[..|t| - 1] == text;
  }

  lemma NoBlanks(s: bytes)
    requires s != [] ==> !IsSpace(s[0])
    ensures LSkip(s) == s
  {
  }

  /** A header line gives back its section name. */
  lemma HeaderRoundTrip(s: bytes)
    requires SectionOk(s)
    ensures ParseLine(Header(s)) == Section(s)
    ensures Clean(Header(s)) && |Header(s)| <= MAX_SECTION_LENGTH + 2
  {
    var h := Header(s);
    RStripIs(h, h);
    NoBlanks(h);
    var rest := s + [CLOSE];
    assert h[1..] == rest;
    forall i | 0 <= i < |s| ensures !StopsAt(rest, {CLOSE}, false, i) {
      assert !StopsAt(s, {CLOSE}, false, i);
    }
    FindIs(rest, {CLOSE}, false, |s|);
    assert rest[..|s|] == s;
  }

  lemma KeyValueIsPairLine(k: bytes, v: bytes)
    requires KeyOk(k) && ValueOk(v)
    ensures ParseLine(KeyValue(k, v)) == PairLine(KeyValue(k, v))
  {
    hide PairLine, Find;
    var line := KeyValue(k, v);
    assert line[|line| - 1] == if v == [] then EQUALS else v[|v| - 1];
    RStripIs(line, line);
    NoBlanks(line);
  }

  lemma KeyEnds(k: bytes, v: bytes)
    requires KeyOk(k)
    ensures Find(KeyValue(k, v), {EQUALS, COLON}, false) == |k|
  {
    var line := KeyValue(k, v);
    forall i | 0 <= i < |k| ensures !StopsAt(line, {EQUALS, COLON}, false, i) {
      assert !StopsAt(k, {EQUALS, COLON}, false, i);
    }
    FindIs(line, {EQUALS, COLON}, false, |k|);
  }

  /** A key=value line gives back the pair. */
  lemma PairRoundTrip(k: bytes, v: bytes)
    requires KeyOk(k) && ValueOk(v)
    ensures ParseLine(KeyValue(k, v)) == Pair(k, v) && Clean(KeyValue(k, v))
  {
    hide ParseLine, Find, LSkip;
    KeyValueIsPairLine(k, v);
    KeyEnds(k, v);
    var line := KeyValue(k, v);
    assert line[..|k|] == k && line[|k| + 1..] == v;
    RStripIs(k, k);
    ValueRoundTrip(v);
  }

  lemma ValueRoundTrip(v: bytes)
    requires ValueOk(v)
    ensures RStrip(LSkip(v[..Find(v, {}, false)])) == v
  {
    assert v[..|v|] == v;
    NoBlanks(v);
    RStripIs(v, v);
  }

  /** A line as the reader leaves it: a newline only at the very end. */
  predicate OneLine(text: bytes) {
    NUL !in text && forall i | 0 <= i < |text| - 1 :: text[i] != NEWLINE
  }

  lemma StrippedIsClean(text: bytes)
    requires OneLine(text)
    ensures Clean(LSkip(RStrip(text))) && |LSkip(RStrip(text))| <= |text|
  {
    var r := RStrip(text);
    forall b | b in r ensures b != NUL && b != NEWLINE {
      var i :| 0 <= i < |r| && r[i] == b;
      assert r[i] == text[i];
      assert i < |text| - 1 || r[|r| - 1] == b;
    }
    assert forall b | b in LSkip(r) :: b in r;
  }

  lemma FindPrefix(s: bytes, stops: set<byte>, n: nat)
    requires n <= Find(s, stops, false)
    ensures Find(s[..n], stops, false) == n
  {
    forall i | 0 <= i < n ensures !StopsAt(s[..n], stops, false, i) {
      assert !StopsAt(s, stops, false, i);
    }
    FindIs(s[..n], stops, false, n);
  }

  /** Whatever the parser reads off a line is storable: section names. */
  lemma SectionReadIsOk(text: bytes)
    requires OneLine(text) && ParseLine(text).Section?
    ensures SectionOk(ParseLine(text).name)
  {
    StrippedIsClean(text);
    var rest := LSkip(RStrip(text))[1..];
    FindPrefix(rest, {CLOSE}, |ParseLine(text).name|);
  }

  /** ... and keys and values, which also fit into the line they came from. */
  lemma PairReadIsOk(text: bytes)
    requires OneLine(text) && ParseLine(text).Pair?
    ensures var p := ParseLine(text);
      KeyOk(p.name) && ValueOk(p.value) && |KeyValue(p.name, p.value)| <= |text|
  {
    hide RStrip, PairLine, Clean, OneLine, KeyOk, ValueOk;
    StrippedIsClean(text);
    PairPartsAreOk(LSkip(RStrip(text)));
  }

  lemma PairPartsAreOk(start: bytes)
    requires Clean(start) && PairLine(start).Pair? && start != [] && !IsSpace(start[0])
    requires start[0] != SEMICOLON && start[0] != HASH && start[0] != OPEN
    ensures var p := PairLine(start);
      KeyOk(p.name) && ValueOk(p.value) && |KeyValue(p.name, p.value)| <= |start|
  {
    hide Find, RStrip, LSkip;
    var e, p := Find(start, {EQUALS, COLON}, false), PairLine(start);
    assert p.name == start[..|p.name|];
    FindPrefix(start, {EQUALS, COLON}, |p.name|);
    var v := start[e + 1..];
    var c := Find(v, {}, false);
    ValueReadIsOk(v[..c]);
    FindPrefix(v, {}, c);
    assert forall b | b in v[..c] :: b in start;
  }

  lemma ValueReadIsOk(v: bytes)
    ensures var value := RStrip(LSkip(v));
      && (value != [] ==> !IsSpace(value[0]) && !IsSpace(value[|value| - 1]))
      && (forall b | b in value :: b in v) && |value| <= |v|
      && (Find(v, {}, false) == |v| ==> Find(value, {}, false) == |value|)
  {
    var b, value := Blanks(v), RStrip(LSkip(v));
    assert value == v[b..b + |value|];
    if Find(v, {}, false) == |v| {
      forall i | 0 <= i < |value| ensures !StopsAt(value, {}, false, i) {
        assert !StopsAt(v, {}, false, b + i);
      }
      FindIs(value, {}, false, |value|);
    }
  }
}
