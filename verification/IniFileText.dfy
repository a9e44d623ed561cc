/** Whole INI files, stated on their text: comments, byte order marks, duplicate keys and errors. The
    numbers are those of IniText. */
module IniFileText {
  import opened Wire
  import opened IniLexer
  import opened IniFile
  import opened IniRoundTrip
  import opened IniText

  // ----- the parser line by line -----

  /** How much of a text one turn of the parser takes. */
  function Chunk(a: bytes): (n: nat)
    requires a != []
    ensures 0 < n <= |a|
  {
    if LineLength(a) < 1999 then LineLength(a) else 1999
  }

  /** The text ends at the end of a line. */
  predicate Complete(a: bytes) {
    a == [] || a[|a| - 1] == 10
  }

  function Chunks(a: bytes): nat {
    if a == [] then 0 else 1 + Chunks(a[Chunk(a)..])
  }

  /** What the parser knows after a text. */
  function Feed(a: bytes, lineno: nat, section: bytes, values: Values): Verdict
    decreases |a|
  {
    if a == [] then Go(section, values) else
      match Process(ParseLine(SkipBom(a[..Chunk(a)], lineno + 1)), lineno + 1, section, values)
      case Stop(outcome) => Stop(outcome)
      case Go(s, v) => Feed(a[Chunk(a)..], lineno + 1, s, v)
  }

  lemma {:induction false} LengthOfFirst(a: bytes, x: bytes)
    requires a != [] && Complete(a)
    ensures LineLength(a + x) == LineLength(a)
  {
    assert (a + x)[0] == a[0];
    if a[0] != NEWLINE {
      assert (a + x)[1..] == a[1..] + x;
      LengthOfFirst(a[1..], x);
    }
  }

  lemma ReadsChunk(a: bytes, x: bytes, m: nat)
    requires a != [] && Complete(a) && NUL !in a + x && INITIAL_ALLOC <= m <= MAX_LINE
    ensures var r := ReadLine(a + x, m);
      && r.line == a[..Chunk(a)] && r.rest == a[Chunk(a)..] + x
      && Complete(a[Chunk(a)..])
  {
    hide ReadLine, LineLength;
    LengthOfFirst(a, x);
    ReadLineTakesLine(a + x, m);
    var n := Chunk(a);
    assert a[n..] != [] ==> a[n..][|a| - n - 1] == a[|a| - 1];
    assert (a + x)[..n] == a[..n] && (a + x)[n..] == a[n..] + x;
  }

  lemma OneTurn(stream: bytes, m: nat, n: nat, section: bytes, values: Values)
    requires INITIAL_ALLOC <= m <= MAX_LINE && stream != []
    ensures var r := ReadLine(stream, m);
      ParseFrom(stream, m, n, section, values) ==
        match Process(ParseLine(SkipBom(r.line, n + 1)), n + 1, section, values) {
          case Stop(outcome) => outcome
          case Go(s, v) => ParseFrom(r.rest, r.maxLine, n + 1, s, v)
        }
  {
  }

  lemma FeedOnce(a: bytes, n: nat, section: bytes, values: Values)
    requires a != []
    ensures Chunks(a) == 1 + Chunks(a[Chunk(a)..])
    ensures Feed(a, n, section, values) ==
      match Process(ParseLine(SkipBom(a[..Chunk(a)], n + 1)), n + 1, section, values) {
        case Stop(outcome) => Stop(outcome)
        case Go(s, v) => Feed(a[Chunk(a)..], n + 1, s, v)
      }
  {
  }

  lemma FeedNothing(n: nat, section: bytes, values: Values)
    ensures Chunks([]) == 0 && Feed([], n, section, values) == Go(section, values)
  {
  }

  /** A complete text is consumed as a whole, whatever follows it. */
  lemma {:induction false} FeedPrefix(a: bytes, x: bytes, m: nat, n: nat, section: bytes,
                                      values: Values) returns (m': nat)
    requires Complete(a) && NUL !in a + x && INITIAL_ALLOC <= m <= MAX_LINE
    ensures INITIAL_ALLOC <= m' <= MAX_LINE
    ensures var v := Feed(a, n, section, values);
      ParseFrom(a + x, m, n, section, values) ==
        if v.Stop? then v.outcome else ParseFrom(x, m', n + Chunks(a), v.section, v.values)
    decreases |a|
  {
    hide ParseFrom, ReadLine, Process, ParseLine, SkipBom, Complete, Feed, Chunks, Chunk;
    m' := m;
    if a == [] {
      FeedNothing(n, section, values);
      assert a + x == x;
    } else {
      FeedOnce(a, n, section, values);
      ReadsChunk(a, x, m);
      OneTurn(a + x, m, n, section, values);
      var r := ReadLine(a + x, m);
      var v := Process(ParseLine(SkipBom(r.line, n + 1)), n + 1, section, values);
      if v.Go? {
        assert forall b | b in r.rest :: b in a + x;
        m' := FeedPrefix(a[Chunk(a)..], x, r.maxLine, n + 1, v.section, v.values);
      }
    }
  }

  /** Errors `d` lines further down. */
  function Shift(o: Outcome, d: nat): Outcome {
    if o.ParseError? then ParseError(o.line + d) else o
  }

  /** Neither the size of the buffer nor the number of lines before matters, except for the number in
      an error and for a byte order mark on the first line. */
  lemma {:induction false} Shifted(stream: bytes, m1: nat, m2: nat, n: nat, d: nat,
                                   section: bytes, values: Values)
    requires INITIAL_ALLOC <= m1 <= MAX_LINE && INITIAL_ALLOC <= m2 <= MAX_LINE && NUL !in stream
    requires n > 0 || d == 0 || !HasBom(stream)
    ensures ParseFrom(stream, m2, n + d, section, values) ==
      Shift(ParseFrom(stream, m1, n, section, values), d)
    decreases |stream|
  {
    hide ParseFrom, ReadLine, ParseLine;
    if stream == [] {
      ParseNothing(m1, n, section, values);
      ParseNothing(m2, n + d, section, values);
    } else {
      ReadLineTakesLine(stream, m1);
      ReadLineTakesLine(stream, m2);
      OneTurn(stream, m1, n, section, values);
      OneTurn(stream, m2, n + d, section, values);
      var r1, r2 := ReadLine(stream, m1), ReadLine(stream, m2);
      assert r1.line == r2.line && r1.rest == r2.rest;
      assert HasBom(r1.line) ==> HasBom(stream);
      assert SkipBom(r1.line, n + 1) == SkipBom(r1.line, n + d + 1);
      var v := Process(ParseLine(SkipBom(r1.line, n + 1)), n + 1, section, values);
      if v.Go? {
        assert forall b | b in r1.rest :: b in stream;
        Shifted(r1.rest, r1.maxLine, r2.maxLine, n + 1, d, v.section, v.values);
      }
    }
  }

  lemma ParseNothing(m: nat, n: nat, section: bytes, values: Values)
    requires INITIAL_ALLOC <= m <= MAX_LINE
    ensures ParseFrom([], m, n, section, values) == Parsed(values)
  {
  }

  // ----- comments -----

  /** An outcome without the line number of an error. */
  function Unnumbered(o: Outcome): Outcome {
    if o.ParseError? then ParseError(0) else o
  }

  /** Inserting a comment line anywhere between two lines changes nothing but the numbers in errors.
      Only a byte order mark has to stay at the very beginning. */
  lemma CommentsDoNotMatter(a: bytes, pre: bytes, c: byte, rest: bytes, b: bytes)
    requires Complete(a) && 0 !in a + b && 0 !in pre + rest && 10 !in pre + rest
    requires AllBlank(pre) && (c == 35 || c == 59) && |pre| + |rest| <= 1998
    requires a != [] || !HasBom(b)
    ensures Unnumbered(Parse(a + ((pre + [c] + rest) + [10] + b))) == Unnumbered(Parse(a + b))
  {
    hide ParseFrom, Feed, Process, ParseLine, AllBlank;
    var line := pre + [c] + rest;
    assert Clean(line) && NUL !in line + [10] + b;
    CommentLine(pre, c, rest);
    assert a != [] || !HasBom(line) by { NoBomInComment(pre, c, rest); }
    var m1 := FeedPrefix(a, line + [10] + b, INITIAL_ALLOC, 0, [], map[]);
    var m2 := FeedPrefix(a, b, INITIAL_ALLOC, 0, [], map[]);
    var v, n := Feed(a, 0, [], map[]), Chunks(a);
    assert 0 + n == n;
    if v.Go? {
      NothingGoes(n + 1, v.section, v.values);
      var m3, n3 := LineStep(line, b, m1, n, v.section, v.values);
      Shifted(b, m2, m3, n, n3 - n, v.section, v.values);
    }
  }

  lemma NothingGoes(n: nat, section: bytes, values: Values)
    ensures Process(Nothing, n, section, values) == Go(section, values)
  {
  }

  lemma NoBomInComment(pre: bytes, c: byte, rest: bytes)
    requires AllBlank(pre) && (c == 35 || c == 59)
    ensures !HasBom(pre + [c] + rest)
  {
    assert (pre + [c] + rest)[0] == if pre == [] then c else pre[0];
    assert pre != [] ==> pre[0] in pre;
  }

  // ----- the byte order mark -----

  lemma {:induction false} LengthBehind(a: bytes, stream: bytes)
    requires NEWLINE !in a
    ensures LineLength(a + stream) == |a| + LineLength(stream)
  {
    if a == [] {
      assert a + stream == stream;
    } else {
      assert (a + stream)[0] == a[0] && (a + stream)[1..] == a[1..] + stream;
      LengthBehind(a[1..], stream);
    }
  }

  lemma MarkedLine(stream: bytes)
    requires 0 !in stream && LineLength(stream) <= 1996
    ensures var n, r := LineLength(stream), ReadLine([0xEF, 0xBB, 0xBF] + stream, INITIAL_ALLOC);
      SkipBom(r.line, 1) == stream[..n] && r.rest == stream[n..]
  {
    hide ReadLine, LineLength;
    var bom: bytes := [0xEF, 0xBB, 0xBF];
    var marked, n := bom + stream, LineLength(stream);
    LengthBehind(bom, stream);
    ReadLineTakesLine(marked, INITIAL_ALLOC);
    var line := marked[..3 + n];
    assert line[3..] == stream[..n] && marked[3 + n..] == stream[n..];
    assert line[0] == 0xEF && line[1] == 0xBB && line[2] == 0xBF;
  }

  lemma PlainLine(stream: bytes)
    requires 0 !in stream && stream != [] && LineLength(stream) <= 1996 && !HasBom(stream)
    ensures var n, r := LineLength(stream), ReadLine(stream, INITIAL_ALLOC);
      SkipBom(r.line, 1) == stream[..n] && r.rest == stream[n..]
  {
    hide ReadLine, LineLength;
    ReadLineTakesLine(stream, INITIAL_ALLOC);
    assert HasBom(stream[..LineLength(stream)]) ==> HasBom(stream);
  }

  /** A byte order mark before the first line is ignored. */
  lemma BomIsSkipped(stream: bytes)
    requires 0 !in stream && !HasBom(stream) && LineLength(stream) <= 1996
    ensures Parse([0xEF, 0xBB, 0xBF] + stream) == Parse(stream)
  {
    hide ParseFrom, ReadLine, ParseLine, Process, Shift, SkipBom, HasBom, LineLength;
    var marked := [0xEF, 0xBB, 0xBF] + stream;
    MarkedLine(stream);
    OneTurn(marked, INITIAL_ALLOC, 0, [], map[]);
    var r := ReadLine(marked, INITIAL_ALLOC);
    if stream == [] {
      EmptyLine();
      NothingGoes(1, [], map[]);
      ParseNothing(r.maxLine, 1, [], map[]);
      ParseNothing(INITIAL_ALLOC, 0, [], map[]);
    } else {
      PlainLine(stream);
      OneTurn(stream, INITIAL_ALLOC, 0, [], map[]);
      var s := ReadLine(stream, INITIAL_ALLOC);
      var v := Process(ParseLine(SkipBom(s.line, 1)), 1, [], map[]);
      if v.Go? {
        assert forall b | b in s.rest :: b in stream;
        Shifted(s.rest, s.maxLine, r.maxLine, 1, 0, v.section, v.values);
        ShiftByNothing(ParseFrom(s.rest, s.maxLine, 1, v.section, v.values));
      }
    }
  }

  lemma ShiftByNothing(o: Outcome)
    ensures Shift(o, 0) == o
  {
  }

  lemma EmptyLine()
    ensures ParseLine([]) == Nothing
  {
    CommentLine([], 35, []);
  }

  // ----- errors -----

  /** Every line of a text fits into the buffer. */
  predicate ShortLines(a: bytes) {
    a == [] || (LineLength(a) <= 1999 && ShortLines(a[LineLength(a)..]))
  }

  lemma FirstLineHasOneNewline(a: bytes)
    requires a != [] && Complete(a)
    ensures multiset(a[..LineLength(a)])[10] == 1
  {
    var n := LineLength(a);
    var l := a[..n];
    LengthOfFirst(a, []);
    assert a + [] == a;
    assert n > 0 && a[n - 1] == NEWLINE by { LastOfFirst(a); }
    assert l == l[..n - 1] + [NEWLINE];
    assert forall i | 0 <= i < n - 1 :: l[..n - 1][i] == a[i];
    assert NEWLINE !in l[..n - 1];
  }

  lemma LastOfFirst(a: bytes)
    requires a != [] && Complete(a)
    ensures LineLength(a) > 0 && a[LineLength(a) - 1] == NEWLINE
  {
  }

  /** With short lines the parser takes as many turns as there are newlines. */
  lemma {:induction false} TurnsAreLines(a: bytes)
    requires Complete(a) && ShortLines(a)
    ensures Chunks(a) == multiset(a)[10]
    decreases |a|
  {
    if a != [] {
      var n := LineLength(a);
      FirstLineHasOneNewline(a);
      assert a == a[..n] + a[n..];
      TurnsAreLines(a[n..]);
    }
  }

  lemma StopLine(line: bytes, rest: bytes, m: nat, n: nat, section: bytes, values: Values)
    requires INITIAL_ALLOC <= m <= MAX_LINE && Clean(line) && NUL !in rest && |line| < MAX_LINE
    requires n == 0 ==> !HasBom(line)
    requires Process(ParseLine(line), n + 1, section, values).Stop?
    ensures ParseFrom(line + [NEWLINE] + rest, m, n, section, values) ==
      Process(ParseLine(line), n + 1, section, values).outcome
  {
    hide ParseFrom, ReadLine, ParseLine, Process;
    var stream := line + [NEWLINE] + rest;
    assert LineLength(stream) == |line| + 1 by {
      LengthBehind(line, [NEWLINE] + rest);
      assert stream == line + ([NEWLINE] + rest);
    }
    ReadLineTakesLine(stream, m);
    OneTurn(stream, m, n, section, values);
    var r := ReadLine(stream, m);
    if |line| < MAX_LINE - 1 {
      assert r.line == line + [NEWLINE];
      NewlineIsStripped(line);
      assert HasBom(r.line) ==> HasBom(line);
    } else {
      assert r.line == line;
    }
  }

  /** After any accepted text with short lines, a line without separator is an error with its
      number. */
  lemma MissingSeparator(a: bytes, pre: bytes, w: bytes, rest: bytes)
    requires Complete(a) && ShortLines(a) && 0 !in a && 0 !in rest
    requires AllBlank(pre) && w != [] && !Blank(w[0]) && w[0] != 35 && w[0] != 59
    requires if w[0] == 91 then 93 !in w else 61 !in w && 58 !in w
    requires 0 !in pre + w && 10 !in pre + w && |pre| + |w| <= 1999
    requires a == [] ==> !HasBom(pre + w)
    ensures Parse(a).Parsed? ==>
      Parse(a + ((pre + w) + [10] + rest)) == ParseError(multiset(a)[10] + 1)
  {
    hide ParseFrom, Feed, ParseLine, AllBlank, ShortLines;
    var line := pre + w;
    MalformedText(pre, w);
    TurnsAreLines(a);
    var m1 := FeedPrefix(a, line + [10] + rest, INITIAL_ALLOC, 0, [], map[]);
    var m2 := FeedPrefix(a, [], INITIAL_ALLOC, 0, [], map[]);
    assert a + [] == a;
    var v, n := Feed(a, 0, [], map[]), Chunks(a);
    FeedStops(a, 0, [], map[]);
    if v.Go? {
      StopLine(line, rest, m1, n, v.section, v.values);
    }
  }

  /** A text that stops the parser is not accepted. */
  lemma {:induction false} FeedStops(a: bytes, n: nat, section: bytes, values: Values)
    ensures var v := Feed(a, n, section, values); v.Stop? ==> !v.outcome.Parsed?
    decreases |a|
  {
    hide ParseLine;
    if a != [] {
      var v := Process(ParseLine(SkipBom(a[..Chunk(a)], n + 1)), n + 1, section, values);
      if v.Go? {
        FeedStops(a[Chunk(a)..], n + 1, v.section, v.values);
      }
    }
  }

  /** After any text that leaves the parser in section `s` with a value for `k` that is not empty, a
      second value for `k` is refused. */
  lemma SecondValueIsRefused(a: bytes, s: bytes, values: Values, k: bytes, v: bytes, rest: bytes)
    requires Complete(a) && a != [] && 0 !in a && 0 !in rest
    requires Feed(a, 0, [], map[]) == Go(s, values)
    requires s in values && k in values[s] && values[s][k] != []
    requires KeyOk(k) && ValueOk(v) && |k| + |v| <= 1998
    ensures Parse(a + ((k + [61] + v) + [10] + rest)) == DuplicateKey(s, k)
  {
    hide ParseFrom, Feed, ParseLine, KeyOk, ValueOk;
    var line := KeyValue(k, v);
    PairRoundTrip(k, v);
    assert line == k + [61] + v;
    var m := FeedPrefix(a, line + [10] + rest, INITIAL_ALLOC, 0, [], map[]);
    assert Chunks(a) > 0;
    StopLine(line, rest, m, Chunks(a), s, values);
  }

  /** A key with two values: refused when the first one is not empty, otherwise the second one
      stands. */
  lemma TwoValues(s: bytes, k: bytes, v: bytes, w: bytes)
    requires SectionOk(s) && KeyOk(k) && ValueOk(v) && ValueOk(w)
    requires |k| + |v| <= 1998 && |k| + |w| <= 1998
    ensures Parse(([91] + s + [93]) + [10] + ((k + [61] + v) + [10] + ((k + [61] + w) + [10] + []))) ==
      if v != [] then DuplicateKey(s, k) else Parsed(map[s := map[k := w]])
  {
    hide ParseFrom, ParseLine, KeyOk, ValueOk, SectionOk;
    HeaderRoundTrip(s);
    PairRoundTrip(k, v);
    PairRoundTrip(k, w);
    var first, second := KeyValue(k, v), KeyValue(k, w);
    var tail := second + [NEWLINE] + [];
    assert NUL !in first + [NEWLINE] + tail;
    var m1, n1 := LineStep(Header(s), first + [NEWLINE] + tail, INITIAL_ALLOC, 0, [], map[]);
    var m2, n2 := LineStep(first, tail, m1, n1, s, map[]);
    var values: Values := map[s := map[k := v]];
    assert SectionOf(map[], s)[k := v] == map[k := v];
    if v != [] {
      StopLine(second, [], m2, n2, s, values);
    } else {
      var m3, n3 := LineStep(second, [], m2, n2, s, values);
      ParseNothing(m3, n3, s, map[s := map[k := w]]);
      assert values[s][k := w] == map[k := w];
      assert values[s := map[k := w]] == map[s := map[k := w]];
    }
  }

  // ----- what is written -----

  /** `a` comes before `b` in the order of unsigned bytes, where the first difference decides and a
      prefix comes first; they agree on `n` bytes. */
  predicate DiffersAt(a: bytes, b: bytes, n: nat) {
    && n <= |a| && n < |b| && a[..n] == b[..n]
    && (n < |a| ==> a[n] < b[n])
  }

  predicate Before(a: bytes, b: bytes) {
    exists n | 0 <= n < |b| :: DiffersAt(a, b, n)
  }

  lemma {:induction false} LeqIff(a: bytes, b: bytes)
    ensures Leq(a, b) <==> a == b || Before(a, b)
  {
    if a == [] {
      if b != [] {
        assert DiffersAt(a, b, 0);
      }
    } else if b != [] {
      if a[0] < b[0] {
        assert DiffersAt(a, b, 0);
      } else if a[0] == b[0] {
        LeqIff(a[1..], b[1..]);
        assert a == [a[0]] + a[1..] && b == [b[0]] + b[1..];
        BeforeTail(a, b);
      } else if n :| 0 <= n < |b| && DiffersAt(a, b, n) {
        assert a[..n] == b[..n];
        assert n > 0 ==> a[..n][0] == a[0] && b[..n][0] == b[0];
      }
    }
  }

  lemma BeforeTail(a: bytes, b: bytes)
    requires a != [] && b != [] && a[0] == b[0]
    ensures Before(a, b) <==> Before(a[1..], b[1..])
  {
    if n :| 0 <= n < |b| && DiffersAt(a, b, n) {
      assert n > 0;
      assert a[1..][..n - 1] == a[..n][1..] && b[1..][..n - 1] == b[..n][1..];
      assert DiffersAt(a[1..], b[1..], n - 1);
    }
    if n :| 0 <= n < |b[1..]| && DiffersAt(a[1..], b[1..], n) {
      assert a[..n + 1] == [a[0]] + a[1..][..n] && b[..n + 1] == [b[0]] + b[1..][..n];
      assert DiffersAt(a, b, n + 1);
    }
  }

  lemma DocOneMore(values: Values, names: set<bytes>)
    requires names <= values.Keys && names != {}
    ensures var s, doc := Least(names), DocOf(values, names);
      && s in names && doc == [doc[0]] + DocOf(values, names - {s})
      && doc[0] == Block(s, EntriesOf(values[s], values[s].Keys))
  {
  }

  lemma {:induction false} SectionNames(values: Values, names: set<bytes>)
    requires names <= values.Keys
    ensures var doc := DocOf(values, names);
      && (forall i | 0 <= i < |doc| :: doc[i].name in names)
      && (forall i | 0 <= i < |doc| && doc[i].name in values ::
            doc[i].entries == EntriesOf(values[doc[i].name], values[doc[i].name].Keys))
  {
    hide EntriesOf, Leq;
    if names != {} {
      var doc, rest := DocOf(values, names), DocOf(values, names - {Least(names)});
      SectionNames(values, names - {Least(names)});
      DocOneMore(values, names);
      forall i | 0 <= i < |doc|
        ensures doc[i].name in names
        ensures doc[i].entries == EntriesOf(values[doc[i].name], values[doc[i].name].Keys)
      {
        if i > 0 {
          assert doc[i] == rest[i - 1];
        }
      }
    }
  }

  lemma {:induction false} SectionFound(values: Values, names: set<bytes>, s: bytes)
    requires names <= values.Keys && s in names
    ensures exists i | 0 <= i < |DocOf(values, names)| :: DocOf(values, names)[i].name == s
  {
    hide EntriesOf, Leq;
    var doc, rest := DocOf(values, names), DocOf(values, names - {Least(names)});
    if s == Least(names) {
      assert doc[0].name == s;
    } else {
      SectionFound(values, names - {Least(names)}, s);
      var i :| 0 <= i < |rest| && rest[i].name == s;
      assert doc[i + 1] == rest[i];
    }
  }

  /** Sections are written in that order, each once. */
  lemma {:induction false} SectionsAreSorted(values: Values, names: set<bytes>)
    requires names <= values.Keys
    ensures var doc := DocOf(values, names);
      forall i, j | 0 <= i < j < |doc| :: Before(doc[i].name, doc[j].name)
  {
    hide EntriesOf, Leq, Before;
    if names != {} {
      var s := Least(names);
      var doc, rest := DocOf(values, names), DocOf(values, names - {s});
      SectionsAreSorted(values, names - {s});
      SectionNames(values, names - {s});
      DocOneMore(values, names);
      forall i, j | 0 <= i < j < |doc|
        ensures Before(doc[i].name, doc[j].name)
      {
        assert doc[j] == rest[j - 1];
        if i > 0 {
          assert doc[i] == rest[i - 1];
        } else {
          assert IsLeast(s, names);
          LeqIff(s, doc[j].name);
        }
      }
    }
  }

  lemma EntriesOneMore(entries: map<bytes, bytes>, keys: set<bytes>)
    requires keys <= entries.Keys && keys != {}
    ensures var k := Least(keys);
      && k in keys && (forall x | x in keys :: Leq(k, x))
      && EntriesOf(entries, keys) == [Entry(k, entries[k])] + EntriesOf(entries, keys - {k})
  {
  }

  lemma {:induction false} EntryAt(entries: map<bytes, bytes>, keys: set<bytes>, i: nat)
    requires keys <= entries.Keys && i < |EntriesOf(entries, keys)|
    ensures var e := EntriesOf(entries, keys)[i]; e.key in keys && e.value == entries[e.key]
  {
    EntriesOneMore(entries, keys);
    if i > 0 {
      EntryAt(entries, keys - {Least(keys)}, i - 1);
    }
  }

  lemma {:induction false} KeyFound(entries: map<bytes, bytes>, keys: set<bytes>, k: bytes)
    requires keys <= entries.Keys && k in keys
    ensures exists i | 0 <= i < |EntriesOf(entries, keys)| :: EntriesOf(entries, keys)[i].key == k
  {
    EntriesOneMore(entries, keys);
    var es, rest := EntriesOf(entries, keys), EntriesOf(entries, keys - {Least(keys)});
    if k == Least(keys) {
      assert es[0].key == k;
    } else {
      KeyFound(entries, keys - {Least(keys)}, k);
      var i :| 0 <= i < |rest| && rest[i].key == k;
      assert es[i + 1] == rest[i];
    }
  }

  /** Keys likewise. */
  lemma {:induction false} KeysAreSorted(entries: map<bytes, bytes>, keys: set<bytes>, i: nat, j: nat)
    requires keys <= entries.Keys && i < j < |EntriesOf(entries, keys)|
    ensures var es := EntriesOf(entries, keys); Before(es[i].key, es[j].key)
  {
    hide Leq, Before;
    EntriesOneMore(entries, keys);
    var k := Least(keys);
    EntryAt(entries, keys - {k}, j - 1);
    if i > 0 {
      KeysAreSorted(entries, keys - {k}, i - 1, j - 1);
    } else {
      LeqIff(k, EntriesOf(entries, keys)[j].key);
    }
  }

  /** The text of a section and of an entry. */
  lemma PrintedText(s: bytes, es: seq<Entry>, k: bytes, v: bytes, doc: seq<Block>)
    ensures Print([Block(s, es)] + doc) == [91] + s + [93, 10] + PrintEntries(es) + Print(doc)
    ensures PrintEntries([Entry(k, v)] + es) == k + [61] + v + [10] + PrintEntries(es)
  {
    assert ([Block(s, es)] + doc)[1..] == doc && ([Entry(k, v)] + es)[1..] == es;
    assert [93] + [10] == [93, 10];
  }
}
