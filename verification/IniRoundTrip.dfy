/** INIWriter::write, and when reading back what it wrote gives the same map. */
module IniRoundTrip {
  import opened Wire
  import opened IniLexer
  import opened IniFile

  // ----- the order of std::set<std::string> -----

  predicate Leq(a: bytes, b: bytes) {
    a == [] || (b != [] && (a[0] < b[0] || (a[0] == b[0] && Leq(a[1..], b[1..]))))
  }

  lemma {:induction false} LeqTotal(a: bytes, b: bytes)
    ensures Leq(a, b) || Leq(b, a)
  {
    if a != [] && b != [] && a[0] == b[0] { LeqTotal(a[1..], b[1..]); }
  }

  lemma {:induction false} LeqAntisymmetric(a: bytes, b: bytes)
    requires Leq(a, b) && Leq(b, a)
    ensures a == b
  {
    if a != [] {
      LeqAntisymmetric(a[1..], b[1..]);
      assert a == [a[0]] + a[1..] && b == [b[0]] + b[1..];
    }
  }

  lemma {:induction false} LeqTransitive(a: bytes, b: bytes, c: bytes)
    requires Leq(a, b) && Leq(b, c)
    ensures Leq(a, c)
  {
    if a != [] && a[0] == b[0] == c[0] { LeqTransitive(a[1..], b[1..], c[1..]); }
  }

  predicate IsLeast(m: bytes, s: set<bytes>) {
    m in s && forall x | x in s :: Leq(m, x)
  }

  lemma LeastUnique(a: bytes, b: bytes, s: set<bytes>)
    requires IsLeast(a, s) && IsLeast(b, s)
    ensures a == b
  {
    assert Leq(a, b) && Leq(b, a);
    LeqAntisymmetric(a, b);
  }

  lemma {:induction false} LeastExists(s: set<bytes>) returns (m: bytes)
    requires s != {}
    ensures IsLeast(m, s)
  {
    var a :| a in s;
    m := a;
    LeqTotal(a, a);
    if s != {a} {
      var b := LeastExists(s - {a});
      LeqTotal(a, b);
      m := if Leq(a, b) then a else b;
      forall x | x in s ensures Leq(m, x) {
        if x != a && m == a { LeqTransitive(a, b, x); }
      }
    }
  }

  ghost function Least(s: set<bytes>): (m: bytes)
    requires s != {}
    ensures IsLeast(m, s)
  {
    assert exists m :: IsLeast(m, s) by { var m := LeastExists(s); }
    var m :| IsLeast(m, s);
    m
  }

  // ----- what is written -----

  datatype Entry = Entry(key: bytes, value: bytes)
  datatype Block = Block(name: bytes, entries: seq<Entry>)

  function PrintEntries(es: seq<Entry>): bytes {
    if es == [] then []
    else KeyValue(es[0].key, es[0].value) + [NEWLINE] + PrintEntries(es[1..])
  }

  function Print(doc: seq<Block>): bytes {
    if doc == [] then []
    else Header(doc[0].name) + [NEWLINE] + PrintEntries(doc[0].entries) + Print(doc[1..])
  }

  ghost function EntriesOf(entries: map<bytes, bytes>, keys: set<bytes>): seq<Entry>
    requires keys <= entries.Keys
  {
    if keys == {} then [] else
      var k := Least(keys);
      [Entry(k, entries[k])] + EntriesOf(entries, keys - {k})
  }

  ghost function DocOf(values: Values, names: set<bytes>): seq<Block>
    requires names <= values.Keys
  {
    if names == {} then [] else
      var s := Least(names);
      [Block(s, EntriesOf(values[s], values[s].Keys))] + DocOf(values, names - {s})
  }

  ghost function Written(values: Values): bytes {
    Print(DocOf(values, values.Keys))
  }

  /** INIWriter::write onto an opened stream: sections and keys in the order of the sets. */
  method Write(values: Values) returns (out: bytes)
    ensures out == Written(values)
  {
    out := [];
    var sections := values.Keys;
    while sections != {}
      invariant sections <= values.Keys
      invariant out + Print(DocOf(values, sections)) == Written(values)
      decreases |sections|
    {
      hide Header, PrintEntries, EntriesOf, Leq;
      assert IsLeast(Least(sections), sections);
      var section :| IsLeast(section, sections);
      LeastUnique(section, Least(sections), sections);
      var text := WriteSection(section, values[section]);
      assert out + (text + Print(DocOf(values, sections - {section}))) == Written(values);
      out := out + text;
      sections := sections - {section};
    }
  }

  method WriteSection(section: bytes, entries: map<bytes, bytes>) returns (out: bytes)
    ensures out == Header(section) + [NEWLINE] + PrintEntries(EntriesOf(entries, entries.Keys))
  {
    out := [OPEN] + section + [CLOSE] + [NEWLINE];
    var keys := entries.Keys;
    while keys != {}
      invariant keys <= entries.Keys
      invariant out + PrintEntries(EntriesOf(entries, keys)) ==
        Header(section) + [NEWLINE] + PrintEntries(EntriesOf(entries, entries.Keys))
      decreases |keys|
    {
      assert IsLeast(Least(keys), keys);
      var key :| IsLeast(key, keys);
      LeastUnique(key, Least(keys), keys);
      var text := key + [EQUALS] + entries[key] + [NEWLINE];
      assert out + (text + PrintEntries(EntriesOf(entries, keys - {key}))) ==
        out + PrintEntries(EntriesOf(entries, keys));
      out := out + text;
      keys := keys - {key};
    }
  }

  // ----- reading it back -----

  lemma ParseOnce(stream: bytes, maxLine: nat, lineno: nat, section: bytes, values: Values, text: bytes)
    requires INITIAL_ALLOC <= maxLine <= MAX_LINE && stream != []
    requires text == SkipBom(ReadLine(stream, maxLine).line, lineno + 1)
    requires Process(ParseLine(text), lineno + 1, section, values).Go?
    ensures var r := ReadLine(stream, maxLine);
      var v := Process(ParseLine(text), lineno + 1, section, values);
      ParseFrom(stream, maxLine, lineno, section, values) ==
      ParseFrom(r.rest, r.maxLine, lineno + 1, v.section, v.values)
  {
  }

  /** One complete line is consumed and acted on, even one that fills the buffer exactly. */
  lemma LineStep(line: bytes, rest: bytes, maxLine: nat, lineno: nat, section: bytes, values: Values)
      returns (m: nat, n: nat)
    requires INITIAL_ALLOC <= maxLine <= MAX_LINE
    requires Clean(line) && NUL !in rest && |line| < MAX_LINE && (lineno == 0 ==> !HasBom(line))
    requires Process(ParseLine(line), lineno + 1, section, values).Go?
    ensures INITIAL_ALLOC <= m <= MAX_LINE && n > lineno
    ensures var v := Process(ParseLine(line), lineno + 1, section, values);
      ParseFrom(line + [NEWLINE] + rest, maxLine, lineno, section, values) ==
      ParseFrom(rest, m, n, v.section, v.values)
  {
    hide ParseFrom, ParseLine, Process, ReadLine;
    var stream := line + [NEWLINE] + rest;
    assert LineLength(stream) == |line| + 1 by { assert stream[|line|] == NEWLINE; }
    ReadLineTakesLine(stream, maxLine);
    var r := ReadLine(stream, maxLine);
    var v := Process(ParseLine(line), lineno + 1, section, values);
    m, n := r.maxLine, lineno + 1;
    if |line| < MAX_LINE - 1 {
      assert r.line == line + [NEWLINE] && r.rest == rest;
      NewlineIsStripped(line);
      assert HasBom(r.line) ==> HasBom(line);
      ParseOnce(stream, maxLine, lineno, section, values, r.line);
    } else {
      assert r.line == line && r.rest == [NEWLINE] + rest;
      ParseOnce(stream, maxLine, lineno, section, values, line);
      m, n := BlankStep(rest, r.maxLine, lineno + 1, v.section, v.values);
    }
  }

  lemma BlankStep(rest: bytes, maxLine: nat, lineno: nat, section: bytes, values: Values)
      returns (m: nat, n: nat)
    requires INITIAL_ALLOC <= maxLine <= MAX_LINE && NUL !in rest && lineno > 0
    ensures INITIAL_ALLOC <= m <= MAX_LINE && n > lineno
    ensures ParseFrom([NEWLINE] + rest, maxLine, lineno, section, values) ==
      ParseFrom(rest, m, n, section, values)
  {
    var stream := [NEWLINE] + rest;
    ReadLineTakesLine(stream, maxLine);
    var r := ReadLine(stream, maxLine);
    assert r.line == [NEWLINE] && r.rest == rest;
    NewlineIsStripped([]);
    assert [] + [NEWLINE] == [NEWLINE];
    ParseOnce(stream, maxLine, lineno, section, values, [NEWLINE]);
    m, n := r.maxLine, lineno + 1;
  }

  function AddEntries(section: bytes, es: seq<Entry>, values: Values): Values {
    if es == [] then values else
      AddEntries(section, es[1..],
                 values[section := SectionOf(values, section)[es[0].key := es[0].value]])
  }

  function AddDoc(doc: seq<Block>, values: Values): Values {
    if doc == [] then values
    else AddDoc(doc[1..], AddEntries(doc[0].name, doc[0].entries, values))
  }

  ghost predicate EntriesOk(es: seq<Entry>, present: map<bytes, bytes>) {
    && (forall e | e in es :: EntryOk(e.key, e.value) && e.key !in present)
    && (forall i, j | 0 <= i < j < |es| :: es[i].key != es[j].key)
  }

  lemma {:induction false} PrintEntriesClean(es: seq<Entry>, present: map<bytes, bytes>)
    requires EntriesOk(es, present)
    ensures NUL !in PrintEntries(es)
  {
    if es != [] {
      assert es[0] in es;
      PrintEntriesClean(es[1..], present);
    }
  }

  lemma {:induction false} EntriesStep(es: seq<Entry>, rest: bytes, maxLine: nat, lineno: nat,
                                       section: bytes, values: Values)
      returns (m: nat, n: nat)
    requires INITIAL_ALLOC <= maxLine <= MAX_LINE && lineno > 0 && NUL !in rest
    requires EntriesOk(es, SectionOf(values, section))
    ensures INITIAL_ALLOC <= m <= MAX_LINE && n > 0
    ensures ParseFrom(PrintEntries(es) + rest, maxLine, lineno, section, values) ==
      ParseFrom(rest, m, n, section, AddEntries(section, es, values))
  {
    hide ParseFrom, ParseLine, ReadLine, KeyOk, ValueOk;
    m, n := maxLine, lineno;
    if es == [] {
      assert PrintEntries(es) + rest == rest;
    } else {
      var e := es[0];
      assert e in es;
      var tail := PrintEntries(es[1..]) + rest;
      PrintEntriesClean(es[1..], SectionOf(values, section));
      PairRoundTrip(e.key, e.value);
      var present := SectionOf(values, section)[e.key := e.value];
      var next := values[section := present];
      m, n := LineStep(KeyValue(e.key, e.value), tail, maxLine, lineno, section, values);
      assert PrintEntries(es) + rest == KeyValue(e.key, e.value) + [NEWLINE] + tail;
      assert EntriesOk(es[1..], present) by {
        forall f | f in es[1..] ensures f in es && f.key != e.key {}
      }
      m, n := EntriesStep(es[1..], rest, m, n, section, next);
    }
  }

  ghost predicate DocOk(doc: seq<Block>, values: Values) {
    && (forall b | b in doc :: SectionOk(b.name) && b.name !in values && EntriesOk(b.entries, map[]))
    && (forall i, j | 0 <= i < j < |doc| :: doc[i].name != doc[j].name)
  }

  lemma {:induction false} PrintClean(doc: seq<Block>, values: Values)
    requires DocOk(doc, values)
    ensures NUL !in Print(doc)
  {
    if doc != [] {
      assert doc[0] in doc;
      PrintEntriesClean(doc[0].entries, map[]);
      PrintClean(doc[1..], values);
    }
  }

  lemma {:induction false} AddEntriesKeys(section: bytes, es: seq<Entry>, values: Values, s: bytes)
    requires s != section
    ensures s in AddEntries(section, es, values) <==> s in values
  {
    if es != [] {
      AddEntriesKeys(section, es[1..],
                     values[section := SectionOf(values, section)[es[0].key := es[0].value]], s);
    }
  }

  lemma {:induction false} DocStep(doc: seq<Block>, maxLine: nat, lineno: nat, section: bytes,
                                   values: Values)
    requires INITIAL_ALLOC <= maxLine <= MAX_LINE && DocOk(doc, values)
    ensures ParseFrom(Print(doc), maxLine, lineno, section, values) == Parsed(AddDoc(doc, values))
  {
    hide ParseLine, ReadLine, PrintEntries, AddEntries, SectionOk, EntryOk;
    if doc != [] {
      var b := doc[0];
      assert b in doc;
      PrintClean(doc[1..], values);
      PrintEntriesClean(b.entries, map[]);
      HeaderRoundTrip(b.name);
      var tail := PrintEntries(b.entries) + Print(doc[1..]);
      var m, n := LineStep(Header(b.name), tail, maxLine, lineno, section, values);
      assert Print(doc) == Header(b.name) + [NEWLINE] + tail;
      assert EntriesOk(b.entries, SectionOf(values, b.name));
      m, n := EntriesStep(b.entries, Print(doc[1..]), m, n, b.name, values);
      var next := AddEntries(b.name, b.entries, values);
      assert DocOk(doc[1..], next) by {
        forall c | c in doc[1..] ensures c in doc && c.name !in next {
          AddEntriesKeys(b.name, b.entries, values, c.name);
        }
      }
      DocStep(doc[1..], m, n, b.name, next);
    }
  }

  // ----- the listing of a map -----

  lemma {:induction false} EntriesOfAre(entries: map<bytes, bytes>, keys: set<bytes>, present: map<bytes, bytes>)
    requires keys <= entries.Keys && keys !! present.Keys
    requires forall k | k in keys :: EntryOk(k, entries[k])
    ensures EntriesOk(EntriesOf(entries, keys), present)
    ensures forall e | e in EntriesOf(entries, keys) :: e.key in keys
  {
    if keys != {} {
      EntriesOfAre(entries, keys - {Least(keys)}, present);
    }
  }

  lemma {:induction false} AddEntriesOf(section: bytes, entries: map<bytes, bytes>, keys: set<bytes>, values: Values)
    requires keys <= entries.Keys && keys != {}
    ensures AddEntries(section, EntriesOf(entries, keys), values) ==
      values[section := SectionOf(values, section) + map k | k in keys :: entries[k]]
  {
    hide Leq;
    var k := Least(keys);
    var present := SectionOf(values, section);
    var next := values[section := present[k := entries[k]]];
    assert EntriesOf(entries, keys)[1..] == EntriesOf(entries, keys - {k});
    MergeOneEntry(entries, keys, k, present);
    if keys - {k} == {} {
      assert present[k := entries[k]] == present + map j | j in keys :: entries[j];
    } else {
      AddEntriesOf(section, entries, keys - {k}, next);
    }
  }

  lemma MergeOneEntry(entries: map<bytes, bytes>, keys: set<bytes>, k: bytes, present: map<bytes, bytes>)
    requires keys <= entries.Keys && k in keys
    ensures present[k := entries[k]] + (map j | j in keys - {k} :: entries[j]) ==
      present + map j | j in keys :: entries[j]
  {
  }

  lemma {:induction false} DocOfIs(values: Values, names: set<bytes>, present: Values)
    requires Storable(values) && names <= values.Keys && names !! present.Keys
    ensures DocOk(DocOf(values, names), present)
    ensures forall b | b in DocOf(values, names) :: b.name in names
  {
    hide SectionOk, EntryOk, EntriesOf, EntriesOk;
    if names != {} {
      var s := Least(names);
      DocOfIs(values, names - {s}, present);
      EntriesOfAre(values[s], values[s].Keys, map[]);
    }
  }

  lemma MergeOneMore(values: Values, names: set<bytes>, s: bytes, present: Values)
    requires names <= values.Keys && s in names
    ensures present[s := values[s]] + (map t | t in names - {s} :: values[t]) ==
      present + map t | t in names :: values[t]
  {
  }

  lemma {:induction false} AddDocOf(values: Values, names: set<bytes>, present: Values)
    requires Storable(values) && names <= values.Keys && names !! present.Keys
    ensures AddDoc(DocOf(values, names), present) == present + map s | s in names :: values[s]
  {
    hide SectionOk, EntryOk, EntriesOf, AddEntries;
    if names != {} {
      var s := Least(names);
      var doc := DocOf(values, names);
      assert doc[1..] == DocOf(values, names - {s});
      AddEntriesOf(s, values[s], values[s].Keys, present);
      assert SectionOf(present, s) + (map k | k in values[s].Keys :: values[s][k]) == values[s];
      AddDocOf(values, names - {s}, present[s := values[s]]);
      MergeOneMore(values, names, s, present);
    }
  }

  /** The exact round trip: reading back what was written gives no error and the same map iff no
      section is empty and every name and value is storable. */
  lemma RoundTripIff(values: Values)
    ensures Parse(Written(values)) == Parsed(values) <==> Storable(values)
  {
    hide ParseFrom, Print, DocOf, AddDoc, BlockOk, DocOk;
    ParsedIsStorable(Written(values), INITIAL_ALLOC, 0, [], map[]);
    if Storable(values) {
      DocOfIs(values, values.Keys, map[]);
      DocStep(DocOf(values, values.Keys), INITIAL_ALLOC, 0, [], map[]);
      AddDocOf(values, values.Keys, map[]);
      assert map[] + (map s | s in values.Keys :: values[s]) == values;
    }
  }

  /** Whatever file the parser accepts, writing the result and parsing again changes nothing: one
      pass makes the text canonical. */
  lemma Canonical(stream: bytes)
    requires Parse(stream).Parsed?
    ensures Parse(Written(Parse(stream).values)) == Parse(stream)
  {
    ParsedIsStorable(stream, INITIAL_ALLOC, 0, [], map[]);
    RoundTripIff(Parse(stream).values);
  }
}
