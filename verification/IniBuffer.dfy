/** The parser as it works: one char buffer that is filled, enlarged and edited in place, with
    pointers into it as indices. Every method is proved against the functions of IniLexer and
    IniFile. */
module IniBuffer {
  import opened Wire
  import opened IniLexer
  import opened IniFile

  /** There is a terminator at or after `p`. */
  predicate Terminated(s: bytes, p: nat) {
    p <= |s| && NUL in s[p..]
  }

  /** The C string that starts at `p`. */
  function StrAt(s: bytes, p: nat): bytes
    requires p <= |s|
  {
    CStr(s[p..])
  }

  lemma {:induction false} CStrEnds(b: bytes)
    requires NUL in b
    ensures |CStr(b)| < |b| && b[|CStr(b)|] == NUL
  {
    if b[0] != NUL {
      CStrEnds(b[1..]);
    }
  }

  lemma StrEnds(s: bytes, p: nat)
    requires Terminated(s, p)
    ensures var t := StrAt(s, p);
      p + |t| < |s| && s[p + |t|] == NUL && s[p..p + |t|] == t && NUL !in t
  {
    CStrEnds(s[p..]);
  }

  lemma {:induction false} CStrIs(b: bytes, n: nat)
    requires n < |b| && b[n] == NUL && NUL !in b[..n]
    ensures CStr(b) == b[..n]
  {
    if n > 0 {
      assert b[0] in b[..n];
      assert b[1..][..n - 1] == b[1..n];
      assert forall x | x in b[1..n] :: x in b[..n];
      CStrIs(b[1..], n - 1);
      assert [b[0]] + b[1..n] == b[..n];
    }
  }

  lemma StrIs(s: bytes, p: nat, n: nat)
    requires p + n < |s| && s[p + n] == NUL && NUL !in s[p..p + n]
    ensures Terminated(s, p) && StrAt(s, p) == s[p..p + n]
  {
    assert s[p..][n] == NUL && s[p..][..n] == s[p..p + n];
    CStrIs(s[p..], n);
  }

  /** A string inside another one. */
  lemma StrSuffix(s: bytes, p: nat, k: nat)
    requires Terminated(s, p) && k <= |StrAt(s, p)|
    ensures Terminated(s, p + k) && StrAt(s, p + k) == StrAt(s, p)[k..]
  {
    StrEnds(s, p);
    var n := |StrAt(s, p)|;
    assert s[p + k..p + n] == StrAt(s, p)[k..];
    StrIs(s, p + k, n - k);
  }

  method StrLen(a: array<byte>, p: nat) returns (n: nat)
    requires Terminated(a[..], p)
    ensures n == |StrAt(a[..], p)|
  {
    StrEnds(a[..], p);
    n := 0;
    while a[p + n] != NUL
      invariant n <= |StrAt(a[..], p)|
      decreases |StrAt(a[..], p)| - n
    {
      assert n < |StrAt(a[..], p)|;
      n := n + 1;
    }
  }

  method RStripAt(a: array<byte>, p: nat)
    requires Terminated(a[..], p)
    modifies a
    ensures Terminated(a[..], p) && StrAt(a[..], p) == RStrip(old(StrAt(a[..], p)))
    ensures forall i | 0 <= i < a.Length && !(p <= i < p + |old(StrAt(a[..], p))|) ::
      a[i] == old(a[i])
  {
    hide StrAt, CStr, RStrip;
    ghost var t := StrAt(a[..], p);
    StrEnds(a[..], p);
    var n := StrLen(a, p);
    var q := p + n;
    while q > p && IsSpace(a[q - 1])
      invariant p <= q <= p + n && a[q] == NUL
      invariant a[..][p..q] == t[..q - p]
      invariant forall i | q - p <= i < n :: IsSpace(t[i])
      invariant forall i | 0 <= i < a.Length && !(p <= i < p + n) :: a[i] == old(a[i])
    {
      assert a[..][p..q][q - p - 1] == a[q - 1];
      q := q - 1;
      a[q] := NUL;
      assert a[..][p..q] == t[..q + 1 - p][..q - p];
    }
    assert q > p ==> a[q - 1] == a[..][p..q][q - p - 1];
    RStripIs(t, t[..q - p]);
    StrIs(a[..], p, q - p);
  }

  lemma BlanksIs(s: bytes, n: nat)
    requires n <= |s| && (forall i | 0 <= i < n :: IsSpace(s[i])) && (n < |s| ==> !IsSpace(s[n]))
    ensures LSkip(s) == s[n..]
  {
    var m := Blanks(s);
    assert !(m < n) && !(n < m);
  }

  method LSkipAt(a: array<byte>, p: nat) returns (q: nat)
    requires Terminated(a[..], p)
    ensures Terminated(a[..], q) && StrAt(a[..], q) == LSkip(StrAt(a[..], p))
  {
    hide CStr;
    ghost var t := StrAt(a[..], p);
    StrEnds(a[..], p);
    q := p;
    while a[q] != NUL && IsSpace(a[q])
      invariant p <= q <= p + |t|
      invariant forall i | 0 <= i < q - p :: IsSpace(t[i])
      decreases p + |t| - q
    {
      assert a[..][p..p + |t|][q - p] == a[q];
      q := q + 1;
    }
    assert q < p + |t| ==> a[..][p..p + |t|][q - p] == a[q];
    BlanksIs(t, q - p);
    StrSuffix(a[..], p, q - p);
  }

  method FindAt(a: array<byte>, p: nat, stops: set<byte>) returns (q: nat)
    requires Terminated(a[..], p)
    ensures q == p + Find(StrAt(a[..], p), stops, false)
    ensures q - p <= |StrAt(a[..], p)| && q < a.Length
    ensures a[q] == if q - p < |StrAt(a[..], p)| then StrAt(a[..], p)[q - p] else NUL
  {
    ghost var t := StrAt(a[..], p);
    StrEnds(a[..], p);
    q := p;
    var wasSpace := false;
    while a[q] != NUL && a[q] !in stops && !(wasSpace && a[q] == SEMICOLON)
      invariant p <= q <= p + |t|
      invariant wasSpace <==> q > p && IsSpace(t[q - p - 1])
      invariant forall i | 0 <= i < q - p :: !StopsAt(t, stops, false, i)
      decreases p + |t| - q
    {
      assert a[..][p..p + |t|][q - p] == a[q];
      wasSpace := IsSpace(a[q]);
      q := q + 1;
    }
    assert q < p + |t| ==> a[..][p..p + |t|][q - p] == a[q];
    FindIs(t, stops, false, q - p);
  }

  /** Cuts the string at `p` off at `q`. */
  method CutAt(a: array<byte>, p: nat, q: nat)
    requires Terminated(a[..], p) && p <= q <= p + |StrAt(a[..], p)| && q < a.Length
    modifies a
    ensures Terminated(a[..], p) && StrAt(a[..], p) == old(StrAt(a[..], p))[..q - p]
    ensures forall i | 0 <= i < a.Length && i != q :: a[i] == old(a[i])
  {
    StrEnds(a[..], p);
    ghost var t := StrAt(a[..], p);
    a[q] := NUL;
    assert a[..][p..q] == t[..q - p];
    StrIs(a[..], p, q - p);
  }

  lemma SameTail(s: bytes, t: bytes, p: nat)
    requires |s| == |t| && Terminated(s, p) && s[p..] == t[p..]
    ensures Terminated(t, p) && StrAt(t, p) == StrAt(s, p)
  {
  }

  /** The name[=:]value branch. */
  method PairAt(a: array<byte>, start: nat) returns (line: Line)
    requires Terminated(a[..], start)
    modifies a
    ensures line == PairLine(old(StrAt(a[..], start)))
  {
    hide StrAt, RStrip, Find, LSkip;
    ghost var before := a[..];
    var end := FindAt(a, start, {EQUALS, COLON});
    if !(a[end] == EQUALS || a[end] == COLON) {
      return Malformed;
    }
    StrSuffix(before, start, end + 1 - start);
    var name := NameAt(a, start, end);
    SameTail(before, a[..], end + 1);
    var value := ValueAt(a, end + 1);
    return Pair(name, value);
  }

  /** Cuts the name off at `end` and leaves what follows alone. */
  method NameAt(a: array<byte>, start: nat, end: nat) returns (name: bytes)
    requires Terminated(a[..], start) && start <= end <= start + |StrAt(a[..], start)|
    requires end < a.Length
    modifies a
    ensures name == RStrip(old(StrAt(a[..], start))[..end - start])
    ensures a[..][end + 1..] == old(a[..])[end + 1..]
  {
    hide StrAt, RStrip;
    CutAt(a, start, end);
    RStripAt(a, start);
    name := ReadStr(a, start);
  }

  method ValueAt(a: array<byte>, value: nat) returns (v: bytes)
    requires Terminated(a[..], value)
    modifies a
    ensures var t := old(StrAt(a[..], value)); v == RStrip(LSkip(t[..Find(t, {}, false)]))
  {
    hide StrAt, RStrip, Find, LSkip;
    var end := FindAt(a, value, {});
    CutAt(a, value, end);
    var start := LSkipAt(a, value);
    RStripAt(a, start);
    v := ReadStr(a, start);
  }

  /** A std::string made of the characters at `p`. */
  method ReadStr(a: array<byte>, p: nat) returns (s: bytes)
    requires Terminated(a[..], p)
    ensures s == StrAt(a[..], p)
  {
    var n := StrLen(a, p);
    StrEnds(a[..], p);
    s := a[p..p + n];
  }

  method SectionAt(a: array<byte>, start: nat) returns (line: Line)
    requires Terminated(a[..], start)
    modifies a
    ensures line == SectionLine(old(StrAt(a[..], start)))
  {
    hide StrAt, Find;
    var end := FindAt(a, start, {CLOSE});
    if a[end] != CLOSE {
      return Malformed;
    }
    CutAt(a, start, end);
    var name := ReadStr(a, start);
    return Section(if |name| <= MAX_SECTION_LENGTH then name else name[..MAX_SECTION_LENGTH]);
  }

  /** The body of the parser's loop up to the handler. */
  method LineAt(a: array<byte>, first: nat) returns (line: Line)
    requires Terminated(a[..], first)
    modifies a
    ensures line == ParseLine(old(StrAt(a[..], first)))
  {
    hide StrAt, RStrip, LSkip, PairLine, SectionLine;
    RStripAt(a, first);
    var start := LSkipAt(a, first);
    StrEnds(a[..], start);
    ghost var t := StrAt(a[..], start);
    assert t != [] ==> a[start] == a[..][start..start + |t|][0] == t[0];
    if a[start] == NUL || a[start] == SEMICOLON || a[start] == HASH {
      return Nothing;
    }
    if a[start] == OPEN {
      StrSuffix(a[..], start, 1);
      line := SectionAt(a, start + 1);
    } else {
      line := PairAt(a, start);
    }
  }

  // ----- the stream loop -----

  /** fgets into `a` at `offset` with room for `num` bytes; false is the null result. */
  method FgetsAt(a: array<byte>, offset: nat, num: nat, stream: bytes) returns (got: bool, rest: bytes)
    requires 1 <= num && offset + num <= a.Length
    modifies a
    ensures got <==> stream != [] || num == 1
    ensures !got ==> rest == stream && a[..] == old(a[..])
    ensures got ==>
      var n := Fgets(stream, num);
      && rest == stream[n..]
      && a[..] == old(a[..])[..offset] + stream[..n] + [NUL] + old(a[..])[offset + n + 1..]
  {
    if stream == [] && num > 1 {
      return false, stream;
    }
    var n := Fgets(stream, num);
    forall i | 0 <= i < n {
      a[offset + i] := stream[i];
    }
    a[offset + n] := NUL;
    return true, stream[n..];
  }

  lemma {:induction false} CStrConcat(line: bytes, chunk: bytes, tail: bytes)
    requires NUL !in line
    ensures CStr(line + chunk + [NUL] + tail) == line + CStr(chunk)
  {
    var b := line + chunk + [NUL] + tail;
    if line != [] {
      assert b[1..] == line[1..] + chunk + [NUL] + tail;
      CStrConcat(line[1..], chunk, tail);
    } else if chunk != [] && chunk[0] != NUL {
      assert b[1..] == [] + chunk[1..] + [NUL] + tail;
      CStrConcat([], chunk[1..], tail);
    }
  }

  lemma StrAtStart(s: bytes)
    ensures StrAt(s, 0) == CStr(s) && (Terminated(s, 0) <==> NUL in s)
  {
    assert s[0..] == s;
  }

  /** What fgets adds to a string that ends at `offset`. */
  lemma Appended(before: bytes, after: bytes, offset: nat, chunk: bytes)
    requires Terminated(before, 0) && offset == |StrAt(before, 0)| && offset + |chunk| < |before|
    requires after == before[..offset] + chunk + [NUL] + before[offset + |chunk| + 1..]
    ensures Terminated(after, 0) && StrAt(after, 0) == StrAt(before, 0) + CStr(chunk)
  {
    hide CStr, StrAt;
    StrEnds(before, 0);
    var line, tail := before[..offset], before[offset + |chunk| + 1..];
    assert line == before[0..offset];
    CStrConcat(line, chunk, tail);
    StrAtStart(after);
    assert after[|line| + |chunk|] == NUL;
  }

  method Realloc(a: array<byte>, size: nat) returns (b: array<byte>)
    requires Terminated(a[..], 0) && a.Length <= size
    ensures fresh(b) && b.Length == size && b[..a.Length] == a[..]
    ensures Terminated(b[..], 0) && StrAt(b[..], 0) == StrAt(a[..], 0)
  {
    StrEnds(a[..], 0);
    ghost var text, n := a[..], |StrAt(a[..], 0)|;
    b := new byte[size](i => NUL);
    forall i | 0 <= i < a.Length {
      b[i] := a[i];
    }
    assert a[..] == text && b[..][0..n] == text[0..n];
    StrIs(b[..], 0, n);
  }

  /** One enlargement: twice the buffer and the next piece of the line. */
  method EnlargeAt(a: array<byte>, offset: nat, size: nat, stream: bytes)
      returns (b: array<byte>, got: bool, rest: bytes)
    requires Terminated(a[..], 0) && offset == |StrAt(a[..], 0)| < a.Length <= size
    ensures fresh(b) && b.Length == size && Terminated(b[..], 0)
    ensures got <==> stream != [] || size == offset + 1
    ensures var n := Fgets(stream, size - offset);
      && rest == stream[n..]
      && StrAt(b[..], 0) == StrAt(a[..], 0) + CStr(stream[..n])
  {
    hide StrAt;
    b := Realloc(a, size);
    ghost var before := b[..];
    got, rest := FgetsAt(b, offset, size - offset, stream);
    ghost var n := Fgets(stream, size - offset);
    if got {
      Appended(before, b[..], offset, stream[..n]);
    } else {
      assert CStr(stream[..n]) == [];
    }
  }

  /** The line in the buffer is complete. */
  predicate IsWhole(line: bytes, maxLine: nat) {
    |line| != maxLine - 1 || line == [] || line[|line| - 1] == NEWLINE
  }

  /** The length of the line in the buffer, and whether it is complete. */
  method LookAt(a: array<byte>) returns (offset: nat, whole: bool)
    requires a.Length > 1 && Terminated(a[..], 0)
    ensures offset == |StrAt(a[..], 0)| < a.Length
    ensures whole <==> IsWhole(StrAt(a[..], 0), a.Length)
  {
    hide StrAt;
    offset := StrLen(a, 0);
    StrEnds(a[..], 0);
    assert offset > 0 ==> a[offset - 1] == a[..][0..offset][offset - 1];
    whole := !(offset == a.Length - 1 && a[offset - 1] != NEWLINE);
  }

  /** The loop that doubles the buffer while the line does not end in it. */
  method GrowAt(line: array<byte>, stream: bytes) returns (larger: array<byte>, rest: bytes)
    requires INITIAL_ALLOC <= line.Length <= MAX_LINE && Terminated(line[..], 0)
    ensures larger == line || fresh(larger)
    ensures INITIAL_ALLOC <= larger.Length <= MAX_LINE && Terminated(larger[..], 0)
    ensures |StrAt(line[..], 0)| < line.Length
    ensures Grow(StrAt(line[..], 0), stream, line.Length) ==
      Read(StrAt(larger[..], 0), rest, larger.Length)
  {
    hide StrAt, Fgets, CStr, Terminated, Grow;
    larger, rest := line, stream;
    var offset, whole := LookAt(larger);
    while !whole
      invariant larger == line || fresh(larger)
      invariant INITIAL_ALLOC <= larger.Length <= MAX_LINE && Terminated(larger[..], 0)
      invariant offset == |StrAt(larger[..], 0)| < larger.Length
      invariant whole <==> IsWhole(StrAt(larger[..], 0), larger.Length)
      invariant Grow(StrAt(line[..], 0), stream, line.Length) ==
        Grow(StrAt(larger[..], 0), rest, larger.Length)
      decreases MAX_LINE - larger.Length
    {
      var maxLine := if 2 * larger.Length > MAX_LINE then MAX_LINE else 2 * larger.Length;
      ghost var text, pending := StrAt(larger[..], 0), rest;
      var got;
      GrowOnce(text, pending, larger.Length);
      larger, got, rest := EnlargeAt(larger, offset, maxLine, rest);
      if !got {
        return;
      }
      if maxLine >= MAX_LINE {
        return;
      }
      offset, whole := LookAt(larger);
    }
    GrowDone(StrAt(larger[..], 0), rest, larger.Length);
  }

  /** The first piece of a line; the null result ends the parser's loop. */
  method FirstPiece(line: array<byte>, stream: bytes) returns (got: bool, rest: bytes)
    requires INITIAL_ALLOC <= line.Length <= MAX_LINE
    modifies line
    ensures got <==> stream != []
    ensures got ==>
      var n := Fgets(stream, line.Length);
      Terminated(line[..], 0) && rest == stream[n..] && StrAt(line[..], 0) == CStr(stream[..n])
  {
    ghost var before := line[..];
    got, rest := FgetsAt(line, 0, line.Length, stream);
    if got {
      ghost var n := Fgets(stream, line.Length);
      CStrConcat([], stream[..n], before[n + 1..]);
      assert line[..][0..] == [] + stream[..n] + [NUL] + before[n + 1..];
    }
  }

  lemma ParseFromUnfolds(stream: bytes, maxLine: nat, lineno: nat, section: bytes, values: Values)
    requires INITIAL_ALLOC <= maxLine <= MAX_LINE && stream != []
    ensures var r := ReadLine(stream, maxLine);
      var v := Process(ParseLine(SkipBom(r.line, lineno + 1)), lineno + 1, section, values);
      ParseFrom(stream, maxLine, lineno, section, values) ==
        if v.Stop? then v.outcome
        else ParseFrom(r.rest, r.maxLine, lineno + 1, v.section, v.values)
  {
  }

  /** One turn of the loop: read a whole line and take it apart. */
  method NextLine(buffer: array<byte>, stream: bytes, lineno: nat)
      returns (line: Line, larger: array<byte>, rest: bytes)
    requires INITIAL_ALLOC <= buffer.Length <= MAX_LINE && stream != []
    modifies buffer
    ensures larger == buffer || fresh(larger)
    ensures INITIAL_ALLOC <= larger.Length <= MAX_LINE
    ensures var r := ReadLine(stream, buffer.Length);
      && line == ParseLine(SkipBom(r.line, lineno)) && rest == r.rest && larger.Length == r.maxLine
  {
    hide StrAt, ParseLine, Grow, Fgets;
    var got;
    got, rest := FirstPiece(buffer, stream);
    larger, rest := GrowAt(buffer, rest);
    StrEnds(larger[..], 0);
    ghost var text := StrAt(larger[..], 0);
    assert larger[..][0..|text|] == text;
    var start := 0;
    if lineno == 1 {
      var bom := StartsWithBom(larger);
      if bom {
        start := 3;
        StrSuffix(larger[..], 0, 3);
      }
    }
    line := LineAt(larger, start);
  }

  method StartsWithBom(a: array<byte>) returns (bom: bool)
    requires Terminated(a[..], 0) && a.Length >= 3
    ensures bom <==> HasBom(StrAt(a[..], 0))
  {
    StrEnds(a[..], 0);
    ghost var t := StrAt(a[..], 0);
    assert forall i | 0 <= i < |t| :: a[i] == a[..][0..|t|][i] == t[i];
    bom := a[0] == 0xEF && a[1] == 0xBB && a[2] == 0xBF;
  }

  /** ini_parse_stream with the value handler of INIReader. */
  method ParseStream(stream: bytes) returns (outcome: Outcome)
    ensures outcome == Parse(stream)
  {
    hide ParseFrom, ReadLine, ParseLine;
    var buffer := new byte[INITIAL_ALLOC](i => NUL);
    var rest, lineno := stream, 0;
    var section: bytes, values: Values := [], map[];
    while rest != []
      invariant fresh(buffer) && INITIAL_ALLOC <= buffer.Length <= MAX_LINE
      invariant ParseFrom(rest, buffer.Length, lineno, section, values) == Parse(stream)
      decreases |rest|
    {
      ParseFromUnfolds(rest, buffer.Length, lineno, section, values);
      var line;
      lineno := lineno + 1;
      line, buffer, rest := NextLine(buffer, rest, lineno);
      match line
      case Nothing =>
      case Section(name) =>
        section := name;
      case Pair(name, value) =>
        var entries := SectionOf(values, section);
        if name in entries && |entries[name]| > 0 {
          return DuplicateKey(section, name);
        }
        values := values[section := entries[name := value]];
      case Malformed =>
        return ParseError(lineno);
    }
    ParseFromEnd(buffer.Length, lineno, section, values);
    return Parsed(values);
  }

  lemma ParseFromEnd(maxLine: nat, lineno: nat, section: bytes, values: Values)
    requires INITIAL_ALLOC <= maxLine <= MAX_LINE
    ensures ParseFrom([], maxLine, lineno, section, values) == Parsed(values)
  {
  }
}
