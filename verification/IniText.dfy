/** What each kind of line means, stated on the text itself: 10 is the newline, 13 and 9 and 32 are
    among the blanks, 35 is '#', 58 ':', 59 ';', 61 '=', 91 '[' and 93 ']'. */
module IniText {
  import opened Wire
  import opened IniLexer
  import opened IniFile
  import opened IniRoundTrip

  predicate Blank(b: byte) {
    9 <= b <= 13 || b == 32
  }

  predicate AllBlank(s: bytes) {
    forall b | b in s :: Blank(b)
  }

  /** No semicolon of `s` follows a blank; `after` says whether a blank stands before `s`. */
  predicate NoComment(s: bytes, after: bool) {
    && (s != [] && s[0] == 59 ==> !after)
    && forall i | 0 < i < |s| && s[i] == 59 :: !Blank(s[i - 1])
  }

  predicate NoBlankEdges(s: bytes) {
    s != [] ==> !Blank(s[0]) && !Blank(s[|s| - 1])
  }

  // ----- the lexical conditions in plain words -----

  lemma SectionOkIff(s: bytes)
    ensures SectionOk(s) <==> 0 !in s && 10 !in s && 93 !in s && |s| <= 49 && NoComment(s, false)
  {
    FindAllIff(s, {CLOSE});
  }

  lemma KeyOkIff(k: bytes)
    ensures KeyOk(k) <==>
      && 0 !in k && 10 !in k && 61 !in k && 58 !in k && NoComment(k, false) && NoBlankEdges(k)
      && (k != [] ==> k[0] != 59 && k[0] != 35 && k[0] != 91)
  {
    FindAllIff(k, {EQUALS, COLON});
  }

  lemma ValueOkIff(v: bytes)
    ensures ValueOk(v) <==> 0 !in v && 10 !in v && NoComment(v, false) && NoBlankEdges(v)
  {
    FindAllIff(v, {});
  }

  lemma EntryOkIff(k: bytes, v: bytes)
    ensures EntryOk(k, v) <==> KeyOk(k) && ValueOk(v) && |k| + |v| <= 1998
  {
  }

  lemma FindAllIff(s: bytes, stops: set<byte>)
    ensures Find(s, stops, false) == |s| <==> NoComment(s, false) && forall b | b in s :: b !in stops
  {
    if NoComment(s, false) && forall b | b in s :: b !in stops {
      forall i | 0 <= i < |s|
        ensures !StopsAt(s, stops, false, i)
      {
        assert s[i] in s;
      }
      FindIs(s, stops, false, |s|);
    }
    if Find(s, stops, false) == |s| {
      forall i | 0 <= i < |s|
        ensures s[i] !in stops && (s[i] == 59 ==> !(i > 0 && Blank(s[i - 1])))
      {
        assert !StopsAt(s, stops, false, i);
      }
    }
  }

  // ----- single lines -----

  lemma RStripAppend(a: bytes, b: bytes)
    requires RStrip(b) != []
    ensures RStrip(a + b) == a + RStrip(b)
  {
    var r := a + RStrip(b);
    assert forall i | |r| <= i < |a + b| :: (a + b)[i] == b[i - |a|];
    assert r[|r| - 1] == RStrip(b)[|RStrip(b)| - 1];
    RStripIs(a + b, r);
  }

  lemma BlanksSkipped(pre: bytes, s: bytes)
    requires AllBlank(pre) && (s != [] ==> !Blank(s[0]))
    ensures LSkip(pre + s) == s
  {
    var t := pre + s;
    var n := Blanks(t);
    assert forall i | 0 <= i < |pre| :: t[i] == pre[i] && t[i] in pre;
    assert s != [] ==> t[|pre|] == s[0];
    assert n == |pre|;
  }

  lemma AllBlankIsNothing(pre: bytes)
    requires AllBlank(pre)
    ensures RStrip(pre) == []
  {
    assert forall i | 0 <= i < |pre| :: pre[i] in pre;
    RStripIs(pre, []);
  }

  lemma RStripKeepsFirst(s: bytes)
    requires s != [] && !Blank(s[0])
    ensures RStrip(s) != [] && RStrip(s)[0] == s[0]
  {
    var r := RStrip(s);
    assert !IsSpace(s[0]);
  }

  /** What is left of blanks and a text that begins with no blank. */
  lemma StartOfLine(pre: bytes, s: bytes)
    requires AllBlank(pre) && s != [] && !Blank(s[0])
    ensures RStrip(s) != [] && RStrip(s)[0] == s[0]
    ensures LSkip(RStrip(pre + s)) == RStrip(s)
  {
    RStripKeepsFirst(s);
    RStripAppend(pre, s);
    BlanksSkipped(pre, RStrip(s));
  }

  /** Blank lines, and lines whose first character that is not blank is '#' or ';', say nothing. */
  lemma CommentLine(pre: bytes, c: byte, rest: bytes)
    requires AllBlank(pre) && (c == 35 || c == 59)
    ensures ParseLine(pre + [c] + rest) == Nothing && ParseLine(pre) == Nothing
  {
    var s := [c] + rest;
    assert pre + [c] + rest == pre + s;
    StartOfLine(pre, s);
    AllBlankIsNothing(pre);
  }

  lemma SectionEnds(name: bytes, u: bytes)
    requires 93 !in name && NoComment(name, false)
    ensures SectionLine(name + ([93] + u)) == Section(if |name| <= 49 then name else name[..49])
  {
    var inner := name + ([93] + u);
    assert inner[|name|] == 93;
    forall i | 0 <= i < |name|
      ensures !StopsAt(inner, {CLOSE}, false, i)
    {
      assert name[i] in name && inner[i] == name[i];
      assert i > 0 ==> inner[i - 1] == name[i - 1];
    }
    FindIs(inner, {CLOSE}, false, |name|);
    assert inner[..|name|] == name;
    assert |name| > 49 ==> inner[..49] == name[..49];
  }

  /** `[name]`, with blanks before it and anything behind it. */
  lemma SectionText(pre: bytes, name: bytes, rest: bytes)
    requires AllBlank(pre) && 93 !in name && NoComment(name, false)
    ensures ParseLine(pre + [91] + name + [93] + rest) ==
      Section(if |name| <= 49 then name else name[..49])
  {
    hide RStrip, LSkip, SectionLine, NoComment, AllBlank;
    var head, last := [91] + name, [93] + rest;
    assert pre + [91] + name + [93] + rest == pre + (head + last);
    StartOfLine(pre, head + last);
    RStripKeepsFirst(last);
    RStripAppend(head, last);
    var kept := RStrip(last);
    assert kept == [93] + kept[1..];
    SectionEnds(name, kept[1..]);
    assert (head + kept)[1..] == name + ([93] + kept[1..]);
  }

  /** A section line without ']' and any other line without '=' and ':' are errors. */
  lemma MalformedText(pre: bytes, w: bytes)
    requires AllBlank(pre) && w != [] && !Blank(w[0]) && w[0] != 35 && w[0] != 59
    requires if w[0] == 91 then 93 !in w else 61 !in w && 58 !in w
    ensures ParseLine(pre + w) == Malformed
  {
    hide RStrip, LSkip, AllBlank, SectionLine, PairLine;
    StartOfLine(pre, w);
    var start := RStrip(w);
    assert forall b | b in start :: b in w;
    if w[0] == OPEN {
      assert forall b | b in start[1..] :: b in start;
      NoClosing(start[1..]);
    } else {
      NoSeparator(start);
    }
  }

  lemma NoClosing(s: bytes)
    requires 93 !in s
    ensures SectionLine(s) == Malformed
  {
    var e := Find(s, {CLOSE}, false);
    assert e < |s| ==> s[e] in s;
  }

  lemma NoSeparator(s: bytes)
    requires 61 !in s && 58 !in s
    ensures PairLine(s) == Malformed
  {
    var e := Find(s, {EQUALS, COLON}, false);
    assert e < |s| ==> s[e] in s;
  }

  /** What may follow a value: blanks, then perhaps a semicolon after at least one of them and
      anything. */
  predicate IsTail(t: bytes, p: bytes, rest: bytes) {
    AllBlank(p) && (t == p || (p != [] && t == p + [59] + rest))
  }

  /** What is read as the value from the text behind the separator. */
  lemma ValueText(sp: bytes, value: bytes, t: bytes, p: bytes, rest: bytes)
    requires AllBlank(sp) && NoBlankEdges(value) && NoComment(value, |sp| > 0) && IsTail(t, p, rest)
    ensures var raw := sp + value + t;
      forall u | u <= raw && (u != [] ==> !IsSpace(u[|u| - 1]))
                 && (forall i | |u| <= i < |raw| :: IsSpace(raw[i])) ::
        RStrip(LSkip(u[..Find(u, {}, false)])) == value
  {
    var raw := sp + value + t;
    forall u | u <= raw && (u != [] ==> !IsSpace(u[|u| - 1]))
               && (forall i | |u| <= i < |raw| :: IsSpace(raw[i]))
      ensures RStrip(LSkip(u[..Find(u, {}, false)])) == value
    {
      if t == p {
        BareValue(sp, value, p, u);
      } else {
        CommentedValue(sp, value, p, rest, u);
      }
    }
  }

  lemma NoStops(sp: bytes, value: bytes, p: bytes, i: nat)
    requires AllBlank(sp) && AllBlank(p) && NoComment(value, |sp| > 0)
    requires i < |sp + value + p|
    ensures !StopsAt(sp + value + p, {}, false, i)
  {
    var s := sp + value + p;
    if i < |sp| {
      assert s[i] == sp[i] && sp[i] in sp;
    } else if i < |sp| + |value| {
      var j := i - |sp|;
      assert s[i] == value[j];
      assert j > 0 ==> s[i - 1] == value[j - 1];
    } else {
      assert s[i] == p[i - |sp| - |value|] && p[i - |sp| - |value|] in p;
    }
  }

  lemma StripBoth(sp: bytes, value: bytes, p: bytes)
    requires AllBlank(sp) && AllBlank(p) && NoBlankEdges(value)
    ensures RStrip(LSkip(sp + value + p)) == value
  {
    if value == [] {
      var s := sp + value + p;
      assert s == sp + p && AllBlank(s);
      BlanksSkipped(s, []);
      assert s + [] == s;
    } else {
      assert sp + value + p == sp + (value + p);
      BlanksSkipped(sp, value + p);
      assert forall i | |value| <= i < |value + p| :: (value + p)[i] in p;
      RStripIs(value + p, value);
    }
  }

  lemma NoStopsAtAll(sp: bytes, value: bytes, p: bytes, u: bytes)
    requires AllBlank(sp) && AllBlank(p) && NoComment(value, |sp| > 0)
    requires sp + value + p <= u || u <= sp + value + p
    ensures forall i | 0 <= i < |u| && i < |sp + value + p| :: !StopsAt(u, {}, false, i)
  {
    hide NoComment, AllBlank;
    var front := sp + value + p;
    forall i | 0 <= i < |u| && i < |front|
      ensures !StopsAt(u, {}, false, i)
    {
      NoStops(sp, value, p, i);
      assert u[i] == front[i] && (i > 0 ==> u[i - 1] == front[i - 1]);
    }
  }

  lemma BlankPrefix(p: bytes, n: nat)
    requires AllBlank(p) && n <= |p|
    ensures AllBlank(p[..n])
  {
  }

  lemma WholeFind(sp: bytes, value: bytes, q: bytes)
    requires AllBlank(sp) && AllBlank(q) && NoComment(value, |sp| > 0)
    ensures var u := sp + value + q; u[..Find(u, {}, false)] == u
  {
    var u := sp + value + q;
    NoStopsAtAll(sp, value, q, u);
    FindIs(u, {}, false, |u|);
  }

  lemma BareShape(sp: bytes, value: bytes, p: bytes, u: bytes) returns (q: bytes)
    requires AllBlank(p) && NoBlankEdges(value) && value != [] && u <= sp + value + p
    requires forall i | |u| <= i < |sp + value + p| :: IsSpace((sp + value + p)[i])
    ensures AllBlank(q) && u == sp + value + q
  {
    RestIsBlank(sp, value, p, u);
    q := p[..|u| - |sp| - |value|];
    BlankPrefix(p, |q|);
  }

  lemma BareValue(sp: bytes, value: bytes, p: bytes, u: bytes)
    requires AllBlank(sp) && AllBlank(p) && NoBlankEdges(value) && NoComment(value, |sp| > 0)
    requires var raw := sp + value + p;
      && u <= raw && (u != [] ==> !IsSpace(u[|u| - 1]))
      && (forall i | |u| <= i < |raw| :: IsSpace(raw[i]))
    ensures RStrip(LSkip(u[..Find(u, {}, false)])) == value
  {
    hide *;
    if value == [] {
      NothingBlankLeft(sp, p, u);
      NoText();
    } else {
      var q := BareShape(sp, value, p, u);
      WholeFind(sp, value, q);
      StripBoth(sp, value, q);
    }
  }

  lemma NoText()
    ensures RStrip(LSkip([][..Find([], {}, false)])) == []
  {
  }

  lemma NothingBlankLeft(sp: bytes, p: bytes, u: bytes)
    requires AllBlank(sp) && AllBlank(p) && u <= sp + [] + p && (u != [] ==> !IsSpace(u[|u| - 1]))
    ensures u == []
  {
    forall i | 0 <= i < |u|
      ensures IsSpace(u[i])
    {
      assert u[i] == (sp + p)[i];
      assert if i < |sp| then u[i] in sp else u[i] in p;
    }
  }

  lemma RestIsBlank(sp: bytes, value: bytes, p: bytes, u: bytes)
    requires NoBlankEdges(value) && u <= sp + value + p
    requires forall i | |u| <= i < |sp + value + p| :: IsSpace((sp + value + p)[i])
    ensures value != [] ==> |u| >= |sp| + |value|
  {
    if value != [] {
      assert (sp + value + p)[|sp| + |value| - 1] == value[|value| - 1];
    }
  }

  lemma CommentShape(front: bytes, rest: bytes, u: bytes)
    requires u <= front + ([59] + rest)
    requires forall i | |u| <= i < |front + ([59] + rest)| :: IsSpace((front + ([59] + rest))[i])
    ensures |u| > |front| && u[..|front|] == front && u[|front|] == 59
  {
    var raw := front + ([59] + rest);
    assert raw[|front|] == 59;
  }

  lemma CommentEnds(sp: bytes, value: bytes, p: bytes, u: bytes)
    requires AllBlank(sp) && AllBlank(p) && p != [] && NoComment(value, |sp| > 0)
    requires var n := |sp + value + p|; |u| > n && u[..n] == sp + value + p && u[n] == 59
    ensures u[..Find(u, {}, false)] == sp + value + p
  {
    var front := sp + value + p;
    var n := |front|;
    assert u[n - 1] == u[..n][n - 1] == p[|p| - 1] && p[|p| - 1] in p;
    NoStopsAtAll(sp, value, p, u);
    FindIs(u, {}, false, n);
  }

  lemma Regrouped(sp: bytes, value: bytes, p: bytes, rest: bytes)
    ensures sp + value + (p + [59] + rest) == sp + value + p + ([59] + rest)
  {
  }

  lemma CommentedValue(sp: bytes, value: bytes, p: bytes, rest: bytes, u: bytes)
    requires AllBlank(sp) && AllBlank(p) && p != [] && NoBlankEdges(value)
    requires NoComment(value, |sp| > 0)
    requires var raw := sp + value + (p + [59] + rest);
      u <= raw && (forall i | |u| <= i < |raw| :: IsSpace(raw[i]))
    ensures RStrip(LSkip(u[..Find(u, {}, false)])) == value
  {
    hide *;
    Regrouped(sp, value, p, rest);
    CommentShape(sp + value + p, rest, u);
    CommentEnds(sp, value, p, u);
    StripBoth(sp, value, p);
  }

  /** `key : value ; remark` in all its variants: blanks anywhere around, '=' or ':', with or without
      a remark. */
  lemma PairText(pre: bytes, key: bytes, sp1: bytes, sep: byte, sp2: bytes, value: bytes, t: bytes,
                 p: bytes, rest: bytes)
    requires AllBlank(pre) && AllBlank(sp1) && AllBlank(sp2) && (sep == 61 || sep == 58)
    requires key != [] && NoBlankEdges(key) && NoComment(key, false) && 61 !in key && 58 !in key
    requires key[0] != 35 && key[0] != 59 && key[0] != 91
    requires NoBlankEdges(value) && NoComment(value, |sp2| > 0) && IsTail(t, p, rest)
    ensures ParseLine(pre + key + sp1 + [sep] + sp2 + value + t) == Pair(key, value)
  {
    hide *;
    var name, last := key + sp1, [sep] + (sp2 + value + t);
    assert pre + key + sp1 + [sep] + sp2 + value + t == pre + (name + last);
    NoBlankFirst(key);
    StrippedRaw(sep, sp2 + value + t);
    var u := RStrip(last)[1..];
    PairStart(pre, name, last);
    assert RStrip(last) == [sep] + u;
    ValueText(sp2, value, t, p, rest);
    PairRead(key, sp1, sep, u);
    ParseAsPair(pre + (name + last));
  }

  lemma ParseAsPair(text: bytes)
    requires var start := LSkip(RStrip(text));
      start != [] && start[0] != 59 && start[0] != 35 && start[0] != 91
    ensures ParseLine(text) == PairLine(LSkip(RStrip(text)))
  {
  }

  lemma PairStart(pre: bytes, name: bytes, last: bytes)
    requires AllBlank(pre) && name != [] && !Blank(name[0]) && RStrip(last) != []
    ensures LSkip(RStrip(pre + (name + last))) == name + RStrip(last)
  {
    hide RStrip, LSkip, AllBlank;
    assert (name + last)[0] == name[0];
    StartOfLine(pre, name + last);
    RStripAppend(name, last);
  }

  lemma PairRead(key: bytes, sp1: bytes, sep: byte, u: bytes)
    requires key != [] && NoBlankEdges(key) && NoComment(key, false) && 61 !in key && 58 !in key
    requires AllBlank(sp1) && (sep == 61 || sep == 58)
    ensures PairLine(key + sp1 + ([sep] + u)) ==
      Pair(key, RStrip(LSkip(u[..Find(u, {}, false)])))
  {
    hide NoComment, AllBlank, NoBlankEdges, RStrip, LSkip, Find;
    var name := key + sp1;
    var start := name + ([sep] + u);
    NameEnds(key, sp1, sep, u);
    NameIsKey(key, sp1);
    assert start[|name|] == sep && start[..|name|] == name && start[|name| + 1..] == u;
  }

  lemma NoBlankFirst(s: bytes)
    requires s != [] && NoBlankEdges(s)
    ensures !Blank(s[0])
  {
  }

  lemma StrippedRaw(sep: byte, raw: bytes)
    requires sep == 61 || sep == 58
    ensures RStrip([sep] + raw) != [] && RStrip([sep] + raw)[0] == sep
    ensures var u := RStrip([sep] + raw)[1..];
      && u <= raw && (u != [] ==> !IsSpace(u[|u| - 1]))
      && forall i | |u| <= i < |raw| :: IsSpace(raw[i])
  {
    var all := [sep] + raw;
    RStripKeepsFirst(all);
    hide RStrip;
    var r := RStrip(all);
    var u := r[1..];
    assert all[1..] == raw && u == all[1..|r|] == raw[..|r| - 1];
    assert u != [] ==> u[|u| - 1] == r[|r| - 1];
    forall i | |u| <= i < |raw|
      ensures IsSpace(raw[i])
    {
      assert raw[i] == all[i + 1];
    }
  }

  lemma NameIsKey(key: bytes, sp1: bytes)
    requires key != [] && NoBlankEdges(key) && AllBlank(sp1)
    ensures RStrip(key + sp1) == key
  {
    assert forall i | |key| <= i < |key + sp1| :: (key + sp1)[i] in sp1;
    RStripIs(key + sp1, key);
  }

  lemma NameEnds(key: bytes, sp1: bytes, sep: byte, u: bytes)
    requires key != [] && NoComment(key, false) && 61 !in key && 58 !in key && AllBlank(sp1)
    requires sep == 61 || sep == 58
    ensures Find(key + sp1 + ([sep] + u), {EQUALS, COLON}, false) == |key + sp1|
  {
    var start, n := key + sp1 + ([sep] + u), |key + sp1|;
    assert start[n] == sep;
    forall i | 0 <= i < n
      ensures !StopsAt(start, {EQUALS, COLON}, false, i)
    {
      if i < |key| {
        assert start[i] == key[i] && key[i] in key;
        assert i > 0 ==> start[i - 1] == key[i - 1];
      } else {
        assert start[i] == sp1[i - |key|] && sp1[i - |key|] in sp1;
      }
    }
    FindIs(start, {EQUALS, COLON}, false, n);
  }
}
