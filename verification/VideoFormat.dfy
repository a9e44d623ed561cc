/** Printing and parsing `{width}x{height}@{fps}`. */
module VideoFormat {
  import opened Arithmetic
  import opened Options

  datatype Format = Format(width: int, height: int, fps: int)

  predicate IsDigit(c: char) {
    '0' <= c <= '9'
  }

  predicate AllDigits(s: string) {
    forall c | c in s :: IsDigit(c)
  }

  function ToDecimal(n: nat): (s: string)
    ensures AllDigits(s) && (|s| == 1 <==> n < 10) && s != []
  {
    var last := [('0' as int + n % 10) as char];
    if n < 10 then last else ToDecimal(n / 10) + last
  }

  /** atoi on a text of digits. */
  function FromDecimal(s: string): (n: nat)
    requires AllDigits(s)
  {
    if s == [] then 0
    else
      assert s[|s| - 1] in s;
      10 * FromDecimal(s[..|s| - 1]) + (s[|s| - 1] as int - '0' as int)
  }

  lemma {:induction false} DecimalRoundTrip(n: nat)
    ensures FromDecimal(ToDecimal(n)) == n
  {
    if n >= 10 {
      DecimalRoundTrip(n / 10);
      assert ToDecimal(n)[..|ToDecimal(n)| - 1] == ToDecimal(n / 10);
    }
  }

  function Power10(i: nat): nat {
    if i == 0 then 1 else 10 * Power10(i - 1)
  }

  lemma {:induction false} Power10Positive(i: nat)
    ensures Power10(i) > 0
  {
    if i > 0 {
      Power10Positive(i - 1);
    }
  }

  /** The i-th character from the right is the digit of weight 10 to the power of i, and there is no
      leading zero. */
  lemma {:induction false} DecimalDigits(n: nat, i: nat)
    requires i < |ToDecimal(n)|
    ensures Power10(i) > 0
    ensures ToDecimal(n)[|ToDecimal(n)| - 1 - i] == ('0' as int + n / Power10(i) % 10) as char
    ensures n > 0 ==> ToDecimal(n)[0] != '0'
  {
    Power10Positive(i);
    if n >= 10 {
      if i > 0 {
        DecimalDigits(n / 10, i - 1);
        DivDiv(n, 10, Power10(i - 1));
      } else {
        DecimalDigits(n / 10, 0);
      }
    }
  }

  function Signed(n: int): string {
    if n < 0 then "-" + ToDecimal(-n) else ToDecimal(n)
  }

  function Print(width: int, height: int, fps: int): string {
    Signed(width) + "x" + Signed(height) + "@" + Signed(fps)
  }

  /** Where the digits from `i` on stop. */
  function DigitsEnd(s: string, i: nat): (j: nat)
    requires i <= |s|
    ensures i <= j <= |s| && AllDigits(s[i..j]) && (j < |s| ==> !IsDigit(s[j]))
    decreases |s| - i
  {
    if i < |s| && IsDigit(s[i]) then
      var j := DigitsEnd(s, i + 1);
      assert s[i..j] == [s[i]] + s[i + 1..j];
      j
    else i
  }

  /** The match of (\d*)x(\d*)@(\d*) that begins at `i`. */
  function MatchAt(s: string, i: nat): Option<Format>
    requires i <= |s|
  {
    var j := DigitsEnd(s, i);
    if j == |s| || s[j] != 'x' then None else
      var k := DigitsEnd(s, j + 1);
      if k == |s| || s[k] != '@' then None else
        var l := DigitsEnd(s, k + 1);
        Some(Format(FromDecimal(s[i..j]), FromDecimal(s[j + 1..k]), FromDecimal(s[k + 1..l])))
  }

  /** The leftmost match from `i` on. */
  function Search(s: string, i: nat): Option<Format>
    requires i <= |s|
    decreases |s| - i
  {
    if MatchAt(s, i).Some? then MatchAt(s, i)
    else if i < |s| then Search(s, i + 1)
    else None
  }

  /** A search ends at the first index where a match begins, and fails when there is none. */
  lemma {:induction false} SearchIsLeftmost(s: string, i: nat, k: nat)
    requires i <= k <= |s| && forall n | i <= n < k :: MatchAt(s, n).None?
    ensures MatchAt(s, k).Some? ==> Search(s, i) == MatchAt(s, k)
    ensures k == |s| && MatchAt(s, k).None? ==> Search(s, i).None?
    decreases k - i
  {
    hide MatchAt;
    if i < k {
      SearchIsLeftmost(s, i + 1, k);
    }
  }

  function Parse(text: string): Option<Format> {
    if text == "0x0@0" then Some(Format(0, 0, 0))
    else if |text| <= 5 then None
    else Search(text, 0)
  }

  lemma {:induction false} EndOfDigits(s: string, i: nat, j: nat)
    requires i <= j <= |s| && AllDigits(s[i..j]) && (j < |s| ==> !IsDigit(s[j]))
    ensures DigitsEnd(s, i) == j
    decreases |s| - i
  {
    if i < j {
      assert s[i] in s[i..j];
      assert forall c | c in s[i + 1..j] :: c in s[i..j];
      EndOfDigits(s, i + 1, j);
    }
  }

  lemma MatchFound(s: string, i: nat, j: nat, k: nat)
    requires i <= j < k < |s| && s[j] == 'x' && s[k] == '@'
    requires AllDigits(s[i..j]) && AllDigits(s[j + 1..k])
    ensures MatchAt(s, i) == Some(Format(FromDecimal(s[i..j]), FromDecimal(s[j + 1..k]),
                                         FromDecimal(s[k + 1..DigitsEnd(s, k + 1)])))
  {
    hide FromDecimal, DigitsEnd, AllDigits;
    assert !IsDigit(s[j]) && !IsDigit(s[k]);
    EndOfDigits(s, i, j);
    EndOfDigits(s, j + 1, k);
  }

  lemma DigitsOfTail(s: string, i: nat)
    requires i <= |s|
    ensures s[i..DigitsEnd(s, i)] == s[i..][..DigitsEnd(s[i..], 0)]
  {
    var tail := s[i..];
    var end := DigitsEnd(tail, 0);
    assert s[i..i + end] == tail[..end] == tail[0..end];
    assert end < |tail| ==> tail[end] == s[i + end];
    EndOfDigits(s, i, i + end);
  }

  lemma Slices(front: string, w: string, h: string, tail: string)
    ensures var s, j := front + w + "x" + h + "@" + tail, |front| + |w|;
      var k := j + 1 + |h|;
      && k < |s| && s[|front|..j] == w && s[j] == 'x'
      && s[j + 1..k] == h && s[k] == '@' && s[k + 1..] == tail
  {
  }

  /** Matching at the first digit of the width. */
  lemma MatchText(front: string, w: string, h: string, tail: string)
    requires AllDigits(w) && AllDigits(h)
    ensures MatchAt(front + w + "x" + h + "@" + tail, |front|) ==
      Some(Format(FromDecimal(w), FromDecimal(h), FromDecimal(tail[..DigitsEnd(tail, 0)])))
  {
    hide FromDecimal, MatchAt, DigitsEnd, AllDigits;
    var s, i := front + w + "x" + h + "@" + tail, |front|;
    var k := i + |w| + 1 + |h|;
    Slices(front, w, h, tail);
    MatchFound(s, i, i + |w|, k);
    DigitsOfTail(s, k + 1);
  }

  lemma {:induction false} NothingFrom(s: string, i: nat)
    requires i <= |s| && forall n | i <= n <= |s| :: MatchAt(s, n).None?
    ensures Search(s, i).None?
    decreases |s| - i
  {
    hide MatchAt;
    if i < |s| {
      NothingFrom(s, i + 1);
    }
  }

  lemma NoNegativeHeight(w: string, rest: string, n: nat)
    requires 'x' !in w && 'x' !in rest && n <= |w + "x-" + rest|
    ensures MatchAt(w + "x-" + rest, n).None?
  {
    var s := w + "x-" + rest;
    var j := DigitsEnd(s, n);
    if j < |s| && s[j] == 'x' {
      forall m | 0 <= m < |s| && m != |w|
        ensures s[m] != 'x'
      {
        if m < |w| {
          assert s[m] == w[m];
        } else if m > |w| + 1 {
          assert s[m] == rest[m - |w| - 2];
        }
      }
      EndOfDigits(s, j + 1, j + 1);
    }
  }

  /** What becomes of any three numbers: the sign of the width is lost, a negative rate becomes 0,
      and a negative height or a text of at most five characters is refused. */
  lemma ParsePrint(width: int, height: int, fps: int)
    ensures Parse(Print(width, height, fps)) ==
      if width == 0 && height == 0 && fps == 0 then Some(Format(0, 0, 0))
      else if |Print(width, height, fps)| <= 5 || height < 0 then None
      else Some(Format(if width < 0 then -width else width, height, if fps < 0 then 0 else fps))
  {
    hide Search, Print;
    ZeroText(width, height, fps);
    if height < 0 {
      RefusesNegativeHeight(width, height, fps);
    } else {
      FindsFormat(width, height, fps);
    }
  }

  lemma NoX(n: int)
    ensures 'x' !in Signed(n) && (n < 0 ==> Signed(n) == "-" + ToDecimal(-n))
  {
  }

  lemma RefusesNegativeHeight(width: int, height: int, fps: int)
    requires height < 0
    ensures Search(Print(width, height, fps), 0).None?
  {
    hide MatchAt, Search, Signed;
    NoX(width);
    NoX(fps);
    assert Signed(height) == "-" + ToDecimal(-height) by { NoX(height); }
    var s := Print(width, height, fps);
    var rest := ToDecimal(-height) + "@" + Signed(fps);
    assert s == Signed(width) + "x-" + rest;
    forall n | 0 <= n <= |s|
      ensures MatchAt(s, n).None?
    {
      NoNegativeHeight(Signed(width), rest, n);
    }
    NothingFrom(s, 0);
  }

  lemma FindsFormat(width: int, height: int, fps: int)
    requires height >= 0
    ensures Search(Print(width, height, fps), 0) ==
      Some(Format(if width < 0 then -width else width, height, if fps < 0 then 0 else fps))
  {
    hide FromDecimal, DigitsEnd, ToDecimal;
    var s, size := Print(width, height, fps), if width < 0 then -width else width;
    var front, w := if width < 0 then "-" else "", ToDecimal(size);
    assert s == front + w + "x" + Signed(height) + "@" + Signed(fps);
    MatchText(front, w, Signed(height), Signed(fps));
    RateDigits(fps);
    DecimalRoundTrip(size);
    DecimalRoundTrip(height);
    if width < 0 {
      assert s[0] == '-';
      EndOfDigits(s, 0, 0);
    }
  }

  lemma ZeroText(width: int, height: int, fps: int)
    ensures Print(width, height, fps) == "0x0@0" <==> width == 0 && height == 0 && fps == 0
  {
    var s := Print(width, height, fps);
    if s == "0x0@0" {
      assert |Signed(width)| == 1 && |Signed(height)| == 1;
      assert s[0] == Signed(width)[0] && s[2] == Signed(height)[0] && s[4] == Signed(fps)[0];
    }
  }

  lemma RateDigits(fps: int)
    ensures FromDecimal(Signed(fps)[..DigitsEnd(Signed(fps), 0)]) == if fps < 0 then 0 else fps
  {
    var tail := Signed(fps);
    if fps < 0 {
      EndOfDigits(tail, 0, 0);
    } else {
      EndOfDigits(tail, 0, |tail|);
      assert tail[0..|tail|] == tail[..|tail|] == tail;
      DecimalRoundTrip(fps);
    }
  }

  /** A printed format is read back unless a number is negative or, apart from 0x0@0, every number
      has a single digit. */
  lemma RoundTripIff(width: int, height: int, fps: int)
    ensures Parse(Print(width, height, fps)) == Some(Format(width, height, fps)) <==>
            (width == 0 && height == 0 && fps == 0) ||
            (width >= 0 && height >= 0 && fps >= 0 && (width >= 10 || height >= 10 || fps >= 10))
  {
    ParsePrint(width, height, fps);
  }
}
