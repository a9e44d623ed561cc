/** The 24-byte IEEE 802.11 data header whose addresses carry a nonce, a radio port and the sender's
    identifier. */
module Ieee80211Header {
  import opened Wire

  const SIZE := 24
  const UNIQUE_ID_AIR: byte := 1

  /** Frame control, duration and the receiver address, which are never touched. */
  const CONTROL: bytes := [0x08, 0x01, 0x00, 0x00, 0xFF, 0xFF, 0xFF, 0xFF, 0xFF, 0xFF]

  datatype Fields = Fields(nonce: nat, port: byte, id: byte, sequence: nat)

  predicate Fit(f: Fields) {
    f.nonce < TWO64 && f.sequence < 65536
  }

  /** The nonce is split over the two addresses, port and identifier are in both. */
  function Encode(f: Fields): (b: bytes)
    ensures |b| == SIZE
  {
    var nonce := LittleEndian(f.nonce, 8);
    CONTROL
    + [f.id] + nonce[..4] + [f.port]
    + [f.id] + nonce[4..] + [f.port]
    + LittleEndian(f.sequence, 2)
  }

  function Decode(b: bytes): Fields
    requires |b| == SIZE
  {
    Fields(FromLittleEndian(b[11..15] + b[17..21]), b[15], b[10], FromLittleEndian(b[22..]))
  }

  predicate HasValidAirGndId(b: bytes)
    requires |b| == SIZE
  {
    b[10] == b[16]
  }

  predicate HasValidRadioPort(b: bytes)
    requires |b| == SIZE
  {
    b[15] == b[21]
  }

  predicate IsDataFrame(b: bytes)
    requires |b| == SIZE
  {
    b[0] == 0x08 && b[1] == 0x01
  }

  /** The layout byte by byte. */
  lemma HeaderBytes(f: Fields, i: nat)
    requires i < 4
    ensures var b := Encode(f);
      && b[..4] == [0x08, 0x01, 0, 0] && b[4..10] == [255, 255, 255, 255, 255, 255]
      && b[10] == f.id && b[11 + i] == f.nonce / Pow256(i) % 256 && b[15] == f.port
      && b[16] == f.id && b[17 + i] == f.nonce / Pow256(4 + i) % 256 && b[21] == f.port
      && b[22] == f.sequence % 256 && b[23] == f.sequence / 256 % 256
  {
    hide LittleEndian, Pow256;
    LittleEndianByte(f.nonce, 8, i);
    LittleEndianByte(f.nonce, 8, 4 + i);
    LittleEndianByte(f.sequence, 2, 0);
    LittleEndianByte(f.sequence, 2, 1);
    Pow256Small();
    Places(f.id, f.port, LittleEndian(f.nonce, 8), LittleEndian(f.sequence, 2), i);
  }

  lemma Places(id: byte, port: byte, nonce: bytes, sequence: bytes, i: nat)
    requires |nonce| == 8 && |sequence| == 2 && i < 4
    ensures var b := CONTROL + [id] + nonce[..4] + [port] + [id] + nonce[4..] + [port] + sequence;
      && |b| == 24 && b[..4] == [0x08, 0x01, 0, 0] && b[4..10] == [255, 255, 255, 255, 255, 255]
      && b[10] == id && b[11 + i] == nonce[i] && b[15] == port
      && b[16] == id && b[17 + i] == nonce[4 + i] && b[21] == port
      && b[22] == sequence[0] && b[23] == sequence[1]
  {
    var low, high := nonce[..4], nonce[4..];
    var b := CONTROL + [id] + low + [port] + [id] + high + [port] + sequence;
    assert b[..10] == CONTROL;
    assert b[..4] == CONTROL[..4] && b[4..10] == CONTROL[4..];
    assert b[11 + i] == low[i] && b[17 + i] == high[i];
  }

  lemma Pow256Small()
    ensures Pow256(0) == 1 && Pow256(1) == 256
  {
  }

  lemma Pow256Of2()
    ensures Pow256(2) == 65536
  {
  }

  lemma DecodeEncode(f: Fields)
    requires Fit(f)
    ensures Decode(Encode(f)) == f
    ensures var b := Encode(f); HasValidAirGndId(b) && HasValidRadioPort(b) && IsDataFrame(b)
  {
    var b, nonce := Encode(f), LittleEndian(f.nonce, 8);
    assert b[11..15] == nonce[..4] && b[17..21] == nonce[4..];
    assert nonce[..4] + nonce[4..] == nonce;
    assert b[22..] == LittleEndian(f.sequence, 2);
    Pow256Of8();
    Pow256Of2();
    WordRoundTrip(f.nonce, 8);
    WordRoundTrip(f.sequence, 2);
  }

  lemma Pieces(b: bytes)
    requires |b| == SIZE
    ensures var nonce := b[11..15] + b[17..21];
      nonce[..4] == b[11..15] && nonce[4..] == b[17..21]
    ensures b == b[..10] + [b[10]] + b[11..15] + [b[15]] + [b[16]] + b[17..21] + [b[21]] + b[22..]
  {
  }

  /** The headers a writer can produce are exactly those with the fixed bytes in place that pass
      both checks. */
  lemma WrittenIff(b: bytes)
    requires |b| == SIZE
    ensures (exists f :: Fit(f) && Encode(f) == b) <==>
            b[..10] == CONTROL && HasValidAirGndId(b) && HasValidRadioPort(b)
  {
    hide LittleEndian, FromLittleEndian, Pow256;
    if b[..10] == CONTROL && HasValidAirGndId(b) && HasValidRadioPort(b) {
      var f := Decode(b);
      Pow256Of8();
      Pow256Of2();
      BytesRoundTrip(b[11..15] + b[17..21]);
      BytesRoundTrip(b[22..]);
      Pieces(b);
      assert Fit(f) && Encode(f) == b;
    }
    if f :| Fit(f) && Encode(f) == b {
      DecodeEncode(f);
      assert b[..10] == CONTROL;
    }
  }

  function Splice(b: bytes, at: nat, src: bytes): (r: bytes)
    requires at + |src| <= |b|
    ensures |r| == |b|
  {
    b[..at] + src + b[at + |src|..]
  }

  lemma NonceSpliced(f: Fields, nonce: nat)
    ensures var word := LittleEndian(nonce, 8);
      Splice(Splice(Encode(f), 11, word[..4]), 17, word[4..]) == Encode(f.(nonce := nonce))
  {
    hide LittleEndian, Splice;
    var was, word := LittleEndian(f.nonce, 8), LittleEndian(nonce, 8);
    var start, middle := CONTROL + [f.id], [f.port] + [f.id];
    var end := [f.port] + LittleEndian(f.sequence, 2);
    assert Encode(f) == start + was[..4] + (middle + was[4..] + end);
    Replaced(start, was[..4], middle + was[4..] + end, word[..4]);
    assert start + word[..4] + (middle + was[4..] + end) ==
           (start + word[..4] + middle) + was[4..] + end;
    Replaced(start + word[..4] + middle, was[4..], end, word[4..]);
    assert Encode(f.(nonce := nonce)) == (start + word[..4] + middle) + word[4..] + end;
  }

  lemma Replaced(a: bytes, was: bytes, c: bytes, src: bytes)
    requires |was| == |src|
    ensures Splice(a + was + c, |a|, src) == a + src + c
  {
    assert (a + was + c)[..|a|] == a;
    assert (a + was + c)[|a| + |src|..] == c;
  }

  /** The member initializers. */
  const INITIAL: bytes := CONTROL
    + [UNIQUE_ID_AIR, 0, 0, 0, 0, 0] + [UNIQUE_ID_AIR, 0, 0, 0, 0, 0] + [0, 0]

  lemma InitialFields()
    ensures INITIAL == Encode(Fields(0, 0, UNIQUE_ID_AIR, 0))
  {
    Zeros(8);
    Zeros(2);
  }

  /** Copies `src` over `data` from index `at` on. */
  method CopyBytes(data: array<byte>, at: nat, src: bytes)
    requires at + |src| <= data.Length
    modifies data
    ensures data[..] == Splice(old(data[..]), at, src)
  {
    for i := 0 to |src|
      invariant forall k | 0 <= k < data.Length ::
        data[k] == if at <= k < at + i then src[k - at] else old(data[k])
    {
      data[at + i] := src[i];
    }
  }

  class Header {
    const data: array<byte>
    ghost var fields: Fields

    ghost predicate Valid()
      reads this, data
    {
      Fit(fields) && data.Length == SIZE && data[..] == Encode(fields)
    }

    constructor ()
      ensures Valid() && fresh(data) && fields == Fields(0, 0, UNIQUE_ID_AIR, 0)
    {
      hide LittleEndian;
      data := new byte[SIZE](i requires 0 <= i < SIZE => INITIAL[i]);
      fields := Fields(0, 0, UNIQUE_ID_AIR, 0);
      new;
      InitialFields();
    }

    method WriteNonce(nonce: nat)
      requires Valid() && nonce < TWO64
      modifies this, data
      ensures Valid() && fields == old(fields).(nonce := nonce)
    {
      hide Splice, Encode;
      NonceSpliced(fields, nonce);
      var word := LittleEndian(nonce, 8);
      CopyBytes(data, 11, word[..4]);
      CopyBytes(data, 17, word[4..]);
      fields := fields.(nonce := nonce);
    }

    method GetNonce() returns (nonce: nat)
      requires Valid()
      ensures nonce == fields.nonce
    {
      DecodeEncode(fields);
      assert data[11..15] == data[..][11..15] && data[17..21] == data[..][17..21];
      nonce := FromLittleEndian(data[11..15] + data[17..21]);
    }

    method WriteRadioPortSrcDst(port: byte)
      requires Valid()
      modifies this, data
      ensures Valid() && fields == old(fields).(port := port)
    {
      data[15] := port;
      data[21] := port;
      fields := fields.(port := port);
    }

    method WriteUniqueIdSrcDst(id: byte)
      requires Valid()
      modifies this, data
      ensures Valid() && fields == old(fields).(id := id)
    {
      data[10] := id;
      data[16] := id;
      fields := fields.(id := id);
    }

    method WriteIeee80211SeqNr(sequence: nat)
      requires Valid() && sequence < 65536
      modifies this, data
      ensures Valid() && fields == old(fields).(sequence := sequence)
    {
      var word := [sequence % 256, sequence / 256 % 256];
      assert word == LittleEndian(sequence, 2);
      CopyBytes(data, 22, word);
      fields := fields.(sequence := sequence);
    }

    method GetValidAirGndId() returns (id: byte)
      requires Valid()
      ensures id == fields.id && HasValidAirGndId(data[..])
    {
      id := data[10];
    }

    method GetValidRadioPort() returns (port: byte)
      requires Valid()
      ensures port == fields.port && HasValidRadioPort(data[..])
    {
      port := data[15];
    }
  }

  lemma {:induction false} Zeros(width: nat)
    ensures LittleEndian(0, width) == seq(width, _ => 0)
  {
    if width > 0 {
      Zeros(width - 1);
    }
  }
}
