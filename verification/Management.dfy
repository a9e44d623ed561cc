/** The management frames by which the air unit announces its channel. */
module Management {
  import opened Wire
  import opened Options

  const ID_CHANNEL_WIDTH: byte := 0

  /** int from uint32_t. */
  function ToInt32(u: nat): int {
    if u < 0x8000_0000 then u else u - 0x1_0000_0000
  }

  function PackBandwidth(centerFrequency: nat, bandwidth: byte): bytes {
    [ID_CHANNEL_WIDTH] + LittleEndian(centerFrequency, 4) + [bandwidth]
  }

  /** The layout on air: identifier, four bytes of frequency from the low end, width. */
  lemma BandwidthBytes(frequency: nat, width: byte)
    ensures PackBandwidth(frequency, width) ==
      [0, frequency % 256, frequency / 256 % 256, frequency / 65536 % 256,
       frequency / 0x100_0000 % 256, width]
  {
    LittleEndianByte(frequency, 4, 0);
    LittleEndianByte(frequency, 4, 1);
    LittleEndianByte(frequency, 4, 2);
    LittleEndianByte(frequency, 4, 3);
    assert Pow256(2) == 65536 && Pow256(3) == 0x100_0000;
  }

  predicate AcceptedWidth(width: int) {
    width == 20 || width == 40
  }

  datatype Report = Report(frequency: int, width: int)

  class ManagementAir {
    var currFrequency: nat
    var currWidth: byte

    constructor (initialFrequency: nat, initialWidth: byte)
      ensures currFrequency == initialFrequency && currWidth == initialWidth
    {
      currFrequency, currWidth := initialFrequency, initialWidth;
    }

    method SetFrequency(frequency: nat)
      modifies this
      ensures currFrequency == frequency && currWidth == old(currWidth)
    {
      currFrequency := frequency;
    }

    method SetChannelWidth(width: byte)
      modifies this
      ensures currWidth == width && currFrequency == old(currFrequency)
    {
      currWidth := width;
    }
  }

  class ManagementGround {
    var reportedFrequency: int
    var reportedWidth: int

    constructor ()
      ensures reportedFrequency == -1 && reportedWidth == -1
    {
      reportedFrequency, reportedWidth := -1, -1;
    }

    function Current(): Report
      reads this
    {
      Report(reportedFrequency, reportedWidth)
    }

    method OnNewManagementPacket(data: bytes)
      modifies this
      ensures var r := Heard(data);
        && (r.Some? ==> reportedFrequency == r.value.frequency && reportedWidth == r.value.width)
        && (r.None? ==> reportedFrequency == old(reportedFrequency)
                        && reportedWidth == old(reportedWidth))
      ensures forall f: nat, x: byte | f < 0x8000_0000 && (x == 20 || x == 40) ::
        data == PackBandwidth(f, x) ==> reportedFrequency == f && reportedWidth == x
    {
      forall f: nat, x: byte | f < 0x8000_0000 && (x == 20 || x == 40) && data == PackBandwidth(f, x)
        ensures Heard(data) == Some(Report(f, x))
      {
        AnnouncementHeard(f, x);
      }
      if |data| == 6 && data[0] == ID_CHANNEL_WIDTH {
        var frequency, bandwidth := FromLittleEndian(data[1..5]), data[5];
        if bandwidth == 20 || bandwidth == 40 {
          reportedWidth := bandwidth;
          reportedFrequency := ToInt32(frequency);
        }
      }
    }

    /** The receiver thread handles some frames. */
    method Listen(frames: seq<bytes>)
      modifies this
      ensures Current() == Reports(old(Current()), frames)
    {
      for n := 0 to |frames|
        invariant Current() == Reports(old(Current()), frames[..n])
      {
        assert frames[..n + 1][..n] == frames[..n];
        OnNewManagementPacket(frames[n]);
      }
      assert frames[..|frames|] == frames;
    }
  }

  /** The pair a received frame stores, if it stores one. */
  function Heard(data: bytes): Option<Report> {
    if |data| == 6 && data[0] == ID_CHANNEL_WIDTH && AcceptedWidth(data[5])
    then Some(Report(ToInt32(FromLittleEndian(data[1..5])), data[5]))
    else None
  }

  /** The report after some more frames. */
  function Reports(start: Report, frames: seq<bytes>): Report {
    if frames == [] then start else
      var last := Heard(frames[|frames| - 1]);
      if last.Some? then last.value else Reports(start, frames[..|frames| - 1])
  }

  lemma {:induction false} ReportsConcat(start: Report, a: seq<bytes>, b: seq<bytes>)
    ensures Reports(start, a + b) == Reports(Reports(start, a), b)
  {
    if b == [] {
      assert a + b == a;
    } else {
      assert (a + b)[..|a + b| - 1] == a + b[..|b| - 1];
      ReportsConcat(start, a, b[..|b| - 1]);
    }
  }

  /** A reported width is the initial one or comes from a frame, and then it is 20 or 40. */
  lemma {:induction false} ReportedWidth(start: Report, frames: seq<bytes>)
    ensures var x := Reports(start, frames).width;
      || x == start.width
      || exists frame | frame in frames :: Heard(frame).Some? && Heard(frame).value.width == x
  {
    if frames != [] {
      assert frames[|frames| - 1] in frames;
      ReportedWidth(start, frames[..|frames| - 1]);
    }
  }

  lemma {:induction false} ReportedFrequency(start: Report, frames: seq<bytes>)
    ensures var f := Reports(start, frames).frequency;
      || f == start.frequency
      || exists frame | frame in frames :: Heard(frame).Some? && Heard(frame).value.frequency == f
  {
    if frames != [] {
      assert frames[|frames| - 1] in frames;
      ReportedFrequency(start, frames[..|frames| - 1]);
    }
  }

  /** The ground stores exactly the announced pair, provided the width is 20 or 40: an air unit
      on 10 MHz announces to deaf ears. */
  lemma AnnouncementHeard(frequency: nat, width: byte)
    requires frequency < 0x1_0000_0000
    ensures Heard(PackBandwidth(frequency, width)) ==
      if width != 20 && width != 40 then None
      else if frequency < 0x8000_0000 then Some(Report(frequency, width))
      else Some(Report(frequency - 0x1_0000_0000, width))
  {
    var data := PackBandwidth(frequency, width);
    assert Pow256(4) == 0x1_0000_0000 by { assert Pow256(2) == 65536; }
    WordRoundTrip(frequency, 4);
    assert data[1..5] == LittleEndian(frequency, 4);
  }

  /** Frames of the other kind and corrupted lengths are never taken for an announcement. */
  lemma OnlyAnnouncementsHeard(data: bytes)
    ensures Heard(data).Some? ==>
      exists f: nat, w: byte :: f < 0x1_0000_0000 && AcceptedWidth(w) && data == PackBandwidth(f, w)
  {
    if Heard(data).Some? {
      BytesRoundTrip(data[1..5]);
      assert Pow256(4) == 0x1_0000_0000 by { assert Pow256(2) == 65536; }
      var f := FromLittleEndian(data[1..5]);
      assert f < Pow256(|data[1..5]|);
      assert data == PackBandwidth(f, data[5]);
    }
  }
}
