/** The cutter of GStreamerStream that collects RTP packets into frames. */
module FragmentCutter {
  import opened Wire
  import opened RtpFu

  const MAX_FRAGMENTS: nat := 500

  const H264_IDR := 5
  const H265_IDR_N_LP := 20

  function ExtractNalUnitType(value: byte, codec: Codec): int {
    if codec == H265 then value / 2 % 64 else value % 32
  }

  predicate IsIdrFrame(value: int, codec: Codec) {
    value > 0 &&
    ExtractNalUnitType(value % 256, codec) == if codec == H265 then H265_IDR_N_LP else H264_IDR
  }

  datatype Frame = Frame(fragments: seq<bytes>, idr: bool)

  /** `m_last_fu_s_idr` after one more packet. */
  function IdrAfter(codec: Codec, flag: bool, packet: bytes): bool {
    var info := MoreInfo(codec, packet);
    if info.isFuStart then IsIdrFrame(info.nalUnitType, codec) else flag
  }

  predicate IsEnd(codec: Codec, packet: bytes) {
    MoreInfo(codec, packet).isFuEnd
  }

  class Cutter {
    const codec: Codec
    var frameFragments: seq<bytes>
    var lastFuSIdr: bool
    var out: seq<Frame>

    function View(): Cut
      reads this
    {
      Cut(frameFragments, lastFuSIdr, out)
    }

    constructor (codec: Codec)
      ensures View() == Empty && this.codec == codec
    {
      this.codec := codec;
      frameFragments, lastFuSIdr, out := [], false, [];
    }

    method OnNewRtpFrameFragment(fragment: bytes)
      modifies this
      ensures View() == Feed(codec, old(View()), fragment)
    {
      frameFragments := frameFragments + [fragment];
      var info := MoreInfo(codec, fragment);
      if info.isFuStart {
        if IsIdrFrame(info.nalUnitType, codec) {
          lastFuSIdr := true;
        } else {
          lastFuSIdr := false;
        }
      }
      var isLastFragmentOfFrame := info.isFuEnd;
      if |frameFragments| > MAX_FRAGMENTS {
        isLastFragmentOfFrame := true;
      }
      if isLastFragmentOfFrame {
        out := out + [Frame(frameFragments, lastFuSIdr)];
        frameFragments := [];
        lastFuSIdr := false;
      }
    }

    /** The end of a pipeline run forgets the fragments but not the flag. */
    method CleanUpPipeline()
      modifies this
      ensures View() == old(View()).(pending := [])
    {
      frameFragments := [];
    }
  }

  // ----- the same as a function -----

  datatype Cut = Cut(pending: seq<bytes>, idr: bool, frames: seq<Frame>)

  const Empty := Cut([], false, [])

  function Feed(codec: Codec, c: Cut, packet: bytes): Cut {
    var fragments := c.pending + [packet];
    var flag := IdrAfter(codec, c.idr, packet);
    if IsEnd(codec, packet) || |fragments| > MAX_FRAGMENTS
    then Cut([], false, c.frames + [Frame(fragments, flag)])
    else Cut(fragments, flag, c.frames)
  }

  function FeedAll(codec: Codec, c: Cut, ps: seq<bytes>): Cut {
    if ps == [] then c
    else Feed(codec, FeedAll(codec, c, ps[..|ps| - 1]), ps[|ps| - 1])
  }

  /** The flag after the packets `ps`, starting from `flag`. */
  function IdrOver(codec: Codec, flag: bool, ps: seq<bytes>): bool {
    if ps == [] then flag
    else IdrAfter(codec, IdrOver(codec, flag, ps[..|ps| - 1]), ps[|ps| - 1])
  }

  function Flatten(fs: seq<Frame>): seq<bytes> {
    if fs == [] then [] else Flatten(fs[..|fs| - 1]) + fs[|fs| - 1].fragments
  }

  predicate NoEnd(codec: Codec, ps: seq<bytes>) {
    forall p | p in ps :: !IsEnd(codec, p)
  }

  /** A frame is cut exactly at an FU end or at its 501st fragment, and its flag tells of the FU
      starts inside it only. */
  predicate WellCut(codec: Codec, f: Frame) {
    && 1 <= |f.fragments| <= MAX_FRAGMENTS + 1
    && NoEnd(codec, f.fragments[..|f.fragments| - 1])
    && (IsEnd(codec, f.fragments[|f.fragments| - 1]) || |f.fragments| == MAX_FRAGMENTS + 1)
    && f.idr == IdrOver(codec, false, f.fragments)
  }

  ghost predicate Parted(codec: Codec, c: Cut, ps: seq<bytes>) {
    && Flatten(c.frames) + c.pending == ps
    && (forall f | f in c.frames :: WellCut(codec, f))
    && |c.pending| <= MAX_FRAGMENTS && NoEnd(codec, c.pending)
    && c.idr == IdrOver(codec, false, c.pending)
  }

  lemma FeedParts(codec: Codec, c: Cut, ps: seq<bytes>, p: bytes)
    requires Parted(codec, c, ps)
    ensures Parted(codec, Feed(codec, c, p), ps + [p])
  {
    var fragments, d := c.pending + [p], Feed(codec, c, p);
    assert fragments[..|fragments| - 1] == c.pending;
    assert Flatten(c.frames) + fragments == ps + [p];
    if d.pending == [] {
      var f := Frame(fragments, IdrAfter(codec, c.idr, p));
      assert d.frames[..|d.frames| - 1] == c.frames;
      assert Flatten(d.frames) == Flatten(c.frames) + fragments;
      assert WellCut(codec, f);
    }
  }

  /** Partition: for any packets at all, the frames followed by what is pending are the packets in
      order, every frame is cut where it must be, and nothing pending should have been cut. */
  lemma {:induction false} Partition(codec: Codec, ps: seq<bytes>)
    ensures Parted(codec, FeedAll(codec, Empty, ps), ps)
  {
    if ps != [] {
      var before, p := ps[..|ps| - 1], ps[|ps| - 1];
      Partition(codec, before);
      FeedParts(codec, FeedAll(codec, Empty, before), before, p);
      assert before + [p] == ps;
    }
  }

  /** Frames have 1 to 501 fragments, and at most 500 wait. */
  lemma FrameSizes(codec: Codec, ps: seq<bytes>)
    ensures var c := FeedAll(codec, Empty, ps);
      && |c.pending| <= 500
      && forall f | f in c.frames ::
           && 1 <= |f.fragments| <= 501
           && (IsEnd(codec, f.fragments[|f.fragments| - 1]) || |f.fragments| == 501)
  {
    Partition(codec, ps);
  }

  // ----- recovering the fragmented NAL units -----

  function Stream(codec: Codec, us: seq<Unit>): seq<bytes>
    requires forall u | u in us :: IsUnit(codec, u)
  {
    if us == [] then [] else
      var k := |us| - 1;
      Stream(codec, us[..k]) + Packets(codec, us[k])
  }

  /** The IDR flag a fragmented unit deserves; H265 units never tell their type. */
  function UnitIdr(codec: Codec, u: Unit): bool
    requires u.Fragmented? && IsUnit(codec, u)
  {
    IsIdrFrame(if codec == H264 then u.nalHeader[0] else -1, codec)
  }

  /** What should come out: one frame per fragmented unit, holding also the whole units sent
      since the previous one. */
  function Expected(codec: Codec, us: seq<Unit>): Cut
    requires forall u | u in us :: IsUnit(codec, u)
  {
    if us == [] then Empty else
      var k := |us| - 1;
      var c, u := Expected(codec, us[..k]), us[k];
      if u.Whole? then c.(pending := c.pending + Packets(codec, u))
      else Cut([], false, c.frames + [Frame(c.pending + Packets(codec, u), UnitIdr(codec, u))])
  }

  /** No frame to be has more than 501 fragments, and no more than 500 whole units are waiting. */
  predicate Fits(c: Cut) {
    (forall f | f in c.frames :: |f.fragments| <= MAX_FRAGMENTS + 1) && |c.pending| <= MAX_FRAGMENTS
  }

  lemma {:induction false} FeedWithoutEnd(codec: Codec, c: Cut, ps: seq<bytes>)
    requires NoEnd(codec, ps) && |c.pending| + |ps| <= MAX_FRAGMENTS
    ensures FeedAll(codec, c, ps) ==
      Cut(c.pending + ps, IdrOver(codec, c.idr, ps), c.frames)
  {
    if ps == [] {
      assert c.pending + ps == c.pending;
    } else {
      var before, p := ps[..|ps| - 1], ps[|ps| - 1];
      assert p in ps && forall q | q in before :: q in ps;
      FeedWithoutEnd(codec, c, before);
      assert c.pending + before + [p] == c.pending + ps;
    }
  }

  lemma {:induction false} FeedAllConcat(codec: Codec, c: Cut, a: seq<bytes>, b: seq<bytes>)
    ensures FeedAll(codec, c, a + b) == FeedAll(codec, FeedAll(codec, c, a), b)
  {
    if b == [] {
      assert a + b == a;
    } else {
      assert (a + b)[..|a + b| - 1] == a + b[..|b| - 1];
      FeedAllConcat(codec, c, a, b[..|b| - 1]);
    }
  }

  /** Only the first packet of a fragmented unit moves the flag. */
  lemma {:induction false} UnitIdrOver(codec: Codec, flag: bool, u: Unit, n: nat)
    requires u.Fragmented? && IsUnit(codec, u) && 0 < n <= |u.chunks|
    ensures IdrOver(codec, flag, Packets(codec, u)[..n]) == UnitIdr(codec, u)
  {
    var ps := Packets(codec, u)[..n];
    UnitMarks(codec, u, n - 1);
    assert ps[..n - 1] == Packets(codec, u)[..n - 1];
    if n > 1 {
      UnitIdrOver(codec, flag, u, n - 1);
    }
  }

  lemma FeedUnit(codec: Codec, c: Cut, u: Unit)
    requires IsUnit(codec, u)
    requires u.Whole? ==> |c.pending| < MAX_FRAGMENTS
    requires u.Fragmented? ==> |c.pending| + |u.chunks| <= MAX_FRAGMENTS + 1
    ensures var ps := Packets(codec, u);
      FeedAll(codec, c, ps) ==
        if u.Whole? then c.(pending := c.pending + ps)
        else Cut([], false, c.frames + [Frame(c.pending + ps, UnitIdr(codec, u))])
  {
    if u.Whole? {
      FeedWhole(codec, c, u);
    } else {
      FeedFragments(codec, c, u);
    }
  }

  lemma FeedWhole(codec: Codec, c: Cut, u: Unit)
    requires IsUnit(codec, u) && u.Whole? && |c.pending| < MAX_FRAGMENTS
    ensures var ps := Packets(codec, u);
      FeedAll(codec, c, ps) == c.(pending := c.pending + ps)
  {
    hide MoreInfo, Packets, IsUnit;
    var ps := Packets(codec, u);
    UnitMarks(codec, u, 0);
    FeedWithoutEnd(codec, c, ps);
    assert ps[..0] == [];
  }

  lemma NoEndBefore(codec: Codec, u: Unit)
    requires IsUnit(codec, u) && u.Fragmented?
    ensures var ps := Packets(codec, u); NoEnd(codec, ps[..|ps| - 1])
  {
    hide MoreInfo, Packets;
    var ps := Packets(codec, u);
    forall p | p in ps[..|ps| - 1]
      ensures !IsEnd(codec, p)
    {
      var i :| 0 <= i < |ps| - 1 && ps[i] == p;
      UnitMarks(codec, u, i);
    }
  }

  lemma FeedFragments(codec: Codec, c: Cut, u: Unit)
    requires IsUnit(codec, u) && u.Fragmented?
    requires |c.pending| + |u.chunks| <= MAX_FRAGMENTS + 1
    ensures var ps := Packets(codec, u);
      FeedAll(codec, c, ps) ==
      Cut([], false, c.frames + [Frame(c.pending + ps, UnitIdr(codec, u))])
  {
    hide MoreInfo, Packets, NoEnd, UnitIdr, IdrOver;
    var ps := Packets(codec, u);
    var n := |ps| - 1;
    NoEndBefore(codec, u);
    FeedWithoutEnd(codec, c, ps[..n]);
    UnitMarks(codec, u, n);
    UnitIdrOver(codec, c.idr, u, n);
    assert c.pending + ps[..n] + [ps[n]] == c.pending + ps;
  }

  lemma FitsEarlier(codec: Codec, us: seq<Unit>)
    requires us != [] && forall u | u in us :: IsUnit(codec, u)
    requires Fits(Expected(codec, us))
    ensures var k := |us| - 1;
      var c, u := Expected(codec, us[..k]), us[k];
      && Fits(c)
      && (u.Whole? ==> |c.pending| < MAX_FRAGMENTS)
      && (u.Fragmented? ==> |c.pending| + |u.chunks| <= MAX_FRAGMENTS + 1)
  {
    var k := |us| - 1;
    var c, e, u := Expected(codec, us[..k]), Expected(codec, us), us[k];
    forall f | f in c.frames ensures f in e.frames {}
    if u.Fragmented? {
      var f := Frame(c.pending + Packets(codec, u), UnitIdr(codec, u));
      assert f in e.frames;
    }
  }

  /** FU boundary recovery: for any stream of NAL units sent whole or fragmented, the cutter emits
      exactly one frame per fragmented unit, the whole units riding along with the next one, iff
      no such frame has more than 501 fragments and at most 500 whole units trail. */
  lemma {:induction false} RecoversUnitsIff(codec: Codec, us: seq<Unit>)
    requires forall u | u in us :: IsUnit(codec, u)
    ensures FeedAll(codec, Empty, Stream(codec, us)) == Expected(codec, us)
      <==> Fits(Expected(codec, us))
    ensures var e := Expected(codec, us);
      Fits(e) <==> (forall f | f in e.frames :: |f.fragments| <= 501) && |e.pending| <= 500
  {
    hide IsUnit, IdrOver, MoreInfo, UnitIdr;
    Partition(codec, Stream(codec, us));
    if us != [] && Fits(Expected(codec, us)) {
      var k := |us| - 1;
      FitsEarlier(codec, us);
      RecoversUnitsIff(codec, us[..k]);
      FeedAllConcat(codec, Empty, Stream(codec, us[..k]), Packets(codec, us[k]));
      FeedUnit(codec, Expected(codec, us[..k]), us[k]);
    }
  }

  // ----- pipeline restarts -----

  datatype Event = Packet(data: bytes) | Restart

  /** `lost` are the packets of the frame in progress that restarts have thrown away. */
  datatype Life = Life(cut: Cut, lost: seq<bytes>)

  function Live(codec: Codec, es: seq<Event>): Life {
    if es == [] then Life(Empty, []) else
      var l := Live(codec, es[..|es| - 1]);
      match es[|es| - 1]
      case Packet(p) =>
        var c := Feed(codec, l.cut, p);
        Life(c, if c.frames != l.cut.frames then [] else l.lost)
      case Restart => Life(l.cut.(pending := []), l.lost + l.cut.pending)
  }

  lemma {:induction false} IdrOverConcat(codec: Codec, flag: bool, a: seq<bytes>, b: seq<bytes>)
    ensures IdrOver(codec, flag, a + b) ==
      IdrOver(codec, IdrOver(codec, flag, a), b)
  {
    if b == [] {
      assert a + b == a;
    } else {
      assert (a + b)[..|a + b| - 1] == a + b[..|b| - 1];
      IdrOverConcat(codec, flag, a, b[..|b| - 1]);
    }
  }

  /** With restarts the flag also remembers the packets thrown away since the last frame. */
  lemma {:induction false} FlagOutlivesRestart(codec: Codec, es: seq<Event>)
    ensures var l := Live(codec, es);
      l.cut.idr == IdrOver(codec, false, l.lost + l.cut.pending)
  {
    if es != [] {
      var l := Live(codec, es[..|es| - 1]);
      FlagOutlivesRestart(codec, es[..|es| - 1]);
      match es[|es| - 1]
      case Restart =>
        assert l.lost + l.cut.pending + [] == l.lost + l.cut.pending;
      case Packet(p) =>
        FlagOverPacket(codec, l, p);
    }
  }

  lemma FlagOverPacket(codec: Codec, l: Life, p: bytes)
    requires l.cut.idr == IdrOver(codec, false, l.lost + l.cut.pending)
    ensures var c := Feed(codec, l.cut, p);
      c.idr == IdrOver(codec, false,
                       (if c.frames != l.cut.frames then [] else l.lost) + c.pending)
  {
    hide IdrAfter, IsEnd;
    var c := Feed(codec, l.cut, p);
    var all := l.lost + (l.cut.pending + [p]);
    assert all[..|all| - 1] == l.lost + l.cut.pending;
    assert c.pending == [] ==> |c.frames| > |l.cut.frames| && [] + c.pending == [];
  }

  predicate HasStart(codec: Codec, ps: seq<bytes>) {
    exists p :: p in ps && MoreInfo(codec, p).isFuStart
  }

  lemma {:induction false} StartDecides(codec: Codec, ps: seq<bytes>)
    ensures IdrOver(codec, true, ps) == IdrOver(codec, false, ps)
      <==> HasStart(codec, ps)
  {
    if ps != [] {
      var before, p := ps[..|ps| - 1], ps[|ps| - 1];
      StartDecides(codec, before);
      assert forall q :: q in ps <==> q in before || q == p;
    }
  }

  /** The frame cut by the next packet carries the flag its own FU starts deserve iff it contains
      an FU start, or the packets thrown away since the previous frame did not end on IDR. */
  lemma FlagRightIff(codec: Codec, es: seq<Event>, p: bytes)
    requires var l := Live(codec, es);
      Feed(codec, l.cut, p).frames != l.cut.frames
    ensures var l := Live(codec, es);
      var frames := Feed(codec, l.cut, p).frames;
      var f := frames[|frames| - 1];
      f.idr == IdrOver(codec, false, f.fragments) <==>
        HasStart(codec, f.fragments) || !IdrOver(codec, false, l.lost)
  {
    hide MoreInfo, IsIdrFrame;
    var l := Live(codec, es);
    var fragments := l.cut.pending + [p];
    FlagOutlivesRestart(codec, es);
    IdrOverConcat(codec, false, l.lost, l.cut.pending);
    assert fragments[..|fragments| - 1] == l.cut.pending;
    StartDecides(codec, fragments);
  }

  /** A restart after an IDR start, and then the end of a unit whose start was lost: the frame passes
      for IDR without containing any start. */
  lemma FlagWrongAfterRestart()
    ensures var header := [0, 0, 0, 0, 0, 0, 0, 0, 0, 0, 0, 0];
      var start, end: bytes := header + [124, 133], header + [124, 69];
      && Live(H264, [Packet(start), Restart, Packet(end)]).cut.frames == [Frame([end], true)]
      && !IdrOver(H264, false, [end])
  {
    var header := [0, 0, 0, 0, 0, 0, 0, 0, 0, 0, 0, 0];
    var start, end: bytes := header + [124, 133], header + [124, 69];
    assert MoreInfo(H264, start) == Info(true, false, 101);
    assert MoreInfo(H264, end) == Info(false, true, -1);
    RestartKeepsFlag(start, end);
  }

  lemma RestartKeepsFlag(start: bytes, end: bytes)
    requires MoreInfo(H264, start) == Info(true, false, 101)
    requires MoreInfo(H264, end) == Info(false, true, -1)
    ensures Live(H264, [Packet(start), Restart, Packet(end)]).cut.frames == [Frame([end], true)]
    ensures !IdrOver(H264, false, [end])
  {
    hide MoreInfo;
    var es := [Packet(start), Restart, Packet(end)];
    assert es[..2] == [es[0], es[1]] && [es[0], es[1]][..1] == [es[0]] && [es[0]][..0] == [];
    assert [end][..0] == [];
    assert [start] == [] + [start] && [end] == [] + [end];
    assert Live(H264, [es[0]]).cut == Cut([start], true, []);
    assert Live(H264, [es[0], es[1]]).cut == Cut([], true, []);
  }

  /** A fragmented unit makes an IDR frame exactly when it is an H264 unit of type 5. */
  lemma UnitIdrIff(codec: Codec, u: Unit)
    requires u.Fragmented? && IsUnit(codec, u)
    ensures UnitIdr(codec, u) <==> codec == H264 && u.nalHeader[0] % 32 == H264_IDR
  {
  }

  /** For H265 no type is ever reported, so no frame ever passes for IDR, restarts or not. */
  lemma {:induction false} NoIdrInH265(es: seq<Event>)
    ensures var c := Live(H265, es).cut; !c.idr && forall f | f in c.frames :: !f.idr
  {
    if es != [] {
      NoIdrInH265(es[..|es| - 1]);
    }
  }

  /** Packet `k` is the last start among `ps`, and of type 5. */
  predicate LastStartIsIdr(ps: seq<bytes>, k: nat)
    requires k < |ps|
  {
    && MoreInfo(H264, ps[k]).isFuStart && MoreInfo(H264, ps[k]).nalUnitType % 32 == 5
    && forall j | k < j < |ps| :: !MoreInfo(H264, ps[j]).isFuStart
  }

  lemma LastStartOneMore(ps: seq<bytes>, p: bytes, k: nat)
    requires k <= |ps|
    ensures LastStartIsIdr(ps + [p], k) <==>
      if k == |ps| then MoreInfo(H264, p).isFuStart && MoreInfo(H264, p).nalUnitType % 32 == 5
      else LastStartIsIdr(ps, k) && !MoreInfo(H264, p).isFuStart
  {
    hide MoreInfo;
    var all := ps + [p];
    assert all[|ps|] == p && forall j | 0 <= j < |ps| :: all[j] == ps[j];
  }

  /** The flag of packets `ps` is set exactly when the last start among them is of type 5. */
  lemma {:induction false} IdrIffLastStart(ps: seq<bytes>)
    ensures IdrOver(H264, false, ps) <==> exists k | 0 <= k < |ps| :: LastStartIsIdr(ps, k)
  {
    hide MoreInfo, IsIdrFrame, LastStartIsIdr;
    if ps != [] {
      var n := |ps| - 1;
      var before, p := ps[..n], ps[n];
      assert before + [p] == ps;
      IdrIffLastStart(before);
      TypeOfStart(p);
      forall k | 0 <= k <= n
        ensures LastStartIsIdr(ps, k) <==>
          if k == n then MoreInfo(H264, p).isFuStart && MoreInfo(H264, p).nalUnitType % 32 == 5
          else LastStartIsIdr(before, k) && !MoreInfo(H264, p).isFuStart
      {
        LastStartOneMore(before, p, k);
      }
      assert LastStartIsIdr(ps, n) <==>
        MoreInfo(H264, p).isFuStart && MoreInfo(H264, p).nalUnitType % 32 == 5;
      if k :| 0 <= k < n && LastStartIsIdr(before, k) {
        assert LastStartIsIdr(ps, k) <==> !MoreInfo(H264, p).isFuStart;
      }
    }
  }

  /** The header octet rebuilt from a start. */
  lemma TypeOfStart(p: bytes)
    ensures var info := MoreInfo(H264, p);
      info.isFuStart ==>
        && 0 <= info.nalUnitType < 256
        && (IsIdrFrame(info.nalUnitType, H264) <==> info.nalUnitType % 32 == H264_IDR)
  {
  }
}
