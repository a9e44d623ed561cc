/** The way from the radio's rate to the bitrate of each camera encoder, in kBit per second and in
    32-bit arithmetic. */
module RateBudget {
  import opened Arithmetic

  newtype int32 = x: int | -0x8000_0000 <= x < 0x8000_0000

  datatype Space = G2_4 | G5_8
  datatype Rates = Rates(mhz10: int32, mhz20: int32, mhz40: int32)

  /** `known`: the card is one of the supported or emulated types. */
  datatype Card = Card(known: bool)

  function Rates5G(mcs: int32): Rates {
    match mcs
    case 0 => Rates(3200 - 300, 5700 - 1000, 10400 - 3000)
    case 1 => Rates(5400 - 300, 10800 - 1000, 18800 - 3500)
    case 2 => Rates(8400 - 800, 15200 - 2000, 26600 - 6000)
    case 3 => Rates(10200 - 800, 19200 - 3000, 30000 - 5000)
    case 4 => Rates(12000 - 1000, 20000, 30000)
    case 5 => Rates(14000 - 1000, 23000, 40000)
    case 6 => Rates(16000 - 1000, 26000, 50000)
    case 7 => Rates(18000 - 1000, 29000, 55000)
    case 8 => Rates(11700 - 3000, 11700 - 3000, 22100 - 4000)
    case 9 => Rates(15000 - 2000, 21000 - 3000, 32000 - 4000)
    case 10 => Rates(18000 - 3000, 25000 - 3000, 37000 - 4000)
    case 11 => Rates(21000 - 3000, 30000 - 3000, 50000 - 4000)
    case 12 => Rates(22000 - 3000, 30000 - 3000, 50000 - 4000)
    case _ => Rates(5000, 5000, 5000)
  }

  function MaxRate5G(card: Card, mcs: int32, width: int32): (r: int32)
    ensures 2900 <= r <= 55000
  {
    if !card.known then 5000
    else if width == 10 then Rates5G(mcs).mhz10
    else if width == 20 then Rates5G(mcs).mhz20
    else if width == 40 then Rates5G(mcs).mhz40
    else 5000
  }

  /** In the 2.4 GHz space the rate is raised by a quarter, although less is meant to be used. */
  function MaxRate(card: Card, space: Space, mcs: int32, width: int32): (r: int32)
    ensures 2900 <= r <= 68750
  {
    var rate := MaxRate5G(card, mcs, width);
    if space == G2_4 then rate * 100 / 80 else rate
  }

  /** A wider channel is faster, and twice as wide strictly so; cards and widths that are not known
      get 5000; the 2.4 GHz space gives five quarters, rounded down. */
  lemma RatesGrow(card: Card, mcs: int32, width: int32)
    ensures card.known && 0 <= mcs <= 12 ==>
      MaxRate5G(card, mcs, 10) <= MaxRate5G(card, mcs, 20) < MaxRate5G(card, mcs, 40)
    ensures !card.known || (width != 10 && width != 20 && width != 40) || mcs < 0 || mcs > 12 ==>
      MaxRate(card, G5_8, mcs, width) == 5000
    ensures MaxRate(card, G5_8, mcs, width) == MaxRate5G(card, mcs, width)
    ensures var r := MaxRate(card, G2_4, mcs, width);
      4 * r <= 5 * MaxRate5G(card, mcs, width) < 4 * (r + 1)
  {
  }

  function MultiplyByPerc(rate: int32, perc: int32): (r: int32)
    requires 0 <= rate && 0 <= perc && rate as int * perc as int < 0x8000_0000
    ensures 100 * r as int <= rate as int * perc as int < 100 * (r as int + 1)
  {
    Scale(rate as int, 0, perc as int);
    rate * perc / 100
  }

  /** The video's part of a budget with `perc` percent of error correction added to it, rounded to
      the nearest number. */
  function DeduceFecOverhead(budget: int, perc: int): (r: int)
    requires 0 <= budget && 0 <= perc
    ensures 2 * r * (100 + perc) <= 200 * budget + (100 + perc) < 2 * (r + 1) * (100 + perc)
  {
    var d := 2 * (100 + perc);
    Quotient(200 * budget + (100 + perc), d);
    (200 * budget + (100 + perc)) / d
  }

  /** `warm`: the thermal protection level is above 0. */
  datatype Settings = Settings(card: Card, space: Space, mcs: int32, width: int32, ratePerc: int32,
                               fecPerc: int32, variable: bool, x20: bool, armed: bool, warm: bool)

  /** What the setters let through. */
  predicate Accepted(s: Settings) {
    5 < s.ratePerc <= 1000 && 0 < s.fecPerc <= 400
  }

  function Budget(s: Settings): (r: int32)
    requires Accepted(s)
    ensures 174 <= r <= 687500
  {
    var rate := MaxRate(s.card, s.space, s.mcs, s.width);
    PercBounds(rate as int, s.ratePerc as int);
    MultiplyByPerc(rate, s.ratePerc)
  }

  /** The budget is the given percentage of the rate, rounded down. */
  lemma BudgetIs(s: Settings)
    requires Accepted(s)
    ensures var product := MaxRate(s.card, s.space, s.mcs, s.width) as int * s.ratePerc as int;
      100 * Budget(s) as int <= product < 100 * (Budget(s) as int + 1)
  {
    PercBounds(MaxRate(s.card, s.space, s.mcs, s.width) as int, s.ratePerc as int);
  }

  lemma PercBounds(rate: int, perc: int)
    requires 2900 <= rate <= 68750 && 6 <= perc <= 1000
    ensures 2900 * 6 <= rate * perc <= 68750 * 1000
  {
    Scale(perc, 2900, rate);
    Scale(perc, rate, 68750);
  }

  /** The rate recommended for video. */
  function VideoRate(s: Settings): (r: int32)
    requires Accepted(s)
    ensures 35 <= r <= Budget(s)
  {
    var b, perc := Budget(s) as int, s.fecPerc as int;
    var r := DeduceFecOverhead(b, perc);
    RateBounds(b, perc, r);
    r as int32
  }

  lemma RateBounds(b: int, perc: int, r: int)
    requires 174 <= b && 0 < perc <= 400
    requires 2 * r * (100 + perc) <= 200 * b + (100 + perc) < 2 * (r + 1) * (100 + perc)
    ensures 35 <= r <= b
  {
    var p := 100 + perc;
    Scale(p, r + 1, 35);
    Scale(p, b + 1, r);
    Scale(b, 100, p);
    assert 2 * r * p == 2 * (p * r) && 2 * (r + 1) * p == 2 * (p * r) + 2 * p;
    assert p * (r + 1) == p * r + p && p * (b + 1) == b * p + p;
  }

  /** The video rate together with its error correction is the budget, up to rounding. */
  lemma VideoRateFitsBudget(s: Settings)
    requires Accepted(s)
    ensures var p, r, b := 100 + s.fecPerc as int, VideoRate(s) as int, Budget(s) as int;
      -p <= 2 * (r * p - 100 * b) <= p
  {
    hide Budget;
    var p, r, b := 100 + s.fecPerc as int, VideoRate(s) as int, Budget(s) as int;
    assert 2 * (r + 1) * p == 2 * (r * p) + 2 * p && 2 * r * p == 2 * (r * p);
  }

  /** The heat protection of one platform. */
  function X20Rate(r: int32, warm: bool, armed: bool): (x: int32)
    requires 35 <= r <= 687500
    ensures 5 <= x <= r && 10 * x <= 7 * r
  {
    var factor := if !armed then 50 else 100;
    if warm then r * 30 / 100 * factor / 100 else r * 70 / 100 * factor / 100
  }

  /** Armed, 30 percent when warm and 70 percent otherwise, rounded down; half of that while not
      armed. */
  lemma HeatFactors(r: int32, warm: bool)
    requires 35 <= r <= 687500
    ensures var x := X20Rate(r, warm, true);
      if warm then 100 * x <= 30 * r < 100 * (x + 1) else 100 * x <= 70 * r < 100 * (x + 1)
    ensures X20Rate(r, warm, false) == X20Rate(r, warm, true) / 2
  {
    var k: int32 := if warm then 30 else 70;
    PercentOf(r as int * k as int);
    FullAndHalf((r * k / 100) as int);
  }

  lemma PercentOf(x: int)
    requires 0 <= x
    ensures 100 * (x / 100) <= x < 100 * (x / 100 + 1)
  {
  }

  lemma FullAndHalf(x: int)
    requires 0 <= x
    ensures x * 100 / 100 == x && x * 50 / 100 == x / 2
  {
  }

  /** What one run of the rate adjustment recommends. A change of the rate goes out unprotected. */
  function Announced(s: Settings, changed: bool): (r: int32)
    requires Accepted(s)
    ensures 5 <= r <= VideoRate(s)
  {
    var rate := VideoRate(s);
    if !changed && s.x20 then X20Rate(rate, s.warm, s.armed) else rate
  }

  /** Heat protection caps the recommendation at seven tenths except right after a change. */
  lemma ProtectedIff(s: Settings, changed: bool)
    requires Accepted(s)
    ensures Announced(s, changed) ==
      if s.x20 && !changed then X20Rate(VideoRate(s), s.warm, s.armed) else VideoRate(s)
    ensures 10 * Announced(s, changed) <= 7 * VideoRate(s) <==> s.x20 && !changed
  {
    hide VideoRate;
  }

  /** The encoder's lower bound: 1000, and 2000 on a Raspberry Pi. */
  predicate IsMinimum(min: int32) {
    min == 1000 || min == 2000
  }

  function Clamped(r: int32, min: int32): int32 {
    if r < min then min else r
  }

  /** Each camera's share before clamping. */
  function Share(r: int32, perc: int32, cameras: nat, index: nat): (x: int32)
    requires 0 < r <= 687500 && 10 <= perc <= 90 && index < cameras <= 2
    ensures 0 <= x <= r
  {
    if cameras == 1 then r
    else if index == 0 then PrimaryShare(r, perc)
    else r - PrimaryShare(r, perc)
  }

  function PrimaryShare(r: int32, perc: int32): (x: int32)
    requires 0 < r <= 687500 && 10 <= perc <= 90
    ensures 0 <= x <= r
    ensures 0 <= r as int * perc as int - 100 * x as int < 100
  {
    ShareBounds(r as int, perc as int);
    r * perc / 100
  }

  lemma ShareBounds(r: int, perc: int)
    requires 0 <= r && 0 <= perc <= 100
    ensures 0 <= r * perc <= 100 * r
    ensures 0 <= r * perc / 100 <= r
  {
    assert r * (100 - perc) >= 0;
  }

  /** The shares add up to the rate and each is within 1 of its percentage. The clamped targets add
      up to the rate exactly when no share is below the minimum, and otherwise exceed it by at most
      twice the minimum. */
  lemma SplitKeepsTotal(r: int32, perc: int32, min: int32)
    requires 0 < r <= 687500 && 10 <= perc <= 90 && IsMinimum(min)
    ensures var (p, q) := (Share(r, perc, 2, 0) as int, Share(r, perc, 2, 1) as int);
            var total := Clamped(p as int32, min) as int + Clamped(q as int32, min) as int;
      && p + q == r as int
      && 0 <= r as int * perc as int - 100 * p < 100
      && 0 <= 100 * q - r as int * (100 - perc as int) < 100
      && (total == r as int <==> min as int <= p && min as int <= q)
      && r as int <= total <= r as int + 2 * min as int
  {
    var x := r as int * perc as int;
    ShareBounds(r as int, perc as int);
    assert r as int * (100 - perc as int) == 100 * r as int - x;
  }

  class CameraStream {
    const minimum: int32
    var target: int32
    var setting: int32
    var persists: nat

    constructor (minimum: int32, setting: int32)
      ensures this.minimum == minimum && this.setting == setting && target == -1 && persists == 0
    {
      this.minimum, this.setting, target, persists := minimum, setting, -1, 0;
    }

    method HandleChangeBitrateRequest(rate: int32)
      modifies this
      ensures target == setting == Clamped(rate, minimum)
      ensures target == if rate >= minimum then rate else minimum
      ensures persists == old(persists) + if setting == old(setting) then 0 else 1
    {
      var kbits := rate;
      if kbits < minimum {
        kbits := minimum;
      }
      target := kbits;
      if setting != kbits {
        setting := kbits;
        persists := persists + 1;
      }
    }
  }

  class VideoAir {
    const streams: seq<CameraStream>
    const primaryPerc: int32

    ghost predicate Valid() {
      && 1 <= |streams| <= 2 && 10 <= primaryPerc <= 90
      && (|streams| == 2 ==> streams[0] != streams[1])
    }

    constructor (streams: seq<CameraStream>, primaryPerc: int32)
      requires 1 <= |streams| <= 2 && 10 <= primaryPerc <= 90
      requires |streams| == 2 ==> streams[0] != streams[1]
      ensures Valid() && this.streams == streams && this.primaryPerc == primaryPerc
    {
      this.streams, this.primaryPerc := streams, primaryPerc;
    }

    /** Stream `i` runs at its clamped share of `rate`. */
    ghost predicate Runs(rate: int32)
      requires Valid() && 0 < rate <= 687500
      reads streams
    {
      forall i | 0 <= i < |streams| ::
        streams[i].target == streams[i].setting ==
        Clamped(Share(rate, primaryPerc, |streams|, i), streams[i].minimum)
    }

    method HandleChangeBitrateRequest(rate: int32)
      requires Valid() && 0 < rate <= 687500
      modifies streams
      ensures Runs(rate)
      ensures forall i | 0 <= i < |streams| ::
        streams[i].persists == old(streams[i].persists) +
                               if streams[i].setting == old(streams[i].setting) then 0 else 1
    {
      hide PrimaryShare;
      if |streams| == 1 {
        streams[0].HandleChangeBitrateRequest(rate);
        return;
      }
      var primary := PrimaryShare(rate, primaryPerc);
      var secondary := rate - primary;
      streams[0].HandleChangeBitrateRequest(primary);
      streams[1].HandleChangeBitrateRequest(secondary);
    }
  }

  /** The link's side of the rate adjustment. */
  class RateAdjuster {
    var maxTotalRate: int32
    var maxVideoRate: int32
    var recommended: int32
    var frequencyChanged: bool
    var lastAnnounced: int32

    ghost predicate Valid()
      reads this
    {
      recommended == maxVideoRate
    }

    constructor ()
      ensures Valid() && maxVideoRate == 0 && !frequencyChanged && lastAnnounced == -1
    {
      maxTotalRate, maxVideoRate, recommended, frequencyChanged, lastAnnounced := 0, 0, 0, false, -1;
    }

    /** No accepted setting makes the recommendation one that would be ignored. */
    method PerformRateAdjustment(s: Settings, video: VideoAir)
      requires Valid() && Accepted(s) && video.Valid()
      modifies this, video.streams
      ensures Valid()
      ensures !s.variable ==> unchanged(this) && unchanged(video.streams)
      ensures s.variable ==>
        && maxTotalRate == Budget(s) && maxVideoRate == VideoRate(s) && !frequencyChanged
        && lastAnnounced == Announced(s, old(frequencyChanged || maxVideoRate != VideoRate(s)))
        && video.Runs(lastAnnounced)
        && forall i | 0 <= i < |video.streams| ::
             video.streams[i].persists == old(video.streams[i].persists) +
               if video.streams[i].setting == old(video.streams[i].setting) then 0 else 1
    {
      if !s.variable {
        return;
      }
      maxTotalRate := Budget(s);
      var rate := VideoRate(s);
      if maxVideoRate != rate || frequencyChanged {
        frequencyChanged := false;
        maxVideoRate := rate;
        recommended := rate;
        RecommendBitrate(recommended, video);
        return;
      }
      if s.x20 {
        RecommendBitrate(X20Rate(recommended, s.warm, s.armed), video);
        return;
      }
      RecommendBitrate(recommended, video);
    }

    method RecommendBitrate(rate: int32, video: VideoAir)
      requires video.Valid() && rate <= 687500
      modifies this`lastAnnounced, video.streams
      ensures rate <= 0 ==> unchanged(this) && unchanged(video.streams)
      ensures rate > 0 ==>
        && lastAnnounced == rate && video.Runs(rate)
        && forall i | 0 <= i < |video.streams| ::
             video.streams[i].persists == old(video.streams[i].persists) +
               if video.streams[i].setting == old(video.streams[i].setting) then 0 else 1
    {
      if rate <= 0 {
        return;
      }
      lastAnnounced := rate;
      video.HandleChangeBitrateRequest(rate);
    }
  }

  /** Any number of further adjustments under unchanged settings leaves every camera as the second
      one left it, and writes each camera's settings once, or twice on the X20. */
  method AdjustRepeatedly(link: RateAdjuster, video: VideoAir, s: Settings, times: nat)
    requires link.Valid() && Accepted(s) && s.variable && video.Valid() && times >= 2
    modifies link, video.streams
    ensures link.Valid() && video.Runs(Announced(s, false))
    ensures forall i | 0 <= i < |video.streams| ::
      video.streams[i].persists <= old(video.streams[i].persists) + if s.x20 then 2 else 1
  {
    link.PerformRateAdjustment(s, video);
    for n := 1 to times
      invariant link.Valid() && link.maxVideoRate == VideoRate(s) && !link.frequencyChanged
      invariant video.Runs(Announced(s, n == 1 && link.lastAnnounced == VideoRate(s)))
      invariant forall i | 0 <= i < |video.streams| ::
        video.streams[i].persists <= old(video.streams[i].persists) +
                                     if s.x20 && n > 1 then 2 else 1
    {
      link.PerformRateAdjustment(s, video);
    }
  }
}
