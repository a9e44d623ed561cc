/** What a channel scan looks for and what it reports, for arbitrary radio observations. */
module ChannelScan {
  import opened Arithmetic
  import opened Wire
  import opened Options
  import opened Management

  /** What the radio shows on one visit. `supported` and `applied` say whether some card supports
      the channel and whether tuning succeeded. `frames` came in until the scan loaded the reported
      frequency and `late` until it loaded the width; `leftover` is the frequency of an earlier
      frame that was stored between or after the two resets of the report. */
  datatype Observation = Observation(supported: bool, applied: bool, nValidPackets: nat,
                                     leftover: Option<int>, frames: seq<bytes>, late: seq<bytes>)

  /** What the scan reads of the report: frequency first, width afterwards. */
  function Seen(o: Observation): Report {
    var reset := Report(if o.leftover.Some? then o.leftover.value else -1, -1);
    Report(Reports(reset, o.frames).frequency, Reports(reset, o.frames + o.late).width)
  }

  type Air = nat -> Observation

  const WIDTHS: seq<nat> := [40, 10]

  datatype Result = Result(success: bool, frequency: int, width: int)
  datatype Progress = Progress(frequency: int, width: int, success: bool, percent: int)

  function ChannelOf(channels: seq<nat>, visit: nat): nat
    requires visit < 2 * |channels|
  {
    channels[visit / 2]
  }

  /** The detection test on visit number `visit`; visits go through both widths per channel. */
  predicate Hit(channels: seq<nat>, air: Air, visit: nat)
    requires visit < 2 * |channels|
  {
    var o := air(visit);
    && o.supported && o.applied
    && o.nValidPackets > 0 && Seen(o).frequency > 0
    && (Seen(o).width == 10 || Seen(o).width == 20 || Seen(o).width == 40)
    && ChannelOf(channels, visit) == Seen(o).frequency
  }

  predicate NoHitBefore(channels: seq<nat>, air: Air, visit: nat)
    requires visit <= 2 * |channels|
  {
    forall v: nat | v < visit :: !Hit(channels, air, v)
  }

  /** The scan is `visits` visits in: it has just found the first hit, or found none so far. */
  ghost predicate Scanned(channels: seq<nat>, air: Air, r: Result, visits: nat) {
    && visits <= 2 * |channels|
    && if r.success then
         && visits > 0 && Hit(channels, air, visits - 1) && NoHitBefore(channels, air, visits - 1)
         && r == Result(true, ChannelOf(channels, visits - 1), Seen(air(visits - 1)).width)
       else
         r == Result(false, 0, 0) && NoHitBefore(channels, air, visits)
  }

  /** `r` is the first hit in scan order, or reports failure when there is none. */
  ghost predicate IsScanResult(channels: seq<nat>, air: Air, r: Result, visits: nat) {
    Scanned(channels, air, r, visits) && (r.success || visits == 2 * |channels|)
  }

  /** Success holds iff some visit is a hit, and the observations decide the result. */
  lemma ScanResultUnique(channels: seq<nat>, air: Air, r1: Result, v1: nat, r2: Result, v2: nat)
    requires IsScanResult(channels, air, r1, v1) && IsScanResult(channels, air, r2, v2)
    ensures r1 == r2 && v1 == v2
    ensures r1.success <==> exists v: nat :: v < 2 * |channels| && Hit(channels, air, v)
  {
    if r1.success && r2.success {
      assert !(v1 - 1 < v2 - 1) && !(v2 - 1 < v1 - 1);
    }
  }

  /** The progress reports of the first `visits` visits: one for each visit that tuned. */
  function ReportsOf(channels: seq<nat>, air: Air, visits: nat): seq<Progress>
    requires visits <= 2 * |channels|
  {
    if visits == 0 then [] else
      var v := visits - 1;
      ReportsOf(channels, air, v) +
        if air(v).supported && air(v).applied
        then [Progress(ChannelOf(channels, v), WIDTHS[v % 2], false,
                       ProgressPercent(v / 2, |channels|))]
        else []
  }

  /** Where a unit listens. */
  datatype Tuning = Tuning(frequency: nat, width: int, passive: bool)

  /** Where the first `visits` visits listened: every visit that tuned did so once. */
  function TuningsOf(channels: seq<nat>, air: Air, visits: nat): (r: seq<Tuning>)
    requires visits <= 2 * |channels|
    ensures |r| == |ReportsOf(channels, air, visits)|
  {
    if visits == 0 then [] else
      var v := visits - 1;
      TuningsOf(channels, air, v) +
        if air(v).supported && air(v).applied
        then [Tuning(ChannelOf(channels, v), WIDTHS[v % 2], true)]
        else []
  }

  lemma OneMoreTuning(channels: seq<nat>, air: Air, v: nat)
    requires v < 2 * |channels|
    ensures var o := air(v);
      && ReportsOf(channels, air, v + 1) == ReportsOf(channels, air, v) +
           (if o.supported && o.applied
            then [Progress(channels[v / 2], WIDTHS[v % 2], false, ProgressPercent(v / 2, |channels|))]
            else [])
      && TuningsOf(channels, air, v + 1) == TuningsOf(channels, air, v) +
           (if o.supported && o.applied then [Tuning(channels[v / 2], WIDTHS[v % 2], true)] else [])
  {
  }

  predicate Tunes(air: Air, visit: nat) {
    air(visit).supported && air(visit).applied
  }

  /** Every visit that tunes listens on its own channel, in passive mode, with 40 MHz on the first
      visit of a channel and 10 MHz on the second, and reports just that. */
  lemma {:induction false} VisitAt(channels: seq<nat>, air: Air, visits: nat, v: nat)
    requires v < visits <= 2 * |channels| && Tunes(air, v)
    ensures var k := |TuningsOf(channels, air, v)|;
      var width := if v % 2 == 0 then 40 else 10;
      && k < |TuningsOf(channels, air, visits)|
      && TuningsOf(channels, air, visits)[k] == Tuning(channels[v / 2], width, true)
      && ReportsOf(channels, air, visits)[k] ==
           Progress(channels[v / 2], width, false, ProgressPercent(v / 2, |channels|))
  {
    hide ReportsOf, TuningsOf, ProgressPercent;
    OneMoreTuning(channels, air, visits - 1);
    if v < visits - 1 {
      VisitAt(channels, air, visits - 1, v);
    }
  }

  /** Nothing else is listened to. */
  lemma {:induction false} ListeningIsAVisit(channels: seq<nat>, air: Air, visits: nat, k: nat)
      returns (v: nat)
    requires visits <= 2 * |channels| && k < |TuningsOf(channels, air, visits)|
    ensures v < visits && Tunes(air, v) && k == |TuningsOf(channels, air, v)|
  {
    v := visits - 1;
    if k < |TuningsOf(channels, air, v)| {
      v := ListeningIsAVisit(channels, air, v, k);
    }
  }

  /** One more visit of a scan without a hit so far. */
  lemma NextVisit(channels: seq<nat>, air: Air, visit: nat)
    requires visit < 2 * |channels| && Scanned(channels, air, Result(false, 0, 0), visit)
    ensures Scanned(channels, air,
                    if Hit(channels, air, visit)
                    then Result(true, ChannelOf(channels, visit), Seen(air(visit)).width)
                    else Result(false, 0, 0), visit + 1)
  {
  }

  lemma NoReportsRise()
    ensures Rising([])
  {
  }

  /** The last report of a scan keeps the percentages rising. */
  lemma FinalReportRises(channels: seq<nat>, air: Air, visits: nat, last: Progress)
    requires visits <= 2 * |channels| && last.percent == 100
    ensures Rising(ReportsOf(channels, air, visits) + [last])
  {
    ReportsRise(channels, air, visits);
  }

  /** A reported channel is one of the scanned ones, and its width is 20 or 40 and came from a
      frame heard on that very visit. */
  lemma SuccessIsOnAScannedChannel(channels: seq<nat>, air: Air, r: Result, visits: nat)
    requires IsScanResult(channels, air, r, visits) && r.success
    ensures visits > 0 && r.frequency == channels[(visits - 1) / 2] > 0
    ensures r.width == 20 || r.width == 40
    ensures exists frame | frame in air(visits - 1).frames + air(visits - 1).late ::
              Heard(frame).Some? && Heard(frame).value.width == r.width
  {
    var o := air(visits - 1);
    ReportedWidth(Report(if o.leftover.Some? then o.leftover.value else -1, -1), o.frames + o.late);
  }

  /** ... and its frequency was carried by a frame of that visit as well, or left over from just
      before it. */
  lemma SuccessWasAnnounced(channels: seq<nat>, air: Air, r: Result, visits: nat)
    requires IsScanResult(channels, air, r, visits) && r.success
    ensures var o := air(visits - 1);
      || o.leftover == Some(r.frequency)
      || exists frame | frame in o.frames :: Heard(frame).Some? && Heard(frame).value.frequency == r.frequency
  {
    var o := air(visits - 1);
    ReportedFrequency(Report(if o.leftover.Some? then o.leftover.value else -1, -1), o.frames);
  }

  /** A visit that tunes, gets valid packets, and last hears its own channel announced with 20 or
      40 MHz is a hit. */
  lemma AnnouncedChannelIsFound(channels: seq<nat>, air: Air, visit: nat, earlier: seq<bytes>,
                                width: byte)
    requires visit < 2 * |channels| && 0 < channels[visit / 2] < 0x8000_0000
    requires width == 20 || width == 40
    requires var o := air(visit);
      && o.supported && o.applied && o.nValidPackets > 0 && o.late == []
      && o.frames == earlier + [PackBandwidth(channels[visit / 2], width)]
    ensures Hit(channels, air, visit)
  {
    AnnouncementHeard(channels[visit / 2], width);
    var o := air(visit);
    assert o.frames + o.late == o.frames;
  }

  /** An announcement of 10 MHz. */
  ghost predicate IsNarrow(frame: bytes) {
    exists f: nat :: f < 0x1_0000_0000 && frame == PackBandwidth(f, 10)
  }

  lemma NarrowIsNotHeard(frame: bytes)
    ensures IsNarrow(frame) ==> Heard(frame).None?
  {
    if f: nat :| f < 0x1_0000_0000 && frame == PackBandwidth(f, 10) {
      AnnouncementHeard(f, 10);
    }
  }

  /** A scan never finds an air unit that announces 10 MHz, although it looks for one. */
  lemma NarrowAirIsNeverFound(channels: seq<nat>, air: Air, r: Result, visits: nat)
    requires IsScanResult(channels, air, r, visits)
    requires forall v: nat | v < 2 * |channels| ::
               forall frame | frame in air(v).frames + air(v).late :: IsNarrow(frame)
    ensures !r.success
  {
    forall frame: bytes {
      NarrowIsNotHeard(frame);
    }
    if r.success {
      SuccessIsOnAScannedChannel(channels, air, r, visits);
    }
  }

  /** calculate_progress_perc with lround's half-up rounding over the rationals. */
  function ProgressPercent(progress: nat, total: nat): int {
    if progress >= total then 100 else (200 * progress + total) / (2 * total)
  }

  lemma QuotientMonotone(a: nat, b: nat, d: nat)
    requires d > 0 && a <= b
    ensures a / d <= b / d
  {
    Quotient(a, d);
    Quotient(b, d);
    Scale(d, b / d + 1, a / d);
  }

  /** The percentage is the one nearest to progress / total, halves upwards. */
  lemma ProgressIsNearest(progress: nat, total: nat)
    requires progress < total
    ensures var p := ProgressPercent(progress, total);
      total * (2 * p - 1) <= 200 * progress < total * (2 * p + 1)
  {
    Quotient(200 * progress + total, 2 * total);
    var p := ProgressPercent(progress, total);
    assert 2 * total * p == total * (2 * p);
  }

  lemma AtMost100(total: nat)
    requires total > 0
    ensures (201 * total - 1) / (2 * total) <= 100
  {
    Quotient(201 * total - 1, 2 * total);
    Scale(2 * total, 101, (201 * total - 1) / (2 * total));
  }

  lemma ProgressMonotone(p: nat, q: nat, total: nat)
    requires p <= q
    ensures 0 <= ProgressPercent(p, total) <= ProgressPercent(q, total) <= 100
  {
    if p < total {
      QuotientMonotone(200 * p + total, 201 * total - 1, 2 * total);
      AtMost100(total);
      if q < total {
        QuotientMonotone(200 * p + total, 200 * q + total, 2 * total);
        QuotientMonotone(200 * q + total, 201 * total - 1, 2 * total);
      }
    }
  }

  /** Reported percentages never fall and stay within 0..100. */
  ghost predicate Rising(ps: seq<Progress>) {
    && (forall i | 0 <= i < |ps| :: 0 <= ps[i].percent <= 100)
    && (forall i, j | 0 <= i <= j < |ps| :: ps[i].percent <= ps[j].percent)
  }

  lemma PercentsRise(percents: seq<int>, total: nat)
    requires |percents| == total
    requires forall j | 0 <= j < total :: percents[j] == ProgressPercent(j + 1, total)
    ensures forall i, j | 0 <= i <= j < total :: 0 <= percents[i] <= percents[j] <= 100
    ensures total > 0 ==> percents[total - 1] == 100
  {
    forall i, j | 0 <= i <= j < total
      ensures 0 <= percents[i] <= percents[j] <= 100
    {
      ProgressMonotone(i + 1, j + 1, total);
    }
  }

  lemma {:induction false} ReportsRise(channels: seq<nat>, air: Air, visits: nat)
    requires visits <= 2 * |channels|
    ensures Rising(ReportsOf(channels, air, visits))
    ensures forall p | p in ReportsOf(channels, air, visits) ::
      p.percent <= ProgressPercent(visits / 2, |channels|) <= 100
  {
    if visits > 0 {
      ReportsRise(channels, air, visits - 1);
      ProgressMonotone((visits - 1) / 2, visits / 2, |channels|);
    }
  }
}
