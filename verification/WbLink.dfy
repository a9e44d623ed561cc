/** The part of WBLink that tunes the cards. All of it runs on the work thread; the user's
    listen-only callback (ground only, taken as atomic) may run whenever the work thread sleeps,
    and the receiver thread may store reports at any time. */
module WbLinks {
  import opened Wire
  import opened Management
  import opened ChannelScan

  /** The listen-only values set by the user during the n-th sleep of an operation. */
  type Calls = nat -> seq<bool>

  /** A store of the receiver thread into one of the two report atomics. */
  datatype Store = StoreWidth(width: int) | StoreFrequency(frequency: int)

  /** The frequency a poll acts on: the atomic's value after the stores that fell between its
      two loads. */
  function LateFrequency(frequency: int, between: seq<Store>): int {
    if between == [] then frequency else
      var last := between[|between| - 1];
      if last.StoreFrequency? then last.frequency
      else LateFrequency(frequency, between[..|between| - 1])
  }

  function LateWidth(width: int, between: seq<Store>): int {
    if between == [] then width else
      var last := between[|between| - 1];
      if last.StoreWidth? then last.width else LateWidth(width, between[..|between| - 1])
  }

  /** When a poll acts on a reported pair. */
  predicate Adopts(currFrequency: int, currWidth: int, frequency: int, width: int) {
    && AcceptedWidth(width) && frequency > 100
    && (currWidth != width || currFrequency != frequency)
  }

  datatype AnalyzeResult = AnalyzeResult(frequency: nat, nForeignPackets: int)

  /** What holds at one moment: where the cards are, what goes out, and what is announced. */
  datatype Moment = Moment(tuned: nat, rxWidth: int, txWidth: int, passive: bool, closed: bool,
                           announcedFrequency: nat, announcedWidth: byte)

  /** Why the work thread sleeps: until packets have drained, until announcements have gone out, or
      to listen on a channel. */
  datatype Pause = Drain | Announce | Listen

  datatype Act = Paused(why: Pause, at: Moment) | Retuned(frequency: nat, rxWidth: int, txWidth: int)

  /** Where the unit listened. */
  function Listened(acts: seq<Act>): seq<Tuning> {
    if acts == [] then [] else
      var a := acts[|acts| - 1];
      Listened(acts[..|acts| - 1]) +
        if a.Paused? && a.why == Listen then [Tuning(a.at.tuned, a.at.rxWidth, a.at.passive)] else []
  }

  lemma {:induction false} ListenedConcat(a: seq<Act>, b: seq<Act>)
    ensures Listened(a + b) == Listened(a) + Listened(b)
  {
    if b == [] {
      assert a + b == a;
    } else {
      assert (a + b)[..|a + b| - 1] == a + b[..|b| - 1];
      ListenedConcat(a, b[..|b| - 1]);
    }
  }

  lemma ListenedOnce(m: Moment)
    ensures Listened([Paused(Listen, m)]) == [Tuning(m.tuned, m.rxWidth, m.passive)]
  {
    assert [Paused(Listen, m)][..0] == [];
  }

  /** Retuning involves no listening. */
  lemma ListenedNothing(acts: seq<Act>, m: Moment, r: Act)
    requires r.Retuned?
    ensures Listened(acts + [Paused(Drain, m), r]) == Listened(acts)
  {
    var more := acts + [Paused(Drain, m), r];
    assert more[..|more| - 1][..|acts|] == acts;
    assert more[..|more| - 1] == acts + [Paused(Drain, m)];
    assert (acts + [Paused(Drain, m)])[..|acts|] == acts;
  }

  class WbLink {
    const isAir: bool
    // persistent settings
    var wbFrequency: nat
    var airTxWidth: byte
    var listenOnly: bool
    // last commands to the cards, the radiotap header and the injector
    var tunedFrequency: nat
    var tunedWidth: int
    var txHeader1Width: int
    var passive: bool
    var airCloseVideoIn: bool
    var rateAdjustmentFrequencyChanged: bool
    // channel following
    var gndCurrRxFrequency: int
    var gndCurrRxWidth: byte
    const managementAir: ManagementAir
    const managementGnd: ManagementGround
    var sleeps: nat
    /** The pauses and tuning commands so far. */
    ghost var history: seq<Act>

    ghost function Now(): Moment
      reads this, managementAir
    {
      Moment(tunedFrequency, tunedWidth, txHeader1Width, passive, airCloseVideoIn,
             managementAir.currFrequency, managementAir.currWidth)
    }

    /** What holds whenever the work thread is between two work items or polls. */
    ghost predicate Tuned()
      reads this, managementAir
    {
      && tunedFrequency == wbFrequency
      && tunedWidth == (if isAir then airTxWidth else gndCurrRxWidth)
      && txHeader1Width == (if isAir then airTxWidth else 20)
      && passive == (!isAir && listenOnly)
      && !airCloseVideoIn
      && (isAir ==> managementAir.currFrequency == wbFrequency
                    && managementAir.currWidth == airTxWidth)
    }

    constructor (isAir: bool, wbFrequency: nat, airTxWidth: byte, listenOnly: bool)
      ensures Tuned() && fresh(managementAir) && fresh(managementGnd)
      ensures this.isAir == isAir && this.wbFrequency == wbFrequency
      ensures this.airTxWidth == airTxWidth && this.listenOnly == listenOnly
      ensures gndCurrRxWidth == 40 && (!isAir ==> gndCurrRxFrequency == wbFrequency)
    {
      this.isAir, this.wbFrequency := isAir, wbFrequency;
      this.airTxWidth, this.listenOnly := airTxWidth, listenOnly;
      gndCurrRxFrequency, gndCurrRxWidth := -1, 40;
      airCloseVideoIn, passive, rateAdjustmentFrequencyChanged := false, false, false;
      managementAir := new ManagementAir(wbFrequency, airTxWidth);
      managementGnd := new ManagementGround();
      history := [];
      new;
      ApplyFromSettings(_ => []);
      if !isAir {
        gndCurrRxFrequency := wbFrequency;
      }
    }

    /** The user's callback, run while the work thread sleeps. */
    method Sleep(calls: Calls, ghost why: Pause)
      modifies this`listenOnly, this`passive, this`sleeps, this`history
      ensures history == old(history) + [Paused(why, old(Now()))]
      ensures isAir || calls(old(sleeps)) == [] ==>
        listenOnly == old(listenOnly) && passive == old(passive)
      ensures var now := calls(old(sleeps));
        !isAir && now != [] ==> listenOnly == passive == now[|now| - 1]
    {
      history := history + [Paused(why, Now())];
      var now := calls(sleeps);
      if !isAir && now != [] {
        listenOnly, passive := now[|now| - 1], now[|now| - 1];
      }
      sleeps := sleeps + 1;
    }

    /** The user's callback while the work thread is between two pieces of work. */
    method SetListenOnly(value: bool)
      requires Tuned() && !isAir
      modifies this`listenOnly, this`passive
      ensures Tuned() && listenOnly == value
    {
      listenOnly, passive := value, value;
    }

    method ReEnableInjectionUnlessUserPassiveModeEnabled()
      modifies this`passive
      ensures passive == (!isAir && listenOnly)
    {
      var enablePassiveMode := false;
      if !isAir && listenOnly {
        enablePassiveMode := true;
      }
      passive := enablePassiveMode;
    }

    method Apply(frequency: nat, widthRx: int, widthTx: int, calls: Calls)
      modifies this`tunedFrequency, this`tunedWidth, this`txHeader1Width
      modifies this`passive, this`listenOnly, this`sleeps, this`history
      ensures tunedFrequency == frequency && tunedWidth == widthRx && txHeader1Width == widthTx
      ensures history == old(history) + [Paused(Drain, old(Now()).(passive := true)),
                                         Retuned(frequency, widthRx, widthTx)]
      ensures passive == (!isAir && listenOnly)
      ensures isAir || (forall k :: calls(k) == []) ==> listenOnly == old(listenOnly)
    {
      passive := true;
      Sleep(calls, Drain);
      tunedFrequency, tunedWidth := frequency, widthRx;
      txHeader1Width := widthTx;
      history := history + [Retuned(tunedFrequency, tunedWidth, txHeader1Width)];
      ReEnableInjectionUnlessUserPassiveModeEnabled();
    }

    method ApplyFromSettings(calls: Calls)
      modifies this`tunedFrequency, this`tunedWidth, this`txHeader1Width
      modifies this`passive, this`listenOnly, this`sleeps, this`history
      ensures tunedFrequency == wbFrequency
      ensures tunedWidth == if isAir then airTxWidth else gndCurrRxWidth
      ensures txHeader1Width == if isAir then airTxWidth else 20
      ensures history == old(history) + [Paused(Drain, old(Now()).(passive := true)),
                                         Retuned(tunedFrequency, tunedWidth, txHeader1Width)]
      ensures passive == (!isAir && listenOnly)
      ensures isAir || (forall k :: calls(k) == []) ==> listenOnly == old(listenOnly)
    {
      if isAir {
        Apply(wbFrequency, airTxWidth, airTxWidth, calls);
      } else {
        Apply(wbFrequency, gndCurrRxWidth, 20, calls);
      }
    }

    /** Work item of request_set_frequency. On air the new frequency is announced before the
        cards leave the old one. */
    method SetFrequency(frequency: nat, calls: Calls)
      requires Tuned()
      modifies this, managementAir
      ensures Tuned() && wbFrequency == frequency
      ensures airTxWidth == old(airTxWidth) && gndCurrRxWidth == old(gndCurrRxWidth)
      ensures gndCurrRxFrequency == old(gndCurrRxFrequency) && rateAdjustmentFrequencyChanged
      ensures var f, x := old(wbFrequency), airTxWidth;
        isAir ==>
          history == old(history) + [Paused(Announce, Moment(f, x, x, false, true, frequency, x)),
                                     Paused(Drain, Moment(f, x, x, true, false, frequency, x)),
                                     Retuned(frequency, x, x)]
      ensures !isAir ==>
        history == old(history) + [Paused(Drain, old(Now()).(passive := true)),
                                   Retuned(frequency, gndCurrRxWidth, 20)]
      ensures isAir || (forall k :: calls(k) == []) ==> listenOnly == old(listenOnly)
    {
      wbFrequency := frequency;
      if isAir {
        airCloseVideoIn := true;
        managementAir.SetFrequency(frequency);
        Sleep(calls, Announce);
        airCloseVideoIn := false;
      }
      ApplyFromSettings(calls);
      rateAdjustmentFrequencyChanged := true;
    }

    /** Work item of request_set_air_tx_channel_width. */
    method SetAirTxChannelWidth(width: byte, calls: Calls)
      requires Tuned() && isAir
      modifies this, managementAir
      ensures Tuned() && airTxWidth == width
      ensures wbFrequency == old(wbFrequency) && listenOnly == old(listenOnly)
      ensures gndCurrRxWidth == old(gndCurrRxWidth)
      ensures gndCurrRxFrequency == old(gndCurrRxFrequency)
      ensures rateAdjustmentFrequencyChanged == old(rateAdjustmentFrequencyChanged)
      ensures var f, x := wbFrequency, old(airTxWidth);
        history == old(history) + [Paused(Announce, Moment(f, x, x, false, true, f, width)),
                                   Paused(Drain, Moment(f, x, x, true, true, f, width)),
                                   Retuned(f, width, width)]
    {
      airCloseVideoIn := true;
      airTxWidth := width;
      managementAir.SetChannelWidth(width);
      Sleep(calls, Announce);
      ApplyFromSettings(calls);
      airCloseVideoIn := false;
    }

    /** wt_gnd_perform_channel_management, with the receiver thread's stores `between` its two
        loads. */
    method ChannelManagement(between: seq<Store>, calls: Calls)
      requires Tuned()
      modifies this, managementGnd
      ensures Tuned() && airTxWidth == old(airTxWidth)
      ensures managementGnd.reportedFrequency ==
        LateFrequency(old(managementGnd.reportedFrequency), between)
      ensures managementGnd.reportedWidth == LateWidth(old(managementGnd.reportedWidth), between)
      ensures var f := managementGnd.reportedFrequency;
        var w := old(managementGnd.reportedWidth);
        if !isAir && (w == 20 || w == 40) && f > 100
           && (f != old(gndCurrRxFrequency) || w != old(gndCurrRxWidth)) then
          && gndCurrRxFrequency == f && gndCurrRxWidth == w && wbFrequency == f
          && history == old(history) + [Paused(Drain, old(Now()).(passive := true)), Retuned(f, w, 20)]
        else
          && history == old(history)
          && gndCurrRxFrequency == old(gndCurrRxFrequency) && gndCurrRxWidth == old(gndCurrRxWidth)
          && wbFrequency == old(wbFrequency) && listenOnly == old(listenOnly)
      ensures isAir || (forall k :: calls(k) == []) ==> listenOnly == old(listenOnly)
      ensures rateAdjustmentFrequencyChanged == old(rateAdjustmentFrequencyChanged)
    {
      var airReportedWidth := managementGnd.reportedWidth;
      managementGnd.reportedFrequency, managementGnd.reportedWidth :=
        LateFrequency(managementGnd.reportedFrequency, between),
        LateWidth(managementGnd.reportedWidth, between);
      var airReportedFrequency := managementGnd.reportedFrequency;
      if !isAir {
        if (airReportedWidth == 20 || airReportedWidth == 40) && airReportedFrequency > 100 {
          if gndCurrRxWidth != airReportedWidth || gndCurrRxFrequency != airReportedFrequency {
            gndCurrRxFrequency := airReportedFrequency;
            gndCurrRxWidth := airReportedWidth;
            wbFrequency := airReportedFrequency;
            Apply(airReportedFrequency, airReportedWidth, 20, calls);
          }
        }
      }
    }

    /** One visit of the scan: tune, listen, and compare what the air unit says with the channel. */
    method VisitChannel(frequency: nat, width: nat, percent: int, o: Observation, calls: Calls)
      returns (hit: bool, airWidth: int, report: seq<Progress>)
      requires !isAir
      modifies this`tunedFrequency, this`tunedWidth, this`txHeader1Width
      modifies this`passive, this`listenOnly, this`sleeps, this`history, managementGnd
      ensures hit <==>
        && o.supported && o.applied && o.nValidPackets > 0 && Seen(o).frequency > 0
        && (Seen(o).width == 10 || Seen(o).width == 20 || Seen(o).width == 40)
        && frequency == Seen(o).frequency
      ensures hit ==> airWidth == Seen(o).width
      ensures history == old(history) +
        if !o.supported then [] else
          [Paused(Drain, old(Now()).(passive := true)), Retuned(frequency, width, width)] +
          if !o.applied then [] else
            [Paused(Listen, old(Now()).(tuned := frequency, rxWidth := width, txWidth := width,
                                        passive := true))]
      ensures Listened(history) == Listened(old(history)) +
        if o.supported && o.applied then [Tuning(frequency, width, true)] else []
      ensures report == if o.supported && o.applied
        then [Progress(frequency, width, false, percent)] else []
      ensures (forall k :: calls(k) == []) ==> listenOnly == old(listenOnly)
    {
      hide Listened;
      hit, airWidth, report := false, 0, [];
      if !o.supported {
        return;
      }
      Apply(frequency, width, width, calls);
      ListenedNothing(old(history), old(Now()).(passive := true), Retuned(frequency, width, width));
      if !o.applied {
        return;
      }
      report := [Progress(frequency, width, false, percent)];
      passive := true;
      managementGnd.reportedFrequency, managementGnd.reportedWidth := -1, -1;
      if o.leftover.Some? {
        managementGnd.reportedFrequency := o.leftover.value;
      }
      ghost var reset := managementGnd.Current();
      ListenedConcat(history, [Paused(Listen, Now())]);
      ListenedOnce(Now());
      Sleep(calls, Listen);
      managementGnd.Listen(o.frames);
      var airFrequency := managementGnd.reportedFrequency;
      managementGnd.Listen(o.late);
      ReportsConcat(reset, o.frames, o.late);
      airWidth := managementGnd.reportedWidth;
      if o.nValidPackets > 0 && airFrequency > 0
         && (airWidth == 10 || airWidth == 20 || airWidth == 40) && frequency == airFrequency {
        hit := true;
      }
    }

    /** perform_channel_scan. Success iff some visit meets the detection test, with the first
        one in scan order; failure leaves the persisted frequency alone. */
    method PerformChannelScan(channels: seq<nat>, air: Air, calls: Calls)
      returns (result: Result, reports: seq<Progress>, ghost visits: nat)
      requires Tuned() && !isAir
      modifies this, managementGnd
      ensures Tuned()
      ensures channels == [] ==> reports == [] && wbFrequency == old(wbFrequency)
      ensures channels != [] ==>
        && IsScanResult(channels, air, result, visits)
        && reports == ReportsOf(channels, air, visits)
          + [Progress(result.frequency, result.width, result.success, 100)]
        && wbFrequency == (if result.success then result.frequency else old(wbFrequency))
        && gndCurrRxWidth == (if result.success then result.width else old(gndCurrRxWidth))
        && Listened(history) == Listened(old(history)) + TuningsOf(channels, air, visits)
      ensures Rising(reports)
      ensures gndCurrRxFrequency == old(gndCurrRxFrequency) && airTxWidth == old(airTxWidth)
      ensures (forall k :: calls(k) == []) ==> listenOnly == old(listenOnly)
    {
      hide ReportsOf, NoHitBefore, Hit, Listened, TuningsOf, Rising;
      if channels == [] {
        NoReportsRise();
        return Result(false, 0, 0), [], 0;
      }
      result, reports, visits := ScanAll(channels, air, calls);
      ReEnableInjectionUnlessUserPassiveModeEnabled();
      ghost var acts, now := history, Now();
      if !result.success {
        ApplyFromSettings(calls);
      } else {
        SuccessIsOnAScannedChannel(channels, air, result, visits);
        wbFrequency := result.frequency;
        gndCurrRxWidth := result.width;
        ApplyFromSettings(calls);
      }
      ListenedNothing(acts, now.(passive := true),
                      Retuned(tunedFrequency, tunedWidth, txHeader1Width));
      FinalReportRises(channels, air, visits,
                       Progress(result.frequency, result.width, result.success, 100));
      reports := reports + [Progress(result.frequency, result.width, result.success, 100)];
    }

    /** The outer loop of the scan. */
    method ScanAll(channels: seq<nat>, air: Air, calls: Calls)
      returns (result: Result, reports: seq<Progress>, ghost visits: nat)
      requires !isAir
      modifies this`tunedFrequency, this`tunedWidth, this`txHeader1Width
      modifies this`passive, this`listenOnly, this`sleeps, this`history, managementGnd
      ensures IsScanResult(channels, air, result, visits)
      ensures reports == ReportsOf(channels, air, visits)
      ensures Listened(history) == Listened(old(history)) + TuningsOf(channels, air, visits)
      ensures (forall k :: calls(k) == []) ==> listenOnly == old(listenOnly)
    {
      result, reports, visits := Result(false, 0, 0), [], 0;
      var i := 0;
      while i < |channels|
        invariant i <= |channels|
        invariant Scanned(channels, air, result, visits) && (!result.success ==> visits == 2 * i)
        invariant reports == ReportsOf(channels, air, visits)
        invariant Listened(history) == Listened(old(history)) + TuningsOf(channels, air, visits)
        invariant (forall k :: calls(k) == []) ==> listenOnly == old(listenOnly)
      {
        if result.success { break; }
        result, reports, visits :=
          ScanChannel(channels, i, reports, Listened(old(history)), air, calls);
        i := i + 1;
      }
    }

    /** The inner loop: both widths of one channel. */
    method ScanChannel(channels: seq<nat>, i: nat, earlier: seq<Progress>,
                       ghost before: seq<Tuning>, air: Air, calls: Calls)
      returns (result: Result, reports: seq<Progress>, ghost visits: nat)
      requires !isAir && i < |channels|
      requires Scanned(channels, air, Result(false, 0, 0), 2 * i)
      requires earlier == ReportsOf(channels, air, 2 * i)
      requires Listened(history) == before + TuningsOf(channels, air, 2 * i)
      modifies this`tunedFrequency, this`tunedWidth, this`txHeader1Width
      modifies this`passive, this`listenOnly, this`sleeps, this`history, managementGnd
      ensures Scanned(channels, air, result, visits)
      ensures !result.success ==> visits == 2 * (i + 1)
      ensures reports == ReportsOf(channels, air, visits)
      ensures Listened(history) == before + TuningsOf(channels, air, visits)
      ensures (forall k :: calls(k) == []) ==> listenOnly == old(listenOnly)
    {
      hide Scanned, Listened, ReportsOf, TuningsOf;
      result, reports, visits := Result(false, 0, 0), earlier, 2 * i;
      var percent := ProgressPercent(i, |channels|);
      var k := 0;
      while k < |WIDTHS|
        invariant k <= 2 && visits <= 2 * i + k
        invariant Scanned(channels, air, result, visits)
        invariant !result.success ==> result == Result(false, 0, 0) && visits == 2 * i + k
        invariant reports == ReportsOf(channels, air, visits)
        invariant Listened(history) == before + TuningsOf(channels, air, visits)
        invariant (forall k :: calls(k) == []) ==> listenOnly == old(listenOnly)
      {
        if result.success { break; }
        assert visits / 2 == i && visits % 2 == k;
        NextVisit(channels, air, visits);
        OneMoreTuning(channels, air, visits);
        var o := air(2 * i + k);
        var hit, airWidth, report := VisitChannel(channels[i], WIDTHS[k], percent, o, calls);
        if hit {
          result := Result(true, channels[i], airWidth);
        }
        reports := reports + report;
        visits := visits + 1;
        k := k + 1;
      }
    }

    /** One visit of the analysis. */
    method MeasureChannel(frequency: nat, calls: Calls)
      modifies this`tunedFrequency, this`tunedWidth, this`txHeader1Width
      modifies this`passive, this`listenOnly, this`sleeps, this`history
      ensures Listened(history) == Listened(old(history)) + [Tuning(frequency, 40, true)]
      ensures isAir || (forall k :: calls(k) == []) ==> listenOnly == old(listenOnly)
    {
      hide Listened;
      Apply(frequency, 40, 20, calls);
      ListenedNothing(old(history), old(Now()).(passive := true), Retuned(frequency, 40, 20));
      passive := true;
      ListenedConcat(history, [Paused(Listen, Now())]);
      ListenedOnce(Now());
      Sleep(calls, Listen);
    }

    /** perform_channel_analyze: every channel is measured in order, and the link comes back to
        where it was. */
    method PerformChannelAnalyze(channels: seq<nat>, foreign: nat -> int, calls: Calls)
      returns (results: seq<AnalyzeResult>, percents: seq<int>)
      requires Tuned()
      modifies this
      ensures Tuned() && wbFrequency == old(wbFrequency) && airTxWidth == old(airTxWidth)
      ensures gndCurrRxWidth == old(gndCurrRxWidth)
      ensures gndCurrRxFrequency == old(gndCurrRxFrequency)
      ensures rateAdjustmentFrequencyChanged == old(rateAdjustmentFrequencyChanged)
      ensures isAir || (forall k :: calls(k) == []) ==> listenOnly == old(listenOnly)
      ensures |results| == |percents| == |channels|
      ensures forall i | 0 <= i < |channels| :: results[i] == AnalyzeResult(channels[i], foreign(i))
      ensures forall i, j | 0 <= i <= j < |channels| :: 0 <= percents[i] <= percents[j] <= 100
      ensures forall i | 0 <= i < |channels| :: percents[i] == ProgressPercent(i + 1, |channels|)
      ensures channels != [] ==> percents[|channels| - 1] == 100
      ensures Listened(history) ==
        Listened(old(history)) + seq(|channels|, i requires 0 <= i < |channels| =>
                                       Tuning(channels[i], 40, true))
    {
      hide Listened, ProgressPercent;
      results, percents := [], [];
      var i := 0;
      ghost var tunings := [];
      while i < |channels|
        invariant i <= |channels| && |results| == |percents| == i
        invariant forall j | 0 <= j < i :: results[j] == AnalyzeResult(channels[j], foreign(j))
        invariant forall j | 0 <= j < i :: percents[j] == ProgressPercent(j + 1, |channels|)
        invariant wbFrequency == old(wbFrequency) && airTxWidth == old(airTxWidth)
        invariant gndCurrRxWidth == old(gndCurrRxWidth)
        invariant gndCurrRxFrequency == old(gndCurrRxFrequency)
        invariant !airCloseVideoIn
        invariant Listened(history) == Listened(old(history)) + tunings
        invariant |tunings| == i && forall j | 0 <= j < i :: tunings[j] == Tuning(channels[j], 40, true)
        invariant rateAdjustmentFrequencyChanged == old(rateAdjustmentFrequencyChanged)
        invariant isAir || (forall k :: calls(k) == []) ==> listenOnly == old(listenOnly)
      {
        MeasureChannel(channels[i], calls);
        tunings := tunings + [Tuning(channels[i], 40, true)];
        results := results + [AnalyzeResult(channels[i], foreign(i))];
        percents := percents + [ProgressPercent(i + 1, |channels|)];
        i := i + 1;
      }
      PercentsRise(percents, |channels|);
      assert tunings == seq(|channels|, i requires 0 <= i < |channels| =>
                              Tuning(channels[i], 40, true));
      ReEnableInjectionUnlessUserPassiveModeEnabled();
      ghost var acts, now := history, Now();
      ApplyFromSettings(calls);
      ListenedNothing(acts, now.(passive := true),
                      Retuned(tunedFrequency, tunedWidth, txHeader1Width));
    }
  }

  /** What can happen between two turns of the work thread, and what it can be made to do. */
  datatype Work =
    | ChangeFrequency(frequency: nat)
    | ChangeWidth(width: byte)
    | Poll(between: seq<Store>)
    | Scan(scanned: seq<nat>, air: Air)
    | Analyze(analyzed: seq<nat>, foreign: nat -> int)
    | Receive(data: bytes)
    | ListenOnly(value: bool)

  /** Widths are only changed on the air unit; only the ground unit scans and can be silenced. */
  predicate Allowed(w: Work, isAir: bool) {
    (w.ChangeWidth? ==> isAir) && (w.Scan? || w.ListenOnly? ==> !isAir)
  }

  method Perform(link: WbLink, w: Work, calls: Calls)
    requires link.Tuned() && Allowed(w, link.isAir)
    modifies link, link.managementAir, link.managementGnd
    ensures link.Tuned()
  {
    match w
    case ChangeFrequency(f) => link.SetFrequency(f, calls);
    case ChangeWidth(x) => link.SetAirTxChannelWidth(x, calls);
    case Poll(between) => link.ChannelManagement(between, calls);
    case Scan(channels, air) =>
      var _, _, _ := link.PerformChannelScan(channels, air, calls);
    case Analyze(channels, foreign) =>
      var _, _ := link.PerformChannelAnalyze(channels, foreign, calls);
    case Receive(data) => link.managementGnd.OnNewManagementPacket(data);
    case ListenOnly(value) => link.SetListenOnly(value);
  }

  /** The tuning invariant through any mix of work, whatever the user and the radio do. */
  method PerformAll(link: WbLink, work: seq<Work>, calls: nat -> Calls)
    requires link.Tuned() && forall w | w in work :: Allowed(w, link.isAir)
    modifies link, link.managementAir, link.managementGnd
    ensures link.Tuned()
  {
    for i := 0 to |work|
      invariant link.Tuned()
    {
      Perform(link, work[i], calls(i));
    }
  }
}
