/** The methods of WbLink do the steps of the two-node protocol. */
module ChannelSteps {
  import opened Options
  import opened Wire
  import opened Management
  import opened WbLinks
  import opened ChannelFollow

  /** `link` is the air unit of `w`, between two work items. */
  ghost predicate IsAirOf(link: WbLink, w: World)
    reads link, link.managementAir
  {
    && link.isAir && link.Tuned()
    && w.air == Air(link.wbFrequency, link.airTxWidth, link.tunedFrequency, Idle, w.air.half)
  }

  /** `link` is the ground unit of `w`, between two polls. */
  ghost predicate IsGroundOf(link: WbLink, w: World)
    reads link, link.managementAir, link.managementGnd
  {
    var g := w.gnd;
    && !link.isAir && link.Tuned() && g.poll == NoPoll
    && g.frequency == link.wbFrequency && g.tuned == link.tunedFrequency
    && g.currFrequency == link.gndCurrRxFrequency && g.currWidth == link.gndCurrRxWidth
    && g.reportedFrequency == link.managementGnd.reportedFrequency
    && g.reportedWidth == link.managementGnd.reportedWidth
  }

  /** At this moment the air unit is that of `w`, announcing one thing and still tuned as before. */
  predicate IsMomentOf(m: Moment, w: World) {
    && m.tuned == w.air.tuned && w.air.work == LeavingChannel
    && m.announcedFrequency == w.air.frequency && m.announcedWidth == w.air.width
  }

  /** The last three acts: announcing with the video gate closed, draining, and only then retuning. */
  ghost predicate AnnouncesFirst(before: seq<Act>, after: seq<Act>, requested: World) {
    && |after| == |before| + 3 && before <= after
    && var n := |before|;
    && after[n].Paused? && after[n].why == Announce && after[n].at.closed && !after[n].at.passive
    && IsMomentOf(after[n].at, requested)
    && after[n + 1].Paused? && after[n + 1].why == Drain && IsMomentOf(after[n + 1].at, requested)
    && after[n + 2] == Retuned(requested.air.frequency, requested.air.width, requested.air.width)
  }

  /** The air unit's frequency change. The world after the request alone is the one in which the unit
      announces and waits. */
  method ChangeAirFrequency(link: WbLink, ghost w: World, frequency: nat, calls: Calls)
      returns (ghost t: World)
    requires IsAirOf(link, w)
    modifies link, link.managementAir
    ensures Runs(w, [RequestFrequency(frequency), Retune])
    ensures t == After(w, [RequestFrequency(frequency), Retune]) && IsAirOf(link, t)
    ensures AnnouncesFirst(old(link.history), link.history, Next(w, RequestFrequency(frequency)))
  {
    link.SetFrequency(frequency, calls);
    t := TwoSteps(w, RequestFrequency(frequency), Retune);
  }

  /** The air unit's width change. */
  method ChangeAirWidth(link: WbLink, ghost w: World, width: byte, calls: Calls)
      returns (ghost t: World)
    requires IsAirOf(link, w) && (width == 10 || width == 20 || width == 40)
    modifies link, link.managementAir
    ensures Runs(w, [RequestWidth(width), Retune])
    ensures t == After(w, [RequestWidth(width), Retune]) && IsAirOf(link, t)
    ensures AnnouncesFirst(old(link.history), link.history, Next(w, RequestWidth(width)))
  {
    link.SetAirTxChannelWidth(width, calls);
    t := TwoSteps(w, RequestWidth(width), Retune);
  }

  lemma TwoSteps(w: World, d: Step, e: Step) returns (t: World)
    requires Enabled(w, d) && Enabled(Next(w, d), e)
    ensures Runs(w, [d, e]) && t == After(w, [d, e]) == Next(Next(w, d), e)
  {
    assert [d, e][1..] == [e] && [e][1..] == [];
    t := Next(Next(w, d), e);
    assert Runs(Next(w, d), [e]) && After(Next(w, d), [e]) == t;
  }

  /** The ground unit's own frequency change. */
  method ChangeGroundFrequency(link: WbLink, ghost w: World, frequency: nat, calls: Calls)
      returns (ghost t: World)
    requires IsGroundOf(link, w)
    modifies link, link.managementAir
    ensures t == Next(w, GndFrequency(frequency)) && IsGroundOf(link, t)
  {
    link.SetFrequency(frequency, calls);
    t := Next(w, GndFrequency(frequency));
  }

  predicate Receives(es: seq<Step>) {
    forall e | e in es :: e.StoreWidth? || e.StoreFrequency?
  }

  /** What a step of the receiver thread writes to the two report atomics. */
  function Writes(w: World, e: Step): seq<Store>
    requires Enabled(w, e)
  {
    if e.StoreWidth? && AcceptedWidth(w.gnd.inbox[0].width) then
      [Store.StoreWidth(w.gnd.inbox[0].width)]
    else if e.StoreFrequency? then [Store.StoreFrequency(w.gnd.storing.value.frequency)]
    else []
  }

  function AllWrites(w: World, es: seq<Step>): seq<Store>
    requires Runs(w, es)
    decreases es
  {
    if es == [] then [] else Writes(w, es[0]) + AllWrites(Next(w, es[0]), es[1..])
  }

  lemma {:induction false} LateConcat(f: int, x: int, a: seq<Store>, b: seq<Store>)
    ensures LateFrequency(f, a + b) == LateFrequency(LateFrequency(f, a), b)
    ensures LateWidth(x, a + b) == LateWidth(LateWidth(x, a), b)
  {
    if b == [] {
      assert a + b == a;
    } else {
      assert (a + b)[..|a + b| - 1] == a + b[..|b| - 1];
      LateConcat(f, x, a, b[..|b| - 1]);
    }
  }

  /** The receiver thread's steps change the reports by what they write, and nothing else that the
      work thread uses. */
  lemma {:induction false} ReceiverWrites(w: World, es: seq<Step>)
    requires Runs(w, es) && Receives(es)
    ensures var t, stores := After(w, es), AllWrites(w, es);
      && t.gnd.reportedFrequency == LateFrequency(w.gnd.reportedFrequency, stores)
      && t.gnd.reportedWidth == LateWidth(w.gnd.reportedWidth, stores)
      && t.gnd.poll == w.gnd.poll && t.gnd.frequency == w.gnd.frequency
      && t.gnd.tuned == w.gnd.tuned && t.gnd.currFrequency == w.gnd.currFrequency
      && t.gnd.currWidth == w.gnd.currWidth
    decreases es
  {
    if es != [] {
      var e, next := es[0], Next(w, es[0]);
      assert e in es;
      ReceiverWrites(next, es[1..]);
      LateConcat(w.gnd.reportedFrequency, w.gnd.reportedWidth, Writes(w, e), AllWrites(next, es[1..]));
      assert LateFrequency(w.gnd.reportedFrequency, Writes(w, e)) == next.gnd.reportedFrequency;
      assert LateWidth(w.gnd.reportedWidth, Writes(w, e)) == next.gnd.reportedWidth;
    }
  }

  /** One poll of the ground unit, with any steps `es` of the receiver thread between its loads. */
  method PollOnce(link: WbLink, ghost w: World, ghost es: seq<Step>, between: seq<Store>, calls: Calls)
      returns (ghost t: World)
    requires IsGroundOf(link, w) && Receives(es) && Runs(Next(w, LoadWidth), es)
    requires between == AllWrites(Next(w, LoadWidth), es)
    modifies link, link.managementGnd
    ensures var v := After(Next(w, LoadWidth), es);
      && Enabled(v, LoadReport)
      && t == (var r := Next(v, LoadReport); if r.gnd.poll.Retuning? then Next(r, Follow) else r)
    ensures IsGroundOf(link, t)
  {
    ghost var loaded := Next(w, LoadWidth);
    ReceiverWrites(loaded, es);
    link.ChannelManagement(between, calls);
    t := Next(After(loaded, es), LoadReport);
    if t.gnd.poll.Retuning? {
      t := Next(t, Follow);
    }
  }
}
