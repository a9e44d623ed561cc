/** Counting dropped frames between checks, with a grace period after each change of the bitrate.
    Times are in milliseconds. */
module FrameDrops {
  import opened Options

  const PERIOD := 3000
  const MAX_DROPPED_FRAMES_ALLOWED := 3

  /** A dropped frame, by when it was notified: without a pending delay, under one, or by another
      thread while a check was ending the delay and had already taken the counter. */
  datatype Drop = Free | Delayed | Late

  /** `check`: the clock as read again when the check is recorded. `late`: frames that another
      thread drops after the check took the counter and before it ends the delay. */
  datatype Event = Notify(n: nat) | DelayFor(until: int) | Poll(now: int, check: int, late: nat)

  datatype State = State(drops: seq<Drop>, lastCheck: int, delay: Option<int>)

  function Times(n: nat, d: Drop): seq<Drop> {
    seq(n, _ => d)
  }

  predicate Ends(s: State, e: Event) {
    e.Poll? && s.delay.Some? && s.delay.value <= e.now
  }

  predicate Checks(s: State, e: Event) {
    e.Poll? && s.delay.None? && e.now - s.lastCheck >= PERIOD
  }

  /** The check asks for a lower bitrate. */
  predicate Alarm(s: State, e: Event) {
    Checks(s, e) && |s.drops| > MAX_DROPPED_FRAMES_ALLOWED
  }

  /** What the event adds to the counter, and what it takes out of it. */
  function Added(s: State, e: Event): seq<Drop> {
    match e
    case Notify(n) => Times(n, if s.delay.Some? then Delayed else Free)
    case DelayFor(_) => []
    case Poll(_, _, late) => if Ends(s, e) then Times(late, Late) else []
  }

  function Taken(s: State, e: Event): seq<Drop> {
    if Ends(s, e) || Checks(s, e) then s.drops else []
  }

  function Next(s: State, e: Event): State {
    match e
    case Notify(_) => s.(drops := s.drops + Added(s, e))
    case DelayFor(until) => s.(delay := Some(until))
    case Poll(_, check, _) =>
      if Ends(s, e) then State(Added(s, e), check, None)
      else if Checks(s, e) then s.(drops := [], lastCheck := check)
      else s
  }

  function Run(s: State, es: seq<Event>): State
    decreases es
  {
    if es == [] then s else Run(Next(s, es[0]), es[1..])
  }

  function AllAdded(s: State, es: seq<Event>): seq<Drop>
    decreases es
  {
    if es == [] then [] else Added(s, es[0]) + AllAdded(Next(s, es[0]), es[1..])
  }

  function AllTaken(s: State, es: seq<Event>): seq<Drop>
    decreases es
  {
    if es == [] then [] else Taken(s, es[0]) + AllTaken(Next(s, es[0]), es[1..])
  }

  function Alarms(s: State, es: seq<Event>): nat
    decreases es
  {
    if es == [] then 0 else (if Alarm(s, es[0]) then 1 else 0) + Alarms(Next(s, es[0]), es[1..])
  }

  lemma TakenAtOnce(s: State, e: Event)
    ensures s.drops + Added(s, e) == Taken(s, e) + Next(s, e).drops
  {
  }

  lemma Chain<T>(a: seq<T>, b: seq<T>, p: seq<T>, q: seq<T>, c: seq<T>, r: seq<T>, d: seq<T>)
    requires a + b == p + q && q + c == r + d
    ensures a + (b + c) == (p + r) + d
  {
    assert a + (b + c) == (a + b) + c;
    assert (p + q) + c == p + (q + c);
    assert p + (r + d) == (p + r) + d;
  }

  /** When a check raises the alarm, in numbers. */
  lemma AlarmIff(s: State, e: Event)
    ensures Alarm(s, e) <==>
      e.Poll? && s.delay == None && e.now >= s.lastCheck + 3000 && |s.drops| >= 4
  {
  }

  /** Drops are labelled by what holds when they are notified, and a check ends the delay as soon as
      its time has come. */
  lemma LabelsTell(s: State, n: nat, now: int, check: int, late: nat)
    ensures Next(s, Notify(n)) ==
      s.(drops := s.drops + seq(n, _ => if s.delay.Some? then Delayed else Free))
    ensures var t := Next(s, Poll(now, check, late));
      s.delay.Some? ==>
        t == if now >= s.delay.value then State(seq(late, _ => Late), check, None) else s
    ensures Next(s, DelayFor(now)) == s.(delay := Some(now))
  {
  }

  /** Every dropped frame is taken by exactly one check, in order, or still pending. */
  lemma {:induction false} TakenOnce(s: State, es: seq<Event>)
    ensures s.drops + AllAdded(s, es) == AllTaken(s, es) + Run(s, es).drops
    decreases es
  {
    if es != [] {
      var e, rest, next := es[0], es[1..], Next(s, es[0]);
      TakenOnce(next, rest);
      TakenAtOnce(s, e);
      Chain(s.drops, Added(s, e), Taken(s, e), next.drops,
            AllAdded(next, rest), AllTaken(next, rest), Run(next, rest).drops);
    }
  }

  /** Without a pending delay nothing notified under one is left. */
  predicate Clean(s: State) {
    s.delay.None? ==> Delayed !in s.drops
  }

  lemma {:induction false} RunClean(s: State, es: seq<Event>)
    requires Clean(s)
    ensures Clean(Run(s, es))
    decreases es
  {
    if es != [] {
      RunClean(Next(s, es[0]), es[1..]);
    }
  }

  /** A check that asks for a lower bitrate saw more than three drops, at least three seconds after
      the check before; a drop notified under a delay is among them only if it came while a check
      was ending that delay. */
  lemma AlarmIsSound(s: State, es: seq<Event>, e: Event)
    requires Clean(s) && Alarm(Run(s, es), e)
    ensures var drops := Taken(Run(s, es), e);
      |drops| > 3 && Delayed !in drops && e.now >= Run(s, es).lastCheck + 3000
  {
    RunClean(s, es);
  }

  lemma {:induction false} RunOneMore(s: State, es: seq<Event>, e: Event)
    ensures Run(s, es + [e]) == Next(Run(s, es), e)
    decreases es
  {
    if es == [] {
      assert [e][1..] == [];
    } else {
      assert (es + [e])[1..] == es[1..] + [e];
      RunOneMore(Next(s, es[0]), es[1..], e);
    }
  }

  /** Event `k` of the run takes the counter. */
  predicate Takes(s: State, es: seq<Event>, k: nat)
    requires k < |es|
  {
    Ends(Run(s, es[..k]), es[k]) || Checks(Run(s, es[..k]), es[k])
  }

  /** The latest check that took the counter was one that ended a delay, with drops coming in before
      the delay was gone. */
  ghost predicate LateSinceTaken(s: State, es: seq<Event>) {
    exists k | 0 <= k < |es| && Takes(s, es, k) ::
      && Ends(Run(s, es[..k]), es[k]) && es[k].late > 0
      && forall j | k < j < |es| :: !Takes(s, es, j)
  }

  lemma LateSinceTakenOneMore(s: State, es: seq<Event>, e: Event)
    ensures var v := Run(s, es);
      LateSinceTaken(s, es + [e]) <==>
        if Ends(v, e) then e.late > 0 else !Checks(v, e) && LateSinceTaken(s, es)
  {
    hide Run, Checks;
    var all, n := es + [e], |es|;
    assert all[..n] == es;
    assert forall k | 0 <= k < n :: all[..k] == es[..k];
    assert forall k | 0 <= k < n :: Takes(s, all, k) <==> Takes(s, es, k);
    assert Takes(s, all, n) <==> Ends(Run(s, es), e) || Checks(Run(s, es), e);
    EndsNotChecks(Run(s, es), e);
    if Takes(s, all, n) {
    } else if LateSinceTaken(s, es) {
      var k :| 0 <= k < n && Takes(s, es, k) && Ends(Run(s, es[..k]), es[k]) && es[k].late > 0
        && forall j | k < j < n :: !Takes(s, es, j);
      assert Takes(s, all, k);
    }
  }

  lemma EndsNotChecks(s: State, e: Event)
    ensures Ends(s, e) ==> e.Poll? && !Checks(s, e)
  {
  }

  /** Exactly when the counter holds a drop that was notified while a check was ending a delay. */
  lemma {:induction false} LateIff(s: State, es: seq<Event>)
    requires s.drops == []
    ensures Late in Run(s, es).drops <==> LateSinceTaken(s, es)
  {
    if es != [] {
      var before, e := es[..|es| - 1], es[|es| - 1];
      assert before + [e] == es;
      LateIff(s, before);
      RunOneMore(s, before, e);
      LateSinceTakenOneMore(s, before, e);
      LateStep(Run(s, before), e);
    }
  }

  lemma LateStep(v: State, e: Event)
    ensures Late in Next(v, e).drops <==>
      if Ends(v, e) then e.late > 0 else !Checks(v, e) && Late in v.drops
  {
    if Ends(v, e) && e.late > 0 {
      assert Times(e.late, Late)[0] == Late;
    }
  }

  /** The exact condition for every run from the start: the drops behind an alarm include one that
      was notified while a delay was pending iff the latest check that took the counter had ended a
      delay and a drop came in between. */
  lemma AlarmUnderDelayIff(start: int, es: seq<Event>, e: Event)
    requires var s := State([], start, None); Alarm(Run(s, es), e)
    ensures var s := State([], start, None);
      (exists d | d in Taken(Run(s, es), e) :: d != Free) <==> LateSinceTaken(s, es)
  {
    var s := State([], start, None);
    RunClean(s, es);
    LateIff(s, es);
    if LateSinceTaken(s, es) {
      assert Late in Taken(Run(s, es), e) && Late != Free;
    }
  }

  /** In particular, when no check is disturbed while it ends a delay, no drop notified under a
      delay is ever behind an alarm. */
  lemma UndisturbedChecksAreSound(start: int, es: seq<Event>, e: Event)
    requires var s := State([], start, None); Alarm(Run(s, es), e)
    requires forall p | p in es && p.Poll? :: p.late == 0
    ensures forall d | d in Taken(Run(State([], start, None), es), e) :: d == Free
  {
    AlarmUnderDelayIff(start, es, e);
  }

  predicate AllNotify(es: seq<Event>) {
    forall e | e in es :: e.Notify?
  }

  lemma {:induction false} NotifyRun(s: State, es: seq<Event>)
    requires s.delay.None? && AllNotify(es)
    ensures Run(s, es).delay.None? && s.drops <= Run(s, es).drops
    ensures forall d | d in Run(s, es).drops[|s.drops|..] :: d == Free
    decreases es
  {
    if es != [] {
      var next := Next(s, es[0]);
      assert es[0] in es;
      NotifyRun(next, es[1..]);
      var all := Run(s, es).drops;
      forall i | |s.drops| <= i < |all|
        ensures all[i] == Free
      {
        if i < |next.drops| {
          assert all[i] == next.drops[i];
        } else {
          assert all[i] in all[|next.drops|..];
        }
      }
    }
  }

  /** The same in one piece: after a check that ends a delay, any notifications, and then an alarm. */
  lemma NextAlarmUnderDelayIff(s: State, poll: Event, es: seq<Event>, e: Event)
    requires Ends(s, poll) && AllNotify(es) && Alarm(Run(Next(s, poll), es), e)
    ensures (exists d | d in Taken(Run(Next(s, poll), es), e) :: d != Free) <==> poll.late > 0
  {
    var v := Next(s, poll);
    NotifyRun(v, es);
    var drops := Run(v, es).drops;
    assert drops == v.drops + drops[|v.drops|..];
    assert drops == Taken(Run(v, es), e);
    if poll.late > 0 {
      assert drops[0] == v.drops[0] == Late && drops[0] in drops;
    }
  }

  /** The clock never runs backwards. */
  predicate Timely(s: State, es: seq<Event>)
    decreases es
  {
    es == [] || ((es[0].Poll? ==> s.lastCheck <= es[0].now <= es[0].check) &&
                 Timely(Next(s, es[0]), es[1..]))
  }

  /** In any run the alarms are at least three seconds apart and use up at least four drops each. */
  lemma {:induction false} AlarmsAreRare(s: State, es: seq<Event>)
    requires Timely(s, es)
    ensures 3000 * Alarms(s, es) <= Run(s, es).lastCheck - s.lastCheck
    ensures 4 * Alarms(s, es) <= |AllTaken(s, es)|
    decreases es
  {
    if es != [] {
      AlarmsAreRare(Next(s, es[0]), es[1..]);
    }
  }

  /** Drops that come in while a check is ending the delay do count later. */
  lemma LateDropsAlarm(start: int, until: int)
    requires start <= until
    ensures var es := [DelayFor(until), Poll(until, until, 4)];
      Alarm(Run(State([], start, None), es), Poll(until + 3000, until + 3000, 0))
  {
    var s := State([], start, None);
    var es := [DelayFor(until), Poll(until, until, 4)];
    assert es[1..] == [es[1]] && [es[1]][1..] == [];
    assert Run(s, es) == Run(Next(s, es[0]), [es[1]]);
    assert Run(Next(s, es[0]), [es[1]]) == Run(Next(Next(s, es[0]), es[1]), []);
  }

  class FrameDropsHelper {
    var counter: nat
    var lastCheck: int
    var delay: Option<int>
    ghost var drops: seq<Drop>

    ghost predicate Valid()
      reads this
    {
      counter == |drops| && Clean(Abstract())
    }

    ghost function Abstract(): State
      reads this
    {
      State(drops, lastCheck, delay)
    }

    constructor (now: int)
      ensures Valid() && Abstract() == State([], now, None)
    {
      counter, lastCheck, delay, drops := 0, now, None, [];
    }

    method NotifyDroppedFrame(n: nat)
      requires Valid()
      modifies this
      ensures Valid() && Abstract() == Next(old(Abstract()), Notify(n))
    {
      drops := drops + Times(n, if delay.Some? then Delayed else Free);
      counter := counter + n;
    }

    method DelayFor(now: int, milliseconds: int)
      requires Valid()
      modifies this
      ensures Valid() && Abstract() == Next(old(Abstract()), Event.DelayFor(now + milliseconds))
    {
      delay := Some(now + milliseconds);
    }

    method NeedsBitrateReduction(now: int, check: int, late: nat) returns (alarm: bool)
      requires Valid()
      modifies this
      ensures Valid() && Abstract() == Next(old(Abstract()), Poll(now, check, late))
      ensures alarm == Alarm(old(Abstract()), Poll(now, check, late))
    {
      if delay.Some? {
        if now >= delay.value {
          lastCheck := check;
          drops := Times(late, Late);
          counter := late;
          delay := None;
        }
        return false;
      }
      if now - lastCheck >= PERIOD {
        lastCheck := check;
        var dropped := counter;
        drops, counter := [], 0;
        if dropped > MAX_DROPPED_FRAMES_ALLOWED {
          return true;
        }
      }
      return false;
    }
  }
}
