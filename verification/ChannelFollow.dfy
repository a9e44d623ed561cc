/** How the ground unit follows the air unit to another channel: two nodes, a lossy in-order
    radio, the receiver thread with its two separate stores and the polling work thread with its
    two separate loads, in every interleaving. */
module ChannelFollow {
  import opened Options
  import opened Management
  import WbLinks

  /** `epoch` is the number of the announcement the frequency was read from. */
  datatype Frame = Frame(frequency: int, width: int, epoch: nat)

  datatype Work = Idle | LeavingChannel

  /** `half` is the frequency the management thread has loaded for the frame it is packing. */
  datatype Air = Air(frequency: int, width: int, tuned: int, work: Work,
                     half: Option<(int, nat)>)

  datatype Poll = NoPoll | WidthLoaded(width: int) | Retuning(frequency: int, width: int)

  /** `storing` is the accepted frame whose width is stored and whose frequency is not yet;
      `last` is the last pair stored completely and not wiped by a scan since. */
  datatype Ground = Ground(frequency: int, tuned: int, currFrequency: int, currWidth: int,
                           reportedFrequency: int, reportedWidth: int, reportedEpoch: int,
                           inbox: seq<Frame>, storing: Option<Frame>, last: Option<Frame>,
                           poll: Poll)

  /** `announced` lists the frequencies ever announced, the current one last; `sent` collects the
      pairs put on air and `adopted` those the ground acted on. */
  datatype World = World(air: Air, gnd: Ground, announced: seq<int>,
                         sent: set<(int, int)>, adopted: seq<(int, int)>)

  datatype Step =
    | RequestFrequency(f: int)  // air: persist and announce
    | Retune                    // air: the delay is over, leave for the announced channel
    | RequestWidth(w: int)      // air: persist and announce a width
    | LoadFrequency             // air management thread: first half of a frame
    | Transmit(heard: bool)     // second half, and out; `heard` is the radio's choice
    | StoreWidth                // ground receiver thread
    | StoreFrequency
    | LoadWidth                 // ground work thread, polling
    | LoadReport                // ... second load and decision
    | Follow                    // ... the adopted channel is applied
    | GndFrequency(g: int)      // ground: the user's own frequency change
    | Visit(c: int)             // ground: scan or analyze tunes somewhere
    | WipeFrequency | WipeWidth // ground: a scan resets the report atomics
    | Found(c: int, w: int)     // ground: a scan succeeded
    | Return                    // ground: back to the persisted frequency

  function Epoch(w: World): int {
    |w.announced| - 1
  }

  predicate Enabled(w: World, e: Step) {
    match e
    case RequestFrequency(_) => w.air.work == Idle
    case Retune => w.air.work == LeavingChannel
    case RequestWidth(x) => w.air.work == Idle && (x == 10 || x == 20 || x == 40)
    case LoadFrequency => w.air.half == None && w.announced != []
    case Transmit(_) => w.air.half.Some?
    case StoreWidth => w.gnd.storing == None && w.gnd.inbox != []
    case StoreFrequency => w.gnd.storing.Some?
    case LoadReport => w.gnd.poll.WidthLoaded?
    case Follow => w.gnd.poll.Retuning?
    case WipeFrequency => w.gnd.poll == NoPoll
    case WipeWidth => w.gnd.poll == NoPoll
    case _ => w.gnd.poll == NoPoll
  }

  function Next(w: World, e: Step): World
    requires Enabled(w, e)
  {
    var a, g := w.air, w.gnd;
    match e
    case RequestFrequency(f) =>
      w.(air := a.(frequency := f, work := LeavingChannel), announced := w.announced + [f])
    case Retune => w.(air := a.(tuned := a.frequency, work := Idle))
    case RequestWidth(x) => w.(air := a.(width := x, work := LeavingChannel))
    case LoadFrequency =>
      w.(air := a.(half := Some((w.announced[Epoch(w)], Epoch(w)))))
    case Transmit(heard) =>
      var frame := Frame(a.half.value.0, a.width, a.half.value.1);
      w.(air := a.(half := None), sent := w.sent + {(frame.frequency, frame.width)},
         gnd := if heard && g.tuned == a.tuned then g.(inbox := g.inbox + [frame]) else g)
    case StoreWidth =>
      var frame := g.inbox[0];
      w.(gnd := if AcceptedWidth(frame.width)
                then g.(inbox := g.inbox[1..], reportedWidth := frame.width, storing := Some(frame),
                        last := None)
                else g.(inbox := g.inbox[1..]))
    case StoreFrequency =>
      var frame := g.storing.value;
      w.(gnd := g.(reportedFrequency := frame.frequency, reportedEpoch := frame.epoch,
                   storing := None,
                   last := if g.reportedWidth == frame.width then Some(frame) else None))
    case LoadWidth => w.(gnd := g.(poll := WidthLoaded(g.reportedWidth)))
    case LoadReport =>
      var f, x := g.reportedFrequency, g.poll.width;
      if WbLinks.Adopts(g.currFrequency, g.currWidth, f, x) then
        w.(gnd := g.(currFrequency := f, currWidth := x, frequency := f, poll := Retuning(f, x)),
           adopted := w.adopted + [(f, x)])
      else
        w.(gnd := g.(poll := NoPoll))
    case Follow => w.(gnd := g.(tuned := g.poll.frequency, poll := NoPoll))
    case GndFrequency(f) => w.(gnd := g.(frequency := f, tuned := f))
    case Visit(c) => w.(gnd := g.(tuned := c))
    case WipeFrequency =>
      w.(gnd := g.(reportedFrequency := -1, reportedEpoch := -1, last := None))
    case WipeWidth => w.(gnd := g.(reportedWidth := -1, last := None))
    case Found(c, x) => w.(gnd := g.(frequency := c, currWidth := x, tuned := c))
    case Return => w.(gnd := g.(tuned := g.frequency))
  }

  predicate Runs(w: World, es: seq<Step>)
    decreases es
  {
    es == [] || (Enabled(w, es[0]) && Runs(Next(w, es[0]), es[1..]))
  }

  function After(w: World, es: seq<Step>): World
    requires Runs(w, es)
    decreases es
  {
    if es == [] then w else After(Next(w, es[0]), es[1..])
  }

  /** Both units freshly started on frequencies of their own. */
  function Start(airFrequency: int, airWidth: int, gndFrequency: int): World {
    World(Air(airFrequency, airWidth, airFrequency, Idle, None),
          Ground(gndFrequency, gndFrequency, gndFrequency, 40, -1, -1, -1, [], None, None, NoPoll),
          [airFrequency], {}, [])
  }

  // ----- what every reachable world satisfies -----

  predicate FromHistory(w: World, f: int, epoch: int) {
    0 <= epoch < |w.announced| && w.announced[epoch] == f
  }

  predicate OnAir(w: World, frame: Frame) {
    FromHistory(w, frame.frequency, frame.epoch) && (frame.frequency, frame.width) in w.sent
  }

  predicate SentFrequency(w: World, f: int) {
    exists p :: p in w.sent && p.0 == f
  }

  predicate SentWidth(w: World, x: int) {
    exists p :: p in w.sent && p.1 == x
  }

  predicate AirOk(w: World) {
    && w.announced != [] && w.announced[Epoch(w)] == w.air.frequency
    && (w.air.work == Idle ==> w.air.tuned == w.air.frequency)
    && (w.air.half.Some? ==> FromHistory(w, w.air.half.value.0, w.air.half.value.1))
  }

  /** Frames on the ground were on air; reported, loaded and adopted values come from frames. */
  predicate GroundOk(w: World) {
    var g := w.gnd;
    && (forall i | 0 <= i < |g.inbox| :: OnAir(w, g.inbox[i]))
    && (g.storing.Some? ==> OnAir(w, g.storing.value) && AcceptedWidth(g.storing.value.width))
    && (g.reportedFrequency == g.reportedEpoch == -1
        || (FromHistory(w, g.reportedFrequency, g.reportedEpoch)
            && SentFrequency(w, g.reportedFrequency)))
    && (g.reportedWidth == -1 || (SentWidth(w, g.reportedWidth) && AcceptedWidth(g.reportedWidth)))
    && (g.last.Some? ==>
          && g.storing == None && AcceptedWidth(g.last.value.width) && OnAir(w, g.last.value)
          && g.reportedFrequency == g.last.value.frequency
          && g.reportedWidth == g.last.value.width)
    && (g.poll.WidthLoaded? ==> g.poll.width == -1 || SentWidth(w, g.poll.width))
    && (g.poll.Retuning? ==> g.poll.frequency == g.currFrequency)
    && (forall p | p in w.adopted :: SentFrequency(w, p.0) && SentWidth(w, p.1))
  }

  /** The latest announcement a frame can carry that is still to be transmitted. */
  function Ceiling(w: World): int {
    if w.air.half.Some? then w.air.half.value.1 else Epoch(w)
  }

  /** Announcements travel in order: report atomic, frame being stored, inbox, and whatever the
      air unit sends next (`top` or later). */
  predicate Queued(g: Ground, top: int) {
    && (forall i, j | 0 <= i <= j < |g.inbox| :: g.inbox[i].epoch <= g.inbox[j].epoch)
    && (forall i | 0 <= i < |g.inbox| :: g.reportedEpoch <= g.inbox[i].epoch <= top)
    && (g.storing.Some? ==>
          && g.reportedEpoch <= g.storing.value.epoch <= top
          && forall i | 0 <= i < |g.inbox| :: g.storing.value.epoch <= g.inbox[i].epoch)
    && g.reportedEpoch <= top
  }

  predicate InOrder(w: World) {
    Ceiling(w) <= Epoch(w) && Queued(w.gnd, Ceiling(w))
  }

  predicate Ok(w: World) {
    AirOk(w) && GroundOk(w) && InOrder(w)
  }

  lemma StartOk(fa: int, xa: int, fg: int)
    ensures Ok(Start(fa, xa, fg)) && Synced(Start(fa, xa, fg).gnd)
  {
  }

  lemma NextAirOk(w: World, e: Step)
    requires Ok(w) && Enabled(w, e)
    ensures AirOk(Next(w, e))
  {
  }

  lemma NextInOrder(w: World, e: Step)
    requires Ok(w) && Enabled(w, e)
    ensures InOrder(Next(w, e))
  {
    var t := Next(w, e);
    assert Ceiling(w) <= Ceiling(t) <= Epoch(t);
    if e.Transmit? {
      TransmitQueued(w, e.heard);
    } else if e.StoreWidth? || e.StoreFrequency? || e.WipeFrequency? {
      StoreQueued(w, e);
    } else {
      assert t.gnd.inbox == w.gnd.inbox && t.gnd.storing == w.gnd.storing;
      assert t.gnd.reportedEpoch == w.gnd.reportedEpoch;
    }
  }

  lemma TransmitQueued(w: World, heard: bool)
    requires Queued(w.gnd, Ceiling(w)) && Enabled(w, Transmit(heard))
    ensures Queued(Next(w, Transmit(heard)).gnd, Ceiling(w))
  {
  }

  lemma StoreQueued(w: World, e: Step)
    requires Queued(w.gnd, Ceiling(w)) && Enabled(w, e) && -1 <= Ceiling(w)
    requires e.StoreWidth? || e.StoreFrequency? || e.WipeFrequency?
    ensures Queued(Next(w, e).gnd, Ceiling(w))
  {
  }

  lemma NextGroundOk(w: World, e: Step)
    requires Ok(w) && Enabled(w, e)
    ensures GroundOk(Next(w, e))
  {
    var t := Next(w, e);
    assert GroundOk(t.(gnd := w.gnd, adopted := w.adopted)) by {
      HistoryGrows(w, t.(gnd := w.gnd, adopted := w.adopted));
    }
    if e.Transmit? {
      assert t.gnd.(inbox := w.gnd.inbox) == w.gnd;
    } else {
      GroundStepOk(w, e);
    }
  }

  lemma HistoryGrows(w: World, t: World)
    requires GroundOk(w) && w.sent <= t.sent && w.announced <= t.announced
    requires t.gnd == w.gnd && t.adopted == w.adopted
    ensures GroundOk(t)
  {
    assert forall f | SentFrequency(w, f) :: SentFrequency(t, f);
    assert forall x | SentWidth(w, x) :: SentWidth(t, x);
  }

  lemma GroundStepOk(w: World, e: Step)
    requires Ok(w) && Enabled(w, e) && !e.Transmit?
    requires GroundOk(Next(w, e).(gnd := w.gnd, adopted := w.adopted))
    ensures GroundOk(Next(w, e))
  {
    hide AirOk, InOrder;
    if e.StoreWidth? || e.StoreFrequency? {
      StoreGroundOk(w, e);
    }
  }

  lemma StoreGroundOk(w: World, e: Step)
    requires GroundOk(w) && Enabled(w, e) && (e.StoreWidth? || e.StoreFrequency?)
    ensures GroundOk(Next(w, e))
  {
    var frame := if e.StoreWidth? then w.gnd.inbox[0] else w.gnd.storing.value;
    assert (frame.frequency, frame.width) in w.sent;
  }

  lemma NextOk(w: World, e: Step)
    requires Ok(w) && Enabled(w, e)
    ensures Ok(Next(w, e))
  {
    NextAirOk(w, e);
    NextGroundOk(w, e);
    NextInOrder(w, e);
  }

  /** The invariant holds in every run, whatever the two users and the radio do. */
  lemma {:induction false} RunsOk(w: World, es: seq<Step>)
    requires Ok(w) && Runs(w, es)
    ensures Ok(After(w, es))
    decreases es
  {
    if es != [] {
      NextOk(w, es[0]);
      RunsOk(Next(w, es[0]), es[1..]);
    }
  }

  /** Provenance: in every run, each frequency and each width the ground ever adopts by polling
      was put on air in some frame, and each such frequency had been announced. */
  lemma AdoptedWasOnAir(fa: int, xa: int, fg: int, es: seq<Step>, p: (int, int))
    requires Runs(Start(fa, xa, fg), es) && p in After(Start(fa, xa, fg), es).adopted
    ensures SentFrequency(After(Start(fa, xa, fg), es), p.0)
    ensures SentWidth(After(Start(fa, xa, fg), es), p.1)
  {
    StartOk(fa, xa, fg);
    RunsOk(Start(fa, xa, fg), es);
  }

  /** A poll with no store between its loads leaves the ground on exactly the last pair stored. */
  lemma UndisturbedPoll(w: World)
    requires Ok(w) && w.gnd.poll == NoPoll && w.gnd.last.Some?
    requires w.gnd.last.value.frequency > 100
    ensures Runs(w, [LoadWidth, LoadReport])
    ensures var t := After(w, [LoadWidth, LoadReport]);
      && t.gnd.currFrequency == w.gnd.last.value.frequency
      && t.gnd.currWidth == w.gnd.last.value.width
  {
    var w1 := Next(w, LoadWidth);
    assert [LoadWidth, LoadReport][1..] == [LoadReport];
    assert Runs(w1, [LoadReport]) && After(w1, [LoadReport]) == Next(w1, LoadReport);
  }

  // ----- following -----

  /** The ground's memory of what it follows agrees with where it is (or is going). */
  predicate Synced(g: Ground) {
    && g.currFrequency == g.frequency
    && (if g.poll.Retuning? then g.poll.frequency == g.frequency else g.tuned == g.frequency)
  }

  /** Steps of the ground's own user: frequency change, scan, analyze. */
  predicate GroundOwn(e: Step) {
    e.GndFrequency? || e.Visit? || e.WipeFrequency? || e.WipeWidth? || e.Found? || e.Return?
  }

  /** Everything but new requests on either side. */
  predicate Calm(e: Step) {
    !e.RequestFrequency? && !GroundOwn(e)
  }

  predicate AllCalm(es: seq<Step>) {
    forall e | e in es :: Calm(e)
  }

  /** A frame of the current announcement has been stored. */
  predicate Caught(w: World) {
    w.gnd.reportedEpoch == Epoch(w) && AcceptedWidth(w.gnd.reportedWidth)
  }

  predicate FreshPoll(w: World) {
    w.gnd.poll.WidthLoaded? ==> AcceptedWidth(w.gnd.poll.width)
  }

  /** The ground remembers the announced frequency as the one it follows, but is elsewhere. */
  predicate Astray(w: World) {
    var g := w.gnd;
    g.currFrequency == w.air.frequency && !g.poll.Retuning? && g.tuned != w.air.frequency
  }

  /** The ground is on `f`, or the poll in progress is about to put it there. */
  predicate OnCourse(g: Ground, f: int) {
    if g.poll.Retuning? then g.poll.frequency == f else g.tuned == f
  }

  lemma CaughtStep(w: World, e: Step)
    requires Ok(w) && Enabled(w, e) && Calm(e) && Caught(w)
    ensures var t := Next(w, e);
      Caught(t) && t.air.frequency == w.air.frequency && (FreshPoll(w) || e.LoadWidth? ==> FreshPoll(t))
  {
    hide AirOk, GroundOk;
  }

  lemma PollStep(w: World, e: Step)
    requires Ok(w) && Enabled(w, e) && Calm(e) && Caught(w) && w.air.frequency > 100
    requires w.gnd.currFrequency == w.air.frequency || (e.LoadReport? && FreshPoll(w))
    ensures Next(w, e).gnd.currFrequency == w.air.frequency
  {
    hide InOrder;
  }

  lemma CourseStep(w: World, e: Step)
    requires Ok(w) && Enabled(w, e) && Calm(e) && !Astray(w)
    ensures !Astray(Next(w, e))
  {
    hide AirOk, InOrder;
  }

  /** Nothing but a request makes a ground unit go astray. */
  lemma {:induction false} CourseRun(w: World, es: seq<Step>)
    requires Ok(w) && Runs(w, es) && AllCalm(es) && !Astray(w)
    ensures !Astray(After(w, es))
    decreases es
  {
    hide Astray, Ok;
    if es != [] {
      assert es[0] in es;
      CourseStep(w, es[0]);
      NextOk(w, es[0]);
      CourseRun(Next(w, es[0]), es[1..]);
    }
  }

  lemma {:induction false} CaughtRun(w: World, es: seq<Step>)
    requires Ok(w) && Runs(w, es) && AllCalm(es) && Caught(w) && w.air.frequency > 100
    ensures var t := After(w, es);
      && Ok(t) && Caught(t) && t.air.frequency == w.air.frequency
      && (FreshPoll(w) ==> FreshPoll(t))
      && (w.gnd.currFrequency == w.air.frequency ==> t.gnd.currFrequency == w.air.frequency)
    decreases es
  {
    hide Caught, Ok, FreshPoll;
    if es != [] {
      assert es[0] in es;
      CaughtStep(w, es[0]);
      if w.gnd.currFrequency == w.air.frequency {
        PollStep(w, es[0]);
      }
      NextOk(w, es[0]);
      CaughtRun(Next(w, es[0]), es[1..]);
    }
  }

  lemma {:induction false} Split(w: World, es: seq<Step>, e: Step, rest: seq<Step>)
    requires Runs(w, es + [e] + rest)
    ensures Runs(w, es) && Enabled(After(w, es), e)
    ensures var t := Next(After(w, es), e);
      Runs(t, rest) && After(w, es + [e] + rest) == After(t, rest)
    decreases es
  {
    var all := es + [e] + rest;
    if es == [] {
      assert all[0] == e && all[1..] == rest;
    } else {
      assert all[0] == es[0] && all[1..] == es[1..] + [e] + rest;
      Split(Next(w, es[0]), es[1..], e, rest);
    }
  }

  /** Poll, decide: up to and including the second load. The memory then agrees with the
      announcement, whatever it was before. */
  lemma PollRun(w: World, es1: seq<Step>, es2: seq<Step>, es3: seq<Step>) returns (v: World)
    requires Ok(w) && Caught(w) && w.air.frequency > 100 && AllCalm(es1) && AllCalm(es2)
    requires Runs(w, es1 + [LoadWidth] + (es2 + [LoadReport] + es3))
    ensures Runs(w, es1) && Enabled(After(w, es1), LoadWidth)
    ensures Runs(Next(After(w, es1), LoadWidth), es2)
    ensures v == After(Next(After(w, es1), LoadWidth), es2) && Enabled(v, LoadReport)
    ensures Ok(v) && Caught(v) && FreshPoll(v) && v.air.frequency == w.air.frequency
    ensures var t := Next(v, LoadReport);
      && Ok(t) && Caught(t) && t.gnd.currFrequency == t.air.frequency == w.air.frequency
      && Runs(t, es3)
      && After(w, es1 + [LoadWidth] + (es2 + [LoadReport] + es3)) == After(t, es3)
  {
    hide Ok, Caught, FreshPoll, Next;
    Split(w, es1, LoadWidth, es2 + [LoadReport] + es3);
    CaughtRun(w, es1);
    var w1 := After(w, es1);
    CaughtStep(w1, LoadWidth);
    NextOk(w1, LoadWidth);
    var w2 := Next(w1, LoadWidth);
    Split(w2, es2, LoadReport, es3);
    CaughtRun(w2, es2);
    v := After(w2, es2);
    CaughtStep(v, LoadReport);
    PollStep(v, LoadReport);
    NextOk(v, LoadReport);
  }

  lemma OnCourseAfter(w: World, es: seq<Step>)
    requires Ok(w) && Caught(w) && Runs(w, es) && AllCalm(es) && !Astray(w)
    requires w.gnd.currFrequency == w.air.frequency > 100
    ensures var t := After(w, es);
      OnCourse(t.gnd, w.air.frequency) && (t.air.work == Idle ==> t.air.tuned == w.air.frequency)
  {
    CaughtRun(w, es);
    CourseRun(w, es);
  }

  /** Channel following over whole runs: once one frame of the current announcement has been
      stored, one complete poll afterwards puts a ground unit that is not astray on the announced
      frequency, and with the air unit arrived as well both are tuned to it; nothing but a new
      request separates them again. When the air unit leaves, and how long either side takes, does
      not matter. */
  lemma FollowsOnceHeard(w: World, es1: seq<Step>, es2: seq<Step>, es3: seq<Step>)
    requires Ok(w) && !Astray(w) && Caught(w) && w.air.frequency > 100
    requires AllCalm(es1) && AllCalm(es2) && AllCalm(es3)
    requires Runs(w, es1 + [LoadWidth] + (es2 + [LoadReport] + es3))
    ensures var t := After(w, es1 + [LoadWidth] + (es2 + [LoadReport] + es3));
      OnCourse(t.gnd, w.air.frequency) && (t.air.work == Idle ==> t.air.tuned == w.air.frequency)
  {
    hide Ok, Caught, Astray, OnCourse, Next;
    var v := PollRun(w, es1, es2, es3);
    CourseRun(w, es1);
    RunsOk(w, es1);
    CourseStep(After(w, es1), LoadWidth);
    NextOk(After(w, es1), LoadWidth);
    CourseRun(Next(After(w, es1), LoadWidth), es2);
    CourseStep(v, LoadReport);
    OnCourseAfter(Next(v, LoadReport), es3);
  }

  /** Without steps of the ground's own user the ground's memory never goes stale. */
  lemma {:induction false} SyncedWithoutOwnSteps(w: World, es: seq<Step>)
    requires Synced(w.gnd) && Runs(w, es) && forall e | e in es :: !GroundOwn(e)
    ensures Synced(After(w, es).gnd) && !Astray(After(w, es))
    decreases es
  {
    if es != [] {
      assert es[0] in es;
      SyncedWithoutOwnSteps(Next(w, es[0]), es[1..]);
    }
  }

  lemma {:induction false} SplitAt(w: World, a: seq<Step>, b: seq<Step>)
    requires Runs(w, a + b)
    ensures Runs(w, a) && Runs(After(w, a), b) && After(w, a + b) == After(After(w, a), b)
    decreases a
  {
    if a == [] {
      assert a + b == b;
    } else {
      assert (a + b)[0] == a[0] && (a + b)[1..] == a[1..] + b;
      SplitAt(Next(w, a[0]), a[1..], b);
    }
  }

  /** A usable frame of the current announcement is on the ground: received, half stored, or
      stored. */
  predicate Pending(w: World) {
    var g := w.gnd;
    || Caught(w)
    || (g.storing.Some? && g.storing.value.epoch == Epoch(w) && AcceptedWidth(g.reportedWidth))
    || exists i :: 0 <= i < |g.inbox| && IsCurrent(w, g.inbox[i])
  }

  predicate IsCurrent(w: World, frame: Frame) {
    frame.epoch == Epoch(w) && AcceptedWidth(frame.width)
  }

  predicate ReceiverIdle(g: Ground) {
    g.inbox == [] && g.storing == None
  }

  lemma PendingStep(w: World, e: Step)
    requires Ok(w) && Enabled(w, e) && Calm(e) && Pending(w)
    ensures Pending(Next(w, e))
  {
    hide AirOk, GroundOk;
    var t := Next(w, e);
    if i :| 0 <= i < |w.gnd.inbox| && IsCurrent(w, w.gnd.inbox[i]) {
      assert IsCurrent(t, w.gnd.inbox[i]);
      if e.StoreWidth? {
        assert i > 0 ==> t.gnd.inbox[i - 1] == w.gnd.inbox[i];
      } else if i < |t.gnd.inbox| {
        assert t.gnd.inbox[i] == w.gnd.inbox[i];
      }
    }
  }

  /** Once received, the frame is stored by the time the receiver thread has nothing left to do,
      whatever else happens meanwhile. */
  lemma {:induction false} PendingRun(w: World, es: seq<Step>)
    requires Ok(w) && Runs(w, es) && AllCalm(es) && Pending(w)
    ensures Pending(After(w, es))
    ensures ReceiverIdle(After(w, es).gnd) ==> Caught(After(w, es))
    ensures After(w, es).air.frequency == w.air.frequency
    decreases es
  {
    hide Pending, Ok;
    if es != [] {
      assert es[0] in es;
      PendingStep(w, es[0]);
      NextOk(w, es[0]);
      PendingRun(Next(w, es[0]), es[1..]);
    } else {
      assert ReceiverIdle(w.gnd) ==> Caught(w) by { IdleIsCaught(w); }
    }
  }

  lemma IdleIsCaught(w: World)
    requires Pending(w)
    ensures ReceiverIdle(w.gnd) ==> Caught(w)
  {
  }

  /** The main theorem over whole lives. After any history whatever, one usable frame of the
      current announcement is heard by a ground unit that is not astray. Then, in whatever order
      the threads run, once the receiver thread has stored what came in (`es1`) and one poll has
      read it (`es2` and `es3` around its loads), both units are, or are about to be, on the
      announced frequency, and they stay together (`es4`) until the next request. */
  lemma FollowsIfHeardOnce(fa: int, xa: int, fg: int, es0: seq<Step>, es1: seq<Step>,
                           es2: seq<Step>, es3: seq<Step>, es4: seq<Step>)
    requires Runs(Start(fa, xa, fg), es0)
    requires var w := After(Start(fa, xa, fg), es0);
      Hears(w) && !Astray(w) && w.air.frequency > 100
    requires AllCalm(es1) && AllCalm(es2) && AllCalm(es3) && AllCalm(es4)
    requires var w := Next(After(Start(fa, xa, fg), es0), Transmit(true));
      && Runs(w, es1 + (es2 + [LoadWidth] + (es3 + [LoadReport] + es4)))
      && (Runs(w, es1) ==> ReceiverIdle(After(w, es1).gnd))
    ensures var w := Next(After(Start(fa, xa, fg), es0), Transmit(true));
      var t := After(w, es1 + (es2 + [LoadWidth] + (es3 + [LoadReport] + es4)));
      OnCourse(t.gnd, w.air.frequency) && (t.air.work == Idle ==> t.air.tuned == w.air.frequency)
  {
    var s := After(Start(fa, xa, fg), es0);
    StartOk(fa, xa, fg);
    RunsOk(Start(fa, xa, fg), es0);
    HearingIsPending(s);
    var w := Next(s, Transmit(true));
    SplitAt(w, es1, es2 + [LoadWidth] + (es3 + [LoadReport] + es4));
    RunsOk(w, es1);
    PendingRun(w, es1);
    CourseRun(w, es1);
    FollowsOnceHeard(After(w, es1), es2, es3, es4);
  }

  /** A usable frame of the current announcement is about to be heard. */
  predicate Hears(w: World) {
    && Enabled(w, Transmit(true)) && w.gnd.tuned == w.air.tuned
    && AcceptedWidth(w.air.width) && w.air.half.value.1 == Epoch(w)
  }

  lemma HearingIsPending(w: World)
    requires Ok(w) && Hears(w)
    ensures var t := Next(w, Transmit(true));
      Ok(t) && Pending(t) && t.air.frequency == w.air.frequency && (Astray(t) <==> Astray(w))
  {
    var t := Next(w, Transmit(true));
    NextOk(w, Transmit(true));
    assert IsCurrent(t, t.gnd.inbox[|w.gnd.inbox|]);
  }

  // ----- the other half: a ground unit that is astray -----

  lemma AdoptStep(w: World, e: Step)
    requires Ok(w) && Enabled(w, e) && Calm(e)
    ensures var t := Next(w, e);
      && |t.adopted| >= |w.adopted|
      && (Astray(t) <==> Astray(w) && |t.adopted| == |w.adopted|)
  {
    hide AirOk, InOrder;
  }

  /** Only adopting something ends being astray, and anything adopted does. */
  lemma {:induction false} AdoptRun(w: World, es: seq<Step>)
    requires Ok(w) && Runs(w, es) && AllCalm(es)
    ensures var t := After(w, es);
      && |t.adopted| >= |w.adopted|
      && (Astray(t) <==> Astray(w) && |t.adopted| == |w.adopted|)
    decreases es
  {
    hide Ok, Astray;
    if es != [] {
      assert es[0] in es;
      AdoptStep(w, es[0]);
      NextOk(w, es[0]);
      AdoptRun(Next(w, es[0]), es[1..]);
    }
  }

  /** The exact condition over whole lives with any news under way and any width changes: the ground
      unit follows iff it was not astray or some poll adopted a pair meanwhile. */
  lemma FollowsIffAdopts(fa: int, xa: int, fg: int, es0: seq<Step>, es1: seq<Step>,
                         es2: seq<Step>, es3: seq<Step>, es4: seq<Step>)
    requires Runs(Start(fa, xa, fg), es0)
    requires var w := After(Start(fa, xa, fg), es0); Hears(w) && w.air.frequency > 100
    requires AllCalm(es1) && AllCalm(es2) && AllCalm(es3) && AllCalm(es4)
    requires var w := Next(After(Start(fa, xa, fg), es0), Transmit(true));
      && Runs(w, es1 + (es2 + [LoadWidth] + (es3 + [LoadReport] + es4)))
      && (Runs(w, es1) ==> ReceiverIdle(After(w, es1).gnd))
    ensures var s := After(Start(fa, xa, fg), es0);
      var t := After(Next(s, Transmit(true)), es1 + (es2 + [LoadWidth] + (es3 + [LoadReport] + es4)));
      OnCourse(t.gnd, s.air.frequency) <==> !Astray(s) || |t.adopted| > |s.adopted|
  {
    hide Ok, Caught, FreshPoll, Pending;
    var s := After(Start(fa, xa, fg), es0);
    StartOk(fa, xa, fg);
    RunsOk(Start(fa, xa, fg), es0);
    HearingIsPending(s);
    var w := Next(s, Transmit(true));
    var rest := es2 + [LoadWidth] + (es3 + [LoadReport] + es4);
    AllCalmConcat(es1, es2, es3, es4);
    AdoptRun(w, es1 + rest);
    SplitAt(w, es1, rest);
    RunsOk(w, es1);
    PendingRun(w, es1);
    var v := PollRun(After(w, es1), es2, es3, es4);
    CaughtRun(Next(v, LoadReport), es4);
    RetunesToMemory(After(w, es1 + rest));
  }

  lemma AllCalmConcat(es1: seq<Step>, es2: seq<Step>, es3: seq<Step>, es4: seq<Step>)
    requires AllCalm(es1) && AllCalm(es2) && AllCalm(es3) && AllCalm(es4)
    ensures AllCalm(es1 + (es2 + [LoadWidth] + (es3 + [LoadReport] + es4)))
  {
  }

  /** Whatever can still reach the poll is about frequency `f` and width `x`, or is refused. */
  predicate OnlyAbout(w: World, f: int, x: int) {
    var g := w.gnd;
    && w.announced != [] && w.announced[Epoch(w)] == w.air.frequency == f && w.air.width == x
    && (w.air.half.Some? ==> w.air.half.value.0 == f)
    && (forall i | 0 <= i < |g.inbox| && AcceptedWidth(g.inbox[i].width) ::
          g.inbox[i].frequency == f && g.inbox[i].width == x)
    && (g.storing.Some? ==> g.storing.value.frequency == f)
    && (g.reportedFrequency == f || g.reportedFrequency <= 100)
    && (g.reportedWidth == x || !AcceptedWidth(g.reportedWidth))
    && (g.poll.WidthLoaded? ==> g.poll.width == x || !AcceptedWidth(g.poll.width))
  }

  /** Astray, and remembering the width that is on air as well. */
  predicate Lost(w: World) {
    Astray(w) && w.gnd.currWidth == w.air.width
  }

  predicate SameWidth(es: seq<Step>) {
    forall e | e in es :: !e.RequestWidth?
  }

  lemma OnlyAboutStep(w: World, e: Step, f: int, x: int)
    requires OnlyAbout(w, f, x) && Enabled(w, e) && Calm(e) && !e.RequestWidth?
    ensures OnlyAbout(Next(w, e), f, x)
  {
  }

  lemma LostStep(w: World, e: Step, f: int, x: int)
    requires Ok(w) && OnlyAbout(w, f, x) && Enabled(w, e) && Calm(e) && !e.RequestWidth?
    ensures Lost(Next(w, e)) <==> Lost(w)
    ensures Lost(w) ==> Next(w, e).gnd.tuned == w.gnd.tuned
  {
    hide AirOk, InOrder;
  }

  /** When all news is about one pair, a ground unit that is lost stays lost and does not move, and
      any other one does not get lost. */
  lemma {:induction false} LostRun(w: World, es: seq<Step>, f: int, x: int)
    requires Ok(w) && OnlyAbout(w, f, x) && Runs(w, es) && AllCalm(es) && SameWidth(es)
    ensures var t := After(w, es);
      && Ok(t) && OnlyAbout(t, f, x) && (Lost(t) <==> Lost(w))
      && (Lost(w) ==> t.gnd.tuned == w.gnd.tuned)
    decreases es
  {
    hide Ok, OnlyAbout, Lost;
    if es != [] {
      assert es[0] in es;
      OnlyAboutStep(w, es[0], f, x);
      LostStep(w, es[0], f, x);
      NextOk(w, es[0]);
      LostRun(Next(w, es[0]), es[1..], f, x);
    }
  }

  lemma NotLostFollows(v: World, f: int, x: int)
    requires Ok(v) && OnlyAbout(v, f, x) && Caught(v) && FreshPoll(v) && Enabled(v, LoadReport)
    requires !Lost(v) && f > 100
    ensures !Astray(Next(v, LoadReport))
  {
  }

  /** The exact condition over whole lives, when everything that can still reach the poll is about
      the announced pair: the ground unit follows iff it is not lost. */
  lemma FollowsIff(fa: int, xa: int, fg: int, es0: seq<Step>, es1: seq<Step>,
                   es2: seq<Step>, es3: seq<Step>, es4: seq<Step>)
    requires Runs(Start(fa, xa, fg), es0)
    requires var w := After(Start(fa, xa, fg), es0);
      Hears(w) && OnlyAbout(w, w.air.frequency, w.air.width) && w.air.frequency > 100
    requires AllCalm(es1) && AllCalm(es2) && AllCalm(es3) && AllCalm(es4)
    requires SameWidth(es1) && SameWidth(es2) && SameWidth(es3) && SameWidth(es4)
    requires var w := Next(After(Start(fa, xa, fg), es0), Transmit(true));
      && Runs(w, es1 + (es2 + [LoadWidth] + (es3 + [LoadReport] + es4)))
      && (Runs(w, es1) ==> ReceiverIdle(After(w, es1).gnd))
    ensures var s := After(Start(fa, xa, fg), es0);
      var t := After(Next(s, Transmit(true)), es1 + (es2 + [LoadWidth] + (es3 + [LoadReport] + es4)));
      OnCourse(t.gnd, s.air.frequency) <==> !Lost(s)
  {
    hide Next, Ok, Caught, FreshPoll, Pending;
    var s := After(Start(fa, xa, fg), es0);
    var f, x := s.air.frequency, s.air.width;
    StartOk(fa, xa, fg);
    RunsOk(Start(fa, xa, fg), es0);
    HearingIsPending(s);
    OnlyAboutStep(s, Transmit(true), f, x);
    LostStep(s, Transmit(true), f, x);
    var w := Next(s, Transmit(true));
    var rest := es2 + [LoadWidth] + (es3 + [LoadReport] + es4);
    SplitAt(w, es1, rest);
    LostRun(w, es1, f, x);
    PendingRun(w, es1);
    PollLostIff(After(w, es1), es2, es3, es4, f, x);
  }

  lemma PollLostIff(w: World, es1: seq<Step>, es2: seq<Step>, es3: seq<Step>, f: int, x: int)
    requires Ok(w) && Caught(w) && OnlyAbout(w, f, x) && f > 100
    requires AllCalm(es1) && AllCalm(es2) && AllCalm(es3)
    requires SameWidth(es1) && SameWidth(es2) && SameWidth(es3)
    requires Runs(w, es1 + [LoadWidth] + (es2 + [LoadReport] + es3))
    ensures OnCourse(After(w, es1 + [LoadWidth] + (es2 + [LoadReport] + es3)).gnd, f) <==> !Lost(w)
  {
    hide Next, Ok, Caught, FreshPoll;
    var v := PollRun(w, es1, es2, es3);
    LostRun(w, es1, f, x);
    var w1 := After(w, es1);
    OnlyAboutStep(w1, LoadWidth, f, x);
    LostStep(w1, LoadWidth, f, x);
    NextOk(w1, LoadWidth);
    LostRun(Next(w1, LoadWidth), es2, f, x);
    OnlyAboutStep(v, LoadReport, f, x);
    LostStep(v, LoadReport, f, x);
    var t := Next(v, LoadReport);
    LostRun(t, es3, f, x);
    if !Lost(w) {
      NotLostFollows(v, f, x);
      OnCourseAfter(t, es3);
    }
  }

  // ----- building runs -----

  lemma {:induction false} Extend(w: World, es: seq<Step>, e: Step)
    requires Runs(w, es) && Enabled(After(w, es), e)
    ensures Runs(w, es + [e]) && After(w, es + [e]) == Next(After(w, es), e)
    decreases es
  {
    if es == [] {
      assert (es + [e])[1..] == [];
    } else {
      assert (es + [e])[0] == es[0] && (es + [e])[1..] == es[1..] + [e];
      Extend(Next(w, es[0]), es[1..], e);
    }
  }

  lemma Go(w: World, es: seq<Step>, e: Step) returns (es': seq<Step>, t: World)
    requires Runs(w, es) && Enabled(After(w, es), e)
    ensures Runs(w, es') && t == After(w, es') == Next(After(w, es), e)
    ensures AllCalm(es) && Calm(e) ==> AllCalm(es')
  {
    Extend(w, es, e);
    es', t := es + [e], Next(After(w, es), e);
  }

  /** The receiver thread deals with one frame. */
  lemma StoreOne(w: World)
    requires Ok(w) && w.gnd.storing == None && w.gnd.inbox != []
    ensures var s := Next(w, StoreWidth);
      var t := if s.gnd.storing.Some? then Next(s, StoreFrequency) else s;
      && Ok(t) && t.gnd.storing == None && w.gnd.reportedEpoch <= t.gnd.reportedEpoch
      && (AcceptedWidth(w.gnd.inbox[0].width) ==>
            t.gnd.reportedEpoch == w.gnd.inbox[0].epoch && AcceptedWidth(t.gnd.reportedWidth))
  {
    var s := Next(w, StoreWidth);
    NextOk(w, StoreWidth);
    if s.gnd.storing.Some? {
      NextOk(s, StoreFrequency);
    }
  }

  /** The receiver thread works off its inbox. */
  lemma {:induction false} Drain(w: World, es: seq<Step>) returns (es': seq<Step>, t: World)
    requires Runs(w, es) && AllCalm(es) && Ok(After(w, es)) && After(w, es).gnd.storing == None
    ensures Runs(w, es') && t == After(w, es') && AllCalm(es') && Ok(t)
    ensures var s := After(w, es);
      && t.air == s.air && t.announced == s.announced && t.gnd.inbox == []
      && t.gnd.poll == s.gnd.poll && t.gnd.frequency == s.gnd.frequency
      && t.gnd.tuned == s.gnd.tuned && t.gnd.currFrequency == s.gnd.currFrequency
      && t.gnd.currWidth == s.gnd.currWidth && s.gnd.reportedEpoch <= t.gnd.reportedEpoch
      && (AcceptedWidth(s.gnd.reportedWidth) ==> AcceptedWidth(t.gnd.reportedWidth))
      && forall i | 0 <= i < |s.gnd.inbox| && AcceptedWidth(s.gnd.inbox[i].width) ::
           s.gnd.inbox[i].epoch <= t.gnd.reportedEpoch && AcceptedWidth(t.gnd.reportedWidth)
    decreases |After(w, es).gnd.inbox|
  {
    es', t := es, After(w, es);
    if t.gnd.inbox != [] {
      hide Ok, AllCalm;
      StoreOne(t);
      es', t := Go(w, es', Step.StoreWidth);
      if t.gnd.storing.Some? {
        es', t := Go(w, es', Step.StoreFrequency);
      }
      es', t := Drain(w, es');
    }
  }

  lemma RetunesToMemory(w: World)
    requires Ok(w)
    ensures w.gnd.poll.Retuning? ==> w.gnd.poll.frequency == w.gnd.currFrequency
  {
  }

  lemma DrainToCaught(w: World, i: nat) returns (es: seq<Step>, t: World)
    requires Ok(w) && !Astray(w) && w.gnd.poll == NoPoll && w.gnd.storing == None
    requires i < |w.gnd.inbox| && w.gnd.inbox[i].epoch == Epoch(w)
    requires AcceptedWidth(w.gnd.inbox[i].width)
    ensures Runs(w, es) && AllCalm(es) && t == After(w, es)
    ensures Ok(t) && !Astray(t) && Caught(t) && t.gnd.poll == NoPoll && t.air == w.air
  {
    es, t := Drain(w, []);
  }

  /** If a usable frame of the current announcement reached the ground in time, the two units can
      still come together, even when the air unit has left already. */
  lemma HeardInTimeReunites(w: World, i: nat) returns (es: seq<Step>, t: World)
    requires Ok(w) && !Astray(w) && w.gnd.poll == NoPoll && w.gnd.storing == None
    requires w.air.tuned == w.air.frequency > 100
    requires i < |w.gnd.inbox| && w.gnd.inbox[i].epoch == Epoch(w)
    requires AcceptedWidth(w.gnd.inbox[i].width)
    ensures Runs(w, es) && AllCalm(es) && t == After(w, es)
    ensures t.gnd.tuned == t.air.tuned == w.air.frequency
  {
    hide Ok, AllCalm;
    es, t := DrainToCaught(w, i);
    CaughtStep(t, LoadWidth);
    CourseStep(t, LoadWidth);
    NextOk(t, LoadWidth);
    es, t := Go(w, es, LoadWidth);
    PollStep(t, LoadReport);
    CourseStep(t, LoadReport);
    NextOk(t, LoadReport);
    assert Next(t, LoadReport).gnd.poll.Retuning? ==>
      Next(t, LoadReport).gnd.poll.frequency == w.air.frequency by {
      RetunesToMemory(Next(t, LoadReport));
    }
    es, t := Go(w, es, LoadReport);
    if t.gnd.poll.Retuning? {
      es, t := Go(w, es, Follow);
    }
  }

  // ----- missing the announcement -----

  /** The air unit is on `f` and nothing about `f` is on its way inside the ground unit. */
  predicate Deaf(w: World, f: int) {
    var g := w.gnd;
    && w.air.tuned == w.air.frequency == f && g.tuned != f
    && g.reportedFrequency != f
    && (g.storing.Some? ==> g.storing.value.frequency != f)
    && (forall i | 0 <= i < |g.inbox| :: g.inbox[i].frequency != f)
    && (g.poll.Retuning? ==> g.poll.frequency != f)
  }

  lemma DeafStep(w: World, e: Step, f: int)
    requires Deaf(w, f) && Enabled(w, e) && Calm(e)
    ensures Deaf(Next(w, e), f)
  {
  }

  /** There is no recovery: a ground unit that heard nothing before the air unit left stays
      separated from it until somebody makes a request. */
  lemma {:induction false} SeparatedForever(w: World, es: seq<Step>, f: int)
    requires Deaf(w, f) && Runs(w, es) && AllCalm(es)
    ensures After(w, es).gnd.tuned != f && After(w, es).air.tuned == f
    decreases es
  {
    if es != [] {
      assert es[0] in es;
      DeafStep(w, es[0], f);
      SeparatedForever(Next(w, es[0]), es[1..], f);
    }
  }

  /** On 10 MHz nothing is ever heard: every report of such a frame is refused. */
  lemma NarrowFramesAreRefused(w: World)
    requires Enabled(w, StoreWidth) && w.gnd.inbox[0].width == 10
    ensures Next(w, StoreWidth).gnd == w.gnd.(inbox := w.gnd.inbox[1..])
  {
  }

  // ----- what a stale memory and torn loads do -----

  /** One complete poll of a caught announcement brings the ground to the announced frequency iff
      its memory differs from the announced pair or it is there already. After steps of the
      ground's own user the memory can be stale, and then the announcement is ignored. */
  lemma PollFollowsIff(w: World)
    requires Ok(w) && Caught(w) && w.air.frequency > 100 && w.gnd.poll == NoPoll
    ensures var t := Next(Next(w, LoadWidth), LoadReport);
      var arrived := if t.gnd.poll.Retuning? then Next(t, Follow) else t;
      arrived.gnd.tuned == w.air.frequency <==>
        || w.gnd.currFrequency != w.air.frequency || w.gnd.currWidth != w.gnd.reportedWidth
        || w.gnd.tuned == w.air.frequency
  {
  }

  /** One announcement goes out, is heard and stored. */
  lemma GoAnnounce(w: World, es: seq<Step>) returns (es': seq<Step>, t: World)
    requires Runs(w, es) && After(w, es).air.half == None && After(w, es).announced != []
    requires After(w, es).gnd.tuned == After(w, es).air.tuned
    requires After(w, es).gnd.inbox == [] && After(w, es).gnd.storing == None
    requires AcceptedWidth(After(w, es).air.width)
    ensures Runs(w, es') && t == After(w, es')
    ensures var s := After(w, es);
      var frame := Frame(s.announced[Epoch(s)], s.air.width, Epoch(s));
      && t.gnd == s.gnd.(reportedFrequency := frame.frequency, reportedWidth := frame.width,
                         reportedEpoch := frame.epoch, last := Some(frame))
      && t.air == s.air && t.announced == s.announced && t.adopted == s.adopted
      && t.sent == s.sent + {(frame.frequency, frame.width)}
  {
    es', t := Go(w, es, LoadFrequency);
    es', t := Go(w, es', Transmit(true));
    es', t := Go(w, es', StoreWidth);
    es', t := Go(w, es', StoreFrequency);
  }

  /** Both units move to 5220 by requests of their own users, so the ground remembers 5180. */
  lemma MovedApart() returns (es: seq<Step>, t: World)
    ensures Runs(Start(5180, 20, 5180), es) && t == After(Start(5180, 20, 5180), es)
    ensures t.air == Air(5220, 20, 5220, Idle, None) && t.announced == [5180, 5220]
    ensures t.gnd.currFrequency == 5180 && t.gnd.currWidth == 20 && t.gnd.poll == NoPoll
    ensures t.gnd.tuned == t.gnd.frequency == 5220 && ReceiverIdle(t.gnd)
  {
    var w := Start(5180, 20, 5180);
    es, t := GoAnnounce(w, []);
    es, t := Go(w, es, LoadWidth);
    es, t := Go(w, es, LoadReport);
    es, t := Go(w, es, Follow);
    es, t := Go(w, es, GndFrequency(5220));
    es, t := Go(w, es, RequestFrequency(5220));
    es, t := Go(w, es, Retune);
  }

  /** The stale memory is reachable: both units on 5220, the air unit announces 5180, the ground
      hears it, polls, and stays on 5220 because 5180 is what it last adopted. */
  lemma StaleMemoryIgnoresAnnouncement() returns (es: seq<Step>, t: World)
    ensures Runs(Start(5180, 20, 5180), es) && t == After(Start(5180, 20, 5180), es)
    ensures Caught(t) && t.gnd.poll == NoPoll && t.air.work == Idle
    ensures t.air.tuned == 5180 && t.gnd.tuned == 5220
    ensures Lost(t) && OnlyAbout(t, 5180, 20)
  {
    var w := Start(5180, 20, 5180);
    es, t := MovedApart();
    es, t := Go(w, es, RequestFrequency(5180));
    es, t := GoAnnounce(w, es);
    es, t := Go(w, es, LoadWidth);
    es, t := Go(w, es, LoadReport);
    es, t := Go(w, es, Retune);
  }

  /** Torn loads are reachable: the ground adopts a pair that no frame ever carried. */
  lemma TornPairAdopted() returns (es: seq<Step>, t: World)
    ensures Runs(Start(5180, 20, 5180), es) && t == After(Start(5180, 20, 5180), es)
    ensures (5220, 20) in t.adopted && (5220, 20) !in t.sent
  {
    var w := Start(5180, 20, 5180);
    es, t := GoAnnounce(w, []);
    es, t := Go(w, es, LoadWidth);
    es, t := Go(w, es, RequestWidth(40));
    es, t := Go(w, es, Retune);
    es, t := Go(w, es, RequestFrequency(5220));
    es, t := GoAnnounce(w, es);
    es, t := Go(w, es, LoadReport);
    assert t.adopted == [(5220, 20)];
  }
}
