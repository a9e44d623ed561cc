/** The one-item work queue between requesting threads and the work thread, with every
    interleaving of the mutex operations. */
module WorkQueues {
  type Id = nat

  datatype Holder = Nobody | Worker | Requester(id: Id)
  datatype Event = Accept(id: Id) | Start(id: Id) | Finish(id: Id)

  /** `log` records what became of the items; `requested` are the requests seen so far, each
      with an id of its own. */
  datatype State = State(holder: Holder, queue: seq<Id>, executing: bool,
                         requested: set<Id>, rejected: set<Id>, log: seq<Event>)

  const Initial := State(Nobody, [], false, {}, {}, [])

  datatype Step =
    | TryLock(id: Id)          // requester: try_to_lock, rejected when the mutex is taken
    | Push(id: Id)             // requester holding the mutex: push if empty, else reject; unlock
    | Lock                     // worker
    | Begin(ready: bool)       // worker: start the front item if there is one and it is ready
    | End                      // worker: the item has run; pop and unlock

  predicate Enabled(s: State, e: Step) {
    match e
    case TryLock(id) => id !in s.requested
    case Push(id) => s.holder == Requester(id)
    case Lock => s.holder == Nobody
    case Begin(_) => s.holder == Worker && !s.executing
    case End => s.holder == Worker && s.executing && s.queue != []
  }

  function Next(s: State, e: Step): State
    requires Enabled(s, e)
  {
    match e
    case TryLock(id) =>
      var r := s.(requested := s.requested + {id});
      if s.holder == Nobody then r.(holder := Requester(id)) else r.(rejected := s.rejected + {id})
    case Push(id) =>
      if s.queue == [] then
        s.(holder := Nobody, queue := [id], log := s.log + [Accept(id)])
      else
        s.(holder := Nobody, rejected := s.rejected + {id})
    case Lock => s.(holder := Worker)
    case Begin(ready) =>
      if s.queue != [] && ready then
        s.(executing := true, log := s.log + [Start(s.queue[0])])
      else
        s.(holder := Nobody)
    case End =>
      s.(holder := Nobody, executing := false, queue := s.queue[1..],
         log := s.log + [Finish(s.queue[0])])
  }

  predicate Runs(s: State, es: seq<Step>)
    decreases es
  {
    es == [] || (Enabled(s, es[0]) && Runs(Next(s, es[0]), es[1..]))
  }

  function After(s: State, es: seq<Step>): State
    requires Runs(s, es)
    decreases es
  {
    if es == [] then s else After(Next(s, es[0]), es[1..])
  }

  function Lives(items: seq<Id>): seq<Event> {
    if items == [] then [] else
      var x := items[|items| - 1];
      Lives(items[..|items| - 1]) + [Accept(x), Start(x), Finish(x)]
  }

  /** What has happened to the item that is not finished yet. */
  function Open(s: State): seq<Event> {
    if s.queue == [] then [] else
      [Accept(s.queue[0])] + if s.executing then [Start(s.queue[0])] else []
  }

  /** The log is the lives of the `done` items one after the other, followed by the open item. */
  ghost predicate Serial(s: State, done: seq<Id>) {
    && |s.queue| <= 1
    && (s.executing ==> s.queue != [] && s.holder == Worker)
    && s.log == Lives(done) + Open(s)
    && (forall x | x in done + s.queue :: x in s.requested && x !in s.rejected)
    && (forall i, j | 0 <= i < j < |done + s.queue| :: (done + s.queue)[i] != (done + s.queue)[j])
    && (s.holder.Requester? ==>
          s.holder.id in s.requested && s.holder.id !in s.rejected
          && s.holder.id !in done + s.queue)
    && s.rejected <= s.requested
  }

  lemma NextIsSerial(s: State, e: Step, done: seq<Id>) returns (done': seq<Id>)
    requires Serial(s, done) && Enabled(s, e)
    ensures Serial(Next(s, e), done')
    ensures done' == if e.End? then done + s.queue else done
  {
    hide Serial;
    done' := done;
    match e
    case Push(id) =>
      PushIsSerial(s, id, done);
    case End =>
      done' := done + s.queue;
      EndIsSerial(s, done);
    case _ =>
      OtherIsSerial(s, e, done);
  }

  lemma PushIsSerial(s: State, id: Id, done: seq<Id>)
    requires Serial(s, done) && Enabled(s, Push(id))
    ensures Serial(Next(s, Push(id)), done)
  {
    if s.queue == [] {
      assert done + s.queue == done;
    }
  }

  lemma EndIsSerial(s: State, done: seq<Id>)
    requires Serial(s, done) && Enabled(s, End)
    ensures Serial(Next(s, End), done + s.queue)
  {
    var done' := done + s.queue;
    assert done'[..|done'| - 1] == done && done' + [] == done';
    assert s.queue == [s.queue[0]];
  }

  lemma OtherIsSerial(s: State, e: Step, done: seq<Id>)
    requires Serial(s, done) && Enabled(s, e) && (e.TryLock? || e.Lock? || e.Begin?)
    ensures Serial(Next(s, e), done)
  {
  }

  /** Over every interleaving of requesters and worker: the queue never holds more than one item,
      only accepted items run, none runs twice, execution order is acceptance order, and nothing
      is accepted between another item's acceptance and the end of its execution. */
  lemma {:induction false} WorkIsSerial(s: State, es: seq<Step>, done: seq<Id>)
      returns (done': seq<Id>)
    requires Serial(s, done) && Runs(s, es)
    ensures Serial(After(s, es), done') && done <= done'
    decreases es
  {
    done' := done;
    if es != [] {
      done' := NextIsSerial(s, es[0], done);
      done' := WorkIsSerial(Next(s, es[0]), es[1..], done');
    }
  }

  lemma WorkIsSerialFromStart(es: seq<Step>) returns (done: seq<Id>)
    requires Runs(Initial, es)
    ensures Serial(After(Initial, es), done)
  {
    done := WorkIsSerial(Initial, es, []);
  }

  /** A request is turned away only because the mutex is taken or the queue is not empty, and
      then no state but the record of the rejection changes. */
  lemma RejectionChangesNothing(s: State, e: Step)
    requires Enabled(s, e) && (e.TryLock? || e.Push?)
    ensures var t := Next(s, e);
      t.rejected != s.rejected ==>
        && t.queue == s.queue && t.log == s.log && t.executing == s.executing
        && (if e.TryLock? then s.holder != Nobody && t.holder == s.holder else s.queue != [])
  {
  }

  /** The queue as WBLink holds it; `log` records what becomes of the items. */
  class WorkItemQueue {
    var holder: Holder
    var queue: seq<Id>
    var executing: bool
    var requested: set<Id>
    var rejected: set<Id>
    var log: seq<Event>

    function View(): State
      reads this
    {
      State(holder, queue, executing, requested, rejected, log)
    }

    constructor ()
      ensures View() == Initial
    {
      holder, queue, executing, requested, rejected, log := Nobody, [], false, {}, {}, [];
    }

    /** try_schedule_work_item, with the mutex as it is found. */
    method TrySchedule(item: Id) returns (accepted: bool)
      requires item !in requested
      modifies this
      ensures var tried := Next(old(View()), TryLock(item));
        View() == if old(holder) == Nobody then Next(tried, Push(item)) else tried
      ensures accepted <==> old(holder) == Nobody && old(queue) == []
      ensures accepted ==> queue == [item] && log == old(log) + [Accept(item)]
      ensures !accepted ==> queue == old(queue) && log == old(log)
      ensures executing == old(executing) && holder == old(holder)
    {
      requested := requested + {item};
      if holder == Nobody {
        holder := Requester(item);
        if queue == [] {
          queue := queue + [item];
          log := log + [Accept(item)];
          holder := Nobody;
          return true;
        }
        holder, rejected := Nobody, rejected + {item};
        return false;
      }
      rejected := rejected + {item};
      return false;
    }

    /** The queue part of one turn of loop_do_work. */
    method LoopTurn(ready: bool)
      requires holder == Nobody && !executing
      modifies this
      ensures var begun := Next(Next(old(View()), Lock), Begin(ready));
        View() == if begun.executing then Next(begun, End) else begun
      ensures ready && old(queue) != [] ==>
        && queue == old(queue)[1..]
        && log == old(log) + [Start(old(queue)[0]), Finish(old(queue)[0])]
      ensures !ready || old(queue) == [] ==> queue == old(queue) && log == old(log)
      ensures holder == Nobody && !executing && rejected == old(rejected)
    {
      holder := Worker;
      if queue != [] {
        var front := queue[0];
        if ready {
          executing, log := true, log + [Start(front)];
          executing, log := false, log + [Finish(front)];
          queue := queue[1..];
        }
      }
      holder := Nobody;
    }
  }
}
