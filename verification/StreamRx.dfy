/** The receiving end in FEC-disabled mode, and telemetry end to end. */
module StreamRx {
  import opened Wire
  import opened FunkyQueues
  import opened SequenceWindow
  import StreamTx

  datatype Delivery = Delivery(number: nat, payload: bytes)

  /** Eight header bytes and at least one byte of payload. */
  predicate IsPacket(data: bytes) {
    |data| >= 9
  }

  function Number(data: bytes): nat
    requires IsPacket(data)
  {
    FromLittleEndian(data[..8])
  }

  ghost function Decode(f: Filter, data: bytes): Filter {
    if IsPacket(data) then Accept(f, Number(data)) else f
  }

  function Output(f: Filter, data: bytes): seq<Delivery> {
    if IsPacket(data) && Forwards(f, Number(data)) then [Delivery(Number(data), data[8..])] else []
  }

  /** Up to eight bytes are no packet. */
  lemma ShortIsIgnored(f: Filter, data: bytes)
    requires |data| <= 8
    ensures Decode(f, data) == f && Output(f, data) == []
  {
  }

  class FecDisabledDecoder {
    var known: set<nat>
    var firstEver: bool
    var out: seq<Delivery>

    ghost function State(): Filter
      reads this
    {
      Filter(known, firstEver)
    }

    constructor ()
      ensures State() == Fresh && out == []
    {
      known, firstEver, out := {}, true, [];
    }

    method ProcessPacket(data: bytes)
      modifies this
      ensures State() == Decode(old(State()), data)
      ensures out == old(out) + Output(old(State()), data)
    {
      if |data| < 9 {
        return;
      }
      ProcessNumberAndPayload(FromLittleEndian(data[..8]), data[8..]);
    }

    method ProcessNumberAndPayload(number: nat, payload: bytes)
      modifies this
      ensures State() == Accept(old(State()), number)
      ensures out == old(out) +
        if Forwards(old(State()), number) then [Delivery(number, payload)] else []
    {
      if firstEver {
        known := {};
        out := out + [Delivery(number, payload)];
        known := known + {number};
        firstEver := false;
      }
      if number !in known {
        out := out + [Delivery(number, payload)];
        known := known + {number};
      }
      assert known == if old(firstEver) then {number} else old(known) + {number};
      Housekeep();
    }

    /** Drops the smallest key, where an ordered map begins, once the map is too large. */
    method Housekeep()
      modifies this`known
      ensures known == if |old(known)| >= MAX_SIZE_OF_MAP - 1
        then old(known) - {Smallest(old(known))} else old(known)
    {
      if |known| >= MAX_SIZE_OF_MAP - 1 {
        assert Smallest(known) in known;
        var begin :| begin in known && forall x | x in known :: begin <= x;
        known := known - {begin};
      }
    }

    method ResetPacketsMap()
      modifies this
      ensures State() == Filter({}, old(firstEver)) && out == old(out)
    {
      known := {};
    }
  }

  class WbStreamRx {
    const enableThreading: bool
    const packetQueue: FunkyQueue<bytes>
    const decoder: FecDisabledDecoder
    var nInputPackets: nat

    constructor (enableThreading: bool, packetQueueSize: nat)
      ensures fresh(packetQueue) && fresh(decoder) && packetQueue.queue == []
      ensures this.enableThreading == enableThreading && packetQueue.capacity == packetQueueSize
      ensures decoder.State() == Fresh && decoder.out == [] && nInputPackets == 0
    {
      this.enableThreading := enableThreading;
      packetQueue := new FunkyQueue(packetQueueSize);
      decoder := new FecDisabledDecoder();
      nInputPackets := 0;
    }

    method OnNewPacket(data: bytes)
      modifies this, packetQueue, decoder
      ensures nInputPackets == old(nInputPackets) + 1
      ensures packetQueue.queue == if enableThreading
        then TryPut(packetQueue.capacity, old(packetQueue.queue), data) else old(packetQueue.queue)
      ensures decoder.State() ==
        if enableThreading then old(decoder.State()) else Decode(old(decoder.State()), data)
      ensures decoder.out == old(decoder.out) +
        if enableThreading then [] else Output(old(decoder.State()), data)
    {
      nInputPackets := nInputPackets + 1;
      if enableThreading {
        var res := packetQueue.TryEnqueue(data);
      } else {
        decoder.ProcessPacket(data);
      }
    }

    /** One turn of the processing thread. */
    method LoopProcessData()
      modifies packetQueue, decoder
      ensures old(packetQueue.queue) == [] ==>
        && packetQueue.queue == []
        && decoder.State() == old(decoder.State()) && decoder.out == old(decoder.out)
      ensures old(packetQueue.queue) != [] ==>
        && packetQueue.queue == old(packetQueue.queue)[1..]
        && decoder.State() == Decode(old(decoder.State()), old(packetQueue.queue)[0])
        && decoder.out == old(decoder.out) +
          Output(old(decoder.State()), old(packetQueue.queue)[0])
    {
      var opt := packetQueue.WaitDequeueTimed();
      if opt.Some? {
        decoder.ProcessPacket(opt.value);
      }
    }

    /** The queue is not emptied: packets of the previous session are still processed. */
    method OnNewSession()
      modifies this, decoder
      ensures decoder.State() == Filter({}, old(decoder.firstEver))
      ensures decoder.out == old(decoder.out) && nInputPackets == 0
      ensures packetQueue.queue == old(packetQueue.queue)
    {
      decoder.ResetPacketsMap();
      nInputPackets := 0;
    }
  }

  // ----- runs of the decoder -----

  /** How a session begins: freshly built, or after a session change. */
  predicate SessionStart(f: Filter) {
    f.known == {}
  }

  lemma SessionsStart(f: Filter)
    ensures SessionStart(Fresh) && SessionStart(Step(f, NewSession))
  {
  }

  ghost function RunRx(f: Filter, arrivals: seq<bytes>): Filter {
    if arrivals == [] then f
    else Decode(RunRx(f, arrivals[..|arrivals| - 1]), arrivals[|arrivals| - 1])
  }

  ghost function Delivered(f: Filter, arrivals: seq<bytes>): seq<Delivery> {
    if arrivals == [] then [] else
      var before := arrivals[..|arrivals| - 1];
      Delivered(f, before) + Output(RunRx(f, before), arrivals[|arrivals| - 1])
  }

  /** The packet numbers that arrived. */
  ghost function Heard(arrivals: seq<bytes>): set<nat> {
    set a | a in arrivals && IsPacket(a) :: Number(a)
  }

  lemma HeardOneMore(arrivals: seq<bytes>, a: bytes)
    ensures Heard(arrivals + [a]) ==
      Heard(arrivals) + if IsPacket(a) then {Number(a)} else {}
  {
    forall n ensures n in Heard(arrivals + [a]) <==>
        n in Heard(arrivals) + if IsPacket(a) then {Number(a)} else {} {
      if n in Heard(arrivals) {
        var b :| b in arrivals && IsPacket(b) && Number(b) == n;
        assert b in arrivals + [a];
      }
      if IsPacket(a) && n == Number(a) {
        assert a in arrivals + [a];
      }
    }
  }

  lemma {:induction false} RunRxIsWindow(f: Filter, arrivals: seq<bytes>)
    requires SessionStart(f)
    ensures IsTop(RunRx(f, arrivals).known, Heard(arrivals))
    ensures RunRx(f, arrivals).firstEver ==> Heard(arrivals) == {}
  {
    if arrivals != [] {
      var before, a := arrivals[..|arrivals| - 1], arrivals[|arrivals| - 1];
      assert before + [a] == arrivals;
      RunRxIsWindow(f, before);
      HeardOneMore(before, a);
      if IsPacket(a) {
        AcceptKeepsTop(RunRx(f, before), Heard(before), Number(a));
      }
    }
  }

  ghost function TimesDelivered(ds: seq<Delivery>, s: nat): nat {
    if ds == [] then 0 else
      TimesDelivered(ds[..|ds| - 1], s) + if ds[|ds| - 1].number == s then 1 else 0
  }

  /** Arrival `j` repeats number `s` after WINDOW distinct larger numbers arrived. */
  ghost predicate LateRepeat(arrivals: seq<bytes>, s: nat, j: nat)
    requires j < |arrivals|
  {
    && IsPacket(arrivals[j]) && Number(arrivals[j]) == s
    && s in Heard(arrivals[..j])
    && |Larger(Heard(arrivals[..j]), s)| >= WINDOW
  }

  lemma TimesDeliveredOneMore(ds: seq<Delivery>, d: Delivery, s: nat)
    ensures TimesDelivered(ds + [d], s) == TimesDelivered(ds, s) + if d.number == s then 1 else 0
  {
    assert (ds + [d])[..|ds|] == ds;
  }

  ghost predicate HasLateRepeat(arrivals: seq<bytes>, s: nat) {
    exists j :: 0 <= j < |arrivals| && LateRepeat(arrivals, s, j)
  }

  lemma HasLateRepeatOneMore(before: seq<bytes>, a: bytes, s: nat)
    ensures HasLateRepeat(before + [a], s) <==>
      || HasLateRepeat(before, s)
      || (IsPacket(a) && Number(a) == s && s in Heard(before) && |Larger(Heard(before), s)| >= WINDOW)
  {
    var arrivals := before + [a];
    forall j | 0 <= j < |arrivals| ensures arrivals[..j] == before[..j] {}
    assert arrivals[..|before|] == before;
    assert LateRepeat(arrivals, s, |before|) <==>
      IsPacket(a) && Number(a) == s && s in Heard(before) && |Larger(Heard(before), s)| >= WINDOW;
    forall j | 0 <= j < |before| ensures LateRepeat(arrivals, s, j) <==> LateRepeat(before, s, j) {}
  }

  lemma DeliveredOneMore(f: Filter, before: seq<bytes>, a: bytes, s: nat)
    requires SessionStart(f)
    ensures TimesDelivered(Delivered(f, before + [a]), s) == TimesDelivered(Delivered(f, before), s) +
      if IsPacket(a) && Number(a) == s
        && (s !in Heard(before) || |Larger(Heard(before), s)| >= WINDOW) then 1 else 0
  {
    assert (before + [a])[..|before|] == before;
    RunRxIsWindow(f, before);
    if IsPacket(a) {
      TopMember(RunRx(f, before).known, Heard(before), Number(a));
      TimesDeliveredOneMore(Delivered(f, before), Delivery(Number(a), a[8..]), s);
    }
    assert Delivered(f, before) + [] == Delivered(f, before);
  }

  /** In any session, for any loss, duplication and reordering: number `s` is delivered iff some copy arrives,
      and more than once iff a repeat arrives after WINDOW distinct larger numbers. */
  lemma {:induction false} DeliveryCount(f: Filter, arrivals: seq<bytes>, s: nat)
    requires SessionStart(f)
    ensures TimesDelivered(Delivered(f, arrivals), s) >= 1 <==> s in Heard(arrivals)
    ensures TimesDelivered(Delivered(f, arrivals), s) > 1 <==> HasLateRepeat(arrivals, s)
  {
    if arrivals != [] {
      var before, a := arrivals[..|arrivals| - 1], arrivals[|arrivals| - 1];
      assert before + [a] == arrivals;
      DeliveryCount(f, before, s);
      HeardOneMore(before, a);
      HasLateRepeatOneMore(before, a, s);
      DeliveredOneMore(f, before, a, s);
    }
  }

  // ----- end to end -----

  /** Nothing is invented on the way: every arrival is one of the injected packets. */
  ghost predicate Carried(arrivals: seq<bytes>, ps: seq<StreamTx.Packet>) {
    forall a | a in arrivals :: a in StreamTx.Sent(ps)
  }

  lemma {:induction false} SentOrigin(ps: seq<StreamTx.Packet>, a: bytes) returns (k: nat)
    requires a in StreamTx.Sent(ps)
    ensures k < |ps| && ps[k].nInjections > 0
    ensures a == StreamTx.EncodePacket(StreamTx.NumberOf(k), ps[k].data)
  {
    k := |ps| - 1;
    if a in StreamTx.Sent(ps[..k]) {
      k := SentOrigin(ps[..k], a);
    }
  }

  lemma EncodedNumber(k: nat, payload: bytes)
    requires k < TWO64 && payload != []
    ensures var a := StreamTx.EncodePacket(k, payload);
      IsPacket(a) && Number(a) == k && a[8..] == payload
  {
    Pow256Of8();
    WordRoundTrip(k, 8);
    var a := StreamTx.EncodePacket(k, payload);
    assert a[..8] == LittleEndian(k, 8);
  }

  /** Every delivery is the unchanged, non-empty payload that was sent under its number. */
  lemma {:induction false} DeliveredIntact(f: Filter, ps: seq<StreamTx.Packet>,
                                           arrivals: seq<bytes>)
    requires |ps| < StreamTx.PERIOD && Carried(arrivals, ps)
    ensures forall d | d in Delivered(f, arrivals) ::
      d.number < |ps| && d.payload == ps[d.number].data && d.payload != []
  {
    if arrivals != [] {
      var before, a := arrivals[..|arrivals| - 1], arrivals[|arrivals| - 1];
      DeliveredIntact(f, ps, before);
      var k := SentOrigin(ps, a);
      if ps[k].data != [] {
        EncodedNumber(k, ps[k].data);
      }
    }
  }

  /** Telemetry end to end within any session of the receiver, while the sender has numbered fewer
      than 2^64 - 1 packets: payload `s` comes out exactly once iff a copy of it arrives in that
      session and no copy arrives both repeated and overtaken by WINDOW distinct larger numbers; and
      whatever comes out is intact. */
  lemma ExactlyOnce(f: Filter, ps: seq<StreamTx.Packet>, arrivals: seq<bytes>, s: nat)
    requires SessionStart(f) && |ps| < StreamTx.PERIOD && Carried(arrivals, ps)
    requires s < |ps| && ps[s].data != []
    ensures TimesDelivered(Delivered(f, arrivals), s) == 1 <==>
      && StreamTx.EncodePacket(s, ps[s].data) in arrivals
      && !HasLateRepeat(arrivals, s)
    ensures forall d | d in Delivered(f, arrivals) && d.number == s :: d.payload == ps[s].data
  {
    DeliveryCount(f, arrivals, s);
    DeliveredIntact(f, ps, arrivals);
    EncodedNumber(s, ps[s].data);
    if s in Heard(arrivals) {
      var a :| a in arrivals && IsPacket(a) && Number(a) == s;
      var k := SentOrigin(ps, a);
      assert |a| == 8 + |ps[k].data|;
      EncodedNumber(k, ps[k].data);
    }
  }

  // ----- session change -----

  /** A session change while `stale` packets are queued (threading on): the first copy of the new
      session's number `s` is lost iff `s` is in the window of the stale numbers. With an empty
      queue nothing is lost. */
  lemma FirstCopyAfterSessionChange(f: Filter, stale: seq<bytes>, a: bytes)
    requires IsPacket(a)
    ensures Output(RunRx(Step(f, NewSession), stale), a) == [] <==>
      Number(a) in Heard(stale) && |Larger(Heard(stale), Number(a))| < WINDOW
  {
    RunRxIsWindow(Step(f, NewSession), stale);
    TopMember(RunRx(Step(f, NewSession), stale).known, Heard(stale), Number(a));
  }

  /** One stale packet numbered 0 in the queue is enough to lose packet 0 of the new session. */
  lemma StalePacketHidesFirst(f: Filter, old': byte, new': byte)
    ensures var stale, a := StreamTx.EncodePacket(0, [old']), StreamTx.EncodePacket(0, [new']);
      Output(RunRx(Step(f, NewSession), [stale]), a) == []
  {
    var stale, a := StreamTx.EncodePacket(0, [old']), StreamTx.EncodePacket(0, [new']);
    EncodedNumber(0, [old']);
    EncodedNumber(0, [new']);
    FirstCopyAfterSessionChange(f, [stale], a);
    assert stale in [stale];
    assert forall b | b in [stale] :: Number(b) == 0;
    assert Larger(Heard([stale]), 0) == {};
  }
}
