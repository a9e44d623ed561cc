/** The transmitting end of a stream: packet mode (telemetry, FEC disabled) and block mode
    (video). Counters are unbounded integers here. */
module StreamTx {
  import opened Wire
  import opened FunkyQueues
  import opened Options

  /** Packet numbers are 0 .. 2^64 - 2: the largest uint64_t is skipped on wrap. */
  const PERIOD: nat := TWO64 - 1

  datatype Packet = Packet(data: bytes, nInjections: int)

  function EncodePacket(number: nat, payload: bytes): bytes {
    LittleEndian(number, 8) + payload
  }

  function NextNumber(n: nat): nat {
    if n + 1 == PERIOD then 0 else n + 1
  }

  /** The number given to the k-th packet (from 0). */
  function NumberOf(k: nat): (n: nat)
    ensures n < PERIOD
    ensures k < PERIOD ==> n == k
  {
    if k == 0 then 0 else NextNumber(NumberOf(k - 1))
  }

  /** Numbers count up from 0 and start again after 2^64 - 2. */
  lemma {:induction false} NumbersWrap(k: nat)
    ensures NumberOf(k) == k % 0xFFFF_FFFF_FFFF_FFFF
  {
    if k > 0 {
      NumbersWrap(k - 1);
    }
  }

  /** The layout on air: eight bytes of number from the low end, then the payload. */
  lemma PacketBytes(number: nat, payload: bytes, i: nat)
    requires i < 8 + |payload|
    ensures |EncodePacket(number, payload)| == 8 + |payload|
    ensures EncodePacket(number, payload)[i] ==
      if i < 8 then number / Pow256(i) % 256 else payload[i - 8]
  {
    if i < 8 {
      LittleEndianByte(number, 8, i);
    }
  }

  class FecDisabledEncoder {
    var currPacketIndex: nat

    constructor ()
      ensures currPacketIndex == 0
    {
      currPacketIndex := 0;
    }

    method EncodePacketBuffer(buf: bytes) returns (tmp: bytes)
      requires currPacketIndex < PERIOD
      modifies this
      ensures tmp == EncodePacket(old(currPacketIndex), buf)
      ensures currPacketIndex == NextNumber(old(currPacketIndex))
    {
      tmp := LittleEndian(currPacketIndex, 8) + buf;
      currPacketIndex := currPacketIndex + 1;
      if currPacketIndex == TWO64 - 1 {
        currPacketIndex := 0;
      }
    }
  }

  function Max0(n: int): nat {
    if n > 0 then n else 0
  }

  function Copies(b: bytes, n: int): (r: seq<bytes>)
    ensures |r| == if n > 0 then n else 0
    ensures forall x | x in r :: x == b
  {
    if n <= 0 then [] else Copies(b, n - 1) + [b]
  }

  lemma AppendedCopies(air: seq<bytes>, b: bytes, n: int)
    ensures var after := air + Copies(b, n);
      && |after| == |air| + Max0(n) && after[..|air|] == air
      && forall i | |air| <= i < |after| :: after[i] == b
  {
    var sent := Copies(b, n);
    forall i | |air| <= i < |air + sent|
      ensures (air + sent)[i] == b
    {
      assert (air + sent)[i] == sent[i - |air|] && sent[i - |air|] in sent;
    }
  }

  /** Everything injected for a list of processed packets. */
  function Sent(ps: seq<Packet>): seq<bytes> {
    if ps == [] then [] else
      var k := |ps| - 1;
      Sent(ps[..k]) + Copies(EncodePacket(NumberOf(k), ps[k].data), ps[k].nInjections)
  }

  lemma SentOneMore(ps: seq<Packet>, p: Packet)
    ensures Sent(ps + [p]) ==
      Sent(ps) + Copies(EncodePacket(NumberOf(|ps|), p.data), p.nInjections)
  {
    assert (ps + [p])[..|ps|] == ps;
  }

  class PacketStreamTx {
    const packetQueue: FunkyQueue<Packet>
    const encoder: FecDisabledEncoder
    var nInputPackets: nat
    var nDroppedPackets: nat
    var air: seq<bytes>
    ghost var processed: seq<Packet>

    /** Conservation and numbering: every provided packet is processed, queued or counted as
        dropped, and what went on air is the numbered encoding of the processed packets. */
    ghost predicate Valid()
      reads this, packetQueue, encoder
    {
      && nInputPackets == |processed| + |packetQueue.queue| + nDroppedPackets
      && |packetQueue.queue| <= (if packetQueue.capacity == 0 then 1 else packetQueue.capacity)
      && encoder.currPacketIndex == NumberOf(|processed|)
      && air == Sent(processed)
    }

    constructor (packetDataQueueSize: nat)
      ensures Valid() && fresh(packetQueue) && fresh(encoder)
      ensures packetQueue.capacity == packetDataQueueSize && processed == []
    {
      packetQueue := new FunkyQueue(packetDataQueueSize);
      encoder := new FecDisabledEncoder();
      nInputPackets, nDroppedPackets, air, processed := 0, 0, [], [];
    }

    method TryEnqueuePacket(packet: Packet) returns (res: bool)
      requires Valid()
      modifies this, packetQueue
      ensures Valid() && air == old(air) && processed == old(processed)
      ensures nInputPackets == old(nInputPackets) + 1
      ensures packetQueue.queue == TryPut(packetQueue.capacity, old(packetQueue.queue), packet)
      ensures nDroppedPackets == old(nDroppedPackets) + if res then 0 else 1
    {
      nInputPackets := nInputPackets + 1;
      res := packetQueue.TryEnqueue(packet);
      if !res {
        nDroppedPackets := nDroppedPackets + 1;
      }
    }

    method EnqueuePacketDropping(packet: Packet) returns (nDropped: nat)
      requires Valid()
      modifies this, packetQueue
      ensures Valid() && air == old(air) && processed == old(processed)
      ensures nInputPackets == old(nInputPackets) + 1
      ensures packetQueue.queue == ForcePut(packetQueue.capacity, old(packetQueue.queue), packet)
      ensures nDroppedPackets == old(nDroppedPackets) + nDropped
    {
      nInputPackets := nInputPackets + 1;
      nDropped := packetQueue.EnqueueOrClearEnqueue(packet);
      if nDropped > 0 {
        nDroppedPackets := nDroppedPackets + nDropped;
      }
    }

    /** One turn of the dequeue thread. */
    method LoopProcessData()
      requires Valid()
      modifies this, packetQueue, encoder
      ensures Valid()
      ensures nInputPackets == old(nInputPackets) && nDroppedPackets == old(nDroppedPackets)
      ensures old(packetQueue.queue) == [] ==>
        packetQueue.queue == [] && processed == old(processed) && air == old(air)
      ensures old(packetQueue.queue) != [] ==>
        && packetQueue.queue == old(packetQueue.queue)[1..]
        && processed == old(processed) + [old(packetQueue.queue)[0]]
        && |air| == |old(air)| + Max0(old(packetQueue.queue)[0].nInjections)
        && air[..|old(air)|] == old(air)
        && forall i | |old(air)| <= i < |air| ::
             air[i] == EncodePacket(NumberOf(|old(processed)|), old(packetQueue.queue)[0].data)
    {
      hide Sent, Copies, EncodePacket, NumberOf;
      var opt := packetQueue.WaitDequeueTimed();
      if opt.Some? {
        AppendedCopies(air, EncodePacket(NumberOf(|processed|), opt.value.data),
                       opt.value.nInjections);
        ProcessEnqueuedPacket(opt.value);
      }
    }

    method ProcessEnqueuedPacket(packet: Packet)
      requires encoder.currPacketIndex == NumberOf(|processed|) && air == Sent(processed)
      modifies this`air, this`processed, encoder
      ensures processed == old(processed) + [packet]
      ensures encoder.currPacketIndex == NumberOf(|processed|) && air == Sent(processed)
      ensures air == old(air) + Copies(EncodePacket(NumberOf(|old(processed)|), packet.data),
                                       packet.nInjections)
    {
      hide Sent, Copies, EncodePacket;
      SentOneMore(processed, packet);
      var buff := encoder.EncodePacketBuffer(packet.data);
      Inject(buff, packet.nInjections);
      processed := processed + [packet];
    }

    method Inject(buff: bytes, nInjections: int)
      modifies this`air
      ensures air == old(air) + Copies(buff, nInjections)
    {
      var i := 0;
      while i < nInjections
        invariant 0 <= i && (i <= nInjections || i == 0)
        invariant air == old(air) + Copies(buff, i)
      {
        air := air + [buff];
        i := i + 1;
      }
    }
  }

  // ----- block mode -----

  const FEC_PACKET_MAX_PAYLOAD_SIZE: nat := 1441

  datatype Block = Fragments(list: seq<bytes>) | WholeFrame(data: bytes)

  function Units(b: Block): nat {
    if b.Fragments? then |b.list| else 1
  }

  function SumUnits(q: seq<Block>): nat {
    if q == [] then 0 else Units(q[0]) + SumUnits(q[1..])
  }

  predicate SizesOk(fragments: seq<bytes>) {
    forall f | f in fragments :: 0 < |f| <= FEC_PACKET_MAX_PAYLOAD_SIZE
  }

  method CheckSizes(fragments: seq<bytes>) returns (ok: bool)
    ensures ok <==> SizesOk(fragments)
    ensures ok <==> forall f | f in fragments :: 1 <= |f| <= 1441
  {
    var i := 0;
    while i < |fragments|
      invariant i <= |fragments| && SizesOk(fragments[..i])
    {
      if |fragments[i]| == 0 || |fragments[i]| > FEC_PACKET_MAX_PAYLOAD_SIZE {
        return false;
      }
      i := i + 1;
    }
    assert fragments[..i] == fragments;
    return true;
  }

  /** By how much a dropping enqueue grows the packet counter: the size of the NEW block. */
  function CountedLoss(capacity: nat, q: seq<Block>, fragments: seq<bytes>): nat {
    if |q| >= capacity && q != [] then |fragments| else 0
  }

  /** What that enqueue really discards: the queued blocks. */
  function ActualLoss(capacity: nat, q: seq<Block>): nat {
    if |q| >= capacity then SumUnits(q) else 0
  }

  class BlockStreamTx {
    const blockQueue: FunkyQueue<Block>
    var nInputPackets: nat
    var nDroppedPackets: nat
    var nDroppedFrames: nat
    ghost var nAccepted: nat
    ghost var nProcessed: nat
    /** Fragments and frames that really were discarded. */
    ghost var lostUnits: nat

    /** Conservation of size-valid blocks. */
    ghost predicate Valid()
      reads this, blockQueue
    {
      nAccepted == nProcessed + |blockQueue.queue| + nDroppedFrames
    }

    constructor (blockDataQueueSize: nat)
      ensures Valid() && fresh(blockQueue) && blockQueue.capacity == blockDataQueueSize
      ensures nDroppedPackets == lostUnits == nAccepted == nProcessed == 0
    {
      blockQueue := new FunkyQueue(blockDataQueueSize);
      nInputPackets, nDroppedPackets, nDroppedFrames := 0, 0, 0;
      nAccepted, nProcessed, lostUnits := 0, 0, 0;
    }

    method TryEnqueueBlock(fragments: seq<bytes>) returns (res: bool)
      requires Valid()
      modifies this, blockQueue
      ensures Valid() && nProcessed == old(nProcessed)
      ensures nInputPackets == old(nInputPackets) + |fragments|
      ensures nAccepted == old(nAccepted) + if SizesOk(fragments) then 1 else 0
      ensures blockQueue.queue == if SizesOk(fragments)
        then TryPut(blockQueue.capacity, old(blockQueue.queue), Fragments(fragments))
        else old(blockQueue.queue)
      ensures res <==> SizesOk(fragments) && |old(blockQueue.queue)| < blockQueue.capacity
      ensures nDroppedFrames == old(nDroppedFrames) + if SizesOk(fragments) && !res then 1 else 0
      ensures nDroppedPackets - lostUnits == old(nDroppedPackets - lostUnits)
    {
      nInputPackets := nInputPackets + |fragments|;
      var ok := CheckSizes(fragments);
      if !ok {
        return false;
      }
      res := blockQueue.TryEnqueue(Fragments(fragments));
      nAccepted := nAccepted + 1;
      if !res {
        nDroppedPackets := nDroppedPackets + |fragments|;
        nDroppedFrames := nDroppedFrames + 1;
        lostUnits := lostUnits + |fragments|;
      }
    }

    method EnqueueBlockDropping(fragments: seq<bytes>) returns (ret: nat)
      requires Valid()
      modifies this, blockQueue
      ensures Valid() && nProcessed == old(nProcessed)
      ensures nInputPackets == old(nInputPackets) + |fragments|
      ensures nAccepted == old(nAccepted) + if SizesOk(fragments) then 1 else 0
      ensures blockQueue.queue == if SizesOk(fragments)
        then ForcePut(blockQueue.capacity, old(blockQueue.queue), Fragments(fragments))
        else old(blockQueue.queue)
      ensures ret == if SizesOk(fragments) && |old(blockQueue.queue)| >= blockQueue.capacity
        then |old(blockQueue.queue)| else 0
      ensures nDroppedFrames == old(nDroppedFrames) + ret
      ensures SizesOk(fragments) ==>
        && nDroppedPackets == old(nDroppedPackets)
          + CountedLoss(blockQueue.capacity, old(blockQueue.queue), fragments)
        && lostUnits == old(lostUnits) + ActualLoss(blockQueue.capacity, old(blockQueue.queue))
      ensures !SizesOk(fragments) ==>
        nDroppedPackets == old(nDroppedPackets) && lostUnits == old(lostUnits)
    {
      nInputPackets := nInputPackets + |fragments|;
      var ok := CheckSizes(fragments);
      if !ok {
        return 0;
      }
      ghost var queued := blockQueue.queue;
      ret := blockQueue.EnqueueOrClearEnqueue(Fragments(fragments));
      nAccepted := nAccepted + 1;
      if ret != 0 {
        nDroppedPackets := nDroppedPackets + |fragments|;
        nDroppedFrames := nDroppedFrames + ret;
        lostUnits := lostUnits + SumUnits(queued);
      }
    }

    method TryEnqueueFrame(frame: bytes) returns (res: bool)
      requires Valid()
      modifies this, blockQueue
      ensures Valid() && nProcessed == old(nProcessed)
      ensures nInputPackets == old(nInputPackets) + 1 && nAccepted == old(nAccepted) + 1
      ensures blockQueue.queue ==
        TryPut(blockQueue.capacity, old(blockQueue.queue), WholeFrame(frame))
      ensures nDroppedFrames == old(nDroppedFrames) + if res then 0 else 1
      ensures nDroppedPackets - lostUnits == old(nDroppedPackets - lostUnits)
    {
      nInputPackets := nInputPackets + 1;
      res := blockQueue.TryEnqueue(WholeFrame(frame));
      nAccepted := nAccepted + 1;
      if !res {
        nDroppedPackets := nDroppedPackets + 1;
        nDroppedFrames := nDroppedFrames + 1;
        lostUnits := lostUnits + 1;
      }
    }

    /** One turn of the dequeue thread; encoding the block is outside the model. */
    method LoopProcessData() returns (block: Option<Block>)
      requires Valid()
      modifies this, blockQueue
      ensures Valid() && nAccepted == old(nAccepted) && nDroppedFrames == old(nDroppedFrames)
      ensures nInputPackets == old(nInputPackets)
      ensures nDroppedPackets - lostUnits == old(nDroppedPackets - lostUnits)
      ensures old(blockQueue.queue) == [] ==> block == None && nProcessed == old(nProcessed)
      ensures old(blockQueue.queue) != [] ==>
        && block == Some(old(blockQueue.queue)[0]) && nProcessed == old(nProcessed) + 1
        && blockQueue.queue == old(blockQueue.queue)[1..]
    {
      block := blockQueue.WaitDequeueTimed();
      if block.Some? {
        nProcessed := nProcessed + 1;
      }
    }
  }

  /** The packet counter of block mode is exact over a dropping call iff nothing was queued out
      or the new block happens to have as many fragments as all those it pushed out. */
  lemma DropCounterExactIff(capacity: nat, q: seq<Block>, fragments: seq<bytes>)
    ensures CountedLoss(capacity, q, fragments) == ActualLoss(capacity, q) <==>
      |q| < capacity || q == [] || |fragments| == SumUnits(q)
  {
  }

  /** A three-fragment block pushed out by a one-fragment block is counted as one packet. */
  lemma DropCounterDrifts(a: bytes, b: bytes, c: bytes, d: bytes)
    ensures CountedLoss(1, [Fragments([a, b, c])], [d]) == 1
    ensures ActualLoss(1, [Fragments([a, b, c])]) == 3
  {
    var q := [Fragments([a, b, c])];
    assert q[1..] == [] && SumUnits(q) == 3 + SumUnits([]);
  }
}
