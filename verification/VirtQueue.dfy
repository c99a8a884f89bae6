/**
One split virtqueue with a single descriptor in flight: the driver's memory
accesses one by one, interleaved with those of a device (section 2.7 of VIRTIO
1.2). The device takes ring slots modulo the negotiated queue size, the driver
always modulo 16.
 */
module VirtQueue {
  import opened Common

  const QUEUE_SIZE: nat := 16
  const BUF_SIZE: nat := 4096
  const U16_LIMIT: nat := 0x1_0000

  type Index = i: nat | i < U16_LIMIT

  type Message = seq<Byte>

  datatype Desc = Desc(len: nat, writable: bool)

  datatype UsedElem = UsedElem(id: nat, len: nat)

  /** Where the driver is: between messages, buffer filled, descriptor written,
      ring entry written, polling, completion fetched. */
  datatype DriverPc = Idle | Loaded(len: nat) | Described | Ringed | Polling | Fetched(len: nat)

  /** Where the device is: waiting, holding a descriptor, data moved, ring entry
      written. */
  datatype DevicePc = Waiting | Taken(id: nat) | Moved(id: nat, len: nat) | Returned

  /** `rx` tells the direction. `put` and `got` are history: the messages their
      producer laid into the buffer and their consumer took out of it, the
      latter with the room it had in `caps`. */
  datatype Queue = Queue(
    rx: bool,
    desc: seq<Desc>, availRing: seq<nat>, availIdx: Index, usedRing: seq<UsedElem>, usedIdx: Index, buffer: seq<Byte>,
    driver: DriverPc, nextAvail: Index, lastUsed: Index,
    device: DevicePc, seen: Index,
    put: seq<Message>, got: seq<Message>, caps: seq<nat>)

  datatype Op =
    | Fill(data: Message) | Describe | Ring | Publish | Spin | Fetch | Read(cap: nat) | Finish
    | Take | Move(message: Message, written: nat) | Return | Release

  function Next(i: Index): Index {
    (i + 1) % U16_LIMIT
  }

  function Overwrite(buffer: seq<Byte>, data: seq<Byte>): (r: seq<Byte>)
    requires |data| <= |buffer|
    ensures |r| == |buffer| && r[..|data|] == data
  {
    data + buffer[|data|..]
  }

  function Min(a: nat, b: nat): nat {
    if a < b then a else b
  }

  /** A device may take up a descriptor when it sees one, writes only to a buffer
      marked writable and reads only from one that is not, puts no more than the
      descriptor allows, and may report any length for a buffer it only reads. */
  predicate Enabled(q: Queue, n: nat, op: Op) {
    match op
    case Fill(data) => !q.rx && q.driver == Idle && |data| <= BUF_SIZE
    case Describe => if q.rx then q.driver == Idle else q.driver.Loaded?
    case Ring => q.driver == Described
    case Publish => q.driver == Ringed
    case Spin => q.driver == Polling && q.usedIdx == q.lastUsed
    case Fetch => q.driver == Polling && q.usedIdx != q.lastUsed
    case Read(_) => q.rx && q.driver.Fetched?
    case Finish => !q.rx && q.driver.Fetched?
    case Take => q.device == Waiting && q.availIdx != q.seen
    case Move(m, _) =>
      && q.device.Taken? && q.device.id < |q.desc| && q.desc[q.device.id].len <= |q.buffer|
      && q.desc[q.device.id].writable == q.rx && (q.rx ==> |m| <= q.desc[q.device.id].len)
    case Return => q.device.Moved?
    case Release => q.device == Returned
  }

  ghost predicate Shape(q: Queue) {
    |q.desc| == QUEUE_SIZE && |q.availRing| == QUEUE_SIZE && |q.usedRing| == QUEUE_SIZE && |q.buffer| == BUF_SIZE
  }

  /** What the driver can settle on: the device's maximum, capped at 16. */
  predicate Negotiated(n: nat) {
    1 <= n <= QUEUE_SIZE
  }

  function Step(q: Queue, n: nat, op: Op): Queue
    requires Shape(q) && Negotiated(n) && Enabled(q, n, op)
  {
    match op
    case Fill(data) => q.(buffer := Overwrite(q.buffer, data), driver := Loaded(|data|), put := q.put + [data])
    case Describe =>
      var len := if q.rx then BUF_SIZE else q.driver.len;
      q.(desc := q.desc[0 := Desc(len, q.rx)], driver := Described)
    case Ring => q.(availRing := q.availRing[q.nextAvail % QUEUE_SIZE := 0], nextAvail := Next(q.nextAvail), driver := Ringed)
    case Publish => q.(availIdx := q.nextAvail, driver := Polling)
    case Spin => q
    case Fetch => q.(driver := Fetched(q.usedRing[q.lastUsed % QUEUE_SIZE].len), lastUsed := Next(q.lastUsed))
    case Read(cap) =>
      var k := Min(q.driver.len, Min(cap, BUF_SIZE));
      q.(driver := Idle, got := q.got + [q.buffer[..k]], caps := q.caps + [cap])
    case Finish => q.(driver := Idle)
    case Take => q.(device := Taken(q.availRing[q.seen % n]))
    case Move(m, written) =>
      var d := q.desc[q.device.id];
      if q.rx then q.(buffer := Overwrite(q.buffer, m), device := Moved(q.device.id, |m|), put := q.put + [m])
      else q.(device := Moved(q.device.id, written), got := q.got + [q.buffer[..d.len]])
    case Return => q.(usedRing := q.usedRing[q.seen % n := UsedElem(q.device.id, q.device.len)], device := Returned)
    case Release => q.(usedIdx := Next(q.seen), seen := Next(q.seen), device := Waiting)
  }

  function Fresh(rx: bool): Queue {
    Queue(rx, seq(QUEUE_SIZE, _ => Desc(0, false)), seq(QUEUE_SIZE, _ => 0), 0, seq(QUEUE_SIZE, _ => UsedElem(0, 0)), 0,
          seq(BUF_SIZE, _ => 0), Idle, 0, 0, Waiting, 0, [], [], [])
  }

  // ---------------------------------------------------------------------
  // The invariant
  // ---------------------------------------------------------------------

  /** The indices, by where the driver is; all modulo 2^16. */
  ghost predicate Indices(q: Queue) {
    && q.usedIdx == q.seen
    && match q.driver
       case Idle => q.nextAvail == q.availIdx == q.seen == q.lastUsed && q.device == Waiting
       case Loaded(_) => q.nextAvail == q.availIdx == q.seen == q.lastUsed && q.device == Waiting
       case Described => q.nextAvail == q.availIdx == q.seen == q.lastUsed && q.device == Waiting
       case Ringed => q.nextAvail == Next(q.availIdx) && q.availIdx == q.seen == q.lastUsed && q.device == Waiting
       case Polling => q.nextAvail == q.availIdx == Next(q.lastUsed) && (q.seen == q.lastUsed || (q.seen == q.availIdx && q.device == Waiting))
       case Fetched(_) => q.nextAvail == q.availIdx == q.seen == q.lastUsed && q.device == Waiting
  }

  /** Only descriptor 0 is ever offered, and it says which way the data goes. */
  ghost predicate Rings(q: Queue)
    requires Shape(q)
  {
    && (forall k | 0 <= k < QUEUE_SIZE :: q.availRing[k] == 0) && (q.device.Taken? ==> q.device.id == 0)
    && (q.driver != Idle && !q.driver.Loaded? ==> q.desc[0].writable == q.rx)
  }

  /** The driver has handed the buffer over and the data has not moved yet. */
  ghost predicate Before(q: Queue) {
    match q.driver
    case Idle => q.rx
    case Loaded(_) => true
    case Described => true
    case Ringed => true
    case Polling => q.seen == q.lastUsed && (q.device == Waiting || q.device.Taken?)
    case Fetched(_) => false
  }

  /** The last message put lies at the front of the buffer. */
  ghost predicate InBuffer(q: Queue) {
    |q.put| == |q.got| + 1 && q.got == q.put[..|q.got|]
    && var m := q.put[|q.got|]; |m| <= BUF_SIZE && |q.buffer| == BUF_SIZE && q.buffer[..|m|] == m
  }

  ghost predicate TxData(q: Queue)
    requires Shape(q)
  {
    if Before(q) then
      && InBuffer(q)
      && (q.driver.Loaded? ==> q.driver.len == |q.put[|q.got|]|)
      && (!q.driver.Loaded? ==> q.desc[0].len == |q.put[|q.got|]|)
    else q.put == q.got
  }

  /** Every message fits the buffer. */
  ghost predicate AllFit(puts: seq<Message>) {
    forall k | 0 <= k < |puts| :: |puts[k]| <= BUF_SIZE
  }

  /** The buffer after some messages, each laid over what the last one left. */
  function Laid(puts: seq<Message>): (r: seq<Byte>)
    requires AllFit(puts)
    ensures |r| == BUF_SIZE
  {
    if puts == [] then seq(BUF_SIZE, _ => 0) else Overwrite(Laid(puts[..|puts| - 1]), puts[|puts| - 1])
  }

  /** The length in a slot of the used ring after some messages: that of the
      last one the device returned there, or zero. */
  function LengthIn(puts: seq<Message>, slot: nat, n: nat): nat
    requires n > 0
  {
    if puts == [] then 0
    else
      var k := |puts| - 1;
      if k % U16_LIMIT % n == slot then |puts[k]| else LengthIn(puts[..k], slot, n)
  }

  /** What a reader with `cap` bytes of room gets for the `k`-th message: the
      buffer as that message left it, up to the length the driver's slot holds. */
  function Received(puts: seq<Message>, k: nat, cap: nat, n: nat): Message
    requires n > 0 && k < |puts| && AllFit(puts)
  {
    Laid(puts[..k + 1])[..Min(LengthIn(puts[..k + 1], k % QUEUE_SIZE, n), Min(cap, BUF_SIZE))]
  }

  ghost predicate AllReceived(q: Queue, n: nat)
    requires n > 0
  {
    && AllFit(q.put) && |q.caps| == |q.got| <= |q.put|
    && forall k | 0 <= k < |q.got| :: q.got[k] == Received(q.put, k, q.caps[k], n)
  }

  /** The messages whose length the device has written to the used ring. */
  function Settled(q: Queue): seq<Message> {
    if q.device.Moved? && q.put != [] then q.put[..|q.put| - 1] else q.put
  }

  ghost predicate RxData(q: Queue, n: nat)
    requires Shape(q) && Negotiated(n)
  {
    && AllReceived(q, n) && q.buffer == Laid(q.put)
    && |q.put| == |q.got| + (if Before(q) then 0 else 1)
    && (forall k | 0 <= k < QUEUE_SIZE :: q.usedRing[k].len == LengthIn(Settled(q), k, n))
    && q.lastUsed == (|q.got| + if q.driver.Fetched? then 1 else 0) % U16_LIMIT
    && (q.driver != Idle ==> q.desc[0].len == BUF_SIZE)
    && (q.device.Moved? ==> q.put != [] && q.device.len == |q.put[|q.put| - 1]|)
    && (q.driver.Fetched? ==> q.driver.len == LengthIn(q.put, |q.got| % QUEUE_SIZE, n))
  }

  ghost predicate Inv(q: Queue, n: nat) {
    && Negotiated(n) && Shape(q) && Indices(q) && Rings(q)
    && (q.driver.Loaded? ==> !q.rx)
    && if q.rx then RxData(q, n) else TxData(q)
  }

  // ---------------------------------------------------------------------
  // Every step keeps it
  // ---------------------------------------------------------------------

  lemma FreshInv(rx: bool, n: nat)
    requires Negotiated(n)
    ensures Inv(Fresh(rx), n)
  {
  }

  lemma StepKeepsIndices(q: Queue, n: nat, op: Op)
    requires Negotiated(n) && Shape(q) && Indices(q) && Rings(q) && (q.driver.Loaded? ==> !q.rx) && Enabled(q, n, op)
    ensures var q' := Step(q, n, op);
            Shape(q') && Indices(q') && Rings(q') && (q'.driver.Loaded? ==> !q'.rx) && q'.rx == q.rx
  {
  }

  lemma StepKeepsTx(q: Queue, n: nat, op: Op)
    requires Inv(q, n) && !q.rx && Enabled(q, n, op)
    ensures Shape(Step(q, n, op)) && TxData(Step(q, n, op))
  {
  }

  lemma SlotOfCount(k: nat)
    ensures k % U16_LIMIT % QUEUE_SIZE == k % QUEUE_SIZE
  {
    var q, i := k / U16_LIMIT, k % U16_LIMIT;
    DivModUnique(k, QUEUE_SIZE, 4096 * q + i / QUEUE_SIZE, i % QUEUE_SIZE);
  }

  lemma ReadKeepsRx(q: Queue, n: nat, cap: nat)
    requires Inv(q, n) && q.rx && Enabled(q, n, Read(cap))
    ensures RxData(Step(q, n, Read(cap)), n)
  {
    hide Laid, LengthIn;
    assert q.put[..|q.got| + 1] == q.put;
  }

  lemma FetchKeepsRx(q: Queue, n: nat)
    requires Inv(q, n) && q.rx && Enabled(q, n, Fetch)
    ensures RxData(Step(q, n, Fetch), n)
  {
    hide Laid, LengthIn;
    SlotOfCount(|q.got|);
    CountUp(|q.got|);
  }

  lemma CountUp(k: nat)
    ensures (k % U16_LIMIT + 1) % U16_LIMIT == (k + 1) % U16_LIMIT
  {
  }

  lemma MoveKeepsRx(q: Queue, n: nat, m: Message, written: nat)
    requires Inv(q, n) && q.rx && Enabled(q, n, Move(m, written))
    ensures RxData(Step(q, n, Move(m, written)), n)
  {
    hide LengthIn;
    var puts := q.put + [m];
    assert puts[..|q.put|] == q.put;
    forall k | 0 <= k < |q.got|
      ensures Received(puts, k, q.caps[k], n) == Received(q.put, k, q.caps[k], n)
    {
      assert puts[..k + 1] == q.put[..k + 1];
    }
  }

  lemma ReturnKeepsRx(q: Queue, n: nat)
    requires Inv(q, n) && q.rx && Enabled(q, n, Return)
    ensures RxData(Step(q, n, Return), n)
  {
    hide Laid, Received;
    assert q.seen == (|q.put| - 1) % U16_LIMIT;
  }

  lemma StepKeepsRx(q: Queue, n: nat, op: Op)
    requires Inv(q, n) && q.rx && Enabled(q, n, op)
    ensures Shape(Step(q, n, op)) && RxData(Step(q, n, op), n)
  {
    hide Laid, LengthIn, Received;
    match op
    case Read(cap) => ReadKeepsRx(q, n, cap);
    case Fetch => FetchKeepsRx(q, n);
    case Move(m, written) => MoveKeepsRx(q, n, m, written);
    case Return => ReturnKeepsRx(q, n);
    case _ =>
  }

  /** Every step of driver or device, in any order, keeps the protocol. */
  lemma StepKeepsInv(q: Queue, n: nat, op: Op)
    requires Inv(q, n) && Enabled(q, n, op)
    ensures Inv(Step(q, n, op), n)
  {
    hide Step, RxData, TxData, Indices, Rings, Enabled;
    StepKeepsIndices(q, n, op);
    if q.rx {
      StepKeepsRx(q, n, op);
    } else {
      StepKeepsTx(q, n, op);
    }
  }

  // ---------------------------------------------------------------------
  // Whole runs
  // ---------------------------------------------------------------------

  ghost predicate Allowed(q: Queue, n: nat, ops: seq<Op>)
    decreases |ops|
  {
    ops != [] ==> Shape(q) && Negotiated(n) && Enabled(q, n, ops[0]) && Allowed(Step(q, n, ops[0]), n, ops[1..])
  }

  ghost function Run(q: Queue, n: nat, ops: seq<Op>): Queue
    requires Allowed(q, n, ops)
    decreases |ops|
  {
    if ops == [] then q else Run(Step(q, n, ops[0]), n, ops[1..])
  }

  lemma {:induction false} RunKeepsInv(q: Queue, n: nat, ops: seq<Op>)
    requires Inv(q, n) && Allowed(q, n, ops)
    ensures Inv(Run(q, n, ops), n) && Run(q, n, ops).rx == q.rx
    decreases |ops|
  {
    hide Inv, Step, Enabled;
    if ops != [] {
      StepKeepsInv(q, n, ops[0]);
      DirectionStays(q, n, ops[0]);
      RunKeepsInv(Step(q, n, ops[0]), n, ops[1..]);
    }
  }

  lemma DirectionStays(q: Queue, n: nat, op: Op)
    requires Shape(q) && Negotiated(n) && Enabled(q, n, op)
    ensures Step(q, n, op).rx == q.rx
  {
  }

  /** At most one descriptor is outstanding, counted modulo 2^16. */
  lemma OneOutstanding(rx: bool, n: nat, ops: seq<Op>)
    requires Negotiated(n) && Allowed(Fresh(rx), n, ops)
    ensures var q := Run(Fresh(rx), n, ops); q.availIdx == q.lastUsed || q.availIdx == Next(q.lastUsed)
  {
    FreshInv(rx, n);
    hide Step, Fresh, RxData, TxData, Rings, Enabled;
    RunKeepsInv(Fresh(rx), n, ops);
  }

  ghost predicate DriverTouchesBuffer(op: Op) {
    op.Fill? || op.Read?
  }

  /** The buffer has one owner at a time: whenever the driver may touch it, the
      device holds no descriptor and none is on offer; whenever the device may
      touch it, the driver can do nothing but poll. */
  lemma BufferOwnership(rx: bool, n: nat, ops: seq<Op>, op: Op)
    requires Negotiated(n) && Allowed(Fresh(rx), n, ops) && Enabled(Run(Fresh(rx), n, ops), n, op)
    ensures var q := Run(Fresh(rx), n, ops);
            && (DriverTouchesBuffer(op) ==> q.device == Waiting && q.availIdx == q.seen)
            && (op.Move? ==> q.driver == Polling && q.usedIdx == q.lastUsed)
  {
    FreshInv(rx, n);
    hide Step, Fresh, RxData, TxData, Rings;
    RunKeepsInv(Fresh(rx), n, ops);
  }

  /** Outgoing messages reach the device once each and in order, whatever the
      queue size, and all of them have when `write_message` is done. */
  lemma SentOnceInOrder(n: nat, ops: seq<Op>)
    requires Negotiated(n) && Allowed(Fresh(false), n, ops)
    ensures var q := Run(Fresh(false), n, ops);
            q.got <= q.put && |q.put| <= |q.got| + 1 && (q.driver == Idle ==> q.got == q.put)
  {
    FreshInv(false, n);
    hide Step, Fresh, RxData, Indices, Rings, Enabled;
    RunKeepsInv(Fresh(false), n, ops);
  }

  /** Incoming messages are read once each and in order, for every queue size;
      what each read gets is fixed by the messages so far and the room it had. */
  lemma ReceivedInOrder(n: nat, ops: seq<Op>)
    requires Negotiated(n) && Allowed(Fresh(true), n, ops)
    ensures var q := Run(Fresh(true), n, ops);
            && AllFit(q.put) && |q.got| <= |q.put| <= |q.got| + 1 && |q.caps| == |q.got|
            && forall k | 0 <= k < |q.got| :: q.got[k] == Received(q.put, k, q.caps[k], n)
  {
    FreshInv(true, n);
    hide Step, Fresh, TxData, Indices, Rings, Enabled;
    RunKeepsInv(Fresh(true), n, ops);
  }

  /** A read gets its own message, as far as there was room, when driver and
      device mean the same slot; in a slot past the queue size it gets nothing. */
  lemma ReceivedBySlot(puts: seq<Message>, k: nat, cap: nat, n: nat)
    requires Negotiated(n) && k < |puts| && AllFit(puts)
    ensures k % U16_LIMIT % n == k % QUEUE_SIZE ==> Received(puts, k, cap, n) == puts[k][..Min(|puts[k]|, cap)]
    ensures k % QUEUE_SIZE >= n ==> Received(puts, k, cap, n) == []
  {
    var seen := puts[..k + 1];
    assert seen[..k] == puts[..k] && seen[k] == puts[k];
    if k % QUEUE_SIZE >= n {
      NeverWritten(seen, k % QUEUE_SIZE, n);
    } else {
      var j := Min(|puts[k]|, cap);
      assert Laid(seen)[..j] == Laid(seen)[..|puts[k]|][..j];
    }
  }

  /** Where driver and device mean different slots, a read is cut at a length
      that only earlier messages have left, whatever its own message. */
  lemma StaleLength(n: nat, ops: seq<Op>, k: nat)
    requires Negotiated(n) && Allowed(Fresh(true), n, ops) && k < |Run(Fresh(true), n, ops).got|
    requires k % U16_LIMIT % n != k % QUEUE_SIZE
    ensures var q := Run(Fresh(true), n, ops);
            && k < |q.put| && k < |q.caps| && AllFit(q.put[..k + 1])
            && q.got[k] == Laid(q.put[..k + 1])[..Min(LengthIn(q.put[..k], k % QUEUE_SIZE, n), Min(q.caps[k], BUF_SIZE))]
  {
    hide Step, Fresh, Enabled, Allowed, Run, Laid;
    ReceivedInOrder(n, ops);
    var q := Run(Fresh(true), n, ops);
    assert q.put[..k + 1][..k] == q.put[..k];
  }

  /** With a queue of twelve, the seventeenth message is read at the length of
      the thirteenth. */
  lemma StaleAtTwelve(ops: seq<Op>)
    requires Allowed(Fresh(true), 12, ops) && |Run(Fresh(true), 12, ops).got| > 16
    ensures var q := Run(Fresh(true), 12, ops);
            && |q.put| > 16 && |q.caps| > 16 && AllFit(q.put[..17])
            && q.got[16] == Laid(q.put[..17])[..Min(|q.put[12]|, Min(q.caps[16], BUF_SIZE))]
  {
    hide Step, Fresh, Enabled, Allowed, Run, Laid;
    StaleLength(12, ops, 16);
    var puts := Run(Fresh(true), 12, ops).put;
    assert puts[..16][..15] == puts[..15] && puts[..15][..14] == puts[..14] && puts[..14][..13] == puts[..13];
    assert LengthIn(puts[..13], 0, 12) == |puts[12]|;
    assert LengthIn(puts[..15], 0, 12) == LengthIn(puts[..14], 0, 12) == LengthIn(puts[..13], 0, 12);
  }

  lemma {:induction false} NeverWritten(puts: seq<Message>, slot: nat, n: nat)
    requires 0 < n <= slot
    ensures LengthIn(puts, slot, n) == 0
    decreases |puts|
  {
    if puts != [] {
      NeverWritten(puts[..|puts| - 1], slot, n);
    }
  }

  /** Every message that was read with room for it arrived whole. */
  ghost predicate Whole(q: Queue) {
    && |q.caps| == |q.got| <= |q.put|
    && forall k | 0 <= k < |q.got| && |q.put[k]| <= q.caps[k] :: q.got[k] == q.put[k]
  }

  ghost predicate AlwaysWhole(n: nat) {
    forall ops | Allowed(Fresh(true), n, ops) :: Whole(Run(Fresh(true), n, ops))
  }

  /** The full queue size is exactly what the receive side needs: with it every
      run delivers whole messages, and for every smaller one some run does not. */
  lemma FaithfulIff(n: nat)
    requires Negotiated(n)
    ensures AlwaysWhole(n) <==> n == QUEUE_SIZE
  {
    if n == QUEUE_SIZE {
      forall ops | Allowed(Fresh(true), n, ops)
        ensures Whole(Run(Fresh(true), n, ops))
      {
        FullQueueIsWhole(ops);
      }
    } else {
      var ops := ShortQueueLosesMessage(n, [7]);
      assert !Whole(Run(Fresh(true), n, ops));
    }
  }

  lemma FullQueueIsWhole(ops: seq<Op>)
    requires Allowed(Fresh(true), QUEUE_SIZE, ops)
    ensures Whole(Run(Fresh(true), QUEUE_SIZE, ops))
  {
    hide Step, Fresh, Enabled, Allowed, Run, Received;
    ReceivedInOrder(QUEUE_SIZE, ops);
    var q := Run(Fresh(true), QUEUE_SIZE, ops);
    forall k | 0 <= k < |q.got| && |q.put[k]| <= q.caps[k]
      ensures q.got[k] == q.put[k]
    {
      SlotOfCount(k);
      ReceivedBySlot(q.put, k, q.caps[k], QUEUE_SIZE);
      assert q.put[k][..|q.put[k]|] == q.put[k];
    }
  }

  // ---------------------------------------------------------------------
  // Progress
  // ---------------------------------------------------------------------

  predicate DeviceOp(op: Op) {
    op.Take? || op.Move? || op.Return? || op.Release?
  }

  /** The device steps a polling driver still has to wait for. */
  function StepsLeft(q: Queue): nat {
    if q.usedIdx != q.lastUsed then 0
    else match q.device
      case Waiting => 4
      case Taken(_) => 3
      case Moved(_, _) => 2
      case Returned => 1
  }

  /** While it polls, the device always has a step to make until it has made
      them all, and then the driver can fetch. */
  lemma PollingIsNotStuck(q: Queue, n: nat)
    requires Inv(q, n) && q.driver == Polling
    ensures StepsLeft(q) > 0 ==> exists op :: DeviceOp(op) && Enabled(q, n, op)
    ensures Enabled(q, n, Fetch) <==> StepsLeft(q) == 0
  {
    hide AllReceived, Laid, LengthIn;
    assert q.device.Taken? ==> Enabled(q, n, Move([], 0));
    assert q.device.Moved? ==> Enabled(q, n, Return);
    assert q.device == Returned ==> Enabled(q, n, Release);
    assert q.device == Waiting && q.usedIdx == q.lastUsed ==> Enabled(q, n, Take);
  }

  lemma PollFacts(q: Queue, n: nat)
    requires Inv(q, n) && q.driver == Polling
    ensures Shape(q) && Negotiated(n)
    ensures if q.usedIdx == q.lastUsed then
              Enabled(q, QUEUE_SIZE, Spin) && Step(q, QUEUE_SIZE, Spin) == q && StepsLeft(q) > 0
            else
              && Enabled(q, n, Fetch) && Enabled(q, QUEUE_SIZE, Fetch)
              && Step(q, QUEUE_SIZE, Fetch) == Step(q, n, Fetch) && Step(q, n, Fetch).lastUsed == Next(q.lastUsed)
  {
  }

  /** Polling itself, and any steps of the device. */
  ghost predicate WhilePolling(ops: seq<Op>) {
    forall k | 0 <= k < |ops| :: ops[k] == Spin || DeviceOp(ops[k])
  }

  function DeviceSteps(ops: seq<Op>): nat {
    if ops == [] then 0 else (if DeviceOp(ops[0]) then 1 else 0) + DeviceSteps(ops[1..])
  }

  lemma StepCounts(q: Queue, n: nat, op: Op)
    requires Inv(q, n) && q.driver == Polling && (op == Spin || DeviceOp(op)) && Enabled(q, n, op)
    ensures Step(q, n, op).driver == Polling
    ensures StepsLeft(q) == StepsLeft(Step(q, n, op)) + if DeviceOp(op) then 1 else 0
  {
    hide RxData, TxData, Rings, Overwrite;
  }

  /** The polling loop ends exactly when the device has made the steps it had
      left, four at most, however the two are interleaved. */
  lemma {:induction false} PollingEnds(q: Queue, n: nat, ops: seq<Op>)
    requires Inv(q, n) && q.driver == Polling && Allowed(q, n, ops) && WhilePolling(ops)
    ensures var q' := Run(q, n, ops);
            && Inv(q', n) && q'.driver == Polling
            && DeviceSteps(ops) <= StepsLeft(q) <= 4
            && (Enabled(q', n, Fetch) <==> DeviceSteps(ops) == StepsLeft(q))
    decreases |ops|
  {
    hide Inv, Step, Enabled, StepsLeft;
    if ops == [] {
      PollingIsNotStuck(q, n);
      AtMostFour(q);
    } else {
      StepKeepsInv(q, n, ops[0]);
      StepCounts(q, n, ops[0]);
      AtMostFour(q);
      PollingEnds(Step(q, n, ops[0]), n, ops[1..]);
    }
  }

  lemma AtMostFour(q: Queue)
    ensures StepsLeft(q) <= 4
  {
  }

  // ---------------------------------------------------------------------
  // A run that loses a message
  // ---------------------------------------------------------------------

  lemma {:induction false} RunsCompose(q: Queue, n: nat, ops: seq<Op>, more: seq<Op>)
    requires Allowed(q, n, ops) && Allowed(Run(q, n, ops), n, more)
    ensures Allowed(q, n, ops + more) && Run(q, n, ops + more) == Run(Run(q, n, ops), n, more)
    decreases |ops|
  {
    hide Step, Enabled, Shape;
    if ops == [] {
      assert ops + more == more;
    } else {
      assert (ops + more)[1..] == ops[1..] + more;
      RunsCompose(Step(q, n, ops[0]), n, ops[1..], more);
    }
  }

  /** One message through the queue, and where it has got to after `stage` of
      the nine steps when it is the `k`-th. */
  function Round(m: Message): seq<Op> {
    [Describe, Ring, Publish, Take, Move(m, 0), Return, Release, Fetch, Read(BUF_SIZE)]
  }

  ghost predicate At(q: Queue, n: nat, k: nat, m: Message, stage: nat) {
    && Inv(q, n) && q.rx && stage <= 9
    && |q.caps| == |q.got| == (if stage < 9 then k else k + 1)
    && |q.put| == (if stage < 5 then k else k + 1)
    && (stage >= 5 ==> q.put[k] == m)
    && (stage == 9 ==> q.caps[k] == BUF_SIZE)
    && (if stage == 0 || stage == 9 then q.driver == Idle
        else if stage == 1 then q.driver == Described
        else if stage == 2 then q.driver == Ringed
        else if stage == 8 then q.driver.Fetched?
        else q.driver == Polling)
    && (stage == 3 ==> q.device == Waiting && q.seen == q.lastUsed)
    && (stage == 4 ==> q.device.Taken?)
    && (stage == 5 ==> q.device.Moved?)
    && (stage == 6 ==> q.device == Returned)
    && (stage == 7 ==> q.device == Waiting && q.seen != q.lastUsed)
  }

  lemma Advance(q: Queue, n: nat, k: nat, m: Message, stage: nat)
    requires At(q, n, k, m, stage) && stage < 9 && |m| <= BUF_SIZE
    ensures Enabled(q, n, Round(m)[stage]) && At(Step(q, n, Round(m)[stage]), n, k, m, stage + 1)
  {
    StepKeepsInv(q, n, Round(m)[stage]);
    hide AllReceived, Overwrite, Laid, LengthIn, Rings;
  }

  lemma {:induction false} Cycle(q: Queue, n: nat, k: nat, m: Message, stage: nat)
    requires At(q, n, k, m, stage) && |m| <= BUF_SIZE
    ensures Allowed(q, n, Round(m)[stage..]) && At(Run(q, n, Round(m)[stage..]), n, k, m, 9)
    decreases 9 - stage
  {
    hide At, Step, Enabled, Round;
    AtIsShaped(q, n, k, m, stage);
    if stage < 9 {
      Advance(q, n, k, m, stage);
      Cycle(Step(q, n, Round(m)[stage]), n, k, m, stage + 1);
      assert Round(m)[stage..][1..] == Round(m)[stage + 1..];
    }
  }

  lemma AtIsShaped(q: Queue, n: nat, k: nat, m: Message, stage: nat)
    requires At(q, n, k, m, stage)
    ensures Shape(q) && Negotiated(n) && stage <= 9 && |Round(m)| == 9
  {
  }

  /** Ready for the next message after `k`. */
  lemma {:induction false} Play(n: nat, k: nat, m: Message) returns (ops: seq<Op>)
    requires Negotiated(n) && |m| <= BUF_SIZE
    ensures Allowed(Fresh(true), n, ops) && At(Run(Fresh(true), n, ops), n, k, m, 0)
    ensures k > 0 ==> var q := Run(Fresh(true), n, ops); q.put[k - 1] == m && q.caps[k - 1] == BUF_SIZE
  {
    hide Step, Fresh, Enabled, Round, Allowed;
    if k == 0 {
      ops := [];
      FreshStart(n, m);
    } else {
      var front := Play(n, k - 1, m);
      var q := Run(Fresh(true), n, front);
      Cycle(q, n, k - 1, m, 0);
      assert Round(m)[0..] == Round(m);
      RunsCompose(Fresh(true), n, front, Round(m));
      ops := front + Round(m);
      CycleEnds(Run(q, n, Round(m)), n, k, m);
    }
  }

  lemma FreshStart(n: nat, m: Message)
    requires Negotiated(n)
    ensures Allowed(Fresh(true), n, []) && At(Run(Fresh(true), n, []), n, 0, m, 0)
  {
    FreshInv(true, n);
  }

  lemma CycleEnds(q: Queue, n: nat, k: nat, m: Message)
    requires k > 0 && At(q, n, k - 1, m, 9)
    ensures At(q, n, k, m, 0)
  {
  }

  /** With a smaller queue a message is lost: the first one past the queue size
      reaches the buffer and is read as empty. */
  lemma ShortQueueLosesMessage(n: nat, m: Message) returns (ops: seq<Op>)
    requires Negotiated(n) && n < QUEUE_SIZE && |m| <= BUF_SIZE
    ensures Allowed(Fresh(true), n, ops)
    ensures var q := Run(Fresh(true), n, ops);
            |q.put| == |q.got| == |q.caps| == n + 1 && q.put[n] == m && q.caps[n] == BUF_SIZE && q.got[n] == []
  {
    ops := Play(n, n + 1, m);
    hide Step, Fresh, Enabled, Round, Allowed, Received;
    ReceivedBySlot(Run(Fresh(true), n, ops).put, n, BUF_SIZE, n);
  }

  // ---------------------------------------------------------------------
  // The driver object
  // ---------------------------------------------------------------------

  datatype IpcError = MessageTooLarge

  class Driver {
    const rx: bool
    var desc: seq<Desc>
    var availRing: seq<nat>
    var availIdx: Index
    var usedRing: seq<UsedElem>
    var usedIdx: Index
    const buffer: array<Byte>
    var nextAvail: Index
    var lastUsed: Index
    ghost var pc: DriverPc
    /** The device's own state, which the driver never reads. */
    var device: DevicePc
    var seen: Index
    ghost var put: seq<Message>
    ghost var got: seq<Message>
    ghost var caps: seq<nat>

    ghost function View(): Queue
      reads this, buffer
    {
      Queue(rx, desc, availRing, availIdx, usedRing, usedIdx, buffer[..], pc, nextAvail, lastUsed, device, seen, put, got, caps)
    }

    constructor (receive: bool)
      ensures rx == receive && fresh(buffer) && View() == Fresh(receive)
    {
      rx := receive;
      desc := seq(QUEUE_SIZE, _ => Desc(0, false));
      availRing, usedRing := seq(QUEUE_SIZE, _ => 0), seq(QUEUE_SIZE, _ => UsedElem(0, 0));
      availIdx, usedIdx, nextAvail, lastUsed, seen := 0, 0, 0, 0, 0;
      buffer := new Byte[BUF_SIZE](_ => 0);
      pc, device, put, got, caps := Idle, Waiting, [], [], [];
      new;
      assert buffer[..] == seq(BUF_SIZE, _ => 0);
    }

    /** Too long a message is refused and nothing changes. */
    method FillTx(data: seq<Byte>) returns (r: Result<nat, IpcError>)
      requires !rx && pc == Idle && Shape(View())
      modifies this`pc, this`put, buffer
      ensures |data| > BUF_SIZE ==> r == Err(MessageTooLarge) && View() == old(View())
      ensures |data| <= BUF_SIZE ==> r == Ok(|data|) && View() == Step(old(View()), QUEUE_SIZE, Fill(data))
    {
      if |data| > BUF_SIZE {
        return Err(MessageTooLarge);
      }
      forall i | 0 <= i < |data| {
        buffer[i] := data[i];
      }
      pc, put := Loaded(|data|), put + [data];
      assert buffer[..] == Overwrite(old(buffer[..]), data);
      return Ok(|data|);
    }

    /** Descriptor, then ring entry, then index: three steps of the protocol. */
    method Submit(len: nat)
      requires Shape(View()) && Enabled(View(), QUEUE_SIZE, Describe) && len == if rx then BUF_SIZE else pc.len
      modifies this
      ensures View() == Step(Step(Step(old(View()), QUEUE_SIZE, Describe), QUEUE_SIZE, Ring), QUEUE_SIZE, Publish)
    {
      hide Overwrite;
      desc := desc[0 := Desc(len, rx)];
      availRing := availRing[nextAvail % QUEUE_SIZE := 0];
      nextAvail := Next(nextAvail);
      availIdx := nextAvail;
      pc := Polling;
    }

    /** One look at the used ring. */
    method Poll() returns (r: Option<nat>)
      requires Shape(View()) && pc == Polling
      modifies `lastUsed, `pc
      ensures r.None? <==> old(usedIdx == lastUsed)
      ensures r.None? ==> View() == Step(old(View()), QUEUE_SIZE, Spin)
      ensures r.Some? ==> View() == Step(old(View()), QUEUE_SIZE, Fetch) && pc == Fetched(r.value)
    {
      if usedIdx == lastUsed {
        return None;
      }
      var elem := usedRing[lastUsed % QUEUE_SIZE];
      lastUsed := Next(lastUsed);
      pc := Fetched(elem.len);
      return Some(elem.len);
    }

    /** What the device does to the shared memory between two looks at it. */
    method DeviceActs(op: Op, n: nat)
      requires Shape(View()) && Negotiated(n) && (op == Spin || DeviceOp(op)) && Enabled(View(), n, op)
      modifies this`usedRing, this`usedIdx, this`device, this`seen, this`put, this`got, buffer
      ensures View() == Step(old(View()), n, op)
    {
      match op {
        case Take => device := Taken(availRing[seen % n]);
        case Move(m, written) =>
          if rx {
            forall i | 0 <= i < |m| {
              buffer[i] := m[i];
            }
            assert buffer[..] == Overwrite(old(buffer[..]), m);
            device, put := Moved(device.id, |m|), put + [m];
          } else {
            device, got := Moved(device.id, written), got + [buffer[..][..desc[device.id].len]];
          }
        case Return =>
          usedRing := usedRing[seen % n := UsedElem(device.id, device.len)];
          device := Returned;
        case Release =>
          usedIdx, seen, device := Next(seen), Next(seen), Waiting;
        case _ =>
      }
    }

    /** The busy loop, against a device that does its part: whatever is
        interleaved with the looks, the loop ends with the completion fetched
        and the protocol kept. */
    method PollUsed(turns: seq<Op>, n: nat) returns (len: nat)
      requires Inv(View(), n) && pc == Polling
      requires WhilePolling(turns) && Allowed(View(), n, turns) && DeviceSteps(turns) == StepsLeft(View())
      modifies this`usedRing, this`usedIdx, this`device, this`seen, this`put, this`got, this`lastUsed, this`pc, buffer
      ensures Inv(View(), n) && pc == Fetched(len) && lastUsed == Next(old(lastUsed))
    {
      hide Inv, Step, Enabled, StepsLeft;
      var i := 0;
      assert turns[0..] == turns;
      while true
        invariant i <= |turns| && Inv(View(), n) && pc == Polling && lastUsed == old(lastUsed)
        invariant Allowed(View(), n, turns[i..]) && DeviceSteps(turns[i..]) == StepsLeft(View())
        decreases |turns| - i
      {
        ghost var q := View();
        PollFacts(q, n);
        var r := Poll();
        if r.Some? {
          StepKeepsInv(q, n, Fetch);
          return r.value;
        }
        assert View() == q;
        assert i < |turns| && turns[i..][1..] == turns[i + 1..];
        StepKeepsInv(q, n, turns[i]);
        StepCounts(q, n, turns[i]);
        DeviceActs(turns[i], n);
        i := i + 1;
      }
    }

    /** Copies what fits; the rest of `out` stays. */
    method ReadRx(len: nat, out: array<Byte>) returns (n: nat)
      requires Shape(View()) && rx && pc == Fetched(len) && out != buffer
      modifies this`pc, this`got, this`caps, out
      ensures View() == Step(old(View()), QUEUE_SIZE, Read(out.Length))
      ensures n == Min(len, Min(out.Length, BUF_SIZE)) && out[..n] == got[|old(got)|] && out[n..] == old(out[n..])
    {
      n := Min(len, Min(out.Length, BUF_SIZE));
      forall i | 0 <= i < n {
        out[i] := buffer[i];
      }
      assert buffer[..] == old(buffer[..]);
      assert out[..n] == buffer[..][..n];
      pc, got, caps := Idle, got + [buffer[..][..n]], caps + [out.Length];
    }
  }
}
