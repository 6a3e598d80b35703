/** The lock-free ring as two threads see it: every load, element copy and store is a step of its own, in any
    interleaving. The counters are 64-bit and wrap. */
module RingSpec {
  import opened Wire
  import opened Bits

  // A slot remembers which push filled it, counted from the first element ever pushed.
  datatype Cell<T> = Unwritten | Written(value: T, index: nat)

  // The local variables of tryPush; memcpy may copy in any order.
  datatype Producer<T> =
    | Resting
    | Pushing(data: seq<T>, wr: Word64)                    // write_ loaded
    | Filling(data: seq<T>, wr: Word64, done: set<nat>)    // read_ loaded, there is room

  // The local variables of tryPop and availableRead.
  datatype Consumer<T> =
    | Ready
    | Popping(n: nat, rd: Word64)
    | Draining(n: nat, rd: Word64, got: map<nat, Cell<T>>)
    | Asking(wr: Word64)

  // `pushed` and `popped` are everything that ever went in and came out; `credit` is the last availableRead(), less
  // what has been popped since.
  datatype Ring<T> = Ring(bits: nat, cells: seq<Cell<T>>, read: Word64, write: Word64,
                          producer: Producer<T>, consumer: Consumer<T>,
                          pushed: seq<T>, popped: seq<Cell<T>>, credit: nat)

  datatype Move<T> =
    | StartPush(data: seq<T>)
    | CheckRoom          // load read_; refuse or start copying
    | CopyIn(i: nat)
    | Publish            // store write_
    | StartPop(n: nat)
    | CheckFill          // load write_; refuse or start copying
    | CopyOut(i: nat)
    | Retire             // store read_
    | StartAsk
    | FinishAsk

  function Capacity(bits: nat): (c: nat)
    ensures c > 0
  {
    Pow2(bits)
  }

  // Element i of an n-element copy that starts at counter value `at`: straight up to the end of the buffer, the
  // rest from its beginning.
  function Slot(bits: nat, at: nat, n: nat, i: nat): int
  {
    var pos := And(at, Capacity(bits) - 1);
    var first := Min(n, if pos <= Capacity(bits) then Capacity(bits) - pos else 0);
    if i < first then pos + i else i - first
  }

  predicate Enabled<T>(r: Ring<T>, m: Move<T>)
  {
    match m
    case StartPush(_) => r.producer.Resting?
    case CheckRoom => r.producer.Pushing?
    case CopyIn(i) => r.producer.Filling? && i < |r.producer.data|
    case Publish => r.producer.Filling? && forall i :: 0 <= i < |r.producer.data| ==> i in r.producer.done
    case StartPop(_) => r.consumer.Ready?
    case CheckFill => r.consumer.Popping?
    case CopyOut(i) => r.consumer.Draining? && i < r.consumer.n
    case Retire => r.consumer.Draining? && forall i :: 0 <= i < r.consumer.n ==> i in r.consumer.got
    case StartAsk => r.consumer.Ready?
    case FinishAsk => r.consumer.Asking?
  }

  function Room<T>(r: Ring<T>): int
    requires r.producer.Pushing?
  {
    Capacity(r.bits) - U64(r.producer.wr - r.read)
  }

  function PushSlot<T>(r: Ring<T>, i: nat): int
    requires r.producer.Filling?
  {
    Slot(r.bits, r.producer.wr, |r.producer.data|, i)
  }

  function PopSlot<T>(r: Ring<T>, i: nat): int
    requires r.consumer.Draining?
  {
    Slot(r.bits, r.consumer.rd, r.consumer.n, i)
  }

  // Every copy stays inside the buffer.
  predicate InBounds<T>(r: Ring<T>, m: Move<T>)
    requires Enabled(r, m)
  {
    match m
    case CopyIn(i) => 0 <= PushSlot(r, i) < |r.cells|
    case CopyOut(i) => 0 <= PopSlot(r, i) < |r.cells|
    case _ => true
  }

  function Step<T>(r: Ring<T>, m: Move<T>): Ring<T>
    requires Enabled(r, m) && InBounds(r, m)
  {
    var p, c := r.producer, r.consumer;
    match m
    case StartPush(data) => r.(producer := Pushing(data, r.write))
    case CheckRoom => r.(producer := if |p.data| > Room(r) then Resting else Filling(p.data, p.wr, {}))
    case CopyIn(i) =>
      r.(cells := r.cells[PushSlot(r, i) := Written(p.data[i], |r.pushed| + i)],
         producer := Filling(p.data, p.wr, p.done + {i}))
    case Publish => r.(write := U64(p.wr + |p.data|), producer := Resting, pushed := r.pushed + p.data)
    case StartPop(n) => r.(consumer := Popping(n, r.read))
    case CheckFill => r.(consumer := if c.n > U64(r.write - c.rd) then Ready else Draining(c.n, c.rd, map[]))
    case CopyOut(i) => r.(consumer := Draining(c.n, c.rd, c.got[i := r.cells[PopSlot(r, i)]]))
    case Retire =>
      r.(read := U64(c.rd + c.n), consumer := Ready,
         popped := r.popped + seq(c.n, i requires 0 <= i < c.n => c.got[i]),
         credit := if c.n <= r.credit then r.credit - c.n else 0)
    case StartAsk => r.(consumer := Asking(r.write))
    case FinishAsk => r.(consumer := Ready, credit := U64(c.wr - r.read))
  }

  function Empty<T>(bits: nat): Ring<T>
  {
    Ring(bits, seq(Capacity(bits), i => Unwritten), 0, 0, Resting, Ready, [], [], 0)
  }

  ghost predicate Interleaving<T>(r: Ring<T>, run: seq<Move<T>>)
    decreases |run|
  {
    run == [] || (Enabled(r, run[0]) && InBounds(r, run[0]) && Interleaving(Step(r, run[0]), run[1..]))
  }

  ghost function After<T>(r: Ring<T>, run: seq<Move<T>>): Ring<T>
    requires Interleaving(r, run)
    decreases |run|
  {
    if run == [] then r else After(Step(r, run[0]), run[1..])
  }

  // The bounded queue the ring stands for: what has gone in and not come out.
  function Queue<T>(r: Ring<T>): seq<T>
    requires |r.popped| <= |r.pushed|
  {
    r.pushed[|r.popped|..]
  }
}

/** In every interleaving the ring is a bounded first-in first-out queue. */
module RingProof {
  import opened Wire
  import opened Arith
  import opened Bits
  import opened RingSpec

  // ---- Slots ----

  // Where element number j of the whole stream lives.
  function Home(bits: nat, j: nat): (h: nat)
    ensures h < Capacity(bits)
  {
    j % Capacity(bits)
  }

  lemma HomesDiffer(bits: nat, a: nat, b: nat)
    requires a < b < a + Capacity(bits)
    ensures Home(bits, a) != Home(bits, b)
  {
    hide Capacity;
    ModsDiffer(a, b, Capacity(bits));
  }

  // Reducing modulo 2^64 first makes no difference.
  lemma HomeOfCounter(bits: nat, j: nat)
    requires bits <= 63
    ensures Home(bits, U64(j)) == Home(bits, j)
  {
    hide Pow2;
    Pow2Of64();
    Pow2Adds(bits, 64 - bits);
    ModOfMod(j, Capacity(bits), Pow2(64 - bits));
  }

  // The two-part copy puts element i where the stream position says.
  lemma SlotIsHome(bits: nat, at: nat, n: nat, i: nat)
    requires i < n <= Capacity(bits)
    ensures Slot(bits, at, n, i) == Home(bits, at + i)
  {
    hide Pow2, And;
    MaskIsMod(at, bits);
    ModStep(at, Capacity(bits), i);
  }

  lemma CounterSlot(bits: nat, at: Word64, base: nat, n: nat, i: nat)
    requires bits <= 63 && at == U64(base) && i < n <= Capacity(bits)
    ensures Slot(bits, at, n, i) == Home(bits, base + i)
  {
    hide Slot, Home;
    SlotIsHome(bits, at, n, i);
    SlotIsHome(bits, base, n, i);
    HomeShift(bits, at, base, i);
  }

  lemma HomeShift(bits: nat, at: Word64, base: nat, i: nat)
    requires bits <= 63 && at == U64(base)
    ensures Home(bits, at + i) == Home(bits, base + i)
  {
    hide Home;
    HomeOfCounter(bits, at + i);
    HomeOfCounter(bits, base + i);
  }

  // ---- The invariant ----

  ghost predicate Counters<T>(r: Ring<T>)
  {
    && r.bits <= 63 && |r.cells| == Capacity(r.bits)
    && |r.popped| <= |r.pushed| <= |r.popped| + Capacity(r.bits)
    && r.read == U64(|r.popped|) && r.write == U64(|r.pushed|)
  }

  // Everything pushed and not yet popped sits in its slot.
  ghost predicate Stored<T>(r: Ring<T>)
    requires |r.cells| == Capacity(r.bits) && |r.popped| <= |r.pushed|
  {
    forall j :: |r.popped| <= j < |r.pushed| ==> r.cells[Home(r.bits, j)] == Written(r.pushed[j], j)
  }

  // Everything popped is what was pushed, in order.
  ghost predicate Delivered<T>(r: Ring<T>)
    requires |r.popped| <= |r.pushed|
  {
    forall j :: 0 <= j < |r.popped| ==> r.popped[j] == Written(r.pushed[j], j)
  }

  ghost predicate ProducerFits<T>(r: Ring<T>)
    requires |r.cells| == Capacity(r.bits)
  {
    match r.producer
    case Resting => true
    case Pushing(_, wr) => wr == r.write
    case Filling(data, wr, done) =>
      && wr == r.write && |r.pushed| + |data| <= |r.popped| + Capacity(r.bits)
      && forall i :: i in done ==>
           i < |data| && r.cells[Home(r.bits, |r.pushed| + i)] == Written(data[i], |r.pushed| + i)
  }

  ghost predicate ConsumerFits<T>(r: Ring<T>)
    requires |r.popped| <= |r.pushed|
  {
    && r.credit <= |r.pushed| - |r.popped|
    && match r.consumer
      case Ready => true
      case Popping(_, rd) => rd == r.read
      case Draining(n, rd, got) =>
        && rd == r.read && n <= |r.pushed| - |r.popped|
        && forall i :: i in got ==> i < n && got[i] == Written(r.pushed[|r.popped| + i], |r.popped| + i)
      case Asking(wr) => U64(wr - r.read) <= |r.pushed| - |r.popped|
  }

  ghost predicate Inv<T>(r: Ring<T>)
  {
    Counters(r) && Stored(r) && Delivered(r) && ProducerFits(r) && ConsumerFits(r)
  }

  lemma CapacityBound(bits: nat)
    requires bits <= 63
    ensures Capacity(bits) <= TWO_63
  {
    Pow2Of64();
    Pow2Orders(bits, 63);
  }

  // The difference of two counters is the distance of what they count.
  lemma Distance<T>(r: Ring<T>)
    requires Counters(r)
    ensures U64(r.write - r.read) == |r.pushed| - |r.popped|
  {
    hide Capacity;
    CapacityBound(r.bits);
  }

  // ---- The producer's steps ----

  /** The push check sees exactly the free space: it refuses exactly what does not fit at that moment. */
  lemma RoomIsFree<T>(r: Ring<T>)
    requires Inv(r) && r.producer.Pushing?
    ensures Room(r) == Capacity(r.bits) - |Queue(r)|
  {
    Distance(r);
  }

  /** A copy into the ring never lands on an element that has not been popped. */
  lemma CopyInIsClear<T>(r: Ring<T>, i: nat)
    requires Inv(r) && Enabled(r, CopyIn(i))
    ensures PushSlot(r, i) == Home(r.bits, |r.pushed| + i)
    ensures forall j :: |r.popped| <= j < |r.pushed| ==> Home(r.bits, j) != PushSlot(r, i)
    ensures forall k :: k in r.producer.done && k != i ==> Home(r.bits, |r.pushed| + k) != PushSlot(r, i)
  {
    hide Capacity, Slot, Home;
    CounterSlot(r.bits, r.producer.wr, |r.pushed|, |r.producer.data|, i);
    forall j | |r.popped| <= j < |r.pushed| ensures Home(r.bits, j) != PushSlot(r, i) {
      HomesDiffer(r.bits, j, |r.pushed| + i);
    }
    forall k | k in r.producer.done && k != i ensures Home(r.bits, |r.pushed| + k) != PushSlot(r, i) {
      if k < i {
        HomesDiffer(r.bits, |r.pushed| + k, |r.pushed| + i);
      } else {
        HomesDiffer(r.bits, |r.pushed| + i, |r.pushed| + k);
      }
    }
  }

  lemma CopyInKeeps<T>(r: Ring<T>, i: nat)
    requires Inv(r) && Enabled(r, CopyIn(i))
    ensures InBounds(r, CopyIn(i)) && Inv(Step(r, CopyIn(i)))
  {
    hide Capacity, Slot, Home;
    CopyInIsClear(r, i);
  }

  lemma PublishStores<T>(r: Ring<T>)
    requires Inv(r) && Enabled(r, Publish)
    ensures Stored(Step(r, Publish)) && Queue(Step(r, Publish)) == Queue(r) + r.producer.data
  {
    hide Capacity, Home, Delivered, ConsumerFits;
    var r' := Step(r, Publish);
    forall j | |r'.popped| <= j < |r'.pushed| ensures r'.cells[Home(r'.bits, j)] == Written(r'.pushed[j], j) {
      if j >= |r.pushed| {
        assert j - |r.pushed| in r.producer.done;
      }
    }
  }

  lemma PublishKeeps<T>(r: Ring<T>)
    requires Inv(r) && Enabled(r, Publish)
    ensures Inv(Step(r, Publish)) && Queue(Step(r, Publish)) == Queue(r) + r.producer.data
  {
    hide Capacity, Home, Stored, Queue, Counters, U64;
    PublishCounts(r);
    PublishStores(r);
  }

  lemma PublishCounts<T>(r: Ring<T>)
    requires Inv(r) && Enabled(r, Publish)
    ensures Counters(Step(r, Publish))
  {
    hide Capacity, Home, Stored, Delivered, ConsumerFits, U64;
    CounterAdds(|r.pushed|, |r.producer.data|);
  }

  // ---- The consumer's steps ----

  /** A copy out of the ring finds the element its place in the stream promises. */
  lemma CopyOutFinds<T>(r: Ring<T>, i: nat)
    requires Inv(r) && Enabled(r, CopyOut(i))
    ensures InBounds(r, CopyOut(i))
    ensures r.cells[PopSlot(r, i)] == Written(Queue(r)[i], |r.popped| + i)
  {
    hide Capacity, Slot, Home;
    CounterSlot(r.bits, r.consumer.rd, |r.popped|, r.consumer.n, i);
    assert r.cells[Home(r.bits, |r.popped| + i)] == Written(r.pushed[|r.popped| + i], |r.popped| + i);
  }

  // The rest of the invariant does not look at the consumer.
  lemma ConsumerOnly<T>(r: Ring<T>, c: Consumer<T>)
    requires Counters(r) && Stored(r) && Delivered(r) && ProducerFits(r)
    ensures var r' := r.(consumer := c); Counters(r') && Stored(r') && Delivered(r') && ProducerFits(r')
  {
    hide Capacity, Home, U64;
  }

  lemma CopyOutKeeps<T>(r: Ring<T>, i: nat)
    requires Inv(r) && Enabled(r, CopyOut(i))
    ensures InBounds(r, CopyOut(i)) && Inv(Step(r, CopyOut(i)))
  {
    hide Capacity, Slot, Home, Stored, Delivered, ProducerFits, Counters;
    CopyOutFinds(r, i);
    ConsumerOnly(r, Step(r, CopyOut(i)).consumer);
    CountersOrder(r);
  }

  lemma CountersOrder<T>(r: Ring<T>)
    requires Counters(r)
    ensures |r.popped| <= |r.pushed| && |r.cells| == Capacity(r.bits)
  {
    hide Capacity;
  }

  lemma RetireDelivers<T>(r: Ring<T>)
    requires Inv(r) && Enabled(r, Retire)
    ensures Delivered(Step(r, Retire)) && |Step(r, Retire).popped| == |r.popped| + r.consumer.n
  {
    hide Capacity, Home, Stored, ProducerFits;
    var r' := Step(r, Retire);
    forall j | 0 <= j < |r'.popped| ensures r'.popped[j] == Written(r'.pushed[j], j) {
      if j >= |r.popped| {
        assert j - |r.popped| in r.consumer.got;
      }
    }
  }

  lemma RetireKeeps<T>(r: Ring<T>)
    requires Inv(r) && Enabled(r, Retire)
    ensures var r' := Step(r, Retire); var n := r.consumer.n;
      && Inv(r') && n <= |Queue(r)| && Queue(r') == Queue(r)[n..]
      && |r'.popped| == |r.popped| + n
      && forall i :: 0 <= i < n ==> r'.popped[|r.popped| + i] == Written(Queue(r)[i], |r.popped| + i)
  {
    hide Capacity, Home, Delivered, Counters, U64;
    RetireCounts(r);
    RetireDelivers(r);
    RetireHandsOver(r);
  }

  lemma RetireCounts<T>(r: Ring<T>)
    requires Inv(r) && Enabled(r, Retire)
    ensures Counters(Step(r, Retire)) && r.consumer.n <= |Queue(r)|
  {
    hide Capacity, Home, Stored, Delivered, ProducerFits, U64;
    CounterAdds(|r.popped|, r.consumer.n);
  }

  lemma RetireHandsOver<T>(r: Ring<T>)
    requires Inv(r) && Enabled(r, Retire) && r.consumer.n <= |Queue(r)|
    ensures var r' := Step(r, Retire);
      |r'.popped| == |r.popped| + r.consumer.n
      && forall i :: 0 <= i < r.consumer.n ==> r'.popped[|r.popped| + i] == Written(Queue(r)[i], |r.popped| + i)
  {
    hide Capacity, Home, Stored, Delivered, ProducerFits;
    var r' := Step(r, Retire);
    forall i | 0 <= i < r.consumer.n ensures r'.popped[|r.popped| + i] == Written(Queue(r)[i], |r.popped| + i) {
      assert i in r.consumer.got;
    }
  }

  lemma CheckKeeps<T>(r: Ring<T>, m: Move<T>)
    requires Inv(r) && Enabled(r, m) && (m.CheckRoom? || m.CheckFill? || m.StartAsk? || m.FinishAsk?)
    ensures Inv(Step(r, m))
  {
    hide Capacity, Home;
    Distance(r);
  }

  // ---- The refinement ----

  // What a step of the ring is as an operation on the queue.
  ghost predicate QueueStep<T>(r: Ring<T>, m: Move<T>, r': Ring<T>)
    requires Enabled(r, m) && |r.popped| <= |r.pushed| && |r'.popped| <= |r'.pushed|
  {
    match m
    case CheckRoom =>
      Queue(r') == Queue(r) && (r'.producer.Filling? <==> |Queue(r)| + |r.producer.data| <= Capacity(r.bits))
    case Publish => Queue(r') == Queue(r) + r.producer.data
    case CheckFill => Queue(r') == Queue(r) && (r'.consumer.Draining? <==> r.consumer.n <= |Queue(r)|)
    case Retire => r.consumer.n <= |Queue(r)| && Queue(r') == Queue(r)[r.consumer.n..]
    case FinishAsk => Queue(r') == Queue(r) && r'.credit <= |Queue(r)|
    case _ => Queue(r') == Queue(r)
  }

  /** Each step keeps the invariant, and is either silent or one operation of a queue bounded by the capacity: a
      push that fits appends, a pop of what is there takes from the front, and both are refused exactly otherwise. */
  lemma StepRefines<T>(r: Ring<T>, m: Move<T>)
    requires Inv(r) && Enabled(r, m)
    ensures InBounds(r, m) && Inv(Step(r, m)) && QueueStep(r, m, Step(r, m)) && |Queue(Step(r, m))| <= Capacity(r.bits)
  {
    hide Capacity, Home, Slot;
    match m
    case CopyIn(i) => CopyInKeeps(r, i);
    case CopyOut(i) => CopyOutKeeps(r, i);
    case Publish => PublishKeeps(r);
    case Retire => RetireKeeps(r);
    case StartPush(data) =>
    case StartPop(n) =>
    case CheckRoom => CheckKeeps(r, m); RoomIsFree(r);
    case _ => CheckKeeps(r, m); Distance(r);
  }

  lemma EmptyInv<T>(bits: nat)
    requires bits <= 63
    ensures Inv(Empty<T>(bits))
  {
  }

  lemma {:induction false} RunKeeps<T>(r: Ring<T>, run: seq<Move<T>>)
    requires Inv(r) && Interleaving(r, run)
    ensures Inv(After(r, run)) && After(r, run).bits == r.bits
    decreases |run|
  {
    hide Inv;
    if run != [] {
      StepRefines(r, run[0]);
      RunKeeps(Step(r, run[0]), run[1..]);
    }
  }

  /** In every interleaving: what has come out is a prefix of what went in, element for element; at most the
      capacity is in between; every copy stays in bounds, writes no slot that is still unread and reads the very
      element it should. */
  lemma AnyInterleaving<T>(bits: nat, run: seq<Move<T>>, m: Move<T>)
    requires bits <= 63 && Interleaving(Empty<T>(bits), run) && Enabled(After(Empty<T>(bits), run), m)
    ensures var r := After(Empty<T>(bits), run);
      && |r.popped| <= |r.pushed| <= |r.popped| + Capacity(bits)
      && (forall j :: 0 <= j < |r.popped| ==> r.popped[j] == Written(r.pushed[j], j))
      && InBounds(r, m) && |r.cells| == Capacity(bits)
      && (m.CopyIn? ==> forall j :: |r.popped| <= j < |r.pushed| ==> Home(bits, j) != PushSlot(r, m.i))
      && (m.CopyOut? ==> m.i < |Queue(r)| && r.cells[PopSlot(r, m.i)] == Written(Queue(r)[m.i], |r.popped| + m.i))
  {
    hide Capacity, Home, Slot;
    EmptyInv<T>(bits);
    RunKeeps(Empty<T>(bits), run);
    var r := After(Empty<T>(bits), run);
    assert r.bits == bits by { EmptyBits<T>(bits); }
    StepRefines(r, m);
    if m.CopyIn? {
      CopyInIsClear(r, m.i);
    }
    if m.CopyOut? {
      CopyOutFinds(r, m.i);
    }
  }

  lemma EmptyBits<T>(bits: nat)
    ensures Empty<T>(bits).bits == bits
  {
  }

  /** The consumer may rely on availableRead(): popping no more than it last returned, less what was popped since,
      is never refused, whatever the producer does meanwhile. */
  lemma CreditIsHonoured<T>(bits: nat, run: seq<Move<T>>)
    requires bits <= 63 && Interleaving(Empty<T>(bits), run)
    requires var r := After(Empty<T>(bits), run); r.consumer.Popping? && r.consumer.n <= r.credit
    ensures var r := After(Empty<T>(bits), run); Enabled(r, CheckFill) && Step(r, CheckFill).consumer.Draining?
  {
    hide Home, Capacity;
    EmptyInv<T>(bits);
    RunKeeps(Empty<T>(bits), run);
    Distance(After(Empty<T>(bits), run));
  }
}
