/** The acquisition pipeline over the ring buffers of its message queues: the critical sections
    of MessageQueue instead of the sequences of AcqPipeline. Every run over the rings is a run of
    AcqPipeline, step by step, so its results hold for the rings. */
module RingPipeline {
  import opened AcqPipeline
  import M = MessageQueue

  datatype RingQueue = RingQueue(ring: M.Ring<nat>, slots: nat, data: nat)

  datatype RingState = RingState(queues: seq<RingQueue>, pcs: seq<Pc>, d: Data)

  /** A thread waits for its semaphore and for nothing else: the critical sections do not look
      whether there is room or an item. */
  predicate Ready(s: RingState, i: Thread) {
    && |s.queues| == 3 && |s.pcs| == 3
    && match s.pcs[i]
       case WantGet => s.queues[i].data > 0
       case HasData => s.queues[i].ring.InBounds()
       case Working(b) => Usable(s.d, b)
       case WantPut(_) => s.queues[NextQueue(i)].slots > 0
       case HasSlot(_) => s.queues[NextQueue(i)].ring.InBounds()
       case _ => true
  }

  function Step(s: RingState, i: Thread): RingState
    requires Ready(s, i)
  {
    var n := NextQueue(i);
    var mine, next := s.queues[i], s.queues[n];
    match s.pcs[i]
    case WantGet => s.(queues := s.queues[i := mine.(data := mine.data - 1)], pcs := s.pcs[i := HasData])
    case HasData =>
      var (ring, b) := mine.ring.Get();
      s.(queues := s.queues[i := mine.(ring := ring)], pcs := s.pcs[i := Removed(b)])
    case Removed(b) => s.(queues := s.queues[i := mine.(slots := mine.slots + 1)], pcs := s.pcs[i := Working(b)])
    case Working(b) => RingState(s.queues, s.pcs[i := WantPut(b)], Work(s.d, i, b))
    case WantPut(b) => s.(queues := s.queues[n := next.(slots := next.slots - 1)], pcs := s.pcs[i := HasSlot(b)])
    case HasSlot(b) => s.(queues := s.queues[n := next.(ring := next.ring.Put(b))], pcs := s.pcs[i := Inserted])
    case Inserted => s.(queues := s.queues[n := next.(data := next.data + 1)], pcs := s.pcs[i := WantGet])
  }

  predicate RingRuns(s: RingState, order: seq<Thread>)
    decreases |order|
  {
    order == [] || (Ready(s, order[0]) && RingRuns(Step(s, order[0]), order[1..]))
  }

  function RingExec(s: RingState, order: seq<Thread>): RingState
    requires RingRuns(s, order)
    decreases |order|
  {
    if order == [] then s else RingExec(Step(s, order[0]), order[1..])
  }

  // ----- The rings are the queues -----

  predicate RingsValid(s: RingState) {
    |s.queues| == 3 && |s.pcs| == 3
    && forall q: Thread :: s.queues[q].ring.Valid() && |s.queues[q].ring.mem| == |s.d.bufs|
  }

  function Seen(q: RingQueue): Queue
    requires q.ring.Valid()
  {
    Queue(q.ring.Contents(), q.slots, q.data)
  }

  /** The pipeline with the contents of the rings in place of the rings. */
  function Abstract(s: RingState): State
    requires RingsValid(s)
  {
    State([Seen(s.queues[0]), Seen(s.queues[1]), Seen(s.queues[2])], s.pcs, s.d)
  }

  /** Changing one queue changes its contents alone. */
  lemma AbstractUpdate(s: RingState, i: Thread, q: RingQueue, pcs: seq<Pc>)
    requires RingsValid(s) && q.ring.Valid() && |q.ring.mem| == |s.d.bufs| && |pcs| == 3
    ensures var t := s.(queues := s.queues[i := q], pcs := pcs);
            RingsValid(t) && Abstract(t) == Abstract(s).(queues := Abstract(s).queues[i := Seen(q)], pcs := pcs)
  {
  }

  /** A thread that has the token of a critical section finds what the token stands for, so the
      section does to the ring what the pipeline does to the queue. */
  lemma StepRefines(s: RingState, i: Thread, size: nat)
    requires RingsValid(s) && Inv(Abstract(s), size)
    ensures Ready(s, i) <==> Enabled(Abstract(s), i)
    ensures Ready(s, i) ==> RingsValid(Step(s, i)) && Abstract(Step(s, i)) == Apply(Abstract(s), i)
  {
    hide DataInv, FlowOf, Work, Inv, Abstract, Step, Apply, Enabled, Ready;
    if s.pcs[i].Working? {
      WorkRefines(s, i);
    } else if Gets(s.pcs[i]) {
      GetRefines(s, i, size);
    } else {
      PutRefines(s, i, size);
    }
  }

  lemma WorkRefines(s: RingState, i: Thread)
    requires RingsValid(s) && s.pcs[i].Working?
    ensures Ready(s, i) <==> Enabled(Abstract(s), i)
    ensures Ready(s, i) ==> RingsValid(Step(s, i)) && Abstract(Step(s, i)) == Apply(Abstract(s), i)
  {
    var b := s.pcs[i].b;
    if Usable(s.d, b) {
      SameBuffers(s.d, i, b);
      hide Work;
    }
  }

  lemma GetRefines(s: RingState, i: Thread, size: nat)
    requires RingsValid(s) && Inv(Abstract(s), size) && Gets(s.pcs[i])
    ensures Ready(s, i) <==> Enabled(Abstract(s), i)
    ensures Ready(s, i) ==> RingsValid(Step(s, i)) && Abstract(Step(s, i)) == Apply(Abstract(s), i)
  {
    hide Inv, Work, QueueTokens, M.Ring.Contents, M.Ring.Get, M.Ring.Put;
    var mine := s.queues[i];
    TokensAt(Abstract(s), size, i);
    RingIsQueue(mine.ring, Seen(mine), s.pcs[PrevThread(i)], s.pcs[i]);
    match s.pcs[i] {
      case WantGet => AbstractUpdate(s, i, mine.(data := if mine.data > 0 then mine.data - 1 else 0),
          s.pcs[i := HasData]);
      case HasData => AbstractUpdate(s, i, mine.(ring := mine.ring.Get().0), s.pcs[i := Removed(mine.ring.Get().1)]);
      case Removed(b) => AbstractUpdate(s, i, mine.(slots := mine.slots + 1), s.pcs[i := Working(b)]);
    }
  }

  lemma PutRefines(s: RingState, i: Thread, size: nat)
    requires RingsValid(s) && Inv(Abstract(s), size) && !Gets(s.pcs[i]) && !s.pcs[i].Working?
    ensures Ready(s, i) <==> Enabled(Abstract(s), i)
    ensures Ready(s, i) ==> RingsValid(Step(s, i)) && Abstract(Step(s, i)) == Apply(Abstract(s), i)
  {
    hide Inv, Work, QueueTokens, M.Ring.Contents, M.Ring.Get, M.Ring.Put;
    var n := NextQueue(i);
    var next := s.queues[n];
    TokensAt(Abstract(s), size, n);
    RingIsQueue(next.ring, Seen(next), s.pcs[PrevThread(n)], s.pcs[n]);
    match s.pcs[i] {
      case WantPut(b) => AbstractUpdate(s, n, next.(slots := if next.slots > 0 then next.slots - 1 else 0),
          s.pcs[i := HasSlot(b)]);
      case HasSlot(b) => AbstractUpdate(s, n, next.(ring := next.ring.Put(b)), s.pcs[i := Inserted]);
      case Inserted => AbstractUpdate(s, n, next.(data := next.data + 1), s.pcs[i := WantGet]);
    }
  }

  lemma TokensAt(a: State, size: nat, q: Thread)
    requires Inv(a, size)
    ensures Shaped(a) && QueueTokens(|a.d.bufs|, a.queues[q], a.pcs[PrevThread(q)], a.pcs[q])
  {
  }

  lemma SameBuffers(d: Data, i: Thread, b: nat)
    requires Usable(d, b)
    ensures |Work(d, i, b).bufs| == |d.bufs|
  {
  }

  lemma {:induction false} RunRefines(s: RingState, order: seq<Thread>, size: nat)
    requires RingsValid(s) && Inv(Abstract(s), size) && RingRuns(s, order)
    ensures Runs(Abstract(s), order) && RingsValid(RingExec(s, order))
    ensures Abstract(RingExec(s, order)) == Exec(Abstract(s), order)
    decreases |order|
  {
    if order != [] {
      hide Step, Ready, Enabled, Apply, Abstract, RingsValid, Inv;
      StepRefines(s, order[0], size);
      InvStep(Abstract(s), order[0], size);
      RunRefines(Step(s, order[0]), order[1..], size);
    }
  }

  // ----- Main results over the rings -----

  /** What `resize` sets up: the buffers fill the ring of queue zero in the order of creation, the
      other rings are empty, and the semaphores count. */
  predicate RingInitial(s: RingState, size: nat) {
    RingsValid(s) && Initial(Abstract(s), size)
  }

  /** On every run of the three threads over three rings: the sender never meets a word other
      than the one it expects, the buffers filled and not yet checked hold the words of the count
      that follow what was checked, and every buffer is in exactly one ring or hand. */
  lemma NoErrorOverRings(s: RingState, order: seq<Thread>, size: nat)
    requires RingInitial(s, size) && RingRuns(s, order)
    ensures var e := RingExec(s, order);
            && RingsValid(e) && !e.d.error
            && e.d.commCtr == Word16(2 * e.d.checked)
            && EachOnce(FlowOf(Abstract(e)).chain, |s.d.bufs|)
            && WordsFollow(e.d, FlowOf(Abstract(e)), size)
  {
    hide WordsFollow, FlowOf, EachOnce;
    InitialInv(Abstract(s), size);
    RunRefines(s, order, size);
    NoErrorOnAnyRun(Abstract(s), order, size);
    WordsOnAnyRun(Abstract(s), order, size);
  }

  /** And no put blocks, whoever has a token proceeds, and with at least one buffer the threads
      never all block. */
  lemma NoDeadlockOverRings(s: RingState, order: seq<Thread>, size: nat) returns (i: Thread)
    requires RingInitial(s, size) && RingRuns(s, order) && |s.d.bufs| >= 1
    ensures var e := RingExec(s, order);
            && Ready(e, i)
            && forall j: Thread :: !Ready(e, j) ==> e.pcs[j].WantGet? && e.queues[j].data == 0
  {
    InitialInv(Abstract(s), size);
    RunRefines(s, order, size);
    InvRun(Abstract(s), order, size);
    var e := RingExec(s, order);
    hide Initial, Abstract, Ready, Enabled, Inv, RingExec, Exec, Step, Runs, RingRuns;
    i := NeverAllBlocked(Abstract(s), order, size);
    StepRefines(e, i, size);
    forall j: Thread | !Ready(e, j) ensures e.pcs[j].WantGet? && e.queues[j].data == 0 {
      StepRefines(e, j, size);
      OnlyEmptyGetsBlock(Abstract(s), order, size, j);
      SeenAt(e, j);
    }
  }

  lemma SeenAt(s: RingState, j: Thread)
    requires RingsValid(s)
    ensures Abstract(s).pcs == s.pcs && |Abstract(s).queues| == 3 && Abstract(s).queues[j].data == s.queues[j].data
  {
  }
}
