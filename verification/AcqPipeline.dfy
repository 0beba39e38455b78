/** The acquisition pipeline of examples/data/AcqDemo: three threads pass a fixed set of
    buffers round three message queues. */
module AcqPipeline {
  import opened Buffers
  import opened Counting
  import M = MessageQueue

  // ----- The work each thread does on the buffer it holds -----

  newtype word = x: int | 0 <= x < 0x1_0000

  function Word16(n: nat): word { (n % 0x1_0000) as word }

  /** AcqThread: clears the buffer and fills it with the running count. */
  function AcqWork(b: Buf<word>, ctr: word): (Buf<word>, word) {
    (b.Clear().(mem := seq(|b.mem|, i requires 0 <= i < |b.mem| => Word16(ctr as nat + i)), pos := |b.mem|),
     Word16(ctr as nat + |b.mem|))
  }

  /** ProcessThread: doubles every word below the limit. */
  function ProcessWork(b: Buf<word>): Buf<word> {
    b.(mem := seq(|b.mem|, i requires 0 <= i < |b.mem| => if i < b.lim then Word16(2 * b.mem[i] as nat) else b.mem[i]))
  }

  /** The loop of CommThread: compares each available word with the expected count. */
  function CheckFrom(mem: seq<word>, pos: nat, lim: nat, ctr: word): (word, bool)
    requires pos <= lim <= |mem|
    decreases lim - pos
  {
    if pos == lim then (ctr, true)
    else if ctr != mem[pos] then (ctr, false)
    else CheckFrom(mem, pos + 1, lim, Word16(ctr as nat + 2))
  }

  /** The words at and behind `pos` are the count from `ctr` in steps of two. */
  predicate Counts(mem: seq<word>, pos: nat, lim: nat, ctr: word)
    requires pos <= lim <= |mem|
  {
    forall k :: pos <= k < lim ==> mem[k] == Word16(ctr as nat + 2 * (k - pos))
  }

  /** The first word that is not what the count says is at `k`. */
  predicate FirstWrong(mem: seq<word>, pos: nat, lim: nat, ctr: word, k: nat)
    requires pos <= lim <= |mem|
  {
    pos <= k < lim && Counts(mem, pos, k, ctr) && mem[k] != Word16(ctr as nat + 2 * (k - pos))
  }

  /** The check finds every wrong word: it succeeds exactly when all are right, having counted them
      all, and otherwise has stopped at the first wrong one with the count that was expected
      there. */
  lemma {:induction false} CheckFindsWrong(mem: seq<word>, pos: nat, lim: nat, ctr: word)
      returns (k: nat)
    requires pos <= lim <= |mem|
    ensures var (c, ok) := CheckFrom(mem, pos, lim, ctr);
            && (ok <==> Counts(mem, pos, lim, ctr))
            && pos <= k <= lim && c == Word16(ctr as nat + 2 * (k - pos))
            && (if ok then k == lim else FirstWrong(mem, pos, lim, ctr, k))
    decreases lim - pos
  {
    k := pos;
    if pos < lim && ctr == mem[pos] {
      var next := Word16(ctr as nat + 2);
      k := CheckFindsWrong(mem, pos + 1, lim, next);
      NextCount(ctr, k - pos - 1);
      CountsFrom(mem, pos, k, ctr);
    }
  }

  lemma NextCount(ctr: word, n: nat)
    ensures Word16(Word16(ctr as nat + 2) as nat + 2 * n) == Word16(ctr as nat + 2 * (n + 1))
  {
    WordAdd(ctr as nat + 2, 2 * n);
  }

  lemma CountsFrom(mem: seq<word>, pos: nat, lim: nat, ctr: word)
    requires pos < lim <= |mem| && mem[pos] == ctr
    ensures Counts(mem, pos, lim, ctr) <==> Counts(mem, pos + 1, lim, Word16(ctr as nat + 2))
  {
    hide Word16;
    var next := Word16(ctr as nat + 2);
    assert Word16(ctr as nat + 0) == ctr by { SameWord(ctr); }
    forall k | pos < k < lim
      ensures mem[k] == Word16(ctr as nat + 2 * (k - pos)) <==> mem[k] == Word16(next as nat + 2 * (k - (pos + 1)))
    {
      NextCount(ctr, k - pos - 1);
    }
  }

  lemma SameWord(ctr: word)
    ensures Word16(ctr as nat) == ctr
  {
  }

  /** CommThread: flips, checks and clears; the last result is false if an error was found. */
  function CommWork(b: Buf<word>, ctr: word): (Buf<word>, word, bool)
    requires b.Valid()
  {
    var (c, ok) := CheckFrom(b.mem, 0, b.pos, ctr);
    (b.Flip().Clear(), c, ok)
  }

  method AcqFill(buf: Buffer<word>, start: word) returns (ctr: word)
    requires buf.Valid()
    modifies buf, buf.arr
    ensures buf.arr == old(buf.arr) && buf.Valid()
    ensures (buf.View(), ctr) == AcqWork(old(buf.View()), start)
    ensures buf.pos == buf.lim == buf.arr.Length && ctr == Word16(start as nat + buf.arr.Length)
    ensures forall k :: 0 <= k < buf.arr.Length ==> buf.arr[k] == Word16(start as nat + k)
  {
    ctr := start;
    buf.Clear();
    var n := buf.arr.Length;
    var i := 0;
    while i < n
      invariant 0 <= i <= n && ctr == Word16(start as nat + i)
      invariant buf.arr == old(buf.arr) && buf.pos == buf.mark == 0 && buf.lim == n
      invariant forall k :: 0 <= k < i ==> buf.arr[k] == Word16(start as nat + k)
    {
      buf.arr[i] := ctr;
      ctr := Word16(ctr as nat + 1);
      i := i + 1;
    }
    buf.pos := n;
    assert buf.arr[..] == AcqWork(old(buf.View()), start).0.mem;
  }

  method ProcessDouble(buf: Buffer<word>)
    requires buf.Valid()
    modifies buf.arr
    ensures buf.Valid() && buf.View() == ProcessWork(old(buf.View()))
    ensures forall k :: 0 <= k < buf.arr.Length ==>
              buf.arr[k] == if k < buf.lim then Word16(2 * old(buf.arr[k]) as nat) else old(buf.arr[k])
  {
    var i := 0;
    while i < buf.lim
      invariant 0 <= i <= buf.lim
      invariant forall k :: 0 <= k < buf.arr.Length ==>
                  buf.arr[k] == if k < i then Word16(2 * old(buf.arr[k]) as nat) else old(buf.arr[k])
    {
      buf.arr[i] := Word16(buf.arr[i] as nat * 2);
      i := i + 1;
    }
  }

  /** `n` counts the buffers; of every fifth one the display shows the first word, if there is
      one, as a progress number. */
  method CommCheck(buf: Buffer<word>, start: word, n: nat) returns (ctr: word, ok: bool, n': nat, shown: seq<nat>)
    requires buf.Valid() && n < 0x1_0000_0000
    modifies buf
    ensures buf.arr == old(buf.arr) && buf.Valid()
    ensures (buf.View(), ctr, ok) == CommWork(old(buf.View()), start)
    ensures ok <==> Counts(old(buf.arr[..]), 0, old(buf.pos), start)
    ensures ok ==> ctr == Word16(start as nat + 2 * old(buf.pos))
    ensures !ok ==> exists k: nat :: FirstWrong(old(buf.arr[..]), 0, old(buf.pos), start, k)
                                && ctr == Word16(start as nat + 2 * k)
    ensures buf.pos == buf.mark == 0 && buf.lim == buf.arr.Length && buf.arr[..] == old(buf.arr[..])
    ensures n' == (n + 1) % 0x1_0000_0000
    ensures shown == if n % 5 == 0 && buf.arr.Length > 0 then [buf.arr[0] as nat / 100] else []
  {
    ghost var at := CheckFindsWrong(buf.arr[..], 0, buf.pos, start);
    ctr, ok := start, true;
    buf.Flip();
    ghost var all := CheckFrom(buf.arr[..], 0, buf.lim, start);
    while buf.lim - buf.pos > 0
      invariant buf.arr == old(buf.arr) && buf.pos <= buf.lim == old(buf.pos) && buf.mark == 0
      invariant ok && all == CheckFrom(buf.arr[..], buf.pos, buf.lim, ctr)
    {
      var v := buf.arr[buf.pos];
      buf.pos := buf.pos + 1;
      if ctr != v {
        ok := false;
        break;
      }
      ctr := Word16(ctr as nat + 2);
    }
    shown := [];
    if n % 5 == 0 && buf.arr.Length > 0 {
      shown := [buf.arr[0] as nat / 100];
    }
    n' := (n + 1) % 0x1_0000_0000;
    buf.Clear();
  }

  // ----- The transition system -----

  /** A message queue seen from outside: its items in order and its two semaphores. Module
      MessageQueue proves that the ring behaves like this. */
  datatype Queue = Queue(items: seq<nat>, slots: nat, data: nat)

  /** Where a thread is: waiting to get, past the data token, past the removal with the slot
      still to be posted, at work, waiting to put, past the slot token, and past the insertion
      with the data token still to be posted. */
  datatype Pc =
    | WantGet | HasData | Removed(b: nat)
    | Working(b: nat)
    | WantPut(b: nat) | HasSlot(b: nat) | Inserted

  /** The memory of the buffers and the threads' own variables. `tags`, `filled` and `checked`
      are history: the count at which each buffer was filled, and the words filled and checked
      so far. */
  datatype Data = Data(
    bufs: seq<Buf<word>>,
    acqCtr: word, commCtr: word, error: bool,
    tags: seq<nat>, filled: nat, checked: nat)

  /** Thread `i` gets from queue `i` and puts to the next: 0 acquires, 1 processes, 2 sends. */
  datatype State = State(queues: seq<Queue>, pcs: seq<Pc>, d: Data)

  type Thread = i: int | 0 <= i < 3

  function NextQueue(i: Thread): Thread { if i == 2 then 0 else i + 1 }

  function PrevThread(q: Thread): Thread { if q == 0 then 2 else q - 1 }

  predicate Usable(d: Data, b: nat) { b < |d.bufs| == |d.tags| && d.bufs[b].Valid() }

  function Held(pc: Pc): seq<nat> {
    match pc
    case Removed(b) => [b]
    case Working(b) => [b]
    case WantPut(b) => [b]
    case HasSlot(b) => [b]
    case _ => []
  }

  predicate Shaped(s: State) { |s.queues| == 3 && |s.pcs| == 3 }

  /** A thread is blocked while its semaphore has no token. */
  predicate Enabled(s: State, i: Thread) {
    && Shaped(s)
    && match s.pcs[i]
       case WantGet => s.queues[i].data > 0
       case HasData => s.queues[i].items != []
       case Working(b) => Usable(s.d, b)
       case WantPut(_) => s.queues[NextQueue(i)].slots > 0
       case _ => true
  }

  function Work(d: Data, i: Thread, b: nat): Data
    requires Usable(d, b)
  {
    if i == 0 then
      var (r, c) := AcqWork(d.bufs[b], d.acqCtr);
      d.(bufs := d.bufs[b := r], acqCtr := c, tags := d.tags[b := d.filled], filled := d.filled + |r.mem|)
    else if i == 1 then
      d.(bufs := d.bufs[b := ProcessWork(d.bufs[b])])
    else
      var (r, c, ok) := CommWork(d.bufs[b], d.commCtr);
      d.(bufs := d.bufs[b := r], commCtr := c, error := d.error || !ok, checked := d.checked + d.bufs[b].pos)
  }

  /** The getting thread's side of a queue: take the data token, remove, post the slot. */
  function GetSide(q: Queue, pc: Pc): (Queue, Pc)
    requires (pc.WantGet? && q.data > 0) || (pc.HasData? && q.items != []) || pc.Removed?
  {
    match pc
    case WantGet => (q.(data := q.data - 1), HasData)
    case HasData => (q.(items := q.items[1..]), Removed(q.items[0]))
    case Removed(b) => (q.(slots := q.slots + 1), Working(b))
  }

  /** The putting thread's side: take the slot token, insert, post the data. */
  function PutSide(q: Queue, pc: Pc): (Queue, Pc)
    requires (pc.WantPut? && q.slots > 0) || pc.HasSlot? || pc.Inserted?
  {
    match pc
    case WantPut(b) => (q.(slots := q.slots - 1), HasSlot(b))
    case HasSlot(b) => (q.(items := q.items + [b]), Inserted)
    case Inserted => (q.(data := q.data + 1), WantGet)
  }

  predicate Gets(pc: Pc) { pc.WantGet? || pc.HasData? || pc.Removed? }

  /** Thread `i` takes its next step. */
  function Apply(s: State, i: Thread): State
    requires Enabled(s, i)
  {
    if Gets(s.pcs[i]) then
      var (q, pc) := GetSide(s.queues[i], s.pcs[i]);
      s.(queues := s.queues[i := q], pcs := s.pcs[i := pc])
    else if s.pcs[i].Working? then
      var b := s.pcs[i].b;
      State(s.queues, s.pcs[i := WantPut(b)], Work(s.d, i, b))
    else
      var n := NextQueue(i);
      var (q, pc) := PutSide(s.queues[n], s.pcs[i]);
      s.(queues := s.queues[n := q], pcs := s.pcs[i := pc])
  }

  /** A run is the order in which the threads take their steps. */
  predicate Runs(s: State, order: seq<Thread>)
    decreases |order|
  {
    order == [] || (Enabled(s, order[0]) && Runs(Apply(s, order[0]), order[1..]))
  }

  function Exec(s: State, order: seq<Thread>): State
    requires Runs(s, order)
    decreases |order|
  {
    if order == [] then s else Exec(Apply(s, order[0]), order[1..])
  }

  // ----- Tokens -----

  /** Each of the `n` slots of a queue has a token, a holder, an item or a getter that owes its
      post; each item has a token, a putter that owes its post or a getter that has its token. */
  predicate QueueTokens(n: nat, q: Queue, putter: Pc, getter: Pc) {
    && q.slots + One(putter.HasSlot?) + |q.items| + One(getter.Removed?) == n
    && q.data + One(putter.Inserted?) + One(getter.HasData?) == |q.items|
  }

  predicate Tokens(s: State)
    requires Shaped(s)
  {
    forall q: Thread :: QueueTokens(|s.d.bufs|, s.queues[q], s.pcs[PrevThread(q)], s.pcs[q])
  }

  /** The ring of a message queue, run under the same tokens, does to its contents what the two
      sides do to the items here. */
  lemma RingIsQueue(r: M.Ring<nat>, q: Queue, putter: Pc, getter: Pc)
    requires r.Valid() && r.Contents() == q.items && QueueTokens(|r.mem|, q, putter, getter)
    ensures putter.HasSlot? ==>
              r.Put(putter.b).Valid() && r.Put(putter.b).Contents() == PutSide(q, putter).0.items
    ensures getter.HasData? ==>
              q.items != [] && r.Get().0.Valid() && r.Get().0.Contents() == GetSide(q, getter).0.items
              && GetSide(q, getter).1 == Removed(r.Get().1)
  {
    if putter.HasSlot? {
      M.PutAppends(r, putter.b);
    }
    if getter.HasData? {
      M.GetTakesOldest(r);
    }
  }

  // ----- The buffers in flow order -----

  /** The buffers in the order of their data: what the sender holds, the finished queue, what
      the processor holds, the raw queue, what the acquirer holds, the empty queue.  Of these
      the first `sent` are checked, the first `doubled` processed and the first `full` filled. */
  datatype Flow = Flow(chain: seq<nat>, sent: nat, doubled: nat, full: nat)

  function Sending(s: State): seq<nat>
    requires Shaped(s)
  {
    Held(s.pcs[2]) + s.queues[2].items
  }

  function Processing(s: State): seq<nat>
    requires Shaped(s)
  {
    Held(s.pcs[1]) + s.queues[1].items
  }

  function Acquiring(s: State): seq<nat>
    requires Shaped(s)
  {
    Held(s.pcs[0]) + s.queues[0].items
  }

  predicate Worked(pc: Pc) { pc.WantPut? || pc.HasSlot? }

  function FlowOf(s: State): Flow
    requires Shaped(s)
  {
    var doubled := |Sending(s)|;
    var full := doubled + |Processing(s)|;
    Flow(Sending(s) + Processing(s) + Acquiring(s),
         One(Worked(s.pcs[2])), doubled + One(Worked(s.pcs[1])), full + One(Worked(s.pcs[0])))
  }

  /** Every buffer is in exactly one place. */
  predicate EachOnce(chain: seq<nat>, n: nat) {
    && |chain| == n
    && (forall k :: 0 <= k < n ==> chain[k] < n)
    && (forall j, k :: 0 <= j < k < n ==> chain[j] != chain[k])
  }

  /** The word a buffer filled at count `tag` holds at `k`, before and after processing. */
  function Expected(tag: nat, k: nat, doubled: bool): word {
    if doubled then Word16(2 * (tag + k)) else Word16(tag + k)
  }

  predicate HoldsCount(b: Buf<word>, size: nat, tag: nat, doubled: bool) {
    && |b.mem| == b.pos == b.lim == size
    && forall k :: 0 <= k < size ==> b.mem[k] == Expected(tag, k, doubled)
  }

  predicate FlowShape(d: Data, f: Flow, size: nat) {
    && EachOnce(f.chain, |d.bufs|) && |d.tags| == |d.bufs|
    && f.sent <= f.doubled <= f.full <= |d.bufs|
    && (forall k :: 0 <= k < |d.bufs| ==> d.bufs[k].Valid() && |d.bufs[k].mem| == size)
  }

  /** The buffers filled and not yet sent hold the words of their stretch of the count. */
  predicate Contents(d: Data, f: Flow, size: nat)
    requires FlowShape(d, f, size)
  {
    forall j :: f.sent <= j < f.full ==>
      HoldsCount(d.bufs[f.chain[j]], size, d.tags[f.chain[j]], j < f.doubled)
  }

  /** Their stretches follow each other, from what was checked to what was filled. */
  predicate Stretches(d: Data, f: Flow, size: nat)
    requires FlowShape(d, f, size)
  {
    && (if f.sent == f.full then d.filled == d.checked
        else d.tags[f.chain[f.sent]] == d.checked && d.tags[f.chain[f.full - 1]] + size == d.filled)
    && (forall j :: f.sent <= j && j + 1 < f.full ==> d.tags[f.chain[j + 1]] == d.tags[f.chain[j]] + size)
  }

  predicate Counters(d: Data) {
    d.acqCtr == Word16(d.filled) && d.commCtr == Word16(2 * d.checked) && !d.error
  }

  predicate DataInv(d: Data, f: Flow, size: nat) {
    FlowShape(d, f, size) && Contents(d, f, size) && Stretches(d, f, size) && Counters(d)
  }

  predicate Inv(s: State, size: nat) {
    Shaped(s) && Tokens(s) && DataInv(s.d, FlowOf(s), size)
  }

  // ----- The steps on the flow -----

  /** Getting leaves the flow as it is. */
  lemma FlowStaysOnGet(s: State, i: Thread)
    requires Enabled(s, i) && Gets(s.pcs[i])
    ensures Shaped(Apply(s, i)) && FlowOf(Apply(s, i)) == FlowOf(s) && Apply(s, i).d == s.d
  {
    var (q, pc) := GetSide(s.queues[i], s.pcs[i]);
    assert Held(pc) + q.items == Held(s.pcs[i]) + s.queues[i].items;
  }

  /** So does putting to the next stage. */
  lemma FlowStaysOnPut(s: State, i: Thread)
    requires Enabled(s, i) && !Gets(s.pcs[i]) && !s.pcs[i].Working? && !(i == 2 && s.pcs[i].HasSlot?)
    ensures Shaped(Apply(s, i)) && FlowOf(Apply(s, i)) == FlowOf(s) && Apply(s, i).d == s.d
  {
    hide Work, Usable;
    var s' := Apply(s, i);
    if s.pcs[i].HasSlot? {
      var b := s.pcs[i].b;
      if i == 0 {
        assert Processing(s') == Processing(s) + [b] && Acquiring(s) == [b] + Acquiring(s');
      } else {
        assert Sending(s') == Sending(s) + [b] && Processing(s) == [b] + Processing(s');
      }
    }
  }

  /** Putting the sent buffer back moves it to the end. */
  lemma FlowRotates(s: State)
    requires Enabled(s, 2) && s.pcs[2].HasSlot?
    ensures Shaped(Apply(s, 2)) && Apply(s, 2).d == s.d
    ensures var f, g := FlowOf(s), FlowOf(Apply(s, 2));
            && f.chain != [] && f.sent == 1 && f.doubled >= 1 && f.full >= 1
            && g == Flow(f.chain[1..] + [f.chain[0]], 0, f.doubled - 1, f.full - 1)
  {
    var s' := Apply(s, 2);
    var b := s.pcs[2].b;
    assert Sending(s) == [b] + Sending(s') && Acquiring(s') == Acquiring(s) + [b];
    assert FlowOf(s).chain == [b] + (Sending(s') + Processing(s) + Acquiring(s));
  }

  /** Working moves one mark past the buffer worked on. */
  lemma FlowWorks(s: State, i: Thread)
    requires Enabled(s, i) && s.pcs[i].Working?
    ensures Shaped(Apply(s, i)) && Apply(s, i).d == Work(s.d, i, s.pcs[i].b)
    ensures var f, g, b := FlowOf(s), FlowOf(Apply(s, i)), s.pcs[i].b;
            && g.chain == f.chain
            && MarkMoves(f, g, i, b)
  {
  }

  /** Working on `b` moves the mark of thread `i` past it. */
  predicate MarkMoves(f: Flow, g: Flow, i: Thread, b: nat) {
    match i
    case 0 => f.full < |f.chain| && f.chain[f.full] == b && g == f.(full := f.full + 1)
    case 1 => f.doubled < f.full <= |f.chain| && f.chain[f.doubled] == b && g == f.(doubled := f.doubled + 1)
    case 2 => f.sent == 0 < f.doubled <= |f.chain| && f.chain[0] == b && g == f.(sent := 1)
  }

  // ----- What the work does to the count -----

  lemma AcqWorkCounts(b: Buf<word>, filled: nat)
    ensures var (r, c) := AcqWork(b, Word16(filled));
            HoldsCount(r, |b.mem|, filled, false) && c == Word16(filled + |b.mem|) && r.Valid()
  {
    var (r, c) := AcqWork(b, Word16(filled));
    forall k | 0 <= k < |b.mem|
      ensures r.mem[k] == Expected(filled, k, false)
    {
      WordAdd(filled, k);
    }
    WordAdd(filled, |b.mem|);
  }

  lemma WordAdd(n: nat, k: nat)
    ensures Word16(Word16(n) as nat + k) == Word16(n + k)
  {
  }

  lemma WordDouble(n: nat)
    ensures Word16(2 * (Word16(n) as nat)) == Word16(2 * n)
  {
  }

  lemma ProcessWorkDoubles(b: Buf<word>, size: nat, tag: nat)
    requires HoldsCount(b, size, tag, false) && b.Valid()
    ensures HoldsCount(ProcessWork(b), size, tag, true) && ProcessWork(b).Valid()
  {
    forall k | 0 <= k < size
      ensures ProcessWork(b).mem[k] == Expected(tag, k, true)
    {
      WordDouble(tag + k);
    }
  }

  lemma {:induction false} CheckSucceeds(mem: seq<word>, pos: nat, tag: nat)
    requires pos <= |mem| && forall k :: 0 <= k < |mem| ==> mem[k] == Expected(tag, k, true)
    ensures CheckFrom(mem, pos, |mem|, Word16(2 * (tag + pos))) == (Word16(2 * (tag + |mem|)), true)
    decreases |mem| - pos
  {
    if pos < |mem| {
      WordAdd(2 * (tag + pos), 2);
      CheckSucceeds(mem, pos + 1, tag);
    }
  }

  lemma CommWorkAccepts(b: Buf<word>, size: nat, tag: nat)
    requires HoldsCount(b, size, tag, true) && b.Valid()
    ensures CommWork(b, Word16(2 * tag)) == (b.Flip().Clear(), Word16(2 * (tag + size)), true)
  {
    CheckSucceeds(b.mem, 0, tag);
  }

  // ----- Preservation of the data -----

  /** Only the buffer in hand is touched, and it is at one place of the chain. */
  lemma OthersElsewhere(f: Flow, n: nat, at: nat)
    requires EachOnce(f.chain, n) && at < n
    ensures forall j :: 0 <= j < n && j != at ==> f.chain[j] != f.chain[at]
  {
  }

  lemma DataRotates(d: Data, f: Flow, size: nat)
    requires DataInv(d, f, size) && f.sent == 1 <= f.doubled
    ensures DataInv(d, Flow(f.chain[1..] + [f.chain[0]], 0, f.doubled - 1, f.full - 1), size)
  {
    var chain := f.chain[1..] + [f.chain[0]];
    assert forall k :: 0 <= k < |chain| ==> chain[k] == if k + 1 < |chain| then f.chain[k + 1] else f.chain[0];
  }

  lemma DataFills(d: Data, f: Flow, size: nat, b: nat)
    requires DataInv(d, f, size) && f.full < |f.chain| && f.chain[f.full] == b
    ensures DataInv(Work(d, 0, b), f.(full := f.full + 1), size)
  {
    AcqWorkCounts(d.bufs[b], d.filled);
    OthersElsewhere(f, |d.bufs|, f.full);
  }

  lemma DataDoubles(d: Data, f: Flow, size: nat, b: nat)
    requires DataInv(d, f, size) && f.doubled < f.full && f.chain[f.doubled] == b
    ensures DataInv(Work(d, 1, b), f.(doubled := f.doubled + 1), size)
  {
    assert HoldsCount(d.bufs[f.chain[f.doubled]], size, d.tags[f.chain[f.doubled]], false);
    ProcessWorkDoubles(d.bufs[b], size, d.tags[b]);
    OthersElsewhere(f, |d.bufs|, f.doubled);
  }

  lemma DataSends(d: Data, f: Flow, size: nat, b: nat)
    requires DataInv(d, f, size) && f.sent == 0 < f.doubled && f.chain[0] == b
    ensures DataInv(Work(d, 2, b), f.(sent := 1), size)
  {
    assert HoldsCount(d.bufs[f.chain[0]], size, d.tags[f.chain[0]], true);
    CommWorkAccepts(d.bufs[b], size, d.checked);
    OthersElsewhere(f, |d.bufs|, 0);
  }

  lemma DataWorks(d: Data, f: Flow, g: Flow, size: nat, i: Thread, b: nat)
    requires DataInv(d, f, size) && MarkMoves(f, g, i, b) && Usable(d, b)
    ensures DataInv(Work(d, i, b), g, size)
  {
    match i
    case 0 => DataFills(d, f, size, b);
    case 1 => DataDoubles(d, f, size, b);
    case 2 => DataSends(d, f, size, b);
  }

  // ----- Preservation of the invariant -----

  lemma TokensStep(s: State, i: Thread)
    requires Shaped(s) && Tokens(s) && Enabled(s, i)
    ensures Shaped(Apply(s, i)) && |Apply(s, i).d.bufs| == |s.d.bufs|
    ensures Tokens(Apply(s, i))
  {
    var s' := Apply(s, i);
    forall q: Thread
      ensures QueueTokens(|s'.d.bufs|, s'.queues[q], s'.pcs[PrevThread(q)], s'.pcs[q])
    {
      assert QueueTokens(|s.d.bufs|, s.queues[q], s.pcs[PrevThread(q)], s.pcs[q]);
    }
  }

  lemma DataStep(s: State, i: Thread, size: nat)
    requires Inv(s, size) && Enabled(s, i)
    ensures Shaped(Apply(s, i)) && DataInv(Apply(s, i).d, FlowOf(Apply(s, i)), size)
  {
    hide DataInv, FlowOf, Work, MarkMoves, Apply;
    if Gets(s.pcs[i]) {
      FlowStaysOnGet(s, i);
    } else if s.pcs[i].Working? {
      FlowWorks(s, i);
      DataWorks(s.d, FlowOf(s), FlowOf(Apply(s, i)), size, i, s.pcs[i].b);
    } else if i == 2 && s.pcs[i].HasSlot? {
      FlowRotates(s);
      DataRotates(s.d, FlowOf(s), size);
    } else {
      FlowStaysOnPut(s, i);
    }
  }

  lemma InvStep(s: State, i: Thread, size: nat)
    requires Inv(s, size) && Enabled(s, i)
    ensures Inv(Apply(s, i), size) && |Apply(s, i).d.bufs| == |s.d.bufs|
  {
    TokensStep(s, i);
    DataStep(s, i, size);
  }

  lemma {:induction false} InvRun(s: State, order: seq<Thread>, size: nat)
    requires Inv(s, size) && Runs(s, order)
    ensures Inv(Exec(s, order), size) && |Exec(s, order).d.bufs| == |s.d.bufs|
    decreases |order|
  {
    if order != [] {
      InvStep(s, order[0], size);
      InvRun(Apply(s, order[0]), order[1..], size);
    }
  }

  /** What `resize` sets up: all buffers, of any equal size, in queue zero. */
  predicate Initial(s: State, size: nat) {
    && Shaped(s) && |s.d.tags| == |s.d.bufs|
    && (forall k :: 0 <= k < |s.d.bufs| ==> s.d.bufs[k].Valid() && |s.d.bufs[k].mem| == size)
    && s.queues == [Queue(seq(|s.d.bufs|, i => i), 0, |s.d.bufs|), Queue([], |s.d.bufs|, 0), Queue([], |s.d.bufs|, 0)]
    && s.pcs == [WantGet, WantGet, WantGet]
    && s.d.acqCtr == s.d.commCtr == 0 && !s.d.error && s.d.filled == s.d.checked == 0
  }

  lemma InitialInv(s: State, size: nat)
    requires Initial(s, size)
    ensures Inv(s, size)
  {
    var n := |s.d.bufs|;
    assert FlowOf(s).chain == seq(n, i => i);
  }

  // ----- Main results -----

  /** For any number of buffers of any size and any interleaving: the sender never meets a word
      other than the one it expects, and every buffer is in exactly one queue or hand. */
  lemma NoErrorOnAnyRun(s: State, order: seq<Thread>, size: nat)
    requires Initial(s, size) && Runs(s, order)
    ensures var e := Exec(s, order);
            && Shaped(e) && !e.d.error
            && e.d.commCtr == Word16(2 * e.d.checked)
            && EachOnce(FlowOf(e).chain, |s.d.bufs|)
  {
    InitialInv(s, size);
    InvRun(s, order, size);
  }

  /** The buffer is full of the count from `first` on, every word times `factor`. */
  predicate WordsAre(b: Buf<word>, size: nat, first: nat, factor: nat) {
    && b.pos == |b.mem| == size
    && forall k :: 0 <= k < size ==> b.mem[k] == Word16(factor * (first + k))
  }

  /** Of the buffers in flow order, the one `j` places behind the first unchecked holds the `j`-th
      stretch of the count behind what was checked, doubled if it was processed, and these
      stretches are all that was filled and not checked. */
  predicate WordsFollow(d: Data, f: Flow, size: nat) {
    && EachOnce(f.chain, |d.bufs|) && f.sent <= f.doubled <= f.full <= |d.bufs|
    && d.filled == d.checked + WordsOf(f.full - f.sent, size)
    && forall j :: f.sent <= j < f.full ==>
         WordsAre(d.bufs[f.chain[j]], size, d.checked + WordsOf(j - f.sent, size), if j < f.doubled then 2 else 1)
  }

  /** The words themselves, on every run. */
  lemma WordsOnAnyRun(s: State, order: seq<Thread>, size: nat)
    requires Initial(s, size) && Runs(s, order)
    ensures var e := Exec(s, order); Shaped(e) && WordsFollow(e.d, FlowOf(e), size)
  {
    hide FlowOf;
    InitialInv(s, size);
    InvRun(s, order, size);
    InvFollows(Exec(s, order).d, FlowOf(Exec(s, order)), size);
  }

  lemma InvFollows(d: Data, f: Flow, size: nat)
    requires DataInv(d, f, size)
    ensures WordsFollow(d, f, size)
  {
    hide WordsAre, Contents, Stretches, EachOnce, Counters, WordsOf;
    InRange(d, f);
    forall j | f.sent <= j < f.full
      ensures WordsAre(d.bufs[f.chain[j]], size, d.checked + WordsOf(j - f.sent, size), if j < f.doubled then 2 else 1)
    {
      StretchAt(d, f, size, j);
    }
    FilledIs(d, f, size);
  }

  lemma InRange(d: Data, f: Flow)
    requires EachOnce(f.chain, |d.bufs|)
    ensures |f.chain| == |d.bufs| && forall j :: 0 <= j < |f.chain| ==> f.chain[j] < |d.bufs|
  {
  }

  lemma StretchAt(d: Data, f: Flow, size: nat, j: nat)
    requires DataInv(d, f, size) && f.sent <= j < f.full
    ensures f.chain[j] < |d.bufs|
    ensures WordsAre(d.bufs[f.chain[j]], size, d.checked + WordsOf(j - f.sent, size), if j < f.doubled then 2 else 1)
  {
    hide WordsAre, HoldsCount, Stretches, Counters, WordsOf;
    TagAt(d, f, size, j);
    HeldAre(d.bufs[f.chain[j]], size, d.tags[f.chain[j]], j < f.doubled);
  }

  lemma FilledIs(d: Data, f: Flow, size: nat)
    requires DataInv(d, f, size)
    ensures d.filled == d.checked + WordsOf(f.full - f.sent, size)
  {
    hide Contents, Counters, WordsOf;
    OneMore(0, size);
    if f.sent < f.full {
      TagAt(d, f, size, f.full - 1);
      OneMore(f.full - 1 - f.sent, size);
    }
  }

  lemma HeldAre(b: Buf<word>, size: nat, tag: nat, doubled: bool)
    requires HoldsCount(b, size, tag, doubled)
    ensures WordsAre(b, size, tag, if doubled then 2 else 1)
  {
  }

  lemma {:induction false} TagAt(d: Data, f: Flow, size: nat, j: nat)
    requires DataInv(d, f, size) && f.sent <= j < f.full
    ensures d.tags[f.chain[j]] == d.checked + WordsOf(j - f.sent, size)
    decreases j
  {
    hide Contents, Counters, WordsOf;
    OneMore(0, size);
    if j > f.sent {
      TagAt(d, f, size, j - 1);
      OneMore(j - 1 - f.sent, size);
    }
  }

  /** `n` buffers hold so many words. */
  function WordsOf(n: nat, size: nat): nat { n * size }

  lemma OneMore(n: nat, size: nat)
    ensures WordsOf(n + 1, size) == WordsOf(n, size) + size && WordsOf(0, size) == 0
  {
  }

  /** So a buffer that the sender has got and not yet checked holds the doubled count from what was
      checked on, and one that the processor has got and not yet processed the count itself, from
      behind all that was processed. */
  lemma WordsInHand(s: State, order: seq<Thread>, size: nat)
    requires Initial(s, size) && Runs(s, order)
    ensures var e := Exec(s, order);
            && Shaped(e)
            && var f, d := FlowOf(e), e.d;
            && f.sent <= f.doubled
            && (e.pcs[2].Working? ==>
                  e.pcs[2].b < |d.bufs| && WordsAre(d.bufs[e.pcs[2].b], size, d.checked, 2))
            && (e.pcs[1].Working? ==>
                  e.pcs[1].b < |d.bufs|
                  && WordsAre(d.bufs[e.pcs[1].b], size, d.checked + WordsOf(f.doubled - f.sent, size), 1))
  {
    hide WordsAre, Work, DataInv, WordsOf;
    WordsOnAnyRun(s, order, size);
    AtWork(Exec(s, order));
    OneMore(0, size);
  }

  /** Where the buffers at work are in the flow. */
  lemma AtWork(e: State)
    requires Shaped(e)
    ensures var f := FlowOf(e);
            && f.doubled <= f.full
            && (e.pcs[2].Working? ==> f.sent == 0 < f.doubled <= |f.chain| && f.chain[0] == e.pcs[2].b)
            && (e.pcs[1].Working? ==> f.doubled < f.full <= |f.chain| && f.chain[f.doubled] == e.pcs[1].b)
  {
  }

  /** The buffers in hands and queues are all the buffers there are. */
  lemma AllAccounted(e: State, size: nat)
    requires Inv(e, size)
    ensures |Held(e.pcs[0])| + |Held(e.pcs[1])| + |Held(e.pcs[2])|
            + |e.queues[0].items| + |e.queues[1].items| + |e.queues[2].items| == |e.d.bufs|
    ensures forall i: Thread :: e.pcs[i].Working? ==> Usable(e.d, e.pcs[i].b)
  {
    var chain := FlowOf(e).chain;
    forall i: Thread | e.pcs[i].Working?
      ensures Usable(e.d, e.pcs[i].b)
    {
      FlowWorksAt(e, i);
      var k :| 0 <= k < |chain| && chain[k] == e.pcs[i].b;
    }
  }

  lemma FlowWorksAt(e: State, i: Thread)
    requires Shaped(e) && e.pcs[i].Working?
    ensures e.pcs[i].b in FlowOf(e).chain
  {
    assert e.pcs[i].b in Held(e.pcs[i]);
  }

  /** The only thing a thread ever waits for is a buffer to get: no put blocks, and whoever has
      a token finds the room or the item it stands for. */
  lemma OnlyEmptyGetsBlock(s: State, order: seq<Thread>, size: nat, i: Thread)
    requires Initial(s, size) && Runs(s, order)
    ensures var e := Exec(s, order);
            Shaped(e) && (!Enabled(e, i) ==> e.pcs[i].WantGet? && e.queues[i].data == 0)
  {
    InitialInv(s, size);
    InvRun(s, order, size);
    BlockedAtGet(Exec(s, order), size, i);
  }

  lemma BlockedAtGet(e: State, size: nat, i: Thread)
    requires Inv(e, size)
    ensures !Enabled(e, i) ==> e.pcs[i].WantGet? && e.queues[i].data == 0
  {
    AllAccounted(e, size);
    hide DataInv, FlowOf, Usable;
    var n := NextQueue(i);
    assert PrevThread(n) == i;
    assert QueueTokens(|e.d.bufs|, e.queues[n], e.pcs[PrevThread(n)], e.pcs[n]);
    assert QueueTokens(|e.d.bufs|, e.queues[i], e.pcs[PrevThread(i)], e.pcs[i]);
  }

  /** With at least one buffer the threads are never all blocked. */
  lemma NeverAllBlocked(s: State, order: seq<Thread>, size: nat) returns (i: Thread)
    requires Initial(s, size) && Runs(s, order) && |s.d.bufs| >= 1
    ensures Enabled(Exec(s, order), i)
  {
    InitialInv(s, size);
    InvRun(s, order, size);
    var e := Exec(s, order);
    SomeThreadEnabled(e, size);
    i := if Enabled(e, 0) then 0 else if Enabled(e, 1) then 1 else 2;
  }

  lemma SomeThreadEnabled(e: State, size: nat)
    requires Inv(e, size) && |e.d.bufs| >= 1
    ensures Enabled(e, 0) || Enabled(e, 1) || Enabled(e, 2)
  {
    AllAccounted(e, size);
    BlockedAtGet(e, size, 0);
    BlockedAtGet(e, size, 1);
    BlockedAtGet(e, size, 2);
  }
}
