/** The message queue of CtrlrFx/MsgQueue.h: a ring under a mutex with one semaphore counting
    free slots and one counting data items. */
module MessageQueue {
  import opened Counting

  // ----- The ring -----

  datatype Ring<T> = Ring(mem: seq<T>, put: nat, get: nat, sz: int) {

    /** Both pointers are inside the buffer. */
    predicate InBounds() { put < |mem| && get < |mem| }

    /** A ring without memory is valid, and always both full and empty. */
    predicate Valid() {
      (InBounds() || (mem == [] && get == 0)) && 0 <= sz <= |mem| && put == Wrap(get + sz)
    }

    function Wrap(i: nat): int { if i < |mem| then i else i - |mem| }

    /** The stored items, oldest first. */
    function Contents(): (c: seq<T>)
      requires Valid()
      ensures |c| == sz && forall i :: 0 <= i < sz ==> c[i] == mem[Wrap(get + i)]
    {
      seq(sz, i requires 0 <= i < sz => mem[Wrap(get + i)])
    }

    function Next(p: nat): nat { if p + 1 == |mem| then 0 else p + 1 }

    /** The critical section of do_put. It does not look for room. */
    function Put(v: T): (r: Ring<T>)
      requires InBounds()
      ensures |r.mem| == |mem|
    {
      Ring(mem[put := v], Next(put), get, sz + 1)
    }

    /** The critical section of do_get. It does not look for an item. */
    function Get(): (r: (Ring<T>, T))
      requires InBounds()
      ensures r.0.mem == mem
    {
      (Ring(mem, put, Next(get), sz - 1), mem[get])
    }
  }

  /** With room, a put appends and no stored item is touched. */
  lemma PutAppends<T>(r: Ring<T>, v: T)
    requires r.Valid() && r.sz < |r.mem|
    ensures r.Put(v).Valid() && r.Put(v).Contents() == r.Contents() + [v]
  {
  }

  /** With an item, a get takes the oldest. */
  lemma GetTakesOldest<T>(r: Ring<T>)
    requires r.Valid() && r.sz > 0
    ensures r.Get().0.Valid()
    ensures r.Get().1 == r.Contents()[0] && r.Get().0.Contents() == r.Contents()[1..]
  {
  }

  /** Without room, a put overwrites the oldest item: the slot token is what prevents it. */
  lemma PutWithoutRoomLosesOldest<T>(r: Ring<T>, v: T)
    requires r.Valid() && r.sz == |r.mem| > 0
    ensures r.Put(v).mem[r.get] == v && !r.Put(v).Valid()
  {
  }

  class MsgQueue<T(0)> {
    var sz: int
    var buf: array<T>
    var put: nat
    var get: nat
    var slotSem: nat
    var dataSem: nat

    ghost function View(): Ring<T>
      reads this, buf
    {
      Ring(buf[..], put, get, sz)
    }

    ghost predicate Valid()
      reads this, buf
    {
      View().Valid()
    }

    /** A queue over `b`, with one slot token for each item of its capacity. */
    constructor (b: array<T>)
      ensures Valid() && buf == b && View().Contents() == []
      ensures slotSem == b.Length && dataSem == 0
    {
      buf, put, get, sz := b, 0, 0, 0;
      slotSem, dataSem := 0, 0;
      new;
      var i := 0;
      while i < b.Length
        invariant 0 <= i <= b.Length && slotSem == i
        invariant buf == b && put == get == sz == 0 && dataSem == 0
      {
        slotSem := slotSem + 1;
        i := i + 1;
      }
    }

    method DoPut(v: T)
      requires View().InBounds()
      modifies this`put, this`sz, this`dataSem, buf
      ensures View() == old(View()).Put(v) && dataSem == old(dataSem) + 1
    {
      buf[put] := v;
      put := if put + 1 == buf.Length then 0 else put + 1;
      sz := sz + 1;
      dataSem := dataSem + 1;
    }

    method DoGet() returns (v: T)
      requires View().InBounds()
      modifies this`get, this`sz, this`slotSem
      ensures (View(), v) == old(View()).Get() && slotSem == old(slotSem) + 1
    {
      v := buf[get];
      get := if get + 1 == buf.Length then 0 else get + 1;
      sz := sz - 1;
      slotSem := slotSem + 1;
    }

    /** Idle queue: the semaphores count exactly the free slots and the items. */
    ghost predicate Idle()
      reads this, buf
    {
      Valid() && slotSem + sz == buf.Length && dataSem == sz
    }

    /** Other calls may be between their token and their post: no token stands for more than a
        free slot or an item. */
    ghost predicate Counted()
      reads this, buf
    {
      Valid() && slotSem + sz <= buf.Length && dataSem <= sz
    }

    method TryPut(v: T) returns (ok: bool)
      requires Counted()
      modifies this`put, this`sz, this`dataSem, this`slotSem, buf
      ensures Counted() && ok == (old(slotSem) > 0)
      ensures ok ==> slotSem == old(slotSem) - 1 && dataSem == old(dataSem) + 1
      ensures !ok ==> slotSem == old(slotSem) && dataSem == old(dataSem)
      ensures View().Contents() == if ok then old(View().Contents()) + [v] else old(View().Contents())
      ensures old(Idle()) ==> Idle() && ok == (|old(View().Contents())| < buf.Length)
    {
      if slotSem == 0 {
        return false;
      }
      slotSem := slotSem - 1;
      PutAppends(View(), v);
      DoPut(v);
      ok := true;
    }

    method TryGet(default: T) returns (ok: bool, v: T)
      requires Counted()
      modifies this`get, this`sz, this`dataSem, this`slotSem
      ensures Counted() && ok == (old(dataSem) > 0)
      ensures ok ==> dataSem == old(dataSem) - 1 && slotSem == old(slotSem) + 1
      ensures !ok ==> slotSem == old(slotSem) && dataSem == old(dataSem)
      ensures if ok then old(View().Contents()) == [v] + View().Contents()
              else v == default && View().Contents() == old(View().Contents())
      ensures old(Idle()) ==> Idle() && ok == (old(View().Contents()) != [])
    {
      if dataSem == 0 {
        return false, default;
      }
      dataSem := dataSem - 1;
      GetTakesOldest(View());
      v := DoGet();
      ok := true;
    }

    /** `seen` is the size that the first test reads without the lock. */
    method Peek(default: T, seen: int) returns (ok: bool, v: T)
      requires Valid()
      ensures ok == (seen != 0 && View().Contents() != [])
      ensures v == if ok then View().Contents()[0] else default
    {
      if seen != 0 {
        if sz != 0 {
          return true, buf[get];
        }
      }
      ok, v := false, default;
    }

    /** The names are swapped: `full` answers whether the queue is empty. That is right without
        capacity and when the queue is neither full nor empty, and wrong otherwise. */
    method Full() returns (b: bool)
      requires Valid()
      ensures b <==> View().Contents() == []
      ensures var n := |View().Contents()|;
              (b <==> n == buf.Length) <==> buf.Length == 0 || 0 < n < buf.Length
    {
      b := sz == 0;
    }

    /** And `empty` answers whether it is full, which is right in the same cases. */
    method Empty() returns (b: bool)
      requires Valid()
      ensures b <==> |View().Contents()| == buf.Length
      ensures var n := |View().Contents()|;
              (b <==> n == 0) <==> buf.Length == 0 || 0 < n < buf.Length
    {
      b := buf.Length - sz == 0;
    }
  }

  // ----- The transition system -----

  /** Where a put or get call is: waiting for its token, holding it, or past the critical
      section with the other token still to be posted. A `Got` call remembers its item and the
      rank of its get. */
  datatype Call<T> =
    | WantPut(v: T) | HasSlot(v: T) | PutUnposted
    | WantGet | HasData | GetUnposted(v: T, rank: nat)
    | PutDone | Got(v: T, rank: nat) | GaveUp

  /** `stored` and `taken` are the items in the order of the critical sections. */
  datatype State<T> = State(
    ring: Ring<T>, slots: nat, data: nat,
    calls: map<nat, Call<T>>,
    stored: seq<T>, taken: seq<T>)

  datatype Action<T> =
    | BeginPut(t: nat, v: T)
    | TakeSlot(t: nat)
    | PutSection(t: nat)
    | PostData(t: nat)
    | BeginGet(t: nat)
    | TakeData(t: nat)
    | GetSection(t: nat)
    | PostSlot(t: nat)
    | GiveUp(t: nat)   // a timed or immediate call that got no token

  predicate Enabled<T>(s: State<T>, a: Action<T>) {
    match a
    case BeginPut(t, _) => t !in s.calls
    case BeginGet(t) => t !in s.calls
    case TakeSlot(t) => t in s.calls && s.calls[t].WantPut? && s.slots > 0
    case PutSection(t) => t in s.calls && s.calls[t].HasSlot? && s.ring.InBounds()
    case PostData(t) => t in s.calls && s.calls[t].PutUnposted?
    case TakeData(t) => t in s.calls && s.calls[t].WantGet? && s.data > 0
    case GetSection(t) => t in s.calls && s.calls[t].HasData? && s.ring.InBounds()
    case PostSlot(t) => t in s.calls && s.calls[t].GetUnposted?
    case GiveUp(t) => t in s.calls && (s.calls[t].WantPut? || s.calls[t].WantGet?)
  }

  function Move<T>(s: State<T>, t: nat, c: Call<T>): State<T> { s.(calls := s.calls[t := c]) }

  function Apply<T>(s: State<T>, a: Action<T>): State<T>
    requires Enabled(s, a)
  {
    match a
    case BeginPut(t, v) => Move(s, t, WantPut(v))
    case BeginGet(t) => Move(s, t, WantGet)
    case TakeSlot(t) => Move(s, t, HasSlot(s.calls[t].v)).(slots := s.slots - 1)
    case PutSection(t) =>
      var v := s.calls[t].v;
      Move(s, t, PutUnposted).(ring := s.ring.Put(v), stored := s.stored + [v])
    case PostData(t) => Move(s, t, PutDone).(data := s.data + 1)
    case TakeData(t) => Move(s, t, HasData).(data := s.data - 1)
    case GetSection(t) =>
      var (r, v) := s.ring.Get();
      Move(s, t, GetUnposted(v, |s.taken|)).(ring := r, taken := s.taken + [v])
    case PostSlot(t) => Move(s, t, Got(s.calls[t].v, s.calls[t].rank)).(slots := s.slots + 1)
    case GiveUp(t) => Move(s, t, GaveUp)
  }

  predicate HoldsSlot<T>(c: Call<T>) { c.HasSlot? }
  predicate OwesData<T>(c: Call<T>) { c.PutUnposted? }
  predicate HoldsData<T>(c: Call<T>) { c.HasData? }
  predicate OwesSlot<T>(c: Call<T>) { c.GetUnposted? }

  /** Every slot and every item is accounted for by a token, a call or the ring. */
  predicate Tokens<T>(s: State<T>) {
    && s.slots + Count(s.calls, HoldsSlot<T>) + s.ring.sz + Count(s.calls, OwesSlot<T>) == |s.ring.mem|
    && s.data + Count(s.calls, OwesData<T>) + Count(s.calls, HoldsData<T>) == s.ring.sz
  }

  /** First in, first out: what was stored is what was taken followed by the ring. */
  ghost predicate InOrder<T>(s: State<T>)
    requires s.ring.Valid()
  {
    s.stored == s.taken + s.ring.Contents()
  }

  predicate HasItem<T>(c: Call<T>) { c.GetUnposted? || c.Got? }

  /** Every get past its critical section has the item of its rank, and no other get has it. */
  ghost predicate OwnItems<T>(calls: map<nat, Call<T>>, taken: seq<T>) {
    && (forall t :: t in calls && HasItem(calls[t]) ==>
          calls[t].rank < |taken| && taken[calls[t].rank] == calls[t].v)
    && (forall t, u :: t in calls && u in calls && t != u && HasItem(calls[t]) && HasItem(calls[u]) ==>
          calls[t].rank != calls[u].rank)
  }

  ghost predicate Fifo<T>(s: State<T>)
    requires s.ring.Valid()
  {
    InOrder(s) && OwnItems(s.calls, s.taken)
  }

  ghost predicate Inv<T>(s: State<T>) {
    s.ring.Valid() && Tokens(s) && Fifo(s)
  }

  // ----- What a token guarantees -----

  /** A put that holds a slot token finds a free slot. */
  lemma TokenForSlot<T>(s: State<T>, t: nat)
    requires s.ring.Valid() && Tokens(s) && t in s.calls && s.calls[t].HasSlot?
    ensures s.ring.sz < |s.ring.mem|
  {
    CountIsPositive(s.calls, HoldsSlot<T>, t);
  }

  /** A get that holds a data token finds an item. */
  lemma TokenForItem<T>(s: State<T>, t: nat)
    requires s.ring.Valid() && Tokens(s) && t in s.calls && s.calls[t].HasData?
    ensures s.ring.sz > 0
  {
    CountIsPositive(s.calls, HoldsData<T>, t);
  }

  lemma MoveCounts<T>(s: State<T>, t: nat, c: Call<T>)
    ensures var m := s.calls[t := c];
            && Count(m, HoldsSlot<T>) == Count(s.calls, HoldsSlot<T>) - One(t in s.calls
               && s.calls[t].HasSlot?) + One(c.HasSlot?)
            && Count(m, OwesData<T>) == Count(s.calls, OwesData<T>) - One(t in s.calls
               && s.calls[t].PutUnposted?) + One(c.PutUnposted?)
            && Count(m, HoldsData<T>) == Count(s.calls, HoldsData<T>) - One(t in s.calls
               && s.calls[t].HasData?) + One(c.HasData?)
            && Count(m, OwesSlot<T>) == Count(s.calls, OwesSlot<T>) - One(t in s.calls
               && s.calls[t].GetUnposted?) + One(c.GetUnposted?)
  {
    CountUpdate(s.calls, t, c, HoldsSlot<T>);
    CountUpdate(s.calls, t, c, OwesData<T>);
    CountUpdate(s.calls, t, c, HoldsData<T>);
    CountUpdate(s.calls, t, c, OwesSlot<T>);
  }

  lemma TokensStep<T>(s: State<T>, a: Action<T>)
    requires Inv(s) && Enabled(s, a)
    ensures Apply(s, a).ring.Valid() && |Apply(s, a).ring.mem| == |s.ring.mem| && Tokens(Apply(s, a))
  {
    var s' := Apply(s, a);
    MoveCounts(s, a.t, s'.calls[a.t]);
    match a
    case PutSection(t) => TokenForSlot(s, t); PutAppends(s.ring, s.calls[t].v);
    case GetSection(t) => TokenForItem(s, t); GetTakesOldest(s.ring);
    case _ =>
  }

  lemma OrderAfterGet<T>(stored: seq<T>, taken: seq<T>, r: Ring<T>)
    requires r.Valid() && r.sz > 0 && stored == taken + r.Contents()
    ensures r.Get().0.Valid() && stored == taken + [r.Get().1] + r.Get().0.Contents()
  {
    GetTakesOldest(r);
    assert r.Contents() == [r.Contents()[0]] + r.Contents()[1..];
  }

  lemma OrderStep<T>(s: State<T>, a: Action<T>)
    requires Inv(s) && Enabled(s, a) && Apply(s, a).ring.Valid()
    ensures InOrder(Apply(s, a))
  {
    match a
    case PutSection(t) => TokenForSlot(s, t); PutAppends(s.ring, s.calls[t].v);
    case GetSection(t) => TokenForItem(s, t); OrderAfterGet(s.stored, s.taken, s.ring);
    case _ =>
  }

  lemma OwnItemsStep<T>(s: State<T>, a: Action<T>)
    requires OwnItems(s.calls, s.taken) && Enabled(s, a)
    ensures OwnItems(Apply(s, a).calls, Apply(s, a).taken)
  {
  }

  lemma InvStep<T>(s: State<T>, a: Action<T>)
    requires Inv(s) && Enabled(s, a)
    ensures Inv(Apply(s, a)) && |Apply(s, a).ring.mem| == |s.ring.mem|
  {
    TokensStep(s, a);
    OrderStep(s, a);
    OwnItemsStep(s, a);
  }

  predicate Runs<T>(s: State<T>, acts: seq<Action<T>>)
    decreases |acts|
  {
    acts == [] || (Enabled(s, acts[0]) && Runs(Apply(s, acts[0]), acts[1..]))
  }

  function Exec<T>(s: State<T>, acts: seq<Action<T>>): State<T>
    requires Runs(s, acts)
    decreases |acts|
  {
    if acts == [] then s else Exec(Apply(s, acts[0]), acts[1..])
  }

  lemma {:induction false} InvRun<T>(s: State<T>, acts: seq<Action<T>>)
    requires Inv(s) && Runs(s, acts)
    ensures Inv(Exec(s, acts)) && |Exec(s, acts).ring.mem| == |s.ring.mem|
    decreases |acts|
  {
    if acts != [] {
      InvStep(s, acts[0]);
      InvRun(Apply(s, acts[0]), acts[1..]);
    }
  }

  /** What the constructor leaves: an empty ring and one slot token per slot. */
  ghost predicate Initial<T>(s: State<T>) {
    && s.ring.Valid() && s.ring.sz == 0
    && s.slots == |s.ring.mem| && s.data == 0
    && s.calls == map[] && s.stored == [] && s.taken == []
  }

  // ----- Main results -----

  /** In every state of every run of any number of putters and getters: the tokens add up, the
      items come out in the order they went in, and each finished get has an item of its own. */
  lemma SafeOnAllRuns<T>(s: State<T>, acts: seq<Action<T>>)
    requires Initial(s) && Runs(s, acts)
    ensures var e := Exec(s, acts);
            && |e.ring.mem| == |s.ring.mem| && e.ring.Valid() && Tokens(e) && Fifo(e)
  {
    assert forall p: Call<T> -> bool :: Matching(s.calls, p) == {};
    InvRun(s, acts);
  }

  /** The values that a run stores, from its actions alone: those of the puts, in the order of
      their critical sections. `begun` are the values of the puts begun before. */
  function Puts<T>(begun: map<nat, T>, acts: seq<Action<T>>): seq<T>
    decreases |acts|
  {
    if acts == [] then []
    else
      match acts[0]
      case BeginPut(t, v) => Puts(begun[t := v], acts[1..])
      case PutSection(t) => (if t in begun then [begun[t]] else []) + Puts(begun, acts[1..])
      case _ => Puts(begun, acts[1..])
  }

  /** What the puts on their way carry is what they were begun with. */
  ghost predicate Carries<T>(calls: map<nat, Call<T>>, begun: map<nat, T>) {
    forall t :: t in calls && (calls[t].WantPut? || calls[t].HasSlot?) ==> t in begun && begun[t] == calls[t].v
  }

  lemma {:induction false} StoredFrom<T>(s: State<T>, begun: map<nat, T>, acts: seq<Action<T>>)
    requires Runs(s, acts) && Carries(s.calls, begun)
    ensures Exec(s, acts).stored == s.stored + Puts(begun, acts)
    decreases |acts|
  {
    if acts != [] {
      var s', rest := Apply(s, acts[0]), acts[1..];
      match acts[0] {
        case BeginPut(t, v) => StoredFrom(s', begun[t := v], rest);
        case PutSection(t) => StoredFrom(s', begun, rest);
        case _ => StoredFrom(s', begun, rest);
      }
    }
  }

  /** No call has two critical sections: behind the first it is past it for good. */
  lemma {:induction false} PastForGood<T>(s: State<T>, acts: seq<Action<T>>, t: nat, i: nat)
    requires Runs(s, acts) && i < |acts|
    requires t in s.calls && !(s.calls[t].WantPut? || s.calls[t].HasSlot?)
    ensures acts[i] != PutSection(t) && !(acts[i].BeginPut? && acts[i].t == t)
    decreases |acts|
  {
    if i > 0 {
      PastForGood(Apply(s, acts[0]), acts[1..], t, i - 1);
    }
  }

  /** A call that has been begun is not begun again. */
  lemma {:induction false} BegunOnce<T>(s: State<T>, acts: seq<Action<T>>, t: nat, i: nat)
    requires Runs(s, acts) && i < |acts| && t in s.calls
    ensures !(acts[i].BeginPut? && acts[i].t == t)
    decreases |acts|
  {
    if i > 0 {
      BegunOnce(Apply(s, acts[0]), acts[1..], t, i - 1);
    }
  }

  /** So no put stores twice, and none has two values. */
  lemma {:induction false} EachPutOnce<T>(s: State<T>, acts: seq<Action<T>>, i: nat, j: nat)
    requires Runs(s, acts) && i < j < |acts| && acts[i].t == acts[j].t
    ensures acts[i].PutSection? ==> !acts[j].PutSection?
    ensures acts[i].BeginPut? ==> !acts[j].BeginPut?
    decreases |acts|
  {
    if i > 0 {
      EachPutOnce(Apply(s, acts[0]), acts[1..], i - 1, j - 1);
    } else if acts[0].PutSection? {
      PastForGood(Apply(s, acts[0]), acts[1..], acts[0].t, j - 1);
    } else if acts[0].BeginPut? {
      BegunOnce(Apply(s, acts[0]), acts[1..], acts[0].t, j - 1);
    }
  }

  /** And a put that is past its section had one. */
  lemma {:induction false} PastPutsStored<T>(s: State<T>, acts: seq<Action<T>>, t: nat) returns (i: nat)
    requires Runs(s, acts) && t in Exec(s, acts).calls
    requires Exec(s, acts).calls[t].PutUnposted? || Exec(s, acts).calls[t].PutDone?
    requires t in s.calls ==> !(s.calls[t].PutUnposted? || s.calls[t].PutDone?)
    ensures i < |acts| && acts[i] == PutSection(t)
    decreases |acts|
  {
    if acts[0] == PutSection(t) {
      i := 0;
    } else {
      i := PastPutsStored(Apply(s, acts[0]), acts[1..], t);
      i := i + 1;
    }
  }

  /** First in, first out, on every run: the ring has stored the values that the puts were begun
      with, in the order of their critical sections; the gets have taken the first of them, one
      each and in order, and the others are in the ring. */
  lemma GetsReturnPuts<T>(s: State<T>, acts: seq<Action<T>>)
    requires Initial(s) && Runs(s, acts)
    ensures var e := Exec(s, acts); var puts := Puts(map[], acts);
            && e.ring.Valid() && puts == e.taken + e.ring.Contents()
            && forall t :: t in e.calls && HasItem(e.calls[t]) ==>
                 e.calls[t].rank < |e.taken| && e.calls[t].v == puts[e.calls[t].rank]
  {
    SafeOnAllRuns(s, acts);
    StoredFrom(s, map[], acts);
    assert [] + Puts(map[], acts) == Puts(map[], acts);
  }

  /** The number of critical sections of gets, whose ranks these are. */
  function Gets<T>(acts: seq<Action<T>>): nat
    decreases |acts|
  {
    if acts == [] then 0 else One(acts[0].GetSection?) + Gets(acts[1..])
  }

  /** The k-th get to enter its critical section returns the value of the k-th put: for the get of
      `t` at place `i` of the run, `k` is the number of sections of gets before `i`. */
  lemma GetReturnsByPlace<T>(s: State<T>, acts: seq<Action<T>>, i: nat, t: nat)
    requires Initial(s) && Runs(s, acts) && i < |acts| && acts[i] == GetSection(t)
    ensures var c := if t in Exec(s, acts).calls then Exec(s, acts).calls[t] else GaveUp;
            var k, puts := Gets(acts[..i]), Puts(map[], acts);
            HasItem(c) && c.rank == k < |puts| && c.v == puts[k]
  {
    GetKeepsRank(s, acts, i, t);
    GetsReturnPuts(s, acts);
    SafeOnAllRuns(s, acts);
  }

  lemma {:induction false} GetKeepsRank<T>(s: State<T>, acts: seq<Action<T>>, i: nat, t: nat)
    requires Runs(s, acts) && i < |acts| && acts[i] == GetSection(t)
    ensures var e := Exec(s, acts);
            t in e.calls && HasItem(e.calls[t]) && e.calls[t].rank == |s.taken| + Gets(acts[..i])
    decreases |acts|
  {
    var s' := Apply(s, acts[0]);
    if i == 0 {
      assert acts[..0] == [];
      ItemStays(s', acts[1..], t);
    } else {
      assert acts[..i][1..] == acts[1..][..i - 1];
      GetKeepsRank(s', acts[1..], i - 1, t);
    }
  }

  lemma {:induction false} ItemStays<T>(s: State<T>, acts: seq<Action<T>>, t: nat)
    requires Runs(s, acts) && t in s.calls && HasItem(s.calls[t])
    ensures var e := Exec(s, acts); t in e.calls && HasItem(e.calls[t]) && e.calls[t].rank == s.calls[t].rank
    decreases |acts|
  {
    if acts != [] {
      ItemStays(Apply(s, acts[0]), acts[1..], t);
    }
  }

  /** A call past its token is never stuck and never does harm: a put finds a free slot, a get
      finds an item, namely the oldest one not yet taken. */
  lemma TokenHoldersProceed<T>(s: State<T>, acts: seq<Action<T>>, t: nat)
    requires Initial(s) && Runs(s, acts) && t in Exec(s, acts).calls
    ensures var e := Exec(s, acts);
            && (e.calls[t].HasSlot? ==> Enabled(e, PutSection(t)) && e.ring.sz < |e.ring.mem|)
            && (e.calls[t].HasData? ==> Enabled(e, GetSection(t)) && |e.taken| < |e.stored|
                                        && e.ring.mem[e.ring.get] == e.stored[|e.taken|])
  {
    SafeOnAllRuns(s, acts);
    var e := Exec(s, acts);
    if e.calls[t].HasSlot? {
      TokenForSlot(e, t);
    } else if e.calls[t].HasData? {
      TokenForItem(e, t);
    }
  }

  lemma OneMore<T>(s: State<T>, a: Action<T>, acts: seq<Action<T>>)
    requires Enabled(s, a) && Runs(Apply(s, a), acts)
    ensures Runs(s, [a] + acts) && Exec(s, [a] + acts) == Exec(Apply(s, a), acts)
  {
    assert ([a] + acts)[1..] == acts;
  }

  lemma FourSteps<T>(s: State<T>, s1: State<T>, s2: State<T>, s3: State<T>, a: Action<T>, b: Action<T>, c: Action<T>,
      d: Action<T>)
    requires Enabled(s, a) && s1 == Apply(s, a) && Enabled(s1, b) && s2 == Apply(s1, b)
    requires Enabled(s2, c) && s3 == Apply(s2, c) && Enabled(s3, d)
    ensures Runs(s, [a, b, c, d]) && Exec(s, [a, b, c, d]) == Apply(s3, d)
  {
    hide Enabled, Apply;
    OneMore(s3, d, []);
    OneMore(s2, c, [d]);
    OneMore(s1, b, [c, d]);
    OneMore(s, a, [b, c, d]);
    assert [a, b, c, d] == [a] + [b, c, d] && [b, c, d] == [b] + [c, d] && [c, d] == [c] + [d] && [d] == [d] + [];
  }

  /** A token that is still there stands for room or for an item. */
  lemma FreeTokens<T>(s: State<T>)
    requires s.ring.Valid() && Tokens(s)
    ensures s.slots > 0 ==> s.ring.InBounds() && s.ring.sz < |s.ring.mem|
    ensures s.data > 0 ==> s.ring.InBounds() && s.ring.sz > 0
  {
  }

  /** A put that is called while there is a slot token and runs on is never stopped, appends its
      value and returns, whatever calls are on their way. */
  lemma PutRunsThrough<T>(s: State<T>, acts: seq<Action<T>>, t: nat, v: T)
    requires Initial(s) && Runs(s, acts) && t !in Exec(s, acts).calls && Exec(s, acts).slots > 0
    ensures var e := Exec(s, acts); var call := [BeginPut(t, v), TakeSlot(t), PutSection(t), PostData(t)];
            && e.ring.Valid() && Runs(e, call)
            && var e' := Exec(e, call);
            && e'.ring.Valid() && e'.ring.Contents() == e.ring.Contents() + [v] && e'.taken == e.taken
            && e'.calls == e.calls[t := PutDone] && e'.slots == e.slots - 1 && e'.data == e.data + 1
  {
    SafeOnAllRuns(s, acts);
    var e := Exec(s, acts);
    FreeTokens(e);
    PutAppends(e.ring, v);
    hide Ring.Contents, Ring.Put, Ring.Valid, Tokens, Fifo, Runs, Exec;
    var e1 := e.(calls := e.calls[t := WantPut(v)]);
    var e2 := e.(calls := e.calls[t := HasSlot(v)], slots := e.slots - 1);
    assert e1.calls[t := HasSlot(v)] == e2.calls;
    var e3 := e2.(calls := e.calls[t := PutUnposted], ring := e.ring.Put(v), stored := e.stored + [v]);
    assert e2.calls[t := PutUnposted] == e3.calls && e3.calls[t := PutDone] == e.calls[t := PutDone];
    FourSteps(e, e1, e2, e3, BeginPut(t, v), TakeSlot(t), PutSection(t), PostData(t));
  }

  /** And a get that is called while there is a data token takes the oldest item and returns it. */
  lemma GetRunsThrough<T>(s: State<T>, acts: seq<Action<T>>, t: nat)
    requires Initial(s) && Runs(s, acts) && t !in Exec(s, acts).calls && Exec(s, acts).data > 0
    ensures var e := Exec(s, acts); var call := [BeginGet(t), TakeData(t), GetSection(t), PostSlot(t)];
            && e.ring.Valid() && e.ring.Contents() != [] && Runs(e, call)
            && var e' := Exec(e, call);
            && e'.ring.Valid() && e'.ring.Contents() == e.ring.Contents()[1..] && e'.stored == e.stored
            && e'.calls == e.calls[t := Got(e.ring.Contents()[0], |e.taken|)]
            && e'.slots == e.slots + 1 && e'.data == e.data - 1
  {
    SafeOnAllRuns(s, acts);
    var e := Exec(s, acts);
    FreeTokens(e);
    GetTakesOldest(e.ring);
    hide Ring.Contents, Ring.Get, Ring.Valid, Tokens, Fifo, Runs, Exec;
    var (r, v) := e.ring.Get();
    var n := |e.taken|;
    var e1 := e.(calls := e.calls[t := WantGet]);
    var e2 := e.(calls := e.calls[t := HasData], data := e.data - 1);
    assert e1.calls[t := HasData] == e2.calls;
    var e3 := e2.(calls := e.calls[t := GetUnposted(v, n)], ring := r, taken := e.taken + [v]);
    assert e2.calls[t := GetUnposted(v, n)] == e3.calls && e3.calls[t := Got(v, n)] == e.calls[t := Got(v, n)];
    FourSteps(e, e1, e2, e3, BeginGet(t), TakeData(t), GetSection(t), PostSlot(t));
  }

  predicate MidFlight<T>(c: Call<T>) { HoldsSlot(c) || OwesData(c) || HoldsData(c) || OwesSlot(c) }

  /** With no call between its token and its post, a put blocks exactly when the queue is full
      and a get exactly when it is empty. */
  lemma BlocksOnlyWhenFullOrEmpty<T>(s: State<T>, acts: seq<Action<T>>)
    requires Initial(s) && Runs(s, acts)
    requires forall t :: t in Exec(s, acts).calls ==> !MidFlight(Exec(s, acts).calls[t])
    ensures var e := Exec(s, acts);
            && e.ring.Valid()
            && (e.slots == 0 <==> |e.ring.Contents()| == |e.ring.mem|)
            && (e.data == 0 <==> e.ring.Contents() == [])
  {
    SafeOnAllRuns(s, acts);
    var e := Exec(s, acts);
    assert Matching(e.calls, HoldsSlot<T>) == Matching(e.calls, OwesData<T>) == {};
    assert Matching(e.calls, HoldsData<T>) == Matching(e.calls, OwesSlot<T>) == {};
  }

  /** What peek sees under the lock is the item the next get will take. */
  lemma PeekSeesNext<T>(s: State<T>, acts: seq<Action<T>>)
    requires Initial(s) && Runs(s, acts)
    ensures var e := Exec(s, acts);
            && e.ring.Valid()
            && (e.ring.sz != 0 <==> |e.taken| < |e.stored|)
            && (e.ring.sz != 0 ==> e.ring.mem[e.ring.get] == e.stored[|e.taken|])
  {
    SafeOnAllRuns(s, acts);
    var e := Exec(s, acts);
    assert e.ring.sz != 0 ==> e.ring.Contents()[0] == e.ring.mem[e.ring.get];
  }
}
