/** The circular queue of CtrlrFx/CircQueue.h.  One slot always stays free, so a queue over `n`
    slots holds at most n-1 items. */
module CircularQueue {

  datatype Circ<T> = Circ(mem: seq<T>, put: nat, get: nat) {

    predicate Valid() { put < |mem| && get < |mem| }

    function Next(p: nat): nat { if p + 1 == |mem| then 0 else p + 1 }

    function Wrap(i: nat): int { if i < |mem| then i else i - |mem| }

    predicate Full()
      requires Valid()
    {
      Next(put) == get
    }

    predicate IsEmpty() { put == get }

    function Size(): int
      requires Valid()
    {
      if put - get < 0 then put - get + |mem| else put - get
    }

    function Remaining(): int
      requires Valid()
    {
      |mem| - Size() - 1
    }

    /** The queued items, oldest first. */
    function Contents(): (c: seq<T>)
      requires Valid()
      ensures |c| == Size() && forall i :: 0 <= i < |c| ==> c[i] == mem[Wrap(get + i)]
    {
      seq(Size(), i requires 0 <= i < Size() => mem[Wrap(get + i)])
    }

    /** A single put. */
    function Put(v: T): (Circ<T>, bool)
      requires Valid()
    {
      if Full() then (this, false) else (Circ(mem[put := v], Next(put), get), true)
    }

    /** A single get into the caller's variable. */
    function Get(): (Circ<T>, seq<T>)
      requires Valid()
    {
      if IsEmpty() then (this, []) else (Circ(mem, put, Next(get)), [mem[get]])
    }

    /** How far `j` is after `p`, going round. */
    function Dist(p: nat, j: nat): int
    {
      if j >= p then j - p else j + |mem| - p
    }
  }

  /** Single puts in turn until the queue is full; the second result is how many went in. */
  function PutMany<T>(q: Circ<T>, vs: seq<T>): (r: (Circ<T>, nat))
    requires q.Valid()
    ensures r.0.Valid()
    decreases |vs|
  {
    if vs == [] then (q, 0)
    else
      var (q1, ok) := q.Put(vs[0]);
      if ok then var (q2, n) := PutMany(q1, vs[1..]); (q2, n + 1) else (q, 0)
  }

  /** Up to `n` single gets, stopping when the queue is empty. */
  function GetMany<T>(q: Circ<T>, n: nat): (r: (Circ<T>, seq<T>))
    requires q.Valid()
    ensures r.0.Valid()
    decreases n
  {
    if n == 0 then (q, [])
    else
      var (q1, v) := q.Get();
      if v == [] then (q, []) else var (q2, vs) := GetMany(q1, n - 1); (q2, v + vs)
  }

  // ----- What single operations amount to -----

  lemma SizeBounds<T>(q: Circ<T>)
    requires q.Valid()
    ensures 0 <= q.Size() < |q.mem|
    ensures q.Size() + q.Remaining() + 1 == |q.mem|
    ensures q.Full() <==> q.Size() == |q.mem| - 1
    ensures q.IsEmpty() <==> q.Size() == 0
  {
  }

  /** A put appends unless the queue already holds one item less than its capacity; a get takes
      the oldest item unless the queue is empty. */
  lemma SingleOps<T>(q: Circ<T>, v: T)
    requires q.Valid()
    ensures var (r, ok) := q.Put(v);
            r.Valid() && (ok <==> |q.Contents()| < |q.mem| - 1)
            && r.Contents() == if ok then q.Contents() + [v] else q.Contents()
    ensures var (r, got) := q.Get();
            r.Valid() && got + r.Contents() == q.Contents() && (got == [] <==> q.Contents() == [])
  {
    assert !q.IsEmpty() ==> q.Contents()[0] == q.mem[q.get];
  }

  /** Puts in turn store the values in the slots that follow `put`, and nothing else changes. */
  lemma {:induction false} PutManySlots<T>(q: Circ<T>, vs: seq<T>)
    requires q.Valid()
    ensures var (r, n) := PutMany(q, vs);
            && n == (if |vs| <= q.Remaining() then |vs| else q.Remaining())
            && |r.mem| == |q.mem| && r.get == q.get && r.put == q.Wrap(q.put + n)
            && forall j :: 0 <= j < |q.mem| ==>
                 r.mem[j] == if q.Dist(q.put, j) < n then vs[q.Dist(q.put, j)] else q.mem[j]
    decreases |vs|
  {
    SizeBounds(q);
    if vs != [] && !q.Full() {
      var q1 := q.Put(vs[0]).0;
      SizeBounds(q1);
      PutManySlots(q1, vs[1..]);
      var (r, n) := PutMany(q1, vs[1..]);
      forall j | 0 <= j < |q.mem|
        ensures r.mem[j] == if q.Dist(q.put, j) < n + 1 then vs[q.Dist(q.put, j)] else q.mem[j]
      {
        if j != q.put {
          assert q.Dist(q.put, j) == q1.Dist(q1.put, j) + 1;
        } else {
          assert q1.Dist(q1.put, j) == |q.mem| - 1;
        }
      }
    }
  }

  lemma SlotsDetermine<T>(q: Circ<T>, vs: seq<T>, n: nat, r: Circ<T>)
    requires q.Valid() && n == if |vs| <= q.Remaining() then |vs| else q.Remaining()
    requires |r.mem| == |q.mem| && r.get == q.get && r.put == q.Wrap(q.put + n)
    requires forall j :: 0 <= j < |q.mem| ==>
               r.mem[j] == if q.Dist(q.put, j) < n then vs[q.Dist(q.put, j)] else q.mem[j]
    ensures PutMany(q, vs) == (r, n)
  {
    PutManySlots(q, vs);
    assert r.mem == PutMany(q, vs).0.mem;
  }

  /** The first `k` items are one stretch of the memory, or two around its end. */
  lemma FirstItems<T>(q: Circ<T>, k: nat)
    requires q.Valid() && k <= q.Size()
    ensures var nwrap := |q.mem| - q.get;
            q.Contents()[..k] == if k < nwrap then q.mem[q.get..q.get + k] else q.mem[q.get..] + q.mem[..k - nwrap]
  {
  }

  lemma {:induction false} PutManyAppends<T>(q: Circ<T>, vs: seq<T>)
    requires q.Valid()
    ensures var (r, n) := PutMany(q, vs);
            n <= |vs| && r.Contents() == q.Contents() + vs[..n]
    decreases |vs|
  {
    if vs != [] {
      SingleOps(q, vs[0]);
      var (q1, ok) := q.Put(vs[0]);
      if ok {
        PutManyAppends(q1, vs[1..]);
        Appended(q.Contents(), vs, PutMany(q1, vs[1..]).1);
      }
    }
  }

  lemma Appended<T>(c: seq<T>, vs: seq<T>, n: nat)
    requires n < |vs|
    ensures c + [vs[0]] + vs[1..][..n] == c + vs[..n + 1]
  {
  }

  lemma {:induction false} GetManyMoves<T>(q: Circ<T>, n: nat)
    requires q.Valid()
    ensures GetMany(q, n).0 == q.(get := q.Wrap(q.get + if n <= q.Size() then n else q.Size()))
    decreases n
  {
    SizeBounds(q);
    if n > 0 && !q.IsEmpty() {
      var q1 := q.Get().0;
      SizeBounds(q1);
      GetManyMoves(q1, n - 1);
    }
  }

  lemma {:induction false} GetManyTakes<T>(q: Circ<T>, n: nat)
    requires q.Valid()
    ensures var (r, vs) := GetMany(q, n); var k := if n <= q.Size() then n else q.Size();
            && r == q.(get := q.Wrap(q.get + k))
            && vs == q.Contents()[..k] && r.Contents() == q.Contents()[k..]
    decreases n
  {
    GetManyMoves(q, n);
    SizeBounds(q);
    if n > 0 && !q.IsEmpty() {
      var q1, first := q.Get().0, q.Get().1;
      SingleOps(q, q.mem[q.get]);
      assert first + q1.Contents() == q.Contents();
      GetManyTakes(q1, n - 1);
      hide Circ.Contents;
      var k := if n <= q.Size() then n else q.Size();
      Taken(first, q1.Contents(), k - 1);
    }
  }

  lemma Taken<T>(first: seq<T>, rest: seq<T>, k: nat)
    requires |first| == 1 && k <= |rest|
    ensures first + rest[..k] == (first + rest)[..k + 1] && rest[k..] == (first + rest)[k + 1..]
  {
  }

  /** A queue over `cap` slots takes exactly the first cap-1 of any items. */
  lemma CapacityIsOneLess<T>(q: Circ<T>, vs: seq<T>)
    requires q.Valid() && q.IsEmpty()
    ensures PutMany(q, vs).1 == if |vs| < |q.mem| then |vs| else |q.mem| - 1
  {
    PutManySlots(q, vs);
  }

  // ----- The class -----

  class CircQueue<T(0)> {
    var base: array<T>
    var put: nat
    var get: nat

    ghost function View(): Circ<T>
      reads this, base
    {
      Circ(base[..], put, get)
    }

    ghost predicate Valid()
      reads this, base
    {
      View().Valid()
    }

    constructor (arr: array<T>)
      requires arr.Length > 0
      ensures Valid() && base == arr && View().Contents() == []
    {
      base, put, get := arr, 0, 0;
    }

    method Size() returns (n: nat)
      requires Valid()
      ensures n == |View().Contents()|
    {
      var sz := put - get;
      if sz < 0 {
        sz := sz + base.Length;
      }
      n := sz;
    }

    method Remaining() returns (n: nat)
      requires Valid()
      ensures n + |View().Contents()| + 1 == base.Length
    {
      var sz := Size();
      n := base.Length - sz - 1;
    }

    method CopyElem(dest: nat, src: seq<T>)
      requires dest + |src| <= base.Length
      modifies base
      ensures forall j :: 0 <= j < base.Length ==>
                base[j] == if dest <= j < dest + |src| then src[j - dest] else old(base[j])
    {
      var i := 0;
      while i < |src|
        invariant 0 <= i <= |src|
        invariant forall j :: 0 <= j < base.Length ==>
                    base[j] == if dest <= j < dest + i then src[j - dest] else old(base[j])
      {
        base[dest + i] := src[i];
        i := i + 1;
      }
    }

    method Put(v: T) returns (ok: bool)
      requires Valid()
      modifies this`put, base
      ensures Valid() && (View(), ok) == old(View()).Put(v)
    {
      var next := if put + 1 == base.Length then 0 else put + 1;
      if next == get {
        return false;
      }
      base[put] := v;
      put := next;
      ok := true;
    }

    /** The array put has the result and the final queue of that many single puts. */
    method PutArray(buf: seq<T>) returns (n: nat)
      requires Valid()
      modifies this`put, base
      ensures Valid() && (View(), n) == PutMany(old(View()), buf)
    {
      ghost var was := View();
      var room := Remaining();
      n := if |buf| <= room then |buf| else room;
      var nwrap := base.Length - put;
      if n < nwrap {
        CopyElem(put, buf[..n]);
        put := put + n;
      } else {
        var nrem := n - nwrap;
        CopyElem(put, buf[..nwrap]);
        CopyElem(0, buf[nwrap..n]);
        put := nrem;
      }
      SlotsDetermine(was, buf, n, View());
    }

    /** The specialisation for bytes treats the exact fit on its own, to the same effect. */
    method PutBytes(buf: seq<T>) returns (n: nat)
      requires Valid()
      modifies this`put, base
      ensures Valid() && (View(), n) == PutMany(old(View()), buf)
    {
      ghost var was := View();
      var room := Remaining();
      n := if |buf| <= room then |buf| else room;
      var nwrap := base.Length - put;
      if n < nwrap {
        CopyElem(put, buf[..n]);
        put := put + n;
      } else if n == nwrap {
        CopyElem(put, buf[..n]);
        put := 0;
      } else {
        var nrem := n - nwrap;
        CopyElem(put, buf[..nwrap]);
        CopyElem(0, buf[nwrap..n]);
        put := nrem;
      }
      SlotsDetermine(was, buf, n, View());
    }

    method Get() returns (v: seq<T>)
      requires Valid()
      modifies this`get
      ensures Valid() && (View(), v) == old(View()).Get()
    {
      if put == get {
        return [];
      }
      v := [base[get]];
      get := if get + 1 == base.Length then 0 else get + 1;
    }

    /** The array get has the result and the final queue of up to `n` single gets. */
    method GetArray(n: nat) returns (vs: seq<T>)
      requires Valid()
      modifies this`get
      ensures Valid() && (View(), vs) == GetMany(old(View()), n)
    {
      ghost var was := View();
      GetManyTakes(was, n);
      if put == get {
        return [];
      }
      var size := Size();
      var k := if n <= size then n else size;
      var nwrap := base.Length - get;
      if k < nwrap {
        vs := base[get..get + k];
        get := get + k;
      } else {
        var nrem := k - nwrap;
        vs := base[get..] + base[..nrem];
        get := nrem;
      }
      FirstItems(was, k);
    }
  }
}
