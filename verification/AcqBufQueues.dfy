/** The set of buffer queues of CtrlrFx/AcqBufQueue.h and how it is filled. */
module AcqBufQueues {
  import opened Buffers
  import opened MessageQueue
  import AcqPipeline
  import R = RingPipeline

  class AcqBufQueue<T(0)> {
    var que: seq<MsgQueue<Buffer?<T>>>

    /** Queue `q` is idle and empty and can hold `n` buffers. */
    static ghost predicate EmptyQueue(q: MsgQueue<Buffer?<T>>, n: nat)
      reads q, q.buf
    {
      q.Idle() && q.buf.Length == n && q.View().Contents() == []
    }

    constructor ()
      ensures que == []
    {
      que := [];
    }

    /** Creates `nque` empty queues of capacity `queSz`. */
    method ResizeQueues(nque: nat, queSz: nat)
      modifies this
      ensures |que| == nque
      ensures forall i :: 0 <= i < nque ==> fresh(que[i]) && fresh(que[i].buf) && EmptyQueue(que[i], queSz)
      ensures forall i, j :: 0 <= i < j < nque ==> que[i] != que[j] && que[i].buf != que[j].buf
    {
      que := [];
      while |que| < nque
        invariant |que| <= nque
        invariant forall i :: 0 <= i < |que| ==> fresh(que[i]) && fresh(que[i].buf) && EmptyQueue(que[i], queSz)
        invariant forall i, j :: 0 <= i < j < |que| ==> que[i] != que[j] && que[i].buf != que[j].buf
        decreases nque - |que|
      {
        var mem := new Buffer?<T>[queSz](_ => null);
        var q := new MsgQueue(mem);
        que := que + [q];
      }
    }

    /** The buffers are distinct objects over distinct memories. */
    static ghost predicate Apart(bufs: seq<Buffer<T>>)
      reads bufs
    {
      forall j, k :: 0 <= j < k < |bufs| ==> bufs[j] != bufs[k] && bufs[j].arr != bufs[k].arr
    }

    /** Puts a new buffer into a queue that has room for it. */
    static method PutNew(q: MsgQueue<Buffer?<T>>, sz: nat) returns (b: Buffer<T>)
      requires q.Idle() && |q.View().Contents()| < q.buf.Length
      modifies q`put, q`sz, q`dataSem, q`slotSem, q.buf
      ensures q.Idle() && q.View().Contents() == old(q.View().Contents()) + [b]
      ensures fresh(b) && fresh(b.arr) && b.Valid() && b.arr.Length == sz
    {
      b := new Buffer<T>(sz);
      var _ := q.TryPut(b);
    }

    /** The loop of `resize`: puts `nbuf` new buffers into an empty queue of that capacity. */
    static method Fill(q: MsgQueue<Buffer?<T>>, nbuf: nat, sz: nat) returns (bufs: seq<Buffer<T>>)
      requires EmptyQueue(q, nbuf)
      modifies q`put, q`sz, q`dataSem, q`slotSem, q.buf
      ensures |bufs| == nbuf && q.Idle() && q.View().Contents() == bufs
      ensures forall k :: 0 <= k < nbuf ==> fresh(bufs[k]) && bufs[k].Valid() && bufs[k].arr.Length == sz
      ensures Apart(bufs)
    {
      bufs := [];
      while |bufs| < nbuf
        invariant |bufs| <= nbuf && q.Idle() && q.View().Contents() == bufs
        invariant forall k :: 0 <= k < |bufs| ==> fresh(bufs[k]) && bufs[k].Valid() && bufs[k].arr.Length == sz
        invariant Apart(bufs)
        decreases nbuf - |bufs|
      {
        var b := PutNew(q, sz);
        bufs := bufs + [b];
      }
    }

    /** Creates the queues and fills the first with `nbuf` new buffers of `sz` items, so that it
        is full, in the order of creation, and the others are empty. */
    method Resize(nque: nat, nbuf: nat, sz: nat) returns (bufs: seq<Buffer<T>>)
      requires nbuf > 0 ==> nque > 0
      modifies this
      ensures |que| == nque && |bufs| == nbuf
      ensures forall i :: 0 < i < nque ==> EmptyQueue(que[i], nbuf)
      ensures nque > 0 ==> que[0].Idle() && que[0].buf.Length == nbuf && que[0].View().Contents() == bufs
      ensures forall k :: 0 <= k < nbuf ==> fresh(bufs[k]) && bufs[k].Valid() && bufs[k].arr.Length == sz
      ensures Apart(bufs)
    {
      ResizeQueues(nque, nbuf);
      bufs := [];
      if nque > 0 {
        bufs := Fill(que[0], nbuf, sz);
      }
    }
  }

  // ----- The pipeline starts from there -----

  /** The place of a buffer in the order of creation. */
  function NumberOf<T(0)>(bufs: seq<Buffer<T>>, b: Buffer?<T>): nat
    decreases |bufs|
  {
    if bufs == [] || bufs[0] == b then 0 else 1 + NumberOf(bufs[1..], b)
  }

  lemma {:induction false} NumberOfNth<T(0)>(bufs: seq<Buffer<T>>, k: nat)
    requires k < |bufs| && forall i :: 0 <= i < k ==> bufs[i] != bufs[k]
    ensures NumberOf(bufs, bufs[k]) == k
    decreases k
  {
    if k > 0 {
      NumberOfNth(bufs[1..], k - 1);
    }
  }

  /** A queue with the numbers of its buffers in place of the buffers. */
  ghost function Numbered<T(0)>(bufs: seq<Buffer<T>>, q: MsgQueue<Buffer?<T>>): R.RingQueue
    reads q, q.buf
  {
    var mem := seq(q.buf.Length, i requires 0 <= i < q.buf.Length reads q, q.buf => NumberOf(bufs, q.buf[i]));
    R.RingQueue(Ring(mem, q.put, q.get, q.sz), q.slotSem, q.dataSem)
  }

  /** The three threads about to start on three queues. */
  ghost function StartOf(que: seq<MsgQueue<Buffer?<AcqPipeline.word>>>, bufs: seq<Buffer<AcqPipeline.word>>)
      : R.RingState
    requires |que| == 3 && forall k :: 0 <= k < |bufs| ==> bufs[k].Valid()
    reads que, set q | q in que :: q.buf, bufs, set b | b in bufs :: b.arr
  {
    var views := seq(|bufs|, k requires 0 <= k < |bufs| && bufs[k].Valid() reads bufs, set b | b in bufs :: b.arr =>
      bufs[k].View());
    R.RingState([Numbered(bufs, que[0]), Numbered(bufs, que[1]), Numbered(bufs, que[2])],
                [AcqPipeline.WantGet, AcqPipeline.WantGet, AcqPipeline.WantGet],
                AcqPipeline.Data(views, 0, 0, false, seq(|bufs|, _ => 0), 0, 0))
  }

  /** What `Resize` leaves for three queues is what the pipeline starts from. */
  lemma ResizedIsInitial(que: seq<MsgQueue<Buffer?<AcqPipeline.word>>>, bufs: seq<Buffer<AcqPipeline.word>>, sz: nat)
    requires |que| == 3 && AcqBufQueue.Apart(bufs)
    requires forall k :: 0 <= k < |bufs| ==> bufs[k].Valid() && bufs[k].arr.Length == sz
    requires que[0].Idle() && que[0].buf.Length == |bufs| && que[0].View().Contents() == bufs
    requires forall i :: 0 < i < 3 ==> AcqBufQueue.EmptyQueue(que[i], |bufs|)
    ensures R.RingInitial(StartOf(que, bufs), sz)
  {
    NumberedContents(bufs, que[0]);
    NumberedContents(bufs, que[1]);
    NumberedContents(bufs, que[2]);
    forall k | 0 <= k < |bufs| ensures NumberOf(bufs, bufs[k]) == k {
      NumberOfNth(bufs, k);
    }
    hide Numbered, NumberOf;
    var s := StartOf(que, bufs);
    assert s.queues[0].ring.Contents() == seq(|bufs|, i => i);
    hide Ring.Contents;
    assert R.RingsValid(s);
  }

  lemma NumberedContents<T(0)>(bufs: seq<Buffer<T>>, q: MsgQueue<Buffer?<T>>)
    requires q.Valid()
    ensures var r := Numbered(bufs, q); var c := q.View().Contents();
            && r.slots == q.slotSem && r.data == q.dataSem
            && r.ring.Valid() && |r.ring.mem| == q.buf.Length
            && r.ring.Contents() == seq(|c|, k requires 0 <= k < |c| => NumberOf(bufs, c[k]))
  {
    hide NumberOf;
  }
}
