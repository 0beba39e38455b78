/** The native binary encoder and decoder of CtrlrFx/BufCodec.h over a byte buffer. */
module BufCodec {
  import opened Layout
  import opened Buffers

  /** The memory image of one object; its length is the size of the object's type. */
  type Value = v: seq<byte> | |v| >= 1 witness [0]

  datatype Option<+T> = None | Some(value: T)

  /** A codec: its buffer and the state flag that goes bad on the first failure. */
  datatype Codec = Codec(buf: Buf<byte>, good: bool) {

    predicate Valid() { buf.Valid() }

    /** Aligns, stores and updates the state; the second result is the byte count returned. */
    function Put(v: Value): (r: (Codec, nat))
      requires Valid()
      ensures r.0.Valid()
    {
      if !good then (this, 0)
      else
        var (b, nx) := buf.Align(|v|).PutBlock(v);
        (Codec(b, nx == |v|), nx)
    }

    /** Aligns and reads an object of `n` bytes; `None` leaves the caller's object alone. */
    function Get(n: Pos): (r: (Codec, Option<Value>))
      requires Valid()
      ensures r.0.Valid() && (r.1.Some? ==> |r.1.value| == n)
    {
      if !good then (this, None)
      else
        var (b, data) := buf.Align(n).GetBlock(n);
        if |data| == n then (Codec(b, true), Some(data)) else (Codec(b, false), None)
    }

    function Clear(): Codec { Codec(buf.Clear(), true) }

    function Rewind(): Codec { Codec(buf.Rewind(), true) }
  }

  type ValidCodec = c: Codec | c.Valid() witness Codec(Buf([], 0, 0, 0), true)

  /** Puts the values one after the other. */
  function PutAll(c: Codec, vs: seq<Value>): (r: Codec)
    requires c.Valid()
    ensures r.Valid() && |r.buf.mem| == |c.buf.mem| && r.buf.lim == c.buf.lim
    ensures !c.good ==> r == c
    decreases |vs|
  {
    if vs == [] then c else PutAll(c.Put(vs[0]).0, vs[1..])
  }

  lemma {:induction false} PutAllSplit(c: Codec, us: seq<Value>, vs: seq<Value>)
    requires c.Valid()
    ensures PutAll(c, us + vs) == PutAll(PutAll(c, us), vs)
    decreases |us|
  {
    if us == [] {
      assert us + vs == vs;
    } else {
      assert (us + vs)[1..] == us[1..] + vs;
      PutAllSplit(c.Put(us[0]).0, us[1..], vs);
    }
  }

  lemma PutAllMore(c: Codec, us: seq<Value>, v: Value)
    requires c.Valid()
    ensures PutAll(c, us + [v]) == PutAll(c, us).Put(v).0
  {
    PutAllSplit(c, us, [v]);
  }

  /** Gets one value per size until one fails. */
  function GetAll(c: Codec, sizes: seq<Pos>): (r: (Codec, seq<Value>))
    requires c.Valid()
    ensures r.0.Valid()
    decreases |sizes|
  {
    if sizes == [] then (c, [])
    else
      var (c1, v) := c.Get(sizes[0]);
      if v.None? then (GetAll(c1, sizes[1..]).0, [])
      else
        var (c2, vs) := GetAll(c1, sizes[1..]);
        (c2, [v.value] + vs)
  }

  /** A value is aligned to its own size. */
  function Chunks(vs: seq<Value>): (cs: seq<Chunk>)
    ensures |cs| == |vs| && forall i :: 0 <= i < |vs| ==> cs[i] == Chunk(|vs[i]|, vs[i])
  {
    seq(|vs|, i requires 0 <= i < |vs| => Chunk(|vs[i]|, vs[i]))
  }

  function Sizes(vs: seq<Value>): (ns: seq<Pos>)
    ensures |ns| == |vs| && forall i :: 0 <= i < |vs| ==> ns[i] == |vs[i]|
  {
    seq(|vs|, i requires 0 <= i < |vs| => |vs[i]|)
  }

  lemma ChunksTail(vs: seq<Value>)
    requires vs != []
    ensures Chunks(vs)[1..] == Chunks(vs[1..]) && Sizes(vs)[1..] == Sizes(vs[1..])
  {
  }

  lemma ChunksAppend(us: seq<Value>, vs: seq<Value>)
    ensures Chunks(us + vs) == Chunks(us) + Chunks(vs)
  {
  }

  // ----- Encoding -----

  /** A put succeeds exactly when the aligned value ends within the limit, and then starts at
      a multiple of its size; in particular, when the alignment had to be skipped it fails. */
  lemma PutSucceedsIff(c: Codec, v: Value)
    requires c.Valid() && c.good
    ensures var r := c.Put(v); var q := AlignUp(c.buf.pos, |v|);
            && (r.0.good <==> q + |v| <= c.buf.lim)
            && (r.0.good ==> r.0.buf == c.buf.(mem := Blit(c.buf.mem, q, v), pos := q + |v|) && r.1 == |v|)
            && (c.buf.Align(|v|).pos != q ==> !r.0.good)
            && (!r.0.good ==> r.0.buf.mem == c.buf.mem && r.1 == 0
                              && r.0.buf.pos == if c.buf.pos < q < |c.buf.mem| then q else c.buf.pos)
  {
  }

  /** Encoding a list succeeds exactly when its layout fits; the memory is then that layout. */
  lemma {:induction false} PutAllIff(c: Codec, vs: seq<Value>)
    requires c.Valid() && c.good && c.buf.pos <= c.buf.lim
    ensures PutAll(c, vs).good <==> End(c.buf.pos, Chunks(vs)) <= c.buf.lim
    ensures PutAll(c, vs).good ==>
              PutAll(c, vs).buf == c.buf.(mem := Place(c.buf.mem, c.buf.pos, Chunks(vs)),
                                          pos := End(c.buf.pos, Chunks(vs)))
    decreases |vs|
  {
    if vs != [] {
      PutSucceedsIff(c, vs[0]);
      ChunksTail(vs);
      var c1 := c.Put(vs[0]).0;
      if c1.good {
        PutAllIff(c1, vs[1..]);
      }
    }
  }

  // ----- Decoding -----

  /** A decoder placed in front of `vs`. */
  predicate Ready(d: Codec, vs: seq<Value>) {
    && d.Valid() && d.good
    && End(d.buf.pos, Chunks(vs)) <= d.buf.lim
    && Holds(d.buf.mem, d.buf.pos, Chunks(vs))
  }

  lemma ReadyGet(d: Codec, vs: seq<Value>)
    requires vs != [] && Ready(d, vs)
    ensures d.Get(|vs[0]|).1 == Some(vs[0])
    ensures Ready(d.Get(|vs[0]|).0, vs[1..])
    ensures var d' := d.Get(|vs[0]|).0;
            d'.buf.lim == d.buf.lim && End(d'.buf.pos, Chunks(vs[1..])) == End(d.buf.pos, Chunks(vs))
  {
    ChunksTail(vs);
  }

  lemma {:induction false} GetAllReady(d: Codec, vs: seq<Value>)
    requires Ready(d, vs)
    ensures GetAll(d, Sizes(vs)).1 == vs
    ensures GetAll(d, Sizes(vs)).0 == Codec(d.buf.(pos := End(d.buf.pos, Chunks(vs))), true)
    decreases |vs|
  {
    if vs != [] {
      ReadyGet(d, vs);
      ChunksTail(vs);
      var d1 := d.Get(|vs[0]|).0;
      GetAllReady(d1, vs[1..]);
    }
  }

  // ----- Round trip -----

  /** What was encoded is read back from any buffer of any capacity that carries the encoded
      bytes below its limit, whatever the padding between them holds there. */
  lemma RoundTrip(c: Codec, vs: seq<Value>, d: Codec)
    requires c.Valid() && c.good && c.buf.pos == 0 && PutAll(c, vs).good
    requires d.Valid() && d.good && d.buf.pos == 0 && d.buf.lim == PutAll(c, vs).buf.pos
    requires SameData(PutAll(c, vs).buf.mem, d.buf.mem, 0, Chunks(vs))
    ensures var (d', us) := GetAll(d, Sizes(vs));
            us == vs && d'.good && d'.buf.pos == d'.buf.lim == d.buf.lim
  {
    PutAllIff(c, vs);
    PlaceHolds(c.buf.mem, 0, Chunks(vs));
    SameDataHolds(PutAll(c, vs).buf.mem, d.buf.mem, 0, Chunks(vs));
    GetAllReady(d, vs);
  }

  /** The two memories agree on the bytes of the chunks; nothing is said of the padding. */
  predicate SameData(m: seq<byte>, m': seq<byte>, p: nat, cs: seq<Chunk>)
    decreases |cs|
  {
    cs == [] ||
    (var q := AlignUp(p, cs[0].al);
     var e := q + |cs[0].data|;
     && e <= |m| && e <= |m'| && m[q..e] == m'[q..e]
     && SameData(m, m', e, cs[1..]))
  }

  lemma {:induction false} SameDataHolds(m: seq<byte>, m': seq<byte>, p: nat, cs: seq<Chunk>)
    requires Holds(m, p, cs) && SameData(m, m', p, cs)
    ensures Holds(m', p, cs)
    decreases |cs|
  {
    if cs != [] {
      SameDataHolds(m, m', AlignUp(p, cs[0].al) + |cs[0].data|, cs[1..]);
    }
  }

  lemma {:induction false} SameDataPrefix(m: seq<byte>, m': seq<byte>, p: nat, cs: seq<Chunk>)
    requires End(p, cs) <= |m| && End(p, cs) <= |m'| && m[..End(p, cs)] == m'[..End(p, cs)]
    ensures SameData(m, m', p, cs)
    decreases |cs|
  {
    if cs != [] {
      var q, n := AlignUp(p, cs[0].al), End(p, cs);
      var e := q + |cs[0].data|;
      SliceOfPrefix(m, m', n, q, e);
      SameDataPrefix(m, m', e, cs[1..]);
    }
  }

  /** Flipping the encoder's own buffer, or copying the flipped buffer into another one that
      has room for it, gives a buffer that decodes to the encoded values. */
  lemma FlipOrCopyRoundTrip(c: Codec, vs: seq<Value>, other: Buf<byte>)
    requires c.Valid() && c.good && c.buf.pos == 0 && PutAll(c, vs).good
    requires other.Valid() && |other.mem| >= PutAll(c, vs).buf.pos
    ensures var flipped := PutAll(c, vs).buf.Flip();
            var (copy, ok) := other.DeepCopy(flipped);
            && ok
            && GetAll(Codec(flipped, true), Sizes(vs)) == (Codec(flipped.(pos := flipped.lim), true), vs)
            && copy.Valid()
            && GetAll(Codec(copy, true), Sizes(vs)) == (Codec(copy.(pos := copy.lim), true), vs)
  {
    PutAllIff(c, vs);
    var e := PutAll(c, vs);
    var flipped := e.buf.Flip();
    var copy := other.DeepCopy(flipped).0;
    PlaceHolds(c.buf.mem, 0, Chunks(vs));
    SameDataPrefix(e.buf.mem, flipped.mem, 0, Chunks(vs));
    assert copy.mem[..flipped.lim] == flipped.mem[..flipped.lim];
    SameDataPrefix(e.buf.mem, copy.mem, 0, Chunks(vs));
    SameDataHolds(e.buf.mem, copy.mem, 0, Chunks(vs));
    GetAllReady(Codec(flipped, true), vs);
    GetAllReady(Codec(copy, true), vs);
  }

  // ----- Overflow -----

  /** How many of the values fit, in order, below `lim`. */
  function Accepted(p: nat, lim: nat, vs: seq<Value>): (k: nat)
    ensures k <= |vs|
    decreases |vs|
  {
    if vs == [] then 0
    else
      var e := AlignUp(p, |vs[0]|) + |vs[0]|;
      if e <= lim then 1 + Accepted(e, lim, vs[1..]) else 0
  }

  /** `Accepted` is the longest prefix whose layout ends within the limit. */
  lemma {:induction false} AcceptedIsLongestPrefix(p: nat, lim: nat, vs: seq<Value>, k: nat)
    requires p <= lim && k <= |vs|
    ensures End(p, Chunks(vs[..k])) <= lim <==> k <= Accepted(p, lim, vs)
    decreases |vs|
  {
    if k > 0 {
      var e := AlignUp(p, |vs[0]|) + |vs[0]|;
      assert vs[..k][1..] == vs[1..][..k - 1];
      ChunksTail(vs[..k]);
      if e <= lim {
        AcceptedIsLongestPrefix(e, lim, vs[1..], k - 1);
      }
    }
  }

  /** Position left behind by a failed put of `n` bytes at `p`: the alignment is kept unless it
      would leave the memory. */
  function FailPos(p: nat, n: Pos, cap: nat): nat {
    var q := AlignUp(p, n);
    if p < q < cap then q else p
  }

  lemma {:induction false} PutAllPrefix(c: Codec, vs: seq<Value>)
    requires c.Valid() && c.good && c.buf.pos <= c.buf.lim
    ensures var k := Accepted(c.buf.pos, c.buf.lim, vs); var r := PutAll(c, vs); var m := PutAll(c, vs[..k]);
            && m.good && (r.good <==> k == |vs|)
            && r.buf.mem == m.buf.mem
            && (k < |vs| ==> r.buf.pos == FailPos(m.buf.pos, |vs[k]|, |c.buf.mem|))
    decreases |vs|
  {
    var k := Accepted(c.buf.pos, c.buf.lim, vs);
    if vs != [] {
      PutSucceedsIff(c, vs[0]);
      if k > 0 {
        PutAllPrefix(c.Put(vs[0]).0, vs[1..]);
        assert vs[..k][1..] == vs[1..][..k - 1];
      }
    }
  }

  /** A decoder in front of `us`, with only the room a failed put has left behind after them. */
  lemma {:induction false} GetAllPrefix(d: Codec, us: seq<Value>, rest: seq<Pos>)
    requires Ready(d, us)
    requires rest != [] ==> d.buf.lim == FailPos(End(d.buf.pos, Chunks(us)), rest[0], |d.buf.mem|)
    ensures GetAll(d, Sizes(us) + rest).1 == us && (GetAll(d, Sizes(us) + rest).0.good <==> rest == [])
    decreases |us|
  {
    if us != [] {
      var d1 := GetFirst(d, us, rest);
      GetAllPrefix(d1, us[1..], rest);
      assert [us[0]] + us[1..] == us;
    } else {
      assert Sizes(us) + rest == rest;
      GetAllStopped(d, rest);
    }
  }

  lemma GetFirst(d: Codec, us: seq<Value>, rest: seq<Pos>) returns (d1: Codec)
    requires us != [] && Ready(d, us)
    ensures Ready(d1, us[1..]) && d1.buf.lim == d.buf.lim && |d1.buf.mem| == |d.buf.mem|
    ensures End(d1.buf.pos, Chunks(us[1..])) == End(d.buf.pos, Chunks(us))
    ensures var (r, vs) := GetAll(d1, Sizes(us[1..]) + rest);
            GetAll(d, Sizes(us) + rest) == (r, [us[0]] + vs)
  {
    ReadyGet(d, us);
    d1 := d.Get(|us[0]|).0;
    var ns := Sizes(us) + rest;
    assert ns[0] == |us[0]| && ns[1..] == Sizes(us[1..]) + rest;
  }

  lemma GetAllStopped(d: Codec, rest: seq<Pos>)
    requires d.Valid() && d.good
    requires rest != [] ==> d.buf.lim == FailPos(d.buf.pos, rest[0], |d.buf.mem|)
    ensures GetAll(d, rest).1 == [] && (GetAll(d, rest).0.good <==> rest == [])
  {
    if rest != [] {
      GetFails(d, rest[0]);
      BadStaysBad(d.Get(rest[0]).0, rest[1..]);
    }
  }

  /** A get fails when the aligned value does not end within the limit, whether or not the memory
      lets the decoder align; in particular after a failed put of the same size at the same
      place. */
  lemma GetFails(d: Codec, n: Pos)
    requires d.Valid() && d.good && d.buf.lim < AlignUp(d.buf.pos, n) + n
    ensures d.Get(n).1.None? && !d.Get(n).0.good
  {
  }

  lemma {:induction false} BadStaysBad(d: Codec, ns: seq<Pos>)
    requires d.Valid() && !d.good
    ensures GetAll(d, ns) == (d, [])
    decreases |ns|
  {
    if ns != [] {
      BadStaysBad(d, ns[1..]);
    }
  }

  /** Encoding more than fits: nothing is stored after the first value that does not fit, and
      decoding the same types after a flip gives exactly the values before it, then fails. */
  lemma OverflowPrefix(c: Codec, vs: seq<Value>)
    requires c.Valid() && c.good && c.buf.pos == 0
    ensures var k := Accepted(0, c.buf.lim, vs); var r := PutAll(c, vs);
            && (r.good <==> k == |vs|)
            && PutAll(c, vs[..k]).good
            && r.buf.mem == PutAll(c, vs[..k]).buf.mem
            && var (d, us) := GetAll(Codec(r.buf.Flip(), true), Sizes(vs));
            us == vs[..k] && (d.good <==> k == |vs|)
  {
    var k := Accepted(0, c.buf.lim, vs);
    PutAllPrefix(c, vs);
    PutAllIff(c, vs[..k]);
    PlaceHolds(c.buf.mem, 0, Chunks(vs[..k]));
    assert k == |vs| ==> vs[..k] == vs;
    var rest := Sizes(vs)[k..];
    assert Sizes(vs) == Sizes(vs[..k]) + rest;
    GetAllPrefix(Codec(PutAll(c, vs).buf.Flip(), true), vs[..k], rest);
  }

  // ----- The classes -----

  class BinNativeEncoder {
    const buf: Buffer<byte>
    var good: bool

    ghost function View(): Codec
      reads this, buf, buf.arr
    {
      Codec(buf.View(), good)
    }

    constructor (buf: Buffer<byte>)
      requires buf.Valid()
      ensures this.buf == buf && View() == Codec(buf.View(), true)
    {
      this.buf := buf;
      good := true;
    }

    method Clear()
      modifies this`good, buf`pos, buf`lim, buf`mark
      ensures View().Valid() && View() == old(View()).Clear()
      ensures good && buf.pos == buf.mark == 0 && buf.lim == buf.arr.Length
    {
      buf.Clear();
      good := true;
    }

    method Put(v: Value) returns (nx: nat)
      requires View().Valid()
      modifies this`good, buf`pos, buf.arr
      ensures View().Valid() && (View(), nx) == old(View()).Put(v)
    {
      nx := 0;
      if good {
        buf.Align(|v|);
        nx := buf.PutBlock(v);
        good := nx == |v|;
      }
    }
  }

  class BinNativeDecoder {
    const buf: Buffer<byte>
    var good: bool

    ghost function View(): Codec
      reads this, buf, buf.arr
    {
      Codec(buf.View(), good)
    }

    constructor (buf: Buffer<byte>)
      requires buf.Valid()
      ensures this.buf == buf && View() == Codec(buf.View(), true)
    {
      this.buf := buf;
      good := true;
    }

    method Rewind()
      requires View().Valid()
      modifies this`good, buf`pos, buf`mark
      ensures View().Valid() && View() == old(View()).Rewind()
      ensures good && buf.pos == buf.mark == 0
    {
      buf.pos, buf.mark := 0, 0;
      good := true;
    }

    method Get(n: Pos) returns (v: Option<Value>)
      requires View().Valid()
      modifies this`good, buf`pos
      ensures View().Valid() && (View(), v) == old(View()).Get(n)
    {
      v := None;
      if good {
        buf.Align(n);
        var data := buf.GetBlock(n);
        good := |data| == n;
        if good {
          v := Some(data);
        }
      }
    }
  }
}
