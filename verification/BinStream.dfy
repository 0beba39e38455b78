/** Memory streams: the stream buffer of CtrlrFx/BinStreamBuf.h and the typed inserters and
    extractors of CtrlrFx/BinStream.h. */
module BinStream {
  import opened Layout
  import opened HostBytes
  import opened Buffers
  import opened BufCodec

  lemma BlitMore(mem: seq<byte>, at: nat, first: seq<byte>, second: seq<byte>)
    requires at + |first| + |second| <= |mem|
    ensures Blit(Blit(mem, at, first), at + |first|, second) == Blit(mem, at, first + second)
  {
  }

  // ----- The put and get areas as values -----

  /** One area of a stream buffer, addressed from its beginning; alignment counts from there. */
  datatype Area = Area(bytes: seq<byte>, next: nat) {

    predicate Valid() { next <= |bytes| }

    function Room(): nat
      requires Valid()
    {
      |bytes| - next
    }

    /** Stores one byte, or answers -1 when the area is full. */
    function Sputc(b: byte): (Area, int)
      requires Valid()
    {
      if next < |bytes| then (Area(Blit(bytes, next, [b]), next + 1), b as int) else (this, -1)
    }

    /** Stores as much as there is room for; the second result is the number stored. */
    function Sputn(data: seq<byte>): (Area, nat)
      requires Valid()
    {
      var m := if |data| <= Room() then |data| else Room();
      (Stored(data[..m]), m)
    }

    function Stored(data: seq<byte>): Area
      requires next + |data| <= |bytes|
    {
      Area(Blit(bytes, next, data), next + |data|)
    }

    lemma StoredNothing()
      requires Valid()
      ensures Stored([]) == this && Pad(0) == this
    {
    }

    lemma StoredMore(data: seq<byte>, i: nat, j: nat)
      requires i <= j <= |data| && next + j <= |bytes|
      ensures Stored(data[..j]) == Stored(data[..i]).Stored(data[i..j])
    {
      assert data[..j] == data[..i] + data[i..j];
      BlitMore(bytes, next, data[..i], data[i..j]);
    }

    /** Writes zeros up to the next multiple of `n` or the end of the area. */
    function Palign(n: Pos): (a: Area)
      requires Valid()
      ensures a.Valid() && |a.bytes| == |bytes|
    {
      Pad(AlignUp(next, n) - next)
    }

    function Pad(k: nat): (a: Area)
      requires Valid()
      ensures a.Valid() && |a.bytes| == |bytes|
    {
      var m := if k <= Room() then k else Room();
      Area(Blit(bytes, next, Zeros(m)), next + m)
    }

    lemma PadMore(k: nat)
      requires Valid()
      ensures Pad(k + 1) == Pad(k).Sputc(0).0
    {
      if k < Room() {
        assert Zeros(k + 1) == Zeros(k) + [0];
        BlitMore(bytes, next, Zeros(k), [0]);
      }
    }

    function Sbumpc(): (Area, int)
      requires Valid()
    {
      if next < |bytes| then (Area(bytes, next + 1), bytes[next] as int) else (this, -1)
    }

    /** Takes up to `n` bytes. */
    function Sgetn(n: nat): (Area, seq<byte>)
      requires Valid()
    {
      var m := if n <= Room() then n else Room();
      (Area(bytes, next + m), bytes[next..next + m])
    }

    function Galign(n: Pos): Area
      requires Valid()
    {
      var q := AlignUp(next, n);
      Area(bytes, if q <= |bytes| then q else |bytes|)
    }
  }

  /** The stream buffer over a memory array. A null area and an empty one behave alike. The
      memory stream does not override `overflow` and `underflow`, which answer -1. */
  class BinStreamBuf {
    var mem: array<byte>
    var pbegin: nat
    var pnext: nat
    var pend: nat
    var gbegin: nat
    var gnext: nat
    var gend: nat

    ghost predicate Valid()
      reads this
    {
      pbegin <= pnext <= pend <= mem.Length && gbegin <= gnext <= gend <= mem.Length
    }

    ghost function PutArea(): Area
      requires Valid()
      reads this, mem
    {
      Area(mem[pbegin..pend], pnext - pbegin)
    }

    ghost function GetArea(): Area
      requires Valid()
      reads this, mem
    {
      Area(mem[gbegin..gend], gnext - gbegin)
    }

    constructor Setbuf(p: array<byte>)
      ensures mem == p && Valid()
      ensures PutArea() == Area(p[..], 0) && GetArea() == Area(p[..], 0)
    {
      mem := p;
      gbegin, gnext, gend := 0, 0, p.Length;
      pbegin, pnext, pend := 0, 0, p.Length;
    }

    /** Copies `data` to the next position and bumps it. */
    method StoreBlock(data: seq<byte>)
      requires Valid() && |data| <= pend - pnext
      modifies this`pnext, mem
      ensures Valid() && PutArea() == old(PutArea()).Stored(data)
    {
      ghost var was := PutArea();
      forall i | 0 <= i < |data| {
        mem[pnext + i] := data[i];
      }
      assert mem[pbegin..pend] == Blit(was.bytes, was.next, data);
      pnext := pnext + |data|;
    }

    method Sputc(b: byte) returns (c: int)
      requires Valid()
      modifies this`pnext, mem
      ensures Valid() && (PutArea(), c) == old(PutArea()).Sputc(b)
    {
      if pnext < pend {
        StoreBlock([b]);
        c := b as int;
      } else {
        c := -1;
      }
    }

    method Palign(n: Pos)
      requires Valid()
      modifies this`pnext, mem
      ensures Valid() && PutArea() == old(PutArea()).Palign(n)
    {
      ghost var was := PutArea();
      was.StoredNothing();
      hide Blit, Area.Pad;
      var rem := (pnext - pbegin) % n;
      if rem != 0 {
        var k := n - rem;
        while k > 0
          invariant 0 <= k <= n - rem && Valid()
          invariant PutArea() == was.Pad(n - rem - k)
        {
          was.PadMore(n - rem - k);
          var _ := Sputc(0);
          k := k - 1;
        }
      }
    }

    method Xsputn(data: seq<byte>) returns (n: nat)
      requires Valid()
      modifies this`pnext, mem
      ensures Valid() && (PutArea(), n) == old(PutArea()).Sputn(data)
    {
      ghost var was := PutArea();
      was.StoredNothing();
      hide Blit, Area.Stored;
      var cnt := |data|;
      while cnt > 0
        invariant 0 <= cnt <= |data| && Valid()
        invariant var m := |data| - cnt; m <= was.Room() && PutArea() == was.Stored(data[..m])
      {
        if pnext < pend {
          var size := if cnt <= pend - pnext then cnt else pend - pnext;
          PutPart(was, data, |data| - cnt, size);
          cnt := cnt - size;
        } else {
          break;
        }
      }
      n := |data| - cnt;
    }

    /** Copies the next `size` bytes of `data` behind the first `from`. */
    method PutPart(ghost was: Area, data: seq<byte>, from: nat, size: nat)
      requires Valid() && from + size <= |data| && size <= pend - pnext
      requires was.Valid() && from + size <= was.Room() && PutArea() == was.Stored(data[..from])
      modifies this`pnext, mem
      ensures Valid() && PutArea() == was.Stored(data[..from + size])
    {
      StoreBlock(data[from..from + size]);
      was.StoredMore(data, from, from + size);
    }

    method Sbumpc() returns (c: int)
      requires Valid()
      modifies this`gnext
      ensures Valid() && (GetArea(), c) == old(GetArea()).Sbumpc()
    {
      if gnext < gend {
        c := mem[gnext] as int;
        gnext := gnext + 1;
      } else {
        c := -1;
      }
    }

    method Galign(n: Pos)
      requires Valid()
      modifies this`gnext
      ensures Valid() && GetArea() == old(GetArea()).Galign(n)
    {
      ghost var was := GetArea();
      var rem := (gnext - gbegin) % n;
      if rem != 0 {
        var k := n - rem;
        ghost var q := AlignUp(was.next, n);
        while k > 0
          invariant 0 <= k <= n - rem && Valid()
          invariant GetArea() == Area(was.bytes, if q - k <= |was.bytes| then q - k else |was.bytes|)
        {
          var _ := Sbumpc();
          k := k - 1;
        }
      }
    }

    /** Copies the next `size` bytes out and bumps the position. */
    method TakeBlock(size: nat) returns (part: seq<byte>)
      requires Valid() && size <= gend - gnext
      modifies this`gnext
      ensures Valid() && GetArea() == Area(old(GetArea()).bytes, old(GetArea()).next + size)
      ensures part == GetArea().bytes[old(GetArea()).next..GetArea().next]
    {
      part := mem[gnext..gnext + size];
      assert GetArea().bytes == mem[..][gbegin..gend] && part == mem[..][gnext..gnext + size];
      SliceOfSlice(mem[..], gbegin, gend, gnext - gbegin, gnext - gbegin + size);
      gnext := gnext + size;
    }

    method Xsgetn(n: nat) returns (data: seq<byte>)
      requires Valid()
      modifies this`gnext
      ensures Valid() && (GetArea(), data) == old(GetArea()).Sgetn(n)
    {
      ghost var was := GetArea();
      var cnt := n;
      data := [];
      while cnt > 0
        invariant 0 <= cnt <= n && Valid()
        invariant var m := n - cnt;
                  m <= was.Room() && GetArea() == Area(was.bytes, was.next + m)
                  && data == was.bytes[was.next..was.next + m]
      {
        if gnext < gend {
          var size := if cnt <= gend - gnext then cnt else gend - gnext;
          var part := TakeBlock(size);
          JoinSlices(was.bytes, was.next, was.next + (n - cnt), was.next + (n - cnt) + size);
          data := data + part;
          cnt := cnt - size;
        } else {
          break;
        }
      }
    }
  }

  // ----- Typed insertion and extraction as values -----

  datatype IoState = IoState(eof: bool, fail: bool)

  const GOOD := IoState(false, false)

  /** What a failed insertion sets, and what a failed extraction does. */
  const FAILED := IoState(false, true)
  const ENDED := IoState(true, true)

  /** The settings of a stream and the byte order of its host. */
  datatype Config = Config(align: bool, swap: bool, host: Order)

  /** Setting the byte order of a stream on a host decides whether it swaps. */
  function SetByteOrder(host: Order, o: Order): bool { o == Other(host) }

  /** The byte order that the stream says it has. */
  function GetByteOrder(host: Order, swap: bool): Order { if swap then host else Other(host) }

  /** It never is the one that was set, on any host. */
  lemma ByteOrderAnswersOpposite(host: Order, o: Order)
    ensures GetByteOrder(host, SetByteOrder(host, o)) == Other(o) != o
  {
  }

  datatype Stream = Stream(area: Area, state: IoState)

  /** What the inserters take: `Word` are the integers that go through `insert`, `Raw` the
      floating-point values written as they are, `Block` a byte buffer. */
  datatype Item =
    | Bool(b: bool)
    | Byte(octet: byte)
    | Word(v: Value)
    | Raw(v: Value)
    | Block(data: seq<byte>)

  /** Items of the same type, so that one can be extracted over the other. */
  predicate SameType(i: Item, j: Item) {
    match (i, j)
    case (Bool(_), Bool(_)) => true
    case (Byte(_), Byte(_)) => true
    case (Word(v), Word(w)) => |v| == |w|
    case (Raw(v), Raw(w)) => |v| == |w|
    case (Block(_), Block(_)) => true
    case _ => false
  }

  function Write(s: Stream, data: seq<byte>): (r: Stream)
    requires s.area.Valid()
    ensures r.area.Valid() && |r.area.bytes| == |s.area.bytes|
  {
    var (a, m) := s.area.Sputn(data);
    Stream(a, IoState(false, m < |data|))
  }

  function PutByte(s: Stream, octet: byte): (r: Stream)
    requires s.area.Valid()
    ensures r.area.Valid() && |r.area.bytes| == |s.area.bytes|
  {
    var (a, c) := s.area.Sputc(octet);
    Stream(a, IoState(false, c < 0))
  }

  function Swapped(cfg: Config, v: seq<byte>): (r: seq<byte>)
    ensures |r| == |v|
  {
    if cfg.swap then Reverse(v) else v
  }

  function InsertWord(cfg: Config, s: Stream, v: Value): (r: Stream)
    requires s.area.Valid()
    ensures r.area.Valid() && |r.area.bytes| == |s.area.bytes|
  {
    var a := if cfg.align then s.area.Palign(|v|) else s.area;
    Write(s.(area := a), Swapped(cfg, v))
  }

  function Insert(cfg: Config, s: Stream, i: Item): (r: Stream)
    requires s.area.Valid()
    ensures r.area.Valid() && |r.area.bytes| == |s.area.bytes|
  {
    match i
    case Bool(b) => PutByte(s, if b then 1 else 0)
    case Byte(octet) => PutByte(s, octet)
    case Word(v) => InsertWord(cfg, s, v)
    case Raw(v) => Write(s, v)
    case Block(data) => Write(InsertWord(cfg, s, U16Bytes(cfg.host, |data| % 0x1_0000)), data)
  }

  function InsertAll(cfg: Config, s: Stream, items: seq<Item>): (r: Stream)
    requires s.area.Valid()
    ensures r.area.Valid() && |r.area.bytes| == |s.area.bytes|
    decreases |items|
  {
    if items == [] then s else InsertAll(cfg, Insert(cfg, s, items[0]), items[1..])
  }

  /** Every single insertion left the stream in the good state. */
  predicate AllGood(cfg: Config, s: Stream, items: seq<Item>)
    requires s.area.Valid()
    decreases |items|
  {
    items == [] ||
    (var r := Insert(cfg, s, items[0]); r.state == GOOD && AllGood(cfg, r, items[1..]))
  }

  function GetByte(s: Stream): (r: (Stream, int))
    requires s.area.Valid()
    ensures r.0.area.Valid()
  {
    var (a, c) := s.area.Sbumpc();
    (Stream(a, IoState(c < 0, c < 0)), c)
  }

  function Read(s: Stream, n: nat): (r: (Stream, seq<byte>))
    requires s.area.Valid()
    ensures r.0.area.Valid() && |r.1| <= n
  {
    var (a, data) := s.area.Sgetn(n);
    (Stream(a, IoState(|data| < n, |data| < n)), data)
  }

  /** Reads over a variable that holds `was`; when the stream runs out the variable keeps its
      last bytes. */
  function ReadOver(s: Stream, was: Value): (r: (Stream, Value))
    requires s.area.Valid()
    ensures r.0.area.Valid() && r.0.area.bytes == s.area.bytes && |r.1| == |was|
  {
    var (t, data) := Read(s, |was|);
    (t, data + was[|data|..])
  }

  /** Extracts an integer over `was`. The swap is made whether or not the read was complete. */
  function ExtractWord(cfg: Config, s: Stream, was: Value): (r: (Stream, Value))
    requires s.area.Valid()
    ensures r.0.area.Valid() && |r.1| == |was|
  {
    var a := if cfg.align then s.area.Galign(|was|) else s.area;
    var (t, v) := ReadOver(s.(area := a), was);
    (t, Swapped(cfg, v))
  }

  /** Extracts over an item of the same type. `len0` is what the uninitialised length of the
      block operator holds; a block is as long as what could be read of it. */
  function Extract(cfg: Config, s: Stream, was: Item, len0: u16): (r: (Stream, Item))
    requires s.area.Valid()
    ensures r.0.area.Valid()
  {
    match was
    case Bool(_) => var (t, c) := GetByte(s); (t, Bool(c > 0))
    case Byte(_) => var (t, c) := GetByte(s); (t, Byte(if c < 0 then 255 else c as byte))
    case Word(v) => var (t, w) := ExtractWord(cfg, s, v); (t, Word(w))
    case Raw(v) => var (t, w) := ReadOver(s, v); (t, Raw(w))
    case Block(_) =>
      var (t, len) := ExtractWord(cfg, s, U16Bytes(cfg.host, len0));
      var (u, data) := Read(t, U16Of(cfg.host, len));
      (u, Block(data))
  }

  function ExtractAll(cfg: Config, s: Stream, was: seq<Item>, len0: seq<u16>): (Stream, seq<Item>)
    requires s.area.Valid() && |len0| == |was|
    decreases |was|
  {
    if was == [] then (s, [])
    else
      var (t, i) := Extract(cfg, s, was[0], len0[0]);
      var (u, rest) := ExtractAll(cfg, t, was[1..], len0[1..]);
      (u, [i] + rest)
  }

  // ----- The layout of a stream -----

  function WordChunk(cfg: Config, v: Value): Chunk {
    Chunk(if cfg.align then |v| else 1, Swapped(cfg, v))
  }

  function ItemChunks(cfg: Config, i: Item): seq<Chunk> {
    match i
    case Bool(b) => [Chunk(1, [if b then 1 else 0])]
    case Byte(octet) => [Chunk(1, [octet])]
    case Word(v) => [WordChunk(cfg, v)]
    case Raw(v) => [Chunk(1, v)]
    case Block(data) => [WordChunk(cfg, U16Bytes(cfg.host, |data| % 0x1_0000)), Chunk(1, data)]
  }

  function StreamChunks(cfg: Config, items: seq<Item>): seq<Chunk>
    decreases |items|
  {
    if items == [] then [] else ItemChunks(cfg, items[0]) + StreamChunks(cfg, items[1..])
  }

  lemma OneZeroed(mem: seq<byte>, p: nat, c: Chunk)
    ensures End(p, [c]) == AlignUp(p, c.al) + |c.data|
    ensures End(p, [c]) <= |mem| ==>
              PlaceZeroed(mem, p, [c]) == Blit(mem, p, Zeros(AlignUp(p, c.al) - p) + c.data)
  {
    hide AlignUp, Blit, Zeros;
    assert [c][1..] == [];
  }

  lemma {:induction false} PlaceZeroedSplit(mem: seq<byte>, p: nat, cs: seq<Chunk>, ds: seq<Chunk>)
    requires End(p, cs + ds) <= |mem|
    ensures End(p, cs) <= |mem| && End(End(p, cs), ds) == End(p, cs + ds)
    ensures PlaceZeroed(mem, p, cs + ds) == PlaceZeroed(PlaceZeroed(mem, p, cs), End(p, cs), ds)
    decreases |cs|
  {
    EndSplit(p, cs, ds);
    if cs == [] {
      assert cs + ds == ds;
    } else {
      var m, e := PlaceZeroedBoth(mem, p, cs, ds);
      PlaceZeroedSplit(m, e, cs[1..], ds);
    }
  }

  lemma PlaceZeroedBoth(mem: seq<byte>, p: nat, cs: seq<Chunk>, ds: seq<Chunk>) returns (m: seq<byte>, e: nat)
    requires cs != [] && End(p, cs + ds) <= |mem|
    ensures |m| == |mem| && End(p, cs) == End(e, cs[1..]) <= |m| && End(p, cs + ds) == End(e, cs[1..] + ds)
    ensures PlaceZeroed(mem, p, cs) == PlaceZeroed(m, e, cs[1..])
    ensures PlaceZeroed(mem, p, cs + ds) == PlaceZeroed(m, e, cs[1..] + ds)
  {
    hide AlignUp, Blit;
    assert (cs + ds)[0] == cs[0] && (cs + ds)[1..] == cs[1..] + ds;
    EndSplit(p, cs, ds);
    var q := AlignUp(p, cs[0].al);
    e := q + |cs[0].data|;
    m := Blit(mem, p, Zeros(q - p) + cs[0].data);
  }

  // ----- Insertion follows the layout -----

  lemma WriteFits(s: Stream, data: seq<byte>)
    requires s.area.Valid()
    ensures var r := Write(s, data); var (m, p) := (s.area.bytes, s.area.next);
            && (p + |data| <= |m| ==> r == Stream(Area(PlaceZeroed(m, p, [Chunk(1, data)]), p + |data|), GOOD))
            && (p + |data| > |m| ==> r.state == FAILED && r.area.Room() == 0)
  {
    OneZeroed(s.area.bytes, s.area.next, Chunk(1, data));
    assert data[..|data|] == data && Zeros(0) + data == data;
  }

  lemma InsertWordFits(cfg: Config, s: Stream, v: Value)
    requires s.area.Valid()
    ensures var (m, p, c) := (s.area.bytes, s.area.next, WordChunk(cfg, v));
            var e, r := End(p, [c]), InsertWord(cfg, s, v);
            && (e <= |m| ==> r == Stream(Area(PlaceZeroed(m, p, [c]), e), GOOD))
            && (e > |m| ==> r.state == FAILED && r.area.Room() == 0)
  {
    var c := WordChunk(cfg, v);
    var q := AlignUp(s.area.next, c.al);
    OneZeroed(s.area.bytes, s.area.next, c);
    if q + |v| <= |s.area.bytes| {
      var a := if cfg.align then s.area.Palign(|v|) else s.area;
      assert a == Area(Blit(s.area.bytes, s.area.next, Zeros(q - s.area.next)), q);
      assert c.data[..|v|] == c.data;
      BlitMore(s.area.bytes, s.area.next, Zeros(q - s.area.next), c.data);
    }
  }

  /** An item that fits is stored as its layout and reported good.  One that does not fit is
      reported as failed, with one exception: the empty block, whose second write has nothing
      to store and so resets the state that the lost length had set. */
  lemma InsertFits(cfg: Config, s: Stream, i: Item)
    requires s.area.Valid()
    ensures var cs := ItemChunks(cfg, i); var e := End(s.area.next, cs); var r := Insert(cfg, s, i);
            && (e <= |s.area.bytes| ==> r == Stream(Area(PlaceZeroed(s.area.bytes, s.area.next, cs), e), GOOD))
            && (e > |s.area.bytes| ==> r.area.Room() == 0 && r.state == if i == Block([]) then GOOD else FAILED)
  {
    match i
    case Bool(b) => PutByteIsWrite(s, if b then 1 else 0);
    case Byte(octet) => PutByteIsWrite(s, octet);
    case Word(v) => InsertWordFits(cfg, s, v);
    case Raw(v) => WriteFits(s, v);
      OneZeroed(s.area.bytes, s.area.next, Chunk(1, v));
    case Block(data) => BlockFits(cfg, s, data);
  }

  lemma BlockFits(cfg: Config, s: Stream, data: seq<byte>)
    requires s.area.Valid()
    ensures var cs := ItemChunks(cfg, Block(data)); var e := End(s.area.next, cs); var r := Insert(cfg, s, Block(data));
            && (e <= |s.area.bytes| ==> r == Stream(Area(PlaceZeroed(s.area.bytes, s.area.next, cs), e), GOOD))
            && (e > |s.area.bytes| ==> r.area.Room() == 0 && r.state == if data == [] then GOOD else FAILED)
  {
    hide End, PlaceZeroed, Write, InsertWord, U16Bytes, WordChunk, AlignUp;
    var m, p := s.area.bytes, s.area.next;
    var len := U16Bytes(cfg.host, |data| % 0x1_0000);
    var w, d := WordChunk(cfg, len), Chunk(1, data);
    assert ItemChunks(cfg, Block(data)) == [w] + [d];
    InsertWordFits(cfg, s, len);
    var t := InsertWord(cfg, s, len);
    WriteFits(t, data);
    EndSplit(p, [w], [d]);
    OneEnd(t.area.next, d);
    OneEnd(End(p, [w]), d);
    if End(p, [w] + [d]) <= |m| {
      PlaceZeroedSplit(m, p, [w], [d]);
    }
  }

  lemma OneEnd(p: nat, c: Chunk)
    requires c.al == 1
    ensures End(p, [c]) == p + |c.data|
  {
    assert [c][1..] == [];
  }

  lemma PutByteIsWrite(s: Stream, octet: byte)
    requires s.area.Valid()
    ensures var cs := [Chunk(1, [octet])]; var e := End(s.area.next, cs); var r := PutByte(s, octet);
            && (e <= |s.area.bytes| ==> r == Stream(Area(PlaceZeroed(s.area.bytes, s.area.next, cs), e), GOOD))
            && (e > |s.area.bytes| ==> r.area.Room() == 0 && r.state == FAILED)
  {
    OneZeroed(s.area.bytes, s.area.next, Chunk(1, [octet]));
    assert Zeros(0) + [octet] == [octet];
  }

  /** A list of items whose layout fits is stored as that layout, every insertion good. */
  lemma {:induction false} InsertAllFits(cfg: Config, s: Stream, items: seq<Item>)
    requires s.area.Valid() && s.state == GOOD
    requires End(s.area.next, StreamChunks(cfg, items)) <= |s.area.bytes|
    ensures InsertAll(cfg, s, items)
            == Stream(Area(PlaceZeroed(s.area.bytes, s.area.next, StreamChunks(cfg, items)),
                           End(s.area.next, StreamChunks(cfg, items))), GOOD)
    ensures AllGood(cfg, s, items)
    decreases |items|
  {
    if items != [] {
      var cs, ds := ItemChunks(cfg, items[0]), StreamChunks(cfg, items[1..]);
      PlaceZeroedSplit(s.area.bytes, s.area.next, cs, ds);
      InsertFits(cfg, s, items[0]);
      InsertAllFits(cfg, Insert(cfg, s, items[0]), items[1..]);
    }
  }

  predicate OnlyEmptyBlocks(items: seq<Item>) {
    forall i :: 0 <= i < |items| ==> items[i] == Block([])
  }

  /** The items up to the last one that is not an empty block. */
  function Trimmed(items: seq<Item>): seq<Item>
    decreases |items|
  {
    if OnlyEmptyBlocks(items) then [] else [items[0]] + Trimmed(items[1..])
  }

  /** Every item takes some room. */
  lemma ItemTakesRoom(cfg: Config, p: nat, i: Item, rest: seq<Item>)
    ensures End(p, StreamChunks(cfg, [i] + rest)) == End(End(p, ItemChunks(cfg, i)), StreamChunks(cfg, rest))
    ensures End(p, StreamChunks(cfg, [i] + rest)) > p
  {
    var cs := ItemChunks(cfg, i);
    assert ([i] + rest)[1..] == rest;
    EndSplit(p, cs, StreamChunks(cfg, rest));
    assert End(p, cs) == End(AlignUp(p, cs[0].al) + |cs[0].data|, cs[1..]);
  }

  /** On any stream an empty block is reported as stored, whether or not it was. */
  lemma {:induction false} EmptyBlocksAreGood(cfg: Config, s: Stream, items: seq<Item>)
    requires s.area.Valid() && OnlyEmptyBlocks(items)
    ensures AllGood(cfg, s, items)
    decreases |items|
  {
    if items != [] {
      InsertFits(cfg, s, items[0]);
      EmptyBlocksAreGood(cfg, Insert(cfg, s, items[0]), items[1..]);
    }
  }

  /** What checking the state after every insertion tells, for every list: all of it is good
      exactly when everything up to the last item that is not an empty block was stored. */
  lemma {:induction false} AllGoodIff(cfg: Config, s: Stream, items: seq<Item>)
    requires s.area.Valid()
    ensures AllGood(cfg, s, items) <==> End(s.area.next, StreamChunks(cfg, Trimmed(items))) <= |s.area.bytes|
    decreases |items|
  {
    hide Insert, ItemChunks, End;
    if OnlyEmptyBlocks(items) {
      EmptyBlocksAreGood(cfg, s, items);
      EndOfNothing(s.area.next);
    } else {
      var rest := Trimmed(items[1..]);
      var r := Insert(cfg, s, items[0]);
      InsertFits(cfg, s, items[0]);
      ItemTakesRoom(cfg, s.area.next, items[0], rest);
      if r.state == GOOD {
        AllGoodIff(cfg, r, items[1..]);
        if rest == [] {
          assert OnlyEmptyBlocks(items[1..]) && items[0] != Block([]);
          EndOfNothing(End(s.area.next, ItemChunks(cfg, items[0])));
        } else {
          ItemTakesRoom(cfg, r.area.next, rest[0], rest[1..]);
          assert [rest[0]] + rest[1..] == rest;
        }
      }
    }
  }

  lemma EndOfNothing(p: nat)
    ensures End(p, []) == p
  {
  }

  /** Without empty blocks the state therefore tells whether everything was stored. */
  lemma AllGoodMeansStored(cfg: Config, s: Stream, items: seq<Item>)
    requires s.area.Valid() && Block([]) !in items
    ensures AllGood(cfg, s, items) <==> End(s.area.next, StreamChunks(cfg, items)) <= |s.area.bytes|
  {
    AllGoodIff(cfg, s, items);
    NothingTrimmed(items);
  }

  lemma {:induction false} NothingTrimmed(items: seq<Item>)
    requires Block([]) !in items
    ensures Trimmed(items) == items
    decreases |items|
  {
    if items != [] {
      assert items[0] in items;
      NothingTrimmed(items[1..]);
    }
  }

  // ----- What the bytes are -----

  /** The place of a word of `n` bytes in an area: the next multiple of `n`, or right here. */
  predicate PlaceOf(cfg: Config, a: Area, n: Pos, q: nat) {
    if cfg.align then a.next <= q < a.next + n && q % n == 0 else q == a.next
  }

  lemma PlaceIs(cfg: Config, a: Area, n: Pos, q: nat)
    requires PlaceOf(cfg, a, n, q)
    ensures q == if cfg.align then AlignUp(a.next, n) else a.next
  {
    if cfg.align {
      OneMultiple(n, AlignUp(a.next, n), q, a.next);
    }
  }

  lemma OneMultiple(n: Pos, p: nat, q: nat, from: nat)
    requires from <= p < from + n && p % n == 0 && from <= q < from + n && q % n == 0
    ensures p == q
  {
    var i, j := p / n, q / n;
    assert p == n * i && q == n * j;
    if i < j {
      Apart(n, i, j);
    } else if j < i {
      Apart(n, j, i);
    }
  }

  lemma Apart(n: Pos, i: nat, j: nat)
    requires i < j
    ensures n * j >= n * i + n
  {
    assert n * j == n * i + n * (j - i);
    FactorBound(n, j - i);
  }

  /** `v` was written at `q`, zeros in front of it and nothing else. */
  ghost predicate WrittenAt(a: Area, b: Area, q: nat, v: seq<byte>) {
    && a.next <= q && q + |v| <= |a.bytes| == |b.bytes| && b.next == q + |v|
    && (forall i :: 0 <= i < |v| ==> b.bytes[q + i] == v[i])
    && (forall i :: a.next <= i < q ==> b.bytes[i] == 0)
    && (forall i :: 0 <= i < |a.bytes| && !(a.next <= i < q + |v|) ==> b.bytes[i] == a.bytes[i])
  }

  /** `w` is `v`, or with `turn` its bytes the other way round. */
  predicate Turned(turn: bool, v: seq<byte>, w: seq<byte>) {
    |w| == |v| && forall i :: 0 <= i < |v| ==> w[i] == v[if turn then |v| - 1 - i else i]
  }

  lemma SwappedTurns(cfg: Config, v: seq<byte>)
    ensures Turned(cfg.swap, v, Swapped(cfg, v))
  {
  }

  lemma TurnedIsOne(turn: bool, v: seq<byte>, w: seq<byte>, w': seq<byte>)
    requires Turned(turn, v, w) && Turned(turn, v, w')
    ensures w == w'
  {
  }

  /** A stream that swaps stores the bytes of a word the other way round, and one that does not as
      they are. */
  lemma WordStored(cfg: Config, s: Stream, v: Value, w: seq<byte>, q: nat)
    requires s.area.Valid() && PlaceOf(cfg, s.area, |v|, q) && q + |v| <= |s.area.bytes| && Turned(cfg.swap, v, w)
    ensures var r := Insert(cfg, s, Word(v)); r.state == GOOD && WrittenAt(s.area, r.area, q, w)
  {
    PlaceIs(cfg, s.area, |v|, q);
    SwappedTurns(cfg, v);
    TurnedIsOne(cfg.swap, v, w, Swapped(cfg, v));
    hide Swapped, AlignUp, PlaceOf, Turned;
    var a := if cfg.align then s.area.Palign(|v|) else s.area;
    assert w[..|v|] == w;
  }

  /** And it takes them so, whatever the bytes are. */
  lemma WordTaken(cfg: Config, s: Stream, was: Value, len0: u16, q: nat)
    requires s.area.Valid() && PlaceOf(cfg, s.area, |was|, q) && q + |was| <= |s.area.bytes|
    ensures var (t, i) := Extract(cfg, s, Word(was), len0);
            && t == Stream(s.area.(next := q + |was|), GOOD)
            && i.Word? && Turned(cfg.swap, s.area.bytes[q..q + |was|], i.v)
  {
    PlaceIs(cfg, s.area, |was|, q);
    hide PlaceOf, AlignUp, ReadOver, Swapped, Turned;
    var a := if cfg.align then s.area.Galign(|was|) else s.area;
    assert a == s.area.(next := q);
    AllRead(s.(area := a), was);
    SwappedTurns(cfg, s.area.bytes[q..q + |was|]);
  }

  /** A boolean is true for any byte but 0. At the end of the stream it is false, a byte is 255,
      and both state bits are set. */
  lemma BytesTaken(cfg: Config, s: Stream, len0: u16)
    requires s.area.Valid()
    ensures var (b, o) := (Extract(cfg, s, Bool(false), len0), Extract(cfg, s, Byte(0), len0));
            if s.area.Room() == 0 then b == (s.(state := ENDED), Bool(false)) && o == (s.(state := ENDED), Byte(255))
            else
              var (t, octet) := (Stream(s.area.(next := s.area.next + 1), GOOD), s.area.bytes[s.area.next]);
              b == (t, Bool(octet != 0)) && o == (t, Byte(octet))
  {
  }

  lemma AllRead(s: Stream, was: Value)
    requires s.area.Valid() && s.area.next + |was| <= |s.area.bytes|
    ensures ReadOver(s, was) == (Stream(s.area.(next := s.area.next + |was|), GOOD),
                                 s.area.bytes[s.area.next..s.area.next + |was|])
  {
    var data := s.area.bytes[s.area.next..s.area.next + |was|];
    assert data + was[|was|..] == data;
  }

  /** So a reader with the opposite setting gets the word with its bytes the other way round. */
  lemma OppositeSwapReverses(cfg: Config, s: Stream, v: Value, was: Value, len0: u16, q: nat)
    requires s.area.Valid() && PlaceOf(cfg, s.area, |v|, q) && q + |v| <= |s.area.bytes| && |was| == |v|
    ensures var back := Stream(Insert(cfg, s, Word(v)).area.(next := s.area.next), GOOD);
            var (_, i) := Extract(cfg.(swap := !cfg.swap), back, Word(was), len0);
            i.Word? && Turned(true, v, i.v)
  {
    SwappedTurns(cfg, v);
    var w := Swapped(cfg, v);
    hide Insert, Extract, Swapped;
    WordStored(cfg, s, v, w, q);
    var r := Insert(cfg, s, Word(v));
    var back := Stream(r.area.(next := s.area.next), GOOD);
    WordTaken(cfg.(swap := !cfg.swap), back, was, len0, q);
    assert r.area.bytes[q..q + |v|] == w;
    TurnedTwice(cfg.swap, v, w, Extract(cfg.(swap := !cfg.swap), back, Word(was), len0).1.v);
  }

  lemma TurnedTwice(turn: bool, v: seq<byte>, w: seq<byte>, u: seq<byte>)
    requires Turned(turn, v, w) && Turned(!turn, w, u)
    ensures Turned(true, v, u)
  {
  }

  /** The bytes of a number the other way round are the number in the other byte order. */
  lemma TurnedNumber(host: Order, o: Order, n: u16, m: u32)
    ensures Turned(o != host, U16Bytes(host, n), U16Bytes(o, n)) && Turned(o != host, U32Bytes(host, m), U32Bytes(o, m))
  {
    hide U16Bytes, U32Bytes;
    ReversedIsOther(host, n, m);
    assert o == host || o == Other(host);
  }

  /** A stream that was set to a byte order stores numbers in that order, on any host. */
  lemma StoredInOrder(host: Order, o: Order, align: bool, s: Stream, n: u16, m: u32, q: nat)
    requires s.area.Valid()
    ensures var cfg := Config(align, SetByteOrder(host, o), host);
            && (PlaceOf(cfg, s.area, 2, q) && q + 2 <= |s.area.bytes| ==>
                  WrittenAt(s.area, Insert(cfg, s, Word(U16Bytes(host, n))).area, q, U16Bytes(o, n)))
            && (PlaceOf(cfg, s.area, 4, q) && q + 4 <= |s.area.bytes| ==>
                  WrittenAt(s.area, Insert(cfg, s, Word(U32Bytes(host, m))).area, q, U32Bytes(o, m)))
  {
    hide Insert, WrittenAt, U16Bytes, U32Bytes, Turned;
    var cfg := Config(align, SetByteOrder(host, o), host);
    TurnedNumber(host, o, n, m);
    if PlaceOf(cfg, s.area, 2, q) && q + 2 <= |s.area.bytes| {
      WordStored(cfg, s, U16Bytes(host, n), U16Bytes(o, n), q);
    }
    if PlaceOf(cfg, s.area, 4, q) && q + 4 <= |s.area.bytes| {
      WordStored(cfg, s, U32Bytes(host, m), U32Bytes(o, m), q);
    }
  }

  /** The other items: a boolean is one byte of 1 or 0, a byte and a floating-point value are what
      they are, neither aligned nor swapped. */
  lemma OthersStored(cfg: Config, s: Stream, b: bool, octet: byte, v: Value)
    requires s.area.Valid() && s.area.Room() >= |v|
    ensures var p := s.area.next;
            && WrittenAt(s.area, Insert(cfg, s, Bool(b)).area, p, if b then [1] else [0])
            && WrittenAt(s.area, Insert(cfg, s, Byte(octet)).area, p, [octet])
            && WrittenAt(s.area, Insert(cfg, s, Raw(v)).area, p, v)
            && Insert(cfg, s, Bool(b)).state == Insert(cfg, s, Byte(octet)).state == GOOD
            && Insert(cfg, s, Raw(v)).state == GOOD
  {
    assert v[..|v|] == v;
  }

  /** A block is its length in 16 bits, stored as a word, and right behind it its bytes, neither
      aligned nor swapped. */
  lemma BlockStored(cfg: Config, s: Stream, data: seq<byte>, q: nat)
    requires s.area.Valid() && PlaceOf(cfg, s.area, 2, q) && q + 2 + |data| <= |s.area.bytes|
    ensures var r := Insert(cfg, s, Block(data));
            var len := U16Bytes(if cfg.swap then Other(cfg.host) else cfg.host, |data| % 0x1_0000);
            r.state == GOOD && WrittenAt(s.area, r.area, q, len + data)
  {
    var v: Value := U16Bytes(cfg.host, |data| % 0x1_0000);
    var o := if cfg.swap then Other(cfg.host) else cfg.host;
    var len := U16Bytes(o, |data| % 0x1_0000);
    TurnedNumber(cfg.host, o, |data| % 0x1_0000, 0);
    hide U16Bytes, InsertWord, Turned;
    WordStored(cfg, s, v, len, q);
    assert Insert(cfg, s, Word(v)) == InsertWord(cfg, s, v);
    hide PlaceOf, WrittenAt;
    BytesBehind(s.area, InsertWord(cfg, s, v), q, len, data);
  }

  lemma BytesBehind(a: Area, t: Stream, q: nat, v: seq<byte>, data: seq<byte>)
    requires t.area.Valid() && WrittenAt(a, t.area, q, v) && q + |v| + |data| <= |a.bytes|
    ensures var r := Write(t, data); r.state == GOOD && WrittenAt(a, r.area, q, v + data)
  {
    assert data[..|data|] == data;
  }

  // ----- Extraction inverts it -----

  /** A stream of the same settings in front of the layout of `i` extracts `i`. */
  lemma ExtractHeld(cfg: Config, s: Stream, i: Item, was: Item, len0: u16)
    requires s.area.Valid() && Holds(s.area.bytes, s.area.next, ItemChunks(cfg, i)) && SameType(was, i)
    requires i.Block? ==> |i.data| < 0x1_0000
    ensures Extract(cfg, s, was, len0) == (Stream(s.area.(next := End(s.area.next, ItemChunks(cfg, i))), GOOD), i)
  {
    match i
    case Bool(b) => GetByteHeld(s, if b then 1 else 0);
    case Byte(octet) => GetByteHeld(s, octet);
    case Word(v) => ExtractWordHeld(cfg, s, v, was.v);
    case Raw(v) => ReadOverHeld(s, v, was.v);
    case Block(data) => ExtractBlockHeld(cfg, s, data, was.data, len0);
  }

  lemma GetByteHeld(s: Stream, octet: byte)
    requires s.area.Valid() && Holds(s.area.bytes, s.area.next, [Chunk(1, [octet])])
    ensures End(s.area.next, [Chunk(1, [octet])]) == s.area.next + 1
    ensures GetByte(s) == (Stream(s.area.(next := s.area.next + 1), GOOD), octet as int)
  {
    var m, p := s.area.bytes, s.area.next;
    OneChunk(m, p, Chunk(1, [octet]));
    assert m[p] == m[p..p + 1][0];
  }

  lemma ReadHeld(s: Stream, data: seq<byte>)
    requires s.area.Valid() && Holds(s.area.bytes, s.area.next, [Chunk(1, data)])
    ensures End(s.area.next, [Chunk(1, data)]) == s.area.next + |data|
    ensures Read(s, |data|) == (Stream(s.area.(next := s.area.next + |data|), GOOD), data)
  {
    OneChunk(s.area.bytes, s.area.next, Chunk(1, data));
  }

  lemma ReadOverHeld(s: Stream, data: Value, was: Value)
    requires s.area.Valid() && Holds(s.area.bytes, s.area.next, [Chunk(1, data)]) && |was| == |data|
    ensures End(s.area.next, [Chunk(1, data)]) == s.area.next + |data|
    ensures ReadOver(s, was) == (Stream(s.area.(next := s.area.next + |data|), GOOD), data)
  {
    ReadHeld(s, data);
    assert data + was[|data|..] == data;
  }

  lemma ExtractBlockHeld(cfg: Config, s: Stream, data: seq<byte>, was: seq<byte>, len0: u16)
    requires s.area.Valid() && Holds(s.area.bytes, s.area.next, ItemChunks(cfg, Block(data)))
    requires |data| < 0x1_0000
    ensures Extract(cfg, s, Block(was), len0)
            == (Stream(s.area.(next := End(s.area.next, ItemChunks(cfg, Block(data)))), GOOD), Block(data))
  {
    hide ExtractWord, Read, Holds, End, U16Of, U16Bytes, WordChunk;
    var m, p := s.area.bytes, s.area.next;
    var len := U16Bytes(cfg.host, |data|);
    var w := WordChunk(cfg, len);
    assert ItemChunks(cfg, Block(data)) == [w] + [Chunk(1, data)];
    HoldsSplit(m, p, [w], [Chunk(1, data)]);
    EndSplit(p, [w], [Chunk(1, data)]);
    ExtractWordHeld(cfg, s, len, U16Bytes(cfg.host, len0));
    U16RoundTrip(cfg.host, |data|);
    ReadHeld(ExtractWord(cfg, s, U16Bytes(cfg.host, len0)).0, data);
  }

  /** The stored length is 16 bits wide: a longer block comes back cut to the rest modulo 65536,
      and the stream calls that good. */
  lemma LongBlockIsCut(cfg: Config, s: Stream, data: seq<byte>, was: seq<byte>, len0: u16)
    requires s.area.Valid() && Holds(s.area.bytes, s.area.next, ItemChunks(cfg, Block(data)))
    requires |data| >= 0x1_0000
    ensures var (t, i) := Extract(cfg, s, Block(was), len0);
            t.state == GOOD && i == Block(data[..|data| % 0x1_0000]) && i != Block(data)
  {
    hide ExtractWord, Read, Holds, End, U16Of, U16Bytes, WordChunk;
    var m, p, n := s.area.bytes, s.area.next, |data| % 0x1_0000;
    var len := U16Bytes(cfg.host, n);
    var w := WordChunk(cfg, len);
    assert ItemChunks(cfg, Block(data)) == [w] + [Chunk(1, data)];
    HoldsSplit(m, p, [w], [Chunk(1, data)]);
    ExtractWordHeld(cfg, s, len, U16Bytes(cfg.host, len0));
    U16RoundTrip(cfg.host, n);
    var t := ExtractWord(cfg, s, U16Bytes(cfg.host, len0)).0;
    OneChunk(m, t.area.next, Chunk(1, data));
    var q := t.area.next;
    PrefixOfSlice(m, q, |data|, n);
    OneChunk(m, q, Chunk(1, data[..n]));
    ReadHeld(t, data[..n]);
  }

  lemma PrefixOfSlice(m: seq<byte>, q: nat, len: nat, n: nat)
    requires n <= len && q + len <= |m|
    ensures m[q..q + len][..n] == m[q..q + n]
  {
  }

  lemma ExtractWordHeld(cfg: Config, s: Stream, v: Value, was: Value)
    requires s.area.Valid() && Holds(s.area.bytes, s.area.next, [WordChunk(cfg, v)]) && |was| == |v|
    ensures ExtractWord(cfg, s, was) == (Stream(s.area.(next := End(s.area.next, [WordChunk(cfg, v)])), GOOD), v)
  {
    var c := WordChunk(cfg, v);
    OneChunk(s.area.bytes, s.area.next, c);
    ReverseTwice(v);
    var a := if cfg.align then s.area.Galign(|v|) else s.area;
    OneChunk(a.bytes, a.next, Chunk(1, c.data));
    ReadOverHeld(s.(area := a), c.data, was);
  }

  // ----- Streams that end too early -----

  /** Not both bytes of a block's length are left. */
  predicate LengthLost(cfg: Config, a: Area) { (if cfg.align then AlignUp(a.next, 2) else a.next) + 2 > |a.bytes| }

  /** The byte that is left, if any, and the rest of the uninitialised length are zero. */
  predicate LengthIsZero(cfg: Config, a: Area, len0: u16)
    requires a.Valid() && LengthLost(cfg, a)
  {
    var left := a.bytes[(if cfg.align then a.Galign(2) else a).next..];
    left + U16Bytes(cfg.host, len0)[|left|..] == [0, 0]
  }

  lemma SwappedZeros(cfg: Config, v: seq<byte>)
    ensures Swapped(cfg, v) == [0, 0] <==> v == [0, 0]
  {
    ReverseTwice(v);
    assert Reverse([0, 0]) == [0, 0];
  }

  /** A truncated block is not always noticed: when its length is lost, the stream is used up and
      the block empty, and the state is good exactly when the length amounts to zero. */
  lemma LostBlockNoticedIff(cfg: Config, s: Stream, was: seq<byte>, len0: u16)
    requires s.area.Valid() && LengthLost(cfg, s.area)
    ensures var (t, i) := Extract(cfg, s, Block(was), len0);
            && t.area == Area(s.area.bytes, |s.area.bytes|) && i == Block([])
            && (t.state == GOOD <==> LengthIsZero(cfg, s.area, len0))
  {
    hide U16Of, U16Bytes;
    var junk := U16Bytes(cfg.host, len0);
    var a := if cfg.align then s.area.Galign(2) else s.area;
    var left := a.bytes[a.next..];
    var len := ExtractWord(cfg, s, junk).1;
    assert len == Swapped(cfg, left + junk[|left|..]);
    SwappedZeros(cfg, left + junk[|left|..]);
    U16IsZeroIff(cfg.host, len);
  }

  /** Instances: nothing left and a length of 0, and one byte of 0 left and a length of 7 on a
      little-endian host. */
  lemma LostBlockPasses(was: seq<byte>)
    ensures var cfg := Config(false, false, LittleEndian);
            && Extract(cfg, Stream(Area([], 0), GOOD), Block(was), 0).0.state == GOOD
            && Extract(cfg, Stream(Area([0], 0), GOOD), Block(was), 7).0.state == GOOD
  {
    var cfg := Config(false, false, LittleEndian);
    LostBlockNoticedIff(cfg, Stream(Area([], 0), GOOD), was, 0);
    LostBlockNoticedIff(cfg, Stream(Area([0], 0), GOOD), was, 7);
  }

  /** An item as it may lie on the stream for an extractor: a boolean may be any byte. */
  predicate Fits(was: Item, i: Item) {
    (if was.Bool? then i.Byte? else SameType(was, i)) && (i.Block? ==> |i.data| < 0x1_0000)
  }

  /** The stream goes on with the layout of an item for the extractor. */
  predicate Found(cfg: Config, a: Area, was: Item, i: Item) {
    Fits(was, i) && Holds(a.bytes, a.next, ItemChunks(cfg, i))
  }

  lemma FoundIsExtracted(cfg: Config, s: Stream, was: Item, len0: u16, i: Item)
    requires s.area.Valid() && Found(cfg, s.area, was, i)
    ensures Extract(cfg, s, was, len0).0 == Stream(s.area.(next := End(s.area.next, ItemChunks(cfg, i))), GOOD)
    ensures !(was.Block? && LengthLost(cfg, s.area))
  {
    if was.Bool? {
      GetByteHeld(s, i.octet);
    } else {
      ExtractHeld(cfg, s, i, was, len0);
      if was.Block? {
        var w := WordChunk(cfg, U16Bytes(cfg.host, |i.data| % 0x1_0000));
        assert ItemChunks(cfg, i) == [w] + [Chunk(1, i.data)];
        HoldsSplit(s.area.bytes, s.area.next, [w], [Chunk(1, i.data)]);
        OneChunk(s.area.bytes, s.area.next, w);
      }
    }
  }

  /** What the extractor found. */
  function Finding(cfg: Config, s: Stream, was: Item, len0: u16): Item
    requires s.area.Valid() && s.area.Room() > 0
  {
    if was.Bool? then Byte(s.area.bytes[s.area.next]) else Extract(cfg, s, was, len0).1
  }

  /** Conversely, a good extraction found an item, unless it lost the length of a block; one that
      is not good has used the stream up. */
  lemma ExtractedIsFound(cfg: Config, s: Stream, was: Item, len0: u16)
    requires s.area.Valid() && !(was.Block? && LengthLost(cfg, s.area))
    ensures var t := Extract(cfg, s, was, len0).0;
            && (t.state == GOOD ==> s.area.Room() > 0 && Found(cfg, s.area, was, Finding(cfg, s, was, len0)))
            && (t.state != GOOD ==> t == Stream(Area(s.area.bytes, |s.area.bytes|), ENDED))
  {
    var m, p := s.area.bytes, s.area.next;
    match was
    case Bool(_) => if p < |m| { OneChunk(m, p, Chunk(1, [m[p]])); assert m[p..p + 1] == [m[p]]; }
    case Byte(_) => if p < |m| { OneChunk(m, p, Chunk(1, [m[p]])); assert m[p..p + 1] == [m[p]]; }
    case Word(v) => WordIsFound(cfg, s, v);
    case Raw(v) => OneChunk(m, p, Chunk(1, ReadOver(s, v).1));
    case Block(_) => BlockIsFound(cfg, s, was.data, len0);
  }

  lemma ReadOverIsFound(s: Stream, was: Value)
    requires s.area.Valid()
    ensures var (t, v) := ReadOver(s, was); var (m, p) := (s.area.bytes, s.area.next);
            && (t.state == GOOD <==> p + |was| <= |m|)
            && (t.state == GOOD ==> t.area.next == p + |was| && m[p..p + |was|] == v)
            && (t.state != GOOD ==> t.area.next == |m|)
  {
  }

  lemma WordIsFound(cfg: Config, s: Stream, was: Value)
    requires s.area.Valid()
    ensures var (t, v) := ExtractWord(cfg, s, was); var (m, p, c) := (s.area.bytes, s.area.next, WordChunk(cfg, v));
            && t.area.bytes == m
            && (t.state == GOOD <==> AlignUp(p, c.al) + |was| <= |m|)
            && (t.state == GOOD ==> Holds(m, p, [c]) && t.area.next == End(p, [c]))
            && (t.state != GOOD ==> t.area.next == |m|)
  {
    hide AlignUp, ReadOver, Holds, End, Swapped;
    var a := if cfg.align then s.area.Galign(|was|) else s.area;
    var (t, v) := ReadOver(s.(area := a), was);
    assert ExtractWord(cfg, s, was) == (t, Swapped(cfg, v));
    SwappedTwice(cfg, v);
    var c := WordChunk(cfg, Swapped(cfg, v));
    assert c.data == v;
    AlignedToOne(s.area.next);
    OneChunk(s.area.bytes, s.area.next, c);
    ReadOverIsFound(s.(area := a), was);
  }

  lemma SwappedTwice(cfg: Config, v: seq<byte>)
    ensures Swapped(cfg, Swapped(cfg, v)) == v
  {
    ReverseTwice(v);
  }

  lemma AlignedToOne(p: nat)
    ensures AlignUp(p, 1) == p
  {
  }

  lemma BlockIsFound(cfg: Config, s: Stream, was: seq<byte>, len0: u16)
    requires s.area.Valid() && !LengthLost(cfg, s.area)
    ensures var (t, i) := Extract(cfg, s, Block(was), len0);
            && (t.state == GOOD ==> s.area.Room() > 0 && Found(cfg, s.area, Block(was), i))
            && (t.state != GOOD ==> t.area == Area(s.area.bytes, |s.area.bytes|))
  {
    hide ExtractWord, Holds, End, U16Of, U16Bytes;
    var m, p := s.area.bytes, s.area.next;
    var junk := U16Bytes(cfg.host, len0);
    var (t, len) := ExtractWord(cfg, s, junk);
    WordIsFound(cfg, s, junk);
    var n := U16Of(cfg.host, len);
    var (u, data) := Read(t, n);
    if u.state == GOOD {
      U16BytesOf(cfg.host, len);
      var w := WordChunk(cfg, len);
      assert ItemChunks(cfg, Block(data)) == [w] + [Chunk(1, data)];
      HoldsSplit(m, p, [w], [Chunk(1, data)]);
      OneChunk(m, t.area.next, Chunk(1, data));
    }
  }

  // Lists.

  /** Every single extraction left the stream in the good state. */
  predicate AllExtracted(cfg: Config, s: Stream, was: seq<Item>, len0: seq<u16>)
    requires s.area.Valid() && |len0| == |was|
    decreases |was|
  {
    was == [] ||
    (var t := Extract(cfg, s, was[0], len0[0]).0;
     t.state == GOOD && AllExtracted(cfg, t, was[1..], len0[1..]))
  }

  predicate AllFit(was: seq<Item>, items: seq<Item>) {
    |was| == |items| && forall k :: 0 <= k < |items| ==> Fits(was[k], items[k])
  }

  /** Only blocks are left to extract, the stream ends before the length of the first, and all
      their lengths amount to zero. */
  predicate OnlyLostBlocks(cfg: Config, a: Area, was: seq<Item>, len0: seq<u16>)
    requires a.Valid() && |len0| == |was|
  {
    was == [] ||
    (&& was[0].Block? && LengthLost(cfg, a) && LengthIsZero(cfg, a, len0[0])
     && forall k :: 1 <= k < |was| ==> was[k].Block? && len0[k] == 0)
  }

  /** The stream goes on with the layout of `items` for the first extractors, and behind that the
      others extract lost blocks. */
  predicate Explained(cfg: Config, a: Area, was: seq<Item>, len0: seq<u16>, items: seq<Item>)
    requires a.Valid() && |len0| == |was|
  {
    var n, e := |items|, End(a.next, StreamChunks(cfg, items));
    && n <= |was| && AllFit(was[..n], items)
    && Holds(a.bytes, a.next, StreamChunks(cfg, items)) && e <= |a.bytes|
    && OnlyLostBlocks(cfg, a.(next := e), was[n..], len0[n..])
  }

  /** On a stream that is used up only blocks are extracted in the good state, and only when their
      uninitialised length is 0. */
  lemma ExtractAtEnd(cfg: Config, s: Stream, was: Item, len0: u16)
    requires s.area.Valid() && s.area.Room() == 0
    ensures var t := Extract(cfg, s, was, len0).0;
            t.area == s.area && (t.state == GOOD <==> was.Block? && len0 == 0)
    ensures LengthLost(cfg, s.area) && (LengthIsZero(cfg, s.area, len0) <==> len0 == 0)
  {
    assert s.area.bytes[s.area.next..] == [];
    var junk := U16Bytes(cfg.host, len0);
    assert [] + junk[0..] == junk;
    U16IsZeroIff(cfg.host, junk);
    U16RoundTrip(cfg.host, len0);
    if was.Block? {
      LostBlockNoticedIff(cfg, s, was.data, len0);
    } else {
      ExtractedIsFound(cfg, s, was, len0);
    }
  }

  lemma {:induction false} AllExtractedAtEnd(cfg: Config, s: Stream, was: seq<Item>, len0: seq<u16>)
    requires s.area.Valid() && s.area.Room() == 0 && |len0| == |was|
    ensures AllExtracted(cfg, s, was, len0) <==> forall k :: 0 <= k < |was| ==> was[k].Block? && len0[k] == 0
    decreases |was|
  {
    if was != [] {
      hide Extract;
      ExtractAtEnd(cfg, s, was[0], len0[0]);
      AllExtractedAtEnd(cfg, Extract(cfg, s, was[0], len0[0]).0, was[1..], len0[1..]);
    }
  }

  lemma LostBlocksIff(cfg: Config, s: Stream, was: seq<Item>, len0: seq<u16>)
    requires s.area.Valid() && |len0| == |was|
    requires was != [] && was[0].Block? && LengthLost(cfg, s.area)
    ensures AllExtracted(cfg, s, was, len0) <==> OnlyLostBlocks(cfg, s.area, was, len0)
  {
    hide Extract, LengthIsZero;
    LostBlockNoticedIff(cfg, s, was[0].data, len0[0]);
    assert was[0] == Block(was[0].data);
    AllExtractedAtEnd(cfg, Extract(cfg, s, was[0], len0[0]).0, was[1..], len0[1..]);
  }

  lemma FirstExplained(cfg: Config, a: Area, was: seq<Item>, len0: seq<u16>, i: Item, rest: seq<Item>)
    requires a.Valid() && |len0| == |was| > 0 && End(a.next, ItemChunks(cfg, i)) <= |a.bytes|
    ensures Explained(cfg, a, was, len0, [i] + rest) <==>
            && Found(cfg, a, was[0], i)
            && Explained(cfg, a.(next := End(a.next, ItemChunks(cfg, i))), was[1..], len0[1..], rest)
  {
    hide Holds, End, ItemChunks, Fits, OnlyLostBlocks;
    var items := [i] + rest;
    var cs, ds := ItemChunks(cfg, i), StreamChunks(cfg, rest);
    assert items[1..] == rest;
    HoldsSplit(a.bytes, a.next, cs, ds);
    EndSplit(a.next, cs, ds);
    if |items| <= |was| {
      FirstFits(was[..|items|], i, rest);
      assert was[..|items|][1..] == was[1..][..|rest|];
      assert was[|items|..] == was[1..][|rest|..] && len0[|items|..] == len0[1..][|rest|..];
    }
  }

  lemma FirstFits(was: seq<Item>, i: Item, rest: seq<Item>)
    requires was != []
    ensures AllFit(was, [i] + rest) <==> Fits(was[0], i) && AllFit(was[1..], rest)
  {
    hide Fits;
    var items := [i] + rest;
    assert forall k :: 0 <= k < |rest| ==> items[k + 1] == rest[k];
    if |was| == |items| && Fits(was[0], i) && AllFit(was[1..], rest) {
      forall k | 0 <= k < |items| ensures Fits(was[k], items[k]) {
        if k > 0 {
          assert was[k] == was[1..][k - 1] && items[k] == rest[k - 1];
        }
      }
    }
    if AllFit(was, items) {
      forall k | 0 <= k < |rest| ensures Fits(was[1..][k], rest[k]) {
        assert was[1..][k] == was[k + 1] && rest[k] == items[k + 1];
      }
    }
  }

  lemma {:induction false} ExtractedAreExplained(cfg: Config, s: Stream, was: seq<Item>, len0: seq<u16>)
      returns (items: seq<Item>)
    requires s.area.Valid() && |len0| == |was| && AllExtracted(cfg, s, was, len0)
    ensures Explained(cfg, s.area, was, len0, items)
    decreases |was|
  {
    hide Extract, LengthIsZero, LengthLost, Found, ItemChunks, Finding;
    if was == [] || (was[0].Block? && LengthLost(cfg, s.area)) {
      if was != [] {
        LostBlocksIff(cfg, s, was, len0);
      }
      items := [];
      NothingExplains(cfg, s.area, was, len0);
    } else {
      ExtractedIsFound(cfg, s, was[0], len0[0]);
      var i := Finding(cfg, s, was[0], len0[0]);
      FoundIsExtracted(cfg, s, was[0], len0[0], i);
      var rest := ExtractedAreExplained(cfg, Extract(cfg, s, was[0], len0[0]).0, was[1..], len0[1..]);
      FirstExplained(cfg, s.area, was, len0, i, rest);
      items := [i] + rest;
    }
  }

  lemma NothingExplains(cfg: Config, a: Area, was: seq<Item>, len0: seq<u16>)
    requires a.Valid() && |len0| == |was|
    ensures Explained(cfg, a, was, len0, []) <==> OnlyLostBlocks(cfg, a, was, len0)
  {
    EndOfNothing(a.next);
    assert was[0..] == was && len0[0..] == len0;
  }

  lemma {:induction false} ExplainedAreExtracted(cfg: Config, s: Stream, was: seq<Item>, len0: seq<u16>,
      items: seq<Item>)
    requires s.area.Valid() && |len0| == |was| && Explained(cfg, s.area, was, len0, items)
    ensures AllExtracted(cfg, s, was, len0)
    decreases |was|
  {
    hide Extract, LengthIsZero, LengthLost, Found, ItemChunks;
    if items == [] {
      NothingExplains(cfg, s.area, was, len0);
      if was != [] {
        LostBlocksIff(cfg, s, was, len0);
      }
    } else {
      var i, rest := items[0], items[1..];
      assert items == [i] + rest;
      FirstIsWithin(cfg, s.area, items);
      FirstExplained(cfg, s.area, was, len0, i, rest);
      FoundIsExtracted(cfg, s, was[0], len0[0], i);
      ExplainedAreExtracted(cfg, Extract(cfg, s, was[0], len0[0]).0, was[1..], len0[1..], rest);
    }
  }

  lemma FirstIsWithin(cfg: Config, a: Area, items: seq<Item>)
    requires a.Valid() && items != [] && Holds(a.bytes, a.next, StreamChunks(cfg, items))
    ensures End(a.next, ItemChunks(cfg, items[0])) <= |a.bytes|
  {
    hide Holds, End, ItemChunks;
    HoldsSplit(a.bytes, a.next, ItemChunks(cfg, items[0]), StreamChunks(cfg, items[1..]));
    HoldsEnd(a.bytes, a.next, ItemChunks(cfg, items[0]));
  }

  /** What checking the state after every extraction tells, for every stream and every list of
      types: all of it is good exactly when the stream held the layout of items for all of the
      extractors, or for the first ones while all the others took lost blocks of length zero. */
  lemma AllExtractedIff(cfg: Config, s: Stream, was: seq<Item>, len0: seq<u16>)
    requires s.area.Valid() && |len0| == |was|
    ensures AllExtracted(cfg, s, was, len0) <==> exists items :: Explained(cfg, s.area, was, len0, items)
  {
    hide Explained, AllExtracted;
    if AllExtracted(cfg, s, was, len0) {
      var items := ExtractedAreExplained(cfg, s, was, len0);
    }
    if items :| Explained(cfg, s.area, was, len0, items) {
      ExplainedAreExtracted(cfg, s, was, len0, items);
    }
  }

  /** Without blocks the state therefore tells whether everything was there. */
  lemma AllExtractedMeansThere(cfg: Config, s: Stream, was: seq<Item>, len0: seq<u16>)
    requires s.area.Valid() && |len0| == |was| && forall k :: 0 <= k < |was| ==> !was[k].Block?
    ensures AllExtracted(cfg, s, was, len0) <==>
            exists items :: AllFit(was, items) && Holds(s.area.bytes, s.area.next, StreamChunks(cfg, items))
  {
    hide Fits, Holds, StreamChunks, End, AllExtracted;
    AllExtractedIff(cfg, s, was, len0);
    if AllExtracted(cfg, s, was, len0) {
      var items :| Explained(cfg, s.area, was, len0, items);
      var n := |items|;
      assert n == |was|;
      assert was[..n] == was;
    }
    if items :| AllFit(was, items) && Holds(s.area.bytes, s.area.next, StreamChunks(cfg, items)) {
      HoldsEnd(s.area.bytes, s.area.next, StreamChunks(cfg, items));
      assert was[..|items|] == was && was[|items|..] == [] && len0[|items|..] == [];
      assert Explained(cfg, s.area, was, len0, items);
    }
  }

  /** Items of the types of the given ones, one for one. */
  predicate SameTypes(was: seq<Item>, items: seq<Item>) {
    |was| == |items| && forall k :: 0 <= k < |items| ==> SameType(was[k], items[k])
  }

  /** Every block's length fits the 16 bits it is stored in. */
  predicate ShortBlocks(items: seq<Item>) {
    forall k :: 0 <= k < |items| && items[k].Block? ==> |items[k].data| < 0x1_0000
  }

  lemma ExtractFirst(cfg: Config, s: Stream, items: seq<Item>, was: seq<Item>, len0: seq<u16>) returns (t: Stream)
    requires items != [] && s.area.Valid() && Holds(s.area.bytes, s.area.next, StreamChunks(cfg, items))
    requires ShortBlocks(items) && SameTypes(was, items) && |len0| == |items|
    ensures t.area.Valid() && t.area.bytes == s.area.bytes && t.state == GOOD
    ensures Holds(t.area.bytes, t.area.next, StreamChunks(cfg, items[1..]))
    ensures End(t.area.next, StreamChunks(cfg, items[1..])) == End(s.area.next, StreamChunks(cfg, items))
    ensures var (u, rest) := ExtractAll(cfg, t, was[1..], len0[1..]);
            ExtractAll(cfg, s, was, len0) == (u, [items[0]] + rest)
  {
    hide Holds, End, Extract, ItemChunks, SameType;
    var cs, ds := ItemChunks(cfg, items[0]), StreamChunks(cfg, items[1..]);
    HoldsSplit(s.area.bytes, s.area.next, cs, ds);
    EndSplit(s.area.next, cs, ds);
    HoldsEnd(s.area.bytes, s.area.next, cs);
    ExtractHeld(cfg, s, items[0], was[0], len0[0]);
    t := Stream(s.area.(next := End(s.area.next, cs)), GOOD);
  }

  lemma TypesTail(was: seq<Item>, items: seq<Item>)
    requires ShortBlocks(items) && SameTypes(was, items) && items != []
    ensures ShortBlocks(items[1..]) && SameTypes(was[1..], items[1..])
  {
  }

  lemma {:induction false} ExtractAllHeld(cfg: Config, s: Stream, items: seq<Item>, was: seq<Item>, len0: seq<u16>)
    requires s.area.Valid() && s.state == GOOD
    requires Holds(s.area.bytes, s.area.next, StreamChunks(cfg, items))
    requires ShortBlocks(items) && SameTypes(was, items) && |len0| == |items|
    ensures ExtractAll(cfg, s, was, len0)
            == (Stream(s.area.(next := End(s.area.next, StreamChunks(cfg, items))), GOOD), items)
    decreases |items|
  {
    if items != [] {
      hide Holds, End, ExtractAll, StreamChunks, ShortBlocks, SameTypes;
      TypesTail(was, items);
      var t := ExtractFirst(cfg, s, items, was, len0);
      ExtractAllHeld(cfg, t, items[1..], was[1..], len0[1..]);
      assert [items[0]] + items[1..] == items;
    } else {
      assert items == [];
    }
  }

  lemma {:induction false} HoldsEnd(mem: seq<byte>, p: nat, cs: seq<Chunk>)
    requires p <= |mem| && Holds(mem, p, cs)
    ensures End(p, cs) <= |mem|
    decreases |cs|
  {
    if cs != [] {
      HoldsEnd(mem, AlignUp(p, cs[0].al) + |cs[0].data|, cs[1..]);
    }
  }

  /** What was inserted into a memory stream is extracted again from the stored bytes, in any
      larger memory, by a stream with the same settings. */
  lemma StreamRoundTrip(cfg: Config, bytes: seq<byte>, items: seq<Item>, copy: seq<byte>, was: seq<Item>,
          len0: seq<u16>)
    requires End(0, StreamChunks(cfg, items)) <= |bytes|
    requires ShortBlocks(items) && SameTypes(was, items) && |len0| == |items|
    requires var w := InsertAll(cfg, Stream(Area(bytes, 0), GOOD), items);
             w.area.next <= |copy| && copy[..w.area.next] == w.area.bytes[..w.area.next]
    ensures var w := InsertAll(cfg, Stream(Area(bytes, 0), GOOD), items);
            && w.state == GOOD
            && ExtractAll(cfg, Stream(Area(copy, 0), GOOD), was, len0)
               == (Stream(Area(copy, w.area.next), GOOD), items)
  {
    var cs := StreamChunks(cfg, items);
    InsertAllFits(cfg, Stream(Area(bytes, 0), GOOD), items);
    PlaceZeroedHolds(bytes, 0, cs);
    HoldsPrefix(PlaceZeroed(bytes, 0, cs), copy, 0, cs);
    ExtractAllHeld(cfg, Stream(Area(copy, 0), GOOD), items, was, len0);
  }

  // ----- The stream and the codec agree -----

  /** An integer of one, two or four bytes, as the stream's operators take it. */
  predicate IsInt(v: Value) { |v| == 1 || |v| == 2 || |v| == 4 }

  function IntItem(v: Value): Item { if |v| == 1 then Byte(v[0]) else Word(v) }

  function IntItems(vs: seq<Value>): seq<Item> {
    seq(|vs|, i requires 0 <= i < |vs| => IntItem(vs[i]))
  }

  lemma {:induction false} SameChunks(host: Order, vs: seq<Value>)
    requires forall v :: v in vs ==> IsInt(v)
    ensures StreamChunks(Config(true, false, host), IntItems(vs)) == Chunks(vs)
    decreases |vs|
  {
    if vs != [] {
      assert IntItems(vs)[1..] == IntItems(vs[1..]);
      SameChunks(host, vs[1..]);
      ChunksTail(vs);
      var cfg := Config(true, false, host);
      assert |vs[0]| == 1 ==> [vs[0][0]] == vs[0];
      assert ItemChunks(cfg, IntItem(vs[0])) == [Chunk(|vs[0]|, vs[0])];
    }
  }

  /** With alignment on and swapping off, the stream stores integers byte for byte as the
      encoder does over a zeroed buffer of the same size, so the decoder reads the stream. */
  lemma StreamMatchesEncoder(host: Order, vs: seq<Value>, size: nat)
    requires forall v :: v in vs ==> IsInt(v)
    requires End(0, Chunks(vs)) <= size
    ensures var w := InsertAll(Config(true, false, host), Stream(Area(Zeros(size), 0), GOOD), IntItems(vs));
            var e := PutAll(Codec(Buf(Zeros(size), 0, size, 0), true), vs);
            && e.good && w.state == GOOD
            && w.area.bytes == e.buf.mem && w.area.next == e.buf.pos
            && GetAll(Codec(Buf(w.area.bytes, 0, w.area.next, 0), true), Sizes(vs)).1 == vs
  {
    var cfg := Config(true, false, host);
    var c := Codec(Buf(Zeros(size), 0, size, 0), true);
    SameChunks(host, vs);
    PutAllIff(c, vs);
    InsertAllFits(cfg, Stream(Area(Zeros(size), 0), GOOD), IntItems(vs));
    ZeroPaddingIsFree(Zeros(size), 0, Chunks(vs));
    PlaceHolds(Zeros(size), 0, Chunks(vs));
    GetAllReady(Codec(c.buf.(mem := Place(Zeros(size), 0, Chunks(vs)), lim := End(0, Chunks(vs))), true), vs);
  }
}
