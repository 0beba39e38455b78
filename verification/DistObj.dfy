/** Distributed objects: the registry of src/DistObj/DistObj.cpp and the packet exchange of
    src/DistObj/DistObjSrvr.cpp. */
module DistObj {
  import opened Layout
  import opened HostBytes
  import opened Buffers
  import opened BufCodec
  import opened PacketHeader

  const CFXE_NO_MEM: int := 2
  const CFXE_PACKET_READ: int := 4
  const CFXE_UNKNOWN_OBJ: int := 6
  const CFXE_UNKNOWN_CMD: int := 7
  const CFXE_SRVR_CLOSING: int := 8

  const MSG_TYPE_CMD: byte := 0
  const MSG_TYPE_RSP: byte := 1

  const DFLT_CMD_RSP_SIZE: nat := 256

  type Memory = m: seq<byte> | |m| == DFLT_CMD_RSP_SIZE witness seq(DFLT_CMD_RSP_SIZE, _ => 0)

  /** The buffer a stub sets up over its own memory. */
  function Fresh(mem: Memory): (b: Buf<byte>)
    ensures b.Valid()
  {
    Buf(mem, 0, |mem|, 0)
  }

  // ----- The registry -----

  /** A registered object is known by a number; 0 is the null pointer. */
  datatype Entry = Entry(key: u32, obj: nat)

  const MAX_NUM_DIST_OBJ: nat := 64

  /** The first object registered under `key`. */
  function Lookup(entries: seq<Entry>, key: u32): (obj: nat)
    ensures obj != 0 ==> Entry(key, obj) in entries
    decreases |entries|
  {
    if entries == [] then 0
    else if entries[0].key == key then entries[0].obj
    else Lookup(entries[1..], key)
  }

  /** It is the first entry with the key that counts, and without one there is no object. */
  lemma {:induction false} LookupIs(entries: seq<Entry>, key: u32)
    ensures (forall i :: 0 <= i < |entries| ==> entries[i].key != key) ==> Lookup(entries, key) == 0
    ensures forall i ::
              0 <= i < |entries| && entries[i].key == key && (forall j :: 0 <= j < i ==> entries[j].key != key) ==>
                Lookup(entries, key) == entries[i].obj
    decreases |entries|
  {
    if entries != [] {
      LookupIs(entries[1..], key);
      forall i | 0 < i < |entries| && entries[i].key == key && (forall j :: 0 <= j < i ==> entries[j].key != key)
        ensures Lookup(entries, key) == entries[i].obj
      {
        assert entries[0].key != key && entries[1..][i - 1] == entries[i];
      }
    }
  }

  class DistObjRegistry {
    const objMap: array<Entry>
    /** The object pointer that the memory behind the table amounts to: on a full table the
        entry is tested before the index is. No answer depends on it. */
    const behind: nat

    function ObjAt(i: nat): nat
      reads objMap
    {
      if i < objMap.Length then objMap[i].obj else behind
    }

    /** The used part of the table ends before the first null object. */
    ghost predicate Valid(n: nat)
      reads this, objMap
    {
      && objMap.Length == MAX_NUM_DIST_OBJ && n <= MAX_NUM_DIST_OBJ
      && (forall i :: 0 <= i < n ==> objMap[i].obj != 0)
      && (n < MAX_NUM_DIST_OBJ ==> objMap[n].obj == 0)
    }

    constructor (behind: nat)
      ensures Valid(0) && fresh(objMap) && this.behind == behind
    {
      objMap := new Entry[MAX_NUM_DIST_OBJ](_ => Entry(0, 0));
      this.behind := behind;
    }

    /** Appends an entry. The answer is the number of entries afterwards, but 63 for the last
        one, or the error when the table is full. */
    method RegisterObj(key: u32, obj: nat, ghost n: nat) returns (r: int)
      requires Valid(n)
      modifies objMap
      ensures n == 64 ==> r == -2 && objMap[..] == old(objMap[..])
      ensures n < 64 ==> r == if n < 63 then n + 1 else 63
      ensures n < MAX_NUM_DIST_OBJ && obj != 0 ==>
                Valid(n + 1) && objMap[..n + 1] == old(objMap[..n]) + [Entry(key, obj)]
      ensures n < MAX_NUM_DIST_OBJ && obj == 0 ==> Valid(n) && objMap[..n] == old(objMap[..n])
    {
      var i := 0;
      while ObjAt(i) != 0 && i < MAX_NUM_DIST_OBJ
        invariant 0 <= i <= n
        decreases n - i
      {
        i := i + 1;
      }
      if i == MAX_NUM_DIST_OBJ {
        return -CFXE_NO_MEM;
      }
      objMap[i] := Entry(key, obj);
      if i < MAX_NUM_DIST_OBJ - 1 {
        i := i + 1;
        objMap[i] := objMap[i].(obj := 0);
      }
      r := i;
    }

    method GetObj(key: u32, ghost n: nat) returns (obj: nat)
      requires Valid(n)
      ensures obj == Lookup(objMap[..n], key)
    {
      var i := 0;
      assert objMap[0..n] == objMap[..n];
      while ObjAt(i) != 0 && i < MAX_NUM_DIST_OBJ
        invariant 0 <= i <= n && Lookup(objMap[..n], key) == Lookup(objMap[i..n], key)
        decreases n - i
      {
        assert objMap[i..n][1..] == objMap[i + 1..n];
        if objMap[i].key == key {
          return objMap[i].obj;
        }
        i := i + 1;
      }
      obj := 0;
    }
  }

  // ----- The server -----

  /** Dispatching a command: target object and operation, the decoder in front of the
      parameters and the encoder of the response. */
  type Dispatch<!S> = (S, u32, u32, ValidCodec, ValidCodec) -> (S, i32, ValidCodec, ValidCodec)

  /** What a server keeps from one packet to the next: its buffers, the headers in whatever
      state the last packet left them, and the objects it serves. */
  datatype Server<S> = Server(
    cmdBuf: Buf<byte>, rspBuf: Buf<byte>,
    pktHdr: seq<byte>, msgId: u32, tgtObj: u32, operation: u32,
    objs: S)
  {
    predicate Valid() { cmdBuf.Valid() && rspBuf.Valid() && |pktHdr| == 8 }
  }

  /** A packet header in memory: magic, byte order, type and size. */
  function PktHdr(host: Order, msgType: byte, size: u32): (h: seq<byte>)
    ensures |h| == 8
  {
    [C, X, 0, msgType] + U32Bytes(host, size)
  }

  /** Reading into a buffer fills what is available, as far as the channel has bytes. */
  function ReadInto(b: Buf<byte>, inp: seq<byte>): (r: (Buf<byte>, seq<byte>))
    requires b.Valid() && b.pos <= b.lim
    ensures r.0.Valid()
  {
    var n := if b.lim - b.pos <= |inp| then b.lim - b.pos else |inp|;
    (b.(mem := Blit(b.mem, b.pos, inp[..n]), pos := b.pos + n), inp[n..])
  }

  /** Loads a header behind an accepted magic; what does not arrive keeps its old value. */
  function LoadHdr(hdr: seq<byte>, inp: seq<byte>): (r: (seq<byte>, seq<byte>))
    requires |hdr| == 8
    ensures |r.0| == 8
  {
    var n := if |inp| >= 6 then 6 else |inp|;
    ([C, X] + inp[..n] + hdr[2 + n..], inp[n..])
  }

  function GetU32(host: Order, d: ValidCodec, was: u32): (r: (ValidCodec, u32))
  {
    var (d', v) := d.Get(4);
    (d', if v.None? then was else U32Of(host, v.value))
  }

  /** The command header: each field keeps its old value when it cannot be read. */
  function GetCmdHdr<S>(host: Order, srv: Server<S>, d: ValidCodec): (r: (Server<S>, ValidCodec))
    requires srv.Valid()
    ensures r.0.Valid()
  {
    var (d1, id) := GetU32(host, d, srv.msgId);
    var (d2, tgt) := GetU32(host, d1, srv.tgtObj);
    var (d3, op) := GetU32(host, d2, srv.operation);
    (srv.(msgId := id, tgtObj := tgt, operation := op), d3)
  }

  /** What one round of `run` does with a packet whose header is in `pktHdr`. */
  datatype Round<S> = Round(srv: Server<S>, rest: seq<byte>, out: seq<byte>)

  function ServePayload<S>(host: Order, dispatch: Dispatch<S>, srv: Server<S>, inp: seq<byte>): (r: Round<S>)
    requires srv.Valid()
    ensures r.srv.Valid() && |r.rest| <= |inp|
  {
    var size := U32Of(host, srv.pktHdr[4..8]);
    var (b, rest) := ReadInto(srv.cmdBuf.ClearTo(size), inp);
    var d := Codec(b.Flip(), true).Rewind();
    if srv.pktHdr[3] != MSG_TYPE_CMD then Round(srv.(cmdBuf := d.buf), rest, [])
    else ServeCommand(host, dispatch, srv, d, rest)
  }

  /** From the command header to the response. */
  function ServeCommand<S>(host: Order, dispatch: Dispatch<S>, srv: Server<S>, d: ValidCodec,
          rest: seq<byte>): (r: Round<S>)
    requires srv.Valid()
    ensures r.srv.Valid() && r.rest == rest
  {
    var (srv1, d1) := GetCmdHdr(host, srv, d);
    var e := Codec(srv.rspBuf, true).Clear();
    var (objs, ret, d2, e2) := dispatch(srv1.objs, srv1.tgtObj, srv1.operation, d1, e);
    var rsp := e2.buf.Flip();
    var hdr := srv1.pktHdr[..3] + [MSG_TYPE_RSP] + U32Bytes(host, (8 + rsp.lim) % 0x1_0000_0000);
    Round(Server(d2.buf, rsp.(pos := rsp.lim), hdr, srv1.msgId, srv1.tgtObj, srv1.operation, objs),
          rest,
          hdr + U32Bytes(host, srv1.msgId) + I32Bytes(host, ret) + rsp.mem[..rsp.lim])
  }

  /** One round: find a header, load it, serve the payload. `None` when the channel ended. */
  function ServeNext<S>(host: Order, dispatch: Dispatch<S>, srv: Server<S>, inp: seq<byte>, m0: byte,
          m1: byte): (r: Option<Round<S>>)
    requires srv.Valid()
    ensures r.Some? ==> r.value.srv.Valid() && |r.value.rest| < |inp|
  {
    var (n, found) := Scan(inp, m0, m1, 0);
    if !found then None
    else
      var (hdr, inp1) := LoadHdr(srv.pktHdr, inp[n..]);
      Some(ServePayload(host, dispatch, srv.(pktHdr := hdr), inp1))
  }

  // ----- The client -----

  /** What `send` puts on the channel. */
  function SendBytes(host: Order, msgType: byte, packet: Buf<byte>): seq<byte>
    requires packet.Valid() && packet.pos <= packet.lim
  {
    PktHdr(host, msgType, (packet.lim - packet.pos) % 0x1_0000_0000) + packet.mem[packet.pos..packet.lim]
  }

  /** The length `send` expects behind the response header. */
  function AnnouncedSize(host: Order, inp: seq<byte>): u32
    requires |inp| >= 16
  {
    (U32Of(host, inp[4..8]) - 8) % 0x1_0000_0000
  }

  /** The second half of `send`: the headers, then the payload into `rsp`. The results are the
      answer, the buffer and what is left of the channel; `None` when the announced size does
      not fit the buffer, which nothing prevents. */
  function Receive(host: Order, rsp: Buf<byte>, inp: seq<byte>): (r: Option<(int, Buf<byte>, seq<byte>)>)
    requires rsp.Valid()
    ensures r.Some? ==> r.value.1.Valid()
  {
    if |inp| < 16 then Some((-CFXE_PACKET_READ, rsp, []))
    else
      var n := AnnouncedSize(host, inp);
      var reply := I32Of(host, inp[12..16]);
      if n == 0 then Some((reply, rsp, inp[16..]))
      else if n < rsp.pos || n > |rsp.mem| then None
      else
        var (b, rest) := ReadInto(rsp.(lim := n), inp[16..]);
        Some((reply, b.Flip(), rest))
  }

  // ----- One exchange -----

  /** An encoder that has stored exactly the values `vs` since it was cleared. */
  predicate Wrote(e: Codec, vs: seq<Value>) {
    && e.Valid() && e.good
    && e.buf.pos == End(0, Chunks(vs))
    && Holds(e.buf.mem, 0, Chunks(vs))
  }

  lemma WroteNothing(b: Buf<byte>)
    requires b.Valid()
    ensures Wrote(Codec(b, true).Clear(), [])
  {
  }

  /** A put that fits adds its value. */
  lemma WrotePut(e: Codec, vs: seq<Value>, v: Value)
    requires Wrote(e, vs) && End(0, Chunks(vs + [v])) <= e.buf.lim
    ensures Wrote(e.Put(v).0, vs + [v])
    ensures e.Put(v).0.buf.lim == e.buf.lim && |e.Put(v).0.buf.mem| == |e.buf.mem|
  {
    hide AlignUp, Blit, Holds, End;
    ChunksAppend(vs, [v]);
    var c := Chunk(|v|, v);
    assert Chunks([v]) == [c];
    PutSucceedsIff(e, v);
    HoldsAppend(e.buf.mem, Chunks(vs), c) by {
      EndSplit(0, Chunks(vs), [c]);
      OneChunk(e.buf.mem, e.buf.pos, c);
    }
  }

  lemma {:induction false} WrotePutAll(e: Codec, us: seq<Value>, vs: seq<Value>)
    requires Wrote(e, us) && End(0, Chunks(us + vs)) <= e.buf.lim
    ensures Wrote(PutAll(e, vs), us + vs)
    decreases |vs|
  {
    if vs == [] {
      assert us + vs == us;
    } else {
      assert us + vs == (us + [vs[0]]) + vs[1..];
      ChunksAppend(us + [vs[0]], vs[1..]);
      EndSplit(0, Chunks(us + [vs[0]]), Chunks(vs[1..]));
      WrotePut(e, us, vs[0]);
      WrotePutAll(e.Put(vs[0]).0, us + [vs[0]], vs[1..]);
    }
  }

  /** A server and the bytes on their way to it and back. */
  datatype Link<S> = Link(srv: Server<S>, up: seq<byte>, down: seq<byte>)

  /** A whole `send`: the packet goes up, the server takes one round, the client reads. */
  function Exchange<S>(host: Order, dispatch: Dispatch<S>, link: Link<S>, m0: byte, m1: byte, packet: Buf<byte>,
          rsp: Buf<byte>): (r: Option<(int, Buf<byte>, Link<S>)>)
    requires link.srv.Valid() && packet.Valid() && packet.pos <= packet.lim && rsp.Valid()
    ensures r.Some? ==> r.value.1.Valid() && r.value.2.srv.Valid()
  {
    var up := link.up + SendBytes(host, MSG_TYPE_CMD, packet);
    var round := match ServeNext(host, dispatch, link.srv, up, m0, m1)
      case Some(r) => r
      case None => Round(link.srv, [], []);
    match Receive(host, rsp, link.down + round.out)
    case None => None
    case Some((reply, rsp', down)) => Some((reply, rsp', Link(round.srv, round.rest, down)))
  }

  /** A call as the client encodes it, and what its handler makes of it. */
  datatype Request = Request(id: u32, tgt: u32, op: u32, args: seq<Value>)

  datatype Answer<S> = Answer(objs: S, ret: i32, outs: seq<Value>)

  /** The values of a command packet: the command header, then the arguments. */
  function CmdValues(host: Order, req: Request): (vs: seq<Value>)
    ensures |vs| == 3 + |req.args| && vs[3..] == req.args
  {
    [U32Bytes(host, req.id), U32Bytes(host, req.tgt), U32Bytes(host, req.op)] + req.args
  }

  /** An encoder that has stored the values `vs` and nothing behind them, and whose position is
      `len`, which may be behind them. */
  predicate Holding(e: Codec, vs: seq<Value>, len: nat) {
    e.Valid() && Holds(e.buf.mem, 0, Chunks(vs)) && End(0, Chunks(vs)) <= e.buf.pos == len <= |e.buf.mem|
  }

  lemma WroteHolds(e: Codec, vs: seq<Value>)
    requires Wrote(e, vs)
    ensures Holding(e, vs, End(0, Chunks(vs)))
  {
  }

  /** Where the arguments end in the command buffer, the limit and the size of the buffer, the
      size of the response buffer and how much of it the response takes. */
  datatype Sizes = Sizes(end: nat, lim: nat, size: nat, cap: nat, len: nat)

  /** The dispatched handler answers the request with `ans`, whatever the padding in either
      buffer. */
  ghost predicate AnswersIn<S(!new)>(dispatch: Dispatch<S>, objs: S, req: Request, z: Sizes, ans: Answer<S>) {
    forall d: ValidCodec, e: ValidCodec {:trigger dispatch(objs, req.tgt, req.op, d, e)} ::
      Ready(d, req.args) && End(d.buf.pos, Chunks(req.args)) == z.end && d.buf.lim == z.lim && |d.buf.mem| == z.size
      && Wrote(e, []) && |e.buf.mem| == e.buf.lim == z.cap ==>
        var r := dispatch(objs, req.tgt, req.op, d, e);
        r.0 == ans.objs && r.1 == ans.ret && |r.2.buf.mem| == |d.buf.mem| && Holding(r.3, ans.outs, z.len)
        && |r.3.buf.mem| == z.cap
  }

  /** It does so, with a response that has room for its values and nothing else, whenever nothing
      follows the arguments, whatever the size of the buffer. */
  ghost predicate Answers<S(!new)>(dispatch: Dispatch<S>, objs: S, req: Request, cap: nat, ans: Answer<S>) {
    forall end: nat, size: nat ::
      AnswersIn(dispatch, objs, req, Sizes(end, end, size, cap, End(0, Chunks(ans.outs))), ans)
  }

  // ----- The server's side -----

  lemma SplitAt<T>(s: seq<T>, t: seq<T>, k: nat)
    requires k <= |s|
    ensures s + t == s[..k] + (s[k..] + t)
  {
  }

  lemma LoadsHdr(hdr: seq<byte>, pkt: seq<byte>, rest: seq<byte>)
    requires |hdr| == |pkt| == 8 && pkt[..2] == [C, X]
    ensures LoadHdr(hdr, pkt[2..] + rest) == (pkt, rest)
  {
    var inp := pkt[2..] + rest;
    assert inp[..6] == pkt[2..] && inp[6..] == rest;
    assert [C, X] + pkt[2..] + hdr[8..] == pkt;
  }

  /** The scan and the header load on a packet behind junk without a 'C'. */
  lemma FramedBytes(junk: seq<byte>, pkt: seq<byte>, rest: seq<byte>, hdr: seq<byte>, m0: byte, m1: byte)
    requires |pkt| == |hdr| == 8 && C !in junk && pkt[..2] == [C, X]
    ensures var inp := junk + (pkt + rest);
            Scan(inp, m0, m1, 0) == (|junk| + 2, true) && LoadHdr(hdr, inp[|junk| + 2..]) == (pkt, rest)
  {
    SplitAt(pkt, rest, 2);
    RequestAfterJunk(junk, pkt[2..] + rest, m0, m1);
    LoadsHdr(hdr, pkt, rest);
  }

  /** The first steps of the server's round. */
  lemma RequestFound<S>(host: Order, dispatch: Dispatch<S>, srv: Server<S>, junk: seq<byte>, packet: Buf<byte>,
          more: seq<byte>, m0: byte, m1: byte)
    requires srv.Valid() && C !in junk
    requires packet.Valid() && packet.pos == 0 && packet.lim < 0x1_0000_0000
    ensures ServeNext(host, dispatch, srv, junk + (SendBytes(host, MSG_TYPE_CMD, packet) + more), m0, m1)
            == Some(ServePayload(host, dispatch, srv.(pktHdr := PktHdr(host, MSG_TYPE_CMD, packet.lim)),
                packet.mem[..packet.lim] + more))
  {
    hide ServePayload, Scan, LoadHdr, U32Bytes;
    var pkt, payload := PktHdr(host, MSG_TYPE_CMD, packet.lim), packet.mem[..packet.lim];
    assert packet.mem[0..packet.lim] == payload;
    assert (pkt + payload) + more == pkt + (payload + more);
    FramedBytes(junk, pkt, payload + more, srv.pktHdr, m0, m1);
  }

  /** Reading the command header off a decoder placed in front of it. */
  lemma ReadsCmdHdr<S>(host: Order, srv: Server<S>, d: ValidCodec, req: Request)
    requires srv.Valid() && Ready(d, CmdValues(host, req))
    ensures var (srv1, d1) := GetCmdHdr(host, srv, d);
            && srv1 == srv.(msgId := req.id, tgtObj := req.tgt, operation := req.op)
            && Ready(d1, req.args) && End(d1.buf.pos, Chunks(req.args)) == End(d.buf.pos, Chunks(CmdValues(host, req)))
            && d1.buf.lim == d.buf.lim && |d1.buf.mem| == |d.buf.mem|
  {
    hide Ready, U32Bytes, U32Of;
    var vs := CmdValues(host, req);
    ReadyGet(d, vs);
    var d1 := d.Get(4).0;
    ReadyGet(d1, vs[1..]);
    var d2 := d1.Get(4).0;
    ReadyGet(d2, vs[1..][1..]);
    assert vs[1..][1..][1..] == req.args;
    U32RoundTrip(host, req.id);
    U32RoundTrip(host, req.tgt);
    U32RoundTrip(host, req.op);
  }

  /** A response on the channel: headers, then `len` bytes that begin with `outs`. */
  predicate Responds(host: Order, out: seq<byte>, id: u32, ret: i32, outs: seq<Value>, len: nat) {
    && |out| == 16 + len && End(0, Chunks(outs)) <= len
    && out[..16] == PktHdr(host, MSG_TYPE_RSP, (8 + len) % 0x1_0000_0000) + U32Bytes(host, id) + I32Bytes(host, ret)
    && Holds(out[16..], 0, Chunks(outs))
  }

  /** A response that carries `outs` and nothing more. */
  predicate IsResponse(host: Order, out: seq<byte>, id: u32, ret: i32, outs: seq<Value>) {
    Responds(host, out, id, ret, outs, End(0, Chunks(outs)))
  }

  /** The decoder `run` sets up once the payload has been read. */
  lemma PayloadReady(b: Buf<byte>, payload: seq<byte>, more: seq<byte>, vs: seq<Value>)
    requires b.Valid() && |payload| <= |b.mem|
    requires Holds(payload, 0, Chunks(vs)) && End(0, Chunks(vs)) <= |payload|
    ensures var (b', rest) := ReadInto(b.ClearTo(|payload|), payload + more);
            var d := Codec(b'.Flip(), true).Rewind();
            rest == more && Ready(d, vs) && d.buf.pos == 0 && d.buf.lim == |payload| && |d.buf.mem| == |b.mem|
  {
    var d := Codec(ReadInto(b.ClearTo(|payload|), payload + more).0.Flip(), true).Rewind();
    assert (payload + more)[..|payload|] == payload;
    HoldsPrefix(payload, d.buf.mem, 0, Chunks(vs));
  }

  /** The response `run` sends once the handler has returned. */
  lemma ResponseSent(host: Order, pktHdr: seq<byte>, id: u32, ret: i32, e: ValidCodec, outs: seq<Value>, len: nat)
    requires |pktHdr| == 8 && pktHdr[..3] == [C, X, 0] && Holding(e, outs, len)
    ensures var rsp := e.buf.Flip();
            var hdr := pktHdr[..3] + [MSG_TYPE_RSP] + U32Bytes(host, (8 + rsp.lim) % 0x1_0000_0000);
            Responds(host, hdr + U32Bytes(host, id) + I32Bytes(host, ret) + rsp.mem[..rsp.lim], id, ret, outs, len)
  {
    var rsp := e.buf.Flip();
    var hdr := pktHdr[..3] + [MSG_TYPE_RSP] + U32Bytes(host, (8 + rsp.lim) % 0x1_0000_0000);
    var out := hdr + U32Bytes(host, id) + I32Bytes(host, ret) + rsp.mem[..rsp.lim];
    assert hdr == PktHdr(host, MSG_TYPE_RSP, (8 + rsp.lim) % 0x1_0000_0000);
    assert out[..16] == hdr + U32Bytes(host, id) + I32Bytes(host, ret);
    assert out[16..] == rsp.mem[..rsp.lim];
    HoldsPrefix(e.buf.mem, out[16..], 0, Chunks(outs));
  }

  lemma CommandServed<S(!new)>(host: Order, dispatch: Dispatch<S>, srv: Server<S>, d: ValidCodec, rest: seq<byte>,
          req: Request, ans: Answer<S>, len: nat)
    requires srv.Valid() && srv.pktHdr[..3] == [C, X, 0]
    requires Ready(d, CmdValues(host, req))
    requires var end := End(d.buf.pos, Chunks(CmdValues(host, req)));
             AnswersIn(dispatch, srv.objs, req, Sizes(end, d.buf.lim, |d.buf.mem|, |srv.rspBuf.mem|, len), ans)
    ensures var r := ServeCommand(host, dispatch, srv, d, rest);
            && Responds(host, r.out, req.id, ans.ret, ans.outs, len) && r.srv.objs == ans.objs
            && |r.srv.cmdBuf.mem| == |d.buf.mem| && |r.srv.rspBuf.mem| == |srv.rspBuf.mem|
  {
    hide Responds;
    ReadsCmdHdr(host, srv, d, req);
    var d1 := GetCmdHdr(host, srv, d).1;
    WroteNothing(srv.rspBuf);
    var r := dispatch(srv.objs, req.tgt, req.op, d1, Codec(srv.rspBuf, true).Clear());
    ResponseSent(host, srv.pktHdr, req.id, ans.ret, r.3, ans.outs, len);
  }

  lemma PayloadServed<S(!new)>(host: Order, dispatch: Dispatch<S>, srv: Server<S>, payload: seq<byte>,
          more: seq<byte>, req: Request, ans: Answer<S>, len: nat)
    requires srv.Valid() && |payload| <= |srv.cmdBuf.mem| && |payload| < 0x1_0000_0000
    requires srv.pktHdr == PktHdr(host, MSG_TYPE_CMD, |payload|)
    requires Holds(payload, 0, Chunks(CmdValues(host, req))) && End(0, Chunks(CmdValues(host, req))) <= |payload|
    requires var end := End(0, Chunks(CmdValues(host, req)));
             AnswersIn(dispatch, srv.objs, req, Sizes(end, |payload|, |srv.cmdBuf.mem|, |srv.rspBuf.mem|, len), ans)
    ensures var r := ServePayload(host, dispatch, srv, payload + more);
            && r.rest == more && Responds(host, r.out, req.id, ans.ret, ans.outs, len) && r.srv.objs == ans.objs
            && |r.srv.cmdBuf.mem| == |srv.cmdBuf.mem| && |r.srv.rspBuf.mem| == |srv.rspBuf.mem|
  {
    assert srv.pktHdr[4..8] == U32Bytes(host, |payload|);
    U32RoundTrip(host, |payload|);
    PayloadReady(srv.cmdBuf, payload, more, CmdValues(host, req));
    hide ServeCommand, Responds, Holds, U32Bytes, U32Of, ReadInto, AnswersIn;
    var d := Codec(ReadInto(srv.cmdBuf.ClearTo(|payload|), payload + more).0.Flip(), true).Rewind();
    CommandServed(host, dispatch, srv, d, more, req, ans, len);
  }

  /** The server's whole round for a packet behind junk without a 'C': it consumes exactly the
      junk and the packet, and sends the response of the handler. The packet may be longer than
      the request in it, and the response longer than its values. */
  lemma PacketServed<S(!new)>(host: Order, dispatch: Dispatch<S>, srv: Server<S>, junk: seq<byte>, cmd: Codec,
          more: seq<byte>, m0: byte, m1: byte, req: Request, ans: Answer<S>, len: nat) returns (r: Round<S>)
    requires srv.Valid() && C !in junk
    requires Holding(cmd, CmdValues(host, req), cmd.buf.pos)
    requires cmd.buf.pos <= |srv.cmdBuf.mem| && cmd.buf.pos < 0x1_0000_0000
    requires var end := End(0, Chunks(CmdValues(host, req)));
             AnswersIn(dispatch, srv.objs, req, Sizes(end, cmd.buf.pos, |srv.cmdBuf.mem|, |srv.rspBuf.mem|, len), ans)
    ensures ServeNext(host, dispatch, srv, junk + (SendBytes(host, MSG_TYPE_CMD, cmd.buf.Flip()) + more), m0, m1)
            == Some(r)
    ensures r.rest == more && Responds(host, r.out, req.id, ans.ret, ans.outs, len) && r.srv.Valid()
            && r.srv.objs == ans.objs
    ensures |r.srv.cmdBuf.mem| == |srv.cmdBuf.mem| && |r.srv.rspBuf.mem| == |srv.rspBuf.mem|
  {
    hide ServePayload, ServeNext, Responds, SendBytes, AnswersIn;
    var packet := cmd.buf.Flip();
    var payload := packet.mem[..packet.lim];
    RequestFound(host, dispatch, srv, junk, packet, more, m0, m1);
    HoldsPrefix(cmd.buf.mem, payload, 0, Chunks(CmdValues(host, req)));
    var srv' := srv.(pktHdr := PktHdr(host, MSG_TYPE_CMD, packet.lim));
    PayloadServed(host, dispatch, srv', payload, more, req, ans, len);
    r := ServePayload(host, dispatch, srv', payload + more);
  }

  /** In particular when the packet is the request and the response is the values. */
  lemma RequestServed<S(!new)>(host: Order, dispatch: Dispatch<S>, srv: Server<S>, junk: seq<byte>, cmd: Codec,
          more: seq<byte>, m0: byte, m1: byte, req: Request, ans: Answer<S>) returns (r: Round<S>)
    requires srv.Valid() && C !in junk
    requires Wrote(cmd, CmdValues(host, req)) && cmd.buf.pos <= |srv.cmdBuf.mem| && cmd.buf.pos < 0x1_0000_0000
    requires Answers(dispatch, srv.objs, req, |srv.rspBuf.mem|, ans)
    ensures ServeNext(host, dispatch, srv, junk + (SendBytes(host, MSG_TYPE_CMD, cmd.buf.Flip()) + more), m0, m1)
            == Some(r)
    ensures r.rest == more && IsResponse(host, r.out, req.id, ans.ret, ans.outs) && r.srv.Valid()
            && r.srv.objs == ans.objs
    ensures |r.srv.cmdBuf.mem| == |srv.cmdBuf.mem| && |r.srv.rspBuf.mem| == |srv.rspBuf.mem|
  {
    hide AnswersIn, Responds, ServeNext, SendBytes;
    r := PacketServed(host, dispatch, srv, junk, cmd, more, m0, m1, req, ans, End(0, Chunks(ans.outs)));
  }

  // ----- The packets on the channel -----

  /** A command packet byte by byte: "CX", byte order 0, type 0, the number of bytes that follow,
      then the message number, the target object and the operation. */
  lemma CommandOnChannel(host: Order, cmd: Codec, req: Request)
    requires Wrote(cmd, CmdValues(host, req)) && cmd.buf.pos < 0x1_0000_0000
    ensures var out := SendBytes(host, MSG_TYPE_CMD, cmd.buf.Flip());
            && |out| == 8 + cmd.buf.pos >= 20
            && out[..4] == [67, 88, 0, 0] && out[4..8] == U32Bytes(host, |out| - 8)
            && out[8..12] == U32Bytes(host, req.id) && out[12..16] == U32Bytes(host, req.tgt)
            && out[16..20] == U32Bytes(host, req.op)
  {
    hide U32Bytes;
    var out, b := SendBytes(host, MSG_TYPE_CMD, cmd.buf.Flip()), cmd.buf;
    var cs := Chunks(CmdValues(host, req));
    var id, tgt, op := U32Bytes(host, req.id), U32Bytes(host, req.tgt), U32Bytes(host, req.op);
    assert cs[0] == Chunk(4, id) && cs[1..][0] == Chunk(4, tgt) && cs[1..][1..][0] == Chunk(4, op);
    HoldsFields(b.mem, cs);
    assert out[8..] == b.mem[..b.pos];
    assert out[8..12] == b.mem[0..4] && out[12..16] == b.mem[4..8] && out[16..20] == b.mem[8..12];
  }

  /** Three fields of four bytes at the beginning of a layout. */
  lemma HoldsFields(mem: seq<byte>, cs: seq<Chunk>)
    requires |cs| >= 3 && Holds(mem, 0, cs)
    requires forall i :: 0 <= i < 3 ==> cs[i].al == |cs[i].data| == 4
    ensures 12 <= End(0, cs) && |mem| >= 12
    ensures mem[0..4] == cs[0].data && mem[4..8] == cs[1].data && mem[8..12] == cs[2].data
  {
    var ds := cs[1..][1..];
    assert cs[1..][0] == cs[1] && ds[0] == cs[2];
    assert Holds(mem, 4, cs[1..]) && Holds(mem, 8, ds);
    assert End(0, cs) == End(4, cs[1..]) == End(8, ds) == End(12, ds[1..]);
  }

  /** And the response to a command: "CX", byte order 0, type 1, the number of bytes that follow,
      then the message number of the command, the handler's answer and what it encoded. */
  lemma ResponseOnChannel<S>(host: Order, dispatch: Dispatch<S>, srv: Server<S>, d: ValidCodec, rest: seq<byte>)
    requires srv.Valid() && srv.pktHdr[..3] == [67, 88, 0]
    ensures var out := ServeCommand(host, dispatch, srv, d, rest).out;
            var (_, ret, _, e) := Handled(host, dispatch, srv, d);
            && |out| == 16 + e.buf.pos
            && out[..4] == [67, 88, 0, 1] && out[4..8] == U32Bytes(host, (|out| - 8) % 0x1_0000_0000)
            && out[8..12] == U32Bytes(host, GetCmdHdr(host, srv, d).0.msgId) && out[12..16] == I32Bytes(host, ret)
            && out[16..] == e.buf.mem[..e.buf.pos]
  {
    hide U32Bytes, I32Bytes, GetU32;
    var out := ServeCommand(host, dispatch, srv, d, rest).out;
    assert GetCmdHdr(host, srv, d).0.pktHdr == srv.pktHdr;
    var b := Handled(host, dispatch, srv, d).3.buf;
    var size := U32Bytes(host, (8 + b.pos) % 0x1_0000_0000);
    var id := U32Bytes(host, GetCmdHdr(host, srv, d).0.msgId);
    var ret := I32Bytes(host, Handled(host, dispatch, srv, d).1);
    assert out == srv.pktHdr[..3] + [1] + size + id + ret + b.mem[..b.pos];
  }

  // ----- What is short or no command -----

  /** Reading stores the bytes that are there, up to the limit, and nothing else. */
  lemma ReadsWhatIsThere(b: Buf<byte>, inp: seq<byte>)
    requires b.Valid() && b.pos <= b.lim
    ensures var (r, rest) := ReadInto(b, inp);
            && inp == r.mem[b.pos..r.pos] + rest && r.pos <= r.lim == b.lim && (r.pos == r.lim || rest == [])
            && |r.mem| == |b.mem| && r.mem[..b.pos] == b.mem[..b.pos] && r.mem[r.pos..] == b.mem[r.pos..]
  {
    var n := if b.lim - b.pos <= |inp| then b.lim - b.pos else |inp|;
    assert ReadInto(b, inp).0.mem[b.pos..b.pos + n] == inp[..n];
  }

  /** A header keeps the bytes that do not arrive. */
  lemma ShortHeaderKeeps(hdr: seq<byte>, inp: seq<byte>, i: nat)
    requires |hdr| == 8 && i < 8
    ensures var (r, rest) := LoadHdr(hdr, inp);
            && r[i] == (if i == 0 then 67 else if i == 1 then 88 else if i - 2 < |inp| then inp[i - 2] else hdr[i])
            && rest == inp[if |inp| < 6 then |inp| else 6..]
  {
  }

  /** And a command header keeps the fields that are not within the payload. */
  lemma ShortCommandKeeps<S>(host: Order, srv: Server<S>, d: ValidCodec)
    requires srv.Valid() && d.good && d.buf.pos == 0
    ensures var r, m, lim := GetCmdHdr(host, srv, d).0, d.buf.mem, d.buf.lim;
            && r.msgId == (if lim >= 4 then U32Of(host, m[0..4]) else srv.msgId)
            && r.tgtObj == (if lim >= 8 then U32Of(host, m[4..8]) else srv.tgtObj)
            && r.operation == (if lim >= 12 then U32Of(host, m[8..12]) else srv.operation)
            && r.objs == srv.objs
  {
    hide U32Of;
  }

  /** A packet that is no command is read and not answered. */
  lemma NoCommandIsIgnored<S>(host: Order, dispatch: Dispatch<S>, srv: Server<S>, inp: seq<byte>)
    requires srv.Valid() && srv.pktHdr[3] != 0
    ensures var r := ServePayload(host, dispatch, srv, inp); r.out == [] && r.srv.objs == srv.objs
    ensures |inp| <= U32Of(host, srv.pktHdr[4..8]) <= |srv.cmdBuf.mem| ==>
              ServePayload(host, dispatch, srv, inp).rest == []
  {
    hide U32Of;
  }

  /** When the channel ends within the response headers the client gives up with an error and
      leaves its buffer alone. */
  lemma ShortResponse(host: Order, rsp: Buf<byte>, inp: seq<byte>)
    requires rsp.Valid() && |inp| < 16
    ensures Receive(host, rsp, inp) == Some((-4, rsp, []))
  {
  }

  // ----- What a failed command sends -----

  /** What the dispatched handler makes of a command whose header is still to be read. */
  function Handled<S>(host: Order, dispatch: Dispatch<S>, srv: Server<S>, d: ValidCodec): (S, i32, ValidCodec,
          ValidCodec)
    requires srv.Valid()
  {
    var (srv1, d1) := GetCmdHdr(host, srv, d);
    dispatch(srv1.objs, srv1.tgtObj, srv1.operation, d1, Codec(srv.rspBuf, true).Clear())
  }

  /** The response is the two headers and what lies below the encoder's position. */
  lemma ResponseSize<S>(host: Order, dispatch: Dispatch<S>, srv: Server<S>, d: ValidCodec, rest: seq<byte>)
    requires srv.Valid()
    ensures |ServeCommand(host, dispatch, srv, d, rest).out| == 16 + Handled(host, dispatch, srv, d).3.buf.pos
  {
    hide U32Bytes, I32Bytes, GetU32;
  }

  /** Where a list of puts leaves the beginning of a buffer. */
  lemma StaysAtStartIff(c: Codec, vs: seq<Value>)
    requires c.Valid() && c.good && c.buf.pos == 0
    ensures PutAll(c, vs).buf.pos == 0 <==> Accepted(0, c.buf.lim, vs) == 0
  {
    var k := Accepted(0, c.buf.lim, vs);
    PutAllPrefix(c, vs);
    PutAllIff(c, vs[..k]);
    EndIsZeroIff(vs[..k]);
    assert k == |vs| ==> vs[..k] == vs;
  }

  /** The results of a failed command are thrown away, as the source has it, exactly when not
      even the first value its handler encoded was accepted. */
  lemma FailedResponseIsEmptyIff<S>(host: Order, dispatch: Dispatch<S>, srv: Server<S>, d: ValidCodec, rest: seq<byte>,
          outs: seq<Value>)
    requires srv.Valid() && Handled(host, dispatch, srv, d).1 < 0
    requires Handled(host, dispatch, srv, d).3 == PutAll(Codec(srv.rspBuf, true).Clear(), outs)
    ensures |ServeCommand(host, dispatch, srv, d, rest).out| == 16 <==> Accepted(0, |srv.rspBuf.mem|, outs) == 0
  {
    hide ServeCommand, Handled, PutAll, Accepted;
    ResponseSize(host, dispatch, srv, d, rest);
    StaysAtStartIff(Codec(srv.rspBuf, true).Clear(), outs);
  }

  /** A command that fails before its handler encodes anything sends its code alone. */
  lemma UntouchedResponseIsEmpty<S>(host: Order, dispatch: Dispatch<S>, srv: Server<S>, d: ValidCodec, rest: seq<byte>)
    requires srv.Valid() && Handled(host, dispatch, srv, d).3 == Codec(srv.rspBuf, true).Clear()
    ensures |ServeCommand(host, dispatch, srv, d, rest).out| == 16
  {
    hide ServeCommand, Handled;
    ResponseSize(host, dispatch, srv, d, rest);
  }

  /** A handler that encodes one byte and fails. */
  function FailsWithByte(objs: int, tgt: u32, op: u32, d: ValidCodec, e: ValidCodec): (int, i32, ValidCodec,
          ValidCodec) {
    (objs, -1, d, e.Put([7]).0)
  }

  /** Its byte is sent, against what the source says of failed commands. */
  lemma FailedResponseIsSent(host: Order, srv: Server<int>, d: ValidCodec, rest: seq<byte>)
    requires srv.Valid() && |srv.rspBuf.mem| >= 1
    ensures var out := ServeCommand(host, FailsWithByte, srv, d, rest).out;
            |out| == 17 && out[16] == 7
  {
    hide U32Bytes, I32Bytes, GetU32;
    var e := Codec(srv.rspBuf, true).Clear();
    PutSucceedsIff(e, [7]);
  }

  // ----- The client's side -----

  lemma HeaderFields(out: seq<byte>, start: seq<byte>, size: seq<byte>, id: seq<byte>, reply: seq<byte>)
    requires |start| == |size| == |id| == |reply| == 4 && |out| >= 16 && out[..16] == start + size + id + reply
    ensures out[4..8] == size && out[12..16] == reply
  {
    assert out[4..8] == out[..16][4..8] && out[12..16] == out[..16][12..16];
  }

  lemma ResponseHeaders(host: Order, out: seq<byte>, n: nat, id: u32, ret: i32)
    requires |out| >= 16 && 8 + n < 0x1_0000_0000
    requires out[..16] == PktHdr(host, MSG_TYPE_RSP, 8 + n) + U32Bytes(host, id) + I32Bytes(host, ret)
    ensures AnnouncedSize(host, out) == n && I32Of(host, out[12..16]) == ret
  {
    var size, reply := U32Bytes(host, 8 + n), I32Bytes(host, ret);
    HeaderFields(out, [C, X, 0, MSG_TYPE_RSP], size, U32Bytes(host, id), reply);
    assert U32Of(host, size) == 8 + n by { U32RoundTrip(host, 8 + n); }
    assert I32Of(host, reply) == ret by { I32RoundTrip(host, ret); }
  }

  lemma PayloadReceived(rsp: Buf<byte>, data: seq<byte>, outs: seq<Value>)
    requires rsp.Valid() && rsp.pos == 0 && End(0, Chunks(outs)) <= |data| <= |rsp.mem|
    requires Holds(data, 0, Chunks(outs))
    ensures var (b, rest) := ReadInto(rsp.(lim := |data|), data);
            rest == [] && Ready(Codec(b.Flip(), true), outs) && b.Flip().pos == 0 && b.Flip().lim == |data|
  {
    hide Holds, End;
    var b := ReadInto(rsp.(lim := |data|), data).0;
    assert data[..|data|] == data;
    assert b.mem[..|data|] == data;
    PrefixAgrees(b.mem, data, End(0, Chunks(outs)));
    HoldsPrefix(data, b.mem, 0, Chunks(outs));
  }

  lemma PrefixAgrees(m: seq<byte>, data: seq<byte>, n: nat)
    requires n <= |data| <= |m| && m[..|data|] == data
    ensures m[..n] == data[..n]
  {
    assert m[..n] == m[..|data|][..n];
  }

  lemma EndIsZeroIff(vs: seq<Value>)
    ensures End(0, Chunks(vs)) == 0 <==> vs == []
  {
  }

  /** The buffer the client decodes: untouched when the response has no payload, or in front of
      the response values in a payload of `len` bytes. */
  predicate Received(rsp: Buf<byte>, rsp': Buf<byte>, outs: seq<Value>, len: nat) {
    if len == 0 then rsp' == rsp
    else Ready(Codec(rsp', true), outs) && rsp'.pos == 0 && rsp'.lim == len
  }

  /** The client's side of a response that fits its buffer. */
  lemma ReceivesResponse(host: Order, rsp: Buf<byte>, out: seq<byte>, id: u32, ret: i32, outs: seq<Value>, len: nat)
    requires rsp.Valid() && rsp.pos == 0 && Responds(host, out, id, ret, outs, len)
    requires len <= |rsp.mem| && 8 + |rsp.mem| < 0x1_0000_0000
    ensures var r := Receive(host, rsp, out);
            r.Some? && r.value.0 == ret && r.value.2 == [] && Received(rsp, r.value.1, outs, len)
  {
    hide AnnouncedSize, I32Of, I32Bytes, U32Bytes, Holds, Ready, ReadInto;
    ResponseHeaders(host, out, len, id, ret);
    if len == 0 {
      assert Receive(host, rsp, out) == Some((ret, rsp, out[16..]));
    } else {
      PayloadReceived(rsp, out[16..], outs);
    }
  }

  /** What an exchange leaves: the client got the handler's answer and the values of the response,
      the objects changed as the handler says, and both directions of the channel are empty. */
  ghost predicate Delivered<S>(link: Link<S>, rsp: Buf<byte>, r: Option<(int, Buf<byte>, Link<S>)>, ans: Answer<S>,
          len: nat)
  {
    && r.Some?
    && var (reply, rsp', link') := r.value;
    && reply == ans.ret && Received(rsp, rsp', ans.outs, len)
    && link'.up == [] && link'.down == []
    && link'.srv.objs == ans.objs
    && |link'.srv.cmdBuf.mem| == |link.srv.cmdBuf.mem| && |link'.srv.rspBuf.mem| == |link.srv.rspBuf.mem|
  }

  /** One exchange over a channel that carries at most junk without a 'C', with a packet that may
      be longer than the request in it and a response that may be longer than its values. */
  lemma PacketDelivers<S(!new)>(host: Order, dispatch: Dispatch<S>, link: Link<S>, m0: byte, m1: byte, cmd: Codec,
          rsp: Buf<byte>, req: Request, ans: Answer<S>, len: nat)
    requires link.srv.Valid() && C !in link.up && link.down == []
    requires Holding(cmd, CmdValues(host, req), cmd.buf.pos)
    requires cmd.buf.pos <= |link.srv.cmdBuf.mem| && cmd.buf.pos < 0x1_0000_0000
    requires var end, srv := End(0, Chunks(CmdValues(host, req))), link.srv;
             AnswersIn(dispatch, srv.objs, req, Sizes(end, cmd.buf.pos, |srv.cmdBuf.mem|, |srv.rspBuf.mem|, len), ans)
    requires rsp.Valid() && rsp.pos == 0 && len <= |rsp.mem| && 8 + |rsp.mem| < 0x1_0000_0000
    ensures Delivered(link, rsp, Exchange(host, dispatch, link, m0, m1, cmd.buf.Flip(), rsp), ans, len)
  {
    hide ServeNext, Responds, Receive, Received, AnswersIn, Ready;
    var sent := SendBytes(host, MSG_TYPE_CMD, cmd.buf.Flip());
    assert sent + [] == sent;
    var round := PacketServed(host, dispatch, link.srv, link.up, cmd, [], m0, m1, req, ans, len);
    assert link.down + round.out == round.out;
    ReceivesResponse(host, rsp, round.out, req.id, ans.ret, ans.outs, len);
  }

  /** In particular, when everything fits, the client gets exactly the values that the handler
      encoded. */
  lemma ExchangeDelivers<S(!new)>(host: Order, dispatch: Dispatch<S>, link: Link<S>, m0: byte, m1: byte, cmd: Codec,
          rsp: Buf<byte>, req: Request, ans: Answer<S>)
    requires link.srv.Valid() && C !in link.up && link.down == []
    requires Wrote(cmd, CmdValues(host, req)) && cmd.buf.pos <= |link.srv.cmdBuf.mem| && cmd.buf.pos < 0x1_0000_0000
    requires Answers(dispatch, link.srv.objs, req, |link.srv.rspBuf.mem|, ans)
    requires rsp.Valid() && rsp.pos == 0 && End(0, Chunks(ans.outs)) <= |rsp.mem| && 8 + |rsp.mem| < 0x1_0000_0000
    ensures Delivered(link, rsp, Exchange(host, dispatch, link, m0, m1, cmd.buf.Flip(), rsp), ans,
                      End(0, Chunks(ans.outs)))
  {
    hide AnswersIn, Exchange, Received;
    PacketDelivers(host, dispatch, link, m0, m1, cmd, rsp, req, ans, End(0, Chunks(ans.outs)));
  }
}
