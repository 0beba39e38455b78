/** The classes of src/DistObj/DistObjSrvr.cpp, proved against the functions of DistObj. */
module DistObjServer {
  import opened Layout
  import opened HostBytes
  import opened Buffers
  import opened BufCodec
  import opened PacketHeader
  import opened DistObj
  import opened ServerRuns

  /** A connected device. `inp` is all that will still arrive before the peer closes. */
  class Port {
    var inp: seq<byte>
    var outp: seq<byte>

    constructor (inp: seq<byte>)
      ensures this.inp == inp && outp == []
    {
      this.inp := inp;
      outp := [];
    }

    /** Reads `n` bytes, or fewer when the peer closes before. */
    method ReadN(a: array<byte>, at: nat, n: nat) returns (k: nat)
      requires at + n <= a.Length
      modifies this`inp, a
      ensures k == if n <= |old(inp)| then n else |old(inp)|
      ensures a[..] == Blit(old(a[..]), at, old(inp)[..k]) && inp == old(inp)[k..]
    {
      k := if n <= |inp| then n else |inp|;
      forall i | 0 <= i < k {
        a[at + i] := inp[i];
      }
      inp := inp[k..];
    }

    method ReadBuf(b: Buf<byte>) returns (r: Buf<byte>)
      requires b.Valid() && b.pos <= b.lim
      modifies this`inp
      ensures (r, inp) == ReadInto(b, old(inp))
    {
      var n := if b.lim - b.pos <= |inp| then b.lim - b.pos else |inp|;
      r := b.(mem := Blit(b.mem, b.pos, inp[..n]), pos := b.pos + n);
      inp := inp[n..];
    }

    method FillBuffer(b: Buffer<byte>)
      requires b.Valid() && b.pos <= b.lim
      modifies this`inp, b`pos, b.arr
      ensures b.Valid() && (b.View(), inp) == ReadInto(old(b.View()), old(inp))
    {
      var n := if b.lim - b.pos <= |inp| then b.lim - b.pos else |inp|;
      b.CopyIn(b.pos, inp[..n]);
      b.pos := b.pos + n;
      inp := inp[n..];
    }

    method WriteN(data: seq<byte>)
      modifies this`outp
      ensures outp == old(outp) + data
    {
      outp := outp + data;
    }
  }

  /** `invoke` of a registered object: handlers see the objects' state, the operation and the
      codecs. */
  type Invoke<!S> = (S, nat, u32, ValidCodec, ValidCodec) -> (S, i32, ValidCodec, ValidCodec)

  /** Dispatching through the registry: an unknown key is answered without touching anything. */
  function DispatchVia<S>(entries: seq<Entry>, invoke: Invoke<S>, objs: S, tgt: u32, op: u32, d: ValidCodec,
          e: ValidCodec): (S, i32, ValidCodec, ValidCodec) {
    var obj := Lookup(entries, tgt);
    if obj == 0 then (objs, -CFXE_UNKNOWN_OBJ, d, e) else invoke(objs, obj, op, d, e)
  }

  function Dispatcher<S>(entries: seq<Entry>, invoke: Invoke<S>): Dispatch<S> {
    (objs, tgt, op, d, e) => DispatchVia(entries, invoke, objs, tgt, op, d, e)
  }

  /** A command for an unknown object gets the error code alone, and touches nothing. */
  lemma UnknownObjectAnswered<S>(host: Order, entries: seq<Entry>, invoke: Invoke<S>, srv: Server<S>, d: ValidCodec,
          rest: seq<byte>)
    requires srv.Valid() && Lookup(entries, GetCmdHdr(host, srv, d).0.tgtObj) == 0
    ensures var dispatch := Dispatcher(entries, invoke); var r := ServeCommand(host, dispatch, srv, d, rest);
            && Handled(host, dispatch, srv, d).1 == -6
            && |r.out| == 16 && r.srv.objs == srv.objs
  {
    hide Lookup, U32Bytes, I32Bytes, GetU32;
    UntouchedResponseIsEmpty(host, Dispatcher(entries, invoke), srv, d, rest);
  }

  class DistObjSrvr<S> {
    const host: Order
    const port: Port
    const reg: DistObjRegistry
    const invoke: Invoke<S>
    const pktHdr: array<byte>
    var cmdBuf: Buf<byte>
    var rspBuf: Buf<byte>
    var msgId: u32
    var hdrMsgId: u32
    var tgtObj: u32
    var operation: u32
    var objs: S
    /** How many more tests of the quit flag find it clear. */
    var tests: nat

    ghost predicate Valid()
      reads this, pktHdr
    {
      pktHdr.Length == 8 && View().Valid()
    }

    /** The server between two rounds. */
    ghost function View(): Server<S>
      reads this, pktHdr
    {
      Server(cmdBuf, rspBuf, pktHdr[..], hdrMsgId, tgtObj, operation, objs)
    }

    constructor (host: Order, port: Port, reg: DistObjRegistry, invoke: Invoke<S>, objs: S, tests: nat)
      ensures Valid() && fresh(pktHdr) && msgId == 0
      ensures this.host == host && this.port == port && this.reg == reg && this.invoke == invoke && this.objs == objs
      ensures this.tests == tests
      ensures |cmdBuf.mem| == |rspBuf.mem| == DFLT_CMD_RSP_SIZE
    {
      this.host, this.port, this.reg, this.invoke, this.objs, this.tests := host, port, reg, invoke, objs, tests;
      pktHdr := new byte[8];
      cmdBuf := Buf(Zeros(DFLT_CMD_RSP_SIZE), 0, DFLT_CMD_RSP_SIZE, 0);
      rspBuf := Buf(Zeros(DFLT_CMD_RSP_SIZE), 0, DFLT_CMD_RSP_SIZE, 0);
      msgId := 0;
      hdrMsgId, tgtObj, operation := 0, 0, 0;
    }

    method NextMsgId() returns (id: u32)
      modifies this`msgId
      ensures id == old(msgId) && msgId == (old(msgId) + 1) % 0x1_0000_0000
    {
      id := msgId;
      msgId := (msgId + 1) % 0x1_0000_0000;
    }

    method ReadMagic(magic: array<byte>, nx: nat) returns (k: nat)
      requires magic.Length == 2 && nx <= 1
      modifies port`inp, magic
      ensures k <= |old(port.inp)| && port.inp == old(port.inp)[k..] && (old(port.inp) == [] <==> k == 0)
      ensures k > 0 ==> (magic[0], magic[1], k) == Pass(old(port.inp), old(magic[0]), old(magic[1]), nx)
    {
      ghost var was, inp := magic[..], port.inp;
      k := port.ReadN(magic, nx, 2 - nx);
      ghost var now := Blit(was, nx, inp[..k]);
      assert magic[0] == magic[..][0] == now[0] && magic[1] == magic[..][1] == now[1];
    }

    /** Tests the quit flag, which another thread may have set meanwhile. */
    method Quitting() returns (q: bool)
      modifies this`tests
      ensures q == (old(tests) == 0) && tests == if q then 0 else old(tests) - 1
    {
      q := tests == 0;
      if !q {
        tests := tests - 1;
      }
    }

    /** Told to quit: the next test of the flag finds it set. */
    method Quit()
      modifies this`tests
      ensures tests == 0
    {
      tests := 0;
    }

    /** One pass of the scanning loop. */
    method ScanPass(magic: array<byte>, nx: nat) returns (k: nat, nx': nat)
      requires magic.Length == 2 && nx <= 1
      modifies port`inp, magic
      ensures k <= |old(port.inp)| && port.inp == old(port.inp)[k..] && (old(port.inp) == [] <==> k == 0) && nx' <= 1
      ensures k > 0 ==> (magic[0], magic[1], nx', k) == Kept(old(port.inp), old(magic[0]), old(magic[1]), nx)
    {
      nx' := nx;
      k := ReadMagic(magic, nx);
      if k > 0 && magic[1] == C {
        magic[0] := C;
        magic[1] := 0;
        nx' := 1;
      }
    }

    /** The scanning loop of get_pkt_hdr: reads up to and including the magic bytes, or stops. */
    method ScanLoop(m0: byte, m1: byte) returns (closed: bool)
      modifies this`tests, port`inp
      ensures var (c, e, left) := ScanUntil(old(port.inp), m0, m1, 0, old(tests));
              && closed == e.Closed? && port.inp == old(port.inp)[c..]
              && tests == if e.Found? then left + 1 else left
    {
      hide Kept, ScanUntil, Scanning;
      var nx := 0;
      var magic := new byte[2];
      magic[0], magic[1] := m0, m1;
      ghost var c: nat, inp0 := 0, port.inp;
      ghost var start: (nat, ScanEnd, nat) := ScanUntil(inp0, m0, m1, 0, tests);
      assert Scanning(inp0, start, c, port.inp, m0, m1, nx, tests) by { ScanningStarts(inp0, m0, m1, tests); }
      var again := true;
      closed := false;
      while again
        invariant nx <= 1
        invariant if again then !closed && Scanning(inp0, start, c, port.inp, magic[0], magic[1], nx, tests)
                  else closed == start.1.Closed? && c == start.0 <= |inp0| && port.inp == inp0[c..]
                       && tests == if start.1.Found? then start.2 + 1 else start.2
        decreases |port.inp|, again
      {
        ScanningStep(inp0, start, c, port.inp, magic[0], magic[1], nx, tests);
        var k;
        k, nx := ScanPass(magic, nx);
        c := c + k;
        closed := k <= 0;
        again := !closed && !(magic[0] == C && magic[1] == X);
        if again {
          var q := Quitting();
          again := !q;
        }
      }
    }

    method FindMagic(m0: byte, m1: byte) returns (end: ScanEnd)
      modifies this`tests, port`inp
      ensures var (c, e, left) := ScanUntil(old(port.inp), m0, m1, 0, old(tests));
              end == e && tests == left && port.inp == old(port.inp)[c..]
    {
      ScanUntilLeft(port.inp, m0, m1, 0, tests);
      hide ScanUntil;
      var closed := ScanLoop(m0, m1);
      if closed {
        return Closed;
      }
      var q := Quitting();
      end := if q then ScanEnd.Quit else Found;
    }

    /** Scans for the magic bytes and loads the rest of the header behind them. */
    method GetPktHdr(m0: byte, m1: byte) returns (n: int)
      requires pktHdr.Length == 8
      modifies this`tests, port`inp, pktHdr
      ensures var (c, end, left) := ScanUntil(old(port.inp), m0, m1, 0, old(tests));
              && tests == left
              && n == (match end case Found => 0 case Closed => -1 case Quit => -8)
              && if end.Found? then (pktHdr[..], port.inp) == LoadHdr(old(pktHdr[..]), old(port.inp)[c..])
                 else pktHdr[..] == old(pktHdr[..])
    {
      var end := FindMagic(m0, m1);
      if end == Closed {
        return -1;
      }
      if end == ScanEnd.Quit {
        return -CFXE_SRVR_CLOSING;
      }
      LoadRest();
      n := 0;
    }

    method LoadRest()
      requires pktHdr.Length == 8
      modifies port`inp, pktHdr
      ensures (pktHdr[..], port.inp) == LoadHdr(old(pktHdr[..]), old(port.inp))
    {
      pktHdr[0], pktHdr[1] := C, X;
      var k := port.ReadN(pktHdr, 2, 6);
      ghost var hdr := old(pktHdr[..]);
      assert pktHdr[..] == [C, X] + old(port.inp)[..k] + hdr[2 + k..];
    }

    method GetField(d: ValidCodec, was: u32) returns (d': ValidCodec, v: u32)
      ensures (d', v) == GetU32(host, d, was)
    {
      var (d1, r) := d.Get(4);
      d' := d1;
      v := if r.None? then was else U32Of(host, r.value);
    }

    method Dispatch(d: ValidCodec, e: ValidCodec, ghost n: nat) returns (ret: i32, d': ValidCodec, e': ValidCodec)
      requires Valid() && reg.Valid(n)
      modifies this`objs
      ensures (objs, ret, d', e') == DispatchVia(reg.objMap[..n], invoke, old(objs), tgtObj, operation, d, e)
    {
      var obj := reg.GetObj(tgtObj, n);
      if obj == 0 {
        ret, d', e' := -CFXE_UNKNOWN_OBJ, d, e;
      } else {
        var (s, r, d1, e1) := invoke(objs, obj, operation, d, e);
        objs, ret, d', e' := s, r, d1, e1;
      }
    }

    /** What follows the header: payload, command header, dispatch, response. */
    method ServePacket(ghost n: nat)
      requires Valid() && reg.Valid(n)
      modifies this`cmdBuf, this`rspBuf, this`hdrMsgId, this`tgtObj, this`operation, this`objs, port, pktHdr
      ensures Valid()
      ensures var r := ServePayload(host, Dispatcher(reg.objMap[..n], invoke), old(View()), old(port.inp));
              View() == r.srv && port.inp == r.rest && port.outp == old(port.outp) + r.out
    {
      var d := ReadPayload();
      if pktHdr[3] != MSG_TYPE_CMD {
        return;
      }
      ServeCmd(d, n);
    }

    method ReadPayload() returns (d: ValidCodec)
      requires Valid()
      modifies this`cmdBuf, port`inp
      ensures var (b, rest) := ReadInto(old(cmdBuf).ClearTo(U32Of(host, pktHdr[4..8])), old(port.inp));
              d == Codec(b.Flip(), true).Rewind() && port.inp == rest
      ensures View() == old(View()).(cmdBuf := d.buf)
    {
      var size := U32Of(host, pktHdr[4..8]);
      var b := port.ReadBuf(cmdBuf.ClearTo(size));
      d := Codec(b.Flip(), true).Rewind();
      cmdBuf := d.buf;
    }

    method GetFields(d0: ValidCodec) returns (d: ValidCodec)
      requires Valid()
      modifies this`hdrMsgId, this`tgtObj, this`operation
      ensures (View(), d) == GetCmdHdr(host, old(View()), d0)
    {
      d := d0;
      d, hdrMsgId := GetField(d, hdrMsgId);
      d, tgtObj := GetField(d, tgtObj);
      d, operation := GetField(d, operation);
    }

    method ServeCmd(d0: ValidCodec, ghost n: nat)
      requires Valid() && reg.Valid(n)
      modifies this`cmdBuf, this`rspBuf, this`hdrMsgId, this`tgtObj, this`operation, this`objs, port`outp, pktHdr
      ensures Valid()
      ensures var r := ServeCommand(host, Dispatcher(reg.objMap[..n], invoke), old(View()), d0, port.inp);
              View() == r.srv && port.outp == old(port.outp) + r.out
    {
      hide U32Bytes, I32Bytes, GetCmdHdr, Lookup;
      var d := GetFields(d0);
      var e: ValidCodec := Codec(rspBuf, true).Clear();
      var ret: i32;
      ret, d, e := Dispatch(d, e, n);
      cmdBuf := d.buf;
      rspBuf := e.buf.Flip();
      WriteHdr((8 + rspBuf.lim) % 0x1_0000_0000);
      Respond(ret);
    }

    method Respond(ret: i32)
      requires Valid()
      modifies this`rspBuf, port`outp
      ensures View() == old(View()).(rspBuf := old(rspBuf).(pos := old(rspBuf.lim)))
      ensures port.outp
              == old(port.outp)
                 + (pktHdr[..] + U32Bytes(host, hdrMsgId) + I32Bytes(host, ret) + old(rspBuf.mem[..rspBuf.lim]))
    {
      port.WriteN(pktHdr[..]);
      port.WriteN(U32Bytes(host, hdrMsgId) + I32Bytes(host, ret));
      port.WriteN(rspBuf.mem[..rspBuf.lim]);
      rspBuf := rspBuf.(pos := rspBuf.lim);
    }

    method WriteHdr(size: u32)
      requires pktHdr.Length == 8
      modifies pktHdr
      ensures pktHdr[..] == old(pktHdr[..3]) + [MSG_TYPE_RSP] + U32Bytes(host, size)
    {
      var v := U32Bytes(host, size);
      pktHdr[3] := MSG_TYPE_RSP;
      pktHdr[4], pktHdr[5], pktHdr[6], pktHdr[7] := v[0], v[1], v[2], v[3];
    }

    /** One turn of the loop; false when it is to stop. */
    method ServeOne(m0: byte, m1: byte, ghost n: nat) returns (more: bool)
      requires Valid() && reg.Valid(n)
      modifies this`cmdBuf, this`rspBuf, this`hdrMsgId, this`tgtObj, this`operation, this`objs, this`tests, port, pktHdr
      ensures Valid()
      ensures var t := TakeTurn(host, Dispatcher(reg.objMap[..n], invoke), old(View()), old(port.inp), m0, m1,
              old(tests));
              && more == t.Go?
              && (!more ==> View() == t.srv && port.outp == old(port.outp))
              && (more ==> View() == t.round.srv && port.inp == t.round.rest && tests == t.left
                           && port.outp == old(port.outp) + t.round.out)
    {
      hide ScanUntil, ServePayload, LoadHdr;
      var q := Quitting();
      if q {
        return false;
      }
      var r := GetPktHdr(m0, m1);
      q := Quitting();
      if q {
        return false;
      }
      if r < 0 {
        return false;
      }
      ServePacket(n);
      more := true;
    }

    /** The server loop, until the channel ends or the quit flag is seen. */
    method Run(garbage: nat -> (byte, byte), ghost n: nat)
      requires Valid() && reg.Valid(n)
      modifies this`cmdBuf, this`rspBuf, this`hdrMsgId, this`tgtObj, this`operation, this`objs, this`tests, port, pktHdr
      ensures Valid()
      ensures var dispatch := Dispatcher(reg.objMap[..n], invoke);
              var (srv, sent) := ServeUntil(host, dispatch, old(View()), old(port.inp), garbage, 0, old(tests));
              View() == srv && port.outp == old(port.outp) + sent
    {
      hide TakeTurn, ServeUntil, Progress;
      ghost var entries := reg.objMap[..n];
      ghost var dispatch := Dispatcher(entries, invoke);
      ghost var all := ServeUntil(host, dispatch, View(), port.inp, garbage, 0, tests);
      ghost var sent: seq<byte> := [];
      var k := 0;
      ProgressStart(all);
      while true
        invariant Valid() && port.outp == old(port.outp) + sent && reg.objMap[..n] == entries
        invariant Progress(all, ServeUntil(host, dispatch, View(), port.inp, garbage, k, tests), sent)
        decreases |port.inp|
      {
        ghost var srv, inp, ts := View(), port.inp, tests;
        ghost var t := TakeTurn(host, dispatch, srv, inp, garbage(k).0, garbage(k).1, ts);
        var more := ServeOne(garbage(k).0, garbage(k).1, n);
        if !more {
          ProgressEnd(host, dispatch, srv, inp, garbage, k, ts, all, sent, t.srv);
          return;
        }
        ProgressStep(host, dispatch, srv, inp, garbage, k, ts, all, sent, t.round, t.left);
        sent := sent + t.round.out;
        k := k + 1;
      }
    }

    /** Sends a packet and waits for the response; `port.inp` stands for what the peer is going
        to answer. */
    method Send(msgType: byte, packet: Buffer<byte>, rsp: Buffer<byte>) returns (reply: int)
      requires packet.Valid() && packet.pos <= packet.lim && rsp.Valid() && Receive(host, rsp.View(), port.inp).Some?
      modifies port, rsp`pos, rsp`lim, rsp`mark, rsp.arr
      ensures port.outp == old(port.outp) + SendBytes(host, msgType, old(packet.View()))
      ensures rsp.Valid() && (reply, rsp.View(), port.inp) == Receive(host, old(rsp.View()), old(port.inp)).value
    {
      port.WriteN(PktHdr(host, msgType, (packet.lim - packet.pos) % 0x1_0000_0000));
      port.WriteN(packet.arr[packet.pos..packet.lim]);
      reply := ReadResponse(rsp);
    }

    method ReadResponse(rsp: Buffer<byte>) returns (reply: int)
      requires rsp.Valid() && Receive(host, rsp.View(), port.inp).Some?
      modifies port`inp, rsp`pos, rsp`lim, rsp`mark, rsp.arr
      ensures rsp.Valid() && (reply, rsp.View(), port.inp) == Receive(host, old(rsp.View()), old(port.inp)).value
    {
      hide U32Of, I32Of, ReadInto;
      var pktHdr, rspHdr := new byte[8], new byte[8];
      ghost var inp := port.inp;
      var k := port.ReadN(pktHdr, 0, 8);
      if k != 8 {
        return -CFXE_PACKET_READ;
      }
      k := port.ReadN(rspHdr, 0, 8);
      if k != 8 {
        return -CFXE_PACKET_READ;
      }
      assert pktHdr[4..8] == inp[4..8] && rspHdr[4..8] == inp[12..16];
      var n := (U32Of(host, pktHdr[4..8]) - 8) % 0x1_0000_0000;
      reply := I32Of(host, rspHdr[4..8]);
      if n != 0 {
        rsp.lim := n;
        port.FillBuffer(rsp);
        rsp.Flip();
      }
    }
  }
}
