/** The classes of the digital I/O example, proved against the functions of DigIO. */
module DigIOObjects {
  import opened Layout
  import opened HostBytes
  import opened Buffers
  import opened BufCodec
  import opened DistObj
  import opened DistObjServer
  import opened DigIO
  import PacketHeader

  /** The search for a command's handler. */
  method GetMbrPtr(methods: seq<MethodMap>, op: u32) returns (p: Option<Handler>)
    requires Terminated(methods)
    ensures p == Find(methods, op)
  {
    var i := 0;
    assert methods[0..] == methods;
    while methods[i].mptr.Some?
      invariant 0 <= i < |methods| && Terminated(methods[i..]) && Find(methods, op) == Find(methods[i..], op)
      decreases |methods| - i
    {
      if methods[i].op == op {
        return methods[i].mptr;
      }
      assert methods[i..][1..] == methods[i + 1..];
      i := i + 1;
    }
    p := None;
  }

  method ExtractI32(host: Order, param: BinNativeDecoder, was: i32) returns (v: i32)
    requires param.View().Valid()
    modifies param`good, param.buf`pos
    ensures param.View().Valid() && (param.View(), v) == GetI32(host, old(param.View()), was)
  {
    var got := param.Get(4);
    v := if got.None? then was else I32Of(host, got.value);
  }

  method ExtractBool(param: BinNativeDecoder, was: bool) returns (v: bool)
    requires param.View().Valid()
    modifies param`good, param.buf`pos
    ensures param.View().Valid() && (param.View(), v) == GetBool(old(param.View()), was)
  {
    var got := param.Get(1);
    v := if got.None? then was else got.value[0] != 0;
  }

  /** The decoder and the encoder of a command work on separate buffers. */
  ghost predicate Separate(param: BinNativeDecoder, rsp: BinNativeEncoder)
    reads param, param.buf, param.buf.arr, rsp, rsp.buf, rsp.buf.arr
  {
    param.View().Valid() && rsp.View().Valid() && param.buf != rsp.buf && param.buf.arr != rsp.buf.arr
  }

  class DigInImpl {
    const host: Order
    const bitVal: array<bool>

    constructor (host: Order, bitVal: array<bool>)
      ensures this.host == host && this.bitVal == bitVal
    {
      this.host, this.bitVal := host, bitVal;
    }

    method Width() returns (wd: i32)
      ensures wd == N_BIT
    {
      wd := N_BIT;
    }

    method Value(bit: i32) returns (b: bool)
      requires bitVal.Length == N_BIT
      ensures b == ValueOf(bitVal[..], bit)
    {
      if bit >= 0 && bit < N_BIT {
        b := bitVal[bit];
      } else {
        b := false;
      }
    }

    method WidthCmd(rsp: BinNativeEncoder) returns (ret: i32)
      requires rsp.View().Valid()
      modifies rsp`good, rsp.buf`pos, rsp.buf.arr
      ensures rsp.View().Valid() && rsp.View() == old(rsp.View()).Put(U32Bytes(host, N_BIT)).0 && ret == 0
    {
      var wd := Width();
      var n := rsp.Put(U32Bytes(host, ToU32(wd)));
      ret := 0;
    }

    method ValueCmd(param: BinNativeDecoder, rsp: BinNativeEncoder, junk: i32) returns (ret: i32)
      requires bitVal.Length == N_BIT && Separate(param, rsp)
      modifies param`good, param.buf`pos, rsp`good, rsp.buf`pos, rsp.buf.arr
      ensures Separate(param, rsp)
      ensures (bitVal[..], ret, param.View(), rsp.View())
              == Handle(host, InValueCmd, junk, old(bitVal[..]), old(param.View()), old(rsp.View()))
    {
      hide GetI32, GetBool;
      var bit := ExtractI32(host, param, junk);
      var b := Value(bit);
      var n := rsp.Put(BoolBytes(b));
      ret := 0;
    }

    method InvokeOp(op: u32, param: BinNativeDecoder, rsp: BinNativeEncoder, junk: i32) returns (ret: i32)
      requires bitVal.Length == N_BIT && Separate(param, rsp)
      modifies param`good, param.buf`pos, rsp`good, rsp.buf`pos, rsp.buf.arr
      ensures Separate(param, rsp)
      ensures (bitVal[..], ret, param.View(), rsp.View())
              == DigIO.Invoke(host, junk, old(bitVal[..]), DIG_IN, op, old(param.View()), old(rsp.View()))
    {
      var p := GetMbrPtr(DIG_IN_MAP, op);
      match p
      case None => ret := -1;
      case Some(h) =>
        FindsOwn(DIG_IN_MAP, op);
        if h.InWidthCmd? {
          ret := WidthCmd(rsp);
        } else {
          ret := ValueCmd(param, rsp, junk);
        }
    }
  }

  /** A search finds a row of the map. */
  lemma {:induction false} FindsOwn(methods: seq<MethodMap>, op: u32)
    requires Terminated(methods)
    ensures Find(methods, op).Some? ==> MethodMap(op, Find(methods, op)) in methods
    decreases |methods|
  {
    if methods[0].mptr.Some? && methods[0].op != op {
      FindsOwn(methods[1..], op);
    }
  }

  class DigOutImpl {
    const host: Order
    const bitVal: array<bool>

    constructor (host: Order, bitVal: array<bool>)
      ensures this.host == host && this.bitVal == bitVal
    {
      this.host, this.bitVal := host, bitVal;
    }

    method Width() returns (wd: i32)
      ensures wd == N_BIT
    {
      wd := N_BIT;
    }

    method SetHigh(bit: i32)
      requires bitVal.Length == N_BIT
      modifies bitVal
      ensures bitVal[..] == Local(old(bitVal[..]), OutSet(bit, true)).0
    {
      Set(bit, true);
    }

    method Set(bit: i32, b: bool)
      requires bitVal.Length == N_BIT
      modifies bitVal
      ensures bitVal[..] == Local(old(bitVal[..]), OutSet(bit, b)).0
    {
      if bit >= 0 && bit < N_BIT {
        bitVal[bit] := b;
      }
    }

    method Clear(bit: i32)
      requires bitVal.Length == N_BIT
      modifies bitVal
      ensures bitVal[..] == Local(old(bitVal[..]), OutClear(bit)).0
    {
      if bit >= 0 && bit < N_BIT {
        bitVal[bit] := false;
      }
    }

    method Toggle(bit: i32)
      requires bitVal.Length == N_BIT
      modifies bitVal
      ensures bitVal[..] == Local(old(bitVal[..]), OutToggle(bit)).0
    {
      if bit >= 0 && bit < N_BIT {
        bitVal[bit] := !bitVal[bit];
      }
    }

    method WidthCmd(rsp: BinNativeEncoder) returns (ret: i32)
      requires rsp.View().Valid()
      modifies rsp`good, rsp.buf`pos, rsp.buf.arr
      ensures rsp.View().Valid() && rsp.View() == old(rsp.View()).Put(U32Bytes(host, N_BIT)).0 && ret == 0
    {
      var wd := Width();
      var n := rsp.Put(U32Bytes(host, ToU32(wd)));
      ret := 0;
    }

    method SetCmd(param: BinNativeDecoder, rsp: BinNativeEncoder, junk: i32) returns (ret: i32)
      requires Separate(param, rsp) && bitVal.Length == N_BIT
      modifies param`good, param.buf`pos, bitVal
      ensures Separate(param, rsp)
      ensures (bitVal[..], ret, param.View(), rsp.View())
              == Handle(host, OutSetCmd, junk, old(bitVal[..]), old(param.View()), old(rsp.View()))
    {
      hide GetI32, GetBool;
      var bit := ExtractI32(host, param, junk);
      var b := ExtractBool(param, true);
      Set(bit, b);
      ret := 0;
    }

    method ClearCmd(param: BinNativeDecoder, rsp: BinNativeEncoder, junk: i32) returns (ret: i32)
      requires Separate(param, rsp) && bitVal.Length == N_BIT
      modifies param`good, param.buf`pos, bitVal
      ensures Separate(param, rsp)
      ensures (bitVal[..], ret, param.View(), rsp.View())
              == Handle(host, OutClearCmd, junk, old(bitVal[..]), old(param.View()), old(rsp.View()))
    {
      hide GetI32, GetBool;
      var bit := ExtractI32(host, param, junk);
      Clear(bit);
      ret := 0;
    }

    method ToggleCmd(param: BinNativeDecoder, rsp: BinNativeEncoder, junk: i32) returns (ret: i32)
      requires Separate(param, rsp) && bitVal.Length == N_BIT
      modifies param`good, param.buf`pos, bitVal
      ensures Separate(param, rsp)
      ensures (bitVal[..], ret, param.View(), rsp.View())
              == Handle(host, OutToggleCmd, junk, old(bitVal[..]), old(param.View()), old(rsp.View()))
    {
      hide GetI32, GetBool;
      var bit := ExtractI32(host, param, junk);
      Toggle(bit);
      ret := 0;
    }

    method InvokeOp(op: u32, param: BinNativeDecoder, rsp: BinNativeEncoder, junk: i32) returns (ret: i32)
      requires Separate(param, rsp) && bitVal.Length == N_BIT
      modifies param`good, param.buf`pos, rsp`good, rsp.buf`pos, rsp.buf.arr, bitVal
      ensures Separate(param, rsp)
      ensures (bitVal[..], ret, param.View(), rsp.View())
              == DigIO.Invoke(host, junk, old(bitVal[..]), DIG_OUT, op, old(param.View()), old(rsp.View()))
    {
      var p := GetMbrPtr(DIG_OUT_MAP, op);
      match p
      case None => ret := -CFXE_UNKNOWN_CMD;
      case Some(h) =>
        FindsOwn(DIG_OUT_MAP, op);
        match h {
          case OutWidthCmd => ret := WidthCmd(rsp);
          case OutSetCmd => ret := SetCmd(param, rsp, junk);
          case OutClearCmd => ret := ClearCmd(param, rsp, junk);
          case OutToggleCmd => ret := ToggleCmd(param, rsp, junk);
        }
    }
  }

  /** The registrations of the simulator. */
  method RegisterPorts(behind: nat) returns (reg: DistObjRegistry)
    ensures fresh(reg) && reg.Valid(2) && reg.objMap[..2] == DIG_OBJECTS
  {
    reg := new DistObjRegistry(behind);
    var i := reg.RegisterObj(TgtObj(DIST_OBJ_CLASS_DIG_IN, 0), DIG_IN, 0);
    i := reg.RegisterObj(TgtObj(DIST_OBJ_CLASS_DIG_OUT, 0), DIG_OUT, 1);
  }

  /** A request packet went out; `cmd0` is what its buffer held before. */
  predicate Requested(host: Order, before: seq<byte>, after: seq<byte>, cmd0: Memory, req: Request) {
    after == before + SendBytes(host, MSG_TYPE_CMD, Packet(host, cmd0, req))
  }

  /** The response was taken off the channel and gave the result of the call. */
  predicate Returned(host: Order, before: seq<byte>, after: seq<byte>, rsp0: Memory, call: Call, result: Result) {
    var r := Receive(host, Fresh(rsp0), before);
    r.Some? && after == r.value.2 && result == ResultOf(host, call, r.value.0, r.value.1)
  }

  lemma AnswerFits(host: Order, inp: seq<byte>, rsp0: Memory)
    requires |inp| >= 16 ==> AnnouncedSize(host, inp) <= DFLT_CMD_RSP_SIZE
    ensures Receive(host, Fresh(rsp0), inp).Some?
  {
  }

  /** The stubs of both ports, each bound to a server connection and a target object. */
  class DigStub {
    const srv: DistObjSrvr<Bits>

    constructor (srv: DistObjSrvr<Bits>)
      ensures this.srv == srv
    {
      this.srv := srv;
    }

    method PutCmdHdr(enc: BinNativeEncoder, tgtObj: u32, cmd: u32)
      requires enc.View().Valid()
      modifies srv`msgId, enc`good, enc.buf`pos, enc.buf.arr
      ensures srv.msgId == (old(srv.msgId) + 1) % 0x1_0000_0000
      ensures enc.View().Valid()
      ensures enc.View() == PutAll(old(enc.View()), CmdValues(srv.host, Request(old(srv.msgId), tgtObj, cmd, [])))
    {
      hide U32Bytes;
      ghost var c := enc.View();
      var host := srv.host;
      var id := srv.NextMsgId();
      var n := enc.Put(U32Bytes(host, id));
      n := enc.Put(U32Bytes(host, tgtObj));
      n := enc.Put(U32Bytes(host, cmd));
      PutAllMore(c, [], U32Bytes(host, id));
      PutAllMore(c, [U32Bytes(host, id)], U32Bytes(host, tgtObj));
      PutAllMore(c, [U32Bytes(host, id), U32Bytes(host, tgtObj)], U32Bytes(host, cmd));
      assert [U32Bytes(host, id), U32Bytes(host, tgtObj)] + [U32Bytes(host, cmd)]
          == CmdValues(host, Request(id, tgtObj, cmd, []));
    }

    /** The peer's answer will fit the stub's buffer. */
    ghost predicate Answered()
      reads this, srv, srv.port
    {
      |srv.port.inp| >= 16 ==> AnnouncedSize(srv.host, srv.port.inp) <= DFLT_CMD_RSP_SIZE
    }

    /** The two buffers of a call and the encoder of its packet, behind the command header. */
    method Begin(tgtObj: u32, op: u32)
      returns (cmd: Buffer<byte>, rsp: Buffer<byte>, enc: BinNativeEncoder, ghost cmd0: Memory, ghost rsp0: Memory)
      modifies srv`msgId
      ensures srv.msgId == (old(srv.msgId) + 1) % 0x1_0000_0000
      ensures fresh(cmd) && fresh(cmd.arr) && fresh(rsp) && fresh(rsp.arr) && fresh(enc)
      ensures enc.buf == cmd && cmd != rsp && cmd.arr != rsp.arr && rsp.View() == Fresh(rsp0) && enc.View().Valid()
      ensures enc.View() ==
              PutAll(Codec(Fresh(cmd0), true), CmdValues(srv.host, Request(old(srv.msgId), tgtObj, op, [])))
    {
      cmd := new Buffer<byte>(DFLT_CMD_RSP_SIZE);
      rsp := new Buffer<byte>(DFLT_CMD_RSP_SIZE);
      cmd0, rsp0 := cmd.arr[..], rsp.arr[..];
      enc := new BinNativeEncoder(cmd);
      PutCmdHdr(enc, tgtObj, op);
    }

    /** Flips the packet, sends it and waits for the answer. */
    method Transact(cmd: Buffer<byte>, rsp: Buffer<byte>, ghost cmd0: Memory, ghost rsp0: Memory, ghost req: Request)
      returns (reply: int)
      requires Answered() && cmd.Valid() && cmd.View().Flip() == Packet(srv.host, cmd0, req)
      requires cmd != rsp && cmd.arr != rsp.arr && rsp.View() == Fresh(rsp0)
      modifies srv.port, cmd`pos, cmd`lim, cmd`mark, rsp`pos, rsp`lim, rsp`mark, rsp.arr
      ensures Requested(srv.host, old(srv.port.outp), srv.port.outp, cmd0, req)
      ensures var r := Receive(srv.host, Fresh(rsp0), old(srv.port.inp));
              r.Some? && rsp.Valid() && (reply, rsp.View(), srv.port.inp) == r.value
    {
      cmd.Flip();
      AnswerFits(srv.host, srv.port.inp, rsp0);
      reply := srv.Send(MSG_TYPE_CMD, cmd, rsp);
    }

    method InputWidth() returns (wd: i32, ghost cmd0: Memory, ghost rsp0: Memory)
      requires Answered()
      modifies srv`msgId, srv.port
      ensures srv.msgId == (old(srv.msgId) + 1) % 0x1_0000_0000
      ensures Requested(srv.host, old(srv.port.outp), srv.port.outp, cmd0, RequestOf(srv.host, old(srv.msgId), InWidth))
      ensures Returned(srv.host, old(srv.port.inp), srv.port.inp, rsp0, InWidth, Number(wd))
    {
      hide U32Bytes, I32Bytes, GetI32, GetBool, AnnouncedSize, Receive, Requested, PutAll, CmdValues;
      var cmd, rsp, enc;
      cmd, rsp, enc, cmd0, rsp0 := Begin(TgtObj(DIST_OBJ_CLASS_DIG_IN, 0), 0);
      ghost var req := RequestOf(srv.host, old(srv.msgId), InWidth);
      Packed(srv.host, cmd0, req);
      var reply := Transact(cmd, rsp, cmd0, rsp0, req);
      if reply != 0 {
        return 0, cmd0, rsp0;
      }
      var rspDecoder := new BinNativeDecoder(rsp);
      wd := ExtractI32(srv.host, rspDecoder, 0);
    }

    method Value(bit: i32) returns (val: bool, ghost cmd0: Memory, ghost rsp0: Memory)
      requires Answered()
      modifies srv`msgId, srv.port
      ensures srv.msgId == (old(srv.msgId) + 1) % 0x1_0000_0000
      ensures var req := RequestOf(srv.host, old(srv.msgId), InValue(bit));
              Requested(srv.host, old(srv.port.outp), srv.port.outp, cmd0, req)
      ensures Returned(srv.host, old(srv.port.inp), srv.port.inp, rsp0, InValue(bit), Flag(val))
    {
      hide U32Bytes, I32Bytes, GetI32, GetBool, AnnouncedSize, Receive, Requested, PutAll, CmdValues;
      var cmd, rsp, enc;
      cmd, rsp, enc, cmd0, rsp0 := Begin(TgtObj(DIST_OBJ_CLASS_DIG_IN, 0), 1);
      var n := enc.Put(U32Bytes(srv.host, ToU32(bit)));
      ghost var req := RequestOf(srv.host, old(srv.msgId), InValue(bit));
      Packed(srv.host, cmd0, req);
      var reply := Transact(cmd, rsp, cmd0, rsp0, req);
      if reply != 0 {
        return false, cmd0, rsp0;
      }
      var rspDecoder := new BinNativeDecoder(rsp);
      val := ExtractBool(rspDecoder, false);
    }

    method OutputWidth() returns (wd: i32, ghost cmd0: Memory, ghost rsp0: Memory)
      requires Answered()
      modifies srv`msgId, srv.port
      ensures srv.msgId == (old(srv.msgId) + 1) % 0x1_0000_0000
      ensures var req := RequestOf(srv.host, old(srv.msgId), OutWidth);
              Requested(srv.host, old(srv.port.outp), srv.port.outp, cmd0, req)
      ensures Returned(srv.host, old(srv.port.inp), srv.port.inp, rsp0, OutWidth, Number(wd))
    {
      hide U32Bytes, I32Bytes, GetI32, GetBool, AnnouncedSize, Receive, Requested, PutAll, CmdValues;
      var cmd, rsp, enc;
      cmd, rsp, enc, cmd0, rsp0 := Begin(TgtObj(DIST_OBJ_CLASS_DIG_OUT, 0), 0);
      ghost var req := RequestOf(srv.host, old(srv.msgId), OutWidth);
      Packed(srv.host, cmd0, req);
      var reply := Transact(cmd, rsp, cmd0, rsp0, req);
      if reply != 0 {
        return 0, cmd0, rsp0;
      }
      var rspDecoder := new BinNativeDecoder(rsp);
      wd := ExtractI32(srv.host, rspDecoder, 0);
    }

    method Set(bit: i32, b: bool) returns (ghost cmd0: Memory, ghost rsp0: Memory)
      requires Answered()
      modifies srv`msgId, srv.port
      ensures srv.msgId == (old(srv.msgId) + 1) % 0x1_0000_0000
      ensures var req := RequestOf(srv.host, old(srv.msgId), OutSet(bit, b));
              Requested(srv.host, old(srv.port.outp), srv.port.outp, cmd0, req)
      ensures Returned(srv.host, old(srv.port.inp), srv.port.inp, rsp0, OutSet(bit, b), Unit)
    {
      hide U32Bytes, I32Bytes, GetI32, GetBool, AnnouncedSize, Receive, Requested, PutAll, CmdValues;
      var cmd, rsp, enc;
      cmd, rsp, enc, cmd0, rsp0 := Begin(TgtObj(DIST_OBJ_CLASS_DIG_OUT, 0), 1);
      var n := enc.Put(I32Bytes(srv.host, bit));
      n := enc.Put(BoolBytes(b));
      ghost var req := RequestOf(srv.host, old(srv.msgId), OutSet(bit, b));
      Packed(srv.host, cmd0, req);
      var reply := Transact(cmd, rsp, cmd0, rsp0, req);
    }

    method Clear(bit: i32) returns (ghost cmd0: Memory, ghost rsp0: Memory)
      requires Answered()
      modifies srv`msgId, srv.port
      ensures srv.msgId == (old(srv.msgId) + 1) % 0x1_0000_0000
      ensures var req := RequestOf(srv.host, old(srv.msgId), OutClear(bit));
              Requested(srv.host, old(srv.port.outp), srv.port.outp, cmd0, req)
      ensures Returned(srv.host, old(srv.port.inp), srv.port.inp, rsp0, OutClear(bit), Unit)
    {
      hide U32Bytes, I32Bytes, GetI32, GetBool, AnnouncedSize, Receive, Requested, PutAll, CmdValues;
      var cmd, rsp, enc;
      cmd, rsp, enc, cmd0, rsp0 := Begin(TgtObj(DIST_OBJ_CLASS_DIG_OUT, 0), 2);
      var n := enc.Put(I32Bytes(srv.host, bit));
      ghost var req := RequestOf(srv.host, old(srv.msgId), OutClear(bit));
      Packed(srv.host, cmd0, req);
      var reply := Transact(cmd, rsp, cmd0, rsp0, req);
    }

    method Toggle(bit: i32) returns (ghost cmd0: Memory, ghost rsp0: Memory)
      requires Answered()
      modifies srv`msgId, srv.port
      ensures srv.msgId == (old(srv.msgId) + 1) % 0x1_0000_0000
      ensures var req := RequestOf(srv.host, old(srv.msgId), OutToggle(bit));
              Requested(srv.host, old(srv.port.outp), srv.port.outp, cmd0, req)
      ensures Returned(srv.host, old(srv.port.inp), srv.port.inp, rsp0, OutToggle(bit), Unit)
    {
      hide U32Bytes, I32Bytes, GetI32, GetBool, AnnouncedSize, Receive, Requested, PutAll, CmdValues;
      var cmd, rsp, enc;
      cmd, rsp, enc, cmd0, rsp0 := Begin(TgtObj(DIST_OBJ_CLASS_DIG_OUT, 0), 3);
      var n := enc.Put(I32Bytes(srv.host, bit));
      ghost var req := RequestOf(srv.host, old(srv.msgId), OutToggle(bit));
      Packed(srv.host, cmd0, req);
      var reply := Transact(cmd, rsp, cmd0, rsp0, req);
    }
  }

  /** A packet is the command header with the arguments put behind it one by one. */
  lemma Packed(host: Order, mem: Memory, req: Request)
    ensures var hdr := PutAll(Codec(Fresh(mem), true), CmdValues(host, req.(args := [])));
            && Packet(host, mem, req) == PutAll(hdr, req.args).buf.Flip()
            && (|req.args| == 1 ==> PutAll(hdr, req.args) == hdr.Put(req.args[0]).0)
            && (|req.args| == 2 ==> PutAll(hdr, req.args) == hdr.Put(req.args[0]).0.Put(req.args[1]).0)
  {
    var c := Codec(Fresh(mem), true);
    var vs := CmdValues(host, req.(args := []));
    assert vs + req.args == CmdValues(host, req);
    PutAllSplit(c, vs, req.args);
    if |req.args| == 1 {
      assert req.args == [req.args[0]];
    } else if |req.args| == 2 {
      assert req.args == [req.args[0]] + [req.args[1]];
      PutAllMore(PutAll(c, vs), [req.args[0]], req.args[1]);
    }
  }

  /** Stub and server together: when what a stub sends reaches the server, behind any junk
      without a 'C', and what the server sends is what the stub receives, then the stub returns
      what the local call returns, the server's bits are those of the local call, and nothing is
      left on the channel. */
  lemma StubSeesLocal(host: Order, srv: Server<Bits>, junk: seq<byte>, m0: byte, m1: byte, bit0: i32,
          id: u32, call: Call, before: seq<byte>, sent: seq<byte>, cmd0: Memory, rsp0: Memory,
          inp: seq<byte>, after: seq<byte>, result: Result)
    requires srv.Valid() && |srv.cmdBuf.mem| >= 17 && |srv.rspBuf.mem| >= 4 && PacketHeader.C !in junk
    requires Requested(host, before, before + sent, cmd0, RequestOf(host, id, call))
    requires var round := ServeNext(host, DigDispatch(host, bit0), srv, junk + sent, m0, m1);
             round.Some? && inp == round.value.out
    requires Returned(host, inp, after, rsp0, call, result)
    ensures var round := ServeNext(host, DigDispatch(host, bit0), srv, junk + sent, m0, m1).value;
            && result == Local(srv.objs, call).1 && after == []
            && round.srv.objs == Local(srv.objs, call).0 && round.rest == []
  {
    hide ServeNext, Receive, SendBytes, Received, Answers, U32Bytes, I32Bytes, Wrote, AnswerOf, Responds, ResultOf,
        DigDispatch;
    var req, ans := RequestOf(host, id, call), AnswerOf(host, srv.objs, call);
    var cmd := PacketIsWritten(host, cmd0, id, call);
    assert sent == (before + sent)[|before|..] == SendBytes(host, MSG_TYPE_CMD, cmd.buf.Flip());
    assert sent + [] == sent;
    CallAnswered(host, bit0, srv.objs, id, call, |srv.rspBuf.mem|);
    var round := RequestServed(host, DigDispatch(host, bit0), srv, junk, cmd, [], m0, m1, req, ans);
    SmallAnswer(host, srv.objs, call);
    AnswerParts(host, srv.objs, call);
    ReceivesResponse(host, Fresh(rsp0), round.out, id, 0, ans.outs, End(0, Chunks(ans.outs)));
    ResultArrives(host, srv.objs, call, Fresh(rsp0), Receive(host, Fresh(rsp0), inp).value.1);
  }
}
