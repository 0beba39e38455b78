/** The digital I/O ports as remote objects: the implementation of
    examples/DistObj/DigIOSim/DigIOSim.cpp, the skeletons of src/DistObj/DigIO_skel.cpp and the
    stubs of src/DistObj/DigIO_stub.cpp, first as functions. */
module DigIO {
  import opened Layout
  import opened HostBytes
  import opened Buffers
  import opened BufCodec
  import opened DistObj
  import opened DistObjServer
  import PacketHeader

  const N_BIT: nat := 32

  type Bits = s: seq<bool> | |s| == N_BIT witness seq(N_BIT, _ => false)

  /** The calls on the two ports. */
  datatype Call =
    | InWidth
    | InValue(bit: i32)
    | OutWidth
    | OutSet(bit: i32, b: bool)
    | OutClear(bit: i32)
    | OutToggle(bit: i32)

  datatype Result = Unit | Number(n: i32) | Flag(b: bool)

  // ----- The local objects -----

  function ValueOf(bits: Bits, bit: i32): bool {
    if 0 <= bit < N_BIT then bits[bit] else false
  }

  /** Only the addressed bit changes, and a bit outside the port is ignored. */
  function Store(bits: Bits, bit: i32, b: bool): (r: Bits)
    ensures forall k: i32 :: ValueOf(r, k) == if k == bit && 0 <= k < N_BIT then b else ValueOf(bits, k)
  {
    if 0 <= bit < N_BIT then bits[bit := b] else bits
  }

  /** A call made directly on the objects. */
  function Local(bits: Bits, call: Call): (Bits, Result) {
    match call
    case InWidth => (bits, Number(N_BIT))
    case InValue(bit) => (bits, Flag(ValueOf(bits, bit)))
    case OutWidth => (bits, Number(N_BIT))
    case OutSet(bit, b) => (Store(bits, bit, b), Unit)
    case OutClear(bit) => (Store(bits, bit, false), Unit)
    case OutToggle(bit) => (Store(bits, bit, !ValueOf(bits, bit)), Unit)
  }

  /** What the calls do to each bit and what they return. */
  lemma LocalBits(bits: Bits, bit: i32, b: bool, k: nat)
    requires k < 32
    ensures Local(bits, OutSet(bit, b)).0[k] == if k == bit then b else bits[k]
    ensures Local(bits, OutClear(bit)).0[k] == if k == bit then false else bits[k]
    ensures Local(bits, OutToggle(bit)).0[k] == if k == bit then !bits[k] else bits[k]
    ensures Local(bits, InWidth) == Local(bits, OutWidth) == (bits, Number(32))
    ensures Local(bits, InValue(k)) == (bits, Flag(bits[k]))
    ensures bit < 0 || bit >= 32 ==> Local(bits, InValue(bit)) == (bits, Flag(false))
    ensures Local(bits, OutSet(bit, b)).1 == Local(bits, OutClear(bit)).1 == Local(bits, OutToggle(bit)).1 == Unit
  {
  }

  // ----- The skeletons -----

  /** The command handlers. */
  datatype Handler = InWidthCmd | InValueCmd | OutWidthCmd | OutSetCmd | OutClearCmd | OutToggleCmd

  /** A row of a method map; the map ends with a row without a handler. */
  datatype MethodMap = MethodMap(op: u32, mptr: Option<Handler>)

  const DIG_IN_MAP: seq<MethodMap> := [
    MethodMap(0, Some(InWidthCmd)), MethodMap(1, Some(InValueCmd)), MethodMap(0xFFFF_FFFF, None)]

  const DIG_OUT_MAP: seq<MethodMap> := [
    MethodMap(0, Some(OutWidthCmd)), MethodMap(1, Some(OutSetCmd)), MethodMap(2, Some(OutClearCmd)),
    MethodMap(3, Some(OutToggleCmd)), MethodMap(0xFFFF_FFFF, None)]

  /** The search ends at the row without a handler. */
  predicate Terminated(methods: seq<MethodMap>) {
    methods != [] && methods[|methods| - 1].mptr.None?
  }

  function Find(methods: seq<MethodMap>, op: u32): (p: Option<Handler>)
    requires Terminated(methods)
    decreases |methods|
  {
    if methods[0].mptr.None? then None
    else if methods[0].op == op then methods[0].mptr
    else Find(methods[1..], op)
  }

  function BoolBytes(b: bool): (v: Value)
    ensures |v| == 1
  {
    [if b then 1 else 0]
  }

  function GetI32(host: Order, d: ValidCodec, was: i32): (ValidCodec, i32) {
    var (d', v) := d.Get(4);
    (d', if v.None? then was else I32Of(host, v.value))
  }

  function GetBool(d: ValidCodec, was: bool): (ValidCodec, bool) {
    var (d', v) := d.Get(1);
    (d', if v.None? then was else v.value[0] != 0)
  }

  /** A handler; `junk` is what its uninitialised `bit` holds. */
  function Handle(host: Order, h: Handler, junk: i32, bits: Bits, d: ValidCodec, e: ValidCodec): (Bits, i32,
          ValidCodec, ValidCodec) {
    match h
    case InWidthCmd => (bits, 0, d, e.Put(U32Bytes(host, N_BIT)).0)
    case InValueCmd =>
      var (d1, bit) := GetI32(host, d, junk);
      (bits, 0, d1, e.Put(BoolBytes(ValueOf(bits, bit))).0)
    case OutWidthCmd => (bits, 0, d, e.Put(U32Bytes(host, N_BIT)).0)
    case OutSetCmd =>
      var (d1, bit) := GetI32(host, d, junk);
      var (d2, b) := GetBool(d1, true);
      (Store(bits, bit, b), 0, d2, e)
    case OutClearCmd =>
      var (d1, bit) := GetI32(host, d, junk);
      (Store(bits, bit, false), 0, d1, e)
    case OutToggleCmd =>
      var (d1, bit) := GetI32(host, d, junk);
      (Store(bits, bit, !ValueOf(bits, bit)), 0, d1, e)
  }

  const DIG_IN: nat := 1
  const DIG_OUT: nat := 2

  /** `invoke` of the port numbered `obj`. */
  function Invoke(host: Order, junk: i32, bits: Bits, obj: nat, op: u32, d: ValidCodec, e: ValidCodec): (Bits, i32,
          ValidCodec, ValidCodec) {
    var p := Find(if obj == DIG_IN then DIG_IN_MAP else DIG_OUT_MAP, op);
    if p.Some? then Handle(host, p.value, junk, bits, d, e)
    else (bits, if obj == DIG_IN then -1 else -CFXE_UNKNOWN_CMD, d, e)
  }

  function TgtObj(cls: u16, inst: u16): u32 { 0x1_0000 * cls + inst }

  const DIST_OBJ_CLASS_DIG_IN: u16 := 1
  const DIST_OBJ_CLASS_DIG_OUT: u16 := 2

  /** The objects the simulator registers. */
  const DIG_OBJECTS: seq<Entry> := [
    Entry(TgtObj(DIST_OBJ_CLASS_DIG_IN, 0), DIG_IN), Entry(TgtObj(DIST_OBJ_CLASS_DIG_OUT, 0), DIG_OUT)]

  function DigInvoke(host: Order, junk: i32): DistObjServer.Invoke<Bits> {
    (bits, obj, op, d, e) => Invoke(host, junk, bits, obj, op, d, e)
  }

  function DigDispatch(host: Order, junk: i32): Dispatch<Bits> {
    Dispatcher(DIG_OBJECTS, DigInvoke(host, junk))
  }

  // ----- The stubs -----

  function OpOf(call: Call): u32 {
    match call
    case InWidth => 0
    case InValue(_) => 1
    case OutWidth => 0
    case OutSet(_, _) => 1
    case OutClear(_) => 2
    case OutToggle(_) => 3
  }

  function TargetOf(call: Call): u32 {
    if call.InWidth? || call.InValue? then TgtObj(DIST_OBJ_CLASS_DIG_IN, 0) else TgtObj(DIST_OBJ_CLASS_DIG_OUT, 0)
  }

  /** What the stub puts behind the command header. */
  function ArgsOf(host: Order, call: Call): seq<Value> {
    match call
    case InWidth => []
    case InValue(bit) => [U32Bytes(host, ToU32(bit))]
    case OutWidth => []
    case OutSet(bit, b) => [I32Bytes(host, bit), BoolBytes(b)]
    case OutClear(bit) => [I32Bytes(host, bit)]
    case OutToggle(bit) => [I32Bytes(host, bit)]
  }

  function RequestOf(host: Order, id: u32, call: Call): Request {
    Request(id, TargetOf(call), OpOf(call), ArgsOf(host, call))
  }

  /** The numbers and values on the wire. */
  lemma WireNumbers(host: Order, cls: u16, inst: u16, bit: i32, b: bool)
    ensures TgtObj(cls, inst) / 0x1_0000 == cls && TgtObj(cls, inst) % 0x1_0000 == inst
    ensures TargetOf(InWidth) == TargetOf(InValue(bit)) == 0x1_0000
    ensures TargetOf(OutWidth) == TargetOf(OutSet(bit, b)) == 0x2_0000
    ensures TargetOf(OutClear(bit)) == TargetOf(OutToggle(bit)) == 0x2_0000
    ensures OpOf(InWidth) == 0 && OpOf(InValue(bit)) == 1
    ensures OpOf(OutWidth) == 0 && OpOf(OutSet(bit, b)) == 1 && OpOf(OutClear(bit)) == 2 && OpOf(OutToggle(bit)) == 3
    ensures ArgsOf(host, OutSet(bit, b)) == [I32Bytes(host, bit), [if b then 1 else 0]]
    ensures ArgsOf(host, OutClear(bit)) == ArgsOf(host, OutToggle(bit)) == [I32Bytes(host, bit)]
    ensures ArgsOf(host, InValue(bit)) == [I32Bytes(host, bit)]
    ensures ArgsOf(host, InWidth) == ArgsOf(host, OutWidth) == []
  {
    hide U32Bytes;
  }

  /** What the stub returns for an answer and the buffer the response went into. */
  function ResultOf(host: Order, call: Call, reply: int, rsp: Buf<byte>): Result
    requires rsp.Valid()
  {
    match call
    case InWidth => Number(if reply != 0 then 0 else GetI32(host, Codec(rsp, true), 0).1)
    case InValue(_) => Flag(if reply != 0 then false else GetBool(Codec(rsp, true), false).1)
    case OutWidth => Number(if reply != 0 then 0 else GetI32(host, Codec(rsp, true), 0).1)
    case OutSet(_, _) => Unit
    case OutClear(_) => Unit
    case OutToggle(_) => Unit
  }

  /** When the answer is not 0 a stub returns 0 or false and does not look at the response. */
  lemma FailureGivesDefaults(host: Order, bit: i32, reply: int, rsp: Buf<byte>)
    requires rsp.Valid() && reply != 0
    ensures ResultOf(host, InWidth, reply, rsp) == ResultOf(host, OutWidth, reply, rsp) == Number(0)
    ensures ResultOf(host, InValue(bit), reply, rsp) == Flag(false)
  {
  }

  /** Uninitialised memory during a call: the stub's two buffers, the two bytes of the header
      scan and the handler's `bit`. */
  datatype Frame = Frame(cmd: Memory, rsp: Memory, m0: byte, m1: byte, junk: i32)

  /** The packet a stub builds in a fresh buffer. */
  function Packet(host: Order, mem: Memory, req: Request): (b: Buf<byte>)
    ensures b.Valid() && b.pos <= b.lim
  {
    PutAll(Codec(Fresh(mem), true), CmdValues(host, req)).buf.Flip()
  }

  /** A call through the stub, the channel, the server and the skeleton. */
  function Remote(host: Order, link: Link<Bits>, id: u32, call: Call, f: Frame): (r: Option<(Result, Link<Bits>)>)
    requires link.srv.Valid()
    ensures r.Some? ==> r.value.1.srv.Valid()
  {
    var packet := Packet(host, f.cmd, RequestOf(host, id, call));
    match Exchange(host, DigDispatch(host, f.junk), link, f.m0, f.m1, packet, Fresh(f.rsp))
    case None => None
    case Some((reply, rsp, link')) => Some((ResultOf(host, call, reply, rsp), link'))
  }

  // ----- Any number of calls -----

  function LocalSession(bits: Bits, calls: seq<Call>): (seq<Result>, Bits)
    decreases |calls|
  {
    if calls == [] then ([], bits)
    else
      var (bits1, r) := Local(bits, calls[0]);
      var (rs, bits2) := LocalSession(bits1, calls[1..]);
      ([r] + rs, bits2)
  }

  /** The same calls through the stubs; message numbers count up and wrap around. */
  function RemoteSession(host: Order, link: Link<Bits>, id: u32, calls: seq<Call>,
          frames: seq<Frame>): (r: Option<(seq<Result>, Link<Bits>)>)
    requires link.srv.Valid() && |frames| == |calls|
    decreases |calls|
  {
    if calls == [] then Some(([], link))
    else
      match Remote(host, link, id, calls[0], frames[0])
      case None => None
      case Some((r, link1)) =>
        match RemoteSession(host, link1, (id + 1) % 0x1_0000_0000, calls[1..], frames[1..])
        case None => None
        case Some((rs, link2)) => Some(([r] + rs, link2))
  }

  // ----- Remote means local -----

  function OutsOf(host: Order, r: Result): seq<Value> {
    match r
    case Unit => []
    case Number(n) => [I32Bytes(host, n)]
    case Flag(b) => [BoolBytes(b)]
  }

  function AnswerOf(host: Order, bits: Bits, call: Call): Answer<Bits> {
    var (bits', r) := Local(bits, call);
    Answer(bits', 0, OutsOf(host, r))
  }

  /** The stub makes of the response values what the object returned. */
  lemma ResultArrives(host: Order, bits: Bits, call: Call, rsp: Buf<byte>, rsp': Buf<byte>)
    requires rsp.Valid()
    requires var outs := OutsOf(host, Local(bits, call).1); Received(rsp, rsp', outs, End(0, Chunks(outs)))
    ensures rsp'.Valid() && ResultOf(host, call, 0, rsp') == Local(bits, call).1
  {
    hide I32Of, I32Bytes, Ready;
    var outs := OutsOf(host, Local(bits, call).1);
    EndIsZeroIff(outs);
    if outs != [] {
      ReadyGet(Codec(rsp', true), outs);
      I32RoundTrip(host, N_BIT);
    }
  }

  function HandlerOf(call: Call): Handler {
    match call
    case InWidth => InWidthCmd
    case InValue(_) => InValueCmd
    case OutWidth => OutWidthCmd
    case OutSet(_, _) => OutSetCmd
    case OutClear(_) => OutClearCmd
    case OutToggle(_) => OutToggleCmd
  }

  /** Key and command number of a call lead to its handler. */
  lemma ReachesHandler(host: Order, junk: i32, bits: Bits, call: Call, d: ValidCodec, e: ValidCodec)
    ensures DigDispatch(host, junk)(bits, TargetOf(call), OpOf(call), d, e)
            == Handle(host, HandlerOf(call), junk, bits, d, e)
  {
    hide Handle;
    PortsFound();
    assert Terminated(DIG_IN_MAP) && Terminated(DIG_OUT_MAP);
    assert Find(DIG_IN_MAP, 0) == Some(InWidthCmd) && Find(DIG_IN_MAP, 1) == Some(InValueCmd);
    FindInOut();
  }

  lemma PortsFound()
    ensures Lookup(DIG_OBJECTS, TgtObj(DIST_OBJ_CLASS_DIG_IN, 0)) == DIG_IN
    ensures Lookup(DIG_OBJECTS, TgtObj(DIST_OBJ_CLASS_DIG_OUT, 0)) == DIG_OUT
  {
    var rest := DIG_OBJECTS[1..];
    assert rest[0] == DIG_OBJECTS[1] && TgtObj(1, 0) != TgtObj(2, 0);
    assert Lookup(DIG_OBJECTS, TgtObj(2, 0)) == Lookup(rest, TgtObj(2, 0)) == rest[0].obj;
  }

  lemma FindInOut()
    ensures Find(DIG_OUT_MAP, 0) == Some(OutWidthCmd) && Find(DIG_OUT_MAP, 1) == Some(OutSetCmd)
    ensures Find(DIG_OUT_MAP, 2) == Some(OutClearCmd) && Find(DIG_OUT_MAP, 3) == Some(OutToggleCmd)
  {
    var m := DIG_OUT_MAP;
    assert Find(m, 2) == Find(m[1..], 2) == Find(m[1..][1..], 2);
    assert Find(m, 3) == Find(m[1..], 3) == Find(m[1..][1..], 3) == Find(m[1..][1..][1..], 3);
  }

  /** An argument that was encoded is what the handler reads. */
  lemma ReadsI32(host: Order, d: ValidCodec, bit: i32, rest: seq<Value>, was: i32)
    requires Ready(d, [I32Bytes(host, bit)] + rest)
    ensures var (d', v) := GetI32(host, d, was);
            v == bit && Ready(d', rest) && |d'.buf.mem| == |d.buf.mem| && d'.buf.lim == d.buf.lim
  {
    hide I32Of, I32Bytes, Ready;
    var vs := [I32Bytes(host, bit)] + rest;
    ReadyGet(d, vs);
    assert vs[1..] == rest;
    I32RoundTrip(host, bit);
  }

  lemma ReadsBool(d: ValidCodec, b: bool, was: bool)
    requires Ready(d, [BoolBytes(b)])
    ensures var (d', v) := GetBool(d, was);
            v == b && |d'.buf.mem| == |d.buf.mem|
  {
    ReadyGet(d, [BoolBytes(b)]);
  }

  lemma WritesOne(e: Codec, v: Value)
    requires Wrote(e, []) && |v| <= e.buf.lim
    ensures Wrote(e.Put(v).0, [v]) && |e.Put(v).0.buf.mem| == |e.buf.mem|
  {
    assert [] + [v] == [v];
    assert Chunks([v])[1..] == [];
    WrotePut(e, [], v);
  }

  lemma HandlerAnswers(host: Order, junk: i32, bits: Bits, call: Call, d: ValidCodec, e: ValidCodec)
    requires Ready(d, ArgsOf(host, call)) && Wrote(e, []) && e.buf.lim >= 4
    ensures var r := Handle(host, HandlerOf(call), junk, bits, d, e); var ans := AnswerOf(host, bits, call);
            && r.0 == ans.objs && r.1 == ans.ret && |r.2.buf.mem| == |d.buf.mem|
            && Wrote(r.3, ans.outs) && |r.3.buf.mem| == |e.buf.mem|
  {
    hide Ready, Wrote, I32Bytes, U32Bytes, GetI32, GetBool, ValueOf;
    match call {
      case InWidth => WidthAnswers(host, e);
      case OutWidth => WidthAnswers(host, e);
      case InValue(bit) =>
        assert [I32Bytes(host, bit)] + [] == ArgsOf(host, call) by { UnsignedBit(host, bit); }
        ReadsI32(host, d, bit, [], junk);
        WritesOne(e, BoolBytes(ValueOf(bits, bit)));
      case OutSet(bit, b) =>
        assert [I32Bytes(host, bit)] + [BoolBytes(b)] == ArgsOf(host, call);
        ReadsI32(host, d, bit, [BoolBytes(b)], junk);
        ReadsBool(GetI32(host, d, junk).0, b, true);
      case OutClear(bit) =>
        assert [I32Bytes(host, bit)] + [] == ArgsOf(host, call);
        ReadsI32(host, d, bit, [], junk);
      case OutToggle(bit) =>
        assert [I32Bytes(host, bit)] + [] == ArgsOf(host, call);
        ReadsI32(host, d, bit, [], junk);
    }
  }

  /** The stub passes the bit as unsigned, the handler reads it as signed. */
  lemma UnsignedBit(host: Order, bit: i32)
    ensures U32Bytes(host, ToU32(bit)) == I32Bytes(host, bit)
  {
  }

  lemma WidthAnswers(host: Order, e: ValidCodec)
    requires Wrote(e, []) && e.buf.lim >= 4
    ensures var v := U32Bytes(host, N_BIT);
            v == I32Bytes(host, N_BIT) && Wrote(e.Put(v).0, [v]) && |e.Put(v).0.buf.mem| == |e.buf.mem|
  {
    hide Wrote;
    UnsignedBit(host, N_BIT);
    WritesOne(e, U32Bytes(host, N_BIT));
  }

  lemma CallAnswered(host: Order, junk: i32, bits: Bits, id: u32, call: Call, cap: nat)
    requires cap >= 4
    ensures Answers(DigDispatch(host, junk), bits, RequestOf(host, id, call), cap, AnswerOf(host, bits, call))
  {
    hide Ready, Wrote, Holding, ArgsOf, Handle, HandlerOf, AnswerOf, DigDispatch, TargetOf, OpOf;
    var req := RequestOf(host, id, call);
    forall d: ValidCodec, e: ValidCodec | Ready(d, req.args) && Wrote(e, []) && |e.buf.mem| == e.buf.lim == cap
      ensures var r := DigDispatch(host, junk)(bits, req.tgt, req.op, d, e); var ans := AnswerOf(host, bits, call);
              && r.0 == ans.objs && r.1 == ans.ret && |r.2.buf.mem| == |d.buf.mem|
              && Holding(r.3, ans.outs, End(0, Chunks(ans.outs))) && |r.3.buf.mem| == cap
    {
      ReachesHandler(host, junk, bits, call, d, e);
      HandlerAnswers(host, junk, bits, call, d, e);
      WroteHolds(DigDispatch(host, junk)(bits, req.tgt, req.op, d, e).3, AnswerOf(host, bits, call).outs);
    }
  }

  /** The command packets are at most 17 bytes long. */
  lemma PacketIsWritten(host: Order, mem: Memory, id: u32, call: Call) returns (cmd: Codec)
    ensures Wrote(cmd, CmdValues(host, RequestOf(host, id, call))) && cmd.buf.pos <= 17
    ensures Packet(host, mem, RequestOf(host, id, call)) == cmd.buf.Flip()
  {
    hide U32Bytes, I32Bytes;
    var req := RequestOf(host, id, call);
    var vs := CmdValues(host, req);
    SmallPacket(vs);
    cmd := PutAll(Codec(Fresh(mem), true), vs);
    WroteNothing(Fresh(mem));
    assert [] + vs == vs;
    WrotePutAll(Codec(Fresh(mem), true), [], vs);
  }

  lemma SmallPacket(vs: seq<Value>)
    requires 3 <= |vs| <= 5 && (forall i :: 0 <= i < |vs| && i < 4 ==> |vs[i]| == 4) && (|vs| == 5 ==> |vs[4]| == 1)
    ensures End(0, Chunks(vs)) <= 17
  {
    var cs := Chunks(vs);
    assert End(0, cs) == End(4, cs[1..]) == End(8, cs[1..][1..]) == End(12, cs[1..][1..][1..]);
    var ds := cs[1..][1..][1..];
    if |vs| >= 4 {
      assert ds[0] == cs[3];
      assert End(12, ds) == End(16, ds[1..]);
      if |vs| == 5 {
        assert ds[1..][0] == cs[4];
        assert End(16, ds[1..]) == End(17, ds[1..][1..]);
      }
    }
  }

  /** One remote call is the local call; the channel is empty afterwards, and what is needed for
      the next call holds again. */
  lemma RemoteIsLocal(host: Order, link: Link<Bits>, id: u32, call: Call, f: Frame)
    requires Connected(link)
    ensures var r := Remote(host, link, id, call, f); var (bits, result) := Local(link.srv.objs, call);
            && r.Some? && r.value.0 == result
            && r.value.1.srv.objs == bits && Connected(r.value.1) && r.value.1.up == []
  {
    hide Exchange, Received, Answers, U32Bytes, I32Bytes, Wrote, AnswerOf;
    var bits := link.srv.objs;
    var req := RequestOf(host, id, call);
    var cmd := PacketIsWritten(host, f.cmd, id, call);
    CallAnswered(host, f.junk, bits, id, call, |link.srv.rspBuf.mem|);
    SmallAnswer(host, bits, call);
    var ans := AnswerOf(host, bits, call);
    ExchangeDelivers(host, DigDispatch(host, f.junk), link, f.m0, f.m1, cmd, Fresh(f.rsp), req, ans);
    var rsp' := Exchange(host, DigDispatch(host, f.junk), link, f.m0, f.m1, cmd.buf.Flip(), Fresh(f.rsp)).value.1;
    AnswerParts(host, bits, call);
    ResultArrives(host, bits, call, Fresh(f.rsp), rsp');
  }

  lemma AnswerParts(host: Order, bits: Bits, call: Call)
    ensures var ans := AnswerOf(host, bits, call); var (bits', r) := Local(bits, call);
            ans.objs == bits' && ans.ret == 0 && ans.outs == OutsOf(host, r)
  {
  }

  lemma SmallAnswer(host: Order, bits: Bits, call: Call)
    ensures End(0, Chunks(AnswerOf(host, bits, call).outs)) <= 4
  {
    hide I32Bytes;
    var outs := AnswerOf(host, bits, call).outs;
    if outs != [] {
      assert Chunks(outs)[1..] == [];
    }
  }

  /** A server with room for the packets, and nothing in the channel but junk without a 'C' on
      the way to the server. */
  predicate Connected(link: Link<Bits>) {
    && link.srv.Valid() && |link.srv.cmdBuf.mem| >= 17 && |link.srv.rspBuf.mem| >= 4
    && PacketHeader.C !in link.up && link.down == []
  }

  /** Every session through the stubs returns what the same calls on the objects themselves
      return, leaves the same bits, and leaves the channel empty. */
  lemma {:induction false} SessionsAgree(host: Order, link: Link<Bits>, id: u32, calls: seq<Call>, frames: seq<Frame>)
    requires Connected(link) && |frames| == |calls|
    ensures var r := RemoteSession(host, link, id, calls, frames);
            var (results, bits) := LocalSession(link.srv.objs, calls);
            && r.Some? && r.value.0 == results
            && r.value.1.srv.objs == bits && Connected(r.value.1) && (calls != [] ==> r.value.1.up == [])
    decreases |calls|
  {
    hide Remote, Local;
    if calls != [] {
      RemoteIsLocal(host, link, id, calls[0], frames[0]);
      var link1 := Remote(host, link, id, calls[0], frames[0]).value.1;
      SessionsAgree(host, link1, (id + 1) % 0x1_0000_0000, calls[1..], frames[1..]);
    }
  }

  /** The value of `set` is optional on the wire: without it the bit goes high. */
  lemma SetWithoutValueSetsHigh(host: Order, junk: i32, bits: Bits, bit: i32, d: ValidCodec, e: ValidCodec)
    requires Ready(d, [I32Bytes(host, bit)]) && End(d.buf.pos, Chunks([I32Bytes(host, bit)])) == d.buf.lim
    ensures Handle(host, OutSetCmd, junk, bits, d, e).0 == Local(bits, OutSet(bit, true)).0
  {
    hide I32Bytes;
    assert [I32Bytes(host, bit)] + [] == [I32Bytes(host, bit)];
    ReadsI32(host, d, bit, [], junk);
    ReadyGet(d, [I32Bytes(host, bit)]);
  }

  /** A command number without a handler: -1 from the input port, an error code from the output
      port; nothing changes. */
  lemma UnknownCommand(host: Order, junk: i32, bits: Bits, op: u32, d: ValidCodec, e: ValidCodec)
    ensures op >= 2 ==> DigDispatch(host, junk)(bits, TgtObj(1, 0), op, d, e) == (bits, -1, d, e)
    ensures op >= 4 ==> DigDispatch(host, junk)(bits, TgtObj(2, 0), op, d, e) == (bits, -7, d, e)
  {
    PortsFound();
    var m, n := DIG_IN_MAP, DIG_OUT_MAP;
    if op >= 2 {
      assert Find(m, op) == Find(m[1..], op) == Find(m[1..][1..], op);
    }
    if op >= 4 {
      assert Find(n, op) == Find(n[1..], op) == Find(n[1..][1..], op) == Find(n[1..][1..][1..], op)
          == Find(n[1..][1..][1..][1..], op);
    }
  }

  /** Through the server such a command gets its error code alone. */
  lemma UnknownCommandAnswered(host: Order, junk: i32, srv: Server<Bits>, d: ValidCodec, rest: seq<byte>)
    requires srv.Valid()
    requires var s := GetCmdHdr(host, srv, d).0;
             || (s.tgtObj == TgtObj(DIST_OBJ_CLASS_DIG_IN, 0) && s.operation >= 2)
             || (s.tgtObj == TgtObj(DIST_OBJ_CLASS_DIG_OUT, 0) && s.operation >= 4)
    ensures var r := ServeCommand(host, DigDispatch(host, junk), srv, d, rest);
            && Handled(host, DigDispatch(host, junk), srv, d).1 < 0
            && |r.out| == 16 && r.srv.objs == srv.objs
  {
    hide DigDispatch, U32Bytes, I32Bytes, GetU32;
    var (s, d1) := GetCmdHdr(host, srv, d);
    UnknownCommand(host, junk, srv.objs, s.operation, d1, Codec(srv.rspBuf, true).Clear());
    UntouchedResponseIsEmpty(host, DigDispatch(host, junk), srv, d, rest);
  }

  /** Only dispatching fails, never a handler. */
  lemma FailureTouchesNothing(host: Order, junk: i32, bits: Bits, tgt: u32, op: u32, d: ValidCodec, e: ValidCodec)
    ensures var r := DigDispatch(host, junk)(bits, tgt, op, d, e);
            r.1 < 0 ==> r.0 == bits && r.2 == d && r.3 == e
  {
    hide Lookup, Find, Handle;
    forall h { HandlersSucceed(host, h, junk, bits, d, e); }
  }

  lemma HandlersSucceed(host: Order, h: Handler, junk: i32, bits: Bits, d: ValidCodec, e: ValidCodec)
    ensures Handle(host, h, junk, bits, d, e).1 == 0
  {
  }

  /** Whatever a command asks for: when the ports answer with an error, the code is all that is
      sent and no bit has changed. */
  lemma FailureSendsCodeAlone(host: Order, junk: i32, srv: Server<Bits>, d: ValidCodec, rest: seq<byte>)
    requires srv.Valid() && Handled(host, DigDispatch(host, junk), srv, d).1 < 0
    ensures var r := ServeCommand(host, DigDispatch(host, junk), srv, d, rest);
            |r.out| == 16 && r.srv.objs == srv.objs
  {
    hide DigDispatch, U32Bytes, I32Bytes, GetU32;
    var (s, d1) := GetCmdHdr(host, srv, d);
    FailureTouchesNothing(host, junk, srv.objs, s.tgtObj, s.operation, d1, Codec(srv.rspBuf, true).Clear());
    UntouchedResponseIsEmpty(host, DigDispatch(host, junk), srv, d, rest);
  }
}
