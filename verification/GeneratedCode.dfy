/** The meaning of the code that the interface compiler generates: stub functions and command
    handlers run over the codec, the server and the channel. A piece of code that a C++ compiler
    would refuse (an unknown name, a wrong number of arguments) has no meaning, `None`. */
module GeneratedCode {
  import opened Layout
  import opened HostBytes
  import opened Buffers
  import opened BufCodec
  import opened DistObj
  import opened DistObjServer
  import opened IdlCompiler

  /** Sizes of the types; a `bool` travels as one byte. */
  type Types = string -> Pos

  function SizeOf(types: Types, typeName: string): Pos {
    if typeName == "bool" then 1 else types(typeName)
  }

  /** What a type's uninitialised variable holds. */
  type Junk = string -> Value

  // ----- Calling an object directly -----

  /** The result of a method: new state, values stored through the pointers, return value
      (meaningless for void). */
  datatype Outcome<S> = Outcome(obj: S, outs: seq<Value>, ret: Value)

  /** An implementation of an interface: it sees the method and the values going in. */
  type Impl<!S> = (S, string, seq<Value>) -> Outcome<S>

  /** The values that go in, of all arguments in order. */
  function InsOf(ps: seq<Param>, args: seq<Value>): seq<Value>
    requires |ps| == |args|
    decreases |ps|
  {
    if ps == [] then []
    else (if ps[0].dir.Incoming() then [args[0]] else []) + InsOf(ps[1..], args[1..])
  }

  function OutsOf(ps: seq<Param>, args: seq<Value>): seq<Value>
    requires |ps| == |args|
    decreases |ps|
  {
    if ps == [] then []
    else (if ps[0].dir.Outgoing() then [args[0]] else []) + OutsOf(ps[1..], args[1..])
  }

  /** The arguments once the outgoing ones have been overwritten. */
  function PutBack(ps: seq<Param>, args: seq<Value>, outs: seq<Value>): (r: seq<Value>)
    requires |ps| == |args| && |outs| == |OutNames(ps)|
    ensures |r| == |ps|
    decreases |ps|
  {
    if ps == [] then []
    else if ps[0].dir.Outgoing() then [outs[0]] + PutBack(ps[1..], args[1..], outs[1..])
    else [args[0]] + PutBack(ps[1..], args[1..], outs)
  }

  /** A call on the object itself: `args` are the values passed and, for the pointers, the values
      pointed to. */
  function Direct<S>(impl: Impl<S>, f: Func, obj: S, args: seq<Value>): (r: Option<(Outcome<S>, seq<Value>)>)
    requires |args| == |f.params|
    ensures r.Some? ==> |r.value.1| == |args|
  {
    var r := impl(obj, f.name, InsOf(f.params, args));
    if |r.outs| == |OutNames(f.params)| then Some((r, PutBack(f.params, args, r.outs))) else None
  }

  /** What goes in, by the directions: the arguments of the IN and INOUT parameters at their
      places, and no others. */
  lemma {:induction false} InsPlaces(ps: seq<Param>, args: seq<Value>, i: nat)
    requires |ps| == |args| && i < |ps|
    ensures |InsOf(ps, args)| == InsAmong(ps, |ps|)
    ensures ps[i].dir == IN || ps[i].dir == INOUT ==>
              InsAmong(ps, i) < |InsOf(ps, args)| && InsOf(ps, args)[InsAmong(ps, i)] == args[i]
    decreases |ps|
  {
    AmongTail(ps, |ps|);
    if |ps| > 1 {
      InsPlaces(ps[1..], args[1..], if i > 0 then i - 1 else 0);
    }
    if i > 0 {
      AmongTail(ps, i);
    }
  }

  /** What comes out, by the directions. */
  lemma {:induction false} OutsPlaces(ps: seq<Param>, args: seq<Value>, i: nat)
    requires |ps| == |args| && i < |ps|
    ensures |OutsOf(ps, args)| == OutsAmong(ps, |ps|)
    ensures ps[i].dir == OUT || ps[i].dir == INOUT ==>
              OutsAmong(ps, i) < |OutsOf(ps, args)| && OutsOf(ps, args)[OutsAmong(ps, i)] == args[i]
    decreases |ps|
  {
    AmongTail(ps, |ps|);
    if |ps| > 1 {
      OutsPlaces(ps[1..], args[1..], if i > 0 then i - 1 else 0);
    }
    if i > 0 {
      AmongTail(ps, i);
    }
  }

  /** And where it goes: to the OUT and INOUT arguments from its places, the IN arguments stay. */
  lemma {:induction false} PutBackPlaces(ps: seq<Param>, args: seq<Value>, outs: seq<Value>, i: nat)
    requires |ps| == |args| && |outs| == |OutNames(ps)| && i < |ps|
    ensures var r := PutBack(ps, args, outs);
            if ps[i].dir == OUT || ps[i].dir == INOUT then
              OutsAmong(ps, i) < |outs| && r[i] == outs[OutsAmong(ps, i)]
            else ps[i].dir == IN && r[i] == args[i]
    decreases |ps|
  {
    if i > 0 {
      AmongTail(ps, i);
      hide OutsAmong, InsAmong;
      var outs' := if ps[0].dir.Outgoing() then outs[1..] else outs;
      var rest := PutBack(ps[1..], args[1..], outs');
      assert PutBack(ps, args, outs) == [if ps[0].dir.Outgoing() then outs[0] else args[0]] + rest;
      PutBackPlaces(ps[1..], args[1..], outs', i - 1);
    }
  }

  /** A call on the object itself, with the directions written out: the method is handed the
      arguments of the IN and INOUT parameters in order, and afterwards the OUT and INOUT
      arguments are what it stored and the IN arguments what they were. */
  lemma DirectMeans<S>(impl: Impl<S>, f: Func, obj: S, args: seq<Value>, ins: seq<Value>)
    requires |args| == |f.params| && |ins| == InsAmong(f.params, |f.params|)
    requires forall i :: 0 <= i < |args| && (f.params[i].dir == IN || f.params[i].dir == INOUT) ==>
               InsAmong(f.params, i) < |ins| && ins[InsAmong(f.params, i)] == args[i]
    ensures var ps, r, direct := f.params, impl(obj, f.name, ins), Direct(impl, f, obj, args);
            && (direct.Some? <==> |r.outs| == OutsAmong(ps, |ps|))
            && (direct.Some? ==>
                  && direct.value.0 == r
                  && forall i :: 0 <= i < |ps| ==>
                       if ps[i].dir == OUT || ps[i].dir == INOUT then
                         OutsAmong(ps, i) < |r.outs| && direct.value.1[i] == r.outs[OutsAmong(ps, i)]
                       else direct.value.1[i] == args[i])
  {
    var ps := f.params;
    if ps != [] {
      InsPlaces(ps, args, 0);
      OutNamePlaces(ps, 0);
    }
    InsAre(ps, args, ins);
    var r := impl(obj, f.name, ins);
    if |r.outs| == |OutNames(ps)| {
      forall i | 0 <= i < |ps|
        ensures if ps[i].dir == OUT || ps[i].dir == INOUT then
                  OutsAmong(ps, i) < |r.outs| && PutBack(ps, args, r.outs)[i] == r.outs[OutsAmong(ps, i)]
                else PutBack(ps, args, r.outs)[i] == args[i]
      {
        PutBackPlaces(ps, args, r.outs, i);
      }
    }
  }

  /** The places determine what goes in. */
  lemma {:induction false} InsAre(ps: seq<Param>, args: seq<Value>, ins: seq<Value>)
    requires |ps| == |args| && |ins| == InsAmong(ps, |ps|)
    requires forall i :: 0 <= i < |args| && (ps[i].dir == IN || ps[i].dir == INOUT) ==>
               InsAmong(ps, i) < |ins| && ins[InsAmong(ps, i)] == args[i]
    ensures InsOf(ps, args) == ins
    decreases |ps|
  {
    if ps != [] {
      AmongTail(ps, |ps|);
      var incoming := ps[0].dir == IN || ps[0].dir == INOUT;
      var rest := if incoming then ins[1..] else ins;
      forall i | 0 <= i < |args[1..]| && (ps[1..][i].dir == IN || ps[1..][i].dir == INOUT)
        ensures InsAmong(ps[1..], i) < |rest| && rest[InsAmong(ps[1..], i)] == args[1..][i]
      {
        AmongTail(ps, i + 1);
        assert ps[i + 1].dir == IN || ps[i + 1].dir == INOUT;
      }
      InsAre(ps[1..], args[1..], rest);
      assert incoming ==> InsAmong(ps, 0) == 0 && ins == [args[0]] + rest;
    }
  }

  // ----- Variables and chains of codec operators -----

  datatype Var = Var(isPtr: bool, typeName: string, val: Value)

  type Store = map<string, Var>

  predicate Usable(vars: Store, x: Operand) {
    x.name in vars && vars[x.name].isPtr == x.deref
  }

  /** `enc << a << *b ...` */
  function ExecPuts(ops: seq<Operand>, vars: Store, e: ValidCodec): Option<ValidCodec>
    decreases |ops|
  {
    if ops == [] then Some(e)
    else if !Usable(vars, ops[0]) then None
    else ExecPuts(ops[1..], vars, e.Put(vars[ops[0].name].val).0)
  }

  /** `dec >> x`; a bool is set even when there is nothing to read. */
  function GetVar(types: Types, x: Var, d: ValidCodec): (ValidCodec, Var) {
    var (d1, r) := d.Get(SizeOf(types, x.typeName));
    if x.typeName == "bool" then (d1, x.(val := if r.Some? && r.value[0] != 0 then [1] else [0]))
    else (d1, if r.None? then x else x.(val := r.value))
  }

  /** `dec >> a >> *b ...` */
  function ExecGets(types: Types, ops: seq<Operand>, vars: Store, d: ValidCodec): Option<(ValidCodec, Store)>
    decreases |ops|
  {
    if ops == [] then Some((d, vars))
    else if !Usable(vars, ops[0]) then None
    else
      var (d1, x) := GetVar(types, vars[ops[0].name], d);
      ExecGets(types, ops[1..], vars[ops[0].name := x], d1)
  }

  function Operands(names: seq<string>, deref: bool): (ops: seq<Operand>)
    ensures |ops| == |names| && forall i :: 0 <= i < |names| ==> ops[i] == Operand(names[i], deref)
  {
    seq(|names|, i requires 0 <= i < |names| => Operand(names[i], deref))
  }

  function IndexOf<T(==)>(s: seq<T>, x: T): (i: nat)
    ensures i <= |s| && (i < |s| ==> s[i] == x) && forall j :: 0 <= j < i ==> s[j] != x
    decreases |s|
  {
    if s == [] || s[0] == x then 0 else 1 + IndexOf(s[1..], x)
  }

  // ----- Command handlers -----

  /** What a skeleton is linked with. */
  datatype Target<!S> = Target(types: Types, junk: Junk, inf: Iface, impl: Impl<S>)

  datatype SkelState<S> = SkelState(obj: S, vars: Store, ret: Option<Value>, param: ValidCodec, rsp: ValidCodec)

  function Names<T>(items: seq<T>, nameOf: T -> string): (ns: seq<string>)
    ensures |ns| == |items| && forall i :: 0 <= i < |items| ==> ns[i] == nameOf(items[i])
  {
    seq(|items|, i requires 0 <= i < |items| => nameOf(items[i]))
  }

  function FuncName(f: Func): string { f.name }

  function HandlerName(h: Handler): string { h.name }

  function ParamName(p: Param): string { p.name }

  /** The arguments of a call fit the parameters of the method. */
  predicate CallMatches(f: Func, args: seq<Arg>, withRet: bool, vars: Store) {
    && |args| == |f.params| && withRet == !f.IsVoid()
    && forall i :: 0 <= i < |args| ==>
         && args[i].name in vars && args[i].byRef == f.params[i].dir.Outgoing()
         && vars[args[i].name].typeName == f.params[i].typeName && !vars[args[i].name].isPtr
  }

  function ArgValues(args: seq<Arg>, vars: Store): (vs: seq<Value>)
    requires forall i :: 0 <= i < |args| ==> args[i].name in vars
    ensures |vs| == |args| && forall i :: 0 <= i < |args| ==> vs[i] == vars[args[i].name].val
  {
    seq(|args|, i requires 0 <= i < |args| => vars[args[i].name].val)
  }

  /** The variables after the method has stored through the addresses it was given. */
  function StoreArgs(args: seq<Arg>, vals: seq<Value>, vars: Store): Store
    requires |vals| == |args|
    decreases |args|
  {
    if args == [] then vars
    else
      var n := args[0].name;
      StoreArgs(args[1..], vals[1..], if args[0].byRef && n in vars then vars[n := vars[n].(val := vals[0])] else vars)
  }

  function ExecCall<S>(t: Target<S>, callee: string, args: seq<Arg>, withRet: bool,
          s: SkelState<S>): Option<SkelState<S>> {
    var k := IndexOf(Names(t.inf.funcs, FuncName), callee);
    if k == |t.inf.funcs| || !CallMatches(t.inf.funcs[k], args, withRet, s.vars) then None
    else
      match Direct(t.impl, t.inf.funcs[k], s.obj, ArgValues(args, s.vars))
      case None => None
      case Some((r, vals)) =>
        var ret := if withRet then Some(r.ret) else None;
        Some(s.(obj := r.obj, vars := StoreArgs(args, vals, s.vars), ret := ret))
  }

  function SkelStep<S>(t: Target<S>, stmt: SkelStmt, s: SkelState<S>): Option<SkelState<S>> {
    match stmt
    case Decl(typeName, name) =>
      if name in s.vars then None else Some(s.(vars := s.vars[name := Var(false, typeName, t.junk(typeName))]))
    case Extract(ins) =>
      (match ExecGets(t.types, Operands(ins, false), s.vars, s.param)
       case None => None
       case Some((d, vars)) => Some(s.(param := d, vars := vars)))
    case CallMethod(callee, args, withRet) => ExecCall(t, callee, args, withRet, s)
    case Insert(outs, withRet) =>
      (match ExecPuts(Operands(outs, false), s.vars, s.rsp)
       case None => None
       case Some(e) =>
         if !withRet then Some(s.(rsp := e))
         else if s.ret.None? then None
         else Some(s.(rsp := e.Put(s.ret.value).0)))
    case ReturnZero => Some(s)
  }

  function ExecSkel<S>(t: Target<S>, code: seq<SkelStmt>, s: SkelState<S>): Option<SkelState<S>>
    decreases |code|
  {
    if code == [] then Some(s)
    else
      match SkelStep(t, code[0], s)
      case None => None
      case Some(s1) => ExecSkel(t, code[1..], s1)
  }

  /** Runs the handler with the given name. */
  function RunHandler<S>(t: Target<S>, skel: Skel, name: string, obj: S, d: ValidCodec,
          e: ValidCodec): Option<SkelState<S>> {
    var k := IndexOf(Names(skel.handlers, HandlerName), name);
    if k == |skel.handlers| then None
    else ExecSkel(t, skel.handlers[k].body, SkelState(obj, map[], None, d, e))
  }

  /** The generated `invoke`. Handlers always return 0. */
  function SkelInvoke<S>(t: Target<S>, consts: seq<string>, skel: Skel, obj: S, op: u32, d: ValidCodec,
          e: ValidCodec): (S, i32, ValidCodec, ValidCodec) {
    if op > IndexOf(consts, "N_CMD") || op >= |skel.cmdTbl| then (obj, -1, d, e)
    else
      match skel.cmdTbl[op]
      case Null => (obj, -1, d, e)
      case Ptr(name) =>
        match RunHandler(t, skel, name, obj, d, e)
        case None => (obj, -1, d, e)
        case Some(s) => (s.obj, 0, s.param, s.rsp)
  }

  function Invoker<S>(t: Target<S>, consts: seq<string>, skel: Skel): DistObjServer.Invoke<S> {
    (obj, n, op, d, e) => SkelInvoke(t, consts, skel, obj, op, d, e)
  }

  /** Class number and instance number of generated objects are 0, and so is their key. */
  const KEY: u32 := 0

  function ServerDispatch<S>(t: Target<S>, consts: seq<string>, skel: Skel): Dispatch<S> {
    Dispatcher([Entry(KEY, 1)], Invoker(t, consts, skel))
  }

  // ----- Stub functions -----

  /** What a stub is linked with, and the message number and the memory it finds. */
  datatype Client<!S> = Client(
    host: Order, types: Types, junk: Junk, consts: seq<string>, dispatch: Dispatch<S>,
    id: u32, m0: byte, m1: byte)

  datatype StubResult = Returns(val: Option<Value>) | Fails(err: ErrVal)

  datatype StubState<S> = StubState(
    vars: Store, cmd: ValidCodec, rsp: ValidCodec, dec: ValidCodec, ret: Option<Var>, link: Link<S>,
        result: Option<StubResult>)
  {
    predicate Valid() { link.srv.Valid() }
  }

  function ExecSend<S>(c: Client<S>, s: StubState<S>): (r: Option<(int, StubState<S>)>)
    requires s.Valid()
    ensures r.Some? ==> r.value.1.Valid()
  {
    match Exchange(c.host, c.dispatch, s.link, c.m0, c.m1, s.cmd.buf.Flip(), s.rsp.buf)
    case None => None
    case Some((reply, rsp, link)) => Some((reply, s.(rsp := Codec(rsp, true), link := link)))
  }

  /** `rspDec >> *a >> ... >> _ret` on a new decoder. */
  function ExecOuts<S>(c: Client<S>, outs: seq<string>, withRet: bool, s: StubState<S>): (r: Option<StubState<S>>)
    requires s.Valid()
    ensures r.Some? ==> r.value.Valid()
  {
    match ExecGets(c.types, Operands(outs, true), s.vars, Codec(s.rsp.buf, true))
    case None => None
    case Some((d, vars)) =>
      if !withRet then Some(s.(dec := d, vars := vars))
      else if s.ret.None? then None
      else
        var (d1, x) := GetVar(c.types, s.ret.value, d);
        Some(s.(dec := d1, vars := vars, ret := Some(x)))
  }

  function StubStep<S>(c: Client<S>, stmt: StubStmt, s: StubState<S>): (r: Option<StubState<S>>)
    requires s.Valid()
    ensures r.Some? ==> r.value.Valid()
  {
    match stmt
    case PutCmdHdr(constName) =>
      var op := IndexOf(c.consts, constName);
      if op == |c.consts| || op >= 0x1_0000_0000 then None
      else Some(s.(cmd := PutAll(s.cmd, CmdValues(c.host, Request(c.id, KEY, op, [])))))
    case PutIns(ins) =>
      (match ExecPuts(ins, s.vars, s.cmd)
       case None => None
       case Some(e) => Some(s.(cmd := e)))
    case Send =>
      (match ExecSend(c, s)
       case None => None
       case Some((reply, s1)) => Some(s1))
    case SendChecked(err) =>
      (match ExecSend(c, s)
       case None => None
       case Some((reply, s1)) => Some(if reply < 0 then s1.(result := Some(Fails(err))) else s1))
    case DeclRet(typeName) => Some(s.(ret := Some(Var(false, typeName, c.junk(typeName)))))
    case GetOuts(outs, withRet) => ExecOuts(c, outs, withRet, s)
    case ReturnRet(err) =>
      if s.ret.None? then None
      else Some(s.(result := Some(if s.dec.good then Returns(Some(s.ret.value.val)) else Fails(err))))
  }

  function ExecStub<S>(c: Client<S>, code: seq<StubStmt>, s: StubState<S>): (r: Option<StubState<S>>)
    requires s.Valid()
    ensures r.Some? ==> r.value.Valid()
    decreases |code|
  {
    if code == [] || s.result.Some? then Some(s)
    else
      match StubStep(c, code[0], s)
      case None => None
      case Some(s1) => ExecStub(c, code[1..], s1)
  }

  /** The variables of a function at its entry; outgoing parameters are pointers. */
  function Bind(ps: seq<Param>, args: seq<Value>): Store
    requires |ps| == |args|
    decreases |ps|
  {
    if ps == [] then map[]
    else Bind(ps[1..], args[1..])[ps[0].name := Var(ps[0].dir.Outgoing(), ps[0].typeName, args[0])]
  }

  function ReadBack(ps: seq<Param>, vars: Store): (vs: seq<Value>)
    ensures |vs| == |ps| && forall i :: 0 <= i < |ps| && ps[i].name in vars ==> vs[i] == vars[ps[i].name].val
  {
    seq(|ps|, i requires 0 <= i < |ps| => if ps[i].name in vars then vars[ps[i].name].val else [0])
  }

  function NewBuffer(mem: Memory): ValidCodec { Codec(Fresh(mem), true) }

  /** A call of a stub function with two buffers on the stack: what it returns, the arguments
      afterwards, and the connection afterwards. */
  function CallStub<S>(c: Client<S>, f: Func, code: seq<StubStmt>, args: seq<Value>, link: Link<S>, cmd: Memory,
          rsp: Memory): (r: Option<(StubResult, seq<Value>, Link<S>)>)
    requires |args| == |f.params| && link.srv.Valid()
    ensures r.Some? ==> r.value.2.srv.Valid()
  {
    var start := StubState(Bind(f.params, args), NewBuffer(cmd), NewBuffer(rsp), NewBuffer(rsp), None, link, None);
    match ExecStub(c, code, start)
    case None => None
    case Some(s) => Some((if s.result.Some? then s.result.value else Returns(None), ReadBack(f.params, s.vars), s.link))
  }
}
