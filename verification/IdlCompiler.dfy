/** The interface compiler tools/cfxidl: interfaces as its grammar builds them, the code it
    generates as a syntax tree, and the generators of Iface.cpp with their loops. */
module IdlCompiler {

  datatype Dir = IN | OUT | INOUT {
    predicate Incoming() { this != OUT }
    predicate Outgoing() { this != IN }
  }

  datatype Param = Param(dir: Dir, typeName: string, name: string)

  datatype Func = Func(typeName: string, name: string, params: seq<Param>) {
    predicate IsVoid() { typeName == "void" }
  }

  datatype Iface = Iface(name: string, funcs: seq<Func>)

  // ----- Generated code -----

  /** What a stub returns when a call fails. */
  datatype ErrVal = NoValue | FalseValue | ZeroOf(typeName: string) | DefaultOf(typeName: string)

  /** An operand `name` or `*name`. */
  datatype Operand = Operand(name: string, deref: bool)

  /** The statements of a stub function. */
  datatype StubStmt =
    | PutCmdHdr(constName: string)
    | PutIns(ins: seq<Operand>)
    | Send
    | SendChecked(err: ErrVal)
    | DeclRet(typeName: string)
    | GetOuts(outs: seq<string>, withRet: bool)
    | ReturnRet(err: ErrVal)

  /** An argument `name` or `&name`. */
  datatype Arg = Arg(name: string, byRef: bool)

  /** The statements of a command handler. */
  datatype SkelStmt =
    | Decl(typeName: string, name: string)
    | Extract(ins: seq<string>)
    | CallMethod(callee: string, args: seq<Arg>, withRet: bool)
    | Insert(outs: seq<string>, withRet: bool)
    | ReturnZero

  datatype Handler = Handler(name: string, body: seq<SkelStmt>)

  /** A skeleton: the command table with its null at the end, and the handlers. */
  datatype Skel = Skel(cmdTbl: seq<Slot>, handlers: seq<Handler>)

  /** A row of the command table. */
  datatype Slot = Null | Ptr(funcName: string)

  // ----- What is generated -----

  function ToUpper(c: char): char {
    if 'a' <= c <= 'z' then (c as int - 32) as char else c
  }

  function Upper(s: string): (r: string)
    ensures |r| == |s| && forall i :: 0 <= i < |s| ==> r[i] == ToUpper(s[i])
  {
    seq(|s|, i requires 0 <= i < |s| => ToUpper(s[i]))
  }

  /** Small letters become capitals and nothing else changes. */
  lemma UpperIs(s: string, i: nat)
    requires i < |s|
    ensures Upper(s)[i] == if 'a' <= s[i] <= 'z' then s[i] - 'a' + 'A' else s[i]
  {
  }

  function CmdConst(f: Func): string { Upper(f.name) + "_CMD" }

  function CmdFunc(f: Func): string { f.name + "_cmd" }

  function CmdConsts(funcs: seq<Func>): (cs: seq<string>)
    ensures |cs| == |funcs| && forall i :: 0 <= i < |funcs| ==> cs[i] == CmdConst(funcs[i])
  {
    seq(|funcs|, i requires 0 <= i < |funcs| => CmdConst(funcs[i]))
  }

  /** The constants of the enumeration in the interface header. */
  function EnumCode(inf: Iface): seq<string> { CmdConsts(inf.funcs) + ["N_CMD"] }

  const PRIMITIVES: seq<string> := [
    "char", "byte", "int8", "int8_t", "uint8", "uint8_t",
    "short", "int16", "int16_t", "uint16", "uint16_t",
    "int", "int32", "int32_t", "uint32", "uint32_t",
    "long", "int64", "int64_t", "uint64", "uint64_t",
    "float", "double"]

  function ErrValOf(typeName: string): ErrVal {
    if typeName == "void" then NoValue
    else if typeName == "bool" then FalseValue
    else if typeName in PRIMITIVES then ZeroOf(typeName)
    else DefaultOf(typeName)
  }

  /** Nothing for void, false for bool, zero for numbers and a default object for anything else. */
  lemma ErrVals(typeName: string)
    ensures ErrValOf("void") == NoValue && ErrValOf("bool") == FalseValue
    ensures typeName == "int" || typeName == "uint16_t" || typeName == "double" ==>
              ErrValOf(typeName) == ZeroOf(typeName)
    ensures typeName != "void" && typeName != "bool" && typeName !in PRIMITIVES ==>
              ErrValOf(typeName) == DefaultOf(typeName)
  {
    assert PRIMITIVES[11] == "int" && PRIMITIVES[10] == "uint16_t" && PRIMITIVES[22] == "double";
  }

  function InOperands(ps: seq<Param>): seq<Operand>
    decreases |ps|
  {
    if ps == [] then []
    else (if ps[0].dir.Incoming() then [Operand(ps[0].name, ps[0].dir == INOUT)] else []) + InOperands(ps[1..])
  }

  function InNames(ps: seq<Param>): seq<string>
    decreases |ps|
  {
    if ps == [] then []
    else (if ps[0].dir.Incoming() then [ps[0].name] else []) + InNames(ps[1..])
  }

  function OutNames(ps: seq<Param>): seq<string>
    decreases |ps|
  {
    if ps == [] then []
    else (if ps[0].dir.Outgoing() then [ps[0].name] else []) + OutNames(ps[1..])
  }

  /** Up to the arguments. */
  function StubHead(f: Func): seq<StubStmt> {
    [PutCmdHdr(CmdConst(f))] + if InNames(f.params) != [] then [PutIns(InOperands(f.params))] else []
  }

  /** From the call on. */
  function StubTail(f: Func): seq<StubStmt> {
    if f.IsVoid() && OutNames(f.params) == [] then [Send]
    else if f.IsVoid() then [SendChecked(ErrValOf(f.typeName)), GetOuts(OutNames(f.params), false)]
    else [SendChecked(ErrValOf(f.typeName)), DeclRet(f.typeName), GetOuts(OutNames(f.params), true),
        ReturnRet(ErrValOf(f.typeName))]
  }

  function StubCode(f: Func): seq<StubStmt> { StubHead(f) + StubTail(f) }

  function Decls(ps: seq<Param>): (c: seq<SkelStmt>)
    ensures |c| == |ps| && forall i :: 0 <= i < |ps| ==> c[i] == Decl(ps[i].typeName, ps[i].name)
  {
    seq(|ps|, i requires 0 <= i < |ps| => Decl(ps[i].typeName, ps[i].name))
  }

  function Args(ps: seq<Param>): (c: seq<Arg>)
    ensures |c| == |ps|
    ensures forall i :: 0 <= i < |ps| ==> c[i] == Arg(ps[i].name, ps[i].dir == OUT || ps[i].dir == INOUT)
  {
    seq(|ps|, i requires 0 <= i < |ps| => Arg(ps[i].name, ps[i].dir.Outgoing()))
  }

  /** Reading the arguments. */
  function HandlerHead(f: Func): seq<SkelStmt> {
    Decls(f.params) + if InNames(f.params) != [] then [Extract(InNames(f.params))] else []
  }

  /** The call and the response. */
  function HandlerTail(f: Func): seq<SkelStmt> {
    var call := CallMethod(f.name, Args(f.params), !f.IsVoid());
    if OutNames(f.params) != [] || !f.IsVoid() then [call, Insert(OutNames(f.params), !f.IsVoid()), ReturnZero]
    else [call, ReturnZero]
  }

  function HandlerBody(f: Func): seq<SkelStmt> { HandlerHead(f) + HandlerTail(f) }

  function HandlerCode(f: Func): Handler { Handler(CmdFunc(f), HandlerBody(f)) }

  function CmdTable(funcs: seq<Func>): (t: seq<Slot>)
    ensures |t| == |funcs| + 1 && t[|funcs|] == Null && forall i :: 0 <= i < |funcs| ==> t[i] == Ptr(CmdFunc(funcs[i]))
  {
    seq(|funcs|, i requires 0 <= i < |funcs| => Ptr(CmdFunc(funcs[i]))) + [Null]
  }

  function Handlers(funcs: seq<Func>): (hs: seq<Handler>)
    ensures |hs| == |funcs| && forall i :: 0 <= i < |funcs| ==> hs[i] == HandlerCode(funcs[i])
  {
    seq(|funcs|, i requires 0 <= i < |funcs| => HandlerCode(funcs[i]))
  }

  function SkelCode(inf: Iface): Skel { Skel(CmdTable(inf.funcs), Handlers(inf.funcs)) }

  function Stubs(funcs: seq<Func>): (cs: seq<seq<StubStmt>>)
    ensures |cs| == |funcs| && forall i :: 0 <= i < |funcs| ==> cs[i] == StubCode(funcs[i])
  {
    seq(|funcs|, i requires 0 <= i < |funcs| => StubCode(funcs[i]))
  }

  // ----- What goes in and what comes out, by the directions -----

  /** The number of IN and INOUT parameters among the first `n`, and of OUT and INOUT ones. */
  function InsAmong(ps: seq<Param>, n: nat): (k: nat)
    requires n <= |ps|
    ensures k <= n
  {
    if n == 0 then 0
    else InsAmong(ps, n - 1) + if ps[n - 1].dir == IN || ps[n - 1].dir == INOUT then 1 else 0
  }

  function OutsAmong(ps: seq<Param>, n: nat): (k: nat)
    requires n <= |ps|
    ensures k <= n
  {
    if n == 0 then 0
    else OutsAmong(ps, n - 1) + if ps[n - 1].dir == OUT || ps[n - 1].dir == INOUT then 1 else 0
  }

  lemma {:induction false} AmongTail(ps: seq<Param>, n: nat)
    requires 0 < n <= |ps|
    ensures InsAmong(ps, n) == InsAmong(ps[1..], n - 1) + if ps[0].dir == IN || ps[0].dir == INOUT then 1 else 0
    ensures OutsAmong(ps, n) == OutsAmong(ps[1..], n - 1) + if ps[0].dir == OUT || ps[0].dir == INOUT then 1 else 0
  {
    if n > 1 {
      AmongTail(ps, n - 1);
    }
  }

  /** The names of the IN and INOUT parameters are those of these parameters at their places, and
      no others. */
  lemma {:induction false} InNamePlaces(ps: seq<Param>, i: nat)
    requires i < |ps|
    ensures |InNames(ps)| == InsAmong(ps, |ps|)
    ensures ps[i].dir == IN || ps[i].dir == INOUT ==>
              InsAmong(ps, i) < |InNames(ps)| && InNames(ps)[InsAmong(ps, i)] == ps[i].name
    decreases |ps|
  {
    AmongTail(ps, |ps|);
    if |ps| > 1 {
      InNamePlaces(ps[1..], if i > 0 then i - 1 else 0);
    }
    if i > 0 {
      AmongTail(ps, i);
    }
  }

  /** So are the operands; INOUT parameters are pointers. */
  lemma {:induction false} InOperandPlaces(ps: seq<Param>, i: nat)
    requires i < |ps|
    ensures |InOperands(ps)| == InsAmong(ps, |ps|)
    ensures ps[i].dir == IN || ps[i].dir == INOUT ==>
              InsAmong(ps, i) < |InOperands(ps)|
              && InOperands(ps)[InsAmong(ps, i)] == Operand(ps[i].name, ps[i].dir == INOUT)
    decreases |ps|
  {
    AmongTail(ps, |ps|);
    if |ps| > 1 {
      InOperandPlaces(ps[1..], if i > 0 then i - 1 else 0);
    }
    if i > 0 {
      AmongTail(ps, i);
    }
  }

  /** And so are the names of the OUT and INOUT parameters. */
  lemma {:induction false} OutNamePlaces(ps: seq<Param>, i: nat)
    requires i < |ps|
    ensures |OutNames(ps)| == OutsAmong(ps, |ps|)
    ensures ps[i].dir == OUT || ps[i].dir == INOUT ==>
              OutsAmong(ps, i) < |OutNames(ps)| && OutNames(ps)[OutsAmong(ps, i)] == ps[i].name
    decreases |ps|
  {
    AmongTail(ps, |ps|);
    if |ps| > 1 {
      OutNamePlaces(ps[1..], if i > 0 then i - 1 else 0);
    }
    if i > 0 {
      AmongTail(ps, i);
    }
  }

  // ----- The generators -----

  method CmdConstName(f: Func) returns (s: string)
    ensures s == CmdConst(f) == Upper(f.name) + "_CMD"
  {
    s := f.name;
    var i := 0;
    while i < |s|
      invariant 0 <= i <= |s| == |f.name|
      invariant s == Upper(f.name)[..i] + f.name[i..]
    {
      s := s[i := ToUpper(s[i])];
      i := i + 1;
    }
    s := s + "_CMD";
  }

  /** Counts the parameters that go in and those that come out. */
  method CountParams(pl: seq<Param>) returns (nin: nat, nout: nat)
    ensures nin == InsAmong(pl, |pl|) == |InNames(pl)| && nout == OutsAmong(pl, |pl|) == |OutNames(pl)|
  {
    nin, nout := 0, 0;
    var i := 0;
    while i < |pl|
      invariant 0 <= i <= |pl| && nin == InsAmong(pl, i) && nout == OutsAmong(pl, i)
    {
      var dir := pl[i].dir;
      if dir == IN || dir == INOUT {
        nin := nin + 1;
      }
      if dir == OUT || dir == INOUT {
        nout := nout + 1;
      }
      i := i + 1;
    }
    if pl != [] {
      InNamePlaces(pl, 0);
      OutNamePlaces(pl, 0);
    }
  }

  method WriteOperands(pl: seq<Param>) returns (ins: seq<Operand>)
    ensures ins == InOperands(pl)
  {
    ins := [];
    var i := 0;
    while i < |pl|
      invariant 0 <= i <= |pl| && ins + InOperands(pl[i..]) == InOperands(pl)
    {
      assert pl[i..][1..] == pl[i + 1..];
      if pl[i].dir == IN {
        ins := ins + [Operand(pl[i].name, false)];
      } else if pl[i].dir == INOUT {
        ins := ins + [Operand(pl[i].name, true)];
      }
      i := i + 1;
    }
  }

  method WriteIns(pl: seq<Param>) returns (ins: seq<string>)
    ensures ins == InNames(pl)
  {
    ins := [];
    var i := 0;
    while i < |pl|
      invariant 0 <= i <= |pl| && ins + InNames(pl[i..]) == InNames(pl)
    {
      assert pl[i..][1..] == pl[i + 1..];
      if pl[i].dir == IN || pl[i].dir == INOUT {
        ins := ins + [pl[i].name];
      }
      i := i + 1;
    }
  }

  method WriteOuts(pl: seq<Param>) returns (outs: seq<string>)
    ensures outs == OutNames(pl)
  {
    outs := [];
    var i := 0;
    while i < |pl|
      invariant 0 <= i <= |pl| && outs + OutNames(pl[i..]) == OutNames(pl)
    {
      assert pl[i..][1..] == pl[i + 1..];
      if pl[i].dir == OUT || pl[i].dir == INOUT {
        outs := outs + [pl[i].name];
      }
      i := i + 1;
    }
  }

  method WriteDecls(pl: seq<Param>) returns (os: seq<SkelStmt>)
    ensures os == Decls(pl)
  {
    os := [];
    var i := 0;
    while i < |pl|
      invariant 0 <= i <= |pl| && os == Decls(pl)[..i]
    {
      os := os + [Decl(pl[i].typeName, pl[i].name)];
      i := i + 1;
    }
  }

  method WriteArgs(pl: seq<Param>) returns (args: seq<Arg>)
    ensures args == Args(pl)
  {
    args := [];
    var i := 0;
    while i < |pl|
      invariant 0 <= i <= |pl| && args == Args(pl)[..i]
    {
      args := args + [Arg(pl[i].name, pl[i].dir == OUT || pl[i].dir == INOUT)];
      i := i + 1;
    }
  }

  method CreateStubFunc(p: Func) returns (os: seq<StubStmt>)
    ensures os == StubCode(p)
  {
    hide InNames, OutNames, InOperands, ErrValOf, CmdConst;
    var constName := CmdConstName(p);
    os := [PutCmdHdr(constName)];
    var pl := p.params;
    var nin, nout := CountParams(pl);
    if nin > 0 {
      var ins := WriteOperands(pl);
      os := os + [PutIns(ins)];
    }
    if p.typeName == "void" && nout == 0 {
      os := os + [Send];
    } else {
      os := os + [SendChecked(ErrValOf(p.typeName))];
      if p.typeName != "void" {
        os := os + [DeclRet(p.typeName)];
      }
      var outs := WriteOuts(pl);
      os := os + [GetOuts(outs, p.typeName != "void")];
      if p.typeName != "void" {
        os := os + [ReturnRet(ErrValOf(p.typeName))];
      }
    }
  }

  method CreateStubSrc(inf: Iface) returns (os: seq<seq<StubStmt>>)
    ensures os == Stubs(inf.funcs)
  {
    os := [];
    var i := 0;
    while i < |inf.funcs|
      invariant 0 <= i <= |inf.funcs| && os == Stubs(inf.funcs)[..i]
    {
      var code := CreateStubFunc(inf.funcs[i]);
      os := os + [code];
      i := i + 1;
    }
  }

  method CreateIface(inf: Iface) returns (os: seq<string>)
    ensures os == if inf.funcs == [] then [] else EnumCode(inf)
  {
    os := [];
    if inf.funcs != [] {
      var i := 0;
      while i < |inf.funcs|
        invariant 0 <= i <= |inf.funcs| && os == CmdConsts(inf.funcs)[..i]
      {
        var c := CmdConstName(inf.funcs[i]);
        os := os + [c];
        i := i + 1;
      }
      os := os + ["N_CMD"];
    }
  }

  method CreateHandler(p: Func) returns (h: Handler)
    ensures h == HandlerCode(p)
  {
    hide InNames, OutNames, InsAmong, OutsAmong;
    var pl := p.params;
    var nin, nout := CountParams(pl);
    var anyIn, anyRsp := nin != 0, nout > 0 || p.typeName != "void";
    var os := WriteDecls(pl);
    if anyIn {
      var ins := WriteIns(pl);
      os := os + [Extract(ins)];
    }
    assert os == HandlerHead(p);
    var args := WriteArgs(pl);
    os := os + [CallMethod(p.name, args, p.typeName != "void")];
    if anyRsp {
      var outs := WriteOuts(pl);
      os := os + [Insert(outs, p.typeName != "void")];
    }
    os := os + [ReturnZero];
    assert os == HandlerHead(p) + HandlerTail(p);
    h := Handler(CmdFunc(p), os);
  }

  method CreateSkelSrc(inf: Iface) returns (os: Skel)
    ensures os == SkelCode(inf)
  {
    var tbl, handlers := [], [];
    var i := 0;
    while i < |inf.funcs|
      invariant 0 <= i <= |inf.funcs| && tbl == CmdTable(inf.funcs)[..i]
    {
      tbl := tbl + [Ptr(CmdFunc(inf.funcs[i]))];
      i := i + 1;
    }
    tbl := tbl + [Null];
    i := 0;
    while i < |inf.funcs|
      invariant 0 <= i <= |inf.funcs| && handlers == Handlers(inf.funcs)[..i]
    {
      var h := CreateHandler(inf.funcs[i]);
      handlers := handlers + [h];
      i := i + 1;
    }
    os := Skel(tbl, handlers);
  }
}
