/** Correctness of the interface compiler: a call through the generated stub and the generated
    skeleton means the same as a call on the object. */
module RemoteProcedure {
  import opened Layout
  import opened HostBytes
  import opened Buffers
  import opened BufCodec
  import opened DistObj
  import opened IdlCompiler
  import opened GeneratedCode
  import PacketHeader

  // ----- Names -----

  predicate DistinctNames(ps: seq<Param>) {
    forall i, j :: 0 <= i < j < |ps| ==> ps[i].name != ps[j].name
  }

  /** What the generated C++ needs to compile: upper-cased function names that differ from each
      other and from "N", and parameter names that differ within a function. */
  predicate WellFormed(inf: Iface) {
    && 0 < |inf.funcs| < 0x1_0000_0000
    && (forall i, j :: 0 <= i < j < |inf.funcs| ==> Upper(inf.funcs[i].name) != Upper(inf.funcs[j].name))
    && (forall i :: 0 <= i < |inf.funcs| ==> Upper(inf.funcs[i].name) != "N" && DistinctNames(inf.funcs[i].params))
  }

  lemma SuffixCancels(a: string, b: string, end: string)
    ensures a + end == b + end ==> a == b
  {
    if a + end == b + end {
      assert |a + end| == |b + end|;
      assert a == (a + end)[..|a|] == (b + end)[..|b|] == b;
    }
  }

  lemma IndexOfIs<T>(s: seq<T>, k: nat)
    requires k < |s| && forall j :: 0 <= j < k ==> s[j] != s[k]
    ensures IndexOf(s, s[k]) == k
  {
  }

  /** Every constant of the enumeration has its place as value. */
  lemma ConstIsIndex(inf: Iface, k: nat)
    requires WellFormed(inf) && k <= |inf.funcs|
    ensures IndexOf(EnumCode(inf), if k < |inf.funcs| then CmdConst(inf.funcs[k]) else "N_CMD") == k
  {
    var consts := EnumCode(inf);
    forall j | 0 <= j < k ensures consts[j] != consts[k] {
      SuffixCancels(Upper(inf.funcs[j].name), if k < |inf.funcs| then Upper(inf.funcs[k].name) else "N", "_CMD");
      assert "N" + "_CMD" == "N_CMD";
    }
    IndexOfIs(consts, k);
  }

  /** Conversely, the constants are usable only if the upper-cased names differ. */
  lemma EnumDistinctIff(inf: Iface)
    ensures (forall i, j :: 0 <= i < j <= |inf.funcs| ==> EnumCode(inf)[i] != EnumCode(inf)[j])
      <==> && (forall i, j :: 0 <= i < j < |inf.funcs| ==> Upper(inf.funcs[i].name) != Upper(inf.funcs[j].name))
           && (forall i :: 0 <= i < |inf.funcs| ==> Upper(inf.funcs[i].name) != "N")
  {
    var consts := EnumCode(inf);
    var n := |inf.funcs|;
    assert "N" + "_CMD" == "N_CMD" == consts[n];
    forall i, j | 0 <= i < j <= n
      ensures consts[i] == consts[j] <==> Upper(inf.funcs[i].name) == if j < n then Upper(inf.funcs[j].name) else "N"
    {
      SuffixCancels(Upper(inf.funcs[i].name), if j < n then Upper(inf.funcs[j].name) else "N", "_CMD");
    }
    if forall i, j :: 0 <= i < j <= n ==> consts[i] != consts[j] {
      forall i | 0 <= i < n ensures Upper(inf.funcs[i].name) != "N" {
        assert consts[i] != consts[n];
      }
    }
  }

  lemma NamesDiffer(inf: Iface, j: nat, k: nat)
    requires WellFormed(inf) && j < k < |inf.funcs|
    ensures inf.funcs[j].name != inf.funcs[k].name && CmdFunc(inf.funcs[j]) != CmdFunc(inf.funcs[k])
  {
    SuffixCancels(inf.funcs[j].name, inf.funcs[k].name, "_cmd");
  }

  lemma FindsFunc(inf: Iface, k: nat)
    requires WellFormed(inf) && k < |inf.funcs|
    ensures IndexOf(Names(inf.funcs, FuncName), inf.funcs[k].name) == k
    ensures IndexOf(Names(Handlers(inf.funcs), HandlerName), CmdFunc(inf.funcs[k])) == k
  {
    forall j | 0 <= j < k
      ensures inf.funcs[j].name != inf.funcs[k].name && CmdFunc(inf.funcs[j]) != CmdFunc(inf.funcs[k])
    {
      NamesDiffer(inf, j, k);
    }
    IndexOfIs(Names(inf.funcs, FuncName), k);
    IndexOfIs(Names(Handlers(inf.funcs), HandlerName), k);
  }

  /** `invoke` with the number of a declared function runs that function's handler; with any
      other number it answers -1 and touches nothing. */
  lemma InvokeReaches<S>(t: Target<S>, obj: S, op: u32, d: ValidCodec, e: ValidCodec)
    requires WellFormed(t.inf)
    ensures var r := SkelInvoke(t, EnumCode(t.inf), SkelCode(t.inf), obj, op, d, e);
            if op < |t.inf.funcs| then
              var h := ExecSkel(t, HandlerBody(t.inf.funcs[op]), SkelState(obj, map[], None, d, e));
              h.Some? ==> r == (h.value.obj, 0, h.value.param, h.value.rsp)
            else r == (obj, -1, d, e)
  {
    hide ExecSkel, HandlerBody, CmdFunc, EnumCode, IndexOf;
    ConstIsIndex(t.inf, |t.inf.funcs|);
    if op < |t.inf.funcs| {
      FindsFunc(t.inf, op);
    }
  }

  // ----- Chains of operators -----

  /** The variables of all parameters; outgoing ones are pointers in a stub. */
  predicate Bound(vars: Store, ps: seq<Param>, args: seq<Value>, stub: bool) {
    && |args| == |ps|
    && forall i :: 0 <= i < |ps| ==>
         ps[i].name in vars && vars[ps[i].name] == Var(stub && ps[i].dir.Outgoing(), ps[i].typeName, args[i])
  }

  predicate Fits(types: Types, typeName: string, v: Value) {
    |v| == SizeOf(types, typeName) && (typeName == "bool" ==> v[0] == 0 || v[0] == 1)
  }

  lemma BoundTail(vars: Store, ps: seq<Param>, args: seq<Value>, stub: bool)
    requires ps != [] && Bound(vars, ps, args, stub)
    ensures Bound(vars, ps[1..], args[1..], stub)
    ensures ps[0].name in vars && vars[ps[0].name] == Var(stub && ps[0].dir.Outgoing(), ps[0].typeName, args[0])
    ensures Usable(vars, Operand(ps[0].name, stub && ps[0].dir.Outgoing()))
  {
  }

  lemma PutsOne(op: Operand, ops: seq<Operand>, vs: seq<Value>, vars: Store, e: ValidCodec)
    requires Usable(vars, op)
    ensures var v := vars[op.name].val; var e1 := e.Put(v).0;
            ExecPuts([op] + ops, vars, e) == ExecPuts(ops, vars, e1) && PutAll(e, [v] + vs) == PutAll(e1, vs)
  {
    assert ([op] + ops)[1..] == ops && ([vars[op.name].val] + vs)[1..] == vs;
  }

  lemma {:induction false} PutsIns(ps: seq<Param>, args: seq<Value>, vars: Store, e: ValidCodec)
    requires |ps| == |args| && Bound(vars, ps, args, true)
    ensures ExecPuts(InOperands(ps), vars, e) == Some(PutAll(e, InsOf(ps, args)))
    decreases |ps|
  {
    hide Bound, Usable;
    if ps != [] {
      BoundTail(vars, ps, args, true);
      if ps[0].dir.Incoming() {
        PutsOne(Operand(ps[0].name, ps[0].dir == INOUT), InOperands(ps[1..]), InsOf(ps[1..], args[1..]), vars, e);
        PutsIns(ps[1..], args[1..], vars, e.Put(args[0]).0);
      } else {
        assert InOperands(ps) == InOperands(ps[1..]) && InsOf(ps, args) == InsOf(ps[1..], args[1..]);
        PutsIns(ps[1..], args[1..], vars, e);
      }
    }
  }

  lemma {:induction false} PutsOuts(ps: seq<Param>, args: seq<Value>, vars: Store, e: ValidCodec)
    requires |ps| == |args| && Bound(vars, ps, args, false)
    ensures ExecPuts(Operands(OutNames(ps), false), vars, e) == Some(PutAll(e, OutsOf(ps, args)))
    decreases |ps|
  {
    hide Bound, Usable;
    if ps != [] {
      BoundTail(vars, ps, args, false);
      if ps[0].dir.Outgoing() {
        assert Operands(OutNames(ps), false) == [Operand(ps[0].name, false)] + Operands(OutNames(ps[1..]), false);
        PutsOne(Operand(ps[0].name, false), Operands(OutNames(ps[1..]), false), OutsOf(ps[1..], args[1..]), vars, e);
        PutsOuts(ps[1..], args[1..], vars, e.Put(args[0]).0);
      } else {
        assert OutNames(ps) == OutNames(ps[1..]) && OutsOf(ps, args) == OutsOf(ps[1..], args[1..]);
        PutsOuts(ps[1..], args[1..], vars, e);
      }
    }
  }

  /** Reading a value of the variable's type. */
  lemma GetsOne(types: Types, x: Var, v: Value, rest: seq<Value>, d: ValidCodec)
    requires Fits(types, x.typeName, v) && Ready(d, [v] + rest)
    ensures var (d1, x1) := GetVar(types, x, d);
            x1 == x.(val := v) && Ready(d1, rest) && d1.buf.lim == d.buf.lim && |d1.buf.mem| == |d.buf.mem|
            && End(d1.buf.pos, Chunks(rest)) == End(d.buf.pos, Chunks([v] + rest))
  {
    hide Ready;
    ReadyGet(d, [v] + rest);
    assert ([v] + rest)[1..] == rest;
  }

  /** Only variables of these parameters have changed. */
  ghost predicate Untouched(ps: seq<Param>, vars: Store, vars': Store) {
    forall n :: n in vars && n !in Names(ps, ParamName) ==> n in vars' && vars'[n] == vars[n]
  }

  /** Giving the first parameter a new value leaves the others bound. */
  lemma BoundUpdate(vars: Store, ps: seq<Param>, args: seq<Value>, stub: bool, v: Value)
    requires ps != [] && DistinctNames(ps) && Bound(vars, ps, args, stub)
    ensures var x := Var(stub && ps[0].dir.Outgoing(), ps[0].typeName, v); var vars1 := vars[ps[0].name := x];
            && Bound(vars1, ps[1..], args[1..], stub) && DistinctNames(ps[1..])
               && ps[0].name !in Names(ps[1..], ParamName)
            && Untouched(ps, vars, vars1)
  {
    assert Names(ps, ParamName)[0] == ps[0].name;
  }

  lemma BoundJoin(vars: Store, vars': Store, ps: seq<Param>, vals: seq<Value>, stub: bool, v: Value)
    requires ps != [] && ps[0].name !in Names(ps[1..], ParamName)
    requires ps[0].name in vars && vars[ps[0].name] == Var(stub && ps[0].dir.Outgoing(), ps[0].typeName, v)
    requires Bound(vars', ps[1..], vals, stub) && Untouched(ps[1..], vars, vars')
    ensures Bound(vars', ps, [v] + vals, stub) && Untouched(ps, vars, vars')
  {
    hide Untouched, Names, Bound;
    UntouchedMore(ps, vars, vars');
    BoundCons(vars', ps, vals, stub, v);
  }

  lemma BoundCons(vars: Store, ps: seq<Param>, vals: seq<Value>, stub: bool, v: Value)
    requires ps != [] && Bound(vars, ps[1..], vals, stub)
    requires ps[0].name in vars && vars[ps[0].name] == Var(stub && ps[0].dir.Outgoing(), ps[0].typeName, v)
    ensures Bound(vars, ps, [v] + vals, stub)
  {
    assert forall i :: 0 < i < |ps| ==> ps[i] == ps[1..][i - 1];
  }

  lemma UntouchedMore(ps: seq<Param>, vars: Store, vars': Store)
    requires ps != [] && Untouched(ps[1..], vars, vars') && ps[0].name in vars
             && ps[0].name !in Names(ps[1..], ParamName)
    ensures Untouched(ps, vars, vars') && ps[0].name in vars' && vars'[ps[0].name] == vars[ps[0].name]
  {
    assert Names(ps, ParamName) == [ps[0].name] + Names(ps[1..], ParamName);
  }

  lemma UntouchedTrans(ps: seq<Param>, vars: Store, vars1: Store, vars2: Store)
    requires Untouched(ps, vars, vars1) && Untouched(ps, vars1, vars2)
    ensures Untouched(ps, vars, vars2)
  {
  }

  // ----- Reading values of which some may be missing -----

  /** A decoder from which the first `n` of the values can be read, and the next one cannot. */
  predicate Supplied(d: Codec, vs: seq<Value>, n: nat) {
    && d.Valid() && n <= |vs|
    && if d.good then
         && Ready(d, vs[..n])
         && (n < |vs| ==> d.buf.lim < AlignUp(End(d.buf.pos, Chunks(vs[..n])), |vs[n]|) + |vs[n]|)
       else n == 0
  }

  lemma ReadyIsGood(d: Codec, vs: seq<Value>)
    requires Ready(d, vs)
    ensures d.good
  {
  }

  /** What a variable holds after a value of its type has been read, or could not be. */
  function Read(typeName: string, v: Value, was: Value, there: bool): Value {
    if there then v else if typeName == "bool" then [0] else was
  }

  lemma SuppliedGet(types: Types, x: Var, vs: seq<Value>, n: nat, d: ValidCodec)
    requires vs != [] && Supplied(d, vs, n) && Fits(types, x.typeName, vs[0])
    ensures var (d1, x1) := GetVar(types, x, d);
            && x1 == x.(val := Read(x.typeName, vs[0], x.val, n > 0))
            && Supplied(d1, vs[1..], if n > 0 then n - 1 else 0) && (d1.good <==> n > 0)
            && |d1.buf.mem| == |d.buf.mem|
  {
    hide Ready, AlignUp, End;
    if n > 0 {
      assert vs[..n] == [vs[0]] + vs[1..][..n - 1];
      GetsOne(types, x, vs[0], vs[1..][..n - 1], d);
      ReadyIsGood(GetVar(types, x, d).0, vs[1..][..n - 1]);
    } else if d.good {
      assert vs[..0] == [];
      EmptyEnds(d.buf.pos);
      GetFails(d, |vs[0]|);
    }
  }

  lemma EmptyEnds(p: nat)
    ensures End(p, Chunks([])) == p
  {
  }

  /** The first operand of a chain of extractions. */
  lemma SuppliedFirst(types: Types, p: Param, deref: bool, ops: seq<Operand>, vars: Store, d: ValidCodec,
      vs: seq<Value>, n: nat) returns (d1: ValidCodec, v: Value)
    requires vs != [] && Supplied(d, vs, n) && Fits(types, p.typeName, vs[0])
    requires p.name in vars && vars[p.name].isPtr == deref && vars[p.name].typeName == p.typeName
    ensures v == Read(p.typeName, vs[0], vars[p.name].val, n > 0)
    ensures ExecGets(types, [Operand(p.name, deref)] + ops, vars, d)
            == ExecGets(types, ops, vars[p.name := vars[p.name].(val := v)], d1)
    ensures Supplied(d1, vs[1..], if n > 0 then n - 1 else 0) && (d1.good <==> n > 0)
    ensures |d1.buf.mem| == |d.buf.mem|
  {
    hide Supplied, Fits, GetVar, Read;
    var op := Operand(p.name, deref);
    assert ([op] + ops)[1..] == ops;
    SuppliedGet(types, vars[p.name], vs, n, d);
    d1 := GetVar(types, vars[p.name], d).0;
    v := GetVar(types, vars[p.name], d).1.val;
  }

  // ----- The stub takes the results -----

  predicate OutsFit(types: Types, ps: seq<Param>, outs: seq<Value>)
    requires |outs| == |OutNames(ps)|
    decreases |ps|
  {
    ps == []
    || (if ps[0].dir.Outgoing() then Fits(types, ps[0].typeName, outs[0]) && OutsFit(types, ps[1..], outs[1..])
        else OutsFit(types, ps[1..], outs))
  }

  /** The arguments once the first `n` results have been stored; the outgoing ones that are left
      keep their values, except that a bool is false then. */
  function PutFirst(ps: seq<Param>, args: seq<Value>, outs: seq<Value>, n: nat): (r: seq<Value>)
    requires |ps| == |args| && |outs| == |OutNames(ps)|
    ensures |r| == |ps|
    decreases |ps|
  {
    if ps == [] then []
    else if ps[0].dir.Outgoing() then
      [Read(ps[0].typeName, outs[0], args[0], n > 0)]
      + PutFirst(ps[1..], args[1..], outs[1..], if n > 0 then n - 1 else 0)
    else [args[0]] + PutFirst(ps[1..], args[1..], outs, n)
  }

  /** By the directions: the OUT and INOUT arguments whose results are among the first `n` have
      them, of the others the bools are false, and everything else is what it was. */
  lemma {:induction false} PutFirstPlaces(ps: seq<Param>, args: seq<Value>, outs: seq<Value>, n: nat, i: nat)
    requires |ps| == |args| && |outs| == |OutNames(ps)| && i < |ps|
    ensures var k, r := OutsAmong(ps, i), PutFirst(ps, args, outs, n);
            if ps[i].dir == OUT || ps[i].dir == INOUT then
              k < |outs| && r[i] == if k < n then outs[k] else if ps[i].typeName == "bool" then [0] else args[i]
            else r[i] == args[i]
    decreases |ps|
  {
    if i > 0 {
      AmongTail(ps, i);
      hide Read;
      var outgoing := ps[0].dir.Outgoing();
      var outs', n' := if outgoing then outs[1..] else outs, if outgoing && n > 0 then n - 1 else n;
      assert PutFirst(ps, args, outs, n)[1..] == PutFirst(ps[1..], args[1..], outs', n');
      PutFirstPlaces(ps[1..], args[1..], outs', n', i - 1);
    }
  }

  lemma {:induction false} PutFirstAll(ps: seq<Param>, args: seq<Value>, outs: seq<Value>, n: nat)
    requires |ps| == |args| && |outs| == |OutNames(ps)| <= n
    ensures PutFirst(ps, args, outs, n) == PutBack(ps, args, outs)
    decreases |ps|
  {
    if ps != [] {
      if ps[0].dir.Outgoing() {
        PutFirstAll(ps[1..], args[1..], outs[1..], n - 1);
      } else {
        PutFirstAll(ps[1..], args[1..], outs, n);
      }
    }
  }

  lemma {:induction false} GetsOuts(types: Types, ps: seq<Param>, args: seq<Value>, outs: seq<Value>, vars: Store,
          d: ValidCodec, more: seq<Value>, n: nat)
    requires |args| == |ps| && |outs| == |OutNames(ps)|
    requires DistinctNames(ps) && Bound(vars, ps, args, true) && OutsFit(types, ps, outs)
    requires Supplied(d, outs + more, n)
    ensures var r := ExecGets(types, Operands(OutNames(ps), true), vars, d);
            && r.Some?
            && Supplied(r.value.0, more, if n > |outs| then n - |outs| else 0)
            && (r.value.0.good <==> d.good && n >= |outs|)
            && Bound(r.value.1, ps, PutFirst(ps, args, outs, n), true) && Untouched(ps, vars, r.value.1)
    decreases |ps|
  {
    hide Bound, DistinctNames, Supplied, Fits, Usable, Untouched, Names, Read;
    if ps == [] {
      assert outs + more == more;
      BoundEmpty(vars, true);
    } else {
      BoundTail(vars, ps, args, true);
      if ps[0].dir.Outgoing() {
        var m := if n > 0 then n - 1 else 0;
        assert (outs + more)[1..] == outs[1..] + more;
        var ops := Operands(OutNames(ps[1..]), true);
        assert Operands(OutNames(ps), true) == [Operand(ps[0].name, true)] + ops;
        var d1, v := SuppliedFirst(types, ps[0], true, ops, vars, d, outs + more, n);
        var vars1 := vars[ps[0].name := vars[ps[0].name].(val := v)];
        BoundUpdate(vars, ps, args, true, v);
        GetsOuts(types, ps[1..], args[1..], outs[1..], vars1, d1, more, m);
        assert n > 0 ==> d.good by { SomeIsGood(d, outs + more, n); }
        var vars2 := ExecGets(types, ops, vars1, d1).value.1;
        BoundJoin(vars1, vars2, ps, PutFirst(ps[1..], args[1..], outs[1..], m), true, v);
        UntouchedTrans(ps, vars, vars1, vars2);
      } else {
        assert OutNames(ps) == OutNames(ps[1..]);
        BoundUpdate(vars, ps, args, true, args[0]);
        GetsOuts(types, ps[1..], args[1..], outs, vars, d, more, n);
        var vars2 := ExecGets(types, Operands(OutNames(ps[1..]), true), vars, d).value.1;
        BoundJoin(vars, vars2, ps, PutFirst(ps[1..], args[1..], outs, n), true, args[0]);
      }
    }
  }

  lemma SomeIsGood(d: Codec, vs: seq<Value>, n: nat)
    requires Supplied(d, vs, n)
    ensures n > 0 ==> d.good
  {
  }

  lemma BoundEmpty(vars: Store, stub: bool)
    ensures Bound(vars, [], [], stub) && Untouched([], vars, vars)
  {
  }

  // ----- The handler takes the arguments -----

  predicate InsFit(types: Types, ps: seq<Param>, args: seq<Value>)
    requires |ps| == |args|
  {
    forall i :: 0 <= i < |ps| && ps[i].dir.Incoming() ==> Fits(types, ps[i].typeName, args[i])
  }

  /** What the variables of the parameters hold when only the first `n` incoming values can be
      read: the others keep what they held, except that a bool is false then. */
  function Arrived(ps: seq<Param>, args: seq<Value>, was: seq<Value>, n: nat): (r: seq<Value>)
    requires |ps| == |args| == |was|
    ensures |r| == |ps|
    decreases |ps|
  {
    if ps == [] then []
    else if !ps[0].dir.Incoming() then [was[0]] + Arrived(ps[1..], args[1..], was[1..], n)
    else
      [Read(ps[0].typeName, args[0], was[0], n > 0)]
      + Arrived(ps[1..], args[1..], was[1..], if n > 0 then n - 1 else 0)
  }

  /** By the directions: the variables of the IN and INOUT parameters whose values are among the
      first `n` have them, of the others the bools are false, and everything else is what it
      was. */
  lemma {:induction false} ArrivedPlaces(ps: seq<Param>, args: seq<Value>, was: seq<Value>, n: nat, i: nat)
    requires |ps| == |args| == |was| && i < |ps|
    ensures Arrived(ps, args, was, n)[i]
            == if ps[i].dir == OUT then was[i]
               else if InsAmong(ps, i) < n then args[i]
               else if ps[i].typeName == "bool" then [0] else was[i]
    decreases |ps|
  {
    if i > 0 {
      AmongTail(ps, i);
      ArrivedPlaces(ps[1..], args[1..], was[1..], if ps[0].dir.Incoming() && n > 0 then n - 1 else n, i - 1);
    }
  }

  /** The method is passed the values that have arrived, then what stands for the missing ones. */
  lemma {:induction false} ArrivedIns(ps: seq<Param>, args: seq<Value>, was: seq<Value>, n: nat)
    requires |ps| == |args| == |was| && n <= |InsOf(ps, args)|
    ensures var ins := InsOf(ps, Arrived(ps, args, was, n));
            |ins| == |InsOf(ps, args)| && ins[..n] == InsOf(ps, args)[..n]
    decreases |ps|
  {
    if ps != [] {
      var m := if ps[0].dir.Incoming() && n > 0 then n - 1 else n;
      ArrivedIns(ps[1..], args[1..], was[1..], m);
      var ins, ins' := InsOf(ps, args), InsOf(ps, Arrived(ps, args, was, n));
      if ps[0].dir.Incoming() {
        assert ins[1..] == InsOf(ps[1..], args[1..]);
        assert ins'[1..] == InsOf(ps[1..], Arrived(ps[1..], args[1..], was[1..], m));
        if n > 0 {
          assert ins[..n] == [ins[0]] + ins[1..][..m] && ins'[..n] == [ins'[0]] + ins'[1..][..m];
        }
      }
    }
  }

  lemma {:induction false} GetsIns(types: Types, ps: seq<Param>, args: seq<Value>, was: seq<Value>, vars: Store,
          d: ValidCodec, n: nat)
    requires |args| == |ps| == |was|
    requires DistinctNames(ps) && Bound(vars, ps, was, false) && InsFit(types, ps, args)
    requires Supplied(d, InsOf(ps, args), n)
    ensures var r := ExecGets(types, Operands(InNames(ps), false), vars, d);
            && r.Some? && |r.value.0.buf.mem| == |d.buf.mem|
            && Bound(r.value.1, ps, Arrived(ps, args, was, n), false) && Untouched(ps, vars, r.value.1)
    decreases |ps|
  {
    hide Bound, DistinctNames, Supplied, Fits, Usable, Untouched, Names, Read;
    if ps == [] {
      BoundEmpty(vars, false);
    } else {
      BoundTail(vars, ps, was, false);
      if ps[0].dir.Incoming() {
        var ins := InsOf(ps, args);
        var op := Operand(ps[0].name, false);
        assert ins[0] == args[0] && ins[1..] == InsOf(ps[1..], args[1..]);
        assert Operands(InNames(ps), false) == [op] + Operands(InNames(ps[1..]), false);
        var d1, v := SuppliedFirst(types, ps[0], false, Operands(InNames(ps[1..]), false), vars, d, ins, n);
        var m := if n > 0 then n - 1 else 0;
        var vars1 := vars[op.name := vars[op.name].(val := v)];
        BoundUpdate(vars, ps, was, false, v);
        GetsIns(types, ps[1..], args[1..], was[1..], vars1, d1, m);
        var vars2 := ExecGets(types, Operands(InNames(ps[1..]), false), vars1, d1).value.1;
        BoundJoin(vars1, vars2, ps, Arrived(ps[1..], args[1..], was[1..], m), false, v);
        UntouchedTrans(ps, vars, vars1, vars2);
      } else {
        assert InNames(ps) == InNames(ps[1..]) && InsOf(ps, args) == InsOf(ps[1..], args[1..]);
        BoundUpdate(vars, ps, was, false, was[0]);
        GetsIns(types, ps[1..], args[1..], was[1..], vars, d, n);
        var vars2 := ExecGets(types, Operands(InNames(ps[1..]), false), vars, d).value.1;
        BoundJoin(vars, vars2, ps, Arrived(ps[1..], args[1..], was[1..], n), false, was[0]);
      }
    }
  }

  // ----- The handler calls the method and answers -----

  function JunkOf(junk: Junk, ps: seq<Param>): (r: seq<Value>)
    ensures |r| == |ps|
    decreases |ps|
  {
    if ps == [] then [] else [junk(ps[0].typeName)] + JunkOf(junk, ps[1..])
  }

  /** The declarations of a handler. */
  lemma {:induction false} DeclsRun<S>(t: Target<S>, ps: seq<Param>, code: seq<SkelStmt>, s: SkelState<S>)
    returns (vars: Store)
    requires DistinctNames(ps) && forall i :: 0 <= i < |ps| ==> ps[i].name !in s.vars
    ensures ExecSkel(t, Decls(ps) + code, s) == ExecSkel(t, code, s.(vars := vars))
    ensures Bound(vars, ps, JunkOf(t.junk, ps), false) && Untouched(ps, s.vars, vars)
    decreases |ps|
  {
    if ps == [] {
      assert Decls(ps) + code == code;
      vars := s.vars;
    } else {
      var p := ps[0];
      var x := Var(false, p.typeName, t.junk(p.typeName));
      var vars1 := s.vars[p.name := x];
      assert (Decls(ps) + code)[0] == Decl(p.typeName, p.name);
      assert (Decls(ps) + code)[1..] == Decls(ps[1..]) + code;
      vars := DeclsRun(t, ps[1..], code, s.(vars := vars1));
      assert p.name !in Names(ps[1..], ParamName);
      BoundJoin(vars1, vars, ps, JunkOf(t.junk, ps[1..]), false, x.val);
      DeclaredOnly(ps, s.vars, vars1, vars);
    }
  }

  lemma DeclaredOnly(ps: seq<Param>, vars: Store, vars1: Store, vars2: Store)
    requires ps != [] && Untouched(ps, vars1, vars2)
    requires forall n :: n in vars && n != ps[0].name ==> n in vars1 && vars1[n] == vars[n]
    ensures Untouched(ps, vars, vars2)
  {
    assert Names(ps, ParamName)[0] == ps[0].name;
  }

  /** The outgoing values are put back in their places, the other arguments stay. */
  lemma PutBackParts(ps: seq<Param>, args: seq<Value>, outs: seq<Value>)
    requires |ps| == |args| && |outs| == |OutNames(ps)|
    ensures OutsOf(ps, PutBack(ps, args, outs)) == outs
    ensures forall i :: 0 <= i < |ps| && !ps[i].dir.Outgoing() ==> PutBack(ps, args, outs)[i] == args[i]
  {
    PutBackOuts(ps, args, outs);
    forall i | 0 <= i < |ps| && !ps[i].dir.Outgoing() ensures PutBack(ps, args, outs)[i] == args[i] {
      PutBackOther(ps, args, outs, i);
    }
  }

  lemma PutBackStep(ps: seq<Param>, args: seq<Value>, outs: seq<Value>) returns (outs': seq<Value>)
    requires |ps| == |args| && |outs| == |OutNames(ps)| && ps != []
    ensures |outs'| == |OutNames(ps[1..])|
    ensures if ps[0].dir.Outgoing() then outs == [outs[0]] + outs'
            && PutBack(ps, args, outs) == [outs[0]] + PutBack(ps[1..], args[1..], outs')
            else outs == outs' && PutBack(ps, args, outs) == [args[0]] + PutBack(ps[1..], args[1..], outs')
  {
    outs' := if ps[0].dir.Outgoing() then outs[1..] else outs;
  }

  lemma {:induction false} PutBackOuts(ps: seq<Param>, args: seq<Value>, outs: seq<Value>)
    requires |ps| == |args| && |outs| == |OutNames(ps)|
    ensures OutsOf(ps, PutBack(ps, args, outs)) == outs
    decreases |ps|
  {
    if ps != [] {
      var outs' := PutBackStep(ps, args, outs);
      PutBackOuts(ps[1..], args[1..], outs');
      hide PutBack, OutNames;
      var rest := PutBack(ps[1..], args[1..], outs');
      assert PutBack(ps, args, outs)[1..] == rest;
    }
  }

  lemma {:induction false} PutBackOther(ps: seq<Param>, args: seq<Value>, outs: seq<Value>, i: nat)
    requires |ps| == |args| && |outs| == |OutNames(ps)| && i < |ps| && !ps[i].dir.Outgoing()
    ensures PutBack(ps, args, outs)[i] == args[i]
    decreases |ps|
  {
    var outs' := PutBackStep(ps, args, outs);
    if i > 0 {
      PutBackOther(ps[1..], args[1..], outs', i - 1);
    }
  }

  lemma {:induction false} StoreArgsBound(ps: seq<Param>, was: seq<Value>, vals: seq<Value>, vars: Store)
    requires |vals| == |ps| == |was| && DistinctNames(ps) && Bound(vars, ps, was, false)
    requires forall i :: 0 <= i < |ps| && !ps[i].dir.Outgoing() ==> vals[i] == was[i]
    ensures var vars' := StoreArgs(Args(ps), vals, vars);
            Bound(vars', ps, vals, false) && Untouched(ps, vars, vars')
    decreases |ps|
  {
    hide Bound, DistinctNames, Untouched, Names;
    if ps == [] {
      BoundEmpty(vars, false);
    } else {
      BoundTail(vars, ps, was, false);
      BoundUpdate(vars, ps, was, false, vals[0]);
      var n := ps[0].name;
      var vars1 := vars[n := vars[n].(val := vals[0])];
      assert !ps[0].dir.Outgoing() ==> vars1 == vars;
      assert Args(ps)[1..] == Args(ps[1..]);
      StoreArgsBound(ps[1..], was[1..], vals[1..], vars1);
      var vars2 := StoreArgs(Args(ps[1..]), vals[1..], vars1);
      assert [vals[0]] + vals[1..] == vals;
      BoundJoin(vars1, vars2, ps, vals[1..], false, vals[0]);
      UntouchedTrans(ps, vars, vars1, vars2);
    }
  }

  /** What the response carries. */
  function Results<S>(f: Func, r: Outcome<S>): seq<Value> {
    r.outs + if f.IsVoid() then [] else [r.ret]
  }

  lemma CallRuns<S>(t: Target<S>, k: nat, s: SkelState<S>, now: seq<Value>, r: Outcome<S>)
    requires WellFormed(t.inf) && k < |t.inf.funcs|
    requires |now| == |t.inf.funcs[k].params| && Bound(s.vars, t.inf.funcs[k].params, now, false)
    requires r == t.impl(s.obj, t.inf.funcs[k].name, InsOf(t.inf.funcs[k].params, now))
             && |r.outs| == |OutNames(t.inf.funcs[k].params)|
    ensures var f := t.inf.funcs[k]; var ps := f.params; var vals := PutBack(ps, now, r.outs);
            var ret := if f.IsVoid() then None else Some(r.ret);
            ExecCall(t, f.name, Args(ps), !f.IsVoid(), s)
            == Some(s.(obj := r.obj, vars := StoreArgs(Args(ps), vals, s.vars), ret := ret))
  {
    hide StoreArgs, PutBack, InsOf, WellFormed, Bound, CallMatches, ArgValues, Args, IndexOf, Names, Handlers, CmdFunc,
        OutNames;
    FindsFunc(t.inf, k);
    ArgsMatch(t.inf.funcs[k], s.vars, now);
  }

  lemma CallStores(ps: seq<Param>, vars: Store, now: seq<Value>, outs: seq<Value>)
    requires DistinctNames(ps) && |ps| == |now| && |outs| == |OutNames(ps)| && Bound(vars, ps, now, false)
    ensures var vals := PutBack(ps, now, outs); Bound(StoreArgs(Args(ps), vals, vars), ps, vals, false)
  {
    hide DistinctNames, Bound, StoreArgs, OutsOf, PutBack, OutNames;
    PutBackParts(ps, now, outs);
    StoreArgsBound(ps, now, PutBack(ps, now, outs), vars);
  }

  /** The generated call passes every parameter in its place and in the right way. */
  lemma ArgsMatch(f: Func, vars: Store, now: seq<Value>)
    requires Bound(vars, f.params, now, false)
    ensures CallMatches(f, Args(f.params), !f.IsVoid(), vars) && ArgValues(Args(f.params), vars) == now
  {
  }

  lemma ParamsDistinct(inf: Iface, k: nat)
    requires WellFormed(inf) && k < |inf.funcs|
    ensures DistinctNames(inf.funcs[k].params)
  {
  }

  lemma HeadRuns<S>(t: Target<S>, f: Func, code: seq<SkelStmt>, s: SkelState<S>, args: seq<Value>, n: nat)
    returns (s1: SkelState<S>)
    requires DistinctNames(f.params) && |args| == |f.params| && s.vars == map[]
    requires InsFit(t.types, f.params, args) && Supplied(s.param, InsOf(f.params, args), n)
    ensures ExecSkel(t, HandlerHead(f) + code, s) == ExecSkel(t, code, s1)
    ensures s1 == s.(vars := s1.vars, param := s1.param) && |s1.param.buf.mem| == |s.param.buf.mem|
    ensures Bound(s1.vars, f.params, Arrived(f.params, args, JunkOf(t.junk, f.params), n), false)
  {
    hide DistinctNames, Supplied, Bound, InsFit, Decls, Arrived, InNames;
    var ps := f.params;
    var names := InNames(ps);
    var extract := if names != [] then [Extract(names)] else [];
    assert HandlerHead(f) + code == Decls(ps) + (extract + code);
    var vars := DeclsRun(t, ps, extract + code, s);
    GetsIns(t.types, ps, args, JunkOf(t.junk, ps), vars, s.param, n);
    var (d, vars1) := ExecGets(t.types, Operands(names, false), vars, s.param).value;
    s1 := s.(vars := vars1, param := d);
    if names == [] {
      assert extract + code == code && Operands(names, false) == [];
    } else {
      assert (extract + code)[0] == Extract(names) && (extract + code)[1..] == code;
    }
  }

  lemma TailRuns<S>(t: Target<S>, k: nat, s: SkelState<S>, now: seq<Value>, r: Outcome<S>)
    requires WellFormed(t.inf) && k < |t.inf.funcs|
    requires |now| == |t.inf.funcs[k].params| && Bound(s.vars, t.inf.funcs[k].params, now, false)
    requires r == t.impl(s.obj, t.inf.funcs[k].name, InsOf(t.inf.funcs[k].params, now))
             && |r.outs| == |OutNames(t.inf.funcs[k].params)|
    ensures var s2 := ExecSkel(t, HandlerTail(t.inf.funcs[k]), s);
            s2.Some? && s2.value.obj == r.obj && s2.value.param == s.param
            && s2.value.rsp == PutAll(s.rsp, Results(t.inf.funcs[k], r))
  {
    hide Bound, WellFormed, DistinctNames, InsOf, ExecCall, StoreArgs, PutBack, PutAll, OutsOf;
    var f := t.inf.funcs[k];
    var ps := f.params;
    CallRuns(t, k, s, now, r);
    ParamsDistinct(t.inf, k);
    CallStores(ps, s.vars, now, r.outs);
    var vals := PutBack(ps, now, r.outs);
    var s1 := ExecCall(t, f.name, Args(ps), !f.IsVoid(), s).value;
    PutBackParts(ps, now, r.outs);
    PutsOuts(ps, vals, s1.vars, s1.rsp);
    var call := CallMethod(f.name, Args(ps), !f.IsVoid());
    var insert := Insert(OutNames(ps), !f.IsVoid());
    if f.IsVoid() {
      assert r.outs + [] == r.outs;
    } else {
      PutAllMore(s1.rsp, r.outs, r.ret);
    }
    if OutNames(ps) != [] || !f.IsVoid() {
      SkelFirst(t, call, [insert, ReturnZero], s);
      SkelFirst(t, insert, [ReturnZero], s1);
    } else {
      SkelFirst(t, call, [ReturnZero], s);
    }
  }

  lemma SkelFirst<S>(t: Target<S>, stmt: SkelStmt, code: seq<SkelStmt>, s: SkelState<S>)
    ensures ExecSkel(t, [stmt] + code, s)
            == match SkelStep(t, stmt, s)
               case None => None
               case Some(s1) => ExecSkel(t, code, s1)
  {
    assert ([stmt] + code)[1..] == code;
  }

  /** What the method of function `f` is called with when `n` of the values have arrived. */
  function Passed<S>(t: Target<S>, f: Func, args: seq<Value>, n: nat): (now: seq<Value>)
    requires |args| == |f.params|
    ensures |now| == |f.params|
  {
    Arrived(f.params, args, JunkOf(t.junk, f.params), n)
  }

  /** A handler hands the arguments that have arrived to the method, and what its variables held
      for the others, and encodes what the method returns. */
  lemma HandlerRuns<S>(t: Target<S>, k: nat, obj: S, args: seq<Value>, n: nat, d: ValidCodec, e: ValidCodec)
    requires WellFormed(t.inf) && k < |t.inf.funcs| && |args| == |t.inf.funcs[k].params|
    requires InsFit(t.types, t.inf.funcs[k].params, args) && Supplied(d, InsOf(t.inf.funcs[k].params, args), n)
    requires Direct(t.impl, t.inf.funcs[k], obj, Passed(t, t.inf.funcs[k], args, n)).Some?
    ensures var f := t.inf.funcs[k]; var r := Direct(t.impl, f, obj, Passed(t, f, args, n)).value.0;
            var s := ExecSkel(t, HandlerBody(f), SkelState(obj, map[], None, d, e));
            s.Some? && s.value.obj == r.obj && s.value.rsp == PutAll(e, Results(f, r))
            && |s.value.param.buf.mem| == |d.buf.mem|
  {
    hide WellFormed, InsFit, Supplied, HandlerHead, HandlerTail, ExecSkel, Results, Bound, Arrived;
    var f := t.inf.funcs[k];
    ParamsDistinct(t.inf, k);
    var s1 := HeadRuns(t, f, HandlerTail(f), SkelState(obj, map[], None, d, e), args, n);
    TailRuns(t, k, s1, Passed(t, f, args, n), Direct(t.impl, f, obj, Passed(t, f, args, n)).value.0);
  }

  // ----- The server's answer -----

  /** The call as it travels. */
  function RequestOf(inf: Iface, id: u32, k: nat, args: seq<Value>): Request
    requires k < |inf.funcs| && k < 0x1_0000_0000 && |args| == |inf.funcs[k].params|
  {
    Request(id, KEY, k, InsOf(inf.funcs[k].params, args))
  }

  lemma KeyFound()
    ensures Lookup([Entry(KEY, 1)], KEY) == 1
  {
  }

  /** How many of the values a buffer of `cap` bytes takes, and how far its position gets: behind
      a value that does not fit, it may stand at the alignment for that value. */
  function Taken(cap: nat, vs: seq<Value>): (m: nat)
    ensures m <= |vs|
  {
    Accepted(0, cap, vs)
  }

  function Reached(cap: nat, vs: seq<Value>): nat {
    var m := Taken(cap, vs);
    var end := End(0, Chunks(vs[..m]));
    if m == |vs| then end else FailPos(end, |vs[m]|, cap)
  }

  /** An encoder over a whole buffer holds what it has taken, and the next value has no room
      behind it. */
  lemma Encodes(c: Codec, vs: seq<Value>)
    requires c.Valid() && c.good && c.buf.pos == 0 && c.buf.lim == |c.buf.mem|
    ensures var m, len := Taken(|c.buf.mem|, vs), Reached(|c.buf.mem|, vs);
            && Holding(PutAll(c, vs), vs[..m], len)
            && (m < |vs| ==> len < AlignUp(End(0, Chunks(vs[..m])), |vs[m]|) + |vs[m]|)
  {
    hide AlignUp, Holds, End;
    var m := Taken(|c.buf.mem|, vs);
    PutAllPrefix(c, vs);
    PutAllIff(c, vs[..m]);
    assert m == |vs| ==> vs[..m] == vs;
    PlaceHolds(c.buf.mem, 0, Chunks(vs[..m]));
  }

  /** What fits is taken. */
  lemma TakesAll(cap: nat, vs: seq<Value>)
    requires End(0, Chunks(vs)) <= cap
    ensures Taken(cap, vs) == |vs| && vs[..|vs|] == vs && Reached(cap, vs) == End(0, Chunks(vs))
  {
    assert vs[..|vs|] == vs;
    AcceptedIsLongestPrefix(0, cap, vs, |vs|);
  }

  /** The server answers a request that carries the first `n` incoming arguments, and too little
      behind them for the next, with what its buffer takes of what the method returns for what it
      is passed then. */
  lemma ServerAnswers<S(!new)>(t: Target<S>, id: u32, k: nat, obj: S, args: seq<Value>, n: nat, z: Sizes)
    requires WellFormed(t.inf) && k < |t.inf.funcs| && |args| == |t.inf.funcs[k].params|
    requires InsFit(t.types, t.inf.funcs[k].params, args) && n <= |InsOf(t.inf.funcs[k].params, args)|
    requires var ins := InsOf(t.inf.funcs[k].params, args);
             n < |ins| ==> z.lim < AlignUp(z.end, |ins[n]|) + |ins[n]|
    requires var f := t.inf.funcs[k]; var direct := Direct(t.impl, f, obj, Passed(t, f, args, n));
             direct.Some? && z.len == Reached(z.cap, Results(f, direct.value.0))
    ensures var f := t.inf.funcs[k]; var r := Direct(t.impl, f, obj, Passed(t, f, args, n)).value.0;
            var req := Request(id, KEY, k, InsOf(f.params, args)[..n]);
            var ans := Answer(r.obj, 0, Results(f, r)[..Taken(z.cap, Results(f, r))]);
            AnswersIn(ServerDispatch(t, EnumCode(t.inf), SkelCode(t.inf)), obj, req, z, ans)
  {
    hide Ready, Direct, InsFit, HandlerBody, ExecSkel, SkelInvoke, EnumCode, SkelCode, Lookup, Results, Passed, Holding,
        Taken, Reached;
    var f := t.inf.funcs[k];
    var r := Direct(t.impl, f, obj, Passed(t, f, args, n)).value.0;
    var outs := Results(f, r);
    var req := Request(id, KEY, k, InsOf(f.params, args)[..n]);
    var dispatch := ServerDispatch(t, EnumCode(t.inf), SkelCode(t.inf));
    KeyFound();
    forall d: ValidCodec, e: ValidCodec |
        Ready(d, req.args) && End(d.buf.pos, Chunks(req.args)) == z.end && d.buf.lim == z.lim
        && Wrote(e, []) && |e.buf.mem| == e.buf.lim == z.cap
      ensures var x := dispatch(obj, req.tgt, req.op, d, e);
              && x.0 == r.obj && x.1 == 0 && |x.2.buf.mem| == |d.buf.mem|
              && Holding(x.3, outs[..Taken(z.cap, outs)], z.len) && |x.3.buf.mem| == z.cap
    {
      InvokeReaches(t, obj, k, d, e);
      assert d.good by { ReadyIsGood(d, req.args); }
      HandlerRuns(t, k, obj, args, n, d, e);
      Encodes(e, outs);
    }
  }

  /** A number without a function gets its error code alone, and touches nothing. */
  lemma UnknownOpAnswered<S>(host: Order, t: Target<S>, srv: Server<S>, d: ValidCodec, rest: seq<byte>)
    requires srv.Valid() && WellFormed(t.inf)
    requires var s := GetCmdHdr(host, srv, d).0; s.tgtObj == KEY && s.operation >= |t.inf.funcs|
    ensures var dispatch := ServerDispatch(t, EnumCode(t.inf), SkelCode(t.inf));
            var r := ServeCommand(host, dispatch, srv, d, rest);
            Handled(host, dispatch, srv, d).1 == -1 && |r.out| == 16 && r.srv.objs == srv.objs
  {
    hide EnumCode, SkelCode, SkelInvoke, Lookup, U32Bytes, I32Bytes, GetU32;
    var (s, d1) := GetCmdHdr(host, srv, d);
    KeyFound();
    InvokeReaches(t, srv.objs, s.operation, d1, Codec(srv.rspBuf, true).Clear());
    UntouchedResponseIsEmpty(host, ServerDispatch(t, EnumCode(t.inf), SkelCode(t.inf)), srv, d, rest);
  }

  /** Whatever a command asks for: when a generated skeleton answers with an error, the code is
      all that is sent and the object has not changed. */
  lemma FailureSendsCodeAlone<S>(host: Order, t: Target<S>, consts: seq<string>, skel: Skel, srv: Server<S>,
          d: ValidCodec, rest: seq<byte>)
    requires srv.Valid() && Handled(host, ServerDispatch(t, consts, skel), srv, d).1 < 0
    ensures var r := ServeCommand(host, ServerDispatch(t, consts, skel), srv, d, rest);
            |r.out| == 16 && r.srv.objs == srv.objs
  {
    hide U32Bytes, I32Bytes, GetU32, Lookup, IndexOf, RunHandler;
    UntouchedResponseIsEmpty(host, ServerDispatch(t, consts, skel), srv, d, rest);
  }

  // ----- The stub -----

  lemma StubFirst<S>(c: Client<S>, stmt: StubStmt, code: seq<StubStmt>, s: StubState<S>)
    requires s.Valid() && s.result.None?
    ensures ExecStub(c, [stmt] + code, s)
            == match StubStep(c, stmt, s)
               case None => None
               case Some(s1) => ExecStub(c, code, s1)
  {
    assert ([stmt] + code)[1..] == code;
  }

  /** Up to the call: the command buffer holds the request. */
  lemma StubHeadRuns<S>(c: Client<S>, inf: Iface, k: nat, code: seq<StubStmt>, s: StubState<S>, args: seq<Value>)
    requires WellFormed(inf) && k < |inf.funcs| && c.consts == EnumCode(inf)
    requires s.Valid() && s.result.None? && |args| == |inf.funcs[k].params|
             && Bound(s.vars, inf.funcs[k].params, args, true)
    ensures var s1 := s.(cmd := PutAll(s.cmd, CmdValues(c.host, RequestOf(inf, c.id, k, args))));
            ExecStub(c, StubHead(inf.funcs[k]) + code, s) == ExecStub(c, code, s1)
  {
    hide WellFormed, EnumCode, Bound, InOperands, ExecStub, CmdConst, InNames;
    var f := inf.funcs[k];
    ConstIsIndex(inf, k);
    SmallIndex(inf, k);
    var hdr := CmdValues(c.host, Request(c.id, KEY, k, []));
    var ins := InsOf(f.params, args);
    assert hdr + ins == CmdValues(c.host, RequestOf(inf, c.id, k, args));
    PutAllSplit(s.cmd, hdr, ins);
    var s1 := s.(cmd := PutAll(s.cmd, hdr));
    PutsIns(f.params, args, s.vars, s1.cmd);
    var puts := if InNames(f.params) != [] then [PutIns(InOperands(f.params))] else [];
    assert StubHead(f) + code == [PutCmdHdr(CmdConst(f))] + (puts + code);
    StubFirst(c, PutCmdHdr(CmdConst(f)), puts + code, s);
    if InNames(f.params) != [] {
      StubFirst(c, PutIns(InOperands(f.params)), code, s1);
    } else {
      NoIns(f.params, args);
      assert puts + code == code;
    }
  }

  lemma SmallIndex(inf: Iface, k: nat)
    requires WellFormed(inf) && k < |inf.funcs|
    ensures k < 0x1_0000_0000 && k < |EnumCode(inf)|
  {
  }

  lemma {:induction false} NoIns(ps: seq<Param>, args: seq<Value>)
    requires |ps| == |args| && InNames(ps) == []
    ensures InsOf(ps, args) == []
    decreases |ps|
  {
    if ps != [] {
      NoIns(ps[1..], args[1..]);
    }
  }

  /** The results are of the declared types. */
  predicate ResultsFit<S>(types: Types, f: Func, r: Outcome<S>) {
    && |r.outs| == |OutNames(f.params)| && OutsFit(types, f.params, r.outs)
    && (!f.IsVoid() ==> Fits(types, f.typeName, r.ret))
  }

  /** Taking the first `n` results off the response. */
  lemma OutsTaken<S>(c: Client<S>, f: Func, args: seq<Value>, r: Outcome<S>, n: nat, s: StubState<S>)
      returns (s1: StubState<S>)
    requires s.Valid() && |args| == |f.params| && DistinctNames(f.params) && Bound(s.vars, f.params, args, true)
    requires ResultsFit(c.types, f, r) && Supplied(Codec(s.rsp.buf, true), Results(f, r), n)
    requires !f.IsVoid() ==> s.ret.Some? && s.ret.value.typeName == f.typeName
    ensures ExecOuts(c, OutNames(f.params), !f.IsVoid(), s) == Some(s1)
    ensures s1 == s.(dec := s1.dec, vars := s1.vars, ret := s1.ret) && (s1.dec.good <==> n == |Results(f, r)|)
    ensures Bound(s1.vars, f.params, PutFirst(f.params, args, r.outs, n), true)
    ensures !f.IsVoid() ==> s1.ret.Some? && (s1.dec.good ==> s1.ret.value.val == r.ret)
  {
    hide DistinctNames, Bound, Fits, OutsFit, GetVar, Ready, End, AlignUp;
    var more := if f.IsVoid() then [] else [r.ret];
    GetsOuts(c.types, f.params, args, r.outs, s.vars, Codec(s.rsp.buf, true), more, n);
    var (d, vars) := ExecGets(c.types, Operands(OutNames(f.params), true), s.vars, Codec(s.rsp.buf, true)).value;
    if !f.IsVoid() {
      SuppliedGet(c.types, s.ret.value, more, if n > |r.outs| then n - |r.outs| else 0, d);
    }
    s1 := ExecOuts(c, OutNames(f.params), !f.IsVoid(), s).value;
  }

  lemma {:induction false} BindBinds(ps: seq<Param>, args: seq<Value>)
    requires |ps| == |args| && DistinctNames(ps)
    ensures Bound(Bind(ps, args), ps, args, true)
    decreases |ps|
  {
    if ps != [] {
      BindBinds(ps[1..], args[1..]);
    }
  }

  lemma ReadBackBound(ps: seq<Param>, args: seq<Value>, vars: Store)
    requires Bound(vars, ps, args, true)
    ensures ReadBack(ps, vars) == args
  {
  }

  /** What a stub returns when `n` of the results have arrived: it does not notice that some are
      missing unless it returns a value. */
  function ReturnOf<S>(f: Func, r: Outcome<S>, n: nat): StubResult {
    if f.typeName == "void" then Returns(None)
    else if n == |Results(f, r)| then Returns(Some(r.ret))
    else Fails(ErrValOf(f.typeName))
  }

  function ResultOf<S>(s: StubState<S>): StubResult { if s.result.Some? then s.result.value else Returns(None) }

  /** From the call on, once it has been answered. */
  lemma StubTailRuns<S>(c: Client<S>, f: Func, args: seq<Value>, r: Outcome<S>, n: nat, s: StubState<S>,
          s1: StubState<S>) returns (s2: StubState<S>)
    requires s.Valid() && s.result.None? && |args| == |f.params| && DistinctNames(f.params)
             && Bound(s.vars, f.params, args, true)
    requires ResultsFit(c.types, f, r) && ExecSend(c, s) == Some((0, s1)) && s1 == s.(rsp := s1.rsp, link := s1.link)
    requires Results(f, r) != [] ==> Supplied(Codec(s1.rsp.buf, true), Results(f, r), n)
    ensures |r.outs| == |OutNames(f.params)|
    ensures ExecStub(c, StubTail(f), s) == Some(s2) && s2.link == s1.link
    ensures Bound(s2.vars, f.params, PutFirst(f.params, args, r.outs, n), true)
    ensures ResultOf(s2) == ReturnOf(f, r, n)
  {
    hide DistinctNames, Bound, Supplied, ResultsFit, ExecOuts, ExecSend, PutFirst;
    var outs := OutNames(f.params);
    SameOuts(c.types, f, r);
    if f.IsVoid() && outs == [] {
      NothingBack(f.params, args, n);
      StubFirst(c, Send, [], s);
      s2 := s1;
    } else if f.IsVoid() {
      s2 := OutsTaken(c, f, args, r, n, s1);
      StubFirst(c, SendChecked(ErrValOf(f.typeName)), [GetOuts(outs, false)], s);
      StubFirst(c, GetOuts(outs, false), [], s1);
    } else {
      s2 := ValueTailRuns(c, f, args, r, n, s, s1);
    }
  }

  lemma SameOuts<S>(types: Types, f: Func, r: Outcome<S>)
    requires ResultsFit(types, f, r)
    ensures |r.outs| == |OutNames(f.params)|
  {
  }

  lemma ValueTailRuns<S>(c: Client<S>, f: Func, args: seq<Value>, r: Outcome<S>, n: nat, s: StubState<S>,
          s1: StubState<S>) returns (s2: StubState<S>)
    requires s.Valid() && s.result.None? && |args| == |f.params| && DistinctNames(f.params)
             && Bound(s.vars, f.params, args, true)
    requires ResultsFit(c.types, f, r) && ExecSend(c, s) == Some((0, s1)) && s1 == s.(rsp := s1.rsp, link := s1.link)
    requires !f.IsVoid() && Supplied(Codec(s1.rsp.buf, true), Results(f, r), n)
    ensures |r.outs| == |OutNames(f.params)|
    ensures ExecStub(c, StubTail(f), s) == Some(s2) && s2.link == s1.link
    ensures Bound(s2.vars, f.params, PutFirst(f.params, args, r.outs, n), true)
    ensures s2.result == Some(ReturnOf(f, r, n))
  {
    hide DistinctNames, Bound, Supplied, ResultsFit, ExecOuts, ExecSend, PutFirst, Results, ErrValOf, OutNames;
    var outs, err := OutNames(f.params), ErrValOf(f.typeName);
    SameOuts(c.types, f, r);
    var sd := s1.(ret := Some(Var(false, f.typeName, c.junk(f.typeName))));
    var s3 := OutsTaken(c, f, args, r, n, sd);
    s2 := s3.(result := Some(ReturnOf(f, r, n)));
    StubFirst(c, SendChecked(err), [DeclRet(f.typeName), GetOuts(outs, true), ReturnRet(err)], s);
    StubFirst(c, DeclRet(f.typeName), [GetOuts(outs, true), ReturnRet(err)], s1);
    StubFirst(c, GetOuts(outs, true), [ReturnRet(err)], sd);
    StubFirst(c, ReturnRet(err), [], s3);
  }

  /** A negative answer makes the stub return its error value with nothing stored, except that a
      void function without outgoing parameters does not look at the answer. */
  lemma FailureReported<S>(c: Client<S>, f: Func, s: StubState<S>, s1: StubState<S>, reply: int)
    requires s.Valid() && s.result.None? && reply < 0
    requires ExecSend(c, s) == Some((reply, s1)) && s1 == s.(rsp := s1.rsp, link := s1.link)
    ensures ExecStub(c, StubTail(f), s) ==
            Some(if f.IsVoid() && OutNames(f.params) == [] then s1
                else s1.(result := Some(Fails(ErrValOf(f.typeName)))))
  {
    hide ExecSend, ExecOuts;
    var code := StubTail(f);
    StubFirst(c, code[0], code[1..], s);
    assert [code[0]] + code[1..] == code;
  }

  lemma {:induction false} NothingBack(ps: seq<Param>, args: seq<Value>, n: nat)
    requires |ps| == |args| && OutNames(ps) == []
    ensures PutFirst(ps, args, [], n) == args
    decreases |ps|
  {
    if ps != [] {
      NothingBack(ps[1..], args[1..], n);
    }
  }

  // ----- The theorem -----

  /** At most junk without a 'C' is on its way to the server, and nothing on its way back. */
  predicate Quiet<S>(link: Link<S>) {
    link.srv.Valid() && PacketHeader.C !in link.up && link.down == []
  }

  /** Code compiled from one interface, linked at both ends. */
  ghost predicate Linked<S>(c: Client<S>, t: Target<S>) {
    && WellFormed(t.inf) && c.types == t.types && c.consts == EnumCode(t.inf)
    && c.dispatch == ServerDispatch(t, EnumCode(t.inf), SkelCode(t.inf))
  }

  /** How many of the incoming arguments are sent. */
  function SentArgs(host: Order, req: Request): (n: nat)
    ensures n <= |req.args|
  {
    HeaderTaken(host, req);
    Taken(DFLT_CMD_RSP_SIZE, CmdValues(host, req)) - 3
  }

  /** The command header fits. */
  lemma HeaderTaken(host: Order, req: Request)
    ensures Taken(DFLT_CMD_RSP_SIZE, CmdValues(host, req)) >= 3
  {
    var vs := CmdValues(host, req);
    assert Chunks(vs[..3]) == [Chunk(4, vs[0]), Chunk(4, vs[1]), Chunk(4, vs[2])];
    HeaderEnds(vs[0], vs[1], vs[2]);
    AcceptedIsLongestPrefix(0, DFLT_CMD_RSP_SIZE, vs, 3);
  }

  lemma HeaderEnds(a: Value, b: Value, c: Value)
    requires |a| == |b| == |c| == 4
    ensures End(0, [Chunk(4, a), Chunk(4, b), Chunk(4, c)]) == 12
  {
    var cs := [Chunk(4, a), Chunk(4, b), Chunk(4, c)];
    assert cs[1..][1..][1..] == [];
    assert End(12, cs[1..][1..][1..]) == 12;
    assert End(8, cs[1..][1..]) == 12;
    assert End(4, cs[1..]) == 12;
  }

  /** What the object gives for the arguments that are sent. */
  function DirectOnSent<S>(c: Client<S>, t: Target<S>, k: nat, args: seq<Value>, obj: S)
      : (r: Option<(Outcome<S>, seq<Value>)>)
    requires k < |t.inf.funcs| && k < 0x1_0000_0000 && |args| == |t.inf.funcs[k].params|
  {
    var n := SentArgs(c.host, RequestOf(t.inf, c.id, k, args));
    Direct(t.impl, t.inf.funcs[k], obj, Passed(t, t.inf.funcs[k], args, n))
  }

  /** Neither packet overruns the buffer it is received in, and a response without a payload is
      not taken for one that fills the buffer. */
  predicate PacketsFit(vs: seq<Value>, outs: seq<Value>, cmdCap: nat, rspCap: nat) {
    && Reached(DFLT_CMD_RSP_SIZE, vs) <= cmdCap && Reached(rspCap, outs) <= DFLT_CMD_RSP_SIZE
    && (outs != [] && Taken(rspCap, outs) == 0 ==> |outs[0]| > DFLT_CMD_RSP_SIZE)
  }

  /** A server made with buffers of the default size needs no such condition. */
  lemma DefaultsFit(vs: seq<Value>, outs: seq<Value>)
    ensures PacketsFit(vs, outs, DFLT_CMD_RSP_SIZE, DFLT_CMD_RSP_SIZE)
  {
    ReachedWithin(DFLT_CMD_RSP_SIZE, vs);
    ReachedWithin(DFLT_CMD_RSP_SIZE, outs);
  }

  lemma ReachedWithin(cap: nat, vs: seq<Value>)
    ensures Reached(cap, vs) <= cap
  {
    AcceptedIsLongestPrefix(0, cap, vs, Taken(cap, vs));
  }

  /** The arguments and the results the object gives for those that are sent are as declared. */
  predicate Deliverable<S>(c: Client<S>, t: Target<S>, k: nat, args: seq<Value>, obj: S, cmdCap: nat, rspCap: nat) {
    && k < |t.inf.funcs| && k < 0x1_0000_0000
    && var f := t.inf.funcs[k];
    && |args| == |f.params| && InsFit(t.types, f.params, args)
    && var direct := DirectOnSent(c, t, k, args, obj);
    && direct.Some? && ResultsFit(t.types, f, direct.value.0)
    && PacketsFit(CmdValues(c.host, RequestOf(t.inf, c.id, k, args)), Results(f, direct.value.0), cmdCap, rspCap)
  }

  /** A response in the stub's buffer, as its decoder finds it. */
  lemma ResponseSupplied(rsp: Buf<byte>, rsp': Buf<byte>, vs: seq<Value>, outs: seq<Value>, cmdCap: nat, cap: nat)
    requires rsp.Valid() && rsp.pos == 0 && rsp.lim == DFLT_CMD_RSP_SIZE
    requires PacketsFit(vs, outs, cmdCap, cap)
    requires Received(rsp, rsp', outs[..Taken(cap, outs)], Reached(cap, outs))
    requires var m := Taken(cap, outs);
             m < |outs| ==> Reached(cap, outs) < AlignUp(End(0, Chunks(outs[..m])), |outs[m]|) + |outs[m]|
    requires End(0, Chunks(outs[..Taken(cap, outs)])) <= Reached(cap, outs)
    ensures outs != [] ==> Supplied(Codec(rsp', true), outs, Taken(cap, outs))
  {
    hide Taken, Reached;
    var m := Taken(cap, outs);
    EndIsZeroIff(outs[..m]);
  }

  /** The exchange in the middle of a call. */
  lemma SendDelivers<S(!new)>(c: Client<S>, t: Target<S>, k: nat, args: seq<Value>, s: StubState<S>, mem: Memory,
          rsp: Memory) returns (s1: StubState<S>)
    requires WellFormed(t.inf) && s.Valid() && Quiet(s.link)
             && Deliverable(c, t, k, args, s.link.srv.objs, |s.link.srv.cmdBuf.mem|, |s.link.srv.rspBuf.mem|)
    requires c.dispatch == ServerDispatch(t, EnumCode(t.inf), SkelCode(t.inf))
    requires s.cmd == PutAll(NewBuffer(mem), CmdValues(c.host, RequestOf(t.inf, c.id, k, args)))
             && s.rsp == NewBuffer(rsp)
    ensures var r := DirectOnSent(c, t, k, args, s.link.srv.objs).value.0;
            var outs, cap := Results(t.inf.funcs[k], r), |s.link.srv.rspBuf.mem|;
            && ExecSend(c, s) == Some((0, s1)) && s1 == s.(rsp := s1.rsp, link := s1.link)
            && (outs != [] ==> Supplied(Codec(s1.rsp.buf, true), outs, Taken(cap, outs)))
            && s1.link.up == [] && s1.link.down == [] && s1.link.srv.Valid() && s1.link.srv.objs == r.obj
            && |s1.link.srv.cmdBuf.mem| == |s.link.srv.cmdBuf.mem|
            && |s1.link.srv.rspBuf.mem| == |s.link.srv.rspBuf.mem|
  {
    hide WellFormed, InsFit, ResultsFit, Direct, Results, Ready, AnswersIn, Exchange, ServerDispatch, EnumCode,
        SkelCode, Holds, Passed, Taken, Reached, AlignUp, End, Received, Supplied;
    var f, req := t.inf.funcs[k], RequestOf(t.inf, c.id, k, args);
    var r := DirectOnSent(c, t, k, args, s.link.srv.objs).value.0;
    var outs, cap := Results(f, r), |s.link.srv.rspBuf.mem|;
    var vs, n := CmdValues(c.host, req), SentArgs(c.host, req);
    var sent, ans := req.(args := req.args[..n]), Answer(r.obj, 0, outs[..Taken(cap, outs)]);
    Encodes(NewBuffer(mem), vs);
    assert vs[..Taken(DFLT_CMD_RSP_SIZE, vs)] == CmdValues(c.host, sent);
    assert n < |req.args| ==> req.args[n] == vs[n + 3];
    var z := Sizes(End(0, Chunks(CmdValues(c.host, sent))), s.cmd.buf.pos, |s.link.srv.cmdBuf.mem|, cap,
                   Reached(cap, outs));
    ServerAnswers(t, c.id, k, s.link.srv.objs, args, n, z);
    PacketDelivers(c.host, c.dispatch, s.link, c.m0, c.m1, s.cmd, s.rsp.buf, sent, ans, Reached(cap, outs));
    s1 := ExecSend(c, s).value.1;
    Encodes(Codec(Buf(Zeros(cap), 0, cap, 0), true), outs);
    ResponseSupplied(s.rsp.buf, s1.rsp.buf, vs, outs, |s.link.srv.cmdBuf.mem|, cap);
  }

  /** What a call through the generated code gives, whether or not its arguments and results fit
      the buffers: the state that a call on the object itself leaves in which the arguments that
      were not sent are replaced by what the handler's variables held; the results that the
      response had room for; and, if not all of them, the error value of the function, unless it
      is void. The channel is empty afterwards. */
  lemma RemoteMeansArrived<S(!new)>(c: Client<S>, t: Target<S>, k: nat, args: seq<Value>, link: Link<S>, cmd: Memory,
          rsp: Memory)
    requires Linked(c, t) && Quiet(link)
    requires Deliverable(c, t, k, args, link.srv.objs, |link.srv.cmdBuf.mem|, |link.srv.rspBuf.mem|)
    ensures var f := t.inf.funcs[k]; var r := DirectOnSent(c, t, k, args, link.srv.objs).value.0;
            var call := CallStub(c, f, StubCode(f), args, link, cmd, rsp);
            var n := Taken(|link.srv.rspBuf.mem|, Results(f, r));
            && |r.outs| == |OutNames(f.params)| && call.Some?
            && call.value.0 == ReturnOf(f, r, n)
            && call.value.1 == PutFirst(f.params, args, r.outs, n)
            && var link' := call.value.2;
            && link'.srv.objs == r.obj && Quiet(link') && link'.up == []
            && |link'.srv.cmdBuf.mem| == |link.srv.cmdBuf.mem| && |link'.srv.rspBuf.mem| == |link.srv.rspBuf.mem|
  {
    hide WellFormed, InsFit, ResultsFit, Results, Ready, ServerDispatch, EnumCode, SkelCode, StubHead, StubTail,
        ExecStub, ExecSend, Bind, PacketsFit, DirectOnSent, Taken, ReturnOf, PutFirst, Supplied;
    var f := t.inf.funcs[k];
    var r := DirectOnSent(c, t, k, args, link.srv.objs).value.0;
    var n := Taken(|link.srv.rspBuf.mem|, Results(f, r));
    ParamsDistinct(t.inf, k);
    BindBinds(f.params, args);
    var s := StubState(Bind(f.params, args), NewBuffer(cmd), NewBuffer(rsp), NewBuffer(rsp), None, link, None);
    StubHeadRuns(c, t.inf, k, StubTail(f), s, args);
    var s1 := s.(cmd := PutAll(s.cmd, CmdValues(c.host, RequestOf(t.inf, c.id, k, args))));
    var s2 := SendDelivers(c, t, k, args, s1, cmd, rsp);
    var s3 := StubTailRuns(c, f, args, r, n, s1, s2);
    ReadBackBound(f.params, PutFirst(f.params, args, r.outs, n), s3.vars);
  }

  /** The arguments, the results the object gives for them, and the packets are as declared. */
  predicate Callable<S>(c: Client<S>, t: Target<S>, k: nat, args: seq<Value>, obj: S, cmdCap: nat, rspCap: nat) {
    && k < |t.inf.funcs| && k < 0x1_0000_0000
    && var f := t.inf.funcs[k];
    && |args| == |f.params| && InsFit(t.types, f.params, args)
    && var direct := Direct(t.impl, f, obj, args);
    && direct.Some? && ResultsFit(t.types, f, direct.value.0)
    && var sent := End(0, Chunks(CmdValues(c.host, RequestOf(t.inf, c.id, k, args))));
    && var back := End(0, Chunks(Results(f, direct.value.0)));
    && sent <= DFLT_CMD_RSP_SIZE && sent <= cmdCap && back <= DFLT_CMD_RSP_SIZE && back <= rspCap
  }

  /** When the request fits, everything is sent and the method is passed what it would be passed
      directly. */
  lemma EverythingSent<S>(c: Client<S>, t: Target<S>, k: nat, args: seq<Value>, obj: S)
    requires k < |t.inf.funcs| && k < 0x1_0000_0000 && |args| == |t.inf.funcs[k].params|
    requires End(0, Chunks(CmdValues(c.host, RequestOf(t.inf, c.id, k, args)))) <= DFLT_CMD_RSP_SIZE
    ensures var direct, sent := Direct(t.impl, t.inf.funcs[k], obj, args), DirectOnSent(c, t, k, args, obj);
            direct.Some? == sent.Some? && (direct.Some? ==> direct.value.0 == sent.value.0)
  {
    hide End, Arrived, JunkOf, Taken, Reached;
    var f, req := t.inf.funcs[k], RequestOf(t.inf, c.id, k, args);
    TakesAll(DFLT_CMD_RSP_SIZE, CmdValues(c.host, req));
    ArrivedIns(f.params, args, JunkOf(t.junk, f.params), |req.args|);
    assert forall s: seq<Value> {:trigger s[..|s|]} :: s[..|s|] == s;
  }

  /** When the results fit, too, they all arrive. */
  lemma EverythingFits<S>(f: Func, args: seq<Value>, r: Outcome<S>, vs: seq<Value>, cmdCap: nat, rspCap: nat)
    requires |args| == |f.params| && |r.outs| == |OutNames(f.params)|
    requires End(0, Chunks(vs)) <= DFLT_CMD_RSP_SIZE && End(0, Chunks(vs)) <= cmdCap
    requires End(0, Chunks(Results(f, r))) <= DFLT_CMD_RSP_SIZE && End(0, Chunks(Results(f, r))) <= rspCap
    ensures PacketsFit(vs, Results(f, r), cmdCap, rspCap)
    ensures var n := Taken(rspCap, Results(f, r));
            && ReturnOf(f, r, n) == Returns(if f.IsVoid() then None else Some(r.ret))
            && PutFirst(f.params, args, r.outs, n) == PutBack(f.params, args, r.outs)
  {
    hide Taken, Reached;
    TakesAll(DFLT_CMD_RSP_SIZE, vs);
    TakesAll(rspCap, Results(f, r));
    PutFirstAll(f.params, args, r.outs, Taken(rspCap, Results(f, r)));
  }

  /** For every interface, every function and all arguments and results that fit the buffers, a
      call through the generated code gives the outgoing arguments, the return value and the
      object state of a call on the object itself, and leaves the channel empty. */
  lemma RemoteMeansDirect<S(!new)>(c: Client<S>, t: Target<S>, k: nat, args: seq<Value>, link: Link<S>, cmd: Memory,
          rsp: Memory)
    requires Linked(c, t) && Quiet(link)
    requires Callable(c, t, k, args, link.srv.objs, |link.srv.cmdBuf.mem|, |link.srv.rspBuf.mem|)
    ensures var f := t.inf.funcs[k]; var (r, vals) := Direct(t.impl, f, link.srv.objs, args).value;
            var call := CallStub(c, f, StubCode(f), args, link, cmd, rsp);
            && call.Some?
            && call.value.0 == Returns(if f.typeName == "void" then None else Some(r.ret))
            && call.value.1 == vals
            && var link' := call.value.2;
            && link'.srv.objs == r.obj && Quiet(link') && link'.up == []
            && |link'.srv.cmdBuf.mem| == |link.srv.cmdBuf.mem| && |link'.srv.rspBuf.mem| == |link.srv.rspBuf.mem|
  {
    hide InsFit, ResultsFit, Results, CallStub, Quiet, Linked, DirectOnSent, PacketsFit, Taken, ReturnOf, PutFirst;
    var f := t.inf.funcs[k];
    var r := Direct(t.impl, f, link.srv.objs, args).value.0;
    var vs := CmdValues(c.host, RequestOf(t.inf, c.id, k, args));
    EverythingSent(c, t, k, args, link.srv.objs);
    EverythingFits(f, args, r, vs, |link.srv.cmdBuf.mem|, |link.srv.rspBuf.mem|);
    RemoteMeansArrived(c, t, k, args, link, cmd, rsp);
  }

  // ----- Any number of calls -----

  /** A call in a session: function, arguments, message number and uninitialised memory. */
  datatype CallSite = CallSite(k: nat, args: seq<Value>, id: u32, m0: byte, m1: byte, cmd: Memory, rsp: Memory)

  /** What a caller sees of a call: the return value and the arguments afterwards. */
  datatype Seen = Seen(val: Option<Value>, args: seq<Value>)

  function At<S>(c: Client<S>, site: CallSite): Client<S> { c.(id := site.id, m0 := site.m0, m1 := site.m1) }

  ghost predicate AllCallable<S>(c: Client<S>, t: Target<S>, sites: seq<CallSite>, obj: S, cmdCap: nat, rspCap: nat)
    decreases |sites|
  {
    sites == []
    || (&& Callable(At(c, sites[0]), t, sites[0].k, sites[0].args, obj, cmdCap, rspCap)
        && var (r, _) := Direct(t.impl, t.inf.funcs[sites[0].k], obj, sites[0].args).value;
        && AllCallable(c, t, sites[1..], r.obj, cmdCap, rspCap))
  }

  /** The calls on the object itself. */
  ghost function DirectRun<S>(c: Client<S>, t: Target<S>, sites: seq<CallSite>, obj: S, cmdCap: nat,
          rspCap: nat): (seq<Seen>, S)
    requires AllCallable(c, t, sites, obj, cmdCap, rspCap)
    decreases |sites|
  {
    if sites == [] then ([], obj)
    else
      var f := t.inf.funcs[sites[0].k];
      var (r, vals) := Direct(t.impl, f, obj, sites[0].args).value;
      var (seen, obj') := DirectRun(c, t, sites[1..], r.obj, cmdCap, rspCap);
      ([Seen(if f.typeName == "void" then None else Some(r.ret), vals)] + seen, obj')
  }

  /** The calls through the generated stubs. `None` if one of them fails. */
  ghost function RemoteRun<S>(c: Client<S>, inf: Iface, sites: seq<CallSite>,
          link: Link<S>): (r: Option<(seq<Seen>, Link<S>)>)
    requires link.srv.Valid()
    requires forall i :: 0 <= i < |sites| ==>
               sites[i].k < |inf.funcs| && |sites[i].args| == |inf.funcs[sites[i].k].params|
    decreases |sites|
  {
    if sites == [] then Some(([], link))
    else
      var site, f := sites[0], inf.funcs[sites[0].k];
      match CallStub(At(c, site), f, StubCode(f), site.args, link, site.cmd, site.rsp)
      case None => None
      case Some((result, args, link1)) =>
        if result.Fails? then None
        else
          match RemoteRun(c, inf, sites[1..], link1)
          case None => None
          case Some((seen, link2)) => Some(([Seen(result.val, args)] + seen, link2))
  }

  lemma {:induction false} SitesMatch<S>(c: Client<S>, t: Target<S>, sites: seq<CallSite>, obj: S, cmdCap: nat,
          rspCap: nat)
    requires AllCallable(c, t, sites, obj, cmdCap, rspCap)
    ensures forall i :: 0 <= i < |sites| ==>
              sites[i].k < |t.inf.funcs| && |sites[i].args| == |t.inf.funcs[sites[i].k].params|
    decreases |sites|
  {
    if sites != [] {
      var (r, _) := Direct(t.impl, t.inf.funcs[sites[0].k], obj, sites[0].args).value;
      SitesMatch(c, t, sites[1..], r.obj, cmdCap, rspCap);
      forall i | 0 < i < |sites| ensures sites[i] == sites[1..][i - 1] {
      }
    }
  }

  /** Every session through the generated code is the session on the object. */
  lemma {:induction false} SessionsAgree<S(!new)>(c: Client<S>, t: Target<S>, sites: seq<CallSite>, link: Link<S>)
    requires Linked(c, t) && Quiet(link)
    requires AllCallable(c, t, sites, link.srv.objs, |link.srv.cmdBuf.mem|, |link.srv.rspBuf.mem|)
    requires forall i :: 0 <= i < |sites| ==>
               sites[i].k < |t.inf.funcs| && |sites[i].args| == |t.inf.funcs[sites[i].k].params|
    ensures var r := RemoteRun(c, t.inf, sites, link);
            var (seen, obj) := DirectRun(c, t, sites, link.srv.objs, |link.srv.cmdBuf.mem|, |link.srv.rspBuf.mem|);
            r.Some? && r.value.0 == seen && r.value.1.srv.objs == obj && Quiet(r.value.1)
    decreases |sites|
  {
    hide CallStub, Callable, Direct, ServerDispatch, EnumCode, SkelCode, WellFormed, Quiet;
    if sites != [] {
      var site := sites[0];
      QuietValid(link);
      RemoteMeansDirect(At(c, site), t, site.k, site.args, link, site.cmd, site.rsp);
      var f := t.inf.funcs[site.k];
      var link1 := CallStub(At(c, site), f, StubCode(f), site.args, link, site.cmd, site.rsp).value.2;
      SessionsAgree(c, t, sites[1..], link1);
    }
  }

  lemma QuietValid<S>(link: Link<S>)
    requires Quiet(link)
    ensures link.srv.Valid()
  {
  }
}
