/** Inlining of calls to straight-line functions. */
module Inlining {
  import opened Ir
  import opened Blocks

  // ----- candidates -----

  predicate Allowed(i: Instr) {
    i.Const? || i.LoadVar? || i.Unary? || i.Bin? || i.Select? || i.Copy? || IsCheck(i)
  }

  /** One block that ends in `ret`, and only simple instructions before it. */
  predicate Straight(code: seq<Instr>) {
    |code| > 0 && code[|code| - 1].Ret? && forall k :: 0 <= k < |code| - 1 ==> Allowed(code[k])
  }

  predicate Candidate(f: Function) {
    |f.blocks| == 1 && Straight(f.blocks[0].instrs)
  }

  function Candidates(m: Module): Module {
    map k | k in m && Candidate(m[k]) :: m[k]
  }

  // ----- one call -----

  type Renaming = map<Name, Name>

  function ParamMap(params: seq<Name>, args: seq<Name>): Renaming
    requires |params| == |args|
  {
    if params == [] then map[]
    else ParamMap(params[..|params| - 1], args[..|args| - 1])[params[|params| - 1] := args[|args| - 1]]
  }

  function Sub(x: Name, temps: Renaming, params: Renaming): Name {
    if x in temps then temps[x] else if x in params then params[x] else x
  }

  /** A fresh register takes the place of the result, in the map before the operands are looked up. */
  function InlineOne(i: Instr, temps: Renaming, params: Renaming, tid: nat): (r: (Instr, Renaming, nat)) {
    var d := OptTemp(tid + 1);
    match i
    case Const(dst, lit) => (Const(d, lit), temps[dst := d], tid + 1)
    case LoadVar(dst, name) => (Copy(d, if name in params then params[name] else name), temps[dst := d], tid + 1)
    case Copy(dst, src) => var t := temps[dst := d]; (Copy(d, Sub(src, t, params)), t, tid + 1)
    case Unary(dst, op, src) => var t := temps[dst := d]; (Unary(d, op, Sub(src, t, params)), t, tid + 1)
    case Bin(dst, op, left, right) =>
      var t := temps[dst := d]; (Bin(d, op, Sub(left, t, params), Sub(right, t, params)), t, tid + 1)
    case Select(dst, cond, a, b) =>
      var t := temps[dst := d]; (Select(d, Sub(cond, t, params), Sub(a, t, params), Sub(b, t, params)), t, tid + 1)
    case CheckOverflow(op, left, right, loc) =>
      (CheckOverflow(op, Sub(left, temps, params), Sub(right, temps, params), loc), temps, tid)
    case CheckNeg(value, loc) => (CheckNeg(Sub(value, temps, params), loc), temps, tid)
    case CheckDivZero(divisor, loc) => (CheckDivZero(Sub(divisor, temps, params), loc), temps, tid)
    case CheckShift(shift, width, loc) => (CheckShift(Sub(shift, temps, params), width, loc), temps, tid)
    case _ => (i, temps, tid)
  }

  /** The body of the callee in place of `call`; the `ret` becomes a copy to the call's result. */
  function InlineBody(code: seq<Instr>, call: Instr, temps: Renaming, params: Renaming,
                      tid: nat): (r: (seq<Instr>, nat))
    requires call.CallStatic?
    ensures tid <= r.1
    decreases |code|
  {
    if code == [] then ([], tid)
    else if code[0].Ret? then
      var (rest, tid1) := InlineBody(code[1..], call, temps, params, tid);
      ([Copy(call.dst, Sub(code[0].value, temps, params))] + rest, tid1)
    else if Allowed(code[0]) then
      var (i, temps1, tid1) := InlineOne(code[0], temps, params, tid);
      var (rest, tid2) := InlineBody(code[1..], call, temps1, params, tid1);
      ([i] + rest, tid2)
    else ([call], tid)
  }

  predicate Inlines(i: Instr, cands: Module) {
    i.CallStatic? && i.callee in cands && |cands[i.callee].params| == |i.args| && Candidate(cands[i.callee])
  }

  function InlineInstr(cands: Module, i: Instr, tid: nat): (r: (seq<Instr>, nat))
    ensures tid <= r.1
  {
    if Inlines(i, cands) then
      var callee := cands[i.callee];
      InlineBody(callee.blocks[0].instrs, i, map[], ParamMap(callee.params, i.args), tid)
    else ([i], tid)
  }

  function InlineCode(cands: Module, code: seq<Instr>, tid: nat): (r: (seq<Instr>, nat))
    ensures tid <= r.1
    decreases |code|
  {
    if code == [] then ([], tid)
    else
      var (out, tid1) := InlineInstr(cands, code[0], tid);
      var (rest, tid2) := InlineCode(cands, code[1..], tid1);
      (out + rest, tid2)
  }

  // ----- the whole program, in order -----

  function InlineBlocks(cands: Module, blocks: seq<Block>, tid: nat): (r: (seq<Block>, nat))
    ensures SameTags(blocks, r.0) && tid <= r.1
    decreases |blocks|
  {
    if blocks == [] then ([], tid)
    else
      var (code, tid1) := InlineCode(cands, blocks[0].instrs, tid);
      var (rest, tid2) := InlineBlocks(cands, blocks[1..], tid1);
      ([Block(blocks[0].tag, code)] + rest, tid2)
  }

  datatype Named = Named(name: string, fn: Function)
  type IR = seq<Named>

  function AsModule(ir: IR): Module {
    if ir == [] then map[] else AsModule(ir[..|ir| - 1])[ir[|ir| - 1].name := ir[|ir| - 1].fn]
  }

  predicate DistinctNames(ir: IR) {
    forall i, j :: 0 <= i < j < |ir| ==> ir[i].name != ir[j].name
  }

  const FIRST := 1000000

  function InlineEntries(cands: Module, ir: IR, tid: nat): (r: IR)
    ensures |r| == |ir|
    ensures forall i :: 0 <= i < |ir| ==> r[i].name == ir[i].name
    decreases |ir|
  {
    if ir == [] then []
    else
      var (blocks, tid1) := InlineBlocks(cands, ir[0].fn.blocks, tid);
      [Named(ir[0].name, Function(ir[0].fn.params, blocks))] + InlineEntries(cands, ir[1..], tid1)
  }

  function InlineIR(ir: IR): IR {
    InlineEntries(Candidates(AsModule(ir)), ir, FIRST)
  }

  // ----- what inlining needs of its input -----

  /** Results go to temporaries, are not read by their own instruction, and every name is defined
      before it is read. */
  predicate ClosedCode(code: seq<Instr>, defined: set<Name>)
    decreases |code|
  {
    code == [] ||
    (Reads(code[0]) <= defined && Written(code[0]) !! Reads(code[0]) &&
     (forall x :: x in Written(code[0]) ==> x.Temp?) && (code[0].LoadVar? ==> !code[0].name.Temp?) &&
     ClosedCode(code[1..], defined + Written(code[0])))
  }

  predicate ClosedCallee(f: Function) {
    |f.blocks| > 0 && (forall p :: p in f.params ==> !p.Temp?) && ClosedCode(f.blocks[0].instrs, set p | p in f.params)
  }

  predicate NoOpt(i: Instr) {
    forall x :: x in Reads(i) + Written(i) ==> !x.OptTemp?
  }

  predicate NoOptCode(code: seq<Instr>) {
    forall k :: 0 <= k < |code| ==> NoOpt(code[k])
  }

  predicate NoOptFunction(f: Function) {
    (forall p :: p in f.params ==> !p.OptTemp?) && forall b :: 0 <= b < |f.blocks| ==> NoOptCode(f.blocks[b].instrs)
  }

  predicate InlineReady(m: Module) {
    forall k :: k in m ==> NoOptFunction(m[k]) && (Candidate(m[k]) ==> ClosedCallee(m[k]))
  }

  // ----- a callee's registers seen from the caller -----

  ghost predicate Images(temps: Renaming, params: Renaming, tid: nat) {
    (forall x :: x in temps ==> x.Temp? && temps[x].OptTemp? && temps[x].id <= tid) &&
    (forall x :: x in params ==> !x.Temp? && !params[x].OptTemp?)
  }

  /** Every register of the callee lives in the caller under its new name. */
  ghost predicate Mirrors(inner: Regs, temps: Renaming, params: Renaming, outer: Regs) {
    forall x :: x in inner ==>
                  (x in temps || x in params) && Sub(x, temps, params) in outer &&
                  outer[Sub(x, temps, params)] == inner[x]
  }

  /** Only fresh temporaries, numbered above `tid`, have changed. */
  ghost predicate KeepsOld(a: Regs, b: Regs, tid: nat) {
    forall x :: x in a && !(x.OptTemp? && x.id > tid) ==> x in b && b[x] == a[x]
  }

  lemma WriteMirrors(inner: Regs, temps: Renaming, params: Renaming, outer: Regs, tid: nat, dst: Name, v: Value)
    requires Images(temps, params, tid) && Mirrors(inner, temps, params, outer) && dst.Temp?
    ensures var d := OptTemp(tid + 1);
            var t := temps[dst := d];
            Images(t, params, tid + 1) && Mirrors(inner[dst := v], t, params, outer[d := v]) &&
            KeepsOld(outer, outer[d := v], tid)
  {
  }

  lemma SubOther(x: Name, temps: Renaming, params: Renaming, dst: Name, d: Name)
    requires x != dst
    ensures Sub(x, temps[dst := d], params) == Sub(x, temps, params)
  {
  }

  ghost predicate SameFlow(x: Flow, y: Flow, temps: Renaming, params: Renaming, outer: Regs, tid0: nat, tid: nat) {
    (x.Stop? ==> y == x) && !x.Goto? && !x.Enter? &&
    (x.Next? ==> y.Next? && Images(temps, params, tid) && Mirrors(x.regs, temps, params, y.regs) &&
                 KeepsOld(outer, y.regs, tid0))
  }

  /** A computing instruction and its renamed form do the same. */
  lemma WriteFlow(dst: Name, c: Computed, inner: Regs, temps: Renaming, params: Renaming, outer: Regs, tid: nat)
    requires Images(temps, params, tid) && Mirrors(inner, temps, params, outer) && dst.Temp?
    ensures var d := OptTemp(tid + 1);
            SameFlow(Write(dst, c, inner), Write(d, c, outer), temps[dst := d], params, outer, tid, tid + 1)
  {
    match c
    case Good(v) => WriteMirrors(inner, temps, params, outer, tid, dst, v);
    case Bad(t) =>
  }

  lemma StayFlow(x: Flow, y: Flow, inner: Regs, temps: Renaming, params: Renaming, outer: Regs, tid: nat)
    requires Images(temps, params, tid) && Mirrors(inner, temps, params, outer)
    requires (x == Next(inner) && y == Next(outer)) || (x.Stop? && y == x)
    ensures SameFlow(x, y, temps, params, outer, tid, tid)
  {
  }

  lemma CheckFlow(i: Instr, inner: Regs, temps: Renaming, params: Renaming, outer: Regs, tid: nat)
    requires IsCheck(i) && Reads(i) <= inner.Keys && Images(temps, params, tid) && Mirrors(inner, temps, params, outer)
    ensures var (j, t, n) := InlineOne(i, temps, params, tid);
            SameFlow(Step(i, inner), Step(j, outer), t, params, outer, tid, n)
  {
    var (j, t, n) := InlineOne(i, temps, params, tid);
    hide Mirrors;
    hide Images;
    hide Sub;
    match i {
      case CheckOverflow(_, left, right, _) =>
        MirrorOf(inner, temps, params, outer, left);
        MirrorOf(inner, temps, params, outer, right);
      case CheckNeg(value, _) => MirrorOf(inner, temps, params, outer, value);
      case CheckDivZero(divisor, _) => MirrorOf(inner, temps, params, outer, divisor);
      case CheckShift(shift, _, _) => MirrorOf(inner, temps, params, outer, shift);
    }
    StayFlow(Step(i, inner), Step(j, outer), inner, temps, params, outer, tid);
  }

  lemma MirrorOf(inner: Regs, temps: Renaming, params: Renaming, outer: Regs, x: Name)
    requires Mirrors(inner, temps, params, outer) && x in inner
    ensures Sub(x, temps, params) in outer && outer[Sub(x, temps, params)] == inner[x]
  {
  }

  lemma LoadFlow(i: Instr, inner: Regs, temps: Renaming, params: Renaming, outer: Regs, tid: nat)
    requires i.LoadVar? && i.dst.Temp? && !i.name.Temp? && i.name in inner && Images(temps, params, tid) &&
             Mirrors(inner, temps, params, outer)
    ensures var (j, t, n) := InlineOne(i, temps, params, tid);
            SameFlow(Step(i, inner), Step(j, outer), t, params, outer, tid, n)
  {
    MirrorOf(inner, temps, params, outer, i.name);
    assert i.name in params && Sub(i.name, temps, params) == params[i.name];
    WriteFlow(i.dst, Good(inner[i.name]), inner, temps, params, outer, tid);
  }

  lemma OneFlow(i: Instr, inner: Regs, temps: Renaming, params: Renaming, outer: Regs, tid: nat)
    requires Allowed(i) && Reads(i) <= inner.Keys && Written(i) !! Reads(i) && (forall x :: x in Written(i) ==> x.Temp?)
    requires i.LoadVar? ==> !i.name.Temp?
    requires Images(temps, params, tid) && Mirrors(inner, temps, params, outer)
    ensures var (j, t, n) := InlineOne(i, temps, params, tid);
            SameFlow(Step(i, inner), Step(j, outer), t, params, outer, tid, n)
  {
    var d := OptTemp(tid + 1);
    hide SameFlow;
    hide Mirrors;
    hide Images;
    hide Sub;
    match i {
      case Const(dst, lit) => WriteFlow(dst, Good(LiteralValue(lit)), inner, temps, params, outer, tid);
      case LoadVar(dst, name) => LoadFlow(i, inner, temps, params, outer, tid);
      case Copy(dst, src) =>
        MirrorOf(inner, temps, params, outer, src);
        SubOther(src, temps, params, dst, d);
        WriteFlow(dst, Good(inner[src]), inner, temps, params, outer, tid);
      case Unary(dst, op, src) =>
        MirrorOf(inner, temps, params, outer, src);
        SubOther(src, temps, params, dst, d);
        WriteFlow(dst, RawUn(op, inner[src]), inner, temps, params, outer, tid);
      case Bin(dst, op, left, right) =>
        MirrorOf(inner, temps, params, outer, left);
        MirrorOf(inner, temps, params, outer, right);
        SubOther(left, temps, params, dst, d);
        SubOther(right, temps, params, dst, d);
        WriteFlow(dst, RawBin(op, inner[left], inner[right]), inner, temps, params, outer, tid);
      case Select(_, _, _, _) => SelectFlow(i, inner, temps, params, outer, tid);
      case _ => CheckFlow(i, inner, temps, params, outer, tid);
    }
  }

  lemma SelectFlow(i: Instr, inner: Regs, temps: Renaming, params: Renaming, outer: Regs, tid: nat)
    requires i.Select? && Reads(i) <= inner.Keys && Written(i) !! Reads(i) && i.dst.Temp?
    requires Images(temps, params, tid) && Mirrors(inner, temps, params, outer)
    ensures var (j, t, n) := InlineOne(i, temps, params, tid);
            SameFlow(Step(i, inner), Step(j, outer), t, params, outer, tid, n)
  {
    var d := OptTemp(tid + 1);
    hide Mirrors;
    hide Images;
    hide Sub;
    MirrorOf(inner, temps, params, outer, i.cond);
    MirrorOf(inner, temps, params, outer, i.thenValue);
    MirrorOf(inner, temps, params, outer, i.elseValue);
    SubOther(i.cond, temps, params, i.dst, d);
    SubOther(i.thenValue, temps, params, i.dst, d);
    SubOther(i.elseValue, temps, params, i.dst, d);
    if inner[i.cond].VBool? {
      WriteFlow(i.dst, Good(if inner[i.cond].b then inner[i.thenValue] else inner[i.elseValue]), inner, temps, params,
                outer, tid);
    }
  }

  // ----- one inlined call -----

  ghost predicate CallDone(o: Outcome, m: Module, f: Function, code: seq<Instr>, rest: seq<Instr>, dst: Name,
                           outer: Regs, outer1: Regs, fuel: nat, tid: nat) {
    (o.Trapped? && RunCode(m, f, code, outer, fuel) == o) ||
    (o.Returned? && RunCode(m, f, code, outer, fuel) == RunCode(m, f, rest, outer1[dst := o.value], fuel) &&
     KeepsOld(outer, outer1, tid))
  }

  lemma ClosedStep(code: seq<Instr>, defined: set<Name>)
    requires code != [] && ClosedCode(code, defined)
    ensures Reads(code[0]) <= defined && Written(code[0]) !! Reads(code[0]) &&
            (forall x :: x in Written(code[0]) ==> x.Temp?)
    ensures code[0].LoadVar? ==> !code[0].name.Temp?
    ensures code[0].Ret? ==> code[0].value in defined
    ensures ClosedCode(code[1..], defined + Written(code[0]))
  {
  }

  lemma BodyStep(code: seq<Instr>, call: Instr, temps: Renaming, params: Renaming, tid: nat)
    requires call.CallStatic? && Straight(code)
    ensures |code| == 1 ==> InlineBody(code, call, temps, params, tid) ==
                            ([Copy(call.dst, Sub(code[0].value, temps, params))], tid)
    ensures |code| > 1 ==> Straight(code[1..]) && Allowed(code[0])
    ensures var (i, t, n) := InlineOne(code[0], temps, params, tid);
            var (rest, n1) := InlineBody(code[1..], call, t, params, n);
            |code| > 1 ==> InlineBody(code, call, temps, params, tid) == ([i] + rest, n1)
  {
    hide InlineOne;
    hide Sub;
    if |code| == 1 {
      var copy := Copy(call.dst, Sub(code[0].value, temps, params));
      assert InlineBody(code[1..], call, temps, params, tid) == ([], tid) && [copy] + [] == [copy];
    }
  }

  lemma KeepsTrans(a: Regs, b: Regs, c: Regs, tid: nat, more: nat)
    requires KeepsOld(a, b, tid) && KeepsOld(b, c, more) && tid <= more
    ensures KeepsOld(a, c, tid)
  {
  }

  lemma DefinedLater(i: Instr, inner: Regs, defined: set<Name>)
    requires defined <= inner.Keys && Step(i, inner).Next?
    ensures defined + Written(i) <= Step(i, inner).regs.Keys
  {
  }

  lemma FlowParts(x: Flow, y: Flow, temps: Renaming, params: Renaming, outer: Regs, tid0: nat, tid: nat)
    requires SameFlow(x, y, temps, params, outer, tid0, tid)
    ensures x.Stop? || x.Next?
    ensures x.Stop? ==> y == x
    ensures x.Next? ==> y.Next? && Images(temps, params, tid) && Mirrors(x.regs, temps, params, y.regs) &&
                        KeepsOld(outer, y.regs, tid0)
  {
    hide Images;
    hide Mirrors;
    hide KeepsOld;
  }

  lemma AllowedStops(i: Instr, regs: Regs)
    requires Allowed(i) && Step(i, regs).Stop?
    ensures Step(i, regs).outcome.Trapped?
  {
  }

  lemma OneCounts(i: Instr, temps: Renaming, params: Renaming, tid: nat)
    ensures tid <= InlineOne(i, temps, params, tid).2 <= tid + 1
  {
  }

  lemma {:induction false} BodyRuns(m: Module, g: Function, code: seq<Instr>, defined: set<Name>, inner: Regs,
                                    fuelIn: nat, m': Module, f: Function, call: Instr, temps: Renaming,
                                    params: Renaming, tid: nat,
                                    rest: seq<Instr>, outer: Regs, fuel: nat)
    returns (outer1: Regs)
    requires call.CallStatic? && Straight(code) && ClosedCode(code, defined) && defined <= inner.Keys
    requires Images(temps, params, tid) && Mirrors(inner, temps, params, outer)
    ensures CallDone(RunCode(m, g, code, inner, fuelIn), m', f, InlineBody(code, call, temps, params, tid).0 + rest,
                     rest, call.dst, outer, outer1, fuel, tid)
    decreases |code|
  {
    hide *;
    outer1 := outer;
    var body := InlineBody(code, call, temps, params, tid).0;
    StraightFirst(code);
    ClosedStep(code, defined);
    BodyStep(code, call, temps, params, tid);
    RunCodeStep(m, g, code, inner, fuelIn);
    if |code| == 1 {
      LastStep(m', f, code[0], call, temps, params, inner, outer, rest, fuel, tid);
    } else {
      var (i, t, n) := InlineOne(code[0], temps, params, tid);
      var tail := InlineBody(code[1..], call, t, params, n).0;
      OneFlow(code[0], inner, temps, params, outer, tid);
      OneCounts(code[0], temps, params, tid);
      var x, y := Step(code[0], inner), Step(i, outer);
      FlowParts(x, y, t, params, outer, tid, n);
      assert ([i] + tail + rest)[0] == i && ([i] + tail + rest)[1..] == tail + rest;
      RunCodeStep(m', f, [i] + tail + rest, outer, fuel);
      if x.Stop? {
        AllowedStops(code[0], inner);
        DoneTrapped(x.outcome, m', f, body + rest, rest, call.dst, outer, outer, fuel, tid);
      } else {
        DefinedLater(code[0], inner, defined);
        outer1 := BodyRuns(m, g, code[1..], defined + Written(code[0]), x.regs, fuelIn, m', f, call, t, params, n, rest,
                           y.regs, fuel);
        DoneBefore(RunCode(m, g, code, inner, fuelIn), m', f, tail + rest, body + rest, rest, call.dst, outer, y.regs,
                   outer1, fuel, tid, n);
      }
    }
  }

  lemma StraightFirst(code: seq<Instr>)
    requires Straight(code)
    ensures code != [] && (|code| == 1 ==> code[0].Ret?) && (|code| > 1 ==> Allowed(code[0]))
  {
  }

  lemma LastStep(m: Module, f: Function, ret: Instr, call: Instr, temps: Renaming, params: Renaming, inner: Regs,
                 outer: Regs, rest: seq<Instr>, fuel: nat, tid: nat)
    requires ret.Ret? && ret.value in inner && call.CallStatic? && Mirrors(inner, temps, params, outer)
    ensures Step(ret, inner).Stop?
    ensures var code := [Copy(call.dst, Sub(ret.value, temps, params))] + rest;
            CallDone(Step(ret, inner).outcome, m, f, code, rest, call.dst, outer, outer, fuel, tid)
  {
    hide RunCode;
    hide Sub;
    MirrorOf(inner, temps, params, outer, ret.value);
    var copy := Copy(call.dst, Sub(ret.value, temps, params));
    assert ([copy] + rest)[1..] == rest;
    RunCodeStep(m, f, [copy] + rest, outer, fuel);
  }

  lemma DoneTrapped(o: Outcome, m: Module, f: Function, code: seq<Instr>, rest: seq<Instr>, dst: Name, outer: Regs,
                    outer1: Regs, fuel: nat, tid: nat)
    requires o.Trapped? && RunCode(m, f, code, outer, fuel) == o
    ensures CallDone(o, m, f, code, rest, dst, outer, outer1, fuel, tid)
  {
  }

  lemma DoneBefore(o: Outcome, m: Module, f: Function, code: seq<Instr>, more: seq<Instr>, rest: seq<Instr>, dst: Name,
                   outer: Regs, mid: Regs, outer1: Regs, fuel: nat, tid: nat, n: nat)
    requires CallDone(o, m, f, code, rest, dst, mid, outer1, fuel, n) &&
             RunCode(m, f, more, outer, fuel) == RunCode(m, f, code, mid, fuel)
    requires KeepsOld(outer, mid, tid) && tid <= n
    ensures CallDone(o, m, f, more, rest, dst, outer, outer1, fuel, tid)
  {
    hide RunCode;
    if o.Returned? { KeepsTrans(outer, mid, outer1, tid, n); }
  }

  /** Entering the callee: each parameter holds what its argument's register holds. */
  lemma {:induction false} BindMirrors(params: seq<Name>, args: seq<Name>, regs: Regs, tid: nat)
    requires |params| == |args| && (forall a :: a in args ==> a in regs && !a.OptTemp?) &&
             forall p :: p in params ==> !p.Temp?
    ensures Images(map[], ParamMap(params, args), tid)
    ensures Mirrors(Bind(params, ReadAll(args, regs)), map[], ParamMap(params, args), regs)
    ensures forall p :: p in params ==> p in Bind(params, ReadAll(args, regs))
  {
    if params != [] {
      var n := |params| - 1;
      BindMirrors(params[..n], args[..n], regs, tid);
      assert ReadAll(args, regs)[..n] == ReadAll(args[..n], regs);
      forall p | p in params
        ensures p in Bind(params, ReadAll(args, regs))
      {
        if p != params[n] { assert p in params[..n]; }
      }
    }
  }

  // ----- whole runs -----

  /** The caller's registers, with more temporaries of the optimizer's own. */
  ghost predicate Agrees(a: Regs, b: Regs) {
    forall x :: x in a ==> !x.OptTemp? && x in b && b[x] == a[x]
  }

  lemma AgreesKept(a: Regs, b: Regs, c: Regs, tid: nat)
    requires Agrees(a, b) && KeepsOld(b, c, tid)
    ensures Agrees(a, c)
  {
  }

  lemma AgreesWrite(a: Regs, b: Regs, dst: Name, v: Value)
    requires Agrees(a, b) && !dst.OptTemp?
    ensures Agrees(a[dst := v], b[dst := v])
  {
  }

  /** An instruction of the caller does the same with more registers around, unless it is undefined. */
  lemma AgreesStep(i: Instr, a: Regs, b: Regs)
    requires Agrees(a, b) && NoOpt(i)
    ensures var x, y := Step(i, a), Step(i, b);
            x == Stop(Trapped(Undefined)) || (if x.Next? then y.Next? && Agrees(x.regs, y.regs) else y == x)
    ensures Step(i, a).Enter? ==> !Step(i, a).dst.OptTemp?
  {
    if Reads(i) <= a.Keys {
      StepReads(i, a, b);
      if Step(i, a).Next? {
        forall x | x in Step(i, a).regs
          ensures !x.OptTemp? && x in Step(i, b).regs && Step(i, b).regs[x] == Step(i, a).regs[x]
        {
          AgreesAt(i, a, b, x);
        }
      }
    }
  }

  lemma AgreesAt(i: Instr, a: Regs, b: Regs, x: Name)
    requires Agrees(a, b) && NoOpt(i) && Reads(i) <= a.Keys && Step(i, a).Next? && Step(i, b).Next? &&
             x in Step(i, a).regs
    ensures !x.OptTemp? && x in Step(i, b).regs && Step(i, b).regs[x] == Step(i, a).regs[x]
  {
    StepReads(i, a, b);
    if x !in Written(i) {
      OnlyWritten(i, a, x);
      StepWrites(i, a, x);
      StepWrites(i, b, x);
    } else {
      assert x in Reads(i) + Written(i);
    }
  }

  lemma OnlyWritten(i: Instr, a: Regs, x: Name)
    requires Step(i, a).Next? && x in Step(i, a).regs && x !in Written(i)
    ensures x in a
  {
  }

  /** `b` is `a` with calls inlined in every block. */
  ghost predicate InlinedFunction(cands: Module, a: Function, b: Function) {
    SameTags(a.blocks, b.blocks) && a.params == b.params &&
    forall k :: 0 <= k < |a.blocks| ==> InlinedBlock(cands, a.blocks[k].instrs, b.blocks[k].instrs)
  }

  ghost predicate InlinedBlock(cands: Module, a: seq<Instr>, b: seq<Instr>) {
    exists tid: nat :: b == InlineCode(cands, a, tid).0
  }

  ghost predicate InlinedModule(m: Module, m': Module) {
    m'.Keys == m.Keys && forall k :: k in m ==> InlinedFunction(Candidates(m), m[k], m'[k])
  }

  /** The two outcomes: with one more unit of fuel for the original, it ends if the other does. */
  ghost predicate Matches(o: Outcome, o': Outcome, extra: bool) {
    o == Trapped(Undefined) || o' == o || (if extra then o' == OutOfFuel else o == OutOfFuel)
  }

  lemma InlineStep(cands: Module, code: seq<Instr>, tid: nat)
    requires code != []
    ensures var (out, tid1) := InlineInstr(cands, code[0], tid);
            InlineCode(cands, code, tid).0 == out + InlineCode(cands, code[1..], tid1).0
    ensures !Inlines(code[0], cands) ==> InlineInstr(cands, code[0], tid) == ([code[0]], tid)
  {
    hide InlineBody;
    hide Candidate;
  }

  lemma NoOptStep(code: seq<Instr>)
    requires code != [] && NoOptCode(code)
    ensures NoOpt(code[0]) && NoOptCode(code[1..])
  {
    hide NoOpt;
  }

  /** An inlined call does what the call does. */
  lemma CallInlined(m: Module, m': Module, f': Function, call: Instr, tid: nat, rest: seq<Instr>, regs: Regs,
                    outer: Regs, fuel: nat, fuelIn: nat)
    returns (outer1: Regs)
    requires InlineReady(m) && Inlines(call, Candidates(m)) && NoOpt(call) && Agrees(regs, outer) &&
             Reads(call) <= regs.Keys
    ensures var o := Call(m, call.callee, ReadAll(call.args, regs), fuelIn);
            CallDone(o, m', f', InlineInstr(Candidates(m), call, tid).0 + rest, rest, call.dst, outer, outer1, fuel,
                     tid)
  {
    var g := m[call.callee];
    var args := ReadAll(call.args, regs);
    var pm := ParamMap(g.params, call.args);
    forall a | a in call.args
      ensures a in regs && !a.OptTemp? && a in outer && outer[a] == regs[a]
    {
      assert a in Reads(call);
    }
    assert ReadAll(call.args, outer) == args;
    BindMirrors(g.params, call.args, outer, tid);
    CallIsRunBlock(m, call.callee, args, fuelIn);
    var inner := Bind(g.params, args);
    hide RunCode;
    hide InlineBody;
    hide Mirrors;
    hide Images;
    hide CallDone;
    hide ClosedCode;
    outer1 := BodyRuns(m, g, g.blocks[0].instrs, (set p | p in g.params), inner, fuelIn, m', f', call, map[], pm, tid,
                       rest, outer, fuel);
  }

  /** Runs of the original and of the inlined code, the original with `extra` fuel. */
  lemma {:induction false} InlineRuns(m: Module, m': Module, f: Function, f': Function, code: seq<Instr>, tid: nat,
                                      regs: Regs, outer: Regs, fuel: nat, extra: bool)
    requires InlineReady(m) && InlinedModule(m, m') && NoOptFunction(f) && InlinedFunction(Candidates(m), f, f')
    requires NoOptCode(code) && Agrees(regs, outer)
    ensures Matches(RunCode(m, f, code, regs, if extra then fuel + 1 else fuel),
                    RunCode(m', f', InlineCode(Candidates(m), code, tid).0, outer, fuel), extra)
    decreases fuel, 0, |code|
  {
    hide *;
    var cands, more := Candidates(m), if extra then fuel + 1 else fuel;
    if code == [] {
      InlineNothing(m, m', f, f', cands, tid, regs, outer, fuel, extra);
    } else {
      var i, rest := code[0], code[1..];
      var (out, tid1) := InlineInstr(cands, i, tid);
      var rest' := InlineCode(cands, rest, tid1).0;
      InlineStep(cands, code, tid);
      NoOptStep(code);
      RunCodeStep(m, f, code, regs, more);
      var x := Step(i, regs);
      if Inlines(i, cands) {
        InlinesIs(i, cands, regs);
        if x.Enter? && more > 0 {
          var o := Call(m, x.callee, x.args, more - 1);
          var outer1 := CallInlined(m, m', f', i, tid, rest', regs, outer, fuel, more - 1);
          CallFlowStep(m, f, rest, regs, x.dst, o, more);
          DoneParts(o, m', f', out + rest', rest', i.dst, outer, outer1, fuel, tid);
          if o.Returned? {
            AgreesKept(regs, outer, outer1, tid);
            AgreesWrite(regs, outer1, i.dst, o.value);
            InlineRuns(m, m', f, f', rest, tid1, regs[i.dst := o.value], outer1[i.dst := o.value], fuel, extra);
          } else {
            MatchesSame(o, RunCode(m', f', out + rest', outer, fuel), extra);
          }
        } else {
          MatchesStuck(x, more, fuel, RunCode(m, f, code, regs, more), RunCode(m', f', out + rest', outer, fuel),
                       extra);
        }
      } else {
        var y := Step(i, outer);
        AgreesStep(i, regs, outer);
        assert ([i] + rest')[1..] == rest';
        RunCodeStep(m', f', [i] + rest', outer, fuel);
        if x == Stop(Trapped(Undefined)) {
          MatchesUndefined(RunCode(m', f', [i] + rest', outer, fuel), extra);
        } else if x.Next? {
          InlineRuns(m, m', f, f', rest, tid1, x.regs, y.regs, fuel, extra);
        } else if x.Stop? || fuel == 0 {
          MatchesEnd(x, more, fuel, RunCode(m, f, code, regs, more), RunCode(m', f', [i] + rest', outer, fuel), extra);
        } else if x.Goto? {
          InlineLabel(m, m', f, f', x.target, regs, outer, fuel - 1, extra);
        } else {
          InlineCall(m, m', x.callee, x.args, fuel - 1, extra);
          var o, o' := Call(m, x.callee, x.args, more - 1), Call(m', x.callee, x.args, fuel - 1);
          CallFlowStep(m, f, rest, regs, x.dst, o, more);
          CallFlowStep(m', f', rest', outer, x.dst, o', fuel);
          MatchesParts(o, o', extra);
          if o == o' && o.Returned? {
            AgreesWrite(regs, outer, x.dst, o.value);
            InlineRuns(m, m', f, f', rest, tid1, regs[x.dst := o.value], outer[x.dst := o.value], fuel, extra);
          } else if o == o' && o.ReturnedVoid? {
            InlineRuns(m, m', f, f', rest, tid1, regs, outer, fuel, extra);
          } else {
            MatchesCarried(o, o', RunCode(m, f, code, regs, more), RunCode(m', f', [i] + rest', outer, fuel), extra);
          }
        }
      }
    }
  }

  lemma InlineNothing(m: Module, m': Module, f: Function, f': Function, cands: Module, tid: nat, regs: Regs,
                      outer: Regs, fuel: nat, extra: bool)
    ensures Matches(RunCode(m, f, [], regs, if extra then fuel + 1 else fuel),
                    RunCode(m', f', InlineCode(cands, [], tid).0, outer, fuel), extra)
  {
  }

  lemma InlinesIs(i: Instr, cands: Module, regs: Regs)
    requires Inlines(i, cands)
    ensures i.CallStatic?
    ensures Step(i, regs) == if Reads(i) <= regs.Keys then Enter(i.dst, i.callee, ReadAll(i.args, regs))
                             else Stop(Trapped(Undefined))
    ensures !(Reads(i) <= regs.Keys) ==> Step(i, regs) == Stop(Trapped(Undefined))
    ensures forall x :: x in i.args ==> x in Reads(i)
    ensures NoOpt(i) ==> !i.dst.OptTemp?
  {
    hide Candidate;
    if NoOpt(i) { assert i.dst in Written(i); }
  }

  lemma DoneParts(o: Outcome, m: Module, f: Function, code: seq<Instr>, rest: seq<Instr>, dst: Name, outer: Regs,
                  outer1: Regs, fuel: nat, tid: nat)
    requires CallDone(o, m, f, code, rest, dst, outer, outer1, fuel, tid)
    ensures o.Trapped? || o.Returned?
    ensures o.Trapped? ==> RunCode(m, f, code, outer, fuel) == o
    ensures o.Returned? ==> RunCode(m, f, code, outer, fuel) == RunCode(m, f, rest, outer1[dst := o.value], fuel) &&
                            KeepsOld(outer, outer1, tid)
  {
    hide RunCode;
    hide KeepsOld;
  }

  lemma MatchesSame(o: Outcome, o': Outcome, extra: bool)
    requires o' == o
    ensures Matches(o, o', extra)
  {
  }

  lemma MatchesUndefined(o': Outcome, extra: bool)
    ensures Matches(Trapped(Undefined), o', extra)
  {
  }

  lemma MatchesStuck(x: Flow, more: nat, fuel: nat, o: Outcome, o': Outcome, extra: bool)
    requires x.Enter? || x == Stop(Trapped(Undefined))
    requires more == (if extra then fuel + 1 else fuel) && (x.Enter? ==> more == 0)
    requires o == if x.Stop? then x.outcome else OutOfFuel
    ensures Matches(o, o', extra)
  {
  }

  lemma MatchesEnd(x: Flow, more: nat, fuel: nat, o: Outcome, o': Outcome, extra: bool)
    requires !x.Next? && (x.Stop? || fuel == 0) && more == (if extra then fuel + 1 else fuel)
    requires x.Stop? ==> o == x.outcome
    requires !x.Stop? && more == 0 ==> o == OutOfFuel
    requires o' == if x.Stop? then x.outcome else OutOfFuel
    ensures Matches(o, o', extra)
  {
  }

  lemma MatchesParts(o: Outcome, o': Outcome, extra: bool)
    requires Matches(o, o', extra)
    ensures o == Trapped(Undefined) || o' == o || (if extra then o' == OutOfFuel else o == OutOfFuel)
  {
  }

  /** A call that ends the run ends it on both sides. */
  lemma MatchesCarried(o: Outcome, o': Outcome, r: Outcome, r': Outcome, extra: bool)
    requires Matches(o, o', extra) && !(o == o' && (o.Returned? || o.ReturnedVoid?))
    requires !o.Returned? && !o.ReturnedVoid? ==> r == o
    requires !o'.Returned? && !o'.ReturnedVoid? ==> r' == o'
    ensures Matches(r, r', extra)
  {
  }

  lemma InlineLabel(m: Module, m': Module, f: Function, f': Function, l: Label, regs: Regs, outer: Regs, fuel: nat,
                    extra: bool)
    requires InlineReady(m) && InlinedModule(m, m') && NoOptFunction(f) && InlinedFunction(Candidates(m), f, f') &&
             Agrees(regs, outer)
    ensures Matches(RunLabel(m, f, l, regs, if extra then fuel + 1 else fuel), RunLabel(m', f', l, outer, fuel), extra)
    decreases fuel, 2
  {
    SameFind(f.blocks, f'.blocks, l);
    InlineBlock(m, m', f, f', FindLabel(f.blocks, l), regs, outer, fuel, extra);
  }

  lemma InlineBlock(m: Module, m': Module, f: Function, f': Function, b: nat, regs: Regs, outer: Regs, fuel: nat,
                    extra: bool)
    requires InlineReady(m) && InlinedModule(m, m') && NoOptFunction(f) && InlinedFunction(Candidates(m), f, f') &&
             Agrees(regs, outer)
    ensures Matches(RunBlock(m, f, b, regs, if extra then fuel + 1 else fuel), RunBlock(m', f', b, outer, fuel), extra)
    decreases fuel, 1
  {
    hide RunCode;
    if b < |f.blocks| {
      assert InlinedBlock(Candidates(m), f.blocks[b].instrs, f'.blocks[b].instrs);
      var tid: nat :| f'.blocks[b].instrs == InlineCode(Candidates(m), f.blocks[b].instrs, tid).0;
      InlineRuns(m, m', f, f', f.blocks[b].instrs, tid, regs, outer, fuel, extra);
    }
  }

  lemma InlineCall(m: Module, m': Module, callee: string, args: seq<Value>, fuel: nat, extra: bool)
    requires InlineReady(m) && InlinedModule(m, m')
    ensures Matches(Call(m, callee, args, if extra then fuel + 1 else fuel), Call(m', callee, args, fuel), extra)
    decreases fuel, 2
  {
    hide RunBlock;
    if callee in m && |args| == |m[callee].params| {
      var f, f', more := m[callee], m'[callee], if extra then fuel + 1 else fuel;
      CallIsRunBlock(m, callee, args, more);
      CallIsRunBlock(m', callee, args, fuel);
      BindNoOpt(f.params, args);
      InlineBlock(m, m', f, f', 0, Bind(f.params, args), Bind(f.params, args), fuel, extra);
    }
  }

  lemma {:induction false} BindNoOpt(params: seq<Name>, args: seq<Value>)
    requires |params| == |args| && forall p :: p in params ==> !p.OptTemp?
    ensures Agrees(Bind(params, args), Bind(params, args))
  {
    if params != [] { BindNoOpt(params[..|params| - 1], args[..|args| - 1]); }
  }

  // ----- the pass keeps what the next ones need -----

  /** Guarded names: those of the original code, and temporaries drawn so far. */
  ghost predicate Within(g': set<Name>, g: set<Name>, tid: nat) {
    forall x :: x in g' ==> x in g || (x.OptTemp? && x.id <= tid)
  }

  ghost predicate Covered(defined: set<Name>, temps: Renaming, params: Renaming, call: Instr) {
    (forall x :: x in defined ==> x in temps || x in params) && forall x :: x in params ==> params[x] in Reads(call)
  }

  ghost predicate Original(g: set<Name>) {
    forall x :: x in g ==> !x.OptTemp?
  }

  lemma CheckStable(i: Instr, temps: Renaming, params: Renaming, tid: nat, defined: set<Name>, call: Instr,
                    g: set<Name>)
    requires IsCheck(i) && Reads(i) <= defined && Images(temps, params, tid) && Covered(defined, temps, params, call) &&
             Reads(call) <= g
    ensures var j := InlineOne(i, temps, params, tid).0;
            IsCheck(j) && Written(j) == {} && Guarded(j) == Reads(j) && Within(Reads(j), g, tid)
  {
    forall x | x in Reads(i)
      ensures Within({Sub(x, temps, params)}, g, tid)
    {
    }
  }

  lemma OneStable(i: Instr, temps: Renaming, params: Renaming, tid: nat, defined: set<Name>, call: Instr, g: set<Name>,
                  g': set<Name>)
    requires Allowed(i) && Reads(i) <= defined && (forall x :: x in Written(i) ==> x.Temp?) && Original(g)
    requires Images(temps, params, tid) && Covered(defined, temps, params, call) && Within(g', g, tid) &&
             Reads(call) <= g
    ensures var (j, t, n) := InlineOne(i, temps, params, tid);
            Written(j) !! g' + Guarded(j) && Within(g' + Guarded(j), g, n) && Images(t, params, n) &&
            Covered(defined + Written(i), t, params, call)
  {
    hide Reads;
    hide Sub;
    var (j, t, n) := InlineOne(i, temps, params, tid);
    if IsCheck(i) { CheckStable(i, temps, params, tid, defined, call, g); }
  }

  lemma {:induction false} BodyStable(cands: Module, rest: seq<Instr>, g: set<Name>, call: Instr, code: seq<Instr>,
                                      defined: set<Name>, temps: Renaming, params: Renaming, tid: nat, g': set<Name>)
    requires Closed(cands) && NoOptCode(rest) && Stable(rest, g) && Original(g) && call.CallStatic? && NoOpt(call) &&
             Reads(call) <= g && call.dst !in g
    requires Straight(code) && ClosedCode(code, defined) && Images(temps, params, tid) &&
             Covered(defined, temps, params, call) && Within(g', g, tid)
    ensures var (body, n) := InlineBody(code, call, temps, params, tid); Stable(body + InlineCode(cands, rest, n).0, g')
    decreases |rest|, 1, |code|
  {
    hide *;
    var (body, n) := InlineBody(code, call, temps, params, tid);
    StraightFirst(code);
    ClosedStep(code, defined);
    BodyStep(code, call, temps, params, tid);
    if |code| == 1 {
      InlineStable(cands, rest, tid, g, g');
      CopyStable(call, Sub(code[0].value, temps, params), InlineCode(cands, rest, tid).0, g, g', tid);
    } else {
      var (i, t, n1) := InlineOne(code[0], temps, params, tid);
      OneStable(code[0], temps, params, tid, defined, call, g, g');
      BodyStable(cands, rest, g, call, code[1..], defined + Written(code[0]), t, params, n1, g' + Guarded(i));
      var tail := InlineBody(code[1..], call, t, params, n1).0 + InlineCode(cands, rest, n).0;
      assert body + InlineCode(cands, rest, n).0 == [i] + tail;
      StableCons(i, tail, g');
    }
  }

  lemma StableCons(i: Instr, tail: seq<Instr>, g: set<Name>)
    requires Written(i) !! g + Guarded(i) && Stable(tail, g + Guarded(i))
    ensures Stable([i] + tail, g)
  {
    assert ([i] + tail)[1..] == tail;
  }

  lemma CopyStable(call: Instr, src: Name, tail: seq<Instr>, g: set<Name>, g': set<Name>, tid: nat)
    requires call.CallStatic? && NoOpt(call) && call.dst !in g && Within(g', g, tid) && Stable(tail, g')
    ensures Stable([Copy(call.dst, src)] + tail, g')
  {
    assert call.dst in Written(call);
    assert g' + {} == g';
    StableCons(Copy(call.dst, src), tail, g');
  }

  predicate Closed(cands: Module) {
    forall k :: k in cands ==> ClosedCallee(cands[k])
  }

  lemma StableFirst(code: seq<Instr>, g: set<Name>)
    requires code != [] && Stable(code, g)
    ensures Written(code[0]) !! g + Guarded(code[0]) && Stable(code[1..], g + Guarded(code[0]))
    ensures code[0].CallStatic? ==> Guarded(code[0]) == Reads(code[0]) && code[0].dst !in g + Guarded(code[0])
  {
    assert code[0].CallStatic? ==> code[0].dst in Written(code[0]);
    hide Reads;
  }

  lemma {:induction false} InlineStable(cands: Module, code: seq<Instr>, tid: nat, g: set<Name>, g': set<Name>)
    requires Closed(cands) && NoOptCode(code) && Stable(code, g) && Original(g) && Within(g', g, tid)
    ensures Stable(InlineCode(cands, code, tid).0, g')
    decreases |code|, 0
  {
    hide *;
    if code == [] {
      NothingStable(cands, tid, g');
    } else {
      var i, rest := code[0], code[1..];
      var (out, tid1) := InlineInstr(cands, i, tid);
      InlineStep(cands, code, tid);
      NoOptStep(code);
      StableFirst(code, g);
      OriginalMore(i, g);
      if Inlines(i, cands) {
        InlinesIs(i, cands, map[]);
        InlinedBody(cands, i, tid);
        var pm := ParamMap(cands[i.callee].params, i.args);
        StartCovered(cands, i, tid, g + Guarded(i), g');
        WithinMore(g', g, g + Guarded(i), tid);
        BodyStable(cands, rest, g + Guarded(i), i, cands[i.callee].blocks[0].instrs,
                   set p | p in cands[i.callee].params, map[], pm, tid, g');
      } else {
        OwnStable(i, g, g', tid);
        InlineStable(cands, rest, tid, g + Guarded(i), g' + Guarded(i));
        StableCons(i, InlineCode(cands, rest, tid).0, g');
      }
    }
  }

  lemma NothingStable(cands: Module, tid: nat, g: set<Name>)
    ensures Stable(InlineCode(cands, [], tid).0, g)
  {
  }

  lemma OriginalMore(i: Instr, g: set<Name>)
    requires Original(g) && NoOpt(i)
    ensures Original(g + Guarded(i))
  {
    hide Reads;
    forall x | x in Guarded(i)
      ensures !x.OptTemp?
    {
      assert x in Reads(i) + Written(i);
    }
  }

  lemma WithinMore(g': set<Name>, g: set<Name>, more: set<Name>, tid: nat)
    requires Within(g', g, tid) && g <= more
    ensures Within(g', more, tid)
  {
  }

  lemma OwnStable(i: Instr, g: set<Name>, g': set<Name>, tid: nat)
    requires NoOpt(i) && Written(i) !! g + Guarded(i) && Within(g', g, tid)
    ensures Written(i) !! g' + Guarded(i) && Within(g' + Guarded(i), g + Guarded(i), tid)
  {
    hide Guarded;
    forall x | x in Written(i)
      ensures x !in g'
    {
      assert x in Reads(i) + Written(i);
    }
  }

  lemma InlinedBody(cands: Module, i: Instr, tid: nat)
    requires Inlines(i, cands)
    ensures i.CallStatic? && i.callee in cands && |cands[i.callee].blocks| > 0
    ensures |cands[i.callee].params| == |i.args| && Straight(cands[i.callee].blocks[0].instrs)
    ensures InlineInstr(cands, i, tid) ==
            InlineBody(cands[i.callee].blocks[0].instrs, i, map[], ParamMap(cands[i.callee].params, i.args), tid)
  {
    hide InlineBody;
  }

  lemma {:induction false} ParamMapIs(params: seq<Name>, args: seq<Name>)
    requires |params| == |args|
    ensures forall x :: x in ParamMap(params, args) <==> x in params
    ensures forall x :: x in ParamMap(params, args) ==> ParamMap(params, args)[x] in args
  {
    if params != [] {
      var n := |params| - 1;
      ParamMapIs(params[..n], args[..n]);
      assert params == params[..n] + [params[n]];
      assert args[..n] <= args;
    }
  }

  lemma StartCovered(cands: Module, i: Instr, tid: nat, g: set<Name>, g': set<Name>)
    requires Closed(cands) && Inlines(i, cands) && NoOpt(i)
    ensures var f := cands[i.callee];
            var pm := ParamMap(f.params, i.args);
            Images(map[], pm, tid) && Covered(set p | p in f.params, map[], pm, i) &&
            ClosedCode(f.blocks[0].instrs, set p | p in f.params)
  {
    hide ClosedCode;
    hide Candidate;
    var f := cands[i.callee];
    ParamMapIs(f.params, i.args);
    assert ClosedCallee(f);
    forall a | a in i.args
      ensures !a.OptTemp? && a in Reads(i)
    {
      assert a in Reads(i) + Written(i);
    }
  }

  // ----- whole programs -----

  lemma {:induction false} InlineBlocksAre(cands: Module, blocks: seq<Block>, tid: nat)
    ensures var r := InlineBlocks(cands, blocks, tid).0;
            forall k :: 0 <= k < |blocks| ==> InlinedBlock(cands, blocks[k].instrs, r[k].instrs)
    decreases |blocks|
  {
    hide InlineCode;
    if blocks != [] {
      var (code, tid1) := InlineCode(cands, blocks[0].instrs, tid);
      InlineBlocksAre(cands, blocks[1..], tid1);
      var (rest, _) := InlineBlocks(cands, blocks[1..], tid1);
      var r := InlineBlocks(cands, blocks, tid).0;
      forall k | 0 <= k < |blocks|
        ensures InlinedBlock(cands, blocks[k].instrs, r[k].instrs)
      {
        if k > 0 { assert InlinedBlock(cands, blocks[1..][k - 1].instrs, rest[k - 1].instrs); }
      }
    }
  }

  lemma {:induction false} InlineEntriesAre(cands: Module, ir: IR, tid: nat)
    ensures var r := InlineEntries(cands, ir, tid);
            forall i :: 0 <= i < |ir| ==> InlinedFunction(cands, ir[i].fn, r[i].fn)
    decreases |ir|
  {
    if ir != [] {
      var (blocks, tid1) := InlineBlocks(cands, ir[0].fn.blocks, tid);
      InlineBlocksAre(cands, ir[0].fn.blocks, tid);
      InlineEntriesAre(cands, ir[1..], tid1);
      hide InlinedFunction;
      assert InlinedFunction(cands, ir[0].fn,
                             Function(ir[0].fn.params, blocks)) by { InlinedIs(cands, ir[0].fn, blocks); }
    }
  }

  lemma InlinedIs(cands: Module, a: Function, blocks: seq<Block>)
    requires SameTags(a.blocks, blocks) && forall k :: 0 <= k < |a.blocks| ==>
                                                         InlinedBlock(cands, a.blocks[k].instrs, blocks[k].instrs)
    ensures InlinedFunction(cands, a, Function(a.params, blocks))
  {
  }

  /** A name of the module is the name of an entry. */
  lemma {:induction false} EntryOf(ir: IR, k: string) returns (i: nat)
    requires k in AsModule(ir)
    ensures i < |ir| && ir[i].name == k && ir[i].fn == AsModule(ir)[k]
  {
    var n := |ir| - 1;
    if k == ir[n].name {
      i := n;
    } else {
      i := EntryOf(ir[..n], k);
    }
  }

  lemma {:induction false} EntryIn(ir: IR, i: nat)
    requires DistinctNames(ir) && i < |ir|
    ensures ir[i].name in AsModule(ir) && AsModule(ir)[ir[i].name] == ir[i].fn
  {
    var n := |ir| - 1;
    if i < n { EntryIn(ir[..n], i); }
  }

  lemma InlineIRIs(ir: IR)
    requires DistinctNames(ir)
    ensures InlinedModule(AsModule(ir), AsModule(InlineIR(ir)))
  {
    var r, cands := InlineIR(ir), Candidates(AsModule(ir));
    InlineEntriesAre(cands, ir, FIRST);
    var m, m' := AsModule(ir), AsModule(r);
    hide *;
    forall k | k in m
      ensures k in m' && InlinedFunction(cands, m[k], m'[k])
    {
      InlineEntry(cands, ir, r, k);
    }
    forall k | k in m'
      ensures k in m
    {
      SameEntry(ir, r, k);
    }
    ModuleInlined(m, m');
  }

  lemma ModuleInlined(m: Module, m': Module)
    requires forall k :: k in m ==> k in m' && InlinedFunction(Candidates(m), m[k], m'[k])
    requires forall k :: k in m' ==> k in m
    ensures InlinedModule(m, m')
  {
    hide InlinedFunction;
  }

  lemma InlineEntry(cands: Module, ir: IR, r: IR, k: string)
    requires k in AsModule(ir) && |r| == |ir| && DistinctNames(ir)
    requires forall i :: 0 <= i < |ir| ==> r[i].name == ir[i].name
    requires forall i :: 0 <= i < |ir| ==> InlinedFunction(cands, ir[i].fn, r[i].fn)
    ensures k in AsModule(r) && InlinedFunction(cands, AsModule(ir)[k], AsModule(r)[k])
  {
    hide InlinedFunction;
    hide AsModule;
    var i := EntryOf(ir, k);
    assert r[i].name == k;
    EntryIn(r, i);
  }

  lemma SameEntry(ir: IR, r: IR, k: string)
    requires k in AsModule(r) && |r| == |ir| && DistinctNames(ir)
    requires forall i :: 0 <= i < |ir| ==> r[i].name == ir[i].name
    ensures k in AsModule(ir)
  {
    hide AsModule;
    var i := EntryOf(r, k);
    assert ir[i].name == k;
    EntryIn(ir, i);
  }

  lemma InlinedStable(m: Module, f: Function, f': Function)
    requires InlineReady(m) && NoOptFunction(f) && StableBlocks(f) && InlinedFunction(Candidates(m), f, f')
    ensures StableBlocks(f')
  {
    var cands := Candidates(m);
    hide InlineCode;
    hide Stable;
    hide ClosedCallee;
    hide NoOptCode;
    forall b | 0 <= b < |f'.blocks|
      ensures Stable(f'.blocks[b].instrs, {})
    {
      assert InlinedBlock(cands, f.blocks[b].instrs, f'.blocks[b].instrs);
      var tid: nat :| f'.blocks[b].instrs == InlineCode(cands, f.blocks[b].instrs, tid).0;
      InlineStable(cands, f.blocks[b].instrs, tid, {}, {});
    }
  }

  /** A renamed instruction reads what it writes if and only if the original does: with `t = -t` in the
      callee, the fresh register is read before it is written. */
  lemma OwnResultIsLost(i: Instr, temps: Renaming, params: Renaming, tid: nat)
    requires i.Copy? || i.Unary? || i.Bin? || i.Select?
    requires Images(temps, params, tid) && forall x :: x in Reads(i) ==> x in temps || x in params
    ensures var j := InlineOne(i, temps, params, tid).0; i.dst in Reads(i) <==> j.dst in Reads(j)
  {
    var d := OptTemp(tid + 1);
    assert forall x :: x in Reads(i) ==> (Sub(x, temps[i.dst := d], params) == d <==> x == i.dst);
  }

  // ----- the loops -----

  lemma BodyUnfold(code: seq<Instr>, call: Instr, temps: Renaming, params: Renaming, tid: nat)
    requires call.CallStatic? && code != []
    ensures var (i, t, n) := InlineOne(code[0], temps, params, tid);
            InlineBody(code, call, temps, params, tid) ==
            if code[0].Ret? then
              Then([Copy(call.dst, Sub(code[0].value, temps, params))], InlineBody(code[1..], call, temps, params, tid))
            else if Allowed(code[0]) then Then([i], InlineBody(code[1..], call, t, params, n))
            else ([call], tid)
  {
    hide InlineOne;
    hide Sub;
  }

  ghost function Then<T>(a: seq<T>, b: (seq<T>, nat)): (r: (seq<T>, nat)) {
    (a + b.0, b.1)
  }

  lemma ThenTwice<T>(a: seq<T>, b: seq<T>, c: (seq<T>, nat))
    ensures Then(a, Then(b, c)) == Then(a + b, c)
  {
    assert a + (b + c.0) == (a + b) + c.0;
  }

  lemma CodeUnfold(cands: Module, code: seq<Instr>, tid: nat)
    requires code != []
    ensures InlineCode(cands, code, tid) ==
            Then(InlineInstr(cands, code[0], tid).0, InlineCode(cands, code[1..], InlineInstr(cands, code[0], tid).1))
  {
    hide InlineInstr;
  }

  lemma NothingThen<T>(b: (seq<T>, nat))
    ensures Then([], b) == b
  {
    assert [] + b.0 == b.0;
  }

  lemma EntriesUnfold(cands: Module, ir: IR, tid: nat, r: IR)
    requires ir != []
    ensures var (blocks, next) := InlineBlocks(cands, ir[0].fn.blocks, tid);
            r + InlineEntries(cands, ir, tid) ==
            (r + [Named(ir[0].name, Function(ir[0].fn.params, blocks))]) + InlineEntries(cands, ir[1..], next)
  {
    hide InlineBlocks;
  }

  lemma ThenNothing<T>(a: seq<T>, n: nat)
    ensures Then(a, ([], n)) == (a, n)
  {
    assert a + [] == a;
  }

  method InlineCallee(callee: Function, call: Instr, tid: nat) returns (out: seq<Instr>, tid1: nat)
    requires call.CallStatic? && |callee.params| == |call.args| && |callee.blocks| > 0
    ensures (out, tid1) == InlineBody(callee.blocks[0].instrs, call, map[], ParamMap(callee.params, call.args), tid)
  {
    var params: Renaming := map[];
    var p := 0;
    while p < |callee.params|
      invariant p <= |callee.params|
      invariant params == ParamMap(callee.params[..p], call.args[..p])
    {
      assert callee.params[..p + 1][..p] == callee.params[..p] && call.args[..p + 1][..p] == call.args[..p];
      params := params[callee.params[p] := call.args[p]];
      p := p + 1;
    }
    assert callee.params[..p] == callee.params && call.args[..p] == call.args;
    var code := callee.blocks[0].instrs;
    var temps: Renaming := map[];
    out, tid1 := [], tid;
    var k := 0;
    assert code[0..] == code;
    ghost var all := InlineBody(code, call, map[], params, tid);
    NothingThen(all);
    while k < |code|
      invariant k <= |code|
      invariant Then(out, InlineBody(code[k..], call, temps, params, tid1)) == all
    {
      hide InlineBody;
      hide InlineOne;
      hide Sub;
      hide Allowed;
      assert code[k..][1..] == code[k + 1..];
      BodyUnfold(code[k..], call, temps, params, tid1);
      var (i, temps1, next) := InlineOne(code[k], temps, params, tid1);
      if code[k].Ret? {
        var copy := Copy(call.dst, Sub(code[k].value, temps, params));
        ThenTwice(out, [copy], InlineBody(code[k + 1..], call, temps, params, tid1));
        out := out + [copy];
      } else if Allowed(code[k]) {
        ThenTwice(out, [i], InlineBody(code[k + 1..], call, temps1, params, next));
        out, temps, tid1 := out + [i], temps1, next;
      } else {
        out := out + [call];
        return;
      }
      k := k + 1;
    }
    ThenNothing(out, tid1);
  }

  method InlineInstrs(cands: Module, instrs: seq<Instr>, tid: nat) returns (out: seq<Instr>, tid1: nat)
    ensures (out, tid1) == InlineCode(cands, instrs, tid)
  {
    out, tid1 := [], tid;
    var k := 0;
    assert instrs[0..] == instrs;
    NothingThen(InlineCode(cands, instrs, tid));
    while k < |instrs|
      invariant k <= |instrs|
      invariant Then(out, InlineCode(cands, instrs[k..], tid1)) == InlineCode(cands, instrs, tid)
    {
      hide InlineCode;
      hide InlineBody;
      hide Candidate;
      assert instrs[k..][1..] == instrs[k + 1..];
      CodeUnfold(cands, instrs[k..], tid1);
      var (one, after) := InlineInstr(cands, instrs[k], tid1);
      ThenTwice(out, one, InlineCode(cands, instrs[k + 1..], after));
      if Inlines(instrs[k], cands) {
        StraightBlock(cands[instrs[k].callee]);
        var body, next := InlineCallee(cands[instrs[k].callee], instrs[k], tid1);
        out, tid1 := out + body, next;
      } else {
        out := out + [instrs[k]];
      }
      k := k + 1;
    }
    ThenNothing(out, tid1);
  }

  lemma StraightBlock(f: Function)
    requires Candidate(f)
    ensures |f.blocks| > 0
  {
  }

  method InlineBlockSeq(cands: Module, blocks: seq<Block>, tid: nat) returns (done: seq<Block>, tid1: nat)
    ensures (done, tid1) == InlineBlocks(cands, blocks, tid)
  {
    done, tid1 := [], tid;
    var b := 0;
    assert blocks[0..] == blocks;
    NothingThen(InlineBlocks(cands, blocks, tid));
    while b < |blocks|
      invariant b <= |blocks|
      invariant Then(done, InlineBlocks(cands, blocks[b..], tid1)) == InlineBlocks(cands, blocks, tid)
    {
      hide InlineCode;
      assert blocks[b..][1..] == blocks[b + 1..];
      var code, next := InlineInstrs(cands, blocks[b].instrs, tid1);
      ThenTwice(done, [Block(blocks[b].tag, code)], InlineBlocks(cands, blocks[b + 1..], next));
      done, tid1 := done + [Block(blocks[b].tag, code)], next;
      b := b + 1;
    }
    ThenNothing(done, tid1);
  }

  method InlineFunctions(ir: IR) returns (r: IR)
    ensures r == InlineIR(ir)
  {
    var cands := Candidates(AsModule(ir));
    var tid: nat := FIRST;
    r := [];
    var k := 0;
    assert ir[0..] == ir && [] + InlineEntries(cands, ir, FIRST) == InlineEntries(cands, ir, FIRST);
    hide Candidates;
    hide AsModule;
    while k < |ir|
      invariant k <= |ir|
      invariant r + InlineEntries(cands, ir[k..], tid) == InlineEntries(cands, ir, FIRST)
    {
      hide InlineBlocks;
      hide InlineEntries;
      assert ir[k..][1..] == ir[k + 1..];
      EntriesUnfold(cands, ir[k..], tid, r);
      var blocks, next := InlineBlockSeq(cands, ir[k].fn.blocks, tid);
      r, tid := r + [Named(ir[k].name, Function(ir[k].fn.params, blocks))], next;
      k := k + 1;
    }
  }
}
