/** Runs of straight code, and what it takes for rewritten blocks to run like the originals. */
module Blocks {
  import opened Options
  import opened Ir

  // ----- runs over the rest of a block -----

  function CallFlow(m: Module, f: Function, rest: seq<Instr>, regs: Regs, dst: Name, o: Outcome, fuel: nat): Outcome
    decreases fuel, 0, |rest|, 1
  {
    match o
    case Returned(v) => RunCode(m, f, rest, regs[dst := v], fuel)
    case ReturnedVoid => RunCode(m, f, rest, regs, fuel)
    case _ => o
  }

  /** `Run`, with the rest of the current block in place of a position. */
  function RunCode(m: Module, f: Function, code: seq<Instr>, regs: Regs, fuel: nat): Outcome
    decreases fuel, 0, |code|, 0
  {
    if code == [] then BadGraph
    else
      match Step(code[0], regs)
      case Next(regs1) => RunCode(m, f, code[1..], regs1, fuel)
      case Goto(l) => if fuel == 0 then OutOfFuel else RunLabel(m, f, l, regs, fuel - 1)
      case Stop(o) => o
      case Enter(dst, callee, args) =>
        if fuel == 0 then OutOfFuel
        else CallFlow(m, f, code[1..], regs, dst, Call(m, callee, args, fuel - 1), fuel)
  }

  /** One step of `RunCode`. */
  lemma RunCodeStep(m: Module, f: Function, code: seq<Instr>, regs: Regs, fuel: nat)
    requires code != []
    ensures var x := Step(code[0], regs);
            RunCode(m, f, code, regs, fuel) ==
            if x.Next? then RunCode(m, f, code[1..], x.regs, fuel)
            else if x.Stop? then x.outcome
            else if fuel == 0 then OutOfFuel
            else if x.Goto? then RunLabel(m, f, x.target, regs, fuel - 1)
            else CallFlow(m, f, code[1..], regs, x.dst, Call(m, x.callee, x.args, fuel - 1), fuel)
  {
    hide Step;
  }

  lemma CallFlowStep(m: Module, f: Function, rest: seq<Instr>, regs: Regs, dst: Name, o: Outcome, fuel: nat)
    ensures CallFlow(m, f, rest, regs, dst, o, fuel) ==
            if o.Returned? then RunCode(m, f, rest, regs[dst := o.value], fuel)
            else if o.ReturnedVoid? then RunCode(m, f, rest, regs, fuel)
            else o
  {
  }

  function RunLabel(m: Module, f: Function, l: Label, regs: Regs, fuel: nat): Outcome
    decreases fuel, 2
  {
    RunBlock(m, f, FindLabel(f.blocks, l), regs, fuel)
  }

  function RunBlock(m: Module, f: Function, b: nat, regs: Regs, fuel: nat): Outcome
    decreases fuel, 1
  {
    if b >= |f.blocks| then BadGraph else RunCode(m, f, f.blocks[b].instrs, regs, fuel)
  }

  lemma {:induction false} RunIsRunCode(m: Module, f: Function, c: Config, fuel: nat)
    requires c.block < |f.blocks| && c.pc <= |f.blocks[c.block].instrs|
    ensures Run(m, f, c, fuel) == RunCode(m, f, f.blocks[c.block].instrs[c.pc..], c.regs, fuel)
    decreases fuel, Room(f, c)
  {
    hide Step;
    var code := f.blocks[c.block].instrs;
    if c.pc < |code| {
      assert code[c.pc..][1..] == code[c.pc + 1..];
      match Step(code[c.pc], c.regs) {
        case Next(regs) => RunIsRunCode(m, f, Config(c.block, c.pc + 1, regs), fuel);
        case Goto(l) =>
          if fuel > 0 {
            var b := FindLabel(f.blocks, l);
            assert RunLabel(m, f, l, c.regs, fuel - 1) == RunBlock(m, f, b, c.regs, fuel - 1);
            assert b >= |f.blocks| ==> Run(m, f, Config(b, 0, c.regs), fuel - 1) == BadGraph;
            if b < |f.blocks| {
              RunIsRunCode(m, f, Config(b, 0, c.regs), fuel - 1);
              assert f.blocks[b].instrs[0..] == f.blocks[b].instrs;
            }
          }
        case Stop(_) =>
        case Enter(dst, callee, args) =>
          if fuel > 0 {
            match Call(m, callee, args, fuel - 1) {
              case Returned(v) => RunIsRunCode(m, f, Config(c.block, c.pc + 1, c.regs[dst := v]), fuel);
              case ReturnedVoid => RunIsRunCode(m, f, Config(c.block, c.pc + 1, c.regs), fuel);
              case _ =>
            }
          }
      }
    }
  }

  lemma CallIsRunBlock(m: Module, callee: string, args: seq<Value>, fuel: nat)
    requires callee in m && |args| == |m[callee].params|
    ensures Call(m, callee, args, fuel) == RunBlock(m, m[callee], 0, Bind(m[callee].params, args), fuel)
  {
    var f := m[callee];
    if |f.blocks| > 0 {
      RunIsRunCode(m, f, Config(0, 0, Bind(f.params, args)), fuel);
      assert f.blocks[0].instrs[0..] == f.blocks[0].instrs;
    }
  }

  /** The registers after running all of `code`, if it runs through. */
  function Through(m: Module, code: seq<Instr>, regs: Regs, fuel: nat): Option<Regs>
    decreases |code|
  {
    if code == [] then Some(regs)
    else
      match Step(code[0], regs)
      case Next(regs1) => Through(m, code[1..], regs1, fuel)
      case Enter(dst, callee, args) =>
        if fuel == 0 then None
        else
          (match Call(m, callee, args, fuel - 1)
           case Returned(v) => Through(m, code[1..], regs[dst := v], fuel)
           case ReturnedVoid => Through(m, code[1..], regs, fuel)
           case _ => None)
      case _ => None
  }

  lemma ThroughStep(m: Module, code: seq<Instr>, regs: Regs, fuel: nat)
    requires code != []
    ensures var x := Step(code[0], regs);
            Through(m, code, regs, fuel) ==
            if x.Next? then Through(m, code[1..], x.regs, fuel)
            else if !x.Enter? || fuel == 0 then None
            else
              var o := Call(m, x.callee, x.args, fuel - 1);
              if o.Returned? then Through(m, code[1..], regs[x.dst := o.value], fuel)
              else if o.ReturnedVoid? then Through(m, code[1..], regs, fuel)
              else None
  {
    hide Step;
    hide Call;
  }

  /** What follows `code` runs from the registers after it, or not at all. */
  lemma {:induction false} RunThrough(m: Module, f: Function, code: seq<Instr>, a: seq<Instr>, b: seq<Instr>,
                                      regs: Regs, fuel: nat)
    ensures var t := Through(m, code, regs, fuel);
            if t.Some? then RunCode(m, f, code + a, regs, fuel) == RunCode(m, f, a, t.value, fuel)
            else RunCode(m, f, code + a, regs, fuel) == RunCode(m, f, code + b, regs, fuel)
    decreases |code|
  {
    hide *;
    if code == [] {
      assert code + a == a;
      ThroughNothing(m, regs, fuel);
    } else {
      var rest := code[1..];
      assert (code + a)[0] == code[0] && (code + a)[1..] == rest + a;
      assert (code + b)[0] == code[0] && (code + b)[1..] == rest + b;
      var x := Step(code[0], regs);
      RunCodeStep(m, f, code + a, regs, fuel);
      RunCodeStep(m, f, code + b, regs, fuel);
      ThroughStep(m, code, regs, fuel);
      if x.Next? {
        RunThrough(m, f, rest, a, b, x.regs, fuel);
      } else if x.Enter? && fuel > 0 {
        var o := Call(m, x.callee, x.args, fuel - 1);
        CallFlowStep(m, f, rest + a, regs, x.dst, o, fuel);
        CallFlowStep(m, f, rest + b, regs, x.dst, o, fuel);
        if o.Returned? {
          RunThrough(m, f, rest, a, b, regs[x.dst := o.value], fuel);
        } else if o.ReturnedVoid? {
          RunThrough(m, f, rest, a, b, regs, fuel);
        }
      }
    }
  }

  lemma ThroughNothing(m: Module, regs: Regs, fuel: nat)
    ensures Through(m, [], regs, fuel) == Some(regs)
  {
  }

  // ----- what instructions read and write -----

  function Written(i: Instr): set<Name> {
    match i
    case Const(dst, _) => {dst}
    case LoadVar(dst, _) => {dst}
    case StoreVar(name, _) => {name}
    case Copy(dst, _) => {dst}
    case Unary(dst, _, _) => {dst}
    case Bin(dst, _, _, _) => {dst}
    case Select(dst, _, _, _) => {dst}
    case CallStatic(dst, _, _) => {dst}
    case _ => {}
  }

  /** Only what is written changes. */
  lemma StepWrites(i: Instr, regs: Regs, x: Name)
    requires x in regs && x !in Written(i)
    ensures Step(i, regs).Next? ==> x in Step(i, regs).regs && Step(i, regs).regs[x] == regs[x]
    ensures Step(i, regs).Enter? ==> x != Step(i, regs).dst
  {
  }

  /** A step depends on the registers it reads. */
  lemma StepReads(i: Instr, a: Regs, b: Regs)
    requires Reads(i) <= a.Keys && Reads(i) <= b.Keys && forall x :: x in Reads(i) ==> a[x] == b[x]
    ensures Step(i, a).Next? ==> Step(i, b).Next?
    ensures Step(i, a).Goto? || Step(i, a).Stop? || Step(i, a).Enter? ==> Step(i, b) == Step(i, a)
    ensures Step(i, a).Next? ==> forall x :: x in Written(i) ==>
                                               x in Step(i, a).regs && x in Step(i, b).regs &&
                                               Step(i, a).regs[x] == Step(i, b).regs[x]
  {
    if i.CallStatic? {
      assert forall k :: 0 <= k < |i.args| ==> i.args[k] in Reads(i);
    }
  }

  predicate IsCheck(i: Instr) {
    i.CheckOverflow? || i.CheckNeg? || i.CheckDivZero? || i.CheckShift?
  }

  /** Names whose value must not change later in the block: what checks look at and calls pass. */
  function Guarded(i: Instr): set<Name> {
    if IsCheck(i) || i.CallStatic? then Reads(i) else {}
  }

  /** No instruction writes a name that an earlier check or call of the block has read. */
  predicate Stable(code: seq<Instr>, guarded: set<Name>) {
    code == [] ||
    (Written(code[0]) !! guarded + Guarded(code[0]) && Stable(code[1..], guarded + Guarded(code[0])))
  }

  predicate StableBlocks(f: Function) {
    forall b :: 0 <= b < |f.blocks| ==> Stable(f.blocks[b].instrs, {})
  }

  // ----- one-for-one rewriting of a whole module -----

  /** The same labels, so the same block for every jump. */
  predicate SameTags(a: seq<Block>, b: seq<Block>) {
    |a| == |b| && forall i :: 0 <= i < |a| ==> a[i].tag == b[i].tag
  }

  lemma SameFind(a: seq<Block>, b: seq<Block>, l: Label)
    requires SameTags(a, b)
    ensures FindLabel(a, l) == FindLabel(b, l)
  {
  }
}
