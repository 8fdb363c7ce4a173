/** Lowering and the optimizer, one after the other. */
module Pipeline {
  import opened Options
  import opened Ir
  import opened Source
  import opened Lowering
  import opened Static
  import opened FunctionMeaning
  import opened Blocks
  import Inlining
  import ConstantPropagation
  import RedundantChecks
  import Optimizer
  import opened LoweredCode

  datatype Definition = Definition(name: string, fn: FnDef)

  function LowerProgram(defs: seq<Definition>): (ir: Inlining.IR)
    ensures |ir| == |defs| && forall i :: 0 <= i < |ir| ==>
                                            ir[i] == Inlining.Named(defs[i].name, LowerFunction(defs[i].fn))
  {
    seq(|defs|, i requires 0 <= i < |defs| => Inlining.Named(defs[i].name, LowerFunction(defs[i].fn)))
  }

  // ----- nothing to inline -----

  predicate CallFree(code: seq<Instr>) {
    forall p :: 0 <= p < |code| ==> !code[p].CallStatic?
  }

  lemma {:induction false} InlineFree(cands: Module, code: seq<Instr>, tid: nat)
    requires CallFree(code)
    ensures Inlining.InlineCode(cands, code, tid) == (code, tid)
    decreases |code|
  {
    if code != [] {
      assert !code[0].CallStatic?;
      InlineFree(cands, code[1..], tid);
      assert [code[0]] + code[1..] == code;
    }
  }

  lemma {:induction false} InlineFreeBlocks(cands: Module, blocks: seq<Block>, tid: nat)
    requires forall b :: 0 <= b < |blocks| ==> CallFree(blocks[b].instrs)
    ensures Inlining.InlineBlocks(cands, blocks, tid) == (blocks, tid)
    decreases |blocks|
  {
    if blocks != [] {
      InlineFree(cands, blocks[0].instrs, tid);
      InlineFreeBlocks(cands, blocks[1..], tid);
      assert [Block(blocks[0].tag, blocks[0].instrs)] + blocks[1..] == blocks;
    }
  }

  lemma {:induction false} InlineFreeEntries(cands: Module, ir: Inlining.IR, tid: nat)
    requires forall i :: 0 <= i < |ir| ==> NoCalls(ir[i].fn)
    ensures Inlining.InlineEntries(cands, ir, tid) == ir
    decreases |ir|
  {
    if ir != [] {
      InlineFreeBlocks(cands, ir[0].fn.blocks, tid);
      InlineFreeEntries(cands, ir[1..], tid);
      assert [ir[0]] + ir[1..] == ir;
    }
  }

  /** Lowered programs come to the other two passes as they are. */
  lemma NothingToInline(defs: seq<Definition>)
    ensures Inlining.InlineIR(LowerProgram(defs)) == LowerProgram(defs)
  {
    var ir := LowerProgram(defs);
    forall i | 0 <= i < |ir|
      ensures NoCalls(ir[i].fn)
    {
      LoweredIsStable(defs[i].fn);
    }
    InlineFreeEntries(Inlining.Candidates(Inlining.AsModule(ir)), ir, Inlining.FIRST);
  }

  lemma LoweredStable(defs: seq<Definition>)
    ensures RedundantChecks.StableModule(Inlining.AsModule(LowerProgram(defs)))
  {
    var ir := LowerProgram(defs);
    var m := Inlining.AsModule(ir);
    forall k | k in m
      ensures StableBlocks(m[k])
    {
      var i := Inlining.EntryOf(ir, k);
      LoweredIsStable(defs[i].fn);
    }
  }

  // ----- the theorem -----

  /** What folding in JavaScript numbers asks of the program. */
  ghost predicate FoldsAreExact(defs: seq<Definition>, round: ConstantPropagation.Rounding) {
    ConstantPropagation.Exact(round) && ConstantPropagation.GuardedModule(Inlining.AsModule(LowerProgram(defs)), round)
  }

  /** With the same fuel, unless the lowered program is undefined. */
  lemma OptimizedCall(defs: seq<Definition>, round: ConstantPropagation.Rounding, callee: string, args: seq<Value>,
                      fuel: nat)
    requires FoldsAreExact(defs, round)
    ensures var o := Call(Inlining.AsModule(LowerProgram(defs)), callee, args, fuel);
            o == Trapped(Undefined) ||
            Call(Inlining.AsModule(Optimizer.OptimizeIR(LowerProgram(defs), round)), callee, args, fuel) == o
  {
    var ir := LowerProgram(defs);
    var m := Inlining.AsModule(ir);
    NothingToInline(defs);
    assert Optimizer.OptimizeIR(ir, round) == Optimizer.ReduceIR(Optimizer.PropIR(ir, round));
    assert ConstantPropagation.Exact(round) && ConstantPropagation.GuardedModule(m, round);
    hide *;
    LoweredStable(defs);
    ConstantPropagation.PropCall(m, callee, args, round, fuel);
    Optimizer.PropKeepsStable(m, round);
    Optimizer.PropIRModule(ir, round);
    RedundantChecks.ReduceCall(ConstantPropagation.PropModule(m, round), callee, args, fuel);
    Optimizer.ReduceIRModule(Optimizer.PropIR(ir, round));
  }

  lemma CallIsRun(defs: seq<Definition>, k: nat, args: seq<Value>, fuel: nat)
    requires k < |defs| && Inlining.DistinctNames(LowerProgram(defs)) && |args| == |defs[k].fn.params|
    ensures var m := Inlining.AsModule(LowerProgram(defs));
            Call(m, defs[k].name, args, fuel) == Run(m, LowerFunction(defs[k].fn), Entered(defs[k].fn, args), fuel)
  {
    Inlining.EntryIn(LowerProgram(defs), k);
    hide Run;
  }

  /** A program of the fragment, lowered and then optimized: every defined outcome of a source function is
      an outcome of the compiled one, and the compiled one has no other outcome unless the source is undefined.
      The repository does not chain these two: `bin/protoscriptc` optimizes what `src/ir.js` builds, and
      `c/frontend.c` leaves its graphs as they are. */
  lemma CompiledMeaning(defs: seq<Definition>, round: ConstantPropagation.Rounding, k: nat, args: seq<Value>,
                        o: Outcome)
    requires k < |defs| && Inlining.DistinctNames(LowerProgram(defs)) && WfFunction(defs[k].fn) &&
             |args| == |defs[k].fn.params|
    requires FoldsAreExact(defs, round)
    ensures var compiled := Inlining.AsModule(Optimizer.OptimizeIR(LowerProgram(defs), round));
            (SourceEnds(defs[k].fn, args, o) && o != Trapped(Undefined) ==>
               Optimizer.Ends(compiled, defs[k].name, args, o)) &&
            (Optimizer.Ends(compiled, defs[k].name, args, o) ==>
               SourceEnds(defs[k].fn, args, o) || SourceEnds(defs[k].fn, args, Trapped(Undefined)))
  {
    hide *;
    var fn, name := defs[k].fn, defs[k].name;
    var m := Inlining.AsModule(LowerProgram(defs));
    var f, c := LowerFunction(fn), Entered(fn, args);
    var compiled := Inlining.AsModule(Optimizer.OptimizeIR(LowerProgram(defs), round));
    LoweringPreservesMeaning(m, fn, args, o);
    LoweringPreservesMeaning(m, fn, args, Trapped(Undefined));
    if SourceEnds(fn, args, o) && o != Trapped(Undefined) {
      var fuel := FuelOf(m, f, c, o);
      CallIsRun(defs, k, args, fuel);
      OptimizedCall(defs, round, name, args, fuel);
      EndsWith(compiled, name, args, fuel);
    }
    if Optimizer.Ends(compiled, name, args, o) {
      var fuel := CallFuel(compiled, name, args, o);
      CallIsRun(defs, k, args, fuel);
      OptimizedCall(defs, round, name, args, fuel);
      RunEnds(m, f, c, fuel);
    }
  }

  lemma FuelOf(m: Module, f: Function, c: Config, o: Outcome) returns (fuel: nat)
    requires GraphEnds(m, f, c, o)
    ensures o != OutOfFuel && Run(m, f, c, fuel) == o
  {
    hide Run;
    fuel :| Run(m, f, c, fuel) == o;
  }

  lemma CallFuel(m: Module, callee: string, args: seq<Value>, o: Outcome) returns (fuel: nat)
    requires Optimizer.Ends(m, callee, args, o)
    ensures o != OutOfFuel && Call(m, callee, args, fuel) == o
  {
    hide Call;
    fuel :| Call(m, callee, args, fuel) == o;
  }

  lemma EndsWith(m: Module, callee: string, args: seq<Value>, fuel: nat)
    ensures var o := Call(m, callee, args, fuel); o != OutOfFuel ==> Optimizer.Ends(m, callee, args, o)
  {
    hide Call;
  }

  lemma RunEnds(m: Module, f: Function, c: Config, fuel: nat)
    ensures var o := Run(m, f, c, fuel); o != OutOfFuel ==> GraphEnds(m, f, c, o)
  {
    hide Run;
  }
}
