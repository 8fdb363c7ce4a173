/** The whole optimizer: inline calls, propagate constants, drop repeated checks. */
module Optimizer {
  import opened Ir
  import opened Blocks
  import opened Inlining
  import opened ConstantPropagation
  import opened RedundantChecks

  function PropIR(ir: IR, round: Rounding): (r: IR)
    ensures |r| == |ir| && forall i :: 0 <= i < |ir| ==> r[i] == Named(ir[i].name, PropFunction(ir[i].fn, round))
  {
    seq(|ir|, i requires 0 <= i < |ir| => Named(ir[i].name, PropFunction(ir[i].fn, round)))
  }

  function ReduceIR(ir: IR): (r: IR)
    ensures |r| == |ir| && forall i :: 0 <= i < |ir| ==> r[i] == Named(ir[i].name, ReduceFunction(ir[i].fn))
  {
    seq(|ir|, i requires 0 <= i < |ir| => Named(ir[i].name, ReduceFunction(ir[i].fn)))
  }

  function OptimizeIR(ir: IR, round: Rounding): IR {
    ReduceIR(PropIR(InlineIR(ir), round))
  }

  lemma {:induction false} PropIRModule(ir: IR, round: Rounding)
    ensures AsModule(PropIR(ir, round)) == PropModule(AsModule(ir), round)
  {
    hide PropFunction;
    if ir != [] {
      var n := |ir| - 1;
      PropIRModule(ir[..n], round);
      assert PropIR(ir, round)[..n] == PropIR(ir[..n], round);
    }
  }

  lemma {:induction false} ReduceIRModule(ir: IR)
    ensures AsModule(ReduceIR(ir)) == ReduceModule(AsModule(ir))
  {
    hide ReduceFunction;
    if ir != [] {
      var n := |ir| - 1;
      ReduceIRModule(ir[..n]);
      assert ReduceIR(ir)[..n] == ReduceIR(ir[..n]);
    }
  }

  // ----- each pass keeps what the next one needs -----

  lemma InlineKeepsStable(m: Module, m': Module)
    requires InlineReady(m) && StableModule(m) && InlinedModule(m, m')
    ensures StableModule(m')
  {
    forall k | k in m'
      ensures StableBlocks(m'[k])
    {
      InlinedStable(m, m[k], m'[k]);
    }
  }

  lemma PropKeepsStable(m: Module, round: Rounding)
    requires StableModule(m)
    ensures StableModule(PropModule(m, round))
  {
    hide Stable;
    forall k | k in m
      ensures StableBlocks(PropFunction(m[k], round))
    {
      var f := m[k];
      forall b | 0 <= b < |f.blocks|
        ensures Stable(PropFunction(f, round).blocks[b].instrs, {})
      {
        PropStable(f.blocks[b].instrs, map[], round, {});
      }
    }
  }

  // ----- the optimizer keeps every defined outcome -----

  /** What the optimizer needs: distinct names, straight callees that define before they read, none of
      its own temporaries, no check whose operand is overwritten, and folds within their guards. */
  ghost predicate Optimizable(ir: IR, round: Rounding) {
    DistinctNames(ir) && InlineReady(AsModule(ir)) && StableModule(AsModule(ir)) &&
    Exact(round) && GuardedModule(AsModule(InlineIR(ir)), round)
  }

  lemma OptimizeCall(ir: IR, round: Rounding, callee: string, args: seq<Value>, fuel: nat, extra: bool)
    requires Optimizable(ir, round)
    ensures var o := Call(AsModule(ir), callee, args, if extra then fuel + 1 else fuel);
            var o' := Call(AsModule(OptimizeIR(ir, round)), callee, args, fuel);
            o == Trapped(Undefined) || o' == o || (if extra then o' == OutOfFuel else o == OutOfFuel)
  {
    var m := AsModule(ir);
    var inlined := InlineIR(ir);
    var m1 := AsModule(inlined);
    hide *;
    Parts(ir, round);
    InlineIRIs(ir);
    InlineCall(m, m1, callee, args, fuel, extra);
    MatchesParts(Call(m, callee, args, if extra then fuel + 1 else fuel), Call(m1, callee, args, fuel), extra);
    InlineKeepsStable(m, m1);
    PropCall(m1, callee, args, round, fuel);
    PropKeepsStable(m1, round);
    PropIRModule(inlined, round);
    ReduceCall(PropModule(m1, round), callee, args, fuel);
    ReduceIRModule(PropIR(inlined, round));
  }

  lemma Parts(ir: IR, round: Rounding)
    requires Optimizable(ir, round)
    ensures DistinctNames(ir) && InlineReady(AsModule(ir)) && StableModule(AsModule(ir))
    ensures Exact(round) && GuardedModule(AsModule(InlineIR(ir)), round)
    ensures OptimizeIR(ir, round) == ReduceIR(PropIR(InlineIR(ir), round))
  {
    hide DistinctNames;
    hide InlineReady;
    hide StableModule;
    hide GuardedModule;
    hide Exact;
    hide InlineIR;
  }

  ghost predicate Ends(m: Module, callee: string, args: seq<Value>, o: Outcome) {
    o != OutOfFuel && exists fuel: nat :: Call(m, callee, args, fuel) == o
  }

  /** Every function on all arguments: an outcome of the original that is defined is an outcome of the
      optimized program, and the optimized program has no outcome of its own unless the original is
      undefined; so it runs forever only if the original does. */
  lemma OptimizePreserves(ir: IR, round: Rounding, callee: string, args: seq<Value>, o: Outcome)
    requires Optimizable(ir, round)
    ensures Ends(AsModule(ir), callee, args, o) && o != Trapped(Undefined) ==>
              Ends(AsModule(OptimizeIR(ir, round)), callee, args, o)
    ensures Ends(AsModule(OptimizeIR(ir, round)), callee, args, o) ==>
              Ends(AsModule(ir), callee, args, o) || Ends(AsModule(ir), callee, args, Trapped(Undefined))
  {
    hide Optimizable;
    hide OptimizeIR;
    hide AsModule;
    hide Call;
    var m, m' := AsModule(ir), AsModule(OptimizeIR(ir, round));
    if Ends(m, callee, args, o) && o != Trapped(Undefined) {
      var fuel: nat :| Call(m, callee, args, fuel) == o;
      OptimizeCall(ir, round, callee, args, fuel, false);
    }
    if Ends(m', callee, args, o) {
      var fuel: nat :| Call(m', callee, args, fuel) == o;
      OptimizeCall(ir, round, callee, args, fuel, true);
      var more := fuel + 1;
      assert Call(m, callee, args, more) == o || Call(m, callee, args, more) == Trapped(Undefined);
    }
  }

  // ----- the passes as loops over the program -----

  method PropFunctions(ir: IR, round: Rounding) returns (r: IR)
    ensures r == PropIR(ir, round)
  {
    r := [];
    var k := 0;
    while k < |ir|
      invariant k <= |ir| && r == PropIR(ir, round)[..k]
    {
      var blocks, done, b := ir[k].fn.blocks, [], 0;
      while b < |blocks|
        invariant b <= |blocks| && done == PropBlocks(blocks, round)[..b]
      {
        var code := PropInstrs(blocks[b].instrs, round);
        done := done + [Block(blocks[b].tag, code)];
        b := b + 1;
      }
      assert done == PropBlocks(blocks, round);
      assert PropIR(ir, round)[k] == Named(ir[k].name, PropFunction(ir[k].fn, round));
      r := r + [Named(ir[k].name, Function(ir[k].fn.params, done))];
      k := k + 1;
    }
  }

  method ReduceFunctions(ir: IR) returns (r: IR)
    ensures r == ReduceIR(ir)
  {
    r := [];
    var k := 0;
    while k < |ir|
      invariant k <= |ir| && r == ReduceIR(ir)[..k]
    {
      var blocks, done, b := ir[k].fn.blocks, [], 0;
      while b < |blocks|
        invariant b <= |blocks| && done == ReduceBlocks(blocks)[..b]
      {
        var code := ReduceInstrs(blocks[b].instrs);
        done := done + [Block(blocks[b].tag, code)];
        b := b + 1;
      }
      assert done == ReduceBlocks(blocks);
      assert ReduceIR(ir)[k] == Named(ir[k].name, ReduceFunction(ir[k].fn));
      r := r + [Named(ir[k].name, Function(ir[k].fn.params, done))];
      k := k + 1;
    }
  }

  method Optimize(ir: IR, round: Rounding) returns (r: IR)
    ensures r == OptimizeIR(ir, round)
  {
    r := InlineFunctions(ir);
    r := PropFunctions(r, round);
    r := ReduceFunctions(r);
  }
}
