/** The pass that drops a check which an identical one has already made in the same block. */
module RedundantChecks {
  import opened Ir
  import opened Blocks

  /** The key of a check is the whole instruction, its source position included. */
  function Reduce(code: seq<Instr>, seen: set<Instr>): (r: seq<Instr>)
    decreases |code|
  {
    if code == [] then []
    else
      var i := code[0];
      if !IsCheck(i) then [i] + Reduce(code[1..], seen)
      else if i in seen then Reduce(code[1..], seen)
      else [i] + Reduce(code[1..], seen + {i})
  }

  function ReduceBlocks(blocks: seq<Block>): (r: seq<Block>)
    ensures SameTags(blocks, r)
    ensures forall i :: 0 <= i < |r| ==> r[i].instrs == Reduce(blocks[i].instrs, {})
  {
    seq(|blocks|, i requires 0 <= i < |blocks| => Block(blocks[i].tag, Reduce(blocks[i].instrs, {})))
  }

  function ReduceFunction(f: Function): Function {
    Function(f.params, ReduceBlocks(f.blocks))
  }

  function ReduceModule(m: Module): Module {
    map k | k in m :: ReduceFunction(m[k])
  }

  predicate StableModule(m: Module) {
    forall k :: k in m ==> StableBlocks(m[k])
  }

  // ----- dropping repeated checks changes no run -----

  /** The checks made so far would pass again. */
  ghost predicate Passed(seen: set<Instr>, guarded: set<Name>, regs: Regs) {
    forall c :: c in seen ==> IsCheck(c) && Reads(c) <= guarded && Step(c, regs) == Next(regs)
  }

  lemma PassedLater(seen: set<Instr>, guarded: set<Name>, i: Instr, regs: Regs, later: Regs)
    requires Passed(seen, guarded, regs) && Written(i) !! guarded
    requires forall x :: x in regs && x !in Written(i) ==> x in later && later[x] == regs[x]
    ensures Passed(seen, guarded, later)
  {
    hide Written;
    forall c | c in seen
      ensures Step(c, later) == Next(later)
    {
      CheckDepends(c, regs, later);
    }
  }

  lemma CheckDepends(c: Instr, a: Regs, b: Regs)
    requires IsCheck(c) && Step(c, a) == Next(a) && forall x :: x in Reads(c) && x in a ==> x in b && b[x] == a[x]
    ensures Step(c, b) == Next(b)
  {
  }

  lemma PassedMore(seen: set<Instr>, guarded: set<Name>, more: set<Name>, regs: Regs)
    requires Passed(seen, guarded, regs) && guarded <= more
    ensures Passed(seen, more, regs)
  {
  }

  lemma PassedAdd(seen: set<Instr>, guarded: set<Name>, c: Instr, regs: Regs)
    requires Passed(seen, guarded, regs) && IsCheck(c) && Reads(c) <= guarded && Step(c, regs) == Next(regs)
    ensures Passed(seen + {c}, guarded, regs)
  {
  }

  lemma StepKeepsOthers(i: Instr, regs: Regs)
    ensures Step(i, regs).Next? ==> forall x :: x in regs && x !in Written(i) ==>
                                                  x in Step(i, regs).regs && Step(i, regs).regs[x] == regs[x]
    ensures Step(i, regs).Enter? ==> Written(i) == {Step(i, regs).dst}
  {
  }

  lemma {:induction false} ReduceRuns(m: Module, f: Function, code: seq<Instr>, seen: set<Instr>, guarded: set<Name>,
                                      regs: Regs, fuel: nat)
    requires StableModule(m) && StableBlocks(f) && Stable(code, guarded) && Passed(seen, guarded, regs)
    ensures RunCode(ReduceModule(m), ReduceFunction(f), Reduce(code, seen), regs, fuel) ==
            RunCode(m, f, code, regs, fuel)
    decreases fuel, 0, |code|
  {
    hide *;
    if code == [] {
      NothingLeft(m, f, seen, regs, fuel);
    } else {
      var i, rest := code[0], code[1..];
      var more := guarded + Guarded(i);
      var m', f' := ReduceModule(m), ReduceFunction(f);
      var x := Step(i, regs);
      ReduceStep(code, seen);
      StableStep(code, guarded);
      StepKeepsOthers(i, regs);
      CheckKeepsIf(i, regs);
      RunCodeStep(m, f, code, regs, fuel);
      PassedMore(seen, guarded, more, regs);
      if IsCheck(i) && i in seen {
        SeenPasses(seen, guarded, i, regs);
        ReduceRuns(m, f, rest, seen, more, regs, fuel);
      } else {
        var seen' := if IsCheck(i) then seen + {i} else seen;
        var rest' := Reduce(rest, seen');
        assert ([i] + rest')[1..] == rest';
        RunCodeStep(m', f', [i] + rest', regs, fuel);
        if x.Next? {
          PassedLater(seen, more, i, regs, x.regs);
          if IsCheck(i) { PassedAdd(seen, more, i, regs); }
          ReduceRuns(m, f, rest, seen', more, x.regs, fuel);
        } else if x.Goto? && fuel > 0 {
          ReduceLabel(m, f, x.target, regs, fuel - 1);
        } else if x.Enter? && fuel > 0 {
          ReduceCall(m, x.callee, x.args, fuel - 1);
          var o := Call(m, x.callee, x.args, fuel - 1);
          CallFlowStep(m, f, rest, regs, x.dst, o, fuel);
          CallFlowStep(m', f', rest', regs, x.dst, o, fuel);
          if o.Returned? {
            PassedLater(seen, more, i, regs, regs[x.dst := o.value]);
            ReduceRuns(m, f, rest, seen, more, regs[x.dst := o.value], fuel);
          } else if o.ReturnedVoid? {
            ReduceRuns(m, f, rest, seen, more, regs, fuel);
          }
        }
      }
    }
  }

  lemma NothingLeft(m: Module, f: Function, seen: set<Instr>, regs: Regs, fuel: nat)
    ensures RunCode(ReduceModule(m), ReduceFunction(f), Reduce([], seen), regs, fuel) == RunCode(m, f, [], regs, fuel)
  {
  }

  lemma ReduceStep(code: seq<Instr>, seen: set<Instr>)
    requires code != []
    ensures Reduce(code, seen) ==
            if IsCheck(code[0]) && code[0] in seen then Reduce(code[1..], seen)
            else [code[0]] + Reduce(code[1..], if IsCheck(code[0]) then seen + {code[0]} else seen)
  {
  }

  lemma StableStep(code: seq<Instr>, guarded: set<Name>)
    requires code != [] && Stable(code, guarded)
    ensures Written(code[0]) !! guarded + Guarded(code[0]) && Stable(code[1..], guarded + Guarded(code[0]))
    ensures IsCheck(code[0]) ==> Reads(code[0]) <= guarded + Guarded(code[0])
  {
    hide Written;
    hide Reads;
  }

  lemma CheckKeepsIf(i: Instr, regs: Regs)
    ensures IsCheck(i) && Step(i, regs).Next? ==> Step(i, regs) == Next(regs)
    ensures IsCheck(i) ==> Step(i, regs).Next? || Step(i, regs).Stop?
  {
  }

  lemma SeenPasses(seen: set<Instr>, guarded: set<Name>, i: Instr, regs: Regs)
    requires Passed(seen, guarded, regs) && i in seen
    ensures Step(i, regs) == Next(regs)
  {
  }

  lemma ReduceLabel(m: Module, f: Function, l: Label, regs: Regs, fuel: nat)
    requires StableModule(m) && StableBlocks(f)
    ensures RunLabel(ReduceModule(m), ReduceFunction(f), l, regs, fuel) == RunLabel(m, f, l, regs, fuel)
    decreases fuel, 2
  {
    SameFind(f.blocks, ReduceFunction(f).blocks, l);
    ReduceBlock(m, f, FindLabel(f.blocks, l), regs, fuel);
  }

  lemma ReduceBlock(m: Module, f: Function, b: nat, regs: Regs, fuel: nat)
    requires StableModule(m) && StableBlocks(f)
    ensures RunBlock(ReduceModule(m), ReduceFunction(f), b, regs, fuel) == RunBlock(m, f, b, regs, fuel)
    decreases fuel, 1
  {
    if b < |f.blocks| { ReduceRuns(m, f, f.blocks[b].instrs, {}, {}, regs, fuel); }
  }

  /** Every call ends as before, with the same fuel. */
  lemma ReduceCall(m: Module, callee: string, args: seq<Value>, fuel: nat)
    requires StableModule(m)
    ensures Call(ReduceModule(m), callee, args, fuel) == Call(m, callee, args, fuel)
    decreases fuel, 2
  {
    if callee in m && |args| == |m[callee].params| {
      CallIsRunBlock(m, callee, args, fuel);
      CallIsRunBlock(ReduceModule(m), callee, args, fuel);
      ReduceBlock(m, m[callee], 0, Bind(m[callee].params, args), fuel);
    }
  }

  // ----- the condition is needed -----

  predicate NoRepeats(code: seq<Instr>) {
    forall i, j :: 0 <= i < j < |code| && IsCheck(code[i]) ==> code[i] != code[j]
  }

  /** In code whose one repeated check is `c`, the pass drops the second `c`.  That leaves the outcome as
      it was exactly if the run does not come there, the operands pass the check again, or the rest
      stops with what the check would have reported. */
  lemma DroppedCheckIff(m: Module, f: Function, pre: seq<Instr>, c: Instr, rest: seq<Instr>, regs: Regs, fuel: nat)
    requires IsCheck(c) && c in pre && NoRepeats(pre + rest)
    ensures var t := Through(m, pre, regs, fuel);
            RunCode(m, f, Reduce(pre + [c] + rest, {}), regs, fuel) == RunCode(m, f, pre + [c] + rest, regs, fuel) <==>
            t.None? || Step(c, t.value).Next? || Step(c, t.value) == Stop(RunCode(m, f, rest, t.value, fuel))
  {
    OneIsDropped(pre, c, rest);
    CheckKeepsAll(c);
    hide *;
    assert pre + [c] + rest == pre + ([c] + rest);
    RunThrough(m, f, pre, [c] + rest, rest, regs, fuel);
    RunThrough(m, f, pre, rest, [c] + rest, regs, fuel);
    var t := Through(m, pre, regs, fuel);
    if t.Some? {
      assert ([c] + rest)[1..] == rest;
      RunCodeStep(m, f, [c] + rest, t.value, fuel);
    }
  }

  lemma CheckKeepsAll(c: Instr)
    requires IsCheck(c)
    ensures forall regs: Regs :: Step(c, regs) == Next(regs) || Step(c, regs).Stop?
  {
  }

  lemma OneIsDropped(pre: seq<Instr>, c: Instr, rest: seq<Instr>)
    requires IsCheck(c) && c in pre && NoRepeats(pre + rest)
    ensures Reduce(pre + [c] + rest, {}) == pre + rest
  {
    NoRepeatsParts(pre, rest);
    var seen := ReducePrefix(pre, [c] + rest, {});
    assert pre + ([c] + rest) == pre + [c] + rest;
    ReduceStep([c] + rest, seen);
    assert ([c] + rest)[1..] == rest;
    forall j | 0 <= j < |rest| && IsCheck(rest[j])
      ensures rest[j] !in seen
    {
      forall i | 0 <= i < |pre|
        ensures pre[i] != rest[j]
      {
        assert (pre + rest)[i] == pre[i] && (pre + rest)[|pre| + j] == rest[j];
      }
    }
    var _ := ReducePrefix(rest, [], seen);
    assert rest + [] == rest;
  }

  lemma NoRepeatsParts(a: seq<Instr>, b: seq<Instr>)
    requires NoRepeats(a + b)
    ensures NoRepeats(a) && NoRepeats(b)
  {
    var code := a + b;
    assert forall i :: 0 <= i < |a| ==> a[i] == code[i];
    assert forall i :: 0 <= i < |b| ==> b[i] == code[|a| + i];
  }

  /** Code without a repeated check stays, and its checks have been seen. */
  lemma {:induction false} ReducePrefix(pre: seq<Instr>, rest: seq<Instr>, seen: set<Instr>) returns (more: set<Instr>)
    requires NoRepeats(pre) && forall j :: 0 <= j < |pre| && IsCheck(pre[j]) ==> pre[j] !in seen
    ensures Reduce(pre + rest, seen) == pre + Reduce(rest, more)
    ensures more == seen + set i | i in pre && IsCheck(i)
    decreases |pre|
  {
    if pre == [] {
      assert pre + rest == rest;
      more := seen;
    } else {
      var i := pre[0];
      var seen' := if IsCheck(i) then seen + {i} else seen;
      assert (pre + rest)[0] == i && (pre + rest)[1..] == pre[1..] + rest;
      assert i !in pre[1..] || !IsCheck(i);
      more := ReducePrefix(pre[1..], rest, seen');
      assert pre == [i] + pre[1..];
      assert [i] + (pre[1..] + Reduce(rest, more)) == pre + Reduce(rest, more);
    }
  }

  const T := Temp(1)
  const ONE := Const(T, IntText(1))
  const ZERO := Const(T, IntText(0))
  const CHECK := CheckDivZero(T, 0)

  lemma RewrittenReduces()
    ensures Reduce([ONE, CHECK, ZERO, CHECK, Ret(T)], {}) == [ONE, CHECK, ZERO, Ret(T)]
  {
    var c1, c2, c3, c4 := [CHECK, ZERO, CHECK, Ret(T)], [ZERO, CHECK, Ret(T)], [CHECK, Ret(T)], [Ret(T)];
    ReduceStep(c4, {CHECK});
    ReduceStep(c3, {CHECK});
    ReduceStep(c2, {CHECK});
    ReduceStep(c1, {});
    ReduceStep([ONE] + c1, {});
    assert {} + {CHECK} == {CHECK};
  }

  lemma RewrittenRuns(f: Function, rest: seq<Instr>, regs: Regs)
    requires rest == [CHECK, Ret(T)] || rest == [Ret(T)]
    ensures RunCode(map[], f, [ONE, CHECK, ZERO] + rest, regs, 0) ==
            if |rest| == 2 then Trapped(DivZero) else Returned(VInt(0))
  {
    hide Step;
    var r1, r0 := regs[T := VInt(1)], regs[T := VInt(0)];
    assert r1[T := VInt(0)] == r0;
    OnT(regs, 1);
    OnT(r1, 0);
    RunCodeStep(map[], f, [ONE, CHECK, ZERO] + rest, regs, 0);
    RunCodeStep(map[], f, [CHECK, ZERO] + rest, r1, 0);
    RunCodeStep(map[], f, [ZERO] + rest, r1, 0);
    RunCodeStep(map[], f, rest, r0, 0);
    assert ([ONE, CHECK, ZERO] + rest)[1..] == [CHECK, ZERO] + rest && ([CHECK, ZERO] + rest)[1..] == [ZERO] + rest;
    assert ([ZERO] + rest)[1..] == rest;
  }

  lemma OnT(regs: Regs, n: int)
    ensures var r := regs[T := VInt(n)];
            Step(Const(T, IntText(n)), regs) == Next(r) &&
            Step(CHECK, r) == (if n == 0 then Stop(Trapped(DivZero)) else Next(r)) &&
            Step(Ret(T), r) == Stop(Returned(VInt(n)))
  {
  }

  /** Writing a name between two checks of it makes the second one count. */
  lemma UnstableCheckIsLost(f: Function, regs: Regs)
    ensures var code := [ONE, CHECK, ZERO, CHECK, Ret(T)];
            RunCode(map[], f, code, regs, 0) == Trapped(DivZero) &&
            RunCode(map[], f, Reduce(code, {}), regs, 0) == Returned(VInt(0))
  {
    RewrittenReduces();
    RewrittenRuns(f, [CHECK, Ret(T)], regs);
    RewrittenRuns(f, [Ret(T)], regs);
    assert [ONE, CHECK, ZERO] + [CHECK, Ret(T)] == [ONE, CHECK, ZERO, CHECK, Ret(T)];
    assert [ONE, CHECK, ZERO] + [Ret(T)] == [ONE, CHECK, ZERO, Ret(T)];
  }

  // ----- the loop over the instructions -----

  method ReduceInstrs(instrs: seq<Instr>) returns (out: seq<Instr>)
    ensures out == Reduce(instrs, {})
  {
    out := [];
    var seen: set<Instr> := {};
    var k := 0;
    assert instrs[0..] == instrs;
    while k < |instrs|
      invariant k <= |instrs|
      invariant out + Reduce(instrs[k..], seen) == Reduce(instrs, {})
    {
      var i := instrs[k];
      assert instrs[k..][1..] == instrs[k + 1..];
      k := k + 1;
      if !IsCheck(i) {
        out := out + [i];
        continue;
      }
      if i in seen { continue; }
      seen := seen + {i};
      out := out + [i];
    }
  }
}
