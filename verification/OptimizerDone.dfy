/** What is left to do after the optimizer: nothing that its passes look for. */
module OptimizerDone {
  import opened Options
  import opened Arith
  import opened Ir
  import opened Blocks
  import opened Inlining
  import opened ConstantPropagation
  import opened RedundantChecks
  import opened Optimizer

  // ----- what the passes look for, in terms of the code alone -----

  /** The constant that `x` holds after `code`, traced back through copies to the `const` it comes from. */
  ghost function ConstantAfter(code: seq<Instr>, x: Name): Option<Literal>
    decreases |code|
  {
    if code == [] then None
    else
      var before, i := code[..|code| - 1], code[|code| - 1];
      if i.Const? && i.dst == x then Some(i.lit)
      else if i.Copy? && i.dst == x then ConstantAfter(before, i.src)
      else if x in Written(i) && !i.StoreVar? then None
      else ConstantAfter(before, x)
  }

  /** Texts that `Number` does not read: "true" and "false". */
  predicate Readable(lit: Literal) {
    !lit.BoolText?
  }

  /** A divisor on which the quotient is no finite number; a `bool` is 0 unless its text is "true". */
  ghost predicate ZeroDivisor(lit: Literal, round: Rounding) {
    match lit
    case IntText(n) => round(n as real) == 0.0
    case FracText(r) => r == 0.0
    case BoolText(b) => !b
    case RawBool(_) => true
    case BoolNumber(_) => true
  }

  /** An operation whose operands are constants there and whose result is a finite number or a truth
      value, or a selection whose condition is a constant there. */
  ghost predicate Foldable(before: seq<Instr>, i: Instr, round: Rounding) {
    if i.Unary? then
      var c := ConstantAfter(before, i.src);
      c.Some? && Readable(c.value)
    else if i.Bin? then
      var a, b := ConstantAfter(before, i.left), ConstantAfter(before, i.right);
      a.Some? && b.Some? && !((i.op.Div? || i.op.Mod?) && ZeroDivisor(b.value, round))
    else i.Select? && ConstantAfter(before, i.cond).Some?
  }

  ghost predicate NothingFoldable(code: seq<Instr>, round: Rounding) {
    forall k :: 0 <= k < |code| ==> !Foldable(code[..k], code[k], round)
  }

  /** Instructions that end a block, change a variable or call: no callee with one of them inside is
      straight. */
  predicate Blocking(i: Instr) {
    i.Jump? || i.BranchIf? || i.Ret? || i.RetVoid? || i.RetDefault? || i.VarDecl? || i.StoreVar? ||
    i.CallStatic? || i.Nop? || i.Unhandled?
  }

  /** One block that ends in `ret` and has nothing blocking before it. */
  predicate OneStraightBlock(f: Function) {
    |f.blocks| == 1 && f.blocks[0].instrs != [] &&
    var code := f.blocks[0].instrs;
    code[|code| - 1].Ret? && forall k :: 0 <= k < |code| - 1 ==> !Blocking(code[k])
  }

  predicate Inlinable(i: Instr, m: Module) {
    i.CallStatic? && i.callee in m && OneStraightBlock(m[i.callee]) && |m[i.callee].params| == |i.args|
  }

  predicate NothingInlinable(code: seq<Instr>, m: Module) {
    forall k :: 0 <= k < |code| ==> !Inlinable(code[k], m)
  }

  // ----- repeated checks -----

  lemma {:induction false} ReduceFromInput(code: seq<Instr>, seen: set<Instr>)
    ensures var r := Reduce(code, seen);
            (forall c :: c in r ==> c in code && !(IsCheck(c) && c in seen)) && NoRepeats(r)
    decreases |code|
  {
    if code != [] {
      var i, rest := code[0], code[1..];
      ReduceStep(code, seen);
      hide IsCheck;
      hide Reduce;
      if IsCheck(i) && i in seen {
        ReduceFromInput(rest, seen);
      } else {
        var seen' := if IsCheck(i) then seen + {i} else seen;
        ReduceFromInput(rest, seen');
        ConsNoRepeats(i, Reduce(rest, seen'));
      }
    }
  }

  lemma ConsNoRepeats(i: Instr, r: seq<Instr>)
    requires NoRepeats(r) && (IsCheck(i) ==> i !in r)
    ensures NoRepeats([i] + r)
  {
    var all := [i] + r;
    forall a, b | 0 <= a < b < |all| && IsCheck(all[a])
      ensures all[a] != all[b]
    {
      if a > 0 { assert r[a - 1] == all[a] && r[b - 1] == all[b]; }
    }
  }

  // ----- constants -----

  /** The pass knows exactly the constants that the code before holds. */
  ghost predicate Traced(cst: Constants, before: seq<Instr>) {
    forall x :: if x in cst then ConstantAfter(before, x) == Some(cst[x]) else ConstantAfter(before, x) == None
  }

  lemma AfterOne(before: seq<Instr>, i: Instr, x: Name)
    ensures ConstantAfter(before + [i], x) ==
            if i.Const? && i.dst == x then Some(i.lit)
            else if i.Copy? && i.dst == x then ConstantAfter(before, i.src)
            else if x in Written(i) && !i.StoreVar? then None
            else ConstantAfter(before, x)
  {
    assert (before + [i])[..|before|] == before;
  }

  lemma TracedStep(i: Instr, cst: Constants, before: seq<Instr>, round: Rounding)
    requires Traced(cst, before)
    ensures var (j, cst1) := PropOne(i, cst, round); Traced(cst1, before + [j])
  {
    var (j, cst1) := PropOne(i, cst, round);
    hide ConstantAfter;
    hide FoldUn;
    hide FoldBin;
    forall x
      ensures if x in cst1 then ConstantAfter(before + [j], x) == Some(cst1[x])
              else ConstantAfter(before + [j], x) == None
    {
      AfterOne(before, j, x);
    }
  }

  lemma FoldsUnless(op: UnOp, lit: Literal, round: Rounding)
    ensures FoldUn(op, lit, round).Some? <==> Readable(lit)
  {
  }

  lemma FoldsBothUnless(op: BinOp, a: Literal, b: Literal, round: Rounding)
    ensures FoldBin(op, a, b, round).Some? <==> !((op.Div? || op.Mod?) && ZeroDivisor(b, round))
  {
    hide ToInt32;
    hide ShiftCount;
    hide Pow2;
    hide Times;
    hide Remainder;
  }

  lemma OneFolded(i: Instr, cst: Constants, before: seq<Instr>, round: Rounding)
    requires Traced(cst, before)
    ensures !Foldable(before, PropOne(i, cst, round).0, round)
  {
    hide ConstantAfter;
    hide FoldUn;
    hide FoldBin;
    if i.Unary? && i.src in cst { FoldsUnless(i.unop, cst[i.src], round); }
    if i.Bin? && i.left in cst && i.right in cst { FoldsBothUnless(i.op, cst[i.left], cst[i.right], round); }
  }

  ghost predicate NoneFrom(before: seq<Instr>, code: seq<Instr>, round: Rounding) {
    forall k :: 0 <= k < |code| ==> !Foldable(before + code[..k], code[k], round)
  }

  lemma ConsNone(before: seq<Instr>, i: Instr, rest: seq<Instr>, round: Rounding)
    requires !Foldable(before, i, round) && NoneFrom(before + [i], rest, round)
    ensures NoneFrom(before, [i] + rest, round)
  {
    hide Foldable;
    var code := [i] + rest;
    forall k | 0 <= k < |code|
      ensures !Foldable(before + code[..k], code[k], round)
    {
      if k == 0 {
        assert before + code[..0] == before;
      } else {
        assert before + code[..k] == (before + [i]) + rest[..k - 1];
      }
    }
  }

  lemma NoneRest(before: seq<Instr>, code: seq<Instr>, round: Rounding)
    requires code != [] && NoneFrom(before, code, round)
    ensures !Foldable(before, code[0], round) && NoneFrom(before + [code[0]], code[1..], round)
  {
    hide Foldable;
    assert before + code[..0] == before;
    forall k | 0 <= k < |code| - 1
      ensures !Foldable((before + [code[0]]) + code[1..][..k], code[1..][k], round)
    {
      assert (before + [code[0]]) + code[1..][..k] == before + code[..k + 1];
    }
  }

  lemma {:induction false} PropLeavesNone(code: seq<Instr>, cst: Constants, before: seq<Instr>, round: Rounding)
    requires Traced(cst, before)
    ensures NoneFrom(before, Prop(code, cst, round), round)
    decreases |code|
  {
    if code == [] {
      NoneOfNothing(before, round);
    } else {
      PropUnfold(code, cst, round);
      hide *;
      var (j, cst1) := PropOne(code[0], cst, round);
      TracedStep(code[0], cst, before, round);
      OneFolded(code[0], cst, before, round);
      PropLeavesNone(code[1..], cst1, before + [j], round);
      ConsNone(before, j, Prop(code[1..], cst1, round), round);
    }
  }

  lemma NoneOfNothing(before: seq<Instr>, round: Rounding)
    ensures NoneFrom(before, [], round)
  {
  }

  /** The check pass drops nothing that the trace of a constant depends on. */
  ghost predicate SameTrace(a: seq<Instr>, b: seq<Instr>) {
    forall x :: ConstantAfter(a, x) == ConstantAfter(b, x)
  }

  lemma SameTraceOne(a: seq<Instr>, b: seq<Instr>, i: Instr)
    requires SameTrace(a, b)
    ensures SameTrace(a + [i], b + [i]) && (IsCheck(i) ==> SameTrace(a + [i], b))
  {
    hide ConstantAfter;
    forall x
      ensures ConstantAfter(a + [i], x) == ConstantAfter(b + [i], x)
      ensures IsCheck(i) ==> ConstantAfter(a + [i], x) == ConstantAfter(b, x)
    {
      AfterOne(a, i, x);
      AfterOne(b, i, x);
    }
  }

  lemma SameFoldable(a: seq<Instr>, b: seq<Instr>, i: Instr, round: Rounding)
    requires SameTrace(a, b)
    ensures Foldable(a, i, round) == Foldable(b, i, round)
  {
    hide ConstantAfter;
  }

  lemma {:induction false} ReduceLeavesNone(a: seq<Instr>, code: seq<Instr>, seen: set<Instr>, b: seq<Instr>,
                                            round: Rounding)
    requires NoneFrom(a, code, round) && SameTrace(a, b)
    ensures NoneFrom(b, Reduce(code, seen), round)
    decreases |code|
  {
    if code == [] {
      NoneOfNothing(b, round);
    } else {
      ReduceStep(code, seen);
      hide *;
      var i, rest := code[0], code[1..];
      NoneRest(a, code, round);
      SameTraceOne(a, b, i);
      if IsCheck(i) && i in seen {
        ReduceLeavesNone(a + [i], rest, seen, b, round);
      } else {
        var seen' := if IsCheck(i) then seen + {i} else seen;
        SameFoldable(a, b, i, round);
        ReduceLeavesNone(a + [i], rest, seen', b + [i], round);
        ConsNone(b, i, Reduce(rest, seen'), round);
      }
    }
  }

  // ----- calls -----

  predicate CallFree(code: seq<Instr>) {
    forall k :: 0 <= k < |code| ==> !code[k].CallStatic?
  }

  /** Every call in `a` is one of the calls in `b`. */
  ghost predicate CallsWithin(a: seq<Instr>, b: seq<Instr>) {
    forall i :: i in a && i.CallStatic? ==> i in b
  }

  lemma CandidateIs(f: Function)
    ensures Candidate(f) <==> OneStraightBlock(f)
  {
    if |f.blocks| == 1 {
      var code := f.blocks[0].instrs;
      forall k | 0 <= k < |code|
        ensures Allowed(code[k]) <==> !Blocking(code[k])
      {
      }
    }
  }

  lemma InlinesIsInlinable(i: Instr, m: Module)
    ensures Inlines(i, Candidates(m)) <==> Inlinable(i, m)
  {
    if i.CallStatic? && i.callee in m { CandidateIs(m[i.callee]); }
    hide Candidate;
    hide OneStraightBlock;
  }

  lemma OneCallFree(i: Instr, temps: Renaming, params: Renaming, tid: nat)
    requires Allowed(i)
    ensures !InlineOne(i, temps, params, tid).0.CallStatic?
  {
  }

  lemma {:induction false} BodyCallFree(code: seq<Instr>, call: Instr, temps: Renaming, params: Renaming, tid: nat)
    requires call.CallStatic? && forall k :: 0 <= k < |code| ==> code[k].Ret? || Allowed(code[k])
    ensures CallFree(InlineBody(code, call, temps, params, tid).0)
    decreases |code|
  {
    if code != [] {
      if code[0].Ret? {
        BodyCallFree(code[1..], call, temps, params, tid);
      } else {
        var (i, temps1, tid1) := InlineOne(code[0], temps, params, tid);
        OneCallFree(code[0], temps, params, tid);
        BodyCallFree(code[1..], call, temps1, params, tid1);
      }
      hide InlineOne;
      hide Inlining.Sub;
    }
  }

  lemma OneDone(m: Module, i: Instr, tid: nat)
    ensures NothingInlinable(InlineInstr(Candidates(m), i, tid).0, m)
  {
    InlinesIsInlinable(i, m);
    var cands := Candidates(m);
    if Inlines(i, cands) {
      var callee := cands[i.callee];
      var code := callee.blocks[0].instrs;
      BodyCallFree(code, i, map[], ParamMap(callee.params, i.args), tid);
    }
    hide InlineBody;
    hide Candidate;
    hide OneStraightBlock;
  }

  lemma {:induction false} CodeDone(m: Module, code: seq<Instr>, tid: nat)
    ensures NothingInlinable(InlineCode(Candidates(m), code, tid).0, m)
    decreases |code|
  {
    if code != [] {
      var cands := Candidates(m);
      var (out, tid1) := InlineInstr(cands, code[0], tid);
      OneDone(m, code[0], tid);
      CodeDone(m, code[1..], tid1);
      InlineStep(cands, code, tid);
      hide *;
      BothDone(out, InlineCode(cands, code[1..], tid1).0, m);
    }
  }

  lemma BothDone(a: seq<Instr>, b: seq<Instr>, m: Module)
    requires NothingInlinable(a, m) && NothingInlinable(b, m)
    ensures NothingInlinable(a + b, m)
  {
    hide Inlinable;
  }

  lemma CallsDone(a: seq<Instr>, b: seq<Instr>, m: Module)
    requires NothingInlinable(b, m) && CallsWithin(a, b)
    ensures NothingInlinable(a, m)
  {
    forall k | 0 <= k < |a|
      ensures !Inlinable(a[k], m)
    {
      if a[k].CallStatic? {
        assert a[k] in b;
        var j :| 0 <= j < |b| && b[j] == a[k];
        assert !Inlinable(b[j], m);
      }
    }
  }

  lemma {:induction false} PropCalls(code: seq<Instr>, cst: Constants, round: Rounding)
    ensures CallsWithin(Prop(code, cst, round), code)
    decreases |code|
  {
    if code != [] {
      PropUnfold(code, cst, round);
      var (j, cst1) := PropOne(code[0], cst, round);
      PropCalls(code[1..], cst1, round);
      assert j.CallStatic? ==> j == code[0];
      hide Prop;
      hide PropOne;
      assert code == [code[0]] + code[1..];
    }
  }

  // ----- new temporaries -----

  function Result(i: Instr): Option<Name> {
    match i
    case Const(dst, _) => Some(dst)
    case LoadVar(dst, _) => Some(dst)
    case Copy(dst, _) => Some(dst)
    case Unary(dst, _, _) => Some(dst)
    case Bin(dst, _, _, _) => Some(dst)
    case Select(dst, _, _, _) => Some(dst)
    case CallStatic(dst, _, _) => Some(dst)
    case _ => None
  }

  /** The numbers of the optimizer's temporaries in the order in which the code writes them. */
  function NewIn(code: seq<Instr>): seq<nat> {
    if code == [] then []
    else (if Result(code[0]).Some? && Result(code[0]).value.OptTemp? then [Result(code[0]).value.id] else []) +
         NewIn(code[1..])
  }

  function NewInBlocks(blocks: seq<Block>): seq<nat> {
    if blocks == [] then [] else NewIn(blocks[0].instrs) + NewInBlocks(blocks[1..])
  }

  function NewInProgram(ir: IR): seq<nat> {
    if ir == [] then [] else NewInBlocks(ir[0].fn.blocks) + NewInProgram(ir[1..])
  }

  function Count(from: nat, to: nat): (r: seq<nat>)
    requires from <= to
    ensures |r| == to - from && forall k :: 0 <= k < |r| ==> r[k] == from + 1 + k
  {
    seq(to - from, k requires 0 <= k < to - from => from + 1 + k)
  }

  lemma {:induction false} NewJoin(a: seq<Instr>, b: seq<Instr>)
    ensures NewIn(a + b) == NewIn(a) + NewIn(b)
  {
    if a == [] {
      assert a + b == b;
    } else {
      assert (a + b)[0] == a[0] && (a + b)[1..] == a[1..] + b;
      NewJoin(a[1..], b);
    }
  }

  lemma NewOne(i: Instr, rest: seq<Instr>)
    ensures NewIn([i] + rest) ==
            (if Result(i).Some? && Result(i).value.OptTemp? then [Result(i).value.id] else []) + NewIn(rest)
  {
    assert ([i] + rest)[1..] == rest;
  }

  lemma CountOn(a: nat, b: nat, c: nat)
    requires a <= b <= c
    ensures Count(a, b) + Count(b, c) == Count(a, c)
  {
  }

  lemma CountOne(a: nat, c: nat)
    requires a < c
    ensures [a + 1] + Count(a + 1, c) == Count(a, c) && Count(a, a) == []
  {
  }

  lemma OneNew(i: Instr, temps: Renaming, params: Renaming, tid: nat)
    requires Allowed(i)
    ensures var (j, _, tid1) := InlineOne(i, temps, params, tid);
            if IsCheck(i) then Result(j).None? && tid1 == tid
            else Result(j) == Some(OptTemp(tid + 1)) && tid1 == tid + 1
  {
  }

  lemma {:induction false} BodyNew(code: seq<Instr>, call: Instr, temps: Renaming, params: Renaming, tid: nat)
    requires call.CallStatic? && NoOpt(call) && forall k :: 0 <= k < |code| ==> code[k].Ret? || Allowed(code[k])
    ensures var (out, tid1) := InlineBody(code, call, temps, params, tid); NewIn(out) == Count(tid, tid1)
    decreases |code|
  {
    hide InlineOne;
    hide Inlining.Sub;
    hide Result;
    if code != [] {
      if code[0].Ret? {
        BodyNew(code[1..], call, temps, params, tid);
        var rest := InlineBody(code[1..], call, temps, params, tid).0;
        var j := Copy(call.dst, Inlining.Sub(code[0].value, temps, params));
        CopyIsOld(call, j);
        NewOne(j, rest);
        assert [] + NewIn(rest) == NewIn(rest);
      } else {
        var (j, temps1, tid1) := InlineOne(code[0], temps, params, tid);
        BodyNew(code[1..], call, temps1, params, tid1);
        var (rest, tid2) := InlineBody(code[1..], call, temps1, params, tid1);
        OneNew(code[0], temps, params, tid);
        NewOne(j, rest);
        if IsCheck(code[0]) { assert [] + NewIn(rest) == NewIn(rest); } else { CountOne(tid, tid2); }
      }
    }
  }

  lemma CopyIsOld(call: Instr, j: Instr)
    requires call.CallStatic? && NoOpt(call) && j.Copy? && j.dst == call.dst
    ensures Result(j) == Some(j.dst) && !j.dst.OptTemp?
  {
    assert call.dst in Written(call);
  }

  lemma OldOne(i: Instr)
    requires NoOpt(i)
    ensures NewIn([i]) == []
  {
    if Result(i).Some? { assert Result(i).value in Written(i); }
  }

  lemma {:induction false} CodeNew(m: Module, code: seq<Instr>, tid: nat)
    requires NoOptCode(code)
    ensures var (out, tid1) := InlineCode(Candidates(m), code, tid); NewIn(out) == Count(tid, tid1)
    decreases |code|
  {
    if code != [] {
      var cands, i := Candidates(m), code[0];
      var (out, tid1) := InlineInstr(cands, i, tid);
      NoOptStep(code);
      InlineStep(cands, code, tid);
      if Inlines(i, cands) {
        var callee := cands[i.callee];
        BodyNew(callee.blocks[0].instrs, i, map[], ParamMap(callee.params, i.args), tid);
      } else {
        OldOne(i);
      }
      CodeNew(m, code[1..], tid1);
      hide InlineInstr;
      hide NewIn;
      hide NoOptCode;
      var (rest, tid2) := InlineCode(cands, code[1..], tid1);
      NewJoin(out, rest);
      CountOn(tid, tid1, tid2);
    }
  }

  lemma {:induction false} BlocksNew(m: Module, blocks: seq<Block>, tid: nat)
    requires forall b :: 0 <= b < |blocks| ==> NoOptCode(blocks[b].instrs)
    ensures var (out, tid1) := InlineBlocks(Candidates(m), blocks, tid); NewInBlocks(out) == Count(tid, tid1)
    decreases |blocks|
  {
    hide InlineCode;
    hide NewIn;
    if blocks != [] {
      var (code, tid1) := InlineCode(Candidates(m), blocks[0].instrs, tid);
      CodeNew(m, blocks[0].instrs, tid);
      BlocksNew(m, blocks[1..], tid1);
      var (rest, tid2) := InlineBlocks(Candidates(m), blocks[1..], tid1);
      assert ([Block(blocks[0].tag, code)] + rest)[1..] == rest;
      CountOn(tid, tid1, tid2);
    }
  }

  lemma {:induction false} EntriesNew(m: Module, ir: IR, tid: nat) returns (last: nat)
    requires forall e :: 0 <= e < |ir| ==> NoOptFunction(ir[e].fn)
    ensures tid <= last && NewInProgram(InlineEntries(Candidates(m), ir, tid)) == Count(tid, last)
    decreases |ir|
  {
    hide InlineBlocks;
    hide NewInBlocks;
    last := tid;
    if ir != [] {
      var (blocks, tid1) := InlineBlocks(Candidates(m), ir[0].fn.blocks, tid);
      BlocksNew(m, ir[0].fn.blocks, tid);
      last := EntriesNew(m, ir[1..], tid1);
      var rest := InlineEntries(Candidates(m), ir[1..], tid1);
      assert ([Named(ir[0].name, Function(ir[0].fn.params, blocks))] + rest)[1..] == rest;
      CountOn(tid, tid1, last);
    }
  }

  /** The new temporaries of the whole program are `%opt1000001`, `%opt1000002` and so on, each written once. */
  lemma NewTemporaries(ir: IR) returns (last: nat)
    requires forall e :: 0 <= e < |ir| ==> NoOptFunction(ir[e].fn)
    ensures 1000000 <= last && NewInProgram(InlineIR(ir)) == Count(1000000, last)
  {
    last := EntriesNew(AsModule(ir), ir, FIRST);
    hide InlineEntries;
    hide NewInProgram;
  }

  // ----- the whole program -----

  /** Afterwards no block repeats a check, no operation on constants with a finite result is left, and no
      call of a straight function of the input with the right number of arguments is left. */
  lemma OptimizeIsDone(ir: IR, round: Rounding, e: nat, b: nat)
    requires e < |ir| && b < |ir[e].fn.blocks|
    ensures var r := OptimizeIR(ir, round);
            |r| == |ir| && r[e].name == ir[e].name && r[e].fn.params == ir[e].fn.params &&
            |r[e].fn.blocks| == |ir[e].fn.blocks| && r[e].fn.blocks[b].tag == ir[e].fn.blocks[b].tag &&
            var code := r[e].fn.blocks[b].instrs;
            NoRepeats(code) && NothingFoldable(code, round) && NothingInlinable(code, AsModule(ir))
  {
    var m := AsModule(ir);
    var inlined := InlineIR(ir);
    InlineEntriesAre(Candidates(m), ir, FIRST);
    var f := ir[e].fn;
    assert InlinedFunction(Candidates(m), f, inlined[e].fn);
    assert InlinedBlock(Candidates(m), f.blocks[b].instrs, inlined[e].fn.blocks[b].instrs) && |inlined| == |ir| by {
      hide InlinedBlock;
    }
    var tid: nat :| inlined[e].fn.blocks[b].instrs == InlineCode(Candidates(m), f.blocks[b].instrs, tid).0;
    var code0 := inlined[e].fn.blocks[b].instrs;
    var code1 := Prop(code0, map[], round);
    var code2 := Reduce(code1, {});
    assert OptimizeIR(ir, round)[e].fn.blocks[b].instrs == code2;
    hide *;
    CodeDone(m, f.blocks[b].instrs, tid);
    BlockDone(code0, code1, code2, m, round);
  }

  lemma BlockDone(code0: seq<Instr>, code1: seq<Instr>, code2: seq<Instr>, m: Module, round: Rounding)
    requires NothingInlinable(code0, m) && code1 == Prop(code0, map[], round) && code2 == Reduce(code1, {})
    ensures NoRepeats(code2) && NothingFoldable(code2, round) && NothingInlinable(code2, m)
  {
    hide *;
    PropCalls(code0, map[], round);
    CallsDone(code1, code0, m);
    ReduceFromInput(code1, {});
    WithinIs(code2, code1);
    CallsDone(code2, code1, m);
    NothingTraced();
    PropLeavesNone(code0, map[], [], round);
    ReduceLeavesNone([], code1, {}, [], round);
    NoneIsNothing(code2, round);
  }

  lemma WithinIs(a: seq<Instr>, b: seq<Instr>)
    requires forall c :: c in a ==> c in b
    ensures CallsWithin(a, b)
  {
  }

  lemma NothingTraced()
    ensures Traced(map[], []) && SameTrace([], [])
  {
  }

  lemma NoneIsNothing(code: seq<Instr>, round: Rounding)
    requires NoneFrom([], code, round)
    ensures NothingFoldable(code, round)
  {
    hide Foldable;
    forall k | 0 <= k < |code|
      ensures !Foldable(code[..k], code[k], round)
    {
      assert [] + code[..k] == code[..k];
    }
  }
}
