/** Which blocks lowering leaves without a terminator: those that it walks away from at a `switch`
    without clauses, unless the block is already finished there. */
module Finished {
  import opened Options
  import opened Ir
  import opened Source
  import opened Lowering

  predicate HoldsTerminator(b: Block) {
    exists p :: 0 <= p < |b.instrs| && IsTerminator(b.instrs[p])
  }

  // ----- what can be seen in the source -----

  /** A short circuit moves on to a new block. */
  predicate HasLogic(e: Expr) {
    match e
    case EUn(op, arg) => !(op == Neg && arg == ELit(-INT_MIN)) && HasLogic(arg)
    case EBin(_, left, right) => HasLogic(left) || HasLogic(right)
    case ELogic(_, _, _) => true
    case ECond(cond, yes, no) => HasLogic(cond) || HasLogic(yes) || HasLogic(no)
    case _ => false
  }

  /** After `s` the current block is finished, if it was `done` before; `brk` and `lp` say whether
      `break` and `continue` have a target. */
  predicate Done(s: Stmt, done: bool, brk: bool, lp: bool)
    decreases s, 0
  {
    match s
    case SDecl(_, init) => done && (init.Some? ==> !HasLogic(init.value))
    case SAssign(_, _, rhs) => done && !HasLogic(rhs)
    case SExpr(e) => done && !HasLogic(e)
    case SBlock(body) => DoneAll(body, done, brk, lp)
    case SBreak => done || brk
    case SContinue => done || lp
    case SReturn(_) => true
    case _ => false
  }

  predicate DoneAll(ss: seq<Stmt>, done: bool, brk: bool, lp: bool)
    decreases ss, 1
  {
    if ss == [] then done else DoneAll(ss[1..], Done(ss[0], done, brk, lp), brk, lp)
  }

  /** Every `switch` without clauses is reached only where the block is finished. */
  predicate Covered(s: Stmt, done: bool, brk: bool, lp: bool)
    decreases s, 0
  {
    match s
    case SBlock(body) => CoveredAll(body, done, brk, lp)
    case SIf(_, yes, no) => Covered(yes, false, brk, lp) &&
                            (match no case None => true case Some(other) => Covered(other, false, brk, lp))
    case SWhile(_, loop) => Covered(loop, false, true, true)
    case SDo(loop, _) => Covered(loop, false, true, true)
    case SFor(start, _, step, loop) =>
      Covered(start, false, brk, lp) && Covered(loop, false, true, true) && Covered(step, false, brk, lp)
    case SSwitch(e, cases, default) =>
      (cases == [] && default.NoDefault? ==> done && !HasLogic(e)) &&
      CoveredCases(s, 0, lp) &&
      (match default case NoDefault => true case Otherwise(body) => CoveredAll(body, false, true, lp))
    case _ => true
  }

  predicate CoveredAll(ss: seq<Stmt>, done: bool, brk: bool, lp: bool)
    decreases ss, 1
  {
    ss == [] || (Covered(ss[0], done, brk, lp) && CoveredAll(ss[1..], Done(ss[0], done, brk, lp), brk, lp))
  }

  predicate CoveredCases(s: Stmt, i: nat, lp: bool)
    requires s.SSwitch? && i <= |s.cases|
    decreases s, 0, |s.cases| - i
  {
    i == |s.cases| || (CoveredAll(s.cases[i].body, false, true, lp) && CoveredCases(s, i + 1, lp))
  }

  // ----- what is left behind -----

  /** Unfinished blocks other than the current one. */
  ghost function Rest(st: Ctx): set<nat> {
    set k: nat | k < |st.blocks| && k != st.cur && !HoldsTerminator(st.blocks[k])
  }

  predicate Held(st: Ctx) {
    st.cur < |st.blocks| && HoldsTerminator(st.blocks[st.cur])
  }

  /** The blocks of `base` are still to be finished; `cov` says that no other is left. */
  ghost predicate Stage(st: Ctx, base: set<nat>, cov: bool, breaks: seq<Label>, loops: seq<LoopTarget>) {
    st.cur < |st.blocks| && base <= Rest(st) && (Rest(st) == base <==> cov) && st.breaks == breaks && st.loops == loops
  }

  ghost function Span(n: nat, count: nat): (r: set<nat>)
    ensures forall b: nat :: b in r <==> n <= b < n + count
  {
    if count == 0 then {} else Span(n, count - 1) + {n + count - 1}
  }

  // ----- steps -----

  lemma EmitHolds(b: Block, i: Instr)
    ensures HoldsTerminator(b.(instrs := b.instrs + [i])) <==> HoldsTerminator(b) || IsTerminator(i)
  {
    var c := b.(instrs := b.instrs + [i]);
    if HoldsTerminator(b) {
      var p :| 0 <= p < |b.instrs| && IsTerminator(b.instrs[p]);
      assert c.instrs[p] == b.instrs[p];
    }
    assert c.instrs[|b.instrs|] == i;
  }

  lemma EmitRest(st: Ctx, i: Instr)
    requires st.cur < |st.blocks|
    ensures var r := Emit(st, i); r.cur == st.cur && |r.blocks| == |st.blocks| && Rest(r) == Rest(st) &&
                                  (Held(r) <==> Held(st) || IsTerminator(i))
  {
    EmitHolds(st.blocks[st.cur], i);
    hide HoldsTerminator;
    var r := Emit(st, i);
    assert forall k: nat :: k < |st.blocks| && k != st.cur ==> r.blocks[k] == st.blocks[k];
  }

  lemma EmitStage(st: Ctx, i: Instr, base: set<nat>, cov: bool, breaks: seq<Label>, loops: seq<LoopTarget>)
    requires Stage(st, base, cov, breaks, loops)
    ensures var r := Emit(st, i);
            Stage(r, base, cov, breaks, loops) && |r.blocks| == |st.blocks| &&
            (Held(r) <==> Held(st) || IsTerminator(i))
  {
    EmitRest(st, i);
    hide Rest;
    hide Held;
  }

  lemma JumpStage(st: Ctx, l: Label, base: set<nat>, cov: bool, breaks: seq<Label>, loops: seq<LoopTarget>)
    requires Stage(st, base, cov, breaks, loops)
    ensures var r := JumpUnlessTerminated(st, l);
            Stage(r, base, cov, breaks, loops) && |r.blocks| == |st.blocks| && Held(r)
  {
    EmitStage(st, Jump(l), base, cov, breaks, loops);
    hide Stage;
  }

  lemma AtRest(st: Ctx, k: nat)
    requires Held(st) && k in Rest(st)
    ensures Rest(At(st, k)) == Rest(st) - {k} && !Held(At(st, k))
  {
    hide HoldsTerminator;
  }

  /** On to a block that is still to be finished. */
  lemma AtStage(st: Ctx, k: nat, base: set<nat>, cov: bool, breaks: seq<Label>, loops: seq<LoopTarget>)
    requires Stage(st, base, cov, breaks, loops) && Held(st) && k in base
    ensures Stage(At(st, k), base - {k}, cov, breaks, loops) && !Held(At(st, k))
  {
    AtRest(st, k);
    assert k in Rest(st) && k < |st.blocks|;
    hide Rest;
    hide Held;
    assert Rest(st) - {k} == base - {k} ==> Rest(st) == base by {
      assert Rest(st) == Rest(st) - {k} + {k} && base == base - {k} + {k};
    }
  }

  lemma AddRest(st: Ctx, l: Label)
    requires st.cur < |st.blocks|
    ensures var r := AddBlock(st, l);
            Rest(r) == Rest(st) + {|st.blocks|} && (Held(r) <==> Held(st)) && |st.blocks| !in Rest(st)
  {
    var r := AddBlock(st, l);
    assert !HoldsTerminator(r.blocks[|st.blocks|]);
    assert forall k: nat :: k < |st.blocks| ==> r.blocks[k] == st.blocks[k];
    hide HoldsTerminator;
  }

  lemma AddStage(st: Ctx, l: Label, base: set<nat>, cov: bool, breaks: seq<Label>, loops: seq<LoopTarget>)
    requires Stage(st, base, cov, breaks, loops)
    ensures var r := AddBlock(st, l);
            Stage(r, base + {|st.blocks|}, cov, breaks, loops) && (Held(r) <==> Held(st)) && r.cur == st.cur &&
            |r.blocks| == |st.blocks| + 1
  {
    AddRest(st, l);
    hide Rest;
    hide Held;
    var n := |st.blocks|;
    assert Rest(st) + {n} == base + {n} ==> Rest(st) == base by {
      assert Rest(st) == Rest(st) + {n} - {n};
      assert n !in base;
      assert base == base + {n} - {n};
    }
  }

  /** Scopes, types and counters do not matter. */
  lemma TwinStage(st: Ctx, b: Ctx, base: set<nat>, cov: bool, breaks: seq<Label>, loops: seq<LoopTarget>)
    requires Stage(st, base, cov, breaks, loops) && b.blocks == st.blocks && b.cur == st.cur
    ensures Stage(b, base, cov, b.breaks, b.loops) && (Held(b) <==> Held(st))
  {
    assert Rest(b) == Rest(st);
    hide HoldsTerminator;
  }

  lemma {:induction false} OpenStage(st: Ctx, prefixes: seq<string>, base: set<nat>, cov: bool, breaks: seq<Label>,
                                     loops: seq<LoopTarget>)
    requires Stage(st, base, cov, breaks, loops)
    ensures var r := OpenBlocks(st, prefixes).0;
            Stage(r, base + Span(|st.blocks|, |prefixes|), cov, breaks, loops) && (Held(r) <==> Held(st)) &&
            |r.blocks| == |st.blocks| + |prefixes|
    decreases |prefixes|
  {
    hide Stage;
    hide Held;
    var n := |st.blocks|;
    if prefixes == [] {
      assert base + Span(n, 0) == base;
    } else {
      var m := |prefixes| - 1;
      OpenStage(st, prefixes[..m], base, cov, breaks, loops);
      var s1 := OpenBlocks(st, prefixes[..m]).0;
      var (s2, l) := NextLabel(s1, prefixes[m]);
      StageOf(s1, base + Span(n, m), cov, breaks, loops);
      TwinStage(s1, s2, base + Span(n, m), cov, breaks, loops);
      AddStage(s2, l, base + Span(n, m), cov, breaks, loops);
      assert base + Span(n, m) + {n + m} == base + Span(n, m + 1);
    }
  }

  lemma StageOf(st: Ctx, base: set<nat>, cov: bool, breaks: seq<Label>, loops: seq<LoopTarget>)
    requires Stage(st, base, cov, breaks, loops)
    ensures st.breaks == breaks && st.loops == loops && st.cur < |st.blocks| &&
            forall k :: k in base ==> k < |st.blocks|
  {
  }

  // ----- expressions -----

  lemma PutStage(st: Ctx, i: Instr, base: set<nat>, cov: bool, breaks: seq<Label>, loops: seq<LoopTarget>)
    requires Stage(st, base, cov, breaks, loops) && !IsTerminator(i)
    ensures var r := Emit(NextTemp(st).0, i);
            Stage(r, base, cov, breaks, loops) && (Held(r) <==> Held(st)) && |r.blocks| == |st.blocks|
  {
    StageOf(st, base, cov, breaks, loops);
    TwinStage(st, NextTemp(st).0, base, cov, breaks, loops);
    EmitStage(NextTemp(st).0, i, base, cov, breaks, loops);
  }

  lemma BinStage(st: Ctx, op: BinOp, l: Name, r: Name, intLike: bool, base: set<nat>, cov: bool, breaks: seq<Label>,
                 loops: seq<LoopTarget>)
    requires Stage(st, base, cov, breaks, loops)
    ensures var s := EmitBin(st, op, l, r, intLike).0;
            Stage(s, base, cov, breaks, loops) && (Held(s) <==> Held(st)) && |s.blocks| == |st.blocks|
  {
    hide Stage;
    hide Held;
    hide Emit;
    var code := Checks(op, l, r, intLike);
    if code != [] {
      assert code[1..] == [];
      assert EmitAll(st, code) == EmitAll(Emit(st, code[0]), []) == Emit(st, code[0]);
      EmitStage(st, code[0], base, cov, breaks, loops);
    }
    var s1 := EmitAll(st, code);
    PutStage(s1, Bin(Temp(s1.tempId + 1), op, l, r), base, cov, breaks, loops);
  }

  lemma IncStage(e: Expr, st: Ctx, base: set<nat>, cov: bool, breaks: seq<Label>, loops: seq<LoopTarget>)
    requires Stage(st, base, cov, breaks, loops) && e.EInc?
    ensures var r := LowerExpr(e, st).0;
            Stage(r, base, cov, breaks, loops) && (Held(r) <==> Held(st)) && |r.blocks| == |st.blocks|
  {
    hide Stage;
    hide Held;
    hide Emit;
    hide Resolve;
    var name := Resolve(st, e.x);
    var (s1, cur) := NextTemp(st);
    var (s2, one) := NextTemp(s1);
    var (s3, next) := NextTemp(s2);
    StageOf(st, base, cov, breaks, loops);
    TwinStage(st, s3, base, cov, breaks, loops);
    var s4 := Emit(s3, LoadVar(cur, name));
    EmitStage(s3, LoadVar(cur, name), base, cov, breaks, loops);
    var s5 := Emit(s4, Const(one, IntText(1)));
    EmitStage(s4, Const(one, IntText(1)), base, cov, breaks, loops);
    var add := Bin(next, if e.up then Add else Sub, cur, one);
    EmitStage(s5, add, base, cov, breaks, loops);
    EmitStage(Emit(s5, add), StoreVar(name, next), base, cov, breaks, loops);
  }

  /** The branch finishes the block, the short block is finished at once, the right block is next. */
  lemma LogicOpens(st: Ctx, isAnd: bool, l: Name, base: set<nat>, cov: bool, breaks: seq<Label>, loops: seq<LoopTarget>)
    requires Stage(st, base, cov, breaks, loops)
    ensures var (r, k) := OpenLogic(isAnd, l, st);
            Stage(r, base + {|st.blocks| + 2}, cov, breaks, loops) && !Held(r) && k.base == |st.blocks| &&
            |r.blocks| == |st.blocks| + 3
  {
    hide Stage;
    hide Held;
    hide Emit;
    hide OpenBlocks;
    var n := |st.blocks|;
    var prefixes := ["logic_right_", "logic_short_", "logic_done_"];
    var (s1, labels) := OpenBlocks(st, prefixes);
    OpenStage(st, prefixes, base, cov, breaks, loops);
    var b3 := base + Span(n, 3);
    var (s2, cont) := NextLabel(s1, "logic_cont_");
    var (s3, dst) := NextTemp(s2);
    StageOf(s1, b3, cov, breaks, loops);
    TwinStage(s1, s3, b3, cov, breaks, loops);
    var right, short, done := labels[0], labels[1], labels[2];
    var branch := BranchIf(l, if isAnd then right else short, if isAnd then short else right);
    var s4 := Emit(s3, branch);
    EmitStage(s3, branch, b3, cov, breaks, loops);
    AtStage(s4, n + 1, b3, cov, breaks, loops);
    var t4 := At(s4, n + 1);
    var s5 := Emit(t4, Const(dst, RawBool(!isAnd)));
    EmitStage(t4, Const(dst, RawBool(!isAnd)), b3 - {n + 1}, cov, breaks, loops);
    var s6 := Emit(s5, Jump(done));
    EmitStage(s5, Jump(done), b3 - {n + 1}, cov, breaks, loops);
    AtStage(s6, n, b3 - {n + 1}, cov, breaks, loops);
    StageOf(st, base, cov, breaks, loops);
    assert b3 - {n + 1} - {n} == base + {n + 2};
  }

  lemma LogicCloses(st: Ctx, r: Name, k: Logic, base: set<nat>, cov: bool, breaks: seq<Label>, loops: seq<LoopTarget>)
    requires Stage(st, base + {k.base + 2}, cov, breaks, loops) && k.base + 2 !in base
    ensures var s := CloseLogic(r, k, st); Stage(s, base, cov, breaks, loops) && !Held(s) && |st.blocks| <= |s.blocks|
  {
    hide Stage;
    hide Held;
    hide Emit;
    var b1 := base + {k.base + 2};
    var s1 := Emit(st, Copy(k.dst, r));
    EmitStage(st, Copy(k.dst, r), b1, cov, breaks, loops);
    var s2 := Emit(s1, Jump(k.done));
    EmitStage(s1, Jump(k.done), b1, cov, breaks, loops);
    var m := |s2.blocks|;
    var s3 := AddBlock(s2, k.cont);
    AddStage(s2, k.cont, b1, cov, breaks, loops);
    AtStage(s3, k.base + 2, b1 + {m}, cov, breaks, loops);
    StageOf(s2, b1, cov, breaks, loops);
    var t3 := At(s3, k.base + 2);
    var b2 := b1 + {m} - {k.base + 2};
    var s4 := Emit(t3, Nop);
    EmitStage(t3, Nop, b2, cov, breaks, loops);
    var s5 := Emit(s4, Jump(k.cont));
    EmitStage(s4, Jump(k.cont), b2, cov, breaks, loops);
    AtStage(s5, m, b2, cov, breaks, loops);
    assert b2 - {m} == base;
  }

  /** Expressions leave no block behind. */
  lemma {:induction false} ExprStage(e: Expr, st: Ctx, base: set<nat>, cov: bool, breaks: seq<Label>,
                                     loops: seq<LoopTarget>)
    requires Stage(st, base, cov, breaks, loops)
    ensures var r := LowerExpr(e, st).0;
            Stage(r, base, cov, breaks, loops) && (Held(r) <==> Held(st) && !HasLogic(e)) && |st.blocks| <= |r.blocks|
    decreases e, 1
  {
    hide Stage;
    hide Held;
    hide Emit;
    hide EmitBin;
    match e {
      case ELit(n) => PutStage(st, Const(Temp(st.tempId + 1), IntText(n)), base, cov, breaks, loops);
      case EBool(b) => PutStage(st, Const(Temp(st.tempId + 1), RawBool(b)), base, cov, breaks, loops);
      case EVar(x) => PutStage(st, LoadVar(Temp(st.tempId + 1), Resolve(st, x)), base, cov, breaks, loops);
      case EUn(op, arg) =>
        if op == Neg && arg == ELit(-INT_MIN) {
          PutStage(st, Const(Temp(st.tempId + 1), IntText(INT_MIN)), base, cov, breaks, loops);
        } else {
          ExprStage(arg, st, base, cov, breaks, loops);
          var (s1, v) := LowerExpr(arg, st);
          PutStage(s1, Unary(Temp(s1.tempId + 1), op, v), base, cov, breaks, loops);
        }
      case EBin(op, left, right) =>
        ExprStage(left, st, base, cov, breaks, loops);
        var (s1, l) := LowerExpr(left, st);
        ExprStage(right, s1, base, cov, breaks, loops);
        var (s2, r) := LowerExpr(right, s1);
        BinStage(s2, op, l, r, Guess(left, s2) == TInt && Guess(right, s2) == TInt, base, cov, breaks, loops);
      case ELogic(_, _, _) => LogicStage(e, st, base, cov, breaks, loops);
      case EInc(_, _, _) => IncStage(e, st, base, cov, breaks, loops);
      case ECond(cond, yes, no) =>
        ExprStage(cond, st, base, cov, breaks, loops);
        var (s1, c) := LowerExpr(cond, st);
        ExprStage(yes, s1, base, cov, breaks, loops);
        var (s2, a) := LowerExpr(yes, s1);
        ExprStage(no, s2, base, cov, breaks, loops);
        var (s3, b) := LowerExpr(no, s2);
        PutStage(s3, Select(Temp(s3.tempId + 1), c, a, b), base, cov, breaks, loops);
    }
  }

  lemma LogicStage(e: Expr, st: Ctx, base: set<nat>, cov: bool, breaks: seq<Label>, loops: seq<LoopTarget>)
    requires Stage(st, base, cov, breaks, loops) && e.ELogic?
    ensures var r := LowerExpr(e, st).0; Stage(r, base, cov, breaks, loops) && !Held(r) && |st.blocks| <= |r.blocks|
    decreases e, 0
  {
    hide Stage;
    hide Held;
    hide OpenLogic;
    hide CloseLogic;
    ExprStage(e.left, st, base, cov, breaks, loops);
    var (s1, l) := LowerExpr(e.left, st);
    StageOf(s1, base, cov, breaks, loops);
    LogicOpens(s1, e.isAnd, l, base, cov, breaks, loops);
    var (s2, k) := OpenLogic(e.isAnd, l, s1);
    ExprStage(e.right, s2, base + {|s1.blocks| + 2}, cov, breaks, loops);
    var (s3, r) := LowerExpr(e.right, s2);
    LogicCloses(s3, r, k, base, cov, breaks, loops);
  }

  // ----- statements -----

  lemma DeclStage(d: Decl, init: Option<Expr>, st: Ctx, base: set<nat>, cov: bool, breaks: seq<Label>,
                  loops: seq<LoopTarget>)
    requires Stage(st, base, cov, breaks, loops)
    ensures var r := LowerDecl(d, init, st);
            Stage(r, base, cov, breaks, loops) && (Held(r) <==> Held(st) && (init.Some? ==> !HasLogic(init.value))) &&
            |st.blocks| <= |r.blocks|
  {
    hide Stage;
    hide Held;
    hide Emit;
    hide Resolve;
    hide LowerExpr;
    StageOf(st, base, cov, breaks, loops);
    var (s1, ir) := NextVar(st, d.name);
    TwinStage(st, Define(s1, d, ir), base, cov, breaks, loops);
    var s2 := Emit(Define(s1, d, ir), VarDecl(ir));
    EmitStage(Define(s1, d, ir), VarDecl(ir), base, cov, breaks, loops);
    match init {
      case Some(e) =>
        ExprStage(e, s2, base, cov, breaks, loops);
        var (s3, v) := LowerExpr(e, s2);
        EmitStage(s3, StoreVar(Resolve(s3, d.name), v), base, cov, breaks, loops);
      case None =>
        var (t, dst) := NextTemp(s2);
        var i := Const(dst, if d.ty == TBool then RawBool(false) else IntText(0));
        PutStage(s2, i, base, cov, breaks, loops);
        var s3 := Emit(t, i);
        EmitStage(s3, StoreVar(Resolve(s3, d.name), dst), base, cov, breaks, loops);
    }
  }

  lemma AssignStage(x: string, aop: Option<BinOp>, rhs: Expr, st: Ctx, base: set<nat>, cov: bool, breaks: seq<Label>,
                    loops: seq<LoopTarget>)
    requires Stage(st, base, cov, breaks, loops)
    ensures var r := LowerAssign(x, aop, rhs, st);
            Stage(r, base, cov, breaks, loops) && (Held(r) <==> Held(st) && !HasLogic(rhs)) && |st.blocks| <= |r.blocks|
  {
    hide Stage;
    hide Held;
    hide Emit;
    hide Resolve;
    hide EmitBin;
    hide LowerExpr;
    ExprStage(rhs, st, base, cov, breaks, loops);
    var (s1, v) := LowerExpr(rhs, st);
    StageOf(s1, base, cov, breaks, loops);
    match aop {
      case None =>
        var s2 := s1.(types := s1.types[Resolve(s1, x) := Guess(rhs, s1)]);
        TwinStage(s1, s2, base, cov, breaks, loops);
        EmitStage(s2, StoreVar(Resolve(s2, x), v), base, cov, breaks, loops);
      case Some(op) =>
        ExprStage(EVar(x), s1, base, cov, breaks, loops);
        var (s2, cur) := LowerExpr(EVar(x), s1);
        var intLike := Guess(EVar(x), s1) == TInt && Guess(rhs, s1) == TInt;
        BinStage(s2, op, cur, v, intLike, base, cov, breaks, loops);
        var (s3, next) := EmitBin(s2, op, cur, v, intLike);
        EmitStage(s3, StoreVar(Resolve(s3, x), next), base, cov, breaks, loops);
    }
  }

  /** `s` has been lowered: exactly if it is not covered, some block is left that was not left before. */
  ghost predicate Passed(s: Stmt, st: Ctx, r: Ctx, base: set<nat>, cov: bool, breaks: seq<Label>,
                         loops: seq<LoopTarget>) {
    Stage(r, base, cov && Covered(s, Held(st), breaks != [], loops != []), breaks, loops) &&
    |st.blocks| <= |r.blocks| &&
    (Held(r) <==> Done(s, Held(st), breaks != [], loops != []))
  }

  lemma PassedParts(s: Stmt, st: Ctx, r: Ctx, base: set<nat>, cov: bool, breaks: seq<Label>, loops: seq<LoopTarget>)
    requires Passed(s, st, r, base, cov, breaks, loops)
    ensures Stage(r, base, cov && Covered(s, Held(st), breaks != [], loops != []), breaks, loops) &&
            |st.blocks| <= |r.blocks|
    ensures Held(r) <==> Done(s, Held(st), breaks != [], loops != [])
  {
    hide Stage;
    hide Held;
    hide Covered;
    hide Done;
  }

  lemma PassedIs(s: Stmt, st: Ctx, r: Ctx, base: set<nat>, now: bool, cov: bool, breaks: seq<Label>,
                 loops: seq<LoopTarget>)
    requires Stage(r, base, now, breaks, loops) && |st.blocks| <= |r.blocks| && !Held(r)
    requires (now <==> cov && Covered(s, Held(st), breaks != [], loops != [])) &&
             !Done(s, Held(st), breaks != [], loops != [])
    ensures Passed(s, st, r, base, cov, breaks, loops)
  {
    hide Stage;
    hide Held;
    hide Covered;
    hide Done;
  }

  /** What is covered in a compound statement; it is never done itself. */
  lemma CompoundCovered(s: Stmt, done: bool, brk: bool, lp: bool)
    ensures s.SIf? || s.SWhile? || s.SDo? || s.SFor? || s.SSwitch? ==> !Done(s, done, brk, lp)
    ensures s.SIf? ==> (Covered(s, done, brk, lp) <==>
                        Covered(s.yes, false, brk, lp) && (s.no.Some? ==> Covered(s.no.value, false, brk, lp)))
    ensures s.SWhile? ==> (Covered(s, done, brk, lp) <==> Covered(s.loop, false, true, true))
    ensures s.SDo? ==> (Covered(s, done, brk, lp) <==> Covered(s.loop, false, true, true))
    ensures s.SFor? ==> (Covered(s, done, brk, lp) <==>
                         Covered(s.start, false, brk, lp) && Covered(s.loop, false, true, true) &&
                         Covered(s.step, false, brk, lp))
    ensures s.SSwitch? ==> (Covered(s, done, brk, lp) <==>
                            (s.cases == [] && s.default.NoDefault? ==> done && !HasLogic(s.e)) &&
                            CoveredCases(s, 0, lp) &&
                            (s.default.Otherwise? ==> CoveredAll(s.default.body, false, true, lp)))
  {
    hide HasLogic;
    hide CoveredCases;
    hide CoveredAll;
  }

  lemma {:induction false} StmtStage(s: Stmt, st: Ctx, base: set<nat>, cov: bool, breaks: seq<Label>,
                                     loops: seq<LoopTarget>)
    requires Stage(st, base, cov, breaks, loops)
    ensures Passed(s, st, LowerStmt(s, st), base, cov, breaks, loops)
    decreases s, 2
  {
    hide Stage;
    hide Held;
    hide Emit;
    hide LowerExpr;
    hide LowerDecl;
    hide LowerAssign;
    hide HasLogic;
    StageOf(st, base, cov, breaks, loops);
    match s {
      case SDecl(d, init) => DeclStage(d, init, st, base, cov, breaks, loops);
      case SAssign(x, aop, rhs) => AssignStage(x, aop, rhs, st, base, cov, breaks, loops);
      case SExpr(e) => ExprStage(e, st, base, cov, breaks, loops);
      case SBlock(body) =>
        AllStage(body, st, base, cov, breaks, loops);
        var r := LowerAll(body, st);
        StageOf(r, base, cov && CoveredAll(body, Held(st), breaks != [], loops != []), breaks, loops);
        TwinStage(r, r.(scope := st.scope), base, cov &&
                                                  CoveredAll(body, Held(st), breaks != [], loops != []), breaks, loops);
      case SIf(_, _, _) => IfStage(s, st, base, cov, breaks, loops);
      case SWhile(_, _) => WhileStage(s, st, base, cov, breaks, loops);
      case SDo(_, _) => DoStage(s, st, base, cov, breaks, loops);
      case SFor(_, _, _, _) => ForStage(s, st, base, cov, breaks, loops);
      case SSwitch(_, _, _) => SwitchStage(s, st, base, cov, breaks, loops);
      case SBreak => EmitStage(st, if st.breaks == [] then Unhandled
                               else Jump(st.breaks[|st.breaks| - 1]), base, cov, breaks, loops);
      case SContinue => EmitStage(st, if st.loops == [] then Unhandled
                                  else Jump(st.loops[|st.loops| - 1].continueLabel), base, cov, breaks, loops);
      case SReturn(result) =>
        if result.Some? {
          ExprStage(result.value, st, base, cov, breaks, loops);
          var (s1, v) := LowerExpr(result.value, st);
          EmitStage(s1, Ret(v), base, cov, breaks, loops);
        } else {
          EmitStage(st, RetVoid, base, cov, breaks, loops);
        }
    }
  }

  lemma {:induction false} AllStage(ss: seq<Stmt>, st: Ctx, base: set<nat>, cov: bool, breaks: seq<Label>,
                                    loops: seq<LoopTarget>)
    requires Stage(st, base, cov, breaks, loops)
    ensures var r := LowerAll(ss, st);
            Stage(r, base, cov && CoveredAll(ss, Held(st), breaks != [], loops != []), breaks, loops) &&
            |st.blocks| <= |r.blocks| &&
            (Held(r) <==> DoneAll(ss, Held(st), breaks != [], loops != []))
    decreases ss, 3
  {
    hide Stage;
    hide Held;
    hide LowerStmt;
    hide Covered;
    hide Done;
    hide Passed;
    if ss != [] {
      StmtStage(ss[0], st, base, cov, breaks, loops);
      var s1 := LowerStmt(ss[0], st);
      PassedParts(ss[0], st, s1, base, cov, breaks, loops);
      AllStage(ss[1..], s1, base, cov && Covered(ss[0], Held(st), breaks != [], loops != []), breaks, loops);
    }
  }

  /** A statement in a block of its own. */
  lemma {:induction false} NestedStage(s: Stmt, a: Ctx, k: nat, base: set<nat>, cov: bool, breaks: seq<Label>,
                                       loops: seq<LoopTarget>)
    requires Stage(a, base, cov, breaks, loops) && Held(a) && k in base
    ensures var r := LowerStmt(s, At(a, k));
            Stage(r, base - {k}, cov && Covered(s, false, breaks != [], loops != []), breaks, loops) &&
            |a.blocks| <= |r.blocks|
    decreases s, 3
  {
    hide *;
    AtStage(a, k, base, cov, breaks, loops);
    StmtStage(s, At(a, k), base - {k}, cov, breaks, loops);
    PassedParts(s, At(a, k), LowerStmt(s, At(a, k)), base - {k}, cov, breaks, loops);
    AtBlocks(a, k);
  }

  lemma AtBlocks(a: Ctx, k: nat)
    ensures At(a, k).blocks == a.blocks
  {
  }

  lemma {:induction false} BodyStage(loop: Stmt, doneL: Label, againL: Label, a: Ctx, k: nat, base: set<nat>, cov: bool,
                                     breaks: seq<Label>, loops: seq<LoopTarget>)
    requires Stage(a, base, cov, breaks, loops) && Held(a) && k in base
    ensures var r := LowerBody(loop, doneL, againL, At(a, k));
            Stage(r, base - {k}, cov && Covered(loop, false, true, true), breaks, loops) && Held(r) &&
            |a.blocks| <= |r.blocks|
    decreases loop, 3
  {
    hide Stage;
    hide Held;
    hide LowerStmt;
    hide Covered;
    hide Done;
    hide JumpUnlessTerminated;
    AtStage(a, k, base, cov, breaks, loops);
    var t := At(a, k);
    var p := Push(t, doneL, againL);
    StageOf(t, base - {k}, cov, breaks, loops);
    TwinStage(t, p, base - {k}, cov, breaks, loops);
    StmtStage(loop, p, base - {k}, cov, p.breaks, p.loops);
    var r := LowerStmt(loop, p);
    PassedParts(loop, p, r, base - {k}, cov, p.breaks, p.loops);
    var now := cov && Covered(loop, false, true, true);
    JumpStage(r, againL, base - {k}, now, p.breaks, p.loops);
    var j := JumpUnlessTerminated(r, againL);
    StageOf(j, base - {k}, now, p.breaks, p.loops);
    TwinStage(j, Pop(j), base - {k}, now, p.breaks, p.loops);
  }

  /** The last block of a statement takes a `nop`. */
  lemma DoneStage(a: Ctx, k: nat, base: set<nat>, cov: bool, breaks: seq<Label>, loops: seq<LoopTarget>)
    requires Stage(a, base + {k}, cov, breaks, loops) && Held(a) && k !in base
    ensures var r := Emit(At(a, k), Nop); Stage(r, base, cov, breaks, loops) && !Held(r) && |r.blocks| == |a.blocks|
  {
    hide Stage;
    hide Held;
    hide Emit;
    AtStage(a, k, base + {k}, cov, breaks, loops);
    assert base + {k} - {k} == base;
    EmitStage(At(a, k), Nop, base, cov, breaks, loops);
  }

  /** A condition and its branch finish the block they are in. */
  lemma TestStage(e: Expr, st: Ctx, yes: Label, no: Label, base: set<nat>, cov: bool, breaks: seq<Label>,
                  loops: seq<LoopTarget>)
    requires Stage(st, base, cov, breaks, loops)
    ensures var (s1, c) := LowerExpr(e, st);
            var r := Emit(s1, BranchIf(c, yes, no));
            Stage(r, base, cov, breaks, loops) && Held(r) && |st.blocks| <= |r.blocks|
  {
    hide Stage;
    hide Held;
    hide Emit;
    hide LowerExpr;
    ExprStage(e, st, base, cov, breaks, loops);
    var (s1, c) := LowerExpr(e, st);
    EmitStage(s1, BranchIf(c, yes, no), base, cov, breaks, loops);
  }

  /** A condition, the blocks opened after it, and the branch. */
  lemma HeadStage(st: Ctx, e: Expr, prefixes: seq<string>, i: nat, j: nat, base: set<nat>, cov: bool,
                  breaks: seq<Label>, loops: seq<LoopTarget>)
    requires Stage(st, base, cov, breaks, loops) && i < |prefixes| && j < |prefixes|
    ensures var (s1, c) := LowerExpr(e, st);
            var (s2, labels) := OpenBlocks(s1, prefixes);
            var r := Emit(s2, BranchIf(c, labels[i], labels[j]));
            Stage(r, base + Span(|s1.blocks|, |prefixes|), cov, breaks, loops) && Held(r) && |st.blocks| <= |r.blocks|
    ensures forall k :: k in base ==> k < |LowerExpr(e, st).0.blocks|
  {
    hide Stage;
    hide Held;
    hide Emit;
    hide LowerExpr;
    hide OpenBlocks;
    ExprStage(e, st, base, cov, breaks, loops);
    var (s1, c) := LowerExpr(e, st);
    StageOf(s1, base, cov, breaks, loops);
    OpenStage(s1, prefixes, base, cov, breaks, loops);
    var (s2, labels) := OpenBlocks(s1, prefixes);
    EmitStage(s2, BranchIf(c, labels[i], labels[j]), base + Span(|s1.blocks|, |prefixes|), cov, breaks, loops);
  }

  /** One arm and the jump after it. */
  lemma {:induction false} ArmStage(s: Stmt, a: Ctx, k: nat, l: Label, base: set<nat>, cov: bool, breaks: seq<Label>,
                                    loops: seq<LoopTarget>)
    requires Stage(a, base, cov, breaks, loops) && Held(a) && k in base
    ensures var r := JumpUnlessTerminated(LowerStmt(s, At(a, k)), l);
            Stage(r, base - {k}, cov && Covered(s, false, breaks != [], loops != []), breaks, loops) && Held(r) &&
            |a.blocks| <= |r.blocks|
    decreases s, 4
  {
    hide *;
    NestedStage(s, a, k, base, cov, breaks, loops);
    JumpStage(LowerStmt(s, At(a, k)), l, base - {k}, cov &&
                                                     Covered(s, false, breaks != [], loops != []), breaks, loops);
  }

  lemma {:induction false} IfStage(s: Stmt, st: Ctx, base: set<nat>, cov: bool, breaks: seq<Label>,
                                   loops: seq<LoopTarget>)
    requires s.SIf? && Stage(st, base, cov, breaks, loops)
    ensures Passed(s, st, LowerStmt(s, st), base, cov, breaks, loops)
    decreases s, 0
  {
    hide Stage;
    hide Held;
    hide Emit;
    hide LowerExpr;
    hide OpenBlocks;
    hide JumpUnlessTerminated;
    hide Covered;
    hide Done;
    hide Passed;
    var brk, lp := breaks != [], loops != [];
    CompoundCovered(s, Held(st), brk, lp);
    var prefixes := ["if_then_", "if_done_"] + if s.no.Some? then ["if_else_"] else [];
    HeadStage(st, s.cond, prefixes, 0, if s.no.Some? then 2 else 1, base, cov, breaks, loops);
    var (s1, c) := LowerExpr(s.cond, st);
    var n := |s1.blocks|;
    var (s2, labels) := OpenBlocks(s1, prefixes);
    var all := base + Span(n, |prefixes|);
    var s3 := Emit(s2, BranchIf(c, labels[0], if s.no.Some? then labels[2] else labels[1]));
    ArmStage(s.yes, s3, n, labels[1], all, cov, breaks, loops);
    var c1 := cov && Covered(s.yes, false, brk, lp);
    var s4 := JumpUnlessTerminated(LowerStmt(s.yes, At(s3, n)), labels[1]);
    var s5, c2 := s4, c1;
    if s.no.Some? {
      ArmStage(s.no.value, s4, n + 2, labels[1], all - {n}, c1, breaks, loops);
      s5 := JumpUnlessTerminated(LowerStmt(s.no.value, At(s4, n + 2)), labels[1]);
      c2 := c1 && Covered(s.no.value, false, brk, lp);
      assert all - {n} - {n + 2} == base + {n + 1};
    } else {
      assert all - {n} == base + {n + 1};
    }
    DoneStage(s5, n + 1, base, c2, breaks, loops);
    PassedIs(s, st, Emit(At(s5, n + 1), Nop), base, c2, cov, breaks, loops);
  }

  /** Blocks are opened and the current block jumps to the first. */
  lemma EnterStage(st: Ctx, prefixes: seq<string>, base: set<nat>, cov: bool, breaks: seq<Label>,
                   loops: seq<LoopTarget>)
    requires Stage(st, base, cov, breaks, loops) && prefixes != []
    ensures var (s1, labels) := OpenBlocks(st, prefixes);
            var r := Emit(s1, Jump(labels[0]));
            Stage(r, base + Span(|st.blocks|, |prefixes|), cov, breaks, loops) && Held(r) && |st.blocks| <= |r.blocks|
  {
    hide Stage;
    hide Held;
    hide Emit;
    hide OpenBlocks;
    OpenStage(st, prefixes, base, cov, breaks, loops);
    var (s1, labels) := OpenBlocks(st, prefixes);
    EmitStage(s1, Jump(labels[0]), base + Span(|st.blocks|, |prefixes|), cov, breaks, loops);
  }

  lemma {:induction false} WhileStage(s: Stmt, st: Ctx, base: set<nat>, cov: bool, breaks: seq<Label>,
                                      loops: seq<LoopTarget>)
    requires s.SWhile? && Stage(st, base, cov, breaks, loops)
    ensures Passed(s, st, LowerStmt(s, st), base, cov, breaks, loops)
    decreases s, 0
  {
    hide Stage;
    hide Held;
    hide Emit;
    hide LowerExpr;
    hide OpenBlocks;
    hide LowerBody;
    var n := |st.blocks|;
    StageOf(st, base, cov, breaks, loops);
    var prefixes := ["while_cond_", "while_body_", "while_done_"];
    var all := base + Span(n, 3);
    EnterStage(st, prefixes, base, cov, breaks, loops);
    var (s1, labels) := OpenBlocks(st, prefixes);
    var e1 := Emit(s1, Jump(labels[0]));
    AtStage(e1, n, all, cov, breaks, loops);
    TestStage(s.cond, At(e1, n), labels[1], labels[2], all - {n}, cov, breaks, loops);
    var (s2, c) := LowerExpr(s.cond, At(e1, n));
    var e2 := Emit(s2, BranchIf(c, labels[1], labels[2]));
    BodyStage(s.loop, labels[2], labels[0], e2, n + 1, all - {n}, cov, breaks, loops);
    assert all - {n} - {n + 1} == base + {n + 2};
    DoneStage(LowerBody(s.loop, labels[2], labels[0], At(e2, n + 1)), n + 2, base,
              cov && Covered(s.loop, false, true, true), breaks, loops);
  }

  lemma {:induction false} DoStage(s: Stmt, st: Ctx, base: set<nat>, cov: bool, breaks: seq<Label>,
                                   loops: seq<LoopTarget>)
    requires s.SDo? && Stage(st, base, cov, breaks, loops)
    ensures Passed(s, st, LowerStmt(s, st), base, cov, breaks, loops)
    decreases s, 0
  {
    hide Stage;
    hide Held;
    hide Emit;
    hide LowerExpr;
    hide OpenBlocks;
    hide LowerBody;
    var n := |st.blocks|;
    StageOf(st, base, cov, breaks, loops);
    var prefixes := ["do_body_", "do_cond_", "do_done_"];
    var all := base + Span(n, 3);
    EnterStage(st, prefixes, base, cov, breaks, loops);
    var (s1, labels) := OpenBlocks(st, prefixes);
    var e1 := Emit(s1, Jump(labels[0]));
    var now := cov && Covered(s.loop, false, true, true);
    BodyStage(s.loop, labels[2], labels[1], e1, n, all, cov, breaks, loops);
    var s2 := LowerBody(s.loop, labels[2], labels[1], At(e1, n));
    AtStage(s2, n + 1, all - {n}, now, breaks, loops);
    TestStage(s.cond, At(s2, n + 1), labels[0], labels[2], all - {n} - {n + 1}, now, breaks, loops);
    var (s3, c) := LowerExpr(s.cond, At(s2, n + 1));
    assert all - {n} - {n + 1} == base + {n + 2};
    DoneStage(Emit(s3, BranchIf(c, labels[0], labels[2])), n + 2, base, now, breaks, loops);
  }

  lemma SpanFive(base: set<nat>, n: nat)
    requires forall k :: k in base ==> k < n
    ensures base + Span(n, 5) - {n} - {n + 1} - {n + 2} - {n + 3} == base + {n + 4} && n + 4 !in base
    ensures forall k: nat :: n <= k < n + 5 ==> k in Span(n, 5)
  {
  }

  lemma SpanIn(n: nat, count: nat)
    ensures forall k: nat :: n <= k < n + count ==> k in Span(n, count)
  {
  }

  lemma {:induction false} ForStage(s: Stmt, st: Ctx, base: set<nat>, cov: bool, breaks: seq<Label>,
                                    loops: seq<LoopTarget>)
    requires s.SFor? && Stage(st, base, cov, breaks, loops)
    ensures Passed(s, st, LowerStmt(s, st), base, cov, breaks, loops)
    decreases s, 0
  {
    hide Stage;
    hide Held;
    hide Emit;
    hide LowerExpr;
    hide OpenBlocks;
    hide LowerBody;
    hide Covered;
    hide Done;
    hide Passed;
    var brk, lp := breaks != [], loops != [];
    CompoundCovered(s, Held(st), brk, lp);
    var n := |st.blocks|;
    StageOf(st, base, cov, breaks, loops);
    var prefixes := ["for_init_", "for_cond_", "for_body_", "for_step_", "for_done_"];
    var all := base + Span(n, 5);
    EnterStage(st, prefixes, base, cov, breaks, loops);
    var (s1, labels) := OpenBlocks(st, prefixes);
    var e1 := Emit(s1, Jump(labels[0]));
    SpanIn(n, 5);
    NestedStage(s.start, e1, n, all, cov, breaks, loops);
    var c1 := cov && Covered(s.start, false, brk, lp);
    SpanFive(base, n);
    hide Span;
    var b1 := all - {n};
    var s2 := Emit(LowerStmt(s.start, At(e1, n)), Jump(labels[1]));
    EmitStage(LowerStmt(s.start, At(e1, n)), Jump(labels[1]), b1, c1, breaks, loops);
    AtStage(s2, n + 1, b1, c1, breaks, loops);
    var b2 := b1 - {n + 1};
    TestStage(s.cond, At(s2, n + 1), labels[2], labels[4], b2, c1, breaks, loops);
    var (s3, c) := LowerExpr(s.cond, At(s2, n + 1));
    var e3 := Emit(s3, BranchIf(c, labels[2], labels[4]));
    BodyStage(s.loop, labels[4], labels[3], e3, n + 2, b2, c1, breaks, loops);
    var c2 := c1 && Covered(s.loop, false, true, true);
    var b3 := b2 - {n + 2};
    var s5 := LowerBody(s.loop, labels[4], labels[3], At(e3, n + 2));
    NestedStage(s.step, s5, n + 3, b3, c2, breaks, loops);
    var c3 := c2 && Covered(s.step, false, brk, lp);
    var s6 := LowerStmt(s.step, At(s5, n + 3));
    EmitStage(s6, Jump(labels[1]), b3 - {n + 3}, c3, breaks, loops);
    DoneStage(Emit(s6, Jump(labels[1])), n + 4, base, c3, breaks, loops);
    PassedIs(s, st, Emit(At(Emit(s6, Jump(labels[1])), n + 4), Nop), base, c3, cov, breaks, loops);
  }

  // ----- switch -----

  /** One comparison. */
  lemma CompareStage(v: Name, e: Expr, st: Ctx, k: nat, yes: Label, no: Label, base: set<nat>, cov: bool,
                     breaks: seq<Label>, loops: seq<LoopTarget>)
    requires Stage(st, base, cov, breaks, loops) && Held(st) && k in base
    ensures var (s1, w) := LowerExpr(e, At(st, k));
            var (s2, eq) := NextTemp(s1);
            var r := Emit(Emit(s2, Bin(eq, Eq, v, w)), BranchIf(eq, yes, no));
            Stage(r, base - {k}, cov, breaks, loops) && Held(r) && |st.blocks| <= |r.blocks|
  {
    hide Stage;
    hide Held;
    hide Emit;
    hide LowerExpr;
    AtStage(st, k, base, cov, breaks, loops);
    var b1 := base - {k};
    ExprStage(e, At(st, k), b1, cov, breaks, loops);
    var (s1, w) := LowerExpr(e, At(st, k));
    var (s2, eq) := NextTemp(s1);
    PutStage(s1, Bin(eq, Eq, v, w), b1, cov, breaks, loops);
    EmitStage(Emit(s2, Bin(eq, Eq, v, w)), BranchIf(eq, yes, no), b1, cov, breaks, loops);
  }

  lemma SpanNext(rest: set<nat>, k: nat, count: nat)
    requires count >= 2 && forall j :: j in rest ==> j < k || k + count <= j
    ensures rest + Span(k, count) - {k} - {k + 1} == rest + Span(k + 2, count - 2)
  {
  }

  lemma NoSpan(rest: set<nat>, k: nat)
    ensures rest + Span(k, 0) == rest
  {
  }

  lemma SpanStarts(k: nat, count: nat)
    requires count >= 2
    ensures k in Span(k, count) && k + 1 in Span(k, count)
  {
  }

  lemma {:induction false} CasesStage(v: Name, s: Stmt, i: nat, n: nat, labels: seq<Label>, defaultL: Label,
                                      doneL: Label, st: Ctx,
                                      base: set<nat>, rest: set<nat>, cov: bool, breaks: seq<Label>,
                                      loops: seq<LoopTarget>)
    requires s.SSwitch? && i <= |s.cases| && 2 * |s.cases| <= |labels| && breaks != []
    requires Stage(st, base, cov, breaks, loops) && Held(st) && base == rest + Span(n + 2 * i, 2 * (|s.cases| - i))
    requires forall k :: k in rest ==> k < n || n + 2 * |s.cases| <= k
    ensures var r := LowerCases(v, s, i, n, labels, defaultL, doneL, st);
            Stage(r, rest, cov && CoveredCases(s, i, loops != []), breaks, loops) && Held(r) &&
            |st.blocks| <= |r.blocks|
    decreases s, 0, |s.cases| - i
  {
    hide Stage;
    hide Held;
    hide Span;
    hide Emit;
    hide LowerExpr;
    hide LowerAll;
    hide CoveredAll;
    hide JumpUnlessTerminated;
    if i == |s.cases| {
      NoSpan(rest, n + 2 * i);
    } else {
      var c := s.cases[i];
      var k := n + 2 * i;
      var b1 := base - {k};
      SpanStarts(k, 2 * (|s.cases| - i));
      var otherwise := if i + 1 < |s.cases| then labels[2 * i + 2] else defaultL;
      CompareStage(v, c.value, st, k, labels[2 * i + 1], otherwise, base, cov, breaks, loops);
      var (s1, w) := LowerExpr(c.value, At(st, k));
      var (s2, eq) := NextTemp(s1);
      var s3 := Emit(Emit(s2, Bin(eq, Eq, v, w)), BranchIf(eq, labels[2 * i + 1], otherwise));
      AtStage(s3, k + 1, b1, cov, breaks, loops);
      var b2 := b1 - {k + 1};
      AllStage(c.body, At(s3, k + 1), b2, cov, breaks, loops);
      var now := cov && CoveredAll(c.body, false, true, loops != []);
      JumpStage(LowerAll(c.body, At(s3, k + 1)), doneL, b2, now, breaks, loops);
      var s4 := JumpUnlessTerminated(LowerAll(c.body, At(s3, k + 1)), doneL);
      SpanNext(rest, k, 2 * (|s.cases| - i));
      CasesStage(v, s, i + 1, n, labels, defaultL, doneL, s4, b2, rest, now, breaks, loops);
    }
  }

  /** The closing block comes last; the block before it stays behind unless it is finished. */
  lemma CloseStage(doneL: Label, st: Ctx, base: set<nat>, cov: bool, breaks: seq<Label>, loops: seq<LoopTarget>)
    requires Stage(st, base, cov, breaks, loops)
    ensures var r := CloseSwitch(doneL, st);
            Stage(r, base, cov && Held(st), Front(breaks), loops) && !Held(r) && |st.blocks| <= |r.blocks|
  {
    hide Stage;
    hide Emit;
    hide HoldsTerminator;
    var n := |st.blocks|;
    StageOf(st, base, cov, breaks, loops);
    AddStage(st, doneL, base, cov, breaks, loops);
    var d := AddBlock(st, doneL);
    var t := At(d, n);
    if Held(st) {
      AtStage(d, n, base + {n}, cov, breaks, loops);
      assert base + {n} - {n} == base;
    } else {
      LeaveBehind(d, n, base, cov, breaks, loops);
    }
    EmitStage(t, Nop, base, cov && Held(st), breaks, loops);
    var e := Emit(t, Nop);
    StageOf(e, base, cov && Held(st), breaks, loops);
    TwinStage(e, e.(breaks := Front(st.breaks)), base, cov && Held(st), breaks, loops);
  }

  lemma LeaveBehind(st: Ctx, k: nat, base: set<nat>, cov: bool, breaks: seq<Label>, loops: seq<LoopTarget>)
    requires Stage(st, base + {k}, cov, breaks, loops) && !Held(st) && k !in base
    ensures Stage(At(st, k), base, false, breaks, loops) && !Held(At(st, k))
  {
    var r := At(st, k);
    assert k in Rest(st) && k != st.cur;
    assert st.cur in Rest(r) && st.cur !in base;
    hide HoldsTerminator;
  }

  lemma SplitSpan(base: set<nat>, n: nat, k: nat, m: nat)
    requires k <= m && forall b :: b in base ==> b < n
    ensures var rest := base + Span(n + k, m - k);
            base + Span(n, m) == rest + Span(n + 0, k) && forall b :: b in rest ==> b < n || n + k <= b
  {
  }

  /** The context after the cases; `t` is the one before their blocks are opened. */
  function AfterCases(v: Name, s: Stmt, t: Ctx, prefixes: seq<string>, doneL: Label): Ctx
    requires s.SSwitch? && |prefixes| == 2 * |s.cases| + if s.default.Otherwise? then 1 else 0
  {
    var (s3, labels) := OpenBlocks(t, prefixes);
    var defaultL := if s.default.Otherwise? then labels[2 * |s.cases|] else doneL;
    var s4 := if |labels| > 0 then Emit(s3, Jump(labels[0])) else s3;
    LowerCases(v, s, 0, |t.blocks|, labels, defaultL, doneL, s4)
  }

  /** The cases, if there are any. */
  lemma {:induction false} CasesAll(v: Name, s: Stmt, t: Ctx, prefixes: seq<string>, doneL: Label, base: set<nat>,
                                    cov: bool, breaks: seq<Label>, loops: seq<LoopTarget>)
    requires s.SSwitch? && Stage(t, base, cov, breaks, loops) && breaks != []
    requires |prefixes| == 2 * |s.cases| + if s.default.Otherwise? then 1 else 0
    ensures var r := AfterCases(v, s, t, prefixes, doneL);
            Stage(r, base + Span(|t.blocks| + 2 * |s.cases|, if s.default.Otherwise? then 1 else 0),
                  cov && CoveredCases(s, 0, loops != []), breaks, loops) &&
            (Held(r) <==> Held(t) || prefixes != []) && |t.blocks| <= |r.blocks|
    decreases s, 0, |s.cases| + 1
  {
    hide Stage;
    hide Held;
    hide Emit;
    hide OpenBlocks;
    hide LowerCases;
    hide CoveredCases;
    var n, count, m := |t.blocks|, |s.cases|, |prefixes|;
    StageOf(t, base, cov, breaks, loops);
    OpenStage(t, prefixes, base, cov, breaks, loops);
    var (s3, labels) := OpenBlocks(t, prefixes);
    var all, rest := base + Span(n, m), base + Span(n + 2 * count, m - 2 * count);
    var defaultL := if s.default.Otherwise? then labels[2 * count] else doneL;
    SplitSpan(base, n, 2 * count, m);
    hide Span;
    if m == 0 {
      NoCases(v, s, n, labels, defaultL, doneL, s3, loops != []);
    } else {
      EmitStage(s3, Jump(labels[0]), all, cov, breaks, loops);
      CasesStage(v, s, 0, n, labels, defaultL, doneL, Emit(s3, Jump(labels[0])), all, rest, cov, breaks, loops);
    }
  }

  lemma {:induction false} SwitchStage(s: Stmt, st: Ctx, base: set<nat>, cov: bool, breaks: seq<Label>,
                                       loops: seq<LoopTarget>)
    requires s.SSwitch? && Stage(st, base, cov, breaks, loops)
    ensures Passed(s, st, LowerStmt(s, st), base, cov, breaks, loops)
    decreases s, 1
  {
    hide Stage;
    hide Held;
    hide Emit;
    hide LowerExpr;
    hide OpenBlocks;
    hide LowerCases;
    hide LowerAll;
    hide CloseSwitch;
    hide JumpUnlessTerminated;
    hide Covered;
    hide Done;
    hide Passed;
    hide CoveredAll;
    hide CoveredCases;
    hide HasLogic;
    CompoundCovered(s, Held(st), breaks != [], loops != []);
    ExprStage(s.e, st, base, cov, breaks, loops);
    var (s1, v) := LowerExpr(s.e, st);
    StageOf(s1, base, cov, breaks, loops);
    var (s2, doneL) := NextLabel(s1, "sw_done_");
    var n := |s2.blocks|;
    var t := s2.(breaks := s2.breaks + [doneL]);
    TwinStage(s1, t, base, cov, breaks, loops);
    var more := breaks + [doneL];
    var d := n + 2 * |s.cases|;
    var prefixes := CasePrefixes(|s.cases|) + if s.default.Otherwise? then ["sw_default_"] else [];
    CasesAll(v, s, t, prefixes, doneL, base, cov, more, loops);
    var (s3, labels) := OpenBlocks(t, prefixes);
    var defaultL := if s.default.Otherwise? then labels[2 * |s.cases|] else doneL;
    var s4 := if |labels| > 0 then Emit(s3, Jump(labels[0])) else s3;
    var s5 := LowerCases(v, s, 0, n, labels, defaultL, doneL, s4);
    var now := cov && CoveredCases(s, 0, loops != []);
    var last := now && (s.default.Otherwise? ==> CoveredAll(s.default.body, false, true, loops != []));
    DefaultStage(s, s5, d, doneL, base, now, more, loops);
    var s6 := AfterDefault(s, s5, d, doneL);
    CloseStage(doneL, s6, base, last, more, loops);
    assert Front(more) == breaks;
    PassedIs(s, st, CloseSwitch(doneL, s6), base, last && Held(s6), cov, breaks, loops);
  }

  function AfterDefault(s: Stmt, st: Ctx, d: nat, doneL: Label): Ctx
    requires s.SSwitch?
  {
    match s.default
    case Otherwise(body) => JumpUnlessTerminated(LowerAll(body, At(st, d)), doneL)
    case NoDefault => st
  }

  lemma {:induction false} DefaultStage(s: Stmt, st: Ctx, d: nat, doneL: Label, base: set<nat>, cov: bool,
                                        breaks: seq<Label>, loops: seq<LoopTarget>)
    requires s.SSwitch? && breaks != [] &&
             Stage(st, base + Span(d, if s.default.Otherwise? then 1 else 0), cov, breaks, loops)
    requires (forall k :: k in base ==> k < d) && (s.default.Otherwise? ==> Held(st))
    ensures var r := AfterDefault(s, st, d, doneL);
            Stage(r, base, cov && (s.default.Otherwise? ==> CoveredAll(s.default.body, false, true, loops != [])),
                  breaks, loops) &&
            (Held(r) <==> Held(st) || s.default.Otherwise?) && |st.blocks| <= |r.blocks|
    decreases s, 0
  {
    hide Stage;
    hide Held;
    hide LowerAll;
    hide JumpUnlessTerminated;
    hide CoveredAll;
    hide Span;
    SpanLast(base, d);
    if s.default.Otherwise? {
      var body := s.default.body;
      AtStage(st, d, base + Span(d, 1), cov, breaks, loops);
      AllStage(body, At(st, d), base, cov, breaks, loops);
      JumpStage(LowerAll(body, At(st, d)), doneL, base, cov &&
                                                        CoveredAll(body, false, true, loops != []), breaks, loops);
    }
  }

  lemma SpanLast(base: set<nat>, d: nat)
    requires forall k :: k in base ==> k < d
    ensures base + Span(d, 1) - {d} == base && base + Span(d, 0) == base && d in Span(d, 1)
  {
  }

  lemma NoCases(v: Name, s: Stmt, n: nat, labels: seq<Label>, defaultL: Label, doneL: Label, st: Ctx, lp: bool)
    requires s.SSwitch? && s.cases == []
    ensures LowerCases(v, s, 0, n, labels, defaultL, doneL, st) == st && CoveredCases(s, 0, lp)
  {
  }

  // ----- whole functions -----

  predicate AllFinished(blocks: seq<Block>) {
    forall b :: 0 <= b < |blocks| ==> HoldsTerminator(blocks[b])
  }

  lemma NothingLeft(st: Ctx)
    requires Held(st)
    ensures AllFinished(st.blocks) <==> Rest(st) == {}
  {
    hide HoldsTerminator;
    if Rest(st) == {} {
      forall b | 0 <= b < |st.blocks|
        ensures HoldsTerminator(st.blocks[b])
      {
        assert b !in Rest(st);
      }
    }
  }

  lemma StartStage(st: Ctx)
    requires st.blocks == [Block(Entry, [])] && st.cur == 0 && st.breaks == [] && st.loops == []
    ensures Stage(st, {}, true, [], []) && !Held(st)
  {
  }

  /** Every block of a function is finished exactly if its body is covered. */
  lemma FunctionFinished(fn: FnDef, st: Ctx)
    requires st.blocks == [Block(Entry, [])] && st.cur == 0 && st.breaks == [] && st.loops == []
    ensures var s2 := LowerStmt(SBlock(fn.body), st);
            var s3 := if Terminated(s2) then s2 else Emit(s2, if fn.isVoid then RetVoid else RetDefault);
            AllFinished(s3.blocks) <==> CoveredAll(fn.body, false, false, false)
  {
    StartStage(st);
    hide *;
    var s := SBlock(fn.body);
    StmtStage(s, st, {}, true, [], []);
    var s2 := LowerStmt(s, st);
    PassedParts(s, st, s2, {}, true, [], []);
    var ret := if fn.isVoid then RetVoid else RetDefault;
    BodyCovered(fn.body);
    var cov := CoveredAll(fn.body, false, false, false);
    EmitStage(s2, ret, {}, cov, [], []);
    RetEnds(s2, fn.isVoid);
    var s3 := if Terminated(s2) then s2 else Emit(s2, ret);
    StageEmpty(s3, cov);
    NothingLeft(s3);
  }

  lemma BodyCovered(body: seq<Stmt>)
    ensures Covered(SBlock(body), false, false, false) <==> CoveredAll(body, false, false, false)
  {
    hide CoveredAll;
  }

  lemma StageEmpty(st: Ctx, cov: bool)
    requires Stage(st, {}, cov, [], [])
    ensures cov <==> Rest(st) == {}
  {
    hide Rest;
  }

  lemma RetEnds(st: Ctx, isVoid: bool)
    ensures IsTerminator(if isVoid then RetVoid else RetDefault) && (Terminated(st) ==> Held(st))
  {
  }

  // ----- switches with clauses -----

  predicate Clauses(s: Stmt) {
    match s
    case SBlock(body) => forall t :: t in body ==> Clauses(t)
    case SIf(_, yes, no) => Clauses(yes) && (match no case None => true case Some(other) => Clauses(other))
    case SWhile(_, loop) => Clauses(loop)
    case SDo(loop, _) => Clauses(loop)
    case SFor(start, _, step, loop) => Clauses(start) && Clauses(step) && Clauses(loop)
    case SSwitch(_, cases, default) =>
      (cases != [] || default.Otherwise?) && (forall c, t :: c in cases && t in c.body ==> Clauses(t)) &&
      (match default case NoDefault => true case Otherwise(body) => forall t :: t in body ==> Clauses(t))
    case _ => true
  }

  /** If every `switch` has a clause, nothing is uncovered. */
  lemma {:induction false} ClausesCover(s: Stmt, done: bool, brk: bool, lp: bool)
    requires Clauses(s)
    ensures Covered(s, done, brk, lp)
    decreases s, 0
  {
    hide Done;
    hide HasLogic;
    match s {
      case SBlock(body) => ClausesCoverAll(body, done, brk, lp);
      case SIf(_, yes, no) =>
        ClausesCover(yes, false, brk, lp);
        if no.Some? { ClausesCover(no.value, false, brk, lp); }
      case SWhile(_, loop) => ClausesCover(loop, false, true, true);
      case SDo(loop, _) => ClausesCover(loop, false, true, true);
      case SFor(start, _, step, loop) =>
        ClausesCover(start, false, brk, lp);
        ClausesCover(loop, false, true, true);
        ClausesCover(step, false, brk, lp);
      case SSwitch(_, cases, default) =>
        ClausesCoverCases(s, 0, lp);
        if default.Otherwise? { ClausesCoverAll(default.body, false, true, lp); }
      case _ =>
    }
  }

  lemma {:induction false} ClausesCoverAll(ss: seq<Stmt>, done: bool, brk: bool, lp: bool)
    requires forall s :: s in ss ==> Clauses(s)
    ensures CoveredAll(ss, done, brk, lp)
    decreases ss, 1
  {
    hide Done;
    hide Clauses;
    hide Covered;
    if ss != [] {
      assert ss[0] in ss;
      ClausesCover(ss[0], done, brk, lp);
      ClausesCoverAll(ss[1..], Done(ss[0], done, brk, lp), brk, lp);
    }
  }

  lemma {:induction false} ClausesCoverCases(s: Stmt, i: nat, lp: bool)
    requires s.SSwitch? && i <= |s.cases| && forall c, t :: c in s.cases && t in c.body ==> Clauses(t)
    ensures CoveredCases(s, i, lp)
    decreases s, 0, |s.cases| - i
  {
    hide Clauses;
    hide CoveredAll;
    if i < |s.cases| {
      assert s.cases[i] in s.cases;
      ClausesCoverAll(s.cases[i].body, false, true, lp);
      ClausesCoverCases(s, i + 1, lp);
    }
  }
}
