/** Which names a statement leaves behind in the scope around it.  Lowering opens a scope for a block
    alone: a declaration that is the whole arm, body or clause of another statement stays, and so does the
    variable of a `for`. */
module NamesStay {
  import opened Options
  import opened Ir
  import opened Source
  import opened Lowering

  /** Lowering `s` leaves a binding of `x`. */
  predicate Leaves(s: Stmt, x: string)
    decreases s, 0
  {
    match s
    case SDecl(d, _) => d.name == x
    case SIf(_, yes, no) => Leaves(yes, x) || (match no case None => false case Some(other) => Leaves(other, x))
    case SWhile(_, loop) => Leaves(loop, x)
    case SDo(loop, _) => Leaves(loop, x)
    case SFor(start, _, step, loop) => Leaves(start, x) || Leaves(loop, x) || Leaves(step, x)
    case SSwitch(_, cases, default) =>
      CasesLeave(s, 0, x) || (match default case NoDefault => false case Otherwise(body) => AllLeave(body, x))
    case _ => false
  }

  predicate AllLeave(ss: seq<Stmt>, x: string)
    decreases ss, 1
  {
    ss != [] && (Leaves(ss[0], x) || AllLeave(ss[1..], x))
  }

  predicate CasesLeave(s: Stmt, i: nat, x: string)
    requires s.SSwitch? && i <= |s.cases|
    decreases s, 0, |s.cases| - i
  {
    i < |s.cases| && (AllLeave(s.cases[i].body, x) || CasesLeave(s, i + 1, x))
  }

  // ----- scopes -----

  /** Every binding was drawn from the counter. */
  ghost predicate Drawn(st: Ctx) {
    forall k :: 0 <= k < |st.scope| ==> st.scope[k].ir.Local? && st.scope[k].ir.id <= st.varId
  }

  /** From `a` to `b` the name `x` has got a new variable, or keeps its meaning. */
  ghost predicate Scoped(a: Ctx, b: Ctx, x: string, left: bool) {
    Drawn(b) && a.varId <= b.varId &&
    var n := Lookup(b.scope, x);
    if left then n.Some? && n.value.Local? && n.value.id > a.varId else n == Lookup(a.scope, x)
  }

  predicate SameNames(a: Ctx, b: Ctx) {
    b.scope == a.scope && b.varId == a.varId
  }

  lemma {:induction false} LookupDrawn(scope: seq<Binding>, n: nat, x: string)
    requires forall k :: 0 <= k < |scope| ==> scope[k].ir.Local? && scope[k].ir.id <= n
    ensures Lookup(scope, x).Some? ==> Lookup(scope, x).value.Local? && Lookup(scope, x).value.id <= n
  {
    if scope != [] && scope[|scope| - 1].name != x { LookupDrawn(scope[..|scope| - 1], n, x); }
  }

  lemma ScopedThen(a: Ctx, b: Ctx, c: Ctx, x: string, first: bool, second: bool)
    requires Scoped(a, b, x, first) && Scoped(b, c, x, second)
    ensures Scoped(a, c, x, first || second)
  {
  }

  lemma ScopedSame(a: Ctx, b: Ctx, c: Ctx, x: string, left: bool)
    requires Scoped(a, b, x, left) && SameNames(b, c)
    ensures Scoped(a, c, x, left)
  {
  }

  // ----- steps that leave all names alone -----

  lemma {:induction false} OpenSame(st: Ctx, prefixes: seq<string>)
    ensures SameNames(st, OpenBlocks(st, prefixes).0)
    decreases |prefixes|
  {
    if prefixes != [] { OpenSame(st, prefixes[..|prefixes| - 1]); }
  }

  lemma BinSame(st: Ctx, op: BinOp, l: Name, r: Name, intLike: bool)
    ensures SameNames(st, EmitBin(st, op, l, r, intLike).0)
  {
    var code := Checks(op, l, r, intLike);
    if code != [] {
      assert code[1..] == [];
      assert EmitAll(st, code) == EmitAll(Emit(st, code[0]), []) == Emit(st, code[0]);
    }
  }

  lemma LogicSame(isAnd: bool, l: Name, st: Ctx)
    ensures SameNames(st, OpenLogic(isAnd, l, st).0)
  {
    OpenSame(st, ["logic_right_", "logic_short_", "logic_done_"]);
  }

  lemma CloseSame(r: Name, k: Logic, st: Ctx)
    ensures SameNames(st, CloseLogic(r, k, st))
  {
  }

  lemma {:induction false} ExprSame(e: Expr, st: Ctx)
    ensures SameNames(st, LowerExpr(e, st).0)
    decreases e
  {
    hide EmitBin;
    hide OpenLogic;
    hide CloseLogic;
    match e {
      case EUn(op, arg) => if op == Neg && arg == ELit(-INT_MIN) { } else { ExprSame(arg, st); }
      case EBin(op, left, right) =>
        ExprSame(left, st);
        var (s1, l) := LowerExpr(left, st);
        ExprSame(right, s1);
        var (s2, r) := LowerExpr(right, s1);
        BinSame(s2, op, l, r, Guess(left, s2) == TInt && Guess(right, s2) == TInt);
      case ELogic(isAnd, left, right) =>
        ExprSame(left, st);
        var (s1, l) := LowerExpr(left, st);
        LogicSame(isAnd, l, s1);
        var (s2, k) := OpenLogic(isAnd, l, s1);
        ExprSame(right, s2);
        var (s3, r) := LowerExpr(right, s2);
        CloseSame(r, k, s3);
      case ECond(cond, yes, no) =>
        ExprSame(cond, st);
        var s1 := LowerExpr(cond, st).0;
        ExprSame(yes, s1);
        var s2 := LowerExpr(yes, s1).0;
        ExprSame(no, s2);
      case _ =>
    }
  }

  // ----- statements -----

  lemma DeclNames(d: Decl, init: Option<Expr>, st: Ctx, x: string)
    requires Drawn(st)
    ensures Scoped(st, LowerDecl(d, init, st), x, d.name == x)
  {
    hide LowerExpr;
    hide Emit;
    var (s1, ir) := NextVar(st, d.name);
    var s2 := Define(s1, d, ir);
    var s3 := Emit(s2, VarDecl(ir));
    EmitSame(s2, VarDecl(ir));
    assert s2.scope[..|st.scope|] == st.scope;
    if init.Some? { ExprSame(init.value, s3); }
    var (t, dst) := NextTemp(s3);
    var i := Const(dst, if d.ty == TBool then RawBool(false) else IntText(0));
    EmitSame(t, i);
    var (s4, v) := match init case Some(e) => LowerExpr(e, s3) case None => (Emit(t, i), dst);
    EmitSame(s4, StoreVar(Resolve(s4, d.name), v));
    assert SameNames(s2, LowerDecl(d, init, st));
  }

  lemma EmitSame(st: Ctx, i: Instr)
    ensures SameNames(st, Emit(st, i))
  {
  }

  lemma AssignSame(x: string, aop: Option<BinOp>, rhs: Expr, st: Ctx)
    ensures SameNames(st, LowerAssign(x, aop, rhs, st))
  {
    hide EmitBin;
    ExprSame(rhs, st);
    var (s1, v) := LowerExpr(rhs, st);
    if aop.Some? {
      ExprSame(EVar(x), s1);
      var (s2, cur) := LowerExpr(EVar(x), s1);
      BinSame(s2, aop.value, cur, v, Guess(EVar(x), s1) == TInt && Guess(rhs, s1) == TInt);
    }
  }

  /** For every statement: a name means afterwards what it meant before exactly if no declaration of it
      is left behind. */
  lemma NameStaysIff(s: Stmt, st: Ctx, x: string)
    requires Drawn(st)
    ensures Lookup(LowerStmt(s, st).scope, x) == Lookup(st.scope, x) <==> !Leaves(s, x)
  {
    hide LowerStmt;
    hide Leaves;
    StmtNames(s, st, st, x, false);
    LookupDrawn(st.scope, st.varId, x);
  }

  /** `switch (e) { case v: int y = 2; break; }` inside the scope of a `y` hides that `y` from then on. */
  lemma ClauseHides(e: Expr, v: Expr, st: Ctx)
    requires Drawn(st)
    ensures var s := SSwitch(e, [Case(v, [SDecl(Decl("y", TInt), Some(ELit(2))), SBreak])], NoDefault);
            Lookup(LowerStmt(s, st).scope, "y") != Lookup(st.scope, "y")
  {
    var s := SSwitch(e, [Case(v, [SDecl(Decl("y", TInt), Some(ELit(2))), SBreak])], NoDefault);
    hide LowerStmt;
    NameStaysIff(s, st, "y");
    assert AllLeave(s.cases[0].body, "y");
    assert CasesLeave(s, 0, "y");
  }

  /** After `a`, which has come from `o`. */
  lemma {:induction false} StmtNames(s: Stmt, o: Ctx, a: Ctx, x: string, left: bool)
    requires Scoped(o, a, x, left)
    ensures Scoped(o, LowerStmt(s, a), x, left || Leaves(s, x))
    decreases s, 2
  {
    hide LowerExpr;
    hide LowerDecl;
    hide LowerAssign;
    hide Scoped;
    hide Lookup;
    ScopedParts(o, a, x, left);
    match s {
      case SDecl(d, init) =>
        DeclNames(d, init, a, x);
        ScopedThen(o, a, LowerStmt(s, a), x, left, d.name == x);
      case SAssign(y, aop, rhs) =>
        AssignSame(y, aop, rhs, a);
        ScopedSame(o, a, LowerStmt(s, a), x, left);
      case SExpr(e) =>
        ExprSame(e, a);
        ScopedSame(o, a, LowerStmt(s, a), x, left);
      case SBlock(body) =>
        AllNames(body, a, a, x, false);
        BlockNames(o, a, LowerAll(body, a), x, left, AllLeave(body, x));
      case SIf(_, _, _) => IfNames(s, o, a, x, left);
      case SWhile(_, _) => WhileNames(s, o, a, x, left);
      case SDo(_, _) => DoNames(s, o, a, x, left);
      case SFor(_, _, _, _) => ForNames(s, o, a, x, left);
      case SSwitch(_, _, _) => SwitchNames(s, o, a, x, left);
      case SBreak => ScopedSame(o, a, LowerStmt(s, a), x, left);
      case SContinue => ScopedSame(o, a, LowerStmt(s, a), x, left);
      case SReturn(result) =>
        if result.Some? { ExprSame(result.value, a); }
        ScopedSame(o, a, LowerStmt(s, a), x, left);
    }
  }

  lemma ScopedParts(o: Ctx, a: Ctx, x: string, left: bool)
    requires Scoped(o, a, x, left)
    ensures Drawn(a) && Scoped(a, a, x, false)
  {
  }

  /** A block takes back every name that it has declared. */
  lemma BlockNames(o: Ctx, a: Ctx, r: Ctx, x: string, left: bool, inner: bool)
    requires Scoped(o, a, x, left) && Scoped(a, r, x, inner)
    ensures Scoped(o, r.(scope := a.scope), x, left)
  {
  }

  lemma {:induction false} AllNames(ss: seq<Stmt>, o: Ctx, a: Ctx, x: string, left: bool)
    requires Scoped(o, a, x, left)
    ensures Scoped(o, LowerAll(ss, a), x, left || AllLeave(ss, x))
    decreases ss, 3
  {
    hide LowerStmt;
    hide Scoped;
    hide Leaves;
    if ss != [] {
      StmtNames(ss[0], o, a, x, left);
      AllNames(ss[1..], o, LowerStmt(ss[0], a), x, left || Leaves(ss[0], x));
    }
  }

  /** A body in the block at hand, and the jump after it. */
  lemma {:induction false} ArmNames(s: Stmt, o: Ctx, a: Ctx, k: nat, l: Label, x: string, left: bool)
    requires Scoped(o, a, x, left)
    ensures Scoped(o, JumpUnlessTerminated(LowerStmt(s, At(a, k)), l), x, left || Leaves(s, x))
    decreases s, 3
  {
    hide LowerStmt;
    hide Scoped;
    hide Leaves;
    ScopedSame(o, a, At(a, k), x, left);
    StmtNames(s, o, At(a, k), x, left);
    var r := LowerStmt(s, At(a, k));
    ScopedSame(o, r, JumpUnlessTerminated(r, l), x, left || Leaves(s, x));
  }

  lemma {:induction false} BodyNames(loop: Stmt, doneL: Label, againL: Label, o: Ctx, a: Ctx, x: string, left: bool)
    requires Scoped(o, a, x, left)
    ensures Scoped(o, LowerBody(loop, doneL, againL, a), x, left || Leaves(loop, x))
    decreases loop, 3
  {
    hide LowerStmt;
    hide Scoped;
    hide Leaves;
    var p := Push(a, doneL, againL);
    ScopedSame(o, a, p, x, left);
    StmtNames(loop, o, p, x, left);
    var r := LowerStmt(loop, p);
    ScopedSame(o, r, LowerBody(loop, doneL, againL, a), x, left || Leaves(loop, x));
  }

  lemma {:induction false} IfNames(s: Stmt, o: Ctx, a: Ctx, x: string, left: bool)
    requires s.SIf? && Scoped(o, a, x, left)
    ensures Scoped(o, LowerStmt(s, a), x, left || Leaves(s, x))
    decreases s, 1
  {
    hide LowerExpr;
    hide OpenBlocks;
    hide JumpUnlessTerminated;
    hide Scoped;
    ExprSame(s.cond, a);
    var (s1, c) := LowerExpr(s.cond, a);
    var n := |s1.blocks|;
    var prefixes := ["if_then_", "if_done_"] + if s.no.Some? then ["if_else_"] else [];
    OpenSame(s1, prefixes);
    var (s2, labels) := OpenBlocks(s1, prefixes);
    var s3 := Emit(s2, BranchIf(c, labels[0], if s.no.Some? then labels[2] else labels[1]));
    ScopedSame(o, a, s3, x, left);
    ArmNames(s.yes, o, s3, n, labels[1], x, left);
    var s4 := JumpUnlessTerminated(LowerStmt(s.yes, At(s3, n)), labels[1]);
    var s5, more := s4, left || Leaves(s.yes, x);
    if s.no.Some? {
      ArmNames(s.no.value, o, s4, n + 2, labels[1], x, more);
      s5 := JumpUnlessTerminated(LowerStmt(s.no.value, At(s4, n + 2)), labels[1]);
      more := more || Leaves(s.no.value, x);
    }
    ScopedSame(o, s5, LowerStmt(s, a), x, more);
  }

  lemma {:induction false} WhileNames(s: Stmt, o: Ctx, a: Ctx, x: string, left: bool)
    requires s.SWhile? && Scoped(o, a, x, left)
    ensures Scoped(o, LowerStmt(s, a), x, left || Leaves(s, x))
    decreases s, 1
  {
    hide LowerExpr;
    hide OpenBlocks;
    hide LowerBody;
    hide Scoped;
    var n := |a.blocks|;
    var prefixes := ["while_cond_", "while_body_", "while_done_"];
    OpenSame(a, prefixes);
    var (s1, labels) := OpenBlocks(a, prefixes);
    var t := At(Emit(s1, Jump(labels[0])), n);
    ExprSame(s.cond, t);
    var (s2, c) := LowerExpr(s.cond, t);
    var s3 := At(Emit(s2, BranchIf(c, labels[1], labels[2])), n + 1);
    ScopedSame(o, a, s3, x, left);
    BodyNames(s.loop, labels[2], labels[0], o, s3, x, left);
    ScopedSame(o, LowerBody(s.loop, labels[2], labels[0], s3), LowerStmt(s, a), x, left || Leaves(s.loop, x));
  }

  lemma {:induction false} DoNames(s: Stmt, o: Ctx, a: Ctx, x: string, left: bool)
    requires s.SDo? && Scoped(o, a, x, left)
    ensures Scoped(o, LowerStmt(s, a), x, left || Leaves(s, x))
    decreases s, 1
  {
    hide LowerExpr;
    hide OpenBlocks;
    hide LowerBody;
    hide Scoped;
    var n := |a.blocks|;
    var prefixes := ["do_body_", "do_cond_", "do_done_"];
    OpenSame(a, prefixes);
    var (s1, labels) := OpenBlocks(a, prefixes);
    var t := At(Emit(s1, Jump(labels[0])), n);
    ScopedSame(o, a, t, x, left);
    BodyNames(s.loop, labels[2], labels[1], o, t, x, left);
    var s2 := LowerBody(s.loop, labels[2], labels[1], t);
    ExprSame(s.cond, At(s2, n + 1));
    ScopedSame(o, s2, LowerStmt(s, a), x, left || Leaves(s.loop, x));
  }

  lemma {:induction false} ForNames(s: Stmt, o: Ctx, a: Ctx, x: string, left: bool)
    requires s.SFor? && Scoped(o, a, x, left)
    ensures Scoped(o, LowerStmt(s, a), x, left || Leaves(s, x))
    decreases s, 1
  {
    hide LowerExpr;
    hide OpenBlocks;
    hide LowerBody;
    hide Scoped;
    var n := |a.blocks|;
    var prefixes := ["for_init_", "for_cond_", "for_body_", "for_step_", "for_done_"];
    OpenSame(a, prefixes);
    var (s1, labels) := OpenBlocks(a, prefixes);
    var t := At(Emit(s1, Jump(labels[0])), n);
    ScopedSame(o, a, t, x, left);
    StmtNames(s.start, o, t, x, left);
    var n1 := left || Leaves(s.start, x);
    var s2 := Emit(LowerStmt(s.start, t), Jump(labels[1]));
    ExprSame(s.cond, At(s2, n + 1));
    var (s3, c) := LowerExpr(s.cond, At(s2, n + 1));
    var s4 := At(Emit(s3, BranchIf(c, labels[2], labels[4])), n + 2);
    ScopedSame(o, LowerStmt(s.start, t), s4, x, n1);
    BodyNames(s.loop, labels[4], labels[3], o, s4, x, n1);
    var n2 := n1 || Leaves(s.loop, x);
    var s5 := LowerBody(s.loop, labels[4], labels[3], s4);
    ScopedSame(o, s5, At(s5, n + 3), x, n2);
    StmtNames(s.step, o, At(s5, n + 3), x, n2);
    ScopedSame(o, LowerStmt(s.step, At(s5, n + 3)), LowerStmt(s, a), x, n2 || Leaves(s.step, x));
  }

  lemma {:induction false} CasesNames(v: Name, s: Stmt, i: nat, n: nat, labels: seq<Label>, defaultL: Label,
                                      doneL: Label, o: Ctx, a: Ctx, x: string, left: bool)
    requires s.SSwitch? && i <= |s.cases| && 2 * |s.cases| <= |labels| && Scoped(o, a, x, left)
    ensures Scoped(o, LowerCases(v, s, i, n, labels, defaultL, doneL, a), x, left || CasesLeave(s, i, x))
    decreases s, 0, |s.cases| - i
  {
    hide LowerExpr;
    hide LowerAll;
    hide AllLeave;
    hide JumpUnlessTerminated;
    hide Scoped;
    if i < |s.cases| {
      var c := s.cases[i];
      ExprSame(c.value, At(a, n + 2 * i));
      var (s1, w) := LowerExpr(c.value, At(a, n + 2 * i));
      var (s2, eq) := NextTemp(s1);
      var otherwise := if i + 1 < |s.cases| then labels[2 * i + 2] else defaultL;
      var s3 := Emit(Emit(s2, Bin(eq, Eq, v, w)), BranchIf(eq, labels[2 * i + 1], otherwise));
      ScopedSame(o, a, s3, x, left);
      ClauseNames(c.body, o, s3, n + 2 * i + 1, doneL, x, left);
      var s4 := JumpUnlessTerminated(LowerAll(c.body, At(s3, n + 2 * i + 1)), doneL);
      CasesNames(v, s, i + 1, n, labels, defaultL, doneL, o, s4, x, left || AllLeave(c.body, x));
    }
  }

  lemma {:induction false} ClauseNames(body: seq<Stmt>, o: Ctx, a: Ctx, k: nat, l: Label, x: string, left: bool)
    requires Scoped(o, a, x, left)
    ensures Scoped(o, JumpUnlessTerminated(LowerAll(body, At(a, k)), l), x, left || AllLeave(body, x))
    decreases body, 4
  {
    hide LowerAll;
    hide Scoped;
    hide AllLeave;
    ScopedSame(o, a, At(a, k), x, left);
    AllNames(body, o, At(a, k), x, left);
    var r := LowerAll(body, At(a, k));
    ScopedSame(o, r, JumpUnlessTerminated(r, l), x, left || AllLeave(body, x));
  }

  lemma {:induction false} SwitchNames(s: Stmt, o: Ctx, a: Ctx, x: string, left: bool)
    requires s.SSwitch? && Scoped(o, a, x, left)
    ensures Scoped(o, LowerStmt(s, a), x, left || Leaves(s, x))
    decreases s, 1
  {
    hide LowerExpr;
    hide OpenBlocks;
    hide LowerCases;
    hide LowerAll;
    hide CasesLeave;
    hide AllLeave;
    hide JumpUnlessTerminated;
    hide Scoped;
    ExprSame(s.e, a);
    var (s1, v) := LowerExpr(s.e, a);
    var (s2, doneL) := NextLabel(s1, "sw_done_");
    var n := |s2.blocks|;
    var t := s2.(breaks := s2.breaks + [doneL]);
    var prefixes := CasePrefixes(|s.cases|) + if s.default.Otherwise? then ["sw_default_"] else [];
    OpenSame(t, prefixes);
    var (s3, labels) := OpenBlocks(t, prefixes);
    var defaultL := if s.default.Otherwise? then labels[2 * |s.cases|] else doneL;
    var s4 := if |labels| > 0 then Emit(s3, Jump(labels[0])) else s3;
    ScopedSame(o, a, s4, x, left);
    CasesNames(v, s, 0, n, labels, defaultL, doneL, o, s4, x, left);
    var s5 := LowerCases(v, s, 0, n, labels, defaultL, doneL, s4);
    var s6, more := s5, left || CasesLeave(s, 0, x);
    if s.default.Otherwise? {
      var d := n + 2 * |s.cases|;
      ClauseNames(s.default.body, o, s5, d, doneL, x, more);
      s6 := JumpUnlessTerminated(LowerAll(s.default.body, At(s5, d)), doneL);
      more := more || AllLeave(s.default.body, x);
    }
    ScopedSame(o, s6, LowerStmt(s, a), x, more);
  }
}
