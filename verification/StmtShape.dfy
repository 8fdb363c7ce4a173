/** Statements keep the shape of the graph and the binding of names: one traversal for both. */
module StmtShape {
  import opened Options
  import opened Ir
  import opened Source
  import opened Lowering
  import opened WorkingGraph
  import opened Static
  import opened Names

  /** `st` is a sound place to lower code for declarations `g`. */
  ghost predicate Ready(st: Ctx, g: seq<Decl>, slots: seq<Name>) {
    Ok(st) && Binds(st, g, slots)
  }

  /** Lowering has gone from `a` to `b`. */
  ghost predicate Went(a: Ctx, b: Ctx, g: seq<Decl>, slots: seq<Name>) {
    Grows(a, b) && Ready(b, g, slots)
  }

  // ----- steps -----

  lemma Start(st: Ctx, g: seq<Decl>, slots: seq<Name>)
    requires Ready(st, g, slots)
    ensures Went(st, st, g, slots)
  {
    GrowsSelf(st);
  }

  lemma EmitWent(a: Ctx, b: Ctx, i: Instr, g: seq<Decl>, slots: seq<Name>)
    requires Went(a, b, g, slots)
    ensures Went(a, Emit(b, i), g, slots) && Emit(b, i).cur == b.cur && |Emit(b, i).blocks| == |b.blocks|
  {
    hide Grows;
    hide Ok;
    hide Binds;
    EmitThen(a, b, i);
    EmitIs(b, i);
    BindsSame(b, Emit(b, i), g, slots);
  }

  lemma MoveWent(a: Ctx, b: Ctx, k: nat, g: seq<Decl>, slots: seq<Name>)
    requires Went(a, b, g, slots) && |a.blocks| <= k < |b.blocks|
    ensures Went(a, At(b, k), g, slots)
  {
    MoveGrows(a, b, k);
    BindsSame(b, At(b, k), g, slots);
  }

  /** Emit, then go on in block `k`. */
  lemma EmitMoveWent(a: Ctx, b: Ctx, i: Instr, k: nat, g: seq<Decl>, slots: seq<Name>)
    requires Went(a, b, g, slots) && |a.blocks| <= k < |b.blocks|
    ensures Went(a, At(Emit(b, i), k), g, slots) && |Emit(b, i).blocks| == |b.blocks|
  {
    hide Went;
    EmitWent(a, b, i, g, slots);
    MoveWent(a, Emit(b, i), k, g, slots);
  }

  lemma JumpWent(a: Ctx, b: Ctx, l: Label, g: seq<Decl>, slots: seq<Name>)
    requires Went(a, b, g, slots)
    ensures var r := JumpUnlessTerminated(b, l); Went(a, r, g, slots) && r.cur == b.cur && |r.blocks| == |b.blocks|
  {
    hide Went;
    EmitWent(a, b, Jump(l), g, slots);
  }

  lemma OpenWent(a: Ctx, b: Ctx, prefixes: seq<string>, g: seq<Decl>, slots: seq<Name>)
    requires Went(a, b, g, slots)
    ensures var r := OpenBlocks(b, prefixes).0;
            Went(a, r, g, slots) && r.cur == b.cur && r.varId == b.varId && |r.blocks| == |b.blocks| + |prefixes|
  {
    OpenThen(a, b, prefixes);
    OpenBlocksIs(b, prefixes);
    BindsSame(b, OpenBlocks(b, prefixes).0, g, slots);
  }

  lemma ExprWent(a: Ctx, b: Ctx, e: Expr, g: seq<Decl>, slots: seq<Name>)
    requires Went(a, b, g, slots)
    ensures var r := LowerExpr(e, b).0; Went(a, r, g, slots) && |b.blocks| <= |r.blocks|
  {
    hide LowerExpr;
    ExprThen(a, b, e);
    LowerExprGrows(e, b);
    BindsSame(b, LowerExpr(e, b).0, g, slots);
  }

  lemma TempWent(a: Ctx, b: Ctx, g: seq<Decl>, slots: seq<Name>)
    requires Went(a, b, g, slots)
    ensures Went(a, NextTemp(b).0, g, slots)
  {
    MoreGrows(a, b, NextTemp(b).0);
    BindsSame(b, NextTemp(b).0, g, slots);
  }

  lemma WentTrans(a: Ctx, b: Ctx, c: Ctx, g: seq<Decl>, slots: seq<Name>, h: seq<Decl>, more: seq<Name>)
    requires Went(a, b, g, slots) && Went(b, c, h, more)
    ensures Went(a, c, h, more) && |b.blocks| <= |c.blocks|
  {
    GrowsTrans(a, b, c);
  }

  // ----- declarations and assignments -----

  lemma DeclWent(d: Decl, init: Option<Expr>, st: Ctx, g: seq<Decl>, slots: seq<Name>)
    requires Ready(st, g, slots)
    ensures Went(st, LowerDecl(d, init, st), g + [d], slots + [Local(d.name, st.varId + 1)])
  {
    hide LowerExpr;
    hide Emit;
    var (s1, ir) := NextVar(st, d.name);
    var h, more := g + [d], slots + [ir];
    var s2 := Define(s1, d, ir);
    GrowsSelf(st);
    MoreGrows(st, st, s2);
    BindsDefine(st, g, slots, d);
    hide Went;
    assert Went(st, s2, h, more) by { DefineWent(st, d, g, slots); }
    EmitWent(st, s2, VarDecl(ir), h, more);
    var s3 := Emit(s2, VarDecl(ir));
    match init {
      case Some(e) =>
        ExprWent(st, s3, e, h, more);
        var (s4, v) := LowerExpr(e, s3);
        EmitWent(st, s4, StoreVar(Resolve(s4, d.name), v), h, more);
      case None =>
        var i := Const(Temp(s3.tempId + 1), if d.ty == TBool then RawBool(false) else IntText(0));
        TempWent(st, s3, h, more);
        EmitWent(st, NextTemp(s3).0, i, h, more);
        var s4 := Emit(NextTemp(s3).0, i);
        EmitWent(st, s4, StoreVar(Resolve(s4, d.name), Temp(s3.tempId + 1)), h, more);
    }
  }

  lemma DefineWent(st: Ctx, d: Decl, g: seq<Decl>, slots: seq<Name>)
    requires Ready(st, g, slots)
    ensures var (s1, ir) := NextVar(st, d.name); Went(st, Define(s1, d, ir), g + [d], slots + [ir])
  {
    var (s1, ir) := NextVar(st, d.name);
    GrowsSelf(st);
    MoreGrows(st, st, Define(s1, d, ir));
    BindsDefine(st, g, slots, d);
  }

  lemma AssignWent(s: Stmt, st: Ctx, g: seq<Decl>, slots: seq<Name>, brk: bool, lp: bool)
    requires s.SAssign? && Ready(st, g, slots) && WfStmt(s, g, brk, lp)
    ensures Went(st, LowerAssign(s.x, s.aop, s.rhs, st), g, slots)
  {
    hide LowerExpr;
    hide EmitBin;
    hide WfExpr;
    hide Emit;
    hide Went;
    Start(st, g, slots);
    ExprWent(st, st, s.rhs, g, slots);
    var (s1, v) := LowerExpr(s.rhs, st);
    match s.aop {
      case None =>
        var s2 := s1.(types := s1.types[Resolve(s1, s.x) := Guess(s.rhs, s1)]);
        RetypeWent(st, s1, Resolve(s1, s.x), Guess(s.rhs, s1), g, slots);
        EmitWent(st, s2, StoreVar(Resolve(s2, s.x), v), g, slots);
      case Some(op) =>
        ExprWent(st, s1, EVar(s.x), g, slots);
        var (s2, cur) := LowerExpr(EVar(s.x), s1);
        var intLike := Guess(EVar(s.x), s1) == TInt && Guess(s.rhs, s1) == TInt;
        BinWent(st, s2, op, cur, v, intLike, g, slots);
        var (s3, next) := EmitBin(s2, op, cur, v, intLike);
        EmitWent(st, s3, StoreVar(Resolve(s3, s.x), next), g, slots);
    }
  }

  lemma BinWent(a: Ctx, b: Ctx, op: BinOp, l: Name, r: Name, intLike: bool, g: seq<Decl>, slots: seq<Name>)
    requires Went(a, b, g, slots)
    ensures Went(a, EmitBin(b, op, l, r, intLike).0, g, slots)
  {
    EmitBinGrows(b, op, l, r, intLike);
    hide EmitBin;
    var c := EmitBin(b, op, l, r, intLike).0;
    GrowsTrans(a, b, c);
    BindsSame(b, c, g, slots);
  }

  /** A plain assignment records a type, and touches no name. */
  lemma RetypeWent(a: Ctx, b: Ctx, n: Name, ty: Ty, g: seq<Decl>, slots: seq<Name>)
    requires Went(a, b, g, slots)
    ensures Went(a, b.(types := b.types[n := ty]), g, slots)
  {
    var c := b.(types := b.types[n := ty]);
    MoreGrows(a, b, c);
    BindsSame(b, c, g, slots);
  }

  // ----- all statements -----

  lemma {:induction false} StmtWent(s: Stmt, st: Ctx, g: seq<Decl>, slots: seq<Name>, brk: bool, lp: bool)
    requires Ready(st, g, slots) && WfStmt(s, g, brk, lp)
    ensures Went(st, LowerStmt(s, st), After(g, s), SlotsAfter(s, slots, st))
    decreases s, 2
  {
    hide Ready;
    hide Went;
    hide Emit;
    hide LowerExpr;
    hide LowerDecl;
    hide LowerAssign;
    hide WfExpr;
    Start(st, g, slots);
    match s {
      case SDecl(d, init) => DeclWent(d, init, st, g, slots);
      case SAssign(_, _, _) => AssignWent(s, st, g, slots, brk, lp);
      case SExpr(e) => ExprWent(st, st, e, g, slots);
      case SBlock(body) =>
        AllWent(body, st, g, slots, brk, lp);
        LeaveWent(st, LowerAll(body, st), g, slots, AfterAll(g, body), SlotsAll(body, slots, st));
      case SIf(_, _, _) => IfWent(s, st, g, slots, brk, lp);
      case SWhile(_, _) => WhileWent(s, st, g, slots, brk, lp);
      case SDo(_, _) => DoWent(s, st, g, slots, brk, lp);
      case SFor(_, _, _, _) => ForWent(s, st, g, slots, brk, lp);
      case SSwitch(_, _, _) => SwitchWent(s, st, g, slots, brk, lp);
      case SBreak => EmitWent(st, st, if st.breaks == [] then Unhandled
                              else Jump(st.breaks[|st.breaks| - 1]), g, slots);
      case SContinue => EmitWent(st, st, if st.loops == [] then Unhandled
                                 else Jump(st.loops[|st.loops| - 1].continueLabel), g, slots);
      case SReturn(result) =>
        if result.Some? {
          ExprWent(st, st, result.value, g, slots);
          EmitWent(st, LowerExpr(result.value, st).0, Ret(LowerExpr(result.value, st).1), g, slots);
        } else {
          EmitWent(st, st, RetVoid, g, slots);
        }
    }
  }

  lemma LeaveWent(st: Ctx, r: Ctx, g: seq<Decl>, slots: seq<Name>, h: seq<Decl>, more: seq<Name>)
    requires Ready(st, g, slots) && Went(st, r, h, more)
    ensures Went(st, r.(scope := st.scope), g, slots)
  {
    MoreGrows(st, r, r.(scope := st.scope));
    BindsLeave(st, r, g, slots);
  }

  lemma {:induction false} AllWent(ss: seq<Stmt>, st: Ctx, g: seq<Decl>, slots: seq<Name>, brk: bool, lp: bool)
    requires Ready(st, g, slots) && WfAll(ss, g, brk, lp)
    ensures Went(st, LowerAll(ss, st), AfterAll(g, ss), SlotsAll(ss, slots, st))
    decreases ss, 0
  {
    hide Ready;
    hide Went;
    hide LowerStmt;
    hide WfStmt;
    Start(st, g, slots);
    if ss != [] {
      StmtWent(ss[0], st, g, slots, brk, lp);
      var s1, g1, slots1 := LowerStmt(ss[0], st), After(g, ss[0]), SlotsAfter(ss[0], slots, st);
      ReadyOf(st, s1, g1, slots1);
      AllWent(ss[1..], s1, g1, slots1, brk, lp);
      WentTrans(st, s1, LowerAll(ss, st), g1, slots1, AfterAll(g, ss), SlotsAll(ss, slots, st));
    }
  }

  lemma ReadyOf(a: Ctx, b: Ctx, g: seq<Decl>, slots: seq<Name>)
    requires Went(a, b, g, slots)
    ensures Ready(b, g, slots) && Ok(b) && Grows(a, b) && Binds(b, g, slots)
  {
  }

  /** A statement that is the body of another; a name that it declares is new. */
  lemma StmtThen(a: Ctx, b: Ctx, s: Stmt, g: seq<Decl>, slots: seq<Name>, brk: bool, lp: bool)
    requires Went(a, b, g, slots) && WfStmt(s, g, brk, lp) && NewName(s, g)
    ensures var r := LowerStmt(s, b); Went(a, r, g, slots) && |b.blocks| <= |r.blocks|
    decreases s, 3
  {
    hide LowerStmt;
    hide WfStmt;
    StmtWent(s, b, g, slots, brk, lp);
    DropNew(b, LowerStmt(s, b), s, g, slots);
    WentTrans(a, b, LowerStmt(s, b), g, slots, g, slots);
  }

  lemma DropNew(a: Ctx, b: Ctx, s: Stmt, g: seq<Decl>, slots: seq<Name>)
    requires Went(a, b, After(g, s), SlotsAfter(s, slots, a)) && NewName(s, g)
    ensures Went(a, b, g, slots)
  {
    if s.SDecl? { BindsDrop(b, g, slots, s.decl, Local(s.decl.name, a.varId + 1)); }
  }

  /** A list of statements that is the body of another. */
  lemma AllThen(a: Ctx, b: Ctx, ss: seq<Stmt>, g: seq<Decl>, slots: seq<Name>, brk: bool, lp: bool)
    requires Went(a, b, g, slots) && WfAll(ss, g, brk, lp) && NewNames(ss, g)
    ensures var r := LowerAll(ss, b); Went(a, r, g, slots) && |b.blocks| <= |r.blocks|
    decreases ss, 1
  {
    hide LowerAll;
    hide WfAll;
    AllWent(ss, b, g, slots, brk, lp);
    AfterNewNames(g, g, ss);
    hide NewNames;
    ReadyOf(a, b, g, slots);
    ReadyOf(b, LowerAll(ss, b), AfterAll(g, ss), SlotsAll(ss, slots, b));
    BindsSlots(b, g, slots);
    BindsDropAll(LowerAll(ss, b), g, slots, AfterAll(g, ss), SlotsAll(ss, slots, b));
    WentTrans(a, b, LowerAll(ss, b), g, slots, g, slots);
  }

  lemma PushReady(b: Ctx, doneL: Label, continueL: Label, g: seq<Decl>, slots: seq<Name>)
    requires Ready(b, g, slots)
    ensures Ready(Push(b, doneL, continueL), g, slots)
  {
    PushOk(b, Push(b, doneL, continueL));
    BindsSame(b, Push(b, doneL, continueL), g, slots);
  }

  lemma PopWent(a: Ctx, b: Ctx, doneL: Label, continueL: Label, c: Ctx, g: seq<Decl>, slots: seq<Name>)
    requires Went(a, b, g, slots) && Went(Push(b, doneL, continueL), c, g, slots)
    ensures Went(a, Pop(c), g, slots) && |b.blocks| <= |c.blocks|
  {
    var p := Push(b, doneL, continueL);
    TargetsOf(p, c);
    PopGrows(a, b, p, c, Pop(c));
    BindsSame(c, Pop(c), g, slots);
  }

  lemma BodyThen(a: Ctx, b: Ctx, loop: Stmt, doneL: Label, continueL: Label, g: seq<Decl>, slots: seq<Name>)
    requires Went(a, b, g, slots) && WfStmt(loop, g, true, true) && NewName(loop, g)
    ensures var r := LowerBody(loop, doneL, continueL, b); Went(a, r, g, slots) && |b.blocks| <= |r.blocks|
    decreases loop, 4
  {
    hide Grows;
    hide Ready;
    hide LowerStmt;
    hide JumpUnlessTerminated;
    hide WfStmt;
    var p := Push(b, doneL, continueL);
    PushReady(b, doneL, continueL, g, slots);
    hide Went;
    Start(p, g, slots);
    StmtThen(p, p, loop, g, slots, true, true);
    JumpWent(p, LowerStmt(loop, p), continueL, g, slots);
    PopWent(a, b, doneL, continueL, JumpUnlessTerminated(LowerStmt(loop, p), continueL), g, slots);
  }

  lemma {:induction false} IfWent(s: Stmt, st: Ctx, g: seq<Decl>, slots: seq<Name>, brk: bool, lp: bool)
    requires s.SIf? && Ready(st, g, slots) && WfStmt(s, g, brk, lp)
    ensures Went(st, LowerStmt(s, st), g, slots)
    decreases s, 0
  {
    hide Went;
    hide Ready;
    hide Emit;
    hide LowerExpr;
    hide WfExpr;
    hide JumpUnlessTerminated;
    Start(st, g, slots);
    ExprWent(st, st, s.cond, g, slots);
    var (s1, c) := LowerExpr(s.cond, st);
    var n := |s1.blocks|;
    var prefixes := ["if_then_", "if_done_"] + if s.no.Some? then ["if_else_"] else [];
    OpenWent(st, s1, prefixes, g, slots);
    var (s2, labels) := OpenBlocks(s1, prefixes);
    var branch := BranchIf(c, labels[0], if s.no.Some? then labels[2] else labels[1]);
    EmitMoveWent(st, s2, branch, n, g, slots);
    var s3 := Emit(s2, branch);
    StmtThen(st, At(s3, n), s.yes, g, slots, brk, lp);
    JumpWent(st, LowerStmt(s.yes, At(s3, n)), labels[1], g, slots);
    var s4 := JumpUnlessTerminated(LowerStmt(s.yes, At(s3, n)), labels[1]);
    var s5 := s4;
    if s.no.Some? {
      MoveWent(st, s4, n + 2, g, slots);
      StmtThen(st, At(s4, n + 2), s.no.value, g, slots, brk, lp);
      JumpWent(st, LowerStmt(s.no.value, At(s4, n + 2)), labels[1], g, slots);
      s5 := JumpUnlessTerminated(LowerStmt(s.no.value, At(s4, n + 2)), labels[1]);
    }
    MoveWent(st, s5, n + 1, g, slots);
    EmitWent(st, At(s5, n + 1), Nop, g, slots);
  }

  lemma {:induction false} WhileWent(s: Stmt, st: Ctx, g: seq<Decl>, slots: seq<Name>, brk: bool, lp: bool)
    requires s.SWhile? && Ready(st, g, slots) && WfStmt(s, g, brk, lp)
    ensures Went(st, LowerStmt(s, st), g, slots)
    decreases s, 0
  {
    hide Went;
    hide Ready;
    hide Emit;
    hide LowerExpr;
    hide WfExpr;
    hide LowerBody;
    Start(st, g, slots);
    var n := |st.blocks|;
    var prefixes := ["while_cond_", "while_body_", "while_done_"];
    OpenWent(st, st, prefixes, g, slots);
    var (s1, labels) := OpenBlocks(st, prefixes);
    EmitMoveWent(st, s1, Jump(labels[0]), n, g, slots);
    var s2 := At(Emit(s1, Jump(labels[0])), n);
    ExprWent(st, s2, s.cond, g, slots);
    var (s3, c) := LowerExpr(s.cond, s2);
    EmitMoveWent(st, s3, BranchIf(c, labels[1], labels[2]), n + 1, g, slots);
    var s4 := At(Emit(s3, BranchIf(c, labels[1], labels[2])), n + 1);
    BodyThen(st, s4, s.loop, labels[2], labels[0], g, slots);
    var s5 := LowerBody(s.loop, labels[2], labels[0], s4);
    MoveWent(st, s5, n + 2, g, slots);
    EmitWent(st, At(s5, n + 2), Nop, g, slots);
  }

  lemma {:induction false} DoWent(s: Stmt, st: Ctx, g: seq<Decl>, slots: seq<Name>, brk: bool, lp: bool)
    requires s.SDo? && Ready(st, g, slots) && WfStmt(s, g, brk, lp)
    ensures Went(st, LowerStmt(s, st), g, slots)
    decreases s, 0
  {
    hide Went;
    hide Ready;
    hide Emit;
    hide LowerExpr;
    hide WfExpr;
    hide LowerBody;
    Start(st, g, slots);
    var n := |st.blocks|;
    var prefixes := ["do_body_", "do_cond_", "do_done_"];
    OpenWent(st, st, prefixes, g, slots);
    var (s1, labels) := OpenBlocks(st, prefixes);
    EmitMoveWent(st, s1, Jump(labels[0]), n, g, slots);
    var s2 := At(Emit(s1, Jump(labels[0])), n);
    BodyThen(st, s2, s.loop, labels[2], labels[1], g, slots);
    var s3 := LowerBody(s.loop, labels[2], labels[1], s2);
    MoveWent(st, s3, n + 1, g, slots);
    ExprWent(st, At(s3, n + 1), s.cond, g, slots);
    var (s4, c) := LowerExpr(s.cond, At(s3, n + 1));
    EmitMoveWent(st, s4, BranchIf(c, labels[0], labels[2]), n + 2, g, slots);
    EmitWent(st, At(Emit(s4, BranchIf(c, labels[0], labels[2])), n + 2), Nop, g, slots);
  }

  lemma {:induction false} ForWent(s: Stmt, st: Ctx, g: seq<Decl>, slots: seq<Name>, brk: bool, lp: bool)
    requires s.SFor? && Ready(st, g, slots) && WfStmt(s, g, brk, lp)
    ensures Went(st, LowerStmt(s, st), g, slots)
    decreases s, 1
  {
    hide Went;
    hide LowerStmt;
    ForLeaves(s, st, g, slots);
    DropWent(st, LowerStmt(s, st), s, g, slots, After(g, s.start), SlotsAfter(s.start, slots, st));
  }

  /** The loop variable is still in scope after the loop. */
  lemma {:induction false} ForLeaves(s: Stmt, st: Ctx, g: seq<Decl>, slots: seq<Name>)
    requires s.SFor? && Ready(st, g, slots) && WfFor(s, g)
    ensures Went(st, LowerStmt(s, st), After(g, s.start), SlotsAfter(s.start, slots, st))
    decreases s, 0
  {
    hide Went;
    hide Ready;
    hide Emit;
    hide LowerExpr;
    hide WfExpr;
    hide LowerBody;
    Start(st, g, slots);
    var n := |st.blocks|;
    var prefixes := ["for_init_", "for_cond_", "for_body_", "for_step_", "for_done_"];
    OpenWent(st, st, prefixes, g, slots);
    var (s1, labels) := OpenBlocks(st, prefixes);
    EmitMoveWent(st, s1, Jump(labels[0]), n, g, slots);
    var t1 := At(Emit(s1, Jump(labels[0])), n);
    ReadyOf(st, t1, g, slots);
    StmtWent(s.start, t1, g, slots, false, false);
    var h, more := After(g, s.start), SlotsAfter(s.start, slots, t1);
    SameSlots(s.start, slots, st, s1, Jump(labels[0]), n);
    var r1 := LowerStmt(s.start, t1);
    WentTrans(st, t1, r1, g, slots, h, more);
    EmitMoveWent(st, r1, Jump(labels[1]), n + 1, h, more);
    var s2 := Emit(r1, Jump(labels[1]));
    ExprWent(st, At(s2, n + 1), s.cond, h, more);
    var (s3, c) := LowerExpr(s.cond, At(s2, n + 1));
    EmitMoveWent(st, s3, BranchIf(c, labels[2], labels[4]), n + 2, h, more);
    var s4 := At(Emit(s3, BranchIf(c, labels[2], labels[4])), n + 2);
    BodyThen(st, s4, s.loop, labels[4], labels[3], h, more);
    var s5 := LowerBody(s.loop, labels[4], labels[3], s4);
    MoveWent(st, s5, n + 3, h, more);
    StmtThen(st, At(s5, n + 3), s.step, h, more, false, false);
    var r5 := LowerStmt(s.step, At(s5, n + 3));
    EmitMoveWent(st, r5, Jump(labels[1]), n + 4, h, more);
    var s6 := At(Emit(r5, Jump(labels[1])), n + 4);
    EmitWent(st, s6, Nop, h, more);
  }

  lemma SameSlots(s: Stmt, slots: seq<Name>, st: Ctx, s1: Ctx, i: Instr, n: nat)
    requires s1.varId == st.varId
    ensures SlotsAfter(s, slots, At(Emit(s1, i), n)) == SlotsAfter(s, slots, st)
  {
  }

  lemma DropWent(a: Ctx, b: Ctx, s: Stmt, g: seq<Decl>, slots: seq<Name>, h: seq<Decl>, more: seq<Name>)
    requires s.SFor? && Went(a, b, h, more) && h == After(g, s.start)
    requires s.start.SDecl? ==> Find(g, s.start.decl.name).None?
    requires if s.start.SDecl? then |more| == |slots| + 1 && more[..|slots|] == slots else more == slots
    ensures Went(a, b, g, slots)
  {
    if s.start.SDecl? {
      assert more == slots + [more[|slots|]];
      BindsDrop(b, g, slots, s.start.decl, more[|slots|]);
    }
  }

  /** The statements of a clause, and the jump to the end. */
  lemma ClauseWent(a: Ctx, b: Ctx, body: seq<Stmt>, doneL: Label, g: seq<Decl>, slots: seq<Name>, lp: bool)
    requires Went(a, b, g, slots) && WfAll(body, g, true, lp) && NewNames(body, g)
    ensures var r := JumpUnlessTerminated(LowerAll(body, b), doneL); Went(a, r, g, slots) && |b.blocks| <= |r.blocks|
    decreases body, 2
  {
    hide Went;
    hide LowerAll;
    hide WfAll;
    hide NewNames;
    AllThen(a, b, body, g, slots, true, lp);
    JumpWent(a, LowerAll(body, b), doneL, g, slots);
  }

  lemma {:induction false} CasesWent(a: Ctx, v: Name, s: Stmt, i: nat, n: nat, labels: seq<Label>, defaultL: Label,
                                     doneL: Label, st: Ctx,
                                     g: seq<Decl>, slots: seq<Name>, lp: bool)
    requires s.SSwitch? && i <= |s.cases| && 2 * |s.cases| <= |labels|
    requires Went(a, st, g, slots) && |a.blocks| <= n && n + 2 * |s.cases| <= |st.blocks|
    requires forall c :: c in s.cases ==> NewNames(c.body, g) && WfAll(c.body, g, true, lp)
    ensures var r := LowerCases(v, s, i, n, labels, defaultL, doneL, st);
            Went(a, r, g, slots) && |st.blocks| <= |r.blocks|
    decreases s, 0, |s.cases| - i
  {
    hide Went;
    hide Emit;
    hide LowerExpr;
    hide LowerAll;
    hide WfAll;
    hide NewNames;
    hide JumpUnlessTerminated;
    if i < |s.cases| {
      var c := s.cases[i];
      MoveWent(a, st, n + 2 * i, g, slots);
      ExprWent(a, At(st, n + 2 * i), c.value, g, slots);
      var (s1, w) := LowerExpr(c.value, At(st, n + 2 * i));
      var (s2, eq) := NextTemp(s1);
      TempWent(a, s1, g, slots);
      EmitWent(a, s2, Bin(eq, Eq, v, w), g, slots);
      var branch := BranchIf(eq, labels[2 * i + 1], if i + 1 < |s.cases| then labels[2 * i + 2] else defaultL);
      EmitMoveWent(a, Emit(s2, Bin(eq, Eq, v, w)), branch, n + 2 * i + 1, g, slots);
      var s3 := Emit(Emit(s2, Bin(eq, Eq, v, w)), branch);
      ClauseWent(a, At(s3, n + 2 * i + 1), c.body, doneL, g, slots, lp);
      var r3 := JumpUnlessTerminated(LowerAll(c.body, At(s3, n + 2 * i + 1)), doneL);
      CasesWent(a, v, s, i + 1, n, labels, defaultL, doneL, r3, g, slots, lp);
    }
  }

  lemma {:induction false} SwitchWent(s: Stmt, st: Ctx, g: seq<Decl>, slots: seq<Name>, brk: bool, lp: bool)
    requires s.SSwitch? && Ready(st, g, slots) && WfStmt(s, g, brk, lp)
    ensures Went(st, LowerStmt(s, st), g, slots)
    decreases s, 1
  {
    hide Went;
    hide Ready;
    hide Emit;
    hide LowerExpr;
    hide WfExpr;
    hide LowerCases;
    hide LowerAll;
    hide CloseSwitch;
    hide JumpUnlessTerminated;
    Start(st, g, slots);
    ExprWent(st, st, s.e, g, slots);
    var (s1, v) := LowerExpr(s.e, st);
    var (s2, doneL) := NextLabel(s1, "sw_done_");
    var n := |s2.blocks|;
    var t2 := s2.(breaks := s2.breaks + [doneL]);
    PushSwitch(st, s1, t2, g, slots);
    var prefixes := CasePrefixes(|s.cases|) + if s.default.Otherwise? then ["sw_default_"] else [];
    OpenWent(t2, t2, prefixes, g, slots);
    var (s3, labels) := OpenBlocks(t2, prefixes);
    var defaultL := if s.default.Otherwise? then labels[2 * |s.cases|] else doneL;
    if |labels| > 0 { EmitWent(t2, s3, Jump(labels[0]), g, slots); }
    var s4 := if |labels| > 0 then Emit(s3, Jump(labels[0])) else s3;
    CasesWent(t2, v, s, 0, n, labels, defaultL, doneL, s4, g, slots, lp);
    var s5 := LowerCases(v, s, 0, n, labels, defaultL, doneL, s4);
    var s6 := s5;
    if s.default.Otherwise? {
      MoveWent(t2, s5, n + 2 * |s.cases|, g, slots);
      ClauseWent(t2, At(s5, n + 2 * |s.cases|), s.default.body, doneL, g, slots, lp);
      s6 := JumpUnlessTerminated(LowerAll(s.default.body, At(s5, n + 2 * |s.cases|)), doneL);
    }
    CloseWent(st, s1, t2, s6, doneL, g, slots);
  }

  lemma PushSwitch(st: Ctx, a: Ctx, t: Ctx, g: seq<Decl>, slots: seq<Name>)
    requires Went(st, a, g, slots) && t == a.(labelId := a.labelId + 1, breaks := t.breaks)
    ensures Went(t, t, g, slots)
  {
    BindsSame(a, t, g, slots);
    GrowsSelf(t);
  }

  lemma CloseWent(st: Ctx, a: Ctx, t: Ctx, c: Ctx, doneL: Label, g: seq<Decl>, slots: seq<Name>)
    requires Went(st, a, g, slots) && Went(t, c, g, slots)
    requires doneL.Fresh? && doneL.id == a.labelId + 1
    requires t == a.(labelId := a.labelId + 1, breaks := a.breaks + [doneL])
    ensures Went(st, CloseSwitch(doneL, c), g, slots)
  {
    CloseSwitchGrows(st, a, a.(labelId := a.labelId + 1), t, c, doneL);
    BindsSame(c, CloseSwitch(doneL, c), g, slots);
  }
}
