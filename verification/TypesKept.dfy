/** The types that lowering records are those of the text: a plain assignment gives its variable the type of its
    right-hand side, and everything that is lowered after it, wherever it runs, finds that type. */
module TypesKept {
  import opened Options
  import opened Ir
  import opened Source
  import opened Lowering
  import opened WorkingGraph
  import opened Static
  import opened Names
  import opened StmtShape
  import opened ExprMeaning
  import opened StmtFollows
  import opened WrittenCode

  lemma TypesPrefix(types: map<Name, Ty>, slots: seq<Name>, more: seq<Name>)
    requires slots <= more
    ensures TypesAt(types, more)[..|slots|] == TypesAt(types, slots)
  {
  }

  // ----- one step -----

  lemma DeclTypes(d: Decl, init: Option<Expr>, st: Ctx, g: seq<Decl>, slots: seq<Name>)
    requires Ready(st, g, slots)
    ensures TypesAt(LowerDecl(d, init, st).types, slots + [Local(d.name, st.varId + 1)]) ==
            TypesAt(st.types, slots) + [d.ty]
  {
    hide LowerExpr;
    hide Ok;
    hide Emit;
    ReadyOk(st, g, slots);
    hide Binds;
    var (s1, ir) := NextVar(st, d.name);
    var s2 := Define(s1, d, ir);
    var s3 := Emit(s2, VarDecl(ir));
    DeclOk(st, d, g, slots);
    EmitIs(s2, VarDecl(ir));
    if init.Some? { LowerExprGrows(init.value, s3); }
    var (t, dst) := NextTemp(s3);
    var i := Const(dst, if d.ty == TBool then RawBool(false) else IntText(0));
    EmitIs(t, i);
    var (s4, v) := match init case Some(e) => LowerExpr(e, s3) case None => (Emit(t, i), dst);
    EmitIs(s4, StoreVar(Resolve(s4, d.name), v));
    assert LowerDecl(d, init, st).types == st.types[ir := d.ty];
    TypesApart(st.types, ir, d.ty, slots);
  }

  /** In any context, after `x = e` the frontend's guess for `x` is its guess for `e`. */
  lemma AssignRetypes(x: string, e: Expr, st: Ctx)
    requires Ok(st)
    ensures Guess(EVar(x), LowerAssign(x, None, e, st)) == Guess(e, st)
    ensures LowerAssign(x, None, e, st).types == st.types[Resolve(st, x) := Guess(e, st)]
  {
    hide LowerExpr;
    hide Ok;
    hide Emit;
    LowerExprGrows(e, st);
    var (s1, v) := LowerExpr(e, st);
    GuessSame(e, st, s1);
    var s2 := s1.(types := s1.types[Resolve(s1, x) := Guess(e, s1)]);
    EmitIs(s2, StoreVar(Resolve(s2, x), v));
  }

  lemma {:induction false} GuessSame(e: Expr, a: Ctx, b: Ctx)
    requires b.scope == a.scope && b.types == a.types
    ensures Guess(e, b) == Guess(e, a)
  {
    match e {
      case EUn(_, arg) => GuessSame(arg, a, b);
      case EBin(_, left, _) => GuessSame(left, a, b);
      case ECond(_, yes, _) => GuessSame(yes, a, b);
      case _ =>
    }
  }

  lemma AssignTypes(s: Stmt, st: Ctx, g: seq<Decl>, slots: seq<Name>)
    requires s.SAssign? && Ready(st, g, slots) && Find(g, s.x).Some? && WfExpr(s.rhs, g)
    ensures TypesAt(LowerStmt(s, st).types, slots) == TypesAfter(s, g, TypesAt(st.types, slots))
  {
    hide Ok;
    hide LowerExpr;
    hide EmitBin;
    hide Emit;
    ReadyOk(st, g, slots);
    LowerExprGrows(s.rhs, st);
    var (s1, v) := LowerExpr(s.rhs, st);
    if s.aop.None? {
      hide LowerAssign;
      AssignRetypes(s.x, s.rhs, st);
      ForExpr(s.rhs, st, g, slots);
      GuessIsType(s.rhs, st, g, slots);
      assert NameAgrees(st, g, slots, s.x);
      hide Binds;
      TypesUpdate(st.types, slots, st.varId, Find(g, s.x).value, Guess(s.rhs, st));
    } else {
      hide Binds;
      LowerExprGrows(EVar(s.x), s1);
      var (s2, cur) := LowerExpr(EVar(s.x), s1);
      var intLike := Guess(EVar(s.x), s1) == TInt && Guess(s.rhs, s1) == TInt;
      EmitBinGrows(s2, s.aop.value, cur, v, intLike);
      var (s3, next) := EmitBin(s2, s.aop.value, cur, v, intLike);
      EmitIs(s3, StoreVar(Resolve(s3, s.x), next));
    }
  }

  lemma TypesUpdate(types: map<Name, Ty>, slots: seq<Name>, n: nat, k: nat, ty: Ty)
    requires k < |slots| && Slots(slots, n)
    ensures TypesAt(types[slots[k] := ty], slots) == TypesAt(types, slots)[k := ty]
  {
    var ts := TypesAt(types[slots[k] := ty], slots);
    forall i | 0 <= i < |slots|
      ensures ts[i] == TypesAt(types, slots)[k := ty][i]
    {
      if i < k { assert slots[i] != slots[k]; } else if i > k { assert slots[k] != slots[i]; }
    }
  }

  // ----- all statements -----

  /** A graph that is just what has been lowered so far. */
  ghost function Graph(st: Ctx): Function {
    Function([], st.blocks)
  }

  lemma GraphWithin(st: Ctx)
    requires Ok(st)
    ensures Within(st, Graph(st))
  {
  }

  lemma ArmReady(f: Function, b: nat, a: Ctx, r: Ctx, toL: Label, to: nat, g: seq<Decl>, slots: seq<Name>)
    requires Arm(f, b, a, r, toL, to, g, slots)
    ensures Ready(a, g, slots)
  {
  }

  lemma {:induction false} StmtTypes(s: Stmt, st: Ctx, g: seq<Decl>, slots: seq<Name>, brk: bool, lp: bool)
    requires Ready(st, g, slots) && WfStmt(s, g, brk, lp)
    ensures |slots| == |g|
    ensures TypesAt(LowerStmt(s, st).types, SlotsAfter(s, slots, st)) == TypesAfter(s, g, TypesAt(st.types, slots))
    decreases s, 2
  {
    hide Ready;
    hide Ok;
    hide LowerExpr;
    hide LowerDecl;
    hide LowerAssign;
    hide WfExpr;
    hide Binds;
    hide TypesAt;
    ReadyOk(st, g, slots);
    match s {
      case SDecl(d, init) => DeclTypes(d, init, st, g, slots);
      case SAssign(_, _, _) => AssignTypes(s, st, g, slots);
      case SExpr(e) => LowerExprGrows(e, st);
      case SBlock(body) =>
        AllTypes(body, st, g, slots, brk, lp);
        TypesPrefix(LowerAll(body, st).types, slots, SlotsAll(body, slots, st));
      case SIf(_, _, _) => IfTypes(s, st, g, slots, brk, lp);
      case SWhile(_, _) => WhileTypes(s, st, g, slots, brk, lp);
      case SDo(_, _) => WhileTypes(s, st, g, slots, brk, lp);
      case SFor(_, _, _, _) => ForTypes(s, st, g, slots, brk, lp);
      case SSwitch(_, _, _) => SwitchTypes(s, st, g, slots, brk, lp);
      case SBreak => EmitIs(st, if st.breaks == [] then Unhandled else Jump(st.breaks[|st.breaks| - 1]));
      case SContinue => EmitIs(st, if st.loops == [] then Unhandled
                               else Jump(st.loops[|st.loops| - 1].continueLabel));
      case SReturn(result) =>
        if result.Some? {
          LowerExprGrows(result.value, st);
          EmitIs(LowerExpr(result.value, st).0, Ret(LowerExpr(result.value, st).1));
        } else {
          EmitIs(st, RetVoid);
        }
    }
  }

  lemma {:induction false} AllTypes(ss: seq<Stmt>, st: Ctx, g: seq<Decl>, slots: seq<Name>, brk: bool, lp: bool)
    requires Ready(st, g, slots) && WfAll(ss, g, brk, lp)
    ensures |slots| == |g|
    ensures TypesAt(LowerAll(ss, st).types, SlotsAll(ss, slots, st)) == TypesAll(ss, g, TypesAt(st.types, slots))
    decreases ss, 0
  {
    hide Ready;
    hide LowerStmt;
    hide WfStmt;
    hide TypesAt;
    hide TypesAfter;
    ReadyOk(st, g, slots);
    if ss != [] {
      var s := ss[0];
      StmtWent(s, st, g, slots, brk, lp);
      ReadyOf(st, LowerStmt(s, st), After(g, s), SlotsAfter(s, slots, st));
      StmtTypes(s, st, g, slots, brk, lp);
      AllTypes(ss[1..], LowerStmt(s, st), After(g, s), SlotsAfter(s, slots, st), brk, lp);
    }
  }

  /** A body, without what it declares. */
  lemma BodyOnly(s: Stmt, a: Ctx, g: seq<Decl>, slots: seq<Name>, brk: bool, lp: bool)
    requires Ready(a, g, slots) && WfStmt(s, g, brk, lp)
    ensures |slots| == |g|
    ensures TypesAt(LowerStmt(s, a).types, slots) == TypesAfter(s, g, TypesAt(a.types, slots))[..|g|]
    decreases s, 3
  {
    hide *;
    ReadyOk(a, g, slots);
    StmtTypes(s, a, g, slots, brk, lp);
    SlotsPrefix(s, slots, a);
    TypesPrefix(LowerStmt(s, a).types, slots, SlotsAfter(s, slots, a));
  }

  lemma SlotsPrefix(s: Stmt, slots: seq<Name>, st: Ctx)
    ensures slots <= SlotsAfter(s, slots, st)
  {
  }

  lemma AllOnly(ss: seq<Stmt>, a: Ctx, g: seq<Decl>, slots: seq<Name>, brk: bool, lp: bool)
    requires Ready(a, g, slots) && WfAll(ss, g, brk, lp)
    ensures |slots| == |g|
    ensures TypesAt(LowerAll(ss, a).types, slots) == TypesAll(ss, g, TypesAt(a.types, slots))[..|g|]
    decreases ss, 1
  {
    hide *;
    ReadyOk(a, g, slots);
    AllTypes(ss, a, g, slots, brk, lp);
    TypesPrefix(LowerAll(ss, a).types, slots, SlotsAll(ss, slots, a));
  }

  lemma WholeWithin(s: Stmt, st: Ctx, g: seq<Decl>, slots: seq<Name>, brk: bool, lp: bool)
    requires Ready(st, g, slots) && WfStmt(s, g, brk, lp)
    ensures Within(LowerStmt(s, st), Graph(LowerStmt(s, st)))
  {
    hide *;
    StmtWent(s, st, g, slots, brk, lp);
    ReadyOf(st, LowerStmt(s, st), After(g, s), SlotsAfter(s, slots, st));
    GraphWithin(LowerStmt(s, st));
  }

  lemma {:induction false} IfTypes(s: Stmt, st: Ctx, g: seq<Decl>, slots: seq<Name>, brk: bool, lp: bool)
    requires s.SIf? && Ready(st, g, slots) && WfStmt(s, g, brk, lp)
    ensures |slots| == |g|
    ensures TypesAt(LowerStmt(s, st).types, slots) == TypesAfter(s, g, TypesAt(st.types, slots))
    decreases s, 0
  {
    hide Ready;
    hide LowerStmt;
    hide TypesAt;
    hide Emit;
    hide Arm;
    hide Fork;
    hide Join;
    hide WfExpr;
    ReadyOk(st, g, slots);
    WholeWithin(s, st, g, slots, brk, lp);
    var f := Graph(LowerStmt(s, st));
    var p := IfFacts(s, st, f, g, slots, brk, lp);
    ArmReady(f, p.n, p.yesAt, LowerStmt(s.yes, p.yesAt), p.doneL, p.n + 1, g, slots);
    BodyOnly(s.yes, p.yesAt, g, slots, brk, lp);
    EmitIs(p.doneAt, Nop);
    if s.no.Some? {
      ArmReady(f, p.no, p.noAt, LowerStmt(s.no.value, p.noAt), p.doneL, p.n + 1, g, slots);
      BodyOnly(s.no.value, p.noAt, g, slots, brk, lp);
    }
  }

  lemma {:induction false} WhileTypes(s: Stmt, st: Ctx, g: seq<Decl>, slots: seq<Name>, brk: bool, lp: bool)
    requires (s.SWhile? || s.SDo?) && Ready(st, g, slots) && WfStmt(s, g, brk, lp)
    ensures |slots| == |g|
    ensures TypesAt(LowerStmt(s, st).types, slots) == TypesAfter(s, g, TypesAt(st.types, slots))
    decreases s, 0
  {
    hide Ready;
    hide LowerStmt;
    hide TypesAt;
    hide Emit;
    hide Arm;
    hide Fork;
    hide Join;
    hide WfExpr;
    hide Targets;
    ReadyOk(st, g, slots);
    WholeWithin(s, st, g, slots, brk, lp);
    var f := Graph(LowerStmt(s, st));
    var p: LoopPlan, at: Ctx;
    if s.SWhile? { p, at := WhileFacts(s, st, f, g, slots, brk, lp); }
    else { p, at := DoFacts(s, st, f, g, slots, brk, lp); }
    ArmReady(f, p.body, p.bodyAt, LowerStmt(s.loop, p.bodyAt), p.againL, p.again, g, slots);
    BodyOnly(s.loop, p.bodyAt, g, slots, true, true);
    EmitIs(at, Nop);
  }

  lemma {:induction false} ForTypes(s: Stmt, st: Ctx, g: seq<Decl>, slots: seq<Name>, brk: bool, lp: bool)
    requires s.SFor? && Ready(st, g, slots) && WfStmt(s, g, brk, lp)
    ensures |slots| == |g|
    ensures TypesAt(LowerStmt(s, st).types, slots) == TypesAfter(s, g, TypesAt(st.types, slots))
    decreases s, 0
  {
    hide Ready;
    hide LowerStmt;
    hide TypesAt;
    hide Emit;
    hide Arm;
    hide Fork;
    hide Join;
    hide WfExpr;
    hide Targets;
    ReadyOk(st, g, slots);
    WholeWithin(s, st, g, slots, brk, lp);
    var f := Graph(LowerStmt(s, st));
    var p, initL, init, initAt, at := ForFacts(s, st, f, g, slots, brk, lp);
    var h, more := After(g, s.start), SlotsAfter(s.start, slots, initAt);
    ArmReady(f, init, initAt, LowerStmt(s.start, initAt), p.condL, p.cond, g, slots);
    StmtTypes(s.start, initAt, g, slots, false, false);
    ArmReady(f, p.body, p.bodyAt, LowerStmt(s.loop, p.bodyAt), p.againL, p.again, h, more);
    BodyOnly(s.loop, p.bodyAt, h, more, true, true);
    ArmReady(f, p.again, p.stepAt, LowerStmt(s.step, p.stepAt), p.condL, p.cond, h, more);
    StepSame(s.step, h, more, p.stepAt);
    StmtTypes(s.step, p.stepAt, h, more, false, false);
    EmitIs(at, Nop);
    SlotsPrefix(s.start, slots, initAt);
    TypesPrefix(LowerStmt(s.step, p.stepAt).types, slots, more);
  }

  lemma {:induction false} CasesTypes(p: SwitchPlan, s: Stmt, i: nat, st: Ctx, t: Ctx, f: Function, g: seq<Decl>,
                                      slots: seq<Name>, brk: bool, lp: bool)
    requires s.SSwitch? && i <= |s.cases| && 2 * |s.cases| <= |p.labels| && CasesCode(p, s, i, st, t, f, g, slots)
    requires WfStmt(s, g, brk, lp) && |slots| == |g|
    ensures TypesAt(AllCases(p, s, i, st).types, slots) == TypesCases(s, i, g, TypesAt(st.types, slots))
    decreases s, 0, |s.cases| - i
  {
    hide *;
    CasesStep(p, s, i, st);
    CasesCodeStep(p, s, i, st, t, f, g, slots);
    CasesTypesStep(s, i, g, TypesAt(st.types, slots));
    if i < |s.cases| {
      CaseWf(s, i, g, brk, lp);
      var b := BodyAt(p, s, i, st);
      CaseReady(p, s, i, st, t, f, g, slots);
      CaseTypes(p, s, i, st, g, slots);
      AllOnly(s.cases[i].body, b, g, slots, true, lp);
      CasesTypes(p, s, i + 1, NextCase(p, s, i, st), t, f, g, slots, brk, lp);
    }
  }

  lemma CasesTypesStep(s: Stmt, i: nat, g: seq<Decl>, ts: seq<Ty>)
    requires s.SSwitch? && i <= |s.cases| && |ts| == |g|
    ensures TypesCases(s, i, g, ts) ==
            if i == |s.cases| then ts else TypesCases(s, i + 1, g, TypesAll(s.cases[i].body, g, ts)[..|g|])
  {
    hide TypesAll;
  }

  lemma CaseReady(p: SwitchPlan, s: Stmt, i: nat, st: Ctx, t: Ctx, f: Function, g: seq<Decl>, slots: seq<Name>)
    requires s.SSwitch? && i < |s.cases| && 2 * |s.cases| <= |p.labels| && CaseCode(p, s, i, st, t, f, g, slots)
    ensures Ready(At(st, p.n + 2 * i), g, slots) && Ready(BodyAt(p, s, i, st), g, slots)
  {
    hide Ready;
    hide Within;
    hide BodyAt;
    hide Compared;
  }

  lemma {:induction false} SwitchTypes(s: Stmt, st: Ctx, g: seq<Decl>, slots: seq<Name>, brk: bool, lp: bool)
    requires s.SSwitch? && Ready(st, g, slots) && WfStmt(s, g, brk, lp)
    ensures |slots| == |g|
    ensures TypesAt(LowerStmt(s, st).types, slots) == TypesAfter(s, g, TypesAt(st.types, slots))
    decreases s, 1
  {
    hide Ready;
    hide LowerStmt;
    hide TypesAt;
    hide TypesCases;
    hide TypesAll;
    hide Arm;
    hide Join;
    hide CasesCode;
    hide AllCases;
    hide LowerAll;
    hide WfExpr;
    ReadyOk(st, g, slots);
    WholeWithin(s, st, g, slots, brk, lp);
    var f := Graph(LowerStmt(s, st));
    var p, first, dfltAt, at := SwitchFacts(s, st, f, g, slots, brk, lp);
    var s1 := LowerExpr(s.e, st).0;
    var t := s1.(labelId := s1.labelId + 1, breaks := s1.breaks + [p.doneL]);
    CasesTypes(p, s, 0, first, t, f, g, slots, brk, lp);
    if s.default.Otherwise? {
      ArmReady(f, p.default, dfltAt, LowerAll(s.default.body, dfltAt), p.doneL, p.done, g, slots);
      AllOnly(s.default.body, dfltAt, g, slots, true, lp);
    }
  }

  // ----- what the conditions mean for the parts of a statement -----

  lemma AllFitsParts(ss: seq<Stmt>, st: Ctx, g: seq<Decl>, slots: seq<Name>, brk: bool, lp: bool)
    requires Ready(st, g, slots) && WfAll(ss, g, brk, lp) && AllFits(ss, st, g, slots) && ss != []
    ensures StmtFits(ss[0], st, g, slots)
    ensures AllFits(ss[1..], LowerStmt(ss[0], st), After(g, ss[0]), SlotsAfter(ss[0], slots, st))
  {
    hide Ready;
    hide LowerStmt;
    hide WfStmt;
    hide TypesAt;
    hide TypesAfter;
    hide TypedStmt;
    StmtTypes(ss[0], st, g, slots, brk, lp);
  }

  lemma BlockFits(s: Stmt, st: Ctx, g: seq<Decl>, slots: seq<Name>)
    requires s.SBlock? && StmtFits(s, st, g, slots)
    ensures AllFits(s.body, st, g, slots)
  {
    hide TypesAt;
  }

  lemma IfFits(s: Stmt, st: Ctx, yesAt: Ctx, noAt: Ctx, g: seq<Decl>, slots: seq<Name>, brk: bool, lp: bool)
    requires s.SIf? && Ready(yesAt, g, slots) && WfStmt(s, g, brk, lp) && StmtFits(s, st, g, slots)
    requires yesAt.types == st.types && (s.no.Some? ==> noAt.types == LowerStmt(s.yes, yesAt).types)
    ensures ExprFits(s.cond, st, g, slots) && StmtFits(s.yes, yesAt, g, slots)
    ensures s.no.Some? ==> StmtFits(s.no.value, noAt, g, slots)
  {
    hide TypesAt;
    hide TypesAfter;
    hide TypedExpr;
    hide LowerStmt;
    hide WfExpr;
    hide Ready;
    BodyOnly(s.yes, yesAt, g, slots, brk, lp);
  }

  /** The conditions on the parts of a loop, each where it is lowered. */
  ghost predicate LoopFits(p: LoopPlan, s: Stmt, g: seq<Decl>, slots: seq<Name>)
    requires IsLoop(s)
  {
    ExprFits(s.cond, p.condAt, g, slots) && StmtFits(s.loop, p.bodyAt, g, slots) &&
    (s.SFor? ==> StmtFits(s.step, p.stepAt, g, slots))
  }

  lemma WhileFits(s: Stmt, st: Ctx, p: LoopPlan, g: seq<Decl>, slots: seq<Name>, brk: bool, lp: bool)
    requires (s.SWhile? || s.SDo?) && Ready(p.bodyAt, g, slots) && WfStmt(s, g, brk, lp) && StmtFits(s, st, g, slots)
    requires p.bodyAt.types == st.types
    requires p.condAt.types == if s.SWhile? then st.types else LowerStmt(s.loop, p.bodyAt).types
    ensures LoopFits(p, s, g, slots)
  {
    hide TypesAt;
    hide TypesAfter;
    hide TypedExpr;
    hide LowerStmt;
    hide WfExpr;
    hide Ready;
    BodyOnly(s.loop, p.bodyAt, g, slots, true, true);
  }

  lemma ForFits(s: Stmt, st: Ctx, initAt: Ctx, p: LoopPlan, g: seq<Decl>, slots: seq<Name>, brk: bool, lp: bool)
    requires s.SFor? && WfStmt(s, g, brk, lp) && StmtFits(s, st, g, slots) && initAt.types == st.types
    requires Ready(initAt, g, slots) && Ready(p.bodyAt, After(g, s.start), SlotsAfter(s.start, slots, initAt))
    requires p.condAt.types == p.bodyAt.types == LowerStmt(s.start, initAt).types
    requires p.stepAt.types == LowerStmt(s.loop, p.bodyAt).types
    ensures StmtFits(s.start, initAt, g, slots) && IsLoop(s)
    ensures LoopFits(p, s, After(g, s.start), SlotsAfter(s.start, slots, initAt))
  {
    hide TypesAt;
    hide TypesAfter;
    hide TypedExpr;
    hide LowerStmt;
    hide WfExpr;
    hide Ready;
    StmtTypes(s.start, initAt, g, slots, false, false);
    BodyOnly(s.loop, p.bodyAt, After(g, s.start), SlotsAfter(s.start, slots, initAt), true, true);
  }

  /** The conditions on the clauses from number `i` on, the first of which is lowered at `st`. */
  predicate CasesFit(s: Stmt, i: nat, st: Ctx, g: seq<Decl>, slots: seq<Name>)
    requires s.SSwitch? && i <= |s.cases|
  {
    |slots| == |g| && TypedCases(s, i, g, TypesAt(st.types, slots))
  }

  lemma CaseFits(p: SwitchPlan, s: Stmt, i: nat, st: Ctx, t: Ctx, f: Function, g: seq<Decl>, slots: seq<Name>,
                 brk: bool, lp: bool)
    requires s.SSwitch? && i < |s.cases| && 2 * |s.cases| <= |p.labels| && CaseCode(p, s, i, st, t, f, g, slots)
    requires WfStmt(s, g, brk, lp) && CasesFit(s, i, st, g, slots)
    ensures ExprFits(s.cases[i].value, At(st, p.n + 2 * i), g, slots)
    ensures AllFits(s.cases[i].body, BodyAt(p, s, i, st), g, slots)
    ensures CasesFit(s, i + 1, NextCase(p, s, i, st), g, slots)
  {
    hide *;
    CaseWf(s, i, g, brk, lp);
    CaseReady(p, s, i, st, t, f, g, slots);
    CaseTypes(p, s, i, st, g, slots);
    AllOnly(s.cases[i].body, BodyAt(p, s, i, st), g, slots, true, lp);
    CaseFitsIs(s, i, st, At(st, p.n + 2 * i), BodyAt(p, s, i, st), NextCase(p, s, i, st), g, slots);
  }

  lemma CaseFitsIs(s: Stmt, i: nat, st: Ctx, a: Ctx, b: Ctx, r: Ctx, g: seq<Decl>, slots: seq<Name>)
    requires s.SSwitch? && i < |s.cases| && CasesFit(s, i, st, g, slots)
    requires a.types == st.types == b.types
    requires TypesAt(r.types, slots) == TypesAll(s.cases[i].body, g, TypesAt(b.types, slots))[..|g|]
    ensures ExprFits(s.cases[i].value, a, g, slots) && AllFits(s.cases[i].body, b, g, slots) &&
            CasesFit(s, i + 1, r, g, slots)
  {
    hide TypesAt;
    hide TypesAll;
    hide TypedAll;
    hide TypedExpr;
  }

  lemma SwitchFits(p: SwitchPlan, s: Stmt, st: Ctx, first: Ctx, dfltAt: Ctx, t: Ctx, f: Function, g: seq<Decl>,
                   slots: seq<Name>, brk: bool, lp: bool)
    requires s.SSwitch? && 2 * |s.cases| <= |p.labels| && CasesCode(p, s, 0, first, t, f, g, slots)
    requires WfStmt(s, g, brk, lp) && StmtFits(s, st, g, slots) && first.types == st.types
    requires s.default.Otherwise? ==> dfltAt.types == AllCases(p, s, 0, first).types
    ensures ExprFits(s.e, st, g, slots) && CasesFit(s, 0, first, g, slots)
    ensures s.default.Otherwise? ==> AllFits(s.default.body, dfltAt, g, slots)
  {
    hide TypesAt;
    hide TypesCases;
    hide TypesAll;
    hide TypedAll;
    hide TypedExpr;
    hide TypedCases;
    hide CasesCode;
    hide AllCases;
    CasesTypes(p, s, 0, first, t, f, g, slots, brk, lp);
  }
}
